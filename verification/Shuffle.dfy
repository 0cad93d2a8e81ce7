/** What the seed does to a list: drawing without replacement, and a result that tells the draws (node/src/jury.js). */
module Shuffle {
  import opened Panel

  /** The items drawn, last place first: the seed picks one of the n that are left, and the last of them
      takes its place. */
  function Drawn<T>(left: seq<T>, seed: seq<nat>): (r: seq<T>)
    requires seed != []
    ensures |r| == |left|
    decreases |left|
  {
    if |left| <= 1 then left else
    var n := |left|;
    var j := seed[(n - 1) % |seed|] % n;
    Drawn(left[j := left[n - 1]][..n - 1], seed) + [left[j]]
  }

  lemma FromStep<T>(s: seq<T>, seed: seq<nat>, i: nat)
    requires seed != [] && 0 < i < |s|
    ensures ShuffleFrom(s, seed, i) == ShuffleFrom(Swapped(s, i, SwapIndex(seed, i)), seed, i - 1)
  {
    hide Swapped, SwapIndex;
  }

  lemma {:induction false} FromIsDrawn<T>(s: seq<T>, seed: seq<nat>, i: int)
    requires seed != [] && i < |s|
    ensures i < 0 ==> ShuffleFrom(s, seed, i) == s
    ensures i >= 0 ==> ShuffleFrom(s, seed, i) == Drawn(s[..i + 1], seed) + s[i + 1..]
    decreases i
  {
    if i == 0 {
      assert s == s[..1] + s[1..];
    } else if i > 0 {
      hide *;
      var j := SwapIndex(seed, i);
      FromIsDrawn(Swapped(s, i, j), seed, i - 1);
      SwapDraws(s, seed, i, j);
      assert ShuffleFrom(s, seed, i) == Drawn(s[..i + 1], seed) + s[i + 1..];
    }
  }

  lemma SwapDraws<T>(s: seq<T>, seed: seq<nat>, i: nat, j: nat)
    requires seed != [] && 0 < i < |s| && j == SwapIndex(seed, i)
    ensures var swapped := Swapped(s, i, j);
      && ShuffleFrom(s, seed, i) == ShuffleFrom(swapped, seed, i - 1)
      && Drawn(swapped[..i], seed) + swapped[i..] == Drawn(s[..i + 1], seed) + s[i + 1..]
  {
    var swapped, left := Swapped(s, i, j), s[..i + 1];
    FromStep(s, seed, i);
    assert Drawn(left, seed) == Drawn(left[j := left[i]][..i], seed) + [left[j]];
    hide Drawn, ShuffleFrom, SwapIndex;
    assert swapped[..i] == left[j := left[i]][..i];
    assert swapped[i..] == [left[j]] + s[i + 1..];
    assert Drawn(swapped[..i], seed) + ([left[j]] + s[i + 1..]) == Drawn(swapped[..i], seed) + [left[j]] + s[i + 1..];
  }

  /** The in-place swaps draw from what is left, from the last place down. */
  lemma ShuffleDraws<T>(s: seq<T>, seed: seq<nat>)
    requires seed != []
    ensures Shuffled(s, seed) == Drawn(s, seed)
  {
    FromIsDrawn(s, seed, |s| - 1);
    assert s[..|s|] == s;
  }

  // ---------------------------------------------------------------- the result tells the draws

  ghost predicate NoRepeats<T>(s: seq<T>) {
    forall i, j | 0 <= i < j < |s| :: s[i] != s[j]
  }

  /** From place 1 up to place `i` the seeds draw alike. */
  ghost predicate SameDraws(a: seq<nat>, b: seq<nat>, i: int)
    requires a != [] && b != []
  {
    forall k: nat {:trigger a[k % |a|]} | 1 <= k <= i :: a[k % |a|] % (k + 1) == b[k % |b|] % (k + 1)
  }

  lemma SameDrawsLast(a: seq<nat>, b: seq<nat>, i: int)
    requires a != [] && b != [] && i >= 1
    ensures SameDraws(a, b, i) <==> SameDraws(a, b, i - 1) && a[i % |a|] % (i + 1) == b[i % |b|] % (i + 1)
  {
    assert a[i % |a|] == a[i % |a|];
  }

  /** Places beyond the swaps still to come keep their items. */
  lemma {:induction false} Settled<T>(s: seq<T>, seed: seq<nat>, i: int)
    requires seed != [] && i < |s|
    ensures |ShuffleFrom(s, seed, i)| == |s|
    ensures forall k | 0 <= k < |s| && k > i :: ShuffleFrom(s, seed, i)[k] == s[k]
    decreases i
  {
    if i > 0 {
      Settled(Swapped(s, i, SwapIndex(seed, i)), seed, i - 1);
    }
  }

  lemma SwappedNoRepeats<T>(s: seq<T>, i: nat, j: nat)
    requires i < |s| && j < |s| && NoRepeats(s)
    ensures NoRepeats(Swapped(s, i, j))
  {}

  lemma {:induction false} FromTellsDraws<T>(s: seq<T>, a: seq<nat>, b: seq<nat>, i: int)
    requires a != [] && b != [] && i < |s| && NoRepeats(s)
    ensures ShuffleFrom(s, a, i) == ShuffleFrom(s, b, i) <==> SameDraws(a, b, i)
    decreases i
  {
    if i > 0 {
      hide *;
      var j, k := SwapIndex(a, i), SwapIndex(b, i);
      DrawAt(a, b, i);
      FromStep(s, a, i);
      FromStep(s, b, i);
      if j == k {
        SwappedNoRepeats(s, i, j);
        FromTellsDraws(Swapped(s, i, j), a, b, i - 1);
      } else {
        DrawnApart(s, a, b, i, j, k);
      }
    }
  }

  lemma DrawAt(a: seq<nat>, b: seq<nat>, i: int)
    requires a != [] && b != [] && i >= 1
    ensures SameDraws(a, b, i) <==> SameDraws(a, b, i - 1) && SwapIndex(a, i) == SwapIndex(b, i)
  {
    SameDrawsLast(a, b, i);
    hide SameDraws;
  }

  lemma DrawnApart<T>(s: seq<T>, a: seq<nat>, b: seq<nat>, i: nat, j: nat, k: nat)
    requires a != [] && b != [] && 0 < i < |s| && j <= i && k <= i && j != k && NoRepeats(s)
    ensures ShuffleFrom(Swapped(s, i, j), a, i - 1) != ShuffleFrom(Swapped(s, i, k), b, i - 1)
  {
    Settled(Swapped(s, i, j), a, i - 1);
    Settled(Swapped(s, i, k), b, i - 1);
    SwappedAt(s, i, j);
    SwappedAt(s, i, k);
    hide ShuffleFrom, Swapped;
  }

  lemma SwappedAt<T>(s: seq<T>, i: nat, j: nat)
    requires i < |s| && j < |s|
    ensures Swapped(s, i, j)[i] == s[j]
  {}

  /** Of a list without repeats two seeds make the same order exactly if they draw alike: at every place i
      above 0 their entries agree modulo i + 1. */
  lemma OrderTellsDraws<T>(s: seq<T>, a: seq<nat>, b: seq<nat>)
    requires a != [] && b != [] && NoRepeats(s)
    ensures Shuffled(s, a) == Shuffled(s, b)
      <==> forall k: nat {:trigger a[k % |a|]} | 1 <= k < |s| :: a[k % |a|] % (k + 1) == b[k % |b|] % (k + 1)
  {
    FromTellsDraws(s, a, b, |s| - 1);
  }

  // ---------------------------------------------------------------- every order can come out

  /** A seed that takes `s` to `t`, where the two already agree beyond place `i`. */
  lemma {:induction false} SeedTo<T>(s: seq<T>, t: seq<T>, i: int) returns (seed: seq<nat>)
    requires |s| == |t| > 0 && -1 <= i < |s| && s[i + 1..] == t[i + 1..] && multiset(s[..i + 1]) == multiset(t[..i + 1])
    ensures |seed| == |s| && (forall k | 0 <= k < |s| :: seed[k] <= k) && ShuffleFrom(s, seed, i) == t
    decreases i
  {
    if i <= 0 {
      seed := seq(|s|, _ => 0);
      FirstAgrees(s, t, i);
    } else {
      var j := PlaceOf(s, t, i);
      var swapped := Swapped(s, i, j);
      SwapAgrees(s, t, i, j);
      var draws := SeedTo(swapped, t, i - 1);
      seed := draws[i := j];
      OneDrawMore(s, draws, i, j);
    }
  }

  lemma OneDrawMore<T>(s: seq<T>, draws: seq<nat>, i: nat, j: nat)
    requires |draws| == |s| && j <= i && 0 < i < |s|
    ensures ShuffleFrom(s, draws[i := j], i) == ShuffleFrom(Swapped(s, i, j), draws, i - 1)
  {
    hide *;
    var seed := draws[i := j];
    OwnEntry(draws, seed, i, j);
    FromStep(s, seed, i);
    AlikeOnly(Swapped(s, i, j), seed, draws, i - 1);
  }

  /** With an entry per place, a place reads its own entry. */
  lemma OwnEntry(draws: seq<nat>, seed: seq<nat>, i: nat, j: nat)
    requires 0 < i < |draws| && j <= i && seed == draws[i := j]
    ensures SwapIndex(seed, i) == j && SameDraws(seed, draws, i - 1)
  {
    Small(i, |draws|);
    Small(j, i + 1);
    forall k: nat | 1 <= k <= i - 1 ensures seed[k % |seed|] == draws[k % |draws|] {
      Small(k, |draws|);
    }
  }

  lemma Small(k: nat, n: nat)
    requires k < n
    ensures k % n == k
  {}

  lemma FirstAgrees<T>(s: seq<T>, t: seq<T>, i: int)
    requires |s| == |t| > 0 && -1 <= i <= 0 && s[i + 1..] == t[i + 1..] && multiset(s[..i + 1]) == multiset(t[..i + 1])
    ensures s == t
  {
    if i == 0 {
      assert s[0] in multiset(s[..1]);
      assert t[..1] == [t[0]];
      assert s == [s[0]] + s[1..] && t == [t[0]] + t[1..];
    }
  }

  lemma PlaceOf<T>(s: seq<T>, t: seq<T>, i: nat) returns (j: nat)
    requires |s| == |t| && i < |s| && multiset(s[..i + 1]) == multiset(t[..i + 1])
    ensures j <= i && s[j] == t[i]
  {
    assert t[..i + 1][i] == t[i];
    assert t[i] in multiset(t[..i + 1]);
    assert t[i] in s[..i + 1];
    j :| 0 <= j <= i && s[..i + 1][j] == t[i];
  }

  lemma SwapAgrees<T>(s: seq<T>, t: seq<T>, i: nat, j: nat)
    requires |s| == |t| && j <= i < |s| && s[j] == t[i]
    requires s[i + 1..] == t[i + 1..] && multiset(s[..i + 1]) == multiset(t[..i + 1])
    ensures var swapped := Swapped(s, i, j);
      swapped[i..] == t[i..] && multiset(swapped[..i]) == multiset(t[..i])
  {
    hide Swapped;
    var swapped, head := Swapped(s, i, j), s[..i + 1];
    SwappedElements(head, i, j);
    SwapParts(s, i, j);
    assert t[..i + 1] == t[..i] + [t[i]];
    assert t[i..] == [t[i]] + t[i + 1..];
    SameRest(swapped[..i], t[..i], t[i]);
  }

  lemma SwapParts<T>(s: seq<T>, i: nat, j: nat)
    requires j <= i < |s|
    ensures var swapped := Swapped(s, i, j);
      && swapped[..i] + [s[j]] == Swapped(s[..i + 1], i, j)
      && swapped[i..] == [s[j]] + s[i + 1..]
  {}

  lemma SameRest<T>(a: seq<T>, b: seq<T>, x: T)
    requires multiset(a + [x]) == multiset(b + [x])
    ensures multiset(a) == multiset(b)
  {
    assert multiset(a) == multiset(a + [x]) - multiset{x};
    assert multiset(b) == multiset(b + [x]) - multiset{x};
  }

  /** Seeds that draw alike shuffle alike. */
  lemma {:induction false} AlikeOnly<T>(s: seq<T>, a: seq<nat>, b: seq<nat>, i: int)
    requires a != [] && b != [] && i < |s| && SameDraws(a, b, i)
    ensures ShuffleFrom(s, a, i) == ShuffleFrom(s, b, i)
    decreases i
  {
    if i > 0 {
      SameDrawsLast(a, b, i);
      AlikeOnly(Swapped(s, i, SwapIndex(a, i)), a, b, i - 1);
    }
  }

  /** Every order of a list comes out for some seed with an entry per place. Entry k is at most k, so for
      up to 256 items the entries are bytes. */
  lemma EveryOrder<T>(s: seq<T>, t: seq<T>) returns (seed: seq<nat>)
    requires multiset(t) == multiset(s)
    ensures |seed| == (if s == [] then 1 else |s|) && (forall k | 0 <= k < |seed| :: seed[k] <= k)
    ensures Shuffled(s, seed) == t
  {
    assert |multiset(s)| == |multiset(t)|;
    if s == [] {
      seed := [0];
    } else {
      assert s[..|s|] == s && t[..|t|] == t;
      seed := SeedTo(s, t, |s| - 1);
    }
  }
}
