/** Strings as the source's language sees them: sequences of UTF-16 code units, compared unit by unit. */
module Texts {
  // Dafny's own char leaves out surrogates, which the source's strings may contain, so a code unit is a
  // number here. `Sort` is the array sort the source uses with that comparison.

  type Text = seq<int>

  predicate Less(a: Text, b: Text) {
    b != [] && (a == [] || a[0] < b[0] || (a[0] == b[0] && Less(a[1..], b[1..])))
  }

  lemma {:induction false} LessTotal(a: Text, b: Text)
    ensures a == b || Less(a, b) || Less(b, a)
  {
    if a != [] && b != [] && a[0] == b[0] {
      LessTotal(a[1..], b[1..]);
      assert a == [a[0]] + a[1..] && b == [b[0]] + b[1..];
    }
  }

  lemma {:induction false} LessAsymmetric(a: Text, b: Text)
    ensures !(Less(a, b) && Less(b, a))
  {
    if a != [] && b != [] {
      LessAsymmetric(a[1..], b[1..]);
    }
  }

  lemma {:induction false} LessTransitive(a: Text, b: Text, c: Text)
    requires Less(a, b) && Less(b, c)
    ensures Less(a, c)
  {
    if a != [] && a[0] == b[0] == c[0] {
      LessTransitive(a[1..], b[1..], c[1..]);
    }
  }

  /** The texts agree up to place `i`, where the first ends or has the smaller code unit. */
  predicate PrecedesAt(a: Text, b: Text, i: nat) {
    && i <= |a| && i < |b|
    && (forall k | 0 <= k < i :: a[k] == b[k])
    && (i == |a| || a[i] < b[i])
  }

  /** The order of texts, from positions: a proper prefix comes first, and otherwise the first place where
      two texts differ decides, by the numbers of the code units there. */
  ghost predicate Precedes(a: Text, b: Text) {
    exists i: nat :: PrecedesAt(a, b, i)
  }

  lemma {:induction false} LessIsPrecedes(a: Text, b: Text)
    ensures Less(a, b) <==> Precedes(a, b)
  {
    if a == [] || b == [] || a[0] < b[0] {
      assert b != [] ==> PrecedesAt(a, b, 0);
    } else if a[0] == b[0] {
      LessIsPrecedes(a[1..], b[1..]);
      if i: nat :| PrecedesAt(a[1..], b[1..], i) {
        PrecedesNext(a, b, i);
      }
      if i: nat :| PrecedesAt(a, b, i) {
        assert i > 0;
        PrecedesNext(a, b, i - 1);
      }
    }
  }

  lemma PrecedesNext(a: Text, b: Text, i: nat)
    requires a != [] && b != [] && a[0] == b[0]
    ensures PrecedesAt(a, b, i + 1) <==> PrecedesAt(a[1..], b[1..], i)
  {
    if PrecedesAt(a[1..], b[1..], i) {
      forall k | 0 <= k < i + 1 ensures a[k] == b[k] {
        assert k > 0 ==> a[k] == a[1..][k - 1] && b[k] == b[1..][k - 1];
      }
    }
  }

  // ---------------------------------------------------------------- sorting by a text key

  function Insert<T>(x: T, xs: seq<T>, key: T -> Text): (r: seq<T>)
    ensures multiset(r) == multiset{x} + multiset(xs)
  {
    if xs == [] then [x]
    else if Less(key(xs[0]), key(x)) then
      assert xs == [xs[0]] + xs[1..];
      [xs[0]] + Insert(x, xs[1..], key)
    else [x] + xs
  }

  function Sort<T>(xs: seq<T>, key: T -> Text): (r: seq<T>)
    ensures multiset(r) == multiset(xs)
  {
    if xs == [] then [] else
    assert xs == [xs[0]] + xs[1..];
    Insert(xs[0], Sort(xs[1..], key), key)
  }

  ghost predicate DistinctKeys<T>(xs: seq<T>, key: T -> Text) {
    forall i, j | 0 <= i < j < |xs| :: key(xs[i]) != key(xs[j])
  }

  ghost predicate StrictlySorted<T>(xs: seq<T>, key: T -> Text) {
    forall i, j | 0 <= i < j < |xs| :: Less(key(xs[i]), key(xs[j]))
  }

  ghost predicate SameElements<T>(xs: seq<T>, ys: seq<T>) {
    (forall x | x in xs :: x in ys) && (forall y | y in ys :: y in xs)
  }

  lemma SortElements<T>(xs: seq<T>, key: T -> Text)
    ensures |Sort(xs, key)| == |xs|
    ensures SameElements(xs, Sort(xs, key))
  {
    var r := Sort(xs, key);
    assert |multiset(r)| == |multiset(xs)|;
    forall x | x in xs ensures x in r {
      assert x in multiset(xs);
      assert x in multiset(r);
    }
    forall x | x in r ensures x in xs {
      assert x in multiset(r);
      assert x in multiset(xs);
    }
  }

  lemma {:induction false} InsertSorted<T>(x: T, xs: seq<T>, key: T -> Text)
    requires StrictlySorted(xs, key) && forall y | y in xs :: key(y) != key(x)
    ensures StrictlySorted(Insert(x, xs, key), key)
  {
    if xs == [] {
    } else if Less(key(xs[0]), key(x)) {
      var rest := Insert(x, xs[1..], key);
      InsertSorted(x, xs[1..], key);
      forall y | y in rest ensures Less(key(xs[0]), key(y)) {
        assert y in multiset(rest);
        assert y == x || y in xs[1..];
      }
    } else {
      LessTotal(key(xs[0]), key(x));
      forall y | y in xs ensures Less(key(x), key(y)) {
        if y != xs[0] {
          LessTransitive(key(x), key(xs[0]), key(y));
        }
      }
    }
  }

  lemma {:induction false} SortSorted<T>(xs: seq<T>, key: T -> Text)
    requires DistinctKeys(xs, key)
    ensures StrictlySorted(Sort(xs, key), key)
  {
    if xs != [] {
      SortSorted(xs[1..], key);
      SortElements(xs[1..], key);
      InsertSorted(xs[0], Sort(xs[1..], key), key);
    }
  }

  lemma SortedTail<T>(xs: seq<T>, key: T -> Text)
    requires StrictlySorted(xs, key) && xs != []
    ensures StrictlySorted(xs[1..], key) && xs[0] !in xs[1..]
    ensures forall x | x in xs[1..] :: Less(key(xs[0]), key(x))
  {
    forall x | x in xs[1..] ensures Less(key(xs[0]), key(x)) && x != xs[0] {
      LessAsymmetric(key(xs[0]), key(x));
    }
  }

  /** A strictly sorted list is determined by its elements. */
  lemma {:induction false} SortedUnique<T>(xs: seq<T>, ys: seq<T>, key: T -> Text)
    requires StrictlySorted(xs, key) && StrictlySorted(ys, key) && SameElements(xs, ys)
    ensures xs == ys
  {
    assert |ys| > 0 ==> ys[0] in ys;
    if xs != [] {
      assert xs[0] in ys;
      assert ys[0] in xs;
      SortedTail(xs, key);
      SortedTail(ys, key);
      if xs[0] != ys[0] {
        assert ys[0] in xs[1..] && xs[0] in ys[1..];
        LessAsymmetric(key(xs[0]), key(ys[0]));
      }
      assert forall x | x in xs[1..] :: x in ys && x != ys[0];
      assert forall y | y in ys[1..] :: y in xs && y != xs[0];
      SortedUnique(xs[1..], ys[1..], key);
      assert xs == [xs[0]] + xs[1..] && ys == [ys[0]] + ys[1..];
    }
  }

  /** Sorting forgets the order its input came in. */
  lemma SortForgetsOrder<T>(xs: seq<T>, ys: seq<T>, key: T -> Text)
    requires DistinctKeys(xs, key) && DistinctKeys(ys, key) && SameElements(xs, ys)
    ensures Sort(xs, key) == Sort(ys, key)
  {
    SortElements(xs, key);
    SortElements(ys, key);
    SortSorted(xs, key);
    SortSorted(ys, key);
    SortedUnique(Sort(xs, key), Sort(ys, key), key);
  }
}
