/** The list-shaped Merkle tree of shared/merkle.js, against the definitions of RFC 6962, section 2.1. */
module ListTree {
  import opened Common
  import opened Hashing

  // ------------------------------------------------- reference: RFC 6962, section 2.1

  /** The largest power of two smaller than n. */
  function SplitPoint(n: nat): (k: nat)
    requires n >= 2
    ensures 1 <= k < n <= 2 * k
    ensures k == 1 || k % 2 == 0
    ensures IsPowerOfTwo(k)
  {
    if n == 2 then 1 else 2 * SplitPoint((n + 1) / 2)
  }

  predicate IsPowerOfTwo(k: nat) {
    k == 1 || (k > 0 && k % 2 == 0 && IsPowerOfTwo(k / 2))
  }

  /** The Merkle tree hash of a list of leaf hashes. */
  function MTH(h: HashFn, d: seq<string>): string
    requires d != []
    decreases |d|
  {
    if |d| == 1 then d[0] else
    var k := SplitPoint(|d|);
    NodeHash(h, MTH(h, d[..k]), MTH(h, d[k..]))
  }

  datatype Step = Step(hash: string, left: bool)

  /** The audit path of section 2.1.1: the leaf's own half first, the other half's hash last. */
  function PATH(h: HashFn, m: nat, d: seq<string>): seq<Step>
    requires m < |d|
    decreases |d|
  {
    if |d| == 1 then [] else
    var k := SplitPoint(|d|);
    if m < k then PATH(h, m, d[..k]) + [Step(MTH(h, d[k..]), false)]
    else PATH(h, m - k, d[k..]) + [Step(MTH(h, d[..k]), true)]
  }

  // ------------------------------------------------- one level of the source's construction

  /** The level above: neighbours are hashed in pairs, an odd last node moves up unchanged. */
  function NextLevel(h: HashFn, level: seq<string>): (next: seq<string>)
    ensures |next| == (|level| + 1) / 2
  {
    if |level| <= 1 then level
    else [NodeHash(h, level[0], level[1])] + NextLevel(h, level[2..])
  }

  lemma {:induction false} NextLevelAt(h: HashFn, level: seq<string>, i: nat)
    requires i < (|level| + 1) / 2
    ensures NextLevel(h, level)[i] ==
      if 2 * i + 1 < |level| then NodeHash(h, level[2 * i], level[2 * i + 1]) else level[2 * i]
  {
    if i > 0 {
      NextLevelAt(h, level[2..], i - 1);
    }
  }

  /** An even cut of a level is a cut of the level above. */
  lemma {:induction false} NextLevelCut(h: HashFn, level: seq<string>, k: nat)
    requires k <= |level| && k % 2 == 0
    ensures NextLevel(h, level) == NextLevel(h, level[..k]) + NextLevel(h, level[k..])
  {
    if k > 0 {
      NextLevelCut(h, level[2..], k - 2);
      assert level[..k][2..] == level[2..][..k - 2] && level[k..] == level[2..][k - 2..];
      assert level[..k][0] == level[0] && level[..k][1] == level[1];
    } else {
      assert level[..0] == [] && level[0..] == level;
    }
  }

  /** The split point of a level and of the level above are the same cut. */
  lemma SplitPointHalves(n: nat)
    requires n >= 3
    ensures SplitPoint(n) % 2 == 0 && SplitPoint((n + 1) / 2) == SplitPoint(n) / 2
  {}

  /** Promotion computes the RFC's tree: a level has the same Merkle tree hash as the level above it. */
  lemma {:induction false} NextLevelKeepsMTH(h: HashFn, d: seq<string>)
    requires d != []
    ensures NextLevel(h, d) != [] && MTH(h, NextLevel(h, d)) == MTH(h, d)
    decreases |d|
  {
    if |d| == 2 {
      assert d[..1] == [d[0]] && d[1..] == [d[1]];
      assert NextLevel(h, d) == [NodeHash(h, d[0], d[1])];
    } else if |d| > 2 {
      var k := SplitPoint(|d|);
      SplitPointHalves(|d|);
      NextLevelCut(h, d, k);
      NextLevelKeepsMTH(h, d[..k]);
      NextLevelKeepsMTH(h, d[k..]);
      var next := NextLevel(h, d);
      assert next[..k / 2] == NextLevel(h, d[..k]) && next[k / 2..] == NextLevel(h, d[k..]);
    }
  }

  /** The step, if any, that the source pushes for position `i` of a level. */
  function LevelStep(level: seq<string>, i: nat): seq<Step>
    requires i < |level|
  {
    if |level| % 2 == 1 && i == |level| - 1 then []
    else if i % 2 == 0 then [Step(level[i + 1], false)]
    else [Step(level[i - 1], true)]
  }

  lemma PathUnfolds(h: HashFn, m: nat, d: seq<string>, k: nat)
    requires m < |d| && |d| >= 2 && k == SplitPoint(|d|)
    ensures m < k ==> PATH(h, m, d) == PATH(h, m, d[..k]) + [Step(MTH(h, d[k..]), false)]
    ensures m >= k ==> PATH(h, m, d) == PATH(h, m - k, d[k..]) + [Step(MTH(h, d[..k]), true)]
  {
    hide MTH;
  }

  lemma LevelStepCut(d: seq<string>, k: nat, i: nat)
    requires 0 < k < |d| && k % 2 == 0 && i < |d|
    ensures i < k ==> LevelStep(d[..k], i) == LevelStep(d, i)
    ensures i >= k ==> LevelStep(d[k..], i - k) == LevelStep(d, i)
  {}

  lemma SmallPATH(h: HashFn, i: nat, d: seq<string>)
    requires i < |d| <= 2
    ensures i / 2 < |NextLevel(h, d)|
    ensures PATH(h, i, d) == LevelStep(d, i) + PATH(h, i / 2, NextLevel(h, d))
  {
    if |d| == 2 {
      assert d[..1] == [d[0]] && d[1..] == [d[1]];
      assert PATH(h, i, d) == [] + LevelStep(d, i) == LevelStep(d, i);
    }
  }

  /** The audit path of a level is its own step followed by the audit path one level up. */
  lemma {:induction false} NextLevelKeepsPATH(h: HashFn, i: nat, d: seq<string>)
    requires i < |d|
    ensures i / 2 < |NextLevel(h, d)|
    ensures PATH(h, i, d) == LevelStep(d, i) + PATH(h, i / 2, NextLevel(h, d))
    decreases |d|
  {
    hide MTH, PATH, NextLevel, SplitPoint, LevelStep;
    if |d| <= 2 {
      SmallPATH(h, i, d);
    } else {
      var k := SplitPoint(|d|);
      SplitPointHalves(|d|);
      NextLevelCut(h, d, k);
      var next, a, b := NextLevel(h, d), d[..k], d[k..];
      assert next[..k / 2] == NextLevel(h, a) && next[k / 2..] == NextLevel(h, b);
      NextLevelKeepsMTH(h, a);
      NextLevelKeepsMTH(h, b);
      LevelStepCut(d, k, i);
      PathUnfolds(h, i, d, k);
      PathUnfolds(h, i / 2, next, k / 2);
      if i < k {
        NextLevelKeepsPATH(h, i, a);
      } else {
        NextLevelKeepsPATH(h, i - k, b);
        assert i / 2 - k / 2 == (i - k) / 2;
      }
    }
  }

  // ------------------------------------------------- the source's loops

  ghost predicate Stacked(h: HashFn, levels: seq<seq<string>>) {
    forall l | 0 <= l < |levels| - 1 :: |levels[l]| > 1 && levels[l + 1] == NextLevel(h, levels[l])
  }

  ghost predicate AreLevels(h: HashFn, levels: seq<seq<string>>, leaves: seq<string>) {
    && levels != [] && levels[0] == leaves && leaves != []
    && Stacked(h, levels)
    && |levels[|levels| - 1]| == 1
  }

  lemma StackedGrows(h: HashFn, levels: seq<seq<string>>, next: seq<string>)
    requires levels != [] && Stacked(h, levels)
    requires |levels[|levels| - 1]| > 1 && next == NextLevel(h, levels[|levels| - 1])
    ensures Stacked(h, levels + [next])
  {
    hide NextLevel;
  }

  lemma PairMoves(h: HashFn, level: seq<string>, i: nat, next: seq<string>)
    requires i + 1 < |level|
    ensures next + NextLevel(h, level[i..])
         == (next + [NodeHash(h, level[i], level[i + 1])]) + NextLevel(h, level[i + 2..])
  {
    assert level[i..][2..] == level[i + 2..];
  }

  lemma PairsDone(h: HashFn, level: seq<string>, i: nat, next: seq<string>)
    requires i <= |level| <= i + 1
    ensures next + NextLevel(h, level[i..]) == if i < |level| then next + [level[|level| - 1]] else next
  {}

  /** The inner loop of buildLevels: one level from the one below it. */
  method PairUp(h: HashFn, level: seq<string>) returns (next: seq<string>)
    ensures next == NextLevel(h, level)
  {
    hide NextLevel;
    next := [];
    var i := 0;
    assert level[0..] == level && next + NextLevel(h, level) == NextLevel(h, level);
    while i + 1 < |level|
      invariant 0 <= i <= |level| && i % 2 == 0
      invariant next + NextLevel(h, level[i..]) == NextLevel(h, level)
    {
      PairMoves(h, level, i, next);
      next := next + [NodeHash(h, level[i], level[i + 1])];
      i := i + 2;
    }
    PairsDone(h, level, i, next);
    if |level| % 2 == 1 {
      next := next + [level[|level| - 1]];
    }
  }

  method BuildLevels(h: HashFn, leaves: seq<string>) returns (levels: seq<seq<string>>)
    ensures leaves == [] ==> levels == []
    ensures leaves != [] ==> AreLevels(h, levels, leaves) && levels[|levels| - 1] == [MTH(h, leaves)]
  {
    if leaves == [] {
      return [];
    }
    levels := [leaves];
    var level := leaves;
    hide MTH, NextLevel, Stacked;
    assert Stacked(h, levels) by { StackedAlone(h, leaves); }
    while |level| > 1
      invariant levels != [] && level != []
      invariant levels[0] == leaves && levels[|levels| - 1] == level
      invariant Stacked(h, levels)
      invariant MTH(h, level) == MTH(h, leaves)
      decreases |level|
    {
      NextLevelKeepsMTH(h, level);
      var next := PairUp(h, level);
      StackedGrows(h, levels, next);
      levels := levels + [next];
      level := next;
    }
    MTHAlone(h, level);
  }

  lemma StackedAlone(h: HashFn, level: seq<string>)
    ensures Stacked(h, [level])
  {}

  lemma MTHAlone(h: HashFn, d: seq<string>)
    requires |d| == 1
    ensures d == [MTH(h, d)]
  {}

  function EmptyTreeRoot(h: HashFn): string {
    h("tip-merkle-empty-tree")
  }

  function LeafHashes(h: HashFn, items: seq<string>): (d: seq<string>)
    ensures |d| == |items|
  {
    seq(|items|, i requires 0 <= i < |items| => LeafHash(h, items[i]))
  }

  /** The root of a list: the sentinel for the empty list, and otherwise the RFC's tree hash. */
  function Root(h: HashFn, items: seq<string>, alreadyHashed: bool, emptyRoot: Option<string>): string {
    if items == [] then (if emptyRoot.Some? then emptyRoot.value else EmptyTreeRoot(h))
    else MTH(h, if alreadyHashed then items else LeafHashes(h, items))
  }

  method ComputeRoot(h: HashFn, items: seq<string>, alreadyHashed: bool, emptyRoot: Option<string>)
    returns (root: string)
    ensures root == Root(h, items, alreadyHashed, emptyRoot)
  {
    if items == [] {
      return if emptyRoot.Some? then emptyRoot.value else EmptyTreeRoot(h);
    }
    var leaves := if alreadyHashed then items else LeafHashes(h, items);
    var levels := BuildLevels(h, leaves);
    return levels[|levels| - 1][0];
  }

  lemma AtTheTop(h: HashFn, d: seq<string>, steps: seq<Step>)
    requires |d| == 1
    ensures steps + PATH(h, 0, d) == steps
  {}

  /** One turn of getProof's loop: nothing is pushed for an odd last node, a sibling otherwise. */
  lemma PathAbove(h: HashFn, levels: seq<seq<string>>, l: nat, idx: nat, steps: seq<Step>, whole: seq<Step>)
    requires Stacked(h, levels) && l + 1 < |levels| && idx < |levels[l]|
    requires steps + PATH(h, idx, levels[l]) == whole
    ensures idx / 2 < |levels[l + 1]|
    ensures if |levels[l]| % 2 == 1 && idx == |levels[l]| - 1 then
        idx / 2 == |levels[l]| / 2 && steps + PATH(h, idx / 2, levels[l + 1]) == whole
      else
        var siblingIdx := if idx % 2 == 0 then idx + 1 else idx - 1;
        && siblingIdx < |levels[l]|
        && (steps + [Step(levels[l][siblingIdx], idx % 2 != 0)]) + PATH(h, idx / 2, levels[l + 1]) == whole
  {
    hide MTH, PATH, SplitPoint, NextLevel;
    NextLevelKeepsPATH(h, idx, levels[l]);
    assert steps + (LevelStep(levels[l], idx) + PATH(h, idx / 2, levels[l + 1]))
        == (steps + LevelStep(levels[l], idx)) + PATH(h, idx / 2, levels[l + 1]);
    assert steps + [] == steps;
  }

  method GetProof(h: HashFn, levels: seq<seq<string>>, index: int, ghost leaves: seq<string>)
    returns (proof: Option<seq<Step>>)
    requires (levels == [] && leaves == []) || AreLevels(h, levels, leaves)
    ensures proof == if 0 <= index < |leaves| then Some(PATH(h, index, leaves)) else None
  {
    hide MTH, PATH, SplitPoint, NextLevel, Stacked;
    if levels == [] || index < 0 || index >= |levels[0]| {
      return None;
    }
    ghost var whole := PATH(h, index, leaves);
    var steps := [];
    var idx: nat := index;
    for l := 0 to |levels| - 1
      invariant idx < |levels[l]|
      invariant steps + PATH(h, idx, levels[l]) == whole
    {
      var level := levels[l];
      PathAbove(h, levels, l, idx, steps, whole);
      if |level| % 2 == 1 && idx == |level| - 1 {
        idx := |level| / 2;
      } else {
        var siblingIdx := if idx % 2 == 0 then idx + 1 else idx - 1;
        steps := steps + [Step(level[siblingIdx], idx % 2 != 0)];
        idx := idx / 2;
      }
    }
    AtTheTop(h, levels[|levels| - 1], steps);
    return Some(steps);
  }

  function Fold(h: HashFn, start: string, proof: seq<Step>): string {
    if proof == [] then start else
    var s, below := proof[|proof| - 1], Fold(h, start, proof[..|proof| - 1]);
    if s.left then NodeHash(h, s.hash, below) else NodeHash(h, below, s.hash)
  }

  function Start(h: HashFn, data: string, alreadyHashed: bool): string {
    if alreadyHashed then data else LeafHash(h, data)
  }

  method VerifyProof(h: HashFn, data: string, proof: Option<seq<Step>>, expectedRoot: string, alreadyHashed: bool)
    returns (ok: bool)
    ensures ok <==> proof.Some? && Fold(h, Start(h, data, alreadyHashed), proof.value) == expectedRoot
  {
    if proof.None? {
      return false;
    }
    var acc := if alreadyHashed then data else LeafHash(h, data);
    for i := 0 to |proof.value|
      invariant acc == Fold(h, Start(h, data, alreadyHashed), proof.value[..i])
    {
      var step := proof.value[i];
      assert proof.value[..i + 1][..i] == proof.value[..i];
      acc := if step.left then NodeHash(h, step.hash, acc) else NodeHash(h, acc, step.hash);
    }
    assert proof.value[..|proof.value|] == proof.value;
    return acc == expectedRoot;
  }

  // ------------------------------------------------- what proofs prove

  /** Completeness: the audit path of every index folds to the root. */
  lemma {:induction false} PathFolds(h: HashFn, m: nat, d: seq<string>)
    requires m < |d|
    ensures Fold(h, d[m], PATH(h, m, d)) == MTH(h, d)
    decreases |d|
  {
    if |d| > 1 {
      var k := SplitPoint(|d|);
      var p := PATH(h, m, d);
      if m < k {
        PathFolds(h, m, d[..k]);
        assert p[..|p| - 1] == PATH(h, m, d[..k]);
      } else {
        PathFolds(h, m - k, d[k..]);
        assert p[..|p| - 1] == PATH(h, m - k, d[k..]);
      }
    }
  }

  function CeilLog2(n: nat): nat
    requires n >= 1
  {
    if n == 1 then 0 else 1 + CeilLog2((n + 1) / 2)
  }

  function Pow2(e: nat): (p: nat)
    ensures p >= 1
  {
    if e == 0 then 1 else 2 * Pow2(e - 1)
  }

  /** CeilLog2(n) is the least exponent whose power of two reaches n. */
  lemma {:induction false} CeilLog2IsLeast(n: nat)
    requires n >= 1
    ensures n <= Pow2(CeilLog2(n)) && (n > 1 ==> Pow2(CeilLog2(n) - 1) < n)
  {
    if n > 1 {
      CeilLog2IsLeast((n + 1) / 2);
    }
  }

  lemma {:induction false} CeilLog2Monotone(a: nat, b: nat)
    requires 1 <= a <= b
    ensures CeilLog2(a) <= CeilLog2(b)
  {
    if a > 1 {
      CeilLog2Monotone((a + 1) / 2, (b + 1) / 2);
    }
  }

  lemma {:induction false} CeilLog2Split(n: nat)
    requires n >= 2
    ensures CeilLog2(SplitPoint(n)) + 1 == CeilLog2(n)
  {
    if n > 2 {
      CeilLog2Split((n + 1) / 2);
    }
  }

  /** No proof is longer than the height of the tree. */
  lemma {:induction false} PathLength(h: HashFn, m: nat, d: seq<string>)
    requires m < |d|
    ensures |PATH(h, m, d)| <= CeilLog2(|d|)
    decreases |d|
  {
    hide MTH, PATH, CeilLog2, SplitPoint;
    if |d| == 1 {
      AtTheTop(h, d, []);
    } else {
      var k := SplitPoint(|d|);
      PathUnfolds(h, m, d, k);
      CeilLog2Split(|d|);
      CeilLog2Monotone(|d| - k, k);
      if m < k {
        PathLength(h, m, d[..k]);
      } else {
        PathLength(h, m - k, d[k..]);
      }
    }
  }

  /** The strings hashed while the root of a list of raw items is computed. */
  ghost function TreePreimages(h: HashFn, items: seq<string>): set<string>
    decreases |items|
  {
    if items == [] then {"tip-merkle-empty-tree"}
    else if |items| == 1 then {"L" + items[0]}
    else
      var k := SplitPoint(|items|);
      {RootPreimage(h, items)} + TreePreimages(h, items[..k]) + TreePreimages(h, items[k..])
  }

  function RootPreimage(h: HashFn, items: seq<string>): string {
    if items == [] then "tip-merkle-empty-tree"
    else if |items| == 1 then "L" + items[0]
    else
      var k := SplitPoint(|items|);
      "N" + DefaultRoot(h, items[..k]) + DefaultRoot(h, items[k..])
  }

  /** computeRoot of raw items with no options. */
  function DefaultRoot(h: HashFn, items: seq<string>): string {
    Root(h, items, false, None)
  }

  lemma RootIsHash(h: HashFn, items: seq<string>)
    ensures DefaultRoot(h, items) == h(RootPreimage(h, items))
    ensures RootPreimage(h, items) in TreePreimages(h, items)
  {
    if |items| > 1 {
      var k := SplitPoint(|items|);
      assert LeafHashes(h, items)[..k] == LeafHashes(h, items[..k]);
      assert LeafHashes(h, items)[k..] == LeafHashes(h, items[k..]);
    }
  }

  /** The strings hashed while a proof is verified. */
  ghost function ProofPreimages(h: HashFn, data: string, proof: seq<Step>): set<string> {
    {FoldPreimage(h, data, proof)} +
    if proof == [] then {} else ProofPreimages(h, data, proof[..|proof| - 1])
  }

  function FoldPreimage(h: HashFn, data: string, proof: seq<Step>): string {
    if proof == [] then "L" + data else
    var s, below := proof[|proof| - 1], Fold(h, LeafHash(h, data), proof[..|proof| - 1]);
    if s.left then "N" + s.hash + below else "N" + below + s.hash
  }

  /** Soundness: a proof that verifies against the root of a list of raw items proves membership,
      whatever strings the proof's steps carry. */
  lemma {:induction false} ProofSound(h: HashFn, items: seq<string>, data: string, proof: seq<Step>, hashed: set<string>)
    requires FixedWidth(h) && CollisionFree(h, hashed)
    requires TreePreimages(h, items) <= hashed && ProofPreimages(h, data, proof) <= hashed
    requires Fold(h, LeafHash(h, data), proof) == DefaultRoot(h, items)
    ensures data in items
    decreases |items|
  {
    RootIsHash(h, items);
    var pre := FoldPreimage(h, data, proof);
    assert h(pre) == h(RootPreimage(h, items));
    assert pre == RootPreimage(h, items);
    if proof == [] {
      assert pre[0] == 'L';
      assert data == pre[1..];
    } else {
      assert pre[0] == 'N';
      var k := SplitPoint(|items|);
      var l, r := items[..k], items[k..];
      RootIsHash(h, l);
      RootIsHash(h, r);
      var rest := proof[..|proof| - 1];
      var below := Fold(h, LeafHash(h, data), rest);
      assert below == h(FoldPreimage(h, data, rest));
      var s := proof[|proof| - 1];
      if s.left {
        NodePreimageInjective(s.hash, below, DefaultRoot(h, l), DefaultRoot(h, r));
        ProofSound(h, r, data, rest, hashed);
      } else {
        NodePreimageInjective(below, s.hash, DefaultRoot(h, l), DefaultRoot(h, r));
        ProofSound(h, l, data, rest, hashed);
      }
    }
  }

  /** Equal roots of raw-item lists mean equal lists, of whatever lengths. */
  lemma {:induction false} EqualRootsEqualLists(h: HashFn, xs: seq<string>, ys: seq<string>, hashed: set<string>)
    requires FixedWidth(h) && CollisionFree(h, hashed)
    requires TreePreimages(h, xs) <= hashed && TreePreimages(h, ys) <= hashed
    requires DefaultRoot(h, xs) == DefaultRoot(h, ys)
    ensures xs == ys
    decreases |xs|
  {
    RootIsHash(h, xs);
    RootIsHash(h, ys);
    var pre := RootPreimage(h, xs);
    assert pre == RootPreimage(h, ys);
    if xs == [] {
      assert pre[0] == 't';
    } else if |xs| == 1 {
      assert pre[0] == 'L';
      assert xs[0] == pre[1..] && ys[0] == pre[1..];
    } else {
      assert pre[0] == 'N';
      var j, k := SplitPoint(|xs|), SplitPoint(|ys|);
      hide SplitPoint, Root;
      RootIsHash(h, xs[..j]);
      RootIsHash(h, ys[..k]);
      NodePreimageInjective(DefaultRoot(h, xs[..j]), DefaultRoot(h, xs[j..]), DefaultRoot(h, ys[..k]), DefaultRoot(h, ys[k..]));
      EqualRootsEqualLists(h, xs[..j], ys[..k], hashed);
      EqualRootsEqualLists(h, xs[j..], ys[k..], hashed);
      assert xs == xs[..j] + xs[j..] && ys == ys[..k] + ys[k..];
    }
  }

  /** Every index of every list: the proof the source builds verifies, is the RFC's audit path, and
      is no longer than ceil(log2 n). */
  method ProveAndVerify(h: HashFn, items: seq<string>, index: nat) returns (ok: bool, length: nat)
    requires index < |items|
    ensures ok && length <= CeilLog2(|items|)
  {
    var leaves := LeafHashes(h, items);
    var levels := BuildLevels(h, leaves);
    var proof := GetProof(h, levels, index, leaves);
    var root := ComputeRoot(h, items, false, None);
    PathFolds(h, index, leaves);
    PathLength(h, index, leaves);
    ok := VerifyProof(h, items[index], proof, root, false);
    length := |proof.value|;
  }

  /** With leaves that were hashed beforehand there is no leaf domain to protect the ends of a proof:
      the hash of any inner node passes for a leaf. So soundness is claimed for raw items only. */
  lemma InnerNodePassesAsLeaf(h: HashFn, a: string, b: string, c: string)
    ensures Fold(h, Start(h, NodeHash(h, a, b), true), [Step(c, false)]) == Root(h, [a, b, c], true, None)
  {
    var d := [a, b, c];
    assert SplitPoint(|d|) == 2;
    assert d[..2] == [a, b] && d[2..] == [c];
    assert SplitPoint(|[a, b]|) == 1 && [a, b][..1] == [a] && [a, b][1..] == [b];
    assert MTH(h, [a, b]) == NodeHash(h, a, b);
    assert MTH(h, d) == NodeHash(h, MTH(h, [a, b]), c);
    assert [Step(c, false)][..0] == [];
  }
}
