/** Proofs of the sparse Merkle tree: verification, completeness, soundness and history independence. */
module SmtProofs {
  import opened Common
  import opened Hashing
  import opened Smt

  // ---------------------------------------------------------------- verification

  function Step(h: HashFn, s: Sibling, below: string): string {
    if s.keyBit == 0 then NodeHash(h, below, s.hash) else NodeHash(h, s.hash, below)
  }

  /** The root hash that a list of siblings, ordered root first, gives to what lies at its end. */
  function Fold(h: HashFn, siblings: seq<Sibling>, start: string): string {
    if siblings == [] then start else Step(h, siblings[0], Fold(h, siblings[1..], start))
  }

  /** The string whose hash the fold starts from. */
  function StartPreimage(t: Option<Terminal>): string {
    match t
    case None => "tip-smt-empty"
    case Some(x) => "L" + LeafData(x.key, x.value)
  }

  predicate TerminalFits(key: Key, expected: Option<string>, t: Option<Terminal>) {
    match expected
    case Some(v) => t == Some(Terminal(key, v))
    case None => t.Some? ==> t.value.key != key
  }

  predicate OnPath(key: Key, p: Proof) {
    p.terminal.Some? ==> forall d | 0 <= d < |p.siblings| :: Bit(p.terminal.value.key, d) == Bit(key, d)
  }

  predicate Verifies(h: HashFn, rootHash: string, key: Key, expected: Option<string>, p: Option<Proof>) {
    && p.Some?
    && TerminalFits(key, expected, p.value.terminal)
    && OnPath(key, p.value)
    && Fold(h, p.value.siblings, h(StartPreimage(p.value.terminal))) == rootHash
  }

  method VerifySMTProof(h: HashFn, rootHash: string, key: Key, expected: Option<string>, p: Option<Proof>)
    returns (ok: bool)
    ensures ok == Verifies(h, rootHash, key, expected, p)
  {
    if p.None? {
      return false;
    }
    var proof := p.value;
    var t := proof.terminal;
    if expected.Some? {
      if t.None? || t.value.key != key || t.value.value != expected.value {
        return false;
      }
    } else {
      if t.Some? && t.value.key == key {
        return false;
      }
    }
    if t.Some? {
      for d := 0 to |proof.siblings|
        invariant forall e | 0 <= e < d :: Bit(t.value.key, e) == Bit(key, e)
      {
        if Bit(t.value.key, d) != Bit(key, d) {
          return false;
        }
      }
    }
    var acc := if t.None? then EmptyRoot(h) else LeafHash(h, LeafData(t.value.key, t.value.value));
    var i := |proof.siblings|;
    while i > 0
      invariant 0 <= i <= |proof.siblings|
      invariant acc == Fold(h, proof.siblings[i..], h(StartPreimage(t)))
    {
      i := i - 1;
      assert proof.siblings[i..][1..] == proof.siblings[i + 1..];
      acc := if proof.siblings[i].keyBit == 0 then NodeHash(h, acc, proof.siblings[i].hash)
             else NodeHash(h, proof.siblings[i].hash, acc);
    }
    return acc == rootHash;
  }

  // ---------------------------------------------------------------- completeness

  ghost predicate WellHashed(h: HashFn, t: Tree) {
    match t
    case Nil => true
    case Leaf(k, v, _) => t == LeafNode(h, k, v)
    case Inner(l, r, _) => t == InternalNode(h, l, r) && WellHashed(h, l) && WellHashed(h, r)
  }

  lemma {:induction false} BuildWellHashed(h: HashFn, m: map<Key, string>, depth: nat)
    requires ValidKeys(m.Keys, depth)
    ensures WellHashed(h, Build(h, m, depth))
    decreases KEY_BITS - depth
  {
    if |m| >= 2 {
      TwoKeysDiffer(m.Keys, depth);
      SidesValid(m, depth);
      BuildWellHashed(h, Side(m, depth, 0), depth + 1);
      BuildWellHashed(h, Side(m, depth, 1), depth + 1);
    }
  }

  /** Folding the path of any key gives back the root hash, whatever the path ends at. */
  lemma {:induction false} PathFolds(h: HashFn, t: Tree, key: Key, depth: nat)
    requires WellHashed(h, t)
    ensures var p := PathOf(h, t, key, depth);
      Fold(h, p.siblings, h(StartPreimage(p.terminal))) == RootHash(h, t)
  {
    match t
    case Nil =>
    case Leaf(_, _, _) =>
    case Inner(l, r, _) =>
      var bit := Bit(key, depth);
      var rest := PathOf(h, if bit == 0 then l else r, key, depth + 1);
      assert PathOf(h, t, key, depth).siblings[1..] == rest.siblings;
      PathFolds(h, if bit == 0 then l else r, key, depth + 1);
  }

  /** The direction a sibling entry takes: any keyBit but 0 is read as 1. */
  function Direction(s: Sibling): nat {
    if s.keyBit == 0 then 0 else 1
  }

  /** The keys of `m` that lie where the siblings lead. */
  ghost function Along(m: map<Key, string>, depth: nat, siblings: seq<Sibling>): map<Key, string> {
    map k | k in m && LiesAlong(k, depth, siblings) :: m[k]
  }

  ghost predicate LiesAlong(k: Key, depth: nat, siblings: seq<Sibling>) {
    forall i | 0 <= i < |siblings| :: Bit(k, depth + i) == Direction(siblings[i])
  }

  lemma LiesAlongStep(k: Key, depth: nat, siblings: seq<Sibling>)
    requires siblings != []
    ensures LiesAlong(k, depth, siblings) <==>
      Bit(k, depth) == Direction(siblings[0]) && LiesAlong(k, depth + 1, siblings[1..])
  {
    if Bit(k, depth) == Direction(siblings[0]) && LiesAlong(k, depth + 1, siblings[1..]) {
      forall i | 0 <= i < |siblings| ensures Bit(k, depth + i) == Direction(siblings[i]) {
        if i > 0 {
          assert siblings[1..][i - 1] == siblings[i] && depth + 1 + (i - 1) == depth + i;
        }
      }
    }
    if LiesAlong(k, depth, siblings) {
      forall i | 0 <= i < |siblings[1..]| ensures Bit(k, depth + 1 + i) == Direction(siblings[1..][i]) {
        assert Bit(k, depth + (i + 1)) == Direction(siblings[i + 1]);
      }
    }
  }

  lemma AlongStep(m: map<Key, string>, depth: nat, siblings: seq<Sibling>)
    requires siblings != []
    ensures Along(m, depth, siblings) == Along(Side(m, depth, Direction(siblings[0])), depth + 1, siblings[1..])
  {
    forall k | k in m {
      LiesAlongStep(k, depth, siblings);
    }
  }

  /** The honest proof follows the key's own bits and ends at the key if it is there, and otherwise
      at nothing or at another key that shares every bit walked. */
  lemma {:induction false} PathInMap(h: HashFn, m: map<Key, string>, key: Key, depth: nat)
    requires ValidKeys(m.Keys, depth)
    ensures var p := PathOf(h, Build(h, m, depth), key, depth);
      && LiesAlong(key, depth, p.siblings)
      && (forall i | 0 <= i < |p.siblings| :: p.siblings[i].keyBit == Bit(key, depth + i))
      && (key in m ==> p.terminal == Some(Terminal(key, m[key])))
      && (p.terminal.Some? ==>
            && p.terminal.value.key in m
            && LiesAlong(p.terminal.value.key, depth, p.siblings))
    decreases KEY_BITS - depth
  {
    var p := PathOf(h, Build(h, m, depth), key, depth);
    if |m| == 0 {
    } else if |m| == 1 {
      var k :| k in m;
      BuildSingleton(h, m, k, depth);
      SingletonMap(m, k);
    } else {
      TwoKeysDiffer(m.Keys, depth);
      var bit := Bit(key, depth);
      var s := Side(m, depth, bit);
      BuildFork(h, m, depth, bit);
      PathInMap(h, s, key, depth + 1);
      var rest := PathOf(h, Build(h, s, depth + 1), key, depth + 1);
      assert p.siblings[1..] == rest.siblings && p.terminal == rest.terminal && Direction(p.siblings[0]) == bit;
      LiesAlongStep(key, depth, p.siblings);
      forall i | 0 <= i < |p.siblings| ensures p.siblings[i].keyBit == Bit(key, depth + i) {
        if i > 0 {
          assert rest.siblings[i - 1].keyBit == Bit(key, depth + 1 + (i - 1));
        }
      }
      if p.terminal.Some? {
        LiesAlongStep(p.terminal.value.key, depth, p.siblings);
      }
    }
  }

  /** Completeness: what getProof returns always verifies against the current root, with the key's
      value when the key is present and as a proof of absence when it is not. */
  lemma ProofsComplete(h: HashFn, m: map<Key, string>, key: Key)
    requires ValidKeys(m.Keys, 0)
    ensures var t := Build(h, m, 0);
      && Verifies(h, RootHash(h, t), key, if key in m then Some(m[key]) else None, Some(PathOf(h, t, key, 0)))
      && LiesAlong(key, 0, PathOf(h, t, key, 0).siblings)
  {
    var t := Build(h, m, 0);
    var p := PathOf(h, t, key, 0);
    BuildWellHashed(h, m, 0);
    PathFolds(h, t, key, 0);
    PathInMap(h, m, key, 0);
    if p.terminal.Some? {
      forall d | 0 <= d < |p.siblings| ensures Bit(p.terminal.value.key, d) == Bit(key, d) {
        assert Bit(p.terminal.value.key, 0 + d) == Direction(p.siblings[d]) == Bit(key, 0 + d);
      }
    }
  }

  // ---------------------------------------------------------------- soundness

  /** The strings hashed while the tree was built. */
  ghost function TreePreimages(h: HashFn, t: Tree): set<string> {
    match t
    case Nil => {"tip-smt-empty"}
    case Leaf(k, v, _) => {"L" + LeafData(k, v)}
    case Inner(l, r, _) =>
      {"N" + RootHash(h, l) + RootHash(h, r)} + TreePreimages(h, l) + TreePreimages(h, r)
  }

  function RootPreimage(h: HashFn, t: Tree): string {
    match t
    case Nil => "tip-smt-empty"
    case Leaf(k, v, _) => "L" + LeafData(k, v)
    case Inner(l, r, _) => "N" + RootHash(h, l) + RootHash(h, r)
  }

  lemma RootIsHashOfPreimage(h: HashFn, t: Tree)
    requires WellHashed(h, t)
    ensures RootHash(h, t) == h(RootPreimage(h, t)) && RootPreimage(h, t) in TreePreimages(h, t)
  {}

  /** The strings hashed while a proof is verified. */
  ghost function ProofPreimages(h: HashFn, siblings: seq<Sibling>, start: string): set<string> {
    if siblings == [] then {start} else
      {StepPreimage(h, siblings, start)} + ProofPreimages(h, siblings[1..], start)
  }

  ghost function StepPreimage(h: HashFn, siblings: seq<Sibling>, start: string): string
    requires siblings != []
  {
    var below := Fold(h, siblings[1..], h(start));
    if siblings[0].keyBit == 0 then "N" + below + siblings[0].hash else "N" + siblings[0].hash + below
  }

  ghost predicate NoCollision(h: HashFn, t: Tree, p: Proof) {
    CollisionFree(h, TreePreimages(h, t) + ProofPreimages(h, p.siblings, StartPreimage(p.terminal)))
  }

  /** Where the siblings' directions lead in a tree, if they stay inside it. */
  function Walk(t: Tree, siblings: seq<Sibling>): Option<Tree> {
    if siblings == [] then Some(t)
    else if t.Inner? then Walk(if Direction(siblings[0]) == 0 then t.left else t.right, siblings[1..])
    else None
  }

  /** A fold that meets the root hash really walked the tree: its siblings lead to a node whose
      hash is the one the fold started from. The siblings' hashes may be arbitrary strings. */
  lemma {:induction false} FoldWalks(h: HashFn, t: Tree, siblings: seq<Sibling>, start: string, hashed: set<string>)
    requires FixedWidth(h) && CollisionFree(h, hashed) && WellHashed(h, t)
    requires TreePreimages(h, t) <= hashed && ProofPreimages(h, siblings, start) <= hashed
    requires Fold(h, siblings, h(start)) == RootHash(h, t)
    ensures Walk(t, siblings).Some?
    ensures WellHashed(h, Walk(t, siblings).value)
    ensures TreePreimages(h, Walk(t, siblings).value) <= hashed
    ensures h(start) == RootHash(h, Walk(t, siblings).value)
    decreases siblings
  {
    if siblings != [] {
      RootIsHashOfPreimage(h, t);
      var below := Fold(h, siblings[1..], h(start));
      var pre := StepPreimage(h, siblings, start);
      assert h(pre) == RootHash(h, t) == h(RootPreimage(h, t));
      assert pre in ProofPreimages(h, siblings, start);
      assert pre == RootPreimage(h, t);
      assert pre[0] == 'N';
      assert t.Inner?;
      FoldWidth(h, siblings[1..], start);
      RootIsHashOfPreimage(h, t.left);
      RootIsHashOfPreimage(h, t.right);
      var l, r := RootHash(h, t.left), RootHash(h, t.right);
      if Direction(siblings[0]) == 0 {
        NodePreimageInjective(below, siblings[0].hash, l, r);
        FoldWalks(h, t.left, siblings[1..], start, hashed);
      } else {
        NodePreimageInjective(siblings[0].hash, below, l, r);
        FoldWalks(h, t.right, siblings[1..], start, hashed);
      }
    }
  }

  lemma FoldWidth(h: HashFn, siblings: seq<Sibling>, start: string)
    requires FixedWidth(h)
    ensures |Fold(h, siblings, h(start))| == DIGEST_LENGTH
  {}

  /** One step of a walk into the canonical tree of a map. */
  lemma WalkStep(h: HashFn, m: map<Key, string>, depth: nat, siblings: seq<Sibling>, s: map<Key, string>)
    requires ValidKeys(m.Keys, depth) && siblings != [] && s == Side(m, depth, Direction(siblings[0]))
    requires Walk(Build(h, m, depth), siblings).Some?
    ensures depth < KEY_BITS && ValidKeys(s.Keys, depth + 1)
    ensures Walk(Build(h, m, depth), siblings) == Walk(Build(h, s, depth + 1), siblings[1..])
    ensures Along(m, depth, siblings) == Along(s, depth + 1, siblings[1..])
  {
    BuildShape(h, m, depth);
    TwoKeysDiffer(m.Keys, depth);
    BuildFork(h, m, depth, Direction(siblings[0]));
    AlongStep(m, depth, siblings);
  }

  /** Walking the canonical tree of a map arrives at the canonical tree of the keys lying that way. */
  lemma {:induction false} WalkBuild(h: HashFn, m: map<Key, string>, depth: nat, siblings: seq<Sibling>, end: nat)
    requires ValidKeys(m.Keys, depth) && end == depth + |siblings|
    requires Walk(Build(h, m, depth), siblings).Some?
    ensures ValidKeys(Along(m, depth, siblings).Keys, end)
    ensures Walk(Build(h, m, depth), siblings).value == Build(h, Along(m, depth, siblings), end)
    decreases |siblings|
  {
    if siblings == [] {
      assert Along(m, depth, siblings) == m;
    } else {
      var s := Side(m, depth, Direction(siblings[0]));
      WalkStep(h, m, depth, siblings, s);
      WalkBuild(h, s, depth + 1, siblings[1..], end);
    }
  }

  lemma LeafDataInjective(k0: Key, v0: string, k1: Key, v1: string)
    requires LeafData(k0, v0) == LeafData(k1, v1)
    ensures k0 == k1 && v0 == v1
  {
    assert Hex(k0) == LeafData(k0, v0)[..|Hex(k0)|] && Hex(k1) == LeafData(k1, v1)[..|Hex(k1)|];
    assert v0 == LeafData(k0, v0)[|Hex(k0)| + 1..] && v1 == LeafData(k1, v1)[|Hex(k1)| + 1..];
    HexInjective(k0, k1);
  }

  /** A verified proof's siblings lead to a node that hashed the same string as its terminal. */
  lemma VerifiedWalk(h: HashFn, m: map<Key, string>, p: Proof, along: map<Key, string>)
    requires FixedWidth(h) && ValidKeys(m.Keys, 0) && NoCollision(h, Build(h, m, 0), p)
    requires Fold(h, p.siblings, h(StartPreimage(p.terminal))) == RootHash(h, Build(h, m, 0))
    requires along == Along(m, 0, p.siblings)
    ensures ValidKeys(along.Keys, |p.siblings|)
    ensures StartPreimage(p.terminal) == RootPreimage(h, Build(h, along, |p.siblings|))
  {
    var t, start := Build(h, m, 0), StartPreimage(p.terminal);
    BuildWellHashed(h, m, 0);
    FoldWalks(h, t, p.siblings, start, TreePreimages(h, t) + ProofPreimages(h, p.siblings, start));
    WalkBuild(h, m, 0, p.siblings, |p.siblings|);
    RootIsHashOfPreimage(h, Walk(t, p.siblings).value);
    StartIsHashed(h, p.siblings, start);
  }

  /** A canonical tree that hashed what a terminal hashes stands for just that terminal. */
  lemma TerminalTree(h: HashFn, along: map<Key, string>, depth: nat, terminal: Option<Terminal>)
    requires ValidKeys(along.Keys, depth)
    requires StartPreimage(terminal) == RootPreimage(h, Build(h, along, depth))
    ensures along == match terminal case None => map[] case Some(t) => map[t.key := t.value]
  {
    var u, start := Build(h, along, depth), StartPreimage(terminal);
    BuildShape(h, along, depth);
    match terminal {
      case None =>
        assert start[0] == 't';
        assert u.Nil?;
      case Some(x) =>
        assert start[0] == 'L';
        assert u.Leaf?;
        var k :| k in along;
        BuildSingleton(h, along, k, depth);
        SingletonMap(along, k);
        assert start[1..] == LeafData(x.key, x.value) && RootPreimage(h, u)[1..] == LeafData(u.key, u.value);
        LeafDataInjective(x.key, x.value, u.key, u.value);
    }
  }

  /** What a verified proof says about the map: its siblings lead to exactly the keys its terminal names. */
  lemma VerifiedTerminal(h: HashFn, m: map<Key, string>, key: Key, expected: Option<string>, p: Proof)
    requires FixedWidth(h) && ValidKeys(m.Keys, 0) && NoCollision(h, Build(h, m, 0), p)
    requires Verifies(h, RootHash(h, Build(h, m, 0)), key, expected, Some(p))
    ensures Along(m, 0, p.siblings) ==
      match p.terminal case None => map[] case Some(t) => map[t.key := t.value]
  {
    VerifiedWalk(h, m, p, Along(m, 0, p.siblings));
    TerminalTree(h, Along(m, 0, p.siblings), |p.siblings|, p.terminal);
  }

  lemma StartIsHashed(h: HashFn, siblings: seq<Sibling>, start: string)
    ensures start in ProofPreimages(h, siblings, start)
  {}

  /** Inclusion soundness: a verified inclusion proof means the map holds that key with that value. */
  lemma InclusionSound(h: HashFn, m: map<Key, string>, key: Key, value: string, p: Proof)
    requires FixedWidth(h) && ValidKeys(m.Keys, 0) && NoCollision(h, Build(h, m, 0), p)
    requires Verifies(h, RootHash(h, Build(h, m, 0)), key, Some(value), Some(p))
    ensures key in m && m[key] == value
  {
    VerifiedTerminal(h, m, key, Some(value), p);
    assert key in Along(m, 0, p.siblings);
  }

  /** Non-inclusion soundness: a verified proof of absence means the key is absent, provided a proof
      ending in empty space followed the key's own bits. A proof ending at another leaf needs no
      proviso, because verification itself compares that leaf's bits with the key's. */
  lemma NonInclusionSound(h: HashFn, m: map<Key, string>, key: Key, p: Proof)
    requires FixedWidth(h) && ValidKeys(m.Keys, 0) && NoCollision(h, Build(h, m, 0), p)
    requires p.terminal.None? ==> LiesAlong(key, 0, p.siblings)
    requires Verifies(h, RootHash(h, Build(h, m, 0)), key, None, Some(p))
    ensures key !in m
  {
    VerifiedTerminal(h, m, key, None, p);
    var along := Along(m, 0, p.siblings);
    if p.terminal.Some? {
      var k := p.terminal.value.key;
      assert k in along;
      forall i | 0 <= i < |p.siblings| ensures Bit(key, 0 + i) == Direction(p.siblings[i]) {
        assert Bit(k, 0 + i) == Direction(p.siblings[i]) && Bit(k, i) == Bit(key, i);
      }
    }
    assert key in m ==> key in along;
  }

  // ------------------------------------------------- the proviso of NonInclusionSound is exact

  /** The key with the given first bits and `pad` everywhere after them. */
  function Padded(bits: seq<bool>, pad: bool): Key
    requires |bits| <= KEY_BITS
  {
    bits + seq(KEY_BITS - |bits|, _ => pad)
  }

  ghost predicate LeavesBefore(k: Key, p: Key, depth: nat, end: nat) {
    exists d: nat {:trigger Bit(k, d)} :: depth <= d < end && Bit(k, d) != Bit(p, d)
  }

  ghost predicate FollowsUntil(k: Key, p: Key, depth: nat, end: nat) {
    forall d: nat {:trigger Bit(k, d)} :: depth <= d < end ==> Bit(k, d) == Bit(p, d)
  }

  lemma GapStep(m: map<Key, string>, p: Key, depth: nat, end: nat, s: map<Key, string>)
    requires depth < end && s == Side(m, depth, Bit(p, depth))
    requires forall k | k in m :: LeavesBefore(k, p, depth, end)
    ensures forall k | k in s :: LeavesBefore(k, p, depth + 1, end)
    ensures depth + 1 == end ==> s == map[]
  {
    forall k | k in s ensures LeavesBefore(k, p, depth + 1, end) {
      var d: nat :| depth <= d < end && Bit(k, d) != Bit(p, d);
      assert d != depth;
    }
  }

  ghost predicate EndsInGap(path: Proof, length: int) {
    path.terminal.None? && |path.siblings| == length
  }

  lemma PathStep(h: HashFn, m: map<Key, string>, p: Key, depth: nat, s: map<Key, string>, length: int)
    requires ValidKeys(m.Keys, depth) && |m| >= 2 && s == Side(m, depth, Bit(p, depth))
    ensures depth < KEY_BITS && ValidKeys(s.Keys, depth + 1)
    ensures EndsInGap(PathOf(h, Build(h, m, depth), p, depth), length) <==>
      if s == map[] then length == 1 else EndsInGap(PathOf(h, Build(h, s, depth + 1), p, depth + 1), length - 1)
  {
    TwoKeysDiffer(m.Keys, depth);
    BuildFork(h, m, depth, Bit(p, depth));
  }

  lemma TwoIn(m: map<Key, string>, a: Key, b: Key)
    requires a in m && b in m && a != b
    ensures |m| >= 2
  {
    assert {a, b} <= m.Keys && |{a, b}| == 2;
    assert m.Keys == {a, b} + (m.Keys - {a, b});
  }

  /** The keys that can lead nobody past the gap, and the two that keep the path from ending early. */
  ghost predicate GapAt(m: map<Key, string>, p: Key, depth: nat, end: nat, a: Key, b: Key) {
    && 0 < end && a in m && b in m && a != b
    && FollowsUntil(a, p, depth, end - 1) && FollowsUntil(b, p, depth, end - 1)
    && forall k | k in m :: LeavesBefore(k, p, depth, end)
  }

  lemma GapMoves(m: map<Key, string>, p: Key, depth: nat, end: nat, a: Key, b: Key, s: map<Key, string>)
    requires depth < end && GapAt(m, p, depth, end, a, b) && s == Side(m, depth, Bit(p, depth))
    ensures |m| >= 2
    ensures if depth + 1 == end then s == map[] else s != map[] && GapAt(s, p, depth + 1, end, a, b)
  {
    TwoIn(m, a, b);
    GapStep(m, p, depth, end, s);
    assert depth + 1 < end ==> a in s;
    if depth + 1 < end {
      assert Bit(a, depth) == Bit(p, depth) == Bit(b, depth);
    }
  }

  /** Walking along `p`, every node before `end` has at least two keys below it and none is left at `end`. */
  ghost predicate Gap(m: map<Key, string>, p: Key, depth: nat, end: nat)
    decreases end - depth
  {
    && depth < end && |m| >= 2
    && var s := Side(m, depth, Bit(p, depth));
       if depth + 1 == end then s == map[] else s != map[] && Gap(s, p, depth + 1, end)
  }

  lemma {:induction false} GapExists(m: map<Key, string>, p: Key, depth: nat, end: nat, a: Key, b: Key)
    requires depth < end && GapAt(m, p, depth, end, a, b)
    ensures Gap(m, p, depth, end)
    decreases end - depth
  {
    hide Bit, GapAt, FollowsUntil, LeavesBefore;
    var s := Side(m, depth, Bit(p, depth));
    GapMoves(m, p, depth, end, a, b, s);
    if depth + 1 < end {
      GapExists(s, p, depth + 1, end, a, b);
    }
  }

  lemma {:induction false} PathToGap(h: HashFn, m: map<Key, string>, p: Key, depth: nat, end: nat)
    requires ValidKeys(m.Keys, depth) && Gap(m, p, depth, end)
    ensures EndsInGap(PathOf(h, Build(h, m, depth), p, depth), end - depth)
    decreases end - depth
  {
    var s := Side(m, depth, Bit(p, depth));
    PathStep(h, m, p, depth, s, end - depth);
    if depth + 1 < end {
      PathToGap(h, s, p, depth + 1, end);
    }
  }

  /** The proviso cannot be dropped: for every key and every list of directions that leaves the key's
      path there is a map that holds the key, and a proof with those directions that verifies the
      key's absence from that map. */
  lemma NullProofUnsoundOffPath(h: HashFn, key: Key, dirs: seq<bool>)
    returns (m: map<Key, string>, p: Proof)
    requires 0 < |dirs| < KEY_BITS && dirs != key[..|dirs|]
    ensures ValidKeys(m.Keys, 0) && key in m
    ensures |p.siblings| == |dirs| && forall i | 0 <= i < |dirs| :: Direction(p.siblings[i]) == Value(dirs[i])
    ensures p.terminal.None? && !LiesAlong(key, 0, p.siblings)
    ensures Verifies(h, RootHash(h, Build(h, m, 0)), key, None, Some(p))
  {
    var q: Key;
    m, q := UnsoundWitness(key, dirs);
    PathToGap(h, m, q, 0, |dirs|);
    p := PathOf(h, Build(h, m, 0), q, 0);
    PathInMap(h, m, q, 0);
    ProofsComplete(h, m, q);
    forall i | 0 <= i < |dirs| ensures Direction(p.siblings[i]) == Value(dirs[i]) {
      assert Bit(q, 0 + i) == Direction(p.siblings[i]) && q[i] == dirs[i];
    }
    var off :| 0 <= off < |dirs| && dirs[off] != key[off];
    assert Bit(key, 0 + off) != Direction(p.siblings[off]);
  }

  /** With as many siblings as a key has bits, or more, there is no such map: the proof does not verify. */
  lemma NullProofTooLong(h: HashFn, m: map<Key, string>, key: Key, p: Proof)
    requires FixedWidth(h) && ValidKeys(m.Keys, 0) && NoCollision(h, Build(h, m, 0), p)
    requires p.terminal.None? && |p.siblings| >= KEY_BITS
    ensures !Verifies(h, RootHash(h, Build(h, m, 0)), key, None, Some(p))
  {
    if Verifies(h, RootHash(h, Build(h, m, 0)), key, None, Some(p)) {
      var t, start := Build(h, m, 0), StartPreimage(p.terminal);
      VerifiedTerminal(h, m, key, None, p);
      BuildWellHashed(h, m, 0);
      FoldWalks(h, t, p.siblings, start, TreePreimages(h, t) + ProofPreimages(h, p.siblings, start));
      WalkToTheEnd(h, m, 0, p.siblings);
      assert false;
    }
  }

  /** A walk that uses up the bits of a key ends at one. */
  lemma {:induction false} WalkToTheEnd(h: HashFn, m: map<Key, string>, depth: nat, siblings: seq<Sibling>)
    requires ValidKeys(m.Keys, depth) && siblings != [] && depth + |siblings| >= KEY_BITS
    requires Walk(Build(h, m, depth), siblings).Some?
    ensures Along(m, depth, siblings) != map[]
    decreases |siblings|
  {
    var bit := Direction(siblings[0]);
    var s := Side(m, depth, bit);
    WalkStep(h, m, depth, siblings, s);
    if |siblings| > 1 {
      WalkToTheEnd(h, s, depth + 1, siblings[1..]);
    } else {
      BuildShape(h, m, depth);
      LastSides(m, depth, bit);
      AlongNone(s, depth + 1);
      hide Side, Build, ValidKeys, Along;
    }
  }

  lemma AlongNone(s: map<Key, string>, depth: nat)
    ensures Along(s, depth, []) == s
  {}

  /** On the last bit each side has a key of its own. */
  lemma LastSides(m: map<Key, string>, depth: nat, bit: nat)
    requires ValidKeys(m.Keys, depth) && depth + 1 >= KEY_BITS > depth && |m| >= 2 && bit <= 1
    ensures Side(m, depth, bit) != map[]
  {
    SidesValid(m, depth);
    SidesPartition(m, depth, bit);
    hide Side, ValidKeys;
    AtMostOne(Side(m, depth, 1 - bit).Keys);
    assert |Side(m, depth, bit)| >= 1;
  }

  lemma AtMostOne(keys: set<Key>)
    requires ValidKeys(keys, KEY_BITS)
    ensures |keys| <= 1
  {
    if |keys| >= 2 {
      TwoKeysDiffer(keys, KEY_BITS);
    }
  }

  /** A map that holds `key` and has a gap exactly where `dirs` lead. */
  lemma UnsoundWitness(key: Key, dirs: seq<bool>) returns (m: map<Key, string>, q: Key)
    requires 0 < |dirs| < KEY_BITS && dirs != key[..|dirs|]
    ensures ValidKeys(m.Keys, 0) && key in m && q[..|dirs|] == dirs && Gap(m, q, 0, |dirs|)
  {
    var n := |dirs|;
    var turned := dirs[n - 1 := !dirs[n - 1]];
    var a, b := Padded(turned, false), Padded(turned, true);
    q := Padded(dirs, false);
    m := map[key := "", a := "", b := ""];
    assert a[n] != b[n];
    var off :| 0 <= off < n && dirs[off] != key[off];
    assert Bit(key, off) != Bit(q, off) && LeavesBefore(key, q, 0, n);
    assert Bit(a, n - 1) != Bit(q, n - 1) && Bit(b, n - 1) != Bit(q, n - 1);
    GapExists(m, q, 0, n, a, b);
  }

  // ---------------------------------------------------------------- roots and histories

  ghost function Contents(t: Tree): map<Key, string> {
    match t
    case Nil => map[]
    case Leaf(k, v, _) => map[k := v]
    case Inner(l, r, _) => Contents(l) + Contents(r)
  }

  lemma {:induction false} BuildContents(h: HashFn, m: map<Key, string>, depth: nat)
    requires ValidKeys(m.Keys, depth)
    ensures Contents(Build(h, m, depth)) == m
    decreases KEY_BITS - depth
  {
    if |m| == 0 {
      assert m == map[];
    } else if |m| == 1 {
      var k :| k in m;
      BuildSingleton(h, m, k, depth);
      SingletonMap(m, k);
    } else {
      TwoKeysDiffer(m.Keys, depth);
      SidesValid(m, depth);
      BuildContents(h, Side(m, depth, 0), depth + 1);
      BuildContents(h, Side(m, depth, 1), depth + 1);
    }
  }

  lemma {:induction false} EqualRootsEqualTrees(h: HashFn, t: Tree, u: Tree, hashed: set<string>)
    requires FixedWidth(h) && CollisionFree(h, hashed)
    requires WellHashed(h, t) && WellHashed(h, u)
    requires TreePreimages(h, t) <= hashed && TreePreimages(h, u) <= hashed
    requires RootHash(h, t) == RootHash(h, u)
    ensures t == u
  {
    RootIsHashOfPreimage(h, t);
    RootIsHashOfPreimage(h, u);
    var s := RootPreimage(h, t);
    assert s == RootPreimage(h, u);
    match t {
      case Nil =>
        assert s[0] == 't';
      case Leaf(k, v, _) =>
        assert s[0] == 'L';
        assert s[1..] == LeafData(k, v) && RootPreimage(h, u)[1..] == LeafData(u.key, u.value);
        LeafDataInjective(k, v, u.key, u.value);
      case Inner(l, r, _) =>
        assert s[0] == 'N';
        RootIsHashOfPreimage(h, l);
        RootIsHashOfPreimage(h, u.left);
        NodePreimageInjective(RootHash(h, l), RootHash(h, r), RootHash(h, u.left), RootHash(h, u.right));
        EqualRootsEqualTrees(h, l, u.left, hashed);
        EqualRootsEqualTrees(h, r, u.right, hashed);
    }
  }

  /** Equal roots commit to equal maps. */
  lemma RootDeterminesMap(h: HashFn, m: map<Key, string>, n: map<Key, string>)
    requires ValidKeys(m.Keys, 0) && ValidKeys(n.Keys, 0) && FixedWidth(h)
    requires CollisionFree(h, TreePreimages(h, Build(h, m, 0)) + TreePreimages(h, Build(h, n, 0)))
    ensures RootHash(h, Build(h, m, 0)) == RootHash(h, Build(h, n, 0)) <==> m == n
  {
    var t, u := Build(h, m, 0), Build(h, n, 0);
    if RootHash(h, t) == RootHash(h, u) {
      BuildWellHashed(h, m, 0);
      BuildWellHashed(h, n, 0);
      EqualRootsEqualTrees(h, t, u, TreePreimages(h, t) + TreePreimages(h, u));
      BuildContents(h, m, 0);
      BuildContents(h, n, 0);
    }
  }

  datatype Op = SetOp(key: Key, value: string) | RemoveOp(key: Key) | ClearOp

  function Apply(m: map<Key, string>, op: Op): map<Key, string> {
    match op
    case SetOp(k, v) => m[k := v]
    case RemoveOp(k) => m - {k}
    case ClearOp => map[]
  }

  /** The key-value map that a history of operations leaves behind. */
  function After(m: map<Key, string>, ops: seq<Op>): map<Key, string> {
    if ops == [] then m else Apply(After(m, ops[..|ops| - 1]), ops[|ops| - 1])
  }

  method ApplyOp(t: SparseMerkleTree, op: Op)
    requires t.Valid()
    modifies t
    ensures t.Valid() && t.contents == Apply(old(t.contents), op)
  {
    match op {
      case SetOp(k, v) => t.Set(k, v);
      case RemoveOp(k) => var _ := t.Remove(k);
      case ClearOp => t.Clear();
    }
  }

  method Replay(h: HashFn, ops: seq<Op>) returns (t: SparseMerkleTree)
    ensures fresh(t) && t.Valid() && t.hash == h && t.contents == After(map[], ops)
  {
    t := new SparseMerkleTree(h);
    for i := 0 to |ops|
      invariant fresh(t) && t.Valid() && t.hash == h && t.contents == After(map[], ops[..i])
    {
      assert ops[..i + 1][..i] == ops[..i];
      ApplyOp(t, ops[i]);
    }
    assert ops[..|ops|] == ops;
  }

  /** History independence: whatever two histories did, they end with the same structure, root and
      size if they leave the same map, and with different roots if they do not. */
  method HistoryIndependence(h: HashFn, first: seq<Op>, second: seq<Op>)
    returns (t: Tree, u: Tree, tSize: nat, uSize: nat)
    ensures After(map[], first) == After(map[], second) ==> t == u && tSize == uSize
    ensures tSize == |After(map[], first)| && uSize == |After(map[], second)|
    ensures FixedWidth(h) && CollisionFree(h, TreePreimages(h, t) + TreePreimages(h, u)) ==>
      RootHash(h, t) == RootHash(h, u) ==> After(map[], first) == After(map[], second)
  {
    var a := Replay(h, first);
    var b := Replay(h, second);
    t, u, tSize, uSize := a.root, b.root, a.size, b.size;
    if FixedWidth(h) && CollisionFree(h, TreePreimages(h, t) + TreePreimages(h, u)) {
      RootDeterminesMap(h, a.contents, b.contents);
    }
  }
}
