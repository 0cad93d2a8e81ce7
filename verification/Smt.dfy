/** The compressed sparse Merkle tree of shared/smt.js. */
module Smt {
  import opened Common
  import opened Hashing

  const KEY_BITS := 256

  // ---------------------------------------------------------------- keys

  /** A key hash, as the 256 bits that its 64 hexadecimal characters stand for. */
  type Key = k: seq<bool> | |k| == KEY_BITS witness seq(KEY_BITS, _ => false)

  function Value(b: bool): (v: nat)
    ensures v <= 1
  {
    if b then 1 else 0
  }

  function Bit(k: Key, depth: nat): (b: nat)
    ensures b <= 1
  {
    if depth < KEY_BITS then Value(k[depth]) else 0
  }

  function HexDigit(v: nat): char
    requires v < 16
  {
    "0123456789abcdef"[v]
  }

  function Nibble(k: Key, i: nat): (v: nat)
    requires i < KEY_BITS / 4
    ensures v < 16
  {
    8 * Value(k[4 * i]) + 4 * Value(k[4 * i + 1]) + 2 * Value(k[4 * i + 2]) + Value(k[4 * i + 3])
  }

  /** The text of a key hash. */
  function Hex(k: Key): (text: string)
    ensures |text| == KEY_BITS / 4
  {
    seq(KEY_BITS / 4, i requires 0 <= i < KEY_BITS / 4 => HexDigit(Nibble(k, i)))
  }

  /** parseInt(c, 16) for a hexadecimal character, and what shifting NaN gives for any other. */
  function HexValue(c: char): (v: nat)
    ensures v < 16
  {
    if '0' <= c <= '9' then c as int - '0' as int
    else if 'a' <= c <= 'f' then c as int - 'a' as int + 10
    else if 'A' <= c <= 'F' then c as int - 'A' as int + 10
    else 0
  }

  /** `_bit`, on the text of the key hash. Past the last character it is 0. */
  function TextBit(text: string, depth: nat): nat {
    if depth / 4 >= |text| then 0 else
    var nibble := HexValue(text[depth / 4]);
    match depth % 4
    case 0 => nibble / 8 % 2
    case 1 => nibble / 4 % 2
    case 2 => nibble / 2 % 2
    case _ => nibble % 2
  }

  lemma NibbleBits(b0: nat, b1: nat, b2: nat, b3: nat, v: nat)
    requires b0 <= 1 && b1 <= 1 && b2 <= 1 && b3 <= 1 && v == 8 * b0 + 4 * b1 + 2 * b2 + b3
    ensures v / 8 % 2 == b0 && v / 4 % 2 == b1 && v / 2 % 2 == b2 && v % 2 == b3
  {}

  /** Reading bit `depth` off the text of a key is reading it off the key. */
  lemma TextBitIsBit(k: Key, depth: nat)
    ensures TextBit(Hex(k), depth) == Bit(k, depth)
  {
    if depth < KEY_BITS {
      var i := depth / 4;
      NibbleBits(Value(k[4 * i]), Value(k[4 * i + 1]), Value(k[4 * i + 2]), Value(k[4 * i + 3]), Nibble(k, i));
      assert HexValue(HexDigit(Nibble(k, i))) == Nibble(k, i);
      assert Hex(k)[i] == HexDigit(Nibble(k, i));
      assert depth == 4 * i + depth % 4;
    }
  }

  lemma HexInjective(a: Key, b: Key)
    requires Hex(a) == Hex(b)
    ensures a == b
  {
    forall d: nat | d < KEY_BITS ensures a[d] == b[d] {
      TextBitIsBit(a, d);
      TextBitIsBit(b, d);
      assert Bit(a, d) == Bit(b, d);
    }
  }

  ghost predicate SameBits(a: Key, b: Key, depth: nat) {
    forall d: nat | d < depth :: Bit(a, d) == Bit(b, d)
  }

  lemma BitsDetermineKey(a: Key, b: Key)
    requires SameBits(a, b, KEY_BITS)
    ensures a == b
  {
    forall d: nat | d < KEY_BITS ensures a[d] == b[d] {
      assert Bit(a, d) == Bit(b, d);
    }
  }

  // ---------------------------------------------------------------- trees

  /** A node carries its cached hash, as the source's node objects do; Nil is `null`. */
  datatype Tree =
    | Nil
    | Leaf(key: Key, value: string, hash: string)
    | Inner(left: Tree, right: Tree, hash: string)

  function EmptyRoot(h: HashFn): string {
    h("tip-smt-empty")
  }

  function RootHash(h: HashFn, t: Tree): string {
    if t.Nil? then EmptyRoot(h) else t.hash
  }

  function LeafData(key: Key, value: string): string {
    Hex(key) + ":" + value
  }

  function LeafNode(h: HashFn, key: Key, value: string): Tree {
    Leaf(key, value, LeafHash(h, LeafData(key, value)))
  }

  function InternalNode(h: HashFn, left: Tree, right: Tree): Tree {
    Inner(left, right, NodeHash(h, RootHash(h, left), RootHash(h, right)))
  }

  // ---------------------------------------------------------------- reference: the tree of a map

  ghost predicate ValidKeys(keys: set<Key>, depth: nat) {
    forall a, b {:trigger SameBits(a, b, depth)} | a in keys && b in keys :: SameBits(a, b, depth)
  }

  ghost function Side(m: map<Key, string>, depth: nat, bit: nat): map<Key, string> {
    map k | k in m && Bit(k, depth) == bit :: m[k]
  }

  lemma TwoKeysDiffer(keys: set<Key>, depth: nat)
    requires ValidKeys(keys, depth) && |keys| >= 2
    ensures depth < KEY_BITS
  {
    var a :| a in keys;
    var rest := keys - {a};
    assert rest != {} by { assert |rest| == |keys| - 1; }
    var b :| b in rest;
    if depth >= KEY_BITS {
      assert SameBits(a, b, depth);
      BitsDetermineKey(a, b);
    }
  }

  lemma ValidSubset(keys: set<Key>, some: set<Key>, depth: nat)
    requires some <= keys && ValidKeys(keys, depth)
    ensures ValidKeys(some, depth)
  {}

  lemma SidesValid(m: map<Key, string>, depth: nat)
    requires ValidKeys(m.Keys, depth)
    ensures ValidKeys(Side(m, depth, 0).Keys, depth + 1)
    ensures ValidKeys(Side(m, depth, 1).Keys, depth + 1)
  {
    forall a, b | a in m && b in m && Bit(a, depth) == Bit(b, depth) ensures SameBits(a, b, depth + 1) {
      assert SameBits(a, b, depth);
    }
  }

  lemma SidesPartition(m: map<Key, string>, depth: nat, bit: nat)
    requires bit <= 1
    ensures |Side(m, depth, bit)| + |Side(m, depth, 1 - bit)| == |m|
  {
    var z, o := Side(m, depth, bit).Keys, Side(m, depth, 1 - bit).Keys;
    assert z !! o && z + o == m.Keys;
    assert |z + o| == |z| + |o|;
  }

  /** The canonical tree of a map: nothing for no key, a leaf for one key, and otherwise a split
      on the bit at this depth. It mentions no history. */
  ghost function Build(h: HashFn, m: map<Key, string>, depth: nat): Tree
    requires ValidKeys(m.Keys, depth)
    decreases KEY_BITS - depth
  {
    if |m| == 0 then Nil
    else if |m| == 1 then
      var k :| k in m;
      LeafNode(h, k, m[k])
    else
      TwoKeysDiffer(m.Keys, depth);
      SidesValid(m, depth);
      InternalNode(h, Build(h, Side(m, depth, 0), depth + 1), Build(h, Side(m, depth, 1), depth + 1))
  }

  lemma SingletonMap(m: map<Key, string>, k: Key)
    requires |m| == 1 && k in m
    ensures m == map[k := m[k]]
  {
    assert m.Keys == {k} by {
      assert |m.Keys - {k}| == 0;
    }
  }

  lemma BuildSingleton(h: HashFn, m: map<Key, string>, k: Key, depth: nat)
    requires |m| == 1 && k in m && ValidKeys(m.Keys, depth)
    ensures Build(h, m, depth) == LeafNode(h, k, m[k])
  {
    SingletonMap(m, k);
  }

  /** Which of the three shapes the canonical tree has is decided by the number of keys alone. */
  lemma BuildShape(h: HashFn, m: map<Key, string>, depth: nat)
    requires ValidKeys(m.Keys, depth)
    ensures Build(h, m, depth).Nil? <==> |m| == 0
    ensures Build(h, m, depth).Leaf? <==> |m| == 1
    ensures Build(h, m, depth).Inner? <==> |m| >= 2
  {}

  /** Changing a key changes only the side that key's bit selects. */
  lemma SideUpdate(m: map<Key, string>, key: Key, value: string, depth: nat)
    ensures Side(m[key := value], depth, Bit(key, depth)) == Side(m, depth, Bit(key, depth))[key := value]
    ensures Side(m[key := value], depth, 1 - Bit(key, depth)) == Side(m, depth, 1 - Bit(key, depth))
  {}

  lemma SideRemove(m: map<Key, string>, key: Key, depth: nat)
    ensures Side(m - {key}, depth, Bit(key, depth)) == Side(m, depth, Bit(key, depth)) - {key}
    ensures Side(m - {key}, depth, 1 - Bit(key, depth)) == Side(m, depth, 1 - Bit(key, depth))
  {}

  lemma UpdateSize(m: map<Key, string>, key: Key, value: string)
    ensures |m[key := value]| == if key in m then |m| else |m| + 1
  {
    assert m[key := value].Keys == m.Keys + {key};
  }

  lemma RemoveSize(m: map<Key, string>, key: Key)
    ensures |m - {key}| == if key in m then |m| - 1 else |m|
    ensures key !in m ==> m - {key} == m
  {
    assert (m - {key}).Keys == m.Keys - {key};
  }

  // ---------------------------------------------------------------- the tree object

  /** The sides of a two-key map: the keys part company where their bits differ, and stay
      together otherwise. */
  lemma PairSides(a: Tree, b: Tree, depth: nat)
    requires a.Leaf? && b.Leaf? && a.key != b.key && ValidKeys({a.key, b.key}, depth)
    ensures depth < KEY_BITS
    ensures |PairMap(a, b)| == 2 && PairMap(a, b).Keys == {a.key, b.key}
    ensures Bit(a.key, depth) != Bit(b.key, depth) ==>
      && Side(PairMap(a, b), depth, Bit(a.key, depth)) == map[a.key := a.value]
      && Side(PairMap(a, b), depth, Bit(b.key, depth)) == map[b.key := b.value]
    ensures Bit(a.key, depth) == Bit(b.key, depth) ==>
      && Side(PairMap(a, b), depth, Bit(a.key, depth)) == PairMap(a, b)
      && Side(PairMap(a, b), depth, 1 - Bit(a.key, depth)) == map[]
      && ValidKeys({a.key, b.key}, depth + 1)
  {
    var m := PairMap(a, b);
    assert m.Keys == {a.key, b.key} && |{a.key, b.key}| == 2;
    TwoKeysDiffer({a.key, b.key}, depth);
    assert SameBits(a.key, b.key, depth) && SameBits(b.key, a.key, depth);
  }

  ghost function PairMap(a: Tree, b: Tree): map<Key, string>
    requires a.Leaf? && b.Leaf?
  {
    map[a.key := a.value, b.key := b.value]
  }

  /** Pushes two different leaves down until their keys diverge. */
  function Split(h: HashFn, a: Tree, b: Tree, depth: nat): (r: Tree)
    requires a.Leaf? && b.Leaf? && a.key != b.key
    requires ValidKeys({a.key, b.key}, depth)
    decreases KEY_BITS - depth
  {
    PairSides(a, b, depth);
    var abit, bbit := Bit(a.key, depth), Bit(b.key, depth);
    if abit != bbit then
      InternalNode(h, if abit == 0 then a else b, if abit == 0 then b else a)
    else
      var child := Split(h, a, b, depth + 1);
      if abit == 0 then InternalNode(h, child, Nil) else InternalNode(h, Nil, child)
  }

  lemma {:induction false} SplitBuilds(h: HashFn, a: Tree, b: Tree, depth: nat)
    requires a.Leaf? && b.Leaf? && a.key != b.key
    requires ValidKeys({a.key, b.key}, depth)
    requires a == LeafNode(h, a.key, a.value) && b == LeafNode(h, b.key, b.value)
    ensures ValidKeys(PairMap(a, b).Keys, depth)
    ensures Split(h, a, b, depth) == Build(h, PairMap(a, b), depth)
    decreases KEY_BITS - depth
  {
    PairSides(a, b, depth);
    var m := PairMap(a, b);
    SidesValid(m, depth);
    if Bit(a.key, depth) != Bit(b.key, depth) {
      BuildSingleton(h, map[a.key := a.value], a.key, depth + 1);
      BuildSingleton(h, map[b.key := b.value], b.key, depth + 1);
    } else {
      SplitBuilds(h, a, b, depth + 1);
    }
  }

  /** The inner node whose `bit` side is `near` and whose other side is `far`. */
  function Fork(h: HashFn, bit: nat, near: Tree, far: Tree): Tree {
    if bit == 0 then InternalNode(h, near, far) else InternalNode(h, far, near)
  }

  lemma BuildFork(h: HashFn, m: map<Key, string>, depth: nat, bit: nat)
    requires ValidKeys(m.Keys, depth) && |m| >= 2 && bit <= 1
    ensures ValidKeys(Side(m, depth, bit).Keys, depth + 1) && ValidKeys(Side(m, depth, 1 - bit).Keys, depth + 1)
    ensures Build(h, m, depth) ==
      Fork(h, bit, Build(h, Side(m, depth, bit), depth + 1), Build(h, Side(m, depth, 1 - bit), depth + 1))
  {
    SidesValid(m, depth);
  }

  /** The node that must stand at `depth` for a map whose two sides have these trees: the source's
      collapse rule, read as a function of the sides. */
  function Joined(h: HashFn, left: Tree, right: Tree): Tree {
    if left.Nil? && !right.Inner? then right
    else if right.Nil? && left.Leaf? then left
    else InternalNode(h, left, right)
  }

  function JoinedAt(h: HashFn, bit: nat, near: Tree, far: Tree): Tree {
    if bit == 0 then Joined(h, near, far) else Joined(h, far, near)
  }

  /** The canonical tree of a one-key map is the same at every depth, which is why the source may
      hand the surviving leaf upward when a deletion leaves nothing beside it. */
  lemma BuildJoined(h: HashFn, m: map<Key, string>, depth: nat, bit: nat, s: map<Key, string>, t: map<Key, string>)
    requires ValidKeys(m.Keys, depth) && bit <= 1
    requires s == Side(m, depth, bit) && t == Side(m, depth, 1 - bit)
    ensures ValidKeys(s.Keys, depth + 1) && ValidKeys(t.Keys, depth + 1)
    ensures Build(h, m, depth) == JoinedAt(h, bit, Build(h, s, depth + 1), Build(h, t, depth + 1))
  {
    SidesValid(m, depth);
    SidesPartition(m, depth, bit);
    BuildShape(h, s, depth + 1);
    BuildShape(h, t, depth + 1);
    if |m| == 1 {
      var k :| k in m;
      SingletonSides(m, k, depth);
      BuildSingleton(h, m, k, depth);
      BuildSingleton(h, Side(m, depth, Bit(k, depth)), k, depth + 1);
    } else if |m| >= 2 {
      BuildFork(h, m, depth, bit);
    }
  }

  lemma SingletonSides(m: map<Key, string>, k: Key, depth: nat)
    requires |m| == 1 && k in m
    ensures Side(m, depth, Bit(k, depth)) == m
    ensures Side(m, depth, 1 - Bit(k, depth)) == map[]
  {
    SingletonMap(m, k);
  }

  /** Inserting where the canonical tree is empty or a single leaf. */
  lemma SetSmall(h: HashFn, m: map<Key, string>, key: Key, value: string, depth: nat)
    requires ValidKeys(m.Keys, depth) && ValidKeys(m.Keys + {key}, depth) && |m| <= 1
    ensures ValidKeys(m[key := value].Keys, depth)
    ensures |m[key := value]| == if key in m then |m| else |m| + 1
    ensures var node := Build(h, m, depth);
      if node.Leaf? && node.key != key then
        && key !in m
        && ValidKeys({node.key, key}, depth)
        && Build(h, m[key := value], depth) == Split(h, node, LeafNode(h, key, value), depth)
      else
        && (node.Leaf? <==> key in m)
        && Build(h, m[key := value], depth) == LeafNode(h, key, value)
  {
    var m' := m[key := value];
    assert m'.Keys == m.Keys + {key};
    UpdateSize(m, key, value);
    if |m| == 0 {
      BuildSingleton(h, m', key, depth);
    } else {
      var k :| k in m;
      BuildSingleton(h, m, k, depth);
      SingletonMap(m, k);
      if k == key {
        BuildSingleton(h, m', key, depth);
      } else {
        var a, b := LeafNode(h, k, m[k]), LeafNode(h, key, value);
        assert m' == PairMap(a, b);
        assert {k, key} == m.Keys + {key};
        SplitBuilds(h, a, b, depth);
      }
    }
  }

  /** Inserting below an inner node goes to the side the key's bit names and leaves the other alone. */
  lemma SetInner(h: HashFn, m: map<Key, string>, key: Key, value: string, depth: nat, bit: nat,
                 s: map<Key, string>, t: map<Key, string>)
    requires ValidKeys(m.Keys, depth) && ValidKeys(m.Keys + {key}, depth) && |m| >= 2
    requires bit == Bit(key, depth) && s == Side(m, depth, bit) && t == Side(m, depth, 1 - bit)
    ensures ValidKeys(m[key := value].Keys, depth)
    ensures ValidKeys(s.Keys, depth + 1) && ValidKeys(s.Keys + {key}, depth + 1) && ValidKeys(t.Keys, depth + 1)
    ensures ValidKeys(s[key := value].Keys, depth + 1)
    ensures |m[key := value]| - |m| == |s[key := value]| - |s|
    ensures Build(h, m, depth) == Fork(h, bit, Build(h, s, depth + 1), Build(h, t, depth + 1))
    ensures Build(h, m[key := value], depth) ==
      Fork(h, bit, Build(h, s[key := value], depth + 1), Build(h, t, depth + 1))
  {
    hide *;
    var m' := m[key := value];
    OwnSide(m, key, depth);
    KeysOfUpdate(m, key, value);
    KeysOfUpdate(s, key, value);
    UpdateSize(m, key, value);
    UpdateSize(s, key, value);
    SideUpdate(m, key, value, depth);
    SidesValid(m, depth);
    SidesValid(m', depth);
    BuildFork(h, m, depth, bit);
    BuildFork(h, m', depth, bit);
  }

  lemma OwnSide(m: map<Key, string>, key: Key, depth: nat)
    ensures key in m <==> key in Side(m, depth, Bit(key, depth))
  {}

  lemma KeysOfUpdate(m: map<Key, string>, key: Key, value: string)
    ensures m[key := value].Keys == m.Keys + {key}
  {}

  /** Deleting where the canonical tree is empty or a single leaf. */
  lemma DeleteSmall(h: HashFn, m: map<Key, string>, key: Key, depth: nat)
    requires ValidKeys(m.Keys, depth) && |m| <= 1
    ensures ValidKeys((m - {key}).Keys, depth)
    ensures |m - {key}| == if key in m then |m| - 1 else |m|
    ensures var node := Build(h, m, depth);
      && (key in m <==> node.Leaf? && node.key == key)
      && Build(h, m - {key}, depth) == if key in m then Nil else node
  {
    assert (m - {key}).Keys <= m.Keys;
    RemoveSize(m, key);
    if |m| == 1 {
      var k :| k in m;
      BuildSingleton(h, m, k, depth);
      SingletonMap(m, k);
    }
  }

  lemma RemoveFromSides(m: map<Key, string>, key: Key, depth: nat, bit: nat)
    requires bit == Bit(key, depth)
    ensures key in Side(m, depth, bit) <==> key in m
    ensures |Side(m, depth, bit)| <= |m|
    ensures |m| - |m - {key}| == |Side(m, depth, bit)| - |Side(m - {key}, depth, bit)|
  {
    hide Bit;
    SidesPartition(m, depth, bit);
    SidesPartition(m - {key}, depth, bit);
    SideRemove(m, key, depth);
    hide Side;
  }

  /** Deleting below an inner node works on the side the key's bit names; the two sides then meet
      as the collapse rule says. */
  lemma DeleteInner(h: HashFn, m: map<Key, string>, key: Key, depth: nat, bit: nat,
                    s: map<Key, string>, t: map<Key, string>)
    requires ValidKeys(m.Keys, depth) && |m| >= 2
    requires bit == Bit(key, depth) && s == Side(m, depth, bit) && t == Side(m, depth, 1 - bit)
    ensures ValidKeys((m - {key}).Keys, depth)
    ensures ValidKeys(s.Keys, depth + 1) && ValidKeys((s - {key}).Keys, depth + 1) && ValidKeys(t.Keys, depth + 1)
    ensures Build(h, m, depth) == Fork(h, bit, Build(h, s, depth + 1), Build(h, t, depth + 1))
    ensures Build(h, m - {key}, depth) ==
      JoinedAt(h, bit, Build(h, s - {key}, depth + 1), Build(h, t, depth + 1))
    ensures (key in s <==> key in m) && |s| <= |m| && |m| - |m - {key}| == |s| - |s - {key}|
  {
    hide Bit, Side, Build, ValidKeys;
    ValidSubset(m.Keys, (m - {key}).Keys, depth);
    BuildFork(h, m, depth, bit);
    RemoveFromSides(m, key, depth, bit);
    SideRemove(m, key, depth);
    var m', s' := m - {key}, s - {key};
    assert s' == Side(m', depth, bit) && t == Side(m', depth, 1 - bit);
    BuildJoined(h, m', depth, bit, s', t);
  }

  /** One entry on the way from the root to the end of a path. */
  datatype Sibling = Sibling(hash: string, keyBit: int)
  datatype Terminal = Terminal(key: Key, value: string)
  datatype Proof = Proof(siblings: seq<Sibling>, terminal: Option<Terminal>)

  /** The path of `key` in a tree, as the proof that describes it. */
  function PathOf(h: HashFn, t: Tree, key: Key, depth: nat): Proof {
    match t
    case Nil => Proof([], None)
    case Leaf(k, v, _) => Proof([], Some(Terminal(k, v)))
    case Inner(l, r, _) =>
      var bit := Bit(key, depth);
      var rest := PathOf(h, if bit == 0 then l else r, key, depth + 1);
      Proof([Sibling(RootHash(h, if bit == 0 then r else l), bit)] + rest.siblings, rest.terminal)
  }

  lemma PathStepDown(h: HashFn, node: Tree, key: Key, depth: nat, before: seq<Sibling>)
    requires node.Inner?
    ensures
      var bit := Bit(key, depth);
      var child, sibling := if bit == 0 then node.left else node.right, if bit == 0 then node.right else node.left;
      && before + PathOf(h, node, key, depth).siblings
         == (before + [Sibling(RootHash(h, sibling), bit)]) + PathOf(h, child, key, depth + 1).siblings
      && PathOf(h, node, key, depth).terminal == PathOf(h, child, key, depth + 1).terminal
  {
  }

  /** createSMT(): `_root` and `_size` are the closure's variables, `contents` is what they stand for. */
  class SparseMerkleTree {
    const hash: HashFn
    var root: Tree
    var size: nat
    ghost var contents: map<Key, string>

    ghost predicate Valid()
      reads this
    {
      && ValidKeys(contents.Keys, 0)
      && root == Build(hash, contents, 0)
      && size == |contents|
    }

    constructor (h: HashFn)
      ensures Valid() && contents == map[] && hash == h
    {
      hash := h;
      root, size, contents := Nil, 0, map[];
    }

    method SetAt(node: Tree, key: Key, value: string, depth: nat, ghost m: map<Key, string>)
      returns (r: Tree)
      requires ValidKeys(m.Keys + {key}, depth)
      requires ValidKeys(m.Keys, depth) && node == Build(hash, m, depth)
      modifies this`size
      ensures ValidKeys(m[key := value].Keys, depth)
      ensures r == Build(hash, m[key := value], depth)
      ensures size == old(size) + |m[key := value]| - |m|
      decreases node
    {
      hide Bit, Side, Build, ValidKeys;
      BuildShape(hash, m, depth);
      if node.Nil? || node.Leaf? {
        SetSmall(hash, m, key, value, depth);
        if node.Leaf? && node.key == key {
          return LeafNode(hash, key, value);
        }
        size := size + 1;
        if node.Nil? {
          return LeafNode(hash, key, value);
        }
        return Split(hash, node, LeafNode(hash, key, value), depth);
      }
      var bit := Bit(key, depth);
      ghost var s, t := Side(m, depth, bit), Side(m, depth, 1 - bit);
      SetInner(hash, m, key, value, depth, bit, s, t);
      var left, right := node.left, node.right;
      if bit == 0 {
        left := SetAt(node.left, key, value, depth + 1, s);
      } else {
        right := SetAt(node.right, key, value, depth + 1, s);
      }
      r := InternalNode(hash, left, right);
    }

    method DeleteAt(node: Tree, key: Key, depth: nat, ghost m: map<Key, string>)
      returns (r: Tree, deleted: bool)
      requires ValidKeys(m.Keys, depth)
      requires node == Build(hash, m, depth)
      requires |m| <= size
      modifies this`size
      ensures ValidKeys((m - {key}).Keys, depth)
      ensures r == Build(hash, m - {key}, depth)
      ensures deleted <==> key in m
      ensures size == old(size) - (|m| - |m - {key}|)
      decreases node
    {
      hide Bit, Side, Build, ValidKeys;
      BuildShape(hash, m, depth);
      if node.Nil? || node.Leaf? {
        DeleteSmall(hash, m, key, depth);
        if node.Nil? || node.key != key {
          return node, false;
        }
        size := size - 1;
        return Nil, true;
      }
      var child: Tree;
      var bit := Bit(key, depth);
      ghost var s, t := Side(m, depth, bit), Side(m, depth, 1 - bit);
      DeleteInner(hash, m, key, depth, bit, s, t);
      if bit == 0 {
        child, deleted := DeleteAt(node.left, key, depth + 1, s);
      } else {
        child, deleted := DeleteAt(node.right, key, depth + 1, s);
      }
      if !deleted {
        RemoveSize(m, key);
        return node, false;
      }
      var left := if bit == 0 then child else node.left;
      var right := if bit == 1 then child else node.right;
      if left.Nil? && right.Leaf? {
        return right, true;
      }
      if right.Nil? && left.Leaf? {
        return left, true;
      }
      if left.Nil? && right.Nil? {
        return Nil, true;
      }
      r := InternalNode(hash, left, right);
    }

    method Set(key: Key, value: string)
      requires Valid()
      modifies this
      ensures Valid() && contents == old(contents)[key := value]
    {
      root := SetAt(root, key, value, 0, contents);
      contents := contents[key := value];
    }

    method Remove(key: Key) returns (deleted: bool)
      requires Valid()
      modifies this
      ensures Valid() && contents == old(contents) - {key}
      ensures deleted <==> key in old(contents)
    {
      root, deleted := DeleteAt(root, key, 0, contents);
      contents := contents - {key};
    }

    method Clear()
      modifies this
      ensures Valid() && contents == map[]
    {
      root, size, contents := Nil, 0, map[];
    }

    function Root(): string
      reads this
    {
      RootHash(hash, root)
    }

    /** The loop walks down from the root; what it has pushed so far followed by the path of the
        node it stands on is always the whole path. */
    method GetProof(key: Key) returns (p: Proof)
      ensures p == PathOf(hash, root, key, 0)
    {
      var siblings := [];
      var node := root;
      var depth: nat := 0;
      while node.Inner?
        invariant siblings + PathOf(hash, node, key, depth).siblings == PathOf(hash, root, key, 0).siblings
        invariant PathOf(hash, node, key, depth).terminal == PathOf(hash, root, key, 0).terminal
        decreases node
      {
        var bit := Bit(key, depth);
        var sibling := if bit == 0 then node.right else node.left;
        PathStepDown(hash, node, key, depth, siblings);
        siblings := siblings + [Sibling(RootHash(hash, sibling), bit)];
        node := if bit == 0 then node.left else node.right;
        depth := depth + 1;
      }
      assert siblings + [] == siblings;
      p := Proof(siblings, if node.Nil? then None else Some(Terminal(node.key, node.value)));
    }
  }

}
