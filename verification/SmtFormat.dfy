/** The root of the sparse Merkle tree as text and hashes alone, without any tree (shared/smt.js). */
module SmtFormat {
  import opened Hashing
  import opened Smt

  /** The bit that decides at a depth: of the four that a hexadecimal digit stands for, the highest first. */
  function DigitBit(text: string, depth: nat): nat
    requires depth / 4 < |text|
  {
    HexValue(text[depth / 4]) / [8, 4, 2, 1][depth % 4] % 2
  }

  lemma DigitBitIsBit(k: Key, depth: nat)
    requires depth < KEY_BITS
    ensures DigitBit(Hex(k), depth) == Bit(k, depth)
  {
    TextBitIsBit(k, depth);
  }

  /** The hash of a set of entries below a depth: of the word for nothing, of the text of the one entry there
      is, or of the two halves that the deciding bit makes, the 0 half first. */
  ghost function HashBelow(h: HashFn, m: map<Key, string>, depth: nat): string
    requires ValidKeys(m.Keys, depth)
    decreases KEY_BITS - depth
  {
    if |m| == 0 then h("tip-smt-empty")
    else if |m| == 1 then
      var k :| k in m;
      h("L" + Hex(k) + ":" + m[k])
    else
      TwoKeysDiffer(m.Keys, depth);
      HalvesAreSides(m, depth);
      SidesValid(m, depth);
      h("N" + HashBelow(h, Half(m, depth, 0), depth + 1) + HashBelow(h, Half(m, depth, 1), depth + 1))
  }

  ghost function Half(m: map<Key, string>, depth: nat, bit: nat): map<Key, string>
    requires depth < KEY_BITS
  {
    map k | k in m && DigitBit(Hex(k), depth) == bit :: m[k]
  }

  lemma HalvesAreSides(m: map<Key, string>, depth: nat)
    requires depth < KEY_BITS
    ensures Half(m, depth, 0) == Side(m, depth, 0) && Half(m, depth, 1) == Side(m, depth, 1)
  {
    forall k | k in m ensures DigitBit(Hex(k), depth) == Bit(k, depth) {
      DigitBitIsBit(k, depth);
    }
    hide Hex, Bit, DigitBit;
  }

  lemma HashOfOne(h: HashFn, m: map<Key, string>, k: Key, depth: nat)
    requires |m| == 1 && k in m && ValidKeys(m.Keys, depth)
    ensures HashBelow(h, m, depth) == LeafHash(h, LeafData(k, m[k]))
  {
    SingletonMap(m, k);
    assert "L" + (Hex(k) + ":" + m[k]) == "L" + Hex(k) + ":" + m[k];
  }

  /** The root of the tree of a map is that hash. */
  lemma {:induction false} RootIsHash(h: HashFn, m: map<Key, string>, depth: nat)
    requires ValidKeys(m.Keys, depth)
    ensures RootHash(h, Build(h, m, depth)) == HashBelow(h, m, depth)
    decreases KEY_BITS - depth
  {
    if |m| == 1 {
      var k :| k in m;
      BuildSingleton(h, m, k, depth);
      HashOfOne(h, m, k, depth);
    } else if |m| > 1 {
      TwoKeysDiffer(m.Keys, depth);
      HalvesAreSides(m, depth);
      SidesValid(m, depth);
      RootIsHash(h, Side(m, depth, 0), depth + 1);
      RootIsHash(h, Side(m, depth, 1), depth + 1);
    }
  }
}
