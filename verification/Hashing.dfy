/** The hash discipline of shared/merkle.js: a leading "L" or "N" separates leaves from inner nodes. */
module Hashing {
  // The hash function itself is a parameter. No theorem assumes it injective on all strings (no function
  // with 64-character results over a finite alphabet is); the theorems assume only that it has no collision
  // among the finitely many strings that were actually hashed.

  type HashFn = string -> string

  const DIGEST_LENGTH := 64

  ghost predicate FixedWidth(h: HashFn) {
    forall x: string {:trigger h(x)} :: |h(x)| == DIGEST_LENGTH
  }

  ghost predicate CollisionFree(h: HashFn, hashed: set<string>) {
    forall x, y {:trigger h(x), h(y)} | x in hashed && y in hashed && h(x) == h(y) :: x == y
  }

  function LeafHash(h: HashFn, data: string): string {
    h("L" + data)
  }

  function NodeHash(h: HashFn, left: string, right: string): string {
    h("N" + left + right)
  }

  /** What an inner node hashes can be taken apart again as soon as one half is known to be a digest:
      the other half may be any string an outsider supplied. */
  lemma NodePreimageInjective(l0: string, r0: string, l1: string, r1: string)
    requires "N" + l0 + r0 == "N" + l1 + r1
    requires |l0| == |l1| || |r0| == |r1|
    ensures l0 == l1 && r0 == r1
  {
    var s0, s1 := "N" + l0 + r0, "N" + l1 + r1;
    assert |l0| == |l1|;
    assert l0 == s0[1..1 + |l0|] && l1 == s1[1..1 + |l1|];
    assert r0 == s0[1 + |l0|..] && r1 == s1[1 + |l1|..];
  }

  /** The two hash domains never meet: a leaf preimage starts with 'L', an inner one with 'N'. */
  lemma DomainsDisjoint(data: string, l: string, r: string)
    ensures "L" + data != "N" + l + r
  {
    assert ("L" + data)[0] == 'L';
    assert ("N" + l + r)[0] == 'N';
  }
}
