/**
 * Merkle roots and inclusion proofs over a list of leaf digests. A level of odd length pairs its last
 * node with itself. The hash function is a parameter; binding results produce the colliding inputs.
 */
module Merkle {
  import opened Common

  type Hash = Bytes -> Digest

  function PairHash(h: Hash, left: Digest, right: Digest): Digest {
    h(left + right)
  }

  /** The right-hand partner of the pair at `2 * i`, duplicated at an odd end. */
  function Right(level: seq<Digest>, i: nat): Digest
    requires 2 * i < |level|
  {
    if 2 * i + 1 < |level| then level[2 * i + 1] else level[2 * i]
  }

  function NextLevel(h: Hash, level: seq<Digest>): (next: seq<Digest>)
    ensures |next| == (|level| + 1) / 2
    ensures forall i: nat | i < |next| :: next[i] == PairHash(h, level[2 * i], Right(level, i))
  {
    seq((|level| + 1) / 2, i requires 0 <= i < (|level| + 1) / 2 => PairHash(h, level[2 * i], Right(level, i)))
  }

  function RootOf(h: Hash, level: seq<Digest>): Digest
    requires level != []
    decreases |level|
  {
    if |level| == 1 then level[0] else RootOf(h, NextLevel(h, level))
  }

  function Root(h: Hash, leaves: seq<Digest>): Digest {
    if leaves == [] then h([]) else RootOf(h, leaves)
  }

  function Depth(n: nat): nat {
    if n <= 1 then 0 else 1 + Depth((n + 1) / 2)
  }

  function Sibling(level: seq<Digest>, cursor: nat): Digest
    requires cursor < |level|
  {
    if cursor % 2 == 0 then Right(level, cursor / 2) else level[cursor - 1]
  }

  /** The siblings met on the way from a position to the root. */
  function Siblings(h: Hash, level: seq<Digest>, cursor: nat): (siblings: seq<Digest>)
    requires cursor < |level|
    ensures |siblings| == Depth(|level|)
    decreases |level|
  {
    if |level| == 1 then [] else [Sibling(level, cursor)] + Siblings(h, NextLevel(h, level), cursor / 2)
  }

  /** The bytes hashed at one step of a proof. */
  function Joined(current: Digest, index: nat, sibling: Digest): Bytes {
    if index % 2 == 0 then current + sibling else sibling + current
  }

  /** What a proof recomputes from a leaf. */
  function Climb(h: Hash, current: Digest, index: nat, siblings: seq<Digest>): Digest
    decreases |siblings|
  {
    if siblings == [] then current
    else Climb(h, h(Joined(current, index, siblings[0])), index / 2, siblings[1..])
  }

  lemma GenuineStep(h: Hash, level: seq<Digest>, cursor: nat)
    requires cursor < |level| && |level| > 1
    ensures cursor / 2 < |NextLevel(h, level)| < |level|
    ensures Joined(level[cursor], cursor, Sibling(level, cursor)) == level[2 * (cursor / 2)] + Right(level, cursor / 2)
    ensures h(Joined(level[cursor], cursor, Sibling(level, cursor))) == NextLevel(h, level)[cursor / 2]
  {
  }

  /** Every constructed proof verifies, for every list length and every position. */
  lemma {:induction false} ProofVerifies(h: Hash, level: seq<Digest>, cursor: nat)
    requires cursor < |level|
    ensures Climb(h, level[cursor], cursor, Siblings(h, level, cursor)) == RootOf(h, level)
    decreases |level|
  {
    if |level| > 1 {
      GenuineStep(h, level, cursor);
      ProofVerifies(h, NextLevel(h, level), cursor / 2);
    }
  }

  // ----- Binding -----

  /** Climbs the claimed and the real path together and returns the first two inputs that collide. */
  function ForgedStep(h: Hash, level: seq<Digest>, index: nat, leaf: Digest, siblings: seq<Digest>): (Bytes, Bytes)
    requires index < |level| && |siblings| == Depth(|level|)
    decreases |level|
  {
    if |level| == 1 then ([], [])
    else
      var claimed := Joined(leaf, index, siblings[0]);
      var genuine := Joined(level[index], index, Sibling(level, index));
      if Collision(h, (claimed, genuine)) then (claimed, genuine)
      else ForgedStep(h, NextLevel(h, level), index / 2, h(claimed), siblings[1..])
  }

  lemma JoinedIsInjective(a: Digest, b: Digest, index: nat, s: Digest, t: Digest)
    requires Joined(a, index, s) == Joined(b, index, t)
    ensures a == b && s == t
  {
    if index % 2 == 0 {
      assert (a + s)[..32] == a && (a + s)[32..] == s && (b + t)[..32] == b && (b + t)[32..] == t;
    } else {
      assert (s + a)[..32] == s && (s + a)[32..] == a && (t + b)[..32] == t && (t + b)[32..] == b;
    }
  }

  /** A proof of the right length that verifies is the real proof of the real leaf, or exhibits a collision. */
  lemma {:induction false} VerifyingProofIsGenuine(
    h: Hash, level: seq<Digest>, index: nat, leaf: Digest, siblings: seq<Digest>)
    requires index < |level| && |siblings| == Depth(|level|)
    requires Climb(h, leaf, index, siblings) == RootOf(h, level)
    ensures (leaf == level[index] && siblings == Siblings(h, level, index))
            || Collision(h, ForgedStep(h, level, index, leaf, siblings))
    decreases |level|
  {
    if |level| > 1 {
      var claimed := Joined(leaf, index, siblings[0]);
      var genuine := Joined(level[index], index, Sibling(level, index));
      GenuineStep(h, level, index);
      VerifyingProofIsGenuine(h, NextLevel(h, level), index / 2, h(claimed), siblings[1..]);
      if claimed == genuine {
        JoinedIsInjective(leaf, level[index], index, siblings[0], Sibling(level, index));
      }
    }
  }

  /** The first pair of positions, from `i` on, where two levels hash different inputs. */
  function DifferentPair(a: seq<Digest>, b: seq<Digest>, i: nat): (Bytes, Bytes)
    requires |a| == |b|
    decreases |a| - 2 * i
  {
    if 2 * i >= |a| then ([], [])
    else if a[2 * i] + Right(a, i) != b[2 * i] + Right(b, i) then (a[2 * i] + Right(a, i), b[2 * i] + Right(b, i))
    else DifferentPair(a, b, i + 1)
  }

  /** The colliding inputs behind two different leaf lists of one length with one root. */
  function RootCollision(h: Hash, a: seq<Digest>, b: seq<Digest>): (Bytes, Bytes)
    requires |a| == |b|
    decreases |a|
  {
    if |a| <= 1 then ([], [])
    else if NextLevel(h, a) != NextLevel(h, b) then RootCollision(h, NextLevel(h, a), NextLevel(h, b))
    else DifferentPair(a, b, 0)
  }

  lemma {:induction false} DifferentPairCollides(h: Hash, a: seq<Digest>, b: seq<Digest>, i: nat)
    requires |a| == |b| && NextLevel(h, a) == NextLevel(h, b)
    requires 2 * i <= |a| + 1 && (forall k | 0 <= k < 2 * i && k < |a| :: a[k] == b[k])
    ensures a == b || Collision(h, DifferentPair(a, b, i))
    decreases |a| - 2 * i
  {
    if 2 * i < |a| {
      var x, y := a[2 * i] + Right(a, i), b[2 * i] + Right(b, i);
      assert h(x) == NextLevel(h, a)[i] == NextLevel(h, b)[i] == h(y);
      if x == y {
        JoinedIsInjective(a[2 * i], b[2 * i], 0, Right(a, i), Right(b, i));
        DifferentPairCollides(h, a, b, i + 1);
      }
    }
  }

  /** Leaf lists of one length with one root are equal, or exhibit a collision. */
  lemma {:induction false} RootBindsLeaves(h: Hash, a: seq<Digest>, b: seq<Digest>)
    requires |a| == |b| && Root(h, a) == Root(h, b)
    ensures a == b || Collision(h, RootCollision(h, a, b))
    decreases |a|
  {
    if |a| > 1 {
      if NextLevel(h, a) != NextLevel(h, b) {
        RootBindsLeaves(h, NextLevel(h, a), NextLevel(h, b));
      } else {
        DifferentPairCollides(h, a, b, 0);
      }
    }
  }

  /** The equal-length condition is needed: repeating the last leaf of an odd list keeps the root. */
  lemma RepeatedLastLeafKeepsRoot(h: Hash, leaves: seq<Digest>)
    requires |leaves| > 1 && |leaves| % 2 == 1
    ensures Root(h, leaves + [leaves[|leaves| - 1]]) == Root(h, leaves)
  {
    var longer := leaves + [leaves[|leaves| - 1]];
    assert NextLevel(h, longer) == NextLevel(h, leaves);
  }

  // ----- The loops of the source -----

  /** Duplicates an odd last node, then hashes adjacent pairs. */
  method Raise(h: Hash, nodes: seq<Digest>) returns (padded: seq<Digest>, next: seq<Digest>)
    requires |nodes| > 1
    ensures next == NextLevel(h, nodes)
    ensures |nodes| <= |padded| <= |nodes| + 1 && |padded| % 2 == 0 && padded[..|nodes|] == nodes
    ensures |nodes| < |padded| ==> padded[|nodes|] == nodes[|nodes| - 1]
  {
    padded := nodes;
    if |padded| % 2 == 1 {
      padded := padded + [padded[|padded| - 1]];
    }
    next := [];
    var i := 0;
    while 2 * i < |padded|
      invariant 0 <= 2 * i <= |padded| && |next| == i
      invariant forall k: nat | k < i :: next[k] == PairHash(h, padded[2 * k], padded[2 * k + 1])
    {
      next := next + [PairHash(h, padded[2 * i], padded[2 * i + 1])];
      i := i + 1;
    }
  }

  method MerkleRoot(h: Hash, leaves: seq<Digest>) returns (root: Digest)
    ensures root == Root(h, leaves)
  {
    if leaves == [] {
      return h([]);
    }
    var level := leaves;
    while |level| > 1
      invariant level != [] && RootOf(h, level) == RootOf(h, leaves)
      decreases |level|
    {
      var padded, next := Raise(h, level);
      level := next;
    }
    return level[0];
  }

  datatype MerkleProof = MerkleProof(index: nat, siblings: seq<Digest>)

  /** `cursor ^ 1` */
  function FlipLowBit(cursor: nat): nat {
    if cursor % 2 == 0 then cursor + 1 else cursor - 1
  }

  lemma PaddedSibling(level: seq<Digest>, padded: seq<Digest>, cursor: nat)
    requires cursor < |level| <= |padded| <= |level| + 1 && |padded| % 2 == 0 && padded[..|level|] == level
    requires |level| < |padded| ==> padded[|level|] == level[|level| - 1]
    ensures FlipLowBit(cursor) < |padded| && padded[FlipLowBit(cursor)] == Sibling(level, cursor)
  {
    if FlipLowBit(cursor) < |level| {
      assert padded[FlipLowBit(cursor)] == padded[..|level|][FlipLowBit(cursor)];
    }
  }

  method Prove(h: Hash, leaves: seq<Digest>, index: nat) returns (proof: Option<MerkleProof>)
    ensures proof.Some? <==> index < |leaves|
    ensures proof.Some? ==>
              && proof.value == MerkleProof(index, Siblings(h, leaves, index))
              && Climb(h, leaves[index], index, proof.value.siblings) == Root(h, leaves)
  {
    if index >= |leaves| {
      return None;
    }
    ProofVerifies(h, leaves, index);
    var level, cursor, siblings := leaves, index, [];
    while |level| > 1
      invariant 0 <= cursor < |level|
      invariant siblings + Siblings(h, level, cursor) == Siblings(h, leaves, index)
      decreases |level|
    {
      var padded, next := Raise(h, level);
      PaddedSibling(level, padded, cursor);
      assert siblings + Siblings(h, level, cursor)
          == siblings + [Sibling(level, cursor)] + Siblings(h, next, cursor / 2);
      siblings := siblings + [padded[FlipLowBit(cursor)]];
      cursor, level := cursor / 2, next;
    }
    return Some(MerkleProof(index, siblings));
  }

  method Verify(h: Hash, proof: MerkleProof, leaf: Digest, root: Digest) returns (valid: bool)
    ensures valid <==> Climb(h, leaf, proof.index, proof.siblings) == root
  {
    var current, index := leaf, proof.index;
    for i := 0 to |proof.siblings|
      invariant Climb(h, current, index, proof.siblings[i..]) == Climb(h, leaf, proof.index, proof.siblings)
    {
      assert proof.siblings[i..][1..] == proof.siblings[i + 1..];
      current := h(Joined(current, index, proof.siblings[i]));
      index := index / 2;
    }
    return current == root;
  }
}
