/**
 The transparency-log inclusion check of `verify_transparency`: the index is split into
 inner and border levels, and two loops fold the proof's hashes onto the leaf hash.

 The siblings in a proof are byte strings of any length; only the running node is known
 to be a digest.
 */
module InclusionProof {
  import opened Bytes
  import opened MerkleTree

  datatype Verdict =
    | Included
    | IndexOutsideTree
    | WrongNumberOfHashes
    | RootNotReached

  // ----- The shape of the computation -----

  function InnerLevels(index: nat, size: nat): nat
    requires index < size
  {
    BitLength(Xor(index, size - 1))
  }

  function BorderLevels(index: nat, size: nat): nat
    requires index < size
  {
    BitCount(ShiftRight(index, InnerLevels(index, size)))
  }

  /** One inner level: bit `level` of the index says on which side the sibling goes. */
  function Combine(h: Hash, bit: nat, node: Digest, sibling: ByteString): Digest {
    if bit == 0 then HashNode(h, node, sibling) else HashNode(h, sibling, node)
  }

  function FoldInner(h: Hash, index: nat, node: Digest, hashes: seq<ByteString>): Digest
    decreases |hashes|
  {
    if hashes == [] then node
    else FoldInner(h, index / 2, Combine(h, index % 2, node, hashes[0]), hashes[1..])
  }

  function FoldBorder(h: Hash, node: Digest, hashes: seq<ByteString>): Digest
    decreases |hashes|
  {
    if hashes == [] then node
    else FoldBorder(h, HashNode(h, hashes[0], node), hashes[1..])
  }

  function Fold(h: Hash, index: nat, inner: nat, node: Digest, hashes: seq<ByteString>): Digest
    requires inner <= |hashes|
  {
    FoldBorder(h, FoldInner(h, index, node, hashes[..inner]), hashes[inner..])
  }

  // ----- The verifier -----

  function Verify(h: Hash, index: int, size: int, body: ByteString, hashes: seq<ByteString>, root: ByteString): Verdict {
    if index < 0 || index >= size then IndexOutsideTree
    else if |hashes| != InnerLevels(index, size) + BorderLevels(index, size) then WrongNumberOfHashes
    else if Fold(h, index, InnerLevels(index, size), HashLeaf(h, body), hashes) != root then RootNotReached
    else Included
  }

  /** The two loops compute the fold. */
  method VerifyInclusion(h: Hash, index: int, size: int, body: ByteString, hashes: seq<ByteString>, root: ByteString)
    returns (verdict: Verdict)
    ensures verdict == Verify(h, index, size, body, hashes, root)
  {
    if index < 0 || index >= size {
      return IndexOutsideTree;
    }
    var node := HashLeaf(h, body);
    var inner := BitLength(Xor(index, size - 1));
    var border := BitCount(ShiftRight(index, inner));
    if |hashes| != inner + border {
      return WrongNumberOfHashes;
    }
    ghost var target := Fold(h, index, inner, node, hashes);
    for level := 0 to inner
      invariant FoldBorder(h, FoldInner(h, ShiftRight(index, level), node, hashes[level..inner]), hashes[inner..]) == target
    {
      var sibling := hashes[level];
      assert hashes[level..inner][1..] == hashes[level + 1..inner];
      ShiftRightStep(index, level);
      node := Combine(h, ShiftRight(index, level) % 2, node, sibling);
    }
    for i := inner to |hashes|
      invariant FoldBorder(h, node, hashes[i..]) == target
    {
      node := HashNode(h, hashes[i], node);
    }
    if node != root {
      return RootNotReached;
    }
    return Included;
  }

  // ----- One level at a time -----

  /** Whether position `m` of a level whose last position is `last` has a sibling there. */
  predicate HasSibling(m: nat, last: nat) {
    m % 2 == 1 || m < last
  }

  /** Climbs from position `m` to the root, one tree level per call; None if the hashes run out or are left over. */
  function Climb(h: Hash, m: nat, last: nat, node: Digest, hashes: seq<ByteString>): (r: seq<Digest>)
    requires m <= last
    ensures |r| <= 1
    decreases last
  {
    if last == 0 then (if hashes == [] then [node] else [])
    else if !HasSibling(m, last) then Climb(h, m / 2, last / 2, node, hashes)
    else if hashes == [] then []
    else Climb(h, m / 2, last / 2, Combine(h, m % 2, node, hashes[0]), hashes[1..])
  }

  function SiblingCount(m: nat, last: nat): nat
    requires m <= last
    decreases last
  {
    if last == 0 then 0
    else (if HasSibling(m, last) then 1 else 0) + SiblingCount(m / 2, last / 2)
  }

  lemma {:induction false} SiblingCountOnBorder(m: nat)
    ensures SiblingCount(m, m) == BitCount(m)
  {
    if m > 0 {
      SiblingCountOnBorder(m / 2);
    }
  }

  lemma {:induction false} SiblingCountIsHashCount(m: nat, last: nat)
    requires m <= last
    ensures SiblingCount(m, last) == InnerLevels(m, last + 1) + BorderLevels(m, last + 1)
    decreases last
  {
    hide InnerLevels, BorderLevels;
    LevelsBelow(m, last);
    if m == last {
      SiblingCountOnBorder(m);
    } else {
      SiblingCountIsHashCount(m / 2, last / 2);
    }
  }

  /** Below the level where the two positions meet there is one inner level more, and the border is the same. */
  lemma {:induction false} LevelsBelow(m: nat, last: nat)
    requires m <= last
    ensures m == last ==> InnerLevels(m, last + 1) == 0 && BorderLevels(m, last + 1) == BitCount(m)
    ensures m < last ==> InnerLevels(m, last + 1) == 1 + InnerLevels(m / 2, last / 2 + 1)
    ensures m < last ==> BorderLevels(m, last + 1) == BorderLevels(m / 2, last / 2 + 1)
  {
    hide BitCount;
    XorZeroIffEqual(m, last);
  }

  lemma {:induction false} SiblingCountBound(m: nat, last: nat)
    requires m <= last
    ensures SiblingCount(m, last) <= BitLength(last)
    decreases last
  {
    if last > 0 {
      SiblingCountBound(m / 2, last / 2);
    }
  }

  lemma {:induction false} ClimbConsumesSiblingCount(h: Hash, m: nat, last: nat, node: Digest, hashes: seq<ByteString>)
    requires m <= last
    ensures Climb(h, m, last, node, hashes) != [] <==> |hashes| == SiblingCount(m, last)
    decreases last
  {
    if last > 0 {
      if !HasSibling(m, last) {
        ClimbConsumesSiblingCount(h, m / 2, last / 2, node, hashes);
      } else if hashes != [] {
        ClimbConsumesSiblingCount(h, m / 2, last / 2, Combine(h, m % 2, node, hashes[0]), hashes[1..]);
      }
    }
  }

  lemma {:induction false} ClimbBorder(h: Hash, m: nat, node: Digest, hashes: seq<ByteString>)
    requires |hashes| == BitCount(m)
    ensures Climb(h, m, m, node, hashes) == [FoldBorder(h, node, hashes)]
    decreases m
  {
    if m > 0 {
      if m % 2 == 0 {
        ClimbBorder(h, m / 2, node, hashes);
      } else {
        ClimbBorder(h, m / 2, HashNode(h, hashes[0], node), hashes[1..]);
      }
    }
  }

  /** Whenever the hash count is right, the inner/border fold climbs the tree level by level. */
  lemma {:induction false} FoldIsClimb(h: Hash, m: nat, last: nat, node: Digest, hashes: seq<ByteString>)
    requires m <= last
    requires |hashes| == InnerLevels(m, last + 1) + BorderLevels(m, last + 1)
    ensures Climb(h, m, last, node, hashes) == [Fold(h, m, InnerLevels(m, last + 1), node, hashes)]
    decreases last
  {
    hide InnerLevels, BorderLevels, Combine, FoldBorder, FoldInner, Fold;
    LevelsBelow(m, last);
    if m == last {
      ClimbBorder(h, m, node, hashes);
      FoldAcrossBorder(h, m, node, hashes);
    } else {
      FoldIsClimb(h, m / 2, last / 2, Combine(h, m % 2, node, hashes[0]), hashes[1..]);
      FoldFirstInner(h, m, InnerLevels(m, last + 1), node, hashes);
    }
  }

  lemma FoldAcrossBorder(h: Hash, index: nat, node: Digest, hashes: seq<ByteString>)
    ensures Fold(h, index, 0, node, hashes) == FoldBorder(h, node, hashes)
  {
  }

  lemma FoldFirstInner(h: Hash, index: nat, inner: nat, node: Digest, hashes: seq<ByteString>)
    requires 0 < inner <= |hashes|
    ensures Fold(h, index, inner, node, hashes) ==
            Fold(h, index / 2, inner - 1, Combine(h, index % 2, node, hashes[0]), hashes[1..])
  {
    hide Combine, FoldBorder;
    assert hashes[..inner][1..] == hashes[1..][..inner - 1];
    assert hashes[inner..] == hashes[1..][inner - 1..];
  }

  lemma {:induction false} VerifyIsClimb(h: Hash, index: int, size: int, body: ByteString, hashes: seq<ByteString>, root: ByteString)
    ensures Verify(h, index, size, body, hashes, root) == Included <==>
            0 <= index < size && Climb(h, index, size - 1, HashLeaf(h, body), hashes) == [root]
  {
    if 0 <= index < size {
      SiblingCountIsHashCount(index, size - 1);
      ClimbConsumesSiblingCount(h, index, size - 1, HashLeaf(h, body), hashes);
      if |hashes| == InnerLevels(index, size) + BorderLevels(index, size) {
        FoldIsClimb(h, index, size - 1, HashLeaf(h, body), hashes);
      }
    }
  }
}
