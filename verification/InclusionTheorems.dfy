/**
 What an accepted inclusion proof means: completeness and soundness against the tree of
 section 2.1 of RFC 6962, binding for arbitrary roots, the proof length, and agreement
 with the verification loop of section 2.1.3.2 of RFC 9162.
 */
module InclusionTheorems {
  import opened Bytes
  import opened MerkleTree
  import opened InclusionProof

  // ----- Completeness -----

  /** The node above position `m`, in terms of the sibling at `m`. */
  lemma ParentNode(h: Hash, m: nat, level: seq<Digest>)
    requires m < |level| && |level| > 1
    ensures |NextLevel(h, level)| - 1 == (|level| - 1) / 2
    ensures |SiblingHere(m, level)| == (if HasSibling(m, |level| - 1) then 1 else 0)
    ensures NextLevel(h, level)[m / 2] ==
            if HasSibling(m, |level| - 1) then Combine(h, m % 2, level[m], SiblingHere(m, level)[0]) else level[m]
  {
    NextLevelAt(h, level, m / 2);
    if m % 2 == 0 {
      assert m == 2 * (m / 2);
    } else {
      assert m == 2 * (m / 2) + 1;
    }
  }

  lemma ClimbRoot(h: Hash, level: seq<Digest>)
    requires |level| == 1
    ensures Climb(h, 0, 0, level[0], PathOf(h, 0, level)) == [RootOf(h, level)]
  {
  }

  lemma {:induction false} ClimbPath(h: Hash, m: nat, level: seq<Digest>)
    requires m < |level|
    ensures Climb(h, m, |level| - 1, level[m], PathOf(h, m, level)) == [RootOf(h, level)]
    decreases |level|
  {
    hide PathOf, RootOf, Climb, NextLevel, Combine, SiblingHere;
    if |level| == 1 {
      ClimbRoot(h, level);
    } else {
      var next := NextLevel(h, level);
      ParentNode(h, m, level);
      ClimbPath(h, m / 2, next);
      PathOfNextLevel(h, m, level);
      RootOfNextLevel(h, level);
      ClimbStep(h, m, |level| - 1, level[m], SiblingHere(m, level), PathOf(h, m / 2, next));
    }
  }

  lemma ClimbStep(h: Hash, m: nat, last: nat, node: Digest, sibling: seq<ByteString>, rest: seq<ByteString>)
    requires m <= last && last > 0
    requires |sibling| == (if HasSibling(m, last) then 1 else 0)
    ensures Climb(h, m, last, node, sibling + rest) ==
            Climb(h, m / 2, last / 2, if sibling == [] then node else Combine(h, m % 2, node, sibling[0]), rest)
  {
    assert sibling != [] ==> (sibling + rest)[1..] == rest;
    assert sibling == [] ==> sibling + rest == rest;
  }

  /** The audit path of the RFC is accepted for the leaf it was made for. */
  lemma Completeness(h: Hash, leaves: seq<ByteString>, m: nat)
    requires m < |leaves|
    ensures Verify(h, m, |leaves|, leaves[m], AuditPath(h, m, leaves), TreeHash(h, leaves)) == Included
  {
    hide TreeHash, AuditPath, RootOf, PathOf, Climb, Verify;
    AuditPathIsPathOf(h, m, leaves);
    TreeHashIsRootOf(h, leaves);
    ClimbPath(h, m, LeafLevel(h, leaves));
    VerifyIsClimb(h, m, |leaves|, leaves[m], AuditPath(h, m, leaves), TreeHash(h, leaves));
  }

  /** The number of hashes demanded is the length of the audit path: at most the bit length of size - 1. */
  lemma ProofLength(h: Hash, leaves: seq<ByteString>, m: nat)
    requires m < |leaves|
    ensures |AuditPath(h, m, leaves)| == InnerLevels(m, |leaves|) + BorderLevels(m, |leaves|)
    ensures |leaves| <= Pow2(BitLength(|leaves| - 1))
    ensures |leaves| > 1 ==> Pow2(BitLength(|leaves| - 1) - 1) < |leaves|
    ensures |AuditPath(h, m, leaves)| <= BitLength(|leaves| - 1)
  {
    hide TreeHash, AuditPath, Fold, HashLeaf, InnerLevels, BorderLevels, SiblingCount, BitLength, Pow2;
    Completeness(h, leaves, m);
    SiblingCountIsHashCount(m, |leaves| - 1);
    SiblingCountBound(m, |leaves| - 1);
    BitLengthBounds(|leaves| - 1);
  }

  // ----- The strings a run hashes -----

  function InnerInputs(h: Hash, index: nat, node: Digest, hashes: seq<ByteString>): set<ByteString>
    decreases |hashes|
  {
    if hashes == [] then {}
    else {CombineInput(index % 2, node, hashes[0])} +
         InnerInputs(h, index / 2, Combine(h, index % 2, node, hashes[0]), hashes[1..])
  }

  function BorderInputs(h: Hash, node: Digest, hashes: seq<ByteString>): set<ByteString>
    decreases |hashes|
  {
    if hashes == [] then {}
    else {NodeInput(hashes[0], node)} + BorderInputs(h, HashNode(h, hashes[0], node), hashes[1..])
  }

  function CombineInput(bit: nat, node: Digest, sibling: ByteString): ByteString {
    if bit == 0 then NodeInput(node, sibling) else NodeInput(sibling, node)
  }

  /** Every string the two loops hash. */
  function FoldInputs(h: Hash, index: nat, inner: nat, node: Digest, hashes: seq<ByteString>): set<ByteString>
    requires inner <= |hashes|
  {
    InnerInputs(h, index, node, hashes[..inner])
    + BorderInputs(h, FoldInner(h, index, node, hashes[..inner]), hashes[inner..])
  }

  /** Every string the verifier hashes before it compares the root. */
  function HashedByRun(h: Hash, index: nat, size: nat, body: ByteString, hashes: seq<ByteString>): set<ByteString>
    requires index < size
    requires |hashes| == InnerLevels(index, size) + BorderLevels(index, size)
  {
    {LeafInput(body)} + FoldInputs(h, index, InnerLevels(index, size), HashLeaf(h, body), hashes)
  }

  /** Every string hashed in computing MTH(D[n]). */
  function HashedByTree(h: Hash, leaves: seq<ByteString>): set<ByteString>
    requires |leaves| > 0
    decreases |leaves|
  {
    if |leaves| == 1 then {[0] + leaves[0]}
    else
      var k := Split(|leaves|);
      {[1] + TreeHash(h, leaves[..k]) + TreeHash(h, leaves[k..])}
      + HashedByTree(h, leaves[..k]) + HashedByTree(h, leaves[k..])
  }

  function ClimbInputs(h: Hash, m: nat, last: nat, node: Digest, hashes: seq<ByteString>): set<ByteString>
    requires m <= last
    decreases last
  {
    if last == 0 then {}
    else if !HasSibling(m, last) then ClimbInputs(h, m / 2, last / 2, node, hashes)
    else if hashes == [] then {}
    else {CombineInput(m % 2, node, hashes[0])} +
         ClimbInputs(h, m / 2, last / 2, Combine(h, m % 2, node, hashes[0]), hashes[1..])
  }

  lemma {:induction false} ClimbInputsBorder(h: Hash, m: nat, node: Digest, hashes: seq<ByteString>)
    requires |hashes| == BitCount(m)
    ensures ClimbInputs(h, m, m, node, hashes) == BorderInputs(h, node, hashes)
    decreases m
  {
    if m > 0 {
      if m % 2 == 0 {
        ClimbInputsBorder(h, m / 2, node, hashes);
      } else {
        ClimbInputsBorder(h, m / 2, HashNode(h, hashes[0], node), hashes[1..]);
      }
    }
  }

  lemma {:induction false} FoldInputsAreClimbInputs(h: Hash, m: nat, last: nat, node: Digest, hashes: seq<ByteString>)
    requires m <= last
    requires |hashes| == InnerLevels(m, last + 1) + BorderLevels(m, last + 1)
    ensures ClimbInputs(h, m, last, node, hashes) == FoldInputs(h, m, InnerLevels(m, last + 1), node, hashes)
    decreases last
  {
    hide Combine, CombineInput, BorderInputs, InnerInputs, FoldInner, FoldInputs, Xor, BitLength, BitCount, ShiftRight;
    hide InnerLevels, BorderLevels;
    LevelsBelow(m, last);
    if m == last {
      ClimbInputsBorder(h, m, node, hashes);
      FoldInputsBorder(h, m, node, hashes);
    } else {
      FoldInputsAreClimbInputs(h, m / 2, last / 2, Combine(h, m % 2, node, hashes[0]), hashes[1..]);
      FoldInputsStep(h, m, InnerLevels(m, last + 1), node, hashes);
    }
  }

  lemma FoldInputsBorder(h: Hash, index: nat, node: Digest, hashes: seq<ByteString>)
    ensures FoldInputs(h, index, 0, node, hashes) == BorderInputs(h, node, hashes)
  {
  }

  lemma FoldInputsStep(h: Hash, index: nat, inner: nat, node: Digest, hashes: seq<ByteString>)
    requires 0 < inner <= |hashes|
    ensures FoldInputs(h, index, inner, node, hashes) ==
            {CombineInput(index % 2, node, hashes[0])}
            + FoldInputs(h, index / 2, inner - 1, Combine(h, index % 2, node, hashes[0]), hashes[1..])
  {
    hide Combine, CombineInput, BorderInputs;
    assert hashes[..inner][1..] == hashes[1..][..inner - 1];
    assert hashes[inner..] == hashes[1..][inner - 1..];
  }

  // ----- Soundness -----

  ghost predicate Collides(h: Hash, x: ByteString, y: ByteString) {
    x != y && h(x) == h(y)
  }

  ghost predicate CollisionBetween(h: Hash, xs: set<ByteString>, ys: set<ByteString>) {
    exists x, y :: x in xs && y in ys && Collides(h, x, y)
  }

  /** A known 32-byte node on a known side splits a hashed string unambiguously, whatever the sibling's length. */
  lemma CombineInputInjective(bit: nat, node: Digest, sibling: ByteString, node': Digest, sibling': ByteString)
    requires CombineInput(bit, node, sibling) == CombineInput(bit, node', sibling')
    ensures node == node' && sibling == sibling'
  {
    var s, s' := CombineInput(bit, node, sibling), CombineInput(bit, node', sibling');
    if bit == 0 {
      assert node == s[1..33] && node' == s'[1..33];
      assert sibling == s[33..] && sibling' == s'[33..];
    } else {
      assert node == s[|s| - 32..] && node' == s'[|s| - 32..];
      assert sibling == s[1..|s| - 32] && sibling' == s'[1..|s| - 32];
    }
  }

  lemma {:induction false} ClimbBinds(h: Hash, m: nat, last: nat,
                                      node: Digest, hashes: seq<ByteString>, node': Digest, hashes': seq<ByteString>)
    requires m <= last
    requires Climb(h, m, last, node, hashes) == Climb(h, m, last, node', hashes') != []
    ensures (node == node' && hashes == hashes')
            || CollisionBetween(h, ClimbInputs(h, m, last, node, hashes), ClimbInputs(h, m, last, node', hashes'))
    decreases last
  {
    if last > 0 {
      if !HasSibling(m, last) {
        ClimbBinds(h, m / 2, last / 2, node, hashes, node', hashes');
      } else {
        var up := Combine(h, m % 2, node, hashes[0]);
        var up' := Combine(h, m % 2, node', hashes'[0]);
        ClimbBinds(h, m / 2, last / 2, up, hashes[1..], up', hashes'[1..]);
        var x, y := CombineInput(m % 2, node, hashes[0]), CombineInput(m % 2, node', hashes'[0]);
        if up == up' && hashes[1..] == hashes'[1..] {
          if x == y {
            CombineInputInjective(m % 2, node, hashes[0], node', hashes'[0]);
            assert hashes == [hashes[0]] + hashes[1..] && hashes' == [hashes'[0]] + hashes'[1..];
          } else {
            assert Collides(h, x, y);
          }
        }
      }
    }
  }

  /** Any root, honest or not, binds one body and one proof to each index, up to an exhibited collision. */
  lemma Binding(h: Hash, index: int, size: int, root: ByteString,
                body: ByteString, hashes: seq<ByteString>, body': ByteString, hashes': seq<ByteString>)
    requires Verify(h, index, size, body, hashes, root) == Included
    requires Verify(h, index, size, body', hashes', root) == Included
    ensures (body == body' && hashes == hashes')
            || CollisionBetween(h, HashedByRun(h, index, size, body, hashes), HashedByRun(h, index, size, body', hashes'))
  {
    VerifyIsClimb(h, index, size, body, hashes, root);
    VerifyIsClimb(h, index, size, body', hashes', root);
    var leaf, leaf' := HashLeaf(h, body), HashLeaf(h, body');
    ClimbBinds(h, index, size - 1, leaf, hashes, leaf', hashes');
    FoldInputsAreClimbInputs(h, index, size - 1, leaf, hashes);
    FoldInputsAreClimbInputs(h, index, size - 1, leaf', hashes');
    if leaf == leaf' && hashes == hashes' {
      if LeafInput(body) == LeafInput(body') {
        assert body == LeafInput(body)[1..];
        assert body' == LeafInput(body')[1..];
      } else {
        assert Collides(h, LeafInput(body), LeafInput(body'));
      }
    }
  }

  // The strings hashed on an honest run are strings hashed by the tree.

  function LevelInputs(h: Hash, level: seq<Digest>): set<ByteString>
    requires |level| > 0
    decreases |level|
  {
    if |level| == 1 then {}
    else
      var k := Split(|level|);
      {NodeInput(RootOf(h, level[..k]), RootOf(h, level[k..]))}
      + LevelInputs(h, level[..k]) + LevelInputs(h, level[k..])
  }

  lemma {:induction false} LevelInputsInTree(h: Hash, leaves: seq<ByteString>)
    requires |leaves| > 0
    ensures LevelInputs(h, LeafLevel(h, leaves)) <= HashedByTree(h, leaves)
    decreases |leaves|
  {
    hide TreeHash, RootOf, LeafLevel, Split;
    if |leaves| > 1 {
      var k := Split(|leaves|);
      LevelInputsInTree(h, leaves[..k]);
      LevelInputsInTree(h, leaves[k..]);
      TreeHashIsRootOf(h, leaves[..k]);
      TreeHashIsRootOf(h, leaves[k..]);
      LeafLevelSplit(h, leaves, k);
    }
  }

  lemma LeafLevelSplit(h: Hash, leaves: seq<ByteString>, k: nat)
    requires k <= |leaves|
    ensures LeafLevel(h, leaves)[..k] == LeafLevel(h, leaves[..k])
    ensures LeafLevel(h, leaves)[k..] == LeafLevel(h, leaves[k..])
  {
  }

  lemma {:induction false} LeafInTree(h: Hash, leaves: seq<ByteString>, m: nat)
    requires m < |leaves|
    ensures LeafInput(leaves[m]) in HashedByTree(h, leaves)
    decreases |leaves|
  {
    hide TreeHash, Split;
    if |leaves| > 1 {
      var k := Split(|leaves|);
      if m < k {
        LeafInTree(h, leaves[..k], m);
      } else {
        LeafInTree(h, leaves[k..], m - k);
      }
    }
  }

  lemma {:induction false} NextLevelInputs(h: Hash, level: seq<Digest>)
    requires |level| > 0
    ensures LevelInputs(h, NextLevel(h, level)) <= LevelInputs(h, level)
    decreases |level|
  {
    hide RootOf, NextLevel, HashNode, NodeInput;
    if |level| <= 2 {
      assert |NextLevel(h, level)| == 1;
    } else {
      var k := Split(|level|);
      SplitHalves(|level|);
      NextLevelSplit(h, level, k);
      RootOfNextLevel(h, level[..k]);
      RootOfNextLevel(h, level[k..]);
      NextLevelInputs(h, level[..k]);
      NextLevelInputs(h, level[k..]);
    }
  }

  lemma {:induction false} LevelInputsOfTwo(h: Hash, level: seq<Digest>)
    requires |level| == 2
    ensures LevelInputs(h, level) == {NodeInput(level[0], level[1])}
  {
  }

  lemma {:induction false} HalfLevelInputs(h: Hash, level: seq<Digest>)
    requires |level| >= 2
    ensures LevelInputs(h, level[..Split(|level|)]) <= LevelInputs(h, level)
    ensures LevelInputs(h, level[Split(|level|)..]) <= LevelInputs(h, level)
  {
  }

  lemma {:induction false} PairInput(h: Hash, level: seq<Digest>, i: nat)
    requires i % 2 == 0 && i + 1 < |level|
    ensures NodeInput(level[i], level[i + 1]) in LevelInputs(h, level)
    decreases |level|
  {
    hide NodeInput, LevelInputs, Split;
    if |level| == 2 {
      LevelInputsOfTwo(h, level);
    } else {
      var k := Split(|level|);
      SplitHalves(|level|);
      HalfLevelInputs(h, level);
      EvenPair(k, i);
      if i < k {
        PairInput(h, level[..k], i);
      } else {
        PairInput(h, level[k..], i - k);
      }
    }
  }

  lemma EvenPair(k: nat, i: nat)
    requires k % 2 == 0 && i % 2 == 0
    ensures i < k ==> i + 1 < k
    ensures i >= k ==> (i - k) % 2 == 0
  {
  }

  lemma ClimbInputsStep(h: Hash, m: nat, last: nat, node: Digest, sibling: seq<ByteString>, rest: seq<ByteString>)
    requires m <= last && last > 0
    requires |sibling| == (if HasSibling(m, last) then 1 else 0)
    ensures ClimbInputs(h, m, last, node, sibling + rest) ==
            if sibling == [] then ClimbInputs(h, m / 2, last / 2, node, rest)
            else {CombineInput(m % 2, node, sibling[0])}
                 + ClimbInputs(h, m / 2, last / 2, Combine(h, m % 2, node, sibling[0]), rest)
  {
    assert sibling != [] ==> (sibling + rest)[1..] == rest;
    assert sibling == [] ==> sibling + rest == rest;
  }

  lemma SiblingPairInput(h: Hash, m: nat, level: seq<Digest>)
    requires m < |level| && |SiblingHere(m, level)| == 1
    ensures CombineInput(m % 2, level[m], SiblingHere(m, level)[0]) in LevelInputs(h, level)
  {
    PairInput(h, level, if m % 2 == 0 then m else m - 1);
  }

  lemma ClimbInputsOfNode(h: Hash, m: nat, level: seq<Digest>, rest: seq<ByteString>)
    requires m < |level| && |level| > 1
    requires ClimbInputs(h, m / 2, (|level| - 1) / 2, NextLevel(h, level)[m / 2], rest) <= LevelInputs(h, level)
    ensures ClimbInputs(h, m, |level| - 1, level[m], SiblingHere(m, level) + rest) <= LevelInputs(h, level)
  {
    var sibling := SiblingHere(m, level);
    ParentNode(h, m, level);
    ClimbInputsStep(h, m, |level| - 1, level[m], sibling, rest);
    if sibling != [] {
      SiblingPairInput(h, m, level);
    }
  }

  lemma ClimbInputsAtRoot(h: Hash, node: Digest, hashes: seq<ByteString>)
    ensures ClimbInputs(h, 0, 0, node, hashes) == {}
  {
  }

  lemma {:induction false} HonestClimbInputs(h: Hash, m: nat, level: seq<Digest>)
    requires m < |level|
    ensures ClimbInputs(h, m, |level| - 1, level[m], PathOf(h, m, level)) <= LevelInputs(h, level)
    decreases |level|
  {
    hide PathOf, LevelInputs, NextLevel, SiblingHere, ClimbInputs;
    if |level| == 1 {
      ClimbInputsAtRoot(h, level[0], PathOf(h, m, level));
    } else {
      var next := NextLevel(h, level);
      HonestClimbInputs(h, m / 2, next);
      NextLevelInputs(h, level);
      ClimbInputsOfNode(h, m, level, PathOf(h, m / 2, next));
      PathOfNextLevel(h, m, level);
    }
  }

  lemma HonestRunInputs(h: Hash, leaves: seq<ByteString>, m: nat)
    requires m < |leaves|
    ensures |AuditPath(h, m, leaves)| == InnerLevels(m, |leaves|) + BorderLevels(m, |leaves|)
    ensures HashedByRun(h, m, |leaves|, leaves[m], AuditPath(h, m, leaves)) <= HashedByTree(h, leaves)
  {
    hide TreeHash, AuditPath, HashedByTree, LevelInputs, ClimbInputs, PathOf, FoldInputs, InnerLevels, BorderLevels;
    var level := LeafLevel(h, leaves);
    ProofLength(h, leaves, m);
    AuditPathIsPathOf(h, m, leaves);
    HonestClimbInputs(h, m, level);
    LevelInputsInTree(h, leaves);
    LeafInTree(h, leaves, m);
    FoldInputsAreClimbInputs(h, m, |leaves| - 1, level[m], AuditPath(h, m, leaves));
  }

  /**
   An accepted proof names the leaf at that index and is its audit path, or the run and
   the tree between them hashed two different strings to the same digest.
   */
  lemma Soundness(h: Hash, leaves: seq<ByteString>, index: int, body: ByteString, hashes: seq<ByteString>)
    requires Verify(h, index, |leaves|, body, hashes, TreeHash(h, leaves)) == Included
    ensures 0 <= index < |leaves|
    ensures (body == leaves[index] && hashes == AuditPath(h, index, leaves))
            || CollisionBetween(h, HashedByRun(h, index, |leaves|, body, hashes), HashedByTree(h, leaves))
  {
    Completeness(h, leaves, index);
    HonestRunInputs(h, leaves, index);
    Binding(h, index, |leaves|, TreeHash(h, leaves), body, hashes, leaves[index], AuditPath(h, index, leaves));
  }

  /** Without such a collision the verifier accepts exactly the leaf with its audit path. */
  lemma AcceptsExactly(h: Hash, leaves: seq<ByteString>, m: nat, body: ByteString, hashes: seq<ByteString>)
    requires m < |leaves|
    requires |hashes| == InnerLevels(m, |leaves|) + BorderLevels(m, |leaves|)
    requires !CollisionBetween(h, HashedByRun(h, m, |leaves|, body, hashes), HashedByTree(h, leaves))
    ensures Verify(h, m, |leaves|, body, hashes, TreeHash(h, leaves)) == Included <==>
            body == leaves[m] && hashes == AuditPath(h, m, leaves)
  {
    Completeness(h, leaves, m);
    if Verify(h, m, |leaves|, body, hashes, TreeHash(h, leaves)) == Included {
      Soundness(h, leaves, m, body, hashes);
    }
  }

  // ----- The verification loop of section 2.1.3.2 of RFC 9162 -----

  datatype Cursor = Cursor(fn: nat, sn: nat)

  predicate IsOdd(n: nat) {
    n % 2 == 1
  }

  /** Right-shift both until the low bit of fn is set or fn is 0. */
  function SkipRight(c: Cursor): (r: Cursor)
    ensures r.fn <= c.fn && r.sn <= c.sn
    decreases c.fn
  {
    if IsOdd(c.fn) || c.fn == 0 then c else SkipRight(Cursor(c.fn / 2, c.sn / 2))
  }

  function RfcStep(h: Hash, c: Cursor, r: Digest, p: ByteString): (Cursor, Digest) {
    if IsOdd(c.fn) || c.fn == c.sn then
      var c' := if IsOdd(c.fn) then c else SkipRight(c);
      (Cursor(c'.fn / 2, c'.sn / 2), h([1] + p + r))
    else
      (Cursor(c.fn / 2, c.sn / 2), h([1] + r + p))
  }

  predicate RfcLoop(h: Hash, c: Cursor, r: Digest, path: seq<ByteString>, root: ByteString)
    decreases |path|
  {
    if path == [] then c.sn == 0 && r == root
    else if c.sn == 0 then false
    else
      var (c', r') := RfcStep(h, c, r, path[0]);
      RfcLoop(h, c', r', path[1..], root)
  }

  predicate RfcVerify(h: Hash, index: nat, size: nat, body: ByteString, path: seq<ByteString>, root: ByteString) {
    index < size && RfcLoop(h, Cursor(index, size - 1), h([0] + body), path, root)
  }

  /** Levels without a sibling are exactly the ones the RFC's inner shift passes over. */
  lemma {:induction false} ClimbSkips(h: Hash, m: nat, node: Digest, path: seq<ByteString>)
    requires m > 0
    ensures var c := SkipRight(Cursor(m, m));
            c.fn == c.sn && IsOdd(c.fn) && Climb(h, m, m, node, path) == Climb(h, c.fn, c.fn, node, path)
    decreases m
  {
    if !IsOdd(m) {
      ClimbSkips(h, m / 2, node, path);
    }
  }

  lemma {:induction false} RfcLoopIsClimb(h: Hash, m: nat, last: nat, node: Digest, path: seq<ByteString>, root: ByteString)
    requires m <= last
    ensures RfcLoop(h, Cursor(m, last), node, path, root) <==> Climb(h, m, last, node, path) == [root]
    decreases |path|
  {
    if path == [] {
      ClimbConsumesSiblingCount(h, m, last, node, path);
      SiblingCountPositive(m, last);
    } else if last > 0 {
      var (c', r') := RfcStep(h, Cursor(m, last), node, path[0]);
      if m == last {
        ClimbSkips(h, m, node, path);
      }
      RfcLoopIsClimb(h, c'.fn, c'.sn, r', path[1..], root);
    }
  }

  lemma {:induction false} SiblingCountPositive(m: nat, last: nat)
    requires m <= last
    ensures SiblingCount(m, last) == 0 <==> last == 0
    decreases last
  {
    if last > 0 {
      SiblingCountPositive(m / 2, last / 2);
    }
  }

  /** The inner/border form accepts exactly when the RFC's loop does, for every input. */
  lemma RefinesRfc9162(h: Hash, index: nat, size: nat, body: ByteString, hashes: seq<ByteString>, root: ByteString)
    ensures Verify(h, index, size, body, hashes, root) == Included <==>
            RfcVerify(h, index, size, body, hashes, root)
  {
    VerifyIsClimb(h, index, size, body, hashes, root);
    if index < size {
      RfcLoopIsClimb(h, index, size - 1, HashLeaf(h, body), hashes, root);
    }
  }
}
