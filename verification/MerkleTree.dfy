/**
 The Merkle tree of section 2.1 of RFC 6962, top down as the RFC writes it and bottom
 up, level by level, as an inclusion proof is checked. The hash is any function whose
 output is 32 bytes long.
 */
module MerkleTree {
  import opened Bytes

  type Digest = d: ByteString | |d| == 32 witness seq(32, _ => 0)

  type Hash = ByteString -> Digest

  function LeafInput(data: ByteString): ByteString {
    [0] + data
  }

  function NodeInput(left: ByteString, right: ByteString): ByteString {
    [1] + left + right
  }

  function HashLeaf(h: Hash, data: ByteString): Digest {
    h(LeafInput(data))
  }

  function HashNode(h: Hash, left: ByteString, right: ByteString): Digest {
    h(NodeInput(left, right))
  }

  /** The largest power of two smaller than `n`. */
  function Split(n: nat): (k: nat)
    requires n >= 2
    ensures 0 < k < n <= 2 * k
  {
    if n == 2 then 1 else 2 * Split((n + 1) / 2)
  }

  lemma SplitHalves(n: nat)
    requires n > 2
    ensures Split(n) % 2 == 0 && Split((n + 1) / 2) == Split(n) / 2
  {
  }

  lemma {:induction false} SplitIsPowerOfTwo(n: nat) returns (e: nat)
    requires n >= 2
    ensures Split(n) == Pow2(e)
  {
    if n == 2 {
      e := 0;
      assert Pow2(0) == 1;
    } else {
      var e' := SplitIsPowerOfTwo((n + 1) / 2);
      e := e' + 1;
    }
  }

  /** No string is hashed both as a leaf and as an inner node. */
  lemma LeafIsNoNode(data: ByteString, left: ByteString, right: ByteString)
    ensures LeafInput(data) != NodeInput(left, right)
  {
    assert LeafInput(data)[0] == 0 && NodeInput(left, right)[0] == 1;
  }

  // ----- Top down, as section 2.1 of RFC 6962, with its prefix bytes -----

  /** MTH(D[n]). */
  function TreeHash(h: Hash, leaves: seq<ByteString>): Digest
    decreases |leaves|
  {
    if |leaves| == 0 then h([])
    else if |leaves| == 1 then h([0] + leaves[0])
    else
      var k := Split(|leaves|);
      h([1] + TreeHash(h, leaves[..k]) + TreeHash(h, leaves[k..]))
  }

  /** PATH(m, D[n]). */
  function AuditPath(h: Hash, m: nat, leaves: seq<ByteString>): seq<ByteString>
    requires m < |leaves|
    decreases |leaves|
  {
    if |leaves| == 1 then []
    else
      var k := Split(|leaves|);
      if m < k then AuditPath(h, m, leaves[..k]) + [TreeHash(h, leaves[k..])]
      else AuditPath(h, m - k, leaves[k..]) + [TreeHash(h, leaves[..k])]
  }

  // ----- The same shape over one level of node digests -----

  function RootOf(h: Hash, level: seq<Digest>): Digest
    requires |level| > 0
    decreases |level|
  {
    if |level| == 1 then level[0]
    else
      var k := Split(|level|);
      HashNode(h, RootOf(h, level[..k]), RootOf(h, level[k..]))
  }

  function PathOf(h: Hash, m: nat, level: seq<Digest>): seq<ByteString>
    requires m < |level|
    decreases |level|
  {
    if |level| == 1 then []
    else
      var k := Split(|level|);
      if m < k then PathOf(h, m, level[..k]) + [RootOf(h, level[k..])]
      else PathOf(h, m - k, level[k..]) + [RootOf(h, level[..k])]
  }

  function LeafLevel(h: Hash, leaves: seq<ByteString>): (level: seq<Digest>)
    ensures |level| == |leaves|
  {
    seq(|leaves|, i requires 0 <= i < |leaves| => HashLeaf(h, leaves[i]))
  }

  lemma {:induction false} TreeHashIsRootOf(h: Hash, leaves: seq<ByteString>)
    requires |leaves| > 0
    ensures TreeHash(h, leaves) == RootOf(h, LeafLevel(h, leaves))
    decreases |leaves|
  {
    if |leaves| > 1 {
      var k := Split(|leaves|);
      TreeHashIsRootOf(h, leaves[..k]);
      TreeHashIsRootOf(h, leaves[k..]);
      assert LeafLevel(h, leaves)[..k] == LeafLevel(h, leaves[..k]);
      assert LeafLevel(h, leaves)[k..] == LeafLevel(h, leaves[k..]);
    }
  }

  lemma {:induction false} AuditPathIsPathOf(h: Hash, m: nat, leaves: seq<ByteString>)
    requires m < |leaves|
    ensures AuditPath(h, m, leaves) == PathOf(h, m, LeafLevel(h, leaves))
    decreases |leaves|
  {
    if |leaves| > 1 {
      var k := Split(|leaves|);
      assert LeafLevel(h, leaves)[..k] == LeafLevel(h, leaves[..k]);
      assert LeafLevel(h, leaves)[k..] == LeafLevel(h, leaves[k..]);
      TreeHashIsRootOf(h, leaves[..k]);
      TreeHashIsRootOf(h, leaves[k..]);
      if m < k {
        AuditPathIsPathOf(h, m, leaves[..k]);
      } else {
        AuditPathIsPathOf(h, m - k, leaves[k..]);
      }
    }
  }

  // ----- Bottom up: one level is paired into the next -----

  /** The next level up: adjacent digests are hashed together, an odd last one is carried. */
  function NextLevel(h: Hash, level: seq<Digest>): (next: seq<Digest>)
    ensures |next| == (|level| + 1) / 2
    decreases |level|
  {
    if |level| <= 1 then level
    else [HashNode(h, level[0], level[1])] + NextLevel(h, level[2..])
  }

  lemma {:induction false} NextLevelAt(h: Hash, level: seq<Digest>, i: nat)
    requires i < (|level| + 1) / 2
    ensures NextLevel(h, level)[i] ==
            if 2 * i + 1 < |level| then HashNode(h, level[2 * i], level[2 * i + 1]) else level[2 * i]
    decreases |level|
  {
    if |level| > 1 && i > 0 {
      NextLevelAt(h, level[2..], i - 1);
    }
  }

  lemma {:induction false} NextLevelSplit(h: Hash, level: seq<Digest>, k: nat)
    requires k <= |level| && k % 2 == 0
    ensures NextLevel(h, level)[..k / 2] == NextLevel(h, level[..k])
    ensures NextLevel(h, level)[k / 2..] == NextLevel(h, level[k..])
  {
    hide NextLevel, HashNode;
    forall i | 0 <= i < k / 2
      ensures NextLevel(h, level)[i] == NextLevel(h, level[..k])[i]
    {
      NextLevelAt(h, level, i);
      NextLevelAt(h, level[..k], i);
    }
    forall i | 0 <= i < |NextLevel(h, level[k..])|
      ensures NextLevel(h, level)[k / 2 + i] == NextLevel(h, level[k..])[i]
    {
      NextLevelAt(h, level, k / 2 + i);
      NextLevelAt(h, level[k..], i);
    }
  }

  lemma {:induction false} RootOfNextLevel(h: Hash, level: seq<Digest>)
    requires |level| > 0
    ensures RootOf(h, level) == RootOf(h, NextLevel(h, level))
    decreases |level|
  {
    if |level| > 2 {
      var k := Split(|level|);
      SplitHalves(|level|);
      NextLevelSplit(h, level, k);
      RootOfNextLevel(h, level[..k]);
      RootOfNextLevel(h, level[k..]);
    }
  }

  /** Where the sibling of position `m` sits on its own level. */
  function SiblingIndex(m: nat): nat {
    if m % 2 == 0 then m + 1 else m - 1
  }

  /** The sibling of `m` on this level, when the level has one. */
  function SiblingHere(m: nat, level: seq<Digest>): seq<ByteString>
    requires m < |level|
  {
    if SiblingIndex(m) < |level| then [level[SiblingIndex(m)]] else []
  }

  lemma SiblingInLowerHalf(m: nat, level: seq<Digest>, k: nat)
    requires m < k <= |level| && k % 2 == 0
    ensures SiblingHere(m, level[..k]) == SiblingHere(m, level)
  {
  }

  lemma SiblingInUpperHalf(m: nat, level: seq<Digest>, k: nat)
    requires k <= m < |level| && k % 2 == 0
    ensures SiblingHere(m - k, level[k..]) == SiblingHere(m, level)
  {
  }

  lemma HalveDifference(m: nat, k: nat)
    requires k <= m && k % 2 == 0
    ensures (m - k) / 2 == m / 2 - k / 2 && (m - k) % 2 == m % 2
  {
  }

  lemma Associative<T>(a: seq<T>, b: seq<T>, c: seq<T>)
    ensures (a + b) + c == a + (b + c)
  {
  }

  lemma {:induction false} PathOfSplit(h: Hash, m: nat, level: seq<Digest>, k: nat)
    requires m < |level| && |level| > 1 && k == Split(|level|)
    ensures m < k ==> PathOf(h, m, level) == PathOf(h, m, level[..k]) + [RootOf(h, level[k..])]
    ensures m >= k ==> PathOf(h, m, level) == PathOf(h, m - k, level[k..]) + [RootOf(h, level[..k])]
  {
  }

  /** Two levels that split in corresponding places split their audit paths alike. */
  lemma {:induction false} PathOfLowerHalf(h: Hash, m: nat, level: seq<Digest>, k: nat, sibling: seq<ByteString>)
    requires |level| > 2 && k == Split(|level|) && m < k
    requires PathOf(h, m, level[..k]) == sibling + PathOf(h, m / 2, NextLevel(h, level[..k]))
    ensures PathOf(h, m, level) == sibling + PathOf(h, m / 2, NextLevel(h, level))
  {
    var next := NextLevel(h, level);
    SplitHalves(|level|);
    NextLevelSplit(h, level, k);
    RootOfNextLevel(h, level[k..]);
    PathOfSplit(h, m, level, k);
    PathOfSplit(h, m / 2, next, k / 2);
    Associative(sibling, PathOf(h, m / 2, next[..k / 2]), [RootOf(h, next[k / 2..])]);
  }

  lemma {:induction false} PathOfUpperHalf(h: Hash, m: nat, level: seq<Digest>, k: nat, sibling: seq<ByteString>)
    requires |level| > 2 && k == Split(|level|) && k <= m < |level|
    requires PathOf(h, m - k, level[k..]) == sibling + PathOf(h, (m - k) / 2, NextLevel(h, level[k..]))
    ensures PathOf(h, m, level) == sibling + PathOf(h, m / 2, NextLevel(h, level))
  {
    var next := NextLevel(h, level);
    SplitHalves(|level|);
    NextLevelSplit(h, level, k);
    RootOfNextLevel(h, level[..k]);
    PathOfSplit(h, m, level, k);
    PathOfSplit(h, m / 2, next, k / 2);
    HalveDifference(m, k);
    Associative(sibling, PathOf(h, (m - k) / 2, next[k / 2..]), [RootOf(h, next[..k / 2])]);
  }

  /** The audit path grows at the bottom by the sibling of the node, if it has one. */
  lemma {:induction false} PathOfNextLevel(h: Hash, m: nat, level: seq<Digest>)
    requires m < |level|
    ensures PathOf(h, m, level) == SiblingHere(m, level) + PathOf(h, m / 2, NextLevel(h, level))
    decreases |level|
  {
    if |level| == 2 {
      assert PathOf(h, 0, level[..1]) == [] && PathOf(h, 0, level[1..]) == [];
    } else if |level| > 2 {
      var k := Split(|level|);
      SplitHalves(|level|);
      if m < k {
        PathOfNextLevel(h, m, level[..k]);
        SiblingInLowerHalf(m, level, k);
        PathOfLowerHalf(h, m, level, k, SiblingHere(m, level));
      } else {
        PathOfNextLevel(h, m - k, level[k..]);
        SiblingInUpperHalf(m, level, k);
        PathOfUpperHalf(h, m, level, k, SiblingHere(m, level));
      }
    }
  }
}
