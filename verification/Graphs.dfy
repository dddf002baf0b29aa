/** Directed graphs given by successor lists, walks and cycles. */
module Graphs {

  type Vertex = string

  type Graph = map<Vertex, seq<Vertex>>

  function Successors(g: Graph, v: Vertex): seq<Vertex> {
    if v in g then g[v] else []
  }

  function Vertices(g: Graph): set<Vertex> {
    g.Keys + set u, v | u in g && v in g[u] :: v
  }

  predicate Edge(g: Graph, u: Vertex, v: Vertex) {
    v in Successors(g, u)
  }

  lemma EdgeEnd(g: Graph, u: Vertex, v: Vertex)
    requires Edge(g, u, v)
    ensures v in Vertices(g)
  {
  }

  ghost predicate IsWalk(g: Graph, p: seq<Vertex>) {
    forall i :: 0 <= i < |p| - 1 ==> Edge(g, p[i], p[i + 1])
  }

  ghost predicate IsClosedWalk(g: Graph, p: seq<Vertex>) {
    |p| >= 2 && IsWalk(g, p) && p[0] == p[|p| - 1]
  }

  ghost predicate Cyclic(g: Graph) {
    exists p :: IsClosedWalk(g, p)
  }

  predicate NoDuplicates(s: seq<Vertex>) {
    forall i, j :: 0 <= i < j < |s| ==> s[i] != s[j]
  }

  function Elements(s: seq<Vertex>): set<Vertex> {
    set x | x in s
  }

  /** Every vertex of the list comes after all of its successors. */
  ghost predicate SuccessorsFirst(g: Graph, order: seq<Vertex>) {
    forall i, v :: 0 <= i < |order| && Edge(g, order[i], v) ==> v in order[..i]
  }

  lemma SuccessorsFirstExtend(g: Graph, order: seq<Vertex>, v: Vertex)
    requires SuccessorsFirst(g, order)
    requires forall w :: Edge(g, v, w) ==> w in order
    ensures SuccessorsFirst(g, order + [v])
  {
    var longer := order + [v];
    forall i, w | 0 <= i < |longer| && Edge(g, longer[i], w)
      ensures w in longer[..i]
    {
      if i < |order| {
        assert longer[..i] == order[..i];
        assert Edge(g, order[i], w);
      } else {
        assert longer[..i] == order;
      }
    }
  }

  /** A walk that starts at `order[i]` stays in front of it. */
  lemma {:induction false} WalkDescends(g: Graph, order: seq<Vertex>, p: seq<Vertex>, i: nat)
    requires SuccessorsFirst(g, order) && IsWalk(g, p) && |p| >= 2
    requires i < |order| && p[0] == order[i]
    ensures p[|p| - 1] in order[..i]
    decreases |p|
  {
    assert Edge(g, p[0], p[1]);
    assert p[1] in order[..i];
    if |p| > 2 {
      var j :| 0 <= j < i && order[j] == p[1];
      forall k | 0 <= k < |p[1..]| - 1
        ensures Edge(g, p[1..][k], p[1..][k + 1])
      {
        assert Edge(g, p[k + 1], p[k + 2]);
      }
      WalkDescends(g, order, p[1..], j);
    }
  }

  /** A graph whose sources can all be listed after their successors has no cycle. */
  lemma OrderedIsAcyclic(g: Graph, order: seq<Vertex>)
    requires SuccessorsFirst(g, order) && NoDuplicates(order)
    requires forall v :: v in g ==> v in order
    ensures !Cyclic(g)
  {
    forall p | IsClosedWalk(g, p)
      ensures false
    {
      assert Edge(g, p[0], p[1]);
      var i :| 0 <= i < |order| && order[i] == p[0];
      WalkDescends(g, order, p, i);
    }
  }

  lemma WalkExtend(g: Graph, p: seq<Vertex>, v: Vertex)
    requires IsWalk(g, p)
    requires p != [] ==> Edge(g, p[|p| - 1], v)
    ensures IsWalk(g, p + [v])
  {
  }

  /** Walking back to a vertex already on the path closes a cycle. */
  lemma ClosesWalk(g: Graph, p: seq<Vertex>, i: nat)
    requires IsWalk(g, p) && i < |p| && Edge(g, p[|p| - 1], p[i])
    ensures IsClosedWalk(g, p[i..] + [p[i]])
  {
  }

  function IndexOf(s: seq<Vertex>, v: Vertex): (i: nat)
    requires v in s
    ensures i < |s| && s[i] == v && v !in s[..i]
  {
    if s[0] == v then 0 else 1 + IndexOf(s[1..], v)
  }
}
