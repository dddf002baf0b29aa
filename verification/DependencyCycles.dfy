/**
 The workspace dependency guard: a depth-first search that marks a package visited on
 entry and records a cycle whenever it meets a package on the current path.
 */
module DependencyCycles {
  import opened Graphs

  type Package = string

  class Search {
    const graph: Graph
    var visited: set<Package>
    var path: seq<Package>
    var cycles: seq<seq<Package>>
    ghost var finished: seq<Package>

    constructor (graph: Graph)
      ensures this.graph == graph && Valid()
      ensures path == [] && cycles == [] && visited == {} && finished == []
    {
      this.graph := graph;
      visited, path, cycles, finished := {}, [], [], [];
    }

    ghost predicate Valid()
      reads this
    {
      Consistent(graph, visited, path, cycles, finished)
    }

    method Dfs(node: Package)
      requires Valid() && node in Vertices(graph)
      requires path != [] ==> Edge(graph, path[|path| - 1], node)
      modifies this
      ensures Valid()
      ensures path == old(path)
      ensures old(visited) <= visited
      ensures old(cycles) <= cycles && old(finished) <= finished
      ensures cycles == [] ==> node in finished
      decreases Vertices(graph) - visited
    {
      hide Consistent, Vertices, Successors;
      if node in path {
        var idx := IndexOf(path, node);
        RecordCycle(graph, visited, path, cycles, finished, idx);
        cycles := cycles + [path[idx..] + [node]];
        return;
      }
      Visited(graph, visited, path, cycles, finished);
      if node in visited {
        return;
      }
      Push(graph, visited, path, cycles, finished, node);
      visited := visited + {node};
      path := path + [node];
      var successors := Successors(graph, node);
      for i := 0 to |successors|
        invariant Valid()
        invariant path == old(path) + [node]
        invariant old(visited) + {node} <= visited
        invariant old(cycles) <= cycles && old(finished) <= finished
        invariant cycles == [] ==> forall k :: 0 <= k < i ==> successors[k] in finished
      {
        assert Edge(graph, node, successors[i]);
        EdgeEnd(graph, node, successors[i]);
        Dfs(successors[i]);
      }
      Pop(graph, visited, old(path), cycles, finished, node);
      path := path[..|path| - 1];
      finished := finished + [node];
    }
  }

  /** What every call of `Dfs` keeps. */
  ghost predicate Consistent(graph: Graph, visited: set<Package>, path: seq<Package>,
                             cycles: seq<seq<Package>>, finished: seq<Package>)
  {
    && NoDuplicates(path) && NoDuplicates(finished)
    && (forall v :: v in path ==> v !in finished)
    && (forall v :: v in visited <==> v in path || v in finished)
    && IsWalk(graph, path)
    && (forall c :: c in cycles ==> IsClosedWalk(graph, c))
    && (cycles == [] ==> SuccessorsFirst(graph, finished))
  }

  lemma RecordCycle(graph: Graph, visited: set<Package>, path: seq<Package>,
                    cycles: seq<seq<Package>>, finished: seq<Package>, idx: nat)
    requires Consistent(graph, visited, path, cycles, finished)
    requires idx < |path| && Edge(graph, path[|path| - 1], path[idx])
    ensures Consistent(graph, visited, path, cycles + [path[idx..] + [path[idx]]], finished)
  {
  }

  lemma Visited(graph: Graph, visited: set<Package>, path: seq<Package>,
                cycles: seq<seq<Package>>, finished: seq<Package>)
    requires Consistent(graph, visited, path, cycles, finished)
    ensures forall v :: v in visited <==> v in path || v in finished
  {
  }

  lemma Push(graph: Graph, visited: set<Package>, path: seq<Package>,
             cycles: seq<seq<Package>>, finished: seq<Package>, node: Package)
    requires Consistent(graph, visited, path, cycles, finished)
    requires node !in visited
    requires path != [] ==> Edge(graph, path[|path| - 1], node)
    ensures Consistent(graph, visited + {node}, path + [node], cycles, finished)
  {
  }

  lemma Pop(graph: Graph, visited: set<Package>, path: seq<Package>,
            cycles: seq<seq<Package>>, finished: seq<Package>, node: Package)
    requires Consistent(graph, visited, path + [node], cycles, finished)
    requires cycles == [] ==> forall v :: Edge(graph, node, v) ==> v in finished
    ensures Consistent(graph, visited, path, cycles, finished + [node])
    ensures (path + [node])[..|path|] == path
  {
    var longer := path + [node];
    assert longer[|path|] == node && forall v :: v in longer <==> v in path || v == node;
    assert forall i :: 0 <= i < |path| ==> longer[i] == path[i];
    assert node in longer;
    assert NoDuplicates(path);
    assert node !in path;
    assert IsWalk(graph, path) by {
      assert forall i :: 0 <= i < |path| - 1 ==> Edge(graph, longer[i], longer[i + 1]);
    }
    if cycles == [] {
      SuccessorsFirstExtend(graph, finished, node);
    }
  }

  /** Searches from every package that has a dependency list, in any order. */
  method FindCycles(graph: Graph, roots: seq<Package>) returns (cycles: seq<seq<Package>>)
    requires Elements(roots) == graph.Keys
    ensures cycles != [] <==> Cyclic(graph)
    ensures forall c :: c in cycles ==> IsClosedWalk(graph, c)
  {
    var search := new Search(graph);
    for i := 0 to |roots|
      invariant search.Valid() && search.path == [] && search.graph == graph
      invariant search.cycles == [] ==> forall k :: 0 <= k < i ==> roots[k] in search.finished
    {
      assert roots[i] in Elements(roots);
      search.Dfs(roots[i]);
    }
    cycles := search.cycles;
    if cycles == [] {
      forall v | v in graph
        ensures v in search.finished
      {
        assert v in Elements(roots);
      }
      OrderedIsAcyclic(graph, search.finished);
    } else {
      assert IsClosedWalk(graph, cycles[0]);
    }
  }

  // ----- Comparison with the recorded baseline -----

  /** The sorted tuple of a cycle's entries, as the collection it is determined by. */
  function CanonicalKey(cycle: seq<Package>): multiset<Package> {
    multiset(cycle)
  }

  /** The keys of the recorded cycles. */
  method LoadBaselineCycles(recorded: seq<seq<Package>>) returns (keys: set<multiset<Package>>)
    ensures forall b :: b in recorded ==> multiset(b) in keys
    ensures forall key :: key in keys ==> exists k :: 0 <= k < |recorded| && multiset(recorded[k]) == key
  {
    keys := {};
    for i := 0 to |recorded|
      invariant forall k :: 0 <= k < i ==> multiset(recorded[k]) in keys
      invariant forall key :: key in keys ==> exists k :: 0 <= k < i && multiset(recorded[k]) == key
    {
      keys := keys + {CanonicalKey(recorded[i])};
    }
  }

  /** Reports the cycles whose packages, counted with repetition, are those of no recorded cycle, once for each such count. */
  method CheckDependencyRegression(graph: Graph, roots: seq<Package>, recorded: seq<seq<Package>>)
    returns (errors: seq<seq<Package>>, ghost cycles: seq<seq<Package>>)
    requires Elements(roots) == graph.Keys
    ensures cycles != [] <==> Cyclic(graph)
    ensures forall c :: c in cycles ==> IsClosedWalk(graph, c)
    ensures forall c :: c in errors ==> c in cycles && forall b :: b in recorded ==> multiset(b) != multiset(c)
    ensures forall c :: c in cycles && (forall b :: b in recorded ==> multiset(b) != multiset(c)) ==>
              exists e :: e in errors && multiset(e) == multiset(c)
    ensures forall c, v :: c in cycles && v in c && (forall b :: b in recorded ==> v !in b) ==>
              exists e :: e in errors && v in e
    ensures forall i, j :: 0 <= i < j < |errors| ==> multiset(errors[i]) != multiset(errors[j])
  {
    var baseline := LoadBaselineCycles(recorded);
    var found := FindCycles(graph, roots);
    cycles := found;
    errors := ReportNew(found, baseline);
    forall c | c in cycles && (forall b :: b in recorded ==> multiset(b) != multiset(c))
      ensures exists e :: e in errors && multiset(e) == multiset(c)
    {
      IsNoKey(recorded, baseline, c);
    }
    forall c, v | c in cycles && v in c && (forall b :: b in recorded ==> v !in b)
      ensures exists e :: e in errors && v in e
    {
      NewPackageIsNewCount(recorded, c, v);
      var e :| e in errors && multiset(e) == multiset(c);
      SameCountSameMembers(c, e, v);
    }
  }

  lemma IsNoKey(recorded: seq<seq<Package>>, keys: set<multiset<Package>>, c: seq<Package>)
    requires forall key :: key in keys ==> exists k :: 0 <= k < |recorded| && multiset(recorded[k]) == key
    requires forall b :: b in recorded ==> multiset(b) != multiset(c)
    ensures multiset(c) !in keys
  {
    assert forall k :: 0 <= k < |recorded| ==> recorded[k] in recorded;
  }

  lemma SameCountSameMembers(a: seq<Package>, b: seq<Package>, v: Package)
    requires multiset(a) == multiset(b)
    ensures v in a <==> v in b
  {
    assert v in a <==> v in multiset(a);
  }

  lemma NewPackageIsNewCount(recorded: seq<seq<Package>>, c: seq<Package>, v: Package)
    requires v in c && forall b :: b in recorded ==> v !in b
    ensures forall b :: b in recorded ==> multiset(b) != multiset(c)
  {
    forall b | b in recorded
      ensures multiset(b) != multiset(c)
    {
      assert v in multiset(c) && v !in multiset(b);
    }
  }

  method ReportNew(found: seq<seq<Package>>, baseline: set<multiset<Package>>) returns (errors: seq<seq<Package>>)
    ensures forall c :: c in errors ==> c in found && multiset(c) !in baseline
    ensures forall c :: c in found && multiset(c) !in baseline ==> exists e :: e in errors && multiset(e) == multiset(c)
    ensures forall i, j :: 0 <= i < j < |errors| ==> multiset(errors[i]) != multiset(errors[j])
  {
    var seen: set<multiset<Package>> := {};
    errors := [];
    for i := 0 to |found|
      invariant forall c :: c in errors ==> c in found && multiset(c) in seen && multiset(c) !in baseline
      invariant forall k :: 0 <= k < i ==> multiset(found[k]) in seen
      invariant forall key :: key in seen && key !in baseline ==> exists k :: 0 <= k < |errors| && multiset(errors[k]) == key
      invariant forall j, k :: 0 <= j < k < |errors| ==> multiset(errors[j]) != multiset(errors[k])
    {
      var key := CanonicalKey(found[i]);
      if key !in seen {
        seen := seen + {key};
        if key !in baseline {
          ghost var so := errors;
          errors := errors + [found[i]];
          assert errors[|so|] == found[i] && forall k :: 0 <= k < |so| ==> errors[k] == so[k];
        }
      }
    }
  }

  /** The closed walk that goes round `ring` from its entry number `k`. */
  function Rotation(ring: seq<Package>, k: nat): seq<Package>
    requires k < |ring|
  {
    ring[k..] + ring[..k] + [ring[k]]
  }

  /**
   The key counts the repeated start, so it identifies a ring only together with the
   package the search entered it by: two rotations share a key exactly when they start alike.
   */
  lemma KeyDependsOnStart(ring: seq<Package>, j: nat, k: nat)
    requires j < |ring| && k < |ring|
    ensures CanonicalKey(Rotation(ring, j)) == CanonicalKey(Rotation(ring, k)) <==> ring[j] == ring[k]
  {
    assert ring == ring[..j] + ring[j..] && ring == ring[..k] + ring[k..];
    assert CanonicalKey(Rotation(ring, j)) == multiset(ring) + multiset{ring[j]};
    assert CanonicalKey(Rotation(ring, k)) == multiset(ring) + multiset{ring[k]};
    if ring[j] != ring[k] {
      assert (multiset(ring) + multiset{ring[j]})[ring[j]] == multiset(ring)[ring[j]] + 1;
      assert (multiset(ring) + multiset{ring[k]})[ring[j]] == multiset(ring)[ring[j]];
    }
  }
}
