/**
 Validation of the architecture-decision records: distinct numbers, resolvable links, a
 named successor for every superseded record, and no cycle in the supersedes relation.
 The search marks a record visited on exit and stops at the first cycle.
 */
module AdrIndex {
  import opened Graphs

  type AdrId = string

  datatype Adr = Adr(supersedes: seq<AdrId>, supersededBy: seq<AdrId>, isSuperseded: bool)

  datatype AdrFile = AdrFile(id: AdrId, adr: Adr)

  datatype Verdict =
    | Valid(records: map<AdrId, Adr>)
    | NoFiles
    | DuplicateNumber(id: AdrId)
    | BadRecord(records: map<AdrId, Adr>, id: AdrId)
    | SupersessionCycle(records: map<AdrId, Adr>, cycle: seq<AdrId>)

  function SupersedesGraph(records: map<AdrId, Adr>): Graph {
    map id | id in records :: records[id].supersedes
  }

  predicate LinksResolve(adr: Adr, ids: set<AdrId>) {
    && (forall t :: t in adr.supersedes ==> t in ids)
    && (forall t :: t in adr.supersededBy ==> t in ids)
  }

  predicate NamesSuccessor(adr: Adr) {
    adr.isSuperseded ==> adr.supersededBy != []
  }

  predicate RecordOk(adr: Adr, ids: set<AdrId>) {
    LinksResolve(adr, ids) && NamesSuccessor(adr)
  }

  class Visitor {
    const graph: Graph
    var visited: set<AdrId>
    var stack: seq<AdrId>
    ghost var finished: seq<AdrId>

    constructor (graph: Graph)
      ensures this.graph == graph && Valid() && stack == []
    {
      this.graph := graph;
      visited, stack, finished := {}, [], [];
    }

    ghost predicate Valid()
      reads this
    {
      Consistent(graph, visited, stack, finished)
    }

    /** Returns the offending cycle where the source raises, and [] where it returns. */
    method Visit(id: AdrId) returns (cycle: seq<AdrId>)
      requires Valid() && id in graph
      requires forall u, v :: Edge(graph, u, v) ==> v in graph
      requires stack != [] ==> Edge(graph, stack[|stack| - 1], id)
      modifies this
      ensures cycle != [] ==> IsClosedWalk(graph, cycle)
      ensures cycle == [] ==> Valid() && stack == old(stack) && old(finished) <= finished && id in finished
      decreases graph.Keys - Elements(stack)
    {
      hide Consistent;
      Visited(graph, visited, stack, finished);
      if id in stack {
        var idx := IndexOf(stack, id);
        ClosesWalk(graph, stack, idx);
        return stack[idx..] + [id];
      }
      if id in visited {
        return [];
      }
      Push(graph, visited, stack, finished, id);
      stack := stack + [id];
      assert id in Elements(stack);
      var targets := Successors(graph, id);
      for i := 0 to |targets|
        invariant Valid() && stack == old(stack) + [id] && old(finished) <= finished
        invariant forall k :: 0 <= k < i ==> targets[k] in finished
      {
        assert Edge(graph, id, targets[i]);
        cycle := Visit(targets[i]);
        if cycle != [] {
          return;
        }
      }
      Pop(graph, visited, old(stack), finished, id);
      stack := stack[..|stack| - 1];
      visited := visited + {id};
      finished := finished + [id];
      return [];
    }
  }

  /** What every call of `Visit` that returns keeps. */
  ghost predicate Consistent(graph: Graph, visited: set<AdrId>, stack: seq<AdrId>, finished: seq<AdrId>) {
    && NoDuplicates(stack) && NoDuplicates(finished)
    && (forall v :: v in stack ==> v in graph && v !in finished)
    && (forall v :: v in visited <==> v in finished)
    && IsWalk(graph, stack)
    && SuccessorsFirst(graph, finished)
  }

  lemma Visited(graph: Graph, visited: set<AdrId>, stack: seq<AdrId>, finished: seq<AdrId>)
    requires Consistent(graph, visited, stack, finished)
    ensures IsWalk(graph, stack) && forall v :: v in visited <==> v in finished
  {
  }

  lemma Push(graph: Graph, visited: set<AdrId>, stack: seq<AdrId>, finished: seq<AdrId>, id: AdrId)
    requires Consistent(graph, visited, stack, finished)
    requires id in graph && id !in stack && id !in visited
    requires stack != [] ==> Edge(graph, stack[|stack| - 1], id)
    ensures Consistent(graph, visited, stack + [id], finished)
    ensures Elements(stack) < Elements(stack + [id]) <= graph.Keys
  {
    WalkExtend(graph, stack, id);
    assert id in stack + [id];
    assert id in Elements(stack + [id]) && id !in Elements(stack);
    assert forall v :: v in stack ==> v in stack + [id];
  }

  lemma Pop(graph: Graph, visited: set<AdrId>, stack: seq<AdrId>, finished: seq<AdrId>, id: AdrId)
    requires Consistent(graph, visited, stack + [id], finished)
    requires forall v :: Edge(graph, id, v) ==> v in finished
    ensures Consistent(graph, visited + {id}, stack, finished + [id])
    ensures (stack + [id])[..|stack|] == stack
  {
    var longer := stack + [id];
    assert longer[|stack|] == id && forall v :: v in longer <==> v in stack || v == id;
    assert forall i :: 0 <= i < |stack| ==> longer[i] == stack[i];
    assert id in longer;
    assert id !in stack;
    assert IsWalk(graph, stack) by {
      assert forall i :: 0 <= i < |stack| - 1 ==> Edge(graph, longer[i], longer[i + 1]);
    }
    SuccessorsFirstExtend(graph, finished, id);
  }

  /** Visits every record from an empty stack; [] means that no visit raised. */
  method FindSupersessionCycle(graph: Graph, ids: seq<AdrId>) returns (cycle: seq<AdrId>)
    requires Elements(ids) == graph.Keys
    requires forall u, v :: Edge(graph, u, v) ==> v in graph
    ensures cycle != [] <==> Cyclic(graph)
    ensures cycle != [] ==> IsClosedWalk(graph, cycle)
  {
    var visitor := new Visitor(graph);
    for i := 0 to |ids|
      invariant visitor.Valid() && visitor.stack == [] && visitor.graph == graph
      invariant forall k :: 0 <= k < i ==> ids[k] in visitor.finished
    {
      assert ids[i] in Elements(ids);
      cycle := visitor.Visit(ids[i]);
      if cycle != [] {
        return;
      }
    }
    cycle := [];
    forall v | v in graph
      ensures v in visitor.finished
    {
      assert v in Elements(ids);
    }
    OrderedIsAcyclic(graph, visitor.finished);
  }

  predicate DistinctIds(files: seq<AdrFile>) {
    forall i, j :: 0 <= i < j < |files| ==> files[i].id != files[j].id
  }

  /** Two files carry this number. */
  predicate Repeated(files: seq<AdrFile>, id: AdrId) {
    exists i, j :: 0 <= i < j < |files| && files[i].id == files[j].id == id
  }

  /** The records and the identifiers in insertion order, for the files read so far. */
  ghost predicate Loaded(files: seq<AdrFile>, records: map<AdrId, Adr>, ids: seq<AdrId>) {
    && DistinctIds(files)
    && (forall id :: id in records <==> id in ids)
    && (forall id :: id in records ==> AdrFile(id, records[id]) in files)
    && (forall f :: f in files ==> f.id in records && records[f.id] == f.adr)
  }

  lemma LoadOne(files: seq<AdrFile>, records: map<AdrId, Adr>, ids: seq<AdrId>, file: AdrFile)
    requires Loaded(files, records, ids)
    ensures file.id in records ==> Repeated(files + [file], file.id)
    ensures file.id !in records ==> Loaded(files + [file], records[file.id := file.adr], ids + [file.id])
  {
    var longer := files + [file];
    assert longer[|files|] == file && forall i :: 0 <= i < |files| ==> longer[i] == files[i] && files[i] in files;
    if file.id in records {
      var k :| 0 <= k < |files| && files[k] == AdrFile(file.id, records[file.id]);
      assert longer[k].id == longer[|files|].id == file.id;
    } else {
      assert forall f :: f in longer <==> f in files || f == file;
      assert file == AdrFile(file.id, file.adr);
    }
  }

  lemma RepeatedInPrefix(files: seq<AdrFile>, i: nat, id: AdrId)
    requires i <= |files| && Repeated(files[..i], id)
    ensures Repeated(files, id) && !DistinctIds(files)
  {
    var j, k :| 0 <= j < k < i && files[..i][j].id == files[..i][k].id == id;
    assert files[j].id == files[k].id;
  }

  lemma NothingLoaded()
    ensures Loaded([], map[], [])
  {
  }

  lemma LoadedAll(files: seq<AdrFile>, records: map<AdrId, Adr>, ids: seq<AdrId>)
    requires Loaded(files, records, ids)
    ensures DistinctIds(files) && Elements(ids) == records.Keys
    ensures forall id, adr :: id in records && records[id] == adr <==> AdrFile(id, adr) in files
  {
    hide DistinctIds;
  }

  /** Inserts the parsed files one by one, refusing a number that is already taken. */
  method LoadRecords(files: seq<AdrFile>) returns (records: map<AdrId, Adr>, ids: seq<AdrId>, duplicate: seq<AdrId>)
    ensures duplicate == [] <==> DistinctIds(files)
    ensures duplicate != [] ==> Repeated(files, duplicate[0])
    ensures duplicate == [] ==> Elements(ids) == records.Keys
    ensures duplicate == [] ==> forall id, adr :: id in records && records[id] == adr <==> AdrFile(id, adr) in files
  {
    hide Loaded, DistinctIds, Repeated;
    records, ids, duplicate := map[], [], [];
    NothingLoaded();
    for i := 0 to |files|
      invariant Loaded(files[..i], records, ids)
    {
      LoadOne(files[..i], records, ids, files[i]);
      assert files[..i + 1] == files[..i] + [files[i]];
      if files[i].id in records {
        RepeatedInPrefix(files, i + 1, files[i].id);
        duplicate := [files[i].id];
        return;
      }
      records := records[files[i].id := files[i].adr];
      ids := ids + [files[i].id];
    }
    assert files[..|files|] == files;
    LoadedAll(files, records, ids);
  }

  ghost predicate LinksOk(records: map<AdrId, Adr>) {
    forall id :: id in records ==> RecordOk(records[id], records.Keys)
  }

  method CheckRecords(records: map<AdrId, Adr>, ids: seq<AdrId>) returns (failure: seq<AdrId>)
    requires Elements(ids) == records.Keys
    ensures failure == [] <==> LinksOk(records)
    ensures failure != [] ==> failure[0] in records && !RecordOk(records[failure[0]], records.Keys)
  {
    failure := [];
    for i := 0 to |ids|
      invariant forall k :: 0 <= k < i ==> ids[k] in records && RecordOk(records[ids[k]], records.Keys)
    {
      assert ids[i] in Elements(ids);
      var adr := records[ids[i]];
      for j := 0 to |adr.supersedes|
        invariant forall k :: 0 <= k < j ==> adr.supersedes[k] in records
      {
        if adr.supersedes[j] !in records {
          return [ids[i]];
        }
      }
      for j := 0 to |adr.supersededBy|
        invariant forall k :: 0 <= k < j ==> adr.supersededBy[k] in records
      {
        if adr.supersededBy[j] !in records {
          return [ids[i]];
        }
      }
      if adr.isSuperseded && adr.supersededBy == [] {
        return [ids[i]];
      }
    }
    forall id | id in records
      ensures RecordOk(records[id], records.Keys)
    {
      assert id in Elements(ids);
    }
  }

  /** Every link leads to a record, and a superseded record names its successor. */
  predicate InOrder(records: map<AdrId, Adr>, id: AdrId)
    requires id in records
  {
    && (forall t :: t in records[id].supersedes ==> t in records)
    && (forall t :: t in records[id].supersededBy ==> t in records)
    && (records[id].isSuperseded ==> records[id].supersededBy != [])
  }

  /** Each record of the round supersedes the next one. */
  predicate IsRound(records: map<AdrId, Adr>, round: seq<AdrId>) {
    && |round| >= 2 && round[0] == round[|round| - 1]
    && forall i :: 0 <= i < |round| - 1 ==> round[i] in records && round[i + 1] in records[round[i]].supersedes
  }

  lemma RecordsInOrder(records: map<AdrId, Adr>)
    ensures LinksOk(records) <==> forall id :: id in records ==> InOrder(records, id)
    ensures forall id :: id in records ==> (RecordOk(records[id], records.Keys) <==> InOrder(records, id))
  {
  }

  lemma RoundIsClosedWalk(records: map<AdrId, Adr>, round: seq<AdrId>)
    ensures IsClosedWalk(SupersedesGraph(records), round) <==> IsRound(records, round)
  {
    var g := SupersedesGraph(records);
    if IsClosedWalk(g, round) {
      forall i | 0 <= i < |round| - 1
        ensures round[i] in records && round[i + 1] in records[round[i]].supersedes
      {
        assert Edge(g, round[i], round[i + 1]);
      }
    }
    if IsRound(records, round) {
      forall i | 0 <= i < |round| - 1
        ensures Edge(g, round[i], round[i + 1])
      {
      }
    }
  }

  /** The whole directory check: it accepts exactly the well-formed, acyclic record sets. */
  method ValidateAdrDir(files: seq<AdrFile>) returns (verdict: Verdict)
    ensures verdict.NoFiles? <==> files == []
    ensures verdict.DuplicateNumber? <==> !DistinctIds(files)
    ensures verdict.DuplicateNumber? ==> Repeated(files, verdict.id)
    ensures verdict.Valid? || verdict.BadRecord? || verdict.SupersessionCycle? ==>
              forall id, adr :: id in verdict.records && verdict.records[id] == adr <==> AdrFile(id, adr) in files
    ensures verdict.Valid? || verdict.SupersessionCycle? ==>
              forall id :: id in verdict.records ==> InOrder(verdict.records, id)
    ensures verdict.Valid? ==> forall round :: !IsRound(verdict.records, round)
    ensures verdict.BadRecord? ==> verdict.id in verdict.records && !InOrder(verdict.records, verdict.id)
    ensures verdict.SupersessionCycle? ==> IsRound(verdict.records, verdict.cycle)
  {
    if files == [] {
      return NoFiles;
    }
    var records, ids, duplicate := LoadRecords(files);
    if duplicate != [] {
      return DuplicateNumber(duplicate[0]);
    }
    RecordsInOrder(records);
    forall round
      ensures IsClosedWalk(SupersedesGraph(records), round) <==> IsRound(records, round)
    {
      RoundIsClosedWalk(records, round);
    }
    var failure := CheckRecords(records, ids);
    if failure != [] {
      return BadRecord(records, failure[0]);
    }
    var graph := SupersedesGraph(records);
    assert forall u, v :: Edge(graph, u, v) ==> u in records && v in records[u].supersedes;
    var cycle := FindSupersessionCycle(graph, ids);
    if cycle != [] {
      return SupersessionCycle(records, cycle);
    }
    return Valid(records);
  }
}
