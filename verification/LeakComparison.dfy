/** The comparison as the verifier runs it: lists of findings that grow in loops, and the verdict they add up to. */
module LeakComparison {
  import opened Wrappers
  import opened LeakVerdict

  /** What a list of findings contains. */
  function Found(findings: seq<Finding>): set<Finding> {
    set f | f in findings
  }

  lemma FoundAppend(findings: seq<Finding>, f: Finding)
    ensures Found(findings + [f]) == Found(findings) + {f}
  {
  }

  /** Appends one finding for each name that only the later snapshot holds. */
  method AfterOnly(findings: seq<Finding>, before: set<string>, after: set<string>, make: string -> Finding)
    returns (all: seq<Finding>)
    ensures Found(all) == Found(findings) + set name | name in after - before :: make(name)
  {
    all := findings;
    var left, done: set<string> := after - before, {};
    while left != {}
      invariant left + done == after - before
      invariant Found(all) == Found(findings) + set name | name in done :: make(name)
      decreases left
    {
      var name :| name in left;
      FoundAppend(all, make(name));
      all, left, done := all + [make(name)], left - {name}, done + {name};
    }
    assert done == after - before;
  }

  /** The last row of each identity counts. */
  method KeyRows(rows: seq<Row>, default: Class) returns (m: map<string, Class>)
    ensures m == Keyed(rows, default)
  {
    m := map[];
    for i := 0 to |rows|
      invariant m == Keyed(rows[..i], default)
    {
      var row := rows[i];
      assert rows[..i + 1][..i] == rows[..i];
      if row.id.Some? {
        m := m[row.id.value := if row.classification.Some? then row.classification.value else default];
      }
    }
    assert rows[..|rows|] == rows;
  }

  function RowLeaks(before: map<string, Class>, after: map<string, Class>, names: set<string>, table: Table): set<Finding> {
    set name | name in names && name in after && name !in before && !after[name].ExpectedRetained?
      :: DurableRow(table, name)
  }

  /** The after-only rows of one table, without those that are expected to be retained. */
  method CompareTable(findings: seq<Finding>, b: Snapshot, a: Snapshot, table: Table) returns (all: seq<Finding>)
    ensures Found(all) == Found(findings) + RowLeaks(TableOf(b, table), TableOf(a, table), TableOf(a, table).Keys, table)
  {
    all := findings;
    var before := KeyRows(Rows(b, table), ActiveOwned);
    var after := KeyRows(Rows(a, table), ActiveOwned);
    var left, done: set<string> := after.Keys - before.Keys, {};
    while left != {}
      invariant left + done == after.Keys - before.Keys
      invariant Found(all) == Found(findings) + RowLeaks(before, after, done, table)
      decreases left
    {
      var name :| name in left;
      if !after[name].ExpectedRetained? {
        FoundAppend(all, DurableRow(table, name));
        all := all + [DurableRow(table, name)];
        assert RowLeaks(before, after, done + {name}, table) == RowLeaks(before, after, done, table) + {DurableRow(table, name)};
      } else {
        assert RowLeaks(before, after, done + {name}, table) == RowLeaks(before, after, done, table);
      }
      left, done := left - {name}, done + {name};
    }
    assert RowLeaks(before, after, done, table) == RowLeaks(before, after, after.Keys, table);
  }

  const TABLES := [Operations, AgentCommands, ArtifactTransfers, NetworkPorts, PlacementAllocations]

  lemma TablesAreCompared()
    ensures forall table :: table in COMPARED <==> table in TABLES
  {
  }

  function TableLeaks(b: Snapshot, a: Snapshot, tables: seq<Table>): set<Finding> {
    set table, name | table in tables && name in TableOf(a, table) && name !in TableOf(b, table)
                      && !TableOf(a, table)[name].ExpectedRetained? :: DurableRow(table, name)
  }

  method CompareDurable(findings: seq<Finding>, b: Snapshot, a: Snapshot) returns (all: seq<Finding>)
    ensures Found(all) == Found(findings) + DurableLeaks(b, a)
  {
    all := findings;
    for i := 0 to |TABLES|
      invariant Found(all) == Found(findings) + TableLeaks(b, a, TABLES[..i])
    {
      var table := TABLES[i];
      all := CompareTable(all, b, a, table);
      MoreTables(b, a, TABLES[..i], table);
      assert TABLES[..i + 1] == TABLES[..i] + [table];
    }
    assert TABLES[..|TABLES|] == TABLES;
    TablesAreCompared();
    assert DurableLeaks(b, a) == TableLeaks(b, a, TABLES);
  }

  lemma MoreTables(b: Snapshot, a: Snapshot, tables: seq<Table>, table: Table)
    ensures TableLeaks(b, a, tables + [table]) ==
            TableLeaks(b, a, tables) + RowLeaks(TableOf(b, table), TableOf(a, table), TableOf(a, table).Keys, table)
  {
  }

  function EntryLeaks(before: map<string, Class>, after: map<string, Class>, names: set<string>): set<Finding> {
    set name | name in names && name in after && name !in before && (after[name].StaleOwned? || after[name].ActiveOwned?)
      :: Managed(name)
  }

  /** State-root and injected entries: stale and active ones that only the later snapshot holds. */
  method CompareManaged(findings: seq<Finding>, b: Snapshot, a: Snapshot) returns (all: seq<Finding>)
    ensures Found(all) == Found(findings) + ManagedLeaks(b, a)
  {
    all := findings;
    var before := KeyRows(b.managed + b.injected, StaleOwned);
    var after := KeyRows(a.managed + a.injected, StaleOwned);
    var left, done: set<string> := after.Keys, {};
    while left != {}
      invariant left + done == after.Keys
      invariant Found(all) == Found(findings) + EntryLeaks(before, after, done)
      decreases left
    {
      var name :| name in left;
      if name !in before && (after[name].StaleOwned? || after[name].ActiveOwned?) {
        FoundAppend(all, Managed(name));
        all := all + [Managed(name)];
        assert EntryLeaks(before, after, done + {name}) == EntryLeaks(before, after, done) + {Managed(name)};
      } else {
        assert EntryLeaks(before, after, done + {name}) == EntryLeaks(before, after, done);
      }
      left, done := left - {name}, done + {name};
    }
    assert EntryLeaks(before, after, done) == ManagedLeaks(b, a);
  }

  method CollectLeaks(b: Snapshot, a: Snapshot) returns (leaks: seq<Finding>)
    ensures Found(leaks) == OwnedLeaks(b, a)
  {
    hide DurableLeaks, ManagedLeaks;
    leaks := AfterOnly([], b.domains, a.domains, name => Domain(name));
    leaks := AfterOnly(leaks, b.links, a.links, name => Link(name));
    assert Found(leaks) == HostLeaks(b, a);
    if b.version == 3 {
      hide HostLeaks;
      leaks := CompareDurable(leaks, b, a);
      leaks := CompareManaged(leaks, b, a);
      ghost var so := Found(leaks);
      leaks := AfterOnly(leaks, b.dhcpOwned, a.dhcpOwned, name => DhcpProcess(name));
      leaks := AfterOnly(leaks, b.daemons, a.daemons, name => Daemon(name));
      leaks := AfterOnly(leaks, b.unmanaged, a.unmanaged, name => UnmanagedProcess(name));
      assert Found(leaks) == so + ProcessLeaks(b, a);
    }
  }

  // ----- Contradictions -----

  const ALL_TABLES := TABLES + [ImageOverlays]

  function Contradictions(a: Snapshot, tables: seq<Table>): set<Finding> {
    set table, row | table in tables && row in Rows(a, table) && row.classification == Some(Inconsistent)
      :: Contradiction(table)
  }

  method CollectContradictions(a: Snapshot) returns (findings: seq<Finding>)
    ensures Found(findings) == Contradictions(a, ALL_TABLES)
  {
    findings := [];
    for i := 0 to |ALL_TABLES|
      invariant Found(findings) == Contradictions(a, ALL_TABLES[..i])
    {
      var table := ALL_TABLES[i];
      var rows := Rows(a, table);
      ghost var so := Found(findings);
      for k := 0 to |rows|
        invariant Found(findings) == so + if exists j :: 0 <= j < k && rows[j].classification == Some(Inconsistent)
                                          then {Contradiction(table)} else {}
      {
        if rows[k].classification == Some(Inconsistent) {
          FoundAppend(findings, Contradiction(table));
          findings := findings + [Contradiction(table)];
        }
      }
      MoreContradictions(a, ALL_TABLES[..i], table);
      assert ALL_TABLES[..i + 1] == ALL_TABLES[..i] + [table];
    }
    assert ALL_TABLES[..|ALL_TABLES|] == ALL_TABLES;
  }

  lemma MoreContradictions(a: Snapshot, tables: seq<Table>, table: Table)
    ensures Contradictions(a, tables + [table]) ==
            Contradictions(a, tables)
            + if exists j :: 0 <= j < |Rows(a, table)| && Rows(a, table)[j].classification == Some(Inconsistent)
              then {Contradiction(table)} else {}
  {
  }

  /** Appends the names that the later snapshot classifies as stale. */
  method Stale(findings: seq<Finding>, names: set<string>, classes: map<string, Class>, make: string -> Finding)
    returns (all: seq<Finding>)
    ensures Found(all) == Found(findings) + set name | name in names && ClassOf(classes, name).StaleOwned? :: make(name)
  {
    all := findings;
    var left, done: set<string> := names, {};
    while left != {}
      invariant left + done == names
      invariant Found(all) == Found(findings) + set name | name in done && ClassOf(classes, name).StaleOwned? :: make(name)
      decreases left
    {
      var name :| name in left;
      if ClassOf(classes, name).StaleOwned? {
        FoundAppend(all, make(name));
        all := all + [make(name)];
      }
      left, done := left - {name}, done + {name};
    }
    assert done == names;
  }

  method CollectInconsistencies(a: Snapshot) returns (findings: seq<Finding>)
    ensures Found(findings) == Inconsistencies(a)
  {
    if a.version != 3 {
      return [];
    }
    findings := CollectContradictions(a);
    AllTables(a);
    hide Contradictions;
    findings := Stale(findings, a.domains, a.domainClasses, name => StaleDomain(name));
    findings := Stale(findings, a.links, a.linkClasses, name => StaleLink(name));
    ghost var so := Found(findings);
    for i := 0 to |a.bindings|
      invariant Found(findings) == so + if Some(Inconsistent) in a.bindings[..i] then {StaleBinding} else {}
    {
      if a.bindings[i] == Some(Inconsistent) {
        FoundAppend(findings, StaleBinding);
        findings := findings + [StaleBinding];
      }
      assert a.bindings[..i + 1] == a.bindings[..i] + [a.bindings[i]];
    }
    assert a.bindings[..|a.bindings|] == a.bindings;
  }

  lemma AllTables(a: Snapshot)
    ensures Contradictions(a, ALL_TABLES) ==
            set table, row | table in a.durable && row in a.durable[table] && row.classification == Some(Inconsistent)
              :: Contradiction(table)
  {
    forall table: Table
      ensures table in ALL_TABLES
    {
      assert table.Operations? || table.AgentCommands? || table.ArtifactTransfers? || table.NetworkPorts?
             || table.PlacementAllocations? || table.ImageOverlays?;
      assert ALL_TABLES[0] == Operations && ALL_TABLES[1] == AgentCommands && ALL_TABLES[2] == ArtifactTransfers
             && ALL_TABLES[3] == NetworkPorts && ALL_TABLES[4] == PlacementAllocations && ALL_TABLES[5] == ImageOverlays;
    }
  }

  // ----- Foreign state -----

  const FIELDS := ["uuid", "xml_sha256", "addresses_sha256", "sha256", "kind"]

  /** Presence first, then the identity fields up to the first that differs. */
  method CanaryDiffers(b: Canary, a: Canary) returns (differs: bool)
    ensures differs <==> !CanaryKept(b, a)
  {
    assert forall f :: f in IDENTITY_FIELDS <==> f in FIELDS;
    if b.present != a.present {
      return true;
    }
    if !b.present {
      return false;
    }
    for i := 0 to |FIELDS|
      invariant forall k :: 0 <= k < i ==> SameEntry(b.fields, a.fields, FIELDS[k])
    {
      if !SameEntry(b.fields, a.fields, FIELDS[i]) {
        assert FIELDS[i] in IDENTITY_FIELDS;
        return true;
      }
    }
    return false;
  }

  function ChangedForeign(b: Snapshot, a: Snapshot, keys: set<string>): set<Finding> {
    set key | key in keys && !SameEntry(b.foreign, a.foreign, key) :: ForeignState(key)
  }

  function ChangedCanaries(b: Snapshot, a: Snapshot, keys: set<string>): set<Finding> {
    set key | key in keys && key in b.canaries
              && (key !in a.canaries || !CanaryKept(b.canaries[key], a.canaries[key])) :: CanaryChanged(key)
  }

  lemma ForeignParts(b: Snapshot, a: Snapshot)
    ensures ForeignChanges(b, a) ==
            ChangedForeign(b, a, b.foreign.Keys + a.foreign.Keys - {PROTECTED}) + ChangedCanaries(b, a, b.canaries.Keys)
  {
  }

  method CollectForeignChanges(b: Snapshot, a: Snapshot) returns (findings: seq<Finding>)
    ensures Found(findings) == ForeignChanges(b, a)
  {
    hide SameEntry, CanaryKept, ForeignChanges;
    findings := [];
    var left, done: set<string> := b.foreign.Keys + a.foreign.Keys - {PROTECTED}, {};
    while left != {}
      invariant left + done == b.foreign.Keys + a.foreign.Keys - {PROTECTED}
      invariant Found(findings) == ChangedForeign(b, a, done)
      decreases left
    {
      var key :| key in left;
      if !SameEntry(b.foreign, a.foreign, key) {
        FoundAppend(findings, ForeignState(key));
        findings := findings + [ForeignState(key)];
      }
      left, done := left - {key}, done + {key};
    }
    assert done == b.foreign.Keys + a.foreign.Keys - {PROTECTED};
    ForeignParts(b, a);
    findings := CompareCanaries(findings, b, a);
  }

  method CompareCanaries(findings: seq<Finding>, b: Snapshot, a: Snapshot) returns (all: seq<Finding>)
    ensures Found(all) == Found(findings) + ChangedCanaries(b, a, b.canaries.Keys)
  {
    hide CanaryKept;
    all := findings;
    var left, done: set<string> := b.canaries.Keys, {};
    while left != {}
      invariant left + done == b.canaries.Keys
      invariant Found(all) == Found(findings) + ChangedCanaries(b, a, done)
      decreases left
    {
      var key :| key in left;
      var changed := true;
      if key in a.canaries {
        changed := CanaryDiffers(b.canaries[key], a.canaries[key]);
      }
      if changed {
        FoundAppend(all, CanaryChanged(key));
        all := all + [CanaryChanged(key)];
      }
      left, done := left - {key}, done + {key};
    }
    assert done == b.canaries.Keys;
  }

  // ----- The verdict -----

  /** A comparison that is not blocked lists everything it found, and passes when it found nothing. */
  method CompareSnapshots(b: Snapshot, a: Snapshot, expectRoot: bool, sourceCommit: string, runner: string)
    returns (status: Status, leaks: seq<Finding>, inconsistencies: seq<Finding>, foreignChanges: seq<Finding>)
    ensures Verdict(status, Found(leaks), Found(inconsistencies), Found(foreignChanges), sourceCommit, runner) ==
            Compare(b, a, expectRoot, sourceCommit, runner)
  {
    hide Blocked, OwnedLeaks, Inconsistencies, ForeignChanges;
    if Blocked(b, a, expectRoot) {
      return Stopped, [], [], [];
    }
    leaks := CollectLeaks(b, a);
    inconsistencies := CollectInconsistencies(a);
    foreignChanges := CollectForeignChanges(b, a);
    NothingFound(leaks);
    NothingFound(inconsistencies);
    NothingFound(foreignChanges);
    status := if leaks != [] || inconsistencies != [] || foreignChanges != [] then Failed else Passed;
  }

  lemma NothingFound(findings: seq<Finding>)
    ensures Found(findings) == {} <==> findings == []
  {
    if findings != [] {
      assert findings[0] in Found(findings);
    }
  }
}
