/**
 What a comparison finds and when it passes, in terms of the fields of the two snapshots alone.
 */
module LeakTheorems {
  import opened Wrappers
  import opened LeakVerdict

  // ----- Keyed rows -----

  predicate HasId(rows: seq<Row>, name: string) {
    exists k :: 0 <= k < |rows| && rows[k].id == Some(name)
  }

  /** Row `k` is the last one of this identity. */
  predicate LastRow(rows: seq<Row>, k: int, name: string) {
    0 <= k < |rows| && rows[k].id == Some(name) && forall j :: k < j < |rows| ==> rows[j].id != Some(name)
  }

  lemma {:induction false} LastRowExists(rows: seq<Row>, name: string)
    requires HasId(rows, name)
    ensures exists k :: LastRow(rows, k, name)
    decreases |rows|
  {
    var n := |rows| - 1;
    if rows[n].id == Some(name) {
      assert LastRow(rows, n, name);
    } else {
      var k :| 0 <= k < |rows| && rows[k].id == Some(name);
      assert rows[..n][k].id == Some(name);
      LastRowExists(rows[..n], name);
      var j :| LastRow(rows[..n], j, name);
      assert forall i :: j < i < n ==> rows[i] == rows[..n][i];
      assert LastRow(rows, j, name);
    }
  }

  function ClassOr(row: Row, default: Class): Class {
    if row.classification.Some? then row.classification.value else default
  }

  lemma KeyedSnoc(front: seq<Row>, row: Row, default: Class)
    ensures Keyed(front + [row], default) ==
            if row.id.None? then Keyed(front, default) else Keyed(front, default)[row.id.value := ClassOr(row, default)]
  {
    assert (front + [row])[..|front|] == front;
  }

  lemma LastOfSnoc(front: seq<Row>, row: Row, name: string)
    ensures HasId(front + [row], name) <==> HasId(front, name) || row.id == Some(name)
    ensures forall k :: LastRow(front + [row], k, name) <==>
                        (k == |front| && row.id == Some(name)) || (row.id != Some(name) && LastRow(front, k, name))
  {
    var rows := front + [row];
    assert rows[|front|] == row && forall i :: 0 <= i < |front| ==> rows[i] == front[i];
  }

  /** The last row of an identity decides. */
  lemma {:induction false} KeyedExactly(rows: seq<Row>, default: Class, name: string)
    ensures name in Keyed(rows, default) <==> HasId(rows, name)
    ensures forall k :: LastRow(rows, k, name) ==>
              name in Keyed(rows, default) && Keyed(rows, default)[name] == ClassOr(rows[k], default)
    decreases |rows|
  {
    if rows != [] {
      hide Keyed, HasId, ClassOr;
      var front, row := rows[..|rows| - 1], rows[|rows| - 1];
      assert rows == front + [row];
      KeyedExactly(front, default, name);
      KeyedSnoc(front, row, default);
      LastOfSnoc(front, row, name);
    }
  }

  // ----- The conditions of a pass -----

  predicate Known(s: Snapshot, section: Section) {
    section in s.sections && s.sections[section] != Missing
  }

  predicate On(s: Snapshot, section: Section) {
    section in s.sections && s.sections[section] == Available
  }

  /** A section is recorded in both snapshots, at least from version 3 on, and available in both or in neither. */
  predicate Alike(b: Snapshot, a: Snapshot, section: Section) {
    && (b.version == 3 ==> Known(b, section) && Known(a, section))
    && (Known(b, section) && Known(a, section) ==> (On(b, section) <==> On(a, section)))
  }

  predicate Comparable(b: Snapshot, a: Snapshot, expectRoot: bool) {
    && (b.version == 2 || b.version == 3) && a.version == b.version
    && b.available && a.available
    && b.tokensKnown && a.tokensKnown && !b.secretShaped && !a.secretShaped
    && Alike(b, a, ManagedState) && Alike(b, a, Durable) && Alike(b, a, Dhcp)
    && Alike(b, a, Processes) && Alike(b, a, Canaries) && Alike(b, a, InjectionRoot)
    && (On(b, Canaries) ==> On(a, Canaries))
    && (On(b, ManagedState) <==> expectRoot) && (On(a, ManagedState) <==> expectRoot)
  }

  predicate IsComparedTable(table: Table) {
    table == Operations || table == AgentCommands || table == ArtifactTransfers
    || table == NetworkPorts || table == PlacementAllocations
  }

  predicate HadRow(s: Snapshot, table: Table, name: string) {
    table in s.durable && HasId(s.durable[table], name)
  }

  predicate HadEntry(s: Snapshot, name: string) {
    HasId(s.managed, name) || HasId(s.injected, name)
  }

  /** Row `k` of the table is new and not expected to be retained. */
  predicate NewRow(b: Snapshot, a: Snapshot, table: Table, k: int, name: string) {
    && IsComparedTable(table) && table in a.durable && LastRow(a.durable[table], k, name) && !HadRow(b, table, name)
    && a.durable[table][k].classification != Some(ExpectedRetained)
  }

  /** Managed entry `k` is new and stale, active or unclassified. */
  predicate NewEntry(b: Snapshot, a: Snapshot, k: int, name: string) {
    var rows := a.managed + a.injected;
    && LastRow(rows, k, name) && !HadEntry(b, name)
    && (rows[k].classification.None? || rows[k].classification == Some(StaleOwned) || rows[k].classification == Some(ActiveOwned))
  }

  /** Nothing of the system's own has appeared. */
  ghost predicate NothingAppeared(b: Snapshot, a: Snapshot) {
    && a.domains <= b.domains && a.links <= b.links
    && (b.version == 3 ==>
          && (forall table, k, name :: !NewRow(b, a, table, k, name))
          && (forall k, name :: !NewEntry(b, a, k, name))
          && a.dhcpOwned <= b.dhcpOwned && a.daemons <= b.daemons && a.unmanaged <= b.unmanaged)
  }

  predicate SameField(b: map<string, string>, a: map<string, string>, key: string) {
    (key in b <==> key in a) && (key in b && key in a ==> b[key] == a[key])
  }

  predicate SameCanary(b: Canary, a: Canary) {
    && b.present == a.present
    && (b.present ==>
          && SameField(b.fields, a.fields, "uuid") && SameField(b.fields, a.fields, "xml_sha256")
          && SameField(b.fields, a.fields, "addresses_sha256") && SameField(b.fields, a.fields, "sha256")
          && SameField(b.fields, a.fields, "kind"))
  }

  /** What is not the system's own is as it was; the protected paths are its own. */
  ghost predicate ForeignUnchanged(b: Snapshot, a: Snapshot) {
    && (forall key :: key != "protected_paths_sha256" ==> SameField(b.foreign, a.foreign, key))
    && (forall key :: key in b.canaries ==> key in a.canaries && SameCanary(b.canaries[key], a.canaries[key]))
  }

  lemma ComparableIsNotBlocked(b: Snapshot, a: Snapshot, expectRoot: bool)
    ensures Comparable(b, a, expectRoot) <==> !Blocked(b, a, expectRoot)
  {
    forall section: Section
      ensures section in SECTIONS
      ensures SectionOk(b, a, section) && (b.version == 2 || b.version == 3) <==>
              Alike(b, a, section) && (b.version == 2 || b.version == 3)
    {
      assert section.ManagedState? || section.Durable? || section.Dhcp? || section.Processes? || section.Canaries?
             || section.InjectionRoot?;
    }
    assert !Blocked(b, a, expectRoot) ==> forall section :: section in SECTIONS ==> SectionOk(b, a, section);
    if Comparable(b, a, expectRoot) {
      forall section | section in SECTIONS
        ensures SectionOk(b, a, section)
      {
        assert Alike(b, a, section);
      }
    }
  }

  lemma RowIsNew(b: Snapshot, a: Snapshot, table: Table, name: string)
    ensures DurableRow(table, name) in DurableLeaks(b, a) <==> exists k :: NewRow(b, a, table, k, name)
  {
    hide Keyed, HasId;
    KeyedExactly(Rows(a, table), ActiveOwned, name);
    KeyedExactly(Rows(b, table), ActiveOwned, name);
    assert !HasId([], name) by {
      NothingHasId(name);
    }
    assert table in COMPARED <==> IsComparedTable(table);
    if HasId(Rows(a, table), name) {
      LastRowExists(Rows(a, table), name);
      var k :| LastRow(Rows(a, table), k, name);
      LastRowIsOne(Rows(a, table), k, name);
      assert DurableRow(table, name) in DurableLeaks(b, a) ==> NewRow(b, a, table, k, name);
    }
  }

  lemma NothingHasId(name: string)
    ensures !HasId([], name)
  {
  }

  lemma LastRowIsOne(rows: seq<Row>, k: int, name: string)
    requires LastRow(rows, k, name)
    ensures forall j :: LastRow(rows, j, name) ==> j == k
  {
  }

  lemma HasIdJoin(a: seq<Row>, b: seq<Row>, name: string)
    ensures HasId(a + b, name) <==> HasId(a, name) || HasId(b, name)
  {
    if k :| 0 <= k < |a| && a[k].id == Some(name) {
      assert (a + b)[k].id == Some(name);
    }
    if k :| 0 <= k < |b| && b[k].id == Some(name) {
      assert (a + b)[|a| + k].id == Some(name);
    }
  }

  lemma EntryIsNew(b: Snapshot, a: Snapshot, name: string)
    ensures Managed(name) in ManagedLeaks(b, a) <==> exists k :: NewEntry(b, a, k, name)
  {
    hide Keyed, HasId;
    var rows := a.managed + a.injected;
    KeyedExactly(rows, StaleOwned, name);
    KeyedExactly(b.managed + b.injected, StaleOwned, name);
    HasIdJoin(b.managed, b.injected, name);
    if HasId(rows, name) {
      LastRowExists(rows, name);
      var k :| LastRow(rows, k, name);
      LastRowIsOne(rows, k, name);
      assert Managed(name) in ManagedLeaks(b, a) ==> NewEntry(b, a, k, name);
    }
  }

  /** Each leak, and nothing else, is found. */
  lemma LeaksExactly(b: Snapshot, a: Snapshot, f: Finding)
    ensures f in OwnedLeaks(b, a) <==>
            match f
            case Domain(name) => name in a.domains && name !in b.domains
            case Link(name) => name in a.links && name !in b.links
            case DurableRow(table, name) => b.version == 3 && exists k :: NewRow(b, a, table, k, name)
            case Managed(name) => b.version == 3 && exists k :: NewEntry(b, a, k, name)
            case DhcpProcess(name) => b.version == 3 && name in a.dhcpOwned && name !in b.dhcpOwned
            case Daemon(name) => b.version == 3 && name in a.daemons && name !in b.daemons
            case UnmanagedProcess(name) => b.version == 3 && name in a.unmanaged && name !in b.unmanaged
            case _ => false
  {
    hide NewRow, NewEntry, COMPARED, TableOf, ManagedOf;
    if f.DurableRow? {
      RowIsNew(b, a, f.table, f.name);
    } else if f.Managed? {
      EntryIsNew(b, a, f.name);
    }
  }

  /** Each contradiction, and nothing else, is found. */
  lemma InconsistenciesExactly(a: Snapshot, f: Finding)
    ensures f in Inconsistencies(a) <==>
            a.version == 3 &&
            match f
            case Contradiction(table) =>
              table in a.durable && exists row :: row in a.durable[table] && row.classification == Some(Inconsistent)
            case StaleDomain(name) => name in a.domains && (name !in a.domainClasses || a.domainClasses[name] == StaleOwned)
            case StaleLink(name) => name in a.links && (name !in a.linkClasses || a.linkClasses[name] == StaleOwned)
            case StaleBinding => Some(Inconsistent) in a.bindings
            case _ => false
  {
  }

  /** Each foreign change, and nothing else, is found. */
  lemma ForeignChangesExactly(b: Snapshot, a: Snapshot, f: Finding)
    ensures f in ForeignChanges(b, a) <==>
            match f
            case ForeignState(key) => key != "protected_paths_sha256" && !SameField(b.foreign, a.foreign, key)
            case CanaryChanged(key) =>
              key in b.canaries && (key !in a.canaries || !SameCanary(b.canaries[key], a.canaries[key]))
            case _ => false
  {
    if f.ForeignState? {
      assert SameEntry(b.foreign, a.foreign, f.name) <==> SameField(b.foreign, a.foreign, f.name);
    } else if f.CanaryChanged? && f.name in b.canaries && f.name in a.canaries {
      CanaryKeptExactly(b.canaries[f.name], a.canaries[f.name]);
    }
  }

  lemma CanaryKeptExactly(b: Canary, a: Canary)
    ensures CanaryKept(b, a) <==> SameCanary(b, a)
  {
    assert forall f :: SameEntry(b.fields, a.fields, f) <==> SameField(b.fields, a.fields, f);
    assert "uuid" in IDENTITY_FIELDS && "xml_sha256" in IDENTITY_FIELDS && "addresses_sha256" in IDENTITY_FIELDS
           && "sha256" in IDENTITY_FIELDS && "kind" in IDENTITY_FIELDS;
  }

  lemma NoLeaksExactly(b: Snapshot, a: Snapshot)
    ensures OwnedLeaks(b, a) == {} <==> NothingAppeared(b, a)
  {
    hide OwnedLeaks, NewRow, NewEntry;
    forall f: Finding
      ensures f in OwnedLeaks(b, a) ==> !NothingAppeared(b, a)
    {
      LeaksExactly(b, a, f);
    }
    if OwnedLeaks(b, a) == {} {
      forall table, k, name
        ensures b.version == 3 ==> !NewRow(b, a, table, k, name)
      {
        LeaksExactly(b, a, DurableRow(table, name));
      }
      forall k, name
        ensures b.version == 3 ==> !NewEntry(b, a, k, name)
      {
        LeaksExactly(b, a, Managed(name));
      }
      forall name
        ensures name in a.domains ==> name in b.domains
        ensures name in a.links ==> name in b.links
        ensures b.version == 3 && name in a.dhcpOwned ==> name in b.dhcpOwned
        ensures b.version == 3 && name in a.daemons ==> name in b.daemons
        ensures b.version == 3 && name in a.unmanaged ==> name in b.unmanaged
      {
        LeaksExactly(b, a, Domain(name));
        LeaksExactly(b, a, Link(name));
        LeaksExactly(b, a, DhcpProcess(name));
        LeaksExactly(b, a, Daemon(name));
        LeaksExactly(b, a, UnmanagedProcess(name));
      }
    }
  }

  lemma NoForeignChangesExactly(b: Snapshot, a: Snapshot)
    ensures ForeignChanges(b, a) == {} <==> ForeignUnchanged(b, a)
  {
    hide ForeignChanges, SameField, SameCanary;
    forall f: Finding
      ensures f in ForeignChanges(b, a) ==> !ForeignUnchanged(b, a)
    {
      ForeignChangesExactly(b, a, f);
    }
    if ForeignChanges(b, a) == {} {
      forall key
        ensures key != "protected_paths_sha256" ==> SameField(b.foreign, a.foreign, key)
        ensures key in b.canaries ==> key in a.canaries && SameCanary(b.canaries[key], a.canaries[key])
      {
        ForeignChangesExactly(b, a, ForeignState(key));
        ForeignChangesExactly(b, a, CanaryChanged(key));
      }
    }
  }

  /**
   A comparison passes exactly when the snapshots can be compared, nothing of the system's own has
   appeared, nothing foreign has changed and, from version 3 on, the later one does not contradict itself.
   */
  lemma PassesExactly(b: Snapshot, a: Snapshot, expectRoot: bool)
    ensures Passes(b, a, expectRoot) <==>
            && Comparable(b, a, expectRoot) && NothingAppeared(b, a) && ForeignUnchanged(b, a)
            && (a.version == 3 ==> FreeOfContradictions(a))
  {
    hide Blocked, Comparable, OwnedLeaks, NothingAppeared, ForeignChanges, ForeignUnchanged, FreeOfContradictions;
    ComparableIsNotBlocked(b, a, expectRoot);
    NoLeaksExactly(b, a);
    NoForeignChangesExactly(b, a);
    if a.version == 3 {
      NoInconsistencies(a);
    }
  }
}
