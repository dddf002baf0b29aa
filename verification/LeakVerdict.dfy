/**
 The real-host leak verdict: two host inventories are compared, what only the later one
 holds is a leak, and what is not the system's own must not have changed. Lists of findings
 are sets here: the verdict depends only on whether there are any.
 */
module LeakVerdict {
  import opened Wrappers

  datatype Class = ActiveOwned | ExpectedRetained | StaleOwned | Inconsistent | ForeignMarker

  /** How an inventory section is recorded. */
  datatype Presence = Available | Absent | NotChecked | Missing

  /** The sections that must be symmetric. */
  datatype Section = ManagedState | Durable | Dhcp | Processes | Canaries | InjectionRoot

  const SECTIONS: set<Section> := {ManagedState, Durable, Dhcp, Processes, Canaries, InjectionRoot}

  datatype Row = Row(id: Option<string>, classification: Option<Class>)

  datatype Canary = Canary(present: bool, fields: map<string, string>)

  /** The tables whose identities are compared; overlay rows are only checked for contradictions. */
  datatype Table = Operations | AgentCommands | ArtifactTransfers | NetworkPorts | PlacementAllocations | ImageOverlays

  const COMPARED: set<Table> := {Operations, AgentCommands, ArtifactTransfers, NetworkPorts, PlacementAllocations}

  datatype Snapshot = Snapshot(
    version: int,
    available: bool,
    tokensKnown: bool,
    secretShaped: bool,
    sections: map<Section, Presence>,
    domains: set<string>,
    links: set<string>,
    domainClasses: map<string, Class>,
    linkClasses: map<string, Class>,
    durable: map<Table, seq<Row>>,
    managed: seq<Row>,
    injected: seq<Row>,
    bindings: seq<Option<Class>>,
    dhcpOwned: set<string>,
    daemons: set<string>,
    unmanaged: set<string>,
    foreign: map<string, string>,
    canaries: map<string, Canary>)

  function PresenceOf(s: Snapshot, section: Section): Presence {
    if section in s.sections then s.sections[section] else Missing
  }

  // ----- When no comparison is made -----

  /** One section, in both snapshots: a section that is available on one side only blocks. */
  predicate SectionOk(b: Snapshot, a: Snapshot, section: Section) {
    var before, after := PresenceOf(b, section), PresenceOf(a, section);
    if before.Missing? || after.Missing? then b.version == 2
    else before.Available? <==> after.Available?
  }

  predicate Blocked(b: Snapshot, a: Snapshot, expectRoot: bool) {
    || b.version !in {2, 3} || a.version !in {2, 3} || b.version != a.version
    || !b.available || !a.available
    || !b.tokensKnown || b.secretShaped || !a.tokensKnown || a.secretShaped
    || (exists section :: section in SECTIONS && !SectionOk(b, a, section))
    || (PresenceOf(b, Canaries).Available? && !PresenceOf(a, Canaries).Available?)
    || PresenceOf(b, ManagedState).Available? != expectRoot
    || PresenceOf(a, ManagedState).Available? != expectRoot
  }

  // ----- Findings -----

  datatype Finding =
    | Domain(name: string)
    | Link(name: string)
    | DurableRow(table: Table, name: string)
    | Managed(name: string)
    | DhcpProcess(name: string)
    | Daemon(name: string)
    | UnmanagedProcess(name: string)
    | Contradiction(table: Table)
    | StaleDomain(name: string)
    | StaleLink(name: string)
    | StaleBinding
    | ForeignState(name: string)
    | CanaryChanged(name: string)

  /** Rows keyed by identity; of several with one identity the last counts. */
  function Keyed(rows: seq<Row>, default: Class): map<string, Class> {
    if rows == [] then map[]
    else
      var rest, last := Keyed(rows[..|rows| - 1], default), rows[|rows| - 1];
      if last.id.None? then rest
      else rest[last.id.value := if last.classification.Some? then last.classification.value else default]
  }

  function Rows(s: Snapshot, table: Table): seq<Row> {
    if table in s.durable then s.durable[table] else []
  }

  function TableOf(s: Snapshot, table: Table): map<string, Class> {
    Keyed(Rows(s, table), ActiveOwned)
  }

  /** State-root entries, then injected ones. */
  function ManagedOf(s: Snapshot): map<string, Class> {
    Keyed(s.managed + s.injected, StaleOwned)
  }

  function ClassOf(classes: map<string, Class>, name: string): Class {
    if name in classes then classes[name] else StaleOwned
  }

  function HostLeaks(b: Snapshot, a: Snapshot): set<Finding> {
    (set name | name in a.domains - b.domains :: Domain(name)) + (set name | name in a.links - b.links :: Link(name))
  }

  /** Rows that are new and that the collector does not expect to be retained. */
  function DurableLeaks(b: Snapshot, a: Snapshot): set<Finding> {
    set table, name |
      table in COMPARED && name in TableOf(a, table)
      && name !in TableOf(b, table) && !TableOf(a, table)[name].ExpectedRetained?
      :: DurableRow(table, name)
  }

  function ManagedLeaks(b: Snapshot, a: Snapshot): set<Finding> {
    set name |
      name in ManagedOf(a) && name !in ManagedOf(b) && (ManagedOf(a)[name].StaleOwned? || ManagedOf(a)[name].ActiveOwned?)
      :: Managed(name)
  }

  function ProcessLeaks(b: Snapshot, a: Snapshot): set<Finding> {
    (set name | name in a.dhcpOwned - b.dhcpOwned :: DhcpProcess(name))
    + (set name | name in a.daemons - b.daemons :: Daemon(name))
    + (set name | name in a.unmanaged - b.unmanaged :: UnmanagedProcess(name))
  }

  function OwnedLeaks(b: Snapshot, a: Snapshot): set<Finding> {
    HostLeaks(b, a)
    + (if b.version == 3 then DurableLeaks(b, a) + ManagedLeaks(b, a) + ProcessLeaks(b, a) else {})
  }

  /** Contradictions inside the later snapshot, whatever the earlier one says. */
  function Inconsistencies(a: Snapshot): set<Finding> {
    if a.version != 3 then {}
    else
      (set table, row | table in a.durable && row in a.durable[table] && row.classification == Some(Inconsistent)
         :: Contradiction(table))
      + (set name | name in a.domains && ClassOf(a.domainClasses, name).StaleOwned? :: StaleDomain(name))
      + (set name | name in a.links && ClassOf(a.linkClasses, name).StaleOwned? :: StaleLink(name))
      + (if Some(Inconsistent) in a.bindings then {StaleBinding} else {})
  }

  const PROTECTED := "protected_paths_sha256"

  predicate SameEntry(m: map<string, string>, n: map<string, string>, key: string) {
    (key in m <==> key in n) && (key in m ==> m[key] == n[key])
  }

  const IDENTITY_FIELDS: set<string> := {"uuid", "xml_sha256", "addresses_sha256", "sha256", "kind"}

  predicate CanaryKept(b: Canary, a: Canary) {
    b.present == a.present && (b.present ==> forall f :: f in IDENTITY_FIELDS ==> SameEntry(b.fields, a.fields, f))
  }

  function ForeignChanges(b: Snapshot, a: Snapshot): set<Finding> {
    (set key | key in b.foreign.Keys + a.foreign.Keys && key != PROTECTED && !SameEntry(b.foreign, a.foreign, key)
       :: ForeignState(key))
    + (set key | key in b.canaries && (key !in a.canaries || !CanaryKept(b.canaries[key], a.canaries[key]))
         :: CanaryChanged(key))
  }

  datatype Status = Passed | Failed | Stopped

  datatype Verdict = Verdict(
    status: Status,
    leaks: set<Finding>,
    inconsistencies: set<Finding>,
    foreignChanges: set<Finding>,
    sourceCommit: string,
    runner: string)

  function Compare(b: Snapshot, a: Snapshot, expectRoot: bool, sourceCommit: string, runner: string): Verdict {
    if Blocked(b, a, expectRoot) then Verdict(Stopped, {}, {}, {}, sourceCommit, runner)
    else
      var leaks, inconsistencies, changes := OwnedLeaks(b, a), Inconsistencies(a), ForeignChanges(b, a);
      Verdict(if leaks == {} && inconsistencies == {} && changes == {} then Passed else Failed,
              leaks, inconsistencies, changes, sourceCommit, runner)
  }

  predicate Passes(b: Snapshot, a: Snapshot, expectRoot: bool) {
    Compare(b, a, expectRoot, "", "").status.Passed?
  }

  // ----- One comparison -----

  /** Nothing leaks from a snapshot into itself, and nothing foreign differs. */
  lemma SelfComparison(s: Snapshot, expectRoot: bool)
    requires !Blocked(s, s, expectRoot)
    ensures var v := Compare(s, s, expectRoot, "", ""); v.leaks == {} && v.foreignChanges == {}
  {
  }

  /** The conditions of a pass, spelled out for a pair of version 3. */
  ghost predicate Clean(b: Snapshot, a: Snapshot) {
    && a.domains <= b.domains && a.links <= b.links
    && (forall table, name :: table in COMPARED && name in TableOf(a, table) && name !in TableOf(b, table) ==>
          TableOf(a, table)[name].ExpectedRetained?)
    && (forall name :: name in ManagedOf(a) && name !in ManagedOf(b) ==>
          !ManagedOf(a)[name].StaleOwned? && !ManagedOf(a)[name].ActiveOwned?)
    && a.dhcpOwned <= b.dhcpOwned && a.daemons <= b.daemons && a.unmanaged <= b.unmanaged
    && (forall key :: key != PROTECTED ==> SameEntry(b.foreign, a.foreign, key))
    && (forall key :: key in b.canaries ==> key in a.canaries && CanaryKept(b.canaries[key], a.canaries[key]))
  }

  lemma NoDurableLeaks(b: Snapshot, a: Snapshot)
    ensures DurableLeaks(b, a) == {} <==>
            forall table, name :: table in COMPARED && name in TableOf(a, table) && name !in TableOf(b, table) ==>
              TableOf(a, table)[name].ExpectedRetained?
  {
    if DurableLeaks(b, a) == {} {
      forall table, name | table in COMPARED && name in TableOf(a, table) && name !in TableOf(b, table)
        ensures TableOf(a, table)[name].ExpectedRetained?
      {
        assert DurableRow(table, name) !in DurableLeaks(b, a);
      }
    }
  }

  lemma NoManagedLeaks(b: Snapshot, a: Snapshot)
    ensures ManagedLeaks(b, a) == {} <==>
            forall name :: name in ManagedOf(a) && name !in ManagedOf(b) ==>
              !ManagedOf(a)[name].StaleOwned? && !ManagedOf(a)[name].ActiveOwned?
  {
    if ManagedLeaks(b, a) == {} {
      forall name | name in ManagedOf(a) && name !in ManagedOf(b)
        ensures !ManagedOf(a)[name].StaleOwned? && !ManagedOf(a)[name].ActiveOwned?
      {
        assert Managed(name) !in ManagedLeaks(b, a);
      }
    }
  }

  lemma NoHostLeaks(b: Snapshot, a: Snapshot)
    ensures HostLeaks(b, a) == {} <==> a.domains <= b.domains && a.links <= b.links
  {
    if HostLeaks(b, a) == {} {
      forall name | name in a.domains
        ensures name in b.domains
      {
        assert Domain(name) !in HostLeaks(b, a);
      }
      forall name | name in a.links
        ensures name in b.links
      {
        assert Link(name) !in HostLeaks(b, a);
      }
    }
  }

  lemma NoProcessLeaks(b: Snapshot, a: Snapshot)
    ensures ProcessLeaks(b, a) == {} <==> a.dhcpOwned <= b.dhcpOwned && a.daemons <= b.daemons && a.unmanaged <= b.unmanaged
  {
    if ProcessLeaks(b, a) == {} {
      forall name
        ensures name in a.dhcpOwned ==> name in b.dhcpOwned
        ensures name in a.daemons ==> name in b.daemons
        ensures name in a.unmanaged ==> name in b.unmanaged
      {
        assert DhcpProcess(name) !in ProcessLeaks(b, a);
        assert Daemon(name) !in ProcessLeaks(b, a);
        assert UnmanagedProcess(name) !in ProcessLeaks(b, a);
      }
    }
  }

  lemma NoForeignChanges(b: Snapshot, a: Snapshot)
    ensures ForeignChanges(b, a) == {} <==>
            && (forall key :: key != PROTECTED ==> SameEntry(b.foreign, a.foreign, key))
            && (forall key :: key in b.canaries ==> key in a.canaries && CanaryKept(b.canaries[key], a.canaries[key]))
  {
    if ForeignChanges(b, a) == {} {
      forall key | key != PROTECTED
        ensures SameEntry(b.foreign, a.foreign, key)
      {
        assert ForeignState(key) !in ForeignChanges(b, a);
      }
      forall key | key in b.canaries
        ensures key in a.canaries && CanaryKept(b.canaries[key], a.canaries[key])
      {
        assert CanaryChanged(key) !in ForeignChanges(b, a);
      }
    }
  }

  /** No row contradicts the host, every domain and link is known for something else than stale, and no binding contradicts. */
  ghost predicate FreeOfContradictions(a: Snapshot) {
    && (forall table, row :: table in a.durable && row in a.durable[table] ==> row.classification != Some(Inconsistent))
    && (forall name :: name in a.domains ==> name in a.domainClasses && !a.domainClasses[name].StaleOwned?)
    && (forall name :: name in a.links ==> name in a.linkClasses && !a.linkClasses[name].StaleOwned?)
    && Some(Inconsistent) !in a.bindings
  }

  lemma NoInconsistencies(a: Snapshot)
    requires a.version == 3
    ensures Inconsistencies(a) == {} <==> FreeOfContradictions(a)
  {
    if Inconsistencies(a) == {} {
      forall table, row | table in a.durable && row in a.durable[table]
        ensures row.classification != Some(Inconsistent)
      {
        assert Contradiction(table) !in Inconsistencies(a);
      }
      forall name
        ensures name in a.domains ==> name in a.domainClasses && !a.domainClasses[name].StaleOwned?
        ensures name in a.links ==> name in a.linkClasses && !a.linkClasses[name].StaleOwned?
      {
        assert StaleDomain(name) !in Inconsistencies(a) && StaleLink(name) !in Inconsistencies(a);
      }
      assert StaleBinding !in Inconsistencies(a);
    }
  }

  /** A pair of version 3 passes exactly when it is not blocked, the later one is free of contradictions, and the pair is clean. */
  lemma PassesIffClean(b: Snapshot, a: Snapshot, expectRoot: bool)
    requires b.version == 3
    ensures Passes(b, a, expectRoot) <==> !Blocked(b, a, expectRoot) && FreeOfContradictions(a) && Clean(b, a)
  {
    hide DurableLeaks, ManagedLeaks, HostLeaks, ProcessLeaks, ForeignChanges, Inconsistencies, FreeOfContradictions;
    if a.version == 3 {
      NoInconsistencies(a);
    }
    NoHostLeaks(b, a);
    NoDurableLeaks(b, a);
    NoManagedLeaks(b, a);
    NoProcessLeaks(b, a);
    NoForeignChanges(b, a);
  }

  // ----- Two comparisons in a row -----

  /** What entered between the first two snapshots as expected residue is still classified so in the third. */
  predicate ResidueStays(a: Snapshot, b: Snapshot, c: Snapshot) {
    && (forall table, name ::
          table in COMPARED && name in TableOf(c, table) && name in TableOf(b, table) && name !in TableOf(a, table) ==>
            TableOf(c, table)[name].ExpectedRetained?)
    && (forall name :: name in ManagedOf(c) && name in ManagedOf(b) && name !in ManagedOf(a) ==>
          !ManagedOf(c)[name].StaleOwned? && !ManagedOf(c)[name].ActiveOwned?)
  }

  lemma BlockedCompose(a: Snapshot, b: Snapshot, c: Snapshot, expectRoot: bool)
    requires a.version == 3 && !Blocked(a, b, expectRoot) && !Blocked(b, c, expectRoot)
    ensures !Blocked(a, c, expectRoot)
  {
  }

  /**
   Two passes in a row are a pass from first to last exactly when the residue the first one
   let through has kept its classification: the second comparison finds it in its baseline
   and does not look at it again.
   */
  lemma PassesCompose(a: Snapshot, b: Snapshot, c: Snapshot, expectRoot: bool)
    requires a.version == 3 && Passes(a, b, expectRoot) && Passes(b, c, expectRoot)
    ensures Passes(a, c, expectRoot) <==> ResidueStays(a, b, c)
  {
    PassesIffClean(a, b, expectRoot);
    PassesIffClean(b, c, expectRoot);
    PassesIffClean(a, c, expectRoot);
    BlockedCompose(a, b, c, expectRoot);
    CleanCompose(a, b, c);
  }

  lemma CleanCompose(a: Snapshot, b: Snapshot, c: Snapshot)
    requires Clean(a, b) && Clean(b, c)
    ensures Clean(a, c) <==> ResidueStays(a, b, c)
  {
    hide TableOf, ManagedOf, COMPARED;
    forall key | key in a.canaries
      ensures key in c.canaries && CanaryKept(a.canaries[key], c.canaries[key])
    {
      assert CanaryKept(a.canaries[key], b.canaries[key]) && CanaryKept(b.canaries[key], c.canaries[key]);
      assert forall f :: f in IDENTITY_FIELDS && a.canaries[key].present ==>
          SameEntry(a.canaries[key].fields, b.canaries[key].fields, f)
          && SameEntry(b.canaries[key].fields, c.canaries[key].fields, f);
    }
    forall key | key != PROTECTED
      ensures SameEntry(a.foreign, c.foreign, key)
    {
      assert SameEntry(a.foreign, b.foreign, key) && SameEntry(b.foreign, c.foreign, key);
    }
  }

  /** The classifications that make a new state-root entry a leak. */
  predicate Leaks(c: Class) {
    c.StaleOwned? || c.ActiveOwned?
  }

  /** One more managed entry; entries of the injection root are keyed together with those of the state root. */
  function WithEntry(a: Snapshot, name: string, c: Class): Snapshot {
    a.(injected := a.injected + [Row(Some(name), Some(c))])
  }

  lemma EntryIsKeyed(a: Snapshot, name: string, c: Class)
    ensures ManagedOf(WithEntry(a, name, c)) == ManagedOf(a)[name := c]
  {
    var rows, row := a.managed + a.injected, Row(Some(name), Some(c));
    assert a.managed + (a.injected + [row]) == rows + [row];
    assert (rows + [row])[..|rows|] == rows;
  }

  lemma EntryIsClean(b: Snapshot, a: Snapshot, name: string, c: Class)
    requires name !in ManagedOf(b) && name !in ManagedOf(a)
    ensures Clean(b, WithEntry(a, name, c)) <==> Clean(b, a) && !Leaks(c)
  {
    hide ManagedOf, TableOf, SameEntry, CanaryKept, COMPARED;
    EntryIsKeyed(a, name, c);
    var a' := WithEntry(a, name, c);
    assert ManagedOf(a')[name] == c;
    assert forall n :: n in ManagedOf(a) ==> n in ManagedOf(a') && ManagedOf(a')[n] == ManagedOf(a)[n];
    TablesKept(a, name, c);
  }

  lemma TablesKept(a: Snapshot, name: string, c: Class)
    ensures forall table :: TableOf(WithEntry(a, name, c), table) == TableOf(a, table)
  {
  }

  /**
   A state-root entry that appears between the snapshots spoils a pass exactly when it is stale or
   active: one that the collector classified as inconsistent or foreign falls through like expected
   residue, although the same classification of a durable row is an inconsistency.
   */
  lemma NewEntryExactly(b: Snapshot, a: Snapshot, expectRoot: bool, name: string, c: Class)
    requires b.version == 3 && name !in ManagedOf(b) && name !in ManagedOf(a)
    ensures Passes(b, WithEntry(a, name, c), expectRoot) <==> Passes(b, a, expectRoot) && !Leaks(c)
    ensures Managed(name) in OwnedLeaks(b, WithEntry(a, name, c)) <==> Leaks(c)
    ensures Inconsistencies(WithEntry(a, name, c)) == Inconsistencies(a)
  {
    hide Clean, FreeOfContradictions, Passes, ManagedOf;
    var a' := WithEntry(a, name, c);
    PassesIffClean(b, a, expectRoot);
    PassesIffClean(b, a', expectRoot);
    EntryIsClean(b, a, name, c);
    EntryIsKeyed(a, name, c);
    SameOtherwise(b, a, expectRoot, name, c);
    assert ManagedOf(a')[name] == c;
  }

  lemma SameOtherwise(b: Snapshot, a: Snapshot, expectRoot: bool, name: string, c: Class)
    ensures var a' := WithEntry(a, name, c);
            && (Blocked(b, a', expectRoot) <==> Blocked(b, a, expectRoot))
            && (FreeOfContradictions(a') <==> FreeOfContradictions(a))
            && Inconsistencies(a') == Inconsistencies(a)
  {
    var a' := WithEntry(a, name, c);
    assert forall section :: SectionOk(b, a', section) <==> SectionOk(b, a, section);
  }

  // ----- The aggregate -----

  datatype Negative = Negative(isStale: bool, observedFailed: bool, detected: bool, sourceCommit: string, runner: string)

  datatype Aggregate = AggregatePassed | AggregateFailed | AggregateBlocked

  /** The first result of a kind. */
  function FirstNegative(negatives: seq<Negative>, isStale: bool): Option<Negative> {
    if negatives == [] then None
    else if negatives[0].isStale == isStale then Some(negatives[0])
    else FirstNegative(negatives[1..], isStale)
  }

  function Total(verdicts: seq<Verdict>): nat {
    if verdicts == [] then 0
    else |verdicts[0].leaks| + |verdicts[0].inconsistencies| + |verdicts[0].foreignChanges| + Total(verdicts[1..])
  }

  lemma {:induction false} TotalIsZero(verdicts: seq<Verdict>)
    ensures Total(verdicts) == 0 <==>
            forall v :: v in verdicts ==> v.leaks == {} && v.inconsistencies == {} && v.foreignChanges == {}
    decreases |verdicts|
  {
    if verdicts != [] {
      TotalIsZero(verdicts[1..]);
      assert forall v :: v in verdicts <==> v == verdicts[0] || v in verdicts[1..];
    }
  }

  /** The inputs of an aggregate: nothing blocked, all of one commit and runner, and both negative tests among them. */
  predicate InputsComplete(normal: Verdict, verdicts: seq<Verdict>, negatives: seq<Negative>, sourceCommit: string, runner: string) {
    && !normal.status.Stopped? && verdicts != []
    && (forall v :: v in verdicts ==> !v.status.Stopped? && v.sourceCommit == sourceCommit && v.runner == runner)
    && (forall n :: n in negatives ==> n.sourceCommit == sourceCommit && n.runner == runner)
    && (exists n :: n in negatives && n.isStale) && (exists n :: n in negatives && !n.isStale)
  }

  method AggregateVerdicts(normal: Verdict, verdicts: seq<Verdict>, negatives: seq<Negative>, sourceCommit: string, runner: string)
    returns (status: Aggregate)
    ensures status.AggregateBlocked? <==> !InputsComplete(normal, verdicts, negatives, sourceCommit, runner)
    ensures status.AggregatePassed? <==>
            && verdicts != []
            && (forall v :: v in verdicts ==> v.status.Passed? && v.sourceCommit == sourceCommit && v.runner == runner)
            && (forall n :: n in negatives ==> n.sourceCommit == sourceCommit && n.runner == runner)
            && normal.status.Passed?
            && (forall v :: v in [normal] + verdicts ==> v.leaks == {} && v.inconsistencies == {} && v.foreignChanges == {})
            && (exists i :: 0 <= i < |negatives| && negatives[i].isStale
                  && (forall j :: 0 <= j < i ==> !negatives[j].isStale)
                  && negatives[i].observedFailed && negatives[i].detected)
            && (exists i :: 0 <= i < |negatives| && !negatives[i].isStale
                  && (forall j :: 0 <= j < i ==> negatives[j].isStale)
                  && negatives[i].observedFailed && negatives[i].detected)
  {
    TotalIsZero([normal] + verdicts);
    FirstOfKind(negatives, true);
    FirstOfKind(negatives, false);
    var allPassed := true;
    for i := 0 to |verdicts|
      invariant forall k :: 0 <= k < i ==>
        !verdicts[k].status.Stopped? && verdicts[k].sourceCommit == sourceCommit && verdicts[k].runner == runner
      invariant allPassed <==> forall k :: 0 <= k < i ==> verdicts[k].status.Passed?
    {
      if verdicts[i].status.Stopped? || verdicts[i].sourceCommit != sourceCommit || verdicts[i].runner != runner {
        assert verdicts[i] in verdicts;
        return AggregateBlocked;
      }
      allPassed := allPassed && verdicts[i].status.Passed?;
    }
    for i := 0 to |negatives|
      invariant forall k :: 0 <= k < i ==> negatives[k].sourceCommit == sourceCommit && negatives[k].runner == runner
    {
      if negatives[i].sourceCommit != sourceCommit || negatives[i].runner != runner {
        assert negatives[i] in negatives;
        return AggregateBlocked;
      }
    }
    if normal.status.Stopped? || verdicts == [] {
      return AggregateBlocked;
    }
    var stale, foreign := FirstNegative(negatives, true), FirstNegative(negatives, false);
    if stale.None? || foreign.None? {
      return AggregateBlocked;
    }
    assert InputsComplete(normal, verdicts, negatives, sourceCommit, runner);
    if normal.status.Passed? && allPassed && Total([normal] + verdicts) == 0
       && stale.value.observedFailed && stale.value.detected
       && foreign.value.observedFailed && foreign.value.detected
    {
      return AggregatePassed;
    }
    return AggregateFailed;
  }

  lemma {:induction false} FirstOfKind(negatives: seq<Negative>, isStale: bool)
    ensures var r := FirstNegative(negatives, isStale);
            && (r.None? <==> forall i :: 0 <= i < |negatives| ==> negatives[i].isStale != isStale)
            && (r.Some? ==> exists i :: 0 <= i < |negatives| && negatives[i].isStale == isStale && negatives[i] == r.value
                              && forall j :: 0 <= j < i ==> negatives[j].isStale != isStale)
    decreases |negatives|
  {
    if negatives != [] && negatives[0].isStale != isStale {
      FirstOfKind(negatives[1..], isStale);
      var r := FirstNegative(negatives, isStale);
      if r.Some? {
        var i :| 0 <= i < |negatives[1..]| && negatives[1..][i].isStale == isStale && negatives[1..][i] == r.value
                 && forall j :: 0 <= j < i ==> negatives[1..][j].isStale != isStale;
        assert negatives[i + 1] == r.value;
        assert forall j :: 0 < j < i + 1 ==> negatives[j] == negatives[1..][j - 1];
      }
    }
  }

  /** For verdicts that a comparison produced, a pass already means that nothing was counted. */
  lemma {:induction false} PassedCountsNothing(verdicts: seq<Verdict>)
    requires forall v :: v in verdicts ==> v.status.Passed?
    requires forall v :: v in verdicts ==>
               exists b, a, expectRoot :: v == Compare(b, a, expectRoot, v.sourceCommit, v.runner)
    ensures Total(verdicts) == 0
    decreases |verdicts|
  {
    if verdicts != [] {
      var v := verdicts[0];
      assert v in verdicts;
      var b, a, expectRoot :| v == Compare(b, a, expectRoot, v.sourceCommit, v.runner);
      PassedCountsNothing(verdicts[1..]);
    }
  }
}
