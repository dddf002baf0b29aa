/**
 Provisioning and cleanup of the run-scoped PostgreSQL databases: the ownership ledger is
 written before the first mutation, and cleanup removes only what the ledger names and the
 run's role owns. The server is abstract state; a process is the list of effects it still
 has to perform, and can die before any of them.
 */
module Provisioning {
  import opened Wrappers

  datatype Config = Config(run: string, sourceSha: string, endpoint: string, isLoopback: bool)

  /** Databases with their owners, and roles. */
  datatype Server = Server(databases: map<string, string>, roles: set<string>)

  datatype Ledger = Ledger(
    run: string,
    sourceSha: string,
    role: string,
    names: seq<string>,
    endpoint: string,
    provisioned: bool,
    cleaned: bool)

  // ----- Names -----

  const PREFIXES := ["o3k_pp5_s5_", "o3k_workspace_test_", "o3k_endpoint_test_", "o3k_p13_test_"]

  function Names(run: string): (names: seq<string>)
    ensures |names| == |PREFIXES|
  {
    seq(|PREFIXES|, i requires 0 <= i < |PREFIXES| => PREFIXES[i] + run)
  }

  function Underscored(run: string): (r: string)
    ensures |r| == |run|
  {
    seq(|run|, i requires 0 <= i < |run| => if run[i] == '-' then '_' else run[i])
  }

  function Role(run: string): string {
    "o3k_pp5_" + Underscored(run)
  }

  predicate NamesFit(run: string) {
    |Role(run)| <= 63 && forall i :: 0 <= i < |PREFIXES| ==> |Names(run)[i]| <= 63
  }

  predicate IsRunChar(c: char) {
    'a' <= c <= 'z' || 'A' <= c <= 'Z' || '0' <= c <= '9' || c == '-' || c == '_'
  }

  predicate IsRunId(run: string) {
    run != "" && forall c :: c in run ==> IsRunChar(c)
  }

  // ----- Effects -----

  datatype Effect =
    | OpenLedger
    | CreateRole
    | CreateDatabase(name: string)
    | PlantSentinel(name: string)
    | CompleteLedger
    | SaveEnv
    | DropDatabase(name: string)
    | DropRole
    | CloseLedger
    | RemoveEnv

  datatype World = World(server: Server, ledger: Option<Ledger>, envFile: bool)

  function NewLedger(c: Config): Ledger {
    Ledger(c.run, c.sourceSha, Role(c.run), Names(c.run), c.endpoint, false, false)
  }

  /** The world after one effect; None where the server refuses the statement. */
  function Perform(c: Config, w: World, e: Effect): Option<World> {
    var dbs, roles := w.server.databases, w.server.roles;
    match e
    case OpenLedger => Some(w.(ledger := Some(NewLedger(c))))
    case CreateRole =>
      if Role(c.run) in roles then None else Some(w.(server := Server(dbs, roles + {Role(c.run)})))
    case CreateDatabase(name) =>
      if name in dbs || Role(c.run) !in roles then None
      else Some(w.(server := Server(dbs[name := Role(c.run)], roles)))
    case PlantSentinel(name) => if name in dbs then Some(w) else None
    case CompleteLedger => Some(w.(ledger := Some(NewLedger(c).(provisioned := true))))
    case SaveEnv => Some(w.(envFile := true))
    case DropDatabase(name) => Some(w.(server := Server(dbs - {name}, roles)))
    case DropRole =>
      if exists name :: name in dbs && dbs[name] == Role(c.run) then None
      else Some(w.(server := Server(dbs, roles - {Role(c.run)})))
    case CloseLedger =>
      Some(if w.ledger.Some? then w.(ledger := Some(w.ledger.value.(cleaned := true))) else w)
    case RemoveEnv => Some(w.(envFile := false))
  }

  function Creates(names: seq<string>): seq<Effect> {
    seq(|names|, i requires 0 <= i < |names| => CreateDatabase(names[i]))
  }

  function Plants(names: seq<string>): seq<Effect> {
    seq(|names|, i requires 0 <= i < |names| => PlantSentinel(names[i]))
  }

  function Drops(names: seq<string>): seq<Effect> {
    seq(|names|, i requires 0 <= i < |names| => DropDatabase(names[i]))
  }

  function ProvisionEffects(c: Config): seq<Effect> {
    [OpenLedger, CreateRole] + Creates(Names(c.run)) + Plants(Names(c.run)) + [CompleteLedger, SaveEnv]
  }

  function CleanupEffects(c: Config): seq<Effect> {
    Drops(Names(c.run)) + [DropRole, CloseLedger, RemoveEnv]
  }

  // ----- What is checked before the first effect -----

  predicate RunNamesFree(c: Config, s: Server) {
    (forall i :: 0 <= i < |PREFIXES| ==> Names(c.run)[i] !in s.databases) && Role(c.run) !in s.roles
  }

  predicate MayProvision(c: Config, w: World) {
    IsRunId(c.run) && NamesFit(c.run) && RunNamesFree(c, w.server) && c.isLoopback
  }

  /** The ledger on disk is this run's, for this source and this server. */
  predicate IsLedgerOf(c: Config, l: Ledger) {
    l.run == c.run && l.sourceSha == c.sourceSha && l.role == Role(c.run) && l.names == Names(c.run) && l.endpoint == c.endpoint
  }

  predicate HasLedger(c: Config, w: World) {
    w.ledger.Some? && IsLedgerOf(c, w.ledger.value)
  }

  /** Every run-named database that exists belongs to the run's role. */
  predicate OwnsItsNames(c: Config, s: Server) {
    forall i :: 0 <= i < |PREFIXES| ==>
      Names(c.run)[i] in s.databases ==> s.databases[Names(c.run)[i]] == Role(c.run)
  }

  predicate MayCleanUp(c: Config, w: World) {
    IsRunId(c.run) && NamesFit(c.run) && HasLedger(c, w) && OwnsItsNames(c, w.server)
  }

  // ----- A process that dies after some effects -----

  function Execute(c: Config, w: World, effects: seq<Effect>, steps: nat): World
    decreases |effects|
  {
    if effects == [] || steps == 0 then w
    else
      var next := Perform(c, w, effects[0]);
      if next.None? then w else Execute(c, next.value, effects[1..], steps - 1)
  }

  function ProvisionWorld(c: Config, w: World, steps: nat): World {
    if MayProvision(c, w) then Execute(c, w, ProvisionEffects(c), steps) else w
  }

  function CleanupWorld(c: Config, w: World, steps: nat): World {
    if MayCleanUp(c, w) then Execute(c, w, CleanupEffects(c), steps) else w
  }

  /** The host the scripts run on, with the server they talk to. */
  class Host {
    var databases: map<string, string>
    var roles: set<string>
    var ledger: Option<Ledger>
    var envFile: bool

    constructor (server: Server, ledger: Option<Ledger>, envFile: bool)
      ensures State() == World(server, ledger, envFile)
    {
      databases, roles := server.databases, server.roles;
      this.ledger, this.envFile := ledger, envFile;
    }

    function State(): World
      reads this
    {
      World(Server(databases, roles), ledger, envFile)
    }

    /** The effect at place `i` of a script, unless the process dies first or the server refuses it. */
    method Try(c: Config, e: Effect, ghost script: seq<Effect>, ghost i: nat, steps: nat) returns (going: bool, left: nat)
      requires i < |script| && script[i] == e
      modifies this
      ensures Execute(c, old(State()), script[i..], steps) ==
              if going then Execute(c, State(), script[i + 1..], left) else State()
    {
      ExecuteAt(c, State(), script, i, steps);
      if steps == 0 {
        return false, 0;
      }
      var next := Perform(c, State(), e);
      if next.None? {
        return false, 0;
      }
      databases, roles := next.value.server.databases, next.value.server.roles;
      ledger, envFile := next.value.ledger, next.value.envFile;
      return true, steps - 1;
    }

    /** `provision`, dying after at most `steps` effects. */
    method Provision(c: Config, steps: nat)
      modifies this
      ensures State() == ProvisionWorld(c, old(State()), steps)
    {
      if !MayProvision(c, State()) {
        return;
      }
      ghost var script := ProvisionEffects(c);
      ghost var goal := Execute(c, State(), script, steps);
      var names, left, going := Names(c.run), steps, true;
      ProvisionOrder(c);
      assert script[0..] == script;
      assert goal == ProvisionWorld(c, State(), steps);
      ExecuteNothing(c, script, 12);
      hide *;
      going, left := Try(c, OpenLedger, script, 0, left);
      if !going { return; }
      going, left := Try(c, CreateRole, script, 1, left);
      if !going { return; }
      for i := 0 to |names|
        invariant goal == Execute(c, State(), script[2 + i..], left)
      {
        going, left := Try(c, CreateDatabase(names[i]), script, 2 + i, left);
        if !going { return; }
      }
      for i := 0 to |names|
        invariant goal == Execute(c, State(), script[6 + i..], left)
      {
        going, left := Try(c, PlantSentinel(names[i]), script, 6 + i, left);
        if !going { return; }
      }
      going, left := Try(c, CompleteLedger, script, 10, left);
      if !going { return; }
      going, left := Try(c, SaveEnv, script, 11, left);
    }

    /** `cleanup`, dying after at most `steps` effects. */
    method Cleanup(c: Config, steps: nat)
      modifies this
      ensures State() == CleanupWorld(c, old(State()), steps)
    {
      if !MayCleanUp(c, State()) {
        return;
      }
      ghost var script := CleanupEffects(c);
      ghost var goal := Execute(c, State(), script, steps);
      var names, left, going := Names(c.run), steps, true;
      CleanupOrder(c);
      assert script[0..] == script;
      assert goal == CleanupWorld(c, State(), steps);
      ExecuteNothing(c, script, 7);
      hide *;
      for i := 0 to |names|
        invariant goal == Execute(c, State(), script[i..], left)
      {
        going, left := Try(c, DropDatabase(names[i]), script, i, left);
        if !going { return; }
      }
      going, left := Try(c, DropRole, script, 4, left);
      if !going { return; }
      going, left := Try(c, CloseLedger, script, 5, left);
      if !going { return; }
      going, left := Try(c, RemoveEnv, script, 6, left);
    }
  }

  lemma ProvisionOrder(c: Config)
    ensures var es, names := ProvisionEffects(c), Names(c.run);
            && |names| == |PREFIXES| == 4 && |es| == 12
            && es[0] == OpenLedger && es[1] == CreateRole
            && (forall i :: 0 <= i < 4 ==> es[2 + i] == CreateDatabase(names[i]))
            && (forall i :: 0 <= i < 4 ==> es[6 + i] == PlantSentinel(names[i]))
            && es[10] == CompleteLedger && es[11] == SaveEnv
  {
  }

  lemma CleanupOrder(c: Config)
    ensures var es, names := CleanupEffects(c), Names(c.run);
            && |names| == |PREFIXES| == 4 && |es| == 7
            && (forall i :: 0 <= i < 4 ==> es[i] == DropDatabase(names[i]))
            && es[4] == DropRole && es[5] == CloseLedger && es[6] == RemoveEnv
  {
  }

  lemma ExecuteAt(c: Config, w: World, effects: seq<Effect>, i: nat, steps: nat)
    requires i < |effects|
    ensures Execute(c, w, effects[i..], steps) ==
            if steps > 0 && Perform(c, w, effects[i]).Some?
            then Execute(c, Perform(c, w, effects[i]).value, effects[i + 1..], steps - 1) else w
  {
  }

  lemma ExecuteNothing(c: Config, effects: seq<Effect>, i: nat)
    requires i == |effects|
    ensures forall w, steps :: Execute(c, w, effects[i..], steps) == w
  {
  }
}
