/**
 Crash recovery of provisioning and cleanup over every interleaving: one process of the run
 at a time, dying before any of its effects, among other clients that leave the run's own
 names alone.
 */
module ProvisioningTheorems {
  import opened Wrappers
  import opened Provisioning

  // ----- The machine -----

  /** The world, and what the process that is running still has to do. */
  datatype State = State(world: World, todo: seq<Effect>)

  datatype Event =
    | StartProvision
    | StartCleanup
    | Next
    | Crash
    | Foreign(server: Server)

  /** Owners are roles, as the server itself ensures. */
  ghost predicate Consistent(s: Server) {
    forall name :: name in s.databases ==> s.databases[name] in s.roles
  }

  predicate IsRunName(c: Config, name: string) {
    name in Names(c.run)
  }

  /** Other clients do not touch the run's databases or its role. */
  ghost predicate LeavesRunAlone(c: Config, s: Server, s': Server) {
    && Consistent(s')
    && (Role(c.run) in s.roles <==> Role(c.run) in s'.roles)
    && (forall name :: IsRunName(c, name) ==> (name in s.databases <==> name in s'.databases))
    && (forall name :: IsRunName(c, name) && name in s.databases ==> s.databases[name] == s'.databases[name])
    && (forall name :: name in s'.databases && !IsRunName(c, name) ==> s'.databases[name] != Role(c.run))
  }

  ghost predicate Possible(c: Config, s: State, e: Event) {
    match e
    case Foreign(server) => LeavesRunAlone(c, s.world.server, server)
    case StartProvision => s.todo == []
    case StartCleanup => s.todo == []
    case _ => true
  }

  function Apply(c: Config, s: State, e: Event): State {
    match e
    case StartProvision => if MayProvision(c, s.world) then s.(todo := ProvisionEffects(c)) else s
    case StartCleanup => if MayCleanUp(c, s.world) then s.(todo := CleanupEffects(c)) else s
    case Next =>
      if s.todo == [] then s
      else
        var next := Perform(c, s.world, s.todo[0]);
        if next.None? then s.(todo := []) else State(next.value, s.todo[1..])
    case Crash => s.(todo := [])
    case Foreign(server) => s.(world := s.world.(server := server))
  }

  function ApplyAll(c: Config, s: State, events: seq<Event>): State
    decreases |events|
  {
    if events == [] then s else ApplyAll(c, Apply(c, s, events[0]), events[1..])
  }

  ghost predicate AllPossible(c: Config, s: State, events: seq<Event>)
    decreases |events|
  {
    events == [] || (Possible(c, s, events[0]) && AllPossible(c, Apply(c, s, events[0]), events[1..]))
  }

  // ----- The invariant -----

  predicate AtProvision(c: Config, todo: seq<Effect>, k: nat) {
    k < |ProvisionEffects(c)| && todo == ProvisionEffects(c)[k..]
  }

  predicate AtCleanup(c: Config, todo: seq<Effect>, k: nat) {
    k < |CleanupEffects(c)| && todo == CleanupEffects(c)[k..]
  }

  /** Which of the run's databases the cleanup has dropped by its effect number `k`, and whether its role is gone. */
  predicate CleanedUpTo(c: Config, s: Server, k: nat) {
    && (forall i :: 0 <= i < |PREFIXES| && i < k ==> Names(c.run)[i] !in s.databases)
    && (k > |PREFIXES| ==> Role(c.run) !in s.roles)
  }

  /** The run's role owns only run-named databases, and only it owns those. */
  ghost predicate RoleOwnsExactlyRunNames(c: Config, s: Server) {
    forall name :: name in s.databases ==> (IsRunName(c, name) <==> s.databases[name] == Role(c.run))
  }

  ghost predicate Inv(c: Config, s: State) {
    && Consistent(s.world.server)
    && (s.todo == [] || (exists k :: AtProvision(c, s.todo, k)) || (exists k :: AtCleanup(c, s.todo, k)))
    && (AtProvision(c, s.todo, 0) ==> RunNamesFree(c, s.world.server))
    && (!HasLedger(c, s.world) ==> s.todo == [] || AtProvision(c, s.todo, 0))
    && (forall k :: k > 0 && AtProvision(c, s.todo, k) ==> HasLedger(c, s.world) && !s.world.ledger.value.cleaned)
    && (HasLedger(c, s.world) ==> RoleOwnsExactlyRunNames(c, s.world.server))
    && (forall k :: AtCleanup(c, s.todo, k) ==> CleanedUpTo(c, s.world.server, k))
    && (HasLedger(c, s.world) && s.world.ledger.value.cleaned ==> RunNamesFree(c, s.world.server))
  }

  // ----- Positions -----

  lemma ProvisionEffectAt(c: Config, k: nat)
    requires k < |ProvisionEffects(c)|
    ensures |PREFIXES| == 4 && |ProvisionEffects(c)| == 12
    ensures ProvisionEffects(c)[k] ==
            if k == 0 then OpenLedger
            else if k == 1 then CreateRole
            else if k < 6 then CreateDatabase(Names(c.run)[k - 2])
            else if k < 10 then PlantSentinel(Names(c.run)[k - 6])
            else if k == 10 then CompleteLedger
            else SaveEnv
  {
  }

  lemma CleanupEffectAt(c: Config, k: nat)
    requires k < |CleanupEffects(c)|
    ensures |PREFIXES| == 4 && |CleanupEffects(c)| == 7
    ensures CleanupEffects(c)[k] ==
            if k < 4 then DropDatabase(Names(c.run)[k])
            else if k == 4 then DropRole
            else if k == 5 then CloseLedger
            else RemoveEnv
  {
  }

  /** A list of effects is left from one place in one of the two scripts. */
  lemma OnePlace(c: Config, todo: seq<Effect>, j: nat, k: nat)
    ensures AtProvision(c, todo, j) && AtProvision(c, todo, k) ==> j == k
    ensures AtCleanup(c, todo, j) && AtCleanup(c, todo, k) ==> j == k
    ensures !(AtProvision(c, todo, j) && AtCleanup(c, todo, k))
  {
    if AtProvision(c, todo, j) && AtCleanup(c, todo, k) {
      LastEffects(c, todo, j, k);
    }
  }

  lemma LastEffects(c: Config, todo: seq<Effect>, j: nat, k: nat)
    ensures AtProvision(c, todo, j) ==> todo != [] && todo[|todo| - 1] == SaveEnv
    ensures AtCleanup(c, todo, k) ==> todo != [] && todo[|todo| - 1] == RemoveEnv
  {
  }

  lemma AtIsInside(c: Config, todo: seq<Effect>, k: nat)
    ensures AtProvision(c, todo, k) ==> k < |ProvisionEffects(c)| && todo != []
    ensures AtCleanup(c, todo, k) ==> k < |CleanupEffects(c)| && todo != []
  {
  }

  lemma NextPlace(c: Config, todo: seq<Effect>, k: nat)
    ensures AtProvision(c, todo, k) ==>
              todo[0] == ProvisionEffects(c)[k]
              && (if k + 1 < |ProvisionEffects(c)| then AtProvision(c, todo[1..], k + 1) else todo[1..] == [])
    ensures AtCleanup(c, todo, k) ==>
              todo[0] == CleanupEffects(c)[k]
              && (if k + 1 < |CleanupEffects(c)| then AtCleanup(c, todo[1..], k + 1) else todo[1..] == [])
  {
  }

  // ----- Steps -----

  /** The part of the invariant that does not mention the process. */
  ghost predicate WorldOk(c: Config, w: World) {
    && Consistent(w.server)
    && (HasLedger(c, w) ==> RoleOwnsExactlyRunNames(c, w.server))
    && (HasLedger(c, w) && w.ledger.value.cleaned ==> RunNamesFree(c, w.server))
  }

  lemma IdleIsInv(c: Config, w: World)
    requires WorldOk(c, w)
    ensures Inv(c, State(w, []))
  {
  }

  lemma AtProvisionIsInv(c: Config, w: World, todo: seq<Effect>, k: nat)
    requires WorldOk(c, w) && AtProvision(c, todo, k)
    requires k == 0 ==> RunNamesFree(c, w.server)
    requires k > 0 ==> HasLedger(c, w) && !w.ledger.value.cleaned
    ensures Inv(c, State(w, todo))
  {
    forall j
      ensures (AtProvision(c, todo, j) ==> j == k) && !AtCleanup(c, todo, j)
    {
      if j >= 0 {
        OnePlace(c, todo, k, j);
      }
    }
  }

  lemma AtCleanupIsInv(c: Config, w: World, todo: seq<Effect>, k: nat)
    requires WorldOk(c, w) && AtCleanup(c, todo, k) && HasLedger(c, w) && CleanedUpTo(c, w.server, k)
    ensures Inv(c, State(w, todo))
  {
    forall j
      ensures (AtCleanup(c, todo, j) ==> j == k) && !AtProvision(c, todo, j)
    {
      if j >= 0 {
        OnePlace(c, todo, j, k);
      }
    }
  }

  lemma NamesAreRunNames(c: Config, i: nat)
    requires i < |PREFIXES|
    ensures IsRunName(c, Names(c.run)[i])
  {
  }

  /** The effects of provisioning, from the ledger on. */
  lemma ProvisionEffectKeepsWorld(c: Config, w: World, k: nat)
    requires k < |ProvisionEffects(c)| && WorldOk(c, w)
    requires k == 0 ==> RunNamesFree(c, w.server)
    requires k > 0 ==> HasLedger(c, w) && !w.ledger.value.cleaned
    requires Perform(c, w, ProvisionEffects(c)[k]).Some?
    ensures var w' := Perform(c, w, ProvisionEffects(c)[k]).value; WorldOk(c, w') && HasLedger(c, w') && !w'.ledger.value.cleaned
  {
  }

  lemma CleanupEffectKeepsWorld(c: Config, w: World, k: nat)
    requires k < |CleanupEffects(c)| && WorldOk(c, w) && HasLedger(c, w) && CleanedUpTo(c, w.server, k)
    ensures Perform(c, w, CleanupEffects(c)[k]).Some?
    ensures var w' := Perform(c, w, CleanupEffects(c)[k]).value;
            WorldOk(c, w') && HasLedger(c, w') && CleanedUpTo(c, w'.server, k + 1)
  {
  }

  lemma DuringProvision(c: Config, s: State, k: nat)
    requires Inv(c, s) && AtProvision(c, s.todo, k)
    ensures WorldOk(c, s.world)
    ensures k == 0 ==> RunNamesFree(c, s.world.server)
    ensures k > 0 ==> HasLedger(c, s.world) && !s.world.ledger.value.cleaned
  {
  }

  lemma DuringCleanup(c: Config, s: State, k: nat)
    requires Inv(c, s) && AtCleanup(c, s.todo, k)
    ensures WorldOk(c, s.world) && HasLedger(c, s.world) && CleanedUpTo(c, s.world.server, k)
  {
  }

  lemma NextOfProvision(c: Config, s: State, k: nat)
    requires Inv(c, s) && AtProvision(c, s.todo, k)
    ensures Inv(c, Apply(c, s, Next))
  {
    hide Inv, ProvisionEffects, Perform, WorldOk, RunNamesFree, HasLedger;
    var s' := Apply(c, s, Next);
    NextPlace(c, s.todo, k);
    DuringProvision(c, s, k);
    if Perform(c, s.world, s.todo[0]).Some? {
      ProvisionEffectKeepsWorld(c, s.world, k);
      if k + 1 < |ProvisionEffects(c)| {
        AtProvisionIsInv(c, s'.world, s'.todo, k + 1);
      } else {
        IdleIsInv(c, s'.world);
      }
    } else {
      IdleIsInv(c, s.world);
    }
  }

  lemma NextOfCleanup(c: Config, s: State, k: nat)
    requires Inv(c, s) && AtCleanup(c, s.todo, k)
    ensures Inv(c, Apply(c, s, Next))
  {
    hide Inv, CleanupEffects, Perform, WorldOk, HasLedger, CleanedUpTo;
    var s' := Apply(c, s, Next);
    NextPlace(c, s.todo, k);
    DuringCleanup(c, s, k);
    CleanupEffectKeepsWorld(c, s.world, k);
    if k + 1 < |CleanupEffects(c)| {
      AtCleanupIsInv(c, s'.world, s'.todo, k + 1);
    } else {
      IdleIsInv(c, s'.world);
    }
  }

  lemma WhereItIs(c: Config, s: State) returns (k: nat)
    requires Inv(c, s) && s.todo != []
    ensures AtProvision(c, s.todo, k) || AtCleanup(c, s.todo, k)
  {
    hide AtProvision, AtCleanup;
    if j: nat :| AtProvision(c, s.todo, j) {
      k := j;
    } else {
      k :| AtCleanup(c, s.todo, k);
    }
  }

  lemma NextKeepsInv(c: Config, s: State)
    requires Inv(c, s) && s.todo != []
    ensures Inv(c, Apply(c, s, Next))
  {
    hide Inv, Apply, AtProvision, AtCleanup;
    var k := WhereItIs(c, s);
    if AtProvision(c, s.todo, k) {
      NextOfProvision(c, s, k);
    } else {
      NextOfCleanup(c, s, k);
    }
  }

  lemma ForeignKeepsInv(c: Config, s: State, server: Server)
    requires Inv(c, s) && LeavesRunAlone(c, s.world.server, server)
    ensures Inv(c, Apply(c, s, Foreign(server)))
  {
    hide PREFIXES, AtProvision, AtCleanup, IsLedgerOf;
    forall i | 0 <= i < |PREFIXES|
      ensures Names(c.run)[i] in server.databases <==> Names(c.run)[i] in s.world.server.databases
    {
      NamesAreRunNames(c, i);
    }
  }

  lemma StartKeepsInv(c: Config, s: State)
    requires Inv(c, s) && s.todo == []
    ensures Inv(c, Apply(c, s, StartProvision)) && Inv(c, Apply(c, s, StartCleanup))
  {
    if MayProvision(c, s.world) {
      assert AtProvision(c, ProvisionEffects(c), 0);
      AtProvisionIsInv(c, s.world, ProvisionEffects(c), 0);
    }
    if MayCleanUp(c, s.world) {
      assert AtCleanup(c, CleanupEffects(c), 0);
      AtCleanupIsInv(c, s.world, CleanupEffects(c), 0);
    }
  }

  lemma StepKeepsInv(c: Config, s: State, e: Event)
    requires Inv(c, s) && Possible(c, s, e)
    ensures Inv(c, Apply(c, s, e))
  {
    match e
    case StartProvision => StartKeepsInv(c, s);
    case StartCleanup => StartKeepsInv(c, s);
    case Next =>
      if s.todo != [] {
        NextKeepsInv(c, s);
      }
    case Crash => IdleIsInv(c, s.world);
    case Foreign(server) => ForeignKeepsInv(c, s, server);
  }

  lemma {:induction false} RunsKeepInv(c: Config, s: State, events: seq<Event>)
    requires Inv(c, s) && AllPossible(c, s, events)
    ensures Inv(c, ApplyAll(c, s, events))
    decreases |events|
  {
    if events != [] {
      StepKeepsInv(c, s, events[0]);
      RunsKeepInv(c, Apply(c, s, events[0]), events[1..]);
    }
  }

  // ----- What it means -----

  /** What on the server is not the run's. */
  function ForeignPart(c: Config, s: Server): Server {
    Server(map name | name in s.databases && name !in Names(c.run) :: s.databases[name], s.roles - {Role(c.run)})
  }

  lemma ProvisionEffectSparesForeigners(c: Config, w: World, k: nat)
    requires k < |ProvisionEffects(c)| && Perform(c, w, ProvisionEffects(c)[k]).Some?
    ensures ForeignPart(c, Perform(c, w, ProvisionEffects(c)[k]).value.server) == ForeignPart(c, w.server)
  {
  }

  lemma CleanupEffectSparesForeigners(c: Config, w: World, k: nat)
    requires k < |CleanupEffects(c)| && Perform(c, w, CleanupEffects(c)[k]).Some?
    ensures ForeignPart(c, Perform(c, w, CleanupEffects(c)[k]).value.server) == ForeignPart(c, w.server)
  {
  }

  /** No effect of ours, and no crash, ever changes a foreign database, its owner or a foreign role. */
  lemma OwnStepsSpareForeigners(c: Config, s: State, e: Event)
    requires Inv(c, s) && Possible(c, s, e) && !e.Foreign?
    ensures ForeignPart(c, Apply(c, s, e).world.server) == ForeignPart(c, s.world.server)
  {
    hide ForeignPart, Perform, Inv, AtProvision, AtCleanup;
    if e.Next? && s.todo != [] && Perform(c, s.world, s.todo[0]).Some? {
      var k := WhereItIs(c, s);
      NextPlace(c, s.todo, k);
      AtIsInside(c, s.todo, k);
      if AtProvision(c, s.todo, k) {
        ProvisionEffectSparesForeigners(c, s.world, k);
      } else {
        CleanupEffectSparesForeigners(c, s.world, k);
      }
    }
  }

  /** Until the ledger is on disk nothing of ours touches the server at all. */
  lemma LedgerComesFirst(c: Config, s: State, e: Event)
    requires Inv(c, s) && Possible(c, s, e) && !e.Foreign? && !HasLedger(c, s.world)
    ensures Apply(c, s, e).world.server == s.world.server
  {
  }

  lemma FreeMeansForeignOnly(c: Config, s: Server)
    requires RunNamesFree(c, s)
    ensures ForeignPart(c, s) == s
  {
  }

  /** Whenever the ledger says that cleanup completed, nothing of the run is left. */
  lemma ClosedLedgerIsTrue(c: Config, w: World, events: seq<Event>)
    requires WorldOk(c, w) && AllPossible(c, State(w, []), events)
    ensures var s := ApplyAll(c, State(w, []), events);
            HasLedger(c, s.world) && s.world.ledger.value.cleaned ==>
              RunNamesFree(c, s.world.server) && ForeignPart(c, s.world.server) == s.world.server
  {
    IdleIsInv(c, w);
    RunsKeepInv(c, State(w, []), events);
    var s := ApplyAll(c, State(w, []), events);
    if HasLedger(c, s.world) && s.world.ledger.value.cleaned {
      FreeMeansForeignOnly(c, s.world.server);
    }
  }

  /** Only effects of the process and other clients, no crash and no new start. */
  predicate Undisturbed(events: seq<Event>) {
    forall i :: 0 <= i < |events| ==> events[i].Next? || events[i].Foreign?
  }

  function NextCount(events: seq<Event>): nat {
    if events == [] then 0 else (if events[0].Next? then 1 else 0) + NextCount(events[1..])
  }

  predicate Finished(c: Config, s: State) {
    s.todo == [] && HasLedger(c, s.world) && s.world.ledger.value.cleaned
  }

  lemma {:induction false} FinishedStays(c: Config, s: State, events: seq<Event>)
    requires Finished(c, s) && Undisturbed(events)
    ensures Finished(c, ApplyAll(c, s, events))
    decreases |events|
  {
    if events != [] {
      assert events[0].Next? || events[0].Foreign?;
      UndisturbedTail(events);
      FinishedStays(c, Apply(c, s, events[0]), events[1..]);
    }
  }

  lemma UndisturbedTail(events: seq<Event>)
    requires Undisturbed(events) && events != []
    ensures Undisturbed(events[1..])
  {
  }

  /** One effect of a cleanup under way: it always succeeds. */
  lemma CleanupAdvances(c: Config, s: State, k: nat)
    requires Inv(c, s) && AtCleanup(c, s.todo, k)
    requires k == 6 ==> s.world.ledger.Some? && s.world.ledger.value.cleaned
    ensures var s' := Apply(c, s, Next);
            if k < 6 then AtCleanup(c, s'.todo, k + 1) && (k == 5 ==> s'.world.ledger.Some? && s'.world.ledger.value.cleaned)
            else Finished(c, s')
  {
    hide Inv, WorldOk, CleanedUpTo, CleanupEffects, Names, PREFIXES, IsLedgerOf;
    AtIsInside(c, s.todo, k);
    NextPlace(c, s.todo, k);
    CleanupEffectAt(c, k);
    DuringCleanup(c, s, k);
    CleanupEffectKeepsWorld(c, s.world, k);
  }

  /** A cleanup under way is never refused: with enough turns it finishes and everything of the run is gone. */
  lemma {:induction false} CleanupFinishes(c: Config, s: State, k: nat, events: seq<Event>)
    requires Inv(c, s) && AtCleanup(c, s.todo, k)
    requires k == 6 ==> s.world.ledger.Some? && s.world.ledger.value.cleaned
    requires Undisturbed(events) && AllPossible(c, s, events)
    requires NextCount(events) >= |CleanupEffects(c)| - k
    ensures var s' := ApplyAll(c, s, events); Finished(c, s') && RunNamesFree(c, s'.world.server)
    decreases |events|
  {
    RunsKeepInv(c, s, events);
    var next := Apply(c, s, events[0]);
    assert events[0].Next? || events[0].Foreign?;
    StepKeepsInv(c, s, events[0]);
    UndisturbedTail(events);
    if events[0].Foreign? {
      CleanupFinishes(c, next, k, events[1..]);
    } else {
      CleanupAdvances(c, s, k);
      if k < 6 {
        CleanupFinishes(c, next, k + 1, events[1..]);
      } else {
        FinishedStays(c, next, events[1..]);
      }
    }
  }

  // ----- Crash points -----

  lemma StoppingKeepsInv(c: Config, w: World, todo: seq<Effect>)
    requires Inv(c, State(w, todo))
    ensures Inv(c, State(w, []))
  {
    IdleIsInv(c, w);
  }

  lemma NextEffect(c: Config, w: World, todo: seq<Effect>)
    requires Inv(c, State(w, todo)) && todo != [] && Perform(c, w, todo[0]).Some?
    ensures var next := Perform(c, w, todo[0]).value;
            Inv(c, State(next, todo[1..])) && ForeignPart(c, next.server) == ForeignPart(c, w.server)
  {
    hide Inv, ForeignPart, Perform;
    NextKeepsInv(c, State(w, todo));
    OwnStepsSpareForeigners(c, State(w, todo), Next);
  }

  /** A process that dies after some of its effects leaves a world the invariant holds of. */
  lemma {:induction false} DyingKeepsInv(c: Config, w: World, todo: seq<Effect>, steps: nat)
    requires Inv(c, State(w, todo))
    ensures var w' := Execute(c, w, todo, steps);
            Inv(c, State(w', [])) && ForeignPart(c, w'.server) == ForeignPart(c, w.server)
    decreases |todo|
  {
    hide Inv, ForeignPart, Perform;
    if todo != [] && steps > 0 && Perform(c, w, todo[0]).Some? {
      NextEffect(c, w, todo);
      DyingKeepsInv(c, Perform(c, w, todo[0]).value, todo[1..], steps - 1);
    } else {
      StoppingKeepsInv(c, w, todo);
    }
  }

  lemma CleanupStep(c: Config, w: World, todo: seq<Effect>, k: nat)
    requires Inv(c, State(w, todo)) && AtCleanup(c, todo, k)
    requires k == 6 ==> w.ledger.Some? && w.ledger.value.cleaned
    ensures |CleanupEffects(c)| == 7 && Perform(c, w, todo[0]).Some?
    ensures var next := Perform(c, w, todo[0]).value;
            && Inv(c, State(next, todo[1..]))
            && (k < 6 ==> AtCleanup(c, todo[1..], k + 1))
            && (k == 5 ==> next.ledger.Some? && next.ledger.value.cleaned)
            && (k == 6 ==> todo[1..] == [] && Finished(c, State(next, [])) && !next.envFile)
  {
    hide Inv, AtCleanup, CleanupEffects, Perform, WorldOk, CleanedUpTo, HasLedger;
    var s := State(w, todo);
    AtIsInside(c, todo, k);
    CleanupEffectAt(c, k);
    NextPlace(c, todo, k);
    DuringCleanup(c, s, k);
    CleanupAdvances(c, s, k);
    NextKeepsInv(c, s);
    CleanupEffectKeepsWorld(c, w, k);
    EnvIsRemoved(c, w);
  }

  lemma EnvIsRemoved(c: Config, w: World)
    ensures Perform(c, w, RemoveEnv) == Some(w.(envFile := false))
  {
  }

  lemma {:induction false} FullCleanup(c: Config, w: World, todo: seq<Effect>, k: nat, steps: nat)
    requires Inv(c, State(w, todo)) && AtCleanup(c, todo, k) && steps >= |CleanupEffects(c)| - k
    requires k == 6 ==> w.ledger.Some? && w.ledger.value.cleaned
    ensures Finished(c, State(Execute(c, w, todo, steps), [])) && !Execute(c, w, todo, steps).envFile
    decreases |todo|
  {
    hide Inv, CleanupEffects, Perform, HasLedger, AtCleanup;
    AtIsInside(c, todo, k);
    CleanupEffectAt(c, k);
    CleanupStep(c, w, todo, k);
    var next := Perform(c, w, todo[0]).value;
    assert Execute(c, w, todo, steps) == Execute(c, next, todo[1..], steps - 1);
    if k < 6 {
      FullCleanup(c, next, todo[1..], k + 1, steps - 1);
    }
  }

  /** From an idle world with the run's ledger, a cleanup that is not killed leaves only foreign objects. */
  lemma CleanupRestores(c: Config, w: World, steps: nat)
    requires WorldOk(c, w) && IsRunId(c.run) && NamesFit(c.run) && HasLedger(c, w)
    requires steps >= |CleanupEffects(c)|
    ensures MayCleanUp(c, w)
    ensures CleanupWorld(c, w, steps).server == ForeignPart(c, w.server)
    ensures Finished(c, State(CleanupWorld(c, w, steps), [])) && !CleanupWorld(c, w, steps).envFile
  {
    assert OwnsItsNames(c, w.server) by {
      forall i | 0 <= i < |PREFIXES|
        ensures Names(c.run)[i] in w.server.databases ==> w.server.databases[Names(c.run)[i]] == Role(c.run)
      {
        NamesAreRunNames(c, i);
      }
    }
    var todo := CleanupEffects(c);
    assert AtCleanup(c, todo, 0);
    AtCleanupIsInv(c, w, todo, 0);
    FullCleanup(c, w, todo, 0, steps);
    DyingKeepsInv(c, w, todo, steps);
    FreeMeansForeignOnly(c, CleanupWorld(c, w, steps).server);
  }

  /**
   Provisioning dies after any number of effects, a first cleanup dies after any number of
   its own, and a second one completes: either the ledger was never written and the server
   is as it was, or it is exactly as it was before provisioning.
   */
  lemma CrashRecovery(c: Config, w: World, provisioned: nat, dropped: nat, steps: nat)
    requires WorldOk(c, w) && MayProvision(c, w) && steps >= |CleanupEffects(c)|
    ensures var w1 := ProvisionWorld(c, w, provisioned);
            var w2 := CleanupWorld(c, w1, dropped);
            var w3 := CleanupWorld(c, w2, steps);
            if provisioned == 0 then w1 == w
            else w3.server == w.server && Finished(c, State(w3, []))
  {
    if provisioned > 0 {
      var todo := ProvisionEffects(c);
      assert AtProvision(c, todo, 0);
      AtProvisionIsInv(c, w, todo, 0);
      DyingKeepsInv(c, w, todo, provisioned);
      FreeMeansForeignOnly(c, w.server);
      LedgerSurvives(c, w, provisioned);
      var w1 := ProvisionWorld(c, w, provisioned);
      CleanupRestores(c, w1, steps);
      var cleanup := CleanupEffects(c);
      assert AtCleanup(c, cleanup, 0);
      AtCleanupIsInv(c, w1, cleanup, 0);
      DyingKeepsInv(c, w1, cleanup, dropped);
      LedgerKept(c, w1, cleanup, dropped);
      CleanupRestores(c, CleanupWorld(c, w1, dropped), steps);
    }
  }

  /** No effect removes the ledger. */
  lemma {:induction false} LedgerKept(c: Config, w: World, todo: seq<Effect>, steps: nat)
    requires HasLedger(c, w)
    ensures HasLedger(c, Execute(c, w, todo, steps))
    decreases |todo|
  {
    if todo != [] && steps > 0 && Perform(c, w, todo[0]).Some? {
      LedgerKept(c, Perform(c, w, todo[0]).value, todo[1..], steps - 1);
    }
  }

  lemma LedgerSurvives(c: Config, w: World, steps: nat)
    requires MayProvision(c, w) && steps > 0
    ensures HasLedger(c, ProvisionWorld(c, w, steps))
  {
    ProvisionEffectAt(c, 0);
    LedgerKept(c, w.(ledger := Some(NewLedger(c))), ProvisionEffects(c)[1..], steps - 1);
  }

  /** Only a drop of a cleanup takes a database away. */
  lemma OnlyCleanupDrops(c: Config, s: State, name: string)
    requires Inv(c, s) && name in s.world.server.databases && name !in Apply(c, s, Next).world.server.databases
    ensures IsRunName(c, name) && HasLedger(c, s.world) && RoleOwnsExactlyRunNames(c, s.world.server)
  {
    hide Inv, AtProvision, AtCleanup, RoleOwnsExactlyRunNames, Names, IsRunName, ProvisionEffects, CleanupEffects, HasLedger;
    assert s.todo != [];
    var k := WhereItIs(c, s);
    NextPlace(c, s.todo, k);
    AtIsInside(c, s.todo, k);
    if AtProvision(c, s.todo, k) {
      ProvisionEffectAt(c, k);
    } else {
      CleanupEffectAt(c, k);
      DuringCleanup(c, s, k);
      if k < 4 {
        NamesAreRunNames(c, k);
      }
    }
  }

  /** In every state of every run, a database that a step of ours takes away belongs to the run's role. */
  lemma OnlyOwnedIsDropped(c: Config, w: World, events: seq<Event>, name: string)
    requires WorldOk(c, w) && AllPossible(c, State(w, []), events)
    requires var s := ApplyAll(c, State(w, []), events);
             name in s.world.server.databases && name !in Apply(c, s, Next).world.server.databases
    ensures ApplyAll(c, State(w, []), events).world.server.databases[name] == Role(c.run)
  {
    hide Inv, Apply, AllPossible, ApplyAll;
    IdleIsInv(c, w);
    RunsKeepInv(c, State(w, []), events);
    OnlyCleanupDrops(c, ApplyAll(c, State(w, []), events), name);
  }

  // ----- Limits -----

  /**
   The ownership check and the drops are separate statements. When another client does touch
   a run-named database that is still to be dropped, the next drop takes it although its owner
   is not the run's role.
   */
  lemma ForeignDatabaseDropped(c: Config, s: State, k: nat, owner: string)
    requires k < |PREFIXES| && AtCleanup(c, s.todo, k) && owner != Role(c.run)
    ensures var name := Names(c.run)[k];
            var server := s.world.server;
            var touched := Apply(c, s, Foreign(Server(server.databases[name := owner], server.roles + {owner})));
            && touched.world.server.databases[name] == owner
            && !OwnsItsNames(c, touched.world.server)
            && name !in Apply(c, touched, Next).world.server.databases
  {
    hide CleanupEffects, Names;
    CleanupEffectAt(c, k);
    NextPlace(c, s.todo, k);
    AtIsInside(c, s.todo, k);
    assert Names(c.run)[k] in s.world.server.databases[Names(c.run)[k] := owner];
  }

  /** Two runs share a role name exactly when they differ in nothing but dashes and underscores. */
  lemma RolesCoincide(a: string, b: string)
    ensures Role(a) == Role(b) <==> Underscored(a) == Underscored(b)
    ensures a != b && Role(a) == Role(b) ==> '-' in a || '-' in b
  {
    assert Role(a)[8..] == Underscored(a) && Role(b)[8..] == Underscored(b);
    if Role(a) == Role(b) && '-' !in a && '-' !in b {
      assert Underscored(a) == a && Underscored(b) == b;
    }
  }

  lemma {:induction false} RoleKept(c: Config, w: World, todo: seq<Effect>, steps: nat)
    requires Role(c.run) in w.server.roles && DropRole !in todo
    ensures Role(c.run) in Execute(c, w, todo, steps).server.roles
    decreases |todo|
  {
    if todo != [] && steps > 0 && Perform(c, w, todo[0]).Some? {
      assert todo[0] in todo && forall e :: e in todo[1..] ==> e in todo;
      RoleKept(c, Perform(c, w, todo[0]).value, todo[1..], steps - 1);
    }
  }

  lemma ProvisionDropsNoRole(c: Config)
    ensures DropRole !in ProvisionEffects(c)
  {
    forall k | 0 <= k < |ProvisionEffects(c)|
      ensures ProvisionEffects(c)[k] != DropRole
    {
      ProvisionEffectAt(c, k);
    }
  }

  /** Provisioning leaves the run's role behind exactly when it got past creating it. */
  lemma RoleIsLeft(c: Config, w: World, steps: nat)
    requires MayProvision(c, w)
    ensures Role(c.run) in ProvisionWorld(c, w, steps).server.roles <==> steps >= 2
  {
    hide ProvisionEffects, NamesFit;
    var es := ProvisionEffects(c);
    ProvisionOrder(c);
    ProvisionDropsNoRole(c);
    assert es[0..] == es;
    ExecuteAt(c, w, es, 0, steps);
    if steps >= 1 {
      var w1 := Perform(c, w, es[0]).value;
      ExecuteAt(c, w1, es, 1, steps - 1);
      if steps >= 2 {
        assert forall e :: e in es[2..] ==> e in es;
        RoleKept(c, Perform(c, w1, es[1]).value, es[2..], steps - 2);
      }
    }
  }

  /**
   What a shared role name costs: whatever provisioning of the first run left of it, complete or
   not, the second run's provisioning is refused and changes nothing.
   */
  lemma SharedRoleRefuses(first: Config, second: Config, w: World, steps: nat, more: nat)
    requires MayProvision(first, w) && steps >= 2 && Role(first.run) == Role(second.run)
    ensures var left := ProvisionWorld(first, w, steps);
            !MayProvision(second, left) && ProvisionWorld(second, left, more) == left
  {
    RoleIsLeft(first, w, steps);
    hide ProvisionEffects, NamesFit, Names, Execute;
  }

  // ----- When anything happens at all -----

  function RunDatabases(run: string): (names: seq<string>)
    ensures |names| == 4
  {
    ["o3k_pp5_s5_" + run, "o3k_workspace_test_" + run, "o3k_endpoint_test_" + run, "o3k_p13_test_" + run]
  }

  predicate IsRoleOf(role: string, run: string) {
    && |role| == 8 + |run| && role[..8] == "o3k_pp5_"
    && forall i :: 0 <= i < |run| ==> role[8 + i] == if run[i] == '-' then '_' else run[i]
  }

  predicate RunSafe(run: string) {
    && run != ""
    && forall c :: c in run ==> 'a' <= c <= 'z' || 'A' <= c <= 'Z' || '0' <= c <= '9' || c == '-' || c == '_'
  }

  predicate ShortEnough(run: string, role: string) {
    |role| <= 63 && forall i :: 0 <= i < 4 ==> |RunDatabases(run)[i]| <= 63
  }

  lemma NamesSpelledOut(run: string)
    ensures Names(run) == RunDatabases(run) && IsRoleOf(Role(run), run)
  {
    assert PREFIXES == ["o3k_pp5_s5_", "o3k_workspace_test_", "o3k_endpoint_test_", "o3k_p13_test_"];
  }

  lemma RoleIsUnique(role: string, run: string)
    requires IsRoleOf(role, run)
    ensures role == Role(run)
  {
    assert role == role[..8] + role[8..];
  }

  lemma RunIdIsSafe(run: string)
    ensures IsRunId(run) <==> RunSafe(run)
  {
  }

  /**
   Provisioning changes something, or even writes its ledger, only for a safe run identifier, names
   that fit, a loopback server, and names that neither a database nor a role has.
   */
  lemma ProvisionActsOnlyIf(c: Config, w: World, steps: nat, role: string)
    requires IsRoleOf(role, c.run) && ProvisionWorld(c, w, steps) != w
    ensures RunSafe(c.run) && ShortEnough(c.run, role) && c.isLoopback && role !in w.server.roles
    ensures forall i :: 0 <= i < 4 ==> RunDatabases(c.run)[i] !in w.server.databases
  {
    hide Execute, ProvisionEffects, Names, Role, RunDatabases, IsRoleOf;
    NamesSpelledOut(c.run);
    RoleIsUnique(role, c.run);
    RunIdIsSafe(c.run);
  }

  /** Under those conditions it creates exactly these databases and this role, and completes the ledger. */
  lemma ProvisionCompletes(c: Config, w: World, steps: nat, role: string)
    requires IsRoleOf(role, c.run) && steps >= 12
    requires RunSafe(c.run) && ShortEnough(c.run, role) && c.isLoopback && role !in w.server.roles
    requires forall i :: 0 <= i < 4 ==> RunDatabases(c.run)[i] !in w.server.databases
    ensures var names := RunDatabases(c.run);
            ProvisionWorld(c, w, steps) ==
            World(Server(w.server.databases[names[0] := role][names[1] := role][names[2] := role][names[3] := role],
                         w.server.roles + {role}),
                  Some(Ledger(c.run, c.sourceSha, role, names, c.endpoint, true, false)),
                  true)
  {
    NamesSpelledOut(c.run);
    RoleIsUnique(role, c.run);
    RunIdIsSafe(c.run);
    MayProvisionIf(c, w);
    DistinctNames(c.run);
    ProvisionOrder(c);
    ProvisionRuns(c, w, steps);
  }

  lemma MayProvisionIf(c: Config, w: World)
    requires Names(c.run) == RunDatabases(c.run) && IsRunId(c.run) && ShortEnough(c.run, Role(c.run)) && c.isLoopback
    requires Role(c.run) !in w.server.roles
    requires forall i :: 0 <= i < 4 ==> RunDatabases(c.run)[i] !in w.server.databases
    ensures MayProvision(c, w)
  {
    hide Names, Role, IsRunId, RunDatabases;
  }

  lemma DistinctNames(run: string)
    ensures forall i, j :: 0 <= i < j < 4 ==> RunDatabases(run)[i] != RunDatabases(run)[j]
  {
    var names := RunDatabases(run);
    assert names[0][4] == 'p' && names[1][4] == 'w' && names[2][4] == 'e' && names[3][4] == 'p';
    assert names[0][5] == 'p' && names[3][5] == '1';
  }

  /** The server with the four databases created, each by the run's role. */
  function Created(c: Config, s: Server): Server
    requires |Names(c.run)| == 4
  {
    var names, role := Names(c.run), Role(c.run);
    s.(databases := s.databases[names[0] := role][names[1] := role][names[2] := role][names[3] := role])
  }

  /** The twelve effects, one after the other. */
  lemma ProvisionRuns(c: Config, w: World, steps: nat)
    requires MayProvision(c, w) && steps >= 12 && |Names(c.run)| == 4
    requires forall i, j :: 0 <= i < j < 4 ==> Names(c.run)[i] != Names(c.run)[j]
    ensures ProvisionWorld(c, w, steps) ==
            World(Created(c, Server(w.server.databases, w.server.roles + {Role(c.run)})),
                  Some(NewLedger(c).(provisioned := true)), true)
  {
    hide ProvisionEffects, Names, Role, Execute, IsRunId, NamesFit, NewLedger, Perform;
    ProvisionOrder(c);
    var es := ProvisionEffects(c);
    LedgerAndRole(c, w, steps);
    var ready := World(Server(w.server.databases, w.server.roles + {Role(c.run)}), Some(NewLedger(c)), w.envFile);
    CreatesAll(c, ready, steps - 2);
    SentinelsAndLedger(c, ready.(server := Created(c, ready.server)), steps - 6);
  }

  lemma LedgerAndRole(c: Config, w: World, steps: nat)
    requires Role(c.run) !in w.server.roles && steps >= 2
    ensures |ProvisionEffects(c)| == 12
    ensures Execute(c, w, ProvisionEffects(c), steps) ==
            Execute(c, World(Server(w.server.databases, w.server.roles + {Role(c.run)}), Some(NewLedger(c)), w.envFile),
                    ProvisionEffects(c)[2..], steps - 2)
  {
    hide ProvisionEffects, Names, Role, Execute, NewLedger;
    ProvisionOrder(c);
    var es := ProvisionEffects(c);
    assert es[0..] == es;
    ExecuteAt(c, w, es, 0, steps);
    ExecuteAt(c, w.(ledger := Some(NewLedger(c))), es, 1, steps - 1);
  }

  lemma CreatesAll(c: Config, w: World, steps: nat)
    requires |ProvisionEffects(c)| == 12 && steps >= 4 && |Names(c.run)| == 4 && Role(c.run) in w.server.roles
    requires forall i, j :: 0 <= i < j < 4 ==> Names(c.run)[i] != Names(c.run)[j]
    requires forall i :: 0 <= i < 4 ==> Names(c.run)[i] !in w.server.databases
    ensures Execute(c, w, ProvisionEffects(c)[2..], steps) ==
            Execute(c, w.(server := Created(c, w.server)), ProvisionEffects(c)[6..], steps - 4)
  {
    hide ProvisionEffects, Names, Role, Execute;
    ProvisionOrder(c);
    var es, names, role := ProvisionEffects(c), Names(c.run), Role(c.run);
    CreateNext(c, w, es, 0, steps);
    var w1 := w.(server := Server(w.server.databases[names[0] := role], w.server.roles));
    CreateNext(c, w1, es, 1, steps - 1);
    var w2 := w.(server := Server(w1.server.databases[names[1] := role], w.server.roles));
    CreateNext(c, w2, es, 2, steps - 2);
    var w3 := w.(server := Server(w2.server.databases[names[2] := role], w.server.roles));
    CreateNext(c, w3, es, 3, steps - 3);
  }

  lemma CreateNext(c: Config, w: World, es: seq<Effect>, i: nat, steps: nat)
    requires i < 4 && |es| == 12 && |Names(c.run)| == 4 && es[2 + i] == CreateDatabase(Names(c.run)[i]) && steps > 0
    requires Names(c.run)[i] !in w.server.databases && Role(c.run) in w.server.roles
    ensures Execute(c, w, es[2 + i..], steps) ==
            Execute(c, w.(server := Server(w.server.databases[Names(c.run)[i] := Role(c.run)], w.server.roles)),
                    es[2 + i + 1..], steps - 1)
  {
    hide Names, Role, Execute;
    ExecuteAt(c, w, es, 2 + i, steps);
  }

  /** The sentinels leave no trace here; then the ledger is completed and the environment file written. */
  lemma SentinelsAndLedger(c: Config, w: World, steps: nat)
    requires steps >= 6 && |Names(c.run)| == 4 && forall i :: 0 <= i < 4 ==> Names(c.run)[i] in w.server.databases
    requires |ProvisionEffects(c)| == 12
    ensures Execute(c, w, ProvisionEffects(c)[6..], steps) ==
            World(w.server, Some(NewLedger(c).(provisioned := true)), true)
  {
    hide ProvisionEffects, Names, Role, Execute;
    ProvisionOrder(c);
    var es := ProvisionEffects(c);
    PlantNext(c, w, es, 0, steps);
    PlantNext(c, w, es, 1, steps - 1);
    PlantNext(c, w, es, 2, steps - 2);
    PlantNext(c, w, es, 3, steps - 3);
    ExecuteAt(c, w, es, 10, steps - 4);
    ExecuteAt(c, w.(ledger := Some(NewLedger(c).(provisioned := true))), es, 11, steps - 5);
    ExecuteNothing(c, es, 12);
  }

  lemma PlantNext(c: Config, w: World, es: seq<Effect>, i: nat, steps: nat)
    requires i < 4 && |es| == 12 && |Names(c.run)| == 4 && es[6 + i] == PlantSentinel(Names(c.run)[i]) && steps > 0
    requires Names(c.run)[i] in w.server.databases
    ensures Execute(c, w, es[6 + i..], steps) == Execute(c, w, es[6 + i + 1..], steps - 1)
  {
    hide Names, Execute;
    ExecuteAt(c, w, es, 6 + i, steps);
  }

  /**
   Cleanup changes something only with the run's own ledger, for this source and this server, and
   when every run-named database belongs to the run's role.
   */
  lemma CleanupActsOnlyIf(c: Config, w: World, steps: nat, role: string)
    requires IsRoleOf(role, c.run) && CleanupWorld(c, w, steps) != w
    ensures RunSafe(c.run) && ShortEnough(c.run, role)
    ensures w.ledger.Some?
    ensures var l := w.ledger.value;
            && l.run == c.run && l.sourceSha == c.sourceSha && l.role == role && l.names == RunDatabases(c.run)
            && l.endpoint == c.endpoint
    ensures forall i :: 0 <= i < 4 && RunDatabases(c.run)[i] in w.server.databases ==>
              w.server.databases[RunDatabases(c.run)[i]] == role
  {
    hide Execute, CleanupEffects, Names, Role, RunDatabases, IsRoleOf;
    NamesSpelledOut(c.run);
    RoleIsUnique(role, c.run);
    RunIdIsSafe(c.run);
  }

  /** When a run-named database has another owner, cleanup refuses and changes nothing, however far it is let run. */
  lemma CleanupRefusesForeignOwner(c: Config, w: World, steps: nat, i: nat, role: string)
    requires IsRoleOf(role, c.run) && i < 4
    requires RunDatabases(c.run)[i] in w.server.databases && w.server.databases[RunDatabases(c.run)[i]] != role
    ensures CleanupWorld(c, w, steps) == w
  {
    hide CleanupWorld, RunDatabases, IsRoleOf;
    if CleanupWorld(c, w, steps) != w {
      CleanupActsOnlyIf(c, w, steps, role);
    }
  }

  lemma {:induction false} OnlyListedAreDropped(c: Config, w: World, todo: seq<Effect>, steps: nat, name: string)
    requires name in w.server.databases && DropDatabase(name) !in todo
    ensures name in Execute(c, w, todo, steps).server.databases
    decreases |todo|
  {
    if todo != [] && steps > 0 && Perform(c, w, todo[0]).Some? {
      assert todo[0] in todo && forall e :: e in todo[1..] ==> e in todo;
      OnlyListedAreDropped(c, Perform(c, w, todo[0]).value, todo[1..], steps - 1, name);
    }
  }

  /** From any world whatever, a database that cleanup takes away was one of the four and belonged to the run's role. */
  lemma CleanupDropsOnlyOwned(c: Config, w: World, steps: nat, name: string, role: string)
    requires IsRoleOf(role, c.run)
    requires name in w.server.databases && name !in CleanupWorld(c, w, steps).server.databases
    ensures name in RunDatabases(c.run) && w.server.databases[name] == role
  {
    hide Execute, CleanupEffects, RunDatabases, IsRoleOf, Names, Role;
    CleanupActsOnlyIf(c, w, steps, role);
    NamesSpelledOut(c.run);
    if name !in Names(c.run) {
      NotAmongDrops(c, name);
      OnlyListedAreDropped(c, w, CleanupEffects(c), steps, name);
    }
  }

  lemma NotAmongDrops(c: Config, name: string)
    requires name !in Names(c.run)
    ensures DropDatabase(name) !in CleanupEffects(c)
  {
    forall k | 0 <= k < |CleanupEffects(c)|
      ensures CleanupEffects(c)[k] != DropDatabase(name)
    {
      CleanupEffectAt(c, k);
    }
  }
}
