/**
 Safety of the campaign lock over every interleaving with crashes and failing calls, and
 the limits of it: what two invocations of one run can do, and which leftovers are final.
 */
module CampaignLockTheorems {
  import opened CampaignLock

  // ----- The invariant -----

  /** What a process past its first effect knows about the lock path. */
  predicate Knows(path: LockPath, p: Process) {
    match p.next
    case CreateOwner => path == Dir(p.run, Missing)
    case WriteOwner => path == Dir(p.run, Torn)
    case OpenDirectory => path == Dir(p.run, Complete(p.run))
    case SyncDirectory => path == Dir(p.run, Complete(p.run))
    case UndoUnlink => path.Dir? && path.maker == p.run
    case UndoRemove => path == Dir(p.run, Missing)
    case Unlink => path == Dir(p.run, Complete(p.run))
    case Remove => path == Dir(p.run, Missing)
    case _ => true
  }

  /** An acquire that has made the directory and not yet returned. */
  predicate Acquiring(p: Process) {
    IsAcquireCall(p.next) && !p.next.MakeDirectory?
  }

  /** A process that the directory belongs to for now. */
  predicate Engaged(p: Process) {
    Acquiring(p) || p.next.Unlink? || p.next.Remove?
  }

  /** Two processes of one run are both acquires, and at most one of them is past making the directory. */
  predicate Compatible(p: Process, q: Process) {
    p.run == q.run ==> IsAcquireCall(p.next) && IsAcquireCall(q.next) && !(Acquiring(p) && Acquiring(q))
  }

  ghost predicate Safe(s: State) {
    && (forall pid :: pid in s.processes ==> Knows(s.path, s.processes[pid]))
    && (forall p, q :: p in s.processes && q in s.processes && p != q ==> Compatible(s.processes[p], s.processes[q]))
    && (s.path.Dir? && s.path.owner.Complete? ==> s.path.owner.run == s.path.maker)
    && (forall r :: r in s.held ==> s.path.Dir? && s.path.maker == r)
    && (forall pid :: pid in s.processes && Acquiring(s.processes[pid]) ==> s.processes[pid].run !in s.held)
  }

  lemma StartKeepsSafe(s: State, e: Event)
    requires Safe(s) && (e.StartAcquire? || e.StartRelease?) && Admissible(s, e)
    ensures Safe(Apply(s, e))
  {
    hide Knows;
    var s' := Apply(s, e);
    assert Knows(s.path, Process(e.run, MakeDirectory)) && Knows(s.path, Process(e.run, CheckExists)) by {
      StartsIgnorant(s.path, e.run);
    }
    assert e.StartRelease? ==> forall q :: q in s.processes ==> s.processes[q].run != e.run;
    assert e.StartAcquire? ==> forall q :: q in s.processes && s.processes[q].run == e.run ==> IsAcquireCall(s.processes[q].next);
  }

  lemma StartsIgnorant(path: LockPath, run: Run)
    ensures Knows(path, Process(run, MakeDirectory)) && Knows(path, Process(run, CheckExists))
  {
  }

  lemma CrashKeepsSafe(s: State, pid: nat)
    requires Safe(s)
    ensures Safe(Exit(s, pid))
  {
  }

  /** Nobody but this process is engaged. */
  ghost predicate Alone(s: State, pid: nat) {
    forall q :: q in s.processes && q != pid ==> !Engaged(s.processes[q])
  }

  /** What every process of a safe state knows. */
  lemma EngagedKnows(s: State, pid: nat)
    requires Safe(s) && pid in s.processes
    ensures Knows(s.path, s.processes[pid])
    ensures Engaged(s.processes[pid]) ==> s.path.Dir? && s.path.maker == s.processes[pid].run
    ensures Acquiring(s.processes[pid]) ==> s.processes[pid].run !in s.held
    ensures s.path.Dir? && s.path.owner.Complete? ==> s.path.owner.run == s.path.maker
  {
  }

  /** An engaged process is alone, and so is one that finds the path free. */
  lemma EngagedIsAlone(s: State, pid: nat)
    requires Safe(s) && pid in s.processes
    requires Engaged(s.processes[pid]) || s.path.Free?
             || (s.processes[pid].next.ReadOwner? && s.path.Dir? && s.path.maker == s.processes[pid].run)
    ensures Alone(s, pid)
  {
    forall q | q in s.processes && q != pid
      ensures !Engaged(s.processes[q])
    {
      EngagedKnows(s, pid);
      EngagedKnows(s, q);
      assert Compatible(s.processes[pid], s.processes[q]);
    }
  }

  /** A process that is alone may change the path and move on when it knows its new position. */
  lemma MoveKeepsSafe(s: State, pid: nat, path: LockPath, call: Call)
    requires Safe(s) && pid in s.processes
    requires (path == s.path && !Engaged(Process(s.processes[pid].run, call))) || Alone(s, pid)
    requires IsAcquireCall(call) == IsAcquireCall(s.processes[pid].next)
    requires Knows(path, Process(s.processes[pid].run, call))
    requires path == s.path || (path.Dir? && path.maker == s.processes[pid].run && (s.path.Free? || s.path.maker == path.maker))
    requires path.Dir? && path.owner.Complete? ==> path.owner.run == path.maker
    requires Acquiring(Process(s.processes[pid].run, call)) ==> s.processes[pid].run !in s.held
    ensures Safe(Goto(s.(path := path), pid, call))
  {
    var s' := Goto(s.(path := path), pid, call);
    forall q | q in s'.processes && q != pid
      ensures Knows(s'.path, s'.processes[q])
      ensures Compatible(s'.processes[pid], s'.processes[q]) && Compatible(s'.processes[q], s'.processes[pid])
    {
      assert Compatible(s.processes[pid], s.processes[q]) && Knows(s.path, s.processes[q]);
    }
  }

  /** The run of a process that has made or claimed the directory may remove it. */
  lemma RemoveKeepsSafe(s: State, pid: nat)
    requires Safe(s) && pid in s.processes && Alone(s, pid)
    requires s.path == Dir(s.processes[pid].run, Missing)
    ensures Safe(Exit(s.(path := Free, held := s.held - {s.processes[pid].run}), pid))
    ensures s.processes[pid].run !in s.held ==> s.held - {s.processes[pid].run} == s.held
  {
  }

  /** An acquire that is done leaves its run as the holder. */
  lemma HoldKeepsSafe(s: State, pid: nat)
    requires Safe(s) && pid in s.processes && s.processes[pid].next.SyncDirectory?
    ensures Safe(Exit(s.(held := s.held + {s.processes[pid].run}), pid))
  {
    EngagedIsAlone(s, pid);
  }

  lemma AdvanceKeepsSafe(s: State, pid: nat, outcome: Outcome)
    requires Safe(s) && pid in s.processes
    ensures Safe(Apply(s, Advance(pid, outcome)))
  {
    hide Safe, Compatible, Alone;
    var p := s.processes[pid];
    EngagedKnows(s, pid);
    CrashKeepsSafe(s, pid);
    if outcome.Succeeds? && p.next.SyncDirectory? {
      HoldKeepsSafe(s, pid);
    }
    if Engaged(p) {
      EngagedIsAlone(s, pid);
    }
    match p.next
    case MakeDirectory =>
      if outcome.Succeeds? && s.path.Free? {
        EngagedIsAlone(s, pid);
        MoveKeepsSafe(s, pid, Dir(p.run, Missing), CreateOwner);
      }
    case CreateOwner =>
      MoveKeepsSafe(s, pid, Dir(p.run, Torn), WriteOwner);
      MoveKeepsSafe(s, pid, s.path, UndoUnlink);
    case WriteOwner =>
      MoveKeepsSafe(s, pid, Dir(p.run, Complete(p.run)), OpenDirectory);
      MoveKeepsSafe(s, pid, Dir(p.run, Complete(p.run)), UndoUnlink);
      MoveKeepsSafe(s, pid, s.path, UndoUnlink);
    case OpenDirectory =>
      MoveKeepsSafe(s, pid, s.path, SyncDirectory);
      MoveKeepsSafe(s, pid, s.path, UndoUnlink);
    case SyncDirectory =>
      MoveKeepsSafe(s, pid, s.path, UndoUnlink);
    case UndoUnlink =>
      MoveKeepsSafe(s, pid, Dir(p.run, Missing), UndoRemove);
    case UndoRemove =>
      RemoveKeepsSafe(s, pid);
    case CheckExists =>
      MoveKeepsSafe(s, pid, s.path, ReadOwner);
    case ReadOwner =>
      if s.path.Dir? && s.path.owner == Complete(p.run) {
        EngagedIsAlone(s, pid);
        MoveKeepsSafe(s, pid, s.path, Unlink);
      }
    case Unlink =>
      MoveKeepsSafe(s, pid, Dir(p.run, Missing), Remove);
    case Remove =>
      RemoveKeepsSafe(s, pid);
  }

  lemma StepKeepsSafe(s: State, e: Event)
    requires Safe(s) && Admissible(s, e)
    ensures Safe(Apply(s, e))
  {
    match e
    case StartAcquire(_, _) => StartKeepsSafe(s, e);
    case StartRelease(_, _) => StartKeepsSafe(s, e);
    case Advance(pid, outcome) =>
      if pid in s.processes {
        AdvanceKeepsSafe(s, pid, outcome);
      }
    case Crash(pid) => CrashKeepsSafe(s, pid);
  }

  lemma {:induction false} RunsAreSafe(s: State, events: seq<Event>)
    requires Safe(s) && Serial(s, events)
    ensures Safe(ApplyAll(s, events))
    decreases |events|
  {
    if events != [] {
      StepKeepsSafe(s, events[0]);
      RunsAreSafe(Apply(s, events[0]), events[1..]);
    }
  }

  // ----- What it means -----

  /** Over every serial run: at most one run holds the lock, and a complete record names the maker. */
  lemma MutualExclusion(events: seq<Event>, a: Run, b: Run)
    requires Serial(INITIAL, events)
    ensures var s := ApplyAll(INITIAL, events);
            && (a in s.held && b in s.held ==> a == b)
            && (a in s.held ==> s.path.Dir? && s.path.maker == a)
            && (s.path.Dir? && s.path.owner.Complete? ==> s.path.owner.run == s.path.maker)
  {
    RunsAreSafe(INITIAL, events);
  }

  /** In a safe state only a process of the run that made the directory removes it, or its record. */
  lemma OnlyTheMakerRemoves(s: State, e: Event)
    requires Safe(s) && s.path.Dir?
    ensures var s' := Apply(s, e);
            s'.path != s.path ==> e.Advance? && e.pid in s.processes && s.processes[e.pid].run == s.path.maker
  {
  }

  // ----- Two invocations of one run -----

  const A := Run("a", "1")
  const B := Run("b", "2")
  const C := Run("c", "3")

  /** The next calls of a process, all succeeding. */
  function Steps(pid: nat, n: nat): (events: seq<Event>)
    ensures |events| == n
  {
    seq(n, _ => Advance(pid, Succeeds))
  }

  function AcquireEvents(pid: nat, run: Run): seq<Event> {
    [StartAcquire(pid, run)] + Steps(pid, 4) + Steps(pid, 1)
  }

  /** What a run does to give the lock back. */
  function ReleaseEvents(pid: nat, run: Run): seq<Event> {
    [StartRelease(pid, run)] + Steps(pid, 4)
  }

  lemma {:induction false} ApplyAppend(s: State, a: seq<Event>, b: seq<Event>)
    ensures ApplyAll(s, a + b) == ApplyAll(ApplyAll(s, a), b)
    decreases |a|
  {
    if a == [] {
      assert a + b == b;
    } else {
      assert (a + b)[1..] == a[1..] + b;
      ApplyAppend(Apply(s, a[0]), a[1..], b);
    }
  }

  lemma ApplyOne(s: State, e: Event)
    ensures ApplyAll(s, [e]) == Apply(s, e)
  {
  }

  lemma ApplyTwo(s: State, e: Event, f: Event)
    ensures ApplyAll(s, [e, f]) == Apply(Apply(s, e), f)
  {
    assert [e, f] == [e] + [f];
    ApplyAppend(s, [e], [f]);
    ApplyOne(s, e);
    ApplyOne(Apply(s, e), f);
  }

  lemma OneStep(s: State, pid: nat)
    ensures ApplyAll(s, Steps(pid, 1)) == Apply(s, Advance(pid, Succeeds))
  {
    assert Steps(pid, 1) == [Advance(pid, Succeeds)];
    ApplyOne(s, Advance(pid, Succeeds));
  }

  lemma FourSteps(s: State, pid: nat)
    ensures var e := Advance(pid, Succeeds); ApplyAll(s, Steps(pid, 4)) == Apply(Apply(Apply(Apply(s, e), e), e), e)
  {
    hide Apply;
    var e := Advance(pid, Succeeds);
    assert Steps(pid, 4) == [e, e] + [e, e];
    ApplyAppend(s, [e, e], [e, e]);
    ApplyTwo(s, e, e);
    ApplyTwo(Apply(Apply(s, e), e), e, e);
  }

  /** Where an acquire that found the path free is after its first calls. */
  function AcquireAfter(s: State, pid: nat, run: Run, done: nat): State
    requires pid in s.processes && 1 <= done <= 4
  {
    s.(path := Dir(run, if done == 1 then Missing else if done == 2 then Torn else Complete(run)),
       processes := s.processes[pid := Process(run,
         if done == 1 then CreateOwner else if done == 2 then WriteOwner
         else if done == 3 then OpenDirectory else SyncDirectory)])
  }

  /** The calls by which an acquire makes the directory and its record. */
  lemma {:induction false} AcquireSteps(s: State, pid: nat, run: Run, done: nat)
    requires s.path.Free? && pid in s.processes && s.processes[pid] == Process(run, MakeDirectory) && 1 <= done <= 4
    ensures ApplyAll(s, Steps(pid, done)) == AcquireAfter(s, pid, run, done)
    decreases done
  {
    hide ApplyAll;
    if done == 1 {
      OneStep(s, pid);
    } else {
      AcquireSteps(s, pid, run, done - 1);
      assert Steps(pid, done) == Steps(pid, done - 1) + Steps(pid, 1);
      ApplyAppend(s, Steps(pid, done - 1), Steps(pid, 1));
      OneStep(AcquireAfter(s, pid, run, done - 1), pid);
    }
  }

  /** The calls by which a release reads and accepts the record. */
  lemma ReleaseReads(s: State, pid: nat, run: Run)
    requires pid in s.processes && s.processes[pid] == Process(run, CheckExists)
    requires s.path.Dir? && s.path.owner == Complete(run)
    ensures Apply(Apply(s, Advance(pid, Succeeds)), Advance(pid, Succeeds)) ==
            s.(processes := s.processes[pid := Process(run, Unlink)])
  {
    assert Apply(s, Advance(pid, Succeeds)) == s.(processes := s.processes[pid := Process(run, ReadOwner)]);
  }

  /** The calls by which it removes record and directory, whoever they belong to. */
  lemma ReleaseRemoves(s: State, pid: nat, run: Run)
    requires pid in s.processes && s.processes[pid] == Process(run, Unlink) && HasOwnerFile(s.path)
    ensures Apply(Apply(s, Advance(pid, Succeeds)), Advance(pid, Succeeds)) ==
            State(Free, s.processes - {pid}, s.held - {run})
  {
    var s' := Apply(s, Advance(pid, Succeeds));
    assert s' == s.(path := PutOwner(s.path, Missing), processes := s.processes[pid := Process(run, Remove)]);
    assert s'.processes - {pid} == s.processes - {pid};
  }

  lemma ReleaseSteps(s: State, pid: nat, run: Run)
    requires pid in s.processes && s.processes[pid] == Process(run, CheckExists)
    requires s.path.Dir? && s.path.owner == Complete(run)
    ensures ApplyAll(s, Steps(pid, 4)) == State(Free, s.processes - {pid}, s.held - {run})
  {
    hide Apply;
    FourSteps(s, pid);
    ReleaseReads(s, pid, run);
    var claimed := s.(processes := s.processes[pid := Process(run, Unlink)]);
    ReleaseRemoves(claimed, pid, run);
    assert claimed.processes - {pid} == s.processes - {pid};
  }

  lemma UndisturbedAcquire(s: State, pid: nat, run: Run)
    requires s.path.Free? && pid !in s.processes
    ensures ApplyAll(s, AcquireEvents(pid, run)) ==
            State(Dir(run, Complete(run)), s.processes, s.held + {run})
  {
    hide ApplyAll;
    var start := StartAcquire(pid, run);
    ApplyAppend(s, [start] + Steps(pid, 4), Steps(pid, 1));
    ApplyAppend(s, [start], Steps(pid, 4));
    ApplyOne(s, start);
    AcquireSteps(Apply(s, start), pid, run, 4);
    OneStep(ApplyAll(Apply(s, start), Steps(pid, 4)), pid);
    assert Apply(s, start).processes[pid := Process(run, SyncDirectory)] - {pid} == s.processes;
  }

  /** An acquire whose call after `done` good ones fails, and that then undoes what it did. */
  function FailedAcquireEvents(pid: nat, run: Run, done: nat, failure: Outcome): seq<Event> {
    [StartAcquire(pid, run)] + Steps(pid, done)
    + [Advance(pid, failure), Advance(pid, Succeeds)] + Steps(pid, 1)
  }

  lemma UndoRestores(s: State, pid: nat, run: Run, path: LockPath)
    requires s.path.Free? && pid !in s.processes && path.Dir?
    ensures var undoing := State(path, s.processes[pid := Process(run, UndoUnlink)], s.held);
            Apply(Apply(undoing, Advance(pid, Succeeds)), Advance(pid, Succeeds)) == s
  {
    var undoing := State(path, s.processes[pid := Process(run, UndoUnlink)], s.held);
    var unlinked := State(path.(owner := Missing), s.processes[pid := Process(run, UndoRemove)], s.held);
    assert Apply(undoing, Advance(pid, Succeeds)) == unlinked;
    assert unlinked.processes - {pid} == s.processes;
  }

  lemma FailureStartsUndo(s: State, pid: nat, run: Run, done: nat, failure: Outcome) returns (path: LockPath)
    requires pid in s.processes && 1 <= done <= 4 && !failure.Succeeds?
    ensures path.Dir?
    ensures Apply(AcquireAfter(s, pid, run, done), Advance(pid, failure)) ==
            s.(path := path, processes := s.processes[pid := Process(run, UndoUnlink)])
  {
    path := Apply(AcquireAfter(s, pid, run, done), Advance(pid, failure)).path;
  }

  /** Whichever call fails after the directory is made, an undisturbed acquire leaves no trace. */
  lemma FailedAcquireUndoesItself(s: State, pid: nat, run: Run, done: nat, failure: Outcome)
    requires s.path.Free? && pid !in s.processes && 1 <= done <= 4 && !failure.Succeeds?
    ensures ApplyAll(s, FailedAcquireEvents(pid, run, done, failure)) == s
  {
    hide ApplyAll, AcquireAfter;
    var start := StartAcquire(pid, run);
    var begun := Apply(s, start);
    var two := [Advance(pid, failure), Advance(pid, Succeeds)];
    ApplyAppend(s, [start] + Steps(pid, done) + two, Steps(pid, 1));
    ApplyAppend(s, [start] + Steps(pid, done), two);
    ApplyAppend(s, [start], Steps(pid, done));
    ApplyOne(s, start);
    AcquireSteps(begun, pid, run, done);
    var after := AcquireAfter(begun, pid, run, done);
    ApplyTwo(after, Advance(pid, failure), Advance(pid, Succeeds));
    OneStep(Apply(Apply(after, Advance(pid, failure)), Advance(pid, Succeeds)), pid);
    var path := FailureStartsUndo(begun, pid, run, done, failure);
    assert begun.processes[pid := Process(run, UndoUnlink)] == s.processes[pid := Process(run, UndoUnlink)];
    UndoRestores(s, pid, run, path);
  }

  lemma UndisturbedRelease(s: State, pid: nat, run: Run)
    requires s.path.Dir? && s.path.owner == Complete(run) && pid !in s.processes
    ensures ApplyAll(s, ReleaseEvents(pid, run)) == State(Free, s.processes, s.held - {run})
  {
    hide ApplyAll;
    var start := StartRelease(pid, run);
    ApplyAppend(s, [start], Steps(pid, 4));
    ApplyOne(s, start);
    ReleaseSteps(Apply(s, start), pid, run);
    assert Apply(s, start).processes - {pid} == s.processes;
  }

  /** Two releases of run A have both read its record; the first one completes. */
  function FirstRelease(): seq<Event> {
    [StartRelease(1, A), StartRelease(2, A)]
    + ([Advance(2, Succeeds), Advance(2, Succeeds)] + Steps(1, 4))
  }

  lemma AfterFirstRelease()
    ensures ApplyAll(State(Dir(A, Complete(A)), map[], {A}), FirstRelease()) ==
            State(Free, map[2 := Process(A, Unlink)], {})
  {
    hide ApplyAll;
    var s := State(Dir(A, Complete(A)), map[], {A});
    var read := [Advance(2, Succeeds), Advance(2, Succeeds)];
    ApplyAppend(s, [StartRelease(1, A), StartRelease(2, A)], read + Steps(1, 4));
    ApplyTwo(s, StartRelease(1, A), StartRelease(2, A));
    var started := s.(processes := map[1 := Process(A, CheckExists), 2 := Process(A, CheckExists)]);
    ApplyAppend(started, read, Steps(1, 4));
    ApplyTwo(started, Advance(2, Succeeds), Advance(2, Succeeds));
    ReleaseReads(started, 2, A);
    var claimed := s.(processes := map[1 := Process(A, CheckExists), 2 := Process(A, Unlink)]);
    assert started.processes[2 := Process(A, Unlink)] == claimed.processes;
    ReleaseSteps(claimed, 1, A);
    assert claimed.processes - {1} == map[2 := Process(A, Unlink)];
    assert {A} - {A} == {};
  }

  /** The second release goes on in a directory that run B has made since. */
  lemma SecondRelease()
    ensures ApplyAll(State(Dir(B, Complete(B)), map[2 := Process(A, Unlink)], {B}),
                     [Advance(2, Succeeds), Advance(2, Succeeds)]) == State(Free, map[], {B})
  {
    hide ApplyAll;
    var s := State(Dir(B, Complete(B)), map[2 := Process(A, Unlink)], {B});
    ApplyTwo(s, Advance(2, Succeeds), Advance(2, Succeeds));
    ReleaseRemoves(s, 2, A);
    assert s.processes - {2} == map[] && {B} - {A} == {B};
  }

  /**
   A release that overlaps another release of its run breaks the lock: the second release of
   run A, having read A's record, goes on to delete the record and the directory that run B
   has made since, and then run C acquires the lock as well.
   */
  lemma TwoReleasesBreakExclusion() returns (events: seq<Event>)
    ensures B in ApplyAll(INITIAL, events).held && C in ApplyAll(INITIAL, events).held
    ensures !Serial(INITIAL, events)
  {
    hide ApplyAll, Serial;
    var e1 := AcquireEvents(0, A);
    var e2 := e1 + FirstRelease();
    var e3 := e2 + AcquireEvents(3, B);
    var second := [Advance(2, Succeeds), Advance(2, Succeeds)];
    var e4 := e3 + second;
    events := e4 + AcquireEvents(4, C);
    UndisturbedAcquire(INITIAL, 0, A);
    assert INITIAL.held + {A} == {A};
    AfterFirstRelease();
    ApplyAppend(INITIAL, e1, FirstRelease());
    var released := State(Free, map[2 := Process(A, Unlink)], {});
    UndisturbedAcquire(released, 3, B);
    assert released.held + {B} == {B};
    ApplyAppend(INITIAL, e2, AcquireEvents(3, B));
    SecondRelease();
    ApplyAppend(INITIAL, e3, second);
    UndisturbedAcquire(State(Free, map[], {B}), 4, C);
    ApplyAppend(INITIAL, e4, AcquireEvents(4, C));
    TwoHoldersAreNotSerial(events, B, C);
  }

  lemma TwoHoldersAreNotSerial(events: seq<Event>, a: Run, b: Run)
    requires a != b && a in ApplyAll(INITIAL, events).held && b in ApplyAll(INITIAL, events).held
    ensures !Serial(INITIAL, events)
  {
    if Serial(INITIAL, events) {
      MutualExclusion(events, a, b);
    }
  }

  /** An acquire and a release of run A in flight together, started in either order. */
  function StartBoth(releaseFirst: bool): seq<Event> {
    if releaseFirst then [StartRelease(2, A), StartAcquire(1, A)] else [StartAcquire(1, A), StartRelease(2, A)]
  }

  /**
   A release that overlaps an acquire of its run breaks the lock, whichever started first: it
   removes the directory while the acquire is still to sync it, the acquire reports success
   without a directory, and then run B acquires the lock as well.
   */
  lemma AcquireAndReleaseBreakExclusion(releaseFirst: bool) returns (events: seq<Event>)
    ensures A in ApplyAll(INITIAL, events).held && B in ApplyAll(INITIAL, events).held
    ensures !Serial(INITIAL, events)
  {
    hide ApplyAll, Serial;
    var e1 := StartBoth(releaseFirst);
    var e2 := e1 + Steps(1, 4);
    var e3 := e2 + Steps(2, 4);
    var e4 := e3 + Steps(1, 1);
    events := e4 + AcquireEvents(3, B);
    var started := State(Free, map[1 := Process(A, MakeDirectory), 2 := Process(A, CheckExists)], {});
    BothStart(releaseFirst);
    AcquireSteps(started, 1, A, 4);
    ApplyAppend(INITIAL, e1, Steps(1, 4));
    var made := ApplyAll(started, Steps(1, 4));
    ReleaseSteps(made, 2, A);
    ApplyAppend(INITIAL, e2, Steps(2, 4));
    var gone := State(Free, map[1 := Process(A, SyncDirectory)], {});
    assert made.processes - {2} == gone.processes && made.held - {A} == {};
    OneStep(gone, 1);
    ApplyAppend(INITIAL, e3, Steps(1, 1));
    var late := Apply(gone, Advance(1, Succeeds));
    assert late == State(Free, gone.processes - {1}, {} + {A});
    UndisturbedAcquire(late, 3, B);
    ApplyAppend(INITIAL, e4, AcquireEvents(3, B));
    TwoHoldersAreNotSerial(events, A, B);
  }

  lemma BothStart(releaseFirst: bool)
    ensures ApplyAll(INITIAL, StartBoth(releaseFirst)) ==
            State(Free, map[1 := Process(A, MakeDirectory), 2 := Process(A, CheckExists)], {})
  {
    ApplyTwo(INITIAL, StartRelease(2, A), StartAcquire(1, A));
    ApplyTwo(INITIAL, StartAcquire(1, A), StartRelease(2, A));
  }

  // ----- Leftovers -----

  /** Nothing that is still running has a claim on the directory, and its record is not complete. */
  predicate Abandoned(s: State) {
    && s.path.Dir? && !s.path.owner.Complete?
    && forall pid :: pid in s.processes ==>
         s.processes[pid].next.MakeDirectory? || s.processes[pid].next.CheckExists? || s.processes[pid].next.ReadOwner?
  }

  lemma {:induction false} AbandonedForGood(s: State, events: seq<Event>)
    requires Abandoned(s)
    ensures Abandoned(ApplyAll(s, events))
    ensures ApplyAll(s, events).path == s.path && ApplyAll(s, events).held == s.held
    decreases |events|
  {
    if events != [] {
      assert Abandoned(Apply(s, events[0]));
      AbandonedForGood(Apply(s, events[0]), events[1..]);
    }
  }

  /**
   Once everything in flight is gone, a directory that is left behind can be given back if
   and only if its owner record is complete: a crash inside acquire before the record is
   written, or inside release after it is unlinked, blocks the lock for good.
   */
  lemma LeftoverIsRecoverableIffComplete(s: State)
    requires s.path.Dir? && s.processes == map[]
    ensures (exists events :: ApplyAll(s, events).path.Free?) <==> s.path.owner.Complete?
  {
    if s.path.owner.Complete? {
      UndisturbedRelease(s, 0, s.path.owner.run);
      assert ApplyAll(s, ReleaseEvents(0, s.path.owner.run)).path.Free?;
    } else {
      forall events
        ensures !ApplyAll(s, events).path.Free?
      {
        AbandonedForGood(s, events);
      }
    }
  }
}
