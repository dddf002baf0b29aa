/**
 The campaign lock of `p15-7-campaign-lock.py`: a directory made with mkdir and an owner
 record inside it. Every acquire and release is a process that advances by one file-system
 call at a time; calls of different processes interleave freely, any call can fail, and any
 process can crash between two calls.
 */
module CampaignLock {

  /** What an owner record is compared by: the run identifier and the source revision. */
  datatype Run = Run(id: string, sourceSha: string)

  /** The owner record: absent, created but not completely written, or complete. */
  datatype OwnerRecord = Missing | Torn | Complete(run: Run)

  /** The lock path: nothing there, or a directory made by a run and what it holds. */
  datatype LockPath = Free | Dir(maker: Run, owner: OwnerRecord)

  /** The next file-system call of a process. */
  datatype Call =
    // acquire
    | MakeDirectory
    | CreateOwner
    | WriteOwner
    | OpenDirectory
    | SyncDirectory
    | UndoUnlink
    | UndoRemove
    // release
    | CheckExists
    | ReadOwner
    | Unlink
    | Remove

  datatype Process = Process(run: Run, next: Call)

  datatype State = State(
    path: LockPath,
    processes: map<nat, Process>,
    held: set<Run>)

  const INITIAL := State(Free, map[], {})

  /** How a call ends; `FailsLate` is an error reported after the call took effect. */
  datatype Outcome = Succeeds | Fails | FailsLate

  datatype Event =
    | StartAcquire(pid: nat, run: Run)
    | StartRelease(pid: nat, run: Run)
    | Advance(pid: nat, outcome: Outcome)
    | Crash(pid: nat)

  function Exit(s: State, pid: nat): State {
    s.(processes := s.processes - {pid})
  }

  function Goto(s: State, pid: nat, call: Call): State
    requires pid in s.processes
  {
    s.(processes := s.processes[pid := s.processes[pid].(next := call)])
  }

  /** Writes to the owner record of the directory, if there is one. */
  function PutOwner(path: LockPath, owner: OwnerRecord): LockPath {
    if path.Dir? then path.(owner := owner) else path
  }

  predicate HasOwnerFile(path: LockPath) {
    path.Dir? && !path.owner.Missing?
  }

  predicate IsEmptyDir(path: LockPath) {
    path.Dir? && path.owner.Missing?
  }

  function AdvanceAcquire(s: State, pid: nat, outcome: Outcome): State
    requires pid in s.processes
  {
    var p := s.processes[pid];
    match p.next
    case MakeDirectory =>
      if outcome.Succeeds? && s.path.Free? then Goto(s.(path := Dir(p.run, Missing)), pid, CreateOwner)
      else Exit(s, pid)
    case CreateOwner =>
      // O_EXCL: refused when the file exists, and impossible without the directory.
      if outcome.Succeeds? && IsEmptyDir(s.path) then Goto(s.(path := PutOwner(s.path, Torn)), pid, WriteOwner)
      else Goto(s, pid, UndoUnlink)
    case WriteOwner =>
      if outcome.Fails? then Goto(s, pid, UndoUnlink)
      else
        var written := s.(path := if HasOwnerFile(s.path) then PutOwner(s.path, Complete(p.run)) else s.path);
        Goto(written, pid, if outcome.Succeeds? then OpenDirectory else UndoUnlink)
    case OpenDirectory =>
      if outcome.Succeeds? && s.path.Dir? then Goto(s, pid, SyncDirectory) else Goto(s, pid, UndoUnlink)
    case SyncDirectory =>
      // The directory is open by now: this works even when its name is gone.
      if outcome.Succeeds? then Exit(s.(held := s.held + {p.run}), pid)
      else Goto(s, pid, UndoUnlink)
    case UndoUnlink =>
      // A missing file is ignored; any other error leaves the directory behind.
      if outcome.Succeeds? then Goto(s.(path := PutOwner(s.path, Missing)), pid, UndoRemove)
      else Exit(s, pid)
    case UndoRemove =>
      if outcome.Succeeds? && IsEmptyDir(s.path) then Exit(s.(path := Free), pid)
      else Exit(s, pid)
    case _ => s
  }

  function AdvanceRelease(s: State, pid: nat, outcome: Outcome): State
    requires pid in s.processes
  {
    var p := s.processes[pid];
    match p.next
    case CheckExists =>
      if s.path.Free? then Exit(s, pid) else Goto(s, pid, ReadOwner)
    case ReadOwner =>
      if outcome.Succeeds? && s.path.Dir? && s.path.owner == Complete(p.run) then Goto(s, pid, Unlink)
      else Exit(s, pid)
    case Unlink =>
      if outcome.Succeeds? && HasOwnerFile(s.path) then Goto(s.(path := PutOwner(s.path, Missing)), pid, Remove)
      else Exit(s, pid)
    case Remove =>
      if outcome.Succeeds? && IsEmptyDir(s.path) then Exit(s.(path := Free, held := s.held - {p.run}), pid)
      else Exit(s, pid)
    case _ => s
  }

  predicate IsAcquireCall(c: Call) {
    || c.MakeDirectory? || c.CreateOwner? || c.WriteOwner? || c.OpenDirectory? || c.SyncDirectory?
    || c.UndoUnlink? || c.UndoRemove?
  }

  function Apply(s: State, e: Event): State {
    match e
    case StartAcquire(pid, run) =>
      if pid in s.processes then s else s.(processes := s.processes[pid := Process(run, MakeDirectory)])
    case StartRelease(pid, run) =>
      if pid in s.processes then s else s.(processes := s.processes[pid := Process(run, CheckExists)])
    case Advance(pid, outcome) =>
      if pid !in s.processes then s
      else if IsAcquireCall(s.processes[pid].next) then AdvanceAcquire(s, pid, outcome)
      else AdvanceRelease(s, pid, outcome)
    case Crash(pid) => Exit(s, pid)
  }

  function ApplyAll(s: State, events: seq<Event>): State
    decreases |events|
  {
    if events == [] then s else ApplyAll(Apply(s, events[0]), events[1..])
  }

  predicate InFlight(s: State, run: Run) {
    exists pid :: pid in s.processes && s.processes[pid].run == run
  }

  predicate Releasing(s: State, run: Run) {
    exists pid :: pid in s.processes && s.processes[pid].run == run && !IsAcquireCall(s.processes[pid].next)
  }

  /** A release overlaps no other invocation of its run; acquires of one run may overlap each other. */
  predicate Admissible(s: State, e: Event) {
    && (e.StartAcquire? ==> !Releasing(s, e.run))
    && (e.StartRelease? ==> !InFlight(s, e.run))
  }

  predicate Serial(s: State, events: seq<Event>)
    decreases |events|
  {
    events == [] || (Admissible(s, events[0]) && Serial(Apply(s, events[0]), events[1..]))
  }
}
