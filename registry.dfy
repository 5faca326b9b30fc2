/** The foreground runner and its single-slot process registry
    (backend/executor/sandbox.py: `_active_local_process`, `run_local`,
    `stop_local` and the `_cleanup` watcher). Child processes are abstract
    handles; which of them are still running is part of the state. Each
    block the source runs under `_active_local_lock` is one atomic step. */
module Registry {
  import opened Types
  import opened Workspace
  import opened OutputProtocol

  /** A child process started by `run_local` (a `Popen` object). */
  type Handle = nat

  /** The registry slot, the processes still running, and every handle
      ever launched (so a new launch is known to be a new process). */
  datatype RegistryState = RegistryState(slot: Option<Handle>, alive: set<Handle>, launched: set<Handle>)

  const Initial := RegistryState(None, {}, {})

  /** The handles in the slot, as a set of zero or one. */
  function Registered(s: RegistryState): set<Handle> {
    match s.slot
    case None => {}
    case Some(h) => {h}
  }

  /** The registry invariant: only launched processes are registered, and no
      launched process runs unless it is the registered one. */
  predicate Consistent(s: RegistryState) {
    Registered(s) <= s.launched && s.alive <= Registered(s)
  }

  // ---------------------------------------------------------------------
  // The atomic steps

  /** What `stop_local` returns. */
  datatype StopReply = StopReply(stopped: bool, message: string)

  const StoppedMessage := "Local process stopped."
  const NothingRunningMessage := "No local process was running."

  /** The slot holds a process that has not exited (`proc.poll() is None`). */
  predicate SlotRunning(s: RegistryState) {
    s.slot.Some? && s.slot.value in s.alive
  }

  /** `stop_local`'s reply. */
  function StopReplyOf(s: RegistryState): StopReply {
    if SlotRunning(s) then StopReply(true, StoppedMessage) else StopReply(false, NothingRunningMessage)
  }

  /** `stop_local`: take and clear the slot, then terminate the taken process
      (killing it if it outlives the grace period). */
  function AfterStop(s: RegistryState): RegistryState {
    RegistryState(None, s.alive - Registered(s), s.launched)
  }

  /** `Popen` starts `h`, then the locked block registers it. */
  function Install(s: RegistryState, h: Handle): RegistryState {
    RegistryState(Some(h), s.alive + {h}, s.launched + {h})
  }

  /** A successful `run_local`: stop first, then start and register `h`. */
  function AfterLaunch(s: RegistryState, h: Handle): RegistryState {
    Install(AfterStop(s), h)
  }

  /** Process `h` ends on its own (the learner closes its window). */
  function AfterExit(s: RegistryState, h: Handle): RegistryState {
    s.(alive := s.alive - {h})
  }

  /** The watcher of `h`, once `h` has exited: clear the slot only if it
      still holds `h`. */
  function AfterCleanup(s: RegistryState, h: Handle): RegistryState {
    if s.slot == Some(h) then s.(slot := None) else s
  }

  /** What `Popen` did. */
  datatype LaunchOutcome = Spawned(handle: Handle) | SpawnFailed(message: string)

  const StartedLogs := "Running on your desktop \U{2014} an OpenCV window should appear.\nPress 'q' in the OpenCV window to quit."

  /** The state after `run_local`; `writable` says whether every upload could
      be written (a failing write raises before `Popen` is reached). */
  function LocalState(s: RegistryState, writable: bool, launch: LaunchOutcome): RegistryState {
    if !writable then AfterStop(s)
    else
      match launch
      case Spawned(h) => AfterLaunch(s, h)
      case SpawnFailed(_) => AfterStop(s)
  }

  /** What `run_local` returns; `None` when the exception of a failing upload
      write escapes it. */
  function LocalReply(writable: bool, launch: LaunchOutcome): Option<ExecResult> {
    if !writable then None
    else
      match launch
      case Spawned(_) => Some(ExecResult(None, StartedLogs, ""))
      case SpawnFailed(e) => Some(ExecResult(None, "", "Failed to launch: " + e))
  }

  // ---------------------------------------------------------------------
  // Properties of single steps

  /** `stop_local` always empties the slot, and reports `stopped` exactly
      when the process it took was still running. */
  lemma StopEmptiesSlot(s: RegistryState)
    ensures AfterStop(s).slot == None
    ensures StopReplyOf(s).stopped <==> s.slot.Some? && s.slot.value in s.alive
    ensures !SlotRunning(AfterStop(s))
  {
  }

  /** Stopping twice is stopping once, and the second call reports that
      nothing was running. */
  lemma StopIdempotent(s: RegistryState)
    ensures AfterStop(AfterStop(s)) == AfterStop(s)
    ensures StopReplyOf(AfterStop(s)) == StopReply(false, NothingRunningMessage)
  {
  }

  /** Under the invariant, after a stop no launched process is running. */
  lemma StopLeavesNothingRunning(s: RegistryState)
    requires Consistent(s)
    ensures AfterStop(s).alive == {}
  {
  }

  /** A launch leaves exactly the new process registered and running; the
      process registered before it no longer runs. */
  lemma LaunchReplaces(s: RegistryState, h: Handle)
    requires Consistent(s)
    requires h !in s.launched
    ensures AfterLaunch(s, h).slot == Some(h)
    ensures AfterLaunch(s, h).alive == {h}
    ensures s.slot.Some? ==> s.slot.value !in AfterLaunch(s, h).alive
  {
  }

  /** The watcher of an earlier process never evicts a later launch. */
  lemma StaleCleanupKeepsLaterLaunch(s: RegistryState, h: Handle, earlier: Handle)
    requires h !in s.launched
    requires earlier in s.launched
    ensures AfterCleanup(AfterLaunch(s, h), earlier).slot == Some(h)
  {
  }

  // ---------------------------------------------------------------------
  // Traces of steps

  /** One atomic step of the foreground runner or of its environment. */
  datatype Event =
    | Launch(handle: Handle)   // `run_local` whose `Popen` returned `handle`
    | LaunchFails              // `run_local` whose write or `Popen` raised
    | Stop                     // `stop_local`
    | Exit(handle: Handle)     // the process ends on its own
    | Cleanup(handle: Handle)  // the watcher's locked block, after `proc.wait()` returned

  /** When an event can happen: `Popen` yields a new process, and a watcher
      runs only for a launched process that has exited. */
  predicate Enabled(s: RegistryState, e: Event) {
    match e
    case Launch(h) => h !in s.launched
    case Cleanup(h) => h in s.launched && h !in s.alive
    case _ => true
  }

  function Step(s: RegistryState, e: Event): RegistryState {
    match e
    case Launch(h) => AfterLaunch(s, h)
    case LaunchFails => AfterStop(s)
    case Stop => AfterStop(s)
    case Exit(h) => AfterExit(s, h)
    case Cleanup(h) => AfterCleanup(s, h)
  }

  /** The state after the events, in order. */
  function Run(s: RegistryState, events: seq<Event>): RegistryState
    decreases |events|
  {
    if events == [] then s else Step(Run(s, events[..|events| - 1]), events[|events| - 1])
  }

  /** Every event is enabled in the state it happens in. */
  predicate Admissible(s: RegistryState, events: seq<Event>)
    decreases |events|
  {
    events == [] ||
    (Admissible(s, events[..|events| - 1]) && Enabled(Run(s, events[..|events| - 1]), events[|events| - 1]))
  }

  /** Every enabled step keeps the invariant. */
  lemma StepKeepsConsistent(s: RegistryState, e: Event)
    requires Consistent(s) && Enabled(s, e)
    ensures Consistent(Step(s, e))
  {
  }

  /** The invariant holds after any admissible trace: at most one launched
      process runs, and it is the registered one. */
  lemma {:induction false} RunKeepsConsistent(s: RegistryState, events: seq<Event>)
    requires Consistent(s) && Admissible(s, events)
    ensures Consistent(Run(s, events))
    ensures |Run(s, events).alive| <= 1
    decreases |events|
  {
    if events != [] {
      var init := events[..|events| - 1];
      RunKeepsConsistent(s, init);
      StepKeepsConsistent(Run(s, init), events[|events| - 1]);
    }
    var t := Run(s, events);
    assert |Registered(t)| <= 1;
    SubsetCardinality(t.alive, Registered(t));
  }

  lemma SubsetCardinality(a: set<Handle>, b: set<Handle>)
    requires a <= b
    ensures |a| <= |b|
  {
    assert b == a + (b - a);
  }

  /** An event that leaves `h` in the slot: an exit, or the watcher of
      another process. */
  predicate Spares(e: Event, h: Handle) {
    e.Exit? || (e.Cleanup? && e.handle != h)
  }

  /** A registered process stays registered until a stop, a new launch
      attempt, or its own watcher. */
  lemma {:induction false} RegisteredUntilReplaced(s: RegistryState, h: Handle, events: seq<Event>)
    requires s.slot == Some(h)
    requires forall k :: 0 <= k < |events| ==> Spares(events[k], h)
    ensures Run(s, events).slot == Some(h)
    decreases |events|
  {
    if events != [] {
      var init := events[..|events| - 1];
      assert forall k :: 0 <= k < |init| ==> init[k] == events[k];
      RegisteredUntilReplaced(s, h, init);
      assert Spares(events[|events| - 1], h);
    }
  }

  /** Were `run_local`'s two locked blocks (the stop, then the registration)
      interleaved by two overlapping calls, the first process would keep
      running outside the slot, out of reach of `stop_local`. */
  lemma OverlappingLaunchesOrphanAProcess()
    ensures var t := Install(Install(AfterStop(AfterStop(Initial)), 1), 2);
      && t.slot == Some(2) && 1 in t.alive && !Consistent(t)
      && 1 in AfterStop(t).alive
  {
  }

  // ---------------------------------------------------------------------
  // The registry object

  class ProcessRegistry {
    /** `_active_local_process`. */
    var slot: Option<Handle>
    /** The launched processes that have not exited. */
    var alive: set<Handle>
    /** Every process `run_local` has started. */
    var launched: set<Handle>

    function State(): RegistryState
      reads this
    {
      RegistryState(slot, alive, launched)
    }

    constructor ()
      ensures State() == Initial
    {
      slot, alive, launched := None, {}, {};
    }

    /** `stop_local()`. */
    method StopLocal() returns (reply: StopReply)
      modifies this
      ensures State() == AfterStop(old(State()))
      ensures reply == StopReplyOf(old(State()))
      ensures slot == None
      ensures reply.stopped <==> old(slot).Some? && old(slot).value in old(alive)
      ensures Consistent(old(State())) ==> Consistent(State())
    {
      var proc := slot;
      slot := None;
      if proc.Some? && proc.value in alive {
        // terminate(), wait up to 3 seconds, kill() if still running
        alive := alive - {proc.value};
        reply := StopReply(true, StoppedMessage);
      } else {
        reply := StopReply(false, NothingRunningMessage);
      }
    }

    /** `run_local(code, uploaded_files)`. `spawn` is what `Popen` does when
        started in the run directory it is given: the directory holding
        `kata.py` with `code` and the written uploads. */
    method RunLocal(code: string, uploads: Option<seq<Upload>>, spawn: Files -> LaunchOutcome)
      returns (reply: Option<ExecResult>)
      requires var launch := spawn(Materialised(code, uploads));
        UploadsWritable(uploads) && launch.Spawned? ==> launch.handle !in launched
      modifies this
      ensures State() == LocalState(old(State()), UploadsWritable(uploads), spawn(Materialised(code, uploads)))
      ensures reply == LocalReply(UploadsWritable(uploads), spawn(Materialised(code, uploads)))
      ensures Consistent(old(State())) ==> Consistent(State())
      ensures reply.Some? && reply.value.error == "" ==>
        && spawn(Materialised(code, uploads)).Spawned?
        && slot == Some(spawn(Materialised(code, uploads)).handle)
      ensures reply.Some? && reply.value.error == "" && Consistent(old(State())) ==>
        alive == {spawn(Materialised(code, uploads)).handle}
    {
      var stopped := StopLocal();
      var dir, ok := Materialise(code, uploads);
      if !ok {
        return None;
      }
      var launch := spawn(dir.files);
      match launch {
        case SpawnFailed(e) =>
          reply := Some(ExecResult(None, "", "Failed to launch: " + e));
        case Spawned(h) =>
          alive, launched := alive + {h}, launched + {h};
          slot := Some(h);
          reply := Some(ExecResult(None, StartedLogs, ""));
      }
    }

    /** Process `h` ends on its own; nothing in the registry changes. */
    method Exit(h: Handle)
      modifies this
      ensures State() == AfterExit(old(State()), h)
    {
      alive := alive - {h};
    }

    /** The locked block of `_cleanup` for `h`, run once `proc.wait()` returned. */
    method Cleanup(h: Handle)
      requires h !in alive
      modifies this
      ensures State() == AfterCleanup(old(State()), h)
      ensures old(slot) != Some(h) ==> slot == old(slot)
      ensures slot != Some(h)
    {
      if slot == Some(h) {
        slot := None;
      }
    }
  }
}
