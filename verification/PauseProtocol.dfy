/**
 The hand-over of the SDK context between the tick thread and one client thread:
 `TickGroup::pause`, `resume`, `stop` and `start` against `TickGroup::thread_main`, in internal mode.

 Every shared load or store is one step, and a run is any sequence of events, so a theorem
 about all event sequences is a theorem about all interleavings (sequentially consistent).
 start() is one step: while it runs there is no tick thread to see its stores.
 */
module PauseProtocol {

  /** What the tick thread does next. */
  datatype TickPc =
    | LoadStop      // loop head: stop_requested_
    | LoadRequest   // pause_request_, together with the local `paused`
    | EnterPause    // inside enter_pause(): uses the SDK context
    | StoreReady
    | LoadRelease   // parked: pause_release_
    | LeavePause    // inside leave_pause(): uses the SDK context
    | ClearReady
    | ClearRequest
    | ClearRelease
    | RunCycle      // inside run_cycle(): uses the SDK context
    | Exited

  /** What the client does next. */
  datatype ClientPc =
    | Idle
    | PauseLoadRunning
    | PauseLoadReady     // the "already paused" shortcut
    | PauseClearRelease
    | PauseStoreRequest
    | PauseWait          // the polling loop, up to the deadline
    | ResumeStore
    | StopStoreStop
    | StopStoreRelease
    | StopJoin
    | StopClearRunning

  datatype State = State(
    running: bool, stop: bool, request: bool, ready: bool, release: bool,
    tick: TickPc, paused: bool,
    client: ClientPc,
    holds: bool // the client owns the context: from pause() returning kOk until resume(), stop() or start()
  )

  datatype Event = Tick | ClientStep | DeadlinePasses | BeginPause | BeginResume | BeginStop | Start

  /** The state right after the first start() has created the thread. */
  const START := State(true, false, false, false, false, LoadStop, false, Idle, false)

  function TickStep(s: State): (t: State)
    ensures t.client == s.client && t.running == s.running && t.stop == s.stop && t.holds == s.holds
  {
    match s.tick
    case LoadStop => s.(tick := if s.stop then Exited else LoadRequest)
    case LoadRequest =>
      s.(tick := if s.request && !s.paused then EnterPause else if s.paused then LoadRelease else RunCycle)
    case EnterPause => s.(paused := true, tick := StoreReady)
    case StoreReady => s.(ready := true, tick := LoadRelease)
    case LoadRelease => s.(tick := if s.release then LeavePause else LoadStop)
    case LeavePause => s.(paused := false, tick := ClearReady)
    case ClearReady => s.(ready := false, tick := ClearRequest)
    case ClearRequest => s.(request := false, tick := ClearRelease)
    case ClearRelease => s.(release := false, tick := LoadStop)
    case RunCycle => s.(tick := LoadStop)
    case Exited => s
  }

  function ClientNext(s: State): State {
    match s.client
    case Idle => s
    case PauseLoadRunning =>
      if s.running then s.(client := PauseLoadReady) else s.(client := Idle, holds := true)
    case PauseLoadReady =>
      if s.ready then s.(client := Idle, holds := true) else s.(client := PauseClearRelease)
    case PauseClearRelease => s.(release := false, client := PauseStoreRequest)
    case PauseStoreRequest => s.(request := true, client := PauseWait)
    case PauseWait => if s.ready then s.(client := Idle, holds := true) else s
    case ResumeStore => s.(release := true, client := Idle)
    case StopStoreStop => s.(stop := true, client := StopStoreRelease)
    case StopStoreRelease => s.(release := true, client := StopJoin)
    case StopJoin => if s.tick == Exited then s.(client := StopClearRunning) else s
    case StopClearRunning => s.(running := false, client := Idle)
  }

  function Step(s: State, e: Event): State {
    match e
    case Tick => TickStep(s)
    case ClientStep => ClientNext(s)
    case DeadlinePasses => if s.client == PauseWait then s.(client := Idle) else s
    case BeginPause => if s.client == Idle then s.(client := PauseLoadRunning) else s
    case BeginResume => if s.client == Idle then s.(client := ResumeStore, holds := false) else s
    case BeginStop =>
      if s.client == Idle && s.running then s.(client := StopStoreStop, holds := false) else s
    case Start => if s.client == Idle && !s.running then Started(s) else s
  }

  /** A new thread, on the flags that the last lifetime left: only stop_requested_ is cleared. */
  function Started(s: State): State {
    s.(running := true, stop := false, tick := LoadStop, paused := false, holds := false)
  }

  function Run(s: State, es: seq<Event>): State
    decreases |es|
  {
    if es == [] then s else Run(Step(s, es[0]), es[1..])
  }

  predicate TickUsesContext(s: State) {
    s.tick.EnterPause? || s.tick.LeavePause? || s.tick.RunCycle?
  }

  /** The SDK's rule: never two threads in one context. */
  predicate Exclusive(s: State) {
    !(s.holds && TickUsesContext(s))
  }

  /** A release was stored that the tick thread has yet to act on: `pause_ready_` is, or may
      still become, true on behalf of the pause that is being released. */
  predicate ResumePending(s: State) {
    && s.running
    && s.release
    && (s.ready || (s.request && !s.tick.ClearRequest? && !s.tick.ClearRelease?))
  }

  /** No pause() begins while a release is pending. */
  predicate Patient(s: State, es: seq<Event>)
    decreases |es|
  {
    es == [] ||
    (&& (es[0] == BeginPause && s.client == Idle ==> !ResumePending(s))
     && Patient(Step(s, es[0]), es[1..]))
  }

  // ---------------------------------------------------------------- safety

  /** The ready flag of an earlier lifetime: the new thread has not parked yet. It still stands
      beside the request and the release of that lifetime. */
  predicate Stale(s: State) {
    && s.ready && !s.paused && s.release
    && (s.tick.LoadStop? || s.tick.LoadRequest? || s.tick.EnterPause? || s.tick.Exited?)
  }

  predicate TickInv(s: State) {
    && (s.tick.EnterPause? || s.tick.StoreReady? || s.ready ==> s.request)
    && (s.tick.StoreReady? || s.tick.LoadRelease? || s.tick.LeavePause? ==> s.paused)
    && (s.paused ==>
          s.tick.StoreReady? || s.tick.LoadRelease? || s.tick.LeavePause?
          || s.tick.LoadStop? || s.tick.LoadRequest? || s.tick.Exited?)
    && (s.ready ==> s.paused || s.tick.ClearReady? || Stale(s))
    && (s.paused ==> s.ready || s.tick.StoreReady?)
    && (s.tick.ClearReady? ==> s.ready)
    && (s.tick.StoreReady? && s.ready ==> s.release)
    && (s.tick.Exited? ==> s.stop)
  }

  /** The client is inside stop(). */
  predicate Stopping(c: ClientPc) {
    c.StopStoreStop? || c.StopStoreRelease? || c.StopJoin? || c.StopClearRunning?
  }

  /** The client is inside pause(), past the load of running_. */
  predicate Pausing(c: ClientPc) {
    c.PauseLoadReady? || c.PauseClearRelease? || c.PauseStoreRequest? || c.PauseWait?
  }

  predicate StopInv(s: State) {
    && (!s.running ==> s.tick.Exited? && !Stopping(s.client) && !Pausing(s.client))
    && (s.client.StopClearRunning? ==> s.tick.Exited?)
    && (Stopping(s.client) ==> !s.holds)
    && (s.stop && s.running ==> Stopping(s.client) && !s.client.StopStoreStop?)
    && (s.client.StopStoreRelease? || s.client.StopJoin? ==> s.stop)
    && ((s.client.StopJoin? || s.client.StopClearRunning?) && !s.release ==>
          s.stop && (s.tick.LoadStop? || s.tick.Exited?) && !s.ready)
    && (!s.running && s.ready ==> s.release)
  }

  predicate OwnerInv(s: State) {
    && (s.tick.LeavePause? || s.tick.ClearReady? ==> s.release)
    && (s.client.PauseLoadRunning? || s.client.PauseLoadReady? || s.client.PauseClearRelease? ==>
          !ResumePending(s))
    && (s.client.PauseStoreRequest? || s.client.PauseWait? ==> !s.release)
    && (s.holds && s.running ==> s.ready && !s.release)
    && (s.client.PauseClearRelease? ==> !s.holds)
    && (s.client.PauseStoreRequest? || s.client.PauseWait? || s.client.ResumeStore? ==> !s.holds)
  }

  predicate Inv(s: State) {
    TickInv(s) && StopInv(s) && OwnerInv(s)
  }

  lemma InvTick(s: State)
    requires Inv(s)
    ensures Inv(TickStep(s))
  {
    match s.tick
    case LoadStop =>
    case LoadRequest =>
    case EnterPause =>
    case StoreReady =>
    case LoadRelease =>
    case LeavePause =>
    case ClearReady =>
    case ClearRequest =>
    case ClearRelease =>
    case RunCycle =>
    case Exited =>
  }

  lemma InvClient(s: State)
    requires Inv(s)
    ensures Inv(ClientNext(s))
  {
    match s.client
    case Idle =>
    case PauseLoadRunning =>
    case PauseLoadReady =>
    case PauseClearRelease =>
    case PauseStoreRequest =>
    case PauseWait =>
    case ResumeStore =>
    case StopStoreStop =>
    case StopStoreRelease =>
    case StopJoin =>
    case StopClearRunning =>
  }

  lemma InvStep(s: State, e: Event)
    requires Inv(s)
    requires e == BeginPause && s.client == Idle ==> !ResumePending(s)
    ensures Inv(Step(s, e))
  {
    match e
    case Tick => InvTick(s);
    case ClientStep => InvClient(s);
    case DeadlinePasses =>
    case BeginPause =>
    case BeginResume =>
    case BeginStop =>
    case Start =>
  }

  lemma {:induction false} InvRun(s: State, es: seq<Event>)
    requires Inv(s) && Patient(s, es)
    ensures Inv(Run(s, es))
    decreases |es|
  {
    if es != [] {
      InvStep(s, es[0]);
      InvRun(Step(s, es[0]), es[1..]);
    }
  }

  /** In every interleaving, over any number of lifetimes from start() to stop(), if the client
      never pauses while a release is pending, the tick thread and the client never hold the SDK
      context together. */
  lemma PatientClientIsExclusive(es: seq<Event>)
    requires Patient(START, es)
    ensures Exclusive(Run(START, es))
  {
    InvRun(START, es);
  }

  // ---------------------------------------------------------------- the condition is exact

  function Ticks(n: nat): (es: seq<Event>)
    ensures |es| == n && forall k :: 0 <= k < n ==> es[k] == Tick
  {
    if n == 0 then [] else [Tick] + Ticks(n - 1)
  }

  /** No further call begins. */
  predicate NoNewCall(es: seq<Event>) {
    forall k :: 0 <= k < |es| ==> es[k] in {Tick, ClientStep, DeadlinePasses}
  }

  lemma {:induction false} RunConcat(s: State, a: seq<Event>, b: seq<Event>)
    ensures Run(s, a + b) == Run(Run(s, a), b)
    decreases |a|
  {
    if a == [] {
      assert a + b == b;
    } else {
      assert (a + b)[1..] == a[1..] + b;
      RunConcat(Step(s, a[0]), a[1..], b);
    }
  }

  lemma {:induction false} NoNewCallIsPatient(s: State, es: seq<Event>)
    requires NoNewCall(es)
    ensures Patient(s, es)
    decreases |es|
  {
    if es != [] {
      assert es[0] in {Tick, ClientStep, DeadlinePasses};
      NoNewCallIsPatient(Step(s, es[0]), es[1..]);
    }
  }

  /** The tick steps from `pc` to the next use of the context when a released pause is seen. */
  function StepsToLeave(pc: TickPc): nat {
    match pc
    case LeavePause => 0
    case LoadRelease => 1
    case StoreReady => 2
    case EnterPause => 3
    case LoadRequest => 4
    case LoadStop => 5
    case RunCycle => 6
    case _ => 7
  }

  /** The tick thread, left alone with a pending release, arrives inside leave_pause(). */
  lemma {:induction false} DrivesToLeave(s: State) returns (n: nat)
    requires TickInv(s) && !s.stop && s.release && !s.tick.Exited?
    requires s.ready || (s.request && !s.tick.ClearRequest? && !s.tick.ClearRelease?)
    requires !s.tick.ClearReady?
    ensures Run(s, Ticks(n)) == s.(tick := LeavePause, ready := true, paused := true)
    ensures NoNewCall(Ticks(n))
    decreases StepsToLeave(s.tick)
  {
    if s.tick.LeavePause? {
      n := 0;
    } else {
      var t := TickStep(s);
      var m := DrivesToLeave(t);
      n := m + 1;
      assert Ticks(n)[1..] == Ticks(m);
    }
  }

  ghost predicate Unsafe(s: State) {
    exists es :: NoNewCall(es) && !Exclusive(Run(Step(s, BeginPause), es))
  }

  lemma {:induction false} TicksKeepClient(s: State, n: nat)
    ensures var t := Run(s, Ticks(n));
            t.client == s.client && t.running == s.running && t.stop == s.stop && t.holds == s.holds
    decreases n
  {
    if n > 0 {
      RunCons(s, Tick, Ticks(n - 1));
      TicksKeepClient(TickStep(s), n - 1);
    }
  }

  lemma RunCons(s: State, e: Event, es: seq<Event>)
    ensures Run(s, [e] + es) == Run(Step(s, e), es)
  {
    assert ([e] + es)[1..] == es;
  }

  /** The "already paused" shortcut taken between the clearing of the pause and line 472. */
  lemma ShortcutAtClearReady(s: State)
    requires Inv(s) && s.running && s.client.Idle? && s.ready && s.tick.ClearReady?
    ensures Unsafe(s)
  {
    var s1 := Step(s, BeginPause);
    var s2 := Step(s1, ClientStep);
    var s3 := Step(s2, ClientStep);
    var n := ReleasedThreadRestarts(s3);
    TicksKeepClient(s3, n);
    RunCons(s2, ClientStep, Ticks(n));
    RunCons(s1, ClientStep, [ClientStep] + Ticks(n));
    assert NoNewCall([ClientStep] + ([ClientStep] + Ticks(n)));
  }

  /** The shortcut taken earlier in the same window: the thread then sees the old release. */
  lemma ShortcutBeforeLeave(s: State)
    requires Inv(s) && s.running && s.client.Idle? && s.ready && s.release && !s.tick.ClearReady?
    ensures Unsafe(s)
  {
    var s1 := Step(s, BeginPause);
    var s2 := Step(s1, ClientStep);
    var s3 := Step(s2, ClientStep);
    var n := DrivesToLeave(s3);
    RunCons(s2, ClientStep, Ticks(n));
    RunCons(s1, ClientStep, [ClientStep] + Ticks(n));
    assert NoNewCall([ClientStep] + ([ClientStep] + Ticks(n)));
  }

  /** A released request that the thread has yet to honour: it parks and leaves again while the
      new call is already polling pause_ready_. */
  lemma PollingDuringLeave(s: State)
    requires Inv(s) && s.running && s.client.Idle? && !s.ready && ResumePending(s)
    ensures Unsafe(s)
  {
    var s1 := Step(s, BeginPause);
    var s2 := Step(s1, ClientStep);
    var s3 := Step(s2, ClientStep);
    var n := DrivesToLeave(s3);
    var u := Run(s3, Ticks(n));
    var tail := [ClientStep] + ([ClientStep] + ([ClientStep] + []));
    RunCons(u, ClientStep, [ClientStep] + ([ClientStep] + []));
    RunCons(ClientNext(u), ClientStep, [ClientStep] + []);
    RunCons(ClientNext(ClientNext(u)), ClientStep, []);
    RunConcat(s3, Ticks(n), tail);
    RunCons(s2, ClientStep, Ticks(n) + tail);
    RunCons(s1, ClientStep, [ClientStep] + (Ticks(n) + tail));
    assert NoNewCall([ClientStep] + ([ClientStep] + (Ticks(n) + tail)));
  }

  /** A pause() that begins in a reachable running state is safe exactly when no release is
      pending at that moment. */
  lemma PauseUnsafeIffReleasePending(s: State)
    requires Inv(s) && s.running && s.client.Idle?
    ensures Unsafe(s) <==> ResumePending(s)
  {
    if ResumePending(s) {
      if !s.ready {
        PollingDuringLeave(s);
      } else if s.tick.ClearReady? {
        ShortcutAtClearReady(s);
      } else {
        ShortcutBeforeLeave(s);
      }
    } else {
      InvStep(s, BeginPause);
      forall es | NoNewCall(es)
        ensures Exclusive(Run(Step(s, BeginPause), es))
      {
        NoNewCallIsPatient(Step(s, BeginPause), es);
        InvRun(Step(s, BeginPause), es);
      }
    }
  }

  /** What a patient client can reach from the first start(). */
  ghost predicate Reachable(s: State) {
    exists es :: Patient(START, es) && Run(START, es) == s
  }

  lemma {:induction false} PatientConcat(s: State, a: seq<Event>, b: seq<Event>)
    requires Patient(s, a)
    ensures Patient(s, a + b) <==> Patient(Run(s, a), b)
    decreases |a|
  {
    if a == [] {
      assert a + b == b;
    } else {
      assert (a + b)[1..] == a[1..] + b;
      PatientConcat(Step(s, a[0]), a[1..], b);
    }
  }

  lemma Next(s: State, e: Event) returns (t: State)
    requires Reachable(s) && (e == BeginPause && s.client == Idle ==> !ResumePending(s))
    ensures t == Step(s, e) && Reachable(t)
  {
    var es :| Patient(START, es) && Run(START, es) == s;
    t := Step(s, e);
    assert [e] + [] == [e];
    RunCons(s, e, []);
    assert Patient(s, [e]);
    PatientConcat(START, es, [e]);
    RunConcat(START, es, [e]);
  }

  lemma ReachableInv(s: State)
    requires Reachable(s)
    ensures Inv(s)
  {
    var es :| Patient(START, es) && Run(START, es) == s;
    InvRun(START, es);
  }

  /** The client asks, the thread parks, pause() returns kOk. */
  const PARKED: State := State(true, false, true, true, false, LoadRelease, true, Idle, true)

  lemma AskedIsReachable() returns (s: State)
    ensures Reachable(s) && s == START.(client := PauseWait, request := true)
  {
    assert Patient(START, []) && Run(START, []) == START;
    assert Reachable(START);
    hide Reachable;
    s := Next(START, BeginPause);
    s := Next(s, ClientStep);
    s := Next(s, ClientStep);
    s := Next(s, ClientStep);
    s := Next(s, ClientStep);
  }

  lemma ParkedIsReachable()
    ensures Reachable(PARKED)
  {
    hide Reachable;
    var s := AskedIsReachable();
    s := Next(s, Tick);
    s := Next(s, Tick);
    s := Next(s, Tick);
    s := Next(s, Tick);
    s := Next(s, ClientStep);
  }

  lemma ReleasedIsReachable() returns (s: State)
    ensures Reachable(s) && s == PARKED.(release := true, holds := false)
  {
    hide Reachable;
    ParkedIsReachable();
    s := Next(PARKED, BeginResume);
    s := Next(s, ClientStep);
  }

  /** The unsafe situation is reached by an ordinary pause(), resume(): the moment resume() has
      returned, one more pause() may break ownership. */
  lemma PauseRightAfterResumeIsUnsafe()
    ensures exists s :: Reachable(s) && s.client.Idle? && Unsafe(s)
  {
    var s := ReleasedIsReachable();
    ReachableInv(s);
    PauseUnsafeIffReleasePending(s);
  }

  // ---------------------------------------------------------------- the next lifetime

  /** The exact condition on the flags that the last lifetime left behind: the first pause() after
      start() is unsafe exactly when the release flag is still set beside the ready or the request
      flag. */
  lemma PauseAfterStartUnsafeIff(s: State)
    requires Inv(s) && !s.running && s.client.Idle?
    ensures Unsafe(Step(s, Start)) <==> s.release && (s.ready || s.request)
  {
    InvStep(s, Start);
    PauseUnsafeIffReleasePending(Step(s, Start));
  }

  lemma StoppingIsReachable() returns (s: State)
    ensures Reachable(s) && s == PARKED.(release := true, holds := false, tick := LoadStop, client := StopStoreStop)
  {
    hide Reachable;
    ParkedIsReachable();
    s := Next(PARKED, Tick);
    s := Next(s, BeginResume);
    s := Next(s, ClientStep);
    s := Next(s, BeginStop);
  }

  /** pause(), resume(), stop() with the thread at its loop head. */
  lemma StoppedIsReachable() returns (s: State)
    ensures Reachable(s)
    ensures s == PARKED.(release := true, holds := false, stop := true, running := false, tick := Exited)
  {
    hide Reachable;
    s := StoppingIsReachable();
    s := Next(s, ClientStep);
    s := Next(s, ClientStep);
    s := Next(s, Tick);
    s := Next(s, ClientStep);
    s := Next(s, ClientStep);
  }

  /** pause(), resume(), stop(), start() leave that behind when stop() finds the thread at its loop
      head, so the first pause() of the new lifetime is unsafe. */
  lemma PauseRightAfterRestartIsUnsafe()
    ensures exists s :: Reachable(s) && !s.running && s.client.Idle? && Unsafe(Step(s, Start))
  {
    var s := StoppedIsReachable();
    ReachableInv(s);
    PauseAfterStartUnsafeIff(s);
  }

  // ---------------------------------------------------------------- does resume() restart the cycle?

  ghost predicate Restarts(s: State) {
    exists n: nat :: Run(s, Ticks(n)).tick.RunCycle?
  }

  function StepsToCycle(s: State): nat {
    match s.tick
    case RunCycle => 0
    case LoadRequest => if s.paused then 8 else if s.request then 10 else 1
    case LoadStop => if s.paused then 9 else if s.request then 11 else 2
    case ClearRelease => 3
    case ClearRequest => 4
    case ClearReady => 5
    case LeavePause => 6
    case LoadRelease => 7
    case StoreReady => 8
    case EnterPause => 9
    case Exited => 0
  }

  lemma {:induction false} ReleasedThreadRestarts(s: State) returns (n: nat)
    requires TickInv(s) && !s.stop && !s.tick.Exited?
    requires (s.request && !s.tick.ClearRequest?) || s.paused ==> s.release
    requires s.tick.LeavePause? || s.tick.ClearReady? ==> s.release
    requires !(s.tick.ClearRelease? && s.request)
    ensures Run(s, Ticks(n)).tick.RunCycle?
    decreases StepsToCycle(s)
  {
    if s.tick.RunCycle? {
      n := 0;
    } else {
      var t := TickStep(s);
      var m := ReleasedThreadRestarts(t);
      n := m + 1;
      assert Ticks(n)[1..] == Ticks(m);
    }
  }

  /** The tick thread is parked, or on its way to park, with the release flag already gone. */
  predicate Stranded(s: State) {
    && TickInv(s) && !s.stop && s.request && !s.release
    && !s.tick.LeavePause? && !s.tick.ClearReady? && !s.tick.ClearRequest? && !s.tick.ClearRelease?
    && !s.tick.RunCycle? && !s.tick.Exited?
    && (s.tick.LoadRelease? ==> s.paused)
  }

  lemma {:induction false} StrandedStaysParked(s: State, n: nat)
    requires Stranded(s)
    ensures Stranded(Run(s, Ticks(n)))
    decreases n
  {
    if n > 0 {
      StrandedStaysParked(TickStep(s), n - 1);
    }
  }

  lemma {:induction false} StrandedNeverCycles(s: State, n: nat)
    requires Stranded(s)
    ensures !Run(s, Ticks(n)).tick.RunCycle?
  {
    StrandedStaysParked(s, n);
  }

  /** resume() brings the tick thread back to its cycle unless the store lands just before line
      474 clears the flag again while a second request is already posted; then it is lost and
      the thread parks until the next resume() or stop(). */
  lemma ResumeRestartsUnlessOverwritten(s: State)
    requires Inv(s) && s.running && s.client.ResumeStore?
    ensures Restarts(ClientNext(s)) <==> !(s.tick.ClearRelease? && s.request)
  {
    var t := ClientNext(s);
    if s.tick.ClearRelease? && s.request {
      forall n: nat
        ensures !Run(t, Ticks(n)).tick.RunCycle?
      {
        if n > 0 {
          assert Ticks(n)[1..] == Ticks(n - 1);
          StrandedNeverCycles(TickStep(t), n - 1);
        }
      }
    } else {
      var n := ReleasedThreadRestarts(t);
    }
  }

  /** The thread is about to clear the release flag of a first, ordinary pause() and resume();
      behind it a second pause() has posted its request and timed out. */
  lemma OverwritingIsReachable() returns (s: State)
    ensures Reachable(s) && s == START.(tick := ClearRelease, request := true)
  {
    hide Reachable;
    s := ReleasedIsReachable();
    s := Next(s, Tick);
    s := Next(s, Tick);
    s := Next(s, Tick);
    s := Next(s, Tick);
    assert s == START.(tick := ClearRelease, release := true);
    s := Next(s, BeginPause);
    s := Next(s, ClientStep);
    s := Next(s, ClientStep);
    s := Next(s, ClientStep);
    s := Next(s, ClientStep);
    s := Next(s, DeadlinePasses);
  }

  /** The next resume() can be lost there. */
  lemma ResumeAfterTimeoutCanBeLost()
    ensures exists s :: Reachable(s) && s.running && s.client.ResumeStore? && !Restarts(ClientNext(s))
  {
    hide Reachable;
    var s := OverwritingIsReachable();
    s := Next(s, BeginResume);
    ReachableInv(s);
    ResumeRestartsUnlessOverwritten(s);
  }

  /** The thread waits, parked, for a release. */
  predicate Waits(s: State) {
    s.ready && s.paused && !s.release && (s.tick.LoadRelease? || s.tick.LoadStop? || s.tick.LoadRequest?) && !s.stop
  }

  lemma {:induction false} WaitsOn(s: State, n: nat)
    requires Waits(s)
    ensures Waits(Run(s, Ticks(n))) && Run(s, Ticks(n)) == s.(tick := Run(s, Ticks(n)).tick)
    decreases n
  {
    if n > 0 {
      WaitsOn(TickStep(s), n - 1);
      assert Ticks(n)[1..] == Ticks(n - 1);
    }
  }

  /** What a caller can rely on: the resume() that ends a pause() which returned kOk is never lost,
      however long the call takes. */
  lemma ResumeOfSuccessfulPauseRestarts(s: State, n: nat)
    requires Inv(s) && s.running && s.client.Idle? && s.holds
    ensures Restarts(ClientNext(Run(Step(s, BeginResume), Ticks(n))))
  {
    var t := Step(s, BeginResume);
    InvStep(s, BeginResume);
    WaitsOn(t, n);
    var u := Run(t, Ticks(n));
    NoNewCallIsPatient(t, Ticks(n));
    InvRun(t, Ticks(n));
    ResumeRestartsUnlessOverwritten(u);
  }

  /** A new thread comes to its cycle exactly when the last lifetime did not leave a request
      without its release; otherwise it parks at once, for a pause() that nobody called. */
  lemma StartedThreadCyclesIff(s: State)
    requires Inv(s) && !s.running && s.client.Idle?
    ensures Restarts(Step(s, Start)) <==> s.request ==> s.release
  {
    var t := Step(s, Start);
    InvStep(s, Start);
    if s.request && !s.release {
      forall n: nat
        ensures !Run(t, Ticks(n)).tick.RunCycle?
      {
        StrandedNeverCycles(t, n);
      }
    } else {
      var n := ReleasedThreadRestarts(t);
    }
  }

  /** What it does first: it disables the joints for the request that was left, or it cycles. */
  lemma StartedThreadBegins(s: State)
    requires !s.running && s.client.Idle?
    ensures Run(Step(s, Start), [Tick, Tick]).tick == if s.request then EnterPause else RunCycle
  {
    RunTwo(Step(s, Start), Tick, Tick);
  }

  // ---------------------------------------------------------------- is a request honoured?

  /** Within n steps of its own the tick thread has set the ready flag. */
  ghost predicate ReadyWithin(s: State, n: nat) {
    exists k: nat :: k <= n && Run(s, Ticks(k)).ready
  }

  function StepsToReady(pc: TickPc): nat {
    match pc
    case StoreReady => 1
    case EnterPause => 2
    case LoadRequest => 3
    case LoadStop => 4
    case _ => 5
  }

  lemma {:induction false} RequestedThreadParks(s: State) returns (k: nat)
    requires TickInv(s) && !s.stop && !s.ready && s.request && !s.tick.ClearRequest?
    ensures k <= StepsToReady(s.tick) && Run(s, Ticks(k)).ready
    decreases StepsToReady(s.tick)
  {
    var t := TickStep(s);
    if t.ready {
      k := 1;
      assert Ticks(1)[1..] == Ticks(0);
    } else {
      var m := RequestedThreadParks(t);
      k := m + 1;
      assert Ticks(k)[1..] == Ticks(m);
    }
  }

  /** The request is gone; the thread cycles on. */
  predicate Unasked(s: State) {
    && !s.ready && !s.paused && !s.stop
    && (s.tick.ClearRequest? || !s.request)
    && (s.tick.ClearRequest? || s.tick.ClearRelease? || s.tick.LoadStop? || s.tick.LoadRequest? || s.tick.RunCycle?)
  }

  lemma {:induction false} UnaskedStays(s: State, n: nat)
    requires Unasked(s)
    ensures Unasked(Run(s, Ticks(n)))
    decreases n
  {
    if n > 0 {
      UnaskedStays(TickStep(s), n - 1);
      assert Ticks(n)[1..] == Ticks(n - 1);
    }
  }

  /** A polling pause() is answered within five steps of the tick thread, unless line 473 has
      cleared or is about to clear its request together with the one before; then it is never
      answered, and pause() times out. */
  lemma PauseAnsweredUnlessCleared(s: State)
    requires Inv(s) && s.running && s.client.PauseWait?
    ensures s.ready || (s.request && !s.tick.ClearRequest?) ==> ReadyWithin(s, 5)
    ensures !(s.ready || (s.request && !s.tick.ClearRequest?)) ==> forall n: nat :: !ReadyWithin(s, n)
  {
    if s.ready {
      assert Run(s, Ticks(0)).ready;
    } else if s.request && !s.tick.ClearRequest? {
      var k := RequestedThreadParks(s);
    } else {
      forall k: nat
        ensures !Run(s, Ticks(k)).ready
      {
        UnaskedStays(s, k);
      }
    }
  }

  // ---------------------------------------------------------------- does stop() return?

  /** The tick steps to the end of a thread that is to stop and, if it is asked to park, to leave. */
  function StepsToExit(s: State): nat {
    match s.tick
    case Exited => 0
    case LoadStop => 1
    case ClearRelease => 2
    case RunCycle => 2
    case ClearRequest => 3
    case ClearReady => 4
    case LeavePause => 5
    case LoadRelease => 6
    case StoreReady => 7
    case EnterPause => 8
    case LoadRequest => if s.paused then 7 else if s.request then 9 else 3
  }

  lemma {:induction false} StoppingThreadExits(s: State) returns (n: nat)
    requires s.stop && (s.tick.LoadStop? || s.tick.Exited? || s.tick.ClearRelease? || s.release)
    ensures n <= StepsToExit(s) && NoNewCall(Ticks(n))
    ensures Run(s, Ticks(n)).tick.Exited?
    decreases StepsToExit(s)
  {
    if s.tick.Exited? {
      n := 0;
    } else {
      var t := TickStep(s);
      var m := StoppingThreadExits(t);
      n := m + 1;
      assert Ticks(n)[1..] == Ticks(m);
    }
  }

  /** stop() always returns: once it waits for the thread, at most nine thread steps end the thread,
      wherever it was, and two more steps of the client end the call with the group not running. */
  lemma StopReturns(s: State) returns (n: nat)
    requires Inv(s) && s.running && s.client.StopJoin?
    ensures n <= 9 && Run(s, Ticks(n)).tick.Exited?
    ensures var t := Run(s, Ticks(n) + [ClientStep, ClientStep]);
            t.client.Idle? && !t.running
  {
    hide Ticks;
    n := StoppingThreadExits(s);
    TicksKeepClient(s, n);
    var u := Run(s, Ticks(n));
    RunConcat(s, Ticks(n), [ClientStep, ClientStep]);
    RunTwo(u, ClientStep, ClientStep);
  }

  lemma RunTwo(s: State, e: Event, f: Event)
    ensures Run(s, [e, f]) == Step(Step(s, e), f)
  {
    assert [e, f][1..] == [f] && [f][1..] == [];
    assert Run(Step(s, e), [f]) == Run(Step(Step(s, e), f), []);
  }

  /** Ticks and one client step. */
  function Until(n: nat): (es: seq<Event>)
    ensures NoNewCall(es)
  {
    Ticks(n) + [ClientStep]
  }

  lemma RunUntil(s: State, n: nat)
    ensures Run(s, Until(n)) == ClientNext(Run(s, Ticks(n)))
    ensures Run(s, Ticks(n)).client == s.client && Run(s, Ticks(n)).running == s.running
  {
    RunConcat(s, Ticks(n), [ClientStep]);
    assert [ClientStep][1..] == [];
    assert Run(Run(s, Ticks(n)), [ClientStep]) == Run(ClientNext(Run(s, Ticks(n))), []);
    TicksKeepClient(s, n);
  }

  /** The whole call, however often the thread steps between the client's own two stores. */
  lemma StopCallReturns(s: State, a: nat, b: nat) returns (n: nat)
    requires Inv(s) && s.running && s.client.Idle?
    ensures n <= 9
    ensures var t := Run(Step(s, BeginStop), Until(a) + (Until(b) + (Ticks(n) + [ClientStep, ClientStep])));
            t.client.Idle? && !t.running
  {
    hide Ticks, Until, Run, TickInv, OwnerInv;
    var t := Step(s, BeginStop);
    InvStep(s, BeginStop);
    RunUntil(t, a);
    var u := Run(t, Until(a));
    NoNewCallIsPatient(t, Until(a));
    InvRun(t, Until(a));
    RunUntil(u, b);
    var v := Run(u, Until(b));
    NoNewCallIsPatient(u, Until(b));
    InvRun(u, Until(b));
    n := StopReturns(v);
    RunConcat(u, Until(b), Ticks(n) + [ClientStep, ClientStep]);
    RunConcat(t, Until(a), Until(b) + (Ticks(n) + [ClientStep, ClientStep]));
  }

  // ---------------------------------------------------------------- what does pause() return?

  /** On a group without a thread pause() hands over the context at once. */
  lemma PauseOfStoppedReturns(s: State)
    requires s.client.Idle? && !s.running
    ensures Run(s, [BeginPause, ClientStep]) == s.(holds := true)
  {
    RunTwo(s, BeginPause, ClientStep);
  }

  /** So it does on a thread that is parked already. */
  lemma PauseOfPausedReturns(s: State)
    requires s.client.Idle? && s.running && s.ready
    ensures Run(s, [BeginPause] + [ClientStep, ClientStep]) == s.(holds := true)
  {
    RunCons(s, BeginPause, [ClientStep, ClientStep]);
    RunTwo(Step(s, BeginPause), ClientStep, ClientStep);
  }

  /** The client's part of a pause() up to the polling. */
  const ASK: seq<Event> := [BeginPause, ClientStep] + ([ClientStep, ClientStep] + [ClientStep])

  lemma Asks(s: State, es: seq<Event>)
    requires s.client.Idle? && s.running && !s.ready
    ensures Run(s, ASK + es) == Run(s.(client := PauseWait, release := false, request := true), es)
  {
    var (a, b) := ([BeginPause, ClientStep], [ClientStep, ClientStep]);
    assert ASK + es == a + (b + ([ClientStep] + es));
    RunConcat(s, a, b + ([ClientStep] + es));
    RunTwo(s, BeginPause, ClientStep);
    var t := Run(s, a);
    RunConcat(t, b, [ClientStep] + es);
    RunTwo(t, ClientStep, ClientStep);
    RunCons(Run(t, b), ClientStep, es);
  }

  /** Otherwise the thread parks within five steps and the call returns with the context, unless it
      met the thread about to clear the request flag. */
  lemma PauseCallParks(s: State) returns (k: nat)
    requires Inv(s) && s.running && s.client.Idle? && !s.ready && !ResumePending(s) && !s.tick.ClearRequest?
    ensures k <= 5
    ensures var t := Run(s, ASK + Until(k));
            t.client.Idle? && t.holds && t.running && t.ready && !t.release
  {
    var u := s.(client := PauseWait, release := false, request := true);
    AskedInv(s);
    PauseAnsweredUnlessCleared(u);
    k :| 0 <= k <= 5 && Run(u, Ticks(k)).ready;
    Asks(s, Until(k));
    RunUntil(u, k);
    NoNewCallIsPatient(u, Until(k));
    InvRun(u, Until(k));
  }

  /** In that case, however long it polls, only the deadline ends the call, without the context. */
  lemma PauseCallTimesOut(s: State, n: nat)
    requires Inv(s) && s.running && s.client.Idle? && !s.ready && !ResumePending(s) && s.tick.ClearRequest?
    ensures Run(s, ASK + Until(n)).client.PauseWait?
    ensures var t := Run(s, ASK + (Ticks(n) + [DeadlinePasses]));
            t.client.Idle? && !t.holds
  {
    var u := s.(client := PauseWait, release := false, request := true);
    AskedInv(s);
    PauseAnsweredUnlessCleared(u);
    Asks(s, Until(n));
    Asks(s, Ticks(n) + [DeadlinePasses]);
    RunUntil(u, n);
    RunConcat(u, Ticks(n), [DeadlinePasses]);
    RunCons(Run(u, Ticks(n)), DeadlinePasses, []);
    assert !ReadyWithin(u, n);
    TicksKeepClient(u, n);
  }

  lemma AskedInv(s: State)
    requires Inv(s) && s.running && s.client.Idle? && !s.ready && !ResumePending(s)
    ensures Inv(s.(client := PauseWait, release := false, request := true))
  {
    InvStep(s, BeginPause);
    var a := Step(s, BeginPause);
    InvClient(a);
    InvClient(ClientNext(a));
    InvClient(ClientNext(ClientNext(a)));
    InvClient(ClientNext(ClientNext(ClientNext(a))));
  }

  // ---------------------------------------------------------------- when is it safe to pause again?

  /** What a caller can see: once the thread has begun a cycle since the client's last call
      returned, a pause() is safe, however long the client waits. */
  lemma PauseAfterCycleIsSafe(s: State, n: nat)
    requires Inv(s) && s.running && s.client.Idle? && s.tick.LoadRequest? && TickStep(s).tick.RunCycle?
    ensures !Unsafe(Run(TickStep(s), Ticks(n)))
  {
    hide Unsafe;
    var t := TickStep(s);
    InvStep(s, Tick);
    UnaskedStays(t, n);
    TicksKeepClient(t, n);
    NoNewCallIsPatient(t, Ticks(n));
    InvRun(t, Ticks(n));
    PauseUnsafeIffReleasePending(Run(t, Ticks(n)));
  }
}
