/**
 * The lazy worker of one queue: calls that want it running take turns through a chain of
 * promises, while a warm pause and a cold shutdown change its state outside their turns.
 */
module LazyWorker {
  import opened Basics

  /**
   * A call of ensureWorkerRunning between two of its awaits: waiting for the lock it found
   * there, resuming, closing a worker, about to create one once that is done, or starting
   * one; and over, whether it returned or threw.
   */
  datatype Caller = Queued(previousLock: nat) | Resuming | Destroying(w: nat) | Recreating |
      Starting | Over(threw: bool)

  datatype Shutdown = Closing(w: nat) | Settled

  /**
   * The state of one lazy worker. Lock 0 is resolved from the start, and call i replaces
   * the lock by lock i + 1, which it resolves when it is over. Workers are numbered as they
   * are made; `paused` is what the library says of the current one.
   */
  datatype Lazy = Lazy(
    worker: Option<nat>, isRunning: bool, paused: bool, operationLock: nat,
    callers: seq<Caller>, shutdowns: seq<Shutdown>, made: nat, closed: set<nat>)

  datatype Event =
    | Call
    | LockAwaited(i: nat, constructs: bool)
    | ResumeSettles(i: nat, ok: bool)
    | CloseSettles(i: nat)
    | DestroyReturns(i: nat, constructs: bool)
    | RunSettles(i: nat, ok: bool)
    | WarmPause
    | PausedIs(flag: bool)
    | ColdShutdown
    | ShutdownSettles(j: nat)

  predicate Resolved(s: Lazy, promise: nat) {
    promise == 0 || (promise <= |s.callers| && s.callers[promise - 1].Over?)
  }

  predicate Possible(s: Lazy, e: Event) {
    match e
    case LockAwaited(i, _) => i < |s.callers| && s.callers[i].Queued? && Resolved(s, s.callers[i].previousLock)
    case ResumeSettles(i, _) => i < |s.callers| && s.callers[i].Resuming?
    case CloseSettles(i) => i < |s.callers| && s.callers[i].Destroying?
    case DestroyReturns(i, _) => i < |s.callers| && s.callers[i].Recreating?
    case RunSettles(i, _) => i < |s.callers| && s.callers[i].Starting?
    case WarmPause => s.worker.Some? && !s.paused
    case ColdShutdown => s.worker.Some?
    case ShutdownSettles(j) => j < |s.shutdowns| && s.shutdowns[j].Closing?
    case _ => true
  }

  function At(s: Lazy, i: nat, c: Caller): Lazy
    requires i < |s.callers|
  {
    s.(callers := s.callers[i := c])
  }

  /** Create a worker and start it, up to its await; constructing it may throw. */
  function Created(s: Lazy, i: nat, constructs: bool): Lazy
    requires i < |s.callers|
  {
    if constructs then At(s, i, Starting).(worker := Some(s.made), made := s.made + 1, paused := false)
    else At(s, i, Over(true))
  }

  /** A worker has been closed, as well as that went, and is forgotten, whichever is the current one. */
  function Forgotten(s: Lazy, w: nat): Lazy {
    s.(worker := None, isRunning := false, closed := s.closed + {w})
  }

  function Step(s: Lazy, e: Event): Lazy
    requires Possible(s, e)
  {
    match e
    case Call => s.(callers := s.callers + [Queued(s.operationLock)], operationLock := |s.callers| + 1)
    case LockAwaited(i, constructs) =>
      if s.worker.None? then Created(s, i, constructs)
      else if s.paused then At(s, i, Resuming)
      else At(s, i, Over(false))
    case ResumeSettles(i, ok) =>
      if ok then At(s, i, Over(false)).(isRunning := true)
      else if s.worker.None? then At(s, i, Recreating)
      else At(s, i, Destroying(s.worker.value))
    case CloseSettles(i) => At(Forgotten(s, s.callers[i].w), i, Recreating)
    case DestroyReturns(i, constructs) => Created(s, i, constructs)
    case RunSettles(i, ok) => At(s, i, Over(false)).(isRunning := ok)
    case WarmPause => s.(isRunning := false)
    case PausedIs(flag) => s.(paused := flag)
    case ColdShutdown => s.(shutdowns := s.shutdowns + [Closing(s.worker.value)])
    case ShutdownSettles(j) => Forgotten(s, s.shutdowns[j].w).(shutdowns := s.shutdowns[j := Settled])
  }

  const REGISTERED := Lazy(None, false, false, 0, [], [], 0, {})

  /** The fields the code assigns; the rest is what the process and the library have in flight. */
  class LazyWorkerState {
    var worker: Option<nat>
    var isRunning: bool
    var operationLock: nat
    var made: nat
    ghost var paused: bool
    ghost var callers: seq<Caller>
    ghost var shutdowns: seq<Shutdown>
    ghost var closed: set<nat>

    ghost function State(): Lazy
      reads this
    {
      Lazy(worker, isRunning, paused, operationLock, callers, shutdowns, made, closed)
    }

    constructor ()
      ensures State() == REGISTERED
    {
      worker, isRunning, operationLock, made := None, false, 0, 0;
      paused, callers, shutdowns, closed := false, [], [], {};
    }

    /** A call up to its first await; `i` is the number of calls before it. */
    method EnsureWorkerRunning(i: nat) returns (previousLock: nat)
      requires i == |callers|
      modifies this
      ensures State() == Step(old(State()), Event.Call)
      ensures callers[i] == Queued(previousLock)
    {
      previousLock := operationLock;
      operationLock := i + 1;
      callers := callers + [Queued(previousLock)];
    }

    /** From the lock on, with what the worker answers to isPaused. */
    method AfterLock(i: nat, isPaused: bool, constructs: bool)
      requires Possible(State(), Event.LockAwaited(i, constructs)) && isPaused == paused
      modifies this
      ensures State() == Step(old(State()), Event.LockAwaited(i, constructs))
    {
      if worker.Some? && isRunning && !isPaused {
        callers := callers[i := Over(false)];
        return;
      }
      if worker.Some? && isPaused {
        callers := callers[i := Resuming];
        return;
      }
      if worker.None? {
        CreateWorkerInstance(i, constructs);
        return;
      }
      callers := callers[i := Over(false)];
    }

    /** From the resume on: one that failed destroys the worker, up to the await of its close, if there is one. */
    method AfterResume(i: nat, ok: bool)
      requires Possible(State(), Event.ResumeSettles(i, ok))
      modifies this
      ensures State() == Step(old(State()), Event.ResumeSettles(i, ok))
    {
      if ok {
        isRunning := true;
        callers := callers[i := Over(false)];
        return;
      }
      callers := callers[i := if worker.None? then Recreating else Destroying(worker.value)];
    }

    /** The end of the call's own destroyWorker. */
    method AfterClose(i: nat)
      requires Possible(State(), Event.CloseSettles(i))
      modifies this
      ensures State() == Step(old(State()), Event.CloseSettles(i))
    {
      worker := None;
      isRunning := false;
      closed := closed + {callers[i].w};
      callers := callers[i := Recreating];
    }

    /** The call goes on where it awaited destroyWorker. */
    method AfterDestroy(i: nat, constructs: bool)
      requires Possible(State(), Event.DestroyReturns(i, constructs))
      modifies this
      ensures State() == Step(old(State()), Event.DestroyReturns(i, constructs))
    {
      CreateWorkerInstance(i, constructs);
    }

    method CreateWorkerInstance(i: nat, constructs: bool)
      requires i < |callers|
      modifies this
      ensures State() == Created(old(State()), i, constructs)
    {
      if !constructs {
        callers := callers[i := Over(true)];
        return;
      }
      worker := Some(made);
      made := made + 1;
      paused := false;
      callers := callers[i := Starting];
    }

    method AfterRun(i: nat, ok: bool)
      requires Possible(State(), Event.RunSettles(i, ok))
      modifies this
      ensures State() == Step(old(State()), Event.RunSettles(i, ok))
    {
      isRunning := ok;
      callers := callers[i := Over(false)];
    }

    method PauseWarm()
      requires Possible(State(), Event.WarmPause)
      modifies this
      ensures State() == Step(old(State()), Event.WarmPause)
    {
      isRunning := false;
    }

    /** The end of the shutdown's own destroyWorker. */
    method AfterShutdown(j: nat)
      requires Possible(State(), Event.ShutdownSettles(j))
      modifies this
      ensures State() == Step(old(State()), Event.ShutdownSettles(j))
    {
      worker := None;
      isRunning := false;
      closed := closed + {shutdowns[j].w};
      shutdowns := shutdowns[j := Settled];
    }
  }

  // ----- what every step keeps

  predicate InTurn(c: Caller) {
    c.Resuming? || c.Destroying? || c.Recreating? || c.Starting?
  }

  /** Each call waits for the one before it. */
  ghost predicate Chained(s: Lazy) {
    && s.operationLock == |s.callers|
    && forall i | 0 <= i < |s.callers| && s.callers[i].Queued? :: s.callers[i].previousLock == i
  }

  /** A call is past the lock only when every earlier one is over. */
  ghost predicate Ordered(s: Lazy) {
    forall i, j | 0 <= i < j < |s.callers| && !s.callers[j].Queued? :: s.callers[i].Over?
  }

  /** The manager's worker is one made and not closed. */
  ghost predicate Own(s: Lazy) {
    && (s.worker.Some? ==> s.worker.value < s.made && s.worker.value !in s.closed)
    && (forall w | w in s.closed :: w < s.made)
    && (forall j | 0 <= j < |s.shutdowns| && s.shutdowns[j].Closing? :: s.shutdowns[j].w < s.made)
  }

  /** A call that is closing a worker is closing the current one; once it has, there is none. */
  ghost predicate Minding(s: Lazy) {
    forall i | 0 <= i < |s.callers| :: Minds(s, s.callers[i])
  }

  predicate Minds(s: Lazy, c: Caller) {
    match c
    case Destroying(w) => w < s.made && (s.worker.None? || s.worker == Some(w))
    case Recreating => s.worker.None?
    case _ => true
  }

  ghost predicate Inv(s: Lazy) {
    Chained(s) && Ordered(s) && Own(s) && Minding(s)
  }

  /** Steps of the call itself, or of what it awaits. */
  predicate StepsCaller(e: Event, i: nat) {
    (e.LockAwaited? || e.ResumeSettles? || e.CloseSettles? || e.DestroyReturns? || e.RunSettles?) && e.i == i
  }

  lemma StepKeepsChain(s: Lazy, e: Event)
    requires Inv(s) && Possible(s, e)
    ensures Chained(Step(s, e))
  {
  }

  lemma StepKeepsOrder(s: Lazy, e: Event)
    requires Inv(s) && Possible(s, e)
    ensures Ordered(Step(s, e))
  {
    match e
    case LockAwaited(i, _) => OthersWait(s, i);
    case ResumeSettles(i, _) => OthersWait(s, i);
    case CloseSettles(i) => OthersWait(s, i);
    case DestroyReturns(i, _) => OthersWait(s, i);
    case RunSettles(i, _) => OthersWait(s, i);
    case _ =>
  }

  lemma StepKeepsOwn(s: Lazy, e: Event)
    requires Inv(s) && Possible(s, e)
    ensures Own(Step(s, e))
  {
    if e.CloseSettles? {
      assert Minds(s, s.callers[e.i]);
    }
  }

  lemma StepKeepsMinding(s: Lazy, e: Event)
    requires Inv(s) && Possible(s, e)
    ensures Minding(Step(s, e))
  {
    var s' := Step(s, e);
    if exists i :: StepsCaller(e, i) {
      OthersWait(s, e.i);
    }
    forall j | 0 <= j < |s'.callers| ensures Minds(s', s'.callers[j]) {
      assert j < |s.callers| ==> Minds(s, s.callers[j]);
    }
  }

  /** While one call can go on past the lock, no other is past it unless it is over. */
  lemma OthersWait(s: Lazy, i: nat)
    requires Inv(s) && i < |s.callers|
    requires InTurn(s.callers[i]) || (s.callers[i].Queued? && Resolved(s, s.callers[i].previousLock))
    ensures forall j | 0 <= j < i :: s.callers[j].Over?
    ensures forall j | i < j < |s.callers| :: s.callers[j].Queued?
  {
    if s.callers[i].Queued? && i > 0 {
      assert s.callers[i - 1].Over?;
      assert forall j | 0 <= j < i - 1 :: s.callers[j].Over?;
    }
  }

  lemma StepKeeps(s: Lazy, e: Event)
    requires Inv(s) && Possible(s, e)
    ensures Inv(Step(s, e))
  {
    StepKeepsChain(s, e);
    StepKeepsOrder(s, e);
    StepKeepsOwn(s, e);
    StepKeepsMinding(s, e);
  }

  // ----- runs

  predicate PossibleRun(s: Lazy, events: seq<Event>)
    decreases events
  {
    events != [] ==> Possible(s, events[0]) && PossibleRun(Step(s, events[0]), events[1..])
  }

  function Run(s: Lazy, events: seq<Event>): Lazy
    requires PossibleRun(s, events)
    decreases events
  {
    if events == [] then s else Run(Step(s, events[0]), events[1..])
  }

  lemma {:induction false} RunKeeps(s: Lazy, events: seq<Event>)
    requires Inv(s) && PossibleRun(s, events)
    ensures Inv(Run(s, events))
    decreases events
  {
    if events != [] {
      StepKeeps(s, events[0]);
      RunKeeps(Step(s, events[0]), events[1..]);
    }
  }

  /** The calls hold their section one at a time and in call order, whatever pauses and shuts down beside them. */
  lemma OneAtATimeInCallOrder(events: seq<Event>, i: nat, j: nat)
    requires PossibleRun(REGISTERED, events) && i < j < |Run(REGISTERED, events).callers|
    ensures var s := Run(REGISTERED, events);
      && !(InTurn(s.callers[i]) && InTurn(s.callers[j]))
      && (!s.callers[j].Queued? ==> s.callers[i].Over?)
  {
    RunKeeps(REGISTERED, events);
  }

  /** A call goes past the lock exactly when every call before it is over, by a return or by a throw. */
  lemma LockedExactly(s: Lazy, i: nat, constructs: bool)
    requires Inv(s) && i < |s.callers| && s.callers[i].Queued?
    ensures Possible(s, LockAwaited(i, constructs)) <==> forall j | 0 <= j < i :: s.callers[j].Over?
  {
    if Possible(s, LockAwaited(i, constructs)) {
      OthersWait(s, i);
    }
  }

  /** The lock is never lost: while any call is not over, the first such call can go on. */
  lemma FirstWaiterCanGoOn(s: Lazy, i: nat) returns (e: Event)
    requires Inv(s) && i < |s.callers| && !s.callers[i].Over?
    requires forall j | 0 <= j < i :: s.callers[j].Over?
    ensures StepsCaller(e, i) && Possible(s, e)
  {
    match s.callers[i]
    case Queued(_) => e := LockAwaited(i, true);
    case Resuming => e := ResumeSettles(i, true);
    case Destroying(_) => e := CloseSettles(i);
    case Recreating => e := DestroyReturns(i, true);
    case Starting => e := RunSettles(i, true);
  }

  /** How many awaits a call has before it at most. */
  function Left(c: Caller): nat {
    match c
    case Queued(_) => 5
    case Resuming => 4
    case Destroying(_) => 3
    case Recreating => 2
    case Starting => 1
    case Over(_) => 0
  }

  function TotalLeft(callers: seq<Caller>): nat {
    if callers == [] then 0 else Left(callers[0]) + TotalLeft(callers[1..])
  }

  lemma {:induction false} TotalAfter(callers: seq<Caller>, i: nat, c: Caller)
    requires i < |callers|
    ensures TotalLeft(callers[i := c]) == TotalLeft(callers) - Left(callers[i]) + Left(c)
  {
    if i > 0 {
      assert callers[i := c][1..] == callers[1..][i - 1 := c];
      TotalAfter(callers[1..], i - 1, c);
    }
  }

  /** Every step of a call brings it closer to its end, so the whole queue of calls drains. */
  lemma CallsDrain(s: Lazy, e: Event, i: nat)
    requires Inv(s) && Possible(s, e) && StepsCaller(e, i)
    ensures TotalLeft(Step(s, e).callers) < TotalLeft(s.callers)
  {
    var c := Step(s, e).callers[i];
    assert Step(s, e).callers == s.callers[i := c] && Left(c) < Left(s.callers[i]);
    TotalAfter(s.callers, i, c);
  }

  // ----- the workers

  predicate Open(s: Lazy, w: nat) {
    w < s.made && w !in s.closed
  }

  /** A worker that is not closed is the manager's own, so there is at most one. */
  ghost predicate NoStray(s: Lazy) {
    forall w: nat | Open(s, w) :: s.worker == Some(w)
  }

  predicate NoShutdown(events: seq<Event>) {
    forall e | e in events :: !e.ColdShutdown? && !e.ShutdownSettles?
  }

  lemma StepLeavesNoStray(s: Lazy, e: Event)
    requires Inv(s) && Possible(s, e) && NoStray(s)
    requires e.ShutdownSettles? ==> s.worker.None? || s.worker == Some(s.shutdowns[e.j].w)
    ensures NoStray(Step(s, e))
  {
    var s' := Step(s, e);
    forall w: nat | Open(s', w) ensures s'.worker == Some(w) {
      assert w < s.made ==> Open(s, w);
    }
  }

  /** In runs of calls and warm pauses there is never more than one worker the manager has not closed. */
  lemma {:induction false} NeverTwoWorkers(s: Lazy, events: seq<Event>)
    requires Inv(s) && NoStray(s) && PossibleRun(s, events) && NoShutdown(events)
    ensures NoStray(Run(s, events))
    ensures forall v: nat, w: nat | Open(Run(s, events), v) && Open(Run(s, events), w) :: v == w
    decreases events
  {
    if events != [] {
      StepKeeps(s, events[0]);
      StepLeavesNoStray(s, events[0]);
      NeverTwoWorkers(Step(s, events[0]), events[1..]);
    }
  }

  /**
   * A cold shutdown takes no lock: as it ends it leaves a worker running unmanaged exactly
   * when a call has meanwhile replaced the worker it closed.
   */
  lemma StrayAfterShutdownExactly(s: Lazy, j: nat)
    requires Inv(s) && NoStray(s) && Possible(s, ShutdownSettles(j))
    ensures !NoStray(Step(s, ShutdownSettles(j))) <==> s.worker.Some? && s.worker != Some(s.shutdowns[j].w)
  {
    if s.worker.None? || s.worker == Some(s.shutdowns[j].w) {
      StepLeavesNoStray(s, ShutdownSettles(j));
    } else {
      assert Open(Step(s, ShutdownSettles(j)), s.worker.value);
    }
  }

  lemma OneMore(s: Lazy, e: Event, rest: seq<Event>) returns (events: seq<Event>)
    requires Possible(s, e) && PossibleRun(Step(s, e), rest)
    ensures events == [e] + rest
    ensures PossibleRun(s, events) && Run(s, events) == Run(Step(s, e), rest)
  {
    events := [e] + rest;
    assert events[1..] == rest;
  }

  /** It can: a paused worker fails to resume while its shutdown is closing it, and two workers end up open. */
  lemma ShutdownCanLeaveAStray() returns (events: seq<Event>)
    ensures PossibleRun(REGISTERED, events)
    ensures Open(Run(REGISTERED, events), 1) && Open(Run(REGISTERED, events), 2)
  {
    var s0 := Step(Step(Step(REGISTERED, Call), LockAwaited(0, true)), RunSettles(0, true));
    var s1 := Step(Step(Step(s0, WarmPause), PausedIs(true)), ColdShutdown);
    var s2 := Step(Step(Step(s1, Call), LockAwaited(1, true)), ResumeSettles(1, false));
    events := ThenAnotherWorker(s2);
    events := ThreeMore(s1, Call, LockAwaited(1, true), ResumeSettles(1, false), events);
    events := ThreeMore(s0, WarmPause, PausedIs(true), ColdShutdown, events);
    events := ThreeMore(REGISTERED, Call, LockAwaited(0, true), RunSettles(0, true), events);
  }

  lemma ThenAnotherWorker(s2: Lazy) returns (events: seq<Event>)
    requires s2 == Lazy(Some(0), false, true, 2, [Over(false), Destroying(0)], [Closing(0)], 1, {})
    ensures PossibleRun(s2, events)
    ensures Open(Run(s2, events), 1) && Open(Run(s2, events), 2)
  {
    var s3 := Step(Step(Step(s2, CloseSettles(1)), DestroyReturns(1, true)), RunSettles(1, true));
    var s4 := Step(s3, ShutdownSettles(0));
    events := OneMore(Step(s4, Call), LockAwaited(2, true), []);
    events := OneMore(s4, Call, events);
    events := OneMore(s3, ShutdownSettles(0), events);
    events := ThreeMore(s2, CloseSettles(1), DestroyReturns(1, true), RunSettles(1, true), events);
  }

  lemma ThreeMore(s: Lazy, e: Event, f: Event, g: Event, rest: seq<Event>) returns (events: seq<Event>)
    requires Possible(s, e) && Possible(Step(s, e), f) && Possible(Step(Step(s, e), f), g)
    requires PossibleRun(Step(Step(Step(s, e), f), g), rest)
    ensures events == [e, f, g] + rest
    ensures PossibleRun(s, events) && Run(s, events) == Run(Step(Step(Step(s, e), f), g), rest)
  {
    events := OneMore(Step(Step(s, e), f), g, rest);
    events := OneMore(Step(s, e), f, events);
    events := OneMore(s, e, events);
  }

  // ----- what a call achieves

  /** The worker is there, neither running nor paused: its start has failed, or a pause has not taken hold. */
  predicate Idle(s: Lazy) {
    s.worker.Some? && !s.isRunning && !s.paused
  }

  /** A call of this step ends, and without a throw. */
  predicate Returns(s: Lazy, e: Event, i: nat)
    requires Possible(s, e)
  {
    i < |s.callers| && !s.callers[i].Over? && Step(s, e).callers[i] == Over(false)
  }

  /** A shutdown is closing the manager's worker. */
  predicate BeingClosed(s: Lazy) {
    s.worker.Some? && exists j | 0 <= j < |s.shutdowns| :: s.shutdowns[j] == Closing(s.worker.value)
  }

  /** The manager has a worker, counts it as running, and nothing is closing it. */
  predicate Running(s: Lazy) {
    s.worker.Some? && s.isRunning && !BeingClosed(s)
  }

  /**
   * A call that returns has got a worker running, but for exactly these cases: it found one
   * idle, the start it made failed, or a shutdown beside it has taken the worker or is
   * closing it.
   */
  lemma ReturnsRunningExactly(s: Lazy, e: Event, i: nat)
    requires Possible(s, e) && StepsCaller(e, i) && Returns(s, e, i)
    ensures !Running(Step(s, e)) <==>
      || (e.LockAwaited? && Idle(s))
      || (e.RunSettles? && !e.ok)
      || s.worker.None? || BeingClosed(s)
  {
    assert Step(s, e).shutdowns == s.shutdowns && Step(s, e).worker == s.worker;
  }

  /** Without a shutdown, a call past its lock that has not ended has its worker, unless it has just closed it. */
  ghost predicate Attended(s: Lazy) {
    s.shutdowns == [] && forall i | 0 <= i < |s.callers| :: HasWorker(s, s.callers[i])
  }

  predicate HasWorker(s: Lazy, c: Caller) {
    c.Resuming? || c.Destroying? || c.Starting? ==> s.worker.Some?
  }

  lemma StepKeepsAttended(s: Lazy, e: Event)
    requires Inv(s) && Attended(s) && Possible(s, e) && !e.ColdShutdown?
    ensures Attended(Step(s, e))
  {
    var s' := Step(s, e);
    if exists i :: StepsCaller(e, i) {
      OthersWait(s, e.i);
    }
    forall j | 0 <= j < |s'.callers| ensures HasWorker(s', s'.callers[j]) {
      assert j < |s.callers| ==> HasWorker(s, s.callers[j]);
    }
  }

  lemma {:induction false} RunKeepsAttended(s: Lazy, events: seq<Event>)
    requires Inv(s) && Attended(s) && PossibleRun(s, events) && NoShutdown(events)
    ensures Inv(Run(s, events)) && Attended(Run(s, events))
    decreases events
  {
    if events != [] {
      StepKeeps(s, events[0]);
      StepKeepsAttended(s, events[0]);
      RunKeepsAttended(Step(s, events[0]), events[1..]);
    }
  }

  /** In runs of calls and warm pauses a call that returns has a worker running but for the first two cases. */
  lemma ReturnsRunningInCalls(events: seq<Event>, e: Event, i: nat)
    requires PossibleRun(REGISTERED, events) && NoShutdown(events)
    requires var s := Run(REGISTERED, events); Possible(s, e) && StepsCaller(e, i) && Returns(s, e, i)
    ensures var s := Run(REGISTERED, events);
      !Running(Step(s, e)) <==> (e.LockAwaited? && Idle(s)) || (e.RunSettles? && !e.ok)
  {
    var s := Run(REGISTERED, events);
    RunKeepsAttended(REGISTERED, events);
    ReturnsRunningExactly(s, e, i);
    assert HasWorker(s, s.callers[i]);
  }

  /** A shutdown ends while a call awaits the resume: the call returns, counted as running, and there is no worker. */
  lemma ShutdownTakesTheResumedWorker() returns (events: seq<Event>)
    ensures PossibleRun(REGISTERED, events)
    ensures var s := Run(REGISTERED, events);
      && s.callers == [Over(false), Over(false)] && s.isRunning
      && s.worker.None? && forall w: nat :: !Open(s, w)
  {
    var s0 := Step(Step(Step(REGISTERED, Call), LockAwaited(0, true)), RunSettles(0, true));
    var s1 := Step(Step(Step(s0, WarmPause), PausedIs(true)), ColdShutdown);
    var s2 := Step(Step(Step(s1, Call), LockAwaited(1, true)), ShutdownSettles(0));
    events := OneMore(s2, ResumeSettles(1, true), []);
    events := ThreeMore(s1, Call, LockAwaited(1, true), ShutdownSettles(0), events);
    events := ThreeMore(s0, WarmPause, PausedIs(true), ColdShutdown, events);
    events := ThreeMore(REGISTERED, Call, LockAwaited(0, true), RunSettles(0, true), events);
  }

  /** A call past its lock returns at once, the worker not running, exactly when it finds the worker idle. */
  lemma DoesNothingExactly(s: Lazy, i: nat, constructs: bool)
    requires Possible(s, LockAwaited(i, constructs))
    ensures var s' := Step(s, LockAwaited(i, constructs));
      && (s'.callers[i] == Over(false) && !s'.isRunning <==> Idle(s))
      && (Idle(s) ==> s' == At(s, i, Over(false)))
  {
  }

  /**
   * With no call under way, an idle worker stays the same idle worker at a step exactly
   * when that step is neither the library reporting it paused nor the end of a shutdown.
   */
  lemma MendedExactly(s: Lazy, e: Event)
    requires Idle(s) && Possible(s, e) && forall i | 0 <= i < |s.callers| :: !InTurn(s.callers[i])
    ensures Idle(Step(s, e)) && Step(s, e).worker == s.worker <==> e != PausedIs(true) && !e.ShutdownSettles?
  {
  }

  /** From the start: a worker whose start fails, and a later call that returns without one running. */
  lemma FailedStartIsNotMended() returns (events: seq<Event>)
    ensures PossibleRun(REGISTERED, events)
    ensures var s := Run(REGISTERED, events);
      s.callers == [Over(false), Over(false)] && Idle(s) && Open(s, 0)
  {
    var s1 := Step(Step(Step(REGISTERED, Call), LockAwaited(0, true)), RunSettles(0, false));
    events := OneMore(Step(s1, Call), LockAwaited(1, true), []);
    events := OneMore(s1, Call, events);
    events := ThreeMore(REGISTERED, Call, LockAwaited(0, true), RunSettles(0, false), events);
  }

  predicate OnlyCalls(events: seq<Event>) {
    forall e | e in events :: !e.PausedIs? && !e.ColdShutdown? && !e.ShutdownSettles?
  }

  /**
   * An idle worker is never mended: while the library reports no pause, however many calls
   * are made, none resumes it, starts it or replaces it.
   */
  lemma {:induction false} IdleStaysIdle(s: Lazy, events: seq<Event>)
    requires Inv(s) && Idle(s) && PossibleRun(s, events) && OnlyCalls(events)
    requires forall i | 0 <= i < |s.callers| :: !InTurn(s.callers[i])
    ensures Idle(Run(s, events)) && Run(s, events).worker == s.worker && Run(s, events).made == s.made
    decreases events
  {
    if events != [] {
      StepKeeps(s, events[0]);
      IdleStaysIdle(Step(s, events[0]), events[1..]);
    }
  }

  /** A start that fails leaves the worker idle, with nothing under way. */
  lemma FailedStartIsIdle(s: Lazy, i: nat)
    requires Inv(s) && Possible(s, RunSettles(i, false)) && s.worker.Some? && !s.paused
    ensures Idle(Step(s, RunSettles(i, false)))
    ensures forall j | 0 <= j < |s.callers| :: !InTurn(Step(s, RunSettles(i, false)).callers[j])
  {
    OthersWait(s, i);
  }

  // ----- what becomes of a call

  /** A call throws exactly when the worker it makes, having found none or closed the one it had, cannot be made. */
  lemma ThrowsExactly(s: Lazy, e: Event, i: nat)
    requires Possible(s, e) && StepsCaller(e, i)
    ensures Step(s, e).callers[i] == Over(true) <==>
      (e.DestroyReturns? || (e.LockAwaited? && s.worker.None?)) && !e.constructs
  {
  }

  /**
   * A worker that fails to resume is closed and another made and started in its place, by the
   * same call: with no shutdown beside it, it is that worker the manager ends with.
   */
  lemma FailedResumeReplaces(s: Lazy, i: nat, ok: bool) returns (events: seq<Event>)
    requires Inv(s) && Attended(s) && Possible(s, ResumeSettles(i, false))
    ensures events == [ResumeSettles(i, false), CloseSettles(i), DestroyReturns(i, true), RunSettles(i, ok)]
    ensures PossibleRun(s, events) && s.worker.Some?
    ensures var s' := Run(s, events);
      && s'.worker == Some(s.made) && s'.made == s.made + 1 && s'.closed == s.closed + {s.worker.value}
      && s'.isRunning == ok && s'.callers == s.callers[i := Over(false)]
  {
    assert HasWorker(s, s.callers[i]);
    var s1 := Step(s, ResumeSettles(i, false));
    var s2 := Step(Step(s1, CloseSettles(i)), DestroyReturns(i, true));
    assert s2.callers[i].Starting?;
    events := OneMore(s2, RunSettles(i, ok), []);
    events := ThreeMore(s, ResumeSettles(i, false), CloseSettles(i), DestroyReturns(i, true), [RunSettles(i, ok)]);
  }

  /** A worker paused while nothing was asked of it is resumed by the next call, and no other is made. */
  lemma PausedWorkerComesBack(s: Lazy, constructs: bool) returns (paused: Lazy, events: seq<Event>)
    requires Inv(s) && Possible(s, WarmPause) && forall i | 0 <= i < |s.callers| :: s.callers[i].Over?
    ensures PossibleRun(s, [WarmPause, PausedIs(true)]) && paused == Run(s, [WarmPause, PausedIs(true)])
    ensures paused == s.(isRunning := false, paused := true)
    ensures events == [Call, LockAwaited(|s.callers|, constructs), ResumeSettles(|s.callers|, true)]
    ensures PossibleRun(paused, events)
    ensures var s' := Run(paused, events);
      && s'.worker == s.worker && s'.made == s.made && s'.isRunning
      && s'.callers == s.callers + [Over(false)]
  {
    var n := |s.callers|;
    paused := Step(Step(s, WarmPause), PausedIs(true));
    var back := OneMore(Step(s, WarmPause), PausedIs(true), []);
    back := OneMore(s, WarmPause, back);
    events := ThreeMore(paused, Call, LockAwaited(n, constructs), ResumeSettles(n, true), []);
  }

  /** A cold shutdown with nothing beside it closes the worker there is and leaves none, counted as running or not. */
  lemma ShutdownFreesTheWorker(s: Lazy) returns (events: seq<Event>)
    requires Inv(s) && NoStray(s) && Possible(s, ColdShutdown)
    ensures events == [ColdShutdown, ShutdownSettles(|s.shutdowns|)]
    ensures PossibleRun(s, events)
    ensures var s' := Run(s, events);
      && s'.worker.None? && !s'.isRunning && s'.closed == s.closed + {s.worker.value}
      && forall w: nat :: !Open(s', w)
  {
    var s1 := Step(s, ColdShutdown);
    events := OneMore(s1, ShutdownSettles(|s.shutdowns|), []);
    events := OneMore(s, ColdShutdown, events);
    var s' := Step(s1, ShutdownSettles(|s.shutdowns|));
    assert Run(s, events) == s';
    forall w: nat ensures !Open(s', w) {
      assert Open(s', w) ==> Open(s, w);
    }
  }
}
