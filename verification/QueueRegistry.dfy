/**
 * Single-flight initialisation of the queue set: the registry and the promise of the
 * attempt in flight are global, shared by every caller and every instance of the module.
 */
module QueueRegistry {
  import opened Basics

  datatype Attempt = Building | Built | Broken

  /** A caller awaiting an attempt, its own or another's; or one that has been answered. */
  datatype Caller = Awaiting(attempt: nat, owner: bool) | Got(built: nat) | Threw

  datatype Closer = Closing(closing: nat) | Ended

  /** Attempt k, when it succeeds, builds the queue set k. */
  datatype Globals = Globals(
    registry: Option<nat>, initializing: Option<nat>,
    attempts: seq<Attempt>, callers: seq<Caller>, closers: seq<Closer>, closed: set<nat>)

  datatype Event = Call | Build(k: nat, ok: bool) | Resume(i: nat) | CloseBegin | CloseEnd(j: nat, ok: bool)

  predicate Possible(s: Globals, e: Event) {
    match e
    case Build(k, _) => k < |s.attempts| && s.attempts[k].Building?
    case Resume(i) =>
      && i < |s.callers| && s.callers[i].Awaiting?
      && s.callers[i].attempt < |s.attempts| && !s.attempts[s.callers[i].attempt].Building?
    case CloseEnd(j, _) => j < |s.closers| && s.closers[j].Closing?
    case _ => true
  }

  function Step(s: Globals, e: Event): Globals
    requires Possible(s, e)
  {
    match e
    case Call =>
      if s.registry.Some? then s.(callers := s.callers + [Got(s.registry.value)])
      else if s.initializing.Some? then s.(callers := s.callers + [Awaiting(s.initializing.value, false)])
      else
        s.(initializing := Some(|s.attempts|), attempts := s.attempts + [Building],
           callers := s.callers + [Awaiting(|s.attempts|, true)])
    case Build(k, ok) =>
      if ok then s.(attempts := s.attempts[k := Built], registry := Some(k))
      else s.(attempts := s.attempts[k := Broken])
    case Resume(i) =>
      var c := s.callers[i];
      s.(callers := s.callers[i := if s.attempts[c.attempt].Built? then Got(c.attempt) else Threw],
         initializing := if c.owner then None else s.initializing)
    case CloseBegin =>
      if s.registry.Some? then s.(closers := s.closers + [Closing(s.registry.value)]) else s
    case CloseEnd(j, ok) =>
      var s' := s.(closers := s.closers[j := Ended]);
      if ok then s'.(registry := None, closed := s.closed + {s.closers[j].closing}) else s'
  }

  const FRESH_PROCESS := Globals(None, None, [], [], [], {})

  /** The two globals; the rest is what the process has in flight. */
  class RegistryGlobals {
    var queueRegistry: Option<nat>
    var queueRegistryInitializing: Option<nat>
    ghost var attempts: seq<Attempt>
    ghost var callers: seq<Caller>
    ghost var closers: seq<Closer>
    ghost var closed: set<nat>
    var nextAttempt: nat

    ghost function State(): Globals
      reads this
    {
      Globals(queueRegistry, queueRegistryInitializing, attempts, callers, closers, closed)
    }

    constructor ()
      ensures State() == FRESH_PROCESS && nextAttempt == |attempts|
    {
      queueRegistry, queueRegistryInitializing, nextAttempt := None, None, 0;
      attempts, callers, closers, closed := [], [], [], {};
    }

    /** A call up to its await: an existing set is returned at once, otherwise an attempt is joined or begun. */
    method InitializeQueues() returns (caller: Caller)
      requires nextAttempt == |attempts|
      modifies this
      ensures State() == Step(old(State()), Event.Call) && nextAttempt == |attempts|
      ensures callers == old(callers) + [caller]
    {
      if queueRegistry.Some? {
        caller := Got(queueRegistry.value);
      } else if queueRegistryInitializing.Some? {
        caller := Awaiting(queueRegistryInitializing.value, false);
      } else {
        caller := Awaiting(nextAttempt, true);
        queueRegistryInitializing := Some(nextAttempt);
        nextAttempt := nextAttempt + 1;
        attempts := attempts + [Building];
      }
      callers := callers + [caller];
    }

    /** The rest of an attempt, once the retention is loaded: creating any queue may throw. */
    method BuildQueues(k: nat, ok: bool)
      requires Possible(State(), Event.Build(k, ok)) && nextAttempt == |attempts|
      modifies this
      ensures State() == Step(old(State()), Event.Build(k, ok)) && nextAttempt == |attempts|
    {
      if ok {
        queueRegistry := Some(k);
      }
      attempts := attempts[k := if ok then Built else Broken];
    }

    /** A caller's await is over; the one that began the attempt also clears the promise. */
    method Awaited(i: nat, owner: bool)
      requires Possible(State(), Event.Resume(i)) && nextAttempt == |attempts|
      requires owner == callers[i].owner
      modifies this
      ensures State() == Step(old(State()), Event.Resume(i)) && nextAttempt == |attempts|
    {
      if owner {
        queueRegistryInitializing := None;
      }
      callers := callers[i := if attempts[callers[i].attempt].Built? then Got(callers[i].attempt) else Threw];
    }

    method CloseAllQueues()
      requires nextAttempt == |attempts|
      modifies this
      ensures State() == Step(old(State()), Event.CloseBegin) && nextAttempt == |attempts|
    {
      if queueRegistry.None? {
        return;
      }
      closers := closers + [Closing(queueRegistry.value)];
    }

    /** Every queue has closed, or one has failed to. */
    method QueuesClosed(j: nat, ok: bool)
      requires Possible(State(), Event.CloseEnd(j, ok)) && nextAttempt == |attempts|
      modifies this
      ensures State() == Step(old(State()), Event.CloseEnd(j, ok)) && nextAttempt == |attempts|
    {
      if ok {
        queueRegistry := None;
        closed := closed + {closers[j].closing};
      }
      closers := closers[j := Ended];
    }
  }

  // ----- what every step keeps

  ghost predicate Owns(s: Globals, i: nat, k: nat) {
    i < |s.callers| && s.callers[i] == Awaiting(k, true)
  }

  ghost predicate Callers(s: Globals) {
    forall i | 0 <= i < |s.callers| ::
      match s.callers[i]
      case Awaiting(k, owner) => k < |s.attempts| && (owner ==> s.initializing == Some(k))
      case Got(k) => k < |s.attempts| && s.attempts[k].Built?
      case Threw => true
  }

  /** The promise is there exactly while its owner awaits it, and only its attempt can be building. */
  ghost predicate SingleFlight(s: Globals) {
    && (s.initializing.Some? ==>
          && s.initializing.value < |s.attempts|
          && (exists i: nat :: Owns(s, i, s.initializing.value))
          && (s.registry.Some? ==> s.registry == s.initializing))
    && (forall k | 0 <= k < |s.attempts| && s.attempts[k].Building? :: s.initializing == Some(k) && s.registry.None?)
  }

  ghost predicate Sets(s: Globals) {
    && (s.registry.Some? ==> s.registry.value < |s.attempts| && s.attempts[s.registry.value].Built?)
    && (forall j | 0 <= j < |s.closers| && s.closers[j].Closing? ::
          s.closers[j].closing < |s.attempts| && s.attempts[s.closers[j].closing].Built?)
  }

  /** Only one caller awaits an attempt as its owner. */
  ghost predicate OneOwner(s: Globals) {
    forall i, j | 0 <= i < j < |s.callers| :: !(Awaits(s.callers[i]) && Awaits(s.callers[j]))
  }

  predicate Awaits(c: Caller) {
    c.Awaiting? && c.owner
  }

  ghost predicate Inv(s: Globals) {
    Callers(s) && SingleFlight(s) && Sets(s) && OneOwner(s)
  }

  lemma StepKeeps(s: Globals, e: Event)
    requires Inv(s) && Possible(s, e)
    ensures Inv(Step(s, e))
  {
    StepKeepsCallers(s, e);
    StepKeepsOneOwner(s, e);
    StepKeepsSets(s, e);
    StepKeepsFlight(s, e);
  }

  lemma StepKeepsCallers(s: Globals, e: Event)
    requires Inv(s) && Possible(s, e)
    ensures Callers(Step(s, e))
  {
    if e.Resume? && s.callers[e.i].owner {
      assert forall j | 0 <= j < |s.callers| && j != e.i :: !Awaits(s.callers[j]);
    }
  }

  lemma StepKeepsOneOwner(s: Globals, e: Event)
    requires Inv(s) && Possible(s, e)
    ensures OneOwner(Step(s, e))
  {
    if e.Call? && s.initializing.None? {
      assert forall j | 0 <= j < |s.callers| :: !Awaits(s.callers[j]);
    }
  }

  lemma StepKeepsSets(s: Globals, e: Event)
    requires Inv(s) && Possible(s, e)
    ensures Sets(Step(s, e))
  {
  }

  lemma StepKeepsFlight(s: Globals, e: Event)
    requires Inv(s) && Possible(s, e)
    ensures SingleFlight(Step(s, e))
  {
    var s' := Step(s, e);
    if s'.initializing.Some? {
      if s.initializing.Some? {
        var i: nat :| Owns(s, i, s.initializing.value);
        assert Owns(s', i, s.initializing.value);
      } else {
        assert Owns(s', |s.callers|, |s.attempts|);
      }
    }
  }

  // ----- runs

  function Run(s: Globals, events: seq<Event>): Globals
    requires PossibleRun(s, events)
    decreases events
  {
    if events == [] then s else Run(Step(s, events[0]), events[1..])
  }

  predicate PossibleRun(s: Globals, events: seq<Event>)
    decreases events
  {
    events != [] ==> Possible(s, events[0]) && PossibleRun(Step(s, events[0]), events[1..])
  }

  lemma {:induction false} RunKeeps(s: Globals, events: seq<Event>)
    requires Inv(s) && PossibleRun(s, events)
    ensures Inv(Run(s, events))
    decreases events
  {
    if events != [] {
      StepKeeps(s, events[0]);
      RunKeeps(Step(s, events[0]), events[1..]);
    }
  }

  /** At any time, at most one attempt is building, whoever called from wherever. */
  lemma OneBuilderAtATime(events: seq<Event>, j: nat, k: nat)
    requires PossibleRun(FRESH_PROCESS, events)
    ensures var s := Run(FRESH_PROCESS, events);
      j < k < |s.attempts| ==> !(s.attempts[j].Building? && s.attempts[k].Building?)
  {
    RunKeeps(FRESH_PROCESS, events);
  }

  function Held(s: Globals): seq<nat> {
    if s.registry.Some? then [s.registry.value] else []
  }

  /** The sets built in a run, in order. */
  function BuiltSets(events: seq<Event>): seq<nat> {
    if events == [] then []
    else (if events[0].Build? && events[0].ok then [events[0].k] else []) + BuiltSets(events[1..])
  }

  /** The sets that closes cleared from the registry, in order. */
  function ClearedSets(s: Globals, events: seq<Event>): seq<nat>
    requires PossibleRun(s, events)
    decreases events
  {
    if events == [] then []
    else
      (if events[0].CloseEnd? && events[0].ok then Held(s) else []) + ClearedSets(Step(s, events[0]), events[1..])
  }

  /**
   * Sets are built and cleared in turn, whatever the interleaving: the one there at first
   * and those built since are, in order, those that closes cleared and the one there now.
   */
  lemma {:induction false} SetsConserved(s: Globals, events: seq<Event>)
    requires Inv(s) && PossibleRun(s, events)
    ensures Held(s) + BuiltSets(events) == ClearedSets(s, events) + Held(Run(s, events))
    decreases events
  {
    if events != [] {
      var next, rest := Step(s, events[0]), events[1..];
      StepKeeps(s, events[0]);
      SetsConserved(next, rest);
      if events[0].CloseEnd? && events[0].ok {
        Regroup(Held(s), ClearedSets(next, rest), Held(Run(next, rest)));
        assert Held(next) + BuiltSets(rest) == BuiltSets(rest) && [] + BuiltSets(rest) == BuiltSets(rest);
      } else if events[0].Build? && events[0].ok {
        assert Held(s) == [] && Held(next) == [events[0].k];
        assert [] + ([events[0].k] + BuiltSets(rest)) == [events[0].k] + BuiltSets(rest);
        assert [] + ClearedSets(next, rest) == ClearedSets(next, rest);
      } else {
        assert [] + BuiltSets(rest) == BuiltSets(rest) && [] + ClearedSets(next, rest) == ClearedSets(next, rest);
      }
    }
  }

  predicate NoCloseEnds(events: seq<Event>) {
    forall e | e in events :: !(e.CloseEnd? && e.ok)
  }

  lemma {:induction false} NothingCleared(s: Globals, events: seq<Event>)
    requires PossibleRun(s, events) && NoCloseEnds(events)
    ensures ClearedSets(s, events) == []
    decreases events
  {
    if events != [] {
      NothingCleared(Step(s, events[0]), events[1..]);
    }
  }

  /** Between two closes at most one set is built, and none where one was there before, which stays. */
  lemma AtMostOneSetBetweenCloses(s: Globals, events: seq<Event>)
    requires Inv(s) && PossibleRun(s, events) && NoCloseEnds(events)
    ensures Held(s) + BuiltSets(events) == Held(Run(s, events))
    ensures |Held(s)| + |BuiltSets(events)| <= 1
    ensures s.registry.Some? ==> Run(s, events).registry == s.registry
  {
    SetsConserved(s, events);
    NothingCleared(s, events);
    assert [] + Held(Run(s, events)) == Held(Run(s, events));
    assert |Held(s) + BuiltSets(events)| == |Held(s)| + |BuiltSets(events)|;
    if s.registry.Some? {
      assert (Held(s) + BuiltSets(events))[0] == s.registry.value;
    }
  }

  /** Whoever still awaits a finished attempt awaits the set now registered. */
  predicate UpToDate(s: Globals) {
    forall i | 0 <= i < |s.callers| && s.callers[i].Awaiting? ::
      s.callers[i].attempt < |s.attempts| && s.attempts[s.callers[i].attempt].Built? ==>
        s.registry == Some(s.callers[i].attempt)
  }

  predicate AllAnswered(s: Globals) {
    forall i | 0 <= i < |s.callers| && s.callers[i].Awaiting? ::
      s.callers[i].attempt < |s.attempts| && s.attempts[s.callers[i].attempt].Building?
  }

  /**
   * Only a close can leave a caller with a set of the past, and only one that ends before the
   * caller has been answered.
   */
  lemma StaysUpToDate(s: Globals, e: Event)
    requires Inv(s) && Possible(s, e) && UpToDate(s)
    requires e.CloseEnd? && e.ok ==> AllAnswered(s)
    ensures UpToDate(Step(s, e))
  {
  }

  lemma {:induction false} AnswerStands(s: Globals, events: seq<Event>, i: nat)
    requires PossibleRun(s, events) && i < |s.callers| && !s.callers[i].Awaiting?
    ensures i < |Run(s, events).callers| && Run(s, events).callers[i] == s.callers[i]
    decreases events
  {
    if events != [] {
      AnswerStands(Step(s, events[0]), events[1..], i);
    }
  }

  /**
   * Between two closes every caller that is given a set, by joining or by calling late, is
   * given one and the same: the set registered when the run ends.
   */
  lemma {:induction false} EveryCallerGetsTheSameSet(s: Globals, events: seq<Event>, i: nat)
    requires Inv(s) && UpToDate(s) && PossibleRun(s, events) && NoCloseEnds(events)
    requires i < |s.callers| ==> s.callers[i].Awaiting?
    requires i < |Run(s, events).callers| && Run(s, events).callers[i].Got?
    ensures Run(s, events).registry == Some(Run(s, events).callers[i].built)
    decreases events
  {
    if events != [] {
      var next := Step(s, events[0]);
      StepKeeps(s, events[0]);
      StaysUpToDate(s, events[0]);
      if i < |next.callers| && !next.callers[i].Awaiting? {
        AnswerStands(next, events[1..], i);
        AtMostOneSetBetweenCloses(next, events[1..]);
      } else {
        EveryCallerGetsTheSameSet(next, events[1..], i);
      }
    }
  }

  // ----- after a failure

  /** A call begins an attempt exactly when there is neither a set nor an owner still awaiting its own. */
  lemma AttemptBegunExactly(s: Globals)
    requires Inv(s)
    ensures Step(s, Call).attempts != s.attempts <==> s.registry.None? && !exists i: nat, k: nat :: Owns(s, i, k)
    ensures Step(s, Call).attempts != s.attempts ==> Step(s, Call).attempts == s.attempts + [Building]
  {
    if i: nat, k: nat :| Owns(s, i, k) {
      assert s.initializing == Some(k);
    }
  }

  /** Everyone who awaits a failed attempt throws; and once its owner has, the next call begins another. */
  lemma FailureLeavesRetryFree(s: Globals, i: nat, k: nat)
    requires Inv(s) && Owns(s, i, k) && k < |s.attempts| && s.attempts[k].Broken?
    ensures Possible(s, Resume(i)) && Step(s, Resume(i)).callers[i] == Threw
    ensures forall j | 0 <= j < |s.callers| && s.callers[j].Awaiting? && s.callers[j].attempt == k ::
      Possible(s, Resume(j)) && Step(s, Resume(j)).callers[j] == Threw
    ensures s.registry.None? ==> Step(Step(s, Resume(i)), Call).attempts == s.attempts + [Building]
  {
  }

  // ----- closing

  predicate Open(s: Globals, k: nat) {
    k < |s.attempts| && s.attempts[k].Built? && k !in s.closed
  }

  /** Every set not closed is the registered one, so there is at most one. */
  ghost predicate NoneLeft(s: Globals) {
    forall k: nat | Open(s, k) :: s.registry == Some(k)
  }

  predicate ClosesTheRegistered(s: Globals) {
    forall j | 0 <= j < |s.closers| && s.closers[j].Closing? :: s.registry == Some(s.closers[j].closing)
  }

  predicate NotClosing(s: Globals) {
    forall j | 0 <= j < |s.closers| :: s.closers[j].Ended?
  }

  /** The registered set is not closed already. */
  predicate RegisteredIsOpen(s: Globals) {
    forall k | k in s.closed :: k < |s.attempts| && s.attempts[k].Built? && s.registry != Some(k)
  }

  ghost predicate OneClose(s: Globals) {
    forall i, j | 0 <= i < j < |s.closers| :: s.closers[i].Ended? || s.closers[j].Ended?
  }

  /** A close begins only when none is under way. */
  predicate ClosesInTurn(s: Globals, events: seq<Event>)
    requires PossibleRun(s, events)
    decreases events
  {
    events != [] ==> (events[0].CloseBegin? ==> NotClosing(s)) && ClosesInTurn(Step(s, events[0]), events[1..])
  }

  /**
   * A close that ends leaves a set open and out of the registry exactly when the registry
   * holds another set than the one it closed.
   */
  lemma LeftBehindExactly(s: Globals, j: nat)
    requires Inv(s) && NoneLeft(s) && RegisteredIsOpen(s) && Possible(s, CloseEnd(j, true))
    ensures NoneLeft(Step(s, CloseEnd(j, true))) <==> s.registry.None? || s.registry == Some(s.closers[j].closing)
  {
    var s' := Step(s, CloseEnd(j, true));
    if s.registry.Some? && s.registry != Some(s.closers[j].closing) {
      assert Open(s', s.registry.value);
    }
  }

  lemma StepLeavesNone(s: Globals, e: Event)
    requires Inv(s) && Possible(s, e) && (e.CloseBegin? ==> NotClosing(s))
    requires NoneLeft(s) && ClosesTheRegistered(s) && RegisteredIsOpen(s) && OneClose(s)
    ensures var s' := Step(s, e);
      NoneLeft(s') && ClosesTheRegistered(s') && RegisteredIsOpen(s') && OneClose(s')
  {
    StepKeepsClosers(s, e);
    var s' := Step(s, e);
    forall k: nat | Open(s', k) ensures s'.registry == Some(k) {
      if !(e.Build? && k == e.k) {
        assert k < |s.attempts| && Open(s, k);
      }
    }
  }

  lemma StepKeepsClosers(s: Globals, e: Event)
    requires Inv(s) && Possible(s, e) && (e.CloseBegin? ==> NotClosing(s))
    requires ClosesTheRegistered(s) && RegisteredIsOpen(s) && OneClose(s)
    ensures var s' := Step(s, e);
      ClosesTheRegistered(s') && RegisteredIsOpen(s') && OneClose(s')
  {
  }

  /** Where closes come one at a time, there is never more than one set of queues open, and it is the registered one. */
  lemma {:induction false} NeverTwoSetsOpen(s: Globals, events: seq<Event>)
    requires Inv(s) && NoneLeft(s) && ClosesTheRegistered(s) && RegisteredIsOpen(s) && OneClose(s)
    requires PossibleRun(s, events) && ClosesInTurn(s, events)
    ensures NoneLeft(Run(s, events))
    decreases events
  {
    if events != [] {
      StepKeeps(s, events[0]);
      StepLeavesNone(s, events[0]);
      NeverTwoSetsOpen(Step(s, events[0]), events[1..]);
    }
  }

  lemma OneMore(s: Globals, e: Event, rest: seq<Event>)
    requires Possible(s, e) && PossibleRun(Step(s, e), rest)
    ensures PossibleRun(s, [e] + rest) && Run(s, [e] + rest) == Run(Step(s, e), rest)
  {
    assert ([e] + rest)[1..] == rest;
  }

  /** Two closes under way together can leave two sets open: the later one clears a set it never closed. */
  lemma OverlappingClosesLeaveASet() returns (events: seq<Event>)
    ensures PossibleRun(FRESH_PROCESS, events)
    ensures Open(Run(FRESH_PROCESS, events), 1) && Open(Run(FRESH_PROCESS, events), 2)
  {
    var s1 := Step(Step(FRESH_PROCESS, Call), Build(0, true));
    var s2 := Step(Step(s1, CloseBegin), CloseBegin);
    var s3 := Step(Step(s2, Resume(0)), CloseEnd(0, true));
    events := ThenAnotherSet(s3);
    events := TwoMore(s2, Resume(0), CloseEnd(0, true), events);
    events := TwoMore(s1, CloseBegin, CloseBegin, events);
    events := TwoMore(FRESH_PROCESS, Call, Build(0, true), events);
  }

  /** One set closed and the other close still under way: it clears the set built next, and another is built. */
  lemma ThenAnotherSet(s3: Globals) returns (events: seq<Event>)
    requires s3 == Globals(None, None, [Built], [Got(0)], [Ended, Closing(0)], {0})
    ensures PossibleRun(s3, events)
    ensures Open(Run(s3, events), 1) && Open(Run(s3, events), 2)
  {
    var s4 := Step(Step(s3, Call), Build(1, true));
    var s5 := Step(Step(s4, Resume(1)), CloseEnd(1, true));
    events := TwoMore(s5, Call, Build(2, true), []);
    events := TwoMore(s4, Resume(1), CloseEnd(1, true), events);
    events := TwoMore(s3, Call, Build(1, true), events);
  }

  lemma TwoMore(s: Globals, e: Event, f: Event, rest: seq<Event>) returns (events: seq<Event>)
    requires Possible(s, e) && Possible(Step(s, e), f) && PossibleRun(Step(Step(s, e), f), rest)
    ensures PossibleRun(s, events) && Run(s, events) == Run(Step(Step(s, e), f), rest)
  {
    OneMore(Step(s, e), f, rest);
    OneMore(s, e, [f] + rest);
    events := [e] + ([f] + rest);
  }

  // ----- what a caller is told

  /** Everyone who awaits an attempt that succeeded is given its set; with a set there, a call has it at once. */
  lemma SuccessIsShared(s: Globals, k: nat)
    requires k < |s.attempts| && s.attempts[k].Built?
    ensures forall j | 0 <= j < |s.callers| && s.callers[j].Awaiting? && s.callers[j].attempt == k ::
      Possible(s, Resume(j)) && Step(s, Resume(j)).callers[j] == Got(k)
    ensures s.registry == Some(k) ==> Step(s, Call) == s.(callers := s.callers + [Got(k)])
  {
  }

  /** A caller who joined, or called after, an attempt that succeeded, has been told nothing else. */
  ghost predicate ToldRight(s: Globals, i: nat, k: nat) {
    i < |s.callers| && (s.callers[i] == Got(k) || (s.callers[i].Awaiting? && s.callers[i].attempt == k))
  }

  lemma {:induction false} BuiltStays(s: Globals, events: seq<Event>, k: nat)
    requires PossibleRun(s, events) && k < |s.attempts| && s.attempts[k].Built?
    ensures k < |Run(s, events).attempts| && Run(s, events).attempts[k].Built?
    decreases events
  {
    if events != [] {
      BuiltStays(Step(s, events[0]), events[1..], k);
    }
  }

  /** Once an attempt has succeeded, nobody who awaits it is ever told anything but its set, closes or not. */
  lemma {:induction false} WaitersGetTheirSet(s: Globals, events: seq<Event>, i: nat, k: nat)
    requires PossibleRun(s, events) && k < |s.attempts| && s.attempts[k].Built? && ToldRight(s, i, k)
    ensures ToldRight(Run(s, events), i, k)
    decreases events
  {
    if events != [] {
      BuiltStays(s, [events[0]], k);
      WaitersGetTheirSet(Step(s, events[0]), events[1..], i, k);
    }
  }

  /** With a set registered that no close clears, no later call awaits or throws: each has that set at once. */
  lemma {:induction false} LateCallersGetIt(s: Globals, events: seq<Event>, i: nat)
    requires Inv(s) && PossibleRun(s, events) && NoCloseEnds(events) && s.registry.Some?
    requires |s.callers| <= i < |Run(s, events).callers|
    ensures Run(s, events).callers[i] == Got(s.registry.value)
    decreases events
  {
    if events != [] {
      var next := Step(s, events[0]);
      StepKeeps(s, events[0]);
      if i < |next.callers| {
        AnswerStands(next, events[1..], i);
      } else {
        LateCallersGetIt(next, events[1..], i);
      }
    }
  }

  /** A close that fails leaves everything but itself as it was, so the next one takes the same set again. */
  lemma FailedCloseCanBeRepeated(s: Globals, j: nat)
    requires Possible(s, CloseEnd(j, false)) && s.registry.Some?
    ensures var s' := Step(s, CloseEnd(j, false));
      && s'.registry == s.registry && s'.initializing == s.initializing && s'.attempts == s.attempts
      && s'.callers == s.callers && s'.closed == s.closed && s'.closers[j].Ended?
      && Step(s', CloseBegin).closers == s.closers[j := Ended] + [Closing(s.registry.value)]
  {
  }

  /** A call while an attempt is in flight awaits that attempt, whoever began it, and begins none. */
  lemma CallJoins(s: Globals, i: nat, k: nat)
    requires Inv(s) && s.registry.None? && Owns(s, i, k)
    ensures Step(s, Call) == s.(callers := s.callers + [Awaiting(k, false)])
  {
  }

  /** An attempt that fails is over, and nothing else has changed. */
  lemma FailureChangesNothing(s: Globals, k: nat)
    requires Possible(s, Build(k, false))
    ensures Step(s, Build(k, false)).attempts[k].Broken?
    ensures Step(s, Build(k, false)) == s.(attempts := Step(s, Build(k, false)).attempts)
  {
  }
}
