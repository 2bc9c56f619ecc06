/**
 * The connectivity loop: one health probe at a time, each followed by another now or
 * later, with requests during a probe coalesced into one more; and the state machine
 * that sets its pace.
 */
module ProbeLoop {
  import opened Basics

  datatype Connectivity = LiveState | OfflineState

  datatype Snapshot = Snapshot(state: Connectivity, failureStreak: nat)

  const INITIAL_CONNECTIVITY := Snapshot(LiveState, 0)

  const LIVE_PROBE_INTERVAL_MS: nat := 30_000
  const OFFLINE_BACKOFF_MIN_MS: nat := 2_000
  const OFFLINE_BACKOFF_MAX_MS: nat := 30_000
  const OFFLINE_FAILURE_STREAK_CAP: nat := 6

  function ReduceProbeResult(prev: Snapshot, reachable: bool): Snapshot {
    if reachable then (if prev.state.LiveState? then prev else INITIAL_CONNECTIVITY)
    else if prev.state.OfflineState? && prev.failureStreak >= OFFLINE_FAILURE_STREAK_CAP then prev
    else Snapshot(OfflineState, Min(prev.failureStreak + 1, OFFLINE_FAILURE_STREAK_CAP))
  }

  function Power2(n: nat): nat {
    if n == 0 then 1 else 2 * Power2(n - 1)
  }

  function NextProbeDelayMs(snapshot: Snapshot): nat {
    if snapshot.state.LiveState? then LIVE_PROBE_INTERVAL_MS
    else Min(OFFLINE_BACKOFF_MIN_MS * Power2(Max(1, snapshot.failureStreak) - 1), OFFLINE_BACKOFF_MAX_MS)
  }

  // ----- the loop

  /** The handle the loop keeps: cleared, pending, or of a timeout that has fired since. */
  datatype Handle = NoTimer | Armed(delayMs: nat) | Spent

  /** The variables of the effect, and how many probes it has begun. */
  datatype Loop = Loop(
    cancelled: bool, timer: Handle, inFlight: bool, rerunRequested: bool, snapshot: Snapshot, begun: nat)

  datatype Event = ProbeNow | Fire | Settle(reachable: bool) | Cancel

  /** A timeout fires only while armed, a probe settles only while one is in flight. */
  predicate Possible(s: Loop, e: Event) {
    match e
    case Fire => s.timer.Armed?
    case Settle(_) => s.inFlight
    case _ => true
  }

  /** Start a probe unless one is in flight, which is asked to be followed by another instead. */
  function Probed(s: Loop): Loop {
    if s.cancelled || s.inFlight then s.(rerunRequested := s.rerunRequested || s.inFlight)
    else s.(inFlight := true, begun := s.begun + 1)
  }

  function Step(s: Loop, e: Event): Loop {
    match e
    case ProbeNow => if s.cancelled then s else Probed(s.(timer := NoTimer))
    case Fire => Probed(s.(timer := Spent))
    case Settle(reachable) =>
      var landed := s.(inFlight := false);
      if s.cancelled then landed
      else
        var next := landed.(snapshot := ReduceProbeResult(s.snapshot, reachable));
        if s.rerunRequested then Probed(next.(rerunRequested := false))
        else next.(timer := Armed(NextProbeDelayMs(next.snapshot)))
    case Cancel => s.(cancelled := true, timer := NoTimer)
  }

  /** The effect as it starts: its first probe is under way. */
  function Begin(snapshot: Snapshot): Loop {
    Probed(Loop(false, NoTimer, false, false, snapshot, 0))
  }

  class ProbeEffect {
    var cancelled: bool
    var timer: Handle
    var inFlight: bool
    var rerunRequested: bool
    var snapshot: Snapshot
    ghost var begun: nat

    ghost function State(): Loop
      reads this
    {
      Loop(cancelled, timer, inFlight, rerunRequested, snapshot, begun)
    }

    constructor (snapshot: Snapshot)
      ensures State() == Begin(snapshot)
    {
      cancelled, timer, inFlight, rerunRequested := false, NoTimer, false, false;
      this.snapshot, begun := snapshot, 0;
      new;
      RunProbe();
    }

    /** Up to the request that is awaited. */
    method RunProbe()
      modifies this
      ensures State() == Probed(old(State()))
    {
      if cancelled || inFlight {
        if inFlight {
          rerunRequested := true;
        }
        return;
      }
      inFlight := true;
      begun := begun + 1;
    }

    /** From the answer on; the result is whether the reachable verdict was announced. */
    method ProbeSettled(reachable: bool) returns (announced: bool)
      requires inFlight
      modifies this
      ensures State() == Step(old(State()), Settle(reachable))
      ensures announced <==> reachable && !old(cancelled)
    {
      inFlight, announced := false, false;
      if cancelled {
        return;
      }
      snapshot := ReduceProbeResult(snapshot, reachable);
      announced := reachable;
      if rerunRequested {
        rerunRequested := false;
        RunProbe();
        return;
      }
      timer := Armed(NextProbeDelayMs(snapshot));
    }

    method TimerFired()
      requires timer.Armed?
      modifies this
      ensures State() == Step(old(State()), Event.Fire)
    {
      timer := Spent;
      RunProbe();
    }

    method ProbeNow()
      modifies this
      ensures State() == Step(old(State()), Event.ProbeNow)
    {
      if cancelled {
        return;
      }
      if timer != NoTimer {
        timer := NoTimer;
      }
      RunProbe();
    }

    method Cleanup()
      modifies this
      ensures State() == Step(old(State()), Event.Cancel)
    {
      cancelled := true;
      timer := NoTimer;
    }
  }

  // ----- over whole runs

  ghost predicate PossibleRun(s: Loop, events: seq<Event>)
    decreases events
  {
    events != [] ==> Possible(s, events[0]) && PossibleRun(Step(s, events[0]), events[1..])
  }

  function Run(s: Loop, events: seq<Event>): Loop
    decreases events
  {
    if events == [] then s else Run(Step(s, events[0]), events[1..])
  }

  /**
   * Until it is cancelled the loop has either a probe in flight or a timeout armed, never
   * both and never neither; afterwards no timeout. A rerun is only asked of a flight.
   */
  predicate Alive(s: Loop) {
    && (!s.cancelled ==> (s.inFlight <==> !s.timer.Armed?))
    && (s.cancelled ==> !s.timer.Armed?)
    && (s.rerunRequested && !s.cancelled ==> s.inFlight)
  }

  lemma StepKeepsAlive(s: Loop, e: Event)
    requires Alive(s) && Possible(s, e)
    ensures Alive(Step(s, e))
  {
  }

  /** The loop neither dies nor doubles, whatever happens in whatever order. */
  lemma {:induction false} NeitherDiesNorDoubles(s: Loop, events: seq<Event>)
    requires Alive(s) && PossibleRun(s, events)
    ensures Alive(Run(s, events))
    decreases events
  {
    if events != [] {
      StepKeepsAlive(s, events[0]);
      NeitherDiesNorDoubles(Step(s, events[0]), events[1..]);
    }
  }

  lemma LoopStartsAlive(snapshot: Snapshot, events: seq<Event>)
    requires PossibleRun(Begin(snapshot), events)
    ensures Alive(Run(Begin(snapshot), events))
  {
    NeitherDiesNorDoubles(Begin(snapshot), events);
  }

  function Settled(events: seq<Event>): nat {
    if events == [] then 0 else (if events[0].Settle? then 1 else 0) + Settled(events[1..])
  }

  /** Every probe begun has settled, but for the one in flight. */
  lemma {:induction false} ProbesConserved(s: Loop, events: seq<Event>)
    requires PossibleRun(s, events)
    ensures Run(s, events).begun - s.begun
         == Settled(events) + (if Run(s, events).inFlight then 1 else 0) - (if s.inFlight then 1 else 0)
    decreases events
  {
    if events != [] {
      ProbesConserved(Step(s, events[0]), events[1..]);
    }
  }

  /**
   * All the requests made during one flight cost one probe together: when it settles,
   * the loop goes on exactly as after a single request, with one more probe begun at once;
   * without a request it arms its timeout and begins none.
   */
  lemma {:induction false} RequestsCoalesce(s: Loop, requests: seq<Event>, reachable: bool)
    requires Alive(s) && s.inFlight && !s.cancelled
    requires forall e :: e in requests ==> e.ProbeNow?
    ensures var after := Step(Run(s, requests), Settle(reachable));
      if requests == [] && !s.rerunRequested then after.begun == s.begun && after.timer.Armed? && !after.inFlight
      else after.begun == s.begun + 1 && after.inFlight && !after.rerunRequested
    ensures requests != [] ==> Run(s, requests) == Step(s, ProbeNow)
    decreases requests
  {
    if requests != [] {
      var next := Step(s, requests[0]);
      assert requests[0] == ProbeNow;
      RequestsCoalesce(next, requests[1..], reachable);
    }
  }

  ghost predicate NotCancelled(events: seq<Event>) {
    forall e :: e in events ==> !e.Cancel?
  }

  /** A loop with a rerun asked of it begins another probe at its next settling. */
  lemma {:induction false} RerunIsKept(s: Loop, events: seq<Event>)
    requires Alive(s) && !s.cancelled && s.rerunRequested && PossibleRun(s, events)
    requires NotCancelled(events) && Settled(events) > 0
    ensures Run(s, events).begun > s.begun
    decreases events
  {
    var next := Step(s, events[0]);
    StepKeepsAlive(s, events[0]);
    if events[0].Settle? {
      BegunGrows(next, events[1..]);
    } else {
      RerunIsKept(next, events[1..]);
    }
  }

  lemma {:induction false} BegunGrows(s: Loop, events: seq<Event>)
    ensures Run(s, events).begun >= s.begun
    decreases events
  {
    if events != [] {
      BegunGrows(Step(s, events[0]), events[1..]);
    }
  }

  /**
   * Every request is followed by a probe begun no earlier than it: at once when none is in
   * flight, and otherwise by the time the one in flight has settled, unless cancelled first.
   */
  lemma RequestIsAnswered(s: Loop, events: seq<Event>)
    requires Alive(s) && !s.cancelled && PossibleRun(Step(s, ProbeNow), events)
    requires NotCancelled(events)
    ensures !s.inFlight ==> Step(s, ProbeNow).begun == s.begun + 1
    ensures Settled(events) > 0 ==> Run(Step(s, ProbeNow), events).begun > s.begun
  {
    var asked := Step(s, ProbeNow);
    StepKeepsAlive(s, ProbeNow);
    if s.inFlight && Settled(events) > 0 {
      RerunIsKept(asked, events);
    } else {
      BegunGrows(asked, events);
    }
  }

  /** Once cancelled, no probe ever begins again. */
  lemma {:induction false} CancelledIsQuiet(s: Loop, events: seq<Event>)
    requires Alive(s) && s.cancelled && PossibleRun(s, events)
    ensures Run(s, events).begun == s.begun && Run(s, events).cancelled && !Run(s, events).timer.Armed?
    decreases events
  {
    if events != [] {
      StepKeepsAlive(s, events[0]);
      CancelledIsQuiet(Step(s, events[0]), events[1..]);
    }
  }

  // ----- the pace

  function Failed(s: Snapshot, n: nat): Snapshot {
    if n == 0 then s else ReduceProbeResult(Failed(s, n - 1), false)
  }

  lemma {:induction false} StreakAfter(n: nat)
    requires n > 0
    ensures Failed(INITIAL_CONNECTIVITY, n) == Snapshot(OfflineState, Min(n, OFFLINE_FAILURE_STREAK_CAP))
  {
    if n > 1 {
      StreakAfter(n - 1);
    }
  }

  lemma {:induction false} PowerClimbs(m: nat, n: nat)
    requires m <= n
    ensures 1 <= Power2(m) <= Power2(n)
    decreases n
  {
    if m < n {
      PowerClimbs(m, n - 1);
    } else if m > 0 {
      PowerClimbs(m - 1, n - 1);
    }
  }

  /**
   * The capped streak loses nothing: after any number of failures in a row the delay is the
   * uncapped exponential backoff, held at its ceiling; and any success returns to the
   * heartbeat.
   */
  lemma BackoffIsExponential(n: nat, before: Snapshot)
    requires n > 0
    ensures NextProbeDelayMs(Failed(INITIAL_CONNECTIVITY, n)) ==
      Min(OFFLINE_BACKOFF_MIN_MS * Power2(n - 1), OFFLINE_BACKOFF_MAX_MS)
    ensures NextProbeDelayMs(ReduceProbeResult(before, true)) == LIVE_PROBE_INTERVAL_MS
  {
    StreakAfter(n);
    if n > OFFLINE_FAILURE_STREAK_CAP {
      PowerClimbs(OFFLINE_FAILURE_STREAK_CAP - 1, n - 1);
      assert Power2(5) == 2 * Power2(4) == 4 * Power2(3) == 8 * Power2(2) == 16 * Power2(1) == 32;
    }
  }

  // ----- what the loop learns

  /** The verdicts of the probes that settled, up to a cancel. */
  function Verdicts(events: seq<Event>): seq<bool> {
    if events == [] || events[0].Cancel? then []
    else (if events[0].Settle? then [events[0].reachable] else []) + Verdicts(events[1..])
  }

  function Judged(s: Snapshot, verdicts: seq<bool>): Snapshot
    decreases verdicts
  {
    if verdicts == [] then s else Judged(ReduceProbeResult(s, verdicts[0]), verdicts[1..])
  }

  lemma {:induction false} CancelledLearnsNothing(s: Loop, events: seq<Event>)
    requires s.cancelled
    ensures Run(s, events).snapshot == s.snapshot
    decreases events
  {
    if events != [] {
      CancelledLearnsNothing(Step(s, events[0]), events[1..]);
    }
  }

  /** The loop's state is what its verdicts make of the one it began with, in their order. */
  lemma {:induction false} LearnsItsVerdicts(s: Loop, events: seq<Event>)
    requires !s.cancelled && PossibleRun(s, events)
    ensures Run(s, events).snapshot == Judged(s.snapshot, Verdicts(events))
    decreases events
  {
    if events != [] {
      var next := Step(s, events[0]);
      if events[0].Cancel? {
        CancelledLearnsNothing(next, events[1..]);
      } else {
        LearnsItsVerdicts(next, events[1..]);
        if events[0].Settle? {
          var rest := Verdicts(events[1..]);
          assert ([events[0].reachable] + rest)[1..] == rest;
        } else {
          assert [] + Verdicts(events[1..]) == Verdicts(events[1..]);
        }
      }
    }
  }

  lemma {:induction false} JudgedLast(s: Snapshot, verdicts: seq<bool>, last: bool)
    ensures Judged(s, verdicts + [last]) == ReduceProbeResult(Judged(s, verdicts), last)
    decreases verdicts
  {
    if verdicts == [] {
      assert ([] + [last])[1..] == [];
    } else {
      assert (verdicts + [last])[1..] == verdicts[1..] + [last];
      JudgedLast(ReduceProbeResult(s, verdicts[0]), verdicts[1..], last);
    }
  }

  /** While live there is no streak of failures. */
  predicate Sound(s: Snapshot) {
    s.state.LiveState? ==> s == INITIAL_CONNECTIVITY
  }

  /** The last `n` verdicts are failures, and no more: before them a success, or the state the app starts in. */
  ghost predicate FailedLast(start: Snapshot, verdicts: seq<bool>, n: nat) {
    && n <= |verdicts|
    && (forall i | |verdicts| - n <= i < |verdicts| :: !verdicts[i])
    && (if n == |verdicts| then start == INITIAL_CONNECTIVITY else verdicts[|verdicts| - n - 1])
  }

  lemma {:induction false} JudgedByItsEnd(start: Snapshot, verdicts: seq<bool>, n: nat)
    requires Sound(start) && FailedLast(start, verdicts, n)
    ensures Judged(start, verdicts) == Failed(INITIAL_CONNECTIVITY, n)
    ensures Sound(Judged(start, verdicts))
    decreases |verdicts|
  {
    if verdicts != [] {
      var k := |verdicts| - 1;
      assert verdicts == verdicts[..k] + [verdicts[k]];
      JudgedLast(start, verdicts[..k], verdicts[k]);
      if n > 0 {
        JudgedByItsEnd(start, verdicts[..k], n - 1);
        StreakAfter(n);
      } else {
        StaysSound(start, verdicts[..k]);
      }
    }
  }

  lemma {:induction false} StaysSound(start: Snapshot, verdicts: seq<bool>)
    requires Sound(start)
    ensures Sound(Judged(start, verdicts))
    decreases verdicts
  {
    if verdicts != [] {
      StaysSound(ReduceProbeResult(start, verdicts[0]), verdicts[1..]);
    }
  }

  /** An armed timeout waits as long as the state asks. */
  predicate Paced(s: Loop) {
    s.timer.Armed? ==> s.timer.delayMs == NextProbeDelayMs(s.snapshot)
  }

  lemma {:induction false} StaysPaced(s: Loop, events: seq<Event>)
    requires Paced(s) && Alive(s) && PossibleRun(s, events)
    ensures Paced(Run(s, events)) && Alive(Run(s, events))
    decreases events
  {
    if events != [] {
      StepKeepsAlive(s, events[0]);
      StaysPaced(Step(s, events[0]), events[1..]);
    }
  }

  /**
   * The loop is live after a success and offline after a failure; and while no probe is in
   * flight the next one waits for the heartbeat, or after `n` failures in a row for the
   * exponential backoff up to its ceiling.
   */
  lemma FollowsItsVerdicts(start: Snapshot, events: seq<Event>, n: nat)
    requires Sound(start) && PossibleRun(Begin(start), events) && FailedLast(start, Verdicts(events), n)
    ensures var s := Run(Begin(start), events);
      && (s.snapshot.state == if n == 0 then LiveState else OfflineState)
      && (!s.cancelled && !s.inFlight ==>
            s.timer == Armed(if n == 0 then 30_000 else Min(2_000 * Power2(n - 1), 30_000)))
  {
    LearnsItsVerdicts(Begin(start), events);
    JudgedByItsEnd(start, Verdicts(events), n);
    StaysPaced(Begin(start), events);
    if n > 0 {
      StreakAfter(n);
      BackoffIsExponential(n, start);
    }
  }
}
