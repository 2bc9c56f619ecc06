/**
 * Idempotent execution of one operation id of one user: any number of requests race
 * on one Redis key through claim, run, store or release, and poll.
 */
module Idempotency {
  import opened Basics

  /** What the key holds: the placeholder of a running owner, or a completed response. */
  datatype Record = InFlight | Completed(data: string)

  datatype Stored = Nothing | Held(record: Record, expiresAt: nat)

  datatype Answer = Executed(data: string) | Cached(data: string) | Failed | Busy

  /** Where one request stands between two of its awaits. */
  datatype Request =
    | Claiming(attempt: nat)
    | Running(attempt: nat, claimedAt: nat)
    | Storing(attempt: nat, claimedAt: nat, data: string)
    | Releasing(attempt: nat, claimedAt: nat)
    | Reading(attempt: nat)
    | Sleeping(attempt: nat)
    | Answered(attempt: nat, answer: Answer)
    | Crashed(attempt: nat)

  datatype Config = Config(ttl: nat, pollMaxAttempts: nat)

  /** A handler run that returned an ok result, and when its request had claimed the key. */
  datatype Win = Win(data: string, claimedAt: nat)

  /**
   * An ok answer: the request it was given to, its data, when its Redis reply came, and the run
   * whose result was then the latest.
   */
  datatype Given = Given(request: nat, data: string, at: nat, win: int)

  /** `wins` and `answers` are the history of the run. */
  datatype State = State(now: nat, key: Stored, requests: seq<Request>, wins: seq<Win>, answers: seq<Given>)

  datatype Event =
    | Pass(span: nat)
    | Claim(i: nat)
    | HandlerOk(i: nat, data: string)
    | HandlerFails(i: nat)
    | Store(i: nat)
    | Release(i: nat, reached: bool)
    | ReadKey(i: nat)
    | Wake(i: nat)
    | Crash(i: nat)

  // ----- one request's own transitions

  function AfterClaim(r: Request, claimed: bool, now: nat): Request
    requires r.Claiming?
  {
    if claimed then Running(r.attempt, now) else Reading(r.attempt)
  }

  /** A completed response ends the request; a placeholder or nothing is polled again, up to the budget. */
  function AfterRead(r: Request, stored: Option<Record>, pollMaxAttempts: nat): Request
    requires r.Reading?
  {
    if stored.Some? && stored.value.Completed? then Answered(r.attempt, Cached(stored.value.data))
    else if r.attempt < pollMaxAttempts then Sleeping(r.attempt)
    else Answered(r.attempt, Busy)
  }

  function AfterHandler(r: Request, ok: bool, data: string): Request
    requires r.Running?
  {
    if ok then Storing(r.attempt, r.claimedAt, data) else Releasing(r.attempt, r.claimedAt)
  }

  // ----- the race

  predicate Live(s: State) {
    s.key.Held? && s.now < s.key.expiresAt
  }

  function Visible(s: State): Option<Record> {
    if Live(s) then Some(s.key.record) else None
  }

  /** Inside the section between a claim and its store or release. */
  predicate InSection(r: Request) {
    r.Running? || r.Storing? || r.Releasing?
  }

  predicate Enabled(s: State, e: Event) {
    match e
    case Pass(_) => true
    case Claim(i) => i < |s.requests| && s.requests[i].Claiming?
    case HandlerOk(i, _) => i < |s.requests| && s.requests[i].Running?
    case HandlerFails(i) => i < |s.requests| && s.requests[i].Running?
    case Store(i) => i < |s.requests| && s.requests[i].Storing?
    case Release(i, _) => i < |s.requests| && s.requests[i].Releasing?
    case ReadKey(i) => i < |s.requests| && s.requests[i].Reading?
    case Wake(i) => i < |s.requests| && s.requests[i].Sleeping?
    case Crash(i) => i < |s.requests| && !s.requests[i].Answered?
  }

  function Step(cfg: Config, s: State, e: Event): State
    requires Enabled(s, e)
  {
    match e
    case Pass(span) => s.(now := s.now + span)
    case Claim(i) =>
      // SET key placeholder EX ttl NX
      var s' := s.(requests := s.requests[i := AfterClaim(s.requests[i], !Live(s), s.now)]);
      if Live(s) then s' else s'.(key := Held(InFlight, s.now + cfg.ttl))
    case HandlerOk(i, data) =>
      var r := s.requests[i];
      s.(requests := s.requests[i := AfterHandler(r, true, data)], wins := s.wins + [Win(data, r.claimedAt)])
    case HandlerFails(i) => s.(requests := s.requests[i := AfterHandler(s.requests[i], false, "")])
    case Store(i) =>
      // SET key response EX ttl
      var r := s.requests[i];
      s.(key := Held(Completed(r.data), s.now + cfg.ttl),
         requests := s.requests[i := Answered(r.attempt, Executed(r.data))],
         answers := s.answers + [Given(i, r.data, s.now, |s.wins| - 1)])
    case Release(i, reached) =>
      // DEL key, whatever it holds; a failed DEL is swallowed
      s.(key := if reached then Nothing else s.key,
         requests := s.requests[i := Answered(s.requests[i].attempt, Failed)])
    case ReadKey(i) =>
      var r := AfterRead(s.requests[i], Visible(s), cfg.pollMaxAttempts);
      s.(requests := s.requests[i := r],
         answers := if r.Answered? && r.answer.Cached? then
                       s.answers + [Given(i, r.answer.data, s.now, |s.wins| - 1)]
                       else s.answers)
    case Wake(i) => s.(requests := s.requests[i := Claiming(s.requests[i].attempt + 1)])
    case Crash(i) => s.(requests := s.requests[i := Crashed(s.requests[i].attempt)])
  }

  function Init(n: nat, now: nat): State {
    State(now, Nothing, seq(n, _ => Claiming(0)), [], [])
  }

  /** Every handler run, with its store or release, finishes inside the TTL of its claim. */
  predicate Timely(cfg: Config, s: State) {
    forall i | 0 <= i < |s.requests| && InSection(s.requests[i]) :: s.now < s.requests[i].claimedAt + cfg.ttl
  }

  /** A run: its states, and the events between them in any interleaving. */
  ghost predicate IsRun(cfg: Config, states: seq<State>, events: seq<Event>) {
    && |states| == |events| + 1
    && states[0] == Init(|states[0].requests|, states[0].now)
    && forall k | 0 <= k < |events| :: Enabled(states[k], events[k]) && states[k + 1] == Step(cfg, states[k], events[k])
  }

  ghost predicate TimelyRun(cfg: Config, states: seq<State>) {
    forall k | 0 <= k < |states| :: Timely(cfg, states[k])
  }

  // ----- the invariant

  /** The request inside the section is alone there, and the key still holds its own placeholder. */
  ghost predicate Exclusive(cfg: Config, s: State) {
    && (forall i | 0 <= i < |s.requests| && InSection(s.requests[i]) ::
          s.requests[i].claimedAt <= s.now && s.key == Held(InFlight, s.requests[i].claimedAt + cfg.ttl))
    && (forall i, j | 0 <= i < j < |s.requests| :: !(InSection(s.requests[i]) && InSection(s.requests[j])))
  }

  /** Successful runs were claimed at least a TTL apart, and the key stays taken for a TTL after each. */
  ghost predicate Spaced(cfg: Config, s: State) {
    && (forall a, b | 0 <= a < b < |s.wins| :: s.wins[a].claimedAt + cfg.ttl <= s.wins[b].claimedAt)
    && (forall a | 0 <= a < |s.wins| :: s.wins[a].claimedAt <= s.now)
    && (forall a | 0 <= a < |s.wins| ::
          s.wins[a].claimedAt + cfg.ttl <= s.now || (s.key.Held? && s.wins[a].claimedAt + cfg.ttl <= s.key.expiresAt))
  }

  /** What the request inside the section knows of the runs before it. */
  ghost predicate Owner(cfg: Config, s: State, r: Request) {
    if r.Storing? then
      && |s.wins| > 0 && s.wins[|s.wins| - 1] == Win(r.data, r.claimedAt)
      && (forall g | 0 <= g < |s.answers| :: s.answers[g].win < |s.wins| - 1)
    else if InSection(r) then
      && (forall a | 0 <= a < |s.wins| :: s.wins[a].claimedAt + cfg.ttl <= r.claimedAt)
      && (forall g | 0 <= g < |s.answers| :: s.answers[g].at < r.claimedAt)
    else true
  }

  ghost predicate Owners(cfg: Config, s: State) {
    forall i | 0 <= i < |s.requests| :: Owner(cfg, s, s.requests[i])
  }

  /** A completed response came from the latest successful run. */
  ghost predicate Genuine(s: State) {
    s.key.Held? && s.key.record.Completed? ==> |s.wins| > 0 && s.wins[|s.wins| - 1].data == s.key.record.data
  }

  /** An ok answer carries its run's data, and was given before the next successful run was claimed. */
  ghost predicate Sound(s: State, g: Given) {
    && 0 <= g.win < |s.wins| && g.data == s.wins[g.win].data
    && s.wins[g.win].claimedAt <= g.at <= s.now
    && (g.win + 1 < |s.wins| ==> g.at < s.wins[g.win + 1].claimedAt)
    && (g.at < s.now || (s.key.Held? && g.at < s.key.expiresAt))
  }

  ghost predicate Consistent(s: State) {
    forall g | 0 <= g < |s.answers| :: Sound(s, s.answers[g])
  }

  ghost predicate Inv(cfg: Config, s: State) {
    Exclusive(cfg, s) && Spaced(cfg, s) && Owners(cfg, s) && Genuine(s) && Consistent(s)
  }

  /** Whatever the time, no step but a claim lets a second request in. */
  lemma OnlyClaimsLetIn(cfg: Config, s: State, e: Event)
    requires Exclusive(cfg, s) && Enabled(s, e) && !e.Claim?
    ensures Exclusive(cfg, Step(cfg, s, e))
  {
    if e.Store? || e.Release? {
      assert forall j | 0 <= j < |s.requests| && j != e.i :: !InSection(s.requests[j]);
    }
  }

  lemma ClaimKeepsExclusive(cfg: Config, s: State, i: nat)
    requires Exclusive(cfg, s) && Timely(cfg, s) && Enabled(s, Claim(i))
    ensures Exclusive(cfg, Step(cfg, s, Claim(i)))
  {
    if !Live(s) {
      assert forall j | 0 <= j < |s.requests| :: !InSection(s.requests[j]);
    }
  }

  lemma KeepsExclusive(cfg: Config, s: State, e: Event)
    requires Exclusive(cfg, s) && Timely(cfg, s) && Enabled(s, e)
    ensures Exclusive(cfg, Step(cfg, s, e))
  {
    if e.Claim? {
      ClaimKeepsExclusive(cfg, s, e.i);
    } else {
      OnlyClaimsLetIn(cfg, s, e);
    }
  }

  lemma KeepsSpaced(cfg: Config, s: State, e: Event)
    requires Inv(cfg, s) && Enabled(s, e)
    ensures Spaced(cfg, Step(cfg, s, e))
  {
    if e.HandlerOk? || e.Release? || e.Store? {
      assert Owner(cfg, s, s.requests[e.i]);
    }
  }

  lemma KeepsOwner(cfg: Config, s: State, e: Event, i: nat)
    requires Inv(cfg, s) && Timely(cfg, s) && Enabled(s, e) && i < |s.requests|
    ensures Owner(cfg, Step(cfg, s, e), Step(cfg, s, e).requests[i])
  {
    var r := s.requests[i];
    assert Owner(cfg, s, r);
    if InSection(r) {
      assert s.key == Held(InFlight, r.claimedAt + cfg.ttl) && Live(s);
    }
    if e.Claim? || e.HandlerOk? || e.Store? {
      KeepsOwnerOf(cfg, s, e, i);
    }
  }

  /** The steps of the one inside the section, or of the one that enters it. */
  lemma KeepsOwnerOf(cfg: Config, s: State, e: Event, i: nat)
    requires Inv(cfg, s) && Timely(cfg, s) && Enabled(s, e) && i < |s.requests|
    requires e.Claim? || e.HandlerOk? || e.Store?
    ensures Owner(cfg, Step(cfg, s, e), Step(cfg, s, e).requests[i])
  {
    assert Owner(cfg, s, s.requests[i]) && Owner(cfg, s, s.requests[e.i]);
    if i != e.i && !e.Claim? {
      assert !InSection(s.requests[i]);
    }
  }

  lemma KeepsOwners(cfg: Config, s: State, e: Event)
    requires Inv(cfg, s) && Timely(cfg, s) && Enabled(s, e)
    ensures Owners(cfg, Step(cfg, s, e))
  {
    var s' := Step(cfg, s, e);
    forall i | 0 <= i < |s'.requests| ensures Owner(cfg, s', s'.requests[i]) {
      KeepsOwner(cfg, s, e, i);
    }
  }

  lemma KeepsGenuine(cfg: Config, s: State, e: Event)
    requires Inv(cfg, s) && Enabled(s, e)
    ensures Genuine(Step(cfg, s, e))
  {
    if e.HandlerOk? {
      assert InSection(s.requests[e.i]);
    } else if e.Store? {
      assert Owner(cfg, s, s.requests[e.i]);
    } else {
      GenuineUntilDone(cfg, s, e);
    }
  }

  lemma GenuineUntilDone(cfg: Config, s: State, e: Event)
    requires Genuine(s) && Enabled(s, e) && !e.HandlerOk? && !e.Store?
    ensures Genuine(Step(cfg, s, e))
  {
  }

  lemma KeepsConsistent(cfg: Config, s: State, e: Event)
    requires cfg.ttl > 0 && Inv(cfg, s) && Enabled(s, e)
    ensures Consistent(Step(cfg, s, e))
  {
    if e.HandlerOk? || e.Release? || e.Store? {
      assert Owner(cfg, s, s.requests[e.i]);
    }
    var s' := Step(cfg, s, e);
    forall g | 0 <= g < |s'.answers| ensures Sound(s', s'.answers[g]) {
      if g < |s.answers| {
        assert Sound(s, s.answers[g]);
      }
    }
  }

  /** Every step of a timely race keeps the invariant. */
  lemma StepKeeps(cfg: Config, s: State, e: Event)
    requires cfg.ttl > 0 && Inv(cfg, s) && Timely(cfg, s) && Enabled(s, e)
    ensures Inv(cfg, Step(cfg, s, e))
  {
    KeepsExclusive(cfg, s, e);
    KeepsSpaced(cfg, s, e);
    KeepsOwners(cfg, s, e);
    KeepsGenuine(cfg, s, e);
    KeepsConsistent(cfg, s, e);
  }

  lemma {:induction false} RunKeeps(cfg: Config, states: seq<State>, events: seq<Event>, k: nat)
    requires cfg.ttl > 0 && IsRun(cfg, states, events) && TimelyRun(cfg, states) && k < |states|
    ensures Inv(cfg, states[k])
  {
    if k > 0 {
      RunKeeps(cfg, states, events, k - 1);
      StepKeeps(cfg, states[k - 1], events[k - 1]);
    }
  }

  // ----- what every run keeps

  /**
   * Over every interleaving, crashes included, at most one request is inside the handler
   * or its store or release at any moment.
   */
  lemma AtMostOneInside(cfg: Config, states: seq<State>, events: seq<Event>, k: nat, i: nat, j: nat)
    requires cfg.ttl > 0 && IsRun(cfg, states, events) && TimelyRun(cfg, states)
    requires k < |states| && i < |states[k].requests| && j < |states[k].requests|
    requires InSection(states[k].requests[i]) && InSection(states[k].requests[j])
    ensures i == j
  {
    RunKeeps(cfg, states, events, k);
  }

  /** Two successful handler runs, whether or not their response was stored, were claimed at least a TTL apart. */
  lemma WinsApart(cfg: Config, states: seq<State>, events: seq<Event>, k: nat, a: nat, b: nat)
    requires cfg.ttl > 0 && IsRun(cfg, states, events) && TimelyRun(cfg, states)
    requires k < |states| && a < b < |states[k].wins|
    ensures states[k].wins[a].claimedAt + cfg.ttl <= states[k].wins[b].claimedAt
  {
    RunKeeps(cfg, states, events, k);
  }

  /** Only an ok result is ever stored as a response, and it is the latest one. */
  lemma OnlySuccessStored(cfg: Config, states: seq<State>, events: seq<Event>, k: nat)
    requires cfg.ttl > 0 && IsRun(cfg, states, events) && TimelyRun(cfg, states) && k < |states|
    requires states[k].key.Held? && states[k].key.record.Completed?
    ensures |states[k].wins| > 0 && states[k].wins[|states[k].wins| - 1].data == states[k].key.record.data
  {
    RunKeeps(cfg, states, events, k);
  }

  /**
   * Every ok answer given within a TTL of a successful run's claim carries the data of
   * that run, executed or cached.
   */
  lemma SameWindowSameAnswer(cfg: Config, states: seq<State>, events: seq<Event>, k: nat, g: nat, w: nat)
    requires cfg.ttl > 0 && IsRun(cfg, states, events) && TimelyRun(cfg, states) && k < |states|
    requires g < |states[k].answers| && w < |states[k].wins|
    requires states[k].wins[w].claimedAt <= states[k].answers[g].at < states[k].wins[w].claimedAt + cfg.ttl
    ensures states[k].answers[g].data == states[k].wins[w].data
  {
    RunKeeps(cfg, states, events, k);
  }

  predicate IsOk(r: Request) {
    r.Answered? && (r.answer.Executed? || r.answer.Cached?)
  }

  /** The answer a request was given: it is the request's own, and carries what the request returns. */
  ghost predicate GivenTo(s: State, i: nat, g: nat)
    requires i < |s.requests|
  {
    g < |s.answers| && s.answers[g].request == i && IsOk(s.requests[i]) &&
    s.answers[g].data == s.requests[i].answer.data
  }

  /** Every request that returned ok was given exactly one answer, and no other was given any. */
  ghost predicate OneAnswerEach(s: State) {
    && (forall g | 0 <= g < |s.answers| :: s.answers[g].request < |s.requests| && GivenTo(s, s.answers[g].request, g))
    && (forall g, h | 0 <= g < h < |s.answers| :: s.answers[g].request != s.answers[h].request)
    && (forall i: nat | i < |s.requests| && IsOk(s.requests[i]) :: exists g: nat :: GivenTo(s, i, g))
  }

  /** An answer, once given, stands. */
  lemma GivenStays(cfg: Config, s: State, e: Event, i: nat, g: nat)
    requires Enabled(s, e) && i < |s.requests| && GivenTo(s, i, g)
    ensures i < |Step(cfg, s, e).requests| && GivenTo(Step(cfg, s, e), i, g)
  {
  }

  lemma NewAnswer(cfg: Config, s: State, e: Event, i: nat)
    requires Enabled(s, e) && i < |s.requests| && !IsOk(s.requests[i]) && IsOk(Step(cfg, s, e).requests[i])
    ensures GivenTo(Step(cfg, s, e), i, |s.answers|)
  {
  }

  /** A step gives at most one answer, to a request that had not returned ok. */
  lemma OneMoreAnswer(cfg: Config, s: State, e: Event)
    requires Enabled(s, e)
    ensures var s' := Step(cfg, s, e);
      s'.answers == s.answers
      || (|s'.answers| == |s.answers| + 1 && s'.answers[..|s.answers|] == s.answers
          && var i := s'.answers[|s.answers|].request; i < |s.requests| && !IsOk(s.requests[i]) && IsOk(s'.requests[i]))
  {
  }

  lemma StepAnswersOnce(cfg: Config, s: State, e: Event)
    requires OneAnswerEach(s) && Enabled(s, e)
    ensures OneAnswerEach(Step(cfg, s, e))
  {
    var s', n := Step(cfg, s, e), |s.answers|;
    OneMoreAnswer(cfg, s, e);
    forall i: nat | i < |s'.requests| && IsOk(s'.requests[i]) ensures exists g: nat :: GivenTo(s', i, g) {
      if IsOk(s.requests[i]) {
        var g: nat :| GivenTo(s, i, g);
        GivenStays(cfg, s, e, i, g);
      } else {
        NewAnswer(cfg, s, e, i);
      }
    }
    forall g | 0 <= g < |s'.answers|
      ensures s'.answers[g].request < |s'.requests| && GivenTo(s', s'.answers[g].request, g)
      ensures g < n ==> s'.answers[g] == s.answers[g] && IsOk(s.requests[s.answers[g].request])
    {
      if g < n {
        assert s'.answers[..n][g] == s.answers[g];
        GivenStays(cfg, s, e, s.answers[g].request, g);
      } else {
        NewAnswer(cfg, s, e, s'.answers[n].request);
      }
    }
  }

  lemma {:induction false} AnsweredOnce(cfg: Config, states: seq<State>, events: seq<Event>, k: nat)
    requires IsRun(cfg, states, events) && k < |states|
    ensures OneAnswerEach(states[k])
  {
    if k > 0 {
      AnsweredOnce(cfg, states, events, k - 1);
      StepAnswersOnce(cfg, states[k - 1], events[k - 1]);
    }
  }

  /** A request that had returned ok keeps its one answer, unchanged. */
  lemma AnswerWasGiven(cfg: Config, s: State, e: Event, i: nat, g: nat)
    requires Enabled(s, e) && OneAnswerEach(s) && i < |s.requests| && IsOk(s.requests[i])
    requires GivenTo(Step(cfg, s, e), i, g)
    ensures GivenTo(s, i, g) && Step(cfg, s, e).answers[g] == s.answers[g]
    ensures Step(cfg, s, e).requests[i] == s.requests[i]
  {
    OneMoreAnswer(cfg, s, e);
    if g < |s.answers| {
      assert Step(cfg, s, e).answers[..|s.answers|][g] == s.answers[g];
    }
  }

  /** The answer of a request that had not returned ok is given now. */
  lemma AnswerIsNew(cfg: Config, s: State, e: Event, i: nat, g: nat)
    requires Enabled(s, e) && OneAnswerEach(s) && i < |s.requests| && !IsOk(s.requests[i])
    requires GivenTo(Step(cfg, s, e), i, g)
    ensures Step(cfg, s, e).answers[g].at == s.now
  {
    OneMoreAnswer(cfg, s, e);
    assert forall h | 0 <= h < |s.answers| :: Step(cfg, s, e).answers[h] == s.answers[h];
    assert forall h | 0 <= h < |s.answers| :: GivenTo(s, s.answers[h].request, h);
  }

  /** The step that gave a request its answer: its time is the answer's. */
  lemma {:induction false} AnsweredAt(cfg: Config, states: seq<State>, events: seq<Event>, k: nat, i: nat, g: nat)
      returns (j: nat)
    requires IsRun(cfg, states, events) && k < |states| && i < |states[k].requests| && GivenTo(states[k], i, g)
    ensures j < k && i < |states[j].requests| && i < |states[j + 1].requests|
    ensures !IsOk(states[j].requests[i]) && states[j + 1].requests[i] == states[k].requests[i]
    ensures states[k].answers[g].at == states[j].now
  {
    AnsweredOnce(cfg, states, events, k - 1);
    if IsOk(states[k - 1].requests[i]) {
      AnswerWasGiven(cfg, states[k - 1], events[k - 1], i, g);
      j := AnsweredAt(cfg, states, events, k - 1, i, g);
    } else {
      AnswerIsNew(cfg, states[k - 1], events[k - 1], i, g);
      j := k - 1;
    }
  }

  /** A time within a TTL of a run's claim. */
  predicate Within(cfg: Config, win: Win, at: nat) {
    win.claimedAt <= at < win.claimedAt + cfg.ttl
  }

  /**
   * Every request that returns ok returns the data of a successful run that was claimed by
   * then; and where it returned within a TTL of a successful run's claim, of that run.
   */
  lemma OkReturnsTheRunsData(cfg: Config, states: seq<State>, events: seq<Event>, k: nat, i: nat)
      returns (j: nat, w: nat)
    requires cfg.ttl > 0 && IsRun(cfg, states, events) && TimelyRun(cfg, states) && k < |states|
    requires i < |states[k].requests| && IsOk(states[k].requests[i])
    ensures j < k && i < |states[j].requests| && i < |states[j + 1].requests|
    ensures !IsOk(states[j].requests[i]) && states[j + 1].requests[i] == states[k].requests[i]
    ensures w < |states[k].wins| && states[k].requests[i].answer.data == states[k].wins[w].data
    ensures states[k].wins[w].claimedAt <= states[j].now
    ensures forall v: nat | v < |states[k].wins| && Within(cfg, states[k].wins[v], states[j].now) ::
      states[k].requests[i].answer.data == states[k].wins[v].data
  {
    AnsweredOnce(cfg, states, events, k);
    RunKeeps(cfg, states, events, k);
    var g: nat :| GivenTo(states[k], i, g);
    j := AnsweredAt(cfg, states, events, k, i, g);
    assert Sound(states[k], states[k].answers[g]);
    w := states[k].answers[g].win;
    forall v: nat | v < |states[k].wins| && Within(cfg, states[k].wins[v], states[j].now)
      ensures states[k].requests[i].answer.data == states[k].wins[v].data
    {
      SameWindowSameAnswer(cfg, states, events, k, g, v);
    }
  }

  ghost predicate TwoRunning(s: State) {
    exists i, j :: 0 <= i < j < |s.requests| && s.requests[i].Running? && s.requests[j].Running?
  }

  /**
   * The assumption is needed: when an owner outlives its claim, a second request claims
   * the key and both are inside.
   */
  lemma OverrunLetsTwoIn(cfg: Config)
    ensures exists states: seq<State>, events ::
      IsRun(cfg, states, events) && |states| == 4 && TwoRunning(states[3])
  {
    var s0 := Init(2, 0);
    var s1 := Step(cfg, s0, Claim(0));
    var s2 := Step(cfg, s1, Pass(cfg.ttl));
    var s3 := Step(cfg, s2, Claim(1));
    var states, events := [s0, s1, s2, s3], [Claim(0), Pass(cfg.ttl), Claim(1)];
    assert IsRun(cfg, states, events);
    assert states[3] == s3 && s3.requests[0].Running? && s3.requests[1].Running?;
    assert TwoRunning(states[3]);
  }

  /** An owner still inside has outlived its claim. */
  predicate Overrun(cfg: Config, s: State) {
    exists j :: 0 <= j < |s.requests| && InSection(s.requests[j]) && s.requests[j].claimedAt + cfg.ttl <= s.now
  }

  /** A claim lets a second request in exactly when it meets an owner that has outlived its own. */
  lemma ClaimOverlapsExactly(cfg: Config, s: State, i: nat)
    requires Exclusive(cfg, s) && Enabled(s, Claim(i))
    ensures !Exclusive(cfg, Step(cfg, s, Claim(i))) <==> Overrun(cfg, s)
    ensures Overrun(cfg, s) ==> !OneInside(Step(cfg, s, Claim(i)))
  {
    var s' := Step(cfg, s, Claim(i));
    if j :| 0 <= j < |s.requests| && InSection(s.requests[j]) && s.requests[j].claimedAt + cfg.ttl <= s.now {
      assert InSection(s'.requests[i]) && InSection(s'.requests[j]) && i != j;
    } else {
      KeepsExclusive(cfg, s, Claim(i));
    }
  }

  ghost predicate OneInside(s: State) {
    forall i, j | 0 <= i < j < |s.requests| :: !(InSection(s.requests[i]) && InSection(s.requests[j]))
  }

  /** No claim of the first `n` steps meets an owner that has outlived its own. */
  ghost predicate NoClaimMeetsOverrun(cfg: Config, states: seq<State>, events: seq<Event>, n: nat)
    requires |states| == |events| + 1 && n <= |events|
  {
    forall k | 0 <= k < n :: events[k].Claim? ==> !Overrun(cfg, states[k])
  }

  lemma {:induction false} ExclusiveUntilOverrun(cfg: Config, states: seq<State>, events: seq<Event>, n: nat)
    requires IsRun(cfg, states, events) && n <= |events| && NoClaimMeetsOverrun(cfg, states, events, n)
    ensures Exclusive(cfg, states[n])
  {
    if n > 0 {
      ExclusiveUntilOverrun(cfg, states, events, n - 1);
      var s, e := states[n - 1], events[n - 1];
      assert states[n] == Step(cfg, s, e);
      if e.Claim? {
        ClaimOverlapsExactly(cfg, s, e.i);
      } else {
        OnlyClaimsLetIn(cfg, s, e);
      }
    }
  }

  /**
   * A run of any timing has at most one request inside at every moment if and only if none
   * of its claims meets an owner that has outlived its own.
   */
  lemma {:induction false} OneInsideExactly(cfg: Config, states: seq<State>, events: seq<Event>, n: nat)
    requires IsRun(cfg, states, events) && n <= |events|
    ensures (forall k | 0 <= k <= n :: OneInside(states[k])) <==> NoClaimMeetsOverrun(cfg, states, events, n)
  {
    if n == 0 {
      ExclusiveUntilOverrun(cfg, states, events, 0);
    } else {
      OneInsideExactly(cfg, states, events, n - 1);
      assert states[n] == Step(cfg, states[n - 1], events[n - 1]);
      if NoClaimMeetsOverrun(cfg, states, events, n - 1) {
        ExclusiveUntilOverrun(cfg, states, events, n - 1);
        if events[n - 1].Claim? {
          ClaimOverlapsExactly(cfg, states[n - 1], events[n - 1].i);
        }
        if NoClaimMeetsOverrun(cfg, states, events, n) {
          ExclusiveUntilOverrun(cfg, states, events, n);
        }
      }
    }
  }

  // ----- the claims of one request

  /** How often a request has sent its claim, over the events of a run. */
  function Claims(events: seq<Event>, i: nat): nat {
    if events == [] then 0
    else Claims(events[..|events| - 1], i) + if events[|events| - 1] == Claim(i) then 1 else 0
  }

  lemma {:induction false} ClaimsCounted(cfg: Config, states: seq<State>, events: seq<Event>, k: nat, i: nat)
    requires IsRun(cfg, states, events) && k < |states| && i < |states[0].requests|
    ensures |states[k].requests| == |states[0].requests|
    ensures states[k].requests[i].attempt <= cfg.pollMaxAttempts
    ensures states[k].requests[i].Sleeping? ==> states[k].requests[i].attempt < cfg.pollMaxAttempts
    ensures Claims(events[..k], i) <= states[k].requests[i].attempt + (if states[k].requests[i].Claiming? then 0 else 1)
  {
    if k > 0 {
      ClaimsCounted(cfg, states, events, k - 1, i);
      assert events[..k][..k - 1] == events[..k - 1] && events[..k][k - 1] == events[k - 1];
      assert states[k] == Step(cfg, states[k - 1], events[k - 1]);
    }
  }

  /** A request claims at most one time more than its polls. */
  lemma BoundedClaims(cfg: Config, states: seq<State>, events: seq<Event>, i: nat)
    requires IsRun(cfg, states, events) && i < |states[0].requests|
    ensures Claims(events, i) <= cfg.pollMaxAttempts + 1
  {
    ClaimsCounted(cfg, states, events, |events|, i);
    assert events[..|events|] == events;
  }

  // ----- the loop one request runs

  datatype HandlerResult = Succeeded(data: string) | NotOk | Threw

  /** The replies one request gets: whether each claim is granted, what each read finds, how the handler ends. */
  datatype Replies = Replies(granted: nat -> bool, found: nat -> Option<Record>, handler: HandlerResult)

  datatype Command = ClaimKey | RunHandler | SetResponse(data: string) | Delete | Get | Wait

  datatype Outcome = Direct(handler: HandlerResult) | Ended(answer: Answer)

  /** The commands a request sends from an attempt on, and its outcome, by the transitions of the race. */
  function Follow(r: Request, replies: Replies, pollMaxAttempts: nat): (p: (seq<Command>, Outcome))
    requires r.Claiming? && r.attempt <= pollMaxAttempts
    ensures p.1.Ended?
    decreases pollMaxAttempts - r.attempt
  {
    var claimed := AfterClaim(r, replies.granted(r.attempt), 0);
    if claimed.Running? then
      var ran := AfterHandler(claimed, replies.handler.Succeeded?,
                              if replies.handler.Succeeded? then replies.handler.data else "");
      if ran.Storing? then ([ClaimKey, RunHandler, SetResponse(ran.data)], Ended(Executed(ran.data)))
      else ([ClaimKey, RunHandler, Delete], Ended(Failed))
    else
      var read := AfterRead(claimed, replies.found(r.attempt), pollMaxAttempts);
      if read.Answered? then ([ClaimKey, Get], Ended(read.answer))
      else
        var rest := Follow(Claiming(r.attempt + 1), replies, pollMaxAttempts);
        ([ClaimKey, Get, Wait] + rest.0, rest.1)
  }

  /** What is left to send completes what has been sent. */
  ghost predicate Completes(sent: seq<Command>, left: (seq<Command>, Outcome), whole: (seq<Command>, Outcome)) {
    whole.0 == sent + left.0 && whole.1 == left.1
  }

  /** One attempt of the loop, which has sent so much. */
  lemma AttemptIs(sent: seq<Command>, attempt: nat, replies: Replies, pollMaxAttempts: nat,
                  whole: (seq<Command>, Outcome))
    requires attempt <= pollMaxAttempts
    requires Completes(sent, Follow(Claiming(attempt), replies, pollMaxAttempts), whole)
    ensures replies.granted(attempt) ==>
      whole == match replies.handler
               case Succeeded(data) => (sent + [ClaimKey, RunHandler, SetResponse(data)], Ended(Executed(data)))
               case _ => (sent + [ClaimKey, RunHandler, Delete], Ended(Failed))
    ensures var found := replies.found(attempt);
      !replies.granted(attempt) ==>
        if found.Some? && found.value.Completed?
        then whole == (sent + [ClaimKey, Get], Ended(Cached(found.value.data)))
        else if attempt < pollMaxAttempts
        then
          Completes(sent + [ClaimKey, Get] + [Wait], Follow(Claiming(attempt + 1), replies, pollMaxAttempts), whole)
        else whole == (sent + [ClaimKey, Get], Ended(Busy))
  {
    var read := AfterRead(Reading(attempt), replies.found(attempt), pollMaxAttempts);
    if !replies.granted(attempt) && !read.Answered? {
      var rest := Follow(Claiming(attempt + 1), replies, pollMaxAttempts);
      assert Follow(Claiming(attempt), replies, pollMaxAttempts) == ([ClaimKey, Get, Wait] + rest.0, rest.1);
      assert sent + [ClaimKey, Get] + [Wait] == sent + [ClaimKey, Get, Wait];
      Regroup(sent, [ClaimKey, Get, Wait], rest.0);
    }
  }

  /**
   * The bounded attempt loop. Whatever Redis replies, it sends the commands of the race's
   * transitions; a query, or a mutation without an id, runs its handler and nothing else.
   */
  method RunWithIdempotency(isMutation: bool, operationId: Option<string>, replies: Replies, pollMaxAttempts: nat)
    returns (commands: seq<Command>, outcome: Outcome)
    ensures !isMutation || operationId == None || operationId == Some("") ==>
      commands == [RunHandler] && outcome == Direct(replies.handler)
    ensures isMutation && operationId.Some? && operationId.value != "" ==>
      (commands, outcome) == Follow(Claiming(0), replies, pollMaxAttempts)
  {
    if !isMutation || operationId.None? || operationId.value == "" {
      return [RunHandler], Direct(replies.handler);
    }
    ghost var whole := Follow(Claiming(0), replies, pollMaxAttempts);
    commands := [];
    var attempt := 0;
    while attempt <= pollMaxAttempts
      invariant attempt <= pollMaxAttempts + 1
      invariant attempt <= pollMaxAttempts ==>
        Completes(commands, Follow(Claiming(attempt), replies, pollMaxAttempts), whole)
      invariant attempt > pollMaxAttempts ==> (commands, Ended(Busy)) == whole
    {
      AttemptIs(commands, attempt, replies, pollMaxAttempts, whole);
      if replies.granted(attempt) {
        match replies.handler
        case Succeeded(data) =>
          return commands + [ClaimKey, RunHandler, SetResponse(data)], Ended(Executed(data));
        case _ =>
          return commands + [ClaimKey, RunHandler, Delete], Ended(Failed);
      }
      commands := commands + [ClaimKey, Get];
      var stored := replies.found(attempt);
      if stored.Some? && stored.value.Completed? {
        return commands, Ended(Cached(stored.value.data));
      }
      if attempt < pollMaxAttempts {
        commands := commands + [Wait];
      }
      attempt := attempt + 1;
    }
    outcome := Ended(Busy);
  }

  /** So many claims refused and polled again. */
  function Polls(k: nat): seq<Command> {
    if k == 0 then [] else [ClaimKey, Get, Wait] + Polls(k - 1)
  }

  /** How a request ends: it runs its handler and stores or releases, or it reads an answer or gives up. */
  predicate IsTail(tail: seq<Command>, outcome: Outcome, handler: HandlerResult) {
    match outcome
    case Ended(Executed(data)) => handler == Succeeded(data) && tail == [ClaimKey, RunHandler, SetResponse(data)]
    case Ended(Failed) => !handler.Succeeded? && tail == [ClaimKey, RunHandler, Delete]
    case Ended(_) => tail == [ClaimKey, Get]
    case Direct(_) => false
  }

  predicate PollsAgain(attempt: nat, replies: Replies, pollMaxAttempts: nat) {
    !replies.granted(attempt) && AfterRead(Reading(attempt), replies.found(attempt), pollMaxAttempts).Sleeping?
  }

  lemma PolledOnce(attempt: nat, replies: Replies, pollMaxAttempts: nat)
    requires attempt < pollMaxAttempts && PollsAgain(attempt, replies, pollMaxAttempts)
    ensures var rest := Follow(Claiming(attempt + 1), replies, pollMaxAttempts);
      Follow(Claiming(attempt), replies, pollMaxAttempts) == ([ClaimKey, Get, Wait] + rest.0, rest.1)
  {
  }

  lemma LastAttempt(attempt: nat, replies: Replies, pollMaxAttempts: nat)
    requires attempt <= pollMaxAttempts && !PollsAgain(attempt, replies, pollMaxAttempts)
    ensures var p := Follow(Claiming(attempt), replies, pollMaxAttempts);
      IsTail(p.0, p.1, replies.handler) && (p.1 == Ended(Busy) ==> attempt == pollMaxAttempts)
  {
  }

  /**
   * Whatever the replies, a request polls at most `pollMaxAttempts` times, exactly so often
   * when it gives up, and then ends in one of three ways: its handler runs at most once,
   * a response is stored only if it returned ok, and the claim is released if it did not.
   */
  lemma {:induction false} RequestShape(attempt: nat, replies: Replies, pollMaxAttempts: nat)
      returns (k: nat, tail: seq<Command>)
    requires attempt <= pollMaxAttempts
    ensures k <= pollMaxAttempts - attempt
    ensures Follow(Claiming(attempt), replies, pollMaxAttempts).0 == Polls(k) + tail
    ensures IsTail(tail, Follow(Claiming(attempt), replies, pollMaxAttempts).1, replies.handler)
    ensures Follow(Claiming(attempt), replies, pollMaxAttempts).1 == Ended(Busy) ==> k == pollMaxAttempts - attempt
    decreases pollMaxAttempts - attempt
  {
    if PollsAgain(attempt, replies, pollMaxAttempts) {
      k, tail := RequestShape(attempt + 1, replies, pollMaxAttempts);
      PolledOnce(attempt, replies, pollMaxAttempts);
      assert [ClaimKey, Get, Wait] + (Polls(k) + tail) == Polls(k + 1) + tail;
      k := k + 1;
    } else {
      LastAttempt(attempt, replies, pollMaxAttempts);
      k, tail := 0, Follow(Claiming(attempt), replies, pollMaxAttempts).0;
      assert Polls(0) + tail == tail;
    }
  }

  // ----- what a request comes to

  /** From one attempt up to another every claim is refused, and every read finds nothing or a running owner. */
  ghost predicate Waits(replies: Replies, from: nat, until: nat) {
    forall k: nat | from <= k < until ::
      !replies.granted(k) && (replies.found(k) == None || replies.found(k) == Some(InFlight))
  }

  lemma WaitsOnce(replies: Replies, from: nat, until: nat, pollMaxAttempts: nat)
    requires from < until <= pollMaxAttempts && Waits(replies, from, until)
    ensures PollsAgain(from, replies, pollMaxAttempts) && Waits(replies, from + 1, until)
  {
  }

  lemma {:induction false} AfterWaiting(replies: Replies, from: nat, until: nat, pollMaxAttempts: nat)
    requires from <= until <= pollMaxAttempts && Waits(replies, from, until)
    ensures var rest := Follow(Claiming(until), replies, pollMaxAttempts);
      Follow(Claiming(from), replies, pollMaxAttempts) == (Polls(until - from) + rest.0, rest.1)
    decreases until - from
  {
    var rest := Follow(Claiming(until), replies, pollMaxAttempts);
    if from == until {
      assert Polls(0) + rest.0 == rest.0;
    } else {
      AfterWaiting(replies, from + 1, until, pollMaxAttempts);
      WaitsOnce(replies, from, until, pollMaxAttempts);
      PolledOnce(from, replies, pollMaxAttempts);
      Regroup([ClaimKey, Get, Wait], Polls(until - from - 1), rest.0);
    }
  }

  /** The first completed response a request reads is its answer, and its handler never runs. */
  lemma FoundIsReturned(replies: Replies, from: nat, at: nat, data: string, pollMaxAttempts: nat)
    requires from <= at <= pollMaxAttempts && Waits(replies, from, at)
    requires !replies.granted(at) && replies.found(at) == Some(Completed(data))
    ensures Follow(Claiming(from), replies, pollMaxAttempts) ==
      (Polls(at - from) + [ClaimKey, Get], Ended(Cached(data)))
  {
    AfterWaiting(replies, from, at, pollMaxAttempts);
  }

  /** The first claim granted runs the handler, once: its result is stored and returned, or the claim released. */
  lemma GrantedRuns(replies: Replies, from: nat, at: nat, pollMaxAttempts: nat)
    requires from <= at <= pollMaxAttempts && Waits(replies, from, at) && replies.granted(at)
    ensures Follow(Claiming(from), replies, pollMaxAttempts) ==
      match replies.handler
      case Succeeded(data) => (Polls(at - from) + [ClaimKey, RunHandler, SetResponse(data)], Ended(Executed(data)))
      case _ => (Polls(at - from) + [ClaimKey, RunHandler, Delete], Ended(Failed))
  {
    AfterWaiting(replies, from, at, pollMaxAttempts);
  }

  predicate FindsResponse(replies: Replies, attempt: nat) {
    replies.found(attempt).Some? && replies.found(attempt).value.Completed?
  }

  /** The first attempt that does not wait, or the one after the last. */
  function FirstReply(replies: Replies, from: nat, pollMaxAttempts: nat): (at: nat)
    requires from <= pollMaxAttempts + 1
    ensures from <= at <= pollMaxAttempts + 1 && Waits(replies, from, at)
    ensures at <= pollMaxAttempts ==> replies.granted(at) || FindsResponse(replies, at)
    decreases pollMaxAttempts + 1 - from
  {
    if from > pollMaxAttempts || replies.granted(from) || FindsResponse(replies, from) then from
    else FirstReply(replies, from + 1, pollMaxAttempts)
  }

  /** A request gives up if and only if no claim of its budget is granted and no read of it finds a response. */
  lemma GivesUpExactly(replies: Replies, pollMaxAttempts: nat)
    ensures Follow(Claiming(0), replies, pollMaxAttempts).1 == Ended(Busy) <==> Waits(replies, 0, pollMaxAttempts + 1)
  {
    var at := FirstReply(replies, 0, pollMaxAttempts);
    if at > pollMaxAttempts {
      AfterWaiting(replies, 0, pollMaxAttempts, pollMaxAttempts);
      assert !replies.granted(pollMaxAttempts);
    } else if replies.granted(at) {
      GrantedRuns(replies, 0, at, pollMaxAttempts);
    } else {
      FoundIsReturned(replies, 0, at, replies.found(at).value.data, pollMaxAttempts);
    }
  }

  // ----- what the key does for a request

  /** A request that reads a live response has it for its answer; any other read is polled again, within the budget. */
  lemma ReadMeans(cfg: Config, s: State, i: nat, attempt: nat)
    requires i < |s.requests| && s.requests[i] == Reading(attempt)
    ensures var r, key := Step(cfg, s, ReadKey(i)).requests[i], s.key;
      if key.Held? && s.now < key.expiresAt && key.record.Completed?
      then r == Answered(attempt, Cached(key.record.data))
      else r == if attempt < cfg.pollMaxAttempts then Sleeping(attempt) else Answered(attempt, Busy)
    ensures Step(cfg, s, ReadKey(i)).key == s.key
  {
  }

  /** A claim is granted for a TTL, and its handler begins, exactly when the key is free: empty or expired. */
  lemma ClaimMeans(cfg: Config, s: State, i: nat, attempt: nat)
    requires i < |s.requests| && s.requests[i] == Claiming(attempt)
    ensures var s', free := Step(cfg, s, Claim(i)), s.key == Nothing || s.key.expiresAt <= s.now;
      && s'.requests[i] == (if free then Running(attempt, s.now) else Reading(attempt))
      && s'.key == (if free then Held(InFlight, s.now + cfg.ttl) else s.key)
  {
  }

  /** A release that reached Redis leaves the key free: whoever claims it next runs its handler. */
  lemma ReleasedIsFree(cfg: Config, s: State, i: nat, j: nat)
    requires Enabled(s, Release(i, true)) && j < |s.requests| && i != j && s.requests[j].Claiming?
    ensures var released := Step(cfg, s, Release(i, true));
      && released.key == Nothing && released.requests[i] == Answered(s.requests[i].attempt, Failed)
      && Enabled(released, Claim(j))
      && Step(cfg, released, Claim(j)).requests[j] == Running(s.requests[j].attempt, s.now)
  {
  }

  /** A result is stored for a TTL, and returned to the request that has it stored. */
  lemma StoreMeans(cfg: Config, s: State, i: nat)
    requires Enabled(s, Store(i))
    ensures var s', r := Step(cfg, s, Store(i)), s.requests[i];
      && s'.key == Held(Completed(r.data), s.now + cfg.ttl)
      && s'.requests[i] == Answered(r.attempt, Executed(r.data))
  {
  }

  /** A handler that returned ok has its result to store, any other the claim to release; the key is as it was. */
  lemma HandlerMeans(cfg: Config, s: State, i: nat, data: string)
    requires Enabled(s, HandlerOk(i, data)) && Enabled(s, HandlerFails(i))
    ensures var r, ok, failed := s.requests[i], Step(cfg, s, HandlerOk(i, data)), Step(cfg, s, HandlerFails(i));
      && ok.requests[i] == Storing(r.attempt, r.claimedAt, data) && ok.key == s.key
      && ok.wins == s.wins + [Win(data, r.claimedAt)]
      && failed.requests[i] == Releasing(r.attempt, r.claimedAt) && failed.key == s.key && failed.wins == s.wins
  {
  }

  /** A request that has waited claims again, once more than before, and runs its handler if the key is free by then. */
  lemma WaiterTakesOver(cfg: Config, s: State, i: nat)
    requires Enabled(s, Wake(i))
    ensures var r, woken, free := s.requests[i], Step(cfg, s, Wake(i)), s.key == Nothing || s.key.expiresAt <= s.now;
      && woken == s.(requests := woken.requests) && Enabled(woken, Claim(i))
      && Step(cfg, woken, Claim(i)).requests[i] ==
        if free then Running(r.attempt + 1, s.now) else Reading(r.attempt + 1)
  {
    ClaimMeans(cfg, Step(cfg, s, Wake(i)), i, s.requests[i].attempt + 1);
  }

  /** A crashed request leaves its claim in the key, so that others wait for it to expire. */
  lemma CrashKeepsTheClaim(cfg: Config, s: State, i: nat, j: nat)
    requires Enabled(s, Crash(i)) && j < |s.requests| && i != j && s.requests[j].Claiming?
    ensures var crashed := Step(cfg, s, Crash(i));
      && crashed.key == s.key && crashed.requests[i].Crashed? && Enabled(crashed, Claim(j))
      && (s.key.Held? && s.now < s.key.expiresAt ==>
            Step(cfg, crashed, Claim(j)).requests[j] == Reading(s.requests[j].attempt))
  {
  }

  lemma CompletedStep(cfg: Config, s: State, e: Event)
    requires Exclusive(cfg, s) && Enabled(s, e) && s.key.Held? && s.key.record.Completed? && s.now < s.key.expiresAt
    ensures Step(cfg, s, e).key == s.key
  {
  }

  /** A stored response stays until it expires, whatever the other requests do. */
  lemma {:induction false} StoredStays(cfg: Config, states: seq<State>, events: seq<Event>, k: nat, n: nat)
    requires cfg.ttl > 0 && IsRun(cfg, states, events) && TimelyRun(cfg, states) && k <= n < |states|
    requires states[k].key.Held? && states[k].key.record.Completed? && states[n].now < states[k].key.expiresAt
    ensures states[n].key == states[k].key
    decreases n
  {
    if k < n {
      assert states[n] == Step(cfg, states[n - 1], events[n - 1]);
      assert states[n - 1].now <= states[n].now;
      StoredStays(cfg, states, events, k, n - 1);
      RunKeeps(cfg, states, events, n - 1);
      CompletedStep(cfg, states[n - 1], events[n - 1]);
    }
  }

  /** While a stored response lives, every duplicate is refused its claim and answers with it at its read. */
  lemma DuplicatesGetTheResponse(cfg: Config, states: seq<State>, events: seq<Event>, k: nat, n: nat, i: nat)
    requires cfg.ttl > 0 && IsRun(cfg, states, events) && TimelyRun(cfg, states) && k <= n < |events|
    requires states[k].key.Held? && states[k].key.record.Completed? && states[n].now < states[k].key.expiresAt
    requires i < |states[n].requests|
    ensures events[n] == Claim(i) ==> states[n + 1].requests[i] == Reading(states[n].requests[i].attempt)
    ensures events[n] == ReadKey(i) ==>
      states[n + 1].requests[i] == Answered(states[n].requests[i].attempt, Cached(states[k].key.record.data))
  {
    StoredStays(cfg, states, events, k, n);
    assert states[n + 1] == Step(cfg, states[n], events[n]);
    if events[n] == ReadKey(i) {
      ReadMeans(cfg, states[n], i, states[n].requests[i].attempt);
    }
  }
}
