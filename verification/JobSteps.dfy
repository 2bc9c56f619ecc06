/**
 * The step history of a job: one timeline per attempt, rewritten whole at every report.
 */
module JobSteps {
  import opened Basics

  /** A recorded detail: an object, which merges with another, or any other value, which replaces. */
  datatype Detail = Fields(fields: map<string, string>) | Plain(value: string)

  datatype StepEvent = StepEvent(id: string, startedAt: int, endedAt: Option<int>, detail: Option<Detail>)

  datatype Timeline = Timeline(attempt: nat, events: seq<StepEvent>, models: Option<seq<string>>)

  datatype Progress = Progress(step: string, updatedAt: int, attempts: seq<Timeline>)

  /** Where a job holds no step progress, `progress` is None. */
  datatype Job = Job(attemptsMade: nat, progress: Option<Progress>)

  /** What befalls a job; `written` says whether the update reaches it, all of it or nothing. */
  datatype Action =
    | Report(step: string, detail: Option<Detail>, now: int, written: bool)
    | Complete(done: Option<Detail>, now: int, written: bool)
    | Record(models: seq<string>, now: int, written: bool)
    | Retry(attemptsMade: nat)

  function AttemptsOf(progress: Option<Progress>): seq<Timeline> {
    if progress.Some? then progress.value.attempts else []
  }

  /** The place of the first entry of an attempt. */
  function Find(attempts: seq<Timeline>, attempt: nat): (k: nat)
    ensures k <= |attempts|
    ensures k < |attempts| ==> attempts[k].attempt == attempt
    ensures forall j | 0 <= j < k :: attempts[j].attempt != attempt
  {
    if attempts == [] || attempts[0].attempt == attempt then 0 else 1 + Find(attempts[1..], attempt)
  }

  /** The entry of an attempt, a new one where it has none. */
  function Entry(attempts: seq<Timeline>, attempt: nat): Timeline {
    if Find(attempts, attempt) < |attempts| then attempts[Find(attempts, attempt)] else Timeline(attempt, [], None)
  }

  /** The attempts with this as the attempt's entry. */
  function Put(attempts: seq<Timeline>, attempt: nat, entry: Timeline): seq<Timeline> {
    if Find(attempts, attempt) < |attempts| then attempts[Find(attempts, attempt) := entry] else attempts + [entry]
  }

  function Closed(events: seq<StepEvent>, now: int): seq<StepEvent> {
    if events != [] && events[|events| - 1].endedAt.None? then
      events[|events| - 1 := events[|events| - 1].(endedAt := Some(now))]
    else events
  }

  /** Two objects merge field by field, the later one first; anything else is replaced. */
  function Merged(before: Option<Detail>, detail: Detail): (r: Detail)
    ensures detail.Plain? || before.None? || before.value.Plain? ==> r == detail
    ensures detail.Fields? ==>
      r.Fields? && forall key :: key in detail.fields ==> key in r.fields && r.fields[key] == detail.fields[key]
    ensures detail.Fields? && before.Some? && before.value.Fields? ==>
      forall key :: key !in detail.fields ==>
        (key in r.fields <==> key in before.value.fields) &&
        (key in r.fields ==> r.fields[key] == before.value.fields[key])
  {
    if before.Some? && before.value.Fields? && detail.Fields? then
      Fields(before.value.fields + detail.fields)
    else detail
  }

  function Finished(event: StepEvent, detail: Option<Detail>, now: int): StepEvent {
    var ended := event.(endedAt := Some(now));
    if detail.Some? then ended.(detail := Some(Merged(event.detail, detail.value))) else ended
  }

  function WithStep(entry: Timeline, step: string, detail: Option<Detail>, now: int): Timeline {
    entry.(events := Closed(entry.events, now) + [StepEvent(step, now, None, detail)])
  }

  function WithLast(entry: Timeline, detail: Option<Detail>, now: int): Timeline
    requires entry.events != []
  {
    var n := |entry.events| - 1;
    entry.(events := entry.events[n := Finished(entry.events[n], detail, now)])
  }

  /** What an action makes of the current attempt's entry; nothing is written of a completion without a step. */
  function Rewritten(entry: Timeline, action: Action): Option<Timeline> {
    match action
    case Report(step, detail, now, _) => Some(WithStep(entry, step, detail, now))
    case Complete(detail, now, _) => if entry.events == [] then None else Some(WithLast(entry, detail, now))
    case Record(models, _, _) => Some(entry.(models := Some(models)))
    case Retry(_) => None
  }

  function Current(job: Job): Timeline {
    Entry(AttemptsOf(job.progress), job.attemptsMade + 1)
  }

  function StepShown(job: Job, action: Action): string {
    if action.Report? then action.step else if job.progress.Some? then job.progress.value.step else ""
  }

  /** Whether an action changes the recorded progress. */
  predicate Writes(job: Job, action: Action) {
    && !action.Retry? && action.written
    && Rewritten(Current(job), action).Some?
    && (action.Complete? ==> job.progress.Some?)
  }

  function After(job: Job, action: Action): Job {
    if action.Retry? then job.(attemptsMade := action.attemptsMade)
    else if !Writes(job, action) then job
    else
      job.(progress := Some(Progress(
        StepShown(job, action), action.now,
        Put(AttemptsOf(job.progress), job.attemptsMade + 1, Rewritten(Current(job), action).value))))
  }

  /** The attempts to edit for a job: its own, with the current one's entry at place k. */
  predicate Editable(job: Job, values: seq<Timeline>, k: nat) {
    var recorded := AttemptsOf(job.progress);
    && k == Find(recorded, job.attemptsMade + 1) && k < |values|
    && values == if k < |recorded| then recorded else recorded + [values[k]]
  }

  lemma AfterIs(job: Job, action: Action, step: string, values: seq<Timeline>, k: nat, edited: seq<Timeline>)
    requires !action.Retry? && (action.Complete? ==> job.progress.Some?) && step == StepShown(job, action)
    requires Editable(job, values, k) && k < |edited|
    requires Rewritten(Current(job), action) == Some(edited[k]) && edited == values[k := edited[k]]
    ensures After(job, action) ==
      if action.written then job.(progress := Some(Progress(step, action.now, edited))) else job
  {
    assert edited == Put(AttemptsOf(job.progress), job.attemptsMade + 1, edited[k]);
  }

  // ----- the reporting functions

  /** A job's progress value, as its worker holds it. */
  class WorkerJob {
    var attemptsMade: nat
    var current: Option<(string, int)>
    var attempts: array<Timeline>

    ghost function State(): Job
      reads this, attempts
    {
      Job(attemptsMade, if current.Some? then Some(Progress(current.value.0, current.value.1, attempts[..])) else None)
    }

    constructor (attemptsMade: nat)
      ensures State() == Job(attemptsMade, None)
    {
      this.attemptsMade, current, attempts := attemptsMade, None, new Timeline[0];
    }

    /** A copy of the recorded attempts, with room for one more, to edit before it is written. */
    method CloneAttempts() returns (copy: array<Timeline>)
      ensures fresh(copy) && copy[..] == AttemptsOf(State().progress)
    {
      var n := if current.None? then 0 else attempts.Length;
      var empty := Timeline(0, [], None);
      copy := new Timeline[n](_ => empty);
      var i := 0;
      while i < n
        invariant i <= n && forall j | 0 <= j < i :: copy[j] == attempts[j]
      {
        copy[i] := attempts[i];
        i := i + 1;
      }
    }

    static method Pushed(entries: array<Timeline>, entry: Timeline) returns (all: array<Timeline>)
      ensures fresh(all) && all[..] == entries[..] + [entry]
    {
      var n := entries.Length;
      all := new Timeline[n + 1](_ => entry);
      var i := 0;
      while i < n
        invariant i <= n && all[n] == entry && forall j | 0 <= j < i :: all[j] == entries[j]
      {
        all[i] := entries[i];
        i := i + 1;
      }
    }

    /** The entries with the current attempt's among them, at place k. */
    method CurrentAttemptEntry(entries: array<Timeline>) returns (all: array<Timeline>, k: nat)
      ensures all == entries || fresh(all)
      ensures k == Find(entries[..], attemptsMade + 1) && k < all.Length
      ensures all[..] == if k < entries.Length then entries[..] else entries[..] + [all[k]]
      ensures all[k] == Entry(entries[..], attemptsMade + 1)
    {
      k := 0;
      while k < entries.Length && entries[k].attempt != attemptsMade + 1
        invariant k <= entries.Length
        invariant forall j | 0 <= j < k :: entries[j].attempt != attemptsMade + 1
      {
        k := k + 1;
      }
      FoundAt(entries[..], attemptsMade + 1, k);
      all := entries;
      if k == entries.Length {
        all := Pushed(entries, Timeline(attemptsMade + 1, [], None));
      }
    }

    method EntriesToEdit() returns (all: array<Timeline>, k: nat)
      ensures fresh(all) && k < all.Length
      ensures all[k] == Current(State()) && Editable(State(), all[..], k)
    {
      var copy := CloneAttempts();
      all, k := CurrentAttemptEntry(copy);
    }

    method UpdateProgress(step: string, now: int, entries: array<Timeline>, written: bool)
      modifies this
      ensures State() == if written then
        old(State()).(progress := Some(Progress(step, now, entries[..])))
        else old(State())
    {
      if written {
        current, attempts := Some((step, now)), entries;
      }
    }

    method ReportStep(step: string, detail: Option<Detail>, now: int, written: bool)
      modifies this
      ensures State() == After(old(State()), Report(step, detail, now, written))
    {
      var all, k := EntriesToEdit();
      ghost var values := all[..];
      var n := |all[k].events|;
      if n > 0 && all[k].events[n - 1].endedAt.None? {
        all[k] := all[k].(events := all[k].events[n - 1 := all[k].events[n - 1].(endedAt := Some(now))]);
      }
      all[k] := all[k].(events := all[k].events + [StepEvent(step, now, None, detail)]);
      AfterIs(State(), Report(step, detail, now, written), step, values, k, all[..]);
      UpdateProgress(step, now, all, written);
    }

    method CompleteStep(detail: Option<Detail>, now: int, written: bool)
      modifies this
      ensures State() == After(old(State()), Complete(detail, now, written))
    {
      if current.None? {
        return;
      }
      var all, k := EntriesToEdit();
      var n := |all[k].events|;
      if n == 0 {
        return;
      }
      ghost var values := all[..];
      var last := all[k].events[n - 1].(endedAt := Some(now));
      if detail.Some? {
        last := last.(detail := Some(Merged(last.detail, detail.value)));
      }
      all[k] := all[k].(events := all[k].events[n - 1 := last]);
      AfterIs(State(), Complete(detail, now, written), current.value.0, values, k, all[..]);
      UpdateProgress(current.value.0, now, all, written);
    }

    method RecordModelUses(models: seq<string>, now: int, written: bool)
      modifies this
      ensures State() == After(old(State()), Record(models, now, written))
    {
      var all, k := EntriesToEdit();
      ghost var values := all[..];
      all[k] := all[k].(models := Some(models));
      AfterIs(State(), Record(models, now, written), if current.Some? then current.value.0 else "", values, k, all[..]);
      UpdateProgress(if current.Some? then current.value.0 else "", now, all, written);
    }
  }

  lemma {:induction false} FoundAt(attempts: seq<Timeline>, attempt: nat, k: nat)
    requires k <= |attempts| && forall j | 0 <= j < k :: attempts[j].attempt != attempt
    requires k < |attempts| ==> attempts[k].attempt == attempt
    ensures Find(attempts, attempt) == k
  {
  }

  // ----- runs

  /** The number of attempts made never goes down, nor does the clock. */
  predicate Possible(job: Job, clock: int, action: Action) {
    if action.Retry? then action.attemptsMade >= job.attemptsMade else action.now >= clock
  }

  function Clock(clock: int, action: Action): int {
    if action.Retry? then clock else action.now
  }

  predicate PossibleRun(job: Job, clock: int, actions: seq<Action>)
    decreases actions
  {
    actions != [] ==>
      Possible(job, clock, actions[0]) && PossibleRun(After(job, actions[0]), Clock(clock, actions[0]), actions[1..])
  }

  function Run(job: Job, actions: seq<Action>): Job
    decreases actions
  {
    if actions == [] then job else Run(After(job, actions[0]), actions[1..])
  }

  function ClockAfter(clock: int, actions: seq<Action>): int
    decreases actions
  {
    if actions == [] then clock else ClockAfter(Clock(clock, actions[0]), actions[1..])
  }

  // ----- the shape of the history

  ghost predicate Ascending(attempts: seq<Timeline>, made: nat) {
    && (forall i, j | 0 <= i < j < |attempts| :: attempts[i].attempt < attempts[j].attempt)
    && (forall i | 0 <= i < |attempts| :: attempts[i].attempt <= made + 1)
  }

  /** The steps of an attempt ran one after another, and only the last can still be open. */
  ghost predicate Sequential(events: seq<StepEvent>, clock: int) {
    && (forall i | 0 <= i < |events| :: events[i].startedAt <= clock)
    && (forall i | 0 <= i < |events| && events[i].endedAt.Some? ::
          events[i].startedAt <= events[i].endedAt.value <= clock)
    && (forall i | 0 <= i < |events| - 1 ::
          events[i].endedAt.Some? && events[i].endedAt.value <= events[i + 1].startedAt)
  }

  ghost predicate AllSequential(attempts: seq<Timeline>, clock: int) {
    forall i | 0 <= i < |attempts| :: Sequential(attempts[i].events, clock)
  }

  ghost predicate Tidy(job: Job, clock: int) {
    Ascending(AttemptsOf(job.progress), job.attemptsMade) && AllSequential(AttemptsOf(job.progress), clock)
  }

  lemma CurrentIsLast(attempts: seq<Timeline>, made: nat, i: nat)
    requires Ascending(attempts, made) && i < |attempts| && attempts[i].attempt == made + 1
    ensures i == |attempts| - 1
  {
    var last := attempts[|attempts| - 1];
    assert last.attempt <= made + 1;
  }

  /** In an ascending history the current attempt's entry is the last, there already or to come. */
  lemma PutIsLast(attempts: seq<Timeline>, made: nat, entry: Timeline)
    requires Ascending(attempts, made) && entry.attempt == made + 1
    ensures var k := Find(attempts, made + 1);
      && Put(attempts, made + 1, entry) == attempts[..k] + [entry]
      && (k == |attempts| || k == |attempts| - 1)
      && forall i | 0 <= i < k :: attempts[i].attempt <= made
    ensures Ascending(Put(attempts, made + 1, entry), made)
  {
    if Find(attempts, made + 1) < |attempts| {
      CurrentIsLast(attempts, made, Find(attempts, made + 1));
    }
  }

  lemma ClosedIsSequential(events: seq<StepEvent>, clock: int, now: int, step: string, detail: Option<Detail>)
    requires Sequential(events, clock) && clock <= now
    ensures Sequential(Closed(events, now) + [StepEvent(step, now, None, detail)], now)
  {
  }

  lemma StepKeepsTidy(job: Job, clock: int, action: Action)
    requires Tidy(job, clock) && Possible(job, clock, action)
    ensures Tidy(After(job, action), Clock(clock, action))
  {
    var attempts, made := AttemptsOf(job.progress), job.attemptsMade;
    if Writes(job, action) {
      RewrittenIsSequential(Current(job), clock, action);
      PutIsLast(attempts, made, Rewritten(Current(job), action).value);
      SequentialLater(attempts, clock, action.now);
    }
  }

  lemma RewrittenIsSequential(entry: Timeline, clock: int, action: Action)
    requires Sequential(entry.events, clock) && !action.Retry? && clock <= action.now && Rewritten(entry, action).Some?
    ensures Sequential(Rewritten(entry, action).value.events, action.now)
    ensures Rewritten(entry, action).value.attempt == entry.attempt
  {
    match action
    case Report(step, detail, now, _) => ClosedIsSequential(entry.events, clock, now, step, detail);
    case _ =>
  }

  lemma SequentialLater(attempts: seq<Timeline>, clock: int, now: int)
    requires AllSequential(attempts, clock) && clock <= now
    ensures AllSequential(attempts, now)
  {
  }

  /**
   * Over any reports, completions, model records and retries, written or lost: one timeline
   * per attempt in ascending order, its steps one after another, at most the last one open.
   */
  lemma {:induction false} HistoryStaysTidy(job: Job, clock: int, actions: seq<Action>)
    requires Tidy(job, clock) && PossibleRun(job, clock, actions)
    ensures Tidy(Run(job, actions), ClockAfter(clock, actions))
    decreases actions
  {
    if actions != [] {
      StepKeepsTidy(job, clock, actions[0]);
      HistoryStaysTidy(After(job, actions[0]), Clock(clock, actions[0]), actions[1..]);
    }
  }

  // ----- what never changes

  /** A timeline grown from another: only its last step may have been ended or given more detail. */
  ghost predicate Grown(before: seq<StepEvent>, after: seq<StepEvent>) {
    && |before| <= |after|
    && (forall i | 0 <= i < |before| :: before[i].id == after[i].id && before[i].startedAt == after[i].startedAt)
    && (forall i | 0 <= i < |before| && before[i].endedAt.Some? :: after[i].endedAt.Some?)
    && (forall i | 0 <= i < |before| - 1 :: before[i] == after[i])
  }

  /** Every entry of a history is still there: unchanged where its attempt is over, grown otherwise. */
  ghost predicate Kept(before: seq<Timeline>, made: nat, after: seq<Timeline>) {
    && |before| <= |after|
    && forall i | 0 <= i < |before| ::
         && before[i].attempt == after[i].attempt
         && Grown(before[i].events, after[i].events)
         && (before[i].attempt <= made ==> before[i] == after[i])
  }

  lemma RewrittenGrows(entry: Timeline, action: Action)
    requires Rewritten(entry, action).Some?
    ensures Grown(entry.events, Rewritten(entry, action).value.events)
    ensures Rewritten(entry, action).value.attempt == entry.attempt
  {
  }

  lemma PutKeeps(attempts: seq<Timeline>, made: nat, entry: Timeline)
    requires Ascending(attempts, made) && entry.attempt == made + 1
    requires Grown(Entry(attempts, made + 1).events, entry.events)
    ensures Kept(attempts, made, Put(attempts, made + 1, entry))
  {
    var k, after := Find(attempts, made + 1), Put(attempts, made + 1, entry);
    PutIsLast(attempts, made, entry);
    forall i | 0 <= i < |attempts|
      ensures attempts[i].attempt == after[i].attempt && Grown(attempts[i].events, after[i].events)
      ensures attempts[i].attempt <= made ==> attempts[i] == after[i]
    {
      assert i < k ==> after[i] == attempts[i];
    }
  }

  lemma KeptSame(attempts: seq<Timeline>, made: nat)
    ensures Kept(attempts, made, attempts)
  {
  }

  lemma StepKeepsHistory(job: Job, action: Action)
    requires Ascending(AttemptsOf(job.progress), job.attemptsMade)
    ensures Kept(AttemptsOf(job.progress), job.attemptsMade, AttemptsOf(After(job, action).progress))
  {
    if Writes(job, action) {
      RewrittenGrows(Current(job), action);
      PutKeeps(AttemptsOf(job.progress), job.attemptsMade, Rewritten(Current(job), action).value);
    } else {
      KeptSame(AttemptsOf(job.progress), job.attemptsMade);
    }
  }

  lemma KeptOn(a: seq<Timeline>, b: seq<Timeline>, c: seq<Timeline>, made: nat, made': nat)
    requires Kept(a, made, b) && Kept(b, made', c) && made <= made'
    ensures Kept(a, made, c)
  {
    forall i | 0 <= i < |a|
      ensures a[i].attempt == c[i].attempt && Grown(a[i].events, c[i].events) && (a[i].attempt <= made ==> a[i] == c[i])
    {
      assert Grown(a[i].events, b[i].events) && Grown(b[i].events, c[i].events);
    }
  }

  /** Earlier attempts are never changed, and timelines only grow, however the run goes on. */
  lemma {:induction false} HistoryIsKept(job: Job, clock: int, actions: seq<Action>)
    requires Tidy(job, clock) && PossibleRun(job, clock, actions)
    ensures Kept(AttemptsOf(job.progress), job.attemptsMade, AttemptsOf(Run(job, actions).progress))
    decreases actions
  {
    if actions != [] {
      var next := After(job, actions[0]);
      StepKeepsTidy(job, clock, actions[0]);
      StepKeepsHistory(job, actions[0]);
      HistoryIsKept(next, Clock(clock, actions[0]), actions[1..]);
      KeptOn(AttemptsOf(job.progress), AttemptsOf(next.progress), AttemptsOf(Run(job, actions).progress),
             job.attemptsMade, next.attemptsMade);
    }
  }

  /** The id of the last step among the actions whose report was written, or the one shown before. */
  function LastReported(shown: string, actions: seq<Action>): string
    decreases actions
  {
    if actions == [] then shown
    else LastReported(if actions[0].Report? && actions[0].written then actions[0].step else shown, actions[1..])
  }

  function Shown(job: Job): string {
    if job.progress.Some? then job.progress.value.step else ""
  }

  /** The step shown is that of the last report written, whatever was completed or recorded since, over any retries. */
  lemma {:induction false} LastReportIsShown(job: Job, actions: seq<Action>)
    ensures Shown(Run(job, actions)) == LastReported(Shown(job), actions)
    decreases actions
  {
    if actions != [] {
      LastReportIsShown(After(job, actions[0]), actions[1..]);
    }
  }

  // ----- nothing lost

  /** Which steps a timeline holds, and when each began. */
  function StepsOf(events: seq<StepEvent>): (r: seq<(string, int)>)
    ensures |r| == |events| && forall i :: 0 <= i < |r| ==> r[i] == (events[i].id, events[i].startedAt)
  {
    seq(|events|, i requires 0 <= i < |events| => (events[i].id, events[i].startedAt))
  }

  /** The reports written during an attempt: the step of each, and when. */
  function ReportsIn(made: nat, actions: seq<Action>, attempt: nat): seq<(string, int)>
    decreases actions
  {
    if actions == [] then []
    else Reports(made, actions[0], attempt) + ReportsIn(MadeAfter(made, actions[0]), actions[1..], attempt)
  }

  function Reports(made: nat, action: Action, attempt: nat): seq<(string, int)> {
    if action.Report? && action.written && made + 1 == attempt then [(action.step, action.now)] else []
  }

  function MadeAfter(made: nat, action: Action): nat {
    if action.Retry? then action.attemptsMade else made
  }

  /** Putting an attempt's entry leaves every other attempt's as it was. */
  lemma PutEntry(attempts: seq<Timeline>, attempt: nat, entry: Timeline, other: nat)
    requires entry.attempt == attempt
    ensures Entry(Put(attempts, attempt, entry), other) == if other == attempt then entry else Entry(attempts, other)
  {
    var after := Put(attempts, attempt, entry);
    if other == attempt {
      FoundAt(after, attempt, Find(attempts, attempt));
    } else {
      var k := Find(attempts, other);
      FoundAt(after, other, if k < |attempts| then k else |after|);
    }
  }

  lemma RewrittenSteps(entry: Timeline, action: Action)
    requires Rewritten(entry, action).Some?
    ensures Rewritten(entry, action).value.attempt == entry.attempt
    ensures StepsOf(Rewritten(entry, action).value.events)
         == StepsOf(entry.events) + (if action.Report? then [(action.step, action.now)] else [])
  {
  }

  lemma StepRecords(job: Job, action: Action, attempt: nat)
    ensures StepsOf(Entry(AttemptsOf(After(job, action).progress), attempt).events)
         == StepsOf(Entry(AttemptsOf(job.progress), attempt).events) + Reports(job.attemptsMade, action, attempt)
  {
    if Writes(job, action) {
      RewrittenSteps(Current(job), action);
      PutEntry(AttemptsOf(job.progress), job.attemptsMade + 1, Rewritten(Current(job), action).value, attempt);
    } else {
      assert Reports(job.attemptsMade, action, attempt) == [];
      assert AttemptsOf(After(job, action).progress) == AttemptsOf(job.progress);
    }
  }

  /**
   * The steps of each attempt are, in order and with their times, exactly the reports that
   * were written while it was the current one, after whatever it had before.
   */
  lemma {:induction false} ReportsConserved(job: Job, actions: seq<Action>, attempt: nat)
    ensures StepsOf(Entry(AttemptsOf(Run(job, actions).progress), attempt).events)
         == StepsOf(Entry(AttemptsOf(job.progress), attempt).events) + ReportsIn(job.attemptsMade, actions, attempt)
    decreases actions
  {
    if actions != [] {
      var next := After(job, actions[0]);
      StepRecords(job, actions[0], attempt);
      ReportsConserved(next, actions[1..], attempt);
      Regroup(StepsOf(Entry(AttemptsOf(job.progress), attempt).events), Reports(job.attemptsMade, actions[0], attempt),
              ReportsIn(next.attemptsMade, actions[1..], attempt));
    }
  }

  // ----- what each write says

  /** An ended step: closed at a time if it was open, and otherwise as it was. */
  predicate EndedBy(before: StepEvent, after: StepEvent, now: int) {
    && after.id == before.id && after.startedAt == before.startedAt && after.detail == before.detail
    && after.endedAt == if before.endedAt.Some? then before.endedAt else Some(now)
  }

  /** Of what an action leaves of a job, everything but the current attempt's entry. */
  ghost predicate WroteAt(job: Job, after: Job, step: string, now: int) {
    && after.attemptsMade == job.attemptsMade && after.progress.Some?
    && after.progress.value.step == step && after.progress.value.updatedAt == now
    && forall attempt: nat | attempt != job.attemptsMade + 1 ::
         Entry(AttemptsOf(after.progress), attempt) == Entry(AttemptsOf(job.progress), attempt)
  }

  lemma OthersStay(job: Job, action: Action)
    requires Writes(job, action)
    ensures WroteAt(job, After(job, action), StepShown(job, action), action.now)
    ensures Current(After(job, action)) == Rewritten(Current(job), action).value
  {
    RewrittenSteps(Current(job), action);
    PutWrites(job, After(job, action), StepShown(job, action), action.now, Rewritten(Current(job), action).value);
  }

  lemma PutWrites(job: Job, after: Job, step: string, now: int, entry: Timeline)
    requires entry.attempt == job.attemptsMade + 1
    requires after == job.(progress :=
      Some(Progress(step, now, Put(AttemptsOf(job.progress), job.attemptsMade + 1, entry))))
    ensures WroteAt(job, after, step, now) && Current(after) == entry
  {
    PutEntries(AttemptsOf(job.progress), job.attemptsMade + 1, entry);
  }

  lemma PutEntries(attempts: seq<Timeline>, attempt: nat, entry: Timeline)
    requires entry.attempt == attempt
    ensures Entry(Put(attempts, attempt, entry), attempt) == entry
    ensures forall other: nat | other != attempt ::
      Entry(Put(attempts, attempt, entry), other) == Entry(attempts, other)
  {
    PutEntry(attempts, attempt, entry, attempt);
    forall other: nat | other != attempt
      ensures Entry(Put(attempts, attempt, entry), other) == Entry(attempts, other)
    {
      PutEntry(attempts, attempt, entry, other);
    }
  }

  /**
   * A report that is written begins its step now, with its detail and open, after the steps the
   * attempt had: the last of them ended now if it was open, and all else as it was.
   */
  lemma ReportWrites(job: Job, step: string, detail: Option<Detail>, now: int)
    ensures var after := After(job, Report(step, detail, now, true));
      && WroteAt(job, after, step, now)
      && var (old', new') := (Current(job).events, Current(after).events);
         && |new'| == |old'| + 1
         && new'[|old'|] == StepEvent(step, now, None, detail)
         && (old' != [] ==> EndedBy(old'[|old'| - 1], new'[|old'| - 1], now))
         && (forall i | 0 <= i < |old'| - 1 :: new'[i] == old'[i])
         && Current(after).models == Current(job).models
  {
    OthersStay(job, Report(step, detail, now, true));
  }

  /**
   * A completion that is written ends the attempt's last step now, its detail as `Merged` says
   * where one is given; where there is no progress or no step, nothing is written.
   */
  lemma CompletionWrites(job: Job, detail: Option<Detail>, now: int)
    ensures var after, events := After(job, Complete(detail, now, true)), Current(job).events;
      if job.progress.None? || events == [] then after == job
      else
        && WroteAt(job, after, job.progress.value.step, now)
        && var (last, last') := (events[|events| - 1], Current(after).events);
           && |last'| == |events| && (forall i | 0 <= i < |events| - 1 :: last'[i] == events[i])
           && last'[|events| - 1] == StepEvent(last.id, last.startedAt, Some(now),
                if detail.Some? then Some(Merged(last.detail, detail.value)) else last.detail)
           && Current(after).models == Current(job).models
  {
    if job.progress.Some? && Current(job).events != [] {
      OthersStay(job, Complete(detail, now, true));
    }
  }

  /** A model record that is written leaves every step as it was, and the step shown. */
  lemma RecordWrites(job: Job, models: seq<string>, now: int)
    ensures var after := After(job, Record(models, now, true));
      && WroteAt(job, after, Shown(job), now)
      && Current(after).events == Current(job).events && Current(after).models == Some(models)
  {
    OthersStay(job, Record(models, now, true));
  }

  /** A write that is lost changes nothing, and a retry leaves the recorded history. */
  lemma LostChangesNothing(job: Job, action: Action)
    ensures !action.Retry? && !action.written ==> After(job, action) == job
    ensures action.Retry? ==> After(job, action) == Job(action.attemptsMade, job.progress)
  {
  }
}
