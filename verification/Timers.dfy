/** The cooking timers: the store's actions, and what ticking charges over a run. */
module Timers {
  import opened Basics

  datatype Status = IsRunning | Paused | Completed

  /** Times are in milliseconds; a clock reading may be any integer. */
  datatype Timer = Timer(id: string, recipeId: string, title: string, recipeName: Option<string>,
                         originalDurationMs: int, remainingMs: int, status: Status, lastTickAt: Option<int>)

  // ----- the transitions of one timer

  function Started(t: Timer, now: int): Timer {
    t.(status := IsRunning, lastTickAt := Some(now))
  }

  function Stopped(t: Timer): Timer {
    t.(status := Paused, lastTickAt := None)
  }

  function Reset(t: Timer): Timer {
    t.(status := Paused, remainingMs := t.originalDurationMs, lastTickAt := None)
  }

  /** At nothing left the timer completes; time given to a completed one starts it again. */
  function Adjusted(t: Timer, deltaMs: int, now: int): Timer {
    var left := Max(0, t.remainingMs + deltaMs);
    if left == 0 then t.(remainingMs := 0, status := Completed, lastTickAt := Some(now))
    else if t.status.Completed? then t.(remainingMs := left, status := IsRunning, lastTickAt := Some(now))
    else t.(remainingMs := left)
  }

  /** Charge a running timer for the time since it was last looked at. */
  function Ticked(t: Timer, now: int): Timer {
    if !t.status.IsRunning? then t
    else
      match t.lastTickAt
      case None => t.(lastTickAt := Some(now))
      case Some(last) =>
        var left := Max(0, t.remainingMs - (now - last));
        if left == 0 && t.remainingMs > 0 then t.(remainingMs := 0, status := Completed, lastTickAt := Some(now))
        else t.(remainingMs := left, lastTickAt := Some(now))
  }

  /** What a tick makes of a timer, by what has gone by since it was last looked at. */
  predicate IsTicked(before: Timer, after: Timer, now: int) {
    && SamePlan(before, after)
    && (before.status != IsRunning ==> after == before)
    && (before.status == IsRunning ==> after.lastTickAt == Some(now))
    && (before.status == IsRunning && before.lastTickAt == None ==>
          after.status == IsRunning && after.remainingMs == before.remainingMs)
    && (before.status == IsRunning && before.lastTickAt != None ==>
          var gone := now - before.lastTickAt.value;
          && (after.status == Completed <==> 0 < before.remainingMs <= gone)
          && (after.status != Completed ==> after.status == IsRunning)
          && (if gone < before.remainingMs then after.remainingMs == before.remainingMs - gone
              else after.remainingMs == 0))
  }

  // ----- the store

  datatype Action =
    | Add(id: string, recipeId: string, title: string, durationMs: int, recipeName: Option<string>)
    | Remove(id: string)
    | Clear
    | Start(id: string)
    | Pause(id: string)
    | ResetTimer(id: string)
    | Adjust(id: string, deltaMs: int)
    | Tick

  function Update(timers: seq<Timer>, id: string, f: Timer -> Timer): (r: seq<Timer>)
    ensures |r| == |timers|
    ensures forall i :: 0 <= i < |r| ==> r[i] == if timers[i].id == id then f(timers[i]) else timers[i]
  {
    seq(|timers|, i requires 0 <= i < |timers| => if timers[i].id == id then f(timers[i]) else timers[i])
  }

  function TickAll(timers: seq<Timer>, now: int): (r: seq<Timer>)
    ensures |r| == |timers|
    ensures forall i :: 0 <= i < |r| ==> r[i] == Ticked(timers[i], now)
  {
    seq(|timers|, i requires 0 <= i < |timers| => Ticked(timers[i], now))
  }

  predicate Has(timers: seq<Timer>, id: string) {
    exists i :: 0 <= i < |timers| && timers[i].id == id
  }

  function Without(timers: seq<Timer>, id: string): seq<Timer> {
    if timers == [] then []
    else (if timers[0].id != id then [timers[0]] else []) + Without(timers[1..], id)
  }

  /** The store after an action taken at a time. */
  function After(timers: seq<Timer>, action: Action, now: int): seq<Timer> {
    match action
    case Add(id, recipeId, title, durationMs, recipeName) =>
      if Has(timers, id) then timers
      else timers + [Timer(id, recipeId, title, recipeName, durationMs, durationMs, Paused, None)]
    case Remove(id) => Without(timers, id)
    case Clear => []
    case Start(id) => Update(timers, id, t => Started(t, now))
    case Pause(id) => Update(timers, id, t => Stopped(t))
    case ResetTimer(id) => Update(timers, id, t => Reset(t))
    case Adjust(id, deltaMs) => Update(timers, id, t => Adjusted(t, deltaMs, now))
    case Tick => TickAll(timers, now)
  }

  /** What no action but adding one sets of a timer. */
  predicate SamePlan(a: Timer, b: Timer) {
    && a.id == b.id && a.recipeId == b.recipeId && a.title == b.title
    && a.recipeName == b.recipeName && a.originalDurationMs == b.originalDurationMs
  }

  lemma {:induction false} WithoutSnoc(timers: seq<Timer>, t: Timer, id: string)
    ensures Without(timers + [t], id) == Without(timers, id) + (if t.id != id then [t] else [])
  {
    if timers != [] {
      var here := if timers[0].id != id then [timers[0]] else [];
      WithoutSnoc(timers[1..], t, id);
      ConcatTail(timers, [t]);
      Regroup(here, Without(timers[1..], id), if t.id != id then [t] else []);
    }
  }

  lemma {:induction false} WithoutIs(timers: seq<Timer>, id: string)
    ensures !Has(Without(timers, id), id)
    ensures forall t :: t in Without(timers, id) <==> t in timers && t.id != id
  {
    if timers != [] {
      WithoutIs(timers[1..], id);
      assert timers == [timers[0]] + timers[1..];
    }
  }

  class TimerStore {
    var timers: seq<Timer>

    constructor ()
      ensures timers == []
    {
      timers := [];
    }

    /** Unless one has the id already, another timer comes last: paused, with all its time left. */
    method AddTimer(id: string, recipeId: string, title: string, durationMs: int, recipeName: Option<string>)
      modifies this
      ensures old(Has(timers, id)) ==> timers == old(timers)
      ensures !old(Has(timers, id)) ==>
        && |timers| == |old(timers)| + 1 && timers[..|old(timers)|] == old(timers)
        && var t := timers[|old(timers)|];
           && t.id == id && t.recipeId == recipeId && t.title == title && t.recipeName == recipeName
           && t.originalDurationMs == durationMs && t.remainingMs == durationMs
           && t.status == Paused && t.lastTickAt == None
      ensures timers == After(old(timers), Add(id, recipeId, title, durationMs, recipeName), 0)
    {
      var i := 0;
      while i < |timers|
        invariant i <= |timers|
        invariant forall j :: 0 <= j < i ==> timers[j].id != id
      {
        if timers[i].id == id {
          return;
        }
        i := i + 1;
      }
      timers := timers + [Timer(id, recipeId, title, recipeName, durationMs, durationMs, Paused, None)];
    }

    method RemoveTimer(id: string)
      modifies this
      ensures !Has(timers, id) && forall t :: t in timers <==> t in old(timers) && t.id != id
      ensures timers == After(old(timers), Remove(id), 0)
    {
      var kept := [];
      var i := 0;
      while i < |timers|
        invariant i <= |timers| && timers == old(timers)
        invariant kept == Without(timers[..i], id)
      {
        assert timers[..i + 1] == timers[..i] + [timers[i]];
        WithoutSnoc(timers[..i], timers[i], id);
        if timers[i].id != id {
          kept := kept + [timers[i]];
        }
        i := i + 1;
      }
      assert timers[..i] == timers;
      WithoutIs(timers, id);
      timers := kept;
    }

    method ClearAll()
      modifies this
      ensures timers == []
    {
      timers := [];
    }

    /** Each timer of an id replaced by what a callback makes of it, the others kept. */
    method MapNamed(id: string, f: Timer -> Timer) returns (mapped: seq<Timer>)
      ensures |mapped| == |timers|
      ensures forall i :: 0 <= i < |timers| ==> mapped[i] == if timers[i].id == id then f(timers[i]) else timers[i]
    {
      mapped := [];
      var i := 0;
      while i < |timers|
        invariant i == |mapped| <= |timers|
        invariant forall j :: 0 <= j < i ==> mapped[j] == if timers[j].id == id then f(timers[j]) else timers[j]
      {
        mapped := mapped + [if timers[i].id == id then f(timers[i]) else timers[i]];
        i := i + 1;
      }
    }

    /** A timer of the id runs from now with the time it had left; every other is as it was. */
    method StartTimer(id: string, now: int)
      modifies this
      ensures |timers| == |old(timers)|
      ensures forall i :: 0 <= i < |timers| && timers[i].id != id ==> timers[i] == old(timers)[i]
      ensures forall i :: 0 <= i < |timers| && timers[i].id == id ==>
        && timers[i].status == IsRunning && timers[i].lastTickAt == Some(now)
        && SamePlan(timers[i], old(timers)[i]) && timers[i].remainingMs == old(timers)[i].remainingMs
      ensures timers == After(old(timers), Start(id), now)
    {
      timers := MapNamed(id, (t: Timer) => t.(status := IsRunning, lastTickAt := Some(now)));
    }

    /** A timer of the id stops where its last tick left it; every other is as it was. */
    method PauseTimer(id: string)
      modifies this
      ensures |timers| == |old(timers)|
      ensures forall i :: 0 <= i < |timers| && timers[i].id != id ==> timers[i] == old(timers)[i]
      ensures forall i :: 0 <= i < |timers| && timers[i].id == id ==>
        && timers[i].status == Paused && timers[i].lastTickAt == None
        && SamePlan(timers[i], old(timers)[i]) && timers[i].remainingMs == old(timers)[i].remainingMs
      ensures timers == After(old(timers), Pause(id), 0)
    {
      timers := MapNamed(id, (t: Timer) => t.(status := Paused, lastTickAt := None));
    }

    /** A timer of the id is paused with all its time left; every other is as it was. */
    method ResetById(id: string)
      modifies this
      ensures |timers| == |old(timers)|
      ensures forall i :: 0 <= i < |timers| && timers[i].id != id ==> timers[i] == old(timers)[i]
      ensures forall i :: 0 <= i < |timers| && timers[i].id == id ==>
        && timers[i].status == Paused && timers[i].lastTickAt == None
        && SamePlan(timers[i], old(timers)[i]) && timers[i].remainingMs == timers[i].originalDurationMs
      ensures timers == After(old(timers), ResetTimer(id), 0)
    {
      timers := MapNamed(id,
        (t: Timer) => t.(status := Paused, remainingMs := t.originalDurationMs, lastTickAt := None));
    }

    /**
     * A timer of the id has its time changed but never below nothing: completed when nothing
     * is left, running again when it was completed and some is, and otherwise as it was.
     */
    method AdjustTimer(id: string, deltaMs: int, now: int)
      modifies this
      ensures |timers| == |old(timers)|
      ensures forall i :: 0 <= i < |timers| && timers[i].id != id ==> timers[i] == old(timers)[i]
      ensures forall i :: 0 <= i < |timers| && timers[i].id == id ==>
        var before, after := old(timers)[i], timers[i];
        && SamePlan(after, before) && after.remainingMs >= 0
        && (after.remainingMs == before.remainingMs + deltaMs ||
            (after.remainingMs == 0 && before.remainingMs + deltaMs < 0))
        && (after.remainingMs == 0 ==> after.status == Completed && after.lastTickAt == Some(now))
        && (after.remainingMs > 0 && before.status == Completed ==>
              after.status == IsRunning && after.lastTickAt == Some(now))
        && (after.remainingMs > 0 && before.status != Completed ==>
              after.status == before.status && after.lastTickAt == before.lastTickAt)
      ensures timers == After(old(timers), Adjust(id, deltaMs), now)
    {
      var changed := [];
      var i := 0;
      while i < |timers|
        invariant i == |changed| <= |timers| && timers == old(timers)
        invariant forall j :: 0 <= j < i ==>
          changed[j] == if timers[j].id == id then Adjusted(timers[j], deltaMs, now) else timers[j]
      {
        var t := timers[i];
        if t.id == id {
          var newRemaining := Max(0, t.remainingMs + deltaMs);
          var newStatus, newLastTickAt := t.status, t.lastTickAt;
          if newRemaining == 0 {
            newStatus, newLastTickAt := Completed, Some(now);
          } else if t.status == Completed {
            newStatus, newLastTickAt := IsRunning, Some(now);
          }
          t := t.(remainingMs := newRemaining, status := newStatus, lastTickAt := newLastTickAt);
        }
        changed := changed + [t];
        i := i + 1;
      }
      timers := changed;
    }

    /**
     * The tick maps every timer and replaces the list only when one was running, which
     * leaves the same store either way. `completed` are the timers announced. A running timer
     * completes exactly when it had time left and as much of it has gone by.
     */
    method Tick(now: int) returns (hasChanges: bool, completed: seq<string>)
      modifies this
      ensures |timers| == |old(timers)|
      ensures forall i :: 0 <= i < |timers| ==> IsTicked(old(timers)[i], timers[i], now)
      ensures timers == After(old(timers), Action.Tick, now)
      ensures hasChanges <==> exists i :: 0 <= i < |old(timers)| && old(timers)[i].status.IsRunning?
      ensures forall id :: id in completed <==>
        exists i :: 0 <= i < |old(timers)| && old(timers)[i].id == id && old(timers)[i].status.IsRunning? &&
          timers[i].status.Completed?
    {
      hasChanges, completed := false, [];
      var newTimers := [];
      var i := 0;
      while i < |timers|
        invariant i <= |timers| && timers == old(timers)
        invariant |newTimers| == i && forall j :: 0 <= j < i ==> newTimers[j] == Ticked(timers[j], now)
        invariant hasChanges <==> exists j :: 0 <= j < i && timers[j].status.IsRunning?
        invariant forall id :: id in completed <==>
          exists j :: 0 <= j < i && timers[j].id == id && timers[j].status.IsRunning? && newTimers[j].status.Completed?
      {
        var t := timers[i];
        if !t.status.IsRunning? {
          newTimers := newTimers + [t];
        } else if t.lastTickAt.None? {
          hasChanges := true;
          newTimers := newTimers + [t.(lastTickAt := Some(now))];
        } else {
          var left := Max(0, t.remainingMs - (now - t.lastTickAt.value));
          hasChanges := true;
          if left == 0 && t.remainingMs > 0 {
            completed := completed + [t.id];
            newTimers := newTimers + [t.(remainingMs := 0, status := Completed, lastTickAt := Some(now))];
          } else {
            newTimers := newTimers + [t.(remainingMs := left, lastTickAt := Some(now))];
          }
        }
        i := i + 1;
      }
      if hasChanges {
        timers := newTimers;
      }
    }
  }

  // ----- what every run of actions keeps

  /**
   * Ids are unique, a completed timer has nothing left, a running one knows when it was
   * last looked at, and a paused one does not.
   */
  ghost predicate Sane(timers: seq<Timer>) {
    && (forall i, j :: 0 <= i < j < |timers| ==> timers[i].id != timers[j].id)
    && (forall i :: 0 <= i < |timers| ==> SaneTimer(timers[i]))
  }

  predicate SaneTimer(t: Timer) {
    && (t.status.Completed? ==> t.remainingMs == 0)
    && (t.status.Paused? <==> t.lastTickAt.None?)
  }

  lemma {:induction false} WithoutKeeps(timers: seq<Timer>, id: string)
    ensures !Has(Without(timers, id), id)
    ensures forall i :: 0 <= i < |Without(timers, id)| ==> Without(timers, id)[i] in timers
    ensures Sane(timers) ==> Sane(Without(timers, id))
  {
    if timers != [] {
      WithoutKeeps(timers[1..], id);
      var rest := Without(timers[1..], id);
      assert forall t :: t in timers[1..] ==> t in timers;
      if Sane(timers) {
        assert forall t :: t in timers[1..] ==> t.id != timers[0].id;
        assert Sane(timers[1..]);
      }
    }
  }

  /** Whatever keeps each timer's id and each sane timer sane keeps the store sane. */
  lemma MappedKeeps(timers: seq<Timer>, mapped: seq<Timer>)
    requires Sane(timers) && |mapped| == |timers|
    requires forall i | 0 <= i < |timers| :: mapped[i].id == timers[i].id && SaneTimer(mapped[i])
    ensures Sane(mapped)
  {
  }

  lemma AddedKeeps(timers: seq<Timer>, t: Timer)
    requires Sane(timers) && SaneTimer(t) && !Has(timers, t.id)
    ensures Sane(timers + [t])
  {
  }

  lemma ActionKeeps(timers: seq<Timer>, action: Action, now: int)
    requires Sane(timers)
    ensures Sane(After(timers, action, now))
  {
    var after := After(timers, action, now);
    match action
    case Add(id, recipeId, title, durationMs, recipeName) =>
      if !Has(timers, id) {
        AddedKeeps(timers, Timer(id, recipeId, title, recipeName, durationMs, durationMs, Paused, None));
      }
    case Remove(id) => WithoutKeeps(timers, id);
    case Clear =>
    case _ => MappedKeeps(timers, after);
  }

  function Run(timers: seq<Timer>, actions: seq<(Action, int)>): seq<Timer>
    decreases actions
  {
    if actions == [] then timers else Run(After(timers, actions[0].0, actions[0].1), actions[1..])
  }

  /** From an empty store, whatever the actions and whatever the clock reads. */
  lemma {:induction false} RunKeepsSane(timers: seq<Timer>, actions: seq<(Action, int)>)
    requires Sane(timers)
    ensures Sane(Run(timers, actions))
    decreases |actions|
  {
    if actions != [] {
      ActionKeeps(timers, actions[0].0, actions[0].1);
      RunKeepsSane(After(timers, actions[0].0, actions[0].1), actions[1..]);
    }
  }

  // ----- what an action touches, and what undoes it

  /** The timer an action is about, if it is about one. */
  function About(action: Action): Option<string> {
    match action
    case Add(id, _, _, _, _) => Some(id)
    case Remove(id) => Some(id)
    case Start(id) => Some(id)
    case Pause(id) => Some(id)
    case ResetTimer(id) => Some(id)
    case Adjust(id, _) => Some(id)
    case _ => None
  }

  lemma {:induction false} SameWithout(a: seq<Timer>, b: seq<Timer>, id: string)
    requires |a| == |b| && forall i :: 0 <= i < |a| ==> a[i].id == b[i].id && (a[i].id != id ==> a[i] == b[i])
    ensures Without(a, id) == Without(b, id)
  {
    if a != [] {
      SameWithout(a[1..], b[1..], id);
    }
  }

  lemma {:induction false} WithoutTwice(timers: seq<Timer>, id: string)
    ensures Without(Without(timers, id), id) == Without(timers, id)
  {
    if timers != [] {
      var rest := Without(timers[1..], id);
      WithoutTwice(timers[1..], id);
      assert [] + rest == rest && ([timers[0]] + rest)[1..] == rest;
    }
  }

  /** An action about one timer leaves every other as it was, and in its place. */
  lemma OthersUntouched(timers: seq<Timer>, action: Action, now: int)
    requires About(action).Some?
    ensures Without(After(timers, action, now), About(action).value) == Without(timers, About(action).value)
  {
    var id := About(action).value;
    match action
    case Add(_, recipeId, title, durationMs, recipeName) =>
      WithoutSnoc(timers, Timer(id, recipeId, title, recipeName, durationMs, durationMs, Paused, None), id);
    case Remove(_) => WithoutTwice(timers, id);
    case _ => SameWithout(After(timers, action, now), timers, id);
  }

  /**
   * Time given and taken back, or taken and given back, at one moment: the timer is as it
   * was exactly when the adjustment left something, or took all of a timer running from
   * that very moment.
   */
  lemma AdjustUndoneExactly(t: Timer, deltaMs: int, now: int)
    requires !t.status.Completed? && t.remainingMs > 0
    ensures Adjusted(Adjusted(t, deltaMs, now), -deltaMs, now) == t <==>
      || t.remainingMs + deltaMs > 0
      || (t.remainingMs + deltaMs == 0 && t.status.IsRunning? && t.lastTickAt == Some(now))
  {
    var once := Adjusted(t, deltaMs, now);
    var twice := Adjusted(once, -deltaMs, now);
    if t.remainingMs + deltaMs > 0 {
      assert once == t.(remainingMs := t.remainingMs + deltaMs);
      assert twice == t;
    } else {
      assert once.status.Completed? && once.remainingMs == 0;
      assert twice == t.(remainingMs := -deltaMs, status := IsRunning, lastTickAt := Some(now));
    }
  }

  // ----- ticking often is ticking once

  ghost predicate NeverBack(from: int, times: seq<int>)
    decreases times
  {
    times != [] ==> from <= times[0] && NeverBack(times[0], times[1..])
  }

  function TickEach(t: Timer, times: seq<int>): Timer
    decreases times
  {
    if times == [] then t else TickEach(Ticked(t, times[0]), times[1..])
  }

  /**
   * With a clock that never goes back, ticking a running timer at any times leaves it as
   * one tick at the last of them would: the same time left, and completed or not alike.
   */
  lemma {:induction false} TicksFuse(t: Timer, times: seq<int>)
    requires t.status.IsRunning? && t.lastTickAt.Some?
    requires times != [] && NeverBack(t.lastTickAt.value, times)
    ensures var once := Ticked(t, times[|times| - 1]);
      var each := TickEach(t, times);
      each == once.(lastTickAt := each.lastTickAt)
    decreases |times|
  {
    var next := Ticked(t, times[0]);
    LastIsLatest(t.lastTickAt.value, times);
    if |times| == 1 {
      assert TickEach(next, times[1..]) == next;
    } else if next.status.IsRunning? {
      assert times[1..][|times| - 2] == times[|times| - 1];
      TicksFuse(next, times[1..]);
    } else {
      NotRunningStays(next, times[1..]);
    }
  }

  /**
   * Ticked at any times, a timer with time left completes exactly when as much has gone by, from
   * when it was last looked at to the last of them, and otherwise has what has not.
   */
  lemma CompletesOnTime(t: Timer, times: seq<int>)
    requires t.status.IsRunning? && t.lastTickAt.Some? && t.remainingMs > 0
    requires times != [] && NeverBack(t.lastTickAt.value, times)
    ensures var each, gone := TickEach(t, times), times[|times| - 1] - t.lastTickAt.value;
      if t.remainingMs <= gone then each.status.Completed? && each.remainingMs == 0
      else each.status.IsRunning? && each.remainingMs == t.remainingMs - gone
  {
    TicksFuse(t, times);
  }

  lemma {:induction false} LastIsLatest(from: int, times: seq<int>)
    requires times != [] && NeverBack(from, times)
    ensures from <= times[0] <= times[|times| - 1]
    decreases |times|
  {
    if |times| > 1 {
      LastIsLatest(times[0], times[1..]);
    }
  }

  lemma {:induction false} NotRunningStays(t: Timer, times: seq<int>)
    requires !t.status.IsRunning?
    ensures TickEach(t, times) == t
  {
    if times != [] {
      NotRunningStays(t, times[1..]);
    }
  }

  // ----- what a run of starts, pauses and ticks charges

  datatype Beat = StartBeat(at: int) | PauseBeat(at: int) | TickBeat(at: int)

  function Apply(t: Timer, beat: Beat): Timer {
    match beat
    case StartBeat(at) => Started(t, at)
    case PauseBeat(_) => Stopped(t)
    case TickBeat(at) => Ticked(t, at)
  }

  /** A running timer is looked at no earlier than, and at most `gap` after, it last was, and does not complete. */
  predicate Watched(t: Timer, beat: Beat, gap: int) {
    && (t.status.IsRunning? ==> t.lastTickAt.Some? && 0 <= beat.at - t.lastTickAt.value <= gap)
    && !Apply(t, beat).status.Completed?
  }

  ghost predicate WatchedRun(t: Timer, beats: seq<Beat>, gap: int)
    decreases beats
  {
    beats != [] ==> Watched(t, beats[0], gap) && WatchedRun(Apply(t, beats[0]), beats[1..], gap)
  }

  function AfterBeats(t: Timer, beats: seq<Beat>): Timer
    decreases beats
  {
    if beats == [] then t else AfterBeats(Apply(t, beats[0]), beats[1..])
  }

  /** The time on the clock the timer has spent running, from a moment to the last beat. */
  function Ran(t: Timer, since: int, beats: seq<Beat>): int
    decreases beats
  {
    if beats == [] then 0
    else (if t.status.IsRunning? then beats[0].at - since else 0) + Ran(Apply(t, beats[0]), beats[0].at, beats[1..])
  }

  function LastBeat(since: int, beats: seq<Beat>): int {
    if beats == [] then since else beats[|beats| - 1].at
  }

  /** How often a running timer was paused or started again. */
  function Cuts(t: Timer, beats: seq<Beat>): nat
    decreases beats
  {
    if beats == [] then 0
    else (if t.status.IsRunning? && !beats[0].TickBeat? then 1 else 0) + Cuts(Apply(t, beats[0]), beats[1..])
  }

  /** A running timer knows the moment it was last looked at. */
  predicate LookedAt(t: Timer, since: int) {
    t.status.IsRunning? ==> t.lastTickAt == Some(since)
  }

  /**
   * Until it completes, a timer is charged for all the time it ran but what a pause or a
   * restart cut off since the last tick: never for more, and for at most `gap` less each time.
   */
  lemma {:induction false} ChargedForItsTime(t: Timer, since: int, beats: seq<Beat>, gap: int)
    requires gap >= 0 && t.remainingMs > 0 && LookedAt(t, since) && WatchedRun(t, beats, gap)
    ensures AfterBeats(t, beats).remainingMs > 0 && LookedAt(AfterBeats(t, beats), LastBeat(since, beats))
    ensures var charged := t.remainingMs - AfterBeats(t, beats).remainingMs;
      0 <= Ran(t, since, beats) - charged <= gap * Cuts(t, beats)
    decreases beats
  {
    if beats != [] {
      var next := Apply(t, beats[0]);
      ChargedForItsTime(next, beats[0].at, beats[1..], gap);
      assert gap * (Cuts(next, beats[1..]) + 1) == gap * Cuts(next, beats[1..]) + gap;
    }
  }

  /**
   * At any moment after the last beat, the running time not charged yet is at most `gap`
   * for each pause or restart, and the time since that beat if the timer is running.
   */
  lemma ChargedByNow(t: Timer, since: int, beats: seq<Beat>, gap: int, now: int)
    requires gap >= 0 && t.remainingMs > 0 && LookedAt(t, since) && WatchedRun(t, beats, gap)
    requires LastBeat(since, beats) <= now
    ensures var last := AfterBeats(t, beats);
      var tail := if last.status.IsRunning? then now - LastBeat(since, beats) else 0;
      0 <= Ran(t, since, beats) + tail - (t.remainingMs - last.remainingMs) <= gap * Cuts(t, beats) + tail
  {
    ChargedForItsTime(t, since, beats, gap);
  }

  // ----- one timer of a store

  /** The timer of an id, the first if there were several. */
  function Get(timers: seq<Timer>, id: string): Option<Timer> {
    if timers == [] then None
    else if timers[0].id == id then Some(timers[0])
    else Get(timers[1..], id)
  }

  /** What an action makes of the timer of an id. */
  function AfterOne(t: Option<Timer>, id: string, action: Action, now: int): Option<Timer> {
    match action
    case Add(other, recipeId, title, durationMs, recipeName) =>
      if other == id && t.None? then
        Some(Timer(id, recipeId, title, recipeName, durationMs, durationMs, Paused, None))
      else t
    case Remove(other) => if other == id then None else t
    case Clear => None
    case Start(other) => if other == id && t.Some? then Some(Started(t.value, now)) else t
    case Pause(other) => if other == id && t.Some? then Some(Stopped(t.value)) else t
    case ResetTimer(other) => if other == id && t.Some? then Some(Reset(t.value)) else t
    case Adjust(other, deltaMs) => if other == id && t.Some? then Some(Adjusted(t.value, deltaMs, now)) else t
    case Tick => if t.Some? then Some(Ticked(t.value, now)) else None
  }

  function RunOne(t: Option<Timer>, id: string, actions: seq<(Action, int)>): Option<Timer>
    decreases actions
  {
    if actions == [] then t else RunOne(AfterOne(t, id, actions[0].0, actions[0].1), id, actions[1..])
  }

  lemma {:induction false} GetNone(timers: seq<Timer>, id: string)
    ensures Get(timers, id).None? <==> !Has(timers, id)
    ensures Get(timers, id).Some? ==> Get(timers, id).value.id == id
  {
    if timers != [] {
      GetNone(timers[1..], id);
      assert Has(timers, id) <==> timers[0].id == id || Has(timers[1..], id) by {
        assert forall i :: 0 < i < |timers| ==> timers[i] == timers[1..][i - 1];
      }
    }
  }

  lemma {:induction false} GetLast(timers: seq<Timer>, t: Timer, id: string)
    ensures Get(timers + [t], id) == if Get(timers, id).None? && t.id == id then Some(t) else Get(timers, id)
  {
    if timers != [] {
      GetLast(timers[1..], t, id);
      ConcatTail(timers, [t]);
    }
  }

  lemma {:induction false} GetWithout(timers: seq<Timer>, gone: string, id: string)
    ensures Get(Without(timers, gone), id) == if gone == id then None else Get(timers, id)
  {
    if timers != [] {
      var rest := Without(timers[1..], gone);
      GetWithout(timers[1..], gone, id);
      assert [] + rest == rest && ([timers[0]] + rest)[1..] == rest;
    }
  }

  /** A map that keeps ids maps the timer of an id. */
  lemma {:induction false} GetMapped(timers: seq<Timer>, mapped: seq<Timer>, id: string, f: Timer -> Timer)
    requires |mapped| == |timers|
    requires forall i :: 0 <= i < |timers| ==>
      mapped[i].id == timers[i].id && (timers[i].id == id ==> mapped[i] == f(timers[i]))
    ensures Get(mapped, id) == match Get(timers, id) case Some(t) => Some(f(t)) case None => None
  {
    if timers != [] {
      GetMapped(timers[1..], mapped[1..], id, f);
    }
  }

  lemma ActionProjects(timers: seq<Timer>, id: string, action: Action, now: int)
    ensures Get(After(timers, action, now), id) == AfterOne(Get(timers, id), id, action, now)
  {
    var after := After(timers, action, now);
    match action
    case Add(other, recipeId, title, durationMs, recipeName) =>
      GetNone(timers, other);
      GetLast(timers, Timer(other, recipeId, title, recipeName, durationMs, durationMs, Paused, None), id);
    case Remove(other) => GetWithout(timers, other, id);
    case Clear =>
    case Start(other) => GetMapped(timers, after, id, t => if other == id then Started(t, now) else t);
    case Pause(other) => GetMapped(timers, after, id, t => if other == id then Stopped(t) else t);
    case ResetTimer(other) => GetMapped(timers, after, id, t => if other == id then Reset(t) else t);
    case Adjust(other, deltaMs) =>
      GetMapped(timers, after, id, t => if other == id then Adjusted(t, deltaMs, now) else t);
    case Tick => GetMapped(timers, after, id, t => Ticked(t, now));
  }

  /** In every run of a store the timer of an id goes its own way, whatever is done to the others. */
  lemma {:induction false} StoreProjects(timers: seq<Timer>, id: string, actions: seq<(Action, int)>)
    ensures Get(Run(timers, actions), id) == RunOne(Get(timers, id), id, actions)
    decreases |actions|
  {
    if actions != [] {
      ActionProjects(timers, id, actions[0].0, actions[0].1);
      StoreProjects(After(timers, actions[0].0, actions[0].1), id, actions[1..]);
    }
  }

  /** The starts, pauses and ticks of a run that the timer of an id takes part in. */
  function BeatsOf(actions: seq<(Action, int)>, id: string): seq<Beat> {
    if actions == [] then []
    else
      var rest := BeatsOf(actions[1..], id);
      match actions[0].0
      case Start(other) => if other == id then [StartBeat(actions[0].1)] + rest else rest
      case Pause(other) => if other == id then [PauseBeat(actions[0].1)] + rest else rest
      case Tick => [TickBeat(actions[0].1)] + rest
      case _ => rest
  }

  /** The run only starts, pauses and ticks the timer of an id; the others it treats as it likes. */
  predicate OnlyBeats(actions: seq<(Action, int)>, id: string) {
    forall a | a in actions :: !a.0.Clear? && (About(a.0) == Some(id) ==> a.0.Start? || a.0.Pause? || a.0.Add?)
  }

  lemma {:induction false} BeatsProject(t: Timer, id: string, actions: seq<(Action, int)>)
    requires OnlyBeats(actions, id)
    ensures RunOne(Some(t), id, actions) == Some(AfterBeats(t, BeatsOf(actions, id)))
    decreases |actions|
  {
    if actions != [] {
      var a, rest := actions[0], BeatsOf(actions[1..], id);
      assert a in actions;
      var next := AfterOne(Some(t), id, a.0, a.1).value;
      BeatsProject(next, id, actions[1..]);
      match a.0 {
        case Start(other) =>
          assert ([StartBeat(a.1)] + rest)[1..] == rest;
        case Pause(other) =>
          assert ([PauseBeat(a.1)] + rest)[1..] == rest;
        case Tick =>
          assert ([TickBeat(a.1)] + rest)[1..] == rest;
        case _ =>
      }
    }
  }

  /**
   * In a store, over any run that only starts, pauses and ticks a timer until it completes,
   * doing anything to any others: at every moment the running time it has not been charged
   * is at most `gap` for each pause or restart, and one current tail.
   */
  lemma StoreCharges(timers: seq<Timer>, id: string, actions: seq<(Action, int)>, since: int, gap: int, now: int)
    requires Get(timers, id).Some? && OnlyBeats(actions, id)
    requires var t, beats := Get(timers, id).value, BeatsOf(actions, id);
      gap >= 0 && t.remainingMs > 0 && LookedAt(t, since) && WatchedRun(t, beats, gap) && LastBeat(since, beats) <= now
    ensures Get(Run(timers, actions), id).Some?
    ensures var t, beats, last := Get(timers, id).value, BeatsOf(actions, id), Get(Run(timers, actions), id).value;
      var tail := if last.status.IsRunning? then now - LastBeat(since, beats) else 0;
      0 <= Ran(t, since, beats) + tail - (t.remainingMs - last.remainingMs) <= gap * Cuts(t, beats) + tail
  {
    StoreProjects(timers, id, actions);
    BeatsProject(Get(timers, id).value, id, actions);
    ChargedByNow(Get(timers, id).value, since, BeatsOf(actions, id), gap, now);
  }

  function TicksAt(times: seq<int>): seq<(Action, int)> {
    seq(|times|, i requires 0 <= i < |times| => (Tick, times[i]))
  }

  lemma {:induction false} TicksAreBeats(t: Timer, id: string, times: seq<int>)
    ensures RunOne(Some(t), id, TicksAt(times)) == Some(TickEach(t, times))
    decreases |times|
  {
    if times != [] {
      assert TicksAt(times)[1..] == TicksAt(times[1..]);
      TicksAreBeats(Ticked(t, times[0]), id, times[1..]);
    }
  }

  /** In a store, too, ticking at any times leaves a running timer as one tick at the last of them. */
  lemma StoreTicksFuse(timers: seq<Timer>, id: string, times: seq<int>)
    requires Get(timers, id).Some? && Get(timers, id).value.status.IsRunning? && Get(timers, id).value.lastTickAt.Some?
    requires times != [] && NeverBack(Get(timers, id).value.lastTickAt.value, times)
    ensures var each, once := Get(Run(timers, TicksAt(times)), id), Get(TickAll(timers, times[|times| - 1]), id);
      each.Some? && once.Some? && each.value == once.value.(lastTickAt := each.value.lastTickAt)
  {
    var t := Get(timers, id).value;
    StoreProjects(timers, id, TicksAt(times));
    TicksAreBeats(t, id, times);
    TicksFuse(t, times);
    ActionProjects(timers, id, Tick, times[|times| - 1]);
  }
}
