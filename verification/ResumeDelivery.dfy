/**
 * The delivery rule of a subscription: an event whose id is not after its
 * channel's cursor is skipped, any other advances the cursor and is yielded.
 */
module ResumeDelivery {
  import opened Basics
  import opened StreamIds
  import opened ResumeLog

  /** A yielded event with the cursor as it is encoded at that moment. */
  datatype Item = Item(event: Tagged, cursor: seq<StreamId>)

  ghost predicate InRange(events: seq<Tagged>, channels: nat) {
    forall e :: e in events ==> e.index < channels
  }

  /** Whether the event is yielded under this cursor. */
  predicate Passes(event: Tagged, ids: seq<StreamId>)
    requires event.index < |ids|
  {
    event.envelope.eventId.Stamp? ==> Compare(event.envelope.eventId.id, ids[event.index]) > 0
  }

  function Advance(event: Tagged, ids: seq<StreamId>): seq<StreamId>
    requires event.index < |ids|
  {
    if event.envelope.eventId.Stamp? && Passes(event, ids) then ids[event.index := event.envelope.eventId.id] else ids
  }

  function Deliver(events: seq<Tagged>, ids: seq<StreamId>): seq<Item>
    requires InRange(events, |ids|)
  {
    if events == [] then []
    else
      var ids' := Advance(events[0], ids);
      (if Passes(events[0], ids) then [Item(events[0], ids')] else []) + Deliver(events[1..], ids')
  }

  /** The cursor once the events have been looked at. */
  function CursorAfter(events: seq<Tagged>, ids: seq<StreamId>): (r: seq<StreamId>)
    requires InRange(events, |ids|)
    ensures |r| == |ids|
  {
    if events == [] then ids else CursorAfter(events[1..], Advance(events[0], ids))
  }

  // ----- one channel at a time

  function Project(events: seq<Tagged>, c: nat): seq<Tagged> {
    if events == [] then []
    else (if events[0].index == c then [events[0]] else []) + Project(events[1..], c)
  }

  function Events(items: seq<Item>): (r: seq<Tagged>)
    ensures |r| == |items|
  {
    seq(|items|, i requires 0 <= i < |items| => items[i].event)
  }

  /** The same rule with a single channel's cursor. */
  function DeliverOne(events: seq<Tagged>, last: StreamId): seq<Tagged> {
    if events == [] then []
    else match events[0].envelope.eventId
      case Other(_) => [events[0]] + DeliverOne(events[1..], last)
      case Stamp(id) =>
        if Compare(id, last) > 0 then [events[0]] + DeliverOne(events[1..], id) else DeliverOne(events[1..], last)
  }

  function Later(event: Tagged, last: StreamId): StreamId {
    if event.envelope.eventId.Stamp? then event.envelope.eventId.id else last
  }

  /** The last stream id among the events, or the given one. */
  function LastId(events: seq<Tagged>, last: StreamId): StreamId {
    if events == [] then last else LastId(events[1..], Later(events[0], last))
  }

  /** The stream ids climb strictly, all of them above `last`; events without one may stand anywhere. */
  ghost predicate Rising(events: seq<Tagged>, last: StreamId) {
    events != [] ==>
      match events[0].envelope.eventId
      case Other(_) => Rising(events[1..], last)
      case Stamp(id) => Compare(id, last) > 0 && Rising(events[1..], id)
  }

  ghost predicate AllAbove(events: seq<Tagged>, bound: StreamId) {
    forall i | 0 <= i < |events| && events[i].envelope.eventId.Stamp? ::
      Compare(events[i].envelope.eventId.id, bound) > 0
  }

  ghost predicate AllUpTo(events: seq<Tagged>, bound: StreamId) {
    forall i | 0 <= i < |events| && events[i].envelope.eventId.Stamp? ::
      Compare(events[i].envelope.eventId.id, bound) <= 0
  }

  /** Every stream id is after each stream id before it. */
  ghost predicate Climbing(events: seq<Tagged>) {
    forall i, j | 0 <= i < j < |events| && events[i].envelope.eventId.Stamp? && events[j].envelope.eventId.Stamp? ::
      Compare(events[i].envelope.eventId.id, events[j].envelope.eventId.id) < 0
  }

  // ----- lemmas

  lemma EventsConcat(a: seq<Item>, b: seq<Item>)
    ensures Events(a + b) == Events(a) + Events(b)
  {
  }

  lemma {:induction false} ProjectConcat(a: seq<Tagged>, b: seq<Tagged>, c: nat)
    ensures Project(a + b, c) == Project(a, c) + Project(b, c)
  {
    if a == [] {
      assert a + b == b;
    } else {
      var first := if a[0].index == c then [a[0]] else [];
      ProjectConcat(a[1..], b, c);
      ConcatTail(a, b);
      Regroup(first, Project(a[1..], c), Project(b, c));
    }
  }

  lemma {:induction false} ProjectOwn(events: seq<Tagged>, c: nat)
    requires forall e :: e in events ==> e.index == c
    ensures Project(events, c) == events
  {
    if events != [] {
      ProjectOwn(events[1..], c);
    }
  }

  lemma {:induction false} ProjectOther(events: seq<Tagged>, c: nat)
    requires forall e :: e in events ==> e.index != c
    ensures Project(events, c) == []
  {
    if events != [] {
      ProjectOther(events[1..], c);
    }
  }

  lemma {:induction false} LastIdConcat(a: seq<Tagged>, b: seq<Tagged>, last: StreamId)
    ensures LastId(a + b, last) == LastId(b, LastId(a, last))
  {
    if a == [] {
      assert a + b == b;
    } else {
      LastIdConcat(a[1..], b, Later(a[0], last));
      assert (a + b)[1..] == a[1..] + b;
    }
  }

  lemma {:induction false} DeliverConcat(a: seq<Tagged>, b: seq<Tagged>, ids: seq<StreamId>)
    requires InRange(a, |ids|) && InRange(b, |ids|)
    ensures InRange(a + b, |ids|)
    ensures Deliver(a + b, ids) == Deliver(a, ids) + Deliver(b, CursorAfter(a, ids))
    ensures CursorAfter(a + b, ids) == CursorAfter(b, CursorAfter(a, ids))
  {
    if a == [] {
      assert a + b == b;
    } else {
      var ids' := Advance(a[0], ids);
      var first := if Passes(a[0], ids) then [Item(a[0], ids')] else [];
      ConcatTail(a, b);
      DeliverConcat(a[1..], b, ids');
      Regroup(first, Deliver(a[1..], ids'), Deliver(b, CursorAfter(a[1..], ids')));
    }
  }

  lemma {:induction false} DeliverOneConcat(a: seq<Tagged>, b: seq<Tagged>, last: StreamId)
    ensures DeliverOne(a + b, last) == DeliverOne(a, last) + DeliverOne(b, LastId(DeliverOne(a, last), last))
  {
    if a == [] {
      assert a + b == b;
    } else {
      assert (a + b)[1..] == a[1..] + b;
      match a[0].envelope.eventId
      case Other(_) =>
        DeliverOneConcat(a[1..], b, last);
      case Stamp(id) =>
        DeliverOneConcat(a[1..], b, if Compare(id, last) > 0 then id else last);
    }
  }

  /** A channel's share of the delivery depends on nothing but that channel. */
  lemma {:induction false} DeliverProjects(events: seq<Tagged>, ids: seq<StreamId>, c: nat)
    requires InRange(events, |ids|) && c < |ids|
    ensures Project(Events(Deliver(events, ids)), c) == DeliverOne(Project(events, c), ids[c])
  {
    if events != [] {
      var ids' := Advance(events[0], ids);
      DeliverProjects(events[1..], ids', c);
      var here := if Passes(events[0], ids) then [Item(events[0], ids')] else [];
      EventsConcat(here, Deliver(events[1..], ids'));
      ProjectConcat(Events(here), Events(Deliver(events[1..], ids')), c);
      ProjectHere(here, c);
      if events[0].index == c {
        assert Project(events, c)[1..] == Project(events[1..], c);
      } else {
        assert Project(events, c) == Project(events[1..], c);
      }
    }
  }

  lemma ProjectHere(here: seq<Item>, c: nat)
    requires |here| <= 1
    ensures Project(Events(here), c) == if here != [] && here[0].event.index == c then [here[0].event] else []
  {
    if here != [] {
      assert Project(Events(here)[1..], c) == [];
    }
  }

  /** Whatever arrives, in any order and however often, one channel's ids climb. */
  lemma {:induction false} DeliverOneRises(events: seq<Tagged>, last: StreamId)
    ensures Rising(DeliverOne(events, last), last)
  {
    if events != [] {
      match events[0].envelope.eventId
      case Other(_) =>
        DeliverOneRises(events[1..], last);
        assert DeliverOne(events, last)[1..] == DeliverOne(events[1..], last);
      case Stamp(id) =>
        if Compare(id, last) > 0 {
          DeliverOneRises(events[1..], id);
          assert DeliverOne(events, last)[1..] == DeliverOne(events[1..], id);
        } else {
          DeliverOneRises(events[1..], last);
        }
    }
  }

  /** Nothing is skipped from a stream that already climbs. */
  lemma {:induction false} RisingPasses(events: seq<Tagged>, last: StreamId)
    requires Rising(events, last)
    ensures DeliverOne(events, last) == events
  {
    if events != [] {
      match events[0].envelope.eventId
      case Other(_) => RisingPasses(events[1..], last);
      case Stamp(id) => RisingPasses(events[1..], id);
    }
  }

  lemma {:induction false} RisingApart(events: seq<Tagged>, last: StreamId)
    requires Rising(events, last)
    ensures AllAbove(events, last) && Climbing(events)
  {
    if events != [] {
      var rest := events[1..];
      var next := Later(events[0], last);
      RisingApart(rest, next);
      assert forall i :: 0 < i < |events| ==> events[i] == rest[i - 1];
    }
  }

  /** The cursor attached to a yield holds, for every channel, the last id yielded there so far. */
  lemma {:induction false} CursorAtYield(events: seq<Tagged>, ids: seq<StreamId>, n: nat, c: nat)
    requires InRange(events, |ids|) && c < |ids|
    requires n < |Deliver(events, ids)|
    ensures |Deliver(events, ids)[n].cursor| == |ids|
    ensures Deliver(events, ids)[n].cursor[c] == LastId(Project(Events(Deliver(events, ids)[..n + 1]), c), ids[c])
  {
    var ids' := Advance(events[0], ids);
    var rest := Deliver(events[1..], ids');
    if !Passes(events[0], ids) {
      assert Deliver(events, ids) == rest;
      CursorAtYield(events[1..], ids', n, c);
    } else {
      var first := Item(events[0], ids');
      FirstThen(first, rest, n, c);
      assert LastId(Project(Events([first]), c), ids[c]) == ids'[c] by { ProjectHere([first], c); }
      LastIdConcat(Project(Events([first]), c), Project(Events(rest[..n]), c), ids[c]);
      if n > 0 {
        CursorAtYield(events[1..], ids', n - 1, c);
      }
    }
  }

  lemma FirstThen(first: Item, rest: seq<Item>, n: nat, c: nat)
    requires n <= |rest|
    ensures Project(Events(([first] + rest)[..n + 1]), c) == Project(Events([first]), c) + Project(Events(rest[..n]), c)
  {
    assert ([first] + rest)[..n + 1] == [first] + rest[..n];
    EventsConcat([first], rest[..n]);
    ProjectConcat(Events([first]), Events(rest[..n]), c);
  }

  /**
   * For any events at all, in any order and with any duplicates: per channel the
   * stream ids yielded climb strictly from above the opening cursor, and the cursor
   * at each yield is above or at every id yielded so far and is one of them, or the
   * opening id.
   */
  lemma DeliveredIdsClimb(events: seq<Tagged>, ids: seq<StreamId>, c: nat, n: nat)
    requires InRange(events, |ids|) && c < |ids|
    requires n < |Deliver(events, ids)|
    ensures var items := Deliver(events, ids);
      var seen := Project(Events(items[..n + 1]), c);
      && Climbing(seen)
      && AllAbove(seen, ids[c])
      && |items[n].cursor| == |ids|
      && AllUpTo(seen, items[n].cursor[c])
      && Compare(ids[c], items[n].cursor[c]) <= 0
      && (items[n].cursor[c] == ids[c] ||
          exists i :: 0 <= i < |seen| && seen[i].envelope.eventId == Stamp(items[n].cursor[c]))
  {
    var seen := Project(Events(Deliver(events, ids)[..n + 1]), c);
    SeenRises(events, ids, c, n + 1);
    RisingApart(seen, ids[c]);
    CursorAtYield(events, ids, n, c);
    LastIdIsGreatest(seen, ids[c]);
  }

  lemma SeenRises(events: seq<Tagged>, ids: seq<StreamId>, c: nat, n: nat)
    requires InRange(events, |ids|) && c < |ids|
    requires n <= |Deliver(events, ids)|
    ensures Rising(Project(Events(Deliver(events, ids)[..n]), c), ids[c])
  {
    var items := Deliver(events, ids);
    var all, seen := Project(Events(items), c), Project(Events(items[..n]), c);
    DeliverProjects(events, ids, c);
    DeliverOneRises(Project(events, c), ids[c]);
    assert items == items[..n] + items[n..];
    EventsConcat(items[..n], items[n..]);
    ProjectConcat(Events(items[..n]), Events(items[n..]), c);
    assert all[..|seen|] == seen;
    RisingPrefix(all, ids[c], |seen|);
  }

  lemma {:induction false} RisingPrefix(events: seq<Tagged>, last: StreamId, n: nat)
    requires Rising(events, last) && n <= |events|
    ensures Rising(events[..n], last)
  {
    if n > 0 {
      assert events[..n][1..] == events[1..][..n - 1];
      match events[0].envelope.eventId
      case Other(_) => RisingPrefix(events[1..], last, n - 1);
      case Stamp(id) => RisingPrefix(events[1..], id, n - 1);
    }
  }

  lemma {:induction false} LastIdIsGreatest(events: seq<Tagged>, last: StreamId)
    requires Rising(events, last)
    ensures AllUpTo(events, LastId(events, last))
    ensures Compare(last, LastId(events, last)) <= 0
    ensures LastId(events, last) == last ||
      exists i :: 0 <= i < |events| && events[i].envelope.eventId == Stamp(LastId(events, last))
  {
    if events != [] {
      var rest := events[1..];
      var next := Later(events[0], last);
      LastIdIsGreatest(rest, next);
      assert forall i :: 0 < i < |events| ==> events[i] == rest[i - 1];
      assert forall i :: 0 <= i < |rest| ==> rest[i] == events[i + 1];
    }
  }

  // ----- which events are yielded

  /** The cursor of a channel stands at the greatest id looked at, yielded or not, or where it stood. */
  lemma {:induction false} CursorIsGreatestSeen(events: seq<Tagged>, last: StreamId)
    ensures var at := LastId(DeliverOne(events, last), last);
      && AllUpTo(events, at) && Compare(last, at) <= 0
      && (at == last || exists i :: 0 <= i < |events| && events[i].envelope.eventId == Stamp(at))
  {
    if events != [] {
      var next := match events[0].envelope.eventId
        case Other(_) => last
        case Stamp(id) => if Compare(id, last) > 0 then id else last;
      var at := LastId(DeliverOne(events, last), last);
      CursorIsGreatestSeen(events[1..], next);
      assert at == LastId(DeliverOne(events[1..], next), next);
      assert forall i :: 0 < i < |events| ==> events[i] == events[1..][i - 1];
      if at != last && at != next {
        var i :| 0 <= i < |events| - 1 && events[1..][i].envelope.eventId == Stamp(at);
        assert events[i + 1].envelope.eventId == Stamp(at);
      }
    }
  }

  /** An event without a stream id, or with one above the opening id and every one before it on its channel. */
  ghost predicate IsFresh(event: Tagged, before: seq<Tagged>, last: StreamId) {
    event.envelope.eventId.Stamp? ==>
      && Compare(event.envelope.eventId.id, last) > 0
      && forall i | 0 <= i < |before| && before[i].envelope.eventId.Stamp? ::
           Compare(event.envelope.eventId.id, before[i].envelope.eventId.id) > 0
  }

  /**
   * The next event of a channel is yielded, as it is, exactly when it has no stream id or one
   * above all its channel has had; otherwise it is skipped.
   */
  lemma YieldedExactly(before: seq<Tagged>, event: Tagged, last: StreamId)
    ensures DeliverOne(before + [event], last)
         == DeliverOne(before, last) + (if IsFresh(event, before, last) then [event] else [])
  {
    var at := LastId(DeliverOne(before, last), last);
    DeliverOneConcat(before, [event], last);
    CursorIsGreatestSeen(before, last);
    assert [event][1..] == [];
    assert DeliverOne([event][1..], at) == [];
  }
}
