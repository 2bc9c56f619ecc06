/**
 * The running subscription: opening the cursor, racing the live sources, and the
 * loop that advances the cursor in place before each yield.
 */
module ResumeRuntime {
  import opened Basics
  import opened StreamIds
  import opened ResumeLog
  import opened ResumeDelivery
  import opened ResumeSessions

  // ----- opening the cursor

  /** A client's cursor as it decodes. */
  datatype Presented = Malformed | Presented(identityHash: string, ids: seq<StreamId>)

  datatype Opened = Opened(ids: seq<StreamId>, resume: bool)

  /** A cursor of this identity and this many channels, none of whose ids has expired. */
  predicate Acceptable(identityHash: string, channels: nat, lastEventId: Option<Presented>, now: nat) {
    && lastEventId.Some? && lastEventId.value.Presented?
    && lastEventId.value.identityHash == identityHash && |lastEventId.value.ids| == channels
    && forall c :: 0 <= c < channels ==> !IsExpired(lastEventId.value.ids[c], now)
  }

  /**
   * Mint a cursor from the last id of each channel's stream, or accept the client's. It
   * is refused when it does not parse, when it belongs to another identity or another
   * number of channels, and when any of its ids has expired.
   */
  function OpenCursor(identityHash: string, tips: seq<Option<StreamId>>, lastEventId: Option<Presented>, now: nat)
    : (r: Result<Opened, Lagged>)
    ensures lastEventId.None? ==> r.Ok? && !r.value.resume && |r.value.ids| == |tips|
    ensures lastEventId.None? ==>
      forall c :: 0 <= c < |tips| ==> r.value.ids[c] == (if tips[c].Some? then tips[c].value else ZERO_STREAM_ID)
    ensures r.Ok? && lastEventId.Some? <==> Acceptable(identityHash, |tips|, lastEventId, now)
    ensures r.Ok? && lastEventId.Some? ==> r.value == Opened(lastEventId.value.ids, true)
    ensures r.Err? && r.error.reason.IdentityChanged? <==>
      lastEventId.Some? && lastEventId.value.Presented?
      && (lastEventId.value.identityHash != identityHash || |lastEventId.value.ids| != |tips|)
    ensures r.Err? && r.error.reason.CursorInvalid? <==> lastEventId == Some(Malformed)
    ensures r.Err? ==> r.error.reason in {CursorInvalid, IdentityChanged, CursorExpired}
    ensures r.Err? && r.error.reason.CursorExpired? ==>
      exists c :: 0 <= c < |tips| && r.error.channel == Some(c) && IsExpired(lastEventId.value.ids[c], now)
  {
    match lastEventId
    case None =>
      Ok(Opened(seq(|tips|, c requires 0 <= c < |tips| =>
           match tips[c] case Some(id) => id case None => ZERO_STREAM_ID), false))
    case Some(Malformed) => Err(Lagged(None, CursorInvalid))
    case Some(Presented(hash, ids)) =>
      if hash != identityHash || |ids| != |tips| then
        Err(Lagged(if |tips| > 0 then Some(0) else None, IdentityChanged))
      else
        match FirstExpired(ids, now)
        case Some(c) => Err(Lagged(Some(c), CursorExpired))
        case None => Ok(Opened(ids, true))
  }

  // ----- racing the live sources

  datatype End = Done | Raises(error: Lagged) | Silent

  /** A live iterable: the values it hands over, then what its next `next()` does. */
  datatype Source = Source(values: seq<Envelope>, end: End)

  /** What a pending `next()` settles to, if ever. */
  datatype Pulled = Value(envelope: Envelope) | Over | Threw(error: Lagged) | Never

  datatype Ending = Finished | Aborted | Failed(error: Lagged) | Waiting

  function Pull(source: Source, position: nat): Pulled {
    if position < |source.values| then Value(source.values[position])
    else match source.end
      case Done => Over
      case Raises(error) => Threw(error)
      case Silent => Never
  }

  function Tag(c: nat, values: seq<Envelope>): (r: seq<Tagged>)
    ensures |r| == |values|
  {
    seq(|values|, i requires 0 <= i < |values| => Tagged(c, values[i]))
  }

  ghost function Remaining(sources: seq<Source>, taken: seq<nat>): nat
    requires |sources| == |taken|
    requires forall c :: 0 <= c < |sources| ==> taken[c] <= |sources[c].values|
  {
    if sources == [] then 0
    else |sources[0].values| - taken[0] + Remaining(sources[1..], taken[1..])
  }

  lemma {:induction false} TakingShrinks(sources: seq<Source>, taken: seq<nat>, c: nat)
    requires |sources| == |taken| && c < |sources|
    requires forall i :: 0 <= i < |sources| ==> taken[i] <= |sources[i].values|
    requires taken[c] < |sources[c].values|
    ensures Remaining(sources, taken[c := taken[c] + 1]) < Remaining(sources, taken)
  {
    if c == 0 {
      assert taken[c := taken[c] + 1][1..] == taken[1..];
    } else {
      TakingShrinks(sources[1..], taken[1..], c - 1);
      assert taken[c := taken[c] + 1][1..] == taken[1..][c - 1 := taken[1..][c - 1] + 1];
    }
  }

  /** The merged events hold, per channel, exactly what has been taken of its source, in order. */
  ghost predicate Interleaves(out: seq<Tagged>, sources: seq<Source>, taken: seq<nat>) {
    && |taken| == |sources|
    && InRange(out, |sources|)
    && forall c :: 0 <= c < |sources| ==>
         taken[c] <= |sources[c].values| && Project(out, c) == Tag(c, sources[c].values[..taken[c]])
  }

  lemma NothingTaken(sources: seq<Source>)
    ensures Interleaves([], sources, seq(|sources|, _ => 0))
  {
  }

  lemma TakeOne(out: seq<Tagged>, sources: seq<Source>, taken: seq<nat>, c: nat)
    requires Interleaves(out, sources, taken) && c < |sources| && taken[c] < |sources[c].values|
    ensures Interleaves(out + [Tagged(c, sources[c].values[taken[c]])], sources, taken[c := taken[c] + 1])
  {
    var next := Tagged(c, sources[c].values[taken[c]]);
    forall d | 0 <= d < |sources|
      ensures Project(out + [next], d) == Tag(d, sources[d].values[..taken[c := taken[c] + 1][d]])
    {
      ProjectConcat(out, [next], d);
      assert Project([next], d) == if c == d then [next] else [];
      if c == d {
        assert sources[c].values[..taken[c] + 1] == sources[c].values[..taken[c]] + [next.envelope];
      }
    }
  }

  /** The pending `next()` of each source asks for the value after those taken; no other is pending. */
  ghost predicate PendingNext(pending: map<int, Pulled>, sources: seq<Source>, taken: seq<nat>) {
    && |taken| == |sources|
    && (forall c :: c in pending ==> 0 <= c < |sources| && pending[c] == Pull(sources[c], taken[c]))
    && (forall c :: 0 <= c < |sources| && c !in pending ==> Pull(sources[c], taken[c]).Over?)
  }

  lemma PulledOver(pending: map<int, Pulled>, sources: seq<Source>, taken: seq<nat>, index: nat)
    requires PendingNext(pending, sources, taken) && index in pending && pending[index].Over?
    ensures PendingNext(pending - {index}, sources, taken) && |pending - {index}| < |pending|
  {
    assert (pending - {index}).Keys == pending.Keys - {index};
    assert |(pending - {index}).Keys| < |pending.Keys|;
  }

  lemma PulledValue(pending: map<int, Pulled>, sources: seq<Source>, taken: seq<nat>, index: nat)
    requires PendingNext(pending, sources, taken) && index in pending && pending[index].Value?
    ensures taken[index] < |sources[index].values|
    ensures var taken' := taken[index := taken[index] + 1];
      PendingNext((pending - {index})[index := Pull(sources[index], taken'[index])], sources, taken')
  {
  }

  /** Said of the events themselves: the k-th merged of a source is the k-th it handed over, as it was. */
  ghost predicate AsHandedOver(out: seq<Tagged>, sources: seq<Source>, taken: seq<nat>)
    requires |taken| == |sources|
  {
    forall c: nat | c < |sources| ::
      && |Project(out, c)| == taken[c] <= |sources[c].values|
      && forall k: nat | k < taken[c] :: Project(out, c)[k] == Tagged(c, sources[c].values[k])
  }

  lemma InterleavedIs(out: seq<Tagged>, sources: seq<Source>, taken: seq<nat>)
    requires Interleaves(out, sources, taken)
    ensures AsHandedOver(out, sources, taken)
  {
  }

  ghost predicate OneAhead(taken: seq<nat>, pulls: seq<nat>) {
    |pulls| == |taken| && forall c :: 0 <= c < |taken| ==> taken[c] <= pulls[c] <= taken[c] + 1
  }

  lemma AskAgain(taken: seq<nat>, pulls: seq<nat>, c: nat)
    requires OneAhead(taken, pulls) && c < |taken|
    ensures OneAhead(taken[c := taken[c] + 1], pulls[c := taken[c] + 2])
  {
  }

  /** The race part of the way. */
  ghost predicate Racing(out: seq<Tagged>, sources: seq<Source>, taken: seq<nat>, pulls: seq<nat>,
                         pending: map<int, Pulled>) {
    Interleaves(out, sources, taken) && OneAhead(taken, pulls) && PendingNext(pending, sources, taken)
  }

  lemma TakePulled(out: seq<Tagged>, sources: seq<Source>, taken: seq<nat>, pulls: seq<nat>,
                   pending: map<int, Pulled>, c: nat)
    requires Racing(out, sources, taken, pulls, pending) && c in pending && pending[c].Value?
    ensures var taken' := taken[c := taken[c] + 1];
      && Racing(out + [Tagged(c, pending[c].envelope)], sources, taken', pulls[c := taken[c] + 2],
                (pending - {c})[c := Pull(sources[c], taken'[c])])
      && Remaining(sources, taken') < Remaining(sources, taken)
  {
    PulledValue(pending, sources, taken, c);
    TakeOne(out, sources, taken, c);
    TakingShrinks(sources, taken, c);
    AskAgain(taken, pulls, c);
  }

  ghost predicate Whole(source: Source, taken: nat) {
    taken == |source.values|
  }

  lemma NonePending(pending: map<int, Pulled>, sources: seq<Source>, taken: seq<nat>)
    requires PendingNext(pending, sources, taken)
    requires forall c :: 0 <= c < |sources| ==> taken[c] <= |sources[c].values|
    requires forall c :: c in pending ==> pending[c].Never?
    ensures forall c :: 0 <= c < |sources| ==> Whole(sources[c], taken[c]) && !sources[c].end.Raises?
    ensures pending.Keys == {} ==> forall c :: 0 <= c < |sources| ==> sources[c].end.Done?
  {
    forall c | 0 <= c < |sources|
      ensures Whole(sources[c], taken[c]) && !sources[c].end.Raises?
      ensures pending.Keys == {} ==> sources[c].end.Done?
    {
      assert c in pending <==> c in pending.Keys;
      assert Pull(sources[c], taken[c]).Over? || Pull(sources[c], taken[c]).Never?;
    }
  }

  /**
   * Race the sources. Whichever settled `next()` the race picks, the events taken
   * interleave prefixes of the sources, with at most one further value asked of each;
   * without an error or an abort every source has been taken whole.
   */
  method MergeLive(sources: seq<Source>, signal: nat -> bool)
    returns (out: seq<Tagged>, ending: Ending, taken: seq<nat>, ghost pulls: seq<nat>)
    ensures Interleaves(out, sources, taken) && OneAhead(taken, pulls) && AsHandedOver(out, sources, taken)
    ensures ending.Finished? ==> forall c :: 0 <= c < |sources| ==> Whole(sources[c], taken[c]) && sources[c].end.Done?
    ensures ending.Waiting? ==>
      forall c :: 0 <= c < |sources| ==> Whole(sources[c], taken[c]) && !sources[c].end.Raises?
    ensures ending.Failed? ==>
      exists c :: 0 <= c < |sources| && Whole(sources[c], taken[c]) && sources[c].end == Raises(ending.error)
    ensures ending.Aborted? ==> exists step :: signal(step)
  {
    var pending: map<int, Pulled> := map c | 0 <= c < |sources| :: Pull(sources[c], 0);
    out := [];
    taken, pulls := seq(|sources|, _ => 0), seq(|sources|, _ => 1);
    NothingTaken(sources);
    var step := 0;
    while pending.Keys != {} && !signal(step)
      invariant Racing(out, sources, taken, pulls, pending)
      decreases Remaining(sources, taken), |pending|
    {
      if forall c :: c in pending ==> pending[c].Never? {
        NonePending(pending, sources, taken);
        InterleavedIs(out, sources, taken);
        ending := Waiting;
        return;
      }
      var index :| index in pending && !pending[index].Never?;
      var pulled := pending[index];
      match pulled {
        case Threw(error) =>
          ending := Failed(error);
          InterleavedIs(out, sources, taken);
          assert Whole(sources[index], taken[index]);
          return;
        case Over =>
          PulledOver(pending, sources, taken, index);
          pending := pending - {index};
        case Value(envelope) =>
          TakePulled(out, sources, taken, pulls, pending, index);
          out := out + [Tagged(index, envelope)];
          taken, pulls := taken[index := taken[index] + 1], pulls[index := taken[index] + 2];
          pending := (pending - {index})[index := Pull(sources[index], taken[index])];
      }
      step := step + 1;
    }
    InterleavedIs(out, sources, taken);
    if pending.Keys == {} {
      ending := Finished;
      NonePending(pending, sources, taken);
    } else {
      ending := Aborted;
    }
  }

  // ----- replay, then live

  class RealtimeCursor {
    var ids: seq<StreamId>

    constructor (ids: seq<StreamId>)
      ensures this.ids == ids
    {
      this.ids := ids;
    }
  }

  /** The items and the cursor are those of the delivery of what has been looked at. */
  ghost predicate Tracks(items: seq<Item>, ids: seq<StreamId>, seen: seq<Tagged>, opening: seq<StreamId>) {
    && InRange(seen, |opening|)
    && items == Deliver(seen, opening)
    && ids == CursorAfter(seen, opening)
  }

  lemma TrackOne(items: seq<Item>, ids: seq<StreamId>, seen: seq<Tagged>, opening: seq<StreamId>, event: Tagged)
    requires Tracks(items, ids, seen, opening) && event.index < |opening|
    ensures Tracks(items + (if Passes(event, ids) then [Item(event, Advance(event, ids))] else []),
                   Advance(event, ids), seen + [event], opening)
  {
    DeliverConcat(seen, [event], opening);
    assert Deliver([], Advance(event, ids)) == [];
    assert [event][1..] == [];
    assert Deliver([event], ids) == if Passes(event, ids) then [Item(event, Advance(event, ids))] else [];
  }

  /**
   * Replay, then live, advancing the cursor in place. Whatever the race picks and
   * whenever the signal aborts, the yields are the delivery of the events looked at:
   * the replay, or the part of it before the abort, then the merged live events.
   */
  method ResumeThenLive(cursor: RealtimeCursor, resume: bool, replay: Result<seq<Tagged>, Lagged>,
                        sources: seq<Source>, signal: nat -> bool)
    returns (items: seq<Item>, ending: Ending, ghost seen: seq<Tagged>, ghost merged: seq<Tagged>, taken: seq<nat>)
    requires |sources| == |cursor.ids|
    requires replay.Ok? ==> InRange(replay.value, |cursor.ids|) && Stamped(replay.value)
    modifies cursor
    ensures Tracks(items, cursor.ids, seen, old(cursor.ids))
    ensures Interleaves(merged, sources, taken)
    ensures resume && replay.Err? ==> seen == [] && ending == Failed(replay.error)
    ensures !resume ==> seen == merged
    ensures resume && replay.Ok? ==>
      seen == replay.value + merged || (ending.Aborted? && merged == [] && seen <= replay.value)
    ensures ending.Finished? ==> forall c :: 0 <= c < |sources| ==> Whole(sources[c], taken[c]) && sources[c].end.Done?
    ensures ending.Waiting? ==>
      forall c :: 0 <= c < |sources| ==> Whole(sources[c], taken[c]) && !sources[c].end.Raises?
    ensures ending.Failed? ==>
      || (resume && replay.Err? && ending.error == replay.error)
      || exists c :: 0 <= c < |sources| && Whole(sources[c], taken[c]) && sources[c].end == Raises(ending.error)
    ensures ending.Aborted? ==> exists step :: signal(step)
  {
    items, seen, merged, taken := [], [], [], seq(|sources|, _ => 0);
    NothingTaken(sources);
    var looked := 0;
    if resume {
      if replay.Err? {
        ending := Failed(replay.error);
        return;
      }
      while looked < |replay.value|
        invariant looked <= |replay.value| && seen == replay.value[..looked]
        invariant Tracks(items, cursor.ids, seen, old(cursor.ids))
      {
        if signal(looked) {
          ending := Aborted;
          return;
        }
        var entry := replay.value[looked];
        assert entry in replay.value;
        TrackOne(items, cursor.ids, seen, old(cursor.ids), entry);
        var id := entry.envelope.eventId.id;
        if Compare(id, cursor.ids[entry.index]) > 0 {
          cursor.ids := cursor.ids[entry.index := id];
          items := items + [Item(entry, cursor.ids)];
        }
        seen := seen + [entry];
        looked := looked + 1;
      }
    }
    ghost var replayed, pulls := seen, [];
    var all: seq<Tagged>;
    all, ending, taken, pulls := MergeLive(sources, (n: nat) => signal(n + looked));
    merged := all;
    var live := 0;
    while live < |all|
      invariant live <= |all| && seen == replayed + all[..live]
      invariant Tracks(items, cursor.ids, seen, old(cursor.ids))
    {
      var event := all[live];
      assert event in all;
      TrackOne(items, cursor.ids, seen, old(cursor.ids), event);
      if event.envelope.eventId.Stamp? {
        var id := event.envelope.eventId.id;
        if Compare(id, cursor.ids[event.index]) > 0 {
          cursor.ids := cursor.ids[event.index := id];
          items := items + [Item(event, cursor.ids)];
        }
      } else {
        items := items + [Item(event, cursor.ids)];
      }
      seen := seen + [event];
      live := live + 1;
    }
  }

  // ----- the subscription

  /** What reaches the client, with the cursor it is tracked under. */
  datatype Sent = Mark(cursor: seq<StreamId>) | Event(cursor: seq<StreamId>, event: Tagged)

  function EventsSent(sent: seq<Sent>): seq<Tagged> {
    if sent == [] then []
    else (if sent[0].Event? then [sent[0].event] else []) + EventsSent(sent[1..])
  }

  lemma {:induction false} EventsSentConcat(a: seq<Sent>, b: seq<Sent>)
    ensures EventsSent(a + b) == EventsSent(a) + EventsSent(b)
  {
    if a == [] {
      assert a + b == b;
    } else {
      EventsSentConcat(a[1..], b);
      ConcatTail(a, b);
      Regroup(if a[0].Event? then [a[0].event] else [], EventsSent(a[1..]), EventsSent(b));
    }
  }

  /** What has been sent for these items. */
  ghost predicate SentFor(sent: seq<Sent>, items: seq<Item>, opening: seq<StreamId>) {
    && sent != [] && sent[0] == Mark(opening)
    && EventsSent(sent) == Conforming(Events(items))
    && sent[|sent| - 1].cursor == ClientCursor(items, opening)
  }

  lemma SendOne(sent: seq<Sent>, items: seq<Item>, item: Item, opening: seq<StreamId>)
    requires SentFor(sent, items, opening)
    ensures SentFor(if item.event.envelope.conforms then sent + [Event(item.cursor, item.event)] else sent,
                    items + [item], opening)
  {
    EventsConcat(items, [item]);
    ConformingConcat(Events(items), Events([item]));
    EventsSentConcat(sent, [Event(item.cursor, item.event)]);
    assert Events([item]) == [item.event];
    assert (items + [item])[..|items|] == items;
  }

  /** What is sent for these items: the mark, then each that conforms, with its cursor. */
  function SentOf(items: seq<Item>, opening: seq<StreamId>): seq<Sent> {
    if items == [] then [Mark(opening)]
    else
      var last := items[|items| - 1];
      SentOf(items[..|items| - 1], opening) +
      (if last.event.envelope.conforms then [Event(last.cursor, last.event)] else [])
  }

  /** A client that got the first of what was sent got what is sent for the first of the items. */
  lemma {:induction false} SentPrefix(items: seq<Item>, opening: seq<StreamId>, n: nat) returns (m: nat)
    requires 1 <= n <= |SentOf(items, opening)|
    ensures m <= |items| && SentOf(items, opening)[..n] == SentOf(items[..m], opening)
  {
    if n == |SentOf(items, opening)| {
      m := |items|;
      assert items[..m] == items;
    } else {
      var k := |items| - 1;
      m := SentPrefix(items[..k], opening, n);
      assert items[..k][..m] == items[..m];
    }
  }

  lemma {:induction false} SentOfIsFor(items: seq<Item>, opening: seq<StreamId>)
    ensures SentFor(SentOf(items, opening), items, opening)
  {
    if items == [] {
      assert |Events(items)| == 0 && EventsSent([Mark(opening)][1..]) == [];
    } else {
      var k := |items| - 1;
      SentOfIsFor(items[..k], opening);
      SendOne(SentOf(items[..k], opening), items[..k], items[k], opening);
      assert items[..k] + [items[k]] == items;
      assert SentOf(items[..k], opening) + [] == SentOf(items[..k], opening);
    }
  }

  /**
   * The items of a subscription whose cursor opened: the mark first, then every item
   * whose payload conforms. The last cursor sent is the one the client resumes from.
   */
  method SendItems(opening: seq<StreamId>, items: seq<Item>) returns (sent: seq<Sent>)
    ensures sent == SentOf(items, opening)
    ensures sent != [] && sent[0] == Mark(opening)
    ensures EventsSent(sent) == Conforming(Events(items))
    ensures sent[|sent| - 1].cursor == ClientCursor(items, opening)
  {
    sent := [Mark(opening)];
    var i := 0;
    while i < |items|
      invariant i <= |items| && sent == SentOf(items[..i], opening)
    {
      assert items[..i + 1][..i] == items[..i];
      if items[i].event.envelope.conforms {
        sent := sent + [Event(items[i].cursor, items[i].event)];
      }
      i := i + 1;
    }
    assert items[..i] == items;
    SentOfIsFor(items, opening);
  }
}
