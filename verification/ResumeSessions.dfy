/**
 * Whole subscriptions over all their channels, and chains of them: a client that is
 * cut off after any number of items and comes back with the last cursor it received.
 */
module ResumeSessions {
  import opened Basics
  import opened StreamIds
  import opened ResumeLog
  import opened ResumeDelivery
  import opened ResumeSeam

  // ----- the replay buffer: every channel's part, merged by id

  ghost predicate Stamped(events: seq<Tagged>) {
    forall e :: e in events ==> e.envelope.eventId.Stamp?
  }

  function IdOf(event: Tagged): StreamId {
    Later(event, ZERO_STREAM_ID)
  }

  /** Before the first event that is not earlier: inserting from the back keeps equal ids in their order. */
  function Insert(x: Tagged, events: seq<Tagged>): seq<Tagged> {
    if events == [] || Compare(IdOf(x), IdOf(events[0])) <= 0 then [x] + events
    else [events[0]] + Insert(x, events[1..])
  }

  /** The stable sort of the merged entries by stream id. */
  function SortById(events: seq<Tagged>): seq<Tagged> {
    if events == [] then [] else Insert(events[0], SortById(events[1..]))
  }

  lemma {:induction false} InsertMembers(x: Tagged, events: seq<Tagged>)
    ensures multiset(Insert(x, events)) == multiset(events) + multiset{x}
  {
    if events != [] && Compare(IdOf(x), IdOf(events[0])) > 0 {
      InsertMembers(x, events[1..]);
      assert events == [events[0]] + events[1..];
    }
  }

  /** Sorting keeps every entry, and adds none. */
  lemma {:induction false} SortPermutes(events: seq<Tagged>)
    ensures multiset(SortById(events)) == multiset(events)
  {
    if events != [] {
      SortPermutes(events[1..]);
      InsertMembers(events[0], SortById(events[1..]));
      assert events == [events[0]] + events[1..];
    }
  }

  lemma SortMembers(events: seq<Tagged>)
    ensures forall e :: e in SortById(events) <==> e in events
  {
    SortPermutes(events);
    assert forall e :: e in SortById(events) <==> e in multiset(SortById(events));
    assert forall e :: e in events <==> e in multiset(events);
  }

  /** Every channel's part in channel order, or the first error. */
  function Gather(logs: seq<Log>, ids: seq<StreamId>, ranges: seq<ChannelRead>, c: nat)
    : (r: Result<seq<Tagged>, Lagged>)
    requires |logs| == |ids| == |ranges| && c <= |logs|
    requires forall i :: 0 <= i < |logs| ==> ValidRead(logs[i], ranges[i])
    ensures r.Ok? ==> forall i :: c <= i < |logs| ==> ReplayChannel(logs[i], i, ids[i], ranges[i]).Ok?
    ensures r.Ok? ==> Stamped(r.value) && forall e :: e in r.value ==> c <= e.index < |logs|
    decreases |logs| - c
  {
    if c == |logs| then Ok([])
    else
      match ReplayChannel(logs[c], c, ids[c], ranges[c])
      case Err(e) => Err(e)
      case Ok(part) =>
        ReplayOrigin(logs[c], c, ids[c], ranges[c]);
        match Gather(logs, ids, ranges, c + 1)
        case Err(e) => Err(e)
        case Ok(rest) => Ok(part + rest)
  }

  lemma ReplayOrigin(log: Log, c: nat, after: StreamId, read: ChannelRead)
    requires ValidRead(log, read) && ReplayChannel(log, c, after, read).Ok?
    ensures forall t :: t in ReplayChannel(log, c, after, read).value ==> t.index == c && t.envelope.eventId.Stamp?
  {
    if read.Read? {
      ParseAllOrigin(RangeAfter(log[read.trimmed2..read.published2], after, RESUME_MAXLEN), c);
    }
  }

  function ReplayBuffer(logs: seq<Log>, ids: seq<StreamId>, ranges: seq<ChannelRead>): (r: Result<seq<Tagged>, Lagged>)
    requires |logs| == |ids| == |ranges|
    requires forall i :: 0 <= i < |logs| ==> ValidRead(logs[i], ranges[i])
    ensures r.Ok? ==> InRange(r.value, |logs|) && Stamped(r.value)
  {
    match Gather(logs, ids, ranges, 0)
    case Err(e) => Err(e)
    case Ok(all) =>
      SortMembers(all);
      Ok(SortById(all))
  }

  lemma {:induction false} InProject(events: seq<Tagged>, c: nat)
    ensures forall e :: e in Project(events, c) <==> e in events && e.index == c
  {
    if events != [] {
      InProject(events[1..], c);
    }
  }

  /** No event of the same channel is earlier. */
  ghost predicate NoneBefore(x: Tagged, events: seq<Tagged>) {
    forall i | 0 <= i < |events| && events[i].index == x.index :: Compare(IdOf(x), IdOf(events[i])) <= 0
  }

  lemma {:induction false} InsertProjects(x: Tagged, events: seq<Tagged>, c: nat)
    requires x.index == c ==> NoneBefore(x, events)
    ensures Project(Insert(x, events), c) == (if x.index == c then [x] else []) + Project(events, c)
  {
    if events == [] || Compare(IdOf(x), IdOf(events[0])) <= 0 {
      assert ([x] + events)[1..] == events;
    } else {
      var here := if events[0].index == c then [events[0]] else [];
      var own := if x.index == c then [x] else [];
      InsertProjects(x, events[1..], c);
      assert Insert(x, events)[1..] == Insert(x, events[1..]);
      assert here == [] || own == [];
      Regroup(here, own, Project(events[1..], c));
    }
  }

  /** Sorting by id leaves every channel's own order as it was. */
  lemma {:induction false} SortProjects(events: seq<Tagged>, c: nat)
    requires Stamped(events) && Climbing(Project(events, c))
    ensures Project(SortById(events), c) == Project(events, c)
  {
    if events != [] {
      var x, rest := events[0], events[1..];
      var own, mine := Project(events, c), Project(rest, c);
      assert own == (if x.index == c then [x] else []) + mine;
      assert forall i :: 0 <= i < |mine| ==> mine[i] == own[i + |own| - |mine|];
      SortProjects(rest, c);
      if x.index == c {
        FirstIsBefore(x, rest, c);
      }
      InsertProjects(x, SortById(rest), c);
    }
  }

  lemma FirstIsBefore(x: Tagged, rest: seq<Tagged>, c: nat)
    requires x.index == c && Stamped([x] + rest) && Climbing([x] + Project(rest, c))
    ensures NoneBefore(x, SortById(rest))
  {
    var own, sorted := [x] + Project(rest, c), SortById(rest);
    assert x in [x] + rest && forall e :: e in rest ==> e in [x] + rest;
    SortMembers(rest);
    InProject(rest, c);
    forall i | 0 <= i < |sorted| && sorted[i].index == c ensures Compare(IdOf(x), IdOf(sorted[i])) <= 0 {
      assert sorted[i] in Project(rest, c);
      var k :| 0 <= k < |own| - 1 && Project(rest, c)[k] == sorted[i];
      assert own[0] == x && own[k + 1] == sorted[i] && x.envelope.eventId.Stamp? && sorted[i].envelope.eventId.Stamp?;
    }
  }

  ghost predicate SortedById(events: seq<Tagged>) {
    forall i, j :: 0 <= i < j < |events| ==> Compare(IdOf(events[i]), IdOf(events[j])) <= 0
  }

  lemma {:induction false} InsertSorted(x: Tagged, events: seq<Tagged>)
    requires SortedById(events)
    ensures SortedById(Insert(x, events))
  {
    if events != [] && Compare(IdOf(x), IdOf(events[0])) > 0 {
      var rest := Insert(x, events[1..]);
      InsertSorted(x, events[1..]);
      forall j | 0 <= j < |rest| ensures Compare(IdOf(events[0]), IdOf(rest[j])) <= 0 {
        InsertedFrom(x, events[1..], j);
      }
      LeastFirst(events[0], rest);
    }
  }

  /** What stands in a list after an insertion stood there before, or was inserted. */
  lemma InsertedFrom(x: Tagged, events: seq<Tagged>, j: nat)
    requires j < |Insert(x, events)|
    ensures Insert(x, events)[j] == x || exists k :: 0 <= k < |events| && events[k] == Insert(x, events)[j]
  {
    InsertMembers(x, events);
    assert Insert(x, events)[j] in multiset(Insert(x, events));
    assert Insert(x, events)[j] != x ==> Insert(x, events)[j] in multiset(events);
  }

  lemma LeastFirst(first: Tagged, rest: seq<Tagged>)
    requires SortedById(rest) && forall j :: 0 <= j < |rest| ==> Compare(IdOf(first), IdOf(rest[j])) <= 0
    ensures SortedById([first] + rest)
  {
  }

  lemma {:induction false} SortSorts(events: seq<Tagged>)
    ensures SortedById(SortById(events))
  {
    if events != [] {
      SortSorts(events[1..]);
      InsertSorted(events[0], SortById(events[1..]));
    }
  }

  lemma {:induction false} GatherProjects(logs: seq<Log>, ids: seq<StreamId>, ranges: seq<ChannelRead>,
                                          from: nat, c: nat)
    requires |logs| == |ids| == |ranges| && from <= c < |logs|
    requires forall i :: 0 <= i < |logs| ==> ValidRead(logs[i], ranges[i])
    requires Gather(logs, ids, ranges, from).Ok?
    ensures Project(Gather(logs, ids, ranges, from).value, c) == ReplayChannel(logs[c], c, ids[c], ranges[c]).value
    decreases c - from
  {
    var part := ReplayChannel(logs[from], from, ids[from], ranges[from]).value;
    var rest := Gather(logs, ids, ranges, from + 1).value;
    ReplayOrigin(logs[from], from, ids[from], ranges[from]);
    ProjectConcat(part, rest, c);
    if from == c {
      ProjectOwn(part, c);
      ProjectOther(rest, c);
    } else {
      ProjectOther(part, c);
      GatherProjects(logs, ids, ranges, from + 1, c);
    }
  }

  /**
   * The replay is sorted by id across channels, and projects back to each channel's
   * own readable entries in stream order.
   */
  lemma ReplayBufferMerges(logs: seq<Log>, ids: seq<StreamId>, ranges: seq<ChannelRead>, c: nat)
    requires |logs| == |ids| == |ranges| && c < |logs| && Ordered(logs[c])
    requires forall i :: 0 <= i < |logs| ==> ValidRead(logs[i], ranges[i])
    requires ReplayBuffer(logs, ids, ranges).Ok?
    ensures var replay := ReplayBuffer(logs, ids, ranges).value;
      && SortedById(replay)
      && Project(replay, c)
         == Readable(logs[c], c, ReplayFrom(logs[c], ids[c], ranges[c]), ReplayTo(logs[c], ids[c], ranges[c]))
  {
    var all := Gather(logs, ids, ranges, 0).value;
    var from, to := ReplayFrom(logs[c], ids[c], ranges[c]), ReplayTo(logs[c], ids[c], ranges[c]);
    GatherProjects(logs, ids, ranges, 0, c);
    ReplayIsReadable(logs[c], c, ids[c], ranges[c]);
    AfterSplits(logs[c], ids[c]);
    ReadableRises(logs[c], c, from, to, ids[c]);
    RisingApart(Project(all, c), ids[c]);
    SortProjects(all, c);
    SortSorts(all);
  }

  // ----- one session

  /**
   * What happened to one subscription: whether its cursor came from the client, when it
   * was opened, how it met each channel, and the order its live events arrived in.
   */
  datatype Session = Session(resume: bool, openedAt: nat, views: seq<View>, merged: seq<Tagged>)

  /** A channel's live source hands over, in order, the readable entries published since its listener began to hear. */
  ghost predicate ValidChannel(log: Log, c: nat, view: View, merged: seq<Tagged>) {
    && Ordered(log) && ValidView(log, view)
    && Project(merged, c) == Readable(log, c, view.registered, view.pulled)
  }

  ghost predicate ValidSession(logs: seq<Log>, s: Session) {
    && |s.views| == |logs|
    && InRange(s.merged, |logs|)
    && (forall c :: 0 <= c < |logs| ==> ValidChannel(logs[c], c, s.views[c], s.merged))
    && (forall c :: 0 <= c < |logs| ==> (s.views[c].read.Read? <==> s.resume))
  }

  function RangesOf(views: seq<View>): (r: seq<ChannelRead>)
    ensures |r| == |views|
  {
    seq(|views|, i requires 0 <= i < |views| => views[i].read)
  }

  /** The first channel whose id in the cursor has expired. */
  function FirstExpired(ids: seq<StreamId>, now: nat): (r: Option<nat>)
    ensures r.None? <==> forall c :: 0 <= c < |ids| ==> !IsExpired(ids[c], now)
    ensures r.Some? ==>
      r.value < |ids| && IsExpired(ids[r.value], now) && forall c :: 0 <= c < r.value ==> !IsExpired(ids[c], now)
  {
    if ids == [] then None
    else if IsExpired(ids[0], now) then Some(0)
    else
      match FirstExpired(ids[1..], now)
      case Some(c) => Some(c + 1)
      case None => None
  }

  /** The session's replay; a cursor with an expired id, or one trimmed away, ends it as lagged instead. */
  ghost function Replay(logs: seq<Log>, ids: seq<StreamId>, s: Session): (r: Result<seq<Tagged>, Lagged>)
    requires ValidSession(logs, s) && |ids| == |logs|
    ensures r.Ok? ==> InRange(r.value, |ids|)
  {
    if !s.resume then Ok([])
    else if FirstExpired(ids, s.openedAt).Some? then Err(Lagged(FirstExpired(ids, s.openedAt), CursorExpired))
    else
      assert forall i :: 0 <= i < |logs| ==> ValidRead(logs[i], RangesOf(s.views)[i]) by {
        forall i | 0 <= i < |logs| ensures ValidRead(logs[i], RangesOf(s.views)[i]) {
          assert ValidChannel(logs[i], i, s.views[i], s.merged);
        }
      }
      ReplayBuffer(logs, ids, RangesOf(s.views))
  }

  /** Everything the session would yield to a client that stayed. */
  ghost function Yields(logs: seq<Log>, ids: seq<StreamId>, s: Session): seq<Item>
    requires ValidSession(logs, s) && |ids| == |logs|
  {
    match Replay(logs, ids, s)
    case Err(_) => []
    case Ok(replay) => Deliver(replay + s.merged, ids)
  }

  /** What one channel of a session yields is what that channel alone would. */
  lemma YieldsProject(logs: seq<Log>, ids: seq<StreamId>, s: Session, c: nat)
    requires ValidSession(logs, s) && |ids| == |logs| && c < |logs|
    requires Replay(logs, ids, s).Ok?
    ensures ValidChannel(logs[c], c, s.views[c], s.merged)
    ensures Project(Events(Yields(logs, ids, s)), c) == Shown(logs[c], c, ids[c], s.views[c])
  {
    var replay := Replay(logs, ids, s).value;
    assert ValidChannel(logs[c], c, s.views[c], s.merged);
    if s.resume {
      ReplayBufferMerges(logs, ids, RangesOf(s.views), c);
    }
    DeliverProjects(replay + s.merged, ids, c);
    ProjectConcat(replay, s.merged, c);
  }

  // ----- what reaches the client

  /** An item whose payload fails its schema is dropped on the way out. */
  function Conforming(events: seq<Tagged>): seq<Tagged> {
    if events == [] then []
    else (if events[0].envelope.conforms then [events[0]] else []) + Conforming(events[1..])
  }

  /** The items up to and with the last conforming one. */
  function UpToLastConforming(items: seq<Item>): (n: nat)
    ensures n <= |items|
    ensures n > 0 ==> items[n - 1].event.envelope.conforms
    ensures forall i :: n <= i < |items| ==> !items[i].event.envelope.conforms
  {
    if items == [] then 0
    else if items[|items| - 1].event.envelope.conforms then |items|
    else UpToLastConforming(items[..|items| - 1])
  }

  /** The cursor of the last item received; at first that is the opening cursor's mark. */
  function ClientCursor(items: seq<Item>, ids: seq<StreamId>): seq<StreamId> {
    var n := UpToLastConforming(items);
    if n == 0 then ids else items[n - 1].cursor
  }

  lemma {:induction false} ConformingConcat(a: seq<Tagged>, b: seq<Tagged>)
    ensures Conforming(a + b) == Conforming(a) + Conforming(b)
  {
    if a == [] {
      assert a + b == b;
    } else {
      var first := if a[0].envelope.conforms then [a[0]] else [];
      ConformingConcat(a[1..], b);
      ConcatTail(a, b);
      Regroup(first, Conforming(a[1..]), Conforming(b));
    }
  }

  lemma {:induction false} NoneConforming(events: seq<Tagged>)
    requires forall i :: 0 <= i < |events| ==> !events[i].envelope.conforms
    ensures Conforming(events) == []
  {
    if events != [] {
      NoneConforming(events[1..]);
    }
  }

  lemma {:induction false} ConformingProjects(events: seq<Tagged>, c: nat)
    ensures Project(Conforming(events), c) == Conforming(Project(events, c))
  {
    if events != [] {
      var first := if events[0].envelope.conforms then [events[0]] else [];
      ConformingProjects(events[1..], c);
      ProjectConcat(first, Conforming(events[1..]), c);
      var own := if events[0].index == c then [events[0]] else [];
      ConformingConcat(own, Project(events[1..], c));
      assert Project([events[0]], c) == own + Project([], c);
      assert Conforming([events[0]]) == first + Conforming([]);
    }
  }

  /** What the client should see of a stretch of the log. */
  function Visible(log: Log, c: nat, from: nat, to: nat): seq<Tagged>
    requires from <= to <= |log|
  {
    Conforming(Readable(log, c, from, to))
  }

  lemma VisibleSplit(log: Log, c: nat, i: nat, j: nat, k: nat)
    requires i <= j <= k <= |log|
    ensures Visible(log, c, i, k) == Visible(log, c, i, j) + Visible(log, c, j, k)
  {
    ReadableSplit(log, c, i, j, k);
    ConformingConcat(Readable(log, c, i, j), Readable(log, c, j, k));
  }

  /** A prefix of a readable stretch is the stretch up to the id it ends with. */
  lemma {:induction false} PrefixIsStretch(log: Log, c: nat, i: nat, j: nat, n: nat, last: StreamId)
    requires Ordered(log) && After(log, last) == i <= j <= |log|
    requires n <= |Readable(log, c, i, j)|
    ensures var p := After(log, LastId(Readable(log, c, i, j)[..n], last));
      i <= p <= j && Readable(log, c, i, j)[..n] == Readable(log, c, i, p)
    decreases j - i
  {
    if n == 0 {
      assert Readable(log, c, i, i) == [];
    } else if n == |Readable(log, c, i, j)| {
      assert Readable(log, c, i, j)[..n] == Readable(log, c, i, j);
      CursorAfterStretch(log, c, i, j, last);
      ReadableSplit(log, c, i, After(log, LastId(Readable(log, c, i, j), last)), j);
    } else {
      ReadableLast(log, c, i, j);
      PrefixIsStretch(log, c, i, j - 1, n, last);
      assert Readable(log, c, i, j)[..n] == Readable(log, c, i, j - 1)[..n];
    }
  }

  lemma PrefixProjects(items: seq<Item>, n: nat, c: nat)
    requires n <= |items|
    ensures Project(Events(items[..n]), c) <= Project(Events(items), c)
  {
    assert items == items[..n] + items[n..];
    EventsConcat(items[..n], items[n..]);
    ProjectConcat(Events(items[..n]), Events(items[n..]), c);
  }

  /** The session loses nothing on this channel, or ends as lagged before its replay. */
  ghost predicate Keeps(logs: seq<Log>, ids: seq<StreamId>, s: Session, c: nat)
    requires ValidSession(logs, s) && |ids| == |logs| && c < |logs|
  {
    assert ValidChannel(logs[c], c, s.views[c], s.merged);
    Replay(logs, ids, s).Ok? ==> Lost(logs[c], c, ids[c], s.views[c]) == []
  }

  /** The first yields on a channel, up to any yield, are the readable stretch up to the cursor attached to it. */
  lemma YieldedSoFar(events: seq<Tagged>, ids: seq<StreamId>, log: Log, reached: nat, n: nat, c: nat)
    requires Ordered(log) && InRange(events, |ids|) && c < |ids|
    requires After(log, ids[c]) <= reached <= |log|
    requires Project(Events(Deliver(events, ids)), c) == Readable(log, c, After(log, ids[c]), reached)
    requires 0 < n <= |Deliver(events, ids)|
    ensures var left := Deliver(events, ids)[n - 1].cursor;
      && |left| == |ids|
      && After(log, ids[c]) <= After(log, left[c])
      && Project(Events(Deliver(events, ids)[..n]), c) == Readable(log, c, After(log, ids[c]), After(log, left[c]))
  {
    var all := Deliver(events, ids);
    var own := Project(Events(all[..n]), c);
    PrefixProjects(all, n, c);
    CursorAtYield(events, ids, n - 1, c);
    assert own == Readable(log, c, After(log, ids[c]), reached)[..|own|];
    PrefixIsStretch(log, c, After(log, ids[c]), reached, |own|, ids[c]);
  }

  /**
   * A session cut after any number of yields: what the client received on a channel is
   * what is visible from the opening cursor to the cursor the client is left with.
   */
  lemma CutSession(logs: seq<Log>, ids: seq<StreamId>, s: Session, items: seq<Item>, c: nat)
    requires ValidSession(logs, s) && |ids| == |logs| && c < |logs|
    requires items <= Yields(logs, ids, s)
    requires Keeps(logs, ids, s, c)
    ensures var left := ClientCursor(items, ids);
      && |left| == |ids|
      && After(logs[c], ids[c]) <= After(logs[c], left[c])
      && Project(Conforming(Events(items)), c) == Visible(logs[c], c, After(logs[c], ids[c]), After(logs[c], left[c]))
  {
    var n, cursor := UpToLastConforming(items), After(logs[c], ids[c]);
    OnlyUpToLast(items, c);
    if n == 0 {
      assert Readable(logs[c], c, cursor, cursor) == [];
    } else {
      YieldedInSession(logs, ids, s, c, n);
      assert items[..n] == Yields(logs, ids, s)[..n];
    }
  }

  lemma YieldedInSession(logs: seq<Log>, ids: seq<StreamId>, s: Session, c: nat, n: nat)
    requires ValidSession(logs, s) && |ids| == |logs| && c < |logs| && Keeps(logs, ids, s, c)
    requires 0 < n <= |Yields(logs, ids, s)|
    ensures var left := Yields(logs, ids, s)[n - 1].cursor;
      && |left| == |ids|
      && After(logs[c], ids[c]) <= After(logs[c], left[c])
      && Project(Events(Yields(logs, ids, s)[..n]), c) ==
           Readable(logs[c], c, After(logs[c], ids[c]), After(logs[c], left[c]))
  {
    var events := Replay(logs, ids, s).value + s.merged;
    YieldsProject(logs, ids, s, c);
    SeamConserves(logs[c], c, ids[c], s.views[c]);
    YieldedSoFar(events, ids, logs[c], Reached(logs[c], c, ids[c], s.views[c]), n, c);
  }

  /** What follows the last conforming item adds nothing. */
  lemma OnlyUpToLast(items: seq<Item>, c: nat)
    ensures Project(Conforming(Events(items)), c) == Conforming(Project(Events(items[..UpToLastConforming(items)]), c))
  {
    LastConformingEnds(items, UpToLastConforming(items));
    ConformingProjects(Events(items[..UpToLastConforming(items)]), c);
  }

  lemma LastConformingEnds(items: seq<Item>, n: nat)
    requires n <= |items| && forall i | n <= i < |items| :: !items[i].event.envelope.conforms
    ensures Conforming(Events(items)) == Conforming(Events(items[..n]))
  {
    assert items == items[..n] + items[n..];
    EventsConcat(items[..n], items[n..]);
    ConformingConcat(Events(items[..n]), Events(items[n..]));
    NoneConforming(Events(items[n..]));
  }

  // ----- chains of sessions

  /**
   * One session of a client: the cursor it opened with, the yields it got before it was cut,
   * the cursor it is left with.
   */
  datatype Leg = Leg(start: seq<StreamId>, session: Session, items: seq<Item>, left: seq<StreamId>)

  ghost predicate ValidLeg(logs: seq<Log>, leg: Leg) {
    && |leg.start| == |logs|
    && ValidSession(logs, leg.session)
    && leg.items <= Yields(logs, leg.start, leg.session)
    && leg.left == ClientCursor(leg.items, leg.start)
  }

  /** Each session in turn is opened with the cursor the one before left the client with. */
  ghost predicate Chain(logs: seq<Log>, ids: seq<StreamId>, legs: seq<Leg>)
    decreases legs
  {
    legs != [] ==>
      && legs[0].start == ids && ValidLeg(logs, legs[0])
      && Chain(logs, legs[0].left, legs[1..])
  }

  /** Everything the client received, over all the sessions. */
  function Received(legs: seq<Leg>): seq<Tagged> {
    if legs == [] then [] else Conforming(Events(legs[0].items)) + Received(legs[1..])
  }

  function FinalCursor(ids: seq<StreamId>, legs: seq<Leg>): seq<StreamId>
    decreases legs
  {
    if legs == [] then ids else FinalCursor(legs[0].left, legs[1..])
  }

  ghost predicate LegKeeps(logs: seq<Log>, leg: Leg, c: nat) {
    c < |logs| && ValidLeg(logs, leg) && Keeps(logs, leg.start, leg.session, c)
  }

  /**
   * Over any number of sessions, each cut after any number of yields and resumed from
   * the last cursor received, the client has got on a channel exactly what is visible
   * between its first cursor and its last: in order, with no gap and no repeat.
   */
  lemma {:induction false} NoGapNoRepeat(logs: seq<Log>, ids: seq<StreamId>, legs: seq<Leg>, c: nat)
    requires |ids| == |logs| && c < |logs| && Chain(logs, ids, legs)
    requires forall leg :: leg in legs ==> LegKeeps(logs, leg, c)
    ensures var final := FinalCursor(ids, legs);
      && |final| == |ids|
      && After(logs[c], ids[c]) <= After(logs[c], final[c])
      && Project(Received(legs), c) == Visible(logs[c], c, After(logs[c], ids[c]), After(logs[c], final[c]))
    decreases |legs|
  {
    if legs == [] {
      assert Readable(logs[c], c, After(logs[c], ids[c]), After(logs[c], ids[c])) == [];
    } else {
      var leg := legs[0];
      assert LegKeeps(logs, leg, c);
      CutSession(logs, ids, leg.session, leg.items, c);
      NoGapNoRepeat(logs, leg.left, legs[1..], c);
      ProjectConcat(Conforming(Events(leg.items)), Received(legs[1..]), c);
      VisibleSplit(logs[c], c, After(logs[c], ids[c]), After(logs[c], leg.left[c]),
                   After(logs[c], FinalCursor(ids, legs)[c]));
    }
  }

  /**
   * The same from what can be checked of each session: that it met the channel with a
   * clean seam, unless it ended as lagged.
   */
  lemma CleanSessionsMissNothing(logs: seq<Log>, ids: seq<StreamId>, legs: seq<Leg>, c: nat)
    requires |ids| == |logs| && c < |logs| && Chain(logs, ids, legs)
    requires forall leg :: leg in legs ==>
      && ValidLeg(logs, leg)
      && (Replay(logs, leg.start, leg.session).Ok? ==> CleanSeam(logs[c], leg.start[c], leg.session.views[c]))
    ensures var final := FinalCursor(ids, legs);
      && |final| == |ids|
      && After(logs[c], ids[c]) <= After(logs[c], final[c])
      && Project(Received(legs), c) == Visible(logs[c], c, After(logs[c], ids[c]), After(logs[c], final[c]))
  {
    forall leg | leg in legs ensures LegKeeps(logs, leg, c) {
      assert ValidChannel(logs[c], c, leg.session.views[c], leg.session.merged);
      if Replay(logs, leg.start, leg.session).Ok? {
        CleanSeamLosesNothing(logs[c], c, leg.start[c], leg.session.views[c]);
      }
    }
    NoGapNoRepeat(logs, ids, legs, c);
  }

  // ----- nothing made up

  lemma {:induction false} ConformingIs(events: seq<Tagged>)
    ensures forall e :: e in Conforming(events) <==> e in events && e.envelope.conforms
  {
    if events != [] {
      ConformingIs(events[1..]);
      assert forall e :: e in events <==> e == events[0] || e in events[1..];
    }
  }

  lemma {:induction false} DeliveredWasSeen(events: seq<Tagged>, ids: seq<StreamId>)
    requires InRange(events, |ids|)
    ensures forall e :: e in Events(Deliver(events, ids)) ==> e in events
  {
    if events != [] {
      var ids' := Advance(events[0], ids);
      var first := if Passes(events[0], ids) then [Item(events[0], ids')] else [];
      DeliveredWasSeen(events[1..], ids');
      EventsConcat(first, Deliver(events[1..], ids'));
    }
  }

  /** An event is an entry of a log, as it was stored there. */
  ghost predicate IsOfLog(e: Tagged, log: Log, c: nat) {
    exists entry :: entry in log && Carries(e, c, entry)
  }

  lemma ReadableIsOfLog(log: Log, c: nat, i: nat, j: nat, e: Tagged)
    requires i <= j <= |log| && e in Readable(log, c, i, j)
    ensures IsOfLog(e, log, c)
  {
    ParsedExactly(log[i..j], c);
    var entry :| entry in log[i..j] && Carries(e, c, entry);
    assert entry in log;
  }

  /** Whatever a session would yield is an entry of the log of its channel, with the payload and the id stored there. */
  lemma YieldsAreOfLogs(logs: seq<Log>, ids: seq<StreamId>, s: Session, e: Tagged)
    requires ValidSession(logs, s) && |ids| == |logs| && e in Events(Yields(logs, ids, s))
    ensures e.index < |logs| && IsOfLog(e, logs[e.index], e.index)
  {
    var replay, c := Replay(logs, ids, s).value, e.index;
    DeliveredWasSeen(replay + s.merged, ids);
    assert e in replay || e in s.merged;
    assert ValidChannel(logs[c], c, s.views[c], s.merged);
    if e in replay {
      ReplayBufferMerges(logs, ids, RangesOf(s.views), c);
      InProject(replay, c);
      var read := s.views[c].read;
      ReadableIsOfLog(logs[c], c, ReplayFrom(logs[c], ids[c], read), ReplayTo(logs[c], ids[c], read), e);
    } else {
      InProject(s.merged, c);
      ReadableIsOfLog(logs[c], c, s.views[c].registered, s.views[c].pulled, e);
    }
  }

  // ----- when a replay raises

  /** The range reads of a channel find all that its stream holds after the cursor. */
  predicate Trimmed(log: Log, after: StreamId, read: ChannelRead) {
    after != ZERO_STREAM_ID && !read.FoundNothing() && After(log, after) <= read.trimmed1
  }

  /** A replay raises exactly when some channel's cursor is found trimmed, and the error names such a channel. */
  lemma ReplayRaisesExactly(logs: seq<Log>, ids: seq<StreamId>, ranges: seq<ChannelRead>)
    requires |logs| == |ids| == |ranges|
    requires forall c | 0 <= c < |logs| :: Ordered(logs[c]) && ValidRead(logs[c], ranges[c])
    ensures ReplayBuffer(logs, ids, ranges).Err? <==>
      exists c :: 0 <= c < |logs| && Trimmed(logs[c], ids[c], ranges[c])
    ensures ReplayBuffer(logs, ids, ranges).Err? ==>
      exists c: nat ::
        && c < |logs| && Trimmed(logs[c], ids[c], ranges[c])
        && ReplayBuffer(logs, ids, ranges).error == Lagged(Some(c), CursorTrimmed)
  {
    var c := GatherRaises(logs, ids, ranges, 0);
    forall d | 0 <= d < |logs|
      ensures ReplayChannel(logs[d], d, ids[d], ranges[d]).Err? <==> Trimmed(logs[d], ids[d], ranges[d])
    {
      TrimmedCursorRaises(logs[d], d, ids[d], ranges[d]);
    }
    assert c < |logs| ==> Trimmed(logs[c], ids[c], ranges[c]);
  }

  lemma {:induction false} GatherRaises(logs: seq<Log>, ids: seq<StreamId>, ranges: seq<ChannelRead>, from: nat)
      returns (c: nat)
    requires |logs| == |ids| == |ranges| && from <= |logs|
    requires forall i | 0 <= i < |logs| :: ValidRead(logs[i], ranges[i])
    ensures Gather(logs, ids, ranges, from).Ok? ==> c == |logs|
    ensures Gather(logs, ids, ranges, from).Err? ==>
      && c < |logs| && ReplayChannel(logs[c], c, ids[c], ranges[c]).Err?
      && Gather(logs, ids, ranges, from).error == Lagged(Some(c), CursorTrimmed)
    decreases |logs| - from
  {
    if from == |logs| || ReplayChannel(logs[from], from, ids[from], ranges[from]).Err? {
      c := from;
    } else {
      c := GatherRaises(logs, ids, ranges, from + 1);
    }
  }
}
