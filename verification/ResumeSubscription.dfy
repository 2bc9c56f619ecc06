/**
 * One subscription as a whole: the cursor opened, the buffer replayed, the live sources
 * raced, the items sent; and what a client that is cut off anywhere has then received.
 */
module ResumeSubscription {
  import opened Basics
  import opened StreamIds
  import opened ResumeLog
  import opened ResumeDelivery
  import opened ResumeSeam
  import opened ResumeSessions
  import opened ResumeRuntime
  import opened ResumeRefinement

  /** One channel of the subscription: its log, how it is heard, and its two range reads if it is replayed. */
  datatype Channel = Channel(log: Log, feed: Feed, read: ChannelRead, source: Source)

  ghost predicate ValidChannels(channels: seq<Channel>) {
    forall c | 0 <= c < |channels| :: ValidFed(channels[c], c)
  }

  ghost predicate ValidFed(ch: Channel, c: nat) {
    Ordered(ch.log) && ValidRead(ch.log, ch.read) && ch.read.Read? && FedBy(ch.log, c, ch.feed, ch.source)
  }

  /** The read made on a channel: none where the cursor was minted. */
  function ReadMade(ch: Channel, resume: bool): ChannelRead {
    if resume then ch.read else Unread
  }

  function LogsOf(channels: seq<Channel>): (r: seq<Log>)
    ensures |r| == |channels| && forall c :: 0 <= c < |channels| ==> r[c] == channels[c].log
  {
    seq(|channels|, c requires 0 <= c < |channels| => channels[c].log)
  }

  function FeedsOf(channels: seq<Channel>): (r: seq<Feed>)
    ensures |r| == |channels| && forall c :: 0 <= c < |channels| ==> r[c] == channels[c].feed
  {
    seq(|channels|, c requires 0 <= c < |channels| => channels[c].feed)
  }

  function ReadsOf(channels: seq<Channel>, resume: bool): (r: seq<ChannelRead>)
    ensures |r| == |channels| && forall c :: 0 <= c < |channels| ==> r[c] == ReadMade(channels[c], resume)
  {
    seq(|channels|, c requires 0 <= c < |channels| => ReadMade(channels[c], resume))
  }

  function SourcesOf(channels: seq<Channel>): (r: seq<Source>)
    ensures |r| == |channels| && forall c :: 0 <= c < |channels| ==> r[c] == channels[c].source
  {
    seq(|channels|, c requires 0 <= c < |channels| => channels[c].source)
  }

  /** The channel as a session meets it that takes all its source has. */
  function WholeView(ch: Channel, resume: bool): View {
    View(ch.feed.registered, ReadMade(ch, resume), ch.feed.published)
  }

  /** Nothing is lost at the seam of a channel. */
  ghost predicate Lossless(ch: Channel, c: nat, after: StreamId, resume: bool)
    requires ValidFed(ch, c)
  {
    Lost(ch.log, c, after, WholeView(ch, resume)) == []
  }

  /** What a client holds of a channel is what is visible of its log up to the cursor it would resume from. */
  ghost predicate GotAll(sent: seq<Sent>, ch: Channel, c: nat, after: StreamId)
    requires sent != []
  {
    var left := sent[|sent| - 1].cursor;
    && c < |left|
    && After(ch.log, after) <= After(ch.log, left[c])
    && Project(EventsSent(sent), c) == Visible(ch.log, c, After(ch.log, after), After(ch.log, left[c]))
  }

  /** The replay of a subscription whose cursor opened, as it was read. */
  function Replaying(channels: seq<Channel>, start: Opened): (r: Result<seq<Tagged>, Lagged>)
    requires |channels| == |start.ids| &&
      forall c :: 0 <= c < |channels| ==> ValidRead(channels[c].log, channels[c].read)
    ensures r.Ok? ==> InRange(r.value, |channels|) && Stamped(r.value)
  {
    if start.resume then ReplayBuffer(LogsOf(channels), start.ids, ReadsOf(channels, true)) else Ok([])
  }

  lemma LossIgnoresPulled(log: Log, c: nat, after: StreamId, a: View, b: View)
    requires ValidView(log, a) && ValidView(log, b) && a.registered == b.registered && a.read == b.read
    ensures Lost(log, c, after, a) == Lost(log, c, after, b)
  {
  }

  /** What was sent to a client cut off after `n` items, on a channel whose seam loses nothing. */
  lemma CutClient(channels: seq<Channel>, opening: seq<StreamId>, s: Session, items: seq<Item>, c: nat, n: nat)
    requires |channels| == |opening| && c < |channels| && ValidChannels(channels)
    requires ValidSession(LogsOf(channels), s) && items <= Yields(LogsOf(channels), opening, s)
    requires RangesOf(s.views) == ReadsOf(channels, s.resume) && s.views[c].registered == channels[c].feed.registered
    requires 1 <= n <= |SentOf(items, opening)| && Lossless(channels[c], c, opening[c], s.resume)
    ensures GotAll(SentOf(items, opening)[..n], channels[c], c, opening[c])
  {
    var m := SentPrefix(items, opening, n);
    var logs, ch := LogsOf(channels), channels[c];
    assert ValidFed(ch, c) && ValidChannel(logs[c], c, s.views[c], s.merged);
    assert s.views[c].read == RangesOf(s.views)[c];
    LossIgnoresPulled(ch.log, c, opening[c], s.views[c], WholeView(ch, s.resume));
    SentOfIsFor(items[..m], opening);
    CutSession(logs, opening, s, items[..m], c);
  }

  /** A client that stays until the sources are done has everything visible up to where the log was by then. */
  ghost predicate GotToTheEnd(sent: seq<Sent>, ch: Channel, c: nat, after: StreamId, resume: bool)
    requires ValidFed(ch, c)
  {
    var reached := Reached(ch.log, c, after, WholeView(ch, resume));
    && After(ch.log, after) <= reached && ch.feed.published <= reached
    && Project(EventsSent(sent), c) == Visible(ch.log, c, After(ch.log, after), reached)
  }

  lemma StayedClient(channels: seq<Channel>, opening: seq<StreamId>, s: Session, c: nat)
    requires |channels| == |opening| && c < |channels| && ValidChannels(channels)
    requires ValidSession(LogsOf(channels), s) && Replay(LogsOf(channels), opening, s).Ok?
    requires s.views[c] == WholeView(channels[c], s.resume)
    requires Lossless(channels[c], c, opening[c], s.resume)
    ensures GotToTheEnd(SentOf(Yields(LogsOf(channels), opening, s), opening), channels[c], c, opening[c], s.resume)
  {
    var logs, ch, items := LogsOf(channels), channels[c], Yields(LogsOf(channels), opening, s);
    assert ValidFed(ch, c);
    SentOfIsFor(items, opening);
    YieldsProject(logs, opening, s, c);
    SeamConserves(ch.log, c, opening[c], s.views[c]);
    ConformingProjects(Events(items), c);
  }

  ghost predicate ClientsServed(sent: seq<Sent>, channels: seq<Channel>, opening: seq<StreamId>, resume: bool)
    requires |channels| == |opening| && ValidChannels(channels)
  {
    forall c: nat, n: nat | c < |channels| && 1 <= n <= |sent| && Lossless(channels[c], c, opening[c], resume) ::
      GotAll(sent[..n], channels[c], c, opening[c])
  }

  ghost predicate StayersServed(sent: seq<Sent>, channels: seq<Channel>, opening: seq<StreamId>, resume: bool)
    requires |channels| == |opening| && ValidChannels(channels)
  {
    forall c: nat | c < |channels| && Lossless(channels[c], c, opening[c], resume) ::
      GotToTheEnd(sent, channels[c], c, opening[c], resume)
  }

  lemma MeetingsValid(channels: seq<Channel>, resume: bool, taken: seq<nat>)
    requires ValidChannels(channels) && |taken| == |channels|
    requires forall c | 0 <= c < |channels| :: taken[c] <= |channels[c].source.values|
    ensures forall c | 0 <= c < |channels| ::
      ValidMeeting(channels[c].log, c, resume, channels[c].feed, ReadMade(channels[c], resume),
                   channels[c].source, taken[c])
    ensures forall c | 0 <= c < |channels| :: ValidRead(channels[c].log, ReadMade(channels[c], resume))
  {
    forall c | 0 <= c < |channels|
      ensures ValidMeeting(channels[c].log, c, resume, channels[c].feed, ReadMade(channels[c], resume),
                           channels[c].source, taken[c])
    {
      assert ValidFed(channels[c], c);
    }
  }

  /** A session of the model over these channels. */
  ghost predicate SessionOver(channels: seq<Channel>, s: Session, resume: bool) {
    && ValidSession(LogsOf(channels), s) && s.resume == resume
    && RangesOf(s.views) == ReadsOf(channels, resume)
    && forall c | 0 <= c < |channels| :: s.views[c].registered == channels[c].feed.registered
  }

  lemma CutClients(channels: seq<Channel>, opening: seq<StreamId>, resume: bool, s: Session, items: seq<Item>)
    requires |channels| == |opening| && ValidChannels(channels) && SessionOver(channels, s, resume)
    requires items <= Yields(LogsOf(channels), opening, s)
    ensures ClientsServed(SentOf(items, opening), channels, opening, resume)
  {
    forall c: nat, n: nat
      | c < |channels| && 1 <= n <= |SentOf(items, opening)| && Lossless(channels[c], c, opening[c], resume)
      ensures GotAll(SentOf(items, opening)[..n], channels[c], c, opening[c])
    {
      CutClient(channels, opening, s, items, c, n);
    }
  }

  lemma StayedClients(channels: seq<Channel>, opening: seq<StreamId>, resume: bool, s: Session, items: seq<Item>)
    requires |channels| == |opening| && ValidChannels(channels) && SessionOver(channels, s, resume)
    requires forall c | 0 <= c < |channels| :: s.views[c].pulled == channels[c].feed.published
    requires Replay(LogsOf(channels), opening, s).Ok? && items == Yields(LogsOf(channels), opening, s)
    ensures StayersServed(SentOf(items, opening), channels, opening, resume)
  {
    forall c: nat | c < |channels| && Lossless(channels[c], c, opening[c], resume)
      ensures GotToTheEnd(SentOf(items, opening), channels[c], c, opening[c], resume)
    {
      assert s.views[c].read == RangesOf(s.views)[c];
      StayedClient(channels, opening, s, c);
    }
  }

  /** Every event sent conforms, and is an entry of its channel's log with the payload and the id stored there. */
  ghost predicate SentAsStored(sent: seq<Sent>, channels: seq<Channel>) {
    forall e | e in EventsSent(sent) ::
      e.envelope.conforms && e.index < |channels| && IsOfLog(e, channels[e.index].log, e.index)
  }

  lemma SentIsStored(channels: seq<Channel>, opening: seq<StreamId>, s: Session, items: seq<Item>)
    requires |channels| == |opening| && ValidSession(LogsOf(channels), s)
    requires items <= Yields(LogsOf(channels), opening, s)
    ensures SentAsStored(SentOf(items, opening), channels)
  {
    var logs := LogsOf(channels);
    var all := Yields(logs, opening, s);
    SentOfIsFor(items, opening);
    ConformingIs(Events(items));
    forall e | e in EventsSent(SentOf(items, opening))
      ensures e.envelope.conforms && e.index < |channels| && IsOfLog(e, channels[e.index].log, e.index)
    {
      var i :| 0 <= i < |Events(items)| && Events(items)[i] == e;
      assert items[i] == all[i] && Events(all)[i] == e;
      YieldsAreOfLogs(logs, opening, s, e);
    }
  }

  ghost predicate AllTaken(channels: seq<Channel>, taken: seq<nat>) {
    |taken| == |channels| && forall c | 0 <= c < |channels| :: Whole(channels[c].source, taken[c])
  }

  /** What the loops have done, as their contracts say it, serves every client. */
  lemma Served(channels: seq<Channel>, start: Opened, now: nat, replay: Result<seq<Tagged>, Lagged>,
               items: seq<Item>, seen: seq<Tagged>, merged: seq<Tagged>, taken: seq<nat>)
    requires |channels| == |start.ids| && ValidChannels(channels)
    requires forall c | 0 <= c < |channels| :: ValidRead(channels[c].log, channels[c].read)
    requires replay == Replaying(channels, start) && (start.resume ==> FirstExpired(start.ids, now).None?)
    requires Interleaves(merged, SourcesOf(channels), taken)
    requires Looked(start.ids, start.resume, replay, items, seen, merged)
    ensures ClientsServed(SentOf(items, start.ids), channels, start.ids, start.resume)
    ensures SentAsStored(SentOf(items, start.ids), channels)
    ensures (start.resume ==> replay.Ok? && seen == replay.value + merged) && AllTaken(channels, taken) ==>
      StayersServed(SentOf(items, start.ids), channels, start.ids, start.resume)
  {
    MeetingsValid(channels, start.resume, taken);
    var s := RunIsSession(LogsOf(channels), start.ids, start.resume, now, FeedsOf(channels),
                          ReadsOf(channels, start.resume),
                          SourcesOf(channels), replay, items, seen, merged, taken);
    CutClients(channels, start.ids, start.resume, s, items);
    SentIsStored(channels, start.ids, s, items);
    if (start.resume ==> replay.Ok? && seen == replay.value + merged) && AllTaken(channels, taken) {
      StayedClients(channels, start.ids, start.resume, s, items);
    }
  }

  lemma ReadsValid(channels: seq<Channel>)
    requires ValidChannels(channels)
    ensures forall c | 0 <= c < |channels| :: ValidRead(channels[c].log, channels[c].read)
  {
    forall c | 0 <= c < |channels| ensures ValidRead(channels[c].log, channels[c].read) {
      assert ValidFed(channels[c], c);
    }
  }

  ghost predicate SomeSourceRaises(channels: seq<Channel>, error: Lagged) {
    exists c :: 0 <= c < |channels| && channels[c].source.end == Raises(error)
  }

  ghost predicate NoSourceRaises(channels: seq<Channel>) {
    forall c :: 0 <= c < |channels| ==> !channels[c].source.end.Raises?
  }

  /**
   * How a subscription ends: as lagged when its cursor is refused, when its replay raises or
   * when a live source does; finished when all its sources are; aborted by the signal alone;
   * and otherwise it waits, with nothing left that any source has handed over.
   */
  ghost predicate EndsAs(ending: Ending, channels: seq<Channel>, start: Result<Opened, Lagged>, signal: nat -> bool)
    requires forall c :: 0 <= c < |channels| ==> ValidRead(channels[c].log, channels[c].read)
    requires start.Ok? ==> |start.value.ids| == |channels|
  {
    if start.Err? then ending == Failed(start.error)
    else if Replaying(channels, start.value).Err? then ending == Failed(Replaying(channels, start.value).error)
    else
      match ending
      case Failed(error) => SomeSourceRaises(channels, error)
      case Aborted => exists step :: signal(step)
      case _ => NoSourceRaises(channels)
  }

  /**
   * A subscription is refused exactly as its cursor is, or ends as its replay or its live
   * sources do. However it goes, and after whichever item the client is cut off, on every
   * channel whose seam loses nothing the client holds the visible entries between the
   * opening cursor and the cursor it would resume from: in order, no gap, no repeat. And a
   * client that stays until the sources are done, or have no more to hand over for now,
   * holds all that was visible by then.
   */
  method Subscribe(identityHash: string, tips: seq<Option<StreamId>>, lastEventId: Option<Presented>, now: nat,
                   channels: seq<Channel>, signal: nat -> bool)
    returns (sent: seq<Sent>, ending: Ending, start: Result<Opened, Lagged>)
    requires |tips| == |channels| && ValidChannels(channels)
    ensures start == OpenCursor(identityHash, tips, lastEventId, now)
    ensures start.Err? ==> sent == []
    ensures start.Ok? ==> |start.value.ids| == |channels| && sent != [] && sent[0] == Mark(start.value.ids)
    ensures forall c :: 0 <= c < |channels| ==> ValidRead(channels[c].log, channels[c].read)
    ensures start.Ok? && Replaying(channels, start.value).Err? ==>
      sent == [Mark(start.value.ids)]
    ensures EndsAs(ending, channels, start, signal)
    ensures SentAsStored(sent, channels)
    ensures start.Ok? ==> ClientsServed(sent, channels, start.value.ids, start.value.resume)
    ensures start.Ok? && (ending.Finished? || ending.Waiting?) ==>
      StayersServed(sent, channels, start.value.ids, start.value.resume)
  {
    ReadsValid(channels);
    start := OpenCursor(identityHash, tips, lastEventId, now);
    if start.Err? {
      return [], Failed(start.error), start;
    }
    var replay := Replaying(channels, start.value);
    var cursor := new RealtimeCursor(start.value.ids);
    var items, taken;
    ghost var seen, merged;
    items, ending, seen, merged, taken :=
      ResumeThenLive(cursor, start.value.resume, replay, SourcesOf(channels), signal);
    sent := SendItems(start.value.ids, items);
    Served(channels, start.value, now, replay, items, seen, merged, taken);
  }

  // ----- a minted channel

  /** A channel whose log begins later: what came before is no part of it. */
  function Begun(ch: Channel, base: nat): Channel
    requires base <= |ch.log| && base <= ch.feed.registered <= ch.feed.published
  {
    ch.(log := ch.log[base..], feed := Feed(ch.feed.registered - base, ch.feed.published - base),
        read := Read(0, 0, 0, 0))
  }

  lemma BegunIsFed(ch: Channel, c: nat, base: nat)
    requires ValidFed(ch, c) && base <= |ch.log| && base <= ch.feed.registered
    ensures ValidFed(Begun(ch, base), c)
  {
    SliceOrdered(ch.log, base, |ch.log|);
    assert ch.log[base..] == ch.log[base..|ch.log|];
    ReadableFrom(ch.log, c, base, ch.feed.registered - base, ch.feed.published - base);
  }

  /**
   * A first subscription minted when a stream had so much trimmed and published, perhaps
   * everything: what `Subscribe` promises of the channel, taken from where its minted cursor's
   * log begins, is asked for exactly when nothing that parses came between the mint and the
   * moment its listener began to hear.
   */
  lemma MintedChannel(ch: Channel, c: nat, trimmed: nat, published: nat)
    requires ValidFed(ch, c) && trimmed <= published <= |ch.log|
    ensures var base := MintedFrom(WholeView(ch, false), trimmed, published);
      && base <= ch.feed.registered && ValidFed(Begun(ch, base), c)
      && (Lossless(Begun(ch, base), c, MintedId(ch.log, trimmed, published), false)
          <==> Readable(ch.log, c, published, Max(ch.feed.registered, published)) == [])
  {
    var base := MintedFrom(WholeView(ch, false), trimmed, published);
    MintedExactly(ch.log, c, WholeView(ch, false), trimmed, published);
    BegunIsFed(ch, c, base);
    LosslessAsMinted(ch, c, MintedId(ch.log, trimmed, published), base, published);
  }

  lemma LosslessAsMinted(ch: Channel, c: nat, id: StreamId, base: nat, published: nat)
    requires ValidFed(ch, c) && base <= |ch.log| && base <= ch.feed.registered && published <= |ch.log|
    requires MintMissesOnlyBetween(ch.log, c, WholeView(ch, false), id, base, published)
    requires ValidFed(Begun(ch, base), c)
    ensures Lossless(Begun(ch, base), c, id, false)
        <==> Readable(ch.log, c, published, Max(ch.feed.registered, published)) == []
  {
    assert WholeView(Begun(ch, base), false) == Met(WholeView(ch, false), base);
    assert Begun(ch, base).log == ch.log[base..];
  }

  // ----- a client that comes back

  /**
   * One subscription of a client: what it asked with, the channels as they were then, what
   * was sent to it, and how many of those items it got before it was cut off.
   */
  datatype Visit = Visit(lastEventId: Option<Presented>, tips: seq<Option<StreamId>>, now: nat,
                         channels: seq<Channel>, start: Opened, sent: seq<Sent>, got: nat)

  /** A subscription whose cursor was accepted or minted, as `Subscribe` promises it. */
  ghost predicate ValidVisit(identityHash: string, v: Visit) {
    && |v.tips| == |v.channels| == |v.start.ids| && ValidChannels(v.channels)
    && OpenCursor(identityHash, v.tips, v.lastEventId, v.now) == Ok(v.start)
    && ClientsServed(v.sent, v.channels, v.start.ids, v.start.resume)
    && 1 <= v.got <= |v.sent|
  }

  /** The items the client got. */
  function GotOf(v: Visit): seq<Sent> {
    if v.got <= |v.sent| then v.sent[..v.got] else v.sent
  }

  /** The cursor it is left with. */
  function LeftWith(v: Visit): seq<StreamId> {
    if GotOf(v) == [] then v.start.ids else GotOf(v)[|GotOf(v)| - 1].cursor
  }

  /** Each subscription but the first presents the last cursor the client got from the one before it. */
  ghost predicate ComesBack(identityHash: string, logs: seq<Log>, visits: seq<Visit>)
    decreases visits
  {
    visits != [] ==>
      && ValidVisit(identityHash, visits[0]) && LogsOf(visits[0].channels) == logs
      && (|visits| > 1 ==> visits[1].lastEventId == Some(Presented(identityHash, LeftWith(visits[0]))))
      && ComesBack(identityHash, logs, visits[1..])
  }

  /** All the events the client got. */
  function AllGot(visits: seq<Visit>): seq<Tagged> {
    if visits == [] then [] else EventsSent(GotOf(visits[0])) + AllGot(visits[1..])
  }

  /** The cursor the client has in the end. */
  function FinallyLeft(ids: seq<StreamId>, visits: seq<Visit>): seq<StreamId>
    decreases visits
  {
    if visits == [] then ids else FinallyLeft(LeftWith(visits[0]), visits[1..])
  }

  /** No seam of a channel loses anything. */
  ghost predicate LosslessVisits(visits: seq<Visit>, c: nat) {
    forall v | v in visits :: c < |v.channels| == |v.start.ids| && ValidFed(v.channels[c], c)
                              && Lossless(v.channels[c], c, v.start.ids[c], v.start.resume)
  }

  /** What a client got on a channel between two cursors is what is visible there. */
  ghost predicate GotBetween(events: seq<Tagged>, log: Log, c: nat, first: seq<StreamId>, last: seq<StreamId>) {
    && c < |first| && c < |last|
    && After(log, first[c]) <= After(log, last[c])
    && Project(events, c) == Visible(log, c, After(log, first[c]), After(log, last[c]))
  }

  lemma OneVisit(identityHash: string, v: Visit, c: nat)
    requires ValidVisit(identityHash, v) && LosslessVisits([v], c)
    ensures GotBetween(EventsSent(GotOf(v)), v.channels[c].log, c, v.start.ids, LeftWith(v))
  {
    assert v in [v];
    assert GotAll(v.sent[..v.got], v.channels[c], c, v.start.ids[c]);
  }

  lemma JoinGot(a: seq<Tagged>, b: seq<Tagged>, log: Log, c: nat,
                first: seq<StreamId>, middle: seq<StreamId>, last: seq<StreamId>)
    requires GotBetween(a, log, c, first, middle) && GotBetween(b, log, c, middle, last)
    ensures GotBetween(a + b, log, c, first, last)
  {
    ProjectConcat(a, b, c);
    VisibleSplit(log, c, After(log, first[c]), After(log, middle[c]), After(log, last[c]));
  }

  /** A client that presents a cursor and is accepted goes on from that cursor. */
  lemma GoesOn(identityHash: string, v: Visit, ids: seq<StreamId>)
    requires ValidVisit(identityHash, v) && v.lastEventId == Some(Presented(identityHash, ids))
    ensures v.start == Opened(ids, true)
  {
  }

  /**
   * Over any number of subscriptions, each cut off after any item and followed by one with
   * the last cursor got, whatever was minted first: on a channel none of whose seams loses
   * anything, the client has got exactly the visible entries from the first cursor to the
   * last, in order, no gap and no repeat.
   */
  lemma {:induction false} ComesBackToEverything(identityHash: string, logs: seq<Log>, visits: seq<Visit>, c: nat)
    requires visits != [] && c < |logs| && ComesBack(identityHash, logs, visits) && LosslessVisits(visits, c)
    ensures GotBetween(AllGot(visits), logs[c], c, visits[0].start.ids, FinallyLeft(visits[0].start.ids, visits))
    decreases |visits|
  {
    var v, rest := visits[0], visits[1..];
    var here := EventsSent(GotOf(v));
    OneVisit(identityHash, v, c);
    assert v.channels[c].log == LogsOf(v.channels)[c];
    if rest == [] {
      assert here + AllGot(rest) == here;
    } else {
      assert rest[0] == visits[1];
      ComesBackToEverything(identityHash, logs, rest, c);
      GoesOn(identityHash, rest[0], LeftWith(v));
      JoinGot(here, AllGot(rest), logs[c], c, v.start.ids, LeftWith(v), FinallyLeft(LeftWith(v), rest));
    }
  }
}
