/**
 * The running loop refines the session model: whatever it yields, with live sources fed by
 * the channels' logs, is what a session of the model yields, up to where it was cut.
 */
module ResumeRefinement {
  import opened Basics
  import opened StreamIds
  import opened ResumeLog
  import opened ResumeDelivery
  import opened ResumeSeam
  import opened ResumeSessions
  import opened ResumeRuntime

  /**
   * How much of a channel's log was there when its listener began to hear it, and how much its
   * source can hand over.
   */
  datatype Feed = Feed(registered: nat, published: nat)

  /** The source holds, in order, the readable entries published since its listener began to hear. */
  ghost predicate FedBy(log: Log, c: nat, feed: Feed, source: Source) {
    && feed.registered <= feed.published <= |log|
    && Tag(c, source.values) == Readable(log, c, feed.registered, feed.published)
  }

  /** How far into the log the first n readable entries of a stretch reach. */
  ghost function StretchOf(log: Log, c: nat, i: nat, j: nat, n: nat): (p: nat)
    requires i <= j <= |log| && n <= |Readable(log, c, i, j)|
    ensures i <= p <= j && Readable(log, c, i, p) == Readable(log, c, i, j)[..n]
    ensures n == |Readable(log, c, i, j)| ==> p == j
    decreases j - i
  {
    if n == |Readable(log, c, i, j)| then j
    else
      ReadableLast(log, c, i, j);
      assert Readable(log, c, i, j - 1) == Readable(log, c, i, j)[..|Readable(log, c, i, j - 1)|];
      StretchOf(log, c, i, j - 1, n)
  }

  /** How one channel of a run met its log. */
  ghost predicate ValidMeeting(log: Log, c: nat, resume: bool, feed: Feed, read: ChannelRead,
                               source: Source, taken: nat) {
    && Ordered(log) && ValidRead(log, read) && FedBy(log, c, feed, source)
    && (read.Read? <==> resume)
    && taken <= |source.values|
  }

  ghost function ViewOf(log: Log, c: nat, resume: bool, feed: Feed, read: ChannelRead,
                          source: Source, taken: nat): (view: View)
    requires ValidMeeting(log, c, resume, feed, read, source, taken)
    ensures ValidView(log, view) && view.read == read && view.registered == feed.registered
    ensures taken == |source.values| ==> view.pulled == feed.published
    ensures Readable(log, c, view.registered, view.pulled) == Tag(c, source.values[..taken])
  {
    var pulled := StretchOf(log, c, feed.registered, feed.published, taken);
    assert Tag(c, source.values[..taken]) == Tag(c, source.values)[..taken];
    View(feed.registered, read, pulled)
  }

  /** What the loop has done, as its contract says: the events looked at, and the items yielded. */
  ghost predicate Looked(opening: seq<StreamId>, resume: bool, replay: Result<seq<Tagged>, Lagged>,
                         items: seq<Item>, seen: seq<Tagged>, merged: seq<Tagged>) {
    && InRange(seen, |opening|) && items == Deliver(seen, opening)
    && (!resume ==> seen == merged)
    && (resume && replay.Err? ==> seen == [])
    && (resume && replay.Ok? ==> seen == replay.value + merged || seen <= replay.value)
  }

  lemma DeliverPrefix(a: seq<Tagged>, b: seq<Tagged>, ids: seq<StreamId>)
    requires a <= b && InRange(b, |ids|)
    ensures InRange(a, |ids|) && Deliver(a, ids) <= Deliver(b, ids)
  {
    assert b == a + b[|a|..];
    forall e | e in b[|a|..] ensures e.index < |ids| {
      assert e in b;
    }
    DeliverConcat(a, b[|a|..], ids);
  }

  /**
   * Every run of the loop is a session of the model, its yields the beginning of that
   * session's; so what holds of every chain of sessions holds of what the loop yields.
   */
  lemma RunIsSession(
      logs: seq<Log>, opening: seq<StreamId>, resume: bool, openedAt: nat, feeds: seq<Feed>, ranges: seq<ChannelRead>,
      sources: seq<Source>, replay: Result<seq<Tagged>, Lagged>,
      items: seq<Item>, seen: seq<Tagged>, merged: seq<Tagged>, taken: seq<nat>) returns (s: Session)
    requires |logs| == |opening| == |feeds| == |ranges| == |sources|
    requires Interleaves(merged, sources, taken)
    requires forall c | 0 <= c < |logs| :: ValidMeeting(logs[c], c, resume, feeds[c], ranges[c], sources[c], taken[c])
    requires forall c | 0 <= c < |logs| :: ValidRead(logs[c], ranges[c])
    requires resume ==> FirstExpired(opening, openedAt).None? && replay == ReplayBuffer(logs, opening, ranges)
    requires Looked(opening, resume, replay, items, seen, merged)
    ensures ValidSession(logs, s) && s.resume == resume && RangesOf(s.views) == ranges
    ensures forall c | 0 <= c < |logs| ::
      && s.views[c].registered == feeds[c].registered
      && (Whole(sources[c], taken[c]) ==> s.views[c].pulled == feeds[c].published)
    ensures items <= Yields(logs, opening, s) && Replay(logs, opening, s) == (if resume then replay else Ok([]))
    ensures (if resume then replay.Ok? && seen == replay.value + merged else true) ==> items == Yields(logs, opening, s)
  {
    var views := seq(|logs|, c requires 0 <= c < |logs| =>
      ViewOf(logs[c], c, resume, feeds[c], ranges[c], sources[c], taken[c]));
    s := Session(resume, openedAt, views, merged);
    forall c | 0 <= c < |logs| ensures ValidChannel(logs[c], c, views[c], merged) {
      assert ValidMeeting(logs[c], c, resume, feeds[c], ranges[c], sources[c], taken[c]);
    }
    assert RangesOf(views) == ranges;
    if resume {
      assert Replay(logs, opening, s) == replay;
      if replay.Ok? {
        DeliverPrefix(seen, replay.value + merged, opening);
      }
    } else {
      assert [] + merged == merged;
    }
  }
}
