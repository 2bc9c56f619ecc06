/**
 * One channel of one session: a replayed part of its log, then live copies of
 * what was published since the listener registered. Says exactly which published
 * entries the seam between the two loses, and when it loses none.
 */
module ResumeSeam {
  import opened Basics
  import opened StreamIds
  import opened ResumeLog
  import opened ResumeDelivery

  /**
   * One channel as a session meets it: how much had been published when its listener began
   * to hear it, its two range reads, and how much its live source has handed over. The
   * listener is added at once, but hears nothing before the SUBSCRIBE queued for it has
   * taken effect, which nothing waits for: that may be before, between or after the reads.
   */
  datatype View = View(registered: nat, read: ChannelRead, pulled: nat)

  predicate ValidView(log: Log, view: View) {
    && ValidRead(log, view.read)
    && view.registered <= view.pulled <= |log|
  }

  function Replayed(log: Log, c: nat, after: StreamId, view: View): seq<Tagged>
    requires ValidView(log, view)
  {
    Readable(log, c, ReplayFrom(log, after, view.read), ReplayTo(log, after, view.read))
  }

  /** The position in the log the channel's cursor stands at once the replay is over. */
  function Seam(log: Log, c: nat, after: StreamId, view: View): (n: nat)
    requires ValidView(log, view)
    ensures n <= |log|
  {
    After(log, LastId(Replayed(log, c, after, view), after))
  }

  /** The readable entries after the cursor that the session never yields. */
  function Lost(log: Log, c: nat, after: StreamId, view: View): seq<Tagged>
    requires ValidView(log, view)
  {
    var from, seam, cursor := ReplayFrom(log, after, view.read), Seam(log, c, after, view), After(log, after);
    (if Replayed(log, c, after, view) == [] then [] else Readable(log, c, cursor, from))
    + Readable(log, c, seam, Max(view.registered, seam))
  }

  /** How far into the log the session has come. */
  function Reached(log: Log, c: nat, after: StreamId, view: View): (n: nat)
    requires ValidView(log, view)
    ensures n <= |log|
  {
    Max(view.pulled, Seam(log, c, after, view))
  }

  /** What one channel of the session yields. */
  function Shown(log: Log, c: nat, after: StreamId, view: View): seq<Tagged>
    requires ValidView(log, view)
  {
    DeliverOne(Replayed(log, c, after, view) + Readable(log, c, view.registered, view.pulled), after)
  }

  // ----- lemmas about readable stretches of a log

  lemma ReadableStep(log: Log, c: nat, i: nat, j: nat)
    requires i < j <= |log|
    ensures Readable(log, c, i, j)
         == (match ParseEntry(c, log[i]) case Some(t) => [t] case None => []) + Readable(log, c, i + 1, j)
  {
    assert log[i..j][0] == log[i] && log[i..j][1..] == log[i + 1..j];
  }

  lemma ReadableLast(log: Log, c: nat, i: nat, j: nat)
    requires i < j <= |log|
    ensures Readable(log, c, i, j)
         == Readable(log, c, i, j - 1) + (match ParseEntry(c, log[j - 1]) case Some(t) => [t] case None => [])
  {
    ReadableSplit(log, c, i, j - 1, j);
    ReadableStep(log, c, j - 1, j);
    assert Readable(log, c, j, j) == [];
  }

  lemma {:induction false} ReadableRises(log: Log, c: nat, i: nat, j: nat, last: StreamId)
    requires Ordered(log) && i <= j <= |log|
    requires i < j ==> Compare(log[i].id, last) > 0
    ensures Rising(Readable(log, c, i, j), last)
    decreases j - i
  {
    if i < j {
      ReadableStep(log, c, i, j);
      ReadableRises(log, c, i + 1, j, log[i].id);
      if ParseEntry(c, log[i]).None? {
        ReadableRises(log, c, i + 1, j, last);
      }
    }
  }

  /** Where the cursor stands after a stretch: past its last readable entry, or where it stood. */
  lemma {:induction false} CursorAfterStretch(log: Log, c: nat, i: nat, j: nat, last: StreamId)
    requires Ordered(log) && After(log, last) <= i <= j <= |log|
    ensures var p := After(log, LastId(Readable(log, c, i, j), last));
      if Readable(log, c, i, j) == [] then p == After(log, last)
      else i < p <= j && Readable(log, c, p, j) == []
    decreases j - i
  {
    if i < j {
      ReadableLast(log, c, i, j);
      CursorAfterStretch(log, c, i, j - 1, last);
      var earlier := Readable(log, c, i, j - 1);
      match ParseEntry(c, log[j - 1]) {
        case Some(t) =>
          LastIdConcat(earlier, [t], last);
          assert LastId([t], LastId(earlier, last)) == LastId([], log[j - 1].id);
          AfterIs(log, log[j - 1].id, j);
        case None =>
          assert Readable(log, c, i, j) == earlier;
          if earlier != [] {
            ReadableLast(log, c, After(log, LastId(earlier, last)), j);
          }
      }
    }
  }

  /** Live copies up to the cursor are skipped; the rest all pass. */
  lemma {:induction false} LiveTail(log: Log, c: nat, i: nat, j: nat, last: StreamId)
    requires Ordered(log) && i <= j <= |log|
    ensures DeliverOne(Readable(log, c, i, j), last) == Readable(log, c, Max(i, Min(After(log, last), j)), j)
    decreases j - i
  {
    AfterSplits(log, last);
    if i < j {
      if i < After(log, last) {
        ReadableStep(log, c, i, j);
        LiveTail(log, c, i + 1, j, last);
      } else {
        ReadableRises(log, c, i, j, last);
        RisingPasses(Readable(log, c, i, j), last);
      }
    }
  }

  // ----- the seam

  /**
   * A session's channel yields its replay, then the live entries from the seam or from
   * registration, whichever is later.
   */
  lemma ShownIs(log: Log, c: nat, after: StreamId, view: View)
    requires Ordered(log) && ValidView(log, view)
    ensures var seam := Seam(log, c, after, view);
      && Max(view.registered, seam) <= Reached(log, c, after, view)
      && Shown(log, c, after, view)
         == Replayed(log, c, after, view) + Readable(log, c, Max(view.registered, seam), Reached(log, c, after, view))
  {
    var from, to := ReplayFrom(log, after, view.read), ReplayTo(log, after, view.read);
    var a, b := Replayed(log, c, after, view), Readable(log, c, view.registered, view.pulled);
    DeliverOneConcat(a, b, after);
    AfterSplits(log, after);
    ReadableRises(log, c, from, to, after);
    RisingPasses(a, after);
    LiveTail(log, c, view.registered, view.pulled, LastId(a, after));
  }

  /** The published stretch, cut where trimming, the replay and the live entries meet. */
  lemma SeamPieces(log: Log, c: nat, after: StreamId, view: View)
    requires Ordered(log) && ValidView(log, view)
    ensures var cursor, from := After(log, after), ReplayFrom(log, after, view.read);
      var seam, replayed := Seam(log, c, after, view), Replayed(log, c, after, view);
      && cursor <= seam
      && Readable(log, c, cursor, seam) == (if replayed == [] then [] else Readable(log, c, cursor, from)) + replayed
  {
    var cursor, seam := After(log, after), Seam(log, c, after, view);
    var from, to := ReplayFrom(log, after, view.read), ReplayTo(log, after, view.read);
    CursorAfterStretch(log, c, from, to, after);
    if Replayed(log, c, after, view) == [] {
      assert Readable(log, c, cursor, seam) == [];
    } else {
      ReadableSplit(log, c, cursor, from, seam);
      ReadableSplit(log, c, from, seam, to);
    }
  }

  lemma KeptAndLost<T>(missed: seq<T>, replayed: seq<T>, skipped: seq<T>, live: seq<T>)
    ensures replayed + live == (missed + replayed) + (skipped + live) <==> missed + skipped == []
  {
    if missed + skipped == [] {
      assert missed == [] && skipped == [];
    } else {
      assert |replayed + live| < |(missed + replayed) + (skipped + live)|;
    }
  }

  /**
   * Conservation at the seam: of the readable entries published after the cursor and up
   * to where the session has come, each is either yielded or counted as lost, and the
   * session yields exactly all of them if and only if nothing is lost.
   */
  lemma SeamConserves(log: Log, c: nat, after: StreamId, view: View)
    requires Ordered(log) && ValidView(log, view)
    ensures After(log, after) <= Reached(log, c, after, view)
    ensures var published := Readable(log, c, After(log, after), Reached(log, c, after, view));
      && |Shown(log, c, after, view)| + |Lost(log, c, after, view)| == |published|
      && (Shown(log, c, after, view) == published <==> Lost(log, c, after, view) == [])
  {
    var cursor, from := After(log, after), ReplayFrom(log, after, view.read);
    var seam, reached := Seam(log, c, after, view), Reached(log, c, after, view);
    var live := Max(view.registered, seam);
    var replayed := Replayed(log, c, after, view);
    ShownIs(log, c, after, view);
    SeamPieces(log, c, after, view);
    ReadableSplit(log, c, cursor, seam, reached);
    ReadableSplit(log, c, seam, live, reached);
    KeptAndLost(if replayed == [] then [] else Readable(log, c, cursor, from), replayed,
                Readable(log, c, seam, live), Readable(log, c, live, reached));
  }

  // ----- when nothing is lost

  /**
   * What can be checked of a seam. Where there is no cursor, or the stream was found empty,
   * nothing was published between the cursor and the moment the listener began to hear.
   * Otherwise the second read still held everything after the cursor, and what it then
   * returned, at most `RESUME_MAXLEN` entries of what had been published, reaches that moment.
   */
  predicate CleanSeam(log: Log, after: StreamId, view: View) {
    var cursor := After(log, after);
    if after == ZERO_STREAM_ID || view.read.FoundNothing() then view.registered <= cursor
    else
      && view.read.trimmed2 <= cursor
      && view.registered <= Max(cursor, Min(cursor + RESUME_MAXLEN, view.read.published2))
  }

  /** Passing a stretch in which nothing parses changes nothing of what follows. */
  lemma PastNothing(log: Log, c: nat, i: nat, j: nat, k: nat)
    requires i <= j <= |log| && k <= |log| && Readable(log, c, i, j) == []
    ensures Readable(log, c, i, Max(k, i)) == Readable(log, c, j, Max(k, j))
  {
    assert Readable(log, c, j, j) == [] && Readable(log, c, i, i) == [];
    if j <= k {
      ReadableSplit(log, c, i, j, k);
    } else if i <= k {
      ReadableSplit(log, c, i, k, j);
    }
  }

  /** Where the cursor stands after the replay decides what is lost: nothing that parses may lie in the gaps. */
  lemma LostIs(log: Log, c: nat, after: StreamId, view: View)
    requires Ordered(log) && ValidView(log, view)
    ensures var cursor, from, to := After(log, after),
        ReplayFrom(log, after, view.read), ReplayTo(log, after, view.read);
      Lost(log, c, after, view) ==
        if Readable(log, c, from, to) == [] then Readable(log, c, cursor, Max(view.registered, cursor))
        else Readable(log, c, cursor, from) + Readable(log, c, to, Max(view.registered, to))
  {
    var from, to, seam := ReplayFrom(log, after, view.read), ReplayTo(log, after, view.read), Seam(log, c, after, view);
    CursorAfterStretch(log, c, from, to, after);
    if Readable(log, c, from, to) != [] {
      PastNothing(log, c, seam, to, view.registered);
    }
  }

  /**
   * The exact condition, on any log: a session whose replay did not raise loses nothing if
   * and only if nothing that parses was skipped before the stretch it replayed, or between
   * that stretch, or the cursor where nothing in it parsed, and what the listener heard.
   */
  lemma LosslessExactly(log: Log, c: nat, after: StreamId, view: View)
    requires Ordered(log) && ValidView(log, view)
    ensures var cursor, from, to := After(log, after),
        ReplayFrom(log, after, view.read), ReplayTo(log, after, view.read);
      Lost(log, c, after, view) == [] <==>
        if Readable(log, c, from, to) == [] then Readable(log, c, cursor, Max(view.registered, cursor)) == []
        else Readable(log, c, cursor, from) == [] && Readable(log, c, to, Max(view.registered, to)) == []
  {
    LostIs(log, c, after, view);
  }

  lemma CleanSeamLosesNothing(log: Log, c: nat, after: StreamId, view: View)
    requires Ordered(log) && ValidView(log, view) && CleanSeam(log, after, view)
    ensures Lost(log, c, after, view) == []
  {
    var cursor, from, to := After(log, after), ReplayFrom(log, after, view.read), ReplayTo(log, after, view.read);
    LosslessExactly(log, c, after, view);
    assert from == cursor && view.registered <= to;
    assert Readable(log, c, cursor, cursor) == [] && Readable(log, c, to, to) == [];
    if Readable(log, c, from, to) == [] && cursor < view.registered {
      ReadableSplit(log, c, cursor, view.registered, to);
    }
  }

  lemma {:induction false} AllReadable(log: Log, c: nat, i: nat, j: nat)
    requires i <= j <= |log|
    requires forall k :: 0 <= k < |log| ==> log[k].body.Sealed?
    ensures |Readable(log, c, i, j)| == j - i
    decreases j - i
  {
    if i < j {
      ReadableStep(log, c, i, j);
      AllReadable(log, c, i + 1, j);
    }
  }

  /**
   * Where every entry parses the condition is one of positions alone: the seam is clean, or
   * the second read found everything trimmed away and the listener had heard all of it.
   */
  lemma CleanExactly(log: Log, c: nat, after: StreamId, view: View)
    requires Ordered(log) && ValidView(log, view)
    requires forall k :: 0 <= k < |log| ==> log[k].body.Sealed?
    ensures Lost(log, c, after, view) == [] <==>
      || CleanSeam(log, after, view)
      || (after != ZERO_STREAM_ID && view.read.Read?
          && view.read.trimmed2 == view.read.published2 && view.registered <= After(log, after))
  {
    var cursor, from, to := After(log, after), ReplayFrom(log, after, view.read), ReplayTo(log, after, view.read);
    LosslessExactly(log, c, after, view);
    AllReadable(log, c, from, to);
    AllReadable(log, c, cursor, from);
    AllReadable(log, c, cursor, Max(view.registered, cursor));
    AllReadable(log, c, to, Max(view.registered, to));
  }

  // ----- inputs that lose an entry

  /** A log of `n` entries, one a millisecond, all of which parse. */
  function Steady(n: nat): (log: Log)
    ensures |log| == n && Ordered(log)
    ensures forall k :: 0 <= k < n ==> log[k].body.Sealed? && log[k].id == StreamId(k + 1, 0)
  {
    seq(n, k requires 0 <= k < n => Entry(StreamId(k + 1, 0), Sealed(Envelope(Other("$ID$"), "payload", true))))
  }

  /** The session goes on as if nothing were wrong, and an entry never reaches it. */
  ghost predicate LosesSilently(log: Log, after: StreamId, view: View) {
    && Ordered(log) && ValidView(log, view)
    && ReplayChannel(log, 0, after, view.read).Ok?
    && Lost(log, 0, after, view) != []
  }

  /**
   * The SUBSCRIBE takes effect after the second read: the entry published between the two
   * is in neither.
   */
  lemma LateSubscribeLosesAnEntry()
    ensures LosesSilently(Steady(2), StreamId(1, 0), View(2, Read(0, 1, 0, 1), 2))
  {
    AfterIs(Steady(2), StreamId(1, 0), 1);
    CleanExactly(Steady(2), 0, StreamId(1, 0), View(2, Read(0, 1, 0, 1), 2));
    TrimmedCursorRaises(Steady(2), 0, StreamId(1, 0), Read(0, 1, 0, 1));
  }

  /** One entry more than a replay reads is after the cursor when the listener begins to hear. */
  lemma FullReadLosesAnEntry()
    ensures var n := RESUME_MAXLEN + 2;
      LosesSilently(Steady(n), StreamId(1, 0), View(n, Read(0, n, 0, n), n))
  {
    var n := RESUME_MAXLEN + 2;
    AfterIs(Steady(n), StreamId(1, 0), 1);
    CleanExactly(Steady(n), 0, StreamId(1, 0), View(n, Read(0, n, 0, n), n));
    TrimmedCursorRaises(Steady(n), 0, StreamId(1, 0), Read(0, n, 0, n));
  }

  /**
   * One more entry is published between the check and the read, and with it the oldest 100
   * are trimmed, down to what a stream is kept to: the cursor's own, and some after it.
   */
  lemma TrimBetweenReadsLosesAnEntry()
    ensures var n := RESUME_MAXLEN + 100;
      LosesSilently(Steady(n), StreamId(1, 0), View(n, Read(0, n - 1, 100, n), n))
  {
    var n := RESUME_MAXLEN + 100;
    AfterIs(Steady(n), StreamId(1, 0), 1);
    CleanExactly(Steady(n), 0, StreamId(1, 0), View(n, Read(0, n - 1, 100, n), n));
    TrimmedCursorRaises(Steady(n), 0, StreamId(1, 0), Read(0, n - 1, 100, n));
  }

  /** A cursor that had seen nothing replays nothing, though the stream holds the first entry. */
  lemma ZeroCursorLosesAnEntry()
    ensures LosesSilently(Steady(1), ZERO_STREAM_ID, View(1, Read(0, 1, 0, 1), 1))
  {
    AfterIs(Steady(1), ZERO_STREAM_ID, 0);
    CleanExactly(Steady(1), 0, ZERO_STREAM_ID, View(1, Read(0, 1, 0, 1), 1));
  }

  // ----- what the trimmed-cursor check catches

  /** The replay raises exactly when the stream holds something and all of it is after the cursor. */
  lemma TrimmedCursorRaises(log: Log, c: nat, after: StreamId, read: ChannelRead)
    requires Ordered(log) && ValidRead(log, read)
    ensures ReplayChannel(log, c, after, read).Err? <==>
      after != ZERO_STREAM_ID && !read.FoundNothing() && After(log, after) <= read.trimmed1
    ensures ReplayChannel(log, c, after, read).Ok? && after != ZERO_STREAM_ID && !read.FoundNothing() ==>
      forall i :: 0 <= i < read.trimmed1 ==> Compare(log[i].id, after) < 0
  {
    AfterSplits(log, after);
    if !read.FoundNothing() {
      assert log[read.trimmed1..read.published1][0] == log[read.trimmed1];
    }
  }

  // ----- the stream that expired

  /** The key is gone `RESUME_TTL_SECONDS` after the last write, whose time is that entry's id. */
  predicate KeyExpired(log: Log, published: nat, now: nat)
    requires published <= |log|
  {
    published == 0 || now - log[published - 1].id.ms > RESUME_TTL_SECONDS * 1_000
  }

  /**
   * A cursor that has seen all of a stream is refused for its age exactly when the stream's
   * key is gone, more than a day after its last write.
   */
  lemma ExpiresWithItsStream(log: Log, published: nat, now: nat)
    requires 0 < published <= |log| && log[published - 1].id.ms != 0
    ensures IsExpired(log[published - 1].id, now) <==> KeyExpired(log, published, now)
    ensures KeyExpired(log, published, now) <==> now > log[published - 1].id.ms + 24 * 60 * 60 * 1000
  {
  }

  /**
   * A cursor still younger than the TTL when the stream is found gone had seen its last
   * write: nothing published by that read is after it.
   */
  lemma FreshCursorMissesNothing(log: Log, after: StreamId, read: ChannelRead, readAt: nat)
    requires Ordered(log) && ValidRead(log, read) && read.Read?
    requires after.ms != 0 && !IsExpired(after, readAt) && KeyExpired(log, read.published1, readAt)
    ensures read.published1 <= After(log, after)
  {
    AfterSplits(log, after);
  }

  /**
   * The age is checked when the cursor is opened, the stream read later. A cursor that
   * crosses the TTL in between passes the check, finds no stream, and skips an entry.
   */
  lemma ExpiryRaceLosesAnEntry()
    ensures exists openedAt: nat, readAt: nat ::
      && openedAt < readAt
      && !IsExpired(StreamId(1, 0), openedAt)
      && KeyExpired(Steady(2), 2, readAt)
    ensures Read(2, 2, 2, 2).FoundNothing() && LosesSilently(Steady(2), StreamId(1, 0), View(2, Read(2, 2, 2, 2), 2))
  {
    var ttl := RESUME_TTL_SECONDS * 1_000;
    AfterIs(Steady(2), StreamId(1, 0), 1);
    CleanExactly(Steady(2), 0, StreamId(1, 0), View(2, Read(2, 2, 2, 2), 2));
    assert ttl + 1 < ttl + 3 && !IsExpired(StreamId(1, 0), ttl + 1) && KeyExpired(Steady(2), 2, ttl + 3);
  }

  // ----- the minted cursor

  /** The last id a stream holds, when so much has been trimmed and published. */
  function Tip(log: Log, trimmed: nat, published: nat): Option<StreamId>
    requires trimmed <= published <= |log|
  {
    if trimmed == published then None else Some(log[published - 1].id)
  }

  function MintedId(log: Log, trimmed: nat, published: nat): StreamId
    requires trimmed <= published <= |log|
  {
    match Tip(log, trimmed, published) case Some(id) => id case None => ZERO_STREAM_ID
  }

  /**
   * Where the log begins that a minted cursor is about: at its beginning, or, minted from a
   * stream that held nothing, at the mint, or where the listener heard before that.
   */
  function MintedFrom(view: View, trimmed: nat, published: nat): nat {
    if trimmed == published then Min(published, view.registered) else 0
  }

  lemma ReadableFrom(log: Log, c: nat, base: nat, i: nat, j: nat)
    requires base <= |log| && i <= j <= |log| - base
    ensures Readable(log[base..], c, i, j) == Readable(log, c, base + i, base + j)
  {
    assert log[base..][i..j] == log[base + i..base + j];
  }

  lemma AfterZero(log: Log)
    requires Ordered(log)
    ensures After(log, ZERO_STREAM_ID) == 0
  {
  }

  /** Without a cursor and without a replay a channel shows what its listener heard, and loses what came before. */
  lemma UnreadFromZero(log: Log, c: nat, view: View)
    requires Ordered(log) && ValidView(log, view) && view.read.Unread?
    ensures Lost(log, c, ZERO_STREAM_ID, view) == Readable(log, c, 0, view.registered)
    ensures Shown(log, c, ZERO_STREAM_ID, view) == Readable(log, c, view.registered, view.pulled)
    ensures CleanSeam(log, ZERO_STREAM_ID, view) <==> view.registered == 0
  {
    AfterZero(log);
    LostIs(log, c, ZERO_STREAM_ID, view);
    ShownIs(log, c, ZERO_STREAM_ID, view);
    assert Readable(log, c, 0, 0) == [];
    assert [] + Readable(log, c, view.registered, view.pulled) == Readable(log, c, view.registered, view.pulled);
  }

  /** How a minted cursor's channel is met, counted from where its log begins. */
  function Met(view: View, base: nat): View
    requires base <= view.registered <= view.pulled
  {
    View(view.registered - base, Unread, view.pulled - base)
  }

  /**
   * On the log it is about, a minted cursor shows what it shows on the whole log, and loses
   * nothing exactly when nothing that parses came between the mint and the listener.
   */
  ghost predicate MintMissesOnlyBetween(log: Log, c: nat, view: View, id: StreamId, base: nat, published: nat)
    requires ValidView(log, view) && view.read.Unread? && base <= view.registered && published <= |log|
  {
    var own, met := log[base..], Met(view, base);
    && Ordered(own) && ValidView(own, met)
    && Shown(own, c, id, met) == Shown(log, c, id, view)
    && (Lost(own, c, id, met) == [] <==> Readable(log, c, published, Max(view.registered, published)) == [])
    && (CleanSeam(own, id, met) <==> view.registered <= published)
  }

  lemma MintedFromNothing(log: Log, c: nat, view: View, published: nat)
    requires Ordered(log) && ValidView(log, view) && view.read.Unread? && published <= |log|
    ensures MintMissesOnlyBetween(log, c, view, ZERO_STREAM_ID, Min(published, view.registered), published)
  {
    var base: nat := Min(published, view.registered);
    var own, met := log[base..], Met(view, base);
    assert own == log[base..|log|];
    SliceOrdered(log, base, |log|);
    UnreadFromZero(log, c, view);
    UnreadFromZero(own, c, met);
    ReadableFrom(log, c, base, 0, met.registered);
    ReadableFrom(log, c, base, met.registered, met.pulled);
    assert Readable(log, c, view.registered, view.registered) == [];
    assert Readable(log, c, published, published) == [];
  }

  lemma MintedFromTip(log: Log, c: nat, view: View, published: nat)
    requires Ordered(log) && ValidView(log, view) && view.read.Unread? && 0 < published <= |log|
    ensures MintMissesOnlyBetween(log, c, view, log[published - 1].id, 0, published)
  {
    assert log[0..] == log && Met(view, 0) == view;
    AfterIs(log, log[published - 1].id, published);
    LosslessExactly(log, c, log[published - 1].id, view);
    assert Compare(log[published - 1].id, ZERO_STREAM_ID) > 0;
    assert Readable(log, c, published, published) == [];
  }

  /**
   * A minted cursor stands where the stream ended when it was read, whether it held anything
   * or not. Without a replay, nothing is lost if and only if nothing that parses was
   * published from then until the listener began to hear; where it heard before the read,
   * that is never.
   */
  lemma MintedExactly(log: Log, c: nat, view: View, trimmed: nat, published: nat)
    requires Ordered(log) && ValidView(log, view) && view.read.Unread?
    requires trimmed <= published <= |log|
    ensures MintedFrom(view, trimmed, published) <= view.registered
    ensures MintMissesOnlyBetween(log, c, view,
        MintedId(log, trimmed, published), MintedFrom(view, trimmed, published), published)
  {
    if trimmed == published {
      MintedFromNothing(log, c, view, published);
    } else {
      MintedFromTip(log, c, view, published);
    }
  }

  /** A first subscription, too, loses an entry published after its mint and before its SUBSCRIBE takes effect. */
  lemma LateSubscribeAfterMintLosesAnEntry()
    ensures Tip(Steady(2), 0, 1) == Some(StreamId(1, 0))
    ensures LosesSilently(Steady(2), StreamId(1, 0), View(2, Unread, 2))
  {
    AfterIs(Steady(2), StreamId(1, 0), 1);
    CleanExactly(Steady(2), 0, StreamId(1, 0), View(2, Unread, 2));
  }
}
