/**
 * What a channel's stream holds, and how one channel of a subscription reads it:
 * the entries published so far, the prefix trimmed away, and the two range reads
 * of a replay.
 */
module ResumeLog {
  import opened Basics
  import opened StreamIds

  datatype EventId = Stamp(id: StreamId) | Other(text: string)

  /** `conforms` is whether the payload passes the event's schema. */
  datatype Envelope = Envelope(eventId: EventId, payload: string, conforms: bool)

  /** The stored fields as a reader finds them: only the last form is an envelope. */
  datatype Body = Foreign | Garbled | NotEnvelope | Sealed(envelope: Envelope)

  datatype Entry = Entry(id: StreamId, body: Body)

  /** An envelope and which of the subscription's channels it is of. */
  datatype Tagged = Tagged(index: nat, envelope: Envelope)

  datatype Reason = CursorInvalid | IdentityChanged | CursorExpired | CursorTrimmed | QueueOverflow | RedisReconnect

  datatype Lagged = Lagged(channel: Option<nat>, reason: Reason)

  /** Everything ever published on a channel, oldest first. */
  type Log = seq<Entry>

  ghost predicate Ordered(log: Log) {
    && (forall i, j :: 0 <= i < j < |log| ==> Compare(log[i].id, log[j].id) < 0)
    && (forall i :: 0 <= i < |log| ==> Compare(log[i].id, ZERO_STREAM_ID) > 0)
  }

  function ParseEntry(index: nat, entry: Entry): Option<Tagged> {
    match entry.body
    case Sealed(envelope) => Some(Tagged(index, envelope.(eventId := Stamp(entry.id))))
    case _ => None
  }

  /** The entries that parse, in order: both the replay and the hub drop the others. */
  function ParseAll(entries: seq<Entry>, index: nat): seq<Tagged> {
    if entries == [] then []
    else
      var rest := ParseAll(entries[1..], index);
      match ParseEntry(index, entries[0])
      case Some(tagged) => [tagged] + rest
      case None => rest
  }

  function Readable(log: Log, index: nat, from: nat, to: nat): seq<Tagged>
    requires from <= to <= |log|
  {
    ParseAll(log[from..to], index)
  }

  /** How many entries of the log are at or before an id: the position a cursor stands at. */
  function After(log: Log, id: StreamId): (n: nat)
    ensures n <= |log|
  {
    if log == [] || Compare(log[0].id, id) > 0 then 0 else 1 + After(log[1..], id)
  }

  /** `XRANGE key (after + COUNT count` on the entries a stream holds. */
  function RangeAfter(held: seq<Entry>, after: StreamId, count: nat): seq<Entry> {
    var from := After(held, after);
    held[from..Min(from + count, |held|)]
  }

  /**
   * The stream at the two range reads of a replay: how much had been trimmed and
   * published at each. A subscription that minted its cursor reads nothing.
   */
  datatype ChannelRead =
    | Unread
    | Read(trimmed1: nat, published1: nat, trimmed2: nat, published2: nat)
  {
    /** The second read is not made for a stream the first found empty. */
    predicate FoundNothing() {
      Unread? || trimmed1 == published1
    }
  }

  predicate ValidRead(log: Log, read: ChannelRead) {
    read.Read? ==>
    && read.trimmed1 <= read.published1 <= |log|
    && read.trimmed2 <= read.published2 <= |log|
    && read.trimmed1 <= read.trimmed2
    && read.published1 <= read.published2
  }

  /** One channel's part of the replay. */
  function ReplayChannel(log: Log, index: nat, after: StreamId, read: ChannelRead): Result<seq<Tagged>, Lagged>
    requires ValidRead(log, read)
  {
    if read.Unread? || after == ZERO_STREAM_ID then Ok([])
    else
      var first := log[read.trimmed1..read.published1];
      if first == [] then Ok([])
      else if Compare(first[0].id, after) > 0 then Err(Lagged(Some(index), CursorTrimmed))
      else Ok(ParseAll(RangeAfter(log[read.trimmed2..read.published2], after, RESUME_MAXLEN), index))
  }

  // ----- where the replay starts and stops, as positions in the log

  function ReplayFrom(log: Log, after: StreamId, read: ChannelRead): (n: nat)
    requires ValidRead(log, read)
    ensures After(log, after) <= n <= |log|
  {
    if after == ZERO_STREAM_ID || read.FoundNothing() then After(log, after)
    else Min(Max(read.trimmed2, After(log, after)), Max(read.published2, After(log, after)))
  }

  function ReplayTo(log: Log, after: StreamId, read: ChannelRead): (n: nat)
    requires ValidRead(log, read)
    ensures ReplayFrom(log, after, read) <= n <= |log|
  {
    var from := ReplayFrom(log, after, read);
    if after == ZERO_STREAM_ID || read.FoundNothing() then from
    else Max(from, Min(from + RESUME_MAXLEN, read.published2))
  }

  // ----- lemmas

  lemma {:induction false} ParseAllConcat(a: seq<Entry>, b: seq<Entry>, index: nat)
    ensures ParseAll(a + b, index) == ParseAll(a, index) + ParseAll(b, index)
  {
    if a == [] {
      assert a + b == b;
    } else {
      ParseAllConcat(a[1..], b, index);
      ConcatTail(a, b);
      var first := match ParseEntry(index, a[0]) case Some(tagged) => [tagged] case None => [];
      Regroup(first, ParseAll(a[1..], index), ParseAll(b, index));
    }
  }

  lemma ReadableSplit(log: Log, index: nat, i: nat, j: nat, k: nat)
    requires i <= j <= k <= |log|
    ensures Readable(log, index, i, k) == Readable(log, index, i, j) + Readable(log, index, j, k)
  {
    ParseAllConcat(log[i..j], log[j..k], index);
    assert log[i..k] == log[i..j] + log[j..k];
  }

  /** Every parsed entry carries its channel's index and its own id. */
  lemma {:induction false} ParseAllOrigin(entries: seq<Entry>, index: nat)
    ensures forall t :: t in ParseAll(entries, index) ==>
      t.index == index && t.envelope.eventId.Stamp? && exists e :: e in entries && e.id == t.envelope.eventId.id
  {
    if entries != [] {
      ParseAllOrigin(entries[1..], index);
      assert entries[0] in entries;
    }
  }

  /** In an ordered log, the entries at or before an id are exactly the first `After(log, id)`. */
  lemma {:induction false} AfterSplits(log: Log, id: StreamId)
    requires Ordered(log)
    ensures forall i :: 0 <= i < After(log, id) ==> Compare(log[i].id, id) <= 0
    ensures forall i :: After(log, id) <= i < |log| ==> Compare(log[i].id, id) > 0
  {
    if log != [] && Compare(log[0].id, id) <= 0 {
      AfterSplits(log[1..], id);
      forall i | 0 < i < |log| ensures log[i] == log[1..][i - 1] {}
    }
  }

  lemma AfterIs(log: Log, id: StreamId, n: nat)
    requires Ordered(log) && n <= |log|
    requires n > 0 ==> Compare(log[n - 1].id, id) <= 0
    requires n < |log| ==> Compare(log[n].id, id) > 0
    ensures After(log, id) == n
  {
    AfterSplits(log, id);
  }

  lemma SliceOrdered(log: Log, from: nat, to: nat)
    requires Ordered(log) && from <= to <= |log|
    ensures Ordered(log[from..to])
  {
  }

  /** An entry as a reader hands it on: what was stored, under the id it was stored with. */
  predicate Carries(t: Tagged, index: nat, entry: Entry) {
    && entry.body.Sealed? && t.index == index
    && t.envelope.eventId == Stamp(entry.id)
    && t.envelope.payload == entry.body.envelope.payload
    && t.envelope.conforms == entry.body.envelope.conforms
  }

  /** What parses is exactly what the envelopes among the entries carry: their payloads, under their own ids. */
  lemma {:induction false} ParsedExactly(entries: seq<Entry>, index: nat)
    ensures forall t :: t in ParseAll(entries, index) <==> exists e :: e in entries && Carries(t, index, e)
  {
    if entries != [] {
      ParsedExactly(entries[1..], index);
      forall t ensures t in ParseAll(entries, index) <==> exists e :: e in entries && Carries(t, index, e) {
        if e :| e in entries && Carries(t, index, e) {
          assert e == entries[0] || e in entries[1..];
        }
        if t in ParseAll(entries, index) {
          ParsedHead(entries, index, t);
        }
      }
    }
  }

  lemma ParsedHead(entries: seq<Entry>, index: nat, t: Tagged)
    requires entries != [] && t in ParseAll(entries, index)
    ensures Carries(t, index, entries[0]) || t in ParseAll(entries[1..], index)
    ensures entries[0] in entries && forall e :: e in entries[1..] ==> e in entries
  {
  }

  /** The position of an id among the entries still held. */
  lemma AfterInSlice(log: Log, id: StreamId, from: nat, to: nat)
    requires Ordered(log) && from <= to <= |log|
    ensures After(log[from..to], id) == Max(from, Min(After(log, id), to)) - from
  {
    AfterSplits(log, id);
    SliceOrdered(log, from, to);
    AfterIs(log[from..to], id, Max(from, Min(After(log, id), to)) - from);
  }

  /** A range read of the entries held is a slice of the log. */
  lemma RangeIsSlice(log: Log, after: StreamId, trimmed: nat, published: nat, count: nat)
    requires Ordered(log) && trimmed <= published <= |log|
    ensures var n := After(log, after);
      RangeAfter(log[trimmed..published], after, count)
      == (if published <= n then [] else log[Max(trimmed, n)..Min(Max(trimmed, n) + count, published)])
  {
    AfterInSlice(log, after, trimmed, published);
    var n, held := After(log, after), log[trimmed..published];
    var from := After(held, after);
    var to := Min(from + count, |held|);
    if published <= n {
      assert from == |held| == to;
    } else {
      SliceOfSlice(log, trimmed, published, from, to);
      assert trimmed + from == Max(trimmed, n) && trimmed + to == Min(Max(trimmed, n) + count, published);
    }
  }

  /** What the replay of a channel returns is what parses between the two positions. */
  lemma ReplayIsReadable(log: Log, index: nat, after: StreamId, read: ChannelRead)
    requires Ordered(log) && ValidRead(log, read)
    requires ReplayChannel(log, index, after, read).Ok?
    ensures ReplayChannel(log, index, after, read).value
         == Readable(log, index, ReplayFrom(log, after, read), ReplayTo(log, after, read))
  {
    if read.Read? {
      RangeIsSlice(log, after, read.trimmed2, read.published2, RESUME_MAXLEN);
    }
  }
}
