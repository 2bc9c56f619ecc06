/** Stream ids: the `<ms>-<seq>` pairs Redis gives to the entries of a stream. */
module StreamIds {

  datatype StreamId = StreamId(ms: nat, ordinal: nat)

  /** The cursor of a channel of which no entry has been received; below every entry's id. */
  const ZERO_STREAM_ID := StreamId(0, 0)

  /** Entries a replay reads per channel. */
  const RESUME_MAXLEN: nat := 1000

  /** How many seconds after its last write a stream expires. */
  const RESUME_TTL_SECONDS: nat := 86_400

  function Compare(a: StreamId, b: StreamId): int {
    if a.ms != b.ms then (if a.ms < b.ms then -1 else 1)
    else if a.ordinal != b.ordinal then (if a.ordinal < b.ordinal then -1 else 1)
    else 0
  }

  /** Whether a stream last written at this id would be gone by now; the zero timestamp never counts as such. */
  predicate IsExpired(id: StreamId, now: nat) {
    id.ms != 0 && now - id.ms > RESUME_TTL_SECONDS * 1_000
  }

  /** The order of ids is total and strict, by time first and by ordinal within it; only an id itself compares equal. */
  lemma CompareOrders(a: StreamId, b: StreamId, c: StreamId)
    ensures Compare(a, b) == 0 <==> a == b
    ensures Compare(a, b) < 0 <==> a.ms < b.ms || (a.ms == b.ms && a.ordinal < b.ordinal)
    ensures Compare(a, b) < 0 <==> Compare(b, a) > 0
    ensures Compare(a, b) < 0 && Compare(b, c) < 0 ==> Compare(a, c) < 0
  {
  }

  /** A cursor is too old exactly when it names an entry of more than a day ago; one that has seen nothing never is. */
  lemma ExpiresExactly(id: StreamId, now: nat)
    ensures IsExpired(id, now) <==> id.ms > 0 && now > id.ms + 24 * 60 * 60 * 1000
    ensures !IsExpired(ZERO_STREAM_ID, now)
  {
  }
}
