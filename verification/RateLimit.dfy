/** The fixed-window rate limit of the proxy, per client address. */
module RateLimit {
  import opened Basics

  const WINDOW_MS: nat := 60 * 60 * 1000
  const MAX_REQUESTS: nat := 1000

  datatype Record = Record(count: nat, resetTime: nat)

  datatype Verdict = Admitted | Limited(retryAfter: int)

  /** Seconds until the window ends, rounded up. */
  function RetryAfter(record: Record, now: nat): int {
    (record.resetTime - now + 999) / 1000
  }

  /** One address: its record and the verdict on a request. */
  function Decide(record: Option<Record>, now: nat): (Record, Verdict) {
    if record.None? || now > record.value.resetTime then (Record(1, now + WINDOW_MS), Admitted)
    else if record.value.count >= MAX_REQUESTS then (record.value, Limited(RetryAfter(record.value, now)))
    else (record.value.(count := record.value.count + 1), Admitted)
  }

  type Records = map<string, Record>

  function Find(records: Records, ip: string): Option<Record> {
    if ip in records then Some(records[ip]) else None
  }

  /** The records once a request of an address has been looked at. */
  function Served(records: Records, ip: string, now: nat): Records {
    records[ip := Decide(Find(records, ip), now).0]
  }

  class RateLimiter {
    var records: Records

    constructor ()
      ensures records == map[]
    {
      records := map[];
    }

    function Get(ip: string): Option<Record>
      reads this
    {
      Find(records, ip)
    }

    /** A request of one address changes no other address's record. */
    method Check(ip: string, now: nat) returns (verdict: Verdict)
      modifies this
      ensures records == Served(old(records), ip, now)
      ensures Get(ip) == Some(Decide(old(Get(ip)), now).0) && verdict == Decide(old(Get(ip)), now).1
      ensures forall other :: other != ip ==> Get(other) == old(Get(other))
    {
      if ip !in records || now > records[ip].resetTime {
        records := records[ip := Record(1, now + WINDOW_MS)];
        verdict := Admitted;
      } else if records[ip].count >= MAX_REQUESTS {
        var left := records[ip].resetTime - now;
        verdict := Limited((left + 999) / 1000);
      } else {
        records := records[ip := records[ip].(count := records[ip].count + 1)];
        verdict := Admitted;
      }
    }
  }

  // ----- one address over a run of requests

  function RecordAfter(record: Option<Record>, times: seq<nat>): Option<Record>
    decreases times
  {
    if times == [] then record
    else Some(Decide(RecordAfter(record, times[..|times| - 1]), times[|times| - 1]).0)
  }

  predicate IsAdmitted(times: seq<nat>, k: nat)
    requires k < |times|
  {
    Decide(RecordAfter(None, times[..k]), times[k]).1.Admitted?
  }

  ghost predicate NeverBack(times: seq<nat>) {
    forall i, j | 0 <= i < j < |times| :: times[i] <= times[j]
  }

  /** How many requests with a time from `from` to `to` were admitted. */
  function AdmittedIn(times: seq<nat>, from: int, to: int): nat {
    if times == [] then 0
    else
      var last := |times| - 1;
      AdmittedIn(times[..last], from, to) + (if from <= times[last] <= to && IsAdmitted(times, last) then 1 else 0)
  }

  // ----- windows

  /** A window: when it started, and how many requests have been admitted in it. */
  datatype Window = Window(start: nat, admitted: nat)

  /** One more admitted in the last window. */
  function Counted(windows: seq<Window>): seq<Window>
    requires windows != []
  {
    var n := |windows| - 1;
    windows[n := windows[n].(admitted := windows[n].admitted + 1)]
  }

  /** The windows once another request has come, given the record it finds. */
  function NextWindows(before: seq<Window>, record: Option<Record>, now: nat): seq<Window> {
    if record.None? || now > record.value.resetTime || before == [] then before + [Window(now, 1)]
    else if Decide(record, now).1.Admitted? then Counted(before)
    else before
  }

  /** The windows a run has gone through, oldest first. */
  function Windows(times: seq<nat>): seq<Window>
    decreases times
  {
    if times == [] then []
    else
      var last := |times| - 1;
      NextWindows(Windows(times[..last]), RecordAfter(None, times[..last]), times[last])
  }

  ghost predicate Apart(windows: seq<Window>) {
    && (forall i | 0 <= i < |windows| :: 1 <= windows[i].admitted <= MAX_REQUESTS)
    && (forall i | 0 < i < |windows| :: windows[i - 1].start + WINDOW_MS < windows[i].start)
  }

  lemma ExtendApart(windows: seq<Window>, start: nat)
    requires Apart(windows) && (windows != [] ==> windows[|windows| - 1].start + WINDOW_MS < start)
    ensures Apart(windows + [Window(start, 1)])
  {
  }

  lemma OneMoreApart(windows: seq<Window>)
    requires Apart(windows) && windows != [] && windows[|windows| - 1].admitted < MAX_REQUESTS
    ensures Apart(Counted(windows))
  {
  }

  /** The record is that of the latest window, which the latest request fell in, and the windows lie apart. */
  ghost predicate InStep(windows: seq<Window>, record: Option<Record>, now: nat) {
    && windows != [] && Apart(windows)
    && record == Some(Record(windows[|windows| - 1].admitted, windows[|windows| - 1].start + WINDOW_MS))
    && windows[|windows| - 1].start <= now <= windows[|windows| - 1].start + WINDOW_MS
  }

  lemma StaysInStep(windows: seq<Window>, record: Option<Record>, before: nat, now: nat)
    requires InStep(windows, record, before) && before <= now
    ensures InStep(NextWindows(windows, record, now), Some(Decide(record, now).0), now)
  {
    var next := NextWindows(windows, record, now);
    if now > record.value.resetTime {
      ExtendApart(windows, now);
      assert next == windows + [Window(now, 1)];
    } else if record.value.count < MAX_REQUESTS {
      OneMoreApart(windows);
      assert next == Counted(windows);
    } else {
      assert next == windows;
    }
  }

  lemma {:induction false} RecordIsLastWindow(times: seq<nat>)
    requires NeverBack(times) && times != []
    ensures InStep(Windows(times), RecordAfter(None, times), times[|times| - 1])
    decreases times
  {
    var last := |times| - 1;
    if last > 0 {
      RecordIsLastWindow(times[..last]);
      StaysInStep(Windows(times[..last]), RecordAfter(None, times[..last]), times[last - 1], times[last]);
    }
  }

  lemma {:induction false} NoneAdmittedBefore(times: seq<nat>, from: int, to: int)
    requires forall k :: 0 <= k < |times| ==> times[k] < from
    ensures AdmittedIn(times, from, to) == 0
  {
    if times != [] {
      NoneAdmittedBefore(times[..|times| - 1], from, to);
    }
  }

  /** The record's count is exactly the number of requests admitted in its window, and never over the limit. */
  lemma {:induction false} CountIsExact(times: seq<nat>)
    requires NeverBack(times) && times != []
    ensures var record := RecordAfter(None, times).value;
      && 1 <= record.count <= MAX_REQUESTS
      && record.count == AdmittedIn(times, record.resetTime - WINDOW_MS, record.resetTime)
    decreases times
  {
    var last := |times| - 1;
    RecordIsLastWindow(times);
    if last > 0 {
      RecordIsLastWindow(times[..last]);
      CountIsExact(times[..last]);
      var record := RecordAfter(None, times[..last]).value;
      if times[last] > record.resetTime {
        assert forall k :: 0 <= k < last ==> times[k] <= times[last - 1] <= record.resetTime;
        NoneAdmittedBefore(times[..last], times[last], times[last] + WINDOW_MS);
      }
    }
  }

  /** A request is limited exactly when its window has had its limit already. */
  lemma LimitedExactly(times: seq<nat>, now: nat)
    requires NeverBack(times + [now]) && times != []
    ensures var record := RecordAfter(None, times).value;
      Decide(Some(record), now).1.Limited? <==>
        now <= record.resetTime && AdmittedIn(times, record.resetTime - WINDOW_MS, record.resetTime) >= MAX_REQUESTS
  {
    assert forall i :: 0 <= i < |times| ==> times[i] == (times + [now])[i];
    CountIsExact(times);
  }

  // ----- any span of one window's length

  predicate Meets(w: Window, from: int) {
    w.start <= from + WINDOW_MS && from <= w.start + WINDOW_MS
  }

  function AdmittedByWindows(windows: seq<Window>, from: int): nat {
    if windows == [] then 0
    else
      AdmittedByWindows(windows[..|windows| - 1], from)
      + (if Meets(windows[|windows| - 1], from) then windows[|windows| - 1].admitted else 0)
  }

  /** What was admitted in a span was admitted by the windows that meet it. */
  lemma {:induction false} SpanWithinWindows(times: seq<nat>, from: int)
    requires NeverBack(times)
    ensures AdmittedIn(times, from, from + WINDOW_MS) <= AdmittedByWindows(Windows(times), from)
    decreases times
  {
    if times != [] {
      var last := |times| - 1;
      SpanWithinWindows(times[..last], from);
      WindowsStep(times);
      var before, windows := Windows(times[..last]), Windows(times);
      if |windows| > |before| {
        OpenedByWindows(before, Window(times[last], 1), from);
      } else if windows != before {
        CountedByWindows(before, from);
      }
    }
  }

  lemma OpenedByWindows(windows: seq<Window>, w: Window, from: int)
    ensures AdmittedByWindows(windows + [w], from) ==
      AdmittedByWindows(windows, from) + (if Meets(w, from) then w.admitted else 0)
  {
    assert (windows + [w])[..|windows|] == windows;
  }

  lemma CountedByWindows(windows: seq<Window>, from: int)
    requires windows != []
    ensures AdmittedByWindows(Counted(windows), from)
         == AdmittedByWindows(windows, from) + (if Meets(windows[|windows| - 1], from) then 1 else 0)
  {
    var n := |windows| - 1;
    assert Counted(windows)[..n] == windows[..n];
  }

  /** A request opens a window, is counted in the last one, or is refused. */
  lemma WindowsStep(times: seq<nat>)
    requires NeverBack(times) && times != []
    ensures var last := |times| - 1;
      var before := Windows(times[..last]);
      if IsAdmitted(times, last) then
        || Windows(times) == before + [Window(times[last], 1)]
        || (before != [] && Windows(times) == Counted(before)
            && before[|before| - 1].start <= times[last] <= before[|before| - 1].start + WINDOW_MS)
      else Windows(times) == before
  {
    var last := |times| - 1;
    if last > 0 {
      RecordIsLastWindow(times[..last]);
      assert times[last - 1] <= times[last];
    }
  }

  /** At most two windows meet a span no longer than one. */
  lemma {:induction false} TwoWindowsMeet(windows: seq<Window>, from: int)
    requires Apart(windows)
    ensures AdmittedByWindows(windows, from) <= 2 * MAX_REQUESTS
    ensures windows != [] && windows[|windows| - 1].start <= from ==> AdmittedByWindows(windows, from) <= MAX_REQUESTS
    ensures windows != [] && windows[|windows| - 1].start + WINDOW_MS < from ==> AdmittedByWindows(windows, from) == 0
  {
    if windows != [] {
      var n := |windows| - 1;
      TwoWindowsMeet(windows[..n], from);
      assert n > 0 ==> windows[n - 1].start + WINDOW_MS < windows[n].start;
    }
  }

  /** In any span of a window's length at most twice the limit of one address is admitted. */
  lemma SpanBounded(times: seq<nat>, from: int)
    requires NeverBack(times)
    ensures AdmittedIn(times, from, from + WINDOW_MS) <= 2 * MAX_REQUESTS
  {
    SpanWithinWindows(times, from);
    if times != [] {
      RecordIsLastWindow(times);
    }
    TwoWindowsMeet(Windows(times), from);
  }

  // ----- addresses mixed

  /** The records after requests of any addresses, each an address and a time. */
  function ServedAll(requests: seq<(string, nat)>): Records {
    if requests == [] then map[]
    else
      var last := requests[|requests| - 1];
      Served(ServedAll(requests[..|requests| - 1]), last.0, last.1)
  }

  /** The times of one address's requests. */
  function TimesOf(requests: seq<(string, nat)>, ip: string): seq<nat> {
    if requests == [] then []
    else
      var last := requests[|requests| - 1];
      TimesOf(requests[..|requests| - 1], ip) + (if last.0 == ip then [last.1] else [])
  }

  predicate WasAdmitted(requests: seq<(string, nat)>, k: nat)
    requires k < |requests|
  {
    Decide(Find(ServedAll(requests[..k]), requests[k].0), requests[k].1).1.Admitted?
  }

  /** How many of one address's requests with a time from `from` to `to` were admitted. */
  function AdmittedOf(requests: seq<(string, nat)>, ip: string, from: int, to: int): nat {
    if requests == [] then 0
    else
      var k := |requests| - 1;
      AdmittedOf(requests[..k], ip, from, to)
      + (if requests[k].0 == ip && from <= requests[k].1 <= to && WasAdmitted(requests, k) then 1 else 0)
  }

  ghost predicate ClockNeverBack(requests: seq<(string, nat)>) {
    forall i, j | 0 <= i < j < |requests| :: requests[i].1 <= requests[j].1
  }

  /** What an address's record is, and how many of its requests are admitted, is its own requests' doing alone. */
  lemma {:induction false} AddressesApart(requests: seq<(string, nat)>, ip: string, from: int, to: int)
    ensures Find(ServedAll(requests), ip) == RecordAfter(None, TimesOf(requests, ip))
    ensures AdmittedOf(requests, ip, from, to) == AdmittedIn(TimesOf(requests, ip), from, to)
  {
    if requests != [] {
      var k := |requests| - 1;
      var before := requests[..k];
      AddressesApart(before, ip, from, to);
      if requests[k].0 == ip {
        var times := TimesOf(requests, ip);
        assert times[..|times| - 1] == TimesOf(before, ip) && times[|times| - 1] == requests[k].1;
      } else {
        assert TimesOf(requests, ip) == TimesOf(before, ip);
      }
    }
  }

  lemma {:induction false} TimeIsOfARequest(requests: seq<(string, nat)>, ip: string, i: nat) returns (j: nat)
    requires i < |TimesOf(requests, ip)|
    ensures j < |requests| && requests[j].1 == TimesOf(requests, ip)[i]
  {
    var k := |requests| - 1;
    if i < |TimesOf(requests[..k], ip)| {
      j := TimeIsOfARequest(requests[..k], ip, i);
    } else {
      j := k;
    }
  }

  lemma {:induction false} TimesClimb(requests: seq<(string, nat)>, ip: string)
    requires ClockNeverBack(requests)
    ensures NeverBack(TimesOf(requests, ip))
  {
    if requests != [] {
      var k := |requests| - 1;
      var before := TimesOf(requests[..k], ip);
      TimesClimb(requests[..k], ip);
      forall i | 0 <= i < |before| ensures before[i] <= requests[k].1 {
        var j := TimeIsOfARequest(requests[..k], ip, i);
        assert requests[j].1 <= requests[k].1;
      }
    }
  }

  lemma CountOf(times: seq<nat>, record: Record)
    requires NeverBack(times) && RecordAfter(None, times) == Some(record)
    ensures 1 <= record.count <= MAX_REQUESTS
    ensures record.count == AdmittedIn(times, record.resetTime - WINDOW_MS, record.resetTime)
  {
    CountIsExact(times);
  }

  lemma EveryRecordIsExact(requests: seq<(string, nat)>, ip: string)
    requires ClockNeverBack(requests) && ip in ServedAll(requests)
    ensures var record := ServedAll(requests)[ip];
      && 1 <= record.count <= MAX_REQUESTS
      && record.count == AdmittedOf(requests, ip, record.resetTime - WINDOW_MS, record.resetTime)
  {
    var record := ServedAll(requests)[ip];
    TimesClimb(requests, ip);
    AddressesApart(requests, ip, record.resetTime - WINDOW_MS, record.resetTime);
    CountOf(TimesOf(requests, ip), record);
  }

  /**
   * Over any requests of any addresses in any mix: an address's record counts exactly its
   * admitted requests of its window, and of no address more than twice the limit is admitted
   * in any span of a window's length.
   */
  lemma EveryAddressIsLimited(requests: seq<(string, nat)>, ip: string, from: int)
    requires ClockNeverBack(requests)
    ensures AdmittedOf(requests, ip, from, from + WINDOW_MS) <= 2 * MAX_REQUESTS
    ensures ip in ServedAll(requests) ==>
      var record := ServedAll(requests)[ip];
      && 1 <= record.count <= MAX_REQUESTS
      && record.count == AdmittedOf(requests, ip, record.resetTime - WINDOW_MS, record.resetTime)
  {
    TimesClimb(requests, ip);
    AddressesApart(requests, ip, from, from + WINDOW_MS);
    SpanBounded(TimesOf(requests, ip), from);
    if ip in ServedAll(requests) {
      EveryRecordIsExact(requests, ip);
    }
  }

  // ----- the retry hint

  /**
   * A limited client that waits just as long as it is told is let in if and only if the
   * window did not end on a whole second from then; else its window has one instant left.
   */
  lemma RetryHintExactly(record: Record, now: nat)
    requires now <= record.resetTime && record.count >= MAX_REQUESTS
    ensures var hint := Decide(Some(record), now).1.retryAfter;
      && hint >= 0
      && (Decide(Some(record), now + hint * 1000).1.Admitted? <==> (record.resetTime - now) % 1000 != 0)
      && Decide(Some(record), now + hint * 1000 + 1).1.Admitted?
  {
  }

  /** Told to wait five seconds, five seconds before its window ends, a client is refused once more. */
  lemma RefusedOnceMore()
    ensures var record, now := Record(MAX_REQUESTS, WINDOW_MS), WINDOW_MS - 5000;
      && Decide(Some(record), now).1 == Limited(5)
      && Decide(Some(record), now + 5 * 1000).1.Limited?
  {
    RetryHintExactly(Record(MAX_REQUESTS, WINDOW_MS), WINDOW_MS - 5000);
  }
}
