/** The fixed-window counter store behind `checkRateLimit` and
    `checkFloodProtection`: one process-wide map from `rate_<ip>` and
    `flood_<ip>` to a counter record. Time is the integer `now`, in
    milliseconds, that the source reads from `Date.now()`. */
module Counters {
  import opened Wrappers

  /** `RateLimitData`: admissions counted in the current window, the instant
      the window closes, and the rate-limit violations seen in it. */
  datatype CounterRecord = CounterRecord(count: nat, resetAt: int, strikes: nat)

  function RateKey(ip: string): string {
    "rate_" + ip
  }

  function FloodKey(ip: string): string {
    "flood_" + ip
  }

  /** The rate and flood checks never share a record, and each address has
      its own record of each kind. */
  lemma KeysAreDistinct(a: string, b: string)
    ensures RateKey(a) != FloodKey(b)
    ensures RateKey(a) == RateKey(b) ==> a == b
    ensures FloodKey(a) == FloodKey(b) ==> a == b
  {
    assert RateKey(a)[0] == 'r' && FloodKey(b)[0] == 'f';
    if RateKey(a) == RateKey(b) {
      assert a == RateKey(a)[5..];
    }
    if FloodKey(a) == FloodKey(b) {
      assert a == FloodKey(a)[6..];
    }
  }

  function Get(records: map<string, CounterRecord>, key: string): Option<CounterRecord> {
    if key in records then Some(records[key]) else None
  }

  /** A window is still running unless there is no record or its end lies
      strictly before `now`. */
  predicate WindowOpen(data: Option<CounterRecord>, now: int) {
    data.Some? && !(data.value.resetAt < now)
  }

  /** `Math.min(strikes * 5, 60)`: the advisory block, in minutes. */
  function BlockMinutes(strikes: nat): (m: int)
    ensures strikes >= 1 ==> 5 <= m <= 60
    ensures m <= strikes * 5 && m <= 60
    ensures m == strikes * 5 || m == 60
  {
    if strikes * 5 < 60 then strikes * 5 else 60
  }

  /** One check: the record it stores and the verdict it returns. */
  datatype Step = Step(record: CounterRecord, result: CheckResult)

  /** `checkRateLimit(ip, limit, windowMs)` on the record `data` at `now`. */
  function RateStep(data: Option<CounterRecord>, limit: int, windowMs: int, now: int): (s: Step)
    ensures !WindowOpen(data, now) ==> s == Step(CounterRecord(1, now + windowMs, 0), Allowed)
    ensures s.result.Allowed? <==> !WindowOpen(data, now) || data.value.count < limit
    ensures s.result.Allowed? && WindowOpen(data, now) ==>
              s.record == data.value.(count := data.value.count + 1)
    ensures s.result.Denied? ==>
              && s.record == data.value.(strikes := data.value.strikes + 1)
              && s.result.reason == "Rate limit exceeded"
              && s.result.blockDuration == Some(BlockMinutes(s.record.strikes))
              && 5 <= s.result.blockDuration.value <= 60
  {
    if !WindowOpen(data, now) then
      Step(CounterRecord(1, now + windowMs, 0), Allowed)
    else if data.value.count >= limit then
      var d := data.value.(strikes := data.value.strikes + 1);
      Step(d, Denied("Rate limit exceeded", Some(BlockMinutes(d.strikes))))
    else
      Step(data.value.(count := data.value.count + 1), Allowed)
  }

  /** `checkFloodProtection(ip, maxRequests, windowMs)` on the record `data`
      at `now`: the same window, but a denial stores nothing and always
      advises 15 minutes. */
  function FloodStep(data: Option<CounterRecord>, maxRequests: int, windowMs: int, now: int): (s: Step)
    ensures !WindowOpen(data, now) ==> s == Step(CounterRecord(1, now + windowMs, 0), Allowed)
    ensures s.result.Allowed? <==> !WindowOpen(data, now) || data.value.count < maxRequests
    ensures s.result.Allowed? && WindowOpen(data, now) ==>
              s.record == data.value.(count := data.value.count + 1)
    ensures s.result.Denied? ==>
              s == Step(data.value, Denied("Flood protection triggered", Some(15)))
  {
    if !WindowOpen(data, now) then
      Step(CounterRecord(1, now + windowMs, 0), Allowed)
    else if data.value.count >= maxRequests then
      Step(data.value, Denied("Flood protection triggered", Some(15)))
    else
      Step(data.value.(count := data.value.count + 1), Allowed)
  }

  /** Both checks keep `count <= limit` once it holds (a positive limit is
      what every caller passes): a fresh window starts at 1 and the count
      only grows while it is below the limit. */
  lemma CountStaysBounded(data: Option<CounterRecord>, limit: int, windowMs: int, now: int)
    requires limit >= 1
    requires data.Some? ==> data.value.count <= limit
    ensures RateStep(data, limit, windowMs, now).record.count <= limit
    ensures FloodStep(data, limit, windowMs, now).record.count <= limit
  {
  }

  // ---------------------------------------------------------------------
  // Successive calls for one address

  /** The verdicts of successive rate checks for one address at the
      instants `calls`, starting from the record `data`. */
  function RateRun(data: Option<CounterRecord>, limit: int, windowMs: int, calls: seq<int>): (results: seq<CheckResult>)
    ensures |results| == |calls|
    decreases |calls|
  {
    if calls == [] then []
    else
      var s := RateStep(data, limit, windowMs, calls[0]);
      [s.result] + RateRun(Some(s.record), limit, windowMs, calls[1..])
  }

  /** How many of `results` admitted the request. */
  function Admitted(results: seq<CheckResult>): nat {
    if results == [] then 0
    else (if results[0].Allowed? then 1 else 0) + Admitted(results[1..])
  }

  /** Inside a window that is already running, the `i`-th further call is
      admitted exactly while the count has room, and every call after that
      is denied with one more strike than the one before it, so the advised
      block grows 5, 10, ... up to 60 minutes. */
  lemma {:induction false} OpenWindowRun(r: CounterRecord, limit: int, windowMs: int, calls: seq<int>)
    requires r.count <= limit
    requires forall i :: 0 <= i < |calls| ==> !(r.resetAt < calls[i])
    ensures forall i :: 0 <= i < |calls| ==>
              (RateRun(Some(r), limit, windowMs, calls)[i].Allowed? <==> r.count + i < limit)
    ensures forall i :: 0 <= i < |calls| && r.count + i >= limit ==>
              RateRun(Some(r), limit, windowMs, calls)[i] ==
              Denied("Rate limit exceeded", Some(BlockMinutes(r.strikes + (r.count + i - limit) + 1)))
    decreases |calls|
  {
    if calls != [] {
      var s := RateStep(Some(r), limit, windowMs, calls[0]);
      var rest := RateRun(Some(s.record), limit, windowMs, calls[1..]);
      assert RateRun(Some(r), limit, windowMs, calls) == [s.result] + rest;
      assert s.record.count <= limit;
      assert s.record.resetAt == r.resetAt;
      OpenWindowRun(s.record, limit, windowMs, calls[1..]);
      if r.count < limit {
        assert s.record == r.(count := r.count + 1);
      } else {
        assert s.record == r.(strikes := r.strikes + 1);
      }
    }
  }

  /** Inside a running window at most `limit - count` further calls are
      admitted. */
  lemma {:induction false} OpenWindowAdmits(r: CounterRecord, limit: int, windowMs: int, calls: seq<int>)
    requires r.count <= limit
    requires forall i :: 0 <= i < |calls| ==> !(r.resetAt < calls[i])
    ensures Admitted(RateRun(Some(r), limit, windowMs, calls)) <= limit - r.count
    decreases |calls|
  {
    if calls != [] {
      var s := RateStep(Some(r), limit, windowMs, calls[0]);
      var rest := RateRun(Some(s.record), limit, windowMs, calls[1..]);
      assert RateRun(Some(r), limit, windowMs, calls) == [s.result] + rest;
      assert ([s.result] + rest)[1..] == rest;
      OpenWindowAdmits(s.record, limit, windowMs, calls[1..]);
    }
  }

  /** At most `limit` calls are admitted per window: when the first call
      opens a window and every later call falls before it closes, no more
      than `limit` of them are admitted, whatever their order. */
  lemma AtMostLimitPerWindow(data: Option<CounterRecord>, limit: int, windowMs: int, calls: seq<int>)
    requires limit >= 1 && |calls| >= 1
    requires !WindowOpen(data, calls[0])
    requires forall i :: 0 <= i < |calls| ==> calls[i] <= calls[0] + windowMs
    ensures Admitted(RateRun(data, limit, windowMs, calls)) <= limit
  {
    var s := RateStep(data, limit, windowMs, calls[0]);
    var rest := RateRun(Some(s.record), limit, windowMs, calls[1..]);
    assert RateRun(data, limit, windowMs, calls) == [s.result] + rest;
    assert ([s.result] + rest)[1..] == rest;
    OpenWindowAdmits(s.record, limit, windowMs, calls[1..]);
  }

  /** With the shared limits (30 per 60000 ms), an address with no history
      that submits 31 times within one minute is admitted 30 times and then
      throttled with an advised block of 5 minutes (one strike). */
  lemma ThirtyFirstIsThrottled(calls: seq<int>)
    requires |calls| == 31
    requires forall i :: 0 <= i < 31 ==> calls[0] <= calls[i] <= calls[0] + 60000
    ensures forall i :: 0 <= i < 30 ==> RateRun(None, 30, 60000, calls)[i].Allowed?
    ensures RateRun(None, 30, 60000, calls)[30] == Denied("Rate limit exceeded", Some(5))
  {
    var first := CounterRecord(1, calls[0] + 60000, 0);
    var tail := calls[1..];
    var rest := RateRun(Some(first), 30, 60000, tail);
    var run := RateRun(None, 30, 60000, calls);
    assert run == [Allowed] + rest by {
      assert RateStep(None, 30, 60000, calls[0]) == Step(first, Allowed);
    }
    assert forall i :: 0 <= i < 30 ==>
             (rest[i].Allowed? <==> 1 + i < 30) &&
             (1 + i >= 30 ==> rest[i] == Denied("Rate limit exceeded", Some(BlockMinutes(1 + i - 29)))) by {
      assert forall i :: 0 <= i < |tail| ==> tail[i] == calls[i + 1];
      OpenWindowRun(first, 30, 60000, tail);
    }
    forall i | 1 <= i < 30
      ensures run[i].Allowed?
    {
      assert run[i] == rest[i - 1];
    }
    assert run[30] == rest[29];
  }

  /** The record left behind by successive rate checks at the instants
      `calls`, starting from `data`. */
  function RateLast(data: Option<CounterRecord>, limit: int, windowMs: int, calls: seq<int>): Option<CounterRecord>
    decreases |calls|
  {
    if calls == [] then data
    else RateLast(Some(RateStep(data, limit, windowMs, calls[0]).record), limit, windowMs, calls[1..])
  }

  /** Checks made one after another: the verdicts for `a + b` are those for
      `a`, then those for `b` from the record `a` left behind. */
  lemma {:induction false} RateRunAppend(data: Option<CounterRecord>, limit: int, windowMs: int, a: seq<int>, b: seq<int>)
    ensures RateRun(data, limit, windowMs, a + b) ==
            RateRun(data, limit, windowMs, a) + RateRun(RateLast(data, limit, windowMs, a), limit, windowMs, b)
    decreases |a|
  {
    if a != [] {
      var s := RateStep(data, limit, windowMs, a[0]);
      assert (a + b)[0] == a[0] && (a + b)[1..] == a[1..] + b;
      RateRunAppend(Some(s.record), limit, windowMs, a[1..], b);
    } else {
      assert a + b == b;
    }
  }

  /** Checks inside a running window never move its end. */
  lemma {:induction false} OpenWindowKeepsEnd(r: CounterRecord, limit: int, windowMs: int, calls: seq<int>)
    requires forall i :: 0 <= i < |calls| ==> !(r.resetAt < calls[i])
    ensures RateLast(Some(r), limit, windowMs, calls).Some?
    ensures RateLast(Some(r), limit, windowMs, calls).value.resetAt == r.resetAt
    decreases |calls|
  {
    if calls != [] {
      var s := RateStep(Some(r), limit, windowMs, calls[0]);
      assert s.record.resetAt == r.resetAt;
      OpenWindowKeepsEnd(s.record, limit, windowMs, calls[1..]);
    }
  }

  /** The window is fixed, not rolling: an address with no history that
      calls once at `t`, `limit - 1` times at `t + windowMs` (the last
      instant of that window) and `limit` times one millisecond later is
      admitted all `2 * limit` times, so `2 * limit - 1` admissions fall
      within a single millisecond. */
  lemma BoundaryAdmitsTwiceTheLimit(limit: int, windowMs: int, t: int)
    requires limit >= 1 && windowMs >= 0
    ensures var calls := [t] + seq(limit - 1, _ => t + windowMs) + seq(limit, _ => t + windowMs + 1);
            |calls| == 2 * limit &&
            forall i :: 0 <= i < |calls| ==> RateRun(None, limit, windowMs, calls)[i].Allowed?
  {
    var a := [t] + seq(limit - 1, _ => t + windowMs);
    var b := seq(limit, _ => t + windowMs + 1);
    var first := CounterRecord(1, t + windowMs, 0);
    var tailA := a[1..];
    // The first window: the opening call and `limit - 1` more before it ends.
    var runA := RateRun(None, limit, windowMs, a);
    assert runA == [Allowed] + RateRun(Some(first), limit, windowMs, tailA);
    OpenWindowRun(first, limit, windowMs, tailA);
    assert forall i :: 0 <= i < |a| ==> runA[i].Allowed? by {
      forall i | 1 <= i < |a|
        ensures runA[i].Allowed?
      {
        assert runA[i] == RateRun(Some(first), limit, windowMs, tailA)[i - 1];
      }
    }
    // The record it leaves still ends at `t + windowMs`, so the next call
    // opens a fresh window.
    assert RateLast(None, limit, windowMs, a) == RateLast(Some(first), limit, windowMs, tailA);
    OpenWindowKeepsEnd(first, limit, windowMs, tailA);
    var last := RateLast(None, limit, windowMs, a);
    var second := CounterRecord(1, t + windowMs + 1 + windowMs, 0);
    var runB := RateRun(last, limit, windowMs, b);
    assert runB == [Allowed] + RateRun(Some(second), limit, windowMs, b[1..]);
    assert forall j :: 0 <= j < |b| - 1 ==> b[1..][j] == t + windowMs + 1;
    OpenWindowRun(second, limit, windowMs, b[1..]);
    assert forall j :: 0 <= j < |b| ==> runB[j].Allowed? by {
      forall j | 1 <= j < |b|
        ensures runB[j].Allowed?
      {
        assert runB[j] == RateRun(Some(second), limit, windowMs, b[1..])[j - 1];
      }
    }
    RateRunAppend(None, limit, windowMs, a, b);
  }

  // ---------------------------------------------------------------------
  // The store

  /** The module-level `rateLimitStore` map. Each endpoint process has its
      own; the shared security module's one holds both kinds of key. */
  class CounterStore {
    var records: map<string, CounterRecord>

    constructor ()
      ensures records == map[]
    {
      records := map[];
    }

    /** `checkRateLimit`: touches the `rate_` record of `ip` only. */
    method CheckRateLimit(ip: string, limit: int, windowMs: int, now: int) returns (r: CheckResult)
      modifies this
      ensures var s := RateStep(Get(old(records), RateKey(ip)), limit, windowMs, now);
              r == s.result && records == old(records)[RateKey(ip) := s.record]
    {
      var key := RateKey(ip);
      if key !in records || records[key].resetAt < now {
        records := records[key := CounterRecord(1, now + windowMs, 0)];
        return Allowed;
      }
      var data := records[key];
      if data.count >= limit {
        data := data.(strikes := data.strikes + 1);
        records := records[key := data];
        var blockDuration := if data.strikes * 5 < 60 then data.strikes * 5 else 60;
        return Denied("Rate limit exceeded", Some(blockDuration));
      }
      records := records[key := data.(count := data.count + 1)];
      return Allowed;
    }

    /** `checkFloodProtection`: touches the `flood_` record of `ip` only, and
      a denial leaves the store as it was. */
    method CheckFloodProtection(ip: string, maxRequests: int, windowMs: int, now: int) returns (r: CheckResult)
      modifies this
      ensures var s := FloodStep(Get(old(records), FloodKey(ip)), maxRequests, windowMs, now);
              r == s.result && records == old(records)[FloodKey(ip) := s.record]
      ensures r.Denied? ==> records == old(records)
    {
      var key := FloodKey(ip);
      if key !in records || records[key].resetAt < now {
        records := records[key := CounterRecord(1, now + windowMs, 0)];
        return Allowed;
      }
      var data := records[key];
      if data.count >= maxRequests {
        return Denied("Flood protection triggered", Some(15));
      }
      records := records[key := data.(count := data.count + 1)];
      return Allowed;
    }
  }
}
