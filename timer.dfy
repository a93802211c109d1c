/**
 * `timer::cumulative_timer` of src/utils.hpp: a counter of measured periods
 * (`uint32_t periods`), their accumulated length in nanoseconds
 * (`uint64_t duration`) and the clock reading taken by the last `start`
 * (`uint64_t timestamp`). The clock `timer::ns()` is read by the caller and
 * passed in as `now`. Unsigned arithmetic wraps, and is written out as such.
 */
module Timer {

  const U32_LIMIT: int := 0x1_0000_0000
  const U64_LIMIT: int := 0x1_0000_0000_0000_0000

  type uint32 = x: int | 0 <= x < 0x1_0000_0000
  type uint64 = x: int | 0 <= x < 0x1_0000_0000_0000_0000

  /** The three fields of the timer, as a value. */
  datatype TimerState = TimerState(periods: uint32, duration: uint64, timestamp: uint64)

  /** `reset()`: zero the counters; the last timestamp is kept. */
  function AfterReset(s: TimerState): (r: TimerState)
    ensures r.periods == 0 && r.duration == 0 && r.timestamp == s.timestamp
  {
    s.(periods := 0, duration := 0)
  }

  /** `start()`: one more period (modulo 2^32), and remember the clock reading. */
  function AfterStart(s: TimerState, now: uint64): (r: TimerState)
    ensures r.periods == (s.periods + 1) % U32_LIMIT
    ensures r.timestamp == now && r.duration == s.duration
  {
    s.(periods := (s.periods + 1) % U32_LIMIT, timestamp := now)
  }

  /**
   * `stop()`: add the time since the last start. Both the difference and the
   * sum are unsigned 64-bit operations, so both wrap.
   */
  function AfterStop(s: TimerState, now: uint64): (r: TimerState)
    ensures r.duration == (s.duration + (now - s.timestamp) % U64_LIMIT) % U64_LIMIT
    ensures r.periods == s.periods && r.timestamp == s.timestamp
  {
    s.(duration := (s.duration + (now - s.timestamp) % U64_LIMIT) % U64_LIMIT)
  }

  /** One measured interval: the clock readings passed to `start` and to the next `stop`. */
  datatype Interval = Interval(begin: uint64, end: uint64)

  /** The state after `start(begin); stop(end)` for each interval in turn. */
  function Measure(s: TimerState, intervals: seq<Interval>): TimerState
    decreases |intervals|
  {
    if intervals == [] then s
    else Measure(AfterStop(AfterStart(s, intervals[0].begin), intervals[0].end), intervals[1..])
  }

  /** The sum of the interval lengths as unsigned 64-bit differences, without wrapping the sum. */
  function WrappedLengths(intervals: seq<Interval>): nat
  {
    if intervals == [] then 0
    else (intervals[0].end - intervals[0].begin) % U64_LIMIT + WrappedLengths(intervals[1..])
  }

  /** The sum of the interval lengths, for intervals whose clock does not go backwards. */
  function TotalLength(intervals: seq<Interval>): int
  {
    if intervals == [] then 0
    else intervals[0].end - intervals[0].begin + TotalLength(intervals[1..])
  }

  predicate Forward(intervals: seq<Interval>)
  {
    forall k :: 0 <= k < |intervals| ==> intervals[k].begin <= intervals[k].end
  }

  /**
   * Any sequence of start/stop pairs counts its periods modulo 2^32 and its
   * durations modulo 2^64, and leaves the last start's reading in `timestamp`.
   */
  lemma {:induction false} MeasureWraps(s: TimerState, intervals: seq<Interval>)
    ensures Measure(s, intervals).periods == (s.periods + |intervals|) % U32_LIMIT
    ensures Measure(s, intervals).duration == (s.duration + WrappedLengths(intervals)) % U64_LIMIT
    ensures intervals != [] ==> Measure(s, intervals).timestamp == intervals[|intervals| - 1].begin
    ensures intervals == [] ==> Measure(s, intervals).timestamp == s.timestamp
    decreases |intervals|
  {
    if intervals != [] {
      var next := AfterStop(AfterStart(s, intervals[0].begin), intervals[0].end);
      MeasureWraps(next, intervals[1..]);
      var d := (intervals[0].end - intervals[0].begin) % U64_LIMIT;
      ModAddAssoc(s.duration, d, WrappedLengths(intervals[1..]), U64_LIMIT);
      ModAddAssoc(s.periods, 1, |intervals| - 1, U32_LIMIT);
      if |intervals| > 1 {
        assert intervals[1..][|intervals[1..]| - 1] == intervals[|intervals| - 1];
      }
    }
  }

  /** ((a + b) mod m + c) mod m == (a + (b + c)) mod m. */
  lemma {:induction false} ModAddAssoc(a: nat, b: nat, c: nat, m: int)
    requires m > 0
    ensures ((a + b) % m + c) % m == (a + (b + c)) % m
  {
    var q1, r1 := (a + b) / m, (a + b) % m;
    var q2, r2 := (r1 + c) / m, (r1 + c) % m;
    assert a + (b + c) == (q1 + q2) * m + r2;
    ModUnique(a + (b + c), m, q1 + q2, r2);
  }

  /** The remainder is the r of any decomposition y == q * m + r with 0 <= r < m. */
  lemma {:induction false} ModUnique(y: int, m: int, q: int, r: int)
    requires m > 0 && 0 <= r < m && y == q * m + r
    ensures y % m == r
  {
    var k := q - y / m;
    assert k * m == y % m - r;
    MultipleOutsideBand(k, m);
  }

  /** A non-zero multiple of m lies outside (-m, m). */
  lemma {:induction false} MultipleOutsideBand(k: int, m: int)
    requires m > 0
    ensures k >= 1 ==> k * m >= m
    ensures k <= -1 ==> k * m <= -m
  {
    if k >= 1 {
      assert k * m == (k - 1) * m + m;
    } else if k <= -1 {
      assert k * m == (k + 1) * m - m;
    }
  }

  /** For intervals that run forwards, each wrapped difference is the true length. */
  lemma {:induction false} ForwardLengths(intervals: seq<Interval>)
    requires Forward(intervals)
    ensures WrappedLengths(intervals) == TotalLength(intervals)
  {
    if intervals != [] {
      assert Forward(intervals[1..]) by {
        forall k | 0 <= k < |intervals| - 1 ensures intervals[1..][k].begin <= intervals[1..][k].end {
          assert intervals[1..][k] == intervals[k + 1];
        }
      }
      ForwardLengths(intervals[1..]);
    }
  }

  /**
   * Starting from a reset timer, n start/stop pairs whose clock runs forwards
   * and that do not overflow the counters give `periods == n` and `duration`
   * equal to the sum of the interval lengths.
   */
  lemma {:induction false} MeasureFromReset(s: TimerState, intervals: seq<Interval>)
    requires Forward(intervals)
    requires |intervals| < U32_LIMIT && TotalLength(intervals) < U64_LIMIT
    ensures Measure(AfterReset(s), intervals).periods == |intervals|
    ensures Measure(AfterReset(s), intervals).duration == TotalLength(intervals)
  {
    MeasureWraps(AfterReset(s), intervals);
    ForwardLengths(intervals);
  }

  /** The timer object; its methods change the three fields as the functions above say. */
  class CumulativeTimer {
    var periods: uint32
    var duration: uint64
    var timestamp: uint64

    function State(): TimerState
      reads this
    {
      TimerState(periods, duration, timestamp)
    }

    /** Construction calls `reset()`; `timestamp` is left uninitialised. */
    constructor ()
      ensures periods == 0 && duration == 0
    {
      periods, duration := 0, 0;
    }

    method Reset()
      modifies this
      ensures State() == AfterReset(old(State()))
      ensures periods == 0 && duration == 0 && timestamp == old(timestamp)
    {
      periods := 0;
      duration := 0;
    }

    method Start(now: uint64)
      modifies this
      ensures State() == AfterStart(old(State()), now)
      ensures periods == (old(periods) + 1) % U32_LIMIT && timestamp == now && duration == old(duration)
    {
      periods := (periods + 1) % U32_LIMIT;
      timestamp := now;
    }

    method Stop(now: uint64)
      modifies this
      ensures State() == AfterStop(old(State()), now)
      ensures duration == (old(duration) + (now - old(timestamp)) % U64_LIMIT) % U64_LIMIT
      ensures periods == old(periods) && timestamp == old(timestamp)
    {
      var timestampNow := now;
      duration := (duration + (timestampNow - timestamp) % U64_LIMIT) % U64_LIMIT;
    }
  }
}
