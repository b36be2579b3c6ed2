/**
The bandwidth limit (`handle_io` in `ftpdataio.c`), in exact arithmetic. After every read or
write on the data connection the rate since the start of the window is compared with the
limit; if it is higher, the process pauses. The window starts again after each call.
*/
module RateLimit {

  /** One call of the handler for `bytes` transferred bytes, at the time `now`; `rate` is what the
      conversion to an unsigned int made of the rate, `pause` the pause that is asked for, and `after`
      the time at its end. Times are in seconds. */
  datatype Callback = Callback(bytes: int, now: real, rate: int, pause: real, after: real)

  const UINT_MAX := 4294967295
  const UINT_MAX_PLUS_1: real := 4294967296.0

  /** The time since the start of the window; a clock that has not advanced counts as 0.01 s. */
  function Elapsed(start: real, now: real): (e: real)
    ensures e > 0.0
  {
    if now - start <= 0.0 then 0.01 else now - start
  }

  /** The rate in bytes per second, truncated. */
  function Rate(bytes: int, elapsed: real): int
    requires elapsed > 0.0
  {
    (bytes as real / elapsed).Floor
  }

  /** The rate fits into an `unsigned int`; otherwise its conversion is undefined in C, and may
      give any value. */
  predicate InRange(bytes: int, elapsed: real)
    requires elapsed > 0.0
  {
    bytes as real / elapsed < UINT_MAX_PLUS_1
  }

  function Pause(max: int, rate: int, elapsed: real): real
    requires max > 0
  {
    (rate as real / max as real - 1.0) * elapsed
  }

  /** What the clock, the conversion and the sleep allow: the clock does not go back, and a pause
      lasts at least as long as asked for. */
  ghost predicate Possible(max: int, start: real, c: Callback)
    requires max > 0
  {
    var e := Elapsed(start, c.now);
    && c.bytes > 0
    && start <= c.now
    && 0 <= c.rate <= UINT_MAX
    && (InRange(c.bytes, e) ==> c.rate == Rate(c.bytes, e))
    && c.pause == (if c.rate > max then Pause(max, c.rate, e) else 0.0)
    && (c.rate > max ==> c.after >= c.now + c.pause)
  }

  /** The start of the next window. */
  ghost function Next(max: int, c: Callback): real {
    if c.rate <= max then c.now else c.after
  }

  /** The clock did not advance. */
  ghost function Slack(start: real, c: Callback): real {
    if c.now <= start then 0.01 else 0.0
  }

  lemma Scale(a: real, b: real, c: real)
    requires a <= b && c >= 0.0
    ensures a * c <= b * c
  {
  }

  lemma ScaleStrictly(a: real, b: real, c: real)
    requires a < b && c > 0.0
    ensures a * c < b * c
  {
  }

  lemma QuotientAtLeastOne(r: real, m: real)
    requires r >= m > 0.0
    ensures r / m >= 1.0
  {
    var q := r / m;
    assert q * m == r;
    if q < 1.0 { ScaleStrictly(q, 1.0, m); }
  }

  lemma Distribute(m: real, t: real, u: real)
    ensures m * t + m * u == m * (t + u)
  {
  }

  /** The bytes that `t` seconds are good for: the limit and one byte per second more. */
  ghost function Allowance(max: int, t: real): real {
    (max as real + 1.0) * t
  }

  lemma AllowanceAdds(max: int, t: real, u: real)
    ensures Allowance(max, t) + Allowance(max, u) == Allowance(max, t + u)
  {
    Distribute(max as real + 1.0, t, u);
  }

  lemma AllowanceGrows(max: int, t: real, u: real)
    requires max > 0 && t <= u
    ensures Allowance(max, t) <= Allowance(max, u)
  {
    Scale(t, u, max as real + 1.0);
  }

  lemma RateBrackets(bytes: int, e: real)
    requires e > 0.0
    ensures Rate(bytes, e) as real * e <= bytes as real < (Rate(bytes, e) as real + 1.0) * e
  {
    Bracket(bytes as real, e, Rate(bytes, e) as real);
  }

  lemma Bracket(b: real, e: real, r: real)
    requires e > 0.0 && r <= b / e < r + 1.0
    ensures r * e <= b < (r + 1.0) * e
  {
    var q, s := b / e, r + 1.0;
    assert q * e == b;
    Scale(r, q, e);
    ScaleStrictly(q, s, e);
    assert b < s * e;
  }

  /** After a pause the window is long enough for one byte per second over the limit. */
  lemma PauseIsLongEnough(max: int, rate: int, e: real)
    requires 0 < max < rate && e > 0.0
    ensures (rate as real + 1.0) * e <= Allowance(max, e + Pause(max, rate, e))
  {
    var m, r := max as real, rate as real;
    var x := r / m * e;
    assert e + Pause(max, rate, e) == x;
    assert x * m == r * e by { assert r / m * m == r; }
    QuotientAtLeastOne(r, m);
    Scale(1.0, r / m, e);
    assert (m + 1.0) * x == r * e + x;
    Distribute(e, r, 1.0);
    assert (r + 1.0) * e == r * e + e <= r * e + x;
  }

  /** One call: the bytes are below the limit, and one byte per second more, for the time from
      one window start to the next. */
  ghost predicate Bounded(max: int, start: real, c: Callback) {
    c.bytes as real < Allowance(max, Next(max, c) - start + Slack(start, c))
  }

  lemma CallbackBound(max: int, start: real, c: Callback)
    requires max > 0 && Possible(max, start, c) && InRange(c.bytes, Elapsed(start, c.now))
    ensures Bounded(max, start, c)
  {
    var e := Elapsed(start, c.now);
    var w := Next(max, c) - start + Slack(start, c);
    RateBrackets(c.bytes, e);
    if c.rate <= max {
      assert w == e;
      LowRateIsAllowed(max, c.rate, e);
    } else {
      PauseIsLongEnough(max, c.rate, e);
      hide Allowance;
      AllowanceGrows(max, e + Pause(max, c.rate, e), w);
    }
  }

  /** The pause makes the window just so long that the rate comes down to the limit. */
  lemma PauseIsExact(max: int, rate: int, e: real)
    requires max > 0
    ensures max as real * (e + Pause(max, rate, e)) == rate as real * e
  {
    var m, r := max as real, rate as real;
    var x := r / m * e;
    assert e + Pause(max, rate, e) == x;
    assert x * m == r * e by { assert r / m * m == r; }
  }

  /** So it is not too long either: if it ends when it should, no fewer bytes have been moved than the
      limit allows for the time from one window start to the next. */
  lemma PauseIsNotTooLong(max: int, start: real, c: Callback)
    requires max > 0 && Possible(max, start, c) && InRange(c.bytes, Elapsed(start, c.now))
    requires c.rate > max && c.after == c.now + c.pause
    ensures c.bytes as real >= max as real * (Next(max, c) - start + Slack(start, c))
  {
    var e := Elapsed(start, c.now);
    RateBrackets(c.bytes, e);
    PauseIsExact(max, c.rate, e);
    assert Next(max, c) - start + Slack(start, c) == e + c.pause;
  }

  /** A rate that is out of range and comes out as zero passes for a low one. */
  lemma ZeroIsTooMuch(max: int, start: real, c: Callback)
    requires 0 < max <= UINT_MAX && c.bytes > 0 && c.rate == 0 && c.pause == 0.0
    requires !InRange(c.bytes, Elapsed(start, c.now))
    requires start <= c.now
    ensures Possible(max, start, c) && !Bounded(max, start, c)
  {
    var e := Elapsed(start, c.now);
    assert Next(max, c) - start + Slack(start, c) == e;
    TooFast(max, c.bytes as real, e);
  }

  lemma TooFast(max: int, b: real, e: real)
    requires 0 < max <= UINT_MAX && e > 0.0 && b / e >= UINT_MAX_PLUS_1
    ensures b >= Allowance(max, e)
  {
    var q := b / e;
    assert q * e == b;
    Scale(UINT_MAX_PLUS_1, q, e);
    Scale(max as real + 1.0, UINT_MAX_PLUS_1, e);
  }

  /** The bound holds for whatever the conversion gives and however long the pause lasts, if and
      only if the rate is in range. */
  lemma BoundIffInRange(max: int, start: real, bytes: int, now: real)
    requires 0 < max <= UINT_MAX && bytes > 0 && start <= now
    ensures (forall rate, pause, after :: Possible(max, start, Callback(bytes, now, rate, pause, after)) ==>
               Bounded(max, start, Callback(bytes, now, rate, pause, after)))
            <==> InRange(bytes, Elapsed(start, now))
  {
    hide Possible, Bounded, InRange;
    if InRange(bytes, Elapsed(start, now)) {
      forall rate, pause, after | Possible(max, start, Callback(bytes, now, rate, pause, after))
        ensures Bounded(max, start, Callback(bytes, now, rate, pause, after))
      {
        CallbackBound(max, start, Callback(bytes, now, rate, pause, after));
      }
    } else {
      ZeroIsTooMuch(max, start, Callback(bytes, now, 0, 0.0, now));
    }
  }

  lemma LowRateIsAllowed(max: int, rate: int, e: real)
    requires rate <= max && e > 0.0
    ensures (rate as real + 1.0) * e <= Allowance(max, e)
  {
    Scale(rate as real + 1.0, max as real + 1.0, e);
  }

  // ----- whole runs

  ghost predicate PossibleRun(max: int, start: real, cs: seq<Callback>)
    requires max > 0
    decreases |cs|
  {
    cs == [] || (Possible(max, start, cs[0]) && PossibleRun(max, Next(max, cs[0]), cs[1..]))
  }

  /** The start of the window after all of `cs`. */
  ghost function End(max: int, start: real, cs: seq<Callback>): real
    decreases |cs|
  {
    if cs == [] then start else End(max, Next(max, cs[0]), cs[1..])
  }

  /** The bytes of the calls whose rate is in range. */
  ghost function BytesInRange(max: int, start: real, cs: seq<Callback>): int
    decreases |cs|
  {
    if cs == [] then 0
    else
      (if InRange(cs[0].bytes, Elapsed(start, cs[0].now)) then cs[0].bytes else 0)
      + BytesInRange(max, Next(max, cs[0]), cs[1..])
  }

  ghost function TotalSlack(max: int, start: real, cs: seq<Callback>): real
    decreases |cs|
  {
    if cs == [] then 0.0 else Slack(start, cs[0]) + TotalSlack(max, Next(max, cs[0]), cs[1..])
  }

  lemma WindowsGoOn(max: int, start: real, c: Callback)
    requires max > 0 && Possible(max, start, c)
    ensures Next(max, c) >= start
  {
    if c.rate > max {
      var m, r, e := max as real, c.rate as real, Elapsed(start, c.now);
      QuotientAtLeastOne(r, m);
      Scale(0.0, r / m - 1.0, e);
    }
  }

  lemma AllowanceIsPositive(max: int, t: real)
    requires max > 0 && t >= 0.0
    ensures Allowance(max, t) >= 0.0
  {
    Scale(0.0, t, max as real + 1.0);
  }

  /** Any consecutive calls, from any state of the window on: the bytes of all those in range are
      below the limit plus one, times the time between the first and the last window start, with
      0.01 s more for every call at which the clock had not advanced. */
  lemma {:induction false} RunBound(max: int, start: real, cs: seq<Callback>)
    requires max > 0 && PossibleRun(max, start, cs)
    ensures var bytes, t := BytesInRange(max, start, cs), End(max, start, cs) - start + TotalSlack(max, start, cs);
      if bytes > 0 then bytes as real < Allowance(max, t) else bytes == 0 && Allowance(max, t) >= 0.0
    decreases |cs|
  {
    if cs == [] {
      AllowanceIsPositive(max, 0.0);
    } else {
      var c, next, rest := cs[0], Next(max, cs[0]), cs[1..];
      RunBound(max, next, rest);
      WindowsGoOn(max, start, c);
      AllowanceIsPositive(max, next - start + Slack(start, c));
      if InRange(c.bytes, Elapsed(start, c.now)) { CallbackBound(max, start, c); }
      hide Allowance;
      AllowanceAdds(max, next - start + Slack(start, c), End(max, next, rest) - next + TotalSlack(max, next, rest));
    }
  }

  /** A buffer of 65536 bytes sent within 15 microseconds is out of range. */
  lemma FullBufferCanBeOutOfRange()
    ensures !InRange(65536, 0.000015) && InRange(65536, 0.000016)
  {
  }

  // ----- the handler

  class Session {
    /** `bw_rate_max`: 0 for no limit. */
    const bwRateMax: nat
    /** `bw_send_start_sec` and `bw_send_start_usec`. */
    var bwSendStart: real
    var clock: real
    var dataProgress: bool
    /** All the time that it has asked to sleep. */
    ghost var slept: real

    constructor (max: nat, now: real)
      ensures bwRateMax == max && bwSendStart == clock == now && !dataProgress
    {
      bwRateMax, bwSendStart, clock, dataProgress := max, now, now, false;
      slept := 0.0;
    }

    /** Time passes. */
    method Wait()
      modifies `clock
      ensures clock >= old(clock)
    {
      var more: real := *;
      if more >= 0.0 { clock := clock + more; }
    }

    /** `vsf_sysutil_sleep`: at least as long as asked for. */
    method Sleep(pause: real)
      modifies `clock, `slept
      ensures clock >= old(clock) && clock >= old(clock) + pause
      ensures slept == old(slept) + pause
    {
      Wait();
      if pause >= 0.0 { clock := clock + pause; }
      slept := slept + pause;
    }

    /** The conversion of a `double` to an `unsigned int`. */
    static method ToUnsigned(x: real) returns (r: int)
      ensures 0 <= r <= UINT_MAX && (0.0 <= x < UINT_MAX_PLUS_1 ==> r == x.Floor)
    {
      if 0.0 <= x < UINT_MAX_PLUS_1 { return x.Floor; }
      r := *;
      if r < 0 || r > UINT_MAX { r := 0; }
    }

    /** `handle_io`. Calls for another descriptor, for errors and for an end of file do nothing.
        Any other call is one of those in `RunBound`. */
    method HandleIo(retval: int, sameFd: bool) returns (ghost c: Callback)
      requires bwSendStart <= clock
      modifies this
      ensures clock >= old(clock) && bwSendStart <= clock
      ensures dataProgress == (old(dataProgress) || (sameFd && retval > 0))
      ensures !sameFd || retval <= 0 || bwRateMax == 0 ==> bwSendStart == old(bwSendStart) && slept == old(slept)
      ensures sameFd && retval > 0 && bwRateMax > 0 ==>
        && c.bytes == retval && old(clock) <= c.now
        && Possible(bwRateMax, old(bwSendStart), c)
        && bwSendStart == Next(bwRateMax, c) && slept == old(slept) + c.pause
    {
      c := Callback(retval, clock, 0, 0.0, clock);
      if !sameFd || retval < 0 || retval == 0 { return; }
      dataProgress := true;
      if bwRateMax == 0 { return; }
      Wait();
      var curr := clock;
      var elapsed := curr - bwSendStart;
      if elapsed <= 0.0 { elapsed := 0.01; }
      PositiveQuotient(retval as real, elapsed);
      var bwRate := ToUnsigned(retval as real / elapsed);
      c := Callback(retval, curr, bwRate, 0.0, curr);
      if bwRate <= bwRateMax {
        bwSendStart := curr;
        return;
      }
      var pauseTime := (bwRate as real / bwRateMax as real - 1.0) * elapsed;
      Sleep(pauseTime);
      bwSendStart := clock;
      c := Callback(retval, curr, bwRate, pauseTime, clock);
    }
  }

  lemma PositiveQuotient(x: real, y: real)
    requires x >= 0.0 && y > 0.0
    ensures x / y >= 0.0
  {
    var q := x / y;
    assert q * y == x;
    if q < 0.0 { ScaleStrictly(q, 0.0, y); }
  }
}
