/** The leaky bucket (modules/ratelim/src/ratelim.c). Rates are tokens per hour, times are seconds. */
module RateLimit {
  import opened Bits

  const HOUR := 3600

  // -------------------------------------------------------------- products and quotients

  /** a * b, in the form the proofs about schedules can step through. */
  function Times(a: nat, b: nat): nat {
    if a == 0 then 0 else Times(a - 1, b) + b
  }

  /** a / b */
  function Over(a: nat, b: nat): nat
    requires b > 0
  {
    if a < b then 0 else 1 + Over(a - b, b)
  }

  lemma {:induction false} TimesIs(a: nat, b: nat)
    ensures Times(a, b) == a * b
  {
    if a > 0 {
      TimesIs(a - 1, b);
    }
  }

  lemma {:induction false} OverIs(a: nat, b: nat)
    requires b > 0
    ensures Over(a, b) == a / b
  {
    if a >= b {
      OverIs(a - b, b);
      var q, r := (a - b) / b, (a - b) % b;
      assert a - b == b * q + r;
      assert b * (q + 1) == b * q + b;
      DivideUnique(a, b, q + 1, r);
    } else {
      DivideUnique(a, b, 0, a);
    }
  }

  lemma {:induction false} TimesAdd(a: nat, b: nat, c: nat)
    ensures Times(a + b, c) == Times(a, c) + Times(b, c)
  {
    if b > 0 {
      TimesAdd(a, b - 1, c);
    }
  }

  lemma {:induction false} TimesMonotone(a: nat, b: nat, c: nat)
    requires a <= b
    ensures Times(a, c) <= Times(b, c)
  {
    if a < b {
      TimesMonotone(a, b - 1, c);
    }
  }

  /** The quotient is the most that fits. */
  lemma {:induction false} OverFits(a: nat, b: nat)
    requires b > 0
    ensures Times(Over(a, b), b) <= a < Times(Over(a, b), b) + b
  {
    if a >= b {
      OverFits(a - b, b);
    }
  }

  // ------------------------------------------------------------------------ leaking

  /** What leaks when `buffer` seconds are saved up: buffer * rate / 3600. */
  function Leak(rate: nat, buffer: nat): nat {
    Times(buffer, rate) / HOUR
  }

  /** The seconds that are left over: buffer - leaked * 3600 / rate. */
  function Left(rate: nat, buffer: nat): nat {
    if Leak(rate, buffer) == 0 then buffer
    else LeftFits(rate, buffer); buffer - Over(HOUR * Leak(rate, buffer), rate)
  }

  lemma LeftFits(rate: nat, buffer: nat)
    requires Leak(rate, buffer) > 0
    ensures rate > 0 && Over(HOUR * Leak(rate, buffer), rate) <= buffer
  {
    var l := Leak(rate, buffer);
    if rate == 0 {
      TimesIs(buffer, 0);
      assert false;
    }
    OverFits(HOUR * l, rate);
    if Over(HOUR * l, rate) > buffer {
      TimesMonotone(buffer + 1, Over(HOUR * l, rate), rate);
    }
  }

  /** What leaks over a schedule of updates, each `steps[i]` seconds after the one before. */
  function Leaked(rate: nat, buffer: nat, steps: seq<nat>): nat {
    if steps == [] then 0
    else
      var before := steps[..|steps| - 1];
      Leaked(rate, buffer, before) + LeakStep(rate, Saved(rate, buffer, before), steps[|steps| - 1])
  }

  /** The seconds saved up after it. */
  function Saved(rate: nat, buffer: nat, steps: seq<nat>): nat {
    if steps == [] then buffer else LeftStep(rate, Saved(rate, buffer, steps[..|steps| - 1]), steps[|steps| - 1])
  }

  /** An update at the same second does nothing. */
  function LeakStep(rate: nat, buffer: nat, elapsed: nat): nat {
    if elapsed == 0 then 0 else Leak(rate, buffer + elapsed)
  }

  function LeftStep(rate: nat, buffer: nat, elapsed: nat): nat {
    if elapsed == 0 then buffer else Left(rate, buffer + elapsed)
  }

  function Total(steps: seq<nat>): nat {
    if steps == [] then 0 else Total(steps[..|steps| - 1]) + steps[|steps| - 1]
  }

  /** The rate divides the hour, or the hour the rate. */
  predicate Divides(rate: nat) {
    (rate > 0 && Times(Over(HOUR, rate), rate) == HOUR) || Times(Over(rate, HOUR), HOUR) == rate
  }

  lemma DividesIs(rate: nat)
    ensures Divides(rate) <==> (rate > 0 && HOUR % rate == 0) || rate % HOUR == 0
  {
    if rate > 0 {
      OverIs(HOUR, rate);
      TimesIs(HOUR / rate, rate);
      assert HOUR == rate * (HOUR / rate) + HOUR % rate;
    }
    OverIs(rate, HOUR);
    TimesIs(rate / HOUR, HOUR);
  }

  /** The time that an update takes out of the buffer is worth at most what leaks, and exactly that when
      one of the rate and the hour divides the other. */
  lemma LeftWorth(rate: nat, buffer: nat)
    ensures Times(buffer, rate) <= HOUR * Leak(rate, buffer) + Times(Left(rate, buffer), rate)
    ensures Times(buffer, rate) < HOUR * (Leak(rate, buffer) + 1)
    ensures Divides(rate) ==> Times(buffer, rate) == HOUR * Leak(rate, buffer) + Times(Left(rate, buffer), rate)
  {
    var l := Leak(rate, buffer);
    if l > 0 {
      LeftFits(rate, buffer);
      var q := Over(HOUR * l, rate);
      OverFits(HOUR * l, rate);
      TimesAdd(buffer - q, q, rate);
      if Divides(rate) {
        ExactQuotient(rate, buffer);
      }
    }
  }

  lemma ExactQuotient(rate: nat, buffer: nat)
    requires Divides(rate) && Leak(rate, buffer) > 0
    ensures rate > 0 && Times(Over(HOUR * Leak(rate, buffer), rate), rate) == HOUR * Leak(rate, buffer)
  {
    LeftFits(rate, buffer);
    TimesIs(buffer, rate);
    var l := Leak(rate, buffer);
    var q := DividesLeak(rate, buffer, l);
    DivideUnique(HOUR * l, rate, q, 0);
    OverIs(HOUR * l, rate);
    TimesIs(q, rate);
  }

  lemma DividesLeak(rate: nat, buffer: nat, l: nat) returns (q: nat)
    requires Divides(rate) && rate > 0 && l == buffer * rate / HOUR
    ensures HOUR * l == rate * q
  {
    DividesIs(rate);
    if HOUR % rate == 0 {
      var k := HOUR / rate;
      assert HOUR == rate * k;
      q := k * l;
      assert HOUR * l == rate * (k * l);
    } else {
      var m := rate / HOUR;
      assert rate == HOUR * m;
      assert buffer * rate == HOUR * (buffer * m);
      DivideUnique(buffer * rate, HOUR, buffer * m, 0);
      q := buffer;
    }
  }

  // ------------------------------------------------------------------ over a schedule

  /** The accounts of a schedule that begins with `buffer` seconds saved up. */
  lemma {:induction false} Accounts(rate: nat, buffer: nat, steps: seq<nat>)
    ensures Times(buffer + Total(steps), rate) <= HOUR * Leaked(rate, buffer, steps)
            + Times(Saved(rate, buffer, steps), rate)
    ensures Times(buffer, rate) < HOUR ==> Times(buffer + Total(steps), rate) < HOUR * (Leaked(rate, buffer, steps) + 1)
  {
    if steps != [] {
      var k := |steps| - 1;
      var e, b := steps[k], Saved(rate, buffer, steps[..k]);
      Accounts(rate, buffer, steps[..k]);
      if e > 0 {
        StepAccount(rate, buffer + Total(steps[..k]), Leaked(rate, buffer, steps[..k]), b, e);
      }
    }
  }

  lemma StepAccount(rate: nat, t: nat, l: nat, b: nat, e: nat)
    requires Times(t, rate) <= HOUR * l + Times(b, rate)
    ensures Times(t + e, rate) <= HOUR * (l + Leak(rate, b + e)) + Times(Left(rate, b + e), rate)
    ensures Times(t + e, rate) < HOUR * (l + Leak(rate, b + e) + 1)
    ensures Divides(rate) && Times(t, rate) == HOUR * l + Times(b, rate) ==>
              Times(t + e, rate) == HOUR * (l + Leak(rate, b + e)) + Times(Left(rate, b + e), rate)
  {
    LeftWorth(rate, b + e);
    TimesAdd(t, e, rate);
    TimesAdd(b, e, rate);
  }

  lemma {:induction false} AccountsExact(rate: nat, buffer: nat, steps: seq<nat>)
    requires Divides(rate)
    ensures Times(buffer + Total(steps), rate) == HOUR * Leaked(rate, buffer, steps)
            + Times(Saved(rate, buffer, steps), rate)
  {
    hide Times, Leak, Left, Divides;
    if steps != [] {
      var k := |steps| - 1;
      var e, b := steps[k], Saved(rate, buffer, steps[..k]);
      AccountsExact(rate, buffer, steps[..k]);
      if e > 0 {
        StepAccount(rate, buffer + Total(steps[..k]), Leaked(rate, buffer, steps[..k]), b, e);
      }
    }
  }

  /** The nominal leakage is never below the rate. */
  lemma NeverBelow(rate: nat, steps: seq<nat>)
    ensures Leaked(rate, 0, steps) >= Total(steps) * rate / HOUR
  {
    Accounts(rate, 0, steps);
    TimesIs(Total(steps), rate);
  }

  /** Whatever the schedule, what leaks is what the time that has passed is worth. */
  ghost predicate Exact(rate: nat) {
    forall steps :: Leaked(rate, 0, steps) == Total(steps) * rate / HOUR
  }

  /** A slow rate that does not divide the hour: after q + 1 seconds one token every q seconds. */
  function Slow(q: nat, n: nat): seq<nat> {
    if n == 0 then [q + 1] else Slow(q, n - 1) + [q]
  }

  lemma {:induction false} SlowLeaks(rate: nat, q: nat, n: nat)
    requires q > 0 && Leak(rate, q + 1) == 1 && Left(rate, q + 1) == 1
    ensures Total(Slow(q, n)) == Times(n + 1, q) + 1
    ensures Leaked(rate, 0, Slow(q, n)) == n + 1 && Saved(rate, 0, Slow(q, n)) == 1
  {
    hide Leak, Left;
    if n == 0 {
      OneStep(rate, [], q + 1);
      assert [] + [q + 1] == [q + 1];
    } else {
      SlowLeaks(rate, q, n - 1);
      OneStep(rate, Slow(q, n - 1), q);
    }
  }

  lemma OneStep(rate: nat, before: seq<nat>, e: nat)
    ensures Total(before + [e]) == Total(before) + e
    ensures Leaked(rate, 0, before + [e]) == Leaked(rate, 0, before) + LeakStep(rate, Saved(rate, 0, before), e)
    ensures Saved(rate, 0, before + [e]) == LeftStep(rate, Saved(rate, 0, before), e)
  {
    assert (before + [e])[..|before|] == before;
  }

  /** q + 1 saved seconds leak one token and leave one second. */
  lemma OneLeaks(rate: nat, q: nat)
    requires 0 < rate < HOUR && q == HOUR / rate && HOUR % rate != 0
    ensures q > 0 && Leak(rate, q + 1) == 1 && Left(rate, q + 1) == 1
  {
    var t := HOUR % rate;
    assert HOUR == rate * q + t;
    assert (q + 1) * rate == HOUR - t + rate;
    TimesIs(q + 1, rate);
    OverIs(HOUR, rate);
    assert q == 0 ==> rate * q == 0;
  }

  lemma SlowIsEarly(rate: nat)
    requires 0 < rate < HOUR && HOUR % rate != 0
    ensures !Exact(rate)
  {
    hide Slow, Total, Leaked, Saved, Leak, Left, Times;
    var q := HOUR / rate;
    var s := Slow(q, rate);
    OneLeaks(rate, q);
    SlowLeaks(rate, q, rate);
    TimesIs(rate + 1, q);
    assert Total(s) == q * (rate + 1) + 1;
    SlowIsWorthLess(rate, q);
    assert Leaked(rate, 0, s) != Total(s) * rate / HOUR;
  }

  lemma SlowIsWorthLess(rate: nat, q: nat)
    requires 0 < rate < HOUR && q == HOUR / rate && HOUR % rate != 0
    ensures (q * (rate + 1) + 1) * rate / HOUR < rate + 1
  {
    var t, k := HOUR % rate, rate + 1;
    assert HOUR == rate * q + t;
    var x := (q * k + 1) * rate;
    assert x == k * (rate * q) + rate;
    assert k * (rate * q) == k * (HOUR - t);
    assert k * (HOUR - t) == k * HOUR - k * t;
    MulMonotone(k, 1, t);
    assert x < HOUR * k;
    Quotient(x, k);
  }

  lemma Quotient(x: nat, k: nat)
    requires x < HOUR * k
    ensures x / HOUR < k
  {
  }

  /** A fast rate that is no multiple of the hour: two updates a second apart leak too much. */
  lemma FastIsEarly(rate: nat)
    requires rate > HOUR && rate % HOUR != 0
    ensures !Exact(rate)
  {
    var m, t := rate / HOUR, rate % HOUR;
    assert rate == HOUR * m + t;
    TimesIs(1, rate);
    TimesIs(2, rate);
    assert Leak(rate, 1) == m && m >= 1;
    assert Left(rate, 1) == 1;
    assert [1, 1][..1] == [1] && [1][..0] == [];
    assert Saved(rate, 0, [1]) == 1 && Leaked(rate, 0, [1]) == m;
    assert Leaked(rate, 0, [1, 1]) == m + Leak(rate, 2);
    assert Total([1]) == 1 && Total([1, 1]) == 2;
  }

  /** The leakage is exact for these rates and no others. */
  lemma ExactWhen(rate: nat)
    ensures Exact(rate) <==> (rate > 0 && HOUR % rate == 0) || rate % HOUR == 0
  {
    DividesIs(rate);
    if Divides(rate) {
      forall steps ensures Leaked(rate, 0, steps) == Total(steps) * rate / HOUR {
        NeverBelow(rate, steps);
        NeverAbove(rate, steps);
      }
    } else if rate < HOUR {
      SlowIsEarly(rate);
    } else {
      FastIsEarly(rate);
    }
  }

  /** In seconds: by the second a bucket leaks its rate every second, and by the minute every sixty, however the updates
      divide the time. */
  lemma InSeconds(leakRate: nat, steps: seq<nat>)
    ensures Leaked(leakRate * 3600, 0, steps) == Total(steps) * leakRate
    ensures Leaked(60, 0, steps) == Total(steps) / 60
    ensures Leaked(1, 0, steps) == Total(steps) / 3600
  {
    hide Leaked, Total;
    var t := Total(steps);
    DivideUnique(leakRate * 3600, 3600, leakRate, 0);
    ExactWhen(leakRate * 3600);
    ExactWhen(60);
    ExactWhen(1);
    Sixtieth(t);
    WholeTokens(t, leakRate);
  }

  lemma Sixtieth(t: nat)
    ensures t * 60 / 3600 == t / 60
  {
    var q, r := t / 60, t % 60;
    assert t * 60 == 3600 * q + 60 * r;
    DivideUnique(t * 60, 3600, q, 60 * r);
  }

  lemma WholeTokens(t: nat, leakRate: nat)
    ensures t * (leakRate * 3600) / 3600 == t * leakRate
  {
    assert t * (leakRate * 3600) == 3600 * (t * leakRate);
    DivideUnique(t * (leakRate * 3600), 3600, t * leakRate, 0);
  }

  lemma NeverAbove(rate: nat, steps: seq<nat>)
    requires Divides(rate)
    ensures Leaked(rate, 0, steps) <= Total(steps) * rate / HOUR
  {
    AccountsExact(rate, 0, steps);
    TimesIs(Total(steps), rate);
  }

  // -------------------------------------------------------------------------- the bucket

  /** The arithmetic of update_bucket. */
  method Drip(rate: nat, saved: nat) returns (leaked: nat, left: nat)
    ensures leaked == Leak(rate, saved) == saved * rate / 3600
    ensures left == Left(rate, saved)
    ensures if leaked == 0 then left == saved else rate > 0 && left == saved - 3600 * leaked / rate
  {
    TimesIs(saved, rate);
    leaked := saved * rate / HOUR;
    left := saved;
    if leaked > 0 {
      LeftFits(rate, saved);
      OverIs(HOUR * leaked, rate);
      left := saved - HOUR * leaked / rate;
    }
  }

  /** A schedule has taken that long, has left these seconds saved up and has leaked that much. */
  ghost predicate Tracks(rate: nat, steps: seq<nat>, time: int, buffer: nat, nominal: nat) {
    time == Total(steps) && buffer == Saved(rate, 0, steps) && nominal == Leaked(rate, 0, steps)
  }

  lemma TracksOn(rate: nat, steps: seq<nat>, time: int, buffer: nat, nominal: nat, e: nat)
    requires Tracks(rate, steps, time, buffer, nominal) && e > 0
    ensures Tracks(rate, steps + [e], time + e, Left(rate, buffer + e), nominal + Leak(rate, buffer + e))
  {
    hide Leak, Left;
    OneStep(rate, steps, e);
  }

  datatype Unit = SECOND | MINUTE | HOURLY

  class Bucket {
    const capacity: nat
    const rate: nat
    var load: nat
    var buffer: nat
    var last: nat
    ghost const origin: nat
    /** The updates since then, the tokens they have leaked, and the tokens granted. */
    ghost var steps: seq<nat>
    ghost var dripped: nat
    ghost var granted: nat
    /** What the updates would have leaked from a bucket that is never empty. */
    ghost var nominal: nat

    ghost predicate Valid()
      reads this
    {
      load <= capacity && granted == load + dripped && Tracks(rate, steps, last - origin, buffer, nominal)
    }

    /** ratelim_init */
    constructor (unit: Unit, cap: nat, leakRate: nat, now: nat)
      ensures Valid() && capacity == cap && load == 0 && granted == 0 && steps == [] && last == now
      ensures rate == match unit case SECOND => leakRate * 3600 case MINUTE => leakRate * 60 case HOURLY => leakRate
    {
      capacity := cap;
      rate := match unit case SECOND => leakRate * HOUR case MINUTE => leakRate * 60 case HOURLY => leakRate;
      load, buffer, last, origin := 0, 0, now, now;
      steps, dripped, granted, nominal := [], 0, 0, 0;
    }

    /** update_bucket */
    method Update(now: nat)
      requires Valid()
      modifies this`load, this`buffer, this`last, this`steps, this`dripped, this`nominal
      ensures Valid()
      ensures now <= old(last) ==>
                && last == old(last) && load == old(load) && steps == old(steps)
                && dripped == old(dripped) && nominal == old(nominal) && buffer == old(buffer)
      ensures now > old(last) ==>
                var saved := old(buffer) + (now - old(last));
                var l := Leak(rate, saved);
                && l == saved * rate / 3600
                && (if l == 0 then buffer == saved else rate > 0 && buffer == saved - 3600 * l / rate)
                && last == now && steps == old(steps) + [now - old(last)]
                && load == (if l >= old(load) then 0 else old(load) - l)
                && dripped <= old(dripped) + l && nominal == old(nominal) + l
    {
      hide Tracks, Leak, Left;
      if now <= last {
        return;
      }
      var elapsed := now - last;
      TracksOn(rate, steps, last - origin, buffer, nominal, elapsed);
      var leaked, left := Drip(rate, buffer + elapsed);
      var drops := if leaked >= load then load else leaked;
      load := load - drops;
      dripped := dripped + drops;
      nominal := nominal + leaked;
      buffer := left;
      steps := steps + [elapsed];
      last := now;
    }

    /** request_token, behind ratelim_request and ratelim_request_format. */
    method RequestOne(now: nat) returns (ok: bool)
      requires Valid()
      modifies this`load, this`buffer, this`last, this`steps, this`dripped, this`nominal, this`granted
      ensures Valid() && granted == old(granted) + if ok then 1 else 0
      ensures var l := LeakStep(rate, old(buffer), if now > old(last) then now - old(last) else 0);
              var left := if l >= old(load) then 0 else old(load) - l;
              ok == (left < capacity) && load == left + if ok then 1 else 0
      ensures dripped - old(dripped) <= nominal - old(nominal)
      ensures |old(steps)| <= |steps| && steps[..|old(steps)|] == old(steps) && old(last) <= last
    {
      hide Tracks, Leak, Left;
      Update(now);
      if load >= capacity {
        return false;
      }
      load := load + 1;
      granted := granted + 1;
      return true;
    }

    /** ratelim_request_ext */
    method Request(n: nat, now: nat) returns (ok: bool)
      requires Valid()
      modifies this`load, this`buffer, this`last, this`steps, this`dripped, this`nominal, this`granted
      ensures Valid() && granted == old(granted) + if ok then n else 0
      ensures n == 0 || n > capacity ==> ok == (n == 0) && steps == old(steps) && load == old(load) && last == old(last)
      ensures 0 < n <= capacity ==>
                var l := LeakStep(rate, old(buffer), if now > old(last) then now - old(last) else 0);
                var left := if l >= old(load) then 0 else old(load) - l;
                ok == (left + n <= capacity) && load == left + if ok then n else 0
      ensures dripped - old(dripped) <= nominal - old(nominal)
      ensures |old(steps)| <= |steps| && steps[..|old(steps)|] == old(steps) && old(last) <= last
    {
      hide Tracks, Leak, Left;
      if n == 0 {
        return true;
      }
      if n > capacity {
        return false;
      }
      Update(now);
      if load + n > capacity {
        return false;
      }
      load := load + n;
      granted := granted + n;
      return true;
    }

    /** ratelim_full */
    method Full(now: nat) returns (full: bool)
      requires Valid()
      modifies this`load, this`buffer, this`last, this`steps, this`dripped, this`nominal
      ensures Valid() && full == (load >= capacity) && granted == old(granted)
      ensures var l := LeakStep(rate, old(buffer), if now > old(last) then now - old(last) else 0);
              load == if l >= old(load) then 0 else old(load) - l
    {
      hide Tracks, Leak, Left;
      Update(now);
      full := load >= capacity;
    }
  }

  /** What leaks after the first steps depends on them only through the seconds they have saved. */
  lemma {:induction false} LeakedOn(rate: nat, before: seq<nat>, window: seq<nat>)
    ensures Leaked(rate, 0, before + window) == Leaked(rate, 0, before) + Leaked(rate, Saved(rate, 0, before), window)
    ensures Saved(rate, 0, before + window) == Saved(rate, Saved(rate, 0, before), window)
  {
    if window == [] {
      assert before + window == before;
    } else {
      var k := |window| - 1;
      assert (before + window)[..|before| + k] == before + window[..k];
      LeakedOn(rate, before, window[..k]);
    }
  }

  /** When the leakage is exact, a window leaks what its time and a residue of less than one token are worth. */
  lemma WindowLeaks(rate: nat, before: seq<nat>, window: seq<nat>)
    requires Divides(rate)
    ensures WindowExact(rate, before, window)
  {
    hide Times, Leaked, Saved, Total, Divides;
    var b := Saved(rate, 0, before);
    TimesIs(0, rate);
    Accounts(rate, 0, before);
    AccountsExact(rate, 0, before);
    Accounts(rate, b, window);
    AccountsExact(rate, b, window);
    LeakedOn(rate, before, window);
    TimesAdd(b, Total(window), rate);
    Floor(Times(Total(window), rate) + Times(b, rate), Leaked(rate, b, window));
  }

  ghost predicate WindowExact(rate: nat, before: seq<nat>, window: seq<nat>) {
    var residue := Times(Saved(rate, 0, before), rate);
    && residue < HOUR
    && Leaked(rate, 0, before + window) - Leaked(rate, 0, before) == (Times(Total(window), rate) + residue) / HOUR
  }

  lemma Floor(x: nat, l: nat)
    requires HOUR * l <= x < HOUR * (l + 1)
    ensures x / HOUR == l
  {
  }

  /** A call of ratelim_request, or of ratelim_request_ext. */
  datatype Asking = One(now: nat) | Several(n: nat, now: nat)

  lemma {:induction false} TotalOn(before: seq<nat>, window: seq<nat>)
    ensures Total(before + window) == Total(before) + Total(window)
  {
    if window == [] {
      assert before + window == before;
    } else {
      var k := |window| - 1;
      assert (before + window)[..|before| + k] == before + window[..k];
      TotalOn(before, window[..k]);
    }
  }

  /** What leaks in a window, from the seconds saved up before it and the time that it takes. */
  lemma WindowWorth(rate: nat, steps: seq<nat>, time: int, buffer: nat, nominal: nat,
                    steps': seq<nat>, time': int, buffer': nat, nominal': nat)
    requires Tracks(rate, steps, time, buffer, nominal) && Tracks(rate, steps', time', buffer', nominal')
    requires |steps| <= |steps'| && steps'[..|steps|] == steps && Divides(rate)
    ensures time <= time' && buffer * rate < HOUR
    ensures nominal' - nominal == ((time' - time) * rate + buffer * rate) / HOUR
  {
    var window := steps'[|steps|..];
    hide Times, Leaked, Saved, Total, Divides;
    assert steps' == steps + window;
    WindowLeaks(rate, steps, window);
    TotalOn(steps, window);
    TimesIs(buffer, rate);
    TimesIs(Total(window), rate);
  }

  /**
   * Over any window of requests the tokens granted are at most the capacity and what the window leaks; when
   * the leakage is exact that is what the time of the window is worth, with a residue of less than one token.
   */
  method Serve(b: Bucket, asked: seq<Asking>) returns (oks: seq<bool>)
    requires b.Valid()
    modifies b
    ensures b.Valid() && |oks| == |asked| && old(b.last) <= b.last
    ensures b.granted - old(b.granted) <= b.capacity + b.nominal - old(b.nominal)
    ensures (b.rate > 0 && HOUR % b.rate == 0) || b.rate % HOUR == 0 ==>
              var residue := old(b.buffer) * b.rate;
              && residue < HOUR
              && b.granted - old(b.granted) <= b.capacity + ((b.last - old(b.last)) * b.rate + residue) / HOUR
  {
    hide Tracks, Divides, LeakStep;
    oks := [];
    for i := 0 to |asked|
      invariant b.Valid() && |oks| == i && old(b.last) <= b.last
      invariant |old(b.steps)| <= |b.steps| && b.steps[..|old(b.steps)|] == old(b.steps)
      invariant b.dripped - old(b.dripped) <= b.nominal - old(b.nominal)
    {
      var ok;
      match asked[i] {
        case One(now) => ok := b.RequestOne(now);
        case Several(n, now) => ok := b.Request(n, now);
      }
      oks := oks + [ok];
    }
    DividesIs(b.rate);
    if Divides(b.rate) {
      WindowWorth(b.rate, old(b.steps), old(b.last) - b.origin, old(b.buffer), old(b.nominal),
                  b.steps, b.last - b.origin, b.buffer, b.nominal);
    }
  }
}
