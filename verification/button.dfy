/**
 * The debouncing button (modules/button/src/button.c). Samples of the input are shifted into a
 * 32-bit waveform; a run of equal samples is a press or a release.
 */
module ButtonWave {
  import opened Bits

  type Word = x: nat | x < 0x1_0000_0000

  /** The level that the input function returns when it is called for the k-th time. */
  type Input = nat -> bool

  function Bit(b: bool): nat {
    if b then 1 else 0
  }

  /** update_waveform */
  function Shifted(w: Word, level: bool): Word {
    (2 * w + Bit(level)) % 0x1_0000_0000
  }

  /** The waveform after k samples. */
  ghost function Wave(input: Input, k: nat): Word {
    if k == 0 then 0 else Shifted(Wave(input, k - 1), input(k - 1))
  }

  /** The last n of k samples all had this level; before the first sample the input was low. */
  ghost predicate Run(input: Input, k: nat, n: nat, level: bool) {
    if n == 0 then true
    else if k == 0 then !level
    else input(k - 1) == level && Run(input, k - 1, n - 1, level)
  }

  lemma {:induction false} RunMeans(input: Input, k: nat, n: nat, level: bool)
    ensures Run(input, k, n, level) <==>
            (level ==> n <= k) && forall i :: k - n <= i < k && 0 <= i ==> input(i) == level
  {
    if n > 0 && k > 0 {
      RunMeans(input, k - 1, n - 1, level);
    }
  }

  // ------------------------------------------------------------------- masks and runs

  function Low(w: nat, n: nat): nat {
    w % Pow2(n)
  }

  /** The last bits of a shifted waveform are those of the one before and the new one. */
  lemma LowShifted(w: Word, level: bool, n: nat)
    requires 0 < n <= 32
    ensures Low(Shifted(w, level), n) == 2 * Low(w, n - 1) + Bit(level)
  {
    Sizes();
    Pow2Divides(n, 32);
    WrapLow(2 * w + Bit(level), Pow2(n), Pow2(32 - n), 0x1_0000_0000);
    DoubleLow(w, Bit(level), Pow2(n - 1));
  }

  lemma DoubleLow(w: nat, b: nat, h: nat)
    requires h > 0 && b < 2
    ensures (2 * w + b) % (2 * h) == 2 * (w % h) + b
  {
    var q, r := w / h, w % h;
    assert w == h * q + r;
    assert 2 * w + b == (2 * h) * q + (2 * r + b);
    DivideUnique(2 * w + b, 2 * h, q, 2 * r + b);
  }

  lemma WrapLow(x: nat, p: nat, k: nat, size: nat)
    requires p > 0 && k > 0 && size == p * k
    ensures x % size % p == x % p
  {
    var q, r := x / size, x % size;
    assert x == size * q + r;
    var s, t := r / p, r % p;
    assert r == p * s + t;
    assert x == p * (k * q + s) + t;
    DivideUnique(x, p, k * q + s, t);
  }

  /** The masks see exactly the runs. */
  lemma {:induction false} MasksSeeRuns(input: Input, k: nat, n: nat)
    requires n <= 32
    ensures Low(Wave(input, k), n) == Pow2(n) - 1 <==> Run(input, k, n, true)
    ensures Low(Wave(input, k), n) == 0 <==> Run(input, k, n, false)
  {
    if n == 0 {
    } else if k == 0 {
      Pow2Monotone(1, n);
      DivideUnique(0, Pow2(n), 0, 0);
    } else {
      LowShifted(Wave(input, k - 1), input(k - 1), n);
      MasksSeeRuns(input, k - 1, n - 1);
    }
  }

  // ------------------------------------------------------------- the waveform predicates

  /** get_waveform */
  function GetWaveform(w: Word, n: nat): nat {
    And(w, Pow2(n + 1) - 1)
  }

  /** The last n samples are high: is_button_down, and is_button_pressed without its flag. */
  predicate AllHigh(w: Word, n: nat) {
    And(GetWaveform(w, n), Pow2(n) - 1) == Pow2(n) - 1
  }

  /** is_button_up */
  predicate AllLow(w: Word, n: nat) {
    And(GetWaveform(w, n), Pow2(n) - 1) == 0
  }

  /** is_button_released without its flag. */
  predicate FellLow(w: Word, n: nat) {
    GetWaveform(w, n) == Pow2(n) || GetWaveform(w, n) == 0
  }

  lemma LowOfLow(w: nat, n: nat)
    ensures Low(Low(w, n + 1), n) == Low(w, n)
    ensures Low(w, n + 1) == Low(w, n) || Low(w, n + 1) == Low(w, n) + Pow2(n)
  {
    var h := Pow2(n);
    WrapLow(w, h, 2, 2 * h);
    var x := w % (2 * h);
    if x < h {
      DivideUnique(x, h, 0, x);
    } else {
      DivideUnique(x, h, 1, x - h);
    }
  }

  /** All three predicates are about the last n samples. */
  lemma PredicatesSeeRuns(input: Input, k: nat, n: nat)
    requires n < 32
    ensures AllHigh(Wave(input, k), n) <==> Run(input, k, n, true)
    ensures AllLow(Wave(input, k), n) <==> Run(input, k, n, false)
    ensures FellLow(Wave(input, k), n) <==> Run(input, k, n, false)
  {
    var w := Wave(input, k);
    MaskIsMod(w, n + 1);
    MaskIsMod(Low(w, n + 1), n);
    LowOfLow(w, n);
    MasksSeeRuns(input, k, n);
  }
}

/** The button at work. */
module Button {
  import opened Basics
  import opened Bits
  import opened ButtonWave

  datatype Event = PRESSED | HOLDING | RELEASED

  type Count = x: nat | x < 65536

  datatype Param = Param(period: Count, debounce: Count, repeatDelay: Count, repeatRate: Count, window: Count,
                         timeout: Count)

  // --------------------------------------------------------------------- parameters

  /** get_debounce_count */
  function DebounceCount(p: Param): nat
    requires p.period > 0
  {
    p.debounce / p.period + 1
  }

  /** is_param_ok, as button_set_param calls it. */
  predicate ParamOk(p: Param) {
    && p.period > 0
    && p.timeout >= p.debounce && p.timeout >= p.repeatDelay && p.timeout >= p.repeatRate && p.timeout >= p.window
    && p.debounce / p.period < 30
  }

  /** button_set_param: a timeout of 0 stands for 1000 ms. Accepted are the parameters whose times lie within
      the timeout and whose debounce run, with one sample more, fits the waveform; all others are refused. */
  function SetParam(current: Param, wanted: Param): (r: (bool, Param))
    ensures var timeout := if wanted.timeout == 0 then 1000 else wanted.timeout;
            && (r.0 <==>
                  && wanted.debounce < 30 * wanted.period && wanted.debounce <= timeout
                  && wanted.repeatDelay <= timeout && wanted.repeatRate <= timeout && wanted.window <= timeout)
            && r.1 == if r.0 then wanted.(timeout := timeout) else current
    ensures r.0 ==> ParamOk(r.1) && DebounceCount(r.1) <= 30
  {
    var copy := if wanted.timeout == 0 then wanted.(timeout := 1000) else wanted;
    QuotientBelow(wanted.debounce, wanted.period);
    if ParamOk(copy) then (true, copy) else (false, current)
  }

  lemma QuotientBelow(a: nat, b: nat)
    ensures b > 0 ==> (a / b < 30 <==> a < 30 * b)
  {
    if b > 0 {
      var q, r := a / b, a % b;
      assert a == b * q + r;
      if q < 30 {
        MulMonotone(b, q + 1, 30);
      } else {
        MulMonotone(b, 30, q);
      }
    }
  }

  /** The debounce run is the shortest whose samples stand for more than the debounce time. */
  lemma DebounceTime(p: Param)
    requires p.period > 0
    ensures (DebounceCount(p) - 1) * p.period <= p.debounce < DebounceCount(p) * p.period
  {
    var q, r := p.debounce / p.period, p.debounce % p.period;
    assert p.debounce == p.period * q + r;
    assert (q + 1) * p.period == p.period * q + p.period;
  }

  lemma NoFewer(p: Param, n: nat)
    requires p.period > 0
    ensures n * p.period > p.debounce ==> n >= DebounceCount(p)
  {
    DebounceTime(p);
    if n < DebounceCount(p) {
      MulMonotone(p.period, n, DebounceCount(p) - 1);
    }
  }

  /** After k samples, those of more than the debounce time had this level. */
  ghost predicate Settled(p: Param, input: Input, k: nat, level: bool) {
    exists n: nat :: n * p.period > p.debounce && Run(input, k, n, level)
  }

  /** So many samples stand for more than the debounce time. */
  ghost predicate Enough(p: Param, samples: nat) {
    samples * p.period > p.debounce
  }

  lemma EnoughMore(p: Param, samples: nat, more: nat)
    ensures Enough(p, samples) ==> Enough(p, samples + more)
  {
    MulMonotone(p.period, samples, samples + more);
  }

  lemma SettledIs(p: Param, input: Input, k: nat, level: bool)
    requires p.period > 0
    ensures Settled(p, input, k, level) <==> Run(input, k, DebounceCount(p), level)
  {
    DebounceTime(p);
    if Settled(p, input, k, level) {
      var n: nat :| n * p.period > p.debounce && Run(input, k, n, level);
      NoFewer(p, n);
      RunMeans(input, k, n, level);
      RunMeans(input, k, DebounceCount(p), level);
    }
  }

  // ------------------------------------------------------------------------- traces

  /** An event, with the number of samples there were when it was reported, and the time, counted without wrapping. */
  datatype Report = Report(event: Event, samples: nat, at: nat)

  /** The trace is a prefix of (PRESSED HOLDING* RELEASED)*: a press comes first and after every
      release, and nowhere else. */
  ghost predicate Grammatical(trace: seq<Report>) {
    && (trace != [] ==> trace[0].event == PRESSED)
    && forall i :: 0 < i < |trace| ==> (trace[i].event == PRESSED <==> trace[i - 1].event == RELEASED)
  }

  /** Before every press and hold the input was high, and before every release low, for the samples of more than the
      debounce time. */
  ghost predicate Debounced(trace: seq<Report>, input: Input, p: Param) {
    forall i :: 0 <= i < |trace| ==>
      Enough(p, trace[i].samples) && Settled(p, input, trace[i].samples, trace[i].event != RELEASED)
  }

  /** The time of the last event of that kind, or 0. */
  function LastTime(trace: seq<Report>, event: Event): (t: nat)
    ensures (exists i :: 0 <= i < |trace| && trace[i].event == event) ==>
              exists i :: 0 <= i < |trace| && trace[i].event == event && t == trace[i].at
                && forall j :: i < j < |trace| ==> trace[j].event != event
    ensures (forall i :: 0 <= i < |trace| ==> trace[i].event != event) ==> t == 0
  {
    if trace == [] then 0
    else if trace[|trace| - 1].event == event then trace[|trace| - 1].at
    else LastTime(trace[..|trace| - 1], event)
  }

  /** Down, going by the trace. */
  predicate DownAfter(trace: seq<Report>) {
    trace != [] && trace[|trace| - 1].event != RELEASED
  }

  /** The holds since the last press. */
  function Holds(trace: seq<Report>): nat {
    if trace == [] || trace[|trace| - 1].event == PRESSED then 0
    else Holds(trace[..|trace| - 1]) + if trace[|trace| - 1].event == HOLDING then 1 else 0
  }

  lemma Reported(trace: seq<Report>, r: Report, input: Input, p: Param)
    requires Grammatical(trace) && Debounced(trace, input, p)
    requires r.event == PRESSED <==> !DownAfter(trace)
    requires Enough(p, r.samples) && Settled(p, input, r.samples, r.event != RELEASED)
    ensures Grammatical(trace + [r]) && Debounced(trace + [r], input, p)
    ensures Holds(trace + [r]) == if r.event == PRESSED then 0 else Holds(trace) + if r.event == HOLDING then 1 else 0
    ensures DownAfter(trace + [r]) <==> r.event != RELEASED
    ensures forall e :: LastTime(trace + [r], e) == if e == r.event then r.at else LastTime(trace, e)
  {
    hide Settled, Enough;
    assert (trace + [r])[..|trace|] == trace;
  }

  // --------------------------------------------------------------------------- time

  function Minus(a: Word, b: Word): Word {
    if b <= a then a - b else a + 0x1_0000_0000 - b
  }

  function Wrap(t: nat): Word {
    t % 0x1_0000_0000
  }

  lemma WrapMinus(t: nat, d: nat)
    requires d < 0x1_0000_0000
    ensures Minus(Wrap(t + d), Wrap(t)) == d && Minus(Wrap(t + d), d) == Wrap(t)
  {
  }

  lemma WrapDifference(t: nat, a: nat)
    requires a <= t
    ensures Minus(Wrap(t), Wrap(a)) == (t - a) % 0x1_0000_0000
  {
    var size := 0x1_0000_0000;
    var q, r := (t - a) / size, (t - a) % size;
    assert t - a == size * q + r;
    WrapMinus(a, r);
    WrapLow(a + r, size, 1, size);
    var u, v := (a + r) / size, (a + r) % size;
    assert a + r == size * u + v;
    assert t == size * (q + u) + v;
    DivideUnique(t, size, q + u, v);
  }

  lemma WrapPlus(t: nat, d: nat)
    requires d < 0x1_0000_0000
    ensures Wrap(t + d) == if Wrap(t) + d < 0x1_0000_0000 then Wrap(t) + d else Wrap(t) + d - 0x1_0000_0000
  {
  }

  /** How many samples a step takes when `elapsed` ms have passed since the last one. */
  function Pulses(p: Param, elapsed: nat): nat
    requires p.period > 0
  {
    if elapsed < p.period then 0 else if elapsed > p.timeout then 1 else Periods(elapsed, p.period)
  }

  /** Whole periods, and the time left over. */
  function Periods(t: nat, period: nat): nat
    requires period > 0
  {
    if t < period then 0 else 1 + Periods(t - period, period)
  }

  function Rest(t: nat, period: nat): (r: nat)
    requires period > 0
    ensures r <= t && r < period
  {
    if t < period then t else Rest(t - period, period)
  }

  lemma {:induction false} PeriodsAre(t: nat, period: nat)
    requires period > 0
    ensures Periods(t, period) == t / period && Rest(t, period) == t % period
    ensures Periods(t, period) == 0 <==> t < period
  {
    if t < period {
      DivideUnique(t, period, 0, t);
    } else {
      var u := t - period;
      PeriodsAre(u, period);
      var q, r := u / period, u % period;
      assert u == period * q + r;
      assert period * (q + 1) == period * q + period;
      DivideUnique(t, period, q + 1, r);
    }
  }

  /** process_holding: is a repeat due at this time? */
  predicate HoldDue(p: Param, timeRepeat: Word, timePressed: Word, time: Word) {
    && p.repeatDelay != 0
    && if timeRepeat != 0 then p.repeatRate != 0 && Minus(time, timeRepeat) >= p.repeatRate
       else Minus(time, timePressed) >= p.repeatDelay
  }

  /** The flag and the times of the data are those of the last events. */
  ghost predicate Timed(d: Data, trace: seq<Report>, stamp: nat) {
    && (forall i :: 0 <= i < |trace| ==> trace[i].at <= stamp)
    && d.timeReleased == Wrap(LastTime(trace, RELEASED)) && LastTime(trace, RELEASED) <= stamp
    && LastTime(trace, PRESSED) <= stamp
    && (d.pressed ==>
         && trace != [] && d.timePressed == Wrap(LastTime(trace, PRESSED))
         && var last := trace[|trace| - 1];
            d.timeRepeat == if last.event == HOLDING then Wrap(last.at) else 0)
  }

  /** A repeat is due `repeatRate` after the one before, and the first `repeatDelay` after the press. One that was
      reported at time 0 is forgotten. */
  ghost predicate RepeatDue(p: Param, trace: seq<Report>, stamp: nat)
    requires trace != []
  {
    var last, pressed := trace[|trace| - 1], LastTime(trace, PRESSED);
    && p.repeatDelay != 0
    && if last.event == HOLDING && last.at % 0x1_0000_0000 != 0
       then p.repeatRate != 0 && (stamp - last.at) % 0x1_0000_0000 >= p.repeatRate
       else (stamp - pressed) % 0x1_0000_0000 >= p.repeatDelay
  }

  /** What a step reports that has sampled. */
  ghost predicate Reports(p: Param, input: Input, samples: nat, stamp: nat, was: bool, before: seq<Report>,
                          event: Option<Event>, trace: seq<Report>)
  {
    && trace == (if event.Some? then before + [Report(event.value, samples, stamp)] else before)
    && event ==
       if !was then (if Settled(p, input, samples, true) then Some(PRESSED) else None)
       else if Settled(p, input, samples, false) then Some(RELEASED)
       else if before != [] && Settled(p, input, samples, true) && RepeatDue(p, before, stamp) then Some(HOLDING)
       else None
  }

  /** What it leaves of the counters: the clicks are forgotten when the button is up and the click window has closed
      since the last release. */
  ghost predicate Counts(p: Param, input: Input, samples: nat, stamp: nat, trace: seq<Report>, event: Option<Event>,
                         was: Data, now: Data)
    requires LastTime(trace, RELEASED) <= stamp
  {
    var n := if event == Some(PRESSED) then (was.clicks + 1) % 65536 else was.clicks;
    var closed := p.window == 0 || n == 0 || (stamp - LastTime(trace, RELEASED)) % 0x1_0000_0000 >= p.window;
    && now.clicks == (if Settled(p, input, samples, false) && closed then 0 else n)
    && now.repeats == (if event == Some(PRESSED) then 0
                       else if event == Some(HOLDING) then (was.repeats + 1) % 65536 else was.repeats)
    && now.pressed == if event == Some(PRESSED) then true else if event == Some(RELEASED) then false else was.pressed
  }

  lemma HoldDueIs(p: Param, d: Data, trace: seq<Report>, stamp: nat)
    requires Timed(d, trace, stamp) && d.pressed
    ensures HoldDue(p, d.timeRepeat, d.timePressed, Wrap(stamp)) <==> RepeatDue(p, trace, stamp)
  {
    WrapDifference(stamp, LastTime(trace, PRESSED));
    WrapDifference(stamp, trace[|trace| - 1].at);
  }

  /** What a step that has sampled reports, said of the samples. */
  ghost function Outcome(input: Input, k: nat, n: nat, pressed: bool, due: bool): Option<Event> {
    if !pressed then (if Run(input, k, n, true) then Some(PRESSED) else None)
    else if Run(input, k, n, false) then Some(RELEASED)
    else if Run(input, k, n, true) && due then Some(HOLDING)
    else None
  }

  /** struct button_data and the pressed flag, without the waveform. */
  datatype Data = Data(timePressed: Word, timeReleased: Word, timeRepeat: Word, clicks: Count, repeats: Count,
                       pressed: bool)

  function Increased(n: Count): Count {
    if n == 65535 then 0 else n + 1
  }

  /** process_pressed, process_released and process_holding; and the clicks are forgotten when the
      button is up and the click window has closed. */
  function DataAfter(d: Data, event: Option<Event>, time: Word, up: bool, window: Count): Data {
    var e :=
      if event == Some(PRESSED) then Data(time, d.timeReleased, 0, Increased(d.clicks), 0, true)
      else if event == Some(RELEASED) then d.(timeReleased := time, pressed := false)
      else if event == Some(HOLDING) then d.(timeRepeat := time, repeats := Increased(d.repeats))
      else d;
    if up && (window == 0 || e.clicks == 0 || Minus(time, e.timeReleased) >= window) then e.(clicks := 0) else e
  }

  class Button {
    const input: Input
    const param: Param
    var waveform: Word
    var timePressed: Word
    var timeReleased: Word
    var timeRepeat: Word
    var clicks: Count
    var repeats: Count
    var timestamp: Word
    var pressed: bool
    /** How often the input has been read. */
    var samples: nat
    ghost var trace: seq<Report>
    /** The timestamp, counted without wrapping. */
    ghost var stamp: nat

    ghost predicate Valid()
      reads this
    {
      && ParamOk(param) && waveform == Wave(input, samples) && timestamp == Wrap(stamp)
      && Told(trace, input, param, pressed, repeats) && Timed(View(), trace, stamp)
      && (trace != [] ==> Enough(param, samples))
    }

    function View(): Data
      reads this
    {
      Data(timePressed, timeReleased, timeRepeat, clicks, repeats, pressed)
    }

    /** button_new, and button_set_param with good parameters. */
    constructor (input: Input, param: Param)
      requires ParamOk(param)
      ensures Valid() && samples == 0 && stamp == 0 && trace == [] && this.input == input && this.param == param
    {
      this.input, this.param := input, param;
      waveform, timePressed, timeReleased, timeRepeat, timestamp := 0, 0, 0, 0, 0;
      clicks, repeats, pressed, samples := 0, 0, false, 0;
      trace, stamp := [], 0;
    }

    /** update_state */
    method UpdateState(pulses: nat)
      requires waveform == Wave(input, samples)
      modifies this`waveform, this`samples
      ensures waveform == Wave(input, samples) && samples == old(samples) + pulses
    {
      for i := 0 to pulses
        invariant waveform == Wave(input, samples) && samples == old(samples) + i
      {
        waveform := Shifted(waveform, input(samples));
        samples := samples + 1;
      }
    }

    /** button_step: `now` is the time given, counted without wrapping. */
    method Step(time: Word, ghost now: nat) returns (event: Option<Event>)
      requires Valid() && stamp <= now < stamp + 0x1_0000_0000 && time == Wrap(now)
      modifies this
      ensures Valid()
      ensures var elapsed := now - old(stamp);
              if elapsed < param.period then
                && event == None && samples == old(samples) && stamp == old(stamp) && trace == old(trace)
                && View() == old(View())
              else
                && samples == old(samples) + (if elapsed > param.timeout then 1 else elapsed / param.period)
                && stamp == now - elapsed % param.period
                && Reports(param, input, samples, stamp, old(pressed), old(trace), event, trace)
                && Counts(param, input, samples, stamp, trace, event, old(View()), View())
    {
      hide Told, Timed, Reports, Counts, LastTime, Enough, Pulses, Corrected, Periods, Rest, Wave;
      StepTiming(param, stamp, now);
      var pulses, corrected := Timing(param, time, timestamp, stamp, now);
      if pulses == 0 {
        return None;
      }
      TimeGoesOn(View(), trace, stamp, Corrected(param, stamp, now));
      EnoughMore(param, samples, pulses);
      UpdateState(pulses);
      timestamp := corrected;
      stamp := Corrected(param, stamp, now);
      event := Decide(corrected);
    }

    /** button_step_delta: the time is counted from the last sample, not from the last call. */
    method StepDelta(delta: Word) returns (event: Option<Event>)
      requires Valid()
      modifies this
      ensures Valid()
      ensures if delta < param.period then
                && event == None && samples == old(samples) && stamp == old(stamp) && trace == old(trace)
                && View() == old(View())
              else
                && samples == old(samples) + (if delta > param.timeout then 1 else delta / param.period)
                && stamp == old(stamp) + delta - delta % param.period
                && Reports(param, input, samples, stamp, old(pressed), old(trace), event, trace)
                && Counts(param, input, samples, stamp, trace, event, old(View()), View())
    {
      hide Told, Timed, Reports, Counts, LastTime, Enough, Pulses, Corrected, Periods, Rest, Wave;
      WrapPlus(stamp, delta);
      var time := if timestamp + delta < 0x1_0000_0000 then timestamp + delta else timestamp + delta - 0x1_0000_0000;
      event := Step(time, stamp + delta);
    }

    /** The events of process_button, once the input has been sampled. */
    method Decide(time: Word) returns (event: Option<Event>)
      requires Valid() && time == timestamp
      modifies this`timePressed, this`timeReleased, this`timeRepeat, this`clicks, this`repeats, this`pressed, this`trace
      ensures Valid() && LastTime(trace, RELEASED) <= stamp
      ensures Reports(param, input, samples, stamp, old(pressed), old(trace), event, trace)
      ensures Counts(param, input, samples, stamp, trace, event, old(View()), View())
    {
      hide Told, Timed, Settled, RepeatDue, Counts, HoldDue, DataAfter, LastTime, AllHigh, AllLow, FellLow, Wave,
           DebounceCount, Run;
      var n := DebounceCount(param);
      ghost var d, before := View(), trace;
      WaveTells(param, input, samples, waveform);
      WasPressed(d, trace, stamp);
      if pressed {
        HoldDueIs(param, d, trace, stamp);
      }
      event := Process(time, n);
      FlagsAfter(d, event, time, Settled(param, input, samples, false), param.window);
      if event.Some? {
        ToldMore(trace, Report(event.value, samples, stamp), input, param, old(pressed), old(repeats), repeats);
        trace := trace + [Report(event.value, samples, stamp)];
      }
      TimedAfter(d, before, event, stamp, samples, time, Settled(param, input, samples, false), param.window);
      CountsAfter(param, input, d, before, event, stamp, samples, time, trace);
    }

    /** The branches of process_button, on the waveform. */
    method Process(time: Word, n: nat) returns (event: Option<Event>)
      modifies this`timePressed, this`timeReleased, this`timeRepeat, this`clicks, this`repeats, this`pressed
      ensures event ==
              if !old(pressed) && AllHigh(waveform, n) then Some(PRESSED)
              else if old(pressed) && FellLow(waveform, n) then Some(RELEASED)
              else if AllHigh(waveform, n) && HoldDue(param, old(timeRepeat), old(timePressed), time) then Some(HOLDING)
              else None
      ensures View() == DataAfter(old(View()), event, time, AllLow(waveform, n), param.window)
    {
      event := None;
      if !pressed && AllHigh(waveform, n) {
        event := Some(PRESSED);
        timePressed, timeRepeat, repeats, pressed := time, 0, 0, true;
        clicks := Increased(clicks);
      } else if pressed && FellLow(waveform, n) {
        event := Some(RELEASED);
        timeReleased, pressed := time, false;
      } else if AllHigh(waveform, n) {
        if HoldDue(param, timeRepeat, timePressed, time) {
          event := Some(HOLDING);
          timeRepeat := time;
          repeats := Increased(repeats);
        }
      }
      if AllLow(waveform, n) && (param.window == 0 || clicks == 0 || Minus(time, timeReleased) >= param.window) {
        clicks := 0;
      }
    }
  }

  /** The trace is in order and the flags agree with it. */
  ghost predicate Told(trace: seq<Report>, input: Input, p: Param, pressed: bool, repeats: nat) {
    && Grammatical(trace) && Debounced(trace, input, p)
    && (pressed <==> DownAfter(trace)) && repeats == Holds(trace) % 65536
  }

  lemma ToldMore(trace: seq<Report>, r: Report, input: Input, p: Param, pressed: bool, repeats: nat, repeats': nat)
    requires Told(trace, input, p, pressed, repeats)
    requires r.event == PRESSED <==> !pressed
    requires Enough(p, r.samples) && Settled(p, input, r.samples, r.event != RELEASED)
    requires repeats' == match r.event
                         case PRESSED => 0
                         case RELEASED => repeats
                         case HOLDING => if repeats == 65535 then 0 else repeats + 1
    ensures Told(trace + [r], input, p, r.event != RELEASED, repeats')
  {
    hide Settled, Enough;
    Reported(trace, r, input, p);
  }

  /** What the waveform tells about the samples. */
  lemma WaveTells(p: Param, input: Input, samples: nat, waveform: Word)
    requires ParamOk(p) && waveform == Wave(input, samples)
    ensures var n := DebounceCount(p);
            && (AllHigh(waveform, n) <==> Settled(p, input, samples, true))
            && (AllLow(waveform, n) <==> Settled(p, input, samples, false))
            && (FellLow(waveform, n) <==> Settled(p, input, samples, false))
    ensures !(Settled(p, input, samples, true) && Settled(p, input, samples, false))
    ensures Settled(p, input, samples, true) ==> Enough(p, samples)
  {
    hide Settled, Wave, AllHigh, AllLow, FellLow;
    PredicatesSeeRuns(input, samples, DebounceCount(p));
    SettledIs(p, input, samples, true);
    SettledIs(p, input, samples, false);
    BothRuns(input, samples, DebounceCount(p));
    EnoughSamples(p, input, samples);
  }

  lemma WasPressed(d: Data, trace: seq<Report>, stamp: nat)
    requires Timed(d, trace, stamp)
    ensures d.pressed ==> trace != []
  {
  }

  lemma TimeGoesOn(d: Data, trace: seq<Report>, stamp: nat, stamp': nat)
    requires Timed(d, trace, stamp) && stamp <= stamp'
    ensures Timed(d, trace, stamp')
  {
  }

  /** A press takes enough samples. */
  lemma EnoughSamples(p: Param, input: Input, k: nat)
    requires p.period > 0
    ensures Settled(p, input, k, true) ==> Enough(p, k)
  {
    if Settled(p, input, k, true) {
      var n: nat :| n * p.period > p.debounce && Run(input, k, n, true);
      RunMeans(input, k, n, true);
      MulMonotone(p.period, n, k);
    }
  }

  /** What a report changes of the times of the last events. */
  lemma LastTimes(trace: seq<Report>, r: Report)
    ensures LastTime(trace + [r], PRESSED) == if r.event == PRESSED then r.at else LastTime(trace, PRESSED)
    ensures LastTime(trace + [r], RELEASED) == if r.event == RELEASED then r.at else LastTime(trace, RELEASED)
  {
    assert (trace + [r])[..|trace|] == trace;
  }

  lemma TimedAfter(d: Data, trace: seq<Report>, event: Option<Event>, stamp: nat, samples: nat, time: Word, up: bool,
                   window: Count)
    requires Timed(d, trace, stamp) && time == Wrap(stamp) && (event == Some(HOLDING) ==> d.pressed)
    ensures Timed(DataAfter(d, event, time, up, window),
                  if event.Some? then trace + [Report(event.value, samples, stamp)] else trace, stamp)
  {
    hide LastTime, Wrap;
    if event.Some? {
      LastTimes(trace, Report(event.value, samples, stamp));
    }
  }

  lemma FlagsAfter(d: Data, event: Option<Event>, time: Word, up: bool, window: Count)
    ensures var d' := DataAfter(d, event, time, up, window);
            && d'.repeats == (if event == Some(PRESSED) then 0
                              else if event == Some(HOLDING) then Increased(d.repeats) else d.repeats)
            && d'.pressed == if event == Some(PRESSED) then true
                             else if event == Some(RELEASED) then false else d.pressed
  {
  }

  lemma CountsAfter(p: Param, input: Input, d: Data, before: seq<Report>, event: Option<Event>, stamp: nat,
                    samples: nat, time: Word, trace: seq<Report>)
    requires Timed(d, before, stamp) && time == Wrap(stamp)
    requires trace == if event.Some? then before + [Report(event.value, samples, stamp)] else before
    ensures LastTime(trace, RELEASED) <= stamp
    ensures Counts(p, input, samples, stamp, trace, event, d,
                   DataAfter(d, event, time, Settled(p, input, samples, false), p.window))
  {
    hide LastTime, Wrap, Settled, Minus;
    if event.Some? {
      LastTimes(before, Report(event.value, samples, stamp));
    }
    WrapDifference(stamp, LastTime(trace, RELEASED));
  }

  /** The last sample is high or low. */
  lemma BothRuns(input: Input, k: nat, n: nat)
    requires n > 0
    ensures !(Run(input, k, n, true) && Run(input, k, n, false))
  {
  }

  /** The arithmetic of process_button: how many samples to take, and the time they stand for. */
  method Timing(p: Param, time: Word, timestamp: Word, ghost stamp: nat, ghost now: nat)
    returns (pulses: nat, corrected: Word)
    requires p.period > 0 && stamp <= now < stamp + 0x1_0000_0000 && time == Wrap(now) && timestamp == Wrap(stamp)
    ensures pulses == Pulses(p, now - stamp) && (pulses == 0 <==> now - stamp < p.period)
    ensures pulses > 0 ==> corrected == Wrap(Corrected(p, stamp, now))
  {
    WrapMinus(stamp, now - stamp);
    var elapsed := Minus(time, timestamp);
    PeriodsAre(elapsed, p.period);
    var remaining := elapsed % p.period;
    WrapMinus(now - remaining, remaining);
    corrected := Minus(time, remaining);
    pulses := elapsed / p.period;
    if pulses > 0 && elapsed > p.timeout {
      pulses := 1;
    }
  }

  /** The time up to which a step at `now` has sampled. */
  function Corrected(p: Param, stamp: nat, now: nat): nat
    requires p.period > 0 && stamp <= now
  {
    if now - stamp < p.period then stamp else now - Rest(now - stamp, p.period)
  }

  lemma StepTiming(p: Param, stamp: nat, now: nat)
    requires p.period > 0 && stamp <= now
    ensures var elapsed := now - stamp;
            && Pulses(p, elapsed) == (if elapsed < p.period then 0 else if elapsed > p.timeout then 1
                                      else elapsed / p.period)
            && Corrected(p, stamp, now) == (if elapsed < p.period then stamp else now - elapsed % p.period)
            && stamp <= Corrected(p, stamp, now) <= now
  {
    PeriodsAre(now - stamp, p.period);
  }

  // ----------------------------------------------------------------- counting samples

  /** No step comes later after the last sample than the timeout. */
  ghost predicate Prompt(p: Param, stamp: nat, times: seq<nat>)
    requires p.period > 0
    decreases |times|
  {
    times == [] || (stamp <= times[0] <= stamp + p.timeout && Prompt(p, Corrected(p, stamp, times[0]), times[1..]))
  }

  /** Without timeouts the number of samples is the time that has passed, in periods, however the steps
      divide it. */
  method StepAll(b: Button, times: seq<nat>) returns (events: seq<Option<Event>>)
    requires b.Valid() && Prompt(b.param, b.stamp, times)
    modifies b
    ensures b.Valid() && |events| == |times|
    ensures times != [] ==>
              old(b.stamp) <= times[|times| - 1]
              && b.samples == old(b.samples) + (times[|times| - 1] - old(b.stamp)) / b.param.period
  {
    hide Told, Timed, Reports, Counts, LastTime, Enough, Pulses, Corrected, Periods, Rest, Wave;
    events := [];
    ghost var start, now := b.stamp, b.stamp;
    CountingBegins(b.param, start);
    for i := 0 to |times|
      invariant b.Valid() && |events| == i && Prompt(b.param, b.stamp, times[i..])
      invariant Counted(b.param.period, start, b.stamp, now, b.samples - old(b.samples))
                && (i > 0 ==> now == times[i - 1])
    {
      assert times[i..][0] == times[i] && times[i..][1..] == times[i + 1..];
      StepCounts(b.param, start, b.stamp, now, b.samples - old(b.samples), times[i]);
      StepTiming(b.param, b.stamp, times[i]);
      var event := b.Step(Wrap(times[i]), times[i]);
      events := events + [event];
      now := times[i];
    }
    PeriodsAre(now - start, b.param.period);
  }

  /** Between start and now k samples were taken, the last for the time `stamp`. */
  ghost predicate Counted(period: nat, start: nat, stamp: nat, now: nat, k: int) {
    && period > 0 && start <= stamp <= now < stamp + period
    && k == Periods(now - start, period) && now - stamp == Rest(now - start, period)
  }

  lemma CountingBegins(p: Param, start: nat)
    requires p.period > 0
    ensures Counted(p.period, start, start, start, 0)
  {
  }

  lemma StepCounts(p: Param, start: nat, stamp: nat, before: nat, k: nat, now: nat)
    requires Counted(p.period, start, stamp, before, k) && stamp <= now <= stamp + p.timeout
    ensures Counted(p.period, start, Corrected(p, stamp, now), now, k + Pulses(p, now - stamp))
  {
    Landmark(p.period, before - start, stamp - start, now - stamp);
    if now - stamp >= p.period {
      assert Periods(now - stamp, p.period) == Pulses(p, now - stamp);
    }
  }

  /** Counting goes on from the last whole period. */
  lemma {:induction false} Landmark(period: nat, t: nat, s: nat, e: nat)
    requires period > 0 && s <= t && t - s == Rest(t, period)
    ensures Periods(s + e, period) == Periods(t, period) + Periods(e, period)
    ensures Rest(s + e, period) == Rest(e, period)
    decreases t
  {
    if t < period {
      assert s == 0;
    } else {
      Landmark(period, t - period, s - period, e);
    }
  }

  // ------------------------------------------------------------------ button_step_delta

  function Total(deltas: seq<nat>): nat {
    if deltas == [] then 0 else Total(deltas[1..]) + deltas[0]
  }

  /** button_step_delta counts from the corrected timestamp, so that what a step leaves of a period is lost. */
  function DeltaSamples(period: nat, deltas: seq<nat>): nat
    requires period > 0
  {
    if deltas == [] then 0 else DeltaSamples(period, deltas[1..]) + deltas[0] / period
  }

  function Lost(period: nat, deltas: seq<nat>): nat
    requires period > 0
  {
    if deltas == [] then 0 else Lost(period, deltas[1..]) + deltas[0] % period
  }

  /** Steps by deltas, none above the timeout. */
  method StepDeltas(b: Button, deltas: seq<Word>) returns (events: seq<Option<Event>>)
    requires b.Valid() && forall i :: 0 <= i < |deltas| ==> deltas[i] <= b.param.timeout
    modifies b
    ensures b.Valid() && |events| == |deltas|
    ensures b.samples == old(b.samples) + DeltaSamples(b.param.period, deltas)
  {
    events := [];
    for i := 0 to |deltas|
      invariant b.Valid() && |events| == i
      invariant b.samples + DeltaSamples(b.param.period, deltas[i..]) == old(b.samples)
                + DeltaSamples(b.param.period, deltas)
    {
      assert deltas[i..][1..] == deltas[i + 1..];
      PeriodsAre(deltas[i], b.param.period);
      var event := b.StepDelta(deltas[i]);
      events := events + [event];
    }
  }

  lemma {:induction false} DeltaAccounts(period: nat, deltas: seq<nat>)
    requires period > 0
    ensures Total(deltas) == period * DeltaSamples(period, deltas) + Lost(period, deltas)
  {
    if deltas != [] {
      DeltaAccounts(period, deltas[1..]);
      var d, k := deltas[0], DeltaSamples(period, deltas[1..]);
      assert d == period * (d / period) + d % period;
      assert period * (k + d / period) == period * k + period * (d / period);
    }
  }

  /** Stepping by deltas samples as often as one step would exactly when the rests stay below a period. */
  lemma DeltasExactly(period: nat, deltas: seq<nat>)
    requires period > 0
    ensures DeltaSamples(period, deltas) == Total(deltas) / period <==> Lost(period, deltas) < period
  {
    DeltaAccounts(period, deltas);
    var t, k, l := Total(deltas), DeltaSamples(period, deltas), Lost(period, deltas);
    var q, r := t / period, t % period;
    assert t == period * q + r;
    if l < period {
      DivideUnique(t, period, k, l);
    }
  }
}
