/** For every advance that apptimer_schedule does not cover there is a run of covered advances after which it
    leaves a due timer behind. */
module AppTimerLate {
  import opened Basics
  import opened Bits
  import opened WheelArith
  import opened AppTimer

  // ------------------------------------------------------------------ where the timer sits

  lemma FiledAt(t: nat, timeout: nat)
    requires t % 8 == 0 && 1 <= timeout <= MAX_TIMEOUT
    ensures var w := WheelIndex(timeout);
            PlaceFor(t % MOD, (t + timeout) % MOD) == Slot(w, SlotIndex(timeout, w))
  {
    hide WheelIndex, SlotIndex, SlotFor, Expired;
    SlotForValue(t, t + timeout);
  }

  /** A timer started on a slot boundary of wheel w for the width of that slot goes to slot 1. */
  lemma FiledInFirst(t: nat, w: nat)
    requires 1 <= w < 5 && t % Width(w) == 0
    ensures PlaceFor(t % MOD, (t + Width(w)) % MOD) == Slot(w, 1)
  {
    hide PlaceFor, WheelIndex;
    EightsIn(t, w);
    FiledAt(t, Width(w));
    WheelIndexRange(Width(w));
  }

  lemma EightsIn(t: nat, w: nat)
    requires 1 <= w < 5 && t % Width(w) == 0
    ensures t % 8 == 0
  {
    Digits(t);
  }

  /** One that is started for a turn of the last wheel goes to its slot 0. */
  lemma FiledInZero(t: nat)
    requires t % 32768 == 0
    ensures PlaceFor(t % MOD, (t + 32768) % MOD) == Slot(4, 0)
  {
    hide PlaceFor, WheelIndex;
    Digits(t);
    FiledAt(t, 32768);
    WheelIndexRange(32768);
  }

  /** An advance inside one slot of wheel w does not look at that wheel. */
  lemma InsideSlot(t: nat, e: nat, w: nat, s: nat)
    requires 1 <= e <= MAX_TIMEOUT && 1 <= w < 5 && Together(t, t + e, w)
    ensures !Scanned(t % MOD, e, w, s)
  {
    FarWheelMeaning(t, e);
    Coarser(t);
    Coarser(t + e);
  }

  /** The wheel that an uncovered advance re-sorts last, and the boundary it crosses there. */
  lemma UncoveredShape(now: nat, e: nat)
    requires 1 <= e <= MAX_TIMEOUT && !Covered(now % MOD, e)
    ensures var p, c := now % MOD, (now % MOD + e) % MOD;
            && p != c && 1 <= FarWheel(p, c) < 5 && e < 8
            && !Together(now, now + e, FarWheel(p, c))
            && (Xor(p, c) < 32768 ==> e < FarSlot(p, c) < 8)
            && (Xor(p, c) >= 32768 ==> FarSlot(p, c) == 7 && FarWheel(p, c) == 4 && !Together(now, now + e, 5))
  {
    FarWheelMeaning(now, e);
    Coarser(now);
    Coarser(now + e);
  }

  /** The last time at which slot 1 of wheel w begins. */
  function SlotStart(now: nat, w: nat): (t: nat)
    ensures t <= now && t == now - now % Width(w)
  {
    now - now % Width(w)
  }

  /** What crosses a boundary within eight ticks lies late in its slot. */
  lemma LateInSlot(now: nat, e: nat, w: nat)
    requires 1 <= w < 5 && 1 <= e < 8 && !Together(now, now + e, w)
    ensures var t := SlotStart(now, w);
            && t % Width(w) == 0 && t < now < t + Width(w) <= now + e && Together(t, now, w)
            && (w == 1 || now - t >= 8) && now - t < 4096
  {
    SlotStartIs(now, w);
    var t, g := SlotStart(now, w), Width(w);
    if now + e < t + g {
      DivideUnique(now + e, g, now / g, now % g + e);
    }
  }

  lemma SlotStartIs(now: nat, w: nat)
    requires 1 <= w < 6
    ensures var t := SlotStart(now, w);
            t % Width(w) == 0 && t <= now < t + Width(w) && Together(t, now, w)
  {
    var t, g := SlotStart(now, w), Width(w);
    assert t == g * (now / g);
    DivideUnique(t, g, now / g, 0);
  }

  // ------------------------------------------------------------------------------- runs

  function Total(steps: seq<nat>): nat {
    if steps == [] then 0 else Total(steps[..|steps| - 1]) + steps[|steps| - 1]
  }

  /** Every one of the advances, taken one after the other from time 0, is covered. */
  ghost predicate AllCovered(steps: seq<nat>) {
    forall i :: 0 <= i < |steps| ==> 1 <= steps[i] <= MAX_TIMEOUT && Covered(Total(steps[..i]) % MOD, steps[i])
  }

  lemma OneMore(steps: seq<nat>, e: nat)
    requires AllCovered(steps) && 1 <= e <= MAX_TIMEOUT && Covered(Total(steps) % MOD, e)
    ensures AllCovered(steps + [e]) && Total(steps + [e]) == Total(steps) + e
  {
    var more := steps + [e];
    assert more[..|steps|] == steps;
    forall i | 0 <= i < |more| ensures 1 <= more[i] <= MAX_TIMEOUT && Covered(Total(more[..i]) % MOD, more[i]) {
      if i < |steps| {
        assert more[..i] == steps[..i];
      }
    }
  }

  /** A wheel that has come to its time by these advances, and is right. */
  ghost predicate Right(wheel: TimerWheel, steps: seq<nat>)
    reads wheel
  {
    && wheel.Valid() && OnTime(wheel.now, wheel.place, wheel.due)
    && AllCovered(steps) && wheel.now == Total(steps)
  }

  /** It holds one timer, in list p and due at d. */
  ghost predicate Alone(wheel: TimerWheel, p: Place, d: nat)
    reads wheel
  {
    wheel.due == map[0 := d] && wheel.place == map[0 := p]
  }

  /** A wheel without timers, at any time that is a multiple of eight. */
  method WheelAt(t: nat) returns (wheel: TimerWheel, ghost steps: seq<nat>)
    requires t % 8 == 0
    ensures fresh(wheel) && Right(wheel, steps) && wheel.now == t && wheel.due == map[]
  {
    hide Right;
    wheel := FreshWheel();
    steps := [];
    var at := 0;
    while at < t
      invariant at <= t && at % 8 == 0 && at == wheel.now && fresh(wheel)
      invariant Right(wheel, steps) && wheel.due == map[]
    {
      var e: nat := if t - at <= 0x7fff_fff8 then t - at else 0x7fff_fff8;
      steps := Idle(wheel, e, steps);
      at := at + e;
    }
  }

  method FreshWheel() returns (wheel: TimerWheel)
    ensures fresh(wheel) && Right(wheel, []) && wheel.now == 0 && wheel.due == map[]
  {
    wheel := new TimerWheel();
  }

  method Idle(wheel: TimerWheel, e: nat, ghost steps: seq<nat>) returns (ghost steps': seq<nat>)
    requires Right(wheel, steps) && wheel.due == map[] && 8 <= e <= MAX_TIMEOUT
    modifies wheel
    ensures Right(wheel, steps') && wheel.due == map[] && wheel.now == old(wheel.now) + e
  {
    hide Linked, Covered, Fits, Scanned, LeftAlone;
    BlockOrLongIsCovered(wheel.now, e);
    OneMore(steps, e);
    var _ := wheel.Schedule(e);
    steps' := steps + [e];
  }

  lemma Unlinked(wheel: TimerWheel)
    requires wheel.Valid() && wheel.due == map[]
    ensures wheel.place == map[] && wheel.counter == wheel.now % MOD
  {
    assert wheel.place.Keys == {};
  }

  lemma JustOne(wheel: TimerWheel, p: Place, d: nat)
    requires wheel.due == map[][0 := d] && wheel.place == map[][0 := p]
    ensures Alone(wheel, p, d)
  {
  }

  /** Starts timer 0 on a wheel without timers. */
  method StartAlone(wheel: TimerWheel, timeout: nat, ghost steps: seq<nat>)
    requires Right(wheel, steps) && wheel.due == map[] && timeout <= MAX_TIMEOUT
    modifies wheel
    ensures Right(wheel, steps) && wheel.now == old(wheel.now)
    ensures Alone(wheel, PlaceFor(wheel.now % MOD, (wheel.now + timeout) % MOD), wheel.now + timeout)
  {
    hide Linked, Timed, OnTime, PlaceFor, AllCovered, Alone, Total, Expired;
    Unlinked(wheel);
    WrapAdd(wheel.now, timeout);
    ghost var goal: Word := (wheel.now + timeout) % MOD;
    wheel.Create(0, false);
    var error := wheel.Start(Some(0), timeout);
    JustOne(wheel, PlaceFor(wheel.counter, goal), wheel.now + timeout);
  }

  /** A covered advance that does not look at the timer's slot. */
  method Pass(wheel: TimerWheel, e: nat, ghost p: Place, ghost d: nat, ghost steps: seq<nat>)
    returns (ghost steps': seq<nat>)
    requires Right(wheel, steps) && Alone(wheel, p, d) && p.Slot? && p.wheel < 5 && p.slot < 8
    requires 1 <= e <= MAX_TIMEOUT && Covered(wheel.now % MOD, e) && !Scanned(wheel.now % MOD, e, p.wheel, p.slot)
    modifies wheel
    ensures Right(wheel, steps') && Alone(wheel, p, d) && wheel.now == old(wheel.now) + e
  {
    var fired := PassBy(wheel, e, p, d);
    OneMore(steps, e);
    steps' := steps + [e];
  }

  /** Any advance that does not: the timer does not run. */
  method PassBy(wheel: TimerWheel, e: nat, ghost p: Place, ghost d: nat) returns (fired: seq<Id>)
    requires wheel.Valid() && Alone(wheel, p, d) && p.Slot? && p.wheel < 5 && p.slot < 8
    requires 1 <= e <= MAX_TIMEOUT && !Scanned(wheel.now % MOD, e, p.wheel, p.slot)
    modifies wheel
    ensures wheel.Valid() && Alone(wheel, p, d) && wheel.now == old(wheel.now) + e && Elements(fired) == {}
    ensures old(OnTime(wheel.now, wheel.place, wheel.due)) && Covered(old(wheel.now) % MOD, e) ==>
              OnTime(wheel.now, wheel.place, wheel.due)
  {
    fired := wheel.Schedule(e);
    assert p == Slot(p.wheel, p.slot);
    assert 0 in old(wheel.place) && 0 !in fired;
    assert Elements(fired) == {};
    assert wheel.place.Keys == {0};
  }

  /**
   * The condition Covered is exact. Whenever it fails for an advance of e ticks at time now, some run of covered
   * advances brings a wheel to that time, on which every timer has run when it was due, and one timer is left
   * behind by the advance: it was due, and has not run.
   */
  method LateRun(now: nat, e: nat) returns (wheel: TimerWheel, fired: seq<Id>, ghost steps: seq<nat>)
    requires 1 <= e <= MAX_TIMEOUT && !Covered(now % MOD, e)
    ensures AllCovered(steps) && Total(steps) == now
    ensures fresh(wheel) && wheel.Valid() && wheel.now == now + e
    ensures Elements(fired) == {} && 0 in wheel.due && now < wheel.due[0] <= wheel.now
  {
    UncoveredShape(now, e);
    var c: Word := (now % MOD + e) % MOD;
    ghost var p, d;
    if e < 7 || Xor(now % MOD, c) < 32768 {
      wheel, p, d, steps := Waiting(now, e);
    } else {
      wheel, p, d, steps := WaitingRound(now);
    }
    fired := PassBy(wheel, e, p, d);
  }

  /** Slot 1 of the wheel whose boundary is crossed is not looked at. */
  method Waiting(now: nat, e: nat) returns (wheel: TimerWheel, ghost p: Place, ghost d: nat, ghost steps: seq<nat>)
    requires 1 <= e <= MAX_TIMEOUT && !Covered(now % MOD, e)
    requires e < 7 || Xor(now % MOD, (now % MOD + e) % MOD) < 32768
    ensures fresh(wheel) && Right(wheel, steps) && wheel.now == now && Alone(wheel, p, d) && now < d <= now + e
    ensures p.Slot? && p.wheel < 5 && p.slot < 8 && !Scanned(now % MOD, e, p.wheel, p.slot)
  {
    hide Right, Alone, Covered, Together, PlaceFor;
    UncoveredShape(now, e);
    var w := FarWheel(now % MOD, (now % MOD + e) % MOD);
    LateInSlot(now, e, w);
    var t := SlotStart(now, w);
    EightsIn(t, w);
    wheel, steps := WheelAt(t);
    FiledInFirst(t, w);
    StartAlone(wheel, Width(w), steps);
    InsideSlot(t, now - t, w, 1);
    WaitCovered(t, now, w);
    p, d := Slot(w, 1), t + Width(w);
    steps := Pass(wheel, now - t, p, d, steps);
  }

  lemma WaitCovered(t: nat, now: nat, w: nat)
    requires t < now <= t + MAX_TIMEOUT && 1 <= w < 5 && Together(t, now, w) && (w == 1 || now - t >= 8)
    ensures Covered(t % MOD, now - t)
  {
    BlockOrLongIsCovered(t, now - t);
  }

  /** With seven ticks slots 1 to 7 of the last wheel are looked at. A timer in slot 0 gets this far on a run
      that enters slot k by k ticks. */
  method WaitingRound(now: nat) returns (wheel: TimerWheel, ghost p: Place, ghost d: nat, ghost steps: seq<nat>)
    requires !Covered(now % MOD, 7) && Xor(now % MOD, (now % MOD + 7) % MOD) >= 32768
    ensures fresh(wheel) && Right(wheel, steps) && wheel.now == now && Alone(wheel, p, d) && now < d <= now + 7
    ensures p.Slot? && p.wheel < 5 && p.slot < 8 && !Scanned(now % MOD, 7, p.wheel, p.slot)
  {
    hide Right, Alone, Covered, Together, PlaceFor, Reached;
    UncoveredShape(now, 7);
    var t := SlotStart(now, 5);
    LateInTurn(now, t);
    wheel, steps := WheelAt(t);
    FiledInZero(t);
    StartAlone(wheel, 32768, steps);
    p, d := Slot(4, 0), t + 32768;
    var k := 0;
    while k < 7
      invariant k <= 7 && fresh(wheel) && Right(wheel, steps) && Alone(wheel, p, d)
      invariant wheel.now == t + Reached(k)
    {
      k := k + 1;
      ToSlot(t, k);
      steps := Pass(wheel, 4096 * k - 1 - Reached(k - 1), p, d, steps);
      steps := Pass(wheel, k, p, d, steps);
    }
    ToEnd(t, now);
    steps := Pass(wheel, now - t - Reached(7), p, d, steps);
  }

  /** How far into the turn of the last wheel the run is when it has entered slot k. */
  function Reached(k: nat): (r: nat)
    ensures k > 0 ==> r == 4096 * k + k - 1
    ensures k == 0 ==> r == 0
  {
    if k == 0 then 0 else 4096 * k + k - 1
  }

  lemma LateInTurn(now: nat, t: nat)
    requires t == SlotStart(now, 5) && !Together(now, now + 7, 5)
    ensures t % 32768 == 0 && t % 8 == 0 && t + 32768 - 7 <= now < t + 32768
  {
    SlotStartIs(now, 5);
    Digits(t);
  }

  /** Up to slot k, and into it by k ticks. */
  lemma ToSlot(t: nat, k: nat)
    requires t % 32768 == 0 && 1 <= k <= 7
    ensures var a, b := t + Reached(k - 1), t + 4096 * k - 1;
            && 8 <= b - a <= MAX_TIMEOUT
            && Covered(a % MOD, b - a) && !Scanned(a % MOD, b - a, 4, 0)
            && Covered(b % MOD, k) && !Scanned(b % MOD, k, 4, 0)
  {
    var a, b := t + Reached(k - 1), t + 4096 * k - 1;
    var q := t / 32768;
    BlockOrLongIsCovered(a, b - a);
    InTurn(t, a, k - 1, a - t - 4096 * (k - 1));
    InTurn(t, b, k - 1, 4095);
    InsideSlot(a, b - a, 4, 0);
    InTurn(t, b + k, k, k - 1);
    Crossing(b, k);
  }

  lemma InTurn(t: nat, u: nat, k: nat, r: nat)
    requires t % 32768 == 0 && k < 8 && r < 4096 && u == t + 4096 * k + r
    ensures u / 4096 == t / 4096 + k && u / 4096 % 8 == k && u / 32768 == t / 32768
  {
  }

  lemma Crossing(b: nat, k: nat)
    requires 1 <= k <= 7 && b / 4096 != (b + k) / 4096 && b / 32768 == (b + k) / 32768 && (b + k) / 4096 % 8 == k
    ensures Covered(b % MOD, k) && !Scanned(b % MOD, k, 4, 0)
  {
    FarWheelMeaning(b, k);
    Coarser(b);
    Coarser(b + k);
    TopIs(b, k, 4);
  }

  /** And on to now. */
  lemma ToEnd(t: nat, now: nat)
    requires t % 32768 == 0 && t + 32768 - 7 <= now < t + 32768
    ensures var a := t + Reached(7);
            8 <= now - a <= MAX_TIMEOUT && Covered(a % MOD, now - a) && !Scanned(a % MOD, now - a, 4, 0)
  {
    var a := t + Reached(7);
    BlockOrLongIsCovered(a, now - a);
    InTurn(t, a, 7, 6);
    InTurn(t, now, 7, now - t - 4096 * 7);
    InsideSlot(a, now - a, 4, 0);
  }
}
