/** Index arithmetic of the hierarchical timer wheel (modules/apptimer/src/apptimer.c):
    five wheels of eight slots, slot widths 1, 8, 64, 512 and 4096 ticks, on a
    counter that wraps at 2^32. */
module WheelArith {
  import opened Bits

  const MOD := 0x1_0000_0000
  const MAX_TIMEOUT := 0x7fff_ffff
  const NR_WHEELS := 5
  const NR_SLOTS := 8

  type Word = x: int | 0 <= x < MOD

  datatype Place = Slot(wheel: nat, slot: nat) | Pending | Moving

  /** Ticks covered by one slot of a wheel: 1 << (SLOTS_BITS * wheel). */
  function Width(w: nat): (r: nat)
    ensures r >= 1
  {
    if w == 0 then 1 else if w == 1 then 8 else if w == 2 then 64
    else if w == 3 then 512 else if w == 4 then 4096 else 32768
  }

  /** get_wheel_index_from_timeout */
  function WheelIndex(timeout: nat): nat
    requires timeout != 0
  {
    var top: nat := Fls(timeout) - 1;
    (if 14 > top then top else 14) / 3
  }

  /** get_slot_index_from_timeout */
  function SlotIndex(timeout: nat, wheel: nat): nat {
    timeout / Width(wheel) % NR_SLOTS
  }

  /** is_timer_expired: !time_before(goal, counter), a signed 32-bit comparison. */
  predicate Expired(goal: Word, counter: Word) {
    (counter - goal) % MOD < 0x8000_0000
  }

  /** The macro's own comparison: the difference, read as a signed number, is not negative. */
  lemma ExpiredIsSigned(goal: Word, counter: Word)
    ensures var d := (counter - goal) % 0x1_0000_0000;
            var signed := if d < 0x8000_0000 then d else d - 0x1_0000_0000;
            Expired(goal, counter) <==> signed >= 0
  {
  }

  /** Where insert_timer_into_wheel links an unexpired timer. */
  function SlotFor(counter: Word, goal: Word): Place
    requires !Expired(goal, counter)
  {
    var delta := (goal - counter) % MOD;
    var x := (delta + counter % 8) % MOD;
    if x == 0 then Pending  // not reached: see SlotForFits
    else
      var w := WheelIndex(x);
      Slot(w, SlotIndex(x, w))
  }

  /** farmost_wheel of apptimer_schedule */
  function FarWheel(previous: Word, current: Word): nat
    requires previous != current
  {
    XorZero(previous, current);
    WheelIndex(Xor(previous, current))
  }

  /** slot of apptimer_schedule */
  function FarSlot(previous: Word, current: Word): nat
    requires previous != current
  {
    if Xor(previous, current) >= 32768 then 7
    else SlotIndex(current, FarWheel(previous, current))
  }

  /** Slots emptied and re-sorted by one apptimer_schedule call. */
  predicate Scanned(previous: Word, elapsed: nat, w: nat, s: nat)
    requires 1 <= elapsed < MOD
  {
    var current := (previous + elapsed) % MOD;
    var f := FarWheel(previous, current);
    var top := FarSlot(previous, current);
    w < f || (w == f && top - elapsed < s <= top)
  }

  /** The advances for which one call re-sorts every slot that can hold a due timer.
      In particular any advance inside the current block of eight ticks, and any
      advance of eight ticks or more. */
  predicate Covered(previous: Word, elapsed: nat)
    requires 1 <= elapsed < MOD
  {
    var current := (previous + elapsed) % MOD;
    FarWheel(previous, current) == 0 ||
    elapsed >= if Xor(previous, current) >= 32768 then 8 else FarSlot(previous, current)
  }

  /** A timer due at `due` may sit in slot s of wheel w at time `now`. Time is
      unbounded here; the counter is `now` modulo 2^32. */
  ghost predicate Fits(now: nat, w: nat, s: nat, due: nat) {
    var g := Width(w);
    var block := now - now % Width(w + 1);
    if w == 0 then due == block + s && now % 8 < s < 8
    else
      && w < 5 && s < 8
      && due >= block + (if s == 0 then 8 else s) * g
      && due >= block + (now / g % 8 + 1) * g
  }

  lemma Powers()
    ensures Pow2(3) == 8 && Pow2(6) == 64 && Pow2(9) == 512 && Pow2(12) == 4096 && Pow2(15) == 32768
  {
    assert Pow2(3) == 8;
    assert Pow2(6) == 64;
    assert Pow2(9) == 512;
    assert Pow2(12) == 4096;
    assert Pow2(15) == 32768;
  }

  lemma WheelIndexRange(x: nat)
    requires x != 0
    ensures WheelIndex(x) == if x < 8 then 0 else if x < 64 then 1 else if x < 512 then 2
                             else if x < 4096 then 3 else 4
  {
    Powers();
    FlsAtMost(x, 3);
    FlsAtMost(x, 6);
    FlsAtMost(x, 9);
    FlsAtMost(x, 12);
  }

  /** Blocks divide the counter range, so block numbers split at the wrap. */
  lemma BlockSplit(t: nat)
    ensures var q, r := t / MOD, t % MOD;
            && t / 8 == q * 536870912 + r / 8
            && t / 64 == q * 67108864 + r / 64
            && t / 512 == q * 8388608 + r / 512
            && t / 4096 == q * 1048576 + r / 4096
            && t / 32768 == q * 131072 + r / 32768
  {
  }

  /** Two times less than half the range apart share a block exactly when their
      counter values do. */
  lemma SameBlock(now: nat, e: nat)
    requires e <= MAX_TIMEOUT
    ensures now % MOD / 8 == (now + e) % MOD / 8 <==> now / 8 == (now + e) / 8
    ensures now % MOD / 64 == (now + e) % MOD / 64 <==> now / 64 == (now + e) / 64
    ensures now % MOD / 512 == (now + e) % MOD / 512 <==> now / 512 == (now + e) / 512
    ensures now % MOD / 4096 == (now + e) % MOD / 4096 <==> now / 4096 == (now + e) / 4096
    ensures now % MOD / 32768 == (now + e) % MOD / 32768 <==> now / 32768 == (now + e) / 32768
  {
    BlockSplit(now);
    BlockSplit(now + e);
    var q, r, q', r' := now / MOD, now % MOD, (now + e) / MOD, (now + e) % MOD;
    assert (q' == q && r' == r + e) || (q' == q + 1 && r' == r + e - MOD);
  }

  /** The farmost wheel is the widest one whose block boundary the advance crosses. */
  lemma FarWheelMeaning(now: nat, e: nat)
    requires 1 <= e <= MAX_TIMEOUT
    ensures var p, c := now % MOD, (now % MOD + e) % MOD;
            && p != c
            && c == (now + e) % MOD
            && (Xor(p, c) >= 32768 <==> now / 32768 != (now + e) / 32768)
            && FarWheel(p, c) == (if now / 8 == (now + e) / 8 then 0
                                  else if now / 64 == (now + e) / 64 then 1
                                  else if now / 512 == (now + e) / 512 then 2
                                  else if now / 4096 == (now + e) / 4096 then 3 else 4)
  {
    var p, c := now % MOD, (now % MOD + e) % MOD;
    assert c == (now + e) % MOD && p != c;
    Powers();
    XorZero(p, c);
    var x := Xor(p, c);
    WheelIndexRange(x);
    SameBlock(now, e);
    FlsAtMost(x, 3); XorTopBit(p, c, 3);
    FlsAtMost(x, 6); XorTopBit(p, c, 6);
    FlsAtMost(x, 9); XorTopBit(p, c, 9);
    FlsAtMost(x, 12); XorTopBit(p, c, 12);
    FlsAtMost(x, 15); XorTopBit(p, c, 15);
  }

  /** A time's base-eight digits. */
  lemma Digit(t: nat, d: nat)
    requires d > 0
    ensures t % (8 * d) == t / d % 8 * d + t % d
  {
    var a, r := t / d, t % d;
    var b, c := a / 8, a % 8;
    assert d * c <= d * 7 by { MulMonotone(d, c, 7); }
    assert t == d * a + r;
    assert d * a == 8 * d * b + d * c by { assert a == 8 * b + c; }
    DivideUnique(t, 8 * d, b, d * c + r);
  }

  lemma Digits(t: nat)
    ensures t % 64 == t / 8 % 8 * 8 + t % 8
    ensures t % 512 == t / 64 % 8 * 64 + t % 64
    ensures t % 4096 == t / 512 % 8 * 512 + t % 512
    ensures t % 32768 == t / 4096 % 8 * 4096 + t % 4096
  {
    Digit(t, 8);
    Digit(t, 64);
    Digit(t, 512);
    Digit(t, 4096);
  }

  /** insert_timer_into_wheel counts from the start of the current block of eight. */
  lemma SlotForValue(now: nat, due: nat)
    requires now < due <= now + MAX_TIMEOUT
    ensures !Expired(due % MOD, now % MOD)
    ensures var x := due - now + now % 8;
            var w := WheelIndex(x);
            SlotFor(now % MOD, due % MOD) == Slot(w, SlotIndex(x, w))
  {
    var c: Word, g: Word := now % MOD, due % MOD;
    var d := due - now;
    WrapDifference(now, due);
    assert !Expired(g, c);
    WrapDifference8(now);
    SmallWrap(d + c % 8);
  }

  lemma SmallWrap(x: nat)
    requires x < MOD
    ensures x % MOD == x
  {
  }

  /** Differences of wrapped times. */
  lemma WrapDifference(t: nat, u: nat)
    requires t < u < t + MOD
    ensures (u % MOD - t % MOD) % MOD == u - t
    ensures (t % MOD - u % MOD) % MOD == MOD - (u - t)
  {
    var q, r := t / MOD, t % MOD;
    var d := u - t;
    if r + d < MOD {
      DivideUnique(u, MOD, q, r + d);
      DivideUnique(-d, MOD, -1, MOD - d);
    } else {
      DivideUnique(u, MOD, q + 1, r + d - MOD);
      DivideUnique(d - MOD, MOD, -1, d);
    }
  }

  lemma WrapDifference8(t: nat)
    ensures t % MOD % 8 == t % 8
  {
    AddEights(t % MOD, 536870912 * (t / MOD));
    assert t == t % MOD + 8 * (536870912 * (t / MOD));
  }

  lemma IndexFits(now: nat, x: nat)
    requires x > now % 8
    ensures var w := WheelIndex(x);
            Fits(now, w, SlotIndex(x, w), now - now % 8 + x)
  {
    WheelIndexRange(x);
    if x >= 8 {
      OuterIndexFits(now, x, WheelIndex(x));
    }
  }

  lemma OuterIndexFits(now: nat, x: nat, w: nat)
    requires 1 <= w < 5 && x >= Width(w)
    requires w == 4 || x < Width(w + 1)
    ensures Fits(now, w, SlotIndex(x, w), now - now % 8 + x)
  {
    Digits(now);
    var g := Width(w);
    var s := x / g % 8;
    assert x >= (if s == 0 then 8 else s) * g by {
      if w == 1 { } else if w == 2 { } else if w == 3 { } else { }
    }
    assert now % Width(w + 1) >= now / g % 8 * g;
    assert now - now % 8 >= now - now % Width(w + 1) + now / g % 8 * g;
  }

  /** A timer linked by insert_timer_into_wheel fits its slot. */
  lemma SlotForFits(now: nat, due: nat)
    requires now < due <= now + MAX_TIMEOUT
    ensures !Expired(due % MOD, now % MOD)
    ensures var p := SlotFor(now % MOD, due % MOD);
            p.Slot? && Fits(now, p.wheel, p.slot, due)
  {
    SlotForValue(now, due);
    IndexFits(now, due - now + now % 8);
  }

  lemma FitsIsFuture(now: nat, w: nat, s: nat, due: nat)
    requires Fits(now, w, s, due)
    ensures due > now
  {
    Digits(now);
  }

  lemma FitsRange(now: nat, w: nat, s: nat, due: nat)
    requires Fits(now, w, s, due)
    ensures w < 5 && s < 8 && (w == 0 ==> s > now % 8)
  {
  }

  lemma SlotOfCounter(t: nat, w: nat)
    requires w < 5
    ensures SlotIndex(t % MOD, w) == t / Width(w) % 8
  {
    BlockSplit(t);
    var q, r := t / MOD, t % MOD;
    if w == 0 {
      WrapDifference8(t);
    } else if w == 1 {
      AddEights(r / 8, q * 67108864);
    } else if w == 2 {
      AddEights(r / 64, q * 8388608);
    } else if w == 3 {
      AddEights(r / 512, q * 1048576);
    } else {
      AddEights(r / 4096, q * 131072);
    }
  }

  lemma AddEights(a: nat, m: nat)
    ensures (a + 8 * m) % 8 == a % 8
  {
  }

  lemma Coarser(t: nat)
    ensures t / 64 == t / 8 / 8 && t / 512 == t / 64 / 8 && t / 4096 == t / 512 / 8
    ensures t / 32768 == t / 4096 / 8
  {
  }

  /** Two times lie in one slot of a wheel. */
  predicate Together(t: nat, u: nat, w: nat) {
    t / Width(w) == u / Width(w)
  }

  /** Slot s comes after the one of time u. */
  predicate Ahead(u: nat, w: nat, s: nat) {
    s > u / Width(w) % 8 || (s == 0 && w > 0)
  }

  /** The farmost wheel f by blocks: the advance stays inside one block of every wheel
      beyond f, and leaves its block of wheel f - 1. */
  lemma FarBlocks(now: nat, e: nat, w: nat)
    requires 1 <= e <= MAX_TIMEOUT && w < 5
    ensures var f := FarWheel(now % MOD, (now % MOD + e) % MOD);
            && (f < w ==> Together(now, now + e, w))
            && (f <= w && Xor(now % MOD, (now % MOD + e) % MOD) < 32768 ==> Together(now, now + e, w + 1))
            && f < 5
  {
    FarWheelMeaning(now, e);
    Coarser(now);
    Coarser(now + e);
  }

  /** What is left in place by a covered advance lies beyond the current slot, or in
      slot 0 of an outer wheel. */
  lemma UnscannedSlot(now: nat, e: nat, w: nat, s: nat)
    requires 1 <= e <= MAX_TIMEOUT && w < 5 && s < 8 && (w == 0 ==> s > now % 8)
    requires Covered(now % MOD, e) && !Scanned(now % MOD, e, w, s)
    requires FarWheel(now % MOD, (now % MOD + e) % MOD) >= w
    ensures Xor(now % MOD, (now % MOD + e) % MOD) < 32768
    ensures FarWheel(now % MOD, (now % MOD + e) % MOD) == w && Ahead(now + e, w, s)
  {
    var p: Word := now % MOD;
    var c: Word := (p + e) % MOD;
    var f, top := FarWheel(p, c), FarSlot(p, c);
    var far := Xor(p, c) >= 32768;
    assert (f == 0 || e >= if far then 8 else top) && !(w < f || (w == f && top - e < s <= top));
    assert w == 0 ==> top == now % 8 + e && !far by {
      if w == 0 { InnerTop(now, e); }
    }
    assert far ==> top == 7;
    assert !far && (s > top || (s == 0 && w > 0));
    assert top == (now + e) / Width(w) % 8 by { TopIs(now, e, w); }
  }

  lemma TopIs(now: nat, e: nat, w: nat)
    requires 1 <= e <= MAX_TIMEOUT && w < 5
    requires Xor(now % MOD, (now % MOD + e) % MOD) < 32768
    requires FarWheel(now % MOD, (now % MOD + e) % MOD) == w
    ensures FarSlot(now % MOD, (now % MOD + e) % MOD) == (now + e) / Width(w) % 8
  {
    WrapAdd(now, e);
    SlotOfCounter(now + e, w);
  }

  lemma InnerTop(now: nat, e: nat)
    requires 1 <= e <= MAX_TIMEOUT
    requires FarWheel(now % MOD, (now % MOD + e) % MOD) == 0
    ensures FarSlot(now % MOD, (now % MOD + e) % MOD) == now % 8 + e
    ensures Xor(now % MOD, (now % MOD + e) % MOD) < 32768
  {
    InnerAdvance(now, e);
    TopIs(now, e, 0);
  }

  lemma WrapAdd(t: nat, e: nat)
    ensures (t % MOD + e) % MOD == (t + e) % MOD
  {
    var s := t % MOD + e;
    DivideUnique(t + e, MOD, t / MOD + s / MOD, s % MOD);
  }

  lemma InnerAdvance(now: nat, e: nat)
    requires 1 <= e <= MAX_TIMEOUT
    requires FarWheel(now % MOD, (now % MOD + e) % MOD) == 0
    ensures Xor(now % MOD, (now % MOD + e) % MOD) < 32768
    ensures now % 8 + e == (now + e) % 8
  {
    FarBlocks(now, e, 1);
    FarBlocks(now, e, 4);
    FarWheelMeaning(now, e);
    Coarser(now);
    Coarser(now + e);
    assert now / 8 == (now + e) / 8;
  }

  /** A covered advance leaves every slot it does not re-sort correct. */
  lemma StillFits(now: nat, e: nat, w: nat, s: nat, due: nat)
    requires 1 <= e <= MAX_TIMEOUT
    requires Fits(now, w, s, due)
    requires Covered(now % MOD, e) && !Scanned(now % MOD, e, w, s)
    ensures Fits(now + e, w, s, due)
  {
    hide Fits, Together, Ahead, Covered, Scanned;
    FarWheelMeaning(now, e);
    FitsRange(now, w, s, due);
    FarBlocks(now, e, w);
    var p: Word, c: Word := now % MOD, (now % MOD + e) % MOD;
    if FarWheel(p, c) < w {
      SameBlockFits(now, now + e, w, s, due);
    } else {
      UnscannedSlot(now, e, w, s);
      SameWheelFits(now, now + e, w, s, due);
    }
  }

  lemma SameBlockFits(t: nat, u: nat, w: nat, s: nat, due: nat)
    requires Fits(t, w, s, due) && 1 <= w && Together(t, u, w)
    ensures Fits(u, w, s, due)
  {
    Coarser(t);
    Coarser(u);
    KeepsOuterBlock(t, u, w);
  }

  lemma SameWheelFits(t: nat, u: nat, w: nat, s: nat, due: nat)
    requires Fits(t, w, s, due) && t <= u
    requires Together(t, u, w + 1) && Ahead(u, w, s)
    ensures Fits(u, w, s, due)
  {
    if w == 0 {
    } else {
      KeepsOuterBlock(t, u, w);
      var g := Width(w);
      assert u / g % 8 + 1 <= if s == 0 then 8 else s;
      MulMonotone(g, u / g % 8 + 1, if s == 0 then 8 else s);
    }
  }

  lemma KeepsOuterBlock(t: nat, u: nat, w: nat)
    requires 1 <= w < 5 && t / Width(w + 1) == u / Width(w + 1)
    ensures t - t % Width(w + 1) == u - u % Width(w + 1)
  {
  }

  /** Advances inside the current block of eight ticks, and advances of eight ticks or
      more, are covered. */
  lemma BlockOrLongIsCovered(now: nat, e: nat)
    requires 1 <= e <= MAX_TIMEOUT && (now / 8 == (now + e) / 8 || e >= 8)
    ensures Covered(now % MOD, e)
  {
    FarWheelMeaning(now, e);
  }
}
