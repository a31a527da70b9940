/** reclaim of ports/kvstore/flash_kvstore.c on values: what two moves, through scratch and back, make of the storage
    partition, for every list of failing reads. */
module KvReclaim {
  import opened Basics
  import opened KvLog
  import opened KvBytes
  import opened KvCompact
  import opened KvReads
  import opened KvMove

  /** An erased partition. */
  function Wiped(slots: nat): (m: seq<byte>)
    ensures |m| == 256 * slots && Erased(m)
  {
    seq(256 * slots, i => 255)
  }

  lemma WipedIs(m: seq<byte>, slots: nat)
    requires IsBank(m, slots)
    ensures IsBank(Wiped(slots), slots) && (Erased(m) ==> m == Wiped(slots))
  {
  }

  /** The first move, into a scratch partition that is x after the erase. */
  ghost function There(s: seq<byte>, x: seq<byte>, slots: nat, bad: seq<bool>): (c: Leg)
    requires IsBank(s, slots) && IsBank(x, slots)
    ensures IsBank(c.t, slots)
  {
    Course(s, x, slots, bad, slots)
  }

  /** The test in between: scratch has a slot and a line to spare. */
  ghost predicate RoomLeft(c: Leg, slots: nat)
    requires IsBank(c.t, slots)
  {
    && c.ok && !Hit(c.bad, slots)
    && AllocSlot(c.t, slots) < slots && AllocAt(c.t, slots) + 16 < DataSize(slots)
  }

  /** The second move, into a storage partition that is y after the erase. */
  ghost function BackInto(c: Leg, y: seq<byte>, slots: nat): (d: Leg)
    requires IsBank(c.t, slots) && IsBank(y, slots)
    ensures IsBank(d.t, slots)
  {
    Course(c.t, y, slots, Searched(c.bad, slots), slots)
  }

  /** The second move, into an erased one. */
  ghost function Back(c: Leg, slots: nat): (d: Leg)
    requires IsBank(c.t, slots)
    ensures IsBank(d.t, slots)
  {
    WipedIs(c.t, slots);
    BackInto(c, Wiped(slots), slots)
  }

  /** A key was missed by one of the moves at every slot that it has there. */
  ghost predicate Dropped(s: seq<byte>, slots: nat, c: Leg, d: Leg, h: Hash)
    requires IsBank(s, slots) && IsBank(c.t, slots)
  {
    Missed(LogOf(s, slots), h, c.misses) || Missed(LogOf(c.t, slots), h, d.misses)
  }

  /**
   * What a reclaim leaves that goes through: the keys that neither move missed. The map is the same exactly if no
   * move missed a key with a value. There are no tombstones, and no stale entries exactly if the second move copied
   * nothing twice.
   */
  ghost predicate Returned(s: seq<byte>, slots: nat, c: Leg, d: Leg)
    requires IsBank(s, slots) && IsBank(c.t, slots)
  {
    && Good(d.t, slots, |d.src|)
    && (forall h :: h != FREE ==>
          Lookup(d.t, slots, h) == if Dropped(s, slots, c, d, h) then None else Lookup(s, slots, h))
    && (SameMap(s, d.t, slots) <==> NoneLost(s, slots, c.misses) && NoneLost(c.t, slots, d.misses))
    && (forall i :: 0 <= i < |d.src| ==> LogOf(d.t, slots)[i].len > 0)
    && (Distinct(d.src) <==> forall i :: 0 <= i < |d.src| ==> i in Live(LogOf(d.t, slots), |d.src|))
  }

  /** If both moves are sure that is what is left. */
  lemma Success(s: seq<byte>, slots: nat, n: nat, bad: seq<bool>)
    requires Good(s, slots, n) && slots > 0
    ensures IsBank(Wiped(slots), slots)
    ensures var c := There(s, Wiped(slots), slots, bad);
            var d := Back(c, slots);
            c.ok && c.sure && d.ok && d.sure ==> Returned(s, slots, c, d)
  {
    hide Course, Packed, Missed, Live, Distinct, OneSlot, Unmissed, Carried, Lookup, SameMap, NoneLost, Searched, Lines;
    WipedIs(s, slots);
    var c := There(s, Wiped(slots), slots, bad);
    Delivered(s, Wiped(slots), slots, n, bad);
    if c.ok && c.sure {
      Delivered(c.t, Wiped(slots), slots, |c.src|, Searched(c.bad, slots));
      var d := Back(c, slots);
      if d.ok && d.sure {
        TwiceCarried(s, c.t, d.t, slots, c.misses, d.misses);
      }
    }
  }

  lemma TwiceCarried(s: seq<byte>, t: seq<byte>, u: seq<byte>, slots: nat, lost: set<nat>, lost': set<nat>)
    requires Carried(s, t, slots, lost) && Carried(t, u, slots, lost')
    ensures forall h :: h != FREE ==>
              Lookup(u, slots, h) ==
                if Missed(LogOf(s, slots), h, lost) || Missed(LogOf(t, slots), h, lost') then None
                else Lookup(s, slots, h)
    ensures SameMap(s, u, slots) <==> NoneLost(s, slots, lost) && NoneLost(t, slots, lost')
  {
    hide Missed, Lookup;
    if SameMap(s, u, slots) {
      forall h | h != FREE && Lookup(t, slots, h).Some? ensures !Missed(LogOf(t, slots), h, lost') {
        assert Lookup(s, slots, h) == Lookup(u, slots, h);
        assert Lookup(t, slots, h) == Lookup(s, slots, h);
      }
    }
  }

  /** After a first move that copied nothing twice the second one does not either, and is sure; it keeps every key
      exactly if it misses no slot. */
  lemma SureBack(s: seq<byte>, slots: nat, n: nat, bad: seq<bool>)
    requires Good(s, slots, n) && slots > 0
    ensures IsBank(Wiped(slots), slots)
    ensures var c := There(s, Wiped(slots), slots, bad);
            var d := Back(c, slots);
            c.ok && c.sure && Distinct(c.src) ==>
              d.sure && Distinct(d.src) && (NoneLost(c.t, slots, d.misses) <==> d.misses == {})
  {
    hide Course, Packed, Live, Distinct, OneSlot, Unmissed;
    WipedIs(s, slots);
    var c := There(s, Wiped(slots), slots, bad);
    Delivered(s, Wiped(slots), slots, n, bad);
    if c.ok && c.sure && Distinct(c.src) {
      var d := Back(c, slots);
      OneSlotEach(c.t, Wiped(slots), slots, |c.src|, Searched(c.bad, slots), slots);
      MissesFail(c.t, Wiped(slots), slots, |c.src|, Searched(c.bad, slots), slots);
      OneSlotLost(c.t, slots, |c.src|, d.misses);
    }
  }

  lemma OneSlotLost(m: seq<byte>, slots: nat, n: nat, misses: set<nat>)
    requires Good(m, slots, n) && OneSlot(LogOf(m, slots))
    requires forall i :: 0 <= i < n ==> LogOf(m, slots)[i].len > 0
    requires forall i :: i in misses ==> i < slots && LogOf(m, slots)[i].hash != FREE
    ensures NoneLost(m, slots, misses) <==> misses == {}
  {
    var log := LogOf(m, slots);
    if misses == {} {
      forall h | h != FREE && Lookup(m, slots, h).Some? ensures !Missed(log, h, misses) {
        NoneMissed(log, h);
      }
    } else {
      var i :| i in misses;
      var h := log[i].hash;
      OnlySlot(log, i);
      GoodInBank(m, slots, n, i);
      assert Lookup(m, slots, h).Some? && Missed(log, h, misses);
    }
  }

  lemma OnlySlot(log: Log, i: nat)
    requires OneSlot(log) && i < |log| && log[i].hash != FREE
    ensures Last(log, log[i].hash) == i
    ensures forall q :: 0 <= q < |log| && log[q].hash == log[i].hash ==> q == i
  {
    var p := Last(log, log[i].hash);
    assert i <= p && log[p].hash == log[i].hash;
  }

  // ---------------------------------------------------------------- without failing reads

  /** t holds the map of f, each live key once, and nothing else. */
  ghost predicate Compacted(f: seq<byte>, n: nat, t: seq<byte>, m: nat, slots: nat) {
    && Good(f, slots, n) && Good(t, slots, m)
    && SameMap(f, t, slots)
    && m == |Live(LogOf(f, slots), n)| && End(LogOf(t, slots), m) == LiveBytes(LogOf(f, slots), n)
    && forall i :: 0 <= i < m ==> i in Live(LogOf(t, slots), m)
  }

  lemma CompactedGood(f: seq<byte>, n: nat, t: seq<byte>, m: nat, slots: nat)
    requires Compacted(f, n, t, m, slots)
    ensures Good(f, slots, n) && Good(t, slots, m) && SameMap(f, t, slots)
  {
  }

  /** The live keys fill every slot, or their values leave no room for `need` bytes. */
  ghost predicate Crowded(m: seq<byte>, n: nat, slots: nat, need: nat)
    requires Good(m, slots, n)
  {
    |Live(LogOf(m, slots), n)| == slots || LiveBytes(LogOf(m, slots), n) + need >= DataSize(slots)
  }

  lemma {:induction false} FullSize(s: set<nat>, m: nat)
    requires forall i: nat :: i in s <==> i < m
    ensures |s| == m
  {
    if m == 0 {
      assert s == {};
    } else {
      FullSize(s - {m - 1}, m - 1);
    }
  }

  /** Compacting a compact partition changes nothing but the place. */
  lemma CompactTwice(s: seq<byte>, n: nat, t: seq<byte>, m: nat, u: seq<byte>, m': nat, slots: nat)
    requires Compacted(s, n, t, m, slots) && Compacted(t, m, u, m', slots)
    ensures Compacted(s, n, u, m', slots)
  {
    var log := LogOf(t, slots);
    FullSize(Live(log, m), m);
    LinesWithin(log, Live(log, m), m);
    forall h | h != FREE ensures Lookup(s, slots, h) == Lookup(u, slots, h) {
      assert Lookup(s, slots, h) == Lookup(t, slots, h);
    }
  }

  /** A good partition with a slot and a line to spare. */
  ghost predicate Spare(m: seq<byte>, slots: nat, n: nat) {
    Good(m, slots, n) && n < slots && End(LogOf(m, slots), n) + 16 < DataSize(slots)
  }

  lemma QuietMove(f: seq<byte>, t: seq<byte>, slots: nat, n: nat, bad: seq<bool>)
    requires Good(f, slots, n) && IsBank(t, slots) && slots > 0 && Erased(t) && Quiet(bad)
    ensures var c := Course(f, t, slots, bad, slots);
            c.ok && c.sure && Quiet(c.bad) && (bad == [] ==> c.bad == []) && Compacted(f, n, c.t, |c.src|, slots)
  {
    hide Course, Neat, Carrying, Quiet, Live, Packed;
    QuietCourse(f, t, slots, n, bad, slots);
    CourseLaden(f, t, slots, n, bad, slots);
    var c := Course(f, t, slots, bad, slots);
    LadenMeans(f, slots, n, slots, c);
    CompactDone(f, c.t, slots, n, c.src);
  }

  /** Without failing reads the second move is begun exactly if the live data leave a slot and a line, and then
      storage is the compaction. */
  lemma QuietReclaim(s: seq<byte>, slots: nat, n: nat, bad: seq<bool>)
    requires Good(s, slots, n) && slots > 0 && Quiet(bad)
    ensures IsBank(Wiped(slots), slots)
    ensures var c := There(s, Wiped(slots), slots, bad);
            var d := Back(c, slots);
            && c.ok && c.sure && d.ok && d.sure && SameMap(s, c.t, slots)
            && Quiet(c.bad) && Quiet(d.bad)
            && (RoomLeft(c, slots) <==> !Crowded(s, n, slots, 16))
            && Compacted(s, n, c.t, |c.src|, slots) && Compacted(s, n, d.t, |d.src|, slots)
  {
    hide Course, Quiet, Live, Packed, Hit, Searched;
    WipedIs(s, slots);
    var c := There(s, Wiped(slots), slots, bad);
    QuietMove(s, Wiped(slots), slots, n, bad);
    QuietSearch(c.bad, slots);
    QuietMove(c.t, Wiped(slots), slots, |c.src|, Searched(c.bad, slots));
    var d := Back(c, slots);
    CompactTwice(s, n, c.t, |c.src|, d.t, |d.src|, slots);
    GoodAlloc(c.t, slots, |c.src|);
  }

  /** What a reclaim of a good partition comes to, if the first erase takes effect. */
  lemma Outcomes(s: seq<byte>, slots: nat, n: nat, bad: seq<bool>)
    requires Good(s, slots, n) && slots > 0
    ensures IsBank(Wiped(slots), slots) && IsBank(s, slots)
    ensures var c := There(s, Wiped(slots), slots, bad);
            var d := Back(c, slots);
            && (c.ok && c.sure ==> Carried(s, c.t, slots, c.misses))
            && (c.ok && c.sure && d.ok && d.sure ==> Returned(s, slots, c, d) && Good(d.t, slots, |d.src|))
            && (Quiet(bad) ==>
                  && c.ok && c.sure && d.ok && d.sure && SameMap(s, c.t, slots) && Quiet(c.bad) && Quiet(d.bad)
                  && (RoomLeft(c, slots) <==> !Crowded(s, n, slots, 16)) && Compacted(s, n, d.t, |d.src|, slots))
  {
    hide Course, Quiet, Crowded, Compacted, RoomLeft, Packed, Carried, Distinct, Live;
    WipedIs(s, slots);
    Delivered(s, Wiped(slots), slots, n, bad);
    Success(s, slots, n, bad);
    if Quiet(bad) {
      QuietReclaim(s, slots, n, bad);
    }
  }
}
