/** Moves of ports/kvstore/flash_kvstore.c into a partition that a failing erase has not emptied: which of its old
    entries win over those that are moved. */
module KvErase {
  import opened Basics
  import opened KvLog
  import opened KvBytes
  import opened KvFlash
  import opened KvReads
  import opened KvMove
  import opened KvReclaim

  /** alloc_entry overlooks no value. */
  ghost predicate AllSeen(m: seq<byte>, slots: nat)
    requires IsBank(m, slots)
  {
    forall i :: 0 <= i < slots ==> SeenEntry(slots, LogOf(m, slots)[i])
  }

  ghost predicate SeenEntry(slots: nat, e: Entry) {
    e.hash != FREE && InBank(slots, e) ==> EndOf(e) < DataSize(slots)
  }

  /** A copy that alloc_entry does not overlook, of a key that the target has not got, sets that key alone. */
  lemma PasteLookup(f: seq<byte>, t: seq<byte>, slots: nat, e: Entry, h: Hash)
    requires IsBank(f, slots) && IsBank(t, slots) && Storable(e) && Fits(t, slots, e) && e.hash != FREE && e.len > 0
    requires AllSeen(t, slots) && Last(LogOf(t, slots), e.hash) < 0 && h != FREE
    requires AllocAt(t, slots) + Align(e.len) < DataSize(slots)
    ensures InBank(slots, e)
    ensures var t' := Pasted(f, t, slots, e);
            && AllSeen(t', slots)
            && (Last(LogOf(t', slots), h) >= 0 <==> h == e.hash || Last(LogOf(t, slots), h) >= 0)
            && Lookup(t', slots, h) == if h == e.hash then Some(Value(f, slots, e)) else Lookup(t, slots, h)
  {
    hide Append, Align, Value, ScanEnd, FirstFree;
    NewFits(t, slots, e);
    var k, copy, d, log := AllocSlot(t, slots), NewEntry(t, slots, e), Taken(f, slots, e), LogOf(t, slots);
    AppendLog(t, slots, k, copy, d);
    FirstFreeIs(log, slots);
    LastUpdate(log, k, copy, h);
    var j := Last(log, h);
    if h == e.hash {
      AppendNewValue(t, slots, k, copy, d);
    } else if j >= 0 && InBank(slots, log[j]) {
      assert SeenEntry(slots, log[j]);
      ScanBeyond(log, slots, DataSize(slots), j);
      AppendOldValue(t, slots, k, copy, d, log[j]);
    }
    var log' := log[k := copy];
    forall i | 0 <= i < slots ensures SeenEntry(slots, log'[i]) {
      assert SeenEntry(slots, log[i]);
    }
  }

  lemma LastUpdate(log: Log, k: nat, e: Entry, h: Hash)
    requires k < |log| && log[k].hash == FREE && e.hash != FREE && h != FREE && Last(log, e.hash) < 0
    ensures Last(log[k := e], h) == if h == e.hash then k else Last(log, h)
  {
    var log' := log[k := e];
    assert forall i :: 0 <= i < |log| && i != k ==> log'[i] == log[i];
    assert log'[k] == e;
  }

  /** After k turns of a move from f: a key that the target had is as it was, and the others that were met have the
      value that f holds. */
  ghost predicate Merging(f: seq<byte>, t: seq<byte>, slots: nat, k: nat, u: seq<byte>)
    requires IsBank(f, slots) && IsBank(t, slots) && IsBank(u, slots)
  {
    && AllSeen(u, slots)
    && forall h :: h != FREE ==> MergedKey(f, t, slots, k, u, h)
  }

  ghost predicate MergedKey(f: seq<byte>, t: seq<byte>, slots: nat, k: nat, u: seq<byte>, h: Hash)
    requires IsBank(f, slots) && IsBank(t, slots) && IsBank(u, slots)
  {
    if Last(LogOf(t, slots), h) >= 0 then Last(LogOf(u, slots), h) >= 0 && Lookup(u, slots, h) == Lookup(t, slots, h)
    else if Last(LogOf(u, slots), h) >= 0 then Lookup(u, slots, h) == Lookup(f, slots, h)
    else
      forall q: nat :: q < k && q < slots && LogOf(f, slots)[q].hash == h ==> !Liveable(LogOf(f, slots), slots, h)
  }

  lemma MergeStep(f: seq<byte>, t: seq<byte>, slots: nat, k: nat, k': nat, a: Leg)
    requires IsBank(f, slots) && IsBank(t, slots) && IsBank(a.t, slots) && k < slots && k' == k + 1
    requires Quiet(a.bad) && a.sure && Merging(f, t, slots, k, a.t)
    ensures var b := Step(f, slots, k, a);
            b.ok && b.sure ==> Merging(f, t, slots, k', b.t)
  {
    hide Hit, Passed, Searched, Quiet, AllSeen, Lookup, LastIn, Fits, Pasted, Chunks, IsBank, Align;
    var log, copies := LogOf(f, slots), LogOf(a.t, slots);
    var h, r := log[k].hash, Passed(a.bad, 1);
    QuietHits(a.bad, 1);
    QuietSearch(r, slots);
    var r1 := Searched(r, slots);
    QuietSearch(r1, slots);
    var r2 := Searched(r1, slots);
    var b := Step(f, slots, k, a);
    if h != FREE && Liveable(log, slots, h) && Last(copies, h) < 0 {
      var e := log[Last(log, h)];
      LatestIs(copies, e, slots);
      QuietHits(r2, slots + Chunks(e.len));
      if b.ok && b.sure {
        MergePut(f, t, slots, k, k', a.t, e);
      }
    } else {
      forall g | g != FREE ensures MergedKey(f, t, slots, k', a.t, g) {
        assert MergedKey(f, t, slots, k, a.t, g);
      }
    }
  }

  lemma MergePut(f: seq<byte>, t: seq<byte>, slots: nat, k: nat, k': nat, u: seq<byte>, e: Entry)
    requires IsBank(f, slots) && IsBank(t, slots) && IsBank(u, slots) && k < slots && k' == k + 1
    requires Merging(f, t, slots, k, u) && LogOf(f, slots)[k].hash != FREE && Last(LogOf(u, slots), e.hash) < 0
    requires Liveable(LogOf(f, slots), slots, LogOf(f, slots)[k].hash)
    requires e == LogOf(f, slots)[Last(LogOf(f, slots), LogOf(f, slots)[k].hash)]
    requires Fits(u, slots, e) && AllocAt(u, slots) + Align(e.len) < DataSize(slots)
    ensures Merging(f, t, slots, k', Pasted(f, u, slots, e))
  {
    hide AllSeen, LastIn, Fits, Pasted, Align, Value;
    var u' := Pasted(f, u, slots, e);
    PasteLookup(f, u, slots, e, e.hash);
    forall h | h != FREE ensures MergedKey(f, t, slots, k', u', h) {
      PasteLookup(f, u, slots, e, h);
      assert MergedKey(f, t, slots, k, u, h);
    }
  }

  lemma {:induction false} MergeCourse(f: seq<byte>, t: seq<byte>, slots: nat, bad: seq<bool>, k: nat)
    requires IsBank(f, slots) && IsBank(t, slots) && AllSeen(t, slots) && Quiet(bad) && k <= slots
    ensures var c := Course(f, t, slots, bad, k);
            Quiet(c.bad) && (c.ok && c.sure ==> Merging(f, t, slots, k, c.t))
  {
    hide Step, Quiet, AllSeen, Lookup;
    if k == 0 {
      forall h | h != FREE ensures MergedKey(f, t, slots, 0, t, h) {
      }
    } else {
      MergeCourse(f, t, slots, bad, k - 1);
      var a := Course(f, t, slots, bad, k - 1);
      SureBefore(f, slots, k - 1, a);
      if a.ok {
        QuietOn(f, slots, k - 1, a);
        if a.sure {
          MergeStep(f, t, slots, k - 1, k, a);
        }
      }
    }
  }

  lemma QuietOn(f: seq<byte>, slots: nat, k: nat, a: Leg)
    requires IsBank(f, slots) && IsBank(a.t, slots) && k < slots && Quiet(a.bad)
    ensures Quiet(Step(f, slots, k, a).bad)
  {
    hide Hit, Passed, Searched, Quiet, LastIn, Fits, Pasted, Chunks, IsBank, Align, Latest;
    var log, r := LogOf(f, slots), Passed(a.bad, 1);
    QuietHits(a.bad, 1);
    QuietSearch(r, slots);
    var r1 := Searched(r, slots);
    QuietSearch(r1, slots);
    var r2 := Searched(r1, slots);
    if log[k].hash != FREE && Liveable(log, slots, log[k].hash) {
      var e := Latest(LogOf(a.t, slots), log[Last(log, log[k].hash)], slots);
      QuietHits(r2, slots + Chunks(e.len));
    }
  }

  /** A move without failing reads, and without a copy that is overlooked, into any partition: a key that has an entry
      there keeps it, and the others get the value of the source. */
  lemma Merged(f: seq<byte>, t: seq<byte>, slots: nat, bad: seq<bool>, h: Hash)
    requires IsBank(f, slots) && IsBank(t, slots) && AllSeen(t, slots) && Quiet(bad) && h != FREE
    ensures var c := Course(f, t, slots, bad, slots);
            && Quiet(c.bad)
            && (c.ok && c.sure ==>
                  && AllSeen(c.t, slots)
                  && Lookup(c.t, slots, h) ==
                       if Last(LogOf(t, slots), h) >= 0 then Lookup(t, slots, h) else Lookup(f, slots, h))
  {
    hide Course, Quiet, AllSeen;
    MergeCourse(f, t, slots, bad, slots);
    var c := Course(f, t, slots, bad, slots);
    if c.ok && c.sure {
      assert MergedKey(f, t, slots, slots, c.t, h);
    }
  }

  /** Every key that has an entry in m holds there what it holds in s. */
  ghost predicate UpToDate(m: seq<byte>, s: seq<byte>, slots: nat)
    requires IsBank(m, slots) && IsBank(s, slots)
  {
    forall h :: h != FREE && Last(LogOf(m, slots), h) >= 0 ==> Lookup(m, slots, h) == Lookup(s, slots, h)
  }

  /** Scratch holds the map after the first move exactly if what the erase has left there is up to date. */
  lemma FirstErase(s: seq<byte>, x: seq<byte>, slots: nat, bad: seq<bool>)
    requires IsBank(s, slots) && IsBank(x, slots) && AllSeen(x, slots) && Quiet(bad)
    ensures var c := There(s, x, slots, bad);
            c.ok && c.sure ==> (SameMap(s, c.t, slots) <==> UpToDate(x, s, slots))
  {
    hide Course, Quiet, AllSeen, Lookup, LastIn;
    var c := There(s, x, slots, bad);
    if c.ok && c.sure {
      forall h | h != FREE
        ensures Lookup(c.t, slots, h) ==
                if Last(LogOf(x, slots), h) >= 0 then Lookup(x, slots, h) else Lookup(s, slots, h)
      {
        Merged(s, x, slots, bad, h);
      }
    }
  }

  /** What storage holds after a reclaim whose erases may both have failed: the entries that the second has left
      there win, and then those that the first has left in scratch. */
  lemma BothErases(s: seq<byte>, x: seq<byte>, y: seq<byte>, slots: nat, bad: seq<bool>, h: Hash)
    requires IsBank(s, slots) && IsBank(x, slots) && IsBank(y, slots) && Quiet(bad) && h != FREE
    requires AllSeen(x, slots) && AllSeen(y, slots)
    ensures var c := There(s, x, slots, bad);
            var d := BackInto(c, y, slots);
            c.ok && c.sure && d.ok && d.sure ==>
              Lookup(d.t, slots, h) ==
                if Last(LogOf(y, slots), h) >= 0 then Lookup(y, slots, h)
                else if Last(LogOf(x, slots), h) >= 0 then Lookup(x, slots, h) else Lookup(s, slots, h)
  {
    hide Course, Quiet, AllSeen, Lookup, LastIn;
    var c := There(s, x, slots, bad);
    Merged(s, x, slots, bad, h);
    QuietSearch(c.bad, slots);
    Merged(c.t, y, slots, Searched(c.bad, slots), h);
  }

  /** An erase of storage that fails between two entries, or beyond them, loses nothing. */
  lemma SecondErase(s: seq<byte>, slots: nat, n: nat, m: nat, bad: seq<bool>)
    requires Good(s, slots, n) && slots > 0 && Quiet(bad) && m <= |s| && (m % 16 == 0 || m >= MetaSize(slots))
    ensures IsBank(Wiped(slots), slots)
    ensures var c := There(s, Wiped(slots), slots, bad);
            var d := BackInto(c, Blanked(s, m), slots);
            d.ok && d.sure ==> SameMap(s, d.t, slots)
  {
    hide Course, Quiet, AllSeen, Lookup, LastIn, Packed, Compacted, Crowded, RoomLeft, Blanked;
    WipedIs(s, slots);
    QuietReclaim(s, slots, n, bad);
    WipedSeen(slots);
    HalfErased(s, slots, n, m);
    var c, y := There(s, Wiped(slots), slots, bad), Blanked(s, m);
    var d := BackInto(c, y, slots);
    if d.ok && d.sure {
      forall h | h != FREE ensures Lookup(s, slots, h) == Lookup(d.t, slots, h) {
        BothErases(s, Wiped(slots), y, slots, bad, h);
      }
    }
  }

  lemma WipedSeen(slots: nat)
    requires IsBank(Wiped(slots), slots) && slots > 0
    ensures AllSeen(Wiped(slots), slots) && forall h :: h != FREE ==> Last(LogOf(Wiped(slots), slots), h) < 0
  {
    ErasedIsFree(Wiped(slots), slots);
    var log := LogOf(Wiped(slots), slots);
    assert forall i :: 0 <= i < slots ==> log[i].hash == FREE;
  }

  /** What is left of the entries is up to date: the latest are the last to go. */
  lemma HalfErased(s: seq<byte>, slots: nat, n: nat, m: nat)
    requires Good(s, slots, n) && m <= |s| && (m % 16 == 0 || m >= MetaSize(slots))
    ensures AllSeen(Blanked(s, m), slots) && UpToDate(Blanked(s, m), s, slots)
  {
    var y, x, z := Blanked(s, m), LogOf(s, slots), LogOf(Blanked(s, m), slots);
    EntriesLeft(s, slots, m);
    forall i | 0 <= i < slots ensures SeenEntry(slots, z[i]) {
      if z[i].hash != FREE {
        InArea(x, n, DataSize(slots), i);
      }
    }
    forall h | h != FREE && Last(z, h) >= 0 ensures Lookup(y, slots, h) == Lookup(s, slots, h) {
      var j := Last(z, h);
      assert z[j] == x[j];
      assert Last(x, h) == j;
      if InBank(slots, z[j]) {
        DataLeft(s, slots, m, z[j]);
      }
    }
  }

  lemma EntriesLeft(s: seq<byte>, slots: nat, m: nat)
    requires IsBank(s, slots) && m <= |s| && (m % 16 == 0 || m >= MetaSize(slots))
    ensures IsBank(Blanked(s, m), slots)
    ensures var z := LogOf(Blanked(s, m), slots);
            forall i :: 0 <= i < slots ==> if 16 * i < m then z[i].hash == FREE else z[i] == LogOf(s, slots)[i]
  {
    var y := Blanked(s, m);
    forall i | 0 <= i < slots
      ensures if 16 * i < m then EntryAt(y, i).hash == FREE else EntryAt(y, i) == EntryAt(s, i)
    {
      if 16 * i < m {
        assert 16 * i + 16 <= m;
        ErasedEntry(y, i);
      } else {
        assert y[16 * i..16 * i + 16] == s[16 * i..16 * i + 16];
      }
    }
  }

  lemma DataLeft(s: seq<byte>, slots: nat, m: nat, e: Entry)
    requires IsBank(s, slots) && m <= MetaSize(slots) && InBank(slots, e)
    ensures Value(Blanked(s, m), slots, e) == Value(s, slots, e)
  {
    var lo := MetaSize(slots) + e.offset;
    assert Blanked(s, m)[lo..lo + e.len] == s[lo..lo + e.len];
  }
}
