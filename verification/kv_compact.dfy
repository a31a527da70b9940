/** Compaction (move_partition of ports/kvstore/flash_kvstore.c) on values: what each
    copied entry adds, why it always fits, and what the target holds at the end. */
module KvCompact {
  import opened Basics
  import opened KvLog
  import opened KvBytes

  ghost function Elements(s: seq<nat>): set<nat> {
    set k | k in s
  }

  ghost predicate Distinct(s: seq<nat>) {
    forall i, j :: 0 <= i < j < |s| ==> s[i] != s[j]
  }

  /** The i-th entry of the target is a copy of the live source entry src[i]. */
  ghost predicate Copied(f: seq<byte>, t: seq<byte>, slots: nat, n: nat, j: nat, i: nat)
    requires Good(f, slots, n) && IsBank(t, slots) && i < slots
  {
    var x, y := LogOf(f, slots), LogOf(t, slots)[i];
    && j < n && j == Last(x, x[j].hash) && x[j].len > 0
    && y.hash == x[j].hash && y.len == x[j].len && InBank(slots, y) && InBank(slots, x[j])
    && Value(t, slots, y) == Value(f, slots, x[j])
  }

  /**
   * The target holds copies of `src`: the live entries of the keys met in the first k slots of the source,
   * but for the slots in `misses`, where the search for the live entry failed.
   */
  ghost predicate Carrying(f: seq<byte>, t: seq<byte>, slots: nat, n: nat, src: seq<nat>, k: nat, misses: set<nat>) {
    && Good(f, slots, n) && Good(t, slots, |src|)
    && (forall i :: 0 <= i < |src| ==> Copied(f, t, slots, n, src[i], i))
    && Covers(LogOf(f, slots), n, src, k, misses)
    && Visited(LogOf(f, slots), src, k, misses)
  }

  /** No entry has been copied twice. */
  ghost predicate Neat(f: seq<byte>, t: seq<byte>, slots: nat, n: nat, src: seq<nat>)
    requires Good(f, slots, n) && Good(t, slots, |src|)
  {
    && Distinct(src) && End(LogOf(t, slots), |src|) == Lines(LogOf(f, slots), Elements(src), n)
  }

  ghost predicate Covers(log: Log, n: nat, src: seq<nat>, k: nat, misses: set<nat>) {
    forall i :: 0 <= i < k && i < n && i < |log| ==> i in misses || CoveredKey(log, src, log[i].hash)
  }

  ghost predicate CoveredKey(log: Log, src: seq<nat>, h: Hash) {
    var j := Last(log, h);
    j >= 0 && log[j].len > 0 ==> j in src
  }

  /** Every copy was made at some slot of its key that was not missed. */
  ghost predicate Visited(log: Log, src: seq<nat>, k: nat, misses: set<nat>) {
    forall i :: 0 <= i < |src| && src[i] < |log| ==> Seen(log, log[src[i]].hash, k, misses)
  }

  ghost predicate Seen(log: Log, h: Hash, k: nat, misses: set<nat>) {
    exists q: nat :: q < k && q < |log| && log[q].hash == h && q !in misses
  }

  /** The search for the live entry of the key failed at every one of its slots. */
  ghost predicate Missed(log: Log, h: Hash, misses: set<nat>) {
    forall q: nat :: q < |log| && log[q].hash == h ==> q in misses
  }

  lemma {:induction false} LinesNone(log: Log, n: nat)
    requires n <= |log|
    ensures Lines(log, {}, n) == 0
  {
    if n > 0 {
      LinesNone(log, n - 1);
    }
  }

  lemma CompactStart(f: seq<byte>, t: seq<byte>, slots: nat, n: nat)
    requires Good(f, slots, n) && IsBank(t, slots) && slots > 0 && Erased(t)
    ensures Carrying(f, t, slots, n, [], 0, {}) && Neat(f, t, slots, n, [])
  {
    ErasedIsFree(t, slots);
    LinesNone(LogOf(f, slots), n);
    assert Elements([]) == {};
  }

  /** find_meta on the target answers whether the key has been copied. */
  lemma CopiedIffFound(f: seq<byte>, t: seq<byte>, slots: nat, n: nat, src: seq<nat>, k: nat, misses: set<nat>, h: Hash)
    requires Carrying(f, t, slots, n, src, k, misses) && h != FREE && Last(LogOf(f, slots), h) >= 0
    ensures Last(LogOf(t, slots), h) >= 0 <==> Last(LogOf(f, slots), h) in src
  {
    var x, y := LogOf(f, slots), LogOf(t, slots);
    var j, i := Last(x, h), Last(y, h);
    if i >= 0 {
      assert i < |src|;
      assert Copied(f, t, slots, n, src[i], i);
    }
    if j in src {
      var i' :| 0 <= i' < |src| && src[i'] == j;
      assert Copied(f, t, slots, n, src[i'], i');
      assert y[i'].hash == h;
    }
  }

  /** A slot is passed over: its key is covered, or the search failed. */
  lemma CarrySkip(f: seq<byte>, t: seq<byte>, slots: nat, n: nat, src: seq<nat>, k: nat, misses: set<nat>, missed: bool)
    requires Carrying(f, t, slots, n, src, k, misses) && k < slots && k !in misses
    requires k < n && !missed ==> CoveredKey(LogOf(f, slots), src, LogOf(f, slots)[k].hash)
    ensures Carrying(f, t, slots, n, src, k + 1, if missed then misses + {k} else misses)
  {
    var log, misses' := LogOf(f, slots), if missed then misses + {k} else misses;
    forall i | 0 <= i < |src| ensures Seen(log, log[src[i]].hash, k + 1, misses') {
      assert Copied(f, t, slots, n, src[i], i);
      SeenLater(log, log[src[i]].hash, k, misses, misses');
    }
  }

  lemma SeenLater(log: Log, h: Hash, k: nat, misses: set<nat>, misses': set<nat>)
    requires Seen(log, h, k, misses) && (misses' == misses || misses' == misses + {k})
    ensures Seen(log, h, k + 1, misses')
  {
    var q: nat :| q < k && q < |log| && log[q].hash == h && q !in misses;
    assert q < k + 1 && q !in misses';
  }

  lemma DistinctSize(src: seq<nat>, n: nat)
    requires Distinct(src)
    requires forall i :: 0 <= i < |src| ==> src[i] < n
    ensures |src| == |Elements(src)| <= n
  {
    SizeOfElements(src);
    SizeAtMost(Elements(src), n);
  }

  lemma {:induction false} SizeAtMost(s: set<nat>, n: nat)
    requires forall k :: k in s ==> k < n
    ensures |s| <= n
  {
    if n == 0 {
      assert s == {};
    } else {
      SizeAtMost(s - {n - 1}, n - 1);
    }
  }

  lemma {:induction false} SizeOfElements(src: seq<nat>)
    requires Distinct(src)
    ensures |src| == |Elements(src)|
  {
    if src == [] {
      assert Elements(src) == {};
    } else {
      var m := |src| - 1;
      SizeOfElements(src[..m]);
      assert src == src[..m] + [src[m]];
      assert Elements(src) == Elements(src[..m]) + {src[m]};
    }
  }

  /** Compaction never runs out of room: the copies, with one more, take no more slots
      and lines than the source. */
  lemma CompactRoom(f: seq<byte>, t: seq<byte>, slots: nat, n: nat, src: seq<nat>, k: nat, misses: set<nat>, j: nat)
    requires Carrying(f, t, slots, n, src, k, misses) && Neat(f, t, slots, n, src) && j < n && j !in src
    ensures |src| < n
    ensures End(LogOf(t, slots), |src|) + Align(LogOf(f, slots)[j].len) <= End(LogOf(f, slots), n)
    ensures End(LogOf(f, slots), n) < DataSize(slots)
  {
    var log := LogOf(f, slots);
    forall i | 0 <= i < |src + [j]| ensures (src + [j])[i] < n {
      if i < |src| { assert Copied(f, t, slots, n, src[i], i); }
    }
    DistinctSize(src + [j], n);
    LinesAdd(log, Elements(src), j, n);
    LinesWithin(log, Elements(src) + {j}, n);
  }

  /** The entry move_partition writes for source entry j. */
  ghost function CopyOf(t: seq<byte>, slots: nat, m: nat, e: Entry): Entry
    requires IsBank(t, slots) && m <= slots
  {
    Entry(e.hash, End(LogOf(t, slots), m), e.len)
  }

  /** What a copy whose aligned end stays below the end of the area looks like. */
  lemma CopyShape(f: seq<byte>, t: seq<byte>, slots: nat, n: nat, m: nat, j: nat)
    requires Good(f, slots, n) && Good(t, slots, m) && j < n && m < slots
    requires EndOf(CopyOf(t, slots, m, LogOf(f, slots)[j])) < DataSize(slots)
    ensures var e := CopyOf(t, slots, m, LogOf(f, slots)[j]);
            && Storable(e) && InBank(slots, LogOf(f, slots)[j]) && e.hash != FREE
            && EndOf(e) == e.offset + Align(e.len)
            && 16 * m + 16 <= |t| && MetaSize(slots) + e.offset + Align(e.len) <= |t|
  {
    var log := LogOf(f, slots);
    assert log[j] == EntryAt(f, j);
    EndAligned(LogOf(t, slots), m);
    AlignSum(End(LogOf(t, slots), m), log[j].len);
    GoodInBank(f, slots, n, j);
  }

  /** One more copy, made at slot k. */
  lemma CarryAppend(f: seq<byte>, t: seq<byte>, slots: nat, n: nat, src: seq<nat>, k: nat, misses: set<nat>, j: nat,
                    d: seq<byte>)
    requires Carrying(f, t, slots, n, src, k, misses) && k < n && k !in misses
    requires j == Last(LogOf(f, slots), LogOf(f, slots)[k].hash)
    requires 0 <= j < n && LogOf(f, slots)[j].len > 0 && |src| < slots
    requires EndOf(CopyOf(t, slots, |src|, LogOf(f, slots)[j])) < DataSize(slots) && InBank(slots, LogOf(f, slots)[j])
    requires |d| == Align(LogOf(f, slots)[j].len) && d[..LogOf(f, slots)[j].len] == Value(f, slots, LogOf(f, slots)[j])
    ensures var e := CopyOf(t, slots, |src|, LogOf(f, slots)[j]);
            && Storable(e) && e.offset + |d| <= DataSize(slots)
            && Carrying(f, Append(t, slots, |src|, e, d), slots, n, src + [j], k + 1, misses)
  {
    var log := LogOf(f, slots);
    CopyShape(f, t, slots, n, |src|, j);
    var e := CopyOf(t, slots, |src|, log[j]);
    AppendGood(t, slots, |src|, e, d, |src + [j]|);
    AllCopied(f, t, slots, n, src, k, misses, e, d, j);
    CoversStep(log, n, src, k, misses, j);
    VisitedStep(f, t, slots, n, src, k, misses, j);
  }

  lemma VisitedStep(f: seq<byte>, t: seq<byte>, slots: nat, n: nat, src: seq<nat>, k: nat, misses: set<nat>, j: nat)
    requires Carrying(f, t, slots, n, src, k, misses) && k < n && k !in misses
    requires j == Last(LogOf(f, slots), LogOf(f, slots)[k].hash) && 0 <= j < n
    ensures Visited(LogOf(f, slots), src + [j], k + 1, misses)
  {
    var log := LogOf(f, slots);
    forall i | 0 <= i < |src + [j]| && (src + [j])[i] < |log|
      ensures Seen(log, log[(src + [j])[i]].hash, k + 1, misses) {
      if i < |src| {
        assert Copied(f, t, slots, n, src[i], i);
        SeenLater(log, log[src[i]].hash, k, misses, misses);
      } else {
        assert log[k].hash == log[j].hash;
      }
    }
  }

  /** If it is the first copy of its key, nothing is copied twice. */
  lemma NeatAppend(f: seq<byte>, t: seq<byte>, slots: nat, n: nat, src: seq<nat>, j: nat, d: seq<byte>)
    requires Good(f, slots, n) && Good(t, slots, |src|) && Neat(f, t, slots, n, src) && j < n && j !in src
             && |src| < slots
    requires EndOf(CopyOf(t, slots, |src|, LogOf(f, slots)[j])) < DataSize(slots)
    requires |d| == Align(LogOf(f, slots)[j].len)
    ensures var e := CopyOf(t, slots, |src|, LogOf(f, slots)[j]);
            && Storable(e) && e.offset + |d| <= DataSize(slots)
            && Good(Append(t, slots, |src|, e, d), slots, |src + [j]|)
            && Neat(f, Append(t, slots, |src|, e, d), slots, n, src + [j])
  {
    CopyShape(f, t, slots, n, |src|, j);
    var e := CopyOf(t, slots, |src|, LogOf(f, slots)[j]);
    AppendLines(t, slots, e, d, LogOf(f, slots), n, src, j);
    var src' := src + [j];
    assert forall i, i' :: 0 <= i < i' < |src'| ==> src'[i] != src'[i'];
  }

  lemma AllCopied(f: seq<byte>, t: seq<byte>, slots: nat, n: nat, src: seq<nat>, k: nat, misses: set<nat>,
                  e: Entry, d: seq<byte>, j: nat)
    requires Carrying(f, t, slots, n, src, k, misses) && |src| < slots && Storable(e)
    requires e.offset == End(LogOf(t, slots), |src|) && e.offset + |d| <= DataSize(slots)
    requires j < n && j == Last(LogOf(f, slots), LogOf(f, slots)[j].hash) && LogOf(f, slots)[j].len > 0
    requires e.hash == LogOf(f, slots)[j].hash && e.len == LogOf(f, slots)[j].len && InBank(slots, LogOf(f, slots)[j])
    requires e.len <= |d| && d[..e.len] == Value(f, slots, LogOf(f, slots)[j])
    ensures IsBank(Append(t, slots, |src|, e, d), slots)
    ensures forall i :: 0 <= i < |src + [j]| ==> Copied(f, Append(t, slots, |src|, e, d), slots, n, (src + [j])[i], i)
  {
    forall i | 0 <= i < |src + [j]|
      ensures IsBank(Append(t, slots, |src|, e, d), slots)
      ensures Copied(f, Append(t, slots, |src|, e, d), slots, n, (src + [j])[i], i)
    {
      CopiedStays(f, t, slots, n, src, k, misses, e, d, j, i);
    }
  }

  lemma AppendLines(t: seq<byte>, slots: nat, e: Entry, d: seq<byte>, log: Log, n: nat, src: seq<nat>, j: nat)
    requires Good(t, slots, |src|) && |src| < slots && Storable(e) && e.hash != FREE
    requires e.offset == End(LogOf(t, slots), |src|) && EndOf(e) == e.offset + Align(e.len) < DataSize(slots)
    requires |d| == Align(e.len)
    requires j < n <= |log| && j !in src && log[j].len == e.len && e.offset == Lines(log, Elements(src), n)
    ensures var t' := Append(t, slots, |src|, e, d);
            && Good(t', slots, |src + [j]|)
            && End(LogOf(t', slots), |src + [j]|) == Lines(log, Elements(src + [j]), n)
  {
    AppendGood(t, slots, |src|, e, d, |src + [j]|);
    LinesStep(log, n, src, j);
  }

  lemma LinesStep(log: Log, n: nat, src: seq<nat>, j: nat)
    requires n <= |log| && j < n && j !in src
    ensures Lines(log, Elements(src + [j]), n) == Lines(log, Elements(src), n) + Align(log[j].len)
  {
    LinesAdd(log, Elements(src), j, n);
    assert Elements(src + [j]) == Elements(src) + {j};
  }

  lemma CopiedStays(f: seq<byte>, t: seq<byte>, slots: nat, n: nat, src: seq<nat>, k: nat, misses: set<nat>,
                    e: Entry, d: seq<byte>, j: nat, i: nat)
    requires Carrying(f, t, slots, n, src, k, misses) && |src| < slots && Storable(e)
    requires e.offset == End(LogOf(t, slots), |src|) && e.offset + |d| <= DataSize(slots)
    requires i <= |src|
    requires i == |src| ==>
               && j < n && j == Last(LogOf(f, slots), LogOf(f, slots)[j].hash) && LogOf(f, slots)[j].len > 0
               && e.hash == LogOf(f, slots)[j].hash && e.len == LogOf(f, slots)[j].len
                  && InBank(slots, LogOf(f, slots)[j])
               && e.len <= |d| && d[..e.len] == Value(f, slots, LogOf(f, slots)[j])
    ensures IsBank(Append(t, slots, |src|, e, d), slots)
    ensures Copied(f, Append(t, slots, |src|, e, d), slots, n, (src + [j])[i], i)
  {
    AppendLog(t, slots, |src|, e, d);
    if i < |src| {
      assert Copied(f, t, slots, n, src[i], i);
      EndMonotone(LogOf(t, slots), i + 1, |src|);
      AppendOldValue(t, slots, |src|, e, d, LogOf(t, slots)[i]);
    } else {
      AppendNewValue(t, slots, |src|, e, d);
    }
  }

  lemma CoversStep(log: Log, n: nat, src: seq<nat>, k: nat, misses: set<nat>, j: nat)
    requires Covers(log, n, src, k, misses) && k < n <= |log| && j == Last(log, log[k].hash)
    ensures Covers(log, n, src + [j], k + 1, misses)
  {
    forall i | 0 <= i < k + 1 && i < n && i < |log| ensures i in misses || CoveredKey(log, src + [j], log[i].hash) {
      assert i < k ==> i in misses || CoveredKey(log, src, log[i].hash);
    }
  }

  /** When every slot has been visited a key is in the target, with its value, unless it was missed. */
  lemma CarryDone(f: seq<byte>, t: seq<byte>, slots: nat, n: nat, src: seq<nat>, misses: set<nat>, h: Hash)
    requires Carrying(f, t, slots, n, src, slots, misses) && h != FREE
    ensures Lookup(t, slots, h) == if Missed(LogOf(f, slots), h, misses) then None else Lookup(f, slots, h)
  {
    var x, y := LogOf(f, slots), LogOf(t, slots);
    var j, i := Last(x, h), Last(y, h);
    if i >= 0 {
      assert i < |src|;
      assert Copied(f, t, slots, n, src[i], i);
      assert j == src[i];
      assert Seen(x, x[src[i]].hash, slots, misses);
    } else if j >= 0 && x[j].len > 0 {
      CopiedIffFound(f, t, slots, n, src, slots, misses, h);
      forall q: nat | q < |x| && x[q].hash == h ensures q in misses {
        assert q < n;
        assert q in misses || CoveredKey(x, src, x[q].hash);
      }
    }
  }

  /** The live entries whose key was not missed. */
  ghost function Unmissed(log: Log, n: nat, misses: set<nat>): set<nat>
    requires n <= |log|
  {
    set i | i in Live(log, n) && !Missed(log, log[i].hash, misses)
  }

  /** When every slot has been visited, and nothing copied twice, the target holds exactly one entry for every
      live entry whose key was not missed. */
  lemma CarryExact(f: seq<byte>, t: seq<byte>, slots: nat, n: nat, src: seq<nat>, misses: set<nat>)
    requires Carrying(f, t, slots, n, src, slots, misses) && Neat(f, t, slots, n, src)
    ensures var kept := Unmissed(LogOf(f, slots), n, misses);
            && Elements(src) == kept && |src| == |kept|
            && End(LogOf(t, slots), |src|) == Lines(LogOf(f, slots), kept, n)
  {
    var x := LogOf(f, slots);
    forall i: nat ensures i in Elements(src) <==> i in Unmissed(x, n, misses) {
      DoneLive(f, t, slots, n, src, misses, i);
    }
    SizeOfElements(src);
  }

  /** When every slot has been visited, and none missed, the target holds the source's map, each live key
      once and nothing else. */
  lemma CompactDone(f: seq<byte>, t: seq<byte>, slots: nat, n: nat, src: seq<nat>)
    requires Carrying(f, t, slots, n, src, slots, {}) && Neat(f, t, slots, n, src)
    ensures SameMap(f, t, slots)
    ensures |src| == |Live(LogOf(f, slots), n)|
    ensures End(LogOf(t, slots), |src|) == LiveBytes(LogOf(f, slots), n)
    ensures forall i :: 0 <= i < |src| ==> i in Live(LogOf(t, slots), |src|)
  {
    var x := LogOf(f, slots);
    forall h | h != FREE ensures Lookup(f, slots, h) == Lookup(t, slots, h) {
      CarryDone(f, t, slots, n, src, {}, h);
      NoneMissed(x, h);
    }
    CarryExact(f, t, slots, n, src, {});
    forall i | i in Live(x, n) ensures !Missed(x, x[i].hash, {}) {
      NoneMissed(x, x[i].hash);
    }
    assert Unmissed(x, n, {}) == Live(x, n);
    DoneUnique(f, t, slots, n, src, slots, {});
  }

  lemma NoneMissed(log: Log, h: Hash)
    ensures Missed(log, h, {}) ==> Last(log, h) < 0
  {
    var j := Last(log, h);
    assert j >= 0 ==> log[j].hash == h && j !in {};
  }

  lemma DoneLive(f: seq<byte>, t: seq<byte>, slots: nat, n: nat, src: seq<nat>, misses: set<nat>, i: nat)
    requires Carrying(f, t, slots, n, src, slots, misses)
    ensures i in Elements(src) <==> i in Unmissed(LogOf(f, slots), n, misses)
  {
    var x := LogOf(f, slots);
    if i in src {
      var p :| 0 <= p < |src| && src[p] == i;
      assert Copied(f, t, slots, n, src[p], p);
      assert Seen(x, x[src[p]].hash, slots, misses);
    }
    if i in Unmissed(x, n, misses) {
      var q: nat :| q < |x| && x[q].hash == x[i].hash && q !in misses;
      assert q < n;
      assert q in misses || CoveredKey(x, src, x[q].hash);
    }
  }

  /** Every entry of the target is the live one of its key exactly if nothing was copied twice. */
  lemma DoneUnique(f: seq<byte>, t: seq<byte>, slots: nat, n: nat, src: seq<nat>, k: nat, misses: set<nat>)
    requires Carrying(f, t, slots, n, src, k, misses)
    ensures Distinct(src) <==> forall i :: 0 <= i < |src| ==> i in Live(LogOf(t, slots), |src|)
  {
    var y := LogOf(t, slots);
    forall i | 0 <= i < |src| ensures y[i].len > 0 && y[i].hash != FREE && i <= Last(y, y[i].hash) < |src| {
      assert Copied(f, t, slots, n, src[i], i);
    }
    if Distinct(src) {
      forall i | 0 <= i < |src| ensures i in Live(y, |src|) {
        var p := Last(y, y[i].hash);
        assert Copied(f, t, slots, n, src[i], i) && Copied(f, t, slots, n, src[p], p);
      }
    } else {
      var i, j :| 0 <= i < j < |src| && src[i] == src[j];
      assert Copied(f, t, slots, n, src[i], i) && Copied(f, t, slots, n, src[j], j);
      assert y[i].hash == y[j].hash;
      assert i !in Live(y, |src|);
    }
  }

  /** How many elements a list has tells whether they are distinct. */
  lemma {:induction false} ElementsCount(src: seq<nat>)
    ensures |Elements(src)| <= |src|
    ensures |Elements(src)| == |src| <==> Distinct(src)
  {
    if src == [] {
      assert Elements(src) == {};
    } else {
      var m := |src| - 1;
      var rest, x := src[..m], src[m];
      ElementsCount(rest);
      assert src == rest + [x];
      assert Elements(src) == Elements(rest) + {x};
      if x !in rest && Distinct(rest) {
        assert Distinct(src);
      }
      if Distinct(src) {
        forall i | 0 <= i < m ensures rest[i] != x {
          assert src[i] != src[m];
        }
        assert forall i, j :: 0 <= i < j < m ==> src[i] != src[j];
      }
    }
  }
}
