/** move_partition of ports/kvstore/flash_kvstore.c on values: what it makes of the target, read by read, for
    every list of failing reads, and what the target then holds. */
module KvMove {
  import opened Basics
  import opened KvLog
  import opened KvBytes
  import opened KvCompact
  import opened KvReads

  /** The last entry with hash h is one that move_partition copies. */
  ghost predicate Liveable(log: Log, slots: nat, h: Hash) {
    var j := Last(log, h);
    j >= 0 && log[j].len > 0 && log[j].offset <= DataSize(slots)
  }

  /**
   * A move after some turns: the target, the source entries that were to be copied, the slots where the search
   * of the source failed, the reads ahead, whether every copy was taken from the live entry and is one that
   * alloc_entry does not overlook, and whether no turn has failed.
   */
  datatype Leg = Leg(t: seq<byte>, src: seq<nat>, misses: set<nat>, bad: seq<bool>, sure: bool, ok: bool)

  /** alloc_entry finds room for a copy of e, and there is something to copy from. */
  ghost predicate Fits(t: seq<byte>, slots: nat, e: Entry)
    requires IsBank(t, slots)
  {
    && AllocSlot(t, slots) < slots && AllocAt(t, slots) + e.len < DataSize(slots)
    && Lies(slots, e)
  }

  /** The lines of e lie in the data area. */
  ghost predicate Lies(slots: nat, e: Entry) {
    e.len == 0 || e.offset + Align(e.len) <= DataSize(slots)
  }

  /** The lines of e. */
  ghost function Taken(f: seq<byte>, slots: nat, e: Entry): (d: seq<byte>)
    requires IsBank(f, slots) && Lies(slots, e)
    ensures |d| == Align(e.len)
    ensures e.len > 0 ==> InBank(slots, e) && d[..e.len] == Value(f, slots, e)
  {
    var lo := MetaSize(slots) + e.offset;
    if e.len == 0 then [] else f[lo..lo + Align(e.len)]
  }

  /** The entry that goes with them. */
  ghost function NewEntry(t: seq<byte>, slots: nat, e: Entry): Entry
    requires IsBank(t, slots)
  {
    Entry(e.hash, AllocAt(t, slots), e.len)
  }

  lemma NewFits(t: seq<byte>, slots: nat, e: Entry)
    requires IsBank(t, slots) && Storable(e) && Fits(t, slots, e)
    ensures var at := AllocAt(t, slots);
            && Storable(NewEntry(t, slots, e)) && at % 16 == 0 && at + Align(e.len) <= DataSize(slots)
            && EndOf(NewEntry(t, slots, e)) == at + Align(e.len)
            && 16 * AllocSlot(t, slots) + 16 <= |t| && MetaSize(slots) + at + Align(e.len) <= |t|
  {
    AllocLines(t, slots, e.len);
  }

  /** What alloc_entry hands out takes whole lines. */
  lemma AllocLines(t: seq<byte>, slots: nat, len: nat)
    requires IsBank(t, slots) && AllocAt(t, slots) + len < DataSize(slots)
    ensures var at := AllocAt(t, slots);
            at % 16 == 0 && Align(at + len) == at + Align(len) <= DataSize(slots)
  {
    ScanAligned(LogOf(t, slots), slots, DataSize(slots));
    LinesFit(AllocAt(t, slots), len, DataSize(slots));
  }

  /** t with one more entry, and what f holds where e says as its value. */
  ghost function Pasted(f: seq<byte>, t: seq<byte>, slots: nat, e: Entry): (t': seq<byte>)
    requires IsBank(f, slots) && IsBank(t, slots) && Storable(e) && Fits(t, slots, e)
    ensures IsBank(t', slots)
  {
    NewFits(t, slots, e);
    Append(t, slots, AllocSlot(t, slots), NewEntry(t, slots, e), Taken(f, slots, e))
  }

  /** The turn of slot k: it is read, then the source is searched for the live entry of its key, then the target
      for a copy, and then the entry is copied. */
  ghost function Step(f: seq<byte>, slots: nat, k: nat, a: Leg): (b: Leg)
    requires IsBank(f, slots) && IsBank(a.t, slots) && k < slots
    ensures IsBank(b.t, slots)
  {
    var log, rest := LogOf(f, slots), Passed(a.bad, 1);
    var h := log[k].hash;
    if Hit(a.bad, 1) then a.(ok := false)
    else if h == FREE then a.(bad := rest)
    else if Hit(rest, slots) then a.(misses := a.misses + {k}, bad := Searched(rest, slots))
    else if !Liveable(log, slots, h) then a.(bad := Searched(rest, slots))
    else CopyTurn(f, slots, Last(log, h), a, Searched(rest, slots))
  }

  /** The search of the target stops at a failing read with the last entry it has seen. */
  ghost function CopyTurn(f: seq<byte>, slots: nat, j: nat, a: Leg, bad: seq<bool>): (b: Leg)
    requires IsBank(f, slots) && IsBank(a.t, slots) && j < slots
    ensures IsBank(b.t, slots)
  {
    var copies, live := LogOf(a.t, slots), LogOf(f, slots)[j];
    if !Hit(bad, slots) && Last(copies, live.hash) >= 0 then a.(bad := Searched(bad, slots))
    else PutTurn(f, slots, j, Latest(copies, live, Sight(bad, slots)), a, Searched(bad, slots))
  }

  /** How many slots a search sees. */
  function Sight(bad: seq<bool>, slots: nat): (n: nat)
    ensures n <= slots
  {
    if Hit(bad, slots) then Fault(bad) else slots
  }

  /** e is copied, in place of the source entry j. */
  ghost function PutTurn(f: seq<byte>, slots: nat, j: nat, e: Entry, a: Leg, bad: seq<bool>): (b: Leg)
    requires IsBank(f, slots) && IsBank(a.t, slots) && j < slots && Storable(e)
    ensures IsBank(b.t, slots)
  {
    if CanPut(a.t, slots, e, bad)
    then Leg(Pasted(f, a.t, slots, e), a.src + [j], a.misses, Passed(bad, slots + Chunks(e.len)),
             a.sure && e == LogOf(f, slots)[j] && AllocAt(a.t, slots) + Align(e.len) < DataSize(slots), a.ok)
    else a.(ok := false)
  }

  ghost predicate CanPut(t: seq<byte>, slots: nat, e: Entry, bad: seq<bool>)
    requires IsBank(t, slots)
  {
    !Hit(bad, slots + Chunks(e.len)) && Fits(t, slots, e)
  }

  /** The first k turns of a move from f to t, up to one that fails. */
  ghost function Course(f: seq<byte>, t: seq<byte>, slots: nat, bad: seq<bool>, k: nat): (c: Leg)
    requires IsBank(f, slots) && IsBank(t, slots) && k <= slots
    ensures IsBank(c.t, slots)
  {
    if k == 0 then Leg(t, [], {}, bad, true, true)
    else
      var a := Course(f, t, slots, bad, k - 1);
      if a.ok then Step(f, slots, k - 1, a) else a
  }

  /** Once a turn has failed that is how it stays. */
  lemma {:induction false} CourseStops(f: seq<byte>, t: seq<byte>, slots: nat, bad: seq<bool>, k: nat, m: nat)
    requires IsBank(f, slots) && IsBank(t, slots) && k <= m <= slots && !Course(f, t, slots, bad, k).ok
    ensures Course(f, t, slots, bad, m) == Course(f, t, slots, bad, k)
  {
    hide Step;
    if k < m {
      CourseStops(f, t, slots, bad, k, m - 1);
    }
  }

  // -------------------------------------------------------------- what the target then holds

  /** As long as it is sure the target holds copies of the live entries met so far, but for the missed slots. */
  ghost predicate Laden(f: seq<byte>, slots: nat, n: nat, k: nat, a: Leg) {
    && Carrying(f, a.t, slots, n, a.src, k, a.misses)
    && (Distinct(a.src) ==> Neat(f, a.t, slots, n, a.src))
    && (forall i :: i in a.misses ==> i < k)
  }

  lemma LadenMeans(f: seq<byte>, slots: nat, n: nat, k: nat, a: Leg)
    requires Laden(f, slots, n, k, a)
    ensures Good(f, slots, n) && Good(a.t, slots, |a.src|) && IsBank(f, slots) && IsBank(a.t, slots)
    ensures AllocSlot(a.t, slots) == |a.src| && AllocAt(a.t, slots) == End(LogOf(a.t, slots), |a.src|)
    ensures k !in a.misses
  {
    GoodAlloc(a.t, slots, |a.src|);
  }

  lemma LadenSkip(f: seq<byte>, slots: nat, n: nat, k: nat, a: Leg, missed: bool, b: Leg)
    requires Laden(f, slots, n, k, a) && k < slots && Good(f, slots, n) && IsBank(a.t, slots)
    requires var log := LogOf(f, slots);
             var h := log[k].hash;
             missed || h == FREE || !Liveable(log, slots, h) || Last(LogOf(a.t, slots), h) >= 0
    requires b.t == a.t && b.src == a.src && b.misses == if missed then a.misses + {k} else a.misses
    ensures Laden(f, slots, n, k + 1, b)
  {
    hide Neat, Packed;
    var log := LogOf(f, slots);
    var h := log[k].hash;
    if h != FREE {
      LastOfUsed(log, n, DataSize(slots), k);
      GoodInBank(f, slots, n, Last(log, h));
      CopiedIffFound(f, a.t, slots, n, a.src, k, a.misses, h);
    } else {
      FreeIsBeyond(log, n, DataSize(slots), k);
    }
    CarrySkip(f, a.t, slots, n, a.src, k, a.misses, missed);
  }

  lemma FreeIsBeyond(log: Log, n: nat, size: nat, k: nat)
    requires Packed(log, n, size) && k < |log| && log[k].hash == FREE
    ensures k >= n
  {
  }

  /** Copying the live entry once more, where alloc_entry does not overlook it. */
  lemma LadenPut(f: seq<byte>, slots: nat, n: nat, k: nat, a: Leg, j: nat, bad: seq<bool>)
    requires Laden(f, slots, n, k, a) && k < n <= slots && Good(f, slots, n) && IsBank(a.t, slots)
    requires j == Last(LogOf(f, slots), LogOf(f, slots)[k].hash) && j < n && LogOf(f, slots)[j].len > 0
    requires CanPut(a.t, slots, LogOf(f, slots)[j], bad)
    requires AllocAt(a.t, slots) + Align(LogOf(f, slots)[j].len) < DataSize(slots)
    ensures Laden(f, slots, n, k + 1, PutTurn(f, slots, j, LogOf(f, slots)[j], a, bad))
  {
    hide Hit, Carrying, Neat, Packed;
    LadenMeans(f, slots, n, k, a);
    var e := LogOf(f, slots)[j];
    NewFits(a.t, slots, e);
    var d := Taken(f, slots, e);
    GoodInBank(f, slots, n, j);
    CarryAppend(f, a.t, slots, n, a.src, k, a.misses, j, d);
    if Distinct(a.src + [j]) {
      DistinctPart(a.src, j);
      NeatAppend(f, a.t, slots, n, a.src, j, d);
    }
  }

  lemma DistinctPart(src: seq<nat>, j: nat)
    ensures Distinct(src + [j]) <==> Distinct(src) && j !in src
  {
    var s := src + [j];
    if Distinct(s) {
      forall i, i' | 0 <= i < i' < |src| ensures src[i] != src[i'] {
        assert s[i] != s[i'];
      }
      forall i | 0 <= i < |src| ensures src[i] != j {
        assert s[i] != s[|src|];
      }
    }
  }

  lemma StepLaden(f: seq<byte>, slots: nat, n: nat, k: nat, a: Leg)
    requires Good(f, slots, n) && IsBank(a.t, slots) && k < slots && (a.sure ==> Laden(f, slots, n, k, a))
    ensures var b := Step(f, slots, k, a);
            b.ok && b.sure ==> Laden(f, slots, n, k + 1, b)
  {
    hide Hit, Passed, Searched, Laden, Packed, CopyTurn, LastIn;
    var log, rest, b := LogOf(f, slots), Passed(a.bad, 1), Step(f, slots, k, a);
    var h := log[k].hash;
    SureBefore(f, slots, k, a);
    if b.ok && b.sure {
      if h == FREE || Hit(rest, slots) || !Liveable(log, slots, h) {
        LadenSkip(f, slots, n, k, a, h != FREE && Hit(rest, slots), b);
      } else {
        CopyLaden(f, slots, n, k, a, Searched(rest, slots));
      }
    }
  }

  lemma CopyLaden(f: seq<byte>, slots: nat, n: nat, k: nat, a: Leg, bad: seq<bool>)
    requires Good(f, slots, n) && IsBank(a.t, slots) && k < slots && LogOf(f, slots)[k].hash != FREE
    requires Laden(f, slots, n, k, a) && Liveable(LogOf(f, slots), slots, LogOf(f, slots)[k].hash)
    ensures var b := CopyTurn(f, slots, Last(LogOf(f, slots), LogOf(f, slots)[k].hash), a, bad);
            b.ok && b.sure ==> Laden(f, slots, n, k + 1, b)
  {
    hide Hit, Passed, Searched, Laden, Packed, Fits, Pasted, Latest, Sight, LastIn;
    var log := LogOf(f, slots);
    var j := Last(log, log[k].hash);
    UsedSlot(f, slots, n, k);
    var b := CopyTurn(f, slots, j, a, bad);
    if b.ok && b.sure {
      if !Hit(bad, slots) && Last(LogOf(a.t, slots), log[j].hash) >= 0 {
        LadenSkip(f, slots, n, k, a, false, b);
      } else {
        LadenPut(f, slots, n, k, a, j, Searched(bad, slots));
      }
    }
  }

  lemma UsedSlot(f: seq<byte>, slots: nat, n: nat, k: nat)
    requires Good(f, slots, n) && k < slots && LogOf(f, slots)[k].hash != FREE
    ensures k < n <= slots && 0 <= Last(LogOf(f, slots), LogOf(f, slots)[k].hash) < n
  {
    LastOfUsed(LogOf(f, slots), n, DataSize(slots), k);
  }

  /** A sure move from a good partition to an erased one. */
  lemma {:induction false} CourseLaden(f: seq<byte>, t: seq<byte>, slots: nat, n: nat, bad: seq<bool>, k: nat)
    requires Good(f, slots, n) && IsBank(t, slots) && slots > 0 && Erased(t) && k <= slots
    ensures var c := Course(f, t, slots, bad, k);
            c.ok && c.sure ==> Laden(f, slots, n, k, c)
  {
    hide Step, Laden, Packed;
    if k == 0 {
      CourseBegins(f, t, slots, n, bad);
    } else {
      CourseLaden(f, t, slots, n, bad, k - 1);
      SureBefore(f, slots, k - 1, Course(f, t, slots, bad, k - 1));
      if Course(f, t, slots, bad, k - 1).ok {
        StepLaden(f, slots, n, k - 1, Course(f, t, slots, bad, k - 1));
      }
    }
  }

  lemma CourseBegins(f: seq<byte>, t: seq<byte>, slots: nat, n: nat, bad: seq<bool>)
    requires Good(f, slots, n) && IsBank(t, slots) && slots > 0 && Erased(t)
    ensures Laden(f, slots, n, 0, Course(f, t, slots, bad, 0))
  {
    CompactStart(f, t, slots, n);
  }

  lemma SureBefore(f: seq<byte>, slots: nat, k: nat, a: Leg)
    requires IsBank(f, slots) && IsBank(a.t, slots) && k < slots
    ensures var b := Step(f, slots, k, a);
            && (b.sure ==> a.sure) && (b.ok ==> a.ok) && a.misses <= b.misses <= a.misses + {k}
            && (b.misses == a.misses || LogOf(f, slots)[k].hash != FREE)
  {
    hide Hit, Passed, Searched, Fits, Pasted, Latest, Sight, LastIn, Chunks;
  }

  // --------------------------------------------------------- what the failing reads are spent on

  /** Copies beyond the first of each key, as long as they are sure; one that is not counts as one. */
  ghost function Extra(a: Leg): int {
    if a.sure then |a.src| - |Elements(a.src)| else 1
  }

  lemma ExtraIs(a: Leg)
    ensures Extra(a) >= 0 && (Extra(a) == 0 <==> a.sure && Distinct(a.src))
  {
    ElementsCount(a.src);
  }

  /** A key that the search of the target does not find has not been copied, and its copy fits. */
  lemma FirstCopyFits(f: seq<byte>, slots: nat, n: nat, k: nat, a: Leg)
    requires Good(f, slots, n) && IsBank(a.t, slots) && k < slots && LogOf(f, slots)[k].hash != FREE
    requires Laden(f, slots, n, k, a) && Last(LogOf(a.t, slots), LogOf(f, slots)[k].hash) < 0
    ensures var log := LogOf(f, slots);
            var j := Last(log, log[k].hash);
            && 0 <= j < slots && j !in a.src
            && (Distinct(a.src) ==>
                  Fits(a.t, slots, log[j]) && AllocAt(a.t, slots) + Align(log[j].len) < DataSize(slots))
  {
    hide Neat, Copied, Covers, Visited, Chained, AllocSlot, AllocAt, Align, Distinct, LastIn;
    LadenMeans(f, slots, n, k, a);
    UsedSlot(f, slots, n, k);
    var log := LogOf(f, slots);
    var j := Last(log, log[k].hash);
    CopiedIffFound(f, a.t, slots, n, a.src, k, a.misses, log[k].hash);
    if Distinct(a.src) {
      CompactRoom(f, a.t, slots, n, a.src, k, a.misses, j);
      InArea(log, n, DataSize(slots), j);
      AlignSum(log[j].offset, log[j].len);
    }
  }

  lemma ExtraPut(f: seq<byte>, slots: nat, n: nat, k: nat, a: Leg, bad: seq<bool>)
    requires Good(f, slots, n) && IsBank(a.t, slots) && k < slots && LogOf(f, slots)[k].hash != FREE
    requires a.sure ==> Laden(f, slots, n, k, a)
    requires Last(LogOf(f, slots), LogOf(f, slots)[k].hash) >= 0
    ensures var b := CopyTurn(f, slots, Last(LogOf(f, slots), LogOf(f, slots)[k].hash), a, bad);
            && b.misses == a.misses
            && (b == a.(ok := false) || Failures(b.bad) + Extra(b) <= Failures(bad) + Extra(a))
  {
    hide Hit, Passed, Searched, Laden, Packed, Fits, Pasted, Failures, LastIn, Chunks, Distinct;
    var log, copies := LogOf(f, slots), LogOf(a.t, slots);
    var j := Last(log, log[k].hash);
    var b := CopyTurn(f, slots, j, a, bad);
    ExtraIs(a);
    ExtraIs(b);
    SearchFails(bad, slots);
    var rest := Searched(bad, slots);
    var e := Latest(copies, log[j], Sight(bad, slots));
    FailuresPassed(rest, slots + Chunks(e.len));
    LatestIs(copies, log[j], Sight(bad, slots));
    ElementsMore(a.src, j);
    if a.sure && !Hit(bad, slots) && Last(copies, log[j].hash) < 0 {
      FirstCopyFits(f, slots, n, k, a);
    }
  }

  lemma ElementsMore(src: seq<nat>, j: nat)
    ensures |Elements(src + [j])| == |Elements(src)| + if j in src then 0 else 1
  {
    assert Elements(src + [j]) == Elements(src) + {j};
  }

  lemma StepFails(f: seq<byte>, slots: nat, n: nat, k: nat, a: Leg)
    requires Good(f, slots, n) && IsBank(a.t, slots) && k < slots && k !in a.misses
    requires a.sure ==> Laden(f, slots, n, k, a)
    ensures var b := Step(f, slots, k, a);
            |b.misses| + Failures(b.bad) + Extra(b) <= |a.misses| + Failures(a.bad) + Extra(a)
  {
    hide Hit, Passed, Searched, Laden, Packed, Failures, CopyTurn, LastIn;
    var log, rest := LogOf(f, slots), Passed(a.bad, 1);
    FailuresPassed(a.bad, 1);
    SearchFails(rest, slots);
    if log[k].hash != FREE && Liveable(log, slots, log[k].hash) {
      ExtraPut(f, slots, n, k, a, Searched(rest, slots));
    }
  }

  /** Every missed slot, every second copy of a key, and a copy that is not sure, takes a failing read. */
  lemma {:induction false} MissesFail(f: seq<byte>, t: seq<byte>, slots: nat, n: nat, bad: seq<bool>, k: nat)
    requires Good(f, slots, n) && IsBank(t, slots) && slots > 0 && Erased(t) && k <= slots
    ensures var c := Course(f, t, slots, bad, k);
            && |c.misses| + Failures(c.bad) + Extra(c) <= Failures(bad)
            && forall i :: i in c.misses ==> i < k && LogOf(f, slots)[i].hash != FREE
  {
    hide Step, Failures, Packed, Laden;
    if k > 0 {
      MissesFail(f, t, slots, n, bad, k - 1);
      var a := Course(f, t, slots, bad, k - 1);
      if a.ok {
        CourseLaden(f, t, slots, n, bad, k - 1);
        StepFails(f, slots, n, k - 1, a);
        SureBefore(f, slots, k - 1, a);
      }
    } else {
      assert Elements([]) == {};
    }
  }

  /** Without failing reads nothing is missed or copied twice, and no turn fails. */
  lemma {:induction false} QuietCourse(f: seq<byte>, t: seq<byte>, slots: nat, n: nat, bad: seq<bool>, k: nat)
    requires Good(f, slots, n) && IsBank(t, slots) && slots > 0 && Erased(t) && k <= slots && Quiet(bad)
    ensures var c := Course(f, t, slots, bad, k);
            && c.misses == {} && c.sure && Distinct(c.src) && c.ok && Quiet(c.bad)
            && (bad == [] ==> c.bad == [])
  {
    hide Step, Packed, Laden, Quiet, Distinct;
    var c := Course(f, t, slots, bad, k);
    MissesFail(f, t, slots, n, bad, k);
    QuietIsNone(bad);
    QuietIsNone(c.bad);
    ExtraIs(c);
    if k > 0 {
      QuietCourse(f, t, slots, n, bad, k - 1);
      CourseLaden(f, t, slots, n, bad, k - 1);
      QuietStep(f, slots, n, k - 1, Course(f, t, slots, bad, k - 1));
    }
  }

  lemma QuietStep(f: seq<byte>, slots: nat, n: nat, k: nat, a: Leg)
    requires Good(f, slots, n) && IsBank(a.t, slots) && k < slots && a.ok && Quiet(a.bad)
    requires Laden(f, slots, n, k, a) && Distinct(a.src)
    ensures var b := Step(f, slots, k, a);
            b.ok && (a.bad == [] ==> b.bad == [])
  {
    hide Hit, Passed, Laden, Packed, Fits, Pasted, LastIn, Chunks, Distinct, Quiet, Searched, Liveable, Latest, IsBank;
    var log, copies, rest := LogOf(f, slots), LogOf(a.t, slots), Passed(a.bad, 1);
    var j := Last(log, log[k].hash);
    QuietHits(a.bad, 1);
    QuietSearch(rest, slots);
    var r1 := Searched(rest, slots);
    QuietSearch(r1, slots);
    var r2 := Searched(r1, slots);
    EmptyPassed(a.bad, 1);
    if log[k].hash != FREE && Liveable(log, slots, log[k].hash) && Last(copies, log[k].hash) < 0 {
      FirstCopyFits(f, slots, n, k, a);
      LatestIs(copies, log[j], slots);
      QuietHits(r2, slots + Chunks(log[j].len));
      EmptyPassed(r2, slots + Chunks(log[j].len));
    }
  }

  /** The slots of a key. */
  ghost function SlotsOf(log: Log, h: Hash): set<nat> {
    set q: nat | q < |log| && log[q].hash == h
  }

  /** A key with more slots than there are failing reads is not missed. */
  lemma FewFailures(f: seq<byte>, t: seq<byte>, slots: nat, n: nat, bad: seq<bool>, h: Hash)
    requires Good(f, slots, n) && IsBank(t, slots) && slots > 0 && Erased(t)
    requires |SlotsOf(LogOf(f, slots), h)| > Failures(bad)
    ensures !Missed(LogOf(f, slots), h, Course(f, t, slots, bad, slots).misses)
  {
    hide Course, Failures, Packed;
    var c := Course(f, t, slots, bad, slots);
    MissesFail(f, t, slots, n, bad, slots);
    ExtraIs(c);
    if Missed(LogOf(f, slots), h, c.misses) {
      SubsetSize(SlotsOf(LogOf(f, slots), h), c.misses);
    }
  }

  lemma {:induction false} SubsetSize(a: set<nat>, b: set<nat>)
    requires a <= b
    ensures |a| <= |b|
  {
    if a != {} {
      var x :| x in a;
      SubsetSize(a - {x}, b - {x});
    }
  }

  /** Every key has at most one slot. */
  ghost predicate OneSlot(log: Log) {
    forall i, j :: 0 <= i < j < |log| && log[j].hash != FREE ==> log[i].hash != log[j].hash
  }

  /** If every key has one slot no key is copied twice, and every copy is sure. */
  lemma {:induction false} OneSlotEach(f: seq<byte>, t: seq<byte>, slots: nat, n: nat, bad: seq<bool>, k: nat)
    requires Good(f, slots, n) && IsBank(t, slots) && slots > 0 && Erased(t) && k <= slots
    requires OneSlot(LogOf(f, slots))
    ensures var c := Course(f, t, slots, bad, k);
            c.sure && Distinct(c.src)
  {
    hide Step, Packed, OneSlot, Laden;
    if k > 0 {
      OneSlotEach(f, t, slots, n, bad, k - 1);
      if Course(f, t, slots, bad, k - 1).ok {
        CourseLaden(f, t, slots, n, bad, k - 1);
        NewKeyIsSure(f, slots, n, k - 1, Course(f, t, slots, bad, k - 1));
      }
    }
  }

  lemma NewKeyIsSure(f: seq<byte>, slots: nat, n: nat, k: nat, a: Leg)
    requires Good(f, slots, n) && IsBank(a.t, slots) && k < slots && Laden(f, slots, n, k, a)
    requires OneSlot(LogOf(f, slots)) && a.sure && Distinct(a.src)
    ensures var b := Step(f, slots, k, a);
            b.sure && Distinct(b.src)
  {
    hide Hit, Passed, Laden, Packed, Fits, Pasted, LastIn, Chunks, Distinct, Searched, OneSlot;
    var log, copies := LogOf(f, slots), LogOf(a.t, slots);
    var j := Last(log, log[k].hash);
    if log[k].hash != FREE && Liveable(log, slots, log[k].hash) {
      NotMetYet(f, slots, n, k, a);
      FirstCopyFits(f, slots, n, k, a);
      var bad := Searched(Passed(a.bad, 1), slots);
      LatestIs(copies, log[j], Sight(bad, slots));
      SeenIsThere(copies, Latest(copies, log[j], Sight(bad, slots)), log[j].hash);
      DistinctPart(a.src, j);
    }
  }

  lemma NotMetYet(f: seq<byte>, slots: nat, n: nat, k: nat, a: Leg)
    requires Good(f, slots, n) && IsBank(a.t, slots) && k < slots && Laden(f, slots, n, k, a)
    requires OneSlot(LogOf(f, slots)) && LogOf(f, slots)[k].hash != FREE
    ensures Last(LogOf(a.t, slots), LogOf(f, slots)[k].hash) < 0
  {
    var log, copies := LogOf(f, slots), LogOf(a.t, slots);
    forall i | 0 <= i < |a.src| ensures copies[i].hash != log[k].hash {
      assert Copied(f, a.t, slots, n, a.src[i], i);
      assert Seen(log, log[a.src[i]].hash, k, a.misses);
    }
  }

  // ------------------------------------------------------------------ a whole move

  /** t holds the keys of f that were not missed, and nothing else. */
  ghost predicate Carried(f: seq<byte>, t: seq<byte>, slots: nat, misses: set<nat>) {
    && IsBank(f, slots) && IsBank(t, slots)
    && forall h :: h != FREE ==>
         Lookup(t, slots, h) == if Missed(LogOf(f, slots), h, misses) then None else Lookup(f, slots, h)
  }

  /** What a sure move leaves: the keys that were not missed; one entry for each, and nothing else, exactly if none
      was copied twice. */
  lemma Delivered(f: seq<byte>, t: seq<byte>, slots: nat, n: nat, bad: seq<bool>)
    requires Good(f, slots, n) && IsBank(t, slots) && slots > 0 && Erased(t)
    ensures var c, log := Course(f, t, slots, bad, slots), LogOf(f, slots);
            c.ok && c.sure ==>
              && Carried(f, c.t, slots, c.misses) && Good(c.t, slots, |c.src|)
              && AllocSlot(c.t, slots) == |c.src| && AllocAt(c.t, slots) == End(LogOf(c.t, slots), |c.src|)
              && (Distinct(c.src) <==> OneSlot(LogOf(c.t, slots)))
              && (Distinct(c.src) <==> forall i :: 0 <= i < |c.src| ==> i in Live(LogOf(c.t, slots), |c.src|))
              && (forall i :: 0 <= i < |c.src| ==> LogOf(c.t, slots)[i].len > 0)
              && (Distinct(c.src) ==>
                    && |c.src| == |Unmissed(log, n, c.misses)|
                    && AllocAt(c.t, slots) == Lines(log, Unmissed(log, n, c.misses), n))
  {
    hide Course, Packed, Distinct, Carrying, Laden, Live, OneSlot;
    var c := Course(f, t, slots, bad, slots);
    CourseLaden(f, t, slots, n, bad, slots);
    if c.ok && c.sure {
      LadenMeans(f, slots, n, slots, c);
      LadenDone(f, slots, n, c);
      OneSlotIs(c.t, slots, |c.src|);
    }
  }

  lemma LadenDone(f: seq<byte>, slots: nat, n: nat, c: Leg)
    requires Laden(f, slots, n, slots, c)
    requires Good(f, slots, n) && Good(c.t, slots, |c.src|)
    ensures Carried(f, c.t, slots, c.misses)
    ensures Distinct(c.src) <==> forall i :: 0 <= i < |c.src| ==> i in Live(LogOf(c.t, slots), |c.src|)
    ensures forall i :: 0 <= i < |c.src| ==> LogOf(c.t, slots)[i].len > 0
    ensures Distinct(c.src) ==>
              var kept := Unmissed(LogOf(f, slots), n, c.misses);
              |c.src| == |kept| && End(LogOf(c.t, slots), |c.src|) == Lines(LogOf(f, slots), kept, n)
  {
    hide Neat, Live, Packed, Distinct, Covers, Visited, Missed, Unmissed;
    GoodAlloc(c.t, slots, |c.src|);
    forall h | h != FREE
      ensures Lookup(c.t, slots, h) == if Missed(LogOf(f, slots), h, c.misses) then None else Lookup(f, slots, h)
    {
      CarryDone(f, c.t, slots, n, c.src, c.misses, h);
    }
    forall i | 0 <= i < |c.src| ensures LogOf(c.t, slots)[i].len > 0 {
      assert Copied(f, c.t, slots, n, c.src[i], i);
    }
    DoneUnique(f, c.t, slots, n, c.src, slots, c.misses);
    if Distinct(c.src) {
      CarryExact(f, c.t, slots, n, c.src, c.misses);
    }
  }

  /** Every entry is the live one of its key exactly if every key has one slot. */
  lemma OneSlotIs(m: seq<byte>, slots: nat, n: nat)
    requires Good(m, slots, n) && forall i :: 0 <= i < n ==> LogOf(m, slots)[i].len > 0
    ensures OneSlot(LogOf(m, slots)) <==> forall i :: 0 <= i < n ==> i in Live(LogOf(m, slots), n)
  {
    var log := LogOf(m, slots);
    if OneSlot(log) {
      forall i | 0 <= i < n ensures i in Live(log, n) {
        var p := Last(log, log[i].hash);
        assert i <= p < n && log[p].hash == log[i].hash;
      }
    }
    if forall i :: 0 <= i < n ==> i in Live(log, n) {
      forall i, j | 0 <= i < j < |log| && log[j].hash != FREE ensures log[i].hash != log[j].hash {
        assert j < n;
        assert i in Live(log, n);
      }
    }
  }

  /** No key that holds a value was missed. */
  ghost predicate NoneLost(s: seq<byte>, slots: nat, misses: set<nat>)
    requires IsBank(s, slots)
  {
    forall h :: h != FREE && Lookup(s, slots, h).Some? ==> !Missed(LogOf(s, slots), h, misses)
  }

  /** The map is the same exactly if no key that holds a value was missed. */
  lemma CarriedSame(f: seq<byte>, t: seq<byte>, slots: nat, misses: set<nat>)
    requires Carried(f, t, slots, misses)
    ensures SameMap(f, t, slots) <==> NoneLost(f, slots, misses)
  {
  }
}
