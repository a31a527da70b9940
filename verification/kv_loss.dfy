/** Runs of reclaim of ports/kvstore/flash_kvstore.c in which a single failing operation changes what the store
    holds, although reclaim reports success. */
module KvLoss {
  import opened Basics
  import opened KvLog
  import opened KvBytes
  import opened KvCompact
  import opened KvReads
  import opened KvMove
  import opened KvReclaim

  // ------------------------------------------------------------ reads that succeed, counted

  /** The reads of a turn of slot k in which none fails. */
  ghost function TurnReads(f: seq<byte>, t: seq<byte>, slots: nat, k: nat): nat
    requires IsBank(f, slots) && IsBank(t, slots) && k < slots
  {
    var log := LogOf(f, slots);
    var h := log[k].hash;
    if h == FREE then 1
    else if !Liveable(log, slots, h) then 1 + slots
    else if Last(LogOf(t, slots), h) >= 0 then 1 + slots + slots
    else 1 + slots + slots + (slots + Chunks(log[Last(log, h)].len))
  }

  /** The reads of k turns. */
  ghost function MoveReads(f: seq<byte>, t: seq<byte>, slots: nat, k: nat): nat
    requires IsBank(f, slots) && IsBank(t, slots) && k <= slots
  {
    if k == 0 then 0
    else MoveReads(f, t, slots, k - 1) + TurnReads(f, Course(f, t, slots, [], k - 1).t, slots, k - 1)
  }

  lemma CalmStep(f: seq<byte>, slots: nat, k: nat, a: Leg, rest: seq<bool>)
    requires IsBank(f, slots) && IsBank(a.t, slots) && k < slots && Step(f, slots, k, a.(bad := [])).ok
    ensures var r := TurnReads(f, a.t, slots, k);
            Step(f, slots, k, a.(bad := Falses(r) + rest)) == Step(f, slots, k, a.(bad := [])).(bad := rest)
  {
    hide Hit, Passed, Searched, Pasted, Fits, LastIn, Latest, Falses, IsBank, Chunks;
    var log := LogOf(f, slots);
    var h, r := log[k].hash, TurnReads(f, a.t, slots, k);
    QuietEmpty(1);
    QuietEmpty(slots);
    FalsesNone(rest);
    FalsesPass(r, 1, rest, r - 1);
    if h != FREE {
      FalsesPass(r - 1, slots, rest, r - 1 - slots);
      if Liveable(log, slots, h) {
        FalsesPass(r - 1 - slots, slots, rest, r - 1 - slots - slots);
        if Last(LogOf(a.t, slots), h) < 0 {
          var e := log[Last(log, h)];
          LatestIs(LogOf(a.t, slots), e, slots);
          QuietEmpty(slots + Chunks(e.len));
          FalsesPass(r - 1 - slots - slots, slots + Chunks(e.len), rest, 0);
        }
      }
    }
  }

  /** Reads that succeed and are listed are as good as reads that are not. */
  lemma {:induction false} CalmCourse(f: seq<byte>, t: seq<byte>, slots: nat, k: nat, rest: seq<bool>)
    requires IsBank(f, slots) && IsBank(t, slots) && k <= slots && Course(f, t, slots, [], k).ok
    ensures Course(f, t, slots, Falses(MoveReads(f, t, slots, k)) + rest, k) ==
            Course(f, t, slots, [], k).(bad := rest)
  {
    hide Step, TurnReads, Falses;
    if k == 0 {
      FalsesNone(rest);
    } else {
      var a := Course(f, t, slots, [], k - 1);
      SureBefore(f, slots, k - 1, a);
      NoneLeft(f, t, slots, k - 1);
      var m, r := MoveReads(f, t, slots, k - 1), TurnReads(f, a.t, slots, k - 1);
      FalsesJoin(m, r, m + r, rest);
      CalmCourse(f, t, slots, k - 1, Falses(r) + rest);
      CalmStep(f, slots, k - 1, a, rest);
    }
  }

  lemma {:induction false} NoneLeft(f: seq<byte>, t: seq<byte>, slots: nat, k: nat)
    requires IsBank(f, slots) && IsBank(t, slots) && k <= slots
    ensures Course(f, t, slots, [], k).bad == []
  {
    hide Hit, Searched, Passed, Pasted, Fits, LastIn, Latest, IsBank, Chunks;
    if k > 0 {
      NoneLeft(f, t, slots, k - 1);
      EmptyStep(f, slots, k - 1, Course(f, t, slots, [], k - 1));
    }
  }

  lemma EmptyStep(f: seq<byte>, slots: nat, k: nat, a: Leg)
    requires IsBank(f, slots) && IsBank(a.t, slots) && k < slots && a.bad == []
    ensures Step(f, slots, k, a).bad == []
  {
    hide Hit, Searched, Passed, Pasted, Fits, LastIn, Latest, IsBank, Chunks;
    var log := LogOf(f, slots);
    QuietEmpty(1);
    QuietEmpty(slots);
    if log[k].hash != FREE && Liveable(log, slots, log[k].hash) {
      var e := Latest(LogOf(a.t, slots), log[Last(log, log[k].hash)], slots);
      QuietEmpty(slots + Chunks(e.len));
    }
  }

  // ------------------------------------------------------------------ a search that fails

  /** The second read of a move is the only one that fails: the search for the live entry of the first slot. */
  lemma {:induction false} MissedFirst(f: seq<byte>, t: seq<byte>, slots: nat, n: nat, k: nat)
    requires Good(f, slots, n) && IsBank(t, slots) && slots > 0 && Erased(t) && 0 < k <= slots
    requires LogOf(f, slots)[0].hash != FREE
    ensures var c := Course(f, t, slots, [false, true], k);
            c.ok && c.misses == {0} && c.sure && Distinct(c.src) && c.bad == []
  {
    hide Packed, Distinct, Laden, Step;
    var c := Course(f, t, slots, [false, true], k);
    MissesFail(f, t, slots, n, [false, true], k);
    assert Failures([false, true]) == 1 by {
      assert [false, true][1..] == [true] && [true][1..] == [];
    }
    ExtraIs(c);
    if k == 1 {
      FirstTurnMisses(f, slots, Leg(t, [], {}, [false, true], true, true));
    } else {
      var a := Course(f, t, slots, [false, true], k - 1);
      MissedFirst(f, t, slots, n, k - 1);
      CourseLaden(f, t, slots, n, [false, true], k - 1);
      QuietStep(f, slots, n, k - 1, a);
      SureBefore(f, slots, k - 1, a);
    }
    OnlyThat(c.misses, 0);
  }

  lemma FirstTurnMisses(f: seq<byte>, slots: nat, a: Leg)
    requires IsBank(f, slots) && IsBank(a.t, slots) && 0 < slots && LogOf(f, slots)[0].hash != FREE
    requires a.bad == [false, true]
    ensures Step(f, slots, 0, a) == a.(misses := a.misses + {0}, bad := [])
  {
    hide CopyTurn;
    assert Passed(a.bad, 1) == [true] && Fault(a.bad) == 1 && Fault([true]) == 0;
  }

  lemma OnlyThat(s: set<nat>, x: nat)
    requires x in s && |s| <= 1
    ensures s == {x}
  {
    assert |s - {x}| == 0;
  }

  /** In the first move: the key of the first slot is missed there, and if it has no other slot reclaim goes through
      and the key is gone. */
  lemma FirstSearchFails(s: seq<byte>, slots: nat, n: nat)
    requires Good(s, slots, n) && slots > 0 && LogOf(s, slots)[0].hash != FREE
    ensures IsBank(Wiped(slots), slots)
    ensures var c := There(s, Wiped(slots), slots, [false, true]);
            var d := Back(c, slots);
            && c.ok && c.sure && c.misses == {0} && d.ok && d.sure && d.misses == {}
            && (n == 1 ==> RoomLeft(c, slots))
            && (Missed(LogOf(s, slots), LogOf(s, slots)[0].hash, {0}) ==>
                  Lookup(d.t, slots, LogOf(s, slots)[0].hash) == None)
  {
    hide Course, Packed, Distinct, Live, Quiet, Unmissed;
    WipedIs(s, slots);
    var log, c := LogOf(s, slots), There(s, Wiped(slots), slots, [false, true]);
    MissedFirst(s, Wiped(slots), slots, n, slots);
    Delivered(s, Wiped(slots), slots, n, [false, true]);
    QuietEmpty(slots);
    QuietList();
    QuietCourse(c.t, Wiped(slots), slots, |c.src|, [], slots);
    Success(s, slots, n, [false, true]);
    if n == 1 {
      NothingKept(s, slots);
    }
    if Missed(log, log[0].hash, {0}) {
      assert Dropped(s, slots, c, Back(c, slots), log[0].hash);
    }
  }

  lemma NothingKept(s: seq<byte>, slots: nat)
    requires Good(s, slots, 1)
    ensures Unmissed(LogOf(s, slots), 1, {0}) == {}
    ensures Lines(LogOf(s, slots), {}, 1) == 0
  {
    var log := LogOf(s, slots);
    LinesNone(log, 1);
    forall i | i in Live(log, 1) ensures Missed(log, log[i].hash, {0}) {
      forall q: nat | q < |log| && log[q].hash == log[i].hash ensures q in {0} {
        assert q < 1;
      }
    }
  }

  /** The list that makes `rest` the reads of the second move. */
  ghost function Late(s: seq<byte>, slots: nat, rest: seq<bool>): seq<bool>
    requires IsBank(s, slots) && IsBank(Wiped(slots), slots)
  {
    Falses(MoveReads(s, Wiped(slots), slots, slots) + slots) + rest
  }

  lemma LateIs(s: seq<byte>, slots: nat, n: nat, rest: seq<bool>)
    requires Good(s, slots, n) && slots > 0
    ensures IsBank(Wiped(slots), slots)
    ensures var c := There(s, Wiped(slots), slots, Late(s, slots, rest));
            && Failures(Late(s, slots, rest)) == Failures(rest)
            && Compacted(s, n, c.t, |c.src|, slots) && (RoomLeft(c, slots) <==> !Crowded(s, n, slots, 16))
            && Back(c, slots) == Course(c.t, Wiped(slots), slots, rest, slots)
  {
    hide Course, Packed, Live, Quiet, MoveReads, Searched, Hit, Passed, Failures, Falses, Distinct, Compacted, Crowded;
    WipedIs(s, slots);
    var w := Wiped(slots);
    var r := MoveReads(s, w, slots, slots);
    QuietList();
    QuietEmpty(slots);
    QuietReclaim(s, slots, n, []);
    NoneLeft(s, w, slots, slots);
    FalsesFail(r + slots, rest);
    FalsesJoin(r, slots, r + slots, rest);
    CalmCourse(s, w, slots, slots, Falses(slots) + rest);
    FalsesPass(slots, slots, rest, 0);
    FalsesNone(rest);
  }

  /** In the second move: from any store that holds a value, and has room, one failing read takes a key, and reclaim
      reports success. */
  lemma LosingList(s: seq<byte>, slots: nat, n: nat) returns (bad: seq<bool>, h: Hash)
    requires Good(s, slots, n) && slots > 0 && Live(LogOf(s, slots), n) != {} && !Crowded(s, n, slots, 16)
    ensures IsBank(Wiped(slots), slots) && Failures(bad) == 1 && h != FREE && Lookup(s, slots, h).Some?
    ensures var c := There(s, Wiped(slots), slots, bad);
            && RoomLeft(c, slots) && SameMap(s, c.t, slots)
            && Back(c, slots).ok && Lookup(Back(c, slots).t, slots, h) == None
  {
    hide Course, There, Back, Late, Packed, Live, Failures, Distinct, Unmissed, Crowded, Missed, OneSlot;
    var w := Wiped(slots);
    LateIs(s, slots, n, [false, true]);
    QuietList();
    bad := Late(s, slots, [false, true]);
    var c := There(s, w, slots, bad);
    CompactedFirst(s, n, c.t, |c.src|, slots);
    h := LogOf(c.t, slots)[0].hash;
    MissedFirst(c.t, w, slots, |c.src|, slots);
    Delivered(c.t, w, slots, |c.src|, [false, true]);
  }

  lemma QuietList()
    ensures Quiet([]) && Failures([false, true]) == 1
  {
    assert [false, true][1..] == [true] && [true][1..] == [];
  }

  /** The first slot of a compaction that holds anything. */
  lemma CompactedFirst(s: seq<byte>, n: nat, t: seq<byte>, m: nat, slots: nat)
    requires Compacted(s, n, t, m, slots) && Live(LogOf(s, slots), n) != {} && slots > 0
    ensures var h := LogOf(t, slots)[0].hash;
            h != FREE && Lookup(s, slots, h).Some? && Missed(LogOf(t, slots), h, {0})
  {
    var log := LogOf(t, slots);
    assert m > 0;
    assert 0 in Live(log, m);
    GoodInBank(t, slots, m, 0);
    assert Lookup(s, slots, log[0].hash) == Lookup(t, slots, log[0].hash);
  }

  // ------------------------------------------------------------------- an erase that fails

  /** move_partition passes over slot k: it is free, or its key is already in the target. */
  ghost predicate PassesOver(f: seq<byte>, t: seq<byte>, slots: nat, k: nat)
    requires IsBank(f, slots) && IsBank(t, slots) && k < slots
  {
    var h := LogOf(f, slots)[k].hash;
    h == FREE || Last(LogOf(t, slots), h) >= 0
  }

  ghost predicate PassesOverAll(f: seq<byte>, t: seq<byte>, slots: nat)
    requires IsBank(f, slots) && IsBank(t, slots)
  {
    forall k :: 0 <= k < slots ==> PassesOver(f, t, slots, k)
  }

  lemma {:induction false} NothingCopied(f: seq<byte>, t: seq<byte>, slots: nat, k: nat)
    requires IsBank(f, slots) && IsBank(t, slots) && k <= slots && PassesOverAll(f, t, slots)
    ensures Course(f, t, slots, [], k) == Leg(t, [], {}, [], true, true)
  {
    hide Hit, Passed, Searched, PutTurn, LastIn, Latest;
    if k > 0 {
      NothingCopied(f, t, slots, k - 1);
      assert PassesOver(f, t, slots, k - 1);
      QuietEmpty(1);
      QuietEmpty(slots);
    }
  }

  /** An erase that fails without effect, over a scratch partition left from an earlier compaction that has an entry
      for every key: storage ends up with the old contents of scratch. */
  lemma StaleScratch(s: seq<byte>, x: seq<byte>, slots: nat, q: nat)
    requires IsBank(s, slots) && IsBank(x, slots) && slots > 0 && Spare(x, slots, q) && PassesOverAll(s, x, slots)
    ensures var c := There(s, x, slots, []);
            c.t == x && RoomLeft(c, slots) && Back(c, slots).ok && SameMap(x, Back(c, slots).t, slots)
  {
    hide Course, Packed, Quiet, Hit, Searched, PassesOverAll;
    NothingCopied(s, x, slots, slots);
    GoodAlloc(x, slots, q);
    WipedIs(x, slots);
    QuietList();
    QuietEmpty(slots);
    QuietMove(x, Wiped(slots), slots, q, []);
  }

  /** An erase of storage that fails without effect changes nothing: every key of scratch is still there. */
  lemma StorageKept(s: seq<byte>, slots: nat, n: nat, bad: seq<bool>)
    requires Good(s, slots, n) && slots > 0
    ensures IsBank(Wiped(slots), slots)
    ensures var c := There(s, Wiped(slots), slots, bad);
            c.ok && c.sure && Searched(c.bad, slots) == [] ==>
              BackInto(c, s, slots).ok && BackInto(c, s, slots).t == s
  {
    hide Course, Packed, Searched;
    WipedIs(s, slots);
    var c := There(s, Wiped(slots), slots, bad);
    CourseLaden(s, Wiped(slots), slots, n, bad, slots);
    if c.ok && c.sure && Searched(c.bad, slots) == [] {
      CopiesAreKeys(s, slots, n, c);
      NothingCopied(c.t, s, slots, slots);
    }
  }

  lemma CopiesAreKeys(s: seq<byte>, slots: nat, n: nat, c: Leg)
    requires Laden(s, slots, n, slots, c)
    ensures IsBank(s, slots) && IsBank(c.t, slots) && PassesOverAll(c.t, s, slots)
  {
    forall k | 0 <= k < slots ensures PassesOver(c.t, s, slots, k) {
      if k < |c.src| {
        assert Copied(s, c.t, slots, n, c.src[k], k);
      }
    }
  }

  // -------------------------------------------- a search of the target that has seen the copy

  /** One key written twice, with values of one length, and room to spare. */
  ghost predicate WrittenTwice(s: seq<byte>, slots: nat) {
    && Good(s, slots, 2) && slots > 2
    && var log := LogOf(s, slots);
       log[0].hash == log[1].hash && log[0].len == log[1].len > 0 && End(log, 2) + 16 < DataSize(slots)
  }

  /** What is known of the two entries. */
  lemma TwoEntries(s: seq<byte>, slots: nat)
    requires WrittenTwice(s, slots)
    ensures var log := LogOf(s, slots);
            && log[0].hash != FREE && Last(log, log[0].hash) == 1 && log[0].offset == 0 && log[1].len > 0
            && log[1].offset == Align(log[1].len) && End(log, 2) == Align(log[1].len) + Align(log[1].len)
            && InBank(slots, log[0]) && InBank(slots, log[1])
            && (forall k :: 2 <= k < slots ==> log[k].hash == FREE)
  {
    var log := LogOf(s, slots);
    assert log[0].offset == End(log, 0) && log[1].offset == End(log, 1);
    LastOfUsed(log, 2, DataSize(slots), 1);
    EndAligned(log, 1);
    AlignSum(log[1].offset, log[1].len);
    GoodInBank(s, slots, 2, 0);
    GoodInBank(s, slots, 2, 1);
  }

  /** The first turn copies the second entry. */
  lemma FirstOfTwo(s: seq<byte>, slots: nat, rest: seq<bool>)
    requires WrittenTwice(s, slots)
    ensures IsBank(Wiped(slots), slots)
    ensures var w, log := Wiped(slots), LogOf(s, slots);
            var a := Course(s, w, slots, Falses(MoveReads(s, w, slots, 1)) + rest, 1);
            && a.ok && a.bad == rest && Good(a.t, slots, 1)
            && LogOf(a.t, slots)[0] == Entry(log[1].hash, 0, log[1].len)
  {
    hide Course, MoveReads, Falses, Quiet, Laden, Packed;
    WipedIs(s, slots);
    QuietList();
    var w, log := Wiped(slots), LogOf(s, slots);
    var q := Course(s, w, slots, [], 1);
    TwoEntries(s, slots);
    QuietCourse(s, w, slots, 2, [], 1);
    CalmCourse(s, w, slots, 1, rest);
    CourseLaden(s, w, slots, 2, [], 1);
    OnlyCopy(s, slots, q);
  }

  lemma OnlyCopy(s: seq<byte>, slots: nat, q: Leg)
    requires WrittenTwice(s, slots) && Laden(s, slots, 2, 1, q) && q.misses == {} && Distinct(q.src)
    ensures Good(q.t, slots, 1) && LogOf(q.t, slots)[0] == Entry(LogOf(s, slots)[1].hash, 0, LogOf(s, slots)[1].len)
  {
    hide Neat, Visited, Packed, WrittenTwice;
    var log := LogOf(s, slots);
    TwoEntries(s, slots);
    LadenMeans(s, slots, 2, 1, q);
    GoodAlloc(q.t, slots, |q.src|);
    assert 0 in q.misses || CoveredKey(log, q.src, log[0].hash);
    forall i | 0 <= i < |q.src| ensures q.src[i] == 1 {
      assert Copied(s, q.t, slots, 2, q.src[i], i);
    }
    AllOne(q.src);
    assert Copied(s, q.t, slots, 2, q.src[0], 0);
    FirstOffset(q.t, slots, 1);
  }

  lemma AllOne(src: seq<nat>)
    requires Distinct(src) && 1 in src && forall i :: 0 <= i < |src| ==> src[i] == 1
    ensures |src| == 1
  {
    ElementsCount(src);
    assert Elements(src) == {1};
  }

  lemma FirstOffset(m: seq<byte>, slots: nat, n: nat)
    requires Good(m, slots, n) && 0 < n <= slots
    ensures LogOf(m, slots)[0].offset == 0
  {
    assert LogOf(m, slots)[0].offset == End(LogOf(m, slots), 0);
  }

  /** The second turn: the search of the target sees the copy and fails at the next slot. The entry is then the copy's,
      whose offset is where the source holds the first value. */
  lemma SecondOfTwo(s: seq<byte>, slots: nat, a: Leg)
    requires WrittenTwice(s, slots) && a.ok && Good(a.t, slots, 1)
    requires LogOf(a.t, slots)[0] == Entry(LogOf(s, slots)[1].hash, 0, LogOf(s, slots)[1].len)
    requires a.bad == Falses(1 + slots) + [false, true]
    ensures var b, e := Step(s, slots, 1, a), LogOf(a.t, slots)[0];
            b.ok && b.bad == [] && Storable(e) && Fits(a.t, slots, e) && b.t == Pasted(s, a.t, slots, e)
  {
    hide Hit, Passed, Searched, Pasted, LastIn, Latest, IsBank, Chunks, Falses, Packed, Align, Fits;
    var log, copies := LogOf(s, slots), LogOf(a.t, slots);
    var e := copies[0];
    TwoEntries(s, slots);
    SecondFits(s, a.t, slots);
    FalsesPass(1 + slots, 1, [false, true], slots);
    FalsesPass(slots, slots, [false, true], 0);
    FalsesNone([false, true]);
    SecondRead(slots, copies, log[1]);
    QuietEmpty(slots + Chunks(e.len));
  }

  lemma SecondFits(s: seq<byte>, t: seq<byte>, slots: nat)
    requires WrittenTwice(s, slots) && Good(t, slots, 1)
    requires LogOf(t, slots)[0] == Entry(LogOf(s, slots)[1].hash, 0, LogOf(s, slots)[1].len)
    ensures Fits(t, slots, LogOf(t, slots)[0])
  {
    hide Packed, Align;
    TwoEntries(s, slots);
    GoodAlloc(t, slots, 1);
    AlignSum(0, LogOf(t, slots)[0].len);
  }

  lemma SecondRead(slots: nat, copies: Log, was: Entry)
    requires |copies| == slots > 2 && copies[0].hash == was.hash
    ensures Hit([false, true], slots) && Searched([false, true], slots) == []
    ensures Latest(copies, was, Sight([false, true], slots)) == copies[0]
  {
    assert Fault([false, true]) == 1;
    assert LastIn(copies, was.hash, 1) == 0;
  }

  /** The value that goes with it. */
  lemma FirstValueAgain(s: seq<byte>, t: seq<byte>, slots: nat)
    requires WrittenTwice(s, slots) && Good(t, slots, 1)
    requires LogOf(t, slots)[0] == Entry(LogOf(s, slots)[1].hash, 0, LogOf(s, slots)[1].len)
    requires Storable(LogOf(t, slots)[0]) && Fits(t, slots, LogOf(t, slots)[0])
    ensures var u, e := Pasted(s, t, slots, LogOf(t, slots)[0]), LogOf(s, slots)[0];
            && Good(u, slots, 2) && End(LogOf(u, slots), 2) + 16 < DataSize(slots)
            && InBank(slots, e) && Lookup(u, slots, e.hash) == Some(Value(s, slots, e))
  {
    hide Packed, Append, Lookup, Align;
    var e := LogOf(t, slots)[0];
    TwoEntries(s, slots);
    NewFits(t, slots, e);
    GoodAlloc(t, slots, 1);
    var copy, d := NewEntry(t, slots, e), Taken(s, slots, e);
    assert End(LogOf(t, slots), 1) == Align(e.len) by {
      AlignSum(0, e.len);
    }
    AppendGood(t, slots, 1, copy, d, 2);
    AppendLookup(t, slots, 1, copy, d, e.hash);
  }

  lemma {:induction false} NothingMore(s: seq<byte>, t: seq<byte>, slots: nat, bad: seq<bool>, k: nat)
    requires WrittenTwice(s, slots) && IsBank(t, slots) && 2 <= k <= slots
    requires Course(s, t, slots, bad, 2).ok && Course(s, t, slots, bad, 2).bad == []
    ensures Course(s, t, slots, bad, k) == Course(s, t, slots, bad, 2)
  {
    hide Hit, Passed, CopyTurn;
    if k > 2 {
      NothingMore(s, t, slots, bad, k - 1);
      TwoEntries(s, slots);
      QuietEmpty(1);
    }
  }

  /** The list in which the search of the target for the second slot fails, at its second read. */
  ghost function AfterTheCopy(s: seq<byte>, slots: nat): seq<bool>
    requires IsBank(s, slots) && IsBank(Wiped(slots), slots) && slots > 0
  {
    Falses(MoveReads(s, Wiped(slots), slots, 1)) + (Falses(1 + slots) + [false, true])
  }

  lemma RevertsThere(s: seq<byte>, slots: nat)
    requires WrittenTwice(s, slots)
    ensures IsBank(Wiped(slots), slots) && Failures(AfterTheCopy(s, slots)) == 1
    ensures var c, e := There(s, Wiped(slots), slots, AfterTheCopy(s, slots)), LogOf(s, slots)[0];
            && c.ok && c.bad == [] && Good(c.t, slots, 2) && End(LogOf(c.t, slots), 2) + 16 < DataSize(slots)
            && InBank(slots, e) && Lookup(c.t, slots, e.hash) == Some(Value(s, slots, e))
  {
    hide Packed, Falses, MoveReads, Step, Fits, Pasted, Failures, Value, WrittenTwice, Lookup;
    TwiceIs(s, slots);
    WipedIs(s, slots);
    var w, tail, bad := Wiped(slots), Falses(1 + slots) + [false, true], AfterTheCopy(s, slots);
    QuietList();
    FalsesFail(1 + slots, [false, true]);
    FalsesFail(MoveReads(s, w, slots, 1), tail);
    FirstOfTwo(s, slots, tail);
    var a := Course(s, w, slots, bad, 1);
    SecondOfTwo(s, slots, a);
    FirstValueAgain(s, a.t, slots);
    assert Course(s, w, slots, bad, 2) == Step(s, slots, 1, a);
    NothingMore(s, w, slots, bad, slots);
  }

  /** A single failing read gives a key that was written twice its first value back, and reclaim reports success. */
  lemma Reverts(s: seq<byte>, slots: nat) returns (bad: seq<bool>)
    requires WrittenTwice(s, slots)
    ensures IsBank(Wiped(slots), slots) && Failures(bad) == 1
    ensures var c, log := There(s, Wiped(slots), slots, bad), LogOf(s, slots);
            && RoomLeft(c, slots) && Back(c, slots).ok
            && InBank(slots, log[0]) && InBank(slots, log[1])
            && Lookup(s, slots, log[0].hash) == Some(Value(s, slots, log[1]))
            && Lookup(Back(c, slots).t, slots, log[0].hash) == Some(Value(s, slots, log[0]))
  {
    hide Packed, Course, Failures, Quiet, Value, Hit, Searched, AfterTheCopy;
    WipedIs(s, slots);
    bad := AfterTheCopy(s, slots);
    TwoEntries(s, slots);
    RevertsThere(s, slots);
    var c := There(s, Wiped(slots), slots, bad);
    GoodAlloc(c.t, slots, 2);
    QuietEmpty(slots);
    QuietList();
    QuietMove(c.t, Wiped(slots), slots, 2, []);
  }

  lemma TwiceIs(s: seq<byte>, slots: nat)
    requires WrittenTwice(s, slots)
    ensures Good(s, slots, 2) && slots > 2
  {
  }
}
