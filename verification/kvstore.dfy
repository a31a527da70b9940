/** The flash key-value store (ports/kvstore/flash_kvstore.c, default build). */
module KvStore {
  import opened Basics
  import opened KvLog
  import opened KvBytes
  import opened KvCompact
  import opened KvFlash
  import opened KvReads
  import opened KvMove
  import opened KvReclaim

  datatype Rc = OK | NOENT | NOSPC | IO | NOTSUP

  const STORAGE: nat := 0
  const SCRATCH: nat := 1

  /** Slots from n on and the data area beyond the log's end are unprogrammed. */
  ghost predicate Unused(p: Marks, m: seq<byte>, slots: nat, n: nat)
    requires Good(m, slots, n)
  {
    |p| == |m| && Room(p, slots, n, End(LogOf(m, slots), n))
  }

  /** Nothing from the given slot and data offset on is programmed. */
  ghost predicate Room(p: Marks, slots: nat, slot: nat, offset: nat) {
    Blank(p, 16 * slot, MetaSize(slots)) && Blank(p, MetaSize(slots) + offset, |p|)
  }

  lemma RoomOf(p: Marks, m: seq<byte>, slots: nat, n: nat)
    requires Good(m, slots, n) && Unused(p, m, slots, n)
    ensures Room(p, slots, n, End(LogOf(m, slots), n))
  {
  }

  lemma RoomAfterMeta(p: Marks, p1: Marks, slots: nat, slot: nat, offset: nat, len: nat)
    requires slot < slots && Within(p, p1, 16 * slot, 16 * slot + 16)
    ensures Room(p, slots, slot, offset) ==>
              && Blank(p, 16 * slot, 16 * slot + 16)
              && Blank(p1, MetaSize(slots) + offset, MetaSize(slots) + offset + len)
  {
  }

  /** What a write of the entry and of the value marks leaves the rest unprogrammed. */
  lemma UnusedAppend(p: Marks, p1: Marks, p2: Marks, m: seq<byte>, slots: nat, n: nat, e: Entry, d: seq<byte>, n': nat)
    requires Good(m, slots, n) && Unused(p, m, slots, n) && n < slots && Storable(e) && n' == n + 1
    requires e.offset == End(LogOf(m, slots), n) && e.offset + |d| <= EndOf(e) <= DataSize(slots)
    requires Within(p, p1, 16 * n, 16 * n + 16)
    requires Within(p1, p2, MetaSize(slots) + e.offset, MetaSize(slots) + e.offset + |d|)
    requires Good(Append(m, slots, n, e, d), slots, n')
    requires End(LogOf(Append(m, slots, n, e, d), slots), n') == EndOf(e)
    ensures Unused(p2, Append(m, slots, n, e, d), slots, n')
  {
  }

  /** Nothing is programmed from where alloc_entry goes on. */
  ghost predicate Open(p: Marks, m: seq<byte>, slots: nat)
    requires IsBank(m, slots)
  {
    |p| == |m| && Room(p, slots, AllocSlot(m, slots), AllocAt(m, slots))
  }

  lemma OpenIsUnused(p: Marks, m: seq<byte>, slots: nat, n: nat)
    requires Good(m, slots, n)
    ensures Open(p, m, slots) <==> Unused(p, m, slots, n)
  {
    GoodAlloc(m, slots, n);
  }

  lemma OpenWhenBlank(p: Marks, m: seq<byte>, slots: nat)
    requires IsBank(m, slots) && |p| == |m| && Blank(p, 0, |m|)
    ensures Open(p, m, slots)
  {
  }

  class Store {
    const chip: Chip
    const slots: nat
    const hasScratch: bool
    const murmur: string -> nat
    const dbj2: string -> nat
    /** Entries of the storage partition in use. */
    ghost var used: nat

    ghost predicate Banks()
      reads chip
    {
      chip.Valid() && slots > 0 && IsBank(chip.cells[0], slots) && IsBank(chip.cells[1], slots)
    }

    ghost predicate Valid()
      reads this, chip
    {
      && Banks()
      && Good(chip.cells[STORAGE], slots, used)
      && Unused(chip.programmed[STORAGE], chip.cells[STORAGE], slots, used)
    }

    /** flash_kvstore_new over partitions of 256 bytes per slot, the first holding a log of
        n entries. */
    constructor (chip: Chip, slots: nat, hasScratch: bool, murmur: string -> nat, dbj2: string -> nat, ghost n: nat)
      requires chip.Valid() && slots > 0 && IsBank(chip.cells[1], slots)
      requires Good(chip.cells[STORAGE], slots, n)
      requires Unused(chip.programmed[STORAGE], chip.cells[STORAGE], slots, n)
      ensures Valid() && this.chip == chip && this.slots == slots && this.hasScratch == hasScratch && used == n
      ensures this.murmur == murmur && this.dbj2 == dbj2
    {
      this.chip, this.slots, this.hasScratch := chip, slots, hasScratch;
      this.murmur, this.dbj2 := murmur, dbj2;
      used := n;
    }

    method ReadEntry(bank: nat, k: nat) returns (ok: bool, e: Entry)
      requires Banks() && bank < 2 && k < slots
      modifies chip`badReads
      ensures (ok ==> e == LogOf(chip.cells[bank], slots)[k]) && Storable(e)
      ensures ok == !Hit(old(chip.badReads), 1) && chip.badReads == Passed(old(chip.badReads), 1)
    {
      var buf;
      ok, buf := chip.Read(bank, 16 * k, 16);
      e := Entry(FREE, 0, 0);
      if ok {
        e := Decode(buf);
      }
    }

    /** find_meta: the last entry with the hash of `was`. It fails exactly if one of its reads does, and then the
        entry is the last one seen so far. */
    method FindMeta(bank: nat, was: Entry) returns (rc: Rc, e: Entry)
      requires Banks() && bank < 2
      modifies chip`badReads
      ensures rc in {OK, NOENT, IO} && (rc == IO <==> Hit(old(chip.badReads), slots))
      ensures chip.badReads == Searched(old(chip.badReads), slots)
      ensures e == Latest(LogOf(chip.cells[bank], slots), was, if rc == IO then Fault(old(chip.badReads)) else slots)
      ensures rc != IO ==> (rc == OK <==> Last(LogOf(chip.cells[bank], slots), was.hash) >= 0)
      ensures Storable(was) ==> Storable(e)
    {
      hide Latest, LastIn, Hit, Passed;
      ghost var log, bad := LogOf(chip.cells[bank], slots), chip.badReads;
      HitNone(bad);
      e := was;
      LatestIs(log, was, 0);
      var found := false;
      var k := 0;
      while k < slots
        invariant k <= slots && e.hash == was.hash && e == Latest(log, was, k) && (Storable(was) ==> Storable(e))
        invariant !Hit(bad, k) && chip.badReads == Passed(bad, k)
        invariant found <==> LastIn(log, was.hash, k) >= 0
      {
        HitStep(bad, k, k + 1);
        LatestIs(log, was, k);
        var ok, t := ReadEntry(bank, k);
        if !ok {
          HitMore(bad, k + 1, slots);
          return IO, e;
        }
        LatestStep(log, was, k, k + 1);
        if t.hash == e.hash {
          e, found := t, true;
        }
        k := k + 1;
      }
      LatestIs(log, was, slots);
      rc := if found then OK else NOENT;
    }

    /** find_key: as find_meta, but a tombstone counts as absent. */
    method FindKey(bank: nat, h: Hash) returns (rc: Rc, e: Entry)
      requires Banks() && bank < 2
      modifies chip`badReads
      ensures old(chip.badReads) == [] ==> rc != IO && chip.badReads == []
      ensures rc in {OK, NOENT, IO}
      ensures var log := LogOf(chip.cells[bank], slots);
              && (rc == OK ==> Last(log, h) >= 0 && e == log[Last(log, h)] && e.len > 0)
              && (rc == NOENT ==> Last(log, h) < 0 || log[Last(log, h)].len == 0)
    {
      ghost var bad := chip.badReads;
      rc, e := FindMeta(bank, Entry(h, 0, 0));
      LatestIs(LogOf(chip.cells[bank], slots), Entry(h, 0, 0), slots);
      if rc == OK && e.len == 0 {
        rc := NOENT;
      }
    }

    /** alloc_entry: the first free slot, and the line after the last value it sees. */
    method Alloc(bank: nat, size: nat) returns (rc: Rc, slot: nat, offset: nat)
      requires Banks() && bank < 2
      modifies chip`badReads
      ensures rc in {OK, NOSPC, IO} && (rc == IO <==> Hit(old(chip.badReads), slots))
      ensures chip.badReads == Searched(old(chip.badReads), slots)
      ensures rc == OK ==>
                && slot == AllocSlot(chip.cells[bank], slots) < slots
                && offset == AllocAt(chip.cells[bank], slots) && offset + size < DataSize(slots)
      ensures rc == NOSPC ==>
                AllocSlot(chip.cells[bank], slots) == slots
                  || AllocAt(chip.cells[bank], slots) + size >= DataSize(slots)
    {
      var ok;
      ok, slot, offset := Scan(bank);
      rc := if !ok then IO else if slot < slots && offset + size < DataSize(slots) then OK else NOSPC;
    }

    /** alloc_entry's loop. */
    method Scan(bank: nat) returns (ok: bool, slot: nat, offset: nat)
      requires Banks() && bank < 2
      modifies chip`badReads
      ensures ok == !Hit(old(chip.badReads), slots) && chip.badReads == Searched(old(chip.badReads), slots)
      ensures ok ==> slot == AllocSlot(chip.cells[bank], slots) && offset == AllocAt(chip.cells[bank], slots)
    {
      hide Hit, Passed, FirstFree, ScanEnd, NextSlot, NextOffset;
      ghost var log, bad := LogOf(chip.cells[bank], slots), chip.badReads;
      HitNone(bad);
      ScanBegins(log, DataSize(slots));
      var area := DataSize(slots);
      slot, offset := 0, 0;
      var k := 0;
      while k < slots
        invariant k <= slots && !Hit(bad, k) && chip.badReads == Passed(bad, k)
        invariant slot == FirstFree(log, k) && offset == ScanEnd(log, k, area)
      {
        HitStep(bad, k, k + 1);
        var e;
        ok, e := ReadEntry(bank, k);
        if !ok {
          HitMore(bad, k + 1, slots);
          return;
        }
        ScanStep(log, k, area, k + 1);
        slot, offset := NextSlot(slot, k, e), NextOffset(offset, e, area);
        k := k + 1;
      }
      ok := true;
    }

    /** The chunk loop of move_partition: whole lines, the last one rounded up. */
    method CopyValue(from: nat, to: nat, fromAt: nat, toAt: nat, len: nat) returns (ok: bool)
      requires Banks() && from < 2 && to == 1 - from
      modifies chip
      ensures Banks() && Untouched(from, old(chip.cells), chip.cells, old(chip.programmed), chip.programmed,
                                   old(chip.trace), chip.trace)
      ensures Tail(old(chip.badReads), chip.badReads)
      ensures ok ==> !Hit(old(chip.badReads), Chunks(len)) && chip.badReads == Passed(old(chip.badReads), Chunks(len))
      ensures old(chip.plan) == [] ==> chip.plan == []
      ensures len == 0 ==> ok && chip.cells == old(chip.cells)
      ensures ok && len > 0 ==>
                CopyDone(old(chip.cells)[from], old(chip.cells)[to], fromAt, toAt, Align(len), chip.cells[to])
      ensures Within(old(chip.programmed)[to], chip.programmed[to], toAt, toAt + Align(len))
      ensures Blank(old(chip.programmed)[to], toAt, toAt + Align(len)) ==> chip.rewritten == old(chip.rewritten)
      ensures !ok ==> || Hit(old(chip.badReads), Chunks(len)) || old(chip.plan) != []
                      || fromAt + Align(len) > |old(chip.cells)[from]| || toAt + Align(len) > |old(chip.cells)[to]|
    {
      hide Kept, Within, Blank, CopyDone, Hit, Passed, Tail;
      ghost var bad := chip.badReads;
      HitNone(bad);
      TailPassed(bad, 0);
      KeptSame(chip.trace, from, chip.cells[from]);
      ghost var f, t, p := chip.cells[from], chip.cells[to], chip.programmed[to];
      ghost var lines := Align(len);
      NothingWritten(t, p, toAt);
      var i := 0;
      ghost var c := 0;
      while i < len
        invariant i % 16 == 0 && i <= lines
        invariant Banks() && Untouched(from, old(chip.cells), chip.cells, old(chip.programmed), chip.programmed,
                                       old(chip.trace), chip.trace)
        invariant i == 16 * c && !Hit(bad, c) && chip.badReads == Passed(bad, c)
        invariant old(chip.plan) == [] ==> chip.plan == []
        invariant if i == 0 then chip.cells == old(chip.cells) else CopyDone(f, t, fromAt, toAt, i, chip.cells[to])
        invariant Within(p, chip.programmed[to], toAt, toAt + i)
        invariant Blank(p, toAt, toAt + lines) ==> chip.rewritten == old(chip.rewritten)
      {
        LineFits(i, len);
        HitStep(bad, c, c + 1);
        TailPassed(bad, c + 1);
        BlankPart(p, toAt, lines, i);
        ghost var before, past := chip.cells[to], chip.trace;
        var done := CopyLine(from, to, fromAt + i, toAt + i, toAt, i, p);
        KeptTransitive(old(chip.trace), past, chip.trace, from, f);
        if !done {
          HitMore(bad, c + 1, Chunks(len));
          WithinMore(p, chip.programmed[to], toAt, i + 16, lines);
          return false;
        }
        CopyStep(f, t, fromAt, toAt, i, before, chip.cells[to]);
        i, c := i + 16, c + 1;
      }
      LastLine(i, len);
      TailPassed(bad, c);
      ok := true;
    }

    /** One line: read from one partition, write to the other. */
    method CopyLine(from: nat, to: nat, fromAt: nat, toAt: nat, ghost start: nat, ghost i: nat, ghost p: Marks)
      returns (ok: bool)
      requires Banks() && from < 2 && to == 1 - from && toAt == start + i
      requires Within(p, chip.programmed[to], start, start + i)
      modifies chip
      ensures Banks() && Untouched(from, old(chip.cells), chip.cells, old(chip.programmed), chip.programmed,
                                   old(chip.trace), chip.trace)
      ensures chip.badReads == Passed(old(chip.badReads), 1)
      ensures old(chip.plan) == [] ==> chip.plan == []
      ensures ok ==> CopyDone(old(chip.cells)[from], old(chip.cells)[to], fromAt, toAt, 16, chip.cells[to])
      ensures Within(p, chip.programmed[to], start, start + (i + 16))
      ensures Blank(p, toAt, toAt + 16) ==> chip.rewritten == old(chip.rewritten)
      ensures ok ==> !Hit(old(chip.badReads), 1)
      ensures !ok ==> || Hit(old(chip.badReads), 1) || old(chip.plan) != []
                      || fromAt + 16 > |old(chip.cells)[from]| || toAt + 16 > |old(chip.cells)[to]|
    {
      hide Kept, Passed, Splice, Within, Blank;
      PassedOne(chip.badReads);
      ghost var q := chip.programmed[to];
      WithinMore(p, q, start, i, i + 16);
      BlankStill(p, q, start, i);
      KeptSame(chip.trace, from, chip.cells[from]);
      var buf;
      ok, buf := chip.Read(from, fromAt, 16);
      if ok {
        ok := chip.Program(to, toAt, buf);
        WithinOn(p, q, chip.programmed[to], start, i);
      }
    }

    /** One entry of move_partition: allocate, write the metadata, copy the value. */
    method CopyEntry(from: nat, to: nat, e: Entry) returns (rc: Rc)
      requires Banks() && from < 2 && to == 1 - from && Storable(e) && e.hash != FREE
      modifies chip
      ensures rc in {OK, IO}
      ensures Banks() && Untouched(from, old(chip.cells), chip.cells, old(chip.programmed), chip.programmed,
                                   old(chip.trace), chip.trace)
      ensures Tail(old(chip.badReads), chip.badReads)
      ensures old(chip.plan) == [] ==> chip.plan == []
      ensures rc == OK ==>
                && CanPut(old(chip.cells)[to], slots, e, old(chip.badReads))
                && chip.cells[to] == Pasted(chip.cells[from], old(chip.cells)[to], slots, e)
                && chip.badReads == Passed(old(chip.badReads), slots + Chunks(e.len))
      ensures old(chip.plan) == [] && CanPut(old(chip.cells)[to], slots, e, old(chip.badReads)) ==> rc == OK
      ensures Open(old(chip.programmed)[to], old(chip.cells)[to], slots) ==>
                && chip.rewritten == old(chip.rewritten)
                && (rc == OK && AllocAt(old(chip.cells)[to], slots) + Align(e.len) < DataSize(slots) ==>
                      Open(chip.programmed[to], chip.cells[to], slots))
    {
      hide Kept, Hit, Passed, Searched, Tail, Chunks, Room, AllocSlot, AllocAt, Append, Align;
      assert IsBank(chip.cells[from], slots) && IsBank(chip.cells[to], slots);
      ghost var bad, chunks := chip.badReads, Chunks(e.len);
      HitSplit(bad, slots, chunks, slots + chunks);
      SearchedIs(bad, slots);
      KeptSame(chip.trace, from, chip.cells[from]);
      ghost var t := chip.cells[to];
      var found, slot, at := Alloc(to, e.len);
      if found != OK {
        return IO;
      }
      AllocLines(t, slots, e.len);
      var copy := Entry(e.hash, at, e.len);
      ghost var rest := chip.badReads;
      var ok := WriteCopy(from, to, slot, copy, e);
      TailOn(bad, rest, chip.badReads);
      assert IsBank(chip.cells[to], slots);
      if ok {
        OpenAfter(chip.programmed[to], t, slots, copy, Taken(chip.cells[from], slots, e), slot + 1);
      }
      rc := if ok then OK else IO;
    }

    /** write_meta and the chunk loop, for one entry. */
    method WriteCopy(from: nat, to: nat, slot: nat, copy: Entry, e: Entry) returns (ok: bool)
      requires Banks() && from < 2 && to == 1 - from && slot < slots
      requires Storable(copy) && copy.offset + Align(e.len) <= DataSize(slots)
      modifies chip
      ensures Banks() && Untouched(from, old(chip.cells), chip.cells, old(chip.programmed), chip.programmed,
                                   old(chip.trace), chip.trace)
      ensures Tail(old(chip.badReads), chip.badReads)
      ensures ok ==>
                !Hit(old(chip.badReads), Chunks(e.len)) && chip.badReads == Passed(old(chip.badReads), Chunks(e.len))
      ensures old(chip.plan) == [] ==> chip.plan == []
      ensures ok ==>
                && Lies(slots, e)
                && chip.cells[to] == Append(old(chip.cells)[to], slots, slot, copy, Taken(chip.cells[from], slots, e))
      ensures Room(old(chip.programmed)[to], slots, slot, copy.offset) ==>
                && chip.rewritten == old(chip.rewritten)
                && Room(chip.programmed[to], slots, slot + 1, copy.offset + Align(e.len))
      ensures old(chip.plan) == [] && !Hit(old(chip.badReads), Chunks(e.len)) && Lies(slots, e) ==> ok
    {
      hide Kept, Within, CopyDone, Room, Blank, Append, Hit, Passed, Tail, Taken, Align, Splice, Encode, Done;
      assert IsBank(chip.cells[from], slots) && IsBank(chip.cells[to], slots);
      TailPassed(chip.badReads, 0);
      ghost var f, t, p := chip.cells[from], chip.cells[to], chip.programmed[to];
      ok := chip.Program(to, 16 * slot, Encode(copy));
      ghost var p1, t1, past := chip.programmed[to], chip.cells[to], chip.trace;
      RoomAfterMeta(p, p1, slots, slot, copy.offset, Align(e.len));
      if !ok {
        WithinMore(p1, p1, MetaSize(slots) + copy.offset, 0, Align(e.len));
        RoomAfter(p, p1, p1, slots, slot, copy.offset, Align(e.len), slot + 1);
        return;
      }
      assert t1 == Splice(t, 16 * slot, Encode(copy)) && chip.cells[from] == f && |t1| == |t|;
      ok := CopyValue(from, to, MetaSize(slots) + e.offset, MetaSize(slots) + copy.offset, e.len);
      KeptTransitive(old(chip.trace), past, chip.trace, from, f);
      RoomAfter(p, p1, chip.programmed[to], slots, slot, copy.offset, Align(e.len), slot + 1);
      if ok {
        CopyTaken(f, t, slots, slot, e, copy, t1, chip.cells[to]);
      }
    }

    /** One turn of move_partition. */
    method MoveSlot(from: nat, to: nat, k: nat, ghost a: Leg) returns (rc: Rc)
      requires Banks() && from < 2 && to == 1 - from && k < slots
      requires a.t == chip.cells[to] && a.bad == chip.badReads && a.ok
      modifies chip
      ensures rc in {OK, IO}
      ensures Banks() && Untouched(from, old(chip.cells), chip.cells, old(chip.programmed), chip.programmed,
                                   old(chip.trace), chip.trace)
      ensures Tail(old(chip.badReads), chip.badReads)
      ensures old(chip.plan) == [] ==> chip.plan == []
      ensures Ends(Step(chip.cells[from], slots, k, a), slots, rc, chip.cells[to], chip.badReads, chip.programmed[to],
                   old(chip.plan) == [], Open(old(chip.programmed)[to], a.t, slots),
                   chip.rewritten == old(chip.rewritten))
    {
      hide Untouched, Step, Hit, Passed, Tail, Chunks, Open, Fits, Pasted, AllocAt, Align;
      UntouchedSame(from, chip.cells, chip.programmed, chip.trace);
      ghost var bad := chip.badReads;
      var ok, skip, e := Pick(from, to, k, a);
      if !ok || skip {
        return if ok then OK else IO;
      }
      ghost var rest := chip.badReads;
      rc := CopyEntry(from, to, e);
      TailOn(bad, rest, chip.badReads);
      UntouchedMeans(from, old(chip.cells), chip.cells, old(chip.programmed), chip.programmed, old(chip.trace),
                     chip.trace);
    }

    /**
     * The first half of a turn: read the slot, and find what to copy. The search of the target may have come upon the
     * copy before it failed: then the entry is the copy's, and its offset the one in the target.
     */
    method Pick(from: nat, to: nat, k: nat, ghost a: Leg) returns (ok: bool, skip: bool, e: Entry)
      requires Banks() && from < 2 && to == 1 - from && k < slots
      requires a.t == chip.cells[to] && a.bad == chip.badReads && a.ok
      modifies chip`badReads
      ensures Tail(old(chip.badReads), chip.badReads)
      ensures var f, b := chip.cells[from], Step(chip.cells[from], slots, k, a);
              if !ok then !b.ok
              else if skip then b.ok && b.t == a.t && b.bad == chip.badReads
              else
                && Storable(e) && e.hash != FREE
                && 0 <= Last(LogOf(f, slots), LogOf(f, slots)[k].hash) < slots
                && b == PutTurn(f, slots, Last(LogOf(f, slots), LogOf(f, slots)[k].hash), e, a, chip.badReads)
    {
      hide Hit, Passed, Searched, Tail, LastIn, Latest, PutTurn, Step, IsBank;
      ghost var copies, bad := LogOf(a.t, slots), chip.badReads;
      ok, skip, e := PickLive(from, k, a);
      if !ok || skip {
        return;
      }
      ghost var rest := chip.badReads;
      SearchedIs(rest, slots);
      TailOn(bad, rest, Searched(rest, slots));
      LatestIs(copies, e, Sight(rest, slots));
      var rc;
      rc, e := FindMeta(to, e);
      skip := rc == OK;
    }

    /** The slot, and the live entry of its key. */
    method PickLive(from: nat, k: nat, ghost a: Leg) returns (ok: bool, skip: bool, e: Entry)
      requires Banks() && from < 2 && k < slots && IsBank(a.t, slots)
      requires a.bad == chip.badReads && a.ok
      modifies chip`badReads
      ensures Tail(old(chip.badReads), chip.badReads)
      ensures var f, b := chip.cells[from], Step(chip.cells[from], slots, k, a);
              if !ok then !b.ok
              else if skip then b.ok && b.t == a.t && b.bad == chip.badReads
              else
                var j := Last(LogOf(f, slots), LogOf(f, slots)[k].hash);
                && 0 <= j < slots && e == LogOf(f, slots)[j] && e.hash != FREE && Storable(e)
                && b == CopyTurn(f, slots, j, a, chip.badReads)
    {
      hide Hit, Passed, Searched, Tail, LastIn, Latest, CopyTurn, IsBank;
      ghost var log, bad := LogOf(chip.cells[from], slots), chip.badReads;
      TailPassed(bad, 1);
      ok, e := ReadEntry(from, k);
      skip := true;
      if !ok || e.hash == FREE {
        return;
      }
      ghost var rest := chip.badReads;
      SearchedIs(rest, slots);
      LatestIs(log, e, slots);
      TailOn(bad, rest, Searched(rest, slots));
      var rc;
      rc, e := FindMeta(from, e);
      skip := rc != OK || e.len == 0 || e.offset > DataSize(slots);
    }

    /** The loop of move_partition. */
    method MoveSlots(from: nat, to: nat) returns (rc: Rc)
      requires Banks() && from < 2 && to == 1 - from
      modifies chip
      ensures rc in {OK, IO}
      ensures Banks() && Untouched(from, old(chip.cells), chip.cells, old(chip.programmed), chip.programmed,
                                   old(chip.trace), chip.trace)
      ensures Tail(old(chip.badReads), chip.badReads)
      ensures old(chip.plan) == [] ==> chip.plan == []
      ensures Ends(Course(chip.cells[from], old(chip.cells)[to], slots, old(chip.badReads), slots), slots, rc,
                   chip.cells[to], chip.badReads, chip.programmed[to], old(chip.plan) == [],
                   Open(old(chip.programmed)[to], old(chip.cells)[to], slots), chip.rewritten == old(chip.rewritten))
    {
      hide Untouched, Tail, Open, Step, IsBank, Course, Ends;
      TailPassed(chip.badReads, 0);
      UntouchedSame(from, chip.cells, chip.programmed, chip.trace);
      ghost var f, t, bad := chip.cells[from], chip.cells[to], chip.badReads;
      ghost var calm, open := chip.plan == [], Open(chip.programmed[to], t, slots);
      assert IsBank(f, slots) && IsBank(t, slots);
      EndsAtFirst(f, t, slots, bad, chip.programmed[to], calm);
      var k := 0;
      while k < slots
        invariant k <= slots && Banks() && IsBank(chip.cells[to], slots)
        invariant Untouched(from, old(chip.cells), chip.cells, old(chip.programmed), chip.programmed, old(chip.trace),
                            chip.trace)
        invariant chip.cells[from] == f
        invariant Tail(bad, chip.badReads)
        invariant calm ==> chip.plan == []
        invariant Ends(Course(f, t, slots, bad, k), slots, OK, chip.cells[to], chip.badReads, chip.programmed[to], calm,
                       open, chip.rewritten == old(chip.rewritten))
      {
        ghost var c, p, past, left := chip.cells, chip.programmed, chip.trace, chip.badReads;
        ghost var a := Course(f, t, slots, bad, k);
        ghost var before := chip.rewritten == old(chip.rewritten);
        ghost var calm', open', was := chip.plan == [], Open(p[to], c[to], slots), chip.rewritten;
        EndsMeans(a, slots, OK, c[to], left, p[to], calm, open, before);
        rc := MoveSlot(from, to, k, a);
        UntouchedOn(from, old(chip.cells), c, chip.cells, old(chip.programmed), p, chip.programmed, old(chip.trace),
                    past, chip.trace);
        TailOn(bad, left, chip.badReads);
        EndsStep(f, t, slots, bad, k, k + 1, c[to], left, p[to], calm, open, before, rc, chip.cells[to], chip.badReads,
                 chip.programmed[to], calm', chip.rewritten == was, chip.rewritten == old(chip.rewritten));
        if rc != OK {
          return;
        }
        k := k + 1;
      }
      rc := OK;
    }

    /** move_partition: erase the target, then copy the current value of every live key.
        The result of the erase is not looked at. */
    method MovePartition(from: nat, to: nat) returns (rc: Rc, ghost erased: bool)
      requires Banks() && from < 2 && to == 1 - from
      modifies chip
      ensures rc in {OK, IO}
      ensures Banks() && Untouched(from, old(chip.cells), chip.cells, old(chip.programmed), chip.programmed,
                                   old(chip.trace), chip.trace)
      ensures Tail(old(chip.badReads), chip.badReads)
      ensures |old(chip.plan)| <= 1 ==> chip.plan == []
      ensures erased <==> ErasesFirst(old(chip.plan))
      ensures erased ==>
                && WasBlank(old(chip.trace), chip.trace, to, slots)
                && AfterErase(old(chip.cells)[to], old(chip.plan)) == Wiped(slots)
      // the contents and the failing reads decide whether it fails, and what is in the target if it does not
      ensures var c := Course(chip.cells[from], AfterErase(old(chip.cells)[to], old(chip.plan)), slots,
                              old(chip.badReads), slots);
              && (rc == OK ==> c.ok && chip.cells[to] == c.t && chip.badReads == c.bad)
              && (|old(chip.plan)| <= 1 && c.ok ==> rc == OK)
              && (erased && c.sure ==>
                    && chip.rewritten == old(chip.rewritten)
                    && (rc == OK ==> Open(chip.programmed[to], c.t, slots)))
    {
      hide Tail, Course, Open;
      ghost var f := chip.cells[from];
      erased := chip.Erase(to);
      ghost var past := chip.trace;
      WipedIs(chip.cells[to], slots);
      if erased {
        OpenWhenBlank(chip.programmed[to], chip.cells[to], slots);
      }
      rc := MoveSlots(from, to);
      KeptTransitive(old(chip.trace), past, chip.trace, from, f);
      assert chip.trace[|old(chip.trace)|] == past[|old(chip.trace)|];
    }

    /** What the first move of reclaim makes of the contents of the device and the reads that will fail. */
    ghost function FirstMove(): (c: Leg)
      reads chip
      requires Banks()
      ensures IsBank(c.t, slots)
    {
      There(chip.cells[STORAGE], AfterErase(chip.cells[SCRATCH], chip.plan), slots, chip.badReads)
    }

    /** What the second one makes of that, if it is begun and erases storage. */
    ghost function SecondMove(): (d: Leg)
      reads chip
      requires Banks()
      ensures IsBank(d.t, slots)
    {
      Back(FirstMove(), slots)
    }

    /**
     * reclaim: compact into the scratch partition, and back. `moved` says that the second move was begun, `erased`
     * that it erased storage, and `y` is what its erase left there.
     */
    method Reclaim() returns (rc: Rc, ghost moved: bool, ghost erased: bool, ghost y: seq<byte>)
      requires Valid()
      modifies this`used, chip
      ensures Banks() && old(chip.trace) <= chip.trace && (moved ==> hasScratch) && (erased ==> moved)
      ensures Tail(old(chip.badReads), chip.badReads) && (old(chip.plan) == [] ==> chip.plan == [])
      ensures !hasScratch ==>
                && rc == NOTSUP && chip.cells == old(chip.cells) && chip.trace == old(chip.trace)
                && chip.rewritten == old(chip.rewritten)
      ensures !moved ==> rc != OK && Valid() && chip.cells[STORAGE] == old(chip.cells)[STORAGE] && used == old(used)
      // what it does, by the contents and the failing reads
      ensures moved ==> rc in {OK, IO} && RoomLeft(old(FirstMove()), slots) && chip.cells[SCRATCH] == old(FirstMove()).t
      ensures moved ==>
                && IsBank(y, slots) && (exists m: nat :: m <= |y| && y == Blanked(old(chip.cells)[STORAGE], m))
                && (erased ==> BackInto(old(FirstMove()), y, slots) == old(SecondMove()))
                && (rc == OK ==>
                      var d := BackInto(old(FirstMove()), y, slots);
                      d.ok && chip.cells[STORAGE] == d.t && chip.badReads == d.bad)
      ensures hasScratch && |old(chip.plan)| <= 1 ==>
                && (moved <==> RoomLeft(old(FirstMove()), slots)) && (moved ==> erased) && chip.plan == []
                && rc == (if !old(FirstMove()).ok then IO else if !moved then NOSPC
                          else if old(SecondMove()).ok then OK else IO)
      // one of the partitions holds the map at every flash operation
      ensures Safe(old(chip.cells)[STORAGE], slots, old(FirstMove()), ErasesFirst(old(chip.plan)), moved, erased,
                   chip.trace, |old(chip.trace)|)
      // what storage holds after success
      ensures ErasesFirst(old(chip.plan)) && erased && rc == OK && old(FirstMove()).sure && old(SecondMove()).sure ==>
                && Valid() && used == |old(SecondMove()).src|
                && Returned(old(chip.cells)[STORAGE], slots, old(FirstMove()), old(SecondMove()))
      ensures ErasesFirst(old(chip.plan)) && old(FirstMove()).sure && (moved ==> erased && old(SecondMove()).sure) ==>
                chip.rewritten == old(chip.rewritten)
      // without failing reads
      ensures ErasesFirst(old(chip.plan)) && Quiet(old(chip.badReads)) ==>
                && AllHold(chip.trace, |old(chip.trace)|, old(chip.cells)[STORAGE], slots)
                && (erased && rc == OK ==>
                      && Valid()
                      && Compacted(old(chip.cells)[STORAGE], old(used), chip.cells[STORAGE], used, slots))
      ensures hasScratch && old(chip.plan) == [] && Quiet(old(chip.badReads)) ==>
                && rc == (if Crowded(old(chip.cells)[STORAGE], old(used), slots, 16) then NOSPC else OK)
                && chip.rewritten == old(chip.rewritten) && Quiet(chip.badReads)
    {
      hide Untouched, Kept, WasBlank, AllHold, Safe, Course, RoomLeft, Tail, Hit, Open, Good, Unused, ErasesFirst,
           Returned, Compacted, Crowded, Quiet, Searched, AfterErase;
      moved, erased, y := false, false, [];
      ghost var s, n, bad, c := chip.cells[STORAGE], used, chip.badReads, FirstMove();
      ghost var first := ErasesFirst(chip.plan);
      TailPassed(bad, 0);
      NoPlan();
      RoomAfterOk(c, slots);
      KeptSame(chip.trace, STORAGE, s);
      SafeStill(chip.trace, chip.trace, s, slots, c, first);
      if !hasScratch {
        return NOTSUP, moved, erased, y;
      }
      ghost var e;
      rc, e := MovePartition(STORAGE, SCRATCH);
      UntouchedMeans(STORAGE, old(chip.cells), chip.cells, old(chip.programmed), chip.programmed, old(chip.trace),
                     chip.trace);
      ghost var past, cells, marks, rest := chip.trace, chip.cells, chip.programmed, chip.badReads;
      SafeStill(old(chip.trace), past, s, slots, c, first);
      if first {
        Outcomes(s, slots, n, bad);
      }
      if rc != OK {
        return;
      }
      y := AfterErase(s, chip.plan);
      AfterEraseIs(s, chip.plan);
      rc, moved, erased := MoveBack(c);
      UntouchedMeans(SCRATCH, cells, chip.cells, marks, chip.programmed, past, chip.trace);
      TailOn(bad, rest, chip.badReads);
      TailQuiet(bad, chip.badReads);
      if moved {
        SafeMoved(old(chip.trace), past, chip.trace, s, slots, c, first, erased);
        ghost var d := Back(c, slots);
        if first && erased && rc == OK && c.sure && d.sure {
          used := |d.src|;
          OpenIsUnused(chip.programmed[STORAGE], d.t, slots, used);
        }
      }
    }

    /** The second half of reclaim: if scratch has room to spare, back into storage. */
    method MoveBack(ghost c: Leg) returns (rc: Rc, ghost moved: bool, ghost erased: bool)
      requires Banks() && c.t == chip.cells[SCRATCH] && c.bad == chip.badReads && c.ok
      modifies chip
      ensures Banks() && Untouched(SCRATCH, old(chip.cells), chip.cells, old(chip.programmed), chip.programmed,
                                   old(chip.trace), chip.trace)
      ensures Tail(old(chip.badReads), chip.badReads) && (old(chip.plan) == [] ==> chip.plan == [])
      ensures moved <==> RoomLeft(c, slots)
      ensures !moved ==>
                && rc == NOSPC && !erased && chip.cells == old(chip.cells) && chip.programmed == old(chip.programmed)
                && chip.plan == old(chip.plan) && chip.trace == old(chip.trace) && chip.rewritten == old(chip.rewritten)
      ensures moved ==> (erased <==> ErasesFirst(old(chip.plan))) && rc in {OK, IO}
      ensures erased ==>
                && WasBlank(old(chip.trace), chip.trace, STORAGE, slots)
                && AfterErase(old(chip.cells)[STORAGE], old(chip.plan)) == Wiped(slots)
      ensures moved ==>
                var d := BackInto(c, AfterErase(old(chip.cells)[STORAGE], old(chip.plan)), slots);
                && (rc == OK ==> d.ok && chip.cells[STORAGE] == d.t && chip.badReads == d.bad)
                && (|old(chip.plan)| <= 1 && d.ok ==> rc == OK)
      ensures erased && Back(c, slots).sure ==>
                && chip.rewritten == old(chip.rewritten)
                && (rc == OK ==> Open(chip.programmed[STORAGE], Back(c, slots).t, slots))
    {
      hide Untouched, WasBlank, Tail, Hit, Course, Open, AllocSlot, AllocAt;
      UntouchedSame(SCRATCH, chip.cells, chip.programmed, chip.trace);
      ghost var bad := chip.badReads;
      SearchedIs(bad, slots);
      moved, erased := false, false;
      var slot, at;
      rc, slot, at := Alloc(SCRATCH, 16);
      if rc != OK {
        return NOSPC, moved, erased;
      }
      moved := true;
      ghost var rest := chip.badReads;
      rc, erased := MovePartition(SCRATCH, STORAGE);
      TailOn(bad, rest, chip.badReads);
      UntouchedMeans(SCRATCH, old(chip.cells), chip.cells, old(chip.programmed), chip.programmed, old(chip.trace),
                     chip.trace);
    }

    ghost predicate Healthy()
      reads chip
    {
      chip.plan == [] && chip.badReads == []
    }

    /** The allocating half of do_write: alloc_entry, and if that finds no room, reclaim and
        alloc_entry again. */
    method FindRoom(size: nat) returns (rc: Rc, slot: nat, offset: nat)
      requires Valid()
      modifies this`used, chip
      ensures Banks()
      ensures rc == OK ==> slot < slots && offset + size < DataSize(slots)
      ensures old(Healthy()) ==>
                && Healthy() && Valid() && chip.rewritten == old(chip.rewritten)
                && SameMap(old(chip.cells)[STORAGE], chip.cells[STORAGE], slots)
                && rc in {OK, NOSPC, NOTSUP}
                && (rc == OK ==> slot == used && offset == End(LogOf(chip.cells[STORAGE], slots), used))
                && (rc == NOSPC ==>
                      && hasScratch
                      && Crowded(old(chip.cells)[STORAGE], old(used), slots, if size > 16 then size else 16))
                && (rc == NOTSUP ==> !hasScratch && Full(old(chip.cells)[STORAGE], old(used), slots, size))
    {
      hide Safe, Unused, Course, Quiet, Tail, Hit, Searched, Spare,
           Compacted, Crowded, Full, Good, SameMap;
      ghost var s, n := chip.cells[STORAGE], used;
      QuietEmpty(slots);
      GoodAlloc(s, slots, n);
      SameMapSelf(s, slots);
      FullIs(s, n, slots, size);
      rc, slot, offset := Alloc(STORAGE, size);
      if rc == NOSPC {
        ghost var moved, erased, y, bad := false, false, [], chip.badReads;
        rc, moved, erased, y := Reclaim();
        TailQuiet(bad, chip.badReads);
        if old(Healthy()) {
          MoreCrowded(s, n, slots, size);
        }
        if rc == OK {
          if old(Healthy()) {
            CompactedGood(s, n, chip.cells[STORAGE], used, slots);
            GoodAlloc(chip.cells[STORAGE], slots, used);
            FullIsCrowded(s, n, chip.cells[STORAGE], used, slots, size);
          }
          rc, slot, offset := Alloc(STORAGE, size);
        }
      }
    }

    /** The writing half of do_write: metadata, then the value. */
    method PutEntry(e: Entry, value: Option<seq<byte>>, slot: nat) returns (ok: bool, ghost p1: Marks)
      requires Banks() && slot < slots && Storable(e) && e.offset + e.len < DataSize(slots)
      requires value.Some? ==> |value.value| == e.len
      modifies chip
      ensures Banks()
      ensures old(Healthy()) ==>
                && ok && Healthy()
                && e.offset + |DataOf(value, e)| <= DataSize(slots)
                && chip.cells[STORAGE] == Append(old(chip.cells)[STORAGE], slots, slot, e, DataOf(value, e))
                && Within(old(chip.programmed)[STORAGE], p1, 16 * slot, 16 * slot + 16)
                && Within(p1, chip.programmed[STORAGE], MetaSize(slots) + e.offset,
                          MetaSize(slots) + e.offset + |DataOf(value, e)|)
                && (Room(old(chip.programmed)[STORAGE], slots, slot, e.offset) ==>
                    chip.rewritten == old(chip.rewritten))
    {
      hide Kept, Within, Room, Splice, Blank, Encode, Done;
      ghost var m, p := chip.cells[STORAGE], chip.programmed[STORAGE];
      ghost var d := DataOf(value, e);
      p1 := p;
      ok := chip.Program(STORAGE, 16 * slot, Encode(e));
      if !ok {
        return;
      }
      ghost var m1 := chip.cells[STORAGE];
      p1 := chip.programmed[STORAGE];
      RoomAfterMeta(p, p1, slots, slot, e.offset, |d|);
      if value.Some? && e.len > 0 {
        ok := chip.Program(STORAGE, MetaSize(slots) + e.offset, value.value);
      } else {
        NothingWritten(m1, p1, MetaSize(slots) + e.offset);
      }
    }

    /** do_write. `at` is where the value went. */
    method DoWrite(h: Hash, value: Option<seq<byte>>, size: nat) returns (rc: Rc, at: nat)
      requires Valid() && StorableHash(h) && (value.Some? ==> |value.value| == size)
      modifies this`used, chip
      ensures old(Healthy()) ==>
                && Banks() && Healthy() && chip.rewritten == old(chip.rewritten)
                && rc in {OK, NOSPC, NOTSUP}
                && (rc == OK ==> Wrote(old(chip.cells)[STORAGE], chip.cells[STORAGE], slots, h, value, size))
                && (rc == OK ==> at + size < DataSize(slots))
                && (rc == OK && at + Align(size) < DataSize(slots) ==> Valid())
                && (rc != OK ==> Valid() && SameMap(old(chip.cells)[STORAGE], chip.cells[STORAGE], slots))
                && (rc == NOSPC ==>
                      && hasScratch
                      && Crowded(old(chip.cells)[STORAGE], old(used), slots, if size > 16 then size else 16))
                && (rc == NOTSUP ==> !hasScratch && Full(old(chip.cells)[STORAGE], old(used), slots, size))
    {
      hide Unused;
      ghost var s := chip.cells[STORAGE];
      var slot, offset;
      rc, slot, offset := FindRoom(size);
      at := offset;
      if rc == OK {
        ghost var m, p := chip.cells[STORAGE], chip.programmed[STORAGE];
        var e := Entry(h, offset, size);
        if old(Healthy()) {
          RoomOf(p, m, slots, slot);
        }
        var ok, p1 := PutEntry(e, value, slot);
        rc := if ok then OK else IO;
        if old(Healthy()) {
          AppendWrites(s, m, slots, slot, e, value);
          if EndOf(e) < DataSize(slots) {
            used := slot + 1;
            PutKeeps(m, p, p1, chip.programmed[STORAGE], slots, slot, e, value, used);
          }
          EndOfAligned(m, slots, slot, e);
        }
      }
    }

    /** The map the storage partition stands for: what it holds under the two hashes of each key. */
    ghost function View(): imap<string, Option<seq<byte>>>
      reads this, chip
      requires Banks()
    {
      imap key: string | KeyOk(key) :: Lookup(chip.cells[STORAGE], slots, Hash(murmur(key), dbj2(key)))
    }

    /** Keys whose hash pair is a pair of 32-bit words and does not read as a free slot. */
    predicate KeyOk(key: string) {
      StorableHash(Hash(murmur(key), dbj2(key)))
    }

    /** flash_kvstore_write */
    method Write(key: string, value: Option<seq<byte>>, size: nat) returns (rc: Rc, at: nat)
      requires Valid() && KeyOk(key) && (value.Some? ==> |value.value| == size)
      modifies this`used, chip
      ensures old(Healthy()) ==>
                && Banks() && Healthy() && chip.rewritten == old(chip.rewritten)
                && rc in {OK, NOSPC, NOTSUP}
                && (rc == OK ==>
                      KeySet(Lookup(chip.cells[STORAGE], slots, Hash(murmur(key), dbj2(key))), value, size))
                && (forall k: string :: KeyOk(k) && (rc != OK || murmur(k) != murmur(key) || dbj2(k) != dbj2(key)) ==>
                      Lookup(chip.cells[STORAGE], slots, Hash(murmur(k), dbj2(k))) ==
                      Lookup(old(chip.cells)[STORAGE], slots, Hash(murmur(k), dbj2(k))))
                && (rc == OK ==> at + size < DataSize(slots))
                && (rc == OK && at + Align(size) < DataSize(slots) ==> Valid())
                && (rc != OK ==> Valid())
                && (rc == NOSPC ==>
                      && hasScratch
                      && Crowded(old(chip.cells)[STORAGE], old(used), slots, if size > 16 then size else 16))
                && (rc == NOTSUP ==> !hasScratch && Full(old(chip.cells)[STORAGE], old(used), slots, size))
    {
      rc, at := DoWrite(Hash(murmur(key), dbj2(key)), value, size);
    }

    /** flash_kvstore_read: up to `size` bytes of the latest value. */
    method Read(key: string, size: nat) returns (rc: Rc, buf: seq<byte>)
      requires Valid() && KeyOk(key)
      modifies chip`badReads
      ensures old(Healthy()) ==>
                && Healthy()
                && var found := Lookup(chip.cells[STORAGE], slots, Hash(murmur(key), dbj2(key)));
                   && rc == (if found.None? then NOENT else OK)
                   && (rc == OK ==> buf == found.value[..if size < |found.value| then size else |found.value|])
    {
      hide Good, Unused, Lookup;
      ghost var m := chip.cells[STORAGE];
      buf := [];
      NotFound(m, slots, Hash(murmur(key), dbj2(key)));
      var e;
      rc, e := FindKey(STORAGE, Hash(murmur(key), dbj2(key)));
      if rc != OK {
        return NOENT, [];
      }
      FoundValue(m, slots, used, Hash(murmur(key), dbj2(key)), e);
      var len := if size < e.len then size else e.len;
      var ok;
      ok, buf := chip.Read(STORAGE, MetaSize(slots) + e.offset, len);
      rc := if ok then OK else IO;
      PrefixOf(m, MetaSize(slots) + e.offset, len, e.len);
    }

    /** flash_kvstore_erase: a tombstone for a key that is there. */
    method Clear(key: string) returns (rc: Rc, at: nat)
      requires Valid() && KeyOk(key)
      modifies this`used, chip
      ensures old(Healthy()) ==>
                && Banks() && Healthy() && chip.rewritten == old(chip.rewritten) && Valid()
                && rc in {OK, NOENT, NOSPC, NOTSUP}
                && (rc == NOENT <==> Lookup(old(chip.cells)[STORAGE], slots, Hash(murmur(key), dbj2(key))) == None)
                && (rc == OK ==> Lookup(chip.cells[STORAGE], slots, Hash(murmur(key), dbj2(key))) == None)
                && (forall k: string :: KeyOk(k) && (rc != OK || murmur(k) != murmur(key) || dbj2(k) != dbj2(key)) ==>
                      Lookup(chip.cells[STORAGE], slots, Hash(murmur(k), dbj2(k))) ==
                      Lookup(old(chip.cells)[STORAGE], slots, Hash(murmur(k), dbj2(k))))
                && (rc == NOSPC ==> hasScratch && Crowded(old(chip.cells)[STORAGE], old(used), slots, 16))
                && (rc == NOTSUP ==> !hasScratch && Full(old(chip.cells)[STORAGE], old(used), slots, 0))
    {
      ghost var m := chip.cells[STORAGE];
      at := 0;
      var e;
      rc, e := FindKey(STORAGE, Hash(murmur(key), dbj2(key)));
      if rc != OK {
        return NOENT, 0;
      }
      FoundValue(m, slots, used, Hash(murmur(key), dbj2(key)), e);
      rc, at := DoWrite(Hash(murmur(key), dbj2(key)), None, 0);
    }
  }

  // ------------------------------------------------- every flash operation of a compaction

  /** Some key holds a value. */
  ghost predicate HoldsSome(s: seq<byte>, slots: nat)
    requires IsBank(s, slots)
  {
    exists h :: h != FREE && Lookup(s, slots, h).Some?
  }

  /** With storage erased scratch has to hold the map, if it holds any value. */
  lemma OnlyThen(x: seq<Snapshot>, y: seq<Snapshot>, z: seq<Snapshot>, s: seq<byte>, t: seq<byte>, slots: nat)
    requires |x| <= |y| && Kept(y, z, SCRATCH, t) && slots > 0 && IsBank(s, slots) && IsBank(t, slots)
    requires WasBlank(y, z, STORAGE, slots)
    ensures AllHold(z, |x|, s, slots) && HoldsSome(s, slots) ==> SameMap(s, t, slots)
  {
    if AllHold(z, |x|, s, slots) && HoldsSome(s, slots) {
      var i :| |y| <= i < |z| && |z[i]| == 2 && IsBank(z[i][STORAGE], slots) && Erased(z[i][STORAGE]);
      var h :| h != FREE && Lookup(s, slots, h).Some?;
      ErasedLookup(z[i][STORAGE], slots);
      assert OneHolds(z[i], s, slots) && z[i][SCRATCH] == t;
      assert Lookup(z[i][STORAGE], slots, h) == None;
    }
  }

  /**
   * Whether one of the partitions held the map s at every flash operation of a reclaim whose first move is c: if the
   * second move is not begun, or scratch holds the map by then; and if storage is erased, and held any value, only
   * then. `first` says that the first erase took effect: if the move is sure, it then depends on what it missed.
   */
  ghost predicate Safe(s: seq<byte>, slots: nat, c: Leg, first: bool, moved: bool, erased: bool, trace: seq<Snapshot>,
                       since: nat)
    requires IsBank(s, slots) && IsBank(c.t, slots)
  {
    && (!moved || SameMap(s, c.t, slots) ==> AllHold(trace, since, s, slots))
    && (erased && HoldsSome(s, slots) ==> (AllHold(trace, since, s, slots) <==> SameMap(s, c.t, slots)))
    && (first && c.sure ==>
          && (NoneLost(s, slots, c.misses) ==> AllHold(trace, since, s, slots))
          && (erased && !NoneLost(s, slots, c.misses) ==> !AllHold(trace, since, s, slots)))
  }

  lemma SafeStill(x: seq<Snapshot>, y: seq<Snapshot>, s: seq<byte>, slots: nat, c: Leg, first: bool)
    requires IsBank(s, slots) && IsBank(c.t, slots) && Kept(x, y, STORAGE, s)
    ensures x <= y && AllHold(y, |x|, s, slots) && Safe(s, slots, c, first, false, false, y, |x|)
  {
    hide AllHold, Kept;
    FirstMoveHolds(x, y, s, slots);
  }

  lemma SafeMoved(x: seq<Snapshot>, y: seq<Snapshot>, z: seq<Snapshot>, s: seq<byte>, slots: nat, c: Leg,
                  first: bool, erased: bool)
    requires x <= y && slots > 0 && IsBank(s, slots) && IsBank(c.t, slots) && Kept(y, z, SCRATCH, c.t)
    requires AllHold(y, |x|, s, slots) && (erased ==> WasBlank(y, z, STORAGE, slots))
    requires first && c.sure ==> Carried(s, c.t, slots, c.misses)
    ensures y <= z && Safe(s, slots, c, first, true, erased, z, |x|)
    ensures SameMap(s, c.t, slots) ==> AllHold(z, |x|, s, slots)
  {
    hide AllHold, SameMap, Carried, WasBlank, Kept;
    SecondMoves(x, y, z, s, c.t, slots);
    if erased {
      OnlyThen(x, y, z, s, c.t, slots);
    }
    if first && c.sure {
      CarriedSame(s, c.t, slots, c.misses);
    }
  }

  ghost predicate ErasesFirst(plan: seq<Outcome>) {
    plan == [] || plan[0] == Ok
  }

  lemma SameMapSelf(s: seq<byte>, slots: nat)
    requires IsBank(s, slots)
    ensures SameMap(s, s, slots)
  {
  }

  lemma FullIs(s: seq<byte>, n: nat, slots: nat, size: nat)
    requires Good(s, slots, n)
    ensures Full(s, n, slots, size) <==> n == slots || End(LogOf(s, slots), n) + size >= DataSize(slots)
  {
  }

  lemma MoreCrowded(s: seq<byte>, n: nat, slots: nat, size: nat)
    requires Good(s, slots, n)
    ensures Crowded(s, n, slots, 16) ==> Crowded(s, n, slots, if size > 16 then size else 16)
  {
  }

  /** A compaction without room: the live data leave none. */
  lemma FullIsCrowded(s: seq<byte>, n: nat, t: seq<byte>, m: nat, slots: nat, size: nat)
    requires Compacted(s, n, t, m, slots)
    ensures m == slots || End(LogOf(t, slots), m) + size >= DataSize(slots) ==>
              Crowded(s, n, slots, if size > 16 then size else 16)
  {
  }

  /** One of the two partitions of a device state holds the map of s. */
  ghost predicate OneHolds(state: Snapshot, s: seq<byte>, slots: nat) {
    && IsBank(s, slots) && |state| == 2
    && (|| (IsBank(state[0], slots) && SameMap(s, state[0], slots))
        || (IsBank(state[1], slots) && SameMap(s, state[1], slots)))
  }

  ghost predicate AllHold(trace: seq<Snapshot>, since: nat, s: seq<byte>, slots: nat) {
    forall i :: since <= i < |trace| ==> OneHolds(trace[i], s, slots)
  }

  lemma FirstMoveHolds(x: seq<Snapshot>, y: seq<Snapshot>, s: seq<byte>, slots: nat)
    requires Kept(x, y, STORAGE, s) && IsBank(s, slots)
    ensures x <= y && AllHold(y, |x|, s, slots)
  {
  }

  /** Some state in between has an erased bank b. */
  ghost predicate WasBlank(earlier: seq<Snapshot>, later: seq<Snapshot>, b: nat, slots: nat) {
    exists i :: |earlier| <= i < |later| && |later[i]| == 2 && b < 2 && IsBank(later[i][b], slots)
      && Erased(later[i][b])
  }

  lemma SecondMoves(x: seq<Snapshot>, y: seq<Snapshot>, z: seq<Snapshot>, s: seq<byte>, t: seq<byte>, slots: nat)
    requires AllHold(y, |x|, s, slots) && Kept(y, z, SCRATCH, t) && |x| <= |y|
    requires IsBank(s, slots) && IsBank(t, slots)
    ensures y <= z && (SameMap(s, t, slots) ==> AllHold(z, |x|, s, slots))
  {
    if SameMap(s, t, slots) {
      forall i | |x| <= i < |z| ensures OneHolds(z[i], s, slots) {
        if i < |y| {
          assert z[i] == y[i];
        }
      }
    }
  }

  lemma ErasedLookup(m: seq<byte>, slots: nat)
    requires IsBank(m, slots) && slots > 0 && Erased(m)
    ensures Spare(m, slots, 0)
    ensures forall h :: h != FREE ==> Lookup(m, slots, h) == None
  {
    ErasedIsFree(m, slots);
    var log := LogOf(m, slots);
    assert forall j :: 0 <= j < |log| ==> log[j].hash == FREE;
  }

  predicate StorableHash(h: Hash) {
    h.murmur < WORD && h.dbj2 < WORD && h != FREE
  }

  /** No slot, or no room for `size` bytes, at the end of the log. */
  ghost predicate Full(m: seq<byte>, n: nat, slots: nat, size: nat)
    requires Good(m, slots, n)
  {
    n == slots || End(LogOf(m, slots), n) + size >= DataSize(slots)
  }

  /** The bytes write_value programs. */
  function DataOf(value: Option<seq<byte>>, e: Entry): seq<byte> {
    if value.Some? && e.len > 0 then value.value else []
  }

  /** What a key holds after a write of `size` bytes; without a value, `size` bytes of
      whatever the unprogrammed lines held. */
  ghost predicate KeySet(now: Option<seq<byte>>, value: Option<seq<byte>>, size: nat) {
    if size == 0 then now == None
    else now.Some? && |now.value| == size && (value.Some? ==> now == value)
  }

  /** b is a with one key set. */
  ghost predicate Wrote(a: seq<byte>, b: seq<byte>, slots: nat, h: Hash, value: Option<seq<byte>>, size: nat)
    requires IsBank(a, slots) && IsBank(b, slots)
  {
    && KeySet(Lookup(b, slots, h), value, size)
    && forall k :: k != FREE && k != h ==> Lookup(b, slots, k) == Lookup(a, slots, k)
  }

  lemma AppendWrites(s: seq<byte>, m: seq<byte>, slots: nat, n: nat, e: Entry, value: Option<seq<byte>>)
    requires Good(m, slots, n) && n < slots && IsBank(s, slots) && SameMap(s, m, slots)
    requires Storable(e) && e.hash != FREE && e.offset == End(LogOf(m, slots), n) && e.offset + e.len < DataSize(slots)
    requires value.Some? ==> |value.value| == e.len
    ensures e.offset + |DataOf(value, e)| <= DataSize(slots)
    ensures IsBank(Append(m, slots, n, e, DataOf(value, e)), slots)
    ensures Wrote(s, Append(m, slots, n, e, DataOf(value, e)), slots, e.hash, value, e.len)
  {
    var d := DataOf(value, e);
    AppendLookup(m, slots, n, e, d, e.hash);
    assert value.Some? && e.len > 0 ==> d[..e.len] == value.value;
    var m' := Append(m, slots, n, e, d);
    forall k | k != FREE && k != e.hash ensures Lookup(m', slots, k) == Lookup(s, slots, k) {
      AppendLookup(m, slots, n, e, d, k);
      assert Lookup(s, slots, k) == Lookup(m, slots, k);
    }
  }

  lemma NothingWritten(m: seq<byte>, p: Marks, at: nat)
    ensures at <= |m| ==> Splice(m, at, []) == m
    ensures Within(p, p, at, at)
  {
  }

  lemma PutKeeps(m: seq<byte>, p: Marks, p1: Marks, p2: Marks, slots: nat, n: nat, e: Entry, value: Option<seq<byte>>,
                 n': nat)
    requires Good(m, slots, n) && Unused(p, m, slots, n) && n < slots && Storable(e) && n' == n + 1
    requires e.hash != FREE && e.offset == End(LogOf(m, slots), n) && EndOf(e) < DataSize(slots)
    requires value.Some? ==> |value.value| == e.len
    requires Within(p, p1, 16 * n, 16 * n + 16)
    requires Within(p1, p2, MetaSize(slots) + e.offset, MetaSize(slots) + e.offset + |DataOf(value, e)|)
    ensures e.offset + |DataOf(value, e)| <= DataSize(slots)
    ensures var m' := Append(m, slots, n, e, DataOf(value, e)); Good(m', slots, n') && Unused(p2, m', slots, n')
  {
    AppendGood(m, slots, n, e, DataOf(value, e), n');
    UnusedAppend(p, p1, p2, m, slots, n, e, DataOf(value, e), n');
  }

  lemma EndOfAligned(m: seq<byte>, slots: nat, n: nat, e: Entry)
    requires Good(m, slots, n) && e.offset == End(LogOf(m, slots), n)
    ensures EndOf(e) == e.offset + Align(e.len)
  {
    EndAligned(LogOf(m, slots), n);
    AlignSum(e.offset, e.len);
  }

  /** What find_key finds is the value the map holds. */
  lemma FoundValue(m: seq<byte>, slots: nat, n: nat, h: Hash, e: Entry)
    requires Good(m, slots, n) && h != FREE && Last(LogOf(m, slots), h) >= 0
    requires e == LogOf(m, slots)[Last(LogOf(m, slots), h)] && e.len > 0
    ensures MetaSize(slots) + e.offset + e.len <= |m|
    ensures Lookup(m, slots, h) == Some(m[MetaSize(slots) + e.offset..MetaSize(slots) + e.offset + e.len])
  {
    var log := LogOf(m, slots);
    LastOfUsed(log, n, DataSize(slots), Last(log, h));
    GoodInBank(m, slots, n, Last(log, h));
  }

  lemma NotFound(m: seq<byte>, slots: nat, h: Hash)
    requires IsBank(m, slots)
    ensures var j := Last(LogOf(m, slots), h); j < 0 || LogOf(m, slots)[j].len == 0 ==> Lookup(m, slots, h) == None
  {
  }

  lemma PrefixOf(m: seq<byte>, at: nat, a: nat, b: nat)
    requires a <= b && at + b <= |m|
    ensures m[at..at + a] == m[at..at + b][..a]
  {
  }

  lemma ScanBegins(log: Log, area: nat)
    ensures FirstFree(log, 0) == 0 && ScanEnd(log, 0, area) == 0
  {
  }

  /** What an erase makes of a partition, by the plan. */
  ghost function AfterErase(m: seq<byte>, plan: seq<Outcome>): (r: seq<byte>)
    ensures |r| == |m|
  {
    Blanked(m, Done(plan, |m|))
  }

  lemma AfterEraseIs(m: seq<byte>, plan: seq<Outcome>)
    ensures exists n: nat :: n <= |m| && AfterErase(m, plan) == Blanked(m, n)
  {
    assert AfterErase(m, plan) == Blanked(m, Done(plan, |m|));
  }

  lemma NoPlan()
    ensures ErasesFirst([])
  {
  }

  lemma RoomAfterOk(c: Leg, slots: nat)
    requires IsBank(c.t, slots)
    ensures RoomLeft(c, slots) ==> c.ok
  {
  }

  /** The bytes CopyEntry leaves in the target are those of an append. */
  lemma CopyTaken(f: seq<byte>, t: seq<byte>, slots: nat, m: nat, e: Entry, copy: Entry, t1: seq<byte>, t2: seq<byte>)
    requires IsBank(f, slots) && IsBank(t, slots) && m < slots && Storable(copy)
    requires copy.offset + Align(e.len) <= DataSize(slots)
    requires t1 == Splice(t, 16 * m, Encode(copy))
    requires if e.len == 0 then t2 == t1
             else CopyDone(f, t1, MetaSize(slots) + e.offset, MetaSize(slots) + copy.offset, Align(e.len), t2)
    ensures Lies(slots, e) && t2 == Append(t, slots, m, copy, Taken(f, slots, e))
  {
    if e.len == 0 {
      assert Splice(t1, MetaSize(slots) + copy.offset, []) == t1;
    }
  }

  lemma RoomAfter(p: Marks, p1: Marks, p2: Marks, slots: nat, slot: nat, offset: nat, lines: nat, slot': nat)
    requires slot < slots && slot' == slot + 1 && Within(p, p1, 16 * slot, 16 * slot + 16)
    requires Within(p1, p2, MetaSize(slots) + offset, MetaSize(slots) + offset + lines)
    ensures Room(p, slots, slot, offset) ==> Room(p2, slots, slot', offset + lines)
  {
  }

  /** After an append that alloc_entry does not overlook it goes on behind it. */
  lemma OpenAfter(p: Marks, t: seq<byte>, slots: nat, e: Entry, d: seq<byte>, slot: nat)
    requires IsBank(t, slots) && AllocSlot(t, slots) < slots && slot == AllocSlot(t, slots) + 1
    requires Storable(e) && e.hash != FREE && e.offset + |d| <= DataSize(slots) && |d| == Align(e.len)
    requires e.offset == AllocAt(t, slots) && EndOf(e) == e.offset + Align(e.len)
    ensures IsBank(Append(t, slots, AllocSlot(t, slots), e, d), slots)
    ensures |p| == |t| && Room(p, slots, slot, e.offset + Align(e.len)) && EndOf(e) < DataSize(slots) ==>
              Open(p, Append(t, slots, AllocSlot(t, slots), e, d), slots)
  {
    var k := AllocSlot(t, slots);
    var log := LogOf(t, slots);
    AppendLog(t, slots, k, e, d);
    if EndOf(e) < DataSize(slots) {
      ScanBeyond(log[k := e], slots, DataSize(slots), k);
    }
    FirstFreeIs(log, slots);
    FirstFreeIs(log[k := e], slots);
    assert forall i :: 0 <= i < k ==> log[k := e][i] == log[i];
  }

  /**
   * A turn, or a move, ends as the leg b says, with u in the target, p programmed there and `bad` the reads ahead.
   * `calm` says that no erase or write was to fail, `open` that nothing was programmed from where alloc_entry went
   * on, and `intact` that nothing has been programmed twice since.
   */
  ghost predicate Ends(b: Leg, slots: nat, rc: Rc, u: seq<byte>, bad: seq<bool>, p: Marks, calm: bool, open: bool,
                       intact: bool)
    requires IsBank(b.t, slots)
  {
    && (rc == OK ==> b.ok && u == b.t && bad == b.bad)
    && (calm && b.ok ==> rc == OK)
    && (open && b.sure ==> intact && (rc == OK ==> Open(p, b.t, slots)))
  }

  lemma EndsMeans(b: Leg, slots: nat, rc: Rc, u: seq<byte>, bad: seq<bool>, p: Marks, calm: bool, open: bool,
                  intact: bool)
    requires IsBank(b.t, slots) && Ends(b, slots, rc, u, bad, p, calm, open, intact)
    ensures rc == OK ==> b.ok && u == b.t && bad == b.bad
  {
  }

  lemma EndsAtFirst(f: seq<byte>, t: seq<byte>, slots: nat, bad: seq<bool>, p: Marks, calm: bool)
    requires IsBank(f, slots) && IsBank(t, slots)
    ensures Ends(Course(f, t, slots, bad, 0), slots, OK, t, bad, p, calm, Open(p, t, slots), true)
  {
  }

  lemma EndsStep(f: seq<byte>, t: seq<byte>, slots: nat, bad: seq<bool>, k: nat, k': nat,
                 u: seq<byte>, left: seq<bool>, p: Marks, calm: bool, open: bool, intact: bool,
                 rc: Rc, u': seq<byte>, left': seq<bool>, p': Marks, calm': bool, same: bool, intact': bool)
    requires IsBank(f, slots) && IsBank(t, slots) && k < slots && k' == k + 1 && IsBank(u, slots)
    requires Ends(Course(f, t, slots, bad, k), slots, OK, u, left, p, calm, open, intact)
    requires Ends(Step(f, slots, k, Course(f, t, slots, bad, k)), slots, rc, u', left', p', calm', Open(p, u, slots),
                  same)
    requires (calm ==> calm') && (intact && same ==> intact')
    ensures rc == OK ==> Ends(Course(f, t, slots, bad, k'), slots, OK, u', left', p', calm, open, intact')
    ensures rc != OK ==> Ends(Course(f, t, slots, bad, slots), slots, rc, u', left', p', calm, open, intact')
  {
    hide Step, Course, Open, IsBank;
    CourseOn(f, t, slots, bad, k, k');
  }

  /** One turn more. */
  lemma CourseOn(f: seq<byte>, t: seq<byte>, slots: nat, bad: seq<bool>, k: nat, k': nat)
    requires IsBank(f, slots) && IsBank(t, slots) && k < slots && k' == k + 1 && Course(f, t, slots, bad, k).ok
    ensures var a, b, c := Course(f, t, slots, bad, k), Course(f, t, slots, bad, k'), Course(f, t, slots, bad, slots);
            && b == Step(f, slots, k, a) && (!b.ok ==> !c.ok) && (b.sure ==> a.sure) && (c.sure ==> b.sure)
  {
    hide Step;
    SureBefore(f, slots, k, Course(f, t, slots, bad, k));
    SureSoFar(f, t, slots, bad, k', slots);
    if !Course(f, t, slots, bad, k').ok {
      CourseStops(f, t, slots, bad, k', slots);
    }
  }

  lemma {:induction false} SureSoFar(f: seq<byte>, t: seq<byte>, slots: nat, bad: seq<bool>, k: nat, m: nat)
    requires IsBank(f, slots) && IsBank(t, slots) && k <= m <= slots
    ensures Course(f, t, slots, bad, m).sure ==> Course(f, t, slots, bad, k).sure
  {
    hide Step;
    if k < m {
      SureSoFar(f, t, slots, bad, k, m - 1);
      SureBefore(f, slots, m - 1, Course(f, t, slots, bad, m - 1));
    }
  }

  /** t' is t with n bytes of f copied in. */
  ghost predicate CopyDone(f: seq<byte>, t: seq<byte>, fromAt: nat, toAt: nat, n: nat, t': seq<byte>) {
    && fromAt + n <= |f| && toAt + n <= |t|
    && t' == Splice(t, toAt, f[fromAt..fromAt + n])
  }

  lemma CopyStep(f: seq<byte>, t: seq<byte>, fromAt: nat, toAt: nat, i: nat, t1: seq<byte>, t2: seq<byte>)
    requires if i == 0 then t1 == t else CopyDone(f, t, fromAt, toAt, i, t1)
    requires CopyDone(f, t1, fromAt + i, toAt + i, 16, t2)
    ensures CopyDone(f, t, fromAt, toAt, i + 16, t2)
  {
  }

  lemma BlankPart(p: Marks, at: nat, lines: nat, i: nat)
    requires i + 16 <= lines
    ensures Blank(p, at, at + lines) ==> Blank(p, at + i, at + i + 16)
  {
  }

  lemma LineFits(i: nat, len: nat)
    requires i % 16 == 0 && i < len
    ensures i + 16 <= Align(len)
  {
    AlignWhole(len);
  }

  lemma LastLine(i: nat, len: nat)
    requires i % 16 == 0 && len <= i <= Align(len)
    ensures i == Align(len)
  {
    AlignWhole(len);
  }

  /** Bank b and its marks are as before, in every state in between as well. */
  ghost predicate Untouched(b: nat, c: Snapshot, c': Snapshot, p: seq<Marks>, p': seq<Marks>, t: seq<Snapshot>,
                            t': seq<Snapshot>) {
    && |c| == 2 && |c'| == 2 && |p| == 2 && |p'| == 2 && b < 2
    && c'[b] == c[b] && p'[b] == p[b] && Kept(t, t', b, c[b])
  }

  lemma UntouchedSame(b: nat, c: Snapshot, p: seq<Marks>, t: seq<Snapshot>)
    requires |c| == 2 && |p| == 2 && b < 2
    ensures Untouched(b, c, c, p, p, t, t)
  {
  }

  lemma UntouchedMeans(b: nat, c: Snapshot, c': Snapshot, p: seq<Marks>, p': seq<Marks>, t: seq<Snapshot>,
                       t': seq<Snapshot>)
    requires Untouched(b, c, c', p, p', t, t')
    ensures |c| == 2 && |c'| == 2 && b < 2 && c'[b] == c[b] && Kept(t, t', b, c[b])
    ensures |p| == 2 && |p'| == 2 && p'[b] == p[b]
  {
  }

  lemma UntouchedOn(b: nat, c: Snapshot, c1: Snapshot, c2: Snapshot, p: seq<Marks>, p1: seq<Marks>, p2: seq<Marks>,
                    t: seq<Snapshot>, t1: seq<Snapshot>, t2: seq<Snapshot>)
    requires Untouched(b, c, c1, p, p1, t, t1) && Untouched(b, c1, c2, p1, p2, t1, t2)
    ensures Untouched(b, c, c2, p, p2, t, t2) && |c2| == 2 && |c1| == 2 && b < 2 && c2[b] == c1[b]
  {
    KeptTransitive(t, t1, t2, b, c[b]);
  }

  lemma WithinOn(p: Marks, q: Marks, r: Marks, start: nat, i: nat)
    requires Within(p, q, start, start + i) && Within(q, r, start + i, start + i + 16)
    ensures Within(p, r, start, start + (i + 16))
  {
  }

  lemma BlankStill(p: Marks, q: Marks, start: nat, i: nat)
    requires Within(p, q, start, start + i)
    ensures Blank(p, start + i, start + i + 16) ==> Blank(q, start + i, start + i + 16)
  {
  }

  lemma WithinMore(p: Marks, q: Marks, at: nat, a: nat, b: nat)
    requires Within(p, q, at, at + a) && a <= b
    ensures Within(p, q, at, at + b)
  {
  }

  // ------------------------------------------------------------- whole runs

  /** Two keys are one to the store if they have both hashes in common. */
  datatype Hashes = Hashes(murmur: string -> nat, dbj2: string -> nat) {
    ghost predicate Same(k: string, l: string) {
      murmur(k) == murmur(l) && dbj2(k) == dbj2(l)
    }
  }

  datatype Op = Put(key: string, value: seq<byte>) | Del(key: string) | Ask(key: string, size: nat)

  ghost function Result(op: Op): Option<seq<byte>> {
    if op.Put? && op.value != [] then Some(op.value) else None
  }

  /** What a plain map holds for key k after the operation, given how it went. */
  ghost function MapStep(v: Option<seq<byte>>, k: string, op: Op, rc: Rc, hashes: Hashes): Option<seq<byte>> {
    if rc == OK && !op.Ask? && hashes.Same(op.key, k) then Result(op) else v
  }

  /** What it holds after those of the operations that succeeded. */
  ghost function MapAfter(v: Option<seq<byte>>, k: string, ops: seq<Op>, rcs: seq<Rc>,
                          hashes: Hashes): Option<seq<byte>>
    requires |rcs| <= |ops|
    decreases |rcs|
  {
    if rcs == [] then v
    else
      var i := |rcs| - 1;
      MapStep(MapAfter(v, k, ops, rcs[..i], hashes), k, ops[i], rcs[i], hashes)
  }

  /** A read of up to `size` bytes gave what the map holds. */
  ghost predicate Answered(v: Option<seq<byte>>, size: nat, rc: Rc, buf: seq<byte>) {
    if v.None? then rc == NOENT else rc == OK && buf == v.value[..if size < |v.value| then size else |v.value|]
  }

  /** alloc_entry will overlook a value written there: its aligned end is the end of the area. */
  predicate Overlooked(op: Op, rc: Rc, at: nat, slots: nat) {
    rc == OK && op.Put? && at + |op.value| < DataSize(slots) <= at + Align(|op.value|)
  }

  type Map = imap<string, Option<seq<byte>>>

  /** `now` is what a plain map that began as `before` has become. */
  ghost predicate Follows(before: Map, now: Map, ops: seq<Op>, rcs: seq<Rc>, hashes: Hashes) {
    && |rcs| <= |ops| && before.Keys == now.Keys
    && forall k :: k in now ==> now[k] == MapAfter(before[k], k, ops, rcs, hashes)
  }

  /** Every read returned what the plain map held at that time. */
  ghost predicate AllAnswered(before: Map, ops: seq<Op>, rcs: seq<Rc>, bufs: seq<seq<byte>>, hashes: Hashes) {
    && |rcs| == |bufs| <= |ops|
    && forall i :: 0 <= i < |rcs| && ops[i].Ask? ==>
         && ops[i].key in before
         && Answered(MapAfter(before[ops[i].key], ops[i].key, ops, rcs[..i], hashes), ops[i].size, rcs[i],
                     bufs[i])
  }

  /** One operation on a map. */
  ghost predicate Stepped(now: Map, next: Map, op: Op, rc: Rc, buf: seq<byte>, hashes: Hashes) {
    && next.Keys == now.Keys && op.key in now
    && (forall k :: k in now ==> next[k] == MapStep(now[k], k, op, rc, hashes))
    && (op.Ask? ==> Answered(now[op.key], op.size, rc, buf))
  }

  /** The store has behaved as the plain map so far. */
  ghost predicate Refines(before: Map, now: Map, ops: seq<Op>, rcs: seq<Rc>, bufs: seq<seq<byte>>,
                          hashes: Hashes) {
    Follows(before, now, ops, rcs, hashes) && AllAnswered(before, ops, rcs, bufs, hashes)
  }

  lemma RefinesAtFirst(before: Map, ops: seq<Op>, hashes: Hashes)
    ensures Refines(before, before, ops, [], [], hashes)
  {
  }

  lemma StepRefines(before: Map, now: Map, next: Map, ops: seq<Op>, rcs: seq<Rc>, bufs: seq<seq<byte>>,
                    rc: Rc, buf: seq<byte>, hashes: Hashes)
    requires Refines(before, now, ops, rcs, bufs, hashes)
    requires |rcs| < |ops| && Stepped(now, next, ops[|rcs|], rc, buf, hashes)
    ensures Refines(before, next, ops, rcs + [rc], bufs + [buf], hashes)
  {
    PrefixesKept(rcs, rc);
  }

  lemma PrefixesKept(done: seq<Rc>, rc: Rc)
    ensures (done + [rc])[..|done|] == done && forall i :: 0 <= i < |done| ==> (done + [rc])[..i] == done[..i]
  {
  }

  lemma ValidBanks(store: Store)
    requires store.Valid()
    ensures store.Banks()
  {
  }

  method Apply(store: Store, op: Op) returns (rc: Rc, buf: seq<byte>, at: nat)
    requires store.Valid() && store.Healthy() && store.KeyOk(op.key)
    modifies store, store.chip
    ensures store.Banks() && store.Healthy() && store.chip.rewritten == old(store.chip.rewritten)
    ensures !Overlooked(op, rc, at, store.slots) ==> store.Valid()
    ensures Stepped(old(store.View()), store.View(), op, rc, buf, Hashes(store.murmur, store.dbj2))
  {
    buf, at := [], 0;
    match op {
      case Put(key, value) =>
        rc, at := store.Write(key, Some(value), |value|);
      case Del(key) =>
        rc, at := store.Clear(key);
      case Ask(key, size) =>
        rc, buf := store.Read(key, size);
    }
  }

  /**
   * Over every run of writes, reads and erases without flash errors, each key holds what a plain map
   * holds, reads return it, a failed operation changes nothing, and no byte is programmed twice between
   * erases: up to and with the first write whose aligned end reaches the end of the data area, where the
   * run stops.
   */
  method RunAll(store: Store, ops: seq<Op>) returns (rcs: seq<Rc>, bufs: seq<seq<byte>>, intact: bool, at: nat)
    requires store.Valid() && store.Healthy()
    requires forall i :: 0 <= i < |ops| ==> store.KeyOk(ops[i].key)
    modifies store, store.chip
    ensures store.Banks() && store.Healthy() && store.chip.rewritten == old(store.chip.rewritten)
    ensures |rcs| <= |ops| && (intact ==> store.Valid() && |rcs| == |ops|)
    ensures !intact ==> rcs != [] && Overlooked(ops[|rcs| - 1], rcs[|rcs| - 1], at, store.slots)
    ensures Refines(old(store.View()), store.View(), ops, rcs, bufs, Hashes(store.murmur, store.dbj2))
  {
    hide *;
    ValidBanks(store);
    rcs, bufs, intact, at := [], [], true, 0;
    ghost var before := store.View();
    RefinesAtFirst(before, ops, Hashes(store.murmur, store.dbj2));
    while |rcs| < |ops| && intact
      invariant store.Banks() && store.Healthy() && store.chip.rewritten == old(store.chip.rewritten)
      invariant |rcs| <= |ops| && (intact ==> store.Valid())
      invariant !intact ==> rcs != [] && Overlooked(ops[|rcs| - 1], rcs[|rcs| - 1], at, store.slots)
      invariant Refines(before, store.View(), ops, rcs, bufs, Hashes(store.murmur, store.dbj2))
      decreases |ops| - |rcs|, intact
    {
      ghost var now := store.View();
      var rc, buf;
      rc, buf, at := Apply(store, ops[|rcs|]);
      StepRefines(before, now, store.View(), ops, rcs, bufs, rc, buf, Hashes(store.murmur, store.dbj2));
      intact := !Overlooked(ops[|rcs|], rc, at, store.slots);
      rcs, bufs := rcs + [rc], bufs + [buf];
    }
  }

  /** Writes of whole lines are never overlooked. */
  lemma WholeLinesFit(op: Op, rc: Rc, at: nat, slots: nat)
    requires op.Put? && |op.value| % 16 == 0
    ensures !Overlooked(op, rc, at, slots)
  {
    AlignedValue(|op.value|);
  }

  lemma AlignedValue(x: nat)
    requires x % 16 == 0
    ensures Align(x) == x
  {
    AlignSum(x, 0);
  }
}
