/** The append-only metadata log of ports/kvstore/flash_kvstore.c, as a sequence of
    entries: look-up of the latest entry, allocation, and compaction arithmetic. */
module KvLog {

  const ONES := 0xffff_ffff

  /** The two hashes a key is stored under. */
  datatype Hash = Hash(murmur: nat, dbj2: nat)

  /** struct meta_entry */
  datatype Entry = Entry(hash: Hash, offset: nat, len: nat)

  const FREE := Hash(ONES, ONES)

  type Log = seq<Entry>

  /** ALIGN(x, FLASH_LINE_ALIGN_BYTES): x rounded up to whole lines of 16 bytes. */
  function Align(x: nat): (r: nat)
    ensures x <= r < x + 16
  {
    if x == 0 then 0 else if x <= 16 then 16 else 16 + Align(x - 16)
  }

  lemma {:induction false} AlignWhole(x: nat)
    ensures Align(x) % 16 == 0
  {
    if x > 16 {
      AlignWhole(x - 16);
    }
  }

  lemma {:induction false} AlignSum(a: nat, b: nat)
    requires a % 16 == 0
    ensures Align(a + b) == a + Align(b)
  {
    if a > 0 {
      AlignSum(a - 16, b);
    }
  }

  /** The macro's own arithmetic. */
  lemma {:induction false} AlignIsDivision(x: nat)
    ensures Align(x) == (x + 15) / 16 * 16
  {
    if x > 16 {
      AlignIsDivision(x - 16);
    }
  }

  /** Index of the last of the first n entries with hash h, or -1. */
  function LastIn(log: Log, h: Hash, n: nat): (k: int)
    requires n <= |log|
    ensures -1 <= k < n
    ensures k >= 0 ==> log[k].hash == h
    ensures forall j :: k < j < n ==> log[j].hash != h
  {
    if n == 0 then -1 else if log[n - 1].hash == h then n - 1 else LastIn(log, h, n - 1)
  }

  function Last(log: Log, h: Hash): int {
    LastIn(log, h, |log|)
  }

  /** The first line after an entry's value. */
  function EndOf(e: Entry): nat {
    Align(e.offset + e.len)
  }

  /** The next line after the value of entry n - 1. */
  function End(log: Log, n: nat): nat
    requires n <= |log|
  {
    if n == 0 then 0 else EndOf(log[n - 1])
  }

  ghost predicate Chained(log: Log, n: nat)
    requires n <= |log|
  {
    forall k {:trigger End(log, k)} :: 0 <= k < n ==> log[k].offset == End(log, k)
  }

  /** n entries in use, their values laid out one after the other on whole lines, and
      room left in a data area of `size` bytes. */
  ghost predicate Packed(log: Log, n: nat, size: nat) {
    && n <= |log|
    && (forall k :: 0 <= k < n ==> log[k].hash != FREE)
    && Chained(log, n)
    && (forall k :: n <= k < |log| ==> log[k].hash == FREE)
    && End(log, n) < size
  }

  lemma {:induction false} EndMonotone(log: Log, a: nat, b: nat)
    requires a <= b <= |log| && Chained(log, b)
    ensures End(log, a) <= End(log, b)
  {
    if a < b {
      EndMonotone(log, a, b - 1);
    }
  }

  lemma InArea(log: Log, n: nat, size: nat, k: nat)
    requires Packed(log, n, size) && k < n
    ensures log[k].offset % 16 == 0
    ensures EndOf(log[k]) <= End(log, n) < size
  {
    EndMonotone(log, k + 1, n);
    assert log[k].offset == End(log, k);
    EndAligned(log, k);
  }

  lemma EndAligned(log: Log, n: nat)
    requires n <= |log|
    ensures End(log, n) % 16 == 0
  {
    if n > 0 {
      AlignWhole(log[n - 1].offset + log[n - 1].len);
    }
  }

  /** The values of a packed log do not overlap: each one ends, on a line, before the
      next begins. */
  lemma Disjoint(log: Log, n: nat, size: nat, i: nat, j: nat)
    requires Packed(log, n, size) && i < j < n
    ensures log[i].offset % 16 == 0 && log[j].offset % 16 == 0
    ensures log[i].offset + log[i].len <= EndOf(log[i]) <= log[j].offset
    ensures EndOf(log[j]) < size
  {
    EndMonotone(log, i + 1, j);
    InArea(log, n, size, i);
    InArea(log, n, size, j);
  }

  // -------------------------------------------------------------- allocation

  /** How one entry moves new_data_offset of alloc_entry. */
  function NextOffset(best: nat, e: Entry, size: nat): nat {
    if e.hash != FREE && EndOf(e) > best && EndOf(e) < size then EndOf(e) else best
  }

  /** new_data_offset of alloc_entry after n slots. */
  function ScanEnd(log: Log, n: nat, size: nat): nat
    requires n <= |log|
  {
    if n == 0 then 0 else NextOffset(ScanEnd(log, n - 1, size), log[n - 1], size)
  }

  /** How slot k moves the first free slot found by alloc_entry. */
  function NextSlot(first: nat, k: nat, e: Entry): nat {
    if first < k then first else if e.hash == FREE then k else k + 1
  }

  /** The first free slot among the first n, or n. */
  function FirstFree(log: Log, n: nat): (k: nat)
    requires n <= |log|
    ensures k <= n
  {
    if n == 0 then 0 else NextSlot(FirstFree(log, n - 1), n - 1, log[n - 1])
  }

  lemma {:induction false} FirstFreeIs(log: Log, n: nat)
    requires n <= |log|
    ensures var k := FirstFree(log, n);
            (k < n ==> log[k].hash == FREE) && forall j :: 0 <= j < k ==> log[j].hash != FREE
  {
    if n > 0 {
      FirstFreeIs(log, n - 1);
    }
  }

  /** One turn of alloc_entry's loop. */
  lemma ScanStep(log: Log, k: nat, size: nat, k': nat)
    requires k < |log| && k' == k + 1
    ensures FirstFree(log, k') == NextSlot(FirstFree(log, k), k, log[k])
    ensures ScanEnd(log, k', size) == NextOffset(ScanEnd(log, k, size), log[k], size)
  {
  }

  /** On a packed log, alloc_entry finds the end of the log. */
  lemma {:induction false} ScanFindsEnd(log: Log, n: nat, size: nat, m: nat)
    requires Packed(log, n, size) && m <= |log|
    ensures ScanEnd(log, m, size) == End(log, if m < n then m else n)
    decreases m
  {
    if m > 0 {
      ScanFindsEnd(log, n, size, m - 1);
      if m <= n {
        EndMonotone(log, m - 1, m);
        EndMonotone(log, m, n);
      }
    }
  }

  lemma FirstFreeIsEnd(log: Log, n: nat, size: nat)
    requires Packed(log, n, size)
    ensures FirstFree(log, |log|) == n
  {
    FirstFreeIs(log, |log|);
    assert forall j :: 0 <= j < n ==> log[j].hash != FREE;
    assert n < |log| ==> log[n].hash == FREE;
  }

  /** Appending keeps the log packed when the new value stops short of the area's last
      line. */
  lemma AppendKeeps(log: Log, n: nat, size: nat, e: Entry)
    requires Packed(log, n, size) && n < |log| && e.hash != FREE && e.offset == End(log, n)
    requires EndOf(e) < size
    ensures Packed(log[n := e], n + 1, size) && End(log[n := e], n + 1) == EndOf(e)
  {
    var log' := log[n := e];
    forall k | 0 <= k < n + 1 ensures log'[k].offset == End(log', k) {
      assert End(log', k) == End(log, k);
    }
  }

  /** alloc_entry overlooks an entry whose value reaches the area's last line (its end is
      not below data.size), and hands out that entry's own range again. For any append
      that alloc_entry accepts, the next offset it hands out lies beyond the new value
      exactly when the value's aligned end stays below the size of the area. */
  lemma OverlookedEnd(log: Log, n: nat, size: nat, e: Entry)
    requires Packed(log, n, size) && n < |log| && e.hash != FREE && size % 16 == 0
    requires e.offset == End(log, n) && e.len > 0 && e.offset + e.len < size
    ensures e.offset + e.len <= ScanEnd(log[n := e], |log|, size) <==> EndOf(e) < size
    ensures EndOf(e) == size ==> ScanEnd(log[n := e], |log|, size) == e.offset
  {
    var log' := log[n := e];
    AlignWhole(e.offset + e.len);
    if EndOf(e) < size {
      AppendKeeps(log, n, size, e);
      ScanFindsEnd(log', n + 1, size, |log|);
    } else {
      ScanFindsEnd(log, n, size, n);
      ScanSame(log, log', n, size);
      ScanFree(log', n + 1, |log|, size);
    }
  }

  lemma {:induction false} ScanSame(a: Log, b: Log, n: nat, size: nat)
    requires n <= |a| && n <= |b| && forall k :: 0 <= k < n ==> a[k] == b[k]
    ensures ScanEnd(a, n, size) == ScanEnd(b, n, size)
  {
    if n > 0 {
      ScanSame(a, b, n - 1, size);
    }
  }

  lemma {:induction false} ScanFree(log: Log, n: nat, m: nat, size: nat)
    requires n <= m <= |log| && forall k :: n <= k < m ==> log[k].hash == FREE
    ensures ScanEnd(log, m, size) == ScanEnd(log, n, size)
  {
    if n < m {
      ScanFree(log, n, m - 1, size);
    }
  }

  lemma LastAppend(log: Log, n: nat, size: nat, e: Entry, h: Hash)
    requires Packed(log, n, size) && n < |log| && e.hash != FREE && h != FREE
    ensures Last(log[n := e], h) == if h == e.hash then n else Last(log, h)
    ensures Last(log, h) < n
  {
    var log' := log[n := e];
    assert forall j :: 0 <= j < |log| && j != n ==> log'[j] == log[j];
    assert forall j :: n <= j < |log| ==> log[j].hash != h;
    assert log'[n].hash == e.hash;
  }

  // -------------------------------------------------------------- live bytes

  /** Whole lines taken by the entries of `chosen` among the first n. */
  function Lines(log: Log, chosen: set<nat>, n: nat): nat
    requires n <= |log|
  {
    if n == 0 then 0
    else Lines(log, chosen, n - 1) + if n - 1 in chosen then Align(log[n - 1].len) else 0
  }

  lemma {:induction false} LinesAdd(log: Log, chosen: set<nat>, j: nat, n: nat)
    requires n <= |log| && j !in chosen
    ensures Lines(log, chosen + {j}, n) == Lines(log, chosen, n) + if j < n then Align(log[j].len) else 0
  {
    if n > 0 {
      LinesAdd(log, chosen, j, n - 1);
    }
  }

  /** In a packed log no choice of entries takes more lines than the log. */
  lemma {:induction false} LinesWithin(log: Log, chosen: set<nat>, n: nat)
    requires n <= |log| && Chained(log, n)
    ensures Lines(log, chosen, n) <= End(log, n)
    ensures (forall k :: 0 <= k < n ==> k in chosen) ==> Lines(log, chosen, n) == End(log, n)
  {
    if n > 0 {
      LinesWithin(log, chosen, n - 1);
      assert log[n - 1].offset == End(log, n - 1);
      EndAligned(log, n - 1);
      AlignSum(log[n - 1].offset, log[n - 1].len);
    }
  }

  /** The entries that carry the current value of a key. */
  ghost function Live(log: Log, n: nat): set<nat>
    requires n <= |log|
  {
    set k: nat | k < n && log[k].len > 0 && Last(log, log[k].hash) == k
  }

  ghost function LiveBytes(log: Log, n: nat): nat
    requires n <= |log|
  {
    Lines(log, Live(log, n), n)
  }

  // ------------------------------------------------------------------- searches

  lemma LastOfUsed(log: Log, n: nat, size: nat, k: nat)
    requires Packed(log, n, size) && k < |log| && log[k].hash != FREE
    ensures k < n && k <= Last(log, log[k].hash) < n
  {
    var j := Last(log, log[k].hash);
    assert log[j].hash == log[k].hash;
  }

  /** The last of the first k entries with the hash of `was`, or else that. */
  ghost function Latest(log: Log, was: Entry, k: nat): Entry
    requires k <= |log|
  {
    if LastIn(log, was.hash, k) >= 0 then log[LastIn(log, was.hash, k)] else was
  }

  lemma LatestIs(log: Log, was: Entry, k: nat)
    requires k <= |log|
    ensures var j, e := LastIn(log, was.hash, k), Latest(log, was, k);
            && -1 <= j < k && (k == 0 ==> j < 0) && (if j >= 0 then e == log[j] else e == was)
            && e.hash == was.hash && (e == was || SeenIn(log, e, was.hash))
            && (k == |log| ==> j == Last(log, was.hash))
  {
  }

  lemma LatestStep(log: Log, was: Entry, k: nat, k': nat)
    requires k < |log| && k' == k + 1
    ensures Latest(log, was, k') == if log[k].hash == was.hash then log[k] else Latest(log, was, k)
    ensures LastIn(log, was.hash, k') >= 0 <==> log[k].hash == was.hash || LastIn(log, was.hash, k) >= 0
  {
  }

  /** e is one of the entries with hash h. */
  ghost predicate SeenIn(log: Log, e: Entry, h: Hash) {
    e.hash == h && e in log
  }

  lemma SeenIsThere(log: Log, e: Entry, h: Hash)
    ensures SeenIn(log, e, h) ==> Last(log, h) >= 0
  {
  }

  // the area that alloc_entry hands out

  /** alloc_entry hands out whole lines. */
  lemma {:induction false} ScanAligned(log: Log, n: nat, size: nat)
    requires n <= |log|
    ensures ScanEnd(log, n, size) % 16 == 0
  {
    if n > 0 {
      ScanAligned(log, n - 1, size);
      AlignWhole(log[n - 1].offset + log[n - 1].len);
    }
  }

  /** They lie beyond every value that it does not overlook. */
  lemma {:induction false} ScanBeyond(log: Log, n: nat, size: nat, k: nat)
    requires k < n <= |log| && log[k].hash != FREE && EndOf(log[k]) < size
    ensures EndOf(log[k]) <= ScanEnd(log, n, size)
  {
    if k < n - 1 {
      ScanBeyond(log, n - 1, size, k);
    }
  }

  /** What fits in an area of whole lines fits with its last line. */
  lemma LinesFit(at: nat, len: nat, size: nat)
    requires at % 16 == 0 && size % 16 == 0 && at + len < size
    ensures Align(at + len) == at + Align(len) <= size
  {
    hide Align;
    AlignSum(at, len);
    AlignWhole(at + len);
    var a, b := Align(at + len) / 16, size / 16;
    assert Align(at + len) == 16 * a && size == 16 * b;
  }
}
