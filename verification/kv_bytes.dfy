/** How a partition of ports/kvstore/flash_kvstore.c lies in flash: 16-byte metadata
    entries in the first sixteenth, values in the rest, and the map it stands for. */
module KvBytes {
  import opened Basics
  import opened KvLog

  // ------------------------------------------------------------- meta entries

  predicate Storable(e: Entry) {
    e.hash.murmur < WORD && e.hash.dbj2 < WORD && e.offset < WORD && e.len < WORD
  }

  function Encode(e: Entry): (s: seq<byte>)
    requires Storable(e)
    ensures |s| == 16
  {
    PutWord(e.hash.murmur) + PutWord(e.hash.dbj2) + PutWord(e.offset) + PutWord(e.len)
  }

  function Decode(s: seq<byte>): (e: Entry)
    requires |s| == 16
    ensures Storable(e)
  {
    Entry(Hash(GetWord(s[0..4]), GetWord(s[4..8])), GetWord(s[8..12]), GetWord(s[12..16]))
  }

  lemma EntryRoundTrip(e: Entry)
    requires Storable(e)
    ensures Decode(Encode(e)) == e
  {
    var s := Encode(e);
    assert s[0..4] == PutWord(e.hash.murmur) && s[4..8] == PutWord(e.hash.dbj2);
    assert s[8..12] == PutWord(e.offset) && s[12..16] == PutWord(e.len);
    WordRoundTrip(e.hash.murmur);
    WordRoundTrip(e.hash.dbj2);
    WordRoundTrip(e.offset);
    WordRoundTrip(e.len);
  }

  /** The four words of an entry, each with its low byte first. */
  lemma EntryLayout(e: Entry)
    requires Storable(e)
    ensures var s := Encode(e);
            && WordAt(s, 0) == e.hash.murmur && WordAt(s, 4) == e.hash.dbj2
            && WordAt(s, 8) == e.offset && WordAt(s, 12) == e.len
  {
    EntryRoundTrip(e);
  }

  function WordAt(s: seq<byte>, i: nat): nat
    requires i + 4 <= |s|
  {
    s[i] as nat + 256 * s[i + 1] as nat + 65536 * s[i + 2] as nat + 16777216 * s[i + 3] as nat
  }

  lemma WordIs(s: seq<byte>, m: seq<byte>, i: nat, j: nat)
    requires i + 4 <= |s| && j + 4 <= |m|
    requires s[i] == m[j] && s[i + 1] == m[j + 1] && s[i + 2] == m[j + 2] && s[i + 3] == m[j + 3]
    ensures GetWord(s[i..i + 4]) == WordAt(m, j)
  {
    assert s[i..i + 4] == [s[i], s[i + 1], s[i + 2], s[i + 3]];
  }

  // ---------------------------------------------------------------- partitions

  /** A partition of 256 bytes per metadata slot: meta.size is size >> 4. */
  ghost predicate IsBank(m: seq<byte>, slots: nat) {
    |m| == 256 * slots && |m| <= 0x8000_0000
  }

  function MetaSize(slots: nat): nat {
    16 * slots
  }

  function DataSize(slots: nat): nat {
    240 * slots
  }

  function EntryAt(m: seq<byte>, k: nat): Entry
    requires 16 * k + 16 <= |m|
  {
    Decode(m[16 * k..16 * k + 16])
  }

  ghost function LogOf(m: seq<byte>, slots: nat): (log: Log)
    requires IsBank(m, slots)
    ensures |log| == slots && forall k :: 0 <= k < slots ==> log[k] == EntryAt(m, k)
  {
    seq(slots, k requires 0 <= k < slots => EntryAt(m, k))
  }

  /** m with d written at `at`. */
  function Splice(m: seq<byte>, at: nat, d: seq<byte>): (r: seq<byte>)
    requires at + |d| <= |m|
    ensures |r| == |m|
    ensures forall i :: 0 <= i < |m| ==> r[i] == if at <= i < at + |d| then d[i - at] else m[i]
  {
    m[..at] + d + m[at + |d|..]
  }

  /** Writing a metadata entry changes that slot of the log and no value. */
  lemma LogAfterMeta(m: seq<byte>, slots: nat, k: nat, e: Entry)
    requires IsBank(m, slots) && k < slots && Storable(e)
    ensures 16 * k + 16 <= |m|
    ensures LogOf(Splice(m, 16 * k, Encode(e)), slots) == LogOf(m, slots)[k := e]
    ensures Splice(m, 16 * k, Encode(e))[MetaSize(slots)..] == m[MetaSize(slots)..]
  {
    var m' := Splice(m, 16 * k, Encode(e));
    EntryRoundTrip(e);
    forall j | 0 <= j < slots ensures EntryAt(m', j) == LogOf(m, slots)[k := e][j] {
      if j == k {
        assert m'[16 * j..16 * j + 16] == Encode(e);
      } else {
        assert m'[16 * j..16 * j + 16] == m[16 * j..16 * j + 16];
      }
    }
  }

  /** Writing into the data area leaves the log alone. */
  lemma LogAfterData(m: seq<byte>, slots: nat, at: nat, d: seq<byte>)
    requires IsBank(m, slots) && MetaSize(slots) <= at && at + |d| <= |m|
    ensures LogOf(Splice(m, at, d), slots) == LogOf(m, slots)
  {
    var m' := Splice(m, at, d);
    forall j | 0 <= j < slots ensures EntryAt(m', j) == EntryAt(m, j) {
      assert m'[16 * j..16 * j + 16] == m[16 * j..16 * j + 16];
    }
  }

  ghost predicate Erased(m: seq<byte>) {
    forall i :: 0 <= i < |m| ==> m[i] == 255
  }

  lemma ErasedIsFree(m: seq<byte>, slots: nat)
    requires IsBank(m, slots) && slots > 0 && Erased(m)
    ensures Packed(LogOf(m, slots), 0, DataSize(slots))
  {
    forall k | 0 <= k < slots ensures EntryAt(m, k).hash == FREE {
      ErasedEntry(m, k);
    }
  }

  lemma ErasedEntry(m: seq<byte>, k: nat)
    requires 16 * k + 16 <= |m| && forall i :: 16 * k <= i < 16 * k + 16 ==> m[i] == 255
    ensures EntryAt(m, k).hash == FREE
  {
    var s := m[16 * k..16 * k + 16];
    assert forall i :: 0 <= i < 16 ==> s[i] == m[16 * k + i];
    OnesWord(s[0..4]);
    OnesWord(s[4..8]);
  }

  lemma OnesWord(s: seq<byte>)
    requires |s| == 4 && forall i :: 0 <= i < 4 ==> s[i] == 255
    ensures GetWord(s) == ONES
  {
  }

  // -------------------------------------------------------------------- values

  ghost predicate InBank(slots: nat, e: Entry) {
    e.offset + e.len <= DataSize(slots)
  }

  ghost function Value(m: seq<byte>, slots: nat, e: Entry): seq<byte>
    requires IsBank(m, slots) && InBank(slots, e)
  {
    m[MetaSize(slots) + e.offset..MetaSize(slots) + e.offset + e.len]
  }

  /** Where things are: the entries in the first sixteenth of the partition, the values behind them. */
  lemma PartitionLayout(m: seq<byte>, slots: nat, k: nat, e: Entry, i: nat)
    requires IsBank(m, slots) && k < slots && InBank(slots, e) && i < e.len
    ensures LogOf(m, slots)[k].hash == Hash(WordAt(m, 16 * k), WordAt(m, 16 * k + 4))
    ensures LogOf(m, slots)[k].offset == WordAt(m, 16 * k + 8) && LogOf(m, slots)[k].len == WordAt(m, 16 * k + 12)
    ensures |m| / 16 + e.offset + i < |m| && Value(m, slots, e)[i] == m[|m| / 16 + e.offset + i]
    ensures |LogOf(m, slots)| == |m| / 16 / 16 && e.offset + e.len <= |m| - |m| / 16
  {
    var s := m[16 * k..16 * k + 16];
    WordIs(s, m, 0, 16 * k);
    WordIs(s, m, 4, 16 * k + 4);
    WordIs(s, m, 8, 16 * k + 8);
    WordIs(s, m, 12, 16 * k + 12);
  }

  /** What the partition holds for a hash: the value of its last entry, unless that is a
      tombstone. */
  ghost function Lookup(m: seq<byte>, slots: nat, h: Hash): Option<seq<byte>>
    requires IsBank(m, slots)
  {
    var log := LogOf(m, slots);
    var k := Last(log, h);
    if k < 0 || log[k].len == 0 || !InBank(slots, log[k]) then None else Some(Value(m, slots, log[k]))
  }

  /** Two partitions hold the same map. */
  ghost predicate SameMap(a: seq<byte>, b: seq<byte>, slots: nat)
    requires IsBank(a, slots) && IsBank(b, slots)
  {
    forall h :: h != FREE ==> Lookup(a, slots, h) == Lookup(b, slots, h)
  }

  /** n entries in use, laid out as the library lays them out. */
  ghost predicate Good(m: seq<byte>, slots: nat, n: nat) {
    IsBank(m, slots) && Packed(LogOf(m, slots), n, DataSize(slots))
  }

  lemma GoodInBank(m: seq<byte>, slots: nat, n: nat, k: nat)
    requires Good(m, slots, n) && k < n
    ensures InBank(slots, LogOf(m, slots)[k])
    ensures EndOf(LogOf(m, slots)[k]) <= End(LogOf(m, slots), n)
    ensures End(LogOf(m, slots), n) < DataSize(slots)
  {
    InArea(LogOf(m, slots), n, DataSize(slots), k);
  }

  /** A value survives a write to the metadata area, and one to lines beyond it. */
  lemma ValueKept(m: seq<byte>, slots: nat, at: nat, d: seq<byte>, e: Entry)
    requires IsBank(m, slots) && InBank(slots, e) && at + |d| <= |m|
    requires at + |d| <= MetaSize(slots) || MetaSize(slots) + e.offset + e.len <= at
    ensures Value(Splice(m, at, d), slots, e) == Value(m, slots, e)
  {
    var lo := MetaSize(slots) + e.offset;
    var m' := Splice(m, at, d);
    assert m'[lo..lo + e.len] == m[lo..lo + e.len];
  }

  lemma ValueWritten(m: seq<byte>, slots: nat, d: seq<byte>, e: Entry)
    requires IsBank(m, slots) && InBank(slots, e) && e.offset + |d| <= DataSize(slots) && e.len <= |d|
    ensures MetaSize(slots) + e.offset + |d| <= |m|
    ensures Value(Splice(m, MetaSize(slots) + e.offset, d), slots, e) == d[..e.len]
  {
    var lo := MetaSize(slots) + e.offset;
    var m' := Splice(m, lo, d);
    assert m'[lo..lo + e.len] == d[..e.len];
  }

  /** The partition after an append: metadata first, then the value (or nothing). */
  function Append(m: seq<byte>, slots: nat, n: nat, e: Entry, d: seq<byte>): (r: seq<byte>)
    requires 16 * n + 16 <= |m| && Storable(e) && MetaSize(slots) + e.offset + |d| <= |m|
    ensures |r| == |m|
  {
    Splice(Splice(m, 16 * n, Encode(e)), MetaSize(slots) + e.offset, d)
  }

  lemma AppendLog(m: seq<byte>, slots: nat, n: nat, e: Entry, d: seq<byte>)
    requires IsBank(m, slots) && n < slots && Storable(e) && e.offset + |d| <= DataSize(slots)
    ensures 16 * n + 16 <= |m| && MetaSize(slots) + e.offset + |d| <= |m|
    ensures LogOf(Append(m, slots, n, e, d), slots) == LogOf(m, slots)[n := e]
  {
    LogAfterMeta(m, slots, n, e);
    LogAfterData(Splice(m, 16 * n, Encode(e)), slots, MetaSize(slots) + e.offset, d);
  }

  /** Appending leaves the values before it alone. */
  lemma AppendOldValue(m: seq<byte>, slots: nat, n: nat, e: Entry, d: seq<byte>, x: Entry)
    requires IsBank(m, slots) && n < slots && Storable(e) && e.offset + |d| <= DataSize(slots)
    requires InBank(slots, x) && x.offset + x.len <= e.offset
    ensures Value(Append(m, slots, n, e, d), slots, x) == Value(m, slots, x)
  {
    ValueKept(m, slots, 16 * n, Encode(e), x);
    ValueKept(Splice(m, 16 * n, Encode(e)), slots, MetaSize(slots) + e.offset, d, x);
  }

  /** The value an append stores; without data, what the erased lines hold. */
  ghost function Stored(m: seq<byte>, slots: nat, e: Entry, d: seq<byte>): seq<byte>
    requires IsBank(m, slots) && InBank(slots, e)
  {
    if e.len <= |d| then d[..e.len] else Value(m, slots, e)
  }

  lemma AppendNewValue(m: seq<byte>, slots: nat, n: nat, e: Entry, d: seq<byte>)
    requires IsBank(m, slots) && n < slots && Storable(e) && e.offset + |d| <= DataSize(slots) && InBank(slots, e)
    requires d == [] || e.len <= |d|
    ensures Value(Append(m, slots, n, e, d), slots, e) == Stored(m, slots, e, d)
  {
    var m1 := Splice(m, 16 * n, Encode(e));
    if e.len <= |d| {
      ValueWritten(m1, slots, d, e);
    } else {
      ValueKept(m, slots, 16 * n, Encode(e), e);
      assert Splice(m1, MetaSize(slots) + e.offset, d) == m1;
    }
  }

  /** Appending an entry and its value: the new key gets the value and the other keys
      keep theirs. */
  lemma AppendLookup(m: seq<byte>, slots: nat, n: nat, e: Entry, d: seq<byte>, h: Hash)
    requires Good(m, slots, n) && n < slots && Storable(e) && e.hash != FREE && h != FREE
    requires e.offset == End(LogOf(m, slots), n) && e.offset + |d| <= DataSize(slots) && InBank(slots, e)
    requires d == [] || e.len <= |d|
    ensures Lookup(Append(m, slots, n, e, d), slots, h) ==
              if h != e.hash then Lookup(m, slots, h)
              else if e.len == 0 then None else Some(Stored(m, slots, e, d))
  {
    AppendLog(m, slots, n, e, d);
    AppendNewValue(m, slots, n, e, d);
    var log := LogOf(m, slots);
    LastAppend(log, n, DataSize(slots), e, h);
    var k := Last(log, h);
    if h != e.hash && k >= 0 {
      GoodInBank(m, slots, n, k);
      EndMonotone(log, k + 1, n);
      AppendOldValue(m, slots, n, e, d, log[k]);
    }
  }

  /** An append that stops short of the last line keeps the partition good. */
  lemma AppendGood(m: seq<byte>, slots: nat, n: nat, e: Entry, d: seq<byte>, n': nat)
    requires Good(m, slots, n) && n < slots && Storable(e) && e.hash != FREE && n' == n + 1
    requires e.offset == End(LogOf(m, slots), n) && EndOf(e) < DataSize(slots)
    requires e.offset + |d| <= DataSize(slots)
    ensures Good(Append(m, slots, n, e, d), slots, n')
    ensures End(LogOf(Append(m, slots, n, e, d), slots), n') == EndOf(e)
  {
    AppendLog(m, slots, n, e, d);
    AppendKeeps(LogOf(m, slots), n, DataSize(slots), e);
  }

  // ---------------------------------------------------------------- allocation

  /** The slot and the data offset alloc_entry finds. */
  ghost function AllocSlot(m: seq<byte>, slots: nat): nat
    requires IsBank(m, slots)
  {
    FirstFree(LogOf(m, slots), slots)
  }

  ghost function AllocAt(m: seq<byte>, slots: nat): nat
    requires IsBank(m, slots)
  {
    ScanEnd(LogOf(m, slots), slots, DataSize(slots))
  }

  /** In a good partition they are the end of the log. */
  lemma GoodAlloc(m: seq<byte>, slots: nat, n: nat)
    requires Good(m, slots, n)
    ensures AllocSlot(m, slots) == n && AllocAt(m, slots) == End(LogOf(m, slots), n) && n <= slots
  {
    FirstFreeIsEnd(LogOf(m, slots), n, DataSize(slots));
    ScanFindsEnd(LogOf(m, slots), n, DataSize(slots), slots);
  }
}
