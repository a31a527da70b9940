/** The power-of-two ring buffer (modules/common/src/ringbuf.c) as a bounded byte queue.
    index and outdex are free-running 32-bit counters. */
module RingBuf {
  import opened Basics
  import opened Bits

  // ------------------------------------------------------------------ positions

  /** The cell i places after cell o, going round. */
  function Wrap(o: nat, i: nat, cap: nat): nat {
    if o + i < cap then o + i else o + i - cap
  }

  lemma WrapIsMod(a: nat, j: nat, cap: nat)
    requires cap > 0 && j <= cap
    ensures (a + j) % cap == Wrap(a % cap, j, cap)
  {
    var q, r := a / cap, a % cap;
    assert a == cap * q + r;
    if r + j < cap {
      DivideUnique(a + j, cap, q, r + j);
    } else {
      assert cap * (q + 1) == cap * q + cap;
      DivideUnique(a + j, cap, q + 1, r + j - cap);
    }
  }

  /** Wrapping a counter at a multiple of c does not move the cell it points at. */
  lemma WrapCounter(x: nat, c: nat, m: nat, word: nat)
    requires c > 0 && word == c * m && word > 0
    ensures x % word % c == x % c
  {
    var q, r := x / word, x % word;
    var a, b := r / c, r % c;
    Associate(c, m, q);
    assert x == word * q + r;
    assert r == c * a + b;
    assert c * (m * q + a) == c * (m * q) + c * a;
    DivideUnique(x, c, m * q + a, b);
  }

  lemma Associate(a: int, b: int, c: int)
    ensures a * b * c == a * (b * c)
  {
  }

  lemma CounterCell(x: nat, k: nat)
    requires k <= 32
    ensures x % WORD % Pow2(k) == x % Pow2(k)
  {
    Sizes();
    Pow2Divides(k, 32);
    WrapCounter(x, Pow2(k), Pow2(32 - k), WORD);
  }

  // -------------------------------------------------------------------- windows

  /** The len bytes from cell o on. */
  ghost function Window(b: seq<byte>, o: nat, len: nat): (w: seq<byte>)
    requires o < |b| && len <= |b|
    ensures |w| == len && forall i :: 0 <= i < len ==> w[i] == b[Wrap(o, i, |b|)]
  {
    seq(len, i requires 0 <= i < len => b[Wrap(o, i, |b|)])
  }

  /** b' is b after the two copies of ringbuf_write of d, from cell p on. */
  ghost predicate TwoCopies(b: seq<byte>, b': seq<byte>, p: nat, d: seq<byte>)
    requires p < |b|
  {
    var cut := Min(|d|, |b| - p);
    && |b'| == |b| && |d| <= |b|
    && forall i :: 0 <= i < |b| ==>
         b'[i] == if p <= i < p + cut then d[i - p] else if i < |d| - cut then d[cut + i] else b[i]
  }

  lemma WindowGrows(b: seq<byte>, b': seq<byte>, o: nat, len: nat, d: seq<byte>)
    requires o < |b| && len + |d| <= |b| && len < |b|
    requires TwoCopies(b, b', Wrap(o, len, |b|), d)
    ensures Window(b', o, len + |d|) == Window(b, o, len) + d
  {
    var w, w' := Window(b, o, len), Window(b', o, len + |d|);
    forall i | 0 <= i < len + |d| ensures w'[i] == (w + d)[i] {
      var p := Wrap(o, i, |b|);
      assert b'[p] == if i < len then b[p] else d[i - len];
    }
  }

  lemma WindowTail(b: seq<byte>, o: nat, len: nat, n: nat)
    requires o < |b| && n <= len <= |b| && n < |b|
    ensures Window(b, Wrap(o, n, |b|), len - n) == Window(b, o, len)[n..]
  {
    var w, v := Window(b, o, len), Window(b, Wrap(o, n, |b|), len - n);
    forall i | 0 <= i < len - n ensures v[i] == w[n..][i] {
      assert Wrap(Wrap(o, n, |b|), i, |b|) == Wrap(o, n + i, |b|);
    }
  }

  lemma WindowPrefix(b: seq<byte>, o: nat, len: nat, n: nat)
    requires o < |b| && n <= len <= |b|
    ensures Window(b, o, n) == Window(b, o, len)[..n]
  {
  }

  /** A window is one or two stretches of the buffer. */
  lemma WindowParts(b: seq<byte>, o: nat, len: nat)
    requires o < |b| && len <= |b|
    ensures Window(b, o, len) == if o + len <= |b| then b[o..o + len] else b[o..] + b[..len - (|b| - o)]
  {
  }

  lemma WindowFromStart(b: seq<byte>, data: seq<byte>)
    requires 0 < |b| && |data| <= |b| && forall i :: 0 <= i < |data| ==> b[i] == data[i]
    ensures Window(b, 0, |data|) == data
  {
  }

  /** What read_core copies for a stretch of the contents. */
  lemma WindowSlice(b: seq<byte>, o: nat, length: nat, offset: nat, len: nat)
    requires o < |b| && offset < length <= |b| && len <= length - offset
    ensures var at := Wrap(o, offset, |b|);
            var cut := Min(len, |b| - at);
            b[at..at + cut] + b[..len - cut] == Window(b, o, length)[offset..offset + len]
  {
    var at := Wrap(o, offset, |b|);
    WindowTail(b, o, length, offset);
    WindowPrefix(b, at, length - offset, len);
    WindowParts(b, at, len);
    assert Window(b, o, length)[offset..][..len] == Window(b, o, length)[offset..offset + len];
  }

  // ------------------------------------------------------------------- counters

  type Word = x: nat | x < WORD

  /** size_t addition and subtraction. */
  function Plus(x: Word, n: Word): Word {
    if x + n < WORD then x + n else x + n - WORD
  }

  function Minus(x: Word, n: Word): Word {
    if n <= x then x - n else x + WORD - n
  }

  /** GET_INDEX(i, n) */
  function GetIndex(i: nat, n: nat): nat
    requires n > 0
  {
    And(i, n - 1)
  }

  lemma PlusIsMod(x: Word, n: Word)
    ensures Plus(x, n) == (x + n) % WORD && Minus(x, n) == (x - n) % WORD
  {
  }

  /** Advancing outdex moves the first cell round. */
  lemma OutdexCell(outdex: Word, n: Word, k: nat)
    requires k <= 31 && n <= Pow2(k)
    ensures GetIndex(Plus(outdex, n), Pow2(k)) == Plus(outdex, n) % Pow2(k) == Wrap(outdex % Pow2(k), n, Pow2(k))
  {
    MaskIsMod(Plus(outdex, n), k);
    PlusIsMod(outdex, n);
    CounterCell(outdex + n, k);
    WrapIsMod(outdex, n, Pow2(k));
  }

  /** The cell ringbuf_write starts at is the one after the contents. */
  lemma IndexCell(index: Word, outdex: Word, k: nat)
    requires k <= 31 && Minus(index, outdex) <= Pow2(k)
    ensures GetIndex(index, Pow2(k)) == Wrap(outdex % Pow2(k), Minus(index, outdex), Pow2(k))
  {
    assert Plus(outdex, Minus(index, outdex)) == index;
    OutdexCell(outdex, Minus(index, outdex), k);
  }

  /** The two copies of read_core put together are a stretch of the contents. */
  lemma CopiedWindow(b: seq<byte>, k: nat, outdex: Word, length: nat, offset: nat, len: nat)
    requires k <= 31 && |b| == Pow2(k) && offset < length <= |b| && len <= length - offset && offset < WORD
    ensures GetIndex(Plus(outdex, offset), |b|) < |b|
    ensures var at := GetIndex(Plus(outdex, offset), |b|);
            var cut := Min(len, |b| - at);
            b[at..at + cut] + b[..len - cut] == Window(b, outdex % |b|, length)[offset..offset + len]
  {
    OutdexCell(outdex, offset, k);
    WindowSlice(b, outdex % |b|, length, offset, len);
  }

  lemma CapacityBelowWord(k: nat)
    requires k <= 31
    ensures Pow2(k) <= 0x8000_0000 < WORD
  {
    Pow2Monotone(k, 31);
    Sizes();
    assert Pow2(32) == 2 * Pow2(31);
  }

  // ----------------------------------------------------------------------- ring

  method Memcpy(dst: array<byte>, at: nat, src: seq<byte>)
    requires at + |src| <= dst.Length
    modifies dst
    ensures forall i :: 0 <= i < dst.Length ==> dst[i] == if at <= i < at + |src| then src[i - at] else old(dst[i])
  {
    for j := 0 to |src|
      invariant forall i :: 0 <= i < dst.Length ==> dst[i] == if at <= i < at + j then src[i - at] else old(dst[i])
    {
      dst[at + j] := src[j];
    }
  }

  /** The two copies of ringbuf_write: up to the end of the buffer, then from its start. */
  method CopyIn(buffer: array<byte>, at: nat, data: seq<byte>)
    requires at < buffer.Length && |data| <= buffer.Length
    modifies buffer
    ensures TwoCopies(old(buffer[..]), buffer[..], at, data)
  {
    var contiguous := buffer.Length - at;
    var remained := if contiguous < |data| then |data| - contiguous else 0;
    var cut := |data| - remained;
    Memcpy(buffer, at, data[..cut]);
    Memcpy(buffer, 0, data[cut..]);
  }

  /** The two copies of read_core. */
  method CopyOut(buffer: array<byte>, at: nat, len: nat) returns (buf: seq<byte>)
    requires at < buffer.Length && len <= buffer.Length
    ensures var b, cut := buffer[..], Min(len, buffer.Length - at); buf == b[at..at + cut] + b[..len - cut]
  {
    var contiguous := buffer.Length - at;
    var remained := if contiguous < len then len - contiguous else 0;
    var cut := len - remained;
    buf := buffer[at..at + cut] + buffer[..remained];
    assert buffer[at..at + cut] == buffer[..][at..at + cut] && buffer[..remained] == buffer[..][..remained];
  }

  class Ring {
    var capacity: nat
    var index: Word
    var outdex: Word
    var buffer: array<byte>
    ghost var bits: nat

    ghost predicate Valid()
      reads this
    {
      && bits <= 31 && capacity == Pow2(bits) && buffer.Length == capacity
      && Minus(index, outdex) <= capacity
    }

    ghost function Contents(): (c: seq<byte>)
      reads this, buffer
      requires Valid()
      ensures |c| == Minus(index, outdex) <= capacity
    {
      Window(buffer[..], outdex % capacity, Minus(index, outdex))
    }

    /** ringbuf_create */
    constructor (size: nat)
      requires 0 < size <= 0x8000_0000
      ensures Valid() && Contents() == [] && fresh(buffer)
      ensures size <= capacity && (forall k: nat :: size <= Pow2(k) ==> capacity <= Pow2(k))
    {
      var cap := RoundUpPow2(size);
      RoundUpPow2Least(size);
      ghost var k := RoundedBits(size);
      index, outdex := 0, 0;
      buffer := new byte[cap](i => 0);
      capacity := Pow2(Fls(cap) - 1);
      bits := k;
      FlsOfPow2(k);
    }

    /** ringbuf_write */
    method Write(data: seq<byte>) returns (len: nat)
      requires Valid()
      modifies this`index, buffer
      ensures Valid()
      ensures len == Min(capacity - |old(Contents())|, |data|)
      ensures Contents() == old(Contents()) + data[..len]
    {
      CapacityBelowWord(bits);
      len := Min(capacity - Minus(index, outdex), |data|);
      var at := GetIndex(index, capacity);
      IndexCell(index, outdex, bits);
      if len == 0 {
        // nothing fits, or nothing to write: the copies are empty
        return;
      }
      ghost var b := buffer[..];
      CopyIn(buffer, at, data[..len]);
      WindowGrows(b, buffer[..], outdex % capacity, Minus(index, outdex), data[..len]);
      index := Plus(index, len);
    }

    /** ringbuf_write_cancel */
    method WriteCancel(size: nat) returns (n: nat)
      requires Valid()
      modifies this`index
      ensures Valid()
      ensures n == if size <= |old(Contents())| then size else 0
      ensures Contents() == old(Contents())[..|old(Contents())| - n]
    {
      if Minus(index, outdex) < size {
        return 0;
      }
      CapacityBelowWord(bits);
      WindowPrefix(buffer[..], outdex % capacity, Minus(index, outdex), Minus(index, outdex) - size);
      index := Minus(index, size);
      n := size;
    }

    /** ringbuf_peek: read_core. */
    method Peek(offset: nat, size: nat) returns (buf: seq<byte>)
      requires Valid()
      ensures var c := Contents();
              buf == if offset >= |c| then [] else c[offset..offset + Min(|c| - offset, size)]
    {
      hide Window, GetIndex, Pow2;
      var length := Minus(index, outdex);
      if offset >= length {
        return [];
      }
      CapacityBelowWord(bits);
      var at := GetIndex(Plus(outdex, offset), capacity);
      var len := Min(length - offset, size);
      CopiedWindow(buffer[..], bits, outdex, length, offset, len);
      buf := CopyOut(buffer, at, len);
    }

    /** ringbuf_peek_pointer: the cell of the byte at `offset` and how many bytes of the
        contents lie in a row from there; nothing when the offset is past the end. */
    method PeekPointer(offset: nat) returns (found: bool, at: nat, contiguous: nat)
      requires Valid()
      ensures found <==> offset < |Contents()|
      ensures !found ==> contiguous == 0
      ensures found ==>
                && at + contiguous <= buffer.Length
                && contiguous == Min(capacity - at, |Contents()| - offset) > 0
                && buffer[at..at + contiguous] == Contents()[offset..offset + contiguous]
    {
      var length := Minus(index, outdex);
      if offset >= length {
        return false, 0, 0;
      }
      CapacityBelowWord(bits);
      at := GetIndex(Plus(outdex, offset), capacity);
      OutdexCell(outdex, offset, bits);
      contiguous := Min(capacity - at, length - offset);
      found := true;
      WindowSlice(buffer[..], outdex % capacity, length, offset, contiguous);
      assert buffer[at..at + contiguous] == buffer[..][at..at + contiguous];
    }

    /** ringbuf_consume */
    method Consume(size: nat) returns (ok: bool)
      requires Valid()
      modifies this`outdex
      ensures Valid()
      ensures ok <==> size <= |old(Contents())|
      ensures Contents() == if ok then old(Contents())[size..] else old(Contents())
    {
      var length := Minus(index, outdex);
      if length < size {
        return false;
      }
      CapacityBelowWord(bits);
      ghost var o := outdex % capacity;
      OutdexCell(outdex, size, bits);
      if size < capacity {
        WindowTail(buffer[..], o, length, size);
      }
      outdex := Plus(outdex, size);
      ok := true;
    }

    /** ringbuf_read: everything before the offset is dropped as well. */
    method Read(offset: nat, size: nat) returns (buf: seq<byte>)
      requires Valid()
      modifies this`outdex
      ensures Valid()
      ensures var c := old(Contents());
              && buf == (if offset >= |c| then [] else c[offset..offset + Min(|c| - offset, size)])
              && Contents() == if buf == [] then c else c[offset + |buf|..]
    {
      buf := Peek(offset, size);
      if |buf| > 0 {
        var _ := Consume(|buf| + offset);
      }
    }

    /** ringbuf_resize; `memory` says whether the allocation succeeds. */
    method Resize(size: nat, memory: bool) returns (ok: bool)
      requires Valid() && size <= 0x8000_0000
      modifies this
      ensures Valid() && Contents() == old(Contents())
      ensures ok <==> size > 0 && (RoundUpPow2(size) == old(capacity)
                                   || (|old(Contents())| <= RoundUpPow2(size) && memory))
      ensures capacity == if ok then RoundUpPow2(size) else old(capacity)
      ensures buffer == old(buffer) || fresh(buffer)
    {
      if size == 0 {
        return false;
      }
      var cap := RoundUpPow2(size);
      if cap == capacity {
        return true;
      }
      var length := Minus(index, outdex);
      if cap < length || !memory {
        return false;
      }
      ghost var k := RoundedBits(size);
      CapacityBelowWord(k);
      var data := Peek(0, length);
      var bigger := new byte[cap](i => 0);
      Memcpy(bigger, 0, data);
      buffer, capacity, index, outdex := bigger, cap, length, 0;
      bits := k;
      WindowFromStart(buffer[..], data);
      ok := true;
    }
  }

  lemma RoundedBits(size: nat) returns (k: nat)
    requires 0 < size <= 0x8000_0000
    ensures k <= 31 && RoundUpPow2(size) == Pow2(k)
  {
    Sizes();
    assert Pow2(32) == 2 * Pow2(31);
    RoundUpPow2Least(size);
    k :| RoundUpPow2(size) == Pow2(k);
    if k > 31 {
      Pow2Monotone(32, k);
    }
  }

  lemma FlsOfPow2(k: nat)
    ensures Fls(Pow2(k)) == k + 1
  {
    FlsAtMost(Pow2(k), k);
    FlsAtMost(Pow2(k), k + 1);
  }
}
