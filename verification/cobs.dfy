/** Consistent overhead byte stuffing: the encoding and its inverse as functions. */
module CobsFormat {
  import opened Basics

  // ------------------------------------------------------------------- the encoding

  /** How many of the first bytes go into one group: up to a zero, the end, or 254. */
  function Run(data: seq<byte>, limit: nat): (k: nat)
    ensures k <= limit && k <= |data|
    ensures forall j :: 0 <= j < k ==> data[j] != 0
    ensures k < limit && k < |data| ==> data[k] == 0
  {
    if limit == 0 || data == [] || data[0] == 0 then 0 else 1 + Run(data[1..], limit - 1)
  }

  /** What is left after a first group of k bytes: an ending zero is taken up by the group. */
  function Rest(data: seq<byte>, k: nat): (r: seq<byte>)
    requires k < |data|
    ensures |r| < |data|
  {
    if k == 254 then data[254..] else data[k + 1..]
  }

  /** The encoding without its delimiter, group by group: a code byte one above the number of
      bytes that follow it, and a zero implied between groups unless the group is full. */
  function Encoded(data: seq<byte>): (e: seq<byte>)
    ensures |e| > 0
    decreases |data|
  {
    var k := Run(data, 254);
    if k == |data| then [k + 1] + data
    else [k + 1] + data[..k] + Encoded(Rest(data, k))
  }

  /** The last group is full, so that no zero is implied after it. */
  predicate EndsFull(data: seq<byte>)
    decreases |data|
  {
    var k := Run(data, 254);
    if k == |data| then k == 254 else EndsFull(Rest(data, k))
  }

  lemma FirstGroup(data: seq<byte>, k: nat, tail: seq<byte>)
    requires k == Run(data, 254) < |data|
    ensures Encoded(data) + tail == [k + 1] + data[..k] + (Encoded(Rest(data, k)) + tail)
  {
    Prepended(Encoded(data), [k + 1] + data[..k], Encoded(Rest(data, k)), tail);
  }

  lemma Prepended(whole: seq<byte>, head: seq<byte>, rest: seq<byte>, tail: seq<byte>)
    requires whole == head + rest
    ensures whole + tail == head + (rest + tail)
  {
  }

  lemma Associative(a: seq<byte>, b: seq<byte>, c: seq<byte>)
    ensures (a + b) + c == a + (b + c)
  {
  }

  /** A group is found by its end. */
  lemma {:induction false} RunIs(data: seq<byte>, limit: nat, k: nat)
    requires k <= limit && k <= |data| && (forall j :: 0 <= j < k ==> data[j] != 0)
    requires k == limit || k == |data| || data[k] == 0
    ensures Run(data, limit) == k
  {
    if k > 0 {
      forall j | 0 <= j < k - 1 ensures data[1..][j] != 0 {
        assert data[1..][j] == data[j + 1];
      }
      RunIs(data[1..], limit - 1, k - 1);
    }
  }

  /** The body never holds the delimiter. */
  lemma {:induction false} NoZero(data: seq<byte>)
    ensures forall j :: 0 <= j < |Encoded(data)| ==> Encoded(data)[j] != 0
    decreases |data|
  {
    var k := Run(data, 254);
    if k < |data| {
      var rest := Rest(data, k);
      NoZero(rest);
      assert Encoded(data) == [k + 1] + data[..k] + Encoded(rest);
    }
  }

  /** The overhead is at most one byte and one more for every 254. */
  lemma {:induction false} Overhead(data: seq<byte>)
    ensures |data| < |Encoded(data)| <= |data| + |data| / 254 + 1
    decreases |data|
  {
    var k := Run(data, 254);
    if k < |data| {
      var rest := Rest(data, k);
      Overhead(rest);
    }
  }

  /** Small encodings: the code byte of a group is one above the number of its bytes. */
  lemma SmallEncodings(a: byte, b: byte)
    requires a != 0 && b != 0
    ensures Encoded([]) == [1] && Encoded([0]) == [1, 1] && Encoded([a]) == [2, a]
    ensures Encoded([a, 0, b]) == [2, a, 2, b] && Encoded([0, a, b]) == [1, 3, a, b]
  {
    RunIs([a, 0, b], 254, 1);
    RunIs([0, a, b], 254, 0);
    RunIs([a, b], 254, 2);
    RunIs([b], 254, 1);
    assert Rest([a, 0, b], 1) == [b] && Rest([0, a, b], 0) == [a, b] && Rest([0], 0) == [];
  }

  /** One byte more makes the encoding one byte longer, and two if the last group was full. */
  lemma {:induction false} Grows(data: seq<byte>, b: byte)
    ensures |Encoded(data + [b])| == |Encoded(data)| + if EndsFull(data) then 2 else 1
    ensures b == 0 ==> !EndsFull(data + [b])
    decreases |data|
  {
    var k, more := Run(data, 254), data + [b];
    if k < |data| {
      RunIs(more, 254, k);
      Grows(Rest(data, k), b);
      assert Rest(more, k) == Rest(data, k) + [b];
    } else if k == 254 || b == 0 {
      RunIs(more, 254, k);
      LastAlone(data, b);
    } else {
      RunIs(more, 254, k + 1);
    }
  }

  /** The byte begins a group of its own, or ends the one before. */
  lemma LastAlone(data: seq<byte>, b: byte)
    requires Run(data, 254) == |data| && (|data| == 254 || b == 0)
    ensures Run(data + [b], 254) == |data| ==>
              && Rest(data + [b], |data|) == (if |data| == 254 then [b] else [])
              && |Encoded(Rest(data + [b], |data|))| == (if |data| == 254 then 2 else 1)
              && !EndsFull(Rest(data + [b], |data|))
  {
    RunIs([b], 254, if b == 0 then 0 else 1);
    assert b == 0 ==> Rest([b], 0) == [];
  }

  lemma {:induction false} GrowsOn(data: seq<byte>, i: nat, j: nat)
    requires i <= j <= |data|
    ensures |Encoded(data[..i])| + (j - i) <= |Encoded(data[..j])|
    decreases j - i
  {
    if i < j {
      assert data[..i + 1] == data[..i] + [data[i]];
      Grows(data[..i], data[i]);
      GrowsOn(data, i + 1, j);
    }
  }

  // ------------------------------------------------------------------- the decoding

  /** What cobs_decode puts out for the bytes ahead, with room for all of it. */
  function Decoded(data: seq<byte>, groupLen: nat, code: nat): (d: seq<byte>)
    ensures |d| <= |data|
  {
    if data == [] then []
    else if groupLen > 0 then [data[0]] + Decoded(data[1..], groupLen - 1, code)
    else
      var zero: seq<byte> := if code != 255 then [0] else [];
      if data[0] == 0 then zero else zero + Decoded(data[1..], data[0] - 1, data[0])
  }

  function Decode(data: seq<byte>): (d: seq<byte>)
    ensures |d| <= |data|
  {
    Decoded(data, 0, 255)
  }

  /** Inside a group the bytes are copied. */
  lemma {:induction false} Copied(block: seq<byte>, rest: seq<byte>, code: nat)
    ensures Decoded(block + rest, |block|, code) == block + Decoded(rest, 0, code)
  {
    if block == [] {
      assert block + rest == rest;
    } else {
      assert (block + rest)[1..] == block[1..] + rest;
      Copied(block[1..], rest, code);
    }
  }

  function Zero(code: nat): seq<byte> {
    if code == 255 then [] else [0]
  }

  lemma GroupDecoded(k: nat, block: seq<byte>, rest: seq<byte>, code: nat)
    requires k == |block| <= 254
    ensures Decoded([k + 1] + block + rest, 0, code) == Zero(code) + block + Decoded(rest, 0, k + 1)
  {
    var e: seq<byte> := [k + 1] + block + rest;
    assert e[1..] == block + rest;
    Copied(block, rest, k + 1);
    assert Decoded(e, 0, code) == Zero(code) + Decoded(block + rest, k, k + 1);
  }

  /** Decoding an encoding, perhaps with its delimiter behind it. */
  lemma {:induction false} DecodeEncoded(data: seq<byte>, code: nat, tail: seq<byte>)
    requires tail == [] || tail[0] == 0
    ensures Decoded(Encoded(data) + tail, 0, code)
            == Zero(code) + data + if tail == [] || EndsFull(data) then [] else [0]
    decreases |data|
  {
    var k := Run(data, 254);
    if k == |data| {
      GroupDecoded(k, data, tail, code);
    } else {
      var rest := Rest(data, k);
      DecodeEncoded(rest, k + 1, tail);
      FirstGroup(data, k, tail);
      GroupDecoded(k, data[..k], Encoded(rest) + tail, code);
      Regroup(Zero(code), data, k, rest, if tail == [] || EndsFull(rest) then [] else [0]);
    }
  }

  lemma SplitGroup(data: seq<byte>, k: nat)
    requires k < |data| && k <= 254 && (k == 254 || data[k] == 0)
    ensures data == data[..k] + Zero(k + 1) + Rest(data, k)
  {
    if k == 254 {
      assert data[..k] + [] == data[..k];
    } else {
      assert data == data[..k] + [data[k]] + data[k + 1..];
    }
  }

  lemma Regroup(z: seq<byte>, data: seq<byte>, k: nat, rest: seq<byte>, t: seq<byte>)
    requires k == Run(data, 254) < |data| && rest == Rest(data, k)
    ensures z + data[..k] + (Zero(k + 1) + rest + t) == z + data + t
  {
    var d, o := data[..k], Zero(k + 1);
    SplitGroup(data, k);
    Associative(z, d, o + rest + t);
    Associative(d, o + rest, t);
    Associative(d, o, rest);
    Associative(z, data, t);
  }

  /** Decoding the body gives the data back. */
  lemma RoundTrip(data: seq<byte>)
    ensures Decode(Encoded(data)) == data
  {
    DecodeEncoded(data, 255, []);
    assert Encoded(data) + [] == Encoded(data);
  }

  /** Decoding a frame with its delimiter adds a zero, unless the last group is full. */
  lemma FrameDecoded(data: seq<byte>)
    ensures Decode(Encoded(data) + [0]) == data + if EndsFull(data) then [] else [0]
  {
    DecodeEncoded(data, 255, [0]);
  }

  /** Distinct data have distinct encodings. */
  lemma EncodedInjective(a: seq<byte>, b: seq<byte>)
    requires Encoded(a) == Encoded(b)
    ensures a == b
  {
    RoundTrip(a);
    RoundTrip(b);
  }

  /** What is decoded from the first bytes is decoded first. */
  lemma {:induction false} DecodedPrefix(data: seq<byte>, n: nat, groupLen: nat, code: nat)
    requires n <= |data|
    ensures Decoded(data[..n], groupLen, code) <= Decoded(data, groupLen, code)
  {
    if n > 0 {
      assert data[..n][1..] == data[1..][..n - 1];
      if groupLen > 0 {
        DecodedPrefix(data[1..], n - 1, groupLen - 1, code);
      } else if data[0] != 0 {
        DecodedPrefix(data[1..], n - 1, data[0] - 1, data[0]);
      }
    }
  }

  // ------------------------------------------------------------------------ the code

  /** buf holds the encoding and its delimiter. */
  ghost predicate Framed(buf: seq<byte>, data: seq<byte>) {
    var e := Encoded(data);
    |e| < |buf| && buf[..|e|] == e && buf[|e|] == 0
  }

  /** The groups of the data before `start` are written out. */
  ghost predicate Written(out: seq<byte>, data: seq<byte>, start: nat)
    requires start <= |data|
  {
    Encoded(data) == out + Encoded(data[start..]) && EndsFull(data) == EndsFull(data[start..])
  }

  /** x begins as the data do before `start`, and goes on, or is all of them, or no full group ends there. */
  ghost predicate Extends(x: seq<byte>, data: seq<byte>, start: nat)
    requires start <= |data|
  {
    data[..start] <= x && (start < |x| || x == data || start == 0 || data[start - 1] == 0)
  }

  /** Whatever comes from `start` on, these are the groups before it. */
  ghost predicate Settled(out: seq<byte>, data: seq<byte>, start: nat)
    requires start <= |data|
  {
    forall x :: Extends(x, data, start) ==> Written(out, x, start)
  }

  /**
   * The state of cobs_encode between two bytes: the groups before `head` are out, and the bytes of the current
   * one, which began at data[start], follow it. `full` groups were full.
   */
  ghost predicate Going(buf: seq<byte>, data: seq<byte>, i: nat, head: nat, groupLen: nat, o: nat, start: nat,
                        full: nat) {
    && start <= i <= |data| && i - start < 254 && groupLen == i - start + 1
    && head == start + full && o == i + full + 1 <= |buf|
    && buf[head + 1..o] == data[start..i]
    && (forall j :: start <= j < i ==> data[j] != 0)
    && Settled(buf[..head], data, start)
  }

  /** A group that ends here, by a zero or by its length. */
  lemma GroupEnds(data: seq<byte>, i: nat, start: nat, k: nat)
    requires start <= i <= |data| && k == i - start <= 254 && (forall j :: start <= j < i ==> data[j] != 0)
    requires k == 254 || i == |data| || data[i] == 0
    ensures Run(data[start..], 254) == k && data[start..][..k] == data[start..i]
  {
    var rest := data[start..];
    forall j | 0 <= j < k ensures rest[j] != 0 {
      assert rest[j] == data[start + j];
    }
    RunIs(rest, 254, k);
  }

  /** The encoding from the start of a group, when the next one starts at `next`. */
  lemma GroupThen(data: seq<byte>, i: nat, start: nat, k: nat, next: nat)
    requires start <= i < |data| && k == i - start <= 254 && (forall j :: start <= j < i ==> data[j] != 0)
    requires if k == 254 then next == i else data[i] == 0 && next == i + 1
    ensures Encoded(data[start..]) == [k + 1] + data[start..i] + Encoded(data[next..])
    ensures EndsFull(data[start..]) == EndsFull(data[next..])
  {
    GroupEnds(data, i, start, k);
    assert Rest(data[start..], k) == data[next..];
  }

  lemma GroupWritten(out: seq<byte>, data: seq<byte>, i: nat, start: nat, next: nat, code: byte, block: seq<byte>,
                     out': seq<byte>)
    requires start <= i < |data| && code == i - start + 1 <= 255 && (forall j :: start <= j < i ==> data[j] != 0)
    requires if code == 255 then next == i else data[i] == 0 && next == i + 1
    requires block == data[start..i] && out' == out + ([code] + block) && Written(out, data, start)
    ensures Written(out', data, next)
  {
    hide Encoded, EndsFull;
    GroupThen(data, i, start, i - start, next);
    Appended(Encoded(data), out, Encoded(data[start..]), [code] + block, Encoded(data[next..]), out');
  }

  lemma Appended(whole: seq<byte>, out: seq<byte>, e: seq<byte>, group: seq<byte>, rest: seq<byte>, out': seq<byte>)
    requires whole == out + e && e == group + rest && out' == out + group
    ensures whole == out' + rest
  {
  }

  /** A group ends and the next one starts at `next`. */
  lemma GroupOut(buf: seq<byte>, data: seq<byte>, i: nat, start: nat, next: nat, head: nat, o: nat, code: byte)
    requires start <= i < |data| && code == i - start + 1 <= 255 && (forall j :: start <= j < i ==> data[j] != 0)
    requires if code == 255 then next == i else data[i] == 0 && next == i + 1
    requires head < o <= |buf| && buf[head + 1..o] == data[start..i]
    requires Settled(buf[..head], data, start)
    ensures Settled(buf[head := code][..o], data, next)
  {
    var out, block, out' := buf[..head], data[start..i], buf[head := code][..o];
    Placed(buf, head, o, code, block);
    forall x | Extends(x, data, next) ensures Written(out', x, next) {
      ExtendsEarlier(x, data, start, i, next);
      GroupWritten(out, x, i, start, next, code, block, out');
    }
  }

  lemma ExtendsEarlier(x: seq<byte>, data: seq<byte>, start: nat, i: nat, next: nat)
    requires start <= i <= next <= |data| && Extends(x, data, next) && i < |data| && (next == i || next == i + 1)
    requires next == i ==> 0 < i && data[i - 1] != 0
    ensures i < |x| && Extends(x, data, start) && x[start..i] == data[start..i] && (next == i + 1 ==> x[i] == data[i])
    ensures forall j :: start <= j < i ==> x[j] == data[j]
  {
    forall j | 0 <= j < next ensures j < |x| && x[j] == data[j] {
      assert data[..next][j] == data[j];
    }
    assert data[..start] == data[..next][..start];
  }

  /** The code byte in front of its group. */
  lemma Placed(buf: seq<byte>, head: nat, o: nat, code: byte, block: seq<byte>)
    requires head < o <= |buf| && buf[head + 1..o] == block
    ensures buf[head := code][..o] == buf[..head] + ([code] + block)
  {
  }

  lemma LastJoins(buf: seq<byte>, data: seq<byte>, i: nat, head: nat, start: nat, o: nat)
    requires start <= i < |data| && head < o < |buf| && buf[head + 1..o] == data[start..i]
    ensures buf[o := data[i]][head + 1..o + 1] == data[start..i + 1]
    ensures buf[o := data[i]][..head] == buf[..head]
  {
    assert buf[o := data[i]][head + 1..o + 1] == buf[head + 1..o] + [data[i]];
    assert data[start..i + 1] == data[start..i] + [data[i]];
  }

  /** A byte joins the current group. */
  lemma Joins(buf: seq<byte>, data: seq<byte>, i: nat, head: nat, groupLen: nat, o: nat, start: nat, full: nat)
    requires Going(buf, data, i, head, groupLen, o, start, full)
    requires i < |data| && data[i] != 0 && groupLen < 254 && o < |buf|
    ensures Going(buf[o := data[i]], data, i + 1, head, groupLen + 1, o + 1, start, full)
  {
    LastJoins(buf, data, i, head, start, o);
  }

  /** A zero ends the group. */
  lemma ZeroEnds(buf: seq<byte>, data: seq<byte>, i: nat, head: nat, groupLen: byte, o: nat, start: nat, full: nat)
    requires Going(buf, data, i, head, groupLen, o, start, full) && i < |data| && data[i] == 0 && o < |buf|
    ensures Going(buf[head := groupLen], data, i + 1, o, 1, o + 1, i + 1, full)
  {
    GroupOut(buf, data, i, start, i + 1, head, o, groupLen);
    assert buf[head := groupLen][o + 1..o + 1] == [] == data[i + 1..i + 1];
  }

  /** The group is full, and more follows. */
  lemma LimitEnds(buf: seq<byte>, data: seq<byte>, i: nat, head: nat, o: nat, start: nat, full: nat)
    requires Going(buf, data, i, head, 254, o, start, full) && i + 1 < |data| && data[i] != 0 && o + 1 < |buf|
    ensures Going(buf[o := data[i]][head := 255], data, i + 1, o + 1, 1, o + 2, i + 1, full + 1)
  {
    LastJoins(buf, data, i, head, start, o);
    GroupOut(buf[o := data[i]], data, i + 1, start, i + 1, head, o + 1, 255);
    var buf' := buf[o := data[i]][head := 255];
    assert buf'[o + 2..o + 2] == [] == data[i + 1..i + 1];
  }

  lemma Begins(buf: seq<byte>, data: seq<byte>)
    requires |buf| > 0
    ensures Going(buf, data, 0, 0, 1, 1, 0, 0)
  {
    assert buf[1..1] == [] == data[0..0];
    forall x | Extends(x, data, 0) ensures Written(buf[..0], x, 0) {
      assert x[0..] == x && buf[..0] + Encoded(x) == Encoded(x);
    }
  }

  /** What the buffer would hold if the data ended here. */
  lemma EndsHere(buf: seq<byte>, data: seq<byte>, head: nat, o: nat, start: nat, code: byte)
    requires start <= |data| && |data| - start <= 254 && code == |data| - start + 1
    requires head < o <= |buf| && buf[head + 1..o] == data[start..] && Written(buf[..head], data, start)
    requires forall j :: start <= j < |data| ==> data[j] != 0
    ensures Encoded(data) == buf[head := code][..o] && (EndsFull(data) <==> |data| - start == 254)
  {
    GroupEnds(data, |data|, start, |data| - start);
    assert Encoded(data[start..]) == [code] + data[start..];
    Placed(buf, head, o, code, data[start..]);
  }

  lemma EndsAt(buf: seq<byte>, data: seq<byte>, i: nat, head: nat, o: nat, start: nat, code: byte)
    requires start <= i <= |data| && i - start <= 254 && code == i - start + 1 && (start < i || i == |data|)
    requires head < o <= |buf| && buf[head + 1..o] == data[start..i] && Settled(buf[..head], data, start)
    requires forall j :: start <= j < i ==> data[j] != 0
    ensures Encoded(data[..i]) == buf[head := code][..o] && (EndsFull(data[..i]) <==> i - start == 254)
  {
    var x := data[..i];
    assert data[..start] == x[..start] && x[start..] == data[start..i];
    assert i == |data| ==> x == data;
    assert Extends(x, data, start);
    EndsHere(buf, x, head, o, start, code);
  }

  /** A zero ends the buffer's first bytes, which begin an encoding of the first n bytes of the data. */
  ghost predicate CutAt(buf: seq<byte>, data: seq<byte>, z: nat, n: nat) {
    z < |buf| && buf[z] == 0 && n <= |data| && buf[..z] <= Encoded(data[..n])
  }

  /** The bytes before the first zero decode to the first bytes of the data. */
  ghost predicate Begun(buf: seq<byte>, data: seq<byte>) {
    exists z :: 0 <= z < |buf| && buf[z] == 0 && (forall j :: 0 <= j < z ==> buf[j] != 0) && Decode(buf[..z]) <= data
  }

  lemma CutBegins(buf: seq<byte>, data: seq<byte>, z: nat, n: nat)
    requires CutAt(buf, data, z, n)
    ensures Begun(buf, data)
  {
    var e := Encoded(data[..n]);
    NoZero(data[..n]);
    RoundTrip(data[..n]);
    DecodedPrefix(e, z, 0, 255);
    assert e[..z] == buf[..z];
    forall j | 0 <= j < z ensures buf[j] != 0 {
      assert buf[j] == buf[..z][j] == e[j];
    }
    assert Decode(buf[..z]) <= data[..n] <= data;
  }

  /** The first k bytes, and no more, have an encoding of at most `size` bytes. */
  ghost predicate Fills(data: seq<byte>, size: nat, k: nat) {
    && k <= |data| && |Encoded(data[..k])| <= size
    && (k < |data| ==> size < |Encoded(data[..k + 1])|)
  }

  /** There is one such number. */
  lemma FillsOnce(data: seq<byte>, size: nat, k: nat, k': nat)
    requires Fills(data, size, k) && Fills(data, size, k')
    ensures k == k'
  {
    if k < k' {
      GrowsOn(data, k + 1, k');
    } else if k' < k {
      GrowsOn(data, k' + 1, k);
    }
  }

  /** The buffer holds the encoding of as much of the data as fills it, with the delimiter in its last place. */
  ghost predicate Cut(buf: seq<byte>, data: seq<byte>, n: nat, k: nat)
    requires |buf| > 0
  {
    var last := |buf| - 1;
    && Fills(data, |buf|, k) && last <= |Encoded(data[..k])|
    && buf[..last] == Encoded(data[..k])[..last] && buf[last] == 0
    && n == (if |Encoded(data[..k])| == last || (!EndsFull(data[..k]) && k > 0 && data[k - 1] == 0) then last
             else if EndsFull(data[..k]) then last + 1 else last + 2)
  }

  /**
   * cobs_encode has finished. The whole frame is there exactly if it fits, and the length returned counts the
   * delimiter unless the last group is full. Otherwise the buffer is filled and cut. In either case what is there
   * decodes to the first bytes of the data.
   */
  ghost predicate Finished(buf: seq<byte>, data: seq<byte>, n: nat)
    requires |buf| > 0
  {
    && Begun(buf, data)
    && (Framed(buf, data) <==> |Encoded(data)| < |buf|)
    && (if |Encoded(data)| < |buf| then n == |Encoded(data)| + (if EndsFull(data) then 0 else 1)
        else exists k: nat :: Cut(buf, data, n, k))
  }

  lemma Whole(buf: seq<byte>, data: seq<byte>, n: nat)
    requires Framed(buf, data) && n == |Encoded(data)| + if EndsFull(data) then 0 else 1
    ensures Finished(buf, data, n)
  {
    assert data[..|data|] == data;
    CutBegins(buf, data, |Encoded(data)|, |data|);
  }

  lemma Partial(buf: seq<byte>, data: seq<byte>, k: nat, n: nat)
    requires |buf| > 0 && Cut(buf, data, n, k) && (k < |data| || |Encoded(data[..k])| == |buf|)
    ensures Finished(buf, data, n)
  {
    var z := |buf| - 1;
    assert data[..|data|] == data;
    GrowsOn(data, k, |data|);
    if k < |data| {
      GrowsOn(data, k + 1, |data|);
    }
    CutBegins(buf, data, z, k);
  }

  /** One byte more does not fit. */
  lemma NoMore(data: seq<byte>, k: nat, size: nat)
    requires k <= |data| && |Encoded(data[..k])| <= size
    requires k == |data| || |Encoded(data[..k])| == size || (|Encoded(data[..k])| + 1 == size && EndsFull(data[..k]))
    ensures Fills(data, size, k)
  {
    if k < |data| {
      assert data[..k + 1] == data[..k] + [data[k]];
      Grows(data[..k], data[k]);
    }
  }

  /** The buffer ends with the group that a zero ends. */
  lemma ZeroFills(buf: seq<byte>, data: seq<byte>, i: nat, head: nat, o: nat, full: nat)
    requires Going(buf, data, i + 1, o, 1, o + 1, i + 1, full) && o + 1 == |buf| && data[i] == 0
    ensures Finished(buf[o := 0], data, o)
  {
    hide Encoded, EndsFull, Finished;
    NothingEncoded();
    var x, buf' := data[..i + 1], buf[o := 0];
    assert Extends(x, data, i + 1);
    assert Written(buf[..o], x, i + 1) && x[i + 1..] == [];
    assert Encoded(x) == buf[..o] + [1];
    assert x == data[..i] + [data[i]];
    Grows(data[..i], data[i]);
    NoMore(data, i + 1, |buf|);
    assert buf'[..o] == buf[..o] == Encoded(x)[..o];
    Partial(buf', data, i + 1, o);
  }

  /** A group has become full, and the data or the buffer end. */
  lemma LimitFills(buf: seq<byte>, data: seq<byte>, i: nat, head: nat, o: nat, start: nat, full: nat, z: nat)
    requires Going(buf, data, i, head, 254, o, start, full) && i < |data| && data[i] != 0 && o < |buf|
    requires (i + 1 == |data| || o + 2 >= |buf|) && z == Min(o + 1, |buf| - 1)
    ensures Finished(buf[o := data[i]][head := 255][z := 0], data, o + 1)
  {
    hide Settled, Finished, Encoded, EndsFull;
    var buf1 := buf[o := data[i]];
    LastJoins(buf, data, i, head, start, o);
    EndsAt(buf1, data, i + 1, head, o + 1, start, 255);
    FullAndCut(buf1[head := 255], data, i + 1, o + 1, z);
    var buf' := buf1[head := 255][z := 0];
    if i + 1 == |data| && z == o + 1 {
      assert data[..i + 1] == data;
      Whole(buf', data, o + 1);
    } else {
      NoMore(data, i + 1, |buf|);
      Partial(buf', data, i + 1, o + 1);
    }
  }

  /** A zero behind the groups, or over their last byte. */
  lemma FullAndCut(buf: seq<byte>, data: seq<byte>, n: nat, o: nat, z: nat)
    requires n <= |data| && z <= o <= |buf| && z < |buf| && Encoded(data[..n]) == buf[..o]
    ensures buf[z := 0][..z] == Encoded(data[..n])[..z]
    ensures n == |data| && z == o ==> Framed(buf[z := 0], data)
  {
    hide Encoded;
    assert buf[z := 0][..z] == buf[..o][..z];
    assert data[..|data|] == data;
  }

  lemma NothingEncoded()
    ensures Encoded([]) == [1] && !EndsFull([])
  {
  }

  /** The loop is over. */
  lemma LoopEnds(buf: seq<byte>, data: seq<byte>, i: nat, head: nat, groupLen: byte, o: nat, start: nat, full: nat,
                 z: nat)
    requires Going(buf, data, i, head, groupLen, o, start, full)
    requires (i == |data| || o == |buf|) && z == Min(o, |buf| - 1) && (o == |buf| ==> start < i || o == 1)
    ensures Finished(buf[head := groupLen][z := 0], data, o + 1)
  {
    hide Settled, Finished, Encoded, EndsFull;
    var coded, buf' := buf[head := groupLen], buf[head := groupLen][z := 0];
    if o < |buf| {
      EndsAt(buf, data, i, head, o, start, groupLen);
      assert data[..i] == data && buf'[..o] == coded[..o];
      Whole(buf', data, o + 1);
    } else if start < i {
      EndsAt(buf, data, i, head, o, start, groupLen);
      assert buf'[..z] == coded[..o][..z];
      NoMore(data, i, |buf|);
      Partial(buf', data, i, o + 1);
    } else {
      NothingEncoded();
      assert data[..0] == [] && buf'[..0] == [] == [1 as byte][..0];
      NoMore(data, 0, |buf|);
      Partial(buf', data, 0, o + 1);
    }
  }

  // --------------------------------------------------------------------- decoding, in place or not

  /** After i bytes of `src`, `out` is out, and what is ahead completes it. */
  ghost predicate Decoding(src: seq<byte>, i: nat, groupLen: nat, code: nat, out: seq<byte>)
    requires i <= |src|
  {
    Decode(src) == out + Decoded(src[i..], groupLen, code)
  }

  lemma Starts(src: seq<byte>)
    ensures Decoding(src, 0, 0, 255, [])
  {
    assert src[0..] == src && [] + Decode(src) == Decode(src);
  }

  lemma Copies(src: seq<byte>, i: nat, groupLen: nat, code: nat, out: seq<byte>)
    requires i < |src| && Decoding(src, i, groupLen, code, out) && groupLen > 0
    ensures Decoding(src, i + 1, groupLen - 1, code, out + [src[i]])
  {
    assert src[i..][1..] == src[i + 1..];
    Associative(out, [src[i]], Decoded(src[i + 1..], groupLen - 1, code));
  }

  lemma Reads(src: seq<byte>, i: nat, code: nat, out: seq<byte>)
    requires i < |src| && Decoding(src, i, 0, code, out)
    ensures src[i] == 0 ==> Decode(src) == out + Zero(code)
    ensures src[i] != 0 ==> Decoding(src, i + 1, src[i] - 1, src[i], out + Zero(code))
  {
    assert src[i..][1..] == src[i + 1..];
    if src[i] != 0 {
      Associative(out, Zero(code), Decoded(src[i + 1..], src[i] - 1, src[i]));
    }
  }

  lemma AllDecoded(src: seq<byte>, i: nat, groupLen: nat, code: nat, out: seq<byte>)
    requires i <= |src| && Decoding(src, i, groupLen, code, out)
    ensures i == |src| ==> Decode(src) == out
    ensures |out| <= |Decode(src)| && Decode(src)[..|out|] == out
  {
  }
}

/** cobs_encode, cobs_decode and cobs_decode_overwrite (modules/common/src/cobs.c). */
module Cobs {
  import opened Basics
  import opened CobsFormat

  /** A non-zero byte in the loop of cobs_encode. */
  method EncodeNonZero(buf: array<byte>, size: nat, data: seq<byte>, i: nat, maxlen: nat, head: nat, groupLen: byte,
                       o: nat,
                       ghost start: nat, ghost full: nat)
    returns (done: bool, n: nat, head': nat, groupLen': byte, o': nat, ghost start': nat, ghost full': nat)
    requires size <= buf.Length && Going(buf[..size], data, i, head, groupLen, o, start, full)
    requires i < maxlen == Min(size, |data|) && o < size && data[i] != 0
    modifies buf
    ensures buf[size..] == old(buf[size..])
    ensures done ==> Finished(buf[..size], data, n)
    ensures !done ==> Going(buf[..size], data, i + 1, head', groupLen', o', start', full') && (o' < size || start' <= i)
  {
    hide Settled, Finished;
    ghost var was := buf[..size];
    head', groupLen', o', start', full' := head, groupLen + 1, o + 1, start, full;
    done, n := false, 0;
    buf[o] := data[i];
    assert buf[..size] == was[o := data[i]];
    if groupLen' == 255 {
      buf[head'] := groupLen';
      assert buf[..size] == was[o := data[i]][head := 255];
      head' := o';
      o' := o' + 1;
      if o' >= size || i + 1 >= maxlen {
        LimitFills(was, data, i, head, o, start, full, Min(o' - 1, size - 1));
        buf[Min(o' - 1, size - 1)] := 0;
        assert buf[..size] == was[o := data[i]][head := 255][Min(o' - 1, size - 1) := 0];
        done, n := true, o' - 1;
        return;
      }
      groupLen' := 1;
      LimitEnds(was, data, i, head, o, start, full);
      start', full' := i + 1, full + 1;
    } else {
      Joins(was, data, i, head, groupLen, o, start, full);
    }
  }

  /** A zero in the loop of cobs_encode. */
  method EncodeZero(buf: array<byte>, size: nat, data: seq<byte>, i: nat, head: nat, groupLen: byte, o: nat,
                    ghost start: nat, ghost full: nat)
    returns (done: bool, n: nat, head': nat, groupLen': byte, o': nat, ghost start': nat)
    requires size <= buf.Length && Going(buf[..size], data, i, head, groupLen, o, start, full)
    requires i < |data| && o < size && data[i] == 0
    modifies buf
    ensures buf[size..] == old(buf[size..])
    ensures done ==> Finished(buf[..size], data, n)
    ensures !done ==> Going(buf[..size], data, i + 1, head', groupLen', o', start', full) && o' < size
  {
    hide Settled, Finished;
    ghost var was := buf[..size];
    ZeroEnds(was, data, i, head, groupLen, o, start, full);
    head', groupLen', o', start', done, n := head, groupLen, o, start, false, 0;
    buf[head'] := groupLen';
    assert buf[..size] == was[head := groupLen];
    head' := o';
    o' := o' + 1;
    if o' >= size {
      ZeroFills(buf[..size], data, i, head, o, full);
      buf[Min(o' - 1, size - 1)] := 0;
      assert buf[..size] == was[head := groupLen][o := 0];
      return true, o' - 1, head', groupLen', o', start';
    }
    groupLen' := 1;
    start' := i + 1;
  }

  /** One byte in the loop of cobs_encode. */
  method EncodeByte(buf: array<byte>, size: nat, data: seq<byte>, i: nat, maxlen: nat, head: nat, groupLen: byte,
                    o: nat,
                    ghost start: nat, ghost full: nat)
    returns (done: bool, n: nat, head': nat, groupLen': byte, o': nat, ghost start': nat, ghost full': nat)
    requires size <= buf.Length && Going(buf[..size], data, i, head, groupLen, o, start, full)
    requires i < maxlen == Min(size, |data|) && o < size
    modifies buf
    ensures buf[size..] == old(buf[size..])
    ensures done ==> Finished(buf[..size], data, n)
    ensures !done ==> Going(buf[..size], data, i + 1, head', groupLen', o', start', full') && (o' < size || start' <= i)
  {
    hide Settled, Finished;
    if data[i] != 0 {
      done, n, head', groupLen', o', start', full' :=
        EncodeNonZero(buf, size, data, i, maxlen, head, groupLen, o, start, full);
    } else {
      full' := full;
      done, n, head', groupLen', o', start' := EncodeZero(buf, size, data, i, head, groupLen, o, start, full);
    }
  }

  /** cobs_encode. For a size of 0 it writes the first two bytes all the same, whatever the data. */
  method Encode(buf: array<byte>, size: nat, data: seq<byte>) returns (n: nat)
    requires size <= buf.Length && (size == 0 ==> buf.Length >= 2)
    modifies buf
    ensures size > 0 ==> Finished(buf[..size], data, n) && buf[size..] == old(buf[size..])
    ensures size == 0 ==> n == 2 && buf[..] == [1, 0] + old(buf[2..])
  {
    hide Settled, Finished;
    var head: nat, groupLen: byte, o: nat := 0, 1, 1;
    var maxlen := Min(size, |data|);
    ghost var start: nat, full: nat := 0, 0;
    var i: nat := 0;
    if size > 0 {
      Begins(buf[..size], data);
    }
    while i < maxlen && o < size
      invariant i <= maxlen && buf[size..] == old(buf[size..])
      invariant o >= size > 0 ==> start < i || o == 1
      invariant if size > 0 then Going(buf[..size], data, i, head, groupLen, o, start, full)
                else i == 0 && head == 0 && groupLen == 1 && o == 1 && buf[..] == old(buf[..])
    {
      var done: bool;
      done, n, head, groupLen, o, start, full := EncodeByte(buf, size, data, i, maxlen, head, groupLen, o, start, full);
      if done {
        return;
      }
      i := i + 1;
    }
    // bufsize - 1 wraps for a size of 0
    var last := if size == 0 then o else Min(o, size - 1);
    if size > 0 {
      LoopEnds(buf[..size], data, i, head, groupLen, o, start, full, last);
    }
    ghost var was, whole := buf[..size], buf[..];
    buf[head] := groupLen;
    buf[last] := 0;
    assert size > 0 ==> buf[..size] == was[head := groupLen][last := 0];
    assert buf[..] == whole[head := groupLen][last := 0];
    return o + 1;
  }

  /**
   * cobs_decode: the decoding, cut to the buffer. `buf` and `data` may be one array, as they
   * are for cobs_decode_overwrite; the result is the same.
   */
  method DecodeInto(buf: array<byte>, data: array<byte>) returns (o: nat)
    modifies buf
    ensures o == Min(buf.Length, |Decode(old(data[..]))|)
    ensures buf[..o] == Decode(old(data[..]))[..o] && buf[o..] == old(buf[..])[o..]
  {
    hide Decoding, Decoded, Decode;
    ghost var src := data[..];
    o := 0;
    var groupLen, code := 0, 255;
    var i := 0;
    ghost var out := [];
    Starts(src);
    while i < data.Length && o < buf.Length
      invariant i <= data.Length && |out| == o <= buf.Length && code < 256
      invariant o < i || (i == 0 && o == 0 && code == 255 && groupLen == 0)
      invariant Decoding(src, i, groupLen, code, out)
      invariant forall j :: 0 <= j < o ==> buf[j] == out[j]
      invariant forall j :: i <= j < data.Length ==> data[j] == src[j]
      invariant forall j :: o <= j < buf.Length ==> buf[j] == old(buf[j])
    {
      if groupLen > 0 {
        Copies(src, i, groupLen, code, out);
        out := out + [src[i]];
        buf[o] := data[i];
        o := o + 1;
      } else {
        Reads(src, i, code, out);
        out := out + Zero(code);
        if code != 255 {
          buf[o] := 0;
          o := o + 1;
        }
        code := data[i];
        groupLen := code;
        if code == 0 {
          assert buf[..o] == out;
          return;
        }
      }
      groupLen := groupLen - 1;
      i := i + 1;
    }
    AllDecoded(src, i, groupLen, code, out);
    assert buf[..o] == out;
  }

  /** cobs_decode_overwrite */
  method DecodeOverwrite(inout: array<byte>) returns (n: nat)
    modifies inout
    ensures n == |Decode(old(inout[..]))|
    ensures inout[..n] == Decode(old(inout[..])) && inout[n..] == old(inout[..])[n..]
  {
    n := DecodeInto(inout, inout);
  }

  /** Encoding, cutting at the first zero and decoding in place gives the data back. */
  method Transfer(data: seq<byte>) returns (back: seq<byte>)
    ensures back == data
  {
    var buf := new byte[|data| + |data| / 254 + 2];
    var n := Encode(buf, buf.Length, data);
    assert buf[..buf.Length] == buf[..];
    Overhead(data);
    NoZero(data);
    var z := 0;
    while buf[z] != 0
      invariant z <= |Encoded(data)|
      decreases |Encoded(data)| - z
    {
      z := z + 1;
    }
    assert buf[..][..|Encoded(data)|] == Encoded(data);
    var body := new byte[z](j requires 0 <= j < z reads buf => buf[j]);
    assert body[..] == Encoded(data);
    RoundTrip(data);
    n := DecodeOverwrite(body);
    back := body[..n];
  }
}
