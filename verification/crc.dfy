/**
 * The shift registers behind modules/common/src/crc16.c and crc32.c, for a register of any
 * width, with the message fed most significant bit first or reflected.
 */
module CrcTheory {
  import opened Basics
  import opened Bits

  datatype Code = Code(width: nat, poly: nat, reflected: bool)
  {
    ghost predicate Valid() {
      width >= 8 && poly < Pow2(width)
    }

    /** The bit that the next turn shifts out. */
    predicate Out(x: nat)
      requires width > 0
    {
      if reflected then x % 2 == 1 else x >= Pow2(width - 1)
    }

    /** crc >> 1, or crc << 1 in `width` bits. */
    function Shifted(x: nat): nat {
      if reflected then x / 2 else Bottom(2 * x, Pow2(width))
    }

    /** One turn of the inner loop. */
    function Step(x: nat): nat
      requires width > 0
    {
      Fed(Shifted(x), Out(x), poly)
    }

    /** Where the n-th byte of a row of bytes sits in the register before the row is fed. */
    function Slot(n: nat, b: nat): nat
      requires reflected || 8 * n + 8 <= width
    {
      if reflected then b * Pow2(8 * n) else b * Pow2(width - 8 * n - 8)
    }
  }

  function Fed(x: nat, out: bool, poly: nat): nat {
    if out then Xor(x, poly) else x
  }

  /** The bits a register of `size` values keeps of a number that overflows it once. */
  function Bottom(x: nat, size: nat): nat {
    if x < size then x else x - size
  }

  function Iterate(c: Code, x: nat, n: nat): nat
    requires c.width >= 8
    decreases n, x
  {
    if n == 0 then x else c.Step(Iterate(c, x, n - 1))
  }

  /** The register after one byte, bit by bit. */
  function Feed(c: Code, crc: nat, b: byte): nat
    requires c.width >= 8
  {
    Iterate(c, Xor(crc, c.Slot(0, b)), 8)
  }

  /** The register after a message, bit by bit. */
  function Crc(c: Code, init: nat, msg: seq<byte>): nat
    requires c.width >= 8
  {
    if msg == [] then init else Feed(c, Crc(c, init, msg[..|msg| - 1]), msg[|msg| - 1])
  }

  // -------------------------------------------------------------------- exclusive-or

  lemma {:induction false} XorComm(a: nat, b: nat)
    ensures Xor(a, b) == Xor(b, a)
    decreases a + b
  {
    if a + b > 0 {
      XorComm(a / 2, b / 2);
    }
  }

  lemma {:induction false} XorAssoc(a: nat, b: nat, c: nat)
    ensures Xor(Xor(a, b), c) == Xor(a, Xor(b, c))
    decreases a + b + c
  {
    if a + b + c > 0 {
      XorAssoc(a / 2, b / 2, c / 2);
      XorHalves(a, b);
      XorHalves(b, c);
      XorHalves(Xor(a, b), c);
      XorHalves(a, Xor(b, c));
    }
  }

  lemma XorHalves(a: nat, b: nat)
    ensures Xor(a, b) / 2 == Xor(a / 2, b / 2)
    ensures Xor(a, b) % 2 == 1 <==> a % 2 != b % 2
  {
    if a + b > 0 {
    } else {
      assert Xor(0, 0) == 0;
    }
  }

  lemma XorDoubled(x: nat, i: nat, y: nat, j: nat)
    requires i < 2 && j < 2
    ensures Xor(2 * x + i, 2 * y + j) == 2 * Xor(x, y) + if i == j then 0 else 1
  {
    var a, b := 2 * x + i, 2 * y + j;
    XorHalves(a, b);
    assert a / 2 == x && b / 2 == y;
  }

  lemma {:induction false} XorNone(a: nat)
    ensures Xor(a, 0) == a && Xor(0, a) == a
  {
    if a > 0 {
      XorNone(a / 2);
    }
  }

  /** h * 2^k + l, from the low bits up. */
  ghost function Join(h: nat, l: nat, k: nat): nat {
    if k == 0 then h else 2 * Join(h, l / 2, k - 1) + l % 2
  }

  lemma {:induction false} JoinIs(h: nat, l: nat, k: nat)
    requires l < Pow2(k)
    ensures Join(h, l, k) == h * Pow2(k) + l
  {
    if k > 0 {
      JoinIs(h, l / 2, k - 1);
      Twice(h, Pow2(k - 1));
    }
  }

  lemma Twice(h: nat, q: nat)
    ensures h * (2 * q) == 2 * (h * q)
  {
  }

  lemma {:induction false} XorBound(a: nat, b: nat, k: nat)
    requires a < Pow2(k) && b < Pow2(k)
    ensures Xor(a, b) < Pow2(k)
    decreases k
  {
    if k == 0 {
      assert Xor(0, 0) == 0;
    } else {
      XorBound(a / 2, b / 2, k - 1);
      XorDoubled(a / 2, a % 2, b / 2, b % 2);
    }
  }

  lemma JoinStep(h: nat, l: nat, i: nat, k: nat)
    requires i < 2
    ensures Join(h, 2 * l + i, k + 1) == 2 * Join(h, l, k) + i
  {
    assert (2 * l + i) / 2 == l && (2 * l + i) % 2 == i;
  }

  lemma {:induction false} XorJoin(ah: nat, al: nat, bh: nat, bl: nat, k: nat)
    ensures Xor(Join(ah, al, k), Join(bh, bl, k)) == Join(Xor(ah, bh), Xor(al, bl), k)
    decreases k
  {
    if k > 0 {
      XorJoin(ah, al / 2, bh, bl / 2, k - 1);
      XorJoinStep(ah, al / 2, al % 2, bh, bl / 2, bl % 2, k - 1);
    }
  }

  lemma XorJoinStep(ah: nat, u: nat, i: nat, bh: nat, v: nat, j: nat, k: nat)
    requires i < 2 && j < 2
    requires Xor(Join(ah, u, k), Join(bh, v, k)) == Join(Xor(ah, bh), Xor(u, v), k)
    ensures Xor(Join(ah, 2 * u + i, k + 1), Join(bh, 2 * v + j, k + 1)) ==
            Join(Xor(ah, bh), Xor(2 * u + i, 2 * v + j), k + 1)
  {
    JoinStep(ah, u, i, k);
    JoinStep(bh, v, j, k);
    XorDoubled(Join(ah, u, k), i, Join(bh, v, k), j);
    XorDoubled(u, i, v, j);
    JoinStep(Xor(ah, bh), Xor(u, v), if i == j then 0 else 1, k);
  }

  /** Exclusive-or acts on the high and the low part of its arguments separately. */
  lemma XorParts(ah: nat, al: nat, bh: nat, bl: nat, k: nat)
    requires al < Pow2(k) && bl < Pow2(k)
    ensures Xor(al, bl) < Pow2(k)
    ensures Xor(ah * Pow2(k) + al, bh * Pow2(k) + bl) == Xor(ah, bh) * Pow2(k) + Xor(al, bl)
  {
    XorJoin(ah, al, bh, bl, k);
    XorBound(al, bl, k);
    JoinIs(ah, al, k);
    JoinIs(bh, bl, k);
    JoinIs(Xor(ah, bh), Xor(al, bl), k);
  }

  lemma XorUndo(x: nat, y: nat)
    ensures Xor(x, Xor(x, y)) == y
  {
    XorAssoc(x, x, y);
    XorZero(x, x);
    XorNone(y);
  }

  lemma XorCancel(x: nat, y: nat, z: nat)
    requires Xor(x, z) == Xor(y, z)
    ensures x == y
  {
    XorComm(x, z);
    XorComm(y, z);
    XorUndo(z, x);
    XorUndo(z, y);
  }

  lemma XorSwap(a: nat, b: nat, p: nat)
    ensures Xor(Xor(a, p), b) == Xor(Xor(a, b), p)
    ensures Xor(a, Xor(b, p)) == Xor(Xor(a, b), p)
    ensures Xor(Xor(a, p), Xor(b, p)) == Xor(a, b)
  {
    XorAssoc(a, b, p);
    XorAssoc(a, p, b);
    XorComm(p, b);
    XorAssoc(a, p, Xor(b, p));
    XorUndo(p, b);
  }

  // ------------------------------------------------------------------------ one turn

  lemma StepBound(c: Code, x: nat)
    requires c.Valid() && x < Pow2(c.width)
    ensures c.Step(x) < Pow2(c.width)
  {
    XorBound(c.Shifted(x), c.poly, c.width);
  }

  /** The top bit, and what is left when it is shifted out. */
  lemma TopOfXor(a: nat, b: nat, w: nat)
    requires w > 0 && a < Pow2(w) && b < Pow2(w)
    ensures Xor(a, b) >= Pow2(w - 1) <==> (a >= Pow2(w - 1)) != (b >= Pow2(w - 1))
    ensures Xor(a, b) < Pow2(w)
    ensures Bottom(2 * Xor(a, b), Pow2(w)) == Xor(Bottom(2 * a, Pow2(w)), Bottom(2 * b, Pow2(w)))
  {
    var h := Pow2(w - 1);
    var a', b' := Bottom(a, h), Bottom(b, h);
    XorWithTop(a', a >= h, b', b >= h, w - 1);
    XorTwice(a', b');
    BottomTwice(a, h);
    BottomTwice(b, h);
    BottomTwice(Xor(a, b), h);
  }

  lemma BottomTwice(x: nat, h: nat)
    ensures Bottom(2 * x, 2 * h) == 2 * Bottom(x, h)
  {
  }

  ghost function WithTop(x: nat, top: bool, k: nat): nat {
    if top then Pow2(k) + x else x
  }

  lemma XorWithTop(a: nat, s: bool, b: nat, t: bool, k: nat)
    requires a < Pow2(k) && b < Pow2(k)
    ensures Xor(WithTop(a, s, k), WithTop(b, t, k)) == WithTop(Xor(a, b), s != t, k)
    ensures Xor(a, b) < Pow2(k)
  {
    var i, j := if s then 1 else 0, if t then 1 else 0;
    XorBound(a, b, k);
    XorJoin(i, a, j, b, k);
    XorBits(i, j);
    JoinTop(i, a, k);
    JoinTop(j, b, k);
    JoinTop(if i == j then 0 else 1, Xor(a, b), k);
  }

  lemma JoinTop(i: nat, l: nat, k: nat)
    requires l < Pow2(k) && i < 2
    ensures Join(i, l, k) == WithTop(l, i == 1, k)
  {
    JoinIs(i, l, k);
  }

  lemma XorTwice(x: nat, y: nat)
    ensures Xor(2 * x, 2 * y) == 2 * Xor(x, y)
  {
    XorDoubled(x, 0, y, 0);
  }

  lemma XorBits(i: nat, j: nat)
    requires i < 2 && j < 2
    ensures Xor(i, j) == if i == j then 0 else 1
  {
    XorDoubled(0, i, 0, j);
  }

  lemma ShiftAdditive(c: Code, a: nat, b: nat)
    requires c.Valid() && a < Pow2(c.width) && b < Pow2(c.width)
    ensures c.Out(Xor(a, b)) <==> c.Out(a) != c.Out(b)
    ensures c.Shifted(Xor(a, b)) == Xor(c.Shifted(a), c.Shifted(b))
  {
    if c.reflected {
      XorHalves(a, b);
    } else {
      TopOfXor(a, b, c.width);
    }
  }

  /** A turn is linear over GF(2). */
  lemma StepAdditive(c: Code, a: nat, b: nat)
    requires c.Valid() && a < Pow2(c.width) && b < Pow2(c.width)
    ensures c.Step(Xor(a, b)) == Xor(c.Step(a), c.Step(b))
  {
    ShiftAdditive(c, a, b);
    Feedback(c.Shifted(a), c.Out(a), c.Shifted(b), c.Out(b), c.poly);
  }

  /** Adding the polynomial when a bit falls out is linear in the rest and that bit. */
  lemma Feedback(x: nat, s: bool, y: nat, t: bool, p: nat)
    ensures Fed(Xor(x, y), s != t, p) == Xor(Fed(x, s, p), Fed(y, t, p))
  {
    XorSwap(x, y, p);
  }

  /** The polynomial has its constant term. */
  predicate LastTerm(c: Code)
    requires c.width >= 8
  {
    if c.reflected then c.poly >= Pow2(c.width - 1) else c.poly % 2 == 1
  }

  /** With its constant term present, a turn can be undone. */
  lemma StepInjective(c: Code, a: nat, b: nat)
    requires c.Valid() && LastTerm(c) && a < Pow2(c.width) && b < Pow2(c.width)
    requires c.Step(a) == c.Step(b)
    ensures a == b
  {
    OutShows(c, a);
    OutShows(c, b);
    if c.Out(a) {
      XorCancel(c.Shifted(a), c.Shifted(b), c.poly);
    }
  }

  /** The bit that fell out can be read off the result. */
  lemma OutShows(c: Code, a: nat)
    requires c.Valid() && LastTerm(c) && a < Pow2(c.width)
    ensures c.Out(a) <==> if c.reflected then c.Step(a) >= Pow2(c.width - 1) else c.Step(a) % 2 == 1
  {
    if c.reflected {
      TopOfXor(a / 2, c.poly, c.width);
    } else {
      XorHalves(Bottom(2 * a, Pow2(c.width)), c.poly);
    }
  }

  lemma {:induction false} IterateBound(c: Code, x: nat, n: nat)
    requires c.Valid() && x < Pow2(c.width)
    ensures Iterate(c, x, n) < Pow2(c.width)
  {
    if n > 0 {
      IterateBound(c, x, n - 1);
      StepBound(c, Iterate(c, x, n - 1));
    }
  }

  lemma {:induction false} IterateAdditive(c: Code, a: nat, b: nat, n: nat)
    requires c.Valid() && a < Pow2(c.width) && b < Pow2(c.width)
    ensures Iterate(c, Xor(a, b), n) == Xor(Iterate(c, a, n), Iterate(c, b, n))
  {
    if n > 0 {
      IterateAdditive(c, a, b, n - 1);
      IterateBound(c, a, n - 1);
      IterateBound(c, b, n - 1);
      StepAdditive(c, Iterate(c, a, n - 1), Iterate(c, b, n - 1));
    }
  }

  lemma {:induction false} IterateInjective(c: Code, a: nat, b: nat, n: nat)
    requires c.Valid() && LastTerm(c) && a < Pow2(c.width) && b < Pow2(c.width)
    requires Iterate(c, a, n) == Iterate(c, b, n)
    ensures a == b
  {
    if n > 0 {
      IterateBound(c, a, n - 1);
      IterateBound(c, b, n - 1);
      StepInjective(c, Iterate(c, a, n - 1), Iterate(c, b, n - 1));
      IterateInjective(c, a, b, n - 1);
    }
  }

  lemma {:induction false} IterateAdd(c: Code, x: nat, m: nat, n: nat)
    requires c.width >= 8
    ensures Iterate(c, Iterate(c, x, m), n) == Iterate(c, x, m + n)
  {
    if n > 0 {
      IterateAdd(c, x, m, n - 1);
    }
  }

  // ------------------------------------------------------------- bits that only move

  /** A short number moves up whole. */
  lemma {:induction false} MoveUp(c: Code, x: nat, n: nat)
    requires c.Valid() && !c.reflected && n <= c.width && x < Pow2(c.width - n)
    ensures Iterate(c, x, n) == x * Pow2(n)
  {
    if n > 0 {
      MoveUp(c, x, n - 1);
      StaysShort(x, n - 1, c.width - 1);
      Twice(x, Pow2(n - 1));
    }
  }

  lemma StaysShort(x: nat, n: nat, w: nat)
    requires n <= w && x < Pow2(w - n)
    ensures x * Pow2(n) < Pow2(w)
  {
    Pow2Divides(n, w);
    MulMonotone(Pow2(n), x + 1, Pow2(w - n));
    assert Pow2(n) * (x + 1) == x * Pow2(n) + Pow2(n);
  }

  lemma {:induction false} MoveDown(c: Code, x: nat, n: nat)
    requires c.Valid() && c.reflected
    ensures Iterate(c, x * Pow2(n), n) == x
    decreases n
  {
    if n > 0 {
      Twice(x, Pow2(n - 1));
      assert x * Pow2(n) == (2 * x) * Pow2(n - 1);
      MoveDown(c, 2 * x, n - 1);
    }
  }

  /** A later byte of a row reaches the entry of the register when its turn comes. */
  lemma SlotArrives(c: Code, n: nat, b: byte)
    requires c.Valid() && 8 * n + 8 <= c.width
    ensures c.Slot(n, b) < Pow2(c.width) && Iterate(c, c.Slot(n, b), 8 * n) == c.Slot(0, b)
  {
    Sizes();
    if c.reflected {
      MoveDown(c, b, 8 * n);
      StaysShort(b, 8 * n, 8 * n + 8);
      Pow2Monotone(8 * n + 8, c.width);
    } else {
      var k := c.width - 8 * n - 8;
      StaysShort(b, k, k + 8);
      Pow2Monotone(k + 8, c.width);
      MoveUp(c, c.Slot(n, b), 8 * n);
      MovedBy(b, k, 8 * n);
    }
  }

  lemma MovedBy(b: nat, k: nat, n: nat)
    ensures b * Pow2(k) * Pow2(n) == b * Pow2(k + n)
  {
    Pow2Divides(k, k + n);
    var p, q := Pow2(k), Pow2(n);
    assert b * p * q == b * (p * q);
  }

  // ------------------------------------------------------------------ a row of bytes

  /** The register content that stands for a row of bytes not yet fed. */
  ghost function Row(c: Code, bs: seq<byte>): nat
    requires 8 * |bs| <= c.width
  {
    if bs == [] then 0 else Xor(Row(c, bs[..|bs| - 1]), c.Slot(|bs| - 1, bs[|bs| - 1]))
  }

  lemma {:induction false} RowBound(c: Code, bs: seq<byte>)
    requires c.Valid() && 8 * |bs| <= c.width
    ensures Row(c, bs) < Pow2(c.width)
  {
    if bs != [] {
      var k := |bs| - 1;
      RowBound(c, bs[..k]);
      SlotArrives(c, k, bs[k]);
      XorBound(Row(c, bs[..k]), c.Slot(k, bs[k]), c.width);
    }
  }

  /** Feeding a row byte by byte is adding it whole and then turning the register. */
  lemma {:induction false} FeedRow(c: Code, x: nat, bs: seq<byte>)
    requires c.Valid() && x < Pow2(c.width) && 8 * |bs| <= c.width
    ensures Crc(c, x, bs) == Iterate(c, Xor(x, Row(c, bs)), 8 * |bs|)
  {
    if bs == [] {
      XorNone(x);
    } else {
      var k := |bs| - 1;
      var r, s := Row(c, bs[..k]), c.Slot(k, bs[k]);
      FeedRow(c, x, bs[..k]);
      RowBound(c, bs[..k]);
      XorBound(x, r, c.width);
      SlotArrives(c, k, bs[k]);
      IterateAdditive(c, Xor(x, r), s, 8 * k);
      XorAssoc(x, r, s);
      IterateAdd(c, Xor(x, Row(c, bs)), 8 * k, 8);
    }
  }

  // --------------------------------------------------- rows and register contents match

  lemma {:induction false} RowReflected(c: Code, bs: seq<byte>)
    requires c.Valid() && c.reflected && 8 * |bs| <= c.width
    ensures Row(c, bs) < Pow2(8 * |bs|)
    ensures bs != [] ==>
              && Row(c, bs[..|bs| - 1]) < Pow2(8 * |bs| - 8)
              && Row(c, bs) == bs[|bs| - 1] * Pow2(8 * |bs| - 8) + Row(c, bs[..|bs| - 1])
  {
    if bs != [] {
      var k := |bs| - 1;
      var r, b := Row(c, bs[..k]), bs[k];
      RowReflected(c, bs[..k]);
      ByteOnTop(r, b, 8 * k);
    }
  }

  lemma ByteOnTop(r: nat, b: byte, k: nat)
    requires r < Pow2(k)
    ensures Xor(r, b * Pow2(k)) == b * Pow2(k) + r < Pow2(k + 8)
  {
    XorJoin(0, r, b, 0, k);
    JoinLow(r, k);
    JoinIs(b, 0, k);
    XorNone(r);
    XorNone(b);
    JoinIs(b, r, k);
    TopRoom(r, b, k);
  }

  lemma JoinLow(r: nat, k: nat)
    requires r < Pow2(k)
    ensures Join(0, r, k) == r
  {
    JoinIs(0, r, k);
  }

  lemma TopRoom(r: nat, b: byte, k: nat)
    requires r < Pow2(k)
    ensures b * Pow2(k) + r < Pow2(k + 8)
  {
    Sizes();
    Pow2Divides(k, k + 8);
    var p := Pow2(k);
    MulMonotone(p, b + 1, 256);
    assert p * (b + 1) == b * p + p;
  }

  /** The number a row of bytes spells, first byte first. */
  ghost function Spelled(bs: seq<byte>): nat {
    if bs == [] then 0 else 256 * Spelled(bs[..|bs| - 1]) + bs[|bs| - 1]
  }

  lemma {:induction false} RowForward(c: Code, bs: seq<byte>)
    requires c.Valid() && !c.reflected && 8 * |bs| <= c.width
    ensures Row(c, bs) == Spelled(bs) * Pow2(c.width - 8 * |bs|)
  {
    if bs != [] {
      var k := |bs| - 1;
      var v, b, e := Spelled(bs[..k]), bs[k], c.width - 8 * |bs|;
      RowForward(c, bs[..k]);
      ByteBelow(v, b, e);
    }
  }

  lemma ByteBelow(v: nat, b: byte, e: nat)
    ensures Xor(v * Pow2(e + 8), b * Pow2(e)) == (256 * v + b) * Pow2(e)
  {
    Sizes();
    MovedBy(v, 8, e);
    XorParts(v * 256, 0, b, 0, e);
    XorParts(v, 0, 0, b, 8);
    XorNone(v);
    XorNone(b);
    XorNone(0);
  }

  lemma {:induction false} SpelledInjective(u: seq<byte>, v: seq<byte>)
    requires |u| == |v| && Spelled(u) == Spelled(v)
    ensures u == v
  {
    if u != [] {
      var k := |u| - 1;
      SpelledInjective(u[..k], v[..k]);
      assert u == u[..k] + [u[k]] && v == v[..k] + [v[k]];
    }
  }

  lemma {:induction false} RowReflectedInjective(c: Code, u: seq<byte>, v: seq<byte>)
    requires c.Valid() && c.reflected && |u| == |v| && 8 * |u| <= c.width && Row(c, u) == Row(c, v)
    ensures u == v
  {
    if u != [] {
      var k := |u| - 1;
      RowReflected(c, u);
      RowReflected(c, v);
      SameParts(u[k], Row(c, u[..k]), v[k], Row(c, v[..k]), Pow2(8 * k));
      RowReflectedInjective(c, u[..k], v[..k]);
      assert u == u[..k] + [u[k]] && v == v[..k] + [v[k]];
    }
  }

  lemma SameParts(a: nat, r: nat, b: nat, s: nat, p: nat)
    requires r < p && s < p && a * p + r == b * p + s
    ensures a == b && r == s
  {
    DivideUnique(a * p + r, p, a, r);
    DivideUnique(b * p + s, p, b, s);
  }

  /** Different rows stand for different register contents. */
  lemma RowInjective(c: Code, u: seq<byte>, v: seq<byte>)
    requires c.Valid() && |u| == |v| && 8 * |u| <= c.width && Row(c, u) == Row(c, v)
    ensures u == v
  {
    if c.reflected {
      RowReflectedInjective(c, u, v);
    } else {
      RowForward(c, u);
      RowForward(c, v);
      SameParts(Spelled(u), 0, Spelled(v), 0, Pow2(c.width - 8 * |u|));
      SpelledInjective(u, v);
    }
  }

  lemma {:induction false} Spell(v: nat, n: nat) returns (bs: seq<byte>)
    requires v < Pow2(8 * n)
    ensures |bs| == n && Spelled(bs) == v
  {
    if n == 0 {
      bs := [];
    } else {
      Sizes();
      Pow2Divides(8, 8 * n);
      bs := Spell(v / 256, n - 1);
      bs := bs + [v % 256];
      assert bs[..n - 1] == bs[..|bs| - 1];
    }
  }

  lemma {:induction false} SpellReflected(c: Code, v: nat, n: nat) returns (bs: seq<byte>)
    requires c.Valid() && c.reflected && 8 * n <= c.width && v < Pow2(8 * n)
    ensures |bs| == n && Row(c, bs) == v
  {
    if n == 0 {
      bs := [];
    } else {
      var p := Pow2(8 * n - 8);
      ByteAndRest(v, 8 * n - 8);
      var q, r := v / p, v % p;
      var front := SpellReflected(c, r, n - 1);
      RowGrows(c, front, q);
      bs := front + [q];
    }
  }

  lemma RowGrows(c: Code, front: seq<byte>, b: byte)
    requires c.Valid() && c.reflected && 8 * |front| + 8 <= c.width
    ensures Row(c, front + [b]) == b * Pow2(8 * |front|) + Row(c, front)
  {
    var k := 8 * |front|;
    assert (front + [b])[..|front|] == front;
    RowReflected(c, front);
    ByteOnTop(Row(c, front), b, k);
  }

  lemma ByteAndRest(v: nat, k: nat)
    requires v < Pow2(k + 8)
    ensures var p := Pow2(k); v / p < 256 && 0 <= v % p < p && v == v / p * p + v % p
  {
    Sizes();
    Pow2Divides(k, k + 8);
    Below(v, Pow2(k));
  }

  lemma Below(v: nat, p: nat)
    requires p >= 1 && v < p * 256
    ensures v / p < 256 && 0 <= v % p < p && v == v / p * p + v % p
  {
    var q, r := v / p, v % p;
    assert v == p * q + r;
    if q >= 256 {
      MulMonotone(p, 256, q);
    }
  }

  /** Every register content is the row of some bytes. */
  lemma RowOf(c: Code, v: nat) returns (bs: seq<byte>)
    requires c.Valid() && c.width % 8 == 0 && v < Pow2(c.width)
    ensures 8 * |bs| == c.width && Row(c, bs) == v
  {
    if c.reflected {
      bs := SpellReflected(c, v, c.width / 8);
    } else {
      bs := Spell(v, c.width / 8);
      RowForward(c, bs);
    }
  }

  // ------------------------------------------------------------------- whole messages

  lemma {:induction false} CrcConcat(c: Code, init: nat, m: seq<byte>, n: seq<byte>)
    requires c.width >= 8
    ensures Crc(c, init, m + n) == Crc(c, Crc(c, init, m), n)
  {
    if n == [] {
      assert m + n == m;
    } else {
      var k := |n| - 1;
      assert (m + n)[..|m + n| - 1] == m + n[..k];
      CrcConcat(c, init, m, n[..k]);
    }
  }

  lemma {:induction false} CrcBound(c: Code, init: nat, m: seq<byte>)
    requires c.Valid() && init < Pow2(c.width)
    ensures Crc(c, init, m) < Pow2(c.width)
  {
    if m != [] {
      var k := |m| - 1;
      CrcBound(c, init, m[..k]);
      SlotArrives(c, 0, m[k]);
      XorBound(Crc(c, init, m[..k]), c.Slot(0, m[k]), c.width);
      IterateBound(c, Xor(Crc(c, init, m[..k]), c.Slot(0, m[k])), 8);
    }
  }

  /** A difference in the register survives every message. */
  lemma {:induction false} CrcInjective(c: Code, x: nat, y: nat, m: seq<byte>)
    requires c.Valid() && LastTerm(c) && x < Pow2(c.width) && y < Pow2(c.width)
    requires Crc(c, x, m) == Crc(c, y, m)
    ensures x == y
  {
    if m != [] {
      var k := |m| - 1;
      var u, v, s := Crc(c, x, m[..k]), Crc(c, y, m[..k]), c.Slot(0, m[k]);
      CrcBound(c, x, m[..k]);
      CrcBound(c, y, m[..k]);
      SlotArrives(c, 0, m[k]);
      XorBound(u, s, c.width);
      XorBound(v, s, c.width);
      IterateInjective(c, Xor(u, s), Xor(v, s), 8);
      XorCancel(u, v, s);
      CrcInjective(c, x, y, m[..k]);
    }
  }

  // --------------------------------------------------------------- what the code detects

  /** The messages have one length and agree except within `n` bytes from `k` on. */
  ghost predicate AgreeOutside(u: seq<byte>, v: seq<byte>, k: nat, n: nat) {
    |u| == |v| && forall i :: 0 <= i < |u| && !(k <= i < k + n) ==> u[i] == v[i]
  }

  /** No difference confined to a register's worth of adjacent bytes goes unnoticed. */
  ghost predicate Detects(c: Code, init: nat)
    requires c.width >= 8
  {
    forall u, v, k :: AgreeOutside(u, v, k, c.width / 8) && Crc(c, init, u) == Crc(c, init, v) ==> u == v
  }

  lemma RowSeen(c: Code, x: nat, u: seq<byte>, v: seq<byte>, q: seq<byte>)
    requires c.Valid() && LastTerm(c) && x < Pow2(c.width) && |u| == |v| && 8 * |u| <= c.width
    requires Crc(c, x, u + q) == Crc(c, x, v + q)
    ensures u == v
  {
    CrcConcat(c, x, u, q);
    CrcConcat(c, x, v, q);
    CrcBound(c, x, u);
    CrcBound(c, x, v);
    CrcInjective(c, Crc(c, x, u), Crc(c, x, v), q);
    RowBack(c, x, u, v);
  }

  lemma RowBack(c: Code, x: nat, u: seq<byte>, v: seq<byte>)
    requires c.Valid() && LastTerm(c) && x < Pow2(c.width) && |u| == |v| && 8 * |u| <= c.width
    ensures Crc(c, x, u) == Crc(c, x, v) ==> u == v
  {
    if Crc(c, x, u) == Crc(c, x, v) {
      var r, s := Row(c, u), Row(c, v);
      FeedRow(c, x, u);
      FeedRow(c, x, v);
      RowBound(c, u);
      RowBound(c, v);
      XorBound(x, r, c.width);
      XorBound(x, s, c.width);
      IterateInjective(c, Xor(x, r), Xor(x, s), 8 * |u|);
      XorUndo(x, r);
      XorUndo(x, s);
      RowInjective(c, u, v);
    }
  }

  lemma BurstSeen(c: Code, init: nat, u: seq<byte>, v: seq<byte>, k: nat)
    requires c.Valid() && LastTerm(c) && init < Pow2(c.width)
    requires AgreeOutside(u, v, k, c.width / 8) && Crc(c, init, u) == Crc(c, init, v)
    ensures u == v
  {
    if k < |u| {
      var e := if k + c.width / 8 < |u| then k + c.width / 8 else |u|;
      CutOut(c, init, u, k, e);
      CutOut(c, init, v, k, e);
      CrcBound(c, init, u[..k]);
      SameAround(u, v, k, e);
      RowSeen(c, Crc(c, init, u[..k]), u[k..e], v[k..e], u[e..]);
    }
  }

  lemma SameAround(u: seq<byte>, v: seq<byte>, k: nat, e: nat)
    requires |u| == |v| && k <= e <= |u|
    requires forall i :: 0 <= i < |u| && !(k <= i < e) ==> u[i] == v[i]
    ensures u[..k] == v[..k] && u[e..] == v[e..] && (u[k..e] == v[k..e] ==> u == v)
  {
    assert u == u[..k] + u[k..e] + u[e..] && v == v[..k] + v[k..e] + v[e..];
  }

  lemma CutOut(c: Code, init: nat, u: seq<byte>, k: nat, e: nat)
    requires c.width >= 8 && k <= e <= |u|
    ensures Crc(c, init, u) == Crc(c, Crc(c, init, u[..k]), u[k..e] + u[e..])
  {
    assert u == u[..k] + (u[k..e] + u[e..]);
    CrcConcat(c, init, u[..k], u[k..e] + u[e..]);
  }

  /** Without its constant term the polynomial turns this register content into zero. */
  function Lost(c: Code): nat
    requires c.width >= 8
  {
    if c.reflected then 2 * c.poly + 1 else Pow2(c.width - 1) + c.poly / 2
  }

  lemma LostVanishes(c: Code)
    requires c.Valid() && !LastTerm(c)
    ensures 0 < Lost(c) < Pow2(c.width) && c.Step(Lost(c)) == 0
  {
    XorZero(c.poly, c.poly);
    assert c.Shifted(Lost(c)) == c.poly;
  }

  lemma {:induction false} ZeroStays(c: Code, x: nat, n: nat)
    requires c.Valid() && n > 0 && c.Step(x) == 0
    ensures Iterate(c, x, n) == 0
  {
    if n > 1 {
      ZeroStays(c, x, n - 1);
      Pow2Monotone(0, c.width - 1);
    } else {
      assert Iterate(c, x, 0) == x;
    }
  }

  /** Then two rows give the same code. */
  lemma BurstMissed(c: Code, init: nat) returns (u: seq<byte>, v: seq<byte>)
    requires c.Valid() && c.width % 8 == 0 && !LastTerm(c) && init < Pow2(c.width)
    ensures u != v && AgreeOutside(u, v, 0, c.width / 8) && Crc(c, init, u) == Crc(c, init, v)
  {
    LostVanishes(c);
    u := RowOf(c, Lost(c));
    v := RowOf(c, 0);
    FeedRow(c, init, u);
    FeedRow(c, init, v);
    XorNone(init);
    IterateAdditive(c, init, Lost(c), c.width);
    ZeroStays(c, Lost(c), c.width);
    XorNone(Iterate(c, init, c.width));
  }

  /** Bursts are detected exactly by the polynomials that have their constant term. */
  lemma DetectsExactly(c: Code, init: nat)
    requires c.Valid() && c.width % 8 == 0 && init < Pow2(c.width)
    ensures Detects(c, init) <==> LastTerm(c)
  {
    if LastTerm(c) {
      forall u, v, k | AgreeOutside(u, v, k, c.width / 8) && Crc(c, init, u) == Crc(c, init, v) ensures u == v {
        BurstSeen(c, init, u, v, k);
      }
    } else {
      var u, v := BurstMissed(c, init);
    }
  }

  /** A message followed by a row checks to zero exactly when the row is its code. */
  lemma Residue(c: Code, init: nat, m: seq<byte>, bs: seq<byte>)
    requires c.Valid() && LastTerm(c) && init < Pow2(c.width) && 8 * |bs| == c.width
    ensures Crc(c, init, m + bs) == 0 <==> Row(c, bs) == Crc(c, init, m)
  {
    var x, r := Crc(c, init, m), Row(c, bs);
    CrcConcat(c, init, m, bs);
    CrcBound(c, init, m);
    FeedRow(c, x, bs);
    RowBound(c, bs);
    XorBound(x, r, c.width);
    XorZero(x, r);
    ZeroFixed(c);
    ZeroStays(c, 0, c.width);
    if Crc(c, init, m + bs) == 0 {
      IterateInjective(c, Xor(x, r), 0, c.width);
    }
  }

  lemma ZeroFixed(c: Code)
    requires c.Valid()
    ensures c.Step(0) == 0
  {
    Pow2Monotone(0, c.width - 1);
  }

  // ----------------------------------------------------------------------------- tables

  function TableEntry(c: Code, i: byte): nat
    requires c.width >= 8
  {
    Iterate(c, c.Slot(0, i), 8)
  }

  /** What the tables hold: entry i is the register after eight turns from byte i. */
  ghost predicate IsTable(c: Code, table: seq<nat>)
    requires c.width >= 8
  {
    |table| == 256 && forall i: byte :: table[i] == TableEntry(c, i)
  }

  lemma ByteXor(a: byte, b: byte)
    ensures Xor(a, b) < 256
  {
    Sizes();
    XorBound(a, b, 8);
  }

  lemma SplitEntry(h: byte, l: nat, b: byte, k: nat)
    requires l < Pow2(k)
    ensures Xor(h, b) < 256
    ensures Xor(h * Pow2(k) + l, b * Pow2(k)) == Xor(l, Xor(h, b) * Pow2(k))
  {
    ByteXor(h, b);
    XorParts(h, l, b, 0, k);
    XorNone(l);
    ByteOnTop(l, Xor(h, b), k);
  }

  /** One look-up does the work of eight turns, most significant bit first. */
  lemma LookUp(c: Code, h: byte, l: nat, b: byte)
    requires c.Valid() && !c.reflected && l < Pow2(c.width - 8)
    ensures Xor(h, b) < 256
    ensures Feed(c, h * Pow2(c.width - 8) + l, b) == Xor(l * 256, TableEntry(c, Xor(h, b)))
  {
    SplitEntry(h, l, b, c.width - 8);
    var x: byte := Xor(h, b);
    SlotArrives(c, 0, x);
    LowPart(c, l, c.Slot(0, x));
  }

  lemma LowPart(c: Code, l: nat, s: nat)
    requires c.Valid() && !c.reflected && l < Pow2(c.width - 8) && s < Pow2(c.width)
    ensures Iterate(c, Xor(l, s), 8) == Xor(l * 256, Iterate(c, s, 8))
  {
    Pow2Monotone(c.width - 8, c.width);
    IterateAdditive(c, l, s, 8);
    MoveUp(c, l, 8);
    Sizes();
  }

  lemma SplitEntryReflected(h: nat, l: byte, b: byte)
    ensures Xor(l, b) < 256 && Xor(h * 256 + l, b) == h * 256 + Xor(l, b) == Xor(h * 256, Xor(l, b))
  {
    ByteXor(l, b);
    XorByte(h, l, b);
    XorByte(h, 0, Xor(l, b));
    XorNone(Xor(l, b));
  }

  lemma XorByte(h: nat, l: byte, b: byte)
    ensures Xor(h * 256 + l, b) == h * 256 + Xor(l, b)
  {
    Sizes();
    XorParts(h, l, 0, b, 8);
    XorNone(h);
  }

  /** The same, reflected. */
  lemma LookUpReflected(c: Code, h: nat, l: byte, b: byte)
    requires c.Valid() && c.reflected && h * 256 + l < Pow2(c.width)
    ensures Xor(l, b) < 256 && Xor(h * 256 + l, b) == h * 256 + Xor(l, b)
    ensures Feed(c, h * 256 + l, b) == Xor(h, TableEntry(c, Xor(l, b)))
  {
    SplitEntryReflected(h, l, b);
    var x: byte := Xor(l, b);
    SlotArrives(c, 0, x);
    Unshifted(c, x);
    Unshifted(c, b);
    IterateAdditive(c, h * 256, x, 8);
    Sizes();
    MoveDown(c, h, 8);
  }

  lemma Unshifted(c: Code, b: byte)
    requires c.Valid() && c.reflected
    ensures c.Slot(0, b) == b
  {
    assert Pow2(0) == 1;
  }
}
