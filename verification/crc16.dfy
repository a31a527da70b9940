/** CRC-16 (modules/common/src/crc16.c): XMODEM and MODBUS. */
module Crc16 {
  import opened Basics
  import opened Bits
  import opened CrcTheory

  type word = x: nat | x < 0x1_0000

  function Forward(poly: word): Code {
    Code(16, poly, false)
  }

  function Reflected(poly: word): Code {
    Code(16, poly, true)
  }

  lemma Entry(poly: word, crc: word, c: byte)
    ensures Forward(poly).Slot(0, c) == c * 256 && Xor(crc, c * 256) < 0x1_0000
    ensures Reflected(poly).Slot(0, c) == c && Xor(crc, c) < 0x1_0000
  {
    Sizes();
    XorBound(crc, c * 256, 16);
    XorBound(crc, c, 16);
  }

  lemma TurnLeft(poly: word, crc: word)
    ensures Forward(poly).Valid()
    ensures Forward(poly).Step(crc) == if crc >= 0x8000 then Xor(2 * crc % 0x1_0000, poly) else 2 * crc
    ensures Forward(poly).Step(crc) < 0x1_0000
  {
    Sizes();
    StepBound(Forward(poly), crc);
    if crc >= 0x8000 {
      DivideUnique(2 * crc, 0x1_0000, 1, 2 * crc - 0x1_0000);
    }
  }

  lemma TurnRight(poly: word, crc: word)
    ensures Reflected(poly).Valid()
    ensures Reflected(poly).Step(crc) == if crc % 2 == 1 then Xor(crc / 2, poly) else crc / 2
    ensures Reflected(poly).Step(crc) < 0x1_0000
  {
    Sizes();
    StepBound(Reflected(poly), crc);
  }

  /** update */
  method Update(poly: word, crc: word, c: byte) returns (r: word)
    ensures r == Feed(Forward(poly), crc, c)
  {
    Entry(poly, crc, c);
    r := Xor(crc, c * 256);
    ghost var start := r;
    for i := 0 to 8
      invariant r == Iterate(Forward(poly), start, i)
    {
      TurnLeft(poly, r);
      if r >= 0x8000 {
        r := Xor(2 * r % 0x1_0000, poly);
      } else {
        r := 2 * r;
      }
    }
  }

  /** update_reverse, which crc16_update offers for every polynomial. */
  method UpdateReverse(poly: word, crc: word, c: byte) returns (r: word)
    ensures r == Feed(Reflected(poly), crc, c)
  {
    Entry(poly, crc, c);
    r := Xor(crc, c);
    ghost var start := r;
    for i := 0 to 8
      invariant r == Iterate(Reflected(poly), start, i)
    {
      TurnRight(poly, r);
      if r % 2 == 1 {
        r := Xor(r / 2, poly);
      } else {
        r := r / 2;
      }
    }
  }

  /** crc16_modbus */
  method Modbus(data: seq<byte>) returns (crc: word)
    ensures crc == Crc(Reflected(0xA001), 0xFFFF, data)
  {
    crc := 0xFFFF;
    for i := 0 to |data|
      invariant crc == Crc(Reflected(0xA001), 0xFFFF, data[..i])
    {
      assert data[..i + 1][..i] == data[..i];
      crc := UpdateReverse(0xA001, crc, data[i]);
    }
    assert data[..|data|] == data;
  }

  /** crc16_xmodem */
  method Xmodem(data: seq<byte>) returns (crc: word)
    ensures crc == Crc(Forward(0x1021), 0, data)
  {
    crc := 0;
    for i := 0 to |data|
      invariant crc == Crc(Forward(0x1021), 0, data[..i])
    {
      assert data[..i + 1][..i] == data[..i];
      crc := Update(0x1021, crc, data[i]);
    }
    assert data[..|data|] == data;
  }

  /** Messages that differ only within two adjacent bytes never share a checksum. */
  lemma TwoBytes(u: seq<byte>, v: seq<byte>, k: nat)
    requires u != v && AgreeOutside(u, v, k, 2)
    ensures Crc(Forward(0x1021), 0, u) != Crc(Forward(0x1021), 0, v)
    ensures Crc(Reflected(0xA001), 0xFFFF, u) != Crc(Reflected(0xA001), 0xFFFF, v)
  {
    Sizes();
    if Crc(Forward(0x1021), 0, u) == Crc(Forward(0x1021), 0, v) {
      BurstSeen(Forward(0x1021), 0, u, v, k);
    }
    if Crc(Reflected(0xA001), 0xFFFF, u) == Crc(Reflected(0xA001), 0xFFFF, v) {
      BurstSeen(Reflected(0xA001), 0xFFFF, u, v, k);
    }
  }

  /** crc16_update run over messages notices two adjacent bytes for exactly these polynomials. */
  lemma UpdateDetects(poly: word, init: word)
    ensures Detects(Reflected(poly), init) <==> poly >= 0x8000
  {
    Sizes();
    DetectsExactly(Reflected(poly), init);
  }

  /** A frame of message and checksum, high byte first, checks to zero, and no other does. */
  lemma XmodemFrame(m: seq<byte>, high: byte, low: byte)
    ensures Crc(Forward(0x1021), 0, m + [high, low]) == 0 <==> Crc(Forward(0x1021), 0, m) == 256 * high + low
  {
    Sizes();
    Residue(Forward(0x1021), 0, m, [high, low]);
    RowForward(Forward(0x1021), [high, low]);
    assert [high, low][..1] == [high] && [high][..0] == [];
    assert Spelled([high]) == high;
  }

  /** MODBUS sends the low byte first. */
  lemma ModbusFrame(m: seq<byte>, low: byte, high: byte)
    ensures Crc(Reflected(0xA001), 0xFFFF, m + [low, high]) == 0 <==>
            Crc(Reflected(0xA001), 0xFFFF, m) == 256 * high + low
  {
    Sizes();
    Residue(Reflected(0xA001), 0xFFFF, m, [low, high]);
    RowReflected(Reflected(0xA001), [low, high]);
    RowReflected(Reflected(0xA001), [low]);
    assert [low, high][..1] == [low] && [low][..0] == [];
  }
}
