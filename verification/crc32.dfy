/**
 * CRC-32 (modules/common/src/crc32.c): the bit-by-bit and the table-driven computations,
 * most significant bit first and reflected.
 */
module Crc32 {
  import opened Basics
  import opened Bits
  import opened CrcTheory

  type word = x: nat | x < 0x1_0000_0000

  function Forward(poly: word): Code {
    Code(32, poly, false)
  }

  function Reflected(poly: word): Code {
    Code(32, poly, true)
  }

  /** One turn of the loops that shift left. */
  lemma TurnLeft(poly: word, crc: word)
    ensures Forward(poly).Valid()
    ensures Forward(poly).Step(crc) == if crc >= 0x8000_0000 then Xor(2 * crc % 0x1_0000_0000, poly) else 2 * crc
    ensures Forward(poly).Step(crc) < 0x1_0000_0000
  {
    hide Xor, Pow2;
    Sizes();
    StepBound(Forward(poly), crc);
  }

  /** One turn of the loops that shift right. */
  lemma TurnRight(poly: word, crc: word)
    ensures Reflected(poly).Valid()
    ensures Reflected(poly).Step(crc) == if crc % 2 == 1 then Xor(crc / 2, poly) else crc / 2
    ensures Reflected(poly).Step(crc) < 0x1_0000_0000
  {
    hide Xor, Pow2;
    Sizes();
    StepBound(Reflected(poly), crc);
  }

  /** A byte enters the register. */
  lemma Entry(poly: word, crc: word, c: byte)
    ensures Forward(poly).Slot(0, c) == c * 0x100_0000 && Xor(crc, c * 0x100_0000) < 0x1_0000_0000
    ensures Reflected(poly).Slot(0, c) == c && Xor(crc, c) < 0x1_0000_0000
  {
    Sizes();
    XorBound(crc, c * 0x100_0000, 32);
    XorBound(crc, c, 32);
  }

  /** update */
  method Update(poly: word, crc: word, c: byte) returns (r: word)
    ensures r == Feed(Forward(poly), crc, c)
  {
    Entry(poly, crc, c);
    r := Xor(crc, c * 0x100_0000);
    ghost var start := r;
    for i := 0 to 8
      invariant r == Iterate(Forward(poly), start, i)
    {
      TurnLeft(poly, r);
      if r >= 0x8000_0000 {
        r := Xor(2 * r % 0x1_0000_0000, poly);
      } else {
        r := 2 * r;
      }
    }
  }

  /** update_reverse */
  method UpdateReverse(poly: word, crc: word, c: byte) returns (r: word)
    ensures r == Feed(Reflected(poly), crc, c)
  {
    Entry(poly, crc, c);
    r := Xor(crc, c);
    ghost var start := r;
    for i := 0 to 8
      invariant r == Iterate(Reflected(poly), start, i)
    {
      TurnRight(poly, r);
      if r % 2 == 1 {
        r := Xor(r / 2, poly);
      } else {
        r := r / 2;
      }
    }
  }

  /** crc32_generate_table */
  method GenerateTable(poly: word, table: array<word>)
    requires table.Length == 256
    modifies table
    ensures IsTable(Forward(poly), table[..])
  {
    for i := 0 to 256
      invariant forall k: byte :: k < i ==> table[k] == TableEntry(Forward(poly), k)
    {
      var crc := GenerateEntry(poly, i);
      table[i] := crc;
    }
  }

  /** The body of crc32_generate_table's outer loop. */
  method GenerateEntry(poly: word, i: byte) returns (crc: word)
    ensures crc == TableEntry(Forward(poly), i)
  {
    Entry(poly, 0, i);
    crc := i * 0x100_0000;
    ghost var start := crc;
    for j := 0 to 8
      invariant crc == Iterate(Forward(poly), start, j)
    {
      TurnLeft(poly, crc);
      if crc >= 0x8000_0000 {
        crc := Xor(2 * crc % 0x1_0000_0000, poly);
      } else {
        crc := 2 * crc;
      }
    }
  }

  /** crc32_generate_reverse_table */
  method GenerateReverseTable(poly: word, table: array<word>)
    requires table.Length == 256
    modifies table
    ensures IsTable(Reflected(poly), table[..])
  {
    for i := 0 to 256
      invariant forall k: byte :: k < i ==> table[k] == TableEntry(Reflected(poly), k)
    {
      var crc := GenerateReverseEntry(poly, i);
      table[i] := crc;
    }
  }

  /** The body of crc32_generate_reverse_table's outer loop. */
  method GenerateReverseEntry(poly: word, i: byte) returns (crc: word)
    ensures crc == TableEntry(Reflected(poly), i)
  {
    Entry(poly, 0, i);
    crc := i;
    ghost var start := crc;
    for j := 0 to 8
      invariant crc == Iterate(Reflected(poly), start, j)
    {
      TurnRight(poly, crc);
      if crc % 2 == 1 {
        crc := Xor(crc / 2, poly);
      } else {
        crc := crc / 2;
      }
    }
  }

  lemma Looked(poly: word, table: seq<word>, crc: word, c: byte)
    requires IsTable(Forward(poly), table)
    ensures Xor(crc / 0x100_0000, c) < 256
    ensures Xor(crc * 256 % 0x1_0000_0000, table[Xor(crc / 0x100_0000, c)]) ==
            Feed(Forward(poly), crc, c) < 0x1_0000_0000
  {
    ShiftedOut(crc);
    LookedParts(poly, table, crc / 0x100_0000, crc % 0x100_0000, c);
  }

  lemma ShiftedOut(crc: word)
    ensures crc * 256 % 0x1_0000_0000 == crc % 0x100_0000 * 256
  {
  }

  lemma LookedParts(poly: word, table: seq<word>, h: byte, l: nat, c: byte)
    requires IsTable(Forward(poly), table) && l < 0x100_0000
    ensures Xor(h, c) < 256
    ensures Xor(l * 256, table[Xor(h, c)]) == Feed(Forward(poly), h * 0x100_0000 + l, c) < 0x1_0000_0000
  {
    Sizes();
    LookUp(Forward(poly), h, l, c);
    XorBound(l * 256, table[Xor(h, c)], 32);
  }

  lemma LookedReverse(poly: word, table: seq<word>, crc: word, c: byte)
    requires IsTable(Reflected(poly), table)
    ensures And(Xor(crc, c), 0xFF) < 256
    ensures Xor(crc / 256, table[And(Xor(crc, c), 0xFF)]) == Feed(Reflected(poly), crc, c) < 0x1_0000_0000
  {
    Sizes();
    var h, l := crc / 256, crc % 256;
    MaskedIndex(h, l, c);
    LookUpReflected(Reflected(poly), h, l, c);
    XorBound(h, table[Xor(l, c)], 32);
  }

  lemma MaskedIndex(h: nat, l: byte, c: byte)
    ensures And(Xor(h * 256 + l, c), 0xFF) == Xor(l, c) < 256
  {
    SplitEntryReflected(h, l, c);
    MaskByte(h, Xor(l, c));
  }

  lemma MaskByte(h: nat, x: byte)
    ensures And(h * 256 + x, 0xFF) == x
  {
    var y := h * 256 + x;
    DivideUnique(y, 256, h, x);
    Sizes();
    MaskIsMod(y, 8);
  }

  /** crc32_compute_table: with a generated table it is the bit-by-bit code. */
  method ComputeTable(poly: word, table: array<word>, data: seq<byte>, init: word) returns (crc: word)
    requires IsTable(Forward(poly), table[..])
    ensures crc == Crc(Forward(poly), init, data)
  {
    crc := init;
    for i := 0 to |data|
      invariant crc == Crc(Forward(poly), init, data[..i])
    {
      Looked(poly, table[..], crc, data[i]);
      assert data[..i + 1][..i] == data[..i];
      crc := Xor(crc * 256 % 0x1_0000_0000, table[Xor(crc / 0x100_0000, data[i])]);
    }
    assert data[..|data|] == data;
  }

  /** crc32_compute_reverse_table */
  method ComputeReverseTable(poly: word, table: array<word>, data: seq<byte>, init: word) returns (crc: word)
    requires IsTable(Reflected(poly), table[..])
    ensures crc == Crc(Reflected(poly), init, data)
  {
    crc := init;
    for i := 0 to |data|
      invariant crc == Crc(Reflected(poly), init, data[..i])
    {
      LookedReverse(poly, table[..], crc, data[i]);
      assert data[..i + 1][..i] == data[..i];
      crc := Xor(crc / 256, table[And(Xor(crc, data[i]), 0xFF)]);
    }
    assert data[..|data|] == data;
  }

  /** crc32_jamcrc */
  method Jamcrc(data: seq<byte>) returns (crc: word)
    ensures crc == Crc(Reflected(0xEDB8_8320), 0xFFFF_FFFF, data)
  {
    crc := 0xFFFF_FFFF;
    for i := 0 to |data|
      invariant crc == Crc(Reflected(0xEDB8_8320), 0xFFFF_FFFF, data[..i])
    {
      assert data[..i + 1][..i] == data[..i];
      crc := UpdateReverse(0xEDB8_8320, crc, data[i]);
    }
    assert data[..|data|] == data;
  }

  /** crc32_cksum */
  method Cksum(data: seq<byte>) returns (crc: word)
    ensures crc == Xor(Crc(Forward(0x04C1_1DB7), 0, data), 0xFFFF_FFFF)
  {
    var acc: word := 0;
    for i := 0 to |data|
      invariant acc == Crc(Forward(0x04C1_1DB7), 0, data[..i])
    {
      assert data[..i + 1][..i] == data[..i];
      acc := Update(0x04C1_1DB7, acc, data[i]);
    }
    assert data[..|data|] == data;
    Sizes();
    XorBound(acc, 0xFFFF_FFFF, 32);
    crc := Xor(acc, 0xFFFF_FFFF);
  }

  /** Generating a table and computing with it is computing bit by bit, both ways round. */
  method ByTable(poly: word, init: word, data: seq<byte>) returns (forward: word, reverse: word)
    ensures forward == Crc(Forward(poly), init, data) && reverse == Crc(Reflected(poly), init, data)
  {
    var table := new word[256];
    GenerateTable(poly, table);
    forward := ComputeTable(poly, table, data, init);
    GenerateReverseTable(poly, table);
    reverse := ComputeReverseTable(poly, table, data, init);
  }

  /** Both 32-bit codes notice every change within four adjacent bytes. */
  lemma Bursts(init: word)
    ensures Detects(Forward(0x04C1_1DB7), init) && Detects(Reflected(0xEDB8_8320), init)
  {
    Sizes();
    DetectsExactly(Forward(0x04C1_1DB7), init);
    DetectsExactly(Reflected(0xEDB8_8320), init);
  }
}
