/** What the other modules share: bytes, words, optional values and the smaller of two numbers. */
module Basics {
  type byte = x: int | 0 <= x < 256

  datatype Option<+T> = None | Some(value: T)

  function Min(a: nat, b: nat): (m: nat)
    ensures m <= a && m <= b && (m == a || m == b)
  {
    if a > b then b else a
  }

  const WORD := 0x1_0000_0000

  /** A uint32_t, least significant byte first. */
  function PutWord(x: nat): (s: seq<byte>)
    requires x < WORD
    ensures |s| == 4
  {
    [x % 256, x / 256 % 256, x / 65536 % 256, x / 16777216]
  }

  function GetWord(s: seq<byte>): (x: nat)
    requires |s| == 4
    ensures x < WORD
  {
    s[0] as int + 256 * s[1] as int + 65536 * s[2] as int + 16777216 * s[3] as int
  }

  lemma WordRoundTrip(x: nat)
    requires x < WORD
    ensures GetWord(PutWord(x)) == x
  {
    var a := x / 256;
    var b := a / 256;
    assert x / 65536 == b && x / 16777216 == b / 256;
    assert x == 256 * a + x % 256 && a == 256 * b + a % 256 && b == 256 * (b / 256) + b % 256;
  }
}
