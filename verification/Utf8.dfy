/** UTF-8, as far as byte scanners and byte counts depend on it. */
module Utf8 {
  import opened Bytes

  /** The bytes of one scalar. */
  function Units(c: char): (u: seq<Byte>)
    ensures 1 <= |u| <= 4
  {
    var v := c as int;
    if v < 0x80 then [v]
    else if v < 0x800 then [0xC0 + v / 0x40, 0x80 + v % 0x40]
    else if v < 0x1_0000 then [0xE0 + v / 0x1000, 0x80 + v / 0x40 % 0x40, 0x80 + v % 0x40]
    else [0xF0 + v / 0x4_0000, 0x80 + v / 0x1000 % 0x40, 0x80 + v / 0x40 % 0x40, 0x80 + v % 0x40]
  }

  function Encode(s: string): seq<Byte> {
    if s == "" then [] else Units(s[0]) + Encode(s[1..])
  }

  /** Bytes below 0x80 occur only as the ASCII characters they are. */
  lemma AsciiExact(c: char, b: Byte)
    requires b < 0x80 && b in Units(c)
    ensures c as int == b && Units(c) == [b]
  {
  }

  function Bits(b: int, mark: int): int { b - mark }

  /** The scalar a sequence of bytes stands for: the lead byte tells the length, the others carry six bits. */
  function Scalar(u: seq<Byte>): int {
    if |u| == 1 && u[0] < 0x80 then u[0]
    else if |u| == 2 && 0xC0 <= u[0] < 0xE0 then Bits(u[0], 0xC0) * 0x40 + Bits(u[1], 0x80)
    else if |u| == 3 && 0xE0 <= u[0] < 0xF0 then
      Bits(u[0], 0xE0) * 0x1000 + Bits(u[1], 0x80) * 0x40 + Bits(u[2], 0x80)
    else if |u| == 4 && 0xF0 <= u[0] then
      Bits(u[0], 0xF0) * 0x4_0000 + Bits(u[1], 0x80) * 0x1000 + Bits(u[2], 0x80) * 0x40 + Bits(u[3], 0x80)
    else -1
  }

  /** The first scalar that needs n bytes. */
  function Least(n: nat): int { if n <= 1 then 0 else if n == 2 then 0x80 else if n == 3 then 0x800 else 0x1_0000 }

  lemma SixBits(v: nat)
    ensures v == v / 0x40 * 0x40 + v % 0x40 && v / 0x40 / 0x40 == v / 0x1000
    ensures v / 0x1000 / 0x40 == v / 0x4_0000
  {
  }

  lemma ThreeUnits(v: nat)
    requires 0x800 <= v < 0x1_0000
    ensures Scalar([0xE0 + v / 0x1000, 0x80 + v / 0x40 % 0x40, 0x80 + v % 0x40]) == v
  {
    SixBits(v);
    SixBits(v / 0x40);
  }

  lemma FourUnits(v: nat)
    requires 0x1_0000 <= v < 0x11_0000
    ensures Scalar([0xF0 + v / 0x4_0000, 0x80 + v / 0x1000 % 0x40, 0x80 + v / 0x40 % 0x40, 0x80 + v % 0x40]) == v
  {
    SixBits(v);
    SixBits(v / 0x40);
    SixBits(v / 0x1000);
  }

  /** The bytes stand for the scalar, and no shorter form would do. */
  lemma UnitsExact(c: char)
    ensures Scalar(Units(c)) == c as int && Least(|Units(c)|) <= c as int
    ensures |Units(c)| < 4 ==> (c as int) < Least(|Units(c)| + 1)
  {
    var v := c as int;
    if v >= 0x1_0000 { FourUnits(v); } else if v >= 0x800 { ThreeUnits(v); }
  }

  /** Every byte after the first is marked as a follow-up byte. */
  lemma FollowUps(c: char)
    ensures forall i | 1 <= i < |Units(c)| :: 0x80 <= Units(c)[i] < 0xC0
  {
  }
}
