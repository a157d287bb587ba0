/** Four hexadecimal digits and UTF-16 surrogates: the parts of a \u escape. */
module Hex {
  import opened Options

  /** The value of one hexadecimal digit given by its code, -1 for anything else. */
  function Digit(c: int): (v: int)
    ensures -1 <= v < 16
  {
    if '0' as int <= c <= '9' as int then c - '0' as int
    else if 'a' as int <= c <= 'f' as int then c - 'a' as int + 10
    else if 'A' as int <= c <= 'F' as int then c - 'A' as int + 10
    else -1
  }

  function Four(a: int, b: int, c: int, d: int): (v: Option<int>)
    ensures v.Some? ==> 0 <= v.value < 0x1_0000
  {
    if Digit(a) < 0 || Digit(b) < 0 || Digit(c) < 0 || Digit(d) < 0 then None
    else Some(Digit(a) * 0x1000 + Digit(b) * 0x100 + Digit(c) * 0x10 + Digit(d))
  }

  predicate High(unit: int) { 0xD800 <= unit <= 0xDBFF }

  predicate Low(unit: int) { 0xDC00 <= unit <= 0xDFFF }

  /** The supplementary character a surrogate pair stands for. */
  function Pair(high: int, low: int): char
    requires High(high) && Low(low)
  {
    (0x1_0000 + (high - 0xD800) * 0x400 + (low - 0xDC00)) as char
  }

  function LowerDigit(v: int): (c: char)
    requires 0 <= v < 16
    ensures Digit(c as int) == v
  {
    if v < 10 then ('0' as int + v) as char else ('a' as int + v - 10) as char
  }

  /** The four lower-case digits of a code unit. */
  function Spell(v: int): (s: string)
    requires 0 <= v < 0x1_0000
    ensures |s| == 4
  {
    [LowerDigit(v / 0x1000), LowerDigit(v / 0x100 % 0x10), LowerDigit(v / 0x10 % 0x10), LowerDigit(v % 0x10)]
  }

  lemma FourSpell(v: int)
    requires 0 <= v < 0x1_0000
    ensures var s := Spell(v); Four(s[0] as int, s[1] as int, s[2] as int, s[3] as int) == Some(v)
  {
    var low := v % 0x1000;
    assert v == v / 0x1000 * 0x1000 + low;
    assert v / 0x100 == v / 0x1000 * 0x10 + low / 0x100 && v / 0x100 % 0x10 == low / 0x100;
    var last := low % 0x100;
    assert low == low / 0x100 * 0x100 + last;
    assert v / 0x10 == v / 0x100 * 0x10 + last / 0x10 && v / 0x10 % 0x10 == last / 0x10;
    assert last == last / 0x10 * 0x10 + v % 0x10;
  }

  const LOWER := "0123456789abcdef"
  const UPPER := "0123456789ABCDEF"

  /** Exactly the sixteen digits in either case count, each for its place. */
  lemma DigitExact(c: char, v: int)
    requires 0 <= v < 16
    ensures Digit(c as int) == v <==> c == LOWER[v] || c == UPPER[v]
  {
  }
}
