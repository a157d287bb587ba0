/**
 Finite doubles given by sign, shortest round-tripping digits and decimal point, and
 the two layouts they are printed in: strconv's and ECMAScript's.
 */
module Decimal {
  import opened Options

  /** A finite double; Finite(neg, digits, point) is (-1)^neg * 0.digits * 10^point. */
  datatype Double = Zero | Finite(neg: bool, digits: string, point: int)

  predicate IsDigit(c: char) { '0' <= c <= '9' }

  predicate AllDigits(s: string) {
    forall c | c in s :: IsDigit(c)
  }

  /** Shortest digits never start or end with zero; the exponent is that of binary64. */
  predicate Shortest(digits: string) {
    && digits != ""
    && AllDigits(digits)
    && digits[0] != '0'
    && digits[|digits| - 1] != '0'
  }

  predicate Valid(d: Double) {
    d.Finite? ==> Shortest(d.digits) && -323 <= d.point <= 309
  }

  type Float = d: Double | Valid(d) witness Zero

  function Zeros(n: nat): string {
    seq(n, _ => '0')
  }

  function DigitChar(v: int): (c: char)
    requires 0 <= v <= 9
    ensures IsDigit(c)
  {
    ('0' as int + v) as char
  }

  /** The decimal spelling of a natural number. */
  function Natural(v: nat): (s: string)
    ensures s != "" && AllDigits(s)
    ensures v > 0 ==> s[0] != '0'
  {
    if v < 10 then [DigitChar(v)] else Natural(v / 10) + [DigitChar(v % 10)]
  }

  /** The number a string of digits spells. */
  function DigitsValue(lit: string): nat
    requires AllDigits(lit)
  {
    if lit == "" then 0
    else
      var n := |lit| - 1;
      assert lit[n] in lit && forall c | c in lit[..n] :: c in lit;
      DigitsValue(lit[..n]) * 10 + (lit[n] as int - '0' as int)
  }

  lemma {:induction false} NaturalValue(n: nat)
    ensures DigitsValue(Natural(n)) == n
  {
    var s := Natural(n);
    var k := |s| - 1;
    assert DigitsValue(s) == DigitsValue(s[..k]) * 10 + (s[k] as int - '0' as int);
    if n >= 10 {
      NaturalValue(n / 10);
      assert s[..k] == Natural(n / 10);
    } else {
      assert s[..k] == "";
    }
  }

  // ---------- ECMAScript Number-to-string, as RFC 8785 section 3.2.2.3 adopts it ----------

  /** k digits with the decimal point at n: trailing zeros, a point inside, or leading zeros. */
  function Positional(digits: string, n: int): string
    requires Shortest(digits)
  {
    var k := |digits|;
    if k <= n then digits + Zeros(n - k)
    else if 0 < n then digits[..n] + "." + digits[n..]
    else "0." + (Zeros(-n) + digits)
  }

  function Mantissa(digits: string): string
    requires digits != ""
  {
    if |digits| == 1 then digits else [digits[0]] + "." + digits[1..]
  }

  function Exponent(e: int): string {
    if e < 0 then "-" + Natural(-e) else "+" + Natural(e)
  }

  /** Positional when the point n is in (-6, 21], exponential outside. */
  function Magnitude(digits: string, n: int): string
    requires Shortest(digits)
  {
    if -6 < n <= 21 then Positional(digits, n) else Mantissa(digits) + "e" + Exponent(n - 1)
  }

  function NumberToString(d: Float): string {
    if d == Zero then "0"
    else (if d.neg then "-" else "") + Magnitude(d.digits, d.point)
  }

  // ---------- strconv.AppendFloat with precision -1 ----------

  /** %f: integer digits (at least one), then as many fraction digits as there are. */
  function FormatF(digits: string, point: int): string
    requires Shortest(digits)
  {
    var k := |digits|;
    var whole := if point > 0 then (if k < point then digits + Zeros(point - k) else digits[..point]) else "0";
    var fraction := if k > point then k - point else 0;
    whole + (if fraction > 0 then "." + seq(fraction, i requires 0 <= i < fraction =>
                                                        if 0 <= point + i then digits[point + i] else '0')
             else "")
  }

  function PaddedExponent(e: nat): string
    requires e < 1000
  {
    if e < 10 then ['0', DigitChar(e)]
    else if e < 100 then [DigitChar(e / 10), DigitChar(e % 10)]
    else [DigitChar(e / 100), DigitChar(e / 10 % 10), DigitChar(e % 10)]
  }

  /** %e: the exponent is padded to two digits. */
  function FormatE(digits: string, point: int): string
    requires Shortest(digits) && -323 <= point <= 309
  {
    var e := if point - 1 < 0 then 1 - point else point - 1;
    Mantissa(digits) + "e" + (if point - 1 < 0 then "-" else "+") + PaddedExponent(e)
  }

  // ---------- The value, and where the layout switches ----------

  function PowerOfTen(z: int): (p: real)
    ensures p > 0.0
    decreases if z < 0 then -z else z
  {
    if z == 0 then 1.0 else if z > 0 then 10.0 * PowerOfTen(z - 1) else PowerOfTen(z + 1) / 10.0
  }

  /** x times ten to the q. */
  function Scale(x: real, q: int): real
    decreases if q < 0 then -q else q
  {
    if q == 0 then x else if q > 0 then 10.0 * Scale(x, q - 1) else Scale(x, q + 1) / 10.0
  }

  function Lead(digits: string): (v: real)
    requires digits != "" && AllDigits(digits)
    ensures 0.0 <= v <= 9.0
    ensures digits[0] != '0' ==> v >= 1.0
  {
    assert digits[0] in digits;
    (digits[0] as int - '0' as int) as real
  }

  /** 0.digits * 10^point as a real number. */
  function Value(digits: string, point: int): real
    requires AllDigits(digits)
  {
    if digits == "" then 0.0
    else
      assert forall c | c in digits[1..] :: c in digits;
      Scale(Lead(digits), point - 1) + Value(digits[1..], point - 1)
  }

  lemma PowerStep(z: int)
    ensures PowerOfTen(z) == 10.0 * PowerOfTen(z - 1)
  {
  }

  lemma {:induction false} PowerMonotone(a: int, b: int)
    requires a <= b
    ensures PowerOfTen(a) <= PowerOfTen(b)
    decreases b - a
  {
    if a < b {
      PowerStep(b);
      PowerMonotone(a, b - 1);
    }
  }

  lemma {:induction false} LeadBounds(lead: real, z: int)
    requires 0.0 <= lead <= 9.0
    ensures 0.0 <= Scale(lead, z) <= 9.0 * PowerOfTen(z)
    ensures lead >= 1.0 ==> PowerOfTen(z) <= Scale(lead, z)
    decreases if z < 0 then -z else z
  {
    if z > 0 { LeadBounds(lead, z - 1); } else if z < 0 { LeadBounds(lead, z + 1); }
  }

  lemma {:induction false} ValueBounds(digits: string, point: int)
    requires AllDigits(digits)
    ensures 0.0 <= Value(digits, point) < PowerOfTen(point)
    ensures digits != "" && digits[0] != '0' ==> PowerOfTen(point - 1) <= Value(digits, point)
    decreases digits
  {
    if digits == "" {
      assert PowerOfTen(point) > 0.0;
    } else {
      ValueBounds(digits[1..], point - 1);
      PowerStep(point);
      LeadBounds(Lead(digits), point - 1);
    }
  }

  lemma PowersOfSwitch()
    ensures PowerOfTen(-6) == 0.000001
    ensures PowerOfTen(21) == 1000000000000000000000.0
  {
    PowerStep(0); PowerStep(-1); PowerStep(-2); PowerStep(-3); PowerStep(-4); PowerStep(-5);
    assert PowerOfTen(7) == 10000000.0;
    assert PowerOfTen(14) == 100000000000000.0;
  }

  /** Comparing the value with 1e-6 and 1e21 is comparing the point with -5 and 21. */
  lemma SwitchByPoint(digits: string, point: int)
    requires Shortest(digits)
    ensures Value(digits, point) >= 0.000001 <==> point >= -5
    ensures Value(digits, point) < 1000000000000000000000.0 <==> point <= 21
  {
    ValueBounds(digits, point);
    PowersOfSwitch();
    if point >= -5 { PowerMonotone(-6, point - 1); } else { PowerMonotone(point, -6); }
    if point <= 21 { PowerMonotone(point, 21); } else { PowerMonotone(21, point - 1); }
  }

  // ---------- Reading a number's text ----------

  /** The first position of c, or the length. */
  function Find(s: string, c: char): (i: nat)
    ensures i <= |s| && (i < |s| ==> s[i] == c) && forall j | 0 <= j < i :: s[j] != c
  {
    if s == "" || s[0] == c then 0 else 1 + Find(s[1..], c)
  }

  predicate Digits(s: string) { s != "" && AllDigits(s) }

  /** Digits, or digits around a point: each digit weighs a power of ten by its place. */
  function ReadDecimal(s: string): Option<real> {
    var i := Find(s, '.');
    if i == |s| then (if Digits(s) then Some(Value(s, i)) else None)
    else if Digits(s[..i]) && Digits(s[i + 1..]) && AllDigits(s[..i] + s[i + 1..])
      then Some(Value(s[..i] + s[i + 1..], i))
    else None
  }

  /** A sign and digits. */
  function ReadExponent(s: string): Option<int> {
    if s == "" || s[0] !in {'+', '-'} || !Digits(s[1..]) then None
    else
      var n: int := DigitsValue(s[1..]);
      Some(if s[0] == '-' then -n else n)
  }

  function ReadUnsigned(s: string): Option<real> {
    var i := Find(s, 'e');
    if i == |s| then ReadDecimal(s)
    else
      var m, e := ReadDecimal(s[..i]), ReadExponent(s[i + 1..]);
      if m.None? || e.None? then None else Some(Scale(m.value, e.value))
  }

  /** The number a text spells. */
  function ReadNumber(s: string): Option<real> {
    if s != "" && s[0] == '-' then
      var m := ReadUnsigned(s[1..]);
      if m.None? then None else Some(-m.value)
    else ReadUnsigned(s)
  }

  /** The number a double is. */
  function Number(d: Float): real {
    if d == Zero then 0.0 else if d.neg then -Value(d.digits, d.point) else Value(d.digits, d.point)
  }

  lemma FindAt(s: string, c: char, i: nat)
    requires i <= |s| && (i < |s| ==> s[i] == c) && forall j | 0 <= j < i :: s[j] != c
    ensures Find(s, c) == i
  {
  }

  lemma {:induction false} NothingScaled(q: int)
    ensures Scale(0.0, q) == 0.0
    decreases if q < 0 then -q else q
  {
    if q > 0 { NothingScaled(q - 1); } else if q < 0 { NothingScaled(q + 1); }
  }

  lemma {:induction false} LeadingZerosValue(m: nat, digits: string, point: int)
    requires AllDigits(digits)
    ensures AllDigits(Zeros(m) + digits)
    ensures Value(Zeros(m) + digits, point) == Value(digits, point - m)
  {
    if m == 0 {
      assert Zeros(m) + digits == digits;
    } else {
      LeadingZerosValue(m - 1, digits, point - 1);
      var s := Zeros(m) + digits;
      assert s[1..] == Zeros(m - 1) + digits && s[0] == '0';
      assert Lead(s) == 0.0;
      NothingScaled(point - 1);
    }
  }

  lemma {:induction false} ZerosValue(m: nat, point: int)
    ensures AllDigits(Zeros(m)) && Value(Zeros(m), point) == 0.0
  {
    LeadingZerosValue(m, "", point);
    assert Zeros(m) + "" == Zeros(m);
  }

  lemma DigitsAndZeros(digits: string, m: nat)
    requires AllDigits(digits)
    ensures AllDigits(digits + Zeros(m))
  {
    assert forall c | c in digits + Zeros(m) :: c in digits || c == '0';
  }

  lemma {:induction false} TrailingZerosValue(digits: string, m: nat, point: int)
    requires AllDigits(digits)
    ensures AllDigits(digits + Zeros(m))
    ensures Value(digits + Zeros(m), point) == Value(digits, point)
    decreases |digits|
  {
    if digits == "" {
      ZerosValue(m, point);
      assert digits + Zeros(m) == Zeros(m);
    } else {
      assert forall c | c in digits[1..] :: c in digits;
      TrailingZerosValue(digits[1..], m, point - 1);
      DigitsAndZeros(digits, m);
      assert (digits + Zeros(m))[1..] == digits[1..] + Zeros(m);
    }
  }

  lemma {:induction false} ValueStep(digits: string, point: int)
    requires AllDigits(digits)
    ensures Value(digits, point + 1) == 10.0 * Value(digits, point)
    decreases |digits|
  {
    if digits != "" {
      assert forall c | c in digits[1..] :: c in digits;
      ValueStep(digits[1..], point - 1);
    }
  }

  /** Moving the point by q is multiplying by ten to the q. */
  lemma {:induction false} ScaledValue(digits: string, point: int, q: int)
    requires AllDigits(digits)
    ensures Scale(Value(digits, point), q) == Value(digits, point + q)
    decreases if q < 0 then -q else q
  {
    if q > 0 {
      ScaledValue(digits, point, q - 1);
      ValueStep(digits, point + q - 1);
    } else if q < 0 {
      ScaledValue(digits, point, q + 1);
      ValueStep(digits, point + q);
    }
  }

  lemma NoPoint(s: string)
    requires AllDigits(s)
    ensures Find(s, '.') == |s|
  {
    assert forall j | 0 <= j < |s| :: s[j] in s;
    FindAt(s, '.', |s|);
  }

  lemma Parts(digits: string, i: nat)
    requires AllDigits(digits) && i <= |digits|
    ensures AllDigits(digits[..i]) && AllDigits(digits[i..])
    ensures digits[..i] + digits[i..] == digits
  {
    assert forall c | c in digits[..i] :: c in digits;
    assert forall c | c in digits[i..] :: c in digits;
  }

  /** Digits with a point after the first i of them. */
  lemma ReadPointed(digits: string, i: nat)
    requires AllDigits(digits) && 0 < i < |digits|
    ensures ReadDecimal(digits[..i] + "." + digits[i..]) == Some(Value(digits, i))
  {
    var s := digits[..i] + "." + digits[i..];
    Parts(digits, i);
    assert forall j | 0 <= j < i :: s[j] == digits[j] && digits[j] in digits;
    FindAt(s, '.', i);
    assert s[..i] == digits[..i] && s[i + 1..] == digits[i..];
  }

  lemma ReadWhole(s: string)
    requires Digits(s)
    ensures ReadDecimal(s) == Some(Value(s, |s|))
  {
    NoPoint(s);
  }

  lemma ReadLong(digits: string, n: int)
    requires Shortest(digits) && |digits| <= n
    ensures ReadDecimal(digits + Zeros(n - |digits|)) == Some(Value(digits, n))
  {
    TrailingZerosValue(digits, n - |digits|, n);
    ReadWhole(digits + Zeros(n - |digits|));
  }

  lemma SmallPointed(digits: string, n: int)
    requires digits != "" && n <= 0
    ensures var all := Zeros(1 - n) + digits;
            all[..1] + "." + all[1..] == "0." + (Zeros(-n) + digits)
  {
    var all := Zeros(1 - n) + digits;
    assert all[..1] == "0" && all[1..] == Zeros(-n) + digits;
  }

  lemma ReadSmall(digits: string, n: int)
    requires Shortest(digits) && n <= 0
    ensures ReadDecimal("0." + (Zeros(-n) + digits)) == Some(Value(digits, n))
  {
    var all := Zeros(1 - n) + digits;
    LeadingZerosValue(1 - n, digits, 1);
    ReadPointed(all, 1);
    SmallPointed(digits, n);
  }

  lemma ReadPositional(digits: string, n: int)
    requires Shortest(digits)
    ensures ReadDecimal(Positional(digits, n)) == Some(Value(digits, n))
  {
    if |digits| <= n {
      ReadLong(digits, n);
    } else if 0 < n {
      ReadPointed(digits, n);
    } else {
      ReadSmall(digits, n);
    }
  }

  lemma MantissaPointed(digits: string)
    requires |digits| > 1
    ensures Mantissa(digits) == digits[..1] + "." + digits[1..]
  {
    assert digits[..1] == [digits[0]];
  }

  lemma ReadMantissa(digits: string)
    requires Shortest(digits)
    ensures ReadDecimal(Mantissa(digits)) == Some(Value(digits, 1))
  {
    if |digits| == 1 {
      ReadWhole(digits);
    } else {
      MantissaPointed(digits);
      ReadPointed(digits, 1);
    }
  }

  lemma ReadExponentBack(e: int)
    ensures ReadExponent(Exponent(e)) == Some(e)
  {
    var n := if e < 0 then -e else e;
    NaturalValue(n);
    assert Exponent(e)[1..] == Natural(n);
  }

  lemma HasPoint(a: string, m: int)
    requires Shortest(a)
    ensures |a| <= m <==> '.' !in Positional(a, m)
    ensures 'e' !in Positional(a, m)
    ensures m <= 0 ==> Positional(a, m)[0] == '0'
  {
    assert forall c | c in a :: IsDigit(c);
    assert forall c | c in Positional(a, m) :: c in a || c == '0' || (c == '.' && m < |a|);
    if 0 < m < |a| {
      assert Positional(a, m)[m] == '.';
    } else if m <= 0 {
      assert Positional(a, m)[1] == '.';
    }
  }

  lemma PositionalHasNoE(digits: string, n: int)
    requires Shortest(digits)
    ensures Find(Positional(digits, n), 'e') == |Positional(digits, n)|
  {
    HasPoint(digits, n);
  }

  lemma MantissaHasNoE(digits: string)
    requires Shortest(digits)
    ensures forall c | c in Mantissa(digits) :: c != 'e'
  {
    assert forall c | c in Mantissa(digits) :: c in digits || c == '.';
  }

  lemma ExponentialHasE(a: string, m: int)
    requires Shortest(a)
    ensures 'e' in Mantissa(a) + "e" + Exponent(m - 1)
  {
    assert (Mantissa(a) + "e" + Exponent(m - 1))[|Mantissa(a)|] == 'e';
  }

  /** The letter e tells which layout was chosen. */
  lemma LayoutByE(a: string, m: int)
    requires Shortest(a)
    ensures -6 < m <= 21 <==> 'e' !in Magnitude(a, m)
  {
    HasPoint(a, m);
    ExponentialHasE(a, m);
  }

  lemma FirstOfMagnitude(a: string, m: int)
    requires Shortest(a)
    ensures Magnitude(a, m) != "" && IsDigit(Magnitude(a, m)[0]) && Magnitude(a, m) != "0"
  {
    assert IsDigit(a[0]);
    if -6 < m <= 0 {
      assert |Magnitude(a, m)| > 1;
    }
  }

  /** A text without a point or letter in its mantissa, the letter, and an exponent. */
  lemma ReadSplit(m: string, e: string, x: real, q: int)
    requires forall c | c in m :: c != 'e'
    requires ReadDecimal(m) == Some(x) && ReadExponent(e) == Some(q)
    ensures ReadUnsigned(m + "e" + e) == Some(Scale(x, q))
  {
    var s := m + "e" + e;
    assert forall j | 0 <= j < |m| :: s[j] == m[j] && m[j] in m;
    FindAt(s, 'e', |m|);
    assert s[..|m|] == m && s[|m| + 1..] == e;
  }

  lemma ReadExponential(digits: string, n: int)
    requires Shortest(digits)
    ensures ReadUnsigned(Mantissa(digits) + "e" + Exponent(n - 1)) == Some(Value(digits, n))
  {
    MantissaHasNoE(digits);
    ReadMantissa(digits);
    ReadExponentBack(n - 1);
    ReadSplit(Mantissa(digits), Exponent(n - 1), Value(digits, 1), n - 1);
    ScaledValue(digits, 1, n - 1);
  }

  lemma ReadPlainMagnitude(digits: string, n: int)
    requires Shortest(digits)
    ensures ReadUnsigned(Positional(digits, n)) == Some(Value(digits, n))
  {
    PositionalHasNoE(digits, n);
    ReadPositional(digits, n);
  }

  lemma ReadMagnitude(digits: string, n: int)
    requires Shortest(digits)
    ensures ReadUnsigned(Magnitude(digits, n)) == Some(Value(digits, n))
  {
    if -6 < n <= 21 { ReadPlainMagnitude(digits, n); } else { ReadExponential(digits, n); }
  }

  lemma ReadNegative(m: string, r: real)
    requires ReadUnsigned(m) == Some(r)
    ensures ReadNumber("-" + m) == Some(-r)
  {
    assert ("-" + m)[1..] == m;
  }

  lemma ReadPlain(m: string, r: real)
    requires m != "" && IsDigit(m[0]) && ReadUnsigned(m) == Some(r)
    ensures ReadNumber(m) == Some(r) && "" + m == m
  {
  }

  lemma ReadZero()
    ensures ReadNumber("0") == Some(0.0)
  {
    ZerosValue(1, 1);
    assert Zeros(1) == "0";
    NoPoint("0");
    FindAt("0", 'e', 1);
  }

  /** The canonical text of a double spells the number it is, sign included. */
  lemma NumberReadsBack(d: Float)
    ensures ReadNumber(NumberToString(d)) == Some(Number(d))
  {
    if d == Zero {
      ReadZero();
    } else {
      ReadMagnitude(d.digits, d.point);
      FirstOfMagnitude(d.digits, d.point);
      var m, r := Magnitude(d.digits, d.point), Value(d.digits, d.point);
      if d.neg { ReadNegative(m, r); } else { ReadPlain(m, r); }
    }
  }

  /** It is exponential exactly outside [1e-6, 1e21). */
  lemma LayoutByValue(d: Float)
    requires d.Finite?
    ensures 'e' !in NumberToString(d) <==> 0.000001 <= Value(d.digits, d.point) < 1000000000000000000000.0
  {
    LayoutByE(d.digits, d.point);
    SwitchByPoint(d.digits, d.point);
    assert NumberToString(d) == (if d.neg then "-" else "") + Magnitude(d.digits, d.point);
  }

  // ---------- The printer, and that it is ECMAScript's ----------

  lemma FormatFIsPositional(digits: string, point: int)
    requires Shortest(digits)
    ensures FormatF(digits, point) == Positional(digits, point)
  {
    var f := FormatF(digits, point);
    if point <= 0 {
      var tail := f[2..];
      assert forall i | 0 <= i < |digits| - point ::
          tail[i] == if 0 <= point + i then digits[point + i] else '0';
      assert tail == Zeros(-point) + digits;
      assert f == "0." + tail;
    } else if point < |digits| {
      assert f == digits[..point] + "." + digits[point..];
    }
  }

  lemma PaddedIsNatural(e: nat)
    requires e < 1000
    ensures var p := PaddedExponent(e); if p[0] == '0' then p[1..] == Natural(e) else p == Natural(e)
  {
    if e >= 100 {
      assert Natural(e / 10) == Natural(e / 100) + [DigitChar(e / 10 % 10)];
    }
  }

  lemma FirstE(head: string, sign: char, e: nat, s: string, i: int)
    requires e < 1000 && s == head + "e" + [sign] + PaddedExponent(e)
    requires -1 <= i < |s| && (i < 0 ==> 'e' !in s)
    ensures i >= 0
  {
    assert s[|head|] == 'e';
  }

  /** Dropping the padding zero after the sign turns %e into the exponential form. */
  lemma StripIsMagnitude(head: string, sign: char, e: nat, s: string, i: nat)
    requires e < 1000 && s == head + "e" + [sign] + PaddedExponent(e)
    requires i < |s| && s[i] == 'e' && 'e' !in s[..i] && 'e' !in head
    ensures i + 2 < |s|
    ensures head + "e" + [sign] + Natural(e) == if s[i + 2] == '0' then s[..i + 2] + s[i + 3..] else s
  {
    assert s[|head|] == 'e';
    assert forall j | 0 <= j < |head| :: s[j] == head[j];
    assert forall j | 0 <= j < i :: s[j] == s[..i][j];
    assert i == |head|;
    PaddedIsNatural(e);
    assert s[i + 2] == PaddedExponent(e)[0];
    assert s[..i + 2] == head + "e" + [sign] && s[i + 3..] == PaddedExponent(e)[1..];
  }

  method IndexByte(s: string, c: char) returns (i: int)
    ensures -1 <= i < |s|
    ensures i >= 0 ==> s[i] == c && c !in s[..i]
    ensures i < 0 ==> c !in s
  {
    i := 0;
    while i < |s|
      invariant 0 <= i <= |s| && c !in s[..i]
    {
      if s[i] == c {
        return;
      }
      i := i + 1;
    }
    assert s[..i] == s;
    i := -1;
  }

  /** The exponential branch: strconv's %e with one padding zero dropped. */
  method Exponential(digits: string, point: int) returns (s: string)
    requires Shortest(digits) && -323 <= point <= 309
    ensures s == Mantissa(digits) + "e" + Exponent(point - 1)
  {
    s := FormatE(digits, point);
    ghost var head, sign := Mantissa(digits), if point < 1 then '-' else '+';
    ghost var e := if point < 1 then 1 - point else point - 1;
    assert s == head + "e" + [sign] + PaddedExponent(e);
    assert head + "e" + [sign] + Natural(e) == head + "e" + ([sign] + Natural(e));
    var i := IndexByte(s, 'e');
    FirstE(head, sign, e, s, i);
    MantissaHasNoE(digits);
    StripIsMagnitude(head, sign, e, s, i);
    if i >= 0 && i + 2 < |s| && s[i + 2] == '0' {
      s := s[..i + 2] + s[i + 3..];
    }
  }

  /**
   Rendering: choose the layout by comparing the value, let strconv print, drop the one
   padding zero of the exponent. The result is ECMAScript's Number-to-string.
   */
  method Es6Number(f: Float) returns (text: string)
    ensures text == NumberToString(f)
    ensures ReadNumber(text) == Some(Number(f))
  {
    NumberReadsBack(f);
    if f == Zero {
      return "0";
    }
    var out := if f.neg then "-" else "";
    var value := Value(f.digits, f.point);
    SwitchByPoint(f.digits, f.point);
    var s;
    if value >= 0.000001 && value < 1000000000000000000000.0 {
      s := FormatF(f.digits, f.point);
      FormatFIsPositional(f.digits, f.point);
    } else {
      s := Exponential(f.digits, f.point);
    }
    text := out + s;
  }

  // ---------- Different doubles print differently ----------

  /** Positional text without a point: the length is the point, trailing zeros fall away. */
  lemma WholeInjective(a: string, m: int, b: string, n: int)
    requires Shortest(a) && Shortest(b) && |a| <= m && |b| <= n
    requires Positional(a, m) == Positional(b, n)
    ensures a == b && m == n
  {
    var x, y := a + Zeros(m - |a|), b + Zeros(n - |b|);
    assert x == y && |x| == m && |y| == n;
    assert x[|a| - 1] == a[|a| - 1] && y[|b| - 1] == b[|b| - 1];
    assert |a| == |b|;
    assert a == x[..|a|] && b == y[..|b|];
  }

  lemma PointInside(a: string, m: int)
    requires Shortest(a) && 0 < m < |a|
    ensures var x := Positional(a, m); x[m] == '.' && x[0] != '0' && a == x[..m] + x[m + 1..]
    ensures forall i | 0 <= i < m :: Positional(a, m)[i] != '.'
  {
    assert Positional(a, m)[..m] == a[..m];
    assert forall i | 0 <= i < m :: Positional(a, m)[i] == a[i] && IsDigit(a[i]);
  }

  lemma LeadingZeros(a: string, m: int, b: string, n: int)
    requires Shortest(a) && Shortest(b) && m <= 0 && n <= 0
    requires Positional(a, m) == Positional(b, n)
    ensures a == b && m == n
  {
    var x, y := Zeros(-m) + a, Zeros(-n) + b;
    assert x == Positional(a, m)[2..] && y == Positional(b, n)[2..];
    assert x[-m] == a[0] && y[-n] == b[0];
    assert m == n;
    assert a == x[-m..] && b == y[-n..];
  }

  lemma PositionalInjective(a: string, m: int, b: string, n: int)
    requires Shortest(a) && Shortest(b) && Positional(a, m) == Positional(b, n)
    ensures a == b && m == n
  {
    var x := Positional(a, m);
    assert (|a| <= m <==> '.' !in x) && (|b| <= n <==> '.' !in x) by {
      HasPoint(a, m);
      HasPoint(b, n);
    }
    if |a| <= m {
      WholeInjective(a, m, b, n);
    } else if m <= 0 && n <= 0 {
      LeadingZeros(a, m, b, n);
    } else {
      if m > 0 { PointInside(a, m); }
      if n > 0 { PointInside(b, n); }
      assert m > 0 && n > 0;
      assert m == n;
    }
  }

  lemma MantissaInjective(a: string, b: string)
    requires a != "" && b != "" && Mantissa(a) == Mantissa(b) && Shortest(a) && Shortest(b)
    ensures a == b
  {
    assert a == [a[0]] + a[1..] && b == [b[0]] + b[1..];
    assert |a| > 1 ==> Mantissa(a)[2..] == a[1..];
    assert |b| > 1 ==> Mantissa(b)[2..] == b[1..];
    assert Mantissa(a)[0] == a[0] && Mantissa(b)[0] == b[0];
  }

  lemma {:induction false} NaturalInjective(a: nat, b: nat)
    requires Natural(a) == Natural(b)
    ensures a == b
  {
    var x := Natural(a);
    assert x[|x| - 1] == DigitChar(a % 10) == DigitChar(b % 10);
    if a >= 10 && b >= 10 {
      assert Natural(a / 10) == x[..|x| - 1] == Natural(b / 10);
      NaturalInjective(a / 10, b / 10);
    } else {
      assert (|x| == 1 <==> a < 10) && (|x| == 1 <==> b < 10);
    }
  }

  lemma ExponentInjective(a: int, b: int)
    requires Exponent(a) == Exponent(b)
    ensures a == b
  {
    assert Exponent(a)[0] == Exponent(b)[0];
    assert Exponent(a)[1..] == Exponent(b)[1..];
    NaturalInjective(if a < 0 then -a else a, if b < 0 then -b else b);
  }

  /** Two halves around the first 'e'. */
  lemma SplitAtE(a: string, x: string, b: string, y: string)
    requires 'e' !in a && 'e' !in b && a + "e" + x == b + "e" + y
    ensures a == b && x == y
  {
    var s := a + "e" + x;
    assert s[|a|] == 'e' && s[|b|] == 'e';
    assert forall i | 0 <= i < |a| :: s[i] == a[i];
    assert forall i | 0 <= i < |b| :: s[i] == b[i];
    assert |a| == |b|;
    assert a == s[..|a|] && b == s[..|b|] && x == s[|a| + 1..] && y == s[|b| + 1..];
  }

  lemma ExponentialInjective(a: string, m: int, b: string, n: int)
    requires Shortest(a) && Shortest(b)
    requires Mantissa(a) + "e" + Exponent(m - 1) == Mantissa(b) + "e" + Exponent(n - 1)
    ensures a == b && m == n
  {
    MantissaHasNoE(a);
    MantissaHasNoE(b);
    SplitAtE(Mantissa(a), Exponent(m - 1), Mantissa(b), Exponent(n - 1));
    MantissaInjective(a, b);
    ExponentInjective(m - 1, n - 1);
  }

  lemma MagnitudeInjective(a: string, m: int, b: string, n: int)
    requires Shortest(a) && Shortest(b) && Magnitude(a, m) == Magnitude(b, n)
    ensures a == b && m == n
  {
    LayoutByE(a, m);
    LayoutByE(b, n);
    if -6 < m <= 21 {
      PositionalInjective(a, m, b, n);
    } else {
      ExponentialInjective(a, m, b, n);
    }
  }

  lemma SignedIsNotZero(d: Float)
    requires d.Finite?
    ensures NumberToString(d) != "0"
  {
    FirstOfMagnitude(d.digits, d.point);
  }

  /** The canonical spelling determines the double. */
  lemma NumberInjective(d: Float, f: Float)
    requires NumberToString(d) == NumberToString(f)
    ensures d == f
  {
    if d.Finite? { FirstOfMagnitude(d.digits, d.point); }
    if f.Finite? { FirstOfMagnitude(f.digits, f.point); }
    if d.Finite? && f.Finite? {
      assert NumberToString(d)[0] == NumberToString(f)[0];
      assert d.neg == f.neg;
      var sign := if d.neg then "-" else "";
      assert NumberToString(d)[|sign|..] == Magnitude(d.digits, d.point);
      assert NumberToString(f)[|sign|..] == Magnitude(f.digits, f.point);
      MagnitudeInjective(d.digits, d.point, f.digits, f.point);
    } else {
      assert d.Finite? ==> NumberToString(d) != "0" by { if d.Finite? { SignedIsNotZero(d); } }
      assert f.Finite? ==> NumberToString(f) != "0" by { if f.Finite? { SignedIsNotZero(f); } }
    }
  }

  predicate NumberChar(c: char) {
    IsDigit(c) || c in {'-', '+', '.', 'e'}
  }

  lemma MagnitudeAlphabet(a: string, m: int)
    requires Shortest(a)
    ensures forall c | c in Magnitude(a, m) :: NumberChar(c)
  {
    if -6 < m <= 21 {
      assert forall c | c in Positional(a, m) :: c in a || c == '0' || c == '.';
    } else {
      assert forall c | c in Mantissa(a) :: c in a || c == '.';
      assert forall c | c in Exponent(m - 1) :: NumberChar(c);
    }
  }

  /** Every character of a number's spelling comes from a fixed alphabet. */
  lemma NumberAlphabet(d: Float)
    ensures NumberToString(d) != ""
    ensures forall c | c in NumberToString(d) :: NumberChar(c)
    ensures NumberToString(d)[0] == '-' || IsDigit(NumberToString(d)[0])
  {
    if d.Finite? {
      FirstOfMagnitude(d.digits, d.point);
      MagnitudeAlphabet(d.digits, d.point);
    }
  }

  // ---------- Which numbers are integers ----------

  lemma DigitsAppend(a: string, c: char)
    requires AllDigits(a) && IsDigit(c)
    ensures AllDigits(a + [c]) && AllDigits([c])
  {
    assert forall x | x in a + [c] :: x in a || x == c;
  }

  lemma {:induction false} ValueAppend(a: string, c: char, point: int)
    requires AllDigits(a) && IsDigit(c)
    ensures AllDigits(a + [c]) && AllDigits([c])
    ensures Value(a + [c], point) == Value(a, point) + Value([c], point - |a|)
    decreases |a|
  {
    DigitsAppend(a, c);
    if a == "" {
      assert a + [c] == [c];
    } else {
      assert forall x | x in a[1..] :: x in a;
      ValueAppend(a[1..], c, point - 1);
      assert (a + [c])[1..] == a[1..] + [c];
    }
  }

  lemma UnitValue(c: char)
    requires IsDigit(c)
    ensures AllDigits([c]) && Value([c], 1) == (c as int - '0' as int) as real
  {
    assert [c][1..] == "" && Lead([c]) == (c as int - '0' as int) as real;
    assert Value("", 0) == 0.0;
  }

  lemma {:induction false} WholeValue(digits: string)
    requires AllDigits(digits)
    ensures Value(digits, |digits|) == DigitsValue(digits) as real
    decreases |digits|
  {
    if digits != "" {
      var n := |digits| - 1;
      var a := digits[..n];
      assert digits[n] in digits && forall x | x in a :: x in digits;
      WholeValue(a);
      ValueStep(a, n);
      ValueAppend(a, digits[n], n + 1);
      UnitValue(digits[n]);
      assert digits == a + [digits[n]];
    }
  }

  /** An integer times ten to the m, m positive, is a multiple of ten. */
  lemma {:induction false} ScaledInteger(k: int, m: nat) returns (j: int)
    ensures Scale(k as real, m) == j as real && (m > 0 ==> j % 10 == 0)
  {
    j := k;
    if m > 0 {
      var i := ScaledInteger(k, m - 1);
      j := 10 * i;
    }
  }

  lemma LastDigit(digits: string)
    requires Shortest(digits)
    ensures DigitsValue(digits) % 10 != 0
  {
    var n := |digits| - 1;
    assert digits[n] in digits && forall c | c in digits[..n] :: c in digits;
    assert DigitsValue(digits) == DigitsValue(digits[..n]) * 10 + (digits[n] as int - '0' as int);
  }

  predicate IsInteger(x: real) { x.Floor as real == x }

  /** With shortest digits, an integer is exactly what has no digit behind the point. */
  lemma IntegerByPoint(digits: string, point: int)
    requires Shortest(digits)
    ensures IsInteger(Value(digits, point)) <==> |digits| <= point
  {
    if |digits| <= point {
      var all := digits + Zeros(point - |digits|);
      TrailingZerosValue(digits, point - |digits|, point);
      WholeValue(all);
      assert Value(digits, point) == DigitsValue(all) as real;
    } else if IsInteger(Value(digits, point)) {
      var k := Value(digits, point).Floor;
      ScaledValue(digits, point, |digits| - point);
      var j := ScaledInteger(k, |digits| - point);
      WholeValue(digits);
      LastDigit(digits);
    }
  }
}
