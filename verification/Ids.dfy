/** JSON-RPC ids: which are usable, and the key that says when two are the same. */
module Ids {
  import opened Options
  import opened Json
  import opened Decimal
  import opened Canonical
  import Strings

  /** A decoded string, or a number within binary64. */
  predicate ValidId(parse: Reading, id: Option<Text>) {
    && id.Some?
    && match id.value
       case Str(body) => Strings.Unescape(body).Some?
       case Atom(lit) => lit !in KEYWORDS && parse(lit).Some?
       case _ => false
  }

  /** strconv.FormatFloat(f, 'g', -1, 64) for a nonzero double. */
  function FormatG(d: Float): string
    requires d.Finite?
  {
    var exp := d.point - 1;
    (if d.neg then "-" else "") +
    (if exp < -4 || exp >= 6 then FormatE(d.digits, d.point) else FormatF(d.digits, d.point))
  }

  function IdKey(parse: Reading, id: Text): string {
    if id.Str? && Strings.Unescape(id.body).Some? then "s:" + Strings.Unescape(id.body).value
    else if id.Atom? && id.lit !in KEYWORDS && parse(id.lit).Some? then
      var d := parse(id.lit).value;
      if d == Zero then "n:0" else "n:" + FormatG(d)
    else "invalid:" + Print(id)
  }

  /** The same string, or numbers rounding to the same double. */
  predicate SameId(parse: Reading, a: Text, b: Text) {
    || (a.Str? && b.Str? && Strings.Unescape(a.body) == Strings.Unescape(b.body))
    || (a.Atom? && b.Atom? && parse(a.lit) == parse(b.lit))
  }

  lemma PaddedInjective(a: nat, b: nat)
    requires a < 1000 && b < 1000 && PaddedExponent(a) == PaddedExponent(b)
    ensures a == b
  {
    PaddedIsNatural(a);
    PaddedIsNatural(b);
    NaturalInjective(a, b);
  }

  function Tail(m: int): (s: string)
    requires -323 <= m <= 309
    ensures s != ""
  {
    (if m < 1 then "-" else "+") + PaddedExponent(if m < 1 then 1 - m else m - 1)
  }

  lemma FormatETail(a: string, m: int)
    requires Shortest(a) && -323 <= m <= 309
    ensures FormatE(a, m) == Mantissa(a) + "e" + Tail(m)
  {
  }

  lemma TailInjective(m: int, n: int)
    requires -323 <= m <= 309 && -323 <= n <= 309 && Tail(m) == Tail(n)
    ensures m == n
  {
    assert Tail(m)[0] == Tail(n)[0];
    assert Tail(m)[1..] == PaddedExponent(if m < 1 then 1 - m else m - 1);
    assert Tail(n)[1..] == PaddedExponent(if n < 1 then 1 - n else n - 1);
    PaddedInjective(if m < 1 then 1 - m else m - 1, if n < 1 then 1 - n else n - 1);
  }

  lemma FormatEInjective(a: string, m: int, b: string, n: int)
    requires Shortest(a) && Shortest(b) && -323 <= m <= 309 && -323 <= n <= 309
    requires FormatE(a, m) == FormatE(b, n)
    ensures a == b && m == n
  {
    FormatETail(a, m);
    FormatETail(b, n);
    MantissaHasNoE(a);
    MantissaHasNoE(b);
    SplitAtE(Mantissa(a), Tail(m), Mantissa(b), Tail(n));
    MantissaInjective(a, b);
    TailInjective(m, n);
  }

  function Body(d: Float): string
    requires d.Finite?
  {
    if d.point - 1 < -4 || d.point - 1 >= 6 then FormatE(d.digits, d.point) else FormatF(d.digits, d.point)
  }

  lemma BodyShape(d: Float)
    requires d.Finite?
    ensures Body(d) != "" && IsDigit(Body(d)[0]) && Body(d) != "0"
    ensures 'e' in Body(d) <==> d.point - 1 < -4 || d.point - 1 >= 6
  {
    HasPoint(d.digits, d.point);
    FormatFIsPositional(d.digits, d.point);
    assert d.digits[0] in d.digits;
    if d.point - 1 < -4 || d.point - 1 >= 6 {
      assert Body(d)[|Mantissa(d.digits)|] == 'e';
    } else if d.point <= 0 {
      assert |Positional(d.digits, d.point)| > 1;
    }
  }

  lemma BodyInjective(d: Float, f: Float)
    requires d.Finite? && f.Finite? && Body(d) == Body(f)
    ensures d.digits == f.digits && d.point == f.point
  {
    BodyShape(d);
    BodyShape(f);
    if 'e' in Body(d) {
      FormatEInjective(d.digits, d.point, f.digits, f.point);
    } else {
      FormatFIsPositional(d.digits, d.point);
      FormatFIsPositional(f.digits, f.point);
      PositionalInjective(d.digits, d.point, f.digits, f.point);
    }
  }

  lemma FormatGInjective(d: Float, f: Float)
    requires d.Finite? && f.Finite? && FormatG(d) == FormatG(f)
    ensures d == f
  {
    BodyShape(d);
    BodyShape(f);
    var s, t := if d.neg then "-" else "", if f.neg then "-" else "";
    assert FormatG(d) == s + Body(d) && FormatG(f) == t + Body(f);
    assert FormatG(d)[0] == '-' <==> d.neg;
    assert FormatG(f)[0] == '-' <==> f.neg;
    assert FormatG(d)[|s|..] == Body(d) && FormatG(f)[|t|..] == Body(f);
    BodyInjective(d, f);
  }

  lemma FormatGIsNotZero(d: Float)
    requires d.Finite?
    ensures FormatG(d) != "0"
  {
    BodyShape(d);
    assert FormatG(d) == (if d.neg then "-" else "") + Body(d);
  }

  function NumberKey(d: Float): string {
    if d == Zero then "n:0" else "n:" + FormatG(d)
  }

  lemma NumberKeyInjective(d: Float, f: Float)
    ensures NumberKey(d) == NumberKey(f) <==> d == f
  {
    if d.Finite? { FormatGIsNotZero(d); assert NumberKey(d)[2..] == FormatG(d); }
    if f.Finite? { FormatGIsNotZero(f); assert NumberKey(f)[2..] == FormatG(f); }
    assert "n:0"[2..] == "0";
    if d.Finite? && f.Finite? && NumberKey(d) == NumberKey(f) {
      FormatGInjective(d, f);
    }
  }

  /** Keys are exact: two usable ids share a key if and only if they are the same id. */
  lemma IdKeyExact(parse: Reading, a: Text, b: Text)
    requires ValidId(parse, Some(a)) && ValidId(parse, Some(b))
    ensures IdKey(parse, a) == IdKey(parse, b) <==> SameId(parse, a, b)
  {
    assert IdKey(parse, a)[0] == (if a.Str? then 's' else 'n');
    assert IdKey(parse, b)[0] == (if b.Str? then 's' else 'n');
    if a.Str? && b.Str? {
      assert IdKey(parse, a)[2..] == Strings.Unescape(a.body).value;
      assert IdKey(parse, b)[2..] == Strings.Unescape(b.body).value;
    } else if a.Atom? && b.Atom? {
      NumberKeyInjective(parse(a.lit).value, parse(b.lit).value);
    }
  }
}
