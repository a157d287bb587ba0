/** String bodies as bytes: the escape scan decides exactly which bodies decode. */
module Escapes {
  import opened Options
  import opened Bytes
  import opened Surrogates
  import Hex
  import Strings
  import Utf8

  predicate HexDigits(s: string) {
    forall i | 0 <= i < |s| :: Hex.Digit(s[i] as int) >= 0
  }

  /** What the lexer accepts between two quotes, whatever the escapes stand for. */
  predicate Legal(body: string) {
    if body == "" then true
    else if body[0] != '\\' then body[0] != '"' && body[0] >= ' ' && Legal(body[1..])
    else if |body| < 2 then false
    else if body[1] != 'u' then Strings.Simple(body[1]).Some? && Legal(body[2..])
    else |body| >= 6 && HexDigits(body[2..6]) && Legal(body[6..])
  }

  function PlainItems(bytes: seq<Byte>): seq<Item> {
    seq(|bytes|, i requires 0 <= i < |bytes| => Plain(bytes[i]))
  }

  function Code(c: char): Byte
    requires Hex.Digit(c as int) >= 0
  {
    c as int
  }

  function DigitBytes(s: string): seq<Byte>
    requires HexDigits(s)
  {
    seq(|s|, i requires 0 <= i < |s| => Code(s[i]))
  }

  /** The scanner's view of a body. */
  function Items(body: string): seq<Item>
    requires Legal(body)
  {
    if body == "" then []
    else if body[0] != '\\' then PlainItems(Utf8.Units(body[0])) + Items(body[1..])
    else if body[1] != 'u' then [Escape(body[1] as int)] + Items(body[2..])
    else [Unicode(DigitBytes(body[2..6]))] + Items(body[6..])
  }

  predicate AllOk(items: seq<Item>) {
    forall it | it in items :: ItemOk(it)
  }

  // ---------- The items are the body's bytes ----------

  lemma Assoc(a: seq<Byte>, b: seq<Byte>, c: seq<Byte>)
    ensures a + (b + c) == (a + b) + c
  {
  }

  lemma {:induction false} RenderAppend(a: seq<Item>, b: seq<Item>)
    ensures RenderItems(a + b) == RenderItems(a) + RenderItems(b)
  {
    if a == [] {
      assert a + b == b;
    } else {
      RenderAppend(a[1..], b);
      assert (a + b)[1..] == a[1..] + b;
      Assoc(RenderItem(a[0]), RenderItems(a[1..]), RenderItems(b));
    }
  }

  lemma {:induction false} RenderPlain(bytes: seq<Byte>)
    ensures RenderItems(PlainItems(bytes)) == bytes
  {
    if bytes != [] {
      RenderPlain(bytes[1..]);
      assert PlainItems(bytes)[1..] == PlainItems(bytes[1..]);
      assert bytes == [bytes[0]] + bytes[1..];
    }
  }

  lemma RenderCons(it: Item, rest: seq<Item>)
    ensures RenderItems([it] + rest) == RenderItem(it) + RenderItems(rest)
  {
    assert ([it] + rest)[1..] == rest;
  }

  lemma EncodeStep(c: char, rest: string)
    ensures Utf8.Encode([c] + rest) == Utf8.Units(c) + Utf8.Encode(rest)
  {
    assert ([c] + rest)[1..] == rest;
  }

  predicate Codes(s: string, codes: seq<Byte>) {
    |codes| == |s| && forall i | 0 <= i < |s| :: s[i] as int == codes[i] < 0x80
  }

  /** ASCII text encodes as its own codes. */
  lemma {:induction false} EncodeAscii(s: string, codes: seq<Byte>, rest: string)
    requires Codes(s, codes)
    ensures Utf8.Encode(s + rest) == codes + Utf8.Encode(rest)
  {
    if s == "" {
      assert s + rest == rest;
      assert codes + Utf8.Encode(rest) == Utf8.Encode(rest);
    } else {
      EncodeAscii(s[1..], codes[1..], rest);
      assert s + rest == [s[0]] + (s[1..] + rest);
      EncodeStep(s[0], s[1..] + rest);
      Assoc([codes[0]], codes[1..], Utf8.Encode(rest));
      assert codes == [codes[0]] + codes[1..];
    }
  }

  lemma SimpleAscii(c: char)
    requires Strings.Simple(c).Some?
    ensures c as int < 0x80
  {
  }

  lemma DigitsAscii(s: string)
    requires HexDigits(s)
    ensures Codes(s, DigitBytes(s))
  {
  }

  lemma Split(body: string, n: nat)
    requires n <= |body|
    ensures body == body[..n] + body[n..]
  {
  }

  lemma RenderEscape(body: string)
    requires Legal(body) && body != "" && body[0] == '\\' && body[1] != 'u'
    requires RenderItems(Items(body[2..])) == Utf8.Encode(body[2..])
    ensures RenderItems(Items(body)) == Utf8.Encode(body)
  {
    var it := Escape(body[1] as int);
    SimpleAscii(body[1]);
    RenderCons(it, Items(body[2..]));
    EncodeAscii(body[..2], RenderItem(it), body[2..]);
    Split(body, 2);
  }

  /** The bytes of a unicode escape are its item's. */
  lemma UnicodeCodes(body: string)
    requires |body| >= 6 && body[0] == '\\' && body[1] == 'u' && HexDigits(body[2..6])
    ensures Codes(body[..6], RenderItem(Unicode(DigitBytes(body[2..6]))))
  {
    DigitsAscii(body[2..6]);
    assert forall i | 2 <= i < 6 :: body[..6][i] == body[2..6][i - 2];
  }

  lemma RenderUnicode(body: string)
    requires Legal(body) && body != "" && body[0] == '\\' && body[1] == 'u'
    requires RenderItems(Items(body[6..])) == Utf8.Encode(body[6..])
    ensures RenderItems(Items(body)) == Utf8.Encode(body)
  {
    var it := Unicode(DigitBytes(body[2..6]));
    RenderCons(it, Items(body[6..]));
    UnicodeCodes(body);
    EncodeAscii(body[..6], RenderItem(it), body[6..]);
    Split(body, 6);
  }

  lemma {:induction false} ItemsSpell(body: string)
    requires Legal(body)
    ensures RenderItems(Items(body)) == Utf8.Encode(body)
  {
    if body == "" {
    } else if body[0] != '\\' {
      ItemsSpell(body[1..]);
      RenderAppend(PlainItems(Utf8.Units(body[0])), Items(body[1..]));
      RenderPlain(Utf8.Units(body[0]));
    } else if body[1] != 'u' {
      ItemsSpell(body[2..]);
      RenderEscape(body);
    } else {
      ItemsSpell(body[6..]);
      RenderUnicode(body);
    }
  }

  lemma PlainOk(c: char)
    requires c != '"' && c != '\\'
    ensures AllOk(PlainItems(Utf8.Units(c)))
  {
    var u := Utf8.Units(c);
    forall i | 0 <= i < |u| ensures ItemOk(Plain(u[i])) {
      if u[i] < 0x80 { Utf8.AsciiExact(c, u[i]); }
    }
  }

  lemma DigitsValue(s: string)
    requires |s| == 4 && HexDigits(s)
    ensures Hex4Spec(DigitBytes(s)) == Hex.Four(s[0] as int, s[1] as int, s[2] as int, s[3] as int)
    ensures Hex4Spec(DigitBytes(s)).Some?
  {
  }

  lemma {:induction false} ItemsOk(body: string)
    requires Legal(body)
    ensures AllOk(Items(body))
  {
    if body == "" {
    } else if body[0] != '\\' {
      PlainOk(body[0]);
      ItemsOk(body[1..]);
    } else if body[1] != 'u' {
      SimpleAscii(body[1]);
      ItemsOk(body[2..]);
    } else {
      DigitsValue(body[2..6]);
      ItemsOk(body[6..]);
    }
  }

  // ---------- Paired escapes are decodable escapes ----------

  /** The code units of a body's items. */
  function BodyUnits(body: string): seq<int>
    requires Legal(body)
  {
    ItemsOk(body);
    Units(Items(body))
  }

  lemma UnitsPlain(c: char, rest: seq<Item>)
    requires AllOk(PlainItems(Utf8.Units(c))) && AllOk(rest)
    ensures AllOk(PlainItems(Utf8.Units(c)) + rest)
    ensures var k := |Utf8.Units(c)|;
            Units(PlainItems(Utf8.Units(c)) + rest) == seq(k, _ => 0) + Units(rest)
  {
  }

  lemma {:induction false} PairedZeros(k: nat, u: seq<int>)
    ensures Paired(seq(k, _ => 0) + u) <==> Paired(u)
  {
    if k == 0 {
      assert seq(k, _ => 0) + u == u;
    } else {
      var all := seq(k, _ => 0) + u;
      PairedTail(all, 1);
      assert all[1..] == seq(k - 1, _ => 0) + u;
      PairedZeros(k - 1, u);
    }
  }

  /** A body's first unit is that of a leading unicode escape, and no surrogate otherwise. */
  lemma FirstUnit(body: string)
    requires Legal(body) && body != ""
    ensures |BodyUnits(body)| > 0
    ensures if |body| >= 6 && body[0] == '\\' && body[1] == 'u'
            then Strings.Unit(body) == Some(BodyUnits(body)[0]) && BodyUnits(body)[1..] == BodyUnits(body[6..])
            else BodyUnits(body)[0] == 0
    ensures body[0] == '\\' && body[1] != 'u' ==> BodyUnits(body)[1..] == BodyUnits(body[2..])
  {
    ItemsOk(body);
    if body[0] == '\\' {
      var n := if body[1] == 'u' then 6 else 2;
      ItemsOk(body[n..]);
      UnitsTail(Items(body), 1);
      assert Items(body)[1..] == Items(body[n..]);
      if n == 6 {
        DigitsValue(body[2..6]);
      }
    }
  }

  lemma PlainUnits(body: string)
    requires Legal(body) && body != "" && body[0] != '\\'
    ensures Paired(BodyUnits(body)) <==> Paired(BodyUnits(body[1..]))
  {
    PlainOk(body[0]);
    ItemsOk(body[1..]);
    UnitsPlain(body[0], Items(body[1..]));
    PairedZeros(|Utf8.Units(body[0])|, BodyUnits(body[1..]));
  }

  /** A low surrogate's escape comes next, and all is paired after it. */
  predicate LowThenPaired(body: string)
    requires Legal(body)
  {
    && |body| >= 6 && body[0] == '\\' && body[1] == 'u' && Strings.Unit(body).Some?
    && Hex.Low(Strings.Unit(body).value) && Paired(BodyUnits(body[6..]))
  }

  lemma UnicodeUnits(body: string)
    requires Legal(body) && body != "" && body[0] == '\\' && body[1] == 'u'
    ensures Strings.Unit(body).Some?
    ensures var unit := Strings.Unit(body).value;
            Paired(BodyUnits(body)) <==>
            if Hex.Low(unit) then false
            else if !Hex.High(unit) then Paired(BodyUnits(body[6..]))
            else LowThenPaired(body[6..])
  {
    var u, rest := BodyUnits(body), body[6..];
    FirstUnit(body);
    if Hex.Low(u[0]) {
      assert !PairedAt(u, 0);
    } else if !Hex.High(u[0]) {
      PairedTail(u, 1);
    } else {
      if rest != "" { FirstUnit(rest); }
      if rest != "" && rest[0] == '\\' && rest[1] == 'u' && Hex.Low(u[1]) {
        PairedTail(u, 2);
        assert u[2..] == u[1..][1..];
      } else {
        assert !PairedAt(u, 0);
      }
    }
  }

  /** A legal body decodes exactly when its unicode escapes are well-paired UTF-16. */
  lemma {:induction false} DecodesExactly(body: string)
    requires Legal(body)
    ensures Strings.Unescape(body).Some? <==> Paired(BodyUnits(body))
  {
    if body == "" {
    } else if body[0] != '\\' {
      PlainUnits(body);
      DecodesExactly(body[1..]);
    } else if body[1] != 'u' {
      FirstUnit(body);
      PairedTail(BodyUnits(body), 1);
      DecodesExactly(body[2..]);
    } else {
      UnicodeUnits(body);
      DecodesExactly(body[6..]);
      if |body| >= 12 && body[6] == '\\' && body[7] == 'u' {
        assert body[6..][6..] == body[12..];
        DecodesExactly(body[12..]);
      }
    }
  }

  lemma UnitIsDigits(body: string)
    requires |body| >= 6 && Strings.Unit(body).Some?
    ensures HexDigits(body[2..6])
  {
    assert forall i | 0 <= i < 4 :: body[2..6][i] == body[2 + i];
  }

  lemma {:induction false} DecodableIsLegal(body: string)
    requires Strings.Unescape(body).Some?
    ensures Legal(body)
  {
    if body == "" {
    } else if body[0] != '\\' {
      DecodableIsLegal(body[1..]);
    } else if body[1] != 'u' {
      DecodableIsLegal(body[2..]);
    } else {
      UnitIsDigits(body);
      if Hex.High(Strings.Unit(body).value) {
        UnitIsDigits(body[6..]);
        DecodableIsLegal(body[12..]);
        assert body[6..][6..] == body[12..];
        assert Legal(body[6..]);
      } else {
        DecodableIsLegal(body[6..]);
      }
    }
  }
}
