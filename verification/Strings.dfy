/** Decoding, canonical escaping and HTML-safe storage of JSON string bodies. */
module Strings {
  import opened Options
  import Hex
  import Json

  /** The character a two-character escape stands for. */
  function Simple(c: char): Option<char> {
    match c
    case '"' => Some('"')
    case '\\' => Some('\\')
    case '/' => Some('/')
    case 'b' => Some(8 as char)
    case 't' => Some('\t')
    case 'n' => Some('\n')
    case 'f' => Some(12 as char)
    case 'r' => Some('\r')
    case _ => None
  }

  function Cons(c: char, rest: Option<string>): Option<string> {
    if rest.None? then None else Some([c] + rest.value)
  }

  /** The UTF-16 code unit of the \uXXXX escape at the head of body. */
  function Unit(body: string): (u: Option<int>)
    requires |body| >= 6
    ensures u.Some? ==> 0 <= u.value < 0x1_0000
  {
    Hex.Four(body[2] as int, body[3] as int, body[4] as int, body[5] as int)
  }

  /** The decoded string, or None for a bad escape, a raw control or an unpaired surrogate. */
  function Unescape(body: string): Option<string> {
    if body == "" then Some("")
    else if body[0] != '\\' then
      if body[0] == '"' || body[0] < ' ' then None else Cons(body[0], Unescape(body[1..]))
    else if |body| < 2 then None
    else if body[1] != 'u' then
      if Simple(body[1]).None? then None else Cons(Simple(body[1]).value, Unescape(body[2..]))
    else if |body| < 6 then None
    else
      var unit := Unit(body);
      if unit.None? || Hex.Low(unit.value) then None
      else if !Hex.High(unit.value) then Cons(unit.value as char, Unescape(body[6..]))
      else if |body| < 12 || body[6] != '\\' || body[7] != 'u' then None
      else
        var low := Unit(body[6..]);
        if low.None? || !Hex.Low(low.value) then None
        else Cons(Hex.Pair(unit.value, low.value), Unescape(body[12..]))
  }

  // ---------- Canonical escaping ----------

  function UnicodeEscape(c: char): string
    requires c as int < 0x1_0000
  {
    "\\u" + Hex.Spell(c as int)
  }

  function EscapeChar(c: char): string {
    if c == '"' then "\\\""
    else if c == '\\' then "\\\\"
    else if c == 8 as char then "\\b"
    else if c == '\t' then "\\t"
    else if c == '\n' then "\\n"
    else if c == 12 as char then "\\f"
    else if c == '\r' then "\\r"
    else if c < ' ' then UnicodeEscape(c)
    else [c]
  }

  function Escape(s: string): string {
    if s == "" then "" else EscapeChar(s[0]) + Escape(s[1..])
  }

  // ---------- Storage: what encoding/json does to a body it embeds ----------

  predicate HtmlSensitive(c: char) {
    c in {'<', '>', '&', 0x2028 as char, 0x2029 as char}
  }

  function HtmlChar(c: char): string {
    if HtmlSensitive(c) then UnicodeEscape(c) else [c]
  }

  function Html(body: string): string {
    if body == "" then "" else HtmlChar(body[0]) + Html(body[1..])
  }

  /** A Go string as encoding/json writes it. */
  function GoQuote(s: string): string {
    Html(Escape(s))
  }

  // ---------- What these say about each other ----------

  lemma UnescapeUnicode(c: char, rest: string)
    requires c as int < 0x1_0000
    ensures Unescape(UnicodeEscape(c) + rest) == Cons(c, Unescape(rest))
  {
    var b := UnicodeEscape(c) + rest;
    Hex.FourSpell(c as int);
    assert Unit(b) == Some(c as int);
    assert b[6..] == rest;
  }

  lemma UnescapeChar(c: char, rest: string)
    ensures Unescape(EscapeChar(c) + rest) == Cons(c, Unescape(rest))
  {
    var b := EscapeChar(c) + rest;
    if |EscapeChar(c)| == 6 {
      UnescapeUnicode(c, rest);
    } else {
      assert b[|EscapeChar(c)|..] == rest;
    }
  }

  /** Escaping is undone by decoding, so it loses nothing and is injective. */
  lemma {:induction false} UnescapeEscape(s: string)
    ensures Unescape(Escape(s)) == Some(s)
  {
    if s != "" {
      UnescapeChar(s[0], Escape(s[1..]));
      UnescapeEscape(s[1..]);
      assert s == [s[0]] + s[1..];
    }
  }

  lemma EscapeIsBody(body: string)
    requires |body| >= 6 && body[..2] == "\\u" && Unit(body).Some? && Json.BodyOk(body[6..])
    ensures Json.BodyOk(body)
  {
    assert body[0] == body[..2][0] && body[1] == body[..2][1];
    var n := 5;
    while n >= 2
      invariant 1 <= n <= 5 && Json.BodyOk(body[n + 1..])
    {
      assert body[n..][1..] == body[n + 1..];
      assert Hex.Digit(body[n] as int) >= 0;
      n := n - 1;
    }
  }

  lemma {:induction false} DecodableIsBody(body: string)
    requires Unescape(body).Some?
    ensures Json.BodyOk(body)
  {
    if body != "" {
      if body[0] != '\\' {
        DecodableIsBody(body[1..]);
      } else if body[1] != 'u' {
        DecodableIsBody(body[2..]);
      } else {
        var n := if Hex.High(Unit(body).value) then 12 else 6;
        DecodableIsBody(body[n..]);
        assert n == 12 ==> Json.BodyOk(body[6..]) by { if n == 12 { EscapeIsBody(body[6..]); } }
        EscapeIsBody(body);
      }
    }
  }

  lemma HtmlStep(c: char, rest: string)
    ensures Html([c] + rest) == HtmlChar(c) + Html(rest)
  {
    assert ([c] + rest)[1..] == rest;
  }

  lemma Assoc(a: string, b: string, c: string)
    ensures a + (b + c) == (a + b) + c
  {
  }

  lemma HtmlPlainStep(c: char, p: string, rest: string)
    requires !HtmlSensitive(c) && Html(p + rest) == p + Html(rest)
    ensures Html(([c] + p) + rest) == ([c] + p) + Html(rest)
  {
    Assoc([c], p, rest);
    HtmlStep(c, p + rest);
    Assoc([c], p, Html(rest));
  }

  lemma {:induction false} HtmlPlain(prefix: string, rest: string)
    requires forall c | c in prefix :: !HtmlSensitive(c)
    ensures Html(prefix + rest) == prefix + Html(rest)
  {
    if prefix == "" {
      assert prefix + rest == rest;
    } else {
      var p := prefix[1..];
      assert prefix[0] in prefix && forall c | c in p :: c in prefix;
      HtmlPlain(p, rest);
      HtmlPlainStep(prefix[0], p, rest);
      assert prefix == [prefix[0]] + p;
    }
  }

  lemma HtmlSkip(body: string, n: nat)
    requires n <= |body| && forall k | 0 <= k < n :: !HtmlSensitive(body[k])
    ensures Html(body) == body[..n] + Html(body[n..])
    ensures |Html(body)| >= n && Html(body)[n..] == Html(body[n..])
    ensures forall k | 0 <= k < n :: Html(body)[k] == body[k]
  {
    assert body == body[..n] + body[n..];
    HtmlPlain(body[..n], body[n..]);
  }

  /** A unicode escape is stored as it is. */
  lemma HtmlUnit(body: string)
    requires |body| >= 6 && body[0] == '\\' && body[1] == 'u' && Unit(body).Some?
    ensures |Html(body)| >= 6 && Html(body)[..6] == body[..6] && Html(body)[6..] == Html(body[6..])
    ensures Unit(Html(body)) == Unit(body)
  {
    assert forall k | 2 <= k < 6 :: Hex.Digit(body[k] as int) >= 0;
    HtmlSkip(body, 6);
  }

  /** A lone escape before a body that keeps its meaning. */
  lemma HtmlDecodesLone(body: string)
    requires Unescape(body).Some? && body != "" && body[0] == '\\' && body[1] == 'u' && !Hex.High(Unit(body).value)
    ensures Unescape(body[6..]).Some?
    ensures Unescape(Html(body[6..])) == Unescape(body[6..]) ==> Unescape(Html(body)) == Unescape(body)
  {
    HtmlUnit(body);
    assert Html(body)[0] == Html(body)[..6][0] && Html(body)[1] == Html(body)[..6][1];
  }

  lemma HtmlPair(body: string)
    requires Unescape(body).Some? && body != "" && body[0] == '\\' && body[1] == 'u' && Hex.High(Unit(body).value)
    ensures |body| >= 12 && |Html(body)| >= 12 && Html(body)[0] == '\\' && Html(body)[1] == 'u'
    ensures Html(body)[6] == '\\' && Html(body)[7] == 'u' && Unit(Html(body)) == Unit(body)
    ensures Unit(Html(body)[6..]) == Unit(body[6..]) && Html(body)[12..] == Html(body[12..])
  {
    var rest, html := body[6..], Html(body);
    HtmlUnit(body);
    HtmlUnit(rest);
    assert html[0] == html[..6][0] && html[1] == html[..6][1];
    assert html[6] == html[6..][..6][0] && html[7] == html[6..][..6][1];
    assert html[12..] == html[6..][6..] && rest[6..] == body[12..];
  }

  /** A surrogate pair before a body that keeps its meaning. */
  lemma HtmlDecodesPair(body: string)
    requires Unescape(body).Some? && body != "" && body[0] == '\\' && body[1] == 'u' && Hex.High(Unit(body).value)
    ensures Unescape(body[12..]).Some?
    ensures Unescape(Html(body[12..])) == Unescape(body[12..]) ==> Unescape(Html(body)) == Unescape(body)
  {
    HtmlPair(body);
  }

  /** Storing a valid body with its HTML-sensitive characters escaped keeps its meaning. */
  lemma {:induction false} HtmlDecodes(body: string)
    requires Unescape(body).Some?
    ensures Unescape(Html(body)) == Unescape(body)
  {
    if body == "" {
    } else if body[0] != '\\' {
      HtmlDecodes(body[1..]);
      if HtmlSensitive(body[0]) {
        UnescapeUnicode(body[0], Html(body[1..]));
      } else {
        assert Html(body)[1..] == Html(body[1..]);
      }
    } else if body[1] != 'u' {
      HtmlSkip(body, 2);
      HtmlDecodes(body[2..]);
    } else {
      if Hex.High(Unit(body).value) {
        HtmlDecodesPair(body);
        HtmlDecodes(body[12..]);
      } else {
        HtmlDecodesLone(body);
        HtmlDecodes(body[6..]);
      }
    }
  }

  lemma HtmlLeavesNone(body: string)
    ensures forall c | c in Html(body) :: !HtmlSensitive(c)
  {
  }

  /** Storing twice is storing once. */
  lemma HtmlIdempotent(body: string)
    ensures Html(Html(body)) == Html(body)
  {
    HtmlLeavesNone(body);
    HtmlPlain(Html(body), "");
    assert Html(body) + "" == Html(body);
  }

  lemma GoQuoteDecodes(s: string)
    ensures Unescape(GoQuote(s)) == Some(s)
  {
    UnescapeEscape(s);
    HtmlDecodes(Escape(s));
  }

  /** A name spelled in plain letters and digits is stored as it is. */
  predicate Plain(s: string) {
    forall c | c in s :: 'a' <= c <= 'z' || '0' <= c <= '9' || c == '_'
  }

  lemma PlainChar(c: char)
    requires 'a' <= c <= 'z' || '0' <= c <= '9' || c == '_'
    ensures EscapeChar(c) == [c]
  {
  }

  lemma PlainEscape(s: string)
    requires Plain(s)
    ensures Escape(s) == s
  {
    if s != "" {
      assert s[0] in s;
      PlainChar(s[0]);
      assert Plain(s[1..]) by { assert forall c | c in s[1..] :: c in s; }
      PlainEscape(s[1..]);
      assert s == [s[0]] + s[1..];
    }
  }

  lemma PlainQuote(s: string)
    requires Plain(s)
    ensures GoQuote(s) == s && Unescape(s) == Some(s)
  {
    PlainEscape(s);
    HtmlPlain(s, "");
    assert s + "" == s;
    UnescapeEscape(s);
  }

  // ---------- The escapes are the standard's, and the canonical ones the shortest ----------

  /** The two-character escapes of section 7 of RFC 8259. */
  const ESCAPES: set<(char, int)> :=
    {('"', 0x22), ('\\', 0x5C), ('/', 0x2F), ('b', 0x08), ('f', 0x0C), ('n', 0x0A), ('r', 0x0D), ('t', 0x09)}

  lemma SimpleExactly(c: char, d: char)
    ensures Simple(c) == Some(d) <==> (c, d as int) in ESCAPES
  {
  }

  predicate NoUpperHex(s: string) {
    forall i | 0 <= i < |s| :: !('A' <= s[i] <= 'F')
  }

  lemma HexUnique(a: int, b: int, c: int, d: int, p: int, q: int, r: int, s: int)
    requires Hex.Four(a, b, c, d).Some? && Hex.Four(a, b, c, d) == Hex.Four(p, q, r, s)
    ensures Hex.Digit(a) == Hex.Digit(p) && Hex.Digit(b) == Hex.Digit(q)
    ensures Hex.Digit(c) == Hex.Digit(r) && Hex.Digit(d) == Hex.Digit(s)
  {
  }

  lemma LowerUnique(x: char, y: char)
    requires Hex.Digit(x as int) == Hex.Digit(y as int) >= 0 && !('A' <= x <= 'F') && !('A' <= y <= 'F')
    ensures x == y
  {
  }

  lemma EmptyBody(body: string)
    requires Unescape(body) == Some("")
    ensures body == ""
  {
  }

  /** A decoded single character comes from one of three forms. */
  lemma OneChar(body: string, c: char)
    requires Unescape(body) == Some([c])
    ensures body != ""
    ensures if body[0] != '\\' then body == [c] && c >= ' ' && c != '"'
            else if |body| >= 2 && body[1] != 'u' then body == body[..2] && Simple(body[1]) == Some(c)
            else |body| >= 6
  {
    if body[0] != '\\' {
      assert [body[0]] + Unescape(body[1..]).value == [c];
      assert Unescape(body[1..]).value == "";
      EmptyBody(body[1..]);
    } else if |body| >= 2 && body[1] != 'u' {
      assert [Simple(body[1]).value] + Unescape(body[2..]).value == [c];
      assert Unescape(body[2..]).value == "";
      EmptyBody(body[2..]);
    }
  }

  lemma UnicodeBody(body: string, c: char)
    requires Unescape(body) == Some([c]) && |body| == 6 && body[0] == '\\' && body[1] == 'u'
    ensures Unit(body) == Some(c as int)
  {
  }

  /** The three forms of a canonical escape. */
  lemma EscapeForm(c: char)
    ensures var e := EscapeChar(c);
            if c >= ' ' && c != '"' && c != '\\' then e == [c]
            else if |e| == 2 then e[0] == '\\' && e[1] != 'u' && Simple(e[1]) == Some(c)
            else |e| == 6 && e[0] == '\\' && e[1] == 'u' && c as int < 0x1_0000 && e == UnicodeEscape(c)
                 && forall x :: Simple(x) != Some(c)
  {
  }

  lemma LowerFour(a: string, b: string)
    requires |a| >= 6 && |b| >= 6 && NoUpperHex(a) && NoUpperHex(b) && Unit(a).Some? && Unit(a) == Unit(b)
    ensures a[2] == b[2] && a[3] == b[3] && a[4] == b[4] && a[5] == b[5]
  {
    HexUnique(a[2] as int, a[3] as int, a[4] as int, a[5] as int, b[2] as int, b[3] as int, b[4] as int, b[5] as int);
    LowerUnique(a[2], b[2]);
    LowerUnique(a[3], b[3]);
    LowerUnique(a[4], b[4]);
    LowerUnique(a[5], b[5]);
  }

  lemma UnicodeEscapeLower(c: char)
    requires c as int < 0x1_0000
    ensures |UnicodeEscape(c)| == 6 && NoUpperHex(UnicodeEscape(c)) && Unit(UnicodeEscape(c)) == Some(c as int)
  {
    Hex.FourSpell(c as int);
  }

  lemma SixUnique(body: string, c: char)
    requires |body| == 6 && body[0] == '\\' && body[1] == 'u' && NoUpperHex(body) && Unit(body) == Some(c as int)
    requires c as int < 0x1_0000
    ensures body == UnicodeEscape(c)
  {
    UnicodeEscapeLower(c);
    LowerFour(body, UnicodeEscape(c));
  }

  lemma SimpleInjective(x: char, y: char)
    requires Simple(x).Some? && Simple(x) == Simple(y)
    ensures x == y
  {
  }

  /**
   The canonical escape of a character is the only shortest body that decodes to it, hexadecimal
   digits in lower case: the character itself if it may stand so, else two characters if there
   is such an escape, else six.
   */
  lemma EscapeShortest(c: char, body: string)
    requires Unescape(body) == Some([c])
    ensures |EscapeChar(c)| <= |body|
    ensures |EscapeChar(c)| == |body| && NoUpperHex(body) ==> body == EscapeChar(c)
  {
    OneChar(body, c);
    EscapeForm(c);
    if body[0] == '\\' && body[1] != 'u' {
      if |EscapeChar(c)| == 2 { SimpleInjective(body[1], EscapeChar(c)[1]); }
    } else if body[0] == '\\' && |body| == 6 {
      UnicodeBody(body, c);
      if |EscapeChar(c)| == 6 && NoUpperHex(body) { SixUnique(body, c); }
    }
  }

  /** Storage escapes these five characters and no other. */
  lemma HtmlExactly(c: char)
    ensures HtmlChar(c) == [c] <==> c !in {'<', '>', '&'} && c as int !in {0x2028, 0x2029}
  {
  }
}
