/** jsoncheck.Validate on a text: the escape scan over its bytes, then the check over its tokens. */
module Validator {
  import opened Bytes
  import opened Json
  import opened JsonCheck
  import Escapes
  import Strings
  import Surrogates
  import Utf8

  /** A stretch of text as the lexer sees it. */
  datatype Part = Space(b: Byte) | Token(lex: Lex)

  /** A text: what the lexer reads, then the bytes at which it gives up, if any. */
  datatype Source = Source(parts: seq<Part>, tail: seq<Byte>)

  const QUOTE: Byte := Surrogates.QUOTE

  function TokenBytes(lex: Lex): seq<Byte> {
    match lex
    case LBracket => ['[' as int]
    case RBracket => [']' as int]
    case LBrace => ['{' as int]
    case RBrace => ['}' as int]
    case Colon => [':' as int]
    case Comma => [',' as int]
    case LStr(body) => [QUOTE] + (Utf8.Encode(body) + [QUOTE])
    case LAtom(lit) => Utf8.Encode(lit)
    case LBad => []
  }

  /** Strings are lexically legal, whatever their escapes stand for. */
  predicate PartOk(p: Part) {
    match p
    case Space(b) => b in {0x20, 0x09, 0x0A, 0x0D}
    case Token(LStr(body)) => Escapes.Legal(body)
    case Token(LAtom(lit)) => AtomOk(lit)
    case Token(lex) => lex != LBad
  }

  predicate SourceOk(src: Source) { forall p | p in src.parts :: PartOk(p) }

  function PartBytes(p: Part): seq<Byte> {
    if p.Space? then [p.b] else TokenBytes(p.lex)
  }

  function PartsBytes(parts: seq<Part>): seq<Byte> {
    if parts == [] then [] else PartBytes(parts[0]) + PartsBytes(parts[1..])
  }

  function Raw(src: Source): seq<Byte> { PartsBytes(src.parts) + src.tail }

  function Tokens(parts: seq<Part>): seq<Lex> {
    if parts == [] then []
    else (if parts[0].Token? then [parts[0].lex] else []) + Tokens(parts[1..])
  }

  /** What the decoder gets: white space is gone, and an unreadable tail is an error. */
  function Lexed(src: Source): seq<Lex> {
    Tokens(src.parts) + (if src.tail == [] then [] else [LBad])
  }

  // ---------- The bytes as the scanner sees them ----------

  function Outsides(bytes: seq<Byte>): seq<Surrogates.Piece> {
    seq(|bytes|, i requires 0 <= i < |bytes| => Surrogates.Outside(bytes[i]))
  }

  function Pieces(p: Part): seq<Surrogates.Piece>
    requires PartOk(p)
  {
    if p.Token? && p.lex.LStr? then [Surrogates.Literal(Escapes.Items(p.lex.body))] else Outsides(PartBytes(p))
  }

  predicate PiecesOk(ps: seq<Surrogates.Piece>) { forall p | p in ps :: Surrogates.PieceOk(p) }

  predicate AllPaired(ps: seq<Surrogates.Piece>)
    requires PiecesOk(ps)
  {
    forall p | p in ps :: Surrogates.LiteralPaired(p)
  }

  predicate Decodes(p: Part) {
    p.Token? && p.lex.LStr? ==> Strings.Unescape(p.lex.body).Some?
  }

  lemma {:induction false} RenderOutsides(bytes: seq<Byte>)
    ensures Surrogates.Render(Outsides(bytes)) == bytes
  {
    if bytes != [] {
      RenderOutsides(bytes[1..]);
      assert Outsides(bytes)[1..] == Outsides(bytes[1..]);
      assert bytes == [bytes[0]] + bytes[1..];
    }
  }

  /** No quote outside the strings. */
  lemma {:induction false} NoQuote(s: string)
    requires forall c | c in s :: c != '"'
    ensures QUOTE !in Utf8.Encode(s)
  {
    if s != "" {
      assert s[0] in s && forall c | c in s[1..] :: c in s;
      NoQuote(s[1..]);
      if QUOTE in Utf8.Units(s[0]) { Utf8.AsciiExact(s[0], QUOTE); }
    }
  }

  lemma OutsidesOk(bytes: seq<Byte>)
    requires QUOTE !in bytes
    ensures PiecesOk(Outsides(bytes)) && AllPaired(Outsides(bytes))
  {
    assert forall i | 0 <= i < |bytes| :: bytes[i] in bytes;
  }

  lemma PartPieces(p: Part)
    requires PartOk(p)
    ensures PiecesOk(Pieces(p)) && Surrogates.Render(Pieces(p)) == PartBytes(p)
    ensures AllPaired(Pieces(p)) <==> Decodes(p)
  {
    if p.Token? && p.lex.LStr? {
      var body := p.lex.body;
      Escapes.ItemsOk(body);
      Escapes.ItemsSpell(body);
      Escapes.DecodesExactly(body);
      assert Pieces(p)[0] in Pieces(p) && Pieces(p)[1..] == [];
    } else {
      if p.Token? && p.lex.LAtom? { NoQuote(p.lex.lit); }
      OutsidesOk(PartBytes(p));
      RenderOutsides(PartBytes(p));
    }
  }

  /** Behind any part the scan goes on exactly when the part decodes. */
  lemma ScanPart(p: Part, rest: seq<Byte>)
    requires PartOk(p)
    ensures Surrogates.Scan(PartBytes(p) + rest, false) <==> Decodes(p) && Surrogates.Scan(rest, false)
  {
    PartPieces(p);
    Surrogates.ScanPieces(Pieces(p), rest);
  }

  lemma {:induction false} ScanParts(parts: seq<Part>, tail: seq<Byte>)
    requires forall p | p in parts :: PartOk(p)
    ensures Surrogates.Scan(PartsBytes(parts) + tail, false) <==>
            (forall p | p in parts :: Decodes(p)) && Surrogates.Scan(tail, false)
  {
    if parts == [] {
      assert PartsBytes(parts) + tail == tail;
    } else {
      assert forall p :: p in parts <==> p == parts[0] || p in parts[1..];
      ScanParts(parts[1..], tail);
      Escapes.Assoc(PartBytes(parts[0]), PartsBytes(parts[1..]), tail);
      ScanPart(parts[0], PartsBytes(parts[1..]) + tail);
    }
  }

  lemma DecodableAppend(a: seq<Lex>, b: seq<Lex>)
    ensures AllDecodable(a + b) <==> AllDecodable(a) && AllDecodable(b)
  {
    if AllDecodable(a + b) {
      forall i | 0 <= i < |a| && a[i].LStr? ensures Strings.Unescape(a[i].body).Some? { assert (a + b)[i] == a[i]; }
      forall i | 0 <= i < |b| && b[i].LStr? ensures Strings.Unescape(b[i].body).Some? { assert (a + b)[|a| + i] == b[i]; }
    }
  }

  lemma {:induction false} TokensDecode(parts: seq<Part>)
    ensures AllDecodable(Tokens(parts)) <==> forall p | p in parts :: Decodes(p)
  {
    if parts != [] {
      TokensDecode(parts[1..]);
      assert forall p :: p in parts <==> p == parts[0] || p in parts[1..];
      var head := if parts[0].Token? then [parts[0].lex] else [];
      assert AllDecodable(head) <==> Decodes(parts[0]) by {
        if parts[0].Token? { assert head[0] == parts[0].lex; }
      }
      DecodableAppend(head, Tokens(parts[1..]));
    }
  }

  /**
   The scan over the whole text: it accepts only texts whose strings all decode, and where
   the lexer reads everything it accepts exactly those.
   */
  lemma ScanDecides(src: Source)
    requires SourceOk(src)
    ensures Surrogates.Scan(Raw(src), false) <==> AllDecodable(Lexed(src)) && Surrogates.Scan(src.tail, false)
  {
    ScanParts(src.parts, src.tail);
    TokensDecode(src.parts);
    DecodableAppend(Tokens(src.parts), if src.tail == [] then [] else [LBad]);
  }

  lemma {:induction false} LexemesGood(t: Text)
    ensures LBad !in Lexemes(t)
    decreases t, 0
  {
    match t
    case Atom(_) =>
    case Str(_) =>
    case Arr(elems) => ElemsGood(elems, true);
    case Obj(members) => MembersGood(members, true);
  }

  lemma {:induction false} ElemsGood(elems: seq<Text>, first: bool)
    ensures LBad !in LexElems(elems, first)
    decreases elems, 0
  {
    if elems != [] {
      LexemesGood(elems[0]);
      ElemsGood(elems[1..], false);
    }
  }

  lemma {:induction false} MembersGood(ms: seq<Member>, first: bool)
    ensures LBad !in LexMembers(ms, first)
    decreases ms, 0
  {
    if ms != [] {
      LexemesGood(ms[0].value);
      MembersGood(ms[1..], false);
    }
  }

  lemma TailShows(src: Source)
    ensures src.tail != [] ==> LBad in Lexed(src)
  {
  }

  /** A text of a valid tree has no unreadable tail, and its escapes pass the scan. */
  lemma ValidScans(src: Source, t: Text)
    requires SourceOk(src) && Lexemes(t) == Lexed(src) && Valid(t)
    ensures src.tail == [] && Surrogates.Scan(Raw(src), false)
  {
    LexemesGood(t);
    TailShows(src);
    StrictDecodes(t);
    ScanDecides(src);
  }

  /**
   The validator: a text is accepted if and only if the lexer reads all of it and its tokens
   spell exactly one tree with unique decoded names, decodable strings and bounded depth.
   */
  method Validate(src: Source) returns (ok: bool)
    requires SourceOk(src)
    ensures ok <==> src.tail == [] && exists t :: Lexemes(t) == Tokens(src.parts) && Valid(t)
  {
    ok := Surrogates.CheckSurrogates(Raw(src));
    if exists t :: Lexemes(t) == Lexed(src) && Valid(t) {
      var t :| Lexemes(t) == Lexed(src) && Valid(t);
      ValidScans(src, t);
    }
    assert src.tail == [] ==> Lexed(src) == Tokens(src.parts);
    if ok {
      ScanDecides(src);
      ok := OneValue(Lexed(src));
    }
  }

  // ---------- The compact text ----------

  /** Tokens with no white space between them. */
  function Tight(lex: seq<Lex>): seq<Part> {
    if lex == [] then [] else [Token(lex[0])] + Tight(lex[1..])
  }

  function LexBytes(lex: seq<Lex>): seq<Byte> {
    if lex == [] then [] else TokenBytes(lex[0]) + LexBytes(lex[1..])
  }

  lemma {:induction false} TightTokens(lex: seq<Lex>)
    ensures Tokens(Tight(lex)) == lex && PartsBytes(Tight(lex)) == LexBytes(lex)
  {
    if lex != [] {
      TightTokens(lex[1..]);
      assert Tight(lex)[1..] == Tight(lex[1..]);
    }
  }

  lemma {:induction false} LexBytesAppend(a: seq<Lex>, b: seq<Lex>)
    ensures LexBytes(a + b) == LexBytes(a) + LexBytes(b)
  {
    if a == [] {
      assert a + b == b;
    } else {
      assert (a + b)[1..] == a[1..] + b;
      LexBytesAppend(a[1..], b);
    }
  }

  lemma {:induction false} EncodeAppend(s: string, u: string)
    ensures Utf8.Encode(s + u) == Utf8.Encode(s) + Utf8.Encode(u)
  {
    if s == "" {
      assert s + u == u;
    } else {
      assert (s + u)[1..] == s[1..] + u;
      EncodeAppend(s[1..], u);
    }
  }

  lemma OneToken(l: Lex)
    ensures LexBytes([l]) == TokenBytes(l)
  {
    assert [l][1..] == [];
  }

  lemma Marks(c: char)
    requires (c as int) < 0x80
    ensures Utf8.Encode([c]) == [c as int]
  {
    assert [c][1..] == "";
  }

  lemma QuotedBytes(body: string)
    ensures Utf8.Encode(Quoted(body)) == TokenBytes(LStr(body))
  {
    Marks('"');
    EncodeAppend("\"", body + "\"");
    EncodeAppend(body, "\"");
    assert Quoted(body) == "\"" + (body + "\"");
  }

  lemma SepBytes(first: bool)
    ensures Utf8.Encode(if first then "" else ",") == LexBytes(Sep(first))
  {
    Marks(',');
    OneToken(Comma);
  }

  /** Three texts, each the bytes of its tokens, joined. */
  lemma Joined(s: string, u: string, v: string, a: seq<Lex>, b: seq<Lex>, c: seq<Lex>)
    requires Utf8.Encode(s) == LexBytes(a) && Utf8.Encode(u) == LexBytes(b) && Utf8.Encode(v) == LexBytes(c)
    ensures Utf8.Encode(s + (u + v)) == LexBytes(a + (b + c))
  {
    EncodeAppend(s, u + v);
    EncodeAppend(u, v);
    LexBytesAppend(a, b + c);
    LexBytesAppend(b, c);
  }

  /** A tree's compact text is, byte for byte, the tokens that spell it. */
  lemma {:induction false} PrintedTokens(t: Text)
    ensures Utf8.Encode(Print(t)) == LexBytes(Lexemes(t))
    decreases t, 0
  {
    match t
    case Atom(lit) => OneToken(LAtom(lit));
    case Str(body) =>
      OneToken(LStr(body));
      QuotedBytes(body);
    case Arr(elems) =>
      Marks('[');
      OneToken(LBracket);
      PrintedElems(elems, true);
      EncodeAppend("[", PrintElems(elems, true));
      LexBytesAppend([LBracket], LexElems(elems, true));
    case Obj(members) =>
      Marks('{');
      OneToken(LBrace);
      PrintedMembers(members, true);
      EncodeAppend("{", PrintMembers(members, true));
      LexBytesAppend([LBrace], LexMembers(members, true));
  }

  lemma {:induction false} PrintedElems(elems: seq<Text>, first: bool)
    ensures Utf8.Encode(PrintElems(elems, first)) == LexBytes(LexElems(elems, first))
    decreases elems, 0
  {
    if elems == [] {
      Marks(']');
      OneToken(RBracket);
    } else {
      PrintedTokens(elems[0]);
      PrintedElems(elems[1..], false);
      SepBytes(first);
      Joined(if first then "" else ",", Print(elems[0]), PrintElems(elems[1..], false),
             Sep(first), Lexemes(elems[0]), LexElems(elems[1..], false));
    }
  }

  lemma {:induction false} PrintedMembers(ms: seq<Member>, first: bool)
    ensures Utf8.Encode(PrintMembers(ms, first)) == LexBytes(LexMembers(ms, first))
    decreases ms, 0
  {
    if ms == [] {
      Marks('}');
      OneToken(RBrace);
    } else {
      PrintedMember(ms[0]);
      PrintedMembers(ms[1..], false);
      SepBytes(first);
      Joined(if first then "" else ",", PrintMember(ms[0]), PrintMembers(ms[1..], false),
             Sep(first), LexMember(ms[0]), LexMembers(ms[1..], false));
    }
  }

  lemma {:induction false} PrintedMember(m: Member)
    ensures Utf8.Encode(PrintMember(m)) == LexBytes(LexMember(m))
    decreases m, 0
  {
    QuotedBytes(m.name);
    OneToken(LStr(m.name));
    Marks(':');
    OneToken(Colon);
    PrintedTokens(m.value);
    Joined(Quoted(m.name), ":", Print(m.value), [LStr(m.name)], [Colon], Lexemes(m.value));
    assert [LStr(m.name), Colon] + Lexemes(m.value) == [LStr(m.name)] + ([Colon] + Lexemes(m.value));
  }

  /** What is printed is read: a source of those bytes whose tokens spell the tree. */
  lemma PrintedIsRead(t: Text) returns (src: Source)
    ensures Raw(src) == Utf8.Encode(Print(t)) && src.tail == [] && Tokens(src.parts) == Lexemes(t)
  {
    src := Source(Tight(Lexemes(t)), []);
    PrintedTokens(t);
    TightTokens(Lexemes(t));
  }
}
