/**
 JSON text as a tree: what is left of a text once insignificant whitespace is gone.
 String bodies keep their escapes and scalars keep their exact spelling, so the same
 tree serves the canonicalizer (which decodes them) and the content commitment
 (which must not).
 */
module Json {
  datatype Text =
    | Atom(lit: string)           // null, true, false or a number literal
    | Str(body: string)           // the characters between the quotes
    | Arr(elems: seq<Text>)
    | Obj(members: seq<Member>)

  datatype Member = Member(name: string, value: Text)

  // ---------- Spelling ----------

  const STRUCTURAL: set<char> := {'"', '[', ']', '{', '}', ',', ':', ' ', '\t', '\n', '\r'}

  predicate AtomOk(lit: string) {
    lit != "" && forall c | c in lit :: c !in STRUCTURAL
  }

  /** A string body: no bare quote, and no escape cut short by the closing quote. */
  predicate BodyOk(body: string) {
    || body == ""
    || (body[0] == '\\' && |body| >= 2 && BodyOk(body[2..]))
    || (body[0] != '\\' && body[0] != '"' && BodyOk(body[1..]))
  }

  predicate Ok(t: Text) {
    match t
    case Atom(lit) => AtomOk(lit)
    case Str(body) => BodyOk(body)
    case Arr(elems) => forall e | e in elems :: Ok(e)
    case Obj(members) => forall m | m in members :: MemberOk(m)
  }

  predicate MemberOk(m: Member) {
    BodyOk(m.name) && Ok(m.value)
  }

  function Quoted(body: string): string {
    "\"" + body + "\""
  }

  /** The compact text of a tree. */
  function Print(t: Text): string
    decreases t, 0
  {
    match t
    case Atom(lit) => lit
    case Str(body) => Quoted(body)
    case Arr(elems) => "[" + PrintElems(elems, true)
    case Obj(members) => "{" + PrintMembers(members, true)
  }

  function PrintElems(elems: seq<Text>, first: bool): string
    decreases elems, 0
  {
    if elems == [] then "]"
    else (if first then "" else ",") + (Print(elems[0]) + PrintElems(elems[1..], false))
  }

  function PrintMembers(members: seq<Member>, first: bool): string
    decreases members, 0
  {
    if members == [] then "}"
    else (if first then "" else ",") + (PrintMember(members[0]) + PrintMembers(members[1..], false))
  }

  function PrintMember(m: Member): string
    decreases m, 0
  {
    Quoted(m.name) + (":" + Print(m.value))
  }

  // ---------- Unique readability ----------

  /** What may follow a value inside a larger text. */
  predicate Ends(rest: string) {
    rest != "" ==> rest[0] in {',', ']', '}'}
  }

  lemma {:induction false} BodyUnique(a: string, b: string, r: string, s: string)
    requires BodyOk(a) && BodyOk(b)
    requires a + "\"" + r == b + "\"" + s
    ensures a == b && r == s
  {
    if a == "" || b == "" {
      assert (a + "\"" + r)[0] == (b + "\"" + s)[0];
      assert a == "" && b == "";
      assert r == (a + "\"" + r)[1..] && s == (b + "\"" + s)[1..];
    } else {
      assert a[0] == (a + "\"" + r)[0] == (b + "\"" + s)[0] == b[0];
      var k := if a[0] == '\\' then 2 else 1;
      assert a[k..] + "\"" + r == (a + "\"" + r)[k..];
      assert b[k..] + "\"" + s == (b + "\"" + s)[k..];
      BodyUnique(a[k..], b[k..], r, s);
      if k == 2 {
        assert a[1] == (a + "\"" + r)[1] == (b + "\"" + s)[1] == b[1];
        assert a == [a[0], a[1]] + a[2..] && b == [b[0], b[1]] + b[2..];
      } else {
        assert a == [a[0]] + a[1..] && b == [b[0]] + b[1..];
      }
    }
  }

  lemma QuotedUnique(a: string, b: string, r: string, s: string)
    requires BodyOk(a) && BodyOk(b)
    requires Quoted(a) + r == Quoted(b) + s
    ensures a == b && r == s
  {
    assert a + "\"" + r == (Quoted(a) + r)[1..];
    assert b + "\"" + s == (Quoted(b) + s)[1..];
    BodyUnique(a, b, r, s);
  }

  lemma AtomUnique(a: string, b: string, r: string, s: string)
    requires AtomOk(a) && AtomOk(b) && Ends(r) && Ends(s)
    requires a + r == b + s
    ensures a == b && r == s
  {
    assert r != "" ==> (a + r)[|a|] == r[0];
    assert s != "" ==> (b + s)[|b|] == s[0];
    assert forall i | 0 <= i < |a| :: (a + r)[i] == a[i] && a[i] in a;
    assert forall i | 0 <= i < |b| :: (b + s)[i] == b[i] && b[i] in b;
    if |a| < |b| {
      assert false;
    } else if |b| < |a| {
      assert false;
    } else {
      assert a == (a + r)[..|a|] == (b + s)[..|b|] == b;
      assert r == (a + r)[|a|..] == (b + s)[|b|..] == s;
    }
  }

  /** The first character of a text already tells which kind of value it spells. */
  lemma FirstChar(t: Text)
    requires Ok(t)
    ensures Print(t) != ""
    ensures match t
            case Atom(_) => Print(t)[0] !in STRUCTURAL
            case Str(_) => Print(t)[0] == '"'
            case Arr(_) => Print(t)[0] == '['
            case Obj(_) => Print(t)[0] == '{'
  {
  }

  lemma SameKind(t: Text, u: Text, r: string, s: string)
    requires Ok(t) && Ok(u) && Print(t) + r == Print(u) + s
    ensures t.Atom? == u.Atom? && t.Str? == u.Str? && t.Arr? == u.Arr? && t.Obj? == u.Obj?
  {
    FirstChar(t);
    FirstChar(u);
    assert Print(t)[0] == (Print(t) + r)[0] == (Print(u) + s)[0] == Print(u)[0];
  }

  lemma ElemsHead(elems: seq<Text>, first: bool, r: string)
    requires forall e | e in elems :: Ok(e)
    ensures PrintElems(elems, first) != ""
    ensures (PrintElems(elems, first) + r)[0] == ']' <==> elems == []
    ensures !first ==> Ends(PrintElems(elems, first) + r)
    ensures elems == [] ==> (PrintElems(elems, first) + r)[1..] == r
  {
    if elems != [] {
      FirstChar(elems[0]);
    }
  }

  lemma AfterComma(first: bool, head: string, others: string, r: string)
    ensures (((if first then "" else ",") + (head + others)) + r)[if first then 0 else 1..] == head + (others + r)
  {
  }

  lemma ElemsSplit(elems: seq<Text>, first: bool, r: string)
    requires elems != []
    ensures (PrintElems(elems, first) + r)[if first then 0 else 1..]
         == Print(elems[0]) + (PrintElems(elems[1..], false) + r)
  {
    AfterComma(first, Print(elems[0]), PrintElems(elems[1..], false), r);
  }

  lemma MembersHead(ms: seq<Member>, first: bool, r: string)
    ensures PrintMembers(ms, first) != ""
    ensures (PrintMembers(ms, first) + r)[0] == '}' <==> ms == []
    ensures !first ==> Ends(PrintMembers(ms, first) + r)
    ensures ms == [] ==> (PrintMembers(ms, first) + r)[1..] == r
  {
  }

  lemma MembersSplit(ms: seq<Member>, first: bool, r: string)
    requires ms != []
    ensures (PrintMembers(ms, first) + r)[if first then 0 else 1..]
         == PrintMember(ms[0]) + (PrintMembers(ms[1..], false) + r)
  {
    AfterComma(first, PrintMember(ms[0]), PrintMembers(ms[1..], false), r);
  }

  lemma AfterOpen(open: string, inside: string, r: string)
    requires |open| == 1
    ensures ((open + inside) + r)[1..] == inside + r
  {
  }

  /** Two texts that agree, whatever legal tails follow them, spell the same tree. */
  lemma {:induction false} PrintUnique(t: Text, u: Text, r: string, s: string)
    requires Ok(t) && Ok(u) && Ends(r) && Ends(s)
    requires Print(t) + r == Print(u) + s
    ensures t == u && r == s
    decreases t, 1
  {
    SameKind(t, u, r, s);
    match t
    case Atom(a) => AtomUnique(a, u.lit, r, s);
    case Str(a) => QuotedUnique(a, u.body, r, s);
    case Arr(a) =>
      AfterOpen("[", PrintElems(a, true), r);
      AfterOpen("[", PrintElems(u.elems, true), s);
      ElemsUnique(a, u.elems, true, r, s);
    case Obj(a) =>
      AfterOpen("{", PrintMembers(a, true), r);
      AfterOpen("{", PrintMembers(u.members, true), s);
      MembersUnique(a, u.members, true, r, s);
  }

  lemma {:induction false} ElemsUnique(a: seq<Text>, b: seq<Text>, first: bool, r: string, s: string)
    requires (forall e | e in a :: Ok(e)) && (forall e | e in b :: Ok(e))
    requires PrintElems(a, first) + r == PrintElems(b, first) + s
    ensures a == b && r == s
    decreases a, 0
  {
    ElemsHead(a, first, r);
    ElemsHead(b, first, s);
    if a != [] {
      ElemsSplit(a, first, r);
      ElemsSplit(b, first, s);
      ElemsHead(a[1..], false, r);
      ElemsHead(b[1..], false, s);
      PrintUnique(a[0], b[0], PrintElems(a[1..], false) + r, PrintElems(b[1..], false) + s);
      ElemsUnique(a[1..], b[1..], false, r, s);
      assert a == [a[0]] + a[1..] && b == [b[0]] + b[1..];
    }
  }

  lemma {:induction false} MembersUnique(a: seq<Member>, b: seq<Member>, first: bool, r: string, s: string)
    requires forall m | m in a :: MemberOk(m)
    requires forall m | m in b :: MemberOk(m)
    requires PrintMembers(a, first) + r == PrintMembers(b, first) + s
    ensures a == b && r == s
    decreases a, 0
  {
    MembersHead(a, first, r);
    MembersHead(b, first, s);
    if a != [] {
      MembersSplit(a, first, r);
      MembersSplit(b, first, s);
      MembersHead(a[1..], false, r);
      MembersHead(b[1..], false, s);
      MemberUnique(a[0], b[0], PrintMembers(a[1..], false) + r, PrintMembers(b[1..], false) + s);
      MembersUnique(a[1..], b[1..], false, r, s);
      assert a == [a[0]] + a[1..] && b == [b[0]] + b[1..];
    }
  }

  lemma {:induction false} MemberUnique(m: Member, n: Member, r: string, s: string)
    requires MemberOk(m) && MemberOk(n) && Ends(r) && Ends(s)
    requires PrintMember(m) + r == PrintMember(n) + s
    ensures m == n && r == s
    decreases m, 0
  {
    var vm, vn := ":" + Print(m.value) + r, ":" + Print(n.value) + s;
    assert PrintMember(m) + r == Quoted(m.name) + vm;
    assert PrintMember(n) + s == Quoted(n.name) + vn;
    QuotedUnique(m.name, n.name, vm, vn);
    assert vm[1..] == Print(m.value) + r && vn[1..] == Print(n.value) + s;
    PrintUnique(m.value, n.value, r, s);
  }

  /** A compact text has exactly one reading. */
  lemma PrintInjective(t: Text, u: Text)
    requires Ok(t) && Ok(u) && Print(t) == Print(u)
    ensures t == u
  {
    assert Print(t) + "" == Print(u) + "";
    PrintUnique(t, u, "", "");
  }
}
