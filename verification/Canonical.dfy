/** The RFC 8785 form of a JSON text, and what two texts with one form have in common. */
module Canonical {
  import opened Options
  import opened Json
  import opened Decimal
  import Strings
  import Utf16

  /** strconv.ParseFloat on a literal: the nearest double, None when it is out of range. */
  type Reading = string -> Option<Float>

  const KEYWORDS: set<string> := {"null", "true", "false"}

  /** A member whose name is decoded and whose value is canonical. */
  datatype Named = Named(name: string, value: Text)

  // ---------- What the canonicalizer demands of its input ----------

  predicate SameName(m: Member, n: Member) {
    Strings.Unescape(m.name) == Strings.Unescape(n.name)
  }

  predicate Distinct(ms: seq<Member>) {
    forall i, j | 0 <= i < j < |ms| :: !SameName(ms[i], ms[j])
  }

  /** Every string decodes and, in every object at every depth, decoded names differ. */
  predicate Strict(t: Text) {
    match t
    case Atom(_) => true
    case Str(body) => Strings.Unescape(body).Some?
    case Arr(elems) => forall e | e in elems :: Strict(e)
    case Obj(members) =>
      && Distinct(members)
      && forall m | m in members :: Strings.Unescape(m.name).Some? && Strict(m.value)
  }

  /** Every number literal is within the range of binary64. */
  predicate InRange(parse: Reading, t: Text) {
    match t
    case Atom(lit) => lit in KEYWORDS || parse(lit).Some?
    case Str(_) => true
    case Arr(elems) => forall e | e in elems :: InRange(parse, e)
    case Obj(members) => forall m | m in members :: InRange(parse, m.value)
  }

  // ---------- The canonical tree ----------

  function CanonAtom(parse: Reading, lit: string): Option<string> {
    if lit in KEYWORDS then Some(lit)
    else if parse(lit).None? then None
    else Some(NumberToString(parse(lit).value))
  }

  function Insert(p: Named, ps: seq<Named>): seq<Named> {
    if ps == [] || Utf16.Less(p.name, ps[0].name) then [p] + ps else [ps[0]] + Insert(p, ps[1..])
  }

  function Sort(ps: seq<Named>): seq<Named> {
    if ps == [] then [] else Insert(ps[0], Sort(ps[1..]))
  }

  function SpellOne(p: Named): Member {
    Member(Strings.Escape(p.name), p.value)
  }

  function Spell(ps: seq<Named>): (ms: seq<Member>)
    ensures |ms| == |ps| && forall i | 0 <= i < |ps| :: ms[i] == SpellOne(ps[i])
  {
    seq(|ps|, i requires 0 <= i < |ps| => SpellOne(ps[i]))
  }

  /** The canonical text as a tree; None when a string or a number cannot be represented. */
  function Canon(parse: Reading, t: Text): Option<Text>
    decreases t, 1
  {
    match t
    case Atom(lit) =>
      var c := CanonAtom(parse, lit);
      if c.None? then None else Some(Atom(c.value))
    case Str(body) =>
      var s := Strings.Unescape(body);
      if s.None? then None else Some(Str(Strings.Escape(s.value)))
    case Arr(elems) =>
      var c := CanonElems(parse, elems);
      if c.None? then None else Some(Arr(c.value))
    case Obj(members) =>
      var c := CanonMembers(parse, members);
      if c.None? then None else Some(Obj(Spell(Sort(c.value))))
  }

  function CanonElems(parse: Reading, elems: seq<Text>): (c: Option<seq<Text>>)
    ensures c.Some? <==> forall i | 0 <= i < |elems| :: Canon(parse, elems[i]).Some?
    ensures c.Some? ==> |c.value| == |elems| &&
                        forall i | 0 <= i < |elems| :: Canon(parse, elems[i]) == Some(c.value[i])
    decreases elems, 0
  {
    if elems == [] then Some([])
    else
      var first, rest := Canon(parse, elems[0]), CanonElems(parse, elems[1..]);
      if first.None? || rest.None? then None else Some([first.value] + rest.value)
  }

  function CanonMember(parse: Reading, m: Member): Option<Named>
    decreases m, 0
  {
    var name, value := Strings.Unescape(m.name), Canon(parse, m.value);
    if name.None? || value.None? then None else Some(Named(name.value, value.value))
  }

  function CanonMembers(parse: Reading, ms: seq<Member>): (c: Option<seq<Named>>)
    ensures c.Some? <==> forall i | 0 <= i < |ms| :: CanonMember(parse, ms[i]).Some?
    ensures c.Some? ==> |c.value| == |ms| &&
                        forall i | 0 <= i < |ms| :: CanonMember(parse, ms[i]) == Some(c.value[i])
    decreases ms, 0
  {
    if ms == [] then Some([])
    else
      var first, rest := CanonMember(parse, ms[0]), CanonMembers(parse, ms[1..]);
      if first.None? || rest.None? then None else Some([first.value] + rest.value)
  }

  // ---------- Sorting by name has one result ----------

  predicate Increasing(names: seq<string>) {
    forall i, j | 0 <= i < j < |names| :: Utf16.Less(names[i], names[j])
  }

  predicate Sorted(ps: seq<Named>) {
    forall i, j | 0 <= i < j < |ps| :: Utf16.Less(ps[i].name, ps[j].name)
  }

  ghost predicate SameSet(a: seq<Named>, b: seq<Named>) {
    forall x :: x in a <==> x in b
  }

  predicate NamesDiffer(ps: seq<Named>) {
    forall i, j | 0 <= i < j < |ps| :: ps[i].name != ps[j].name
  }

  lemma {:induction false} InsertKeeps(p: Named, ps: seq<Named>)
    ensures forall x :: x in Insert(p, ps) <==> x == p || x in ps
    ensures Sorted(ps) && (forall q | q in ps :: q.name != p.name) ==> Sorted(Insert(p, ps))
  {
    if ps != [] {
      Utf16.LessTotal(p.name, ps[0].name);
      if Utf16.Less(p.name, ps[0].name) {
        forall j | 0 < j < |ps| && Sorted(ps) ensures Utf16.Less(p.name, ps[j].name) {
          Utf16.LessTransitive(p.name, ps[0].name, ps[j].name);
        }
      } else {
        InsertKeeps(p, ps[1..]);
        assert ps == [ps[0]] + ps[1..];
        var r := Insert(p, ps[1..]);
        assert forall j | 0 <= j < |r| :: r[j] in r;
      }
    }
  }

  lemma {:induction false} SortSorts(ps: seq<Named>)
    ensures SameSet(Sort(ps), ps)
    ensures NamesDiffer(ps) ==> Sorted(Sort(ps))
  {
    if ps != [] {
      SortSorts(ps[1..]);
      InsertKeeps(ps[0], Sort(ps[1..]));
      assert ps == [ps[0]] + ps[1..];
    }
  }

  lemma TailWithin(a: seq<Named>, b: seq<Named>)
    requires Sorted(a) && a != [] && b != [] && a[0] == b[0] && forall x | x in a :: x in b
    ensures forall x | x in a[1..] :: x in b[1..]
  {
    forall x | x in a[1..] ensures x in b[1..] {
      var i :| 1 <= i < |a| && a[i] == x;
      Utf16.LessTotal(a[0].name, x.name);
      assert x in a && x != b[0];
      assert b == [b[0]] + b[1..];
    }
  }

  lemma {:induction false} SortedUnique(a: seq<Named>, b: seq<Named>)
    requires Sorted(a) && Sorted(b) && SameSet(a, b)
    ensures a == b
  {
    assert (a != [] ==> a[0] in a) && (b != [] ==> b[0] in b);
    if a != [] && b != [] {
      assert a[0] in b && b[0] in a;
      Utf16.LessTotal(a[0].name, b[0].name);
      assert a[0] == b[0];
      TailWithin(a, b);
      TailWithin(b, a);
      SortedUnique(a[1..], b[1..]);
      assert a == [a[0]] + a[1..] && b == [b[0]] + b[1..];
    }
  }

  // ---------- Canonical text is well formed; when it exists ----------

  lemma EscapedIsBody(s: string)
    ensures BodyOk(Strings.Escape(s))
  {
    Strings.UnescapeEscape(s);
    Strings.DecodableIsBody(Strings.Escape(s));
  }

  lemma NumberAtomOk(d: Float)
    ensures AtomOk(NumberToString(d))
  {
    NumberAlphabet(d);
    assert forall c | NumberChar(c) :: c !in STRUCTURAL;
  }

  lemma CanonAtomOk(parse: Reading, lit: string)
    requires CanonAtom(parse, lit).Some?
    ensures AtomOk(CanonAtom(parse, lit).value)
  {
    if lit in KEYWORDS {
      assert lit == "null" || lit == "true" || lit == "false";
      assert forall c | c in lit :: 'a' <= c <= 'z';
      assert forall c | 'a' <= c <= 'z' :: c !in STRUCTURAL;
    } else {
      NumberAtomOk(parse(lit).value);
    }
  }

  lemma {:induction false} CanonOk(parse: Reading, t: Text)
    requires Canon(parse, t).Some?
    ensures Ok(Canon(parse, t).value)
  {
    match t
    case Atom(lit) => CanonAtomOk(parse, lit);
    case Str(body) => EscapedIsBody(Strings.Unescape(body).value);
    case Arr(elems) =>
      forall i | 0 <= i < |elems| ensures Ok(CanonElems(parse, elems).value[i]) {
        CanonOk(parse, elems[i]);
      }
    case Obj(members) =>
      var ps := CanonMembers(parse, members).value;
      SortSorts(ps);
      forall p | p in ps ensures MemberOk(SpellOne(p)) {
        var i :| 0 <= i < |ps| && ps[i] == p;
        CanonOk(parse, members[i].value);
        EscapedIsBody(p.name);
      }
      var sorted := Sort(ps);
      assert forall k | 0 <= k < |sorted| :: sorted[k] in ps;
  }

  /** A strict text has a canonical form exactly when its numbers are in range. */
  lemma {:induction false} CanonExists(parse: Reading, t: Text)
    requires Strict(t)
    ensures Canon(parse, t).Some? <==> InRange(parse, t)
  {
    match t
    case Atom(_) =>
    case Str(_) =>
    case Arr(elems) =>
      forall i | 0 <= i < |elems| ensures Canon(parse, elems[i]).Some? <==> InRange(parse, elems[i]) {
        CanonExists(parse, elems[i]);
      }
    case Obj(members) =>
      forall i | 0 <= i < |members|
        ensures CanonMember(parse, members[i]).Some? <==> InRange(parse, members[i].value)
      {
        CanonExists(parse, members[i].value);
      }
  }

  // ---------- Same value ----------

  predicate SameAtom(parse: Reading, a: string, b: string) {
    a == b || (a !in KEYWORDS && b !in KEYWORDS && parse(a) == parse(b))
  }

  ghost predicate HasMember(a: seq<Member>, m: Member) {
    exists i | 0 <= i < |a| :: SameName(a[i], m)
  }

  ghost predicate Covers(a: seq<Member>, b: seq<Member>) {
    forall j | 0 <= j < |b| :: HasMember(a, b[j])
  }

  /**
   Equal up to member order, escape spelling and rounding to binary64: the same name
   set in corresponding objects, with the same value behind each name.
   */
  ghost predicate Same(parse: Reading, t: Text, u: Text)
    decreases t, 1
  {
    match (t, u)
    case (Atom(a), Atom(b)) => SameAtom(parse, a, b)
    case (Str(a), Str(b)) => Strings.Unescape(a) == Strings.Unescape(b)
    case (Arr(a), Arr(b)) => |a| == |b| && forall i | 0 <= i < |a| :: Same(parse, a[i], b[i])
    case (Obj(a), Obj(b)) =>
      Covers(a, b) && Covers(b, a) && SameValues(parse, a, b)
    case _ => false
  }

  /** Members of one name hold the same value. */
  ghost predicate SameValues(parse: Reading, a: seq<Member>, b: seq<Member>)
    decreases a, 0
  {
    forall i, j | 0 <= i < |a| && 0 <= j < |b| :: SameName(a[i], b[j]) ==> Same(parse, a[i].value, b[j].value)
  }

  lemma CanonAtomSame(parse: Reading, a: string, b: string)
    requires CanonAtom(parse, a).Some? && CanonAtom(parse, b).Some?
    ensures CanonAtom(parse, a) == CanonAtom(parse, b) <==> SameAtom(parse, a, b)
  {
    if a !in KEYWORDS { NumberAlphabet(parse(a).value); }
    if b !in KEYWORDS { NumberAlphabet(parse(b).value); }
    if a !in KEYWORDS && b !in KEYWORDS && CanonAtom(parse, a) == CanonAtom(parse, b) {
      NumberInjective(parse(a).value, parse(b).value);
    }
  }

  lemma SpellInjective(a: seq<Named>, b: seq<Named>)
    requires Spell(a) == Spell(b)
    ensures a == b
  {
    forall i | 0 <= i < |a| ensures a[i] == b[i] {
      assert Spell(a)[i] == SpellOne(a[i]) && Spell(b)[i] == SpellOne(b[i]);
      Strings.UnescapeEscape(a[i].name);
      Strings.UnescapeEscape(b[i].name);
    }
  }

  /** Canonical objects coincide exactly when their members do, whatever the order. */
  lemma CanonMembersSame(a: seq<Named>, b: seq<Named>)
    requires NamesDiffer(a) && NamesDiffer(b)
    ensures Spell(Sort(a)) == Spell(Sort(b)) <==> SameSet(a, b)
  {
    SortSorts(a);
    SortSorts(b);
    if Spell(Sort(a)) == Spell(Sort(b)) {
      SpellInjective(Sort(a), Sort(b));
    }
    if SameSet(a, b) {
      SortedUnique(Sort(a), Sort(b));
    }
  }

  lemma CanonNamesDiffer(parse: Reading, ms: seq<Member>)
    requires CanonMembers(parse, ms).Some? && Distinct(ms)
    ensures NamesDiffer(CanonMembers(parse, ms).value)
  {
    var ps := CanonMembers(parse, ms).value;
    forall i, j | 0 <= i < j < |ps| ensures ps[i].name != ps[j].name {
      assert CanonMember(parse, ms[i]) == Some(ps[i]) && CanonMember(parse, ms[j]) == Some(ps[j]);
      assert !SameName(ms[i], ms[j]);
    }
  }

  predicate HasName(ps: seq<Named>, name: string) {
    exists i | 0 <= i < |ps| :: ps[i].name == name
  }

  predicate NamesCover(ps: seq<Named>, qs: seq<Named>) {
    forall j | 0 <= j < |qs| :: HasName(ps, qs[j].name)
  }

  predicate ValuesAgree(ps: seq<Named>, qs: seq<Named>) {
    forall i, j | 0 <= i < |ps| && 0 <= j < |qs| :: ps[i].name == qs[j].name ==> ps[i].value == qs[j].value
  }

  lemma FoundByName(ps: seq<Named>, qs: seq<Named>)
    requires NamesCover(ps, qs) && ValuesAgree(ps, qs)
    ensures forall x | x in qs :: x in ps
  {
    forall j | 0 <= j < |qs| ensures qs[j] in ps {
      var i :| 0 <= i < |ps| && ps[i].name == qs[j].name;
      assert ps[i] == qs[j];
    }
  }

  lemma EqualByName(ps: seq<Named>, qs: seq<Named>)
    requires NamesDiffer(qs) && forall x | x in ps :: x in qs
    ensures NamesCover(qs, ps) && ValuesAgree(ps, qs)
  {
    forall i | 0 <= i < |ps| ensures HasName(qs, ps[i].name) {
      assert ps[i] in qs;
    }
    forall i, j | 0 <= i < |ps| && 0 <= j < |qs| && ps[i].name == qs[j].name ensures ps[i].value == qs[j].value {
      assert ps[i] in qs;
      var k :| 0 <= k < |qs| && qs[k] == ps[i];
    }
  }

  /** As sets, two objects are equal when their names and the values behind them are. */
  lemma SetsByName(ps: seq<Named>, qs: seq<Named>)
    requires NamesDiffer(ps) && NamesDiffer(qs)
    ensures SameSet(ps, qs) <==> NamesCover(ps, qs) && NamesCover(qs, ps) && ValuesAgree(ps, qs)
  {
    if SameSet(ps, qs) {
      EqualByName(ps, qs);
      EqualByName(qs, ps);
    }
    if NamesCover(ps, qs) && NamesCover(qs, ps) && ValuesAgree(ps, qs) {
      FoundByName(ps, qs);
      FoundByName(qs, ps);
    }
  }

  lemma NamesOf(parse: Reading, a: seq<Member>, b: seq<Member>)
    requires CanonMembers(parse, a).Some? && CanonMembers(parse, b).Some?
    ensures var ps, qs := CanonMembers(parse, a).value, CanonMembers(parse, b).value;
            && (forall i, j | 0 <= i < |a| && 0 <= j < |b| :: SameName(a[i], b[j]) <==> ps[i].name == qs[j].name)
            && (Covers(a, b) <==> NamesCover(ps, qs))
  {
    var ps, qs := CanonMembers(parse, a).value, CanonMembers(parse, b).value;
    forall i, j | 0 <= i < |a| && 0 <= j < |b| ensures SameName(a[i], b[j]) <==> ps[i].name == qs[j].name {
      assert CanonMember(parse, a[i]) == Some(ps[i]) && CanonMember(parse, b[j]) == Some(qs[j]);
    }
    if Covers(a, b) {
      forall j | 0 <= j < |qs| ensures HasName(ps, qs[j].name) {
        assert HasMember(a, b[j]);
        var i :| 0 <= i < |a| && SameName(a[i], b[j]);
      }
    }
    if NamesCover(ps, qs) {
      forall j | 0 <= j < |b| ensures HasMember(a, b[j]) {
        assert HasName(ps, qs[j].name);
        var i :| 0 <= i < |ps| && ps[i].name == qs[j].name;
        assert SameName(a[i], b[j]);
      }
    }
  }

  lemma ObjectsSame(parse: Reading, a: seq<Member>, b: seq<Member>, ps: seq<Named>, qs: seq<Named>)
    requires CanonMembers(parse, a) == Some(ps) && CanonMembers(parse, b) == Some(qs)
    requires Distinct(a) && Distinct(b)
    requires ValuesAgree(ps, qs) <==> SameValues(parse, a, b)
    ensures Spell(Sort(ps)) == Spell(Sort(qs)) <==> Covers(a, b) && Covers(b, a) && SameValues(parse, a, b)
  {
    CanonNamesDiffer(parse, a);
    CanonNamesDiffer(parse, b);
    CanonMembersSame(ps, qs);
    SetsByName(ps, qs);
    NamesOf(parse, a, b);
    NamesOf(parse, b, a);
  }

  lemma {:induction false} CanonSame(parse: Reading, t: Text, u: Text)
    requires Strict(t) && Strict(u) && Canon(parse, t).Some? && Canon(parse, u).Some?
    ensures Canon(parse, t) == Canon(parse, u) <==> Same(parse, t, u)
    decreases t, 1
  {
    match (t, u)
    case (Atom(a), Atom(b)) => CanonAtomSame(parse, a, b);
    case (Str(a), Str(b)) =>
      Strings.UnescapeEscape(Strings.Unescape(a).value);
      Strings.UnescapeEscape(Strings.Unescape(b).value);
    case (Arr(a), Arr(b)) =>
      var ca, cb := CanonElems(parse, a).value, CanonElems(parse, b).value;
      if |a| == |b| {
        forall i | 0 <= i < |a| ensures ca[i] == cb[i] <==> Same(parse, a[i], b[i]) {
          CanonSame(parse, a[i], b[i]);
        }
        assert ca == cb <==> forall i | 0 <= i < |a| :: ca[i] == cb[i];
      }
    case (Obj(a), Obj(b)) =>
      ValuesAgreeSame(parse, a, b);
      ObjectsSame(parse, a, b, CanonMembers(parse, a).value, CanonMembers(parse, b).value);
    case _ =>
  }

  lemma {:induction false} ValuesSame(parse: Reading, a: seq<Member>, b: seq<Member>, i: nat, j: nat)
    requires Strict(Obj(a)) && Strict(Obj(b)) && i < |a| && j < |b|
    requires CanonMembers(parse, a).Some? && CanonMembers(parse, b).Some?
    ensures CanonMembers(parse, a).value[i].value == CanonMembers(parse, b).value[j].value
       <==> Same(parse, a[i].value, b[j].value)
    decreases a, 0
  {
    assert CanonMember(parse, a[i]) == Some(CanonMembers(parse, a).value[i]);
    assert CanonMember(parse, b[j]) == Some(CanonMembers(parse, b).value[j]);
    CanonSame(parse, a[i].value, b[j].value);
  }

  lemma {:induction false} ValuesAgreeSame(parse: Reading, a: seq<Member>, b: seq<Member>)
    requires Strict(Obj(a)) && Strict(Obj(b))
    requires CanonMembers(parse, a).Some? && CanonMembers(parse, b).Some?
    ensures ValuesAgree(CanonMembers(parse, a).value, CanonMembers(parse, b).value) <==> SameValues(parse, a, b)
    decreases a, 1
  {
    NamesOf(parse, a, b);
    forall i, j | 0 <= i < |a| && 0 <= j < |b|
      ensures CanonMembers(parse, a).value[i].value == CanonMembers(parse, b).value[j].value
         <==> Same(parse, a[i].value, b[j].value)
    {
      ValuesSame(parse, a, b, i, j);
    }
  }

  /**
   Canonical bytes and values determine each other: two strict texts have the same
   canonical text exactly when they hold the same value. Left to right this is unique
   readability; right to left, independence from order, escapes and number spelling.
   */
  lemma CanonicalExact(parse: Reading, t: Text, u: Text)
    requires Strict(t) && Strict(u) && Canon(parse, t).Some? && Canon(parse, u).Some?
    ensures Print(Canon(parse, t).value) == Print(Canon(parse, u).value) <==> Same(parse, t, u)
  {
    CanonSame(parse, t, u);
    CanonOk(parse, t);
    CanonOk(parse, u);
    if Print(Canon(parse, t).value) == Print(Canon(parse, u).value) {
      PrintInjective(Canon(parse, t).value, Canon(parse, u).value);
    }
  }
}
