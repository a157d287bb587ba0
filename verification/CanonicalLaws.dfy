/** The canonical form is itself strict, ordered and a fixed point. */
module CanonicalLaws {
  import opened Options
  import opened Json
  import opened Decimal
  import opened Canonical
  import Strings
  import Utf16

  /** Member names strictly increase in every object at every depth. */
  predicate Ordered(t: Text) {
    match t
    case Atom(_) => true
    case Str(_) => true
    case Arr(elems) => forall e | e in elems :: Ordered(e)
    case Obj(members) =>
      && (forall m | m in members :: Strings.Unescape(m.name).Some? && Ordered(m.value))
      && (forall i, j | 0 <= i < j < |members| ::
            Utf16.Less(Strings.Unescape(members[i].name).value, Strings.Unescape(members[j].name).value))
  }

  /** A double that was read, printed and read again is the same double. */
  ghost predicate Faithful(parse: Reading) {
    forall s | parse(s).Some? :: parse(NumberToString(parse(s).value)) == parse(s)
  }

  lemma SpelledMember(p: Named)
    ensures Strings.Unescape(SpellOne(p).name) == Some(p.name)
  {
    Strings.UnescapeEscape(p.name);
  }

  lemma SpelledOrdered(ps: seq<Named>)
    requires Sorted(ps) && forall p | p in ps :: Strict(p.value) && Ordered(p.value)
    ensures Strict(Obj(Spell(ps))) && Ordered(Obj(Spell(ps)))
  {
    forall i | 0 <= i < |ps| ensures Strings.Unescape(Spell(ps)[i].name) == Some(ps[i].name) {
      SpelledMember(ps[i]);
    }
    forall i, j | 0 <= i < j < |ps| ensures !SameName(Spell(ps)[i], Spell(ps)[j]) {
      Utf16.LessTotal(ps[i].name, ps[j].name);
    }
  }

  lemma {:induction false} CanonOrdered(parse: Reading, t: Text)
    requires Strict(t) && Canon(parse, t).Some?
    ensures Strict(Canon(parse, t).value) && Ordered(Canon(parse, t).value)
  {
    match t
    case Atom(_) =>
    case Str(body) => Strings.UnescapeEscape(Strings.Unescape(body).value);
    case Arr(elems) =>
      var cs := CanonElems(parse, elems).value;
      forall i | 0 <= i < |cs| ensures Strict(cs[i]) && Ordered(cs[i]) {
        CanonOrdered(parse, elems[i]);
      }
    case Obj(members) =>
      var ps := CanonMembers(parse, members).value;
      CanonNamesDiffer(parse, members);
      SortSorts(ps);
      forall i | 0 <= i < |ps| ensures Strict(ps[i].value) && Ordered(ps[i].value) {
        assert CanonMember(parse, members[i]) == Some(ps[i]);
        CanonOrdered(parse, members[i].value);
      }
      SpelledOrdered(Sort(ps));
  }

  lemma SpelledFixed(parse: Reading, ps: seq<Named>)
    requires Sorted(ps) && forall p | p in ps :: Canon(parse, p.value) == Some(p.value)
    ensures Canon(parse, Obj(Spell(ps))) == Some(Obj(Spell(ps)))
  {
    var ms := Spell(ps);
    forall i | 0 <= i < |ms| ensures CanonMember(parse, ms[i]) == Some(ps[i]) {
      SpelledMember(ps[i]);
    }
    assert CanonMembers(parse, ms).value == ps;
    SortSorts(ps);
    forall i, j | 0 <= i < j < |ps| ensures ps[i].name != ps[j].name {
      Utf16.LessTotal(ps[i].name, ps[j].name);
    }
    SortedUnique(Sort(ps), ps);
  }

  /** Canonicalizing twice is canonicalizing once. */
  lemma {:induction false} CanonIdempotent(parse: Reading, t: Text)
    requires Faithful(parse) && Strict(t) && Canon(parse, t).Some?
    ensures Canon(parse, Canon(parse, t).value) == Canon(parse, t)
  {
    match t
    case Atom(lit) =>
      if lit !in KEYWORDS {
        NumberAlphabet(parse(lit).value);
        assert NumberToString(parse(lit).value) !in KEYWORDS;
      }
    case Str(body) => Strings.UnescapeEscape(Strings.Unescape(body).value);
    case Arr(elems) =>
      var cs := CanonElems(parse, elems).value;
      forall i | 0 <= i < |cs| ensures Canon(parse, cs[i]) == Some(cs[i]) {
        CanonIdempotent(parse, elems[i]);
      }
      assert CanonElems(parse, cs).value == cs;
    case Obj(members) =>
      var ps := CanonMembers(parse, members).value;
      CanonNamesDiffer(parse, members);
      SortSorts(ps);
      forall i | 0 <= i < |ps| ensures Canon(parse, ps[i].value) == Some(ps[i].value) {
        assert CanonMember(parse, members[i]) == Some(ps[i]);
        CanonIdempotent(parse, members[i].value);
      }
      SpelledFixed(parse, Sort(ps));
  }

  /** The canonical text holds the value of the text it was made from. */
  lemma CanonSameValue(parse: Reading, t: Text)
    requires Faithful(parse) && Strict(t) && Canon(parse, t).Some?
    ensures Same(parse, Canon(parse, t).value, t)
  {
    CanonIdempotent(parse, t);
    CanonOrdered(parse, t);
    CanonSame(parse, Canon(parse, t).value, t);
  }
}
