/** The canonicalizer as it runs: a recursive writer over one shared buffer. */
module CanonicalWriter {
  import opened Options
  import opened Json
  import opened Decimal
  import opened Canonical
  import Strings
  import Utf16

  class Buffer {
    var data: string

    constructor ()
      ensures data == ""
    {
      data := "";
    }

    method WriteString(s: string)
      modifies this
      ensures data == old(data) + s
    {
      data := data + s;
    }
  }

  lemma {:induction false} EscapeAppend(s: string, c: char)
    ensures Strings.Escape(s + [c]) == Strings.Escape(s) + Strings.EscapeChar(c)
  {
    if s == "" {
      assert s + [c] == [c];
    } else {
      assert (s + [c])[1..] == s[1..] + [c];
      EscapeAppend(s[1..], c);
    }
  }

  lemma Assoc(a: string, b: string, c: string)
    ensures a + b + c == a + (b + c)
  {
  }

  lemma QuoteAssoc(a: string, body: string)
    ensures a + "\"" + body + "\"" == a + Quoted(body)
  {
  }

  lemma EscapeNext(base: string, s: string, i: nat)
    requires i < |s|
    ensures base + Strings.Escape(s[..i]) + Strings.EscapeChar(s[i]) == base + Strings.Escape(s[..i + 1])
  {
    EscapeAppend(s[..i], s[i]);
    assert s[..i + 1] == s[..i] + [s[i]];
    Assoc(base, Strings.Escape(s[..i]), Strings.EscapeChar(s[i]));
  }

  method WriteCanonicalString(buf: Buffer, s: string)
    modifies buf
    ensures buf.data == old(buf.data) + Quoted(Strings.Escape(s))
  {
    buf.WriteString("\"");
    ghost var base := buf.data;
    var i := 0;
    assert base + Strings.Escape(s[..0]) == base;
    while i < |s|
      invariant 0 <= i <= |s|
      invariant buf.data == base + Strings.Escape(s[..i])
    {
      EscapeNext(base, s, i);
      buf.WriteString(Strings.EscapeChar(s[i]));
      i := i + 1;
    }
    assert s[..i] == s;
    buf.WriteString("\"");
    QuoteAssoc(old(buf.data), Strings.Escape(s));
  }

  /** Parse as binary64, print as ECMAScript; None when the literal overflows. */
  method CanonicalNumber(parse: Reading, lit: string) returns (text: Option<string>)
    ensures text == if parse(lit).None? then None else Some(NumberToString(parse(lit).value))
  {
    var f := parse(lit);
    if f.None? {
      return None;
    }
    var s := Es6Number(f.value);
    text := Some(s);
  }

  lemma InsertedIncreasing(names: seq<string>, at: nat, name: string)
    requires Increasing(names) && at <= |names|
    requires forall i | 0 <= i < at :: Utf16.Less(names[i], name)
    requires at < |names| ==> Utf16.Less(name, names[at])
    ensures Increasing(names[..at] + [name] + names[at..])
    ensures forall k :: k in names[..at] + [name] + names[at..] <==> k == name || k in names
  {
    var r := names[..at] + [name] + names[at..];
    forall i, j | 0 <= i < j < |r| ensures Utf16.Less(r[i], r[j]) {
      if i == at && j > at + 1 {
        Utf16.LessTransitive(name, names[at], names[j - 1]);
      }
    }
    assert names == names[..at] + names[at..];
  }

  /** sort.Slice with the UTF-16 comparison, as an insertion sort. */
  method SortKeys(keys: seq<string>) returns (sorted: seq<string>)
    requires forall i, j | 0 <= i < j < |keys| :: keys[i] != keys[j]
    ensures Increasing(sorted) && forall k :: k in sorted <==> k in keys
  {
    sorted := [];
    var n := 0;
    while n < |keys|
      invariant 0 <= n <= |keys|
      invariant Increasing(sorted) && forall k :: k in sorted <==> k in keys[..n]
    {
      var key, at := keys[n], 0;
      while at < |sorted|
        invariant 0 <= at <= |sorted|
        invariant forall i | 0 <= i < at :: Utf16.Less(sorted[i], key)
      {
        var before := Utf16.LessUtf16(key, sorted[at]);
        if before {
          break;
        }
        assert sorted[at] in sorted;
        assert key !in keys[..n];
        Utf16.LessTotal(key, sorted[at]);
        at := at + 1;
      }
      InsertedIncreasing(sorted, at, key);
      assert keys[..n + 1] == keys[..n] + [key];
      sorted := sorted[..at] + [key] + sorted[at..];
      n := n + 1;
    }
    assert keys[..n] == keys;
  }

  /** The names of a sorted object are the only increasing list of those names. */
  lemma {:induction false} IncreasingUnique(names: seq<string>, ps: seq<Named>)
    requires Increasing(names) && Sorted(ps)
    requires forall k :: k in names <==> HasName(ps, k)
    ensures |names| == |ps| && forall i | 0 <= i < |ps| :: names[i] == ps[i].name
  {
    var xs := seq(|names|, i requires 0 <= i < |names| => Named(names[i], Atom("null")));
    var ys := seq(|ps|, i requires 0 <= i < |ps| => Named(ps[i].name, Atom("null")));
    forall x ensures x in xs <==> x in ys {
      if x in xs {
        assert x.name in names;
        var i :| 0 <= i < |ps| && ps[i].name == x.name;
        assert ys[i] == x;
      }
      if x in ys {
        assert HasName(ps, x.name);
        var i :| 0 <= i < |names| && names[i] == x.name;
        assert xs[i] == x;
      }
    }
    SortedUnique(xs, ys);
    forall i | 0 <= i < |ps| ensures names[i] == ps[i].name {
      assert xs[i].name == names[i] && ys[i].name == ps[i].name;
    }
  }

  predicate Holds(fields: map<string, Text>, m: Member) {
    var name := Strings.Unescape(m.name);
    name.Some? && name.value in fields && fields[name.value] == m.value
  }

  predicate OnlyFrom(ms: seq<Member>, n: nat, fields: map<string, Text>)
    requires n <= |ms|
  {
    forall k | k in fields :: exists i | 0 <= i < n :: Strings.Unescape(ms[i].name) == Some(k)
  }

  lemma FieldAdded(ms: seq<Member>, n: nat, fields: map<string, Text>)
    requires Distinct(ms) && n < |ms| && Strings.Unescape(ms[n].name).Some?
    requires OnlyFrom(ms, n, fields) && forall i | 0 <= i < n :: Holds(fields, ms[i])
    ensures var f := fields[Strings.Unescape(ms[n].name).value := ms[n].value];
            OnlyFrom(ms, n + 1, f) && forall i | 0 <= i < n + 1 :: Holds(f, ms[i])
  {
    var name := Strings.Unescape(ms[n].name).value;
    var f := fields[name := ms[n].value];
    forall i | 0 <= i < n + 1 ensures Holds(f, ms[i]) {
      if i < n {
        assert Holds(fields, ms[i]) && !SameName(ms[i], ms[n]);
      }
    }
    forall k | k in f ensures exists i | 0 <= i < n + 1 :: Strings.Unescape(ms[i].name) == Some(k) {
      if k == name {
        assert Strings.Unescape(ms[n].name) == Some(k);
      } else {
        var i :| 0 <= i < n && Strings.Unescape(ms[i].name) == Some(k);
      }
    }
  }

  /** Object members as Go decodes them: a map from decoded name to value, last one winning. */
  method Fields(ms: seq<Member>) returns (fields: map<string, Text>)
    requires Strict(Obj(ms))
    ensures forall k :: k in fields <==> exists i | 0 <= i < |ms| :: Strings.Unescape(ms[i].name) == Some(k)
    ensures forall i | 0 <= i < |ms| ::
              var k := Strings.Unescape(ms[i].name).value; k in fields && fields[k] == ms[i].value
  {
    fields := map[];
    var n := 0;
    while n < |ms|
      invariant 0 <= n <= |ms|
      invariant OnlyFrom(ms, n, fields)
      invariant forall i | 0 <= i < n :: Holds(fields, ms[i])
    {
      assert ms[n] in ms;
      FieldAdded(ms, n, fields);
      fields := fields[Strings.Unescape(ms[n].name).value := ms[n].value];
      n := n + 1;
    }
    forall k ensures k in fields <==> exists i | 0 <= i < |ms| :: Strings.Unescape(ms[i].name) == Some(k) {
      if i :| 0 <= i < |ms| && Strings.Unescape(ms[i].name) == Some(k) {
        assert Holds(fields, ms[i]);
      }
    }
    assert forall i | 0 <= i < |ms| :: Holds(fields, ms[i]);
  }

  /** Ranging over a map: the keys in an order nobody promises. */
  method Keys(fields: map<string, Text>) returns (keys: seq<string>)
    ensures forall i, j | 0 <= i < j < |keys| :: keys[i] != keys[j]
    ensures forall k :: k in keys <==> k in fields
  {
    keys := [];
    var rest := fields.Keys;
    while rest != {}
      invariant forall i, j | 0 <= i < j < |keys| :: keys[i] != keys[j]
      invariant rest <= fields.Keys && forall k :: k in keys <==> k in fields && k !in rest
      decreases rest
    {
      var k :| k in rest;
      keys, rest := keys + [k], rest - {k};
    }
  }

  /** The separator before piece i. */
  function Comma(i: nat): string { if i == 0 then "" else "," }

  /** The canonical text of an element, None when it has none. */
  ghost function ElemText(parse: Reading, e: Text): Option<string> {
    if Canon(parse, e).Some? then Some(Print(Canon(parse, e).value)) else None
  }

  /** The canonical text of a member, None when its value has none. */
  ghost function MemberText(parse: Reading, key: string, value: Text): Option<string> {
    if Canon(parse, value).Some? then Some(PrintMember(Member(Strings.Escape(key), Canon(parse, value).value))) else None
  }

  predicate AllSome(pieces: seq<Option<string>>) {
    forall i | 0 <= i < |pieces| :: pieces[i].Some?
  }

  /** left[i] is the text of pieces i.. and the closing bracket. */
  predicate Pieces(left: seq<string>, pieces: seq<Option<string>>, close: string) {
    && |left| == |pieces| + 1 && left[|pieces|] == close
    && forall i | 0 <= i < |pieces| :: pieces[i].Some? && left[i] == Comma(i) + (pieces[i].value + left[i + 1])
  }

  lemma ElemLeft(cs: seq<Text>, pieces: seq<Option<string>>) returns (left: seq<string>)
    requires |pieces| == |cs| && forall i | 0 <= i < |cs| :: pieces[i] == Some(Print(cs[i]))
    ensures Pieces(left, pieces, "]") && left[0] == PrintElems(cs, true)
  {
    left := seq(|cs| + 1, i requires 0 <= i <= |cs| => PrintElems(cs[i..], i == 0));
    assert cs[0..] == cs && cs[|cs|..] == [];
    forall i | 0 <= i < |cs| ensures left[i] == Comma(i) + (pieces[i].value + left[i + 1]) {
      assert cs[i..][0] == cs[i] && cs[i..][1..] == cs[i + 1..];
    }
  }

  lemma MemberLeft(cs: seq<Member>, pieces: seq<Option<string>>) returns (left: seq<string>)
    requires |pieces| == |cs| && forall i | 0 <= i < |cs| :: pieces[i] == Some(PrintMember(cs[i]))
    ensures Pieces(left, pieces, "}") && left[0] == PrintMembers(cs, true)
  {
    left := seq(|cs| + 1, i requires 0 <= i <= |cs| => PrintMembers(cs[i..], i == 0));
    assert cs[0..] == cs && cs[|cs|..] == [];
    forall i | 0 <= i < |cs| ensures left[i] == Comma(i) + (pieces[i].value + left[i + 1]) {
      assert cs[i..][0] == cs[i] && cs[i..][1..] == cs[i + 1..];
    }
  }

  lemma ElemPieces(parse: Reading, elems: seq<Text>) returns (left: seq<string>, pieces: seq<Option<string>>)
    ensures |pieces| == |elems| && forall i | 0 <= i < |elems| :: pieces[i] == ElemText(parse, elems[i])
    ensures AllSome(pieces) <==> CanonElems(parse, elems).Some?
    ensures AllSome(pieces) ==> Pieces(left, pieces, "]") && left[0] == PrintElems(CanonElems(parse, elems).value, true)
  {
    pieces := seq(|elems|, i requires 0 <= i < |elems| => ElemText(parse, elems[i]));
    left := [];
    if CanonElems(parse, elems).Some? {
      left := ElemLeft(CanonElems(parse, elems).value, pieces);
    } else {
      var i :| 0 <= i < |elems| && Canon(parse, elems[i]).None?;
      assert pieces[i].None?;
    }
  }

  /** Writing one piece with its separator moves it from what is left to what is done. */
  lemma PieceWritten(data: string, i: nat, piece: string, rest: string, after: string)
    requires after == (if i == 0 then data else data + ",") + piece
    ensures after + rest == data + (Comma(i) + (piece + rest))
  {
    if i == 0 {
      assert "" + (piece + rest) == piece + rest;
      Assoc(data, piece, rest);
    } else {
      Assoc(data + ",", piece, rest);
      Assoc(data, ",", piece + rest);
    }
  }

  method WriteAtom(buf: Buffer, parse: Reading, lit: string) returns (ok: bool)
    modifies buf
    ensures ok <==> CanonAtom(parse, lit).Some?
    ensures ok ==> buf.data == old(buf.data) + CanonAtom(parse, lit).value
  {
    var s := Some(lit);
    if lit !in KEYWORDS {
      s := CanonicalNumber(parse, lit);
    }
    if s.Some? {
      buf.WriteString(s.value);
    }
    ok := s.Some?;
  }

  ghost predicate ValueOf(ms: seq<Member>, value: Text) {
    exists m | m in ms :: m.value == value
  }

  ghost predicate Behind(ms: seq<Member>, keys: seq<string>, fields: map<string, Text>) {
    forall i | 0 <= i < |keys| :: keys[i] in fields && ValueOf(ms, fields[keys[i]])
  }

  ghost predicate TextAt(parse: Reading, keys: seq<string>, fields: map<string, Text>, pieces: seq<Option<string>>, i: nat)
    requires i < |keys| == |pieces|
  {
    keys[i] in fields && pieces[i] == MemberText(parse, keys[i], fields[keys[i]])
  }

  /** The members behind the sorted keys, one piece each. */
  ghost predicate Texts(parse: Reading, keys: seq<string>, fields: map<string, Text>, pieces: seq<Option<string>>) {
    |pieces| == |keys| && forall i | 0 <= i < |keys| :: TextAt(parse, keys, fields, pieces, i)
  }

  ghost predicate FieldsOf(ms: seq<Member>, keys: seq<string>, fields: map<string, Text>) {
    && (forall k :: k in keys <==> k in fields)
    && (forall k :: k in fields <==> exists i | 0 <= i < |ms| :: Strings.Unescape(ms[i].name) == Some(k))
    && (forall i | 0 <= i < |ms| :: Strings.Unescape(ms[i].name).Some?)
    && (forall i | 0 <= i < |ms| ::
          var k := Strings.Unescape(ms[i].name).value; k in fields && fields[k] == ms[i].value)
  }

  lemma FieldsBehind(ms: seq<Member>, keys: seq<string>, fields: map<string, Text>)
    requires FieldsOf(ms, keys, fields)
    ensures Behind(ms, keys, fields)
  {
    forall i | 0 <= i < |keys| ensures keys[i] in fields && ValueOf(ms, fields[keys[i]]) {
      assert keys[i] in keys;
      var j :| 0 <= j < |ms| && Strings.Unescape(ms[j].name) == Some(keys[i]);
      assert ms[j] in ms;
    }
  }

  method SortedFields(ms: seq<Member>) returns (keys: seq<string>, fields: map<string, Text>)
    requires Strict(Obj(ms))
    ensures FieldsOf(ms, keys, fields) && Increasing(keys) && Behind(ms, keys, fields)
  {
    fields := Fields(ms);
    keys := Keys(fields);
    keys := SortKeys(keys);
    FieldsBehind(ms, keys, fields);
  }

  /** The members of the canonical object, if there is one. */
  ghost function CanonSorted(parse: Reading, ms: seq<Member>): seq<Member> {
    if CanonMembers(parse, ms).Some? then Spell(Sort(CanonMembers(parse, ms).value)) else []
  }

  lemma KeyIsName(parse: Reading, ms: seq<Member>, keys: seq<string>, fields: map<string, Text>,
                  ps: seq<Named>, s: seq<Named>, k: string)
    requires FieldsOf(ms, keys, fields) && CanonMembers(parse, ms) == Some(ps) && SameSet(s, ps) && k in keys
    ensures HasName(s, k)
  {
    var i :| 0 <= i < |ms| && Strings.Unescape(ms[i].name) == Some(k);
    assert CanonMember(parse, ms[i]) == Some(ps[i]) && ps[i] in s;
  }

  lemma NameIsKey(parse: Reading, ms: seq<Member>, keys: seq<string>, fields: map<string, Text>,
                  ps: seq<Named>, s: seq<Named>, k: string)
    requires FieldsOf(ms, keys, fields) && CanonMembers(parse, ms) == Some(ps) && SameSet(s, ps) && HasName(s, k)
    ensures k in keys
  {
    var n :| 0 <= n < |s| && s[n].name == k;
    assert s[n] in ps;
    var i :| 0 <= i < |ps| && ps[i] == s[n];
    assert CanonMember(parse, ms[i]) == Some(ps[i]);
  }

  lemma KeysAreSortedNames(parse: Reading, ms: seq<Member>, keys: seq<string>, fields: map<string, Text>,
                           ps: seq<Named>, s: seq<Named>)
    requires FieldsOf(ms, keys, fields) && Increasing(keys)
    requires CanonMembers(parse, ms) == Some(ps) && SameSet(s, ps) && Sorted(s)
    ensures |keys| == |s| && forall i | 0 <= i < |s| :: keys[i] == s[i].name
  {
    forall k ensures k in keys <==> HasName(s, k) {
      if k in keys { KeyIsName(parse, ms, keys, fields, ps, s, k); }
      if HasName(s, k) { NameIsKey(parse, ms, keys, fields, ps, s, k); }
    }
    IncreasingUnique(keys, s);
  }

  ghost predicate MembersOf(parse: Reading, cs: seq<Member>, keys: seq<string>, fields: map<string, Text>) {
    |keys| == |cs| && forall i | 0 <= i < |cs| ::
      && cs[i].name == Strings.Escape(keys[i])
      && keys[i] in fields && Canon(parse, fields[keys[i]]) == Some(cs[i].value)
  }

  lemma ValueBehindKey(parse: Reading, ms: seq<Member>, keys: seq<string>, fields: map<string, Text>,
                       ps: seq<Named>, p: Named)
    requires FieldsOf(ms, keys, fields) && CanonMembers(parse, ms) == Some(ps) && p in ps
    ensures p.name in fields && Canon(parse, fields[p.name]) == Some(p.value)
  {
    var n :| 0 <= n < |ps| && ps[n] == p;
    assert CanonMember(parse, ms[n]) == Some(ps[n]);
  }

  lemma SpelledAs(s: seq<Named>, keys: seq<string>)
    requires |keys| == |s| && forall i | 0 <= i < |s| :: keys[i] == s[i].name
    ensures forall i | 0 <= i < |s| :: Spell(s)[i].name == Strings.Escape(keys[i]) && Spell(s)[i].value == s[i].value
  {
  }

  /** The sorted keys and their values are exactly the members of the canonical object. */
  lemma KeysAreNames(parse: Reading, ms: seq<Member>, keys: seq<string>, fields: map<string, Text>)
    requires Distinct(ms) && FieldsOf(ms, keys, fields) && Increasing(keys)
    requires CanonMembers(parse, ms).Some?
    ensures MembersOf(parse, CanonSorted(parse, ms), keys, fields)
  {
    var ps := CanonMembers(parse, ms).value;
    CanonNamesDiffer(parse, ms);
    SortSorts(ps);
    var s := Sort(ps);
    KeysAreSortedNames(parse, ms, keys, fields, ps, s);
    forall i | 0 <= i < |s|
      ensures keys[i] in fields && Canon(parse, fields[keys[i]]) == Some(s[i].value)
    {
      assert s[i] in ps;
      ValueBehindKey(parse, ms, keys, fields, ps, s[i]);
    }
    SpelledAs(s, keys);
  }

  lemma AllFieldsCanon(parse: Reading, ms: seq<Member>, keys: seq<string>, fields: map<string, Text>)
    requires FieldsOf(ms, keys, fields)
    requires forall j | 0 <= j < |keys| :: keys[j] in fields && Canon(parse, fields[keys[j]]).Some?
    ensures CanonMembers(parse, ms).Some?
  {
    forall i | 0 <= i < |ms| ensures CanonMember(parse, ms[i]).Some? {
      var k := Strings.Unescape(ms[i].name).value;
      assert k in keys;
    }
  }

  /** All values behind the keys are representable exactly when the object is. */
  lemma ObjectExists(parse: Reading, ms: seq<Member>, keys: seq<string>, fields: map<string, Text>)
    requires Distinct(ms) && FieldsOf(ms, keys, fields) && Increasing(keys) && Behind(ms, keys, fields)
    ensures CanonMembers(parse, ms).Some? <==> forall i | 0 <= i < |keys| :: Canon(parse, fields[keys[i]]).Some?
    ensures CanonMembers(parse, ms).Some? ==> MembersOf(parse, CanonSorted(parse, ms), keys, fields)
  {
    if CanonMembers(parse, ms).Some? {
      KeysAreNames(parse, ms, keys, fields);
    } else if forall i | 0 <= i < |keys| :: Canon(parse, fields[keys[i]]).Some? {
      AllFieldsCanon(parse, ms, keys, fields);
    }
  }

  lemma KeyPieces(parse: Reading, keys: seq<string>, fields: map<string, Text>) returns (pieces: seq<Option<string>>)
    requires forall i | 0 <= i < |keys| :: keys[i] in fields
    ensures Texts(parse, keys, fields, pieces)
    ensures AllSome(pieces) <==> forall i | 0 <= i < |keys| :: Canon(parse, fields[keys[i]]).Some?
  {
    pieces := seq(|keys|, i requires 0 <= i < |keys| => MemberText(parse, keys[i], fields[keys[i]]));
    forall i | 0 <= i < |keys| ensures TextAt(parse, keys, fields, pieces, i) {}
    forall i | 0 <= i < |keys| ensures pieces[i].Some? <==> Canon(parse, fields[keys[i]]).Some? {}
  }

  lemma MembersSpell(parse: Reading, cs: seq<Member>, pieces: seq<Option<string>>, keys: seq<string>,
                     fields: map<string, Text>)
    requires MembersOf(parse, cs, keys, fields) && Texts(parse, keys, fields, pieces)
    ensures forall i | 0 <= i < |cs| :: pieces[i] == Some(PrintMember(cs[i]))
  {
    forall i | 0 <= i < |cs| ensures pieces[i] == Some(PrintMember(cs[i])) {
      assert TextAt(parse, keys, fields, pieces, i);
      assert cs[i] == Member(Strings.Escape(keys[i]), Canon(parse, fields[keys[i]]).value);
    }
  }

  lemma ObjectPieces(parse: Reading, ms: seq<Member>, keys: seq<string>, fields: map<string, Text>)
      returns (left: seq<string>, pieces: seq<Option<string>>)
    requires Distinct(ms) && FieldsOf(ms, keys, fields) && Increasing(keys) && Behind(ms, keys, fields)
    ensures Texts(parse, keys, fields, pieces)
    ensures AllSome(pieces) <==> CanonMembers(parse, ms).Some?
    ensures AllSome(pieces) ==> Pieces(left, pieces, "}") && left[0] == PrintMembers(CanonSorted(parse, ms), true)
  {
    ObjectExists(parse, ms, keys, fields);
    pieces := KeyPieces(parse, keys, fields);
    left := [];
    if CanonMembers(parse, ms).Some? {
      MembersSpell(parse, CanonSorted(parse, ms), pieces, keys, fields);
      left := MemberLeft(CanonSorted(parse, ms), pieces);
    }
  }

  ghost predicate ElemAt(parse: Reading, elems: seq<Text>, pieces: seq<Option<string>>, i: nat)
    requires i < |elems| == |pieces|
  {
    pieces[i] == ElemText(parse, elems[i])
  }

  /**
   The recursive writer. It appends the canonical text of a validated value, or reports
   an error exactly when the canonical form does not exist.
   */
  method WriteCanonical(buf: Buffer, parse: Reading, t: Text) returns (ok: bool)
    requires Strict(t)
    modifies buf
    ensures ok <==> Canon(parse, t).Some?
    ensures ok ==> buf.data == old(buf.data) + Print(Canon(parse, t).value)
    decreases t, 1
  {
    match t
    case Atom(lit) => ok := WriteAtom(buf, parse, lit);
    case Str(body) =>
      WriteCanonicalString(buf, Strings.Unescape(body).value);
      ok := true;
    case Arr(elems) => ok := WriteArray(buf, parse, elems);
    case Obj(members) => ok := WriteObject(buf, parse, members);
  }

  /** One turn of the loop: the separator and the element. */
  method WriteElem(buf: Buffer, parse: Reading, first: bool, e: Text, ghost piece: Option<string>, ghost rest: string)
    returns (ok: bool)
    requires Strict(e) && piece == ElemText(parse, e)
    modifies buf
    ensures ok <==> piece.Some?
    ensures ok ==> buf.data + rest == old(buf.data) + (Comma(if first then 0 else 1) + (piece.value + rest))
    decreases e, 2
  {
    ghost var before := buf.data;
    if !first {
      buf.WriteString(",");
    }
    ok := WriteCanonical(buf, parse, e);
    if ok { PieceWritten(before, if first then 0 else 1, piece.value, rest, buf.data); }
  }

  method WriteElems(buf: Buffer, parse: Reading, elems: seq<Text>, ghost left: seq<string>, ghost pieces: seq<Option<string>>)
    returns (ok: bool)
    requires forall e | e in elems :: Strict(e)
    requires |pieces| == |elems| && forall i | 0 <= i < |elems| :: ElemAt(parse, elems, pieces, i)
    modifies buf
    ensures ok <==> AllSome(pieces)
    ensures ok && Pieces(left, pieces, "]") ==> buf.data == old(buf.data) + left[0]
    decreases elems, 0
  {
    ghost var known := Pieces(left, pieces, "]");
    ghost var goal := if known then buf.data + left[0] else "";
    var i := 0;
    while i < |elems|
      invariant 0 <= i <= |elems|
      invariant forall j | 0 <= j < i :: pieces[j].Some?
      invariant known ==> buf.data + left[i] == goal
    {
      assert ElemAt(parse, elems, pieces, i);
      var e := WriteElem(buf, parse, i == 0, elems[i], pieces[i], if known then left[i + 1] else "");
      if !e {
        return false;
      }
      i := i + 1;
    }
    buf.WriteString("]");
    ok := true;
  }

  method WriteArray(buf: Buffer, parse: Reading, elems: seq<Text>) returns (ok: bool)
    requires forall e | e in elems :: Strict(e)
    modifies buf
    ensures ok <==> CanonElems(parse, elems).Some?
    ensures ok ==> buf.data == old(buf.data) + Print(Arr(CanonElems(parse, elems).value))
    decreases elems, 1
  {
    ghost var left, pieces := ElemPieces(parse, elems);
    assert forall i | 0 <= i < |elems| :: ElemAt(parse, elems, pieces, i);
    if AllSome(pieces) { Assoc(buf.data, "[", left[0]); }
    buf.WriteString("[");
    ok := WriteElems(buf, parse, elems, left, pieces);
  }

  method WriteMember(buf: Buffer, parse: Reading, first: bool, key: string, value: Text) returns (ok: bool)
    requires Strict(value)
    modifies buf
    ensures ok <==> Canon(parse, value).Some?
    ensures ok ==> buf.data == (if first then old(buf.data) else old(buf.data) + ",")
                     + PrintMember(Member(Strings.Escape(key), Canon(parse, value).value))
    decreases value, 2
  {
    if !first {
      buf.WriteString(",");
    }
    ghost var base, name := buf.data, Quoted(Strings.Escape(key));
    WriteCanonicalString(buf, key);
    buf.WriteString(":");
    ok := WriteCanonical(buf, parse, value);
    if ok {
      ghost var v := Print(Canon(parse, value).value);
      Assoc(base + name, ":", v);
      Assoc(base, name, ":" + v);
    }
  }

  /** One turn of the loop: the separator and the member. */
  method WriteNext(buf: Buffer, parse: Reading, first: bool, key: string, value: Text, ghost piece: Option<string>,
                   ghost rest: string) returns (ok: bool)
    requires Strict(value) && piece == MemberText(parse, key, value)
    modifies buf
    ensures ok <==> piece.Some?
    ensures ok ==> buf.data + rest == old(buf.data) + (Comma(if first then 0 else 1) + (piece.value + rest))
    decreases value, 3
  {
    ghost var before := buf.data;
    ok := WriteMember(buf, parse, first, key, value);
    if ok { PieceWritten(before, if first then 0 else 1, piece.value, rest, buf.data); }
  }

  /** The members behind a list of keys, in that order, separated by commas and closed. */
  method WriteMembers(buf: Buffer, parse: Reading, keys: seq<string>, fields: map<string, Text>,
                      ghost ms: seq<Member>, ghost left: seq<string>, ghost pieces: seq<Option<string>>) returns (ok: bool)
    requires Behind(ms, keys, fields) && (forall m | m in ms :: Strict(m.value)) && Texts(parse, keys, fields, pieces)
    modifies buf
    ensures ok <==> AllSome(pieces)
    ensures ok && Pieces(left, pieces, "}") ==> buf.data == old(buf.data) + left[0]
    decreases ms, 0
  {
    ghost var known := Pieces(left, pieces, "}");
    ghost var goal := if known then buf.data + left[0] else "";
    var i := 0;
    while i < |keys|
      invariant 0 <= i <= |keys|
      invariant forall j | 0 <= j < i :: pieces[j].Some?
      invariant known ==> buf.data + left[i] == goal
    {
      assert TextAt(parse, keys, fields, pieces, i);
      assert ValueOf(ms, fields[keys[i]]);
      ghost var m :| m in ms && m.value == fields[keys[i]];
      var e := WriteNext(buf, parse, i == 0, keys[i], fields[keys[i]], pieces[i], if known then left[i + 1] else "");
      if !e {
        return false;
      }
      i := i + 1;
    }
    buf.WriteString("}");
    ok := true;
  }

  method WriteObject(buf: Buffer, parse: Reading, ms: seq<Member>) returns (ok: bool)
    requires Strict(Obj(ms))
    modifies buf
    ensures ok <==> CanonMembers(parse, ms).Some?
    ensures ok ==> buf.data == old(buf.data) + Print(Obj(CanonSorted(parse, ms)))
    decreases ms, 1
  {
    var keys, fields := SortedFields(ms);
    ghost var left, pieces := ObjectPieces(parse, ms, keys, fields);
    if AllSome(pieces) { Assoc(buf.data, "{", left[0]); }
    buf.WriteString("{");
    ok := WriteMembers(buf, parse, keys, fields, ms, left, pieces);
  }
}
