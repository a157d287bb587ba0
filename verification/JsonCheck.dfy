/**
 The token-stream validator: encoding/json's decoder state machine, the recursive
 check that drives it, and the trees it accepts.
 */
module JsonCheck {
  import opened Options
  import opened Json
  import Canonical
  import Strings

  const MAX_DEPTH := 10000

  // ---------- Lexemes ----------

  datatype Lex = LBracket | RBracket | LBrace | RBrace | Colon | Comma | LStr(body: string) | LAtom(lit: string) | LBad

  function Sep(first: bool): seq<Lex> { if first then [] else [Comma] }

  function Lexemes(t: Text): seq<Lex>
    decreases t, 0
  {
    match t
    case Atom(lit) => [LAtom(lit)]
    case Str(body) => [LStr(body)]
    case Arr(elems) => [LBracket] + LexElems(elems, true)
    case Obj(members) => [LBrace] + LexMembers(members, true)
  }

  function LexElems(elems: seq<Text>, first: bool): seq<Lex>
    decreases elems, 0
  {
    if elems == [] then [RBracket]
    else Sep(first) + (Lexemes(elems[0]) + LexElems(elems[1..], false))
  }

  function LexMembers(ms: seq<Member>, first: bool): seq<Lex>
    decreases ms, 0
  {
    if ms == [] then [RBrace]
    else Sep(first) + (LexMember(ms[0]) + LexMembers(ms[1..], false))
  }

  function LexMember(m: Member): seq<Lex>
    decreases m, 0
  {
    [LStr(m.name), Colon] + Lexemes(m.value)
  }

  function Max(a: nat, b: nat): nat { if a < b then b else a }

  /** How many containers are nested. */
  function Height(t: Text): nat
    decreases t, 0
  {
    match t
    case Atom(_) => 0
    case Str(_) => 0
    case Arr(elems) => 1 + HeightElems(elems)
    case Obj(members) => 1 + HeightMembers(members)
  }

  function HeightElems(elems: seq<Text>): nat
    decreases elems, 0
  {
    if elems == [] then 0 else Max(Height(elems[0]), HeightElems(elems[1..]))
  }

  function HeightMembers(ms: seq<Member>): nat
    decreases ms, 0
  {
    if ms == [] then 0 else Max(Height(ms[0].value), HeightMembers(ms[1..]))
  }

  /** What the validator promises about a text. */
  predicate Valid(t: Text) {
    Canonical.Strict(t) && Height(t) <= MAX_DEPTH
  }

  // ---------- The decoder's state machine ----------

  datatype State = TopValue | ArrayStart | ArrayValue | ArrayComma
                 | ObjectStart | ObjectKey | ObjectColon | ObjectValue | ObjectComma

  datatype Got = Eof | Error | Tok(lex: Lex)

  datatype Dec = Dec(rest: seq<Lex>, state: State, stack: seq<State>)

  predicate Allowed(s: State) {
    s in {TopValue, ArrayStart, ArrayValue, ObjectValue}
  }

  function ValueEnd(s: State): State {
    match s
    case ArrayStart => ArrayComma
    case ArrayValue => ArrayComma
    case ObjectValue => ObjectComma
    case _ => s
  }

  function Close(d: Dec, lex: Lex): (Got, Dec)
    requires d.rest != []
  {
    if d.stack == [] then (Error, d)
    else
      var outer := d.stack[|d.stack| - 1];
      (Tok(lex), Dec(d.rest[1..], ValueEnd(outer), d.stack[..|d.stack| - 1]))
  }

  /** One call of Decoder.Token: separators are consumed silently where they belong. */
  function Step(d: Dec): (Got, Dec)
    decreases |d.rest|
  {
    if d.rest == [] then (Eof, d)
    else match d.rest[0]
      case LBracket =>
        if !Allowed(d.state) then (Error, d) else (Tok(LBracket), Dec(d.rest[1..], ArrayStart, d.stack + [d.state]))
      case LBrace =>
        if !Allowed(d.state) then (Error, d) else (Tok(LBrace), Dec(d.rest[1..], ObjectStart, d.stack + [d.state]))
      case RBracket => if d.state in {ArrayStart, ArrayComma} then Close(d, RBracket) else (Error, d)
      case RBrace => if d.state in {ObjectStart, ObjectComma} then Close(d, RBrace) else (Error, d)
      case Colon => if d.state == ObjectColon then Step(Dec(d.rest[1..], ObjectValue, d.stack)) else (Error, d)
      case Comma =>
        if d.state == ArrayComma then Step(Dec(d.rest[1..], ArrayValue, d.stack))
        else if d.state == ObjectComma then Step(Dec(d.rest[1..], ObjectKey, d.stack))
        else (Error, d)
      case LStr(body) =>
        if d.state in {ObjectStart, ObjectKey} then (Tok(LStr(body)), Dec(d.rest[1..], ObjectColon, d.stack))
        else if Allowed(d.state) then (Tok(LStr(body)), Dec(d.rest[1..], ValueEnd(d.state), d.stack))
        else (Error, d)
      case LAtom(lit) =>
        if Allowed(d.state) then (Tok(LAtom(lit)), Dec(d.rest[1..], ValueEnd(d.state), d.stack)) else (Error, d)
      case LBad => (Error, d)
  }

  class Decoder {
    var d: Dec

    constructor (lex: seq<Lex>)
      ensures d == Dec(lex, TopValue, [])
    {
      d := Dec(lex, TopValue, []);
    }

    method Token() returns (got: Got)
      modifies this
      ensures (got, d) == Step(old(d))
    {
      var next := Step(d);
      got, d := next.0, next.1;
    }

    /** Another element follows: the next lexeme exists and closes nothing. */
    method More() returns (more: bool)
      ensures more <==> d.rest != [] && d.rest[0] !in {RBracket, RBrace}
    {
      more := |d.rest| > 0 && d.rest[0] != RBracket && d.rest[0] != RBrace;
    }
  }

  // ---------- Trees seen from the middle of a container ----------

  /** The separator the decoder still owes before a value in this state. */
  function Owed(s: State): seq<Lex> {
    match s
    case ArrayComma => [Comma]
    case ObjectColon => [Colon]
    case _ => []
  }

  function After(s: State): State {
    match s
    case ArrayStart => ArrayComma
    case ObjectColon => ObjectComma
    case _ => s
  }

  predicate BeforeValue(s: State) {
    s in {TopValue, ArrayStart, ArrayComma, ObjectColon}
  }

  ghost predicate AllDecodable(lex: seq<Lex>) {
    forall i | 0 <= i < |lex| :: lex[i].LStr? ==> Strings.Unescape(lex[i].body).Some?
  }

  /** d reads t next, then rest, within the depth left. */
  ghost predicate Reads(d: Dec, t: Text, rest: seq<Lex>, depth: nat) {
    && d.rest == Owed(d.state) + (Lexemes(t) + rest)
    && Canonical.Strict(t)
    && Height(t) + depth <= MAX_DEPTH
  }

  /** The elements read so far, without the closing bracket. */
  function Front(elems: seq<Text>): seq<Lex> {
    if elems == [] then []
    else
      var n := |elems| - 1;
      Front(elems[..n]) + (Sep(n == 0) + Lexemes(elems[n]))
  }

  function FrontMembers(ms: seq<Member>): seq<Lex> {
    if ms == [] then []
    else
      var n := |ms| - 1;
      FrontMembers(ms[..n]) + (Sep(n == 0) + LexMember(ms[n]))
  }

  lemma Regroup<T>(a: seq<T>, b: seq<T>, c: seq<T>, d: seq<T>)
    ensures a + (b + (c + d)) == (a + (b + c)) + d
  {
  }

  lemma {:induction false} FrontElems(elems: seq<Text>, n: nat)
    requires n <= |elems|
    ensures LexElems(elems, true) == Front(elems[..n]) + LexElems(elems[n..], n == 0)
  {
    if n == 0 {
      assert elems[0..] == elems;
    } else {
      FrontElems(elems, n - 1);
      assert elems[..n][..n - 1] == elems[..n - 1];
      assert elems[n - 1..][0] == elems[n - 1] && elems[n - 1..][1..] == elems[n..];
      Regroup(Front(elems[..n - 1]), Sep(n == 1), Lexemes(elems[n - 1]), LexElems(elems[n..], false));
    }
  }

  lemma {:induction false} FrontMembersSplit(ms: seq<Member>, n: nat)
    requires n <= |ms|
    ensures LexMembers(ms, true) == FrontMembers(ms[..n]) + LexMembers(ms[n..], n == 0)
  {
    if n == 0 {
      assert ms[0..] == ms;
    } else {
      FrontMembersSplit(ms, n - 1);
      assert ms[..n][..n - 1] == ms[..n - 1];
      assert ms[n - 1..][0] == ms[n - 1] && ms[n - 1..][1..] == ms[n..];
      Regroup(FrontMembers(ms[..n - 1]), Sep(n == 1), LexMember(ms[n - 1]), LexMembers(ms[n..], false));
    }
  }

  lemma {:induction false} HeightElemsBound(elems: seq<Text>, k: int)
    requires k >= 0
    ensures HeightElems(elems) <= k <==> forall e | e in elems :: Height(e) <= k
  {
    if elems != [] {
      HeightElemsBound(elems[1..], k);
      assert elems == [elems[0]] + elems[1..];
      if HeightElems(elems) <= k {
        assert forall e | e in elems[1..] :: Height(e) <= k;
      }
      if forall e | e in elems :: Height(e) <= k {
        assert elems[0] in elems && forall e | e in elems[1..] :: e in elems;
      }
    }
  }

  lemma {:induction false} HeightMembersBound(ms: seq<Member>, k: int)
    requires k >= 0
    ensures HeightMembers(ms) <= k <==> forall m | m in ms :: Height(m.value) <= k
  {
    if ms != [] {
      HeightMembersBound(ms[1..], k);
      assert forall m :: m in ms <==> m == ms[0] || m in ms[1..];
    }
  }

  lemma LexHead(t: Text)
    ensures Lexemes(t) != [] && Lexemes(t)[0] in {LBracket, LBrace, LStr(if t.Str? then t.body else ""), LAtom(if t.Atom? then t.lit else "")}
    ensures Lexemes(t)[0] !in {RBracket, RBrace, Comma, Colon, LBad}
    ensures Lexemes(t)[0].LBracket? <==> t.Arr?
    ensures Lexemes(t)[0].LBrace? <==> t.Obj?
  {
  }

  /** The state in which the decoder takes the value's first token. */
  function Entered(s: State): State {
    match s
    case ArrayComma => ArrayValue
    case ObjectColon => ObjectValue
    case _ => s
  }

  /** Elements that fit under depth, read from lex up to the closing bracket. */
  ghost predicate ReadsElems(lex: seq<Lex>, elems: seq<Text>, rest: seq<Lex>, depth: nat) {
    && lex == LexElems(elems, true) + rest
    && forall e | e in elems :: Canonical.Strict(e) && Height(e) + depth <= MAX_DEPTH
  }

  ghost predicate ReadsMembers(lex: seq<Lex>, ms: seq<Member>, rest: seq<Lex>, depth: nat) {
    && lex == LexMembers(ms, true) + rest
    && Canonical.Distinct(ms)
    && forall m | m in ms ::
         Strings.Unescape(m.name).Some? && Canonical.Strict(m.value) && Height(m.value) + depth <= MAX_DEPTH
  }

  /** Inside an array: elems are behind, and every one of them fits. */
  ghost predicate HalfArray(start: seq<Lex>, d: Dec, elems: seq<Text>, depth: nat) {
    && AllDecodable(d.rest)
    && d.state == (if elems == [] then ArrayStart else ArrayComma)
    && start == Front(elems) + d.rest
    && forall e | e in elems :: Canonical.Strict(e) && Height(e) + depth <= MAX_DEPTH
  }

  /** The candidate w is half read: its first elements are behind, the others ahead. */
  ghost predicate HalfCandidate(d: Dec, w: seq<Text>, elems: seq<Text>, tail: seq<Lex>, depth: nat) {
    && elems <= w
    && d.rest == LexElems(w[|elems|..], elems == []) + tail
    && forall e | e in w :: Canonical.Strict(e) && Height(e) + depth <= MAX_DEPTH
  }

  /** What the candidate says is next. */
  function NextText(w: seq<Text>, n: nat): Text { if n < |w| then w[n] else Atom("") }

  function NextTail(w: seq<Text>, n: nat, tail: seq<Lex>): seq<Lex> {
    if n < |w| then LexElems(w[n + 1..], false) + tail else tail
  }

  lemma ElemAhead(rest: seq<Lex>, sep: seq<Lex>, first: seq<Lex>, others: seq<Lex>, tail: seq<Lex>)
    requires rest == (sep + (first + others)) + tail
    ensures rest == sep + (first + (others + tail))
  {
  }

  lemma CandidateNext(d: Dec, w: seq<Text>, elems: seq<Text>, tail: seq<Lex>, depth: nat)
    requires HalfCandidate(d, w, elems, tail, depth)
    requires d.state == (if elems == [] then ArrayStart else ArrayComma)
    ensures d.rest != []
    ensures elems == w ==> d.rest[0] == RBracket && d.rest[1..] == tail
    ensures elems != w ==> d.rest[0] !in {RBracket, RBrace} && |elems| < |w|
    ensures elems != w ==> Reads(d, NextText(w, |elems|), NextTail(w, |elems|, tail), depth)
  {
    var n := |elems|;
    if n < |w| {
      assert w[n..][0] == w[n] && w[n..][1..] == w[n + 1..];
      assert w[n] in w;
      LexHead(w[n]);
      ElemAhead(d.rest, Sep(n == 0), Lexemes(w[n]), LexElems(w[n + 1..], false), tail);
    }
  }

  lemma FrontStep(lex: seq<Lex>, elems: seq<Text>, e: Text, before: seq<Lex>, after: seq<Lex>)
    requires lex == Front(elems) + before
    requires before == Sep(elems == []) + (Lexemes(e) + after)
    ensures lex == Front(elems + [e]) + after
  {
    assert (elems + [e])[..|elems|] == elems;
    Regroup(Front(elems), Sep(elems == []), Lexemes(e), after);
  }

  lemma ArrayStep(start: seq<Lex>, d: Dec, elems: seq<Text>, e: Text, d': Dec, depth: nat)
    requires HalfArray(start, d, elems, depth) && Reads(d, e, d'.rest, depth)
    requires d'.state == After(d.state) && AllDecodable(d'.rest)
    ensures HalfArray(start, d', elems + [e], depth)
  {
    FrontStep(start, elems, e, d.rest, d'.rest);
  }

  lemma CandidateStep(d: Dec, w: seq<Text>, elems: seq<Text>, e: Text, d': Dec, tail: seq<Lex>, depth: nat)
    requires HalfCandidate(d, w, elems, tail, depth) && elems != w
    requires e == NextText(w, |elems|) && d'.rest == NextTail(w, |elems|, tail)
    ensures HalfCandidate(d', w, elems + [e], tail, depth)
  {
    assert w[..|elems|] == elems;
    assert w[..|elems| + 1] == elems + [e];
  }

  /** The closing token of an array, when nothing else can follow. */
  lemma ArrayEnd(d: Dec)
    requires d.state in {ArrayStart, ArrayComma} && d.stack != []
    requires d.rest == [] || d.rest[0] in {RBracket, RBrace}
    ensures var (got, e) := Step(d);
            && (got.Tok? <==> d.rest != [] && d.rest[0] == RBracket)
            && (got.Tok? ==> d.rest == [RBracket] + e.rest && e.stack == d.stack[..|d.stack| - 1]
                             && e.state == ValueEnd(d.stack[|d.stack| - 1]))
  {
  }

  lemma FrontClose(lex: seq<Lex>, elems: seq<Text>, after: seq<Lex>)
    requires lex == Front(elems) + ([RBracket] + after)
    ensures lex == LexElems(elems, true) + after
  {
    FrontElems(elems, |elems|);
    assert elems[..|elems|] == elems && elems[|elems|..] == [];
  }

  predicate StartsValue(lex: Lex) {
    lex in {LBracket, LBrace} || lex.LStr? || lex.LAtom?
  }

  /** From d, the decoder returned lex as the first token of a value and moved to e. */
  ghost predicate FirstToken(d: Dec, lex: Lex, e: Dec) {
    && d.rest == Owed(d.state) + ([lex] + e.rest)
    && AllDecodable(e.rest)
    && StartsValue(lex)
    && (lex.LStr? ==> Strings.Unescape(lex.body).Some?)
    && (lex.LBracket? ==> e.state == ArrayStart)
    && (lex.LBrace? ==> e.state == ObjectStart)
    && e.stack == (if lex in {LBracket, LBrace} then d.stack + [Entered(d.state)] else d.stack)
    && (lex !in {LBracket, LBrace} ==> e.state == After(d.state))
  }

  /** A token taken where the decoder owes nothing before a value. */
  lemma PlainToken(d: Dec)
    requires Allowed(d.state) && AllDecodable(d.rest)
    ensures var (got, e) := Step(d);
            got.Tok? && got.lex !in {RBracket, RBrace} ==>
              && d.rest == [got.lex] + e.rest && AllDecodable(e.rest) && StartsValue(got.lex)
              && (got.lex.LStr? ==> Strings.Unescape(got.lex.body).Some?)
              && (got.lex.LBracket? ==> e.state == ArrayStart)
              && (got.lex.LBrace? ==> e.state == ObjectStart)
              && e.stack == (if got.lex in {LBracket, LBrace} then d.stack + [d.state] else d.stack)
              && (got.lex !in {LBracket, LBrace} ==> e.state == ValueEnd(d.state))
    ensures d.rest != [] && StartsValue(d.rest[0]) ==> Step(d).0 == Tok(d.rest[0]) && Step(d).1.rest == d.rest[1..]
  {
  }

  /** Owed separators are skipped before the value's first token. */
  lemma OwedSkipped(d: Dec)
    requires BeforeValue(d.state)
    ensures Step(d).0.Tok? && Step(d).0.lex !in {RBracket, RBrace} ==> Owed(d.state) <= d.rest
    ensures Owed(d.state) <= d.rest ==> Step(d) == Step(Dec(d.rest[|Owed(d.state)|..], Entered(d.state), d.stack))
  {
    if Owed(d.state) <= d.rest && Owed(d.state) != [] {
      assert d.rest[0] == Owed(d.state)[0];
    }
  }

  lemma OwedToken(d: Dec, d': Dec, lex: Lex, e: Dec)
    requires BeforeValue(d.state) && d.rest == Owed(d.state) + d'.rest
    requires d'.state == Entered(d.state) && d'.stack == d.stack
    requires d'.rest == [lex] + e.rest && AllDecodable(e.rest) && StartsValue(lex)
    requires lex.LStr? ==> Strings.Unescape(lex.body).Some?
    requires lex.LBracket? ==> e.state == ArrayStart
    requires lex.LBrace? ==> e.state == ObjectStart
    requires e.stack == (if lex in {LBracket, LBrace} then d'.stack + [d'.state] else d'.stack)
    requires lex !in {LBracket, LBrace} ==> e.state == ValueEnd(d'.state)
    ensures FirstToken(d, lex, e)
  {
  }

  /** Whatever is accepted as a value's first token is one. */
  lemma ValueToken(d: Dec)
    requires BeforeValue(d.state) && AllDecodable(d.rest)
    ensures var (got, e) := Step(d); got.Tok? && got.lex !in {RBracket, RBrace} ==> FirstToken(d, got.lex, e)
  {
    OwedSkipped(d);
    var owed := Owed(d.state);
    if owed <= d.rest {
      var d' := Dec(d.rest[|owed|..], Entered(d.state), d.stack);
      assert AllDecodable(d'.rest);
      PlainToken(d');
      var (got, e) := Step(d');
      if got.Tok? && got.lex !in {RBracket, RBrace} {
        OwedToken(d, d', got.lex, e);
      }
    }
  }

  /** A reading with these lexemes determines the first token. */
  lemma CandidateToken(d: Dec, lex: seq<Lex>, tail: seq<Lex>)
    requires BeforeValue(d.state) && AllDecodable(d.rest)
    requires d.rest == Owed(d.state) + (lex + tail) && lex != [] && StartsValue(lex[0])
    ensures Step(d).0 == Tok(lex[0]) && Step(d).1.rest == lex[1..] + tail
  {
    OwedSkipped(d);
    var d' := Dec(d.rest[|Owed(d.state)|..], Entered(d.state), d.stack);
    assert d'.rest == lex + tail;
    assert AllDecodable(d'.rest);
    PlainToken(d');
  }

  /**
   One value. It is accepted exactly when some tree within the limits spells the lexemes
   ahead, and then exactly that tree's lexemes are consumed. The ghost arguments name an
   arbitrary candidate reading: if it is one, it is the one taken.
   */
  method CheckValue(dec: Decoder, depth: nat, ghost w: Text, ghost tail: seq<Lex>) returns (ok: bool, ghost t: Text)
    requires BeforeValue(dec.d.state) && AllDecodable(dec.d.rest) && depth <= MAX_DEPTH
    modifies dec
    ensures ok ==> Reads(old(dec.d), t, dec.d.rest, depth)
    ensures ok ==> |dec.d.rest| < |old(dec.d.rest)| && AllDecodable(dec.d.rest)
    ensures ok ==> dec.d.state == After(old(dec.d.state)) && dec.d.stack == old(dec.d.stack)
    ensures Reads(old(dec.d), w, tail, depth) ==> ok && t == w && dec.d.rest == tail
    decreases |dec.d.rest|, 1
  {
    ghost var start := dec.d;
    ghost var candidate := Reads(start, w, tail, depth);
    ValueToken(start);
    LexHead(w);
    if candidate { CandidateToken(start, Lexemes(w), tail); }
    var got := dec.Token();
    t := Atom("");
    match got
    case Eof => ok := false;
    case Error => ok := false;
    case Tok(lex) =>
      if lex in {RBracket, RBrace} {
        ok := false; // unexpected delimiter
      } else if lex == LBracket {
        ok, t := CheckArrayValue(dec, depth, start, w, tail);
      } else if lex == LBrace {
        ok, t := CheckObjectValue(dec, depth, start, w, tail);
      } else {
        t := if lex.LStr? then Str(lex.body) else Atom(lex.lit);
        ok := true;
      }
  }

  /** From start, t was read within the depth left and end is the decoder after it. */
  ghost predicate ValueRead(start: Dec, t: Text, end: Dec, depth: nat) {
    && Reads(start, t, end.rest, depth)
    && |end.rest| < |start.rest| && AllDecodable(end.rest)
    && end.state == After(start.state) && end.stack == start.stack
  }

  /** If w is the reading ahead of start, its first lexeme is taken and the rest is ahead of d. */
  ghost predicate Opened(start: Dec, w: Text, tail: seq<Lex>, d: Dec, depth: nat, open: Lex) {
    Reads(start, w, tail, depth) ==> Lexemes(w)[0] == open && d.rest == Lexemes(w)[1..] + tail
  }

  lemma InsideArray(lex: seq<Lex>, w: Text, tail: seq<Lex>, depth: nat)
    requires Canonical.Strict(w) && Height(w) + depth <= MAX_DEPTH && Lexemes(w)[0] == LBracket
    requires lex == Lexemes(w)[1..] + tail
    ensures w.Arr? && ReadsElems(lex, w.elems, tail, depth + 1)
  {
    HeightElemsBound(w.elems, MAX_DEPTH - depth - 1);
    assert Lexemes(w)[1..] == LexElems(w.elems, true);
  }

  lemma WholeArray(d: Dec, inner: seq<Lex>, elems: seq<Text>, rest: seq<Lex>, depth: nat)
    requires depth < MAX_DEPTH
    requires d.rest == Owed(d.state) + ([LBracket] + inner) && ReadsElems(inner, elems, rest, depth + 1)
    ensures Reads(d, Arr(elems), rest, depth)
  {
    HeightElemsBound(elems, MAX_DEPTH - depth - 1);
    assert [LBracket] + inner == Lexemes(Arr(elems)) + rest;
  }

  /** The elements were read from just inside the array, and the decoder is back outside it. */
  ghost predicate ElemsRead(first: Dec, elems: seq<Text>, end: Dec, depth: nat) {
    && ReadsElems(first.rest, elems, end.rest, depth)
    && |end.rest| < |first.rest| && AllDecodable(end.rest)
    && first.stack != []
    && end.state == ValueEnd(first.stack[|first.stack| - 1]) && end.stack == first.stack[..|first.stack| - 1]
  }

  lemma ArrayClosed(first: Dec, last: Dec, elems: seq<Text>, depth: nat)
    requires HalfArray(first.rest, last, elems, depth) && last.stack == first.stack && first.stack != []
    requires last.rest == [] || last.rest[0] in {RBracket, RBrace}
    ensures Step(last).0.Tok? <==> last.rest != [] && last.rest[0] == RBracket
    ensures Step(last).0.Tok? ==> ElemsRead(first, elems, Step(last).1, depth) && last.rest == [RBracket] + Step(last).1.rest
  {
    ArrayEnd(last);
    if Step(last).0.Tok? {
      var after := Step(last).1.rest;
      FrontClose(first.rest, elems, after);
      assert forall i | 0 <= i < |after| :: after[i] == last.rest[i + 1];
    }
  }

  /** After the last element: the closing bracket. */
  method CloseArray(dec: Decoder, depth: nat, ghost first: Dec, ghost elems: seq<Text>, ghost w: seq<Text>,
                    ghost tail: seq<Lex>) returns (ok: bool)
    requires HalfArray(first.rest, dec.d, elems, depth) && dec.d.stack == first.stack && first.stack != []
    requires dec.d.rest == [] || dec.d.rest[0] in {RBracket, RBrace}
    modifies dec
    ensures ok ==> ElemsRead(first, elems, dec.d, depth)
    ensures HalfCandidate(old(dec.d), w, elems, tail, depth) ==> ok && elems == w && dec.d.rest == tail
  {
    ghost var last := dec.d;
    if HalfCandidate(last, w, elems, tail, depth) { CandidateNext(last, w, elems, tail, depth); }
    ArrayClosed(first, last, elems, depth);
    var got := dec.Token();
    ok := got.Tok?;
  }

  /** One turn of the array loop: an element. */
  method CheckElem(dec: Decoder, depth: nat, ghost start: seq<Lex>, ghost elems: seq<Text>, ghost w: seq<Text>,
                   ghost tail: seq<Lex>) returns (ok: bool, ghost e: Text)
    requires HalfArray(start, dec.d, elems, depth) && depth <= MAX_DEPTH
    requires dec.d.rest != [] && dec.d.rest[0] !in {RBracket, RBrace}
    modifies dec
    ensures ok ==> HalfArray(start, dec.d, elems + [e], depth)
    ensures ok ==> |dec.d.rest| < |old(dec.d.rest)| && dec.d.stack == old(dec.d.stack)
    ensures HalfCandidate(old(dec.d), w, elems, tail, depth) ==> ok && HalfCandidate(dec.d, w, elems + [e], tail, depth)
    decreases |dec.d.rest|, 2
  {
    ghost var before := dec.d;
    ghost var candidate := HalfCandidate(before, w, elems, tail, depth);
    if candidate { CandidateNext(before, w, elems, tail, depth); }
    ok, e := CheckValue(dec, depth, NextText(w, |elems|), NextTail(w, |elems|, tail));
    if ok {
      ArrayStep(start, before, elems, e, dec.d, depth);
      if candidate { CandidateStep(before, w, elems, e, dec.d, tail, depth); }
    }
  }

  lemma ArrayStarts(d: Dec, w: seq<Text>, tail: seq<Lex>, depth: nat)
    requires d.state == ArrayStart && AllDecodable(d.rest)
    ensures HalfArray(d.rest, d, [], depth)
    ensures ReadsElems(d.rest, w, tail, depth) ==> HalfCandidate(d, w, [], tail, depth)
  {
    assert w[0..] == w && d.rest == Front([]) + d.rest;
  }

  method CheckArray(dec: Decoder, depth: nat, ghost w: seq<Text>, ghost tail: seq<Lex>)
    returns (ok: bool, ghost elems: seq<Text>)
    requires dec.d.state == ArrayStart && AllDecodable(dec.d.rest) && dec.d.stack != [] && depth <= MAX_DEPTH
    modifies dec
    ensures ok ==> ElemsRead(old(dec.d), elems, dec.d, depth)
    ensures ReadsElems(old(dec.d.rest), w, tail, depth) ==> ok && elems == w && dec.d.rest == tail
    decreases |dec.d.rest|, 3
  {
    ghost var first, start := dec.d, dec.d.rest;
    ghost var candidate := ReadsElems(start, w, tail, depth);
    elems := [];
    ArrayStarts(dec.d, w, tail, depth);
    var more := dec.More();
    while more
      invariant |dec.d.rest| <= |start| && dec.d.stack == first.stack
      invariant HalfArray(start, dec.d, elems, depth)
      invariant candidate ==> HalfCandidate(dec.d, w, elems, tail, depth)
      invariant more <==> dec.d.rest != [] && dec.d.rest[0] !in {RBracket, RBrace}
      decreases |dec.d.rest|, more
    {
      ghost var e;
      ok, e := CheckElem(dec, depth, start, elems, w, tail);
      if !ok {
        return;
      }
      elems := elems + [e];
      more := dec.More();
    }
    ok := CloseArray(dec, depth, first, elems, w, tail);
  }

  /** The rest of an array value after its opening bracket. */
  method CheckArrayValue(dec: Decoder, depth: nat, ghost start: Dec, ghost w: Text, ghost tail: seq<Lex>)
    returns (ok: bool, ghost t: Text)
    requires FirstToken(start, LBracket, dec.d) && BeforeValue(start.state) && depth <= MAX_DEPTH
    requires Opened(start, w, tail, dec.d, depth, LBracket)
    modifies dec
    ensures ok ==> ValueRead(start, t, dec.d, depth)
    ensures Reads(start, w, tail, depth) ==> ok && t == w && dec.d.rest == tail
    decreases |dec.d.rest|, 4
  {
    ghost var candidate, inner := Reads(start, w, tail, depth), dec.d.rest;
    LexHead(w);
    t := Atom("");
    if depth >= MAX_DEPTH {
      assert candidate ==> w.Arr? && Height(w) >= 1;
      return false, t;
    }
    ghost var cand := if w.Arr? then w.elems else [];
    if candidate { InsideArray(dec.d.rest, w, tail, depth); }
    ghost var elems;
    ok, elems := CheckArray(dec, depth + 1, cand, tail);
    t := Arr(elems);
    if ok { WholeArray(start, inner, elems, dec.d.rest, depth); }
  }

  lemma InsideObject(lex: seq<Lex>, w: Text, tail: seq<Lex>, depth: nat)
    requires Canonical.Strict(w) && Height(w) + depth <= MAX_DEPTH && Lexemes(w)[0] == LBrace
    requires lex == Lexemes(w)[1..] + tail
    ensures w.Obj? && ReadsMembers(lex, w.members, tail, depth + 1)
  {
    HeightMembersBound(w.members, MAX_DEPTH - depth - 1);
    assert Lexemes(w)[1..] == LexMembers(w.members, true);
  }

  lemma WholeObject(d: Dec, inner: seq<Lex>, ms: seq<Member>, rest: seq<Lex>, depth: nat)
    requires depth < MAX_DEPTH
    requires d.rest == Owed(d.state) + ([LBrace] + inner) && ReadsMembers(inner, ms, rest, depth + 1)
    ensures Reads(d, Obj(ms), rest, depth)
  {
    HeightMembersBound(ms, MAX_DEPTH - depth - 1);
    assert [LBrace] + inner == Lexemes(Obj(ms)) + rest;
  }

  predicate MemberFits(m: Member, depth: nat) {
    Strings.Unescape(m.name).Some? && Canonical.Strict(m.value) && Height(m.value) + depth <= MAX_DEPTH
  }

  ghost predicate NamesSeen(ms: seq<Member>, seen: set<Option<string>>) {
    forall s :: s in seen <==> exists i | 0 <= i < |ms| :: Strings.Unescape(ms[i].name) == s
  }

  ghost predicate HalfObject(start: seq<Lex>, d: Dec, ms: seq<Member>, seen: set<Option<string>>, depth: nat) {
    && AllDecodable(d.rest)
    && d.state == (if ms == [] then ObjectStart else ObjectComma)
    && start == FrontMembers(ms) + d.rest
    && Canonical.Distinct(ms)
    && (forall m | m in ms :: MemberFits(m, depth))
    && NamesSeen(ms, seen)
  }

  ghost predicate HalfObjectCandidate(d: Dec, w: seq<Member>, ms: seq<Member>, tail: seq<Lex>, depth: nat) {
    && ms <= w
    && d.rest == LexMembers(w[|ms|..], ms == []) + tail
    && Canonical.Distinct(w)
    && forall m | m in w :: MemberFits(m, depth)
  }

  function NextMember(w: seq<Member>, n: nat): Member { if n < |w| then w[n] else Member("", Atom("")) }

  function NextMembersTail(w: seq<Member>, n: nat, tail: seq<Lex>): seq<Lex> {
    if n < |w| then LexMembers(w[n + 1..], false) + tail else tail
  }

  lemma MemberAhead(m: Member, rest: seq<Lex>)
    ensures LexMember(m) + rest == [LStr(m.name)] + ([Colon] + (Lexemes(m.value) + rest))
  {
  }

  lemma CandidateMember(d: Dec, w: seq<Member>, ms: seq<Member>, tail: seq<Lex>, depth: nat)
    requires HalfObjectCandidate(d, w, ms, tail, depth)
    ensures d.rest != []
    ensures ms == w ==> d.rest[0] == RBrace && d.rest[1..] == tail
    ensures ms != w ==> d.rest[0] !in {RBracket, RBrace} && |ms| < |w|
    ensures ms != w ==> var m := NextMember(w, |ms|);
              MemberFits(m, depth) &&
              d.rest == Sep(ms == []) + ([LStr(m.name)] + ([Colon] + (Lexemes(m.value) + NextMembersTail(w, |ms|, tail))))
  {
    var n := |ms|;
    if n < |w| {
      assert w[n..][0] == w[n] && w[n..][1..] == w[n + 1..];
      assert w[n] in w;
      ElemAhead(d.rest, Sep(n == 0), LexMember(w[n]), LexMembers(w[n + 1..], false), tail);
      MemberAhead(w[n], NextMembersTail(w, n, tail));
    }
  }

  /** A name is read: a string after the comma owed, never anything else. */
  lemma NameToken(d: Dec)
    requires d.state in {ObjectStart, ObjectComma} && AllDecodable(d.rest)
    requires d.rest != [] && d.rest[0] !in {RBracket, RBrace}
    ensures var (got, e) := Step(d);
            got.Tok? ==>
              && got.lex.LStr? && Strings.Unescape(got.lex.body).Some? && AllDecodable(e.rest)
              && d.rest == Sep(d.state == ObjectStart) + ([got.lex] + e.rest)
              && e.state == ObjectColon && e.stack == d.stack
  {
    if d.state == ObjectComma && d.rest[0] == Comma {
      var d' := Dec(d.rest[1..], ObjectKey, d.stack);
      assert Step(d) == Step(d');
      assert d.rest == [Comma] + d'.rest;
      assert AllDecodable(d'.rest);
    }
  }

  lemma NameCandidate(d: Dec, body: string, rest: seq<Lex>)
    requires d.state in {ObjectStart, ObjectComma}
    requires d.rest == Sep(d.state == ObjectStart) + ([LStr(body)] + rest)
    ensures Step(d).0 == Tok(LStr(body)) && Step(d).1.rest == rest
  {
    if d.state == ObjectComma {
      var d' := Dec(d.rest[1..], ObjectKey, d.stack);
      assert Step(d) == Step(d');
      assert d'.rest == [LStr(body)] + rest;
    }
  }

  lemma SeenStep(ms: seq<Member>, seen: set<Option<string>>, m: Member)
    requires NamesSeen(ms, seen)
    ensures NamesSeen(ms + [m], seen + {Strings.Unescape(m.name)})
  {
    var ms' := ms + [m];
    forall s ensures s in seen + {Strings.Unescape(m.name)} <==>
                     exists i | 0 <= i < |ms'| :: Strings.Unescape(ms'[i].name) == s
    {
      if s in seen {
        var i :| 0 <= i < |ms| && Strings.Unescape(ms[i].name) == s;
        assert Strings.Unescape(ms'[i].name) == s;
      } else if s == Strings.Unescape(m.name) {
        assert Strings.Unescape(ms'[|ms|].name) == s;
      }
    }
  }

  lemma FrontMemberStep(start: seq<Lex>, ms: seq<Member>, m: Member, before: seq<Lex>, named: seq<Lex>, after: seq<Lex>)
    requires start == FrontMembers(ms) + before
    requires before == Sep(ms == []) + ([LStr(m.name)] + named)
    requires named == [Colon] + (Lexemes(m.value) + after)
    ensures start == FrontMembers(ms + [m]) + after
  {
    assert (ms + [m])[..|ms|] == ms;
    assert [LStr(m.name)] + named == LexMember(m) + after;
    Regroup(FrontMembers(ms), Sep(ms == []), LexMember(m), after);
  }

  lemma DistinctStep(ms: seq<Member>, seen: set<Option<string>>, m: Member)
    requires Canonical.Distinct(ms) && NamesSeen(ms, seen) && Strings.Unescape(m.name) !in seen
    ensures Canonical.Distinct(ms + [m])
  {
    var ms' := ms + [m];
    forall i, j | 0 <= i < j < |ms'| ensures !Canonical.SameName(ms'[i], ms'[j]) {
      if j == |ms| {
        assert Strings.Unescape(ms[i].name) in seen;
      }
    }
  }

  lemma ObjectStep(start: seq<Lex>, d: Dec, ms: seq<Member>, seen: set<Option<string>>, name: string, named: Dec,
                   value: Text, d': Dec, depth: nat)
    requires HalfObject(start, d, ms, seen, depth)
    requires d.rest == Sep(ms == []) + ([LStr(name)] + named.rest) && named.state == ObjectColon
    requires Strings.Unescape(name).Some? && Strings.Unescape(name) !in seen
    requires Reads(named, value, d'.rest, depth) && d'.state == ObjectComma && AllDecodable(d'.rest)
    ensures HalfObject(start, d', ms + [Member(name, value)], seen + {Strings.Unescape(name)}, depth)
  {
    var m := Member(name, value);
    FrontMemberStep(start, ms, m, d.rest, named.rest, d'.rest);
    DistinctStep(ms, seen, m);
    SeenStep(ms, seen, m);
  }

  lemma ObjectCandidateStep(w: seq<Member>, ms: seq<Member>, m: Member, d: Dec, d': Dec, tail: seq<Lex>, depth: nat)
    requires HalfObjectCandidate(d, w, ms, tail, depth) && ms != w
    requires m == NextMember(w, |ms|) && d'.rest == NextMembersTail(w, |ms|, tail)
    ensures HalfObjectCandidate(d', w, ms + [m], tail, depth)
  {
    assert w[..|ms|] == ms;
    assert w[..|ms| + 1] == ms + [m];
  }

  /** A candidate never repeats a name already seen. */
  lemma CandidateNameFresh(start: seq<Lex>, d: Dec, w: seq<Member>, ms: seq<Member>, seen: set<Option<string>>,
                           tail: seq<Lex>, depth: nat)
    requires HalfObject(start, d, ms, seen, depth) && HalfObjectCandidate(d, w, ms, tail, depth) && ms != w
    ensures Strings.Unescape(NextMember(w, |ms|).name) !in seen
  {
    forall i | 0 <= i < |ms| ensures Strings.Unescape(ms[i].name) != Strings.Unescape(w[|ms|].name) {
      assert w[i] == ms[i];
      assert !Canonical.SameName(w[i], w[|ms|]);
    }
  }

  lemma ObjectEnd(d: Dec)
    requires d.state in {ObjectStart, ObjectComma} && d.stack != []
    requires d.rest == [] || d.rest[0] in {RBracket, RBrace}
    ensures var (got, e) := Step(d);
            && (got.Tok? <==> d.rest != [] && d.rest[0] == RBrace)
            && (got.Tok? ==> d.rest == [RBrace] + e.rest && e.stack == d.stack[..|d.stack| - 1]
                             && e.state == ValueEnd(d.stack[|d.stack| - 1]))
  {
  }

  lemma FrontMembersClose(start: seq<Lex>, ms: seq<Member>, after: seq<Lex>)
    requires start == FrontMembers(ms) + ([RBrace] + after)
    ensures start == LexMembers(ms, true) + after
  {
    FrontMembersSplit(ms, |ms|);
    assert ms[..|ms|] == ms && ms[|ms|..] == [];
  }

  lemma ObjectDone(start: seq<Lex>, d: Dec, ms: seq<Member>, seen: set<Option<string>>, after: seq<Lex>, depth: nat)
    requires HalfObject(start, d, ms, seen, depth) && d.rest == [RBrace] + after
    ensures ReadsMembers(start, ms, after, depth) && |after| < |start| && AllDecodable(after)
  {
    FrontMembersClose(start, ms, after);
    assert forall i | 0 <= i < |after| :: after[i] == d.rest[i + 1];
  }

  /** The members were read from just inside the object, and the decoder is back outside it. */
  ghost predicate MembersRead(first: Dec, ms: seq<Member>, end: Dec, depth: nat) {
    && ReadsMembers(first.rest, ms, end.rest, depth)
    && |end.rest| < |first.rest| && AllDecodable(end.rest)
    && first.stack != []
    && end.state == ValueEnd(first.stack[|first.stack| - 1]) && end.stack == first.stack[..|first.stack| - 1]
  }

  lemma ObjectClosed(first: Dec, last: Dec, ms: seq<Member>, seen: set<Option<string>>, depth: nat)
    requires HalfObject(first.rest, last, ms, seen, depth) && last.stack == first.stack && first.stack != []
    requires last.rest == [] || last.rest[0] in {RBracket, RBrace}
    ensures Step(last).0.Tok? <==> last.rest != [] && last.rest[0] == RBrace
    ensures Step(last).0.Tok? ==> MembersRead(first, ms, Step(last).1, depth) && last.rest == [RBrace] + Step(last).1.rest
  {
    ObjectEnd(last);
    if Step(last).0.Tok? { ObjectDone(first.rest, last, ms, seen, Step(last).1.rest, depth); }
  }

  lemma ObjectCandidateDone(d: Dec, w: seq<Member>, ms: seq<Member>, tail: seq<Lex>, depth: nat)
    requires HalfObjectCandidate(d, w, ms, tail, depth) && (d.rest == [] || d.rest[0] in {RBracket, RBrace})
    ensures ms == w && d.rest == [RBrace] + tail
  {
    CandidateMember(d, w, ms, tail, depth);
  }

  lemma ObjectCandidateStart(d: Dec, w: seq<Member>, tail: seq<Lex>, depth: nat)
    requires ReadsMembers(d.rest, w, tail, depth)
    ensures HalfObjectCandidate(d, w, [], tail, depth)
  {
    assert w[0..] == w;
  }

  lemma ObjectStarts(d: Dec, depth: nat)
    requires d.state == ObjectStart && AllDecodable(d.rest)
    ensures HalfObject(d.rest, d, [], {}, depth)
  {
    assert d.rest == FrontMembers([]) + d.rest;
  }

  /** The next member name; None for anything but a string and for a name already seen. */
  method ReadName(dec: Decoder, seen: set<Option<string>>, ghost body: string, ghost rest: seq<Lex>)
    returns (name: Option<string>)
    requires dec.d.state in {ObjectStart, ObjectComma} && AllDecodable(dec.d.rest)
    requires dec.d.rest != [] && dec.d.rest[0] !in {RBracket, RBrace}
    modifies dec
    ensures name.Some? ==>
              && Strings.Unescape(name.value).Some? && Strings.Unescape(name.value) !in seen
              && old(dec.d.rest) == Sep(old(dec.d.state) == ObjectStart) + ([LStr(name.value)] + dec.d.rest)
              && AllDecodable(dec.d.rest) && dec.d.state == ObjectColon && dec.d.stack == old(dec.d.stack)
    ensures (old(dec.d.rest) == Sep(old(dec.d.state) == ObjectStart) + ([LStr(body)] + rest)
             && Strings.Unescape(body) !in seen) ==> name == Some(body) && dec.d.rest == rest
  {
    ghost var d := dec.d;
    NameToken(d);
    if d.rest == Sep(d.state == ObjectStart) + ([LStr(body)] + rest) { NameCandidate(d, body, rest); }
    var got := dec.Token();
    name := if got.Tok? && Strings.Unescape(got.lex.body) !in seen then Some(got.lex.body) else None;
  }

  /** One turn of the object loop: a fresh name, a colon, a value. */
  method CheckMember(dec: Decoder, depth: nat, seen: set<Option<string>>, ghost start: seq<Lex>, ghost ms: seq<Member>,
                     ghost w: seq<Member>, ghost tail: seq<Lex>)
    returns (ok: bool, key: Option<string>, ghost m: Member)
    requires HalfObject(start, dec.d, ms, seen, depth) && depth <= MAX_DEPTH
    requires dec.d.rest != [] && dec.d.rest[0] !in {RBracket, RBrace}
    modifies dec
    ensures ok ==> HalfObject(start, dec.d, ms + [m], seen + {key}, depth)
    ensures ok ==> |dec.d.rest| < |old(dec.d.rest)| && dec.d.stack == old(dec.d.stack)
    ensures HalfObjectCandidate(old(dec.d), w, ms, tail, depth) ==>
              ok && HalfObjectCandidate(dec.d, w, ms + [m], tail, depth)
    decreases |dec.d.rest|, 2
  {
    ghost var before := dec.d;
    ghost var candidate := HalfObjectCandidate(before, w, ms, tail, depth);
    ghost var next, after := NextMember(w, |ms|), NextMembersTail(w, |ms|, tail);
    if candidate {
      CandidateMember(before, w, ms, tail, depth);
      CandidateNameFresh(start, before, w, ms, seen, tail, depth);
    }
    m := next;
    key := None;
    var name := ReadName(dec, seen, next.name, [Colon] + (Lexemes(next.value) + after));
    if name.None? {
      return false, key, m;
    }
    key := Strings.Unescape(name.value);
    ghost var named := dec.d;
    ghost var value;
    ok, value := CheckValue(dec, depth, next.value, after);
    if ok {
      m := Member(name.value, value);
      ObjectStep(start, before, ms, seen, name.value, named, value, dec.d, depth);
      if candidate { ObjectCandidateStep(w, ms, m, before, dec.d, tail, depth); }
    }
  }

  /** After the last member: the closing brace. */
  method CloseObject(dec: Decoder, depth: nat, ghost first: Dec, ghost ms: seq<Member>, ghost seen: set<Option<string>>,
                     ghost w: seq<Member>, ghost tail: seq<Lex>) returns (ok: bool)
    requires HalfObject(first.rest, dec.d, ms, seen, depth) && dec.d.stack == first.stack && first.stack != []
    requires dec.d.rest == [] || dec.d.rest[0] in {RBracket, RBrace}
    modifies dec
    ensures ok ==> MembersRead(first, ms, dec.d, depth)
    ensures HalfObjectCandidate(old(dec.d), w, ms, tail, depth) ==> ok && ms == w && dec.d.rest == tail
  {
    ghost var last := dec.d;
    if HalfObjectCandidate(last, w, ms, tail, depth) { ObjectCandidateDone(last, w, ms, tail, depth); }
    ObjectClosed(first, last, ms, seen, depth);
    var got := dec.Token();
    ok := got.Tok?;
  }

  method CheckObject(dec: Decoder, depth: nat, ghost w: seq<Member>, ghost tail: seq<Lex>)
    returns (ok: bool, ghost ms: seq<Member>)
    requires dec.d.state == ObjectStart && AllDecodable(dec.d.rest) && dec.d.stack != [] && depth <= MAX_DEPTH
    modifies dec
    ensures ok ==> MembersRead(old(dec.d), ms, dec.d, depth)
    ensures ReadsMembers(old(dec.d.rest), w, tail, depth) ==> ok && ms == w && dec.d.rest == tail
    decreases |dec.d.rest|, 3
  {
    ghost var first := dec.d;
    ghost var start := dec.d.rest;
    ghost var candidate := ReadsMembers(start, w, tail, depth);
    ms := [];
    var seen: set<Option<string>> := {};
    ObjectStarts(dec.d, depth);
    if candidate { ObjectCandidateStart(dec.d, w, tail, depth); }
    var more := dec.More();
    while more
      invariant |dec.d.rest| <= |start| && dec.d.stack == first.stack
      invariant HalfObject(start, dec.d, ms, seen, depth)
      invariant candidate ==> HalfObjectCandidate(dec.d, w, ms, tail, depth)
      invariant more <==> dec.d.rest != [] && dec.d.rest[0] !in {RBracket, RBrace}
      decreases |dec.d.rest|, more
    {
      var key;
      ghost var m;
      ok, key, m := CheckMember(dec, depth, seen, start, ms, w, tail);
      if !ok {
        return;
      }
      ms, seen := ms + [m], seen + {key};
      more := dec.More();
    }
    ok := CloseObject(dec, depth, first, ms, seen, w, tail);
  }

  /** The rest of an object value after its opening brace. */
  method CheckObjectValue(dec: Decoder, depth: nat, ghost start: Dec, ghost w: Text, ghost tail: seq<Lex>)
    returns (ok: bool, ghost t: Text)
    requires FirstToken(start, LBrace, dec.d) && BeforeValue(start.state) && depth <= MAX_DEPTH
    requires Opened(start, w, tail, dec.d, depth, LBrace)
    modifies dec
    ensures ok ==> ValueRead(start, t, dec.d, depth)
    ensures Reads(start, w, tail, depth) ==> ok && t == w && dec.d.rest == tail
    decreases |dec.d.rest|, 4
  {
    ghost var candidate, inner := Reads(start, w, tail, depth), dec.d.rest;
    LexHead(w);
    t := Atom("");
    if depth >= MAX_DEPTH {
      assert candidate ==> w.Obj? && Height(w) >= 1;
      return false, t;
    }
    ghost var cand := if w.Obj? then w.members else [];
    if candidate { InsideObject(dec.d.rest, w, tail, depth); }
    ghost var ms;
    ok, ms := CheckObject(dec, depth + 1, cand, tail);
    t := Obj(ms);
    if ok { WholeObject(start, inner, ms, dec.d.rest, depth); }
  }

  // ---------- Objects ----------

  // ---------- A whole token text ----------

  lemma {:induction false} StrictDecodes(t: Text)
    requires Canonical.Strict(t)
    ensures AllDecodable(Lexemes(t))
    decreases t, 0
  {
    match t
    case Atom(_) =>
    case Str(_) =>
    case Arr(elems) => StrictElems(elems, true);
    case Obj(members) => StrictMembers(members, true);
  }

  lemma {:induction false} StrictElems(elems: seq<Text>, first: bool)
    requires forall e | e in elems :: Canonical.Strict(e)
    ensures AllDecodable(LexElems(elems, first))
    decreases elems, 0
  {
    if elems != [] {
      StrictDecodes(elems[0]);
      StrictElems(elems[1..], false);
    }
  }

  lemma {:induction false} StrictMembers(ms: seq<Member>, first: bool)
    requires forall m | m in ms :: Strings.Unescape(m.name).Some? && Canonical.Strict(m.value)
    ensures AllDecodable(LexMembers(ms, first))
    decreases ms, 0
  {
    if ms != [] {
      StrictDecodes(ms[0].value);
      StrictMembers(ms[1..], false);
    }
  }

  /** Tokens whose strings decode: accepted if and only if they spell exactly one valid tree. */
  method OneValue(lex: seq<Lex>) returns (ok: bool)
    requires AllDecodable(lex)
    ensures ok <==> exists t :: Lexemes(t) == lex && Valid(t)
  {
    ghost var w := if exists t :: Lexemes(t) == lex && Valid(t)
                   then var t :| Lexemes(t) == lex && Valid(t); t else Atom("");
    ghost var candidate := Lexemes(w) == lex && Valid(w);
    var dec := new Decoder(lex);
    ghost var t;
    assert candidate ==> Reads(dec.d, w, [], 0) by { assert lex + [] == lex; }
    ok, t := CheckValue(dec, 0, w, []);
    if ok {
      assert Lexemes(t) + dec.d.rest == lex && Valid(t);
      var got := dec.Token();
      ok := got == Eof;
      if ok { assert Lexemes(t) + [] == Lexemes(t); }
    }
  }
}
