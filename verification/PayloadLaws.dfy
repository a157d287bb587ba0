/** What equal canonical bytes say about two payloads, and what an accepted line contains. */
module PayloadLaws {
  import opened Options
  import opened Json
  import opened Entry
  import opened EntryLaws
  import opened Canonical
  import opened Codec
  import opened Members
  import Decimal
  import Strings

  // ---------- Slots and members ----------

  function MemberOf(s: Slot): Member { Member(s.name, s.value) }

  lemma {:induction false} WrittenSlot(slots: seq<Slot>, k: nat) returns (i: nat)
    requires k < |slots| && slots[k].present
    ensures i < |Present(slots)| && Present(slots)[i] == MemberOf(slots[k])
  {
    var head := if slots[0].present then [MemberOf(slots[0])] else [];
    assert Present(slots) == head + Present(slots[1..]);
    if k == 0 {
      i := 0;
    } else {
      i := WrittenSlot(slots[1..], k - 1);
      i := i + |head|;
    }
  }

  lemma {:induction false} SlotWritten(slots: seq<Slot>, i: nat) returns (k: nat)
    requires i < |Present(slots)|
    ensures k < |slots| && slots[k].present && Present(slots)[i] == MemberOf(slots[k])
  {
    var head := if slots[0].present then [MemberOf(slots[0])] else [];
    assert Present(slots) == head + Present(slots[1..]);
    if i < |head| {
      k := 0;
    } else {
      k := SlotWritten(slots[1..], i - |head|);
      k := k + 1;
    }
  }

  predicate Aligned(a: seq<Slot>, b: seq<Slot>) {
    |a| == |b| && SlotNames(a) && SlotNames(b) && forall k | 0 <= k < |a| :: a[k].name == b[k].name
  }

  ghost predicate SameSlot(parse: Reading, s: Slot, t: Slot) {
    s.present == t.present && (s.present ==> Same(parse, s.value, t.value))
  }

  lemma PlainSame(m: Member, n: Member)
    requires Strings.Plain(m.name) && Strings.Plain(n.name)
    ensures SameName(m, n) <==> m.name == n.name
  {
    Strings.PlainQuote(m.name);
    Strings.PlainQuote(n.name);
  }

  /** A member written from one slot list is found in the other under the same slot. */
  lemma FoundSlot(a: seq<Slot>, b: seq<Slot>, k: nat) returns (i: nat, j: nat)
    requires Aligned(a, b) && k < |a| && a[k].present && Covers(Present(b), Present(a))
    ensures b[k].present
    ensures i < |Present(a)| && Present(a)[i] == MemberOf(a[k])
    ensures j < |Present(b)| && Present(b)[j] == MemberOf(b[k])
  {
    i := WrittenSlot(a, k);
    assert HasMember(Present(b), Present(a)[i]);
    j :| 0 <= j < |Present(b)| && SameName(Present(b)[j], Present(a)[i]);
    var l := SlotWritten(b, j);
    assert b[l] in b && a[k] in a;
    PlainSame(MemberOf(b[l]), MemberOf(a[k]));
    assert b[l].name == b[k].name;
    assert l == k;
  }

  lemma FoundSame(parse: Reading, a: seq<Slot>, b: seq<Slot>, k: nat)
    requires Aligned(a, b) && k < |a| && a[k].present
    requires Covers(Present(b), Present(a)) && SameValues(parse, Present(a), Present(b))
    ensures b[k].present && Same(parse, a[k].value, b[k].value)
  {
    var i, j := FoundSlot(a, b, k);
    assert SameName(Present(a)[i], Present(b)[j]);
  }

  lemma SlotAgrees(parse: Reading, a: seq<Slot>, b: seq<Slot>, k: nat)
    requires Aligned(a, b) && k < |a| && Covers(Present(b), Present(a)) && Covers(Present(a), Present(b))
    requires SameValues(parse, Present(a), Present(b))
    ensures SameSlot(parse, a[k], b[k])
  {
    if a[k].present {
      FoundSame(parse, a, b, k);
    } else if b[k].present {
      var i, j := FoundSlot(b, a, k);
      assert false;
    }
  }

  lemma SameObjects(parse: Reading, a: seq<Member>, b: seq<Member>)
    requires Same(parse, Obj(a), Obj(b))
    ensures Covers(a, b) && Covers(b, a) && SameValues(parse, a, b)
  {
  }

  /** Objects of one value, written from the same fields, agree field by field. */
  lemma SlotsAgree(parse: Reading, a: seq<Slot>, b: seq<Slot>, k: nat)
    requires Aligned(a, b) && k < |a| && Same(parse, Obj(Present(a)), Obj(Present(b)))
    ensures SameSlot(parse, a[k], b[k])
  {
    SameObjects(parse, Present(a), Present(b));
    SlotAgrees(parse, a, b, k);
  }

  // ---------- Fields recovered from their values ----------

  lemma SameStr(parse: Reading, s: string, t: string)
    requires Same(parse, StrText(s), StrText(t))
    ensures s == t
  {
    Strings.GoQuoteDecodes(s);
    Strings.GoQuoteDecodes(t);
  }

  lemma SameStrSlot(parse: Reading, name: string, s: string, t: string)
    requires SameSlot(parse, StrSlot(name, s), StrSlot(name, t))
    ensures s == t
  {
    if s != "" { SameStr(parse, s, t); }
  }

  lemma SameList(parse: Reading, l: List, m: List)
    requires Same(parse, ListText(l), ListText(m))
    ensures l == m
  {
    if l.Some? && m.Some? {
      assert |ListText(l).elems| == |ListText(m).elems|;
      forall i | 0 <= i < |l.value| ensures l.value[i] == m.value[i] {
        assert Same(parse, ListText(l).elems[i], ListText(m).elems[i]);
        SameStr(parse, l.value[i], m.value[i]);
      }
      assert l.value == m.value;
    }
  }

  ghost predicate AllSame(parse: Reading, a: seq<Slot>, b: seq<Slot>) {
    |a| == |b| && forall k | 0 <= k < |a| :: SameSlot(parse, a[k], b[k])
  }

  lemma InfoSlotsFix(parse: Reading, x: Info, y: Info)
    requires AllSame(parse, InfoSlots(x), InfoSlots(y))
    ensures x == y
  {
    var a, b := InfoSlots(x), InfoSlots(y);
    assert SameSlot(parse, a[0], b[0]) && SameSlot(parse, a[1], b[1]) && SameSlot(parse, a[2], b[2]);
    assert SameSlot(parse, a[3], b[3]) && SameSlot(parse, a[4], b[4]);
    SameStr(parse, x.version, y.version);
    SameStr(parse, x.command, y.command);
    SameList(parse, x.args, y.args);
    SameList(parse, x.deny, y.deny);
    SameList(parse, x.approve, y.approve);
  }

  lemma AllAgree(parse: Reading, a: seq<Slot>, b: seq<Slot>)
    requires Aligned(a, b) && Same(parse, Obj(Present(a)), Obj(Present(b)))
    ensures AllSame(parse, a, b)
  {
    forall k | 0 <= k < |a| ensures SameSlot(parse, a[k], b[k]) {
      SlotsAgree(parse, a, b, k);
    }
  }

  lemma SameInfo(parse: Reading, x: Info, y: Info)
    requires Same(parse, InfoText(x), InfoText(y))
    ensures x == y
  {
    InfoNames(x);
    InfoNames(y);
    AllAgree(parse, InfoSlots(x), InfoSlots(y));
    InfoSlotsFix(parse, x, y);
  }

  /** One embedded value, up to member order, escapes and rounding; absent on both sides or neither. */
  ghost predicate SameRaw(parse: Reading, r: Raw, s: Raw) {
    r.Empty? == s.Empty? && (r.Value? && s.Value? ==> Same(parse, HtmlText(r.text), HtmlText(s.text)))
  }

  /** Everything canonical bytes say about a payload; seq is left to its position in the chain. */
  ghost predicate SamePayload(parse: Reading, p: Payload, q: Payload) {
    && p.time == q.time && p.session == q.session && p.kind == q.kind && p.info == q.info && p.tool == q.tool
    && p.contentHash == q.contentHash && p.decision == q.decision && p.prevHash == q.prevHash
    && SameRaw(parse, p.args, q.args) && SameRaw(parse, p.result, q.result) && SameRaw(parse, p.error, q.error)
  }

  lemma PayloadSlots(p: Payload)
    ensures |Slots(p)| == 12 && SlotNames(Slots(p))
    ensures forall i | 0 <= i < 12 :: Slots(p)[i].name == NAMES[i]
  {
    var e := Stored(p, "", "");
    EntryNames(e);
    NamesOfEntry(e);
    assert |Slots(p)| == 12;
    assert forall i | 0 <= i < 12 :: Slots(p)[i] == EntrySlots(e)[i];
    forall s | s in Slots(p) ensures Strings.Plain(s.name) {
      var i :| 0 <= i < 12 && Slots(p)[i] == s;
      assert s == EntrySlots(e)[i];
      assert s in EntrySlots(e);
    }
  }

  lemma RawSame(parse: Reading, name: string, r: Raw, s: Raw)
    requires SameSlot(parse, RawSlot(name, r), RawSlot(name, s))
    ensures SameRaw(parse, r, s)
  {
  }

  lemma SlotsFixStrings(parse: Reading, p: Payload, q: Payload)
    requires AllSame(parse, Slots(p), Slots(q))
    ensures p.time == q.time && p.session == q.session && p.kind == q.kind && p.tool == q.tool
    ensures p.contentHash == q.contentHash && p.decision == q.decision && p.prevHash == q.prevHash
  {
    var a, b := Slots(p), Slots(q);
    assert SameSlot(parse, a[1], b[1]) && SameSlot(parse, a[2], b[2]) && SameSlot(parse, a[3], b[3]);
    assert SameSlot(parse, a[5], b[5]) && SameSlot(parse, a[9], b[9]);
    assert SameSlot(parse, a[10], b[10]) && SameSlot(parse, a[11], b[11]);
    SameStr(parse, p.time, q.time);
    SameStr(parse, p.session, q.session);
    SameStrSlot(parse, "kind", p.kind, q.kind);
    SameStrSlot(parse, "tool", p.tool, q.tool);
    SameStrSlot(parse, "content_hash", p.contentHash, q.contentHash);
    SameStrSlot(parse, "decision", p.decision, q.decision);
    SameStr(parse, p.prevHash, q.prevHash);
  }

  lemma SlotsFixRest(parse: Reading, p: Payload, q: Payload)
    requires AllSame(parse, Slots(p), Slots(q))
    ensures p.info == q.info
    ensures SameRaw(parse, p.args, q.args) && SameRaw(parse, p.result, q.result) && SameRaw(parse, p.error, q.error)
  {
    var a, b := Slots(p), Slots(q);
    assert SameSlot(parse, a[4], b[4]) && SameSlot(parse, a[6], b[6]) && SameSlot(parse, a[7], b[7]) && SameSlot(parse, a[8], b[8]);
    if p.info.Some? { SameInfo(parse, p.info.value, q.info.value); }
    RawSame(parse, "args", p.args, q.args);
    RawSame(parse, "result", p.result, q.result);
    RawSame(parse, "error", p.error, q.error);
  }

  lemma TextsFixPayload(parse: Reading, p: Payload, q: Payload)
    requires Same(parse, PayloadText(p), PayloadText(q))
    ensures SamePayload(parse, p, q)
  {
    PayloadSlots(p);
    PayloadSlots(q);
    AllAgree(parse, Slots(p), Slots(q));
    SlotsFixStrings(parse, p, q);
    SlotsFixRest(parse, p, q);
  }

  /** Equal sealed bytes: equal payloads, embedded values compared by value. */
  lemma SealFixesPayload(parse: Reading, p: Payload, q: Payload)
    requires Seal(parse, p).Some? && Seal(parse, p) == Seal(parse, q)
    ensures SamePayload(parse, p, q)
  {
    CanonicalExact(parse, PayloadText(p), PayloadText(q));
    TextsFixPayload(parse, p, q);
  }

  // ---------- The content commitment ----------

  /** ParseFloat accepts nothing with JSON punctuation or white space in it. */
  ghost predicate Literals(parse: Reading) {
    forall s :: parse(s).Some? ==> AtomOk(s)
  }

  lemma KeywordOk(lit: string)
    requires lit in KEYWORDS
    ensures AtomOk(lit)
  {
    assert lit == "null" || lit == "true" || lit == "false";
    assert forall c | c in lit :: 'a' <= c <= 'z';
    assert forall c | 'a' <= c <= 'z' :: c !in STRUCTURAL;
  }

  lemma {:induction false} StrictOk(parse: Reading, t: Text)
    requires Literals(parse) && Strict(t) && InRange(parse, t)
    ensures Ok(t)
  {
    match t
    case Atom(lit) => if lit in KEYWORDS { KeywordOk(lit); }
    case Str(body) => Strings.DecodableIsBody(body);
    case Arr(elems) =>
      forall e | e in elems ensures Ok(e) { StrictOk(parse, e); }
    case Obj(members) =>
      forall m | m in members ensures MemberOk(m) {
        StrictOk(parse, m.value);
        Strings.DecodableIsBody(m.name);
      }
  }

  function ContentSlots(p: Payload): seq<Slot> {
    [RawSlot("args", p.args), RawSlot("result", p.result), RawSlot("error", p.error)]
  }

  lemma ContentNames(p: Payload)
    ensures SlotNames(ContentSlots(p)) && |ContentSlots(p)| == 3
  {
    AllPlain();
    CodesDiffer(ContentSlots(p), [4114, 6101, 5114]);
  }

  lemma RawOk(parse: Reading, p: Payload, k: nat)
    requires Literals(parse) && Seal(parse, p).Some? && 6 <= k < 9
    ensures |Slots(p)| == 12 && (Slots(p)[k].present ==> Ok(Slots(p)[k].value))
  {
    PayloadSlots(p);
    CanonExists(parse, PayloadText(p));
    StrictOk(parse, PayloadText(p));
    if Slots(p)[k].present {
      var i := WrittenSlot(Slots(p), k);
      var ms := PayloadText(p).members;
      assert ms[i] in ms && MemberOk(ms[i]);
    }
  }

  lemma SlotOk(s: Slot)
    requires Strings.Plain(s.name) && Ok(s.value)
    ensures MemberOk(MemberOf(s))
  {
    Strings.PlainQuote(s.name);
    Strings.DecodableIsBody(s.name);
  }

  predicate WrittenOk(slots: seq<Slot>) {
    forall k | 0 <= k < |slots| && slots[k].present :: Strings.Plain(slots[k].name) && Ok(slots[k].value)
  }

  lemma OneOk(slots: seq<Slot>, i: nat)
    requires WrittenOk(slots) && i < |Present(slots)|
    ensures MemberOk(Present(slots)[i])
  {
    var k := SlotWritten(slots, i);
    SlotOk(slots[k]);
  }

  lemma PresentOk(slots: seq<Slot>)
    requires WrittenOk(slots)
    ensures Ok(Obj(Present(slots)))
  {
    forall i | 0 <= i < |Present(slots)| ensures MemberOk(Present(slots)[i]) {
      OneOk(slots, i);
    }
  }

  lemma ContentOk(parse: Reading, p: Payload)
    requires Literals(parse) && Seal(parse, p).Some?
    ensures Ok(ContentText(p))
  {
    var slots := ContentSlots(p);
    RawOk(parse, p, 6); RawOk(parse, p, 7); RawOk(parse, p, 8);
    AllPlain();
    assert slots[0] == Slots(p)[6] && slots[1] == Slots(p)[7] && slots[2] == Slots(p)[8];
    PresentOk(slots);
  }

  lemma EqualSlots(p: Payload, q: Payload, k: nat, name: string, r: Raw, s: Raw)
    requires k < 3 && ContentSlots(p)[k] == RawSlot(name, r) && ContentSlots(q)[k] == RawSlot(name, s)
    requires Present(ContentSlots(p)) == Present(ContentSlots(q))
    requires !r.Malformed? && !s.Malformed?
    ensures KeptRaw(r) == KeptRaw(s)
  {
    ContentNames(p);
    ContentNames(q);
    OwnValue(ContentSlots(p), k);
    OwnValue(ContentSlots(q), k);
  }

  /**
   Equal commitments: the same presence and the same tokens, number literals included;
   only HTML escaping, which storage normalises, is forgotten.
   */
  lemma ContentFixesLiterals(parse: Reading, p: Payload, q: Payload)
    requires Literals(parse) && Seal(parse, p).Some? && Seal(parse, q).Some?
    ensures Content(p) == Content(q) <==>
            KeptRaw(p.args) == KeptRaw(q.args) && KeptRaw(p.result) == KeptRaw(q.result) && KeptRaw(p.error) == KeptRaw(q.error)
  {
    if Content(p) == Content(q) {
      ContentOk(parse, p);
      ContentOk(parse, q);
      PrintInjective(ContentText(p), ContentText(q));
      EqualSlots(p, q, 0, "args", p.args, q.args);
      EqualSlots(p, q, 1, "result", p.result, q.result);
      EqualSlots(p, q, 2, "error", p.error, q.error);
    }
    if KeptRaw(p.args) == KeptRaw(q.args) && KeptRaw(p.result) == KeptRaw(q.result) && KeptRaw(p.error) == KeptRaw(q.error) {
      KeptSlot("args", p.args); KeptSlot("args", q.args);
      KeptSlot("result", p.result); KeptSlot("result", q.result);
      KeptSlot("error", p.error); KeptSlot("error", q.error);
    }
  }

  // ---------- What a written line says, member by member ----------

  /** A string field: under its name if it is always written or not empty, and nowhere otherwise. */
  predicate TellsString(ms: seq<Member>, name: string, s: string, always: bool) {
    if always || s != "" then HoldsString(ms, name, s) else Lacks(ms, name)
  }

  predicate TellsRaw(ms: seq<Member>, name: string, r: Raw) {
    && (r.Empty? ==> Lacks(ms, name))
    && (r.Value? ==> Holds(ms, name, HtmlText(r.text)))
  }

  predicate SpellsList(v: Text, l: List) {
    if l.None? then v == NULL
    else v.Arr? && |v.elems| == |l.value| && forall i | 0 <= i < |l.value| :: Spells(v.elems[i], l.value[i])
  }

  ghost predicate TellsList(ms: seq<Member>, name: string, l: List) {
    exists v :: Holds(ms, name, v) && SpellsList(v, l)
  }

  ghost predicate TellsInfo(ms: seq<Member>, info: Info) {
    && HoldsString(ms, "version", info.version) && HoldsString(ms, "command", info.command)
    && TellsList(ms, "args", info.args) && TellsList(ms, "deny", info.deny) && TellsList(ms, "approve", info.approve)
  }

  ghost predicate TellsNumber(ms: seq<Member>, name: string, n: nat) {
    exists lit :: Holds(ms, name, Atom(lit)) && Decimal.AllDigits(lit) && Decimal.DigitsValue(lit) == n
  }

  /** A slot is found under its name with its value, or its name is nowhere. */
  lemma SlotHeld(slots: seq<Slot>, k: nat)
    requires SlotNames(slots) && k < |slots|
    ensures slots[k].present ==> Holds(Present(slots), slots[k].name, slots[k].value)
    ensures !slots[k].present ==> Lacks(Present(slots), slots[k].name)
  {
    var ms := Present(slots);
    assert slots[k] in slots;
    Strings.PlainQuote(slots[k].name);
    if slots[k].present {
      var i := WrittenSlot(slots, k);
      assert NamedAt(ms, i, slots[k].name);
    } else {
      forall i | 0 <= i < |ms| ensures !NamedAt(ms, i, slots[k].name) {
        var l := SlotWritten(slots, i);
        assert slots[l] in slots;
        Strings.PlainQuote(slots[l].name);
      }
    }
  }

  lemma HeldString(ms: seq<Member>, name: string, s: string)
    requires Holds(ms, name, StrText(s))
    ensures HoldsString(ms, name, s)
  {
    Strings.GoQuoteDecodes(s);
    var i :| 0 <= i < |ms| && NamedAt(ms, i, name) && ms[i].value == StrText(s);
    assert Spells(ms[i].value, s);
  }

  lemma HeldList(ms: seq<Member>, name: string, l: List)
    requires Holds(ms, name, ListText(l))
    ensures TellsList(ms, name, l)
  {
    if l.Some? {
      forall i | 0 <= i < |l.value| ensures Spells(ListText(l).elems[i], l.value[i]) {
        Strings.GoQuoteDecodes(l.value[i]);
      }
    }
    assert SpellsList(ListText(l), l);
  }

  lemma InfoSpelled(info: Info)
    ensures TellsInfo(InfoText(info).members, info)
  {
    var slots, ms := InfoSlots(info), InfoText(info).members;
    InfoNames(info);
    SlotHeld(slots, 0); SlotHeld(slots, 1); SlotHeld(slots, 2); SlotHeld(slots, 3); SlotHeld(slots, 4);
    HeldString(ms, "version", info.version);
    HeldString(ms, "command", info.command);
    HeldList(ms, "args", info.args);
    HeldList(ms, "deny", info.deny);
    HeldList(ms, "approve", info.approve);
  }

  lemma EntrySlotHeld(e: Stored, k: nat, slot: Slot)
    requires k < 14 && EntrySlots(e)[k] == slot
    ensures slot.present ==> Holds(EntryText(e).members, slot.name, slot.value)
    ensures !slot.present ==> Lacks(EntryText(e).members, slot.name)
  {
    EntryNames(e);
    SlotHeld(EntrySlots(e), k);
  }

  lemma StringTold(e: Stored, k: nat, name: string, s: string, always: bool)
    requires k < 14 && EntrySlots(e)[k] == (if always then Slot(name, true, StrText(s)) else StrSlot(name, s))
    ensures TellsString(EntryText(e).members, name, s, always)
  {
    EntrySlotHeld(e, k, EntrySlots(e)[k]);
    if always || s != "" { HeldString(EntryText(e).members, name, s); }
  }

  lemma RawTold(e: Stored, k: nat, name: string, r: Raw)
    requires k < 14 && EntrySlots(e)[k] == RawSlot(name, r)
    ensures TellsRaw(EntryText(e).members, name, r)
  {
    EntrySlotHeld(e, k, RawSlot(name, r));
  }

  predicate TellsLabels(ms: seq<Member>, p: Payload) {
    && TellsString(ms, "ts", p.time, true) && TellsString(ms, "session", p.session, true)
    && TellsString(ms, "kind", p.kind, false) && TellsString(ms, "tool", p.tool, false)
  }

  predicate TellsValues(ms: seq<Member>, p: Payload) {
    TellsRaw(ms, "args", p.args) && TellsRaw(ms, "result", p.result) && TellsRaw(ms, "error", p.error)
  }

  predicate TellsLinks(ms: seq<Member>, p: Payload) {
    && TellsString(ms, "content_hash", p.contentHash, false) && TellsString(ms, "decision", p.decision, false)
    && TellsString(ms, "prev_hash", p.prevHash, true)
  }

  predicate TellsSeal(ms: seq<Member>, hash: string, sig: string) {
    TellsString(ms, "hash", hash, true) && TellsString(ms, "sig", sig, true)
  }

  ghost predicate TellsSession(ms: seq<Member>, info: Option<Info>) {
    if info.None? then Lacks(ms, "session_info")
    else exists own :: Holds(ms, "session_info", Obj(own)) && TellsInfo(own, info.value)
  }

  lemma LabelSlots(e: Stored)
    ensures var s, p := EntrySlots(e), e.payload;
            && |s| == 14
            && s[1] == Slot("ts", true, StrText(p.time)) && s[2] == Slot("session", true, StrText(p.session))
            && s[3] == StrSlot("kind", p.kind) && s[5] == StrSlot("tool", p.tool)
  {
    var s, p := EntrySlots(e), Slots(e.payload);
    assert s[1] == p[1] && s[2] == p[2] && s[3] == p[3] && s[5] == p[5];
  }

  lemma LabelsTold(e: Stored)
    ensures TellsLabels(EntryText(e).members, e.payload)
  {
    var p := e.payload;
    LabelSlots(e);
    StringTold(e, 1, "ts", p.time, true);
    StringTold(e, 2, "session", p.session, true);
    StringTold(e, 3, "kind", p.kind, false);
    StringTold(e, 5, "tool", p.tool, false);
  }

  lemma ValuesTold(e: Stored)
    ensures TellsValues(EntryText(e).members, e.payload)
  {
    RawSlots(e);
    RawTold(e, 6, "args", e.payload.args);
    RawTold(e, 7, "result", e.payload.result);
    RawTold(e, 8, "error", e.payload.error);
  }

  lemma LinkSlots(e: Stored)
    ensures var s, p := EntrySlots(e), e.payload;
            && |s| == 14
            && s[9] == StrSlot("content_hash", p.contentHash) && s[10] == StrSlot("decision", p.decision)
            && s[11] == Slot("prev_hash", true, StrText(p.prevHash))
  {
    var s, p := EntrySlots(e), Slots(e.payload);
    assert s[9] == p[9] && s[10] == p[10] && s[11] == p[11];
  }

  lemma LinksTold(e: Stored)
    ensures TellsLinks(EntryText(e).members, e.payload)
  {
    var p := e.payload;
    LinkSlots(e);
    StringTold(e, 9, "content_hash", p.contentHash, false);
    StringTold(e, 10, "decision", p.decision, false);
    StringTold(e, 11, "prev_hash", p.prevHash, true);
  }

  lemma SealTold(e: Stored)
    ensures TellsSeal(EntryText(e).members, e.hash, e.sig)
  {
    StringTold(e, 12, "hash", e.hash, true);
    StringTold(e, 13, "sig", e.sig, true);
  }

  lemma NumberTold(e: Stored)
    ensures TellsNumber(EntryText(e).members, "seq", e.payload.seqNo)
  {
    var lit := Decimal.Natural(e.payload.seqNo);
    EntrySlotHeld(e, 0, Slot("seq", true, Atom(lit)));
    Decimal.NaturalValue(e.payload.seqNo);
    assert Holds(EntryText(e).members, "seq", Atom(lit));
  }

  lemma SessionTold(e: Stored)
    ensures TellsSession(EntryText(e).members, e.payload.info)
  {
    var info := e.payload.info;
    EntrySlotHeld(e, 4, Slot("session_info", info.Some?, if info.Some? then InfoText(info.value) else NULL));
    if info.Some? {
      InfoSpelled(info.value);
      assert Holds(EntryText(e).members, "session_info", Obj(InfoText(info.value).members));
    }
  }

  /** The line tells the record: every field under the format's name for it, and only when the format writes it. */
  ghost predicate Tells(ms: seq<Member>, e: Stored) {
    && TellsNumber(ms, "seq", e.payload.seqNo) && TellsLabels(ms, e.payload) && TellsSession(ms, e.payload.info)
    && TellsValues(ms, e.payload) && TellsLinks(ms, e.payload) && TellsSeal(ms, e.hash, e.sig)
  }

  lemma LineTells(e: Stored)
    ensures EntryText(e).Obj? && Tells(EntryText(e).members, e)
  {
    NumberTold(e);
    LabelsTold(e);
    SessionTold(e);
    ValuesTold(e);
    LinksTold(e);
    SealTold(e);
  }
}
