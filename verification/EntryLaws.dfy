/** Encoding an entry and decoding the line gives the entry back. */
module EntryLaws {
  import opened Options
  import opened Json
  import opened Entry
  import opened Canonical
  import opened JsonCheck
  import Decimal
  import Strings
  import Words

  // ---------- Fields found again by name ----------

  predicate SlotNames(slots: seq<Slot>) {
    && (forall s | s in slots :: Strings.Plain(s.name))
    && (forall i, j | 0 <= i < j < |slots| :: slots[i].name != slots[j].name)
  }

  lemma PlainFold(name: string)
    requires Strings.Plain(name)
    ensures Fold(name) == name
  {
    assert forall i | 0 <= i < |name| :: name[i] in name;
  }

  lemma PlainMatches(name: string, value: Text, other: string)
    requires Strings.Plain(name) && Strings.Plain(other)
    ensures Matches(Member(name, value), other) <==> name == other
    ensures IsSeal(Member(name, value)) <==> name in {"hash", "sig"}
  {
    Strings.PlainQuote(name);
    PlainFold(name);
    PlainFold(other);
  }

  lemma ValuesCons(m: Member, ms: seq<Member>, name: string)
    ensures Values([m] + ms, name) == (if Matches(m, name) then [m.value] else []) + Values(ms, name)
  {
    assert ([m] + ms)[1..] == ms;
  }

  /** What the first slot contributes to a field. */
  lemma ValuesStep(slots: seq<Slot>, name: string)
    requires slots != [] && Strings.Plain(slots[0].name) && Strings.Plain(name)
    ensures Values(Present(slots), name) ==
            (if slots[0].present && slots[0].name == name then [slots[0].value] else []) + Values(Present(slots[1..]), name)
  {
    PlainMatches(slots[0].name, slots[0].value, name);
    if slots[0].present {
      ValuesCons(Member(slots[0].name, slots[0].value), Present(slots[1..]), name);
    } else {
      assert Present(slots) == Present(slots[1..]);
    }
  }

  /** The other slots have names of their own. */
  lemma TailNames(slots: seq<Slot>)
    requires SlotNames(slots) && slots != []
    ensures SlotNames(slots[1..]) && forall s | s in slots[1..] :: s.name != slots[0].name
  {
    var t := slots[1..];
    assert forall s | s in t :: s in slots;
    assert forall i | 0 <= i < |t| :: t[i] == slots[i + 1];
  }

  lemma {:induction false} NoValues(slots: seq<Slot>, name: string)
    requires Strings.Plain(name) && forall s | s in slots :: Strings.Plain(s.name) && s.name != name
    ensures Values(Present(slots), name) == []
  {
    if slots != [] {
      assert slots[0] in slots && forall s | s in slots[1..] :: s in slots;
      ValuesStep(slots, name);
      NoValues(slots[1..], name);
    }
  }

  /** A field receives its own value when it was written, and nothing otherwise. */
  lemma {:induction false} OwnValue(slots: seq<Slot>, k: nat)
    requires SlotNames(slots) && k < |slots|
    ensures Values(Present(slots), slots[k].name) == if slots[k].present then [slots[k].value] else []
  {
    var name := slots[k].name;
    assert slots[0] in slots && slots[k] in slots;
    ValuesStep(slots, name);
    TailNames(slots);
    if k == 0 {
      NoValues(slots[1..], name);
    } else {
      OwnValue(slots[1..], k - 1);
    }
  }

  lemma Assoc(x: seq<Member>, y: seq<Member>, z: seq<Member>)
    ensures x + (y + z) == (x + y) + z
  {
  }

  lemma {:induction false} PresentAppend(a: seq<Slot>, b: seq<Slot>)
    ensures Present(a + b) == Present(a) + Present(b)
  {
    if a == [] {
      assert a + b == b;
      assert Present(a) + Present(b) == Present(b);
    } else {
      PresentAppend(a[1..], b);
      assert (a + b)[1..] == a[1..] + b;
      var head := if a[0].present then [Member(a[0].name, a[0].value)] else [];
      Assoc(head, Present(a[1..]), Present(b));
    }
  }

  lemma {:induction false} UnsealedAppend(a: seq<Member>, b: seq<Member>)
    ensures Unsealed(a + b) == Unsealed(a) + Unsealed(b)
  {
    if a == [] {
      assert a + b == b;
      assert Unsealed(a) + Unsealed(b) == Unsealed(b);
    } else {
      UnsealedAppend(a[1..], b);
      assert (a + b)[1..] == a[1..] + b;
      Assoc(if IsSeal(a[0]) then [] else [a[0]], Unsealed(a[1..]), Unsealed(b));
    }
  }

  lemma {:induction false} UnsealedSame(ms: seq<Member>)
    requires forall m | m in ms :: !IsSeal(m)
    ensures Unsealed(ms) == ms
  {
    if ms != [] {
      assert ms[0] in ms && forall m | m in ms[1..] :: m in ms;
      UnsealedSame(ms[1..]);
      assert ms == [ms[0]] + ms[1..];
    }
  }

  // ---------- Scalars and lists ----------

  lemma TakeStrText(s: string)
    ensures TakeString([StrText(s)], "") == Some(s)
  {
    Strings.GoQuoteDecodes(s);
    var vs := [StrText(s)];
    assert vs[1..] == [];
  }

  lemma TakeStrSlot(s: string)
    ensures TakeString(if s != "" then [StrText(s)] else [], "") == Some(s)
  {
    TakeStrText(s);
  }

  lemma {:induction false} StringsOfTexts(l: seq<string>, es: seq<Text>)
    requires |es| == |l| && forall i | 0 <= i < |l| :: es[i] == StrText(l[i])
    ensures StringsOf(es) == Some(l)
  {
    if l != [] {
      TakeStrText(l[0]);
      StringsOfTexts(l[1..], es[1..]);
      assert l == [l[0]] + l[1..];
    }
  }

  lemma TakeListText(l: List)
    ensures TakeList([ListText(l)], None) == Some(l)
  {
    var vs := [ListText(l)];
    assert vs[1..] == [];
    if l.Some? {
      StringsOfTexts(l.value, ListText(l).elems);
    }
  }

  lemma WrittenValue(slots: seq<Slot>, k: nat)
    requires SlotNames(slots) && k < |slots| && slots[k].present
    ensures Values(Present(slots), slots[k].name) == [slots[k].value]
  {
    OwnValue(slots, k);
  }

  /** Length and second letter tell the format's field names apart. */
  function Code(name: string): int {
    if |name| < 2 then 0 else |name| * 1000 + name[1] as int
  }

  lemma CodesDiffer(slots: seq<Slot>, codes: seq<int>)
    requires |codes| == |slots| && forall i | 0 <= i < |slots| :: Code(slots[i].name) == codes[i]
    requires forall i, j | 0 <= i < j < |codes| :: codes[i] != codes[j]
    requires forall s | s in slots :: Strings.Plain(s.name)
    ensures SlotNames(slots)
  {
    forall i, j | 0 <= i < j < |slots| ensures slots[i].name != slots[j].name {
      assert codes[i] != codes[j];
    }
  }

  lemma InfoPlain()
    ensures Strings.Plain("version") && Strings.Plain("command") && Strings.Plain("args")
    ensures Strings.Plain("deny") && Strings.Plain("approve")
  {
  }

  lemma InfoNames(info: Info)
    ensures SlotNames(InfoSlots(info))
  {
    InfoPlain();
    var slots := InfoSlots(info);
    assert slots[0].name == "version" && slots[1].name == "command" && slots[2].name == "args";
    assert slots[3].name == "deny" && slots[4].name == "approve";
    forall s | s in slots ensures Strings.Plain(s.name) {
      var i :| 0 <= i < |slots| && slots[i] == s;
    }
    CodesDiffer(slots, [7101, 7111, 4114, 4101, 7112]);
  }

  lemma InfoValues(info: Info, k: nat)
    requires k < 5
    ensures Values(InfoText(info).members, InfoSlots(info)[k].name) == [InfoSlots(info)[k].value]
  {
    InfoNames(info);
    WrittenValue(InfoSlots(info), k);
  }

  lemma InfoRoundTrip(info: Info)
    ensures DecodeInfo(InfoText(info).members, ZERO_INFO) == Some(info)
  {
    InfoValues(info, 0); InfoValues(info, 1); InfoValues(info, 2); InfoValues(info, 3); InfoValues(info, 4);
    TakeStrText(info.version);
    TakeStrText(info.command);
    TakeListText(info.args);
    TakeListText(info.deny);
    TakeListText(info.approve);
  }

  // ---------- The whole entry ----------

  function KeptRaw(r: Raw): Raw { if r.Value? then Value(HtmlText(r.text)) else r }

  /** What storage keeps of a payload: everything, with HTML-sensitive characters spelled as escapes. */
  function Kept(p: Payload): Payload {
    p.(args := KeptRaw(p.args), result := KeptRaw(p.result), error := KeptRaw(p.error))
  }

  lemma AllPlain()
    ensures Strings.Plain("seq") && Strings.Plain("ts") && Strings.Plain("session") && Strings.Plain("kind")
    ensures Strings.Plain("session_info") && Strings.Plain("tool") && Strings.Plain("args") && Strings.Plain("result")
    ensures Strings.Plain("error") && Strings.Plain("content_hash") && Strings.Plain("decision")
    ensures Strings.Plain("prev_hash") && Strings.Plain("hash") && Strings.Plain("sig")
  {
  }

  function EntrySlots(e: Stored): seq<Slot> {
    Slots(e.payload) + SealSlots(e.hash, e.sig)
  }

  const NAMES := ["seq", "ts", "session", "kind", "session_info", "tool", "args", "result", "error",
                  "content_hash", "decision", "prev_hash", "hash", "sig"]

  const CODES := [3101, 2115, 7101, 4105, 12101, 4111, 4114, 6101, 5114, 12111, 8101, 9114, 4097, 3105]

  lemma CodesDistinct()
    ensures |CODES| == 14 && forall i, j | 0 <= i < j < |CODES| :: CODES[i] != CODES[j]
  {
  }

  lemma NameCodes()
    ensures |NAMES| == 14 && forall i | 0 <= i < 14 :: Code(NAMES[i]) == CODES[i] && Strings.Plain(NAMES[i])
  {
    AllPlain();
  }

  lemma NamesOfEntry(e: Stored)
    ensures |EntrySlots(e)| == 14 && forall i | 0 <= i < 14 :: EntrySlots(e)[i].name == NAMES[i]
  {
    var s := EntrySlots(e);
    var p := Slots(e.payload);
    assert |p| == 12;
    assert forall i | 0 <= i < 12 :: s[i] == p[i];
    assert s[12] == SealSlots(e.hash, e.sig)[0] && s[13] == SealSlots(e.hash, e.sig)[1];
    assert forall i | 0 <= i < 12 :: p[i].name == NAMES[i];
  }

  lemma EntryNames(e: Stored)
    ensures SlotNames(EntrySlots(e))
  {
    NamesOfEntry(e);
    NameCodes();
    CodesDistinct();
    var slots := EntrySlots(e);
    forall s | s in slots ensures Strings.Plain(s.name) {
      var i :| 0 <= i < |slots| && slots[i] == s;
    }
    CodesDiffer(slots, CODES);
  }

  lemma SlotValues(e: Stored, k: nat, name: string)
    requires k < 14 && EntrySlots(e)[k].name == name
    ensures var slot := EntrySlots(e)[k];
            Values(EntryText(e).members, name) == if slot.present then [slot.value] else []
  {
    EntryNames(e);
    OwnValue(EntrySlots(e), k);
  }

  lemma StrField(e: Stored, k: nat, name: string, s: string)
    requires k < 14
    requires EntrySlots(e)[k] == Slot(name, true, StrText(s)) || EntrySlots(e)[k] == StrSlot(name, s)
    ensures TakeString(Values(EntryText(e).members, name), "") == Some(s)
  {
    SlotValues(e, k, name);
    TakeStrSlot(s);
    TakeStrText(s);
  }

  lemma RawField(e: Stored, k: nat, name: string, r: Raw)
    requires k < 14 && EntrySlots(e)[k] == RawSlot(name, r) && !r.Malformed?
    ensures TakeRaw(Values(EntryText(e).members, name)) == KeptRaw(r)
  {
    SlotValues(e, k, name);
  }

  lemma NotNull(s: string)
    requires s != "" && Decimal.AllDigits(s)
    ensures s != "null"
  {
    assert s[0] in s;
  }

  lemma TakeNatural(n: nat)
    requires n < Words.UINT64
    ensures TakeUint([Atom(Decimal.Natural(n))], 0) == Some(n)
  {
    var vs := [Atom(Decimal.Natural(n))];
    assert vs[1..] == [];
    Decimal.NaturalValue(n);
    NotNull(Decimal.Natural(n));
  }

  lemma SeqField(e: Stored)
    requires e.payload.seqNo < Words.UINT64
    ensures TakeUint(Values(EntryText(e).members, "seq"), 0) == Some(e.payload.seqNo)
  {
    SlotValues(e, 0, "seq");
    TakeNatural(e.payload.seqNo);
  }

  lemma TakeInfoOne(t: Text, info: Info)
    requires t.Obj? && DecodeInfo(t.members, ZERO_INFO) == Some(info)
    ensures TakeInfo([t], None) == Some(Some(info))
  {
    var vs := [t];
    assert vs[1..] == [];
  }

  lemma InfoField(e: Stored)
    ensures TakeInfo(Values(EntryText(e).members, "session_info"), None) == Some(e.payload.info)
  {
    SlotValues(e, 4, "session_info");
    if e.payload.info.Some? {
      InfoRoundTrip(e.payload.info.value);
      TakeInfoOne(InfoText(e.payload.info.value), e.payload.info.value);
    }
  }

  lemma RawSlots(e: Stored)
    ensures |EntrySlots(e)| == 14
    ensures EntrySlots(e)[6] == RawSlot("args", e.payload.args)
    ensures EntrySlots(e)[7] == RawSlot("result", e.payload.result)
    ensures EntrySlots(e)[8] == RawSlot("error", e.payload.error)
  {
    var p := Slots(e.payload);
    assert EntrySlots(e)[6] == p[6] && EntrySlots(e)[7] == p[7] && EntrySlots(e)[8] == p[8];
  }

  lemma RawFields(e: Stored)
    requires Encodable(e.payload)
    ensures TakeRaw(Values(EntryText(e).members, "args")) == KeptRaw(e.payload.args)
    ensures TakeRaw(Values(EntryText(e).members, "result")) == KeptRaw(e.payload.result)
    ensures TakeRaw(Values(EntryText(e).members, "error")) == KeptRaw(e.payload.error)
  {
    RawSlots(e);
    RawField(e, 6, "args", e.payload.args);
    RawField(e, 7, "result", e.payload.result);
    RawField(e, 8, "error", e.payload.error);
  }

  ghost predicate LabelsTaken(ms: seq<Member>, p: Payload) {
    && TakeString(Values(ms, "ts"), "") == Some(p.time)
    && TakeString(Values(ms, "session"), "") == Some(p.session)
    && TakeString(Values(ms, "kind"), "") == Some(p.kind)
    && TakeString(Values(ms, "tool"), "") == Some(p.tool)
  }

  ghost predicate LinksTaken(ms: seq<Member>, p: Payload) {
    && TakeString(Values(ms, "content_hash"), "") == Some(p.contentHash)
    && TakeString(Values(ms, "decision"), "") == Some(p.decision)
    && TakeString(Values(ms, "prev_hash"), "") == Some(p.prevHash)
  }

  ghost predicate SealTaken(ms: seq<Member>, hash: string, sig: string) {
    && TakeString(Values(ms, "hash"), "") == Some(hash)
    && TakeString(Values(ms, "sig"), "") == Some(sig)
  }

  ghost predicate StringsTaken(ms: seq<Member>, p: Payload, hash: string, sig: string) {
    LabelsTaken(ms, p) && LinksTaken(ms, p) && SealTaken(ms, hash, sig)
  }

  lemma LabelFields(e: Stored)
    ensures LabelsTaken(EntryText(e).members, e.payload)
  {
    var p := e.payload;
    StrField(e, 1, "ts", p.time);
    StrField(e, 2, "session", p.session);
    StrField(e, 3, "kind", p.kind);
    StrField(e, 5, "tool", p.tool);
  }

  lemma LinkFields(e: Stored)
    ensures LinksTaken(EntryText(e).members, e.payload)
  {
    var p := e.payload;
    StrField(e, 9, "content_hash", p.contentHash);
    StrField(e, 10, "decision", p.decision);
    StrField(e, 11, "prev_hash", p.prevHash);
  }

  lemma SealFields(e: Stored)
    ensures SealTaken(EntryText(e).members, e.hash, e.sig)
  {
    StrField(e, 12, "hash", e.hash);
    StrField(e, 13, "sig", e.sig);
  }

  lemma StringFields(e: Stored)
    ensures StringsTaken(EntryText(e).members, e.payload, e.hash, e.sig)
  {
    LabelFields(e);
    LinkFields(e);
    SealFields(e);
  }

  lemma DecodeFrom(ms: seq<Member>, p: Payload, hash: string, sig: string)
    requires TakeUint(Values(ms, "seq"), 0) == Some(p.seqNo)
    requires TakeInfo(Values(ms, "session_info"), None) == Some(p.info)
    requires StringsTaken(ms, p, hash, sig)
    requires TakeRaw(Values(ms, "args")) == p.args && TakeRaw(Values(ms, "result")) == p.result
    requires TakeRaw(Values(ms, "error")) == p.error
    ensures DecodeEntry(ms) == Some(Stored(p, hash, sig))
  {
  }

  /** A line decodes to the entry it was written from, its embedded values as stored. */
  lemma EntryRoundTrip(e: Stored)
    requires e.payload.seqNo < Words.UINT64 && Encodable(e.payload)
    ensures DecodeEntry(EntryText(e).members) == Some(Stored(Kept(e.payload), e.hash, e.sig))
  {
    SeqField(e);
    StringFields(e);
    InfoField(e);
    RawFields(e);
    DecodeFrom(EntryText(e).members, Kept(e.payload), e.hash, e.sig);
  }

  lemma {:induction false} NoSeal(slots: seq<Slot>)
    requires forall s | s in slots :: Strings.Plain(s.name) && s.name !in {"hash", "sig"}
    ensures forall m | m in Present(slots) :: !IsSeal(m)
  {
    if slots != [] {
      assert slots[0] in slots && forall s | s in slots[1..] :: s in slots;
      PlainMatches(slots[0].name, slots[0].value, "seq") by { AllPlain(); }
      NoSeal(slots[1..]);
    }
  }

  lemma SealMembers(hash: string, sig: string)
    ensures Unsealed(Present(SealSlots(hash, sig))) == []
    ensures Present(SealSlots(hash, sig)) == [Member("hash", StrText(hash)), Member("sig", StrText(sig))]
  {
    AllPlain();
    var s := SealSlots(hash, sig);
    assert s[1..][0] == s[1] && s[1..][1..] == [];
    var ms := Present(s);
    PlainMatches("hash", StrText(hash), "hash");
    PlainMatches("sig", StrText(sig), "sig");
    assert ms == [Member("hash", StrText(hash)), Member("sig", StrText(sig))];
    var tail := ms[1..];
    assert tail == [Member("sig", StrText(sig))] && tail[1..] == [];
    assert IsSeal(ms[0]) && IsSeal(tail[0]);
    assert Unsealed(tail[1..]) == [];
    assert Unsealed(tail) == [];
  }

  lemma PayloadHasNoSeal(e: Stored)
    ensures forall m | m in Present(Slots(e.payload)) :: !IsSeal(m)
  {
    var slots := Slots(e.payload);
    EntryNames(e);
    NamesOfEntry(e);
    forall s | s in slots ensures Strings.Plain(s.name) && s.name !in {"hash", "sig"} {
      var i :| 0 <= i < |slots| && slots[i] == s;
      assert EntrySlots(e)[i] == s && EntrySlots(e)[12].name == "hash" && EntrySlots(e)[13].name == "sig";
      assert s in EntrySlots(e);
    }
    NoSeal(slots);
  }

  lemma UnsealedSlots(slots: seq<Slot>, seal: seq<Slot>)
    requires (forall m | m in Present(slots) :: !IsSeal(m)) && Unsealed(Present(seal)) == []
    ensures Unsealed(Present(slots + seal)) == Present(slots)
  {
    PresentAppend(slots, seal);
    UnsealedAppend(Present(slots), Present(seal));
    UnsealedSame(Present(slots));
  }

  /** Removing the two seal members leaves exactly the payload. */
  lemma UnsealedEntry(e: Stored)
    ensures Unsealed(EntryText(e).members) == PayloadText(e.payload).members
  {
    PayloadHasNoSeal(e);
    SealMembers(e.hash, e.sig);
    UnsealedSlots(Slots(e.payload), SealSlots(e.hash, e.sig));
  }

  // ---------- The two kinds of record ----------

  /** A header: its session info and nothing of a call. */
  predicate IsHeader(p: Payload) {
    && p.info.Some?
    && p == Payload(p.seqNo, p.time, p.session, "session", p.info, "", Empty, Empty, Empty, "", "", p.prevHash)
  }

  /** A call: a tool, one of the five decisions, not both result and error, and no session info. */
  predicate IsCall(p: Payload) {
    && p.tool != "" && (p.result == Empty || p.error == Empty)
    && (p.decision == "allow" || p.decision == "deny" || p.decision == "approved" || p.decision == "rejected"
        || p.decision == "timeout")
    && p == Payload(p.seqNo, p.time, p.session, "", None, p.tool, p.args, p.result, p.error, p.contentHash, p.decision,
                    p.prevHash)
  }

  /** The format knows exactly these two kinds, and no record is of both. */
  lemma ShapeExactly(p: Payload)
    ensures ShapeOk(p) <==> IsHeader(p) || IsCall(p)
    ensures !(IsHeader(p) && IsCall(p))
  {
  }

  // ---------- Storage keeps the value ----------

  lemma {:induction false} HtmlTwice(t: Text)
    ensures HtmlText(HtmlText(t)) == HtmlText(t)
  {
    match t
    case Atom(_) =>
    case Str(body) => Strings.HtmlIdempotent(body);
    case Arr(elems) =>
      forall i | 0 <= i < |elems| ensures HtmlText(HtmlText(elems[i])) == HtmlText(elems[i]) {
        HtmlTwice(elems[i]);
      }
      var h := HtmlText(t).elems;
      assert HtmlText(HtmlText(t)).elems == h;
    case Obj(members) =>
      var h := HtmlText(t).members;
      forall i | 0 <= i < |members| ensures Member(Strings.Html(h[i].name), HtmlText(h[i].value)) == h[i] {
        HtmlTwice(members[i].value);
        Strings.HtmlIdempotent(members[i].name);
      }
      assert HtmlText(HtmlText(t)).members == h;
  }

  lemma HtmlMember(parse: Reading, m: Member, h: Member)
    requires h == Member(Strings.Html(m.name), HtmlText(m.value)) && Strings.Unescape(m.name).Some?
    requires Canon(parse, HtmlText(m.value)) == Canon(parse, m.value)
    ensures Strings.Unescape(h.name) == Strings.Unescape(m.name) && CanonMember(parse, h) == CanonMember(parse, m)
  {
    Strings.HtmlDecodes(m.name);
  }

  /** Escaping for storage changes neither strictness nor the canonical form. */
  lemma {:induction false} HtmlSame(parse: Reading, t: Text)
    requires Strict(t)
    ensures Strict(HtmlText(t)) && Canon(parse, HtmlText(t)) == Canon(parse, t)
  {
    match t
    case Atom(_) =>
    case Str(body) => Strings.HtmlDecodes(body);
    case Arr(elems) =>
      var h := HtmlText(t).elems;
      forall i | 0 <= i < |elems| ensures Strict(h[i]) && Canon(parse, h[i]) == Canon(parse, elems[i]) {
        HtmlSame(parse, elems[i]);
      }
      var a, b := CanonElems(parse, h), CanonElems(parse, elems);
      assert a.Some? <==> b.Some?;
      if a.Some? { assert a.value == b.value; }
    case Obj(members) =>
      var h := HtmlText(t).members;
      forall i | 0 <= i < |members|
        ensures Strings.Unescape(h[i].name) == Strings.Unescape(members[i].name) && Strict(h[i].value)
        ensures CanonMember(parse, h[i]) == CanonMember(parse, members[i])
      {
        HtmlSame(parse, members[i].value);
        HtmlMember(parse, members[i], h[i]);
      }
      forall i, j | 0 <= i < j < |h| ensures !SameName(h[i], h[j]) {
        assert !SameName(members[i], members[j]);
      }
      var a, b := CanonMembers(parse, h), CanonMembers(parse, members);
      assert a.Some? <==> b.Some?;
      if a.Some? { assert a.value == b.value; }
  }

  lemma {:induction false} HtmlHeight(t: Text)
    ensures Height(HtmlText(t)) == Height(t)
    decreases t, 1
  {
    match t
    case Atom(_) =>
    case Str(_) =>
    case Arr(elems) => HtmlHeightElems(elems, HtmlText(t).elems);
    case Obj(members) => HtmlHeightMembers(members, HtmlText(t).members);
  }

  lemma {:induction false} HtmlHeightElems(elems: seq<Text>, h: seq<Text>)
    requires |h| == |elems| && forall i | 0 <= i < |elems| :: h[i] == HtmlText(elems[i])
    ensures HeightElems(h) == HeightElems(elems)
    decreases elems, 0
  {
    if elems != [] {
      HtmlHeight(elems[0]);
      HtmlHeightElems(elems[1..], h[1..]);
    }
  }

  lemma {:induction false} HtmlHeightMembers(ms: seq<Member>, h: seq<Member>)
    requires |h| == |ms| && forall i | 0 <= i < |ms| :: h[i].value == HtmlText(ms[i].value)
    ensures HeightMembers(h) == HeightMembers(ms)
    decreases ms, 0
  {
    if ms != [] {
      HtmlHeight(ms[0].value);
      HtmlHeightMembers(ms[1..], h[1..]);
    }
  }

  lemma KeptSlot(name: string, r: Raw)
    ensures RawSlot(name, KeptRaw(r)) == RawSlot(name, r)
  {
    if r.Value? { HtmlTwice(r.text); }
  }

  /** Storing a stored payload changes nothing: same fields, same commitment. */
  lemma KeptSame(p: Payload)
    ensures Slots(Kept(p)) == Slots(p) && PayloadText(Kept(p)) == PayloadText(p)
    ensures ContentText(Kept(p)) == ContentText(p)
  {
    KeptSlot("args", p.args);
    KeptSlot("result", p.result);
    KeptSlot("error", p.error);
  }
}
