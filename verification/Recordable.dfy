/** Exactly which calls can be recorded. */
module Recordable {
  import opened Options
  import opened Json
  import opened Entry
  import opened EntryLaws
  import opened Canonical
  import opened JsonCheck
  import opened Codec
  import opened PayloadLaws
  import opened Logger
  import Decimal
  import Strings
  import Words

  /** Every 64-bit counter value is a number ParseFloat can read. */
  ghost predicate CountersParse(parse: Reading) {
    forall n: nat | n < Words.UINT64 :: parse(Decimal.Natural(n)).Some?
  }

  /** A value out of a validated message, or absent. */
  predicate Checked(r: Raw) {
    r.Empty? || (r.Value? && Valid(r.text))
  }

  /** Its numbers fit binary64, and one level of nesting is left for the record around it. */
  predicate Fits(parse: Reading, r: Raw) {
    r.Value? ==> InRange(parse, r.text) && Height(r.text) < MAX_DEPTH
  }

  // ---------- Objects written from slots ----------

  predicate Fine(s: Slot) {
    Strings.Plain(s.name) && Strict(s.value)
  }

  /** The value of a written slot is in range and no deeper than h. */
  predicate Fit(parse: Reading, s: Slot, h: nat) {
    s.present ==> InRange(parse, s.value) && Height(s.value) <= h
  }

  lemma {:induction false} PresentHeight(slots: seq<Slot>, h: nat)
    ensures HeightMembers(Present(slots)) <= h <==>
            forall k | 0 <= k < |slots| && slots[k].present :: Height(slots[k].value) <= h
  {
    if slots != [] {
      var head := if slots[0].present then [MemberOf(slots[0])] else [];
      assert Present(slots) == head + Present(slots[1..]);
      PresentHeight(slots[1..], h);
      HeightAppend(head, Present(slots[1..]));
      assert head != [] ==> head[1..] == [];
      assert forall k | 1 <= k < |slots| :: slots[k] == slots[1..][k - 1];
    }
  }

  lemma MemberFine(slots: seq<Slot>, i: nat)
    requires i < |Present(slots)| && forall k | 0 <= k < |slots| :: Fine(slots[k])
    ensures Strings.Unescape(Present(slots)[i].name) == Some(Present(slots)[i].name) && Strict(Present(slots)[i].value)
  {
    var k := SlotWritten(slots, i);
    Strings.PlainQuote(slots[k].name);
  }

  lemma TailNames(slots: seq<Slot>)
    requires SlotNames(slots) && slots != []
    ensures SlotNames(slots[1..])
  {
    assert forall s | s in slots[1..] :: s in slots;
    assert forall i | 0 <= i < |slots[1..]| :: slots[1..][i] == slots[i + 1];
  }

  lemma {:induction false} PresentDistinct(slots: seq<Slot>)
    requires SlotNames(slots)
    ensures forall i, j | 0 <= i < j < |Present(slots)| :: Present(slots)[i].name != Present(slots)[j].name
  {
    if slots != [] {
      var rest := slots[1..];
      var head := if slots[0].present then [MemberOf(slots[0])] else [];
      assert Present(slots) == head + Present(rest);
      TailNames(slots);
      PresentDistinct(rest);
      forall j | 0 <= j < |Present(rest)| ensures Present(rest)[j].name != slots[0].name {
        var k := SlotWritten(rest, j);
        assert slots[k + 1] == rest[k];
      }
    }
  }

  lemma PresentStrict(slots: seq<Slot>)
    requires SlotNames(slots) && forall k | 0 <= k < |slots| :: Fine(slots[k])
    ensures Strict(Obj(Present(slots)))
  {
    var ms := Present(slots);
    PresentDistinct(slots);
    forall i | 0 <= i < |ms| ensures Strings.Unescape(ms[i].name) == Some(ms[i].name) && Strict(ms[i].value) {
      MemberFine(slots, i);
    }
  }

  lemma PresentInRange(parse: Reading, slots: seq<Slot>)
    ensures InRange(parse, Obj(Present(slots))) <==>
            forall k | 0 <= k < |slots| && slots[k].present :: InRange(parse, slots[k].value)
  {
    var ms := Present(slots);
    if InRange(parse, Obj(ms)) {
      forall k | 0 <= k < |slots| && slots[k].present ensures InRange(parse, slots[k].value) {
        var i := WrittenSlot(slots, k);
        assert ms[i] in ms;
      }
    }
    if forall k | 0 <= k < |slots| && slots[k].present :: InRange(parse, slots[k].value) {
      forall i | 0 <= i < |ms| ensures InRange(parse, ms[i].value) {
        var k := SlotWritten(slots, i);
      }
    }
  }

  predicate AllFit(parse: Reading, slots: seq<Slot>, h: nat) {
    forall k | 0 <= k < |slots| :: Fit(parse, slots[k], h)
  }

  /** An object of fine slots is in range and within a depth exactly when its written slots are. */
  lemma ObjectFits(parse: Reading, slots: seq<Slot>, h: nat)
    ensures InRange(parse, Obj(Present(slots))) && Height(Obj(Present(slots))) <= h + 1 <==> AllFit(parse, slots, h)
  {
    PresentHeight(slots, h);
    PresentInRange(parse, slots);
    if AllFit(parse, slots, h) {
      forall k | 0 <= k < |slots| && slots[k].present
        ensures InRange(parse, slots[k].value) && Height(slots[k].value) <= h
      {
        assert Fit(parse, slots[k], h);
      }
    }
  }

  // ---------- The values an entry writes ----------

  lemma StrFine(parse: Reading, s: string)
    ensures Strict(StrText(s)) && Height(StrText(s)) == 0 && InRange(parse, StrText(s))
  {
    Strings.GoQuoteDecodes(s);
  }

  lemma {:induction false} FlatElems(es: seq<Text>)
    requires forall i | 0 <= i < |es| :: Height(es[i]) == 0
    ensures HeightElems(es) == 0
  {
    if es != [] { FlatElems(es[1..]); }
  }

  lemma ListFine(parse: Reading, l: List)
    ensures Strict(ListText(l)) && Height(ListText(l)) <= 1 && InRange(parse, ListText(l))
  {
    if l.Some? {
      var es := ListText(l).elems;
      forall i | 0 <= i < |es| ensures Strict(es[i]) && Height(es[i]) == 0 && InRange(parse, es[i]) {
        StrFine(parse, l.value[i]);
      }
      FlatElems(es);
    }
  }

  predicate FineIn(parse: Reading, s: Slot, h: nat) {
    Fine(s) && Fit(parse, s, h)
  }

  lemma StrSlotFine(parse: Reading, s: Slot, text: string, h: nat)
    requires Strings.Plain(s.name) && s.value == StrText(text)
    ensures FineIn(parse, s, h)
  {
    StrFine(parse, text);
  }

  lemma ListSlotFine(parse: Reading, s: Slot, l: List)
    requires Strings.Plain(s.name) && s.value == ListText(l)
    ensures FineIn(parse, s, 1)
  {
    ListFine(parse, l);
  }

  lemma InfoSlotsFine(parse: Reading, info: Info, k: nat)
    requires k < 5 && SlotNames(InfoSlots(info))
    ensures FineIn(parse, InfoSlots(info)[k], 1)
  {
    var s := InfoSlots(info)[k];
    assert s in InfoSlots(info);
    match k
    case 0 => StrSlotFine(parse, s, info.version, 1);
    case 1 => StrSlotFine(parse, s, info.command, 1);
    case 2 => ListSlotFine(parse, s, info.args);
    case 3 => ListSlotFine(parse, s, info.deny);
    case _ => ListSlotFine(parse, s, info.approve);
  }

  lemma FineObject(parse: Reading, slots: seq<Slot>, h: nat)
    requires SlotNames(slots) && forall k | 0 <= k < |slots| :: FineIn(parse, slots[k], h)
    ensures Strict(Obj(Present(slots))) && Height(Obj(Present(slots))) <= h + 1 && InRange(parse, Obj(Present(slots)))
  {
    PresentStrict(slots);
    ObjectFits(parse, slots, h);
  }

  lemma InfoFine(parse: Reading, info: Info)
    ensures Strict(InfoText(info)) && Height(InfoText(info)) <= 2 && InRange(parse, InfoText(info))
  {
    InfoNames(info);
    forall k | 0 <= k < 5 ensures FineIn(parse, InfoSlots(info)[k], 1) {
      InfoSlotsFine(parse, info, k);
    }
    FineObject(parse, InfoSlots(info), 1);
  }

  lemma ElemsInRange(parse: Reading, a: seq<Text>, b: seq<Text>)
    requires |a| == |b| && forall i | 0 <= i < |a| :: InRange(parse, a[i]) <==> InRange(parse, b[i])
    ensures InRange(parse, Arr(a)) <==> InRange(parse, Arr(b))
  {
    forall i | 0 <= i < |a| ensures a[i] in a && b[i] in b {}
  }

  lemma MembersInRange(parse: Reading, a: seq<Member>, b: seq<Member>)
    requires |a| == |b| && forall i | 0 <= i < |a| :: InRange(parse, a[i].value) <==> InRange(parse, b[i].value)
    ensures InRange(parse, Obj(a)) <==> InRange(parse, Obj(b))
  {
    forall i | 0 <= i < |a| ensures a[i] in a && b[i] in b {}
  }

  lemma {:induction false} HtmlInRange(parse: Reading, t: Text)
    ensures InRange(parse, HtmlText(t)) <==> InRange(parse, t)
  {
    match t
    case Atom(_) =>
    case Str(_) =>
    case Arr(elems) =>
      var h := HtmlText(t).elems;
      forall i | 0 <= i < |elems| ensures InRange(parse, h[i]) <==> InRange(parse, elems[i]) {
        HtmlInRange(parse, elems[i]);
      }
      ElemsInRange(parse, elems, h);
    case Obj(members) =>
      var h := HtmlText(t).members;
      forall i | 0 <= i < |members| ensures InRange(parse, h[i].value) <==> InRange(parse, members[i].value) {
        HtmlInRange(parse, members[i].value);
      }
      MembersInRange(parse, members, h);
  }

  lemma RawFine(parse: Reading, name: string, r: Raw)
    requires Checked(r) && Strings.Plain(name)
    ensures Fine(RawSlot(name, r)) && (Fit(parse, RawSlot(name, r), MAX_DEPTH - 1) <==> Fits(parse, r))
  {
    if r.Value? {
      HtmlSame(parse, r.text);
      HtmlHeight(r.text);
      HtmlInRange(parse, r.text);
    }
  }

  lemma InfoSlotFine(parse: Reading, s: Slot, info: Option<Info>)
    requires Strings.Plain(s.name) && s.value == if info.Some? then InfoText(info.value) else NULL
    ensures FineIn(parse, s, 2)
  {
    if info.Some? { InfoFine(parse, info.value); }
  }

  function StringAt(p: Payload, k: nat): string {
    match k
    case 1 => p.time
    case 2 => p.session
    case 3 => p.kind
    case 5 => p.tool
    case 9 => p.contentHash
    case 10 => p.decision
    case _ => p.prevHash
  }

  lemma HeadTexts(p: Payload)
    ensures |Slots(p)| == 12 && Slots(p)[0].value == Atom(Decimal.Natural(p.seqNo))
    ensures Slots(p)[4].value == if p.info.Some? then InfoText(p.info.value) else NULL
  {
  }

  lemma LabelTexts(p: Payload)
    ensures |Slots(p)| == 12 && Slots(p)[1].value == StrText(p.time) && Slots(p)[2].value == StrText(p.session)
    ensures Slots(p)[3].value == StrText(p.kind) && Slots(p)[5].value == StrText(p.tool)
  {
  }

  lemma LinkTexts(p: Payload)
    ensures |Slots(p)| == 12 && Slots(p)[9].value == StrText(p.contentHash)
    ensures Slots(p)[10].value == StrText(p.decision) && Slots(p)[11].value == StrText(p.prevHash)
  {
  }

  predicate TextOf(p: Payload, k: nat, t: Text) {
    if k == 0 then t == Atom(Decimal.Natural(p.seqNo))
    else if k == 4 then t == (if p.info.Some? then InfoText(p.info.value) else NULL)
    else t == StrText(StringAt(p, k))
  }

  lemma SlotTexts(p: Payload, k: nat)
    requires k < 12 && k !in {6, 7, 8}
    ensures |Slots(p)| == 12 && TextOf(p, k, Slots(p)[k].value)
  {
    if k == 0 || k == 4 {
      HeadTexts(p);
    } else if k < 6 {
      LabelTexts(p);
    } else {
      LinkTexts(p);
    }
  }

  lemma FineText(parse: Reading, slots: seq<Slot>, p: Payload, k: nat)
    requires CountersParse(parse) && p.seqNo < Words.UINT64 && k < |slots| && SlotNames(slots)
    requires TextOf(p, k, slots[k].value)
    ensures FineIn(parse, slots[k], 2)
  {
    assert slots[k] in slots;
    if k == 4 {
      InfoSlotFine(parse, slots[k], p.info);
    } else if k != 0 {
      StrSlotFine(parse, slots[k], StringAt(p, k), 2);
    }
  }

  /** Slots other than the three embedded values are always strict, shallow and in range. */
  lemma FieldFine(parse: Reading, p: Payload, k: nat)
    requires CountersParse(parse) && p.seqNo < Words.UINT64 && k < 12 && k !in {6, 7, 8}
    ensures |Slots(p)| == 12 && FineIn(parse, Slots(p)[k], 2)
  {
    PayloadSlots(p);
    SlotTexts(p, k);
    FineText(parse, Slots(p), p, k);
  }

  predicate AllChecked(p: Payload) { Checked(p.args) && Checked(p.result) && Checked(p.error) }

  predicate PayloadFits(parse: Reading, p: Payload) {
    Fits(parse, p.args) && Fits(parse, p.result) && Fits(parse, p.error)
  }

  function RawAt(p: Payload, k: nat): Raw
    requires k in {6, 7, 8}
  {
    if k == 6 then p.args else if k == 7 then p.result else p.error
  }

  lemma RawSlotAt(p: Payload, k: nat)
    requires k in {6, 7, 8}
    ensures |Slots(p)| == 12 && |NAMES| == 14 && Strings.Plain(NAMES[k])
    ensures Slots(p)[k] == RawSlot(NAMES[k], RawAt(p, k))
  {
    AllPlain();
    match k
    case 6 =>
    case 7 =>
    case _ =>
  }

  lemma SlotFine(parse: Reading, p: Payload, k: nat)
    requires CountersParse(parse) && p.seqNo < Words.UINT64 && k < 12 && AllChecked(p)
    ensures |Slots(p)| == 12 && Fine(Slots(p)[k])
    ensures Fit(parse, Slots(p)[k], MAX_DEPTH - 1) <==> k in {6, 7, 8} ==> Fits(parse, RawAt(p, k))
  {
    if k in {6, 7, 8} {
      RawSlotAt(p, k);
      RawFine(parse, NAMES[k], RawAt(p, k));
    } else {
      FieldFine(parse, p, k);
    }
  }

  lemma RawsFit(parse: Reading, slots: seq<Slot>, p: Payload)
    requires |slots| == 12
    requires forall k | 0 <= k < 12 ::
      Fit(parse, slots[k], MAX_DEPTH - 1) <==> k in {6, 7, 8} ==> Fits(parse, RawAt(p, k))
    ensures AllFit(parse, slots, MAX_DEPTH - 1) <==> PayloadFits(parse, p)
  {
    assert RawAt(p, 6) == p.args && RawAt(p, 7) == p.result && RawAt(p, 8) == p.error;
    if AllFit(parse, slots, MAX_DEPTH - 1) {
      assert Fit(parse, slots[6], MAX_DEPTH - 1) && Fit(parse, slots[7], MAX_DEPTH - 1) && Fit(parse, slots[8], MAX_DEPTH - 1);
    }
  }

  lemma PayloadSlotsFit(parse: Reading, p: Payload)
    requires CountersParse(parse) && p.seqNo < Words.UINT64 && AllChecked(p)
    ensures AllFit(parse, Slots(p), MAX_DEPTH - 1) <==> PayloadFits(parse, p)
    ensures forall k | 0 <= k < |Slots(p)| :: Fine(Slots(p)[k])
  {
    PayloadSlots(p);
    forall k | 0 <= k < 12
      ensures Fine(Slots(p)[k])
      ensures Fit(parse, Slots(p)[k], MAX_DEPTH - 1) <==> k in {6, 7, 8} ==> Fits(parse, RawAt(p, k))
    {
      SlotFine(parse, p, k);
    }
    RawsFit(parse, Slots(p), p);
  }

  /** Sealed bytes exist exactly when every number fits binary64 and one level of depth is left. */
  lemma SealExists(parse: Reading, p: Payload)
    requires CountersParse(parse) && p.seqNo < Words.UINT64 && AllChecked(p)
    ensures Seal(parse, p).Some? <==> PayloadFits(parse, p)
  {
    PayloadSlots(p);
    PayloadSlotsFit(parse, p);
    PresentStrict(Slots(p));
    ObjectFits(parse, Slots(p), MAX_DEPTH - 1);
    CanonExists(parse, PayloadText(p));
  }

  /**
   Which calls can be recorded: those of a proper shape whose values stay within binary64
   and below the depth limit. A validated message can fail both, see UnrecordableCall and
   UnrecordableBatch.
   */
  lemma RecordExists(pf: Platform, sign: string -> string, mem: Memory, session: string, time: string, p: Payload)
    requires CountersParse(pf.parse) && AllChecked(p)
    ensures Record(KitOf(pf, sign), mem, session, time, p).Some? <==> ShapeOk(p) && PayloadFits(pf.parse, p)
  {
    var q := Stamp(KitOf(pf, sign), mem, session, time, p);
    SealExists(pf.parse, q);
    assert KitOf(pf, sign).env.bytes(q) == Seal(pf.parse, q);
  }

  /** A header can always be recorded. */
  lemma HeaderExists(pf: Platform, sign: string -> string, mem: Memory, session: string, time: string, info: Info)
    requires CountersParse(pf.parse)
    ensures Record(KitOf(pf, sign), mem, session, time, HeaderPayload(info)).Some?
  {
    RecordExists(pf, sign, mem, session, time, HeaderPayload(info));
  }

  const HUGE := Atom("1e400")

  /** A result the validator accepts and the client receives, but no record can hold. */
  lemma UnrecordableCall(pf: Platform, sign: string -> string, mem: Memory, session: string, time: string)
    requires CountersParse(pf.parse) && pf.parse("1e400").None?
    ensures var p := CallPayload("t", Empty, Value(HUGE), Empty, "allow");
            Valid(HUGE) && ShapeOk(p) && Record(KitOf(pf, sign), mem, session, time, p).None?
  {
    assert !InRange(pf.parse, HUGE);
    assert Valid(HUGE) && Valid(NULL);
    RecordExists(pf, sign, mem, session, time, CallPayload("t", Empty, Value(HUGE), Empty, "allow"));
  }

  /** n arrays around an empty one. */
  function Nested(n: nat): Text { if n == 0 then Arr([]) else Arr([Nested(n - 1)]) }

  lemma {:induction false} NestedValid(parse: Reading, n: nat)
    ensures Strict(Nested(n)) && Height(Nested(n)) == n + 1 && InRange(parse, Nested(n))
  {
    if n > 0 {
      NestedValid(parse, n - 1);
      var es := [Nested(n - 1)];
      assert es[1..] == [];
      assert HeightElems(es[1..]) == 0;
      assert HeightElems(es) == Height(Nested(n - 1));
    }
  }

  /**
   A batch at the very limit of depth is valid, yet its refusal leaves no record: the
   record would nest it one level deeper.
   */
  lemma UnrecordableBatch(pf: Platform, sign: string -> string, mem: Memory, session: string, time: string, error: Raw)
    requires CountersParse(pf.parse) && Checked(error)
    ensures var batch := Nested(MAX_DEPTH - 1);
            && batch.Arr? && Valid(batch)
            && Record(KitOf(pf, sign), mem, session, time, CallPayload("(batch)", Value(batch), Empty, error, "deny")).None?
  {
    NestedValid(pf.parse, MAX_DEPTH - 1);
    RecordExists(pf, sign, mem, session, time, CallPayload("(batch)", Value(Nested(MAX_DEPTH - 1)), Empty, error, "deny"));
  }
}
