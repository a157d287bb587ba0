/** From a message of the session to a record of the log: which attempts succeed. */
module Recorded {
  import opened Options
  import opened Json
  import opened Entry
  import opened Canonical
  import opened JsonCheck
  import opened Request
  import opened Gateway
  import opened Recordable
  import opened Logger
  import Codec
  import Pending
  import Session
  import Strings

  /** Base64 text is plain ASCII and names no escape. */
  ghost predicate PlainBase64(base64: Wire -> string) {
    forall w :: Strings.Unescape(base64(w)).Some?
  }

  // ---------- Parts of a validated message ----------

  lemma {:induction false} MemberHeight(ms: seq<Member>, k: nat)
    requires k < |ms|
    ensures Height(ms[k].value) <= HeightMembers(ms)
  {
    if k > 0 { MemberHeight(ms[1..], k - 1); }
  }

  /** A member of a validated object is validated and less deep. */
  lemma PartValid(ms: seq<Member>, name: string)
    requires Valid(Obj(ms)) && Field(ms, name).Some?
    ensures Valid(Field(ms, name).value) && Height(Field(ms, name).value) < MAX_DEPTH
  {
    var k := Pick(GO_MAP, ms, name).value;
    assert ms[k] in ms;
    MemberHeight(ms, k);
  }

  lemma PartChecked(ms: seq<Member>, name: string)
    requires Valid(Obj(ms))
    ensures Checked(RawOf(Field(ms, name)))
  {
    if Field(ms, name).Some? { PartValid(ms, name); }
  }

  lemma ObjectCallParams(parse: Reading, eng: Option<Policy>, ms: seq<Member>)
    requires JudgeObject(parse, eng, ms).Call?
    ensures CallParams(Field(ms, "params"), JudgeObject(parse, eng, ms).tool, JudgeObject(parse, eng, ms).args)
  {
    var j := JudgeObject(parse, eng, ms);
    CallVerdict(parse, eng, ms);
    JudgeObjectExactly(parse, eng, ms, j.id, j.tool, j.args);
  }

  lemma CallChecked(parse: Reading, eng: Option<Policy>, w: Wire)
    requires Judge(parse, eng, w).Call?
    ensures Checked(Judge(parse, eng, w).args) && Judge(parse, eng, w).tool != ""
  {
    var ms := w.text.members;
    ObjectCallParams(parse, eng, ms);
    PartValid(ms, "params");
    PartChecked(Field(ms, "params").value.members, "arguments");
  }

  lemma ReplyChecked(parse: Reading, w: Wire)
    requires ReplyOf(parse, w).Some?
    ensures Checked(ReplyOf(parse, w).value.result) && Checked(ReplyOf(parse, w).value.error)
  {
    PartChecked(w.text.members, "result");
    PartChecked(w.text.members, "error");
  }

  // ---------- Values the gateway writes itself ----------

  lemma {:induction false} FlatMembers(ms: seq<Member>)
    requires forall i | 0 <= i < |ms| :: Height(ms[i].value) == 0
    ensures HeightMembers(ms) == 0
  {
    if ms != [] { FlatMembers(ms[1..]); }
  }

  predicate FlatMember(parse: Reading, m: Member) {
    Strings.Unescape(m.name) == Some(m.name) && Height(m.value) == 0 && Strict(m.value) && InRange(parse, m.value)
  }

  lemma FlatObject(parse: Reading, ms: seq<Member>)
    requires forall i | 0 <= i < |ms| :: FlatMember(parse, ms[i])
    requires forall i, j | 0 <= i < j < |ms| :: ms[i].name != ms[j].name
    ensures Checked(Value(Obj(ms))) && Fits(parse, Value(Obj(ms)))
  {
    FlatMembers(ms);
  }

  lemma PlainName()
    ensures Strings.Unescape("raw_base64") == Some("raw_base64")
  {
    assert Strings.Plain("raw_base64");
    Strings.PlainQuote("raw_base64");
  }

  lemma EncodedMember(parse: Reading, body: string)
    requires Strings.Unescape(body).Some?
    ensures FlatMember(parse, Member("raw_base64", Str(body)))
  {
    PlainName();
  }

  lemma OneMember(parse: Reading, m: Member)
    requires FlatMember(parse, m)
    ensures Checked(Value(Obj([m]))) && Fits(parse, Value(Obj([m])))
  {
    FlatObject(parse, [m]);
  }

  lemma RawRequestFits(parse: Reading, base64: Wire -> string, w: Wire)
    requires PlainBase64(base64)
    ensures Checked(RawRequest(base64, w)) && Fits(parse, RawRequest(base64, w))
  {
    EncodedMember(parse, base64(w));
    OneMember(parse, Member("raw_base64", Str(base64(w))));
  }

  lemma ErrorMembers(parse: Reading, message: string)
    requires parse("-32000").Some?
    ensures FlatMember(parse, Member("code", Atom("-32000"))) && FlatMember(parse, Member("message", StrText(message)))
  {
    assert Strings.Plain("code") && Strings.Plain("message");
    Strings.PlainQuote("code");
    Strings.PlainQuote("message");
    StrFine(parse, message);
  }

  lemma TwoMembers(parse: Reading, m: Member, n: Member)
    requires FlatMember(parse, m) && FlatMember(parse, n) && m.name != n.name
    ensures Checked(Value(Obj([m, n]))) && Fits(parse, Value(Obj([m, n])))
  {
    FlatObject(parse, [m, n]);
  }

  lemma ErrorObjectFits(parse: Reading, message: string)
    requires parse("-32000").Some?
    ensures Checked(ErrorObject(message)) && Fits(parse, ErrorObject(message))
  {
    ErrorMembers(parse, message);
    assert |"code"| != |"message"|;
    TwoMembers(parse, Member("code", Atom("-32000")), Member("message", StrText(message)));
  }

  // ---------- Attempts ----------

  predicate CheckedTable(t: Pending.Table) {
    forall k | k in t.calls :: Checked(t.calls[k].args)
  }

  lemma BatchChecked(parse: Reading, base64: Wire -> string, w: Wire)
    requires PlainBase64(base64)
    ensures Checked(BatchArgs(base64, w))
  {
    RawRequestFits(parse, base64, w);
  }

  predicate EffectChecked(e: Effect) {
    CheckedTable(e.table) && forall a | a in e.attempts :: AllChecked(PayloadOf(a))
  }

  lemma NullChecked()
    ensures Checked(Value(NULL)) && Checked(Empty)
  {
  }

  lemma RefusalChecked(g: Gate, t: Pending.Table, id: Text, tool: string, args: Raw, decision: string, why: Reason)
    requires CheckedTable(t) && Checked(args) && Checked(ErrorObject(g.say(why)))
    ensures EffectChecked(Refusal(g, t, id, tool, args, decision, why))
  {
    NullChecked();
  }

  lemma ClearedChecked(g: Gate, auditing: bool, t: Pending.Table, id: Text, c: Pending.Call, shown: string, args: Raw)
    requires CheckedTable(t) && Checked(c.args) && Checked(args)
    requires forall message: string :: Checked(ErrorObject(message))
    ensures EffectChecked(Cleared(g, auditing, t, id, c, shown, args))
  {
    var why := Pending.Refuses(t, g.key(id), c.size);
    if why.Some? { RefusalChecked(g, t, id, shown, args, "deny", Whereof(why.value, shown)); }
  }

  lemma CallHandledChecked(g: Gate, auditing: bool, t: Pending.Table, w: Wire, width: nat, answer: Option<Outcome>)
    requires CheckedTable(t) && g.judge(w).Call? && Checked(g.judge(w).args)
    requires forall message: string :: Checked(ErrorObject(message))
    ensures EffectChecked(Handled(g, auditing, t, w, width, answer))
  {
    var j := g.judge(w);
    if j.verdict.Deny? {
      RefusalChecked(g, t, j.id, j.tool, j.args, "deny", OnDenyList(j.tool));
    } else if j.verdict.Allow? {
      ClearedChecked(g, auditing, t, j.id, Pending.CallOf(g.key(j.id), j.tool, j.args, width, "allow"), j.tool, j.args);
    } else {
      RefusalChecked(g, t, j.id, j.tool, j.args, "deny", NoApprover(j.tool));
      RefusalChecked(g, t, j.id, j.tool, j.args, "rejected", HumanRejected(j.tool));
      RefusalChecked(g, t, j.id, j.tool, j.args, "timeout", HumanTimeout(j.tool));
      ClearedChecked(g, auditing, t, j.id, Pending.CallOf(g.key(j.id), j.tool, j.args, width, "approved"), j.tool, j.args);
    }
  }

  lemma HandledChecked(g: Gate, auditing: bool, t: Pending.Table, w: Wire, width: nat, answer: Option<Outcome>)
    requires CheckedTable(t) && Checked(g.raw(w)) && Checked(g.batch(w))
    requires g.judge(w).Call? ==> Checked(g.judge(w).args)
    requires forall message: string :: Checked(ErrorObject(message))
    ensures EffectChecked(Handled(g, auditing, t, w, width, answer))
  {
    NullChecked();
    match g.judge(w)
    case Pass =>
    case Invalid(id) => RefusalChecked(g, t, id, "(invalid request)", g.raw(w), "deny", Unreadable);
    case Batch(ids) => assert Checked(ErrorObject(g.say(IsBatch)));
    case Other(id) =>
      ClearedChecked(g, auditing, t, id, Pending.CallOf(g.key(id), "", Empty, 0, ""), "(request)", g.raw(w));
    case Call(_, _, _, _) => CallHandledChecked(g, auditing, t, w, width, answer);
  }

  /** The values of every record asked for on the request side have been validated. */
  lemma RequestRecordsChecked(parse: Reading, eng: Option<Policy>, base64: Wire -> string, say: Reason -> string,
                              auditing: bool, t: Pending.Table, w: Wire, width: nat, answer: Option<Outcome>)
    requires CheckedTable(t) && PlainBase64(base64) && parse("-32000").Some?
    ensures EffectChecked(Handled(GateOf(parse, eng, base64, say), auditing, t, w, width, answer))
  {
    if Judge(parse, eng, w).Call? { CallChecked(parse, eng, w); }
    RawRequestFits(parse, base64, w);
    BatchChecked(parse, base64, w);
    forall message: string ensures Checked(ErrorObject(message)) { ErrorObjectFits(parse, message); }
    HandledChecked(GateOf(parse, eng, base64, say), auditing, t, w, width, answer);
  }

  lemma CompletionChecked(g: Gate, t: Pending.Table, w: Wire)
    requires CheckedTable(t) && Checked(Value(NULL))
    requires g.reply(w).Some? ==> Checked(g.reply(w).value.result) && Checked(g.reply(w).value.error)
    ensures forall a | a in Completion(g, t, w) :: AllChecked(PayloadOf(a))
  {
    var c := Completion(g, t, w);
    if c != [] {
      assert Checked(t.calls[g.reply(w).value.key].args);
    }
  }

  lemma ResponseRecordsChecked(parse: Reading, eng: Option<Policy>, base64: Wire -> string, say: Reason -> string,
                               t: Pending.Table, w: Wire)
    requires CheckedTable(t)
    ensures forall a | a in Completion(GateOf(parse, eng, base64, say), t, w) :: AllChecked(PayloadOf(a))
  {
    if ReplyOf(parse, w).Some? { ReplyChecked(parse, w); }
    NullChecked();
    CompletionChecked(GateOf(parse, eng, base64, say), t, w);
  }

  /**
   A refusal that quotes the message as base64 (malformed, ambiguous or unreservable
   messages) can always be recorded, whatever the message was.
   */
  lemma RefusalRecorded(pf: Codec.Platform, sign: string -> string, mem: Memory, session: string, time: string,
                        base64: Wire -> string, w: Wire, message: string, tool: string)
    requires CountersParse(pf.parse) && PlainBase64(base64) && pf.parse("-32000").Some? && tool != ""
    ensures Record(KitOf(pf, sign), mem, session, time,
                   CallPayload(tool, RawRequest(base64, w), Empty, ErrorObject(message), "deny")).Some?
  {
    RawRequestFits(pf.parse, base64, w);
    ErrorObjectFits(pf.parse, message);
    RecordExists(pf, sign, mem, session, time,
                 CallPayload(tool, RawRequest(base64, w), Empty, ErrorObject(message), "deny"));
  }

  /** The real gate meets what the session's accounting assumes of a gate. */
  lemma GateNamed(parse: Reading, eng: Option<Policy>, base64: Wire -> string, say: Reason -> string)
    ensures Session.Named(GateOf(parse, eng, base64, say))
  {
    forall w | Judge(parse, eng, w).Call? ensures Judge(parse, eng, w).tool != "" {
      CallNamed(parse, eng, w);
    }
  }
}
