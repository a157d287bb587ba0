/** The decision tree over one client message, and who could read it differently. */
module Request {
  import opened Options
  import opened Json
  import opened Entry
  import opened Canonical
  import opened JsonCheck
  import opened Ids
  import Decimal
  import Strings

  /**
   A line: not JSON, JSON in broken UTF-8, or a JSON text. Of a broken array the elements
   matter, each a text of its own, or None where the broken bytes are.
   */
  datatype Wire = NotJson | Garbled(batch: Option<seq<Option<Text>>>) | Doc(text: Text)

  // ---------- Policy ----------

  datatype Policy = Policy(deny: set<string>, approve: set<string>)

  datatype Verdict = Allow | Deny | RequireApproval

  function Decide(eng: Option<Policy>, tool: string): Verdict {
    if eng.None? then Allow
    else if tool in eng.value.deny then Deny
    else if tool in eng.value.approve then RequireApproval
    else Allow
  }

  // ---------- Fields of a message ----------

  const ENVELOPE := ["jsonrpc", "id", "method", "params"]
  const CALL_FIELDS := ["name", "arguments"]
  const RESPONSE_FIELDS := ["jsonrpc", "id", "method", "result", "error"]
  const ERROR_FIELDS := ["code", "message"]

  /** A parser's way of finding a member: exact or case-insensitive, first or last match. */
  datatype Reader = Reader(exact: bool, first: bool)

  const GO_MAP := Reader(true, false)

  predicate Hits(r: Reader, m: Member, name: string) {
    && Strings.Unescape(m.name).Some?
    && if r.exact then Strings.Unescape(m.name).value == name else Fold(Strings.Unescape(m.name).value) == Fold(name)
  }

  /** The position of the member a reader takes for this name. */
  function Pick(r: Reader, ms: seq<Member>, name: string): (k: Option<nat>)
    ensures k.Some? ==> k.value < |ms| && Hits(r, ms[k.value], name)
    ensures k.None? ==> forall i | 0 <= i < |ms| :: !Hits(r, ms[i], name)
  {
    if ms == [] then None
    else
      var n := |ms| - 1;
      var before := Pick(r, ms[..n], name);
      if Hits(r, ms[n], name) && (!r.first || before.None?) then Some(n) else before
  }

  function Read(r: Reader, ms: seq<Member>, name: string): Option<Text> {
    var k := Pick(r, ms, name);
    if k.None? then None else Some(ms[k.value].value)
  }

  /** A Go map lookup. */
  function Field(ms: seq<Member>, name: string): Option<Text> { Read(GO_MAP, ms, name) }

  /** A member whose name differs from a field's only in case. */
  predicate Alias(m: Member, name: string) {
    Strings.Unescape(m.name).Some? && Strings.Unescape(m.name).value != name &&
    Fold(Strings.Unescape(m.name).value) == Fold(name)
  }

  predicate HasAlias(ms: seq<Member>, names: seq<string>) {
    exists i, j | 0 <= i < |ms| && 0 <= j < |names| :: Alias(ms[i], names[j])
  }

  function StringOf(t: Option<Text>): string {
    if t.Some? && t.value.Str? && Strings.Unescape(t.value.body).Some? then Strings.Unescape(t.value.body).value else ""
  }

  predicate Version2(ms: seq<Member>) { StringOf(Field(ms, "jsonrpc")) == "2.0" }

  // ---------- Responses ----------

  predicate Integral(d: Decimal.Float) {
    d == Decimal.Zero || |d.digits| <= d.point
  }

  predicate ErrorBody(parse: Reading, e: Text) {
    && e.Obj? && !HasAlias(e.members, ERROR_FIELDS)
    && var code, message := Field(e.members, "code"), Field(e.members, "message");
       && code.Some? && code.value.Atom? && code.value.lit !in KEYWORDS
       && parse(code.value.lit).Some? && Integral(parse(code.value.lit).value)
       && message.Some? && message.value.Str?
  }

  predicate IsResponse(parse: Reading, ms: seq<Member>) {
    var result, error := Field(ms, "result"), Field(ms, "error");
    && Version2(ms) && Field(ms, "method").None?
    && result.Some? != error.Some?
    && !HasAlias(ms, RESPONSE_FIELDS)
    && (ValidId(parse, Field(ms, "id")) || (error.Some? && Field(ms, "id") == Some(NULL)))
    && (error.Some? ==> ErrorBody(parse, error.value))
  }

  datatype Reply = Reply(key: string, result: Raw, error: Raw)

  function RawOf(t: Option<Text>): Raw { if t.Some? then Value(t.value) else Empty }

  /** A server message that can complete a request: its key and what it answers. */
  function ReplyOf(parse: Reading, w: Wire): Option<Reply> {
    if !w.Doc? || !Valid(w.text) || !w.text.Obj? then None
    else
      var ms := w.text.members;
      var id := Field(ms, "id");
      if !IsResponse(parse, ms) || !ValidId(parse, id) then None
      else Some(Reply(IdKey(parse, id.value), RawOf(Field(ms, "result")), RawOf(Field(ms, "error"))))
  }

  // ---------- The decision ----------

  datatype Judgement =
    | Invalid(id: Text)
    | Batch(ids: seq<Text>)
    | Pass                     // a client response or a notification
    | Other(id: Text)          // a request outside the audit's scope
    | Call(id: Text, tool: string, args: Raw, verdict: Verdict)

  /** json.Valid: the lexer nests no deeper than the validator. */
  predicate JsonValid(w: Wire) {
    w.Garbled? || (w.Doc? && Height(w.text) <= MAX_DEPTH)
  }

  function BatchId(parse: Reading, e: Option<Text>): Option<Text> {
    if e.Some? && Valid(e.value) && e.value.Obj? && ValidId(parse, Field(e.value.members, "id"))
       && !HasAlias(e.value.members, ["id"])
    then Field(e.value.members, "id") else None
  }

  function Wellformed(elems: seq<Text>): seq<Option<Text>> {
    seq(|elems|, i requires 0 <= i < |elems| => Some(elems[i]))
  }

  function ElementIds(parse: Reading, elems: seq<Option<Text>>): seq<Option<Text>> {
    seq(|elems|, i requires 0 <= i < |elems| => BatchId(parse, elems[i]))
  }

  function Found(ids: seq<Option<Text>>): seq<Text> {
    if ids == [] then []
    else
      var n := |ids| - 1;
      Found(ids[..n]) + (if ids[n].Some? then [ids[n].value] else [])
  }

  /** The ids that a refusal of the batch can answer. */
  function BatchIds(parse: Reading, elems: seq<Option<Text>>): seq<Text> { Found(ElementIds(parse, elems)) }

  function AnswerId(parse: Reading, ms: seq<Member>): Text {
    if ValidId(parse, Field(ms, "id")) then Field(ms, "id").value else NULL
  }

  function JudgeCall(eng: Option<Policy>, id: Text, params: Option<Text>): Judgement {
    if params.None? || !params.value.Obj? || HasAlias(params.value.members, CALL_FIELDS) then Invalid(id)
    else
      var ps := params.value.members;
      var tool, args := StringOf(Field(ps, "name")), Field(ps, "arguments");
      if tool == "" then Invalid(id)
      else if args.Some? && !args.value.Obj? then Invalid(id)
      else Call(id, tool, RawOf(args), Decide(eng, tool))
  }

  function JudgeObject(parse: Reading, eng: Option<Policy>, ms: seq<Member>): Judgement {
    var id, name := Field(ms, "id"), Field(ms, "method");
    if !Version2(ms) then Invalid(AnswerId(parse, ms))
    else if name.None? then (if IsResponse(parse, ms) then Pass else Invalid(AnswerId(parse, ms)))
    else if StringOf(name) == "" then Invalid(AnswerId(parse, ms))
    else if Field(ms, "result").Some? || Field(ms, "error").Some? then Invalid(AnswerId(parse, ms))
    else if StringOf(name) != "tools/call" then
      var params := Field(ms, "params");
      if params.Some? && !params.value.Obj? && !params.value.Arr? then Invalid(AnswerId(parse, ms))
      else if id.None? then Pass
      else if !ValidId(parse, id) then Invalid(NULL)
      else Other(id.value)
    else if !ValidId(parse, id) then Invalid(NULL)
    else JudgeCall(eng, id.value, Field(ms, "params"))
  }

  function Judge(parse: Reading, eng: Option<Policy>, w: Wire): Judgement {
    if !JsonValid(w) then Invalid(NULL)
    else if w.Garbled? then (if w.batch.Some? then Batch(BatchIds(parse, w.batch.value)) else Invalid(NULL))
    else if w.text.Arr? then Batch(BatchIds(parse, Wellformed(w.text.elems)))
    else if !w.text.Obj? then Invalid(NULL)
    else if !Valid(w.text) || HasAlias(w.text.members, ENVELOPE) then Invalid(NULL)
    else JudgeObject(parse, eng, w.text.members)
  }

  // ---------- Readers ----------

  /** Every reader takes the same member for this name. */
  ghost predicate Agreed(ms: seq<Member>, name: string) {
    forall r: Reader, s: Reader :: Pick(r, ms, name) == Pick(s, ms, name)
  }

  lemma {:induction false} PickOnly(r: Reader, ms: seq<Member>, name: string, k: nat)
    requires k < |ms| && Hits(r, ms[k], name)
    requires forall i | 0 <= i < |ms| && i != k :: !Hits(r, ms[i], name)
    ensures Pick(r, ms, name) == Some(k)
  {
    var p := Pick(r, ms, name);
    assert p.Some?;
  }

  lemma PickSame(ms: seq<Member>, name: string, r: Reader, s: Reader)
    requires Distinct(ms) && forall i | 0 <= i < |ms| :: !Alias(ms[i], name)
    ensures Pick(r, ms, name) == Pick(s, ms, name)
  {
    forall i | 0 <= i < |ms| ensures Hits(r, ms[i], name) <==> Hits(s, ms[i], name) {
      assert !Alias(ms[i], name);
    }
    var k := Pick(r, ms, name);
    if k.Some? {
      forall i | 0 <= i < |ms| && i != k.value ensures !Hits(r, ms[i], name) {
        assert !Alias(ms[i], name) && !Alias(ms[k.value], name);
        assert !SameName(ms[if i < k.value then i else k.value], ms[if i < k.value then k.value else i]);
      }
      PickOnly(s, ms, name, k.value);
    }
  }

  lemma {:induction false} FirstBounds(ms: seq<Member>, name: string, i: nat)
    requires i < |ms| && Hits(Reader(false, true), ms[i], name)
    ensures Pick(Reader(false, true), ms, name).Some? && Pick(Reader(false, true), ms, name).value <= i
    decreases |ms|
  {
    var n := |ms| - 1;
    if i < n {
      assert ms[..n][i] == ms[i];
      FirstBounds(ms[..n], name, i);
    }
  }

  lemma {:induction false} LastBounds(ms: seq<Member>, name: string, i: nat)
    requires i < |ms| && Hits(Reader(false, false), ms[i], name)
    ensures Pick(Reader(false, false), ms, name).Some? && Pick(Reader(false, false), ms, name).value >= i
    decreases |ms|
  {
    var n := |ms| - 1;
    if i < n && !Hits(Reader(false, false), ms[n], name) {
      assert ms[..n][i] == ms[i];
      LastBounds(ms[..n], name, i);
    }
  }

  lemma AliasSplitsBoth(ms: seq<Member>, name: string, i: nat, k: nat)
    requires i < |ms| && Alias(ms[i], name) && Pick(Reader(true, true), ms, name) == Some(k)
    ensures Pick(Reader(false, true), ms, name) != Some(k) || Pick(Reader(false, false), ms, name) != Some(k)
  {
    assert Hits(Reader(true, true), ms[k], name) && i != k;
    FirstBounds(ms, name, i);
    LastBounds(ms, name, i);
  }

  lemma AliasSplits(ms: seq<Member>, name: string, i: nat)
    requires i < |ms| && Alias(ms[i], name)
    ensures !Agreed(ms, name)
  {
    var exact, first, last := Reader(true, true), Reader(false, true), Reader(false, false);
    var k := Pick(exact, ms, name);
    if Pick(first, ms, name) == k && Pick(last, ms, name) == k && k.Some? {
      AliasSplitsBoth(ms, name, i, k.value);
    }
  }

  /** The alias check is exact: readers agree on a name if and only if it has no alias. */
  lemma AgreedExactly(ms: seq<Member>, name: string)
    requires Distinct(ms)
    ensures Agreed(ms, name) <==> forall i | 0 <= i < |ms| :: !Alias(ms[i], name)
  {
    if forall i | 0 <= i < |ms| :: !Alias(ms[i], name) {
      forall r: Reader, s: Reader ensures Pick(r, ms, name) == Pick(s, ms, name) {
        PickSame(ms, name, r, s);
      }
    } else {
      var i :| 0 <= i < |ms| && Alias(ms[i], name);
      AliasSplits(ms, name, i);
    }
  }

  ghost predicate AllAgreed(ms: seq<Member>, names: seq<string>) {
    forall j | 0 <= j < |names| :: Agreed(ms, names[j])
  }

  lemma AllAgreedExactly(ms: seq<Member>, names: seq<string>)
    requires Distinct(ms)
    ensures AllAgreed(ms, names) <==> !HasAlias(ms, names)
  {
    forall j | 0 <= j < |names|
      ensures Agreed(ms, names[j]) <==> forall i | 0 <= i < |ms| :: !Alias(ms[i], names[j])
    {
      AgreedExactly(ms, names[j]);
    }
    if HasAlias(ms, names) {
      var i, j :| 0 <= i < |ms| && 0 <= j < |names| && Alias(ms[i], names[j]);
      assert !Agreed(ms, names[j]);
    }
  }

  /** A reader finds a well-formed call of this tool with these arguments. */
  predicate ReadsCall(parse: Reading, r: Reader, ms: seq<Member>, id: Text, tool: string, args: Raw) {
    && StringOf(Read(r, ms, "jsonrpc")) == "2.0"
    && StringOf(Read(r, ms, "method")) == "tools/call"
    && Read(r, ms, "id") == Some(id) && ValidId(parse, Some(id))
    && var params := Read(r, ms, "params");
       && params.Some? && params.value.Obj?
       && tool != "" && StringOf(Read(r, params.value.members, "name")) == tool
       && args == RawOf(Read(r, params.value.members, "arguments")) && (args.Value? ==> args.text.Obj?)
  }

  /** The members on which a call depends read the same for everyone. */
  ghost predicate Unambiguous(ms: seq<Member>) {
    && AllAgreed(ms, ENVELOPE)
    && (Field(ms, "params").Some? && Field(ms, "params").value.Obj? ==>
          AllAgreed(Field(ms, "params").value.members, CALL_FIELDS))
  }

  lemma ReadersShare(ms: seq<Member>, names: seq<string>, r: Reader, j: nat)
    requires AllAgreed(ms, names) && j < |names|
    ensures Read(r, ms, names[j]) == Field(ms, names[j])
  {
    assert Agreed(ms, names[j]);
  }

  lemma EnvelopeShared(ms: seq<Member>, r: Reader)
    requires AllAgreed(ms, ENVELOPE)
    ensures Read(r, ms, "jsonrpc") == Field(ms, "jsonrpc") && Read(r, ms, "id") == Field(ms, "id")
    ensures Read(r, ms, "method") == Field(ms, "method") && Read(r, ms, "params") == Field(ms, "params")
  {
    ReadersShare(ms, ENVELOPE, r, 0);
    ReadersShare(ms, ENVELOPE, r, 1);
    ReadersShare(ms, ENVELOPE, r, 2);
    ReadersShare(ms, ENVELOPE, r, 3);
  }

  lemma CallShared(ps: seq<Member>, r: Reader)
    requires AllAgreed(ps, CALL_FIELDS)
    ensures Read(r, ps, "name") == Field(ps, "name") && Read(r, ps, "arguments") == Field(ps, "arguments")
  {
    ReadersShare(ps, CALL_FIELDS, r, 0);
    ReadersShare(ps, CALL_FIELDS, r, 1);
  }

  lemma UnambiguousCall(parse: Reading, ms: seq<Member>, r: Reader, id: Text, tool: string, args: Raw)
    requires Unambiguous(ms)
    ensures ReadsCall(parse, r, ms, id, tool, args) <==> ReadsCall(parse, GO_MAP, ms, id, tool, args)
  {
    EnvelopeShared(ms, r);
    if Field(ms, "params").Some? && Field(ms, "params").value.Obj? {
      CallShared(Field(ms, "params").value.members, r);
    }
  }

  lemma ParamsDistinct(ms: seq<Member>)
    requires Strict(Obj(ms)) && Field(ms, "params").Some? && Field(ms, "params").value.Obj?
    ensures Distinct(Field(ms, "params").value.members)
  {
    var k := Pick(GO_MAP, ms, "params").value;
    assert ms[k] in ms && Strict(ms[k].value);
  }

  lemma UnambiguousExactly(ms: seq<Member>)
    requires Strict(Obj(ms))
    ensures Unambiguous(ms) <==>
            && !HasAlias(ms, ENVELOPE)
            && (Field(ms, "params").Some? && Field(ms, "params").value.Obj? ==>
                  !HasAlias(Field(ms, "params").value.members, CALL_FIELDS))
  {
    AllAgreedExactly(ms, ENVELOPE);
    if Field(ms, "params").Some? && Field(ms, "params").value.Obj? {
      ParamsDistinct(ms);
      AllAgreedExactly(Field(ms, "params").value.members, CALL_FIELDS);
    }
  }

  /** The parameters of a proper call. */
  predicate CallParams(params: Option<Text>, tool: string, args: Raw) {
    && params.Some? && params.value.Obj? && !HasAlias(params.value.members, CALL_FIELDS)
    && tool != "" && StringOf(Field(params.value.members, "name")) == tool
    && args == RawOf(Field(params.value.members, "arguments")) && (args.Value? ==> args.text.Obj?)
  }

  lemma JudgeCallExactly(eng: Option<Policy>, got: Text, params: Option<Text>, id: Text, tool: string, args: Raw)
    ensures JudgeCall(eng, got, params) == Call(id, tool, args, Decide(eng, tool)) <==>
            got == id && CallParams(params, tool, args)
  {
  }

  lemma JudgeObjectExactly(parse: Reading, eng: Option<Policy>, ms: seq<Member>, id: Text, tool: string, args: Raw)
    ensures JudgeObject(parse, eng, ms) == Call(id, tool, args, Decide(eng, tool)) <==>
            && Version2(ms) && StringOf(Field(ms, "method")) == "tools/call"
            && Field(ms, "result").None? && Field(ms, "error").None?
            && Field(ms, "id") == Some(id) && ValidId(parse, Some(id)) && CallParams(Field(ms, "params"), tool, args)
  {
    if Field(ms, "id").Some? {
      JudgeCallExactly(eng, Field(ms, "id").value, Field(ms, "params"), id, tool, args);
    }
  }

  lemma CallByMap(parse: Reading, eng: Option<Policy>, ms: seq<Member>, id: Text, tool: string, args: Raw)
    requires Valid(Obj(ms))
    ensures Judge(parse, eng, Doc(Obj(ms))) == Call(id, tool, args, Decide(eng, tool)) <==>
            && !HasAlias(ms, ENVELOPE)
            && (Field(ms, "params").Some? && Field(ms, "params").value.Obj? ==>
                  !HasAlias(Field(ms, "params").value.members, CALL_FIELDS))
            && Field(ms, "result").None? && Field(ms, "error").None?
            && ReadsCall(parse, GO_MAP, ms, id, tool, args)
  {
    JudgeObjectExactly(parse, eng, ms, id, tool, args);
  }

  /**
   A line is judged a tool call exactly when it is validated, carries no result or error,
   and every reader takes the same members and finds the same well-formed call; the
   verdict is the policy's on that tool.
   */
  lemma CallExactly(parse: Reading, eng: Option<Policy>, ms: seq<Member>, id: Text, tool: string, args: Raw)
    ensures Judge(parse, eng, Doc(Obj(ms))) == Call(id, tool, args, Decide(eng, tool)) <==>
            && Valid(Obj(ms)) && Unambiguous(ms)
            && Field(ms, "result").None? && Field(ms, "error").None?
            && forall r: Reader :: ReadsCall(parse, r, ms, id, tool, args)
  {
    if Valid(Obj(ms)) {
      UnambiguousExactly(ms);
      if Unambiguous(ms) {
        forall r: Reader
          ensures ReadsCall(parse, r, ms, id, tool, args) <==> ReadsCall(parse, GO_MAP, ms, id, tool, args)
        {
          UnambiguousCall(parse, ms, r, id, tool, args);
        }
      }
      CallByMap(parse, eng, ms, id, tool, args);
    }
  }

  predicate Clears(j: Judgement) { j.Pass? || j.Other? || j.Call? }

  lemma CallVerdict(parse: Reading, eng: Option<Policy>, ms: seq<Member>)
    requires JudgeObject(parse, eng, ms).Call?
    ensures JudgeObject(parse, eng, ms).verdict == Decide(eng, JudgeObject(parse, eng, ms).tool)
  {
  }

  lemma CallByMethod(parse: Reading, eng: Option<Policy>, ms: seq<Member>)
    requires Clears(JudgeObject(parse, eng, ms))
    ensures StringOf(Field(ms, "method")) == "tools/call" <==> JudgeObject(parse, eng, ms).Call?
  {
  }

  /**
   Whatever may be forwarded is a validated object whose method every reader reads alike;
   what is not judged a call is a call to no reader.
   */
  lemma NoHiddenCall(parse: Reading, eng: Option<Policy>, w: Wire, r: Reader)
    requires Clears(Judge(parse, eng, w))
    ensures w.Doc? && w.text.Obj? && Valid(w.text) && AllAgreed(w.text.members, ENVELOPE)
    ensures StringOf(Read(r, w.text.members, "method")) == "tools/call" <==> Judge(parse, eng, w).Call?
  {
    AllAgreedExactly(w.text.members, ENVELOPE);
    EnvelopeShared(w.text.members, r);
    CallByMethod(parse, eng, w.text.members);
  }

  // ---------- Ids ----------

  predicate Usable(parse: Reading, id: Text) { ValidId(parse, Some(id)) }

  lemma {:induction false} FoundUsable(parse: Reading, ids: seq<Option<Text>>)
    requires forall i | 0 <= i < |ids| && ids[i].Some? :: Usable(parse, ids[i].value)
    ensures forall x | x in Found(ids) :: Usable(parse, x)
  {
    if ids != [] {
      FoundUsable(parse, ids[..|ids| - 1]);
    }
  }

  predicate IdsUsable(parse: Reading, j: Judgement) {
    match j
    case Invalid(id) => id == NULL || Usable(parse, id)
    case Batch(ids) => forall id | id in ids :: Usable(parse, id)
    case Pass => true
    case Other(id) => Usable(parse, id)
    case Call(id, _, _, _) => Usable(parse, id)
  }

  lemma AnswerIdUsable(parse: Reading, ms: seq<Member>)
    ensures AnswerId(parse, ms) == NULL || Usable(parse, AnswerId(parse, ms))
  {
  }

  lemma CallIdUsable(parse: Reading, eng: Option<Policy>, id: Text, params: Option<Text>)
    requires Usable(parse, id)
    ensures IdsUsable(parse, JudgeCall(eng, id, params))
  {
  }

  lemma ObjectIdsUsable(parse: Reading, eng: Option<Policy>, ms: seq<Member>)
    ensures IdsUsable(parse, JudgeObject(parse, eng, ms))
  {
    AnswerIdUsable(parse, ms);
    var id := Field(ms, "id");
    if ValidId(parse, id) { CallIdUsable(parse, eng, id.value, Field(ms, "params")); }
  }

  lemma BatchIdsUsable(parse: Reading, elems: seq<Option<Text>>)
    ensures IdsUsable(parse, Batch(BatchIds(parse, elems)))
  {
    FoundUsable(parse, ElementIds(parse, elems));
  }

  /** Only usable ids are answered or reserved; a refusal without one answers null. */
  lemma JudgedIdsUsable(parse: Reading, eng: Option<Policy>, w: Wire)
    ensures IdsUsable(parse, Judge(parse, eng, w))
  {
    if w.Doc? && w.text.Arr? { BatchIdsUsable(parse, Wellformed(w.text.elems)); }
    if w.Garbled? && w.batch.Some? { BatchIdsUsable(parse, w.batch.value); }
    if w.Doc? && w.text.Obj? { ObjectIdsUsable(parse, eng, w.text.members); }
  }

  /** The id under which a request is reserved, if it is. */
  function RequestId(j: Judgement): Option<Text> {
    match j
    case Other(id) => Some(id)
    case Call(id, _, _, _) => Some(id)
    case _ => None
  }

  /**
   A reply meets a reservation exactly when its id is the request's id, decoded; and every
   reader takes the same members of the reply.
   */
  lemma ReplyMeetsRequest(parse: Reading, eng: Option<Policy>, request: Wire, reply: Wire)
    requires RequestId(Judge(parse, eng, request)).Some? && ReplyOf(parse, reply).Some?
    ensures reply.Doc? && reply.text.Obj? && AllAgreed(reply.text.members, RESPONSE_FIELDS)
    ensures Field(reply.text.members, "id").Some?
    ensures var id := RequestId(Judge(parse, eng, request)).value;
            ReplyOf(parse, reply).value.key == IdKey(parse, id) <==>
            SameId(parse, Field(reply.text.members, "id").value, id)
  {
    JudgedIdsUsable(parse, eng, request);
    AllAgreedExactly(reply.text.members, RESPONSE_FIELDS);
    IdKeyExact(parse, Field(reply.text.members, "id").value, RequestId(Judge(parse, eng, request)).value);
  }

  // ---------- The loops ----------

  method HasFieldAlias(fields: seq<Member>, names: seq<string>) returns (found: bool)
    ensures found <==> HasAlias(fields, names)
  {
    for i := 0 to |fields|
      invariant forall k, j | 0 <= k < i && 0 <= j < |names| :: !Alias(fields[k], names[j])
    {
      for j := 0 to |names|
        invariant forall l | 0 <= l < j :: !Alias(fields[i], names[l])
      {
        if Alias(fields[i], names[j]) {
          return true;
        }
      }
    }
    found := false;
  }

  method CollectBatchIds(parse: Reading, elems: seq<Option<Text>>) returns (ids: seq<Text>)
    ensures ids == BatchIds(parse, elems)
  {
    ids := [];
    for i := 0 to |elems|
      invariant ids == Found(ElementIds(parse, elems)[..i])
    {
      assert ElementIds(parse, elems)[..i + 1][..i] == ElementIds(parse, elems)[..i];
      var id := BatchId(parse, elems[i]);
      if id.Some? {
        ids := ids + [id.value];
      }
    }
    assert ElementIds(parse, elems)[..|elems|] == ElementIds(parse, elems);
  }

  lemma {:induction false} FoundExact(ids: seq<Option<Text>>, id: Text)
    ensures id in Found(ids) <==> Some(id) in ids
  {
    if ids != [] {
      var n := |ids| - 1;
      FoundExact(ids[..n], id);
      assert ids == ids[..n] + [ids[n]];
    }
  }

  /** A batch refusal answers exactly the elements that carry one usable, unambiguous id. */
  lemma BatchIdsExact(parse: Reading, elems: seq<Option<Text>>, id: Text)
    ensures id in BatchIds(parse, elems) <==> exists i | 0 <= i < |elems| :: BatchId(parse, elems[i]) == Some(id)
  {
    var ids := ElementIds(parse, elems);
    FoundExact(ids, id);
    assert forall i | 0 <= i < |elems| :: ids[i] == BatchId(parse, elems[i]);
    if Some(id) in ids {
      var i :| 0 <= i < |ids| && ids[i] == Some(id);
      assert BatchId(parse, elems[i]) == Some(id);
    }
  }
}
