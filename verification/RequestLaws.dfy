/** What the decision tree and the correlation take from a message, told by its members. */
module RequestLaws {
  import opened Options
  import opened Json
  import opened Members
  import opened Entry
  import opened Canonical
  import opened JsonCheck
  import opened Ids
  import opened Request
  import Decimal
  import Strings

  // ---------- Members of a message ----------

  lemma OneOfName(ms: seq<Member>, i: nat, j: nat, name: string)
    requires Distinct(ms) && i < |ms| && j < |ms| && NamedAt(ms, i, name) && NamedAt(ms, j, name)
    ensures i == j
  {
    assert SameName(ms[i], ms[j]) && SameName(ms[j], ms[i]);
  }

  /** With names distinct, a lookup finds the one member of the name. */
  lemma FieldIsMember(ms: seq<Member>, name: string)
    requires Distinct(ms)
    ensures Field(ms, name).None? <==> Lacks(ms, name)
    ensures forall v :: Field(ms, name) == Some(v) <==> Holds(ms, name, v)
  {
    var k := Pick(GO_MAP, ms, name);
    forall i | 0 <= i < |ms| ensures NamedAt(ms, i, name) <==> Hits(GO_MAP, ms[i], name) {}
    if k.Some? {
      assert NamedAt(ms, k.value, name);
      forall i | 0 <= i < |ms| && NamedAt(ms, i, name) ensures i == k.value {
        OneOfName(ms, i, k.value, name);
      }
    }
  }

  lemma FieldSpells(ms: seq<Member>, name: string, s: string)
    requires Distinct(ms) && s != ""
    ensures StringOf(Field(ms, name)) == s <==> HoldsString(ms, name, s)
  {
    FieldIsMember(ms, name);
    if StringOf(Field(ms, name)) == s {
      var v := Field(ms, name).value;
      assert Holds(ms, name, v);
      var i :| 0 <= i < |ms| && NamedAt(ms, i, name) && ms[i].value == v;
      assert Spells(ms[i].value, s);
    }
    if HoldsString(ms, name, s) {
      var i :| 0 <= i < |ms| && NamedAt(ms, i, name) && Spells(ms[i].value, s);
      assert Holds(ms, name, ms[i].value);
    }
  }

  /** A raw value is what the member of this name holds; absent exactly when there is none. */
  ghost predicate FromMember(ms: seq<Member>, name: string, r: Raw) {
    && (r.Empty? <==> Lacks(ms, name))
    && (forall v :: r == Value(v) <==> Holds(ms, name, v))
  }

  lemma RawIsMember(ms: seq<Member>, name: string)
    requires Distinct(ms)
    ensures FromMember(ms, name, RawOf(Field(ms, name)))
  {
    FieldIsMember(ms, name);
  }

  // ---------- Responses ----------

  predicate IsCode(parse: Reading, lit: string) {
    lit !in KEYWORDS && parse(lit).Some? && Decimal.IsInteger(Decimal.Number(parse(lit).value))
  }

  /** A JSON-RPC error: an integer code and a string message, spelled as every reader would. */
  ghost predicate IsError(parse: Reading, e: Text) {
    && e.Obj? && AllAgreed(e.members, ERROR_FIELDS)
    && (exists lit :: Holds(e.members, "code", Atom(lit)) && IsCode(parse, lit))
    && (exists body :: Holds(e.members, "message", Str(body)))
  }

  ghost predicate HoldsError(parse: Reading, ms: seq<Member>) {
    exists e :: Holds(ms, "error", e) && IsError(parse, e)
  }

  ghost predicate HoldsId(parse: Reading, ms: seq<Member>) {
    exists id :: Holds(ms, "id", id) && Usable(parse, id)
  }

  /** A response: version 2.0, no method, either a result or a proper error, and an id; null only on an error. */
  ghost predicate IsAnswer(parse: Reading, ms: seq<Member>) {
    && HoldsString(ms, "jsonrpc", "2.0") && Lacks(ms, "method")
    && AllAgreed(ms, RESPONSE_FIELDS)
    && (Lacks(ms, "error") <==> !Lacks(ms, "result"))
    && (Lacks(ms, "error") || HoldsError(parse, ms))
    && (HoldsId(parse, ms) || (!Lacks(ms, "error") && Holds(ms, "id", NULL)))
  }

  lemma NegatedInteger(x: real)
    ensures Decimal.IsInteger(-x) <==> Decimal.IsInteger(x)
  {
    if Decimal.IsInteger(x) { assert -x == (-x.Floor) as real; }
    if Decimal.IsInteger(-x) { assert x == (-(-x).Floor) as real; }
  }

  lemma IntegralExactly(d: Decimal.Float)
    ensures Integral(d) <==> Decimal.IsInteger(Decimal.Number(d))
  {
    if d == Decimal.Zero {
      assert Decimal.Number(d) == 0 as real;
    } else {
      Decimal.IntegerByPoint(d.digits, d.point);
      NegatedInteger(Decimal.Value(d.digits, d.point));
    }
  }

  lemma CodeExactly(parse: Reading, lit: string)
    ensures IsCode(parse, lit) <==> lit !in KEYWORDS && parse(lit).Some? && Integral(parse(lit).value)
  {
    if parse(lit).Some? { IntegralExactly(parse(lit).value); }
  }

  lemma ErrorExactly(parse: Reading, e: Text)
    requires Strict(e)
    ensures ErrorBody(parse, e) <==> IsError(parse, e)
  {
    if e.Obj? {
      var ms := e.members;
      AllAgreedExactly(ms, ERROR_FIELDS);
      FieldIsMember(ms, "code");
      FieldIsMember(ms, "message");
      if Field(ms, "code").Some? && Field(ms, "code").value.Atom? { CodeExactly(parse, Field(ms, "code").value.lit); }
      if ErrorBody(parse, e) {
        var code, message := Field(ms, "code").value, Field(ms, "message").value;
        assert Holds(ms, "code", Atom(code.lit)) && IsCode(parse, code.lit);
        assert Holds(ms, "message", Str(message.body));
      }
    }
  }

  lemma HoldsErrorExactly(parse: Reading, ms: seq<Member>)
    requires Strict(Obj(ms))
    ensures HoldsError(parse, ms) <==> Field(ms, "error").Some? && ErrorBody(parse, Field(ms, "error").value)
  {
    FieldIsMember(ms, "error");
    if Field(ms, "error").Some? {
      var k := Pick(GO_MAP, ms, "error").value;
      assert ms[k] in ms;
      ErrorExactly(parse, Field(ms, "error").value);
    }
  }

  lemma HoldsIdExactly(parse: Reading, ms: seq<Member>)
    requires Distinct(ms)
    ensures HoldsId(parse, ms) <==> ValidId(parse, Field(ms, "id"))
  {
    FieldIsMember(ms, "id");
    if ValidId(parse, Field(ms, "id")) {
      assert Holds(ms, "id", Field(ms, "id").value) && Usable(parse, Field(ms, "id").value);
    }
  }

  lemma ResponseExactly(parse: Reading, ms: seq<Member>)
    requires Strict(Obj(ms))
    ensures IsResponse(parse, ms) <==> IsAnswer(parse, ms)
  {
    FieldSpells(ms, "jsonrpc", "2.0");
    FieldIsMember(ms, "method");
    FieldIsMember(ms, "result");
    FieldIsMember(ms, "error");
    FieldIsMember(ms, "id");
    AllAgreedExactly(ms, RESPONSE_FIELDS);
    HoldsErrorExactly(parse, ms);
    HoldsIdExactly(parse, ms);
  }

  /**
   A reply is taken from a line exactly when the line is a validated response with a usable
   id, and then its result is the member "result" and its error the member "error".
   */
  lemma ReplyExactly(parse: Reading, w: Wire)
    ensures ReplyOf(parse, w).Some? <==>
            w.Doc? && w.text.Obj? && Valid(w.text) && IsAnswer(parse, w.text.members) && HoldsId(parse, w.text.members)
    ensures ReplyOf(parse, w).Some? ==>
              var ms, r := w.text.members, ReplyOf(parse, w).value;
              && FromMember(ms, "result", r.result) && FromMember(ms, "error", r.error)
              && exists id :: Holds(ms, "id", id) && r.key == IdKey(parse, id)
  {
    if w.Doc? && w.text.Obj? && Valid(w.text) {
      var ms := w.text.members;
      ResponseExactly(parse, ms);
      HoldsIdExactly(parse, ms);
      if ReplyOf(parse, w).Some? {
        RawIsMember(ms, "result");
        RawIsMember(ms, "error");
        FieldIsMember(ms, "id");
        assert Holds(ms, "id", Field(ms, "id").value);
      }
    }
  }

  // ---------- Messages that are not tool calls ----------

  /** A validated 2.0 message whose envelope every reader reads alike. */
  ghost predicate IsEnvelope(ms: seq<Member>) {
    Valid(Obj(ms)) && AllAgreed(ms, ENVELOPE) && HoldsString(ms, "jsonrpc", "2.0")
  }

  /** It names some other method, carries no result or error, and its params, if any, are structured. */
  ghost predicate IsOtherRequest(ms: seq<Member>) {
    && (exists m :: m != "" && m != "tools/call" && HoldsString(ms, "method", m))
    && Lacks(ms, "result") && Lacks(ms, "error")
    && (Lacks(ms, "params") || exists v :: Holds(ms, "params", v) && (v.Obj? || v.Arr?))
  }

  /** The same by lookups. */
  predicate OtherFields(ms: seq<Member>) {
    && StringOf(Field(ms, "method")) != "" && StringOf(Field(ms, "method")) != "tools/call"
    && Field(ms, "result").None? && Field(ms, "error").None?
    && (Field(ms, "params").Some? ==> Field(ms, "params").value.Obj? || Field(ms, "params").value.Arr?)
  }

  lemma OtherRequestExactly(ms: seq<Member>)
    requires Distinct(ms)
    ensures IsOtherRequest(ms) <==> OtherFields(ms)
  {
    FieldIsMember(ms, "result");
    FieldIsMember(ms, "error");
    FieldIsMember(ms, "params");
    var m := StringOf(Field(ms, "method"));
    if m != "" { FieldSpells(ms, "method", m); }
    if exists n :: n != "" && n != "tools/call" && HoldsString(ms, "method", n) {
      var n :| n != "" && n != "tools/call" && HoldsString(ms, "method", n);
      FieldSpells(ms, "method", n);
    }
  }

  lemma EnvelopeExactly(ms: seq<Member>)
    ensures IsEnvelope(ms) <==> Valid(Obj(ms)) && !HasAlias(ms, ENVELOPE) && Version2(ms)
  {
    if Valid(Obj(ms)) {
      AllAgreedExactly(ms, ENVELOPE);
      FieldSpells(ms, "jsonrpc", "2.0");
    }
  }

  lemma JudgeOther(parse: Reading, eng: Option<Policy>, ms: seq<Member>, id: Text)
    requires Version2(ms)
    ensures JudgeObject(parse, eng, ms) == Other(id) <==>
            OtherFields(ms) && Field(ms, "id") == Some(id) && Usable(parse, id)
  {
  }

  lemma JudgePass(parse: Reading, eng: Option<Policy>, ms: seq<Member>)
    requires Version2(ms)
    ensures JudgeObject(parse, eng, ms) == Pass <==>
            IsResponse(parse, ms) || (OtherFields(ms) && Field(ms, "id").None?)
  {
  }

  lemma NoVersion(parse: Reading, eng: Option<Policy>, ms: seq<Member>)
    requires !Version2(ms)
    ensures JudgeObject(parse, eng, ms).Invalid?
  {
  }

  /** Only envelopes are looked into. */
  lemma JudgeEnvelope(parse: Reading, eng: Option<Policy>, ms: seq<Member>)
    ensures if IsEnvelope(ms) then Version2(ms) && Judge(parse, eng, Doc(Obj(ms))) == JudgeObject(parse, eng, ms)
            else Judge(parse, eng, Doc(Obj(ms))).Invalid?
  {
    EnvelopeExactly(ms);
    if !Version2(ms) { NoVersion(parse, eng, ms); }
  }

  /** Exactly the well-formed requests for other methods with a usable id are reserved and forwarded. */
  lemma OtherExactly(parse: Reading, eng: Option<Policy>, ms: seq<Member>, id: Text)
    ensures Judge(parse, eng, Doc(Obj(ms))) == Other(id) <==>
            IsEnvelope(ms) && IsOtherRequest(ms) && Holds(ms, "id", id) && Usable(parse, id)
  {
    JudgeEnvelope(parse, eng, ms);
    if IsEnvelope(ms) {
      OtherRequestExactly(ms);
      FieldIsMember(ms, "id");
      JudgeOther(parse, eng, ms, id);
    }
  }

  lemma PassInEnvelope(parse: Reading, eng: Option<Policy>, ms: seq<Member>)
    requires Strict(Obj(ms)) && Version2(ms)
    ensures JudgeObject(parse, eng, ms) == Pass <==> IsAnswer(parse, ms) || (IsOtherRequest(ms) && Lacks(ms, "id"))
  {
    OtherRequestExactly(ms);
    FieldIsMember(ms, "id");
    ResponseExactly(parse, ms);
    JudgePass(parse, eng, ms);
  }

  /** Exactly the notifications for other methods and the client's responses pass unreserved. */
  lemma PassExactly(parse: Reading, eng: Option<Policy>, ms: seq<Member>)
    ensures Judge(parse, eng, Doc(Obj(ms))) == Pass <==>
            IsEnvelope(ms) && (IsAnswer(parse, ms) || (IsOtherRequest(ms) && Lacks(ms, "id")))
  {
    JudgeEnvelope(parse, eng, ms);
    if IsEnvelope(ms) { PassInEnvelope(parse, eng, ms); }
  }

  /** Nothing but an object is ever cleared. */
  lemma OnlyObjectsClear(parse: Reading, eng: Option<Policy>, w: Wire)
    requires Clears(Judge(parse, eng, w))
    ensures w.Doc? && w.text.Obj?
  {
  }

  // ---------- Ids and verdicts ----------

  /** Usable ids are the strings that decode and the numbers within binary64. */
  lemma UsableExactly(parse: Reading, id: Text)
    ensures Usable(parse, id) <==>
            || (id.Str? && Strings.Unescape(id.body).Some?)
            || (id.Atom? && id.lit != "null" && id.lit != "true" && id.lit != "false" && parse(id.lit).Some?)
  {
  }

  lemma InvalidCall(parse: Reading, eng: Option<Policy>, id: Text, params: Option<Text>)
    requires JudgeCall(eng, id, params).Invalid?
    ensures JudgeCall(eng, id, params).id == id
  {
  }

  lemma InvalidObject(parse: Reading, eng: Option<Policy>, ms: seq<Member>)
    requires JudgeObject(parse, eng, ms).Invalid?
    ensures JudgeObject(parse, eng, ms).id == AnswerId(parse, ms)
  {
    if ValidId(parse, Field(ms, "id")) {
      if JudgeCall(eng, Field(ms, "id").value, Field(ms, "params")).Invalid? {
        InvalidCall(parse, eng, Field(ms, "id").value, Field(ms, "params"));
      }
    }
  }

  /** A validated message with an unambiguous envelope: only then is its id taken seriously. */
  ghost predicate Readable(w: Wire) {
    w.Doc? && w.text.Obj? && Valid(w.text) && AllAgreed(w.text.members, ENVELOPE)
  }

  lemma JudgeReadable(parse: Reading, eng: Option<Policy>, w: Wire)
    ensures if Readable(w) then Judge(parse, eng, w) == JudgeObject(parse, eng, w.text.members)
            else Judge(parse, eng, w) == Invalid(NULL) || Judge(parse, eng, w).Batch?
  {
    if w.Doc? && w.text.Obj? && Valid(w.text) { AllAgreedExactly(w.text.members, ENVELOPE); }
  }

  /** A refused message is answered under the usable id it holds, and under null if it holds none. */
  lemma RefusalAnswersId(parse: Reading, eng: Option<Policy>, w: Wire)
    requires Judge(parse, eng, w).Invalid?
    ensures var id := Judge(parse, eng, w).id;
            if Readable(w) && HoldsId(parse, w.text.members) then Holds(w.text.members, "id", id) && Usable(parse, id)
            else id == NULL
  {
    JudgeReadable(parse, eng, w);
    if Readable(w) {
      InvalidObject(parse, eng, w.text.members);
      HoldsIdExactly(parse, w.text.members);
      FieldIsMember(w.text.members, "id");
    }
  }

  /** An element of a batch is answered exactly when it is a validated object with one usable, unambiguous id. */
  lemma BatchIdExactly(parse: Reading, e: Option<Text>, id: Text)
    ensures BatchId(parse, e) == Some(id) <==>
            && e.Some? && Valid(e.value) && e.value.Obj? && Agreed(e.value.members, "id")
            && Holds(e.value.members, "id", id) && Usable(parse, id)
  {
    if e.Some? && Valid(e.value) && e.value.Obj? {
      var ms := e.value.members;
      AllAgreedExactly(ms, ["id"]);
      assert AllAgreed(ms, ["id"]) <==> Agreed(ms, "id") by { assert ["id"][0] == "id"; }
      FieldIsMember(ms, "id");
    }
  }

  /** Deny is the stricter list, and a tool on neither is allowed. */
  lemma DecideExactly(rules: Policy, tool: string)
    ensures Decide(Some(rules), tool).Deny? <==> tool in rules.deny
    ensures Decide(Some(rules), tool).RequireApproval? <==> tool in rules.approve - rules.deny
    ensures Decide(None, tool).Allow?
  {
  }
}
