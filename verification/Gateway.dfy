/** What the gateway does with a judged line: reserve and forward, or answer, record and drop. */
module Gateway {
  import opened Options
  import opened Entry
  import opened Json
  import opened Canonical
  import opened JsonCheck
  import opened Request
  import Ids
  import Logger
  import Pending
  import Utf8

  datatype Outcome = Approved | Rejected | TimedOut

  /** Why a message is refused; the wording is left to a parameter. */
  datatype Reason = Unreadable | IsBatch | OnDenyList(tool: string) | NoApprover(tool: string)
                  | HumanRejected(tool: string) | HumanTimeout(tool: string) | IdReused(tool: string) | NoRoom(tool: string)

  /** The inspection as functions of a line, so that the protocol does not depend on JSON. */
  datatype Gate = Gate(judge: Wire -> Judgement, key: Text -> string, reply: Wire -> Option<Reply>,
                       raw: Wire -> Raw, batch: Wire -> Raw, say: Reason -> string)

  /** One line on the client stream. */
  datatype Out = Relayed(line: Wire) | ErrorLine(id: Text, message: string) | BatchErrors(ids: seq<Text>, message: string)

  /** One call of Logger.Append. */
  datatype Attempt = Attempt(tool: string, args: Raw, result: Raw, error: Raw, decision: string)

  function PayloadOf(a: Attempt): Payload {
    Logger.CallPayload(a.tool, a.args, a.result, a.error, a.decision)
  }

  /** The error member recorded and sent for a refusal. */
  function ErrorObject(message: string): Raw {
    Value(Obj([Member("code", Atom("-32000")), Member("message", StrText(message))]))
  }

  /** What handling one client line does; attempts count only while auditing. */
  datatype Effect = Effect(forward: bool, table: Pending.Table, outs: seq<Out>, attempts: seq<Attempt>)

  function Refusal(g: Gate, t: Pending.Table, id: Text, tool: string, args: Raw, decision: string, why: Reason): Effect {
    Effect(false, t, [ErrorLine(id, g.say(why))], [Attempt(tool, args, Empty, ErrorObject(g.say(why)), decision)])
  }

  function BatchRefusal(g: Gate, t: Pending.Table, w: Wire, ids: seq<Text>): Effect {
    Effect(false, t, [if ids == [] then ErrorLine(NULL, g.say(IsBatch)) else BatchErrors(ids, g.say(IsBatch))],
           [Attempt("(batch)", g.batch(w), Empty, ErrorObject(g.say(IsBatch)), "deny")])
  }

  function Whereof(r: Pending.Refusal, tool: string): Reason {
    if r.IdReuse? then IdReused(tool) else NoRoom(tool)
  }

  /** Reserve the id and forward, or refuse when the reservation is. */
  function Cleared(g: Gate, auditing: bool, t: Pending.Table, id: Text, c: Pending.Call, shown: string, args: Raw): Effect {
    if !auditing then Effect(true, t, [], [])
    else
      var why := Pending.Refuses(t, g.key(id), c.size);
      if why.None? then Effect(true, Pending.Reserved(t, g.key(id), c), [], [])
      else Refusal(g, t, id, shown, args, "deny", Whereof(why.value, shown))
  }

  /** answer is the human's decision, None when no approver is configured. */
  function Handled(g: Gate, auditing: bool, t: Pending.Table, w: Wire, width: nat, answer: Option<Outcome>): Effect {
    match g.judge(w)
    case Pass => Effect(true, t, [], [])
    case Invalid(id) => Refusal(g, t, id, "(invalid request)", g.raw(w), "deny", Unreadable)
    case Batch(ids) => BatchRefusal(g, t, w, ids)
    case Other(id) => Cleared(g, auditing, t, id, Pending.CallOf(g.key(id), "", Empty, 0, ""), "(request)", g.raw(w))
    case Call(id, tool, args, Deny) => Refusal(g, t, id, tool, args, "deny", OnDenyList(tool))
    case Call(id, tool, args, Allow) =>
      Cleared(g, auditing, t, id, Pending.CallOf(g.key(id), tool, args, width, "allow"), tool, args)
    case Call(id, tool, args, RequireApproval) =>
      if answer.None? then Refusal(g, t, id, tool, args, "deny", NoApprover(tool))
      else match answer.value
        case Approved => Cleared(g, auditing, t, id, Pending.CallOf(g.key(id), tool, args, width, "approved"), tool, args)
        case Rejected => Refusal(g, t, id, tool, args, "rejected", HumanRejected(tool))
        case TimedOut => Refusal(g, t, id, tool, args, "timeout", HumanTimeout(tool))
  }

  // ---------- The proxy's objects ----------

  /** The client stream shared by both directions; after close nothing more is written. */
  class ClientStream {
    var lines: seq<Out>
    var closed: bool

    constructor ()
      ensures lines == [] && !closed
    {
      lines, closed := [], false;
    }

    method Write(o: Out) returns (ok: bool)
      modifies this`lines
      ensures ok <==> !closed
      ensures lines == if ok then old(lines) + [o] else old(lines)
    {
      ok := !closed;
      if ok {
        lines := lines + [o];
      }
    }

    method Close()
      modifies this`closed
      ensures closed
    {
      closed := true;
    }
  }

  class Proxy {
    const gate: Gate
    const client: ClientStream
    const reservations: Pending.Reservations?   // null when nothing is recorded
    var attempts: seq<Attempt>                  // what was handed to Logger.Append

    ghost predicate Valid()
      reads this, reservations
    {
      reservations != null ==> reservations.Valid()
    }

    function Table(): Pending.Table
      reads reservations
    {
      if reservations == null then Pending.EMPTY else reservations.View()
    }

    constructor (gate: Gate, client: ClientStream, reservations: Pending.Reservations?)
      requires reservations != null ==> reservations.Valid()
      ensures Valid() && attempts == []
      ensures this.gate == gate && this.client == client && this.reservations == reservations
    {
      this.gate, this.client, this.reservations, this.attempts := gate, client, reservations, [];
    }

    /** The effect has happened; while the stream is closed its lines are lost. */
    twostate predicate Did(e: Effect)
      reads this, client, reservations
    {
      && Valid() && client.closed == old(client.closed)
      && Table() == e.table
      && client.lines == old(client.lines) + (if client.closed then [] else e.outs)
      && attempts == old(attempts) + (if reservations == null then [] else e.attempts)
    }

    method BlockCall(id: Text, args: Raw, tool: string, decision: string, why: Reason) returns (forward: bool)
      requires Valid()
      modifies this`attempts, client`lines
      ensures !forward && Did(Refusal(gate, old(Table()), id, tool, args, decision, why))
    {
      var ok := client.Write(ErrorLine(id, gate.say(why)));
      if reservations != null {
        attempts := attempts + [Attempt(tool, args, Empty, ErrorObject(gate.say(why)), decision)];
      }
      forward := false;
    }

    method BlockBatch(w: Wire, ids: seq<Text>) returns (forward: bool)
      requires Valid()
      modifies this`attempts, client`lines
      ensures !forward && Did(BatchRefusal(gate, old(Table()), w, ids))
    {
      var ok;
      if ids == [] {
        ok := client.Write(ErrorLine(NULL, gate.say(IsBatch)));
      } else {
        ok := client.Write(BatchErrors(ids, gate.say(IsBatch)));
      }
      if reservations != null {
        attempts := attempts + [Attempt("(batch)", gate.batch(w), Empty, ErrorObject(gate.say(IsBatch)), "deny")];
      }
      forward := false;
    }

    /** Remember, then forward; a refused reservation refuses the message. */
    method Clear(id: Text, tool: string, args: Raw, width: nat, decision: string, shown: string, shownArgs: Raw)
      returns (forward: bool)
      requires Valid()
      modifies this`attempts, client`lines, reservations
      ensures var e := Cleared(gate, reservations != null, old(Table()), id,
                               Pending.CallOf(gate.key(id), tool, args, width, decision), shown, shownArgs);
              forward == e.forward && Did(e)
    {
      if reservations == null {
        return true;
      }
      var e := reservations.Remember(gate.key(id), tool, args, width, decision);
      if e.None? {
        return true;
      }
      forward := BlockCall(id, shownArgs, shown, "deny", Whereof(e.value, shown));
    }

    method HandleApproval(id: Text, tool: string, args: Raw, width: nat, answer: Option<Outcome>, w: Wire)
      returns (forward: bool)
      requires Valid() && gate.judge(w) == Call(id, tool, args, RequireApproval)
      modifies this`attempts, client`lines, reservations
      ensures var e := Handled(gate, reservations != null, old(Table()), w, width, answer);
              forward == e.forward && Did(e)
    {
      match answer {
        case None => forward := BlockCall(id, args, tool, "deny", NoApprover(tool));
        case Some(Approved) => forward := Clear(id, tool, args, width, "approved", tool, args);
        case Some(Rejected) => forward := BlockCall(id, args, tool, "rejected", HumanRejected(tool));
        case Some(TimedOut) => forward := BlockCall(id, args, tool, "timeout", HumanTimeout(tool));
      }
    }

    /** The policy's verdict on a tool call. */
    method InspectCall(w: Wire, width: nat, answer: Option<Outcome>) returns (forward: bool)
      requires Valid() && gate.judge(w).Call?
      modifies this`attempts, client`lines, reservations
      ensures var e := Handled(gate, reservations != null, old(Table()), w, width, answer);
              forward == e.forward && Did(e)
    {
      var Call(id, tool, args, verdict) := gate.judge(w);
      match verdict {
        case Deny => forward := BlockCall(id, args, tool, "deny", OnDenyList(tool));
        case RequireApproval => forward := HandleApproval(id, tool, args, width, answer, w);
        case Allow => forward := Clear(id, tool, args, width, "allow", tool, args);
      }
    }

    /** handleRequest for one client line of the given arguments width. */
    method InspectRequest(w: Wire, width: nat, answer: Option<Outcome>) returns (forward: bool)
      requires Valid()
      modifies this`attempts, client`lines, reservations
      ensures var e := Handled(gate, reservations != null, old(Table()), w, width, answer);
              forward == e.forward && Did(e)
    {
      match gate.judge(w) {
        case Invalid(id) => forward := BlockCall(id, gate.raw(w), "(invalid request)", "deny", Unreadable);
        case Batch(ids) => forward := BlockBatch(w, ids);
        case Pass => forward := true;
        case Other(id) => forward := Clear(id, "", Empty, 0, "", "(request)", gate.raw(w));
        case Call(_, _, _, _) => forward := InspectCall(w, width, answer);
      }
    }

    /** recordResponse: complete the one reservation with the response's id, if there is one. */
    method RecordResponse(w: Wire)
      requires Valid() && reservations != null
      modifies this`attempts, reservations
      ensures Valid()
      ensures Table() == Settled(gate, old(Table()), w)
      ensures attempts == old(attempts) + old(Completion(gate, Table(), w))
    {
      var reply := gate.reply(w);
      if reply.None? {
        return;
      }
      var c := reservations.Take(reply.value.key);
      if c.None? || c.value.tool == "" {
        return;
      }
      attempts := attempts + [Attempt(c.value.tool, c.value.args, reply.value.result, reply.value.error, c.value.decision)];
    }
  }

  /** A usable response releases the reservation of its id. */
  function Settled(g: Gate, t: Pending.Table, w: Wire): Pending.Table {
    if g.reply(w).Some? then Pending.Released(t, g.reply(w).value.key) else t
  }

  /** The record a server line completes: its tool, arguments and decision are the reservation's. */
  function Completion(g: Gate, t: Pending.Table, w: Wire): seq<Attempt> {
    var reply := g.reply(w);
    if reply.None? || reply.value.key !in t.calls || t.calls[reply.value.key].tool == "" then []
    else
      var c := t.calls[reply.value.key];
      [Attempt(c.tool, c.args, reply.value.result, reply.value.error, c.decision)]
  }

  // ---------- What every effect is ----------

  predicate Refusing(d: string) { d in {"deny", "rejected", "timeout"} }

  /** Either the line is forwarded in silence, or it is answered once and recorded once. */
  ghost predicate AnsweredOnce(t: Pending.Table, e: Effect) {
    && Pending.Sound(e.table)
    && (if e.forward then e.outs == [] && e.attempts == []
        else e.table == t && |e.outs| == 1 && !e.outs[0].Relayed? &&
             |e.attempts| == 1 && Refusing(e.attempts[0].decision) &&
             e.attempts[0].error == ErrorObject(e.outs[0].message) && e.attempts[0].result.Empty?)
  }

  lemma ClearedOnce(g: Gate, auditing: bool, t: Pending.Table, id: Text, c: Pending.Call, shown: string, args: Raw)
    requires Pending.Sound(t)
    ensures AnsweredOnce(t, Cleared(g, auditing, t, id, c, shown, args))
  {
    if Pending.Refuses(t, g.key(id), c.size).None? { Pending.ReservedSound(t, g.key(id), c); }
  }

  lemma AnsweredOnceAlways(g: Gate, auditing: bool, t: Pending.Table, w: Wire, width: nat, answer: Option<Outcome>)
    requires Pending.Sound(t)
    ensures AnsweredOnce(t, Handled(g, auditing, t, w, width, answer))
  {
    match g.judge(w)
    case Other(id) => ClearedOnce(g, auditing, t, id, Pending.CallOf(g.key(id), "", Empty, 0, ""), "(request)", g.raw(w));
    case Call(id, tool, args, Allow) =>
      ClearedOnce(g, auditing, t, id, Pending.CallOf(g.key(id), tool, args, width, "allow"), tool, args);
    case Call(id, tool, args, RequireApproval) =>
      ClearedOnce(g, auditing, t, id, Pending.CallOf(g.key(id), tool, args, width, "approved"), tool, args);
    case _ =>
  }

  /** The decision a refused call is recorded with. */
  function RefusedAs(v: Verdict, answer: Option<Outcome>): string {
    if v.RequireApproval? && answer == Some(Rejected) then "rejected"
    else if v.RequireApproval? && answer == Some(TimedOut) then "timeout"
    else "deny"
  }

  /** Answered under this id and recorded with this tool, these arguments and this decision. */
  predicate ToldAs(e: Effect, id: Text, tool: string, args: Raw, decision: string) {
    && |e.outs| == 1 && e.outs[0].ErrorLine? && e.outs[0].id == id
    && |e.attempts| == 1 && e.attempts[0].tool == tool && e.attempts[0].args == args
    && e.attempts[0].decision == decision
  }

  /** A refused batch is answered for exactly the ids found in it, or under null if there are none. */
  predicate BatchTold(e: Effect, ids: seq<Text>, args: Raw) {
    && |e.outs| == 1 && (if ids == [] then e.outs[0].ErrorLine? && e.outs[0].id == NULL
                         else e.outs[0].BatchErrors? && e.outs[0].ids == ids)
    && |e.attempts| == 1 && e.attempts[0].tool == "(batch)" && e.attempts[0].args == args
    && e.attempts[0].decision == "deny"
  }

  /**
   A refused message is answered under its own id and recorded as what it is: a call with its
   own tool, arguments and cause, anything else with the message itself.
   */
  predicate ToldTruly(g: Gate, w: Wire, answer: Option<Outcome>, e: Effect) {
    !e.forward ==>
      match g.judge(w)
      case Invalid(id) => ToldAs(e, id, "(invalid request)", g.raw(w), "deny")
      case Batch(ids) => BatchTold(e, ids, g.batch(w))
      case Pass => false
      case Other(id) => ToldAs(e, id, "(request)", g.raw(w), "deny")
      case Call(id, tool, args, verdict) => ToldAs(e, id, tool, args, RefusedAs(verdict, answer))
  }

  lemma ClearedTold(g: Gate, auditing: bool, t: Pending.Table, id: Text, c: Pending.Call, tool: string, args: Raw)
    ensures var e := Cleared(g, auditing, t, id, c, tool, args);
            !e.forward ==> ToldAs(e, id, tool, args, "deny")
  {
  }

  lemma RefusedApproval(g: Gate, auditing: bool, t: Pending.Table, w: Wire, width: nat, answer: Option<Outcome>)
    requires g.judge(w).Call? && g.judge(w).verdict.RequireApproval?
    ensures ToldTruly(g, w, answer, Handled(g, auditing, t, w, width, answer))
  {
    var j := g.judge(w);
    if answer == Some(Approved) {
      ClearedTold(g, auditing, t, j.id, Pending.CallOf(g.key(j.id), j.tool, j.args, width, "approved"), j.tool, j.args);
    }
  }

  lemma RefusedAllowed(g: Gate, auditing: bool, t: Pending.Table, w: Wire, width: nat, answer: Option<Outcome>)
    requires g.judge(w).Call? && g.judge(w).verdict.Allow?
    ensures ToldTruly(g, w, answer, Handled(g, auditing, t, w, width, answer))
  {
    var j := g.judge(w);
    ClearedTold(g, auditing, t, j.id, Pending.CallOf(g.key(j.id), j.tool, j.args, width, "allow"), j.tool, j.args);
  }

  lemma RefusedTold(g: Gate, auditing: bool, t: Pending.Table, w: Wire, width: nat, answer: Option<Outcome>)
    ensures ToldTruly(g, w, answer, Handled(g, auditing, t, w, width, answer))
  {
    match g.judge(w)
    case Invalid(_) =>
    case Batch(_) =>
    case Pass =>
    case Other(id) =>
      ClearedTold(g, auditing, t, id, Pending.CallOf(g.key(id), "", Empty, 0, ""), "(request)", g.raw(w));
    case Call(_, _, _, Deny) =>
    case Call(_, _, _, Allow) => RefusedAllowed(g, auditing, t, w, width, answer);
    case Call(_, _, _, RequireApproval) => RefusedApproval(g, auditing, t, w, width, answer);
  }

  /**
   Every line is either forwarded in silence, or answered by one line and recorded once with
   the error the client was shown, under its own id and as what it is.
   */
  lemma AnsweredOrForwarded(g: Gate, auditing: bool, t: Pending.Table, w: Wire, width: nat, answer: Option<Outcome>)
    requires Pending.Sound(t)
    ensures AnsweredOnce(t, Handled(g, auditing, t, w, width, answer))
    ensures ToldTruly(g, w, answer, Handled(g, auditing, t, w, width, answer))
  {
    AnsweredOnceAlways(g, auditing, t, w, width, answer);
    RefusedTold(g, auditing, t, w, width, answer);
  }

  /** The reservation a line needs: its id's key, and the bytes of key, tool and arguments. */
  function Need(g: Gate, w: Wire, width: nat): Option<(string, nat)> {
    match g.judge(w)
    case Other(id) => Some((g.key(id), |Utf8.Encode(g.key(id))|))
    case Call(id, tool, _, _) => Some((g.key(id), |Utf8.Encode(g.key(id))| + |Utf8.Encode(tool)| + width))
    case _ => None
  }

  predicate HasRoom(auditing: bool, t: Pending.Table, need: Option<(string, nat)>) {
    auditing && need.Some? ==> Pending.Refuses(t, need.value.0, need.value.1).None?
  }

  /** Neither denied nor waiting for more than an approval that came. */
  predicate LetPass(j: Judgement, answer: Option<Outcome>) {
    Clears(j) && (j.Call? ==> j.verdict.Allow? || (j.verdict.RequireApproval? && answer == Some(Approved)))
  }

  lemma ClearedExactly(g: Gate, auditing: bool, t: Pending.Table, id: Text, c: Pending.Call, shown: string, args: Raw)
    ensures Cleared(g, auditing, t, id, c, shown, args).forward <==> HasRoom(auditing, t, Some((g.key(id), c.size)))
  {
  }

  lemma CallForwardedExactly(g: Gate, auditing: bool, t: Pending.Table, w: Wire, width: nat, answer: Option<Outcome>)
    requires g.judge(w).Call?
    ensures Handled(g, auditing, t, w, width, answer).forward <==>
            LetPass(g.judge(w), answer) && HasRoom(auditing, t, Need(g, w, width))
  {
    var j := g.judge(w);
    if j.verdict.Allow? {
      ClearedExactly(g, auditing, t, j.id, Pending.CallOf(g.key(j.id), j.tool, j.args, width, "allow"), j.tool, j.args);
    } else if j.verdict.RequireApproval? {
      ClearedExactly(g, auditing, t, j.id, Pending.CallOf(g.key(j.id), j.tool, j.args, width, "approved"), j.tool, j.args);
    }
  }

  /** A line is forwarded exactly when it is let pass and, with a log, its reservation has room. */
  lemma ForwardExactly(g: Gate, auditing: bool, t: Pending.Table, w: Wire, width: nat, answer: Option<Outcome>)
    ensures Handled(g, auditing, t, w, width, answer).forward <==>
            LetPass(g.judge(w), answer) && HasRoom(auditing, t, Need(g, w, width))
  {
    if g.judge(w).Call? {
      CallForwardedExactly(g, auditing, t, w, width, answer);
    } else if g.judge(w).Other? {
      var id := g.judge(w).id;
      ClearedExactly(g, auditing, t, id, Pending.CallOf(g.key(id), "", Empty, 0, ""), "(request)", g.raw(w));
    }
  }

  /** A tool call is forwarded only under Allow, or under RequireApproval and Approved. */
  lemma OnlyCleared(g: Gate, auditing: bool, t: Pending.Table, w: Wire, width: nat, answer: Option<Outcome>)
    requires Handled(g, auditing, t, w, width, answer).forward
    ensures Clears(g.judge(w))
    ensures g.judge(w).Call? ==> g.judge(w).verdict.Allow? || (g.judge(w).verdict.RequireApproval? && answer == Some(Approved))
    ensures auditing && g.judge(w).Call? ==>
              var j, key := g.judge(w), g.key(g.judge(w).id);
              var e := Handled(g, auditing, t, w, width, answer);
              key !in t.calls && e.table == Pending.Reserved(t, key, Pending.CallOf(key, j.tool, j.args, width,
                                              if j.verdict.Allow? then "allow" else "approved"))
  {
  }

  // ---------- The real gate ----------

  function RawRequest(base64: Wire -> string, w: Wire): Raw {
    Value(Obj([Member("raw_base64", Str(base64(w)))]))
  }

  function BatchArgs(base64: Wire -> string, w: Wire): Raw {
    if w.Doc? && Valid(w.text) then Value(w.text) else RawRequest(base64, w)
  }

  function GateOf(parse: Reading, eng: Option<Policy>, base64: Wire -> string, say: Reason -> string): Gate {
    Gate(w => Judge(parse, eng, w), id => Ids.IdKey(parse, id), w => ReplyOf(parse, w),
         w => RawRequest(base64, w), w => BatchArgs(base64, w), say)
  }

  /** Reservations the gateway makes itself can be recorded. */
  predicate GoodCall(c: Pending.Call) {
    c.tool != "" ==> c.decision in {"allow", "approved"}
  }

  predicate GoodTable(t: Pending.Table) {
    forall k | k in t.calls :: GoodCall(t.calls[k])
  }

  lemma ReplyShape(parse: Reading, w: Wire)
    requires ReplyOf(parse, w).Some?
    ensures ReplyOf(parse, w).value.result.Empty? != ReplyOf(parse, w).value.error.Empty?
  {
  }

  lemma CallNamed(parse: Reading, eng: Option<Policy>, w: Wire)
    requires Judge(parse, eng, w).Call?
    ensures Judge(parse, eng, w).tool != ""
  {
  }

  predicate EffectShaped(e: Effect) {
    GoodTable(e.table) && forall a | a in e.attempts :: ShapeOk(PayloadOf(a))
  }

  lemma RefusalShape(g: Gate, t: Pending.Table, id: Text, tool: string, args: Raw, decision: string, why: Reason)
    requires GoodTable(t) && tool != "" && Refusing(decision)
    ensures EffectShaped(Refusal(g, t, id, tool, args, decision, why))
  {
  }

  lemma ClearedShape(g: Gate, auditing: bool, t: Pending.Table, id: Text, c: Pending.Call, shown: string, args: Raw)
    requires GoodTable(t) && GoodCall(c) && shown != ""
    ensures EffectShaped(Cleared(g, auditing, t, id, c, shown, args))
  {
    var why := Pending.Refuses(t, g.key(id), c.size);
    if why.Some? { RefusalShape(g, t, id, shown, args, "deny", Whereof(why.value, shown)); }
  }

  lemma HandledShape(g: Gate, auditing: bool, t: Pending.Table, w: Wire, width: nat, answer: Option<Outcome>)
    requires GoodTable(t) && (g.judge(w).Call? ==> g.judge(w).tool != "")
    ensures EffectShaped(Handled(g, auditing, t, w, width, answer))
  {
    match g.judge(w)
    case Pass =>
    case Invalid(id) => RefusalShape(g, t, id, "(invalid request)", g.raw(w), "deny", Unreadable);
    case Batch(ids) =>
    case Other(id) =>
      ClearedShape(g, auditing, t, id, Pending.CallOf(g.key(id), "", Empty, 0, ""), "(request)", g.raw(w));
    case Call(id, tool, args, Deny) => RefusalShape(g, t, id, tool, args, "deny", OnDenyList(tool));
    case Call(id, tool, args, Allow) =>
      ClearedShape(g, auditing, t, id, Pending.CallOf(g.key(id), tool, args, width, "allow"), tool, args);
    case Call(id, tool, args, RequireApproval) =>
      RefusalShape(g, t, id, tool, args, "deny", NoApprover(tool));
      RefusalShape(g, t, id, tool, args, "rejected", HumanRejected(tool));
      RefusalShape(g, t, id, tool, args, "timeout", HumanTimeout(tool));
      ClearedShape(g, auditing, t, id, Pending.CallOf(g.key(id), tool, args, width, "approved"), tool, args);
  }

  /** Every record the gateway asks for has the shape the log demands. */
  lemma RequestRecordsWellShaped(parse: Reading, eng: Option<Policy>, base64: Wire -> string, say: Reason -> string,
                                 auditing: bool, t: Pending.Table, w: Wire, width: nat, answer: Option<Outcome>)
    requires GoodTable(t)
    ensures EffectShaped(Handled(GateOf(parse, eng, base64, say), auditing, t, w, width, answer))
  {
    if Judge(parse, eng, w).Call? { CallNamed(parse, eng, w); }
    HandledShape(GateOf(parse, eng, base64, say), auditing, t, w, width, answer);
  }

  lemma CompletionShape(g: Gate, t: Pending.Table, w: Wire)
    requires GoodTable(t)
    requires g.reply(w).Some? ==> g.reply(w).value.result.Empty? != g.reply(w).value.error.Empty?
    ensures forall a | a in Completion(g, t, w) :: ShapeOk(PayloadOf(a))
  {
    var c := Completion(g, t, w);
    if c != [] {
      assert GoodCall(t.calls[g.reply(w).value.key]);
    }
  }

  lemma ResponseRecordsWellShaped(parse: Reading, eng: Option<Policy>, base64: Wire -> string, say: Reason -> string,
                                  t: Pending.Table, w: Wire)
    requires GoodTable(t)
    ensures forall a | a in Completion(GateOf(parse, eng, base64, say), t, w) :: ShapeOk(PayloadOf(a))
  {
    if ReplyOf(parse, w).Some? { ReplyShape(parse, w); }
    CompletionShape(GateOf(parse, eng, base64, say), t, w);
  }
}
