/** The promises of the gateway and of the log, put together with the real codec and decision tree. */
module Promises {
  import opened Options
  import opened Canonical
  import opened JsonCheck
  import opened Request
  import opened Gateway
  import opened Entry
  import Chain
  import ChainLaws
  import Codec
  import EntryLaws
  import HashChain
  import Logger
  import PayloadLaws
  import Pending
  import Recordable
  import Recorded
  import RequestLaws
  import Session
  import Writers

  /** No rule denies this tool, and a rule that holds it for a human was met by an approval. */
  predicate LetThrough(eng: Option<Policy>, tool: string, answer: Option<Outcome>) {
    eng.Some? ==> tool !in eng.value.deny && (tool in eng.value.approve ==> answer == Some(Approved))
  }

  /** What any reader finds in a cleared line. */
  ghost predicate OneReading(parse: Reading, eng: Option<Policy>, c: Session.Cleared, r: Reader) {
    && c.w.Doc? && c.w.text.Obj? && Valid(c.w.text)
    && AllAgreed(c.w.text.members, ENVELOPE)
    && (StringOf(Read(r, c.w.text.members, "method")) == "tools/call" ==>
          var j := Judge(parse, eng, c.w);
          j.Call? && ReadsCall(parse, r, c.w.text.members, j.id, j.tool, j.args) && LetThrough(eng, j.tool, c.answer))
  }

  lemma VerdictIsPolicy(parse: Reading, eng: Option<Policy>, w: Wire)
    requires Judge(parse, eng, w).Call?
    ensures Judge(parse, eng, w).verdict == Decide(eng, Judge(parse, eng, w).tool)
  {
    CallVerdict(parse, eng, w.text.members);
  }

  lemma CallRead(parse: Reading, eng: Option<Policy>, w: Wire, r: Reader)
    requires Judge(parse, eng, w).Call?
    ensures w.Doc? && w.text.Obj?
    ensures var j := Judge(parse, eng, w); ReadsCall(parse, r, w.text.members, j.id, j.tool, j.args)
  {
    var j := Judge(parse, eng, w);
    NoHiddenCall(parse, eng, w, r);
    VerdictIsPolicy(parse, eng, w);
    CallExactly(parse, eng, w.text.members, j.id, j.tool, j.args);
  }

  lemma ClearedReading(parse: Reading, eng: Option<Policy>, g: Gate, c: Session.Cleared, r: Reader)
    requires g.judge(c.w) == Judge(parse, eng, c.w) && Session.Permitted(g, c)
    ensures OneReading(parse, eng, c, r)
  {
    NoHiddenCall(parse, eng, c.w, r);
    if Judge(parse, eng, c.w).Call? {
      VerdictIsPolicy(parse, eng, c.w);
      CallRead(parse, eng, c.w, r);
    }
  }

  /**
   In every run, every line sent to the server was judged under its only reading: any
   reader finds the same members, and if to it the line is a tools/call, then it is the
   call that was judged, and policy or human let that tool through.
   */
  lemma ForwardedUnderOnlyReading(parse: Reading, eng: Option<Policy>, base64: Wire -> string, say: Reason -> string,
                                  cfg: Session.Setup, events: seq<Session.Event>, k: nat, r: Reader)
    requires k < |Session.Run(GateOf(parse, eng, base64, say), cfg, events).sent|
    ensures var s := Session.Run(GateOf(parse, eng, base64, say), cfg, events);
            k < |s.cleared| && s.sent[k] == s.cleared[k].w && OneReading(parse, eng, s.cleared[k], r)
  {
    var g := GateOf(parse, eng, base64, say);
    var s := Session.Run(g, cfg, events);
    Recorded.GateNamed(parse, eng, base64, say);
    Session.SentWasPermitted(g, cfg, events);
    assert s.sent[k] == Session.Lines(s.cleared)[k];
    assert s.cleared[k] in s.cleared;
    ClearedReading(parse, eng, g, s.cleared[k], r);
  }

  /**
   The log on disk, with the real codec: from an empty file, after any interleaving of any
   number of writers, the verifier accepts it and counts the successful appends.
   */
  method LogVerifies(pf: Codec.Platform, sign: string -> string, events: seq<Writers.Event>) returns (r: Chain.Outcome)
    requires forall c :: pf.check(c, sign(c))
    ensures r == Chain.Result(Writers.Run(Logger.KitOf(pf, sign), Writers.FRESH_FILE, events).appended, true, 0)
  {
    Logger.CodecTrusted(pf, sign);
    r := Writers.VerifyAfter(Logger.KitOf(pf, sign), Writers.FRESH_FILE, events);
  }

  predicate FineCall(c: Pending.Call) { GoodCall(c) && Recordable.Checked(c.args) }

  predicate Writable(a: Attempt) { ShapeOk(PayloadOf(a)) && Recordable.AllChecked(PayloadOf(a)) }

  lemma FineTables(t: Pending.Table)
    ensures Session.AllFine(c => FineCall(c), t) <==> GoodTable(t) && Recorded.CheckedTable(t)
  {
    if Session.AllFine(c => FineCall(c), t) {
      assert forall k | k in t.calls :: FineCall(t.calls[k]);
    }
    if GoodTable(t) && Recorded.CheckedTable(t) {
      assert forall k | k in t.calls :: GoodCall(t.calls[k]) && FineCall(t.calls[k]);
    }
  }

  lemma HandledWritable(parse: Reading, eng: Option<Policy>, base64: Wire -> string, say: Reason -> string,
                        auditing: bool, t: Pending.Table, w: Wire, width: nat, answer: Option<Outcome>)
    requires Recorded.PlainBase64(base64) && parse("-32000").Some? && Session.AllFine(c => FineCall(c), t)
    ensures var e := Handled(GateOf(parse, eng, base64, say), auditing, t, w, width, answer);
            Session.AllOk(a => Writable(a), e.attempts) && Session.AllFine(c => FineCall(c), e.table)
  {
    FineTables(t);
    RequestRecordsWellShaped(parse, eng, base64, say, auditing, t, w, width, answer);
    Recorded.RequestRecordsChecked(parse, eng, base64, say, auditing, t, w, width, answer);
    FineTables(Handled(GateOf(parse, eng, base64, say), auditing, t, w, width, answer).table);
  }

  lemma CompletionWritable(parse: Reading, eng: Option<Policy>, base64: Wire -> string, say: Reason -> string,
                           t: Pending.Table, w: Wire)
    requires Session.AllFine(c => FineCall(c), t)
    ensures Session.AllOk(a => Writable(a), Completion(GateOf(parse, eng, base64, say), t, w))
  {
    FineTables(t);
    ResponseRecordsWellShaped(parse, eng, base64, say, t, w);
    Recorded.ResponseRecordsChecked(parse, eng, base64, say, t, w);
  }

  /** Every record handed to the log in any run has the right shape and validated values. */
  lemma SessionWritable(parse: Reading, eng: Option<Policy>, base64: Wire -> string, say: Reason -> string,
                        cfg: Session.Setup, events: seq<Session.Event>)
    requires parse("-32000").Some? && Recorded.PlainBase64(base64)
    ensures forall a | a in Session.Run(GateOf(parse, eng, base64, say), cfg, events).log :: Writable(a)
  {
    var g := GateOf(parse, eng, base64, say);
    forall auditing, t: Pending.Table, w, width: nat, answer | Session.AllFine(c => FineCall(c), t)
      ensures var e := Handled(g, auditing, t, w, width, answer);
              Session.AllOk(a => Writable(a), e.attempts) && Session.AllFine(c => FineCall(c), e.table)
    {
      HandledWritable(parse, eng, base64, say, auditing, t, w, width, answer);
    }
    forall t: Pending.Table, w | Session.AllFine(c => FineCall(c), t)
      ensures Session.AllOk(a => Writable(a), Completion(g, t, w))
    {
      CompletionWritable(parse, eng, base64, say, t, w);
    }
    Session.EveryRecordOk(g, cfg, c => FineCall(c), a => Writable(a), events);
  }

  /**
   In every run, whatever client and server send, a record handed to the log is lost for
   two reasons only: a number outside binary64 or a value at the limit of depth (or the
   file refuses the line).
   */
  lemma LostRecordsExactly(pf: Codec.Platform, sign: string -> string, eng: Option<Policy>, base64: Wire -> string,
                           say: Reason -> string, cfg: Session.Setup, events: seq<Session.Event>, i: nat,
                           mem: Logger.Memory, session: string, time: string)
    requires Recordable.CountersParse(pf.parse) && pf.parse("-32000").Some? && Recorded.PlainBase64(base64)
    requires i < |Session.Run(GateOf(pf.parse, eng, base64, say), cfg, events).log|
    ensures var p := PayloadOf(Session.Run(GateOf(pf.parse, eng, base64, say), cfg, events).log[i]);
            Logger.Record(Logger.KitOf(pf, sign), mem, session, time, p).Some? <==> Recordable.PayloadFits(pf.parse, p)
  {
    var log := Session.Run(GateOf(pf.parse, eng, base64, say), cfg, events).log;
    SessionWritable(pf.parse, eng, base64, say, cfg, events);
    assert log[i] in log;
    Recordable.RecordExists(pf, sign, mem, session, time, PayloadOf(log[i]));
  }

  // ---------- What completed records hold ----------

  /**
   In every run the record of a completed call holds, as result and error, exactly the members
   of those names of one relayed server line that is a response with a usable id.
   */
  lemma CompletedFromMembers(parse: Reading, eng: Option<Policy>, base64: Wire -> string, say: Reason -> string,
                             cfg: Session.Setup, events: seq<Session.Event>, i: nat)
    requires var s := Session.Run(GateOf(parse, eng, base64, say), cfg, events);
             i < |s.log| && i < |s.origins| && s.origins[i].Completed?
    ensures var s := Session.Run(GateOf(parse, eng, base64, say), cfg, events);
            var w := s.origins[i].w;
            && Relayed(w) in s.client
            && w.Doc? && w.text.Obj? && Valid(w.text) && RequestLaws.IsAnswer(parse, w.text.members)
            && RequestLaws.FromMember(w.text.members, "result", s.log[i].result)
            && RequestLaws.FromMember(w.text.members, "error", s.log[i].error)
  {
    var g := GateOf(parse, eng, base64, say);
    var s := Session.Run(g, cfg, events);
    Session.ExactCorrelation(g, cfg, events);
    var w := s.origins[i].w;
    assert Session.Matches(g, s, s.log[i], s.origins[i].n, w);
    assert g.reply(w) == ReplyOf(parse, w);
    RequestLaws.ReplyExactly(parse, w);
  }

  // ---------- From the session to the file ----------

  /** The attempts that leave a record, in order. */
  function Fitting(fits: Attempt -> bool, attempts: seq<Attempt>): seq<Attempt> {
    if attempts == [] then []
    else
      var n := |attempts| - 1;
      Fitting(fits, attempts[..n]) + (if fits(attempts[n]) then [attempts[n]] else [])
  }

  function FitsWith(parse: Reading): Attempt -> bool {
    a => Recordable.PayloadFits(parse, PayloadOf(a))
  }

  /** A record of this logger's making that says what the attempt said. */
  predicate RecordOf(kit: Logger.Kit, e: Stored, a: Attempt) {
    && kit.env.bytes(e.payload).Some? && Logger.Made(kit, e, kit.env.bytes(e.payload).value)
    && e.payload.kind == "" && e.payload.tool == a.tool && e.payload.decision == a.decision
    && e.payload.args == (if a.args.Empty? then Value(NULL) else a.args)
    && e.payload.result == a.result && e.payload.error == a.error
    && e.payload.contentHash == kit.env.sha(kit.env.content(e.payload))
  }

  predicate RecordsOf(kit: Logger.Kit, es: seq<Stored>, attempts: seq<Attempt>) {
    |es| == |attempts| && forall i | 0 <= i < |es| :: RecordOf(kit, es[i], attempts[i])
  }

  function Written(kit: Logger.Kit, es: seq<Stored>): seq<Chain.Line> {
    seq(|es|, i requires 0 <= i < |es| => Chain.Doc(kit.text(es[i])))
  }

  lemma RecordSays(kit: Logger.Kit, mem: Logger.Memory, session: string, time: string, a: Attempt)
    requires Logger.Trusted(kit) && Logger.Record(kit, mem, session, time, PayloadOf(a)).Some?
    ensures RecordOf(kit, Logger.Record(kit, mem, session, time, PayloadOf(a)).value, a)
  {
    Logger.RecordMade(kit, mem, session, time, PayloadOf(a));
    Logger.CallSays(kit, mem, session, time, a.tool, a.args, a.result, a.error, a.decision);
  }

  /** Wherever the writer stands, an attempt has a record exactly when it fits. */
  ghost predicate FitsExactly(kit: Logger.Kit, fits: Attempt -> bool, attempts: seq<Attempt>) {
    forall a, mem, session, time | a in attempts ::
      Logger.Record(kit, mem, session, time, PayloadOf(a)).Some? <==> fits(a)
  }

  lemma WrittenStep(kit: Logger.Kit, es: seq<Stored>, e: Stored)
    ensures Written(kit, es + [e]) == Written(kit, es) + [Chain.Doc(kit.text(e))]
  {
  }

  /** Handing one attempt to a live logger. */
  method FeedOne(l: Logger.Logger, a: Attempt, time: string, ghost fits: Attempt -> bool) returns (r: Option<Stored>)
    requires l.Valid() && l.open && Logger.Trusted(l.kit)
    requires Logger.Record(l.kit, l.mem, l.session, time, PayloadOf(a)).Some? <==> fits(a)
    modifies l`mem, l.file`lines
    ensures l.Valid() && l.open
    ensures r.Some? <==> fits(a)
    ensures r.Some? ==> RecordOf(l.kit, r.value, a) && l.file.lines == old(l.file.lines) + [Chain.Doc(l.kit.text(r.value))]
    ensures r.None? ==> l.file.lines == old(l.file.lines)
  {
    if Logger.Record(l.kit, l.mem, l.session, time, PayloadOf(a)).Some? {
      RecordSays(l.kit, l.mem, l.session, time, a);
    }
    r := l.Append(a.tool, a.args, a.result, a.error, a.decision, time, true);
  }

  lemma FittingStep(fits: Attempt -> bool, attempts: seq<Attempt>, i: nat)
    requires i < |attempts|
    ensures Fitting(fits, attempts[..i + 1]) ==
            Fitting(fits, attempts[..i]) + (if fits(attempts[i]) then [attempts[i]] else [])
  {
    assert attempts[..i + 1][..i] == attempts[..i];
  }

  /** Handing attempts to a live logger, one after the other, on a file that takes every line. */
  method FeedLog(l: Logger.Logger, attempts: seq<Attempt>, clock: nat -> string, ghost fits: Attempt -> bool)
    returns (stored: seq<Stored>)
    requires l.Valid() && l.open && Logger.Trusted(l.kit) && FitsExactly(l.kit, fits, attempts)
    modifies l`mem, l.file`lines
    ensures l.Valid() && l.open
    ensures RecordsOf(l.kit, stored, Fitting(fits, attempts))
    ensures l.file.lines == old(l.file.lines) + Written(l.kit, stored)
  {
    stored := [];
    ghost var done: seq<Attempt> := [];
    assert l.file.lines == old(l.file.lines) + Written(l.kit, stored);
    for i := 0 to |attempts|
      invariant l.Valid() && l.open
      invariant done == Fitting(fits, attempts[..i]) && RecordsOf(l.kit, stored, done)
      invariant l.file.lines == old(l.file.lines) + Written(l.kit, stored)
    {
      FittingStep(fits, attempts, i);
      assert attempts[i] in attempts;
      var r := FeedOne(l, attempts[i], clock(i), fits);
      if r.Some? {
        WrittenStep(l.kit, stored, r.value);
        stored, done := stored + [r.value], done + [attempts[i]];
      }
    }
    assert attempts[..|attempts|] == attempts;
  }

  lemma SessionFits(pf: Codec.Platform, sign: string -> string, attempts: seq<Attempt>)
    requires Recordable.CountersParse(pf.parse) && forall a | a in attempts :: Writable(a)
    ensures FitsExactly(Logger.KitOf(pf, sign), FitsWith(pf.parse), attempts)
  {
    forall a, mem, session, time | a in attempts
      ensures Logger.Record(Logger.KitOf(pf, sign), mem, session, time, PayloadOf(a)).Some? <==> FitsWith(pf.parse)(a)
    {
      assert Writable(a);
      Recordable.RecordExists(pf, sign, mem, session, time, PayloadOf(a));
    }
  }

  /**
   A whole audited session on a live log: the file grows by exactly one line for each record
   handed over whose values fit, in order and saying what it said, and remains one chain.
   */
  method AuditSession(l: Logger.Logger, pf: Codec.Platform, sign: string -> string, eng: Option<Policy>,
                      base64: Wire -> string, say: Reason -> string, cfg: Session.Setup,
                      events: seq<Session.Event>, clock: nat -> string) returns (stored: seq<Stored>)
    requires l.Valid() && l.open && l.kit == Logger.KitOf(pf, sign) && forall c :: pf.check(c, sign(c))
    requires Recordable.CountersParse(pf.parse) && pf.parse("-32000").Some? && Recorded.PlainBase64(base64)
    modifies l`mem, l.file`lines
    ensures RecordsOf(l.kit, stored, Fitting(FitsWith(pf.parse), Session.Run(GateOf(pf.parse, eng, base64, say), cfg, events).log))
    ensures l.file.lines == old(l.file.lines) + Written(l.kit, stored)
    ensures Chain.IsChain(l.kit.env, Chain.NonBlank(l.file.lines))
  {
    Logger.CodecTrusted(pf, sign);
    SessionWritable(pf.parse, eng, base64, say, cfg, events);
    var log := Session.Run(GateOf(pf.parse, eng, base64, say), cfg, events).log;
    SessionFits(pf, sign, log);
    stored := FeedLog(l, log, clock, FitsWith(pf.parse));
  }

  // ---------- Records of a logger are fixed to the literal ----------

  /** The line was written by this logger. */
  ghost predicate WrittenBy(kit: Logger.Kit, l: Chain.Line) {
    exists e, c :: Logger.Made(kit, e, c) && l == Chain.Doc(kit.text(e))
  }

  /** Such a line is a header, or a call with a commitment. */
  lemma WrittenCommitted(pf: Codec.Platform, sign: string -> string, l: Chain.Line)
    requires WrittenBy(Logger.KitOf(pf, sign), l)
    requires (forall c :: pf.check(c, sign(c))) && (forall s :: pf.sha(s) != "")
    ensures ChainLaws.IsSealed(pf, l)
    ensures ChainLaws.PayloadOf(pf, l).contentHash != "" || ChainLaws.PayloadOf(pf, l).kind == SESSION
  {
    var kit := Logger.KitOf(pf, sign);
    var e, c :| Logger.Made(kit, e, c) && l == Chain.Doc(kit.text(e));
    assert pf.check(c, sign(c));
    Codec.WrittenIsSealed(pf, e, c);
  }

  /**
   The history a logger wrote is fixed by its last hash to the last literal: an accepted log
   with the same last hash holds, at every position, the same fields and the same tokens.
   */
  lemma HistoryToTheLiteral(pf: Codec.Platform, sign: string -> string, a: seq<Chain.Line>, b: seq<Chain.Line>)
    requires (forall c :: pf.check(c, sign(c))) && PayloadLaws.Literals(pf.parse) && ChainLaws.NoCollisions(pf, a, b)
    requires Chain.IsChain(Codec.EnvOf(pf), a) && Chain.IsChain(Codec.EnvOf(pf), b)
    requires forall i | 0 <= i < |a| :: WrittenBy(Logger.KitOf(pf, sign), a[i])
    requires HashChain.Head(Chain.Links(Codec.EnvOf(pf), a)) == HashChain.Head(Chain.Links(Codec.EnvOf(pf), b))
    ensures |a| == |b|
    ensures forall i | 0 <= i < |a| ::
              && ChainLaws.IsSealed(pf, a[i]) && ChainLaws.IsSealed(pf, b[i])
              && EntryLaws.Kept(ChainLaws.PayloadOf(pf, a[i])) == EntryLaws.Kept(ChainLaws.PayloadOf(pf, b[i]))
  {
    ChainLaws.LastHashFixesHistory(pf, a, b);
    forall i | 0 <= i < |a|
      ensures ChainLaws.IsSealed(pf, a[i]) && ChainLaws.IsSealed(pf, b[i])
      ensures EntryLaws.Kept(ChainLaws.PayloadOf(pf, a[i])) == EntryLaws.Kept(ChainLaws.PayloadOf(pf, b[i]))
    {
      assert ChainLaws.SameRecord(pf, a[i], b[i]);
      WrittenCommitted(pf, sign, a[i]);
    }
  }
}
