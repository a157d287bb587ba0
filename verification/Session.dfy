/**
 One proxy session, audited or not: the request goroutine, the response goroutine and the
 human, interleaved at every point where the real ones can be.
 */
module Session {
  import opened Options
  import opened Entry
  import opened Request
  import opened Gateway
  import Pending

  /** Where the request goroutine is. */
  datatype Asker =
    | Reading
    | Waiting(w: Wire, width: nat)                          // for the human
    | Deciding(w: Wire, width: nat, answer: Option<Outcome>) // before the pending table is consulted
    | Forwarding(w: Wire)
    | Answering(out: Out, attempt: Attempt)
    | Noting(attempt: Attempt)
    | Stopped

  /** Where the response goroutine is. */
  datatype Observer =
    | Listening
    | Observing(w: Wire)
    | Completing(attempt: Attempt, n: nat, w: Wire)

  /** A line cleared for forwarding and what the human had said. */
  datatype Cleared = Cleared(w: Wire, answer: Option<Outcome>)

  /** A reservation ever made, numbered by its place in the history. */
  datatype Reservation = Reservation(key: string, call: Pending.Call)

  /** What a log entry is about: a refused message, or reservation n answered by line w. */
  datatype Origin = Refused | Completed(n: nat, w: Wire)

  datatype State = State(
    table: Pending.Table, client: seq<Out>, closed: bool, sent: seq<Wire>,
    log: seq<Attempt>, asker: Asker, observer: Observer,
    // bookkeeping the program does not have
    taken: nat, cleared: seq<Cleared>, refused: nat,
    history: seq<Reservation>, serial: map<string, nat>, origins: seq<Origin>)

  datatype Event =
    | TakeLine(w: Wire, width: nat)
    | HumanAnswers(answer: Outcome)
    | Decides
    | Forwards(ok: bool)
    | Answers
    | Notes
    | Relays(w: Wire)
    | Observes
    | Completes
    | ClosesClient

  /** Whether an approver is configured, and whether there is a log. */
  datatype Setup = Setup(approver: bool, auditing: bool)

  const START := State(Pending.EMPTY, [], false, [], [], Reading, Listening, 0, [], 0, [], map[], [])

  function NewCall(g: Gate, w: Wire, width: nat): Option<Reservation> {
    match g.judge(w)
    case Other(id) => Some(Reservation(g.key(id), Pending.CallOf(g.key(id), "", Empty, 0, "")))
    case Call(id, tool, args, verdict) =>
      Some(Reservation(g.key(id), Pending.CallOf(g.key(id), tool, args, width, if verdict.Allow? then "allow" else "approved")))
    case _ => None
  }

  function Decide(g: Gate, auditing: bool, s: State, w: Wire, width: nat, answer: Option<Outcome>): State {
    var e := Handled(g, auditing, s.table, w, width, answer);
    if !e.forward then
      if |e.outs| != 1 || |e.attempts| != 1 then s
      else s.(asker := Answering(e.outs[0], e.attempts[0]), refused := s.refused + 1)
    else
      var r := NewCall(g, w, width);
      var t := s.(asker := Forwarding(w), table := e.table, cleared := s.cleared + [Cleared(w, answer)]);
      if r.None? || !auditing then t
      else t.(history := s.history + [r.value], serial := s.serial[r.value.key := |s.history|])
  }

  function Observe(g: Gate, s: State, w: Wire): State {
    var done := Completion(g, s.table, w);
    var t := s.(table := Settled(g, s.table, w));
    if g.reply(w).None? || g.reply(w).value.key !in s.serial then t.(observer := Listening)
    else
      var key := g.reply(w).value.key;
      t.(serial := s.serial - {key},
         observer := if done == [] then Listening else Completing(done[0], s.serial[key], w))
  }

  /** One atomic step; an event that cannot happen changes nothing. */
  function Step(g: Gate, cfg: Setup, s: State, e: Event): State {
    match e
    case TakeLine(w, width) =>
      if !s.asker.Reading? then s
      else if cfg.approver && g.judge(w).Call? && g.judge(w).verdict.RequireApproval?
      then s.(asker := Waiting(w, width), taken := s.taken + 1)
      else s.(asker := Deciding(w, width, None), taken := s.taken + 1)
    case HumanAnswers(answer) =>
      if !s.asker.Waiting? then s else s.(asker := Deciding(s.asker.w, s.asker.width, Some(answer)))
    case Decides =>
      if !s.asker.Deciding? then s else Decide(g, cfg.auditing, s, s.asker.w, s.asker.width, s.asker.answer)
    case Forwards(ok) =>
      if !s.asker.Forwarding? then s
      else if ok then s.(sent := s.sent + [s.asker.w], asker := Reading)
      else s.(asker := Stopped)
    case Answers =>
      if !s.asker.Answering? then s
      else s.(client := if s.closed then s.client else s.client + [s.asker.out],
              asker := if cfg.auditing then Noting(s.asker.attempt) else Reading)
    case Notes =>
      if !s.asker.Noting? then s
      else s.(log := s.log + [s.asker.attempt], origins := s.origins + [Refused], asker := Reading)
    case Relays(w) =>
      if !s.observer.Listening? || s.closed then s
      else s.(client := s.client + [Relayed(w)], observer := if cfg.auditing then Observing(w) else Listening)
    case Observes => if !s.observer.Observing? then s else Observe(g, s, s.observer.w)
    case Completes =>
      if !s.observer.Completing? then s
      else s.(log := s.log + [s.observer.attempt], origins := s.origins + [Completed(s.observer.n, s.observer.w)],
              observer := Listening)
    case ClosesClient => s.(closed := true)
  }

  function Run(g: Gate, cfg: Setup, events: seq<Event>): State {
    if events == [] then START
    else Step(g, cfg, Run(g, cfg, events[..|events| - 1]), events[|events| - 1])
  }

  // ---------- Correlation ----------

  /** Reservations are the pending table, and each is its own entry of the history. */
  predicate Numbered(s: State) {
    && s.serial.Keys == s.table.calls.Keys
    && forall k | k in s.serial ::
         s.serial[k] < |s.history| && s.history[s.serial[k]] == Reservation(k, s.table.calls[k])
  }

  /** The record for reservation n answered by line w. */
  predicate Matches(g: Gate, s: State, a: Attempt, n: nat, w: Wire) {
    && n < |s.history| && g.reply(w).Some? && g.reply(w).value.key == s.history[n].key
    && s.history[n].call.tool != ""
    && a == Attempt(s.history[n].call.tool, s.history[n].call.args, g.reply(w).value.result, g.reply(w).value.error,
                    s.history[n].call.decision)
    && Relayed(w) in s.client
  }

  predicate Outstanding(s: State, n: nat) { exists k | k in s.serial :: s.serial[k] == n }

  predicate Logged(s: State, n: nat) {
    exists i | 0 <= i < |s.origins| :: s.origins[i].Completed? && s.origins[i].n == n
  }

  predicate Correlated(g: Gate, s: State) {
    && Numbered(s)
    && |s.origins| == |s.log|
    && (forall i | 0 <= i < |s.log| && s.origins[i].Completed? ::
          Matches(g, s, s.log[i], s.origins[i].n, s.origins[i].w) && !Outstanding(s, s.origins[i].n))
    && (forall i, j | 0 <= i < j < |s.log| && s.origins[i].Completed? && s.origins[j].Completed? ::
          s.origins[i].n != s.origins[j].n)
    && (s.observer.Observing? ==> Relayed(s.observer.w) in s.client)
    && (s.observer.Completing? ==>
          && Matches(g, s, s.observer.attempt, s.observer.n, s.observer.w)
          && !Outstanding(s, s.observer.n) && !Logged(s, s.observer.n))
  }

  /** Steps that only add to the client stream or move the request goroutine. */
  predicate Untouched(s: State, t: State) {
    && t.history == s.history && t.serial == s.serial && t.table == s.table
    && t.log == s.log && t.origins == s.origins && s.client <= t.client
  }

  lemma UntouchedCorrelated(g: Gate, s: State, t: State)
    requires Correlated(g, s) && Untouched(s, t) && t.observer == s.observer
    ensures Correlated(g, t)
  {
    assert forall o | o in s.client :: o in t.client;
  }

  lemma RelayCorrelated(g: Gate, s: State, w: Wire, auditing: bool)
    requires Correlated(g, s)
    ensures Correlated(g, s.(client := s.client + [Relayed(w)], observer := if auditing then Observing(w) else Listening))
  {
  }

  lemma NoteCorrelated(g: Gate, s: State, a: Attempt)
    requires Correlated(g, s)
    ensures Correlated(g, s.(log := s.log + [a], origins := s.origins + [Refused], asker := Reading))
  {
    var t := s.(log := s.log + [a], origins := s.origins + [Refused], asker := Reading);
    forall n: nat | Logged(t, n) ensures Logged(s, n) {
      var i :| 0 <= i < |t.origins| && t.origins[i].Completed? && t.origins[i].n == n;
      assert s.origins[i] == t.origins[i];
    }
  }

  lemma CompleteCorrelated(g: Gate, s: State)
    requires Correlated(g, s) && s.observer.Completing?
    ensures Correlated(g, s.(log := s.log + [s.observer.attempt],
                             origins := s.origins + [Completed(s.observer.n, s.observer.w)], observer := Listening))
  {
    forall i | 0 <= i < |s.origins| && s.origins[i].Completed? ensures s.origins[i].n != s.observer.n {
      assert !Logged(s, s.observer.n);
    }
  }

  lemma ObserveCorrelated(g: Gate, s: State, w: Wire)
    requires Correlated(g, s) && s.observer == Observing(w)
    ensures Correlated(g, Observe(g, s, w))
  {
    var t := Observe(g, s, w);
    if g.reply(w).Some? && g.reply(w).value.key in s.serial {
      var key := g.reply(w).value.key;
      var n := s.serial[key];
      forall k | k in t.serial ensures t.serial[k] != n {
        assert s.history[s.serial[k]].key == k;
      }
      forall m: nat | Outstanding(t, m) ensures Outstanding(s, m) {
        var k :| k in t.serial && t.serial[k] == m;
        assert k in s.serial && s.serial[k] == m;
      }
      assert Outstanding(s, n);
      forall i | 0 <= i < |s.log| && s.origins[i].Completed? ensures s.origins[i].n != n {
        assert !Outstanding(s, s.origins[i].n);
      }
    }
  }

  /** Clearing a line reserves a free key, with the call's own tool, arguments and decision. */
  lemma ForwardReserves(g: Gate, t: Pending.Table, w: Wire, width: nat, answer: Option<Outcome>)
    requires Handled(g, true, t, w, width, answer).forward
    ensures var r := NewCall(g, w, width);
            Handled(g, true, t, w, width, answer).table ==
            if r.None? then t else Pending.Reserved(t, r.value.key, r.value.call)
    ensures var r := NewCall(g, w, width);
            r.Some? ==> r.value.key !in t.calls && Pending.Refuses(t, r.value.key, r.value.call.size).None?
  {
  }

  lemma ReserveCorrelated(g: Gate, s: State, t: State, r: Reservation)
    requires Correlated(g, s) && r.key !in s.table.calls
    requires t.table == Pending.Reserved(s.table, r.key, r.call) && t.history == s.history + [r]
    requires t.serial == s.serial[r.key := |s.history|]
    requires t.log == s.log && t.origins == s.origins && t.client == s.client && t.observer == s.observer
    ensures Correlated(g, t)
  {
    forall m: nat | Outstanding(t, m) && m < |s.history| ensures Outstanding(s, m) {
      var k :| k in t.serial && t.serial[k] == m;
      assert k in s.serial && s.serial[k] == m;
    }
    assert forall n: nat :: Logged(t, n) <==> Logged(s, n);
    assert forall m | 0 <= m < |s.history| :: t.history[m] == s.history[m];
  }

  /** Without a log no line touches the reservations. */
  lemma UnauditedTable(g: Gate, t: Pending.Table, w: Wire, width: nat, answer: Option<Outcome>)
    ensures Handled(g, false, t, w, width, answer).table == t
  {
  }

  lemma DecideCorrelated(g: Gate, auditing: bool, s: State, w: Wire, width: nat, answer: Option<Outcome>)
    requires Correlated(g, s)
    ensures Correlated(g, Decide(g, auditing, s, w, width, answer))
  {
    var t := Decide(g, auditing, s, w, width, answer);
    if auditing && Handled(g, true, s.table, w, width, answer).forward {
      ForwardReserves(g, s.table, w, width, answer);
      var r := NewCall(g, w, width);
      if r.Some? {
        ReserveCorrelated(g, s, t, r.value);
      } else {
        UntouchedCorrelated(g, s, t);
      }
    } else {
      if !auditing { UnauditedTable(g, s.table, w, width, answer); }
      UntouchedCorrelated(g, s, t);
    }
  }

  lemma StepCorrelated(g: Gate, cfg: Setup, s: State, e: Event)
    requires Correlated(g, s)
    ensures Correlated(g, Step(g, cfg, s, e))
  {
    var t := Step(g, cfg, s, e);
    match e
    case Decides => if s.asker.Deciding? { DecideCorrelated(g, cfg.auditing, s, s.asker.w, s.asker.width, s.asker.answer); }
    case Notes => if s.asker.Noting? { NoteCorrelated(g, s, s.asker.attempt); }
    case Relays(w) => RelayCorrelated(g, s, w, cfg.auditing);
    case Observes => if s.observer.Observing? { ObserveCorrelated(g, s, s.observer.w); }
    case Completes => if s.observer.Completing? { CompleteCorrelated(g, s); }
    case _ => UntouchedCorrelated(g, s, t);
  }

  lemma {:induction false} RunCorrelated(g: Gate, cfg: Setup, events: seq<Event>)
    ensures Correlated(g, Run(g, cfg, events))
  {
    if events != [] {
      var n := |events| - 1;
      RunCorrelated(g, cfg, events[..n]);
      StepCorrelated(g, cfg, Run(g, cfg, events[..n]), events[n]);
    }
  }

  // ---------- Accounting ----------

  predicate Allowing(a: Attempt) { a.decision in {"allow", "approved"} }

  function CountAllowed(log: seq<Attempt>): nat {
    if log == [] then 0
    else CountAllowed(log[..|log| - 1]) + (if Allowing(log[|log| - 1]) then 1 else 0)
  }

  function CountRefused(log: seq<Attempt>): nat {
    if log == [] then 0
    else CountRefused(log[..|log| - 1]) + (if Gateway.Refusing(log[|log| - 1].decision) then 1 else 0)
  }

  function CountErrors(client: seq<Out>): nat {
    if client == [] then 0
    else CountErrors(client[..|client| - 1]) + (if client[|client| - 1].Relayed? then 0 else 1)
  }

  function CountCalls(g: Gate, lines: seq<Cleared>): nat {
    if lines == [] then 0
    else CountCalls(g, lines[..|lines| - 1]) + (if g.judge(lines[|lines| - 1].w).Call? then 1 else 0)
  }

  /** Outstanding reservations that will be recorded. */
  function Tools(t: Pending.Table): set<string> {
    set k | k in t.calls && t.calls[k].tool != ""
  }

  /** Judged calls name their tool. */
  ghost predicate Named(g: Gate) {
    forall w :: g.judge(w).Call? ==> g.judge(w).tool != ""
  }

  /** Cleared means: judged harmless, or a call the policy allows or the human approved. */
  predicate Permitted(g: Gate, c: Cleared) {
    && Clears(g.judge(c.w))
    && (g.judge(c.w).Call? ==>
          g.judge(c.w).verdict.Allow? || (g.judge(c.w).verdict.RequireApproval? && c.answer == Some(Approved)))
  }

  function Lines(cs: seq<Cleared>): seq<Wire> {
    seq(|cs|, i requires 0 <= i < |cs| => cs[i].w)
  }

  predicate AskerOk(s: State) {
    && (s.asker.Answering? ==> !s.asker.out.Relayed? && Gateway.Refusing(s.asker.attempt.decision))
    && (s.asker.Noting? ==> Gateway.Refusing(s.asker.attempt.decision))
    && (s.observer.Completing? ==> Allowing(s.observer.attempt))
  }

  /** Sent lines are the cleared ones, in order; one may still be on its way or have failed. */
  predicate Sent(s: State) {
    match s.asker
    case Forwarding(w) => Lines(s.cleared) == s.sent + [w]
    case Stopped => s.cleared != [] && s.sent == Lines(s.cleared)[..|s.cleared| - 1]
    case _ => s.sent == Lines(s.cleared)
  }

  // Work in progress, as zero or one.

  function Undecided(s: State): nat { if s.asker.Waiting? || s.asker.Deciding? then 1 else 0 }

  function Unanswered(s: State): nat { if s.asker.Answering? then 1 else 0 }

  function Unrecorded(s: State): nat { if s.asker.Answering? || s.asker.Noting? then 1 else 0 }

  function Uncompleted(s: State): nat { if s.observer.Completing? then 1 else 0 }

  /** The log's side of the books; without auditing there is none. */
  predicate LogBalance(g: Gate, auditing: bool, s: State) {
    if auditing then
      && CountAllowed(s.log) + |Tools(s.table)| + Uncompleted(s) == CountCalls(g, s.cleared)
      && CountRefused(s.log) + Unrecorded(s) == s.refused
    else s.log == [] && s.table == Pending.EMPTY && s.observer.Listening? && !s.asker.Noting?
  }

  /** The client's side: every refusal answered, unless the stream was closed meanwhile. */
  predicate ClientBalance(s: State) {
    && CountErrors(s.client) + Unanswered(s) <= s.refused
    && (!s.closed ==> CountErrors(s.client) + Unanswered(s) == s.refused)
  }

  ghost predicate Accounted(g: Gate, auditing: bool, s: State) {
    && Pending.Sound(s.table) && GoodTable(s.table)
    && AskerOk(s) && Sent(s)
    && s.taken == |s.cleared| + s.refused + Undecided(s)
    && (forall c | c in s.cleared :: Permitted(g, c))
    && LogBalance(g, auditing, s) && ClientBalance(s)
  }

  lemma LogStep(log: seq<Attempt>, a: Attempt)
    ensures CountAllowed(log + [a]) == CountAllowed(log) + (if Allowing(a) then 1 else 0)
    ensures CountRefused(log + [a]) == CountRefused(log) + (if Gateway.Refusing(a.decision) then 1 else 0)
  {
    assert (log + [a])[..|log|] == log;
  }

  lemma ClientStep(client: seq<Out>, o: Out)
    ensures CountErrors(client + [o]) == CountErrors(client) + (if o.Relayed? then 0 else 1)
  {
    assert (client + [o])[..|client|] == client;
  }

  lemma ClearedStep(g: Gate, cs: seq<Cleared>, c: Cleared)
    ensures CountCalls(g, cs + [c]) == CountCalls(g, cs) + (if g.judge(c.w).Call? then 1 else 0)
    ensures Lines(cs + [c]) == Lines(cs) + [c.w]
  {
    assert (cs + [c])[..|cs|] == cs;
  }

  lemma ToolsReserved(t: Pending.Table, key: string, c: Pending.Call)
    requires key !in t.calls
    ensures |Tools(Pending.Reserved(t, key, c))| == |Tools(t)| + (if c.tool != "" then 1 else 0)
  {
    assert Tools(Pending.Reserved(t, key, c)) == if c.tool != "" then Tools(t) + {key} else Tools(t);
  }

  lemma ToolsReleased(t: Pending.Table, key: string)
    ensures |Tools(Pending.Released(t, key))|
         == |Tools(t)| - (if key in t.calls && t.calls[key].tool != "" then 1 else 0)
  {
    assert Tools(Pending.Released(t, key)) == Tools(t) - {key};
    if key in t.calls && t.calls[key].tool != "" { assert key in Tools(t); }
  }

  /** A response completes one record exactly when it releases an audited reservation. */
  lemma CompletionFacts(g: Gate, t: Pending.Table, w: Wire)
    requires g.reply(w).Some? && GoodTable(t)
    ensures var key := g.reply(w).value.key;
            if key in t.calls && t.calls[key].tool != "" then |Completion(g, t, w)| == 1 && Allowing(Completion(g, t, w)[0])
            else Completion(g, t, w) == []
  {
    var key := g.reply(w).value.key;
    if key in t.calls { assert GoodCall(t.calls[key]); }
  }

  lemma ReleasedGood(t: Pending.Table, key: string)
    requires Pending.Sound(t) && GoodTable(t)
    ensures Pending.Sound(Pending.Released(t, key)) && GoodTable(Pending.Released(t, key))
  {
    Pending.ReleasedSound(t, key);
  }

  /** Replacing the table and the observer keeps the books when the numbers still add up. */
  lemma TableAccounted(g: Gate, s: State, t: State)
    requires Accounted(g, true, s) && !s.observer.Completing?
    requires t == s.(table := t.table, serial := t.serial, observer := t.observer)
    requires Pending.Sound(t.table) && GoodTable(t.table)
    requires t.observer.Completing? ==> Allowing(t.observer.attempt)
    requires |Tools(t.table)| + Uncompleted(t) == |Tools(s.table)|
    ensures Accounted(g, true, t)
  {
  }

  lemma ObserveAccounted(g: Gate, s: State, w: Wire)
    requires Accounted(g, true, s) && Numbered(s) && s.observer == Observing(w)
    ensures Accounted(g, true, Observe(g, s, w))
  {
    if g.reply(w).Some? {
      var key := g.reply(w).value.key;
      ToolsReleased(s.table, key);
      ReleasedGood(s.table, key);
      CompletionFacts(g, s.table, w);
    }
    TableAccounted(g, s, Observe(g, s, w));
  }

  lemma RefuseAccounted(g: Gate, auditing: bool, s: State, w: Wire, width: nat, answer: Option<Outcome>)
    requires Accounted(g, auditing, s) && s.asker == Deciding(w, width, answer)
    requires !Handled(g, auditing, s.table, w, width, answer).forward
    ensures Accounted(g, auditing, Decide(g, auditing, s, w, width, answer))
    ensures Decide(g, auditing, s, w, width, answer).asker.Answering?
  {
    AnsweredOrForwarded(g, auditing, s.table, w, width, answer);
  }

  /** The line joins the cleared ones and its reservation, if any, the table. */
  lemma JoinAccounted(g: Gate, auditing: bool, s: State, t: State, c: Cleared)
    requires Accounted(g, auditing, s) && s.asker.Deciding? && Permitted(g, c)
    requires t == s.(asker := Forwarding(c.w), cleared := s.cleared + [c], table := t.table, history := t.history,
                     serial := t.serial)
    requires Pending.Sound(t.table) && GoodTable(t.table)
    requires if auditing then |Tools(t.table)| == |Tools(s.table)| + (if g.judge(c.w).Call? then 1 else 0)
             else t.table == s.table
    ensures Accounted(g, auditing, t)
  {
    ClearedStep(g, s.cleared, c);
    assert forall x | x in s.cleared + [c] :: Permitted(g, x);
  }

  lemma ForwardAccounted(g: Gate, auditing: bool, s: State, w: Wire, width: nat, answer: Option<Outcome>)
    requires Accounted(g, auditing, s) && Named(g) && s.asker == Deciding(w, width, answer)
    requires Handled(g, auditing, s.table, w, width, answer).forward
    ensures Accounted(g, auditing, Decide(g, auditing, s, w, width, answer))
  {
    OnlyCleared(g, auditing, s.table, w, width, answer);
    AnsweredOrForwarded(g, auditing, s.table, w, width, answer);
    HandledShape(g, auditing, s.table, w, width, answer);
    if auditing {
      ForwardReserves(g, s.table, w, width, answer);
      var r := NewCall(g, w, width);
      if r.Some? { ToolsReserved(s.table, r.value.key, r.value.call); }
    } else {
      UnauditedTable(g, s.table, w, width, answer);
    }
    JoinAccounted(g, auditing, s, Decide(g, auditing, s, w, width, answer), Cleared(w, answer));
  }

  lemma DecideAccounted(g: Gate, auditing: bool, s: State, w: Wire, width: nat, answer: Option<Outcome>)
    requires Accounted(g, auditing, s) && Named(g) && s.asker == Deciding(w, width, answer)
    ensures Accounted(g, auditing, Decide(g, auditing, s, w, width, answer))
  {
    if Handled(g, auditing, s.table, w, width, answer).forward {
      ForwardAccounted(g, auditing, s, w, width, answer);
    } else {
      RefuseAccounted(g, auditing, s, w, width, answer);
    }
  }

  lemma ForwardedAccounted(g: Gate, auditing: bool, s: State, ok: bool)
    requires Accounted(g, auditing, s) && s.asker.Forwarding?
    ensures Accounted(g, auditing,
                      if ok then s.(sent := s.sent + [s.asker.w], asker := Reading) else s.(asker := Stopped))
  {
    assert (s.sent + [s.asker.w])[..|s.sent|] == s.sent;
  }

  lemma AnsweredAccounted(g: Gate, auditing: bool, s: State)
    requires Accounted(g, auditing, s) && s.asker.Answering?
    ensures Accounted(g, auditing, s.(client := if s.closed then s.client else s.client + [s.asker.out],
                                      asker := if auditing then Noting(s.asker.attempt) else Reading))
  {
    ClientStep(s.client, s.asker.out);
  }

  lemma NotedAccounted(g: Gate, auditing: bool, s: State)
    requires Accounted(g, auditing, s) && s.asker.Noting?
    ensures Accounted(g, auditing, s.(log := s.log + [s.asker.attempt], origins := s.origins + [Refused], asker := Reading))
  {
    LogStep(s.log, s.asker.attempt);
  }

  lemma RelayAccounted(g: Gate, auditing: bool, s: State, w: Wire)
    requires Accounted(g, auditing, s) && s.observer.Listening?
    ensures Accounted(g, auditing, s.(client := s.client + [Relayed(w)],
                                      observer := if auditing then Observing(w) else Listening))
  {
    ClientStep(s.client, Relayed(w));
  }

  lemma CompletedAccounted(g: Gate, auditing: bool, s: State)
    requires Accounted(g, auditing, s) && s.observer.Completing?
    ensures Accounted(g, auditing, s.(log := s.log + [s.observer.attempt],
                            origins := s.origins + [Completed(s.observer.n, s.observer.w)], observer := Listening))
  {
    LogStep(s.log, s.observer.attempt);
  }

  lemma TakeAccounted(g: Gate, auditing: bool, s: State, asker: Asker)
    requires Accounted(g, auditing, s) && s.asker.Reading? && (asker.Waiting? || asker.Deciding?)
    ensures Accounted(g, auditing, s.(asker := asker, taken := s.taken + 1))
  {
  }

  lemma HumanAccounted(g: Gate, auditing: bool, s: State, answer: Outcome)
    requires Accounted(g, auditing, s) && s.asker.Waiting?
    ensures Accounted(g, auditing, s.(asker := Deciding(s.asker.w, s.asker.width, Some(answer))))
  {
  }

  lemma CloseAccounted(g: Gate, auditing: bool, s: State)
    requires Accounted(g, auditing, s)
    ensures Accounted(g, auditing, s.(closed := true))
  {
  }

  lemma AskerAccounted(g: Gate, cfg: Setup, s: State, e: Event)
    requires Accounted(g, cfg.auditing, s) && Named(g)
    requires e.TakeLine? || e.HumanAnswers? || e.Decides? || e.Forwards?
    ensures Accounted(g, cfg.auditing, Step(g, cfg, s, e))
  {
    var t := Step(g, cfg, s, e);
    match e
    case TakeLine(_, _) => if t != s { TakeAccounted(g, cfg.auditing, s, t.asker); }
    case HumanAnswers(answer) => if s.asker.Waiting? { HumanAccounted(g, cfg.auditing, s, answer); }
    case Decides =>
      if s.asker.Deciding? { DecideAccounted(g, cfg.auditing, s, s.asker.w, s.asker.width, s.asker.answer); }
    case Forwards(ok) => if s.asker.Forwarding? { ForwardedAccounted(g, cfg.auditing, s, ok); }
  }

  lemma RefusalAccounted(g: Gate, cfg: Setup, s: State, e: Event)
    requires Accounted(g, cfg.auditing, s) && (e.Answers? || e.Notes? || e.ClosesClient?)
    ensures Accounted(g, cfg.auditing, Step(g, cfg, s, e))
  {
    match e
    case Answers => if s.asker.Answering? { AnsweredAccounted(g, cfg.auditing, s); }
    case Notes => if s.asker.Noting? { NotedAccounted(g, cfg.auditing, s); }
    case ClosesClient => CloseAccounted(g, cfg.auditing, s);
  }

  lemma ObserverAccounted(g: Gate, cfg: Setup, s: State, e: Event)
    requires Accounted(g, cfg.auditing, s) && Numbered(s) && (e.Relays? || e.Observes? || e.Completes?)
    ensures Accounted(g, cfg.auditing, Step(g, cfg, s, e))
  {
    match e
    case Relays(w) => if Step(g, cfg, s, e) != s { RelayAccounted(g, cfg.auditing, s, w); }
    case Observes => if s.observer.Observing? { ObserveAccounted(g, s, s.observer.w); }
    case Completes => if s.observer.Completing? { CompletedAccounted(g, cfg.auditing, s); }
  }

  lemma StepAccounted(g: Gate, cfg: Setup, s: State, e: Event)
    requires Accounted(g, cfg.auditing, s) && Numbered(s) && Named(g)
    ensures Accounted(g, cfg.auditing, Step(g, cfg, s, e))
  {
    if e.TakeLine? || e.HumanAnswers? || e.Decides? || e.Forwards? {
      AskerAccounted(g, cfg, s, e);
    } else if e.Answers? || e.Notes? || e.ClosesClient? {
      RefusalAccounted(g, cfg, s, e);
    } else {
      ObserverAccounted(g, cfg, s, e);
    }
  }

  lemma {:induction false} RunAccounted(g: Gate, cfg: Setup, events: seq<Event>)
    requires Named(g)
    ensures Accounted(g, cfg.auditing, Run(g, cfg, events))
  {
    if events != [] {
      var n := |events| - 1;
      RunAccounted(g, cfg, events[..n]);
      RunCorrelated(g, cfg, events[..n]);
      StepAccounted(g, cfg, Run(g, cfg, events[..n]), events[n]);
    }
  }

  // ---------- What holds of every record ----------

  predicate AllFine(fine: Pending.Call -> bool, t: Pending.Table) {
    forall k | k in t.calls :: fine(t.calls[k])
  }

  predicate AllOk(ok: Attempt -> bool, attempts: seq<Attempt>) {
    forall a | a in attempts :: ok(a)
  }

  /** Handling any line makes only ok attempts and fine reservations out of fine ones. */
  ghost predicate Steady(g: Gate, fine: Pending.Call -> bool, ok: Attempt -> bool) {
    && (forall auditing, t: Pending.Table, w, width: nat, answer | AllFine(fine, t) ::
          var e := Handled(g, auditing, t, w, width, answer); AllOk(ok, e.attempts) && AllFine(fine, e.table))
    && (forall t: Pending.Table, w | AllFine(fine, t) :: AllOk(ok, Completion(g, t, w)))
  }

  predicate Clean(fine: Pending.Call -> bool, ok: Attempt -> bool, s: State) {
    && AllFine(fine, s.table) && AllOk(ok, s.log)
    && (s.asker.Answering? ==> ok(s.asker.attempt)) && (s.asker.Noting? ==> ok(s.asker.attempt))
    && (s.observer.Completing? ==> ok(s.observer.attempt))
  }

  lemma DecideClean(g: Gate, auditing: bool, fine: Pending.Call -> bool, ok: Attempt -> bool, s: State,
                    w: Wire, width: nat, answer: Option<Outcome>)
    requires Steady(g, fine, ok) && Clean(fine, ok, s)
    ensures Clean(fine, ok, Decide(g, auditing, s, w, width, answer))
  {
    var e := Handled(g, auditing, s.table, w, width, answer);
    assert AllOk(ok, e.attempts) && AllFine(fine, e.table);
    if |e.attempts| == 1 { assert e.attempts[0] in e.attempts; }
  }

  lemma ObserveClean(g: Gate, fine: Pending.Call -> bool, ok: Attempt -> bool, s: State, w: Wire)
    requires Steady(g, fine, ok) && Clean(fine, ok, s)
    ensures Clean(fine, ok, Observe(g, s, w))
  {
    var done := Completion(g, s.table, w);
    assert AllOk(ok, done);
    if done != [] { assert done[0] in done; }
  }

  lemma StepClean(g: Gate, cfg: Setup, fine: Pending.Call -> bool, ok: Attempt -> bool, s: State, e: Event)
    requires Steady(g, fine, ok) && Clean(fine, ok, s)
    ensures Clean(fine, ok, Step(g, cfg, s, e))
  {
    match e
    case Decides =>
      if s.asker.Deciding? { DecideClean(g, cfg.auditing, fine, ok, s, s.asker.w, s.asker.width, s.asker.answer); }
    case Observes => if s.observer.Observing? { ObserveClean(g, fine, ok, s, s.observer.w); }
    case _ =>
  }

  /** In every run every record handed to the log is ok. */
  lemma {:induction false} EveryRecordOk(g: Gate, cfg: Setup, fine: Pending.Call -> bool, ok: Attempt -> bool,
                                         events: seq<Event>)
    requires Steady(g, fine, ok)
    ensures Clean(fine, ok, Run(g, cfg, events))
  {
    if events != [] {
      var n := |events| - 1;
      EveryRecordOk(g, cfg, fine, ok, events[..n]);
      StepClean(g, cfg, fine, ok, Run(g, cfg, events[..n]), events[n]);
    }
  }

  // ---------- The main results ----------

  /**
   Correlation in every interleaving: each record of a completed call carries the tool,
   arguments and decision of one reservation, answered by a relayed server line of that
   reservation's id; no reservation is recorded twice, and none while still outstanding.
   */
  lemma ExactCorrelation(g: Gate, cfg: Setup, events: seq<Event>)
    ensures var s := Run(g, cfg, events);
            && |s.origins| == |s.log|
            && (forall i | 0 <= i < |s.log| && s.origins[i].Completed? ::
                  Matches(g, s, s.log[i], s.origins[i].n, s.origins[i].w) && !Outstanding(s, s.origins[i].n))
            && (forall i, j | 0 <= i < j < |s.log| && s.origins[i].Completed? && s.origins[j].Completed? ::
                  s.origins[i].n != s.origins[j].n)
  {
    RunCorrelated(g, cfg, events);
  }

  /**
   The books balance at every moment, what is in progress counted in: every line taken is
   cleared, refused or undecided; cleared lines are sent in order, one of them perhaps on its
   way or lost to a failed write that ended the session; with a log, records of allowed calls
   and outstanding calls make up the cleared ones, and records and answers of refusals the
   refused ones.
   */
  lemma BooksBalance(g: Gate, cfg: Setup, events: seq<Event>)
    requires Named(g)
    ensures var s := Run(g, cfg, events);
            && s.taken == |s.cleared| + s.refused + Undecided(s)
            && Sent(s) && LogBalance(g, cfg.auditing, s) && ClientBalance(s)
  {
    RunAccounted(g, cfg, events);
  }

  /** At every moment, with a log or without, what has been sent was permitted, in the order it was cleared. */
  lemma SentWasPermitted(g: Gate, cfg: Setup, events: seq<Event>)
    requires Named(g)
    ensures var s := Run(g, cfg, events);
            && s.sent <= Lines(s.cleared)
            && (forall c | c in s.cleared :: Permitted(g, c))
            && Pending.Sound(s.table)
  {
    RunAccounted(g, cfg, events);
  }
}
