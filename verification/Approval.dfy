/** The approval server: requests waiting, clicks arriving, timers and shutdown, in any order. */
module Approval {
  import opened Options

  datatype Answer = Approve | Reject

  /** How a request stopped waiting: by a click, or by the timer or shutdown. */
  datatype Reason = ByClick(click: nat) | ByTimeout

  /** A Request between registration and return: waiting, chosen but still listed, returned. */
  datatype Stage = Waiting | Chosen(why: Reason) | Returned(why: Reason)

  /** One call of Request; channel is its capacity-1 channel, holding a click's number. */
  datatype Call = Call(id: string, since: nat, channel: Option<nat>, stage: Stage)

  /** One decision that passed the token and action checks; target is the request it found. */
  datatype Click = Click(id: string, answer: Answer, time: nat, target: Option<nat>, sent: bool)

  datatype State = State(pendings: map<string, nat>, calls: seq<Call>, clicks: seq<Click>, closed: bool)

  datatype Event =
    | Register(id: string)
    | Submit(token: string, id: string, action: string)
    | Send(click: nat)
    | ReceiveClick(call: nat)
    | TimerFires(call: nat)
    | SeeClosed(call: nat)
    | Unregister(call: nat)
    | Close

  const START := State(map[], [], [], false)

  /** The gate of handleDecision: the page's token and a known action. */
  function Decision(secret: string, token: string, action: string): Option<Answer> {
    if token != secret then None
    else if action == "approve" then Some(Approve)
    else if action == "reject" then Some(Reject)
    else None
  }

  function SetCall(s: State, h: nat, c: Call): State
    requires h < |s.calls|
  {
    s.(calls := s.calls[h := c])
  }

  /** resolve can put its value into the channel: there is room for it. */
  predicate CanSend(s: State, k: nat)
    requires k < |s.clicks|
  {
    && s.clicks[k].target.Some? && !s.clicks[k].sent
    && s.clicks[k].target.value < |s.calls| && s.calls[s.clicks[k].target.value].channel.None?
  }

  /** One atomic step at time now; a step that cannot happen changes nothing. */
  function Step(secret: string, s: State, e: Event, now: nat): State {
    match e
    case Register(id) =>
      s.(pendings := s.pendings[id := |s.calls|], calls := s.calls + [Call(id, now, None, Waiting)])
    case Submit(token, id, action) =>
      var answer := Decision(secret, token, action);
      if answer.None? then s
      else
        var target := if id in s.pendings then Some(s.pendings[id]) else None;
        s.(pendings := s.pendings - {id}, clicks := s.clicks + [Click(id, answer.value, now, target, target.None?)])
    case Send(k) =>
      if k < |s.clicks| && CanSend(s, k) then
        var h := s.clicks[k].target.value;
        SetCall(s, h, s.calls[h].(channel := Some(k))).(clicks := s.clicks[k := s.clicks[k].(sent := true)])
      else s
    case ReceiveClick(h) =>
      if h < |s.calls| && s.calls[h].stage.Waiting? && s.calls[h].channel.Some?
      then SetCall(s, h, s.calls[h].(channel := None, stage := Chosen(ByClick(s.calls[h].channel.value)))) else s
    case TimerFires(h) =>
      if h < |s.calls| && s.calls[h].stage.Waiting? then SetCall(s, h, s.calls[h].(stage := Chosen(ByTimeout))) else s
    case SeeClosed(h) =>
      if h < |s.calls| && s.calls[h].stage.Waiting? && s.closed
      then SetCall(s, h, s.calls[h].(stage := Chosen(ByTimeout))) else s
    case Unregister(h) =>
      if h < |s.calls| && s.calls[h].stage.Chosen?
      then SetCall(s, h, s.calls[h].(stage := Returned(s.calls[h].stage.why))).(pendings := s.pendings - {s.calls[h].id})
      else s
    case Close => s.(closed := true)
  }

  function Run(secret: string, events: seq<Event>): State {
    if events == [] then START
    else Step(secret, Run(secret, events[..|events| - 1]), events[|events| - 1], |events| - 1)
  }

  // ---------- The invariant ----------

  predicate Targets(s: State, k: nat, h: nat) {
    k < |s.clicks| && s.clicks[k].target == Some(h)
  }

  function ClickOf(r: Reason): Option<nat> { if r.ByClick? then Some(r.click) else None }

  function Taken(st: Stage): Option<nat> { if st.Waiting? then None else ClickOf(st.why) }

  /** A listed id names its own waiting request, which no click has found yet. */
  predicate ListedOk(s: State, id: string)
    requires id in s.pendings
  {
    var h := s.pendings[id];
    && h < |s.calls| && s.calls[h].id == id && !s.calls[h].stage.Returned?
    && s.calls[h].channel.None? && Taken(s.calls[h].stage).None?
    && forall k | 0 <= k < |s.clicks| :: !Targets(s, k, h)
  }

  /** A click's target is a request of the clicked id, registered before the click. */
  predicate ClickOk(secret: string, events: seq<Event>, s: State, k: nat)
    requires k < |s.clicks|
  {
    var c := s.clicks[k];
    && c.time < |events| && events[c.time].Submit? && events[c.time].id == c.id
    && Decision(secret, events[c.time].token, events[c.time].action) == Some(c.answer)
    && (c.target.None? ==> c.sent)
    && (c.target.Some? ==>
          c.target.value < |s.calls| && s.calls[c.target.value].id == c.id && s.calls[c.target.value].since < c.time)
  }

  /** What a channel holds, or a request took from it, is a click that found this request. */
  predicate CallOk(s: State, h: nat)
    requires h < |s.calls|
  {
    var c := s.calls[h];
    && (c.channel.Some? ==> Targets(s, c.channel.value, h) && s.clicks[c.channel.value].sent && Taken(c.stage).None?)
    && (Taken(c.stage).Some? ==> Targets(s, Taken(c.stage).value, h) && s.clicks[Taken(c.stage).value].sent)
  }

  predicate Inv(secret: string, events: seq<Event>, s: State) {
    && (forall id | id in s.pendings :: ListedOk(s, id))
    && (forall k | 0 <= k < |s.clicks| :: ClickOk(secret, events, s, k))
    && (forall h | 0 <= h < |s.calls| :: CallOk(s, h))
    && (forall j, k | 0 <= j < k < |s.clicks| && s.clicks[j].target.Some? :: s.clicks[j].target != s.clicks[k].target)
    && (forall h | 0 <= h < |s.calls| :: s.calls[h].since < |events|)
  }

  /** resolve never blocks: a click that found a request and has not sent yet has room to. */
  lemma NeverBlocks(secret: string, events: seq<Event>, s: State, k: nat)
    requires Inv(secret, events, s) && k < |s.clicks| && !s.clicks[k].sent
    ensures CanSend(s, k)
  {
    assert ClickOk(secret, events, s, k);
    var h := s.clicks[k].target.value;
    assert CallOk(s, h);
  }

  lemma LongerClicks(secret: string, events: seq<Event>, e: Event, s: State)
    requires Inv(secret, events, s)
    ensures Inv(secret, events + [e], s)
  {
    forall k | 0 <= k < |s.clicks| ensures ClickOk(secret, events + [e], s, k) {
      assert ClickOk(secret, events, s, k);
    }
  }

  lemma RegisterKeeps(secret: string, events: seq<Event>, s: State, id: string)
    requires Inv(secret, events, s)
    ensures Inv(secret, events + [Register(id)], Step(secret, s, Register(id), |events|))
  {
    var t := Step(secret, s, Register(id), |events|);
    forall k | 0 <= k < |t.clicks| ensures ClickOk(secret, events + [Register(id)], t, k) {
      assert ClickOk(secret, events, s, k);
    }
    forall i | i in t.pendings ensures ListedOk(t, i) {
      if i != id { assert ListedOk(s, i); }
      forall k | 0 <= k < |t.clicks| ensures !Targets(t, k, t.pendings[i]) {
        assert ClickOk(secret, events, s, k);
        assert i != id ==> !Targets(s, k, s.pendings[i]);
      }
    }
    forall h | 0 <= h < |t.calls| ensures CallOk(t, h) {
      if h < |s.calls| { assert CallOk(s, h); }
    }
  }

  lemma SubmitKeeps(secret: string, events: seq<Event>, s: State, e: Event)
    requires Inv(secret, events, s) && e.Submit?
    ensures Inv(secret, events + [e], Step(secret, s, e, |events|))
  {
    var t := Step(secret, s, e, |events|);
    LongerClicks(secret, events, e, s);
    if t != s {
      var n := |s.clicks|;
      if e.id in s.pendings { assert ListedOk(s, e.id); }
      forall k | 0 <= k < |t.clicks| ensures ClickOk(secret, events + [e], t, k) {
        if k < n { assert ClickOk(secret, events + [e], s, k); }
      }
      forall i | i in t.pendings ensures ListedOk(t, i) {
        assert ListedOk(s, i);
        forall k | 0 <= k < |t.clicks| ensures !Targets(t, k, t.pendings[i]) {
          assert k < n ==> !Targets(s, k, s.pendings[i]);
        }
      }
      forall h | 0 <= h < |t.calls| ensures CallOk(t, h) { assert CallOk(s, h); }
      forall j | 0 <= j < n && s.clicks[j].target.Some? ensures s.clicks[j].target != t.clicks[n].target {
        if t.clicks[n].target.Some? { assert !Targets(s, j, t.clicks[n].target.value); }
      }
    }
  }

  /** A step on one request's channel or stage that keeps that request consistent. */
  lemma CallKeeps(secret: string, events: seq<Event>, s: State, t: State, h: nat)
    requires Inv(secret, events, s) && h < |s.calls| && |t.calls| == |s.calls|
    requires t == s.(calls := s.calls[h := t.calls[h]], pendings := t.pendings)
    requires t.calls[h].id == s.calls[h].id && t.calls[h].since == s.calls[h].since
    requires CallOk(t, h)
    requires forall id | id in t.pendings :: id in s.pendings && t.pendings[id] == s.pendings[id]
    requires (exists id | id in t.pendings :: t.pendings[id] == h) ==>
               t.calls[h].channel.None? && Taken(t.calls[h].stage).None? && !t.calls[h].stage.Returned?
    ensures Inv(secret, events, t)
  {
    forall k | 0 <= k < |t.clicks| ensures ClickOk(secret, events, t, k) { assert ClickOk(secret, events, s, k); }
    forall i | i in t.pendings ensures ListedOk(t, i) {
      assert ListedOk(s, i);
      forall k | 0 <= k < |t.clicks| ensures !Targets(t, k, t.pendings[i]) {
        assert !Targets(s, k, s.pendings[i]);
      }
    }
    forall g | 0 <= g < |t.calls| ensures CallOk(t, g) { assert CallOk(s, g); }
  }

  lemma SendKeeps(secret: string, events: seq<Event>, s: State, k: nat)
    requires Inv(secret, events, s) && k < |s.clicks| && CanSend(s, k)
    ensures Inv(secret, events, Step(secret, s, Send(k), |events|))
  {
    var t := Step(secret, s, Send(k), |events|);
    var h := s.clicks[k].target.value;
    forall j | 0 <= j < |t.clicks| ensures ClickOk(secret, events, t, j) { assert ClickOk(secret, events, s, j); }
    forall i | i in t.pendings ensures ListedOk(t, i) {
      assert ListedOk(s, i) && !Targets(s, k, s.pendings[i]);
      forall j | 0 <= j < |t.clicks| ensures !Targets(t, j, t.pendings[i]) {
        assert !Targets(s, j, s.pendings[i]);
      }
    }
    assert CallOk(s, h);
    forall g | 0 <= g < |t.calls| ensures CallOk(t, g) { assert CallOk(s, g); }
  }

  lemma OneCallKeeps(secret: string, events: seq<Event>, s: State, e: Event)
    requires Inv(secret, events, s) && (e.ReceiveClick? || e.TimerFires? || e.SeeClosed? || e.Unregister?)
    ensures Inv(secret, events, Step(secret, s, e, |events|))
  {
    var t := Step(secret, s, e, |events|);
    if t != s {
      var h := e.call;
      assert CallOk(s, h);
      forall id | id in t.pendings && t.pendings[id] == h
        ensures t.calls[h].channel.None? && Taken(t.calls[h].stage).None? && !t.calls[h].stage.Returned?
      {
        assert ListedOk(s, id);
      }
      CallKeeps(secret, events, s, t, h);
    }
  }

  lemma CloseKeeps(secret: string, events: seq<Event>, s: State)
    requires Inv(secret, events, s)
    ensures Inv(secret, events, s.(closed := true))
  {
    var t := s.(closed := true);
    forall i | i in t.pendings ensures ListedOk(t, i) {
      assert ListedOk(s, i);
      forall k | 0 <= k < |t.clicks| ensures !Targets(t, k, t.pendings[i]) { assert !Targets(s, k, s.pendings[i]); }
    }
    forall k | 0 <= k < |t.clicks| ensures ClickOk(secret, events, t, k) { assert ClickOk(secret, events, s, k); }
    forall h | 0 <= h < |t.calls| ensures CallOk(t, h) { assert CallOk(s, h); }
  }

  lemma StepKeeps(secret: string, events: seq<Event>, s: State, e: Event)
    requires Inv(secret, events, s)
    ensures Inv(secret, events + [e], Step(secret, s, e, |events|))
  {
    match e
    case Register(id) => RegisterKeeps(secret, events, s, id);
    case Submit(_, _, _) => SubmitKeeps(secret, events, s, e);
    case Send(k) =>
      if k < |s.clicks| && CanSend(s, k) { SendKeeps(secret, events, s, k); }
      LongerClicks(secret, events, e, Step(secret, s, e, |events|));
    case Close =>
      LongerClicks(secret, events, e, s);
      CloseKeeps(secret, events + [e], s);
    case _ =>
      OneCallKeeps(secret, events, s, e);
      LongerClicks(secret, events, e, Step(secret, s, e, |events|));
  }

  lemma {:induction false} RunKeeps(secret: string, events: seq<Event>)
    ensures Inv(secret, events, Run(secret, events))
  {
    if events != [] {
      var n := |events| - 1;
      RunKeeps(secret, events[..n]);
      StepKeeps(secret, events[..n], Run(secret, events[..n]), events[n]);
      assert events[..n] + [events[n]] == events;
    }
  }

  // ---------- The main results ----------

  /** The request returned with this answer. */
  predicate ReturnedWith(s: State, h: nat, answer: Answer) {
    && h < |s.calls| && s.calls[h].stage.Returned? && s.calls[h].stage.why.ByClick?
    && s.calls[h].stage.why.click < |s.clicks| && s.clicks[s.calls[h].stage.why.click].answer == answer
  }

  /** The button a human presses for this answer. */
  function Button(answer: Answer): string { if answer.Approve? then "approve" else "reject" }

  /** Some click on that button carrying the page's token for this id, after the request was registered. */
  predicate ClickedByHuman(secret: string, events: seq<Event>, id: string, since: nat, answer: Answer) {
    exists i | since < i < |events| :: events[i] == Submit(secret, id, Button(answer))
  }

  /**
   Whatever the interleaving: a request returns Approved only on its own approve click with
   the token, made after it was registered, and Rejected only on such a reject click; a click
   decides at most one request and a request is decided by at most one click; resolve never
   blocks; and a listed request is undecided.
   */
  lemma DecidedByItsOwnClick(secret: string, events: seq<Event>)
    ensures var s := Run(secret, events);
            && (forall h: nat, answer | ReturnedWith(s, h, answer) ::
                  ClickedByHuman(secret, events, s.calls[h].id, s.calls[h].since, answer))
            && (forall j, k, h | 0 <= j < k < |s.clicks| :: !(Targets(s, j, h) && Targets(s, k, h)))
            && (forall k | 0 <= k < |s.clicks| && !s.clicks[k].sent :: CanSend(s, k))
            && (forall id | id in s.pendings ::
                  s.pendings[id] < |s.calls| && !s.calls[s.pendings[id]].stage.Returned?
                  && s.calls[s.pendings[id]].channel.None?)
  {
    var s := Run(secret, events);
    RunKeeps(secret, events);
    forall h: nat, answer | ReturnedWith(s, h, answer)
      ensures ClickedByHuman(secret, events, s.calls[h].id, s.calls[h].since, answer)
    {
      assert CallOk(s, h);
      var k := s.calls[h].stage.why.click;
      assert ClickOk(secret, events, s, k);
      assert events[s.clicks[k].time] == Submit(secret, s.calls[h].id, Button(answer));
    }
    forall k | 0 <= k < |s.clicks| && !s.clicks[k].sent ensures CanSend(s, k) {
      NeverBlocks(secret, events, s, k);
    }
    forall id | id in s.pendings
      ensures s.pendings[id] < |s.calls| && !s.calls[s.pendings[id]].stage.Returned?
              && s.calls[s.pendings[id]].channel.None?
    {
      assert ListedOk(s, id);
    }
  }

  lemma RunStep(secret: string, events: seq<Event>, e: Event)
    ensures Run(secret, events + [e]) == Step(secret, Run(secret, events), e, |events|)
  {
    assert (events + [e])[..|events|] == events;
  }

  lemma RunFive(secret: string, events: seq<Event>, a: Event, b: Event, c: Event, d: Event, e: Event)
    ensures var n := |events|;
            Run(secret, events + [a, b, c, d, e]) ==
            Step(secret, Step(secret, Step(secret, Step(secret, Step(secret, Run(secret, events),
                 a, n), b, n + 1), c, n + 2), d, n + 3), e, n + 4)
  {
    RunStep(secret, events, a);
    RunStep(secret, events + [a], b);
    RunStep(secret, events + [a] + [b], c);
    RunStep(secret, events + [a] + [b] + [c], d);
    RunStep(secret, events + [a] + [b] + [c] + [d], e);
    assert events + [a, b, c, d, e] == events + [a] + [b] + [c] + [d] + [e];
  }

  /** From any moment: a request, the click on a button with the token, and what follows them. */
  function Decided(s: State, secret: string, id: string, answer: Answer): seq<Event> {
    [Register(id), Submit(secret, id, Button(answer)), Send(|s.clicks|), ReceiveClick(|s.calls|), Unregister(|s.calls|)]
  }

  lemma StepsDecide(secret: string, s: State, id: string, answer: Answer, now: nat)
    ensures var d := Decided(s, secret, id, answer);
            var a := Step(secret, s, d[0], now);
            var b := Step(secret, a, d[1], now + 1);
            var c := Step(secret, b, d[2], now + 2);
            var e := Step(secret, c, d[3], now + 3);
            ReturnedWith(Step(secret, e, d[4], now + 4), |s.calls|, answer)
  {
  }

  /** A click decides: approve makes the request it finds return Approved, reject makes it return Rejected. */
  lemma ClickDecides(secret: string, events: seq<Event>, id: string, answer: Answer)
    ensures var s := Run(secret, events);
            ReturnedWith(Run(secret, events + Decided(s, secret, id, answer)), |s.calls|, answer)
  {
    var s := Run(secret, events);
    var d := Decided(s, secret, id, answer);
    StepsDecide(secret, s, id, answer, |events|);
    RunFive(secret, events, d[0], d[1], d[2], d[3], d[4]);
    assert d == [d[0], d[1], d[2], d[3], d[4]];
  }

  /** A returned request leaves no entry behind. */
  lemma ReturnUnlists(secret: string, events: seq<Event>, h: nat)
    requires h < |Run(secret, events).calls| && Run(secret, events).calls[h].stage.Returned?
    ensures forall id | id in Run(secret, events).pendings :: Run(secret, events).pendings[id] != h
  {
    var s := Run(secret, events);
    RunKeeps(secret, events);
    forall id | id in s.pendings ensures s.pendings[id] != h {
      assert ListedOk(s, id);
    }
  }
}
