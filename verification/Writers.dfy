/** Any number of processes opening, appending to, closing and dying on one log file. */
module Writers {
  import opened Options
  import opened Entry
  import opened Logger
  import Chain

  /** Where a process is: Open's steps are lock, verify, read the last state. */
  datatype Proc = Idle | Opened | Locked | Verified | Live(mem: Memory)

  datatype State = State(lines: seq<Chain.Line>, terminated: bool, holder: Option<nat>, procs: map<nat, Proc>,
                         appended: nat)

  datatype Event =
    | OpenFile(pid: nat)
    | TryLock(pid: nat)
    | VerifyFile(pid: nat)
    | ReadState(pid: nat)
    | AppendRecord(pid: nat, payload: Payload, session: string, time: string, writes: bool)
    | CloseFile(pid: nat)
    | Kill(pid: nat)

  function At(s: State, pid: nat): Proc {
    if pid in s.procs then s.procs[pid] else Idle
  }

  function Put(s: State, pid: nat, p: Proc): State {
    s.(procs := s.procs[pid := p])
  }

  /** The handle goes away, by Close, by an error in Open or by death; the kernel drops its lock. */
  function Gone(s: State, pid: nat): State {
    Put(s, pid, Idle).(holder := if s.holder == Some(pid) then None else s.holder)
  }

  /** The second pass of lastState: the number and hash of the last line, whatever it is. */
  function LastRead(env: Chain.Env, lines: seq<Chain.Line>): Option<Memory> {
    if lines == [] then Some(FRESH)
    else
      var n := |lines| - 1;
      var before := LastRead(env, lines[..n]);
      if before.None? || lines[n].Blank? then before
      else if lines[n].Junk? || env.read(lines[n].text).None? then None
      else
        var e := env.read(lines[n].text).value.0;
        Some(Memory(e.payload.seqNo, e.hash))
  }

  function Extended(s: State, pid: nat, l: Chain.Line, mem: Memory): State {
    Put(s, pid, Live(mem)).(lines := s.lines + [l], appended := s.appended + 1)
  }

  function Step(kit: Kit, s: State, e: Event): State {
    match e
    case OpenFile(pid) => if At(s, pid).Idle? then Put(s, pid, Opened) else s
    case TryLock(pid) =>
      if !At(s, pid).Opened? then s
      else if s.holder.None? then Put(s, pid, Locked).(holder := Some(pid))
      else Gone(s, pid)
    case VerifyFile(pid) =>
      if !At(s, pid).Locked? then s
      else if s.terminated && Chain.IsChain(kit.env, Chain.NonBlank(s.lines)) then Put(s, pid, Verified)
      else Gone(s, pid)
    case ReadState(pid) =>
      if !At(s, pid).Verified? then s
      else
        var mem := LastRead(kit.env, s.lines);
        if mem.None? then Gone(s, pid) else Put(s, pid, Live(mem.value))
    case AppendRecord(pid, payload, session, time, writes) =>
      if !At(s, pid).Live? then s
      else
        var r := Record(kit, At(s, pid).mem, session, time, payload);
        if r.None? || !writes then s
        else Extended(s, pid, Chain.Doc(kit.text(r.value)), Memory(r.value.payload.seqNo, r.value.hash))
    case CloseFile(pid) => if At(s, pid).Live? then Gone(s, pid) else s
    case Kill(pid) => Gone(s, pid)
  }

  function Run(kit: Kit, s: State, events: seq<Event>): State {
    if events == [] then s else Step(kit, Run(kit, s, events[..|events| - 1]), events[|events| - 1])
  }

  /** A log that was just created. */
  const FRESH_FILE := State([], true, None, map[], 0)

  predicate Start(s: State) {
    s.holder.None? && (forall pid | pid in s.procs :: s.procs[pid].Idle?) && s.appended == 0
  }

  // ---------- The invariant ----------

  predicate Intact(kit: Kit, s: State) {
    s.terminated && Chain.IsChain(kit.env, Chain.NonBlank(s.lines))
  }

  predicate ProcOk(kit: Kit, s: State, pid: nat) {
    match At(s, pid)
    case Idle => s.holder != Some(pid)
    case Opened => s.holder != Some(pid)
    case Locked => s.holder == Some(pid)
    case Verified => s.holder == Some(pid) && Intact(kit, s)
    case Live(mem) => s.holder == Some(pid) && Intact(kit, s) && Agrees(kit, Chain.NonBlank(s.lines), mem)
  }

  /** What every run from s0 keeps. */
  ghost predicate Inv(kit: Kit, s0: State, s: State) {
    && (forall pid: nat :: ProcOk(kit, s, pid))
    && s.terminated == s0.terminated
    && (Intact(kit, s0) ==> Intact(kit, s))
    && (!Intact(kit, s0) ==> s.lines == s0.lines)
    && s0.lines <= s.lines
    && |Chain.NonBlank(s.lines)| == |Chain.NonBlank(s0.lines)| + s.appended
  }

  /** The number and hash of a verified line are the memory of the records up to it. */
  lemma LineAgrees(kit: Kit, lines: seq<Chain.Line>, i: nat)
    requires Chain.IsChain(kit.env, Chain.NonBlank(lines)) && i < |lines| && !lines[i].Blank?
    ensures Chain.Sealed(kit.env, lines[i])
    ensures var e := Chain.EntryOf(kit.env, lines[i]);
            Agrees(kit, Chain.NonBlank(lines[..i + 1]), Memory(e.payload.seqNo, e.hash))
  {
    var done := Chain.NonBlank(lines[..i]);
    VerifiedLine(kit.env, lines, i);
    Chain.NonBlankStep(lines, i);
    Chain.NonBlankAt(lines, i);
    Chain.ChainPrefix(kit.env, Chain.NonBlank(lines), |done| + 1);
    Chain.LinksAppend(kit.env, done, lines[i]);
  }

  lemma LastReadStep(env: Chain.Env, lines: seq<Chain.Line>, i: nat)
    requires i < |lines| && LastRead(env, lines[..i]).Some?
    ensures lines[i].Blank? ==> LastRead(env, lines[..i + 1]) == LastRead(env, lines[..i])
    ensures Chain.Sealed(env, lines[i]) ==>
              var e := Chain.EntryOf(env, lines[i]);
              LastRead(env, lines[..i + 1]) == Some(Memory(e.payload.seqNo, e.hash))
  {
    assert lines[..i + 1][..i] == lines[..i];
  }

  lemma {:induction false} LastReadAgrees(kit: Kit, lines: seq<Chain.Line>, n: nat)
    requires Chain.IsChain(kit.env, Chain.NonBlank(lines)) && n <= |lines|
    ensures LastRead(kit.env, lines[..n]).Some?
    ensures Agrees(kit, Chain.NonBlank(lines[..n]), LastRead(kit.env, lines[..n]).value)
  {
    if n > 0 {
      var i := n - 1;
      LastReadAgrees(kit, lines, i);
      LastReadStep(kit.env, lines, i);
      if lines[i].Blank? {
        Chain.NonBlankStep(lines, i);
      } else {
        LineAgrees(kit, lines, i);
      }
    }
  }

  lemma MemoryRead(kit: Kit, s: State)
    requires Intact(kit, s)
    ensures LastRead(kit.env, s.lines).Some?
    ensures Agrees(kit, Chain.NonBlank(s.lines), LastRead(kit.env, s.lines).value)
  {
    LastReadAgrees(kit, s.lines, |s.lines|);
    assert s.lines[..|s.lines|] == s.lines;
  }

  /** A step that leaves the file alone and moves one process correctly keeps every other process correct. */
  lemma OthersKept(kit: Kit, s: State, t: State, pid: nat)
    requires forall q: nat :: ProcOk(kit, s, q)
    requires t.lines == s.lines && t.terminated == s.terminated
    requires forall q: nat | q != pid :: At(t, q) == At(s, q)
    requires t.holder == s.holder || (t.holder.None? && s.holder == Some(pid)) || (t.holder == Some(pid) && s.holder.None?)
    requires ProcOk(kit, t, pid)
    ensures forall q: nat :: ProcOk(kit, t, q)
  {
    forall q: nat ensures ProcOk(kit, t, q) {
      assert ProcOk(kit, s, q);
    }
  }

  /** Only the live process writes, so nobody else's view of the file goes stale. */
  lemma ExtendedKeeps(kit: Kit, s0: State, s: State, pid: nat, l: Chain.Line, mem: Memory)
    requires Inv(kit, s0, s) && At(s, pid).Live? && !l.Blank?
    requires Agrees(kit, Chain.NonBlank(s.lines) + [l], mem)
    ensures Inv(kit, s0, Extended(s, pid, l, mem))
  {
    var t := Extended(s, pid, l, mem);
    NonBlankAppend(s.lines, l);
    assert ProcOk(kit, s, pid);
    forall q: nat ensures ProcOk(kit, t, q) {
      assert ProcOk(kit, s, q);
      assert q != pid ==> At(t, q) == At(s, q);
    }
  }

  lemma AppendKeeps(kit: Kit, s0: State, s: State, pid: nat, p: Payload, session: string, time: string)
    requires Trusted(kit) && Inv(kit, s0, s) && At(s, pid).Live?
    requires Record(kit, At(s, pid).mem, session, time, p).Some?
    ensures Inv(kit, s0, Step(kit, s, AppendRecord(pid, p, session, time, true)))
  {
    var e := Record(kit, At(s, pid).mem, session, time, p).value;
    assert ProcOk(kit, s, pid);
    RecordExtends(kit, Chain.NonBlank(s.lines), At(s, pid).mem, session, time, p);
    ExtendedKeeps(kit, s0, s, pid, Chain.Doc(kit.text(e)), Memory(e.payload.seqNo, e.hash));
  }

  lemma {:induction false} StepKeeps(kit: Kit, s0: State, s: State, e: Event)
    requires Trusted(kit) && Inv(kit, s0, s)
    ensures Inv(kit, s0, Step(kit, s, e))
  {
    var t := Step(kit, s, e);
    assert ProcOk(kit, s, e.pid);
    if e.AppendRecord? {
      if t != s { AppendKeeps(kit, s0, s, e.pid, e.payload, e.session, e.time); }
    } else {
      if At(s, e.pid).Verified? { MemoryRead(kit, s); }
      OthersKept(kit, s, t, e.pid);
    }
  }

  lemma {:induction false} RunKeeps(kit: Kit, s0: State, events: seq<Event>)
    requires Trusted(kit) && Start(s0)
    ensures Inv(kit, s0, Run(kit, s0, events))
  {
    if events == [] {
      forall pid: nat ensures ProcOk(kit, s0, pid) {}
    } else {
      var n := |events| - 1;
      RunKeeps(kit, s0, events[..n]);
      StepKeeps(kit, s0, Run(kit, s0, events[..n]), events[n]);
    }
  }

  /**
   No fork, whatever the interleaving: an intact file stays one accepted chain that grew by
   exactly the successful appends, a broken one is never written, and at most one process
   is live, its memory the end of the file.
   */
  lemma NoFork(kit: Kit, s0: State, events: seq<Event>)
    requires Trusted(kit) && Start(s0)
    ensures var s := Run(kit, s0, events);
            && (Intact(kit, s0) ==> Intact(kit, s))
            && (!Intact(kit, s0) ==> s.lines == s0.lines)
            && |Chain.NonBlank(s.lines)| == |Chain.NonBlank(s0.lines)| + s.appended
            && (forall p: nat, q: nat | At(s, p).Live? && At(s, q).Live? :: p == q)
            && (forall p: nat | At(s, p).Live? :: Agrees(kit, Chain.NonBlank(s.lines), At(s, p).mem))
  {
    var s := Run(kit, s0, events);
    RunKeeps(kit, s0, events);
    forall p: nat, q: nat | At(s, p).Live? && At(s, q).Live? ensures p == q {
      assert ProcOk(kit, s, p) && ProcOk(kit, s, q);
    }
    forall p: nat | At(s, p).Live? ensures Agrees(kit, Chain.NonBlank(s.lines), At(s, p).mem) {
      assert ProcOk(kit, s, p);
    }
  }

  /** The same file as the verifier sees it: OK, with an entry for every successful append. */
  method VerifyAfter(kit: Kit, s0: State, events: seq<Event>) returns (r: Chain.Outcome)
    requires Trusted(kit) && Start(s0) && Intact(kit, s0)
    ensures r == Chain.Result(|Chain.NonBlank(s0.lines)| + Run(kit, s0, events).appended, true, 0)
  {
    NoFork(kit, s0, events);
    r := Chain.Verify(kit.env, Run(kit, s0, events).lines);
  }

  /** Open goes through: on an intact file nobody holds, four steps make an idle process live. */
  lemma OpensWhenFree(kit: Kit, s: State, pid: nat)
    requires Intact(kit, s) && s.holder.None? && At(s, pid).Idle?
    ensures var t := Step(kit, Step(kit, Step(kit, Step(kit, s, OpenFile(pid)), TryLock(pid)), VerifyFile(pid)), ReadState(pid));
            At(t, pid).Live? && t.holder == Some(pid) && t.lines == s.lines
            && Agrees(kit, Chain.NonBlank(s.lines), At(t, pid).mem)
  {
    MemoryRead(kit, s);
  }

  /** Open is refused while another process holds the lock. */
  lemma RefusedWhenHeld(kit: Kit, s: State, pid: nat)
    requires s.holder.Some? && s.holder != Some(pid) && At(s, pid).Idle?
    ensures var t := Step(kit, Step(kit, s, OpenFile(pid)), TryLock(pid));
            At(t, pid).Idle? && t.holder == s.holder && t.lines == s.lines
  {
  }
}
