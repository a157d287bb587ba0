/** The writer of the log: sealing one record, appending it, opening and closing. */
module Logger {
  import opened Options
  import opened Entry
  import Codec
  import Chain
  import HashChain
  import Json
  import Words

  /** What the writer computes with: the verifier's codec, the line it writes, its signing key. */
  datatype Kit = Kit(env: Chain.Env, text: Stored -> Json.Text, sign: string -> string)

  /** The writer's memory between records: Logger.seq and Logger.prevHash. */
  datatype Memory = Memory(seqNo: nat, prevHash: string)

  const FRESH := Memory(0, HashChain.GENESIS)

  // ---------- One record ----------

  /** The fields only the writer knows. */
  function Stamp(kit: Kit, mem: Memory, session: string, time: string, p: Payload): Payload {
    var q := p.(seqNo := (mem.seqNo + 1) % Words.UINT64, time := time, session := session, prevHash := mem.prevHash);
    if p.kind == "" then q.(contentHash := kit.env.sha(kit.env.content(q))) else q
  }

  /** The sealed record; None when the shape is wrong or the JSON has no canonical form. */
  function Record(kit: Kit, mem: Memory, session: string, time: string, p: Payload): Option<Stored> {
    if !ShapeOk(p) then None
    else
      var q := Stamp(kit, mem, session, time, p);
      var c := kit.env.bytes(q);
      if c.None? then None else Some(Stored(q, kit.env.sha(c.value), kit.sign(c.value)))
  }

  function OrNull(r: Raw): Raw { if r.Empty? then Value(NULL) else r }

  function CallPayload(tool: string, args: Raw, result: Raw, error: Raw, decision: string): Payload {
    Payload(0, "", "", "", None, tool, OrNull(args), result, error, "", decision, "")
  }

  function OrEmpty(l: List): List { if l.None? then Some([]) else l }

  function Normalize(info: Info): Info {
    info.(args := OrEmpty(info.args), deny := OrEmpty(info.deny), approve := OrEmpty(info.approve))
  }

  function HeaderPayload(info: Info): Payload {
    Payload(0, "", "", SESSION, Some(Normalize(info)), "", Empty, Empty, Empty, "", "", "")
  }

  predicate Made(kit: Kit, e: Stored, c: string) {
    && e.payload.seqNo < Words.UINT64 && ShapeOk(e.payload)
    && kit.env.bytes(e.payload) == Some(c)
    && e.hash == kit.env.sha(c) && e.sig == kit.sign(c)
    && e.payload.contentHash == (if e.payload.kind == "" then kit.env.sha(kit.env.content(e.payload)) else "")
  }

  /** The verifier reads a written line as the record it was made from. */
  ghost predicate Trusted(kit: Kit) {
    && (forall e, c | Made(kit, e, c) ::
          Chain.LinkOf(kit.env, Chain.Doc(kit.text(e)))
          == HashChain.Link(e.payload.prevHash, e.hash, e.payload.seqNo, c))
    && (forall p: Payload, digest :: kit.env.content(p.(contentHash := digest)) == kit.env.content(p))
  }

  /** The writer's memory matches these records. */
  predicate Agrees(kit: Kit, docs: seq<Chain.Line>, mem: Memory) {
    && Chain.IsChain(kit.env, docs)
    && mem.seqNo == |docs| % Words.UINT64
    && mem.prevHash == HashChain.Head(Chain.Links(kit.env, docs))
  }

  /** A payload's own fields at a place in the chain, committed to its content if it is a call. */
  function Placed(kit: Kit, mem: Memory, session: string, time: string, p: Payload, digest: string): Payload {
    Payload((mem.seqNo + 1) % Words.UINT64, time, session, p.kind, p.info, p.tool, p.args, p.result, p.error,
            digest, p.decision, mem.prevHash)
  }

  /**
   A sealed record is the payload it was made from, placed: every field taken over, the next
   number, this time and session, the link to the last hash; a call committed to its own
   content, a header without commitment; hash and signature over its own bytes.
   */
  lemma RecordMade(kit: Kit, mem: Memory, session: string, time: string, p: Payload)
    requires Trusted(kit) && Record(kit, mem, session, time, p).Some?
    ensures var e := Record(kit, mem, session, time, p).value;
            && kit.env.bytes(e.payload).Some? && Made(kit, e, kit.env.bytes(e.payload).value)
            && e.payload == Placed(kit, mem, session, time, p,
                                   if p.kind == "" then kit.env.sha(kit.env.content(e.payload)) else "")
  {
    var q := p.(seqNo := (mem.seqNo + 1) % Words.UINT64, time := time, session := session, prevHash := mem.prevHash);
    var digest := kit.env.sha(kit.env.content(q));
    if p.kind == "" {
      assert kit.env.content(q.(contentHash := digest)) == kit.env.content(q);
    }
  }

  /** A call's record says what Append was given, absent arguments as null. */
  lemma CallSays(kit: Kit, mem: Memory, session: string, time: string, tool: string, args: Raw, result: Raw,
                 error: Raw, decision: string)
    requires Trusted(kit) && Record(kit, mem, session, time, CallPayload(tool, args, result, error, decision)).Some?
    ensures var p := Record(kit, mem, session, time, CallPayload(tool, args, result, error, decision)).value.payload;
            && p.kind == "" && p.info.None? && p.tool == tool && p.decision == decision
            && p.args == (if args.Empty? then Value(Json.Atom("null")) else args) && p.result == result && p.error == error
            && p.contentHash == kit.env.sha(kit.env.content(p))
  {
    RecordMade(kit, mem, session, time, CallPayload(tool, args, result, error, decision));
  }

  /** A list as it must appear: [] rather than nothing. */
  predicate Shown(given: List, recorded: List) {
    recorded.Some? && recorded.value == if given.Some? then given.value else []
  }

  /** A header's record says under which version, command, arguments and rules the session ran. */
  lemma HeaderSays(kit: Kit, mem: Memory, session: string, time: string, info: Info)
    requires Trusted(kit) && Record(kit, mem, session, time, HeaderPayload(info)).Some?
    ensures var p := Record(kit, mem, session, time, HeaderPayload(info)).value.payload;
            && p.kind == "session" && p.info.Some? && p.tool == "" && p.decision == "" && p.contentHash == ""
            && p.args.Empty? && p.result.Empty? && p.error.Empty?
            && p.info.value.version == info.version && p.info.value.command == info.command
            && Shown(info.args, p.info.value.args) && Shown(info.deny, p.info.value.deny)
            && Shown(info.approve, p.info.value.approve)
  {
    RecordMade(kit, mem, session, time, HeaderPayload(info));
  }

  lemma LinkExtends(kit: Kit, docs: seq<Chain.Line>, mem: Memory, l: Chain.Line, hash: string, c: string)
    requires Agrees(kit, docs, mem)
    requires Chain.LinkOf(kit.env, l) == HashChain.Link(mem.prevHash, hash, (mem.seqNo + 1) % Words.UINT64, c)
    ensures Agrees(kit, docs + [l], Memory((mem.seqNo + 1) % Words.UINT64, hash))
  {
    Chain.SeqStep(mem.seqNo, |docs|);
    Chain.LinksAppend(kit.env, docs, l);
    HashChain.LinkedStep(Chain.Links(kit.env, docs), Chain.LinkOf(kit.env, l));
  }

  /** Appending a record keeps the chain intact and the memory in step. */
  lemma RecordExtends(kit: Kit, docs: seq<Chain.Line>, mem: Memory, session: string, time: string, p: Payload)
    requires Trusted(kit) && Agrees(kit, docs, mem) && Record(kit, mem, session, time, p).Some?
    ensures var e := Record(kit, mem, session, time, p).value;
            Agrees(kit, docs + [Chain.Doc(kit.text(e))], Memory(e.payload.seqNo, e.hash))
  {
    var e := Record(kit, mem, session, time, p).value;
    RecordMade(kit, mem, session, time, p);
    var c := kit.env.bytes(e.payload).value;
    assert Chain.LinkOf(kit.env, Chain.Doc(kit.text(e)))
        == HashChain.Link(e.payload.prevHash, e.hash, e.payload.seqNo, c);
    LinkExtends(kit, docs, mem, Chain.Doc(kit.text(e)), e.hash, c);
  }

  lemma NonBlankAppend(lines: seq<Chain.Line>, l: Chain.Line)
    requires !l.Blank?
    ensures Chain.NonBlank(lines + [l]) == Chain.NonBlank(lines) + [l]
  {
    assert (lines + [l])[..|lines|] == lines;
  }

  lemma LineExtends(kit: Kit, lines: seq<Chain.Line>, mem: Memory, session: string, time: string, p: Payload)
    requires Trusted(kit) && Agrees(kit, Chain.NonBlank(lines), mem) && Record(kit, mem, session, time, p).Some?
    ensures var e := Record(kit, mem, session, time, p).value;
            Agrees(kit, Chain.NonBlank(lines + [Chain.Doc(kit.text(e))]), Memory(e.payload.seqNo, e.hash))
    ensures Record(kit, mem, session, time, p).value.payload.seqNo == (mem.seqNo + 1) % Words.UINT64
  {
    RecordExtends(kit, Chain.NonBlank(lines), mem, session, time, p);
    NonBlankAppend(lines, Chain.Doc(kit.text(Record(kit, mem, session, time, p).value)));
  }

  // ---------- The file and its writer ----------

  /** The log file: its lines, whether it ends with LF, and the kernel's exclusive lock. */
  class LogFile {
    var lines: seq<Chain.Line>
    var terminated: bool
    var locked: bool

    constructor ()
      ensures lines == [] && terminated && !locked
    {
      lines, terminated, locked := [], true, false;
    }
  }

  lemma VerifiedLine(env: Chain.Env, lines: seq<Chain.Line>, i: nat)
    requires i < |lines| && !lines[i].Blank? && Chain.IsChain(env, Chain.NonBlank(lines))
    ensures Chain.Sealed(env, lines[i])
    ensures Chain.EntryOf(env, lines[i]).payload.seqNo == (|Chain.NonBlank(lines[..i])| + 1) % Words.UINT64
  {
    var docs, n := Chain.NonBlank(lines), |Chain.NonBlank(lines[..i])|;
    Chain.NonBlankAt(lines, i);
    assert HashChain.LinkedAt(Chain.Links(env, docs), n);
  }

  /** The number and hash of a verified line are the state after it. */
  lemma StateStep(env: Chain.Env, lines: seq<Chain.Line>, i: nat)
    requires i < |lines| && !lines[i].Blank? && Chain.IsChain(env, Chain.NonBlank(lines))
    ensures Chain.Sealed(env, lines[i])
    ensures var e, docs := Chain.EntryOf(env, lines[i]), Chain.NonBlank(lines[..i + 1]);
            HashChain.Head(Chain.Links(env, docs)) == e.hash && e.payload.seqNo == |docs| % Words.UINT64
  {
    Chain.NonBlankStep(lines, i);
    VerifiedLine(env, lines, i);
    Chain.LinksAppend(env, Chain.NonBlank(lines[..i]), lines[i]);
  }

  /** lastState on given lines: the last record's number and hash, None when Verify is not OK. */
  method LastState(env: Chain.Env, lines: seq<Chain.Line>, terminated: bool) returns (r: Option<Memory>)
    ensures r.Some? <==> terminated && Chain.IsChain(env, Chain.NonBlank(lines))
    ensures r.Some? ==> var docs := Chain.NonBlank(lines);
              && r.value.prevHash == HashChain.Head(Chain.Links(env, docs))
              && r.value.seqNo == |docs| % Words.UINT64
  {
    if !terminated {
      return None;
    }
    var outcome := Chain.Verify(env, lines);
    if outcome.ReadError? || !outcome.ok {
      return None;
    }
    var mem := FRESH;
    var i := 0;
    while i < |lines|
      invariant 0 <= i <= |lines|
      invariant mem.prevHash == HashChain.Head(Chain.Links(env, Chain.NonBlank(lines[..i])))
      invariant mem.seqNo == |Chain.NonBlank(lines[..i])| % Words.UINT64
    {
      if lines[i].Blank? {
        Chain.NonBlankStep(lines, i);
      } else {
        StateStep(env, lines, i);
        var e := env.read(lines[i].text).value.0;
        mem := Memory(e.payload.seqNo, e.hash);
      }
      i := i + 1;
    }
    assert lines[..i] == lines;
    r := Some(mem);
  }

  class Logger {
    const kit: Kit
    const file: LogFile
    const session: string
    var mem: Memory
    var open: bool

    /** While open, the logger holds the lock and remembers the end of the file. */
    ghost predicate Valid()
      reads this, file
    {
      open ==> file.locked && file.terminated && Agrees(kit, Chain.NonBlank(file.lines), mem)
    }

    constructor (kit: Kit, file: LogFile, session: string, mem: Memory)
      requires file.locked && file.terminated && Agrees(kit, Chain.NonBlank(file.lines), mem)
      ensures Valid() && open && this.kit == kit && this.file == file && this.session == session && this.mem == mem
    {
      this.kit, this.file, this.session, this.mem, this.open := kit, file, session, mem, true;
    }

    /** What a record for p would be right now. */
    function Next(p: Payload, time: string): Option<Stored>
      reads this
    {
      if open then Record(kit, mem, session, time, p) else None
    }

    /** The checked, stamped and sealed record, not yet written. */
    method SealPayload(p: Payload, time: string) returns (r: Option<Stored>)
      ensures r == Record(kit, mem, session, time, p)
    {
      if !ShapeOk(p) {
        return None;
      }
      var q := p.(seqNo := (mem.seqNo + 1) % Words.UINT64, time := time, session := session, prevHash := mem.prevHash);
      if q.kind == "" {
        q := q.(contentHash := kit.env.sha(kit.env.content(q)));
      }
      var c := kit.env.bytes(q);
      if c.None? {
        return None;
      }
      r := Some(Stored(q, kit.env.sha(c.value), kit.sign(c.value)));
    }

    /**
     appendPayload; writes says whether the file accepts the line. Success exactly when the
     record exists and is written, and then the line, the number and the hash are its own;
     failure changes nothing.
     */
    method AppendPayload(p: Payload, time: string, writes: bool) returns (r: Option<Stored>)
      requires Valid() && Trusted(kit)
      modifies this`mem, file`lines
      ensures Valid() && open == old(open) && file.locked == old(file.locked)
      ensures r == if writes then old(Next(p, time)) else None
      ensures r.None? ==> mem == old(mem) && file.lines == old(file.lines)
      ensures r.Some? ==> && file.lines == old(file.lines) + [Chain.Doc(kit.text(r.value))]
                          && mem == Memory((old(mem.seqNo) + 1) % Words.UINT64, r.value.hash)
                          && Agrees(kit, Chain.NonBlank(file.lines), mem)
    {
      if !open {
        return None;
      }
      r := SealPayload(p, time);
      if r.None? {
        return;
      }
      if !writes {
        return None;
      }
      var e := r.value;
      LineExtends(kit, file.lines, mem, session, time, p);
      file.lines := file.lines + [Chain.Doc(kit.text(e))];
      mem := Memory(e.payload.seqNo, e.hash);
    }

    method Append(tool: string, args: Raw, result: Raw, error: Raw, decision: string, time: string, writes: bool)
      returns (r: Option<Stored>)
      requires Valid() && Trusted(kit)
      modifies this`mem, file`lines
      ensures Valid() && open == old(open) && file.locked == old(file.locked)
      ensures r == if writes then old(Next(CallPayload(tool, args, result, error, decision), time)) else None
      ensures r.None? ==> mem == old(mem) && file.lines == old(file.lines)
      ensures r.Some? ==> && file.lines == old(file.lines) + [Chain.Doc(kit.text(r.value))]
                          && mem == Memory((old(mem.seqNo) + 1) % Words.UINT64, r.value.hash)
    {
      r := AppendPayload(CallPayload(tool, args, result, error, decision), time, writes);
    }

    method AppendSessionHeader(info: Info, time: string, writes: bool) returns (r: Option<Stored>)
      requires Valid() && Trusted(kit)
      modifies this`mem, file`lines
      ensures Valid() && open == old(open) && file.locked == old(file.locked)
      ensures r == if writes then old(Next(HeaderPayload(info), time)) else None
      ensures r.None? ==> mem == old(mem) && file.lines == old(file.lines)
      ensures r.Some? ==> && file.lines == old(file.lines) + [Chain.Doc(kit.text(r.value))]
                          && mem == Memory((old(mem.seqNo) + 1) % Words.UINT64, r.value.hash)
    {
      r := AppendPayload(HeaderPayload(info), time, writes);
    }

    method Close()
      requires Valid()
      modifies this`open, file`locked
      ensures Valid() && !open && file.lines == old(file.lines) && mem == old(mem)
      ensures file.locked == (old(file.locked) && !old(open))
    {
      if open {
        file.locked := false;
        open := false;
      }
    }
  }

  /** Open: lock first, then verify and read the end of the file. */
  method Open(kit: Kit, file: LogFile, session: string) returns (l: Logger?)
    modifies file`locked
    ensures l != null <==> !old(file.locked) && file.terminated && Chain.IsChain(kit.env, Chain.NonBlank(file.lines))
    ensures l == null ==> file.locked == old(file.locked)
    ensures l != null ==> fresh(l) && l.Valid() && l.open && l.file == file && l.kit == kit && l.session == session
  {
    if file.locked {
      return null;
    }
    file.locked := true;
    var mem := LastState(kit.env, file.lines, file.terminated);
    if mem.None? {
      file.locked := false;
      return null;
    }
    l := new Logger(kit, file, session, mem.value);
  }

  // ---------- The real codec is trusted ----------

  function KitOf(pf: Codec.Platform, sign: string -> string): Kit {
    Kit(Codec.EnvOf(pf), e => EntryText(e), sign)
  }

  lemma ContentIgnoresDigest(p: Payload, digest: string)
    ensures Codec.Content(p.(contentHash := digest)) == Codec.Content(p)
  {
  }

  lemma WrittenLink(pf: Codec.Platform, sign: string -> string, e: Stored, c: string)
    requires Made(KitOf(pf, sign), e, c) && pf.check(c, sign(c))
    ensures Chain.LinkOf(Codec.EnvOf(pf), Chain.Doc(EntryText(e)))
         == HashChain.Link(e.payload.prevHash, e.hash, e.payload.seqNo, c)
  {
    Codec.WrittenIsSealed(pf, e, c);
  }

  /** With signatures that verify under their own key, every written line is read back as made. */
  lemma CodecTrusted(pf: Codec.Platform, sign: string -> string)
    requires forall c :: pf.check(c, sign(c))
    ensures Trusted(KitOf(pf, sign))
  {
    var kit := KitOf(pf, sign);
    forall e, c | Made(kit, e, c)
      ensures Chain.LinkOf(kit.env, Chain.Doc(kit.text(e)))
           == HashChain.Link(e.payload.prevHash, e.hash, e.payload.seqNo, c)
    {
      assert pf.check(c, sign(c));
      WrittenLink(pf, sign, e, c);
    }
    forall p: Payload, digest ensures kit.env.content(p.(contentHash := digest)) == kit.env.content(p) {
      ContentIgnoresDigest(p, digest);
    }
  }
}
