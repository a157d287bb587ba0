/** Verify: re-deriving every stored seal and walking the hash chain. */
module Chain {
  import opened Options
  import opened Entry
  import HashChain
  import Json
  import Words

  /**
   What the verifier computes with. read is decodeEntry (the entry and the canonical bytes
   of the stored object without its seal), bytes is payload.canonical, content is the text
   under content_hash, sha is SHA-256 in hex, check verifies a signature under one key.
   */
  datatype Env = Env(read: Json.Text -> Option<(Stored, string)>, bytes: Payload -> Option<string>,
                     content: Payload -> string, sha: string -> string, check: (string, string) -> bool)

  /** A line of the file after trimming CR and LF. */
  datatype Line = Blank | Junk | Doc(text: Json.Text)

  // ---------- What an accepted log is ----------

  /** Everything about one line that does not depend on its neighbours. */
  predicate Sealed(env: Env, l: Line) {
    && l.Doc?
    && env.read(l.text).Some?
    && var (e, c) := env.read(l.text).value;
    && e.hash == env.sha(c)
    && env.check(c, e.sig)
    && (e.payload.contentHash != "" ==> e.payload.contentHash == env.sha(env.content(e.payload)))
    && env.bytes(e.payload) == Some(c)
    && ShapeOk(e.payload)
  }

  function EntryOf(env: Env, l: Line): Stored
    requires Sealed(env, l)
  {
    env.read(l.text).value.0
  }

  function BytesOf(env: Env, l: Line): string
    requires Sealed(env, l)
  {
    env.read(l.text).value.1
  }

  /** The line as a link of the chain. */
  function LinkOf(env: Env, l: Line): HashChain.Link {
    if !Sealed(env, l) then HashChain.NoLink
    else
      var e := EntryOf(env, l);
      HashChain.Link(e.payload.prevHash, e.hash, e.payload.seqNo, BytesOf(env, l))
  }

  function Links(env: Env, docs: seq<Line>): (ls: seq<HashChain.Link>)
    ensures |ls| == |docs|
  {
    seq(|docs|, i requires 0 <= i < |docs| => LinkOf(env, docs[i]))
  }

  /** An intact chain: every line sealed, linked to the one before and numbered by position. */
  predicate IsChain(env: Env, docs: seq<Line>) {
    HashChain.Linked(Links(env, docs))
  }

  function NonBlank(lines: seq<Line>): seq<Line> {
    if lines == [] then []
    else
      var n := |lines| - 1;
      NonBlank(lines[..n]) + (if lines[n].Blank? then [] else [lines[n]])
  }

  // ---------- The verifier ----------

  datatype Outcome = ReadError | Result(entries: nat, ok: bool, badEntry: nat)

  datatype Verdict = Unreadable | Broken | Good(hash: string, seqNo: nat)

  /** Not JSON, not an entry, or an intact entry this version cannot re-encode: an error, not a finding. */
  predicate Unjudgeable(env: Env, l: Line) {
    if !l.Doc? || env.read(l.text).None? then true
    else
      var (e, c) := env.read(l.text).value;
      && e.hash == env.sha(c)
      && env.check(c, e.sig)
      && (e.payload.contentHash != "" ==> e.payload.contentHash == env.sha(env.content(e.payload)))
      && env.bytes(e.payload).None?
  }

  /** The callback's body: the checks on one line, in the order they are made. */
  method CheckLine(env: Env, l: Line, prevHash: string, prevSeq: nat) returns (v: Verdict)
    requires !l.Blank?
    ensures v.Good? <==> HashChain.LinksTo(LinkOf(env, l), prevHash, prevSeq + 1)
    ensures v.Good? ==> v.hash == HashChain.HashOf(LinkOf(env, l)) && v.seqNo == (prevSeq + 1) % Words.UINT64
    ensures v.Unreadable? <==> Unjudgeable(env, l)
  {
    if l.Junk? || env.read(l.text).None? {
      return Unreadable;
    }
    var (e, c) := env.read(l.text).value;
    if e.hash != env.sha(c) {
      return Broken;
    }
    if !env.check(c, e.sig) {
      return Broken;
    }
    if e.payload.contentHash != "" && e.payload.contentHash != env.sha(env.content(e.payload)) {
      return Broken;
    }
    var supported := env.bytes(e.payload);
    if supported.None? {
      return Unreadable;
    }
    if supported.value != c {
      return Broken;
    }
    if !ShapeOk(e.payload) {
      return Broken;
    }
    if e.payload.prevHash != prevHash {
      return Broken;
    }
    if e.payload.seqNo != (prevSeq + 1) % Words.UINT64 {
      return Broken;
    }
    v := Good(e.hash, e.payload.seqNo);
  }

  lemma LinksAppend(env: Env, docs: seq<Line>, l: Line)
    ensures Links(env, docs + [l]) == Links(env, docs) + [LinkOf(env, l)]
  {
  }

  lemma ChainPrefix(env: Env, docs: seq<Line>, n: nat)
    requires IsChain(env, docs) && n <= |docs|
    ensures IsChain(env, docs[..n])
  {
    HashChain.LinkedPrefix(Links(env, docs), n);
    assert Links(env, docs[..n]) == Links(env, docs)[..n];
  }

  lemma NonBlankStep(lines: seq<Line>, i: nat)
    requires i < |lines|
    ensures NonBlank(lines[..i + 1]) == if lines[i].Blank? then NonBlank(lines[..i]) else NonBlank(lines[..i]) + [lines[i]]
  {
    assert lines[..i + 1][..i] == lines[..i];
  }

  lemma PrefixStep(a: seq<Line>, l: Line, b: seq<Line>, c: seq<Line>)
    requires (b == a || b == a + [l]) && b <= c
    ensures a <= c
  {
  }

  lemma {:induction false} NonBlankPrefix(lines: seq<Line>, i: nat)
    requires i <= |lines|
    ensures NonBlank(lines[..i]) <= NonBlank(lines)
    decreases |lines| - i
  {
    if i == |lines| {
      assert lines[..i] == lines;
    } else {
      NonBlankStep(lines, i);
      NonBlankPrefix(lines, i + 1);
      PrefixStep(NonBlank(lines[..i]), lines[i], NonBlank(lines[..i + 1]), NonBlank(lines));
    }
  }

  lemma NonBlankAt(lines: seq<Line>, i: nat)
    requires i < |lines| && !lines[i].Blank?
    ensures var done, docs := NonBlank(lines[..i]), NonBlank(lines);
            && |done| < |docs| && docs[..|done|] == done && docs[|done|] == lines[i]
            && docs[..|done| + 1] == done + [lines[i]]
  {
    NonBlankStep(lines, i);
    NonBlankPrefix(lines, i + 1);
  }

  /** The line continues the chain of the lines before it. */
  predicate Continues(env: Env, done: seq<Line>, l: Line) {
    HashChain.LinksTo(LinkOf(env, l), HashChain.Head(Links(env, done)), |done| + 1)
  }

  lemma WalkOn(env: Env, lines: seq<Line>, i: nat)
    requires i < |lines| && !lines[i].Blank? && IsChain(env, NonBlank(lines[..i]))
    requires Continues(env, NonBlank(lines[..i]), lines[i])
    ensures var next := NonBlank(lines[..i + 1]);
            && |next| == |NonBlank(lines[..i])| + 1 && IsChain(env, next)
            && HashChain.Head(Links(env, next)) == HashChain.HashOf(LinkOf(env, lines[i]))
  {
    var done := NonBlank(lines[..i]);
    NonBlankStep(lines, i);
    LinksAppend(env, done, lines[i]);
    HashChain.LinkedStep(Links(env, done), LinkOf(env, lines[i]));
  }

  lemma WalkStops(env: Env, lines: seq<Line>, i: nat)
    requires i < |lines| && !lines[i].Blank? && IsChain(env, NonBlank(lines[..i]))
    requires !Continues(env, NonBlank(lines[..i]), lines[i])
    ensures var done, docs := NonBlank(lines[..i]), NonBlank(lines);
            && |done| < |docs| && docs[..|done|] == done && docs[|done|] == lines[i]
            && !IsChain(env, docs[..|done| + 1]) && !IsChain(env, docs)
  {
    var done, docs := NonBlank(lines[..i]), NonBlank(lines);
    NonBlankAt(lines, i);
    LinksAppend(env, done, lines[i]);
    HashChain.LinkedStep(Links(env, done), LinkOf(env, lines[i]));
    if IsChain(env, docs) { ChainPrefix(env, docs, |done| + 1); }
  }

  /** The chain is intact up to a line that cannot be judged. */
  predicate StopsAt(env: Env, docs: seq<Line>, n: nat)
    requires n < |docs|
  {
    IsChain(env, docs[..n]) && Unjudgeable(env, docs[n])
  }

  lemma SeqStep(prevSeq: nat, entries: nat)
    requires prevSeq == entries % Words.UINT64
    ensures (prevSeq + 1) % Words.UINT64 == (entries + 1) % Words.UINT64
  {
  }

  /**
   The walk. OK exactly for intact chains; otherwise the first line that breaks the chain
   is named, or a line that cannot be judged stops the run with an error.
   */
  method Verify(env: Env, lines: seq<Line>) returns (r: Outcome)
    ensures r.Result? && r.ok <==> IsChain(env, NonBlank(lines))
    ensures r.Result? && r.ok ==> r.entries == |NonBlank(lines)| && r.badEntry == 0
    ensures r.Result? && !r.ok ==>
              var docs := NonBlank(lines);
              && 1 <= r.badEntry == r.entries <= |docs|
              && IsChain(env, docs[..r.badEntry - 1]) && !IsChain(env, docs[..r.badEntry])
              && !Unjudgeable(env, docs[r.badEntry - 1])
    ensures r.ReadError? ==> exists n | 0 <= n < |NonBlank(lines)| :: StopsAt(env, NonBlank(lines), n)
  {
    var entries, prevHash, prevSeq := 0, HashChain.GENESIS, 0;
    var i := 0;
    while i < |lines|
      invariant 0 <= i <= |lines|
      invariant entries == |NonBlank(lines[..i])| && IsChain(env, NonBlank(lines[..i]))
      invariant prevHash == HashChain.Head(Links(env, NonBlank(lines[..i])))
      invariant prevSeq == entries % Words.UINT64
    {
      if lines[i].Blank? {
        NonBlankStep(lines, i);
      } else {
        var v := CheckLine(env, lines[i], prevHash, prevSeq);
        SeqStep(prevSeq, entries);
        entries := entries + 1;
        if !v.Good? {
          WalkStops(env, lines, i);
          assert v.Unreadable? ==> StopsAt(env, NonBlank(lines), entries - 1);
          return if v.Broken? then Result(entries, false, entries) else ReadError;
        }
        WalkOn(env, lines, i);
        prevHash, prevSeq := v.hash, v.seqNo;
      }
      i := i + 1;
    }
    assert lines[..i] == lines;
    r := Result(entries, true, 0);
  }
}
