/** What an accepted log proves about its contents and its history. */
module ChainLaws {
  import opened Options
  import opened Json
  import opened Entry
  import opened EntryLaws
  import opened Canonical
  import opened JsonCheck
  import opened Codec
  import opened PayloadLaws
  import opened Chain
  import HashChain
  import Strings
  import Words

  // ---------- Records of an accepted log ----------

  predicate IsSealed(pf: Platform, l: Line) { Sealed(EnvOf(pf), l) }

  function PayloadOf(pf: Platform, l: Line): Payload
    requires IsSealed(pf, l)
  {
    EntryOf(EnvOf(pf), l).payload
  }

  function SealedBytes(pf: Platform, l: Line): string
    requires IsSealed(pf, l)
  {
    BytesOf(EnvOf(pf), l)
  }

  lemma SealedFacts(pf: Platform, l: Line)
    requires IsSealed(pf, l)
    ensures var p, c := PayloadOf(pf, l), SealedBytes(pf, l);
            && Seal(pf.parse, p) == Some(c) && ShapeOk(p)
            && pf.check(c, EntryOf(EnvOf(pf), l).sig)
            && (p.contentHash != "" ==> p.contentHash == pf.sha(Content(p)))
            && LinkOf(EnvOf(pf), l) == HashChain.Link(p.prevHash, pf.sha(c), p.seqNo, c)
  {
    var env := EnvOf(pf);
    assert env.bytes(PayloadOf(pf, l)) == Seal(pf.parse, PayloadOf(pf, l));
    assert env.content(PayloadOf(pf, l)) == Content(PayloadOf(pf, l));
  }

  lemma ChainSealed(pf: Platform, docs: seq<Line>)
    requires IsChain(EnvOf(pf), docs)
    ensures forall i | 0 <= i < |docs| :: IsSealed(pf, docs[i]) && PayloadOf(pf, docs[i]).seqNo == (i + 1) % Words.UINT64
  {
    forall i | 0 <= i < |docs|
      ensures IsSealed(pf, docs[i]) && PayloadOf(pf, docs[i]).seqNo == (i + 1) % Words.UINT64
    {
      assert HashChain.LinkedAt(Links(EnvOf(pf), docs), i);
    }
  }

  // ---------- The digest on the texts that occur ----------

  /** No collision between the sealed bytes, or between the committed contents, of these lines. */
  predicate Apart(pf: Platform, x: Line, y: Line) {
    IsSealed(pf, x) && IsSealed(pf, y) ==>
      && (pf.sha(SealedBytes(pf, x)) == pf.sha(SealedBytes(pf, y)) ==> SealedBytes(pf, x) == SealedBytes(pf, y))
      && (var c, d := Content(PayloadOf(pf, x)), Content(PayloadOf(pf, y)); pf.sha(c) == pf.sha(d) ==> c == d)
  }

  ghost predicate NoCollisions(pf: Platform, a: seq<Line>, b: seq<Line>) {
    && (forall s :: pf.sha(s) != "")
    && forall i, j | 0 <= i < |a| && 0 <= j < |b| :: Apart(pf, a[i], b[j])
  }

  lemma LinesSound(pf: Platform, x: Line, y: Line)
    requires Apart(pf, x, y) && forall s :: pf.sha(s) != ""
    ensures HashChain.Sound(pf.sha, LinkOf(EnvOf(pf), x), LinkOf(EnvOf(pf), y))
  {
    if IsSealed(pf, x) && IsSealed(pf, y) {
      SealedFacts(pf, x);
      SealedFacts(pf, y);
      if SealedBytes(pf, x) == SealedBytes(pf, y) {
        SealFixesPayload(pf.parse, PayloadOf(pf, x), PayloadOf(pf, y));
      }
    }
  }

  lemma LogsSound(pf: Platform, a: seq<Line>, b: seq<Line>)
    requires NoCollisions(pf, a, b)
    ensures HashChain.AllSound(pf.sha, Links(EnvOf(pf), a), Links(EnvOf(pf), b))
  {
    var env := EnvOf(pf);
    forall i, j | 0 <= i < |a| && 0 <= j < |b| ensures HashChain.Sound(pf.sha, Links(env, a)[i], Links(env, b)[j]) {
      assert Apart(pf, a[i], b[j]);
      LinesSound(pf, a[i], b[j]);
    }
  }

  lemma LogSound(pf: Platform, a: seq<Line>)
    requires forall s :: pf.sha(s) != ""
    ensures HashChain.HashesSound(pf.sha, Links(EnvOf(pf), a))
  {
    forall i | 0 <= i < |a| ensures HashChain.Sound(pf.sha, Links(EnvOf(pf), a)[i], Links(EnvOf(pf), a)[i]) {
      LinesSound(pf, a[i], a[i]);
    }
  }

  // ---------- Equal records ----------

  /**
   The same record: every field equal and embedded values equal as values; under a content
   commitment (every call written by this version, every header) equal to the last literal.
   */
  ghost predicate SameRecord(pf: Platform, x: Line, y: Line) {
    && IsSealed(pf, x) && IsSealed(pf, y)
    && var p, q := PayloadOf(pf, x), PayloadOf(pf, y);
    && p.seqNo == q.seqNo && SamePayload(pf.parse, p, q)
    && (p.contentHash != "" || p.kind == SESSION ==> Kept(p) == Kept(q))
  }

  lemma KeptEqual(parse: Reading, p: Payload, q: Payload)
    requires Literals(parse) && Seal(parse, p).Some? && Seal(parse, q).Some?
    requires SamePayload(parse, p, q) && p.seqNo == q.seqNo && Content(p) == Content(q)
    ensures Kept(p) == Kept(q)
  {
    ContentFixesLiterals(parse, p, q);
  }

  lemma HeadersKept(p: Payload, q: Payload, parse: Reading)
    requires ShapeOk(p) && ShapeOk(q) && p.kind == SESSION && SamePayload(parse, p, q) && p.seqNo == q.seqNo
    ensures Kept(p) == Kept(q)
  {
  }

  lemma RecordsSame(pf: Platform, x: Line, y: Line)
    requires Literals(pf.parse) && IsSealed(pf, x) && IsSealed(pf, y) && Apart(pf, x, y)
    requires SealedBytes(pf, x) == SealedBytes(pf, y) && PayloadOf(pf, x).seqNo == PayloadOf(pf, y).seqNo
    ensures SameRecord(pf, x, y)
  {
    var p, q := PayloadOf(pf, x), PayloadOf(pf, y);
    SealedFacts(pf, x);
    SealedFacts(pf, y);
    SealFixesPayload(pf.parse, p, q);
    if p.contentHash != "" {
      KeptEqual(pf.parse, p, q);
    } else if p.kind == SESSION {
      HeadersKept(p, q, pf.parse);
    }
  }

  ghost predicate SameRecords(pf: Platform, a: seq<Line>, b: seq<Line>) {
    |a| == |b| && forall i | 0 <= i < |a| :: SameRecord(pf, a[i], b[i])
  }

  lemma BytesToRecords(pf: Platform, a: seq<Line>, b: seq<Line>)
    requires Literals(pf.parse) && IsChain(EnvOf(pf), a) && IsChain(EnvOf(pf), b) && NoCollisions(pf, a, b)
    requires |a| <= |b| && HashChain.SameBytes(Links(EnvOf(pf), a), Links(EnvOf(pf), b)[..|a|])
    ensures SameRecords(pf, a, b[..|a|])
  {
    var env := EnvOf(pf);
    ChainSealed(pf, a);
    ChainSealed(pf, b);
    forall i | 0 <= i < |a| ensures SameRecord(pf, a[i], b[..|a|][i]) {
      assert Links(env, a)[i].bytes == Links(env, b)[..|a|][i].bytes;
      SealedFacts(pf, a[i]);
      SealedFacts(pf, b[i]);
      assert Apart(pf, a[i], b[i]);
      RecordsSame(pf, a[i], b[i]);
    }
  }

  // ---------- The main results ----------

  /** What is assumed of the digest on two logs, in the terms of the abstract chain. */
  lemma BothSound(pf: Platform, a: seq<Line>, b: seq<Line>)
    requires NoCollisions(pf, a, b)
    ensures var la, lb := Links(EnvOf(pf), a), Links(EnvOf(pf), b);
            HashChain.HashesSound(pf.sha, la) && HashChain.HashesSound(pf.sha, lb) && HashChain.AllSound(pf.sha, la, lb)
  {
    LogSound(pf, a);
    LogSound(pf, b);
    LogsSound(pf, a, b);
  }

  lemma EqualBytes(sha: string -> string, env: Env, a: seq<Line>, b: seq<Line>)
    requires IsChain(env, a) && IsChain(env, b) && HashChain.Head(Links(env, a)) == HashChain.Head(Links(env, b))
    requires HashChain.HashesSound(sha, Links(env, a)) && HashChain.HashesSound(sha, Links(env, b))
    requires HashChain.AllSound(sha, Links(env, a), Links(env, b))
    ensures |a| == |b| && HashChain.SameBytes(Links(env, a), Links(env, b)[..|a|])
  {
    HashChain.HeadFixesHistory(sha, Links(env, a), Links(env, b));
    assert Links(env, b)[..|a|] == Links(env, b);
  }

  /**
   The last hash fixes the whole history: two accepted logs whose last records carry the
   same hash have equally many records and the same record at every position.
   */
  lemma LastHashFixesHistory(pf: Platform, a: seq<Line>, b: seq<Line>)
    requires Literals(pf.parse) && NoCollisions(pf, a, b)
    requires IsChain(EnvOf(pf), a) && IsChain(EnvOf(pf), b)
    requires HashChain.Head(Links(EnvOf(pf), a)) == HashChain.Head(Links(EnvOf(pf), b))
    ensures SameRecords(pf, a, b)
  {
    BothSound(pf, a, b);
    EqualBytes(pf.sha, EnvOf(pf), a, b);
    assert b[..|a|] == b;
    BytesToRecords(pf, a, b);
  }

  predicate SignedIn(pf: Platform, b: seq<Line>, c: string) {
    exists k | 0 <= k < |b| :: IsSealed(pf, b[k]) && SealedBytes(pf, b[k]) == c
  }

  /** Nothing in log a is forged: what is sealed and verifies there was signed for a record of b. */
  predicate Unforged(pf: Platform, a: seq<Line>, b: seq<Line>) {
    forall i | 0 <= i < |a| && IsSealed(pf, a[i]) :: SignedIn(pf, b, SealedBytes(pf, a[i]))
  }

  lemma RecordOccurs(pf: Platform, l: Line, b: seq<Line>)
    requires IsSealed(pf, l) && SignedIn(pf, b, SealedBytes(pf, l))
    ensures HashChain.Occurs(LinkOf(EnvOf(pf), l), Links(EnvOf(pf), b))
  {
    SealedFacts(pf, l);
    var k :| 0 <= k < |b| && IsSealed(pf, b[k]) && SealedBytes(pf, b[k]) == SealedBytes(pf, l);
    SealedFacts(pf, b[k]);
    assert Links(EnvOf(pf), b)[k].bytes == SealedBytes(pf, l);
  }

  lemma RecordsOccur(pf: Platform, a: seq<Line>, b: seq<Line>)
    requires Unforged(pf, a, b) && IsChain(EnvOf(pf), a)
    ensures HashChain.Comes(Links(EnvOf(pf), a), Links(EnvOf(pf), b))
  {
    ChainSealed(pf, a);
    forall i | 0 <= i < |a| ensures HashChain.Occurs(Links(EnvOf(pf), a)[i], Links(EnvOf(pf), b)) {
      RecordOccurs(pf, a[i], b);
    }
  }

  lemma PrefixBytes(sha: string -> string, env: Env, a: seq<Line>, b: seq<Line>)
    requires IsChain(env, a) && IsChain(env, b) && HashChain.Comes(Links(env, a), Links(env, b))
    requires HashChain.HashesSound(sha, Links(env, a)) && HashChain.HashesSound(sha, Links(env, b))
    requires HashChain.AllSound(sha, Links(env, a), Links(env, b)) && HashChain.AllSound(sha, Links(env, b), Links(env, b))
    ensures |a| <= |b| && HashChain.SameBytes(Links(env, a), Links(env, b)[..|a|])
  {
    HashChain.OnlyPrefixes(sha, Links(env, a), Links(env, b));
  }

  /**
   Whoever lacks the key can only cut the tail: an accepted log whose signed texts all come
   from the accepted log b is a prefix of b. Chain.ChainPrefix is the other direction.
   */
  lemma OnlyTruncation(pf: Platform, a: seq<Line>, b: seq<Line>)
    requires Literals(pf.parse) && NoCollisions(pf, a, b) && NoCollisions(pf, b, b)
    requires IsChain(EnvOf(pf), a) && IsChain(EnvOf(pf), b) && Unforged(pf, a, b)
    ensures |a| <= |b| && SameRecords(pf, a, b[..|a|])
  {
    BothSound(pf, a, b);
    BothSound(pf, b, b);
    RecordsOccur(pf, a, b);
    PrefixBytes(pf.sha, EnvOf(pf), a, b);
    BytesToRecords(pf, a, b);
  }

  /** Cutting the tail is not forging: every prefix of an accepted log is accepted and unforged. */
  lemma PrefixAccepted(pf: Platform, b: seq<Line>, n: nat)
    requires IsChain(EnvOf(pf), b) && n <= |b|
    ensures IsChain(EnvOf(pf), b[..n]) && Unforged(pf, b[..n], b)
  {
    ChainPrefix(EnvOf(pf), b, n);
    forall i | 0 <= i < n && IsSealed(pf, b[..n][i]) ensures SignedIn(pf, b, SealedBytes(pf, b[..n][i])) {
      assert IsSealed(pf, b[i]);
    }
  }

  // ---------- Every accepted line is wholly understood ----------

  lemma {:induction false} UnsealedPart(ms: seq<Member>)
    ensures forall m :: m in Unsealed(ms) <==> m in ms && !IsSeal(m)
  {
    if ms != [] {
      UnsealedPart(ms[1..]);
      assert ms == [ms[0]] + ms[1..];
    }
  }

  lemma PrependDistinct(m: Member, tail: seq<Member>)
    requires Distinct(tail) && forall j | 0 <= j < |tail| :: !SameName(m, tail[j])
    ensures Distinct([m] + tail) && Distinct([] + tail)
  {
    assert [] + tail == tail;
    var all := [m] + tail;
    forall i, j | 0 <= i < j < |all| ensures !SameName(all[i], all[j]) {
      if i > 0 { assert !SameName(tail[i - 1], tail[j - 1]); }
    }
  }

  lemma {:induction false} UnsealedDistinct(ms: seq<Member>)
    requires Distinct(ms)
    ensures Distinct(Unsealed(ms))
  {
    if ms != [] {
      var tail := Unsealed(ms[1..]);
      forall i, j | 0 <= i < j < |ms[1..]| ensures !SameName(ms[1..][i], ms[1..][j]) {
        assert !SameName(ms[i + 1], ms[j + 1]);
      }
      UnsealedDistinct(ms[1..]);
      UnsealedPart(ms[1..]);
      forall j | 0 <= j < |tail| ensures !SameName(ms[0], tail[j]) {
        assert tail[j] in ms[1..];
        var k :| 0 <= k < |ms[1..]| && ms[1..][k] == tail[j];
        assert !SameName(ms[0], ms[k + 1]);
      }
      PrependDistinct(ms[0], tail);
    }
  }

  lemma UnsealedStrict(ms: seq<Member>)
    requires Strict(Obj(ms))
    ensures Strict(Obj(Unsealed(ms)))
  {
    UnsealedDistinct(ms);
    UnsealedPart(ms);
  }

  lemma UnderstoodText(parse: Reading, ms: seq<Member>, p: Payload, c: string)
    requires Strict(Obj(ms)) && Canonicalize(parse, HtmlText(Obj(Unsealed(ms)))) == Some(c)
    requires Seal(parse, p) == Some(c)
    ensures Same(parse, Obj(Unsealed(ms)), PayloadText(p))
  {
    var u := Obj(Unsealed(ms));
    UnsealedStrict(ms);
    HtmlSame(parse, u);
    CanonicalExact(parse, u, PayloadText(p));
  }

  /**
   The stored object without its seal has the value of the re-encoded payload: no member
   is unknown, renamed, or written where the format leaves it out.
   */
  lemma WhollyUnderstood(pf: Platform, l: Line)
    requires IsSealed(pf, l)
    ensures l.Doc? && l.text.Obj? && Valid(l.text)
    ensures Same(pf.parse, Obj(Unsealed(l.text.members)), PayloadText(PayloadOf(pf, l)))
  {
    SealedFacts(pf, l);
    var t, p := l.text, PayloadOf(pf, l);
    assert EnvOf(pf).read(t) == Read(pf.parse, t);
    UnderstoodText(pf.parse, t.members, p, SealedBytes(pf, l));
  }

  predicate Named(ms: seq<Member>, name: string) {
    exists i | 0 <= i < |ms| :: Strings.Unescape(ms[i].name) == Some(name)
  }

  predicate OnlyNames(ms: seq<Member>, names: seq<string>) {
    forall i | 0 <= i < |ms| :: Strings.Unescape(ms[i].name).Some? && Strings.Unescape(ms[i].name).value in names
  }

  lemma MemberSlot(ms: seq<Member>, slots: seq<Slot>, i: nat) returns (k: nat)
    requires SlotNames(slots) && Covers(Present(slots), ms) && i < |ms|
    ensures k < |slots| && slots[k].present && Strings.Unescape(ms[i].name) == Some(slots[k].name)
  {
    assert HasMember(Present(slots), ms[i]);
    var j :| 0 <= j < |Present(slots)| && SameName(Present(slots)[j], ms[i]);
    k := SlotWritten(slots, j);
    assert slots[k] in slots;
    Strings.PlainQuote(slots[k].name);
  }

  lemma SlotMember(ms: seq<Member>, slots: seq<Slot>, k: nat)
    requires SlotNames(slots) && Covers(ms, Present(slots)) && Covers(Present(slots), ms) && k < |slots|
    ensures Named(ms, slots[k].name) <==> slots[k].present
  {
    assert slots[k] in slots;
    Strings.PlainQuote(slots[k].name);
    if slots[k].present {
      var j := WrittenSlot(slots, k);
      assert HasMember(ms, Present(slots)[j]);
      var i :| 0 <= i < |ms| && SameName(ms[i], Present(slots)[j]);
      assert Strings.Unescape(ms[i].name) == Some(slots[k].name);
    }
    if Named(ms, slots[k].name) {
      var i :| 0 <= i < |ms| && Strings.Unescape(ms[i].name) == Some(slots[k].name);
      var l := MemberSlot(ms, slots, i);
      assert l == k;
    }
  }

  lemma CoveredNames(ms: seq<Member>, slots: seq<Slot>, names: seq<string>)
    requires SlotNames(slots) && |slots| <= |names| && forall k | 0 <= k < |slots| :: slots[k].name == names[k]
    requires Covers(ms, Present(slots)) && Covers(Present(slots), ms)
    ensures OnlyNames(ms, names)
    ensures forall k | 0 <= k < |slots| :: Named(ms, slots[k].name) <==> slots[k].present
  {
    forall i | 0 <= i < |ms|
      ensures Strings.Unescape(ms[i].name).Some? && Strings.Unescape(ms[i].name).value in names
    {
      var k := MemberSlot(ms, slots, i);
      assert names[k] in names;
    }
    forall k | 0 <= k < |slots| ensures Named(ms, slots[k].name) <==> slots[k].present {
      SlotMember(ms, slots, k);
    }
  }

  /**
   Exactly the format's own names, spelled exactly, at top level: a member is there if
   and only if re-encoding the decoded payload writes it.
   */
  lemma OnlyKnownMembers(pf: Platform, l: Line)
    requires IsSealed(pf, l)
    ensures l.Doc? && l.text.Obj?
    ensures OnlyNames(Unsealed(l.text.members), NAMES)
    ensures forall s | s in Slots(PayloadOf(pf, l)) :: Named(Unsealed(l.text.members), s.name) <==> s.present
  {
    var p := PayloadOf(pf, l);
    WhollyUnderstood(pf, l);
    PayloadSlots(p);
    SameObjects(pf.parse, Unsealed(l.text.members), Present(Slots(p)));
    CoveredNames(Unsealed(l.text.members), Slots(p), NAMES);
  }

  const INFO_NAMES := ["version", "command", "args", "deny", "approve"]

  /** The value under a slot's name is the slot's value. */
  lemma SlotValue(parse: Reading, ms: seq<Member>, slots: seq<Slot>, i: nat, k: nat)
    requires SlotNames(slots) && i < |ms| && k < |slots|
    requires Covers(Present(slots), ms) && SameValues(parse, ms, Present(slots))
    requires Strings.Unescape(ms[i].name) == Some(slots[k].name)
    ensures slots[k].present && Same(parse, ms[i].value, slots[k].value)
  {
    var l := MemberSlot(ms, slots, i);
    assert l == k;
    var j := WrittenSlot(slots, k);
    assert slots[k] in slots;
    Strings.PlainQuote(slots[k].name);
    assert SameName(ms[i], Present(slots)[j]);
  }

  lemma ObjectSlot(parse: Reading, ms: seq<Member>, slots: seq<Slot>, i: nat, k: nat)
    requires SlotNames(slots) && i < |ms| && k < |slots| && Same(parse, Obj(ms), Obj(Present(slots)))
    requires Strings.Unescape(ms[i].name) == Some(slots[k].name)
    ensures slots[k].present && Same(parse, ms[i].value, slots[k].value)
  {
    SameObjects(parse, ms, Present(slots));
    SlotValue(parse, ms, slots, i, k);
  }

  function InfoSlot(info: Option<Info>): Slot {
    Slot("session_info", info.Some?, if info.Some? then InfoText(info.value) else NULL)
  }

  lemma InfoSlotOf(p: Payload)
    ensures |Slots(p)| == 12 && Slots(p)[4] == InfoSlot(p.info)
  {
  }

  lemma InfoValue(parse: Reading, ms: seq<Member>, i: nat, slots: seq<Slot>, info: Option<Info>)
    requires i < |ms| && Strings.Unescape(ms[i].name) == Some("session_info")
    requires SlotNames(slots) && |slots| == 12 && slots[4] == InfoSlot(info)
    requires Same(parse, Obj(ms), Obj(Present(slots)))
    ensures info.Some? && Same(parse, ms[i].value, InfoText(info.value))
  {
    ObjectSlot(parse, ms, slots, i, 4);
  }

  lemma ObjectNames(parse: Reading, v: Text, slots: seq<Slot>, names: seq<string>)
    requires SlotNames(slots) && |slots| <= |names| && forall k | 0 <= k < |slots| :: slots[k].name == names[k]
    requires Same(parse, v, Obj(Present(slots)))
    ensures v.Obj? && OnlyNames(v.members, names)
    ensures forall k | 0 <= k < |slots| :: Named(v.members, slots[k].name) <==> slots[k].present
  {
    SameObjects(parse, v.members, Present(slots));
    CoveredNames(v.members, slots, names);
  }

  lemma InfoMembers(parse: Reading, v: Text, info: Info)
    requires Same(parse, v, InfoText(info))
    ensures v.Obj? && OnlyNames(v.members, INFO_NAMES) && forall k | 0 <= k < 5 :: Named(v.members, INFO_NAMES[k])
  {
    var slots := InfoSlots(info);
    InfoNames(info);
    assert forall k | 0 <= k < 5 :: slots[k].present && slots[k].name == INFO_NAMES[k];
    ObjectNames(parse, v, slots, INFO_NAMES);
    assert forall k | 0 <= k < 5 :: Named(v.members, slots[k].name);
  }

  /** Inside session_info too: all five names and nothing else. */
  lemma OnlyKnownInfo(pf: Platform, l: Line, i: nat)
    requires IsSealed(pf, l) && i < |Unsealed(l.text.members)|
    requires Strings.Unescape(Unsealed(l.text.members)[i].name) == Some("session_info")
    ensures var v := Unsealed(l.text.members)[i].value;
            v.Obj? && OnlyNames(v.members, INFO_NAMES) && forall k | 0 <= k < 5 :: Named(v.members, INFO_NAMES[k])
  {
    var p, ms := PayloadOf(pf, l), Unsealed(l.text.members);
    WhollyUnderstood(pf, l);
    PayloadSlots(p);
    InfoSlotOf(p);
    InfoValue(pf.parse, ms, i, Slots(p), p.info);
    InfoMembers(pf.parse, ms[i].value, p.info.value);
  }
}
