/** The concrete codec of the log: which bytes a payload is sealed over. */
module Codec {
  import opened Options
  import opened Json
  import opened Entry
  import opened EntryLaws
  import opened Canonical
  import opened JsonCheck
  import Chain
  import HashChain
  import Strings
  import Words

  /** What comes from outside: binary64 parsing, SHA-256 in hex, signature checking under one key. */
  datatype Platform = Platform(parse: Reading, sha: string -> string, check: (string, string) -> bool)

  /** canonicalizeJSON: validate, then print the canonical tree. */
  function Canonicalize(parse: Reading, t: Text): Option<string> {
    if Valid(t) && Canon(parse, t).Some? then Some(Print(Canon(parse, t).value)) else None
  }

  /** payload.canonical: the bytes hashed and signed. */
  function Seal(parse: Reading, p: Payload): Option<string> {
    if Encodable(p) then Canonicalize(parse, PayloadText(p)) else None
  }

  /** The text under payload.contentDigest. */
  function Content(p: Payload): string { Print(ContentText(p)) }

  /** decodeEntry: the entry, and the canonical bytes of the stored object minus its seal. */
  function Read(parse: Reading, t: Text): Option<(Stored, string)> {
    if !Valid(t) || !t.Obj? then None
    else
      var e := DecodeEntry(t.members);
      var c := Canonicalize(parse, HtmlText(Obj(Unsealed(t.members))));
      if e.None? || c.None? then None else Some((e.value, c.value))
  }

  function EnvOf(pf: Platform): Chain.Env {
    Chain.Env(t => Read(pf.parse, t), p => Seal(pf.parse, p), Content, pf.sha, pf.check)
  }

  // ---------- A written line is a sealed line ----------

  lemma HtmlCanonicalize(parse: Reading, t: Text)
    requires Valid(t)
    ensures Canonicalize(parse, HtmlText(t)) == Canonicalize(parse, t)
  {
    HtmlSame(parse, t);
    HtmlHeight(t);
  }

  lemma {:induction false} HeightAppend(a: seq<Member>, b: seq<Member>)
    ensures HeightMembers(a + b) == Max(HeightMembers(a), HeightMembers(b))
  {
    if a == [] {
      assert a + b == b;
    } else {
      HeightAppend(a[1..], b);
      assert (a + b)[1..] == a[1..] + b;
    }
  }

  lemma EntryMembers(e: Stored)
    ensures EntryText(e).members ==
            PayloadText(e.payload).members + [Member("hash", StrText(e.hash)), Member("sig", StrText(e.sig))]
  {
    PresentAppend(Slots(e.payload), SealSlots(e.hash, e.sig));
    SealMembers(e.hash, e.sig);
  }

  lemma SealStrict(hash: string, sig: string)
    ensures Strings.Unescape("hash") == Some("hash") && Strings.Unescape("sig") == Some("sig")
    ensures Strict(StrText(hash)) && Strict(StrText(sig))
  {
    AllPlain();
    Strings.PlainQuote("hash");
    Strings.PlainQuote("sig");
    Strings.GoQuoteDecodes(hash);
    Strings.GoQuoteDecodes(sig);
  }

  lemma StrictWithSeal(a: seq<Member>, hash: Text, sig: Text)
    requires Strict(Obj(a)) && (forall m | m in a :: !IsSeal(m)) && Strict(hash) && Strict(sig)
    requires Strings.Unescape("hash") == Some("hash") && Strings.Unescape("sig") == Some("sig")
    ensures Strict(Obj(a + [Member("hash", hash), Member("sig", sig)]))
  {
    var all := a + [Member("hash", hash), Member("sig", sig)];
    forall i, j | 0 <= i < j < |all| ensures !SameName(all[i], all[j]) {
      if j < |a| {
        assert !SameName(a[i], a[j]);
      } else if i < |a| {
        assert !IsSeal(a[i]);
      }
    }
  }

  lemma HeightWithSeal(a: seq<Member>, hash: string, sig: string)
    ensures HeightMembers(a + [Member("hash", StrText(hash)), Member("sig", StrText(sig))]) == HeightMembers(a)
  {
    var seal := [Member("hash", StrText(hash)), Member("sig", StrText(sig))];
    HeightAppend(a, seal);
    assert seal[1..] == [seal[1]] && seal[1..][1..] == [];
    assert HeightMembers(seal[1..]) == 0;
    assert HeightMembers(seal) == 0;
  }

  lemma EntryValid(e: Stored)
    requires Valid(PayloadText(e.payload))
    ensures Valid(EntryText(e))
  {
    var a := PayloadText(e.payload).members;
    EntryMembers(e);
    SealStrict(e.hash, e.sig);
    PayloadHasNoSeal(e);
    StrictWithSeal(a, StrText(e.hash), StrText(e.sig));
    HeightWithSeal(a, e.hash, e.sig);
  }

  /** Reading back a written entry: the same canonical bytes it was sealed over. */
  lemma ReadWritten(parse: Reading, e: Stored)
    requires e.payload.seqNo < Words.UINT64 && Seal(parse, e.payload).Some?
    ensures Read(parse, EntryText(e)) == Some((Stored(Kept(e.payload), e.hash, e.sig), Seal(parse, e.payload).value))
  {
    EntryValid(e);
    EntryRoundTrip(e);
    UnsealedEntry(e);
    HtmlCanonicalize(parse, PayloadText(e.payload));
  }

  lemma KeptShape(p: Payload)
    ensures ShapeOk(Kept(p)) == ShapeOk(p)
    ensures Encodable(Kept(p)) == Encodable(p)
  {
  }

  /** What the writer must have done for its line to be accepted. */
  predicate WellMade(pf: Platform, e: Stored, c: string) {
    && e.payload.seqNo < Words.UINT64 && ShapeOk(e.payload)
    && Seal(pf.parse, e.payload) == Some(c)
    && e.hash == pf.sha(c) && pf.check(c, e.sig)
    && (e.payload.contentHash != "" ==> e.payload.contentHash == pf.sha(Content(e.payload)))
  }

  /** A well-made entry is a sealed line and becomes the link it was meant to be. */
  lemma WrittenIsSealed(pf: Platform, e: Stored, c: string)
    requires WellMade(pf, e, c)
    ensures Chain.Sealed(EnvOf(pf), Chain.Doc(EntryText(e)))
    ensures Chain.EntryOf(EnvOf(pf), Chain.Doc(EntryText(e))) == Stored(Kept(e.payload), e.hash, e.sig)
    ensures Chain.LinkOf(EnvOf(pf), Chain.Doc(EntryText(e)))
         == HashChain.Link(e.payload.prevHash, e.hash, e.payload.seqNo, c)
  {
    ReadWritten(pf.parse, e);
    KeptSame(e.payload);
    KeptShape(e.payload);
    assert EnvOf(pf).read(EntryText(e)) == Some((Stored(Kept(e.payload), e.hash, e.sig), c));
  }
}
