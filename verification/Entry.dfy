/**
 Audit entries: the Go structs, how encoding/json writes them as one line and reads a
 line back, and the shapes the format defines.
 */
module Entry {
  import opened Options
  import opened Json
  import Decimal
  import Strings
  import Words

  /** json.RawMessage: absent, bytes that are not JSON, or a JSON text. */
  datatype Raw = Empty | Malformed | Value(text: Text)

  /** A []string; None is Go's nil slice. */
  type List = Option<seq<string>>

  datatype Info = Info(version: string, command: string, args: List, deny: List, approve: List)

  datatype Payload = Payload(seqNo: nat, time: string, session: string, kind: string, info: Option<Info>,
                             tool: string, args: Raw, result: Raw, error: Raw,
                             contentHash: string, decision: string, prevHash: string)

  datatype Stored = Stored(payload: Payload, hash: string, sig: string)

  const SESSION := "session"
  const DECISIONS: set<string> := {"allow", "deny", "approved", "rejected", "timeout"}

  // ---------- Shape ----------

  predicate ShapeOk(p: Payload) {
    if p.kind == SESSION then
      && p.info.Some?
      && p.tool == "" && p.args.Empty? && p.result.Empty? && p.error.Empty?
      && p.decision == "" && p.contentHash == ""
    else if p.kind == "" then
      && p.tool != ""
      && p.decision in DECISIONS
      && (p.result.Empty? || p.error.Empty?)
      && p.info.None?
    else false
  }

  // ---------- Encoding ----------

  /** A struct field: written only when present. */
  datatype Slot = Slot(name: string, present: bool, value: Text)

  function Present(slots: seq<Slot>): seq<Member> {
    if slots == [] then []
    else (if slots[0].present then [Member(slots[0].name, slots[0].value)] else []) + Present(slots[1..])
  }

  const NULL := Atom("null")

  function StrText(s: string): Text { Str(Strings.GoQuote(s)) }

  function ListText(l: List): Text {
    if l.None? then NULL else Arr(seq(|l.value|, i requires 0 <= i < |l.value| => StrText(l.value[i])))
  }

  /** What encoding/json keeps of an embedded value: its tokens, HTML-sensitive characters escaped. */
  function HtmlText(t: Text): Text {
    match t
    case Atom(_) => t
    case Str(body) => Str(Strings.Html(body))
    case Arr(elems) => Arr(seq(|elems|, i requires 0 <= i < |elems| => HtmlText(elems[i])))
    case Obj(members) =>
      Obj(seq(|members|, i requires 0 <= i < |members| =>
                Member(Strings.Html(members[i].name), HtmlText(members[i].value))))
  }

  function RawSlot(name: string, r: Raw): Slot {
    Slot(name, !r.Empty?, if r.Value? then HtmlText(r.text) else NULL)
  }

  function StrSlot(name: string, s: string): Slot { Slot(name, s != "", StrText(s)) }

  function InfoSlots(info: Info): seq<Slot> {
    [ Slot("version", true, StrText(info.version)),
      Slot("command", true, StrText(info.command)),
      Slot("args", true, ListText(info.args)),
      Slot("deny", true, ListText(info.deny)),
      Slot("approve", true, ListText(info.approve)) ]
  }

  function InfoText(info: Info): Text { Obj(Present(InfoSlots(info))) }

  /** The payload's fields in declaration order. */
  function Slots(p: Payload): seq<Slot> {
    [ Slot("seq", true, Atom(Decimal.Natural(p.seqNo))),
      Slot("ts", true, StrText(p.time)),
      Slot("session", true, StrText(p.session)),
      StrSlot("kind", p.kind),
      Slot("session_info", p.info.Some?, if p.info.Some? then InfoText(p.info.value) else NULL),
      StrSlot("tool", p.tool),
      RawSlot("args", p.args),
      RawSlot("result", p.result),
      RawSlot("error", p.error),
      StrSlot("content_hash", p.contentHash),
      StrSlot("decision", p.decision),
      Slot("prev_hash", true, StrText(p.prevHash)) ]
  }

  function SealSlots(hash: string, sig: string): seq<Slot> {
    [Slot("hash", true, StrText(hash)), Slot("sig", true, StrText(sig))]
  }

  predicate Encodable(p: Payload) {
    !p.args.Malformed? && !p.result.Malformed? && !p.error.Malformed?
  }

  function PayloadText(p: Payload): Text { Obj(Present(Slots(p))) }

  function EntryText(e: Stored): Text { Obj(Present(Slots(e.payload) + SealSlots(e.hash, e.sig))) }

  /** The exact-literal commitment to args, result and error. */
  function ContentText(p: Payload): Text {
    Obj(Present([RawSlot("args", p.args), RawSlot("result", p.result), RawSlot("error", p.error)]))
  }

  // ---------- Decoding ----------

  /** Unicode case folding, as far as it can meet an ASCII name. */
  function FoldChar(c: char): char {
    if 'A' <= c <= 'Z' then (c as int + 32) as char
    else if c == 0x017F as char then 's'
    else if c == 0x212A as char then 'k'
    else c
  }

  function Fold(s: string): string {
    seq(|s|, i requires 0 <= i < |s| => FoldChar(s[i]))
  }

  /** The member fills the struct field of this name: exactly, or by case folding. */
  predicate Matches(m: Member, name: string) {
    Strings.Unescape(m.name).Some? && Fold(Strings.Unescape(m.name).value) == Fold(name)
  }

  /** The values a field receives, in order. */
  function Values(ms: seq<Member>, name: string): seq<Text> {
    if ms == [] then []
    else (if Matches(ms[0], name) then [ms[0].value] else []) + Values(ms[1..], name)
  }

  function TakeString(vs: seq<Text>, acc: string): Option<string> {
    if vs == [] then Some(acc)
    else if vs[0] == NULL then TakeString(vs[1..], acc)
    else if vs[0].Str? && Strings.Unescape(vs[0].body).Some?
      then TakeString(vs[1..], Strings.Unescape(vs[0].body).value)
    else None
  }

  /** strconv.ParseUint on a literal: digits only, below 2^64. */
  function ParseUint(lit: string): Option<nat> {
    if lit == "" || !Decimal.AllDigits(lit) then None
    else if Decimal.DigitsValue(lit) < Words.UINT64 then Some(Decimal.DigitsValue(lit)) else None
  }

  function TakeUint(vs: seq<Text>, acc: nat): Option<nat> {
    if vs == [] then Some(acc)
    else if vs[0] == NULL then TakeUint(vs[1..], acc)
    else if vs[0].Atom? && ParseUint(vs[0].lit).Some? then TakeUint(vs[1..], ParseUint(vs[0].lit).value)
    else None
  }

  function TakeRaw(vs: seq<Text>): Raw {
    if vs == [] then Empty else Value(vs[|vs| - 1])
  }

  function StringsOf(es: seq<Text>): Option<seq<string>> {
    if es == [] then Some([])
    else
      var first := TakeString([es[0]], "");
      var rest := StringsOf(es[1..]);
      if first.None? || rest.None? then None else Some([first.value] + rest.value)
  }

  function TakeList(vs: seq<Text>, acc: List): Option<List> {
    if vs == [] then Some(acc)
    else if vs[0] == NULL then TakeList(vs[1..], None)
    else if vs[0].Arr? && StringsOf(vs[0].elems).Some? then TakeList(vs[1..], StringsOf(vs[0].elems))
    else None
  }

  function DecodeInfo(ms: seq<Member>, acc: Info): Option<Info> {
    var version := TakeString(Values(ms, "version"), acc.version);
    var command := TakeString(Values(ms, "command"), acc.command);
    var args := TakeList(Values(ms, "args"), acc.args);
    var deny := TakeList(Values(ms, "deny"), acc.deny);
    var approve := TakeList(Values(ms, "approve"), acc.approve);
    if version.None? || command.None? || args.None? || deny.None? || approve.None? then None
    else Some(Info(version.value, command.value, args.value, deny.value, approve.value))
  }

  const ZERO_INFO := Info("", "", None, None, None)

  /** A pointer field: null clears it, an object fills the struct it points to. */
  function TakeInfo(vs: seq<Text>, acc: Option<Info>): Option<Option<Info>> {
    if vs == [] then Some(acc)
    else if vs[0] == NULL then TakeInfo(vs[1..], None)
    else if vs[0].Obj? then
      var info := DecodeInfo(vs[0].members, if acc.Some? then acc.value else ZERO_INFO);
      if info.None? then None else TakeInfo(vs[1..], info)
    else None
  }

  /** json.Unmarshal of an object into an Entry; None is its error. */
  function DecodeEntry(ms: seq<Member>): Option<Stored> {
    var seqNo := TakeUint(Values(ms, "seq"), 0);
    var time := TakeString(Values(ms, "ts"), "");
    var session := TakeString(Values(ms, "session"), "");
    var kind := TakeString(Values(ms, "kind"), "");
    var info := TakeInfo(Values(ms, "session_info"), None);
    var tool := TakeString(Values(ms, "tool"), "");
    var content := TakeString(Values(ms, "content_hash"), "");
    var decision := TakeString(Values(ms, "decision"), "");
    var prev := TakeString(Values(ms, "prev_hash"), "");
    var hash := TakeString(Values(ms, "hash"), "");
    var sig := TakeString(Values(ms, "sig"), "");
    if seqNo.None? || time.None? || session.None? || kind.None? || info.None? || tool.None? ||
       content.None? || decision.None? || prev.None? || hash.None? || sig.None? then None
    else Some(Stored(Payload(seqNo.value, time.value, session.value, kind.value, info.value, tool.value,
                             TakeRaw(Values(ms, "args")), TakeRaw(Values(ms, "result")), TakeRaw(Values(ms, "error")),
                             content.value, decision.value, prev.value), hash.value, sig.value))
  }

  /** The stored members without the seal: delete(fields, "hash"), delete(fields, "sig"). */
  predicate IsSeal(m: Member) {
    Strings.Unescape(m.name) in {Some("hash"), Some("sig")}
  }

  function Unsealed(ms: seq<Member>): seq<Member> {
    if ms == [] then []
    else (if IsSeal(ms[0]) then [] else [ms[0]]) + Unsealed(ms[1..])
  }
}
