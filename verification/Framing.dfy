/** Newline framing: pump and readMessage over a buffered reader that may cut anywhere. */
module Framing {
  import opened Options
  import opened Bytes

  const LF: Byte := 10
  const MAX_MESSAGE := 16 * 1024 * 1024

  type Text = seq<Byte>

  // ---------- The buffered reader ----------

  /** How ReadSlice ends: at the delimiter, with a full buffer, at EOF, or on a read error. */
  datatype Status = Delimiter | BufferFull | Eof | Failed

  datatype Fragment = Fragment(bytes: Text, status: Status)

  /** What one ReadSlice can return. */
  predicate FragmentOk(f: Fragment) {
    if f.status.Delimiter? then f.bytes != [] && f.bytes[|f.bytes| - 1] == LF && LF !in f.bytes[..|f.bytes| - 1]
    else LF !in f.bytes
  }

  /** Any way of delivering a stream: fragments up to the first EOF or error. */
  predicate Delivery(fs: seq<Fragment>) {
    && fs != []
    && (forall i | 0 <= i < |fs| :: FragmentOk(fs[i]))
    && (forall i | 0 <= i < |fs| :: (fs[i].status.Eof? || fs[i].status.Failed?) <==> i == |fs| - 1)
  }

  function Stream(fs: seq<Fragment>): Text {
    if fs == [] then [] else fs[0].bytes + Stream(fs[1..])
  }

  function End(fs: seq<Fragment>): Status
    requires fs != []
  {
    fs[|fs| - 1].status
  }

  class Source {
    var rest: seq<Fragment>

    constructor (fs: seq<Fragment>)
      ensures rest == fs
    {
      rest := fs;
    }

    method ReadSlice() returns (f: Fragment)
      requires rest != []
      modifies this
      ensures f == old(rest)[0] && rest == old(rest)[1..]
    {
      f := rest[0];
      rest := rest[1..];
    }
  }

  // ---------- Messages of a stream ----------

  /** The first message: through the first LF, or everything. */
  function Line(s: Text): (m: Text)
    ensures |m| <= |s| && m == s[..|m|]
    ensures s != [] ==> m != []
  {
    if s == [] then [] else if s[0] == LF then [LF] else [s[0]] + Line(s[1..])
  }

  function Messages(s: Text): seq<Text> {
    if s == [] then [] else [Line(s)] + Messages(s[|Line(s)|..])
  }

  function Flatten(ms: seq<Text>): Text {
    if ms == [] then [] else ms[0] + Flatten(ms[1..])
  }

  predicate Terminated(m: Text) { m != [] && m[|m| - 1] == LF && LF !in m[..|m| - 1] }

  lemma {:induction false} LineSplits(head: Text, tail: Text)
    requires LF !in head
    ensures Line(head + tail) == head + Line(tail)
  {
    if head == [] {
      assert head + tail == tail;
    } else {
      assert (head + tail)[1..] == head[1..] + tail;
      LineSplits(head[1..], tail);
      assert head == [head[0]] + head[1..];
    }
  }

  lemma LineTerminated(m: Text, tail: Text)
    requires Terminated(m)
    ensures Line(m + tail) == m
  {
    var head := m[..|m| - 1];
    assert m + tail == head + ([LF] + tail);
    LineSplits(head, [LF] + tail);
  }

  lemma LineUnterminated(m: Text)
    requires LF !in m
    ensures Line(m) == m
  {
    LineSplits(m, []);
    assert m + [] == m;
  }

  lemma FlattenStep(m: Text, ms: seq<Text>)
    ensures Flatten([m] + ms) == m + Flatten(ms)
  {
    assert ([m] + ms)[1..] == ms;
  }

  lemma Rejoin(s: Text, n: nat)
    requires n <= |s|
    ensures s[..n] + s[n..] == s
  {
  }

  lemma MessagesStep(s: Text)
    requires s != []
    ensures Messages(s)[0] == Line(s) && Messages(s)[1..] == Messages(s[|Line(s)|..])
  {
  }

  lemma CoverStep(s: Text, rest: Text)
    requires s != [] && rest == s[|Line(s)|..] && Flatten(Messages(rest)) == rest
    ensures Flatten(Messages(s)) == s
  {
    MessagesStep(s);
    FlattenStep(Line(s), Messages(rest));
    Rejoin(s, |Line(s)|);
  }

  /** Splitting loses nothing. */
  lemma {:induction false} MessagesCover(s: Text)
    ensures Flatten(Messages(s)) == s
    decreases |s|
  {
    if s != [] {
      MessagesCover(s[|Line(s)|..]);
      CoverStep(s, s[|Line(s)|..]);
    }
  }

  lemma {:induction false} LineShape(s: Text)
    requires s != []
    ensures Terminated(Line(s)) || (Line(s) == s && LF !in s)
  {
    if s[0] == LF {
    } else if s[1..] == [] {
      assert s == [s[0]];
    } else {
      LineShape(s[1..]);
      var m := Line(s[1..]);
      assert Line(s) == [s[0]] + m && s == [s[0]] + s[1..];
      if Terminated(m) {
        assert Line(s)[..|m|] == [s[0]] + m[..|m| - 1];
      }
    }
  }

  /** Only the last message can lack its LF. */
  lemma {:induction false} MessagesTerminated(s: Text)
    ensures forall i | 0 <= i < |Messages(s)| - 1 :: Terminated(Messages(s)[i])
    decreases |s|
  {
    if s != [] {
      var rest := s[|Line(s)|..];
      MessagesTerminated(rest);
      MessagesStep(s);
      LineShape(s);
      assert rest == [] ==> |Messages(s)| == 1;
      assert forall i | 1 <= i < |Messages(s)| :: Messages(s)[i] == Messages(rest)[i - 1];
    }
  }

  // ---------- readMessage ----------

  datatype Read = Message(line: Text, status: Status) | TooLong

  lemma DeliveryTail(fs: seq<Fragment>)
    requires Delivery(fs) && (fs[0].status.Delimiter? || fs[0].status.BufferFull?)
    ensures Delivery(fs[1..]) && End(fs[1..]) == End(fs) && Stream(fs) == fs[0].bytes + Stream(fs[1..])
  {
    var t := fs[1..];
    assert |fs| > 1;
    assert forall i | 0 <= i < |t| :: t[i] == fs[i + 1];
    assert forall i | 0 <= i < |t| :: (t[i].status.Eof? || t[i].status.Failed?) <==> i + 1 == |fs| - 1;
  }

  lemma DeliveryLast(fs: seq<Fragment>)
    requires Delivery(fs) && (fs[0].status.Eof? || fs[0].status.Failed?)
    ensures Stream(fs) == fs[0].bytes && End(fs) == fs[0].status && |fs| == 1
  {
    assert fs[1..] == [];
  }

  lemma TakeFragment(line: Text, bytes: Text, later: Text)
    requires LF !in line
    ensures LF !in bytes ==> LF !in line + bytes && Line(line + bytes) == line + bytes
                             && Line(line + (bytes + later)) == (line + bytes) + Line(later)
    ensures bytes != [] && bytes[|bytes| - 1] == LF && LF !in bytes[..|bytes| - 1] ==>
              Terminated(line + bytes) && Line(line + (bytes + later)) == line + bytes
  {
    assert line + (bytes + later) == (line + bytes) + later;
    if LF !in bytes {
      LineUnterminated(line + bytes);
      LineSplits(line + bytes, later);
    }
    if bytes != [] && bytes[|bytes| - 1] == LF && LF !in bytes[..|bytes| - 1] {
      var m := line + bytes;
      assert m[..|m| - 1] == line + bytes[..|bytes| - 1];
      LineTerminated(m, later);
    }
  }

  /** What is read so far and what is to come is the stream s. */
  ghost predicate Gathering(s: Text, line: Text, rest: seq<Fragment>, end: Status) {
    Delivery(rest) && End(rest) == end && LF !in line && |line| <= MAX_MESSAGE && line + Stream(rest) == s
  }

  lemma GatherDelimiter(s: Text, line: Text, fs: seq<Fragment>, end: Status)
    requires Gathering(s, line, fs, end) && fs[0].status.Delimiter?
    ensures Line(s) == line + fs[0].bytes && Terminated(Line(s)) && s[|Line(s)|..] == Stream(fs[1..])
    ensures Delivery(fs[1..]) && End(fs[1..]) == end
  {
    assert FragmentOk(fs[0]);
    DeliveryTail(fs);
    TakeFragment(line, fs[0].bytes, Stream(fs[1..]));
    assert s == (line + fs[0].bytes) + Stream(fs[1..]);
  }

  lemma Regroup(a: Text, b: Text, c: Text)
    ensures a + (b + c) == (a + b) + c
  {
  }

  lemma GatherFull(s: Text, line: Text, fs: seq<Fragment>, end: Status)
    requires Gathering(s, line, fs, end) && fs[0].status.BufferFull?
    ensures |Line(s)| >= |line| + |fs[0].bytes|
    ensures |line| + |fs[0].bytes| <= MAX_MESSAGE ==> Gathering(s, line + fs[0].bytes, fs[1..], end)
  {
    assert FragmentOk(fs[0]);
    DeliveryTail(fs);
    Regroup(line, fs[0].bytes, Stream(fs[1..]));
    TakeFragment(line, fs[0].bytes, Stream(fs[1..]));
  }

  lemma GatherLast(s: Text, line: Text, fs: seq<Fragment>, end: Status)
    requires Gathering(s, line, fs, end) && (fs[0].status.Eof? || fs[0].status.Failed?)
    ensures Line(s) == line + fs[0].bytes == s && LF !in s && fs[0].status == end
  {
    assert FragmentOk(fs[0]);
    DeliveryLast(fs);
    LineUnterminated(line + fs[0].bytes);
  }

  /**
   One message, however it was cut: exactly the stream's first line, the end of the stream,
   or a refusal when that line exceeds the limit.
   */
  method ReadMessage(src: Source) returns (r: Read)
    requires Delivery(src.rest)
    modifies src
    ensures var s := old(Stream(src.rest));
            if |Line(s)| > MAX_MESSAGE then r == TooLong
            else && r == Message(Line(s), if Terminated(Line(s)) then Delimiter else old(End(src.rest)))
                 && (Terminated(Line(s)) ==> Delivery(src.rest) && Stream(src.rest) == s[|Line(s)|..]
                                             && End(src.rest) == old(End(src.rest)))
                 && (!Terminated(Line(s)) ==> Line(s) == s)
  {
    ghost var s, end := Stream(src.rest), End(src.rest);
    var line: Text := [];
    assert line + Stream(src.rest) == s;
    while true
      invariant Gathering(s, line, src.rest, end)
      decreases |src.rest|
    {
      if src.rest[0].status.Delimiter? {
        GatherDelimiter(s, line, src.rest, end);
      } else if src.rest[0].status.BufferFull? {
        GatherFull(s, line, src.rest, end);
      } else {
        GatherLast(s, line, src.rest, end);
      }
      var f := src.ReadSlice();
      if |f.bytes| > MAX_MESSAGE - |line| {
        return TooLong;
      }
      line := line + f.bytes;
      if !f.status.BufferFull? {
        return Message(line, f.status);
      }
    }
  }

  // ---------- pump ----------

  datatype Fault = ReadFault | Oversized | WriteFault

  /** What the pump has done: bytes written, messages shown to the handler, and how it ended. */
  datatype Pumped = Pumped(out: Text, seen: seq<Text>, fault: Option<Fault>)

  /** The handler's answer and the writer's for the n-th message. */
  datatype Peers = Peers(keep: (nat, Text) -> bool, accept: nat -> bool)

  /**
   The pump by messages. In the request direction the handler sees a message first and may
   veto it; in the response direction it only observes what was written.
   */
  function Pump(ms: seq<Text>, n: nat, peers: Peers, inspectFirst: bool, end: Status): Pumped {
    if ms == [] then Pumped([], [], if end.Eof? then None else Some(ReadFault))
    else
      var m := ms[0];
      if |m| > MAX_MESSAGE then Pumped([], [], Some(Oversized))
      else if inspectFirst && !peers.keep(n, m) then
        var later := Pump(ms[1..], n + 1, peers, inspectFirst, end);
        Pumped(later.out, [m] + later.seen, later.fault)
      else if !peers.accept(n) then Pumped([], if inspectFirst then [m] else [], Some(WriteFault))
      else
        var later := Pump(ms[1..], n + 1, peers, inspectFirst, end);
        Pumped(m + later.out, [m] + later.seen, later.fault)
  }

  /** The part already done, before a later part. */
  function Before(out: Text, seen: seq<Text>, p: Pumped): Pumped {
    Pumped(out + p.out, seen + p.seen, p.fault)
  }

  /** What is done so far, before the effect of the rest of the stream, is the whole effect. */
  ghost predicate Pumping(goal: Pumped, out: Text, seen: seq<Text>, s: Text, n: nat, peers: Peers,
                          inspectFirst: bool, end: Status) {
    goal == Before(out, seen, Pump(Messages(s), n, peers, inspectFirst, end))
  }

  function Written(m: Text, n: nat, peers: Peers, inspectFirst: bool): Text {
    if inspectFirst && !peers.keep(n, m) then [] else m
  }

  lemma PumpStep(ms: seq<Text>, n: nat, peers: Peers, inspectFirst: bool, end: Status)
    requires ms != [] && |ms[0]| <= MAX_MESSAGE && ((inspectFirst && !peers.keep(n, ms[0])) || peers.accept(n))
    ensures Pump(ms, n, peers, inspectFirst, end) ==
            Before(Written(ms[0], n, peers, inspectFirst), [ms[0]], Pump(ms[1..], n + 1, peers, inspectFirst, end))
  {
    var later := Pump(ms[1..], n + 1, peers, inspectFirst, end);
    assert [] + later.out == later.out;
  }

  lemma BeforeTwice(a: Text, x: seq<Text>, b: Text, y: seq<Text>, p: Pumped)
    ensures Before(a, x, Before(b, y, p)) == Before(a + b, x + y, p)
  {
    assert a + (b + p.out) == (a + b) + p.out;
    assert x + (y + p.seen) == (x + y) + p.seen;
  }

  /** One message of acceptable size that the writer takes or the handler vetoes. */
  lemma PumpOn(goal: Pumped, out: Text, seen: seq<Text>, s: Text, n: nat, peers: Peers, inspectFirst: bool, end: Status)
    requires Pumping(goal, out, seen, s, n, peers, inspectFirst, end)
    requires s != [] && |Line(s)| <= MAX_MESSAGE
    requires (inspectFirst && !peers.keep(n, Line(s))) || peers.accept(n)
    ensures Pumping(goal, out + Written(Line(s), n, peers, inspectFirst), seen + [Line(s)],
                    s[|Line(s)|..], n + 1, peers, inspectFirst, end)
  {
    MessagesStep(s);
    PumpStep(Messages(s), n, peers, inspectFirst, end);
    BeforeTwice(out, seen, Written(Line(s), n, peers, inspectFirst), [Line(s)],
                Pump(Messages(s[|Line(s)|..]), n + 1, peers, inspectFirst, end));
  }

  /** The three ways to stop. */
  lemma PumpStops(goal: Pumped, out: Text, seen: seq<Text>, s: Text, n: nat, peers: Peers, inspectFirst: bool, end: Status)
    requires Pumping(goal, out, seen, s, n, peers, inspectFirst, end)
    ensures s == [] ==> goal == Pumped(out, seen, if end.Eof? then None else Some(ReadFault))
    ensures s != [] && |Line(s)| > MAX_MESSAGE ==> goal == Pumped(out, seen, Some(Oversized))
    ensures s != [] && |Line(s)| <= MAX_MESSAGE && !(inspectFirst && !peers.keep(n, Line(s))) && !peers.accept(n) ==>
              goal == Pumped(out, if inspectFirst then seen + [Line(s)] else seen, Some(WriteFault))
  {
    if s != [] { MessagesStep(s); }
    assert out + [] == out && seen + [] == seen;
  }

  /** The whole loop: its effect is that of the messages of the stream, for every fragmentation. */
  method RunPump(src: Source, peers: Peers, inspectFirst: bool) returns (r: Pumped)
    requires Delivery(src.rest)
    modifies src
    ensures r == Pump(Messages(old(Stream(src.rest))), 0, peers, inspectFirst, old(End(src.rest)))
  {
    ghost var goal, end := Pump(Messages(Stream(src.rest)), 0, peers, inspectFirst, End(src.rest)), End(src.rest);
    var out: Text, seen: seq<Text>, n: nat := [], [], 0;
    while true
      invariant Delivery(src.rest) && End(src.rest) == end
      invariant Pumping(goal, out, seen, Stream(src.rest), n, peers, inspectFirst, end)
      decreases |Stream(src.rest)|
    {
      ghost var s := Stream(src.rest);
      PumpStops(goal, out, seen, s, n, peers, inspectFirst, end);
      var got := ReadMessage(src);
      if got.TooLong? {
        return Pumped(out, seen, Some(Oversized));
      }
      var line := got.line;
      if line != [] {
        if inspectFirst {
          if peers.keep(n, line) {
            if !peers.accept(n) {
              return Pumped(out, seen + [line], Some(WriteFault));
            }
            PumpOn(goal, out, seen, s, n, peers, inspectFirst, end);
            out := out + line;
          } else {
            PumpOn(goal, out, seen, s, n, peers, inspectFirst, end);
            assert out + [] == out;
          }
        } else {
          if !peers.accept(n) {
            return Pumped(out, seen, Some(WriteFault));
          }
          PumpOn(goal, out, seen, s, n, peers, inspectFirst, end);
          out := out + line;
        }
        seen := seen + [line];
        n := n + 1;
      }
      PumpStops(goal, out, seen, s[|line|..], n, peers, inspectFirst, end);
      if !got.status.Delimiter? {
        return Pumped(out, seen, if got.status.Eof? then None else Some(ReadFault));
      }
    }
  }

  // ---------- What the pump's effect is ----------

  /** Messages the handler did not veto, in order. */
  function Kept(ms: seq<Text>, n: nat, peers: Peers, inspectFirst: bool): seq<Text> {
    if ms == [] then []
    else (if inspectFirst && !peers.keep(n, ms[0]) then [] else [ms[0]]) + Kept(ms[1..], n + 1, peers, inspectFirst)
  }

  /** The n-th message is of acceptable size and is vetoed or taken by the writer. */
  predicate Passes(m: Text, n: nat, peers: Peers, inspectFirst: bool) {
    |m| <= MAX_MESSAGE && ((inspectFirst && !peers.keep(n, m)) || peers.accept(n))
  }

  /** The first message that ends the session, or the number of messages. */
  function Stop(ms: seq<Text>, n: nat, peers: Peers, inspectFirst: bool): (k: nat)
    ensures k <= |ms|
    ensures forall i | 0 <= i < k :: Passes(ms[i], n + i, peers, inspectFirst)
    ensures k < |ms| ==> !Passes(ms[k], n + k, peers, inspectFirst)
  {
    if ms == [] || !Passes(ms[0], n, peers, inspectFirst) then 0
    else
      var k := Stop(ms[1..], n + 1, peers, inspectFirst);
      assert forall i | 1 <= i < k + 1 :: ms[i] == ms[1..][i - 1];
      k + 1
  }

  /** How the session ends when k is the first message that does not pass. */
  function FaultAt(ms: seq<Text>, k: nat, end: Status): Option<Fault> {
    if k < |ms| then Some(if |ms[k]| > MAX_MESSAGE then Oversized else WriteFault)
    else if end.Eof? then None
    else Some(ReadFault)
  }

  /** What the handler has seen by then: in the request direction also a message the writer refused. */
  function SeenAt(ms: seq<Text>, k: nat, inspectFirst: bool): seq<Text>
    requires k <= |ms|
  {
    if k < |ms| && inspectFirst && |ms[k]| <= MAX_MESSAGE then ms[..k + 1] else ms[..k]
  }

  /** The tail's counterparts of the prefix before message k. */
  lemma PrefixTail(ms: seq<Text>, n: nat, k: nat, peers: Peers, inspectFirst: bool)
    requires ms != [] && k < |ms|
    ensures Flatten(Kept(ms[..k + 1], n, peers, inspectFirst)) ==
            Written(ms[0], n, peers, inspectFirst) + Flatten(Kept(ms[1..][..k], n + 1, peers, inspectFirst))
  {
    assert ms[..k + 1][0] == ms[0] && ms[..k + 1][1..] == ms[1..][..k];
    var kept := Kept(ms[1..][..k], n + 1, peers, inspectFirst);
    assert [] + kept == kept;
    FlattenStep(ms[0], kept);
  }

  lemma SeenTail(ms: seq<Text>, k: nat, inspectFirst: bool)
    requires ms != [] && k < |ms|
    ensures SeenAt(ms, k + 1, inspectFirst) == [ms[0]] + SeenAt(ms[1..], k, inspectFirst)
  {
  }

  predicate Exact(p: Pumped, ms: seq<Text>, n: nat, k: nat, peers: Peers, inspectFirst: bool, end: Status)
    requires k <= |ms|
  {
    && p.out == Flatten(Kept(ms[..k], n, peers, inspectFirst))
    && p.seen == SeenAt(ms, k, inspectFirst)
    && p.fault == FaultAt(ms, k, end)
  }

  lemma ExactStep(later: Pumped, ms: seq<Text>, n: nat, k: nat, peers: Peers, inspectFirst: bool, end: Status)
    requires ms != [] && k < |ms| && Exact(later, ms[1..], n + 1, k, peers, inspectFirst, end)
    ensures Exact(Before(Written(ms[0], n, peers, inspectFirst), [ms[0]], later), ms, n, k + 1, peers, inspectFirst, end)
  {
    PrefixTail(ms, n, k, peers, inspectFirst);
    SeenTail(ms, k, inspectFirst);
  }

  lemma ExactHere(ms: seq<Text>, n: nat, peers: Peers, inspectFirst: bool, end: Status)
    requires ms == [] || !Passes(ms[0], n, peers, inspectFirst)
    ensures Exact(Pump(ms, n, peers, inspectFirst, end), ms, n, 0, peers, inspectFirst, end)
  {
    assert ms[..0] == [];
    assert ms != [] ==> ms[..1] == [ms[0]];
  }

  /**
   Exactly the kept messages before the first one that is oversized or refused by the writer
   are written, and the fault tells which of these, a read error or EOF ended the session.
   */
  lemma {:induction false} PumpExact(ms: seq<Text>, n: nat, peers: Peers, inspectFirst: bool, end: Status)
    ensures Exact(Pump(ms, n, peers, inspectFirst, end), ms, n, Stop(ms, n, peers, inspectFirst), peers, inspectFirst, end)
  {
    if ms == [] || !Passes(ms[0], n, peers, inspectFirst) {
      ExactHere(ms, n, peers, inspectFirst, end);
    } else {
      var k := Stop(ms[1..], n + 1, peers, inspectFirst);
      PumpExact(ms[1..], n + 1, peers, inspectFirst, end);
      PumpStep(ms, n, peers, inspectFirst, end);
      ExactStep(Pump(ms[1..], n + 1, peers, inspectFirst, end), ms, n, k, peers, inspectFirst, end);
    }
  }

  lemma {:induction false} KeptAll(ms: seq<Text>, n: nat, peers: Peers)
    ensures Kept(ms, n, peers, false) == ms
  {
    if ms != [] { KeptAll(ms[1..], n + 1, peers); }
  }

  lemma {:induction false} FlattenPrefix(ms: seq<Text>, k: nat)
    requires k <= |ms|
    ensures Flatten(ms[..k]) <= Flatten(ms)
    ensures k < |ms| && ms[k] != [] ==> Flatten(ms[..k]) != Flatten(ms)
  {
    if k > 0 {
      FlattenPrefix(ms[1..], k - 1);
      assert ms[..k][0] == ms[0] && ms[..k][1..] == ms[1..][..k - 1];
    }
  }

  lemma {:induction false} MessagesNonEmpty(s: Text)
    ensures forall i | 0 <= i < |Messages(s)| :: Messages(s)[i] != []
    decreases |s|
  {
    if s != [] {
      MessagesNonEmpty(s[|Line(s)|..]);
    }
  }

  /**
   An observed direction copies the stream byte for byte, whatever the handler says: always a
   prefix of it, and the whole of it exactly when every message is within the limit and taken
   by the writer.
   */
  lemma Verbatim(s: Text, peers: Peers, end: Status)
    ensures Pump(Messages(s), 0, peers, false, end).out <= s
    ensures Pump(Messages(s), 0, peers, false, end).out == s <==>
            forall i | 0 <= i < |Messages(s)| :: |Messages(s)[i]| <= MAX_MESSAGE && peers.accept(i)
  {
    var ms, k := Messages(s), Stop(Messages(s), 0, peers, false);
    PumpExact(ms, 0, peers, false, end);
    KeptAll(ms[..k], 0, peers);
    MessagesCover(s);
    MessagesNonEmpty(s);
    FlattenPrefix(ms, k);
    if k == |ms| {
      assert ms[..k] == ms;
      assert forall i | 0 <= i < |ms| :: Passes(ms[i], 0 + i, peers, false);
    }
  }
}
