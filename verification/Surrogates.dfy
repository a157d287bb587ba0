/** The escape scan over raw bytes, and the per-literal property it decides. */
module Surrogates {
  import opened Options
  import opened Bytes
  import Hex


  const QUOTE: Byte := 0x22
  const BACKSLASH: Byte := 0x5C
  const LETTER_U: Byte := 0x75

  // ---------- The scanner ----------

  function Hex4Spec(raw: seq<Byte>): Option<int> {
    if |raw| < 4 then None else Hex.Four(raw[0], raw[1], raw[2], raw[3])
  }

  lemma NoWrap(x: int, d: int)
    requires 0 <= x < 0x1000 && 0 <= d < 0x10
    ensures (x * 0x10 % 0x1_0000 + d) % 0x1_0000 == x * 0x10 + d
  {
  }

  /** Four digits accumulated in sixteen bits; the shifts and sums never wrap. */
  method Hex4(raw: seq<Byte>) returns (v: Option<int>)
    ensures v == Hex4Spec(raw)
  {
    if |raw| < 4 {
      return None;
    }
    var value := 0;
    var i := 0;
    while i < 4
      invariant 0 <= i <= 4 && 0 <= value
      invariant i < 4 ==> value < 0x1000
      invariant i == 0 ==> value == 0
      invariant i == 1 ==> value == Hex.Digit(raw[0]) < 0x10
      invariant i == 2 ==> value == Hex.Digit(raw[0]) * 0x10 + Hex.Digit(raw[1]) < 0x100
      invariant i == 3 ==> value == Hex.Digit(raw[0]) * 0x100 + Hex.Digit(raw[1]) * 0x10 + Hex.Digit(raw[2]) < 0x1000
      invariant i == 4 ==> Some(value) == Hex4Spec(raw)
      invariant forall j | 0 <= j < i :: Hex.Digit(raw[j]) >= 0
    {
      var d := Hex.Digit(raw[i]);
      if d < 0 {
        return None;
      }
      NoWrap(value, d);
      value := (value * 0x10 % 0x1_0000 + d) % 0x1_0000;
      i := i + 1;
    }
    v := Some(value);
  }

  /** The scan of what is left, as a function of the flag. */
  function Scan(raw: seq<Byte>, inString: bool): bool
    decreases |raw|
  {
    if raw == [] then true
    else if raw[0] == QUOTE then Scan(raw[1..], !inString)
    else if !inString || raw[0] != BACKSLASH || |raw| < 2 then Scan(raw[1..], inString)
    else if raw[1] != LETTER_U then Scan(raw[2..], inString)
    else
      var unit := Hex4Spec(raw[2..]);
      if unit.None? || Hex.Low(unit.value) then false
      else if !Hex.High(unit.value) then Scan(raw[6..], inString)
      else if |raw| < 8 || raw[6] != BACKSLASH || raw[7] != LETTER_U then false
      else
        var low := Hex4Spec(raw[8..]);
        if low.None? || !Hex.Low(low.value) then false else Scan(raw[12..], inString)
  }

  /** The index loop with its skips: in bounds and terminating on every byte string. */
  method CheckSurrogates(raw: seq<Byte>) returns (ok: bool)
    ensures ok == Scan(raw, false)
  {
    var inString := false;
    var i := 0;
    assert raw[0..] == raw;
    while i < |raw|
      invariant 0 <= i <= |raw|
      invariant Scan(raw, false) == Scan(raw[i..], inString)
    {
      assert raw[i..][0] == raw[i];
      assert raw[i..][1..] == raw[i + 1..];
      if raw[i] == QUOTE {
        inString := !inString;
        i := i + 1;
        continue;
      }
      if !inString || raw[i] != BACKSLASH || i + 1 >= |raw| {
        i := i + 1;
        continue;
      }
      assert raw[i..][2..] == raw[i + 2..];
      if raw[i + 1] != LETTER_U {
        i := i + 2;
        continue;
      }
      var value := Hex4(raw[i + 2..]);
      if value.None? {
        return false;
      }
      assert raw[i..][6..] == raw[i + 6..];
      if Hex.High(value.value) {
        if i + 8 > |raw| || raw[i + 6] != BACKSLASH || raw[i + 7] != LETTER_U {
          return false;
        }
        assert raw[i..][8..] == raw[i + 8..];
        var low := Hex4(raw[i + 8..]);
        if low.None? || !Hex.Low(low.value) {
          return false;
        }
        assert raw[i..][12..] == raw[i + 12..];
        i := i + 12;
      } else if Hex.Low(value.value) {
        return false;
      } else {
        i := i + 6;
      }
    }
    ok := true;
  }

  // ---------- Texts as string literals and what lies between them ----------

  datatype Item = Plain(b: Byte) | Escape(b: Byte) | Unicode(digits: seq<Byte>)

  datatype Piece = Outside(b: Byte) | Literal(items: seq<Item>)

  predicate ItemOk(it: Item) {
    match it
    case Plain(b) => b != QUOTE && b != BACKSLASH
    case Escape(b) => b != LETTER_U
    case Unicode(digits) => |digits| == 4 && Hex4Spec(digits).Some?
  }

  predicate PieceOk(p: Piece) {
    match p
    case Outside(b) => b != QUOTE
    case Literal(items) => forall it | it in items :: ItemOk(it)
  }

  function RenderItem(it: Item): seq<Byte> {
    match it
    case Plain(b) => [b]
    case Escape(b) => [BACKSLASH, b]
    case Unicode(digits) => [BACKSLASH, LETTER_U] + digits
  }

  function RenderItems(items: seq<Item>): seq<Byte> {
    if items == [] then [] else RenderItem(items[0]) + RenderItems(items[1..])
  }

  function RenderPiece(p: Piece): seq<Byte> {
    match p
    case Outside(b) => [b]
    case Literal(items) => [QUOTE] + (RenderItems(items) + [QUOTE])
  }

  function Render(ps: seq<Piece>): seq<Byte> {
    if ps == [] then [] else RenderPiece(ps[0]) + Render(ps[1..])
  }

  /** The code unit an item contributes; anything that is not \u is no surrogate. */
  function UnitOf(it: Item): int
    requires ItemOk(it)
  {
    if it.Unicode? then Hex4Spec(it.digits).value else 0
  }

  function Units(items: seq<Item>): seq<int>
    requires forall it | it in items :: ItemOk(it)
  {
    seq(|items|, i requires 0 <= i < |items| => UnitOf(items[i]))
  }

  predicate PairedAt(u: seq<int>, i: nat)
    requires i < |u|
  {
    && (Hex.High(u[i]) ==> i + 1 < |u| && Hex.Low(u[i + 1]))
    && (Hex.Low(u[i]) ==> i > 0 && Hex.High(u[i - 1]))
  }

  /** Well-formed UTF-16: every high surrogate is followed by a low one, and only then a low one occurs. */
  predicate Paired(u: seq<int>) {
    forall i | 0 <= i < |u| :: PairedAt(u, i)
  }

  lemma PairedTail(u: seq<int>, n: nat)
    requires n <= |u| && (n == 1 || n == 2)
    requires n == 1 ==> !Hex.High(u[0]) && !Hex.Low(u[0])
    requires n == 2 ==> Hex.High(u[0]) && Hex.Low(u[1])
    ensures Paired(u) <==> Paired(u[n..])
  {
    var t := u[n..];
    forall i | 0 <= i < |t| ensures PairedAt(t, i) <==> PairedAt(u, i + n) {
      assert t[i] == u[i + n];
      assert i + 1 < |t| ==> t[i + 1] == u[i + n + 1];
      assert i > 0 ==> t[i - 1] == u[i + n - 1];
    }
    assert forall i | 0 <= i < n :: PairedAt(u, i);
    if Paired(t) {
      forall i | 0 <= i < |u| ensures PairedAt(u, i) {
        assert i >= n ==> PairedAt(t, i - n);
      }
    }
  }

  lemma UnitsTail(items: seq<Item>, n: nat)
    requires n <= |items| && forall it | it in items :: ItemOk(it)
    ensures forall it | it in items[n..] :: ItemOk(it)
    ensures Units(items[n..]) == Units(items)[n..]
  {
  }

  // ---------- One step of the scan per item ----------

  lemma ByteStep(b: Byte, t: seq<Byte>, inString: bool)
    requires b == QUOTE || !inString || b != BACKSLASH
    ensures Scan([b] + t, inString) == Scan(t, if b == QUOTE then !inString else inString)
  {
    assert ([b] + t)[1..] == t;
  }

  lemma EscapeStep(b: Byte, t: seq<Byte>)
    requires b != LETTER_U
    ensures Scan([BACKSLASH, b] + t, true) == Scan(t, true)
  {
    assert ([BACKSLASH, b] + t)[2..] == t;
  }

  /** A text that starts with an escaped low surrogate. */
  predicate LowStart(t: seq<Byte>) {
    |t| >= 6 && t[0] == BACKSLASH && t[1] == LETTER_U &&
    Hex4Spec(t[2..]).Some? && Hex.Low(Hex4Spec(t[2..]).value)
  }

  lemma UnicodeStep(digits: seq<Byte>, t: seq<Byte>)
    requires |digits| == 4 && Hex4Spec(digits).Some?
    ensures var unit := Hex4Spec(digits).value;
            Scan([BACKSLASH, LETTER_U] + digits + t, true) ==
              (if Hex.Low(unit) then false
               else if Hex.High(unit) then LowStart(t) && Scan(t[6..], true)
               else Scan(t, true))
  {
    var raw := [BACKSLASH, LETTER_U] + digits + t;
    assert raw[2..] == digits + t && raw[6..] == t;
    assert Hex4Spec(raw[2..]) == Hex4Spec(digits);
    assert |raw| >= 8 ==> raw[6] == t[0] && raw[7] == t[1] && raw[8..] == t[2..];
    assert |raw| >= 12 ==> raw[12..] == t[6..];
  }

  lemma ItemStart(it: Item, more: seq<Byte>)
    requires ItemOk(it)
    ensures LowStart(RenderItem(it) + more) <==> Hex.Low(UnitOf(it))
  {
    var tail := RenderItem(it) + more;
    match it
    case Plain(b) => assert tail[0] == b;
    case Escape(b) => assert tail[1] == b;
    case Unicode(digits) =>
      assert tail[2..] == digits + more;
      assert Hex4Spec(tail[2..]) == Hex4Spec(digits);
  }

  /** The bytes ahead start with an escaped low surrogate exactly when the next item is one. */
  lemma LowItem(items: seq<Item>, rest: seq<Byte>)
    requires forall it | it in items :: ItemOk(it)
    ensures LowStart(RenderItems(items) + ([QUOTE] + rest)) <==>
            items != [] && ItemOk(items[0]) && Hex.Low(UnitOf(items[0]))
  {
    if items != [] {
      assert items[0] in items;
      var more := RenderItems(items[1..]) + ([QUOTE] + rest);
      assert RenderItems(items) + ([QUOTE] + rest) == RenderItem(items[0]) + more;
      ItemStart(items[0], more);
    }
  }

  lemma AfterUnicode(items: seq<Item>, rest: seq<Byte>)
    requires items != [] && items[0].Unicode? && |items[0].digits| == 4
    ensures |RenderItems(items) + ([QUOTE] + rest)| >= 6
    ensures (RenderItems(items) + ([QUOTE] + rest))[6..] == RenderItems(items[1..]) + ([QUOTE] + rest)
  {
    assert RenderItems(items) == RenderItem(items[0]) + RenderItems(items[1..]);
  }

  /** Inside a literal: the scan goes on past the closing quote exactly when all is paired. */
  lemma {:induction false} ScanItems(items: seq<Item>, rest: seq<Byte>)
    requires forall it | it in items :: ItemOk(it)
    ensures Scan(RenderItems(items) + ([QUOTE] + rest), true) <==> Paired(Units(items)) && Scan(rest, false)
    decreases |items|, 2
  {
    if items == [] {
      ByteStep(QUOTE, rest, true);
      assert RenderItems(items) + ([QUOTE] + rest) == [QUOTE] + rest;
    } else {
      var it := items[0];
      assert it in items;
      var tail := RenderItems(items[1..]) + ([QUOTE] + rest);
      assert RenderItems(items) + ([QUOTE] + rest) == RenderItem(it) + tail;
      UnitsTail(items, 1);
      match it
      case Plain(b) =>
        ByteStep(b, tail, true);
        ScanItems(items[1..], rest);
        PairedTail(Units(items), 1);
      case Escape(b) =>
        EscapeStep(b, tail);
        ScanItems(items[1..], rest);
        PairedTail(Units(items), 1);
      case Unicode(digits) =>
        UnicodeStep(digits, tail);
        ScanUnicode(items, rest, tail);
    }
  }

  lemma {:induction false} ScanHigh(items: seq<Item>, rest: seq<Byte>, tail: seq<Byte>)
    requires items != [] && forall it | it in items :: ItemOk(it)
    requires tail == RenderItems(items[1..]) + ([QUOTE] + rest)
    requires ItemOk(items[0]) && Hex.High(UnitOf(items[0]))
    ensures LowStart(tail) && Scan(tail[6..], true) <==> Paired(Units(items)) && Scan(rest, false)
    decreases |items|, 0
  {
    var u := Units(items);
    UnitsTail(items, 1);
    LowItem(items[1..], rest);
    assert |items| > 1 ==> items[1] in items && u[1] == UnitOf(items[1]);
    if LowStart(tail) {
      AfterUnicode(items[1..], rest);
      assert items[1..][1..] == items[2..];
      UnitsTail(items, 2);
      ScanItems(items[2..], rest);
      PairedTail(u, 2);
    } else {
      assert !PairedAt(u, 0);
    }
  }

  lemma {:induction false} ScanUnicode(items: seq<Item>, rest: seq<Byte>, tail: seq<Byte>)
    requires items != [] && forall it | it in items :: ItemOk(it)
    requires tail == RenderItems(items[1..]) + ([QUOTE] + rest)
    ensures ItemOk(items[0]) && var unit := UnitOf(items[0]);
            (if Hex.Low(unit) then false
             else if Hex.High(unit) then LowStart(tail) && Scan(tail[6..], true)
             else Scan(tail, true)) <==> Paired(Units(items)) && Scan(rest, false)
    decreases |items|, 1
  {
    assert items[0] in items;
    var u := Units(items);
    UnitsTail(items, 1);
    if Hex.Low(u[0]) {
      assert !PairedAt(u, 0);
    } else if !Hex.High(u[0]) {
      ScanItems(items[1..], rest);
      PairedTail(u, 1);
    } else {
      ScanHigh(items, rest, tail);
    }
  }

  predicate LiteralPaired(p: Piece)
    requires PieceOk(p)
  {
    p.Literal? ==> Paired(Units(p.items))
  }

  lemma ScanPiece(p: Piece, rest: seq<Byte>)
    requires PieceOk(p)
    ensures Scan(RenderPiece(p) + rest, false) <==> LiteralPaired(p) && Scan(rest, false)
  {
    match p
    case Outside(b) => ByteStep(b, rest, false);
    case Literal(items) =>
      var t := RenderItems(items) + ([QUOTE] + rest);
      assert RenderPiece(p) + rest == [QUOTE] + t;
      ByteStep(QUOTE, t, false);
      ScanItems(items, rest);
  }

  /** Over a lexed text the scan goes on behind it exactly when every literal is paired. */
  lemma {:induction false} ScanPieces(ps: seq<Piece>, rest: seq<Byte>)
    requires forall p | p in ps :: PieceOk(p)
    ensures Scan(Render(ps) + rest, false) <==> (forall p | p in ps :: LiteralPaired(p)) && Scan(rest, false)
  {
    if ps == [] {
      assert Render(ps) + rest == rest;
    } else {
      assert forall p :: p in ps <==> p == ps[0] || p in ps[1..];
      ScanPieces(ps[1..], rest);
      assert Render(ps) + rest == RenderPiece(ps[0]) + (Render(ps[1..]) + rest);
      ScanPiece(ps[0], Render(ps[1..]) + rest);
    }
  }

  /** The scanner rejects exactly when some literal's escapes leave a surrogate unpaired. */
  lemma ScanExact(ps: seq<Piece>)
    requires forall p | p in ps :: PieceOk(p)
    ensures Scan(Render(ps), false) <==> forall p | p in ps :: LiteralPaired(p)
  {
    ScanPieces(ps, []);
    assert Render(ps) + [] == Render(ps);
  }
}
