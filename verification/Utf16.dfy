/** Member-name order of RFC 8785 section 3.2.3: UTF-16 code units, compared as numbers. */
module Utf16 {
  import Hex

  /** The code units of one Unicode scalar. */
  function Units(c: char): (u: seq<int>)
    ensures 1 <= |u| <= 2
  {
    var v := c as int;
    if v < 0x1_0000 then [v]
    else [0xD800 + (v - 0x1_0000) / 0x400, 0xDC00 + (v - 0x1_0000) % 0x400]
  }

  function Encode(s: string): seq<int> {
    if s == "" then [] else Units(s[0]) + Encode(s[1..])
  }

  /** Lexicographic order on code units, a proper prefix first. */
  predicate UnitsLess(a: seq<int>, b: seq<int>) {
    if b == [] then false
    else if a == [] then true
    else if a[0] != b[0] then a[0] < b[0]
    else UnitsLess(a[1..], b[1..])
  }

  predicate Less(a: string, b: string) {
    UnitsLess(Encode(a), Encode(b))
  }

  /** The comparison as the canonicalizer runs it: an index loop over both encodings. */
  method LessUtf16(a: string, b: string) returns (less: bool)
    ensures less == Less(a, b)
  {
    var ua, ub := Encode(a), Encode(b);
    var i := 0;
    while i < |ua| && i < |ub|
      invariant 0 <= i <= |ua| && i <= |ub|
      invariant UnitsLess(ua, ub) == UnitsLess(ua[i..], ub[i..])
    {
      if ua[i] != ub[i] {
        return ua[i] < ub[i];
      }
      assert ua[i..][1..] == ua[i + 1..] && ub[i..][1..] == ub[i + 1..];
      i := i + 1;
    }
    return |ua| < |ub|;
  }

  // ---------- What the definitions mean ----------

  /**
   A scalar of the basic plane is its own unit, never a surrogate; any other, and only
   another, is the surrogate pair that stands for it. Units have sixteen bits.
   */
  lemma UnitsExact(c: char)
    ensures |Units(c)| == 2 <==> c as int >= 0x1_0000
    ensures forall i | 0 <= i < |Units(c)| :: 0 <= Units(c)[i] < 0x1_0000
    ensures if |Units(c)| == 1 then Units(c)[0] == c as int && !Hex.High(c as int) && !Hex.Low(c as int)
            else Hex.High(Units(c)[0]) && Hex.Low(Units(c)[1]) && Hex.Pair(Units(c)[0], Units(c)[1]) == c
  {
    var v := c as int - 0x1_0000;
    assert v == v / 0x400 * 0x400 + v % 0x400;
  }

  /** a and b agree up to k, where a ends or has the smaller unit. */
  predicate DiffersAt(a: seq<int>, b: seq<int>, k: nat) {
    k <= |a| && k < |b| && a[..k] == b[..k] && (k == |a| || a[k] < b[k])
  }

  lemma AgreeBefore(a: seq<int>, b: seq<int>, k: nat)
    requires DiffersAt(a, b, k)
    ensures k > 0 ==> a[0] == b[0]
  {
    if k > 0 { assert a[0] == a[..k][0] && b[0] == b[..k][0]; }
  }

  /** Less means smaller at the first difference, a proper prefix being smaller. */
  lemma {:induction false} LessByFirstDifference(a: seq<int>, b: seq<int>)
    ensures UnitsLess(a, b) <==> exists k: nat :: DiffersAt(a, b, k)
  {
    if b != [] && a != [] && a[0] == b[0] {
      LessByFirstDifference(a[1..], b[1..]);
      if k: nat :| DiffersAt(a[1..], b[1..], k) {
        assert a[..k + 1] == [a[0]] + a[1..][..k] && b[..k + 1] == [b[0]] + b[1..][..k];
        assert DiffersAt(a, b, k + 1);
      }
      if k: nat :| DiffersAt(a, b, k) {
        assert k > 0;
        assert a[1..][..k - 1] == a[..k][1..] && b[1..][..k - 1] == b[..k][1..];
        assert DiffersAt(a[1..], b[1..], k - 1);
      }
    } else {
      if k: nat :| DiffersAt(a, b, k) {
        AgreeBefore(a, b, k);
      }
      if UnitsLess(a, b) {
        assert DiffersAt(a, b, 0);
      }
    }
  }

  // ---------- The order on characters, without the encoding ----------

  /** Below the surrogate range, beyond the basic plane, above the surrogate range: in this order. */
  function Region(c: char): nat {
    if c as int < 0xD800 then 0 else if c as int >= 0x1_0000 then 1 else 2
  }

  predicate Before(x: char, y: char) {
    Region(x) < Region(y) || (Region(x) == Region(y) && x as int < y as int)
  }

  /** a and b agree up to character k, where a ends or has the earlier character. */
  predicate CharDiffersAt(a: string, b: string, k: nat) {
    k <= |a| && k < |b| && a[..k] == b[..k] && (k == |a| || Before(a[k], b[k]))
  }

  lemma {:induction false} SamePrefix(u: seq<int>, a: seq<int>, b: seq<int>)
    ensures UnitsLess(u + a, u + b) <==> UnitsLess(a, b)
  {
    if u == [] {
      assert u + a == a && u + b == b;
    } else {
      SamePrefix(u[1..], a, b);
      assert (u + a)[1..] == u[1..] + a && (u + b)[1..] == u[1..] + b;
    }
  }

  /** Different characters decide the comparison, whatever follows them. */
  lemma CharDecides(x: char, y: char, a: seq<int>, b: seq<int>)
    requires x != y
    ensures UnitsLess(Units(x) + a, Units(y) + b) <==> Before(x, y)
  {
    var u, v := Units(x) + a, Units(y) + b;
    assert u[0] == Units(x)[0] && v[0] == Units(y)[0];
    if u[0] == v[0] {
      assert |Units(x)| == 2 && |Units(y)| == 2;
      var p, q := x as int - 0x1_0000, y as int - 0x1_0000;
      assert p == p / 0x400 * 0x400 + p % 0x400 && q == q / 0x400 * 0x400 + q % 0x400;
      assert u[1..][0] == Units(x)[1] && v[1..][0] == Units(y)[1];
    } else if |Units(x)| == 2 && |Units(y)| == 2 {
      var p, q := x as int - 0x1_0000, y as int - 0x1_0000;
      assert p == p / 0x400 * 0x400 + p % 0x400 && q == q / 0x400 * 0x400 + q % 0x400;
    }
  }

  lemma FirstAgree(a: string, b: string, k: nat)
    requires CharDiffersAt(a, b, k)
    ensures k > 0 ==> a[0] == b[0]
  {
    if k > 0 { assert a[0] == a[..k][0] && b[0] == b[..k][0]; }
  }

  lemma DiffersNext(a: string, b: string, k: nat)
    requires a != "" && b != "" && a[0] == b[0]
    ensures CharDiffersAt(a, b, k + 1) <==> CharDiffersAt(a[1..], b[1..], k)
  {
    if k + 1 <= |a| && k + 1 < |b| {
      assert a[..k + 1] == [a[0]] + a[1..][..k] && b[..k + 1] == [b[0]] + b[1..][..k];
      assert a[..k + 1][1..] == a[1..][..k] && b[..k + 1][1..] == b[1..][..k];
    }
  }

  lemma BeforeIrreflexive(x: char)
    ensures !Before(x, x)
  {
  }

  /**
   The order of names, told by characters: at the first difference a supplementary character
   comes before those from U+E000 to U+FFFF and after all others of the basic plane, and
   otherwise the smaller scalar first; a proper prefix comes first.
   */
  lemma {:induction false} LessByCharacters(a: string, b: string)
    ensures Less(a, b) <==> exists k: nat :: CharDiffersAt(a, b, k)
  {
    if b == "" {
    } else if a == "" {
      assert CharDiffersAt(a, b, 0);
    } else if a[0] == b[0] {
      LessByCharacters(a[1..], b[1..]);
      SamePrefix(Units(a[0]), Encode(a[1..]), Encode(b[1..]));
      BeforeIrreflexive(a[0]);
      if k: nat :| CharDiffersAt(a[1..], b[1..], k) { DiffersNext(a, b, k); }
      if k: nat :| CharDiffersAt(a, b, k) {
        assert k > 0;
        DiffersNext(a, b, k - 1);
      }
    } else {
      CharDecides(a[0], b[0], Encode(a[1..]), Encode(b[1..]));
      if Before(a[0], b[0]) { assert CharDiffersAt(a, b, 0); }
      if k: nat :| CharDiffersAt(a, b, k) { FirstAgree(a, b, k); }
    }
  }

  // ---------- A strict total order on strings ----------

  /** Surrogates never coincide with scalars, so the encoding is injective. */
  lemma {:induction false} EncodeInjective(a: string, b: string)
    requires Encode(a) == Encode(b)
    ensures a == b
  {
    if a != "" && b != "" {
      var ua, ub := Units(a[0]), Units(b[0]);
      assert ua[0] == Encode(a)[0] == Encode(b)[0] == ub[0];
      assert |ua| == |ub|;
      assert ua == Encode(a)[..|ua|] == Encode(b)[..|ub|] == ub;
      if |ua| == 2 {
        var x, y := a[0] as int - 0x1_0000, b[0] as int - 0x1_0000;
        assert x == x / 0x400 * 0x400 + x % 0x400 && y == y / 0x400 * 0x400 + y % 0x400;
        assert ua[1] == ub[1];
      }
      assert a[0] == b[0];
      assert Encode(a)[|ua|..] == Encode(a[1..]) && Encode(b)[|ub|..] == Encode(b[1..]);
      EncodeInjective(a[1..], b[1..]);
      assert a == [a[0]] + a[1..] && b == [b[0]] + b[1..];
    }
  }

  lemma {:induction false} UnitsLessTotal(a: seq<int>, b: seq<int>)
    ensures UnitsLess(a, b) || UnitsLess(b, a) || a == b
    ensures !(UnitsLess(a, b) && UnitsLess(b, a))
    ensures !UnitsLess(a, a)
  {
    if a != [] {
      UnitsLessTotal(a[1..], if b == [] then [] else b[1..]);
      if b != [] && a[0] == b[0] && a[1..] == b[1..] {
        assert a == [a[0]] + a[1..] && b == [b[0]] + b[1..];
      }
    }
  }

  lemma {:induction false} UnitsLessTransitive(a: seq<int>, b: seq<int>, c: seq<int>)
    requires UnitsLess(a, b) && UnitsLess(b, c)
    ensures UnitsLess(a, c)
  {
    if a != [] && a[0] == b[0] && b[0] == c[0] {
      UnitsLessTransitive(a[1..], b[1..], c[1..]);
    }
  }

  lemma LessTotal(a: string, b: string)
    ensures a == b || Less(a, b) || Less(b, a)
    ensures !(Less(a, b) && Less(b, a)) && !Less(a, a)
  {
    UnitsLessTotal(Encode(a), Encode(b));
    if Encode(a) == Encode(b) {
      EncodeInjective(a, b);
    }
  }

  lemma LessTransitive(a: string, b: string, c: string)
    requires Less(a, b) && Less(b, c)
    ensures Less(a, c)
  {
    UnitsLessTransitive(Encode(a), Encode(b), Encode(c));
  }
}
