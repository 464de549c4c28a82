/**
 The decimal literals that Python's `float` takes.
 */
module DirtyJsonDecimals {
  import opened CodePoints
  import opened DirtyJsonSpec

  const LOWER_E := 0x65
  const UPPER_E := 0x45

  /** A digit, a sign, the point, or the `e` of an exponent. */
  predicate InNumber(c: int) {
    IsDigit(c) || c == MINUS || c == PLUS || c == DOT || c == LOWER_E || c == UPPER_E
  }

  /** Nothing, a minus or a plus. */
  predicate IsSign(s: Text) {
    s == [] || s == [MINUS] || s == [PLUS]
  }

  /** The parts of a decimal literal: sign, digits, a point and digits, an `e` with a sign and digits. */
  datatype Decimal = Decimal(sign: Text, whole: Text, point: bool, fraction: Text, e: Text, eSign: Text, eDigits: Text) {
    predicate Wf() {
      && IsSign(sign) && AllDigits(whole) && AllDigits(fraction) && (point || fraction == []) && (whole != [] || fraction != [])
      && if e == [] then eSign == [] && eDigits == []
         else (e == [LOWER_E] || e == [UPPER_E]) && IsSign(eSign) && eDigits != [] && AllDigits(eDigits)
    }

    /** Without point and exponent it is an integer. */
    predicate IsInt() {
      !point && e == []
    }

    function AfterWhole(): Text {
      (if point then [DOT] + fraction else []) + Exponent()
    }

    function Exponent(): Text {
      e + (eSign + eDigits)
    }

    function Text(): seq<int> {
      sign + (whole + AfterWhole())
    }
  }

  /** A decimal literal that is no integer and does not start with its point. */
  type Float = d: Decimal | d.Wf() && !d.IsInt() && (d.sign != [] || d.whole != [])
    witness Decimal([], [0x30], true, [0x30], [], [], [])

  lemma {:induction false} RunOf(digits: Text, t: Text)
    requires AllDigits(digits) && (t == [] || !IsDigit(t[0]))
    ensures DigitRun(digits + t) == |digits| && (digits + t)[|digits|..] == t
  {
    if digits == [] {
      assert digits + t == t;
    } else {
      assert (digits + t)[1..] == digits[1..] + t;
      RunOf(digits[1..], t);
    }
  }

  lemma UnsignedOf(sign: Text, t: Text)
    requires IsSign(sign) && (t == [] || (t[0] != MINUS && t[0] != PLUS))
    ensures Unsigned(sign + t) == t
  {
    if sign == [] { assert sign + t == t; } else { assert (sign + t)[1..] == t; }
  }

  lemma ExponentAccepted(d: Decimal)
    requires d.Wf()
    ensures var x := d.Exponent(); x == [] || (Lower(x[0]) == 0x65 && IsIntLiteral(x[1..]) && !IsDigit(x[0]) && x[0] != DOT)
  {
    if d.e != [] {
      assert d.Exponent()[1..] == d.eSign + d.eDigits;
      UnsignedOf(d.eSign, d.eDigits);
    }
  }

  /** What `float` looks at: the digits before the point, those behind it, and what is left. */
  lemma FloatByParts(t: Text, w: nat, point: bool, f: nat, x: Text)
    requires w == DigitRun(Unsigned(t)) && point == StartsWithChar(Unsigned(t)[w..], DOT)
    requires if point then f == DigitRun(Unsigned(t)[w..][1..]) && x == Unsigned(t)[w..][1..][f..] else f == 0 && x == Unsigned(t)[w..]
    ensures IsFloatLiteral(t) <==> w + f > 0 && (x == [] || (Lower(x[0]) == 0x65 && IsIntLiteral(x[1..])))
  {
    hide IsIntLiteral, DigitRun, Unsigned;
    var afterWhole := Unsigned(t)[w..];
    if point { assert afterWhole[1..][f..] == afterWhole[1 + f..]; }
  }

  lemma WholeRun(d: Decimal)
    requires d.Wf()
    ensures var b := d.whole + d.AfterWhole();
      Unsigned(d.Text()) == b && DigitRun(b) == |d.whole| && b[|d.whole|..] == d.AfterWhole()
    ensures StartsWithChar(d.AfterWhole(), DOT) == d.point
  {
    hide IsIntLiteral, DigitRun, Unsigned;
    var b, x := d.whole + d.AfterWhole(), d.Exponent();
    ExponentAccepted(d);
    assert [] + x == x;
    assert d.point ==> d.AfterWhole()[0] == DOT;
    assert b == [] || b[0] == if d.whole != [] then d.whole[0] else d.AfterWhole()[0];
    UnsignedOf(d.sign, b);
    RunOf(d.whole, d.AfterWhole());
  }

  lemma FractionRun(d: Decimal)
    requires d.Wf() && d.point
    ensures d.AfterWhole() != [] && DigitRun(d.AfterWhole()[1..]) == |d.fraction| && d.AfterWhole()[1..][|d.fraction|..] == d.Exponent()
  {
    hide IsIntLiteral, DigitRun;
    ExponentAccepted(d);
    assert d.AfterWhole()[1..] == d.fraction + d.Exponent();
    RunOf(d.fraction, d.Exponent());
  }

  /** `float` takes every decimal literal. */
  lemma DecimalAccepted(d: Decimal)
    requires d.Wf()
    ensures IsFloatLiteral(d.Text())
  {
    hide IsFloatLiteral, IsIntLiteral, DigitRun, Unsigned, Decimal.Text, Decimal.Exponent;
    WholeRun(d);
    ExponentAccepted(d);
    if d.point {
      FractionRun(d);
    } else {
      assert [] + d.Exponent() == d.Exponent();
    }
    FloatByParts(d.Text(), |d.whole|, d.point, |d.fraction|, d.Exponent());
  }

  lemma SignOf(t: Text) returns (sign: Text, b: Text)
    ensures IsSign(sign) && t == sign + b && b == Unsigned(t)
  {
    b := Unsigned(t);
    sign := t[..|t| - |b|];
  }

  /** The digits of an accepted text, those behind its point, and the exponent. */
  lemma SplitDecimal(t: Text) returns (whole: Text, point: bool, fraction: Text, x: Text)
    requires IsFloatLiteral(t)
    ensures AllDigits(whole) && AllDigits(fraction) && (point || fraction == []) && (whole != [] || fraction != [])
    ensures Unsigned(t) == whole + ((if point then [DOT] + fraction else []) + x)
    ensures x == [] || (Lower(x[0]) == 0x65 && IsIntLiteral(x[1..]))
  {
    hide IsFloatLiteral, IsIntLiteral, DigitRun, Unsigned;
    var b := Unsigned(t);
    var w := DigitRun(b);
    var after := b[w..];
    whole, point := b[..w], StartsWithChar(after, DOT);
    assert b == whole + after;
    if point {
      var f := DigitRun(after[1..]);
      fraction, x := after[1..][..f], after[1..][f..];
      FloatByParts(t, w, true, f, x);
      Pointed(after, f);
    } else {
      fraction, x := [], after;
      FloatByParts(t, w, false, 0, x);
      assert [] + x == x;
    }
  }

  /** And nothing else. */
  lemma AcceptedDecimal(t: Text) returns (d: Decimal)
    requires IsFloatLiteral(t)
    ensures d.Wf() && d.Text() == t
  {
    hide IsFloatLiteral, IsIntLiteral, DigitRun, Unsigned;
    var sign, b := SignOf(t);
    var whole, point, fraction, x := SplitDecimal(t);
    var e, eSign, eDigits := ExponentOf(x);
    d := Decimal(sign, whole, point, fraction, e, eSign, eDigits);
  }

  lemma Pointed(t: Text, f: nat)
    requires StartsWithChar(t, DOT) ==> f < |t|
    ensures StartsWithChar(t, DOT) ==> t == [DOT] + t[1..][..f] + t[1..][f..]
    ensures [] + t == t
  {
  }

  lemma ExponentOf(x: Text) returns (e: Text, eSign: Text, eDigits: Text)
    requires x == [] || (Lower(x[0]) == 0x65 && IsIntLiteral(x[1..]))
    ensures e + (eSign + eDigits) == x
    ensures if e == [] then eSign == [] && eDigits == []
            else (e == [LOWER_E] || e == [UPPER_E]) && IsSign(eSign) && eDigits != [] && AllDigits(eDigits)
  {
    if x == [] {
      e, eSign, eDigits := [], [], [];
    } else {
      e := [x[0]];
      eSign, eDigits := SignOf(x[1..]);
      assert [x[0]] + x[1..] == x;
    }
  }

  lemma DecimalChars(d: Decimal)
    requires d.Wf()
    ensures forall i :: 0 <= i < |d.Text()| ==> InNumber(d.Text()[i])
    ensures d.sign != [] || d.whole != [] ==>
      d.Text() != [] && (IsDigit(d.Text()[0]) || d.Text()[0] == MINUS || d.Text()[0] == PLUS)
  {
  }

  lemma NotInt(d: Decimal)
    requires d.Wf() && !d.IsInt()
    ensures !IsIntLiteral(d.Text())
  {
    var b := d.whole + d.AfterWhole();
    assert b[0] == if d.whole != [] then d.whole[0] else d.AfterWhole()[0];
    UnsignedOf(d.sign, b);
    ExponentAccepted(d);
    assert b[|d.whole|] == d.AfterWhole()[0];
  }
}
