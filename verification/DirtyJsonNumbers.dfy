/**
 Which texts of number characters are read, and as what.
 */
module DirtyJsonNumbers {
  import opened CodePoints
  import opened DirtyJsonSpec
  import opened DirtyJsonDecimals
  import opened DirtyJsonRoundTrip

  ghost predicate IsIntText(t: Text) {
    exists d: Decimal :: d.Wf() && d.IsInt() && d.Text() == t
  }

  ghost predicate IsFloatText(t: Text) {
    exists d: Decimal :: d.Wf() && d.Text() == t
  }

  lemma IntTextExactly(t: Text)
    ensures IsIntText(t) <==> IsIntLiteral(t)
  {
    if d: Decimal :| d.Wf() && d.IsInt() && d.Text() == t {
      assert d.Exponent() == [] && d.AfterWhole() == [] && d.whole + [] == d.whole;
      UnsignedOf(d.sign, d.whole);
    }
    if IsIntLiteral(t) {
      var sign, b := SignOf(t);
      var d := Decimal(sign, b, false, [], [], [], []);
      assert d.Exponent() == [] && d.AfterWhole() == [] && b + [] == b;
      assert d.Wf() && d.IsInt() && d.Text() == t;
    }
  }

  lemma FloatTextExactly(t: Text)
    ensures IsFloatText(t) <==> IsFloatLiteral(t)
  {
    hide IsFloatLiteral;
    if d: Decimal :| d.Wf() && d.Text() == t { DecimalAccepted(d); }
    if IsFloatLiteral(t) { var d := AcceptedDecimal(t); }
  }

  lemma IntTextValue(d: Decimal)
    requires d.Wf() && d.IsInt()
    ensures IsIntLiteral(d.Text()) && IntValue(d.Text()) == if d.sign == [MINUS] then -(DecVal(d.whole) as int) else DecVal(d.whole)
  {
    assert d.Exponent() == [] && d.AfterWhole() == [] && d.whole + [] == d.whole;
    UnsignedOf(d.sign, d.whole);
    assert d.Text()[0] == if d.sign == [] then d.whole[0] else d.sign[0];
  }

  lemma NumberAt(t: Text, rest: Text, k: Store)
    requires k.Wf() && t != [] && (IsDigit(t[0]) || t[0] == MINUS || t[0] == PLUS)
    requires (forall i :: 0 <= i < |t| ==> InNumber(t[i])) && (rest == [] || !InNumber(rest[0]))
    ensures ParseValue(t + rest, k) ==
      if IsIntLiteral(t) then Done(PyInt(IntValue(t)), rest, k)
      else if IsFloatLiteral(t) then Done(PyFloat(t), rest, k)
      else Raised(ValueError, rest)
  {
    hide IsIntLiteral, IsFloatLiteral, IntValue, NumberBody;
    assert (t + rest)[0] == t[0];
    NumberRead(t, rest);
    ParseScalarAt(t + rest, k);
  }

  /** Every text of number characters that starts with a digit or a sign, up to the first other character: an
      integer literal gives its number, any other decimal literal a float, and the rest is a ValueError. */
  lemma NumberExactly(t: Text, rest: Text, k: Store)
    requires k.Wf() && t != [] && (IsDigit(t[0]) || t[0] == MINUS || t[0] == PLUS)
    requires (forall i :: 0 <= i < |t| ==> InNumber(t[i])) && (rest == [] || !InNumber(rest[0]))
    ensures var r := ParseValue(t + rest, k);
      && (forall d: Decimal :: d.Wf() && d.IsInt() && d.Text() == t ==>
            r == Done(PyInt(if d.sign == [MINUS] then -(DecVal(d.whole) as int) else DecVal(d.whole)), rest, k))
      && (!IsIntText(t) && IsFloatText(t) ==> r == Done(PyFloat(t), rest, k))
      && (!IsIntText(t) && !IsFloatText(t) ==> r == Raised(ValueError, rest))
  {
    hide IsIntLiteral, IsFloatLiteral, IntValue, ParseValue, DecVal;
    NumberAt(t, rest, k);
    IntTextExactly(t);
    FloatTextExactly(t);
    forall d: Decimal | d.Wf() && d.IsInt() && d.Text() == t
      ensures IntValue(t) == if d.sign == [MINUS] then -(DecVal(d.whole) as int) else DecVal(d.whole)
    {
      IntTextValue(d);
    }
  }

  /** A literal put together from its parts: with a point or an exponent it is read as the float it writes. */
  lemma FloatRead(d: Decimal, rest: Text, k: Store)
    requires k.Wf() && d.Wf() && !d.IsInt() && (d.sign != [] || d.whole != []) && (rest == [] || !InNumber(rest[0]))
    ensures ParseValue(d.Text() + rest, k) == Done(PyFloat(d.Text()), rest, k)
  {
    hide ParseValue, IsIntLiteral, IsFloatLiteral, IntValue;
    DecimalChars(d);
    NumberAt(d.Text(), rest, k);
    NotInt(d);
    DecimalAccepted(d);
  }

  /** A literal that starts with its point is no number: it is read as a text. */
  lemma PointFirst(d: Decimal, rest: Text, k: Store)
    requires k.Wf() && d.Wf() && d.sign == [] && d.whole == [] && StartsWithChar(rest, COMMA)
    ensures ParseValue(d.Text() + rest, k) == Done(PyStr(d.Text()), rest[1..], k)
  {
    var t := d.Text();
    DecimalChars(d);
    assert t[0] == DOT by { assert d.whole + d.AfterWhole() == d.AfterWhole() && [] + d.AfterWhole() == d.AfterWhole(); }
    hide ParseValue, ParseScalar, Strip, UnquotedBody, WordLength, Decimal.Text, Decimal.Wf;
    assert (t + rest)[0] == DOT;
    ParseScalarAt(t + rest, k);
    BareBody(t, rest);
    NothingToStrip(t);
    PointIsText(t + rest, k);
  }

  lemma PointIsText(u: Text, k: Store)
    requires StartsWithChar(u, DOT)
    ensures ParseScalar(u, k) == Done(PyStr(Strip(UnquotedBody(u).text)), UnquotedBody(u).rest, k)
  {
    hide Strip, UnquotedBody;
    assert WordLength(u) == 0;
  }

  lemma {:induction false} BareBody(t: Text, rest: Text)
    requires (forall i :: 0 <= i < |t| ==> IsNumberChar(t[i])) && StartsWithChar(rest, COMMA)
    ensures UnquotedBody(t + rest) == Scan(t, rest[1..])
  {
    if t == [] {
      assert t + rest == rest;
    } else {
      assert (t + rest)[1..] == t[1..] + rest;
      BareBody(t[1..], rest);
      assert [t[0]] + t[1..] == t;
    }
  }

  lemma NothingToStrip(t: Text)
    requires forall i :: 0 <= i < |t| ==> IsNumberChar(t[i])
    ensures Strip(t) == t
  {
  }
}
