/**
 Text that ends too early: prefixes of concatenations, and blanks, keys and strings cut anywhere.
 */
module DirtyJsonCut {
  import opened CodePoints
  import opened DirtyJsonSpec
  import opened DirtyJsonLayout
  import opened DirtyJsonRoundTrip

  predicate AllSpace(t: Text) {
    forall i :: 0 <= i < |t| ==> IsSpace(t[i])
  }

  predicate Plain(t: Text) {
    forall i :: 0 <= i < |t| ==> t[i] != DQUOTE && t[i] != BACKSLASH
  }

  lemma SplitPrefix(q: Text, a: Text, b: Text)
    requires q <= a + b
    ensures if |q| >= |a| then q == a + q[|a|..] && q[|a|..] <= b else q == a[..|q|]
  {
    if |q| >= |a| {
      assert q[..|a|] == (a + b)[..|a|] == a;
      assert q[|a|..] == (a + b)[|a|..|q|] == b[..|q| - |a|];
    } else {
      assert q == (a + b)[..|q|] == a[..|q|];
    }
  }

  lemma {:induction false} SkipSpaces(w: Text, t: Text)
    requires AllSpace(w)
    ensures SkipTrivia(w + t) == SkipTrivia(t)
  {
    if w == [] {
      assert w + t == t;
    } else {
      assert (w + t)[1..] == w[1..] + t;
      SkipSpaces(w[1..], t);
    }
  }

  lemma OnlySpaces(w: Text, n: nat)
    requires AllSpace(w) && n <= |w|
    ensures SkipTrivia(w[..n]) == []
  {
    SkipSpaces(w[..n], []);
    assert w[..n] + [] == w[..n];
  }

  lemma {:induction false} PlainBody(key: Text, t: Text)
    requires Plain(key)
    ensures StringBody(key + ([DQUOTE] + t), DQUOTE) == Scan(key, t)
  {
    var u := key + ([DQUOTE] + t);
    if key == [] {
      assert u == [DQUOTE] + t;
    } else {
      assert u[1..] == key[1..] + ([DQUOTE] + t);
      PlainBody(key[1..], t);
      assert [key[0]] + key[1..] == key;
    }
  }

  /** An unfinished key is read as the part that has arrived. */
  lemma {:induction false} PlainCut(key: Text)
    requires Plain(key)
    ensures StringBody(key, DQUOTE) == Scan(key, [])
  {
    if key != [] {
      PlainCut(key[1..]);
      assert [key[0]] + key[1..] == key;
    }
  }

  lemma ConsAppend(c: int, t: Text, u: Text)
    ensures Cons(c, t + u) == Cons(c, t) + u
  {
  }

  lemma PlusAppend(s: Text, t: Text, u: Text)
    ensures s + (t + u) == s + t + u
  {
  }

  lemma {:induction false} PiecesAppend(ps: seq<Piece>, t: Text, u: Text)
    ensures PiecesThen(ps, t + u) == PiecesThen(ps, t) + u
  {
    if ps != [] {
      PiecesAppend(ps[1..], t, u);
      var more := PiecesThen(ps[1..], t);
      match ps[0]
      case Raw(c) =>
        ConsAppend(c, more, u);
      case Escaped(c) =>
        ConsAppend(c, more, u);
        ConsAppend(BACKSLASH, Cons(c, more), u);
      case Unicode(h) =>
        PlusAppend(h, more, u);
        ConsAppend(LOWER_U, h + more, u);
        ConsAppend(BACKSLASH, Cons(LOWER_U, h + more), u);
    }
  }

  /** The text that the first `n` characters of a string's inside are read as. A cut `\u` escape stands for itself. */
  function CutText(ps: seq<Piece>, n: int): Text
    requires WfPieces(ps)
  {
    if ps == [] || n <= 0 then []
    else match ps[0]
      case Raw(c) => [c] + CutText(ps[1..], n - 1)
      case Escaped(c) => if n == 1 then [] else [EscapeValue(c)] + CutText(ps[1..], n - 2)
      case Unicode(h) =>
        if n == 1 then []
        else if n < 6 then [BACKSLASH, LOWER_U] + h[..n - 2]
        else [PieceValue(ps[0])] + CutText(ps[1..], n - 6)
  }

  /** An unfinished value is read to the end of what has arrived, whatever escape it was cut in. */
  lemma {:induction false} PiecesCut(ps: seq<Piece>, y: Text)
    requires WfPieces(ps) && y <= PiecesThen(ps, [])
    ensures StringBody(y, DQUOTE) == Scan(CutText(ps, |y|), []) && (y != [] ==> y[0] != DQUOTE)
    decreases |ps|, 1
  {
    if y != [] {
      var more := PiecesThen(ps[1..], []);
      assert WfPiece(ps[0]);
      match ps[0]
      case Raw(c) =>
        SplitPrefix(y, [c], more);
        PiecesCut(ps[1..], y[1..]);
      case Escaped(c) =>
        assert PieceThen(ps[0], more) == [BACKSLASH, c] + more;
        SplitPrefix(y, [BACKSLASH, c], more);
        if |y| >= 2 { PiecesCut(ps[1..], y[2..]); }
      case Unicode(h) =>
        UnicodeCut(ps, h, y);
    }
  }

  lemma {:induction false} UnicodeCut(ps: seq<Piece>, h: Text, y: Text)
    requires WfPieces(ps) && ps != [] && ps[0] == Unicode(h) && y != [] && y <= PiecesThen(ps, [])
    ensures StringBody(y, DQUOTE) == Scan(CutText(ps, |y|), []) && y[0] != DQUOTE
    decreases |ps|, 0
  {
    hide StringBody;
    var more := PiecesThen(ps[1..], []);
    assert WfPiece(ps[0]);
    var escape := [BACKSLASH, LOWER_U] + h;
    assert PieceThen(ps[0], more) == escape + more;
    SplitPrefix(y, escape, more);
    if |y| >= 6 {
      var z := y[6..];
      PiecesCut(ps[1..], z);
      EscapeRead(h, z);
    } else if |y| == 1 {
      assert y == [BACKSLASH];
      LoneBackslash();
    } else {
      assert y == [BACKSLASH, LOWER_U] + h[..|y| - 2];
      EscapeCut(h[..|y| - 2]);
    }
  }

  lemma EscapeRead(h: Text, z: Text)
    requires |h| == 4 && (forall i :: 0 <= i < 4 ==> IsHex(h[i]))
    ensures StringBody([BACKSLASH, LOWER_U] + h + z, DQUOTE) == StringBody(z, DQUOTE).Prepend([PieceValue(Unicode(h))])
  {
    var y := [BACKSLASH, LOWER_U] + h + z;
    HexIsAlnum(h, z);
    assert y[0] == BACKSLASH && y[1] == LOWER_U && !IsSimpleEscape(y[1]);
    assert y[2..] == h + z && y[2..6] == h && y[6..] == z;
  }

  /** A `\u` escape cut short is read as it stands. */
  lemma EscapeCut(t: Text)
    requires |t| < 4 && forall i :: 0 <= i < |t| ==> IsHex(t[i])
    ensures StringBody([BACKSLASH, LOWER_U] + t, DQUOTE) == Scan([BACKSLASH, LOWER_U] + t, [])
  {
    hide StringBody, AlnumRun;
    var y := [BACKSLASH, LOWER_U] + t;
    AllAlnum(t);
    assert y[2..] == t && y[2..2 + |t|] == t && y[2 + |t|..] == [];
    ShortEscape(y);
  }

  lemma ShortEscape(y: Text)
    requires |y| >= 2 && y[0] == BACKSLASH && y[1] == LOWER_U && AlnumRun(y[2..], 4) < 4
    ensures var n := AlnumRun(y[2..], 4); StringBody(y, DQUOTE) == Scan([BACKSLASH, LOWER_U] + y[2..2 + n], y[2 + n..])
  {
    hide AlnumRun;
  }

  lemma LoneBackslash()
    ensures StringBody([BACKSLASH], DQUOTE) == Scan([], [])
  {
  }

  lemma {:induction false} AllAlnum(t: Text)
    requires |t| < 4 && forall i :: 0 <= i < |t| ==> IsHex(t[i])
    ensures AlnumRun(t, 4) == |t|
  {
  }

  lemma QuotedCut(ps: seq<Piece>, v: Text, k: Store)
    requires WfPieces(ps) && k.Wf() && v != [] && v <= [DQUOTE] + PiecesThen(ps, [DQUOTE]) && |v| < 1 + |PiecesThen(ps, [DQUOTE])|
    ensures ParseValue(v, k) == Done(PyStr(CutText(ps, |v| - 1)), [], k)
  {
    OnlyQuoteMissing(ps, v);
    var y := v[1..];
    PiecesCut(ps, y);
    hide StringBody, PiecesThen;
    ParseScalarAt(v, k);
    assert !IsTripled(v, DQUOTE) by {
      if |y| > 0 { assert v[1] == y[0]; }
    }
  }

  lemma OnlyQuoteMissing(ps: seq<Piece>, v: Text)
    requires v != [] && v <= [DQUOTE] + PiecesThen(ps, [DQUOTE]) && |v| < 1 + |PiecesThen(ps, [DQUOTE])|
    ensures v[0] == DQUOTE && v[1..] <= PiecesThen(ps, [])
  {
    hide PiecesThen;
    var s := PiecesThen(ps, [DQUOTE]);
    SplitPrefix(v, [DQUOTE], s);
    PiecesAppend(ps, [], [DQUOTE]);
    assert [] + [DQUOTE] == [DQUOTE];
    SplitPrefix(v[1..], PiecesThen(ps, []), [DQUOTE]);
  }

  function Put(k: Store, o: nat, key: Text, v: PyVal): Store
    requires o < |k.heap| && k.heap[o].Dict?
  {
    k.(heap := k.heap[o := Dict(k.heap[o].entries[key := v])])
  }

  ghost predicate DictOnTop(k: Store, base: seq<nat>, o: nat) {
    Top(k, base, o) && k.heap[o].Dict?
  }

  lemma LeaveAfter(q: Text, u: Text, k: Store, stored: Store)
    requires k.Wf() && stored.Wf() && q != [] && SkipTrivia(q) == u && u != [] && u[0] == DQUOTE && stored.stack != []
    requires Member(u, k) == Done(PyNone, [], stored)
    ensures ObjectContent(q, k) == Pop([], stored)
  {
    hide Member;
  }

  /** What `s` leads to in the end. */
  ghost function Onward(s: Step): Out
    requires s.Again? ==> s.k.Wf()
  {
    if s.Leave? then s.o else ObjectContent(s.rest, s.k)
  }

  lemma AfterStored(q: Text, u: Text, k: Store, tail: Text, stored: Store)
    requires k.Wf() && stored.Wf() && q != [] && SkipTrivia(q) == u && u != [] && u[0] != RBRACE && stored.stack != []
    requires Member(u, k) == Done(PyNone, tail, stored)
    ensures ObjectContent(q, k) == Onward(AfterMember(SkipTrivia(tail), stored))
  {
    hide Member;
  }

  lemma OpenStart()
    ensures DictOnTop(Store([0], [Dict(map[])]), [], 0)
  {
  }
}
