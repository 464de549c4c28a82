/**
 What the parser accepts beyond JSON: other quotes, triple quotes, and keys and values without quotes.
 */
module DirtyJsonTolerance {
  import opened CodePoints
  import opened DirtyJsonSpec
  import opened DirtyJsonLayout
  import opened DirtyJsonRoundTrip
  import opened DirtyJsonCut

  // ---------- Quoted ----------

  predicate Quotable(s: Text, q: int) {
    forall i :: 0 <= i < |s| ==> s[i] != q && s[i] != BACKSLASH
  }

  lemma {:induction false} BodyRead(q: int, s: Text, rest: Text)
    requires q != BACKSLASH && Quotable(s, q)
    ensures StringBody(s + Cons(q, rest), q) == Scan(s, rest)
  {
    if s == [] {
      assert s + Cons(q, rest) == Cons(q, rest);
    } else {
      assert (s + Cons(q, rest))[1..] == s[1..] + Cons(q, rest);
      BodyRead(q, s[1..], rest);
      assert [s[0]] + s[1..] == s;
    }
  }

  /** A string between any of the three quotes is read as written, and as a key between two of them. */
  lemma QuotedByAny(q: int, s: Text, rest: Text, k: Store)
    requires (q == DQUOTE || q == SQUOTE || q == BACKTICK) && k.Wf()
    requires Quotable(s, q) && (s == [] ==> !StartsWithChar(rest, q))
    ensures var t := Cons(q, s + Cons(q, rest));
      && ParseValue(t, k) == Done(PyStr(s), rest, k)
      && (q != BACKTICK ==> ParseKey(t) == Scan(s, rest))
  {
    hide StringBody;
    var t := Cons(q, s + Cons(q, rest));
    BodyRead(q, s, rest);
    ParseScalarAt(t, k);
    assert t[1..] == s + Cons(q, rest);
    assert t[1] == if s != [] then s[0] else q;
    SkipBlanks([], t);
  }

  /** The first triple quote is the one that ends the string. */
  predicate EndsFirst(s: Text, q: int) {
    forall i :: 0 <= i < |s| ==> !IsTripled((s + [q, q, q])[i..], q)
  }

  lemma {:induction false} TripledBody(q: int, s: Text, rest: Text)
    requires EndsFirst(s, q)
    ensures MultilineBody(s + ([q, q, q] + rest), q) == Scan(s, rest)
  {
    var t := s + ([q, q, q] + rest);
    if s == [] {
      assert t == [q, q, q] + rest && t[3..] == rest;
    } else {
      var u := s + [q, q, q];
      assert !IsTripled(u[0..], q);
      assert |u| > 3 && t[0] == u[0] && t[1] == u[1] && t[2] == u[2];
      assert t[1..] == s[1..] + ([q, q, q] + rest);
      assert forall i :: 0 <= i < |s[1..]| ==> (s[1..] + [q, q, q])[i..] == u[i + 1..];
      TripledBody(q, s[1..], rest);
      assert [s[0]] + s[1..] == s;
    }
  }

  /** A triple-quoted string is read with the blanks at its ends removed. */
  lemma TripleQuoted(q: int, s: Text, rest: Text, k: Store)
    requires (q == DQUOTE || q == SQUOTE || q == BACKTICK) && EndsFirst(s, q) && k.Wf()
    ensures ParseValue([q, q, q] + (s + ([q, q, q] + rest)), k) == Done(PyStr(Strip(s)), rest, k)
  {
    hide MultilineBody, Strip;
    var t := [q, q, q] + (s + ([q, q, q] + rest));
    TripledBody(q, s, rest);
    ParseScalarAt(t, k);
    assert t[3..] == s + ([q, q, q] + rest);
  }

  // ---------- Without quotes ----------

  /** A colon, a comma or a closer. */
  predicate IsDelimiter(c: int) {
    c == COLON || c == COMMA || c == RBRACE || c == RBRACKET
  }

  predicate WfBareKey(key: Text) {
    && key != [] && !OpensTrivia(key) && key[0] != DQUOTE && key[0] != SQUOTE
    && forall i :: 0 <= i < |key| ==> !IsSpace(key[i]) && !IsDelimiter(key[i])
  }

  lemma {:induction false} KeyBody(key: Text, t: Text)
    requires forall i :: 0 <= i < |key| ==> !IsSpace(key[i]) && !IsDelimiter(key[i])
    requires t == [] || IsSpace(t[0]) || IsDelimiter(t[0])
    ensures UnquotedKey(key + t) == Scan(key, t)
  {
    if key == [] {
      assert key + t == t;
    } else {
      assert (key + t)[1..] == key[1..] + t;
      KeyBody(key[1..], t);
      assert [key[0]] + key[1..] == key;
    }
  }

  /** A key without quotes ends before the blank, colon, comma or bracket that follows it. */
  lemma BareKey(key: Text, t: Text)
    requires WfBareKey(key) && (t == [] || IsSpace(t[0]) || IsDelimiter(t[0]))
    ensures !OpensTrivia(key + t) && ParseKey(key + t) == Scan(key, t)
  {
    var u := key + t;
    assert u[0] == key[0] && (|u| > 1 ==> u[1] == if |key| > 1 then key[1] else t[0]);
    SkipBlanks([], u);
    KeyBody(key, t);
  }

  /** The word in letters of any case. */
  predicate InAnyCase(t: Text, word: Text) {
    |t| == |word| && forall i :: 0 <= i < |t| ==> t[i] == word[i] || t[i] == word[i] - 0x20
  }

  predicate StartsWithWord(v: Text, word: Text) {
    |word| <= |v| && InAnyCase(v[..|word|], word)
  }

  /** A value that starts like nothing else: no blank, comment, bracket, quote, digit, sign or word. */
  predicate WfBare(v: Text) {
    && v != [] && !OpensTrivia(v) && v[0] != LBRACE && v[0] != LBRACKET
    && v[0] != DQUOTE && v[0] != SQUOTE && v[0] != BACKTICK && !IsDigit(v[0]) && v[0] != MINUS && v[0] != PLUS
    && !StartsWithWord(v, TRUE_WORD) && !StartsWithWord(v, FALSE_WORD)
    && !StartsWithWord(v, NULL_WORD) && !StartsWithWord(v, UNDEFINED_WORD)
    && forall i :: 0 <= i < |v| ==> !IsDelimiter(v[i])
  }

  lemma {:induction false} BareBody(v: Text, d: int, rest: Text)
    requires (forall i :: 0 <= i < |v| ==> !IsDelimiter(v[i])) && IsDelimiter(d)
    ensures UnquotedBody(v + Cons(d, rest)) == Scan(v, rest)
  {
    if v == [] {
      assert v + Cons(d, rest) == Cons(d, rest);
    } else {
      assert (v + Cons(d, rest))[1..] == v[1..] + Cons(d, rest);
      BareBody(v[1..], d, rest);
      assert [v[0]] + v[1..] == v;
    }
  }

  /** A delimiter is no letter, so no word reaches past it. */
  lemma NoWordPast(v: Text, d: int, rest: Text, word: Text)
    requires IsDelimiter(d) && !StartsWithWord(v, word) && forall i :: 0 <= i < |word| ==> 0x61 <= word[i] <= 0x7A
    ensures !MatchesWord(v + Cons(d, rest), word)
  {
    var t := v + Cons(d, rest);
    if |v| < |word| {
      assert t[|v|] == d;
    } else {
      var i :| 0 <= i < |word| && v[i] != word[i] && v[i] != word[i] - 0x20;
      assert t[i] == v[i] && Lower(t[i]) != word[i];
    }
  }

  /** A value without quotes is read up to the next delimiter, which is lost. */
  lemma BareValue(v: Text, d: int, rest: Text, k: Store)
    requires WfBare(v) && IsDelimiter(d) && k.Wf()
    ensures ParseValue(v + Cons(d, rest), k) == Done(PyStr(Strip(v)), rest, k)
  {
    hide UnquotedBody, Strip, MatchesWord, StartsWithWord;
    var t := v + Cons(d, rest);
    assert t[0] == v[0] && t[1] == if |v| > 1 then v[1] else d;
    BareBody(v, d, rest);
    NoWordPast(v, d, rest, TRUE_WORD);
    NoWordPast(v, d, rest, FALSE_WORD);
    NoWordPast(v, d, rest, NULL_WORD);
    NoWordPast(v, d, rest, UNDEFINED_WORD);
    ParseScalarAt(t, k);
  }

  /** `{key: v}`: the value takes the object's own brace, and what follows is read as more of the object. */
  lemma BareValueTakesBrace(key: Text, w: Text, v: Text, rest: Text, k: Store, base: seq<nat>, o: nat)
    requires WfBareKey(key) && AllSpace(w) && WfBare(v) && DictOnTop(k, base, o)
    ensures ObjectContent(key + Cons(COLON, w + (v + Cons(RBRACE, rest))), k)
      == Onward(AfterMember(SkipTrivia(rest), Put(k, o, key, PyStr(Strip(v)))))
  {
    hide ParseKey, WfBare, Strip, ObjectContent, SkipTrivia, AfterMember, Onward;
    var z := v + Cons(RBRACE, rest);
    var x := Cons(COLON, w + z);
    var u := key + x;
    BareKey(key, x);
    SkipBlanks([], x);
    assert x[1..] == w + z;
    SkipSpaces(w, z);
    BareValue(v, RBRACE, rest, k);
    BareStart(v, rest);
    SameBehindBlanks(w + z, z, k);
    var stored := Put(k, o, key, PyStr(Strip(v)));
    assert Member(u, k) == Done(PyNone, rest, stored);
    SkipBlanks([], u);
    assert u[0] == key[0] && u[0] != RBRACE;
    AfterStored(u, u, k, rest, stored);
  }

  lemma BareStart(v: Text, rest: Text)
    requires WfBare(v)
    ensures SkipTrivia(v + Cons(RBRACE, rest)) == v + Cons(RBRACE, rest)
  {
    var t := v + Cons(RBRACE, rest);
    assert t[0] == v[0] && t[1] == if |v| > 1 then v[1] else RBRACE;
    SkipBlanks([], t);
  }

  // ---------- Words, escapes ----------

  /** `True`, `FALSE`, `null` and `undefined` are read in any case: as booleans and None, whatever follows. */
  lemma WordInAnyCase(t: Text, word: Text, rest: Text, k: Store)
    requires k.Wf() && InAnyCase(t, word)
    requires word == TRUE_WORD || word == FALSE_WORD || word == NULL_WORD || word == UNDEFINED_WORD
    ensures ParseValue(t + rest, k)
      == Done(if word == TRUE_WORD then PyBool(true) else if word == FALSE_WORD then PyBool(false) else PyNone, rest, k)
  {
    var u := t + rest;
    assert forall i :: 0 <= i < |word| ==> u[i] == t[i] && Lower(u[i]) == word[i];
    assert u[|word|..] == rest;
    ParseScalarAt(u, k);
    assert MatchesWord(u, word);
  }

  /** What a backslash and one character stand for, between any quotes; any other character is dropped with it. */
  lemma EscapeRead(c: int, rest: Text, q: int)
    requires q != BACKSLASH && c != LOWER_U
    ensures StringBody([BACKSLASH, c] + rest, q) ==
      if c == 0x62 then StringBody(rest, q).Prepend([0x08])
      else if c == 0x66 then StringBody(rest, q).Prepend([0x0C])
      else if c == 0x6E then StringBody(rest, q).Prepend([0x0A])
      else if c == 0x72 then StringBody(rest, q).Prepend([0x0D])
      else if c == 0x74 then StringBody(rest, q).Prepend([0x09])
      else if c == 0x22 || c == 0x27 || c == 0x5C || c == 0x2F then StringBody(rest, q).Prepend([c])
      else StringBody(rest, q)
  {
    var t := [BACKSLASH, c] + rest;
    assert t[2..] == rest;
  }

  /** The digit of value `n`, in upper or lower case. */
  function HexChar(n: nat, upper: bool): int
    requires n < 16
  {
    if n < 10 then 0x30 + n else if upper then 0x41 + (n - 10) else 0x61 + (n - 10)
  }

  /** Four hexadecimal digits in any case stand for the character of that number, a lone surrogate too. */
  lemma UnicodeRead(x: Text, h: seq<nat>, rest: Text, q: int)
    requires |x| == |h| == 4 && q != BACKSLASH
    requires forall i :: 0 <= i < 4 ==> h[i] < 16 && (x[i] == HexChar(h[i], true) || x[i] == HexChar(h[i], false))
    ensures StringBody([BACKSLASH, LOWER_U] + x + rest, q)
      == StringBody(rest, q).Prepend([h[0] * 0x1000 + h[1] * 0x100 + h[2] * 0x10 + h[3]])
  {
    hide StringBody, UnicodeEscape;
    assert forall i :: 0 <= i < 4 ==> IsHex(x[i]) && HexVal(x[i]) == h[i];
    FourTaken(x, rest, q);
    HexEscape(x);
  }

  lemma HexEscape(x: Text)
    requires |x| == 4 && forall i :: 0 <= i < 4 ==> IsHex(x[i])
    ensures UnicodeEscape(x) == [HexVal(x[0]) * 0x1000 + HexVal(x[1]) * 0x100 + HexVal(x[2]) * 0x10 + HexVal(x[3])]
  {
  }

  lemma FourTaken(x: Text, rest: Text, q: int)
    requires |x| == 4 && (forall i :: 0 <= i < 4 ==> IsAlnum(x[i])) && q != BACKSLASH
    ensures StringBody([BACKSLASH, LOWER_U] + x + rest, q) == StringBody(rest, q).Prepend(UnicodeEscape(x))
  {
    hide UnicodeEscape;
    var t := [BACKSLASH, LOWER_U] + x + rest;
    assert t[2..] == x + rest && t[6..] == rest && t[2..6] == x;
    TakeRun(x, rest, 4);
  }

  lemma {:induction false} TakeRun(x: Text, rest: Text, n: nat)
    requires (forall i :: 0 <= i < |x| ==> IsAlnum(x[i])) && |x| <= n && (|x| < n ==> rest == [] || !IsAlnum(rest[0]))
    ensures AlnumRun(x + rest, n) == |x|
  {
    if x == [] {
      assert x + rest == rest;
    } else {
      assert (x + rest)[1..] == x[1..] + rest;
      TakeRun(x[1..], rest, n - 1);
    }
  }

  /** Letters that are no hexadecimal digits: the escape is kept as written, and the string goes on. An `x` behind a
      zero is the exception, because Python's `int` takes that for a prefix. */
  lemma UnicodeKept(x: Text, rest: Text, q: int)
    requires |x| == 4 && (forall i :: 0 <= i < 4 ==> IsAlnum(x[i])) && q != BACKSLASH
    requires exists i :: 0 <= i < 4 && (0x47 <= x[i] <= 0x5A || 0x67 <= x[i] <= 0x7A)
    ensures StringBody([BACKSLASH, LOWER_U] + x + rest, q) == StringBody(rest, q).Prepend(
      if x[0] == 0x30 && (x[1] == 0x58 || x[1] == 0x78) && IsHex(x[2]) && IsHex(x[3]) then [HexVal(x[2]) * 16 + HexVal(x[3])]
      else [BACKSLASH, LOWER_U] + x)
  {
    FourTaken(x, rest, q);
  }

  /** With less than four letters and digits behind `\u` the string ends there, without its closing quote. */
  lemma UnicodeShort(x: Text, rest: Text, q: int)
    requires |x| < 4 && (forall i :: 0 <= i < |x| ==> IsAlnum(x[i])) && (rest == [] || !IsAlnum(rest[0])) && q != BACKSLASH
    ensures StringBody([BACKSLASH, LOWER_U] + x + rest, q) == Scan([BACKSLASH, LOWER_U] + x, rest)
  {
    var t := [BACKSLASH, LOWER_U] + x + rest;
    assert t[2..] == x + rest && t[2 + |x|..] == rest && t[2..2 + |x|] == x;
    TakeRun(x, rest, 4);
  }

  // ---------- Blanks ----------

  /** What separates tokens: exactly the characters for which `str.isspace` holds. */
  lemma BlankExactly(c: int)
    ensures SkipTrivia([c]) == [] <==>
      c in {0x09, 0x0A, 0x0B, 0x0C, 0x0D, 0x1C, 0x1D, 0x1E, 0x1F, 0x20, 0x85, 0xA0, 0x1680,
            0x2000, 0x2001, 0x2002, 0x2003, 0x2004, 0x2005, 0x2006, 0x2007, 0x2008, 0x2009, 0x200A,
            0x2028, 0x2029, 0x202F, 0x205F, 0x3000}
  {
    assert SkipTrivia([c]) == if IsSpace(c) then SkipTrivia([]) else [c];
  }

  /** `strip` takes all blanks from both ends and nothing else. */
  lemma StripExactly(before: Text, s: Text, after: Text)
    requires AllSpace(before) && AllSpace(after) && (s != [] ==> !IsSpace(s[0]) && !IsSpace(s[|s| - 1]))
    ensures Strip(before + (s + after)) == s
  {
    LStripBlanks(before, s + after);
    if s == [] {
      assert s + after == after && after + [] == after;
      LStripBlanks(after, []);
    } else {
      assert (s + after)[0] == s[0];
      RStripBlanks(s, after);
    }
  }

  lemma {:induction false} LStripBlanks(w: Text, t: Text)
    requires AllSpace(w)
    ensures LStrip(w + t) == LStrip(t)
  {
    if w == [] {
      assert w + t == t;
    } else {
      assert (w + t)[1..] == w[1..] + t;
      LStripBlanks(w[1..], t);
    }
  }

  lemma {:induction false} RStripBlanks(s: Text, w: Text)
    requires AllSpace(w) && s != [] && !IsSpace(s[|s| - 1])
    ensures RStrip(s + w) == s
  {
    if w == [] {
      assert s + w == s;
    } else {
      assert (s + w)[..|s + w| - 1] == s + w[..|w| - 1];
      RStripBlanks(s, w[..|w| - 1]);
    }
  }

  // ---------- Missing commas and colons ----------

  /** An entry that is followed by another one without a comma: it is stored, and the object reads on. */
  lemma MissingComma(before: seq<Blank>, e: Entry, after: seq<Blank>, more: Text, k: Store, base: seq<nat>, o: nat, js: map<Text, Json>)
    returns (stored: Store)
    requires WfTrivia(before) && WfEntry(e) && Separated(e.value) && WfTrivia(after) && StartsWithChar(more, DQUOTE)
    requires e.value == LStr([]) ==> after != []
    requires Top(k, base, o) && ReadsMap(k.heap, o + 1, k.heap[o], js)
    ensures Top(stored, base, o) && OnlyGrows(k, stored, o)
    ensures ReadsMap(stored.heap, o + 1, stored.heap[o], js[EntryKey(e) := EntryValue(e)])
    ensures ObjectContent(TriviaThen(before, EntryThen(e, TriviaThen(after, more))), k) == ObjectContent(more, stored)
  {
    hide Member, ObjectStep, ObjectContent, SkipTrivia, ParseValue, TriviaThen, LayoutThen, EntryThen, Reads;
    var tail := TriviaThen(after, more);
    TriviaHead(after, more);
    stored := EntryRead(e, tail, k, base, o, js);
    ObjectStepAt(before, EntryThen(e, tail), k, tail, stored);
    SkipBlanks(after, more);
    OnWithoutComma(TriviaThen(before, EntryThen(e, tail)), more, k, stored);
  }

  lemma OnWithoutComma(q: Text, more: Text, k: Store, stored: Store)
    requires k.Wf() && stored.Wf() && q != [] && StartsWithChar(more, DQUOTE) && ObjectStep(q, k) == AfterMember(more, stored)
    ensures ObjectContent(q, k) == ObjectContent(more, stored)
  {
    hide ObjectStep;
  }

  /** A key that is followed by its value without a colon: the value is stored under the key. */
  lemma MissingColon(key: seq<Piece>, blanks: seq<Blank>, value: Text, k: Store)
    requires WfPieces(key) && WfTrivia(blanks) && k.Wf() && value != [] && !OpensTrivia(value) && value[0] != COLON
    ensures var t := QuotedThen(key, TriviaThen(blanks, value)); var r := ParseValue(value, k);
      t != [] && !OpensTrivia(t) && Member(t, k) == if r.Raised? then r else SetItem(PiecesValue(key), r.v, r.rest, r.k)
  {
    hide ParseValue, TriviaThen, SkipTrivia, PiecesThen;
    var x := TriviaThen(blanks, value);
    var t := QuotedThen(key, x);
    QuotedRead(key, x);
    NoBlanks(t);
    SkipBlanks([], t);
    SkipBlanks(blanks, value);
  }

  /** An element with nothing but blanks between it and other text, or the end. */
  lemma ElementThen(
    before: seq<Blank>, item: Layout, after: seq<Blank>, more: Text, k: Store, base: seq<nat>, o: nat, js: seq<Json>)
    returns (stored: Store)
    requires WfTrivia(before) && WfLayout(item) && Separated(item) && WfTrivia(after) && (more == [] || StartsWithChar(more, DQUOTE))
    requires item == LStr([]) ==> after != [] || more == []
    requires Top(k, base, o) && ReadsAll(k.heap, o + 1, k.heap[o], js)
    ensures Top(stored, base, o) && OnlyGrows(k, stored, o)
    ensures ReadsAll(stored.heap, o + 1, stored.heap[o], js + [LayoutValue(item)])
    ensures var t := TriviaThen(before, LayoutThen(item, TriviaThen(after, more))); t != [] && ArrayStep(t, k) == AfterElement(more, stored)
  {
    hide SkipTrivia, ParseValue, TriviaThen, LayoutThen, Reads, ReadsAll, AfterElement, Append, Follows, AfterLayout, Separated, WfLayout;
    TextFollows(item, after, more);
    var tail := TriviaThen(after, more);
    var u := LayoutThen(item, tail);
    LayoutHead(item, tail);
    TriviaHead(before, u);
    SkipBlanks(before, u);
    ValueRead(item, tail, k);
    SkipBlanks(after, more);
    var value := ParseValue(u, k);
    AppendRead(value.v, LayoutValue(item), k, value.k, base, o, js, tail);
    stored := Append(value.v, tail, value.k).k;
  }

  lemma TextFollows(item: Layout, after: seq<Blank>, more: Text)
    requires WfTrivia(after) && (more == [] || StartsWithChar(more, DQUOTE)) && (item == LStr([]) ==> after != [] || more == [])
    ensures var tail := TriviaThen(after, more); Follows(item, tail) && AfterLayout(item, tail) == tail
  {
    TriviaHead(after, more);
  }

  /** In a list the element behind which a comma is missing is the last one, also at the end of the text. */
  lemma MissingCommaInList(
    before: seq<Blank>, item: Layout, after: seq<Blank>, more: Text, k: Store, base: seq<nat>, o: nat, js: seq<Json>)
    requires WfTrivia(before) && WfLayout(item) && Separated(item) && WfTrivia(after) && (more == [] || StartsWithChar(more, DQUOTE))
    requires item == LStr([]) ==> after != [] || more == []
    requires Top(k, base, o) && ReadsAll(k.heap, o + 1, k.heap[o], js)
    ensures var r := ArrayContent(TriviaThen(before, LayoutThen(item, TriviaThen(after, more))), k);
      ClosesList(r, more, k, base, o, js + [LayoutValue(item)])
  {
    hide TriviaThen, LayoutThen, Reads, ReadsAll, AfterElement, ArrayContent, ArrayStep;
    var stored := ElementThen(before, item, after, more, k, base, o, js);
    ListEndsAt(TriviaThen(before, LayoutThen(item, TriviaThen(after, more))), more, k, stored);
  }

  lemma ListEndsAt(q: Text, more: Text, k: Store, stored: Store)
    requires k.Wf() && stored.Wf() && q != [] && (more == [] || StartsWithChar(more, DQUOTE)) && ArrayStep(q, k) == AfterElement(more, stored)
    ensures ArrayContent(q, k) == Pop(more, stored)
  {
    hide ArrayStep;
  }
}
