/**
 Parsing a response while it is still arriving: the text of a nested object, cut anywhere.
 */
module DirtyJsonStream {
  import opened CodePoints
  import opened DirtyJsonSpec
  import opened DirtyJsonDecimals
  import opened DirtyJsonLayout
  import opened DirtyJsonRoundTrip
  import opened DirtyJsonTokens
  import opened DirtyJsonCut

  // ---------- Objects of strings, words, numbers and objects ----------

  predicate SpacesOnly(bs: seq<Blank>) {
    forall i :: 0 <= i < |bs| ==> bs[i].Space? && IsSpace(bs[i].c)
  }

  /** A key without escapes. */
  predicate RawKey(ps: seq<Piece>) {
    forall i :: 0 <= i < |ps| ==> ps[i].Raw? && ps[i].c != DQUOTE && ps[i].c != BACKSLASH
  }

  /** Blanks between tokens, keys without escapes, at every level that is not inside a list. */
  predicate SpacedHead(e: Entry) {
    RawKey(e.key) && SpacesOnly(e.beforeColon) && SpacesOnly(e.afterColon)
  }

  predicate Spaced(l: Layout) {
    match l
    case LObj(members) => SpacedMembers(members)
    case _ => true
  }

  predicate SpacedMembers(members: Members) {
    match members
    case NoMembers(end) => SpacesOnly(end)
    case LastMember(before, entry, after) => SpacesOnly(before) && SpacedHead(entry) && Spaced(entry.value) && SpacesOnly(after)
    case NextMember(before, entry, after, more) =>
      SpacesOnly(before) && SpacedHead(entry) && Spaced(entry.value) && SpacesOnly(after) && SpacedMembers(more)
  }

  /** Besides, no list, and no number with a sign or an exponent: cut behind an opening bracket, a sign or an `e` the
      text does not parse. */
  predicate Streamable(l: Layout) {
    match l
    case LArr(_) => false
    case LInt(negative, _) => !negative
    case LFloat(d) => d.sign == [] && d.e == []
    case LObj(members) => StreamableMembers(members)
    case _ => true
  }

  predicate StreamableEntry(e: Entry) {
    SpacedHead(e) && Streamable(e.value)
  }

  predicate StreamableMembers(members: Members) {
    match members
    case NoMembers(end) => SpacesOnly(end)
    case LastMember(before, entry, after) => SpacesOnly(before) && StreamableEntry(entry) && SpacesOnly(after)
    case NextMember(before, entry, after, more) =>
      SpacesOnly(before) && StreamableEntry(entry) && SpacesOnly(after) && StreamableMembers(more)
  }

  /** Well formed, separated, and streamable. */
  predicate Fits(members: Members) {
    WfMembers(members) && SeparatedMembers(members) && StreamableMembers(members)
  }

  function Chars(bs: seq<Blank>): (t: Text)
    requires SpacesOnly(bs)
    ensures |t| == |bs| && AllSpace(t)
  {
    seq(|bs|, i requires 0 <= i < |bs| => bs[i].c)
  }

  lemma {:induction false} CharsThen(bs: seq<Blank>, t: Text)
    requires SpacesOnly(bs)
    ensures WfTrivia(bs) && TriviaThen(bs, t) == Chars(bs) + t
  {
    if bs == [] {
      assert Chars(bs) + t == t;
    } else {
      CharsThen(bs[1..], t);
      assert Chars(bs) == [bs[0].c] + Chars(bs[1..]);
      assert [bs[0].c] + (Chars(bs[1..]) + t) == Chars(bs) + t;
    }
  }

  lemma {:induction false} KeyThen(ps: seq<Piece>, t: Text)
    requires RawKey(ps)
    ensures WfPieces(ps) && Plain(PiecesValue(ps)) && PiecesThen(ps, t) == PiecesValue(ps) + t
  {
    if ps == [] {
      assert PiecesValue(ps) + t == t;
    } else {
      KeyThen(ps[1..], t);
      assert [ps[0].c] + (PiecesValue(ps[1..]) + t) == PiecesValue(ps) + t;
    }
  }

  // ---------- A text is what it writes, and then what follows ----------

  lemma {:induction false} TriviaAppend(bs: seq<Blank>, t: Text, u: Text)
    requires SpacesOnly(bs)
    ensures TriviaThen(bs, t + u) == TriviaThen(bs, t) + u
  {
    if bs != [] {
      TriviaAppend(bs[1..], t, u);
      ConsAppend(bs[0].c, TriviaThen(bs[1..], t), u);
    }
  }

  lemma QuotedAppend(ps: seq<Piece>, t: Text, u: Text)
    ensures QuotedThen(ps, t + u) == QuotedThen(ps, t) + u
  {
    ConsAppend(DQUOTE, t, u);
    PiecesAppend(ps, Cons(DQUOTE, t), u);
    ConsAppend(DQUOTE, PiecesThen(ps, Cons(DQUOTE, t)), u);
  }

  lemma HeadAppend(e: Entry, t: Text, u: Text)
    requires SpacedHead(e)
    ensures HeadThen(e, t + u) == HeadThen(e, t) + u
  {
    hide QuotedThen, TriviaThen;
    var after := TriviaThen(e.afterColon, t);
    TriviaAppend(e.afterColon, t, u);
    ConsAppend(COLON, after, u);
    TriviaAppend(e.beforeColon, Cons(COLON, after), u);
    QuotedAppend(e.key, ColonThen(e, t), u);
  }

  lemma {:induction false} LayoutAppend(l: Layout, t: Text, u: Text)
    requires Streamable(l)
    ensures LayoutThen(l, t + u) == LayoutThen(l, t) + u
    decreases l, 0
  {
    match l
    case LNull => PlusAppend(NULL_WORD, t, u);
    case LBool(b) => PlusAppend(if b then TRUE_WORD else FALSE_WORD, t, u);
    case LInt(_, digits) => PlusAppend(digits, t, u);
    case LFloat(d) => PlusAppend(d.Text(), t, u);
    case LStr(pieces) => QuotedAppend(pieces, t, u);
    case LObj(members) =>
      MembersAppend(members, t, u);
      ConsAppend(LBRACE, MembersThen(members, t), u);
  }

  lemma {:induction false} EntryAppend(e: Entry, t: Text, u: Text)
    requires StreamableEntry(e)
    ensures EntryThen(e, t + u) == EntryThen(e, t) + u
    decreases e, 0
  {
    LayoutAppend(e.value, t, u);
    HeadAppend(e, LayoutThen(e.value, t), u);
  }

  lemma {:induction false} MembersAppend(members: Members, t: Text, u: Text)
    requires StreamableMembers(members)
    ensures MembersThen(members, t + u) == MembersThen(members, t) + u
    decreases members, 0
  {
    match members
    case NoMembers(end) =>
      ConsAppend(RBRACE, t, u);
      TriviaAppend(end, Cons(RBRACE, t), u);
    case LastMember(before, e, after) =>
      ConsAppend(RBRACE, t, u);
      AroundAppend(before, e, after, Cons(RBRACE, t), u);
    case NextMember(before, e, after, more) =>
      MembersAppend(more, t, u);
      ConsAppend(COMMA, MembersThen(more, t), u);
      AroundAppend(before, e, after, Cons(COMMA, MembersThen(more, t)), u);
  }

  lemma {:induction false} AroundAppend(before: seq<Blank>, e: Entry, after: seq<Blank>, t: Text, u: Text)
    requires SpacesOnly(before) && StreamableEntry(e) && SpacesOnly(after)
    ensures TriviaThen(before, EntryThen(e, TriviaThen(after, t + u))) == TriviaThen(before, EntryThen(e, TriviaThen(after, t))) + u
    decreases e, 1
  {
    hide TriviaThen, EntryThen;
    TriviaAppend(after, t, u);
    EntryAppend(e, TriviaThen(after, t), u);
    TriviaAppend(before, EntryThen(e, TriviaThen(after, t)), u);
  }

  // ---------- What has arrived ----------

  /** The length of an entry's text up to its value. */
  function HeadSize(before: seq<Blank>, e: Entry): nat {
    |before| + |e.key| + |e.beforeColon| + |e.afterColon| + 3
  }

  /** Up to the end of its value. */
  function EntrySize(before: seq<Blank>, e: Entry): nat {
    HeadSize(before, e) + |LayoutThen(e.value, [])|
  }

  /** Up to the comma behind it, included. */
  function CommaSize(before: seq<Blank>, e: Entry, after: seq<Blank>): nat {
    EntrySize(before, e) + |after| + 1
  }

  /** Do the first `n` characters of an object's inside end right behind an opening brace or a comma of the
      object, or of one nested in it? */
  predicate Behind(members: Members, n: nat)
    decreases members
  {
    || n == 0
    || match members
       case NoMembers(_) => false
       case LastMember(before, e, _) => BehindIn(before, e, n)
       case NextMember(before, e, after, more) =>
         BehindIn(before, e, n) || (n >= CommaSize(before, e, after) && Behind(more, n - CommaSize(before, e, after)))
  }

  /** The same for an object that is the entry's value. */
  predicate BehindIn(before: seq<Blank>, e: Entry, n: nat)
    decreases e
  {
    HeadSize(before, e) < n < EntrySize(before, e) && e.value.LObj? && Behind(e.value.members, n - HeadSize(before, e) - 1)
  }

  /** The same for nested objects only. */
  predicate BehindInner(members: Members, n: nat) {
    match members
    case NoMembers(_) => false
    case LastMember(before, e, _) => BehindIn(before, e, n)
    case NextMember(before, e, after, more) =>
      BehindIn(before, e, n) || (n >= CommaSize(before, e, after) && BehindInner(more, n - CommaSize(before, e, after)))
  }

  function Upto(t: Text, n: int): Text {
    if n <= 0 then [] else if n <= |t| then t[..n] else t
  }

  /** The first `n` characters of a value that is no container: a word is a text until it is there, and a float an
      integer up to its point. */
  function CutScalar(l: Layout, n: nat): Json
    requires WfLayout(l)
  {
    match l
    case LNull => JStr(Upto(NULL_WORD, n))
    case LBool(b) => JStr(Upto(if b then TRUE_WORD else FALSE_WORD, n))
    case LInt(_, digits) => JInt(DecVal(Upto(digits, n)))
    case LFloat(d) => if n <= |d.whole| then JInt(DecVal(Upto(d.whole, n))) else JFloat(Upto(d.Text(), n))
    case LStr(pieces) => JStr(CutText(pieces, n - 1))
    case _ => JNull
  }

  /** The entries that the first `n` characters of an object's inside are read as. */
  function Shown(members: Members, n: nat): map<Text, Json>
    requires WfMembers(members)
    decreases members
  {
    match members
    case NoMembers(_) => map[]
    case LastMember(before, e, _) => ShownEntry(before, e, n)
    case NextMember(before, e, after, more) =>
      ShownEntry(before, e, n) + if n >= CommaSize(before, e, after) then Shown(more, n - CommaSize(before, e, after)) else map[]
  }

  /** A key maps to None as far as it is there; a nested object to what is there of it, unless the text ends
      right behind an opening brace or comma in it: then the entry is missing. */
  function ShownEntry(before: seq<Blank>, e: Entry, n: nat): map<Text, Json>
    requires WfEntry(e)
    decreases e
  {
    assert WfLayout(e.value);
    if n <= |before| then map[]
    else if n <= HeadSize(before, e) then map[Upto(EntryKey(e), n - |before| - 1) := JNull]
    else if n >= EntrySize(before, e) then map[EntryKey(e) := EntryValue(e)]
    else match e.value
      case LObj(inner) =>
        var m := n - HeadSize(before, e) - 1;
        if Behind(inner, m) then map[] else map[EntryKey(e) := JObj(Shown(inner, m))]
      case _ => map[EntryKey(e) := CutScalar(e.value, n - HeadSize(before, e))]
  }

  // ---------- Where the text is cut ----------

  /** The text of an entry up to its value. */
  function HeadText(before: seq<Blank>, e: Entry): Text {
    TriviaThen(before, HeadThen(e, []))
  }

  lemma HeadSplit(before: seq<Blank>, e: Entry, t: Text)
    requires SpacesOnly(before) && SpacedHead(e)
    ensures TriviaThen(before, HeadThen(e, t)) == HeadText(before, e) + t
  {
    hide TriviaThen, HeadThen;
    assert [] + t == t;
    HeadAppend(e, [], t);
    TriviaAppend(before, HeadThen(e, []), t);
  }

  /** The text of an entry from the quote of its key up to its value. */
  function KeyText(e: Entry): Text
    requires SpacedHead(e) && WfEntry(e)
  {
    [DQUOTE] + (EntryKey(e) + ([DQUOTE] + (Chars(e.beforeColon) + ([COLON] + Chars(e.afterColon)))))
  }

  /** The parts of the text of an entry up to its value. */
  lemma HeadParts(before: seq<Blank>, e: Entry)
    requires SpacesOnly(before) && SpacedHead(e) && WfEntry(e)
    ensures HeadText(before, e) == Chars(before) + KeyText(e)
    ensures |EntryKey(e)| == |e.key| && |HeadText(before, e)| == HeadSize(before, e)
  {
    hide TriviaThen, PiecesThen;
    CharsThen(e.afterColon, []);
    assert Chars(e.afterColon) + [] == Chars(e.afterColon);
    CharsThen(e.beforeColon, Cons(COLON, Chars(e.afterColon)));
    var colon := ColonThen(e, []);
    KeyThen(e.key, Cons(DQUOTE, colon));
    KeySize(e.key);
    CharsThen(before, HeadThen(e, []));
  }

  lemma {:induction false} KeySize(ps: seq<Piece>)
    requires WfPieces(ps)
    ensures |PiecesValue(ps)| == |ps|
  {
    if ps != [] { KeySize(ps[1..]); }
  }

  lemma ValueSplit(before: seq<Blank>, e: Entry, t: Text)
    requires SpacesOnly(before) && StreamableEntry(e)
    ensures TriviaThen(before, EntryThen(e, t)) == HeadText(before, e) + (LayoutThen(e.value, []) + t)
  {
    hide TriviaThen, LayoutThen, HeadThen;
    assert [] + t == t;
    LayoutAppend(e.value, [], t);
    HeadSplit(before, e, LayoutThen(e.value, t));
  }

  lemma SomeValue(e: Entry)
    requires WfEntry(e)
    ensures LayoutThen(e.value, []) != []
  {
    LayoutHead(e.value, []);
  }

  /** A text cut in an entry: in its head, in its value, or behind both. */
  lemma Divide(before: seq<Blank>, e: Entry, tail: Text, q: Text)
    requires SpacesOnly(before) && StreamableEntry(e) && WfEntry(e) && q <= TriviaThen(before, EntryThen(e, tail))
    ensures |q| <= HeadSize(before, e) ==> q <= HeadText(before, e)
    ensures HeadSize(before, e) < |q| < EntrySize(before, e) ==>
      var z := q[HeadSize(before, e)..]; q == HeadText(before, e) + z && z <= LayoutThen(e.value, [])
    ensures |q| >= EntrySize(before, e) ==>
      var w := q[EntrySize(before, e)..]; q == TriviaThen(before, EntryThen(e, w)) && w <= tail
  {
    hide TriviaThen, EntryThen, LayoutThen, HeadText, WfEntry;
    var (head, value) := (HeadText(before, e), LayoutThen(e.value, []));
    HeadParts(before, e);
    SomeValue(e);
    ValueSplit(before, e, tail);
    SplitPrefix(q, head, value + tail);
    if |q| > |head| {
      var z := q[|head|..];
      SplitPrefix(z, value, tail);
      if |z| >= |value| {
        var w := z[|value|..];
        assert q == head + (value + w);
        assert w == q[EntrySize(before, e)..];
        ValueSplit(before, e, w);
      }
    }
  }

  /** Behind its value: in the blanks, or behind the character `c` that follows them. */
  lemma DivideTail(after: seq<Blank>, c: int, next: Text, w: Text)
    requires SpacesOnly(after) && w <= TriviaThen(after, Cons(c, next))
    ensures |w| <= |after| ==> AllSpace(w)
    ensures |w| > |after| ==> var rest := w[|after| + 1..]; rest <= next && w == TriviaThen(after, Cons(c, rest))
  {
    hide TriviaThen, SpacesOnly, Cons;
    CharsThen(after, Cons(c, next));
    if |w| <= |after| {
      SplitPrefix(w, Chars(after), Cons(c, next));
      assert w == Chars(after)[..|w|];
    } else {
      PrefixBeyond(w, Chars(after), c, next);
      CharsThen(after, Cons(c, w[|after| + 1..]));
    }
  }

  lemma PrefixBeyond(w: Text, a: Text, c: int, next: Text)
    requires w <= a + Cons(c, next) && |w| > |a|
    ensures var rest := w[|a| + 1..]; rest <= next && w == a + Cons(c, rest)
  {
    SplitPrefix(w, a, Cons(c, next));
    SplitPrefix(w[|a|..], [c], next);
    assert w[|a|..] == Cons(c, w[|a| + 1..]);
  }

  // ---------- Values without containers, cut ----------

  /** The value is returned, nothing is left, and nothing else changed. */
  ghost predicate CutAs(r: Out, k: Store, j: Json) {
    r.Done? && r.rest == [] && r.k == k && Reads(k.heap, |k.heap|, r.v, j)
  }

  /** A streamable value starts with neither a blank nor a slash. */
  lemma Solid(l: Layout, t: Text)
    requires WfLayout(l) && Streamable(l)
    ensures var u := LayoutThen(l, t); u != [] && !IsSpace(u[0]) && u[0] != SLASH && (u[0] == LBRACE <==> l.LObj?)
    ensures LayoutThen(l, t)[0] != COLON && LayoutThen(l, t)[0] != RBRACE && LayoutThen(l, t)[0] != LBRACKET
  {
  }

  lemma SolidStart(t: Text)
    requires t != [] && !IsSpace(t[0]) && t[0] != SLASH
    ensures !OpensTrivia(t) && SkipTrivia(t) == t
  {
    NoBlanks(t);
    SkipBlanks([], t);
  }

  lemma BlankEnd(w: Text)
    requires AllSpace(w)
    ensures SkipTrivia(w) == []
  {
    OnlySpaces(w, |w|);
    assert w[..|w|] == w;
  }

  lemma {:induction false} BareEnd(t: Text)
    requires forall i :: 0 <= i < |t| ==> !EndsUnquoted(t[i])
    ensures UnquotedBody(t) == Scan(t, [])
  {
    if t != [] {
      BareEnd(t[1..]);
      assert [t[0]] + t[1..] == t;
    }
  }

  lemma NoStrip(t: Text)
    requires forall i :: 0 <= i < |t| ==> !IsSpace(t[i])
    ensures Strip(t) == t
  {
  }

  lemma NoWord(word: Text, z: Text)
    requires word == NULL_WORD || word == TRUE_WORD || word == FALSE_WORD
    requires z != [] && z <= word && |z| < |word|
    ensures WordLength(z) == 0
  {
    assert z[0] == word[0];
  }

  /** The beginning of a word is read as a text. */
  lemma WordCut(word: Text, z: Text, k: Store)
    requires word == NULL_WORD || word == TRUE_WORD || word == FALSE_WORD
    requires k.Wf() && z != [] && z <= word && |z| < |word|
    ensures CutAs(ParseValue(z, k), k, JStr(z))
  {
    hide WordLength, ParseValue, UnquotedBody, Strip, SkipTrivia;
    NoWord(word, z);
    assert forall i :: 0 <= i < |z| ==> z[i] == word[i];
    SolidStart(z);
    ParseScalarAt(z, k);
    BareEnd(z);
    NoStrip(z);
    assert !IsQuote(z[0]) && !IsDigit(z[0]) && z[0] != MINUS && z[0] != PLUS;
  }

  /** The beginning of a number is read as a number. */
  lemma DigitsCut(lit: Text, k: Store)
    requires k.Wf() && lit != [] && AllDigits(lit)
    ensures CutAs(ParseValue(lit, k), k, JInt(DecVal(lit)))
  {
    assert IsDigit(lit[0]);
    SolidStart(lit);
    ParseScalarAt(lit, k);
    assert lit + [] == lit;
    NumberRead(lit, []);
  }

  lemma {:induction false} TextCut(pieces: seq<Piece>, z: Text, k: Store)
    requires k.Wf() && WfPieces(pieces) && z != [] && z <= QuotedThen(pieces, []) && |z| < |QuotedThen(pieces, [])|
    ensures CutAs(ParseValue(z, k), k, JStr(CutText(pieces, |z| - 1)))
  {
    hide StringBody, PiecesThen, ParseValue, CutText;
    assert Cons(DQUOTE, []) == [DQUOTE];
    QuotedCut(pieces, z, k);
  }

  lemma NumberCut(digits: Text, z: Text, k: Store)
    requires k.Wf() && AllDigits(digits) && z != [] && z <= digits
    ensures CutAs(ParseValue(z, k), k, JInt(DecVal(Upto(digits, |z|))))
  {
    hide ParseValue, DecVal;
    assert z == Upto(digits, |z|);
    DigitsCut(z, k);
  }

  /** The beginning of a float, up to its point or past it. */
  lemma FloatCut(d: Float, z: Text, k: Store)
    requires d.sign == [] && d.e == [] && k.Wf() && z != [] && z <= d.Text()
    ensures CutAs(ParseValue(z, k), k, if |z| <= |d.whole| then JInt(DecVal(Upto(d.whole, |z|))) else JFloat(Upto(d.Text(), |z|)))
  {
    hide ParseValue, DecVal, CutAs;
    assert d.Text() == d.whole + ([DOT] + d.fraction) by { PointText(d); }
    SplitPrefix(z, d.whole, [DOT] + d.fraction);
    if |z| <= |d.whole| {
      NumberCut(d.whole, z, k);
    } else {
      var y := z[|d.whole|..];
      SplitPrefix(y, [DOT], d.fraction);
      var d' := Decimal([], d.whole, true, y[1..], [], [], []);
      PointText(d');
      assert d'.Text() == z == Upto(d.Text(), |z|);
      PartOfFloat(d', k);
    }
  }

  lemma PointText(d: Decimal)
    requires d.sign == [] && d.point && d.e == [] && d.eSign == [] && d.eDigits == []
    ensures d.Text() == d.whole + ([DOT] + d.fraction)
  {
  }

  lemma PartOfFloat(d: Float, k: Store)
    requires k.Wf()
    ensures CutAs(ParseValue(d.Text(), k), k, JFloat(d.Text()))
  {
    hide ParseValue, ParseScalar, Decimal.Text;
    var l := LFloat(d);
    assert d.Text() + [] == d.Text();
    LayoutHead(l, []);
    ParseScalarAt(d.Text(), k);
    FloatLiteralRead(l, [], k);
  }

  lemma ScalarCut(l: Layout, z: Text, k: Store)
    requires WfLayout(l) && Streamable(l) && !l.LObj? && k.Wf() && z != [] && z <= LayoutThen(l, []) && |z| < |LayoutThen(l, [])|
    ensures CutAs(ParseValue(z, k), k, CutScalar(l, |z|))
  {
    hide ParseValue, CutText, DecVal, CutAs, QuotedThen, SkipTrivia;
    match l
    case LNull =>
      assert NULL_WORD + [] == NULL_WORD;
      assert z == Upto(NULL_WORD, |z|);
      WordCut(NULL_WORD, z, k);
    case LBool(b) =>
      var word := if b then TRUE_WORD else FALSE_WORD;
      assert word + [] == word;
      assert z == Upto(word, |z|);
      WordCut(word, z, k);
    case LInt(_, digits) =>
      assert digits + [] == digits;
      NumberCut(digits, z, k);
    case LFloat(d) =>
      assert d.Text() + [] == d.Text();
      FloatCut(d, z, k);
    case LStr(pieces) =>
      TextCut(pieces, z, k);
  }

  // ---------- Objects, cut ----------

  /** The object's content ended with the text: `o` holds `js`, and is closed unless `open`. */
  ghost predicate Ends(r: Out, k: Store, base: seq<nat>, o: nat, js: map<Text, Json>, open: bool) {
    && r.Done? && r.rest == [] && o < |k.heap| && OnlyGrows(k, r.k, o) && ReadsMap(r.k.heap, o + 1, r.k.heap[o], js)
    && r.k.stack == if open then base + [o] else base
  }

  /** Some dict is one of its own values. */
  ghost predicate HoldsItself(heap: seq<Container>) {
    exists id: nat :: id < |heap| && heap[id].Dict? && PyRef(id) in heap[id].entries.Values
  }

  /** The dict `o` is being read and holds `js`. */
  ghost predicate Reading(k: Store, base: seq<nat>, o: nat, js: map<Text, Json>) {
    Top(k, base, o) && ReadsMap(k.heap, o + 1, k.heap[o], js)
  }

  lemma PopEnds(q: Text, u: Text, k: Store, stored: Store, base: seq<nat>, o: nat, js: map<Text, Json>)
    requires q != [] && SkipTrivia(q) == u && u != [] && u[0] == DQUOTE && Top(k, base, o)
    requires Member(u, k) == Done(PyNone, [], stored) && OnlyGrows(k, stored, o) && Reading(stored, base, o, js)
    ensures Ends(ObjectContent(q, k), k, base, o, js, false)
  {
    hide Member, SkipTrivia, ObjectContent, Reads;
    LeaveAfter(q, u, k, stored);
  }

  lemma BlanksCut(q: Text, k: Store, base: seq<nat>, o: nat, js: map<Text, Json>)
    requires AllSpace(q) && Reading(k, base, o, js)
    ensures Ends(ObjectContent(q, k), k, base, o, js, q == [])
  {
    hide Reads, SkipTrivia;
    BlankEnd(q);
  }

  /** What follows the key of an entry, up to its value, and nothing of that. */
  lemma ColonCut(e: Entry, x: Text, k: Store)
    requires SpacedHead(e) && k.Wf() && x <= Chars(e.beforeColon) + ([COLON] + Chars(e.afterColon))
    ensures var u := SkipTrivia(x);
      (if u == [] then Done(PyNone, [], k) else if u[0] == COLON then ParseValue(u[1..], k) else ParseValue(u, k)) == Done(PyNone, [], k)
  {
    hide ParseValue, SkipTrivia;
    SplitPrefix(x, Chars(e.beforeColon), [COLON] + Chars(e.afterColon));
    if |x| <= |Chars(e.beforeColon)| {
      BlankEnd(x);
    } else {
      var c := x[|Chars(e.beforeColon)|..];
      SplitPrefix(c, [COLON], Chars(e.afterColon));
      SkipSpaces(Chars(e.beforeColon), c);
      SolidStart(c);
      NoValue(c[1..], k);
    }
  }

  lemma NoValue(y: Text, k: Store)
    requires AllSpace(y) && k.Wf()
    ensures ParseValue(y, k) == Done(PyNone, [], k)
  {
    BlankEnd(y);
  }

  lemma SplitKey(u: Text, key: Text, colon: Text)
    requires u != [] && u <= [DQUOTE] + (key + ([DQUOTE] + colon))
    ensures u[0] == DQUOTE
    ensures if |u| - 1 <= |key| then u[1..] == key[..|u| - 1]
            else u[1..] == key + ([DQUOTE] + u[|key| + 2..]) && u[|key| + 2..] <= colon
  {
    SplitPrefix(u, [DQUOTE], key + ([DQUOTE] + colon));
    var x := u[1..];
    SplitPrefix(x, key, [DQUOTE] + colon);
    if |x| > |key| {
      SplitPrefix(x[|key|..], [DQUOTE], colon);
      assert x[|key|..][1..] == u[|key| + 2..];
    }
  }

  lemma KeyCut(e: Entry, u: Text, k: Store)
    requires SpacedHead(e) && WfEntry(e) && k.Wf() && u != []
    requires u <= KeyText(e)
    ensures u[0] == DQUOTE && SkipTrivia(u) == u
    ensures Member(u, k) == SetItem(Upto(EntryKey(e), |u| - 1), PyNone, [], k)
  {
    hide ParseValue, WfEntry, SkipTrivia, PiecesThen, PiecesValue, Member, SpacesOnly, EntryKey, Chars;
    var key := EntryKey(e);
    SplitKey(u, key, Chars(e.beforeColon) + ([COLON] + Chars(e.afterColon)));
    SolidStart(u);
    PlainKey(e);
    hide Plain, KeyText;
    if |u| - 1 <= |key| {
      PlainPart(key, |u| - 1);
      KeyPart(u[1..], u, k);
    } else {
      KeyWhole(e, key, u[|key| + 2..], u, k);
    }
  }

  lemma PlainKey(e: Entry)
    requires SpacedHead(e) && WfEntry(e)
    ensures Plain(EntryKey(e))
  {
    KeyThen(e.key, []);
  }

  lemma PlainPart(key: Text, n: nat)
    requires Plain(key) && n <= |key|
    ensures Plain(key[..n])
  {
  }

  lemma KeyPart(x: Text, u: Text, k: Store)
    requires Plain(x) && k.Wf() && u != [] && u[0] == DQUOTE && u[1..] == x && SkipTrivia(u) == u && !OpensTrivia(u)
    ensures Member(u, k) == SetItem(x, PyNone, [], k)
  {
    hide ParseValue, SkipTrivia, StringBody;
    PlainCut(x);
    NoTriviaLeft();
  }

  lemma KeyWhole(e: Entry, key: Text, d: Text, u: Text, k: Store)
    requires Plain(key) && SpacedHead(e) && k.Wf() && d <= Chars(e.beforeColon) + ([COLON] + Chars(e.afterColon))
    requires u != [] && u[0] == DQUOTE && u[1..] == key + ([DQUOTE] + d) && SkipTrivia(u) == u && !OpensTrivia(u)
    ensures Member(u, k) == SetItem(key, PyNone, [], k)
  {
    hide ParseValue, SkipTrivia, StringBody;
    PlainBody(key, d);
    ColonCut(e, d, k);
    assert ParseKey(u) == Scan(key, d);
  }

  lemma NoTriviaLeft()
    ensures SkipTrivia([]) == []
  {
  }

  /** A text cut before the value of an entry: in the blanks, or from the quote of the key on. */
  lemma DivideHead(before: seq<Blank>, e: Entry, q: Text)
    requires SpacesOnly(before) && SpacedHead(e) && WfEntry(e) && q <= HeadText(before, e)
    ensures |q| <= |before| ==> AllSpace(q)
    ensures |q| > |before| ==> var u := q[|before|..];
      && u != [] && q == Chars(before) + u && AllSpace(Chars(before))
      && u <= KeyText(e)
  {
    hide HeadText, WfEntry, PiecesValue, KeyText;
    HeadParts(before, e);
    SplitPrefix(q, Chars(before), KeyText(e));
    if |q| <= |before| { assert q == Chars(before)[..|q|]; }
  }

  lemma HeadCut(before: seq<Blank>, e: Entry, q: Text, k: Store, base: seq<nat>, o: nat, js: map<Text, Json>)
    requires SpacesOnly(before) && SpacedHead(e) && WfEntry(e) && q <= HeadText(before, e) && Reading(k, base, o, js)
    ensures Ends(ObjectContent(q, k), k, base, o, js + ShownEntry(before, e, |q|), q == [])
  {
    hide Reads, ReadsMap, ObjectContent, WfEntry, SkipTrivia, HeadText, Member, Ends, PiecesValue, ShownEntry, SpacesOnly, Reading, KeyText;
    HeadParts(before, e);
    ShownHead(before, e, |q|);
    DivideHead(before, e, q);
    if |q| <= |before| {
      assert js + map[] == js;
      BlanksCut(q, k, base, o, js);
    } else {
      KeyEnds(before, e, q, k, base, o, js);
      var part := Upto(EntryKey(e), |q| - |before| - 1);
      assert js + map[part := JNull] == js[part := JNull];
    }
  }

  lemma KeyEnds(before: seq<Blank>, e: Entry, q: Text, k: Store, base: seq<nat>, o: nat, js: map<Text, Json>)
    requires SpacesOnly(before) && SpacedHead(e) && WfEntry(e) && q <= HeadText(before, e) && |q| > |before| && Reading(k, base, o, js)
    ensures Ends(ObjectContent(q, k), k, base, o, js[Upto(EntryKey(e), |q| - |before| - 1) := JNull], false)
  {
    hide Reads, ReadsMap, ObjectContent, WfEntry, SkipTrivia, HeadText, Member, Ends, PiecesValue, SpacesOnly, KeyText;
    DivideHead(before, e, q);
    var u := q[|before|..];
    SkipSpaces(Chars(before), u);
    KeyCut(e, u, k);
    NoneEnds(q, u, Upto(EntryKey(e), |u| - 1), k, base, o, js);
  }

  lemma ShownHead(before: seq<Blank>, e: Entry, n: nat)
    requires WfEntry(e) && n <= HeadSize(before, e)
    ensures ShownEntry(before, e, n) == if n <= |before| then map[] else map[Upto(EntryKey(e), n - |before| - 1) := JNull]
  {
  }

  lemma NoneEnds(q: Text, u: Text, part: Text, k: Store, base: seq<nat>, o: nat, js: map<Text, Json>)
    requires q != [] && SkipTrivia(q) == u && u != [] && u[0] == DQUOTE && Reading(k, base, o, js)
    requires Member(u, k) == SetItem(part, PyNone, [], k)
    ensures Ends(ObjectContent(q, k), k, base, o, js[part := JNull], false)
  {
    hide Reads, ReadsMap, ObjectContent, SkipTrivia, Member;
    NoneReads(k);
    SetItemRead(part, PyNone, JNull, k, k, base, o, js, []);
    var stored := SetItem(part, PyNone, [], k).k;
    PopEnds(q, u, k, stored, base, o, js[part := JNull]);
  }

  lemma NoneReads(k: Store)
    ensures Reads(k.heap, |k.heap|, PyNone, JNull)
  {
  }

  /** A key and the beginning of a value that is there. */
  lemma ValueMember(before: seq<Blank>, e: Entry, z: Text, k: Store)
    requires SpacesOnly(before) && WfEntry(e) && SpacedHead(e) && z != [] && !OpensTrivia(z) && k.Wf()
    ensures var (q, u) := (HeadText(before, e) + z, HeadThen(e, z));
      && q != [] && SkipTrivia(q) == u && u != [] && u[0] == DQUOTE
      && Member(u, k) == var v := ParseValue(z, k); if v.Raised? then v else SetItem(EntryKey(e), v.v, v.rest, v.k)
  {
    hide TriviaThen, ParseValue, SkipTrivia;
    HeadSplit(before, e, z);
    var u := HeadThen(e, z);
    var colon := Cons(COLON, TriviaThen(e.afterColon, z));
    CharsThen(before, u);
    CharsThen(e.beforeColon, colon);
    CharsThen(e.afterColon, z);
    QuotedRead(e.key, ColonThen(e, z));
    NoBlanks(u);
    SkipBlanks([], u);
    SkipBlanks(before, u);
    SkipBlanks(e.beforeColon, colon);
    ParseAfterTrivia(e.afterColon, z, k);
  }

  /** A value was read, and the text ended with it: it is stored in `o`. */
  lemma StoreEnds(before: seq<Blank>, e: Entry, z: Text, r: Out, j: Json, k: Store, base: seq<nat>, o: nat, js: map<Text, Json>)
    requires SpacesOnly(before) && WfEntry(e) && SpacedHead(e) && z != [] && !OpensTrivia(z) && Reading(k, base, o, js)
    requires r == ParseValue(z, k) && r.Done? && r.rest == [] && Yields(r, [], k, j)
    ensures Ends(ObjectContent(HeadText(before, e) + z, k), k, base, o, js[EntryKey(e) := j], false)
  {
    hide Reads, ReadsMap, ObjectContent, WfEntry, SkipTrivia, HeadText, Member, ParseValue, HeadThen;
    ValueMember(before, e, z, k);
    SetItemRead(EntryKey(e), r.v, j, k, r.k, base, o, js, []);
    var stored := SetItem(EntryKey(e), r.v, [], r.k);
    assert stored.v == PyNone && stored.rest == [];
    PopEnds(HeadText(before, e) + z, HeadThen(e, z), k, stored.k, base, o, js[EntryKey(e) := j]);
  }

  lemma ScalarEnds(before: seq<Blank>, e: Entry, z: Text, k: Store, base: seq<nat>, o: nat, js: map<Text, Json>)
    requires SpacesOnly(before) && WfEntry(e) && StreamableEntry(e) && !e.value.LObj? && Reading(k, base, o, js)
    requires z != [] && z <= LayoutThen(e.value, []) && |z| < |LayoutThen(e.value, [])|
    ensures Ends(ObjectContent(HeadText(before, e) + z, k), k, base, o, js[EntryKey(e) := CutScalar(e.value, |z|)], false)
  {
    assert WfLayout(e.value);
    hide Reads, ObjectContent, WfEntry, SkipTrivia, HeadText, ParseValue, LayoutThen, CutScalar, WfLayout, Ends;
    ScalarCut(e.value, z, k);
    Solid(e.value, []);
    assert z[0] == LayoutThen(e.value, [])[0];
    SolidStart(z);
    StoreEnds(before, e, z, ParseValue(z, k), CutScalar(e.value, |z|), k, base, o, js);
  }

  // ---------- An entry whose value is an object ----------

  /** The object inside was closed: it is stored in `o` as far as it was read. */
  lemma ClosedInside(before: seq<Blank>, e: Entry, y: Text, rc: Out, inner: map<Text, Json>, k: Store, base: seq<nat>, o: nat, js: map<Text, Json>)
    requires SpacesOnly(before) && WfEntry(e) && SpacedHead(e) && Reading(k, base, o, js) && !StartsWithChar(y, LBRACE)
    requires rc == ObjectContent(y, k.Push(Dict(map[])))
    requires Ends(rc, k.Push(Dict(map[])), k.stack, |k.heap|, inner, false)
    ensures Ends(ObjectContent(HeadText(before, e) + Cons(LBRACE, y), k), k, base, o, js[EntryKey(e) := JObj(inner)], false)
  {
    hide Reads, ReadsMap, ObjectContent, WfEntry, HeadText, ParseValue, SkipTrivia;
    var z := Cons(LBRACE, y);
    ParseObjectAt(y, k);
    SolidStart(z);
    assert map[] + inner == inner;
    EncloseDict(rc.k, k, k.Push(Dict(map[])), inner);
    StoreEnds(before, e, z, ParseValue(z, k), JObj(inner), k, base, o, js);
  }

  /** The object inside was left open: it gets itself under the key, and `o` stays as it was. */
  lemma OpenInside(before: seq<Blank>, e: Entry, y: Text, rc: Out, inner: map<Text, Json>, k: Store, base: seq<nat>, o: nat)
    requires SpacesOnly(before) && WfEntry(e) && SpacedHead(e) && DictOnTop(k, base, o) && !StartsWithChar(y, LBRACE)
    requires rc == ObjectContent(y, k.Push(Dict(map[])))
    requires Ends(rc, k.Push(Dict(map[])), k.stack, |k.heap|, inner, true)
    ensures var r := ObjectContent(HeadText(before, e) + Cons(LBRACE, y), k);
      r == Done(PyNone, [], Put(rc.k, |k.heap|, EntryKey(e), PyRef(|k.heap|)).(stack := base + [o]))
  {
    hide Reads, ObjectContent, WfEntry, HeadText, ParseValue, SkipTrivia, Member, HeadThen;
    var z := Cons(LBRACE, y);
    ParseObjectAt(y, k);
    SolidStart(z);
    ValueMember(before, e, z, k);
    var stored := Put(rc.k, |k.heap|, EntryKey(e), PyRef(|k.heap|));
    assert rc.k.stack == base + [o] + [|k.heap|];
    LeaveAfter(HeadText(before, e) + z, HeadThen(e, z), k, stored);
  }

  /** So `o` still holds what it held, and stays open. */
  lemma OpenEnds(rc: Out, key: Text, inner: map<Text, Json>, r: Out, k: Store, base: seq<nat>, o: nat, js: map<Text, Json>)
    requires Reading(k, base, o, js) && Ends(rc, k.Push(Dict(map[])), k.stack, |k.heap|, inner, true)
    requires r == Done(PyNone, [], Put(rc.k, |k.heap|, key, PyRef(|k.heap|)).(stack := base + [o]))
    ensures Ends(r, k, base, o, js, true) && HoldsItself(r.k.heap)
  {
    var (h, c) := (r.k.heap, k.heap[o]);
    forall x | x in js ensures Reads(h, o + 1, c.entries[x], js[x]) {
      ReadsFrame(k.heap, h, o + 1, o + 1, c.entries[x], js[x]);
    }
    assert key in h[|k.heap|].entries.Keys;
  }

  // ---------- Any beginning of an object ----------

  /** An entry that is there, with blanks behind it. */
  lemma WholeEntry(before: seq<Blank>, e: Entry, w: Text, k: Store, base: seq<nat>, o: nat, js: map<Text, Json>)
    requires SpacesOnly(before) && WfEntry(e) && StreamableEntry(e) && Separated(e.value) && AllSpace(w) && Reading(k, base, o, js)
    ensures Ends(ObjectContent(TriviaThen(before, EntryThen(e, w)), k), k, base, o, js[EntryKey(e) := EntryValue(e)], false)
  {
    hide ObjectContent, Member, LayoutThen, EntryThen, TriviaThen, Reads, SkipTrivia;
    SpaceFollows(e.value, w);
    var stored := EntryRead(e, w, k, base, o, js);
    CharsThen(before, EntryThen(e, w));
    ObjectStepAt(before, EntryThen(e, w), k, w, stored);
    BlankEnd(w);
    NothingMore(TriviaThen(before, EntryThen(e, w)), k, stored);
  }

  lemma SpaceFollows(l: Layout, w: Text)
    requires AllSpace(w)
    ensures Follows(l, w) && AfterLayout(l, w) == w
  {
  }

  lemma NothingMore(q: Text, k: Store, stored: Store)
    requires k.Wf() && stored.Wf() && stored.stack != [] && q != [] && ObjectStep(q, k) == AfterMember([], stored)
    ensures ObjectContent(q, k) == Pop([], stored)
  {
    hide ObjectStep;
  }

  lemma CommaOn(q: Text, rest: Text, k: Store, stored: Store)
    requires k.Wf() && stored.Wf() && q != [] && ObjectStep(q, k) == AfterMember(Cons(COMMA, rest), stored)
    ensures ObjectContent(q, k) == ObjectContent(rest, stored)
  {
    hide ObjectStep;
  }

  /** A text cut in its first entry, or in the blanks behind it. */
  lemma {:induction false} EntryCut(before: seq<Blank>, e: Entry, tail: Text, q: Text, k: Store, base: seq<nat>, o: nat, js: map<Text, Json>)
    requires SpacesOnly(before) && WfEntry(e) && StreamableEntry(e) && Separated(e.value) && Reading(k, base, o, js)
    requires q <= TriviaThen(before, EntryThen(e, tail)) && (|q| >= EntrySize(before, e) ==> AllSpace(q[EntrySize(before, e)..]))
    ensures var r := ObjectContent(q, k); var open := BehindIn(before, e, |q|);
      Ends(r, k, base, o, js + ShownEntry(before, e, |q|), q == [] || open) && (open ==> HoldsItself(r.k.heap))
    decreases e
  {
    hide ObjectContent, Reads, HeadText, TriviaThen, EntryThen, LayoutThen, Ends, Shown, HoldsItself, Reading, SpacesOnly;
    var n, head, key := |q|, HeadSize(before, e), EntryKey(e);
    Divide(before, e, tail, q);
    if n <= head {
      HeadCut(before, e, q, k, base, o, js);
    } else if n >= EntrySize(before, e) {
      WholeEntry(before, e, q[EntrySize(before, e)..], k, base, o, js);
      assert js[key := EntryValue(e)] == js + map[key := EntryValue(e)];
    } else if e.value.LObj? {
      InsideCut(before, e, q, k, base, o, js);
    } else {
      ScalarEnds(before, e, q[head..], k, base, o, js);
      assert js[key := CutScalar(e.value, n - head)] == js + map[key := CutScalar(e.value, n - head)];
    }
  }

  lemma ReadingDict(k: Store, base: seq<nat>, o: nat, js: map<Text, Json>)
    requires Reading(k, base, o, js)
    ensures DictOnTop(k, base, o)
  {
  }

  lemma {:induction false} InsideCut(before: seq<Blank>, e: Entry, q: Text, k: Store, base: seq<nat>, o: nat, js: map<Text, Json>)
    requires SpacesOnly(before) && WfEntry(e) && StreamableEntry(e) && Separated(e.value) && Reading(k, base, o, js)
    requires e.value.LObj? && HeadSize(before, e) < |q| < EntrySize(before, e)
    requires var z := q[HeadSize(before, e)..]; q == HeadText(before, e) + z && z <= LayoutThen(e.value, [])
    ensures var r := ObjectContent(q, k); var open := BehindIn(before, e, |q|);
      Ends(r, k, base, o, js + ShownEntry(before, e, |q|), open) && (open ==> HoldsItself(r.k.heap))
    decreases e, 0
  {
    hide ObjectContent, Reads, HeadText, TriviaThen, MembersThen, Ends, Shown, HoldsItself, ReadsMap, SpacesOnly;
    var key, members, z := EntryKey(e), e.value.members, q[HeadSize(before, e)..];
    assert LayoutThen(e.value, []) == Cons(LBRACE, MembersThen(members, []));
    var y := z[1..];
    assert z == Cons(LBRACE, y) && y <= MembersThen(members, []);
    MembersHead(members, []);
    var rc := ObjectContent(y, k.Push(Dict(map[])));
    NothingYet(k);
    ContentCut(members, y, k.Push(Dict(map[])), k.stack, |k.heap|, map[]);
    var inner := Shown(members, |y|);
    assert map[] + inner == inner;
    if Behind(members, |y|) {
      ReadingDict(k, base, o, js);
      OpenInside(before, e, y, rc, inner, k, base, o);
      OpenEnds(rc, key, inner, ObjectContent(q, k), k, base, o, js);
      assert js + map[] == js;
    } else {
      ClosedInside(before, e, y, rc, inner, k, base, o, js);
      assert js[key := JObj(inner)] == js + map[key := JObj(inner)];
    }
  }

  /** Behind the comma the entry has been read, and what is shown is that and what is shown of the rest. */
  lemma ShownOn(members: Members, n: nat)
    requires WfMembers(members) && members.NextMember? && n >= CommaSize(members.before, members.entry, members.after)
    ensures var NextMember(before, e, after, more) := members; var m := n - CommaSize(before, e, after);
      && Shown(members, n) == map[EntryKey(e) := EntryValue(e)] + Shown(more, m)
      && (Behind(members, n) <==> Behind(more, m)) && (BehindInner(members, n) <==> BehindInner(more, m))
  {
    SomeValue(members.entry);
  }

  /** Any beginning of an object's inside: what the dict then holds, whether it is left open, and that a dict
      left open inside it holds itself. */
  lemma {:induction false} ContentCut(members: Members, q: Text, k: Store, base: seq<nat>, o: nat, js: map<Text, Json>)
    requires Fits(members) && q <= MembersThen(members, []) && Reading(k, base, o, js)
    ensures var r := ObjectContent(q, k);
      && Ends(r, k, base, o, js + Shown(members, |q|), Behind(members, |q|))
      && (BehindInner(members, |q|) ==> HoldsItself(r.k.heap))
    decreases members, 2
  {
    match members
    case NoMembers(end) =>
      EmptyCut(end, q, k, base, o, js);
    case LastMember(_, _, _) =>
      LastCut(members, q, k, base, o, js);
    case NextMember(_, _, _, _) =>
      NextCut(members, q, k, base, o, js);
  }

  lemma {:induction false} NextCut(members: Members, q: Text, k: Store, base: seq<nat>, o: nat, js: map<Text, Json>)
    requires Fits(members) && members.NextMember? && q <= MembersThen(members, []) && Reading(k, base, o, js)
    ensures var r := ObjectContent(q, k);
      && Ends(r, k, base, o, js + Shown(members, |q|), Behind(members, |q|))
      && (BehindInner(members, |q|) ==> HoldsItself(r.k.heap))
    decreases members, 1
  {
    hide ObjectContent, Reads, Ends, HoldsItself, TriviaThen, EntryThen, Reading, HeadText, LayoutThen, SpacesOnly;
    var NextMember(before, e, after, more) := members;
    var next := MembersThen(more, []);
    var tail := TriviaThen(after, Cons(COMMA, next));
    Divide(before, e, tail, q);
    if |q| >= EntrySize(before, e) { DivideTail(after, COMMA, next, q[EntrySize(before, e)..]); }
    if |q| >= CommaSize(before, e, after) {
      var w := q[EntrySize(before, e)..];
      assert w[|after| + 1..] == q[CommaSize(before, e, after)..];
      CommaCut(members, q[CommaSize(before, e, after)..], q, k, base, o, js);
    } else {
      EntryCut(before, e, tail, q, k, base, o, js);
      assert ShownEntry(before, e, |q|) + map[] == ShownEntry(before, e, |q|);
    }
  }

  lemma {:induction false} LastCut(members: Members, q: Text, k: Store, base: seq<nat>, o: nat, js: map<Text, Json>)
    requires Fits(members) && members.LastMember? && q <= MembersThen(members, []) && Reading(k, base, o, js)
    ensures var r := ObjectContent(q, k);
      && Ends(r, k, base, o, js + Shown(members, |q|), Behind(members, |q|))
      && (BehindInner(members, |q|) ==> HoldsItself(r.k.heap))
    decreases members, 0
  {
    hide ObjectContent, Reads, Ends, HoldsItself, TriviaThen, EntryThen, Reading, HeadText, LayoutThen, SpacesOnly;
    var LastMember(before, e, after) := members;
    var tail := TriviaThen(after, Cons(RBRACE, []));
    Divide(before, e, tail, q);
    if |q| >= EntrySize(before, e) { DivideTail(after, RBRACE, [], q[EntrySize(before, e)..]); }
    if |q| >= CommaSize(before, e, after) {
      assert q == MembersThen(members, []);
      LastClosed(members, k, base, o, js);
    } else {
      EntryCut(before, e, tail, q, k, base, o, js);
    }
  }

  lemma LastClosed(members: Members, k: Store, base: seq<nat>, o: nat, js: map<Text, Json>)
    requires Fits(members) && members.LastMember? && Reading(k, base, o, js)
    requires |MembersThen(members, [])| >= EntrySize(members.before, members.entry)
    ensures var q := MembersThen(members, []); Ends(ObjectContent(q, k), k, base, o, js + Shown(members, |q|), Behind(members, |q|))
    ensures !BehindInner(members, |MembersThen(members, [])|)
  {
    SomeValue(members.entry);
    assert MembersValue(members) == Shown(members, |MembersThen(members, [])|);
    hide ObjectContent, Reads, MembersThen;
    MembersRead(members, [], k, base, o, js);
  }

  lemma {:induction false} CommaCut(members: Members, rest: Text, q: Text, k: Store, base: seq<nat>, o: nat, js: map<Text, Json>)
    requires Fits(members) && members.NextMember? && rest <= MembersThen(members.more, []) && Reading(k, base, o, js)
    requires q == TriviaThen(members.before, EntryThen(members.entry, TriviaThen(members.after, Cons(COMMA, rest))))
    requires |q| == CommaSize(members.before, members.entry, members.after) + |rest|
    ensures var r := ObjectContent(q, k);
      && Ends(r, k, base, o, js + Shown(members, |q|), Behind(members, |q|))
      && (BehindInner(members, |q|) ==> HoldsItself(r.k.heap))
    decreases members, 0
  {
    hide ObjectContent, Reads, Ends, HoldsItself, MembersThen, TriviaThen, EntryThen;
    var NextMember(before, e, after, more) := members;
    var stored := MemberRead(before, e, after, COMMA, rest, k, base, o, js);
    CommaOn(q, rest, k, stored);
    ContentCut(more, rest, stored, base, o, js[EntryKey(e) := EntryValue(e)]);
    ShownOn(members, |q|);
    StoreThenMerge(js, EntryKey(e), EntryValue(e), Shown(more, |rest|));
    EndsOn(ObjectContent(q, k), k, stored, base, o, js + Shown(members, |q|), Behind(members, |q|));
  }

  lemma EndsOn(r: Out, k: Store, stored: Store, base: seq<nat>, o: nat, js: map<Text, Json>, open: bool)
    requires o < |k.heap| && OnlyGrows(k, stored, o) && Ends(r, stored, base, o, js, open)
    ensures Ends(r, k, base, o, js, open)
  {
    hide Reads;
  }

  lemma EmptyCut(end: seq<Blank>, q: Text, k: Store, base: seq<nat>, o: nat, js: map<Text, Json>)
    requires SpacesOnly(end) && q <= TriviaThen(end, Cons(RBRACE, [])) && Reading(k, base, o, js)
    ensures Ends(ObjectContent(q, k), k, base, o, js + map[], q == [])
  {
    hide ObjectContent, TriviaThen, Reads;
    assert js + map[] == js;
    CharsThen(end, Cons(RBRACE, []));
    SplitPrefix(q, Chars(end), Cons(RBRACE, []));
    if |q| <= |Chars(end)| {
      BlanksCut(q, k, base, o, js);
    } else {
      assert q == TriviaThen(end, Cons(RBRACE, []));
      CloseObject(end, [], k);
    }
  }
}
