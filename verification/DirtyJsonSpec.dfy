/**
 What each routine of the tolerant JSON parser computes, as functions of the text that is left
 under the cursor and of the containers built so far.

 Python's dicts and lists are shared by reference, and on truncated input the parser does write a
 container into the wrong one, or into itself. They are therefore cells of a heap, named by number,
 and the parser's `stack` holds such numbers.
 */
module DirtyJsonSpec {
  import opened CodePoints

  datatype PyVal =
    | PyNone
    | PyBool(b: bool)
    | PyInt(n: int)
    | PyFloat(literal: Text)
    | PyStr(s: Text)
    | PyRef(id: nat)

  datatype Container = Dict(entries: map<Text, PyVal>) | List(items: seq<PyVal>)

  datatype PyError = IndexError | TypeError | AttributeError | ValueError

  datatype Store = Store(stack: seq<nat>, heap: seq<Container>) {
    predicate Wf() {
      forall i :: 0 <= i < |stack| ==> stack[i] < |heap|
    }

    function Top(): nat
      requires stack != []
    {
      stack[|stack| - 1]
    }

    /** A new container, pushed on the stack. */
    function Push(c: Container): (k: Store)
      ensures Wf() ==> k.Wf()
    {
      Store(stack + [|heap|], heap + [c])
    }
  }

  /** A routine either returns (the content loops return None) or raises; `rest` is the text left. */
  datatype Out = Done(v: PyVal, rest: Text, k: Store) | Raised(error: PyError, rest: Text)

  /** `self.stack.pop()` */
  function Pop(rest: Text, k: Store): (r: Out)
    requires k.Wf()
    ensures r.Done? ==> r.k.Wf()
    ensures r.rest == rest
  {
    if k.stack == [] then Raised(IndexError, rest)
    else Done(PyNone, rest, k.(stack := k.stack[..|k.stack| - 1]))
  }

  /** `self.stack[-1][key] = value` */
  function SetItem(key: Text, v: PyVal, rest: Text, k: Store): (r: Out)
    requires k.Wf()
    ensures r.Done? ==> r.k.Wf()
    ensures r.rest == rest
  {
    if k.stack == [] then Raised(IndexError, rest)
    else match k.heap[k.Top()]
      case List(_) => Raised(TypeError, rest)
      case Dict(entries) => Done(PyNone, rest, k.(heap := k.heap[k.Top() := Dict(entries[key := v])]))
  }

  /** `self.stack[-1].append(value)` */
  function Append(v: PyVal, rest: Text, k: Store): (r: Out)
    requires k.Wf()
    ensures r.Done? ==> r.k.Wf()
    ensures r.rest == rest
  {
    if k.stack == [] then Raised(IndexError, rest)
    else match k.heap[k.Top()]
      case Dict(_) => Raised(AttributeError, rest)
      case List(items) => Done(PyNone, rest, k.(heap := k.heap[k.Top() := List(items + [v])]))
  }

  // ---------- Scanners: the text left after each ----------

  function SkipLine(t: Text): (r: Text)
    ensures |r| <= |t|
    ensures t != [] ==> |r| < |t|
  {
    if t == [] then [] else if t[0] == NEWLINE then t[1..] else SkipLine(t[1..])
  }

  function SkipBlock(t: Text): (r: Text)
    ensures |r| <= |t|
  {
    if t == [] then []
    else if t[0] == STAR && |t| > 1 && t[1] == SLASH then t[2..]
    else SkipBlock(t[1..])
  }

  predicate OpensLineComment(t: Text) {
    |t| > 1 && t[0] == SLASH && t[1] == SLASH
  }

  predicate OpensBlockComment(t: Text) {
    |t| > 1 && t[0] == SLASH && t[1] == STAR
  }

  predicate OpensTrivia(t: Text) {
    t != [] && (IsSpace(t[0]) || OpensLineComment(t) || OpensBlockComment(t))
  }

  function SkipTrivia(t: Text): (r: Text)
    ensures |r| <= |t|
    ensures !OpensTrivia(r)
    decreases |t|
  {
    if t == [] then []
    else if IsSpace(t[0]) then SkipTrivia(t[1..])
    else if OpensLineComment(t) then SkipTrivia(SkipLine(t))
    else if OpensBlockComment(t) then SkipTrivia(SkipBlock(t[2..]))
    else t
  }

  /** Decoded text and the text left. */
  datatype Scan = Scan(text: Text, rest: Text) {
    function Prepend(p: Text): Scan {
      Scan(p + text, rest)
    }
  }

  predicate IsSimpleEscape(c: int) {
    || c == DQUOTE || c == SQUOTE || c == BACKSLASH || c == SLASH
    || c == LOWER_B || c == LOWER_F || c == LOWER_N || c == LOWER_R || c == LOWER_T
  }

  function EscapeValue(c: int): int {
    if c == LOWER_B then 0x08
    else if c == LOWER_F then 0x0C
    else if c == LOWER_N then 0x0A
    else if c == LOWER_R then 0x0D
    else if c == LOWER_T then 0x09
    else c
  }

  /** How many of the first `n` characters are alphanumeric, counted until the first that is not. */
  function AlnumRun(t: Text, n: nat): (k: nat)
    ensures k <= n && k <= |t|
    ensures forall i :: 0 <= i < k ==> IsAlnum(t[i])
    ensures k < n ==> k == |t| || !IsAlnum(t[k])
  {
    if n > 0 && t != [] && IsAlnum(t[0]) then 1 + AlnumRun(t[1..], n - 1) else 0
  }

  /** `chr(int(h, 16))` for four alphanumerics, or the text itself when `int` refuses them.
      Python's `int(.., 16)` also accepts a `0x` prefix. */
  function UnicodeEscape(h: Text): Text
    requires |h| == 4
  {
    if IsHex(h[0]) && IsHex(h[1]) && IsHex(h[2]) && IsHex(h[3]) then
      [HexVal(h[0]) * 0x1000 + HexVal(h[1]) * 0x100 + HexVal(h[2]) * 0x10 + HexVal(h[3])]
    else if h[0] == 0x30 && Lower(h[1]) == 0x78 && IsHex(h[2]) && IsHex(h[3]) then
      [HexVal(h[2]) * 0x10 + HexVal(h[3])]
    else
      [BACKSLASH, LOWER_U] + h
  }

  /** The text of a string after its opening quote `q`. */
  function StringBody(t: Text, q: int): (r: Scan)
    ensures |r.rest| <= |t|
  {
    if t == [] then Scan([], [])
    else if t[0] == q then Scan([], t[1..])
    else if t[0] == BACKSLASH then
      if |t| == 1 then Scan([], [])
      else if IsSimpleEscape(t[1]) then StringBody(t[2..], q).Prepend([EscapeValue(t[1])])
      else if t[1] == LOWER_U then
        var n := AlnumRun(t[2..], 4);
        if n < 4 then Scan([BACKSLASH, LOWER_U] + t[2..2 + n], t[2 + n..])
        else StringBody(t[6..], q).Prepend(UnicodeEscape(t[2..6]))
      else StringBody(t[2..], q)
    else StringBody(t[1..], q).Prepend([t[0]])
  }

  function ParseString(t: Text): (r: Scan)
    requires t != []
    ensures |r.rest| < |t|
  {
    StringBody(t[1..], t[0])
  }

  predicate IsTripled(t: Text, q: int) {
    |t| > 2 && t[0] == q && t[1] == q && t[2] == q
  }

  function MultilineBody(t: Text, q: int): (r: Scan)
    ensures |r.rest| <= |t|
  {
    if t == [] then Scan([], [])
    else if IsTripled(t, q) then Scan([], t[3..])
    else MultilineBody(t[1..], q).Prepend([t[0]])
  }

  predicate EndsKey(c: int) {
    IsSpace(c) || c == COLON || c == COMMA || c == RBRACE || c == RBRACKET
  }

  function UnquotedKey(t: Text): (r: Scan)
    ensures |r.rest| <= |t|
    ensures r.text == [] ==> r.rest == t
    ensures r.text != [] ==> |r.rest| < |t|
  {
    if t == [] || EndsKey(t[0]) then Scan([], t) else UnquotedKey(t[1..]).Prepend([t[0]])
  }

  predicate EndsUnquoted(c: int) {
    c == COLON || c == COMMA || c == RBRACE || c == RBRACKET
  }

  /** An unquoted value: the delimiter that ends it is consumed too. */
  function UnquotedBody(t: Text): (r: Scan)
    ensures |r.rest| <= |t|
    ensures t != [] ==> |r.rest| < |t|
  {
    if t == [] then Scan([], [])
    else if EndsUnquoted(t[0]) then Scan([], t[1..])
    else UnquotedBody(t[1..]).Prepend([t[0]])
  }

  predicate IsNumberChar(c: int) {
    IsDigit(c) || c == MINUS || c == PLUS || c == DOT || Lower(c) == 0x65
  }

  function NumberBody(t: Text): (r: Scan)
    ensures |r.rest| <= |t|
    ensures t != [] && IsNumberChar(t[0]) ==> |r.rest| < |t|
  {
    if t == [] || !IsNumberChar(t[0]) then Scan([], t) else NumberBody(t[1..]).Prepend([t[0]])
  }

  function Unsigned(t: Text): Text {
    if t != [] && (t[0] == MINUS || t[0] == PLUS) then t[1..] else t
  }

  /** What `int(text)` accepts, and the number it gives. */
  predicate IsIntLiteral(t: Text) {
    Unsigned(t) != [] && AllDigits(Unsigned(t))
  }

  function IntValue(t: Text): int
    requires IsIntLiteral(t)
  {
    if t[0] == MINUS then -(DecVal(Unsigned(t)) as int) else DecVal(Unsigned(t))
  }

  /** What `float(text)` accepts, for texts made of number characters. */
  predicate IsFloatLiteral(t: Text) {
    var b := Unsigned(t);
    var whole := DigitRun(b);
    var afterWhole := b[whole..];
    var fraction := if StartsWithChar(afterWhole, DOT) then DigitRun(afterWhole[1..]) else 0;
    var afterFraction := if StartsWithChar(afterWhole, DOT) then afterWhole[1 + fraction..] else afterWhole;
    && whole + fraction > 0
    && (afterFraction == [] || (Lower(afterFraction[0]) == 0x65 && IsIntLiteral(afterFraction[1..])))
  }

  /** `_match`: does the text start with `word`, case ignored? */
  predicate MatchesWord(t: Text, word: Text) {
    |word| <= |t| && forall i :: 0 <= i < |word| ==> Lower(t[i]) == word[i]
  }

  /** The length of the literal word the text starts with, 0 when there is none. */
  function WordLength(t: Text): (n: nat)
    ensures n <= |t|
  {
    if MatchesWord(t, TRUE_WORD) then |TRUE_WORD|
    else if MatchesWord(t, FALSE_WORD) then |FALSE_WORD|
    else if MatchesWord(t, NULL_WORD) then |NULL_WORD|
    else if MatchesWord(t, UNDEFINED_WORD) then |UNDEFINED_WORD|
    else 0
  }

  function WordValue(t: Text): PyVal {
    if MatchesWord(t, TRUE_WORD) then PyBool(true)
    else if MatchesWord(t, FALSE_WORD) then PyBool(false)
    else PyNone
  }

  predicate IsQuote(c: int) {
    c == DQUOTE || c == SQUOTE || c == BACKTICK
  }

  function ParseKey(t: Text): (r: Scan)
    ensures |r.rest| <= |t|
    ensures |r.rest| == |t| ==> r.rest == t
  {
    var u := SkipTrivia(t);
    if u != [] && (u[0] == DQUOTE || u[0] == SQUOTE) then ParseString(u) else
    var r := UnquotedKey(u);
    SkipTriviaShortens(t);
    r
  }

  lemma SkipTriviaShortens(t: Text)
    ensures SkipTrivia(t) == t || |SkipTrivia(t)| < |t|
  {
  }

  // ---------- The recursive routines ----------

  /** A value that starts at `t`, which has no trivia in front and is neither an object nor an array. */
  function ParseScalar(t: Text, k: Store): (r: Out)
    requires t != []
    ensures |r.rest| < |t|
    ensures r.Done? ==> r.k == k && !r.v.PyRef?
    ensures r.Raised? ==> r.error == ValueError
  {
    if IsQuote(t[0]) then
      if IsTripled(t, t[0]) then
        var r := MultilineBody(t[3..], t[0]);
        Done(PyStr(Strip(r.text)), r.rest, k)
      else
        var r := ParseString(t);
        Done(PyStr(r.text), r.rest, k)
    else if IsDigit(t[0]) || t[0] == MINUS || t[0] == PLUS then
      var r := NumberBody(t);
      if IsIntLiteral(r.text) then Done(PyInt(IntValue(r.text)), r.rest, k)
      else if IsFloatLiteral(r.text) then Done(PyFloat(r.text), r.rest, k)
      else Raised(ValueError, r.rest)
    else if WordLength(t) > 0 then Done(WordValue(t), t[WordLength(t)..], k)
    else
      var r := UnquotedBody(t);
      Done(PyStr(Strip(r.text)), r.rest, k)
  }

  function ParseValue(t: Text, k: Store): (r: Out)
    requires k.Wf()
    ensures r.Done? ==> r.k.Wf()
    ensures if SkipTrivia(t) == [] then r.rest == [] else |r.rest| < |t|
    decreases |t|, 0
  {
    var u := SkipTrivia(t);
    if u == [] then Done(PyNone, [], k)
    else if u[0] == LBRACE then
      // the `{{` branch moves past both braces, and ParseObject then past one character more
      var inside := if |u| > 1 && u[1] == LBRACE then Drop(u, 3) else u[1..];
      var r := ObjectContent(inside, k.Push(Dict(map[])));
      if r.Raised? then r else r.(v := PyRef(|k.heap|))
    else if u[0] == LBRACKET then
      var r := ArrayContent(u[1..], k.Push(List([])));
      if r.Raised? then r else r.(v := PyRef(|k.heap|))
    else ParseScalar(u, k)
  }

  /** The text after an object's closing brace; `}}` counts as one. */
  function AfterBrace(t: Text): Text
    requires t != []
  {
    if |t| > 1 && t[1] == RBRACE then t[2..] else t[1..]
  }

  /** One `key: value` stored into the container on top of the stack. */
  function Member(t: Text, k: Store): (r: Out)
    requires k.Wf()
    requires t != [] && !OpensTrivia(t)
    ensures r.Done? ==> r.k.Wf()
    ensures |r.rest| < |t|
    decreases |t|, 1
  {
    var key := ParseKey(t);
    var u := SkipTrivia(key.rest);
    var value := if u == [] then Done(PyNone, [], k)
                 else if u[0] == COLON then ParseValue(u[1..], k)
                 else ParseValue(u, k);
    if value.Raised? then value else SetItem(key.text, value.v, value.rest, value.k)
  }

  /** One iteration of a content loop: it either goes round again or leaves the routine. */
  datatype Step = Again(rest: Text, k: Store) | Leave(o: Out)

  function ObjectStep(t: Text, k: Store): (r: Step)
    requires k.Wf() && t != []
    ensures r.Again? ==> r.k.Wf() && |r.rest| < |t|
    ensures r.Leave? ==> (r.o.Done? ==> r.o.k.Wf()) && |r.o.rest| <= |t|
    decreases |t|, 2
  {
    var u := SkipTrivia(t);
    if u == [] then Leave(Pop([], k))
    else if u[0] == RBRACE then Leave(Pop(AfterBrace(u), k))
    else
      var stored := Member(u, k);
      if stored.Raised? then Leave(stored) else
      AfterMember(SkipTrivia(stored.rest), stored.k)
  }

  /** What follows a member: a comma, the end of input, or more of the object. */
  function AfterMember(t: Text, k: Store): (r: Step)
    requires k.Wf()
    ensures r.Again? ==> r.k.Wf() && |r.rest| <= |t|
    ensures r.Leave? ==> (r.o.Done? ==> r.o.k.Wf()) && |r.o.rest| <= |t|
  {
    if t == [] then Leave(Pop([], k))
    else if t[0] == COMMA then Again(t[1..], k)
    else Again(t, k)
  }

  function ObjectContent(t: Text, k: Store): (r: Out)
    requires k.Wf()
    ensures r.Done? ==> r.k.Wf()
    ensures |r.rest| <= |t|
    decreases |t|, 3
  {
    if t == [] then Done(PyNone, [], k) else
    match ObjectStep(t, k)
    case Leave(o) => o
    case Again(rest, k') => ObjectContent(rest, k')
  }

  function ArrayStep(t: Text, k: Store): (r: Step)
    requires k.Wf() && t != []
    ensures r.Again? ==> r.k.Wf() && |r.rest| < |t|
    ensures r.Leave? ==> (r.o.Done? ==> r.o.k.Wf()) && |r.o.rest| <= |t|
    decreases |t|, 2
  {
    var u := SkipTrivia(t);
    if StartsWithChar(u, RBRACKET) then Leave(Pop(u[1..], k))
    else
      var value := ParseValue(u, k);
      if value.Raised? then Leave(value) else
      var stored := Append(value.v, value.rest, value.k);
      if stored.Raised? then Leave(stored) else
      var after := SkipTrivia(stored.rest);
      AfterElement(after, stored.k)
  }

  /** What follows an element: a comma, the closing bracket, or the end of the array. */
  function AfterElement(t: Text, k: Store): (r: Step)
    requires k.Wf()
    ensures r.Again? ==> r.k.Wf() && |r.rest| <= |t|
    ensures r.Leave? ==> (r.o.Done? ==> r.o.k.Wf()) && |r.o.rest| <= |t|
  {
    if StartsWithChar(t, COMMA) then
      var next := SkipTrivia(t[1..]);
      if next == [] then Leave(Pop([], k))
      else if next[0] == RBRACKET then Leave(Pop(next[1..], k))
      else Again(next, k)
    else if StartsWithChar(t, RBRACKET) then Again(t, k)
    else Leave(Pop(t, k))
  }

  function ArrayContent(t: Text, k: Store): (r: Out)
    requires k.Wf()
    ensures r.Done? ==> r.k.Wf()
    ensures |r.rest| <= |t|
    decreases |t|, 3
  {
    if t == [] then Done(PyNone, [], k) else
    match ArrayStep(t, k)
    case Leave(o) => o
    case Again(rest, k') => ArrayContent(rest, k')
  }

  // ---------- Entry ----------

  /** `str.find` of one character: its first index, or -1. */
  function FindChar(t: Text, c: int): (i: int)
    ensures -1 <= i < |t|
    ensures i >= 0 ==> t[i] == c && forall j :: 0 <= j < i ==> t[j] != c
    ensures i < 0 ==> forall j :: 0 <= j < |t| ==> t[j] != c
  {
    if t == [] then -1
    else if t[0] == c then 0
    else var i := FindChar(t[1..], c); if i < 0 then -1 else i + 1
  }

  predicate IsStart(c: int) {
    c == LBRACE || c == LBRACKET || c == DQUOTE
  }

  /** The earlier of two indices, of which -1 means none. */
  function Earlier(i: int, j: int): int {
    if i < 0 then j else if j < 0 then i else if i <= j then i else j
  }

  /** The first index that holds `{`, `[` or `"`, or 0 when there is none. */
  function StartPos(t: Text): (i: nat)
    ensures forall j :: 0 <= j < i ==> j < |t| && !IsStart(t[j])
    ensures if exists j :: 0 <= j < |t| && IsStart(t[j]) then i < |t| && IsStart(t[i]) else i == 0
  {
    var i := Earlier(FindChar(t, LBRACE), Earlier(FindChar(t, LBRACKET), FindChar(t, DQUOTE)));
    if i < 0 then 0 else i
  }

  /** `DirtyJson.parse_string` */
  function Parse(s: Text): (r: Out) {
    var k := Store([], []);
    if s == [] then Done(PyNone, [], k) else ParseValue(s[StartPos(s)..], k)
  }
}
