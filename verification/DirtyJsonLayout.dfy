/**
 JSON values, and every way the parser's callers may lay one out as text: any whitespace or comments
 between tokens, any escapes in strings, optional trailing commas.
 */
module DirtyJsonLayout {
  import opened CodePoints
  import opened DirtyJsonSpec
  import opened DirtyJsonDecimals

  datatype Json =
    | JNull
    | JBool(b: bool)
    | JInt(n: int)
    | JFloat(literal: Text)
    | JStr(s: Text)
    | JArr(items: seq<Json>)
    | JObj(entries: map<Text, Json>)

  datatype Blank = Space(c: int) | LineComment(body: Text) | BlockComment(body: Text)

  datatype Piece = Raw(c: int) | Escaped(c: int) | Unicode(hex: Text)

  datatype Layout =
    | LNull
    | LBool(b: bool)
    | LInt(negative: bool, digits: Text)
    | LFloat(d: Float)
    | LStr(pieces: seq<Piece>)
    | LArr(items: Items)
    | LObj(members: Members)

  /** The inside of an array up to its `]`; `NextItem(.., NoItems(..))` is a trailing comma. */
  datatype Items =
    | NoItems(end: seq<Blank>)
    | LastItem(before: seq<Blank>, item: Layout, after: seq<Blank>)
    | NextItem(before: seq<Blank>, item: Layout, after: seq<Blank>, more: Items)

  /** The inside of an object up to its `}`. */
  datatype Members =
    | NoMembers(end: seq<Blank>)
    | LastMember(before: seq<Blank>, entry: Entry, after: seq<Blank>)
    | NextMember(before: seq<Blank>, entry: Entry, after: seq<Blank>, more: Members)

  datatype Entry = Entry(key: seq<Piece>, beforeColon: seq<Blank>, afterColon: seq<Blank>, value: Layout)

  // ---------- Well-formed layouts ----------

  predicate EndsBlock(body: Text, i: nat) {
    i + 1 < |body| && body[i] == STAR && body[i + 1] == SLASH
  }

  predicate WfBlank(b: Blank) {
    match b
    case Space(c) => IsSpace(c)
    case LineComment(body) => NEWLINE !in body
    case BlockComment(body) => forall i :: 0 <= i < |body| ==> !EndsBlock(body + [STAR, SLASH], i)
  }

  predicate WfTrivia(bs: seq<Blank>) {
    forall i :: 0 <= i < |bs| ==> WfBlank(bs[i])
  }

  predicate WfPiece(p: Piece) {
    match p
    case Raw(c) => c != DQUOTE && c != BACKSLASH
    case Escaped(c) => IsSimpleEscape(c)
    case Unicode(h) => |h| == 4 && forall i :: 0 <= i < 4 ==> IsHex(h[i])
  }

  predicate WfPieces(ps: seq<Piece>) {
    forall i :: 0 <= i < |ps| ==> WfPiece(ps[i])
  }

  predicate WfLayout(l: Layout) {
    match l
    case LNull => true
    case LBool(_) => true
    case LInt(_, digits) => digits != [] && AllDigits(digits)
    case LFloat(_) => true
    case LStr(pieces) => WfPieces(pieces)
    case LArr(items) => WfItems(items)
    case LObj(members) => WfMembers(members)
  }

  predicate WfItems(items: Items) {
    match items
    case NoItems(end) => WfTrivia(end)
    case LastItem(before, item, after) => WfTrivia(before) && WfLayout(item) && WfTrivia(after)
    case NextItem(before, item, after, more) => WfTrivia(before) && WfLayout(item) && WfTrivia(after) && WfItems(more)
  }

  predicate WfEntry(e: Entry) {
    WfPieces(e.key) && WfTrivia(e.beforeColon) && WfTrivia(e.afterColon) && WfLayout(e.value)
  }

  predicate WfMembers(members: Members) {
    match members
    case NoMembers(end) => WfTrivia(end)
    case LastMember(before, entry, after) => WfTrivia(before) && WfEntry(entry) && WfTrivia(after)
    case NextMember(before, entry, after, more) => WfTrivia(before) && WfEntry(entry) && WfTrivia(after) && WfMembers(more)
  }

  /** No object is closed directly against the brace that closes the object around it. */
  predicate Separated(l: Layout) {
    match l
    case LArr(items) => SeparatedItems(items)
    case LObj(members) => SeparatedMembers(members)
    case _ => true
  }

  predicate SeparatedItems(items: Items) {
    match items
    case NoItems(_) => true
    case LastItem(_, item, _) => Separated(item)
    case NextItem(_, item, _, more) => Separated(item) && SeparatedItems(more)
  }

  predicate SeparatedMembers(members: Members) {
    match members
    case NoMembers(_) => true
    case LastMember(_, entry, after) => Separated(entry.value) && (entry.value.LObj? ==> after != [])
    case NextMember(_, entry, _, more) => Separated(entry.value) && SeparatedMembers(more)
  }

  // ---------- The text of a layout, followed by `rest` ----------

  function Cons(c: int, t: Text): (r: Text)
    ensures |r| == |t| + 1 && r[0] == c && r[1..] == t
  {
    [c] + t
  }

  function BlankThen(b: Blank, rest: Text): Text {
    match b
    case Space(c) => Cons(c, rest)
    case LineComment(body) => Cons(SLASH, Cons(SLASH, body + Cons(NEWLINE, rest)))
    case BlockComment(body) => Cons(SLASH, Cons(STAR, body + Cons(STAR, Cons(SLASH, rest))))
  }

  function TriviaThen(bs: seq<Blank>, rest: Text): Text {
    if bs == [] then rest else BlankThen(bs[0], TriviaThen(bs[1..], rest))
  }

  function PieceThen(p: Piece, rest: Text): Text {
    match p
    case Raw(c) => Cons(c, rest)
    case Escaped(c) => Cons(BACKSLASH, Cons(c, rest))
    case Unicode(h) => Cons(BACKSLASH, Cons(LOWER_U, h + rest))
  }

  function PiecesThen(ps: seq<Piece>, rest: Text): Text {
    if ps == [] then rest else PieceThen(ps[0], PiecesThen(ps[1..], rest))
  }

  function QuotedThen(ps: seq<Piece>, rest: Text): Text {
    Cons(DQUOTE, PiecesThen(ps, Cons(DQUOTE, rest)))
  }

  function LayoutThen(l: Layout, rest: Text): Text {
    match l
    case LNull => NULL_WORD + rest
    case LBool(b) => (if b then TRUE_WORD else FALSE_WORD) + rest
    case LInt(negative, digits) => if negative then Cons(MINUS, digits + rest) else digits + rest
    case LFloat(d) => d.Text() + rest
    case LStr(pieces) => QuotedThen(pieces, rest)
    case LArr(items) => Cons(LBRACKET, ItemsThen(items, rest))
    case LObj(members) => Cons(LBRACE, MembersThen(members, rest))
  }

  function ItemsThen(items: Items, rest: Text): Text {
    match items
    case NoItems(end) => TriviaThen(end, Cons(RBRACKET, rest))
    case LastItem(before, item, after) =>
      TriviaThen(before, LayoutThen(item, TriviaThen(after, Cons(RBRACKET, rest))))
    case NextItem(before, item, after, more) =>
      TriviaThen(before, LayoutThen(item, TriviaThen(after, Cons(COMMA, ItemsThen(more, rest)))))
  }

  /** The colon of an entry, followed by the text of a value. */
  function ColonThen(e: Entry, value: Text): Text {
    TriviaThen(e.beforeColon, Cons(COLON, TriviaThen(e.afterColon, value)))
  }

  /** The key of an entry and its colon, followed by the text of a value. */
  function HeadThen(e: Entry, value: Text): Text {
    QuotedThen(e.key, ColonThen(e, value))
  }

  function EntryThen(e: Entry, rest: Text): Text {
    HeadThen(e, LayoutThen(e.value, rest))
  }

  function MembersThen(members: Members, rest: Text): Text {
    match members
    case NoMembers(end) => TriviaThen(end, Cons(RBRACE, rest))
    case LastMember(before, entry, after) =>
      TriviaThen(before, EntryThen(entry, TriviaThen(after, Cons(RBRACE, rest))))
    case NextMember(before, entry, after, more) =>
      TriviaThen(before, EntryThen(entry, TriviaThen(after, Cons(COMMA, MembersThen(more, rest)))))
  }

  // ---------- The value a layout writes ----------

  function PieceValue(p: Piece): int
    requires WfPiece(p)
  {
    match p
    case Raw(c) => c
    case Escaped(c) => EscapeValue(c)
    case Unicode(h) => HexVal(h[0]) * 0x1000 + HexVal(h[1]) * 0x100 + HexVal(h[2]) * 0x10 + HexVal(h[3])
  }

  function PiecesValue(ps: seq<Piece>): Text
    requires WfPieces(ps)
  {
    if ps == [] then [] else [PieceValue(ps[0])] + PiecesValue(ps[1..])
  }

  function LayoutValue(l: Layout): Json
    requires WfLayout(l)
  {
    match l
    case LNull => JNull
    case LBool(b) => JBool(b)
    case LInt(negative, digits) => JInt(if negative then -(DecVal(digits) as int) else DecVal(digits))
    case LFloat(d) => JFloat(d.Text())
    case LStr(pieces) => JStr(PiecesValue(pieces))
    case LArr(items) => JArr(ItemsValue(items))
    case LObj(members) => JObj(MembersValue(members))
  }

  function ItemsValue(items: Items): seq<Json>
    requires WfItems(items)
  {
    match items
    case NoItems(_) => []
    case LastItem(_, item, _) => [LayoutValue(item)]
    case NextItem(_, item, _, more) => [LayoutValue(item)] + ItemsValue(more)
  }

  function EntryKey(e: Entry): Text
    requires WfEntry(e)
  {
    PiecesValue(e.key)
  }

  function EntryValue(e: Entry): Json
    requires WfEntry(e)
  {
    LayoutValue(e.value)
  }

  /** A repeated key keeps its last value, as in Python. */
  function MembersValue(members: Members): map<Text, Json>
    requires WfMembers(members)
  {
    match members
    case NoMembers(_) => map[]
    case LastMember(_, entry, _) => map[EntryKey(entry) := EntryValue(entry)]
    case NextMember(_, entry, _, more) => map[EntryKey(entry) := EntryValue(entry)] + MembersValue(more)
  }

  // ---------- The Python value denotes the JSON value ----------

  /** `v` is `j`, read through containers numbered `lo` and above. */
  ghost predicate Reads(heap: seq<Container>, lo: nat, v: PyVal, j: Json)
    decreases j
  {
    match j
    case JNull => v == PyNone
    case JBool(b) => v == PyBool(b)
    case JInt(n) => v == PyInt(n)
    case JFloat(literal) => v == PyFloat(literal)
    case JStr(s) => v == PyStr(s)
    case JArr(items) =>
      && v.PyRef? && lo <= v.id < |heap|
      && heap[v.id].List? && |heap[v.id].items| == |items|
      && forall i :: 0 <= i < |items| ==> Reads(heap, lo, heap[v.id].items[i], items[i])
    case JObj(entries) =>
      && v.PyRef? && lo <= v.id < |heap|
      && heap[v.id].Dict? && heap[v.id].entries.Keys == entries.Keys
      && forall x :: x in entries ==> Reads(heap, lo, heap[v.id].entries[x], entries[x])
  }

  ghost predicate AgreeFrom(lo: nat, h: seq<Container>, h': seq<Container>) {
    |h| <= |h'| && forall id :: lo <= id < |h| ==> h'[id] == h[id]
  }

  lemma {:induction false} ReadsFrame(h: seq<Container>, h': seq<Container>, lo: nat, lo': nat, v: PyVal, j: Json)
    requires lo' <= lo && AgreeFrom(lo, h, h') && Reads(h, lo, v, j)
    ensures Reads(h', lo', v, j)
    decreases j
  {
    match j
    case JArr(items) =>
      forall i | 0 <= i < |items| ensures Reads(h', lo', h'[v.id].items[i], items[i]) {
        ReadsFrame(h, h', lo, lo', h[v.id].items[i], items[i]);
      }
    case JObj(entries) =>
      forall x | x in entries ensures Reads(h', lo', h'[v.id].entries[x], entries[x]) {
        ReadsFrame(h, h', lo, lo', h[v.id].entries[x], entries[x]);
      }
    case _ =>
  }

  /** A Python value is at most one JSON value. */
  lemma {:induction false} ReadsUnique(heap: seq<Container>, lo: nat, v: PyVal, j: Json, j': Json)
    requires Reads(heap, lo, v, j) && Reads(heap, lo, v, j')
    ensures j == j'
    decreases j
  {
    match j
    case JArr(items) =>
      forall i | 0 <= i < |items| ensures items[i] == j'.items[i] {
        ReadsUnique(heap, lo, heap[v.id].items[i], items[i], j'.items[i]);
      }
    case JObj(entries) =>
      forall x | x in entries ensures entries[x] == j'.entries[x] {
        ReadsUnique(heap, lo, heap[v.id].entries[x], entries[x], j'.entries[x]);
      }
    case _ =>
  }
}
