/**
 `stringify`: what `json.dumps(obj, ensure_ascii=False, ..)` prints, and parsing it back.
 */
module DirtyJsonStringify {
  import opened CodePoints
  import opened DirtyJsonSpec
  import opened DirtyJsonDecimals
  import opened DirtyJsonLayout
  import opened DirtyJsonRoundTrip
  import opened DirtyJsonNesting
  import opened DirtyJsonTools
  import opened DirtyJsonBraces

  /** A printable Python object; a float is the literal that `repr` makes of it, a dict lists its items in insertion
      order. */
  datatype Doc =
    | DNull
    | DBool(b: bool)
    | DInt(n: int)
    | DFloat(d: Float)
    | DStr(s: Text)
    | DList(items: seq<Doc>)
    | DDict(entries: seq<Pair>)

  datatype Pair = Pair(key: Text, value: Doc)

  /** On one line, with or without a blank after each separator, or indented by `width`. */
  datatype Style = OneLine(spaced: bool) | Indented(width: nat)

  function DocValue(d: Doc): Json {
    match d
    case DNull => JNull
    case DBool(b) => JBool(b)
    case DInt(n) => JInt(n)
    case DFloat(f) => JFloat(f.Text())
    case DStr(s) => JStr(s)
    case DList(items) => JArr(DocsValue(items))
    case DDict(entries) => JObj(EntriesValue(entries))
  }

  function DocsValue(ds: seq<Doc>): seq<Json> {
    if ds == [] then [] else [DocValue(ds[0])] + DocsValue(ds[1..])
  }

  function EntriesValue(es: seq<Pair>): map<Text, Json> {
    if es == [] then map[] else map[es[0].key := DocValue(es[0].value)] + EntriesValue(es[1..])
  }

  // ---------- The printer ----------

  /** Decimal digits of a natural number. */
  function Digits(n: nat): (t: Text)
    ensures t != [] && AllDigits(t) && DecVal(t) == n
  {
    if n < 10 then [0x30 + n]
    else
      var t := Digits(n / 10) + [0x30 + n % 10];
      assert t[..|t| - 1] == Digits(n / 10);
      t
  }

  function HexDigit(n: nat): (c: int)
    requires n < 16
    ensures IsHex(c) && HexVal(c) == n
  {
    if n < 10 then 0x30 + n else 0x61 + n - 10
  }

  /** How one character of a string is written: the two-character escapes, `\u00XX` for other controls. */
  function PieceOf(c: int): (p: Piece)
    ensures WfPiece(p) && PieceValue(p) == c
  {
    if c == DQUOTE || c == BACKSLASH then Escaped(c)
    else if c == 0x08 then Escaped(LOWER_B)
    else if c == 0x0C then Escaped(LOWER_F)
    else if c == 0x0A then Escaped(LOWER_N)
    else if c == 0x0D then Escaped(LOWER_R)
    else if c == 0x09 then Escaped(LOWER_T)
    else if 0 <= c < 0x20 then Unicode([0x30, 0x30, HexDigit(c / 16), HexDigit(c % 16)])
    else Raw(c)
  }

  function PiecesOf(s: Text): (ps: seq<Piece>)
    ensures WfPieces(ps) && PiecesValue(ps) == s
  {
    if s == [] then [] else
    var ps := [PieceOf(s[0])] + PiecesOf(s[1..]);
    assert WfPiece(ps[0]) && ps[1..] == PiecesOf(s[1..]);
    ps
  }

  /** The line break before an element, at a nesting level. */
  function Margin(style: Style, level: nat): (bs: seq<Blank>)
    ensures WfTrivia(bs) && (bs == [] <==> style.OneLine?)
  {
    if style.OneLine? then [] else [Space(NEWLINE)] + Spaces(style.width * level)
  }

  function Spaces(n: nat): (bs: seq<Blank>)
    ensures |bs| == n && WfTrivia(bs)
  {
    if n == 0 then [] else [Space(SPACE)] + Spaces(n - 1)
  }

  /** What follows a comma. */
  function Gap(style: Style, level: nat): (bs: seq<Blank>)
    ensures WfTrivia(bs)
  {
    if style == OneLine(true) then [Space(SPACE)] else Margin(style, level)
  }

  function AfterColon(style: Style): (bs: seq<Blank>)
    ensures WfTrivia(bs)
  {
    if style == OneLine(false) then [] else [Space(SPACE)]
  }

  function DumpsLayout(d: Doc, style: Style, level: nat): (l: Layout)
    ensures l.LObj? <==> d.DDict?
    ensures l.LArr? <==> d.DList?
    ensures l.LStr? <==> d.DStr?
    decreases d
  {
    match d
    case DNull => LNull
    case DBool(b) => LBool(b)
    case DInt(n) => LInt(n < 0, Digits(if n < 0 then -n else n))
    case DFloat(f) => LFloat(f)
    case DStr(s) => LStr(PiecesOf(s))
    case DList(items) =>
      LArr(if items == [] then NoItems([]) else ItemsLayout(items, Margin(style, level + 1), style, level))
    case DDict(entries) =>
      LObj(if entries == [] then NoMembers([]) else EntriesLayout(entries, Margin(style, level + 1), style, level))
  }

  function ItemsLayout(ds: seq<Doc>, before: seq<Blank>, style: Style, level: nat): Items
    requires ds != []
    decreases ds
  {
    var item := DumpsLayout(ds[0], style, level + 1);
    if |ds| == 1 then LastItem(before, item, Margin(style, level))
    else NextItem(before, item, [], ItemsLayout(ds[1..], Gap(style, level + 1), style, level))
  }

  function EntriesLayout(es: seq<Pair>, before: seq<Blank>, style: Style, level: nat): Members
    requires es != []
    decreases es
  {
    var entry := Entry(PiecesOf(es[0].key), [], AfterColon(style), DumpsLayout(es[0].value, style, level + 1));
    if |es| == 1 then LastMember(before, entry, Margin(style, level))
    else NextMember(before, entry, [], EntriesLayout(es[1..], Gap(style, level + 1), style, level))
  }

  /** `stringify(obj)` */
  function Stringify(d: Doc, style: Style): Text {
    LayoutThen(DumpsLayout(d, style, 0), [])
  }

  // ---------- The printed layout writes the document ----------

  lemma {:induction false} DumpsValue(d: Doc, style: Style, level: nat)
    ensures WfLayout(DumpsLayout(d, style, level)) && LayoutValue(DumpsLayout(d, style, level)) == DocValue(d)
    decreases d
  {
    match d
    case DList(items) => if items != [] { ItemsDumped(items, Margin(style, level + 1), style, level); }
    case DDict(entries) => if entries != [] { EntriesDumped(entries, Margin(style, level + 1), style, level); }
    case _ =>
  }

  lemma {:induction false} ItemsDumped(ds: seq<Doc>, before: seq<Blank>, style: Style, level: nat)
    requires ds != [] && WfTrivia(before)
    ensures WfItems(ItemsLayout(ds, before, style, level)) && ItemsValue(ItemsLayout(ds, before, style, level)) == DocsValue(ds)
    decreases ds
  {
    DumpsValue(ds[0], style, level + 1);
    if |ds| > 1 { ItemsDumped(ds[1..], Gap(style, level + 1), style, level); }
  }

  lemma {:induction false} EntriesDumped(es: seq<Pair>, before: seq<Blank>, style: Style, level: nat)
    requires es != [] && WfTrivia(before)
    ensures WfMembers(EntriesLayout(es, before, style, level))
    ensures MembersValue(EntriesLayout(es, before, style, level)) == EntriesValue(es)
    decreases es
  {
    DumpsValue(es[0].value, style, level + 1);
    var entry := Entry(PiecesOf(es[0].key), [], AfterColon(style), DumpsLayout(es[0].value, style, level + 1));
    assert WfEntry(entry) && EntryKey(entry) == es[0].key && EntryValue(entry) == DocValue(es[0].value);
    if |es| > 1 {
      EntriesDumped(es[1..], Gap(style, level + 1), style, level);
    } else {
      assert EntriesValue(es) == map[es[0].key := DocValue(es[0].value)];
    }
  }

  // ---------- Where adjacent braces occur ----------

  /** No dict is the last value of a dict. */
  predicate Flat(d: Doc) {
    match d
    case DList(items) => forall i :: 0 <= i < |items| ==> Flat(items[i])
    case DDict(entries) =>
      && (forall i :: 0 <= i < |entries| ==> Flat(entries[i].value))
      && (entries != [] ==> !entries[|entries| - 1].value.DDict?)
    case _ => true
  }

  /** Dicts nest as last values only along the end of the document. */
  predicate FlatButEnd(d: Doc) {
    match d
    case DDict(entries) =>
      entries != [] ==>
        && (forall i :: 0 <= i < |entries| - 1 ==> Flat(entries[i].value))
        && FlatButEnd(entries[|entries| - 1].value)
    case _ => Flat(d)
  }

  /** Indentation keeps every two closing braces apart; on one line, flatness is what does. */
  lemma {:induction false} DumpsSeparated(d: Doc, style: Style, level: nat)
    ensures Separated(DumpsLayout(d, style, level)) <==> style.Indented? || Flat(d)
    decreases d
  {
    match d
    case DList(items) => if items != [] { ItemsSeparated(items, Margin(style, level + 1), style, level); }
    case DDict(entries) => if entries != [] { EntriesSeparated(entries, Margin(style, level + 1), style, level); }
    case _ =>
  }

  lemma {:induction false} ItemsSeparated(ds: seq<Doc>, before: seq<Blank>, style: Style, level: nat)
    requires ds != []
    ensures SeparatedItems(ItemsLayout(ds, before, style, level))
      <==> style.Indented? || forall i :: 0 <= i < |ds| ==> Flat(ds[i])
    decreases ds
  {
    DumpsSeparated(ds[0], style, level + 1);
    if |ds| > 1 {
      ItemsSeparated(ds[1..], Gap(style, level + 1), style, level);
      assert forall i :: 1 <= i < |ds| ==> ds[i] == ds[1..][i - 1];
    }
  }

  predicate FlatEntries(es: seq<Pair>) {
    es != [] ==> (forall i :: 0 <= i < |es| ==> Flat(es[i].value)) && !es[|es| - 1].value.DDict?
  }

  lemma {:induction false} EntriesSeparated(es: seq<Pair>, before: seq<Blank>, style: Style, level: nat)
    requires es != []
    ensures SeparatedMembers(EntriesLayout(es, before, style, level)) <==> style.Indented? || FlatEntries(es)
    decreases es
  {
    DumpsSeparated(es[0].value, style, level + 1);
    if |es| > 1 {
      EntriesSeparated(es[1..], Gap(style, level + 1), style, level);
      assert forall i :: 1 <= i < |es| ==> es[i] == es[1..][i - 1];
    }
  }

  lemma {:induction false} DumpsNested(d: Doc, style: Style, level: nat)
    requires style.Indented? || FlatButEnd(d)
    ensures NestedAtEnd(DumpsLayout(d, style, level))
    decreases d
  {
    DumpsSeparated(d, style, level);
    if d.DDict? && d.entries != [] {
      EntriesNested(d.entries, Margin(style, level + 1), style, level);
    }
  }

  lemma {:induction false} EntriesNested(es: seq<Pair>, before: seq<Blank>, style: Style, level: nat)
    requires es != []
    requires style.Indented? || ((forall i :: 0 <= i < |es| - 1 ==> Flat(es[i].value)) && FlatButEnd(es[|es| - 1].value))
    ensures NestedMembers(EntriesLayout(es, before, style, level))
    decreases es
  {
    if |es| == 1 {
      DumpsNested(es[0].value, style, level + 1);
    } else {
      DumpsSeparated(es[0].value, style, level + 1);
      assert forall i :: 1 <= i < |es| ==> es[i] == es[1..][i - 1];
      EntriesNested(es[1..], Gap(style, level + 1), style, level);
    }
  }

  // ---------- The round trip ----------

  lemma ScalarTextHasNoStart(d: Doc, style: Style)
    requires d.DNull? || d.DBool? || d.DInt? || d.DFloat?
    ensures NoStart(Stringify(d, style))
  {
    match d
    case DInt(n) => DigitsHaveNoStart(n < 0, Digits(if n < 0 then -n else n));
    case DFloat(f) => FloatHasNoStart(f);
    case DNull => assert NULL_WORD + [] == NULL_WORD;
    case DBool(b) => assert TRUE_WORD + [] == TRUE_WORD && FALSE_WORD + [] == FALSE_WORD;
  }

  lemma FloatHasNoStart(f: Float)
    ensures NoStart(LayoutThen(LFloat(f), []))
  {
    hide Decimal.Text;
    DecimalChars(f);
    assert f.Text() + [] == f.Text();
  }

  lemma DigitsHaveNoStart(negative: bool, digits: Text)
    requires AllDigits(digits)
    ensures NoStart(LayoutThen(LInt(negative, digits), []))
  {
    assert digits + [] == digits;
  }

  /** Parsing what `stringify` printed gives the object back, whatever the indentation; printed on one
      line, it does so for every object whose dicts nest as last values only at the very end. */
  lemma StringifyRoundTrip(d: Doc, style: Style)
    requires style.Indented? || FlatButEnd(d)
    ensures ParsesTo(Stringify(d, style), DocValue(d))
  {
    var l := DumpsLayout(d, style, 0);
    DumpsValue(d, style, 0);
    DumpsNested(d, style, 0);
    var t := Stringify(d, style);
    assert [] + t == t;
    if d.DDict? {
      ClosersEmpty();
      ParseNestedAtEnd([], l, []);
    } else if d.DList? || d.DStr? {
      ParseFromProse([], l, []);
    } else {
      ScalarTextHasNoStart(d, style);
      ParseScalarText([], l, []);
    }
  }

  // ---------- Exactly when ----------

  /** Every list that is reached through dicts is flat. */
  predicate ListsFlat(d: Doc) {
    match d
    case DList(_) => Flat(d)
    case DDict(entries) => forall i :: 0 <= i < |entries| ==> ListsFlat(entries[i].value)
    case _ => true
  }

  /** No dict that is reached through dicts repeats a key. */
  predicate KeysDistinct(d: Doc) {
    match d
    case DDict(entries) =>
      && (forall i, j :: 0 <= i < j < |entries| ==> entries[i].key != entries[j].key)
      && (forall i :: 0 <= i < |entries| ==> KeysDistinct(entries[i].value))
    case _ => true
  }

  function EntryLayout(e: Pair, style: Style, level: nat): Entry {
    Entry(PiecesOf(e.key), [], AfterColon(style), DumpsLayout(e.value, style, level + 1))
  }

  lemma {:induction false} KeysOf(es: seq<Pair>)
    ensures forall x :: x in EntriesValue(es) <==> exists i :: 0 <= i < |es| && es[i].key == x
  {
    if es != [] {
      KeysOf(es[1..]);
      assert forall i :: 1 <= i < |es| ==> es[i] == es[1..][i - 1];
      assert EntriesValue(es) == map[es[0].key := DocValue(es[0].value)] + EntriesValue(es[1..]);
      forall x | x in EntriesValue(es[1..]) ensures exists i :: 0 <= i < |es| && es[i].key == x {
        var i :| 0 <= i < |es[1..]| && es[1..][i].key == x;
        assert es[i + 1].key == x;
      }
    }
  }

  /** The printed layout has flat lists, distinct keys and nesting exactly as the document does. */
  lemma {:induction false} EntriesShape(es: seq<Pair>, before: seq<Blank>, style: Style, level: nat)
    requires es != [] && WfTrivia(before) && ListsFlat(DDict(es)) && KeysDistinct(DDict(es))
    ensures var members := EntriesLayout(es, before, style, level);
      && WfMembers(members) && LeavesSeparated(members) && DistinctKeys(members)
      && (NestedLast(members) <==> style.Indented? || FlatButEnd(DDict(es)))
    decreases es
  {
    EntryShape(es[0], style, level);
    DumpsSeparated(es[0].value, style, level + 1);
    FlatButEndNext(es);
    if |es| > 1 {
      DocNext(es);
      hide ListsFlat, KeysDistinct, Flat, FlatButEnd, WfEntry, LeafSeparated, DistinctBelow, NestedLastValue, Separated;
      EntriesDumped(es[1..], Gap(style, level + 1), style, level);
      EntriesShape(es[1..], Gap(style, level + 1), style, level);
    }
  }

  lemma DocNext(es: seq<Pair>)
    requires |es| > 1 && ListsFlat(DDict(es)) && KeysDistinct(DDict(es))
    ensures ListsFlat(DDict(es[1..])) && KeysDistinct(DDict(es[1..])) && es[0].key !in EntriesValue(es[1..])
  {
    assert forall i :: 1 <= i < |es| ==> es[i] == es[1..][i - 1];
    KeysOf(es[1..]);
  }

  lemma FlatButEndNext(es: seq<Pair>)
    requires es != []
    ensures FlatButEnd(DDict(es)) <==>
      if |es| == 1 then FlatButEnd(es[0].value) else Flat(es[0].value) && FlatButEnd(DDict(es[1..]))
  {
    if |es| > 1 {
      assert forall i :: 1 <= i < |es| ==> es[i] == es[1..][i - 1];
    }
  }

  lemma {:induction false} EntryShape(e: Pair, style: Style, level: nat)
    requires ListsFlat(e.value) && KeysDistinct(e.value)
    ensures var entry := EntryLayout(e, style, level);
      && WfEntry(entry) && EntryKey(entry) == e.key && LeafSeparated(entry) && DistinctBelow(entry)
      && (NestedLastValue(entry) <==> style.Indented? || FlatButEnd(e.value))
    decreases e, 0
  {
    DumpsValue(e.value, style, level + 1);
    DumpsSeparated(e.value, style, level + 1);
    if e.value.DDict? && e.value.entries != [] {
      EntriesShape(e.value.entries, Margin(style, level + 2), style, level + 1);
    }
  }

  /** For every document with distinct keys whose lists are flat: it comes back from its printed text if and
      only if it is indented, or its dicts nest as last values only along its end. */
  lemma StringifyExactly(d: Doc, style: Style)
    requires KeysDistinct(d) && ListsFlat(d)
    ensures ParsesTo(Stringify(d, style), DocValue(d)) <==> style.Indented? || FlatButEnd(d)
  {
    if style.Indented? || FlatButEnd(d) {
      StringifyRoundTrip(d, style);
    } else {
      assert d.DDict? && d.entries != [];
      EntriesShape(d.entries, Margin(style, 1), style, 0);
      EntriesDumped(d.entries, Margin(style, 1), style, 0);
      var members := EntriesLayout(d.entries, Margin(style, 1), style, 0);
      NestedExactly([], members);
      var t := Stringify(d, style);
      assert [] + t == t;
    }
  }

  /** The same through `json_parse_dirty`, with prose around a printed dict. */
  lemma ToolCallRoundTrip(p: Text, d: Doc, style: Style, s: Text)
    requires d.DDict? && (style.Indented? || FlatButEnd(d))
    requires LBRACE !in p && RBRACE !in s
    ensures var r := JsonParseDirty(p + Stringify(d, style) + s);
      r.Request? && Reads(r.heap, 0, PyRef(r.id), DocValue(d))
  {
    DumpsValue(d, style, 0);
    DumpsNested(d, style, 0);
    ToolCallFromProse(p, DumpsLayout(d, style, 0), s);
  }

  /** So a printed tool call survives prose around it exactly when it survives alone. */
  lemma ToolCallExactly(p: Text, d: Doc, style: Style, s: Text)
    requires d.DDict? && KeysDistinct(d) && ListsFlat(d) && LBRACE !in p && RBRACE !in s
    ensures var r := JsonParseDirty(p + Stringify(d, style) + s);
      r.Request? && Reads(r.heap, 0, PyRef(r.id), DocValue(d)) <==> style.Indented? || FlatButEnd(d)
  {
    if style.Indented? || FlatButEnd(d) {
      ToolCallRoundTrip(p, d, style, s);
    } else {
      var t := PrintedDict(d, style);
      StringifyExactly(d, style);
      hide Stringify, JsonParseDirty, ParsesTo, Parse, Reads;
      RequestFromText(p, t, s, EntriesValue(d.entries));
    }
  }

  lemma PrintedDict(d: Doc, style: Style) returns (t: Text)
    requires d.DDict? && d.entries != [] && KeysDistinct(d) && ListsFlat(d)
    ensures t == Stringify(d, style) && IsBraced(t) && EndsClosed(t)
  {
    var members := EntriesLayout(d.entries, Margin(style, 1), style, 0);
    assert DumpsLayout(d, style, 0) == LObj(members);
    hide Parse, Reads, LayoutThen, EntriesLayout, DumpsLayout, WfMembers, LeavesSeparated;
    EntriesShape(d.entries, Margin(style, 1), style, 0);
    t := LayoutThen(LObj(members), []);
    assert [] + t == t;
    var r := NestedParse([], members);
    ObjectText(members);
  }
}
