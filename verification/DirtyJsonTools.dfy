/**
 The parser's callers: `parse_string` on laid-out values and on what `stringify` prints, and
 `json_parse_dirty`, which digs the object of a tool call out of surrounding prose.
 */
module DirtyJsonTools {
  import opened CodePoints
  import opened DirtyJsonSpec
  import opened DirtyJsonLayout
  import opened DirtyJsonRoundTrip
  import opened DirtyJsonNesting

  /** Parsing `s` returns `j` and leaves no container open. */
  ghost predicate ParsesTo(s: Text, j: Json) {
    var r := Parse(s);
    r.Done? && r.k.Wf() && r.k.stack == [] && Reads(r.k.heap, 0, r.v, j)
  }

  /** Whatever was parsed, no container is left open. */
  ghost predicate EndsClosed(s: Text) {
    var r := Parse(s); r.Done? ==> r.k.Wf() && r.k.stack == []
  }

  predicate IsBraced(t: Text) {
    |t| >= 2 && t[0] == LBRACE && t[|t| - 1] == RBRACE
  }

  predicate NoStart(t: Text) {
    forall i :: 0 <= i < |t| ==> !IsStart(t[i])
  }

  lemma StartAfter(pre: Text, t: Text)
    requires NoStart(pre) && t != [] && IsStart(t[0])
    ensures StartPos(pre + t) == |pre| && (pre + t)[|pre|..] == t && pre + t != []
  {
    assert (pre + t)[|pre|] == t[0];
    assert forall i :: 0 <= i < |pre| ==> (pre + t)[i] == pre[i];
  }

  /** Containers and strings: any prose without `{`, `[` or `"` may come first, and any text may follow. */
  lemma ParseFromProse(pre: Text, l: Layout, rest: Text)
    requires WfLayout(l) && Separated(l) && Follows(l, rest) && NoStart(pre)
    requires l.LArr? || l.LObj? || l.LStr?
    ensures ParsesTo(pre + LayoutThen(l, rest), LayoutValue(l))
    ensures Parse(pre + LayoutThen(l, rest)).rest == AfterLayout(l, rest)
  {
    var t := LayoutThen(l, rest);
    assert t != [] && IsStart(t[0]);
    StartAfter(pre, t);
    ValueRead(l, rest, Store([], []));
  }

  /** Numbers and words: the text in front is trivia, and no `{`, `[` or `"` occurs anywhere. */
  lemma ParseScalarText(bs: seq<Blank>, l: Layout, rest: Text)
    requires WfTrivia(bs) && WfLayout(l) && IsScalar(l) && Follows(l, rest)
    requires NoStart(TriviaThen(bs, LayoutThen(l, rest)))
    ensures ParsesTo(TriviaThen(bs, LayoutThen(l, rest)), LayoutValue(l))
    ensures Parse(TriviaThen(bs, LayoutThen(l, rest))).rest == rest
  {
    var t := LayoutThen(l, rest);
    LayoutHead(l, rest);
    TriviaHead(bs, t);
    var s := TriviaThen(bs, t);
    assert StartPos(s) == 0 && s[0..] == s;
    ParseAfterTrivia(bs, t, Store([], []));
    ValueRead(l, rest, Store([], []));
  }

  /** At the end of the input adjacent closing braces do no harm: `{"tool_args": {"x": {}}}`. */
  lemma ParseNestedAtEnd(pre: Text, l: Layout, rest: Text)
    requires WfLayout(l) && l.LObj? && NestedAtEnd(l) && Closers(rest) && NoStart(pre)
    ensures ParsesTo(pre + LayoutThen(l, rest), LayoutValue(l))
  {
    var t := LayoutThen(l, rest);
    assert t != [] && IsStart(t[0]);
    StartAfter(pre, t);
    EndRead(l, rest, Store([], []));
  }

  // ---------- json_parse_dirty ----------

  function RFindChar(t: Text, c: int): (i: int)
    ensures -1 <= i < |t|
    ensures i >= 0 ==> t[i] == c && forall j :: i < j < |t| ==> t[j] != c
    ensures i < 0 ==> forall j :: 0 <= j < |t| ==> t[j] != c
  {
    if t == [] then -1 else if t[|t| - 1] == c then |t| - 1 else RFindChar(t[..|t| - 1], c)
  }

  /** `extract_json_object_string`: from the first `{` to the last `}`, or to the end when there is none. */
  function ExtractObject(content: Text): Text {
    var start := FindChar(content, LBRACE);
    var end := RFindChar(content, RBRACE);
    if start < 0 then []
    else if end < 0 then content[start..]
    else if start <= end + 1 then content[start..end + 1]
    else []
  }

  datatype ToolRequest = NoRequest | Request(heap: seq<Container>, id: nat)

  /** `json_parse_dirty`: a dict, or None; a failure of the parser gives None too. */
  function JsonParseDirty(json: Text): ToolRequest {
    var ext := ExtractObject(Strip(json));
    if ext == [] then NoRequest
    else match Parse(ext)
      case Done(PyRef(id), _, k) =>
        if id < |k.heap| && k.heap[id].Dict? then Request(k.heap, id) else NoRequest
      case _ => NoRequest
  }

  lemma {:induction false} LStripProse(p: Text, t: Text) returns (p': Text)
    requires t != [] && !IsSpace(t[0])
    ensures LStrip(p + t) == p' + t && forall c :: c in p' ==> c in p
  {
    if p == [] {
      assert p + t == t;
      p' := [];
      assert p' + t == t;
    } else if IsSpace(p[0]) {
      assert (p + t)[1..] == p[1..] + t;
      p' := LStripProse(p[1..], t);
    } else {
      p' := p;
    }
  }

  lemma {:induction false} RStripProse(t: Text, s: Text) returns (s': Text)
    requires t != [] && !IsSpace(t[|t| - 1])
    ensures RStrip(t + s) == t + s' && forall c :: c in s' ==> c in s
  {
    if s == [] {
      assert t + s == t;
      s' := [];
      assert t + s' == t;
    } else if IsSpace(s[|s| - 1]) {
      assert (t + s)[..|t + s| - 1] == t + s[..|s| - 1];
      s' := RStripProse(t, s[..|s| - 1]);
    } else {
      s' := s;
    }
  }

  /** The text from the first `{` to the last `}` is what is extracted. */
  lemma ExtractBetween(p: Text, t: Text, s: Text)
    requires IsBraced(t)
    requires LBRACE !in p && RBRACE !in s
    ensures ExtractObject(p + t + s) == t
  {
    var u := p + t + s;
    assert u[|p|] == LBRACE && u[|p| + |t| - 1] == RBRACE;
    assert forall i :: 0 <= i < |p| ==> u[i] == p[i];
    assert forall i :: |p| + |t| <= i < |u| ==> u[i] == s[i - |p| - |t|];
    assert u[|p|..|p| + |t|] == t;
  }

  /** It is found again in any prose around it, stripped as the source strips it. */
  lemma ExtractFromProse(p: Text, t: Text, s: Text)
    requires IsBraced(t)
    requires LBRACE !in p && RBRACE !in s
    ensures ExtractObject(Strip(p + t + s)) == t
  {
    hide ExtractObject;
    assert p + t + s == p + (t + s);
    var p' := LStripProse(p, t + s);
    assert p' + (t + s) == (p' + t) + s;
    assert (p' + t)[|p' + t| - 1] == RBRACE;
    var s' := RStripProse(p' + t, s);
    ExtractBetween(p', t, s');
  }

  /** Without a `}` everything from the first `{` on is taken; without a `{`, or if the last `}` stands before the first
      `{`, nothing. */
  lemma ExtractUnclosed(p: Text, t: Text)
    requires LBRACE !in p && StartsWithChar(t, LBRACE) && RBRACE !in t
    ensures ExtractObject(p + t) == if RBRACE in p then [] else t
    ensures ExtractObject(p) == []
  {
    var u := p + t;
    assert u[|p|] == LBRACE && u[|p|..] == t;
    assert forall i :: 0 <= i < |p| ==> u[i] == p[i];
    assert forall i :: |p| <= i < |u| ==> u[i] == t[i - |p|];
    var start, end := FindChar(u, LBRACE), RFindChar(u, RBRACE);
    assert start == |p|;
    if RBRACE in p {
      var i :| 0 <= i < |p| && p[i] == RBRACE;
      assert u[i] == RBRACE;
    }
  }

  /** So of an object that is cut off `json_parse_dirty` makes what the parser makes of it, if that is a dict. */
  lemma RequestFromUnclosed(p: Text, t: Text)
    requires LBRACE !in p && RBRACE !in p && StartsWithChar(t, LBRACE) && RBRACE !in t && !IsSpace(t[|t| - 1])
    ensures match Parse(t)
      case Done(PyRef(id), _, k) => JsonParseDirty(p + t) == if id < |k.heap| && k.heap[id].Dict? then Request(k.heap, id) else NoRequest
      case _ => JsonParseDirty(p + t) == NoRequest
  {
    hide ExtractObject, Parse;
    var p' := LStripProse(p, t);
    var u := p' + t;
    assert u[|u| - 1] == t[|t| - 1];
    assert RStrip(u) == u;
    ExtractUnclosed(p', t);
  }

  predicate SameEnd(u: Text, t: Text) {
    u != [] && t != [] && u[|u| - 1] == t[|t| - 1]
  }

  lemma {:induction false} TriviaEnds(bs: seq<Blank>, t: Text)
    requires t != []
    ensures SameEnd(TriviaThen(bs, t), t)
  {
    if bs != [] { TriviaEnds(bs[1..], t); }
  }

  lemma {:induction false} QuotedEnds(ps: seq<Piece>, t: Text)
    requires t != []
    ensures SameEnd(QuotedThen(ps, t), t)
  {
    PiecesEnd(ps, Cons(DQUOTE, t));
  }

  lemma {:induction false} PiecesEnd(ps: seq<Piece>, t: Text)
    requires t != []
    ensures SameEnd(PiecesThen(ps, t), t)
  {
    if ps != [] { PiecesEnd(ps[1..], t); }
  }

  lemma {:induction false} LayoutEnds(l: Layout, t: Text)
    requires t != []
    ensures SameEnd(LayoutThen(l, t), t)
    decreases l, 0
  {
    match l
    case LStr(pieces) => QuotedEnds(pieces, t);
    case LArr(items) => ItemsEnd(items, t);
    case LObj(members) => MembersEnd(members, t);
    case _ =>
  }

  lemma {:induction false} ElementEnds(before: seq<Blank>, item: Layout, after: seq<Blank>, tail: Text)
    requires tail != []
    ensures SameEnd(TriviaThen(before, LayoutThen(item, TriviaThen(after, tail))), tail)
    decreases item, 1
  {
    hide TriviaThen, LayoutThen;
    TriviaEnds(after, tail);
    LayoutEnds(item, TriviaThen(after, tail));
    TriviaEnds(before, LayoutThen(item, TriviaThen(after, tail)));
  }

  lemma {:induction false} ItemsEnd(items: Items, t: Text)
    requires t != []
    ensures SameEnd(ItemsThen(items, t), t)
    decreases items, 0
  {
    match items
    case NoItems(end) => TriviaEnds(end, Cons(RBRACKET, t));
    case LastItem(before, item, after) => ElementEnds(before, item, after, Cons(RBRACKET, t));
    case NextItem(before, item, after, more) =>
      ItemsEnd(more, t);
      ElementEnds(before, item, after, Cons(COMMA, ItemsThen(more, t)));
  }

  lemma {:induction false} EntryEnds(before: seq<Blank>, e: Entry, after: seq<Blank>, tail: Text)
    requires tail != []
    ensures SameEnd(TriviaThen(before, EntryThen(e, TriviaThen(after, tail))), tail)
    decreases e, 1
  {
    hide TriviaThen, LayoutThen, QuotedThen;
    var t := TriviaThen(after, tail);
    TriviaEnds(after, tail);
    LayoutEnds(e.value, t);
    TriviaEnds(e.afterColon, LayoutThen(e.value, t));
    var colon := Cons(COLON, TriviaThen(e.afterColon, LayoutThen(e.value, t)));
    TriviaEnds(e.beforeColon, colon);
    QuotedEnds(e.key, TriviaThen(e.beforeColon, colon));
    TriviaEnds(before, EntryThen(e, t));
  }

  /** An object ends with what follows it, or with its brace when nothing does. */
  lemma {:induction false} MembersEnd(members: Members, t: Text)
    ensures SameEnd(MembersThen(members, t), Cons(RBRACE, t))
    decreases members, 0
  {
    match members
    case NoMembers(end) => TriviaEnds(end, Cons(RBRACE, t));
    case LastMember(before, e, after) => EntryEnds(before, e, after, Cons(RBRACE, t));
    case NextMember(before, e, after, more) =>
      MembersEnd(more, t);
      EntryEnds(before, e, after, Cons(COMMA, MembersThen(more, t)));
  }

  /** Tool calls survive surrounding prose: whatever stands before the object without a `{` and after it
      without a `}`, the dict that comes back is the one that was printed. */
  lemma ToolCallFromProse(p: Text, l: Layout, s: Text)
    requires WfLayout(l) && l.LObj? && NestedAtEnd(l)
    requires LBRACE !in p && RBRACE !in s
    ensures var r := JsonParseDirty(p + LayoutThen(l, []) + s);
      r.Request? && Reads(r.heap, 0, PyRef(r.id), LayoutValue(l))
  {
    hide LayoutThen, Parse, ParseValue, Closers, Reads, JsonParseDirty;
    var t := LayoutThen(l, []);
    ObjectText(l.members);
    ClosersEmpty();
    ParseNestedAtEnd([], l, []);
    assert [] + t == t;
    RequestFromText(p, t, s, MembersValue(l.members));
  }

  lemma ObjectText(members: Members)
    ensures IsBraced(LayoutThen(LObj(members), []))
  {
    MembersEnd(members, []);
  }

  lemma RequestFromText(p: Text, t: Text, s: Text, js: map<Text, Json>)
    requires IsBraced(t)
    requires LBRACE !in p && RBRACE !in s && EndsClosed(t)
    ensures var r := JsonParseDirty(p + t + s);
      r.Request? && Reads(r.heap, 0, PyRef(r.id), JObj(js)) <==> ParsesTo(t, JObj(js))
  {
    hide Parse, Strip, ExtractObject;
    ExtractFromProse(p, t, s);
  }

  lemma ClosersEmpty()
    ensures Closers([])
  {
  }
}
