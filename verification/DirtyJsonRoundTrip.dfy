/**
 Every layout is read back as the value it writes.
 */
module DirtyJsonRoundTrip {
  import opened CodePoints
  import opened DirtyJsonSpec
  import opened DirtyJsonDecimals
  import opened DirtyJsonLayout

  // ---------- Trivia ----------

  lemma {:induction false} SkipLineBody(body: Text, rest: Text)
    requires NEWLINE !in body
    ensures SkipLine(body + Cons(NEWLINE, rest)) == rest
  {
    if body == [] {
      assert body + Cons(NEWLINE, rest) == Cons(NEWLINE, rest);
    } else {
      assert (body + Cons(NEWLINE, rest))[1..] == body[1..] + Cons(NEWLINE, rest);
      SkipLineBody(body[1..], rest);
    }
  }

  lemma {:induction false} SkipBlockBody(body: Text, rest: Text)
    requires forall i :: 0 <= i < |body| ==> !EndsBlock(body + [STAR, SLASH], i)
    ensures SkipBlock(body + Cons(STAR, Cons(SLASH, rest))) == rest
  {
    var t := body + Cons(STAR, Cons(SLASH, rest));
    if body == [] {
      assert t == Cons(STAR, Cons(SLASH, rest));
    } else {
      assert !EndsBlock(body + [STAR, SLASH], 0);
      assert t[0] == (body + [STAR, SLASH])[0] && t[1] == (body + [STAR, SLASH])[1];
      assert t[1..] == body[1..] + Cons(STAR, Cons(SLASH, rest));
      forall i | 0 <= i < |body[1..]| ensures !EndsBlock(body[1..] + [STAR, SLASH], i) {
        assert !EndsBlock(body + [STAR, SLASH], i + 1);
      }
      SkipBlockBody(body[1..], rest);
    }
  }

  lemma {:induction false} SkipBlanks(bs: seq<Blank>, rest: Text)
    requires WfTrivia(bs) && !OpensTrivia(rest)
    ensures SkipTrivia(TriviaThen(bs, rest)) == rest
  {
    if bs != [] {
      var more := TriviaThen(bs[1..], rest);
      SkipBlanks(bs[1..], rest);
      match bs[0]
      case Space(_) =>
      case LineComment(body) =>
        var t := TriviaThen(bs, rest);
        SkipLineBody(body, more);
        assert SkipLine(t) == SkipLine(t[1..]) == SkipLine(t[1..][1..]);
      case BlockComment(body) => SkipBlockBody(body, more);
    }
  }

  /** Trivia in front of `rest` starts with a blank or a slash, or is absent. */
  lemma TriviaHead(bs: seq<Blank>, rest: Text)
    requires WfTrivia(bs)
    ensures bs == [] ==> TriviaThen(bs, rest) == rest
    ensures bs != [] ==> TriviaThen(bs, rest) != [] && (IsSpace(TriviaThen(bs, rest)[0]) || TriviaThen(bs, rest)[0] == SLASH)
  {
  }

  // ---------- Strings ----------

  lemma HexIsAlnum(h: Text, rest: Text)
    requires |h| == 4 && forall i :: 0 <= i < 4 ==> IsHex(h[i])
    ensures AlnumRun(h + rest, 4) == 4 && (h + rest)[..4] == h && (h + rest)[4..] == rest
  {
    assert forall i :: 0 <= i < 4 ==> (h + rest)[i] == h[i];
  }

  lemma {:induction false} PiecesRead(ps: seq<Piece>, rest: Text)
    requires WfPieces(ps)
    ensures StringBody(PiecesThen(ps, Cons(DQUOTE, rest)), DQUOTE) == Scan(PiecesValue(ps), rest)
  {
    if ps != [] {
      var more := PiecesThen(ps[1..], Cons(DQUOTE, rest));
      PiecesRead(ps[1..], rest);
      assert WfPiece(ps[0]);
      match ps[0]
      case Raw(_) =>
      case Escaped(_) =>
        assert PieceThen(ps[0], more)[2..] == more;
      case Unicode(h) =>
        var t := PieceThen(ps[0], more);
        HexIsAlnum(h, more);
        assert t[2..] == h + more;
        assert t[2..6] == h && t[6..] == more;
    }
  }

  lemma QuotedRead(ps: seq<Piece>, rest: Text)
    requires WfPieces(ps)
    ensures ParseString(QuotedThen(ps, rest)) == Scan(PiecesValue(ps), rest)
    ensures QuotedThen(ps, rest)[0] == DQUOTE
    ensures IsTripled(QuotedThen(ps, rest), DQUOTE) ==> ps == [] && StartsWithChar(rest, DQUOTE)
  {
    PiecesRead(ps, rest);
    if ps != [] {
      assert WfPiece(ps[0]);
      assert QuotedThen(ps, rest)[1] != DQUOTE;
    } else {
      assert QuotedThen(ps, rest)[2..] == rest;
    }
  }

  // ---------- Numbers ----------

  lemma {:induction false} NumberRead(lit: Text, rest: Text)
    requires forall i :: 0 <= i < |lit| ==> IsNumberChar(lit[i])
    requires rest == [] || !IsNumberChar(rest[0])
    ensures NumberBody(lit + rest) == Scan(lit, rest)
  {
    if lit == [] {
      assert lit + rest == rest;
    } else {
      assert (lit + rest)[1..] == lit[1..] + rest;
      NumberRead(lit[1..], rest);
      assert [lit[0]] + lit[1..] == lit;
    }
  }

  // ---------- Scalars ----------

  /** What may follow a layout so that the parser does not read on: only a number and an empty string care. */
  predicate Follows(l: Layout, rest: Text) {
    match l
    case LInt(_, _) => rest == [] || !IsNumberChar(rest[0])
    case LFloat(_) => rest == [] || !IsNumberChar(rest[0])
    case LStr(pieces) => pieces != [] || !StartsWithChar(rest, DQUOTE)
    case _ => true
  }

  lemma FollowsTrivia(l: Layout, bs: seq<Blank>, c: int, rest: Text)
    requires WfTrivia(bs)
    requires c == COMMA || c == RBRACE || c == RBRACKET
    ensures Follows(l, TriviaThen(bs, Cons(c, rest)))
    ensures c != RBRACE || !l.LObj? || bs != [] ==> AfterLayout(l, TriviaThen(bs, Cons(c, rest))) == TriviaThen(bs, Cons(c, rest))
  {
    TriviaHead(bs, Cons(c, rest));
  }

  predicate IsScalar(l: Layout) {
    !l.LArr? && !l.LObj?
  }

  lemma WordRead(l: Layout, rest: Text, k: Store)
    requires l.LNull? || l.LBool?
    ensures LayoutThen(l, rest) != []
    ensures ParseScalar(LayoutThen(l, rest), k) == Done(if l.LNull? then PyNone else PyBool(l.b), rest, k)
  {
    var t := LayoutThen(l, rest);
    if l.LNull? {
      assert t[|NULL_WORD|..] == rest;
    } else if l.b {
      assert t[|TRUE_WORD|..] == rest;
    } else {
      assert t[|FALSE_WORD|..] == rest;
    }
  }

  lemma IntRead(l: Layout, rest: Text, k: Store)
    requires WfLayout(l) && l.LInt? && Follows(l, rest)
    ensures LayoutThen(l, rest) != []
    ensures ParseScalar(LayoutThen(l, rest), k) == Done(PyInt(LayoutValue(l).n), rest, k)
  {
    var lit := if l.negative then [MINUS] + l.digits else l.digits;
    assert LayoutThen(l, rest) == lit + rest;
    assert (lit + rest)[0] == lit[0];
    NumberRead(lit, rest);
    assert Unsigned(lit) == l.digits;
  }

  lemma FloatLiteralRead(l: Layout, rest: Text, k: Store)
    requires l.LFloat? && Follows(l, rest)
    ensures LayoutThen(l, rest) != []
    ensures ParseScalar(LayoutThen(l, rest), k) == Done(PyFloat(l.d.Text()), rest, k)
  {
    hide IsIntLiteral, IsFloatLiteral, Decimal.Text;
    var lit := l.d.Text();
    DecimalChars(l.d);
    NotInt(l.d);
    DecimalAccepted(l.d);
    assert (lit + rest)[0] == lit[0];
    NumberRead(lit, rest);
  }

  lemma StrRead(l: Layout, rest: Text, k: Store)
    requires WfLayout(l) && l.LStr? && Follows(l, rest)
    ensures LayoutThen(l, rest) != []
    ensures ParseScalar(LayoutThen(l, rest), k) == Done(PyStr(LayoutValue(l).s), rest, k)
  {
    QuotedRead(l.pieces, rest);
  }

  lemma ScalarRead(l: Layout, rest: Text, k: Store)
    requires WfLayout(l) && IsScalar(l) && Follows(l, rest)
    requires LayoutThen(l, rest) != []
    ensures var r := ParseScalar(LayoutThen(l, rest), k);
      r.Done? && r.rest == rest && Reads(k.heap, |k.heap|, r.v, LayoutValue(l))
  {
    match l
    case LInt(_, _) => IntRead(l, rest, k);
    case LFloat(_) => FloatLiteralRead(l, rest, k);
    case LStr(_) => StrRead(l, rest, k);
    case _ => WordRead(l, rest, k);
  }

  /** The first character of a layout: never trivia, and `{` or `[` only for containers. */
  lemma LayoutHead(l: Layout, rest: Text)
    requires WfLayout(l)
    ensures var t := LayoutThen(l, rest);
      && t != [] && !OpensTrivia(t)
      && (t[0] == LBRACE <==> l.LObj?) && (t[0] == LBRACKET <==> l.LArr?)
      && t[0] != RBRACE && t[0] != RBRACKET && t[0] != COMMA && t[0] != COLON
  {
    match l
    case LInt(negative, digits) =>
      if !negative { assert (digits + rest)[0] == digits[0]; }
    case LFloat(d) =>
      DecimalChars(d);
      assert (d.Text() + rest)[0] == d.Text()[0];
    case _ =>
  }

  lemma ParseAfterTrivia(bs: seq<Blank>, t: Text, k: Store)
    requires WfTrivia(bs) && k.Wf() && !OpensTrivia(t)
    ensures ParseValue(TriviaThen(bs, t), k) == ParseValue(t, k)
  {
    hide ParseValue, TriviaThen, SkipTrivia;
    SkipBlanks(bs, t);
    SkipBlanks([], t);
    NoBlanks(t);
    SameBehindBlanks(TriviaThen(bs, t), t, k);
  }

  lemma SameBehindBlanks(z: Text, u: Text, k: Store)
    requires k.Wf() && SkipTrivia(z) == u && SkipTrivia(u) == u
    ensures ParseValue(z, k) == ParseValue(u, k)
  {
    hide ObjectContent, ArrayContent, ParseScalar, SkipTrivia;
  }

  // ---------- Values ----------

  /** The text left after a layout: the brace after an object's own is taken with it. */
  function AfterLayout(l: Layout, rest: Text): Text {
    if l.LObj? then AfterOwnBrace(rest) else rest
  }

  function AfterOwnBrace(rest: Text): Text {
    if StartsWithChar(rest, RBRACE) then rest[1..] else rest
  }

  /** `r` returns the value `j`, leaves `rest`, and disturbs nothing that was in `k`. */
  ghost predicate Yields(r: Out, rest: Text, k: Store, j: Json) {
    && r.Done? && r.rest == rest
    && r.k.Wf() && r.k.stack == k.stack && k.heap <= r.k.heap
    && Reads(r.k.heap, |k.heap|, r.v, j)
  }

  ghost predicate ReadsAll(heap: seq<Container>, lo: nat, c: Container, js: seq<Json>) {
    && c.List? && |c.items| == |js|
    && forall i :: 0 <= i < |js| ==> Reads(heap, lo, c.items[i], js[i])
  }

  ghost predicate ReadsMap(heap: seq<Container>, lo: nat, c: Container, js: map<Text, Json>) {
    && c.Dict? && c.entries.Keys == js.Keys
    && forall x :: x in js ==> Reads(heap, lo, c.entries[x], js[x])
  }

  /** The container `o` is the newest open one. */
  ghost predicate Top(k: Store, base: seq<nat>, o: nat) {
    k.Wf() && k.stack == base + [o] && o < |k.heap|
  }

  /** From `k` to `k'` nothing but `o` changed, and new containers were added. */
  ghost predicate OnlyGrows(k: Store, k': Store, o: nat) {
    k'.Wf() && |k.heap| <= |k'.heap| && forall id :: 0 <= id < |k.heap| && id != o ==> k'.heap[id] == k.heap[id]
  }

  lemma ParseObjectAt(t: Text, k: Store)
    requires k.Wf() && !StartsWithChar(t, LBRACE)
    ensures var r := ObjectContent(t, k.Push(Dict(map[])));
      ParseValue(Cons(LBRACE, t), k) == if r.Raised? then r else r.(v := PyRef(|k.heap|))
  {
    SkipBlanks([], Cons(LBRACE, t));
  }

  lemma ParseArrayAt(t: Text, k: Store)
    requires k.Wf()
    ensures var r := ArrayContent(t, k.Push(List([])));
      ParseValue(Cons(LBRACKET, t), k) == if r.Raised? then r else r.(v := PyRef(|k.heap|))
  {
    SkipBlanks([], Cons(LBRACKET, t));
  }

  lemma ParseScalarAt(t: Text, k: Store)
    requires k.Wf() && t != [] && !OpensTrivia(t) && t[0] != LBRACE && t[0] != LBRACKET
    ensures ParseValue(t, k) == ParseScalar(t, k)
  {
    SkipBlanks([], t);
  }

  lemma EncloseList(r: Store, k: Store, k': Store, js: seq<Json>)
    requires k.Wf() && k' == k.Push(List([])) && OnlyGrows(k', r, |k.heap|)
    requires ReadsAll(r.heap, |k.heap| + 1, r.heap[|k.heap|], [] + js)
    ensures k.heap <= r.heap && Reads(r.heap, |k.heap|, PyRef(|k.heap|), JArr(js))
  {
    var o := |k.heap|;
    assert [] + js == js;
    forall i | 0 <= i < |js| ensures Reads(r.heap, o, r.heap[o].items[i], js[i]) {
      ReadsFrame(r.heap, r.heap, o + 1, o, r.heap[o].items[i], js[i]);
    }
  }

  lemma EncloseDict(r: Store, k: Store, k': Store, js: map<Text, Json>)
    requires k.Wf() && k' == k.Push(Dict(map[])) && OnlyGrows(k', r, |k.heap|)
    requires ReadsMap(r.heap, |k.heap| + 1, r.heap[|k.heap|], map[] + js)
    ensures k.heap <= r.heap && Reads(r.heap, |k.heap|, PyRef(|k.heap|), JObj(js))
  {
    var o := |k.heap|;
    assert map[] + js == js;
    forall x | x in js ensures Reads(r.heap, o, r.heap[o].entries[x], js[x]) {
      ReadsFrame(r.heap, r.heap, o + 1, o, r.heap[o].entries[x], js[x]);
    }
  }

  lemma {:induction false} ArrayRead(items: Items, rest: Text, k: Store)
    requires WfItems(items) && SeparatedItems(items) && k.Wf()
    ensures Yields(ParseValue(Cons(LBRACKET, ItemsThen(items, rest)), k), rest, k, JArr(ItemsValue(items)))
    decreases items, 2
  {
    var k' := k.Push(List([]));
    ParseArrayAt(ItemsThen(items, rest), k);
    ItemsRead(items, rest, k', k.stack, |k.heap|, []);
    EncloseList(ArrayContent(ItemsThen(items, rest), k').k, k, k', ItemsValue(items));
  }

  lemma {:induction false} ObjectRead(members: Members, rest: Text, k: Store)
    requires WfMembers(members) && SeparatedMembers(members) && k.Wf()
    ensures Yields(ParseValue(Cons(LBRACE, MembersThen(members, rest)), k), AfterOwnBrace(rest), k, JObj(MembersValue(members)))
    decreases members, 1
  {
    var k' := k.Push(Dict(map[]));
    MembersHead(members, rest);
    ParseObjectAt(MembersThen(members, rest), k);
    MembersRead(members, rest, k', k.stack, |k.heap|, map[]);
    EncloseDict(ObjectContent(MembersThen(members, rest), k').k, k, k', MembersValue(members));
  }

  lemma {:induction false} ValueRead(l: Layout, rest: Text, k: Store)
    requires WfLayout(l) && Separated(l) && Follows(l, rest) && k.Wf()
    ensures Yields(ParseValue(LayoutThen(l, rest), k), AfterLayout(l, rest), k, LayoutValue(l))
    decreases l, 0
  {
    match l
    case LArr(items) => ArrayRead(items, rest, k);
    case LObj(members) => ObjectRead(members, rest, k);
    case _ =>
      LayoutHead(l, rest);
      ParseScalarAt(LayoutThen(l, rest), k);
      ScalarRead(l, rest, k);
  }

  lemma MembersHead(members: Members, rest: Text)
    requires WfMembers(members)
    ensures MembersThen(members, rest) != [] && MembersThen(members, rest)[0] != LBRACE
  {
    match members
    case NoMembers(end) => TriviaHead(end, Cons(RBRACE, rest));
    case LastMember(before, e, after) =>
      TriviaHead(before, EntryThen(e, TriviaThen(after, Cons(RBRACE, rest))));
    case NextMember(before, e, after, more) =>
      TriviaHead(before, EntryThen(e, TriviaThen(after, Cons(COMMA, MembersThen(more, rest)))));
  }

  // ---------- Arrays ----------

  /** A value appended to the open list `o`. */
  lemma AppendRead(v: PyVal, j: Json, k: Store, k': Store, base: seq<nat>, o: nat, js: seq<Json>, rest: Text)
    requires Top(k, base, o) && ReadsAll(k.heap, o + 1, k.heap[o], js)
    requires k'.Wf() && k'.stack == k.stack && k.heap <= k'.heap && Reads(k'.heap, |k.heap|, v, j)
    ensures var r := Append(v, rest, k');
      r.Done? && Top(r.k, base, o) && OnlyGrows(k, r.k, o) && ReadsAll(r.k.heap, o + 1, r.k.heap[o], js + [j])
  {
    var r := Append(v, rest, k');
    var c := k.heap[o];
    assert k'.heap[o] == c;
    forall i | 0 <= i < |js| ensures Reads(r.k.heap, o + 1, c.items[i], js[i]) {
      ReadsFrame(k.heap, r.k.heap, o + 1, o + 1, c.items[i], js[i]);
    }
    ReadsFrame(k'.heap, r.k.heap, |k.heap|, o + 1, v, j);
  }

  /** One element, with the trivia around it, up to the comma or bracket `c` that follows. */
  lemma {:induction false} ElementRead(
    before: seq<Blank>, item: Layout, after: seq<Blank>, c: int, rest: Text, k: Store, base: seq<nat>, o: nat, js: seq<Json>)
    returns (stored: Store)
    requires WfTrivia(before) && WfLayout(item) && Separated(item) && WfTrivia(after)
    requires c == COMMA || c == RBRACKET
    requires Top(k, base, o) && ReadsAll(k.heap, o + 1, k.heap[o], js)
    ensures Top(stored, base, o) && OnlyGrows(k, stored, o)
    ensures ReadsAll(stored.heap, o + 1, stored.heap[o], js + [LayoutValue(item)])
    ensures var t := TriviaThen(before, LayoutThen(item, TriviaThen(after, Cons(c, rest))));
      t != [] && ArrayStep(t, k) == AfterElement(Cons(c, rest), stored)
    decreases item, 1
  {
    hide SkipTrivia, ParseValue, TriviaThen, LayoutThen, Reads, ReadsAll, AfterElement, Append;
    var tail := TriviaThen(after, Cons(c, rest));
    var u := LayoutThen(item, tail);
    LayoutHead(item, tail);
    TriviaHead(before, u);
    SkipBlanks(before, u);
    FollowsTrivia(item, after, c, rest);
    ValueRead(item, tail, k);
    SkipBlanks(after, Cons(c, rest));
    var value := ParseValue(u, k);
    AppendRead(value.v, LayoutValue(item), k, value.k, base, o, js, tail);
    stored := Append(value.v, tail, value.k).k;
  }

  /** After the comma the source skips trivia before it goes round again. */
  lemma ArrayFromTrivia(t: Text, k: Store)
    requires k.Wf() && SkipTrivia(t) != []
    ensures ArrayContent(SkipTrivia(t), k) == ArrayContent(t, k)
  {
    SkipBlanks([], SkipTrivia(t));
  }

  lemma CloseArray(rest: Text, k: Store)
    requires k.Wf()
    ensures ArrayContent(Cons(RBRACKET, rest), k) == Pop(rest, k)
  {
    SkipBlanks([], Cons(RBRACKET, rest));
  }

  /** The array `o` was read to its end: it holds `js`, and the stack is `base` again. */
  ghost predicate ClosesList(r: Out, rest: Text, k: Store, base: seq<nat>, o: nat, js: seq<Json>) {
    && r.Done? && r.rest == rest && r.k.stack == base && o < |k.heap| && OnlyGrows(k, r.k, o)
    && ReadsAll(r.k.heap, o + 1, r.k.heap[o], js)
  }

  lemma {:induction false} ItemsRead(items: Items, rest: Text, k: Store, base: seq<nat>, o: nat, js: seq<Json>)
    requires WfItems(items) && SeparatedItems(items)
    requires Top(k, base, o) && ReadsAll(k.heap, o + 1, k.heap[o], js)
    ensures ClosesList(ArrayContent(ItemsThen(items, rest), k), rest, k, base, o, js + ItemsValue(items))
    decreases items, 1
  {
    match items
    case NoItems(end) =>
      TriviaHead(end, Cons(RBRACKET, rest));
      SkipBlanks(end, Cons(RBRACKET, rest));
      assert js + [] == js;
    case LastItem(before, item, after) =>
      var stored := ElementRead(before, item, after, RBRACKET, rest, k, base, o, js);
      CloseArray(rest, stored);
    case NextItem(_, _, _, _) =>
      NextItemRead(items, rest, k, base, o, js);
  }

  lemma {:induction false} NextItemRead(items: Items, rest: Text, k: Store, base: seq<nat>, o: nat, js: seq<Json>)
    requires items.NextItem? && WfItems(items) && SeparatedItems(items)
    requires Top(k, base, o) && ReadsAll(k.heap, o + 1, k.heap[o], js)
    ensures ClosesList(ArrayContent(ItemsThen(items, rest), k), rest, k, base, o, js + ItemsValue(items))
    decreases items, 0
  {
    hide ArrayContent, ArrayStep, AfterElement, SkipTrivia, ParseValue, TriviaThen, LayoutThen, Reads;
    var NextItem(before, item, after, more) := items;
    var next := ItemsThen(more, rest);
    var stored := ElementRead(before, item, after, COMMA, next, k, base, o, js);
    ItemsRead(more, rest, stored, base, o, js + [LayoutValue(item)]);
    ItemsHead(more, rest);
    AfterCommaRead(ItemsThen(items, rest), next, k, stored);
    assert (js + [LayoutValue(item)]) + ItemsValue(more) == js + ItemsValue(items);
  }

  lemma AfterCommaRead(t: Text, next: Text, k: Store, stored: Store)
    requires k.Wf() && stored.Wf() && t != [] && ArrayStep(t, k) == AfterElement(Cons(COMMA, next), stored)
    requires var u := SkipTrivia(next); u != [] && (u[0] == RBRACKET ==> exists rest :: u == Cons(RBRACKET, rest))
    ensures ArrayContent(t, k) == ArrayContent(next, stored)
  {
    var u := SkipTrivia(next);
    if u[0] == RBRACKET {
      var rest :| u == Cons(RBRACKET, rest);
      CloseArray(rest, stored);
    }
    ArrayFromTrivia(next, stored);
  }

  lemma ItemsHead(items: Items, rest: Text)
    requires WfItems(items)
    ensures var u := SkipTrivia(ItemsThen(items, rest));
      u != [] && (u[0] == RBRACKET ==> u == Cons(RBRACKET, rest))
  {
    match items
    case NoItems(end) => SkipBlanks(end, Cons(RBRACKET, rest));
    case LastItem(before, item, after) =>
      var tail := TriviaThen(after, Cons(RBRACKET, rest));
      LayoutHead(item, tail);
      SkipBlanks(before, LayoutThen(item, tail));
    case NextItem(before, item, after, more) =>
      var tail := TriviaThen(after, Cons(COMMA, ItemsThen(more, rest)));
      LayoutHead(item, tail);
      SkipBlanks(before, LayoutThen(item, tail));
  }

  // ---------- Objects ----------

  /** A value stored under a key of the open dict `o`. */
  lemma SetItemRead(key: Text, v: PyVal, j: Json, k: Store, k': Store, base: seq<nat>, o: nat, js: map<Text, Json>, rest: Text)
    requires Top(k, base, o) && ReadsMap(k.heap, o + 1, k.heap[o], js)
    requires k'.Wf() && k'.stack == k.stack && k.heap <= k'.heap && Reads(k'.heap, |k.heap|, v, j)
    ensures var r := SetItem(key, v, rest, k');
      r.Done? && Top(r.k, base, o) && OnlyGrows(k, r.k, o) && ReadsMap(r.k.heap, o + 1, r.k.heap[o], js[key := j])
  {
    var r := SetItem(key, v, rest, k');
    var c := k.heap[o];
    assert k'.heap[o] == c;
    forall x | x in js ensures Reads(r.k.heap, o + 1, c.entries[x], js[x]) {
      ReadsFrame(k.heap, r.k.heap, o + 1, o + 1, c.entries[x], js[x]);
    }
    ReadsFrame(k'.heap, r.k.heap, |k.heap|, o + 1, v, j);
  }

  /** A key, a colon and a value that was read: the value is stored in the open dict `o`. */
  lemma StoredUnder(
    t: Text, key: Text, e: Entry, value: Text, k: Store, r: Out, j: Json, base: seq<nat>, o: nat, js: map<Text, Json>)
    returns (stored: Store)
    requires WfEntry(e) && Top(k, base, o) && ReadsMap(k.heap, o + 1, k.heap[o], js)
    requires t != [] && !OpensTrivia(t) && value != [] && !OpensTrivia(value)
    requires ParseKey(t) == Scan(key, ColonThen(e, value))
    requires r == ParseValue(value, k) && r.Done? && Yields(r, r.rest, k, j)
    ensures Top(stored, base, o) && OnlyGrows(k, stored, o)
    ensures ReadsMap(stored.heap, o + 1, stored.heap[o], js[key := j])
    ensures Member(t, k) == Done(PyNone, r.rest, stored)
  {
    var colon := Cons(COLON, TriviaThen(e.afterColon, value));
    SkipBlanks(e.beforeColon, colon);
    ParseAfterTrivia(e.afterColon, value, k);
    SetItemRead(key, r.v, j, k, r.k, base, o, js, r.rest);
    stored := SetItem(key, r.v, r.rest, r.k).k;
  }

  lemma StoredEntry(e: Entry, value: Text, k: Store, r: Out, j: Json, base: seq<nat>, o: nat, js: map<Text, Json>)
    returns (stored: Store)
    requires WfEntry(e) && Top(k, base, o) && ReadsMap(k.heap, o + 1, k.heap[o], js)
    requires value != [] && !OpensTrivia(value)
    requires r == ParseValue(value, k) && r.Done? && Yields(r, r.rest, k, j)
    ensures Top(stored, base, o) && OnlyGrows(k, stored, o)
    ensures ReadsMap(stored.heap, o + 1, stored.heap[o], js[EntryKey(e) := j])
    ensures var t := HeadThen(e, value); t != [] && t[0] == DQUOTE && Member(t, k) == Done(PyNone, r.rest, stored)
  {
    hide ParseValue, Member, Reads, ReadsMap, TriviaThen;
    var t := HeadThen(e, value);
    QuotedRead(e.key, ColonThen(e, value));
    NoBlanks(t);
    SkipBlanks([], t);
    stored := StoredUnder(t, EntryKey(e), e, value, k, r, j, base, o, js);
  }

  lemma NoBlanks(t: Text)
    ensures TriviaThen([], t) == t
  {
  }

  lemma {:induction false} EntryRead(e: Entry, tail: Text, k: Store, base: seq<nat>, o: nat, js: map<Text, Json>)
    returns (stored: Store)
    requires WfEntry(e) && Separated(e.value) && Follows(e.value, tail)
    requires Top(k, base, o) && ReadsMap(k.heap, o + 1, k.heap[o], js)
    ensures Top(stored, base, o) && OnlyGrows(k, stored, o)
    ensures ReadsMap(stored.heap, o + 1, stored.heap[o], js[EntryKey(e) := EntryValue(e)])
    ensures var t := EntryThen(e, tail);
      t != [] && t[0] == DQUOTE && Member(t, k) == Done(PyNone, AfterLayout(e.value, tail), stored)
    decreases e, 1
  {
    ValueRead(e.value, tail, k);
    LayoutHead(e.value, tail);
    stored := StoredEntry(e, LayoutThen(e.value, tail), k, ParseValue(LayoutThen(e.value, tail), k), EntryValue(e), base, o, js);
  }

  /** The object `o` was read to its end: it holds `js`, and the stack is `base` again. */
  ghost predicate ClosesDict(r: Out, rest: Text, k: Store, base: seq<nat>, o: nat, js: map<Text, Json>) {
    && r.Done? && r.rest == rest && r.k.stack == base && o < |k.heap| && OnlyGrows(k, r.k, o)
    && ReadsMap(r.k.heap, o + 1, r.k.heap[o], js)
  }

  lemma {:induction false} MembersRead(members: Members, rest: Text, k: Store, base: seq<nat>, o: nat, js: map<Text, Json>)
    requires WfMembers(members) && SeparatedMembers(members)
    requires Top(k, base, o) && ReadsMap(k.heap, o + 1, k.heap[o], js)
    ensures ClosesDict(ObjectContent(MembersThen(members, rest), k), AfterOwnBrace(rest), k, base, o, js + MembersValue(members))
    decreases members, 0
  {
    match members
    case NoMembers(end) =>
      CloseObject(end, rest, k);
      assert js + map[] == js;
    case LastMember(before, e, after) =>
      var stored := MemberRead(before, e, after, RBRACE, rest, k, base, o, js);
      CloseObject([], rest, stored);
      StoreThenMerge(js, EntryKey(e), EntryValue(e), map[]);
    case NextMember(before, e, after, more) =>
      var stored := MemberRead(before, e, after, COMMA, MembersThen(more, rest), k, base, o, js);
      MembersRead(more, rest, stored, base, o, js[EntryKey(e) := EntryValue(e)]);
      StoreThenMerge(js, EntryKey(e), EntryValue(e), MembersValue(more));
  }

  lemma StoreThenMerge(js: map<Text, Json>, key: Text, j: Json, more: map<Text, Json>)
    ensures js[key := j] + more == js + (map[key := j] + more)
    ensures js[key := j] + map[] == js[key := j] == js + map[key := j]
  {
  }

  lemma CloseObject(end: seq<Blank>, rest: Text, k: Store)
    requires WfTrivia(end) && k.Wf()
    ensures TriviaThen(end, Cons(RBRACE, rest)) != []
    ensures ObjectContent(TriviaThen(end, Cons(RBRACE, rest)), k)
      == Pop(AfterOwnBrace(rest), k)
  {
    TriviaHead(end, Cons(RBRACE, rest));
    SkipBlanks(end, Cons(RBRACE, rest));
    assert Cons(RBRACE, rest)[1..] == rest;
    if rest != [] { assert Cons(RBRACE, rest)[2..] == rest[1..]; }
  }

  lemma ObjectStepAt(before: seq<Blank>, t: Text, k: Store, tail: Text, stored: Store)
    requires WfTrivia(before) && k.Wf() && stored.Wf()
    requires t != [] && t[0] == DQUOTE && Member(t, k) == Done(PyNone, tail, stored)
    ensures var u := TriviaThen(before, t); u != [] && ObjectStep(u, k) == AfterMember(SkipTrivia(tail), stored)
  {
    TriviaHead(before, t);
    SkipBlanks(before, t);
  }

  /** One entry with the trivia around it, up to the comma or the brace `c`. */
  lemma {:induction false} MemberRead(
    before: seq<Blank>, e: Entry, after: seq<Blank>, c: int, rest: Text, k: Store, base: seq<nat>, o: nat, js: map<Text, Json>)
    returns (stored: Store)
    requires WfTrivia(before) && WfEntry(e) && Separated(e.value) && WfTrivia(after)
    requires c == COMMA || (c == RBRACE && (e.value.LObj? ==> after != []))
    requires Top(k, base, o) && ReadsMap(k.heap, o + 1, k.heap[o], js)
    ensures Top(stored, base, o) && OnlyGrows(k, stored, o)
    ensures ReadsMap(stored.heap, o + 1, stored.heap[o], js[EntryKey(e) := EntryValue(e)])
    ensures var t := TriviaThen(before, EntryThen(e, TriviaThen(after, Cons(c, rest))));
      t != [] && ObjectStep(t, k) == AfterMember(Cons(c, rest), stored)
    decreases e, 2
  {
    hide Member, ObjectStep, SkipTrivia, ParseValue, TriviaThen, LayoutThen, EntryThen, Reads;
    var tail := TriviaThen(after, Cons(c, rest));
    FollowsTrivia(e.value, after, c, rest);
    stored := EntryRead(e, tail, k, base, o, js);
    ObjectStepAt(before, EntryThen(e, tail), k, tail, stored);
    SkipBlanks(after, Cons(c, rest));
  }
}
