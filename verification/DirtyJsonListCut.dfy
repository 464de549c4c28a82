/**
 Parsing a list while it is still arriving: the text of a list of strings, words and numbers, cut anywhere.
 */
module DirtyJsonListCut {
  import opened CodePoints
  import opened DirtyJsonSpec
  import opened DirtyJsonLayout
  import opened DirtyJsonRoundTrip
  import opened DirtyJsonCut
  import opened DirtyJsonStream
  import opened DirtyJsonTolerance
  import opened DirtyJsonTools

  predicate FlatItem(before: seq<Blank>, item: Layout, after: seq<Blank>) {
    SpacesOnly(before) && WfLayout(item) && Streamable(item) && !item.LObj? && SpacesOnly(after)
  }

  /** Strings, words, and numbers without sign and exponent, with blanks between the tokens. */
  predicate FlatItems(items: Items) {
    match items
    case NoItems(end) => SpacesOnly(end)
    case LastItem(before, item, after) => FlatItem(before, item, after)
    case NextItem(before, item, after, more) => FlatItem(before, item, after) && FlatItems(more)
  }

  function Size(item: Layout): nat {
    |LayoutThen(item, [])|
  }

  /** The element of which the first `n` characters have arrived, if any. */
  function ItemArrived(item: Layout, n: int): seq<Json>
    requires WfLayout(item)
  {
    if n <= 0 then [] else if n < Size(item) then [CutScalar(item, n)] else [LayoutValue(item)]
  }

  /** The elements that the first `n` characters of a list's inside hold. */
  function Arrived(items: Items, n: int): seq<Json>
    requires FlatItems(items)
  {
    match items
    case NoItems(_) => []
    case LastItem(before, item, _) => ItemArrived(item, n - |before|)
    case NextItem(before, item, after, more) =>
      var m := n - |before| - Size(item) - |after| - 1;
      if m < 0 then ItemArrived(item, n - |before|) else [LayoutValue(item)] + Arrived(more, m)
  }

  function Blanks(items: Items): nat {
    match items
    case NoItems(end) => |end|
    case LastItem(before, _, _) => |before|
    case NextItem(before, _, _, _) => |before|
  }

  /** What the parser makes of them: blanks alone behind the opening bracket are read as a None. */
  function ListShown(items: Items, n: nat): seq<Json>
    requires FlatItems(items)
  {
    if 0 < n <= Blanks(items) then [JNull] else Arrived(items, n)
  }

  // ---------- One element ----------

  /** A text cut in an element: in the blanks before it, in it, or behind it. */
  lemma DivideItem(before: seq<Blank>, item: Layout, tail: Text, x: Text)
    requires SpacesOnly(before) && WfLayout(item) && Streamable(item) && x <= TriviaThen(before, LayoutThen(item, tail))
    ensures |x| <= |before| ==> AllSpace(x)
    ensures |before| < |x| ==>
      var z := x[|before|..]; x == TriviaThen(before, z) && if |z| < Size(item) then z <= LayoutThen(item, [])
                              else z == LayoutThen(item, z[Size(item)..]) && z[Size(item)..] <= tail
  {
    hide TriviaThen, LayoutThen, SpacesOnly;
    CharsThen(before, LayoutThen(item, tail));
    assert [] + tail == tail;
    LayoutAppend(item, [], tail);
    SplitPrefix(x, Chars(before), LayoutThen(item, tail));
    if |x| <= |before| {
      assert x == Chars(before)[..|x|];
    } else {
      var z := x[|before|..];
      CharsThen(before, z);
      SplitPrefix(z, LayoutThen(item, []), tail);
      if |z| >= Size(item) {
        var w := z[Size(item)..];
        assert [] + w == w;
        LayoutAppend(item, [], w);
      }
    }
  }

  /** The last element, cut short: what has arrived of it is the element. */
  lemma CutItem(before: seq<Blank>, item: Layout, z: Text, k: Store, base: seq<nat>, o: nat, js: seq<Json>)
    requires SpacesOnly(before) && WfLayout(item) && Streamable(item) && !item.LObj?
    requires z != [] && z <= LayoutThen(item, []) && |z| < Size(item)
    requires Top(k, base, o) && ReadsAll(k.heap, o + 1, k.heap[o], js)
    ensures ClosesList(ArrayContent(TriviaThen(before, z), k), [], k, base, o, js + [CutScalar(item, |z|)])
  {
    hide LayoutThen, TriviaThen, SkipTrivia, ParseValue, Reads, ReadsAll, CutScalar, ArrayContent, Append, Streamable, SpacesOnly;
    var x := TriviaThen(before, z);
    ScalarStart(item, z);
    CharsThen(before, z);
    SolidStart(z);
    SkipBlanks(before, z);
    ScalarCut(item, z, k);
    AppendRead(ParseValue(z, k).v, CutScalar(item, |z|), k, k, base, o, js, []);
    var stored := Append(ParseValue(z, k).v, [], k).k;
    SkipBlanks([], []);
    assert ArrayStep(x, k) == Leave(Pop([], stored));
    LeaveList(x, k, stored);
  }

  lemma LeaveList(x: Text, k: Store, stored: Store)
    requires x != [] && k.Wf() && stored.Wf() && ArrayStep(x, k) == Leave(Pop([], stored))
    ensures ArrayContent(x, k) == Pop([], stored)
  {
    hide ArrayStep;
  }

  lemma ScalarStart(item: Layout, z: Text)
    requires WfLayout(item) && Streamable(item) && !item.LObj? && z != [] && z <= LayoutThen(item, [])
    ensures !IsSpace(z[0]) && z[0] != SLASH && z[0] != RBRACKET
  {
    Solid(item, []);
    LayoutHead(item, []);
  }

  /** A whole element at the end of the text, or with blanks behind it. */
  lemma ItemEnds(before: seq<Blank>, item: Layout, after: seq<Blank>, w: Text, k: Store, base: seq<nat>, o: nat, js: seq<Json>)
    requires FlatItem(before, item, after) && w == Chars(after)
    requires Top(k, base, o) && ReadsAll(k.heap, o + 1, k.heap[o], js)
    ensures ClosesList(ArrayContent(TriviaThen(before, LayoutThen(item, w)), k), [], k, base, o, js + [LayoutValue(item)])
  {
    hide ArrayContent, TriviaThen, LayoutThen, Reads, ReadsAll;
    CharsThen(before, []);
    CharsThen(after, []);
    assert Chars(after) + [] == Chars(after);
    MissingCommaInList(before, item, after, [], k, base, o, js);
  }

  lemma ItemCloses(before: seq<Blank>, item: Layout, after: seq<Blank>, k: Store, base: seq<nat>, o: nat, js: seq<Json>)
    requires FlatItem(before, item, after)
    requires Top(k, base, o) && ReadsAll(k.heap, o + 1, k.heap[o], js)
    ensures ClosesList(ArrayContent(TriviaThen(before, LayoutThen(item, TriviaThen(after, Cons(RBRACKET, [])))), k),
                       [], k, base, o, js + [LayoutValue(item)])
  {
    hide ArrayContent, TriviaThen, LayoutThen, Reads, ReadsAll, Separated;
    FlatSeparated(item);
    CharsThen(before, []);
    CharsThen(after, []);
    ItemsRead(LastItem(before, item, after), [], k, base, o, js);
  }

  // ---------- The list ----------

  lemma {:induction false} ItemsCut(items: Items, x: Text, k: Store, base: seq<nat>, o: nat, js: seq<Json>)
    requires FlatItems(items) && x <= ItemsThen(items, []) && |x| > Blanks(items)
    requires Top(k, base, o) && ReadsAll(k.heap, o + 1, k.heap[o], js)
    ensures ClosesList(ArrayContent(x, k), [], k, base, o, js + Arrived(items, |x|))
    decreases items, 1
  {
    hide ArrayContent, TriviaThen, LayoutThen, Reads, ReadsAll, SpacesOnly, ItemArrived;
    match items
    case NoItems(end) =>
      CharsThen(end, Cons(RBRACKET, []));
      assert x == ItemsThen(items, []);
      ItemsRead(items, [], k, base, o, js);
    case LastItem(before, item, after) =>
      ItemCut(before, item, after, RBRACKET, [], x, k, base, o, js);
    case NextItem(before, item, after, more) =>
      if |x| <= |before| + Size(item) + |after| {
        ItemCut(before, item, after, COMMA, ItemsThen(more, []), x, k, base, o, js);
      } else {
        MoreCut(items, x, k, base, o, js);
      }
  }

  /** A text cut in an element or in the blanks behind it, or closed by the bracket. */
  lemma ItemCut(before: seq<Blank>, item: Layout, after: seq<Blank>, c: int, next: Text, x: Text,
                k: Store, base: seq<nat>, o: nat, js: seq<Json>)
    requires FlatItem(before, item, after) && x <= TriviaThen(before, LayoutThen(item, TriviaThen(after, Cons(c, next))))
    requires |before| < |x| && (|x| <= |before| + Size(item) + |after| || (c == RBRACKET && next == []))
    requires Top(k, base, o) && ReadsAll(k.heap, o + 1, k.heap[o], js)
    ensures ClosesList(ArrayContent(x, k), [], k, base, o, js + ItemArrived(item, |x| - |before|))
  {
    hide ArrayContent, TriviaThen, LayoutThen, ReadsAll, SpacesOnly, WfLayout, Streamable, ClosesList, Top, ItemArrived;
    if |x| - |before| < Size(item) {
      BegunItem(before, item, TriviaThen(after, Cons(c, next)), x, k, base, o, js);
    } else {
      WholeItem(before, item, after, c, next, x, k, base, o, js);
    }
  }

  lemma BegunItem(before: seq<Blank>, item: Layout, tail: Text, x: Text, k: Store, base: seq<nat>, o: nat, js: seq<Json>)
    requires SpacesOnly(before) && WfLayout(item) && Streamable(item) && !item.LObj?
    requires x <= TriviaThen(before, LayoutThen(item, tail)) && 0 < |x| - |before| < Size(item)
    requires Top(k, base, o) && ReadsAll(k.heap, o + 1, k.heap[o], js)
    ensures ClosesList(ArrayContent(x, k), [], k, base, o, js + ItemArrived(item, |x| - |before|))
  {
    hide ArrayContent, TriviaThen, LayoutThen, ReadsAll, SpacesOnly, WfLayout, Streamable, ClosesList, Top, CutScalar;
    var z := ItemBegun(before, item, tail, x);
    CutItem(before, item, z, k, base, o, js);
  }

  lemma WholeItem(before: seq<Blank>, item: Layout, after: seq<Blank>, c: int, next: Text, x: Text,
                  k: Store, base: seq<nat>, o: nat, js: seq<Json>)
    requires FlatItem(before, item, after) && x <= TriviaThen(before, LayoutThen(item, TriviaThen(after, Cons(c, next))))
    requires |before| < |x| && Size(item) <= |x| - |before|
    requires |x| <= |before| + Size(item) + |after| || (c == RBRACKET && next == [])
    requires Top(k, base, o) && ReadsAll(k.heap, o + 1, k.heap[o], js)
    ensures ClosesList(ArrayContent(x, k), [], k, base, o, js + ItemArrived(item, |x| - |before|))
  {
    hide ArrayContent, TriviaThen, LayoutThen, ReadsAll, SpacesOnly, WfLayout, Streamable, ClosesList, Top, LayoutValue, ItemArrived, Size, Cons;
    var w := ItemWhole(before, item, TriviaThen(after, Cons(c, next)), x);
    BehindItem(before, item, after, c, next, w, k, base, o, js);
  }

  lemma ItemBegun(before: seq<Blank>, item: Layout, tail: Text, x: Text) returns (z: Text)
    requires SpacesOnly(before) && WfLayout(item) && Streamable(item) && x <= TriviaThen(before, LayoutThen(item, tail))
    requires 0 < |x| - |before| < Size(item)
    ensures x == TriviaThen(before, z) && |z| == |x| - |before| && z <= LayoutThen(item, [])
  {
    hide TriviaThen, LayoutThen, SpacesOnly, WfLayout, Streamable;
    DivideItem(before, item, tail, x);
    z := x[|before|..];
  }

  lemma ItemWhole(before: seq<Blank>, item: Layout, tail: Text, x: Text) returns (w: Text)
    requires SpacesOnly(before) && WfLayout(item) && Streamable(item) && x <= TriviaThen(before, LayoutThen(item, tail))
    requires Size(item) <= |x| - |before| && |before| < |x|
    ensures x == TriviaThen(before, LayoutThen(item, w)) && |w| == |x| - |before| - Size(item) && w <= tail
    ensures ItemArrived(item, |x| - |before|) == [LayoutValue(item)]
  {
    hide TriviaThen, LayoutThen, SpacesOnly, WfLayout, Streamable, LayoutValue;
    DivideItem(before, item, tail, x);
    w := x[|before|..][Size(item)..];
  }

  lemma BehindItem(before: seq<Blank>, item: Layout, after: seq<Blank>, c: int, next: Text, w: Text,
                   k: Store, base: seq<nat>, o: nat, js: seq<Json>)
    requires FlatItem(before, item, after) && w <= TriviaThen(after, Cons(c, next))
    requires |w| <= |after| || (c == RBRACKET && next == [])
    requires Top(k, base, o) && ReadsAll(k.heap, o + 1, k.heap[o], js)
    ensures ClosesList(ArrayContent(TriviaThen(before, LayoutThen(item, w)), k), [], k, base, o, js + [LayoutValue(item)])
  {
    hide ArrayContent, TriviaThen, LayoutThen, Reads, ReadsAll, ClosesList, Top;
    if |w| <= |after| {
      CharsThen(after, Cons(c, next));
      SplitPrefix(w, Chars(after), Cons(c, next));
      assert w == Chars(after[..|w|]);
      ItemEnds(before, item, after[..|w|], w, k, base, o, js);
    } else {
      DivideTail(after, c, next, w);
      ItemCloses(before, item, after, k, base, o, js);
    }
  }

  lemma {:induction false} MoreCut(items: Items, x: Text, k: Store, base: seq<nat>, o: nat, js: seq<Json>)
    requires FlatItems(items) && items.NextItem? && x <= ItemsThen(items, [])
    requires |x| > |items.before| + Size(items.item) + |items.after|
    requires Top(k, base, o) && ReadsAll(k.heap, o + 1, k.heap[o], js)
    ensures ClosesList(ArrayContent(x, k), [], k, base, o, js + Arrived(items, |x|))
    decreases items, 0
  {
    hide ArrayContent, ArrayStep, AfterElement, TriviaThen, LayoutThen, Reads, ReadsAll, SpacesOnly, SkipTrivia, Separated;
    var NextItem(before, item, after, more) := items;
    var next := ItemsThen(more, []);
    DivideItem(before, item, TriviaThen(after, Cons(COMMA, next)), x);
    var w := x[|before|..][Size(item)..];
    DivideTail(after, COMMA, next, w);
    var y := w[|after| + 1..];
    CharsThen(before, []);
    CharsThen(after, []);
    FlatSeparated(item);
    var stored := ElementRead(before, item, after, COMMA, y, k, base, o, js);
    var js' := js + [LayoutValue(item)];
    assert |y| == |x| - |before| - Size(item) - |after| - 1;
    if |y| <= Blanks(more) {
      BlankStart(more, y);
      EndBehindComma(x, y, k, stored);
      NothingArrived(more, |y|);
      assert js + ([LayoutValue(item)] + []) == js';
    } else {
      ItemsCut(more, y, stored, base, o, js');
      OnBehindComma(more, x, y, k, stored);
      assert js' + Arrived(more, |y|) == js + ([LayoutValue(item)] + Arrived(more, |y|));
    }
  }

  lemma FlatSeparated(item: Layout)
    requires Streamable(item) && !item.LObj?
    ensures Separated(item)
  {
  }

  lemma NothingArrived(items: Items, n: nat)
    requires FlatItems(items) && n <= Blanks(items)
    ensures Arrived(items, n) == []
  {
  }

  lemma BlankStart(items: Items, y: Text)
    requires FlatItems(items) && y <= ItemsThen(items, []) && |y| <= Blanks(items)
    ensures AllSpace(y)
  {
    hide TriviaThen, LayoutThen;
    var bs := match items case NoItems(end) => end case LastItem(before, _, _) => before case NextItem(before, _, _, _) => before;
    var t := match items
      case NoItems(_) => [RBRACKET]
      case LastItem(_, item, after) => LayoutThen(item, TriviaThen(after, Cons(RBRACKET, [])))
      case NextItem(_, item, after, more) => LayoutThen(item, TriviaThen(after, Cons(COMMA, ItemsThen(more, []))));
    assert Cons(RBRACKET, []) == [RBRACKET];
    CharsThen(bs, t);
    assert y == Chars(bs)[..|y|];
  }

  /** A list that breaks off behind a comma is closed. */
  lemma EndBehindComma(x: Text, y: Text, k: Store, stored: Store)
    requires x != [] && k.Wf() && stored.Wf() && ArrayStep(x, k) == AfterElement(Cons(COMMA, y), stored) && AllSpace(y)
    ensures ArrayContent(x, k) == Pop([], stored)
  {
    hide ArrayStep, SkipTrivia;
    BlankEnd(y);
    assert Cons(COMMA, y)[1..] == y;
  }

  lemma OnBehindComma(more: Items, x: Text, y: Text, k: Store, stored: Store)
    requires FlatItems(more) && y <= ItemsThen(more, []) && |y| > Blanks(more)
    requires x != [] && k.Wf() && stored.Wf() && ArrayStep(x, k) == AfterElement(Cons(COMMA, y), stored)
    ensures ArrayContent(x, k) == ArrayContent(y, stored)
  {
    hide ArrayStep, ArrayContent, TriviaThen, LayoutThen;
    SomeItem(more, y);
    AfterCommaRead(x, y, k, stored);
  }

  lemma SomeItem(items: Items, y: Text)
    requires FlatItems(items) && y <= ItemsThen(items, []) && |y| > Blanks(items)
    ensures var u := SkipTrivia(y); u != [] && (u[0] == RBRACKET ==> u == Cons(RBRACKET, []))
  {
    hide TriviaThen, LayoutThen, SkipTrivia, Streamable, WfLayout;
    match items
    case NoItems(end) =>
      CharsThen(end, Cons(RBRACKET, []));
      assert y == ItemsThen(items, []);
      SolidStart(Cons(RBRACKET, []));
      SkipBlanks(end, Cons(RBRACKET, []));
    case LastItem(before, item, after) => ItemFirst(before, item, TriviaThen(after, Cons(RBRACKET, [])), y);
    case NextItem(before, item, after, more) => ItemFirst(before, item, TriviaThen(after, Cons(COMMA, ItemsThen(more, []))), y);
  }

  lemma ItemFirst(before: seq<Blank>, item: Layout, tail: Text, y: Text)
    requires SpacesOnly(before) && WfLayout(item) && Streamable(item) && !item.LObj?
    requires y <= TriviaThen(before, LayoutThen(item, tail)) && |y| > |before|
    ensures var u := SkipTrivia(y); u != [] && u[0] != RBRACKET
  {
    hide TriviaThen, LayoutThen, SkipTrivia, Streamable, WfLayout;
    CharsThen(before, LayoutThen(item, tail));
    SplitPrefix(y, Chars(before), LayoutThen(item, tail));
    var z := y[|before|..];
    LayoutHead(item, tail);
    Solid(item, tail);
    CharsThen(before, z);
    SkipSpaces(Chars(before), z);
    SolidStart(z);
  }

  /** Blanks alone behind the opening bracket. */
  lemma BlanksAlone(q: Text, k: Store, base: seq<nat>, o: nat)
    requires AllSpace(q) && q != [] && Top(k, base, o) && k.heap[o] == List([])
    ensures ClosesList(ArrayContent(q, k), [], k, base, o, [JNull])
  {
    BlankEnd(q);
    assert SkipTrivia([]) == [];
    assert ParseValue([], k) == Done(PyNone, [], k);
    var stored := Append(PyNone, [], k).k;
    assert ArrayStep(q, k) == Leave(Pop([], stored));
    LeaveList(q, k, stored);
  }

  /** The part `q` of such a list that has arrived behind its bracket: the list of exactly the elements that have
      arrived, the last one as far as it is there. It is left open if nothing has arrived, and blanks alone are read
      as a None. */
  lemma ListCut(items: Items, q: Text)
    requires FlatItems(items) && q <= ItemsThen(items, [])
    ensures var r := Parse(Cons(LBRACKET, q));
      && r.Done? && r.rest == [] && r.v == PyRef(0) && Reads(r.k.heap, 0, r.v, JArr(ListShown(items, |q|)))
      && r.k.stack == if q == [] then [0] else []
  {
    hide ArrayContent, ItemsThen, Arrived, Parse;
    var k := Store([0], [List([])]);
    assert Store([], []).Push(List([])) == k;
    ListStart(q);
    if q == [] {
      NothingArrived(items, 0);
      EmptyList(k);
    } else if |q| <= Blanks(items) {
      BlankStart(items, q);
      BlanksAlone(q, k, [], 0);
      FromTheStart(ArrayContent(q, k), k, [JNull]);
    } else {
      assert ReadsAll(k.heap, 1, k.heap[0], []);
      ItemsCut(items, q, k, [], 0, []);
      FromTheStart(ArrayContent(q, k), k, [] + Arrived(items, |q|));
      assert [] + Arrived(items, |q|) == Arrived(items, |q|);
    }
  }

  lemma FromTheStart(r: Out, k: Store, js: seq<Json>)
    requires ClosesList(r, [], k, [], 0, js)
    ensures Reads(r.k.heap, 0, PyRef(0), JArr(js))
  {
    forall i | 0 <= i < |js| ensures Reads(r.k.heap, 0, r.k.heap[0].items[i], js[i]) {
      ReadsFrame(r.k.heap, r.k.heap, 1, 0, r.k.heap[0].items[i], js[i]);
    }
  }

  lemma EmptyList(k: Store)
    requires k.Wf()
    ensures ArrayContent([], k) == Done(PyNone, [], k)
  {
  }

  lemma ListStart(q: Text)
    ensures var r := ArrayContent(q, Store([0], [List([])]));
      Parse(Cons(LBRACKET, q)) == if r.Raised? then r else r.(v := PyRef(0))
  {
    hide ArrayContent, ParseValue;
    var t := Cons(LBRACKET, q);
    assert [] + t == t;
    StartAfter([], t);
    ParseArrayAt(q, Store([], []));
    assert Store([], []).Push(List([])) == Store([0], [List([])]);
  }
}
