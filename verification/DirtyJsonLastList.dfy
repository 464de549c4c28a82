/**
 A list whose last element ends in two adjacent braces, where only closers follow: the element stays open and
 takes the closing bracket of the list for an entry of its own.
 */
module DirtyJsonLastList {
  import opened CodePoints
  import opened DirtyJsonSpec
  import opened DirtyJsonLayout
  import opened DirtyJsonRoundTrip
  import opened DirtyJsonNesting

  /** The value is such a list, or an object whose last value is one, at any depth; all else is separated. */
  predicate EndsInList(l: Layout) {
    match l
    case LArr(items) => ItemsOverrun(items)
    case LObj(members) => MembersEndInList(members)
    case _ => false
  }

  predicate MembersEndInList(members: Members) {
    match members
    case NoMembers(_) => false
    case LastMember(_, entry, _) => EndsInList(entry.value)
    case NextMember(_, entry, _, more) => Separated(entry.value) && MembersEndInList(more)
  }

  predicate ItemsOverrun(items: Items) {
    match items
    case NoItems(_) => false
    case LastItem(_, item, _) => item.LObj? && Overruns(item.members)
    case NextItem(_, item, _, more) => Separated(item) && ItemsOverrun(more)
  }

  /** The value with "" mapped to "" in the last element of that list. */
  function WithBracket(l: Layout): Json
    requires WfLayout(l) && EndsInList(l)
  {
    match l
    case LArr(items) => JArr(ItemsWithBracket(items))
    case LObj(members) => JObj(MembersWithBracket(members))
  }

  function MembersWithBracket(members: Members): map<Text, Json>
    requires WfMembers(members) && MembersEndInList(members)
  {
    match members
    case LastMember(_, entry, _) =>
      assert WfEntry(entry) && WfLayout(entry.value);
      map[EntryKey(entry) := WithBracket(entry.value)]
    case NextMember(_, entry, _, more) => map[EntryKey(entry) := EntryValue(entry)] + MembersWithBracket(more)
  }

  function ItemsWithBracket(items: Items): seq<Json>
    requires WfItems(items) && ItemsOverrun(items)
  {
    match items
    case LastItem(_, item, _) =>
      assert WfLayout(item);
      [JObj(MembersValue(item.members)[[] := JStr([])])]
    case NextItem(_, item, _, more) => [LayoutValue(item)] + ItemsWithBracket(more)
  }

  /** The last element of that list maps "" to "" anyway. */
  predicate HasBracket(l: Layout)
    requires WfLayout(l) && EndsInList(l)
  {
    match l
    case LArr(items) => ItemsHaveBracket(items)
    case LObj(members) => MembersHaveBracket(members)
  }

  predicate MembersHaveBracket(members: Members)
    requires WfMembers(members) && MembersEndInList(members)
  {
    match members
    case LastMember(_, entry, _) =>
      assert WfEntry(entry) && WfLayout(entry.value);
      HasBracket(entry.value)
    case NextMember(_, _, _, more) => MembersHaveBracket(more)
  }

  predicate ItemsHaveBracket(items: Items)
    requires WfItems(items) && ItemsOverrun(items)
  {
    match items
    case LastItem(_, item, _) =>
      assert WfLayout(item);
      [] in MembersValue(item.members) && MembersValue(item.members)[[]] == JStr([])
    case NextItem(_, _, _, more) => ItemsHaveBracket(more)
  }

  lemma {:induction false} SameWithBracket(l: Layout)
    requires WfLayout(l) && EndsInList(l)
    ensures WithBracket(l) == LayoutValue(l) <==> HasBracket(l)
    decreases l
  {
    match l
    case LArr(items) => SameItems(items);
    case LObj(members) => SameMembers(members);
  }

  lemma {:induction false} SameMembers(members: Members)
    requires WfMembers(members) && MembersEndInList(members)
    ensures MembersWithBracket(members).Keys == MembersValue(members).Keys
    ensures MembersWithBracket(members) == MembersValue(members) <==> MembersHaveBracket(members)
    decreases members
  {
    match members
    case LastMember(_, e, _) =>
      assert WfEntry(e) && WfLayout(e.value);
      SameWithBracket(e.value);
      assert MembersWithBracket(members)[EntryKey(e)] == WithBracket(e.value);
      assert MembersValue(members)[EntryKey(e)] == LayoutValue(e.value);
    case NextMember(_, e, _, more) =>
      SameMembers(more);
      SameBehind(map[EntryKey(e) := EntryValue(e)], MembersWithBracket(more), MembersValue(more));
  }

  lemma SameBehind(a: map<Text, Json>, b: map<Text, Json>, c: map<Text, Json>)
    requires b.Keys == c.Keys
    ensures a + b == a + c <==> b == c
  {
    if a + b == a + c {
      forall x | x in b ensures b[x] == c[x] {
        assert (a + b)[x] == b[x] && (a + c)[x] == c[x];
      }
    }
  }

  lemma {:induction false} SameItems(items: Items)
    requires WfItems(items) && ItemsOverrun(items)
    ensures ItemsWithBracket(items) == ItemsValue(items) <==> ItemsHaveBracket(items)
    decreases items
  {
    match items
    case LastItem(_, item, _) =>
      assert WfLayout(item);
      var js := MembersValue(item.members);
      assert ItemsWithBracket(items)[0] == JObj(js[[] := JStr([])]) && ItemsValue(items)[0] == JObj(js);
      assert js[[] := JStr([])][[]] == JStr([]);
      if ItemsHaveBracket(items) { assert js[[] := JStr([])] == js; }
    case NextItem(_, item, _, more) =>
      SameItems(more);
      var first := [LayoutValue(item)];
      assert (first + ItemsWithBracket(more))[1..] == ItemsWithBracket(more);
      assert (first + ItemsValue(more))[1..] == ItemsValue(more);
  }

  // ---------- The list ----------

  /** A `]` that an open object reads, with only closers behind it, becomes an entry of it: "" with value "". */
  lemma BracketSwallowed(after: seq<Blank>, rest: Text, k: Store, base: seq<nat>, o: nat, js: map<Text, Json>)
    requires WfTrivia(after) && Closers(rest) && Top(k, base, o) && ReadsMap(k.heap, o + 1, k.heap[o], js)
    ensures ClosesAtEnd(ReadsOn(TriviaThen(after, Cons(RBRACKET, rest)), k), k, base, o, js[[] := JStr([])])
  {
    hide Reads, ObjectContent, SkipTrivia, ObjectStep;
    var t := Cons(RBRACKET, rest);
    SkipBlanks(after, t);
    BracketMember(rest, k);
    SetItemRead([], PyStr([]), JStr([]), k, k, base, o, js, rest);
    var stored := SetItem([], PyStr([]), rest, k).k;
    assert Member(t, k) == Done(PyNone, rest, stored);
    BracketStep(t, rest, k, stored);
    EndObject(t, k, rest, stored);
  }

  lemma BracketMember(rest: Text, k: Store)
    requires k.Wf()
    ensures var t := Cons(RBRACKET, rest); Member(t, k) == SetItem([], PyStr([]), rest, k)
  {
    var t := Cons(RBRACKET, rest);
    SkipBlanks([], t);
    assert UnquotedKey(t) == Scan([], t);
    ParseScalarAt(t, k);
    assert UnquotedBody(t) == Scan([], rest);
  }

  lemma BracketStep(t: Text, rest: Text, k: Store, stored: Store)
    requires k.Wf() && stored.Wf() && t == Cons(RBRACKET, rest) && Member(t, k) == Done(PyNone, rest, stored)
    ensures ObjectStep(t, k) == AfterMember(SkipTrivia(rest), stored)
  {
    hide Member;
    SkipBlanks([], t);
  }

  /** The element: its value, with the bracket, and only closers left. */
  lemma ElementOverruns(members: Members, after: seq<Blank>, rest: Text, k: Store)
    requires WfMembers(members) && Overruns(members) && WfTrivia(after) && Closers(rest) && k.Wf()
    ensures var t := Cons(LBRACE, MembersThen(members, TriviaThen(after, Cons(RBRACKET, rest))));
      YieldsAtEnd(ParseValue(t, k), k, JObj(MembersValue(members)[[] := JStr([])]))
  {
    hide SkipTrivia, ParseValue, TriviaThen, MembersThen, Reads, ReadsMap, ObjectContent, Closers, MembersValue, Overruns;
    var k' := k.Push(Dict(map[]));
    var tail := TriviaThen(after, Cons(RBRACKET, rest));
    NothingRead(k);
    ContentOverruns(members, after, rest, k', k.stack, |k.heap|);
    MembersHead(members, tail);
    ParseObjectAt(MembersThen(members, tail), k);
    var js := MembersValue(members)[[] := JStr([])];
    assert map[] + js == js;
    EncloseDict(ObjectContent(MembersThen(members, tail), k').k, k, k', js);
  }

  lemma ContentOverruns(members: Members, after: seq<Blank>, rest: Text, k: Store, base: seq<nat>, o: nat)
    requires WfMembers(members) && Overruns(members) && WfTrivia(after) && Closers(rest)
    requires Top(k, base, o) && ReadsMap(k.heap, o + 1, k.heap[o], map[])
    ensures var r := ObjectContent(MembersThen(members, TriviaThen(after, Cons(RBRACKET, rest))), k);
      ClosesAtEnd(r, k, base, o, MembersValue(members)[[] := JStr([])])
  {
    hide TriviaThen, MembersThen, Reads, ReadsMap, ObjectContent, Closers, ReadsOn, MembersValue, Overruns;
    var stored := OverrunRead(members, TriviaThen(after, Cons(RBRACKET, rest)), k, base, o, map[]);
    assert map[] + MembersValue(members) == MembersValue(members);
    BracketSwallowed(after, rest, stored, base, o, MembersValue(members));
  }

  lemma NothingRead(k: Store)
    requires k.Wf()
    ensures var k' := k.Push(Dict(map[])); Top(k', k.stack, |k.heap|) && ReadsMap(k'.heap, |k.heap| + 1, k'.heap[|k.heap|], map[])
  {
  }

  ghost predicate ClosesListAtEnd(r: Out, k: Store, base: seq<nat>, o: nat, js: seq<Json>) {
    r.Done? && Closers(r.rest) && ClosesList(r, r.rest, k, base, o, js)
  }

  /** An array whose last element was read, with only closers left. */
  lemma LastElement(t: Text, u: Text, j: Json, k: Store, base: seq<nat>, o: nat, js: seq<Json>)
    requires Top(k, base, o) && ReadsAll(k.heap, o + 1, k.heap[o], js)
    requires t != [] && SkipTrivia(t) == u && SkipTrivia(u) == u && u != [] && u[0] == LBRACE
    requires YieldsAtEnd(ParseValue(u, k), k, j)
    ensures ClosesListAtEnd(ArrayContent(t, k), k, base, o, js + [j])
  {
    hide ParseValue, SkipTrivia, Reads, ReadsAll, Closers;
    var r := ParseValue(u, k);
    AppendRead(r.v, j, k, r.k, base, o, js, r.rest);
    var stored := Append(r.v, r.rest, r.k).k;
    ClosersSkipped(r.rest);
    assert ArrayStep(t, k) == Leave(Pop(SkipTrivia(r.rest), stored));
  }

  lemma {:induction false} ItemsEnd(items: Items, rest: Text, k: Store, base: seq<nat>, o: nat, js: seq<Json>)
    requires WfItems(items) && ItemsOverrun(items) && Closers(rest)
    requires Top(k, base, o) && ReadsAll(k.heap, o + 1, k.heap[o], js)
    ensures ClosesListAtEnd(ArrayContent(ItemsThen(items, rest), k), k, base, o, js + ItemsWithBracket(items))
    decreases items
  {
    hide ArrayContent, ArrayStep, AfterElement, SkipTrivia, ParseValue, TriviaThen, Reads, ReadsAll, Closers, MembersThen;
    match items
    case LastItem(before, item, after) =>
      assert WfLayout(item);
      var u := Cons(LBRACE, MembersThen(item.members, TriviaThen(after, Cons(RBRACKET, rest))));
      ElementOverruns(item.members, after, rest, k);
      TriviaHead(before, u);
      SkipBlanks(before, u);
      NoBlanks(u);
      SkipBlanks([], u);
      assert ItemsThen(items, rest) == TriviaThen(before, u);
      LastElement(TriviaThen(before, u), u, JObj(MembersValue(item.members)[[] := JStr([])]), k, base, o, js);
    case NextItem(before, item, after, more) =>
      var next := ItemsThen(more, rest);
      var stored := ElementRead(before, item, after, COMMA, next, k, base, o, js);
      ItemsEnd(more, rest, stored, base, o, js + [LayoutValue(item)]);
      ItemsHead(more, rest);
      AfterCommaRead(ItemsThen(items, rest), next, k, stored);
      assert (js + [LayoutValue(item)]) + ItemsWithBracket(more) == js + ItemsWithBracket(items);
  }

  // ---------- At any depth ----------

  lemma {:induction false} LastListRead(l: Layout, rest: Text, k: Store)
    requires WfLayout(l) && EndsInList(l) && Closers(rest) && k.Wf()
    ensures YieldsAtEnd(ParseValue(LayoutThen(l, rest), k), k, WithBracket(l))
    decreases l
  {
    hide ArrayContent, ObjectContent, ParseValue, Reads, Closers, ReadsMap, ReadsAll, MembersThen, ItemsThen;
    match l
    case LArr(items) =>
      var k' := k.Push(List([]));
      NoElements(k);
      ParseArrayAt(ItemsThen(items, rest), k);
      ItemsEnd(items, rest, k', k.stack, |k.heap|, []);
      EncloseList(ArrayContent(ItemsThen(items, rest), k').k, k, k', ItemsWithBracket(items));
    case LObj(members) =>
      var k' := k.Push(Dict(map[]));
      NothingRead(k);
      MembersHead(members, rest);
      ParseObjectAt(MembersThen(members, rest), k);
      MembersEnd(members, rest, k', k.stack, |k.heap|, map[]);
      EncloseDict(ObjectContent(MembersThen(members, rest), k').k, k, k', MembersWithBracket(members));
  }

  lemma NoElements(k: Store)
    requires k.Wf()
    ensures var k' := k.Push(List([])); Top(k', k.stack, |k.heap|) && ReadsAll(k'.heap, |k.heap| + 1, k'.heap[|k.heap|], [])
  {
  }

  lemma {:induction false} MembersEnd(members: Members, rest: Text, k: Store, base: seq<nat>, o: nat, js: map<Text, Json>)
    requires WfMembers(members) && MembersEndInList(members) && Closers(rest)
    requires Top(k, base, o) && ReadsMap(k.heap, o + 1, k.heap[o], js)
    ensures ClosesAtEnd(ObjectContent(MembersThen(members, rest), k), k, base, o, js + MembersWithBracket(members))
    decreases members
  {
    hide ObjectContent, Reads, Closers, ReadsMap, LayoutThen, TriviaThen, EntryThen;
    match members
    case LastMember(before, e, after) =>
      ClosersAfter(after, rest);
      LastEnd(before, e, TriviaThen(after, Cons(RBRACE, rest)), k, base, o, js);
      StoreThenMerge(js, EntryKey(e), WithBracket(e.value), map[]);
    case NextMember(before, e, after, more) =>
      var stored := MemberRead(before, e, after, COMMA, MembersThen(more, rest), k, base, o, js);
      CommaFollows(MembersThen(members, rest), MembersThen(more, rest), k, stored);
      MembersEnd(more, rest, stored, base, o, js[EntryKey(e) := EntryValue(e)]);
      StoreThenMerge(js, EntryKey(e), EntryValue(e), MembersWithBracket(more));
  }

  lemma CommaFollows(q: Text, rest: Text, k: Store, stored: Store)
    requires k.Wf() && stored.Wf() && q != [] && ObjectStep(q, k) == AfterMember(Cons(COMMA, rest), stored)
    ensures ObjectContent(q, k) == ObjectContent(rest, stored)
  {
    hide ObjectStep;
  }

  lemma {:induction false} LastEnd(before: seq<Blank>, e: Entry, tail: Text, k: Store, base: seq<nat>, o: nat, js: map<Text, Json>)
    requires WfTrivia(before) && WfEntry(e) && WfLayout(e.value) && EndsInList(e.value) && Closers(tail)
    requires Top(k, base, o) && ReadsMap(k.heap, o + 1, k.heap[o], js)
    ensures ClosesAtEnd(
      ObjectContent(TriviaThen(before, EntryThen(e, tail)), k), k, base, o, js[EntryKey(e) := WithBracket(e.value)])
    decreases e
  {
    hide Member, ObjectStep, SkipTrivia, ParseValue, TriviaThen, LayoutThen, HeadThen, Reads, Closers;
    LastListRead(e.value, tail, k);
    var r := ParseValue(LayoutThen(e.value, tail), k);
    LayoutHead(e.value, tail);
    var stored := StoredEntry(e, LayoutThen(e.value, tail), k, r, WithBracket(e.value), base, o, js);
    ObjectStepAt(before, EntryThen(e, tail), k, r.rest, stored);
    EndObject(TriviaThen(before, EntryThen(e, tail)), k, r.rest, stored);
  }

  /** With only closers behind it, such a value comes back as it was written if and only if the last element of its
      list maps the empty key to the empty string, because that is the entry the closing bracket turns into. */
  lemma LastListExactly(l: Layout, rest: Text, k: Store)
    requires WfLayout(l) && EndsInList(l) && Closers(rest) && k.Wf()
    ensures var r := ParseValue(LayoutThen(l, rest), k);
      r.Done? && (Reads(r.k.heap, |k.heap|, r.v, LayoutValue(l)) <==> HasBracket(l))
  {
    hide ParseValue, LayoutThen, WithBracket, LayoutValue, Closers;
    LastListRead(l, rest, k);
    SameWithBracket(l);
    var r := ParseValue(LayoutThen(l, rest), k);
    if Reads(r.k.heap, |k.heap|, r.v, LayoutValue(l)) {
      ReadsUnique(r.k.heap, |k.heap|, r.v, LayoutValue(l), WithBracket(l));
    }
  }
}
