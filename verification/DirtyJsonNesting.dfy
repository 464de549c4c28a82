/**
 What `}}` does to the round trip. The parser takes two adjacent closing braces as one, so an object
 closed directly against the brace around it takes that brace along. At the end of the input this is
 harmless; anywhere else the text that follows goes into the wrong container.
 */
module DirtyJsonNesting {
  import opened CodePoints
  import opened DirtyJsonSpec
  import opened DirtyJsonLayout
  import opened DirtyJsonRoundTrip

  /** Nothing but trivia and closing braces up to the end of the input. */
  predicate Closers(t: Text)
    decreases |t|
  {
    var u := SkipTrivia(t);
    u == [] || (u[0] == RBRACE && Closers(u[1..]))
  }

  /** Adjacent closing braces occur only where the objects that end the whole text are closed. */
  predicate NestedAtEnd(l: Layout) {
    match l
    case LObj(members) => NestedMembers(members)
    case _ => Separated(l)
  }

  predicate NestedMembers(members: Members) {
    match members
    case NoMembers(_) => true
    case LastMember(_, entry, _) => NestedAtEnd(entry.value)
    case NextMember(_, entry, _, more) => Separated(entry.value) && NestedMembers(more)
  }

  lemma ClosersAfter(bs: seq<Blank>, rest: Text)
    requires WfTrivia(bs) && Closers(rest)
    ensures Closers(TriviaThen(bs, Cons(RBRACE, rest)))
  {
    SkipBlanks(bs, Cons(RBRACE, rest));
  }

  lemma ClosersHead(t: Text)
    requires Closers(t) && t != []
    ensures IsSpace(t[0]) || t[0] == SLASH || t[0] == RBRACE
  {
  }

  lemma ClosersBrace(t: Text)
    requires Closers(t) && StartsWithChar(t, RBRACE)
    ensures Closers(t[1..]) && Closers(AfterBrace(t))
  {
    SkipBlanks([], t);
    if |t| > 1 && t[1] == RBRACE {
      SkipBlanks([], t[1..]);
      assert t[1..][1..] == t[2..];
    }
  }

  lemma ClosersSkipped(t: Text)
    requires Closers(t)
    ensures Closers(SkipTrivia(t)) && (SkipTrivia(t) == [] || StartsWithChar(SkipTrivia(t), RBRACE))
  {
    SkipBlanks([], SkipTrivia(t));
  }

  /** The value `j` is returned, and only closers are left. */
  ghost predicate YieldsAtEnd(r: Out, k: Store, j: Json) {
    r.Done? && Closers(r.rest) && Yields(r, r.rest, k, j)
  }

  ghost predicate ClosesAtEnd(r: Out, k: Store, base: seq<nat>, o: nat, js: map<Text, Json>) {
    r.Done? && Closers(r.rest) && ClosesDict(r, r.rest, k, base, o, js)
  }

  lemma {:induction false} EndRead(l: Layout, rest: Text, k: Store)
    requires WfLayout(l) && NestedAtEnd(l) && Closers(rest) && k.Wf()
    ensures YieldsAtEnd(ParseValue(LayoutThen(l, rest), k), k, LayoutValue(l))
    decreases l
  {
    match l
    case LObj(members) =>
      var k' := k.Push(Dict(map[]));
      MembersHead(members, rest);
      ParseObjectAt(MembersThen(members, rest), k);
      MembersAtEnd(members, rest, k', k.stack, |k.heap|, map[]);
      EncloseDict(ObjectContent(MembersThen(members, rest), k').k, k, k', MembersValue(members));
    case _ =>
      if rest != [] { ClosersHead(rest); }
      ValueRead(l, rest, k);
  }

  lemma {:induction false} MembersAtEnd(members: Members, rest: Text, k: Store, base: seq<nat>, o: nat, js: map<Text, Json>)
    requires WfMembers(members) && NestedMembers(members) && Closers(rest)
    requires Top(k, base, o) && ReadsMap(k.heap, o + 1, k.heap[o], js)
    ensures ClosesAtEnd(ObjectContent(MembersThen(members, rest), k), k, base, o, js + MembersValue(members))
    decreases members
  {
    match members
    case NoMembers(end) =>
      CloseObject(end, rest, k);
      if StartsWithChar(rest, RBRACE) { ClosersBrace(rest); }
      assert js + map[] == js;
    case LastMember(before, e, after) =>
      ClosersAfter(after, rest);
      LastAtEnd(before, e, TriviaThen(after, Cons(RBRACE, rest)), k, base, o, js);
      StoreThenMerge(js, EntryKey(e), EntryValue(e), map[]);
    case NextMember(before, e, after, more) =>
      var stored := MemberRead(before, e, after, COMMA, MembersThen(more, rest), k, base, o, js);
      MembersAtEnd(more, rest, stored, base, o, js[EntryKey(e) := EntryValue(e)]);
      StoreThenMerge(js, EntryKey(e), EntryValue(e), MembersValue(more));
  }

  /** The last entry, of which only closers follow: its own brace may already be gone. */
  lemma {:induction false} LastAtEnd(before: seq<Blank>, e: Entry, tail: Text, k: Store, base: seq<nat>, o: nat, js: map<Text, Json>)
    requires WfTrivia(before) && WfEntry(e) && NestedAtEnd(e.value) && Closers(tail)
    requires Top(k, base, o) && ReadsMap(k.heap, o + 1, k.heap[o], js)
    ensures ClosesAtEnd(ObjectContent(TriviaThen(before, EntryThen(e, tail)), k), k, base, o, js[EntryKey(e) := EntryValue(e)])
    decreases e
  {
    hide Member, ObjectStep, SkipTrivia, ParseValue, TriviaThen, LayoutThen, HeadThen, Reads;
    EndRead(e.value, tail, k);
    var r := ParseValue(LayoutThen(e.value, tail), k);
    LayoutHead(e.value, tail);
    var stored := StoredEntry(e, LayoutThen(e.value, tail), k, r, EntryValue(e), base, o, js);
    ObjectStepAt(before, EntryThen(e, tail), k, r.rest, stored);
    EndObject(TriviaThen(before, EntryThen(e, tail)), k, r.rest, stored);
  }

  /** After its last entry an object closes on whichever brace is next, or on the end of the input. */
  lemma EndObject(t: Text, k: Store, tail: Text, stored: Store)
    requires k.Wf() && stored.Wf() && stored.stack != [] && Closers(tail)
    requires t != [] && ObjectStep(t, k) == AfterMember(SkipTrivia(tail), stored)
    ensures var r := ObjectContent(t, k);
      r.Done? && Closers(r.rest) && r.k == stored.(stack := stored.stack[..|stored.stack| - 1])
  {
    hide SkipTrivia, ObjectStep, Closers;
    ClosersSkipped(tail);
    var u := SkipTrivia(tail);
    if u != [] {
      ClosersBrace(u);
      CloseAt(u, stored);
    }
  }

  lemma CloseAt(u: Text, k: Store)
    requires k.Wf() && StartsWithChar(u, RBRACE)
    ensures ObjectContent(u, k) == Pop(AfterBrace(u), k)
  {
    SkipBlanks([], u);
  }

  // ---------- Adjacent braces elsewhere ----------

  /** The last entry is an object closed directly against the brace of this one. */
  predicate Overruns(members: Members) {
    match members
    case NoMembers(_) => false
    case LastMember(_, entry, after) => entry.value.LObj? && Separated(entry.value) && after == []
    case NextMember(_, entry, _, more) => Separated(entry.value) && Overruns(more)
  }

  /** An object that is still open reads on at `tail` as it does after any entry. */
  ghost function ReadsOn(tail: Text, k: Store): Out
    requires k.Wf()
  {
    var s := AfterMember(SkipTrivia(tail), k);
    if s.Leave? then s.o else ObjectContent(s.rest, s.k)
  }

  /** The object's own brace is lost: with all its entries in place it stays open, and goes on to read
      what follows its text as if it were its own. */
  lemma {:induction false} OverrunRead(members: Members, tail: Text, k: Store, base: seq<nat>, o: nat, js: map<Text, Json>)
    returns (stored: Store)
    requires WfMembers(members) && Overruns(members)
    requires Top(k, base, o) && ReadsMap(k.heap, o + 1, k.heap[o], js)
    ensures Top(stored, base, o) && OnlyGrows(k, stored, o)
    ensures ReadsMap(stored.heap, o + 1, stored.heap[o], js + MembersValue(members))
    ensures ObjectContent(MembersThen(members, tail), k) == ReadsOn(tail, stored)
    decreases members
  {
    match members
    case LastMember(before, e, after) =>
      hide Member, ObjectStep, SkipTrivia, ParseValue, LayoutThen, EntryThen, Reads;
      var next := TriviaThen(after, Cons(RBRACE, tail));
      assert next == Cons(RBRACE, tail);
      stored := EntryRead(e, next, k, base, o, js);
      ObjectStepAt(before, EntryThen(e, next), k, tail, stored);
      StoreThenMerge(js, EntryKey(e), EntryValue(e), map[]);
    case NextMember(before, e, after, more) =>
      var next := MemberRead(before, e, after, COMMA, MembersThen(more, tail), k, base, o, js);
      stored := OverrunRead(more, tail, next, base, o, js[EntryKey(e) := EntryValue(e)]);
      StoreThenMerge(js, EntryKey(e), EntryValue(e), MembersValue(more));
  }
}
