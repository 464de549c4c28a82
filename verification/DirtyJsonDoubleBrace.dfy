/**
 An object that opens with `{{`: the parser moves past both braces and one character more.
 */
module DirtyJsonDoubleBrace {
  import opened CodePoints
  import opened DirtyJsonSpec
  import opened DirtyJsonLayout
  import opened DirtyJsonRoundTrip
  import opened DirtyJsonNesting
  import opened DirtyJsonTokens
  import opened DirtyJsonCut
  import opened DirtyJsonTolerance

  /** Whatever the third character is, it is lost. */
  lemma DoubleBraceText(c: int, t: Text, k: Store)
    requires k.Wf()
    ensures var r := ObjectContent(t, k.Push(Dict(map[])));
      ParseValue(Cons(LBRACE, Cons(LBRACE, Cons(c, t))), k) == if r.Raised? then r else r.(v := PyRef(|k.heap|))
  {
    hide ObjectContent;
    SkipBlanks([], Cons(LBRACE, Cons(LBRACE, Cons(c, t))));
    assert Drop(Cons(LBRACE, Cons(LBRACE, Cons(c, t))), 3) == t;
  }

  /** The text is skipped with its first character or without it: it starts with a blank, or with a line
      comment whose slashes are three. */
  predicate FirstIsSpare(t: Text) {
    |t| > 1 && (IsSpace(t[0]) || (|t| > 2 && t[0] == SLASH && t[1] == SLASH && t[2] == SLASH))
  }

  /** Then two braces are as good as one. */
  lemma DoubleBraceSpare(t: Text, k: Store)
    requires k.Wf() && FirstIsSpare(t)
    ensures ParseValue(Cons(LBRACE, Cons(LBRACE, t)), k) == ParseValue(Cons(LBRACE, t), k)
  {
    var k' := k.Push(Dict(map[]));
    assert t == Cons(t[0], t[1..]);
    DoubleBraceText(t[0], t[1..], k);
    ParseObjectAt(t, k);
    assert SkipTrivia(t) == SkipTrivia(t[1..]) by {
      if !IsSpace(t[0]) { assert SkipLine(t) == SkipLine(t[1..]); }
    }
    SameStep(t, t[1..], k');
  }

  /** An empty object loses its closing brace, and reads what follows as its content: it is empty at the end of
      the text or before another closing brace, but has the members of any object text that follows. */
  lemma DoubleBraceEmpty(members: Members, rest: Text, k: Store)
    requires k.Wf() && WfMembers(members) && SeparatedMembers(members)
    ensures ParseValue(Cons(LBRACE, Cons(LBRACE, [RBRACE])), k) == Done(PyRef(|k.heap|), [], k.Push(Dict(map[])))
    ensures Yields(
      ParseValue(Cons(LBRACE, Cons(LBRACE, Cons(RBRACE, MembersThen(members, rest)))), k), AfterOwnBrace(rest), k,
      JObj(MembersValue(members)))
  {
    hide ParseValue, ReadsMap, MembersThen, MembersValue, WfMembers, SeparatedMembers, ClosesDict, Yields;
    assert [RBRACE] == Cons(RBRACE, []);
    DoubleBraceText(RBRACE, [], k);
    hide ObjectContent;
    var t, k' := MembersThen(members, rest), k.Push(Dict(map[]));
    NothingYet(k);
    MembersRead(members, rest, k', k.stack, |k.heap|, map[]);
    assert map[] + MembersValue(members) == MembersValue(members);
    DoubleBraceText(RBRACE, t, k);
    Enclosed(ObjectContent(t, k'), AfterOwnBrace(rest), k, MembersValue(members));
  }

  /** What is left of a first key without its opening quote. */
  function CutKeyText(e: Entry): Text {
    PiecesThen(e.key, [DQUOTE])
  }

  /** That is a key without quotes, which no comment follows. */
  predicate BareWithoutQuote(e: Entry) {
    WfBareKey(CutKeyText(e)) && (e.beforeColon == [] || e.beforeColon[0].Space?)
  }

  lemma {:induction false} KeyShorter(ps: seq<Piece>, t: Text)
    requires WfPieces(ps)
    ensures |PiecesThen(ps, t)| >= |PiecesValue(ps)| + |t|
  {
    if ps != [] { KeyShorter(ps[1..], t); }
  }

  /** The entries after the first. */
  function Others(members: Members): (r: map<Text, Json>)
    requires WfMembers(members)
  {
    match members
    case NextMember(_, _, _, more) => MembersValue(more)
    case _ => map[]
  }

  /** Without its opening quote the first key is read together with its closing quote. */
  lemma CutKeyRead(e: Entry, value: Text)
    requires WfEntry(e) && BareWithoutQuote(e)
    ensures HeadThen(e, value) != []
    ensures var t := HeadThen(e, value)[1..];
      t != [] && t[0] != RBRACE && !OpensTrivia(t) && ParseKey(t) == Scan(CutKeyText(e), ColonThen(e, value))
  {
    var colon := ColonThen(e, value);
    var t := HeadThen(e, value)[1..];
    assert [DQUOTE] + colon == Cons(DQUOTE, colon);
    PiecesAppend(e.key, [DQUOTE], colon);
    assert t == CutKeyText(e) + colon;
    BareKey(CutKeyText(e), colon);
    assert t[0] == CutKeyText(e)[0];
  }

  /** What follows the value of the first entry. */
  function FirstTail(members: Members, rest: Text): Text
    requires !members.NoMembers?
  {
    match members
    case LastMember(_, _, after) => TriviaThen(after, Cons(RBRACE, rest))
    case NextMember(_, _, after, more) => TriviaThen(after, Cons(COMMA, MembersThen(more, rest)))
  }

  /** From the tail of the first entry on, the object gets the others. */
  lemma TailRead(members: Members, rest: Text, k: Store, base: seq<nat>, o: nat, js: map<Text, Json>)
    requires WfMembers(members) && SeparatedMembers(members) && !members.NoMembers?
    requires Top(k, base, o) && ReadsMap(k.heap, o + 1, k.heap[o], js)
    ensures ClosesDict(ReadsOn(FirstTail(members, rest), k), AfterOwnBrace(rest), k, base, o, js + Others(members))
  {
    hide ObjectContent, ReadsMap;
    match members
    case LastMember(_, _, after) =>
      BehindLead(First(after), Cons(RBRACE, rest), k);
      CloseObject([], rest, k);
      NoBlanks(Cons(RBRACE, rest));
      assert js + map[] == js;
    case NextMember(_, _, after, more) =>
      AfterComma(after, MembersThen(more, rest), k);
      MembersRead(more, rest, k, base, o, js);
  }

  lemma AfterComma(after: seq<Blank>, next: Text, k: Store)
    requires WfTrivia(after) && k.Wf()
    ensures ReadsOn(TriviaThen(after, Cons(COMMA, next)), k) == ObjectContent(next, k)
  {
    SkipBlanks(after, Cons(COMMA, next));
  }

  lemma FirstValue(members: Members, rest: Text, k: Store)
    requires WfMembers(members) && SeparatedMembers(members) && !members.NoMembers? && k.Wf()
    ensures var e, tail := members.entry, FirstTail(members, rest);
      WfEntry(e) && Yields(ParseValue(LayoutThen(e.value, tail), k), tail, k, EntryValue(e))
  {
    match members
    case LastMember(_, e, after) =>
      FollowsTrivia(e.value, after, RBRACE, rest);
      ValueRead(e.value, FirstTail(members, rest), k);
    case NextMember(_, e, after, more) =>
      FollowsTrivia(e.value, after, COMMA, MembersThen(more, rest));
      ValueRead(e.value, FirstTail(members, rest), k);
  }

  /** An object whose first key is read as `key`, and all the rest as it is. */
  lemma FirstRenamed(members: Members, rest: Text, u: Text, key: Text, k: Store, base: seq<nat>, o: nat)
    requires WfMembers(members) && SeparatedMembers(members) && !members.NoMembers?
    requires Top(k, base, o) && ReadsMap(k.heap, o + 1, k.heap[o], map[])
    requires u != [] && u[0] != RBRACE && !OpensTrivia(u)
    requires ParseKey(u) == Scan(key, ColonThen(members.entry, LayoutThen(members.entry.value, FirstTail(members, rest))))
    ensures WfEntry(members.entry)
    ensures ClosesDict(
      ObjectContent(u, k), AfterOwnBrace(rest), k, base, o, map[key := EntryValue(members.entry)] + Others(members))
  {
    hide ParseValue, ObjectContent, Reads, ReadsMap, TriviaThen, LayoutThen, Member, ParseKey, WfMembers, SeparatedMembers, FirstTail;
    FirstValue(members, rest, k);
    var e, tail := members.entry, FirstTail(members, rest);
    var value := LayoutThen(e.value, tail);
    LayoutHead(e.value, tail) by { EntryWf(e); }
    var j := EntryValue(e);
    var stored := StoredUnder(u, key, e, value, k, ParseValue(value, k), j, base, o, map[]);
    assert map[][key := j] == map[key := j];
    MemberThenOn(u, k, tail, stored);
    TailRead(members, rest, stored, base, o, map[key := j]);
  }

  lemma EntryWf(e: Entry)
    requires WfEntry(e)
    ensures WfLayout(e.value)
  {
  }

  lemma MemberThenOn(u: Text, k: Store, tail: Text, stored: Store)
    requires k.Wf() && stored.Wf() && stored.stack != [] && u != [] && u[0] != RBRACE && !OpensTrivia(u)
    requires Member(u, k) == Done(PyNone, tail, stored)
    ensures ObjectContent(u, k) == ReadsOn(tail, stored)
  {
    hide Member;
    NoBlanks(u);
    SkipBlanks([], u);
    AfterStored(u, u, k, tail, stored);
  }

  /** An object that starts with its first key: the key gets its closing quote as a part. */
  lemma DoubleBraceKey(members: Members, rest: Text, k: Store)
    requires WfMembers(members) && SeparatedMembers(members) && k.Wf()
    requires !members.NoMembers? && members.before == [] && WfEntry(members.entry) && BareWithoutQuote(members.entry)
    ensures Yields(
      ParseValue(Cons(LBRACE, Cons(LBRACE, MembersThen(members, rest))), k), AfterOwnBrace(rest), k,
      JObj(map[CutKeyText(members.entry) := EntryValue(members.entry)] + Others(members)))
  {
    hide ParseValue, ObjectContent, Reads, ReadsMap, TriviaThen, LayoutThen, HeadThen, ClosesDict, Member, FirstTail, Others, SeparatedMembers;
    var e, t := members.entry, MembersThen(members, rest);
    var value := LayoutThen(e.value, FirstTail(members, rest));
    assert t == HeadThen(e, value) by { StartsWithKey(members, rest); }
    CutKeyRead(e, value);
    var u, k' := t[1..], k.Push(Dict(map[]));
    NothingYet(k);
    FirstRenamed(members, rest, u, CutKeyText(e), k', k.stack, |k.heap|);
    assert t == Cons(t[0], u);
    DoubleBraceText(t[0], u, k);
    var js := map[CutKeyText(e) := EntryValue(e)] + Others(members);
    Enclosed(ObjectContent(u, k'), AfterOwnBrace(rest), k, js);
  }

  lemma StartsWithKey(members: Members, rest: Text)
    requires !members.NoMembers? && members.before == []
    ensures MembersThen(members, rest) == HeadThen(members.entry, LayoutThen(members.entry.value, FirstTail(members, rest)))
  {
  }

  /** An object that starts with a spare character or with a plain key, its keys distinct: after `{{` it is
      read as it was written if and only if it starts with a spare character. */
  lemma DoubleBraceExactly(members: Members, rest: Text, k: Store)
    requires WfMembers(members) && SeparatedMembers(members) && k.Wf() && !members.NoMembers? && WfEntry(members.entry)
    requires FirstIsSpare(MembersThen(members, rest)) || (members.before == [] && BareWithoutQuote(members.entry))
    requires EntryKey(members.entry) !in Others(members)
    ensures var r := ParseValue(Cons(LBRACE, Cons(LBRACE, MembersThen(members, rest))), k);
      && r.Done?
      && (Reads(r.k.heap, |k.heap|, r.v, JObj(MembersValue(members))) <==> FirstIsSpare(MembersThen(members, rest)))
  {
    hide ParseValue, Reads, SeparatedMembers;
    var e, t := members.entry, MembersThen(members, rest);
    if FirstIsSpare(t) {
      hide WfMembers, MembersThen, FirstIsSpare;
      DoubleBraceSpare(t, k);
      ObjectRead(members, rest, k);
    } else {
      DoubleBraceKey(members, rest, k);
      KeyShorter(e.key, [DQUOTE]);
      var r := ParseValue(Cons(LBRACE, Cons(LBRACE, t)), k);
      var js := map[CutKeyText(e) := EntryValue(e)] + Others(members);
      assert EntryKey(e) in MembersValue(members) && EntryKey(e) !in js;
      if Reads(r.k.heap, |k.heap|, r.v, JObj(MembersValue(members))) {
        ReadsUnique(r.k.heap, |k.heap|, r.v, JObj(js), JObj(MembersValue(members)));
      }
    }
  }
}
