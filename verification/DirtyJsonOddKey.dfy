/**
 An object that comes back as it was written although the text starts with `{{` and the key behind it is
 not plain: the condition of `DirtyJsonDoubleBrace.DoubleBraceExactly` cannot be dropped.
 */
module DirtyJsonOddKey {
  import opened CodePoints
  import opened DirtyJsonSpec
  import opened DirtyJsonLayout
  import opened DirtyJsonRoundTrip
  import opened DirtyJsonNesting
  import opened DirtyJsonTokens
  import opened DirtyJsonTolerance
  import opened DirtyJsonDoubleBrace

  const B := 0x62

  /** `"b:'": 1` */
  function Odd(): Entry {
    Entry([Raw(B), Raw(COLON), Raw(SQUOTE)], [], [Space(SPACE)], LInt(false, [0x31]))
  }

  /** `"b": 2` */
  function Even(): Entry {
    Entry([Raw(B)], [], [Space(SPACE)], LInt(false, [0x32]))
  }

  /** The comment between them: a single quote, a comma, the first entry again, a comma, two slashes. */
  function Commented(): Text {
    [SPACE, SQUOTE, COMMA, SPACE, DQUOTE, B, COLON, SQUOTE, DQUOTE, COLON, SPACE, 0x31, COMMA, SPACE, SLASH, SLASH, SPACE]
  }

  /** The first entry, a comma, the comment, a line break, the second entry. */
  function Resumed(): Members {
    NextMember([], Odd(), [], LastMember([Space(SPACE), BlockComment(Commented()), Space(NEWLINE)], Even(), []))
  }

  /** What the parser sees of the comment when it has read the key up to its colon. */
  function Seen(): Members {
    NextMember([Space(SPACE)], Odd(), [], LastMember([Space(SPACE), LineComment([SPACE, STAR, SLASH])], Even(), []))
  }

  /** The text between the two single quotes. */
  function Between(): Text {
    [DQUOTE, COLON, SPACE, 0x31, COMMA, SPACE, SLASH, STAR, SPACE]
  }

  lemma TriviaCons(b: Blank, bs: seq<Blank>, t: Text)
    ensures TriviaThen([b] + bs, t) == BlankThen(b, TriviaThen(bs, t))
  {
    assert ([b] + bs)[1..] == bs;
  }

  lemma PiecesCons(c: int, ps: seq<Piece>, t: Text)
    ensures PiecesThen([Raw(c)] + ps, t) == [c] + PiecesThen(ps, t)
  {
    assert ([Raw(c)] + ps)[1..] == ps;
  }

  lemma NoPieces(t: Text)
    ensures PiecesThen([], t) == t
  {
  }

  lemma SpaceText(t: Text)
    ensures TriviaThen([Space(SPACE)], t) == [SPACE] + t
  {
    TriviaCons(Space(SPACE), [], t);
    NoBlanks(t);
  }

  lemma OddText(tail: Text)
    ensures EntryThen(Odd(), tail) == [DQUOTE, B, COLON, SQUOTE, DQUOTE, COLON, SPACE, 0x31] + tail
  {
    hide TriviaThen, PiecesThen;
    var value := [0x31] + tail;
    var colon := Cons(COLON, TriviaThen([Space(SPACE)], value));
    SpaceText(value);
    NoBlanks(colon);
    var t := Cons(DQUOTE, colon);
    assert Odd().key == [Raw(B)] + [Raw(COLON), Raw(SQUOTE)] && [Raw(COLON), Raw(SQUOTE)] == [Raw(COLON)] + [Raw(SQUOTE)];
    assert [Raw(SQUOTE)] + [] == [Raw(SQUOTE)];
    PiecesCons(B, [Raw(COLON), Raw(SQUOTE)], t);
    PiecesCons(COLON, [Raw(SQUOTE)], t);
    PiecesCons(SQUOTE, [], t);
    NoPieces(t);
  }

  lemma HiddenText(last: Text)
    ensures TriviaThen([Space(SPACE), BlockComment(Commented()), Space(NEWLINE)], last)
      == [SPACE, SLASH, STAR] + Commented() + [STAR, SLASH, NEWLINE] + last
  {
    hide TriviaThen;
    var block, line := BlockComment(Commented()), Space(NEWLINE);
    assert [Space(SPACE), block, line] == [Space(SPACE)] + [block, line] && [block, line] == [block] + [line] && [line] == [line] + [];
    TriviaCons(Space(SPACE), [BlockComment(Commented()), Space(NEWLINE)], last);
    TriviaCons(BlockComment(Commented()), [Space(NEWLINE)], last);
    TriviaCons(Space(NEWLINE), [], last);
    NoBlanks(last);
  }

  lemma ShownText(last: Text)
    ensures TriviaThen([Space(SPACE), LineComment([SPACE, STAR, SLASH])], last)
      == [SPACE, SLASH, SLASH, SPACE, STAR, SLASH, NEWLINE] + last
  {
    hide TriviaThen;
    var comment := LineComment([SPACE, STAR, SLASH]);
    assert [Space(SPACE), comment] == [Space(SPACE)] + [comment] && [comment] == [comment] + [];
    TriviaCons(Space(SPACE), [LineComment([SPACE, STAR, SLASH])], last);
    TriviaCons(LineComment([SPACE, STAR, SLASH]), [], last);
    NoBlanks(last);
  }

  function LastText(rest: Text): Text {
    EntryThen(Even(), TriviaThen([], Cons(RBRACE, rest)))
  }

  /** From the first quote to the line break. */
  function FirstLine(): Text {
    [DQUOTE, B, COLON, SQUOTE, DQUOTE, COLON, SPACE, 0x31] + [COMMA] + ([SPACE, SLASH, STAR] + Commented() + [STAR, SLASH, NEWLINE])
  }

  /** From the comment on, as an entry. */
  function SecondLook(): Text {
    [SPACE] + [DQUOTE, B, COLON, SQUOTE, DQUOTE, COLON, SPACE, 0x31] + [COMMA] + [SPACE, SLASH, SLASH, SPACE, STAR, SLASH, NEWLINE]
  }

  lemma SameLine()
    ensures FirstLine() == [DQUOTE, B, COLON, SQUOTE] + Between() + [SQUOTE] + [COMMA] + SecondLook()
  {
  }

  lemma Rebracket(a: Text, b: Text, c: Text, d: Text, e: Text)
    ensures a + (b + (c + d)) == (a + b + c) + d
    ensures a + (b + (c + (d + e))) == (a + b + c + d) + e
  {
  }

  lemma SeenText(rest: Text)
    ensures MembersThen(Seen(), rest) == SecondLook() + LastText(rest)
  {
    hide TriviaThen, EntryThen, LastText;
    var last := LastText(rest);
    assert last == EntryThen(Even(), TriviaThen([], Cons(RBRACE, rest))) by { LastIs(rest); }
    var shown := TriviaThen([Space(SPACE), LineComment([SPACE, STAR, SLASH])], last);
    ShownText(last);
    NoBlanks(Cons(COMMA, shown));
    OddText(Cons(COMMA, shown));
    SpaceText(EntryThen(Odd(), Cons(COMMA, shown)));
    Rebracket([SPACE], [DQUOTE, B, COLON, SQUOTE, DQUOTE, COLON, SPACE, 0x31], [COMMA], [SPACE, SLASH, SLASH, SPACE, STAR, SLASH, NEWLINE], last);
  }

  lemma LastIs(rest: Text)
    ensures LastText(rest) == EntryThen(Even(), TriviaThen([], Cons(RBRACE, rest)))
  {
  }

  lemma ResumedLine(rest: Text)
    ensures MembersThen(Resumed(), rest) == FirstLine() + LastText(rest)
  {
    hide TriviaThen, EntryThen, LastText, Commented;
    var last := LastText(rest);
    assert last == EntryThen(Even(), TriviaThen([], Cons(RBRACE, rest))) by { LastIs(rest); }
    var hidden := TriviaThen([Space(SPACE), BlockComment(Commented()), Space(NEWLINE)], last);
    HiddenText(last);
    NoBlanks(Cons(COMMA, hidden));
    OddText(Cons(COMMA, hidden));
    NoBlanks(EntryThen(Odd(), Cons(COMMA, hidden)));
    Rebracket([DQUOTE, B, COLON, SQUOTE, DQUOTE, COLON, SPACE, 0x31], [COMMA], [SPACE, SLASH, STAR] + Commented() + [STAR, SLASH, NEWLINE], last, []);
  }

  lemma ResumedText(rest: Text)
    ensures MembersThen(Resumed(), rest)
      == [DQUOTE, B, COLON, SQUOTE] + (Between() + Cons(SQUOTE, Cons(COMMA, MembersThen(Seen(), rest))))
  {
    ResumedLine(rest);
    SeenText(rest);
    SameLine();
    hide MembersThen, Between, FirstLine, SecondLook, LastText;
    Rebracket5([DQUOTE, B, COLON, SQUOTE], Between(), [SQUOTE], [COMMA], SecondLook(), LastText(rest));
  }

  lemma Rebracket5(a: Text, b: Text, c: Text, d: Text, e: Text, f: Text)
    ensures a + (b + (c + (d + (e + f)))) == (a + b + c + d + e) + f
  {
  }

  lemma EvenWf()
    ensures WfEntry(Even()) && EntryKey(Even()) == [B]
  {
    assert Even().key[1..] == [] && PiecesValue([]) == [];
    assert PiecesValue(Even().key) == [PieceValue(Raw(B))] + PiecesValue([]);
  }

  lemma OddWf()
    ensures WfMembers(Resumed()) && SeparatedMembers(Resumed()) && WfMembers(Seen()) && SeparatedMembers(Seen())
    ensures MembersValue(Resumed()) == MembersValue(Seen()) && [B] in MembersValue(Seen())
  {
    EvenWf();
    hide Even, PiecesValue, LayoutValue;
    assert WfBlank(LineComment([SPACE, STAR, SLASH]));
    assert WfBlank(BlockComment(Commented()));
    assert WfPieces(Odd().key) && WfEntry(Odd());
    EvenLayout();
  }

  lemma EvenLayout()
    ensures Even().value == LInt(false, [0x32])
  {
  }

  /** For other keys there is no such rule: this object starts with its first key, which holds a colon, and is
      read after `{{` exactly as it was written. */
  lemma OddKeyComesBack(rest: Text, k: Store)
    requires k.Wf()
    ensures WfMembers(Resumed()) && !FirstIsSpare(MembersThen(Resumed(), rest))
    ensures Yields(
      ParseValue(Cons(LBRACE, Cons(LBRACE, MembersThen(Resumed(), rest))), k), AfterOwnBrace(rest), k,
      JObj(MembersValue(Resumed())))
  {
    hide ParseValue, ObjectContent, Reads, ReadsMap, TriviaThen, Member, MembersThen, MembersValue, ClosesDict;
    OddWf();
    ResumedText(rest);
    hide Between, Seen, Resumed, WfMembers, SeparatedMembers;
    var next := MembersThen(Seen(), rest);
    var u, k' := [B, COLON, SQUOTE] + (Between() + Cons(SQUOTE, Cons(COMMA, next))), k.Push(Dict(map[]));
    assert MembersThen(Resumed(), rest) == Cons(DQUOTE, u);
    NothingYet(k);
    OddContent(u, rest, k', k.stack, |k.heap|);
    DoubleBraceText(DQUOTE, u, k);
    Enclosed(ObjectContent(u, k'), AfterOwnBrace(rest), k, MembersValue(Seen()));
  }

  lemma OddContent(u: Text, rest: Text, k: Store, base: seq<nat>, o: nat)
    requires Top(k, base, o) && ReadsMap(k.heap, o + 1, k.heap[o], map[])
    requires u == [B, COLON, SQUOTE] + (Between() + Cons(SQUOTE, Cons(COMMA, MembersThen(Seen(), rest))))
    requires WfMembers(Seen()) && SeparatedMembers(Seen()) && [B] in MembersValue(Seen())
    ensures ClosesDict(ObjectContent(u, k), AfterOwnBrace(rest), k, base, o, MembersValue(Seen()))
  {
    hide ObjectContent, Reads, ReadsMap, TriviaThen, MembersThen, MembersValue, WfMembers, SeparatedMembers;
    var next := MembersThen(Seen(), rest);
    var stored := OddStored(u, Cons(COMMA, next), k, base, o);
    NoBlanks(Cons(COMMA, next));
    AfterComma([], next, stored);
    var js := map[[B] := JStr(Between())];
    MembersRead(Seen(), rest, stored, base, o, js);
    assert js + MembersValue(Seen()) == MembersValue(Seen());
  }

  lemma OddStored(u: Text, tail: Text, k: Store, base: seq<nat>, o: nat) returns (stored: Store)
    requires Top(k, base, o) && ReadsMap(k.heap, o + 1, k.heap[o], map[])
    requires u == [B, COLON, SQUOTE] + (Between() + Cons(SQUOTE, tail))
    ensures Top(stored, base, o) && OnlyGrows(k, stored, o) && ObjectContent(u, k) == ReadsOn(tail, stored)
    ensures ReadsMap(stored.heap, o + 1, stored.heap[o], map[[B] := JStr(Between())])
  {
    hide ParseValue, ObjectContent, Reads, ReadsMap, Member, ParseKey, ReadsOn, Between, ColonThen, Yields, SkipTrivia, OnlyGrows;
    var value := Cons(SQUOTE, Between() + Cons(SQUOTE, tail));
    var e, j := Entry([], [], [], LNull), JStr(Between());
    KeyThenValue(u, Between() + Cons(SQUOTE, tail));
    OddKeyStart(u, value);
    OddValue(value, tail, k);
    stored := StoredUnder(u, [B], e, value, k, ParseValue(value, k), j, base, o, map[]);
    assert map[][[B] := j] == map[[B] := j];
    MemberThenOn(u, k, tail, stored);
  }

  lemma KeyThenValue(u: Text, t: Text)
    requires u == [B, COLON, SQUOTE] + t
    ensures u == [B] + Cons(COLON, Cons(SQUOTE, t))
  {
  }

  lemma OddValue(value: Text, tail: Text, k: Store)
    requires k.Wf() && value == Cons(SQUOTE, Between() + Cons(SQUOTE, tail))
    ensures var r := ParseValue(value, k); r.Done? && r.rest == tail && Yields(r, tail, k, JStr(Between()))
  {
    assert Quotable(Between(), SQUOTE) && Between() != [];
    hide ParseValue, ParseKey, Between, Yields, Quotable;
    QuotedByAny(SQUOTE, Between(), tail, k);
    TextValue(value, k, Between(), tail);
  }

  lemma OddKeyStart(u: Text, value: Text)
    requires u == [B] + Cons(COLON, value)
    ensures u[0] == B && !OpensTrivia(u) && SkipTrivia(u) == u
    ensures ParseKey(u) == Scan([B], ColonThen(Entry([], [], [], LNull), value))
  {
    hide ParseKey, TriviaThen, SkipTrivia;
    NoBlanks(value);
    NoBlanks(Cons(COLON, value));
    BareKey([B], Cons(COLON, value));
    NoBlanks(u);
    SkipBlanks([], u);
  }

  lemma TextValue(value: Text, k: Store, s: Text, tail: Text)
    requires k.Wf() && ParseValue(value, k) == Done(PyStr(s), tail, k)
    ensures Yields(ParseValue(value, k), tail, k, JStr(s))
  {
    hide ParseValue;
  }
}
