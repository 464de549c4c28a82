/**
 What the parser reads of nested objects, whatever braces are adjacent. The text is taken as a sequence of
 tokens: entries, the openings of nested objects, and closing braces. Two adjacent closing braces close one
 object; `Left` says which tokens are left when an object closes, `Val` what it then holds.
 */
module DirtyJsonTokens {
  import opened CodePoints
  import opened DirtyJsonSpec
  import opened DirtyJsonLayout
  import opened DirtyJsonRoundTrip
  import opened DirtyJsonNesting

  /** The trivia in front of a token, with a comma or without. */
  datatype Lead = First(before: seq<Blank>) | Next(after: seq<Blank>, before: seq<Blank>)

  datatype Token =
    | Leaf(lead: Lead, entry: Entry)
    | Open(lead: Lead, entry: Entry)
    | Close(lead: Lead)

  // ---------- The text of a sequence of tokens ----------

  function LeadThen(lead: Lead, t: Text): Text {
    match lead
    case First(before) => TriviaThen(before, t)
    case Next(after, before) => TriviaThen(after, Cons(COMMA, TriviaThen(before, t)))
  }

  function BodyThen(token: Token, rest: Text): (r: Text)
    ensures r != []
  {
    match token
    case Leaf(_, entry) => EntryThen(entry, rest)
    case Open(_, entry) => HeadThen(entry, Cons(LBRACE, rest))
    case Close(_) => Cons(RBRACE, rest)
  }

  function TokensText(ts: seq<Token>): Text {
    if ts == [] then [] else LeadThen(ts[0].lead, BodyThen(ts[0], TokensText(ts[1..])))
  }

  predicate WfLead(lead: Lead) {
    match lead
    case First(before) => WfTrivia(before)
    case Next(after, before) => WfTrivia(after) && WfTrivia(before)
  }

  /** A leaf is no object and separated; commas stand between entries, and not behind an opening brace. */
  predicate WfToken(ts: seq<Token>, i: nat)
    requires i < |ts|
  {
    && WfLead(ts[i].lead)
    && (!ts[i].Close? ==> WfEntry(ts[i].entry))
    && (ts[i].Leaf? ==> !ts[i].entry.value.LObj? && Separated(ts[i].entry.value))
    && (ts[i].Open? ==> i + 1 < |ts| && ts[i + 1].lead.First?)
    && (!ts[i].Open? && i + 1 < |ts| && !ts[i + 1].Close? ==> ts[i + 1].lead.Next?)
  }

  predicate WfTokens(ts: seq<Token>) {
    forall i :: 0 <= i < |ts| ==> WfToken(ts, i)
  }

  lemma WfSuffix(ts: seq<Token>, n: nat)
    requires WfTokens(ts) && n <= |ts|
    ensures WfTokens(ts[n..])
  {
    forall i | 0 <= i < |ts[n..]| ensures WfToken(ts[n..], i) {
      assert WfToken(ts, n + i);
    }
  }

  // ---------- What is read ----------

  /** The first token is a closing brace with nothing in front. */
  predicate StartsClosed(ts: seq<Token>) {
    ts != [] && ts[0] == Close(First([]))
  }

  function AfterClose(ts: seq<Token>): (r: seq<Token>)
    ensures |r| <= |ts|
  {
    if StartsClosed(ts) then ts[1..] else ts
  }

  /** The tokens left when the object being read closes. */
  function Left(ts: seq<Token>): (r: seq<Token>)
    ensures |r| <= |ts| && (ts != [] ==> |r| < |ts|)
    decreases |ts|
  {
    if ts == [] then []
    else match ts[0]
      case Close(_) => AfterClose(ts[1..])
      case Leaf(_, _) => Left(ts[1..])
      case Open(_, _) => Left(Left(ts[1..]))
  }

  /** What a leaf adds to its object. */
  function LeafEntries(entry: Entry): map<Text, Json> {
    if WfEntry(entry) then map[EntryKey(entry) := EntryValue(entry)] else map[]
  }

  /** What an object with entries `js` adds to the object around it. */
  function OpenEntries(entry: Entry, js: map<Text, Json>): map<Text, Json> {
    if WfEntry(entry) then map[EntryKey(entry) := JObj(js)] else map[]
  }

  /** The entries it gets from them. */
  function Val(ts: seq<Token>): map<Text, Json>
    decreases |ts|
  {
    if ts == [] then map[]
    else match ts[0]
      case Close(_) => map[]
      case Leaf(_, entry) => LeafEntries(entry) + Val(ts[1..])
      case Open(_, entry) => OpenEntries(entry, Val(ts[1..])) + Val(Left(ts[1..]))
  }

  /** What is left are the last of the tokens. */
  lemma {:induction false} LeftSuffix(ts: seq<Token>)
    ensures Left(ts) == ts[|ts| - |Left(ts)|..]
    decreases |ts|
  {
    if ts != [] {
      var rest := ts[1..];
      match ts[0]
      case Close(_) => if StartsClosed(rest) { assert rest[1..] == ts[2..]; }
      case Leaf(_, _) =>
        LeftSuffix(rest);
        assert rest[|rest| - |Left(rest)|..] == ts[|ts| - |Left(rest)|..];
      case Open(_, _) =>
        var left := Left(rest);
        LeftSuffix(rest);
        LeftSuffix(left);
        assert left[|left| - |Left(left)|..] == ts[|ts| - |Left(left)|..];
    }
  }

  lemma WfLeft(ts: seq<Token>)
    requires WfTokens(ts)
    ensures WfTokens(Left(ts))
  {
    LeftSuffix(ts);
    WfSuffix(ts, |ts| - |Left(ts)|);
  }

  // ---------- The parser reads exactly that ----------

  lemma LeadHead(lead: Lead, t: Text)
    requires WfLead(lead) && t != []
    ensures var u := LeadThen(lead, t);
      u != [] && if lead == First([]) then u == t else IsSpace(u[0]) || u[0] == SLASH || u[0] == COMMA
  {
    match lead
    case First(before) => TriviaHead(before, t);
    case Next(after, before) => TriviaHead(after, Cons(COMMA, TriviaThen(before, t)));
  }

  lemma TextHead(ts: seq<Token>)
    requires WfTokens(ts) && ts != []
    ensures var t := TokensText(ts);
      && t != []
      && (ts[0].lead != First([]) ==> IsSpace(t[0]) || t[0] == SLASH || t[0] == COMMA)
      && (ts[0].lead == First([]) ==> t[0] == if ts[0].Close? then RBRACE else DQUOTE)
      && (StartsClosed(ts) ==> t[1..] == TokensText(ts[1..]))
  {
    assert WfToken(ts, 0);
    LeadHead(ts[0].lead, BodyThen(ts[0], TokensText(ts[1..])));
  }

  lemma TextAfterClose(ts: seq<Token>)
    requires WfTokens(ts)
    ensures AfterOwnBrace(TokensText(ts)) == TokensText(AfterClose(ts))
  {
    if ts != [] {
      TextHead(ts);
      hide TokensText, WfToken;
    }
  }

  lemma BehindTrivia(before: seq<Blank>, t: Text, k: Store)
    requires WfTrivia(before) && k.Wf() && t != [] && !OpensTrivia(t)
    ensures ObjectContent(TriviaThen(before, t), k) == ObjectContent(t, k)
  {
    TriviaHead(before, t);
    SkipBlanks(before, t);
    SkipBlanks([], t);
    SameStep(TriviaThen(before, t), t, k);
  }

  lemma SameStep(t: Text, u: Text, k: Store)
    requires k.Wf() && t != [] && u != [] && SkipTrivia(t) == SkipTrivia(u)
    ensures ObjectContent(t, k) == ObjectContent(u, k)
  {
    hide SkipTrivia, Member;
  }

  /** After an entry, with a comma or without, the object goes on at the next token. */
  lemma BehindLead(lead: Lead, t: Text, k: Store)
    requires WfLead(lead) && k.Wf() && t != [] && !OpensTrivia(t) && t[0] != COMMA
    ensures ReadsOn(LeadThen(lead, t), k) == ObjectContent(t, k)
  {
    hide ObjectContent;
    match lead
    case First(before) =>
      SkipBlanks(before, t);
    case Next(after, before) =>
      SkipBlanks(after, Cons(COMMA, TriviaThen(before, t)));
      BehindTrivia(before, t, k);
  }

  lemma BodyHead(token: Token, rest: Text)
    ensures var t := BodyThen(token, rest); t != [] && t[0] == if token.Close? then RBRACE else DQUOTE
    ensures !OpensTrivia(BodyThen(token, rest))
  {
  }

  lemma OnToken(ts: seq<Token>, k: Store)
    requires WfTokens(ts) && ts != [] && k.Wf()
    ensures var t := BodyThen(ts[0], TokensText(ts[1..]));
      && ReadsOn(TokensText(ts), k) == ObjectContent(t, k)
      && (ts[0].lead.First? ==> ObjectContent(TokensText(ts), k) == ObjectContent(t, k))
  {
    hide ReadsOn, ObjectContent, BodyThen;
    var t := BodyThen(ts[0], TokensText(ts[1..]));
    assert WfToken(ts, 0);
    BodyHead(ts[0], TokensText(ts[1..]));
    BehindLead(ts[0].lead, t, k);
    if ts[0].lead.First? { BehindTrivia(ts[0].lead.before, t, k); }
  }

  lemma EntryStep(t: Text, k: Store, rest: Text, stored: Store)
    requires k.Wf() && stored.Wf() && t != [] && t[0] == DQUOTE && Member(t, k) == Done(PyNone, rest, stored)
    ensures ObjectContent(t, k) == ReadsOn(rest, stored)
  {
    hide Member;
    ObjectStepAt([], t, k, rest, stored);
    assert TriviaThen([], t) == t;
  }

  lemma LeafFollowed(ts: seq<Token>)
    requires WfTokens(ts) && ts != [] && ts[0].Leaf?
    ensures Follows(ts[0].entry.value, TokensText(ts[1..]))
  {
    assert WfToken(ts, 0);
    WfSuffix(ts, 1);
    if ts[1..] != [] { TextHead(ts[1..]); }
  }

  lemma Enclosed(r: Out, rest: Text, k: Store, js: map<Text, Json>)
    requires k.Wf() && ClosesDict(r, rest, k.Push(Dict(map[])), k.stack, |k.heap|, js)
    ensures r.Done? && Yields(r.(v := PyRef(|k.heap|)), rest, k, JObj(js))
  {
    hide Reads, ReadsMap;
    assert map[] + js == js;
    EncloseDict(r.k, k, k.Push(Dict(map[])), js);
  }

  lemma ObjectFromContent(t: Text, rest: Text, k: Store, js: map<Text, Json>)
    requires k.Wf() && !StartsWithChar(t, LBRACE)
    requires var k' := k.Push(Dict(map[])); ClosesDict(ObjectContent(t, k'), rest, k', k.stack, |k.heap|, js)
    ensures Yields(ParseValue(Cons(LBRACE, t), k), rest, k, JObj(js))
  {
    hide ParseValue, ClosesDict, Yields, ObjectContent;
    ParseObjectAt(t, k);
    Enclosed(ObjectContent(t, k.Push(Dict(map[]))), rest, k, js);
  }

  lemma NothingYet(k: Store)
    requires k.Wf()
    ensures var k' := k.Push(Dict(map[])); Top(k', k.stack, |k.heap|) && ReadsMap(k'.heap, |k.heap| + 1, k'.heap[|k.heap|], map[])
  {
  }

  /** For every sequence of tokens: the object gets exactly the entries `Val`, and exactly `Left` is left. */
  lemma {:induction false} TokensRead(ts: seq<Token>, k: Store, base: seq<nat>, o: nat, js: map<Text, Json>)
    requires WfTokens(ts) && Top(k, base, o) && ReadsMap(k.heap, o + 1, k.heap[o], js)
    ensures ClosesDict(ReadsOn(TokensText(ts), k), TokensText(Left(ts)), k, base, o, js + Val(ts))
    decreases |ts|, 1
  {
    hide ReadsOn, TokensText, ObjectContent, ReadsMap;
    if ts == [] {
      EndOfText(k);
      assert js + map[] == js && TokensText([]) == [] by { NoText(); }
    } else {
      assert WfToken(ts, 0);
      WfSuffix(ts, 1);
      OnToken(ts, k);
      match ts[0]
      case Close(_) => CloseRead(ts, k, base, o, js);
      case Leaf(_, e) => LeafRead(ts, k, base, o, js);
      case Open(_, e) => OpenRead(ts, k, base, o, js);
    }
  }

  lemma CloseIs(ts: seq<Token>)
    requires WfTokens(ts) && ts != [] && ts[0].Close?
    ensures Val(ts) == map[] && Left(ts) == AfterClose(ts[1..])
    ensures BodyThen(ts[0], TokensText(ts[1..])) == Cons(RBRACE, TokensText(ts[1..]))
  {
    hide TokensText;
  }

  lemma CloseRead(ts: seq<Token>, k: Store, base: seq<nat>, o: nat, js: map<Text, Json>)
    requires WfTokens(ts) && ts != [] && ts[0].Close? && Top(k, base, o) && ReadsMap(k.heap, o + 1, k.heap[o], js)
    ensures ClosesDict(
      ObjectContent(BodyThen(ts[0], TokensText(ts[1..])), k), TokensText(Left(ts)), k, base, o, js + Val(ts))
  {
    CloseIs(ts);
    hide TokensText, ObjectContent, ReadsMap, Val, Left, BodyThen, WfToken;
    WfSuffix(ts, 1);
    NoBlanks(Cons(RBRACE, TokensText(ts[1..])));
    CloseObject([], TokensText(ts[1..]), k);
    TextAfterClose(ts[1..]);
    assert js + map[] == js;
  }

  lemma NoText()
    ensures TokensText([]) == []
  {
  }

  lemma EndOfText(k: Store)
    requires k.Wf()
    ensures ReadsOn([], k) == Pop([], k)
  {
  }

  lemma {:induction false} LeafRead(ts: seq<Token>, k: Store, base: seq<nat>, o: nat, js: map<Text, Json>)
    requires WfTokens(ts) && ts != [] && ts[0].Leaf? && Top(k, base, o) && ReadsMap(k.heap, o + 1, k.heap[o], js)
    ensures ClosesDict(
      ObjectContent(BodyThen(ts[0], TokensText(ts[1..])), k), TokensText(Left(ts)), k, base, o, js + Val(ts))
    decreases |ts|, 0
  {
    hide ReadsOn, TokensText, ObjectContent, ReadsMap, Member, Follows, EntryThen;
    var e, rest := ts[0].entry, TokensText(ts[1..]);
    assert WfToken(ts, 0);
    WfSuffix(ts, 1);
    LeafFollowed(ts);
    var stored := EntryRead(e, rest, k, base, o, js);
    EntryStep(EntryThen(e, rest), k, rest, stored);
    TokensRead(ts[1..], stored, base, o, js[EntryKey(e) := EntryValue(e)]);
    StoreThenMerge(js, EntryKey(e), EntryValue(e), Val(ts[1..]));
  }

  lemma {:induction false} OpenRead(ts: seq<Token>, k: Store, base: seq<nat>, o: nat, js: map<Text, Json>)
    requires WfTokens(ts) && ts != [] && ts[0].Open? && Top(k, base, o) && ReadsMap(k.heap, o + 1, k.heap[o], js)
    ensures ClosesDict(
      ObjectContent(BodyThen(ts[0], TokensText(ts[1..])), k), TokensText(Left(ts)), k, base, o, js + Val(ts))
    decreases |ts|, 0
  {
    hide ReadsOn, TokensText, ObjectContent, ReadsMap, Member, HeadThen, ParseValue, Reads;
    var e, inside := ts[0].entry, ts[1..];
    var t, left := TokensText(inside), Left(inside);
    assert WfToken(ts, 0);
    WfSuffix(ts, 1);
    WfLeft(inside);
    InnerRead(inside, k);
    var j := JObj(Val(inside));
    var stored := StoredEntry(e, Cons(LBRACE, t), k, ParseValue(Cons(LBRACE, t), k), j, base, o, js);
    EntryStep(HeadThen(e, Cons(LBRACE, t)), k, TokensText(left), stored);
    TokensRead(left, stored, base, o, js[EntryKey(e) := j]);
    StoreThenMerge(js, EntryKey(e), j, Val(left));
  }

  /** The value of an object, from its opening brace on. */
  lemma {:induction false} InnerRead(inside: seq<Token>, k: Store)
    requires WfTokens(inside) && inside != [] && inside[0].lead.First? && k.Wf()
    ensures Yields(ParseValue(Cons(LBRACE, TokensText(inside)), k), TokensText(Left(inside)), k, JObj(Val(inside)))
    decreases |inside|, 2
  {
    hide ReadsOn, ObjectContent, ReadsMap, TokensText, BodyThen, LeadThen, ClosesDict, Yields, Left, Val;
    var k' := k.Push(Dict(map[]));
    NothingYet(k);
    OnToken(inside, k');
    TextHead(inside);
    TokensRead(inside, k', k.stack, |k.heap|, map[]);
    assert map[] + Val(inside) == Val(inside);
    ObjectFromContent(TokensText(inside), TokensText(Left(inside)), k, Val(inside));
  }
}
