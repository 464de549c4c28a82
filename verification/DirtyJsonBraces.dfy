/**
 When a nested object comes back as it was written, whatever braces are adjacent in its text. The tokens of
 the text are compared with what the parser makes of them; the parser plays no part any more.
 */
module DirtyJsonBraces {
  import opened CodePoints
  import opened DirtyJsonSpec
  import opened DirtyJsonLayout
  import opened DirtyJsonRoundTrip
  import opened DirtyJsonNesting
  import opened DirtyJsonTokens
  import opened DirtyJsonTools

  // ---------- The tokens of an object ----------

  /** What stands in front of the next entry: the opening brace, or the entry before with the trivia after it. */
  datatype Position = AtStart | AfterEntry(after: seq<Blank>)

  function LeadAt(at: Position, before: seq<Blank>): Lead {
    if at.AtStart? then First(before) else Next(at.after, before)
  }

  /** The tokens of the inside of an object up to its brace, followed by `rest`. */
  function Tokens(members: Members, at: Position, rest: seq<Token>): seq<Token>
    decreases members
  {
    match members
    case NoMembers(end) => [Close(LeadAt(at, end))] + rest
    case LastMember(before, entry, after) => EntryTokens(entry, LeadAt(at, before), [Close(First(after))] + rest)
    case NextMember(before, entry, after, more) =>
      EntryTokens(entry, LeadAt(at, before), Tokens(more, AfterEntry(after), rest))
  }

  function EntryTokens(entry: Entry, lead: Lead, rest: seq<Token>): seq<Token>
    decreases entry
  {
    match entry.value
    case LObj(members) => [Open(lead, entry)] + Tokens(members, AtStart, rest)
    case _ => [Leaf(lead, entry)] + rest
  }

  /** Every value that is not an object is separated. */
  predicate LeavesSeparated(members: Members) {
    match members
    case NoMembers(_) => true
    case LastMember(_, entry, _) => LeafSeparated(entry)
    case NextMember(_, entry, _, more) => LeafSeparated(entry) && LeavesSeparated(more)
  }

  predicate LeafSeparated(entry: Entry) {
    match entry.value
    case LObj(members) => LeavesSeparated(members)
    case _ => Separated(entry.value)
  }

  function AtThen(at: Position, t: Text): Text {
    if at.AtStart? then t else TriviaThen(at.after, Cons(COMMA, t))
  }

  predicate WfAt(at: Position) {
    at.AfterEntry? ==> WfTrivia(at.after)
  }

  lemma {:induction false} TokensAreText(members: Members, at: Position, rest: seq<Token>)
    ensures TokensText(Tokens(members, at, rest)) == AtThen(at, MembersThen(members, TokensText(rest)))
    decreases members, 1
  {
    match members
    case NoMembers(end) =>
      assert ([Close(LeadAt(at, end))] + rest)[1..] == rest;
    case LastMember(before, entry, after) =>
      var close := [Close(First(after))] + rest;
      assert close[1..] == rest;
      EntryTokensAreText(entry, LeadAt(at, before), close);
    case NextMember(before, entry, after, more) =>
      TokensAreText(more, AfterEntry(after), rest);
      EntryTokensAreText(entry, LeadAt(at, before), Tokens(more, AfterEntry(after), rest));
  }

  lemma {:induction false} EntryTokensAreText(entry: Entry, lead: Lead, rest: seq<Token>)
    ensures TokensText(EntryTokens(entry, lead, rest)) == LeadThen(lead, EntryThen(entry, TokensText(rest)))
    decreases entry, 0
  {
    match entry.value
    case LObj(members) =>
      TokensAreText(members, AtStart, rest);
      assert EntryTokens(entry, lead, rest)[1..] == Tokens(members, AtStart, rest);
    case _ =>
      assert EntryTokens(entry, lead, rest)[1..] == rest;
  }

  /** `rest` may follow an object or a leaf: closing braces, or an entry behind a comma. */
  predicate Continues(rest: seq<Token>) {
    WfTokens(rest) && (rest != [] && !rest[0].Close? ==> rest[0].lead.Next?)
  }

  lemma WfPrepend(token: Token, rest: seq<Token>)
    requires WfTokens(rest) && WfLead(token.lead) && (!token.Close? ==> WfEntry(token.entry))
    requires token.Leaf? ==> !token.entry.value.LObj? && Separated(token.entry.value)
    requires if token.Open? then rest != [] && rest[0].lead.First? else Continues(rest)
    ensures WfTokens([token] + rest)
  {
    var ts := [token] + rest;
    assert ts[1..] == rest;
    forall i | 0 <= i < |ts| ensures WfToken(ts, i) {
      if i > 0 { assert WfToken(rest, i - 1); }
    }
  }

  lemma {:induction false} TokensWf(members: Members, at: Position, rest: seq<Token>)
    requires WfMembers(members) && LeavesSeparated(members) && WfAt(at) && Continues(rest)
    ensures var ts := Tokens(members, at, rest);
      WfTokens(ts) && ts != [] && if at.AtStart? then ts[0].lead.First? else ts[0].lead.Next?
    decreases members, 1
  {
    match members
    case NoMembers(end) =>
      WfPrepend(Close(LeadAt(at, end)), rest);
    case LastMember(before, entry, after) =>
      WfPrepend(Close(First(after)), rest);
      EntryTokensWf(entry, LeadAt(at, before), [Close(First(after))] + rest);
    case NextMember(before, entry, after, more) =>
      TokensWf(more, AfterEntry(after), rest);
      EntryTokensWf(entry, LeadAt(at, before), Tokens(more, AfterEntry(after), rest));
  }

  lemma {:induction false} EntryTokensWf(entry: Entry, lead: Lead, rest: seq<Token>)
    requires WfEntry(entry) && LeafSeparated(entry) && WfLead(lead) && Continues(rest)
    ensures var ts := EntryTokens(entry, lead, rest); WfTokens(ts) && ts != [] && ts[0].lead == lead
    decreases entry, 0
  {
    match entry.value
    case LObj(members) =>
      assert WfLayout(entry.value);
      TokensWf(members, AtStart, rest);
      WfPrepend(Open(lead, entry), Tokens(members, AtStart, rest));
    case _ =>
      WfPrepend(Leaf(lead, entry), rest);
  }

  // ---------- Closing braces taken two at a time ----------

  predicate Ready(members: Members, at: Position, rest: seq<Token>) {
    WfMembers(members) && LeavesSeparated(members) && WfAt(at) && Continues(rest)
  }

  /** Two closing braces are taken as one before the object closes. */
  predicate Jumps(ts: seq<Token>)
    decreases |ts|
  {
    ts != []
    && match ts[0]
       case Close(_) => StartsClosed(ts[1..])
       case Leaf(_, _) => Jumps(ts[1..])
       case Open(_, _) => Jumps(ts[1..]) || Jumps(Left(ts[1..]))
  }

  /** Objects opened less objects closed. */
  function Net(ts: seq<Token>): int {
    if ts == [] then 0 else (match ts[0] case Close(_) => -1 case Leaf(_, _) => 0 case Open(_, _) => 1) + Net(ts[1..])
  }

  /** The tokens that an object uses up close more objects than they open, one more for two taken as one. */
  lemma {:induction false} Spent(ts: seq<Token>)
    ensures Left(ts) != [] ==> Net(ts) - Net(Left(ts)) <= if Jumps(ts) then -2 else -1
    decreases |ts|
  {
    if ts != [] {
      match ts[0]
      case Close(_) =>
        if StartsClosed(ts[1..]) { assert ts[1..][0].Close?; }
      case Leaf(_, _) => Spent(ts[1..]);
      case Open(_, _) =>
        Spent(ts[1..]);
        Spent(Left(ts[1..]));
    }
  }

  /** The tokens of an entry, one step on. */
  lemma EntryParts(entry: Entry, lead: Lead, rest: seq<Token>)
    requires WfEntry(entry) && LeafSeparated(entry) && WfLead(lead) && Continues(rest)
    ensures var ts := EntryTokens(entry, lead, rest);
      && WfTokens(ts) && WfTokens(rest)
      && if !entry.value.LObj? then
           && Left(ts) == Left(rest) && Jumps(ts) == Jumps(rest) && Net(ts) == Net(rest)
           && Val(ts) == map[EntryKey(entry) := EntryValue(entry)] + Val(rest)
         else
           var inner := Tokens(entry.value.members, AtStart, rest);
           && Ready(entry.value.members, AtStart, rest) && WfTokens(inner) && WfTokens(Left(inner))
           && Left(ts) == Left(Left(inner)) && Jumps(ts) == (Jumps(inner) || Jumps(Left(inner))) && Net(ts) == 1 + Net(inner)
           && Val(ts) == map[EntryKey(entry) := JObj(Val(inner))] + Val(Left(inner))
  {
    EntryTokensWf(entry, lead, rest);
    if entry.value.LObj? {
      InnerReady(entry, rest);
      var ts, inner := EntryTokens(entry, lead, rest), Tokens(entry.value.members, AtStart, rest);
      FirstAndRest(Open(lead, entry), inner, ts);
      hide Tokens, EntryTokens, Ready, Continues, LeafSeparated, WfTokens, WfEntry, Left, Val, Jumps, Net;
      WfLeft(inner);
      OpenVal(ts, entry, lead);
      OpenLeft(ts);
    } else {
      LeafStep(entry, lead, rest);
    }
  }

  lemma InnerReady(entry: Entry, rest: seq<Token>)
    requires WfEntry(entry) && LeafSeparated(entry) && Continues(rest) && entry.value.LObj?
    ensures Ready(entry.value.members, AtStart, rest) && WfTokens(Tokens(entry.value.members, AtStart, rest))
  {
    assert WfLayout(entry.value);
    TokensWf(entry.value.members, AtStart, rest);
  }

  lemma FirstAndRest(token: Token, rest: seq<Token>, ts: seq<Token>)
    requires ts == [token] + rest
    ensures ts != [] && ts[0] == token && ts[1..] == rest
  {
  }

  lemma OpenVal(ts: seq<Token>, entry: Entry, lead: Lead)
    requires WfTokens(ts) && ts != [] && ts[0] == Open(lead, entry) && WfTokens(ts[1..]) && WfTokens(Left(ts[1..])) && WfEntry(entry)
    ensures Val(ts) == map[EntryKey(entry) := JObj(Val(ts[1..]))] + Val(Left(ts[1..]))
  {
    hide Left;
  }

  lemma OpenLeft(ts: seq<Token>)
    requires ts != [] && ts[0].Open?
    ensures Left(ts) == Left(Left(ts[1..])) && Jumps(ts) == (Jumps(ts[1..]) || Jumps(Left(ts[1..]))) && Net(ts) == 1 + Net(ts[1..])
  {
  }

  lemma LeafStep(entry: Entry, lead: Lead, rest: seq<Token>)
    requires WfEntry(entry) && WfTokens(rest) && WfTokens([Leaf(lead, entry)] + rest)
    ensures var ts := [Leaf(lead, entry)] + rest;
      && Left(ts) == Left(rest) && Jumps(ts) == Jumps(rest) && Net(ts) == Net(rest)
      && Val(ts) == map[EntryKey(entry) := EntryValue(entry)] + Val(rest)
  {
    assert ([Leaf(lead, entry)] + rest)[1..] == rest;
  }

  lemma ObjectValue(entry: Entry)
    requires WfEntry(entry) && entry.value.LObj?
    ensures WfMembers(entry.value.members) && EntryValue(entry) == JObj(MembersValue(entry.value.members))
  {
    assert WfLayout(entry.value);
    assert LayoutValue(entry.value) == JObj(MembersValue(entry.value.members));
  }

  /** The closing brace of the object, with what stands in front. */
  lemma CloseParts(lead: Lead, rest: seq<Token>)
    requires WfLead(lead) && Continues(rest)
    ensures var ts := [Close(lead)] + rest;
      && Continues(ts) && Left(ts) == AfterClose(rest) && Jumps(ts) == StartsClosed(rest) && Net(ts) == Net(rest) - 1
      && Val(ts) == map[] && (StartsClosed(ts) <==> lead == First([]))
  {
    WfPrepend(Close(lead), rest);
    assert ([Close(lead)] + rest)[1..] == rest;
  }

  /** The tokens of an object, one entry on. */
  lemma LastParts(before: seq<Blank>, entry: Entry, after: seq<Blank>, at: Position, rest: seq<Token>)
    requires Ready(LastMember(before, entry, after), at, rest)
    ensures WfEntry(entry) && LeafSeparated(entry) && WfLead(LeadAt(at, before))
    ensures var close := [Close(First(after))] + rest;
      && Tokens(LastMember(before, entry, after), at, rest) == EntryTokens(entry, LeadAt(at, before), close)
      && Continues(close) && Left(close) == AfterClose(rest) && Jumps(close) == StartsClosed(rest) && Net(close) == Net(rest) - 1
      && Val(close) == map[] && (StartsClosed(close) <==> after == [])
  {
    CloseParts(First(after), rest);
  }

  lemma NextParts(before: seq<Blank>, entry: Entry, after: seq<Blank>, more: Members, at: Position, rest: seq<Token>)
    requires Ready(NextMember(before, entry, after, more), at, rest)
    ensures WfEntry(entry) && LeafSeparated(entry) && WfLead(LeadAt(at, before)) && Ready(more, AfterEntry(after), rest)
    ensures var next := Tokens(more, AfterEntry(after), rest);
      && Tokens(NextMember(before, entry, after, more), at, rest) == EntryTokens(entry, LeadAt(at, before), next)
      && Continues(next) && !StartsClosed(next)
  {
    TokensWf(more, AfterEntry(after), rest);
  }

  lemma AddNothing(key: Text, j: Json)
    ensures map[key := j] + map[] == map[key := j]
  {
  }

  /** A separated object takes its own tokens, and a brace that follows directly. */
  lemma {:induction false} SeparatedTokens(members: Members, at: Position, rest: seq<Token>)
    requires Ready(members, at, rest) && SeparatedMembers(members)
    ensures var ts := Tokens(members, at, rest);
      WfTokens(ts) && Left(ts) == AfterClose(rest) && Val(ts) == MembersValue(members) && Jumps(ts) == StartsClosed(rest)
    decreases members, 1
  {
    match members
    case NoMembers(end) =>
      hide Left, Val, Jumps, Net, WfTokens;
      CloseParts(LeadAt(at, end), rest);
    case LastMember(before, entry, after) =>
      hide Left, Val, Jumps, Net, WfTokens, Tokens, EntryTokens, LeafSeparated, WfEntry;
      LastParts(before, entry, after, at, rest);
      SeparatedEntry(entry, LeadAt(at, before), [Close(First(after))] + rest);
      AddNothing(EntryKey(entry), EntryValue(entry));
    case NextMember(before, entry, after, more) =>
      hide Left, Val, Jumps, Net, WfTokens, Tokens, EntryTokens, LeafSeparated, WfEntry;
      NextParts(before, entry, after, more, at, rest);
      SeparatedTokens(more, AfterEntry(after), rest);
      SeparatedEntry(entry, LeadAt(at, before), Tokens(more, AfterEntry(after), rest));
  }

  lemma {:induction false} SeparatedEntry(entry: Entry, lead: Lead, rest: seq<Token>)
    requires WfEntry(entry) && LeafSeparated(entry) && WfLead(lead) && Continues(rest)
    requires Separated(entry.value) && (entry.value.LObj? ==> !StartsClosed(rest))
    ensures var ts := EntryTokens(entry, lead, rest);
      && WfTokens(ts) && Left(ts) == Left(rest) && Jumps(ts) == Jumps(rest)
      && Val(ts) == map[EntryKey(entry) := EntryValue(entry)] + Val(rest)
    decreases entry, 0
  {
    hide Left, Val, Jumps, Net, WfTokens, Tokens, EntryTokens;
    EntryParts(entry, lead, rest);
    if entry.value.LObj? {
      ObjectValue(entry);
      SeparatedTokens(entry.value.members, AtStart, rest);
    }
  }

  // ---------- Where the extra brace shows ----------

  /** An object that is not separated takes two braces as one on the way. */
  lemma {:induction false} UnseparatedJumps(members: Members, at: Position, rest: seq<Token>)
    requires Ready(members, at, rest) && !SeparatedMembers(members)
    ensures Jumps(Tokens(members, at, rest))
    decreases members, 1
  {
    hide Left, Val, Jumps, Net, WfTokens, Tokens, EntryTokens, WfEntry;
    match members
    case LastMember(before, entry, after) =>
      LastParts(before, entry, after, at, rest);
      var close := [Close(First(after))] + rest;
      EntryParts(entry, LeadAt(at, before), close);
      assert entry.value.LObj?;
      if SeparatedMembers(entry.value.members) {
        SeparatedTokens(entry.value.members, AtStart, close);
      } else {
        UnseparatedJumps(entry.value.members, AtStart, close);
      }
    case NextMember(before, entry, after, more) =>
      NextParts(before, entry, after, more, at, rest);
      var next := Tokens(more, AfterEntry(after), rest);
      if Separated(entry.value) {
        SeparatedEntry(entry, LeadAt(at, before), next);
        UnseparatedJumps(more, AfterEntry(after), rest);
      } else {
        EntryParts(entry, LeadAt(at, before), next);
        UnseparatedJumps(entry.value.members, AtStart, next);
      }
  }

  predicate IsSuffix(s: seq<Token>, ts: seq<Token>) {
    |s| <= |ts| && ts[|ts| - |s|..] == s
  }

  lemma SuffixOf(s: seq<Token>, t: seq<Token>, ts: seq<Token>)
    requires IsSuffix(s, ts) && IsSuffix(t, ts) && |s| <= |t|
    ensures IsSuffix(s, t)
  {
    assert t[|t| - |s|..] == ts[|ts| - |s|..];
  }

  lemma SuffixOfCons(token: Token, t: seq<Token>, ts: seq<Token>)
    requires ts == [token] + t
    ensures IsSuffix(t, ts) && (forall s :: IsSuffix(s, t) ==> IsSuffix(s, ts))
    ensures forall s :: IsSuffix(s, ts) ==> s == ts || IsSuffix(s, t)
  {
    forall s | IsSuffix(s, t) ensures IsSuffix(s, ts) {
      assert ts[|ts| - |s|..] == t[|t| - |s|..];
    }
    assert ts[0..] == ts;
    forall s | IsSuffix(s, ts) && s != ts ensures IsSuffix(s, t) {
      assert t[|t| - |s|..] == ts[|ts| - |s|..];
    }
  }

  lemma SuffixTrans(s: seq<Token>, t: seq<Token>, ts: seq<Token>)
    requires IsSuffix(s, t) && IsSuffix(t, ts)
    ensures IsSuffix(s, ts)
  {
    assert t[|t| - |s|..] == ts[|ts| - |s|..];
  }

  /** Before its own brace is reached, an object has opened at least as many objects as it has closed. */
  ghost predicate NetWithin(ts: seq<Token>, rest: seq<Token>) {
    |ts| > |rest| && IsSuffix(rest, ts) && forall s :: IsSuffix(s, ts) && |s| > |rest| ==> Net(ts) >= Net(s)
  }

  lemma {:induction false} NetTokens(members: Members, at: Position, rest: seq<Token>)
    ensures var ts := Tokens(members, at, rest); NetWithin(ts, rest) && Net(ts) == Net(rest) - 1
    decreases members, 1
  {
    match members
    case NoMembers(end) =>
      NetClose(LeadAt(at, end), rest);
    case LastMember(before, entry, after) =>
      NetClose(First(after), rest);
      var close := [Close(First(after))] + rest;
      NetEntry(entry, LeadAt(at, before), close);
      NetJoin(EntryTokens(entry, LeadAt(at, before), close), close, rest);
    case NextMember(before, entry, after, more) =>
      var next := Tokens(more, AfterEntry(after), rest);
      NetTokens(more, AfterEntry(after), rest);
      NetEntry(entry, LeadAt(at, before), next);
      NetJoin(EntryTokens(entry, LeadAt(at, before), next), next, rest);
  }

  lemma NetClose(lead: Lead, rest: seq<Token>)
    ensures var ts := [Close(lead)] + rest; NetWithin(ts, rest) && Net(ts) == Net(rest) - 1
  {
    SuffixOfCons(Close(lead), rest, [Close(lead)] + rest);
  }

  lemma NetJoin(ts: seq<Token>, mid: seq<Token>, rest: seq<Token>)
    requires NetWithin(ts, mid) && Net(ts) == Net(mid) && NetWithin(mid, rest)
    ensures NetWithin(ts, rest)
  {
    hide IsSuffix;
    SuffixTrans(rest, mid, ts);
    forall s | IsSuffix(s, ts) && |s| > |rest| ensures Net(ts) >= Net(s) {
      if |s| <= |mid| { SuffixOf(s, mid, ts); }
    }
  }

  lemma {:induction false} NetEntry(entry: Entry, lead: Lead, rest: seq<Token>)
    ensures var ts := EntryTokens(entry, lead, rest); NetWithin(ts, rest) && Net(ts) == Net(rest)
    decreases entry, 0
  {
    hide NetWithin;
    match entry.value
    case LObj(members) =>
      var inner := Tokens(members, AtStart, rest);
      NetTokens(members, AtStart, rest);
      NetFirst(Open(lead, entry), inner, rest);
    case _ =>
      NetLeaf(lead, entry, rest);
  }

  lemma NetLeaf(lead: Lead, entry: Entry, rest: seq<Token>)
    ensures var ts := [Leaf(lead, entry)] + rest; NetWithin(ts, rest) && Net(ts) == Net(rest)
  {
    SuffixOfCons(Leaf(lead, entry), rest, [Leaf(lead, entry)] + rest);
  }

  lemma NetFirst(token: Token, inner: seq<Token>, rest: seq<Token>)
    requires token.Open? && NetWithin(inner, rest)
    ensures NetWithin([token] + inner, rest) && Net([token] + inner) == Net(inner) + 1
  {
    var ts := [token] + inner;
    assert ts[1..] == inner;
    hide IsSuffix;
    SuffixOfCons(token, inner, ts);
  }

  /** Nothing of an object's own tokens is left when it closes. */
  lemma LeftWithin(members: Members, at: Position, rest: seq<Token>)
    ensures IsSuffix(Left(Tokens(members, at, rest)), rest)
  {
    hide Tokens, Net, Jumps, Left;
    var ts := Tokens(members, at, rest);
    NetTokens(members, at, rest);
    Spent(ts);
    if Left(ts) == [] {
      assert rest[|rest|..] == [];
    } else {
      LeftSuffix(ts);
      SuffixOf(Left(ts), rest, ts);
    }
  }

  /** After two braces taken as one, nothing of what follows in the object around it is left either. */
  lemma LeftBeyond(members: Members, next: seq<Token>, rest: seq<Token>)
    requires Jumps(Tokens(members, AtStart, next)) && NetWithin(next, rest) && Net(next) == Net(rest) - 1
    ensures IsSuffix(Left(Tokens(members, AtStart, next)), rest)
  {
    hide Tokens, Net, Jumps, Left;
    var ts := Tokens(members, AtStart, next);
    NetTokens(members, AtStart, next);
    Spent(ts);
    LeftWithin(members, AtStart, next);
    if Left(ts) == [] {
      assert rest[|rest|..] == [];
    } else {
      SuffixOf(Left(ts), rest, next);
    }
  }

  // ---------- What comes back ----------

  predicate AllClose(ts: seq<Token>) {
    forall i :: 0 <= i < |ts| ==> ts[i].Close?
  }

  lemma CloseSuffix(s: seq<Token>, rest: seq<Token>)
    requires IsSuffix(s, rest) && AllClose(rest) && WfTokens(s)
    ensures Val(s) == map[]
  {
    if s != [] { assert s[0] == rest[|rest| - |s|]; }
  }

  /** Adjacent braces occur only in the last value of an object, and there only so. */
  predicate NestedLast(members: Members) {
    match members
    case NoMembers(_) => true
    case LastMember(_, entry, _) => NestedLastValue(entry)
    case NextMember(_, entry, _, more) =>
      if more.NoMembers? then NestedLastValue(entry) else Separated(entry.value) && NestedLast(more)
  }

  predicate NestedLastValue(entry: Entry) {
    match entry.value
    case LObj(members) => NestedLast(members)
    case _ => true
  }

  predicate DistinctKeys(members: Members)
    requires WfMembers(members)
  {
    match members
    case NoMembers(_) => true
    case LastMember(_, entry, _) => DistinctBelow(entry)
    case NextMember(_, entry, _, more) => DistinctBelow(entry) && EntryKey(entry) !in MembersValue(more) && DistinctKeys(more)
  }

  predicate DistinctBelow(entry: Entry)
    requires WfEntry(entry)
  {
    assert WfLayout(entry.value);
    match entry.value
    case LObj(members) => DistinctKeys(members)
    case _ => true
  }

  /** With nothing but closing braces to follow: the entries read are those laid out if and only if adjacent
      braces occur in last values only. */
  lemma {:induction false} ValExactly(members: Members, at: Position, rest: seq<Token>)
    requires Ready(members, at, rest) && AllClose(rest) && DistinctKeys(members)
    ensures var ts := Tokens(members, at, rest);
      && WfTokens(ts) && Val(ts).Keys <= MembersValue(members).Keys
      && (Val(ts) == MembersValue(members) <==> NestedLast(members))
    decreases members, 1
  {
    match members
    case NoMembers(end) =>
      CloseParts(LeadAt(at, end), rest);
    case LastMember(before, entry, after) =>
      hide Left, Val, Jumps, Net, WfTokens, Tokens, EntryTokens, LeafSeparated, WfEntry;
      LastParts(before, entry, after, at, rest);
      LastValue(entry, LeadAt(at, before), [Close(First(after))] + rest);
    case NextMember(before, entry, after, more) =>
      hide Left, Val, Jumps, Net, WfTokens, Tokens, EntryTokens, LeafSeparated, WfEntry;
      NextParts(before, entry, after, more, at, rest);
      var next := Tokens(more, AfterEntry(after), rest);
      if more.NoMembers? {
        OnlyClose(more, after, rest);
        LastValue(entry, LeadAt(at, before), next);
        AddNothing(EntryKey(entry), EntryValue(entry));
      } else if Separated(entry.value) {
        SeparatedEntry(entry, LeadAt(at, before), next);
        ValExactly(more, AfterEntry(after), rest);
        SameAdded(EntryKey(entry), EntryValue(entry), Val(next), MembersValue(more));
      } else {
        SiblingsLost(entry, LeadAt(at, before), more, after, rest);
      }
  }

  lemma OnlyClose(more: Members, after: seq<Blank>, rest: seq<Token>)
    requires WfMembers(more) && more.NoMembers? && AllClose(rest)
    ensures AllClose(Tokens(more, AfterEntry(after), rest)) && MembersValue(more) == map[]
  {
  }

  lemma SameAdded(key: Text, j: Json, x: map<Text, Json>, y: map<Text, Json>)
    requires key !in x && key !in y
    ensures map[key := j] + x == map[key := j] + y <==> x == y
  {
    var x', y' := map[key := j] + x, map[key := j] + y;
    if x' == y' {
      assert x == x' - {key} && y == y' - {key};
    }
  }

  /** The last value of an object. */
  lemma {:induction false} LastValue(entry: Entry, lead: Lead, rest: seq<Token>)
    requires WfEntry(entry) && LeafSeparated(entry) && WfLead(lead) && Continues(rest) && AllClose(rest) && DistinctBelow(entry)
    ensures var ts := EntryTokens(entry, lead, rest);
      && WfTokens(ts) && Val(ts).Keys == {EntryKey(entry)}
      && (Val(ts) == map[EntryKey(entry) := EntryValue(entry)] <==> NestedLastValue(entry))
    decreases entry, 0
  {
    hide Left, Val, Jumps, Net, WfTokens, Tokens, EntryTokens, AllClose, NestedLast;
    if entry.value.LObj? {
      var members := entry.value.members;
      LastObject(entry, lead, rest);
      ValExactly(members, AtStart, rest);
      ObjectValue(entry);
      OneEntry(EntryKey(entry), JObj(Val(Tokens(members, AtStart, rest))), EntryValue(entry));
    } else {
      EntryParts(entry, lead, rest);
      SuffixItself(rest);
      CloseSuffix(rest, rest);
      AddNothing(EntryKey(entry), EntryValue(entry));
    }
  }

  lemma LastObject(entry: Entry, lead: Lead, rest: seq<Token>)
    requires WfEntry(entry) && LeafSeparated(entry) && WfLead(lead) && Continues(rest) && AllClose(rest) && entry.value.LObj?
    ensures var ts, inner := EntryTokens(entry, lead, rest), Tokens(entry.value.members, AtStart, rest);
      && Ready(entry.value.members, AtStart, rest) && WfTokens(ts) && WfTokens(inner)
      && Val(ts) == map[EntryKey(entry) := JObj(Val(inner))]
  {
    hide Left, Val, Jumps, Net, WfTokens, Tokens, EntryTokens, AllClose, IsSuffix;
    var inner := Tokens(entry.value.members, AtStart, rest);
    EntryParts(entry, lead, rest);
    LeftWithin(entry.value.members, AtStart, rest);
    CloseSuffix(Left(inner), rest);
    AddNothing(EntryKey(entry), JObj(Val(inner)));
  }

  lemma SuffixItself(s: seq<Token>)
    ensures IsSuffix(s, s)
  {
    assert s[0..] == s;
  }

  lemma OneEntry(key: Text, j: Json, j': Json)
    ensures map[key := j] == map[key := j'] <==> j == j'
  {
    assert map[key := j][key] == j && map[key := j'][key] == j';
  }

  /** The siblings of an object that is not separated are not in the object around it. */
  lemma SiblingsLost(entry: Entry, lead: Lead, more: Members, after: seq<Blank>, rest: seq<Token>)
    requires WfEntry(entry) && LeafSeparated(entry) && WfLead(lead) && Ready(more, AfterEntry(after), rest) && AllClose(rest)
    requires !Separated(entry.value) && !more.NoMembers? && EntryKey(entry) !in MembersValue(more)
    ensures var ts := EntryTokens(entry, lead, Tokens(more, AfterEntry(after), rest));
      && WfTokens(ts) && Val(ts).Keys == {EntryKey(entry)}
      && Val(ts) != map[EntryKey(entry) := EntryValue(entry)] + MembersValue(more)
  {
    hide Left, Val, Jumps, Net, WfTokens, Tokens, EntryTokens, Ready, LeafSeparated, WfEntry, AllClose;
    OnlyEntry(entry, lead, more, after, rest);
    MembersReady(more, AfterEntry(after), rest);
    var x := SomeKey(more);
    assert x in map[EntryKey(entry) := EntryValue(entry)] + MembersValue(more);
  }

  lemma MembersReady(members: Members, at: Position, rest: seq<Token>)
    requires Ready(members, at, rest)
    ensures WfMembers(members)
  {
  }

  lemma OnlyEntry(entry: Entry, lead: Lead, more: Members, after: seq<Blank>, rest: seq<Token>)
    requires WfEntry(entry) && LeafSeparated(entry) && WfLead(lead) && Ready(more, AfterEntry(after), rest) && AllClose(rest)
    requires !Separated(entry.value)
    ensures var ts := EntryTokens(entry, lead, Tokens(more, AfterEntry(after), rest));
      WfTokens(ts) && Val(ts).Keys == {EntryKey(entry)}
  {
    hide Left, Val, Jumps, Net, WfTokens, Tokens, EntryTokens, AllClose, WfEntry;
    var next := Tokens(more, AfterEntry(after), rest);
    TokensWf(more, AfterEntry(after), rest);
    EntryParts(entry, lead, next);
    var members := entry.value.members;
    var inner := Tokens(members, AtStart, next);
    UnseparatedJumps(members, AtStart, next);
    NetTokens(more, AfterEntry(after), rest);
    LeftBeyond(members, next, rest);
    CloseSuffix(Left(inner), rest);
    AddNothing(EntryKey(entry), JObj(Val(inner)));
  }

  lemma SomeKey(members: Members) returns (x: Text)
    requires WfMembers(members) && !members.NoMembers?
    ensures x in MembersValue(members)
  {
    x := EntryKey(members.entry);
  }

  /** Parsing the text of a nested object, in any prose: it comes back as it was written if and only if
      adjacent braces occur in last values only. */
  lemma NestedExactly(pre: Text, members: Members)
    requires WfMembers(members) && LeavesSeparated(members) && DistinctKeys(members) && NoStart(pre)
    ensures ParsesTo(pre + LayoutThen(LObj(members), []), JObj(MembersValue(members))) <==> NestedLast(members)
  {
    hide Tokens, Val, Reads, WfMembers, LeavesSeparated, DistinctKeys, NestedLast, MembersValue, MembersThen;
    assert Continues([]);
    var ts := Tokens(members, AtStart, []);
    ValExactly(members, AtStart, []);
    var t := LayoutThen(LObj(members), []);
    var r := NestedParse(pre, members);
    if ParsesTo(pre + t, JObj(MembersValue(members))) {
      ReadsUnique(r.k.heap, 0, r.v, JObj(Val(ts)), JObj(MembersValue(members)));
    }
  }

  lemma NestedParse(pre: Text, members: Members) returns (r: Out)
    requires WfMembers(members) && LeavesSeparated(members) && NoStart(pre)
    ensures r == Parse(pre + LayoutThen(LObj(members), [])) && r.Done? && r.k.Wf() && r.k.stack == []
    ensures var ts := Tokens(members, AtStart, []); WfTokens(ts) && Reads(r.k.heap, 0, r.v, JObj(Val(ts)))
  {
    hide Tokens, Val, Reads, WfMembers, LeavesSeparated, MembersThen, ParseValue, StartPos;
    var ts, t := Tokens(members, AtStart, []), LayoutThen(LObj(members), []);
    assert Continues([]);
    TokensWf(members, AtStart, []);
    TokensAreText(members, AtStart, []);
    assert t == Cons(LBRACE, TokensText(ts));
    StartAfter(pre, t);
    InnerRead(ts, Store([], []));
    r := Parse(pre + t);
  }
}
