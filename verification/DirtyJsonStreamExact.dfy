/**
 What is kept when a response is parsed before it has arrived whole, and what is lost, at every depth.
 */
module DirtyJsonStreamExact {
  import opened CodePoints
  import opened DirtyJsonSpec
  import opened DirtyJsonDecimals
  import opened DirtyJsonDiscipline
  import opened DirtyJsonLayout
  import opened DirtyJsonNumbers
  import opened DirtyJsonRoundTrip
  import opened DirtyJsonTools
  import opened DirtyJsonTokens
  import opened DirtyJsonBraces
  import opened DirtyJsonCut
  import opened DirtyJsonStream

  // ---------- The value of a text that has not arrived whole ----------

  lemma ParsePrefix(members: Members, q: Text)
    requires WfMembers(members) && q <= MembersThen(members, [])
    ensures var r := ObjectContent(q, Store([0], [Dict(map[])]));
      Parse(Cons(LBRACE, q)) == if r.Raised? then r else r.(v := PyRef(0))
  {
    hide ObjectContent, ParseValue, SkipTrivia, MembersThen;
    assert [] + Cons(LBRACE, q) == Cons(LBRACE, q);
    StartAfter([], Cons(LBRACE, q));
    MembersHead(members, []);
    assert q != [] ==> q[0] == MembersThen(members, [])[0];
    assert Store([], []).Push(Dict(map[])) == Store([0], [Dict(map[])]);
    ParseObjectAt(q, Store([], []));
  }

  lemma StartRead()
    ensures var k := Store([0], [Dict(map[])]); Reading(k, [], 0, map[]) && Ordered(k.heap)
  {
  }

  /** The part `q` of an object that has arrived behind its brace is read as exactly what `Shown` says; the
      stack is left empty unless the text ends right behind an opening brace or a comma. */
  lemma StreamShown(members: Members, q: Text)
    requires Fits(members) && q <= MembersThen(members, [])
    ensures var r := Parse(Cons(LBRACE, q));
      && r.Done? && r.rest == [] && r.v == PyRef(0) && Reads(r.k.heap, 0, r.v, JObj(Shown(members, |q|)))
      && r.k.stack == if Behind(members, |q|) then [0] else []
  {
    hide ObjectContent, Parse, MembersThen, Fits, Shown, WfMembers, Reads, ReadsMap, Behind, BehindInner, HoldsItself, Ends;
    FitsWf(members);
    var k := Store([0], [Dict(map[])]);
    ParsePrefix(members, q);
    StartRead();
    ContentCut(members, q, k, [], 0, map[]);
    ReadFromStart(ObjectContent(q, k), Shown(members, |q|), Behind(members, |q|));
  }

  lemma ReadFromStart(r: Out, js: map<Text, Json>, open: bool)
    requires Ends(r, Store([0], [Dict(map[])]), [], 0, map[] + js, open)
    ensures r.Done? && r.rest == [] && Reads(r.k.heap, 0, PyRef(0), JObj(js)) && r.k.stack == if open then [0] else []
  {
    hide Reads, ReadsMap;
    assert [] + [0] == [0];
    assert Store([0], [Dict(map[])]) == Store([], []).Push(Dict(map[]));
    EncloseDict(r.k, Store([], []), Store([0], [Dict(map[])]), js);
  }

  // ---------- Dicts inside themselves ----------

  lemma {:induction false} OrderedCut(members: Members, q: Text, k: Store, base: seq<nat>, o: nat, js: map<Text, Json>)
    requires Fits(members) && q <= MembersThen(members, []) && Reading(k, base, o, js)
    requires Ordered(k.heap) && !BehindInner(members, |q|)
    ensures ObjectContent(q, k).Done? && Ordered(ObjectContent(q, k).k.heap)
    decreases members
  {
    hide ObjectContent, Reads, Ordered, MembersThen;
    ContentCut(members, q, k, base, o, js);
    if !Behind(members, |q|) {
      ObjectOrdered(q, k, base, o);
    } else if q != [] {
      var NextMember(before, e, after, more) := members;
      var n := CommaSize(before, e, after);
      var rest := q[n..];
      CutBehindComma(members, q);
      var stored := MemberRead(before, e, after, COMMA, rest, k, base, o, js);
      CommaOn(q, rest, k, stored);
      ObjectStepOrdered(q, k, base, o);
      ShownOn(members, |q|);
      OrderedCut(more, rest, stored, base, o, js[EntryKey(e) := EntryValue(e)]);
    } else {
      assert ObjectContent(q, k) == Done(PyNone, [], k) by { NothingLeft(k); }
    }
  }

  lemma NothingLeft(k: Store)
    requires k.Wf()
    ensures ObjectContent([], k) == Done(PyNone, [], k)
  {
  }

  /** A text that reaches past the comma of the first entry. */
  lemma CutBehindComma(members: Members, q: Text)
    requires Fits(members) && members.NextMember? && q <= MembersThen(members, [])
    requires |q| >= CommaSize(members.before, members.entry, members.after)
    ensures var NextMember(before, e, after, more) := members; var rest := q[CommaSize(before, e, after)..];
      rest <= MembersThen(more, []) && q == TriviaThen(before, EntryThen(e, TriviaThen(after, Cons(COMMA, rest))))
    ensures Fits(members.more)
  {
    var NextMember(before, e, after, more) := members;
    var next := MembersThen(more, []);
    hide TriviaThen, EntryThen, LayoutThen, SpacesOnly, HeadText;
    Divide(before, e, TriviaThen(after, Cons(COMMA, next)), q);
    var w := q[EntrySize(before, e)..];
    DivideTail(after, COMMA, next, w);
    assert w[|after| + 1..] == q[CommaSize(before, e, after)..];
  }

  lemma NotOrdered(heap: seq<Container>)
    requires HoldsItself(heap)
    ensures !Ordered(heap)
  {
    var id: nat :| id < |heap| && heap[id].Dict? && PyRef(id) in heap[id].entries.Values;
    assert !RefersAbove(heap[id], id);
  }

  /** A dict contains itself if and only if the text ends right behind the opening brace or a comma of a nested
      object; otherwise no container is inside itself, at any depth. */
  lemma StreamOrdered(members: Members, q: Text)
    requires Fits(members) && q <= MembersThen(members, [])
    ensures var r := Parse(Cons(LBRACE, q));
      && r.Done? && (HoldsItself(r.k.heap) <==> BehindInner(members, |q|))
      && (Ordered(r.k.heap) <==> !BehindInner(members, |q|))
  {
    hide ObjectContent, Parse, MembersThen, Fits, WfMembers, Ordered, HoldsItself;
    FitsWf(members);
    var k := Store([0], [Dict(map[])]);
    ParsePrefix(members, q);
    StartRead();
    ContentCut(members, q, k, [], 0, map[]);
    var heap := Parse(Cons(LBRACE, q)).k.heap;
    if BehindInner(members, |q|) {
      NotOrdered(heap);
    } else {
      OrderedCut(members, q, k, [], 0, map[]);
      if HoldsItself(heap) { NotOrdered(heap); }
    }
  }

  /** Such a text does end in an opening brace or a comma. */
  lemma {:induction false} BehindChar(members: Members, n: nat)
    requires Fits(members) && 0 < n <= |MembersThen(members, [])| && Behind(members, n)
    ensures var c := MembersThen(members, [])[n - 1]; c == LBRACE || c == COMMA
    decreases members
  {
    hide MembersThen, LayoutThen, TriviaThen;
    var (before, e) := (members.before, members.entry);
    assert SpacesOnly(before) && StreamableEntry(e) && WfEntry(e) && Separated(e.value);
    if BehindIn(before, e, n) {
      var (inner, m) := (e.value.members, n - HeadSize(before, e) - 1);
      InnerFits(e);
      CharInValue(members, n);
      if m > 0 { BehindChar(inner, m); }
    } else {
      var m := n - CommaSize(before, e, members.after);
      CharBehindComma(members, n);
      if m > 0 { BehindChar(members.more, m); }
    }
  }

  lemma InnerFits(e: Entry)
    requires WfEntry(e) && StreamableEntry(e) && Separated(e.value) && e.value.LObj?
    ensures Fits(e.value.members)
  {
    assert WfLayout(e.value) && Streamable(e.value);
  }

  lemma CharInValue(members: Members, n: nat)
    requires Fits(members) && (members.LastMember? || members.NextMember?) && BehindIn(members.before, members.entry, n)
    ensures n <= |MembersThen(members, [])| && n - HeadSize(members.before, members.entry) - 1 <= |MembersThen(members.entry.value.members, [])|
    ensures var m := n - HeadSize(members.before, members.entry) - 1;
      MembersThen(members, [])[n - 1] == Cons(LBRACE, MembersThen(members.entry.value.members, []))[m]
  {
    hide TriviaThen, EntryThen, HeadText, Behind, SpacesOnly, MembersThen;
    var (before, e, after) := (members.before, members.entry, members.after);
    var tail := TriviaThen(after, if members.LastMember? then Cons(RBRACE, []) else Cons(COMMA, MembersThen(members.more, [])));
    assert StreamableEntry(e) && WfEntry(e);
    FirstText(members, tail);
    HeadParts(before, e);
    ValueSplit(before, e, tail);
  }

  lemma FirstText(members: Members, tail: Text)
    requires members.LastMember? || members.NextMember?
    requires tail == TriviaThen(members.after, if members.LastMember? then Cons(RBRACE, []) else Cons(COMMA, MembersThen(members.more, [])))
    ensures MembersThen(members, []) == TriviaThen(members.before, EntryThen(members.entry, tail))
  {
  }

  lemma CharBehindComma(members: Members, n: nat)
    requires Fits(members) && members.NextMember? && CommaSize(members.before, members.entry, members.after) <= n <= |MembersThen(members, [])|
    ensures var (all, next, m) :=
        (MembersThen(members, []), MembersThen(members.more, []), n - CommaSize(members.before, members.entry, members.after));
      m <= |next| && all[n - 1] == if m == 0 then COMMA else next[m - 1]
  {
    hide TriviaThen, EntryThen, HeadText, SpacesOnly, MembersThen, LayoutThen;
    var (before, e, after, next) := (members.before, members.entry, members.after, MembersThen(members.more, []));
    var tail := TriviaThen(after, Cons(COMMA, next));
    assert StreamableEntry(e) && WfEntry(e);
    FirstText(members, tail);
    HeadParts(before, e);
    ValueSplit(before, e, tail);
    CharsThen(after, Cons(COMMA, next));
  }

  // ---------- What is kept ----------

  /** The entries `js` have everything that the first `n` characters bring, each at its own place: values that
      are there in full, those of nested objects too, and the part of the last value that is there. */
  predicate Kept(members: Members, n: nat, js: map<Text, Json>)
    requires WfMembers(members)
    decreases members
  {
    match members
    case NoMembers(_) => true
    case LastMember(before, e, _) => KeptEntry(before, e, n, js)
    case NextMember(before, e, after, more) =>
      KeptEntry(before, e, n, js) && (n >= CommaSize(before, e, after) ==> Kept(more, n - CommaSize(before, e, after), js))
  }

  predicate KeptEntry(before: seq<Blank>, e: Entry, n: nat, js: map<Text, Json>)
    requires WfEntry(e)
    decreases e
  {
    assert WfLayout(e.value);
    n > HeadSize(before, e) ==>
      && EntryKey(e) in js
      && var j := js[EntryKey(e)];
         if n >= EntrySize(before, e) then j == EntryValue(e)
         else match e.value
           case LObj(inner) => j.JObj? && Kept(inner, n - HeadSize(before, e) - 1, j.entries)
           case _ => j == CutScalar(e.value, n - HeadSize(before, e))
  }

  /** Do the `n` characters end inside a key, and is the part of it that is there an earlier key of the same object,
      of a value other than null? `seen` are the entries before. */
  predicate Overwrites(members: Members, n: nat, seen: map<Text, Json>)
    requires WfMembers(members)
    decreases members
  {
    match members
    case NoMembers(_) => false
    case LastMember(before, e, _) => OverwritesIn(before, e, n, seen)
    case NextMember(before, e, after, more) =>
      || OverwritesIn(before, e, n, seen)
      || (n >= CommaSize(before, e, after) && Overwrites(more, n - CommaSize(before, e, after), seen[EntryKey(e) := EntryValue(e)]))
  }

  predicate OverwritesIn(before: seq<Blank>, e: Entry, n: nat, seen: map<Text, Json>)
    requires WfEntry(e)
    decreases e
  {
    assert WfLayout(e.value);
    if n <= HeadSize(before, e) then
      n > |before| && var part := Upto(EntryKey(e), n - |before| - 1); part in seen && seen[part] != JNull
    else
      n < EntrySize(before, e) && e.value.LObj? && Overwrites(e.value.members, n - HeadSize(before, e) - 1, map[])
  }

  ghost predicate Stays(seen: map<Text, Json>, js: map<Text, Json>) {
    forall x :: x in seen ==> x in js && js[x] == seen[x]
  }

  lemma {:induction false} ShownKept(members: Members, n: nat, seen: map<Text, Json>)
    requires WfMembers(members) && DistinctKeys(members) && seen.Keys !! MembersValue(members).Keys
    ensures var js := seen + Shown(members, n);
      Kept(members, n, js) && Stays(seen, js) <==> !BehindInner(members, n) && !Overwrites(members, n, seen)
    decreases members, 1
  {
    match members
    case NoMembers(_) =>
    case LastMember(before, e, _) =>
      ShownKeptEntry(before, e, n, seen);
    case NextMember(before, e, after, more) =>
      if n < CommaSize(before, e, after) {
        hide ShownEntry, KeptEntry, BehindIn, OverwritesIn, DistinctBelow, LayoutThen;
        ShownKeptEntry(before, e, n, seen);
        assert ShownEntry(before, e, n) + map[] == ShownEntry(before, e, n);
      } else {
        ShownKeptNext(members, n, seen);
      }
  }

  lemma {:induction false} ShownKeptNext(members: Members, n: nat, seen: map<Text, Json>)
    requires WfMembers(members) && DistinctKeys(members) && seen.Keys !! MembersValue(members).Keys
    requires members.NextMember? && n >= CommaSize(members.before, members.entry, members.after)
    ensures var js := seen + Shown(members, n);
      Kept(members, n, js) && Stays(seen, js) <==> !BehindInner(members, n) && !Overwrites(members, n, seen)
    decreases members, 0
  {
    hide Shown, Kept, Overwrites, BehindInner, Behind, KeptEntry, LayoutThen, Stays;
    var NextMember(before, e, after, more) := members;
    var m := n - CommaSize(before, e, after);
    ShownOn(members, n);
    ShownKept(more, m, seen[EntryKey(e) := EntryValue(e)]);
    StoreThenMerge(seen, EntryKey(e), EntryValue(e), Shown(more, m));
    KeptOn(members, n, seen, seen + Shown(members, n));
  }

  /** Behind a comma: the entry before it is one more to stay. */
  lemma KeptOn(members: Members, n: nat, seen: map<Text, Json>, js: map<Text, Json>)
    requires WfMembers(members) && members.NextMember? && n >= CommaSize(members.before, members.entry, members.after)
    requires EntryKey(members.entry) !in seen
    ensures var NextMember(before, e, after, more) := members;
      var (m, seen') := (n - CommaSize(before, e, after), seen[EntryKey(e) := EntryValue(e)]);
      && (Kept(members, n, js) && Stays(seen, js) <==> Kept(more, m, js) && Stays(seen', js))
      && (Overwrites(members, n, seen) <==> Overwrites(more, m, seen'))
  {
    var NextMember(before, e, after, more) := members;
    SomeValue(e);
    assert KeptEntry(before, e, n, js) <==> EntryKey(e) in js && js[EntryKey(e)] == EntryValue(e);
    var seen' := seen[EntryKey(e) := EntryValue(e)];
    if Stays(seen', js) {
      forall x | x in seen ensures x in js && js[x] == seen[x] {
        assert seen'[x] == seen[x];
      }
      assert EntryKey(e) in seen';
    }
  }

  lemma {:induction false} ShownKeptEntry(before: seq<Blank>, e: Entry, n: nat, seen: map<Text, Json>)
    requires WfEntry(e) && DistinctBelow(e) && EntryKey(e) !in seen
    ensures var js := seen + ShownEntry(before, e, n);
      KeptEntry(before, e, n, js) && Stays(seen, js) <==> !BehindIn(before, e, n) && !OverwritesIn(before, e, n, seen)
    decreases e
  {
    hide LayoutThen, Shown, Kept, Overwrites, Behind, BehindInner, CutScalar, MembersValue, PiecesValue;
    assert WfEntry(e) && WfLayout(e.value);
    if e.value.LObj? && HeadSize(before, e) < n < EntrySize(before, e) {
      var (inner, m) := (e.value.members, n - HeadSize(before, e) - 1);
      ShownKept(inner, m, map[]);
      assert map[] + Shown(inner, m) == Shown(inner, m);
      NothingStays(Shown(inner, m));
      if !Behind(inner, m) { InnerIsBehind(inner, m); }
    }
  }

  lemma NothingStays(js: map<Text, Json>)
    ensures Stays(map[], js)
  {
  }

  lemma {:induction false} InnerIsBehind(members: Members, n: nat)
    ensures BehindInner(members, n) ==> Behind(members, n)
    decreases members
  {
    if members.NextMember? && n >= CommaSize(members.before, members.entry, members.after) {
      InnerIsBehind(members.more, n - CommaSize(members.before, members.entry, members.after));
    }
  }

  /** Parsing what has arrived gives a dict that has everything it brings, at every depth, each at its own place. */
  ghost predicate Keeps(members: Members, q: Text)
    requires WfMembers(members)
  {
    exists js :: ReadAs(Cons(LBRACE, q), js) && Kept(members, |q|, js)
  }

  /** The text parses to a dict with these entries. */
  ghost predicate ReadAs(s: Text, js: map<Text, Json>) {
    var r := Parse(s);
    r.Done? && Reads(r.k.heap, 0, r.v, JObj(js))
  }

  lemma ReadOnce(s: Text, js: map<Text, Json>, js': map<Text, Json>)
    requires ReadAs(s, js) && ReadAs(s, js')
    ensures js == js'
  {
    hide Parse;
    var r := Parse(s);
    ReadsUnique(r.k.heap, 0, r.v, JObj(js), JObj(js'));
  }

  /** Of a streamable object with distinct keys, any beginning is kept if and only if it does not end right behind
      the opening brace or a comma of a nested object, nor inside a key, at a part of it that is an earlier key of
      the same object and not that of a null. */
  lemma StreamKeeps(members: Members, q: Text)
    requires Fits(members) && DistinctKeys(members) && q <= MembersThen(members, [])
    ensures Keeps(members, q) <==> !BehindInner(members, |q|) && !Overwrites(members, |q|, map[])
  {
    hide Parse, MembersThen, Fits, WfMembers, Kept, Overwrites, DistinctKeys, Shown, BehindInner, Keeps, ReadAs;
    FitsWf(members);
    StreamReadAs(members, q);
    var js := Shown(members, |q|);
    ShownKept(members, |q|, map[]);
    assert map[] + js == js;
    KeepsOf(members, q, js);
  }

  lemma FitsWf(members: Members)
    requires Fits(members)
    ensures WfMembers(members)
  {
  }

  lemma StreamReadAs(members: Members, q: Text)
    requires Fits(members) && q <= MembersThen(members, [])
    ensures ReadAs(Cons(LBRACE, q), Shown(members, |q|))
  {
    hide Parse, MembersThen, Fits, WfMembers, Shown, Reads, Behind;
    StreamShown(members, q);
  }

  /** The value read is the only one there is. */
  lemma KeepsOf(members: Members, q: Text, js: map<Text, Json>)
    requires WfMembers(members) && ReadAs(Cons(LBRACE, q), js)
    ensures Keeps(members, q) <==> Kept(members, |q|, js)
  {
    hide ReadAs, WfMembers, Kept;
    forall js' | ReadAs(Cons(LBRACE, q), js') ensures js' == js {
      ReadOnce(Cons(LBRACE, q), js', js);
    }
  }

  // ---------- Whatever the cut ----------

  /** At every depth: a key that begins a later one of the same object has the value null. */
  predicate Lossless(members: Members, seen: map<Text, Json>)
    requires WfMembers(members)
    decreases members
  {
    match members
    case NoMembers(_) => true
    case LastMember(_, e, _) => LosslessEntry(e, seen)
    case NextMember(_, e, _, more) => LosslessEntry(e, seen) && Lossless(more, seen[EntryKey(e) := EntryValue(e)])
  }

  predicate LosslessEntry(e: Entry, seen: map<Text, Json>)
    requires WfEntry(e)
    decreases e
  {
    assert WfLayout(e.value);
    (forall x :: x in seen && x <= EntryKey(e) ==> seen[x] == JNull) && (e.value.LObj? ==> Lossless(e.value.members, map[]))
  }

  lemma {:induction false} NeverOverwrites(members: Members, n: nat, seen: map<Text, Json>)
    requires WfMembers(members) && Lossless(members, seen)
    ensures !Overwrites(members, n, seen)
    decreases members
  {
    match members
    case NoMembers(_) =>
    case LastMember(before, e, _) =>
      NeverOverwritesIn(before, e, n, seen);
    case NextMember(before, e, after, more) =>
      NeverOverwritesIn(before, e, n, seen);
      if n >= CommaSize(before, e, after) {
        NeverOverwrites(more, n - CommaSize(before, e, after), seen[EntryKey(e) := EntryValue(e)]);
      }
  }

  lemma {:induction false} NeverOverwritesIn(before: seq<Blank>, e: Entry, n: nat, seen: map<Text, Json>)
    requires WfEntry(e) && LosslessEntry(e, seen)
    ensures !OverwritesIn(before, e, n, seen)
    decreases e
  {
    assert WfLayout(e.value);
    if n <= HeadSize(before, e) {
      assert Upto(EntryKey(e), n - |before| - 1) <= EntryKey(e);
    } else if n < EntrySize(before, e) && e.value.LObj? {
      NeverOverwrites(e.value.members, n - HeadSize(before, e) - 1, map[]);
    }
  }

  lemma TextSize(members: Members)
    requires Fits(members)
    ensures match members
      case NoMembers(end) => true
      case LastMember(before, e, after) => |MembersThen(members, [])| == CommaSize(before, e, after)
      case NextMember(before, e, after, more) => |MembersThen(members, [])| == CommaSize(before, e, after) + |MembersThen(more, [])|
  {
    hide TriviaThen, EntryThen, LayoutThen, HeadText;
    match members
    case NoMembers(_) =>
    case LastMember(before, e, after) =>
      assert SpacesOnly(before) && StreamableEntry(e) && WfEntry(e) && SpacesOnly(after);
      CharsThen(after, Cons(RBRACE, []));
      HeadParts(before, e);
      ValueSplit(before, e, TriviaThen(after, Cons(RBRACE, [])));
    case NextMember(before, e, after, more) =>
      assert SpacesOnly(before) && StreamableEntry(e) && WfEntry(e) && SpacesOnly(after);
      CharsThen(after, Cons(COMMA, MembersThen(more, [])));
      HeadParts(before, e);
      ValueSplit(before, e, TriviaThen(after, Cons(COMMA, MembersThen(more, []))));
  }

  /** A key that begins a later one, and not of a null: some beginning of the text overwrites it. */
  lemma {:induction false} SomeOverwrite(members: Members, seen: map<Text, Json>) returns (n: nat)
    requires Fits(members) && !Lossless(members, seen)
    ensures n < |MembersThen(members, [])| && Overwrites(members, n, seen) && !Behind(members, n)
    decreases members
  {
    TextSize(members);
    var (before, e) := (members.before, members.entry);
    assert StreamableEntry(e) && WfEntry(e) && Separated(e.value);
    if members.LastMember? || !LosslessEntry(e, seen) {
      hide LayoutThen, MembersThen, LosslessEntry, OverwritesIn, BehindIn;
      n := SomeOverwriteIn(before, e, seen);
    } else {
      hide LayoutThen, MembersThen, LosslessEntry, OverwritesIn;
      assert Fits(members.more);
      var m := SomeOverwrite(members.more, seen[EntryKey(e) := EntryValue(e)]);
      n := CommaSize(before, e, members.after) + m;
      SomeValue(e);
    }
  }

  lemma {:induction false} SomeOverwriteIn(before: seq<Blank>, e: Entry, seen: map<Text, Json>) returns (n: nat)
    requires WfEntry(e) && StreamableEntry(e) && Separated(e.value) && !LosslessEntry(e, seen)
    ensures 0 < n < EntrySize(before, e) && OverwritesIn(before, e, n, seen) && !BehindIn(before, e, n)
    decreases e
  {
    assert WfLayout(e.value);
    SomeValue(e);
    KeySize(e.key);
    if x :| x in seen && x <= EntryKey(e) && seen[x] != JNull {
      n := |before| + 1 + |x|;
      assert Upto(EntryKey(e), |x|) == x;
    } else {
      var m := SomeOverwrite(e.value.members, map[]);
      n := HeadSize(before, e) + 1 + m;
    }
  }

  // ---------- Lists, and numbers with a sign or an exponent ----------

  /** The value does not parse, or is a list left open, which takes no key. */
  ghost predicate Fails(r: Out, k: Store) {
    r.Raised? || (r.rest == [] && r.k.Wf() && r.k.stack == k.stack + [|k.heap|] && |k.heap| < |r.k.heap| && r.k.heap[|k.heap|].List?)
  }

  /** Some beginning of a value that is not streamable, and of it alone. It does not end behind an opening brace
      or a comma. */
  ghost predicate Stops(l: Layout, z: Text) {
    && z != [] && (forall rest :: z <= LayoutThen(l, rest)) && (l.LObj? ==> !Behind(l.members, |z| - 1))
    && forall k: Store :: k.Wf() ==> Fails(ParseValue(z, k), k)
  }

  /** Some beginning of an object's content that raises. */
  ghost predicate StopsContent(members: Members, q: Text) {
    && (forall rest :: q <= MembersThen(members, rest)) && !Behind(members, |q|)
    && forall k: Store, base, o: nat, js :: Reading(k, base, o, js) ==> ObjectContent(q, k).Raised?
  }

  lemma BracketStops(items: Items)
    ensures Stops(LArr(items), [LBRACKET])
  {
    forall rest ensures [LBRACKET] <= LayoutThen(LArr(items), rest) {
      assert LayoutThen(LArr(items), rest) == Cons(LBRACKET, ItemsThen(items, rest));
    }
    forall k: Store | k.Wf() ensures Fails(ParseValue([LBRACKET], k), k) {
      assert [LBRACKET] == Cons(LBRACKET, []);
      ParseArrayAt([], k);
    }
  }

  lemma MinusStops(digits: Text)
    ensures Stops(LInt(true, digits), [MINUS])
  {
    forall rest ensures [MINUS] <= LayoutThen(LInt(true, digits), rest) {
      assert LayoutThen(LInt(true, digits), rest) == Cons(MINUS, digits + rest);
    }
    forall k: Store | k.Wf() ensures Fails(ParseValue([MINUS], k), k) {
      var z: Text := [MINUS];
      SolidStart(z);
      ParseScalarAt(z, k);
      assert z[1..] == [] && NumberBody([]) == Scan([], []);
      assert [MINUS] + [] == z;
    }
  }

  /** A float without sign up to its `e`. */
  function UpToExponent(d: Decimal): Text {
    d.whole + ((if d.point then [DOT] + d.fraction else []) + d.e)
  }

  /** A sign alone is no number, and neither is a text that ends in `e`. */
  lemma FloatStops(d: Float)
    requires d.sign != [] || d.e != []
    ensures Stops(LFloat(d), if d.sign != [] then d.sign else UpToExponent(d))
  {
    var z := if d.sign != [] then d.sign else UpToExponent(d);
    hide IsIntLiteral, IsFloatLiteral, ParseValue, Decimal.Text, Decimal.Wf, UpToExponent;
    StopChars(d, z);
    NoNumber(d, z);
    forall rest ensures z <= LayoutThen(LFloat(d), rest) {
      assert z <= d.Text();
      assert LayoutThen(LFloat(d), rest) == d.Text() + rest;
    }
    forall k: Store | k.Wf() ensures Fails(ParseValue(z, k), k) {
      assert z + [] == z;
      NumberAt(z, [], k);
    }
  }

  lemma StopChars(d: Float, z: Text)
    requires z == if d.sign != [] then d.sign else UpToExponent(d)
    requires d.sign != [] || d.e != []
    ensures z != [] && z <= d.Text() && (IsDigit(z[0]) || z[0] == MINUS || z[0] == PLUS)
    ensures forall i :: 0 <= i < |z| ==> InNumber(z[i])
  {
    DecimalChars(d);
    if d.sign == [] {
      assert d.Text() == z + (d.eSign + d.eDigits);
    }
  }

  lemma NoNumber(d: Float, z: Text)
    requires z == if d.sign != [] then d.sign else UpToExponent(d)
    requires (d.sign != [] || d.e != []) && z != []
    ensures !IsIntLiteral(z) && !IsFloatLiteral(z)
  {
    hide IsIntLiteral, IsFloatLiteral;
    var c := z[|z| - 1];
    assert c == if d.sign != [] then d.sign[0] else d.e[0];
    if IsIntLiteral(z) || IsFloatLiteral(z) { EndsInDigit(z); }
  }

  /** Every number ends in a digit or its point. */
  lemma EndsInDigit(t: Text)
    requires IsIntLiteral(t) || IsFloatLiteral(t)
    ensures t != [] && (IsDigit(t[|t| - 1]) || t[|t| - 1] == DOT)
  {
    var d := AcceptedDecimal(t);
    LastChar(d);
  }

  lemma LastChar(d: Decimal)
    requires d.Wf()
    ensures d.Text() != [] && var c := d.Text()[|d.Text()| - 1]; IsDigit(c) || c == DOT
  {
    var t := d.Text();
    if d.e != [] {
      assert t[|t| - 1] == d.eDigits[|d.eDigits| - 1];
    } else if d.point {
      assert t[|t| - 1] == if d.fraction != [] then d.fraction[|d.fraction| - 1] else DOT;
    } else {
      assert t[|t| - 1] == d.whole[|d.whole| - 1];
    }
  }

  lemma {:induction false} SomeStop(l: Layout) returns (z: Text)
    requires WfLayout(l) && Separated(l) && Spaced(l) && !Streamable(l)
    ensures Stops(l, z)
    decreases l
  {
    match l
    case LArr(items) =>
      BracketStops(items);
      z := [LBRACKET];
    case LInt(_, digits) =>
      MinusStops(digits);
      z := [MINUS];
    case LFloat(d) =>
      z := if d.sign != [] then d.sign else UpToExponent(d);
      FloatStops(d);
    case LObj(members) =>
      var q := SomeContentStop(members);
      ObjectStops(members, q);
      z := Cons(LBRACE, q);
  }

  lemma ObjectStops(members: Members, q: Text)
    requires WfMembers(members) && StopsContent(members, q)
    ensures Stops(LObj(members), Cons(LBRACE, q))
  {
    hide ObjectContent, ParseValue, MembersThen, Behind;
    forall rest ensures Cons(LBRACE, q) <= LayoutThen(LObj(members), rest) {
      assert q <= MembersThen(members, rest);
      assert LayoutThen(LObj(members), rest) == Cons(LBRACE, MembersThen(members, rest));
    }
    MembersHead(members, []);
    assert q <= MembersThen(members, []);
    forall k: Store | k.Wf() ensures Fails(ParseValue(Cons(LBRACE, q), k), k) {
      ParseObjectAt(q, k);
      NothingYet(k);
      assert Reading(k.Push(Dict(map[])), k.stack, |k.heap|, map[]);
    }
  }

  lemma {:induction false} SomeContentStop(members: Members) returns (q: Text)
    requires WfMembers(members) && SeparatedMembers(members) && SpacedMembers(members) && !StreamableMembers(members)
    ensures StopsContent(members, q)
    decreases members
  {
    match members
    case LastMember(before, e, after) =>
      var z := SomeStop(e.value);
      ValueStops(members, z);
      q := HeadText(before, e) + z;
    case NextMember(before, e, after, more) =>
      if Streamable(e.value) {
        var rest := SomeContentStop(more);
        NextStops(before, e, after, more, rest);
        q := TriviaThen(before, EntryThen(e, TriviaThen(after, Cons(COMMA, rest))));
      } else {
        var z := SomeStop(e.value);
        ValueStops(members, z);
        q := HeadText(before, e) + z;
      }
  }

  /** A value that fails takes its entry with it. */
  lemma EntryFails(before: seq<Blank>, e: Entry, z: Text, k: Store, base: seq<nat>, o: nat)
    requires SpacesOnly(before) && WfEntry(e) && SpacedHead(e) && Stops(e.value, z) && !OpensTrivia(z) && Top(k, base, o)
    ensures ObjectContent(HeadText(before, e) + z, k).Raised?
  {
    hide ParseValue, SkipTrivia, Member, HeadText, HeadThen;
    ValueMember(before, e, z, k);
    assert Fails(ParseValue(z, k), k);
    RaisedThrough(HeadText(before, e) + z, HeadThen(e, z), k);
  }

  lemma RaisedThrough(q: Text, t: Text, k: Store)
    requires k.Wf() && q != [] && SkipTrivia(q) == t && t != [] && t[0] == DQUOTE && Member(t, k).Raised?
    ensures ObjectContent(q, k).Raised?
  {
    hide Member;
  }

  lemma StopStart(l: Layout, z: Text)
    requires WfLayout(l) && Stops(l, z)
    ensures !OpensTrivia(z)
  {
    LayoutHead(l, []);
    var t := LayoutThen(l, []);
    assert z <= t && z[0] == t[0];
    SlashFree(l);
  }

  lemma SlashFree(l: Layout)
    requires WfLayout(l)
    ensures var t := LayoutThen(l, []); t != [] && !IsSpace(t[0]) && t[0] != SLASH
  {
  }

  lemma InValue(members: Members, m: nat)
    requires members.LastMember? || members.NextMember?
    requires 0 < m <= |LayoutThen(members.entry.value, [])|
    requires members.entry.value.LObj? ==> !Behind(members.entry.value.members, m - 1)
    ensures !Behind(members, HeadSize(members.before, members.entry) + m)
  {
  }

  /** The first entry of an object, cut in a value that fails there. */
  lemma ValueStops(members: Members, z: Text)
    requires members.LastMember? || members.NextMember?
    requires SpacesOnly(members.before) && WfEntry(members.entry) && SpacedHead(members.entry) && Stops(members.entry.value, z)
    ensures StopsContent(members, HeadText(members.before, members.entry) + z)
  {
    var (before, e) := (members.before, members.entry);
    StopStart(e.value, z);
    HeadParts(before, e);
    assert z <= LayoutThen(e.value, []);
    InValue(members, |z|);
    hide TriviaThen, HeadThen, ObjectContent, LayoutThen, HeadText, Behind;
    var q := HeadText(before, e) + z;
    forall rest ensures q <= MembersThen(members, rest) {
      var tail := if members.LastMember? then TriviaThen(members.after, Cons(RBRACE, rest))
                  else TriviaThen(members.after, Cons(COMMA, MembersThen(members.more, rest)));
      HeadSplit(before, e, LayoutThen(e.value, tail));
      assert z <= LayoutThen(e.value, tail);
      assert MembersThen(members, rest) == TriviaThen(before, EntryThen(e, tail));
    }
    forall k: Store, base, o: nat, js | Reading(k, base, o, js) ensures ObjectContent(q, k).Raised? {
      EntryFails(before, e, z, k, base, o);
    }
  }

  lemma NextStops(before: seq<Blank>, e: Entry, after: seq<Blank>, more: Members, q: Text)
    requires SpacesOnly(before) && WfEntry(e) && StreamableEntry(e) && Separated(e.value) && SpacesOnly(after)
    requires StopsContent(more, q)
    ensures StopsContent(NextMember(before, e, after, more), TriviaThen(before, EntryThen(e, TriviaThen(after, Cons(COMMA, q)))))
  {
    NextBehind(before, e, after, more, q);
    hide TriviaThen, EntryThen, ObjectContent, Reads, Behind;
    CharsThen(before, []);
    CharsThen(after, []);
    var text := TriviaThen(before, EntryThen(e, TriviaThen(after, Cons(COMMA, q))));
    forall rest ensures text <= MembersThen(NextMember(before, e, after, more), rest) {
      var all := MembersThen(more, rest);
      assert q <= all;
      assert q + all[|q|..] == all;
      ConsAppend(COMMA, q, all[|q|..]);
      AroundAppend(before, e, after, Cons(COMMA, q), all[|q|..]);
    }
    forall k: Store, base, o: nat, js | Reading(k, base, o, js)
      ensures ObjectContent(text, k).Raised?
    {
      var stored := MemberRead(before, e, after, COMMA, q, k, base, o, js);
      CommaOn(text, q, k, stored);
      assert Reading(stored, base, o, js[EntryKey(e) := EntryValue(e)]);
    }
  }

  lemma NextBehind(before: seq<Blank>, e: Entry, after: seq<Blank>, more: Members, q: Text)
    requires SpacesOnly(before) && WfEntry(e) && StreamableEntry(e) && SpacesOnly(after) && !Behind(more, |q|)
    ensures !Behind(NextMember(before, e, after, more), |TriviaThen(before, EntryThen(e, TriviaThen(after, Cons(COMMA, q))))|)
  {
    hide TriviaThen, EntryThen, LayoutThen, HeadText;
    CharsThen(after, Cons(COMMA, q));
    HeadParts(before, e);
    SomeValue(e);
    ValueSplit(before, e, TriviaThen(after, Cons(COMMA, q)));
  }

  /** A list, or a number with a sign or an exponent, anywhere in the object: some beginning of it does not parse. */
  lemma StreamFails(members: Members) returns (q: Text)
    requires WfMembers(members) && SeparatedMembers(members) && SpacedMembers(members) && !StreamableMembers(members)
    ensures q <= MembersThen(members, []) && !BehindInner(members, |q|) && Parse(Cons(LBRACE, q)).Raised?
  {
    hide ObjectContent, Parse, MembersThen, WfMembers, SeparatedMembers, Behind, BehindInner;
    q := SomeContentStop(members);
    assert q <= MembersThen(members, []);
    InnerIsBehind(members, |q|);
    ParsePrefix(members, q);
    StartRead();
    assert ObjectContent(q, Store([0], [Dict(map[])])).Raised?;
  }

  /** For every object with blanks between its tokens, keys without escapes, distinct in each object: whatever has
      arrived is kept, unless it ends right behind the opening brace or a comma of a nested object, if and only if
      there is no list and no number with a sign or an exponent in it, and a key that begins a later one has the
      value null. */
  lemma StreamKeepsExactly(members: Members)
    requires WfMembers(members) && SeparatedMembers(members) && SpacedMembers(members) && DistinctKeys(members)
    ensures (forall q :: q <= MembersThen(members, []) && !BehindInner(members, |q|) ==> Keeps(members, q))
      <==> StreamableMembers(members) && Lossless(members, map[])
  {
    var all := MembersThen(members, []);
    hide MembersThen, WfMembers, SeparatedMembers, SpacedMembers, StreamableMembers, DistinctKeys, Behind;
    hide BehindInner, Parse, Overwrites, Lossless, Kept;
    if !StreamableMembers(members) {
      var q := StreamFails(members);
      assert !Keeps(members, q);
    } else if Lossless(members, map[]) {
      hide Keeps;
      forall q | q <= all && !BehindInner(members, |q|) ensures Keeps(members, q) {
        NeverOverwrites(members, |q|, map[]);
        StreamKeeps(members, q);
      }
    } else {
      hide Keeps;
      var n := SomeOverwrite(members, map[]);
      var q := all[..n];
      InnerIsBehind(members, n);
      StreamKeeps(members, q);
      assert q <= all && !BehindInner(members, |q|) && !Keeps(members, q);
    }
  }
}
