/**
 Text that ends right behind a nested opening brace or bracket, or behind a comma in a nested object. The content
 loop of the inner container then leaves it on the stack, so the outer object's entry is stored into the inner one.
 */
module DirtyJsonTruncation {
  import opened CodePoints
  import opened DirtyJsonSpec
  import opened DirtyJsonLayout
  import opened DirtyJsonRoundTrip
  import opened DirtyJsonTools
  import opened DirtyJsonTokens
  import opened DirtyJsonCut
  import opened DirtyJsonStream

  /** Blanks, a key without escapes, its colon. */
  predicate WfHead(before: seq<Blank>, e: Entry) {
    SpacesOnly(before) && SpacedHead(e) && WfEntry(e)
  }

  /** After `.. "key": {` the outer object has no entry for the key: the new dict holds itself. */
  lemma BraceAtEnd(before: seq<Blank>, e: Entry, k: Store, base: seq<nat>, o: nat)
    requires WfHead(before, e) && DictOnTop(k, base, o)
    ensures ObjectContent(HeadText(before, e) + [LBRACE], k)
      == Done(PyNone, [], Store(base + [o], k.heap + [Dict(map[EntryKey(e) := PyRef(|k.heap|)])]))
  {
    hide ObjectContent, HeadText, WfEntry;
    assert [LBRACE] == Cons(LBRACE, []);
    var inner := k.Push(Dict(map[]));
    NoContent(inner);
    NothingYet(k);
    OpenInside(before, e, [], Done(PyNone, [], inner), map[], k, base, o);
    assert map[][EntryKey(e) := PyRef(|k.heap|)] == map[EntryKey(e) := PyRef(|k.heap|)];
    assert inner.heap[|k.heap| := Dict(map[EntryKey(e) := PyRef(|k.heap|)])]
      == k.heap + [Dict(map[EntryKey(e) := PyRef(|k.heap|)])];
  }

  lemma NoContent(k: Store)
    requires k.Wf()
    ensures ObjectContent([], k) == Done(PyNone, [], k)
  {
  }

  /** More of the inner object, up to a brace or comma: it has the entries before, and itself under the key; the
      outer object and everything older are as they were. */
  lemma OpenAtEnd(before: seq<Blank>, e: Entry, inner: Members, q: Text, k: Store, base: seq<nat>, o: nat) returns (c: Container)
    requires WfHead(before, e) && Fits(inner) && q <= MembersThen(inner, []) && Behind(inner, |q|) && DictOnTop(k, base, o)
    ensures var (r, d) := (ObjectContent(HeadText(before, e) + Cons(LBRACE, q), k), |k.heap|);
      && r.Done? && r.rest == [] && r.k.stack == base + [o] && d < |r.k.heap| && r.k.heap[..d] == k.heap
      && ReadsMap(r.k.heap, d + 1, c, Shown(inner, |q|))
      && r.k.heap[d] == Dict(c.entries[EntryKey(e) := PyRef(d)])
  {
    hide ObjectContent, HeadText, WfEntry, Reads, MembersThen, Shown, Behind;
    var k' := k.Push(Dict(map[]));
    var rc := ObjectContent(q, k');
    NothingYet(k);
    ContentCut(inner, q, k', k.stack, |k.heap|, map[]);
    assert map[] + Shown(inner, |q|) == Shown(inner, |q|);
    MembersHead(inner, []);
    OpenInside(before, e, q, rc, Shown(inner, |q|), k, base, o);
    c := rc.k.heap[|k.heap|];
    var h := ObjectContent(HeadText(before, e) + Cons(LBRACE, q), k).k.heap;
    forall x | x in Shown(inner, |q|) ensures Reads(h, |k.heap| + 1, c.entries[x], Shown(inner, |q|)[x]) {
      ReadsFrame(rc.k.heap, h, |k.heap| + 1, |k.heap| + 1, c.entries[x], Shown(inner, |q|)[x]);
    }
  }

  /** After `.. "key": [` the parser stores a string key into a list. */
  lemma BracketAtEnd(before: seq<Blank>, e: Entry, k: Store, base: seq<nat>, o: nat)
    requires WfHead(before, e) && DictOnTop(k, base, o)
    ensures ObjectContent(HeadText(before, e) + [LBRACKET], k) == Raised(TypeError, [])
  {
    hide SkipTrivia, Member, HeadText, HeadThen, ParseValue;
    var z: Text := [LBRACKET];
    assert z == Cons(LBRACKET, []);
    SolidStart(z);
    ParseArrayAt([], k);
    ValueMember(before, e, z, k);
  }

  /** `{"key": {` parses to an empty dict. */
  lemma ParseBraceAtEnd(before: seq<Blank>, e: Entry)
    requires WfHead(before, e)
    ensures Parse(Cons(LBRACE, HeadText(before, e) + [LBRACE]))
      == Done(PyRef(0), [], Store([0], [Dict(map[]), Dict(map[EntryKey(e) := PyRef(1)])]))
    ensures Parse(Cons(LBRACE, HeadText(before, e) + [LBRACKET])) == Raised(TypeError, [])
  {
    hide ObjectContent, SkipTrivia, HeadText;
    OpenStart();
    BraceAtEnd(before, e, Store([0], [Dict(map[])]), [], 0);
    BracketAtEnd(before, e, Store([0], [Dict(map[])]), [], 0);
    ParseHead(before, e, LBRACE);
    ParseHead(before, e, LBRACKET);
    assert [] + [0] == [0];
    assert [Dict(map[])] + [Dict(map[EntryKey(e) := PyRef(1)])] == [Dict(map[]), Dict(map[EntryKey(e) := PyRef(1)])];
  }

  lemma ParseHead(before: seq<Blank>, e: Entry, c: int)
    requires WfHead(before, e)
    ensures var (q, k) := (HeadText(before, e) + [c], Store([0], [Dict(map[])]));
      Parse(Cons(LBRACE, q)) == if ObjectContent(q, k).Raised? then ObjectContent(q, k) else ObjectContent(q, k).(v := PyRef(0))
  {
    hide ObjectContent, ParseValue, SkipTrivia, HeadText;
    var q := HeadText(before, e) + [c];
    assert [] + Cons(LBRACE, q) == Cons(LBRACE, q);
    StartAfter([], Cons(LBRACE, q));
    HeadParts(before, e);
    assert q[0] == HeadText(before, e)[0] == if before != [] then Chars(before)[0] else DQUOTE;
    assert IsSpace(q[0]) || q[0] == DQUOTE;
    assert Store([], []).Push(Dict(map[])) == Store([0], [Dict(map[])]);
    ParseObjectAt(q, Store([], []));
  }
}
