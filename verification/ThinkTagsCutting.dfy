/**
 For which texts the way they are cut into chunks matters: an opening tag is seen only where the text
 that is being looked at begins with it.
 */
module ThinkTagsCutting {
  import opened Strings
  import opened ThinkTagsSpec
  import opened ThinkTagsStream

  /** Reasoning and answer, the held text counted where it belongs. */
  function Sorted(g: State): Chunk {
    if g.thinking then Chunk(g.response, g.reasoning + g.unprocessed) else Chunk(g.response + g.unprocessed, g.reasoning)
  }

  /** Every way of cutting the text gives the same as not cutting it. */
  ghost predicate AllCutsAgree(s: string) {
    forall texts :: Concat(texts) == s ==> Sorted(Receive(INITIAL, texts)) == Sorted(Receive(INITIAL, [s]))
  }

  /** A thought, whatever its answer. */
  predicate Closes(t: Thought) {
    t.pair in THINKING_PAIRS && Find(t.AfterOpening(), t.pair.closing) == |t.reasoning|
  }

  ghost predicate TagFree(answer: string) {
    forall q :: q in THINKING_PAIRS ==> !Contains(answer, q.opening)
  }

  /** What follows the first closing tag of a text that starts with the opening tag of `p`. */
  function AnswerOf(s: string, p: Pair): string
    requires p.opening <= s
  {
    var rest := s[|p.opening|..];
    var c := Find(rest, p.closing);
    if c < 0 then "" else rest[c + |p.closing|..]
  }

  /** An opening tag behind a beginning of the text that is not held back as a possible tag. */
  ghost predicate TagInside(s: string) {
    exists q, i: nat :: q in THINKING_PAIRS && At(s, q.opening, i) && !HeldOutside(s[..i])
  }

  ghost predicate StartsWithTag(s: string) {
    exists p :: p in THINKING_PAIRS && p.opening <= s
  }

  /** The text starts with a thought, and its answer, if there is one, holds no opening tag; or it does not start
      with one, and an opening tag stands in it only behind a beginning of one. */
  ghost predicate Tame(s: string) {
    && (forall p :: p in THINKING_PAIRS && p.opening <= s ==> TagFree(AnswerOf(s, p)))
    && (StartsWithTag(s) || !TagInside(s))
  }

  // ---------- A thought without an end ----------

  ghost predicate Endless(g: State, p: Pair, seen: string) {
    && !g.nativeReasoning
    && (|| (|seen| < |p.opening| && seen <= p.opening && g == INITIAL.(unprocessed := seen))
        || (g.thinking && g.thinkingTag == p.closing && g.response == "" && seen == p.opening + (g.reasoning + g.unprocessed)))
  }

  lemma ContainsPart(rest: string, x: string, text: string, p: string)
    requires x + text <= rest && Find(text, p) >= 0
    ensures Contains(rest, p)
  {
    var i := Find(text, p);
    PartOf(rest, x, text);
    WindowAt(rest, |x|, |x| + |text|, text, p, i);
    assert At(rest, p, |x| + i);
  }

  lemma NotInPart(rest: string, p: string, x: string, text: string)
    requires Find(rest, p) < 0 && x + text <= rest
    ensures Find(text, p) < 0
  {
    if Find(text, p) >= 0 { ContainsPart(rest, x, text, p); }
  }

  lemma EndlessInside(g: State, p: Pair, rest: string, text: string, seen: string)
    requires !g.nativeReasoning && g.thinking && g.thinkingTag == p.closing && g.response == "" && g.unprocessed == ""
    requires Find(rest, p.closing) < 0 && g.reasoning + text <= rest && seen == p.opening + (g.reasoning + text)
    ensures var step := InsideSpan(g, text, "");
      Endless(step.state.(reasoning := g.reasoning + step.out.reasoningDelta, response := step.out.responseDelta), p, seen)
  {
    hide Find, IsPartialClosingTag;
    NotInPart(rest, p.closing, g.reasoning, text);
    assert "" + text == text && g.reasoning + "" == g.reasoning && g.reasoning + text + "" == g.reasoning + text;
  }

  lemma EndlessOn(g: State, p: Pair, rest: string, seen: string, text: string)
    requires Find(rest, p.closing) < 0 && Endless(g, p, seen) && g.thinking && seen + text <= p.opening + rest
    ensures Endless(AddChunk(g, Chunk(text, "")).state, p, seen + text)
  {
    hide InsideSpan, OutsideSpan, Find;
    var now, o, held := seen + text, p.opening, g.unprocessed + text;
    assert now == o + (g.reasoning + held);
    assert g.reasoning + held == now[|o|..] == (o + rest)[|o|..|now|] == rest[..|now| - |o|];
    EndlessInside(g.(unprocessed := ""), p, rest, held, now);
    var out := InsideSpan(g.(unprocessed := ""), held, "").out;
    assert "" + out.responseDelta == out.responseDelta;
  }

  lemma EndlessStart(p: Pair, rest: string, seen: string, text: string)
    requires p in THINKING_PAIRS && Find(rest, p.closing) < 0 && seen + text <= p.opening + rest
    ensures Endless(AddChunk(INITIAL.(unprocessed := seen), Chunk(text, "")).state, p, seen + text)
  {
    hide InsideSpan, OutsideSpan, Find;
    var now, o := seen + text, p.opening;
    assert INITIAL.(unprocessed := "") == INITIAL;
    OpeningTag(p, now);
    if |now| < |o| {
      assert now == (o + rest)[..|now|] == o[..|now|];
    } else {
      OpeningThere(p, rest, now);
      var inner := now[|o|..];
      EndlessInside(INITIAL.(thinking := true, thinkingTag := p.closing), p, rest, inner, now);
      var out := InsideSpan(INITIAL.(thinking := true, thinkingTag := p.closing), inner, "").out;
      assert "" + out.responseDelta == out.responseDelta && "" + out.reasoningDelta == out.reasoningDelta;
    }
  }

  lemma OpeningThere(p: Pair, rest: string, now: string)
    requires now <= p.opening + rest && |now| >= |p.opening|
    ensures var inner := now[|p.opening|..]; p.opening <= now && "" + inner <= rest && now == p.opening + ("" + inner)
  {
    var (o, inner) := (p.opening, now[|p.opening|..]);
    assert o == (o + rest)[..|o|] == now[..|o|];
    assert "" + inner == inner == (o + rest)[|o|..|now|] == rest[..|now| - |o|];
  }

  lemma EndlessStep(g: State, p: Pair, rest: string, seen: string, text: string)
    requires p in THINKING_PAIRS && Find(rest, p.closing) < 0 && Endless(g, p, seen) && seen + text <= p.opening + rest
    ensures Endless(AddChunk(g, Chunk(text, "")).state, p, seen + text)
  {
    hide AddChunk, Find;
    if g.thinking { EndlessOn(g, p, rest, seen, text); } else { EndlessStart(p, rest, seen, text); }
  }

  lemma {:induction false} EndlessTracks(texts: seq<string>, p: Pair, rest: string)
    requires p in THINKING_PAIRS && Find(rest, p.closing) < 0 && Concat(texts) <= p.opening + rest
    ensures Endless(Receive(INITIAL, texts), p, Concat(texts))
  {
    hide Find, AddChunk;
    if texts == [] {
      PairsDiffer();
      assert Receive(INITIAL, texts) == INITIAL;
    } else {
      var init, last := texts[..|texts| - 1], texts[|texts| - 1];
      assert texts == init + [last];
      ConcatLast(init, last);
      ReceiveLast(init, last);
      EndlessTracks(init, p, rest);
      EndlessStep(Receive(INITIAL, init), p, rest, Concat(init), last);
    }
  }

  // ---------- No thought at the start ----------

  ghost predicate Plain(g: State, seen: string) {
    && !g.nativeReasoning && !g.thinking && g.thinkingTag == "" && g.reasoning == ""
    && seen == g.response + g.unprocessed && (g.response == "" || !HeldOutside(g.response))
  }

  /** Outside a span, text that starts with no opening tag is held if it may yet become one, else passed on. */
  lemma OutsideExactly(g: State, text: string)
    requires g.unprocessed == "" && forall q :: q in THINKING_PAIRS ==> !(q.opening <= text)
    ensures OutsideSpan(g, THINKING_PAIRS, text, "")
      == if HeldOutside(text) then Step(g.(unprocessed := text), Chunk("", "")) else Step(g, Chunk(text, ""))
  {
    hide OutsideSpan;
    OutsideHoldsOrPasses(g, THINKING_PAIRS, text);
    if q :| q in THINKING_PAIRS && IsPartialOpeningTag(text, q.opening) {
      HoldsPartial(g, THINKING_PAIRS, text, q);
    }
  }

  lemma HeldBeginning(x: string, y: string)
    requires HeldOutside(x + y) && x + y != ""
    ensures HeldOutside(x)
  {
    var q :| q in THINKING_PAIRS && IsPartialOpeningTag(x + y, q.opening);
    assert x == (x + y)[..|x|] == q.opening[..|x|];
    if x != "" { assert IsPartialOpeningTag(x, q.opening); }
  }

  lemma TagAt(s: string, before: string, text: string, tag: string)
    requires before + text <= s && tag <= text
    ensures At(s, tag, |before|) && s[..|before|] == before && (before == "" ==> tag <= s)
  {
    var i := |before|;
    PartOf(s, before, text);
    SliceOfSlice(s, i, i + |text|, 0, |tag|);
    assert s[..i] == (before + text)[..i];
  }

  lemma NoTagAhead(s: string, response: string, text: string)
    requires !StartsWithTag(s) && !TagInside(s) && response + text <= s && (response == "" || !HeldOutside(response))
    ensures forall q :: q in THINKING_PAIRS ==> !(q.opening <= text)
  {
    hide HeldOutside, At;
    forall q | q in THINKING_PAIRS ensures !(q.opening <= text) {
      if q.opening <= text { TagAt(s, response, text, q.opening); }
    }
  }

  lemma PlainStep(g: State, s: string, seen: string, text: string)
    requires !StartsWithTag(s) && !TagInside(s) && Plain(g, seen) && seen + text <= s
    ensures Plain(AddChunk(g, Chunk(text, "")).state, seen + text)
  {
    hide OutsideSpan, InsideSpan, HeldOutside, TagInside, StartsWithTag;
    var held := g.unprocessed + text;
    assert g.response + held == seen + text;
    NoTagAhead(s, g.response, held);
    OutsideExactly(g.(unprocessed := ""), held);
    assert g.response + "" == g.response && g.response + held + "" == g.response + held;
    assert g.response == "" ==> g.response + held == held;
    if !HeldOutside(held) && g.response + held != "" && HeldOutside(g.response + held) {
      HeldBeginning(g.response, held);
    }
  }

  lemma {:induction false} PlainTracks(texts: seq<string>, s: string)
    requires !StartsWithTag(s) && !TagInside(s) && Concat(texts) <= s
    ensures Plain(Receive(INITIAL, texts), Concat(texts))
  {
    hide AddChunk, TagInside, StartsWithTag;
    if texts == [] {
      assert Receive(INITIAL, texts) == INITIAL;
    } else {
      var init, last := texts[..|texts| - 1], texts[|texts| - 1];
      assert texts == init + [last];
      ConcatLast(init, last);
      ReceiveLast(init, last);
      PlainTracks(init, s);
      PlainStep(Receive(INITIAL, init), s, Concat(init), last);
    }
  }

  // ---------- Cuts that make a difference ----------

  function Weight(g: State): nat {
    |g.reasoning| + |g.response| + |g.unprocessed|
  }

  lemma InsideWeight(g: State, text: string)
    requires g.unprocessed == ""
    ensures var step := InsideSpan(g, text, "");
      |step.out.reasoningDelta| + |step.out.responseDelta| + |step.state.unprocessed| <= |text|
  {
  }

  lemma OutsideOpens(g: State, p: Pair, text: string)
    requires p in THINKING_PAIRS && p.opening <= text
    ensures OutsideSpan(g, THINKING_PAIRS, text, "")
      == InsideSpan(g.(thinking := true, thinkingTag := p.closing), text[|p.opening|..], "")
  {
    hide InsideSpan;
    PairsDiffer();
    assert text[1] == p.opening[1];
    var p0 := THINKING_PAIRS[0];
    if p0.opening <= text {
      assert text[1] == p0.opening[1];
    } else {
      assert !IsPartialOpeningTag(text, p0.opening);
      assert [THINKING_PAIRS[1]][0] == p;
    }
  }

  /** A chunk that starts with an opening tag loses it. */
  lemma TagRemoved(g: State, q: Pair, text: string)
    requires !g.thinking && !g.nativeReasoning && g.unprocessed == "" && q in THINKING_PAIRS && q.opening <= text
    ensures Weight(AddChunk(g, Chunk(text, "")).state) < Weight(g) + |text|
  {
    hide OutsideSpan, InsideSpan;
    PairsDiffer();
    assert "" + text == text;
    assert g.(unprocessed := "") == g;
    OutsideOpens(g, q, text);
    InsideWeight(g.(thinking := true, thinkingTag := q.closing), text[|q.opening|..]);
  }

  lemma ReceiveOne(text: string)
    ensures Receive(INITIAL, [text]) == AddChunk(INITIAL, Chunk(text, "")).state && Concat([text]) == text
  {
    assert [] + [text] == [text];
    ReceiveLast([], text);
    assert Receive(INITIAL, []) == INITIAL;
    assert text + Concat([]) == text;
  }

  /** Two chunks, the second of which starts with a tag, and a text that passes whole when it is not cut. */
  lemma CutsDiffer(s: string, i: nat, q: Pair)
    requires i <= |s| && q in THINKING_PAIRS && q.opening <= s[i..]
    requires var g := Receive(INITIAL, [s[..i]]); !g.thinking && !g.nativeReasoning && g.unprocessed == ""
    requires Weight(Receive(INITIAL, [s])) == Weight(Receive(INITIAL, [s[..i]])) + |s[i..]|
    ensures !AllCutsAgree(s)
  {
    hide AddChunk, Receive;
    var texts := [s[..i], s[i..]];
    assert texts == [s[..i]] + [s[i..]];
    ConcatLast([s[..i]], s[i..]);
    ReceiveOne(s[..i]);
    assert s[..i] + s[i..] == s;
    assert Concat(texts) == s;
    ReceiveLast([s[..i]], s[i..]);
    TagRemoved(Receive(INITIAL, [s[..i]]), q, s[i..]);
    SortedWeight(Receive(INITIAL, texts));
    SortedWeight(Receive(INITIAL, [s]));
  }

  lemma SortedWeight(g: State)
    ensures |Sorted(g).reasoningDelta| + |Sorted(g).responseDelta| == Weight(g)
  {
  }

  lemma FirstPart(t: Thought, part: string)
    requires Closes(t) && part <= t.answer
    ensures AddChunk(INITIAL, Chunk(t.pair.opening + (t.reasoning + (t.pair.closing + part)), "")).state
      == State(t.reasoning, part, false, "", "", false)
  {
    hide AddChunk;
    FirstChunk(t, part);
  }

  lemma WholeText(t: Thought)
    ensures t.Text() == t.pair.opening + (t.reasoning + (t.pair.closing + t.answer))
  {
  }

  lemma CutAnswer(t: Thought, i: nat) returns (first: string)
    requires i <= |t.answer|
    ensures first == t.pair.opening + (t.reasoning + (t.pair.closing + t.answer[..i]))
    ensures |first| <= |t.Text()| && t.Text()[..|first|] == first && t.Text()[|first|..] == t.answer[i..]
  {
    first := t.pair.opening + (t.reasoning + (t.pair.closing + t.answer[..i]));
    assert t.answer == t.answer[..i] + t.answer[i..];
    assert t.Text() == first + t.answer[i..];
  }

  lemma AnswerTagSeen(t: Thought, q: Pair, i: nat)
    requires Closes(t) && q in THINKING_PAIRS && At(t.answer, q.opening, i)
    ensures !AllCutsAgree(t.Text())
  {
    AtStart(t.answer, q.opening, i);
    hide AddChunk, Receive, AllCutsAgree, Find, At, Closes, Thought.Text;
    var s, part := t.Text(), t.answer[..i];
    var first := CutAnswer(t, i);
    var n := |first|;
    assert s == t.pair.opening + (t.reasoning + (t.pair.closing + t.answer)) by { WholeText(t); }
    FirstPart(t, part);
    FirstPart(t, t.answer);
    ReceiveOne(first);
    ReceiveOne(s);
    CutsDiffer(s, n, q);
  }

  lemma AtStart(s: string, p: string, i: nat)
    requires At(s, p, i)
    ensures i <= |s| && p <= s[i..]
  {
    assert s[i..][..|p|] == s[i..i + |p|];
  }

  lemma PrefixOfPart(p: string, s: string, i: nat)
    requires i <= |s|
    ensures p <= s[..i] ==> p <= s
  {
  }

  lemma PassesWhole(s: string)
    requires !StartsWithTag(s) && !HeldOutside(s)
    ensures Receive(INITIAL, [s]) == INITIAL.(response := s)
  {
    hide OutsideSpan, HeldOutside;
    ReceiveOne(s);
    assert "" + s == s && "" + "" == "";
    assert forall q :: q in THINKING_PAIRS ==> !(q.opening <= s);
    OutsideExactly(INITIAL, s);
  }

  lemma PlainTagSeen(s: string, q: Pair, i: nat)
    requires !StartsWithTag(s) && q in THINKING_PAIRS && At(s, q.opening, i) && !HeldOutside(s[..i])
    ensures !AllCutsAgree(s)
  {
    AtStart(s, q.opening, i);
    hide HeldOutside, AllCutsAgree, Receive, At;
    assert s == s[..i] + s[i..];
    if HeldOutside(s) { HeldBeginning(s[..i], s[i..]) by { PairsDiffer(); } }
    forall p | p in THINKING_PAIRS ensures !(p.opening <= s[..i]) {
      PrefixOfPart(p.opening, s, i);
    }
    PassesWhole(s);
    PassesWhole(s[..i]);
    CutsDiffer(s, i, q);
  }

  // ---------- Exactly when ----------

  lemma ThoughtAgrees(s: string, p: Pair)
    requires p in THINKING_PAIRS && p.opening <= s
    ensures AllCutsAgree(s) <==> TagFree(AnswerOf(s, p))
  {
    hide Receive, Find, Contains;
    var rest := s[|p.opening|..];
    var c := Find(rest, p.closing);
    assert s == p.opening + rest;
    ReceiveOne(s);
    if c < 0 {
      EmptyTagFree();
      forall texts | Concat(texts) == s ensures Sorted(Receive(INITIAL, texts)) == Sorted(Receive(INITIAL, [s])) {
        EndlessSorted(texts, p, rest);
        EndlessSorted([s], p, rest);
      }
    } else {
      var t := ThoughtOf(p, rest, c);
      assert t.Text() == s && t.answer == AnswerOf(s, p);
      if TagFree(t.answer) {
        assert t.Valid();
        forall texts | Concat(texts) == s ensures Sorted(Receive(INITIAL, texts)) == Sorted(Receive(INITIAL, [s])) {
          ChunkingIndependence(texts, t);
          ChunkingIndependence([s], t);
        }
      } else {
        var q :| q in THINKING_PAIRS && Contains(t.answer, q.opening);
        var i := Occurrence(t.answer, q.opening);
        AnswerTagSeen(t, q, i);
      }
    }
  }

  lemma Occurrence(s: string, p: string) returns (i: nat)
    requires Contains(s, p)
    ensures At(s, p, i)
  {
    i :| At(s, p, i);
  }

  lemma SomeTag(s: string) returns (q: Pair, i: nat)
    requires TagInside(s)
    ensures q in THINKING_PAIRS && At(s, q.opening, i) && !HeldOutside(s[..i])
  {
    q, i :| q in THINKING_PAIRS && At(s, q.opening, i) && !HeldOutside(s[..i]);
  }

  lemma EmptyTagFree()
    ensures TagFree("")
  {
    PairsDiffer();
  }

  lemma ThoughtOf(p: Pair, rest: string, c: nat) returns (t: Thought)
    requires p in THINKING_PAIRS && Find(rest, p.closing) == c
    ensures t == Thought(p, rest[..c], rest[c + |p.closing|..]) && Closes(t) && t.AfterOpening() == rest
  {
    hide Find, Contains;
    t := Thought(p, rest[..c], rest[c + |p.closing|..]);
    ThreeParts(rest, p.closing, c);
  }

  lemma ThreeParts(s: string, tag: string, c: nat)
    requires At(s, tag, c)
    ensures s[..c] + (tag + s[c + |tag|..]) == s
  {
    assert s[c..] == s[c..c + |tag|] + s[c + |tag|..];
  }

  lemma EndlessSorted(texts: seq<string>, p: Pair, rest: string)
    requires p in THINKING_PAIRS && Find(rest, p.closing) < 0 && Concat(texts) == p.opening + rest
    ensures Sorted(Receive(INITIAL, texts)) == Chunk("", rest)
  {
    hide Receive, Find;
    EndlessTracks(texts, p, rest);
    var g := Receive(INITIAL, texts);
    assert (p.opening + (g.reasoning + g.unprocessed))[|p.opening|..] == (p.opening + rest)[|p.opening|..];
  }

  /** For every text: every way of cutting it into chunks gives the same reasoning and the same answer if and only
      if the text is tame. */
  lemma CutsAgreeExactly(s: string)
    ensures AllCutsAgree(s) <==> Tame(s)
  {
    hide Receive, AnswerOf, TagFree, HeldOutside, At;
    if StartsWithTag(s) {
      var p :| p in THINKING_PAIRS && p.opening <= s;
      ThoughtAgrees(s, p);
      forall p' | p' in THINKING_PAIRS && p'.opening <= s ensures p' == p {
        OneOpening(s, p, p');
      }
    } else if TagInside(s) {
      var q, i := SomeTag(s);
      PlainTagSeen(s, q, i);
    } else {
      ReceiveOne(s);
      forall texts | Concat(texts) == s ensures Sorted(Receive(INITIAL, texts)) == Sorted(Receive(INITIAL, [s])) {
        PlainTracks(texts, s);
        PlainTracks([s], s);
      }
    }
  }

  lemma OneOpening(s: string, p: Pair, p': Pair)
    requires p in THINKING_PAIRS && p' in THINKING_PAIRS && p.opening <= s && p'.opening <= s
    ensures p == p'
  {
    PairsDiffer();
    assert s[1] == p.opening[1] == p'.opening[1];
  }
}
