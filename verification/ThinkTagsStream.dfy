/**
 Streams of chunks: how the text is cut does not matter, nothing is lost, and held text is always the
 possible start of a tag.
 */
module ThinkTagsStream {
  import opened Strings
  import opened ThinkTagsSpec

  // ---------- Occurrences that straddle a boundary ----------

  lemma SliceOfSlice(s: string, a: nat, b: nat, c: nat, d: nat)
    requires a <= b <= |s| && c <= d && a + d <= b
    ensures s[a..b][c..d] == s[a + c..a + d]
  {
    assert forall i :: 0 <= i < d - c ==> s[a..b][c..d][i] == s[a + c + i];
  }

  /** A window of `whole` holds the occurrences of `whole` that lie inside it, and no others. */
  lemma Window(whole: string, a: nat, b: nat, p: string, j: nat)
    requires a <= b <= |whole|
    ensures At(whole[a..b], p, j) <==> At(whole, p, a + j) && a + j + |p| <= b
  {
    if a + j + |p| <= b {
      SliceOfSlice(whole, a, b, j, j + |p|);
    }
  }

  /** A concatenation ends in the start of a tag only if one of its parts does. */
  lemma PartialConcat(x: string, y: string, tag: string)
    ensures IsPartialClosingTag(x + y, tag) ==> IsPartialClosingTag(x, tag) || IsPartialClosingTag(y, tag)
  {
    if IsPartialClosingTag(x + y, tag) {
      var i :| 1 <= i < |tag| && i <= |x + y| && EndsWith(x + y, tag[..i]);
      var z := (x + y)[|x + y| - i..];
      if i <= |y| {
        assert z == y[|y| - i..];
        assert EndsWith(y, tag[..i]);
      } else {
        var m := i - |y|;
        assert z == x[|x| - m..] + y;
        assert tag[..m] == tag[..i][..m] == z[..m] == x[|x| - m..];
        assert EndsWith(x, tag[..m]);
      }
    }
  }

  /** A tag that begins in `x` and ends after it leaves its start at the end of `x`. */
  lemma Straddle(x: string, y: string, tag: string, i: nat)
    requires At(x + y, tag, i) && i < |x|
    ensures At(x, tag, i) || IsPartialClosingTag(x, tag)
  {
    if i + |tag| > |x| {
      var m := |x| - i;
      assert tag[..m] == (x + y)[i..i + |tag|][..m] == x[i..];
      assert EndsWith(x, tag[..m]);
    } else {
      assert (x + y)[i..i + |tag|] == x[i..i + |tag|];
    }
  }

  // ---------- Independence of chunking ----------

  /** A stream that thinks first: an opening tag, reasoning, its closing tag, and an answer without tags. */
  datatype Thought = Thought(pair: Pair, reasoning: string, answer: string) {
    ghost predicate Valid() {
      && pair in THINKING_PAIRS
      && Find(AfterOpening(), pair.closing) == |reasoning|
      && forall q :: q in THINKING_PAIRS ==> !Contains(answer, q.opening)
    }

    function AfterOpening(): string {
      reasoning + (pair.closing + answer)
    }

    function Text(): string {
      pair.opening + AfterOpening()
    }
  }

  ghost predicate HeldOutside(text: string) {
    text == "" || exists q :: q in THINKING_PAIRS && IsPartialOpeningTag(text, q.opening)
  }

  /** The state after `seen` characters of the stream. */
  ghost predicate Tracks(g: State, t: Thought, seen: string) {
    && !g.nativeReasoning
    && (|| BeforeTag(g, t, seen) || InThought(g, t, seen) || AfterThought(g, t, seen))
  }

  ghost predicate BeforeTag(g: State, t: Thought, seen: string) {
    |seen| < |t.pair.opening| && seen <= t.pair.opening && g == INITIAL.(unprocessed := seen)
  }

  ghost predicate InThought(g: State, t: Thought, seen: string) {
    && g.thinking && g.thinkingTag == t.pair.closing && g.response == ""
    && seen == t.pair.opening + (g.reasoning + g.unprocessed)
    && |g.reasoning| + |g.unprocessed| < |t.reasoning| + |t.pair.closing|
    && !IsPartialClosingTag(g.reasoning, t.pair.closing)
  }

  ghost predicate AfterThought(g: State, t: Thought, seen: string) {
    && !g.thinking && g.thinkingTag == "" && g.reasoning == t.reasoning
    && seen == t.pair.opening + (t.reasoning + (t.pair.closing + (g.response + g.unprocessed)))
    && HeldOutside(g.unprocessed)
  }

  /** Text that stops inside the closing tag ends in the start of it. */
  lemma StopsInTag(r: string, tag: string, more: string, x: string)
    requires x <= r + (tag + more) && |r| < |x| < |r| + |tag|
    ensures IsPartialClosingTag(x, tag)
  {
    var m := |x| - |r|;
    var whole := r + (tag + more);
    assert whole[|r|..|x|] == tag[..m];
    assert x[|r|..] == whole[..|x|][|r|..] == whole[|r|..|x|];
    assert EndsWith(x, tag[..m]);
  }

  /** The closing tag is in a window of the stream exactly when the window reaches past it. */
  lemma ClosingInWindow(whole: string, n: nat, tag: string, x: string, y: string)
    requires Find(whole, tag) == n && x + y <= whole && |x| <= n && tag != ""
    ensures Find(y, tag) == if |x| + |y| >= n + |tag| then n - |x| else -1
  {
    hide Find, Contains, At;
    PartOf(whole, x, y);
    FindInPart(whole, n, |x|, |x| + |y|, y, tag);
  }

  lemma FindInPart(whole: string, n: nat, a: nat, b: nat, y: string, tag: string)
    requires a <= b <= |whole| && y == whole[a..b] && Find(whole, tag) == n && a <= n
    ensures Find(y, tag) == if b >= n + |tag| then n - a else -1
  {
    hide At, Contains, Find;
    if Find(y, tag) >= 0 { FoundInWhole(whole, n, a, b, y, tag); }
    if b >= n + |tag| { FoundInPart(whole, n, a, b, y, tag); }
  }

  lemma FoundInWhole(whole: string, n: nat, a: nat, b: nat, y: string, tag: string)
    requires a <= b <= |whole| && y == whole[a..b] && Find(whole, tag) == n && Find(y, tag) >= 0
    ensures n <= a + Find(y, tag) && a + Find(y, tag) + |tag| <= b
  {
    var i := Find(y, tag);
    WindowAt(whole, a, b, y, tag, i);
    NotBefore(whole, tag, a + i);
  }

  lemma FoundInPart(whole: string, n: nat, a: nat, b: nat, y: string, tag: string)
    requires a <= n && n + |tag| <= b <= |whole| && y == whole[a..b] && Find(whole, tag) == n
    ensures 0 <= Find(y, tag) <= n - a
  {
    WindowAt(whole, a, b, y, tag, n - a);
    NotBefore(y, tag, n - a);
  }

  lemma NotBefore(s: string, p: string, i: nat)
    requires At(s, p, i)
    ensures 0 <= Find(s, p) <= i
  {
    assert Contains(s, p);
  }

  lemma PartOf(whole: string, x: string, y: string)
    requires x + y <= whole
    ensures y == whole[|x|..|x| + |y|]
  {
    forall i | 0 <= i < |y| ensures y[i] == whole[|x| + i] {
      assert (x + y)[|x| + i] == y[i];
    }
  }

  lemma WindowAt(whole: string, a: nat, b: nat, y: string, p: string, j: nat)
    requires a <= b <= |whole| && y == whole[a..b]
    ensures At(y, p, j) <==> At(whole, p, a + j) && a + j + |p| <= b
  {
    Window(whole, a, b, p, j);
  }

  /** Text inside the thought, `x` of it already passed on: where the closing tag is looked for and found. */
  lemma InsideFind(t: Thought, x: string, y: string)
    requires t.Valid() && x + y <= t.AfterOpening() && !IsPartialClosingTag(x, t.pair.closing)
    requires |x| < |t.reasoning| + |t.pair.closing|
    ensures |x| <= |t.reasoning|
    ensures Find(y, t.pair.closing)
      == if |x| + |y| >= |t.reasoning| + |t.pair.closing| then |t.reasoning| - |x| else -1
  {
    if |x| > |t.reasoning| {
      assert x <= x + y;
      StopsInTag(t.reasoning, t.pair.closing, t.answer, x);
    }
    PairsDiffer();
    ClosingInWindow(t.AfterOpening(), |t.reasoning|, t.pair.closing, x, y);
  }

  /** Text that reaches past the closing tag is the reasoning, the tag, and the start of the answer. */
  lemma SplitAtClosing(r: string, tag: string, more: string, x: string, y: string)
    requires x + y <= r + (tag + more) && |x| <= |r| && |x| + |y| >= |r| + |tag|
    ensures var c := |r| - |x|;
      x + y[..c] == r && x + y == r + (tag + y[c + |tag|..])
  {
    var c := |r| - |x|;
    var z, rest := x + y[..c], y[c + |tag|..];
    forall i | 0 <= i < |r| ensures z[i] == r[i] {
      assert (x + y)[i] == (r + (tag + more))[i];
    }
    forall i | 0 <= i < |tag| ensures y[c + i] == tag[i] {
      assert (x + y)[|r| + i] == (r + (tag + more))[|r| + i];
    }
    assert z == r;
    assert y[c..c + |tag|] == tag;
    Rejoined(x, y, c, |tag|);
  }

  lemma Rejoined(x: string, y: string, c: nat, n: nat)
    requires c + n <= |y|
    ensures x + y == (x + y[..c]) + (y[c..c + n] + y[c + n..])
  {
  }

  lemma InsideTracks(g: State, t: Thought, text: string, seen: string)
    requires t.Valid() && g.thinking && g.thinkingTag == t.pair.closing && g.response == "" && g.unprocessed == ""
    requires !g.nativeReasoning
    requires seen == t.pair.opening + (g.reasoning + text) && g.reasoning + text <= t.AfterOpening()
    requires |g.reasoning| < |t.reasoning| + |t.pair.closing| && !IsPartialClosingTag(g.reasoning, t.pair.closing)
    ensures var step := InsideSpan(g, text, "");
      Tracks(step.state.(reasoning := g.reasoning + step.out.reasoningDelta, response := step.out.responseDelta), t, seen)
  {
    hide Find, IsPartialClosingTag, Contains, Tracks;
    InsideFind(t, g.reasoning, text);
    if Find(text, t.pair.closing) >= 0 {
      var before, response := InsideClosed(g, t, text);
      AnswerStarts(g, t, response, seen);
    } else {
      InsideOpen(g, t, text, seen);
    }
  }

  lemma ClosesAt(g: State, text: string, c: nat)
    requires Find(text, g.thinkingTag) == c
    ensures InsideSpan(g, text, "") == Step(g.(thinking := false, thinkingTag := ""), Chunk(text[c + |g.thinkingTag|..], text[..c]))
  {
    assert "" + text[..c] == text[..c];
  }

  lemma InsideClosed(g: State, t: Thought, text: string) returns (before: string, response: string)
    requires g.thinkingTag == t.pair.closing && g.reasoning + text <= t.AfterOpening()
    requires |g.reasoning| <= |t.reasoning| && |g.reasoning| + |text| >= |t.reasoning| + |t.pair.closing|
    requires Find(text, t.pair.closing) == |t.reasoning| - |g.reasoning|
    ensures InsideSpan(g, text, "") == Step(g.(thinking := false, thinkingTag := ""), Chunk(response, before))
    ensures g.reasoning + before == t.reasoning && g.reasoning + text == t.reasoning + (t.pair.closing + response)
  {
    hide Find, InsideSpan;
    var tag, c := t.pair.closing, |t.reasoning| - |g.reasoning|;
    before, response := text[..c], text[c + |tag|..];
    SplitAtClosing(t.reasoning, tag, t.answer, g.reasoning, text);
    ClosesAt(g, text, c);
  }

  lemma AnswerStarts(g: State, t: Thought, response: string, seen: string)
    requires g.unprocessed == "" && !g.nativeReasoning && seen == t.pair.opening + (t.reasoning + (t.pair.closing + response))
    ensures Tracks(g.(thinking := false, thinkingTag := "", reasoning := t.reasoning, response := response), t, seen)
  {
    assert response + "" == response;
    assert AfterThought(g.(thinking := false, thinkingTag := "", reasoning := t.reasoning, response := response), t, seen);
  }

  lemma InsideOpen(g: State, t: Thought, text: string, seen: string)
    requires t.Valid() && g.thinking && g.thinkingTag == t.pair.closing && g.response == "" && g.unprocessed == ""
    requires !g.nativeReasoning
    requires seen == t.pair.opening + (g.reasoning + text)
    requires |g.reasoning| + |text| < |t.reasoning| + |t.pair.closing| && !IsPartialClosingTag(g.reasoning, t.pair.closing)
    requires Find(text, t.pair.closing) < 0
    ensures var step := InsideSpan(g, text, "");
      Tracks(step.state.(reasoning := g.reasoning + step.out.reasoningDelta, response := step.out.responseDelta), t, seen)
  {
    hide Find, IsPartialClosingTag, Contains;
    var x, tag := g.reasoning, t.pair.closing;
    var step := InsideSpan(g, text, "");
    var g' := step.state.(reasoning := g.reasoning + step.out.reasoningDelta, response := step.out.responseDelta);
    if IsPartialClosingTag(text, tag) {
      assert x + "" == x;
    } else {
      PartialConcat(x, text, tag);
      assert "" + text == text && (x + text) + "" == x + text;
    }
    assert InThought(g', t, seen);
  }

  lemma PairsDiffer()
    ensures |THINKING_PAIRS| == 2 && THINKING_PAIRS[1..] == [THINKING_PAIRS[1]]
    ensures forall q :: q in THINKING_PAIRS ==> |q.opening| > 1 && q.closing != ""
    ensures THINKING_PAIRS[0].opening[1] != THINKING_PAIRS[1].opening[1]
    ensures |THINKING_PAIRS[0].opening| <= |THINKING_PAIRS[1].opening|
  {
  }

  /** One of two opening tags with different second characters, at the start of the text or cut short. */
  lemma FirstOfTwo(p0: Pair, p1: Pair, p: Pair, text: string)
    requires |p0.opening| > 1 && |p1.opening| > 1 && p0.opening[1] != p1.opening[1] && |p0.opening| <= |p1.opening|
    requires p == p0 || p == p1
    ensures p.opening <= text ==>
      OutsideSpan(INITIAL, [p0, p1], text, "") == InsideSpan(INITIAL.(thinking := true, thinkingTag := p.closing), text[|p.opening|..], "")
    ensures text <= p.opening && |text| < |p.opening| ==>
      OutsideSpan(INITIAL, [p0, p1], text, "") == Step(INITIAL.(unprocessed := text), Chunk("", ""))
  {
    hide InsideSpan;
    assert [p0, p1][1..] == [p1] && [p1][1..] == [];
    assert OutsideSpan(INITIAL, [], text, "") == Step(INITIAL, Chunk(text, ""));
    if text == "" { assert OutsideSpan(INITIAL, [p1], text, "") == Step(INITIAL, Chunk("", "")); }
    if p.opening <= text { assert text[1] == p.opening[1]; }
    if p0.opening <= text { assert text[1] == p0.opening[1]; }
    if text <= p.opening && |text| > 1 { assert text[1] == p.opening[1]; }
    if IsPartialOpeningTag(text, p0.opening) && |text| > 1 { assert text[1] == p0.opening[1]; }
  }

  lemma OpeningTag(p: Pair, text: string)
    requires p in THINKING_PAIRS
    ensures p.opening <= text ==>
      OutsideSpan(INITIAL, THINKING_PAIRS, text, "") == InsideSpan(INITIAL.(thinking := true, thinkingTag := p.closing), text[|p.opening|..], "")
    ensures text <= p.opening && |text| < |p.opening| ==>
      OutsideSpan(INITIAL, THINKING_PAIRS, text, "") == Step(INITIAL.(unprocessed := text), Chunk("", ""))
  {
    hide OutsideSpan, InsideSpan;
    PairsDiffer();
    FirstOfTwo(THINKING_PAIRS[0], THINKING_PAIRS[1], p, text);
    assert THINKING_PAIRS == [THINKING_PAIRS[0], THINKING_PAIRS[1]];
  }

  /** Outside a span, text without an opening tag is held or passed on whole. */
  lemma {:induction false} OutsideHoldsOrPasses(g: State, pairs: seq<Pair>, text: string)
    requires forall q :: q in pairs ==> !(q.opening <= text)
    ensures var step := OutsideSpan(g, pairs, text, "");
      || (step == Step(g.(unprocessed := text), Chunk("", "")) && exists q :: q in pairs && IsPartialOpeningTag(text, q.opening))
      || step == Step(g, Chunk(text, ""))
  {
    if pairs != [] && !IsPartialOpeningTag(text, pairs[0].opening) {
      OutsideHoldsOrPasses(g, pairs[1..], text);
    }
  }

  lemma NoOpeningInPart(answer: string, before: string, text: string)
    requires before + text <= answer && forall q :: q in THINKING_PAIRS ==> !Contains(answer, q.opening)
    ensures forall q :: q in THINKING_PAIRS ==> !(q.opening <= text)
  {
    forall q | q in THINKING_PAIRS ensures !(q.opening <= text) {
      if q.opening <= text {
        var i, n := |before|, |q.opening|;
        assert text == answer[i..i + |text|];
        SliceOfSlice(answer, i, i + |text|, 0, n);
        assert At(answer, q.opening, i);
      }
    }
  }

  lemma AnswerTracks(g: State, t: Thought, text: string, seen: string)
    requires t.Valid() && !g.nativeReasoning && !g.thinking && g.thinkingTag == "" && g.reasoning == t.reasoning && g.unprocessed == ""
    requires seen == t.pair.opening + (t.reasoning + (t.pair.closing + (g.response + text))) && g.response + text <= t.answer
    ensures var step := OutsideSpan(g, THINKING_PAIRS, text, "");
      Tracks(step.state.(reasoning := g.reasoning + step.out.reasoningDelta, response := g.response + step.out.responseDelta), t, seen)
  {
    hide Find, Contains, OutsideSpan;
    NoOpeningInPart(t.answer, g.response, text);
    OutsideHoldsOrPasses(g, THINKING_PAIRS, text);
    assert g.reasoning + "" == g.reasoning && g.response + "" == g.response && (g.response + text) + "" == g.response + text;
    var step := OutsideSpan(g, THINKING_PAIRS, text, "");
    assert AfterThought(step.state.(reasoning := g.reasoning + step.out.reasoningDelta, response := g.response + step.out.responseDelta), t, seen);
  }

  lemma NothingPartial(tag: string)
    ensures !IsPartialClosingTag("", tag)
  {
  }

  lemma TagStep(g: State, t: Thought, seen: string, text: string)
    requires t.Valid() && BeforeTag(g, t, seen) && seen + text <= t.Text()
    ensures Tracks(AddChunk(g, Chunk(text, "")).state, t, seen + text)
  {
    hide InsideSpan, OutsideSpan, Find, IsPartialClosingTag, Contains;
    var now, o := seen + text, t.pair.opening;
    assert g.(unprocessed := "") == INITIAL && now == t.Text()[..|now|];
    OpeningTag(t.pair, now);
    if |now| < |o| {
      assert now == o[..|now|];
      assert BeforeTag(AddChunk(g, Chunk(text, "")).state, t, now);
    } else {
      assert o == t.Text()[..|o|] == now[..|o|];
      var inner := now[|o|..];
      assert inner == t.AfterOpening()[..|inner|];
      assert now == o + ("" + inner) && "" + inner == inner;
      NothingPartial(t.pair.closing);
      PairsDiffer();
      InsideTracks(INITIAL.(thinking := true, thinkingTag := t.pair.closing), t, inner, now);
      var out := InsideSpan(INITIAL.(thinking := true, thinkingTag := t.pair.closing), inner, "").out;
      assert "" + out.responseDelta == out.responseDelta;
    }
  }

  lemma ThoughtStep(g: State, t: Thought, seen: string, text: string)
    requires t.Valid() && !g.nativeReasoning && InThought(g, t, seen) && seen + text <= t.Text()
    ensures Tracks(AddChunk(g, Chunk(text, "")).state, t, seen + text)
  {
    hide InsideSpan, OutsideSpan, Find, IsPartialClosingTag, Contains;
    var now, o, held := seen + text, t.pair.opening, g.unprocessed + text;
    assert now == o + (g.reasoning + held);
    assert g.reasoning + held == now[|o|..] == t.AfterOpening()[..|now| - |o|];
    InsideTracks(g.(unprocessed := ""), t, held, now);
    var out := InsideSpan(g.(unprocessed := ""), held, "").out;
    assert "" + out.responseDelta == out.responseDelta;
  }

  lemma AnswerStep(g: State, t: Thought, seen: string, text: string)
    requires t.Valid() && !g.nativeReasoning && AfterThought(g, t, seen) && seen + text <= t.Text()
    ensures Tracks(AddChunk(g, Chunk(text, "")).state, t, seen + text)
  {
    hide InsideSpan, OutsideSpan, Find, IsPartialClosingTag, Contains;
    var now, held := seen + text, g.unprocessed + text;
    assert now == t.pair.opening + (t.reasoning + (t.pair.closing + (g.response + held))) by {
      Regroup(t.pair.opening, t.reasoning, t.pair.closing, g.response, g.unprocessed, text);
    }
    PrefixBehind(t.pair.opening, t.reasoning, t.pair.closing, g.response + held, t.answer);
    AnswerTracks(g.(unprocessed := ""), t, held, now);
  }

  lemma Regroup(a: string, b: string, c: string, d: string, e: string, f: string)
    ensures a + (b + (c + (d + e))) + f == a + (b + (c + (d + (e + f))))
  {
  }

  lemma PrefixBehind(a: string, b: string, c: string, x: string, y: string)
    requires a + (b + (c + x)) <= a + (b + (c + y))
    ensures x <= y
  {
    var n := |a| + |b| + |c|;
    forall i | 0 <= i < |x| ensures x[i] == y[i] {
      assert (a + (b + (c + x)))[n + i] == (a + (b + (c + y)))[n + i];
    }
  }

  lemma StepTracks(g: State, t: Thought, seen: string, text: string)
    requires t.Valid() && Tracks(g, t, seen) && seen + text <= t.Text()
    ensures Tracks(AddChunk(g, Chunk(text, "")).state, t, seen + text)
  {
    if BeforeTag(g, t, seen) {
      TagStep(g, t, seen, text);
    } else if InThought(g, t, seen) {
      ThoughtStep(g, t, seen, text);
    } else {
      AnswerStep(g, t, seen, text);
    }
  }

  lemma {:induction false} ReceiveTracks(texts: seq<string>, t: Thought)
    requires t.Valid() && Concat(texts) <= t.Text()
    ensures Tracks(Receive(INITIAL, texts), t, Concat(texts))
  {
    if texts == [] {
      assert BeforeTag(INITIAL, t, "");
    } else {
      var init, last := texts[..|texts| - 1], texts[|texts| - 1];
      assert texts == init + [last];
      ConcatLast(init, last);
      ReceiveTracks(init, t);
      StepTracks(Receive(INITIAL, init), t, Concat(init), last);
      assert TextChunks(texts)[..|texts| - 1] == TextChunks(init);
    }
  }

  /** However the stream is cut into chunks, it ends with exactly its reasoning, and with its answer,
      of which a possible tag start may still be held back. */
  lemma ChunkingIndependence(texts: seq<string>, t: Thought)
    requires t.Valid() && Concat(texts) == t.Text()
    ensures var g := Receive(INITIAL, texts);
      !g.thinking && g.reasoning == t.reasoning && g.response + g.unprocessed == t.answer && HeldOutside(g.unprocessed)
  {
    ReceiveTracks(texts, t);
    var g := Receive(INITIAL, texts);
    var whole := t.AfterOpening();
    assert t.Text()[|t.pair.opening|..] == whole;
    assert AfterThought(g, t, t.Text());
    assert whole == t.reasoning + (t.pair.closing + (g.response + g.unprocessed));
    assert whole[|t.reasoning| + |t.pair.closing|..] == t.answer == g.response + g.unprocessed;
  }

  /** `output()` shows the reasoning and the answer for every way of cutting the stream if and only if
      the answer is not itself the start of an opening tag, or there is no reasoning. */
  lemma OutputIndependence(t: Thought)
    requires t.Valid()
    ensures (forall texts :: Concat(texts) == t.Text() ==> Output(Receive(INITIAL, texts)) == Chunk(t.answer, t.reasoning))
      <==> t.answer == "" || t.reasoning == "" || !HeldOutside(t.answer)
  {
    if t.answer == "" || t.reasoning == "" || !HeldOutside(t.answer) {
      forall texts | Concat(texts) == t.Text() ensures Output(Receive(INITIAL, texts)) == Chunk(t.answer, t.reasoning) {
        ChunkingIndependence(texts, t);
        var g := Receive(INITIAL, texts);
        if g.response == "" { assert g.unprocessed == t.answer; }
        if g.unprocessed == "" { assert g.response == t.answer; }
      }
    } else {
      HeldAnswer(t);
    }
  }

  /** Cut just before such an answer: it is held, and shown as reasoning. */
  lemma HeldAnswer(t: Thought)
    requires t.Valid() && t.answer != "" && t.reasoning != "" && HeldOutside(t.answer)
    ensures exists texts :: Concat(texts) == t.Text() && Output(Receive(INITIAL, texts)) == Chunk("", t.reasoning + t.answer)
  {
    var texts := CutInAnswer(t, 0);
    assert t.answer[0..] == t.answer;
  }

  /** What a caller gets who reads the fields and not `output()`: the answer comes back whole for every way
      of cutting the stream if and only if no ending of it may be the start of an opening tag. */
  lemma FieldsIndependence(t: Thought)
    requires t.Valid()
    ensures (forall texts :: Concat(texts) == t.Text() ==> Receive(INITIAL, texts).response == t.answer)
      <==> forall k :: 0 <= k < |t.answer| ==> !HeldOutside(t.answer[k..])
  {
    if k :| 0 <= k < |t.answer| && HeldOutside(t.answer[k..]) {
      var texts := CutInAnswer(t, k);
      assert Receive(INITIAL, texts).response == t.answer[..k] != t.answer;
    } else {
      forall texts | Concat(texts) == t.Text() ensures Receive(INITIAL, texts).response == t.answer {
        ChunkingIndependence(texts, t);
        var g := Receive(INITIAL, texts);
        assert t.answer[|g.response|..] == g.unprocessed && (g.unprocessed == "" ==> g.response == t.answer);
      }
    }
  }

  /** Cut where the rest of the answer may be the start of a tag, the stream ends with that rest held. */
  lemma CutInAnswer(t: Thought, k: nat) returns (texts: seq<string>)
    requires t.Valid() && k < |t.answer| && HeldOutside(t.answer[k..])
    ensures Concat(texts) == t.Text()
    ensures Receive(INITIAL, texts) == State(t.reasoning, t.answer[..k], false, "", t.answer[k..], false)
  {
    hide OutsideSpan, Find, Contains, AddChunk, At;
    var held := t.answer[k..];
    var first := t.pair.opening + (t.reasoning + (t.pair.closing + t.answer[..k]));
    texts := [first, held];
    assert Concat([first]) == first + Concat([]) == first;
    assert [first] + [held] == texts;
    ConcatLast([first], held);
    assert t.answer[..k] + held == t.answer;
    assert first + held == t.Text();
    assert [] + [first] == [first];
    assert Receive(INITIAL, []) == INITIAL;
    ReceiveLast([], first);
    FirstChunk(t, t.answer[..k]);
    ReceiveLast([first], held);
    NoOpeningInPart(t.answer, t.answer[..k], held);
    HoldAnswer(State(t.reasoning, t.answer[..k], false, "", "", false), held);
  }

  /** The closing tag in a text that holds the whole thought and part of the answer. */
  lemma FirstClosing(t: Thought, part: string)
    requires t.pair in THINKING_PAIRS && Find(t.AfterOpening(), t.pair.closing) == |t.reasoning| && part <= t.answer
    ensures var inner := t.reasoning + (t.pair.closing + part);
      Find(inner, t.pair.closing) == |t.reasoning| && inner[..|t.reasoning|] == t.reasoning
      && inner[|t.reasoning| + |t.pair.closing|..] == part
  {
    hide Find, Contains, At;
    var inner := t.reasoning + (t.pair.closing + part);
    assert t.answer == part + t.answer[|part|..];
    assert t.AfterOpening() == inner + t.answer[|part|..];
    assert "" + inner == inner;
    PairsDiffer();
    ClosingInWindow(t.AfterOpening(), |t.reasoning|, t.pair.closing, "", inner);
  }

  /** A chunk that holds the whole thought passes on what it has of the answer. */
  lemma FirstChunk(t: Thought, part: string)
    requires t.pair in THINKING_PAIRS && Find(t.AfterOpening(), t.pair.closing) == |t.reasoning| && part <= t.answer
    ensures AddChunk(INITIAL, Chunk(t.pair.opening + (t.reasoning + (t.pair.closing + part)), "")).state
      == State(t.reasoning, part, false, "", "", false)
  {
    hide OutsideSpan, InsideSpan, Find, Contains, At;
    var inner := t.reasoning + (t.pair.closing + part);
    var text := t.pair.opening + inner;
    assert "" + text == text && text[|t.pair.opening|..] == inner;
    OpeningTag(t.pair, text);
    FirstClosing(t, part);
    ClosesAt(INITIAL.(thinking := true, thinkingTag := t.pair.closing), inner, |t.reasoning|);
    assert "" + t.reasoning == t.reasoning && "" + part == part;
  }

  lemma ReceiveLast(texts: seq<string>, text: string)
    ensures Receive(INITIAL, texts + [text]) == AddChunk(Receive(INITIAL, texts), Chunk(text, "")).state
  {
    assert TextChunks(texts + [text])[..|texts|] == TextChunks(texts);
  }

  lemma HoldAnswer(g: State, text: string)
    requires !g.thinking && g.unprocessed == "" && !g.nativeReasoning && text != "" && HeldOutside(text)
    requires forall q :: q in THINKING_PAIRS ==> !(q.opening <= text)
    ensures AddChunk(g, Chunk(text, "")).state == g.(unprocessed := text)
  {
    hide OutsideSpan;
    var q :| q in THINKING_PAIRS && IsPartialOpeningTag(text, q.opening);
    assert g.unprocessed + text == text && g.reasoning + "" == g.reasoning && g.response + "" == g.response;
    assert g.(unprocessed := "") == g;
    HoldsPartial(g, THINKING_PAIRS, text, q);
  }

  lemma {:induction false} HoldsPartial(g: State, pairs: seq<Pair>, text: string, q: Pair)
    requires q in pairs && IsPartialOpeningTag(text, q.opening)
    requires forall p :: p in pairs ==> !(p.opening <= text)
    ensures OutsideSpan(g, pairs, text, "") == Step(g.(unprocessed := text), Chunk("", ""))
  {
    if !IsPartialOpeningTag(text, pairs[0].opening) {
      HoldsPartial(g, pairs[1..], text, q);
    }
  }
}
