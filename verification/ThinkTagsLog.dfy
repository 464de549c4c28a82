/**
 Conservation: what a stream emitted, the tags it removed and the text it still holds are, in order,
 exactly the text it received.
 */
module ThinkTagsLog {
  import opened Strings
  import opened ThinkTagsSpec
  import opened ThinkTagsStream

  datatype Emitted = Reasoning(text: string) | Response(text: string) | Tag(text: string)

  function InsideLog(tag: string, text: string): seq<Emitted> {
    var closePos := Find(text, tag);
    if closePos >= 0 then [Reasoning(text[..closePos]), Tag(tag), Response(text[closePos + |tag|..])]
    else if IsPartialClosingTag(text, tag) then []
    else [Reasoning(text)]
  }

  function OutsideLog(pairs: seq<Pair>, text: string): seq<Emitted> {
    if pairs == [] then [Response(text)]
    else if pairs[0].opening <= text then
      [Tag(pairs[0].opening)] + InsideLog(pairs[0].closing, text[|pairs[0].opening|..])
    else if IsPartialOpeningTag(text, pairs[0].opening) then []
    else OutsideLog(pairs[1..], text)
  }

  /** What one chunk of text adds to the log. */
  function StepLog(g: State, text: string): seq<Emitted> {
    var held := g.unprocessed + text;
    if g.thinking then InsideLog(g.thinkingTag, held) else OutsideLog(THINKING_PAIRS, held)
  }

  function Log(texts: seq<string>): seq<Emitted> {
    if texts == [] then []
    else Log(texts[..|texts| - 1]) + StepLog(Receive(INITIAL, texts[..|texts| - 1]), texts[|texts| - 1])
  }

  function Flatten(log: seq<Emitted>): string {
    if log == [] then "" else Flatten(log[..|log| - 1]) + log[|log| - 1].text
  }

  function ReasoningOf(log: seq<Emitted>): string {
    if log == [] then "" else ReasoningOf(log[..|log| - 1]) + if log[|log| - 1].Reasoning? then log[|log| - 1].text else ""
  }

  function ResponseOf(log: seq<Emitted>): string {
    if log == [] then "" else ResponseOf(log[..|log| - 1]) + if log[|log| - 1].Response? then log[|log| - 1].text else ""
  }

  /** The reasoning emitted since the last tag. */
  function Span(log: seq<Emitted>): string {
    if log == [] || log[|log| - 1].Tag? then ""
    else Span(log[..|log| - 1]) + if log[|log| - 1].Reasoning? then log[|log| - 1].text else ""
  }

  lemma AppendLast(a: seq<Emitted>, e: Emitted)
    ensures Flatten(a + [e]) == Flatten(a) + e.text
    ensures ReasoningOf(a + [e]) == ReasoningOf(a) + if e.Reasoning? then e.text else ""
    ensures ResponseOf(a + [e]) == ResponseOf(a) + if e.Response? then e.text else ""
  {
    assert (a + [e])[..|a|] == a;
  }

  lemma {:induction false} Append(a: seq<Emitted>, b: seq<Emitted>)
    ensures Flatten(a + b) == Flatten(a) + Flatten(b)
    ensures ReasoningOf(a + b) == ReasoningOf(a) + ReasoningOf(b)
    ensures ResponseOf(a + b) == ResponseOf(a) + ResponseOf(b)
    decreases |b|
  {
    if b == [] {
      assert a + b == a;
    } else {
      hide Flatten, ReasoningOf, ResponseOf;
      var init, e := b[..|b| - 1], b[|b| - 1];
      assert a + b == a + init + [e] && b == init + [e];
      Append(a, init);
      AppendLast(a + init, e);
      AppendLast(init, e);
      Assoc(Flatten(a), Flatten(init), e.text);
      Assoc(ReasoningOf(a), ReasoningOf(init), if e.Reasoning? then e.text else "");
      Assoc(ResponseOf(a), ResponseOf(init), if e.Response? then e.text else "");
    }
  }

  lemma One(e: Emitted)
    ensures Flatten([e]) == e.text
    ensures ReasoningOf([e]) == (if e.Reasoning? then e.text else "")
    ensures ResponseOf([e]) == (if e.Response? then e.text else "")
  {
    assert [e][..0] == [];
    assert "" + e.text == e.text && "" + "" == "";
  }

  lemma Three(x: string, tag: string, y: string)
    ensures var log := [Reasoning(x), Tag(tag), Response(y)];
      Flatten(log) == x + tag + y && ReasoningOf(log) == x && ResponseOf(log) == y
  {
    One(Reasoning(x));
    One(Tag(tag));
    One(Response(y));
    Append([Reasoning(x)], [Tag(tag)]);
    Append([Reasoning(x)] + [Tag(tag)], [Response(y)]);
    assert [Reasoning(x)] + [Tag(tag)] + [Response(y)] == [Reasoning(x), Tag(tag), Response(y)];
    assert x + "" == x && x + "" + "" == x && "" + "" + y == y;
  }

  /** The log of one step is what the step emitted, and accounts for its text. */
  ghost predicate Accounts(step: Step, log: seq<Emitted>, text: string) {
    && Flatten(log) + step.state.unprocessed == text
    && ReasoningOf(log) == step.out.reasoningDelta
    && ResponseOf(log) == step.out.responseDelta
  }

  lemma InsideAccounts(g: State, text: string)
    requires g.unprocessed == ""
    ensures Accounts(InsideSpan(g, text, ""), InsideLog(g.thinkingTag, text), text)
  {
    hide Find, IsPartialClosingTag, Flatten, ReasoningOf, ResponseOf, Contains;
    NothingLogged();
    var tag := g.thinkingTag;
    var closePos := Find(text, tag);
    if closePos >= 0 {
      var x, y := text[..closePos], text[closePos + |tag|..];
      Three(x, tag, y);
      assert text == x + tag + y && "" + x == x && (x + tag + y) + "" == x + tag + y;
    } else if IsPartialClosingTag(text, tag) {
      assert "" + text == text;
    } else {
      One(Reasoning(text));
      assert "" + text == text && text + "" == text;
    }
  }

  lemma NothingLogged()
    ensures Flatten([]) == "" && ReasoningOf([]) == "" && ResponseOf([]) == ""
  {
  }

  lemma AccountsAfterTag(step: Step, log: seq<Emitted>, tag: string, text: string)
    requires Accounts(step, log, text)
    ensures Accounts(step, [Tag(tag)] + log, tag + text)
  {
    hide Flatten, ReasoningOf, ResponseOf;
    One(Tag(tag));
    Append([Tag(tag)], log);
    assert tag + (Flatten(log) + step.state.unprocessed) == tag + Flatten(log) + step.state.unprocessed;
    assert "" + ReasoningOf(log) == ReasoningOf(log) && "" + ResponseOf(log) == ResponseOf(log);
  }

  lemma {:induction false} OutsideAccounts(g: State, pairs: seq<Pair>, text: string)
    requires g.unprocessed == ""
    ensures Accounts(OutsideSpan(g, pairs, text, ""), OutsideLog(pairs, text), text)
  {
    hide InsideSpan, InsideLog;
    if pairs == [] {
      One(Response(text));
      assert text + "" == text;
    } else if pairs[0].opening <= text {
      var o := pairs[0].opening;
      var inner := text[|o|..];
      var g' := g.(thinking := true, thinkingTag := pairs[0].closing);
      InsideAccounts(g', inner);
      AccountsAfterTag(InsideSpan(g', inner, ""), InsideLog(pairs[0].closing, inner), o, inner);
      assert text == o + inner;
    } else if IsPartialOpeningTag(text, pairs[0].opening) {
      assert "" + text == text;
    } else {
      OutsideAccounts(g, pairs[1..], text);
    }
  }

  lemma StepAccounts(g: State, text: string)
    ensures Accounts(ProcessThinkingTags(g.(unprocessed := ""), g.unprocessed + text, ""), StepLog(g, text), g.unprocessed + text)
  {
    hide InsideSpan, InsideLog, OutsideSpan, OutsideLog;
    var g', held := g.(unprocessed := ""), g.unprocessed + text;
    if g.thinking { InsideAccounts(g', held); } else { OutsideAccounts(g', THINKING_PAIRS, held); }
  }

  /** A step after a run that lost nothing loses nothing. */
  lemma Chain(before: string, a: seq<Emitted>, held: string, step: Step, b: seq<Emitted>, text: string)
    requires Flatten(a) + held == before && Accounts(step, b, held + text)
    ensures Flatten(a + b) + step.state.unprocessed == before + text
    ensures ReasoningOf(a + b) == ReasoningOf(a) + step.out.reasoningDelta
    ensures ResponseOf(a + b) == ResponseOf(a) + step.out.responseDelta
  {
    Append(a, b);
    assert Flatten(a) + (Flatten(b) + step.state.unprocessed) == Flatten(a) + Flatten(b) + step.state.unprocessed;
    assert Flatten(a) + (held + text) == Flatten(a) + held + text;
  }

  lemma {:induction false} NoNative(texts: seq<string>)
    ensures !Receive(INITIAL, texts).nativeReasoning
  {
    if texts != [] {
      var init, last := texts[..|texts| - 1], texts[|texts| - 1];
      NoNative(init);
      ReceiveLast(init, last);
      assert init + [last] == texts;
    }
  }

  /** Conservation, for every chunk sequence without native reasoning. */
  lemma {:induction false} Conservation(texts: seq<string>)
    ensures var g := Receive(INITIAL, texts); var log := Log(texts);
      && Flatten(log) + g.unprocessed == Concat(texts)
      && ReasoningOf(log) == g.reasoning && ResponseOf(log) == g.response
  {
    hide ProcessThinkingTags, StepLog, Receive, Run, Flatten, ReasoningOf, ResponseOf, Concat;
    if texts == [] {
      NothingEmitted();
    } else {
      var init, last := texts[..|texts| - 1], texts[|texts| - 1];
      Conservation(init);
      NoNative(init);
      ReceiveLast(init, last);
      assert init + [last] == texts;
      ConcatLast(init, last);
      var g := Receive(INITIAL, init);
      var step := ProcessThinkingTags(g.(unprocessed := ""), g.unprocessed + last, "");
      StepAccounts(g, last);
      StepKeeps(g.(unprocessed := ""), g.unprocessed + last);
      Chain(Concat(init), Log(init), g.unprocessed, step, StepLog(g, last), last);
    }
  }

  lemma NothingEmitted()
    ensures Receive(INITIAL, []) == INITIAL && Log([]) == [] && Concat([]) == ""
    ensures Flatten([]) == "" && ReasoningOf([]) == "" && ResponseOf([]) == ""
  {
    NothingLogged();
  }

  lemma StepKeeps(g: State, text: string)
    ensures var step := ProcessThinkingTags(g, text, "");
      step.state.reasoning == g.reasoning && step.state.response == g.response
  {
  }

  // ---------- What is held back ----------

  /** Outside a span the held text may yet become an opening tag; inside one, the span's reasoning and the
      held text together do not contain the closing tag. */
  ghost predicate HeldWell(g: State, log: seq<Emitted>) {
    if g.thinking then
      && g.thinkingTag != ""
      && !Contains(Span(log) + g.unprocessed, g.thinkingTag)
      && !IsPartialClosingTag(Span(log), g.thinkingTag)
    else HeldOutside(g.unprocessed)
  }

  lemma SpanOne(log: seq<Emitted>, e: Emitted)
    ensures Span(log + [e]) == if e.Tag? then "" else Span(log) + if e.Reasoning? then e.text else ""
  {
    assert (log + [e])[..|log|] == log;
  }

  lemma ContainsTail(x: string, y: string, tag: string)
    requires !Contains(x, tag) && !IsPartialClosingTag(x, tag) && !Contains(y, tag)
    ensures !Contains(x + y, tag)
  {
    forall i ensures !At(x + y, tag, i) {
      if At(x + y, tag, i) {
        if i < |x| {
          Straddle(x, y, tag, i);
        } else {
          InSecond(x, y, tag, i);
        }
      }
    }
  }

  lemma InSecond(x: string, y: string, tag: string, i: nat)
    requires At(x + y, tag, i) && i >= |x|
    ensures Contains(y, tag)
  {
    assert y == (x + y)[|x|..|x + y|];
    Window(x + y, |x|, |x + y|, tag, i - |x|);
    assert At(y, tag, i - |x|);
  }

  lemma ContainsInit(x: string, y: string, tag: string)
    ensures Contains(x, tag) ==> Contains(x + y, tag)
  {
    if Contains(x, tag) {
      var i :| At(x, tag, i);
      assert (x + y)[i..i + |tag|] == x[i..i + |tag|];
      assert At(x + y, tag, i);
    }
  }

  /** Text taken in inside a span, of which `Span(log)` was emitted before. */
  lemma InsideHeld(g: State, log: seq<Emitted>, text: string)
    requires g.thinking && g.thinkingTag != "" && g.unprocessed == ""
    requires !Contains(Span(log), g.thinkingTag) && !IsPartialClosingTag(Span(log), g.thinkingTag)
    ensures HeldWell(InsideSpan(g, text, "").state, log + InsideLog(g.thinkingTag, text))
  {
    var tag := g.thinkingTag;
    if Find(text, tag) < 0 {
      ContainsTail(Span(log), text, tag);
      if IsPartialClosingTag(text, tag) {
        assert log + [] == log;
      } else {
        SpanOne(log, Reasoning(text));
        PartialConcat(Span(log), text, tag);
        assert Span(log) + text + "" == Span(log) + text;
      }
    }
  }

  lemma {:induction false} OutsideHeld(g: State, log: seq<Emitted>, pairs: seq<Pair>, text: string)
    requires !g.thinking && g.unprocessed == ""
    requires forall q :: q in pairs ==> q in THINKING_PAIRS
    ensures HeldWell(OutsideSpan(g, pairs, text, "").state, log + OutsideLog(pairs, text))
  {
    if pairs != [] {
      if pairs[0].opening <= text {
        var o, c, inner := pairs[0].opening, pairs[0].closing, text[|pairs[0].opening|..];
        PairsDiffer();
        SpanOne(log, Tag(o));
        NothingPartial(c);
        InsideHeld(g.(thinking := true, thinkingTag := c), log + [Tag(o)], inner);
        assert log + [Tag(o)] + InsideLog(c, inner) == log + ([Tag(o)] + InsideLog(c, inner));
      } else if IsPartialOpeningTag(text, pairs[0].opening) {
        assert pairs[0] in THINKING_PAIRS;
      } else {
        OutsideHeld(g, log, pairs[1..], text);
      }
    }
  }

  /** One chunk keeps what is held well held. */
  lemma HeldStep(g: State, log: seq<Emitted>, text: string)
    requires HeldWell(g, log) && !g.nativeReasoning
    ensures HeldWell(AddChunk(g, Chunk(text, "")).state, log + StepLog(g, text))
  {
    hide Contains, IsPartialClosingTag, InsideSpan, OutsideSpan, InsideLog, OutsideLog, Span;
    var g', held := g.(unprocessed := ""), g.unprocessed + text;
    if g.thinking {
      ContainsInit(Span(log), g.unprocessed, g.thinkingTag);
      InsideHeld(g', log, held);
    } else {
      OutsideHeld(g', log, THINKING_PAIRS, held);
    }
  }

  /** Held text, after every chunk sequence without native reasoning. */
  lemma {:induction false} HeldText(texts: seq<string>)
    ensures HeldWell(Receive(INITIAL, texts), Log(texts))
  {
    hide HeldWell, AddChunk, StepLog, Receive, Run;
    if texts == [] {
      NothingHeld();
    } else {
      var init, last := texts[..|texts| - 1], texts[|texts| - 1];
      HeldText(init);
      NoNative(init);
      ReceiveLast(init, last);
      assert init + [last] == texts;
      HeldStep(Receive(INITIAL, init), Log(init), last);
    }
  }

  lemma NothingHeld()
    ensures HeldWell(Receive(INITIAL, []), Log([]))
  {
  }
}
