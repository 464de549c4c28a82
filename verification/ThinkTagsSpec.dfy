/**
 What one chunk of a streamed model response does: the text between a thinking tag and its closing tag
 is reasoning, everything else is response, and text that may be the start of a tag is held back.
 */
module ThinkTagsSpec {
  import opened Strings

  datatype Chunk = Chunk(responseDelta: string, reasoningDelta: string)

  datatype Pair = Pair(opening: string, closing: string)

  const THINKING_PAIRS: seq<Pair> := [Pair("<think>", "</think>"), Pair("<reasoning>", "</reasoning>")]

  datatype State = State(
    reasoning: string, response: string, thinking: bool, thinkingTag: string, unprocessed: string, nativeReasoning: bool)

  const INITIAL := State("", "", false, "", "", false)

  /** The state after a step, and what the step emitted. */
  datatype Step = Step(state: State, out: Chunk)

  predicate IsPartialOpeningTag(text: string, opening: string) {
    0 < |text| < |opening| && text <= opening
  }

  /** The text ends in a non-empty proper prefix of `tag`. */
  predicate IsPartialClosingTag(text: string, tag: string) {
    exists i :: 1 <= i < |tag| && i <= |text| && EndsWith(text, tag[..i])
  }

  /** Text inside a thinking span, whose closing tag is in the state. */
  function InsideSpan(g: State, text: string, reasoning: string): (r: Step)
    ensures r.state.reasoning == g.reasoning && r.state.response == g.response && r.state.nativeReasoning == g.nativeReasoning
  {
    var closePos := Find(text, g.thinkingTag);
    if closePos >= 0 then
      Step(g.(thinking := false, thinkingTag := ""), Chunk(text[closePos + |g.thinkingTag|..], reasoning + text[..closePos]))
    else if IsPartialClosingTag(text, g.thinkingTag) then
      Step(g.(unprocessed := text), Chunk("", reasoning))
    else
      Step(g, Chunk("", reasoning + text))
  }

  /** Text outside a span: the first pair whose opening tag it starts with, or may yet start with, decides. */
  function OutsideSpan(g: State, pairs: seq<Pair>, text: string, reasoning: string): (r: Step)
    ensures r.state.reasoning == g.reasoning && r.state.response == g.response && r.state.nativeReasoning == g.nativeReasoning
  {
    if pairs == [] then Step(g, Chunk(text, reasoning))
    else if pairs[0].opening <= text then
      InsideSpan(g.(thinking := true, thinkingTag := pairs[0].closing), text[|pairs[0].opening|..], reasoning)
    else if IsPartialOpeningTag(text, pairs[0].opening) then
      Step(g.(unprocessed := text), Chunk("", reasoning))
    else
      OutsideSpan(g, pairs[1..], text, reasoning)
  }

  function ProcessThinkingTags(g: State, text: string, reasoning: string): Step {
    if g.thinking then InsideSpan(g, text, reasoning) else OutsideSpan(g, THINKING_PAIRS, text, reasoning)
  }

  function AddChunk(g: State, chunk: Chunk): Step {
    var native := g.nativeReasoning || chunk.reasoningDelta != "";
    var step := if native then Step(g.(nativeReasoning := true), chunk)
                else ProcessThinkingTags(g.(unprocessed := ""), g.unprocessed + chunk.responseDelta, chunk.reasoningDelta);
    step.(state := step.state.(
      reasoning := step.state.reasoning + step.out.reasoningDelta,
      response := step.state.response + step.out.responseDelta))
  }

  /** `output()`: what is held back is shown at the end of the reasoning if nothing else was answered. */
  function Output(g: State): Chunk {
    if g.unprocessed == "" then Chunk(g.response, g.reasoning)
    else if g.reasoning != "" && g.response == "" then Chunk(g.response, g.reasoning + g.unprocessed)
    else Chunk(g.response + g.unprocessed, g.reasoning)
  }

  /** The state after a sequence of chunks. */
  function Run(g: State, chunks: seq<Chunk>): State {
    if chunks == [] then g else AddChunk(Run(g, chunks[..|chunks| - 1]), chunks[|chunks| - 1]).state
  }

  /** The chunks of a stream without native reasoning. */
  function TextChunks(texts: seq<string>): (cs: seq<Chunk>)
    ensures |cs| == |texts| && forall i :: 0 <= i < |cs| ==> cs[i] == Chunk(texts[i], "")
  {
    seq(|texts|, i requires 0 <= i < |texts| => Chunk(texts[i], ""))
  }

  function Receive(g: State, texts: seq<string>): State {
    Run(g, TextChunks(texts))
  }
}
