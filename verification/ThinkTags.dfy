/** `ChatGenerationResult` in its own form, each method proved against ThinkTagsSpec. */
module ThinkTags {
  import opened Strings
  import opened Spec = ThinkTagsSpec

  class ChatGenerationResult {
    var reasoning: string
    var response: string
    var thinking: bool
    var thinkingTag: string
    var unprocessed: string
    var nativeReasoning: bool
    const thinkingPairs: seq<Pair> := THINKING_PAIRS

    ghost function Value(): State
      reads this
    {
      State(reasoning, response, thinking, thinkingTag, unprocessed, nativeReasoning)
    }

    constructor ()
      ensures Value() == INITIAL
    {
      reasoning, response, thinking, thinkingTag, unprocessed, nativeReasoning := "", "", false, "", "", false;
    }

    method AddChunk(chunk: Chunk) returns (processed: Chunk)
      modifies this
      ensures Step(Value(), processed) == Spec.AddChunk(old(Value()), chunk)
    {
      if chunk.reasoningDelta != "" {
        nativeReasoning := true;
      }
      if nativeReasoning {
        processed := chunk;
      } else {
        processed := ProcessThinkingChunk(chunk);
      }
      reasoning := reasoning + processed.reasoningDelta;
      response := response + processed.responseDelta;
    }

    method ProcessThinkingChunk(chunk: Chunk) returns (processed: Chunk)
      modifies this
      ensures Step(Value(), processed) == Spec.ProcessThinkingTags(
        old(Value()).(unprocessed := ""), old(unprocessed) + chunk.responseDelta, chunk.reasoningDelta)
    {
      var responseDelta := unprocessed + chunk.responseDelta;
      unprocessed := "";
      processed := ProcessThinkingTags(responseDelta, chunk.reasoningDelta);
    }

    method ProcessThinkingTags(text: string, reasoningIn: string) returns (processed: Chunk)
      modifies this
      ensures Step(Value(), processed) == Spec.ProcessThinkingTags(old(Value()), text, reasoningIn)
    {
      if thinking {
        processed := ProcessInside(text, reasoningIn);
        return;
      }
      for n := 0 to |thinkingPairs|
        invariant Value() == old(Value()) && !thinking
        invariant Spec.OutsideSpan(Value(), thinkingPairs[n..], text, reasoningIn)
          == Spec.ProcessThinkingTags(old(Value()), text, reasoningIn)
      {
        var pair := thinkingPairs[n];
        assert thinkingPairs[n..][0] == pair && thinkingPairs[n..][1..] == thinkingPairs[n + 1..];
        if pair.opening <= text {
          thinking, thinkingTag := true, pair.closing;
          processed := ProcessInside(text[|pair.opening|..], reasoningIn);
          return;
        } else if |text| < |pair.opening| {
          var partial := IsPartialOpening(text, pair.opening);
          if partial {
            unprocessed := text;
            return Chunk("", reasoningIn);
          }
        }
      }
      return Chunk(text, reasoningIn);
    }

    /** The search for the closing tag, which the source writes out in both branches. */
    method ProcessInside(text: string, reasoningIn: string) returns (processed: Chunk)
      modifies this
      ensures Step(Value(), processed) == Spec.InsideSpan(old(Value()), text, reasoningIn)
    {
      var closePos := Find(text, thinkingTag);
      if closePos != -1 {
        processed := Chunk(text[closePos + |thinkingTag|..], reasoningIn + text[..closePos]);
        thinking, thinkingTag := false, "";
      } else {
        var partial := IsPartialClosing(text);
        if partial {
          unprocessed := text;
          processed := Chunk("", reasoningIn);
        } else {
          processed := Chunk("", reasoningIn + text);
        }
      }
    }

    method IsPartialOpening(text: string, opening: string) returns (partial: bool)
      ensures partial <==> IsPartialOpeningTag(text, opening)
    {
      var i := 1;
      while i < |opening|
        invariant 1 <= i
        invariant forall j :: 1 <= j < i && j < |opening| ==> text != opening[..j]
      {
        if text == opening[..i] {
          return true;
        }
        i := i + 1;
      }
      if 0 < |text| < |opening| { assert text != opening[..|text|]; }
      return false;
    }

    method IsPartialClosing(text: string) returns (partial: bool)
      ensures partial <==> IsPartialClosingTag(text, thinkingTag)
    {
      if thinkingTag == "" || text == "" {
        return false;
      }
      var maxCheck := if |text| < |thinkingTag| - 1 then |text| else |thinkingTag| - 1;
      for i := 1 to maxCheck + 1
        invariant forall j :: 1 <= j < i ==> !EndsWith(text, thinkingTag[..j])
      {
        if EndsWith(text, thinkingTag[..i]) {
          return true;
        }
      }
      return false;
    }

    method Output() returns (out: Chunk)
      ensures out == Spec.Output(Value())
    {
      var response', reasoning' := response, reasoning;
      if unprocessed != "" {
        if reasoning' != "" && response' == "" {
          reasoning' := reasoning' + unprocessed;
        } else {
          response' := response' + unprocessed;
        }
      }
      return Chunk(response', reasoning');
    }
  }
}
