/**
 Providers that send reasoning of their own: from the first chunk with reasoning on, everything passes as it comes.
 */
module ThinkTagsNative {
  import opened Strings
  import opened ThinkTagsSpec

  /** All reasoning deltas, one after the other. */
  function Reasonings(cs: seq<Chunk>): string {
    if cs == [] then "" else cs[0].reasoningDelta + Reasonings(cs[1..])
  }

  /** All response deltas, one after the other. */
  function Responses(cs: seq<Chunk>): string {
    if cs == [] then "" else cs[0].responseDelta + Responses(cs[1..])
  }

  lemma {:induction false} DeltasLast(cs: seq<Chunk>, c: Chunk)
    ensures Reasonings(cs + [c]) == Reasonings(cs) + c.reasoningDelta
    ensures Responses(cs + [c]) == Responses(cs) + c.responseDelta
  {
    if cs == [] {
      assert cs + [c] == [c];
      assert [c][1..] == [] && Reasonings([]) == "" == Responses([]);
      assert Reasonings([c]) == c.reasoningDelta + "" && Responses([c]) == c.responseDelta + "";
    } else {
      assert (cs + [c])[1..] == cs[1..] + [c];
      DeltasLast(cs[1..], c);
      Assoc(cs[0].reasoningDelta, Reasonings(cs[1..]), c.reasoningDelta);
      Assoc(cs[0].responseDelta, Responses(cs[1..]), c.responseDelta);
    }
  }

  lemma NativeStep(g: State, c: Chunk)
    requires g.nativeReasoning || c.reasoningDelta != ""
    ensures AddChunk(g, c).state
      == g.(reasoning := g.reasoning + c.reasoningDelta, response := g.response + c.responseDelta, nativeReasoning := true)
  {
  }

  /** From any chunk that brings reasoning on: reasoning and response grow by exactly the deltas that come, and what is
      held and the thought that may be open stay as they are. */
  lemma {:induction false} NativeFrom(cs: seq<Chunk>, n: nat)
    requires n < |cs| && cs[n].reasoningDelta != ""
    ensures var g := Run(INITIAL, cs[..n]);
      Run(INITIAL, cs) == State(
        g.reasoning + Reasonings(cs[n..]), g.response + Responses(cs[n..]), g.thinking, g.thinkingTag, g.unprocessed, true)
    decreases |cs|
  {
    hide AddChunk, Reasonings, Responses;
    var init, last := cs[..|cs| - 1], cs[|cs| - 1];
    var g := Run(INITIAL, cs[..n]);
    if |cs| == n + 1 {
      assert cs[n..] == [] + [last] && init == cs[..n];
      NativeStep(g, last);
      DeltasLast([], last);
      NoDeltas();
    } else {
      NativeFrom(init, n);
      NativeStep(Run(INITIAL, init), last);
      assert init[..n] == cs[..n];
      assert cs[n..] == init[n..] + [last];
      DeltasLast(init[n..], last);
      Assoc(g.reasoning, Reasonings(init[n..]), last.reasoningDelta);
      Assoc(g.response, Responses(init[n..]), last.responseDelta);
    }
  }

  lemma NoDeltas()
    ensures Reasonings([]) == "" && Responses([]) == "" && forall s: string :: "" + s == s
  {
  }

  /** A stream that begins with reasoning of the provider's own ends with all its reasoning and all its answer, each
      where it belongs, and nothing held. */
  lemma {:induction false} NativeStream(cs: seq<Chunk>)
    requires cs != [] && cs[0].reasoningDelta != ""
    ensures Run(INITIAL, cs) == State(Reasonings(cs), Responses(cs), false, "", "", true)
  {
    NativeFrom(cs, 0);
    assert cs[..0] == [] && cs[0..] == cs;
    assert "" + Reasonings(cs) == Reasonings(cs) && "" + Responses(cs) == Responses(cs);
  }
}
