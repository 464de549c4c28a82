/**
 The retrying model call. The provider is an oracle: `provider(n)` says what the `n`th attempt does.
 */
module UnifiedCall {
  import Spec = ThinkTagsSpec
  import opened ThinkTags

  /** An attempt completes, fails, or ends in a chunk that arrives and cannot be parsed. */
  datatype Outcome = Completed | Failed(transient: bool) | Unreadable(transient: bool)

  /** The chunks a streamed attempt delivers before its outcome, or the whole answer of one that is not streamed. */
  datatype Attempt = Attempt(chunks: seq<Spec.Chunk>, completion: Spec.Chunk, outcome: Outcome)

  datatype Kind = OnReasoning | OnResponse

  /** One call of a callback: the new text, and the full text so far. */
  datatype Event = Event(kind: Kind, delta: string, full: string)

  datatype CallResult = Returned(response: string, reasoning: string) | Raised(transient: bool)

  /** The texts given to one callback, in order. */
  function Deltas(events: seq<Event>, kind: Kind): string {
    if events == [] then ""
    else Deltas(events[..|events| - 1], kind) + if events[|events| - 1].kind == kind then events[|events| - 1].delta else ""
  }

  /** Every `full` is what its callback has been given so far, the new text included. */
  ghost predicate FullsMatch(events: seq<Event>) {
    forall i :: 0 <= i < |events| ==> events[i].full == Deltas(events[..i + 1], events[i].kind)
  }

  ghost predicate Reports(events: seq<Event>, kind: Kind, wanted: bool, text: string) {
    if wanted then Deltas(events, kind) == text else forall e :: e in events ==> e.kind != kind
  }

  /** May attempt `n` be followed by another? */
  predicate Retries(a: Attempt, stream: bool) {
    !a.outcome.Completed? && a.outcome.transient && (stream ==> a.chunks == [] && a.outcome.Failed?)
  }

  lemma Report(events: seq<Event>, kind: Kind, delta: string, full: string)
    requires FullsMatch(events) && full == Deltas(events, kind) + delta
    ensures var after := events + [Event(kind, delta, full)];
      && FullsMatch(after) && Deltas(after, kind) == full
      && forall k :: k != kind ==> Deltas(after, k) == Deltas(events, k)
  {
    var after := events + [Event(kind, delta, full)];
    assert after[..|events|] == events && after[..|after|] == after;
    forall i | 0 <= i < |events| ensures after[i].full == Deltas(after[..i + 1], after[i].kind) {
      assert after[..i + 1] == events[..i + 1];
    }
    forall k | k != kind ensures Deltas(after, k) == Deltas(events, k) {
      assert Deltas(events, k) + "" == Deltas(events, k);
    }
  }

  /** One chunk: it is added to the result, and the callbacks that were given hear of it. */
  method Deliver(result: ChatGenerationResult, chunk: Spec.Chunk, onReasoning: bool, onResponse: bool, events: seq<Event>)
    returns (after: seq<Event>)
    requires FullsMatch(events)
    requires Reports(events, OnReasoning, onReasoning, result.reasoning) && Reports(events, OnResponse, onResponse, result.response)
    modifies result
    ensures result.Value() == Spec.AddChunk(old(result.Value()), chunk).state
    ensures FullsMatch(after)
    ensures Reports(after, OnReasoning, onReasoning, result.reasoning) && Reports(after, OnResponse, onResponse, result.response)
  {
    after := events;
    ghost var g := result.Value();
    var output := result.AddChunk(chunk);
    assert result.reasoning == g.reasoning + output.reasoningDelta && result.response == g.response + output.responseDelta;
    if output.reasoningDelta != "" && onReasoning {
      Report(after, OnReasoning, output.reasoningDelta, result.reasoning);
      after := after + [Event(OnReasoning, output.reasoningDelta, result.reasoning)];
    }
    if output.responseDelta != "" && onResponse {
      Report(after, OnResponse, output.responseDelta, result.response);
      after := after + [Event(OnResponse, output.responseDelta, result.response)];
    }
  }

  /** The chunks of one streamed attempt, into a new result. */
  method DeliverAll(result: ChatGenerationResult, chunks: seq<Spec.Chunk>, onReasoning: bool, onResponse: bool)
    returns (gotAnyChunk: bool, events: seq<Event>)
    requires result.Value() == Spec.INITIAL
    modifies result
    ensures result.Value() == Spec.Run(Spec.INITIAL, chunks) && gotAnyChunk == (chunks != [])
    ensures FullsMatch(events) && (chunks == [] ==> events == [])
    ensures Reports(events, OnReasoning, onReasoning, result.reasoning) && Reports(events, OnResponse, onResponse, result.response)
  {
    gotAnyChunk, events := false, [];
    for i := 0 to |chunks|
      invariant gotAnyChunk == (i > 0) && (i == 0 ==> events == [])
      invariant result.Value() == Spec.Run(Spec.INITIAL, chunks[..i])
      invariant FullsMatch(events)
      invariant Reports(events, OnReasoning, onReasoning, result.reasoning)
      invariant Reports(events, OnResponse, onResponse, result.response)
    {
      gotAnyChunk := true;
      events := Deliver(result, chunks[i], onReasoning, onResponse, events);
      assert chunks[..i + 1][..i] == chunks[..i];
    }
    assert chunks[..|chunks|] == chunks;
  }

  method UnifiedCall(provider: nat -> Attempt, maxRetries: int, onReasoning: bool, onResponse: bool, onTokens: bool)
    returns (r: CallResult, attempts: nat, events: seq<Event>)
    // at most maxRetries + 1 attempts, and only attempts that delivered nothing are retried
    ensures 1 <= attempts <= (if maxRetries < 0 then 0 else maxRetries) + 1
    ensures forall n :: 0 <= n < attempts - 1 ==> Retries(provider(n), onReasoning || onResponse || onTokens)
    // the outcome is that of the last attempt
    ensures r.Returned? <==> provider(attempts - 1).outcome.Completed?
    ensures r.Raised? ==>
      && !provider(attempts - 1).outcome.Completed? && provider(attempts - 1).outcome.transient == r.transient
      && (attempts - 1 < maxRetries ==> !Retries(provider(attempts - 1), onReasoning || onResponse || onTokens))
    // transient failures, in a streamed call before any chunk, are tried again until an attempt completes
    ensures onReasoning || onResponse || onTokens ==>
      forall k: nat ::
        && provider(k).outcome.Completed? && k <= (if maxRetries < 0 then 0 else maxRetries)
        && (forall n :: 0 <= n < k ==> provider(n).outcome == Failed(true) && provider(n).chunks == [])
        ==> r.Returned? && attempts == k + 1
    ensures !onReasoning && !onResponse && !onTokens ==>
      forall k: nat ::
        && provider(k).outcome.Completed? && k <= (if maxRetries < 0 then 0 else maxRetries)
        && (forall n :: 0 <= n < k ==> provider(n).outcome == Failed(true) || provider(n).outcome == Unreadable(true))
        ==> r.Returned? && attempts == k + 1
    // or until the attempts are used up
    ensures onReasoning || onResponse || onTokens ==>
      maxRetries >= 0 && (forall n :: 0 <= n <= maxRetries ==> provider(n).outcome == Failed(true) && provider(n).chunks == [])
      ==> attempts == maxRetries + 1
    ensures !onReasoning && !onResponse && !onTokens ==>
      && maxRetries >= 0
      && (forall n :: 0 <= n <= maxRetries ==> provider(n).outcome == Failed(true) || provider(n).outcome == Unreadable(true))
      ==> attempts == maxRetries + 1
    // a permanent failure, and in a streamed call one after a chunk, is the last attempt
    ensures forall k: nat :: provider(k).outcome == Failed(false) || provider(k).outcome == Unreadable(false) ==> attempts <= k + 1
    ensures onReasoning || onResponse || onTokens ==>
      forall k: nat :: !provider(k).outcome.Completed? && (provider(k).chunks != [] || provider(k).outcome.Unreadable?) ==> attempts <= k + 1
    // every callback is told the full text so far, failed attempts included
    ensures FullsMatch(events)
    // a returned result is made of that attempt's chunks alone, and the callbacks heard exactly it
    ensures r.Returned? ==>
      var a := provider(attempts - 1);
      var g := Spec.Run(Spec.INITIAL, if onReasoning || onResponse || onTokens then a.chunks else [a.completion]);
      && r == Returned(g.response, g.reasoning)
      && (onReasoning ==> Deltas(events, OnReasoning) == r.reasoning)
      && (onResponse ==> Deltas(events, OnResponse) == r.response)
  {
    var stream := onReasoning || onResponse || onTokens;
    var result := new ChatGenerationResult();
    events := [];
    var attempt := 0;
    while true
      invariant 0 <= attempt && (attempt == 0 || attempt <= maxRetries)
      invariant forall n :: 0 <= n < attempt ==> Retries(provider(n), stream)
      invariant fresh(result) && result.Value() == Spec.INITIAL && events == []
      decreases maxRetries - attempt
    {
      var a := provider(attempt);
      var gotAnyChunk := false;
      if stream {
        gotAnyChunk, events := DeliverAll(result, a.chunks, onReasoning, onResponse);
        gotAnyChunk := gotAnyChunk || a.outcome.Unreadable?;
      } else if a.outcome.Completed? {
        var _ := result.AddChunk(a.completion);
        assert [a.completion][..0] == [];
      }
      if a.outcome.Completed? {
        return Returned(result.response, result.reasoning), attempt + 1, events;
      }
      if gotAnyChunk || !a.outcome.transient || attempt >= maxRetries {
        return Raised(a.outcome.transient), attempt + 1, events;
      }
      attempt := attempt + 1;
    }
  }
}
