/**
 * Token accounting of the tool-calling baseline (benchmarking/mcp_client.py):
 * a callback handler that counts model calls and adds up the input and
 * output tokens each call's generations report.
 *
 * A model response arrives as a value: one list of generations per prompt,
 * each generation possibly carrying a message, each message possibly
 * carrying a usage dictionary.
 */
module McpClient {
  import opened Wrappers

  const InputTokensKey: string := "input_tokens"
  const OutputTokensKey: string := "output_tokens"

  /** A chat message; `usageMetadata` is None when it has no usage attribute. */
  datatype Message = Message(usageMetadata: Option<map<string, int>>)

  /** One generation; `message` is None when it has no message attribute. */
  datatype Generation = Generation(message: Option<Message>)

  /** The payload of an LLM-end event: a list of generations per prompt. */
  datatype LlmResult = LlmResult(generations: seq<seq<Generation>>)

  /** The generation carries a message with usage metadata. */
  predicate HasUsage(gen: Generation) {
    gen.message.Some? && gen.message.value.usageMetadata.Some?
  }

  /** Python's `usage.get(key, 0)`. */
  function UsageGet(usage: map<string, int>, key: string): int {
    if key in usage then usage[key] else 0
  }

  /** The count `key` one generation contributes: 0 without usage metadata. */
  function GenerationTokens(gen: Generation, key: string): int {
    if HasUsage(gen) then UsageGet(gen.message.value.usageMetadata.value, key) else 0
  }

  /** The count `key` summed over a list of generations. */
  function ListTokens(gens: seq<Generation>, key: string): int {
    if gens == [] then 0
    else ListTokens(gens[..|gens| - 1], key) + GenerationTokens(gens[|gens| - 1], key)
  }

  /** The count `key` summed over the lists of generations of a response. */
  function BatchTokens(batches: seq<seq<Generation>>, key: string): int {
    if batches == [] then 0
    else BatchTokens(batches[..|batches| - 1], key) + ListTokens(batches[|batches| - 1], key)
  }

  /** The count `key` one LLM-end event adds. */
  function ResponseTokens(response: LlmResult, key: string): int {
    BatchTokens(response.generations, key)
  }

  /** The count `key` summed over a history of LLM-end events. */
  function HistoryTokens(events: seq<LlmResult>, key: string): int {
    if events == [] then 0
    else HistoryTokens(events[..|events| - 1], key) + ResponseTokens(events[|events| - 1], key)
  }

  /** Every usage count of the generation is non-negative. */
  predicate NonNegativeGeneration(gen: Generation) {
    HasUsage(gen) ==> forall k :: k in gen.message.value.usageMetadata.value ==> gen.message.value.usageMetadata.value[k] >= 0
  }

  /** Every usage count of the response is non-negative. */
  predicate NonNegativeUsage(response: LlmResult) {
    forall i, j :: 0 <= i < |response.generations| && 0 <= j < |response.generations[i]| ==>
      NonNegativeGeneration(response.generations[i][j])
  }

  /** All generations of a response, in order. */
  function Flatten(batches: seq<seq<Generation>>): seq<Generation> {
    if batches == [] then [] else Flatten(batches[..|batches| - 1]) + batches[|batches| - 1]
  }

  /** Counting over consecutive lists adds up. */
  lemma {:induction false} ListTokensAppend(a: seq<Generation>, b: seq<Generation>, key: string)
    ensures ListTokens(a + b, key) == ListTokens(a, key) + ListTokens(b, key)
    decreases |b|
  {
    if b == [] {
      assert a + b == a;
    } else {
      var b' := b[..|b| - 1];
      assert (a + b)[..|a + b| - 1] == a + b';
      ListTokensAppend(a, b', key);
    }
  }

  /** A response adds the sum over all its generations, taken as one list. */
  lemma {:induction false} ResponseTokensFlat(batches: seq<seq<Generation>>, key: string)
    ensures BatchTokens(batches, key) == ListTokens(Flatten(batches), key)
  {
    if batches != [] {
      ResponseTokensFlat(batches[..|batches| - 1], key);
      ListTokensAppend(Flatten(batches[..|batches| - 1]), batches[|batches| - 1], key);
    }
  }

  /** Generations without a message or without usage metadata add nothing to a list. */
  lemma {:induction false} ListWithoutUsage(gens: seq<Generation>, key: string)
    requires forall j :: 0 <= j < |gens| ==> !HasUsage(gens[j])
    ensures ListTokens(gens, key) == 0
  {
    if gens != [] {
      ListWithoutUsage(gens[..|gens| - 1], key);
    }
  }

  /** A response none of whose generations carries usage metadata (an empty
      response among them) adds nothing. */
  lemma {:induction false} ResponseWithoutUsage(batches: seq<seq<Generation>>, key: string)
    requires forall i, j :: 0 <= i < |batches| && 0 <= j < |batches[i]| ==> !HasUsage(batches[i][j])
    ensures BatchTokens(batches, key) == 0
  {
    if batches != [] {
      ResponseWithoutUsage(batches[..|batches| - 1], key);
      ListWithoutUsage(batches[|batches| - 1], key);
    }
  }

  /** Non-negative usage counts sum to a non-negative list count. */
  lemma {:induction false} ListTokensNonNegative(gens: seq<Generation>, key: string)
    requires forall j :: 0 <= j < |gens| ==> NonNegativeGeneration(gens[j])
    ensures ListTokens(gens, key) >= 0
  {
    if gens != [] {
      ListTokensNonNegative(gens[..|gens| - 1], key);
    }
  }

  /** Non-negative usage counts sum to a non-negative response count. */
  lemma ResponseTokensNonNegative(response: LlmResult, key: string)
    requires NonNegativeUsage(response)
    ensures ResponseTokens(response, key) >= 0
  {
    BatchTokensNonNegative(response.generations, key);
  }

  /** Helper: lists of generations with non-negative usage counts sum to a
      non-negative count. */
  lemma {:induction false} BatchTokensNonNegative(batches: seq<seq<Generation>>, key: string)
    requires forall i, j :: 0 <= i < |batches| && 0 <= j < |batches[i]| ==> NonNegativeGeneration(batches[i][j])
    ensures BatchTokens(batches, key) >= 0
  {
    if batches != [] {
      var n := |batches| - 1;
      var prefix := batches[..n];
      assert forall i, j :: 0 <= i < |prefix| && 0 <= j < |prefix[i]| ==> NonNegativeGeneration(prefix[i][j]) by {
        forall i, j | 0 <= i < |prefix| && 0 <= j < |prefix[i]| ensures NonNegativeGeneration(prefix[i][j]) {
          assert prefix[i] == batches[i];
        }
      }
      BatchTokensNonNegative(prefix, key);
      ListTokensNonNegative(batches[n], key);
    }
  }

  /** With non-negative usage, the accumulated counts never decrease along a
      history of events. */
  lemma {:induction false} HistoryMonotone(events: seq<LlmResult>, k: nat, key: string)
    requires k <= |events|
    requires forall i :: 0 <= i < |events| ==> NonNegativeUsage(events[i])
    ensures HistoryTokens(events[..k], key) <= HistoryTokens(events, key)
    decreases |events| - k
  {
    if k < |events| {
      var e := events[..|events| - 1];
      assert e[..k] == events[..k];
      HistoryMonotone(e, k, key);
      ResponseTokensNonNegative(events[|events| - 1], key);
    } else {
      assert events[..k] == events;
    }
  }

  /** Aggregates token usage over the model calls of one agent run. */
  class TokenUsageTracker {
    var totalInputTokens: int
    var totalOutputTokens: int
    var callCount: int

    /** The LLM-end events seen so far, in order. */
    ghost var events: seq<LlmResult>

    /** The counters are the number of events and the sums over them. */
    ghost predicate Valid()
      reads this
    {
      && callCount == |events|
      && totalInputTokens == HistoryTokens(events, InputTokensKey)
      && totalOutputTokens == HistoryTokens(events, OutputTokensKey)
    }

    /** A fresh tracker: all three counters 0. */
    constructor ()
      ensures Valid() && events == []
      ensures totalInputTokens == 0 && totalOutputTokens == 0 && callCount == 0
    {
      totalInputTokens := 0;
      totalOutputTokens := 0;
      callCount := 0;
      events := [];
    }

    /** `on_llm_end`: one more call, and the token counts of every
        generation that carries usage metadata, a missing key counting as 0. */
    method OnLlmEnd(response: LlmResult)
      requires Valid()
      modifies this
      ensures Valid() && events == old(events) + [response]
      ensures callCount == old(callCount) + 1
      ensures totalInputTokens == old(totalInputTokens) + ResponseTokens(response, InputTokensKey)
      ensures totalOutputTokens == old(totalOutputTokens) + ResponseTokens(response, OutputTokensKey)
      ensures NonNegativeUsage(response) ==>
        totalInputTokens >= old(totalInputTokens) && totalOutputTokens >= old(totalOutputTokens)
    {
      callCount := callCount + 1;
      var batches := response.generations;
      for i := 0 to |batches|
        invariant callCount == old(callCount) + 1 && events == old(events)
        invariant totalInputTokens == old(totalInputTokens) + BatchTokens(batches[..i], InputTokensKey)
        invariant totalOutputTokens == old(totalOutputTokens) + BatchTokens(batches[..i], OutputTokensKey)
      {
        var generation := batches[i];
        for j := 0 to |generation|
          invariant callCount == old(callCount) + 1 && events == old(events)
          invariant totalInputTokens ==
            old(totalInputTokens) + BatchTokens(batches[..i], InputTokensKey) + ListTokens(generation[..j], InputTokensKey)
          invariant totalOutputTokens ==
            old(totalOutputTokens) + BatchTokens(batches[..i], OutputTokensKey) + ListTokens(generation[..j], OutputTokensKey)
        {
          var gen := generation[j];
          if gen.message.Some? && gen.message.value.usageMetadata.Some? {
            var usage := gen.message.value.usageMetadata.value;
            totalInputTokens := totalInputTokens + UsageGet(usage, InputTokensKey);
            totalOutputTokens := totalOutputTokens + UsageGet(usage, OutputTokensKey);
          }
          assert generation[..j + 1][..j] == generation[..j];
        }
        assert generation[..|generation|] == generation;
        assert batches[..i + 1][..i] == batches[..i];
      }
      assert batches[..|batches|] == batches;
      ghost var before := events;
      events := before + [response];
      assert events[..|events| - 1] == before;
      if NonNegativeUsage(response) {
        ResponseTokensNonNegative(response, InputTokensKey);
        ResponseTokensNonNegative(response, OutputTokensKey);
      }
    }

    /** `get_total_tokens`: input plus output tokens over every event so far. */
    function GetTotalTokens(): (total: int)
      reads this
      requires Valid()
      ensures total == totalInputTokens + totalOutputTokens
      ensures total == HistoryTokens(events, InputTokensKey) + HistoryTokens(events, OutputTokensKey)
    {
      totalInputTokens + totalOutputTokens
    }

    /** `get_summary`: the four figures of the tracker, under their keys. */
    function GetSummary(): (summary: map<string, int>)
      reads this
      requires Valid()
      ensures summary.Keys == {"input_tokens", "output_tokens", "total_tokens", "llm_calls"}
      ensures summary["input_tokens"] == HistoryTokens(events, InputTokensKey)
      ensures summary["output_tokens"] == HistoryTokens(events, OutputTokensKey)
      ensures summary["total_tokens"] == GetTotalTokens()
      ensures summary["llm_calls"] == callCount == |events|
    {
      map["input_tokens" := totalInputTokens, "output_tokens" := totalOutputTokens,
          "total_tokens" := GetTotalTokens(), "llm_calls" := callCount]
    }
  }

  /** How an agent run uses the tracker: a fresh tracker receives the run's
      LLM-end events in order, and the run reports the summary's total. */
  method TotalTokensOfRun(responses: seq<LlmResult>) returns (totalTokens: int, llmCalls: int)
    ensures totalTokens == HistoryTokens(responses, InputTokensKey) + HistoryTokens(responses, OutputTokensKey)
    ensures llmCalls == |responses|
  {
    var tracker := new TokenUsageTracker();
    for k := 0 to |responses|
      invariant tracker.Valid() && tracker.events == responses[..k]
    {
      tracker.OnLlmEnd(responses[k]);
      assert responses[..k + 1] == responses[..k] + [responses[k]];
    }
    assert responses[..|responses|] == responses;
    var summary := tracker.GetSummary();
    totalTokens := summary["total_tokens"];
    llmCalls := summary["llm_calls"];
  }
}
