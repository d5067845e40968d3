/**
 * API usage counters (src/video2markdown/stats.py): one `UsageStats`
 * object accumulates prompt tokens, completion tokens and calls; a
 * process-wide instance is created on first use and replaced on reset.
 */
module Stats {
  import opened Wrappers

  /** The `usage` attribute of an API response: each count may be absent (`getattr(usage, name, 0)`). */
  datatype Usage = Usage(promptTokens: Option<int>, completionTokens: Option<int>)

  /** A response without a `usage` attribute, or with `usage = None`, carries `None`. */
  datatype Response = Response(usage: Option<Usage>)

  /** What `add_from_response` adds: nothing without usage, else the counts with 0 for a missing one. */
  function UsageOf(r: Response): (u: Option<(int, int)>)
    ensures u.None? <==> r.usage.None?
    ensures u.Some? ==> u.value.0 == r.usage.value.promptTokens.GetOr(0)
    ensures u.Some? ==> u.value.1 == r.usage.value.completionTokens.GetOr(0)
  {
    match r.usage
    case None => None
    case Some(usage) => Some((usage.promptTokens.GetOr(0), usage.completionTokens.GetOr(0)))
  }

  class UsageStats {
    var promptTokens: int
    var completionTokens: int
    var apiCalls: int

    /** A fresh counter set: everything at zero. */
    constructor()
      ensures promptTokens == 0 && completionTokens == 0 && apiCalls == 0
    {
      promptTokens := 0;
      completionTokens := 0;
      apiCalls := 0;
    }

    /** `total_tokens` */
    function TotalTokens(): int
      reads this
    {
      promptTokens + completionTokens
    }

    /** One API call with the given token counts. */
    method Add(prompt: int, completion: int)
      modifies this
      ensures promptTokens == old(promptTokens) + prompt
      ensures completionTokens == old(completionTokens) + completion
      ensures apiCalls == old(apiCalls) + 1
      ensures TotalTokens() == old(TotalTokens()) + prompt + completion
    {
      promptTokens := promptTokens + prompt;
      completionTokens := completionTokens + completion;
      apiCalls := apiCalls + 1;
    }

    /** A response without usage leaves every counter as it was; otherwise it counts as one call. */
    method AddFromResponse(response: Response)
      modifies this
      ensures UsageOf(response).None? ==>
                promptTokens == old(promptTokens) && completionTokens == old(completionTokens) &&
                apiCalls == old(apiCalls)
      ensures UsageOf(response).Some? ==>
                promptTokens == old(promptTokens) + UsageOf(response).value.0 &&
                completionTokens == old(completionTokens) + UsageOf(response).value.1 &&
                apiCalls == old(apiCalls) + 1
    {
      if response.usage.None? {
        return;
      }
      var usage := response.usage.value;
      var prompt := usage.promptTokens.GetOr(0);
      var completion := usage.completionTokens.GetOr(0);
      Add(prompt, completion);
    }

    /** Every counter back to zero. */
    method Reset()
      modifies this
      ensures promptTokens == 0 && completionTokens == 0 && apiCalls == 0
      ensures TotalTokens() == 0
    {
      promptTokens := 0;
      completionTokens := 0;
      apiCalls := 0;
    }
  }

  /** The module-level `_global_stats` slot, `null` until first use. */
  class StatsRegistry {
    var globalStats: UsageStats?

    constructor()
      ensures globalStats == null
    {
      globalStats := null;
    }

    /** `get_stats`: the cached instance, created zeroed on the first call. */
    method GetStats() returns (s: UsageStats)
      modifies this
      ensures old(globalStats) != null ==> s == old(globalStats)
      ensures old(globalStats) == null ==>
                fresh(s) && s.promptTokens == 0 && s.completionTokens == 0 && s.apiCalls == 0
      ensures globalStats == s
    {
      if globalStats == null {
        globalStats := new UsageStats();
      }
      s := globalStats;
    }

    /** `reset_stats`: a new zeroed instance replaces the cached one; the old object is not touched. */
    method ResetStats()
      modifies this
      ensures globalStats != null && fresh(globalStats)
      ensures globalStats.promptTokens == 0 && globalStats.completionTokens == 0 && globalStats.apiCalls == 0
    {
      globalStats := new UsageStats();
    }
  }

  /** Two calls of `get_stats` in a row hand out the same object. */
  method GetStatsTwice(reg: StatsRegistry) returns (a: UsageStats, b: UsageStats)
    modifies reg
    ensures a == b && reg.globalStats == a
  {
    a := reg.GetStats();
    b := reg.GetStats();
  }
}
