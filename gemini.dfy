/**
 * The explanation service: the retry policy around the language-model call,
 * the clean-up of the model's reply, the fallbacks for missing fields, and
 * the fixed explanation used whenever the model cannot be used.
 */
module GeminiService {
  import opened Wrappers
  import opened Text

  /** The explanation object: a one-sentence summary and a longer text. */
  datatype Explanation = Explanation(summary: string, expanded: string)

  // ---------------------------------------------------------------------------
  // withRetry

  /** What one call of the retried function does: resolve with a value, or
      reject with an error carrying a message. */
  datatype Attempt<T> = Resolved(value: T) | Rejected(message: string)

  /** How `withRetry` ends: returning a value, rethrowing an error, or (only when
      the loop never runs) falling off its end with `undefined`. `calls` counts
      the calls made and `delays` lists the waits, in milliseconds, between them. */
  datatype RetryResult<T> =
    | Returned(value: T, calls: nat, delays: seq<int>)
    | Thrown(message: string, calls: nat, delays: seq<int>)
    | Fallthrough(calls: nat, delays: seq<int>)

  /** An error counts as rate limiting when its message mentions HTTP status 429. */
  predicate IsRateLimit(message: string)
  {
    IsInfix("429", message) || IsInfix("Too Many Requests", message)
  }

  function Pow2(k: nat): (r: nat)
    ensures r >= 1
  {
    if k == 0 then 1 else 2 * Pow2(k - 1)
  }

  /** The exponential back-off schedule: the waits before the first `k` retries.
      The first wait is `baseDelay` and every later one doubles the one before. */
  function Schedule(baseDelay: int, k: nat): (r: seq<int>)
    ensures |r| == k && forall j :: 0 <= j < k ==> r[j] == baseDelay * Pow2(j)
    ensures k > 0 ==> r[0] == baseDelay
    ensures forall j :: 0 <= j < k - 1 ==> r[j + 1] == 2 * r[j]
  {
    var r := seq(k, j requires 0 <= j => baseDelay * Pow2(j));
    assert forall j :: 0 <= j < k - 1 ==> r[j + 1] == 2 * r[j] by {
      forall j | 0 <= j < k - 1
        ensures r[j + 1] == 2 * r[j]
      {
        assert Pow2(j + 1) == 2 * Pow2(j);
        assert baseDelay * (2 * Pow2(j)) == 2 * (baseDelay * Pow2(j));
      }
    }
    r
  }

  /** Each retry adds one wait at the end of the schedule, so a shorter schedule
      is a prefix of a longer one. */
  lemma {:induction false} ScheduleGrows(baseDelay: int, k: nat, k': nat)
    requires k <= k'
    ensures Schedule(baseDelay, k + 1) == Schedule(baseDelay, k) + [baseDelay * Pow2(k)]
    ensures Schedule(baseDelay, k) == Schedule(baseDelay, k')[..k]
  {
    var s, t := Schedule(baseDelay, k), Schedule(baseDelay, k + 1);
    assert forall j :: 0 <= j < k + 1 ==> t[j] == (s + [baseDelay * Pow2(k)])[j];
    var u := Schedule(baseDelay, k');
    assert forall j :: 0 <= j < k ==> s[j] == u[..k][j];
  }

  /** The retry loop from attempt number `attempt` on, the waits so far being `delays`.
      `outcome(n)` is what the `n`-th call (counting from 0) does. */
  function RetryFrom<T>(outcome: nat -> Attempt<T>, maxRetries: int, baseDelay: int,
                        attempt: nat, delays: seq<int>): RetryResult<T>
    decreases if attempt <= maxRetries then maxRetries + 1 - attempt else 0
  {
    if attempt > maxRetries then Fallthrough(attempt, delays)
    else match outcome(attempt)
      case Resolved(v) => Returned(v, attempt + 1, delays)
      case Rejected(m) =>
        if IsRateLimit(m) && attempt < maxRetries then
          RetryFrom(outcome, maxRetries, baseDelay, attempt + 1, delays + [baseDelay * Pow2(attempt)])
        else
          Thrown(m, attempt + 1, delays)
  }

  /** The loop from the first attempt on: it falls through only when `maxRetries`
      is negative, and otherwise makes between 1 and `maxRetries + 1` calls. */
  function Retry<T>(outcome: nat -> Attempt<T>, maxRetries: int, baseDelay: int): (r: RetryResult<T>)
    ensures r.Fallthrough? <==> maxRetries < 0
    ensures maxRetries >= 0 ==> 1 <= r.calls <= maxRetries + 1
  {
    var r := RetryFrom(outcome, maxRetries, baseDelay, 0, []);
    assert maxRetries >= 0 ==> !r.Fallthrough? && 1 <= r.calls <= maxRetries + 1 by {
      if maxRetries >= 0 {
        RetryFromShape(outcome, maxRetries, baseDelay, 0, []);
      }
    }
    r
  }

  /** `withRetry(fn, maxRetries, baseDelay)`: the loop over attempts, with the
      sleeps recorded instead of awaited. */
  method WithRetry<T>(outcome: nat -> Attempt<T>, maxRetries: int := 3, baseDelay: int := 2000)
    returns (r: RetryResult<T>)
    ensures r == Retry(outcome, maxRetries, baseDelay)
  {
    var delays: seq<int> := [];
    var attempt: nat := 0;
    while attempt <= maxRetries
      invariant RetryFrom(outcome, maxRetries, baseDelay, attempt, delays) == Retry(outcome, maxRetries, baseDelay)
      decreases maxRetries + 1 - attempt
    {
      match outcome(attempt) {
        case Resolved(v) =>
          return Returned(v, attempt + 1, delays);
        case Rejected(m) =>
          if IsRateLimit(m) && attempt < maxRetries {
            var delay := baseDelay * Pow2(attempt);
            delays := delays + [delay];
          } else {
            return Thrown(m, attempt + 1, delays);
          }
      }
      attempt := attempt + 1;
    }
    return Fallthrough(attempt, delays);
  }

  /** Call `n` failed with a rate-limit error. */
  predicate RateLimited<T>(outcome: nat -> Attempt<T>, n: nat)
  {
    outcome(n).Rejected? && IsRateLimit(outcome(n).message)
  }

  /** Call `k` is the one that ends the loop: every earlier call was rate
      limited, and call `k` succeeded, failed otherwise, or was the last allowed. */
  predicate DecidedAt<T>(outcome: nat -> Attempt<T>, maxRetries: int, k: nat)
  {
    k <= maxRetries &&
    (forall j: nat :: j < k ==> RateLimited(outcome, j)) &&
    (outcome(k).Resolved? || !IsRateLimit(outcome(k).message) || k == maxRetries)
  }

  /** The result once call `k` decides: its value or its error, after `k + 1`
      calls and the first `k` waits of the back-off schedule. */
  function ResultAt<T>(outcome: nat -> Attempt<T>, baseDelay: int, k: nat): RetryResult<T>
  {
    match outcome(k)
      case Resolved(v) => Returned(v, k + 1, Schedule(baseDelay, k))
      case Rejected(m) => Thrown(m, k + 1, Schedule(baseDelay, k))
  }

  lemma {:induction false} RetryFromDecided<T>(outcome: nat -> Attempt<T>, maxRetries: int, baseDelay: int,
                                               attempt: nat, k: nat)
    requires attempt <= k && DecidedAt(outcome, maxRetries, k)
    ensures RetryFrom(outcome, maxRetries, baseDelay, attempt, Schedule(baseDelay, attempt)) ==
            ResultAt(outcome, baseDelay, k)
    decreases k - attempt
  {
    if attempt < k {
      assert RateLimited(outcome, attempt);
      ScheduleGrows(baseDelay, attempt, attempt);
      RetryFromDecided(outcome, maxRetries, baseDelay, attempt + 1, k);
    }
  }

  /** The loop ends at the first call that succeeds, fails with an error that is
      not rate limiting, or is the last of `maxRetries + 1`: that call's value is
      returned, or its error rethrown, after exactly the back-off waits before it. */
  lemma RetryDecided<T>(outcome: nat -> Attempt<T>, maxRetries: int, baseDelay: int, k: nat)
    requires DecidedAt(outcome, maxRetries, k)
    ensures Retry(outcome, maxRetries, baseDelay) == ResultAt(outcome, baseDelay, k)
  {
    RetryFromDecided(outcome, maxRetries, baseDelay, 0, k);
  }

  lemma {:induction false} RetryFromShape<T>(outcome: nat -> Attempt<T>, maxRetries: int, baseDelay: int,
                                             attempt: nat, delays: seq<int>)
    requires attempt <= maxRetries
    ensures var r := RetryFrom(outcome, maxRetries, baseDelay, attempt, delays);
      !r.Fallthrough? && attempt < r.calls <= maxRetries + 1 &&
      (forall j: nat :: attempt <= j < r.calls - 1 ==> RateLimited(outcome, j)) &&
      (outcome(r.calls - 1).Resolved? || !IsRateLimit(outcome(r.calls - 1).message) ||
       r.calls - 1 == maxRetries)
    decreases maxRetries + 1 - attempt
  {
    var o := outcome(attempt);
    if o.Rejected? && IsRateLimit(o.message) && attempt < maxRetries {
      RetryFromShape(outcome, maxRetries, baseDelay, attempt + 1, delays + [baseDelay * Pow2(attempt)]);
    }
  }

  /** Every run of the loop: it falls through exactly when `maxRetries` is negative;
      otherwise it makes between 1 and `maxRetries + 1` calls, all but the last
      rate limited, and its result is decided by the last as `RetryDecided` says. */
  lemma RetryShape<T>(outcome: nat -> Attempt<T>, maxRetries: int, baseDelay: int)
    ensures var r := Retry(outcome, maxRetries, baseDelay);
      (r.Fallthrough? <==> maxRetries < 0) &&
      (r.Fallthrough? ==> r.calls == 0 && r.delays == []) &&
      (!r.Fallthrough? ==>
        1 <= r.calls <= maxRetries + 1 && DecidedAt(outcome, maxRetries, r.calls - 1) &&
        r == ResultAt(outcome, baseDelay, r.calls - 1))
  {
    if maxRetries >= 0 {
      var r := Retry(outcome, maxRetries, baseDelay);
      RetryFromShape(outcome, maxRetries, baseDelay, 0, []);
      assert DecidedAt(outcome, maxRetries, r.calls - 1);
      RetryDecided(outcome, maxRetries, baseDelay, r.calls - 1);
    }
  }

  /** A failure that is not rate limiting is rethrown at once, without a wait. */
  lemma OtherErrorNotRetried<T>(outcome: nat -> Attempt<T>, maxRetries: int, baseDelay: int)
    requires maxRetries >= 0 && outcome(0).Rejected? && !IsRateLimit(outcome(0).message)
    ensures Retry(outcome, maxRetries, baseDelay) == Thrown(outcome(0).message, 1, [])
  {
    RetryDecided(outcome, maxRetries, baseDelay, 0);
  }

  /** A rate-limit error on every allowed call: the last one is rethrown after
      `maxRetries` waits. */
  lemma LastRateLimitRethrown<T>(outcome: nat -> Attempt<T>, maxRetries: nat, baseDelay: int)
    requires forall j: nat :: j <= maxRetries ==> RateLimited(outcome, j)
    ensures var r := Retry(outcome, maxRetries, baseDelay);
      r.Thrown? && outcome(maxRetries) == Rejected(r.message) &&
      r.calls == maxRetries + 1 && r.delays == Schedule(baseDelay, maxRetries)
  {
    assert RateLimited(outcome, maxRetries);
    RetryDecided(outcome, maxRetries, baseDelay, maxRetries);
  }

  /** With the call site's arguments (3 retries from 3000 ms) the waits are a
      prefix of 3000, 6000 and 12000 ms, and at most four calls are made. */
  lemma CallSiteSchedule<T>(outcome: nat -> Attempt<T>)
    ensures var r := Retry(outcome, 3, 3000);
      1 <= r.calls <= 4 && r.delays == [3000, 6000, 12000][..r.calls - 1]
  {
    RetryShape(outcome, 3, 3000);
    var r := Retry(outcome, 3, 3000);
    assert Pow2(1) == 2 && Pow2(2) == 4;
    ScheduleGrows(3000, r.calls - 1, 3);
    assert r.delays == Schedule(3000, 3)[..r.calls - 1];
  }

  // ---------------------------------------------------------------------------
  // Clean-up of the model's reply

  /** `text.replace(/```json/g, '').replace(/```/g, '').trim()`: the result holds
      no code fence and has no surrounding white space. */
  function CleanText(text: string): (clean: string)
    ensures !IsInfix("```", clean)
    ensures clean == [] || (!IsJsSpace(clean[0]) && !IsJsSpace(clean[|clean| - 1]))
  {
    FencesRemoved(text);
    JsTrim(RemoveAll(RemoveAll(text, "```json"), "```"))
  }

  /** The cleaned reply holds no code fence and has no surrounding white space,
      and the clean-up removes nothing else: a reply without fences or surrounding
      white space comes out unchanged. */
  lemma NoFenceAfterCleanup(text: string)
    ensures var clean := CleanText(text);
      !IsInfix("```", clean) &&
      (clean == [] || (!IsJsSpace(clean[0]) && !IsJsSpace(clean[|clean| - 1])))
    ensures !IsInfix("```", text) && (text == [] || (!IsJsSpace(text[0]) && !IsJsSpace(text[|text| - 1]))) ==>
      CleanText(text) == text
  {
    if !IsInfix("```", text) && (text == [] || (!IsJsSpace(text[0]) && !IsJsSpace(text[|text| - 1]))) {
      PlainReplyUnchanged(text);
    }
  }

  /** Removing every triple backtick and trimming leaves neither a fence nor
      surrounding white space. */
  lemma FencesRemoved(text: string)
    ensures var clean := JsTrim(RemoveAll(RemoveAll(text, "```json"), "```"));
      !IsInfix("```", clean) &&
      (clean == [] || (!IsJsSpace(clean[0]) && !IsJsSpace(clean[|clean| - 1])))
  {
    var v := RemoveAll(text, "```json");
    var u := RemoveAll(v, "```");
    assert Run('`', 3) == "```";
    RemoveRunLeavesNone(v, '`', 3);
    var k := StripSpec(u, IsJsSpace);
    NoRunInSlice(u, k, |JsTrim(u)|, '`', 3);
  }

  /** Cleaning twice is cleaning once. */
  lemma CleanupIdempotent(text: string)
    ensures CleanText(CleanText(text)) == CleanText(text)
  {
    PlainReplyUnchanged(CleanText(text));
  }

  lemma PlainReplyUnchanged(text: string)
    requires !IsInfix("```", text)
    requires text == [] || (!IsJsSpace(text[0]) && !IsJsSpace(text[|text| - 1]))
    ensures CleanText(text) == text
  {
    assert "```json" == "```" + "json";
    AbsentExtension(text, "```", "json");
    RemoveAbsent(text, "```json");
    RemoveAbsent(text, "```");
    StripNoop(text, IsJsSpace);
  }

  /** The outcome of `JSON.parse` on the cleaned reply, reduced to what is read from
      it: a syntax error, the value `null` (reading a field of it throws), or any
      other value with its string fields `summary`, `expanded` and `details`. */
  datatype Parsed =
    | Unparsable
    | JsonNull
    | JsonValue(summary: Option<string>, expanded: Option<string>, details: Option<string>)

  /** JavaScript `v || fallback` for a string field that may be missing. */
  function OrElse(v: Option<string>, fallback: string): string
  {
    if v.Some? && v.value != "" then v.value else fallback
  }

  const SummaryUnavailable := "Explanation unavailable."
  const ExpandedUnavailable := "Detailed explanation unavailable."

  /** The explanation built from the cleaned reply and what parsing it gave: from
      a parsed value neither text is empty; otherwise the reply itself is the
      expanded text and a prefix of it the summary. */
  function ReplyExplanation(clean: string, parsed: Parsed): (e: Explanation)
    ensures parsed.JsonValue? ==> e.summary != "" && e.expanded != ""
    ensures !parsed.JsonValue? ==> e.expanded == clean && StartsWith(clean, e.summary)
  {
    match parsed
      case JsonValue(summary, expanded, details) =>
        Explanation(OrElse(summary, SummaryUnavailable), OrElse(expanded, OrElse(details, ExpandedUnavailable)))
      case _ =>
        Explanation(Prefix(clean, 200), clean)
  }

  /** For a parsed reply: a non-empty `summary` is used as is, otherwise the
      fallback sentence; `expanded` falls back to `details` and then to its own
      fallback sentence. Neither text is ever empty. */
  lemma ParsedReplyFields(clean: string, summary: Option<string>, expanded: Option<string>,
                          details: Option<string>)
    ensures var e := ReplyExplanation(clean, JsonValue(summary, expanded, details));
      e.summary != "" && e.expanded != "" &&
      (summary.Some? && summary.value != "" ==> e.summary == summary.value) &&
      (summary == None || summary == Some("") ==> e.summary == SummaryUnavailable) &&
      (expanded.Some? && expanded.value != "" ==> e.expanded == expanded.value) &&
      (expanded == None || expanded == Some("") ==>
        e.expanded == if details.Some? && details.value != "" then details.value else ExpandedUnavailable)
  {
  }

  /** For a reply that is not JSON (or is `null`): the whole cleaned text is the
      expanded explanation and its first 200 characters the summary. */
  lemma RawReplyFields(text: string, parsed: Parsed)
    requires parsed == Unparsable || parsed == JsonNull
    ensures var clean := CleanText(text); var e := ReplyExplanation(clean, parsed);
      e.expanded == clean && StartsWith(clean, e.summary) &&
      |e.summary| == (if |clean| < 200 then |clean| else 200) &&
      !IsInfix("```", e.expanded)
  {
    NoFenceAfterCleanup(text);
  }

  // ---------------------------------------------------------------------------
  // The explanation service

  /** The fixed explanation used when the model is not available. Its summary
      carries the bytes of an em dash decoded as Windows-1252, as in the source.
      Both texts name the gene, the phenotype, the drug and the risk label. */
  function FallbackExplanation(drug: string, gene: string, phenotype: string, riskLabel: string): (e: Explanation)
    ensures IsInfix(gene, e.summary) && IsInfix(phenotype, e.summary) &&
      IsInfix(drug, e.summary) && IsInfix(riskLabel, e.summary)
    ensures IsInfix(gene, e.expanded) && IsInfix(phenotype, e.expanded) &&
      IsInfix(drug, e.expanded) && IsInfix(riskLabel, e.expanded)
  {
    TemplateMentions(phenotype, " phenotype detected for ", gene, ". Risk for ", drug, ": ", riskLabel,
      SummaryTail);
    LedTemplateMentions("The patient's ", gene, " gene analysis reveals a ", phenotype, " phenotype. For ",
      drug, ", this results in a risk classification of \"", riskLabel, ExpandedTail);
    Explanation(
      phenotype + " phenotype detected for " + gene + ". Risk for " + drug + ": " + riskLabel + SummaryTail,
      "The patient's " + gene + " gene analysis reveals a " + phenotype + " phenotype. For " + drug +
        ", this results in a risk classification of \"" + riskLabel + ExpandedTail)
  }

  const SummaryTail := ". (AI explanation temporarily unavailable \U{00E2}\U{20AC}\U{201D} Gemini API rate limited)"

  const ExpandedTail := "\". This assessment is based on CPIC pharmacogenomic guidelines. The AI-generated detailed explanation is temporarily unavailable due to API rate limits. Please retry shortly."

  /** What the retrieval service answered: nothing (the request failed) or a context. */
  datatype RagReply = RagUnavailable | RagReplied(retrievedContext: string)

  const RagUnavailableNotice := "CPIC guidelines unavailable at this time."

  function RetrievedContext(rag: RagReply): string
  {
    match rag
      case RagUnavailable => RagUnavailableNotice
      case RagReplied(context) => context
  }

  /** What the prompt is built from; its wording is not part of this model. */
  datatype Prompt = Prompt(context: string, gene: string, phenotype: string, drug: string, riskLabel: string)

  /** The outside world of the service: whether an API key is configured, the
      retrieval service's answer, what the `n`-th model call on a prompt does,
      and what `JSON.parse` makes of a text. */
  datatype Services = Services(apiKeySet: bool, rag: RagReply,
                               generate: Prompt -> nat -> Attempt<string>,
                               parseJson: string -> Parsed)

  /** `generateExplanation(drug, gene, phenotype, riskLabel, depth)`: the result is
      either the fallback or the explanation read from a cleaned model reply. */
  function GenerateExplanation(drug: string, gene: string, phenotype: string, riskLabel: string,
                               depth: string, services: Services): (e: Explanation)
    ensures e == FallbackExplanation(drug, gene, phenotype, riskLabel) ||
      exists text: string :: e == ReplyExplanation(CleanText(text), services.parseJson(CleanText(text)))
    ensures !services.apiKeySet ==> e == FallbackExplanation(drug, gene, phenotype, riskLabel)
  {
    if !services.apiKeySet then FallbackExplanation(drug, gene, phenotype, riskLabel)
    else
      var prompt := Prompt(RetrievedContext(services.rag), gene, phenotype, drug, riskLabel);
      match Retry(services.generate(prompt), 3, 3000)
        case Returned(text, _, _) =>
          var clean := CleanText(text);
          ReplyExplanation(clean, services.parseJson(clean))
        case _ => FallbackExplanation(drug, gene, phenotype, riskLabel)
  }

  /** With an API key, the model call that decides the retry loop decides the
      explanation: a reply becomes the explanation read from its cleaned text,
      and any error the loop rethrows gives the fallback. */
  lemma ModelCallDecides(drug: string, gene: string, phenotype: string, riskLabel: string,
                         depth: string, services: Services, k: nat)
    requires services.apiKeySet
    requires var prompt := Prompt(RetrievedContext(services.rag), gene, phenotype, drug, riskLabel);
      DecidedAt(services.generate(prompt), 3, k)
    ensures var outcome := services.generate(Prompt(RetrievedContext(services.rag), gene, phenotype, drug, riskLabel));
      var e := GenerateExplanation(drug, gene, phenotype, riskLabel, depth, services);
      (outcome(k).Resolved? ==>
        e == ReplyExplanation(CleanText(outcome(k).value), services.parseJson(CleanText(outcome(k).value)))) &&
      (outcome(k).Rejected? ==> e == FallbackExplanation(drug, gene, phenotype, riskLabel))
  {
    var prompt := Prompt(RetrievedContext(services.rag), gene, phenotype, drug, riskLabel);
    RetryDecided(services.generate(prompt), 3, 3000, k);
  }

  /** Some call always decides the loop of the service's four allowed calls, so
      `ModelCallDecides` covers every behaviour of the model. */
  lemma SomeCallDecides<T>(outcome: nat -> Attempt<T>)
    ensures exists k: nat :: k <= 3 && DecidedAt(outcome, 3, k)
  {
    RetryShape(outcome, 3, 3000);
    var r := Retry(outcome, 3, 3000);
    assert DecidedAt(outcome, 3, r.calls - 1);
  }

  /** Without an API key the fallback is used and no other service is consulted. */
  lemma NoKeyFallback(drug: string, gene: string, phenotype: string, riskLabel: string,
                      depth: string, services: Services)
    requires !services.apiKeySet
    ensures GenerateExplanation(drug, gene, phenotype, riskLabel, depth, services) ==
            FallbackExplanation(drug, gene, phenotype, riskLabel)
  {
  }

  /** A first model call failing with an error that is not rate limiting
      gives the fallback. */
  lemma ModelFailureFallback(drug: string, gene: string, phenotype: string, riskLabel: string,
                             depth: string, services: Services)
    requires var prompt := Prompt(RetrievedContext(services.rag), gene, phenotype, drug, riskLabel);
      services.generate(prompt)(0).Rejected? && !IsRateLimit(services.generate(prompt)(0).message)
    ensures GenerateExplanation(drug, gene, phenotype, riskLabel, depth, services) ==
            FallbackExplanation(drug, gene, phenotype, riskLabel)
  {
    var prompt := Prompt(RetrievedContext(services.rag), gene, phenotype, drug, riskLabel);
    OtherErrorNotRetried(services.generate(prompt), 3, 3000);
  }

  /** Rate limiting on all four calls the policy allows gives the fallback too. */
  lemma RateLimitFallback(drug: string, gene: string, phenotype: string, riskLabel: string,
                          depth: string, services: Services)
    requires var prompt := Prompt(RetrievedContext(services.rag), gene, phenotype, drug, riskLabel);
      forall j: nat :: j <= 3 ==> RateLimited(services.generate(prompt), j)
    ensures GenerateExplanation(drug, gene, phenotype, riskLabel, depth, services) ==
            FallbackExplanation(drug, gene, phenotype, riskLabel)
  {
    var prompt := Prompt(RetrievedContext(services.rag), gene, phenotype, drug, riskLabel);
    LastRateLimitRethrown(services.generate(prompt), 3, 3000);
  }

  /** A failed retrieval behaves exactly like a retrieval that answered with the
      notice that the guidelines are unavailable. */
  lemma RagFailureNotice(drug: string, gene: string, phenotype: string, riskLabel: string,
                         depth: string, services: Services)
    requires services.rag == RagUnavailable
    ensures GenerateExplanation(drug, gene, phenotype, riskLabel, depth, services) ==
            GenerateExplanation(drug, gene, phenotype, riskLabel, depth,
                                services.(rag := RagReplied(RagUnavailableNotice)))
  {
  }

  /** The requested depth does not change the explanation. */
  lemma DepthIgnored(drug: string, gene: string, phenotype: string, riskLabel: string,
                     depth1: string, depth2: string, services: Services)
    ensures GenerateExplanation(drug, gene, phenotype, riskLabel, depth1, services) ==
            GenerateExplanation(drug, gene, phenotype, riskLabel, depth2, services)
  {
  }
}
