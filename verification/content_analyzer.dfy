/** `analyze_article` and its fallbacks: the model-fallback / retry policy as
    a state machine over an abstract per-attempt outcome, and the three
    fallback analyses that keep the six-field shape when the model fails. */
module ContentAnalyzer {
  import opened Wrappers
  import opened Strings
  import opened Types
  import opened TextProcessor

  // ---------------------------------------------------------------------
  // Fallback analyses
  // ---------------------------------------------------------------------

  const NoArticleClaim: string := "No article content available for analysis"
  const NoContentText: string := "No content to analyze"
  const NoContentFlag: string := "No content available for analysis"
  const EmptyQuestions: seq<string> := [
    "Is the article content actually available?",
    "Is there a technical issue with the content retrieval?"
  ]

  /** `generate_empty_analysis()`. */
  function GenerateEmptyAnalysis(): (a: Analysis)
    ensures WellShaped(a)
    ensures a.keyEntities == Some(Items([]))
    ensures a.verificationQuestions == Some(Items(EmptyQuestions)) && |EmptyQuestions| == 2
  {
    SixFields(
      Items([NoArticleClaim]),
      Text(NoContentText),
      Items([NoContentFlag]),
      Items(EmptyQuestions),
      Items([]),
      Text(NoContentText))
  }

  /** The two labels `create_fallback_analysis` reads as text. */
  const ToneLabel: string := "Language & Tone Analysis"
  const CounterLabel: string := "Counter-Argument Simulation"

  /** `create_fallback_analysis(raw_content)`: `None` and "" give the empty
      analysis, anything else is read section by section. */
  function CreateFallbackAnalysis(raw: Option<string>): (a: Analysis)
    ensures WellShaped(a)
    ensures raw.None? || raw.value == [] ==> a == GenerateEmptyAnalysis()
    ensures a.coreClaims.value.Items? && a.redFlags.value.Items?
    ensures a.verificationQuestions.value.Items? && a.keyEntities.value.Items?
    ensures raw.Some? && raw.value != [] ==>
              && a.coreClaims == Some(ExtractSection(raw.value, CoreClaimsLabel))
              && a.languageTone == Some(ExtractSection(raw.value, ToneLabel))
              && a.redFlags == Some(ExtractSection(raw.value, RedFlagsLabel))
              && a.verificationQuestions == Some(ExtractSection(raw.value, QuestionLabel))
              && a.keyEntities == Some(ExtractSection(raw.value, EntitiesLabel))
              && a.counterArgument == Some(ExtractSection(raw.value, CounterLabel))
  {
    if raw.None? || raw.value == [] then GenerateEmptyAnalysis()
    else
      var text := raw.value;
      SixFields(
        ExtractSection(text, CoreClaimsLabel),
        ExtractSection(text, ToneLabel),
        ExtractSection(text, RedFlagsLabel),
        ExtractSection(text, QuestionLabel),
        ExtractSection(text, EntitiesLabel),
        ExtractSection(text, CounterLabel))
  }

  /** A word ends with one of . ! ? " ' */
  predicate EndsSentence(w: string) {
    w != [] && w[|w| - 1] in ".!?\"'"
  }

  /** Word `i` looks like an entity: capitalised, longer than one character,
      and first or following a word that ends a sentence. */
  predicate IsEntityAt(words: seq<string>, i: nat)
    requires i < |words|
  {
    && |words[i]| > 1
    && IsUpper(words[i][0])
    && (i == 0 || EndsSentence(words[i - 1]))
  }

  /** The entity loop of `generate_fallback_analysis` over the first `n`
      words: distinct entity words in order of first occurrence. */
  function EntitiesIn(words: seq<string>, n: nat): (es: seq<string>)
    requires n <= |words|
    ensures forall a, b :: 0 <= a < b < |es| ==> es[a] != es[b]
    ensures forall x :: x in es <==> exists i :: 0 <= i < n && IsEntityAt(words, i) && words[i] == x
    decreases n
  {
    if n == 0 then []
    else
      var es := EntitiesIn(words, n - 1);
      if IsEntityAt(words, n - 1) && words[n - 1] !in es then es + [words[n - 1]] else es
  }

  /** Entities appear in the order their first entity occurrence appears:
      any entity occurrence of a later entity comes after some entity
      occurrence of an earlier one. */
  lemma {:induction false} EntitiesInOrder(words: seq<string>, n: nat, a: nat, b: nat, i: nat)
    requires n <= |words|
    requires a < b < |EntitiesIn(words, n)|
    requires i < n && IsEntityAt(words, i) && words[i] == EntitiesIn(words, n)[b]
    ensures exists i' :: 0 <= i' < i && IsEntityAt(words, i') && words[i'] == EntitiesIn(words, n)[a]
    decreases n
  {
    var es := EntitiesIn(words, n - 1);
    if IsEntityAt(words, n - 1) && words[n - 1] !in es {
      assert EntitiesIn(words, n) == es + [words[n - 1]];
      if b < |es| {
        if i < n - 1 {
          EntitiesInOrder(words, n - 1, a, b, i);
        } else {
          // words[n - 1] would be es[b], yet it is not in es
          assert false;
        }
      } else {
        // es[b] is the new word: its earlier entity occurrences are all missing from es
        assert EntitiesIn(words, n)[a] == es[a];
        assert es[a] in es;
        var j :| 0 <= j < n - 1 && IsEntityAt(words, j) && words[j] == es[a];
        // an entity occurrence of words[n - 1] before n - 1 would put it in es
        assert j < i;
      }
    } else {
      assert EntitiesIn(words, n) == es;
      if i < n - 1 {
        EntitiesInOrder(words, n - 1, a, b, i);
      } else {
        // word n - 1 is already an entity of the first n - 1 words
        assert words[n - 1] in es;
        var j :| 0 <= j < n - 1 && IsEntityAt(words, j) && words[j] == words[n - 1];
        EntitiesInOrder(words, n - 1, a, b, j);
      }
    }
  }

  /** The candidate entities of an article body: exactly the words that are
      capitalised, longer than one character and open the text or follow a
      word ending a sentence, each once. */
  function Entities(content: string): (es: seq<string>)
    ensures forall a, b :: 0 <= a < b < |es| ==> es[a] != es[b]
    ensures forall x :: x in es ==> |x| > 1 && IsUpper(x[0])
    ensures var words := Words(content);
            forall x :: x in es <==> exists i :: 0 <= i < |words| && IsEntityAt(words, i) && words[i] == x
  {
    if content == [] then []
    else
      var words := Words(content);
      EntitiesIn(words, |words|)
  }

  const EntitySuffix: string := " - Consider researching this entity's background"

  const FallbackQuestions: seq<string> := [
    "What are the primary sources cited in this article?",
    "Is there evidence presented to support the main claims?",
    "What perspectives might be missing from this reporting?"
  ]

  /** The `key_entities` items for the first five entities. */
  function EntityItems(es: seq<string>): (r: seq<string>)
    ensures |r| == (if |es| < 5 then |es| else 5)
    ensures forall k :: 0 <= k < |r| ==> r[k] == es[k] + EntitySuffix
  {
    var top := if |es| < 5 then es else es[..5];
    seq(|top|, k requires 0 <= k < |top| => top[k] + EntitySuffix)
  }

  const DiscussesPrefix: string := "The article discusses "
  const NoToneText: string := "Unable to analyze the tone due to technical limitations."
  const ReadCriticallyFlag: string := "Analysis unavailable - please read critically"
  const NoCounterText: string :=
    "Unable to generate a counter-argument due to technical limitations. Consider seeking alternative viewpoints on this topic."

  /** `generate_fallback_analysis(article_data)`. */
  function GenerateFallbackAnalysis(article: Article): (a: Analysis)
    ensures WellShaped(a)
    ensures a.coreClaims == Some(Items([DiscussesPrefix + article.title]))
    ensures a.verificationQuestions == Some(Items(FallbackQuestions))
    ensures a.keyEntities == Some(Items(EntityItems(Entities(article.content))))
    ensures a.languageTone == Some(Text(NoToneText))
    ensures a.redFlags == Some(Items([ReadCriticallyFlag]))
    ensures a.counterArgument == Some(Text(NoCounterText))
  {
    SixFields(
      Items([DiscussesPrefix + article.title]),
      Text(NoToneText),
      Items([ReadCriticallyFlag]),
      Items(FallbackQuestions),
      Items(EntityItems(Entities(article.content))),
      Text(NoCounterText))
  }

  // ---------------------------------------------------------------------
  // Model fallback and retry
  // ---------------------------------------------------------------------

  /** The models `analyze_article` tries, in order; the state machine below
      refers to them by index. */
  const Models: seq<string> := ["gemini-2.0-flash", "gemini-1.5-flash", "gemini-1.0-flash"]
  const ModelCount: nat := 3

  lemma ModelCountIsModels()
    ensures |Models| == ModelCount
  {
  }

  const MaxRetries: nat := 3

  /** What the model calls do: `setup(model)` is the message of the
      exception `ChatGoogleGenerativeAI(model=…)` raises for model number
      `model`, if it raises, and `invoke(model, attempt)` is the outcome of
      attempt `attempt` with that model's client. */
  datatype Oracle = Oracle(setup: nat -> Option<string>, invoke: (nat, nat) -> Outcome)

  /** One attempt: a model index and an attempt index. Attempt 0 of a model
      starts with building its client, so when that fails `Try(model, 0)`
      stands for the failed constructor call and no invoke is made. */
  datatype Try = Try(model: nat, attempt: nat)

  /** The state of the loop: about to try, or finished with or without a reply. */
  datatype Phase = Trying(model: nat, attempt: nat) | Got(content: string) | Exhausted

  /** The error text signals rate limiting: "quota" in any case, or "429". */
  predicate IsRateLimit(message: string) {
    Contains(Lower(message), "quota") || Contains(message, "429")
  }

  /** Whether a failed attempt is retried with the same model. */
  predicate Retries(message: string, attempt: nat) {
    IsRateLimit(message) && attempt < MaxRetries - 1
  }

  /** Attempt `t` is the first of its model and that model's client
      cannot be built: the exception leaves the retry loop at once. */
  predicate SetupFails(oracle: Oracle, t: Try) {
    t.attempt == 0 && oracle.setup(t.model).Some?
  }

  /** The phase after model `model` is given up: the next model's first
      attempt, or exhaustion after the last model. */
  function NextModel(model: nat): Phase {
    if model + 1 < ModelCount then Trying(model + 1, 0) else Exhausted
  }

  /** The phase after attempt (`model`, `attempt`). */
  function Step(oracle: Oracle, model: nat, attempt: nat): Phase
    requires model < ModelCount && attempt < MaxRetries
  {
    if SetupFails(oracle, Try(model, attempt)) then NextModel(model)
    else
      match oracle.invoke(model, attempt)
      case Answered(c) => Got(c)
      case Raised(msg) =>
        if Retries(msg, attempt) then Trying(model, attempt + 1)
        else NextModel(model)
  }

  /** `b` is the attempt made right after the failed attempt `a`: the next
      model when `a`'s client could not be built, whatever the message;
      otherwise a retry or the next model, by the invoke error. */
  predicate Follows(oracle: Oracle, a: Try, b: Try) {
    if SetupFails(oracle, a) then b == Try(a.model + 1, 0)
    else
      && oracle.invoke(a.model, a.attempt).Raised?
      && var msg := oracle.invoke(a.model, a.attempt).message;
         if Retries(msg, a.attempt) then b == Try(a.model, a.attempt + 1)
         else b == Try(a.model + 1, 0)
  }

  /** Every attempt names a model and an attempt number within bounds. */
  predicate WithinBounds(t: seq<Try>) {
    forall k :: 0 <= k < |t| ==> t[k].model < ModelCount && t[k].attempt < MaxRetries
  }

  /** Each attempt but the last failed and was followed by the next one. */
  predicate Chained(oracle: Oracle, t: seq<Try>) {
    forall k :: 0 <= k < |t| - 1 ==> Follows(oracle, t[k], t[k + 1])
  }

  /** The last attempt decides the final phase: its reply, or exhaustion
      after a failure on the last model that is not retried (a failed
      constructor is never retried). */
  predicate Concludes(oracle: Oracle, t: seq<Try>, final: Phase)
    requires t != []
  {
    var last := t[|t| - 1];
    if SetupFails(oracle, last) then final == Exhausted && last.model == ModelCount - 1
    else
      match oracle.invoke(last.model, last.attempt)
      case Answered(c) => final == Got(c)
      case Raised(msg) => final == Exhausted && last.model == ModelCount - 1 && !Retries(msg, last.attempt)
  }

  /** The final phase and the attempts made, in order. */
  datatype Run = Run(final: Phase, trace: seq<Try>)

  /** The loops of `analyze_article` from attempt (`model`, `attempt`) on. */
  function RunFrom(oracle: Oracle, model: nat, attempt: nat): (r: Run)
    requires model < ModelCount && attempt < MaxRetries
    ensures !r.final.Trying?
    ensures |r.trace| >= 1 && r.trace[0] == Try(model, attempt)
    decreases ModelCount - model, MaxRetries - attempt
  {
    match Step(oracle, model, attempt)
    case Trying(m, a) =>
      var rest := RunFrom(oracle, m, a);
      Run(rest.final, [Try(model, attempt)] + rest.trace)
    case p => Run(p, [Try(model, attempt)])
  }

  /** A run follows the policy: attempts stay within bounds, each failed
      attempt is followed by the one the policy prescribes, and the last
      attempt decides the outcome. */
  lemma {:induction false} RunFollowsPolicy(oracle: Oracle, model: nat, attempt: nat)
    requires model < ModelCount && attempt < MaxRetries
    ensures var r := RunFrom(oracle, model, attempt);
            WithinBounds(r.trace) && Chained(oracle, r.trace) && Concludes(oracle, r.trace, r.final)
    decreases ModelCount - model, MaxRetries - attempt
  {
    var r := RunFrom(oracle, model, attempt);
    var next := Step(oracle, model, attempt);
    if next.Trying? {
      var rest := RunFrom(oracle, next.model, next.attempt);
      RunFollowsPolicy(oracle, next.model, next.attempt);
      var t := r.trace;
      assert t == [Try(model, attempt)] + rest.trace;
      assert t[|t| - 1] == rest.trace[|rest.trace| - 1];
      forall k | 0 <= k < |t| ensures t[k].model < ModelCount && t[k].attempt < MaxRetries {
        if k > 0 {
          assert t[k] == rest.trace[k - 1];
        }
      }
      forall k | 0 <= k < |t| - 1 ensures Follows(oracle, t[k], t[k + 1]) {
        if k > 0 {
          assert t[k] == rest.trace[k - 1] && t[k + 1] == rest.trace[k];
        }
      }
    }
  }

  /** A failed attempt that is followed by another prepends itself to the
      run from that next attempt. */
  lemma RunUnfold(oracle: Oracle, model: nat, attempt: nat)
    requires model < ModelCount && attempt < MaxRetries
    requires Step(oracle, model, attempt).Trying?
    ensures var next := Step(oracle, model, attempt);
            var rest := RunFrom(oracle, next.model, next.attempt);
            RunFrom(oracle, model, attempt) == Run(rest.final, [Try(model, attempt)] + rest.trace)
  {
  }

  /** Attempt `a` comes before attempt `b`: an earlier model, or the same
      model and an earlier attempt. */
  predicate Before(a: Try, b: Try) {
    a.model < b.model || (a.model == b.model && a.attempt < b.attempt)
  }

  /** The attempt after a failed one comes after it. */
  lemma StepAdvances(oracle: Oracle, model: nat, attempt: nat)
    requires model < ModelCount && attempt < MaxRetries
    requires Step(oracle, model, attempt).Trying?
    ensures var next := Step(oracle, model, attempt);
            Before(Try(model, attempt), Try(next.model, next.attempt))
  {
  }

  /** Attempts are made in strictly increasing (model, attempt) order, so no
      attempt is repeated and each model gets at most `MaxRetries` attempts. */
  lemma {:induction false} TraceIncreasing(oracle: Oracle, model: nat, attempt: nat, j: nat, k: nat)
    requires model < ModelCount && attempt < MaxRetries
    requires j < k < |RunFrom(oracle, model, attempt).trace|
    ensures var t := RunFrom(oracle, model, attempt).trace; Before(t[j], t[k])
    decreases ModelCount - model, MaxRetries - attempt
  {
    var t := RunFrom(oracle, model, attempt).trace;
    var next := Step(oracle, model, attempt);
    var rest := RunFrom(oracle, next.model, next.attempt);
    RunUnfold(oracle, model, attempt);
    assert t[k] == rest.trace[k - 1];
    if j == 0 {
      StepAdvances(oracle, model, attempt);
      assert t[0] == Try(model, attempt);
      assert rest.trace[0] == Try(next.model, next.attempt);
      if k > 1 {
        TraceIncreasing(oracle, next.model, next.attempt, 0, k - 1);
      }
    } else {
      assert t[j] == rest.trace[j - 1];
      TraceIncreasing(oracle, next.model, next.attempt, j - 1, k - 1);
    }
  }

  /** When every model is exhausted, every model had its turn, from its
      first attempt: a constructor call, followed by an invoke when the
      client was built. */
  lemma {:induction false} ExhaustedTriesEveryModel(oracle: Oracle, model: nat, m: nat)
    requires model <= m < ModelCount
    requires RunFrom(oracle, model, 0).final == Exhausted
    ensures Try(m, 0) in RunFrom(oracle, model, 0).trace
    decreases ModelCount - model
  {
    var t := RunFrom(oracle, model, 0).trace;
    if m > model {
      var i := NextModelStart(oracle, model, 0);
      ExhaustedTriesEveryModel(oracle, model + 1, m);
      var u := RunFrom(oracle, model + 1, 0).trace;
      var j :| 0 <= j < |u| && u[j] == Try(m, 0);
      assert t[i + j] == u[j];
    } else {
      assert t[0] == Try(m, 0);
    }
  }

  /** From (`model`, `attempt`) the run reaches (`model` + 1, 0) unless it
      stops with a reply or on the last model; its trace contains the rest. */
  lemma {:induction false} NextModelStart(oracle: Oracle, model: nat, attempt: nat) returns (i: nat)
    requires model + 1 < ModelCount && attempt < MaxRetries
    requires RunFrom(oracle, model, attempt).final == Exhausted
    ensures RunFrom(oracle, model + 1, 0).final == Exhausted
    ensures var t := RunFrom(oracle, model, attempt).trace;
            i < |t| && t[i..] == RunFrom(oracle, model + 1, 0).trace
    decreases MaxRetries - attempt
  {
    var next := Step(oracle, model, attempt);
    assert next.Trying?;
    var t := RunFrom(oracle, model, attempt).trace;
    var rest := RunFrom(oracle, next.model, next.attempt);
    assert t == [Try(model, attempt)] + rest.trace;
    assert rest.final == Exhausted;
    if next.model == model {
      var i' := NextModelStart(oracle, model, next.attempt);
      i := i' + 1;
      assert t[i..] == rest.trace[i'..];
    } else {
      i := 1;
    }
  }

  /** The full run, from the first attempt with the first model. */
  function RunModels(oracle: Oracle): Run {
    RunFrom(oracle, 0, 0)
  }

  const MissingKeyMessage: string :=
    "GOOGLE_API_KEY environment variable is not set. Please set it in your .env file or environment."

  /** `analyze_article(article_data)`, with the API key, the model calls and
      the structured-output parser as parameters: `parse` returns `None`
      where `StructuredOutputParser.parse` raises. */
  function AnalyzeArticle(apiKey: Option<string>, article: Article, oracle: Oracle,
                          parse: string -> Option<Analysis>): (r: Result<Analysis>)
    ensures r.Failure? <==> apiKey.None? || apiKey.value == []
    ensures r.Failure? ==> r.error == MissingKeyMessage
    ensures r.Success? && RunModels(oracle).final.Got? ==>
              var c := RunModels(oracle).final.content;
              r.value == parse(c).GetOr(CreateFallbackAnalysis(Some(c)))
    ensures r.Success? && RunModels(oracle).final.Exhausted? ==> r.value == GenerateFallbackAnalysis(article)
  {
    if apiKey.None? || apiKey.value == [] then Failure(MissingKeyMessage)
    else
      var final := RunModels(oracle).final;
      if final.Got? then Success(parse(final.content).GetOr(CreateFallbackAnalysis(Some(final.content))))
      else Success(GenerateFallbackAnalysis(article))
  }

  /** With no answer from any attempt, the result is the heuristic fallback
      analysis, never the empty one. */
  lemma AllModelsFailing(apiKey: string, article: Article, oracle: Oracle, parse: string -> Option<Analysis>)
    requires apiKey != []
    requires forall m: nat, a: nat :: oracle.invoke(m, a).Raised?
    ensures AnalyzeArticle(Some(apiKey), article, oracle, parse) == Success(GenerateFallbackAnalysis(article))
  {
    RunFollowsPolicy(oracle, 0, 0);
    var t := RunModels(oracle).trace;
    var last := t[|t| - 1];
    assert oracle.invoke(last.model, last.attempt).Raised?;
    assert RunModels(oracle).final == Exhausted;
  }

  /** A reply to the very first attempt, made once the first client is
      built, is used, whatever the later attempts would have done. */
  lemma FirstAnswerWins(apiKey: string, article: Article, oracle: Oracle, parse: string -> Option<Analysis>)
    requires apiKey != []
    requires oracle.setup(0).None? && oracle.invoke(0, 0).Answered?
    ensures var c := oracle.invoke(0, 0).content;
            AnalyzeArticle(Some(apiKey), article, oracle, parse) == Success(parse(c).GetOr(CreateFallbackAnalysis(Some(c))))
  {
    var c := oracle.invoke(0, 0).content;
    assert Step(oracle, 0, 0) == Got(c);
    assert RunModels(oracle).final == Got(c);
  }

  /** A rate-limit error on the first invoke is retried with the same model. */
  lemma {:induction false} RateLimitRetried(oracle: Oracle)
    requires oracle.setup(0).None?
    requires oracle.invoke(0, 0).Raised? && IsRateLimit(oracle.invoke(0, 0).message)
    ensures |RunModels(oracle).trace| >= 2 && RunModels(oracle).trace[1] == Try(0, 1)
  {
    assert Step(oracle, 0, 0) == Trying(0, 1);
  }

  /** Any other error on the first invoke moves on to the second model. */
  lemma {:induction false} OtherErrorAbandonsModel(oracle: Oracle)
    requires oracle.setup(0).None?
    requires oracle.invoke(0, 0).Raised? && !IsRateLimit(oracle.invoke(0, 0).message)
    ensures |RunModels(oracle).trace| >= 2 && RunModels(oracle).trace[1] == Try(1, 0)
  {
    assert Step(oracle, 0, 0) == Trying(1, 0);
  }

  /** A model whose client cannot be built is given up at once, whatever
      the exception says and whatever its invokes would have done: the run
      goes on with the next model, and no later attempt uses this model. */
  lemma SetupFailureSkipsModel(oracle: Oracle, m: nat)
    requires m < ModelCount && oracle.setup(m).Some?
    ensures var r := RunFrom(oracle, m, 0);
            if m + 1 < ModelCount then
              var rest := RunFrom(oracle, m + 1, 0);
              r == Run(rest.final, [Try(m, 0)] + rest.trace)
            else r == Run(Exhausted, [Try(m, 0)])
    ensures var t := RunFrom(oracle, m, 0).trace;
            forall k :: 0 < k < |t| ==> t[k].model > m
  {
    var t := RunFrom(oracle, m, 0).trace;
    if m + 1 < ModelCount {
      var u := RunFrom(oracle, m + 1, 0).trace;
      forall k | 0 < k < |t| ensures t[k].model > m {
        assert t[k] == u[k - 1];
        if k > 1 {
          TraceIncreasing(oracle, m + 1, 0, 0, k - 1);
        }
      }
    }
  }
}
