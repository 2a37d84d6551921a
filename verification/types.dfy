/** The records the analyser passes between its stages. */
module Types {
  import opened Wrappers

  /** The value stored under one analysis key: `analyze_article` keeps either a
      string or a list of strings there and every consumer handles both. */
  datatype Field = Text(text: string) | Items(items: seq<string>)

  /** A `sensationalism_score` value as the report renderer may find it. */
  datatype ScoreValue = IntScore(n: int) | TextScore(s: string) | NullScore

  /** One entry of `related_articles`. */
  datatype RelatedArticle = RelatedArticle(title: string, url: string, source: string)

  /** An analysis dictionary. The six rubric keys may be missing (`None`)
      when the value came from the model's structured output; the extras
      are merged in by callers, with "" / [] standing for a missing key. */
  datatype Analysis = Analysis(
    coreClaims: Option<Field>,
    languageTone: Option<Field>,
    redFlags: Option<Field>,
    verificationQuestions: Option<Field>,
    keyEntities: Option<Field>,
    counterArgument: Option<Field>,
    headlineAnalysis: string,
    sensationalismScore: Option<ScoreValue>,
    clickbaitIndicators: seq<string>,
    comparativeAnalysis: string,
    relatedArticles: seq<RelatedArticle>)

  /** All six rubric keys are present and nothing else is. */
  predicate WellShaped(a: Analysis) {
    && a.coreClaims.Some? && a.languageTone.Some? && a.redFlags.Some?
    && a.verificationQuestions.Some? && a.keyEntities.Some? && a.counterArgument.Some?
    && a.headlineAnalysis == "" && a.sensationalismScore.None? && a.clickbaitIndicators == []
    && a.comparativeAnalysis == "" && a.relatedArticles == []
  }

  /** An analysis holding exactly the six rubric keys. */
  function SixFields(coreClaims: Field, languageTone: Field, redFlags: Field,
                     verificationQuestions: Field, keyEntities: Field, counterArgument: Field): (a: Analysis)
    ensures WellShaped(a)
    ensures a.coreClaims == Some(coreClaims) && a.languageTone == Some(languageTone)
    ensures a.redFlags == Some(redFlags) && a.verificationQuestions == Some(verificationQuestions)
    ensures a.keyEntities == Some(keyEntities) && a.counterArgument == Some(counterArgument)
  {
    Analysis(Some(coreClaims), Some(languageTone), Some(redFlags),
             Some(verificationQuestions), Some(keyEntities), Some(counterArgument),
             "", None, [], "", [])
  }

  /** What one call of a language model does: return a message or raise. */
  datatype Outcome = Answered(content: string) | Raised(message: string)

  /** The article dictionary every fetcher produces. */
  datatype Article = Article(title: string, content: string, url: string,
                             author: Option<string>, date: Option<string>)

  /** The dictionary `analyze_source_credibility` returns. */
  datatype CredibilityInfo = CredibilityInfo(factors: seq<string>, citationCount: nat, domain: string)
}
