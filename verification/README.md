# Digital Skeptic core, modelled in Dafny

The Digital Skeptic is a command-line news analyser. It takes an article from
a url or from a local text file and writes a Markdown "critical analysis
report" about it. The report generator knows these parts:

- a headline section with a sensationalism score and clickbait indicators;
- six rubric sections (core claims, language and tone, red flags,
  verification questions, key entities, counter-argument) produced by a
  language model, with rule-based fallbacks when the model fails;
- a comparison with related articles;
- a list of source credibility factors.

The repository also has a rule-based headline scorer (`analyze_headline`)
and a related-article search and comparison (`find_related_articles`,
`compare_article_perspectives`). As main.py is written, nothing calls them.
It passes `analyze_article`'s result straight to the report generator. So a
written report never carries the rule-based score. It has a headline or
comparative section only when the model's parsed reply happens to hold
those keys. `Program.Run` models exactly this path.

This project models the deterministic core of that pipeline as pure Dafny
functions over immutable datatypes, and proves properties of it. It covers:

- **Headline scorer** (`Headline`). Ten weighted rules, the cap at 100, and the
  ordered indicator list. The lexicons are an explicit `Lexicons` record.
- **Section recovery** (`TextProcessor`). `extract_section` cuts model output
  on `###`, finds the first chunk that names the label and has a body, and
  then renders it in one of three ways: de-bulleted, de-numbered or joined.
- **Fallbacks and retries** (`ContentAnalyzer`).
  - The empty, parsed and heuristic fallback analyses.
  - The model/attempt loop of `analyze_article`, as a state machine driven by
    an oracle. The oracle gives, per model, the optional exception of the
    client constructor. Per attempt, it gives `Answered(content)` or
    `Raised(message)`.
- **Renderers.**
  - `Html`: the line-based Markdown to HTML converter, including the
    leftmost-shortest bold substitution and the list open/close state.
  - `Report`: the Markdown report.
- **Credibility** (`Credibility`). The fixed factors and the citation count.
  The regular-expression search is an input predicate.
- **Related articles** (`Comparative`). Search-term extraction, the link
  selection loop over abstract parsed link records, and the branches of the
  perspective comparison around the model call.
- **Local files** (`ArticleFetcher`). The title/content split of a local
  article file once its text is known.
- **Driver** (`Program`).
  - The early exit when no article was obtained.
  - The choice of article (fetched, otherwise local).
  - The report's output path, including the safe file-name stem.

Shared pieces:

- `Wrappers` holds `Option` and `Result`.
- `Types` holds the shared records: a field is `Text(string) | Items(seq<string>)`.
  An analysis has six optional fields plus the headline and comparative extras.
- `Strings` models the Python string operations used, over ASCII characters:
  `lower`, `strip`, `split` with and without a separator, `join`, `in`,
  `startswith`/`endswith`, `replace` and `int()`.

Three points where the code behaves differently from what its own naming
suggests; the model follows the code:

- **Report headings versus `extract_section`.** The report writes its rubric
  headings with `## `, while `extract_section` cuts on `###`. Reading a whole
  report back therefore does not recover its sections. What does hold, and is
  proved, is that each rubric section as the report writes it round-trips on
  its own (core claims, red flags and verification questions), provided its
  items are non-empty, already stripped, and free of line breaks and "#".
  - The key-entities and counter-argument headings the report writes ("Key
    Entities to Investigate", "Counter-Argument Perspective") differ from the
    labels the parser looks for ("Key Entities Analysis", "Counter-Argument
    Simulation"), so no round trip is claimed for those.
- **Exhausting every model** ends in `generate_fallback_analysis(article)`,
  not in the empty analysis.
- **Score-only rules.** The news-marker, length and all-caps rules add to the
  score but never produce an indicator.

## Model

| member | source | states |
|---|---|---|
| Headline.PhrasesIn | src/analyzer/headline_analyzer.py:73-75 | the clickbait phrases found are exactly the listed phrases occurring as substrings of the lower-cased title, so there are no more of them than listed |
| Headline.TokensIn | src/analyzer/headline_analyzer.py:76-78 | the emotional words found are exactly the listed words that equal a whitespace-split token of the lower-cased title |
| Headline.PhrasesInAppend | src/analyzer/headline_analyzer.py:73-75 | the phrases are found in lexicon order: the search distributes over concatenating lexicons |
| Headline.PhrasesInSingle | src/analyzer/headline_analyzer.py:73-75 | a single phrase is found exactly when it occurs in the lower-cased title |
| Headline.TokensInAppend | src/analyzer/headline_analyzer.py:76-78 | the emotional words are found in lexicon order: the search distributes over concatenating lexicons |
| Headline.TokensInSingle | src/analyzer/headline_analyzer.py:76-78 | a single word is found exactly when it equals a token |
| Headline.PhrasesInCount | src/analyzer/headline_analyzer.py:73-75 | `clickbait_count` is the number of listed positions whose phrase occurs in the lower-cased title |
| Headline.TokensInCount | src/analyzer/headline_analyzer.py:76-78 | `emotional_count` is the number of listed positions whose word equals a token |
| Headline.ClickbaitPointsCount | src/analyzer/headline_analyzer.py:73-86 | the clickbait rule adds 20 times the number of listed phrases occurring, counting at most three |
| Headline.EmotionalPointsCount | src/analyzer/headline_analyzer.py:76-88 | the emotional rule adds 15 times the number of listed words among the tokens, counting at most three |
| Headline.ClickbaitPoints | src/analyzer/headline_analyzer.py:85-86 | the clickbait rule adds 20 × min(phrases found, 3) points, so at most 60, and adds some iff a listed phrase occurs in the lower-cased title |
| Headline.EmotionalPoints | src/analyzer/headline_analyzer.py:87-88 | the emotional rule adds 15 × min(words found, 3) points, so at most 45, and adds some iff a listed word is a whole token |
| Headline.Weight | src/analyzer/headline_analyzer.py:84-121 | the two counting rules add their capped points; every other rule adds its fixed weight when it fires and nothing otherwise; each rule adds something iff its trigger (substring, token, question, leading digit, superlative, news marker, length over 70, all-caps word, morbid term, "mom" without "moment") holds |
| Headline.SumWeightsZero | src/analyzer/headline_analyzer.py:84-121 | the uncapped total is zero iff none of the summed rules fires |
| Headline.SumWeightsAtLeast | src/analyzer/headline_analyzer.py:84-121 | the uncapped total is at least the weight of every summed rule |
| Headline.Score | src/analyzer/headline_analyzer.py:84-127 | the score is the total of the rule weights when that is at most 100 and 100 otherwise, so it lies in 0..100, is 0 iff no rule fires, and is at least each single rule's weight |
| Headline.ScoreIsCappedSum | src/analyzer/headline_analyzer.py:84-127 | the score is the minimum of 100 and the sum of the ten rule weights in the order `analyze_headline` adds them |
| Headline.FiredAmong | src/analyzer/headline_analyzer.py:138-176 | the rules selected from a list are exactly the listed rules that fire |
| Headline.FiredAmongRanked | src/analyzer/headline_analyzer.py:138-176 | selecting the fired rules keeps the fixed indicator order |
| Headline.ReportedIffFires | src/analyzer/headline_analyzer.py:140-176 | an indicator rule contributes its text exactly when it fires, and nothing otherwise |
| Headline.ReportedAllFired | src/analyzer/headline_analyzer.py:138-176 | the indicator list is the texts of the fired rules, one each, in the order tried |
| Headline.IndicatorsOfFiredRules | src/analyzer/headline_analyzer.py:138-176 | the indicators are the texts of the fired rules among clickbait, emotional, question, number, superlative, mom, morbid |
| Headline.IndicatorRulesAreNotScoreOnly | src/analyzer/headline_analyzer.py:96-108 | a rule has an indicator iff it is not one of the news-marker, length and all-caps rules |
| Headline.IndicatorIffFires | src/analyzer/headline_analyzer.py:96-176 | a rule is reported iff it fires and is not score-only |
| Headline.IndicatorsInOrder | src/analyzer/headline_analyzer.py:138-176 | the reported rules appear in the fixed order clickbait, emotional, question, number, superlative, mom, morbid |
| Headline.AnalyzeHeadlineWith | src/analyzer/headline_analyzer.py:9-215 | an empty title gives the fixed "no headline" text, score 0 and no indicators; otherwise the score and indicators are the rule-based ones, and the text is the no-key message, the model's answer, or the error text |
| Headline.EmotionalNeedsExactToken | src/analyzer/headline_analyzer.py:76-78 | a one-token title is emotional iff that exact lower-cased token is listed |
| Headline.ShockingWithBangIsNotEmotional | src/analyzer/headline_analyzer.py:76-78 | "shocking!" does not trigger the emotional rule, because the token keeps its "!" |
| Headline.IslandAsksAQuestion | src/analyzer/headline_analyzer.py:64-79 | "Island life" counts as a question, because the prefix "is" has no word boundary |
| HeadlineExamples.QuestionAlone | src/analyzer/headline_analyzer.py:84-127 | a title on which only the question rule fires scores 10 |
| HeadlineExamples.ClickbaitStack | src/analyzer/headline_analyzer.py:84-127 | three or more clickbait phrases, one emotional word, a news marker and an all-caps word, with no other rule firing, score 60 + 15 + 5 + 5 = 85 |
| HeadlineExamples.AskingScoresTen | src/analyzer/headline_analyzer.py:64-127 | "What time is it?" scores 10 |
| HeadlineExamples.BreakingScoresEightyFive | src/analyzer/headline_analyzer.py:64-127 | "BREAKING: You Won't Believe This Shocking Secret!" scores 85 |
| TextProcessor.NonBlankLines | src/utils/text_processor.py:9-10 | the kept lines are stripped and non-empty, there are no more of them than input lines, and a text is kept iff it is the non-empty stripped form of some input line |
| TextProcessor.NonBlankLinesAppend | src/utils/text_processor.py:9-10 | the kept lines keep their input order: the filter distributes over concatenation |
| TextProcessor.NonBlankLinesSingle | src/utils/text_processor.py:9-10 | one line is kept, stripped, exactly when it is not blank |
| TextProcessor.QualifyFlags | src/utils/text_processor.py:6-10 | a chunk qualifies iff its lower-case contains the lower-cased label and it has at least two non-blank lines |
| TextProcessor.DeBullet | src/utils/text_processor.py:11-18 | the items are exactly the lines starting with "* ", minus those two characters, stripped; there are no more of them than lines |
| TextProcessor.DeBulletAppend | src/utils/text_processor.py:11-18 | the items keep the order of their lines: `DeBullet` distributes over concatenation |
| TextProcessor.DeBulletSingle | src/utils/text_processor.py:11-18 | one line gives its stripped text after "* " if it starts with "* ", and nothing otherwise |
| TextProcessor.DeNumber | src/utils/text_processor.py:19-23 | a line without "." is kept unchanged; otherwise the text after its first "." is taken, stripped |
| TextProcessor.DeNumberAll | src/utils/text_processor.py:19-23 | one question per body line, each de-numbered |
| TextProcessor.SectionIndex | src/utils/text_processor.py:6-26 | the chosen chunk is the first qualifying `###` chunk, and there is none iff no chunk qualifies |
| TextProcessor.ExtractSection | src/utils/text_processor.py:3-23 | empty text gives an empty list, and the three list labels (compared case-sensitively) always give a list |
| TextProcessor.ExtractSectionMissing | src/utils/text_processor.py:26 | when no chunk qualifies the result is an empty list |
| TextProcessor.ExtractSectionFirst | src/utils/text_processor.py:6-25 | the result is the first qualifying chunk's post-heading lines, de-bulleted, de-numbered or joined with "\n" according to the label |
| ContentAnalyzer.GenerateEmptyAnalysis | src/analyzer/content_analyzer.py:212-224 | all six fields are present, the entities are an empty list, and there are two fixed verification questions |
| ContentAnalyzer.CreateFallbackAnalysis | src/analyzer/content_analyzer.py:140-162 | falsy raw text gives the empty analysis; otherwise each of the six fields is `extract_section` of the raw text under its fixed label, and the list labels give lists |
| ContentAnalyzer.EntitiesIn | src/analyzer/content_analyzer.py:179-190 | the entities are pairwise distinct, and a word is one iff it occurs at a sentence-start position with a capital first letter and length over 1 |
| ContentAnalyzer.EntitiesInOrder | src/analyzer/content_analyzer.py:179-190 | entities are listed in order of first occurrence |
| ContentAnalyzer.Entities | src/analyzer/content_analyzer.py:179-190 | the content's entities are distinct capitalised words longer than one character, and a word is one iff it occurs at a sentence-start position of the content's words with a capital first letter and length over 1 |
| ContentAnalyzer.EntityItems | src/analyzer/content_analyzer.py:199-205 | at most five entities are kept, the first ones, each followed by the fixed "consider researching" suffix |
| ContentAnalyzer.GenerateFallbackAnalysis | src/analyzer/content_analyzer.py:165-209 | all six fields are present; the single claim names the title, the tone text, the single red flag, the three verification questions and the counter-argument text are fixed, and the entity list is built from the content's entities |
| ContentAnalyzer.RunFrom | src/analyzer/content_analyzer.py:81-122 | the loop always concludes (an answer or exhaustion), and its trace starts at the given model and attempt |
| ContentAnalyzer.RunFollowsPolicy | src/analyzer/content_analyzer.py:81-122 | every attempt is in range. A model whose client constructor raises goes straight to the next model, whatever the message. After a failed invoke, the same model is retried exactly when the error mentions "quota" (any case) or "429" and attempts remain; otherwise the next model's first attempt follows. The run ends at the first answer or after the last model |
| ContentAnalyzer.TraceIncreasing | src/analyzer/content_analyzer.py:81-122 | attempts are made in strictly increasing (model, attempt) order, so none is repeated |
| ContentAnalyzer.ExhaustedTriesEveryModel | src/analyzer/content_analyzer.py:78-122 | when every attempt fails, each model gets its turn from its first attempt: the constructor call, then an invoke if the client was built |
| ContentAnalyzer.NextModelStart | src/analyzer/content_analyzer.py:81-122 | an exhausted run from one model continues as the run of the next model |
| ContentAnalyzer.AnalyzeArticle | src/analyzer/content_analyzer.py:71-137 | a missing or empty key is the only failure and carries the fixed message; an answer is parsed, or goes to `create_fallback_analysis` when parsing fails; exhaustion gives `generate_fallback_analysis(article)` |
| ContentAnalyzer.AllModelsFailing | src/analyzer/content_analyzer.py:81-137 | with a key and every attempt raising, the result is the heuristic fallback for the article |
| ContentAnalyzer.FirstAnswerWins | src/analyzer/content_analyzer.py:81-137 | once the first client is built, an answer on the first attempt is what gets parsed |
| ContentAnalyzer.RateLimitRetried | src/analyzer/content_analyzer.py:100-106 | once the first client is built, a rate-limit error on the first invoke is followed by a second attempt on the same model |
| ContentAnalyzer.OtherErrorAbandonsModel | src/analyzer/content_analyzer.py:112-122 | once the first client is built, any other invoke error on the first attempt moves straight to the next model |
| ContentAnalyzer.SetupFailureSkipsModel | src/analyzer/content_analyzer.py:81-122 | a model whose client constructor raises is given up after that one call, whatever the message (a "quota" or "429" text included): the run continues as the next model's run, or is exhausted on the last model, and no later attempt uses that model |
| Html.CloseFromMeaning | src/utils/html_generator.py:12 | the closing "**" of a bold span is the first "**" after the opening one, with no line break before it; none is found only when every later "**" lies past a line break |
| Html.BoldIdentity | src/utils/html_generator.py:12 | text without "**" is unchanged by the bold substitution |
| Html.BoldSpan | src/utils/html_generator.py:12 | a "**x**" on one line becomes `<strong>x</strong>`, and the substitution continues after it |
| Html.NumberedItem | src/utils/html_generator.py:24-33 | a line matches iff optional whitespace, one or more digits, "." and a whitespace character begin it; the item is what follows the marker and its whitespace, and never starts with whitespace |
| Html.NumberedItemOf | src/utils/html_generator.py:24 | every line of the form whitespace, digits, ".", whitespace, item is matched and yields that item |
| Html.BulletItem | src/utils/html_generator.py:58-67 | a line matches iff optional whitespace, "*" and a whitespace character begin it; the item is what follows the "*" and its whitespace, and never starts with whitespace |
| Html.BulletItemOf | src/utils/html_generator.py:58 | every line of the form whitespace, "*", whitespace, item is matched and yields that item |
| Html.Paragraphs | src/utils/html_generator.py:85-92 | plain mode yields no more paragraphs than chunks |
| Html.ParagraphsAppend | src/utils/html_generator.py:85-92 | the paragraphs keep their order: plain mode distributes over concatenation |
| Html.ParagraphsSingle | src/utils/html_generator.py:85-92 | one chunk gives one `<p>` line unless it is blank |
| Html.ConvertMarkdownToHtml | src/utils/html_generator.py:6-92 | empty text gives ""; otherwise the output lines are joined with "\n" |
| Html.ListLoopAlternates | src/utils/html_generator.py:22-82 | the list loop alternates opening and closing tags, never nests, and ends closed |
| Html.HtmlTagsBalanced | src/utils/html_generator.py:6-92 | in every mode the `<ol>` and `<ul>` tags alternate open/close and are balanced at the end |
| Html.ListLoopEntries | src/utils/html_generator.py:22-82 | one `<li>` per item line holding its text, one `<p>` per non-item non-blank line, and one opening tag per maximal run of item lines |
| Html.NumberedListMode | src/utils/html_generator.py:16-48 | a numbered line anywhere selects the ordered list, even when bullet lines are present |
| Html.BulletListMode | src/utils/html_generator.py:51-82 | without numbered lines, a bullet line selects the unordered list |
| Html.ParagraphsOf | src/utils/html_generator.py:85-92 | plain mode keeps exactly the non-blank paragraphs, each wrapped in `<p>` and otherwise unchanged |
| Html.BulletItemDetected | src/utils/html_generator.py:51-58 | every line the bullet-item pattern accepts also selects bullet mode |
| Html.NumberedItemDetected | src/utils/html_generator.py:16-24 | every unindented numbered item also selects numbered mode |
| Html.IndentedNumberNotDetected | src/utils/html_generator.py:16-24 | an indented numbered line is an item but does not select numbered mode |
| Report.GenerateMarkdownReport | src/utils/report_generator.py:9-10 | the report opens with the title line and the source line |
| Report.RubricHeadingsInOrder | src/utils/report_generator.py:50-98 | the six rubric headings always appear, in the fixed order |
| Report.ReportLayout | src/utils/report_generator.py:9-115 | the report is the header and headline section, then each rubric heading immediately followed by its field's rendering (or its placeholder), then the comparative and credibility sections |
| Report.RubricSectionsInReport | src/utils/report_generator.py:50-98 | in the report, each of the six rubric headings is directly followed by its field's rendering |
| Report.BulletFieldLines | src/utils/report_generator.py:50-55 | a list field (core claims, red flags, key entities) renders as one "* item" line per item, a missing key as its placeholder, a string as itself |
| Report.NumberedFieldLines | src/utils/report_generator.py:72-79 | a list of verification questions renders as "i. q" lines numbered from 1, a missing key as its placeholder, a string as itself |
| Report.CounterBodyCases | src/utils/report_generator.py:90-98 | a missing, empty or empty-list counter-argument renders the placeholder; otherwise the string, or the items joined by line breaks |
| Report.HeadlineExtrasNeedHeadline | src/utils/report_generator.py:19-48 | without headline text, the score and indicators do not affect the report |
| Report.ScoreShown | src/utils/report_generator.py:33-41 | with headline text and a score, the score line appears |
| Report.TextScoreRoundTrip | src/utils/report_generator.py:36-40 | a score held as the text of an integer is shown as that integer |
| Report.FractionScoreIsZero | src/utils/report_generator.py:36-40 | the score text "7.5", which `int()` rejects, is shown as 0 |
| Report.RelatedNeedsComparative | src/utils/report_generator.py:101-109 | without comparative text, the related articles do not affect the report |
| Report.EmptyAuthorAndDateOmitted | src/utils/report_generator.py:12-16 | empty author and date print nothing, just as missing ones |
| Report.CredibilityLast | src/utils/report_generator.py:111-115 | with credibility information, the report ends with its factors as bullets |
| Report.BulletLines | src/utils/report_generator.py:51-53 | one "* item" line per item |
| Report.NumberedLines | src/utils/report_generator.py:73-75 | one "i. q" line per question, numbered consecutively |
| Report.ClaimsRoundTrip | src/utils/report_generator.py:50-53 | reading the core-claims section back with `extract_section` recovers the claims |
| Report.RedFlagsRoundTrip | src/utils/report_generator.py:65-68 | reading the red-flags section back recovers the flags |
| Report.QuestionsRoundTrip | src/utils/report_generator.py:72-75 | reading the verification-questions section back recovers the questions |
| Credibility.CountFrom | src/analyzer/credibility_scorer.py:28-40 | the count is bounded by the number of patterns, and is zero iff no pattern matches |
| Credibility.CountIsMatched | src/analyzer/credibility_scorer.py:28-40 | the count is the number of patterns with a match |
| Credibility.AnalyzeSourceCredibility | src/analyzer/credibility_scorer.py:5-73 | the domain is passed through and the count lies in 0..6 and is 0 iff nothing matches; the factors are author/no-author by presence, date/no-date by presence, multiple/some/no citations for counts over 3, 1..3 and 0, and the "very brief" factor iff the content is under 1000 characters, so there are 3 or 4 |
| Credibility.OnlyPresenceLengthAndMatchesCount | src/analyzer/credibility_scorer.py:19-73 | two articles that agree on author/date presence, content length and pattern matches get the same result, so the link indicators play no part |
| Credibility.CitationCountIsMatched | src/analyzer/credibility_scorer.py:28-40 | `citation_count` is the number of the six patterns with a match |
| Comparative.Depunctuate | src/analyzer/comparative_analyzer.py:15 | every character that is neither a word character nor whitespace becomes a space, and the rest are kept |
| Comparative.Keywords | src/analyzer/comparative_analyzer.py:39 | the keywords are exactly the words that are not stopwords and are longer than three characters |
| Comparative.KeywordsAppend | src/analyzer/comparative_analyzer.py:39 | keyword filtering keeps order: it distributes over concatenation |
| Comparative.Take | src/analyzer/comparative_analyzer.py:42 | the first n words, or all when there are fewer |
| Comparative.SearchTermsRoundTrip | src/analyzer/comparative_analyzer.py:10-42 | splitting the search terms gives back the first four keywords of the title, each a lower-case keyword of word characters |
| Comparative.EmptyTitleNoTerms | src/analyzer/comparative_analyzer.py:12-42 | an empty title gives empty search terms |
| Comparative.CurrentDomain | src/analyzer/comparative_analyzer.py:64-104 | an empty url gives the empty domain; a url with fewer than two "/" has none (the lookup fails); a domain never contains "/" |
| Comparative.CurrentDomainOfUrl | src/analyzer/comparative_analyzer.py:64-66 | the domain of "scheme://host/path" (or "scheme://host") is the host |
| Comparative.SelectLinks | src/analyzer/comparative_analyzer.py:68-98 | at most `max_articles` results, none with a title already seen, pairwise distinct titles, urls under the articles base, and no source containing the current domain |
| Comparative.SelectLinksAppend | src/analyzer/comparative_analyzer.py:68-98 | the selection on `a + b` is the selection on `a` followed by the selection on `b` with the places and titles left, so results keep page order and at the bound they are the first eligible links |
| Comparative.SelectTaken | src/analyzer/comparative_analyzer.py:68-98 | a first link that has a title element, an unseen title and an outside source becomes the first result when there is room |
| Comparative.SelectSkipped | src/analyzer/comparative_analyzer.py:68-98 | a first link without a title element, with a seen title, or from the article's own domain leaves the result unchanged |
| Comparative.SelectOne | src/analyzer/comparative_analyzer.py:68-98 | one link gives its article exactly when there is room and it is kept |
| Comparative.SelectedFromLinks | src/analyzer/comparative_analyzer.py:72-98 | every result comes from one link with a heading: its stripped title, its rewritten url and its source (or "Unknown") |
| Comparative.SelectionComplete | src/analyzer/comparative_analyzer.py:68-98 | when fewer than `max_articles` were chosen, every eligible link's title was chosen or already seen |
| Comparative.EmptyDomainSelectsNothing | src/analyzer/comparative_analyzer.py:64-93 | the empty domain excludes every link |
| Comparative.FindRelatedArticles | src/analyzer/comparative_analyzer.py:45-104 | at most `max_articles` results with distinct titles, and none when the page could not be had or the url has no domain part |
| Comparative.NoUrlNoRelated | src/analyzer/comparative_analyzer.py:64-93 | an article without a url gets no related articles |
| Comparative.ComparePerspectives | src/analyzer/comparative_analyzer.py:107-179 | no related articles gives the fixed message and an empty list; the call raises iff content was fetched, a key is set and the client constructor raises, with the constructor's message; otherwise the list is passed through, with the no-content message, the no-key message, the model's answer or the error text in that order of precedence |
| ArticleFetcher.Basename | src/utils/article_fetcher.py:78 | the base name holds no "/", ends the path, and is preceded by "/" when shorter than it |
| ArticleFetcher.ReadArticleFromFile | src/utils/article_fetcher.py:71-93 | no text gives no article; the url is "local://" plus the path and author and date are absent; a blank first line makes the base name the title and keeps the whole text, otherwise the stripped first line is the title |
| ArticleFetcher.FirstLineSplit | src/utils/article_fetcher.py:79-82 | a text is its first line, then its other lines after a line break |
| ArticleFetcher.TitleLineRemoved | src/utils/article_fetcher.py:79-82 | with a title line, the content is the text after the first line break, and empty when there is none |
| ArticleFetcher.ContentIsSuffix | src/utils/article_fetcher.py:75-82 | the content is always a suffix of the file's text |
| Program.SafeTitle | main.py:94-96 | the stem has length min(50, title length), every character alphanumeric or "_", alphanumeric characters kept and the others replaced by "_" |
| Program.SafeTitleIdempotent | main.py:94-96 | deriving a stem from a stem changes nothing |
| Program.SafeTitleOfSafeName | main.py:94-96 | a short alphanumeric title is its own stem |
| Program.OutputPath | main.py:89-91 | a non-empty `--output` is used unchanged |
| Program.DefaultPathInReports | main.py:92-97 | otherwise the report goes directly into "analysis_reports", named after the stem with ".md" |
| Program.Run | main.py:37-82 | the run exits without an article iff both the fetch and the local read gave nothing, and stops only for a missing key |
| Program.WrittenReportAbout | main.py:37-100 | with an article and its analysis, the run writes that article's report to the output path; the report opens with the title and ends with the credibility factors |

## Left out

- Language-model calls (`ChatGoogleGenerativeAI.invoke`, prompt templates,
  `StructuredOutputParser.parse`). They are foreign services. Each outcome is
  an input:
  - `Outcome` for one call;
  - an oracle for the retry loop, holding each model's constructor
    exception and each attempt's outcome;
  - a partial `parse` function;
  - the optional exception message of the comparison client's constructor.
- The backoff sleeps and their random jitter in the retry loop: time and
  floating point. Only the retry decision is modelled.
- HTTP fetching and HTML scraping: `fetch_article_content`, the request and
  BeautifulSoup part of `find_related_articles`, and content fetching in
  `compare_article_perspectives`.
  - The parsed page is an optional list of `Link` records (href, optional
    heading text, optional source text).
  - Whether a related article's content could be fetched is an input
    predicate.
  - `urlparse(url).netloc` is an input domain.
  - The search url and its quoting are not modelled.
- Comparative.ComparePerspectives: the prompt built for the model (including
  the 1000-character excerpts) is not modelled, because only the model reads
  it.
- File and terminal I/O: `save_report`, `save_html_report`, opening and
  reading the local file, argparse, dotenv, the `input()` prompt and the
  template file main.py creates. The file's text is an input.
  - Universal-newline translation on reading is not modelled.
- `generate_html_report`: it is an HTML/JavaScript template around
  `convert_markdown_to_html`.
- Verbose and debug printing.
- Credibility.AnalyzeSourceCredibility: `re.search` with `re.IGNORECASE` is
  an input predicate, so the patterns' regular-expression meaning is not
  modelled. The link indicators `analyze_source_credibility` computes are
  never used, so they are left out.
- Unicode. `isalnum`, `isupper`, `lower`, `strip`, `split()` and `\w` are
  modelled over ASCII. Whitespace includes the ASCII separators 0x1C-0x1F,
  which Python also treats as whitespace.
- Report.GenerateMarkdownReport: its contract states only the opening lines.
  Lemmas about it state the rest:
  - `ReportLayout` and `RubricSectionsInReport` give the order of the parts
    and what follows each rubric heading.
  - `BulletFieldLines`, `NumberedFieldLines` and `CounterBodyCases` give how
    each field renders.
  - Other lemmas cover the conditional sections and the credibility tail.
  The headline section's layout is stated only in part: the score line and
  which values leave it unchanged. The section round trips are about one
  rubric section on its own, not about reading the whole report back.
- Report.ClaimsRoundTrip: proved for a section whose items are non-empty,
  stripped, and free of line breaks and "#". Items outside those conditions
  are not covered.
- Report.RedFlagsRoundTrip: proved under the same conditions on the items.
  Padded, empty or multi-line flags are not covered.
- Report.QuestionsRoundTrip: proved under the same conditions on the items.
  Padded, empty or multi-line questions are not covered.
- The Python code reads analysis values through `dict.get` on untyped data. The
  model types each rubric value as a missing key, a string or a list of
  strings. The score is modelled as an integer, a string or null.
  - Float and bool scores are not modelled. `output_parser.parse` keeps
    whatever the model's JSON holds, so a score like 7.5 reaches the report.
    It prints through Python's float repr ("7.5/100"), and a bool prints as
    "True/100"; neither form is modelled.
- Program.Run: the `credibility_info` dictionary is always truthy, so the
  credibility section is always written. `analyze_source_credibility`
  receives the command-line url, whose domain is an input.
