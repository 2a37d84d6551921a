/** The rule-based part of `analyze_headline`: ten weighted rules over the
    title, a score capped at 100 and an ordered list of indicators.

    The rules are stated over a `Lexicons` value; `SourceLexicons` holds the
    word lists of `headline_analyzer.py` and is what `AnalyzeHeadline` uses. */
module Headline {
  import opened Wrappers
  import opened Strings
  import opened Types

  // ---------------------------------------------------------------------
  // Lexicons
  // ---------------------------------------------------------------------

  /** The word lists the rules consult. `questionWords` are the
      alternatives of `^(who|what|...)`; `newsMarkers` are the words
      besides "news" that mark a news-source headline. */
  datatype Lexicons = Lexicons(
    clickbait: seq<string>,
    emotional: seq<string>,
    questionWords: seq<string>,
    superlatives: seq<string>,
    newsMarkers: seq<string>,
    morbid: seq<string>)

  const ClickbaitPhrases: seq<string> :=
    [ "you won't believe", "shocking", "mind blowing", "amazing", "jaw-dropping",
      "unbelievable", "incredible", "insane", "stunning", "never seen before",
      "secret", "hack", "trick", "they don't want you to know", "this one trick",
      "miracle", "breakthrough", "life changing", "game changing", "must see",
      "warning", "attention" ]

  const EmotionalWords: seq<string> :=
    [ "shocking", "explosive", "incredible", "devastating", "terrifying",
      "catastrophic", "horrifying", "amazing", "unbelievable", "extraordinary",
      "outrageous", "sensational", "scandalous", "bombshell", "staggering",
      "dramatic", "alarming", "jaw-dropping" ]

  const QuestionWords: seq<string> :=
    [ "who", "what", "when", "where", "why", "how", "is", "are", "can", "will",
      "should", "would", "could", "do", "does" ]

  const Superlatives: seq<string> :=
    [ "best", "worst", "most", "biggest", "greatest", "easiest", "deadliest",
      "highest", "lowest" ]

  const NewsMarkers: seq<string> := [ "breaking", "report", "exclusive" ]

  const MorbidTerms: seq<string> := [ "serial killer", "murder", "kill", "dead", "death" ]

  const SourceLexicons: Lexicons :=
    Lexicons(ClickbaitPhrases, EmotionalWords, QuestionWords, Superlatives, NewsMarkers, MorbidTerms)

  // ---------------------------------------------------------------------
  // Matches
  // ---------------------------------------------------------------------

  /** The lexicon entries that occur in `s`, in lexicon order. */
  function PhrasesIn(lexicon: seq<string>, s: string): (r: seq<string>)
    ensures |r| <= |lexicon|
    ensures forall p :: p in r <==> p in lexicon && Contains(s, p)
    decreases |lexicon|
  {
    if lexicon == [] then []
    else
      var rest := PhrasesIn(lexicon[1..], s);
      assert forall p :: p in lexicon <==> p == lexicon[0] || p in lexicon[1..];
      (if Contains(s, lexicon[0]) then [lexicon[0]] else []) + rest
  }

  /** The lexicon entries that are among `tokens`, in lexicon order. */
  function TokensIn(lexicon: seq<string>, tokens: seq<string>): (r: seq<string>)
    ensures |r| <= |lexicon|
    ensures forall p :: p in r <==> p in lexicon && p in tokens
    decreases |lexicon|
  {
    if lexicon == [] then []
    else
      var rest := TokensIn(lexicon[1..], tokens);
      assert forall p :: p in lexicon <==> p == lexicon[0] || p in lexicon[1..];
      (if lexicon[0] in tokens then [lexicon[0]] else []) + rest
  }

  /** Finding entries distributes over concatenation of lexicons; with
      `PhrasesInSingle` this says that `PhrasesIn` keeps each occurring
      entry once per listing, in lexicon order. */
  lemma {:induction false} PhrasesInAppend(a: seq<string>, b: seq<string>, s: string)
    ensures PhrasesIn(a + b, s) == PhrasesIn(a, s) + PhrasesIn(b, s)
    decreases |a|
  {
    if a == [] {
      assert a + b == b;
    } else {
      var c := a + b;
      assert c[0] == a[0];
      assert c[1..] == a[1..] + b;
      PhrasesInAppend(a[1..], b, s);
      var h := if Contains(s, a[0]) then [a[0]] else [];
      assert PhrasesIn(c, s) == h + PhrasesIn(a[1..] + b, s);
      assert PhrasesIn(a, s) == h + PhrasesIn(a[1..], s);
    }
  }

  /** A single entry is kept exactly when it occurs. */
  lemma PhrasesInSingle(p: string, s: string)
    ensures PhrasesIn([p], s) == if Contains(s, p) then [p] else []
  {
    assert [p][1..] == [];
  }

  /** The same for the entries found among the tokens, with `TokensInSingle`. */
  lemma {:induction false} TokensInAppend(a: seq<string>, b: seq<string>, tokens: seq<string>)
    ensures TokensIn(a + b, tokens) == TokensIn(a, tokens) + TokensIn(b, tokens)
    decreases |a|
  {
    if a == [] {
      assert a + b == b;
    } else {
      var c := a + b;
      assert c[0] == a[0];
      assert c[1..] == a[1..] + b;
      TokensInAppend(a[1..], b, tokens);
      var h := if a[0] in tokens then [a[0]] else [];
      assert TokensIn(c, tokens) == h + TokensIn(a[1..] + b, tokens);
      assert TokensIn(a, tokens) == h + TokensIn(a[1..], tokens);
    }
  }

  /** A single entry is kept exactly when it is one of the tokens. */
  lemma TokensInSingle(p: string, tokens: seq<string>)
    ensures TokensIn([p], tokens) == if p in tokens then [p] else []
  {
    assert [p][1..] == [];
  }

  /** The positions, from `i` on, of the lexicon entries that occur in `s`. */
  ghost function PhraseHits(lexicon: seq<string>, s: string, i: nat): set<nat> {
    set k: nat | i <= k < |lexicon| && Contains(s, lexicon[k])
  }

  /** The positions, from `i` on, of the lexicon entries among `tokens`. */
  ghost function TokenHits(lexicon: seq<string>, tokens: seq<string>, i: nat): set<nat> {
    set k: nat | i <= k < |lexicon| && lexicon[k] in tokens
  }

  /** `PhrasesIn` finds one entry per listed position that occurs. */
  lemma {:induction false} PhrasesInCount(lexicon: seq<string>, s: string, i: nat)
    requires i <= |lexicon|
    ensures |PhrasesIn(lexicon[i..], s)| == |PhraseHits(lexicon, s, i)|
    decreases |lexicon| - i
  {
    if i == |lexicon| {
      assert PhraseHits(lexicon, s, i) == {};
    } else {
      PhrasesInCount(lexicon, s, i + 1);
      assert lexicon[i..][1..] == lexicon[i + 1..];
      var here: set<nat> := if Contains(s, lexicon[i]) then {i} else {};
      assert PhraseHits(lexicon, s, i) == here + PhraseHits(lexicon, s, i + 1);
      assert i !in PhraseHits(lexicon, s, i + 1);
    }
  }

  /** `TokensIn` finds one entry per listed position among the tokens. */
  lemma {:induction false} TokensInCount(lexicon: seq<string>, tokens: seq<string>, i: nat)
    requires i <= |lexicon|
    ensures |TokensIn(lexicon[i..], tokens)| == |TokenHits(lexicon, tokens, i)|
    decreases |lexicon| - i
  {
    if i == |lexicon| {
      assert TokenHits(lexicon, tokens, i) == {};
    } else {
      TokensInCount(lexicon, tokens, i + 1);
      assert lexicon[i..][1..] == lexicon[i + 1..];
      var here: set<nat> := if lexicon[i] in tokens then {i} else {};
      assert TokenHits(lexicon, tokens, i) == here + TokenHits(lexicon, tokens, i + 1);
      assert i !in TokenHits(lexicon, tokens, i + 1);
    }
  }

  /** Some entry of the lexicon occurs in `s`. */
  predicate AnyIn(lexicon: seq<string>, s: string) {
    exists p :: p in lexicon && Contains(s, p)
  }

  /** Some entry of the lexicon is one of the tokens. */
  predicate AnyToken(lexicon: seq<string>, tokens: seq<string>) {
    exists w :: w in lexicon && w in tokens
  }

  lemma PhrasesInNonEmpty(lexicon: seq<string>, s: string)
    ensures |PhrasesIn(lexicon, s)| > 0 <==> AnyIn(lexicon, s)
  {
    var r := PhrasesIn(lexicon, s);
    if |r| > 0 {
      assert r[0] in r;
    }
  }

  lemma TokensInNonEmpty(lexicon: seq<string>, tokens: seq<string>)
    ensures |TokensIn(lexicon, tokens)| > 0 <==> AnyToken(lexicon, tokens)
  {
    var r := TokensIn(lexicon, tokens);
    if |r| > 0 {
      assert r[0] in r;
    }
  }

  /** `re.search(r"\?$|^(who|...|does)", lower)`: a question mark at the end
      (or just before a final newline), or an interrogative prefix with no
      word boundary after it. */
  predicate AsksQuestion(questionWords: seq<string>, lower: string) {
    || EndsWith(lower, "?")
    || EndsWith(lower, "?\n")
    || exists w :: w in questionWords && StartsWith(lower, w)
  }

  /** `word.isupper()`: a cased character and no lower-case one. */
  predicate IsUpperWord(w: string) {
    (exists i :: 0 <= i < |w| && IsUpper(w[i])) && forall i :: 0 <= i < |w| ==> !IsLower(w[i])
  }

  /** Phrases of the clickbait list found in the lower-cased title. */
  function DetectedPhrases(lex: Lexicons, title: string): seq<string> {
    PhrasesIn(lex.clickbait, Lower(title))
  }

  /** Emotional words among the tokens of the lower-cased title. */
  function DetectedWords(lex: Lexicons, title: string): seq<string> {
    TokensIn(lex.emotional, Words(Lower(title)))
  }

  // ---------------------------------------------------------------------
  // Rules and score
  // ---------------------------------------------------------------------

  /** The ten rules, in the order the score adds them up. */
  datatype Rule = Clickbait | Emotional | Question | Number | Superlative
                | NewsMarker | Long | AllCaps | Morbid | Mom

  const AllRules: seq<Rule> :=
    [Clickbait, Emotional, Question, Number, Superlative, NewsMarker, Long, AllCaps, Morbid, Mom]

  function Min(a: nat, b: nat): nat { if a < b then a else b }

  /** 20 per clickbait phrase found in the lower-cased title, counting at
      most three phrases. */
  function ClickbaitPoints(lex: Lexicons, title: string): (w: nat)
    ensures w <= 60
    ensures w > 0 <==> AnyIn(lex.clickbait, Lower(title))
    ensures w == 20 * Min(|DetectedPhrases(lex, title)|, 3)
  {
    var k := |DetectedPhrases(lex, title)|;
    PhrasesInNonEmpty(lex.clickbait, Lower(title));
    if k > 0 then 20 * Min(k, 3) else 0
  }

  /** 15 per emotional word equal to a whitespace token of the lower-cased
      title, counting at most three words. */
  function EmotionalPoints(lex: Lexicons, title: string): (w: nat)
    ensures w <= 45
    ensures w > 0 <==> AnyToken(lex.emotional, Words(Lower(title)))
    ensures w == 15 * Min(|DetectedWords(lex, title)|, 3)
  {
    var k := |DetectedWords(lex, title)|;
    TokensInNonEmpty(lex.emotional, Words(Lower(title)));
    if k > 0 then 15 * Min(k, 3) else 0
  }

  /** The clickbait points: 20 for each listed phrase (counted once per
      position in the list) occurring in the lower-cased title, at most
      three of them. */
  lemma ClickbaitPointsCount(lex: Lexicons, title: string)
    ensures ClickbaitPoints(lex, title) == 20 * Min(|PhraseHits(lex.clickbait, Lower(title), 0)|, 3)
  {
    PhrasesInCount(lex.clickbait, Lower(title), 0);
    assert lex.clickbait[0..] == lex.clickbait;
  }

  /** The emotional points: 15 for each listed word (counted once per
      position in the list) equal to a token of the lower-cased title, at
      most three of them. */
  lemma EmotionalPointsCount(lex: Lexicons, title: string)
    ensures EmotionalPoints(lex, title) == 15 * Min(|TokenHits(lex.emotional, Words(Lower(title)), 0)|, 3)
  {
    TokensInCount(lex.emotional, Words(Lower(title)), 0);
    assert lex.emotional[0..] == lex.emotional;
  }

  /** Whether a rule is triggered by the title, stated without the counts. */
  predicate Fires(lex: Lexicons, r: Rule, title: string) {
    var lower := Lower(title);
    match r
    case Clickbait => AnyIn(lex.clickbait, lower)
    case Emotional => AnyToken(lex.emotional, Words(lower))
    case Question => AsksQuestion(lex.questionWords, lower)
    case Number => title != [] && IsDigit(title[0])
    case Superlative => AnyIn(lex.superlatives, lower)
    case NewsMarker => Contains(lower, "news") || AnyIn(lex.newsMarkers, lower)
    case Long => |title| > 70
    case AllCaps => exists w :: w in Words(title) && IsUpperWord(w) && |w| > 2
    case Morbid => AnyIn(lex.morbid, lower)
    case Mom => Contains(lower, "mom") && !Contains(lower, "moment")
  }

  /** The most a rule can add. */
  function MaxWeight(r: Rule): (m: nat)
    ensures m <= 60
  {
    match r
    case Clickbait => 60
    case Emotional => 45
    case Question => 10
    case Number => 10
    case Superlative => 15
    case NewsMarker => 5
    case Long => 5
    case AllCaps => 5
    case Morbid => 25
    case Mom => 15
  }

  /** What rule `r` adds to the score of `title`: the two counting rules
      their points, every other rule its full weight when it fires. */
  function Weight(lex: Lexicons, r: Rule, title: string): (w: nat)
    ensures w <= MaxWeight(r)
    ensures w > 0 <==> Fires(lex, r, title)
    ensures r.Clickbait? ==> w == 20 * Min(|DetectedPhrases(lex, title)|, 3)
    ensures r.Emotional? ==> w == 15 * Min(|DetectedWords(lex, title)|, 3)
    ensures !r.Clickbait? && !r.Emotional? ==> w == if Fires(lex, r, title) then MaxWeight(r) else 0
  {
    match r
    case Clickbait => ClickbaitPoints(lex, title)
    case Emotional => EmotionalPoints(lex, title)
    case _ => if Fires(lex, r, title) then MaxWeight(r) else 0
  }

  /** The sum of the weights of `rules`. */
  function SumWeights(lex: Lexicons, rules: seq<Rule>, title: string): nat
    decreases |rules|
  {
    if rules == [] then 0 else Weight(lex, rules[0], title) + SumWeights(lex, rules[1..], title)
  }

  lemma {:induction false} SumWeightsZero(lex: Lexicons, rules: seq<Rule>, title: string)
    ensures SumWeights(lex, rules, title) == 0 <==> forall r :: r in rules ==> !Fires(lex, r, title)
    decreases |rules|
  {
    if rules != [] {
      SumWeightsZero(lex, rules[1..], title);
      assert forall r :: r in rules <==> r == rules[0] || r in rules[1..];
    }
  }

  lemma {:induction false} SumWeightsAtLeast(lex: Lexicons, rules: seq<Rule>, title: string, r: Rule)
    requires r in rules
    ensures SumWeights(lex, rules, title) >= Weight(lex, r, title)
    decreases |rules|
  {
    if rules[0] != r {
      SumWeightsAtLeast(lex, rules[1..], title, r);
    }
  }

  lemma EveryRuleCounted(r: Rule)
    ensures r in AllRules
  {
  }

  /** `min(base_score, 100)`: zero exactly when no rule fires, and never
      below what any single rule adds. */
  function Score(lex: Lexicons, title: string): (s: nat)
    ensures SumWeights(lex, AllRules, title) <= 100 ==> s == SumWeights(lex, AllRules, title)
    ensures SumWeights(lex, AllRules, title) > 100 ==> s == 100
    ensures s <= 100
    ensures s == 0 <==> forall r :: !Fires(lex, r, title)
    ensures forall r :: s >= Weight(lex, r, title)
  {
    var total := SumWeights(lex, AllRules, title);
    SumWeightsZero(lex, AllRules, title);
    forall r ensures r in AllRules && total >= Weight(lex, r, title) {
      EveryRuleCounted(r);
      SumWeightsAtLeast(lex, AllRules, title, r);
    }
    Min(total, 100)
  }

  /** The score is the ten rule weights added in the order of
      `analyze_headline`, capped at 100. */
  lemma ScoreIsCappedSum(lex: Lexicons, title: string)
    ensures Score(lex, title) == Min(Weight(lex, Clickbait, title) + Weight(lex, Emotional, title)
                                     + Weight(lex, Question, title) + Weight(lex, Number, title)
                                     + Weight(lex, Superlative, title) + Weight(lex, NewsMarker, title)
                                     + Weight(lex, Long, title) + Weight(lex, AllCaps, title)
                                     + Weight(lex, Morbid, title) + Weight(lex, Mom, title), 100)
  {
    var rs := AllRules;
    assert rs[1..][1..][1..][1..][1..][1..][1..][1..][1..][1..] == [];
  }

  // ---------------------------------------------------------------------
  // Indicators
  // ---------------------------------------------------------------------

  /** The rules that report an indicator, in the order they are reported. */
  const IndicatorRules: seq<Rule> := [Clickbait, Emotional, Question, Number, Superlative, Mom, Morbid]

  /** The news-marker, length and all-caps rules add to the score only. */
  predicate ScoreOnly(r: Rule) {
    r.NewsMarker? || r.Long? || r.AllCaps?
  }

  const ClickbaitLead: string := "Uses clickbait phrases: "
  const EmotionalLead: string := "Uses emotional language: "
  const QuestionText: string := "Headline poses a question (often used to create curiosity)"
  const NumberText: string := "Headline starts with a number (common clickbait format)"
  const SuperlativeText: string := "Uses superlatives like 'best', 'worst', 'most'"
  const MomText: string := "Uses 'mom' in headline (common clickbait approach to create relatability)"
  const MorbidText: string :=
    "Uses morbid/shocking terminology (e.g., 'serial killer', 'murder') to grab attention"

  /** The indicator text of a rule; the score-only rules have none. */
  function IndicatorText(lex: Lexicons, r: Rule, title: string): string {
    match r
    case Clickbait => ClickbaitLead + Join(DetectedPhrases(lex, title), ", ")
    case Emotional => EmotionalLead + Join(DetectedWords(lex, title), ", ")
    case Question => QuestionText
    case Number => NumberText
    case Superlative => SuperlativeText
    case Mom => MomText
    case Morbid => MorbidText
    case _ => ""
  }

  /** The indicator for `r` if its condition, as `analyze_headline` tests it, holds. */
  function Reported(lex: Lexicons, r: Rule, title: string): seq<string> {
    var lower := Lower(title);
    var holds := match r
      case Clickbait => |DetectedPhrases(lex, title)| > 0
      case Emotional => |DetectedWords(lex, title)| > 0
      case Question => AsksQuestion(lex.questionWords, lower)
      case Number => title != [] && IsDigit(title[0])
      case Superlative => AnyIn(lex.superlatives, lower)
      case Mom => Contains(lower, "mom") && !Contains(lower, "moment")
      case Morbid => AnyIn(lex.morbid, lower)
      case _ => false;
    if holds then [IndicatorText(lex, r, title)] else []
  }

  /** The indicators of `rules`, each appended when its condition holds. */
  function ReportedAll(lex: Lexicons, rules: seq<Rule>, title: string): seq<string>
    decreases |rules|
  {
    if rules == [] then [] else Reported(lex, rules[0], title) + ReportedAll(lex, rules[1..], title)
  }

  /** The indicators collected by `analyze_headline`: one conditional append
      per indicator rule, in the order of `IndicatorRules`. */
  function Indicators(lex: Lexicons, title: string): seq<string> {
    ReportedAll(lex, IndicatorRules, title)
  }

  /** The rules of `rules` that fire, in the same order. */
  function FiredAmong(lex: Lexicons, rules: seq<Rule>, title: string): (fired: seq<Rule>)
    ensures |fired| <= |rules|
    ensures forall r :: r in fired <==> r in rules && Fires(lex, r, title)
    decreases |rules|
  {
    if rules == [] then []
    else
      var rest := FiredAmong(lex, rules[1..], title);
      assert forall r :: r in rules <==> r == rules[0] || r in rules[1..];
      (if Fires(lex, rules[0], title) then [rules[0]] else []) + rest
  }

  /** The position of a rule in the indicator order. */
  function Rank(r: Rule): nat {
    match r
    case Clickbait => 0
    case Emotional => 1
    case Question => 2
    case Number => 3
    case Superlative => 4
    case Mom => 5
    case Morbid => 6
    case NewsMarker => 7
    case Long => 8
    case AllCaps => 9
  }

  predicate Ranked(rules: seq<Rule>) {
    forall i, j :: 0 <= i < j < |rules| ==> Rank(rules[i]) < Rank(rules[j])
  }

  /** Filtering keeps the order. */
  lemma {:induction false} FiredAmongRanked(lex: Lexicons, rules: seq<Rule>, title: string)
    requires Ranked(rules)
    ensures Ranked(FiredAmong(lex, rules, title))
    decreases |rules|
  {
    if rules != [] {
      FiredAmongRanked(lex, rules[1..], title);
      var rest := FiredAmong(lex, rules[1..], title);
      forall r | r in rest ensures Rank(rules[0]) < Rank(r) {
        var j :| 0 <= j < |rules[1..]| && rules[1..][j] == r;
        assert rules[j + 1] == r;
      }
    }
  }

  /** The indicator texts of a list of rules. */
  function Texts(lex: Lexicons, rules: seq<Rule>, title: string): (r: seq<string>)
    ensures |r| == |rules|
    ensures forall k :: 0 <= k < |rules| ==> r[k] == IndicatorText(lex, rules[k], title)
    decreases |rules|
  {
    if rules == [] then [] else [IndicatorText(lex, rules[0], title)] + Texts(lex, rules[1..], title)
  }

  /** For an indicator rule, the test `analyze_headline` makes agrees with `Fires`. */
  lemma ReportedIffFires(lex: Lexicons, r: Rule, title: string)
    requires !ScoreOnly(r)
    ensures Reported(lex, r, title) == if Fires(lex, r, title) then [IndicatorText(lex, r, title)] else []
  {
    PhrasesInNonEmpty(lex.clickbait, Lower(title));
    TokensInNonEmpty(lex.emotional, Words(Lower(title)));
  }

  /** Appending the indicators rule by rule gives the texts of the rules that fire. */
  lemma {:induction false} ReportedAllFired(lex: Lexicons, rules: seq<Rule>, title: string)
    requires forall k :: 0 <= k < |rules| ==> !ScoreOnly(rules[k])
    ensures ReportedAll(lex, rules, title) == Texts(lex, FiredAmong(lex, rules, title), title)
    decreases |rules|
  {
    if rules != [] {
      ReportedAllFired(lex, rules[1..], title);
      ReportedIffFires(lex, rules[0], title);
      var rest := FiredAmong(lex, rules[1..], title);
      if Fires(lex, rules[0], title) {
        assert ([rules[0]] + rest)[1..] == rest;
      }
    }
  }

  /** The indicators are exactly the texts of the indicator rules that
      fire, in the order clickbait, emotional, question, number,
      superlative, mom, morbid. */
  lemma IndicatorsOfFiredRules(lex: Lexicons, title: string)
    ensures Indicators(lex, title) == Texts(lex, FiredAmong(lex, IndicatorRules, title), title)
  {
    IndicatorRulesReport();
    ReportedAllFired(lex, IndicatorRules, title);
  }

  lemma IndicatorRulesReport()
    ensures forall k :: 0 <= k < |IndicatorRules| ==> !ScoreOnly(IndicatorRules[k])
  {
  }

  /** The position of each indicator rule in `IndicatorRules` is its rank. */
  lemma IndicatorRulesRanked()
    ensures Ranked(IndicatorRules)
  {
    forall i | 0 <= i < |IndicatorRules| ensures Rank(IndicatorRules[i]) == i {
    }
  }

  lemma IndicatorRulesAreNotScoreOnly(r: Rule)
    ensures r in IndicatorRules <==> !ScoreOnly(r)
  {
    match r
    case Clickbait => assert IndicatorRules[0] == r;
    case Emotional => assert IndicatorRules[1] == r;
    case Question => assert IndicatorRules[2] == r;
    case Number => assert IndicatorRules[3] == r;
    case Superlative => assert IndicatorRules[4] == r;
    case Mom => assert IndicatorRules[5] == r;
    case Morbid => assert IndicatorRules[6] == r;
    case _ =>
  }

  /** An indicator rule reports iff it fires; the score-only rules never report. */
  lemma IndicatorIffFires(lex: Lexicons, title: string, r: Rule)
    ensures r in FiredAmong(lex, IndicatorRules, title) <==> !ScoreOnly(r) && Fires(lex, r, title)
  {
    IndicatorRulesAreNotScoreOnly(r);
  }

  /** Indicators come in rule order and never repeat a rule. */
  lemma IndicatorsInOrder(lex: Lexicons, title: string)
    ensures Ranked(FiredAmong(lex, IndicatorRules, title))
  {
    IndicatorRulesRanked();
    FiredAmongRanked(lex, IndicatorRules, title);
  }

  // ---------------------------------------------------------------------
  // analyze_headline
  // ---------------------------------------------------------------------

  /** The dictionary `analyze_headline` returns. */
  datatype HeadlineReport = HeadlineReport(analysis: string, score: nat, indicators: seq<string>)

  const NoHeadline: string := "No headline available for analysis"
  const NoKeyAnalysis: string := "LLM analysis unavailable: API key not configured."
  const AnalysisErrorLead: string := "LLM analysis error: "

  /** `analyze_headline(article_data)` with the API key and the outcome of
      the model call as parameters, over the given word lists. */
  function AnalyzeHeadlineWith(lex: Lexicons, title: string, apiKey: Option<string>, reply: Outcome): (h: HeadlineReport)
    ensures title == [] ==> h == HeadlineReport(NoHeadline, 0, [])
    ensures h.score <= 100
    ensures title != [] ==> h.score == Score(lex, title)
    ensures title != [] ==> h.indicators == Indicators(lex, title)
    ensures title != [] && (apiKey.None? || apiKey.value == []) ==> h.analysis == NoKeyAnalysis
    ensures title != [] && apiKey.Some? && apiKey.value != [] && reply.Answered? ==> h.analysis == reply.content
    ensures title != [] && apiKey.Some? && apiKey.value != [] && reply.Raised? ==>
              h.analysis == AnalysisErrorLead + reply.message
  {
    if title == [] then HeadlineReport(NoHeadline, 0, [])
    else
      var analysis :=
        if apiKey.None? || apiKey.value == [] then NoKeyAnalysis
        else match reply
             case Answered(c) => c
             case Raised(m) => AnalysisErrorLead + m;
      HeadlineReport(analysis, Score(lex, title), Indicators(lex, title))
  }

  /** `analyze_headline` with the word lists of `headline_analyzer.py`. */
  function AnalyzeHeadline(title: string, apiKey: Option<string>, reply: Outcome): HeadlineReport {
    AnalyzeHeadlineWith(SourceLexicons, title, apiKey, reply)
  }

  // ---------------------------------------------------------------------
  // Two consequences of the literal matching
  // ---------------------------------------------------------------------

  /** A title that is a single token fires the emotional rule exactly when
      its lower-cased form is itself one of the emotional words. */
  lemma EmotionalNeedsExactToken(lex: Lexicons, title: string)
    requires Words(Lower(title)) == [Lower(title)]
    ensures Fires(lex, Emotional, title) <==> Lower(title) in lex.emotional
  {
  }

  /** "shocking!" is one token, and no emotional word equals it. */
  lemma ShockingWithBangIsNotEmotional()
    ensures !Fires(SourceLexicons, Emotional, "shocking!")
  {
    var t := "shocking!";
    LowerOfLowercase(t);
    WordsOfSingle(t);
    EmotionalNeedsExactToken(SourceLexicons, t);
    ShockingWithBangIsNotListed();
    assert SourceLexicons.emotional == EmotionalWords;
  }

  lemma ShockingWithBangIsNotListed()
    ensures "shocking!" !in EmotionalWords
  {
    var e := EmotionalWords;
    forall i | 0 <= i < |e| ensures e[i] != "shocking!" {
      assert e[i][|e[i]| - 1] != '!';
    }
  }

  /** "is" matches the start of "island": no word boundary is required. */
  lemma IslandAsksAQuestion()
    ensures Fires(SourceLexicons, Question, "Island life")
  {
    var lower := Lower("Island life");
    assert lower[..2] == "is";
    assert QuestionWords[6] == "is";
    assert StartsWith(lower, SourceLexicons.questionWords[6]);
  }
}
