/** `generate_markdown_report`: the analysis serialised as Markdown, one
    section per rubric field in a fixed order, with optional headline,
    comparative and credibility sections. */
module Report {
  import opened Wrappers
  import opened Strings
  import opened Types
  import opened TextProcessor

  // ---------------------------------------------------------------------
  // Fixed text
  // ---------------------------------------------------------------------

  const TitleLead: string := "# Critical Analysis Report for: "
  const SourceLead: string := "Source: "
  const AuthorLead: string := "Author: "
  const DateLead: string := "Date: "
  const NL: string := "\n"
  const ParaBreak: string := "\n\n"

  const HeadlineHeading: string := "## Headline Analysis\n"
  const ScoreLead: string := "**Sensationalism Score**: "
  const ScoreTail: string := "/100\n\n"
  const IndicatorsHeading: string := "**Clickbait Indicators**:\n"
  const BulletLead: string := "* "
  const NumberSep: string := ". "

  const ClaimsHeading: string := "## Core Claims\n"
  const ToneHeading: string := "\n## Language & Tone Analysis\n"
  const FlagsHeading: string := "\n\n## Potential Red Flags\n"
  const QuestionsHeading: string := "\n## Verification Questions\n"
  const EntitiesHeading: string := "\n## Key Entities to Investigate\n"
  const CounterHeading: string := "\n## Counter-Argument Perspective\n"
  const ComparativeHeading: string := "\n## Comparative Analysis\n"
  const RelatedHeading: string := "### Related Articles Analyzed\n"
  const CredibilityHeading: string := "\n## Source Credibility Factors\n"

  /** The six rubric headings, in the order the report always emits them. */
  const RubricHeadings: seq<string> :=
    [ClaimsHeading, ToneHeading, FlagsHeading, QuestionsHeading, EntitiesHeading, CounterHeading]

  const NoClaims: string := "No core claims identified."
  const NoTone: string := "No language analysis available."
  const NoFlags: string := "No red flags identified."
  const NoQuestions: string := "No verification questions generated."
  const NoEntities: string := "No key entities identified."
  const NoCounter: string := "No counter-argument perspective generated."

  // ---------------------------------------------------------------------
  // Renderers of values
  // ---------------------------------------------------------------------

  /** One "* item" line per item. */
  function BulletList(items: seq<string>): string
    decreases |items|
  {
    if items == [] then [] else BulletLead + items[0] + NL + BulletList(items[1..])
  }

  /** "i. item" lines, numbered from `i`. */
  function NumberedList(items: seq<string>, i: nat): string
    decreases |items|
  {
    if items == [] then [] else NatToString(i) + NumberSep + items[0] + NL + NumberedList(items[1..], i + 1)
  }

  /** "i. [title](url) - source" lines, numbered from `i`. */
  function RelatedList(articles: seq<RelatedArticle>, i: nat): string
    decreases |articles|
  {
    if articles == [] then []
    else
      var a := articles[0];
      NatToString(i) + ". [" + a.title + "](" + a.url + ") - " + a.source + NL
      + RelatedList(articles[1..], i + 1)
  }

  /** A field a list renders as bullets; a missing key renders `placeholder`. */
  function BulletField(f: Option<Field>, placeholder: string): string {
    match f
    case None => placeholder
    case Some(Items(xs)) => BulletList(xs)
    case Some(Text(t)) => t
  }

  /** A field whose list renders as numbered lines. */
  function NumberedField(f: Option<Field>, placeholder: string): string {
    match f
    case None => placeholder
    case Some(Items(xs)) => NumberedList(xs, 1)
    case Some(Text(t)) => t
  }

  /** A field whose list renders as its items joined with line breaks. */
  function JoinedField(f: Option<Field>, placeholder: string): string {
    match f
    case None => placeholder
    case Some(Items(xs)) => Join(xs, NL)
    case Some(Text(t)) => t
  }

  /** Python truthiness of an optional field value. */
  predicate Truthy(f: Option<Field>) {
    match f
    case None => false
    case Some(Items(xs)) => xs != []
    case Some(Text(t)) => t != []
  }

  predicate Present(o: Option<string>) {
    o.Some? && o.value != []
  }

  /** The score as printed: numbers as they are, other values through
      `int()`, and 0 where `int()` raises. */
  function ScoreNumber(v: ScoreValue): int {
    match v
    case IntScore(n) => n
    case TextScore(s) => ParseInt(s).GetOr(0)
    case NullScore => 0
  }

  // ---------------------------------------------------------------------
  // Sections
  // ---------------------------------------------------------------------

  function Header(article: Article): string {
    TitleLead + article.title + ParaBreak + SourceLead + article.url + ParaBreak
    + (if Present(article.author) then AuthorLead + article.author.value + ParaBreak else [])
    + (if Present(article.date) then DateLead + article.date.value + ParaBreak else [])
  }

  function ScoreLine(v: ScoreValue): string {
    ScoreLead + IntToString(ScoreNumber(v)) + ScoreTail
  }

  function ScorePart(a: Analysis): string {
    match a.sensationalismScore case Some(v) => ScoreLine(v) case None => []
  }

  function IndicatorPart(a: Analysis): string {
    if a.clickbaitIndicators == [] then [] else IndicatorsHeading + BulletList(a.clickbaitIndicators) + NL
  }

  function HeadlineSection(a: Analysis): string {
    if a.headlineAnalysis == [] then []
    else (HeadlineHeading + a.headlineAnalysis + ParaBreak) + (ScorePart(a) + IndicatorPart(a))
  }

  function CounterBody(f: Option<Field>): string {
    if !Truthy(f) then NoCounter else JoinedField(f, NoCounter)
  }

  function ComparativeSection(a: Analysis): string {
    if a.comparativeAnalysis == [] then []
    else
      ComparativeHeading + a.comparativeAnalysis + ParaBreak
      + (if a.relatedArticles == [] then [] else RelatedHeading + RelatedList(a.relatedArticles, 1) + NL)
  }

  function CredibilitySection(info: Option<CredibilityInfo>): string {
    match info
    case None => []
    case Some(c) => CredibilityHeading + BulletList(c.factors)
  }

  /** The six rubric sections, each heading followed by its body. */
  function RubricBodies(a: Analysis): seq<string> {
    [ BulletField(a.coreClaims, NoClaims),
      JoinedField(a.languageTone, NoTone),
      BulletField(a.redFlags, NoFlags),
      NumberedField(a.verificationQuestions, NoQuestions),
      BulletField(a.keyEntities, NoEntities),
      CounterBody(a.counterArgument) ]
  }

  /** Headings interleaved with bodies, right-nested. */
  function Interleave(headings: seq<string>, bodies: seq<string>): string
    requires |headings| == |bodies|
    decreases |headings|
  {
    if headings == [] then [] else headings[0] + (bodies[0] + Interleave(headings[1..], bodies[1..]))
  }

  /** `generate_markdown_report(article_data, analysis, credibility_info)`. */
  function GenerateMarkdownReport(article: Article, a: Analysis, info: Option<CredibilityInfo>): (r: string)
    ensures StartsWith(r, TitleLead + article.title + ParaBreak + SourceLead + article.url + ParaBreak)
  {
    var head := TitleLead + article.title + ParaBreak + SourceLead + article.url + ParaBreak;
    var r := Header(article) + (HeadlineSection(a)
              + (Interleave(RubricHeadings, RubricBodies(a)) + (ComparativeSection(a) + CredibilitySection(info))));
    assert Header(article) == head + (Header(article)[|head|..]);
    assert r[..|head|] == head;
    r
  }

  // ---------------------------------------------------------------------
  // The rubric headings are always there, in order
  // ---------------------------------------------------------------------

  /** Each of `hs` occurs in `s`, each after the end of the one before. */
  ghost predicate InOrder(s: string, hs: seq<string>)
    decreases |hs|
  {
    hs == [] || exists i: nat :: Occurs(s, hs[0], i) && InOrder(s[i + |hs[0]|..], hs[1..])
  }

  lemma {:induction false} InOrderPrefix(p: string, s: string, hs: seq<string>)
    requires InOrder(s, hs)
    ensures InOrder(p + s, hs)
  {
    if hs != [] {
      var h := hs[0];
      var i: nat :| Occurs(s, h, i) && InOrder(s[i + |h|..], hs[1..]);
      assert (p + s)[|p| + i..|p| + i + |h|] == s[i..i + |h|];
      assert (p + s)[|p| + i + |h|..] == s[i + |h|..];
      assert Occurs(p + s, h, |p| + i);
    }
  }

  lemma {:induction false} InOrderSuffix(s: string, t: string, hs: seq<string>)
    requires InOrder(s, hs)
    ensures InOrder(s + t, hs)
    decreases |hs|
  {
    if hs != [] {
      var h := hs[0];
      var i: nat :| Occurs(s, h, i) && InOrder(s[i + |h|..], hs[1..]);
      InOrderSuffix(s[i + |h|..], t, hs[1..]);
      assert (s + t)[i..i + |h|] == s[i..i + |h|];
      assert (s + t)[i + |h|..] == s[i + |h|..] + t;
      assert Occurs(s + t, h, i);
    }
  }

  lemma {:induction false} InterleaveInOrder(headings: seq<string>, bodies: seq<string>)
    requires |headings| == |bodies|
    ensures InOrder(Interleave(headings, bodies), headings)
    decreases |headings|
  {
    if headings != [] {
      var h := headings[0];
      var rest := bodies[0] + Interleave(headings[1..], bodies[1..]);
      InterleaveInOrder(headings[1..], bodies[1..]);
      InOrderPrefix(bodies[0], Interleave(headings[1..], bodies[1..]), headings[1..]);
      assert (h + rest)[0..|h|] == h;
      assert (h + rest)[|h|..] == rest;
      assert Occurs(h + rest, h, 0);
    }
  }

  /** Whatever the analysis holds, the six rubric headings appear in the
      report in their fixed order. */
  lemma RubricHeadingsInOrder(article: Article, a: Analysis, info: Option<CredibilityInfo>)
    ensures InOrder(GenerateMarkdownReport(article, a, info), RubricHeadings)
  {
    var body := Interleave(RubricHeadings, RubricBodies(a));
    InterleaveInOrder(RubricHeadings, RubricBodies(a));
    InOrderSuffix(body, ComparativeSection(a) + CredibilitySection(info), RubricHeadings);
    InOrderPrefix(HeadlineSection(a), body + (ComparativeSection(a) + CredibilitySection(info)), RubricHeadings);
    InOrderPrefix(Header(article), HeadlineSection(a) + (body + (ComparativeSection(a) + CredibilitySection(info))), RubricHeadings);
  }

  // ---------------------------------------------------------------------
  // What follows each rubric heading
  // ---------------------------------------------------------------------

  /** Six headings and six bodies interleave as heading, body, heading, ... */
  lemma InterleaveSix(hs: seq<string>, bs: seq<string>)
    requires |hs| == 6 && |bs| == 6
    ensures Interleave(hs, bs)
            == hs[0] + (bs[0] + (hs[1] + (bs[1] + (hs[2] + (bs[2]
               + (hs[3] + (bs[3] + (hs[4] + (bs[4] + (hs[5] + bs[5]))))))))))
  {
    var h5, b5 := hs[5..], bs[5..];
    assert h5[1..] == [] && h5[0] == hs[5] && b5[0] == bs[5];
    assert Interleave(h5, b5) == hs[5] + bs[5] by {
      assert bs[5] + [] == bs[5];
    }
    InterleaveStep(hs, bs, 4);
    InterleaveStep(hs, bs, 3);
    InterleaveStep(hs, bs, 2);
    InterleaveStep(hs, bs, 1);
    InterleaveStep(hs, bs, 0);
    assert hs[0..] == hs && bs[0..] == bs;
  }

  /** One heading and body, then the interleaving of the rest. */
  lemma InterleaveStep(hs: seq<string>, bs: seq<string>, k: nat)
    requires |hs| == |bs| && k < |hs|
    ensures Interleave(hs[k..], bs[k..]) == hs[k] + (bs[k] + Interleave(hs[k + 1..], bs[k + 1..]))
  {
    assert hs[k..][1..] == hs[k + 1..] && bs[k..][1..] == bs[k + 1..];
  }

  /** The report is the header, the headline section, then each rubric
      heading directly followed by its field (or the field's placeholder),
      then the comparative and credibility sections. */
  lemma ReportLayout(article: Article, a: Analysis, info: Option<CredibilityInfo>)
    ensures GenerateMarkdownReport(article, a, info)
            == Header(article) + (HeadlineSection(a)
               + (ClaimsHeading + (BulletField(a.coreClaims, NoClaims)
               + (ToneHeading + (JoinedField(a.languageTone, NoTone)
               + (FlagsHeading + (BulletField(a.redFlags, NoFlags)
               + (QuestionsHeading + (NumberedField(a.verificationQuestions, NoQuestions)
               + (EntitiesHeading + (BulletField(a.keyEntities, NoEntities)
               + (CounterHeading + CounterBody(a.counterArgument)))))))))))
               + (ComparativeSection(a) + CredibilitySection(info))))
  {
    InterleaveSix(RubricHeadings, RubricBodies(a));
  }

  /** `body` directly follows heading `k` of the report. */
  predicate SectionReads(report: string, k: nat, body: string)
    requires k < |RubricHeadings|
  {
    Contains(report, RubricHeadings[k] + body)
  }

  /** Each rubric heading of the report is directly followed by its body. */
  lemma RubricSectionsInReport(article: Article, a: Analysis, info: Option<CredibilityInfo>)
    ensures var report := GenerateMarkdownReport(article, a, info);
            && SectionReads(report, 0, BulletField(a.coreClaims, NoClaims))
            && SectionReads(report, 1, JoinedField(a.languageTone, NoTone))
            && SectionReads(report, 2, BulletField(a.redFlags, NoFlags))
            && SectionReads(report, 3, NumberedField(a.verificationQuestions, NoQuestions))
            && SectionReads(report, 4, BulletField(a.keyEntities, NoEntities))
            && SectionReads(report, 5, CounterBody(a.counterArgument))
  {
    RubricSectionInReport(article, a, info, 0);
    RubricSectionInReport(article, a, info, 1);
    RubricSectionInReport(article, a, info, 2);
    RubricSectionInReport(article, a, info, 3);
    RubricSectionInReport(article, a, info, 4);
    RubricSectionInReport(article, a, info, 5);
  }

  /** Rubric heading `k` of the report is directly followed by body `k`. */
  lemma RubricSectionInReport(article: Article, a: Analysis, info: Option<CredibilityInfo>, k: nat)
    requires k < 6
    ensures SectionReads(GenerateMarkdownReport(article, a, info), k, RubricBodies(a)[k])
  {
    var bs := RubricBodies(a);
    InterleaveContains(RubricHeadings, bs, k);
    ContainsNested2(Header(article), HeadlineSection(a), Interleave(RubricHeadings, bs),
                    ComparativeSection(a) + CredibilitySection(info), RubricHeadings[k] + bs[k]);
  }

  /** What the third part of a nested concatenation contains, the whole contains. */
  lemma ContainsNested2(h: string, p: string, m: string, q: string, x: string)
    requires Contains(m, x)
    ensures Contains(h + (p + (m + q)), x)
  {
    ContainsInside(h + p, m, q, x);
    assert h + (p + (m + q)) == h + p + m + q;
  }

  /** Each heading is directly followed by its body in the interleaving. */
  lemma {:induction false} InterleaveContains(hs: seq<string>, bs: seq<string>, k: nat)
    requires |hs| == |bs| && k < |hs|
    ensures Contains(Interleave(hs, bs), hs[k] + bs[k])
    decreases k
  {
    var rest := Interleave(hs[1..], bs[1..]);
    if k == 0 {
      assert Interleave(hs, bs) == (hs[0] + bs[0]) + rest;
      ContainsInside([], hs[0] + bs[0], rest, hs[0] + bs[0]);
      assert [] + (hs[0] + bs[0]) + rest == (hs[0] + bs[0]) + rest;
      ContainsAt(hs[0] + bs[0], hs[0] + bs[0], 0);
    } else {
      InterleaveContains(hs[1..], bs[1..], k - 1);
      assert Interleave(hs, bs) == (hs[0] + bs[0]) + rest;
      ContainsInside(hs[0] + bs[0], rest, [], hs[k] + bs[k]);
      assert (hs[0] + bs[0]) + rest + [] == (hs[0] + bs[0]) + rest;
    }
  }

  /** What a middle part contains, the whole contains. */
  lemma ContainsInside(p: string, m: string, q: string, x: string)
    requires Contains(m, x)
    ensures Contains(p + m + q, x)
  {
    var i := Find(m, x).value;
    assert (p + m + q)[|p| + i..|p| + i + |x|] == m[i..i + |x|];
    ContainsAt(p + m + q, x, |p| + i);
  }

  /** A list field renders as one "* item" line per item; a missing key
      renders the placeholder and a string renders as itself. */
  lemma BulletFieldLines(f: Option<Field>, placeholder: string)
    ensures f.None? ==> BulletField(f, placeholder) == placeholder
    ensures f.Some? && f.value.Text? ==> BulletField(f, placeholder) == f.value.text
    ensures f.Some? && f.value.Items? ==> BulletField(f, placeholder) == Join(BulletLines(f.value.items) + [[]], NL)
  {
    if f.Some? && f.value.Items? {
      BulletListJoin(f.value.items);
    }
  }

  /** A list field renders as "1. q", "2. q", ... lines; a missing key
      renders the placeholder and a string renders as itself. */
  lemma NumberedFieldLines(f: Option<Field>, placeholder: string)
    ensures f.None? ==> NumberedField(f, placeholder) == placeholder
    ensures f.Some? && f.value.Text? ==> NumberedField(f, placeholder) == f.value.text
    ensures f.Some? && f.value.Items? ==> NumberedField(f, placeholder) == Join(NumberedLines(f.value.items, 1) + [[]], NL)
  {
    if f.Some? && f.value.Items? {
      NumberedListJoin(f.value.items, 1);
    }
  }

  /** The counter-argument body: the placeholder for a missing, empty or
      empty-list value, otherwise the string or the items joined by line
      breaks. */
  lemma CounterBodyCases(f: Option<Field>)
    ensures !Truthy(f) ==> CounterBody(f) == NoCounter
    ensures f.Some? && f.value.Text? && f.value.text != [] ==> CounterBody(f) == f.value.text
    ensures f.Some? && f.value.Items? && f.value.items != [] ==> CounterBody(f) == Join(f.value.items, NL)
    ensures f == Some(Text([])) ==> CounterBody(f) == NoCounter
  {
  }

  // ---------------------------------------------------------------------
  // Optional parts
  // ---------------------------------------------------------------------

  /** Without headline analysis the score and the indicators are not shown. */
  lemma HeadlineExtrasNeedHeadline(article: Article, a: Analysis, info: Option<CredibilityInfo>)
    requires a.headlineAnalysis == []
    ensures GenerateMarkdownReport(article, a, info)
            == GenerateMarkdownReport(article, a.(sensationalismScore := None, clickbaitIndicators := []), info)
  {
  }

  /** Without comparative analysis the related articles are not shown. */
  lemma RelatedNeedsComparative(article: Article, a: Analysis, info: Option<CredibilityInfo>)
    requires a.comparativeAnalysis == []
    ensures GenerateMarkdownReport(article, a, info)
            == GenerateMarkdownReport(article, a.(relatedArticles := []), info)
  {
    var b := a.(relatedArticles := []);
    assert ComparativeSection(a) == ComparativeSection(b);
    assert RubricBodies(a) == RubricBodies(b);
  }

  /** Empty author and date strings are treated as missing. */
  lemma EmptyAuthorAndDateOmitted(article: Article, a: Analysis, info: Option<CredibilityInfo>)
    requires article.author == Some([]) && article.date == Some([])
    ensures GenerateMarkdownReport(article, a, info)
            == GenerateMarkdownReport(article.(author := None, date := None), a, info)
  {
  }

  /** With headline analysis and a score key, the coerced score is shown. */
  lemma ScoreShown(article: Article, a: Analysis, info: Option<CredibilityInfo>)
    requires a.headlineAnalysis != [] && a.sensationalismScore.Some?
    ensures Contains(GenerateMarkdownReport(article, a, info), ScoreLine(a.sensationalismScore.value))
  {
    ContainsNested(Header(article), HeadlineHeading + a.headlineAnalysis + ParaBreak,
      ScoreLine(a.sensationalismScore.value), IndicatorPart(a),
      Interleave(RubricHeadings, RubricBodies(a)) + (ComparativeSection(a) + CredibilitySection(info)));
  }

  /** `x` occurs in a text assembled around it the way the report nests
      the headline section. */
  lemma ContainsNested(h: string, p: string, x: string, q: string, rest: string)
    ensures Contains(h + ((p + (x + q)) + rest), x)
  {
    var s := h + ((p + (x + q)) + rest);
    var i := |h| + |p|;
    assert s[i..i + |x|] == x;
    ContainsAt(s, x, i);
  }

  /** With credibility information the report ends with its factors. */
  lemma CredibilityLast(article: Article, a: Analysis, c: CredibilityInfo)
    ensures EndsWith(GenerateMarkdownReport(article, a, Some(c)), CredibilityHeading + BulletList(c.factors))
  {
    EndsNested(Header(article), HeadlineSection(a), Interleave(RubricHeadings, RubricBodies(a)),
      ComparativeSection(a), CredibilityHeading + BulletList(c.factors));
  }

  /** `t` ends a text assembled the way the report nests its sections. */
  lemma EndsNested(h: string, p: string, m: string, q: string, t: string)
    ensures EndsWith(h + (p + (m + (q + t))), t)
  {
    var s := h + (p + (m + (q + t)));
    assert s[|s| - |t|..] == t;
  }

  // ---------------------------------------------------------------------
  // Score coercion
  // ---------------------------------------------------------------------

  /** A score stored as the text of an integer prints as that integer. */
  lemma TextScoreRoundTrip(n: int)
    ensures ScoreNumber(TextScore(IntToString(n))) == n
  {
    ParseIntToString(n);
  }

  const FractionText: string := "7.5"

  /** `int()` rejects a decimal fraction, so such a score prints as 0. */
  lemma FractionScoreIsZero()
    ensures ScoreNumber(TextScore(FractionText)) == 0
  {
    assert !IsDigit(FractionText[1]);
    assert !LiteralCharAt(FractionText, 1);
    StripUnchanged(FractionText);
  }

  // ---------------------------------------------------------------------
  // Reading a rendered section back with `extract_section`
  // ---------------------------------------------------------------------

  const HeadingMark: string := "## "

  function Newlines(m: nat): (r: string)
    ensures '#' !in r
  {
    seq(m, _ => '\n')
  }

  function Blanks(m: nat): (r: seq<string>)
    ensures |r| == m && forall k :: 0 <= k < m ==> r[k] == []
  {
    seq(m, _ => [])
  }

  /** The lines `BulletList` writes. */
  function BulletLines(items: seq<string>): (r: seq<string>)
    ensures |r| == |items| && forall k :: 0 <= k < |items| ==> r[k] == BulletLead + items[k]
  {
    seq(|items|, k requires 0 <= k < |items| => BulletLead + items[k])
  }

  /** The lines `NumberedList` writes. */
  function NumberedLines(items: seq<string>, i: nat): (r: seq<string>)
    ensures |r| == |items| && forall k :: 0 <= k < |items| ==> r[k] == NatToString(i + k) + NumberSep + items[k]
  {
    seq(|items|, k requires 0 <= k < |items| => NatToString(i + k) + NumberSep + items[k])
  }

  lemma JoinCons(h: string, rest: seq<string>, sep: string)
    requires |rest| >= 1
    ensures Join([h] + rest, sep) == h + sep + Join(rest, sep)
  {
    assert ([h] + rest)[1..] == rest;
  }

  lemma {:induction false} JoinBlanks(m: nat, rest: seq<string>)
    requires |rest| >= 1
    ensures Join(Blanks(m) + rest, NL) == Newlines(m) + Join(rest, NL)
    decreases m
  {
    if m > 0 {
      JoinBlanks(m - 1, rest);
      assert Blanks(m) + rest == [[]] + (Blanks(m - 1) + rest);
      JoinCons([], Blanks(m - 1) + rest, NL);
      assert Newlines(m) == NL + Newlines(m - 1);
    } else {
      assert Blanks(m) + rest == rest;
    }
  }

  lemma {:induction false} BulletListJoin(items: seq<string>)
    ensures BulletList(items) == Join(BulletLines(items) + [[]], NL)
    decreases |items|
  {
    if items != [] {
      BulletListJoin(items[1..]);
      assert BulletLines(items) + [[]] == [BulletLead + items[0]] + (BulletLines(items[1..]) + [[]]);
      JoinCons(BulletLead + items[0], BulletLines(items[1..]) + [[]], NL);
    }
  }

  lemma {:induction false} NumberedListJoin(items: seq<string>, i: nat)
    ensures NumberedList(items, i) == Join(NumberedLines(items, i) + [[]], NL)
    decreases |items|
  {
    if items != [] {
      NumberedListJoin(items[1..], i + 1);
      var head := NatToString(i) + NumberSep + items[0];
      assert NumberedLines(items, i) + [[]] == [head] + (NumberedLines(items[1..], i + 1) + [[]]);
      JoinCons(head, NumberedLines(items[1..], i + 1) + [[]], NL);
    }
  }

  lemma {:induction false} JoinNoChar(parts: seq<string>, sep: string, c: char)
    requires c !in sep && forall k :: 0 <= k < |parts| ==> c !in parts[k]
    ensures c !in Join(parts, sep)
    decreases |parts|
  {
    if |parts| > 1 {
      JoinNoChar(parts[1..], sep, c);
    }
  }

  /** A line that is neither empty nor padded survives `strip` and the blank filter. */
  predicate CleanLine(l: string) {
    l != [] && Strip(l) == l && '\n' !in l && '#' !in l
  }

  /** A non-empty list of clean lines. */
  predicate CleanLines(ls: seq<string>) {
    ls != [] && forall k :: 0 <= k < |ls| ==> CleanLine(ls[k])
  }

  lemma {:induction false} NonBlankLinesKeep(lines: seq<string>)
    requires forall k :: 0 <= k < |lines| ==> lines[k] != [] && Strip(lines[k]) == lines[k]
    ensures NonBlankLines(lines + [[]]) == lines
    decreases |lines|
  {
    if lines == [] {
      assert NonBlankLines([[]]) == NonBlankLines([]);
    } else {
      NonBlankLinesKeep(lines[1..]);
      assert (lines + [[]])[1..] == lines[1..] + [[]];
    }
  }

  lemma {:induction false} NonBlankLinesDrop(m: nat, rest: seq<string>)
    ensures NonBlankLines(Blanks(m) + rest) == NonBlankLines(rest)
    decreases m
  {
    if m > 0 {
      NonBlankLinesDrop(m - 1, rest);
      assert (Blanks(m) + rest)[1..] == Blanks(m - 1) + rest;
    } else {
      assert Blanks(m) + rest == rest;
    }
  }

  /** A heading "## name" cannot hold "###" when nothing around it has a '#'. */
  lemma NoTripleHash(a: string, c: string)
    requires '#' !in a && '#' !in c
    ensures !Contains(a + HeadingMark + c, "###")
  {
    var s := a + HeadingMark + c;
    forall j: nat | j + 3 <= |s| ensures !Occurs(s, "###", j) {
      // an offset inside the window whose character is not '#'
      var k := if j < |a| then 0 else if j == |a| then 2 else if j == |a| + 1 then 1 else 0;
      if j < |a| {
        assert s[j] == a[j];
      } else if j >= |a| + 3 {
        assert s[j] == c[j - |a| - 3];
      }
      assert s[j + k] != '#';
      assert s[j..j + 3][k] != "###"[k];
    }
  }

  lemma LowerContains(p: string, name: string, q: string)
    ensures Contains(Lower(p + name + q), Lower(name))
  {
    var s := p + name + q;
    assert Lower(s)[|p|..|p| + |name|] == Lower(name) by {
      forall k | 0 <= k < |name| ensures Lower(s)[|p| + k] == Lower(name)[k] {
        assert s[|p| + k] == name[k];
      }
    }
    ContainsAt(Lower(s), Lower(name), |p|);
  }

  /** A section as the report writes it: `m` blank lines, a "## name"
      heading line, then the body lines, each ended by a line break. */
  function SectionText(m: nat, name: string, body: seq<string>): string {
    SectionHead(m, name) + Join(body + [[]], NL)
  }

  /** The blank lines and the heading line of a section. */
  function SectionHead(m: nat, name: string): string {
    Newlines(m) + HeadingMark + name + NL
  }

  /** The line list of the section text. */
  function SectionParts(m: nat, name: string, body: seq<string>): seq<string> {
    Blanks(m) + ([HeadingMark + name] + (body + [[]]))
  }

  lemma SectionSplit(m: nat, name: string, body: seq<string>)
    requires '\n' !in name
    requires forall k :: 0 <= k < |body| ==> CleanLine(body[k])
    ensures Split(SectionText(m, name, body), NL) == SectionParts(m, name, body)
  {
    var heading := HeadingMark + name;
    var parts := SectionParts(m, name, body);
    JoinCons(heading, body + [[]], NL);
    JoinBlanks(m, [heading] + (body + [[]]));
    assert SectionText(m, name, body) == Newlines(m) + heading + NL + Join(body + [[]], NL);
    assert SectionText(m, name, body) == Join(parts, NL);
    forall k | 0 <= k < |parts| ensures '\n' !in parts[k] {
      if m <= k < m + 1 {
        assert parts[k] == heading;
      } else if m + 1 <= k < m + 1 + |body| {
        assert parts[k] == body[k - m - 1];
      }
    }
    SplitJoin(parts, '\n');
  }

  lemma SectionLinesOf(m: nat, name: string, body: seq<string>)
    requires name != [] && !IsSpace(name[|name| - 1]) && '\n' !in name
    requires forall k :: 0 <= k < |body| ==> CleanLine(body[k])
    ensures SectionLines(SectionText(m, name, body)) == [HeadingMark + name] + body
  {
    var heading := HeadingMark + name;
    SectionSplit(m, name, body);
    StripUnchanged(heading);
    NonBlankLinesDrop(m, [heading] + (body + [[]]));
    HeadedLinesStripped(heading, body);
    NonBlankLinesKeep([heading] + body);
    assert [heading] + (body + [[]]) == ([heading] + body) + [[]];
  }

  lemma HeadedLinesStripped(heading: string, body: seq<string>)
    requires heading != [] && Strip(heading) == heading
    requires forall k :: 0 <= k < |body| ==> CleanLine(body[k])
    ensures forall k :: 0 <= k < |[heading] + body| ==>
              ([heading] + body)[k] != [] && Strip(([heading] + body)[k]) == ([heading] + body)[k]
  {
    var lines := [heading] + body;
    forall k | 0 <= k < |lines| ensures lines[k] != [] && Strip(lines[k]) == lines[k] {
      if k > 0 {
        assert lines[k] == body[k - 1];
      }
    }
  }

  lemma SectionHashes(m: nat, name: string, body: seq<string>)
    requires '#' !in name
    requires forall k :: 0 <= k < |body| ==> CleanLine(body[k])
    ensures !Contains(SectionText(m, name, body), "###")
    ensures Split(SectionText(m, name, body), "###") == [SectionText(m, name, body)]
  {
    var rest := NL + Join(body + [[]], NL);
    JoinNoChar(body + [[]], NL, '#');
    NoTripleHash(Newlines(m), name + rest);
    assert SectionText(m, name, body) == Newlines(m) + HeadingMark + (name + rest);
    SplitAbsent(SectionText(m, name, body), "###");
  }

  lemma SplitAbsent(s: string, sep: string)
    requires sep != [] && !Contains(s, sep)
    ensures Split(s, sep) == [s]
  {
  }

  lemma SectionMentions(m: nat, name: string, body: seq<string>)
    ensures Contains(Lower(SectionText(m, name, body)), Lower(name))
  {
    LowerContains(Newlines(m) + HeadingMark, name, NL + Join(body + [[]], NL));
    assert SectionText(m, name, body) == (Newlines(m) + HeadingMark) + name + (NL + Join(body + [[]], NL));
  }

  /** `extract_section` reads back a section rendered on its own after `m`
      blank lines: under a heading name, with clean body lines, it gives
      the body laid out as the name prescribes. */
  lemma ExtractRendered(m: nat, name: string, body: seq<string>)
    ensures HeadingName(name) && CleanLines(body) ==>
              ExtractSection(SectionText(m, name, body), name) == Render(LayoutOf(name), body)
  {
    if HeadingName(name) && CleanLines(body) {
      var text := SectionText(m, name, body);
      SectionLinesOf(m, name, body);
      SectionHashes(m, name, body);
      SectionMentions(m, name, body);
      assert FirstQualifying([text], name, 0);
      ExtractSectionFirst(text, name, 0);
    }
  }

  lemma ClaimsHeadingShape()
    ensures ClaimsHeading == SectionHead(0, CoreClaimsLabel)
  {
    assert Newlines(0) == [];
  }

  lemma FlagsHeadingShape()
    ensures FlagsHeading == SectionHead(2, RedFlagsLabel)
  {
    assert Newlines(2) == ParaBreak;
  }

  lemma QuestionsHeadingShape()
    ensures QuestionsHeading == SectionHead(1, QuestionLabel)
  {
    assert Newlines(1) == NL;
  }

  /** The labels as heading names: non-empty, no trailing space, and no
      line break or '#' inside. */
  predicate HeadingName(name: string) {
    name != [] && !IsSpace(name[|name| - 1]) && '\n' !in name && '#' !in name
  }

  lemma ClaimsLabelIsBulleted()
    ensures HeadingName(CoreClaimsLabel) && LayoutOf(CoreClaimsLabel) == Bulleted
  {
    assert CoreClaimsLabel in BulletLabels;
  }

  lemma RedFlagsLabelIsBulleted()
    ensures HeadingName(RedFlagsLabel) && LayoutOf(RedFlagsLabel) == Bulleted
  {
    assert RedFlagsLabel in BulletLabels;
  }

  lemma QuestionLabelIsNumbered()
    ensures HeadingName(QuestionLabel) && LayoutOf(QuestionLabel) == Numbered
  {
    assert QuestionLabel !in BulletLabels;
  }

  lemma StripAfterSpace(q: string)
    requires q != [] && Strip(q) == q
    ensures Strip(" " + q) == q
  {
    var s := " " + q;
    assert !IsSpace(q[0]) && !IsSpace(q[|q| - 1]);
    assert s[1] == q[0];
    SkipSpacesIs(s, 0, 1);
    assert BackSpaces(s, |s|) == |s|;
    assert s[1..|s|] == q;
  }

  lemma BulletLinesClean(items: seq<string>)
    requires forall k :: 0 <= k < |items| ==> CleanLine(items[k])
    ensures forall k :: 0 <= k < |items| ==> CleanLine(BulletLines(items)[k])
  {
    forall k | 0 <= k < |items| ensures CleanLine(BulletLines(items)[k]) {
      var x := items[k];
      var l := BulletLead + x;
      assert !IsSpace(x[|x| - 1]);
      assert l[0] == '*' && l[|l| - 1] == x[|x| - 1];
      StripUnchanged(l);
    }
  }

  lemma {:induction false} DeBulletLines(items: seq<string>)
    requires forall k :: 0 <= k < |items| ==> CleanLine(items[k])
    ensures DeBullet(BulletLines(items)) == items
    decreases |items|
  {
    if items != [] {
      var l := BulletLead + items[0];
      assert BulletLines(items)[1..] == BulletLines(items[1..]);
      DeBulletLines(items[1..]);
      assert l[..2] == "* ";
      assert l[2..] == items[0];
    }
  }

  /** The numbered line for `q`: its first full stop follows the number. */
  lemma DeNumberLine(n: nat, q: string)
    requires CleanLine(q)
    ensures DeNumber(NatToString(n) + NumberSep + q) == q
  {
    var d := NatToString(n);
    var l := d + NumberSep + q;
    assert l[|d|] == '.';
    assert l[..|d|] == d;
    assert '.' !in d by {
      forall i | 0 <= i < |d| ensures d[i] != '.' {
        assert IsDigit(d[i]);
      }
    }
    assert l[|d| + 1..] == " " + q;
    StripAfterSpace(q);
  }

  lemma NumberedLineClean(n: nat, x: string)
    requires CleanLine(x)
    ensures CleanLine(NatToString(n) + NumberSep + x)
  {
    var d := NatToString(n);
    var l := d + NumberSep + x;
    assert !IsSpace(x[|x| - 1]);
    assert IsDigit(d[0]);
    assert l[0] == d[0] && l[|l| - 1] == x[|x| - 1];
    StripUnchanged(l);
    assert '#' !in d && '\n' !in d by {
      forall j | 0 <= j < |d| ensures d[j] != '#' && d[j] != '\n' {
        assert IsDigit(d[j]);
      }
    }
  }

  lemma NumberedLinesClean(items: seq<string>, i: nat)
    requires forall k :: 0 <= k < |items| ==> CleanLine(items[k])
    ensures forall k :: 0 <= k < |items| ==> CleanLine(NumberedLines(items, i)[k])
  {
    forall k | 0 <= k < |items| ensures CleanLine(NumberedLines(items, i)[k]) {
      NumberedLineClean(i + k, items[k]);
    }
  }

  lemma NumberedLinesRead(items: seq<string>, i: nat)
    requires forall k :: 0 <= k < |items| ==> CleanLine(items[k])
    ensures DeNumberAll(NumberedLines(items, i)) == items
  {
    forall k | 0 <= k < |items| ensures DeNumberAll(NumberedLines(items, i))[k] == items[k] {
      DeNumberLine(i + k, items[k]);
    }
  }

  /** The bullet lines of clean items are clean and de-bullet to the items. */
  lemma BulletBody(items: seq<string>)
    requires forall k :: 0 <= k < |items| ==> CleanLine(items[k])
    ensures forall k :: 0 <= k < |items| ==> CleanLine(BulletLines(items)[k])
    ensures Render(Bulleted, BulletLines(items)) == Items(items)
  {
    BulletLinesClean(items);
    DeBulletLines(items);
  }

  /** The numbered lines of clean items are clean and de-number to the items. */
  lemma NumberedBody(items: seq<string>)
    requires forall k :: 0 <= k < |items| ==> CleanLine(items[k])
    ensures forall k :: 0 <= k < |items| ==> CleanLine(NumberedLines(items, 1)[k])
    ensures Render(Numbered, NumberedLines(items, 1)) == Items(items)
  {
    NumberedLinesClean(items, 1);
    NumberedLinesRead(items, 1);
  }

  lemma BulletText(m: nat, name: string, items: seq<string>)
    ensures SectionHead(m, name) + BulletList(items) == SectionText(m, name, BulletLines(items))
  {
    BulletListJoin(items);
  }

  lemma NumberedText(m: nat, name: string, items: seq<string>)
    ensures SectionHead(m, name) + NumberedList(items, 1) == SectionText(m, name, NumberedLines(items, 1))
  {
    NumberedListJoin(items, 1);
  }

  /** A bullet list rendered under a heading whose label is read as bullets
      reads back as its items. */
  lemma BulletRoundTrip(m: nat, name: string, items: seq<string>)
    ensures HeadingName(name) && LayoutOf(name) == Bulleted && CleanLines(items) ==>
              ExtractSection(SectionHead(m, name) + BulletList(items), name) == Items(items)
  {
    if CleanLines(items) {
      BulletBody(items);
      ExtractRendered(m, name, BulletLines(items));
      BulletText(m, name, items);
    }
  }

  /** A numbered list rendered under a heading whose label is read as
      numbered lines reads back as its items. */
  lemma NumberedRoundTrip(m: nat, name: string, items: seq<string>)
    ensures HeadingName(name) && LayoutOf(name) == Numbered && CleanLines(items) ==>
              ExtractSection(SectionHead(m, name) + NumberedList(items, 1), name) == Items(items)
  {
    if CleanLines(items) {
      NumberedBody(items);
      ExtractRendered(m, name, NumberedLines(items, 1));
      NumberedText(m, name, items);
    }
  }

  /** Core claims rendered as bullets read back as the same list. */
  lemma ClaimsRoundTrip(items: seq<string>)
    requires CleanLines(items)
    ensures ExtractSection(ClaimsHeading + BulletList(items), CoreClaimsLabel) == Items(items)
  {
    ClaimsLabelIsBulleted();
    BulletRoundTrip(0, CoreClaimsLabel, items);
    ClaimsHeadingShape();
  }

  /** Red flags rendered as bullets read back as the same list. */
  lemma RedFlagsRoundTrip(items: seq<string>)
    requires CleanLines(items)
    ensures ExtractSection(FlagsHeading + BulletList(items), RedFlagsLabel) == Items(items)
  {
    RedFlagsLabelIsBulleted();
    BulletRoundTrip(2, RedFlagsLabel, items);
    FlagsHeadingShape();
  }

  /** Verification questions rendered as a numbered list read back as the
      same questions. */
  lemma QuestionsRoundTrip(items: seq<string>)
    requires CleanLines(items)
    ensures ExtractSection(QuestionsHeading + NumberedList(items, 1), QuestionLabel) == Items(items)
  {
    QuestionLabelIsNumbered();
    NumberedRoundTrip(1, QuestionLabel, items);
    QuestionsHeadingShape();
  }
}
