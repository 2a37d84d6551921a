/** `analyze_source_credibility`: three or four fixed credibility factors,
    the number of citation patterns the content matches, and the domain.

    The regular-expression search (`re.search(pattern, content,
    re.IGNORECASE)`) and the domain (`urlparse(url).netloc`) are inputs. */
module Credibility {
  import opened Strings
  import opened Types

  /** Whether `re.search(pattern, text, re.IGNORECASE)` finds a match. */
  type Search = (string, string) -> bool

  /** The six citation patterns, in the order they are tried. */
  const CitationPatterns: seq<string> :=
    [ "according to [A-Z][a-z]+", "cited [A-Z][a-z]+", "reported by",
      "study (by|from|in)", "research (by|from|in)", "source[s]?:" ]

  const AuthorFactor: string := "Article identifies its author"
  const NoAuthorFactor: string := "Article does not identify an author"
  const DateFactor: string := "Article includes a publication date"
  const NoDateFactor: string := "Article does not include a publication date"
  const MultipleCitationsFactor: string := "Article cites multiple sources"
  const SomeCitationsFactor: string := "Article includes some citations"
  const NoCitationsFactor: string := "Article does not appear to cite sources"
  const BriefFactor: string := "Article is very brief, which may limit comprehensive coverage"

  /** Content shorter than this is called very brief. */
  const BriefLimit: nat := 1000

  /** More citations than this count as multiple sources. */
  const MultipleThreshold: nat := 3

  // ---------------------------------------------------------------------
  // Counting the patterns that match
  // ---------------------------------------------------------------------

  /** The number of patterns from index `i` on with at least one match. */
  function CountFrom(patterns: seq<string>, search: Search, content: string, i: nat): (n: nat)
    ensures i <= |patterns| ==> n <= |patterns| - i
    ensures n == 0 <==> forall k :: i <= k < |patterns| ==> !search(patterns[k], content)
    decreases |patterns| - i
  {
    if i >= |patterns| then 0
    else (if search(patterns[i], content) then 1 else 0) + CountFrom(patterns, search, content, i + 1)
  }

  /** The indices, from `i` on, of the patterns that match. */
  ghost function MatchedFrom(patterns: seq<string>, search: Search, content: string, i: nat): set<nat> {
    set k: nat | i <= k < |patterns| && search(patterns[k], content)
  }

  /** The count is exactly the number of patterns that match. */
  lemma {:induction false} CountIsMatched(patterns: seq<string>, search: Search, content: string, i: nat)
    ensures CountFrom(patterns, search, content, i) == |MatchedFrom(patterns, search, content, i)|
    decreases |patterns| - i
  {
    if i < |patterns| {
      CountIsMatched(patterns, search, content, i + 1);
      var rest := MatchedFrom(patterns, search, content, i + 1);
      var here: set<nat> := if search(patterns[i], content) then {i} else {};
      assert MatchedFrom(patterns, search, content, i) == here + rest;
      assert i !in rest;
    } else {
      assert MatchedFrom(patterns, search, content, i) == {};
    }
  }

  /** The count depends on the content only through which patterns match. */
  lemma {:induction false} CountAgrees(patterns: seq<string>, search: Search, c1: string, c2: string, i: nat)
    requires forall k :: 0 <= k < |patterns| ==> search(patterns[k], c1) == search(patterns[k], c2)
    ensures CountFrom(patterns, search, c1, i) == CountFrom(patterns, search, c2, i)
    decreases |patterns| - i
  {
    if i < |patterns| {
      CountAgrees(patterns, search, c1, c2, i + 1);
    }
  }

  /** `citation_count`. */
  function CitationCount(content: string, search: Search): nat {
    CountFrom(CitationPatterns, search, content, 0)
  }

  // ---------------------------------------------------------------------
  // The factors
  // ---------------------------------------------------------------------

  function CitationFactor(count: nat): string {
    if count > MultipleThreshold then MultipleCitationsFactor
    else if count > 0 then SomeCitationsFactor
    else NoCitationsFactor
  }

  /** `analyze_source_credibility(url, article_data)`, with `domain` standing
      for the network location of `url`. */
  function AnalyzeSourceCredibility(article: Article, domain: string, search: Search): (r: CredibilityInfo)
    ensures r.domain == domain
    ensures r.citationCount <= |CitationPatterns|
    ensures r.citationCount == 0 <==>
              forall k :: 0 <= k < |CitationPatterns| ==> !search(CitationPatterns[k], article.content)
    ensures |r.factors| == if |article.content| < BriefLimit then 4 else 3
    ensures r.factors[0] == AuthorFactor <==> article.author.Some?
    ensures r.factors[0] == NoAuthorFactor <==> article.author.None?
    ensures r.factors[1] == DateFactor <==> article.date.Some?
    ensures r.factors[1] == NoDateFactor <==> article.date.None?
    ensures r.factors[2] == MultipleCitationsFactor <==> r.citationCount > MultipleThreshold
    ensures r.factors[2] == SomeCitationsFactor <==> 0 < r.citationCount <= MultipleThreshold
    ensures r.factors[2] == NoCitationsFactor <==> r.citationCount == 0
    ensures |article.content| < BriefLimit ==> r.factors[3] == BriefFactor
  {
    var count := CitationCount(article.content, search);
    var authorship := if article.author.Some? then AuthorFactor else NoAuthorFactor;
    var dating := if article.date.Some? then DateFactor else NoDateFactor;
    var brevity := if |article.content| < BriefLimit then [BriefFactor] else [];
    CredibilityInfo([authorship, dating, CitationFactor(count)] + brevity, count, domain)
  }

  /** The links in the content, and everything else about it beyond its
      length and which patterns it matches, leave the result unchanged. */
  lemma OnlyPresenceLengthAndMatchesCount(a1: Article, a2: Article, domain: string, search: Search)
    requires a1.author.Some? == a2.author.Some? && a1.date.Some? == a2.date.Some?
    requires |a1.content| == |a2.content|
    requires forall k :: 0 <= k < |CitationPatterns| ==>
               search(CitationPatterns[k], a1.content) == search(CitationPatterns[k], a2.content)
    ensures AnalyzeSourceCredibility(a1, domain, search) == AnalyzeSourceCredibility(a2, domain, search)
  {
    CountAgrees(CitationPatterns, search, a1.content, a2.content, 0);
  }

  /** The citation count is the number of patterns with a match. */
  lemma CitationCountIsMatched(article: Article, domain: string, search: Search)
    ensures AnalyzeSourceCredibility(article, domain, search).citationCount
            == |MatchedFrom(CitationPatterns, search, article.content, 0)|
  {
    CountIsMatched(CitationPatterns, search, article.content, 0);
  }
}
