/** The selection logic of the comparative analyser: the search terms taken
    from a title, the choice of related articles among the links of a news
    search page, and the first branches of the perspective comparison.

    Fetching the search page and parsing it into links, fetching the
    related articles and the language-model call are inputs. */
module Comparative {
  import opened Wrappers
  import opened Strings
  import opened Types

  // ---------------------------------------------------------------------
  // extract_search_terms
  // ---------------------------------------------------------------------

  /** Words that never become search terms. */
  const CommonWords: seq<string> :=
    [ "the", "a", "an", "and", "or", "but", "is", "are", "was", "were", "in",
      "on", "at", "to", "for", "with", "by", "says", "said" ]

  /** At most this many keywords are joined into the search terms. */
  const KeywordLimit: nat := 4

  /** Keywords must be longer than this. */
  const MinKeywordLength: nat := 3

  /** `re.sub(r"[^\w\s]", " ", s)`: every character that is neither a word
      character nor whitespace becomes a space. */
  function Depunctuate(s: string): (r: string)
    ensures |r| == |s|
    ensures forall i :: 0 <= i < |s| ==> r[i] == (if IsWordChar(s[i]) || IsSpace(s[i]) then s[i] else ' ')
  {
    seq(|s|, i requires 0 <= i < |s| => if IsWordChar(s[i]) || IsSpace(s[i]) then s[i] else ' ')
  }

  predicate IsKeyword(w: string) {
    w !in CommonWords && |w| > MinKeywordLength
  }

  /** The words that are keywords, in their order. */
  function Keywords(words: seq<string>): (r: seq<string>)
    ensures |r| <= |words|
    ensures forall w :: w in r <==> w in words && IsKeyword(w)
    decreases |words|
  {
    if words == [] then []
    else
      var rest := Keywords(words[1..]);
      assert forall w :: w in words <==> w == words[0] || w in words[1..];
      if IsKeyword(words[0]) then [words[0]] + rest else rest
  }

  /** Filtering keeps the order: it distributes over concatenation. */
  lemma {:induction false} KeywordsAppend(a: seq<string>, b: seq<string>)
    ensures Keywords(a + b) == Keywords(a) + Keywords(b)
    decreases |a|
  {
    if a != [] {
      assert (a + b)[1..] == a[1..] + b;
      KeywordsAppend(a[1..], b);
    } else {
      assert a + b == b;
    }
  }

  /** The keywords of a title: lower-cased words of the depunctuated title. */
  function TitleKeywords(title: string): seq<string> {
    Keywords(Words(Lower(Depunctuate(title))))
  }

  function Take(ws: seq<string>, n: nat): (r: seq<string>)
    ensures |r| == if |ws| < n then |ws| else n
    ensures r == ws[..|r|]
  {
    if |ws| <= n then ws else ws[..n]
  }

  /** `extract_search_terms(article_data)`. */
  function ExtractSearchTerms(article: Article): string {
    Join(Take(TitleKeywords(article.title), KeywordLimit), " ")
  }

  /** A character search terms may hold: a word character, not upper case. */
  predicate TermChar(c: char) {
    IsWordChar(c) && !IsUpper(c)
  }

  /** A word made only of term characters. */
  predicate TermWord(w: string) {
    forall j :: 0 <= j < |w| ==> TermChar(w[j])
  }

  /** A text whose every character is whitespace or a term character. */
  predicate TermText(s: string) {
    forall i :: 0 <= i < |s| ==> IsSpace(s[i]) || TermChar(s[i])
  }

  /** After depunctuating and lower-casing, every character is whitespace
      or a term character. */
  lemma CleanedChars(title: string)
    ensures TermText(Lower(Depunctuate(title)))
  {
  }

  /** A run of non-space characters of a term text is a term word. */
  lemma TokenIsTermWord(s: string, a: nat, b: nat)
    requires TermText(s) && a <= b <= |s|
    requires forall i :: a <= i < b ==> !IsSpace(s[i])
    ensures TermWord(s[a..b])
  {
    forall j | 0 <= j < b - a ensures TermChar(s[a..b][j]) {
      assert s[a..b][j] == s[a + j];
    }
  }

  /** A suffix of a term text is a term text. */
  lemma SuffixIsTermText(s: string, b: nat)
    requires TermText(s) && b <= |s|
    ensures TermText(s[b..])
  {
    forall i | 0 <= i < |s| - b ensures IsSpace(s[b..][i]) || TermChar(s[b..][i]) {
      assert s[b..][i] == s[b + i];
    }
  }

  /** Every word of a term text is a term word. */
  lemma {:induction false} WordsOfTermChars(s: string)
    requires TermText(s)
    ensures forall k :: 0 <= k < |Words(s)| ==> TermWord(Words(s)[k])
    decreases |s|
  {
    var a := SkipSpaces(s, 0);
    if a < |s| {
      var b := SkipToken(s, a);
      TokenIsTermWord(s, a, b);
      SuffixIsTermText(s, b);
      WordsNext(s, a, b, s[a..b], s[b..]);
      WordsOfTermChars(s[b..]);
    }
  }

  /** Splitting the search terms gives back the first four keywords of the
      title, each a keyword made of lower-case word characters. */
  lemma SearchTermsRoundTrip(article: Article)
    ensures Words(ExtractSearchTerms(article)) == Take(TitleKeywords(article.title), KeywordLimit)
    ensures |Words(ExtractSearchTerms(article))| <= KeywordLimit
    ensures forall k :: 0 <= k < |Words(ExtractSearchTerms(article))| ==>
              IsKeyword(Words(ExtractSearchTerms(article))[k]) && TermWord(Words(ExtractSearchTerms(article))[k])
  {
    var s := Lower(Depunctuate(article.title));
    var ks := TitleKeywords(article.title);
    var first := Take(ks, KeywordLimit);
    var ws := Words(s);
    assert AllWords(ws);
    CleanedChars(article.title);
    WordsOfTermChars(s);
    forall k | 0 <= k < |first| ensures first[k] != [] && NoSpace(first[k]) && IsKeyword(first[k]) && TermWord(first[k]) {
      assert first[k] in ks;
      assert first[k] in ws;
    }
    WordsJoin(first);
  }

  /** An empty title gives empty search terms. */
  lemma EmptyTitleNoTerms(article: Article)
    requires article.title == []
    ensures ExtractSearchTerms(article) == []
  {
    assert Depunctuate([]) == [];
    assert Lower([]) == [];
    assert SkipSpaces([], 0) == 0;
  }

  // ---------------------------------------------------------------------
  // find_related_articles
  // ---------------------------------------------------------------------

  /** One `a[href^='./articles/']` element of the search page: its href, the
      text of its `h3` element and of its `div[data-n-tid]` element, when
      present. */
  datatype Link = Link(href: string, heading: Option<string>, sourceText: Option<string>)

  const ArticlesPath: string := "./articles/"
  const ArticlesBase: string := "https://news.google.com/articles/"
  const UnknownSource: string := "Unknown"

  /** The default number of related articles. */
  const DefaultMaxArticles: int := 3

  /** The absolute address of a link: every "./articles/" removed from the
      href, appended to the articles base. */
  function ArticleUrl(href: string): string {
    ArticlesBase + Replace(href, ArticlesPath, "")
  }

  function SourceName(link: Link): string {
    match link.sourceText
    case Some(t) => Strip(t)
    case None => UnknownSource
  }

  /** The domain of the article url: "" for an empty url, otherwise the
      third "/"-separated part; `None` when there is none, where indexing
      raises and the search gives up. */
  function CurrentDomain(url: string): (r: Option<string>)
    ensures url == [] ==> r == Some([])
    ensures url != [] ==> (r.Some? <==> |Split(url, "/")| >= 3)
    ensures r.Some? ==> '/' !in r.value
  {
    if url == [] then Some([])
    else
      var parts := Split(url, "/");
      if |parts| >= 3 then
        ContainsChar(parts[2], '/');
        Some(parts[2])
      else None
  }

  /** The domain of "scheme://host/path" is the host. */
  lemma CurrentDomainOfUrl(scheme: string, host: string, rest: string)
    requires '/' !in scheme && '/' !in host
    requires rest == [] || rest[0] == '/'
    ensures CurrentDomain(scheme + "//" + host + rest) == Some(host)
  {
    var url := scheme + "//" + host + rest;
    assert url == scheme + "//" + (host + rest);
    SplitTwoSlashes(scheme, host + rest);
    SplitHost(host, rest);
    assert url != [] by {
      assert url[|scheme|] == '/';
    }
  }

  /** "scheme//" splits into the scheme and an empty part before the rest. */
  lemma SplitTwoSlashes(scheme: string, tail: string)
    requires '/' !in scheme
    ensures Split(scheme + "//" + tail, "/") == [scheme, []] + Split(tail, "/")
  {
    assert scheme + "//" + tail == scheme + ['/'] + ("/" + tail);
    SplitCons(scheme, '/', "/" + tail);
    assert "/" + tail == [] + ['/'] + tail;
    SplitCons([], '/', tail);
  }

  /** A host followed by nothing or by a path starts the split with the host. */
  lemma SplitHost(host: string, rest: string)
    requires '/' !in host
    requires rest == [] || rest[0] == '/'
    ensures Split(host + rest, "/")[0] == host
  {
    if rest == [] {
      assert host + rest == host;
      NoCharNoFind(host, '/');
    } else {
      assert host + rest == host + ['/'] + rest[1..];
      SplitCons(host, '/', rest[1..]);
    }
  }

  /** The link's source name belongs to the article's own domain. */
  predicate SameSource(domain: string, source: string) {
    Contains(Lower(source), Lower(domain))
  }

  function Titles(r: seq<RelatedArticle>): seq<string> {
    seq(|r|, k requires 0 <= k < |r| => r[k].title)
  }

  /** The article a link becomes when it is taken. */
  predicate Yields(link: Link, x: RelatedArticle) {
    && link.heading.Some?
    && x.title == Strip(link.heading.value)
    && x.url == ArticleUrl(link.href)
    && x.source == SourceName(link)
  }

  /** The selection loop over `links`, with room for `room` more articles and
      the titles in `seen` already taken. */
  function SelectLinks(links: seq<Link>, domain: string, room: int, seen: set<string>): (r: seq<RelatedArticle>)
    ensures |r| <= if room < 0 then 0 else room
    ensures forall k :: 0 <= k < |r| ==> r[k].title !in seen
    ensures forall i, j :: 0 <= i < j < |r| ==> r[i].title != r[j].title
    ensures forall k :: 0 <= k < |r| ==> StartsWith(r[k].url, ArticlesBase) && !SameSource(domain, r[k].source)
    decreases |links|
  {
    if room <= 0 || links == [] then []
    else
      var link := links[0];
      if link.heading.None? then SelectLinks(links[1..], domain, room, seen)
      else
        var title := Strip(link.heading.value);
        if title in seen then SelectLinks(links[1..], domain, room, seen)
        else
          var source := SourceName(link);
          if SameSource(domain, source) then SelectLinks(links[1..], domain, room, seen)
          else
            var x := RelatedArticle(title, ArticleUrl(link.href), source);
            assert StartsWith(x.url, ArticlesBase) by {
              assert x.url[..|ArticlesBase|] == ArticlesBase;
            }
            [x] + SelectLinks(links[1..], domain, room - 1, seen + {title})
  }

  /** The loop keeps a link: it has a title element, its title is not
      taken yet, and its source lies outside the article's domain. */
  predicate Taken(link: Link, domain: string, seen: set<string>) {
    link.heading.Some? && Strip(link.heading.value) !in seen && !SameSource(domain, SourceName(link))
  }

  /** The dictionary the loop appends for a kept link. */
  function Item(link: Link): (x: RelatedArticle)
    requires link.heading.Some?
    ensures Yields(link, x)
  {
    RelatedArticle(Strip(link.heading.value), ArticleUrl(link.href), SourceName(link))
  }

  /** The titles of a result, as a set. */
  function TitleSet(r: seq<RelatedArticle>): (ts: set<string>)
    ensures forall k :: 0 <= k < |r| ==> r[k].title in ts
    decreases |r|
  {
    if r == [] then {} else {r[0].title} + TitleSet(r[1..])
  }

  /** A link the loop passes over changes nothing. */
  lemma SelectSkipped(links: seq<Link>, domain: string, room: int, seen: set<string>)
    requires room > 0 && links != [] && !Taken(links[0], domain, seen)
    ensures SelectLinks(links, domain, room, seen) == SelectLinks(links[1..], domain, room, seen)
  {
  }

  /** A kept link comes first, and the rest is chosen with one place and
      its title fewer. */
  lemma SelectTaken(links: seq<Link>, domain: string, room: int, seen: set<string>)
    requires room > 0 && links != [] && Taken(links[0], domain, seen)
    ensures SelectLinks(links, domain, room, seen)
            == [Item(links[0])] + SelectLinks(links[1..], domain, room - 1, seen + {Strip(links[0].heading.value)})
  {
  }

  /** One link gives its article when there is room and it is kept. */
  lemma SelectOne(link: Link, domain: string, room: int, seen: set<string>)
    ensures SelectLinks([link], domain, room, seen) == if room > 0 && Taken(link, domain, seen) then [Item(link)] else []
  {
    assert [link][1..] == [];
    if room > 0 {
      if Taken(link, domain, seen) {
        SelectTaken([link], domain, room, seen);
      } else {
        SelectSkipped([link], domain, room, seen);
      }
    }
  }

  /** The loop runs through the page in order: on `a + b` it first chooses
      from `a`, then continues on `b` with the places and titles left. */
  predicate InPageOrder(a: seq<Link>, b: seq<Link>, domain: string, room: int, seen: set<string>) {
    var r := SelectLinks(a, domain, room, seen);
    SelectLinks(a + b, domain, room, seen) == r + SelectLinks(b, domain, room - |r|, seen + TitleSet(r))
  }

  /** The selection on `a + b` is the selection on `a` followed by the
      selection on `b` with the places and titles left. So the results keep
      page order, and once the bound is reached within `a` nothing from `b`
      follows. */
  lemma SelectLinksAppend(a: seq<Link>, b: seq<Link>, domain: string, room: int, seen: set<string>)
    ensures var r := SelectLinks(a, domain, room, seen);
            SelectLinks(a + b, domain, room, seen) == r + SelectLinks(b, domain, room - |r|, seen + TitleSet(r))
  {
    PageOrder(a, b, domain, room, seen);
  }

  lemma {:induction false} PageOrder(a: seq<Link>, b: seq<Link>, domain: string, room: int, seen: set<string>)
    ensures InPageOrder(a, b, domain, room, seen)
    decreases |a|
  {
    if room <= 0 || a == [] {
      AppendDone(a, b, domain, room, seen);
    } else if Taken(a[0], domain, seen) {
      var t := Strip(a[0].heading.value);
      PageOrder(a[1..], b, domain, room - 1, seen + {t});
      AppendTakenStep(a, b, domain, room, seen, t);
    } else {
      PageOrder(a[1..], b, domain, room, seen);
      AppendSkippedStep(a, b, domain, room, seen);
    }
  }

  /** The base cases: no room, or nothing left of `a`. */
  lemma AppendDone(a: seq<Link>, b: seq<Link>, domain: string, room: int, seen: set<string>)
    requires room <= 0 || a == []
    ensures InPageOrder(a, b, domain, room, seen)
  {
    assert seen + {} == seen;
    if a == [] {
      assert a + b == b;
    }
  }

  /** The step past a kept first link with title `t`. */
  lemma AppendTakenStep(a: seq<Link>, b: seq<Link>, domain: string, room: int, seen: set<string>, t: string)
    requires room > 0 && a != [] && Taken(a[0], domain, seen) && t == Strip(a[0].heading.value)
    requires InPageOrder(a[1..], b, domain, room - 1, seen + {t})
    ensures InPageOrder(a, b, domain, room, seen)
  {
    var r' := SelectLinks(a[1..], domain, room - 1, seen + {t});
    var rest := SelectLinks(b, domain, room - 1 - |r'|, seen + {t} + TitleSet(r'));
    TakenFirst(a, b, domain, room, seen, t);
    var r := SelectLinks(a, domain, room, seen);
    Regroup(SelectLinks(a + b, domain, room, seen), r,
            SelectLinks(a[1..] + b, domain, room - 1, seen + {t}), Item(a[0]), r', rest);
    assert seen + {t} + TitleSet(r') == seen + TitleSet(r);
  }

  /** A kept first link heads both the selection on `a` and on `a + b`. */
  lemma TakenFirst(a: seq<Link>, b: seq<Link>, domain: string, room: int, seen: set<string>, t: string)
    requires room > 0 && a != [] && Taken(a[0], domain, seen) && t == Strip(a[0].heading.value)
    ensures SelectLinks(a + b, domain, room, seen) == [Item(a[0])] + SelectLinks(a[1..] + b, domain, room - 1, seen + {t})
    ensures SelectLinks(a, domain, room, seen) == [Item(a[0])] + SelectLinks(a[1..], domain, room - 1, seen + {t})
  {
    var c := a + b;
    assert c[0] == a[0];
    assert c[1..] == a[1..] + b;
    SelectTaken(c, domain, room, seen);
    SelectTaken(a, domain, room, seen);
  }

  /** `x` followed by `r'` and then `rest`, grouped either way. */
  lemma Regroup(whole: seq<RelatedArticle>, r: seq<RelatedArticle>, tail: seq<RelatedArticle>,
                x: RelatedArticle, r': seq<RelatedArticle>, rest: seq<RelatedArticle>)
    requires whole == [x] + tail && tail == r' + rest && r == [x] + r'
    ensures whole == r + rest && |r| == |r'| + 1 && TitleSet(r) == {x.title} + TitleSet(r')
  {
    assert r[1..] == r';
  }

  /** The step past a first link the loop passes over. */
  lemma AppendSkippedStep(a: seq<Link>, b: seq<Link>, domain: string, room: int, seen: set<string>)
    requires room > 0 && a != [] && !Taken(a[0], domain, seen)
    requires InPageOrder(a[1..], b, domain, room, seen)
    ensures InPageOrder(a, b, domain, room, seen)
  {
    var c := a + b;
    assert c[0] == a[0];
    assert c[1..] == a[1..] + b;
    SelectSkipped(c, domain, room, seen);
    SelectSkipped(a, domain, room, seen);
  }

  /** Some link yields `x`. */
  predicate FromLinks(links: seq<Link>, x: RelatedArticle) {
    exists i :: 0 <= i < |links| && Yields(links[i], x)
  }

  lemma FromTail(links: seq<Link>, x: RelatedArticle)
    requires links != [] && FromLinks(links[1..], x)
    ensures FromLinks(links, x)
  {
    var i :| 0 <= i < |links[1..]| && Yields(links[1..][i], x);
    assert links[i + 1] == links[1..][i];
  }

  lemma AllFromTail(links: seq<Link>, r: seq<RelatedArticle>)
    requires links != [] && forall k :: 0 <= k < |r| ==> FromLinks(links[1..], r[k])
    ensures forall k :: 0 <= k < |r| ==> FromLinks(links, r[k])
  {
    forall k | 0 <= k < |r| ensures FromLinks(links, r[k]) {
      FromTail(links, r[k]);
    }
  }

  /** Every selected article is what some link yields. */
  lemma {:induction false} SelectedFromLinks(links: seq<Link>, domain: string, room: int, seen: set<string>)
    ensures forall k :: 0 <= k < |SelectLinks(links, domain, room, seen)| ==>
              FromLinks(links, SelectLinks(links, domain, room, seen)[k])
    decreases |links|
  {
    var r := SelectLinks(links, domain, room, seen);
    if room > 0 && links != [] {
      var link := links[0];
      var title := if link.heading.Some? then Strip(link.heading.value) else [];
      var taken := link.heading.Some? && title !in seen && !SameSource(domain, SourceName(link));
      var room', seen' := if taken then room - 1 else room, if taken then seen + {title} else seen;
      var rest := SelectLinks(links[1..], domain, room', seen');
      var head := if taken then [RelatedArticle(title, ArticleUrl(link.href), SourceName(link))] else [];
      assert r == head + rest;
      SelectedFromLinks(links[1..], domain, room', seen');
      AllFromTail(links, rest);
      if taken {
        assert Yields(links[0], head[0]);
      }
      AllFromAppend(links, head, rest);
    }
  }

  /** Both parts of a result coming from the links make the whole. */
  lemma AllFromAppend(links: seq<Link>, a: seq<RelatedArticle>, b: seq<RelatedArticle>)
    requires forall k :: 0 <= k < |a| ==> FromLinks(links, a[k])
    requires forall k :: 0 <= k < |b| ==> FromLinks(links, b[k])
    ensures forall k :: 0 <= k < |a + b| ==> FromLinks(links, (a + b)[k])
  {
    forall k | 0 <= k < |a + b| ensures FromLinks(links, (a + b)[k]) {
      if k >= |a| {
        assert (a + b)[k] == b[k - |a|];
      }
    }
  }

  /** A link is eligible when it has a title element and a source outside
      the article's domain. */
  predicate Eligible(link: Link, domain: string) {
    link.heading.Some? && !SameSource(domain, SourceName(link))
  }

  /** Every eligible link's title is in `seen` or in `titles`. */
  predicate Covered(links: seq<Link>, domain: string, seen: set<string>, titles: seq<string>) {
    forall i :: 0 <= i < |links| && Eligible(links[i], domain) ==>
      Strip(links[i].heading.value) in seen || Strip(links[i].heading.value) in titles
  }

  /** When the result has room to spare, no eligible link was passed over:
      each eligible title was seen before or is among the results. */
  lemma {:induction false} SelectionComplete(links: seq<Link>, domain: string, room: int, seen: set<string>)
    ensures |SelectLinks(links, domain, room, seen)| < room ==>
              Covered(links, domain, seen, Titles(SelectLinks(links, domain, room, seen)))
    decreases |links|
  {
    var r := SelectLinks(links, domain, room, seen);
    if room > 0 && links != [] && |r| < room {
      var link := links[0];
      var title := if link.heading.Some? then Strip(link.heading.value) else [];
      var taken := link.heading.Some? && title !in seen && !SameSource(domain, SourceName(link));
      var room', seen' := if taken then room - 1 else room, if taken then seen + {title} else seen;
      var rest := SelectLinks(links[1..], domain, room', seen');
      var head := if taken then [RelatedArticle(title, ArticleUrl(link.href), SourceName(link))] else [];
      assert r == head + rest;
      SelectionComplete(links[1..], domain, room', seen');
      TitlesAppend(head, rest);
      if taken {
        assert Titles(r)[0] == title;
      }
      CoveredWeaken(links[1..], domain, seen', Titles(rest), seen, Titles(r));
      CoveredCons(links, domain, seen, Titles(r));
    }
  }

  lemma TitlesAppend(a: seq<RelatedArticle>, b: seq<RelatedArticle>)
    ensures Titles(a + b) == Titles(a) + Titles(b)
  {
  }

  /** Coverage survives moving titles from `seen` into the results. */
  lemma CoveredWeaken(links: seq<Link>, domain: string, s1: set<string>, t1: seq<string>,
                      s2: set<string>, t2: seq<string>)
    requires Covered(links, domain, s1, t1)
    requires forall x :: x in s1 ==> x in s2 || x in t2
    requires forall x :: x in t1 ==> x in t2
    ensures Covered(links, domain, s2, t2)
  {
  }

  /** The first link and the rest covered make the whole list covered. */
  lemma CoveredCons(links: seq<Link>, domain: string, seen: set<string>, titles: seq<string>)
    requires links != []
    requires Eligible(links[0], domain) ==> Strip(links[0].heading.value) in seen || Strip(links[0].heading.value) in titles
    requires Covered(links[1..], domain, seen, titles)
    ensures Covered(links, domain, seen, titles)
  {
    forall i | 0 < i < |links| && Eligible(links[i], domain)
      ensures Strip(links[i].heading.value) in seen || Strip(links[i].heading.value) in titles
    {
      assert links[i] == links[1..][i - 1];
    }
  }

  /** With an empty domain every source counts as the article's own. */
  lemma EmptyDomainSelectsNothing(links: seq<Link>, room: int, seen: set<string>)
    ensures SelectLinks(links, [], room, seen) == []
  {
    var r := SelectLinks(links, [], room, seen);
    if r != [] {
      assert Lower([]) == [];
      ContainsAt(Lower(r[0].source), [], 0);
    }
  }

  /** `find_related_articles(article_data, max_articles)`, with `page` the
      parsed links of the search page for `ExtractSearchTerms(article)`, or
      `None` when the request or the parse raised. */
  function FindRelatedArticles(article: Article, page: Option<seq<Link>>, maxArticles: int): (r: seq<RelatedArticle>)
    ensures |r| <= if maxArticles < 0 then 0 else maxArticles
    ensures forall i, j :: 0 <= i < j < |r| ==> r[i].title != r[j].title
    ensures page.None? ==> r == []
    ensures CurrentDomain(article.url).None? ==> r == []
  {
    match page
    case None => []
    case Some(links) =>
      match CurrentDomain(article.url)
      case None => []
      case Some(domain) => SelectLinks(links, domain, maxArticles, {})
  }

  /** An article without a url finds no related articles. */
  lemma NoUrlNoRelated(article: Article, page: Option<seq<Link>>, maxArticles: int)
    requires article.url == []
    ensures FindRelatedArticles(article, page, maxArticles) == []
  {
    if page.Some? {
      EmptyDomainSelectsNothing(page.value, maxArticles, {});
    }
  }

  // ---------------------------------------------------------------------
  // compare_article_perspectives
  // ---------------------------------------------------------------------

  /** The dictionary `compare_article_perspectives` returns. */
  datatype Comparison = Comparison(perspectiveAnalysis: string, relatedArticles: seq<RelatedArticle>)

  const NoRelatedMessage: string := "Unable to find related articles for comparison."
  const NoContentMessage: string := "Unable to fetch content from related articles."
  const NoKeyMessage: string := "API key not available for comparative analysis."
  const ComparisonErrorLead: string := "Error performing comparative analysis: "

  /** Some related article's content could be fetched. */
  predicate AnyFetched(related: seq<RelatedArticle>, fetched: string -> bool) {
    exists k :: 0 <= k < |related| && fetched(related[k].url)
  }

  /** `compare_article_perspectives(original_article, related_articles)`:
      `fetched` says whether an article's content could be fetched, `apiKey`
      is the environment's key, `setup` the message of the exception the
      `ChatGoogleGenerativeAI` constructor raises, if it raises, and `reply`
      the outcome of the model call. The constructor runs before the `try`
      that guards the call, so its exception escapes as a `Failure`. */
  function ComparePerspectives(related: seq<RelatedArticle>, fetched: string -> bool,
                               apiKey: Option<string>, setup: Option<string>,
                               reply: Outcome): (r: Result<Comparison>)
    ensures related == [] ==> r == Success(Comparison(NoRelatedMessage, []))
    ensures r.Failure? <==> AnyFetched(related, fetched) && apiKey.Some? && apiKey.value != [] && setup.Some?
    ensures r.Failure? ==> r.error == setup.value
    ensures r.Success? ==> r.value.relatedArticles == related
    ensures related != [] && (forall k :: 0 <= k < |related| ==> !fetched(related[k].url)) ==>
              r == Success(Comparison(NoContentMessage, related))
    ensures AnyFetched(related, fetched) && (apiKey.None? || apiKey.value == []) ==>
              r == Success(Comparison(NoKeyMessage, related))
    ensures AnyFetched(related, fetched) && apiKey.Some? && apiKey.value != [] && setup.None? && reply.Answered? ==>
              r == Success(Comparison(reply.content, related))
    ensures AnyFetched(related, fetched) && apiKey.Some? && apiKey.value != [] && setup.None? && reply.Raised? ==>
              r == Success(Comparison(ComparisonErrorLead + reply.message, related))
  {
    if related == [] then Success(Comparison(NoRelatedMessage, []))
    else if !AnyFetched(related, fetched) then Success(Comparison(NoContentMessage, related))
    else if apiKey.None? || apiKey.value == [] then Success(Comparison(NoKeyMessage, related))
    else if setup.Some? then Failure(setup.value)
    else
      match reply
      case Answered(content) => Success(Comparison(content, related))
      case Raised(message) => Success(Comparison(ComparisonErrorLead + message, related))
  }
}
