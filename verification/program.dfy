/** The command-line driver: where the article comes from, the early exit
    without one, and where the report is written.

    Fetching, reading files, the prompt, the analysis calls and the
    network location of the url are inputs. */
module Program {
  import opened Wrappers
  import opened Strings
  import opened Types
  import ArticleFetcher
  import Credibility
  import ContentAnalyzer
  import Report

  const ReportsDir: string := "analysis_reports"
  const ReportSuffix: string := ".md"

  /** At most this many title characters make up a file name. */
  const SafeTitleLimit: nat := 50

  /** The file name stem for a title: its first fifty characters, each kept
      when alphanumeric and replaced by '_' otherwise. */
  function SafeTitle(title: string): (r: string)
    ensures |r| == if |title| < SafeTitleLimit then |title| else SafeTitleLimit
    ensures forall i :: 0 <= i < |r| ==> IsAlnum(r[i]) || r[i] == '_'
    ensures forall i :: 0 <= i < |r| && IsAlnum(title[i]) ==> r[i] == title[i]
    ensures forall i :: 0 <= i < |r| && !IsAlnum(title[i]) ==> r[i] == '_'
  {
    var n := if |title| < SafeTitleLimit then |title| else SafeTitleLimit;
    seq(n, i requires 0 <= i < n => if IsAlnum(title[i]) then title[i] else '_')
  }

  /** A file name stem already safe comes back unchanged, so the
      derivation is idempotent. */
  lemma SafeTitleIdempotent(title: string)
    ensures SafeTitle(SafeTitle(title)) == SafeTitle(title)
  {
    var s := SafeTitle(title);
    var t := SafeTitle(s);
    forall i | 0 <= i < |s| ensures t[i] == s[i] {
      if !IsAlnum(s[i]) {
        assert s[i] == '_';
      }
    }
  }

  /** A short alphanumeric title is its own file name stem. */
  lemma SafeTitleOfSafeName(title: string)
    requires |title| <= SafeTitleLimit
    requires forall i :: 0 <= i < |title| ==> IsAlnum(title[i])
    ensures SafeTitle(title) == title
  {
  }

  /** The report path: a non-empty `--output` as given, otherwise the safe
      title with ".md" inside the reports directory. */
  function OutputPath(output: Option<string>, title: string): (r: string)
    ensures output.Some? && output.value != [] ==> r == output.value
  {
    if output.Some? && output.value != [] then output.value
    else ReportsDir + "/" + SafeTitle(title) + ReportSuffix
  }

  /** Without `--output` the report lands directly in the reports directory,
      named after the safe title. */
  lemma DefaultPathInReports(output: Option<string>, title: string)
    requires output.None? || output.value == []
    ensures StartsWith(OutputPath(output, title), ReportsDir + "/")
    ensures ArticleFetcher.Basename(OutputPath(output, title)) == SafeTitle(title) + ReportSuffix
  {
    var name := SafeTitle(title) + ReportSuffix;
    var p := OutputPath(output, title);
    assert p == (ReportsDir + "/") + name;
    assert p[..|ReportsDir + "/"|] == ReportsDir + "/";
    assert '/' !in name by {
      forall i | 0 <= i < |name| ensures name[i] != '/' {
        if i < |SafeTitle(title)| {
          assert name[i] == SafeTitle(title)[i];
        } else {
          assert name[i] == ReportSuffix[i - |SafeTitle(title)|];
        }
      }
    }
    BasenameOfName(ReportsDir + "/", name);
  }

  /** The base name of a directory path ending in '/' followed by a name
      without '/' is that name. */
  lemma {:induction false} BasenameOfName(dir: string, name: string)
    requires dir != [] && dir[|dir| - 1] == '/'
    requires '/' !in name
    ensures ArticleFetcher.Basename(dir + name) == name
    decreases |name|
  {
    var p := dir + name;
    if name == [] {
      assert p == dir;
    } else {
      var init := name[..|name| - 1];
      assert p[..|p| - 1] == dir + init;
      assert p[|p| - 1] == name[|name| - 1];
      BasenameOfName(dir, init);
      assert init + [name[|name| - 1]] == name;
    }
  }

  // ---------------------------------------------------------------------
  // The run
  // ---------------------------------------------------------------------

  /** How a run ends: it exits for want of an article, stops with an error,
      or writes `report` to `path`. */
  datatype Ending = NoArticle | Stopped(message: string) | Written(path: string, report: string)

  /** One run of the program. `fetched` is the article fetched from the url,
      `local` the one read from the local file (consulted only when the
      fetch gave nothing), `domain` the network location of the url. */
  function Run(fetched: Option<Article>, local: Option<Article>, domain: string,
               search: Credibility.Search, apiKey: Option<string>, oracle: ContentAnalyzer.Oracle,
               parse: string -> Option<Analysis>, output: Option<string>): (r: Ending)
    ensures r.NoArticle? <==> fetched.None? && local.None?
    ensures r.Stopped? ==> r.message == ContentAnalyzer.MissingKeyMessage
  {
    var source := if fetched.Some? then fetched else local;
    match source
    case None => NoArticle
    case Some(article) =>
      var info := Credibility.AnalyzeSourceCredibility(article, domain, search);
      match ContentAnalyzer.AnalyzeArticle(apiKey, article, oracle, parse)
      case Failure(message) => Stopped(message)
      case Success(analysis) =>
        Written(OutputPath(output, article.title), Report.GenerateMarkdownReport(article, analysis, Some(info)))
  }

  /** With an article and an analysis, the run writes that article's
      report to the output path: the fetched article when there is one and
      the local one otherwise. The report starts with the article's title
      and ends with its credibility factors. */
  lemma WrittenReportAbout(fetched: Option<Article>, local: Option<Article>, domain: string,
                           search: Credibility.Search, apiKey: Option<string>, oracle: ContentAnalyzer.Oracle,
                           parse: string -> Option<Analysis>, output: Option<string>,
                           article: Article, analysis: Analysis)
    requires fetched == Some(article) || (fetched.None? && local == Some(article))
    requires ContentAnalyzer.AnalyzeArticle(apiKey, article, oracle, parse) == Success(analysis)
    ensures Run(fetched, local, domain, search, apiKey, oracle, parse, output).Written?
    ensures Run(fetched, local, domain, search, apiKey, oracle, parse, output).path == OutputPath(output, article.title)
    ensures StartsWith(Run(fetched, local, domain, search, apiKey, oracle, parse, output).report,
                       Report.TitleLead + article.title + Report.ParaBreak)
    ensures EndsWith(Run(fetched, local, domain, search, apiKey, oracle, parse, output).report,
                     Report.CredibilityHeading
                     + Report.BulletList(Credibility.AnalyzeSourceCredibility(article, domain, search).factors))
  {
    var info := Credibility.AnalyzeSourceCredibility(article, domain, search);
    var report := Report.GenerateMarkdownReport(article, analysis, Some(info));
    assert Run(fetched, local, domain, search, apiKey, oracle, parse, output)
           == Written(OutputPath(output, article.title), report);
    Report.CredibilityLast(article, analysis, info);
    ReportTitleLine(article, analysis, info);
  }

  lemma ReportTitleLine(article: Article, analysis: Analysis, info: CredibilityInfo)
    ensures StartsWith(Report.GenerateMarkdownReport(article, analysis, Some(info)),
                       Report.TitleLead + article.title + Report.ParaBreak)
  {
    var head := Report.TitleLead + article.title + Report.ParaBreak;
    var full := head + Report.SourceLead + article.url + Report.ParaBreak;
    assert full[..|head|] == head;
  }
}
