/** `read_article_from_file`: the title/content split of a local article
    file, once its text has been read. */
module ArticleFetcher {
  import opened Wrappers
  import opened Strings
  import opened Types

  const LocalScheme: string := "local://"

  /** `os.path.basename(p)`: the longest suffix of `p` without a '/'. */
  function Basename(p: string): (r: string)
    ensures '/' !in r
    ensures EndsWith(p, r)
    ensures |r| < |p| ==> p[|p| - |r| - 1] == '/'
    decreases |p|
  {
    if p == [] || p[|p| - 1] == '/' then []
    else
      var r := Basename(p[..|p| - 1]) + [p[|p| - 1]];
      assert p[|p| - |r|..] == p[..|p| - 1][|p| - |r|..] + [p[|p| - 1]];
      r
  }

  /** The first line of a text: everything before its first line break. */
  function FirstLine(text: string): string {
    Split(text, "\n")[0]
  }

  /** The article `read_article_from_file(path)` returns when the file holds
      `text`; `None` stands for a file that could not be opened or read. */
  function ReadArticleFromFile(path: string, text: Option<string>): (r: Option<Article>)
    ensures text.None? <==> r.None?
    ensures r.Some? ==> r.value.url == LocalScheme + path && r.value.author.None? && r.value.date.None?
    ensures r.Some? && Strip(FirstLine(text.value)) == [] ==>
              r.value.title == Basename(path) && r.value.content == text.value
    ensures r.Some? && Strip(FirstLine(text.value)) != [] ==> r.value.title == Strip(FirstLine(text.value))
  {
    match text
    case None => None
    case Some(t) =>
      var lines := Split(t, "\n");
      var first := Strip(lines[0]);
      var title := if first != [] then first else Basename(path);
      var content := if first != [] then Join(lines[1..], "\n") else t;
      Some(Article(title, content, LocalScheme + path, None, None))
  }

  /** A text is its first line, then (when it has a line break) a line
      break and the lines after it. */
  lemma FirstLineSplit(t: string)
    ensures '\n' !in t ==> Split(t, "\n") == [t]
    ensures '\n' in t ==> t == FirstLine(t) + "\n" + Join(Split(t, "\n")[1..], "\n")
  {
    var lines := Split(t, "\n");
    JoinSplit(t, "\n");
    if '\n' !in t {
      NoCharNoFind(t, '\n');
    } else if |lines| == 1 {
      assert t == lines[0];
      ContainsChar(t, '\n');
      assert false;
    } else {
      assert Join(lines, "\n") == lines[0] + "\n" + Join(lines[1..], "\n");
    }
  }

  /** When the first line holds the title, the content is the rest of the
      text after the first line break, and empty when there is none. */
  lemma TitleLineRemoved(path: string, t: string)
    requires Strip(FirstLine(t)) != []
    ensures var a := ReadArticleFromFile(path, Some(t)).value;
            && ('\n' in t ==> t == FirstLine(t) + "\n" + a.content)
            && ('\n' !in t ==> a.content == [])
  {
    FirstLineSplit(t);
  }

  /** The content is always a suffix of the text. */
  lemma ContentIsSuffix(path: string, t: string)
    ensures EndsWith(t, ReadArticleFromFile(path, Some(t)).value.content)
  {
    var c := ReadArticleFromFile(path, Some(t)).value.content;
    FirstLineSplit(t);
    if Strip(FirstLine(t)) != [] && '\n' in t {
      var p := FirstLine(t) + "\n";
      assert t == p + c;
      assert t[|t| - |c|..] == c;
    } else if c != t {
      assert c == [];
    }
  }
}
