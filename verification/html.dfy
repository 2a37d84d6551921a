/** `convert_markdown_to_html`: bold markers, then one of three line-based
    modes: a numbered list, a bullet list, or plain paragraphs. The result
    is built as a list of output lines joined with "\n"; the lemmas speak
    about that list. */
module Html {
  import opened Wrappers
  import opened Strings

  // ---------------------------------------------------------------------
  // Bold: re.sub(r"\*\*(.*?)\*\*", r"<strong>\1</strong>", text)
  // ---------------------------------------------------------------------

  const StrongOpen: string := "<strong>"
  const StrongClose: string := "</strong>"

  /** `s` holds "**" at index `j`. */
  predicate StarsAt(s: string, j: nat) {
    j + 1 < |s| && s[j] == '*' && s[j + 1] == '*'
  }

  /** The closing "**" of a bold span whose text starts at `j`: the first
      "**" at or after `j`, provided no line break comes before it. */
  function CloseFrom(s: string, j: nat): (r: Option<nat>)
    requires j <= |s|
    ensures r.Some? ==> j <= r.value && StarsAt(s, r.value)
    decreases |s| - j
  {
    if j + 1 >= |s| then None
    else if StarsAt(s, j) then Some(j)
    else if s[j] == '\n' then None
    else CloseFrom(s, j + 1)
  }

  /** The "**" `CloseFrom` finds has neither a line break nor another "**"
      before it, and it finds none only when every later "**" lies past a
      line break. */
  lemma {:induction false} CloseFromMeaning(s: string, j: nat)
    requires j <= |s|
    ensures CloseFrom(s, j).Some? ==>
              forall m :: j <= m < CloseFrom(s, j).value ==> s[m] != '\n' && !StarsAt(s, m)
    ensures CloseFrom(s, j).None? ==>
              forall m :: j <= m < |s| && StarsAt(s, m) ==> exists n :: j <= n < m && s[n] == '\n'
    decreases |s| - j
  {
    if j + 1 < |s| && !StarsAt(s, j) && s[j] != '\n' {
      CloseFromMeaning(s, j + 1);
    }
  }

  /** `<strong>x</strong>`. */
  function Strong(x: string): string {
    StrongOpen + x + StrongClose
  }

  /** The substitution: a "**" opens a bold span when a closing "**"
      follows on the same line; the scan then resumes after the span. A "**"
      without a partner, and any other character, is copied. */
  function Bold(s: string): string
    decreases |s|
  {
    if s == [] then []
    else if StarsAt(s, 0) then
      match CloseFrom(s, 2)
      case Some(p) => Strong(s[2..p]) + Bold(s[p + 2..])
      case None => [s[0]] + Bold(s[1..])
    else [s[0]] + Bold(s[1..])
  }

  /** Text without "**" is left as it is. */
  lemma {:induction false} BoldIdentity(s: string)
    requires forall m :: 0 <= m < |s| ==> !StarsAt(s, m)
    ensures Bold(s) == s
    decreases |s|
  {
    if s != [] {
      forall m | 0 <= m < |s| - 1 ensures !StarsAt(s[1..], m) {
        assert !StarsAt(s, m + 1);
      }
      BoldIdentity(s[1..]);
      assert s == [s[0]] + s[1..];
    }
  }

  /** A single pair of markers around star-free text on one line becomes a
      `strong` element; what follows is converted on its own. */
  lemma BoldSpan(x: string, rest: string)
    requires '*' !in x && '\n' !in x
    ensures Bold("**" + x + "**" + rest) == Strong(x) + Bold(rest)
  {
    var s := "**" + x + "**" + rest;
    var p := 2 + |x|;
    assert StarsAt(s, 0);
    assert StarsAt(s, p);
    forall m | 2 <= m < p ensures s[m] != '\n' && !StarsAt(s, m) {
      assert s[m] == x[m - 2];
    }
    CloseFromFinds(s, 2, p);
    assert s[2..p] == x;
    assert s[p + 2..] == rest;
  }

  /** `CloseFrom` finds the first "**" with no line break before it. */
  lemma {:induction false} CloseFromFinds(s: string, j: nat, p: nat)
    requires j <= p && StarsAt(s, p)
    requires forall m :: j <= m < p ==> s[m] != '\n' && !StarsAt(s, m)
    ensures CloseFrom(s, j) == Some(p)
    decreases p - j
  {
    if j < p {
      CloseFromFinds(s, j + 1, p);
    }
  }

  // ---------------------------------------------------------------------
  // Line patterns
  // ---------------------------------------------------------------------

  /** The first index at or after `i` that does not hold a digit, or `|s|`. */
  function DigitRun(s: string, i: nat): (e: nat)
    requires i <= |s|
    ensures i <= e <= |s|
    ensures forall m :: i <= m < e ==> IsDigit(s[m])
    ensures e == |s| || !IsDigit(s[e])
    decreases |s| - i
  {
    if i < |s| && IsDigit(s[i]) then DigitRun(s, i + 1) else i
  }

  /** `re.search(r"^\d+\.\s", text, re.MULTILINE)` at the start of one line:
      digits, a full stop, then whitespace, which may be the line break
      itself when another line follows. */
  predicate NumberedMarker(line: string, hasNext: bool) {
    var d := DigitRun(line, 0);
    && 0 < d < |line|
    && line[d] == '.'
    && (if d + 1 < |line| then IsSpace(line[d + 1]) else hasNext)
  }

  /** `re.search(r"^\s*\*\s", text, re.MULTILINE)` at the start of one line. */
  predicate BulletMarker(line: string, hasNext: bool) {
    var a := SkipSpaces(line, 0);
    && a < |line|
    && line[a] == '*'
    && (if a + 1 < |line| then IsSpace(line[a + 1]) else hasNext)
  }

  predicate HasNumberedLine(lines: seq<string>) {
    exists i :: 0 <= i < |lines| && NumberedMarker(lines[i], i + 1 < |lines|)
  }

  predicate HasBulletLine(lines: seq<string>) {
    exists i :: 0 <= i < |lines| && BulletMarker(lines[i], i + 1 < |lines|)
  }

  /** `DigitRun` is determined by its contract. */
  lemma DigitRunIs(s: string, k: nat, e: nat)
    requires k <= e <= |s|
    requires forall i :: k <= i < e ==> IsDigit(s[i])
    requires e == |s| || !IsDigit(s[e])
    ensures DigitRun(s, k) == e
  {
  }

  /** `re.match(r"^\s*(\d+)\.\s+(.*)", line).group(2)`: the pattern
      matches exactly when optional whitespace, at least one digit, a full
      stop and at least one whitespace character begin the line; the item
      is what follows the greedy whitespace run, so it never starts with
      whitespace. */
  function NumberedItem(line: string): (r: Option<string>)
    ensures var a := SkipSpaces(line, 0);
            var d := DigitRun(line, a);
            r.Some? <==> a < d && d + 1 < |line| && line[d] == '.' && IsSpace(line[d + 1])
    ensures r.Some? ==> exists e :: 0 < e <= |line| && IsSpace(line[e - 1]) && r.value == line[e..]
    ensures r.Some? && r.value != [] ==> !IsSpace(r.value[0])
  {
    var a := SkipSpaces(line, 0);
    var d := DigitRun(line, a);
    if d > a && d < |line| && line[d] == '.' then
      var e := SkipSpaces(line, d + 1);
      if e > d + 1 then Some(line[e..]) else None
    else None
  }

  /** `re.match(r"^\s*\*\s+(.*)", line).group(1)`: the pattern matches
      exactly when optional whitespace, a `*` and at least one whitespace
      character begin the line; the item never starts with whitespace. */
  function BulletItem(line: string): (r: Option<string>)
    ensures var a := SkipSpaces(line, 0);
            r.Some? <==> a + 1 < |line| && line[a] == '*' && IsSpace(line[a + 1])
    ensures r.Some? ==> exists e :: 0 < e <= |line| && IsSpace(line[e - 1]) && r.value == line[e..]
    ensures r.Some? && r.value != [] ==> !IsSpace(r.value[0])
  {
    var a := SkipSpaces(line, 0);
    if a < |line| && line[a] == '*' then
      var e := SkipSpaces(line, a + 1);
      if e > a + 1 then Some(line[e..]) else None
    else None
  }

  /** Every line of the numbered-item shape is matched, and its item is the
      text after the whitespace that follows the full stop. */
  lemma NumberedItemOf(lead: string, digits: string, gap: string, rest: string)
    requires forall i :: 0 <= i < |lead| ==> IsSpace(lead[i])
    requires digits != [] && forall i :: 0 <= i < |digits| ==> IsDigit(digits[i])
    requires gap != [] && forall i :: 0 <= i < |gap| ==> IsSpace(gap[i])
    requires rest == [] || !IsSpace(rest[0])
    ensures NumberedItem(lead + digits + "." + gap + rest) == Some(rest)
  {
    var line := lead + digits + "." + gap + rest;
    var a, d := |lead|, |lead| + |digits|;
    var e := d + 1 + |gap|;
    assert line[a] == digits[0];
    SkipSpacesIs(line, 0, a);
    assert line[d] == '.';
    DigitRunIs(line, a, d);
    assert forall i :: d + 1 <= i < e ==> line[i] == gap[i - d - 1];
    assert e < |line| ==> line[e] == rest[0];
    SkipSpacesIs(line, d + 1, e);
    assert line[e..] == rest;
  }

  /** Every line of the bullet-item shape is matched, and its item is the
      text after the whitespace that follows the `*`. */
  lemma BulletItemOf(lead: string, gap: string, rest: string)
    requires forall i :: 0 <= i < |lead| ==> IsSpace(lead[i])
    requires gap != [] && forall i :: 0 <= i < |gap| ==> IsSpace(gap[i])
    requires rest == [] || !IsSpace(rest[0])
    ensures BulletItem(lead + "*" + gap + rest) == Some(rest)
  {
    var line := lead + "*" + gap + rest;
    var a := |lead|;
    var e := a + 1 + |gap|;
    assert line[a] == '*';
    SkipSpacesIs(line, 0, a);
    assert forall i :: a + 1 <= i < e ==> line[i] == gap[i - a - 1];
    assert e < |line| ==> line[e] == rest[0];
    SkipSpacesIs(line, a + 1, e);
    assert line[e..] == rest;
  }

  // ---------------------------------------------------------------------
  // List mode
  // ---------------------------------------------------------------------

  datatype ListKind = Ordered | Unordered

  function OpenTag(k: ListKind): string {
    match k
    case Ordered => "<ol>"
    case Unordered => "<ul>"
  }

  function CloseTag(k: ListKind): string {
    match k
    case Ordered => "</ol>"
    case Unordered => "</ul>"
  }

  function ItemText(k: ListKind, line: string): Option<string> {
    match k
    case Ordered => NumberedItem(line)
    case Unordered => BulletItem(line)
  }

  const LiOpen: string := "<li>"
  const LiClose: string := "</li>"
  const POpen: string := "<p>"
  const PClose: string := "</p>"

  function ListEntry(x: string): string { LiOpen + x + LiClose }
  function Paragraph(x: string): string { POpen + x + PClose }

  /** The output lines the list loop appends for one input line. */
  function LineOutput(k: ListKind, line: string, open: bool): seq<string> {
    match ItemText(k, line)
    case Some(x) => (if open then [] else [OpenTag(k)]) + [ListEntry(x)]
    case None => (if open then [CloseTag(k)] else []) + (if IsBlank(line) then [] else [Paragraph(line)])
  }

  /** The `for line in lines` loop of a list mode, from state `open`, with
      the final close when the text ends inside a list. */
  function ListLoop(k: ListKind, lines: seq<string>, open: bool): seq<string>
    decreases |lines|
  {
    if lines == [] then (if open then [CloseTag(k)] else [])
    else LineOutput(k, lines[0], open) + ListLoop(k, lines[1..], ItemText(k, lines[0]).Some?)
  }

  // ---------------------------------------------------------------------
  // Plain mode and the converter
  // ---------------------------------------------------------------------

  /** The paragraphs that are not blank, each wrapped in `<p>`. */
  function Paragraphs(paras: seq<string>): (r: seq<string>)
    ensures |r| <= |paras|
    decreases |paras|
  {
    if paras == [] then []
    else (if IsBlank(paras[0]) then [] else [Paragraph(paras[0])]) + Paragraphs(paras[1..])
  }

  /** The paragraphs keep their order: `Paragraphs` distributes over concatenation. */
  lemma {:induction false} ParagraphsAppend(a: seq<string>, b: seq<string>)
    ensures Paragraphs(a + b) == Paragraphs(a) + Paragraphs(b)
    decreases |a|
  {
    if a == [] {
      assert a + b == b;
    } else {
      assert (a + b)[0] == a[0];
      assert (a + b)[1..] == a[1..] + b;
      ParagraphsAppend(a[1..], b);
    }
  }

  /** One paragraph becomes one `<p>` line unless it is blank. */
  lemma ParagraphsSingle(para: string)
    ensures Paragraphs([para]) == if IsBlank(para) then [] else [Paragraph(para)]
  {
    assert [para][1..] == [];
  }

  /** The output lines of `convert_markdown_to_html` for a non-empty text. */
  function HtmlLines(text: string): seq<string> {
    var b := Bold(text);
    var lines := Split(b, "\n");
    if HasNumberedLine(lines) then ListLoop(Ordered, lines, false)
    else if HasBulletLine(lines) then ListLoop(Unordered, lines, false)
    else Paragraphs(Split(b, "\n\n"))
  }

  /** `convert_markdown_to_html(text)`. */
  function ConvertMarkdownToHtml(text: string): (r: string)
    ensures text == [] ==> r == []
    ensures text != [] ==> r == Join(HtmlLines(text), "\n")
  {
    if text == [] then [] else Join(HtmlLines(text), "\n")
  }

  // ---------------------------------------------------------------------
  // Properties of the output lines
  // ---------------------------------------------------------------------

  /** Opening and closing tags alternate, starting from `open` and ending
      closed: every list is closed and lists never nest. */
  predicate Alternates(rs: seq<string>, o: string, c: string, open: bool)
    decreases |rs|
  {
    if rs == [] then !open
    else if rs[0] == o then !open && Alternates(rs[1..], o, c, true)
    else if rs[0] == c then open && Alternates(rs[1..], o, c, false)
    else Alternates(rs[1..], o, c, open)
  }

  /** No item or paragraph line is a bare tag. */
  lemma EntriesAreNotTags(x: string, t: string)
    requires t in ["<ol>", "</ol>", "<ul>", "</ul>"]
    ensures ListEntry(x) != t && Paragraph(x) != t
  {
    assert ListEntry(x)[1] == 'l';
    assert Paragraph(x)[1] == 'p';
    assert |Paragraph(x)| >= 7;
  }

  lemma {:induction false} AlternatesAppend(a: seq<string>, b: seq<string>, o: string, c: string, open: bool, mid: bool)
    requires AlternatesTo(a, o, c, open, mid)
    requires Alternates(b, o, c, mid)
    ensures Alternates(a + b, o, c, open)
    decreases |a|
  {
    if a == [] {
      assert a + b == b;
    } else {
      assert (a + b)[0] == a[0];
      assert (a + b)[1..] == a[1..] + b;
      if a[0] == o {
        AlternatesAppend(a[1..], b, o, c, true, mid);
      } else if a[0] == c {
        AlternatesAppend(a[1..], b, o, c, false, mid);
      } else {
        AlternatesAppend(a[1..], b, o, c, open, mid);
      }
    }
  }

  /** Like `Alternates`, for a piece that leaves the state `mid`. */
  predicate AlternatesTo(rs: seq<string>, o: string, c: string, open: bool, mid: bool)
    decreases |rs|
  {
    if rs == [] then open == mid
    else if rs[0] == o then !open && AlternatesTo(rs[1..], o, c, true, mid)
    else if rs[0] == c then open && AlternatesTo(rs[1..], o, c, false, mid)
    else AlternatesTo(rs[1..], o, c, open, mid)
  }

  /** The list loop closes every list it opens, and never nests lists; the
      tags of the other kind never appear as lines. */
  lemma {:induction false} ListLoopAlternates(k: ListKind, k': ListKind, lines: seq<string>, open: bool)
    ensures Alternates(ListLoop(k, lines, open), OpenTag(k'), CloseTag(k'), if k' == k then open else false)
    decreases |lines|
  {
    var o := OpenTag(k');
    var c := CloseTag(k');
    if lines == [] {
      if open && k' != k {
        assert CloseTag(k) != c;
        assert CloseTag(k) != o;
      }
    } else {
      var next := ItemText(k, lines[0]).Some?;
      ListLoopAlternates(k, k', lines[1..], next);
      LineOutputAlternatesAny(k, k', lines[0], open);
      AlternatesAppend(LineOutput(k, lines[0], open), ListLoop(k, lines[1..], next), o, c,
                       if k' == k then open else false, if k' == k then next else false);
    }
  }

  lemma LineOutputAlternatesAny(k: ListKind, k': ListKind, line: string, open: bool)
    ensures AlternatesTo(LineOutput(k, line, open), OpenTag(k'), CloseTag(k'),
                         if k' == k then open else false, if k' == k then ItemText(k, line).Some? else false)
  {
    var o := OpenTag(k');
    var c := CloseTag(k');
    var out := LineOutput(k, line, open);
    match ItemText(k, line)
    case Some(x) =>
      EntriesAreNotTags(x, o);
      EntriesAreNotTags(x, c);
      if k' != k {
        assert OpenTag(k) != o && OpenTag(k) != c;
      }
    case None =>
      EntriesAreNotTags(line, o);
      EntriesAreNotTags(line, c);
      if k' != k {
        assert CloseTag(k) != o && CloseTag(k) != c;
      }
  }

  // ---------------------------------------------------------------------
  // What the list loop emits, entry by entry
  // ---------------------------------------------------------------------

  /** The entries of `rs` that start with `p`, in order. */
  function Keep(rs: seq<string>, p: string): (r: seq<string>)
    ensures |r| <= |rs|
    decreases |rs|
  {
    if rs == [] then []
    else (if StartsWith(rs[0], p) then [rs[0]] else []) + Keep(rs[1..], p)
  }

  /** How many entries of `rs` are exactly `t`. */
  function Count(rs: seq<string>, t: string): nat
    decreases |rs|
  {
    if rs == [] then 0 else (if rs[0] == t then 1 else 0) + Count(rs[1..], t)
  }

  lemma {:induction false} KeepCountAppend(a: seq<string>, b: seq<string>, p: string, t: string)
    ensures Keep(a + b, p) == Keep(a, p) + Keep(b, p)
    ensures Count(a + b, t) == Count(a, t) + Count(b, t)
    decreases |a|
  {
    if a == [] {
      assert a + b == b;
    } else {
      assert (a + b)[0] == a[0];
      assert (a + b)[1..] == a[1..] + b;
      KeepCountAppend(a[1..], b, p, t);
    }
  }

  function ItemEntry(k: ListKind, line: string): seq<string> {
    match ItemText(k, line) case Some(x) => [ListEntry(x)] case None => []
  }

  function PlainEntry(k: ListKind, line: string): seq<string> {
    if ItemText(k, line).None? && !IsBlank(line) then [Paragraph(line)] else []
  }

  /** One `<li>` entry per item line, holding the item's text. */
  function ItemEntries(k: ListKind, lines: seq<string>): seq<string>
    decreases |lines|
  {
    if lines == [] then [] else ItemEntry(k, lines[0]) + ItemEntries(k, lines[1..])
  }

  /** One `<p>` entry per line that is neither an item nor blank. */
  function PlainEntries(k: ListKind, lines: seq<string>): seq<string>
    decreases |lines|
  {
    if lines == [] then [] else PlainEntry(k, lines[0]) + PlainEntries(k, lines[1..])
  }

  /** The number of maximal runs of consecutive item lines; `prev` says
      whether the line before `lines` was an item. */
  function RunStarts(k: ListKind, lines: seq<string>, prev: bool): nat
    decreases |lines|
  {
    if lines == [] then 0
    else
      var item := ItemText(k, lines[0]).Some?;
      (if item && !prev then 1 else 0) + RunStarts(k, lines[1..], item)
  }

  /** Item entries, paragraphs and bare tags are told apart by their start. */
  lemma Classify(x: string)
    ensures StartsWith(ListEntry(x), LiOpen) && !StartsWith(ListEntry(x), POpen)
    ensures StartsWith(Paragraph(x), POpen) && !StartsWith(Paragraph(x), LiOpen)
    ensures forall k: ListKind :: !StartsWith(OpenTag(k), LiOpen) && !StartsWith(OpenTag(k), POpen)
    ensures forall k: ListKind :: !StartsWith(CloseTag(k), LiOpen) && !StartsWith(CloseTag(k), POpen)
    ensures forall k: ListKind :: ListEntry(x) != OpenTag(k) && Paragraph(x) != OpenTag(k)
  {
    assert ListEntry(x)[..|LiOpen|] == LiOpen;
    assert Paragraph(x)[..|POpen|] == POpen;
    assert ListEntry(x)[1] == 'l' && Paragraph(x)[1] == 'p';
  }

  lemma LineOutputEntries(k: ListKind, line: string, open: bool)
    ensures Keep(LineOutput(k, line, open), LiOpen) == ItemEntry(k, line)
    ensures Keep(LineOutput(k, line, open), POpen) == PlainEntry(k, line)
    ensures Count(LineOutput(k, line, open), OpenTag(k))
            == (if ItemText(k, line).Some? && !open then 1 else 0)
  {
    match ItemText(k, line)
    case Some(x) => ItemLineOutput(k, x, open);
    case None => PlainLineOutput(k, line, open);
  }

  /** An item line adds its `<li>` entry, after an opening tag when no list
      is open. */
  lemma ItemLineOutput(k: ListKind, x: string, open: bool)
    ensures var out := (if open then [] else [OpenTag(k)]) + [ListEntry(x)];
            && Keep(out, LiOpen) == [ListEntry(x)]
            && Keep(out, POpen) == []
            && Count(out, OpenTag(k)) == (if open then 0 else 1)
  {
    Classify(x);
    var pre := if open then [] else [OpenTag(k)];
    KeepCountAppend(pre, [ListEntry(x)], LiOpen, OpenTag(k));
    KeepCountAppend(pre, [ListEntry(x)], POpen, OpenTag(k));
  }

  /** Any other line closes an open list and adds its paragraph unless it
      is blank. */
  lemma PlainLineOutput(k: ListKind, line: string, open: bool)
    ensures var out := (if open then [CloseTag(k)] else []) + (if IsBlank(line) then [] else [Paragraph(line)]);
            && Keep(out, LiOpen) == []
            && Keep(out, POpen) == (if IsBlank(line) then [] else [Paragraph(line)])
            && Count(out, OpenTag(k)) == 0
  {
    Classify(line);
    var pre := if open then [CloseTag(k)] else [];
    var post := if IsBlank(line) then [] else [Paragraph(line)];
    KeepCountAppend(pre, post, LiOpen, OpenTag(k));
    KeepCountAppend(pre, post, POpen, OpenTag(k));
    assert CloseTag(k) != OpenTag(k);
  }

  /** The list loop emits one `<li>` per item line, in order, one `<p>` per
      other non-blank line, in order, and opens one list per run of items. */
  lemma ListLoopEntries(k: ListKind, lines: seq<string>, open: bool)
    ensures Keep(ListLoop(k, lines, open), LiOpen) == ItemEntries(k, lines)
    ensures Keep(ListLoop(k, lines, open), POpen) == PlainEntries(k, lines)
    ensures Count(ListLoop(k, lines, open), OpenTag(k)) == RunStarts(k, lines, open)
  {
    ListLoopItems(k, lines, open);
    ListLoopPlain(k, lines, open);
    ListLoopRuns(k, lines, open);
  }

  /** The tail of the loop's output after a final close, if any. */
  lemma LoopEnd(k: ListKind, open: bool)
    ensures Keep(ListLoop(k, [], open), LiOpen) == []
    ensures Keep(ListLoop(k, [], open), POpen) == []
    ensures Count(ListLoop(k, [], open), OpenTag(k)) == 0
  {
    Classify([]);
    assert CloseTag(k) != OpenTag(k);
  }

  lemma {:induction false} ListLoopItems(k: ListKind, lines: seq<string>, open: bool)
    ensures Keep(ListLoop(k, lines, open), LiOpen) == ItemEntries(k, lines)
    decreases |lines|
  {
    if lines == [] {
      LoopEnd(k, open);
    } else {
      var next := ItemText(k, lines[0]).Some?;
      ListLoopItems(k, lines[1..], next);
      LineOutputEntries(k, lines[0], open);
      KeepCountAppend(LineOutput(k, lines[0], open), ListLoop(k, lines[1..], next), LiOpen, OpenTag(k));
    }
  }

  lemma {:induction false} ListLoopPlain(k: ListKind, lines: seq<string>, open: bool)
    ensures Keep(ListLoop(k, lines, open), POpen) == PlainEntries(k, lines)
    decreases |lines|
  {
    if lines == [] {
      LoopEnd(k, open);
    } else {
      var next := ItemText(k, lines[0]).Some?;
      ListLoopPlain(k, lines[1..], next);
      LineOutputEntries(k, lines[0], open);
      KeepCountAppend(LineOutput(k, lines[0], open), ListLoop(k, lines[1..], next), POpen, OpenTag(k));
    }
  }

  lemma {:induction false} ListLoopRuns(k: ListKind, lines: seq<string>, open: bool)
    ensures Count(ListLoop(k, lines, open), OpenTag(k)) == RunStarts(k, lines, open)
    decreases |lines|
  {
    if lines == [] {
      LoopEnd(k, open);
    } else {
      var next := ItemText(k, lines[0]).Some?;
      ListLoopRuns(k, lines[1..], next);
      LineOutputEntries(k, lines[0], open);
      KeepCountAppend(LineOutput(k, lines[0], open), ListLoop(k, lines[1..], next), POpen, OpenTag(k));
    }
  }

  // ---------------------------------------------------------------------
  // The converter as a whole
  // ---------------------------------------------------------------------

  lemma {:induction false} ParagraphsAlternate(paras: seq<string>, k: ListKind)
    ensures Alternates(Paragraphs(paras), OpenTag(k), CloseTag(k), false)
    decreases |paras|
  {
    if paras != [] {
      var head := if IsBlank(paras[0]) then [] else [Paragraph(paras[0])];
      ParagraphsAlternate(paras[1..], k);
      Classify(paras[0]);
      EntriesAreNotTags(paras[0], CloseTag(k));
      assert AlternatesTo(head, OpenTag(k), CloseTag(k), false, false);
      AlternatesAppend(head, Paragraphs(paras[1..]), OpenTag(k), CloseTag(k), false, false);
    }
  }

  /** Whatever the mode, every `<ol>` and `<ul>` the converter emits is
      closed before the next one opens and before the output ends. */
  lemma HtmlTagsBalanced(text: string)
    ensures Alternates(HtmlLines(text), "<ol>", "</ol>", false)
    ensures Alternates(HtmlLines(text), "<ul>", "</ul>", false)
  {
    var lines := Split(Bold(text), "\n");
    ListLoopAlternates(Ordered, Ordered, lines, false);
    ListLoopAlternates(Ordered, Unordered, lines, false);
    ListLoopAlternates(Unordered, Ordered, lines, false);
    ListLoopAlternates(Unordered, Unordered, lines, false);
    ParagraphsAlternate(Split(Bold(text), "\n\n"), Ordered);
    ParagraphsAlternate(Split(Bold(text), "\n\n"), Unordered);
  }

  /** A numbered line anywhere selects the ordered list, even when bullet
      lines are present; then every numbered item becomes an `<li>`, every
      other non-blank line a `<p>`, and each run of items one `<ol>`. */
  lemma NumberedListMode(text: string)
    requires HasNumberedLine(Split(Bold(text), "\n"))
    ensures var lines := Split(Bold(text), "\n");
            && Keep(HtmlLines(text), LiOpen) == ItemEntries(Ordered, lines)
            && Keep(HtmlLines(text), POpen) == PlainEntries(Ordered, lines)
            && Count(HtmlLines(text), "<ol>") == RunStarts(Ordered, lines, false)
  {
    ListLoopEntries(Ordered, Split(Bold(text), "\n"), false);
  }

  /** Without numbered lines, a bullet line selects the unordered list. */
  lemma BulletListMode(text: string)
    requires !HasNumberedLine(Split(Bold(text), "\n"))
    requires HasBulletLine(Split(Bold(text), "\n"))
    ensures var lines := Split(Bold(text), "\n");
            && Keep(HtmlLines(text), LiOpen) == ItemEntries(Unordered, lines)
            && Keep(HtmlLines(text), POpen) == PlainEntries(Unordered, lines)
            && Count(HtmlLines(text), "<ul>") == RunStarts(Unordered, lines, false)
  {
    ListLoopEntries(Unordered, Split(Bold(text), "\n"), false);
  }

  /** Plain mode keeps exactly the non-blank paragraphs, each wrapped. */
  lemma {:induction false} ParagraphsOf(paras: seq<string>)
    ensures forall e :: e in Paragraphs(paras) ==> exists q :: q in paras && !IsBlank(q) && e == Paragraph(q)
    ensures forall q :: q in paras && !IsBlank(q) ==> Paragraph(q) in Paragraphs(paras)
    decreases |paras|
  {
    if paras != [] {
      ParagraphsOf(paras[1..]);
      var head := if IsBlank(paras[0]) then [] else [Paragraph(paras[0])];
      assert Paragraphs(paras) == head + Paragraphs(paras[1..]);
      forall q | q in paras && !IsBlank(q) ensures Paragraph(q) in Paragraphs(paras) {
        if q != paras[0] {
          assert q in paras[1..];
        }
      }
    }
  }

  /** Every line the bullet-item pattern accepts is also seen by the
      bullet-mode detector, so bullet items are never lost to plain mode. */
  lemma BulletItemDetected(line: string, hasNext: bool)
    requires BulletItem(line).Some?
    ensures BulletMarker(line, hasNext)
  {
  }

  /** The same for numbered items, provided the line is not indented: the
      detector, unlike the item pattern, allows no leading whitespace. */
  lemma NumberedItemDetected(line: string, hasNext: bool)
    requires NumberedItem(line).Some?
    requires !IsSpace(line[0])
    ensures NumberedMarker(line, hasNext)
  {
    assert SkipSpaces(line, 0) == 0;
  }

  /** An indented numbered line is an item but does not select list mode. */
  lemma IndentedNumberNotDetected()
    ensures NumberedItem(" 1. a") == Some("a")
    ensures !NumberedMarker(" 1. a", false) && !NumberedMarker(" 1. a", true)
  {
    var line := " 1. a";
    assert SkipSpaces(line, 4) == 4;
    assert SkipSpaces(line, 1) == 1;
    assert DigitRun(line, 1) == 2;
    assert line[4..] == "a";
    assert DigitRun(line, 0) == 0;
  }
}
