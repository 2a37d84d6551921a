/** The Python `str` operations the analyser relies on, on ASCII text:
    character classes, lower-casing, strip, find / `in`, split, join,
    whitespace split, replace and the int/str conversions. */
module Strings {
  import opened Wrappers

  // ---------------------------------------------------------------------
  // Character classes (the ASCII part of Python's Unicode predicates)
  // ---------------------------------------------------------------------

  /** `c.isspace()`: space, \t \n \v \f \r and the separators 0x1C-0x1F. */
  predicate IsSpace(c: char) {
    c == ' ' || 9 <= c as int <= 13 || 28 <= c as int <= 31
  }

  predicate IsDigit(c: char) { '0' <= c <= '9' }
  predicate IsUpper(c: char) { 'A' <= c <= 'Z' }
  predicate IsLower(c: char) { 'a' <= c <= 'z' }
  predicate IsLetter(c: char) { IsUpper(c) || IsLower(c) }
  predicate IsAlnum(c: char) { IsLetter(c) || IsDigit(c) }

  /** Regex `\w`: letters, digits and the underscore. */
  predicate IsWordChar(c: char) { IsAlnum(c) || c == '_' }

  function ToLower(c: char): (d: char)
    ensures IsUpper(c) ==> IsLower(d)
    ensures !IsUpper(c) ==> d == c
  {
    if IsUpper(c) then (c as int + 32) as char else c
  }

  /** `s.lower()`. */
  function Lower(s: string): (r: string)
    ensures |r| == |s|
    ensures forall i :: 0 <= i < |s| ==> r[i] == ToLower(s[i])
  {
    seq(|s|, i requires 0 <= i < |s| => ToLower(s[i]))
  }

  lemma LowerOfLowercase(s: string)
    requires forall i :: 0 <= i < |s| ==> !IsUpper(s[i])
    ensures Lower(s) == s
  {
  }

  lemma LowerAppend(a: string, b: string)
    ensures Lower(a + b) == Lower(a) + Lower(b)
  {
  }

  /** Each entry of a list, lower-cased. */
  function LowerEach(ws: seq<string>): (r: seq<string>)
    ensures |r| == |ws|
    ensures forall k :: 0 <= k < |ws| ==> r[k] == Lower(ws[k])
  {
    seq(|ws|, k requires 0 <= k < |ws| => Lower(ws[k]))
  }

  /** Lower-casing words joined by spaces lower-cases each word. */
  lemma {:induction false} LowerJoin(ws: seq<string>)
    ensures Lower(Join(ws, " ")) == Join(LowerEach(ws), " ")
    decreases |ws|
  {
    if |ws| >= 2 {
      LowerJoin(ws[1..]);
      assert LowerEach(ws)[1..] == LowerEach(ws[1..]);
      LowerAppend(ws[0] + " ", Join(ws[1..], " "));
      LowerAppend(ws[0], " ");
    }
  }

  // ---------------------------------------------------------------------
  // strip
  // ---------------------------------------------------------------------

  predicate IsBlank(s: string) { forall i :: 0 <= i < |s| ==> IsSpace(s[i]) }
  predicate NoSpace(s: string) { forall i :: 0 <= i < |s| ==> !IsSpace(s[i]) }

  /** The first index at or after `k` that does not hold whitespace, or `|s|`. */
  function SkipSpaces(s: string, k: nat): (e: nat)
    requires k <= |s|
    ensures k <= e <= |s|
    ensures forall i :: k <= i < e ==> IsSpace(s[i])
    ensures e == |s| || !IsSpace(s[e])
    decreases |s| - k
  {
    if k < |s| && IsSpace(s[k]) then SkipSpaces(s, k + 1) else k
  }

  /** The first index at or after `k` that holds whitespace, or `|s|`. */
  function SkipToken(s: string, k: nat): (e: nat)
    requires k <= |s|
    ensures k <= e <= |s|
    ensures forall i :: k <= i < e ==> !IsSpace(s[i])
    ensures e == |s| || IsSpace(s[e])
    decreases |s| - k
  {
    if k < |s| && !IsSpace(s[k]) then SkipToken(s, k + 1) else k
  }

  /** The start of the whitespace run that ends at index `k`. */
  function BackSpaces(s: string, k: nat): (b: nat)
    requires k <= |s|
    ensures b <= k
    ensures forall i :: b <= i < k ==> IsSpace(s[i])
    ensures b == 0 || !IsSpace(s[b - 1])
    decreases k
  {
    if k > 0 && IsSpace(s[k - 1]) then BackSpaces(s, k - 1) else k
  }

  /** `SkipSpaces` is determined by its contract. */
  lemma SkipSpacesIs(s: string, k: nat, e: nat)
    requires k <= e <= |s|
    requires forall i :: k <= i < e ==> IsSpace(s[i])
    requires e == |s| || !IsSpace(s[e])
    ensures SkipSpaces(s, k) == e
  {
  }

  /** `SkipToken` is determined by its contract. */
  lemma SkipTokenIs(s: string, k: nat, e: nat)
    requires k <= e <= |s|
    requires forall i :: k <= i < e ==> !IsSpace(s[i])
    requires e == |s| || IsSpace(s[e])
    ensures SkipToken(s, k) == e
  {
  }

  /** `s.strip()`: the text between the leading and the trailing whitespace. */
  function Strip(s: string): (r: string)
    ensures r == [] <==> IsBlank(s)
    ensures r != [] ==> !IsSpace(r[0]) && !IsSpace(r[|r| - 1])
  {
    var a := SkipSpaces(s, 0);
    if a == |s| then []
    else
      var b := BackSpaces(s, |s|);
      assert !IsBlank(s) by {
        assert !IsSpace(s[a]);
      }
      s[a..b]
  }

  lemma StripUnchanged(s: string)
    requires s == [] || (!IsSpace(s[0]) && !IsSpace(s[|s| - 1]))
    ensures Strip(s) == s
  {
    if s != [] {
      assert SkipSpaces(s, 0) == 0;
      assert BackSpaces(s, |s|) == |s|;
      assert s[0..|s|] == s;
    }
  }

  lemma StripIdempotent(s: string)
    ensures Strip(Strip(s)) == Strip(s)
  {
    StripUnchanged(Strip(s));
  }

  // ---------------------------------------------------------------------
  // find / in / startswith / endswith
  // ---------------------------------------------------------------------

  /** `sub` occurs in `s` at index `i`. */
  predicate Occurs(s: string, sub: string, i: nat) {
    i + |sub| <= |s| && s[i..i + |sub|] == sub
  }

  function FindFrom(s: string, sub: string, k: nat): (r: Option<nat>)
    ensures r.Some? ==> k <= r.value && Occurs(s, sub, r.value)
    ensures forall j: nat :: k <= j && (r.None? || j < r.value) ==> !Occurs(s, sub, j)
    decreases |s| - k
  {
    if k + |sub| > |s| then None
    else if s[k..k + |sub|] == sub then Some(k)
    else FindFrom(s, sub, k + 1)
  }

  /** `s.find(sub)`: the leftmost occurrence, `None` for -1. */
  function Find(s: string, sub: string): (r: Option<nat>)
    ensures r.Some? ==> Occurs(s, sub, r.value)
    ensures forall j: nat :: (r.None? || j < r.value) ==> !Occurs(s, sub, j)
  {
    FindFrom(s, sub, 0)
  }

  /** `sub in s`. */
  predicate Contains(s: string, sub: string) {
    Find(s, sub).Some?
  }

  lemma ContainsAt(s: string, sub: string, i: nat)
    requires Occurs(s, sub, i)
    ensures Contains(s, sub)
  {
  }

  lemma CharOccurs(s: string, c: char, j: nat)
    ensures Occurs(s, [c], j) <==> j < |s| && s[j] == c
  {
    if j < |s| {
      assert s[j..j + 1] == [s[j]];
    }
  }

  lemma ContainsChar(s: string, c: char)
    ensures Contains(s, [c]) <==> c in s
  {
    if c in s {
      var j :| 0 <= j < |s| && s[j] == c;
      CharOccurs(s, c, j);
    } else if Contains(s, [c]) {
      CharOccurs(s, c, Find(s, [c]).value);
    }
  }

  /** The first occurrence of `c` in `p + [c] + t` is right after `p`. */
  lemma FindFirstChar(p: string, c: char, t: string)
    requires c !in p
    ensures Find(p + [c] + t, [c]) == Some(|p|)
  {
    var s := p + [c] + t;
    CharOccurs(s, c, |p|);
    forall j: nat | j < |p|
      ensures !Occurs(s, [c], j)
    {
      CharOccurs(s, c, j);
      assert s[j] == p[j];
    }
  }

  lemma NoCharNoFind(s: string, c: char)
    requires c !in s
    ensures Find(s, [c]) == None
  {
    ContainsChar(s, c);
  }

  /** `p` does not occur in a text that lacks one of its characters. */
  lemma LacksChar(s: string, p: string, c: char)
    requires c in p && c !in s
    ensures !Contains(s, p)
  {
  }

  /** Wherever `p` occurs, each part `q` of it occurs too. */
  lemma ContainsPart(s: string, p: string, q: string, j: nat)
    requires Occurs(p, q, j) && Contains(s, p)
    ensures Contains(s, q)
  {
    var i := Find(s, p).value;
    assert s[i..i + |p|] == p;
    assert s[i + j..i + j + |q|] == p[j..j + |q|];
    ContainsAt(s, q, i + j);
  }

  /** A text occurs in any text that has it in the middle. */
  lemma ContainsMiddle(u: string, x: string, v: string)
    ensures Contains(u + x + v, x)
  {
    assert (u + x + v)[|u|..|u| + |x|] == x;
    ContainsAt(u + x + v, x, |u|);
  }

  /** An occurrence in a suffix is an occurrence in the whole text. */
  lemma ContainsSuffix(s: string, b: nat, p: string)
    requires b <= |s| && Contains(s[b..], p)
    ensures Contains(s, p)
  {
    var i := Find(s[b..], p).value;
    assert s[b..][i..i + |p|] == s[b + i..b + i + |p|];
    ContainsAt(s, p, b + i);
  }

  lemma EndsWithContains(s: string, p: string)
    requires EndsWith(s, p)
    ensures Contains(s, p)
  {
    ContainsAt(s, p, |s| - |p|);
  }

  /** A text without a space occurs in `a + " " + b` only inside `a` or
      inside `b`. */
  lemma NotAcrossSpace(a: string, b: string, p: string)
    requires ' ' !in p && !Contains(a, p) && !Contains(b, p)
    ensures !Contains(a + " " + b, p)
  {
    forall i: nat ensures !Occurs(a + " " + b, p, i) {
      OccursAroundSpace(a, b, p, i);
    }
  }

  /** An occurrence in `a + " " + b` lies inside `a`, inside `b`, or covers
      the space. */
  lemma OccursAroundSpace(a: string, b: string, p: string, i: nat)
    ensures Occurs(a + " " + b, p, i) ==>
              Occurs(a, p, i) || (i > |a| && Occurs(b, p, i - |a| - 1)) || ' ' in p
  {
    var s := a + " " + b;
    if Occurs(s, p, i) {
      if i + |p| <= |a| {
        assert s[i..i + |p|] == a[i..i + |p|];
      } else if i > |a| {
        var j := i - |a| - 1;
        assert s[|a| + 1..] == b;
        assert s[i..i + |p|] == b[j..j + |p|];
      } else {
        assert p[|a| - i] == s[|a|];
      }
    }
  }

  predicate StartsWith(s: string, p: string) { |p| <= |s| && s[..|p|] == p }
  predicate EndsWith(s: string, p: string) { |p| <= |s| && s[|s| - |p|..] == p }

  // ---------------------------------------------------------------------
  // split / join / replace
  // ---------------------------------------------------------------------

  /** An occurrence inside a prefix is an occurrence in the whole string. */
  lemma OccursInPrefix(s: string, sub: string, i: nat, j: nat)
    requires i <= |s| && Occurs(s[..i], sub, j)
    ensures Occurs(s, sub, j)
  {
    assert s[..i][j..j + |sub|] == s[j..j + |sub|];
  }

  /** `s.split(sep)` for a non-empty separator. */
  function Split(s: string, sep: string): (parts: seq<string>)
    requires sep != []
    ensures |parts| >= 1
    ensures forall k :: 0 <= k < |parts| ==> !Contains(parts[k], sep)
    decreases |s|
  {
    match Find(s, sep)
    case None => [s]
    case Some(i) =>
      var head := s[..i];
      assert !Contains(head, sep) by {
        if Contains(head, sep) {
          OccursInPrefix(s, sep, i, Find(head, sep).value);
        }
      }
      [head] + Split(s[i + |sep|..], sep)
  }

  /** `sep.join(parts)`. */
  function Join(parts: seq<string>, sep: string): string
    decreases |parts|
  {
    if |parts| == 0 then ""
    else if |parts| == 1 then parts[0]
    else parts[0] + sep + Join(parts[1..], sep)
  }

  /** Joining two non-empty lists is joining each and putting `sep` between. */
  lemma {:induction false} JoinAppend(a: seq<string>, b: seq<string>, sep: string)
    requires a != [] && b != []
    ensures Join(a + b, sep) == Join(a, sep) + sep + Join(b, sep)
    decreases |a|
  {
    var c := a + b;
    assert c[0] == a[0];
    if |a| == 1 {
      assert c[1..] == b;
      assert Join(c, sep) == a[0] + sep + Join(b, sep);
    } else {
      assert c[1..] == a[1..] + b;
      JoinAppend(a[1..], b, sep);
      var x, y := Join(a[1..], sep), Join(b, sep);
      assert Join(c, sep) == a[0] + sep + (x + sep + y);
      assert Join(a, sep) == a[0] + sep + x;
      assert a[0] + sep + (x + sep + y) == (a[0] + sep + x) + sep + y;
    }
  }

  /** Joining the pieces of a split gives the original text back. */
  lemma {:induction false} JoinSplit(s: string, sep: string)
    requires sep != []
    ensures Join(Split(s, sep), sep) == s
    decreases |s|
  {
    var r := Find(s, sep);
    if r.Some? {
      var i := r.value;
      var rest := s[i + |sep|..];
      var tail := Split(rest, sep);
      assert Split(s, sep) == [s[..i]] + tail;
      JoinSplit(rest, sep);
      assert ([s[..i]] + tail)[1..] == tail;
      assert Join([s[..i]] + tail, sep) == s[..i] + sep + Join(tail, sep);
      assert s == s[..i] + s[i..i + |sep|] + rest;
    }
  }

  /** Splitting on a character none of the parts contains gives the parts back. */
  lemma {:induction false} SplitJoin(parts: seq<string>, c: char)
    requires |parts| >= 1
    requires forall k :: 0 <= k < |parts| ==> c !in parts[k]
    ensures Split(Join(parts, [c]), [c]) == parts
    decreases |parts|
  {
    if |parts| == 1 {
      NoCharNoFind(parts[0], c);
    } else {
      var rest := Join(parts[1..], [c]);
      assert Join(parts, [c]) == parts[0] + [c] + rest;
      SplitCons(parts[0], c, rest);
      SplitJoin(parts[1..], c);
      assert parts == [parts[0]] + parts[1..];
    }
  }

  /** Splitting at a first separator peels off the text before it. */
  lemma SplitCons(p: string, c: char, rest: string)
    requires c !in p
    ensures Split(p + [c] + rest, [c]) == [p] + Split(rest, [c])
  {
    var s := p + [c] + rest;
    FindFirstChar(p, c, rest);
    assert s[..|p|] == p;
    assert s[|p| + 1..] == rest;
  }

  /** `s.replace(pattern, replacement)` for a non-empty `pattern`. */
  function Replace(s: string, pattern: string, replacement: string): string
    requires pattern != []
  {
    Join(Split(s, pattern), replacement)
  }

  // ---------------------------------------------------------------------
  // split() without argument
  // ---------------------------------------------------------------------

  /** Every entry is a nonempty run of non-space characters. */
  predicate AllWords(ws: seq<string>) {
    forall k :: 0 <= k < |ws| ==> ws[k] != [] && NoSpace(ws[k])
  }

  lemma AllWordsCons(w: string, rest: seq<string>)
    requires w != [] && NoSpace(w) && AllWords(rest)
    ensures AllWords([w] + rest)
  {
    var ws := [w] + rest;
    forall k | 0 <= k < |ws| ensures ws[k] != [] && NoSpace(ws[k]) {
      if k > 0 {
        assert ws[k] == rest[k - 1];
      }
    }
  }

  /** The token starting at a non-space position is a word. */
  lemma TokenIsWord(s: string, a: nat)
    requires a < |s| && !IsSpace(s[a])
    ensures var b := SkipToken(s, a); a < b && NoSpace(s[a..b])
  {
    var b := SkipToken(s, a);
    var w := s[a..b];
    forall i | 0 <= i < |w| ensures !IsSpace(w[i]) {
      assert w[i] == s[a + i];
    }
  }

  /** `s.split()`: the maximal runs of non-space characters, in order. */
  function Words(s: string): (ws: seq<string>)
    ensures AllWords(ws)
    decreases |s|
  {
    var a := SkipSpaces(s, 0);
    if a == |s| then []
    else
      var b := SkipToken(s, a);
      TokenIsWord(s, a);
      AllWordsCons(s[a..b], Words(s[b..]));
      [s[a..b]] + Words(s[b..])
  }

  /** Every word of a text occurs in it. */
  lemma {:induction false} WordsOccur(s: string, w: string)
    requires w in Words(s)
    ensures Contains(s, w)
    decreases |s|
  {
    var a := SkipSpaces(s, 0);
    var b := SkipToken(s, a);
    if w == s[a..b] {
      ContainsAt(s, w, a);
    } else {
      WordsOccur(s[b..], w);
      ContainsSuffix(s, b, w);
    }
  }

  /** The first word found from index `a` on, followed by the words after it. */
  lemma WordsNext(s: string, a: nat, b: nat, w: string, tail: string)
    requires a == SkipSpaces(s, 0) < |s| && b == SkipToken(s, a)
    requires w == s[a..b] && tail == s[b..]
    ensures Words(s) == [w] + Words(tail)
  {
  }

  /** Skipping whitespace in `w + s` from the start passes a blank `w`. */
  lemma SkipBlankPrefix(w: string, s: string)
    requires IsBlank(w)
    ensures SkipSpaces(w + s, 0) == |w| + SkipSpaces(s, 0)
  {
    var t := w + s;
    var a := SkipSpaces(s, 0);
    forall i | 0 <= i < |w| + a ensures IsSpace(t[i]) {
      if i < |w| {
        assert t[i] == w[i];
      } else {
        assert t[i] == s[i - |w|];
      }
    }
    if a < |s| {
      assert t[|w| + a] == s[a];
    }
    SkipSpacesIs(t, 0, |w| + a);
  }

  /** A token of `s` is the same token of `w + s`, shifted by `|w|`. */
  lemma SkipTokenShift(w: string, s: string, a: nat)
    requires a <= |s|
    ensures SkipToken(w + s, |w| + a) == |w| + SkipToken(s, a)
  {
    var t := w + s;
    var b := SkipToken(s, a);
    forall i | |w| + a <= i < |w| + b ensures !IsSpace(t[i]) {
      assert t[i] == s[i - |w|];
    }
    if b < |s| {
      assert t[|w| + b] == s[b];
    }
    SkipTokenIs(t, |w| + a, |w| + b);
  }

  /** Leading whitespace does not change the words. */
  lemma WordsSkips(w: string, s: string)
    requires IsBlank(w)
    ensures Words(w + s) == Words(s)
  {
    var t := w + s;
    var a := SkipSpaces(s, 0);
    SkipBlankPrefix(w, s);
    if a < |s| {
      var b := SkipToken(s, a);
      SkipTokenShift(w, s, a);
      var x := s[a..b];
      AppendSlices(w, s, a, b);
      WordsNext(t, |w| + a, |w| + b, x, s[b..]);
      WordsNext(s, a, b, x, s[b..]);
    }
  }

  /** Slices of `s` are the same slices of `w + s`, shifted by `|w|`. */
  lemma AppendSlices(w: string, s: string, a: nat, b: nat)
    requires a <= b <= |s|
    ensures (w + s)[|w| + a..|w| + b] == s[a..b]
    ensures (w + s)[|w| + b..] == s[b..]
  {
    var t := w + s;
    assert t[|w|..] == s;
    assert t[|w| + a..|w| + b] == t[|w|..][a..b];
    assert t[|w| + b..] == t[|w|..][b..];
  }

  /** A word followed by whitespace or nothing is the first word. */
  lemma WordsOfToken(w: string, rest: string)
    requires w != [] && NoSpace(w)
    requires rest == [] || IsSpace(rest[0])
    ensures Words(w + rest) == [w] + Words(rest)
  {
    var s := w + rest;
    SkipSpacesIs(s, 0, 0);
    SkipTokenIs(s, 0, |w|);
    assert s[0..|w|] == w;
    assert s[|w|..] == rest;
    WordsNext(s, 0, |w|, w, rest);
  }

  /** Words separated by single spaces split back into the same words. */
  lemma {:induction false} WordsJoin(ws: seq<string>)
    requires AllWords(ws)
    ensures Words(Join(ws, " ")) == ws
    decreases |ws|
  {
    if |ws| == 0 {
    } else if |ws| == 1 {
      assert ws[0] != [] && NoSpace(ws[0]);
      WordsOfSingle(ws[0]);
    } else {
      WordsJoinCons(ws);
      WordsJoin(ws[1..]);
      assert ws == [ws[0]] + ws[1..];
    }
  }

  /** Splitting a joined list peels off its first word. */
  lemma WordsJoinCons(ws: seq<string>)
    requires |ws| >= 2 && AllWords(ws)
    ensures AllWords(ws[1..])
    ensures Words(Join(ws, " ")) == [ws[0]] + Words(Join(ws[1..], " "))
  {
    var tail := ws[1..];
    assert Join(ws, " ") == ws[0] + " " + Join(tail, " ");
    assert ws[0] != [] && NoSpace(ws[0]);
    WordsJoinStep(ws[0], Join(tail, " "));
    forall k | 0 <= k < |tail| ensures tail[k] != [] && NoSpace(tail[k]) {
      assert tail[k] == ws[k + 1];
    }
  }

  lemma WordsOfSingle(w: string)
    requires w != [] && NoSpace(w)
    ensures Words(w) == [w]
  {
    WordsOfToken(w, []);
    assert w + [] == w;
  }

  lemma WordsJoinStep(w: string, rest: string)
    requires w != [] && NoSpace(w)
    ensures Words(w + " " + rest) == [w] + Words(rest)
  {
    var tail := " " + rest;
    assert w + " " + rest == w + tail;
    WordsOfToken(w, tail);
    WordsSkips(" ", rest);
  }

  // ---------------------------------------------------------------------
  // str(int) and int(str)
  // ---------------------------------------------------------------------

  function DigitChar(d: nat): (c: char)
    requires d < 10
    ensures IsDigit(c)
  {
    ('0' as int + d) as char
  }

  function DigitValue(c: char): nat
    requires IsDigit(c)
  {
    c as int - '0' as int
  }

  predicate AllDigits(s: string) { forall i :: 0 <= i < |s| ==> IsDigit(s[i]) }

  /** `str(n)` for a non-negative `n`. */
  function NatToString(n: nat): (s: string)
    ensures s != [] && AllDigits(s)
    decreases n
  {
    if n < 10 then [DigitChar(n)] else NatToString(n / 10) + [DigitChar(n % 10)]
  }

  /** `str(n)`. */
  function IntToString(n: int): string {
    if n < 0 then "-" + NatToString(-n) else NatToString(n)
  }

  /** The value of a decimal digit string, most significant digit first. */
  function DigitsValue(s: string): nat
    requires AllDigits(s)
    decreases |s|
  {
    if s == [] then 0 else 10 * DigitsValue(s[..|s| - 1]) + DigitValue(s[|s| - 1])
  }

  lemma {:induction false} NatToStringValue(n: nat)
    ensures DigitsValue(NatToString(n)) == n
    decreases n
  {
    if n >= 10 {
      NatToStringValue(n / 10);
      var s := NatToString(n / 10) + [DigitChar(n % 10)];
      assert s[..|s| - 1] == NatToString(n / 10);
    }
  }

  /** Position `i` holds a digit, or an underscore followed by a digit. */
  predicate LiteralCharAt(s: string, i: nat)
    requires i < |s|
  {
    IsDigit(s[i]) || (s[i] == '_' && i + 1 < |s| && IsDigit(s[i + 1]))
  }

  /** Digits with single underscores between them, the literal form `int()` accepts. */
  predicate IsDecimalLiteral(s: string) {
    && s != []
    && IsDigit(s[0])
    && IsDigit(s[|s| - 1])
    && forall i :: 0 <= i < |s| ==> LiteralCharAt(s, i)
  }

  function DropUnderscores(s: string): (r: string)
    ensures (forall i :: 0 <= i < |s| ==> IsDigit(s[i]) || s[i] == '_') ==> AllDigits(r)
    ensures AllDigits(s) ==> r == s
    decreases |s|
  {
    if s == [] then [] else (if s[0] == '_' then [] else [s[0]]) + DropUnderscores(s[1..])
  }

  /** The value of a decimal literal, underscores ignored. */
  function LiteralValue(s: string): nat
    requires IsDecimalLiteral(s)
  {
    assert forall i :: 0 <= i < |s| ==> IsDigit(s[i]) || s[i] == '_' by {
      forall i | 0 <= i < |s| ensures IsDigit(s[i]) || s[i] == '_' {
        assert LiteralCharAt(s, i);
      }
    }
    DigitsValue(DropUnderscores(s))
  }

  function ParseLiteral(s: string): Option<int> {
    if IsDecimalLiteral(s) then Some(LiteralValue(s)) else None
  }

  /** `int(t)` for an already stripped `t`: an optional sign, then a literal. */
  function ParseSigned(t: string): Option<int> {
    if t == [] then None
    else if t[0] == '-' then
      match ParseLiteral(t[1..])
      case Some(v) => Some(-v)
      case None => None
    else if t[0] == '+' then ParseLiteral(t[1..])
    else ParseLiteral(t)
  }

  /** `int(s)`: `None` where Python raises `ValueError`. */
  function ParseInt(s: string): Option<int> {
    ParseSigned(Strip(s))
  }

  /** A plain digit string parses to its value. */
  lemma ParseDigits(d: string)
    requires d != [] && AllDigits(d)
    ensures ParseLiteral(d) == Some(DigitsValue(d))
  {
    assert forall i :: 0 <= i < |d| ==> LiteralCharAt(d, i);
    assert IsDecimalLiteral(d);
    assert DropUnderscores(d) == d;
  }

  /** A digit string has no surrounding whitespace to strip. */
  lemma StripDigits(d: string, negative: bool)
    requires d != [] && AllDigits(d)
    ensures var t := if negative then "-" + d else d; Strip(t) == t
  {
    assert IsDigit(d[0]) && IsDigit(d[|d| - 1]);
    var t := if negative then "-" + d else d;
    assert t[|t| - 1] == d[|d| - 1];
    StripUnchanged(t);
  }

  /** A digit string with a leading minus sign parses to the negated value. */
  lemma ParseNegated(d: string)
    requires d != [] && AllDigits(d)
    ensures ParseSigned("-" + d) == Some(-(DigitsValue(d) as int))
  {
    ParseDigits(d);
    var t := "-" + d;
    assert t[0] == '-' && t[1..] == d;
  }

  /** `int()` of a digit string is its value. */
  lemma ParseIntDigits(d: string)
    requires d != [] && AllDigits(d)
    ensures ParseInt(d) == Some(DigitsValue(d) as int)
  {
    StripDigits(d, false);
    ParseDigits(d);
    assert d[0] != '-' && d[0] != '+' by { assert IsDigit(d[0]); }
    assert ParseSigned(d) == ParseLiteral(d);
  }

  /** `int()` of a minus sign and a digit string is the negated value. */
  lemma ParseIntNegated(d: string)
    requires d != [] && AllDigits(d)
    ensures ParseInt("-" + d) == Some(-(DigitsValue(d) as int))
  {
    StripDigits(d, true);
    ParseNegated(d);
  }

  /** `int(str(n)) == n`. */
  lemma ParseIntToString(n: int)
    ensures ParseInt(IntToString(n)) == Some(n)
  {
    var m: nat := if n < 0 then -n else n;
    NatToStringValue(m);
    if n < 0 {
      ParseIntNegated(NatToString(m));
    } else {
      ParseIntDigits(NatToString(m));
    }
  }
}
