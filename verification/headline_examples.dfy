/** Two headlines scored by the rules of `analyze_headline` over its own
    word lists: a plain question, which only the question rule fires, and
    a "BREAKING" headline that stacks clickbait, emotional, news-marker
    and all-caps points. */
module HeadlineExamples {
  import opened Strings
  import opened Headline

  // ---------------------------------------------------------------------
  // Texts over a small alphabet
  // ---------------------------------------------------------------------

  /** Every character of `s` belongs to `alphabet`. */
  predicate Within(s: string, alphabet: set<char>) {
    forall i :: 0 <= i < |s| ==> s[i] in alphabet
  }

  /** A phrase with a character outside the alphabet of `s` does not occur in it. */
  lemma Outside(s: string, alphabet: set<char>, p: string, j: nat)
    requires Within(s, alphabet) && j < |p| && p[j] !in alphabet
    ensures !Contains(s, p)
  {
  }

  /** No phrase of the lexicon occurs in `s` when each has, at position
      `js[k]`, a character outside the alphabet of `s`. */
  lemma NoneWithin(lexicon: seq<string>, s: string, alphabet: set<char>, js: seq<nat>)
    requires Within(s, alphabet) && |js| == |lexicon|
    requires forall k :: 0 <= k < |lexicon| ==> js[k] < |lexicon[k]| && lexicon[k][js[k]] !in alphabet
    ensures !AnyIn(lexicon, s)
  {
    forall k | 0 <= k < |lexicon| ensures !Contains(s, lexicon[k]) {
      Outside(s, alphabet, lexicon[k], js[k]);
    }
  }

  /** Words over an alphabet that holds the space, joined by spaces, stay
      within it. */
  lemma {:induction false} WithinJoin(ws: seq<string>, alphabet: set<char>)
    requires ' ' in alphabet
    requires forall k :: 0 <= k < |ws| ==> Within(ws[k], alphabet)
    ensures Within(Join(ws, " "), alphabet)
    decreases |ws|
  {
    if |ws| >= 2 {
      WithinJoin(ws[1..], alphabet);
      var s := Join(ws, " ");
      var x := Join(ws[1..], " ");
      assert s == ws[0] + " " + x;
      forall i | 0 <= i < |s| ensures s[i] in alphabet {
        if i < |ws[0]| {
          assert s[i] == ws[0][i];
        } else if i > |ws[0]| {
          assert s[i] == x[i - |ws[0]| - 1];
        }
      }
    }
  }

  // ---------------------------------------------------------------------
  // Phrases missing from every word
  // ---------------------------------------------------------------------

  /** Each word `ws[k]`, from `k` on, lacks the character `marks[k]` of `p`. */
  predicate EachLacks(ws: seq<string>, p: string, marks: string, k: nat)
    decreases |ws| - k
  {
    k >= |ws| || (k < |marks| && marks[k] in p && marks[k] !in ws[k] && EachLacks(ws, p, marks, k + 1))
  }

  lemma {:induction false} NotInWordsFrom(ws: seq<string>, p: string, marks: string, k: nat)
    requires k < |ws| && ' ' !in p && EachLacks(ws, p, marks, k)
    ensures !Contains(Join(ws[k..], " "), p)
    decreases |ws| - k
  {
    LacksChar(ws[k], p, marks[k]);
    if k + 1 < |ws| {
      NotInWordsFrom(ws, p, marks, k + 1);
      assert ws[k..][1..] == ws[k + 1..];
      NotAcrossSpace(ws[k], Join(ws[k + 1..], " "), p);
    } else {
      assert ws[k..] == [ws[k]];
    }
  }

  /** A phrase without a space occurs in no space-joined list of words each
      of which lacks one of its characters. */
  lemma NotInWords(ws: seq<string>, p: string, marks: string)
    requires |ws| >= 1 && ' ' !in p && EachLacks(ws, p, marks, 0)
    ensures !Contains(Join(ws, " "), p)
  {
    NotInWordsFrom(ws, p, marks, 0);
    assert ws[0..] == ws;
  }

  /** Without a space in `p`, a word list whose every word lacks a character
      of `p` shows no occurrence of it once joined. */
  lemma NoneInWords(lexicon: seq<string>, ws: seq<string>, marks: seq<string>)
    requires |ws| >= 1 && |marks| == |lexicon|
    requires forall k :: 0 <= k < |lexicon| ==> ' ' !in lexicon[k] && EachLacks(ws, lexicon[k], marks[k], 0)
    ensures !AnyIn(lexicon, Join(ws, " "))
  {
    forall k | 0 <= k < |lexicon| ensures !Contains(Join(ws, " "), lexicon[k]) {
      NotInWords(ws, lexicon[k], marks[k]);
    }
  }

  /** A run of words with words on both sides occurs in the joined list. */
  lemma JoinInner(p: seq<string>, mid: seq<string>, q: seq<string>)
    requires p != [] && mid != [] && q != []
    ensures Contains(Join(p + mid + q, " "), Join(mid, " "))
  {
    JoinAppend(p, mid + q, " ");
    JoinAppend(mid, q, " ");
    var u, x, v := Join(p, " ") + " ", Join(mid, " "), " " + Join(q, " ");
    assert p + mid + q == p + (mid + q);
    assert Join(p + mid + q, " ") == u + x + v;
    ContainsMiddle(u, x, v);
  }

  /** The leading run of words occurs in the joined list. */
  lemma JoinFront(mid: seq<string>, q: seq<string>)
    requires mid != [] && q != []
    ensures Contains(Join(mid + q, " "), Join(mid, " "))
  {
    JoinAppend(mid, q, " ");
    var x, v := Join(mid, " "), " " + Join(q, " ");
    assert Join(mid + q, " ") == [] + x + v;
    ContainsMiddle([], x, v);
  }

  /** The trailing run of words occurs in the joined list. */
  lemma JoinBack(p: seq<string>, mid: seq<string>)
    requires p != [] && mid != []
    ensures Contains(Join(p + mid, " "), Join(mid, " "))
  {
    JoinAppend(p, mid, " ");
    var u, x := Join(p, " ") + " ", Join(mid, " ");
    assert Join(p + mid, " ") == u + x + [];
    ContainsMiddle(u, x, []);
  }

  /** A text that lacks a part of `p` lacks `p`. */
  lemma PartOccurs(s: string, p: string, q: string, j: nat)
    requires Occurs(p, q, j)
    ensures Contains(s, p) ==> Contains(s, q)
  {
    if Contains(s, p) {
      ContainsPart(s, p, q, j);
    }
  }

  /** No entry of a lexicon is a token when every token is within the
      alphabet and no longer than `n`, and each entry is longer or has a
      character outside the alphabet. */
  lemma NoTokenWithin(lexicon: seq<string>, tokens: seq<string>, alphabet: set<char>, n: nat, js: seq<nat>)
    requires forall k :: 0 <= k < |tokens| ==> Within(tokens[k], alphabet) && |tokens[k]| <= n
    requires |js| == |lexicon|
    requires forall k :: 0 <= k < |lexicon| ==>
               |lexicon[k]| > n || (js[k] < |lexicon[k]| && lexicon[k][js[k]] !in alphabet)
    ensures !AnyToken(lexicon, tokens)
  {
    forall k, m | 0 <= k < |lexicon| && 0 <= m < |tokens| ensures lexicon[k] != tokens[m] {
      if |lexicon[k]| <= n && js[k] < |tokens[m]| {
        assert tokens[m][js[k]] in alphabet;
      }
    }
  }

  /** The first two entries of a lexicon and one more occur: at least three
      phrases are detected. */
  lemma ThreeHits(lexicon: seq<string>, s: string, i: nat)
    requires 2 <= i < |lexicon|
    requires Contains(s, lexicon[0]) && Contains(s, lexicon[1]) && Contains(s, lexicon[i])
    ensures |PhrasesIn(lexicon, s)| >= 3
  {
    var a, b := [lexicon[0]] + [lexicon[1]], lexicon[2..];
    assert lexicon == a + b;
    PhrasesInAppend(a, b, s);
    PhrasesInAppend([lexicon[0]], [lexicon[1]], s);
    PhrasesInSingle(lexicon[0], s);
    PhrasesInSingle(lexicon[1], s);
    assert lexicon[i] in b;
    PhrasesInNonEmpty(b, s);
  }

  /** Only the first entry of the lexicon is a token. */
  lemma FirstTokenOnly(lexicon: seq<string>, tokens: seq<string>)
    requires lexicon != [] && lexicon[0] in tokens && !AnyToken(lexicon[1..], tokens)
    ensures TokensIn(lexicon, tokens) == [lexicon[0]]
  {
    assert lexicon == [lexicon[0]] + lexicon[1..];
    TokensInAppend([lexicon[0]], lexicon[1..], tokens);
    TokensInSingle(lexicon[0], tokens);
    TokensInNonEmpty(lexicon[1..], tokens);
  }

  // ---------------------------------------------------------------------
  // Scores from the rules that fire
  // ---------------------------------------------------------------------

  /** A title on which only the question rule fires scores 10. */
  lemma QuestionAlone(lex: Lexicons, t: string)
    requires !Fires(lex, Clickbait, t) && !Fires(lex, Emotional, t) && Fires(lex, Question, t)
    requires !Fires(lex, Number, t) && !Fires(lex, Superlative, t) && !Fires(lex, NewsMarker, t)
    requires !Fires(lex, Long, t) && !Fires(lex, AllCaps, t) && !Fires(lex, Morbid, t) && !Fires(lex, Mom, t)
    ensures Score(lex, t) == 10
  {
    ScoreIsCappedSum(lex, t);
  }

  /** The all-caps rule stays silent when every word of the title longer
      than two characters has a lower-case letter. */
  lemma NoCapsWord(lex: Lexicons, t: string)
    requires forall w :: w in Words(t) ==> |w| <= 2 || exists i :: 0 <= i < |w| && IsLower(w[i])
    ensures !Fires(lex, AllCaps, t)
  {
  }

  /** Three or more clickbait phrases, one emotional word, a news marker and
      an all-caps word, and no other rule: 60 + 15 + 5 + 5. */
  lemma ClickbaitStack(lex: Lexicons, t: string)
    requires |DetectedPhrases(lex, t)| >= 3 && |DetectedWords(lex, t)| == 1
    requires Fires(lex, NewsMarker, t) && Fires(lex, AllCaps, t)
    requires !Fires(lex, Question, t) && !Fires(lex, Number, t) && !Fires(lex, Superlative, t)
    requires !Fires(lex, Long, t) && !Fires(lex, Morbid, t) && !Fires(lex, Mom, t)
    ensures Score(lex, t) == 85
  {
    ScoreIsCappedSum(lex, t);
  }

  /** The clickbait phrases found, read off the lower-cased title. */
  lemma Counted(lex: Lexicons, t: string, s: string)
    requires Lower(t) == s
    ensures DetectedPhrases(lex, t) == PhrasesIn(lex.clickbait, s)
  {
  }

  /** The emotional words found, read off the lower-cased title. */
  lemma Moved(lex: Lexicons, t: string, s: string)
    requires Lower(t) == s
    ensures DetectedWords(lex, t) == TokensIn(lex.emotional, Words(s))
  {
  }

  // ---------------------------------------------------------------------
  // "What time is it?"
  // ---------------------------------------------------------------------

  const AskingTitle: string := "What time is it?"
  const AskingLower: string := "what time is it?"
  const AskingWords: seq<string> := ["What", "time", "is", "it?"]
  const AskingTokens: seq<string> := ["what", "time", "is", "it?"]
  const AskingChars: set<char> := {'w', 'h', 'a', 't', ' ', 'i', 'm', 'e', 's', '?'}

  lemma AskingLowered()
    ensures Lower(AskingTitle) == AskingLower
    ensures Within(AskingLower, AskingChars)
    ensures AskingLower == Join(AskingTokens, " ")
  {
  }

  lemma AskingWordsOfTitle()
    ensures Words(AskingTitle) == AskingWords
  {
    assert Join(AskingWords, " ") == AskingTitle;
    assert AllWords(AskingWords);
    WordsJoin(AskingWords);
  }

  lemma AskingNoClickbait(s: string)
    requires Within(s, AskingChars)
    ensures !AnyIn(ClickbaitPhrases, s)
  {
    NoneWithin(ClickbaitPhrases, s, AskingChars,
               [0, 2, 2, 3, 0, 0, 1, 1, 2, 0, 2, 2, 1, 3, 5, 2, 0, 0, 0, 1, 2, 4]);
  }

  lemma AskingNotEmotional(s: string)
    requires Within(s, AskingChars)
    ensures !AnyToken(EmotionalWords, Words(s))
  {
    NoneWithin(EmotionalWords, s, AskingChars, [2, 1, 1, 0, 2, 0, 1, 3, 0, 1, 0, 2, 1, 0, 3, 0, 1, 0]);
    forall w | w in EmotionalWords && w in Words(s) ensures false {
      WordsOccur(s, w);
    }
  }

  /** "easiest" is spelt with the title's letters, but no word of it holds the phrase. */
  lemma AskingNoSuperlative(s: string)
    requires s == Join(AskingTokens, " ") && Within(s, AskingChars)
    ensures !AnyIn(Superlatives, s)
  {
    NotInWords(AskingTokens, "easiest", "eaee");
    var others := Superlatives[..5] + Superlatives[6..];
    NoneWithin(others, s, AskingChars, [0, 1, 1, 0, 0, 0, 2, 0]);
    forall p | p in Superlatives ensures !Contains(s, p) {
      if p != "easiest" {
        assert p in others;
      }
    }
  }

  lemma AskingNoMarkers(s: string)
    requires Within(s, AskingChars)
    ensures !Contains(s, "news") && !AnyIn(NewsMarkers, s)
    ensures !AnyIn(MorbidTerms, s)
    ensures !(Contains(s, "mom") && !Contains(s, "moment"))
  {
    Outside(s, AskingChars, "news", 0);
    Outside(s, AskingChars, "mom", 1);
    NoneWithin(NewsMarkers, s, AskingChars, [0, 0, 1]);
    NoneWithin(MorbidTerms, s, AskingChars, [2, 1, 0, 0, 0]);
  }

  lemma AskingAsks()
    ensures Fires(SourceLexicons, Question, AskingTitle)
    ensures !Fires(SourceLexicons, Number, AskingTitle)
    ensures !Fires(SourceLexicons, Long, AskingTitle)
  {
    AskingLowered();
    assert EndsWith(AskingLower, "?");
  }

  lemma AskingLowerCase()
    ensures forall w :: w in AskingWords ==> |w| <= 2 || exists i :: 0 <= i < |w| && IsLower(w[i])
  {
    assert IsLower(AskingWords[0][1]) && IsLower(AskingWords[1][0]) && IsLower(AskingWords[3][0]);
  }

  lemma AskingNotCaps()
    ensures !Fires(SourceLexicons, AllCaps, AskingTitle)
  {
    AskingWordsOfTitle();
    AskingLowerCase();
    NoCapsWord(SourceLexicons, AskingTitle);
  }

  /** The clickbait and emotional rules stay silent on "What time is it?". */
  lemma AskingCalm(t: string, s: string)
    requires Lower(t) == s && Within(s, AskingChars)
    ensures !Fires(SourceLexicons, Clickbait, t) && !Fires(SourceLexicons, Emotional, t)
  {
    AskingNoClickbait(s);
    AskingNotEmotional(s);
  }

  /** The superlative, news-marker, morbid and mom rules stay silent on "What time is it?". */
  lemma AskingUnmarked(t: string, s: string)
    requires Lower(t) == s && s == Join(AskingTokens, " ") && Within(s, AskingChars)
    ensures !Fires(SourceLexicons, Superlative, t) && !Fires(SourceLexicons, NewsMarker, t)
    ensures !Fires(SourceLexicons, Morbid, t) && !Fires(SourceLexicons, Mom, t)
  {
    AskingNoSuperlative(s);
    AskingNoMarkers(s);
  }

  /** "What time is it?" scores 10: it asks a question and nothing else. */
  lemma AskingScoresTen()
    ensures Score(SourceLexicons, AskingTitle) == 10
  {
    AskingLowered();
    AskingCalm(AskingTitle, AskingLower);
    AskingUnmarked(AskingTitle, AskingLower);
    AskingAsks();
    AskingNotCaps();
    QuestionAlone(SourceLexicons, AskingTitle);
  }

  // ---------------------------------------------------------------------
  // "BREAKING: You Won't Believe This Shocking Secret!"
  // ---------------------------------------------------------------------

  const BreakingWords: seq<string> := ["BREAKING:", "You", "Won't", "Believe", "This", "Shocking", "Secret!"]
  const BreakingLower: seq<string> := ["breaking:", "you", "won't", "believe", "this", "shocking", "secret!"]
  /** The 49-character headline, as its words joined by single spaces. */
  const BreakingTitle: string := Join(BreakingWords, " ")
  const BreakingChars: set<char> :=
    {' ', '!', '\'', ':', 'a', 'b', 'c', 'e', 'g', 'h', 'i', 'k', 'l', 'n', 'o', 'r', 's', 't', 'u', 'v', 'w', 'y'}

  lemma BreakingLowerEach()
    ensures LowerEach(BreakingWords) == BreakingLower
  {
    assert Lower("BREAKING:") == "breaking:";
    assert Lower("You") == "you";
    assert Lower("Won't") == "won't";
    assert Lower("Believe") == "believe";
    assert Lower("This") == "this";
    assert Lower("Shocking") == "shocking";
    assert Lower("Secret!") == "secret!";
  }

  lemma BreakingLowered()
    ensures Lower(BreakingTitle) == Join(BreakingLower, " ")
  {
    LowerJoin(BreakingWords);
    BreakingLowerEach();
  }

  lemma BreakingWithin()
    ensures Within(Join(BreakingLower, " "), BreakingChars)
  {
    forall k | 0 <= k < |BreakingLower| ensures Within(BreakingLower[k], BreakingChars) { }
    WithinJoin(BreakingLower, BreakingChars);
  }

  lemma BreakingTokens()
    ensures Words(Join(BreakingLower, " ")) == BreakingLower
  {
    assert AllWords(BreakingLower);
    WordsJoin(BreakingLower);
  }

  lemma BreakingWordsOfTitle()
    ensures Words(BreakingTitle) == BreakingWords
  {
    assert AllWords(BreakingWords);
    WordsJoin(BreakingWords);
  }

  lemma BreakingShape()
    ensures |BreakingTitle| == 49 && BreakingTitle[0] == 'B'
    ensures var s := Join(BreakingLower, " "); s != [] && s[0] == 'b'
  {
  }

  lemma BreakingRuns(s: string)
    requires s == Join(BreakingLower, " ")
    ensures Contains(s, "you won't believe") && Contains(s, "shocking")
  {
    BreakingDisbelief(s);
    assert BreakingLower == ["breaking:", "you", "won't", "believe", "this"] + ["shocking"] + ["secret!"];
    JoinInner(["breaking:", "you", "won't", "believe", "this"], ["shocking"], ["secret!"]);
  }

  lemma BreakingDisbelief(s: string)
    requires s == Join(BreakingLower, " ")
    ensures Contains(s, "you won't believe")
  {
    BreakingDisbeliefRun(s);
    DisbeliefJoined();
  }

  lemma BreakingDisbeliefRun(s: string)
    requires s == Join(BreakingLower, " ")
    ensures Contains(s, Join(["you", "won't", "believe"], " "))
  {
    assert BreakingLower == ["breaking:"] + ["you", "won't", "believe"] + ["this", "shocking", "secret!"];
    JoinInner(["breaking:"], ["you", "won't", "believe"], ["this", "shocking", "secret!"]);
  }

  lemma DisbeliefJoined()
    ensures Join(["you", "won't", "believe"], " ") == "you won't believe"
  {
  }

  lemma BreakingEnds(s: string)
    requires s == Join(BreakingLower, " ")
    ensures Contains(s, "secret") && Contains(s, "breaking")
  {
    assert BreakingLower == ["breaking:", "you", "won't", "believe", "this", "shocking"] + ["secret!"];
    JoinBack(["breaking:", "you", "won't", "believe", "this", "shocking"], ["secret!"]);
    ContainsPart(s, "secret!", "secret", 0);
    assert BreakingLower == ["breaking:"] + ["you", "won't", "believe", "this", "shocking", "secret!"];
    JoinFront(["breaking:"], ["you", "won't", "believe", "this", "shocking", "secret!"]);
    ContainsPart(s, "breaking:", "breaking", 0);
  }

  lemma BreakingClickbait(s: string)
    requires Contains(s, "you won't believe") && Contains(s, "shocking") && Contains(s, "secret")
    ensures |PhrasesIn(ClickbaitPhrases, s)| >= 3
  {
    ThreeHits(ClickbaitPhrases, s, 10);
  }

  lemma BreakingEmotional()
    ensures TokensIn(EmotionalWords, BreakingLower) == ["shocking"]
  {
    NoTokenWithin(EmotionalWords[1..], BreakingLower, BreakingChars, 9,
                  [1, 0, 0, 0, 0, 0, 1, 0, 0, 0, 0, 0, 2, 0, 0, 4, 0]);
    FirstTokenOnly(EmotionalWords, BreakingLower);
  }

  lemma BreakingNoQuestion(s: string)
    requires s != [] && s[0] == 'b' && Within(s, BreakingChars)
    ensures !AsksQuestion(QuestionWords, s)
  {
    Outside(s, BreakingChars, "?", 0);
    Outside(s, BreakingChars, "?\n", 0);
    if EndsWith(s, "?") { EndsWithContains(s, "?"); }
    if EndsWith(s, "?\n") { EndsWithContains(s, "?\n"); }
    forall w | w in QuestionWords ensures !StartsWith(s, w) {
      assert w[0] != 'b';
    }
  }

  lemma BreakingNoSuperlativeA()
    ensures !AnyIn(["best", "worst", "biggest"], Join(BreakingLower, " "))
  {
    NoneInWords(["best", "worst", "biggest"], BreakingLower, ["sbbsbbb", "wwrwwww", "sbbgbbb"]);
  }

  lemma BreakingNoSuperlativeB()
    ensures !AnyIn(["greatest", "easiest"], Join(BreakingLower, " "))
  {
    NoneInWords(["greatest", "easiest"], BreakingLower, ["tggggrg", "seeaeea"]);
  }

  lemma BreakingNoSuperlativeC()
    ensures !AnyIn(["highest", "lowest"], Join(BreakingLower, " "))
  {
    NoneInWords(["highest", "lowest"], BreakingLower, ["hhhhgeh", "lllolll"]);
  }

  lemma BreakingNoSuperlative(s: string)
    requires s == Join(BreakingLower, " ") && Within(s, BreakingChars)
    ensures !AnyIn(Superlatives, s)
  {
    BreakingNoSuperlativeA();
    BreakingNoSuperlativeB();
    BreakingNoSuperlativeC();
    Outside(s, BreakingChars, "most", 0);
    Outside(s, BreakingChars, "deadliest", 0);
  }

  lemma BreakingNoKill(s: string)
    requires s == Join(BreakingLower, " ")
    ensures !Contains(s, "kill") && !Contains(s, "serial killer")
  {
    NotInWords(BreakingLower, "kill", "lkkkklk");
    PartOccurs(s, "serial killer", "kill", 7);
  }

  lemma BreakingNotMorbid(s: string)
    requires s == Join(BreakingLower, " ") && Within(s, BreakingChars)
    ensures !AnyIn(MorbidTerms, s) && !Contains(s, "mom")
  {
    BreakingNoKill(s);
    Outside(s, BreakingChars, "murder", 0);
    Outside(s, BreakingChars, "dead", 0);
    Outside(s, BreakingChars, "death", 0);
    Outside(s, BreakingChars, "mom", 0);
  }

  lemma BreakingCapsWord()
    ensures IsUpperWord("BREAKING:")
  {
    assert IsUpper("BREAKING:"[0]);
  }

  lemma BreakingPhrases(s: string)
    requires s == Join(BreakingLower, " ")
    ensures |PhrasesIn(ClickbaitPhrases, s)| >= 3
  {
    BreakingRuns(s);
    BreakingEnds(s);
    BreakingClickbait(s);
  }

  lemma BreakingWordsOfLower(s: string)
    requires s == Join(BreakingLower, " ")
    ensures TokensIn(EmotionalWords, Words(s)) == ["shocking"]
  {
    BreakingTokens();
    BreakingEmotional();
  }

  /** The lexicons `analyze_headline` uses. */
  predicate IsSource(lex: Lexicons) {
    && lex.clickbait == ClickbaitPhrases && lex.emotional == EmotionalWords
    && lex.questionWords == QuestionWords && lex.superlatives == Superlatives
    && lex.newsMarkers == NewsMarkers && lex.morbid == MorbidTerms
  }

  lemma BreakingMarked(lex: Lexicons, t: string, s: string)
    requires IsSource(lex) && Lower(t) == s && Contains(s, "breaking")
    requires "BREAKING:" in Words(t) && IsUpperWord("BREAKING:")
    ensures Fires(lex, NewsMarker, t) && Fires(lex, AllCaps, t)
  {
    assert "breaking" in NewsMarkers;
  }

  lemma BreakingNotAsking(lex: Lexicons, t: string, s: string)
    requires IsSource(lex) && Lower(t) == s && !AsksQuestion(QuestionWords, s) && |t| == 49 && t[0] == 'B'
    ensures !Fires(lex, Question, t) && !Fires(lex, Number, t) && !Fires(lex, Long, t)
  {
  }

  lemma BreakingNotSuperlative(lex: Lexicons, t: string, s: string)
    requires IsSource(lex) && Lower(t) == s && !AnyIn(Superlatives, s)
    ensures !Fires(lex, Superlative, t)
  {
  }

  lemma BreakingNotGrim(lex: Lexicons, t: string, s: string)
    requires IsSource(lex) && Lower(t) == s && !AnyIn(MorbidTerms, s) && !Contains(s, "mom")
    ensures !Fires(lex, Morbid, t) && !Fires(lex, Mom, t)
  {
  }

  /** The two counting rules on the BREAKING headline. */
  lemma BreakingCounted(t: string, s: string)
    requires Lower(t) == s && s == Join(BreakingLower, " ")
    ensures |DetectedPhrases(SourceLexicons, t)| >= 3
  {
    BreakingPhrases(s);
    Counted(SourceLexicons, t, s);
  }

  lemma BreakingMoved(t: string, s: string)
    requires Lower(t) == s && s == Join(BreakingLower, " ")
    ensures |DetectedWords(SourceLexicons, t)| == 1
  {
    BreakingWordsOfLower(s);
    Moved(SourceLexicons, t, s);
  }

  /** The news-marker and all-caps rules fire on the BREAKING headline. */
  lemma BreakingLoud(lex: Lexicons, t: string)
    requires IsSource(lex) && Lower(t) == Join(BreakingLower, " ") && Words(t) == BreakingWords
    ensures Fires(lex, NewsMarker, t) && Fires(lex, AllCaps, t)
  {
    var s := Lower(t);
    BreakingEnds(s);
    BreakingCapsWord();
    BreakingMarked(lex, t, s);
  }

  /** The question, number and length rules stay silent on the BREAKING headline. */
  lemma BreakingPlain(lex: Lexicons, t: string)
    requires IsSource(lex) && Lower(t) == Join(BreakingLower, " ") && |t| == 49 && t[0] == 'B'
    ensures !Fires(lex, Question, t) && !Fires(lex, Number, t) && !Fires(lex, Long, t)
  {
    var s := Lower(t);
    BreakingWithin();
    BreakingShape();
    BreakingNoQuestion(s);
    BreakingNotAsking(lex, t, s);
  }

  /** The superlative, morbid and mom rules stay silent on the BREAKING headline. */
  lemma BreakingTame(lex: Lexicons, t: string)
    requires IsSource(lex) && Lower(t) == Join(BreakingLower, " ")
    ensures !Fires(lex, Superlative, t) && !Fires(lex, Morbid, t) && !Fires(lex, Mom, t)
  {
    var s := Lower(t);
    BreakingWithin();
    BreakingNoSuperlative(s);
    BreakingNotMorbid(s);
    BreakingNotSuperlative(lex, t, s);
    BreakingNotGrim(lex, t, s);
  }

  /** Of the flat rules, only the news-marker and all-caps rules fire on
      the BREAKING headline. */
  lemma BreakingFlat(lex: Lexicons, t: string)
    requires IsSource(lex) && Lower(t) == Join(BreakingLower, " ") && Words(t) == BreakingWords
    requires |t| == 49 && t[0] == 'B'
    ensures Fires(lex, NewsMarker, t) && Fires(lex, AllCaps, t)
    ensures !Fires(lex, Question, t) && !Fires(lex, Number, t) && !Fires(lex, Long, t)
    ensures !Fires(lex, Superlative, t) && !Fires(lex, Morbid, t) && !Fires(lex, Mom, t)
  {
    BreakingLoud(lex, t);
    BreakingPlain(lex, t);
    BreakingTame(lex, t);
  }

  /** "BREAKING: You Won't Believe This Shocking Secret!" scores 85: three
      clickbait phrases (60), one emotional word (15), a news marker (5)
      and an all-caps word (5). */
  lemma BreakingScoresEightyFive()
    ensures Score(SourceLexicons, BreakingTitle) == 85
  {
    var lex, t := SourceLexicons, BreakingTitle;
    BreakingLowered();
    BreakingWordsOfTitle();
    BreakingShape();
    BreakingCounted(t, Lower(t));
    BreakingMoved(t, Lower(t));
    BreakingFlat(lex, t);
    ClickbaitStack(lex, t);
  }
}
