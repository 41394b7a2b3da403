/** White space and lines as the archive parser sees them
    (app/services/archive/parser.py). */
module Normalization {
  import opened Text

  // ---- line ends --------------------------------------------------------

  /** `s.replace("\r\n", "\n")`. */
  function ReplaceCrLf(s: string): string {
    if s == "" then ""
    else if |s| >= 2 && s[0] == '\r' && s[1] == '\n' then "\n" + ReplaceCrLf(s[2..])
    else [s[0]] + ReplaceCrLf(s[1..])
  }

  /** `s.replace("\r", "\n")`. */
  function ReplaceCr(s: string): string {
    if s == "" then "" else [if s[0] == '\r' then '\n' else s[0]] + ReplaceCr(s[1..])
  }

  function NormalizeNewlines(s: string): string { ReplaceCr(ReplaceCrLf(s)) }

  /** `s.split("\n")`. */
  function SplitLf(s: string): (lines: seq<string>)
    ensures lines != []
  {
    if s == "" then [""]
    else if s[0] == '\n' then [""] + SplitLf(s[1..])
    else
      var rest := SplitLf(s[1..]);
      [[s[0]] + rest[0]] + rest[1..]
  }

  /** The lines of a text whose lines end with CR LF, CR or LF, in any mix. */
  function UniversalLines(s: string): (lines: seq<string>)
    ensures lines != []
  {
    if s == "" then [""]
    else if |s| >= 2 && s[0] == '\r' && s[1] == '\n' then [""] + UniversalLines(s[2..])
    else if s[0] == '\r' || s[0] == '\n' then [""] + UniversalLines(s[1..])
    else
      var rest := UniversalLines(s[1..]);
      [[s[0]] + rest[0]] + rest[1..]
  }

  /** Replacing line ends and splitting at LF finds exactly the lines of the text. */
  lemma {:induction false} SplittingFindsTheLines(s: string)
    ensures SplitLf(NormalizeNewlines(s)) == UniversalLines(s)
  {
    if s == "" {
    } else if |s| >= 2 && s[0] == '\r' && s[1] == '\n' {
      SplittingFindsTheLines(s[2..]);
      assert ReplaceCrLf(s)[1..] == ReplaceCrLf(s[2..]);
      assert NormalizeNewlines(s)[1..] == NormalizeNewlines(s[2..]);
    } else {
      SplittingFindsTheLines(s[1..]);
      assert ReplaceCrLf(s)[1..] == ReplaceCrLf(s[1..]);
      assert NormalizeNewlines(s)[1..] == NormalizeNewlines(s[1..]);
    }
  }

  lemma {:induction false} LinesHaveNoLineEnds(s: string, i: nat, k: nat)
    requires i < |UniversalLines(s)| && k < |UniversalLines(s)[i]|
    ensures UniversalLines(s)[i][k] != '\r' && UniversalLines(s)[i][k] != '\n'
    decreases |s|
  {
    if s == "" {
    } else if |s| >= 2 && s[0] == '\r' && s[1] == '\n' {
      if i > 0 { LinesHaveNoLineEnds(s[2..], i - 1, k); }
    } else if s[0] == '\r' || s[0] == '\n' {
      if i > 0 { LinesHaveNoLineEnds(s[1..], i - 1, k); }
    } else if i > 0 {
      LinesHaveNoLineEnds(s[1..], i, k);
    } else if k > 0 {
      LinesHaveNoLineEnds(s[1..], 0, k - 1);
    }
  }

  // ---- white space ------------------------------------------------------

  /** `re.sub(r"\s+", " ", s)`. */
  function Collapse(s: string): string
    decreases |s|
  {
    if s == "" then ""
    else if IsSpace(s[0]) then
      assert Start(s, 0) > 0;
      " " + Collapse(s[Start(s, 0)..])
    else [s[0]] + Collapse(s[1..])
  }

  /** `_normalize_text`. */
  function Normalize(s: string): string { Strip(Collapse(NormalizeNewlines(s))) }

  predicate NoSpace(s: string) { forall i :: 0 <= i < |s| ==> !IsSpace(s[i]) }

  /** Where the word at the start of the text ends. */
  function WordEnd(s: string): (k: nat)
    ensures k <= |s|
    ensures NoSpace(s[..k])
    ensures k < |s| ==> IsSpace(s[k])
    ensures s != "" && !IsSpace(s[0]) ==> k > 0
  {
    if s == "" || IsSpace(s[0]) then 0 else WordEnd(s[1..]) + 1
  }

  /** The words of a text: its longest parts without white space. */
  function Words(s: string): seq<string>
    decreases |s|
  {
    if s == "" then []
    else if IsSpace(s[0]) then Words(s[1..])
    else [s[..WordEnd(s)]] + Words(s[WordEnd(s)..])
  }

  /** Words with one space between neighbours. */
  function Join(words: seq<string>): string {
    if words == [] then ""
    else if |words| == 1 then words[0]
    else words[0] + " " + Join(words[1..])
  }

  predicate AreWords(words: seq<string>) {
    forall i :: 0 <= i < |words| ==> words[i] != "" && NoSpace(words[i])
  }

  lemma {:induction false} WordsAreWords(s: string)
    ensures AreWords(Words(s))
    decreases |s|
  {
    hide IsSpace;
    if s == "" {
    } else if IsSpace(s[0]) {
      WordsAreWords(s[1..]);
    } else {
      WordsAreWords(s[WordEnd(s)..]);
    }
  }

  lemma {:induction false} WordsSkipSpace(s: string, k: nat)
    requires k <= |s| && AllSpace(s[..k])
    ensures Words(s) == Words(s[k..])
    decreases k
  {
    hide IsSpace;
    if k > 0 {
      assert IsSpace(s[..k][0]);
      var t := s[1..][..k - 1];
      forall i | 0 <= i < |t| ensures IsSpace(t[i]) {
        assert t[i] == s[..k][i + 1];
      }
      WordsSkipSpace(s[1..], k - 1);
      assert s[1..][k - 1..] == s[k..];
    } else {
      assert s[0..] == s;
    }
  }

  lemma {:induction false} CollapseKeepsWord(s: string)
    ensures Collapse(s) == s[..WordEnd(s)] + Collapse(s[WordEnd(s)..])
  {
    hide IsSpace;
    if s == "" || IsSpace(s[0]) {
      assert s[0..] == s;
    } else {
      CollapseKeepsWord(s[1..]);
      assert s[WordEnd(s)..] == s[1..][WordEnd(s[1..])..];
      assert s[..WordEnd(s)] == [s[0]] + s[1..][..WordEnd(s[1..])];
    }
  }

  function TrailingSpace(s: string): string {
    if s != "" && IsSpace(s[|s| - 1]) then " " else ""
  }

  /** What is left after the first word and the white space behind it. */
  function AfterWord(s: string): (next: string)
    ensures |next| <= |s| && (next == "" || !IsSpace(next[0]))
    ensures s != "" && !IsSpace(s[0]) ==> |next| < |s|
  {
    var rest := s[WordEnd(s)..];
    rest[Start(rest, 0)..]
  }

  lemma StartSkipsSpace(s: string)
    ensures AllSpace(s[..Start(s, 0)])
  {
    hide IsSpace;
  }

  lemma FirstWord(s: string)
    requires s != "" && !IsSpace(s[0])
    ensures WordEnd(s) > 0
    ensures Words(s) == [s[..WordEnd(s)]] + Words(AfterWord(s))
    ensures
      Collapse(s) ==
      s[..WordEnd(s)] + if WordEnd(s) == |s| then "" else " " + Collapse(AfterWord(s))
    ensures WordEnd(s) == |s| ==> AfterWord(s) == ""
    ensures AfterWord(s) != "" ==> AfterWord(s)[|AfterWord(s)| - 1] == s[|s| - 1]
    ensures WordEnd(s) < |s| && AfterWord(s) == "" ==> IsSpace(s[|s| - 1])
    ensures WordEnd(s) == |s| ==> !IsSpace(s[|s| - 1])
  {
    hide IsSpace, AllSpace;
    var k := WordEnd(s);
    var rest := s[k..];
    var j := Start(rest, 0);
    assert AllSpace(rest[..j]) by { StartSkipsSpace(rest); }
    CollapseKeepsWord(s);
    WordsSkipSpace(rest, j);
    assert k == |s| ==> s[..k] == s && !IsSpace(s[..k][|s| - 1]);
    assert rest == "" ==> s[..k] + "" == s[..k];
    assert j == |rest| > 0 ==> IsSpace(rest[|rest| - 1]);
  }

  /** A text that starts with a word collapses to its words, one space apart, and one
      space more if it ends with white space. */
  lemma {:induction false} CollapseJoinsWords(s: string)
    requires s == "" || !IsSpace(s[0])
    ensures Collapse(s) == Join(Words(s)) + TrailingSpace(s)
    decreases |s|
  {
    hide IsSpace, AfterWord, WordEnd;
    if s != "" {
      var word, next := s[..WordEnd(s)], AfterWord(s);
      FirstWord(s);
      CollapseJoinsWords(next);
      WordsOfWordStart(next);
      hide Collapse, Words;
      assert ([word] + Words(next))[1..] == Words(next);
      assert Join(Words(s)) == if next == "" then word else word + " " + Join(Words(next));
    }
  }

  lemma WordsOfWordStart(s: string)
    requires s == "" || !IsSpace(s[0])
    ensures Words(s) == [] <==> s == ""
  {}

  lemma {:induction false} JoinTrimmed(words: seq<string>)
    requires AreWords(words)
    ensures Trimmed(Join(words)) && (Join(words) == "" <==> words == [])
  {
    hide IsSpace;
    if |words| > 1 {
      JoinTrimmed(words[1..]);
      assert Join(words) != "";
    }
  }

  /** White space around a trimmed text is exactly what strip removes. */
  lemma StripPadded(before: string, x: string, after: string)
    requires AllSpace(before) && AllSpace(after) && Trimmed(x)
    ensures Strip(before + x + after) == x
  {
    hide IsSpace;
    var s := before + x + after;
    assert forall i :: 0 <= i < |before| ==> s[i] == before[i] && IsSpace(s[i]);
    assert forall i :: 0 <= i < |x| ==> s[|before| + i] == x[i];
    assert forall i :: |before| + |x| <= i < |s| ==> s[i] == after[i - |before| - |x|] && IsSpace(s[i]);
    if x == "" {
      assert AllSpace(s);
      StripTrims(s);
    } else {
      assert !IsSpace(s[|before| + 0]) && !IsSpace(s[|before| + (|x| - 1)]);
      var a := Start(s, 0);
      assert a == |before|;
      var b := Stop(s, a, |s|);
      assert b == |before| + |x|;
      assert s[a..b] == x;
    }
  }

  /** One more character in front joins the first word, or is a word of its own. */
  lemma WordsCons(c: char, t: string)
    requires !IsSpace(c)
    ensures
      if t == "" || IsSpace(t[0]) then Words([c] + t) == [[c]] + Words(t)
      else Words(t) != [] && Words([c] + t) == [[c] + Words(t)[0]] + Words(t)[1..]
  {
    hide IsSpace;
    var s := [c] + t;
    var k := WordEnd(t);
    assert s[1..] == t;
    assert s[..k + 1] == [c] + t[..k] && s[k + 1..] == t[k..];
    if t == "" || IsSpace(t[0]) {
      assert t[0..] == t && s[..1] == [c];
    }
  }

  /** The texts have the same words, and both or neither start with white space. */
  predicate SameWords(a: string, b: string) {
    Words(a) == Words(b) && (a == "" <==> b == "") && (a != "" ==> (IsSpace(a[0]) <==> IsSpace(b[0])))
  }

  lemma SameWordsCons(c: char, a: string, d: char, b: string)
    requires SameWords(a, b) && (c == d || (IsSpace(c) && IsSpace(d)))
    ensures SameWords([c] + a, [d] + b)
  {
    hide IsSpace;
    if IsSpace(c) {
      assert ([c] + a)[1..] == a && ([d] + b)[1..] == b;
    } else {
      WordsCons(c, a);
      WordsCons(c, b);
    }
  }

  lemma {:induction false} ReplaceCrKeepsWords(s: string)
    ensures SameWords(ReplaceCr(s), s)
  {
    hide SameWords;
    if s == "" {
      assert SameWords(s, s) by { SameAsItself(s); }
    } else {
      ReplaceCrKeepsWords(s[1..]);
      SameWordsCons(if s[0] == '\r' then '\n' else s[0], ReplaceCr(s[1..]), s[0], s[1..]);
      assert [s[0]] + s[1..] == s;
    }
  }

  lemma SameAsItself(s: string)
    ensures SameWords(s, s)
  {}

  lemma {:induction false} ReplaceCrLfKeepsWords(s: string)
    ensures SameWords(ReplaceCrLf(s), s)
    decreases |s|
  {
    hide SameWords;
    if s == "" {
      SameAsItself(s);
    } else if |s| >= 2 && s[0] == '\r' && s[1] == '\n' {
      ReplaceCrLfKeepsWords(s[2..]);
      SpaceAddsNoWord(ReplaceCrLf(s[2..]), s[2..]);
      assert "\r\n" + s[2..] == s;
    } else {
      ReplaceCrLfKeepsWords(s[1..]);
      SameWordsCons(s[0], ReplaceCrLf(s[1..]), s[0], s[1..]);
      assert [s[0]] + s[1..] == s;
    }
  }

  lemma SpaceAddsNoWord(a: string, b: string)
    requires SameWords(a, b)
    ensures SameWords("\n" + a, "\r\n" + b)
  {
    assert ("\n" + a)[1..] == a;
    assert ("\r\n" + b)[1..] == "\n" + b;
    assert ("\n" + b)[1..] == b;
  }

  function LeadingSpace(s: string): string {
    if s != "" && IsSpace(s[0]) then " " else ""
  }

  /** Any text collapses to its words, with a space before and after where it has
      white space there. */
  lemma CollapseFrames(s: string)
    ensures Collapse(s) == LeadingSpace(s) + (Join(Words(s)) + TrailingSpace(s[Start(s, 0)..]))
  {
    var j := Start(s, 0);
    CollapseJoinsWords(s[j..]);
    WordsSkipSpace(s, j);
    hide Words, Join, TrailingSpace, IsSpace;
    if j == 0 {
      assert s[0..] == s;
    } else {
      assert IsSpace(s[0]);
    }
  }

  lemma FramesAreSpace(s: string, t: string)
    ensures AllSpace(LeadingSpace(s)) && AllSpace(TrailingSpace(t))
  {}

  lemma NewlinesKeepWords(s: string)
    ensures Words(NormalizeNewlines(s)) == Words(s)
  {
    hide Words;
    ReplaceCrKeepsWords(ReplaceCrLf(s));
    ReplaceCrLfKeepsWords(s);
  }

  /** Normalising is joining the words: three replacements and a strip refine it. */
  lemma NormalizeJoinsWords(s: string)
    ensures Normalize(s) == Join(Words(s))
  {
    hide Words, Join, Collapse, NormalizeNewlines, Strip, LeadingSpace, TrailingSpace, IsSpace;
    var t := NormalizeNewlines(s);
    var before, x, after := LeadingSpace(t), Join(Words(t)), TrailingSpace(t[Start(t, 0)..]);
    NewlinesKeepWords(s);
    WordsAreWords(t);
    JoinTrimmed(Words(t));
    CollapseFrames(t);
    FramesAreSpace(t, t[Start(t, 0)..]);
    StripPadded(before, x, after);
    assert before + x + after == before + (x + after);
  }

  lemma {:induction false} WordsOfJoin(words: seq<string>)
    requires AreWords(words)
    ensures Words(Join(words)) == words
  {
    assert IsSpace(' ') && IsSpace('\n') && IsSpace('\r');
    hide IsSpace;
    if words == [] {
    } else if |words| == 1 {
      WordThenRest(words[0], "");
      assert words[0] + "" == words[0];
    } else {
      WordsOfJoin(words[1..]);
      WordThenRest(words[0], " " + Join(words[1..]));
      assert words[0] + (" " + Join(words[1..])) == Join(words);
      assert (" " + Join(words[1..]))[1..] == Join(words[1..]);
    }
  }

  /** A word is found again in front of white space or the end. */
  lemma WordThenRest(word: string, rest: string)
    requires word != "" && NoSpace(word) && (rest == "" || IsSpace(rest[0]))
    ensures Words(word + rest) == [word] + Words(rest)
  {
    hide IsSpace;
    var s := word + rest;
    var k := WordEnd(s);
    assert forall i :: 0 <= i < |word| ==> s[i] == word[i] && !IsSpace(s[i]);
    assert rest != "" ==> s[|word|] == rest[0];
    assert forall i :: 0 <= i < k ==> s[i] == s[..k][i] && !IsSpace(s[i]);
    assert k == |word|;
    assert s[..k] == word && s[k..] == rest;
  }

  predicate NoSpaceRuns(s: string) {
    forall i :: 0 <= i < |s| - 1 ==> !(IsSpace(s[i]) && IsSpace(s[i + 1]))
  }

  predicate OnlyBlanks(s: string) { forall i :: 0 <= i < |s| && IsSpace(s[i]) ==> s[i] == ' ' }

  lemma {:induction false} JoinHasSingleBlanks(words: seq<string>)
    requires AreWords(words)
    ensures NoSpaceRuns(Join(words)) && OnlyBlanks(Join(words))
  {
    hide IsSpace;
    if |words| > 1 {
      JoinHasSingleBlanks(words[1..]);
      JoinTrimmed(words[1..]);
      var w, rest := words[0], Join(words[1..]);
      var s := w + " " + rest;
      assert s == Join(words);
      assert forall i :: 0 <= i < |w| ==> s[i] == w[i] && !IsSpace(s[i]);
      assert s[|w|] == ' ' && s[|w| + 1] == rest[0];
      assert forall i :: |w| < i < |s| ==> s[i] == rest[i - |w| - 1];
      forall i | |w| < i < |s| - 1 ensures !(IsSpace(s[i]) && IsSpace(s[i + 1])) {
        assert s[i] == rest[i - |w| - 1] && s[i + 1] == rest[i - |w| - 1 + 1];
      }
    }
  }

  /** Normalised text is trimmed, has single blanks for white space, and stays as it
      is when normalised again; it is empty exactly for blank text. */
  lemma NormalizedText(s: string)
    ensures Normalize(Normalize(s)) == Normalize(s)
    ensures Trimmed(Normalize(s)) && NoSpaceRuns(Normalize(s)) && OnlyBlanks(Normalize(s))
    ensures Normalize(s) == "" <==> AllSpace(s)
  {
    assert IsSpace(' ') && IsSpace('\n') && IsSpace('\r');
    hide IsSpace;
    NormalizeJoinsWords(s);
    WordsAreWords(s);
    WordsOfJoin(Words(s));
    NormalizeJoinsWords(Normalize(s));
    JoinTrimmed(Words(s));
    JoinHasSingleBlanks(Words(s));
    NoWordsIffBlank(s);
  }

  lemma {:induction false} NoWordsIffBlank(s: string)
    ensures Words(s) == [] <==> AllSpace(s)
  {
    hide IsSpace;
    if s != "" && IsSpace(s[0]) {
      NoWordsIffBlank(s[1..]);
      if AllSpace(s[1..]) {
        forall i | 0 <= i < |s| ensures IsSpace(s[i]) {
          if i > 0 { assert s[i] == s[1..][i - 1]; }
        }
      }
    }
  }

  predicate Clean(s: string) { Trimmed(s) && NoSpaceRuns(s) && OnlyBlanks(s) }

  lemma CleanTail(s: string, k: nat)
    requires Clean(s) && k < |s| && IsSpace(s[k])
    ensures s[k] == ' ' && k + 1 < |s| && Clean(s[k + 1..]) && !IsSpace(s[k + 1])
    ensures s == s[..k] + (" " + s[k + 1..])
  {
    hide IsSpace;
    var rest := s[k + 1..];
    assert k + 1 < |s|;
    assert forall i :: 0 <= i < |rest| ==> rest[i] == s[k + 1 + i];
    assert !(IsSpace(s[k]) && IsSpace(s[k + 1]));
    forall i | 0 <= i < |rest| - 1 ensures !(IsSpace(rest[i]) && IsSpace(rest[i + 1])) {
      assert !(IsSpace(s[k + 1 + i]) && IsSpace(s[k + 1 + i + 1]));
    }
  }

  lemma CleanWords(s: string)
    requires Clean(s) && s != "" && WordEnd(s) < |s|
    ensures
      var k := WordEnd(s);
      Clean(s[k + 1..]) && Words(s) == [s[..k]] + Words(s[k + 1..]) && Words(s[k + 1..]) != []
    ensures s == s[..WordEnd(s)] + " " + s[WordEnd(s) + 1..]
  {
    hide *;
    var k := WordEnd(s);
    CleanStart(s);
    CleanTail(s, k);
    WordsOfWordStart(s[k + 1..]);
    UnfoldWords(s);
    UnfoldWords(s[k..]);
    assert s[k..][1..] == s[k + 1..];
  }

  lemma CleanStart(s: string)
    requires Clean(s) && s != ""
    ensures !IsSpace(s[0])
  {
    hide NoSpaceRuns, OnlyBlanks, IsSpace;
  }

  lemma UnfoldWords(s: string)
    requires s != ""
    ensures Words(s) == if IsSpace(s[0]) then Words(s[1..]) else [s[..WordEnd(s)]] + Words(s[WordEnd(s)..])
  {
    hide IsSpace, WordEnd;
  }

  /** A clean text is its own words, one space apart. */
  lemma {:induction false} CleanTextIsItsWords(s: string)
    requires Clean(s)
    ensures Join(Words(s)) == s
    decreases |s|
  {
    hide Words, Clean;
    if s == "" || WordEnd(s) == |s| {
      OneWord(s);
    } else {
      CleanWords(s);
      var word, rest := s[..WordEnd(s)], s[WordEnd(s) + 1..];
      CleanTextIsItsWords(rest);
      assert ([word] + Words(rest))[1..] == Words(rest);
    }
  }

  lemma OneWord(s: string)
    requires WordEnd(s) == |s|
    ensures Join(Words(s)) == s
  {
    if s != "" {
      assert s[..|s|] == s && !IsSpace(s[..|s|][0]);
      assert Words(s) == [s] + Words(s[|s|..]);
    }
  }

  /** Normalisation leaves alone exactly the texts that are trimmed and have single
      blanks for white space. */
  lemma NormalizedIff(s: string)
    ensures Normalize(s) == s <==> Trimmed(s) && NoSpaceRuns(s) && OnlyBlanks(s)
  {
    hide IsSpace, Normalize;
    NormalizedText(s);
    if Trimmed(s) && NoSpaceRuns(s) && OnlyBlanks(s) {
      NormalizeJoinsWords(s);
      CleanTextIsItsWords(s);
    }
  }

  /** A text without line ends is its only line. */
  lemma {:induction false} OneLine(s: string)
    requires forall i :: 0 <= i < |s| ==> s[i] != '\r' && s[i] != '\n'
    ensures UniversalLines(s) == [s]
  {
    if s != "" {
      OneLine(s[1..]);
      assert [s[0]] + s[1..] == s;
    }
  }
}
