/** White-space delimited words and the three ways the chunker splits a text. */
module Words {
  import opened Sequences
  import opened Text

  /** The length of the word `s` starts with. */
  function WordLen(s: string): (n: nat)
    ensures n <= |s|
    ensures s != [] && !IsWs(s[0]) ==> n > 0
    ensures n < |s| ==> IsWs(s[n])
  {
    if s == [] || IsWs(s[0]) then 0 else 1 + WordLen(s[1..])
  }

  function WordsOf(s: string): seq<string>
    decreases |s|
  {
    if s == [] then []
    else if IsWs(s[0]) then WordsOf(s[1..])
    else [s[..WordLen(s)]] + WordsOf(s[WordLen(s)..])
  }

  function AllWords(texts: seq<string>): seq<string> {
    if texts == [] then [] else WordsOf(texts[0]) + AllWords(texts[1..])
  }

  /** No white space at either end, and something in between. */
  predicate Trimmed(s: string) { s != [] && !IsWs(s[0]) && !IsWs(s[|s| - 1]) }

  lemma {:induction false} AllWordsConcat(a: seq<string>, b: seq<string>)
    ensures AllWords(a + b) == AllWords(a) + AllWords(b)
  {
    if a == [] {
      assert a + b == b;
    } else {
      assert (a + b)[1..] == a[1..] + b;
      AllWordsConcat(a[1..], b);
    }
  }

  lemma {:induction false} WordLenExtends(a: string, b: string)
    requires a != [] && !IsWs(a[0])
    requires WordLen(a) < |a| || b == [] || IsWs(b[0])
    ensures WordLen(a + b) == WordLen(a)
  {
    assert (a + b)[1..] == a[1..] + b;
    if |a| > 1 && !IsWs(a[1]) {
      WordLenExtends(a[1..], b);
    } else if |a| == 1 {
      assert a[1..] + b == b;
    }
  }

  lemma {:induction false} NoWsInWord(s: string)
    requires WordLen(s) == |s|
    ensures forall i :: 0 <= i < |s| ==> !IsWs(s[i])
  {
    if s != [] {
      NoWsInWord(s[1..]);
      assert forall i :: 0 < i < |s| ==> s[i] == s[1..][i - 1];
    }
  }

  lemma FirstWord(a: string, b: string)
    requires a != [] && !IsWs(a[0])
    requires WordLen(a) < |a| || b == [] || IsWs(b[0])
    ensures WordsOf(a + b) == [a[..WordLen(a)]] + WordsOf(a[WordLen(a)..] + b)
  {
    WordLenExtends(a, b);
    SliceSeam(a, b, WordLen(a));
    WordsStep(a + b, WordLen(a), a[..WordLen(a)], a[WordLen(a)..] + b);
  }

  lemma SliceSeam(a: string, b: string, n: nat)
    requires n <= |a|
    ensures (a + b)[..n] == a[..n] && (a + b)[n..] == a[n..] + b
  {
  }

  lemma WordsStep(s: string, n: nat, word: string, rest: string)
    requires s != [] && !IsWs(s[0]) && WordLen(s) == n
    requires s[..n] == word && s[n..] == rest
    ensures WordsOf(s) == [word] + WordsOf(rest)
  {
  }

  /** Words do not run across white space, so a text can be cut there. */
  lemma {:induction false} WordsSeam(a: string, b: string)
    requires a == [] || b == [] || IsWs(a[|a| - 1]) || IsWs(b[0])
    ensures WordsOf(a + b) == WordsOf(a) + WordsOf(b)
    decreases |a|
  {
    if a == [] {
      Unit(b);
      Unit(WordsOf(b));
    } else if IsWs(a[0]) {
      ConsTail(a, b);
      WordsSeam(a[1..], b);
    } else {
      var n := WordLen(a);
      if n == |a| { NoWsInWord(a); }
      FirstWord(a, b);
      WordsSeam(a[n..], b);
      Associates([a[..n]], WordsOf(a[n..]), WordsOf(b));
    }
  }

  lemma {:induction false} BlankHasNoWords(s: string)
    requires Blank(s)
    ensures WordsOf(s) == []
  {
    if s != [] {
      BlankHasNoWords(s[1..]);
    }
  }

  lemma BlankSuffix(a: string, blank: string)
    requires Blank(blank)
    ensures WordsOf(a + blank) == WordsOf(a)
  {
    BlankHasNoWords(blank);
    WordsSeam(a, blank);
  }

  /** Cutting out a blank separator keeps the words. */
  lemma WordsAround(a: string, sep: string, b: string)
    requires sep != [] && Blank(sep)
    ensures WordsOf(a + sep + b) == WordsOf(a) + WordsOf(b)
  {
    WordsSeam(a, sep);
    BlankHasNoWords(sep);
    var x := a + sep;
    assert x[|x| - 1] == sep[|sep| - 1];
    WordsSeam(x, b);
  }

  // ---- strip -----------------------------------------------------------------------------------

  lemma StripKeepsWords(s: string)
    ensures WordsOf(Strip(s)) == WordsOf(s)
    ensures Strip(s) == [] || Trimmed(Strip(s))
  {
    LeftStripKeepsWords(s);
    RightStripKeepsWords(s[LeadingWs(s)..]);
  }

  lemma LeftStripKeepsWords(s: string)
    ensures WordsOf(s[LeadingWs(s)..]) == WordsOf(s)
  {
    var n := LeadingWs(s);
    LeadingWsBlank(s);
    BlankHasNoWords(s[..n]);
    Halves(s, n);
    WordsSeam(s[..n], s[n..]);
  }

  lemma RightStripKeepsWords(t: string)
    ensures WordsOf(t[..|t| - TrailingWs(t)]) == WordsOf(t)
  {
    var m := |t| - TrailingWs(t);
    Halves(t, m);
    BlankSuffix(t[..m], t[m..]);
  }

  // ---- paragraphs ------------------------------------------------------------------------------

  /** One past the last newline among the first `n` characters, or 0. */
  function AfterLastNewline(s: string, n: nat): (r: nat)
    requires n <= |s|
    ensures r <= n
  {
    if n == 0 then 0 else if s[n - 1] == '\n' then n else AfterLastNewline(s, n - 1)
  }

  /** The length of the match of `\n\s*\n` at the start of `s`, or 0. */
  function BreakLen(s: string): (n: nat)
    ensures n <= LeadingWs(s)
  {
    if s == [] || s[0] != '\n' then 0
    else
      var n := AfterLastNewline(s, LeadingWs(s));
      if n >= 2 then n else 0
  }

  /** The pieces between paragraph breaks; `acc` is the piece read so far. */
  function Pieces(s: string, acc: string): seq<string>
    decreases |s|
  {
    if s == [] then [acc]
    else if BreakLen(s) > 0 then [acc] + Pieces(s[BreakLen(s)..], [])
    else Pieces(s[1..], acc + [s[0]])
  }

  /** Strip every piece and drop the empty ones. */
  function Tidy(pieces: seq<string>): seq<string> {
    if pieces == [] then []
    else (if Strip(pieces[0]) == [] then [] else [Strip(pieces[0])]) + Tidy(pieces[1..])
  }

  function SplitParagraphs(content: string): seq<string> {
    var out := Tidy(Pieces(Strip(content), []));
    if out == [] then [Strip(content)] else out
  }

  lemma CutAt(acc: string, s: string, n: nat)
    requires 0 < n <= LeadingWs(s)
    ensures WordsOf(acc + s) == WordsOf(acc) + WordsOf(s[n..])
  {
    LeadingWsBlank(s);
    assert s[..n] == s[..LeadingWs(s)][..n];
    WordsAround(acc, s[..n], s[n..]);
    assert acc + s[..n] + s[n..] == acc + s;
  }

  lemma {:induction false} PiecesKeepWords(s: string, acc: string)
    ensures AllWords(Pieces(s, acc)) == WordsOf(acc + s)
    decreases |s|
  {
    if s == [] {
      assert acc + s == acc;
      assert AllWords([acc]) == WordsOf(acc) + AllWords([]);
    } else if BreakLen(s) > 0 {
      var n := BreakLen(s);
      PiecesKeepWords(s[n..], []);
      assert [] + s[n..] == s[n..];
      CutAt(acc, s, n);
    } else {
      PiecesKeepWords(s[1..], acc + [s[0]]);
      assert acc + [s[0]] + s[1..] == acc + s;
    }
  }

  lemma {:induction false} TidyKeepsWords(pieces: seq<string>)
    ensures AllWords(Tidy(pieces)) == AllWords(pieces)
  {
    if pieces != [] {
      StripKeepsWords(pieces[0]);
      TidyKeepsWords(pieces[1..]);
      AllWordsConcat(if Strip(pieces[0]) == [] then [] else [Strip(pieces[0])], Tidy(pieces[1..]));
      assert AllWords([Strip(pieces[0])]) == WordsOf(Strip(pieces[0])) + AllWords([]);
    }
  }

  ghost predicate AllTrimmed(units: seq<string>) {
    forall i :: 0 <= i < |units| ==> Trimmed(units[i])
  }

  lemma {:induction false} TidyIsTrimmed(pieces: seq<string>)
    ensures AllTrimmed(Tidy(pieces))
  {
    if pieces != [] {
      StripKeepsWords(pieces[0]);
      TidyIsTrimmed(pieces[1..]);
    }
  }

  /** Paragraphs are trimmed and hold exactly the words of the document; a blank document has one
      empty paragraph. */
  lemma ParagraphsKeepWords(content: string)
    ensures AllWords(SplitParagraphs(content)) == WordsOf(content)
    ensures SplitParagraphs(content) == [""] || AllTrimmed(SplitParagraphs(content))
    ensures SplitParagraphs(content) == [""] <==> WordsOf(content) == []
  {
    var s := Strip(content);
    StripKeepsWords(content);
    PiecesKeepWords(s, []);
    assert [] + s == s;
    TidyKeepsWords(Pieces(s, []));
    TidyIsTrimmed(Pieces(s, []));
    var out := Tidy(Pieces(s, []));
    assert AllWords([s]) == WordsOf(s) + AllWords([]);
    assert s != [] ==> WordsOf(s) != [];
    assert out != [] ==> Trimmed(out[0]) && WordsOf(out[0]) != [];
  }

  // ---- sentences and words ---------------------------------------------------------------------

  predicate EndsSentence(c: char) { c in {'.', '!', '?'} }

  predicate AtSentenceBreak(s: string, acc: string) {
    s != [] && IsWs(s[0]) && acc != [] && EndsSentence(acc[|acc| - 1])
  }

  /** The pieces between the matches of `(?<=[.!?])\s+`. */
  function SentencePieces(s: string, acc: string): (r: seq<string>)
    ensures r != []
    decreases |s|
  {
    if s == [] then [acc]
    else if AtSentenceBreak(s, acc) then [acc] + SentencePieces(s[LeadingWs(s)..], [])
    else SentencePieces(s[1..], acc + [s[0]])
  }

  function SplitSentences(s: string): seq<string> {
    var p := SentencePieces(s, []);
    if |p| > 1 && p[|p| - 1] == [] then p[..|p| - 1] else p
  }

  /** `split("\\s+")`: a leading empty piece before initial white space, none at the end. */
  function SplitWords(s: string): seq<string> {
    if s == [] then [""]
    else if IsWs(s[0]) && WordsOf(s) != [] then [""] + WordsOf(s)
    else WordsOf(s)
  }

  function SplitSmaller(s: string): seq<string> {
    if |SplitSentences(s)| > 1 then SplitSentences(s) else SplitWords(s)
  }

  predicate IsAWord(s: string) { s != [] && WordsOf(s) == [s] }

  lemma {:induction false} WordsAreWords(s: string)
    ensures forall i :: 0 <= i < |WordsOf(s)| ==> IsAWord(WordsOf(s)[i]) && |WordsOf(s)[i]| <= |s|
    decreases |s|
  {
    if s != [] {
      if IsWs(s[0]) {
        WordsAreWords(s[1..]);
      } else {
        var n := WordLen(s);
        WordsAreWords(s[n..]);
        WordPrefix(s);
        assert WordsOf(s)[1..] == WordsOf(s[n..]);
      }
    }
  }

  lemma WordPrefix(s: string)
    requires s != [] && !IsWs(s[0])
    ensures IsAWord(s[..WordLen(s)])
  {
    var n := WordLen(s);
    var w := s[..n];
    WordLenPrefix(s);
    assert w[..n] == w && w[n..] == [];
  }

  lemma {:induction false} WordLenPrefix(s: string)
    requires s != [] && !IsWs(s[0])
    ensures WordLen(s[..WordLen(s)]) == WordLen(s)
  {
    var n := WordLen(s);
    assert s[..n][1..] == s[1..][..n - 1];
    if |s| > 1 && !IsWs(s[1]) {
      WordLenPrefix(s[1..]);
    }
  }

  lemma {:induction false} AllWordsOfWords(ws: seq<string>)
    requires forall i :: 0 <= i < |ws| ==> IsAWord(ws[i])
    ensures AllWords(ws) == ws
  {
    if ws != [] {
      AllWordsOfWords(ws[1..]);
      assert ws == [ws[0]] + ws[1..];
    }
  }

  lemma SplitWordsKeepsWords(s: string)
    ensures AllWords(SplitWords(s)) == WordsOf(s)
  {
    WordsAreWords(s);
    AllWordsOfWords(WordsOf(s));
    if s == [] {
      assert AllWords([""]) == WordsOf("") + AllWords([]);
    } else if IsWs(s[0]) && WordsOf(s) != [] {
      assert ([""] + WordsOf(s))[1..] == WordsOf(s);
    }
  }

  lemma {:induction false} SentencePiecesKeepWords(s: string, acc: string)
    ensures AllWords(SentencePieces(s, acc)) == WordsOf(acc + s)
    decreases |s|
  {
    if s == [] {
      assert acc + s == acc;
      assert AllWords([acc]) == WordsOf(acc) + AllWords([]);
    } else if AtSentenceBreak(s, acc) {
      var n := LeadingWs(s);
      SentencePiecesKeepWords(s[n..], []);
      assert [] + s[n..] == s[n..];
      CutAt(acc, s, n);
    } else {
      SentencePiecesKeepWords(s[1..], acc + [s[0]]);
      assert acc + [s[0]] + s[1..] == acc + s;
    }
  }

  lemma SplitSentencesKeepsWords(s: string)
    ensures AllWords(SplitSentences(s)) == WordsOf(s)
  {
    var p := SentencePieces(s, []);
    SentencePiecesKeepWords(s, []);
    assert [] + s == s;
    if |p| > 1 && p[|p| - 1] == [] {
      assert p == p[..|p| - 1] + [""];
      AllWordsConcat(p[..|p| - 1], [""]);
      assert AllWords([""]) == WordsOf("") + AllWords([]);
    }
  }

  /** Either way of splitting keeps every word. */
  lemma SplitSmallerKeepsWords(s: string)
    ensures AllWords(SplitSmaller(s)) == WordsOf(s)
  {
    SplitSentencesKeepsWords(s);
    SplitWordsKeepsWords(s);
  }

  ghost predicate AllWhole(p: seq<string>) {
    forall i :: 0 <= i < |p| ==> Trimmed(p[i]) && Unbroken(p[i])
  }

  /** Every sentence of a trimmed text is trimmed and cannot be split into sentences again. */
  lemma {:induction false} SentencesAreWhole(s: string, acc: string)
    requires Trimmed(acc + s) && Unbroken(acc)
    ensures AllWhole(SentencePieces(s, acc))
    decreases |s|
  {
    if s == [] {
      assert acc + s == acc;
    } else if AtSentenceBreak(s, acc) {
      SentenceEnds(s, acc);
      var n := LeadingWs(s);
      assert [] + s[n..] == s[n..];
      SentencesAreWhole(s[n..], []);
    } else {
      UnbrokenSnoc(acc, s[0]);
      assert acc + [s[0]] + s[1..] == acc + s;
      SentencesAreWhole(s[1..], acc + [s[0]]);
    }
  }

  lemma SentenceEnds(s: string, acc: string)
    requires Trimmed(acc + s) && AtSentenceBreak(s, acc)
    ensures Trimmed(acc) && Trimmed(s[LeadingWs(s)..])
  {
    assert acc[0] == (acc + s)[0];
    assert s[|s| - 1] == (acc + s)[|acc + s| - 1];
    LeadingWsBlank(s);
    assert LeadingWs(s) != |s|;
  }

  /** No sentence break inside. */
  predicate Unbroken(s: string) {
    forall i :: 0 < i < |s| ==> !(IsWs(s[i]) && EndsSentence(s[i - 1]))
  }

  lemma UnbrokenSnoc(acc: string, c: char)
    requires Unbroken(acc) && !(IsWs(c) && acc != [] && EndsSentence(acc[|acc| - 1]))
    ensures Unbroken(acc + [c])
  {
  }

  lemma {:induction false} UnbrokenStaysWhole(s: string, acc: string)
    requires Unbroken(acc + s)
    ensures SentencePieces(s, acc) == [acc + s]
    decreases |s|
  {
    if s == [] {
      assert acc + s == acc;
    } else {
      var i := |acc|;
      assert (acc + s)[i] == s[0];
      if acc != [] { assert (acc + s)[i - 1] == acc[i - 1]; }
      assert acc + [s[0]] + s[1..] == acc + s;
      UnbrokenStaysWhole(s[1..], acc + [s[0]]);
    }
  }

  /** Splitting a sentence further goes straight to its words. */
  lemma SentenceSplitsToWords(s: string)
    requires Unbroken(s)
    ensures SplitSmaller(s) == SplitWords(s)
  {
    UnbrokenStaysWhole(s, []);
    assert [] + s == s;
  }

  lemma TrimmedSentences(s: string)
    requires Trimmed(s)
    ensures AllWhole(SplitSentences(s)) && |SplitSentences(s)| >= 1
  {
    assert [] + s == s;
    SentencesAreWhole(s, []);
  }

  lemma WordFillsText(s: string)
    requires IsAWord(s)
    ensures WordLen(s) == |s| && !IsWs(s[0])
  {
    assert WordsOf(s)[0] == s;
    if IsWs(s[0]) {
      WordsAreWords(s[1..]);
    } else {
      assert WordsOf(s)[0] == s[..WordLen(s)];
    }
  }

  lemma WordIsUnbroken(s: string)
    requires IsAWord(s)
    ensures Unbroken(s) && !IsWs(s[0]) && SplitSmaller(s) == [s]
  {
    WordFillsText(s);
    NoWsInWord(s);
    SentenceSplitsToWords(s);
  }
}
