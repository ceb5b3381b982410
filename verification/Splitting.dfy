/** Where the chunker's three ways of splitting cut a text: the pieces, and the white space between them. */
module Splitting {
  import opened Sequences
  import opened Text
  import opened Words

  /** The pieces with the gaps between them. */
  function Woven(pieces: seq<string>, gaps: seq<string>): string
    requires |pieces| == |gaps| + 1
  {
    if gaps == [] then pieces[0] else pieces[0] + (gaps[0] + Woven(pieces[1..], gaps[1..]))
  }

  predicate AllBlank(gaps: seq<string>) { forall i :: 0 <= i < |gaps| ==> gaps[i] != [] && Blank(gaps[i]) }

  lemma WovenCons(piece: string, gap: string, pieces: seq<string>, gaps: seq<string>)
    requires |pieces| == |gaps| + 1
    ensures Woven([piece] + pieces, [gap] + gaps) == piece + (gap + Woven(pieces, gaps))
  {
    assert ([piece] + pieces)[1..] == pieces && ([gap] + gaps)[1..] == gaps;
  }

  // ---- words ----------------------------------------------------------------------------------------------

  predicate NoWs(s: string) { forall i :: 0 <= i < |s| ==> !IsWs(s[i]) }

  lemma LeadingWord(s: string)
    requires s != [] && !IsWs(s[0])
    ensures var w := s[..WordLen(s)]; w != [] && NoWs(w)
  {
    WordPrefix(s);
    WordFillsText(s[..WordLen(s)]);
    NoWsInWord(s[..WordLen(s)]);
  }

  lemma BlankMeansNoWords(s: string)
    ensures WordsOf(s) == [] <==> Blank(s)
    decreases |s|
  {
    if s != [] && IsWs(s[0]) {
      BlankMeansNoWords(s[1..]);
      assert Blank(s) <==> Blank(s[1..]) by {
        assert forall i :: 0 < i < |s| ==> s[i] == s[1..][i - 1];
        assert forall i :: 0 <= i < |s| - 1 ==> s[1..][i] == s[i + 1];
      }
    }
  }

  /** A text is its words, which hold no white space, with white space between and around them. */
  lemma {:induction false} WordsAreWoven(s: string) returns (lead: string, gaps: seq<string>, trail: string)
    requires WordsOf(s) != []
    ensures |WordsOf(s)| == |gaps| + 1 && Blank(lead) && AllBlank(gaps) && Blank(trail)
    ensures s == lead + (Woven(WordsOf(s), gaps) + trail)
    ensures forall i :: 0 <= i < |WordsOf(s)| ==> WordsOf(s)[i] != [] && NoWs(WordsOf(s)[i])
    decreases |s|
  {
    if IsWs(s[0]) {
      lead, gaps, trail := WordsAreWoven(s[1..]);
      assert s == [s[0]] + s[1..];
      Associates([s[0]], lead, Woven(WordsOf(s), gaps) + trail);
      lead := [s[0]] + lead;
    } else {
      var n := WordLen(s);
      LeadingWord(s);
      Halves(s, n);
      BlankMeansNoWords(s[n..]);
      if WordsOf(s[n..]) == [] {
        lead, gaps, trail := [], [], s[n..];
        Unit(Woven(WordsOf(s), gaps) + trail);
      } else {
        var l, g, t := WordsAreWoven(s[n..]);
        GapNotEmpty(s, n, l, WordsOf(s[n..]), g, t);
        WovenCons(s[..n], l, WordsOf(s[n..]), g);
        lead, gaps, trail := [], [l] + g, t;
        FirstWoven(s[..n], l, Woven(WordsOf(s[n..]), g), t);
      }
    }
  }

  lemma FirstWoven(word: string, gap: string, rest: string, trail: string)
    ensures word + (gap + (rest + trail)) == [] + ((word + (gap + rest)) + trail)
  {
  }

  lemma WovenNotEmpty(pieces: seq<string>, gaps: seq<string>)
    requires |pieces| == |gaps| + 1 && pieces[0] != []
    ensures Woven(pieces, gaps) != [] && Woven(pieces, gaps)[0] == pieces[0][0]
  {
  }

  lemma GapNotEmpty(s: string, n: nat, lead: string, words: seq<string>, gaps: seq<string>, trail: string)
    requires n < |s| && IsWs(s[n]) && |words| == |gaps| + 1
    requires words[0] != [] && NoWs(words[0]) && s[n..] == lead + (Woven(words, gaps) + trail)
    ensures lead != []
  {
    WovenNotEmpty(words, gaps);
    assert s[n..][0] == s[n];
    Unit(Woven(words, gaps) + trail);
  }

  /** The words with single blanks between them. */
  function Spaced(words: seq<string>): string
    requires words != []
  {
    if |words| == 1 then words[0] else words[0] + " " + Spaced(words[1..])
  }

  /** Split at white space, a text is its pieces and what they were split at: where it begins with white space the
      first piece is empty, and white space at its end belongs to no piece. */
  lemma WordSplitIsWoven(s: string) returns (gaps: seq<string>, trail: string)
    requires WordsOf(s) != []
    ensures |SplitWords(s)| == |gaps| + 1 && AllBlank(gaps) && Blank(trail) && s == Woven(SplitWords(s), gaps) + trail
    ensures forall i :: 0 <= i < |SplitWords(s)| ==> NoWs(SplitWords(s)[i]) && (SplitWords(s)[i] == [] ==> i == 0)
  {
    var lead, g, t := WordsAreWoven(s);
    trail := t;
    if IsWs(s[0]) {
      LeadNotEmpty(s, lead, WordsOf(s), g, t);
      WovenCons([], lead, WordsOf(s), g);
      gaps := [lead] + g;
      Reshaped(lead, Woven(WordsOf(s), g), t);
    } else {
      gaps := g;
      NoLead(s, lead, Woven(WordsOf(s), g) + t);
      Unit(Woven(WordsOf(s), g) + t);
    }
  }

  lemma LeadNotEmpty(s: string, lead: string, words: seq<string>, gaps: seq<string>, trail: string)
    requires s != [] && IsWs(s[0]) && |words| == |gaps| + 1 && words[0] != [] && NoWs(words[0])
    requires s == lead + (Woven(words, gaps) + trail)
    ensures lead != []
  {
    WovenNotEmpty(words, gaps);
  }

  lemma NoLead(s: string, lead: string, rest: string)
    requires s != [] && !IsWs(s[0]) && Blank(lead) && s == lead + rest
    ensures lead == []
  {
  }

  lemma Reshaped(lead: string, rest: string, trail: string)
    ensures ([] + (lead + rest)) + trail == lead + (rest + trail)
  {
  }

  // ---- sentences ------------------------------------------------------------------------------------------

  /** Each piece but the last ends a sentence. */
  predicate EndSentences(pieces: seq<string>) {
    forall i :: 0 <= i < |pieces| - 1 ==> pieces[i] != [] && pieces[i][|pieces[i]| - 1] in ['.', '!', '?']
  }

  /** No mark before white space. */
  predicate OneSentence(s: string) {
    forall i :: 0 < i < |s| && s[i - 1] in ['.', '!', '?'] ==> !IsWs(s[i])
  }

  lemma {:induction false} SentencesAreWoven(s: string, acc: string) returns (gaps: seq<string>)
    ensures |SentencePieces(s, acc)| == |gaps| + 1 && AllBlank(gaps)
    ensures acc + s == Woven(SentencePieces(s, acc), gaps) && EndSentences(SentencePieces(s, acc))
    decreases |s|
  {
    if s == [] {
      Unit(acc);
      gaps := [];
    } else if AtSentenceBreak(s, acc) {
      var n := LeadingWs(s);
      var rest := SentencesAreWoven(s[n..], []);
      Unit(s[n..]);
      Halves(s, n);
      LeadingWsBlank(s);
      WovenCons(acc, s[..n], SentencePieces(s[n..], []), rest);
      gaps := [s[..n]] + rest;
    } else {
      gaps := SentencesAreWoven(s[1..], acc + [s[0]]);
      assert acc + [s[0]] + s[1..] == acc + s;
    }
  }

  /** A trimmed text is its sentences with white space between them. Each sentence is trimmed, each but the last
      ends with a mark, and none holds a mark before white space. */
  lemma SentencesExactly(s: string) returns (gaps: seq<string>)
    requires Trimmed(s)
    ensures var p := SplitSentences(s);
            && |p| == |gaps| + 1 && AllBlank(gaps) && s == Woven(p, gaps) && EndSentences(p)
            && forall i :: 0 <= i < |p| ==> Trimmed(p[i]) && OneSentence(p[i])
  {
    TrimmedSentences(s);
    Unit(s);
    SentencesAreWhole(s, []);
    gaps := SentencesAreWoven(s, []);
  }

  // ---- paragraphs -----------------------------------------------------------------------------------------

  predicate Newlines(s: string, i: nat, j: nat) { i < j < |s| && s[i] == '\n' && s[j] == '\n' && Blank(s[i..j]) }

  /** White space with a blank line in it. */
  ghost predicate HoldsBlankLine(gap: string) { Blank(gap) && exists i: nat, j: nat :: Newlines(gap, i, j) }

  ghost predicate AllBlankLines(gaps: seq<string>) { forall i :: 0 <= i < |gaps| ==> HoldsBlankLine(gaps[i]) }

  /** No blank line inside. */
  ghost predicate OneParagraph(s: string) { !exists i: nat, j: nat :: Newlines(s, i, j) }

  /** A text is what strip leaves of it, with white space around. */
  lemma StripExactly(s: string) returns (lead: string, trail: string)
    ensures Blank(lead) && Blank(trail) && s == lead + (Strip(s) + trail)
    ensures Strip(s) == [] || Trimmed(Strip(s))
  {
    var n := LeadingWs(s);
    var t := s[n..];
    var m := |t| - TrailingWs(t);
    LeadingWsBlank(s);
    StripKeepsWords(s);
    lead, trail := s[..n], t[m..];
    Halves(s, n);
    Halves(t, m);
  }

  lemma BreakHoldsBlankLine(s: string)
    requires BreakLen(s) > 0
    ensures HoldsBlankLine(s[..BreakLen(s)])
  {
    var n := BreakLen(s);
    LeadingWsBlank(s);
    AfterNewline(s, LeadingWs(s));
    var gap := s[..n];
    assert forall k :: 0 <= k < n ==> gap[k] == s[..LeadingWs(s)][k];
    assert Newlines(gap, 0, n - 1);
  }

  lemma {:induction false} AfterNewline(s: string, n: nat)
    requires n <= |s|
    ensures AfterLastNewline(s, n) > 0 ==> s[AfterLastNewline(s, n) - 1] == '\n'
    ensures forall k :: AfterLastNewline(s, n) <= k < n ==> s[k] != '\n'
  {
    if n > 0 && s[n - 1] != '\n' { AfterNewline(s, n - 1); }
  }

  lemma {:induction false} BlankLeads(s: string, n: nat)
    requires n <= |s| && Blank(s[..n])
    ensures n <= LeadingWs(s)
  {
    if n > 0 {
      assert s[..n][0] == s[0];
      assert s[1..][..n - 1] == s[..n][1..];
      BlankLeads(s[1..], n - 1);
    }
  }

  /** A blank line at the start of a text is a paragraph break. */
  lemma BlankLineBreaks(s: string, j: nat)
    requires Newlines(s, 0, j)
    ensures BreakLen(s) > 0
  {
    assert s[..j + 1] == s[0..j] + [s[j]];
    BlankLeads(s, j + 1);
    AfterNewline(s, LeadingWs(s));
  }

  lemma OnePiece(piece: string)
    ensures Woven([piece], []) == piece
  {
  }

  lemma BreakStep(acc: string, s: string, n: nat, pieces: seq<string>, gaps: seq<string>)
    requires n <= |s| && HoldsBlankLine(s[..n]) && |pieces| == |gaps| + 1 && AllBlankLines(gaps)
    requires [] + s[n..] == Woven(pieces, gaps)
    ensures AllBlankLines([s[..n]] + gaps) && acc + s == Woven([acc] + pieces, [s[..n]] + gaps)
  {
    WovenCons(acc, s[..n], pieces, gaps);
    hide HoldsBlankLine, Woven;
    Unit(s[n..]);
    Halves(s, n);
  }

  lemma {:induction false} PiecesAreWoven(s: string, acc: string) returns (gaps: seq<string>)
    ensures |Pieces(s, acc)| == |gaps| + 1 && AllBlankLines(gaps) && acc + s == Woven(Pieces(s, acc), gaps)
    decreases |s|
  {
    hide BreakLen, HoldsBlankLine, Woven, AllBlankLines;
    if s == [] {
      OnePiece(acc);
      Unit(acc);
      NoGaps();
      gaps := [];
    } else if BreakLen(s) > 0 {
      var n := BreakLen(s);
      var rest := PiecesAreWoven(s[n..], []);
      BreakHoldsBlankLine(s);
      BreakStep(acc, s, n, Pieces(s[n..], []), rest);
      gaps := [s[..n]] + rest;
    } else {
      gaps := PiecesAreWoven(s[1..], acc + [s[0]]);
      assert acc + [s[0]] + s[1..] == acc + s;
    }
  }

  lemma NoGaps()
    ensures AllBlankLines([])
  {
  }

  /** No blank line begins before position n. */
  ghost predicate QuietBefore(s: string, n: nat) { forall i: nat, j: nat :: Newlines(s, i, j) ==> i >= n }

  lemma Within(s: string, a: nat, b: nat, i: nat, j: nat)
    requires a <= b <= |s| && Newlines(s[a..b], i, j)
    ensures Newlines(s, a + i, a + j)
  {
    var t, u := s[a + i..a + j], s[a..b][i..j];
    forall k | 0 <= k < |t| ensures IsWs(t[k]) {
      assert t[k] == u[k];
    }
  }

  lemma PartIsOneParagraph(s: string, a: nat, b: nat)
    requires a <= b <= |s| && OneParagraph(s)
    ensures OneParagraph(s[a..b])
  {
    forall i: nat, j: nat ensures !Newlines(s[a..b], i, j) {
      if Newlines(s[a..b], i, j) { Within(s, a, b, i, j); }
    }
  }

  lemma FrontIsOneParagraph(acc: string, s: string)
    requires QuietBefore(acc + s, |acc|)
    ensures OneParagraph(acc)
  {
    var all := acc + s;
    assert all[0..|acc|] == acc;
    forall i: nat, j: nat ensures !Newlines(acc, i, j) {
      if Newlines(acc, i, j) { Within(all, 0, |acc|, i, j); }
    }
  }

  lemma QuietOneMore(acc: string, s: string)
    requires s != [] && BreakLen(s) == 0 && QuietBefore(acc + s, |acc|)
    ensures QuietBefore(acc + s, |acc| + 1)
  {
    var all := acc + s;
    forall i: nat, j: nat | Newlines(all, i, j) ensures i >= |acc| + 1 {
      if i == |acc| {
        assert all[i..j] == s[0..j - i];
        BlankLineBreaks(s, j - i);
      }
    }
  }

  lemma {:induction false} PiecesAreParagraphs(s: string, acc: string)
    requires QuietBefore(acc + s, |acc|)
    ensures forall i :: 0 <= i < |Pieces(s, acc)| ==> OneParagraph(Pieces(s, acc)[i])
    decreases |s|
  {
    hide QuietBefore, OneParagraph, BreakLen;
    FrontIsOneParagraph(acc, s);
    if s != [] {
      if BreakLen(s) > 0 {
        NothingBefore([] + s[BreakLen(s)..]);
        PiecesAreParagraphs(s[BreakLen(s)..], []);
      } else {
        QuietOneMore(acc, s);
        assert acc + [s[0]] + s[1..] == acc + s;
        PiecesAreParagraphs(s[1..], acc + [s[0]]);
      }
    }
  }

  lemma NothingBefore(s: string)
    ensures QuietBefore(s, 0)
  {
  }

  lemma {:induction false} TidyParagraphs(pieces: seq<string>)
    requires forall i :: 0 <= i < |pieces| ==> OneParagraph(pieces[i])
    ensures forall i :: 0 <= i < |Tidy(pieces)| ==> OneParagraph(Tidy(pieces)[i])
  {
    hide OneParagraph, Strip;
    if pieces != [] {
      TidyParagraphs(pieces[1..]);
      StrippedParagraph(pieces[0]);
    }
  }

  lemma StrippedParagraph(s: string)
    requires OneParagraph(s)
    ensures OneParagraph(Strip(s))
  {
    var n := LeadingWs(s);
    var m := |s[n..]| - TrailingWs(s[n..]);
    assert s[n..][..m] == s[n..n + m];
    PartIsOneParagraph(s, n, n + m);
  }

  lemma BlankLineAround(a: string, gap: string, b: string)
    requires Blank(a) && HoldsBlankLine(gap) && Blank(b)
    ensures HoldsBlankLine(a + (gap + b))
  {
    var all := a + (gap + b);
    assert all[|a|..|a| + |gap|] == gap;
    var i: nat, j: nat :| Newlines(gap, i, j);
    Within(all, |a|, |a| + |gap|, i, j);
  }

  lemma Regrouped(lead: string, p: string, trail: string, gap: string, next: string, rest: string, last: string)
    ensures (lead + (p + trail)) + (gap + (next + (rest + last)))
         == lead + ((p + ((trail + (gap + next)) + rest)) + last)
  {
  }

  /** Stripping the pieces and dropping the empty ones leaves their white space to the gaps. */
  lemma {:induction false} TidyIsWoven(pieces: seq<string>, gaps: seq<string>)
    returns (lead: string, more: seq<string>, trail: string)
    requires |pieces| == |gaps| + 1 && AllBlankLines(gaps)
    ensures Tidy(pieces) == [] ==> Blank(Woven(pieces, gaps))
    ensures Tidy(pieces) != [] ==>
              && |Tidy(pieces)| == |more| + 1 && Blank(lead) && AllBlankLines(more) && Blank(trail)
              && Woven(pieces, gaps) == lead + (Woven(Tidy(pieces), more) + trail)
    decreases |pieces|
  {
    hide HoldsBlankLine, Strip;
    lead, more, trail := [], [], [];
    var p := pieces[0];
    var before, after := StripExactly(p);
    TidyFirst(pieces);
    if gaps == [] {
      assert pieces[1..] == [];
      lead, trail := before, after;
    } else {
      assert HoldsBlankLine(gaps[0]);
      GapIsBlank(gaps[0]);
      var l, g, t := TidyIsWoven(pieces[1..], gaps[1..]);
      var rest := Woven(pieces[1..], gaps[1..]);
      if Strip(p) == [] {
        lead, more, trail := p + (gaps[0] + l), g, t;
        if Tidy(pieces[1..]) != [] { Shift(p, gaps[0], l, Woven(Tidy(pieces[1..]), g) + t); }
      } else if Tidy(pieces[1..]) == [] {
        lead, trail := before, after + (gaps[0] + rest);
        Shift2(before, Strip(p), after, gaps[0] + rest);
      } else {
        BlankLineAround(after, gaps[0], l);
        lead, more, trail := before, [after + (gaps[0] + l)] + g, t;
        WovenCons(Strip(p), after + (gaps[0] + l), Tidy(pieces[1..]), g);
        Regrouped(before, Strip(p), after, gaps[0], l, Woven(Tidy(pieces[1..]), g), t);
      }
    }
  }

  lemma TidyFirst(pieces: seq<string>)
    requires pieces != []
    ensures Strip(pieces[0]) == [] ==> Tidy(pieces) == Tidy(pieces[1..])
    ensures Strip(pieces[0]) != [] && Tidy(pieces[1..]) == [] ==> Tidy(pieces) == [Strip(pieces[0])]
    ensures Strip(pieces[0]) != [] ==> Tidy(pieces) == [Strip(pieces[0])] + Tidy(pieces[1..])
  {
    hide Strip;
    Unit(Tidy(pieces[1..]));
  }

  lemma GapIsBlank(gap: string)
    requires HoldsBlankLine(gap)
    ensures Blank(gap)
  {
  }

  lemma Shift(a: string, b: string, c: string, d: string)
    ensures a + (b + (c + d)) == (a + (b + c)) + d
  {
  }

  lemma Shift2(a: string, b: string, c: string, d: string)
    ensures (a + (b + c)) + d == a + (b + (c + d))
  {
  }

  /** A document with words is its paragraphs with white space around them, and between two of them white space
      with a blank line in it. Each paragraph is trimmed and has no blank line inside. */
  lemma ParagraphsExactly(content: string) returns (lead: string, gaps: seq<string>, trail: string)
    requires WordsOf(content) != []
    ensures var p := SplitParagraphs(content);
            && |p| == |gaps| + 1 && Blank(lead) && AllBlankLines(gaps) && Blank(trail)
            && content == lead + (Woven(p, gaps) + trail)
            && forall i :: 0 <= i < |p| ==> Trimmed(p[i]) && OneParagraph(p[i])
  {
    hide OneParagraph, HoldsBlankLine, Strip, WordsOf;
    var s := Strip(content);
    var before, after := StripExactly(content);
    StripKeepsWords(content);
    var cuts := PiecesAreWoven(s, []);
    Unit(s);
    NothingBefore([] + s);
    PiecesAreParagraphs(s, []);
    TidyParagraphs(Pieces(s, []));
    TidyIsTrimmed(Pieces(s, []));
    BlankMeansNoWords(s);
    var l, g, t := TidyIsWoven(Pieces(s, []), cuts);
    lead, gaps, trail := before + l, g, t + after;
    Shift3(before, l, Woven(SplitParagraphs(content), g), t, after);
  }

  lemma Shift3(a: string, b: string, c: string, d: string, e: string)
    ensures a + ((b + (c + d)) + e) == (a + b) + (c + (d + e))
  {
  }
}
