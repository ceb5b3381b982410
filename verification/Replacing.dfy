/** What replacing every match of a pattern comes to, whatever the pattern: the text between the matches stays,
    each match gives way to the replacement, and nothing else is a match. */
module Replacing {
  import opened Sequences
  import opened Text
  import opened Words
  import opened Splitting
  import S = Sanitizer
  import G = Guardrail

  /** The length of a match at the start of a text. */
  type Matcher = string -> Option<nat>

  /** The pieces between the matches and the matches themselves: leftmost first, none overlapping, none inside a
      piece. */
  ghost predicate Cuts(at: Matcher, s: string, pieces: seq<string>, matches: seq<string>)
    decreases |matches|
  {
    && |pieces| == |matches| + 1 && s == Woven(pieces, matches) && |pieces[0]| <= |s|
    && (forall i :: 0 <= i < |pieces[0]| ==> at(s[i..]).None?)
    && (matches != [] ==>
          && at(s[|pieces[0]|..]) == Some(|matches[0]|)
          && Cuts(at, Woven(pieces[1..], matches[1..]), pieces[1..], matches[1..]))
    && (matches == [] ==> at([]).None?)
  }

  function Times(r: string, n: nat): (w: seq<string>)
    ensures |w| == n && forall i :: 0 <= i < n ==> w[i] == r
  {
    seq(n, _ => r)
  }

  lemma NothingLeft(at: Matcher, r: string)
    requires at([]).None?
    ensures Cuts(at, [], [[]], []) && Woven([[]], Times(r, 0)) == []
  {
  }

  lemma OneMoreChar(at: Matcher, s: string, pieces: seq<string>, matches: seq<string>, r: string)
    requires s != [] && at(s).None? && Cuts(at, s[1..], pieces, matches)
    ensures var longer := [[s[0]] + pieces[0]] + pieces[1..];
            && Cuts(at, s, longer, matches)
            && Woven(longer, Times(r, |matches|)) == [s[0]] + Woven(pieces, Times(r, |matches|))
  {
    var longer := [[s[0]] + pieces[0]] + pieces[1..];
    LongerFirst(s[0], pieces, matches);
    LongerFirst(s[0], pieces, Times(r, |matches|));
    assert s == [s[0]] + s[1..];
    NoneInLonger(at, s, pieces[0]);
    assert longer[1..] == pieces[1..];
    assert s[|longer[0]|..] == s[1..][|pieces[0]|..];
  }

  lemma LongerFirst(c: char, pieces: seq<string>, gaps: seq<string>)
    requires |pieces| == |gaps| + 1
    ensures Woven([[c] + pieces[0]] + pieces[1..], gaps) == [c] + Woven(pieces, gaps)
  {
    assert ([[c] + pieces[0]] + pieces[1..])[1..] == pieces[1..];
    if gaps != [] { Associates([c], pieces[0], gaps[0] + Woven(pieces[1..], gaps[1..])); }
  }

  lemma NoneInLonger(at: Matcher, s: string, piece: string)
    requires s != [] && at(s).None? && |piece| <= |s[1..]|
    requires forall i :: 0 <= i < |piece| ==> at(s[1..][i..]).None?
    ensures forall i :: 0 <= i < |piece| + 1 ==> at(s[i..]).None?
  {
    forall i | 0 <= i < |piece| + 1 ensures at(s[i..]).None? {
      if i == 0 { assert s[0..] == s; } else { assert s[i..] == s[1..][i - 1..]; }
    }
  }

  lemma OneMoreMatch(at: Matcher, s: string, n: nat, pieces: seq<string>, matches: seq<string>, r: string)
    requires 0 < n <= |s| && at(s) == Some(n) && Cuts(at, s[n..], pieces, matches)
    ensures Cuts(at, s, [[]] + pieces, [s[..n]] + matches)
    ensures Woven([[]] + pieces, Times(r, |matches| + 1)) == r + Woven(pieces, Times(r, |matches|))
  {
    MatchFirst(at, s, n, pieces, matches);
    hide Cuts, Woven;
    OnceMore(r, |matches|);
    EmptyFirst(r, pieces, Times(r, |matches|));
  }

  lemma OnceMore(r: string, n: nat)
    ensures [r] + Times(r, n) == Times(r, n + 1)
  {
  }

  lemma EmptyFirst(r: string, pieces: seq<string>, gaps: seq<string>)
    requires |pieces| == |gaps| + 1
    ensures Woven([[]] + pieces, [r] + gaps) == r + Woven(pieces, gaps)
  {
    WovenCons([], r, pieces, gaps);
    hide Woven;
    Unit(r + Woven(pieces, gaps));
  }

  lemma MatchFirst(at: Matcher, s: string, n: nat, pieces: seq<string>, matches: seq<string>)
    requires 0 < n <= |s| && at(s) == Some(n) && Cuts(at, s[n..], pieces, matches)
    ensures Cuts(at, s, [[]] + pieces, [s[..n]] + matches)
  {
    WovenCons([], s[..n], pieces, matches);
    Halves(s, n);
    Unit(s);
    assert s[0..] == s;
    assert ([[]] + pieces)[1..] == pieces && ([s[..n]] + matches)[1..] == matches;
  }

  // ---- the sanitiser's passes --------------------------------------------------------------------------------

  function PatternAt(p: S.Pattern): Matcher { (s: string) => S.MatchAt(p, s) }

  /** A pass keeps the text between the matches, puts the replacement in place of each, and counts them. */
  lemma {:induction false} PassExactly(p: S.Pattern, s: string, r: string)
    returns (pieces: seq<string>, matches: seq<string>)
    ensures Cuts(PatternAt(p), s, pieces, matches) && S.Matches(p, s) == |matches|
    ensures S.ReplaceAll(p, s, r) == Woven(pieces, Times(r, |matches|))
    decreases |s|
  {
    hide S.MatchAt;
    if s == [] {
      pieces, matches := [[]], [];
      NothingMatchesNothing(p);
      NothingLeft(PatternAt(p), r);
    } else {
      match S.MatchAt(p, s)
      case Some(n) =>
        var q, m := PassExactly(p, s[n..], r);
        OneMoreMatch(PatternAt(p), s, n, q, m, r);
        pieces, matches := [[]] + q, [s[..n]] + m;
      case None =>
        var q, m := PassExactly(p, s[1..], r);
        OneMoreChar(PatternAt(p), s, q, m, r);
        pieces, matches := [[s[0]] + q[0]] + q[1..], m;
    }
  }

  lemma NothingMatchesNothing(p: S.Pattern)
    ensures S.MatchAt(p, []).None?
  {
  }

  /** `javascript:` in any letter case is matched, and nothing else. */
  lemma JsExactly(s: string)
    ensures S.MatchAt(S.JsUri, s)
         == if |s| >= 11 && LowerAll(s[..11]) == "javascript:" then Some(11) else None
  {
    StartsWithCiExactly(s, "javascript:");
    hide StartsWithCi, LowerAll;
  }

  /** White space, "on" in any case, word characters, white space, an equals sign: j ends the word, n the match. */
  predicate HandlerAt(s: string, j: nat, n: nat) {
    && 3 < j < n <= |s|
    && IsWs(s[0]) && Lower(s[1]) == 'o' && Lower(s[2]) == 'n'
    && (forall i :: 3 <= i < j ==> IsWord(s[i])) && (forall i :: j <= i < n - 1 ==> IsWs(s[i])) && s[n - 1] == '='
  }

  predicate SpacesThenEquals(s: string, n: nat) {
    0 < n <= |s| && (forall i :: 0 <= i < n - 1 ==> IsWs(s[i])) && s[n - 1] == '='
  }

  predicate WordThenEquals(s: string, j: nat, n: nat) {
    && j < n <= |s| && (forall i :: 0 <= i < j ==> IsWord(s[i]))
    && (forall i :: j <= i < n - 1 ==> IsWs(s[i])) && s[n - 1] == '='
  }

  lemma {:induction false} InSpaceExactly(s: string, n: nat)
    ensures S.HandlerRest(S.InSpace, s) == Some(n) <==> SpacesThenEquals(s, n)
    decreases |s|
  {
    if s != [] && IsWs(s[0]) && n > 0 {
      InSpaceExactly(s[1..], n - 1);
      if SpacesThenEquals(s, n) { assert SpacesThenEquals(s[1..], n - 1); }
      if SpacesThenEquals(s[1..], n - 1) {
        assert forall i :: 0 < i < n - 1 ==> s[i] == s[1..][i - 1];
        assert s[n - 1] == s[1..][n - 2];
      }
    }
  }

  lemma {:induction false} InWordExactly(s: string, n: nat)
    ensures S.HandlerRest(S.Stage.InWord, s) == Some(n) <==> exists j: nat :: WordThenEquals(s, j, n)
    decreases |s|
  {
    if s != [] && IsWord(s[0]) && n > 0 {
      InWordExactly(s[1..], n - 1);
      if j: nat :| WordThenEquals(s, j, n) {
        assert j > 0;
        assert WordThenEquals(s[1..], j - 1, n - 1);
      }
      var rest, m := s[1..], n - 1;
      if j: nat :| WordThenEquals(rest, j, m) {
        assert forall i :: 0 < i < n ==> s[i] == rest[i - 1];
        assert WordThenEquals(s, j + 1, n);
      }
    } else if s != [] && IsWs(s[0]) && n > 0 {
      InSpaceExactly(s[1..], n - 1);
      if j: nat :| WordThenEquals(s, j, n) {
        assert j == 0 && n > 1;
        assert SpacesThenEquals(s[1..], n - 1);
      }
      if SpacesThenEquals(s[1..], n - 1) {
        assert forall i :: 0 < i < n ==> s[i] == s[1..][i - 1];
        assert WordThenEquals(s, 0, n);
      }
    } else if s != [] && s[0] == '=' {
      assert WordThenEquals(s, 0, 1);
    }
  }

  /** An event-handler attribute is matched up to its equals sign, and nothing else. */
  lemma HandlerExactly(s: string, n: nat)
    ensures S.MatchAt(S.EventHandler, s) == Some(n) <==> exists j: nat :: HandlerAt(s, j, n)
  {
    if S.MatchAt(S.EventHandler, s) == Some(n) {
      HandlerMeans(s, n);
    }
    if j: nat :| HandlerAt(s, j, n) {
      HandlerMatched(s, j, n);
    }
  }

  lemma HandlerMeans(s: string, n: nat)
    requires S.MatchAt(S.EventHandler, s) == Some(n)
    ensures exists j: nat :: HandlerAt(s, j, n)
  {
    var t := s[1..];
    assert S.HandlerRest(S.WantN, t[1..]) == Some(n - 2);
    assert S.HandlerRest(S.WantWord, t[1..][1..]) == Some(n - 3);
    var u := t[1..][1..][1..];
    assert u == s[4..];
    assert S.HandlerRest(S.Stage.InWord, u) == Some(n - 4);
    InWordExactly(u, n - 4);
    var j: nat :| WordThenEquals(u, j, n - 4);
    assert forall i :: 4 <= i < |s| ==> s[i] == u[i - 4];
    assert HandlerAt(s, j + 4, n);
  }

  lemma HandlerMatched(s: string, j: nat, n: nat)
    requires HandlerAt(s, j, n)
    ensures S.MatchAt(S.EventHandler, s) == Some(n)
  {
    var t := s[1..];
    var u := t[1..][1..][1..];
    assert u == s[4..];
    assert WordThenEquals(u, j - 4, n - 4);
    InWordExactly(u, n - 4);
    assert S.HandlerRest(S.WantWord, t[1..][1..]) == Some(n - 3);
    assert S.HandlerRest(S.WantN, t[1..]) == Some(n - 2);
  }

  predicate JsAt(s: string, i: nat) { i + 11 <= |s| && LowerAll(s[i..i + 11]) == "javascript:" }

  /** A text the sanitiser leaves alone, in plain terms: no angle bracket, no `javascript:` in any case, no
      event-handler attribute. */
  ghost predicate PlainlyInert(s: string) {
    && '<' !in s && '>' !in s
    && (forall i: nat :: !JsAt(s, i))
    && (forall i: nat, j: nat, n: nat :: i <= |s| ==> !HandlerAt(s[i..], j, n))
  }

  lemma {:induction false} NoMatchEverywhere(p: S.Pattern, s: string)
    ensures S.NoMatch(p, s) <==> forall i :: 0 <= i < |s| ==> S.MatchAt(p, s[i..]).None?
  {
    hide S.MatchAt;
    if s != [] {
      NoMatchEverywhere(p, s[1..]);
      assert s[0..] == s;
      assert forall i :: 0 <= i < |s| - 1 ==> s[1..][i..] == s[i + 1..];
      assert forall i :: 0 < i < |s| ==> s[i..] == s[1..][i - 1..];
    }
  }

  lemma NoJsExactly(s: string)
    ensures S.NoMatch(S.JsUri, s) <==> forall i: nat :: !JsAt(s, i)
  {
    NoMatchEverywhere(S.JsUri, s);
    hide S.NoMatch, LowerAll, S.MatchAt;
    forall i: nat | i < |s| ensures S.MatchAt(S.JsUri, s[i..]).None? <==> !JsAt(s, i) {
      JsExactly(s[i..]);
      if i + 11 <= |s| { assert s[i..][..11] == s[i..i + 11]; }
    }
  }

  lemma NoHandlerExactly(s: string)
    ensures S.NoMatch(S.EventHandler, s)
       <==> forall i: nat, j: nat, n: nat :: i <= |s| ==> !HandlerAt(s[i..], j, n)
  {
    NoMatchEverywhere(S.EventHandler, s);
    hide S.NoMatch, S.MatchAt, HandlerAt;
    forall i: nat | i <= |s|
      ensures (i < |s| ==> S.MatchAt(S.EventHandler, s[i..]).None?)
         <==> forall j: nat, n: nat :: !HandlerAt(s[i..], j, n)
    {
      NoHandlerAt(s[i..]);
    }
  }

  lemma NoHandlerAt(s: string)
    ensures (s != [] ==> S.MatchAt(S.EventHandler, s).None?) <==> forall j: nat, n: nat :: !HandlerAt(s, j, n)
  {
    forall j: nat, n: nat | HandlerAt(s, j, n) ensures s != [] && S.MatchAt(S.EventHandler, s) == Some(n) {
      HandlerExactly(s, n);
    }
    hide S.MatchAt, HandlerAt;
    if S.MatchAt(S.EventHandler, s).Some? {
      var n := S.MatchAt(S.EventHandler, s).value;
      HandlerExactly(s, n);
      var j: nat :| HandlerAt(s, j, n);
    }
  }

  /** What the sanitiser calls inert is inert in plain terms. So its output is, whatever it was given, and it
      leaves a text alone exactly when the text is. */
  lemma InertExactly(s: string)
    ensures S.Inert(s) <==> PlainlyInert(s)
    ensures PlainlyInert(S.Outcome(s).text)
    ensures S.Outcome(s).text == s <==> PlainlyInert(s)
  {
    OneText(s);
    OneText(S.Outcome(s).text);
    hide PlainlyInert, S.Inert, S.Outcome;
    S.OutputIsInert(s);
    S.AppliedIffChanged(s);
  }

  lemma OneText(s: string)
    ensures S.Inert(s) <==> PlainlyInert(s)
  {
    hide HandlerAt, LowerAll, S.NoMatch;
    NoJsExactly(s);
    NoHandlerExactly(s);
    if '<' !in s {
      S.NoMatchWithoutStart(S.Scriptish, s);
      S.NoMatchWithoutStart(S.DanglingOpen, s);
    }
  }

  // ---- delimiters and comments in retrieved text ---------------------------------------------------------------

  function TokenAt(): Matcher { (s: string) => if StartsWithCi(s, "atlas:doc") then Some(9) else None }

  /** Every occurrence of the delimiter token, in any letter case, gives way to one with a dot that is no colon;
      the rest of the text stays. */
  lemma {:induction false} TokensExactly(s: string) returns (pieces: seq<string>, matches: seq<string>)
    ensures Cuts(TokenAt(), s, pieces, matches)
    ensures G.BreakToken(s) == Woven(pieces, Times("atlas\U{2024}doc", |matches|))
    decreases |s|
  {
    var r := "atlas\U{2024}doc";
    if s == [] {
      pieces, matches := [[]], [];
      NothingLeft(TokenAt(), r);
    } else if StartsWithCi(s, "atlas:doc") {
      StartsWithCiLength(s, "atlas:doc");
      var q, m := TokensExactly(s[9..]);
      hide StartsWithCi;
      OneMoreMatch(TokenAt(), s, 9, q, m, r);
      BrokenStep(s);
      pieces, matches := [[]] + q, [s[..9]] + m;
    } else {
      var q, m := TokensExactly(s[1..]);
      hide StartsWithCi;
      OneMoreChar(TokenAt(), s, q, m, r);
      pieces, matches := [[s[0]] + q[0]] + q[1..], m;
    }
  }

  lemma BrokenStep(s: string)
    requires |s| >= 9 && StartsWithCi(s, "atlas:doc")
    ensures G.BreakToken(s) == "atlas\U{2024}doc" + G.BreakToken(s[9..])
  {
    hide StartsWithCi;
    assert "atlas\U{2024}doc" == "atlas" + ['\U{2024}'] + "doc";
  }

  function CommentAt(): Matcher {
    (s: string) =>
      if "<!--" <= s then
        match G.UpToCommentEnd(s[4..])
        case Some(n) => Some(n + 4)
        case None => None
      else None
  }

  predicate CommentEndsAt(s: string, i: nat) { 3 <= i <= |s| && s[i - 3..i] == "-->" }

  lemma EndsOneLater(s: string, i: nat)
    requires |s| >= 3 && s[..3] != "-->"
    ensures CommentEndsAt(s, i + 1) <==> CommentEndsAt(s[1..], i)
  {
    if 3 <= i < |s| { assert s[1..][i - 3..i] == s[i - 2..i + 1]; }
    if i == 2 { assert s[0..3] == s[..3]; }
  }

  lemma {:induction false} EndIsFirst(s: string, i: nat)
    requires G.UpToCommentEnd(s).Some?
    ensures CommentEndsAt(s, G.UpToCommentEnd(s).value)
    ensures i < G.UpToCommentEnd(s).value ==> !CommentEndsAt(s, i)
    decreases |s|
  {
    hide CommentEndsAt;
    if s[..3] == "-->" {
      EndsAtOnce(s, i);
    } else {
      EndIsFirst(s[1..], if i > 0 then i - 1 else 0);
      EndsOneLater(s, G.UpToCommentEnd(s[1..]).value);
      if i > 0 { EndsOneLater(s, i - 1); } else { NoneAtZero(s); }
    }
  }

  lemma EndsAtOnce(s: string, i: nat)
    requires |s| >= 3 && s[..3] == "-->"
    ensures CommentEndsAt(s, 3) && (i < 3 ==> !CommentEndsAt(s, i))
  {
    assert s[0..3] == s[..3];
  }

  lemma {:induction false} EndIsFound(s: string, i: nat)
    requires CommentEndsAt(s, i)
    ensures G.UpToCommentEnd(s).Some?
    decreases |s|
  {
    if s[..3] != "-->" {
      EndsOneLater(s, i - 1);
      EndIsFound(s[1..], i - 1);
    }
  }

  /** A comment ends at the first closing mark. */
  lemma CommentEndExactly(s: string, n: nat)
    ensures G.UpToCommentEnd(s) == Some(n)
       <==> CommentEndsAt(s, n) && forall i: nat :: i < n ==> !CommentEndsAt(s, i)
  {
    hide CommentEndsAt, G.UpToCommentEnd;
    if G.UpToCommentEnd(s).Some? {
      var m := G.UpToCommentEnd(s).value;
      EndIsFirst(s, m);
      forall i: nat | i < m ensures !CommentEndsAt(s, i) {
        EndIsFirst(s, i);
      }
    } else if CommentEndsAt(s, n) {
      EndIsFound(s, n);
    }
  }

  lemma NoneAtZero(s: string)
    ensures !CommentEndsAt(s, 0)
  {
  }

  /** Every comment, from its opening to the first closing, gives way to a blank. */
  lemma {:induction false} CommentsExactly(s: string) returns (pieces: seq<string>, matches: seq<string>)
    ensures Cuts(CommentAt(), s, pieces, matches)
    ensures G.StripComments(s) == Woven(pieces, Times(" ", |matches|))
    decreases |s|
  {
    hide G.UpToCommentEnd;
    if s == [] {
      pieces, matches := [[]], [];
      NothingLeft(CommentAt(), " ");
    } else {
      match CommentAt()(s)
      case Some(n) =>
        var q, m := CommentsExactly(s[n..]);
        OneMoreMatch(CommentAt(), s, n, q, m, " ");
        pieces, matches := [[]] + q, [s[..n]] + m;
      case None =>
        var q, m := CommentsExactly(s[1..]);
        OneMoreChar(CommentAt(), s, q, m, " ");
        pieces, matches := [[s[0]] + q[0]] + q[1..], m;
    }
  }

  function LiteralAt(w: string): Matcher { (s: string) => if w <= s then Some(|w|) else None }

  /** Every occurrence of a literal gives way to a blank. */
  lemma {:induction false} BlankedExactly(s: string, w: string) returns (pieces: seq<string>, matches: seq<string>)
    requires w != []
    ensures Cuts(LiteralAt(w), s, pieces, matches)
    ensures G.Blanked(s, w) == Woven(pieces, Times(" ", |matches|))
    decreases |s|
  {
    if s == [] {
      pieces, matches := [[]], [];
      NothingLeft(LiteralAt(w), " ");
    } else if w <= s {
      var q, m := BlankedExactly(s[|w|..], w);
      OneMoreMatch(LiteralAt(w), s, |w|, q, m, " ");
      pieces, matches := [[]] + q, [s[..|w|]] + m;
    } else {
      var q, m := BlankedExactly(s[1..], w);
      OneMoreChar(LiteralAt(w), s, q, m, " ");
      pieces, matches := [[s[0]] + q[0]] + q[1..], m;
    }
  }

  // ---- normalised text -------------------------------------------------------------------------------------------

  lemma {:induction false} CollapseWord(w: string, t: string)
    requires NoWs(w)
    ensures G.CollapseFrom(w + t) == w + G.CollapseFrom(t)
  {
    if w == [] {
      Unit(t);
      Unit(G.CollapseFrom(t));
    } else {
      ConsTail(w, t);
      CollapseWord(w[1..], t);
      Uncons(w, G.CollapseFrom(t));
    }
  }

  lemma SpacedNotEmpty(s: string)
    requires WordsOf(s) != []
    ensures Spaced(WordsOf(s)) != []
  {
    WordsAreWords(s);
    assert IsAWord(WordsOf(s)[0]);
  }

  /** Collapsing leaves the words with single blanks between them. */
  lemma {:induction false} CollapseExactly(s: string)
    ensures G.Collapse(s) == if WordsOf(s) == [] then [] else Spaced(WordsOf(s))
    decreases |s|
  {
    var t := s[LeadingWs(s)..];
    LeftStripKeepsWords(s);
    if t == [] {
      assert WordsOf(t) == [];
    } else {
      var n := WordLen(t);
      LeadingWord(t);
      Halves(t, n);
      CollapseWord(t[..n], t[n..]);
      CollapseExactly(t[n..]);
      assert WordsOf(t) == [t[..n]] + WordsOf(t[n..]);
      CollapseGap(t[n..]);
      BlankMeansNoWords(t[n..]);
      if WordsOf(t[n..]) == [] {
        Unit([t[..n]]);
        Unit(t[..n]);
      } else {
        SpacedNotEmpty(t[n..]);
        assert WordsOf(t)[1..] == WordsOf(t[n..]);
        Associates(t[..n], " ", Spaced(WordsOf(t[n..])));
      }
    }
  }

  /** White space in front of words collapses to one blank, at the end to none. */
  lemma CollapseGap(s: string)
    requires s == [] || IsWs(s[0])
    ensures G.CollapseFrom(s) == if G.Collapse(s) == [] then [] else " " + G.Collapse(s)
  {
  }

  lemma {:induction false} ContainsExactly(s: string, w: string)
    ensures G.Contains(s, w) <==> exists i :: 0 <= i <= |s| && w <= s[i..]
  {
    assert s[0..] == s;
    if s != [] {
      ContainsExactly(s[1..], w);
      assert forall i :: 0 < i <= |s| ==> s[i..] == s[1..][i - 1..];
      assert forall i :: 0 <= i < |s| ==> s[1..][i..] == s[i + 1..];
    }
  }

  /** A phrase is reported exactly when it is configured and occurs in the normalised text. */
  lemma PhrasesExactly(phrases: seq<string>, text: string)
    ensures forall p :: p in G.MatchedPhrases(phrases, text) <==>
              p in phrases && exists i :: 0 <= i <= |text| && p <= text[i..]
  {
    G.MatchedExactly(phrases, text);
    forall p ensures G.Contains(text, p) <==> exists i :: 0 <= i <= |text| && p <= text[i..] {
      ContainsExactly(text, p);
    }
  }

  /** What is printed of a content or source: comments give way to blanks, then tokens to dotted ones. */
  lemma NeutralizedExactly(content: string)
    returns (pieces: seq<string>, comments: seq<string>, parts: seq<string>, tokens: seq<string>)
    ensures Cuts(CommentAt(), content, pieces, comments)
    ensures Cuts(TokenAt(), Woven(pieces, Times(" ", |comments|)), parts, tokens)
    ensures G.Neutralize(content) == Woven(parts, Times("atlas\U{2024}doc", |tokens|))
  {
    pieces, comments := CommentsExactly(content);
    parts, tokens := TokensExactly(G.StripComments(content));
  }

  /** What is scanned: comment marks give way to blanks, letters are folded, and the words are joined by single
      blanks. */
  lemma NormalizedExactly(content: string)
    returns (pieces: seq<string>, opens: seq<string>, parts: seq<string>, closes: seq<string>)
    ensures Cuts(LiteralAt("<!--"), content, pieces, opens)
    ensures Cuts(LiteralAt("-->"), Woven(pieces, Times(" ", |opens|)), parts, closes)
    ensures var words := WordsOf(LowerAll(Woven(parts, Times(" ", |closes|))));
            G.Normalize(content) == if words == [] then [] else Spaced(words)
  {
    pieces, opens := BlankedExactly(content, "<!--");
    parts, closes := BlankedExactly(G.Blanked(content, "<!--"), "-->");
    CollapseExactly(LowerAll(G.Blanked(G.Blanked(content, "<!--"), "-->")));
  }
}
