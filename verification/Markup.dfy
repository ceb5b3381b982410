/** The tags the sanitiser removes, by their letters. */
module Markup {
  import opened Sequences
  import opened Text
  import opened Sanitizer

  predicate ActiveName(name: string) { LowerAll(name) in ["script", "style", "iframe", "object", "embed"] }

  lemma SpelledIsNamed(tag: string, name: string)
    ensures Spells(tag, name) <==> LowerAll(tag) == name
  {
    StartsWithCiExactly(tag, name);
    if |tag| == |name| { assert tag[..|name|] == tag; }
  }

  lemma ActiveIsListed(tag: string)
    ensures ActiveName(tag) <==> exists k :: 0 <= k < |TAGS| && Spells(tag, TAGS[k])
  {
    forall k | 0 <= k < |TAGS| ensures Spells(tag, TAGS[k]) <==> LowerAll(tag) == TAGS[k] {
      SpelledIsNamed(tag, TAGS[k]);
    }
    hide Spells, LowerAll;
    assert TAGS[0] == "script" && TAGS[1] == "style" && TAGS[2] == "iframe";
    assert TAGS[3] == "object" && TAGS[4] == "embed";
  }

  // ---- opening names -----------------------------------------------------------------------------------------

  /** A bracket, white space, and an active name that ends at a word boundary, n characters in all. */
  predicate Opens(s: string, n: nat, lead: string, tag: string) {
    && n == 1 + |lead| + |tag| <= |s| && s[..n] == ['<'] + (lead + tag) && Blank(lead)
    && ActiveName(tag) && (n == |s| || !IsWord(s[n]))
  }

  lemma {:induction false} TagAtMeans(s: string, k: nat)
    requires k <= |TAGS| && TagAt(s, k).Some?
    ensures var name := TagAt(s, k).value;
            && name in TAGS && StartsWithCi(s, name) && |name| <= |s| && (|name| == |s| || !IsWord(s[|name|]))
    decreases |TAGS| - k
  {
    if StartsWithCi(s, TAGS[k]) { StartsWithCiLength(s, TAGS[k]); }
    if !(StartsWithCi(s, TAGS[k]) && (|TAGS[k]| == |s| || !IsWord(s[|TAGS[k]|]))) {
      TagAtMeans(s, k + 1);
    }
  }

  lemma CutWs(s: string) returns (ws: string)
    ensures Blank(ws) && s == ws + SkipWs(s)
  {
    LeadingWsBlank(s);
    ws := s[..LeadingWs(s)];
    Halves(s, LeadingWs(s));
  }

  lemma OpenTagParts(s: string)
    requires OpenTag(s).Some?
    ensures var ws, rest := LeadingWs(s[1..]), SkipWs(s[1..]);
            && s[0] == '<' && TagAt(rest, 0) == Some(OpenTag(s).value.0)
            && OpenTag(s).value.1 == 1 + ws + |OpenTag(s).value.0|
  {
    hide TagAt, LeadingWs;
    assert s[1..][LeadingWs(s[1..])..] == s[1 + LeadingWs(s[1..])..];
  }

  lemma NamedStart(rest: string, name: string) returns (tag: string)
    requires StartsWithCi(rest, name)
    ensures LowerAll(tag) == name && |tag| == |name| <= |rest| && rest == tag + rest[|name|..]
  {
    StartsWithCiExactly(rest, name);
    tag := rest[..|name|];
    Halves(rest, |name|);
  }

  lemma ListedIsActive(tag: string)
    requires LowerAll(tag) in TAGS
    ensures ActiveName(tag)
  {
    hide LowerAll;
  }

  lemma OpenTagMeans(s: string) returns (lead: string, tag: string)
    requires OpenTag(s).Some?
    ensures Opens(s, OpenTag(s).value.1, lead, tag) && LowerAll(tag) == OpenTag(s).value.0
  {
    hide TagAt, OpenTag, LowerAll, StartsWithCi, LeadingWs, SkipWs, ActiveName, Opens;
    OpenTagParts(s);
    var rest, name := SkipWs(s[1..]), OpenTag(s).value.0;
    TagAtMeans(rest, 0);
    tag := NamedStart(rest, name);
    lead := CutWs(s[1..]);
    ListedIsActive(tag);
    WsLength(s[1..]);
    OpenedAt(s, lead, tag, rest);
  }

  lemma WsLength(s: string)
    ensures LeadingWs(s) + |SkipWs(s)| == |s|
  {
  }

  lemma OpenedAt(s: string, lead: string, tag: string, rest: string)
    requires s != [] && s[0] == '<' && s[1..] == lead + rest && |tag| <= |rest| && rest == tag + rest[|tag|..]
    requires Blank(lead) && ActiveName(tag) && (|tag| == |rest| || !IsWord(rest[|tag|]))
    ensures Opens(s, 1 + |lead| + |tag|, lead, tag)
  {
    hide ActiveName, Blank;
    var n := 1 + |lead| + |tag|;
    assert s == ['<'] + (lead + (tag + rest[|tag|..]));
    assert n < |s| ==> s[n] == rest[|tag|];
  }

  /** A tag: an opening name and everything up to the next bracket. */
  predicate TagIs(s: string, n: nat, lead: string, tag: string, inner: string) {
    && n == |lead| + |tag| + |inner| + 2 <= |s| && s[..n] == ['<'] + (lead + (tag + (inner + ['>'])))
    && Blank(lead) && ActiveName(tag) && '>' !in inner && (inner == [] || !IsWord(inner[0]))
  }

  lemma {:induction false} UpToAngleExactly(s: string, n: nat)
    ensures UpToAngle(s) == Some(n) <==> 0 < n <= |s| && s[n - 1] == '>' && '>' !in s[..n - 1]
  {
    if s != [] && s[0] != '>' && n > 0 {
      UpToAngleExactly(s[1..], n - 1);
      if 1 < n <= |s| { assert s[..n - 1] == [s[0]] + s[1..][..n - 2]; }
    }
  }

  /** Left over opening tags are matched exactly so. */
  lemma DanglingExactly(s: string, n: nat)
    ensures MatchAt(DanglingOpen, s) == Some(n) <==> exists lead, tag, inner :: TagIs(s, n, lead, tag, inner)
  {
    if MatchAt(DanglingOpen, s) == Some(n) {
      var lead, tag := OpenTagMeans(s);
      var m := OpenTag(s).value.1;
      UpToAngleExactly(s[m..], n - m);
      var inner := s[m..][..n - m - 1];
      TagFromParts(s, m, n, lead, tag, inner);
    }
    if lead, tag, inner :| TagIs(s, n, lead, tag, inner) {
      TagMatched(s, n, lead, tag, inner);
    }
  }

  lemma TagFromParts(s: string, m: nat, n: nat, lead: string, tag: string, inner: string)
    requires Opens(s, m, lead, tag) && m < n <= |s| && inner == s[m..][..n - m - 1]
    requires s[m..][n - m - 1] == '>' && '>' !in inner
    ensures TagIs(s, n, lead, tag, inner)
  {
    hide ActiveName;
    assert s[..n] == s[..m] + (inner + ['>']);
  }

  lemma TagMatched(s: string, n: nat, lead: string, tag: string, inner: string)
    requires TagIs(s, n, lead, tag, inner)
    ensures MatchAt(DanglingOpen, s) == Some(n)
  {
    hide Spells, ActiveName, MatchAt, Blank;
    ActiveIsListed(tag);
    var k :| 0 <= k < |TAGS| && Spells(tag, TAGS[k]);
    Rejoined(s, n, lead, tag, inner);
    DanglingFound(k, lead, tag, inner, s[n..]);
  }

  lemma DanglingFound(k: nat, lead: string, tag: string, inner: string, rest: string)
    requires k < |TAGS| && Blank(lead) && Spells(tag, TAGS[k])
    requires '>' !in inner && (inner == [] || !IsWord(inner[0]))
    ensures MatchAt(DanglingOpen, ['<'] + (lead + (tag + (inner + (['>'] + rest)))))
         == Some(|lead| + |tag| + |inner| + 2)
  {
    hide Spells, MatchAt, OpenTag, UpToAngle, Blank;
    var t := inner + (['>'] + rest);
    OpenTagFound(lead, k, tag, t);
    NextAngle(inner, rest);
    OneDangling(['<'] + (lead + (tag + t)), TAGS[k], 1 + |lead| + |tag|);
  }

  lemma NextAngle(inner: string, rest: string)
    requires '>' !in inner
    ensures UpToAngle(inner + (['>'] + rest)) == Some(|inner| + 1)
  {
    var t := inner + (['>'] + rest);
    UpToAngleExactly(t, |inner| + 1);
    assert t[..|inner|] == inner;
  }

  lemma Rejoined(s: string, n: nat, lead: string, tag: string, inner: string)
    requires n <= |s| && s[..n] == ['<'] + (lead + (tag + (inner + ['>'])))
    ensures s == ['<'] + (lead + (tag + (inner + (['>'] + s[n..]))))
  {
    Halves(s, n);
  }

  lemma OneDangling(s: string, name: string, m: nat)
    requires m <= |s| && OpenTag(s) == Some((name, m)) && UpToAngle(s[m..]).Some?
    ensures MatchAt(DanglingOpen, s) == Some(m + UpToAngle(s[m..]).value)
  {
    hide OpenTag, UpToAngle;
  }

  // ---- whole elements ----------------------------------------------------------------------------------------

  /** A closing tag of the name, in any case, with white space anywhere between its parts. */
  predicate ClosesAs(s: string, n: nat, name: string, w: string, x: string, tag: string, y: string) {
    && Blank(w) && Blank(x) && Blank(y) && LowerAll(tag) == name
    && n == |ClosingTag(w, x, tag, y)| <= |s| && s[..n] == ClosingTag(w, x, tag, y)
  }

  lemma EatMeans(s: string, c: char)
    requires Eat(s, c).Some?
    ensures s == [c] + Eat(s, c).value
  {
  }

  lemma CloseTagMeans(s: string, name: string) returns (w: string, x: string, tag: string, y: string)
    requires CloseTag(s, name).Some?
    ensures ClosesAs(s, CloseTag(s, name).value, name, w, x, tag, y)
  {
    hide Eat, EatName, SkipWs;
    var a := Eat(s, '<').value;
    var b := Eat(SkipWs(a), '/').value;
    var c := EatName(SkipWs(b), name).value;
    var d := Eat(SkipWs(c), '>').value;
    assert AfterClose(s, name) == Some(d);
    hide AfterClose;
    EatMeans(s, '<');
    EatMeans(SkipWs(a), '/');
    EatMeans(SkipWs(c), '>');
    w := CutWs(a);
    x := CutWs(b);
    y := CutWs(c);
    tag := NameEaten(SkipWs(b), name);
    Assembled(s, w, x, tag, y, a, b, c, d);
  }

  lemma NameEaten(s: string, name: string) returns (tag: string)
    requires EatName(s, name).Some?
    ensures LowerAll(tag) == name && s == tag + EatName(s, name).value
  {
    tag := NamedStart(s, name);
  }

  lemma Assembled(s: string, w: string, x: string, tag: string, y: string, a: string, b: string, c: string, d: string)
    requires s == ['<'] + a && a == w + (['/'] + b) && b == x + (tag + c) && c == y + (['>'] + d)
    ensures s == ClosingTag(w, x, tag, y) + d && |s| - |d| == |ClosingTag(w, x, tag, y)|
    ensures s[..|s| - |d|] == ClosingTag(w, x, tag, y)
  {
    ClosingTagThen(w, x, tag, y, d);
  }

  lemma CloseExactly(s: string, k: nat, n: nat)
    requires k < |TAGS|
    ensures CloseTag(s, TAGS[k]) == Some(n) <==> exists w, x, tag, y :: ClosesAs(s, n, TAGS[k], w, x, tag, y)
  {
    if CloseTag(s, TAGS[k]) == Some(n) {
      var w, x, tag, y := CloseTagMeans(s, TAGS[k]);
    }
    if w, x, tag, y :| ClosesAs(s, n, TAGS[k], w, x, tag, y) {
      SpelledIsNamed(tag, TAGS[k]);
      ClosingTagFound(k, w, x, tag, y, s[n..]);
      Halves(s, n);
    }
  }

  /** The whole text is such a closing tag. */
  ghost predicate IsClosing(s: string, name: string) { exists w, x, tag, y :: ClosesAs(s, |s|, name, w, x, tag, y) }

  /** The text starts with such a closing tag. */
  ghost predicate StartsClosing(s: string, name: string) {
    exists n: nat, w, x, tag, y :: ClosesAs(s, n, name, w, x, tag, y)
  }

  /** An element: an opening name, everything up to the first closing tag of that name, and that tag. */
  ghost predicate ElementIs(s: string, n: nat, lead: string, tag: string, inner: string, close: string) {
    && n == |Element(lead, tag, inner, close)| <= |s| && s[..n] == Element(lead, tag, inner, close)
    && Blank(lead) && ActiveName(tag) && (inner == [] || !IsWord(inner[0]))
    && IsClosing(close, LowerAll(tag))
    && forall i :: 0 <= i < |inner| ==> !StartsClosing(inner[i..] + (close + s[n..]), LowerAll(tag))
  }

  lemma NoneCloses(s: string, k: nat)
    requires k < |TAGS|
    ensures CloseTag(s, TAGS[k]).None? <==> !StartsClosing(s, TAGS[k])
  {
    hide CloseTag, ClosesAs;
    if CloseTag(s, TAGS[k]).Some? {
      CloseExactly(s, k, CloseTag(s, TAGS[k]).value);
    }
    if StartsClosing(s, TAGS[k]) {
      var n: nat, w, x, tag, y :| ClosesAs(s, n, TAGS[k], w, x, tag, y);
      CloseExactly(s, k, n);
    }
  }

  lemma ClosesFirst(close: string, post: string, k: nat)
    requires k < |TAGS|
    ensures CloseTag(close + post, TAGS[k]) == Some(|close|) <==> IsClosing(close, TAGS[k])
  {
    var s := close + post;
    assert s[..|close|] == close;
    hide CloseTag;
    CloseExactly(s, k, |close|);
    if w, x, tag, y :| ClosesAs(s, |close|, TAGS[k], w, x, tag, y) {
      assert ClosesAs(close, |close|, TAGS[k], w, x, tag, y);
    }
    if w, x, tag, y :| ClosesAs(close, |close|, TAGS[k], w, x, tag, y) {
      assert ClosesAs(s, |close|, TAGS[k], w, x, tag, y);
    }
  }

  lemma {:induction false} UpToMeans(at: string -> Option<nat>, s: string) returns (m: nat)
    requires Measures(at) && UpTo(at, s).Some?
    ensures m < UpTo(at, s).value && at(s[m..]) == Some(UpTo(at, s).value - m)
    ensures forall i :: 0 <= i < m ==> at(s[i..]).None?
  {
    assert s[0..] == s;
    if at(s).Some? {
      m := 0;
    } else {
      m := UpToMeans(at, s[1..]);
      assert forall i :: 0 < i <= m ==> s[i..] == s[1..][i - 1..];
      assert s[1..][m..] == s[m + 1..];
      m := m + 1;
    }
  }

  /** Elements are matched exactly so. */
  lemma ScriptishExactly(s: string, n: nat)
    ensures MatchAt(Scriptish, s) == Some(n)
       <==> exists lead, tag, inner, close :: ElementIs(s, n, lead, tag, inner, close)
  {
    if MatchAt(Scriptish, s) == Some(n) {
      var lead, tag, inner, close := ElementMeans(s, n);
    }
    if lead, tag, inner, close :| ElementIs(s, n, lead, tag, inner, close) {
      ElementFound(s, n, lead, tag, inner, close);
    }
  }

  lemma ScriptishParts(s: string, n: nat) returns (m: nat)
    requires MatchAt(Scriptish, s) == Some(n)
    ensures OpenTag(s).Some? && m == OpenTag(s).value.1 <= n <= |s|
    ensures UpTo(ClosesWith(OpenTag(s).value.0), s[m..]) == Some(n - m)
  {
    hide OpenTag, UpTo;
    m := OpenTag(s).value.1;
  }

  lemma ElementMeans(s: string, n: nat) returns (lead: string, tag: string, inner: string, close: string)
    requires MatchAt(Scriptish, s) == Some(n)
    ensures ElementIs(s, n, lead, tag, inner, close)
  {
    hide OpenTag, UpTo, MatchAt, CloseTag, LowerAll, ActiveName, IsClosing, StartsClosing, Opens, Blank;
    var m := ScriptishParts(s, n);
    lead, tag := OpenTagMeans(s);
    var name := OpenTag(s).value.0;
    var t := s[m..];
    var i := UpToMeans(ClosesWith(name), t);
    inner, close := t[..i], t[i..n - m];
    NameIsListed(s);
    var k :| 0 <= k < |TAGS| && TAGS[k] == name;
    CutElement(s, m, i, n, lead, tag);
    CutAt(t, i, close, s[n..]);
    ClosesFirst(close, s[n..], k);
    forall j | 0 <= j < i ensures !StartsClosing(inner[j..] + (close + s[n..]), name) {
      CutFrom(t, i, j, close + s[n..]);
      NoneCloses(t[j..], k);
    }
  }

  lemma CutAt(t: string, i: nat, close: string, post: string)
    requires i <= |t| && t == t[..i] + (close + post)
    ensures t[i..] == close + post
  {
  }

  lemma CutFrom(t: string, i: nat, j: nat, rest: string)
    requires j <= i <= |t| && t == t[..i] + rest
    ensures t[j..] == t[..i][j..] + rest
  {
  }

  lemma NameIsListed(s: string)
    requires OpenTag(s).Some?
    ensures exists k :: 0 <= k < |TAGS| && TAGS[k] == OpenTag(s).value.0
  {
    OpenTagParts(s);
    TagAtMeans(SkipWs(s[1..]), 0);
  }

  lemma CutElement(s: string, m: nat, i: nat, n: nat, lead: string, tag: string)
    requires Opens(s, m, lead, tag) && m <= m + i < n <= |s|
    ensures var inner, close := s[m..][..i], s[m..][i..n - m];
            && s[..n] == Element(lead, tag, inner, close) && n == |Element(lead, tag, inner, close)|
            && s[m..] == inner + (close + s[n..]) && |close| == n - m - i
            && Blank(lead) && ActiveName(tag) && (inner == [] || !IsWord(inner[0]))
  {
    hide ActiveName;
    var inner, close := s[m..][..i], s[m..][i..n - m];
    assert s[..n] == s[..m] + (inner + close);
    assert s[m..] == inner + (close + s[n..]);
    ElementRegrouped(lead, tag, inner + close);
  }

  lemma ElementRegrouped(lead: string, tag: string, rest: string)
    ensures (['<'] + (lead + tag)) + rest == ['<'] + (lead + (tag + rest))
  {
  }

  lemma ElementFound(s: string, n: nat, lead: string, tag: string, inner: string, close: string)
    requires ElementIs(s, n, lead, tag, inner, close)
    ensures MatchAt(Scriptish, s) == Some(n)
  {
    hide MatchAt, LowerAll, Spells, ActiveName, CloseTag, IsClosing, StartsClosing, Element;
    var post := s[n..];
    ActiveIsListed(tag);
    var k :| 0 <= k < |TAGS| && Spells(tag, TAGS[k]);
    SpelledIsNamed(tag, TAGS[k]);
    ClosesFirst(close, post, k);
    forall i | 0 <= i < |inner| ensures CloseTag(inner[i..] + (close + post), TAGS[k]) == None {
      NoneCloses(inner[i..] + (close + post), k);
    }
    Halves(s, n);
    ElementMatched(k, lead, tag, inner, close, post);
  }
}
