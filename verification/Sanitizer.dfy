/** Output sanitisation at the egress: four replacement passes and a final escape. */
module Sanitizer {
  import opened Sequences
  import opened Text

  // ---- the patterns, matched at the start of a text ---------------------------------------------

  datatype Pattern = Scriptish | DanglingOpen | JsUri | EventHandler | Literal(c: char)

  const JAVASCRIPT := "javascript:"
  const TAGS := ["script", "style", "iframe", "object", "embed"]

  /** The active tag name `s` starts with, ending at a word boundary. */
  function TagAt(s: string, k: nat): Option<string>
    requires k <= |TAGS|
    decreases |TAGS| - k
  {
    if k == |TAGS| then None
    else if StartsWithCi(s, TAGS[k]) then
      StartsWithCiLength(s, TAGS[k]);
      if |TAGS[k]| < |s| && IsWord(s[|TAGS[k]|]) then TagAt(s, k + 1) else Some(TAGS[k])
    else TagAt(s, k + 1)
  }

  lemma {:induction false} TagAtPrefix(s: string, k: nat)
    requires k <= |TAGS| && TagAt(s, k).Some?
    ensures StartsWithCi(s, TagAt(s, k).value)
    decreases |TAGS| - k
  {
    if StartsWithCi(s, TAGS[k]) {
      StartsWithCiLength(s, TAGS[k]);
      if |TAGS[k]| < |s| && IsWord(s[|TAGS[k]|]) {
        TagAtPrefix(s, k + 1);
      }
    } else {
      TagAtPrefix(s, k + 1);
    }
  }

  /** `<\s*NAME\b`: the name and the length matched so far. */
  function OpenTag(s: string): (r: Option<(string, nat)>)
    ensures r.Some? ==> s != [] && s[0] == '<' && 0 < r.value.1 <= |s|
  {
    if s == [] || s[0] != '<' then None
    else
      var ws := LeadingWs(s[1..]);
      var rest := s[1 + ws..];
      match TagAt(rest, 0)
      case None => None
      case Some(name) =>
        TagAtPrefix(rest, 0);
        StartsWithCiLength(rest, name);
        Some((name, 1 + ws + |name|))
  }

  function SkipWs(s: string): (r: string)
    ensures |r| <= |s|
  {
    s[LeadingWs(s)..]
  }

  function Eat(s: string, c: char): (r: Option<string>)
    ensures r.Some? ==> |r.value| + 1 == |s|
  {
    if s != [] && s[0] == c then Some(s[1..]) else None
  }

  function EatName(s: string, name: string): (r: Option<string>)
    ensures r.Some? ==> |r.value| + |name| == |s|
  {
    if !StartsWithCi(s, name) then None
    else
      StartsWithCiLength(s, name);
      Some(s[|name|..])
  }

  /** What follows a match of `<\s*\/\s*NAME\s*>` at the start of `s`. */
  function AfterClose(s: string, name: string): (r: Option<string>)
    ensures r.Some? ==> |r.value| < |s|
  {
    match Eat(s, '<')
    case None => None
    case Some(a) =>
      match Eat(SkipWs(a), '/')
      case None => None
      case Some(b) =>
        match EatName(SkipWs(b), name)
        case None => None
        case Some(c) => Eat(SkipWs(c), '>')
  }

  /** `<\s*\/\s*NAME\s*>` at the start of `s`: its length. */
  function CloseTag(s: string, name: string): (r: Option<nat>)
    ensures r.Some? ==> 0 < r.value <= |s| && s[0] == '<'
  {
    match AfterClose(s, name)
    case None => None
    case Some(rest) => Some(|s| - |rest|)
  }

  function ClosesWith(name: string): string -> Option<nat> { (s: string) => CloseTag(s, name) }

  ghost predicate Measures(at: string -> Option<nat>) {
    forall s :: at(s).Some? ==> 0 < at(s).value <= |s|
  }

  /** The shortest text that ends in a match of `at`: its length. */
  function UpTo(at: string -> Option<nat>, s: string): (r: Option<nat>)
    requires Measures(at)
    ensures r.Some? ==> 0 < r.value <= |s|
  {
    if s == [] then None
    else match at(s)
      case Some(n) => Some(n)
      case None =>
        match UpTo(at, s[1..])
        case Some(n) => Some(n + 1)
        case None => None
  }

  /** The shortest text ending in a closing tag: its length. */
  function UpToClose(s: string, name: string): (r: Option<nat>)
    ensures r.Some? ==> 0 < r.value <= |s|
  {
    UpTo(ClosesWith(name), s)
  }

  /** The text up to and including the next `>`: its length. */
  function UpToAngle(s: string): (r: Option<nat>)
    ensures r.Some? ==> 0 < r.value <= |s|
  {
    if s == [] then None
    else if s[0] == '>' then Some(1)
    else match UpToAngle(s[1..])
      case Some(n) => Some(n + 1)
      case None => None
  }

  /** Where the match of `\son\w+\s*=` stands after its leading white space. */
  datatype Stage = WantO | WantN | WantWord | InWord | InSpace

  function Advance(q: Stage, c: char): Option<Stage> {
    match q
    case WantO => if Lower(c) == 'o' then Some(WantN) else None
    case WantN => if Lower(c) == 'n' then Some(WantWord) else None
    case WantWord => if IsWord(c) then Some(InWord) else None
    case InWord => if IsWord(c) then Some(InWord) else if IsWs(c) then Some(InSpace) else None
    case InSpace => if IsWs(c) then Some(InSpace) else None
  }

  /** The length of the rest of an event-handler attribute, up to and including `=`. */
  function HandlerRest(q: Stage, s: string): (r: Option<nat>)
    ensures r.Some? ==> 0 < r.value <= |s|
    decreases s
  {
    if s == [] then None
    else if q in {InWord, InSpace} && s[0] == '=' then Some(1)
    else match Advance(q, s[0])
      case None => None
      case Some(q') =>
        match HandlerRest(q', s[1..])
        case Some(n) => Some(n + 1)
        case None => None
  }

  /** The length of the match of `p` at the start of `s`. */
  function MatchAt(p: Pattern, s: string): (r: Option<nat>)
    ensures r.Some? ==> 0 < r.value <= |s|
  {
    match p
    case Scriptish =>
      (match OpenTag(s)
       case None => None
       case Some((name, n)) =>
         match UpToClose(s[n..], name)
         case Some(m) => Some(n + m)
         case None => None)
    case DanglingOpen =>
      (match OpenTag(s)
       case None => None
       case Some((name, n)) =>
         match UpToAngle(s[n..])
         case Some(m) => Some(n + m)
         case None => None)
    case JsUri =>
      if StartsWithCi(s, JAVASCRIPT) then StartsWithCiLength(s, JAVASCRIPT); Some(|JAVASCRIPT|) else None
    case EventHandler =>
      if s == [] || !IsWs(s[0]) then None
      else (match HandlerRest(WantO, s[1..])
            case Some(n) => Some(n + 1)
            case None => None)
    case Literal(c) => if s != [] && s[0] == c then Some(1) else None
  }

  /** `replaceAll`: every leftmost, non-overlapping match. */
  function ReplaceAll(p: Pattern, s: string, r: string): string {
    if s == [] then []
    else match MatchAt(p, s)
      case Some(n) => r + ReplaceAll(p, s[n..], r)
      case None => [s[0]] + ReplaceAll(p, s[1..], r)
  }

  function Matches(p: Pattern, s: string): nat {
    if s == [] then 0
    else match MatchAt(p, s)
      case Some(n) => 1 + Matches(p, s[n..])
      case None => Matches(p, s[1..])
  }

  method CountMatches(text: string, p: Pattern) returns (n: nat)
    ensures n == Matches(p, text)
  {
    n := 0;
    var rest := text;
    while rest != []
      invariant n + Matches(p, rest) == Matches(p, text)
      decreases |rest|
    {
      match MatchAt(p, rest)
      case Some(k) =>
        n := n + 1;
        rest := rest[k..];
      case None =>
        rest := rest[1..];
    }
  }

  function Escape(s: string): string {
    ReplaceAll(Literal('>'), ReplaceAll(Literal('<'), s, "&lt;"), "&gt;")
  }

  datatype Result = Sanitized(text: string, removed: nat)

  /** The text after the four replacement passes, before escaping. */
  function Stripped(input: string): string {
    var t1 := ReplaceAll(Scriptish, input, "");
    var t2 := ReplaceAll(DanglingOpen, t1, "");
    var t3 := ReplaceAll(JsUri, t2, "blocked:");
    ReplaceAll(EventHandler, t3, " data-blocked=")
  }

  function Removals(input: string): nat {
    var t1 := ReplaceAll(Scriptish, input, "");
    var t2 := ReplaceAll(DanglingOpen, t1, "");
    var t3 := ReplaceAll(JsUri, t2, "blocked:");
    Matches(Scriptish, input) + Matches(DanglingOpen, t1) + Matches(JsUri, t2) + Matches(EventHandler, t3)
  }

  /** The outcome of one sanitisation. */
  function Outcome(input: string): Result {
    var text := Stripped(input);
    if '<' in text || '>' in text then Sanitized(Escape(text), Removals(input) + 1)
    else Sanitized(text, Removals(input))
  }

  method Sanitize(input: string) returns (r: Result)
    ensures r == Outcome(input)
  {
    if input == [] {
      return Sanitized(input, 0);
    }
    var removed := 0;
    var text := input;
    var n := CountMatches(text, Scriptish);
    removed := removed + n;
    text := ReplaceAll(Scriptish, text, "");
    n := CountMatches(text, DanglingOpen);
    removed := removed + n;
    text := ReplaceAll(DanglingOpen, text, "");
    n := CountMatches(text, JsUri);
    removed := removed + n;
    text := ReplaceAll(JsUri, text, "blocked:");
    n := CountMatches(text, EventHandler);
    removed := removed + n;
    text := ReplaceAll(EventHandler, text, " data-blocked=");
    if '<' in text || '>' in text {
      var escaped := Escape(text);
      NoAngles(text);
      if escaped != text {
        removed := removed + 1;
        text := escaped;
      }
    }
    return Sanitized(text, removed);
  }

  // ---- texts without a match ---------------------------------------------------------------------

  predicate NoMatch(p: Pattern, s: string) {
    s == [] || (MatchAt(p, s).None? && NoMatch(p, s[1..]))
  }

  lemma {:induction false} NothingToDo(p: Pattern, s: string, r: string)
    requires NoMatch(p, s)
    ensures Matches(p, s) == 0 && ReplaceAll(p, s, r) == s
  {
    if s != [] {
      NothingToDo(p, s[1..], r);
    }
  }

  lemma {:induction false} NoMatchesNoChange(p: Pattern, s: string, r: string)
    requires Matches(p, s) == 0
    ensures ReplaceAll(p, s, r) == s
  {
    if s != [] {
      NoMatchesNoChange(p, s[1..], r);
    }
  }

  /** A match of `p` can only begin with such a character. */
  predicate CanStart(p: Pattern, c: char) {
    match p
    case Scriptish => c == '<'
    case DanglingOpen => c == '<'
    case JsUri => Lower(c) == 'j'
    case EventHandler => IsWs(c)
    case Literal(x) => c == x
  }

  lemma NoMatchOneLater(p: Pattern, c: char, rest: string)
    requires !CanStart(p, c) && NoMatch(p, rest)
    ensures NoMatch(p, [c] + rest)
  {
    assert ([c] + rest)[1..] == rest;
  }

  lemma {:induction false} InertPrefix(p: Pattern, x: string, t: string)
    requires forall i :: 0 <= i < |x| ==> !CanStart(p, x[i])
    requires NoMatch(p, t)
    ensures NoMatch(p, x + t)
  {
    if x == [] {
      Unit(t);
    } else {
      InertPrefix(p, x[1..], t);
      NoMatchOneLater(p, x[0], x[1..] + t);
      Uncons(x, t);
    }
  }

  lemma {:induction false} NoMatchWithoutStart(p: Pattern, s: string)
    requires forall i :: 0 <= i < |s| ==> !CanStart(p, s[i])
    ensures NoMatch(p, s)
  {
    InertPrefix(p, s, []);
    assert s + [] == s;
  }

  // ---- no pass brings back what an earlier one removed -----------------------------------------

  /** A literal found right after a replacement was already there before it. */
  lemma {:induction false} LiteralInherited(p: Pattern, r: string, u: string, w: string)
    requires w != [] && r != [] && Lower(r[0]) !in w
    requires StartsWithCi(ReplaceAll(p, u, r), w)
    ensures StartsWithCi(u, w)
    decreases |u|
  {
    var t := ReplaceAll(p, u, r);
    assert u != [];
    match MatchAt(p, u)
    case Some(n) =>
      assert false;
    case None =>
      assert t[1..] == ReplaceAll(p, u[1..], r);
      if |w| > 1 {
        LiteralInherited(p, r, u[1..], w[1..]);
      }
  }

  /** No `javascript:` survives or reappears. */
  lemma {:induction false} NoJsAfter(p: Pattern, r: string, s: string)
    requires p == JsUri || NoMatch(JsUri, s)
    requires r != [] && Lower(r[0]) !in JAVASCRIPT
    requires forall i :: 0 <= i < |r| ==> Lower(r[i]) != 'j'
    ensures NoMatch(JsUri, ReplaceAll(p, s, r))
    decreases |s|
  {
    if s != [] {
      match MatchAt(p, s)
      case Some(n) =>
        if p != JsUri { NoMatchDrop(JsUri, s, n); }
        NoJsAfter(p, r, s[n..]);
        InertPrefix(JsUri, r, ReplaceAll(p, s[n..], r));
      case None =>
        NoJsAfter(p, r, s[1..]);
        var t := ReplaceAll(p, s, r);
        assert t[1..] == ReplaceAll(p, s[1..], r);
        if StartsWithCi(t, JAVASCRIPT) {
          LiteralInherited(p, r, s, JAVASCRIPT);
          assert false;
        }
    }
  }

  lemma {:induction false} NoMatchDrop(p: Pattern, s: string, n: nat)
    requires NoMatch(p, s) && n <= |s|
    ensures NoMatch(p, s[n..])
  {
    if n > 0 {
      NoMatchDrop(p, s[1..], n - 1);
      assert s[1..][n - 1..] == s[n..];
    }
  }

  /** Text that stops an event handler whatever part of it was already matched. */
  ghost predicate Blocks(r: string) {
    r != [] && forall q: Stage, t: string :: HandlerRest(q, r + t).None?
  }

  lemma {:induction false} HandlerInherited(p: Pattern, r: string, u: string, q: Stage)
    requires Blocks(r) && HandlerRest(q, ReplaceAll(p, u, r)).Some?
    ensures HandlerRest(q, u).Some?
    decreases |u|
  {
    var t := ReplaceAll(p, u, r);
    assert u != [];
    match MatchAt(p, u)
    case Some(n) =>
      assert false;
    case None =>
      assert t[0] == u[0] && t[1..] == ReplaceAll(p, u[1..], r);
      if !(q in {InWord, InSpace} && u[0] == '=') {
        HandlerInherited(p, r, u[1..], Advance(q, u[0]).value);
      }
  }

  /** No event handler survives or reappears. */
  lemma {:induction false} NoHandlerAfter(p: Pattern, r: string, s: string)
    requires p == EventHandler || NoMatch(EventHandler, s)
    requires Blocks(r)
    requires forall t: string :: NoMatch(EventHandler, t) ==> NoMatch(EventHandler, r + t)
    ensures NoMatch(EventHandler, ReplaceAll(p, s, r))
    decreases |s|
  {
    if s != [] {
      match MatchAt(p, s)
      case Some(n) =>
        if p != EventHandler { NoMatchDrop(EventHandler, s, n); }
        NoHandlerAfter(p, r, s[n..]);
      case None =>
        NoHandlerAfter(p, r, s[1..]);
        var t := ReplaceAll(p, s, r);
        assert t[0] == s[0] && t[1..] == ReplaceAll(p, s[1..], r);
        if IsWs(s[0]) && HandlerRest(WantO, t[1..]).Some? {
          HandlerInherited(p, r, s[1..], WantO);
          assert false;
        }
    }
  }

  lemma EntityBlocks(r: string)
    requires r == "&lt;" || r == "&gt;"
    ensures Blocks(r)
    ensures forall t: string :: NoMatch(EventHandler, t) ==> NoMatch(EventHandler, r + t)
  {
    forall q: Stage, t: string ensures HandlerRest(q, r + t).None? {
      assert (r + t)[0] == '&';
    }
    forall t: string | NoMatch(EventHandler, t) ensures NoMatch(EventHandler, r + t) {
      InertPrefix(EventHandler, r, t);
    }
  }

  lemma BlankThenD(d: string, t: string)
    requires d != [] && d[0] == 'd'
    ensures var s := ([' '] + d) + t; s[0] == ' ' && s[1..] == d + t && s[1..][0] == 'd'
  {
  }

  lemma ReplacementBlocks()
    ensures Blocks(" data-blocked=")
    ensures forall t: string :: NoMatch(EventHandler, t) ==> NoMatch(EventHandler, " data-blocked=" + t)
  {
    var r := " data-blocked=";
    var d := "data-blocked=";
    assert r == [' '] + d;
    forall q: Stage, t: string ensures HandlerRest(q, r + t).None? {
      BlankThenD(d, t);
    }
    forall t: string | NoMatch(EventHandler, t) ensures NoMatch(EventHandler, r + t) {
      BlankThenD(d, t);
      InertPrefix(EventHandler, d, t);
    }
  }

  lemma {:induction false} CharGone(c: char, s: string, r: string, x: char)
    requires x !in r && (x == c || x !in s)
    ensures x !in ReplaceAll(Literal(c), s, r)
    decreases |s|
  {
    if s != [] {
      CharGone(c, s[1..], r, x);
    }
  }

  lemma NoAngles(s: string)
    ensures '<' !in Escape(s) && '>' !in Escape(s)
  {
    var t := ReplaceAll(Literal('<'), s, "&lt;");
    CharGone('<', s, "&lt;", '<');
    CharGone('>', t, "&gt;", '<');
    CharGone('>', t, "&gt;", '>');
  }

  /** Text in which none of the four patterns occurs and which holds no angle bracket. */
  predicate Inert(s: string) {
    && NoMatch(Scriptish, s) && NoMatch(DanglingOpen, s) && NoMatch(JsUri, s) && NoMatch(EventHandler, s)
    && '<' !in s && '>' !in s
  }

  lemma StrippedIsQuiet(input: string)
    ensures NoMatch(JsUri, Stripped(input)) && NoMatch(EventHandler, Stripped(input))
  {
    var t2 := ReplaceAll(DanglingOpen, ReplaceAll(Scriptish, input, ""), "");
    var t3 := ReplaceAll(JsUri, t2, "blocked:");
    NoJsAfter(JsUri, "blocked:", t2);
    LastPassIsQuiet(t3);
  }

  lemma LastPassIsQuiet(s: string)
    requires NoMatch(JsUri, s)
    ensures NoMatch(JsUri, ReplaceAll(EventHandler, s, " data-blocked="))
    ensures NoMatch(EventHandler, ReplaceAll(EventHandler, s, " data-blocked="))
  {
    NoJsAfter(EventHandler, " data-blocked=", s);
    ReplacementBlocks();
    NoHandlerAfter(EventHandler, " data-blocked=", s);
  }

  lemma EscapeKeepsQuiet(s: string)
    requires NoMatch(JsUri, s) && NoMatch(EventHandler, s)
    ensures NoMatch(JsUri, Escape(s)) && NoMatch(EventHandler, Escape(s))
  {
    var t := ReplaceAll(Literal('<'), s, "&lt;");
    NoJsAfter(Literal('<'), "&lt;", s);
    NoJsAfter(Literal('>'), "&gt;", t);
    EntityBlocks("&lt;");
    EntityBlocks("&gt;");
    NoHandlerAfter(Literal('<'), "&lt;", s);
    NoHandlerAfter(Literal('>'), "&gt;", t);
  }

  /** Whatever the input, nothing active is left in the output. */
  lemma OutputIsInert(input: string)
    ensures Inert(Outcome(input).text)
  {
    var text := Stripped(input);
    var out := Outcome(input).text;
    StrippedIsQuiet(input);
    EscapeKeepsQuiet(text);
    NoAngles(text);
    NoMatchWithoutStart(Scriptish, out);
    NoMatchWithoutStart(DanglingOpen, out);
  }

  lemma InertIsFixed(s: string)
    requires Inert(s)
    ensures Outcome(s) == Sanitized(s, 0)
  {
    NothingToDo(Scriptish, s, "");
    NothingToDo(DanglingOpen, s, "");
    NothingToDo(JsUri, s, "blocked:");
    NothingToDo(EventHandler, s, " data-blocked=");
  }

  /** Sanitising is idempotent, and finds nothing the second time. */
  lemma Idempotent(input: string)
    ensures Outcome(Outcome(input).text) == Sanitized(Outcome(input).text, 0)
  {
    OutputIsInert(input);
    InertIsFixed(Outcome(input).text);
  }

  /** A sanitisation is reported as applied exactly when it changed the text, which is exactly when
      the text was not inert. */
  lemma AppliedIffChanged(input: string)
    ensures Outcome(input).removed == 0 <==> Outcome(input).text == input
    ensures Outcome(input).removed == 0 <==> Inert(input)
  {
    if Outcome(input).removed == 0 {
      NoMatchesNoChange(Scriptish, input, "");
      NoMatchesNoChange(DanglingOpen, input, "");
      NoMatchesNoChange(JsUri, input, "blocked:");
      NoMatchesNoChange(EventHandler, input, " data-blocked=");
    }
    if Outcome(input).text == input {
      Idempotent(input);
    }
    OutputIsInert(input);
    if Inert(input) {
      InertIsFixed(input);
    }
  }

  // ---- an active element disappears with everything in it ---------------------------------------

  /** The text spells the name in some mix of upper and lower case. */
  predicate Spells(t: string, name: string) { |t| == |name| && StartsWithCi(t, name) }

  lemma {:induction false} SpelledThen(tag: string, name: string, t: string)
    requires Spells(tag, name)
    ensures StartsWithCi(tag + t, name)
  {
    if name != [] {
      SpelledThen(tag[1..], name[1..], t);
      ConsTail(tag, t);
    }
  }

  lemma {:induction false} LeadingWsOf(ws: string, t: string)
    requires Blank(ws) && (t == [] || !IsWs(t[0]))
    ensures LeadingWs(ws + t) == |ws|
  {
    if ws == [] {
      Unit(t);
    } else {
      ConsTail(ws, t);
      LeadingWsOf(ws[1..], t);
    }
  }

  lemma Drop(a: string, b: string)
    ensures (a + b)[|a|..] == b
  {
  }

  /** The first two letters tell the active tags apart. */
  lemma FirstLetters(tag: string, k: nat)
    requires k < |TAGS| && Spells(tag, TAGS[k])
    ensures |tag| >= 2 && Lower(tag[0]) == TAGS[k][0] && Lower(tag[1]) == TAGS[k][1] && !IsWs(tag[0])
  {
    SecondLetter(tag, TAGS[k]);
  }

  lemma SecondLetter(t: string, name: string)
    requires |name| >= 2 && Spells(t, name)
    ensures Lower(t[0]) == name[0] && Lower(t[1]) == name[1]
  {
    assert StartsWithCi(t[1..], name[1..]);
    assert t[1..][0] == t[1] && name[1..][0] == name[1];
  }

  lemma OtherTag(s: string, i: nat, k: nat)
    requires i < k < |TAGS| && |s| >= 2 && Lower(s[0]) == TAGS[k][0] && Lower(s[1]) == TAGS[k][1]
    ensures !StartsWithCi(s, TAGS[i])
  {
    assert s[1..][0] == s[1] && TAGS[i][1..][0] == TAGS[i][1];
  }

  lemma TagNameFrom(s: string, i: nat, k: nat)
    requires i <= k < |TAGS| && |TAGS[k]| < |s| && StartsWithCi(s, TAGS[k]) && !IsWord(s[|TAGS[k]|])
    requires |s| >= 2 && Lower(s[0]) == TAGS[k][0] && Lower(s[1]) == TAGS[k][1]
    ensures TagAt(s, i) == Some(TAGS[k])
    decreases k - i
  {
    if i < k {
      OtherTag(s, i, k);
      TagNameFrom(s, i + 1, k);
    }
  }

  lemma TagNameFound(k: nat, tag: string, t: string)
    requires k < |TAGS| && Spells(tag, TAGS[k]) && t != [] && !IsWord(t[0])
    ensures TagAt(tag + t, 0) == Some(TAGS[k])
  {
    FirstLetters(tag, k);
    SpelledThen(tag, TAGS[k], t);
    TagNameFrom(tag + t, 0, k);
  }

  lemma OpenTagFound(lead: string, k: nat, tag: string, t: string)
    requires k < |TAGS| && Blank(lead) && Spells(tag, TAGS[k]) && t != [] && !IsWord(t[0])
    ensures var s := ['<'] + (lead + (tag + t));
            OpenTag(s) == Some((TAGS[k], 1 + |lead| + |tag|)) && s[1 + |lead| + |tag|..] == t
  {
    var s := ['<'] + (lead + (tag + t));
    FirstLetters(tag, k);
    LeadingWsOf(lead, tag + t);
    assert s[1..] == lead + (tag + t);
    DropTwice(['<'], lead, tag + t);
    DropTwice(['<'] + lead, tag, t);
    Associates(['<'], lead, tag + t);
    TagNameFound(k, tag, t);
  }

  lemma DropTwice(a: string, b: string, c: string)
    ensures (a + (b + c))[|a| + |b|..] == c
  {
  }

  /** `<\s*\/\s*NAME\s*>`, the name in any case. */
  function ClosingTag(w: string, x: string, tag: string, y: string): string {
    ['<'] + (w + (['/'] + (x + (tag + (y + ['>'])))))
  }

  lemma SkipsWs(ws: string, t: string)
    requires Blank(ws) && (t == [] || !IsWs(t[0]))
    ensures SkipWs(ws + t) == t
  {
    LeadingWsOf(ws, t);
    Drop(ws, t);
  }

  lemma Eats(c: char, t: string)
    ensures Eat([c] + t, c) == Some(t)
  {
    Drop([c], t);
  }

  lemma EatsName(tag: string, name: string, t: string)
    requires Spells(tag, name)
    ensures EatName(tag + t, name) == Some(t)
  {
    SpelledThen(tag, name, t);
    Drop(tag, t);
  }

  lemma ClosingTagThen(w: string, x: string, tag: string, y: string, post: string)
    ensures ClosingTag(w, x, tag, y) + post == ['<'] + (w + (['/'] + (x + (tag + (y + (['>'] + post))))))
  {
  }

  lemma AfterClosing(name: string, w: string, x: string, tag: string, y: string, post: string)
    requires tag != [] && !IsWs(tag[0]) && Blank(w) && Blank(x) && Blank(y) && Spells(tag, name)
    ensures AfterClose(['<'] + (w + (['/'] + (x + (tag + (y + (['>'] + post)))))), name) == Some(post)
  {
    hide Eat, SkipWs, EatName;
    var c := y + (['>'] + post);
    var b := x + (tag + c);
    var a := w + (['/'] + b);
    Eats('<', a);
    SkipsWs(w, ['/'] + b);
    Eats('/', b);
    SkipsWs(x, tag + c);
    EatsName(tag, name, c);
    SkipsWs(y, ['>'] + post);
    Eats('>', post);
  }

  /** Every spelling of a closing tag is recognised, whatever follows it. */
  lemma ClosingTagFound(k: nat, w: string, x: string, tag: string, y: string, post: string)
    requires k < |TAGS| && Blank(w) && Blank(x) && Blank(y) && Spells(tag, TAGS[k])
    ensures CloseTag(ClosingTag(w, x, tag, y) + post, TAGS[k]) == Some(|ClosingTag(w, x, tag, y)|)
  {
    hide AfterClose;
    FirstLetters(tag, k);
    ClosingTagThen(w, x, tag, y, post);
    AfterClosing(TAGS[k], w, x, tag, y, post);
  }

  lemma {:induction false} MatchReached(at: string -> Option<nat>, inner: string, close: string, n: nat)
    requires Measures(at) && close != [] && at(close) == Some(n)
    requires forall i :: 0 <= i < |inner| ==> at(inner[i..] + close) == None
    ensures UpTo(at, inner + close) == Some(|inner| + n)
    decreases |inner|
  {
    if inner == [] {
      Unit(close);
    } else {
      forall i | 0 <= i < |inner[1..]| ensures at(inner[1..][i..] + close) == None {
        assert inner[1..][i..] == inner[i + 1..];
      }
      MatchReached(at, inner[1..], close, n);
      assert inner[0..] == inner;
      ConsTail(inner, close);
    }
  }

  /** No closing tag of the name begins inside `inner`, given what follows. */
  predicate NoCloseInside(inner: string, rest: string, name: string) {
    forall i :: 0 <= i < |inner| ==> CloseTag(inner[i..] + rest, name) == None
  }

  lemma CloseTagReached(inner: string, rest: string, name: string, n: nat)
    requires CloseTag(rest, name) == Some(n) && NoCloseInside(inner, rest, name)
    ensures UpToClose(inner + rest, name) == Some(|inner| + n)
  {
    MatchReached(ClosesWith(name), inner, rest, n);
  }

  /** One element: the opening name with what surrounds it, everything up to the closing tag, and that tag. */
  function Element(lead: string, tag: string, inner: string, close: string): string {
    ['<'] + (lead + (tag + (inner + close)))
  }

  lemma ElementThen(lead: string, tag: string, inner: string, close: string, post: string)
    ensures Element(lead, tag, inner, close) + post == ['<'] + (lead + (tag + (inner + (close + post))))
    ensures (inner + (close + post))[|inner| + |close|..] == post
  {
  }

  predicate Active(k: nat, lead: string, tag: string, inner: string, close: string, post: string) {
    && k < |TAGS| && Blank(lead) && Spells(tag, TAGS[k]) && (inner == [] || !IsWord(inner[0]))
    && CloseTag(close + post, TAGS[k]) == Some(|close|)
    && NoCloseInside(inner, close + post, TAGS[k])
  }

  lemma ElementMatched(k: nat, lead: string, tag: string, inner: string, close: string, post: string)
    requires Active(k, lead, tag, inner, close, post)
    ensures var s := Element(lead, tag, inner, close) + post;
            MatchAt(Scriptish, s) == Some(|Element(lead, tag, inner, close)|)
            && s[|Element(lead, tag, inner, close)|..] == post
  {
    hide MatchAt, CloseTag, UpToClose;
    var t := inner + (close + post);
    ElementThen(lead, tag, inner, close, post);
    CloseTagReached(inner, close + post, TAGS[k], |close|);
    BoundaryThere(inner, close + post, TAGS[k]);
    MatchedFrom(lead, k, tag, t, |inner| + |close|);
    Drop(Element(lead, tag, inner, close), post);
  }

  lemma BoundaryThere(inner: string, rest: string, name: string)
    requires (inner == [] || !IsWord(inner[0])) && CloseTag(rest, name).Some?
    ensures inner + rest != [] && !IsWord((inner + rest)[0])
  {
  }

  lemma MatchedFrom(lead: string, k: nat, tag: string, t: string, m: nat)
    requires k < |TAGS| && Blank(lead) && Spells(tag, TAGS[k]) && t != [] && !IsWord(t[0])
    requires UpToClose(t, TAGS[k]) == Some(m)
    ensures MatchAt(Scriptish, ['<'] + (lead + (tag + t))) == Some(1 + |lead| + |tag| + m)
  {
    OpenTagFound(lead, k, tag, t);
    MatchAtEval(['<'] + (lead + (tag + t)), TAGS[k], 1 + |lead| + |tag|, m);
  }

  lemma MatchAtEval(s: string, name: string, n: nat, m: nat)
    requires n <= |s| && OpenTag(s) == Some((name, n)) && UpToClose(s[n..], name) == Some(m)
    ensures MatchAt(Scriptish, s) == Some(n + m)
  {
    hide OpenTag, UpToClose;
  }

  /** The first pass treats `pre` alike in front of t and of u, and no match runs across its end. */
  predicate Seam(pre: string, t: string, u: string) {
    pre != [] ==>
      && MatchAt(Scriptish, pre + t) == MatchAt(Scriptish, pre + u)
      && match MatchAt(Scriptish, pre + t)
         case None => Seam(pre[1..], t, u)
         case Some(n) => n <= |pre| && Seam(pre[n..], t, u)
  }

  lemma DropFront(pre: string, t: string, n: nat)
    requires n <= |pre|
    ensures (pre + t)[n..] == pre[n..] + t
  {
  }

  lemma FirstPass(s: string)
    requires s != []
    ensures var m := MatchAt(Scriptish, s);
            && ReplaceAll(Scriptish, s, "")
               == (if m.Some? then ReplaceAll(Scriptish, s[m.value..], "")
                   else [s[0]] + ReplaceAll(Scriptish, s[1..], ""))
            && Matches(Scriptish, s)
               == (if m.Some? then 1 + Matches(Scriptish, s[m.value..]) else Matches(Scriptish, s[1..]))
  {
    if MatchAt(Scriptish, s).Some? { Unit(ReplaceAll(Scriptish, s[MatchAt(Scriptish, s).value..], "")); }
  }

  /** What the first pass makes equal after a seam it makes equal with what stands before. */
  lemma {:induction false} AcrossSeam(pre: string, t: string, u: string)
    requires Seam(pre, t, u)
    requires ReplaceAll(Scriptish, t, "") == ReplaceAll(Scriptish, u, "")
    ensures ReplaceAll(Scriptish, pre + t, "") == ReplaceAll(Scriptish, pre + u, "")
    ensures Matches(Scriptish, pre + t) - Matches(Scriptish, t) == Matches(Scriptish, pre + u) - Matches(Scriptish, u)
    decreases |pre|
  {
    hide MatchAt, ReplaceAll, Matches;
    if pre == [] {
      Unit(t);
      Unit(u);
    } else {
      var m := MatchAt(Scriptish, pre + t);
      var n := if m.Some? then m.value else 1;
      FirstPass(pre + t);
      FirstPass(pre + u);
      DropFront(pre, t, n);
      DropFront(pre, u, n);
      AcrossSeam(pre[n..], t, u);
    }
  }

  lemma MatchedAtStart(s: string, n: nat, post: string)
    requires MatchAt(Scriptish, s) == Some(n) && s[n..] == post
    ensures ReplaceAll(Scriptish, s, "") == ReplaceAll(Scriptish, post, "")
    ensures Matches(Scriptish, s) == 1 + Matches(Scriptish, post)
  {
    Unit(ReplaceAll(Scriptish, post, ""));
  }

  lemma SameFirstPass(s: string, t: string)
    requires ReplaceAll(Scriptish, s, "") == ReplaceAll(Scriptish, t, "")
    requires Matches(Scriptish, s) == 1 + Matches(Scriptish, t)
    ensures Outcome(s) == Sanitized(Outcome(t).text, Outcome(t).removed + 1)
  {
  }

  /** An element with an active tag, in any spelling and with whatever it holds up to its closing tag, goes as
      a whole: the text sanitises as if it had never been there, with one removal more. */
  lemma ActiveElementRemoved(pre: string, k: nat, lead: string, tag: string, inner: string, close: string, post: string)
    requires Active(k, lead, tag, inner, close, post) && Seam(pre, Element(lead, tag, inner, close) + post, post)
    ensures var kept := Outcome(pre + post);
            Outcome(pre + (Element(lead, tag, inner, close) + post)) == Sanitized(kept.text, kept.removed + 1)
  {
    hide Outcome, Active;
    var s := Element(lead, tag, inner, close) + post;
    ElementMatched(k, lead, tag, inner, close, post);
    MatchedAtStart(s, |Element(lead, tag, inner, close)|, post);
    AcrossSeam(pre, s, post);
    SameFirstPass(pre + s, pre + post);
  }

  // ---- the same for conditions on the characters --------------------------------------------------

  /** Every `<` is followed, after white space, by some other character. */
  predicate AnglesAvoid(s: string, bad: string) {
    forall i :: 0 <= i < |s| && s[i] == '<' ==> SkipWs(s[i + 1..]) != [] && Lower(SkipWs(s[i + 1..])[0]) !in bad
  }

  /** The first letters of the active tags. */
  const INITIALS := "sioe"

  lemma {:induction false} SkipWsStays(s: string, t: string)
    requires SkipWs(s) != []
    ensures SkipWs(s + t) == SkipWs(s) + t
  {
    ConsTail(s, t);
    if IsWs(s[0]) {
      assert SkipWs(s) == SkipWs(s[1..]);
      SkipWsStays(s[1..], t);
      assert SkipWs(s + t) == SkipWs((s + t)[1..]);
    }
  }

  lemma OtherInitial(s: string, k: nat)
    requires k <= |TAGS| && s != [] && Lower(s[0]) !in INITIALS
    ensures TagAt(s, k).None?
    decreases |TAGS| - k
  {
    if k < |TAGS| { OtherInitial(s, k + 1); }
  }

  lemma NoOpening(s: string, t: string)
    requires s != [] && AnglesAvoid(s, INITIALS)
    ensures MatchAt(Scriptish, s + t).None?
  {
    hide TagAt, OpenTag, MatchAt, SkipWs;
    ConsTail(s, t);
    if s[0] == '<' {
      SkipWsStays(s[1..], t);
      assert s[0 + 1..] == s[1..];
      OtherInitial(SkipWs((s + t)[1..]), 0);
    }
    NotOpen(s + t);
  }

  lemma NotOpen(s: string)
    requires s != [] && (s[0] == '<' ==> TagAt(SkipWs(s[1..]), 0).None?)
    ensures MatchAt(Scriptish, s).None?
  {
    hide TagAt, LeadingWs;
    if s[0] == '<' {
      assert s[1 + LeadingWs(s[1..])..] == s[1..][LeadingWs(s[1..])..];
    }
  }

  lemma AvoidTail(s: string, bad: string)
    requires s != [] && AnglesAvoid(s, bad)
    ensures AnglesAvoid(s[1..], bad)
  {
    forall i | 0 <= i < |s[1..]| && s[1..][i] == '<'
      ensures SkipWs(s[1..][i + 1..]) != [] && Lower(SkipWs(s[1..][i + 1..])[0]) !in bad
    {
      assert s[1..][i + 1..] == s[(i + 1) + 1..];
    }
  }

  lemma {:induction false} SeamWithoutOpening(pre: string, t: string, u: string)
    requires AnglesAvoid(pre, INITIALS)
    ensures Seam(pre, t, u)
  {
    hide AnglesAvoid, MatchAt;
    if pre != [] {
      NoOpening(pre, t);
      NoOpening(pre, u);
      AvoidTail(pre, INITIALS);
      SeamWithoutOpening(pre[1..], t, u);
    }
  }

  lemma NoClosing(s: string, t: string, name: string)
    requires s != [] && AnglesAvoid(s, "/")
    ensures CloseTag(s + t, name).None?
  {
    if s[0] == '<' {
      ConsTail(s, t);
      SkipWsStays(s[1..], t);
      assert Lower('/') == '/';
    }
  }

  lemma {:induction false} NoClosingInside(inner: string, rest: string, name: string)
    requires AnglesAvoid(inner, "/")
    ensures NoCloseInside(inner, rest, name)
  {
    forall i | 0 <= i < |inner| ensures CloseTag(inner[i..] + rest, name) == None {
      AvoidSuffix(inner, "/", i);
      NoClosing(inner[i..], rest, name);
    }
  }

  lemma {:induction false} AvoidSuffix(s: string, bad: string, n: nat)
    requires n <= |s| && AnglesAvoid(s, bad)
    ensures AnglesAvoid(s[n..], bad)
  {
    hide AnglesAvoid;
    if n == 0 {
      assert s[0..] == s;
    } else {
      AvoidTail(s, bad);
      AvoidSuffix(s[1..], bad, n - 1);
      assert s[1..][n - 1..] == s[n..];
    }
  }

  /** In particular when no `<` of the text before it can open an active tag and no `<` of its content can
      open a closing tag. The closing tag may have any spelling. */
  lemma PlainElementRemoved(pre: string, k: nat, lead: string, tag: string, inner: string,
                            w: string, x: string, closing: string, y: string, post: string)
    requires AnglesAvoid(pre, INITIALS) && AnglesAvoid(inner, "/")
    requires k < |TAGS| && Spells(tag, TAGS[k]) && Spells(closing, TAGS[k]) && (inner == [] || !IsWord(inner[0]))
    requires Blank(lead) && Blank(w) && Blank(x) && Blank(y)
    ensures var kept := Outcome(pre + post);
            Outcome(pre + (Element(lead, tag, inner, ClosingTag(w, x, closing, y)) + post))
            == Sanitized(kept.text, kept.removed + 1)
  {
    hide Outcome, CloseTag, AnglesAvoid, NoCloseInside, Seam;
    var close := ClosingTag(w, x, closing, y);
    ClosingTagFound(k, w, x, closing, y, post);
    NoClosingInside(inner, close + post, TAGS[k]);
    SeamWithoutOpening(pre, Element(lead, tag, inner, close) + post, post);
    ActiveElementRemoved(pre, k, lead, tag, inner, close, post);
  }
}
