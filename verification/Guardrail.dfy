/** Retrieved chunks: the partition into safe and quarantined, and the spotlighted context. */
module Guardrail {
  import opened Sequences
  import opened Text

  datatype Chunk = Chunk(id: string, clearance: string, source: string, content: string)

  const TOKEN := "atlas:doc"
  const DOT := '\U{2024}'
  const OPEN := "<" + TOKEN + " id=\""
  const CLEARANCE := "\" clearance=\""
  const SOURCE := "\" source=\""
  const BODY := "\">\n"
  const CLOSE := "</" + TOKEN + ">\n"

  // ---- neutralising --------------------------------------------------------------------------

  /** The length of the shortest text ending in `-->`. */
  function UpToCommentEnd(s: string): (r: Option<nat>)
    ensures r.Some? ==> 0 < r.value <= |s|
  {
    if |s| < 3 then None
    else if s[..3] == "-->" then Some(3)
    else match UpToCommentEnd(s[1..])
      case Some(n) => Some(n + 1)
      case None => None
  }

  /** Replace every comment by a blank. */
  function StripComments(s: string): string {
    if s == [] then []
    else if "<!--" <= s then
      (match UpToCommentEnd(s[4..])
       case Some(n) => " " + StripComments(s[4 + n..])
       case None => [s[0]] + StripComments(s[1..]))
    else [s[0]] + StripComments(s[1..])
  }

  /** Replace every occurrence of the delimiter token, in any case. */
  function BreakToken(s: string): string {
    if s == [] then []
    else if StartsWithCi(s, TOKEN) then
      StartsWithCiLength(s, TOKEN);
      "atlas" + [DOT] + ("doc" + BreakToken(s[|TOKEN|..]))
    else [s[0]] + BreakToken(s[1..])
  }

  function Neutralize(content: string): string { BreakToken(StripComments(content)) }

  function Spotlighted(c: Chunk): string {
    Segment(c) + CLOSE
  }

  /** Everything a chunk prints before its closing tag. */
  function Segment(c: Chunk): string {
    Header(c) + Neutralize(c.content) + "\n"
  }

  function Header(c: Chunk): string {
    OPEN + c.id + CLEARANCE + c.clearance + SOURCE + Neutralize(c.source) + BODY
  }

  function SpotlightAll(safe: seq<Chunk>): string {
    if safe == [] then "" else Spotlighted(safe[0]) + SpotlightAll(safe[1..])
  }

  lemma {:induction false} SpotlightSnoc(cs: seq<Chunk>, c: Chunk)
    ensures SpotlightAll(cs + [c]) == SpotlightAll(cs) + Spotlighted(c)
  {
    if cs == [] {
      assert cs + [c] == [c];
    } else {
      assert (cs + [c])[1..] == cs[1..] + [c];
      SpotlightSnoc(cs[1..], c);
    }
  }

  method Spotlight(safe: seq<Chunk>) returns (context: string)
    ensures context == SpotlightAll(safe)
  {
    context := "";
    for i := 0 to |safe|
      invariant context == SpotlightAll(safe[..i])
    {
      var c := safe[i];
      context := context
        + (OPEN + c.id + CLEARANCE + c.clearance + SOURCE + Neutralize(c.source)
           + BODY + Neutralize(c.content) + "\n" + CLOSE);
      SpotlightSnoc(safe[..i], c);
      assert safe[..i] + [c] == safe[..i + 1];
    }
    assert safe[..|safe|] == safe;
  }

  // ---- the delimiter token occurs exactly where the printer puts it -----------------------------

  /** How often the token occurs in `s`, in any case. */
  function Tokens(s: string): nat {
    if s == [] then 0 else (if StartsWithCi(s, TOKEN) then 1 else 0) + Tokens(s[1..])
  }

  predicate Foreign(c: char) { Lower(c) !in TOKEN }

  /** A match cannot run across a character that the literal does not contain. */
  lemma {:induction false} MatchStopsAt(a: string, c: char, b: string, w: string)
    requires Lower(c) !in w
    ensures StartsWithCi(a + [c] + b, w) == StartsWithCi(a, w)
  {
    if w != [] {
      if a == [] {
        assert (a + [c] + b)[0] == c;
      } else {
        assert (a + [c] + b)[1..] == a[1..] + [c] + b;
        MatchStopsAt(a[1..], c, b, w[1..]);
      }
    }
  }

  lemma {:induction false} TokensSplitAt(a: string, c: char, b: string)
    requires Foreign(c)
    ensures Tokens(a + [c] + b) == Tokens(a) + Tokens(b)
  {
    MatchStopsAt(a, c, b, TOKEN);
    if a == [] {
      assert a + [c] + b == [c] + b;
    } else {
      assert (a + [c] + b)[1..] == a[1..] + [c] + b;
      TokensSplitAt(a[1..], c, b);
    }
  }

  /** No token runs across a seam with a foreign character on either side. */
  lemma TokensJoin(a: string, b: string)
    requires (a != [] && Foreign(a[|a| - 1])) || (b != [] && Foreign(b[0]))
    ensures Tokens(a + b) == Tokens(a) + Tokens(b)
  {
    if a != [] && Foreign(a[|a| - 1]) {
      FrontLast(a);
      TokensAroundEnd(a[..|a| - 1], a[|a| - 1], b);
    } else {
      assert b == [b[0]] + b[1..];
      TokensAroundStart(a, b[0], b[1..]);
    }
  }

  lemma TokensAroundEnd(x: string, c: char, b: string)
    requires Foreign(c)
    ensures Tokens(x + [c] + b) == Tokens(x + [c]) + Tokens(b)
  {
    TokensSplitAt(x, c, b);
    TokensSplitAt(x, c, []);
    Unit(x + [c]);
  }

  lemma TokensAroundStart(a: string, c: char, y: string)
    requires Foreign(c)
    ensures Tokens(a + ([c] + y)) == Tokens(a) + Tokens([c] + y)
  {
    TokensSplitAt(a, c, y);
    TokensSplitAt([], c, y);
    Unit([c]);
    Associates(a, [c], y);
  }

  /** The rest of a token found right after a replacement was already there before it. */
  lemma {:induction false} TokenInherited(s: string, k: nat)
    requires 1 <= k < |TOKEN| && StartsWithCi(BreakToken(s), TOKEN[k..])
    ensures StartsWithCi(s, TOKEN[k..])
    decreases |s|
  {
    var t := BreakToken(s);
    assert s != [];
    if StartsWithCi(s, TOKEN) {
      BrokenStart(s, k);
      assert false;
    } else {
      assert t[1..] == BreakToken(s[1..]);
      if k + 1 < |TOKEN| {
        assert TOKEN[k..][1..] == TOKEN[k + 1..];
        TokenInherited(s[1..], k + 1);
      }
    }
  }

  lemma BrokenStart(s: string, k: nat)
    requires 1 <= k < |TOKEN| && StartsWithCi(s, TOKEN)
    ensures !StartsWithCi(BreakToken(s), TOKEN[k..])
  {
    var t, w := BreakToken(s), TOKEN[k..];
    assert t[0] == 'a' && t[1..][0] == 't';
    assert w[0] == TOKEN[k];
    if k == 3 {
      assert w[1..][0] == 's';
    }
  }

  lemma {:induction false} TokenNeedsColon(s: string, w: string)
    requires ':' !in s && ':' in w
    ensures !StartsWithCi(s, w)
  {
    if s != [] && Lower(s[0]) == w[0] {
      assert s[0] in s;
      assert ':' in w[1..];
      TokenNeedsColon(s[1..], w[1..]);
    }
  }

  lemma {:induction false} NoColonNoToken(s: string)
    requires ':' !in s
    ensures Tokens(s) == 0
  {
    if s != [] {
      assert TOKEN[5] == ':';
      TokenNeedsColon(s, TOKEN);
      NoColonNoToken(s[1..]);
    }
  }

  lemma {:induction false} NoStartNoToken(x: string, t: string)
    requires forall i :: 0 <= i < |x| ==> Lower(x[i]) != 'a'
    ensures Tokens(x + t) == Tokens(t)
  {
    if x == [] {
      assert x + t == t;
    } else {
      assert (x + t)[1..] == x[1..] + t;
      NoStartNoToken(x[1..], t);
    }
  }

  lemma BrokenPrefixIsClean(t: string)
    ensures Tokens("atlas" + [DOT] + ("doc" + t)) == Tokens(t)
  {
    TokensSplitAt("atlas", DOT, "doc" + t);
    NoColonNoToken("atlas");
    NoStartNoToken("doc", t);
  }

  /** No forged delimiter survives, and breaking one never completes another. */
  lemma {:induction false} BrokenIsClean(s: string)
    ensures Tokens(BreakToken(s)) == 0
    decreases |s|
  {
    if s != [] {
      if StartsWithCi(s, TOKEN) {
        StartsWithCiLength(s, TOKEN);
        BrokenIsClean(s[|TOKEN|..]);
        BrokenPrefixIsClean(BreakToken(s[|TOKEN|..]));
      } else {
        BrokenIsClean(s[1..]);
        var t := BreakToken(s);
        assert t[1..] == BreakToken(s[1..]);
        if StartsWithCi(t, TOKEN) {
          TokenInherited(s[1..], 1);
          assert false;
        }
      }
    }
  }

  lemma NeutralizedIsClean(content: string)
    ensures Tokens(Neutralize(content)) == 0
  {
    BrokenIsClean(StripComments(content));
  }

  // ---- the printed context ---------------------------------------------------------------------

  lemma {:induction false} TokenPrefix(k: nat, t: string)
    requires k <= |TOKEN|
    ensures StartsWithCi(TOKEN[k..] + t, TOKEN[k..])
    decreases |TOKEN| - k
  {
    if k < |TOKEN| {
      assert (TOKEN[k..] + t)[1..] == TOKEN[k + 1..] + t;
      assert TOKEN[k..][1..] == TOKEN[k + 1..];
      TokenPrefix(k + 1, t);
    }
  }

  lemma {:induction false} ShortNoToken(s: string)
    requires |s| < |TOKEN|
    ensures Tokens(s) == 0
  {
    if s != [] {
      if StartsWithCi(s, TOKEN) { StartsWithCiLength(s, TOKEN); }
      ShortNoToken(s[1..]);
    }
  }

  lemma TokenCountsOnce()
    ensures Tokens(TOKEN) == 1
  {
    TokenPrefix(0, "");
    assert TOKEN[0..] + "" == TOKEN[0..] == TOKEN;
    ShortNoToken(TOKEN[1..]);
  }

  /** The token set between two token-free literals. */
  lemma TokenBetween(x: string, y: string)
    requires ':' !in x && ':' !in y && x != [] && y != [] && Foreign(x[|x| - 1]) && Foreign(y[0])
    ensures Tokens(x + TOKEN + y) == 1
  {
    TokenCountsOnce();
    NoColonNoToken(x);
    NoColonNoToken(y);
    TokensJoin(x, TOKEN);
    TokensJoin(x + TOKEN, y);
  }

  lemma DelimiterTokens()
    ensures Tokens(OPEN) == 1 && Tokens(CLOSE) == 1
  {
    TokenBetween("<", " id=\"");
    TokenBetween("</", ">\n");
  }

  /** A quoting literal: no token, foreign at both ends. */
  ghost predicate Quote(q: string) {
    q != [] && Foreign(q[0]) && Foreign(q[|q| - 1]) && Tokens(q) == 0
  }

  lemma LiteralQuote(q: string)
    requires q != [] && ':' !in q && q[0] == '"' && (q[|q| - 1] == '"' || q[|q| - 1] == '\n')
    ensures Quote(q)
  {
    NoColonNoToken(q);
  }

  lemma ClearanceQuote() ensures Quote(CLEARANCE) { LiteralQuote(CLEARANCE); }

  lemma SourceQuote() ensures Quote(SOURCE) { LiteralQuote(SOURCE); }

  lemma BodyQuote() ensures Quote(BODY) { LiteralQuote(BODY); }

  lemma TokensQuoted(a: string, mid: string, q: string)
    requires a != [] && Foreign(a[|a| - 1]) && Quote(q)
    ensures Tokens(a + mid + q) == Tokens(a) + Tokens(mid)
    ensures var r := a + mid + q; Foreign(r[|r| - 1]) && r[|r| - 1] == q[|q| - 1]
  {
    TokensJoin(a, mid);
    TokensJoin(a + mid, q);
  }

  lemma HeaderTokens(c: Chunk)
    ensures Tokens(Header(c)) == 1 + Tokens(c.id) + Tokens(c.clearance)
    ensures var h := Header(c); h != [] && h[|h| - 1] == '\n'
  {
    DelimiterTokens();
    ClearanceQuote();
    SourceQuote();
    BodyQuote();
    NeutralizedIsClean(c.source);
    TokensQuoted(OPEN, c.id, CLEARANCE);
    TokensQuoted(OPEN + c.id + CLEARANCE, c.clearance, SOURCE);
    TokensQuoted(OPEN + c.id + CLEARANCE + c.clearance + SOURCE, Neutralize(c.source), BODY);
  }

  lemma SegmentTokens(c: Chunk)
    ensures Tokens(Segment(c)) == 1 + Tokens(c.id) + Tokens(c.clearance)
    ensures var s := Segment(c); s[|s| - 1] == '\n'
  {
    HeaderTokens(c);
    NeutralizedIsClean(c.content);
    NoColonNoToken("\n");
    TokensQuoted(Header(c), Neutralize(c.content), "\n");
  }

  lemma ChunkTokens(c: Chunk)
    ensures Tokens(Spotlighted(c)) == 2 + Tokens(c.id) + Tokens(c.clearance)
    ensures var s := Spotlighted(c); s != [] && s[|s| - 1] == '\n'
  {
    SegmentTokens(c);
    DelimiterTokens();
    TokensJoin(Segment(c), CLOSE);
  }

  /** Tokens the printer copies verbatim: those of ids and clearance labels. */
  function LabelTokens(cs: seq<Chunk>): nat {
    if cs == [] then 0 else Tokens(cs[0].id) + Tokens(cs[0].clearance) + LabelTokens(cs[1..])
  }

  /** Contents and sources, whatever they hold, add no delimiter: each chunk prints exactly two,
      plus those its own id and clearance label bring along. */
  lemma {:induction false} DelimitersCounted(cs: seq<Chunk>)
    ensures Tokens(SpotlightAll(cs)) == 2 * |cs| + LabelTokens(cs)
  {
    if cs != [] {
      ChunkTokens(cs[0]);
      DelimitersCounted(cs[1..]);
      TokensJoin(Spotlighted(cs[0]), SpotlightAll(cs[1..]));
    }
  }

  // ---- splitting at the closing tag recovers the chunks ------------------------------------------

  /** Where `CLOSE` first occurs, or the length of `s`. */
  function FindClose(s: string): (n: nat)
    ensures n <= |s|
    ensures n < |s| ==> CLOSE <= s[n..]
  {
    if s == [] || CLOSE <= s then 0 else 1 + FindClose(s[1..])
  }

  /** The pieces of `s` between closing tags. */
  function SplitAtClose(s: string): seq<string>
    decreases |s|
  {
    var n := FindClose(s);
    if n == |s| then [s] else [s[..n]] + SplitAtClose(s[n + |CLOSE|..])
  }

  function Segments(cs: seq<Chunk>): seq<string> {
    if cs == [] then [] else [Segment(cs[0])] + Segments(cs[1..])
  }

  /** A closing tag is `</` followed by the token. */
  lemma CloseHoldsToken(s: string)
    requires CLOSE <= s
    ensures |s| > 2 && s[0] == '<' && s[1] == '/' && StartsWithCi(s[2..], TOKEN)
  {
    assert s[2..] == TOKEN + (">\n" + s[|CLOSE|..]);
    TokenPrefix(0, ">\n" + s[|CLOSE|..]);
    assert TOKEN[0..] == TOKEN;
  }

  /** In token-free text that ends a line, no closing tag begins. */
  lemma {:induction false} NoCloseBegins(x: string, t: string)
    requires Tokens(x) == 0 && (x != [] ==> x[|x| - 1] == '\n')
    requires t == [] || Foreign(t[0])
    ensures FindClose(x + t) == |x| + FindClose(t)
    decreases |x|
  {
    hide Tokens, Foreign;
    if x == [] {
      assert x + t == t;
    } else {
      NoCloseHere(x, t);
      NoTokenAfterFirst(x);
      ConsTail(x, t);
      NoCloseBegins(x[1..], t);
    }
  }

  lemma NoTokenAfterFirst(x: string)
    requires x != [] && Tokens(x) == 0
    ensures Tokens(x[1..]) == 0
  {
    TokensDrop(x, 1);
  }

  lemma NoCloseHere(x: string, t: string)
    requires Tokens(x) == 0 && x != [] && x[|x| - 1] == '\n'
    requires t == [] || Foreign(t[0])
    ensures !(CLOSE <= x + t)
  {
    hide *;
    if CLOSE <= x + t {
      CloseHoldsToken(x + t);
      LongerThanTag(x, t);
      TokenInsideSeam(x[2..], t);
      TokensDrop(x, 2);
    }
  }

  lemma LongerThanTag(x: string, t: string)
    requires x != [] && x[|x| - 1] == '\n' && |x + t| > 2 && (x + t)[0] == '<' && (x + t)[1] == '/'
    ensures |x| > 2 && (x + t)[2..] == x[2..] + t
  {
    assert x[0] == '<';
    assert |x| > 1 && x[1] == '/';
  }

  lemma TokenInsideSeam(x: string, t: string)
    requires t == [] || Foreign(t[0])
    requires x != [] && StartsWithCi(x + t, TOKEN)
    ensures Tokens(x) > 0
  {
    if t == [] {
      assert x + t == x;
    } else {
      assert x + t == x + [t[0]] + t[1..];
      MatchStopsAt(x, t[0], t[1..], TOKEN);
    }
  }

  lemma DropMore(x: string, n: nat)
    requires 0 < n <= |x|
    ensures x[1..][n - 1..] == x[n..]
  {
  }

  lemma {:induction false} TokensDrop(x: string, n: nat)
    requires n <= |x|
    ensures Tokens(x[n..]) <= Tokens(x)
  {
    if n > 0 {
      TokensDrop(x[1..], n - 1);
      DropMore(x, n);
    }
  }

  lemma {:induction false} SkipNoAngle(x: string, t: string)
    requires '<' !in x
    ensures FindClose(x + t) == |x| + FindClose(t)
  {
    if x == [] {
      assert x + t == t;
    } else {
      assert (x + t)[0] == x[0] && CLOSE[0] == '<';
      assert (x + t)[1..] == x[1..] + t;
      SkipNoAngle(x[1..], t);
    }
  }

  /** What follows the token in a segment. */
  function AfterToken(c: Chunk): string {
    Segment(c)[1 + |TOKEN|..]
  }

  lemma SegmentShape(c: Chunk)
    ensures Segment(c) == "<" + TOKEN + AfterToken(c)
    ensures AfterToken(c) != [] && AfterToken(c)[0] == ' '
    ensures var x := AfterToken(c); x[|x| - 1] == '\n'
  {
    var s := Segment(c);
    assert OPEN == "<" + TOKEN + " id=\"";
    assert OPEN <= Header(c) <= s;
    assert s[..|OPEN|] == OPEN;
    assert s[1 + |TOKEN|] == OPEN[1 + |TOKEN|] == ' ';
    assert s[..1 + |TOKEN|] == OPEN[..1 + |TOKEN|] == "<" + TOKEN;
    SegmentTokens(c);
  }

  /** The first closing tag after the start of a chunk is that chunk's own. */
  lemma OwnCloseFirst(c: Chunk, rest: string)
    requires Tokens(c.id) == 0 && Tokens(c.clearance) == 0
    ensures FindClose(Segment(c) + (CLOSE + rest)) == |Segment(c)|
  {
    var x, t := AfterToken(c), CLOSE + rest;
    AfterTokenClean(c);
    CloseAtOnce(rest);
    NoCloseBegins(x, t);
    SkipNoAngle(TOKEN, x + t);
    SegmentStart(c, t);
    OpeningIsNotClosing(Segment(c) + t, x + t);
    CloseAtOnce(rest);
  }

  lemma RegroupAll(a: string, b: string, c: string, d: string)
    ensures (a + b + c) + d == a + (b + (c + d))
  {
  }

  lemma SegmentStart(c: Chunk, t: string)
    ensures Segment(c) + t == "<" + (TOKEN + (AfterToken(c) + t))
    ensures |Segment(c)| == 1 + |TOKEN| + |AfterToken(c)|
  {
    hide Segment, AfterToken;
    SegmentShape(c);
    RegroupAll("<", TOKEN, AfterToken(c), t);
  }

  lemma CloseAtOnce(rest: string)
    ensures FindClose(CLOSE + rest) == 0 && Foreign((CLOSE + rest)[0])
  {
    assert CLOSE <= CLOSE + rest;
  }

  lemma AfterTokenClean(c: Chunk)
    requires Tokens(c.id) == 0 && Tokens(c.clearance) == 0
    ensures var x := AfterToken(c); Tokens(x) == 0 && x != [] && x[|x| - 1] == '\n'
  {
    SegmentShape(c);
    SegmentTokens(c);
    OpeningTokens(AfterToken(c));
  }

  lemma OpeningTokens(x: string)
    requires x != [] && Foreign(x[0])
    ensures Tokens("<" + TOKEN + x) == 1 + Tokens(x)
  {
    Associates("<", TOKEN, x);
    TokensJoin("<", TOKEN + x);
    TokensJoin(TOKEN, x);
    TokenCountsOnce();
    NoColonNoToken("<");
  }

  lemma OpeningIsNotClosing(s: string, t: string)
    requires s == "<" + (TOKEN + t)
    ensures FindClose(s) == 1 + FindClose(TOKEN + t)
  {
    assert s[1] == 'a' && CLOSE[1] == '/';
    assert s[1..] == TOKEN + t;
  }

  /** Splitting the context at the closing tag gives back one piece per chunk, in order: its header
      followed by its neutralised content. */
  lemma {:induction false} SplitRecoversSegments(cs: seq<Chunk>)
    requires LabelTokens(cs) == 0
    ensures SplitAtClose(SpotlightAll(cs)) == Segments(cs) + [""]
  {
    if cs != [] {
      SplitOffFirst(cs[0], SpotlightAll(cs[1..]));
      SplitRecoversSegments(cs[1..]);
      Associates([Segment(cs[0])], Segments(cs[1..]), [""]);
    }
  }

  // ---- reading the contents back ------------------------------------------------------------------

  /** Where `w` first occurs, or the length. */
  function Find(s: string, w: string): (n: nat)
    ensures n <= |s|
  {
    if s == [] || w <= s then 0 else 1 + Find(s[1..], w)
  }

  /** What a piece says after the first end of a header, without its final newline. */
  function ContentOf(piece: string): string {
    var k := Find(piece, BODY) + |BODY|;
    if k < |piece| then piece[k..|piece| - 1] else ""
  }

  /** The header of a chunk up to the mark that ends it. */
  function Labels(c: Chunk): string { OPEN + c.id + CLEARANCE + c.clearance + SOURCE + Neutralize(c.source) }

  predicate Occurs(s: string, w: string) { s != [] && (w <= s || Occurs(s[1..], w)) }

  /** The mark cannot begin inside `x` and end in the mark that follows it. */
  lemma NoStraddle(x: string, rest: string)
    requires x != []
    ensures BODY <= x + (BODY + rest) <==> BODY <= x
  {
    var s := x + (BODY + rest);
    if |x| <= 2 {
      assert s[|x|] == (BODY + rest)[0] == '"' && BODY[|x|] != '"';
    } else {
      assert x[..3] == s[..3];
    }
  }

  lemma {:induction false} FindMark(x: string, rest: string)
    ensures Find(x + (BODY + rest), BODY) == |x| <==> !Occurs(x, BODY)
    ensures Find(x + (BODY + rest), BODY) <= |x|
    decreases |x|
  {
    var s := x + (BODY + rest);
    if x == [] {
      Unit(BODY + rest);
      assert BODY <= BODY + rest;
    } else {
      ConsTail(x, BODY + rest);
      FindMark(x[1..], rest);
      NoStraddle(x, rest);
    }
  }

  lemma CutOut(x: string, mark: string, content: string)
    ensures var s := x + (mark + (content + "\n")); s[|x| + |mark|..|s| - 1] == content
  {
  }

  lemma SegmentParts(c: Chunk)
    ensures Segment(c) == Labels(c) + (BODY + (Neutralize(c.content) + "\n"))
  {
    Associates(Labels(c), BODY, Neutralize(c.content) + "\n");
    Associates(Labels(c) + BODY, Neutralize(c.content), "\n");
  }

  lemma ReadBack(x: string, content: string)
    ensures ContentOf(x + (BODY + (content + "\n"))) == content <==> !Occurs(x, BODY)
  {
    var s := x + (BODY + (content + "\n"));
    var k := Find(s, BODY);
    FindMark(x, content + "\n");
    CutOut(x, BODY, content);
    assert |s| == |x| + |BODY| + |content| + 1 && k + |BODY| < |s|;
    if k < |x| {
      assert |ContentOf(s)| == |s| - 1 - (k + |BODY|);
    }
  }

  /** The neutralised content can be read off a chunk's piece exactly when the mark that ends the header
      does not already occur among the labels and the source. */
  lemma ContentReadBack(c: Chunk)
    ensures ContentOf(Segment(c)) == Neutralize(c.content) <==> !Occurs(Labels(c), BODY)
  {
    SegmentParts(c);
    ReadBack(Labels(c), Neutralize(c.content));
  }

  function Contents(pieces: seq<string>): seq<string> {
    if pieces == [] then [] else [ContentOf(pieces[0])] + Contents(pieces[1..])
  }

  function NeutralizedContents(cs: seq<Chunk>): seq<string> {
    if cs == [] then [] else [Neutralize(cs[0].content)] + NeutralizedContents(cs[1..])
  }

  predicate ClearHeaders(cs: seq<Chunk>) { cs != [] ==> !Occurs(Labels(cs[0]), BODY) && ClearHeaders(cs[1..]) }

  lemma {:induction false} SegmentsReadBack(cs: seq<Chunk>)
    ensures Contents(Segments(cs)) == NeutralizedContents(cs) <==> ClearHeaders(cs)
  {
    if cs != [] {
      SegmentsReadBack(cs[1..]);
      ContentReadBack(cs[0]);
      HeadsAndTails(Segments(cs), [Segment(cs[0])] + Segments(cs[1..]), cs);
    }
  }

  lemma HeadsAndTails(pieces: seq<string>, same: seq<string>, cs: seq<Chunk>)
    requires cs != [] && pieces == same == [Segment(cs[0])] + Segments(cs[1..])
    ensures Contents(pieces) == [ContentOf(Segment(cs[0]))] + Contents(Segments(cs[1..]))
    ensures Contents(pieces) == NeutralizedContents(cs)
       <==> ContentOf(Segment(cs[0])) == Neutralize(cs[0].content)
            && Contents(Segments(cs[1..])) == NeutralizedContents(cs[1..])
  {
    assert pieces[1..] == Segments(cs[1..]) && pieces[0] == Segment(cs[0]);
    var a, b := Contents(pieces), NeutralizedContents(cs);
    assert a[0] == ContentOf(Segment(cs[0])) && a[1..] == Contents(Segments(cs[1..]));
    assert b[0] == Neutralize(cs[0].content) && b[1..] == NeutralizedContents(cs[1..]);
  }

  /** From the printed context alone the neutralised contents can be read back, in order, exactly when no
      header holds the mark that ends a header. */
  lemma ContextReadBack(cs: seq<Chunk>)
    requires LabelTokens(cs) == 0
    ensures var pieces := SplitAtClose(SpotlightAll(cs));
            pieces != [] && (Contents(pieces[..|pieces| - 1]) == NeutralizedContents(cs) <==> ClearHeaders(cs))
  {
    SplitRecoversSegments(cs);
    assert (Segments(cs) + [""])[..|Segments(cs)|] == Segments(cs);
    SegmentsReadBack(cs);
  }

  lemma SplitOffFirst(c: Chunk, rest: string)
    requires Tokens(c.id) == 0 && Tokens(c.clearance) == 0
    ensures SplitAtClose(Spotlighted(c) + rest) == [Segment(c)] + SplitAtClose(rest)
  {
    OwnCloseFirst(c, rest);
    SplitFirst(Segment(c), rest);
    Associates(Segment(c), CLOSE, rest);
  }

  lemma CutAfter(x: string, mark: string, rest: string)
    ensures var s := x + (mark + rest); s[..|x|] == x && s[|x| + |mark|..] == rest
  {
  }

  lemma SplitFirst(x: string, rest: string)
    requires FindClose(x + (CLOSE + rest)) == |x|
    ensures SplitAtClose(x + (CLOSE + rest)) == [x] + SplitAtClose(rest)
  {
    CutAfter(x, CLOSE, rest);
  }

  /** Breaking the token touches exactly the texts that hold it. */
  lemma {:induction false} BreakTokenOnlyIfNeeded(s: string)
    ensures BreakToken(s) == s <==> Tokens(s) == 0
  {
    if s != [] {
      if StartsWithCi(s, TOKEN) {
        BrokenIsClean(s);
        assert Tokens(s) > 0;
      } else {
        BreakTokenOnlyIfNeeded(s[1..]);
        assert BreakToken(s)[1..] == BreakToken(s[1..]);
        assert BreakToken(s[1..]) == s[1..] ==> BreakToken(s) == [s[0]] + s[1..];
      }
    }
  }

  // ---- quarantine ------------------------------------------------------------------------------

  datatype Quarantined = Quarantined(chunk: Chunk, matched: seq<string>)

  /** Replace every occurrence of the non-empty literal `w` by a blank. */
  function Blanked(s: string, w: string): string
    requires w != []
  {
    if s == [] then []
    else if w <= s then " " + Blanked(s[|w|..], w)
    else [s[0]] + Blanked(s[1..], w)
  }

  /** Collapse runs of white space to one blank and drop those at the ends. */
  function Collapse(s: string): string {
    var rest := s[LeadingWs(s)..];
    if rest == [] then [] else CollapseFrom(rest)
  }

  function CollapseFrom(s: string): string {
    if s == [] then []
    else if IsWs(s[0]) then
      var rest := s[LeadingWs(s)..];
      if rest == [] then [] else " " + CollapseFrom(rest)
    else [s[0]] + CollapseFrom(s[1..])
  }

  function Normalize(content: string): string { Collapse(LowerAll(Blanked(Blanked(content, "<!--"), "-->"))) }

  predicate Contains(s: string, w: string) {
    w <= s || (s != [] && Contains(s[1..], w))
  }

  /** The configured phrases found in the normalised content, in configuration order. */
  function MatchedPhrases(phrases: seq<string>, normalized: string): seq<string> {
    if phrases == [] then []
    else (if Contains(normalized, phrases[0]) then [phrases[0]] else []) + MatchedPhrases(phrases[1..], normalized)
  }

  lemma {:induction false} MatchedExactly(phrases: seq<string>, normalized: string)
    ensures forall p :: p in MatchedPhrases(phrases, normalized) <==> p in phrases && Contains(normalized, p)
  {
    if phrases != [] {
      MatchedExactly(phrases[1..], normalized);
      assert forall p :: p in phrases <==> p == phrases[0] || p in phrases[1..];
    }
  }

  function Safe(cs: seq<Chunk>, verdict: string -> seq<string>): seq<Chunk> {
    if cs == [] then []
    else (if verdict(cs[0].content) == [] then [cs[0]] else []) + Safe(cs[1..], verdict)
  }

  function Flagged(cs: seq<Chunk>, verdict: string -> seq<string>): seq<Quarantined> {
    if cs == [] then []
    else (if verdict(cs[0].content) == [] then [] else [Quarantined(cs[0], verdict(cs[0].content))])
         + Flagged(cs[1..], verdict)
  }

  /** The two lists hold every chunk exactly once. */
  lemma {:induction false} PartitionIsExact(cs: seq<Chunk>, verdict: string -> seq<string>)
    ensures multiset(Safe(cs, verdict)) + multiset(Chunks(Flagged(cs, verdict))) == multiset(cs)
  {
    if cs != [] {
      PartitionIsExact(cs[1..], verdict);
      var safe, flagged := Safe(cs[1..], verdict), Flagged(cs[1..], verdict);
      assert cs == [cs[0]] + cs[1..];
      Unit(safe);
      Unit(flagged);
      OneMore(cs[0], cs[1..], safe, flagged, verdict(cs[0].content));
    }
  }

  lemma OneMore(c: Chunk, cs: seq<Chunk>, safe: seq<Chunk>, flagged: seq<Quarantined>, matched: seq<string>)
    requires multiset(safe) + multiset(Chunks(flagged)) == multiset(cs)
    ensures multiset([c] + safe) + multiset(Chunks(flagged)) == multiset([c] + cs)
    ensures multiset(safe) + multiset(Chunks([Quarantined(c, matched)] + flagged)) == multiset([c] + cs)
  {
    assert ([Quarantined(c, matched)] + flagged)[1..] == flagged;
    assert Chunks([Quarantined(c, matched)] + flagged) == [c] + Chunks(flagged);
  }

  /** The verdict tells them apart. */
  lemma {:induction false} PartitionByVerdict(cs: seq<Chunk>, verdict: string -> seq<string>)
    ensures forall i :: 0 <= i < |Safe(cs, verdict)| ==> verdict(Safe(cs, verdict)[i].content) == []
    ensures forall i :: 0 <= i < |Flagged(cs, verdict)| ==>
              var q := Flagged(cs, verdict)[i]; q.matched == verdict(q.chunk.content) && q.matched != []
  {
    if cs != [] {
      PartitionByVerdict(cs[1..], verdict);
    }
  }

  /** The partition loop: one pass, each chunk appended to one of the two lists. */
  method Partition(chunks: seq<Chunk>, verdict: string -> seq<string>)
    returns (safe: seq<Chunk>, quarantined: seq<Quarantined>)
    ensures safe == Safe(chunks, verdict) && quarantined == Flagged(chunks, verdict)
    ensures multiset(safe) + multiset(Chunks(quarantined)) == multiset(chunks)
    ensures forall i :: 0 <= i < |safe| ==> verdict(safe[i].content) == []
    ensures forall i :: 0 <= i < |quarantined| ==>
              var q := quarantined[i]; q.matched == verdict(q.chunk.content) && q.matched != []
  {
    safe, quarantined := [], [];
    var rest := chunks;
    while rest != []
      invariant safe + Safe(rest, verdict) == Safe(chunks, verdict)
      invariant quarantined + Flagged(rest, verdict) == Flagged(chunks, verdict)
      decreases |rest|
    {
      var matched := verdict(rest[0].content);
      if matched != [] {
        quarantined := quarantined + [Quarantined(rest[0], matched)];
      } else {
        safe := safe + [rest[0]];
      }
      rest := rest[1..];
    }
    PartitionDone(chunks, verdict, safe, quarantined);
  }

  lemma PartitionDone(chunks: seq<Chunk>, verdict: string -> seq<string>, safe: seq<Chunk>,
                      quarantined: seq<Quarantined>)
    requires safe == Safe(chunks, verdict) && quarantined == Flagged(chunks, verdict)
    ensures multiset(safe) + multiset(Chunks(quarantined)) == multiset(chunks)
    ensures forall i :: 0 <= i < |safe| ==> verdict(safe[i].content) == []
    ensures forall i :: 0 <= i < |quarantined| ==>
              var q := quarantined[i]; q.matched == verdict(q.chunk.content) && q.matched != []
  {
    hide Safe, Flagged, Chunks;
    PartitionIsExact(chunks, verdict);
    PartitionByVerdict(chunks, verdict);
  }

  method FindPhrases(phrases: seq<string>, normalized: string) returns (matched: seq<string>)
    ensures matched == MatchedPhrases(phrases, normalized)
  {
    matched := [];
    var rest := phrases;
    while rest != []
      invariant matched + MatchedPhrases(rest, normalized) == MatchedPhrases(phrases, normalized)
      decreases |rest|
    {
      var later := MatchedPhrases(rest[1..], normalized);
      if Contains(normalized, rest[0]) {
        Associates(matched, [rest[0]], later);
        matched := matched + [rest[0]];
      } else {
        Unit(later);
      }
      rest := rest[1..];
    }
  }

  class InjectionGuardrail {
    const enabled: bool
    const phrases: seq<string>

    constructor (enabled: bool, phrases: seq<string>)
      ensures this.enabled == enabled
      ensures |this.phrases| == |phrases|
      ensures forall i :: 0 <= i < |phrases| ==> this.phrases[i] == LowerAll(phrases[i])
    {
      this.enabled := enabled;
      this.phrases := seq(|phrases|, i requires 0 <= i < |phrases| => LowerAll(phrases[i]));
    }

    /** The phrases a chunk is flagged for. */
    function Verdict(content: string): seq<string> {
      if enabled then MatchedPhrases(phrases, Normalize(content)) else []
    }

    method Scan(content: string) returns (matched: seq<string>)
      ensures matched == Verdict(content)
      ensures forall p :: p in matched <==> enabled && p in phrases && Contains(Normalize(content), p)
    {
      MatchedExactly(phrases, Normalize(content));
      matched := [];
      if !enabled {
        return;
      }
      matched := FindPhrases(phrases, Normalize(content));
    }

    /** Every chunk goes to exactly one of the two lists, each in the order of arrival, and only
        the safe ones are printed. */
    method Apply(chunks: seq<Chunk>) returns (safe: seq<Chunk>, quarantined: seq<Quarantined>, context: string)
      ensures safe == Safe(chunks, Verdict) && quarantined == Flagged(chunks, Verdict)
      ensures context == SpotlightAll(safe)
      ensures multiset(safe) + multiset(Chunks(quarantined)) == multiset(chunks)
      ensures forall i :: 0 <= i < |safe| ==> Verdict(safe[i].content) == []
      ensures forall i :: 0 <= i < |quarantined| ==>
                var q := quarantined[i]; q.matched == Verdict(q.chunk.content) && q.matched != []
    {
      safe, quarantined := Partition(chunks, Verdict);
      context := Spotlight(safe);
    }
  }

  function Chunks(qs: seq<Quarantined>): seq<Chunk> {
    if qs == [] then [] else [qs[0].chunk] + Chunks(qs[1..])
  }
}
