/** What greedy packing comes to: blocks of units that fit together and could not take one unit more, and
    oversized units laid out in the same way from their own parts. */
module Layout {
  import opened Sequences
  import opened Text
  import opened Words
  import opened Splitting
  import opened Chunker

  datatype Piece = Block(units: seq<string>) | Split(unit: string, pieces: seq<Piece>)

  /** The units with a blank line between neighbours. */
  function GapJoin(units: seq<string>): string
    requires units != []
  {
    if |units| == 1 then units[0] else GapJoin(units[..|units| - 1]) + "\n\n" + units[|units| - 1]
  }

  /** The units fit one by one, and so do they together, from the first to any of them. */
  predicate FitTogether(c: Chunker, units: seq<string>) {
    && units != []
    && (forall i :: 0 <= i < |units| ==> c.count(units[i]) <= c.chunkSize)
    && (forall k :: 0 < k <= |units| ==> c.count(GapJoin(units[..k])) <= c.chunkSize)
  }

  /** The pieces are the greedy layout of the units: a block takes in the next unit unless that is oversized or
      the joined text would be, and an oversized unit is laid out from its sentences or words. */
  predicate Lays(c: Chunker, pieces: seq<Piece>, units: seq<string>)
    decreases pieces
  {
    if pieces == [] then units == []
    else
      match pieces[0]
      case Block(b) =>
        && FitTogether(c, b) && b <= units
        && (|b| < |units| ==>
              c.count(units[|b|]) > c.chunkSize || c.count(GapJoin(b + [units[|b|]])) > c.chunkSize)
        && Lays(c, pieces[1..], units[|b|..])
      case Split(u, inner) =>
        && units != [] && units[0] == u && c.count(u) > c.chunkSize
        && Lays(c, inner, SplitSmaller(u))
        && Lays(c, pieces[1..], units[1..])
  }

  /** The chunks of a layout, in order. */
  function Texts(pieces: seq<Piece>): seq<string>
    decreases pieces
  {
    if pieces == [] then []
    else
      (match pieces[0]
       case Block(b) => if b == [] then [] else [GapJoin(b)]
       case Split(_, inner) => Texts(inner))
      + Texts(pieces[1..])
  }

  // ---- packing produces it ------------------------------------------------------------------------------

  lemma SmallerIsTrimmed(unit: string)
    requires Trimmed(unit)
    ensures AllTrimmed(SplitSmaller(unit))
  {
    TrimmedSentences(unit);
    WordsAreWords(unit);
    forall i | 0 <= i < |WordsOf(unit)| ensures Trimmed(WordsOf(unit)[i]) {
      WordFillsText(WordsOf(unit)[i]);
      NoWsInWord(WordsOf(unit)[i]);
    }
  }

  lemma JoinedNotEmpty(units: seq<string>)
    requires units != [] && AllTrimmed(units)
    ensures GapJoin(units) != []
  {
  }

  lemma OneMoreFits(c: Chunker, block: seq<string>, unit: string)
    requires c.count(unit) <= c.chunkSize
    requires block == [] || (FitTogether(c, block) && c.count(GapJoin(block + [unit])) <= c.chunkSize)
    ensures FitTogether(c, block + [unit])
  {
    var more := block + [unit];
    forall k | 0 < k <= |more| ensures c.count(GapJoin(more[..k])) <= c.chunkSize {
      if k <= |block| { assert more[..k] == block[..k]; } else { assert more[..k] == more; }
    }
  }

  lemma JoinStep(block: seq<string>, unit: string)
    requires block != []
    ensures GapJoin(block + [unit]) == GapJoin(block) + "\n\n" + unit
  {
    assert (block + [unit])[..|block|] == block;
  }

  lemma BlockFirst(c: Chunker, block: seq<string>, units: seq<string>, outer: seq<Piece>)
    requires FitTogether(c, block) && Lays(c, outer, units)
    requires units != [] ==>
               c.count(units[0]) > c.chunkSize || c.count(GapJoin(block + [units[0]])) > c.chunkSize
    ensures Lays(c, [Block(block)] + outer, block + units)
    ensures Texts([Block(block)] + outer) == [GapJoin(block)] + Texts(outer)
  {
    assert ([Block(block)] + outer)[1..] == outer && (block + units)[|block|..] == units;
  }

  lemma SplitFirst(c: Chunker, unit: string, rest: seq<string>, inner: seq<Piece>, outer: seq<Piece>)
    requires c.count(unit) > c.chunkSize && Lays(c, inner, SplitSmaller(unit)) && Lays(c, outer, rest)
    ensures Lays(c, [Split(unit, inner)] + outer, [unit] + rest)
    ensures Texts([Split(unit, inner)] + outer) == Texts(inner) + Texts(outer)
  {
    assert ([Split(unit, inner)] + outer)[1..] == outer && ([unit] + rest)[1..] == rest;
  }

  /** What packing yields after an open block is the layout of that block and the units to come. */
  lemma {:induction false} PackingLays(c: Chunker, block: seq<string>, units: seq<string>, current: string, depth: nat)
    returns (pieces: seq<Piece>)
    requires c.PackWithin(units, current, depth).Some? && AllTrimmed(units) && AllTrimmed(block)
    requires if block == [] then current == [] else FitTogether(c, block) && current == GapJoin(block)
    ensures Lays(c, pieces, block + units) && Texts(pieces) == c.PackWithin(units, current, depth).value
    decreases depth, |units|
  {
    hide Lays, Texts, FitTogether, SplitSmaller;
    if block != [] { JoinedNotEmpty(block); }
    if units == [] {
      pieces := Closed(c, block);
      return;
    }
    var unit, rest := units[0], units[1..];
    assert units == [unit] + rest;
    if c.count(unit) > c.chunkSize {
      SmallerIsTrimmed(unit);
      var inner := PackingLays(c, [], SplitSmaller(unit), [], depth - 1);
      var outer := PackingLays(c, [], rest, [], depth);
      Unit(SplitSmaller(unit));
      Unit(rest);
      SplitFirst(c, unit, rest, inner, outer);
      pieces := [Split(unit, inner)] + outer;
      if block != [] {
        BlockFirst(c, block, units, pieces);
        pieces := [Block(block)] + pieces;
        Associates([GapJoin(block)], Texts(inner), Texts(outer));
      } else {
        Unit(units);
        Unit(Texts(inner));
      }
    } else if block != [] && c.count(Join(current, unit)) > c.chunkSize {
      JoinStep(block, unit);
      OneMoreFits(c, [], unit);
      Unit([unit]);
      var outer := PackingLays(c, [unit], rest, unit, depth);
      BlockFirst(c, block, units, outer);
      pieces := [Block(block)] + outer;
    } else {
      if block != [] { JoinStep(block, unit); } else { Unit([unit]); }
      OneMoreFits(c, block, unit);
      pieces := PackingLays(c, block + [unit], rest, Join(current, unit), depth);
      Associates(block, [unit], rest);
    }
  }

  lemma Closed(c: Chunker, block: seq<string>) returns (pieces: seq<Piece>)
    requires block == [] || FitTogether(c, block)
    ensures Lays(c, pieces, block + []) && Texts(pieces) == if block == [] then [] else [GapJoin(block)]
  {
    Unit(block);
    if block == [] {
      pieces := [];
    } else {
      BlockFirst(c, block, [], []);
      pieces := [Block(block)] + [];
      Unit([GapJoin(block)]);
    }
  }

  // ---- and there is only one ------------------------------------------------------------------------------

  lemma BlocksAgree(c: Chunker, b: seq<string>, d: seq<string>, units: seq<string>)
    requires FitTogether(c, b) && FitTogether(c, d) && b <= units && d <= units
    requires |b| < |units| ==> c.count(units[|b|]) > c.chunkSize || c.count(GapJoin(b + [units[|b|]])) > c.chunkSize
    ensures |d| <= |b|
  {
    if |b| < |d| { NextOfLonger(b, d, units); }
  }

  lemma NextOfLonger(b: seq<string>, d: seq<string>, units: seq<string>)
    requires b <= units && d <= units && |b| < |d|
    ensures d[|b|] == units[|b|] && d[..|b| + 1] == b + [units[|b|]]
  {
  }

  lemma FirstPiece(c: Chunker, p: seq<Piece>, units: seq<string>)
    requires Lays(c, p, units) && p != []
    ensures units != [] && (p[0].Block? <==> c.count(units[0]) <= c.chunkSize)
  {
    if p[0].Block? { assert p[0].units[0] == units[0]; }
  }

  /** The greedy layout is determined by the units. */
  lemma {:induction false} LaysOnce(c: Chunker, p: seq<Piece>, q: seq<Piece>, units: seq<string>)
    requires Lays(c, p, units) && Lays(c, q, units)
    ensures p == q
    decreases p
  {
    if p != [] && q != [] {
      FirstPiece(c, p, units);
      FirstPiece(c, q, units);
      if p[0].Block? {
        var b, d := p[0].units, q[0].units;
        BlocksAgree(c, b, d, units);
        BlocksAgree(c, d, b, units);
        assert b == d;
        LaysOnce(c, p[1..], q[1..], units[|b|..]);
      } else {
        LaysOnce(c, p[0].pieces, q[0].pieces, SplitSmaller(units[0]));
        LaysOnce(c, p[1..], q[1..], units[1..]);
      }
      assert p == [p[0]] + p[1..] && q == [q[0]] + q[1..];
    }
  }

  /** Packing units yields exactly the chunks of their greedy layout. */
  lemma PackedIsTheLayout(c: Chunker, units: seq<string>, depth: nat, chunks: seq<string>)
    requires AllTrimmed(units) && c.PackWithin(units, [], depth).Some?
    ensures c.PackWithin(units, [], depth) == Some(chunks)
       <==> exists pieces :: Lays(c, pieces, units) && Texts(pieces) == chunks
  {
    hide Lays;
    var pieces := PackingLays(c, [], units, [], depth);
    Unit(units);
    forall other | Lays(c, other, units) ensures other == pieces {
      LaysOnce(c, pieces, other, units);
    }
  }

  /** The packed chunks of a document with words are those of the greedy layout of its paragraphs; a document
      without words that fits yields none. */
  lemma DocumentIsLaidOut(c: Chunker, content: string, chunks: seq<string>)
    requires c.AllPackable(SplitParagraphs(content))
    ensures WordsOf(content) != [] ==>
              (c.Packed(content) == chunks
               <==> exists pieces :: Lays(c, pieces, SplitParagraphs(content)) && Texts(pieces) == chunks)
    ensures WordsOf(content) == [] ==> c.Packed(content) == []
  {
    c.TerminationExact(content);
    ParagraphsKeepWords(content);
    if WordsOf(content) != [] {
      PackedIsTheLayout(c, SplitParagraphs(content), 2, chunks);
    } else {
      c.PackedDocument(content);
      if c.Packed(content) != [] {
        assert c.PackWithin([""], [], 2) == Some(c.Packed(content));
        BlankIsNotPacked(c);
      }
    }
  }

  lemma BlankIsNotPacked(c: Chunker)
    requires c.PackWithin([""], [], 2).Some?
    ensures c.PackWithin([""], [], 2).value == []
  {
    EmptySplitsToItself();
    if c.count("") > c.chunkSize {
      c.UnsplittableMustFit("", 2);
    }
    assert [""][1..] == [];
    assert c.PackWithin([], "", 2) == Some([]);
  }

  /** A document whose paragraphs all stay within the window together is one chunk, with overlap or without. */
  lemma SmallDocumentIsOneChunk(c: Chunker, content: string)
    requires WordsOf(content) != [] && FitTogether(c, SplitParagraphs(content))
    ensures c.AllPackable(SplitParagraphs(content))
    ensures c.Packed(content) == [GapJoin(SplitParagraphs(content))]
    ensures c.WithOverlap(c.Packed(content)) == c.Packed(content)
  {
    var units := SplitParagraphs(content);
    FittingArePackable(c, units);
    var pieces := Closed(c, units);
    Unit(units);
    hide *;
    assert Lays(c, pieces, units) && Texts(pieces) == [GapJoin(units)];
    DocumentIsLaidOut(c, content, [GapJoin(units)]);
    c.OverlapEnds(c.Packed(content));
  }

  lemma FittingArePackable(c: Chunker, units: seq<string>)
    requires FitTogether(c, units)
    ensures c.AllPackable(units)
  {
    hide SplitSentences, SplitWords;
    assert forall i :: 0 <= i < |units| ==> c.Fits(units[i]);
  }

  // ---- the tail of a chunk -----------------------------------------------------------------------------------

  lemma {:induction false} TrailTakes(c: Chunker, words: seq<string>, taken: seq<string>, tokens: int) returns (k: nat)
    requires words + taken != [] && forall i :: 0 <= i < |words| ==> words[i] != []
    requires taken == [] || Spaced(taken) != []
    ensures var all := words + taken;
            var tail := c.TrailFrom(words, if taken == [] then [] else Spaced(taken), tokens);
            && k <= |words| && k < |all| && tail == Spaced(all[k..])
            && (k > 0 ==> c.count(words[k - 1] + " " + tail) > tokens)
            && (k < |words| && k < |all| - 1 ==> c.count(tail) <= tokens)
    decreases |words|
  {
    var all := words + taken;
    if words == [] {
      k := 0;
      assert all[0..] == taken;
      return;
    }
    var last := |words| - 1;
    var more := [words[last]] + taken;
    assert words[..last] + more == all;
    if taken != [] {
      assert more[1..] == taken;
      assert Spaced(more) == words[last] + " " + Spaced(taken);
      if c.count(Spaced(more)) > tokens {
        k := |words|;
        assert all[k..] == taken;
        return;
      }
    }
    k := TrailTakes(c, words[..last], more, tokens);
    if k == last { assert all[k..] == more; }
  }

  /** The tail of a text is its last words with single spaces: the last one, and before it as many as stay
      within the tokens, up to the first that does not. */
  lemma TailTakesMost(c: Chunker, text: string, tokens: int) returns (k: nat)
    requires Trimmed(text)
    ensures var words := WordsOf(text);
            var tail := c.TrailingTokens(text, tokens);
            && k < |words| && tail == Spaced(words[k..])
            && (k < |words| - 1 ==> c.count(tail) <= tokens)
            && (k > 0 ==> c.count(words[k - 1] + " " + tail) > tokens)
  {
    var words := WordsOf(text);
    WordsAreWords(text);
    Unit(words);
    k := TrailTakes(c, words, [], tokens);
  }

  /** The default estimate is a quarter of the length, rounded up, and at least one. */
  lemma EstimateExactly(s: string)
    ensures EstimateTokens(s) >= 1 && |s| <= 4 * EstimateTokens(s)
    ensures EstimateTokens(s) > 1 ==> 4 * (EstimateTokens(s) - 1) < |s|
  {
  }
}
