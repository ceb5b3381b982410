/** The recursive chunker: greedy packing into windows, then overlap between neighbours. */
module Chunker {
  import opened Sequences
  import opened Text
  import opened Words

  const GAP := "\n\n"

  function Join(current: string, unit: string): string {
    if current == [] then unit else current + GAP + unit
  }

  /** `flush`: an empty buffer yields no chunk. */
  function Flushed(current: string): seq<string> { if current == [] then [] else [current] }

  datatype Chunk = Chunk(index: nat, text: string)

  datatype Chunker = Chunker(chunkSize: int, overlap: int, count: string -> int) {

    predicate Fits(s: string) { count(s) <= chunkSize }

    // ---- packing, with the recursion cut off at a given depth -----------------------------------

    /** What packing `units` after `current` yields when at most `depth` nested splits are allowed;
        `None` when the recursion goes deeper. */
    function PackWithin(units: seq<string>, current: string, depth: nat): Option<seq<string>>
      decreases depth, |units|
    {
      if units == [] then Some(Flushed(current))
      else
        var unit, rest := units[0], units[1..];
        if !Fits(unit) then
          if depth == 0 then None
          else
            match PackWithin(SplitSmaller(unit), [], depth - 1)
            case None => None
            case Some(inner) =>
              match PackWithin(rest, [], depth)
              case None => None
              case Some(outer) => Some(Flushed(current) + inner + outer)
        else if !Fits(Join(current, unit)) && current != [] then
          match PackWithin(rest, unit, depth)
          case None => None
          case Some(outer) => Some([current] + outer)
        else PackWithin(rest, Join(current, unit), depth)
    }

    method Flush(out: seq<string>, current: string) returns (r: seq<string>)
      ensures r == out + Flushed(current)
    {
      r := out;
      if current != [] {
        r := r + [current];
      }
    }

    /** The recursion of `pack`; `depth` only bounds it. */
    method Pack(units: seq<string>, ghost depth: nat) returns (out: seq<string>)
      requires PackWithin(units, [], depth).Some?
      ensures Some(out) == PackWithin(units, [], depth)
      decreases depth
    {
      out := [];
      var current := "";
      var rest := units;
      ghost var whole := PackWithin(units, [], depth).value;
      while rest != []
        invariant PackWithin(rest, current, depth).Some?
        invariant out + PackWithin(rest, current, depth).value == whole
        decreases |rest|
      {
        var unit := rest[0];
        rest := rest[1..];
        if count(unit) > chunkSize {
          ghost var before, outer := out, PackWithin(rest, [], depth).value;
          out := Flush(out, current);
          var inner := Pack(SplitSmaller(unit), depth - 1);
          out := out + inner;
          FourParts(before, Flushed(current), inner, outer);
          current := "";
        } else {
          var candidate := Join(current, unit);
          if count(candidate) > chunkSize && current != [] {
            Associates(out, [current], PackWithin(rest, unit, depth).value);
            out := Flush(out, current);
            current := unit;
          } else {
            current := candidate;
          }
        }
      }
      out := Flush(out, current);
    }

    // ---- when the recursion ends ----------------------------------------------------------------

    /** Some bound on the nesting suffices. */
    ghost predicate Terminates(units: seq<string>) {
      exists depth: nat :: PackWithin(units, [], depth).Some?
    }

    predicate AllFit(parts: seq<string>) { forall i :: 0 <= i < |parts| ==> Fits(parts[i]) }

    /** The unit fits, or each of its sentences fits or falls apart into words that fit. */
    predicate Packable(unit: string) {
      || Fits(unit)
      || (|SplitSentences(unit)| > 1 && forall i :: 0 <= i < |SplitSentences(unit)| ==>
            (Fits(SplitSentences(unit)[i]) || AllFit(SplitWords(SplitSentences(unit)[i]))))
      || (|SplitSentences(unit)| <= 1 && AllFit(SplitWords(unit)))
    }

    lemma {:induction false} FittingUnitsPack(units: seq<string>, current: string, depth: nat)
      requires AllFit(units)
      ensures PackWithin(units, current, depth).Some?
      decreases |units|
    {
      if units != [] {
        var unit, rest := units[0], units[1..];
        if !Fits(Join(current, unit)) && current != [] {
          FittingUnitsPack(rest, unit, depth);
        } else {
          FittingUnitsPack(rest, Join(current, unit), depth);
        }
      }
    }

    /** `parts` packs once each part fits or is itself packed one level down. */
    lemma {:induction false} PackLifts(units: seq<string>, current: string, depth: nat)
      requires forall i :: 0 <= i < |units| ==>
                 Fits(units[i]) || (depth > 0 && PackWithin(SplitSmaller(units[i]), [], depth - 1).Some?)
      ensures PackWithin(units, current, depth).Some?
      decreases |units|
    {
      if units != [] {
        var unit, rest := units[0], units[1..];
        PackLifts(rest, [], depth);
        PackLifts(rest, unit, depth);
        PackLifts(rest, Join(current, unit), depth);
      }
    }

    lemma {:induction false} PackNeedsParts(units: seq<string>, current: string, depth: nat)
      requires PackWithin(units, current, depth).Some?
      ensures forall i :: 0 <= i < |units| ==>
                Fits(units[i]) || (depth > 0 && PackWithin(SplitSmaller(units[i]), [], depth - 1).Some?)
      decreases |units|
    {
      if units != [] {
        var unit, rest := units[0], units[1..];
        if !Fits(unit) {
          PackNeedsParts(rest, [], depth);
        } else if !Fits(Join(current, unit)) && current != [] {
          PackNeedsParts(rest, unit, depth);
        } else {
          PackNeedsParts(rest, Join(current, unit), depth);
        }
      }
    }

    /** A piece that splits into itself alone is split for ever unless it fits. */
    lemma {:induction false} UnsplittableMustFit(s: string, depth: nat)
      requires SplitSmaller(s) == [s] && PackWithin([s], [], depth).Some?
      ensures Fits(s)
      decreases depth
    {
      PackNeedsParts([s], [], depth);
      assert [s][0] == s;
      if !Fits(s) {
        UnsplittableMustFit(s, depth - 1);
      }
    }

    lemma UnsplittableInListMustFit(parts: seq<string>, i: nat, depth: nat)
      requires i < |parts| && SplitSmaller(parts[i]) == [parts[i]] && PackWithin(parts, [], depth).Some?
      ensures Fits(parts[i])
    {
      hide PackWithin, SplitSmaller, Fits;
      PackNeedsParts(parts, [], depth);
      if !Fits(parts[i]) {
        UnsplittableMustFit(parts[i], depth - 1);
      }
    }

    /** Packing words, of a sentence or a paragraph without sentences, needs each of them to fit. */
    lemma WordsMustFit(s: string, depth: nat)
      requires PackWithin(SplitWords(s), [], depth).Some? && (s == [] || !IsWs(s[0]))
      ensures AllFit(SplitWords(s))
    {
      var ws := SplitWords(s);
      forall i | 0 <= i < |ws| ensures Fits(ws[i]) {
        WordsAreWords(s);
        if s == [] {
          EmptySplitsToItself();
        } else {
          WordIsUnbroken(ws[i]);
        }
        UnsplittableInListMustFit(ws, i, depth);
      }
    }

    lemma PackableUnitPacks(unit: string)
      requires Packable(unit) && (unit == [] || Trimmed(unit))
      ensures Fits(unit) || PackWithin(SplitSmaller(unit), [], 1).Some?
    {
      if !Fits(unit) {
        if |SplitSentences(unit)| > 1 {
          var parts := SplitSentences(unit);
          TrimmedSentences(unit);
          forall i | 0 <= i < |parts|
            ensures Fits(parts[i]) || PackWithin(SplitSmaller(parts[i]), [], 0).Some?
          {
            SentenceSplitsToWords(parts[i]);
            if !Fits(parts[i]) {
              FittingUnitsPack(SplitWords(parts[i]), [], 0);
            }
          }
          PackLifts(parts, [], 1);
        } else {
          FittingUnitsPack(SplitWords(unit), [], 1);
        }
      }
    }

    lemma PackedPartFits(parts: seq<string>, i: nat, depth: nat)
      requires i < |parts| && Trimmed(parts[i]) && Unbroken(parts[i])
      requires PackWithin(parts, [], depth).Some?
      ensures Fits(parts[i]) || AllFit(SplitWords(parts[i]))
    {
      hide PackWithin, Fits, SplitWords;
      PackNeedsParts(parts, [], depth);
      SentenceSplitsToWords(parts[i]);
      if !Fits(parts[i]) {
        WordsMustFit(parts[i], depth - 1);
      }
    }

    lemma PackedUnitIsPackable(unit: string, depth: nat)
      requires unit == [] || Trimmed(unit)
      requires Fits(unit) || PackWithin(SplitSmaller(unit), [], depth).Some?
      ensures Packable(unit)
    {
      if !Fits(unit) {
        if |SplitSentences(unit)| > 1 {
          var parts := SplitSentences(unit);
          TrimmedSentences(unit);
          forall i | 0 <= i < |parts| ensures Fits(parts[i]) || AllFit(SplitWords(parts[i])) {
            PackedPartFits(parts, i, depth);
          }
        } else {
          WordsMustFit(unit, depth);
        }
      }
    }

    predicate AllPackable(units: seq<string>) {
      forall i :: 0 <= i < |units| ==> Packable(units[i])
    }

    /** Chunking a document ends exactly when every paragraph is packable; two nested splits are
        then enough. */
    lemma TerminationExact(content: string)
      ensures var units := SplitParagraphs(content);
              && (Terminates(units) <==> AllPackable(units))
              && (AllPackable(units) ==> PackWithin(units, [], 2).Some?)
    {
      var units := SplitParagraphs(content);
      ParagraphsKeepWords(content);
      if AllPackable(units) {
        PackableUnitsPack(units);
      }
      if Terminates(units) {
        var depth: nat :| PackWithin(units, [], depth).Some?;
        PackedUnitsArePackable(units, depth);
      }
    }

    lemma PackableUnitsPack(units: seq<string>)
      requires AllPackable(units) && forall i :: 0 <= i < |units| ==> units[i] == [] || Trimmed(units[i])
      ensures PackWithin(units, [], 2).Some?
    {
      forall i | 0 <= i < |units| ensures Fits(units[i]) || PackWithin(SplitSmaller(units[i]), [], 1).Some? {
        PackableUnitPacks(units[i]);
      }
      PackLifts(units, [], 2);
    }

    lemma PackedUnitsArePackable(units: seq<string>, depth: nat)
      requires forall i :: 0 <= i < |units| ==> units[i] == [] || Trimmed(units[i])
      requires PackWithin(units, [], depth).Some?
      ensures AllPackable(units)
    {
      PackNeedsParts(units, [], depth);
      forall i | 0 <= i < |units| ensures Packable(units[i]) {
        PackedUnitIsPackable(units[i], if depth > 0 then depth - 1 else 0);
      }
    }

    /** The bound does not influence the result. */
    lemma {:induction false} DepthIrrelevant(units: seq<string>, current: string, d: nat, e: nat)
      requires PackWithin(units, current, d).Some? && d <= e
      ensures PackWithin(units, current, e) == PackWithin(units, current, d)
      decreases d, |units|
    {
      if units != [] {
        var unit, rest := units[0], units[1..];
        if !Fits(unit) {
          DepthIrrelevant(SplitSmaller(unit), [], d - 1, e - 1);
          DepthIrrelevant(rest, [], d, e);
        } else if !Fits(Join(current, unit)) && current != [] {
          DepthIrrelevant(rest, unit, d, e);
        } else {
          DepthIrrelevant(rest, Join(current, unit), d, e);
        }
      }
    }

    // ---- what the packed chunks hold ------------------------------------------------------------

    ghost predicate WellSized(chunks: seq<string>) {
      forall i :: 0 <= i < |chunks| ==> chunks[i] != [] && Fits(chunks[i])
    }

    /** No packed chunk exceeds the window, for any way of counting tokens. */
    lemma {:induction false} PackedWithinWindow(units: seq<string>, current: string, depth: nat)
      requires PackWithin(units, current, depth).Some?
      requires current == [] || Fits(current)
      ensures WellSized(PackWithin(units, current, depth).value)
      decreases depth, |units|
    {
      if units != [] {
        var unit, rest := units[0], units[1..];
        if !Fits(unit) {
          PackedWithinWindow(SplitSmaller(unit), [], depth - 1);
          PackedWithinWindow(rest, [], depth);
        } else if !Fits(Join(current, unit)) && current != [] {
          PackedWithinWindow(rest, unit, depth);
        } else {
          PackedWithinWindow(rest, Join(current, unit), depth);
        }
      }
    }

    /** Packing neither loses, repeats nor reorders a word. */
    lemma {:induction false} PackedKeepsWords(units: seq<string>, current: string, depth: nat)
      requires PackWithin(units, current, depth).Some?
      ensures AllWords(PackWithin(units, current, depth).value) == WordsOf(current) + AllWords(units)
      decreases depth, |units|
    {
      if units == [] {
        FlushKeepsWords(current);
        Unit(WordsOf(current));
      } else {
        var unit, rest := units[0], units[1..];
        if !Fits(unit) {
          PackedKeepsWords(SplitSmaller(unit), [], depth - 1);
          PackedKeepsWords(rest, [], depth);
          SplitSmallerKeepsWords(unit);
          Unit(AllWords(SplitSmaller(unit)));
          Unit(AllWords(rest));
          OversizedKeepsWords(current, PackWithin(SplitSmaller(unit), [], depth - 1).value,
                              PackWithin(rest, [], depth).value, units);
        } else if !Fits(Join(current, unit)) && current != [] {
          PackedKeepsWords(rest, unit, depth);
          FlushedFirst(current, PackWithin(rest, unit, depth).value);
        } else {
          PackedKeepsWords(rest, Join(current, unit), depth);
          JoinKeepsWords(current, unit);
          Associates(WordsOf(current), WordsOf(unit), AllWords(rest));
        }
      }
    }

    // ---- overlap --------------------------------------------------------------------------------

    /** Prepend words from the end while the count stays within `tokens`; the first always goes in. */
    function TrailFrom(words: seq<string>, acc: string, tokens: int): string {
      if words == [] then acc
      else
        var last := |words| - 1;
        var candidate := if acc == [] then words[last] else words[last] + " " + acc;
        if count(candidate) > tokens && acc != [] then acc
        else TrailFrom(words[..last], candidate, tokens)
    }

    function TrailingTokens(text: string, tokens: int): string {
      TrailFrom(SplitWords(text), [], tokens)
    }

    method ComputeTrailing(text: string, tokens: int) returns (acc: string)
      ensures acc == TrailingTokens(text, tokens)
    {
      var words := SplitWords(text);
      acc := "";
      var i := |words| - 1;
      assert words[..|words|] == words;
      while i >= 0
        invariant -1 <= i < |words|
        invariant TrailFrom(words[..i + 1], acc, tokens) == TrailingTokens(text, tokens)
      {
        assert words[..i + 1][..i] == words[..i];
        var candidate := if acc == [] then words[i] else words[i] + " " + acc;
        if count(candidate) > tokens && acc != [] {
          break;
        }
        acc := candidate;
        i := i - 1;
      }
    }

    /** The text of a chunk once the tail of its predecessor is put in front. */
    function Overlapped(previous: string, chunk: string): string {
      var tail := TrailingTokens(previous, overlap);
      if tail == [] then chunk else tail + GAP + chunk
    }

    function OverlapAt(chunks: seq<string>, i: nat): string
      requires i < |chunks|
    {
      if overlap <= 0 || i == 0 then chunks[i] else Overlapped(chunks[i - 1], chunks[i])
    }

    function WithOverlap(chunks: seq<string>): (out: seq<string>)
      ensures |out| == |chunks|
      ensures forall i :: 0 <= i < |chunks| ==> out[i] == OverlapAt(chunks, i)
    {
      seq(|chunks|, i requires 0 <= i < |chunks| => OverlapAt(chunks, i))
    }

    lemma OverlapEnds(chunks: seq<string>)
      ensures overlap <= 0 || |chunks| <= 1 ==> WithOverlap(chunks) == chunks
      ensures chunks != [] ==> WithOverlap(chunks)[..1] == [chunks[0]]
      ensures WithOverlap(chunks)[..|chunks|] == WithOverlap(chunks)
    {
    }

    lemma OverlapGrows(chunks: seq<string>, i: nat, tail: string)
      requires 0 < i < |chunks| && overlap > 0 && tail == TrailingTokens(chunks[i - 1], overlap)
      ensures WithOverlap(chunks)[..i] + [if tail == [] then chunks[i] else tail + GAP + chunks[i]]
           == WithOverlap(chunks)[..i + 1]
    {
      assert WithOverlap(chunks)[i] == OverlapAt(chunks, i);
      TakeOneMore(WithOverlap(chunks), i, OverlapAt(chunks, i));
    }

    method ApplyOverlap(chunks: seq<string>) returns (out: seq<string>)
      ensures out == WithOverlap(chunks)
    {
      OverlapEnds(chunks);
      if overlap <= 0 || |chunks| <= 1 {
        return chunks;
      }
      out := [chunks[0]];
      for i := 1 to |chunks|
        invariant out == WithOverlap(chunks)[..i]
      {
        var tail := ComputeTrailing(chunks[i - 1], overlap);
        OverlapGrows(chunks, i, tail);
        out := out + [if tail == [] then chunks[i] else tail + GAP + chunks[i]];
      }
    }

    method ChunkDocument(content: string) returns (chunks: seq<Chunk>)
      requires AllPackable(SplitParagraphs(content))
      ensures |chunks| == |Packed(content)|
      ensures forall i :: 0 <= i < |chunks| ==> chunks[i] == Chunk(i, WithOverlap(Packed(content))[i])
    {
      TerminationExact(content);
      var packed := Pack(SplitParagraphs(content), 2);
      var withOverlap := ApplyOverlap(packed);
      chunks := seq(|withOverlap|, i requires 0 <= i < |withOverlap| => Chunk(i, withOverlap[i]));
    }

    /** The packed chunks of a document on which the recursion ends. */
    ghost function Packed(content: string): seq<string>
      requires AllPackable(SplitParagraphs(content))
    {
      TerminationExact(content);
      PackWithin(SplitParagraphs(content), [], 2).value
    }

    /** Packed chunks are non-empty, within the window, and hold exactly the document's words. */
    lemma PackedDocument(content: string)
      requires AllPackable(SplitParagraphs(content))
      ensures WellSized(Packed(content))
      ensures AllWords(Packed(content)) == WordsOf(content)
    {
      var units := SplitParagraphs(content);
      TerminationExact(content);
      PackedWithinWindow(units, [], 2);
      PackedKeepsWords(units, [], 2);
      ParagraphsKeepWords(content);
    }

    // ---- exactly which documents can be chunked -------------------------------------------------

    /** Every word fits, and so does the empty text if the document has no word. */
    predicate WordsFit(content: string) {
      && AllFit(WordsOf(content))
      && (WordsOf(content) == [] ==> Fits(""))
    }

    /** A counter that never counts less for a text than for one of its words. */
    ghost predicate CountsWords() {
      forall s: string, i: nat :: i < |WordsOf(s)| ==> count(WordsOf(s)[i]) <= count(s)
    }

    lemma FittingWordsArePackable(unit: string)
      requires AllFit(WordsOf(unit)) && (unit == [] ==> Fits("")) && (unit == [] || Trimmed(unit))
      ensures Packable(unit)
    {
      if unit == [] {
        EmptySplitsToItself();
      } else if |SplitSentences(unit)| > 1 {
        var parts := SplitSentences(unit);
        TrimmedSentences(unit);
        SplitSentencesKeepsWords(unit);
        forall i | 0 <= i < |parts| ensures AllFit(SplitWords(parts[i])) {
          WordsOfPartAmongAll(parts, i);
        }
      }
    }

    lemma PackableHasFittingWords(unit: string)
      requires CountsWords() && Packable(unit) && (unit == [] || Trimmed(unit))
      ensures AllFit(WordsOf(unit)) && (unit == [] ==> Fits(""))
    {
      if unit == [] {
        EmptySplitsToItself();
        assert SplitWords("")[0] == "";
      } else if !Fits(unit) && |SplitSentences(unit)| > 1 {
        var parts := SplitSentences(unit);
        TrimmedSentences(unit);
        SplitSentencesKeepsWords(unit);
        forall k | 0 <= k < |WordsOf(unit)| ensures Fits(WordsOf(unit)[k]) {
          var i, j := FindPart(parts, k);
          if Fits(parts[i]) {
            assert count(WordsOf(parts[i])[j]) <= count(parts[i]);
          }
        }
      } else if Fits(unit) {
        forall k | 0 <= k < |WordsOf(unit)| ensures Fits(WordsOf(unit)[k]) {
          assert count(WordsOf(unit)[k]) <= count(unit);
        }
      }
    }

    /** For such a counter, chunking a document ends exactly when all its words fit the window. */
    lemma TerminatesIffWordsFit(content: string)
      requires CountsWords()
      ensures Terminates(SplitParagraphs(content)) <==> WordsFit(content)
    {
      var units := SplitParagraphs(content);
      ParagraphsKeepWords(content);
      TerminationExact(content);
      if WordsFit(content) {
        FittingWordsSuffice(content);
      }
      if AllPackable(units) {
        forall k | 0 <= k < |WordsOf(content)| ensures Fits(WordsOf(content)[k]) {
          var i, j := FindPart(units, k);
          PackableHasFittingWords(units[i]);
        }
        if WordsOf(content) == [] {
          assert units[0] == "";
          PackableHasFittingWords(units[0]);
        }
      }
    }

    /** For any counter, words that fit are enough. */
    lemma FittingWordsSuffice(content: string)
      requires WordsFit(content)
      ensures AllPackable(SplitParagraphs(content)) && Terminates(SplitParagraphs(content))
    {
      var units := SplitParagraphs(content);
      ParagraphsKeepWords(content);
      forall i | 0 <= i < |units| ensures Packable(units[i]) {
        WordsOfPartAmongAll(units, i);
        FittingWordsArePackable(units[i]);
      }
      TerminationExact(content);
    }

    // ---- what overlap adds ----------------------------------------------------------------------

    function Max(a: int, b: int): int { if a < b then b else a }

    lemma {:induction false} TailBound(words: seq<string>, acc: string, tokens: int, longest: int)
      requires forall i :: 0 <= i < |words| ==> count(words[i]) <= longest
      requires acc == [] || count(acc) <= Max(tokens, longest)
      ensures var tail := TrailFrom(words, acc, tokens); tail == [] || count(tail) <= Max(tokens, longest)
      decreases |words|
    {
      if words != [] {
        var last := |words| - 1;
        var candidate := if acc == [] then words[last] else words[last] + " " + acc;
        if !(count(candidate) > tokens && acc != []) {
          TailBound(words[..last], candidate, tokens, longest);
        }
      }
    }

    /** Gluing two texts with the gap costs at most this many extra tokens. */
    ghost predicate GapCosts(extra: nat) {
      forall a: string, b: string {:trigger Glue(a, b)} :: count(Glue(a, b)) <= count(a) + count(b) + extra
    }

    ghost predicate WordsCost(words: seq<string>, longest: int) {
      forall w :: w in words ==> count(w) <= longest
    }

    lemma TailCost(text: string, longest: int)
      requires WordsCost(WordsOf(text), longest) && count("") <= longest
      ensures var tail := TrailingTokens(text, overlap); tail == [] || count(tail) <= Max(overlap, longest)
    {
      forall k | 0 <= k < |SplitWords(text)| ensures count(SplitWords(text)[k]) <= longest {
        if SplitWords(text)[k] != "" {
          NonEmptySplitWord(text, k);
        }
      }
      TailBound(SplitWords(text), [], overlap, longest);
    }

    lemma WordsOfOneCost(chunks: seq<string>, i: nat, longest: int)
      requires i < |chunks| && WordsCost(AllWords(chunks), longest)
      ensures WordsCost(WordsOf(chunks[i]), longest)
    {
      WordsOfPartAmongAll(chunks, i);
    }

    lemma GluedBound(tail: string, chunk: string, a: int, b: int, extra: nat)
      requires GapCosts(extra) && count(tail) <= a && count(chunk) <= b
      ensures count(tail + GAP + chunk) <= a + b + extra
    {
      assert Glue(tail, chunk) == tail + GAP + chunk;
    }

    /** An overlapped chunk exceeds the window by no more than the overlap (or the longest word) and
        the cost of the gap. */
    lemma OverlappedBound(content: string, longest: int, extra: nat, i: nat)
      requires AllPackable(SplitParagraphs(content)) && i < |Packed(content)|
      requires WordsCost(WordsOf(content), longest) && count("") <= longest && GapCosts(extra)
      ensures count(OverlapAt(Packed(content), i))
              <= chunkSize + (if overlap <= 0 then 0 else Max(overlap, longest) + extra)
    {
      PackedDocument(content);
      ChunksBound(Packed(content), WordsOf(content), longest, extra, i);
    }

    predicate TailWithin(text: string, most: int) {
      TrailingTokens(text, overlap) == [] || count(TrailingTokens(text, overlap)) <= most
    }

    lemma TailOfOneCost(chunks: seq<string>, i: nat, longest: int)
      requires i < |chunks| && WordsCost(AllWords(chunks), longest) && count("") <= longest
      ensures TailWithin(chunks[i], Max(overlap, longest))
    {
      var text := chunks[i];
      WordsOfOneCost(chunks, i, longest);
      TailCost(text, longest);
    }

    lemma ChunksBound(chunks: seq<string>, words: seq<string>, longest: int, extra: nat, i: nat)
      requires i < |chunks| && WellSized(chunks) && words == AllWords(chunks)
      requires WordsCost(words, longest) && count("") <= longest && GapCosts(extra)
      ensures count(OverlapAt(chunks, i)) <= chunkSize + (if overlap <= 0 then 0 else Max(overlap, longest) + extra)
    {
      hide WordsCost, AllWords, GapCosts, WellSized, TailWithin, OverlapAt;
      if overlap > 0 {
        if i > 0 { TailOfOneCost(chunks, i - 1, longest); }
        OverlappedListBound(chunks, Max(overlap, longest), extra, i);
      } else {
        PlainBound(chunks, i);
      }
    }

    lemma PlainBound(chunks: seq<string>, i: nat)
      requires i < |chunks| && WellSized(chunks) && overlap <= 0
      ensures count(OverlapAt(chunks, i)) <= chunkSize
    {
    }

    lemma OverlappedListBound(chunks: seq<string>, most: int, extra: nat, i: nat)
      requires i < |chunks| && WellSized(chunks) && GapCosts(extra) && 0 <= most
      requires overlap > 0 && i > 0 ==> TailWithin(chunks[i - 1], most)
      ensures count(OverlapAt(chunks, i)) <= chunkSize + (if overlap <= 0 then 0 else most + extra)
    {
      if overlap > 0 && i > 0 {
        OverlapCost(chunks[i - 1], chunks[i], most, extra);
      }
    }

    lemma OverlapCost(previous: string, chunk: string, most: int, extra: nat)
      requires GapCosts(extra) && count(chunk) <= chunkSize && 0 <= most
      requires var tail := TrailingTokens(previous, overlap); tail == [] || count(tail) <= most
      ensures count(Overlapped(previous, chunk)) <= chunkSize + most + extra
    {
      var tail := TrailingTokens(previous, overlap);
      if tail != [] {
        GluedBound(tail, chunk, most, chunkSize, extra);
      }
    }

    lemma SuffixSnoc(words: seq<string>, k: nat)
      requires words != [] && k <= |words| - 1
      ensures words[k..] == words[..|words| - 1][k..] + [words[|words| - 1]]
    {
    }

    /** The tail is made of the last words of the text, at least one of them. */
    lemma {:induction false} TailIsSuffix(words: seq<string>, acc: string, tokens: int) returns (k: nat)
      requires forall i :: 0 <= i < |words| ==> IsAWord(words[i])
      ensures k <= |words| && WordsOf(TrailFrom(words, acc, tokens)) == words[k..] + WordsOf(acc)
      ensures acc == [] && words != [] ==> k < |words|
      decreases |words|
    {
      if words == [] {
        Unit(WordsOf(acc));
        return 0;
      }
      var last := |words| - 1;
      var candidate := if acc == [] then words[last] else words[last] + " " + acc;
      if count(candidate) > tokens && acc != [] {
        Unit(WordsOf(acc));
        return |words|;
      }
      CandidateWords(words[last], acc);
      k := TailIsSuffix(words[..last], candidate, tokens);
      SuffixSnoc(words, k);
      Associates(words[..last][k..], [words[last]], WordsOf(acc));
    }

    /** With overlap, a chunk holds some of the last words of its predecessor followed by exactly its
        own words. */
    lemma OverlappedWords(chunks: seq<string>, i: nat) returns (k: nat)
      requires 0 < i < |chunks| && overlap > 0
      requires chunks[i - 1] != [] && !IsWs(chunks[i - 1][0])
      ensures k < |WordsOf(chunks[i - 1])|
      ensures WordsOf(OverlapAt(chunks, i)) == WordsOf(chunks[i - 1])[k..] + WordsOf(chunks[i])
    {
      var words := WordsOf(chunks[i - 1]);
      WordsAreWords(chunks[i - 1]);
      k := TailIsSuffix(words, [], overlap);
      var tail := TrailingTokens(chunks[i - 1], overlap);
      WordsAround(tail, GAP, chunks[i]);
      assert WordsOf(tail) == words[k..] + [];
      assert tail != [];
    }
  }

  // ---- the default estimate: about four characters a token ---------------------------------------

  function Glue(a: string, b: string): string { a + GAP + b }

  lemma CandidateWords(word: string, acc: string)
    requires IsAWord(word)
    ensures WordsOf(if acc == [] then word else word + " " + acc) == [word] + WordsOf(acc)
  {
    if acc != [] {
      WordsAround(word, " ", acc);
    }
  }

  function EstimateTokens(s: string): int { if s == [] then 1 else (|s| + 3) / 4 }

  /** The default chunker chunks exactly the documents whose words fit its window. */
  lemma DefaultTerminatesIffWordsFit(chunkSize: int, overlap: int, content: string)
    ensures var c := Chunker(chunkSize, overlap, EstimateTokens);
            c.Terminates(SplitParagraphs(content)) <==> c.WordsFit(content)
  {
    var c := Chunker(chunkSize, overlap, EstimateTokens);
    forall s: string, i: nat | i < |WordsOf(s)| ensures c.count(WordsOf(s)[i]) <= c.count(s) {
      WordsAreWords(s);
    }
    c.TerminatesIffWordsFit(content);
  }

  /** With the default estimate an overlapped chunk is at most chunkSize + max(overlap, longest
      word) + 1 tokens. */
  lemma DefaultOverlappedBound(chunkSize: int, overlap: int, content: string, longest: int, i: nat)
    requires var c := Chunker(chunkSize, overlap, EstimateTokens);
             c.AllPackable(SplitParagraphs(content)) && i < |c.Packed(content)|
    requires longest >= 1
    requires forall w :: w in WordsOf(content) ==> EstimateTokens(w) <= longest
    ensures var c := Chunker(chunkSize, overlap, EstimateTokens);
            EstimateTokens(c.OverlapAt(c.Packed(content), i)) <= chunkSize + c.Max(overlap, longest) + 1
  {
    var c := Chunker(chunkSize, overlap, EstimateTokens);
    c.OverlappedBound(content, longest, 1, i);
  }

  lemma {:induction false} WordsOfPartAmongAll(parts: seq<string>, i: nat)
    requires i < |parts|
    ensures forall j :: 0 <= j < |WordsOf(parts[i])| ==> WordsOf(parts[i])[j] in AllWords(parts)
  {
    if i > 0 {
      WordsOfPartAmongAll(parts[1..], i - 1);
    }
  }

  lemma {:induction false} FindPart(parts: seq<string>, k: nat) returns (i: nat, j: nat)
    requires k < |AllWords(parts)|
    ensures i < |parts| && j < |WordsOf(parts[i])| && WordsOf(parts[i])[j] == AllWords(parts)[k]
  {
    var n := |WordsOf(parts[0])|;
    if k < n {
      return 0, k;
    }
    i, j := FindPart(parts[1..], k - n);
    i := i + 1;
  }

  lemma NonEmptySplitWord(s: string, k: nat)
    requires k < |SplitWords(s)| && SplitWords(s)[k] != ""
    ensures SplitWords(s)[k] in WordsOf(s)
  {
  }

  lemma EmptySplitsToItself()
    ensures SplitWords("") == [""] && SplitSmaller("") == [""]
  {
    assert SentencePieces("", "") == [""];
  }

  lemma OversizedKeepsWords(current: string, inner: seq<string>, outer: seq<string>, units: seq<string>)
    requires units != [] && AllWords(inner) == WordsOf(units[0])
    requires AllWords(outer) == AllWords(units[1..])
    ensures AllWords(Flushed(current) + inner + outer) == WordsOf(current) + AllWords(units)
  {
    FlushKeepsWords(current);
    AllWordsConcat(Flushed(current), inner);
    AllWordsConcat(Flushed(current) + inner, outer);
    Associates(WordsOf(current), AllWords(inner), AllWords(outer));
  }

  lemma TakeOneMore(s: seq<string>, i: nat, next: string)
    requires i < |s| && s[i] == next
    ensures s[..i] + [next] == s[..i + 1]
  {
  }

  lemma FlushedFirst(current: string, outer: seq<string>)
    ensures AllWords([current] + outer) == WordsOf(current) + AllWords(outer)
  {
    assert ([current] + outer)[1..] == outer;
  }

  lemma FourParts(a: seq<string>, b: seq<string>, c: seq<string>, d: seq<string>)
    ensures a + (b + c + d) == a + b + c + d
  {
  }

  lemma FlushKeepsWords(current: string)
    ensures AllWords(Flushed(current)) == WordsOf(current)
  {
    assert AllWords([current]) == WordsOf(current) + AllWords([]);
  }

  lemma JoinKeepsWords(current: string, unit: string)
    ensures WordsOf(Join(current, unit)) == WordsOf(current) + WordsOf(unit)
  {
    if current != [] {
      WordsAround(current, GAP, unit);
    }
  }
}
