/** Optional values and the character classes of the regular expressions used at the egress. */
module Text {

  datatype Option<+T> = None | Some(value: T)

  /** `\s` */
  predicate IsWs(c: char) { c in {' ', '\t', '\n', '\r', '\U{0B}', '\U{0C}'} }

  predicate Blank(s: string) { forall i :: 0 <= i < |s| ==> IsWs(s[i]) }

  /** `\w` */
  predicate IsWord(c: char) { 'a' <= c <= 'z' || 'A' <= c <= 'Z' || '0' <= c <= '9' || c == '_' }

  /** Folding of ASCII letters, as in a case-insensitive match. */
  function Lower(c: char): char {
    if 'A' <= c <= 'Z' then (c as int + 32) as char else c
  }

  /** The classes by code point: white space is 9 to 13 and 32, word characters are the ASCII letters, digits and
      the underscore, and folding moves the upper-case letters alone. */
  lemma CharacterClasses(c: char)
    ensures IsWs(c) <==> 9 <= c as int <= 13 || c as int == 32
    ensures IsWord(c) <==> 48 <= c as int <= 57 || 65 <= c as int <= 90 || c as int == 95 || 97 <= c as int <= 122
    ensures Lower(c) as int == c as int + (if 65 <= c as int <= 90 then 32 else 0)
  {
    assert ' ' as int == 32 && '\t' as int == 9 && '\n' as int == 10 && '\r' as int == 13;
    assert '\U{0B}' as int == 11 && '\U{0C}' as int == 12;
    if 9 <= c as int <= 13 || c as int == 32 {
      assert c == ' ' || c == '\t' || c == '\n' || c == '\r' || c == '\U{0B}' || c == '\U{0C}';
    }
  }

  function LowerAll(s: string): (r: string)
    ensures |r| == |s| && forall i :: 0 <= i < |s| ==> r[i] == Lower(s[i])
  {
    if s == [] then [] else [Lower(s[0])] + LowerAll(s[1..])
  }

  /** Does `s` start with the lower-case literal `w`, ignoring case? */
  predicate StartsWithCi(s: string, w: string) {
    w == [] || (s != [] && Lower(s[0]) == w[0] && StartsWithCi(s[1..], w[1..]))
  }

  lemma {:induction false} StartsWithCiLength(s: string, w: string)
    requires StartsWithCi(s, w)
    ensures |w| <= |s|
  {
    if w != [] {
      StartsWithCiLength(s[1..], w[1..]);
    }
  }

  /** A text starts with the literal exactly when its first letters, folded, are the literal. */
  lemma {:induction false} StartsWithCiExactly(s: string, w: string)
    ensures StartsWithCi(s, w) <==> |w| <= |s| && LowerAll(s[..|w|]) == w
  {
    if w != "" && s != "" {
      StartsWithCiExactly(s[1..], w[1..]);
      if |w| <= |s| { assert s[..|w|] == [s[0]] + s[1..][..|w| - 1]; }
      assert w == [w[0]] + w[1..];
    }
  }

  lemma {:induction false} StartsWithItself(w: string)
    requires forall i :: 0 <= i < |w| ==> Lower(w[i]) == w[i]
    ensures StartsWithCi(w, w)
  {
    if w != "" { StartsWithItself(w[1..]); }
  }

  /** How many leading characters are white space. */
  function LeadingWs(s: string): (n: nat)
    ensures n <= |s|
    ensures n < |s| ==> !IsWs(s[n])
  {
    if s == [] || !IsWs(s[0]) then 0 else 1 + LeadingWs(s[1..])
  }

  lemma LongerTail(s: string, n: nat)
    requires n < |s| && Blank(s[..|s| - 1][|s| - 1 - n..]) && IsWs(s[|s| - 1])
    ensures Blank(s[|s| - (1 + n)..])
  {
    var tail, shorter := s[|s| - (1 + n)..], s[..|s| - 1][|s| - 1 - n..];
    forall i | 0 <= i < |tail| ensures IsWs(tail[i]) {
      if i < n { assert tail[i] == shorter[i]; }
    }
  }

  /** How many trailing characters are white space. */
  function TrailingWs(s: string): (n: nat)
    ensures n <= |s|
    ensures n < |s| ==> !IsWs(s[|s| - 1 - n])
    ensures Blank(s[|s| - n..])
  {
    if s == [] || !IsWs(s[|s| - 1]) then 0
    else
      var front := s[..|s| - 1];
      LongerTail(s, TrailingWs(front));
      1 + TrailingWs(front)
  }

  /** The text without white space at its ends. */
  function Strip(s: string): string {
    var t := s[LeadingWs(s)..];
    t[..|t| - TrailingWs(t)]
  }

  lemma {:induction false} LeadingWsBlank(s: string)
    ensures Blank(s[..LeadingWs(s)])
  {
    if s != [] && IsWs(s[0]) {
      LeadingWsBlank(s[1..]);
      assert s[..LeadingWs(s)] == [s[0]] + s[1..][..LeadingWs(s[1..])];
    }
  }
}
