/** Account numbers in sanitised text: which passes of the sanitiser can bring one about after redaction. */
module AccountNumbers {
  import opened Sequences
  import opened Text
  import opened Sanitizer

  predicate IsDigit(c: char) { '0' <= c <= '9' }

  /** `\b\d{8,}\b` matches from i to j. */
  predicate AccountAt(s: string, i: nat, j: nat) {
    && i + 8 <= j <= |s|
    && (forall k :: i <= k < j ==> IsDigit(s[k]))
    && (i == 0 || !IsWord(s[i - 1]))
    && (j == |s| || !IsWord(s[j]))
  }

  ghost predicate HasAccount(s: string) { exists i: nat, j: nat :: AccountAt(s, i, j) }

  // ---- the same, read from left to right --------------------------------------------------------------

  /** What stands to the left: a word boundary, so many digits since one, or some other word. */
  datatype Left = Edge | Digits(n: nat) | Word

  function Step(l: Left, c: char): Left {
    if !IsWord(c) then Edge
    else if !IsDigit(c) then Word
    else match l
      case Edge => Digits(1)
      case Digits(n) => Digits(n + 1)
      case Word => Word
  }

  predicate Full(l: Left) { l.Digits? && l.n >= 8 }

  /** An account number ends somewhere in `s`, given what stands to its left. */
  predicate Found(l: Left, s: string)
    decreases |s|
  {
    if s == [] then Full(l) else (!IsWord(s[0]) && Full(l)) || Found(Step(l, s[0]), s[1..])
  }

  function StateAt(s: string, i: nat): Left
    requires i <= |s|
  {
    if i == 0 then Edge else Step(StateAt(s, i - 1), s[i - 1])
  }

  /** The digits counted stand there, after a word boundary. */
  lemma {:induction false} CountedDigits(s: string, i: nat)
    requires i <= |s| && StateAt(s, i).Digits?
    ensures var n := StateAt(s, i).n;
            && 1 <= n <= i && (forall k :: i - n <= k < i ==> IsDigit(s[k]))
            && (i == n || !IsWord(s[i - n - 1]))
  {
    if StateAt(s, i - 1).Digits? {
      CountedDigits(s, i - 1);
    } else {
      EdgeMeansBoundary(s, i - 1);
    }
  }

  lemma EdgeMeansBoundary(s: string, i: nat)
    requires i <= |s|
    ensures StateAt(s, i).Edge? <==> i == 0 || !IsWord(s[i - 1])
  {
  }

  lemma {:induction false} DigitsAreCounted(s: string, a: nat, i: nat)
    requires a < i <= |s| && (forall k :: a <= k < i ==> IsDigit(s[k])) && (a == 0 || !IsWord(s[a - 1]))
    ensures StateAt(s, i) == Digits(i - a)
  {
    if i == a + 1 {
      EdgeMeansBoundary(s, a);
    } else {
      DigitsAreCounted(s, a, i - 1);
    }
  }

  ghost predicate EndsAt(s: string, j: nat) { exists i: nat :: AccountAt(s, i, j) }

  lemma EndsWhenFull(s: string, j: nat)
    requires j <= |s|
    ensures EndsAt(s, j) <==> Full(StateAt(s, j)) && (j == |s| || !IsWord(s[j]))
  {
    if EndsAt(s, j) {
      var i: nat :| AccountAt(s, i, j);
      DigitsAreCounted(s, i, j);
    }
    if Full(StateAt(s, j)) && (j == |s| || !IsWord(s[j])) {
      CountedDigits(s, j);
      assert AccountAt(s, j - StateAt(s, j).n, j);
    }
  }

  lemma {:induction false} FoundFrom(s: string, i: nat)
    requires i <= |s|
    ensures Found(StateAt(s, i), s[i..]) <==> exists j: nat :: i <= j <= |s| && EndsAt(s, j)
    decreases |s| - i
  {
    EndsWhenFull(s, i);
    if i < |s| {
      FoundFrom(s, i + 1);
      assert s[i..][1..] == s[i + 1..];
    }
  }

  /** Reading from left to right finds exactly the account numbers. */
  lemma FoundExactly(s: string)
    ensures HasAccount(s) <==> Found(Edge, s)
  {
    FoundFrom(s, 0);
    assert s[0..] == s;
    if HasAccount(s) {
      var i: nat, j: nat :| AccountAt(s, i, j);
      assert EndsAt(s, j);
    }
  }

  /** Reading decides it. */
  predicate NoAccount(s: string) { !Found(Edge, s) }

  lemma NoAccountExactly(s: string)
    ensures NoAccount(s) <==> !HasAccount(s)
  {
    FoundExactly(s);
  }

  // ---- passes that put something in the place of a match --------------------------------------------------

  /** Text without digits that ends at a boundary. */
  predicate Bland(r: string) {
    r != [] && !IsWord(r[|r| - 1]) && forall i :: 0 <= i < |r| ==> !IsDigit(r[i])
  }

  /** Such text ends a number on its left at most, and separates what follows. */
  lemma {:induction false} BlandSeparates(l: Left, r: string, t: string)
    requires Bland(r)
    ensures Found(l, r + t) <==> (!IsWord(r[0]) && Full(l)) || Found(Edge, t)
    decreases |r|
  {
    ConsTail(r, t);
    if |r| == 1 {
      assert r[1..] + t == t;
    } else {
      BlandSeparates(Step(l, r[0]), r[1..], t);
    }
  }

  lemma {:induction false} SpelledIsBland(s: string, w: string)
    requires StartsWithCi(s, w) && Bland(w)
    ensures |w| <= |s| && Bland(s[..|w|]) && (IsWord(s[0]) <==> IsWord(w[0]))
  {
    StartsWithCiLength(s, w);
    if |w| > 1 {
      SpelledIsBland(s[1..], w[1..]);
      assert s[..|w|] == [s[0]] + s[1..][..|w| - 1];
    } else {
      assert s[..|w|] == [s[0]];
    }
  }

  predicate Fits(q: Stage, l: Left) { if q.WantO? || q.InSpace? then l.Edge? else l.Word? }

  /** Neither does an event handler hold an account number. */
  lemma {:induction false} HandlerSeparates(q: Stage, l: Left, s: string)
    requires HandlerRest(q, s).Some? && Fits(q, l)
    ensures Found(l, s) <==> Found(Edge, s[HandlerRest(q, s).value..])
    decreases |s|
  {
    if !(q in {Stage.InWord, Stage.InSpace} && s[0] == '=') {
      var q' := Advance(q, s[0]).value;
      HandlerSeparates(q', Step(l, s[0]), s[1..]);
      assert s[1..][HandlerRest(q', s[1..]).value..] == s[HandlerRest(q, s).value..];
    }
  }

  /** Matches of `p` and the replacement begin alike, and the replacement is bland. */
  predicate Neutral(p: Pattern, r: string) {
    && Bland(r)
    && match p
       case JsUri => IsWord(r[0])
       case EventHandler => !IsWord(r[0])
       case Literal(c) => !IsWord(c) && !IsWord(r[0])
       case _ => false
  }

  lemma MatchSeparates(p: Pattern, l: Left, s: string, r: string)
    requires Neutral(p, r) && MatchAt(p, s).Some?
    ensures Found(l, s) <==> (!IsWord(r[0]) && Full(l)) || Found(Edge, s[MatchAt(p, s).value..])
  {
    var n := MatchAt(p, s).value;
    match p
    case JsUri =>
      assert Bland(JAVASCRIPT);
      SpelledIsBland(s, JAVASCRIPT);
      Halves(s, n);
      BlandSeparates(l, s[..n], s[n..]);
    case EventHandler =>
      HandlerSeparates(WantO, Edge, s[1..]);
      assert s[1..][n - 1..] == s[n..];
    case Literal(_) =>
  }

  /** Such a pass neither adds nor removes an account number. */
  lemma {:induction false} ReplacingKeepsAccounts(p: Pattern, l: Left, s: string, r: string)
    requires Neutral(p, r)
    ensures Found(l, ReplaceAll(p, s, r)) <==> Found(l, s)
    decreases |s|
  {
    if s != [] {
      match MatchAt(p, s)
      case Some(n) =>
        ReplacingKeepsAccounts(p, Edge, s[n..], r);
        MatchSeparates(p, l, s, r);
        BlandSeparates(l, r, ReplaceAll(p, s[n..], r));
      case None =>
        ReplacingKeepsAccounts(p, Step(l, s[0]), s[1..], r);
        ConsTail([s[0]], ReplaceAll(p, s[1..], r));
    }
  }

  /** The text after the two passes that remove elements and tags. */
  function Removed(s: string): string { ReplaceAll(DanglingOpen, ReplaceAll(Scriptish, s, ""), "") }

  lemma LaterPassesNeutral()
    ensures Neutral(JsUri, "blocked:") && Neutral(EventHandler, " data-blocked=")
    ensures Neutral(Literal('<'), "&lt;") && Neutral(Literal('>'), "&gt;")
  {
  }

  /** Whether the sanitised text holds an account number is decided by the two removing passes alone. */
  lemma OnlyRemovalMatters(s: string)
    ensures HasAccount(Outcome(s).text) <==> HasAccount(Removed(s))
  {
    hide Found, Neutral, HasAccount;
    var t2 := Removed(s);
    var t3 := ReplaceAll(JsUri, t2, "blocked:");
    LaterPassesNeutral();
    ReplacingKeepsAccounts(JsUri, Edge, t2, "blocked:");
    ReplacingKeepsAccounts(EventHandler, Edge, t3, " data-blocked=");
    ReplacingKeepsAccounts(Literal('<'), Edge, Stripped(s), "&lt;");
    ReplacingKeepsAccounts(Literal('>'), Edge, ReplaceAll(Literal('<'), Stripped(s), "&lt;"), "&gt;");
    FoundExactly(t2);
    FoundExactly(Outcome(s).text);
  }

  // ---- passes that remove their matches ---------------------------------------------------------------------

  /** No `<` ends a number that began at a word boundary. */
  predicate Guarded(l: Left, s: string)
    decreases |s|
  {
    s != [] ==> (s[0] == '<' ==> !l.Digits?) && Guarded(Step(l, s[0]), s[1..])
  }

  /** Inside a word less is found, and less is at risk. */
  lemma {:induction false} InsideWord(l: Left, s: string)
    ensures Found(Word, s) ==> Found(l, s)
    ensures Guarded(l, s) ==> Guarded(Word, s)
    decreases |s|
  {
    if s != [] && IsWord(s[0]) {
      InsideWord(Step(l, s[0]), s[1..]);
    }
  }

  lemma {:induction false} BehindMatch(l: Left, s: string, n: nat)
    requires 0 < n <= |s| && !IsWord(s[n - 1])
    ensures Found(Edge, s[n..]) ==> Found(l, s)
    ensures Guarded(l, s) ==> Guarded(Edge, s[n..])
    decreases n
  {
    if n > 1 {
      BehindMatch(Step(l, s[0]), s[1..], n - 1);
      assert s[1..][n - 1..] == s[n..];
    }
  }

  /** `x` is what is left of `s` after at least n characters. */
  predicate Tail(x: string, s: string, n: nat) { |x| + n <= |s| && x == s[|s| - |x|..] }

  lemma TailOfTail(x: string, y: string, s: string, n: nat, m: nat)
    requires Tail(x, y, n) && Tail(y, s, m)
    ensures Tail(x, s, n + m)
    ensures n > 0 ==> s[|s| - |x| - 1] == y[|y| - |x| - 1]
  {
  }

  lemma EatTail(s: string, c: char)
    requires Eat(s, c).Some?
    ensures Tail(Eat(s, c).value, s, 1)
  {
  }

  lemma SkipThenEat(s: string, c: char)
    requires Eat(SkipWs(s), c).Some?
    ensures var x := Eat(SkipWs(s), c).value; Tail(x, s, 1) && s[|s| - |x| - 1] == c
  {
  }

  lemma SkipThenName(s: string, name: string)
    requires EatName(SkipWs(s), name).Some?
    ensures Tail(EatName(SkipWs(s), name).value, s, 0)
  {
  }

  /** A closing tag ends with its bracket. */
  lemma CloseTagEnds(s: string, name: string)
    requires CloseTag(s, name).Some?
    ensures s[CloseTag(s, name).value - 1] == '>'
  {
    hide SkipWs, EatName, Eat;
    var a := Eat(s, '<').value;
    var b := Eat(SkipWs(a), '/').value;
    var c := EatName(SkipWs(b), name).value;
    var d := Eat(SkipWs(c), '>').value;
    EatTail(s, '<');
    SkipThenEat(a, '/');
    SkipThenName(b, name);
    SkipThenEat(c, '>');
    LastOfChain(s, a, b, c, d);
  }

  lemma LastOfChain(s: string, a: string, b: string, c: string, d: string)
    requires Tail(a, s, 1) && Tail(b, a, 1) && Tail(c, b, 0) && Tail(d, c, 1)
    ensures Tail(d, s, 3) && s[|s| - |d| - 1] == c[|c| - |d| - 1]
  {
    hide Tail;
    TailOfTail(b, a, s, 1, 1);
    TailOfTail(c, b, s, 0, 2);
    TailOfTail(d, c, s, 1, 2);
  }

  lemma {:induction false} UpToCloseEnds(s: string, name: string)
    requires UpTo(ClosesWith(name), s).Some?
    ensures s[UpTo(ClosesWith(name), s).value - 1] == '>'
    decreases |s|
  {
    if CloseTag(s, name).Some? {
      CloseTagEnds(s, name);
    } else {
      UpToCloseEnds(s[1..], name);
    }
  }

  lemma {:induction false} UpToAngleEnds(s: string)
    requires UpToAngle(s).Some?
    ensures s[UpToAngle(s).value - 1] == '>'
  {
    if s[0] != '>' { UpToAngleEnds(s[1..]); }
  }

  /** What is removed reaches from a `<` to a `>`. */
  lemma RemovedEnds(p: Pattern, s: string)
    requires (p.Scriptish? || p.DanglingOpen?) && MatchAt(p, s).Some?
    ensures s[0] == '<' && s[MatchAt(p, s).value - 1] == '>'
  {
    hide TagAt, LeadingWs, UpTo, UpToAngle;
    var (name, n) := OpenTag(s).value;
    if p.Scriptish? { UpToCloseEnds(s[n..], name); } else { UpToAngleEnds(s[n..]); }
  }

  /** A removal joins nothing when no number stands before it. */
  lemma {:induction false} RemovingKeepsGuarded(p: Pattern, l: Left, s: string)
    requires p.Scriptish? || p.DanglingOpen?
    requires Guarded(l, s) && !Found(l, s)
    ensures Guarded(l, ReplaceAll(p, s, "")) && !Found(l, ReplaceAll(p, s, ""))
    decreases |s|
  {
    hide MatchAt;
    if s != [] {
      match MatchAt(p, s)
      case Some(n) =>
        RemovedEnds(p, s);
        BehindMatch(l, s, n);
        RemovingKeepsGuarded(p, Edge, s[n..]);
        Unit(ReplaceAll(p, s[n..], ""));
        InsideWord(Edge, ReplaceAll(p, s[n..], ""));
      case None =>
        RemovingKeepsGuarded(p, Step(l, s[0]), s[1..]);
        ConsTail([s[0]], ReplaceAll(p, s[1..], ""));
    }
  }

  /** No `<` directly follows a digit. */
  predicate NoDigitBeforeAngle(s: string) {
    forall i :: 0 < i < |s| && s[i] == '<' ==> !IsDigit(s[i - 1])
  }

  lemma {:induction false} GuardedFrom(s: string, i: nat)
    requires i <= |s| && NoDigitBeforeAngle(s)
    ensures Guarded(StateAt(s, i), s[i..])
    decreases |s| - i
  {
    if i < |s| {
      GuardedFrom(s, i + 1);
      assert s[i..][1..] == s[i + 1..];
      if StateAt(s, i).Digits? { CountedDigits(s, i); }
    }
  }

  /** If no `<` directly follows a digit, sanitising brings no account number about. */
  lemma SanitizingJoinsNothing(s: string)
    requires !HasAccount(s) && NoDigitBeforeAngle(s)
    ensures !HasAccount(Outcome(s).text)
  {
    hide Found, Guarded, HasAccount;
    FoundExactly(s);
    GuardedFrom(s, 0);
    assert s[0..] == s;
    RemovingKeepsGuarded(Scriptish, Edge, s);
    RemovingKeepsGuarded(DanglingOpen, Edge, ReplaceAll(Scriptish, s, ""));
    FoundExactly(Removed(s));
    OnlyRemovalMatters(s);
  }

  // ---- otherwise it may -----------------------------------------------------------------------------------

  const EMBED := "<embed></embed>"

  predicate AllDigits(s: string) { forall i :: 0 <= i < |s| ==> IsDigit(s[i]) }

  lemma DigitsAreInert(s: string)
    requires AllDigits(s)
    ensures Inert(s)
  {
    NoMatchWithoutStart(Scriptish, s);
    NoMatchWithoutStart(DanglingOpen, s);
    NoMatchWithoutStart(JsUri, s);
    NoMatchWithoutStart(EventHandler, s);
  }

  lemma EmbedIsElement()
    ensures Element("", "embed", ">", ClosingTag("", "", "embed", "")) == EMBED && Spells("embed", TAGS[4])
    ensures forall i :: 0 <= i < |EMBED| ==> !IsDigit(EMBED[i])
  {
    StartsWithItself("embed");
  }

  lemma RunsTooShort(s: string, p: nat, q: nat)
    requires p < 8 && p < q <= |s| < q + 8
    requires forall m :: p <= m < q ==> !IsDigit(s[m])
    ensures !HasAccount(s)
  {
    forall i: nat, j: nat ensures !AccountAt(s, i, j) {
      var m := if i < p then p else i;
      assert m < j <= |s| && m < q ==> !IsDigit(s[m]);
    }
  }

  lemma NothingBetween(a: string, b: string)
    requires AllDigits(a) && AllDigits(b) && |a| < 8 && |b| < 8
    ensures !HasAccount(a + (EMBED + b))
  {
    EmbedIsElement();
    var s := a + (EMBED + b);
    assert forall m :: |a| <= m < |a| + |EMBED| ==> s[m] == EMBED[m - |a|];
    RunsTooShort(s, |a|, |a| + |EMBED|);
  }

  /** Two runs of digits too short to be account numbers, with an empty element between them: nothing for the
      redactor to find before sanitising, an account number after it. */
  lemma RemovalJoinsDigits(a: string, b: string)
    requires AllDigits(a) && AllDigits(b) && |a| < 8 && |b| < 8 && |a| + |b| >= 8
    ensures !HasAccount(a + (EMBED + b))
    ensures Outcome(a + (EMBED + b)) == Sanitized(a + b, 1) && HasAccount(a + b)
  {
    NothingBetween(a, b);
    EmbedIsElement();
    PlainElementRemoved(a, 4, "", "embed", ">", "", "", "embed", "", b);
    DigitsAreInert(a + b);
    InertIsFixed(a + b);
    assert AccountAt(a + b, 0, |a + b|);
  }
}
