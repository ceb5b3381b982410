/** What the tool's rules come to, in terms of the labels, arguments and rows themselves. */
module GovernedRules {
  import opened Text
  import opened AuditChain
  import opened DraftRefs
  import opened GovernedWrite

  // ---- clearance --------------------------------------------------------------------------------------

  /** The labels that meet each requirement, in any letter case and with white space around them. */
  predicate Grants(held: string, required: nat) {
    var l := LowerAll(Strip(held));
    || (required == 0 && l in ["public", "analyst", "compliance", "restricted"])
    || (required == 1 && l in ["analyst", "compliance", "restricted"])
    || (required == 2 && l in ["compliance", "restricted"])
    || (required == 3 && l == "restricted")
  }

  lemma LabelledIffFolded(held: string, k: nat)
    requires k < |LABELS|
    ensures Labelled(held, k) <==> LowerAll(Strip(held)) == LABELS[k]
  {
    StartsWithCiExactly(Strip(held), LABELS[k]);
    if |Strip(held)| == |LABELS[k]| { assert Strip(held)[..|LABELS[k]|] == Strip(held); }
  }

  /** The re-check grants exactly these labels. */
  lemma ClearedExactly(held: string, required: nat)
    ensures AtLeast(held, required) <==> Grants(held, required)
  {
    hide Labelled, LowerAll, Strip;
    LabelledIffFolded(held, 0);
    LabelledIffFolded(held, 1);
    LabelledIffFolded(held, 2);
    LabelledIffFolded(held, 3);
  }

  // ---- the input ----------------------------------------------------------------------------------------

  /** A year in four digits, a dash, and a quarter. */
  function Period(year: nat, quarter: nat): string
    requires year < 10_000 && quarter < 10
  {
    [Digit(year / 1000), Digit(year / 100 % 10), Digit(year / 10 % 10), Digit(year % 10), '-', 'Q', Digit(quarter)]
  }

  predicate NamesPeriod(p: string) {
    exists year: nat, quarter: nat :: year < 10_000 && 1 <= quarter <= 4 && p == Period(year, quarter)
  }

  lemma DigitOfChar(c: char) returns (d: nat)
    requires IsDigit(c)
    ensures d < 10 && Digit(d) == c && d == c as int - '0' as int
  {
    d := c as int - '0' as int;
  }

  lemma YearDigits(a: nat, b: nat, c: nat, d: nat)
    requires a < 10 && b < 10 && c < 10 && d < 10
    ensures var year := 1000 * a + 100 * b + 10 * c + d;
            year < 10_000 && year / 1000 == a && year / 100 % 10 == b && year / 10 % 10 == c && year % 10 == d
  {
    LastDigit(100 * a + 10 * b + c, d);
    LastDigit(10 * a + b, c);
    LastDigit(a, b);
    var year := 1000 * a + 100 * b + 10 * c + d;
    assert year / 100 == year / 10 / 10 && year / 1000 == year / 100 / 10;
  }

  lemma LastDigit(n: nat, d: nat)
    requires d < 10
    ensures (10 * n + d) / 10 == n && (10 * n + d) % 10 == d
  {
  }

  lemma ReadPeriod(p: string) returns (year: nat, quarter: nat)
    requires IsPeriod(p)
    ensures year < 10_000 && 1 <= quarter <= 4 && p == Period(year, quarter)
  {
    var a := DigitOfChar(p[0]);
    var b := DigitOfChar(p[1]);
    var c := DigitOfChar(p[2]);
    var d := DigitOfChar(p[3]);
    quarter := DigitOfChar(p[6]);
    year := 1000 * a + 100 * b + 10 * c + d;
    YearDigits(a, b, c, d);
  }

  lemma PeriodExactly(p: string)
    ensures IsPeriod(p) <==> NamesPeriod(p)
  {
    if IsPeriod(p) {
      var year, quarter := ReadPeriod(p);
      assert NamesPeriod(p);
    }
    if NamesPeriod(p) {
      hide *;
      PeriodIsPeriod(p);
    }
  }

  lemma PeriodIsPeriod(p: string)
    requires NamesPeriod(p)
    ensures IsPeriod(p)
  {
    var year: nat, quarter: nat :| year < 10_000 && 1 <= quarter <= 4 && p == Period(year, quarter);
    DigitChar(year / 1000);
    DigitChar(year / 100 % 10);
    DigitChar(year / 10 % 10);
    DigitChar(year % 10);
    DigitChar(quarter);
    hide Digit;
  }

  lemma DigitChar(d: nat)
    requires d < 10
    ensures IsDigit(Digit(d)) && Digit(d) as int - '0' as int == d
  {
  }

  /** The input the tool accepts. */
  predicate Acceptable(a: Args) {
    && !Blank(a.account) && NamesPeriod(a.period) && !Blank(a.rationale)
    && |a.rationale| <= 2000 && |a.citations| >= 1
  }

  lemma ValidExactly(a: Args)
    ensures ValidInput(a) <==> Acceptable(a)
  {
    PeriodExactly(a.period);
  }

  /** A reference names its year and its number, the number with at least six digits. */
  lemma RefShape(year: nat, number: nat)
    ensures exists y, d :: Ref(year, number) == "SAR-" + y + "-" + d
                           && IsNumber(y) && IsNumber(d) && Value(y) == year && Value(d) == number && |d| >= 6
                           && (|d| > 6 ==> d[0] != '0')
  {
    var y, d := Decimal(year), Padded(number);
    ValueOfDecimal(year);
    ValueOfPadded(number);
    PaddedShape(number);
    hide Decimal, Padded, Value;
    Dashed("SAR-", y, d);
    assert Ref(year, number) == "SAR-" + y + "-" + d;
  }

  lemma Dashed(a: string, y: string, d: string)
    ensures (a + y) + (['-'] + d) == a + y + "-" + d
  {
  }

  lemma PaddedShape(n: nat)
    ensures |Padded(n)| > 6 ==> Padded(n)[0] != '0'
  {
    NoLeadingZero(n);
    hide Decimal;
    assert |Decimal(n)| > 6 ==> Padded(n) == Zeros(0) + Decimal(n);
  }

  lemma {:induction false} NoLeadingZero(n: nat)
    ensures |Decimal(n)| > 1 ==> Decimal(n)[0] != '0'
  {
    if n >= 10 {
      NoLeadingZero(n / 10);
      if n / 10 < 10 { assert Decimal(n / 10) == [Digit(n / 10)]; }
      assert Decimal(n)[0] == Decimal(n / 10)[0];
    }
  }

  // ---- the argument digest -------------------------------------------------------------------------------

  /** Two texts up to the first such character. */
  lemma {:induction false} FirstMark(p: string, x: string, q: string, y: string, c: char)
    requires c !in p && c !in q && p + ([c] + x) == q + ([c] + y)
    ensures p == q && x == y
  {
    var s := p + ([c] + x);
    assert p != "" ==> s[0] == p[0];
    assert q != "" ==> s[0] == q[0];
    if p == "" || q == "" {
      assert s[0] == c;
      assert s[1..] == x && s[1..] == y;
    } else {
      assert s[1..] == p[1..] + ([c] + x) && s[1..] == q[1..] + ([c] + y);
      FirstMark(p[1..], x, q[1..], y, c);
    }
  }

  lemma DecimalTells(m: int, n: int)
    requires DecimalInt(m) == DecimalInt(n)
    ensures m == n
  {
    ValueOfDecimal(if m < 0 then -m else m);
    ValueOfDecimal(if n < 0 then -n else n);
    if m < 0 { assert DecimalInt(m)[1..] == Decimal(-m) && DecimalInt(m)[0] == '-'; }
    if n < 0 { assert DecimalInt(n)[1..] == Decimal(-n) && DecimalInt(n)[0] == '-'; }
  }

  lemma NoComma(n: int)
    ensures DecimalInt(n) != "" && ',' !in DecimalInt(n)
  {
    hide Decimal;
  }

  /** The list from its first number on. */
  function Following(ns: seq<int>): string
    requires ns != []
  {
    if |ns| == 1 then "" else [','] + (" " + Listed(ns[1..]))
  }

  lemma ListedStep(ns: seq<int>)
    requires ns != []
    ensures Listed(ns) == DecimalInt(ns[0]) + Following(ns)
    ensures Following(ns) == "" || Following(ns)[0] == ','
  {
    hide DecimalInt;
    if |ns| > 1 { Spacing(Listed(ns[1..])); }
  }

  lemma Spacing(rest: string)
    ensures ", " + rest == [','] + (" " + rest)
  {
  }

  lemma FirstEntry(p: string, x: string, q: string, y: string)
    requires ',' !in p && ',' !in q && p + x == q + y
    requires (x == "" || x[0] == ',') && (y == "" || y[0] == ',')
    ensures p == q && x == y
  {
    var u, v := x + [','], y + [','];
    assert u == [','] + u[1..] && v == [','] + v[1..];
    assert p + ([','] + u[1..]) == (p + x) + [','] && q + ([','] + v[1..]) == (q + y) + [','];
    FirstMark(p, u[1..], q, v[1..], ',');
    assert u[..|u| - 1] == x && v[..|v| - 1] == y;
  }

  lemma SameFollowing(x: seq<int>, y: seq<int>)
    requires x != [] && y != [] && Following(x) == Following(y)
    ensures |x| > 1 <==> |y| > 1
    ensures |x| > 1 ==> Listed(x[1..]) == Listed(y[1..])
  {
    hide Listed;
    if |x| > 1 { assert Following(x)[2..] == Listed(x[1..]); }
    if |y| > 1 { assert Following(y)[2..] == Listed(y[1..]); }
  }

  lemma {:induction false} ListedTells(x: seq<int>, y: seq<int>)
    requires Listed(x) == Listed(y)
    ensures x == y
    decreases |x|
  {
    hide Listed, DecimalInt, Following;
    ListedEmpty(x);
    ListedEmpty(y);
    if x != [] && y != [] {
      ListedStep(x);
      ListedStep(y);
      NoComma(x[0]);
      NoComma(y[0]);
      FirstEntry(DecimalInt(x[0]), Following(x), DecimalInt(y[0]), Following(y));
      DecimalTells(x[0], y[0]);
      SameFollowing(x, y);
      if |x| > 1 { ListedTells(x[1..], y[1..]); }
      assert x == [x[0]] + x[1..] && y == [y[0]] + y[1..];
    }
  }

  lemma ListedEmpty(ns: seq<int>)
    ensures Listed(ns) == "" <==> ns == []
  {
    if ns != [] { NoComma(ns[0]); }
    hide DecimalInt;
  }

  lemma {:induction false} ListedIsClean(ns: seq<int>)
    ensures Clean(Listed(ns))
  {
    if ns != [] { ListedIsClean(ns[1..]); }
  }

  predicate CleanArgs(a: Args) { Clean(a.account) && Clean(a.period) && Clean(a.rationale) }

  function Canonical(a: Args): seq<string> { [a.account, a.period, a.rationale, "[" + Listed(a.citations) + "]"] }

  lemma CanonicalTells(a: Args, b: Args)
    requires CleanArgs(a) && CleanArgs(b) && Join(Canonical(a)) == Join(Canonical(b))
    ensures a.account == b.account && a.period == b.period && a.rationale == b.rationale && a.citations == b.citations
  {
    hide Join, Split;
    ListedIsClean(a.citations);
    ListedIsClean(b.citations);
    SplitUndoesJoin(Canonical(a));
    SplitUndoesJoin(Canonical(b));
    var x, y := Canonical(a), Canonical(b);
    assert x == y;
    assert x[0] == a.account && x[1] == a.period && x[2] == a.rationale;
    assert x[3][1..|x[3]| - 1] == Listed(a.citations) && y[3][1..|y[3]| - 1] == Listed(b.citations);
    ListedTells(a.citations, b.citations);
  }

  /** Without collisions the argument digest of separator-free arguments tells account, period, rationale and
      citations. */
  lemma DigestTellsArgs(digest: string -> string, a: Args, b: Args)
    requires CleanArgs(a) && CleanArgs(b)
    requires forall x, y :: digest(x) == digest(y) ==> x == y
    ensures ArgsDigest(digest, a) == ArgsDigest(digest, b)
       <==> a.account == b.account && a.period == b.period && a.rationale == b.rationale && a.citations == b.citations
  {
    if ArgsDigest(digest, a) == ArgsDigest(digest, b) {
      CanonicalTells(a, b);
    }
  }

  // ---- what may go wrong, and when ---------------------------------------------------------------------------

  /** Calls may be opened at any time. A call that is not over may be lost with its server at any time, a
      transaction may be aborted at any time, and one with its row inserted may commit with or without its
      caller hearing of it. */
  lemma FaultsAnywhere(s: State, args: Args, id: Identity, i: nat)
    requires i < |s.calls|
    ensures Enabled(s, Open(args, id))
    ensures Enabled(s, Event.Crash(i)) <==> !(s.calls[i].pc.Returned? || s.calls[i].pc.Thrown? || s.calls[i].pc.Dead?)
    ensures Enabled(s, Abort(i)) <==> s.calls[i].stage != Idle
    ensures s.calls[i].stage.Inserted? ==> Enabled(s, Lost(i))
  {
  }

  // ---- rows and drafts say what was asked ------------------------------------------------------------------

  /** Some call was opened with these arguments by this caller. */
  predicate Asked(events: seq<Event>, a: Args, id: Identity) {
    exists j :: 0 <= j < |events| && events[j] == Open(a, id)
  }

  /** The draft holds the arguments of a call whose caller may write and whose input is acceptable. */
  predicate Answers(d: Draft, a: Args, id: Identity, required: nat) {
    && d.account == a.account && d.period == a.period && d.rationale == a.rationale && d.citations == a.citations
    && d.runId == a.runId && d.clearance == id.clearance && Grants(id.clearance, required) && Acceptable(a)
  }

  predicate AnswersCall(s: State, d: Draft, required: nat) {
    exists i :: 0 <= i < |s.calls| && Answers(d, s.calls[i].args, s.calls[i].id, required)
  }

  predicate TableOk(s: State, required: nat) {
    forall a :: 0 <= a < |s.drafts| ==> AnswersCall(s, s.drafts[a], required)
  }

  lemma CallsStay(digest: string -> string, required: nat, s: State, e: Event)
    requires Enabled(s, e)
    ensures var t := Next(digest, required, s, e);
            && |s.calls| <= |t.calls| <= |s.calls| + (if e.Open? then 1 else 0)
            && (forall i :: 0 <= i < |s.calls| ==> t.calls[i].args == s.calls[i].args && t.calls[i].id == s.calls[i].id)
            && (|t.calls| > |s.calls| ==> e == Open(t.calls[|s.calls|].args, t.calls[|s.calls|].id))
  {
  }

  lemma DraftsGrow(digest: string -> string, required: nat, s: State, e: Event)
    requires Inv(digest, required, s) && Enabled(s, e)
    ensures var t := Next(digest, required, s, e);
            t.drafts == s.drafts
            || (!e.Open? && e.i < |s.calls| && s.calls[e.i].draft.Some?
                && t.drafts == s.drafts + [s.calls[e.i].draft.value]
                && Answers(s.calls[e.i].draft.value, s.calls[e.i].args, s.calls[e.i].id, required))
  {
    hide AtLeast, ValidInput, RowOf, ChainOk, RefsOk, TraceOk, ReturnOk, RowOk, Grants, Acceptable;
    if !e.Open? {
      assert DraftOk(s, required, e.i);
      ClearedExactly(s.calls[e.i].id.clearance, required);
      ValidExactly(s.calls[e.i].args);
    }
  }

  lemma StepKeepsTable(digest: string -> string, required: nat, s: State, e: Event)
    requires Inv(digest, required, s) && Enabled(s, e) && TableOk(s, required)
    ensures TableOk(Next(digest, required, s, e), required)
  {
    hide Answers, Inv, Next, Enabled;
    var t := Next(digest, required, s, e);
    CallsStay(digest, required, s, e);
    DraftsGrow(digest, required, s, e);
    forall a | 0 <= a < |t.drafts| ensures AnswersCall(t, t.drafts[a], required) {
      if a < |s.drafts| {
        assert t.drafts[a] == s.drafts[a];
        var i :| 0 <= i < |s.calls| && Answers(s.drafts[a], s.calls[i].args, s.calls[i].id, required);
        assert Answers(t.drafts[a], t.calls[i].args, t.calls[i].id, required);
      } else {
        assert Answers(t.drafts[a], t.calls[e.i].args, t.calls[e.i].id, required);
      }
    }
  }

  lemma {:induction false} RunKeepsTable(digest: string -> string, required: nat, s: State, events: seq<Event>)
    requires Inv(digest, required, s) && Possible(digest, required, s, events) && TableOk(s, required)
    ensures TableOk(Run(digest, required, s, events), required)
    decreases |events|
  {
    hide Inv, TableOk, Next;
    if events != [] {
      StepKeepsTable(digest, required, s, events[0]);
      StepKeepsInv(digest, required, s, events[0]);
      RunKeepsTable(digest, required, Next(digest, required, s, events[0]), events[1..]);
    }
  }

  /** Every call beyond those there at first was opened by an event of the run. */
  lemma {:induction false} CallsWereAsked(digest: string -> string, required: nat, s: State, events: seq<Event>, i: nat)
    requires Possible(digest, required, s, events) && i < |Run(digest, required, s, events).calls|
    ensures var c := Run(digest, required, s, events).calls[i];
            if i < |s.calls| then c.args == s.calls[i].args && c.id == s.calls[i].id else Asked(events, c.args, c.id)
    decreases |events|
  {
    hide Next, Enabled;
    if events != [] {
      var t := Next(digest, required, s, events[0]);
      CallsStay(digest, required, s, events[0]);
      CallsWereAsked(digest, required, t, events[1..], i);
      var c := Run(digest, required, s, events).calls[i];
      if i >= |t.calls| {
        var j :| 0 <= j < |events[1..]| && events[1..][j] == Open(c.args, c.id);
        assert events[j + 1] == Open(c.args, c.id);
      } else if i >= |s.calls| {
        assert events[0] == Open(c.args, c.id);
      }
    }
  }

  /** On every run, each draft holds exactly what one call asked for, and that call's caller had a label that
      meets the requirement. */
  lemma DraftsSayWhatWasAsked(digest: string -> string, required: nat, events: seq<Event>, a: nat)
    requires Possible(digest, required, INIT, events) && a < |Run(digest, required, INIT, events).drafts|
    ensures exists args, id :: Asked(events, args, id)
              && Answers(Run(digest, required, INIT, events).drafts[a], args, id, required)
  {
    InitHoldsInv(digest, required);
    RunKeepsTable(digest, required, INIT, events);
    var s := Run(digest, required, INIT, events);
    assert AnswersCall(s, s.drafts[a], required);
    var i :| 0 <= i < |s.calls| && Answers(s.drafts[a], s.calls[i].args, s.calls[i].id, required);
    CallsWereAsked(digest, required, INIT, events, i);
  }

  /** The row names the call it is about. */
  predicate Names(digest: string -> string, r: Row, a: Args, id: Identity) {
    && r.runId == a.runId && r.tool == "open_draft_sar" && r.caller == id.caller && r.clearance == id.clearance
    && r.argsDigest == digest(Join(Canonical(a)))
  }

  /** On every run, each row names one call that was asked for. A SUCCESS row has a label that meets the
      requirement, acceptable input and a reference; a DENIED row a label that does not meet it; and no other
      row than SUCCESS has a reference. */
  lemma RowsSayWhatWasAsked(digest: string -> string, required: nat, events: seq<Event>, k: nat)
    requires Possible(digest, required, INIT, events) && k < |Run(digest, required, INIT, events).log|
    ensures var r := Run(digest, required, INIT, events).log[k];
            && (r.phase == Success ==> Grants(r.clearance, required))
            && (r.phase == Denied ==> !Grants(r.clearance, required))
            && (r.phase == Success <==> r.resultRef.Some?)
            && exists args, id :: Asked(events, args, id) && Names(digest, r, args, id)
                                  && (r.phase == Success ==> Acceptable(args))
  {
    hide Grants, Acceptable;
    InitHoldsInv(digest, required);
    RunKeepsInv(digest, required, INIT, events);
    var s := Run(digest, required, INIT, events);
    var i := s.owners[k];
    assert RowOk(digest, s, required, k);
    CallsWereAsked(digest, required, INIT, events, i);
    ClearedExactly(s.log[k].clearance, required);
    ValidExactly(s.calls[i].args);
    assert Names(digest, s.log[k], s.calls[i].args, s.calls[i].id);
  }
}
