/** The hash-chained audit log: canonical encoding, row hashes, verification, and what tampering shows. */
module AuditChain {
  import opened Text

  /** The unit separator between canonical fields. */
  const US := '\U{1F}'

  const ZEROS := "00000000"

  /** The link of the first row: 64 zeros. */
  const GENESIS := (ZEROS + ZEROS + ZEROS + ZEROS) + (ZEROS + ZEROS + ZEROS + ZEROS)

  datatype Phase = Attempt | Approved | Rejected | Success | Denied | Error

  function Name(p: Phase): string {
    match p
    case Attempt => "ATTEMPT"
    case Approved => "APPROVED"
    case Rejected => "REJECTED"
    case Success => "SUCCESS"
    case Denied => "DENIED"
    case Error => "ERROR"
  }

  /** `ts` is the ISO-8601 text of the row's instant. */
  datatype Row = Row(seqNo: int, ts: string, runId: string, tool: string, phase: Phase, caller: string,
                     clearance: string, argsDigest: string, resultRef: Option<string>,
                     prevHash: string, rowHash: string)

  function OrEmpty(s: Option<string>): string { if s.None? then "" else s.value }

  function Fields(r: Row): seq<string> {
    [r.ts, r.runId, r.tool, Name(r.phase), r.caller, r.clearance, r.argsDigest, OrEmpty(r.resultRef)]
  }

  function Join(fields: seq<string>): string {
    if fields == [] then ""
    else if |fields| == 1 then fields[0]
    else fields[0] + [US] + Join(fields[1..])
  }

  function Preimage(prevHash: string, fields: seq<string>): string { prevHash + [US] + Join(fields) }

  function RowHash(digest: string -> string, r: Row): string { digest(Preimage(r.prevHash, Fields(r))) }

  // ---- the encoding -----------------------------------------------------------------------------

  predicate Clean(s: string) { US !in s }

  predicate AllClean(fields: seq<string>) { forall k :: 0 <= k < |fields| ==> Clean(fields[k]) }

  function Split(s: string): (parts: seq<string>)
    ensures parts != []
  {
    if s == "" then [""]
    else
      var rest := Split(s[1..]);
      if s[0] == US then [""] + rest else [[s[0]] + rest[0]] + rest[1..]
  }

  lemma {:induction false} SplitIsClean(s: string)
    ensures AllClean(Split(s))
  {
    if s != "" { SplitIsClean(s[1..]); }
  }

  lemma {:induction false} SplitClean(s: string)
    requires Clean(s)
    ensures Split(s) == [s]
  {
    if s != "" {
      SplitClean(s[1..]);
      assert [s[0]] + s[1..] == s;
    }
  }

  lemma {:induction false} SplitHead(s: string, t: string)
    requires Clean(s)
    ensures Split(s + [US] + t) == [s] + Split(t)
  {
    var whole := s + [US] + t;
    if s == "" {
      assert whole[1..] == t;
    } else {
      assert whole[1..] == s[1..] + [US] + t;
      SplitHead(s[1..], t);
      assert whole[0] == s[0] && [s[0]] + s[1..] == s;
      assert ([s[1..]] + Split(t))[1..] == Split(t);
    }
  }

  /** Splitting undoes joining exactly when no field holds the separator. */
  lemma {:induction false} SplitUndoesJoin(fields: seq<string>)
    requires fields != []
    ensures Split(Join(fields)) == fields <==> AllClean(fields)
  {
    SplitIsClean(Join(fields));
    if AllClean(fields) {
      if |fields| == 1 {
        SplitClean(fields[0]);
      } else {
        SplitUndoesJoin(fields[1..]);
        SplitHead(fields[0], Join(fields[1..]));
      }
    }
  }

  /** Equal preimages have equal links, and equal fields when the fields are clean. */
  lemma PreimageInjective(p: string, fs: seq<string>, q: string, gs: seq<string>)
    requires Clean(p) && Clean(q) && fs != [] && gs != []
    requires Preimage(p, fs) == Preimage(q, gs)
    ensures p == q
    ensures AllClean(fs) && AllClean(gs) ==> fs == gs
  {
    SplitHead(p, Join(fs));
    SplitHead(q, Join(gs));
    assert [p] + Split(Join(fs)) == [q] + Split(Join(gs));
    assert ([p] + Split(Join(fs)))[0] == p && ([q] + Split(Join(gs)))[0] == q;
    assert ([p] + Split(Join(fs)))[1..] == Split(Join(fs)) && ([q] + Split(Join(gs)))[1..] == Split(Join(gs));
    SplitUndoesJoin(fs);
    SplitUndoesJoin(gs);
  }

  /** The row with what follows a separator in its run id moved to the front of the tool name. */
  function Shifted(r: Row, a: string, b: string): Row { r.(runId := a, tool := b + [US] + r.tool) }

  /** With a separator inside a field the encoding is ambiguous: whatever the tool, a row whose run id holds
      one shares its hash, under every digest, with a row of another run and another tool. */
  lemma SeparatorMakesRowsCollide(digest: string -> string, r: Row, a: string, b: string)
    requires r.runId == a + [US] + b
    ensures Shifted(r, a, b).runId != r.runId && Shifted(r, a, b).tool != r.tool
    ensures RowHash(digest, Shifted(r, a, b)) == RowHash(digest, r)
  {
    var t := Shifted(r, a, b);
    var first, tail := Fields(r)[0], Fields(r)[3..];
    assert Fields(t)[3..] == tail && tail != [];
    assert Fields(r) == [first] + ([r.runId] + ([r.tool] + tail));
    assert Fields(t) == [first] + ([t.runId] + ([t.tool] + tail));
    SeparatorMoves(first, a, b, r.tool, tail);
    assert |t.tool| > |r.tool| && |t.runId| < |r.runId|;
  }

  lemma JoinTwo(a: string, b: string, rest: seq<string>)
    requires rest != []
    ensures Join([a] + ([b] + rest)) == a + [US] + Join([b] + rest)
    ensures Join([b] + rest) == b + [US] + Join(rest)
  {
    assert ([a] + ([b] + rest))[1..] == [b] + rest;
    assert ([b] + rest)[1..] == rest;
  }

  lemma SeparatorMoves(first: string, a: string, b: string, c: string, tail: seq<string>)
    requires tail != []
    ensures Join([first] + ([a + [US] + b] + ([c] + tail))) == Join([first] + ([a] + ([b + [US] + c] + tail)))
  {
    JoinTwo(first, a + [US] + b, [c] + tail);
    JoinTwo(first, a, [b + [US] + c] + tail);
    JoinTwo(a + [US] + b, c, tail);
    JoinTwo(a, b + [US] + c, tail);
    Regroup(a, b, c, Join(tail));
  }

  lemma Regroup(a: string, b: string, c: string, rest: string)
    ensures (a + [US] + b) + [US] + (c + [US] + rest) == a + [US] + ((b + [US] + c) + [US] + rest)
  {
  }

  // ---- verification -----------------------------------------------------------------------------

  datatype Reason = Unlinked | WrongHash
  datatype Verdict = Intact(rows: nat) | Broken(seqNo: int, why: Reason)

  /** The row hash the k-th row must link to. */
  function Expected(rows: seq<Row>, k: nat): string
    requires k <= |rows|
  {
    if k == 0 then GENESIS else rows[k - 1].rowHash
  }

  /** The first link is sixty-four zeros. */
  lemma GenesisIsZeros()
    ensures |GENESIS| == 64 && forall i :: 0 <= i < 64 ==> GENESIS[i] == '0'
  {
    assert ZEROS == "00000000";
  }

  predicate Linked(rows: seq<Row>, k: nat)
    requires k < |rows|
  {
    rows[k].prevHash == Expected(rows, k)
  }

  predicate Sound(digest: string -> string, rows: seq<Row>, k: nat)
    requires k < |rows|
  {
    Linked(rows, k) && rows[k].rowHash == RowHash(digest, rows[k])
  }

  predicate Accepted(digest: string -> string, rows: seq<Row>) {
    forall k :: 0 <= k < |rows| ==> Sound(digest, rows, k)
  }

  /** k is the first row that does not check out, or the length when all do. */
  predicate FirstBroken(digest: string -> string, rows: seq<Row>, k: nat) {
    && k <= |rows|
    && (forall j :: 0 <= j < k ==> Sound(digest, rows, j))
    && (k < |rows| ==> !Sound(digest, rows, k))
  }

  function Report(rows: seq<Row>, k: nat): Verdict
    requires k <= |rows|
  {
    if k == |rows| then Intact(|rows|)
    else Broken(rows[k].seqNo, if Linked(rows, k) then WrongHash else Unlinked)
  }

  /** Reports the first broken row and why, or how many rows are intact. */
  method VerifyChain(digest: string -> string, rows: seq<Row>) returns (v: Verdict)
    ensures exists k :: FirstBroken(digest, rows, k) && v == Report(rows, k)
    ensures v.Intact? <==> Accepted(digest, rows)
  {
    var expectedPrev := GENESIS;
    for i := 0 to |rows|
      invariant expectedPrev == Expected(rows, i)
      invariant forall j :: 0 <= j < i ==> Sound(digest, rows, j)
    {
      var r := rows[i];
      if expectedPrev != r.prevHash {
        assert FirstBroken(digest, rows, i);
        return Broken(r.seqNo, Unlinked);
      }
      if RowHash(digest, r) != r.rowHash {
        assert FirstBroken(digest, rows, i);
        return Broken(r.seqNo, WrongHash);
      }
      expectedPrev := r.rowHash;
    }
    assert FirstBroken(digest, rows, |rows|);
    return Intact(|rows|);
  }

  /** Verification misses the exchange of such a row for its double, anywhere in any accepted log. */
  lemma ShiftGoesUnnoticed(digest: string -> string, rows: seq<Row>, k: nat, a: string, b: string)
    requires Accepted(digest, rows) && k < |rows| && rows[k].runId == a + [US] + b
    ensures rows[k := Shifted(rows[k], a, b)] != rows && Accepted(digest, rows[k := Shifted(rows[k], a, b)])
  {
    hide RowHash;
    var after := rows[k := Shifted(rows[k], a, b)];
    SeparatorMakesRowsCollide(digest, rows[k], a, b);
    assert after[k] != rows[k];
    assert forall j :: 0 <= j <= |rows| ==> Expected(after, j) == Expected(rows, j);
    forall j | 0 <= j < |rows| ensures Sound(digest, after, j) {
      assert Sound(digest, rows, j);
    }
  }

  lemma FirstBrokenUnique(digest: string -> string, rows: seq<Row>, k: nat, m: nat)
    requires FirstBroken(digest, rows, k) && FirstBroken(digest, rows, m)
    ensures k == m
  {
  }

  // ---- what acceptance proves -------------------------------------------------------------------

  function Hashed(r: Row): string { Preimage(r.prevHash, Fields(r)) }

  function Preimages(rows: seq<Row>): set<string> { set k | 0 <= k < |rows| :: Hashed(rows[k]) }

  /** The digest yields separator-free text, and is free of collisions on the strings at hand. */
  ghost predicate Strong(digest: string -> string, hashed: set<string>) {
    && (forall x :: Clean(digest(x)))
    && (forall x, y :: x in hashed && y in hashed && digest(x) == digest(y) ==> x == y)
    && (forall x :: x in hashed ==> digest(x) != GENESIS)
  }

  lemma LinksAreClean(digest: string -> string, rows: seq<Row>, k: nat, hashed: set<string>)
    requires Strong(digest, hashed) && Accepted(digest, rows) && k < |rows|
    ensures Clean(rows[k].prevHash) && rows[k].rowHash == digest(Hashed(rows[k])) && Hashed(rows[k]) in Preimages(rows)
    ensures rows[k].prevHash == Expected(rows, k)
  {
    assert Sound(digest, rows, k);
    if k > 0 {
      assert Sound(digest, rows, k - 1);
      assert rows[k].prevHash == digest(Hashed(rows[k - 1]));
    }
  }

  lemma FieldsPresent(r: Row)
    ensures Fields(r) != []
  {
  }

  /** All row hashes of an accepted log differ from each other and from the first link. */
  lemma {:induction false} HashesDistinct(digest: string -> string, rows: seq<Row>, i: nat, j: nat)
    requires Strong(digest, Preimages(rows)) && Accepted(digest, rows)
    requires i <= j < |rows|
    ensures rows[j].rowHash != GENESIS
    ensures i < j ==> rows[i].rowHash != rows[j].rowHash
  {
    hide Fields, Preimages, Sound;
    FieldsPresent(rows[i]);
    FieldsPresent(rows[j]);
    LinksAreClean(digest, rows, i, Preimages(rows));
    LinksAreClean(digest, rows, j, Preimages(rows));
    if i < j && rows[i].rowHash == rows[j].rowHash {
      PreimageInjective(rows[i].prevHash, Fields(rows[i]), rows[j].prevHash, Fields(rows[j]));
      if i == 0 {
        HashesDistinct(digest, rows, 0, j - 1);
      } else {
        HashesDistinct(digest, rows, i - 1, j - 1);
      }
      assert false;
    }
  }

  predicate SameHashedFields(r: Row, t: Row) {
    && r.ts == t.ts && r.runId == t.runId && r.tool == t.tool && r.phase == t.phase
    && r.caller == t.caller && r.clearance == t.clearance && r.argsDigest == t.argsDigest
    && OrEmpty(r.resultRef) == OrEmpty(t.resultRef)
    && r.prevHash == t.prevHash && r.rowHash == t.rowHash
  }

  lemma SameFields(r: Row, t: Row)
    requires Fields(r) == Fields(t)
    ensures r.ts == t.ts && r.runId == t.runId && r.tool == t.tool && r.phase == t.phase
    ensures r.caller == t.caller && r.clearance == t.clearance && r.argsDigest == t.argsDigest
    ensures OrEmpty(r.resultRef) == OrEmpty(t.resultRef)
  {
    var f, g := Fields(r), Fields(t);
    assert f[0] == g[0] && f[1] == g[1] && f[2] == g[2] && f[4] == g[4] && f[5] == g[5] && f[6] == g[6] && f[7] == g[7];
    assert f[3] == g[3];
    NamesDistinct(r.phase, t.phase);
  }

  lemma NamesDistinct(p: Phase, q: Phase)
    requires Name(p) == Name(q)
    ensures p == q
  {
    assert Name(p)[0] == Name(q)[0] && Name(p)[1] == Name(q)[1] && |Name(p)| == |Name(q)|;
  }

  predicate CleanRows(rows: seq<Row>) { forall k :: 0 <= k < |rows| ==> AllClean(Fields(rows[k])) }

  /** The hash the log ends in. */
  function Tip(rows: seq<Row>): string { Expected(rows, |rows|) }

  lemma PrefixAccepted(digest: string -> string, rows: seq<Row>, n: nat)
    requires Accepted(digest, rows) && n <= |rows|
    ensures Accepted(digest, rows[..n]) && Preimages(rows[..n]) <= Preimages(rows)
    ensures Tip(rows[..n]) == Expected(rows, n)
  {
    forall k | 0 <= k < n ensures Sound(digest, rows[..n], k) {
      assert Sound(digest, rows, k);
    }
    forall x | x in Preimages(rows[..n]) ensures x in Preimages(rows) {
      var k :| 0 <= k < n && x == Hashed(rows[..n][k]);
      assert x == Hashed(rows[k]);
    }
  }

  lemma NotGenesis(digest: string -> string, rows: seq<Row>, k: nat, hashed: set<string>)
    requires Strong(digest, hashed) && Preimages(rows) <= hashed && Accepted(digest, rows) && k < |rows|
    ensures rows[k].rowHash != GENESIS
  {
    LinksAreClean(digest, rows, k, hashed);
  }

  lemma RowsAgree(digest: string -> string, a: seq<Row>, b: seq<Row>, m: nat, n: nat)
    requires Strong(digest, Preimages(a) + Preimages(b))
    requires Accepted(digest, a) && Accepted(digest, b) && CleanRows(a) && CleanRows(b)
    requires m < |a| && n < |b| && a[m].rowHash == b[n].rowHash
    ensures SameHashedFields(a[m], b[n]) && Expected(a, m) == Expected(b, n)
  {
    var hashed := Preimages(a) + Preimages(b);
    LinksAreClean(digest, a, m, hashed);
    LinksAreClean(digest, b, n, hashed);
    PreimageInjective(a[m].prevHash, Fields(a[m]), b[n].prevHash, Fields(b[n]));
    SameFields(a[m], b[n]);
  }

  lemma {:induction false} SameLinkSamePast(digest: string -> string, a: seq<Row>, b: seq<Row>, m: nat, n: nat)
    requires Strong(digest, Preimages(a) + Preimages(b))
    requires Accepted(digest, a) && Accepted(digest, b) && CleanRows(a) && CleanRows(b)
    requires m <= |a| && n <= |b| && Expected(a, m) == Expected(b, n)
    ensures m == n
    ensures forall k :: 0 <= k < m ==> SameHashedFields(a[k], b[k])
    decreases m
  {
    hide Fields, Preimages, Strong, Sound, AllClean;
    if m == 0 && n > 0 {
      NotGenesis(digest, b, n - 1, Preimages(a) + Preimages(b));
    } else if m > 0 && n == 0 {
      NotGenesis(digest, a, m - 1, Preimages(a) + Preimages(b));
    } else if m > 0 {
      RowsAgree(digest, a, b, m - 1, n - 1);
      SameLinkSamePast(digest, a, b, m - 1, n - 1);
    }
  }

  /** Two accepted logs that end in the same hash have the same length and agree on every hashed field
      of every row. */
  lemma SameTipSameLog(digest: string -> string, a: seq<Row>, b: seq<Row>)
    requires Strong(digest, Preimages(a) + Preimages(b))
    requires Accepted(digest, a) && Accepted(digest, b) && CleanRows(a) && CleanRows(b)
    requires Tip(a) == Tip(b)
    ensures |a| == |b|
    ensures forall k :: 0 <= k < |a| ==> SameHashedFields(a[k], b[k])
  {
    SameLinkSamePast(digest, a, b, |a|, |b|);
  }

  // ---- what tampering shows -----------------------------------------------------------------------

  /** Rows i and j of an accepted log link to the same hash only when they are the same row. */
  lemma LinkedOnce(digest: string -> string, rows: seq<Row>, i: nat, j: nat)
    requires Strong(digest, Preimages(rows)) && Accepted(digest, rows) && i < |rows| && j <= |rows|
    requires rows[i].prevHash == Expected(rows, j)
    ensures i == j
  {
    LinksAreClean(digest, rows, i, Preimages(rows));
    if i < j {
      HashesDistinct(digest, rows, if i == 0 then 0 else i - 1, j - 1);
    } else if j < i {
      HashesDistinct(digest, rows, if j == 0 then 0 else j - 1, i - 1);
    }
  }

  predicate DrawnFrom(copy: seq<Row>, rows: seq<Row>) {
    forall k :: 0 <= k < |copy| ==> copy[k] in rows
  }

  /** The longest prefix the two lists share has length k. */
  predicate CommonPrefix(copy: seq<Row>, rows: seq<Row>, k: nat) {
    && k <= |copy| && k <= |rows| && copy[..k] == rows[..k]
    && (k < |copy| && k < |rows| ==> copy[k] != rows[k])
  }

  /** However the rows of an accepted log are dropped, repeated or reordered, the verifier reports the
      first row that is out of place, as unlinked; only a prefix of the log is accepted. */
  lemma RearrangementReported(digest: string -> string, rows: seq<Row>, copy: seq<Row>, k: nat)
    requires Strong(digest, Preimages(rows)) && Accepted(digest, rows)
    requires DrawnFrom(copy, rows) && CommonPrefix(copy, rows, k)
    ensures FirstBroken(digest, copy, k)
    ensures k < |copy| ==> Report(copy, k) == Broken(copy[k].seqNo, Unlinked)
  {
    forall j | 0 <= j < k ensures Sound(digest, copy, j) {
      assert Sound(digest, rows, j);
      assert copy[..k][j] == rows[..k][j];
      if j > 0 { assert copy[..k][j - 1] == rows[..k][j - 1]; }
    }
    if k < |copy| {
      var i :| 0 <= i < |rows| && copy[k] == rows[i];
      assert Expected(copy, k) == Expected(rows, k) by {
        if k > 0 { assert copy[..k][k - 1] == rows[..k][k - 1]; }
      }
      if Linked(copy, k) {
        LinkedOnce(digest, rows, i, k);
        assert false;
      }
    }
  }

  function Without(rows: seq<Row>, i: nat, j: nat): seq<Row>
    requires i <= j <= |rows|
  {
    rows[..i] + rows[j..]
  }

  lemma WithoutBlock(digest: string -> string, rows: seq<Row>, i: nat, j: nat)
    requires Strong(digest, Preimages(rows)) && Accepted(digest, rows) && i < j <= |rows|
    ensures var cut := Without(rows, i, j);
            DrawnFrom(cut, rows) && CommonPrefix(cut, rows, i) && |cut| == |rows| - (j - i)
            && (i < |cut| ==> cut[i] == rows[j])
  {
    var cut := Without(rows, i, j);
    assert cut[..i] == rows[..i];
    if i < |cut| {
      LinksAreClean(digest, rows, i, Preimages(rows));
      LinksAreClean(digest, rows, j, Preimages(rows));
      if rows[j] == rows[i] {
        LinkedOnce(digest, rows, j, i);
        assert false;
      }
    }
  }

  /** Removing rows i..j of an accepted log is reported at the first row after the gap; it goes
      unnoticed exactly when the rows removed are the last ones. */
  lemma RemovalReported(digest: string -> string, rows: seq<Row>, i: nat, j: nat)
    requires Strong(digest, Preimages(rows)) && Accepted(digest, rows) && i < j <= |rows|
    ensures Accepted(digest, Without(rows, i, j)) <==> j == |rows|
    ensures j < |rows| ==> FirstBroken(digest, Without(rows, i, j), i)
                           && Report(Without(rows, i, j), i) == Broken(rows[j].seqNo, Unlinked)
  {
    WithoutBlock(digest, rows, i, j);
    RearrangementReported(digest, rows, Without(rows, i, j), i);
  }

  /** Changing one row and leaving its two hashes alone is reported at that row, exactly when a hashed
      field changed. */
  lemma ChangeReported(digest: string -> string, rows: seq<Row>, k: nat, changed: Row)
    requires k < |rows| && Accepted(digest, rows) && CleanRows(rows) && AllClean(Fields(changed))
    requires Strong(digest, Preimages(rows) + {Hashed(changed)})
    requires changed.prevHash == rows[k].prevHash && changed.rowHash == rows[k].rowHash
    ensures Accepted(digest, rows[k := changed]) <==> SameHashedFields(changed, rows[k])
    ensures !SameHashedFields(changed, rows[k]) ==>
              FirstBroken(digest, rows[k := changed], k)
              && Report(rows[k := changed], k) == Broken(changed.seqNo, WrongHash)
  {
    hide Preimage;
    var after := rows[k := changed];
    assert forall j :: 0 <= j <= |rows| ==> Expected(after, j) == Expected(rows, j);
    forall j | 0 <= j < |rows| && j != k ensures Sound(digest, after, j) {
      assert Sound(digest, rows, j);
    }
    LinksAreClean(digest, rows, k, Preimages(rows));
    assert Linked(after, k);
    if SameHashedFields(changed, rows[k]) {
      assert Fields(changed) == Fields(rows[k]);
      assert Sound(digest, after, k);
    } else if Sound(digest, after, k) {
      assert digest(Hashed(changed)) == digest(Hashed(rows[k]));
      PreimageInjective(changed.prevHash, Fields(changed), rows[k].prevHash, Fields(rows[k]));
      SameFields(changed, rows[k]);
      assert false;
    }
    if !SameHashedFields(changed, rows[k]) {
      assert !Sound(digest, after, k);
    }
  }

  /** The sequence number is not hashed, and a missing result counts as an empty one. */
  lemma UnhashedParts(digest: string -> string, r: Row, n: int)
    requires r.resultRef == None
    ensures RowHash(digest, r) == RowHash(digest, r.(seqNo := n, resultRef := Some("")))
  {
  }

  // ---- appending ------------------------------------------------------------------------------------

  lemma AppendAccepted(digest: string -> string, rows: seq<Row>, r: Row)
    requires Accepted(digest, rows) && r.prevHash == Tip(rows) && r.rowHash == RowHash(digest, r)
    ensures Accepted(digest, rows + [r])
  {
    var all := rows + [r];
    forall k | 0 <= k < |all| ensures Sound(digest, all, k) {
      if k < |rows| { assert Sound(digest, rows, k); }
    }
  }
}
