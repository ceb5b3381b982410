/** The governed tool call: ATTEMPT, the clearance re-check, and the draft written together with its
    SUCCESS row, under any interleaving of calls whose transactions may fail. */
module GovernedWrite {
  import opened Text
  import opened AuditChain
  import opened DraftRefs

  const TOOL := "open_draft_sar"

  // ---- clearance and input ----------------------------------------------------------------------

  const LABELS := ["public", "analyst", "compliance", "restricted"]

  predicate Labelled(s: string, k: nat)
    requires k < |LABELS|
  {
    |Strip(s)| == |LABELS[k]| && StartsWithCi(Strip(s), LABELS[k])
  }

  /** The rank of a clearance label, if it is one. */
  function Rank(clearance: string): Option<nat> {
    if Labelled(clearance, 0) then Some(0)
    else if Labelled(clearance, 1) then Some(1)
    else if Labelled(clearance, 2) then Some(2)
    else if Labelled(clearance, 3) then Some(3)
    else None
  }

  predicate AtLeast(clearance: string, required: nat) { Rank(clearance).Some? && Rank(clearance).value >= required }

  datatype Args = Args(account: string, period: string, rationale: string, citations: seq<int>, runId: string)
  datatype Identity = Identity(caller: string, clearance: string)

  const MAX_RATIONALE := 2000

  predicate IsDigit(c: char) { '0' <= c <= '9' }

  predicate IsPeriod(p: string) {
    && |p| == 7 && IsDigit(p[0]) && IsDigit(p[1]) && IsDigit(p[2]) && IsDigit(p[3])
    && p[4] == '-' && p[5] == 'Q' && '1' <= p[6] <= '4'
  }

  predicate ValidInput(a: Args) {
    && !Blank(a.account) && IsPeriod(a.period)
    && !Blank(a.rationale) && |a.rationale| <= MAX_RATIONALE && a.citations != []
  }

  function Listed(ns: seq<int>): string {
    if ns == [] then "" else DecimalInt(ns[0]) + (if |ns| == 1 then "" else ", " + Listed(ns[1..]))
  }

  function ArgsDigest(digest: string -> string, a: Args): string {
    digest(Join([a.account, a.period, a.rationale, "[" + Listed(a.citations) + "]"]))
  }

  datatype Draft = Draft(ref: string, account: string, period: string, rationale: string, citations: seq<int>,
                         clearance: string, runId: string)

  function DraftOf(a: Args, id: Identity, ref: string): Draft {
    Draft(ref, a.account, a.period, a.rationale, a.citations, id.clearance, a.runId)
  }

  // ---- calls and transactions -------------------------------------------------------------------

  /** Where a call stands. Returned and Thrown are what the client would see. */
  datatype Pc = Attempting | Rechecking | Denying | Validating | Drafting | Erroring
    | Returned(ref: string) | Thrown | Dead

  /** How far the transaction of the current append has come. */
  datatype Stage = Idle | Begun | Locked | TipRead(prevHash: string) | Inserted(row: Row)

  datatype Call = Call(args: Args, id: Identity, pc: Pc, stage: Stage, draft: Option<Draft>)

  /** `log` and `drafts` hold committed rows in commit order; `owners` names the call each log row came
      from. The counters are the database's sequences, which no rollback turns back. */
  datatype State = State(log: seq<Row>, owners: seq<nat>, drafts: seq<Draft>, nextSeq: nat, nextRef: nat,
                         lock: Option<nat>, calls: seq<Call>)

  const INIT := State([], [], [], 1, 1, None, [])

  predicate Appending(pc: Pc) { pc.Attempting? || pc.Denying? || pc.Drafting? || pc.Erroring? }

  predicate Final(pc: Pc) { pc.Returned? || pc.Thrown? || pc.Dead? }

  function PhaseOf(pc: Pc): Phase
    requires Appending(pc)
  {
    match pc
    case Attempting => Attempt
    case Denying => Denied
    case Drafting => Success
    case Erroring => Error
  }

  predicate Holding(stage: Stage) { stage.Locked? || stage.TipRead? || stage.Inserted? }

  /** The row hash a SELECT ... ORDER BY seq DESC LIMIT 1 yields. */
  function NewestHash(rows: seq<Row>): string {
    if rows == [] then GENESIS
    else
      var k := NewestIndex(rows);
      rows[k].rowHash
  }

  function NewestIndex(rows: seq<Row>): (k: nat)
    requires rows != []
    ensures k < |rows|
  {
    if |rows| == 1 then 0
    else
      var m := NewestIndex(rows[..|rows| - 1]);
      if rows[m].seqNo < rows[|rows| - 1].seqNo then |rows| - 1 else m
  }

  function RowOf(digest: string -> string, c: Call, prevHash: string, seqNo: int, ts: string): Row
    requires Appending(c.pc)
  {
    var bare := Row(seqNo, ts, c.args.runId, TOOL, PhaseOf(c.pc), c.id.caller, c.id.clearance,
                    ArgsDigest(digest, c.args), if c.draft.Some? then Some(c.draft.value.ref) else None, prevHash, "");
    bare.(rowHash := RowHash(digest, bare))
  }

  function AfterCommit(c: Call): Pc
    requires Appending(c.pc)
  {
    match c.pc
    case Attempting => Rechecking
    case Drafting => if c.draft.Some? then Returned(c.draft.value.ref) else Thrown
    case _ => Thrown
  }

  function AfterFailure(pc: Pc): Pc { if pc.Drafting? then Erroring else Thrown }

  /** Lost: the transaction commits, but its caller gets an exception. Crash: the server loses the
      call, whatever it was doing. */
  datatype Event =
    | Open(args: Args, id: Identity)
    | Begin(i: nat)
    | WriteDraft(i: nat, year: nat)
    | Lock(i: nat)
    | ReadTip(i: nat)
    | Insert(i: nat, ts: string)
    | Commit(i: nat)
    | Lost(i: nat)
    | Abort(i: nat)
    | Recheck(i: nat)
    | Validate(i: nat)
    | Crash(i: nat)

  predicate Enabled(s: State, e: Event) {
    !e.Open? ==>
      && e.i < |s.calls|
      && var c := s.calls[e.i];
         match e
         case Begin(_) => Appending(c.pc) && c.stage.Idle?
         case WriteDraft(_, _) => c.pc.Drafting? && c.stage.Begun? && c.draft.None?
         case Lock(_) => c.stage.Begun? && s.lock.None? && (c.pc.Drafting? ==> c.draft.Some?)
         case ReadTip(_) => c.stage.Locked?
         case Insert(_, _) => c.stage.TipRead? && Appending(c.pc)
         case Commit(_) => c.stage.Inserted? && Appending(c.pc)
         case Lost(_) => c.stage.Inserted?
         case Abort(_) => !c.stage.Idle?
         case Recheck(_) => c.pc.Rechecking?
         case Validate(_) => c.pc.Validating?
         case Crash(_) => !Final(c.pc)
  }

  function SetCall(s: State, i: nat, c: Call): State
    requires i < |s.calls|
  {
    s.(calls := s.calls[i := c])
  }

  /** The end of a transaction without effect: the lock goes, the inserted rows vanish. */
  function RolledBack(s: State, i: nat, pc: Pc): State
    requires i < |s.calls|
  {
    var c := s.calls[i];
    SetCall(s.(lock := if Holding(c.stage) then None else s.lock), i, c.(pc := pc, stage := Idle, draft := None))
  }

  function Committed(s: State, i: nat, pc: Pc): State
    requires i < |s.calls| && s.calls[i].stage.Inserted?
  {
    var c := s.calls[i];
    SetCall(s.(log := s.log + [c.stage.row],
               owners := s.owners + [i],
               drafts := if c.draft.Some? then s.drafts + [c.draft.value] else s.drafts,
               lock := None),
            i, c.(pc := pc, stage := Idle, draft := None))
  }

  function Next(digest: string -> string, required: nat, s: State, e: Event): State
    requires Enabled(s, e)
  {
    if e.Open? then s.(calls := s.calls + [Call(e.args, e.id, Attempting, Idle, None)])
    else
      var i := e.i;
      var c := s.calls[i];
      match e
      case Begin(_) => SetCall(s, i, c.(stage := Begun))
      case WriteDraft(_, year) =>
        SetCall(s.(nextRef := s.nextRef + 1), i, c.(draft := Some(DraftOf(c.args, c.id, Ref(year, s.nextRef)))))
      case Lock(_) => SetCall(s.(lock := Some(i)), i, c.(stage := Locked))
      case ReadTip(_) => SetCall(s, i, c.(stage := TipRead(NewestHash(s.log))))
      case Insert(_, ts) =>
        SetCall(s.(nextSeq := s.nextSeq + 1), i,
                c.(stage := Inserted(RowOf(digest, c, c.stage.prevHash, s.nextSeq, ts))))
      case Commit(_) => Committed(s, i, AfterCommit(c))
      case Lost(_) => Committed(s, i, AfterFailure(c.pc))
      case Abort(_) => RolledBack(s, i, AfterFailure(c.pc))
      case Recheck(_) => SetCall(s, i, c.(pc := if AtLeast(c.id.clearance, required) then Validating else Denying))
      case Validate(_) => SetCall(s, i, c.(pc := if ValidInput(c.args) then Drafting else Erroring))
      case Crash(_) => RolledBack(s, i, Dead)
  }

  predicate Possible(digest: string -> string, required: nat, s: State, events: seq<Event>)
    decreases |events|
  {
    events != [] ==>
      Enabled(s, events[0]) && Possible(digest, required, Next(digest, required, s, events[0]), events[1..])
  }

  function Run(digest: string -> string, required: nat, s: State, events: seq<Event>): State
    requires Possible(digest, required, s, events)
    decreases |events|
  {
    if events == [] then s else Run(digest, required, Next(digest, required, s, events[0]), events[1..])
  }

  // ---- the invariant ------------------------------------------------------------------------------

  predicate Increasing(rows: seq<Row>) { forall j, k :: 0 <= j < k < |rows| ==> rows[j].seqNo < rows[k].seqNo }

  /** The committed log is a chain the verifier accepts, in increasing sequence order. */
  predicate ChainOk(digest: string -> string, s: State) {
    && Accepted(digest, s.log) && Increasing(s.log) && |s.owners| == |s.log|
    && (forall k :: 0 <= k < |s.log| ==> s.log[k].seqNo < s.nextSeq)
  }

  predicate LockOk(digest: string -> string, s: State, i: nat)
    requires i < |s.calls|
  {
    var c := s.calls[i];
    && (c.stage.Idle? || Appending(c.pc))
    && (Holding(c.stage) <==> s.lock == Some(i))
    && (c.stage.TipRead? ==> c.stage.prevHash == Tip(s.log))
    && (c.stage.Inserted? ==>
          && c.stage.row == RowOf(digest, c, Tip(s.log), c.stage.row.seqNo, c.stage.row.ts)
          && c.stage.row.seqNo < s.nextSeq
          && forall k :: 0 <= k < |s.log| ==> s.log[k].seqNo < c.stage.row.seqNo)
  }

  predicate DraftOk(s: State, required: nat, i: nat)
    requires i < |s.calls|
  {
    var c := s.calls[i];
    && (c.pc.Validating? || c.pc.Drafting? ==> AtLeast(c.id.clearance, required))
    && (c.pc.Drafting? ==> ValidInput(c.args))
    && (c.pc.Denying? ==> !AtLeast(c.id.clearance, required))
    && (c.draft.Some? ==> c.pc.Drafting? && !c.stage.Idle? && c.draft.value == DraftOf(c.args, c.id, c.draft.value.ref))
    && (c.pc.Drafting? && Holding(c.stage) ==> c.draft.Some?)
  }

  /** The phases of the rows a call has written, in log order. */
  function Trace(rows: seq<Row>, owners: seq<nat>, i: nat): seq<Phase>
    requires |rows| == |owners|
  {
    if rows == [] then []
    else
      var n := |rows| - 1;
      Trace(rows[..n], owners[..n], i) + (if owners[n] == i then [rows[n].phase] else [])
  }

  predicate TraceFits(pc: Pc, trace: seq<Phase>) {
    match pc
    case Attempting => trace == []
    case Rechecking => trace == [Attempt]
    case Denying => trace == [Attempt]
    case Validating => trace == [Attempt]
    case Drafting => trace == [Attempt]
    case Erroring => trace == [Attempt] || trace == [Attempt, Success]
    case Returned(_) => trace == [Attempt, Success]
    case _ => Protocol(trace)
  }

  /** What a call may ever leave in the log. The last one is a draft whose commit was not reported. */
  predicate Protocol(trace: seq<Phase>) {
    || trace == [] || trace == [Attempt] || trace == [Attempt, Denied] || trace == [Attempt, Error]
    || trace == [Attempt, Success] || trace == [Attempt, Success, Error]
  }

  predicate TraceOk(s: State, i: nat)
    requires i < |s.calls| && |s.log| == |s.owners|
  {
    TraceFits(s.calls[i].pc, Trace(s.log, s.owners, i))
  }

  /** A row carries its call's own data; SUCCESS and DENIED agree with the clearance re-check. */
  predicate RowOk(digest: string -> string, s: State, required: nat, k: nat)
    requires k < |s.log| == |s.owners|
  {
    var r := s.log[k];
    && s.owners[k] < |s.calls|
    && var c := s.calls[s.owners[k]];
       && r.runId == c.args.runId && r.tool == TOOL && r.caller == c.id.caller && r.clearance == c.id.clearance
       && r.argsDigest == ArgsDigest(digest, c.args)
       && (r.phase == Success ==> AtLeast(r.clearance, required) && ValidInput(c.args) && r.resultRef.Some?)
       && (r.phase == Denied ==> !AtLeast(r.clearance, required))
       && (r.phase != Success ==> r.resultRef.None?)
  }

  datatype Written = Written(ref: string, runId: string, clearance: string)

  function OnRecord(rows: seq<Row>): seq<Written> {
    if rows == [] then []
    else
      var r := rows[|rows| - 1];
      OnRecord(rows[..|rows| - 1])
      + (if r.phase == Success then [Written(OrEmpty(r.resultRef), r.runId, r.clearance)] else [])
  }

  function InTable(drafts: seq<Draft>): seq<Written> {
    if drafts == [] then []
    else
      var d := drafts[|drafts| - 1];
      InTable(drafts[..|drafts| - 1]) + [Written(d.ref, d.runId, d.clearance)]
  }

  /** The drafts in the table are those on record, in the same order, and no reference was used twice,
      committed or in flight. */
  predicate RefsOk(s: State) { OnRecord(s.log) == InTable(s.drafts) && RefsUnique(s) }

  predicate RefsUnique(s: State) { TableUnique(s) && forall i :: 0 <= i < |s.calls| ==> FlightUnique(s, i) }

  /** The references of the table were drawn from the counter, each once. */
  predicate TableUnique(s: State) {
    && (forall a, b :: 0 <= a < b < |s.drafts| ==> NumberOf(s.drafts[a].ref) != NumberOf(s.drafts[b].ref))
    && (forall a :: 0 <= a < |s.drafts| ==> NumberOf(s.drafts[a].ref) < s.nextRef)
  }

  predicate FlightUnique(s: State, i: nat)
    requires i < |s.calls|
  {
    s.calls[i].draft.Some? ==>
      var n := NumberOf(s.calls[i].draft.value.ref);
      && n < s.nextRef
      && (forall a :: 0 <= a < |s.drafts| ==> NumberOf(s.drafts[a].ref) != n)
      && (forall j :: 0 <= j < |s.calls| && j != i && s.calls[j].draft.Some?
            ==> NumberOf(s.calls[j].draft.value.ref) != n)
  }
  /** A call that returned left its SUCCESS row. */
  predicate ReturnOk(s: State, i: nat)
    requires i < |s.calls| && |s.log| == |s.owners|
  {
    s.calls[i].pc.Returned? ==>
      exists k :: 0 <= k < |s.log| && s.owners[k] == i && s.log[k].phase == Success
                  && s.log[k].resultRef == Some(s.calls[i].pc.ref)
  }

  predicate Inv(digest: string -> string, required: nat, s: State) {
    && ChainOk(digest, s) && RefsOk(s)
    && (s.lock.Some? ==> s.lock.value < |s.calls|)
    && (forall i :: 0 <= i < |s.calls| ==> LockOk(digest, s, i))
    && (forall i :: 0 <= i < |s.calls| ==> DraftOk(s, required, i))
    && (forall i :: 0 <= i < |s.calls| ==> TraceOk(s, i))
    && (forall i :: 0 <= i < |s.calls| ==> ReturnOk(s, i))
    && (forall k :: 0 <= k < |s.log| ==> RowOk(digest, s, required, k))
  }

  // ---- every step keeps the invariant ---------------------------------------------------------------

  lemma {:induction false} NewestIsLast(rows: seq<Row>)
    requires Increasing(rows)
    ensures NewestHash(rows) == Tip(rows)
    ensures rows != [] ==> NewestIndex(rows) == |rows| - 1
  {
    if |rows| > 1 {
      NewestIsLast(rows[..|rows| - 1]);
    }
  }

  lemma TraceGrows(rows: seq<Row>, owners: seq<nat>, r: Row, owner: nat, i: nat)
    requires |rows| == |owners|
    ensures Trace(rows + [r], owners + [owner], i)
         == if owner == i then Trace(rows, owners, i) + [r.phase] else Trace(rows, owners, i)
  {
    assert (rows + [r])[..|rows|] == rows && (owners + [owner])[..|rows|] == owners;
  }

  lemma RecordGrows(rows: seq<Row>, r: Row)
    ensures OnRecord(rows + [r])
         == OnRecord(rows) + (if r.phase == Success then [Written(OrEmpty(r.resultRef), r.runId, r.clearance)] else [])
  {
    assert (rows + [r])[..|rows|] == rows;
  }

  lemma TableGrows(drafts: seq<Draft>, d: Draft)
    ensures InTable(drafts + [d]) == InTable(drafts) + [Written(d.ref, d.runId, d.clearance)]
  {
    assert (drafts + [d])[..|drafts|] == drafts;
  }

  /** Nothing is committed, only call i changes, and only it takes or gives back the lock. */
  predicate Quiet(s: State, t: State, i: nat) {
    && t.log == s.log && t.owners == s.owners && t.drafts == s.drafts
    && s.nextSeq <= t.nextSeq && s.nextRef <= t.nextRef
    && i < |s.calls| == |t.calls|
    && t.calls[i].args == s.calls[i].args && t.calls[i].id == s.calls[i].id
    && (forall j :: 0 <= j < |s.calls| && j != i ==> t.calls[j] == s.calls[j])
    && (t.lock == s.lock || (s.lock.None? && t.lock == Some(i)) || (s.lock == Some(i) && t.lock.None?))
  }

  lemma QuietKeepsLocks(digest: string -> string, required: nat, s: State, t: State, i: nat)
    requires Inv(digest, required, s) && Quiet(s, t, i) && LockOk(digest, t, i)
    ensures ChainOk(digest, t) && forall j :: 0 <= j < |t.calls| ==> LockOk(digest, t, j)
  {
    forall j | 0 <= j < |t.calls| && j != i ensures LockOk(digest, t, j) {
      assert LockOk(digest, s, j);
    }
  }

  lemma QuietKeepsDrafts(digest: string -> string, required: nat, s: State, t: State, i: nat)
    requires Inv(digest, required, s) && Quiet(s, t, i) && DraftOk(t, required, i)
    ensures forall j :: 0 <= j < |t.calls| ==> DraftOk(t, required, j)
  {
    forall j | 0 <= j < |t.calls| && j != i ensures DraftOk(t, required, j) {
      assert DraftOk(s, required, j);
    }
  }

  lemma QuietKeepsTraces(digest: string -> string, required: nat, s: State, t: State, i: nat)
    requires Inv(digest, required, s) && Quiet(s, t, i) && TraceOk(t, i)
    ensures forall j :: 0 <= j < |t.calls| ==> TraceOk(t, j)
  {
    forall j | 0 <= j < |t.calls| && j != i ensures TraceOk(t, j) {
      assert TraceOk(s, j);
    }
  }

  lemma QuietKeepsReturns(digest: string -> string, required: nat, s: State, t: State, i: nat)
    requires Inv(digest, required, s) && Quiet(s, t, i) && (t.calls[i].pc.Returned? ==> t.calls[i].pc == s.calls[i].pc)
    ensures forall j :: 0 <= j < |t.calls| ==> ReturnOk(t, j)
  {
    forall j | 0 <= j < |t.calls| ensures ReturnOk(t, j) {
      assert ReturnOk(s, j);
    }
  }

  lemma QuietKeepsRows(digest: string -> string, required: nat, s: State, t: State, i: nat)
    requires Inv(digest, required, s) && Quiet(s, t, i)
    ensures forall k :: 0 <= k < |t.log| ==> RowOk(digest, t, required, k)
  {
    forall k | 0 <= k < |t.log| ensures RowOk(digest, t, required, k) {
      assert RowOk(digest, s, required, k);
    }
  }

  lemma QuietKeepsRefs(s: State, t: State, i: nat)
    requires RefsOk(s) && Quiet(s, t, i)
    requires t.calls[i].draft.Some? && t.calls[i].draft != s.calls[i].draft ==>
               s.nextRef <= NumberOf(t.calls[i].draft.value.ref) < t.nextRef
    ensures RefsOk(t)
  {
    forall j, k | 0 <= j < |t.calls| && 0 <= k < |t.calls| && j != k && t.calls[j].draft.Some? && t.calls[k].draft.Some?
      ensures NumberOf(t.calls[k].draft.value.ref) != NumberOf(t.calls[j].draft.value.ref)
    {
      assert FlightUnique(s, j) && FlightUnique(s, k);
    }
    forall j | 0 <= j < |t.calls| ensures FlightUnique(t, j) {
      assert FlightUnique(s, j);
    }
  }

  /** What a step does to its own call when it commits nothing. */
  predicate LocalStep(digest: string -> string, required: nat, s: State, t: State, i: nat)
    requires |s.log| == |s.owners| && |t.log| == |t.owners|
  {
    && Quiet(s, t, i) && LockOk(digest, t, i) && DraftOk(t, required, i) && TraceOk(t, i)
    && (t.calls[i].pc.Returned? ==> t.calls[i].pc == s.calls[i].pc)
    && (t.calls[i].draft.Some? && t.calls[i].draft != s.calls[i].draft ==>
          s.nextRef <= NumberOf(t.calls[i].draft.value.ref) < t.nextRef)
  }

  lemma LocalKeepsInv(digest: string -> string, required: nat, s: State, t: State, i: nat)
    requires Inv(digest, required, s) && t.log == s.log && t.owners == s.owners
    requires LocalStep(digest, required, s, t, i)
    ensures Inv(digest, required, t)
  {
    QuietKeepsLocks(digest, required, s, t, i);
    QuietKeepsDrafts(digest, required, s, t, i);
    QuietKeepsTraces(digest, required, s, t, i);
    QuietKeepsReturns(digest, required, s, t, i);
    QuietKeepsRows(digest, required, s, t, i);
    QuietKeepsRefs(s, t, i);
  }

  lemma TransactionStep(digest: string -> string, required: nat, s: State, e: Event)
    requires Inv(digest, required, s) && Enabled(s, e)
    requires e.Begin? || e.Lock? || e.ReadTip? || e.Insert?
    ensures var t := Next(digest, required, s, e);
            t.log == s.log && t.owners == s.owners && LocalStep(digest, required, s, t, e.i)
  {
    hide AtLeast, ValidInput, RefsOk, ReturnOk, RowOk, ArgsDigest, Trace;
    assert LockOk(digest, s, e.i) && DraftOk(s, required, e.i) && TraceOk(s, e.i);
    if e.ReadTip? { NewestIsLast(s.log); }
  }

  lemma DraftStep(digest: string -> string, required: nat, s: State, e: Event)
    requires Inv(digest, required, s) && Enabled(s, e) && e.WriteDraft?
    ensures var t := Next(digest, required, s, e);
            t.log == s.log && t.owners == s.owners && LocalStep(digest, required, s, t, e.i)
  {
    assert LockOk(digest, s, e.i) && DraftOk(s, required, e.i) && TraceOk(s, e.i);
    NumberOfRef(e.year, s.nextRef);
  }

  lemma RollbackStep(digest: string -> string, required: nat, s: State, e: Event)
    requires Inv(digest, required, s) && Enabled(s, e) && (e.Abort? || e.Crash?)
    ensures var t := Next(digest, required, s, e);
            t.log == s.log && t.owners == s.owners && LocalStep(digest, required, s, t, e.i)
  {
    hide AtLeast, ValidInput, RefsOk, ReturnOk, RowOk, ArgsDigest, RowOf, Trace;
    assert LockOk(digest, s, e.i) && DraftOk(s, required, e.i) && TraceOk(s, e.i);
  }

  lemma CheckStep(digest: string -> string, required: nat, s: State, e: Event)
    requires Inv(digest, required, s) && Enabled(s, e) && (e.Recheck? || e.Validate?)
    ensures var t := Next(digest, required, s, e);
            t.log == s.log && t.owners == s.owners && LocalStep(digest, required, s, t, e.i)
  {
    hide RefsOk, ReturnOk, RowOk, ArgsDigest, RowOf, Trace, ValidInput, AtLeast;
    assert LockOk(digest, s, e.i) && DraftOk(s, required, e.i) && TraceOk(s, e.i);
  }

  lemma {:induction false} StrangerHasNoRows(rows: seq<Row>, owners: seq<nat>, i: nat)
    requires |rows| == |owners| && forall k :: 0 <= k < |owners| ==> owners[k] != i
    ensures Trace(rows, owners, i) == []
  {
    if rows != [] { StrangerHasNoRows(rows[..|rows| - 1], owners[..|rows| - 1], i); }
  }

  lemma OwnersAreCalls(digest: string -> string, required: nat, s: State)
    requires Inv(digest, required, s)
    ensures forall k :: 0 <= k < |s.owners| ==> s.owners[k] < |s.calls|
  {
    forall k | 0 <= k < |s.owners| ensures s.owners[k] < |s.calls| {
      assert RowOk(digest, s, required, k);
    }
  }

  lemma OpenKeepsCalls(digest: string -> string, required: nat, s: State, e: Event)
    requires Inv(digest, required, s) && e.Open?
    ensures var t := Next(digest, required, s, e);
            && (forall i :: 0 <= i < |t.calls| ==> LockOk(digest, t, i))
            && (forall i :: 0 <= i < |t.calls| ==> DraftOk(t, required, i))
  {
    var t := Next(digest, required, s, e);
    forall i | 0 <= i < |s.calls| ensures LockOk(digest, t, i) && DraftOk(t, required, i) {
      assert LockOk(digest, s, i) && DraftOk(s, required, i);
    }
  }

  lemma OpenKeepsRows(digest: string -> string, required: nat, s: State, e: Event)
    requires Inv(digest, required, s) && e.Open?
    ensures var t := Next(digest, required, s, e);
            && (forall i :: 0 <= i < |t.calls| ==> TraceOk(t, i))
            && (forall i :: 0 <= i < |t.calls| ==> ReturnOk(t, i))
            && (forall k :: 0 <= k < |t.log| ==> RowOk(digest, t, required, k))
  {
    var t := Next(digest, required, s, e);
    OwnersAreCalls(digest, required, s);
    StrangerHasNoRows(s.log, s.owners, |s.calls|);
    forall i | 0 <= i < |s.calls| ensures TraceOk(t, i) && ReturnOk(t, i) {
      assert TraceOk(s, i) && ReturnOk(s, i);
    }
    forall k | 0 <= k < |t.log| ensures RowOk(digest, t, required, k) {
      assert RowOk(digest, s, required, k);
    }
  }

  // ---- commits --------------------------------------------------------------------------------------

  /** The call's pc after its transaction took effect, reported or not. */
  predicate AfterEffect(c: Call, pc: Pc)
    requires Appending(c.pc)
  {
    pc == AfterCommit(c) || pc == AfterFailure(c.pc)
  }

  lemma CommitKeepsChain(digest: string -> string, required: nat, s: State, i: nat, pc: Pc)
    requires Inv(digest, required, s) && i < |s.calls| && s.calls[i].stage.Inserted?
    ensures ChainOk(digest, Committed(s, i, pc))
  {
    assert LockOk(digest, s, i);
    AppendAccepted(digest, s.log, s.calls[i].stage.row);
  }

  lemma CommitKeepsLocks(digest: string -> string, required: nat, s: State, i: nat, pc: Pc)
    requires Inv(digest, required, s) && i < |s.calls| && s.calls[i].stage.Inserted?
    ensures forall j :: 0 <= j < |s.calls| ==> LockOk(digest, Committed(s, i, pc), j)
  {
    assert LockOk(digest, s, i);
    var t := Committed(s, i, pc);
    forall j | 0 <= j < |s.calls| ensures LockOk(digest, t, j) {
      assert LockOk(digest, s, j);
      if j != i { assert t.calls[j] == s.calls[j] && !Holding(s.calls[j].stage); }
    }
  }

  lemma CommitKeepsDrafts(digest: string -> string, required: nat, s: State, i: nat, pc: Pc)
    requires Inv(digest, required, s) && i < |s.calls| && s.calls[i].stage.Inserted? && Appending(s.calls[i].pc)
    requires AfterEffect(s.calls[i], pc)
    ensures forall j :: 0 <= j < |s.calls| ==> DraftOk(Committed(s, i, pc), required, j)
  {
    var t := Committed(s, i, pc);
    forall j | 0 <= j < |s.calls| ensures DraftOk(t, required, j) {
      assert DraftOk(s, required, j);
    }
  }

  lemma TraceAdvances(c: Call, pc: Pc, trace: seq<Phase>)
    requires Appending(c.pc) && AfterEffect(c, pc) && TraceFits(c.pc, trace)
    requires c.pc.Drafting? ==> c.draft.Some?
    ensures TraceFits(pc, trace + [PhaseOf(c.pc)])
  {
  }

  lemma CommitKeepsTraces(digest: string -> string, required: nat, s: State, i: nat, pc: Pc)
    requires Inv(digest, required, s) && i < |s.calls| && s.calls[i].stage.Inserted? && Appending(s.calls[i].pc)
    requires AfterEffect(s.calls[i], pc)
    ensures ChainOk(digest, Committed(s, i, pc))
    ensures forall j :: 0 <= j < |s.calls| ==> TraceOk(Committed(s, i, pc), j)
  {
    CommitKeepsChain(digest, required, s, i, pc);
    var t, row := Committed(s, i, pc), s.calls[i].stage.row;
    assert LockOk(digest, s, i) && DraftOk(s, required, i);
    forall j | 0 <= j < |s.calls| ensures TraceOk(t, j) {
      assert TraceOk(s, j);
      TraceGrows(s.log, s.owners, row, i, j);
      if j == i {
        TraceAdvances(s.calls[i], pc, Trace(s.log, s.owners, i));
      } else {
        assert t.calls[j] == s.calls[j];
      }
    }
  }

  /** The inserted row says what its call's row is to say. */
  lemma InsertedRowIs(digest: string -> string, required: nat, s: State, i: nat)
    requires Inv(digest, required, s) && i < |s.calls| && s.calls[i].stage.Inserted?
    ensures var c := s.calls[i]; var r := c.stage.row;
            && Appending(c.pc) && r.phase == PhaseOf(c.pc) && r.runId == c.args.runId && r.tool == TOOL
            && r.caller == c.id.caller && r.clearance == c.id.clearance && r.argsDigest == ArgsDigest(digest, c.args)
            && r.resultRef == (if c.draft.Some? then Some(c.draft.value.ref) else None)
            && DraftOk(s, required, i)
  {
    hide ChainOk, RefsOk, TraceOk, ReturnOk, RowOk, ArgsDigest, RowHash, DraftOk, Tip;
    assert LockOk(digest, s, i) && DraftOk(s, required, i);
  }

  lemma NewRowOk(digest: string -> string, required: nat, s: State, i: nat, pc: Pc)
    requires Inv(digest, required, s) && i < |s.calls| && s.calls[i].stage.Inserted? && |s.owners| == |s.log|
    ensures RowOk(digest, Committed(s, i, pc), required, |s.log|)
  {
    InsertedRowIs(digest, required, s, i);
    hide Inv, ArgsDigest, AtLeast, ValidInput;
  }

  lemma OldRowOk(digest: string -> string, required: nat, s: State, i: nat, pc: Pc, k: nat)
    requires i < |s.calls| && s.calls[i].stage.Inserted? && k < |s.log| == |s.owners| && RowOk(digest, s, required, k)
    ensures RowOk(digest, Committed(s, i, pc), required, k)
  {
    hide ArgsDigest, AtLeast, ValidInput;
  }

  lemma CommitKeepsRows(digest: string -> string, required: nat, s: State, i: nat, pc: Pc)
    requires Inv(digest, required, s) && i < |s.calls| && s.calls[i].stage.Inserted?
    ensures ChainOk(digest, Committed(s, i, pc))
    ensures forall k :: 0 <= k < |s.log| + 1 ==> RowOk(digest, Committed(s, i, pc), required, k)
  {
    hide RowOk, LockOk, DraftOk, TraceOk, ReturnOk, RefsOk;
    CommitKeepsChain(digest, required, s, i, pc);
    NewRowOk(digest, required, s, i, pc);
    forall k | 0 <= k < |s.log| ensures RowOk(digest, Committed(s, i, pc), required, k) {
      OldRowOk(digest, required, s, i, pc, k);
    }
  }

  lemma GrownLogKeepsReturn(s: State, t: State, j: nat)
    requires j < |s.calls| && j < |t.calls| && |s.log| == |s.owners| && |t.log| == |t.owners|
    requires s.log <= t.log && s.owners <= t.owners && t.calls[j] == s.calls[j] && ReturnOk(s, j)
    ensures ReturnOk(t, j)
  {
    if s.calls[j].pc.Returned? {
      var k :| 0 <= k < |s.log| && s.owners[k] == j && s.log[k].phase == Success
               && s.log[k].resultRef == Some(s.calls[j].pc.ref);
      assert t.log[k] == s.log[k] && t.owners[k] == s.owners[k];
    }
  }

  lemma CommitKeepsReturns(digest: string -> string, required: nat, s: State, i: nat, pc: Pc)
    requires Inv(digest, required, s) && i < |s.calls| && s.calls[i].stage.Inserted? && Appending(s.calls[i].pc)
    requires AfterEffect(s.calls[i], pc)
    ensures ChainOk(digest, Committed(s, i, pc))
    ensures forall j :: 0 <= j < |s.calls| ==> ReturnOk(Committed(s, i, pc), j)
  {
    CommitKeepsChain(digest, required, s, i, pc);
    var t := Committed(s, i, pc);
    assert LockOk(digest, s, i) && DraftOk(s, required, i);
    assert t.log[|s.log|] == s.calls[i].stage.row && t.owners[|s.log|] == i;
    forall j | 0 <= j < |s.calls| && j != i ensures ReturnOk(t, j) {
      assert ReturnOk(s, j);
      GrownLogKeepsReturn(s, t, j);
    }
  }

  lemma CommitKeepsRecord(digest: string -> string, required: nat, s: State, i: nat, pc: Pc)
    requires Inv(digest, required, s) && i < |s.calls| && s.calls[i].stage.Inserted?
    ensures OnRecord(Committed(s, i, pc).log) == InTable(Committed(s, i, pc).drafts)
  {
    assert LockOk(digest, s, i) && DraftOk(s, required, i);
    RecordGrows(s.log, s.calls[i].stage.row);
    if s.calls[i].draft.Some? {
      TableGrows(s.drafts, s.calls[i].draft.value);
    } else {
      assert OnRecord(s.log) + [] == OnRecord(s.log);
    }
  }

  lemma CommitKeepsUnique(s: State, i: nat, pc: Pc)
    requires RefsUnique(s) && i < |s.calls| && s.calls[i].stage.Inserted?
    ensures RefsUnique(Committed(s, i, pc))
  {
    var t := Committed(s, i, pc);
    assert FlightUnique(s, i);
    assert TableUnique(t);
    forall j | 0 <= j < |t.calls| ensures FlightUnique(t, j) {
      if j != i { assert FlightUnique(s, j); }
    }
  }

  lemma CommitKeepsInv(digest: string -> string, required: nat, s: State, i: nat, pc: Pc)
    requires Inv(digest, required, s) && i < |s.calls| && s.calls[i].stage.Inserted? && Appending(s.calls[i].pc)
    requires AfterEffect(s.calls[i], pc)
    ensures Inv(digest, required, Committed(s, i, pc))
  {
    CommitKeepsLocks(digest, required, s, i, pc);
    CommitKeepsDrafts(digest, required, s, i, pc);
    CommitKeepsTraces(digest, required, s, i, pc);
    CommitKeepsRows(digest, required, s, i, pc);
    CommitKeepsReturns(digest, required, s, i, pc);
    CommitKeepsRecord(digest, required, s, i, pc);
    CommitKeepsUnique(s, i, pc);
  }

  lemma OpenKeepsInv(digest: string -> string, required: nat, s: State, e: Event)
    requires Inv(digest, required, s) && e.Open?
    ensures Inv(digest, required, Next(digest, required, s, e))
  {
    OpenKeepsCalls(digest, required, s, e);
    OpenKeepsRows(digest, required, s, e);
    var t := Next(digest, required, s, e);
    forall j | 0 <= j < |t.calls| ensures FlightUnique(t, j) {
      if j < |s.calls| { assert FlightUnique(s, j); }
    }
  }

  lemma StepKeepsInv(digest: string -> string, required: nat, s: State, e: Event)
    requires Inv(digest, required, s) && Enabled(s, e)
    ensures Inv(digest, required, Next(digest, required, s, e))
  {
    if e.Open? {
      OpenKeepsInv(digest, required, s, e);
    } else if e.Commit? || e.Lost? {
      assert LockOk(digest, s, e.i);
      CommitKeepsInv(digest, required, s, e.i,
                     if e.Commit? then AfterCommit(s.calls[e.i]) else AfterFailure(s.calls[e.i].pc));
    } else {
      if e.Abort? || e.Crash? {
        RollbackStep(digest, required, s, e);
      } else if e.Recheck? || e.Validate? {
        CheckStep(digest, required, s, e);
      } else if e.WriteDraft? {
        DraftStep(digest, required, s, e);
      } else {
        TransactionStep(digest, required, s, e);
      }
      LocalKeepsInv(digest, required, s, Next(digest, required, s, e), e.i);
    }
  }

  lemma {:induction false} RunKeepsInv(digest: string -> string, required: nat, s: State, events: seq<Event>)
    requires Inv(digest, required, s) && Possible(digest, required, s, events)
    ensures Inv(digest, required, Run(digest, required, s, events))
    decreases |events|
  {
    if events != [] {
      StepKeepsInv(digest, required, s, events[0]);
      RunKeepsInv(digest, required, Next(digest, required, s, events[0]), events[1..]);
    }
  }

  // ---- what every run guarantees --------------------------------------------------------------------

  lemma InitHoldsInv(digest: string -> string, required: nat)
    ensures Inv(digest, required, INIT)
  {
  }

  lemma {:induction false} RecordEntry(rows: seq<Row>, a: nat) returns (k: nat)
    requires a < |OnRecord(rows)|
    ensures k < |rows| && rows[k].phase == Success && |OnRecord(rows[..k])| == a
    ensures OnRecord(rows)[a] == Written(OrEmpty(rows[k].resultRef), rows[k].runId, rows[k].clearance)
  {
    var n := |rows| - 1;
    if a < |OnRecord(rows[..n])| {
      k := RecordEntry(rows[..n], a);
      assert rows[..n][..k] == rows[..k];
    } else {
      k := n;
    }
  }

  lemma {:induction false} RecordPosition(rows: seq<Row>, k: nat)
    requires k < |rows| && rows[k].phase == Success
    ensures |OnRecord(rows[..k])| < |OnRecord(rows)|
    ensures OnRecord(rows)[|OnRecord(rows[..k])|]
            == Written(OrEmpty(rows[k].resultRef), rows[k].runId, rows[k].clearance)
  {
    var n := |rows| - 1;
    if k < n {
      RecordPosition(rows[..n], k);
      assert rows[..n][..k] == rows[..k];
    }
  }

  lemma {:induction false} TableEntries(drafts: seq<Draft>)
    ensures |InTable(drafts)| == |drafts|
    ensures forall a :: 0 <= a < |drafts| ==>
              InTable(drafts)[a] == Written(drafts[a].ref, drafts[a].runId, drafts[a].clearance)
  {
    if drafts != [] { TableEntries(drafts[..|drafts| - 1]); }
  }

  /** The SUCCESS row and the draft of one reference. */
  predicate Paired(r: Row, d: Draft) {
    r.phase == Success && r.resultRef == Some(d.ref) && r.runId == d.runId && r.clearance == d.clearance
  }

  lemma DraftHasRow(digest: string -> string, required: nat, s: State, a: nat) returns (k: nat)
    requires Inv(digest, required, s) && a < |s.drafts|
    ensures k < |s.log| && Paired(s.log[k], s.drafts[a])
  {
    TableEntries(s.drafts);
    k := RecordEntry(s.log, a);
    assert RowOk(digest, s, required, k);
  }

  lemma RowHasDraft(digest: string -> string, required: nat, s: State, k: nat) returns (a: nat)
    requires Inv(digest, required, s) && k < |s.log| && s.log[k].phase == Success
    ensures a < |s.drafts| && Paired(s.log[k], s.drafts[a])
  {
    TableEntries(s.drafts);
    RecordPosition(s.log, k);
    assert RowOk(digest, s, required, k);
    a := |OnRecord(s.log[..k])|;
  }

  predicate Recorded(log: seq<Row>, d: Draft) { exists k :: 0 <= k < |log| && Paired(log[k], d) }

  predicate Tabled(drafts: seq<Draft>, r: Row) { exists a :: 0 <= a < |drafts| && Paired(r, drafts[a]) }

  predicate DistinctDrafts(drafts: seq<Draft>) {
    forall a, b :: 0 <= a < b < |drafts| ==> drafts[a].ref != drafts[b].ref
  }

  predicate DistinctSuccess(log: seq<Row>) {
    forall j, k :: 0 <= j < k < |log| && log[j].phase.Success? && log[k].phase.Success?
      ==> log[j].resultRef != log[k].resultRef
  }

  /** Every draft was written by a call for its run. */
  lemma DraftFromCall(digest: string -> string, required: nat, s: State, a: nat) returns (i: nat)
    requires Inv(digest, required, s) && a < |s.drafts|
    ensures i < |s.calls| && s.calls[i].args.runId == s.drafts[a].runId
  {
    var k := DraftHasRow(digest, required, s, a);
    assert RowOk(digest, s, required, k);
    i := s.owners[k];
  }

  /** SUCCESS rows and drafts correspond one to one by reference. */
  predicate OneToOne(log: seq<Row>, drafts: seq<Draft>) {
    && (forall a :: 0 <= a < |drafts| ==> Recorded(log, drafts[a]))
    && (forall k :: 0 <= k < |log| && log[k].phase.Success? ==> Tabled(drafts, log[k]))
    && DistinctDrafts(drafts) && DistinctSuccess(log)
  }

  lemma OneToOneInState(digest: string -> string, required: nat, s: State)
    requires Inv(digest, required, s)
    ensures OneToOne(s.log, s.drafts)
  {
    forall a | 0 <= a < |s.drafts| ensures Recorded(s.log, s.drafts[a]) {
      var k := DraftHasRow(digest, required, s, a);
    }
    forall k | 0 <= k < |s.log| && s.log[k].phase.Success? ensures Tabled(s.drafts, s.log[k]) {
      var a := RowHasDraft(digest, required, s, k);
    }
    forall j, k | 0 <= j < k < |s.log| && s.log[j].phase.Success? && s.log[k].phase.Success?
      ensures s.log[j].resultRef != s.log[k].resultRef
    {
      SuccessRefsDiffer(digest, required, s, j, k);
    }
    UniqueRefsDiffer(s);
  }

  lemma UniqueRefsDiffer(s: State)
    requires RefsUnique(s)
    ensures DistinctDrafts(s.drafts)
  {
  }

  lemma {:induction false} RecordShorter(rows: seq<Row>, j: nat, k: nat)
    requires j < k <= |rows| && rows[j].phase == Success
    ensures |OnRecord(rows[..j])| < |OnRecord(rows[..k])|
  {
    assert rows[..k][..j] == rows[..j];
    RecordPosition(rows[..k], j);
  }

  lemma SuccessRefsDiffer(digest: string -> string, required: nat, s: State, j: nat, k: nat)
    requires Inv(digest, required, s) && j < k < |s.log| && s.log[j].phase == s.log[k].phase == Success
    ensures s.log[j].resultRef != s.log[k].resultRef
  {
    TableEntries(s.drafts);
    RecordPosition(s.log, j);
    RecordPosition(s.log, k);
    RecordShorter(s.log, j, k);
    assert RowOk(digest, s, required, j) && RowOk(digest, s, required, k);
  }

  /** A call's trace starts with its first row. */
  lemma {:induction false} FirstOfTrace(rows: seq<Row>, owners: seq<nat>, k: nat) returns (j: nat)
    requires |rows| == |owners| && k < |rows|
    ensures j <= k && owners[j] == owners[k]
    ensures var trace := Trace(rows, owners, owners[k]); trace != [] && trace[0] == rows[j].phase
    ensures k == |rows| - 1 && j == k ==> Trace(rows, owners, owners[k]) == [rows[k].phase]
  {
    var n := |rows| - 1;
    var i := owners[k];
    if k < n {
      j := FirstOfTrace(rows[..n], owners[..n], k);
    } else if m :| 0 <= m < n && owners[m] == i {
      j := FirstOfTrace(rows[..n], owners[..n], m);
    } else {
      j := k;
      StrangerHasNoRows(rows[..n], owners[..n], i);
    }
  }

  predicate AttemptOf(a: Row, r: Row) { a.phase == Attempt && a.runId == r.runId && a.argsDigest == r.argsDigest }

  lemma AttemptFirst(pc: Pc, trace: seq<Phase>)
    requires TraceFits(pc, trace) && trace != []
    ensures trace[0] == Attempt
  {
  }

  lemma AttemptExists(digest: string -> string, required: nat, s: State, k: nat)
    requires Inv(digest, required, s) && k < |s.log| && s.log[k].phase != Attempt
    ensures exists j :: 0 <= j < k && s.owners[j] == s.owners[k] && AttemptOf(s.log[j], s.log[k])
  {
    hide RowOf, RefsOk, LockOk, DraftOk, ReturnOk, Trace, TraceFits;
    var j := FirstOfTrace(s.log, s.owners, k);
    assert RowOk(digest, s, required, j) && RowOk(digest, s, required, k);
    assert TraceOk(s, s.owners[k]);
    AttemptFirst(s.calls[s.owners[k]].pc, Trace(s.log, s.owners, s.owners[k]));
    assert AttemptOf(s.log[j], s.log[k]);
  }

  lemma {:induction false} TraceHolds(rows: seq<Row>, owners: seq<nat>, j: nat, k: nat) returns (a: nat, b: nat)
    requires |rows| == |owners| && j < k < |rows| && owners[j] == owners[k]
    ensures var trace := Trace(rows, owners, owners[k]);
            a < b < |trace| && trace[a] == rows[j].phase && trace[b] == rows[k].phase
  {
    var n := |rows| - 1;
    if k < n {
      a, b := TraceHolds(rows[..n], owners[..n], j, k);
    } else {
      a := InTrace(rows[..n], owners[..n], j);
      b := |Trace(rows[..n], owners[..n], owners[k])|;
    }
  }

  lemma {:induction false} InTrace(rows: seq<Row>, owners: seq<nat>, j: nat) returns (a: nat)
    requires |rows| == |owners| && j < |rows|
    ensures var trace := Trace(rows, owners, owners[j]); a < |trace| && trace[a] == rows[j].phase
  {
    var n := |rows| - 1;
    if j < n {
      a := InTrace(rows[..n], owners[..n], j);
    } else {
      a := |Trace(rows[..n], owners[..n], owners[j])|;
    }
  }

  lemma ProtocolHasNoRepeats(trace: seq<Phase>, a: nat, b: nat)
    requires Protocol(trace) && a < b < |trace|
    ensures trace[a] != trace[b]
  {
  }

  lemma FitsProtocol(pc: Pc, trace: seq<Phase>)
    requires TraceFits(pc, trace)
    ensures Protocol(trace)
  {
  }

  /** Two drafts of one run come from two calls made for that run. */
  lemma TwoDraftsTwoCalls(digest: string -> string, required: nat, s: State, a: nat, b: nat) returns (i: nat, j: nat)
    requires Inv(digest, required, s) && a < b < |s.drafts| && s.drafts[a].runId == s.drafts[b].runId
    ensures i < |s.calls| && j < |s.calls| && i != j
    ensures s.calls[i].args.runId == s.calls[j].args.runId == s.drafts[a].runId
  {
    TableEntries(s.drafts);
    var k := RecordEntry(s.log, a);
    var m := RecordEntry(s.log, b);
    assert RowOk(digest, s, required, k) && RowOk(digest, s, required, m);
    i, j := s.owners[k], s.owners[m];
    if i == j {
      assert TraceOk(s, i);
      FitsProtocol(s.calls[i].pc, Trace(s.log, s.owners, i));
      if k < m {
        var x, y := TraceHolds(s.log, s.owners, k, m);
        ProtocolHasNoRepeats(Trace(s.log, s.owners, i), x, y);
      } else if m < k {
        var x, y := TraceHolds(s.log, s.owners, m, k);
        ProtocolHasNoRepeats(Trace(s.log, s.owners, i), x, y);
      }
      assert false;
    }
  }

  /** A reference handed to a caller names a committed draft of the caller's run. */
  lemma ReturnedDraftExists(digest: string -> string, required: nat, s: State, i: nat)
    requires Inv(digest, required, s) && i < |s.calls| && s.calls[i].pc.Returned?
    ensures exists a :: 0 <= a < |s.drafts| && s.drafts[a].ref == s.calls[i].pc.ref
                        && s.drafts[a].runId == s.calls[i].args.runId
  {
    assert ReturnOk(s, i);
    var k :| 0 <= k < |s.log| && s.owners[k] == i && s.log[k].phase == Success
             && s.log[k].resultRef == Some(s.calls[i].pc.ref);
    var a := RowHasDraft(digest, required, s, k);
    assert RowOk(digest, s, required, k);
  }
}
