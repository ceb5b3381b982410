/** Whether a run of the governed write can still get a draft, from the state of its calls. */
module GovernedProgress {
  import opened Text
  import opened AuditChain
  import opened DraftRefs
  import opened GovernedWrite

  /** The call has the clearance and the input for a draft, and has not yet been denied, failed or lost. */
  predicate CanWrite(required: nat, c: Call) {
    && AtLeast(c.id.clearance, required) && ValidInput(c.args)
    && (c.pc.Attempting? || c.pc.Rechecking? || c.pc.Validating? || c.pc.Drafting?)
  }

  predicate HasDraft(s: State, runId: string) { exists a :: 0 <= a < |s.drafts| && s.drafts[a].runId == runId }

  predicate MayWrite(required: nat, s: State, runId: string) {
    exists k :: 0 <= k < |s.calls| && s.calls[k].args.runId == runId && CanWrite(required, s.calls[k])
  }

  predicate Hopeless(required: nat, s: State, runId: string) { !HasDraft(s, runId) && !MayWrite(required, s, runId) }

  /** The audit log holds a SUCCESS row of the run. */
  predicate SuccessLogged(s: State, runId: string) {
    exists k :: 0 <= k < |s.log| && s.log[k].phase.Success? && s.log[k].runId == runId
  }

  /** The audit log shows whether a run has a draft. */
  lemma DraftIffLogged(digest: string -> string, required: nat, s: State, runId: string)
    requires Inv(digest, required, s)
    ensures HasDraft(s, runId) <==> SuccessLogged(s, runId)
  {
    hide Inv;
    OneToOneInState(digest, required, s);
    if HasDraft(s, runId) {
      var a :| 0 <= a < |s.drafts| && s.drafts[a].runId == runId;
      assert Recorded(s.log, s.drafts[a]);
    }
    if SuccessLogged(s, runId) {
      var k :| 0 <= k < |s.log| && s.log[k].phase.Success? && s.log[k].runId == runId;
      assert Tabled(s.drafts, s.log[k]);
    }
  }

  // ---- without such a call no draft ever appears ----------------------------------------------------

  /** A step never makes a call able to write again. */
  lemma CallStaysUnable(digest: string -> string, required: nat, s: State, e: Event, k: nat)
    requires Inv(digest, required, s) && Enabled(s, e) && k < |s.calls| && !CanWrite(required, s.calls[k])
    ensures var t := Next(digest, required, s, e);
            k < |t.calls| && t.calls[k].args == s.calls[k].args && !CanWrite(required, t.calls[k])
  {
    hide AtLeast, ValidInput, RowOf, ChainOk, RefsOk, TraceOk, ReturnOk, RowOk;
    assert LockOk(digest, s, k) && DraftOk(s, required, k);
  }

  /** A draft is only ever added by a call able to write. */
  lemma DraftNeedsAbleCall(digest: string -> string, required: nat, s: State, e: Event)
    requires Inv(digest, required, s) && Enabled(s, e)
    ensures var t := Next(digest, required, s, e);
            t.drafts == s.drafts
            || (!e.Open? && CanWrite(required, s.calls[e.i])
                && exists d :: t.drafts == s.drafts + [d] && d.runId == s.calls[e.i].args.runId)
  {
    if !e.Open? { assert DraftOk(s, required, e.i); }
    var t := Next(digest, required, s, e);
    if t.drafts != s.drafts {
      var d := s.calls[e.i].draft.value;
      assert t.drafts == s.drafts + [d] && d.runId == s.calls[e.i].args.runId;
    }
  }

  lemma StepStaysHopeless(digest: string -> string, required: nat, s: State, e: Event, runId: string)
    requires Inv(digest, required, s) && Enabled(s, e) && Hopeless(required, s, runId)
    requires e.Open? ==> e.args.runId != runId
    ensures Hopeless(required, Next(digest, required, s, e), runId)
  {
    var t := Next(digest, required, s, e);
    NoAbleCall(digest, required, s, e, runId);
    DraftNeedsAbleCall(digest, required, s, e);
    forall a | 0 <= a < |t.drafts| ensures t.drafts[a].runId != runId {
      if a < |s.drafts| { assert s.drafts[a].runId != runId; }
    }
  }

  lemma NoAbleCall(digest: string -> string, required: nat, s: State, e: Event, runId: string)
    requires Inv(digest, required, s) && Enabled(s, e) && !MayWrite(required, s, runId)
    requires e.Open? ==> e.args.runId != runId
    ensures !MayWrite(required, Next(digest, required, s, e), runId)
  {
    var t := Next(digest, required, s, e);
    forall k | 0 <= k < |t.calls| && t.calls[k].args.runId == runId ensures !CanWrite(required, t.calls[k]) {
      if k < |s.calls| {
        ArgsStay(digest, required, s, e, k);
        CallStaysUnable(digest, required, s, e, k);
      }
    }
  }

  lemma ArgsStay(digest: string -> string, required: nat, s: State, e: Event, k: nat)
    requires Enabled(s, e) && k < |s.calls|
    ensures var t := Next(digest, required, s, e); k < |t.calls| && t.calls[k].args == s.calls[k].args
    ensures |s.calls| <= |Next(digest, required, s, e).calls| <= |s.calls| + (if e.Open? then 1 else 0)
  {
  }

  // ---- with such a call a draft can always still appear ------------------------------------------------

  function StageLeft(c: Call): nat {
    match c.stage
    case Idle => 8
    case Begun => if c.pc.Drafting? && c.draft.None? then 7 else 5
    case Locked => 4
    case TipRead(_) => 3
    case Inserted(_) => 2
  }

  /** How far call k is from its draft. */
  function Left(s: State, k: nat): nat
    requires k < |s.calls|
  {
    (match s.calls[k].pc case Attempting => 40 case Rechecking => 25 case Validating => 15 case _ => 0)
    + StageLeft(s.calls[k])
    + (if s.lock.Some? && s.lock.value != k then 1 else 0)
  }

  /** The step that brings call k nearer to its draft; a lock held by another call is broken first. */
  function Nearer(s: State, k: nat): Event
    requires k < |s.calls|
  {
    var c := s.calls[k];
    if c.pc.Rechecking? then Recheck(k)
    else if c.pc.Validating? then Validate(k)
    else match c.stage
      case Idle => Begin(k)
      case Begun =>
        if c.pc.Drafting? && c.draft.None? then WriteDraft(k, 2026)
        else if s.lock.Some? then Abort(s.lock.value)
        else Event.Lock(k)
      case Locked => ReadTip(k)
      case TipRead(_) => Insert(k, "")
      case Inserted(_) => Commit(k)
  }

  lemma NearerEnabled(digest: string -> string, required: nat, s: State, k: nat)
    requires Inv(digest, required, s) && k < |s.calls| && CanWrite(required, s.calls[k])
    ensures Enabled(s, Nearer(s, k)) && !Nearer(s, k).Open?
    ensures Nearer(s, k).Abort? ==> s.lock.Some? && s.lock.value != k
  {
    assert LockOk(digest, s, k) && DraftOk(s, required, k);
    if s.lock.Some? { assert LockOk(digest, s, s.lock.value); }
  }

  /** The commit of the draft. */
  predicate Commits(s: State, k: nat)
    requires k < |s.calls|
  {
    s.calls[k].pc.Drafting? && s.calls[k].stage.Inserted?
  }

  predicate Helped(required: nat, s: State, t: State, k: nat)
    requires k < |s.calls|
  {
    && k < |t.calls| && t.calls[k].args == s.calls[k].args
    && CanWrite(required, t.calls[k]) && Left(t, k) < Left(s, k)
  }

  lemma CheckHelps(digest: string -> string, required: nat, s: State, k: nat)
    requires Inv(digest, required, s) && k < |s.calls| && CanWrite(required, s.calls[k])
    requires Enabled(s, Nearer(s, k)) && !Commits(s, k)
    requires s.calls[k].pc.Rechecking? || s.calls[k].pc.Validating?
    ensures Helped(required, s, Next(digest, required, s, Nearer(s, k)), k)
  {
    assert LockOk(digest, s, k) && DraftOk(s, required, k);
  }

  lemma AbortHelps(digest: string -> string, required: nat, s: State, k: nat)
    requires Inv(digest, required, s) && k < |s.calls| && CanWrite(required, s.calls[k])
    requires Enabled(s, Nearer(s, k)) && !Commits(s, k)
    requires Nearer(s, k).Abort?
    ensures Helped(required, s, Next(digest, required, s, Nearer(s, k)), k)
  {
    assert LockOk(digest, s, k) && DraftOk(s, required, k);
    NearerEnabled(digest, required, s, k);
    assert LockOk(digest, s, s.lock.value);
  }

  lemma EarlyHelps(digest: string -> string, required: nat, s: State, k: nat)
    requires Inv(digest, required, s) && k < |s.calls| && CanWrite(required, s.calls[k])
    requires Enabled(s, Nearer(s, k)) && !Commits(s, k)
    requires Appending(s.calls[k].pc) && !Holding(s.calls[k].stage) && !Nearer(s, k).Abort?
    ensures Helped(required, s, Next(digest, required, s, Nearer(s, k)), k)
  {
    hide AtLeast, ValidInput, RowOf, ChainOk, RefsOk, TraceOk, ReturnOk, RowOk;
    assert LockOk(digest, s, k) && DraftOk(s, required, k);
  }

  lemma LateHelps(digest: string -> string, required: nat, s: State, k: nat)
    requires Inv(digest, required, s) && k < |s.calls| && CanWrite(required, s.calls[k])
    requires Enabled(s, Nearer(s, k)) && !Commits(s, k)
    requires Appending(s.calls[k].pc) && Holding(s.calls[k].stage)
    ensures Helped(required, s, Next(digest, required, s, Nearer(s, k)), k)
  {
    hide AtLeast, ValidInput, RowOf, ChainOk, RefsOk, TraceOk, ReturnOk, RowOk;
    assert LockOk(digest, s, k) && DraftOk(s, required, k);
  }

  lemma NearerHelps(digest: string -> string, required: nat, s: State, k: nat)
    requires Inv(digest, required, s) && k < |s.calls| && CanWrite(required, s.calls[k])
    requires Enabled(s, Nearer(s, k)) && !Commits(s, k)
    ensures Helped(required, s, Next(digest, required, s, Nearer(s, k)), k)
  {
    if s.calls[k].pc.Rechecking? || s.calls[k].pc.Validating? {
      CheckHelps(digest, required, s, k);
    } else if Nearer(s, k).Abort? {
      AbortHelps(digest, required, s, k);
    } else if Holding(s.calls[k].stage) {
      LateHelps(digest, required, s, k);
    } else {
      EarlyHelps(digest, required, s, k);
    }
  }

  lemma CommitAddsDraft(digest: string -> string, required: nat, s: State, k: nat)
    requires Inv(digest, required, s) && k < |s.calls| && CanWrite(required, s.calls[k]) && Commits(s, k)
    requires Enabled(s, Nearer(s, k))
    ensures HasDraft(Next(digest, required, s, Nearer(s, k)), s.calls[k].args.runId)
  {
    assert LockOk(digest, s, k) && DraftOk(s, required, k);
    var t := Next(digest, required, s, Nearer(s, k));
    assert t.drafts[|s.drafts|] == s.calls[k].draft.value;
  }

  predicate OpensNothing(events: seq<Event>) { forall j :: 0 <= j < |events| ==> !events[j].Open? }

  lemma StepFirst(digest: string -> string, required: nat, s: State, e: Event, rest: seq<Event>)
    requires Enabled(s, e) && !e.Open? && OpensNothing(rest)
    requires Possible(digest, required, Next(digest, required, s, e), rest)
    ensures OpensNothing([e] + rest) && Possible(digest, required, s, [e] + rest)
    ensures Run(digest, required, s, [e] + rest) == Run(digest, required, Next(digest, required, s, e), rest)
  {
    assert ([e] + rest)[1..] == rest;
  }

  /** From every reachable state a call able to write can still reach its draft, whatever others hold. */
  lemma {:induction false} DraftReachable(digest: string -> string, required: nat, s: State, k: nat)
    returns (events: seq<Event>)
    requires Inv(digest, required, s) && k < |s.calls| && CanWrite(required, s.calls[k])
    ensures OpensNothing(events) && Possible(digest, required, s, events)
    ensures HasDraft(Run(digest, required, s, events), s.calls[k].args.runId)
    decreases Left(s, k)
  {
    var e := Nearer(s, k);
    NearerEnabled(digest, required, s, k);
    var t := Next(digest, required, s, e);
    if Commits(s, k) {
      CommitAddsDraft(digest, required, s, k);
      StepFirst(digest, required, s, e, []);
      events := [e] + [];
    } else {
      NearerHelps(digest, required, s, k);
      StepKeepsInv(digest, required, s, e);
      var rest := DraftReachable(digest, required, t, k);
      StepFirst(digest, required, s, e, rest);
      events := [e] + rest;
    }
  }

  // ---- one undisturbed call ---------------------------------------------------------------------------

  lemma Cons(digest: string -> string, required: nat, s: State, e: Event, t: State, rest: seq<Event>)
    requires Enabled(s, e) && Next(digest, required, s, e) == t && Possible(digest, required, t, rest)
    ensures Possible(digest, required, s, [e] + rest)
    ensures Run(digest, required, s, [e] + rest) == Run(digest, required, t, rest)
  {
    assert ([e] + rest)[1..] == rest;
  }

  lemma OneCall(c: Call, d: Call)
    ensures [c][0 := d] == [d]
  {
  }

  /** The lock, the tip, the row and the commit of a transaction begun by the only call. */
  function Closing(ts: string): seq<Event> { [Event.Lock(0)] + ([ReadTip(0)] + ([Insert(0, ts)] + ([Commit(0)] + []))) }

  lemma ClosingRuns(digest: string -> string, required: nat, s: State, c: Call, ts: string)
    requires s.calls == [c] && s.lock.None? && Appending(c.pc) && c.stage.Begun?
    requires c.pc.Drafting? ==> c.draft.Some?
    ensures Possible(digest, required, s, Closing(ts))
    ensures var row := RowOf(digest, c, NewestHash(s.log), s.nextSeq, ts);
            Run(digest, required, s, Closing(ts))
            == State(s.log + [row], s.owners + [0], if c.draft.Some? then s.drafts + [c.draft.value] else s.drafts,
                     s.nextSeq + 1, s.nextRef, None, [c.(pc := AfterCommit(c), stage := Idle, draft := None)])
  {
    var row := RowOf(digest, c, NewestHash(s.log), s.nextSeq, ts);
    var c1, c2, c3 := c.(stage := Locked), c.(stage := TipRead(NewestHash(s.log))), c.(stage := Inserted(row));
    var c4 := c.(pc := AfterCommit(c), stage := Idle, draft := None);
    var s1 := s.(lock := Some(0), calls := [c1]);
    var s2 := s1.(calls := [c2]);
    var s3 := s2.(calls := [c3], nextSeq := s.nextSeq + 1);
    var s4 := State(s.log + [row], s.owners + [0], if c.draft.Some? then s.drafts + [c.draft.value] else s.drafts,
                    s.nextSeq + 1, s.nextRef, None, [c4]);
    OneCall(c, c1);
    OneCall(c1, c2);
    OneCall(c2, c3);
    OneCall(c3, c4);
    Cons(digest, required, s3, Commit(0), s4, []);
    Cons(digest, required, s2, Insert(0, ts), s3, [Commit(0)] + []);
    Cons(digest, required, s1, ReadTip(0), s2, [Insert(0, ts)] + ([Commit(0)] + []));
    Cons(digest, required, s, Event.Lock(0), s1, [ReadTip(0)] + ([Insert(0, ts)] + ([Commit(0)] + [])));
  }

  lemma {:induction false} RunOn(digest: string -> string, required: nat, s: State,
                                 first: seq<Event>, later: seq<Event>)
    requires Possible(digest, required, s, first) && Possible(digest, required, Run(digest, required, s, first), later)
    ensures Possible(digest, required, s, first + later)
    ensures Run(digest, required, s, first + later) == Run(digest, required, Run(digest, required, s, first), later)
    decreases |first|
  {
    if first == [] {
      assert first + later == later;
    } else {
      assert (first + later)[1..] == first[1..] + later && (first + later)[0] == first[0];
      RunOn(digest, required, Next(digest, required, s, first[0]), first[1..], later);
    }
  }

  /** The ATTEMPT row and both checks. */
  function Checking(): seq<Event> { ([Begin(0)] + Closing("t1")) + ([Recheck(0)] + ([Validate(0)] + [])) }

  /** The draft and its SUCCESS row. */
  function Producing(): seq<Event> { [Begin(0)] + ([WriteDraft(0, 2026)] + Closing("t2")) }

  lemma CheckingRuns(digest: string -> string, required: nat, s: State, c: Call)
    requires s.calls == [c] && s.lock.None? && c.pc.Attempting? && c.stage.Idle? && c.draft.None?
    requires AtLeast(c.id.clearance, required) && ValidInput(c.args)
    ensures Possible(digest, required, s, Checking())
    ensures var t := Run(digest, required, s, Checking());
            t.calls == [c.(pc := Drafting)] && t.lock.None? && t.drafts == s.drafts && t.nextRef == s.nextRef
  {
    var begun := c.(stage := Begun);
    OneCall(c, begun);
    ClosingRuns(digest, required, s.(calls := [begun]), begun, "t1");
    Cons(digest, required, s, Begin(0), s.(calls := [begun]), Closing("t1"));
    var t := Run(digest, required, s, [Begin(0)] + Closing("t1"));
    var c1, c2 := c.(pc := Validating), c.(pc := Drafting);
    OneCall(c.(pc := Rechecking), c1);
    OneCall(c1, c2);
    Cons(digest, required, t.(calls := [c1]), Validate(0), t.(calls := [c2]), []);
    Cons(digest, required, t, Recheck(0), t.(calls := [c1]), [Validate(0)] + []);
    RunOn(digest, required, s, [Begin(0)] + Closing("t1"), [Recheck(0)] + ([Validate(0)] + []));
  }

  lemma DraftingRuns(digest: string -> string, required: nat, s: State, c: Call)
    requires s.calls == [c] && s.lock.None? && c.pc.Drafting? && c.stage.Idle? && c.draft.None?
    ensures Possible(digest, required, s, Producing())
    ensures var t := Run(digest, required, s, Producing());
            && t.drafts == s.drafts + [DraftOf(c.args, c.id, Ref(2026, s.nextRef))]
            && t.calls == [c.(pc := Returned(Ref(2026, s.nextRef)))]
  {
    var c1 := c.(stage := Begun);
    var c2 := c1.(draft := Some(DraftOf(c.args, c.id, Ref(2026, s.nextRef))));
    var s1 := s.(calls := [c1]);
    var s2 := s.(calls := [c2], nextRef := s.nextRef + 1);
    OneCall(c, c1);
    OneCall(c1, c2);
    ClosingRuns(digest, required, s2, c2, "t2");
    Cons(digest, required, s1, WriteDraft(0, 2026), s2, Closing("t2"));
    Cons(digest, required, s, Begin(0), s1, [WriteDraft(0, 2026)] + Closing("t2"));
  }

  /** Every database step of one undisturbed call. */
  function WholeCall(): seq<Event> { Checking() + Producing() }

  lemma WholeCallOpensNothing()
    ensures OpensNothing(WholeCall())
  {
  }

  /** A call alone in the database, with the clearance and a valid input, writes its draft and returns it. */
  lemma WholeCallRuns(digest: string -> string, required: nat, s: State, c: Call)
    requires s.calls == [c] && s.lock.None? && c.pc.Attempting? && c.stage.Idle? && c.draft.None?
    requires AtLeast(c.id.clearance, required) && ValidInput(c.args)
    ensures Possible(digest, required, s, WholeCall())
    ensures var t := Run(digest, required, s, WholeCall());
            && t.drafts == s.drafts + [DraftOf(c.args, c.id, Ref(2026, s.nextRef))]
            && t.calls == [c.(pc := Returned(Ref(2026, s.nextRef)))]
  {
    CheckingRuns(digest, required, s, c);
    DraftingRuns(digest, required, Run(digest, required, s, Checking()), c.(pc := Drafting));
    RunOn(digest, required, s, Checking(), Producing());
  }
}
