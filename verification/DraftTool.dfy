/** The tool as its threads execute it: each method issues the database steps of one call in order. */
module DraftTool {
  import opened Text
  import opened AuditChain
  import opened DraftRefs
  import opened GovernedWrite
  import opened GovernedRules

  /** How a transaction ends: it commits, it fails, or it commits and its caller is told it failed. */
  datatype Fate = Commits | Fails | Unreported

  datatype Reply = Result(ref: string) | Exception

  /** The phases left up to the clearance re-check. */
  function Opening(granted: bool, attempt: Fate, last: Fate): seq<Phase> {
    if attempt.Fails? then []
    else if attempt.Unreported? || granted then [Attempt]
    else [Attempt] + Unless(last, Denied)
  }

  /** The phases left by a call that passed the re-check. */
  function Writing(valid: bool, draft: Fate, last: Fate): seq<Phase> {
    if !valid || draft.Fails? then Unless(last, Error)
    else if draft.Commits? then [Success]
    else [Success] + Unless(last, Error)
  }

  /** The phases a call leaves, given how its transactions end. */
  function Leaves(granted: bool, valid: bool, attempt: Fate, draft: Fate, last: Fate): seq<Phase> {
    Opening(granted, attempt, last) + (if attempt.Commits? && granted then Writing(valid, draft, last) else [])
  }

  function Unless(fate: Fate, phase: Phase): seq<Phase> { if fate.Fails? then [] else [phase] }

  // ---- steps of the database model ------------------------------------------------------------------

  /** t is reached from s by steps of the concurrent model. */
  ghost predicate Follows(digest: string -> string, required: nat, s: State, t: State) {
    exists events :: Possible(digest, required, s, events) && Run(digest, required, s, events) == t
  }

  lemma NoStepFollows(digest: string -> string, required: nat, s: State)
    ensures Follows(digest, required, s, s)
  {
    assert Possible(digest, required, s, []) && Run(digest, required, s, []) == s;
  }

  lemma {:induction false} RunThenStep(digest: string -> string, required: nat, s: State, events: seq<Event>, e: Event)
    requires Possible(digest, required, s, events) && Enabled(Run(digest, required, s, events), e)
    ensures Possible(digest, required, s, events + [e])
    ensures Run(digest, required, s, events + [e]) == Next(digest, required, Run(digest, required, s, events), e)
    decreases |events|
  {
    if events == [] {
      assert events + [e] == [e] && [e][1..] == [];
    } else {
      assert (events + [e])[1..] == events[1..] + [e];
      RunThenStep(digest, required, Next(digest, required, s, events[0]), events[1..], e);
    }
  }

  lemma StepFollows(digest: string -> string, required: nat, s: State, t: State, e: Event)
    requires Follows(digest, required, s, t) && Enabled(t, e)
    ensures Follows(digest, required, s, Next(digest, required, t, e))
  {
    var events :| Possible(digest, required, s, events) && Run(digest, required, s, events) == t;
    RunThenStep(digest, required, s, events, e);
  }

  lemma FollowsKeepsInv(digest: string -> string, required: nat, s: State, t: State)
    requires Follows(digest, required, s, t) && Inv(digest, required, s)
    ensures Inv(digest, required, t)
  {
    var events :| Possible(digest, required, s, events) && Run(digest, required, s, events) == t;
    RunKeepsInv(digest, required, s, events);
  }

  function Inserting(digest: string -> string, s: State, i: nat, ts: string): State
    requires i < |s.calls| && Appending(s.calls[i].pc)
  {
    var c := s.calls[i];
    SetCall(s.(lock := Some(i), nextSeq := s.nextSeq + 1), i,
            c.(stage := Inserted(RowOf(digest, c, NewestHash(s.log), s.nextSeq, ts))))
  }

  function Concluded(s: State, i: nat, fate: Fate): State
    requires i < |s.calls| && s.calls[i].stage.Inserted? && Appending(s.calls[i].pc)
  {
    var c := s.calls[i];
    match fate
    case Commits => Committed(s, i, AfterCommit(c))
    case Unreported => Committed(s, i, AfterFailure(c.pc))
    case Fails => RolledBack(s, i, AfterFailure(c.pc))
  }

  /** The log has grown, for call i by rows of the given phases. */
  predicate Added(before: State, after: State, i: nat, phases: seq<Phase>) {
    && |before.log| == |before.owners| && |after.log| == |after.owners|
    && before.log <= after.log
    && Trace(after.log, after.owners, i) == Trace(before.log, before.owners, i) + phases
  }

  lemma AddedInTurn(before: State, mid: State, after: State, i: nat, p: seq<Phase>, q: seq<Phase>)
    requires Added(before, mid, i, p) && Added(mid, after, i, q)
    ensures Added(before, after, i, p + q)
  {
    assert (Trace(before.log, before.owners, i) + p) + q == Trace(before.log, before.owners, i) + (p + q);
  }

  lemma AddedNothing(before: State, after: State, i: nat)
    requires |before.log| == |before.owners| && after.log == before.log && after.owners == before.owners
    ensures Added(before, after, i, [])
  {
    assert Trace(before.log, before.owners, i) + [] == Trace(before.log, before.owners, i);
  }

  /** No transaction is open for the call. */
  predicate Resting(c: Call) { c.stage.Idle? && c.draft.None? }

  /** Only call i has moved, and it is between transactions. */
  predicate Between(before: State, after: State, i: nat) {
    && i < |before.calls| == |after.calls| && after.lock.None? && Resting(after.calls[i])
    && after.calls[i].args == before.calls[i].args && after.calls[i].id == before.calls[i].id
    && forall j :: 0 <= j < |before.calls| && j != i ==> after.calls[j] == before.calls[j]
  }

  lemma RowWasWritten(before: State, after: State, i: nat, fate: Fate, row: Row)
    requires |before.log| == |before.owners|
    requires after.log == (if fate.Fails? then before.log else before.log + [row])
    requires after.owners == (if fate.Fails? then before.owners else before.owners + [i])
    ensures Added(before, after, i, Unless(fate, row.phase))
  {
    if fate.Fails? {
      assert Trace(before.log, before.owners, i) + [] == Trace(before.log, before.owners, i);
    } else {
      TraceGrows(before.log, before.owners, row, i, i);
    }
  }

  class DraftSarTool {
    const digest: string -> string
    const required: nat
    ghost const start: State
    var s: State

    constructor (digest: string -> string, required: nat, s: State)
      ensures this.digest == digest && this.required == required && this.s == s && start == s && Reached()
    {
      this.digest, this.required, this.s, this.start := digest, required, s, s;
      NoStepFollows(digest, required, s);
    }

    /** The database came from where it was by steps of the model. */
    ghost predicate Reached()
      reads this
    {
      Follows(digest, required, start, s)
    }

    method Step(e: Event)
      requires Reached() && Enabled(s, e)
      modifies this`s
      ensures s == Next(digest, required, old(s), e) && Reached()
    {
      StepFollows(digest, required, start, s, e);
      s := Next(digest, required, s, e);
    }

    /** Takes the chain lock, reads the newest row's hash and inserts the new row. */
    method InsertRow(i: nat, ts: string)
      requires Reached() && i < |s.calls| && Appending(s.calls[i].pc)
      requires s.calls[i].stage.Begun? && s.lock.None? && (s.calls[i].pc.Drafting? ==> s.calls[i].draft.Some?)
      modifies this`s
      ensures Reached() && s == Inserting(digest, old(s), i, ts)
    {
      Step(Event.Lock(i));
      Step(Event.ReadTip(i));
      Step(Event.Insert(i, ts));
      assert s.calls == old(s.calls)[i := s.calls[i]];
    }

    /** Ends the transaction of call i; the row, and the draft if there is one, stay or go together. */
    method Conclude(i: nat, fate: Fate)
      requires Reached() && i < |s.calls| && s.calls[i].stage.Inserted? && Appending(s.calls[i].pc)
      modifies this`s
      ensures Reached() && s == Concluded(old(s), i, fate)
    {
      match fate
      case Commits => Step(Event.Commit(i));
      case Unreported => Step(Event.Lost(i));
      case Fails => Step(Event.Abort(i));
    }

    /** Appends the row that is due for call i in a transaction of its own. */
    method Append(i: nat, ts: string, fate: Fate)
      requires Reached() && i < |s.calls| && s.lock.None?
      requires var c := s.calls[i]; Appending(c.pc) && !c.pc.Drafting? && c.stage.Idle? && c.draft.None?
      modifies this`s
      ensures Reached() && s.lock.None?
      ensures var row := RowOf(digest, old(s.calls[i]), NewestHash(old(s.log)), old(s.nextSeq), ts);
              && s.log == (if fate.Fails? then old(s.log) else old(s.log) + [row])
              && s.owners == (if fate.Fails? then old(s.owners) else old(s.owners) + [i])
      ensures s.drafts == old(s.drafts) && s.nextRef == old(s.nextRef)
      ensures var c := old(s.calls[i]);
              s.calls == old(s.calls)[i := c.(pc := if fate.Commits? then AfterCommit(c) else AfterFailure(c.pc))]
      ensures |old(s.log)| == |old(s.owners)| ==> Added(old(s), s, i, Unless(fate, PhaseOf(old(s.calls[i].pc))))
    {
      hide Follows, AtLeast, Trace;
      ghost var row := RowOf(digest, s.calls[i], NewestHash(s.log), s.nextSeq, ts);
      Step(Event.Begin(i));
      InsertRow(i, ts);
      Conclude(i, fate);
      assert s.calls == old(s.calls)[i := s.calls[i]];
      if |old(s.log)| == |old(s.owners)| { RowWasWritten(old(s), s, i, fate, row); }
    }

    /** Writes the draft and its SUCCESS row in one transaction. */
    method CreateDraft(i: nat, year: nat, ts: string, fate: Fate)
      requires Reached() && i < |s.calls| && s.lock.None?
      requires var c := s.calls[i]; c.pc.Drafting? && c.stage.Idle? && c.draft.None?
      modifies this`s
      ensures Reached() && s.lock.None?
      ensures var c := old(s.calls[i]);
              var draft := DraftOf(c.args, c.id, Ref(year, old(s.nextRef)));
              var row := RowOf(digest, c.(draft := Some(draft)), NewestHash(old(s.log)), old(s.nextSeq), ts);
              && s.log == (if fate.Fails? then old(s.log) else old(s.log) + [row])
              && s.owners == (if fate.Fails? then old(s.owners) else old(s.owners) + [i])
              && s.drafts == (if fate.Fails? then old(s.drafts) else old(s.drafts) + [draft])
              && s.calls == old(s.calls)[i := c.(pc := if fate.Commits? then Returned(draft.ref) else Erroring)]
      ensures s.nextRef == old(s.nextRef) + 1
      ensures |old(s.log)| == |old(s.owners)| ==> Added(old(s), s, i, Unless(fate, Success))
    {
      hide Follows, AtLeast, Trace;
      Step(Event.Begin(i));
      Step(Event.WriteDraft(i, year));
      ghost var row := RowOf(digest, s.calls[i], NewestHash(s.log), s.nextSeq, ts);
      InsertRow(i, ts);
      Conclude(i, fate);
      assert s.calls == old(s.calls)[i := s.calls[i]];
      if |old(s.log)| == |old(s.owners)| { RowWasWritten(old(s), s, i, fate, row); }
    }

    /** What an append means for its caller: one more phase in the trace, unless it failed. */
    method Record(i: nat, ts: string, fate: Fate)
      requires Reached() && i < |s.calls| && s.lock.None? && |s.log| == |s.owners|
      requires Appending(s.calls[i].pc) && !s.calls[i].pc.Drafting? && Resting(s.calls[i])
      modifies this`s
      ensures Reached() && Between(old(s), s, i) && s.drafts == old(s.drafts) && s.nextRef == old(s.nextRef)
      ensures Added(old(s), s, i, Unless(fate, PhaseOf(old(s.calls[i].pc))))
      ensures s.calls[i].pc == if fate.Commits? then AfterCommit(old(s.calls[i])) else AfterFailure(old(s.calls[i].pc))
    {
      Append(i, ts, fate);
    }

    /** The ATTEMPT row, then the clearance re-check. */
    method Authorize(i: nat, ts: string, attempt: Fate, last: Fate) returns (granted: bool)
      requires Reached() && s.lock.None? && i < |s.calls| && |s.log| == |s.owners|
      requires s.calls[i].pc.Attempting? && Resting(s.calls[i])
      modifies this`s
      ensures Reached() && Between(old(s), s, i)
      ensures s.drafts == old(s.drafts) && s.nextRef == old(s.nextRef)
      ensures var ok := Grants(old(s.calls[i].id.clearance), required);
              && Added(old(s), s, i, Opening(ok, attempt, last))
              && granted == (attempt.Commits? && ok)
      ensures granted ==> s.calls[i].pc.Validating?
    {
      ghost var before := s;
      ClearedExactly(s.calls[i].id.clearance, required);
      Record(i, ts, attempt);
      if !attempt.Commits? { return false; }
      Step(Event.Recheck(i));
      granted := s.calls[i].pc.Validating?;
      if !granted {
        ghost var mid := s;
        Record(i, ts, last);
        AddedInTurn(before, mid, s, i, [Attempt], Unless(last, Denied));
      }
    }

    /** Validation, the draft with its SUCCESS row, and an ERROR row if anything was thrown. */
    method Write(i: nat, year: nat, ts: string, draft: Fate, last: Fate) returns (reply: Reply)
      requires Reached() && s.lock.None? && i < |s.calls| && |s.log| == |s.owners|
      requires s.calls[i].pc.Validating? && Resting(s.calls[i])
      modifies this`s
      ensures Reached() && Between(old(s), s, i)
      ensures var a := old(s.calls[i].args);
              var d := DraftOf(a, old(s.calls[i].id), Ref(year, old(s.nextRef)));
              && Added(old(s), s, i, Writing(ValidInput(a), draft, last))
              && s.drafts == (if ValidInput(a) && !draft.Fails? then old(s.drafts) + [d] else old(s.drafts))
              && reply == if ValidInput(a) && draft.Commits? then Result(d.ref) else Exception
    {
      hide Follows, AtLeast, RowOf, Ref, Trace, DraftOf, NewestHash, ValidInput;
      ghost var before := s;
      Step(Event.Validate(i));
      AddedNothing(before, s, i);
      ghost var written: seq<Phase> := [];
      if s.calls[i].pc.Drafting? {
        CreateDraft(i, year, ts, draft);
        written := Unless(draft, Success);
        if draft.Commits? { return Result(s.calls[i].pc.ref); }
      }
      ghost var mid := s;
      Record(i, ts, last);
      AddedInTurn(before, mid, s, i, written, Unless(last, Error));
      assert [] + Unless(last, Error) == Unless(last, Error);
      return Exception;
    }

    /** One call of the tool, from its ATTEMPT row to its reply. */
    method OpenDraftSar(a: Args, id: Identity, year: nat, ts: string, attempt: Fate, draft: Fate, last: Fate)
      returns (reply: Reply)
      requires Reached() && s.lock.None? && |s.log| == |s.owners|
      requires forall k :: 0 <= k < |s.owners| ==> s.owners[k] < |s.calls|
      modifies this`s
      ensures Reached() && s.lock.None?
      ensures var n := |old(s.calls)|;
              && |s.calls| == n + 1 && (forall j :: 0 <= j < n ==> s.calls[j] == old(s.calls[j]))
              && |s.log| == |s.owners| && old(s.log) <= s.log
              && Trace(s.log, s.owners, n)
                 == Leaves(Grants(id.clearance, required), Acceptable(a), attempt, draft, last)
      ensures attempt.Commits? && draft.Commits? && last.Commits? ==>
                Trace(s.log, s.owners, |old(s.calls)|)
                == [Attempt, if !Grants(id.clearance, required) then Denied
                             else if Acceptable(a) then Success else Error]
      ensures var ref := Ref(year, old(s.nextRef));
              var wrote := attempt.Commits? && Grants(id.clearance, required) && Acceptable(a) && !draft.Fails?;
              && |s.drafts| == |old(s.drafts)| + (if wrote then 1 else 0) && old(s.drafts) <= s.drafts
              && (wrote ==> var d := s.drafts[|old(s.drafts)|];
                            d.ref == ref && Answers(d, a, id, required))
              && reply == if wrote && draft.Commits? then Result(ref) else Exception
    {
      ClearedExactly(id.clearance, required);
      ValidExactly(a);
      hide Grants, Acceptable;
      var i := |s.calls|;
      StrangerHasNoRows(s.log, s.owners, i);
      Step(Event.Open(a, id));
      ghost var atOpen := s;
      var granted := Authorize(i, ts, attempt, last);
      reply := Exception;
      ghost var mid := s;
      if granted {
        reply := Write(i, year, ts, draft, last);
      } else {
        AddedNothing(mid, s, i);
      }
      AddedInTurn(atOpen, mid, s, i, Opening(Grants(id.clearance, required), attempt, last),
                  if granted then Writing(ValidInput(a), draft, last) else []);
    }
  }
}
