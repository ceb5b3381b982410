/** What becomes of a run that is over: when it can still get a draft, and runs that show both ends. */
module AgentOutcomes {
  import opened Text
  import opened Agent
  import opened AgentWorld
  import G = GovernedWrite
  import P = GovernedProgress
  import DraftRefs

  // ---- database steps within a run of the whole system ------------------------------------------------

  function Lift(events: seq<G.Event>): seq<Event> {
    if events == [] then [] else [Database(events[0])] + Lift(events[1..])
  }

  lemma Cons(env: Env, digest: string -> string, required: nat, w: World, e: Event, x: World, rest: seq<Event>)
    requires Enabled(w, e) && Next(env, digest, required, w, e) == x && Possible(env, digest, required, x, rest)
    ensures Possible(env, digest, required, w, [e] + rest)
    ensures Run(env, digest, required, w, [e] + rest) == Run(env, digest, required, x, rest)
  {
    assert ([e] + rest)[1..] == rest;
  }

  lemma {:induction false} LiftRuns(env: Env, digest: string -> string, required: nat, w: World, events: seq<G.Event>)
    requires P.OpensNothing(events) && G.Possible(digest, required, w.store, events)
    ensures Possible(env, digest, required, w, Lift(events))
    ensures Run(env, digest, required, w, Lift(events)) == w.(store := G.Run(digest, required, w.store, events))
    decreases |events|
  {
    if events != [] {
      var x := w.(store := G.Next(digest, required, w.store, events[0]));
      LiftRuns(env, digest, required, x, events[1..]);
      Cons(env, digest, required, w, Database(events[0]), x, Lift(events[1..]));
    }
  }

  lemma {:induction false} RunOn(env: Env, digest: string -> string, required: nat, w: World,
                                 first: seq<Event>, later: seq<Event>)
    requires Possible(env, digest, required, w, first)
    requires Possible(env, digest, required, Run(env, digest, required, w, first), later)
    ensures Possible(env, digest, required, w, first + later)
    ensures Run(env, digest, required, w, first + later)
         == Run(env, digest, required, Run(env, digest, required, w, first), later)
    decreases |first|
  {
    hide Enabled;
    if first == [] {
      assert first + later == later;
    } else {
      assert (first + later)[1..] == first[1..] + later && (first + later)[0] == first[0];
      RunOn(env, digest, required, Next(env, digest, required, w, first[0]), first[1..], later);
    }
  }

  // ---- when a run that is over can still get a draft ----------------------------------------------------

  /** Some continuation leaves a draft of the run. */
  ghost predicate CanStillGetDraft(env: Env, digest: string -> string, required: nat, w: World, runId: string) {
    exists events :: Possible(env, digest, required, w, events)
                     && P.HasDraft(Run(env, digest, required, w, events).store, runId)
  }

  /** A call opened for another run. */
  lemma OthersSend(w: World, e: Event, t: nat, digest: string -> string, required: nat)
    requires Inv(digest, required, w) && Enabled(w, e) && e.Send?
    requires t < |w.slots| && w.slots[t].thread.next.None?
    ensures w.slots[e.t].thread.values.runId != w.slots[t].thread.values.runId
  {
    assert SlotOk(w, w.slots[t]) && SlotOk(w, w.slots[e.t]);
    assert e.t != t;
  }

  lemma StepStaysHopeless(env: Env, digest: string -> string, required: nat, w: World, e: Event, t: nat)
    requires Inv(digest, required, w) && Enabled(w, e) && t < |w.slots| && w.slots[t].thread.next.None?
    requires P.Hopeless(required, w.store, w.slots[t].thread.values.runId)
    ensures P.Hopeless(required, Next(env, digest, required, w, e).store, w.slots[t].thread.values.runId)
  {
    var runId := w.slots[t].thread.values.runId;
    if e.Database? {
      P.StepStaysHopeless(digest, required, w.store, e.e, runId);
    } else if e.Send? {
      OthersSend(w, e, t, digest, required);
      var v := w.slots[e.t].thread.values;
      P.StepStaysHopeless(digest, required, w.store, G.Open(ToolArgs(v), G.Identity(v.caller, e.clearance)), runId);
    } else if !e.Start? {
      StepChangesOneSlot(env, digest, required, w, e);
    }
  }

  lemma {:induction false} RunStaysHopeless(env: Env, digest: string -> string, required: nat, w: World,
                                            events: seq<Event>, t: nat)
    requires Inv(digest, required, w) && Possible(env, digest, required, w, events)
    requires t < |w.slots| && w.slots[t].thread.next.None?
    requires P.Hopeless(required, w.store, w.slots[t].thread.values.runId)
    ensures P.Hopeless(required, Run(env, digest, required, w, events).store, w.slots[t].thread.values.runId)
    decreases |events|
  {
    if events != [] {
      var x := Next(env, digest, required, w, events[0]);
      StepStaysHopeless(env, digest, required, w, events[0], t);
      StepKeepsInv(env, digest, required, w, events[0]);
      StepSettles(env, digest, required, w, events[0], t);
      RunStaysHopeless(env, digest, required, x, events[1..], t);
    }
  }

  lemma AbleCallGetsDraft(env: Env, digest: string -> string, required: nat, w: World, runId: string)
    requires Inv(digest, required, w) && P.MayWrite(required, w.store, runId)
    ensures CanStillGetDraft(env, digest, required, w, runId)
  {
    var k :| 0 <= k < |w.store.calls| && w.store.calls[k].args.runId == runId && P.CanWrite(required, w.store.calls[k]);
    var events := P.DraftReachable(digest, required, w.store, k);
    LiftRuns(env, digest, required, w, events);
    assert P.HasDraft(Run(env, digest, required, w, Lift(events)).store, runId);
  }

  /** A run that is over has a draft, or can still get one, exactly when the audit log holds its SUCCESS row
      or its call has the clearance and the input and is not yet denied, failed, lost or done. */
  lemma OverRunGetsDraftExactly(env: Env, digest: string -> string, required: nat, w: World, t: nat)
    requires Inv(digest, required, w) && t < |w.slots| && w.slots[t].thread.next.None?
    ensures var runId := w.slots[t].thread.values.runId;
            CanStillGetDraft(env, digest, required, w, runId)
            <==> P.SuccessLogged(w.store, runId) || P.MayWrite(required, w.store, runId)
  {
    var runId := w.slots[t].thread.values.runId;
    P.DraftIffLogged(digest, required, w.store, runId);
    if P.HasDraft(w.store, runId) {
      assert Possible(env, digest, required, w, []) && Run(env, digest, required, w, []) == w;
    } else if P.MayWrite(required, w.store, runId) {
      AbleCallGetsDraft(env, digest, required, w, runId);
    } else {
      forall events | Possible(env, digest, required, w, events)
        ensures !P.HasDraft(Run(env, digest, required, w, events).store, runId)
      {
        RunStaysHopeless(env, digest, required, w, events, t);
      }
    }
  }

  lemma DraftMeansCalled(digest: string -> string, required: nat, w: World, runId: string)
    requires Inv(digest, required, w) && !Called(w.store, runId)
    ensures P.Hopeless(required, w.store, runId)
  {
    if P.HasDraft(w.store, runId) {
      var a :| 0 <= a < |w.store.drafts| && w.store.drafts[a].runId == runId;
      var i := G.DraftFromCall(digest, required, w.store, a);
    }
  }

  // ---- two runs from the start ----------------------------------------------------------------------------

  const SAMPLE := Env(10_000.0, (s: string) => if s == "" then [] else [12_500.0], (a: real, b: real) => "breach", 2)

  const CONTEXTS := [Context(Some(1), Some("$12,500"))]

  const YES := Decision(Some(true), None, None)

  /** From the start of a run through its approval to the sent tool call. */
  function Approach(): seq<Event> {
    ToGate() + ToCall()
  }

  function ToGate(): seq<Event> {
    [Start("run_1", "ACC-1", "2026-Q2", "u")] + ([Advance(0, Nothing)]
    + ([Advance(0, Reply(None, CONTEXTS))] + FromAssess()))
  }

  function ToCall(): seq<Event> {
    [Resume(0, YES)] + ([Consume(0)] + ([Call(0)] + ([Send(0, "compliance")] + [])))
  }

  function Assessed(): Values {
    AssessNode(SAMPLE, Retrieved())
  }

  lemma SampleProposes()
    ensures Assessed().breach && Assessed().proposed.Some? && Assessed().approval.None?
    ensures Assessed().runId == "run_1" && Assessed().caller == "u"
    ensures G.ValidInput(ToolArgs(Assessed())) && ToolArgs(Assessed()).runId == "run_1"
  {
    var v := Retrieved();
    assert CONTEXTS[1..] == [];
    assert ContextAmounts(SAMPLE, CONTEXTS) == [12_500.0];
    assert v.amounts == [12_500.0];
    AttributableIffShown(SAMPLE, CONTEXTS);
    assert CONTEXTS[0].n.Some? && SAMPLE.extract(TextOf(CONTEXTS[0].snippet))[0] >= SAMPLE.threshold;
    assert Shows(SAMPLE, CONTEXTS[0]);
    assert Attributable(SAMPLE, CONTEXTS);
    var a := ToolArgs(Assessed());
    assert !IsWs(a.account[0]) && !IsWs(a.rationale[0]);
  }

  lemma NothingToStrip(s: string)
    requires s != "" && !IsWs(s[0]) && !IsWs(s[|s| - 1])
    ensures Strip(s) == s
  {
  }

  lemma ComplianceRank()
    ensures G.Rank("compliance") == Some(2)
  {
    hide Strip, StartsWithCi;
    var s := "compliance";
    NothingToStrip(s);
    StartsWithItself(s);
  }

  /** The world with one run about to hear from its tool call. */
  function Waiting(): World {
    var v := ApproveNode(Assessed(), YES);
    World([Slot(Thread(v, Some(ActSar)), Acting(3, Some(0)))],
          G.INIT.(calls := [FirstCall()]),
          [Delivery("run_1", Approve, YES)])
  }

  function FirstCall(): G.Call {
    SampleProposes();
    G.Call(ToolArgs(Assessed()), G.Identity("u", "compliance"), G.Attempting, G.Stage.Idle, None)
  }

  function One(thread: Thread, active: Active, deliveries: seq<Delivery>): World {
    World([Slot(thread, active)], G.INIT, deliveries)
  }

  lemma OneSlot(s: Slot, t: Slot)
    ensures [s][0 := t] == [t] && [] + [t] == [t]
  {
  }

  function Retrieved(): Values {
    RetrieveNode(SAMPLE, PlannerNode(Fresh("ACC-1", "2026-Q2", "run_1", "u")), None, CONTEXTS)
  }

  /** The events from the assessment on. */
  function FromAssess(): seq<Event> { [Advance(0, Nothing)] + ([Pause(0)] + []) }

  lemma FromAssessRuns(digest: string -> string, required: nat)
    ensures var w := One(Thread(Retrieved(), Some(Assess)), Stepping(None), []);
            && Possible(SAMPLE, digest, required, w, FromAssess())
            && Run(SAMPLE, digest, required, w, FromAssess()) == One(Thread(Assessed(), Some(Approve)), Idle, [])
  {
    hide AssessNode, Retrieved;
    SampleProposes();
    var t2, t3 := Thread(Retrieved(), Some(Assess)), Thread(Assessed(), Some(Approve));
    var w2, w3, w4 := One(t2, Stepping(None), []), One(t3, Stepping(None), []), One(t3, Idle, []);
    OneSlot(w2.slots[0], w3.slots[0]);
    OneSlot(w3.slots[0], w4.slots[0]);
    Cons(SAMPLE, digest, required, w3, Pause(0), w4, []);
    assert Superstep(SAMPLE, t2, Nothing) == t3;
    Cons(SAMPLE, digest, required, w2, Advance(0, Nothing), w3, [Pause(0)] + []);
  }

  lemma ToGateRuns(digest: string -> string, required: nat)
    ensures Possible(SAMPLE, digest, required, START, ToGate())
    ensures Run(SAMPLE, digest, required, START, ToGate()) == One(Thread(Assessed(), Some(Approve)), Idle, [])
  {
    hide AssessNode, RetrieveNode, PlannerNode;
    var v0 := Fresh("ACC-1", "2026-Q2", "run_1", "u");
    var t0, t1 := Thread(v0, Some(Planner)), Thread(PlannerNode(v0), Some(Retrieve));
    var t2 := Thread(Retrieved(), Some(Assess));
    var w0, w1, w2 := One(t0, Stepping(None), []), One(t1, Stepping(None), []), One(t2, Stepping(None), []);
    OneSlot(w0.slots[0], w0.slots[0]);
    OneSlot(w0.slots[0], w1.slots[0]);
    OneSlot(w1.slots[0], w2.slots[0]);
    FromAssessRuns(digest, required);
    assert Superstep(SAMPLE, t1, Reply(None, CONTEXTS)) == t2;
    Cons(SAMPLE, digest, required, w1, Advance(0, Reply(None, CONTEXTS)), w2, FromAssess());
    var e2 := [Advance(0, Reply(None, CONTEXTS))] + FromAssess();
    Cons(SAMPLE, digest, required, w0, Advance(0, Nothing), w1, e2);
    Cons(SAMPLE, digest, required, START, Start("run_1", "ACC-1", "2026-Q2", "u"), w0, [Advance(0, Nothing)] + e2);
  }

  lemma ToCallRuns(digest: string -> string, required: nat)
    ensures var w := One(Thread(Assessed(), Some(Approve)), Idle, []);
            Possible(SAMPLE, digest, required, w, ToCall()) && Run(SAMPLE, digest, required, w, ToCall()) == Waiting()
  {
    hide AssessNode, Retrieved, G.ValidInput;
    SampleProposes();
    var v4 := ApproveNode(Assessed(), YES);
    var t3, t4 := Thread(Assessed(), Some(Approve)), Thread(v4, Some(ActSar));
    var d := [Delivery("run_1", Approve, YES)];
    var w4, w5 := One(t3, Idle, []), One(t3, Stepping(Some(YES)), d);
    var w6, w7 := One(t4, Stepping(None), d), One(t4, Acting(3, None), d);
    OneSlot(w4.slots[0], w5.slots[0]);
    OneSlot(w5.slots[0], w6.slots[0]);
    OneSlot(w6.slots[0], w7.slots[0]);
    OneSlot(w7.slots[0], Waiting().slots[0]);
    assert [] + d == d;
    assert G.INIT.calls + [FirstCall()] == [FirstCall()];
    assert ToolArgs(v4) == ToolArgs(Assessed());
    Cons(SAMPLE, digest, required, w7, Send(0, "compliance"), Waiting(), []);
    var e7 := [Send(0, "compliance")] + [];
    Cons(SAMPLE, digest, required, w6, Call(0), w7, e7);
    assert Superstep(SAMPLE, t3, Human(YES)) == t4;
    Cons(SAMPLE, digest, required, w5, Consume(0), w6, [Call(0)] + e7);
    Cons(SAMPLE, digest, required, w4, Resume(0, YES), w5, [Consume(0)] + ([Call(0)] + e7));
  }

  /** The run up to the tool call, then every database step of that call. */
  function UpToDraft(): seq<Event> { Approach() + Lift(P.WholeCall()) }

  lemma WrittenRuns(digest: string -> string, required: nat)
    requires required <= 2
    ensures Possible(SAMPLE, digest, required, START, UpToDraft())
    ensures var w := Run(SAMPLE, digest, required, START, UpToDraft());
            var ref := DraftRefs.Ref(2026, 1);
            && w.slots == Waiting().slots
            && w.store.drafts == [G.DraftOf(FirstCall().args, FirstCall().id, ref)]
            && w.store.calls == [FirstCall().(pc := G.Returned(ref))]
  {
    hide AssessNode, Retrieved, G.ValidInput, G.AtLeast, G.Possible, G.Run;
    SampleProposes();
    ComplianceRank();
    ToGateRuns(digest, required);
    ToCallRuns(digest, required);
    RunOn(SAMPLE, digest, required, START, ToGate(), ToCall());
    P.WholeCallRuns(digest, required, Waiting().store, FirstCall());
    P.WholeCallOpensNothing();
    LiftRuns(SAMPLE, digest, required, Waiting(), P.WholeCall());
    RunOn(SAMPLE, digest, required, START, Approach(), Lift(P.WholeCall()));
  }

  /** The answer arrives: the run completes and reports its draft. */
  function RunAnswered(): seq<Event> { UpToDraft() + ([Succeed(0)] + []) }

  /** The answer is lost: the run ends FAILED. */
  function RunUnanswered(): seq<Event> { UpToDraft() + ([Broken(0, "read timeout")] + []) }

  /** One more event after the draft is written. */
  lemma AfterDraft(digest: string -> string, required: nat, e: Event)
    requires Possible(SAMPLE, digest, required, START, UpToDraft())
    requires Enabled(Run(SAMPLE, digest, required, START, UpToDraft()), e)
    ensures Possible(SAMPLE, digest, required, START, UpToDraft() + ([e] + []))
    ensures Run(SAMPLE, digest, required, START, UpToDraft() + ([e] + []))
         == Next(SAMPLE, digest, required, Run(SAMPLE, digest, required, START, UpToDraft()), e)
  {
    var w := Run(SAMPLE, digest, required, START, UpToDraft());
    Cons(SAMPLE, digest, required, w, e, Next(SAMPLE, digest, required, w, e), []);
    RunOn(SAMPLE, digest, required, START, UpToDraft(), [e] + []);
  }

  lemma WaitingValues()
    ensures Waiting().slots[0].thread.values.runId == "run_1" && Waiting().slots[0].thread.next == Some(ActSar)
    ensures Waiting().slots[0].active == Acting(3, Some(0)) && FirstCall().args.runId == "run_1"
  {
    SampleProposes();
  }

  /** A run that reaches its draft and completes. */
  lemma CompletedRunHasDraft(digest: string -> string, required: nat)
    requires required <= 2
    ensures Possible(SAMPLE, digest, required, START, RunAnswered())
    ensures var w := Run(SAMPLE, digest, required, START, RunAnswered());
            && |w.slots| == 1 && w.slots[0].thread.values.status == Some(Completed)
            && w.slots[0].thread.values.draftRef == Some(DraftRefs.Ref(2026, 1))
            && Drafted(w.store, "run_1", DraftRefs.Ref(2026, 1))
  {
    WrittenRuns(digest, required);
    WaitingValues();
    var w := Run(SAMPLE, digest, required, START, UpToDraft());
    assert Enabled(w, Succeed(0));
    AfterDraft(digest, required, Succeed(0));
    assert w.store.drafts[0].runId == "run_1";
  }

  /** FAILED does not mean that nothing was written: a run that ends FAILED with its draft committed. */
  lemma FailedRunHasDraft(digest: string -> string, required: nat)
    requires required <= 2
    ensures Possible(SAMPLE, digest, required, START, RunUnanswered())
    ensures var w := Run(SAMPLE, digest, required, START, RunUnanswered());
            && |w.slots| == 1 && w.slots[0].thread.values.status == Some(FailedRun)
            && Drafted(w.store, w.slots[0].thread.values.runId, DraftRefs.Ref(2026, 1))
  {
    hide AssessNode, Retrieved, Possible, Run;
    WrittenRuns(digest, required);
    WaitingValues();
    var w := Run(SAMPLE, digest, required, START, UpToDraft());
    ReachableHoldsInv(SAMPLE, digest, required, UpToDraft());
    FailedRunMayHaveDraft(SAMPLE, digest, required, w, 0, "read timeout");
    AfterDraft(digest, required, Broken(0, "read timeout"));
  }

  /** On every run of the system: a run that ended FAILED has a draft or can still get one exactly when the
      audit log holds its SUCCESS row or its call can still write; one that never sent a call never gets a draft. */
  lemma FailedRunGetsDraftExactly(env: Env, digest: string -> string, required: nat, events: seq<Event>, t: nat)
    requires Possible(env, digest, required, START, events)
    requires t < |Run(env, digest, required, START, events).slots|
    requires Run(env, digest, required, START, events).slots[t].thread.values.status == Some(FailedRun)
    ensures var w := Run(env, digest, required, START, events);
            var runId := w.slots[t].thread.values.runId;
            && (CanStillGetDraft(env, digest, required, w, runId)
                <==> P.SuccessLogged(w.store, runId) || P.MayWrite(required, w.store, runId))
            && (!Called(w.store, runId) ==> !CanStillGetDraft(env, digest, required, w, runId))
  {
    hide CanStillGetDraft, Called, P.MayWrite, P.SuccessLogged;
    ReachableHoldsInv(env, digest, required, events);
    var w := Run(env, digest, required, START, events);
    assert SlotOk(w, w.slots[t]);
    OverRunGetsDraftExactly(env, digest, required, w, t);
    if !Called(w.store, w.slots[t].thread.values.runId) {
      DraftMeansCalled(digest, required, w, w.slots[t].thread.values.runId);
      P.DraftIffLogged(digest, required, w.store, w.slots[t].thread.values.runId);
    }
  }
}
