/** The governed write end to end: many runs, human decisions, tool calls whose connection fails before
    or after sending, crashes between supersteps, and the concurrent database behind the tool. */
module AgentWorld {
  import opened Text
  import opened Agent
  import G = GovernedWrite

  /** What a process is doing for a run: nothing, supersteps (with a decision not yet consumed), or the
      tool call, with the attempts left and the call it has sent. */
  datatype Active = Idle | Stepping(resume: Option<Decision>) | Acting(left: nat, call: Option<nat>)

  datatype Slot = Slot(thread: Thread, active: Active)

  /** A decision delivered to a run while it was paused at a gate. */
  datatype Delivery = Delivery(runId: string, gate: Node, decision: Decision)

  datatype World = World(slots: seq<Slot>, store: G.State, deliveries: seq<Delivery>)

  /** Refused: an attempt that got no connection. Broken: any other failure, before or after sending.
      Resume while the run is busy is not modelled: resumes of one run do not overlap. */
  datatype Event =
    | Start(runId: string, account: string, period: string, caller: string)
    | Advance(t: nat, input: Input)
    | Pause(t: nat)
    | Resume(t: nat, decision: Decision)
    | Consume(t: nat)
    | Call(t: nat)
    | Refused(t: nat, error: string)
    | Send(t: nat, clearance: string)
    | Succeed(t: nat)
    | Broken(t: nat, error: string)
    | Crash(t: nat)
    | Database(e: G.Event)

  predicate Known(w: World, runId: string) { exists t :: 0 <= t < |w.slots| && w.slots[t].thread.values.runId == runId }

  predicate AtGate(thread: Thread) { thread.next.Some? && IsGate(thread.next.value) }

  predicate Enabled(w: World, e: Event) {
    if e.Start? then !Known(w, e.runId)
    else if e.Database? then !e.e.Open? && G.Enabled(w.store, e.e)
    else
      && e.t < |w.slots|
      && var thread, active := w.slots[e.t].thread, w.slots[e.t].active;
         match e
         case Advance(_, input) =>
           && active == Stepping(None) && thread.next.Some? && Feeds(thread.next.value, input)
           && !IsGate(thread.next.value) && !thread.next.value.ActSar?
         case Pause(_) => active == Stepping(None) && (thread.next.None? || IsGate(thread.next.value))
         case Resume(_, _) => active.Idle?
         case Consume(_) => active.Stepping? && active.resume.Some? && AtGate(thread)
         case Call(_) => active == Stepping(None) && thread.next == Some(ActSar)
         case Refused(_, _) => active.Acting? && active.call.None? && active.left > 0
         case Send(_, _) => active.Acting? && active.call.None? && active.left > 0 && thread.values.proposed.Some?
         case Succeed(_) =>
           && active.Acting? && active.call.Some? && active.call.value < |w.store.calls|
           && w.store.calls[active.call.value].pc.Returned? && thread.next == Some(ActSar)
         case Broken(_, _) => active.Acting? && thread.next == Some(ActSar)
         case Crash(_) => true
  }

  function SetSlot(w: World, t: nat, s: Slot): World
    requires t < |w.slots|
  {
    w.(slots := w.slots[t := s])
  }

  function ToolArgs(v: Values): G.Args
    requires v.proposed.Some?
  {
    var p := v.proposed.value;
    G.Args(p.account, p.period, p.rationale, p.citations, v.runId)
  }

  function Next(env: Env, digest: string -> string, required: nat, w: World, e: Event): World
    requires Enabled(w, e)
  {
    if e.Start? then
      w.(slots := w.slots + [Slot(Thread(Fresh(e.account, e.period, e.runId, e.caller),
                                         Some(Planner)), Stepping(None))])
    else if e.Database? then w.(store := G.Next(digest, required, w.store, e.e))
    else
      var thread, active := w.slots[e.t].thread, w.slots[e.t].active;
      match e
      case Advance(_, input) => SetSlot(w, e.t, Slot(Superstep(env, thread, input), Stepping(None)))
      case Pause(_) => SetSlot(w, e.t, Slot(thread, Idle))
      case Resume(_, d) =>
        if !Resumable(thread) then w
        else
          SetSlot(w, e.t, Slot(thread, Stepping(Some(d))))
          .(deliveries := w.deliveries + [Delivery(thread.values.runId, thread.next.value, d)])
      case Consume(_) => SetSlot(w, e.t, Slot(Superstep(env, thread, Human(active.resume.value)), Stepping(None)))
      case Call(_) => SetSlot(w, e.t, Slot(thread, Acting(Limit(env.retries), None)))
      case Refused(_, error) =>
        if active.left > 1 then SetSlot(w, e.t, Slot(thread, Acting(active.left - 1, None)))
        else SetSlot(w, e.t, Slot(Thread(ActNode(thread.values, Unopened("connect error: " + error)), None),
                                  Stepping(None)))
      case Send(_, clearance) =>
        SetSlot(w, e.t, Slot(thread, Acting(active.left, Some(|w.store.calls|))))
        .(store := G.Next(digest, required, w.store,
                          G.Open(ToolArgs(thread.values), G.Identity(thread.values.caller, clearance))))
      case Succeed(_) =>
        var ref := w.store.calls[active.call.value].pc.ref;
        SetSlot(w, e.t, Slot(Superstep(env, thread, Tool(Opened(ref))), Stepping(None)))
      case Broken(_, error) => SetSlot(w, e.t, Slot(Superstep(env, thread, Tool(Unopened(error))), Stepping(None)))
      case Crash(_) => SetSlot(w, e.t, Slot(thread, Idle))
  }

  predicate Possible(env: Env, digest: string -> string, required: nat, w: World, events: seq<Event>)
    decreases |events|
  {
    events != [] ==>
      Enabled(w, events[0]) && Possible(env, digest, required, Next(env, digest, required, w, events[0]), events[1..])
  }

  function Run(env: Env, digest: string -> string, required: nat, w: World, events: seq<Event>): World
    requires Possible(env, digest, required, w, events)
    decreases |events|
  {
    if events == [] then w else Run(env, digest, required, Next(env, digest, required, w, events[0]), events[1..])
  }

  const START := World([], G.INIT, [])

  // ---- the invariant ----------------------------------------------------------------------------------

  predicate Called(store: G.State, runId: string) {
    exists k :: 0 <= k < |store.calls| && store.calls[k].args.runId == runId
  }

  predicate Drafted(store: G.State, runId: string, ref: string) {
    exists a :: 0 <= a < |store.drafts| && store.drafts[a].runId == runId && store.drafts[a].ref == ref
  }

  /** What the checkpoint of a run says at each place of the graph. */
  predicate PlaceOk(thread: Thread) {
    var v := thread.values;
    && (v.status.Some? <==> thread.next.None?)
    && (v.draftRef.Some? ==> thread.next.None?)
    && (v.status == Some(RejectedRun) ==> v.approval.Some? && !Approved(v))
    && v.stepCount + Remaining(thread.next) <= 6
    && (thread.next.Some? ==>
          match thread.next.value
          case Clarify => v.approval.None? && v.proposed.None?
          case Approve => v.approval.None? && v.proposed.Some?
          case ActSar => Approved(v) && v.proposed.Some?
          case Rejected => v.approval.Some? && !Approved(v)
          case Assess => v.approval.None?
          case _ => v.approval.None? && v.proposed.None?)
  }

  /** A run that made a call was approved, and is past the point where it could make another. */
  predicate CallOk(store: G.State, s: Slot) {
    var v := s.thread.values;
    && (Called(store, v.runId) ==>
          && Approved(v)
          && (s.thread.next.None?
              || (s.thread.next == Some(ActSar) && (s.active.Idle? || (s.active.Acting? && s.active.call.Some?)))))
    && (s.active.Acting? ==>
          && s.thread.next == Some(ActSar)
          && (s.active.call.Some? ==>
                && s.active.call.value < |store.calls|
                && store.calls[s.active.call.value].args.runId == v.runId))
    && (v.draftRef.Some? ==> Drafted(store, v.runId, v.draftRef.value))
  }

  /** Every decision on record was delivered at its gate. */
  predicate DecisionOk(deliveries: seq<Delivery>, s: Slot) {
    var v := s.thread.values;
    && (v.approval.Some? ==> Delivery(v.runId, Approve, v.approval.value) in deliveries)
    && (s.active.Stepping? && s.active.resume.Some? ==>
          AtGate(s.thread) && Delivery(v.runId, s.thread.next.value, s.active.resume.value) in deliveries)
  }

  predicate SlotOk(w: World, s: Slot) { PlaceOk(s.thread) && CallOk(w.store, s) && DecisionOk(w.deliveries, s) }

  predicate RunIdsDistinct(w: World) {
    forall s, t :: 0 <= s < t < |w.slots| ==> w.slots[s].thread.values.runId != w.slots[t].thread.values.runId
  }

  predicate CallsDistinct(store: G.State) {
    forall j, k :: 0 <= j < k < |store.calls| ==> store.calls[j].args.runId != store.calls[k].args.runId
  }

  predicate Inv(digest: string -> string, required: nat, w: World) {
    && G.Inv(digest, required, w.store)
    && RunIdsDistinct(w) && CallsDistinct(w.store)
    && (forall k :: 0 <= k < |w.store.calls| ==> Known(w, w.store.calls[k].args.runId))
    && (forall t :: 0 <= t < |w.slots| ==> SlotOk(w, w.slots[t]))
  }

  // ---- every step keeps the invariant -------------------------------------------------------------------

  lemma DatabaseKeepsCalls(digest: string -> string, required: nat, s: G.State, e: G.Event)
    requires G.Enabled(s, e) && !e.Open?
    ensures var t := G.Next(digest, required, s, e);
            && |t.calls| == |s.calls| && s.drafts <= t.drafts
            && forall k :: 0 <= k < |s.calls| ==> t.calls[k].args == s.calls[k].args
  {
  }

  lemma SameCallsSameSlots(s: G.State, t: G.State, slot: Slot)
    requires |t.calls| == |s.calls| && s.drafts <= t.drafts
    requires forall k :: 0 <= k < |s.calls| ==> t.calls[k].args == s.calls[k].args
    requires CallOk(s, slot)
    ensures CallOk(t, slot)
  {
    var v := slot.thread.values;
    if Called(t, v.runId) {
      var k :| 0 <= k < |t.calls| && t.calls[k].args.runId == v.runId;
      assert s.calls[k].args.runId == v.runId;
    }
    if v.draftRef.Some? {
      var a :| 0 <= a < |s.drafts| && s.drafts[a].runId == v.runId && s.drafts[a].ref == v.draftRef.value;
      assert t.drafts[a] == s.drafts[a];
    }
  }

  lemma DatabaseKeepsInv(env: Env, digest: string -> string, required: nat, w: World, e: Event)
    requires Inv(digest, required, w) && Enabled(w, e) && e.Database?
    ensures Inv(digest, required, Next(env, digest, required, w, e))
  {
    var x := Next(env, digest, required, w, e);
    G.StepKeepsInv(digest, required, w.store, e.e);
    DatabaseKeepsCalls(digest, required, w.store, e.e);
    forall t | 0 <= t < |x.slots| ensures SlotOk(x, x.slots[t]) {
      assert SlotOk(w, w.slots[t]);
      SameCallsSameSlots(w.store, x.store, x.slots[t]);
    }
    forall k | 0 <= k < |x.store.calls| ensures Known(x, x.store.calls[k].args.runId) {
      assert Known(w, w.store.calls[k].args.runId);
    }
  }

  lemma CalledIsKnown(digest: string -> string, required: nat, w: World, runId: string)
    requires Inv(digest, required, w)
    ensures Called(w.store, runId) ==> Known(w, runId)
  {
    if Called(w.store, runId) {
      var k :| 0 <= k < |w.store.calls| && w.store.calls[k].args.runId == runId;
      assert Known(w, w.store.calls[k].args.runId);
    }
  }

  lemma StartKeepsInv(env: Env, digest: string -> string, required: nat, w: World, e: Event)
    requires Inv(digest, required, w) && Enabled(w, e) && e.Start?
    ensures Inv(digest, required, Next(env, digest, required, w, e))
  {
    hide G.Inv;
    var x := Next(env, digest, required, w, e);
    var n := |w.slots|;
    CalledIsKnown(digest, required, w, e.runId);
    forall t | 0 <= t < |x.slots| ensures SlotOk(x, x.slots[t]) {
      if t < n { assert SlotOk(w, w.slots[t]); }
    }
    KnownStays(w, x);
  }

  lemma KnownStays(w: World, x: World)
    requires |w.slots| <= |x.slots|
    requires forall t :: 0 <= t < |w.slots| ==> x.slots[t].thread.values.runId == w.slots[t].thread.values.runId
    ensures forall runId :: Known(w, runId) ==> Known(x, runId)
  {
    forall runId | Known(w, runId) ensures Known(x, runId) {
      var t :| 0 <= t < |w.slots| && w.slots[t].thread.values.runId == runId;
      assert x.slots[t].thread.values.runId == runId;
    }
  }

  /** A consumed approval decision is kept, and a run that is over stays as it is. */
  predicate Settles(before: Thread, after: Thread) {
    && before.values.runId == after.values.runId
    && (before.values.approval.Some? ==> after.values.approval == before.values.approval)
    && (before.next.None? ==> after == before)
  }

  /** Only slot t changes; the store and the deliveries may grow. */
  predicate OnlySlot(w: World, x: World, t: nat) {
    && t < |w.slots| == |x.slots|
    && Settles(w.slots[t].thread, x.slots[t].thread)
    && (forall s :: 0 <= s < |w.slots| && s != t ==> x.slots[s] == w.slots[s])
    && (forall d :: d in w.deliveries ==> d in x.deliveries)
  }

  lemma SlotStepKeepsInv(digest: string -> string, required: nat, w: World, x: World, t: nat)
    requires Inv(digest, required, w) && OnlySlot(w, x, t) && x.store == w.store && SlotOk(x, x.slots[t])
    ensures Inv(digest, required, x)
  {
    forall s | 0 <= s < |x.slots| ensures SlotOk(x, x.slots[s]) {
      if s != t { assert SlotOk(w, w.slots[s]); }
    }
    KnownStays(w, x);
  }

  lemma SuperstepPlace(env: Env, thread: Thread, input: Input)
    requires PlaceOk(thread) && thread.next.Some? && Feeds(thread.next.value, input)
    ensures var after := Superstep(env, thread, input);
            && PlaceOk(after) && Settles(thread, after)
            && (thread.next.value.Approve? ==> after.values.approval == Some(input.decision))
            && (!thread.next.value.Approve? ==> after.values.approval == thread.values.approval)
            && (input.Tool? && input.result.Opened? ==> after.values.draftRef == Some(input.result.draftRef))
            && (!(input.Tool? && input.result.Opened?) ==> after.values.draftRef == thread.values.draftRef)
  {
    SuperstepAdvances(env, thread, input);
  }

  lemma AdvanceKeepsSlot(env: Env, digest: string -> string, required: nat, w: World, e: Event)
    requires Inv(digest, required, w) && Enabled(w, e) && (e.Advance? || e.Consume?)
    ensures var x := Next(env, digest, required, w, e);
            OnlySlot(w, x, e.t) && x.store == w.store && SlotOk(x, x.slots[e.t])
  {
    hide G.Inv, Called, Drafted;
    assert SlotOk(w, w.slots[e.t]);
    SuperstepPlace(env, w.slots[e.t].thread, if e.Advance? then e.input else Human(w.slots[e.t].active.resume.value));
  }

  lemma ControlKeepsSlot(env: Env, digest: string -> string, required: nat, w: World, e: Event)
    requires Inv(digest, required, w) && Enabled(w, e) && (e.Pause? || e.Call? || e.Crash?)
    ensures var x := Next(env, digest, required, w, e);
            OnlySlot(w, x, e.t) && x.store == w.store && SlotOk(x, x.slots[e.t])
  {
    hide G.Inv, Called, Drafted;
    assert SlotOk(w, w.slots[e.t]);
  }

  lemma ResumeKeepsSlot(env: Env, digest: string -> string, required: nat, w: World, e: Event)
    requires Inv(digest, required, w) && Enabled(w, e) && e.Resume?
    ensures var x := Next(env, digest, required, w, e);
            OnlySlot(w, x, e.t) && x.store == w.store && SlotOk(x, x.slots[e.t])
  {
    hide G.Inv, Called, Drafted;
    assert SlotOk(w, w.slots[e.t]);
  }

  lemma RefusedKeepsSlot(env: Env, digest: string -> string, required: nat, w: World, e: Event)
    requires Inv(digest, required, w) && Enabled(w, e) && e.Refused?
    ensures var x := Next(env, digest, required, w, e);
            OnlySlot(w, x, e.t) && x.store == w.store && SlotOk(x, x.slots[e.t])
  {
    hide G.Inv, Called, Drafted;
    assert SlotOk(w, w.slots[e.t]);
    SuperstepPlace(env, w.slots[e.t].thread, Tool(Unopened("connect error: " + e.error)));
  }

  lemma SucceedKeepsSlot(env: Env, digest: string -> string, required: nat, w: World, e: Event)
    requires Inv(digest, required, w) && Enabled(w, e) && e.Succeed?
    ensures var x := Next(env, digest, required, w, e);
            OnlySlot(w, x, e.t) && x.store == w.store && SlotOk(x, x.slots[e.t])
  {
    hide G.Inv, Called;
    var slot := w.slots[e.t];
    assert SlotOk(w, slot);
    G.ReturnedDraftExists(digest, required, w.store, slot.active.call.value);
    SuperstepPlace(env, slot.thread, Tool(Opened(w.store.calls[slot.active.call.value].pc.ref)));
  }

  lemma BrokenKeepsSlot(env: Env, digest: string -> string, required: nat, w: World, e: Event)
    requires Inv(digest, required, w) && Enabled(w, e) && e.Broken?
    ensures var x := Next(env, digest, required, w, e);
            OnlySlot(w, x, e.t) && x.store == w.store && SlotOk(x, x.slots[e.t])
  {
    hide G.Inv, Called, Drafted;
    assert SlotOk(w, w.slots[e.t]);
    SuperstepPlace(env, w.slots[e.t].thread, Tool(Unopened(e.error)));
  }

  /** Sending opens the run's first and only call. */
  lemma SendOpensFirstCall(env: Env, digest: string -> string, required: nat, w: World, e: Event)
    requires Inv(digest, required, w) && Enabled(w, e) && e.Send?
    ensures !Called(w.store, w.slots[e.t].thread.values.runId)
    ensures var x := Next(env, digest, required, w, e);
            OnlySlot(w, x, e.t) && G.Inv(digest, required, x.store) && x.store.drafts == w.store.drafts
            && x.store.calls[..|w.store.calls|] == w.store.calls && |x.store.calls| == |w.store.calls| + 1
            && x.store.calls[|w.store.calls|].args.runId == w.slots[e.t].thread.values.runId
            && x.slots[e.t].thread == w.slots[e.t].thread && x.deliveries == w.deliveries
            && x.slots[e.t].active == Acting(w.slots[e.t].active.left, Some(|w.store.calls|))
  {
    hide PlaceOk, Drafted;
    var v := w.slots[e.t].thread.values;
    assert SlotOk(w, w.slots[e.t]);
    G.StepKeepsInv(digest, required, w.store, G.Open(ToolArgs(v), G.Identity(v.caller, e.clearance)));
  }

  lemma OneMoreCall(s: G.State, x: G.State, slot: Slot, runId: string)
    requires |x.calls| == |s.calls| + 1 && x.calls[..|s.calls|] == s.calls && x.drafts == s.drafts
    requires x.calls[|s.calls|].args.runId == runId && slot.thread.values.runId != runId
    requires CallOk(s, slot)
    ensures CallOk(x, slot)
  {
    var v := slot.thread.values;
    if Called(x, v.runId) {
      var k :| 0 <= k < |x.calls| && x.calls[k].args.runId == v.runId;
      assert x.calls[..|s.calls|][k] == s.calls[k];
    }
    if slot.active.Acting? && slot.active.call.Some? {
      assert x.calls[..|s.calls|][slot.active.call.value] == s.calls[slot.active.call.value];
    }
  }

  lemma SendKeepsSlots(env: Env, digest: string -> string, required: nat, w: World, e: Event)
    requires Inv(digest, required, w) && Enabled(w, e) && e.Send?
    ensures var x := Next(env, digest, required, w, e);
            forall t :: 0 <= t < |x.slots| ==> SlotOk(x, x.slots[t])
  {
    hide G.Inv;
    var x := Next(env, digest, required, w, e);
    var runId := w.slots[e.t].thread.values.runId;
    SendOpensFirstCall(env, digest, required, w, e);
    forall t | 0 <= t < |x.slots| ensures SlotOk(x, x.slots[t]) {
      assert SlotOk(w, w.slots[t]);
      if t != e.t {
        OneMoreCall(w.store, x.store, w.slots[t], runId);
      }
    }
  }

  lemma SendKeepsDistinct(env: Env, digest: string -> string, required: nat, w: World, e: Event)
    requires Inv(digest, required, w) && Enabled(w, e) && e.Send?
    ensures CallsDistinct(Next(env, digest, required, w, e).store)
  {
    SendOpensFirstCall(env, digest, required, w, e);
    OneMoreDistinct(w.store, Next(env, digest, required, w, e).store);
  }

  lemma OneMoreDistinct(s: G.State, x: G.State)
    requires CallsDistinct(s) && |x.calls| == |s.calls| + 1 && x.calls[..|s.calls|] == s.calls
    requires !Called(s, x.calls[|s.calls|].args.runId)
    ensures CallsDistinct(x)
  {
    assert forall k :: 0 <= k < |s.calls| ==> x.calls[k] == x.calls[..|s.calls|][k];
  }

  lemma SendKeepsKnown(env: Env, digest: string -> string, required: nat, w: World, e: Event)
    requires Inv(digest, required, w) && Enabled(w, e) && e.Send?
    ensures var x := Next(env, digest, required, w, e);
            RunIdsDistinct(x) && forall k :: 0 <= k < |x.store.calls| ==> Known(x, x.store.calls[k].args.runId)
  {
    hide G.Inv;
    var x := Next(env, digest, required, w, e);
    var n := |w.store.calls|;
    SendOpensFirstCall(env, digest, required, w, e);
    KnownStays(w, x);
    forall k | 0 <= k < |x.store.calls| ensures Known(x, x.store.calls[k].args.runId) {
      if k < n {
        assert x.store.calls[..n][k] == w.store.calls[k];
        assert Known(w, w.store.calls[k].args.runId);
      } else {
        assert x.slots[e.t].thread.values.runId == x.store.calls[k].args.runId;
      }
    }
  }

  lemma SendKeepsInv(env: Env, digest: string -> string, required: nat, w: World, e: Event)
    requires Inv(digest, required, w) && Enabled(w, e) && e.Send?
    ensures Inv(digest, required, Next(env, digest, required, w, e))
  {
    hide G.Inv;
    SendOpensFirstCall(env, digest, required, w, e);
    SendKeepsSlots(env, digest, required, w, e);
    SendKeepsDistinct(env, digest, required, w, e);
    SendKeepsKnown(env, digest, required, w, e);
  }

  lemma StepChangesOneSlot(env: Env, digest: string -> string, required: nat, w: World, e: Event)
    requires Inv(digest, required, w) && Enabled(w, e) && !e.Start? && !e.Database?
    ensures var x := Next(env, digest, required, w, e);
            OnlySlot(w, x, e.t) && (!e.Send? ==> x.store == w.store && SlotOk(x, x.slots[e.t]))
  {
    if e.Send? {
      SendOpensFirstCall(env, digest, required, w, e);
    } else if e.Advance? || e.Consume? {
      AdvanceKeepsSlot(env, digest, required, w, e);
    } else if e.Resume? {
      ResumeKeepsSlot(env, digest, required, w, e);
    } else if e.Refused? {
      RefusedKeepsSlot(env, digest, required, w, e);
    } else if e.Succeed? {
      SucceedKeepsSlot(env, digest, required, w, e);
    } else if e.Broken? {
      BrokenKeepsSlot(env, digest, required, w, e);
    } else {
      ControlKeepsSlot(env, digest, required, w, e);
    }
  }

  lemma StepKeepsInv(env: Env, digest: string -> string, required: nat, w: World, e: Event)
    requires Inv(digest, required, w) && Enabled(w, e)
    ensures Inv(digest, required, Next(env, digest, required, w, e))
  {
    if e.Start? {
      StartKeepsInv(env, digest, required, w, e);
    } else if e.Database? {
      DatabaseKeepsInv(env, digest, required, w, e);
    } else if e.Send? {
      SendKeepsInv(env, digest, required, w, e);
    } else {
      StepChangesOneSlot(env, digest, required, w, e);
      SlotStepKeepsInv(digest, required, w, Next(env, digest, required, w, e), e.t);
    }
  }

  lemma {:induction false} RunKeepsInv(env: Env, digest: string -> string, required: nat, w: World, events: seq<Event>)
    requires Inv(digest, required, w) && Possible(env, digest, required, w, events)
    ensures Inv(digest, required, Run(env, digest, required, w, events))
    decreases |events|
  {
    if events != [] {
      StepKeepsInv(env, digest, required, w, events[0]);
      RunKeepsInv(env, digest, required, Next(env, digest, required, w, events[0]), events[1..]);
    }
  }

  // ---- what every run guarantees --------------------------------------------------------------------------

  lemma ReachableHoldsInv(env: Env, digest: string -> string, required: nat, events: seq<Event>)
    requires Possible(env, digest, required, START, events)
    ensures Inv(digest, required, Run(env, digest, required, START, events))
  {
    G.InitHoldsInv(digest, required);
    RunKeepsInv(env, digest, required, START, events);
  }

  lemma OneCallPerRun(store: G.State, i: nat, j: nat)
    requires CallsDistinct(store) && i < |store.calls| && j < |store.calls| && i != j
    ensures store.calls[i].args.runId != store.calls[j].args.runId
  {
  }

  lemma SlotOfDraft(digest: string -> string, required: nat, w: World, a: nat) returns (t: nat)
    requires Inv(digest, required, w) && a < |w.store.drafts|
    ensures t < |w.slots| && w.slots[t].thread.values.runId == w.store.drafts[a].runId
    ensures Called(w.store, w.store.drafts[a].runId)
  {
    var i := G.DraftFromCall(digest, required, w.store, a);
    assert Known(w, w.store.calls[i].args.runId);
    t :| t < |w.slots| && w.slots[t].thread.values.runId == w.store.drafts[a].runId;
  }

  /** An approval was delivered to the run while it was paused at the approval gate. */
  predicate ApprovalDelivered(w: World, runId: string) {
    exists d :: d in w.deliveries && d.runId == runId && d.gate == Approve && Truthy(d.decision.approved)
  }

  lemma DraftWasApproved(digest: string -> string, required: nat, w: World, a: nat)
    requires Inv(digest, required, w) && a < |w.store.drafts|
    ensures ApprovalDelivered(w, w.store.drafts[a].runId)
  {
    var t := SlotOfDraft(digest, required, w, a);
    assert SlotOk(w, w.slots[t]);
    var v := w.slots[t].thread.values;
    assert Delivery(v.runId, Approve, v.approval.value) in w.deliveries;
  }

  lemma StepSettles(env: Env, digest: string -> string, required: nat, w: World, e: Event, t: nat)
    requires Inv(digest, required, w) && Enabled(w, e) && t < |w.slots|
    ensures var x := Next(env, digest, required, w, e);
            t < |x.slots| && Settles(w.slots[t].thread, x.slots[t].thread)
  {
    if !e.Start? && !e.Database? {
      StepChangesOneSlot(env, digest, required, w, e);
    }
  }

  lemma {:induction false} RunSettles(env: Env, digest: string -> string, required: nat,
                                      w: World, events: seq<Event>, t: nat)
    requires Inv(digest, required, w) && Possible(env, digest, required, w, events) && t < |w.slots|
    ensures var x := Run(env, digest, required, w, events);
            t < |x.slots| && Settles(w.slots[t].thread, x.slots[t].thread)
    decreases |events|
  {
    if events != [] {
      StepSettles(env, digest, required, w, events[0], t);
      StepKeepsInv(env, digest, required, w, events[0]);
      RunSettles(env, digest, required, Next(env, digest, required, w, events[0]), events[1..], t);
    }
  }

  lemma RejectedHasNoDraft(digest: string -> string, required: nat, w: World, t: nat, a: nat)
    requires Inv(digest, required, w) && t < |w.slots| && a < |w.store.drafts|
    requires w.slots[t].thread.values.approval.Some? && !Approved(w.slots[t].thread.values)
    ensures w.store.drafts[a].runId != w.slots[t].thread.values.runId
  {
    assert SlotOk(w, w.slots[t]);
    var s := SlotOfDraft(digest, required, w, a);
  }

  /** FAILED does not mean that nothing was written: when the answer of a call that wrote its draft is
      lost, the run ends FAILED and the draft stays. */
  lemma FailedRunMayHaveDraft(env: Env, digest: string -> string, required: nat, w: World, t: nat, error: string)
    requires Inv(digest, required, w) && t < |w.slots|
    requires w.slots[t].active.Acting? && w.slots[t].active.call.Some?
    requires w.slots[t].active.call.value < |w.store.calls| && w.store.calls[w.slots[t].active.call.value].pc.Returned?
    ensures Enabled(w, Broken(t, error))
    ensures var x := Next(env, digest, required, w, Broken(t, error));
            && x.slots[t].thread.values.status == Some(FailedRun)
            && Drafted(x.store, x.slots[t].thread.values.runId, w.store.calls[w.slots[t].active.call.value].pc.ref)
  {
    hide Called;
    assert SlotOk(w, w.slots[t]);
    G.ReturnedDraftExists(digest, required, w.store, w.slots[t].active.call.value);
  }
}
