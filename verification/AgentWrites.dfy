/** What the human approved is what is written: every draft holds the proposal of its run. */
module AgentWrites {
  import opened Agent
  import opened AgentWorld
  import G = GovernedWrite
  import R = GovernedRules

  /** The call asks for what the run proposes, for the run's caller. */
  predicate Asks(c: G.Call, v: Values) {
    v.proposed.Some? && c.args == ToolArgs(v) && c.id.caller == v.caller
  }

  predicate CallsAsk(w: World) {
    forall t, k :: 0 <= t < |w.slots| && 0 <= k < |w.store.calls|
                   && w.store.calls[k].args.runId == w.slots[t].thread.values.runId ==>
                     Asks(w.store.calls[k], w.slots[t].thread.values)
  }

  predicate SameOrder(v: Values, u: Values) {
    u.proposed == v.proposed && u.runId == v.runId && u.caller == v.caller
  }

  /** Once a run has sent its call, its proposal no longer changes. */
  lemma CalledKeepsProposal(env: Env, digest: string -> string, required: nat, w: World, e: Event)
    requires Inv(digest, required, w) && Enabled(w, e) && !e.Start? && !e.Database? && !e.Send?
    requires Called(w.store, w.slots[e.t].thread.values.runId)
    ensures SameOrder(w.slots[e.t].thread.values, Next(env, digest, required, w, e).slots[e.t].thread.values)
  {
    hide G.Inv, Called, Drafted, DecisionOk;
    assert SlotOk(w, w.slots[e.t]);
  }

  lemma SlotStepKeepsAsking(env: Env, digest: string -> string, required: nat, w: World, e: Event)
    requires Inv(digest, required, w) && Enabled(w, e) && CallsAsk(w) && !e.Start? && !e.Database? && !e.Send?
    ensures CallsAsk(Next(env, digest, required, w, e))
  {
    hide Inv, SlotOk, Next, Enabled, Asks, Called;
    var x := Next(env, digest, required, w, e);
    StepChangesOneSlot(env, digest, required, w, e);
    forall t, k | 0 <= t < |x.slots| && 0 <= k < |x.store.calls|
                  && x.store.calls[k].args.runId == x.slots[t].thread.values.runId
      ensures Asks(x.store.calls[k], x.slots[t].thread.values)
    {
      assert x.store.calls[k] == w.store.calls[k];
      assert x.slots[t].thread.values.runId == w.slots[t].thread.values.runId;
      if t == e.t {
        CalledBy(w.store, k);
        CalledKeepsProposal(env, digest, required, w, e);
        SameOrderAsks(x.store.calls[k], w.slots[t].thread.values, x.slots[t].thread.values);
      }
    }
  }

  lemma CalledBy(store: G.State, k: nat)
    requires k < |store.calls|
    ensures Called(store, store.calls[k].args.runId)
  {
  }

  lemma SameOrderAsks(c: G.Call, v: Values, u: Values)
    requires SameOrder(v, u) && Asks(c, v)
    ensures Asks(c, u)
  {
  }

  lemma SendKeepsAsking(env: Env, digest: string -> string, required: nat, w: World, e: Event)
    requires Inv(digest, required, w) && Enabled(w, e) && CallsAsk(w) && e.Send?
    ensures CallsAsk(Next(env, digest, required, w, e))
  {
    hide G.Inv, SlotOk;
    var x := Next(env, digest, required, w, e);
    var n, v := |w.store.calls|, w.slots[e.t].thread.values;
    SendOpensFirstCall(env, digest, required, w, e);
    NewCall(env, digest, required, w, e);
    forall t, k | 0 <= t < |x.slots| && 0 <= k < |x.store.calls|
                  && x.store.calls[k].args.runId == x.slots[t].thread.values.runId
      ensures Asks(x.store.calls[k], x.slots[t].thread.values)
    {
      if k < n {
        assert x.store.calls[..n][k] == w.store.calls[k];
        assert x.slots[t].thread.values == w.slots[t].thread.values;
      } else {
        DistinctRuns(w, t, e.t);
      }
    }
  }

  lemma DistinctRuns(w: World, s: nat, t: nat)
    requires RunIdsDistinct(w) && s < |w.slots| && t < |w.slots|
    ensures w.slots[s].thread.values.runId == w.slots[t].thread.values.runId ==> s == t
  {
  }

  lemma NewCall(env: Env, digest: string -> string, required: nat, w: World, e: Event)
    requires Enabled(w, e) && e.Send?
    ensures var x := Next(env, digest, required, w, e);
            && |x.store.calls| == |w.store.calls| + 1
            && Asks(x.store.calls[|w.store.calls|], w.slots[e.t].thread.values)
            && (forall t :: 0 <= t < |w.slots| ==> x.slots[t].thread == w.slots[t].thread) && |x.slots| == |w.slots|
  {
  }

  lemma StartKeepsAsking(env: Env, digest: string -> string, required: nat, w: World, e: Event)
    requires Inv(digest, required, w) && Enabled(w, e) && CallsAsk(w) && e.Start?
    ensures CallsAsk(Next(env, digest, required, w, e))
  {
    hide G.Inv, SlotOk, Asks;
    CalledIsKnown(digest, required, w, e.runId);
    var x := Next(env, digest, required, w, e);
    forall t, k | 0 <= t < |x.slots| && 0 <= k < |x.store.calls|
                  && x.store.calls[k].args.runId == x.slots[t].thread.values.runId
      ensures Asks(x.store.calls[k], x.slots[t].thread.values)
    {
      CalledBy(w.store, k);
    }
  }

  lemma DatabaseKeepsAsking(env: Env, digest: string -> string, required: nat, w: World, e: Event)
    requires Enabled(w, e) && CallsAsk(w) && e.Database?
    ensures CallsAsk(Next(env, digest, required, w, e))
  {
    R.CallsStay(digest, required, w.store, e.e);
    hide G.Next, G.Enabled;
  }

  lemma StepKeepsAsking(env: Env, digest: string -> string, required: nat, w: World, e: Event)
    requires Inv(digest, required, w) && Enabled(w, e) && CallsAsk(w)
    ensures CallsAsk(Next(env, digest, required, w, e))
  {
    if e.Start? {
      StartKeepsAsking(env, digest, required, w, e);
    } else if e.Database? {
      DatabaseKeepsAsking(env, digest, required, w, e);
    } else if e.Send? {
      SendKeepsAsking(env, digest, required, w, e);
    } else {
      SlotStepKeepsAsking(env, digest, required, w, e);
    }
  }

  lemma StepKeepsTable(env: Env, digest: string -> string, required: nat, w: World, e: Event)
    requires Inv(digest, required, w) && Enabled(w, e) && R.TableOk(w.store, required)
    ensures R.TableOk(Next(env, digest, required, w, e).store, required)
  {
    hide R.TableOk, G.Inv, SlotOk;
    if e.Database? {
      R.StepKeepsTable(digest, required, w.store, e.e);
    } else if e.Send? {
      var v := w.slots[e.t].thread.values;
      R.StepKeepsTable(digest, required, w.store, G.Open(ToolArgs(v), G.Identity(v.caller, e.clearance)));
    } else if !e.Start? {
      StepChangesOneSlot(env, digest, required, w, e);
    }
  }

  lemma {:induction false} RunKeepsAsking(env: Env, digest: string -> string, required: nat, w: World,
                                          events: seq<Event>)
    requires Inv(digest, required, w) && Possible(env, digest, required, w, events)
    requires CallsAsk(w) && R.TableOk(w.store, required)
    ensures var x := Run(env, digest, required, w, events); CallsAsk(x) && R.TableOk(x.store, required)
    decreases |events|
  {
    hide CallsAsk, R.TableOk, Inv, Next, Enabled;
    if events != [] {
      StepKeepsAsking(env, digest, required, w, events[0]);
      StepKeepsTable(env, digest, required, w, events[0]);
      StepKeepsInv(env, digest, required, w, events[0]);
      RunKeepsAsking(env, digest, required, Next(env, digest, required, w, events[0]), events[1..]);
    }
  }

  /** Processes may die at any time, a decision may arrive whenever the run is idle, and a tool call may break at
      any time before or after it was sent, or find no connection before. */
  lemma FaultsAnywhere(digest: string -> string, required: nat, w: World, t: nat, d: Decision, error: string)
    requires Inv(digest, required, w) && t < |w.slots|
    ensures Enabled(w, Crash(t))
    ensures w.slots[t].active.Idle? ==> Enabled(w, Resume(t, d))
    ensures w.slots[t].active.Acting? ==> Enabled(w, Broken(t, error))
    ensures w.slots[t].active.Acting? && w.slots[t].active.call.None? && w.slots[t].active.left > 0 ==>
              Enabled(w, Refused(t, error)) && Enabled(w, Send(t, error))
  {
    hide G.Inv, Called, Drafted;
    assert SlotOk(w, w.slots[t]);
  }

  /** On every run of the system each draft holds, under the run id, exactly the account, period, rationale and
      citations of the proposal its run shows, which was approved, and the label its caller presented meets
      the requirement. */
  lemma DraftIsTheProposal(env: Env, digest: string -> string, required: nat, events: seq<Event>, a: nat)
    requires Possible(env, digest, required, START, events)
    requires a < |Run(env, digest, required, START, events).store.drafts|
    ensures var w := Run(env, digest, required, START, events);
            var d := w.store.drafts[a];
            exists t :: 0 <= t < |w.slots| && var v := w.slots[t].thread.values;
              && v.runId == d.runId && Approved(v) && v.proposed.Some?
              && d.account == v.proposed.value.account && d.period == v.proposed.value.period
              && d.rationale == v.proposed.value.rationale && d.citations == v.proposed.value.citations
              && R.Grants(d.clearance, required)
  {
    hide Possible, Run;
    ReachableHoldsInv(env, digest, required, events);
    G.InitHoldsInv(digest, required);
    RunKeepsAsking(env, digest, required, START, events);
    DraftInState(digest, required, Run(env, digest, required, START, events), a);
  }

  lemma DraftInState(digest: string -> string, required: nat, w: World, a: nat)
    requires Inv(digest, required, w) && CallsAsk(w) && R.TableOk(w.store, required) && a < |w.store.drafts|
    ensures var d := w.store.drafts[a];
            exists t :: 0 <= t < |w.slots| && var v := w.slots[t].thread.values;
              && v.runId == d.runId && Approved(v) && v.proposed.Some?
              && d.account == v.proposed.value.account && d.period == v.proposed.value.period
              && d.rationale == v.proposed.value.rationale && d.citations == v.proposed.value.citations
              && R.Grants(d.clearance, required)
  {
    hide G.Inv, PlaceOk, DecisionOk, R.Grants, R.Acceptable;
    var d := w.store.drafts[a];
    assert R.AnswersCall(w.store, d, required);
    var i :| 0 <= i < |w.store.calls| && R.Answers(d, w.store.calls[i].args, w.store.calls[i].id, required);
    assert Known(w, w.store.calls[i].args.runId);
    var t :| 0 <= t < |w.slots| && w.slots[t].thread.values.runId == w.store.calls[i].args.runId;
    assert Asks(w.store.calls[i], w.slots[t].thread.values);
    CalledBy(w.store, i);
    assert SlotOk(w, w.slots[t]);
  }
}
