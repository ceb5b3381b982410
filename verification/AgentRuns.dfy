/** What every run of the whole system guarantees, from a human decision to a committed draft. */
module AgentRuns {
  import opened Agent
  import opened AgentWorld
  import G = GovernedWrite

  /** Over every run, with retries, failures before and after sending, and crashes anywhere, no run id
      ever has two drafts. */
  lemma AtMostOneDraftPerRun(env: Env, digest: string -> string, required: nat, events: seq<Event>, a: nat, b: nat)
    requires Possible(env, digest, required, START, events)
    requires a < b < |Run(env, digest, required, START, events).store.drafts|
    ensures var drafts := Run(env, digest, required, START, events).store.drafts;
            drafts[a].runId != drafts[b].runId
  {
    ReachableHoldsInv(env, digest, required, events);
    var w := Run(env, digest, required, START, events);
    if w.store.drafts[a].runId == w.store.drafts[b].runId {
      var i, j := G.TwoDraftsTwoCalls(digest, required, w.store, a, b);
      OneCallPerRun(w.store, i, j);
    }
  }

  /** A draft exists only if an approval was delivered to its run at the approval gate. A run whose
      decisions all came at the clarification gate, or were not approvals, never has a draft. */
  lemma DraftNeedsApproval(env: Env, digest: string -> string, required: nat, events: seq<Event>, a: nat)
    requires Possible(env, digest, required, START, events)
    requires a < |Run(env, digest, required, START, events).store.drafts|
    ensures var w := Run(env, digest, required, START, events);
            ApprovalDelivered(w, w.store.drafts[a].runId)
  {
    ReachableHoldsInv(env, digest, required, events);
    DraftWasApproved(digest, required, Run(env, digest, required, START, events), a);
  }

  /** Once the gate has consumed a decision that is not an approval, nothing that is delivered or happens
      later gives the run a draft, and the decision stands. */
  lemma RejectionIsFinal(env: Env, digest: string -> string, required: nat,
                         before: seq<Event>, after: seq<Event>, t: nat)
    requires Possible(env, digest, required, START, before)
    requires Possible(env, digest, required, Run(env, digest, required, START, before), after)
    requires var w := Run(env, digest, required, START, before);
             t < |w.slots| && w.slots[t].thread.values.approval.Some? && !Approved(w.slots[t].thread.values)
    ensures var w := Run(env, digest, required, START, before);
            var x := Run(env, digest, required, w, after);
            && t < |x.slots| && x.slots[t].thread.values.approval == w.slots[t].thread.values.approval
            && forall a :: 0 <= a < |x.store.drafts| ==> x.store.drafts[a].runId != w.slots[t].thread.values.runId
  {
    ReachableHoldsInv(env, digest, required, before);
    var w := Run(env, digest, required, START, before);
    RunSettles(env, digest, required, w, after, t);
    RunKeepsInv(env, digest, required, w, after);
    var x := Run(env, digest, required, w, after);
    forall a | 0 <= a < |x.store.drafts| ensures x.store.drafts[a].runId != w.slots[t].thread.values.runId {
      RejectedHasNoDraft(digest, required, x, t, a);
    }
  }

  /** A run that reports a draft has that draft committed for it, and no run takes more than six supersteps. */
  lemma ReportedDraftExists(env: Env, digest: string -> string, required: nat, events: seq<Event>, t: nat)
    requires Possible(env, digest, required, START, events)
    requires t < |Run(env, digest, required, START, events).slots|
    ensures var w := Run(env, digest, required, START, events);
            var v := w.slots[t].thread.values;
            && v.stepCount <= 6
            && (v.draftRef.Some? ==> Drafted(w.store, v.runId, v.draftRef.value))
  {
    ReachableHoldsInv(env, digest, required, events);
    assert SlotOk(Run(env, digest, required, START, events), Run(env, digest, required, START, events).slots[t]);
  }
}
