/** What every run of the governed write guarantees. */
module GovernedRuns {
  import opened Text
  import opened AuditChain
  import opened GovernedWrite
  import opened GovernedRules

  /** Under every interleaving of calls and failures the committed rows, taken in sequence order, form a
      chain the verifier accepts, and they were committed in that order. */
  lemma LogIsAlwaysAChain(digest: string -> string, required: nat, events: seq<Event>)
    requires Possible(digest, required, INIT, events)
    ensures var log := Run(digest, required, INIT, events).log;
            Accepted(digest, log) && Increasing(log)
  {
    InitHoldsInv(digest, required);
    RunKeepsInv(digest, required, INIT, events);
  }

  /** In every reachable state SUCCESS rows and drafts correspond one to one by reference, and no
      reference is used twice. */
  lemma DraftsMatchSuccessRows(digest: string -> string, required: nat, events: seq<Event>)
    requires Possible(digest, required, INIT, events)
    ensures OneToOne(Run(digest, required, INIT, events).log, Run(digest, required, INIT, events).drafts)
  {
    InitHoldsInv(digest, required);
    RunKeepsInv(digest, required, INIT, events);
    OneToOneInState(digest, required, Run(digest, required, INIT, events));
  }

  /** Every SUCCESS row carries a label that meets the requirement, every DENIED row one that does not; with
      the default requirement, compliance, these are the two highest labels and all others. */
  lemma ClearanceDecides(digest: string -> string, required: nat, events: seq<Event>, k: nat)
    requires Possible(digest, required, INIT, events) && k < |Run(digest, required, INIT, events).log|
    ensures var r := Run(digest, required, INIT, events).log[k];
            && (r.phase == Success ==> Grants(r.clearance, required))
            && (r.phase == Denied ==> !Grants(r.clearance, required))
            && (required == 2 && r.phase == Success ==>
                  LowerAll(Strip(r.clearance)) == "compliance" || LowerAll(Strip(r.clearance)) == "restricted")
            && (required == 2 && r.phase == Denied ==>
                  LowerAll(Strip(r.clearance)) != "compliance" && LowerAll(Strip(r.clearance)) != "restricted")
  {
    hide LowerAll, Strip;
    RowsSayWhatWasAsked(digest, required, events, k);
  }

  /** What each call leaves in the log is one of six traces: nothing, or an ATTEMPT, then at most one
      DENIED, or at most one SUCCESS and at most one ERROR. Each row after the ATTEMPT finds it earlier
      in the log with the same run and argument digest. */
  lemma CallsFollowProtocol(digest: string -> string, required: nat, events: seq<Event>, i: nat)
    requires Possible(digest, required, INIT, events)
    ensures var s := Run(digest, required, INIT, events);
            && |s.owners| == |s.log|
            && (i < |s.calls| ==> Protocol(Trace(s.log, s.owners, i)))
            && (forall k :: 0 <= k < |s.log| && s.log[k].phase != Attempt ==>
                  exists j :: 0 <= j < k && s.owners[j] == s.owners[k] && AttemptOf(s.log[j], s.log[k]))
  {
    InitHoldsInv(digest, required);
    RunKeepsInv(digest, required, INIT, events);
    var s := Run(digest, required, INIT, events);
    if i < |s.calls| { assert TraceOk(s, i); }
    forall k | 0 <= k < |s.log| && s.log[k].phase != Attempt
      ensures exists j :: 0 <= j < k && s.owners[j] == s.owners[k] && AttemptOf(s.log[j], s.log[k])
    {
      AttemptExists(digest, required, s, k);
    }
  }
}
