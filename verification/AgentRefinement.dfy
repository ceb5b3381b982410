/** The step system and the runner agree: what a process does to a run between picking it up and putting it
    down, among all other steps of the world, is one invocation of the graph. */
module AgentRefinement {
  import opened Text
  import opened Agent
  import opened AgentWorld

  /** The events take place while one process works on slot t without dying, up to its pause. */
  predicate Uninterrupted(events: seq<Event>, t: nat)
    decreases |events|
  {
    && events != []
    && (events[0] == Pause(t) ==> |events| == 1)
    && (events[0] != Pause(t) ==> events[0] != Crash(t) && Uninterrupted(events[1..], t))
  }

  predicate Concerns(e: Event, t: nat) { !e.Start? && !e.Database? && e.t == t }

  lemma OthersLeaveSlot(env: Env, digest: string -> string, required: nat, w: World, e: Event, t: nat)
    requires Enabled(w, e) && t < |w.slots| && !Concerns(e, t)
    ensures var x := Next(env, digest, required, w, e); t < |x.slots| && x.slots[t] == w.slots[t]
  {
  }

  // ---- what a busy slot comes to -----------------------------------------------------------------------

  /** What the gateway answered does not matter to a run past its retrieval. */
  lemma {:induction false} RetrievalIsPast(env: Env, thread: Thread, o: Outside, p: Outside)
    requires Supplies(env, o) && Supplies(env, p) && o.attempts == p.attempts
    requires Remaining(thread.next) <= 4
    ensures Invoke(env, thread, None, o) == Invoke(env, thread, None, p)
    decreases Remaining(thread.next)
  {
    if thread.next.Some? && !IsGate(thread.next.value) {
      var input := InputFor(env, thread.next.value, None, o);
      SuperstepAdvances(env, thread, input);
      RetrievalIsPast(env, Superstep(env, thread, input), o, p);
    }
  }

  /** The attempts still open to a tool call that has `left` of them. */
  predicate Leads(env: Env, s: Slot, attempts: seq<Attempt>, end: Thread) {
    && attempts != [] && s.active.Acting? && |attempts| == s.active.left
    && end == Thread(ActNode(s.thread.values, Outcome(attempts)), None)
  }

  /** `end` is what one invocation makes of the slot, for what the outside held ready. */
  ghost predicate Completes(env: Env, s: Slot, end: Thread) {
    match s.active
    case Idle => false
    case Stepping(resume) =>
      (resume.Some? ==> AtGate(s.thread))
      && exists o :: Supplies(env, o) && end == Invoke(env, s.thread, resume, o)
    case Acting(_, _) => exists attempts :: Leads(env, s, attempts, end)
  }

  predicate Busy(s: Slot) {
    && !s.active.Idle?
    && (s.active.Stepping? && s.active.resume.Some? ==> AtGate(s.thread))
    && (s.active.Acting? ==> s.active.left > 0 && s.thread.next == Some(ActSar))
  }

  /** Some supply of attempts, all alike. */
  function Padding(n: nat): (p: seq<Attempt>)
    ensures |p| == n
  {
    seq(n, _ => NoConnection(""))
  }

  lemma PauseCompletes(env: Env, w: World, t: nat)
    requires Enabled(w, Pause(t))
    ensures Completes(env, w.slots[t], w.slots[t].thread)
  {
    var o := Outside(None, [], Padding(Limit(env.retries)));
    assert Supplies(env, o) && w.slots[t].thread == Invoke(env, w.slots[t].thread, None, o);
  }

  lemma AdvanceCompletes(env: Env, thread: Thread, input: Input, end: Thread)
    requires thread.next.Some? && Feeds(thread.next.value, input)
    requires !IsGate(thread.next.value) && !thread.next.value.ActSar?
    requires Completes(env, Slot(Superstep(env, thread, input), Stepping(None)), end)
    ensures Completes(env, Slot(thread, Stepping(None)), end)
  {
    var after := Superstep(env, thread, input);
    var o :| Supplies(env, o) && end == Invoke(env, after, None, o);
    var p := if input.Reply? then o.(answer := input.answer, contexts := input.contexts) else o;
    if input.Reply? { RetrievalIsPast(env, after, o, p); }
    assert InputFor(env, thread.next.value, None, p) == input;
    assert end == Invoke(env, thread, None, p);
  }

  lemma ConsumeCompletes(env: Env, thread: Thread, d: Decision, end: Thread)
    requires AtGate(thread)
    requires Completes(env, Slot(Superstep(env, thread, Human(d)), Stepping(None)), end)
    ensures Completes(env, Slot(thread, Stepping(Some(d))), end)
  {
    var after := Superstep(env, thread, Human(d));
    var o :| Supplies(env, o) && end == Invoke(env, after, None, o);
    assert InputFor(env, thread.next.value, Some(d), o) == Human(d);
    assert end == Invoke(env, thread, Some(d), o);
  }

  lemma CallCompletes(env: Env, thread: Thread, end: Thread)
    requires thread.next == Some(ActSar)
    requires Completes(env, Slot(thread, Acting(Limit(env.retries), None)), end)
    ensures Completes(env, Slot(thread, Stepping(None)), end)
  {
    var attempts :| Leads(env, Slot(thread, Acting(Limit(env.retries), None)), attempts, end);
    var o := Outside(None, [], attempts);
    assert attempts[..Limit(env.retries)] == attempts;
    var after := Superstep(env, thread, InputFor(env, ActSar, None, o));
    assert after == end && Invoke(env, after, None, o) == end;
    assert end == Invoke(env, thread, None, o);
  }

  /** An ended run stays as it is. */
  lemma EndedCompletes(env: Env, thread: Thread, end: Thread)
    requires thread.next.None? && Completes(env, Slot(thread, Stepping(None)), end)
    ensures end == thread
  {
  }

  lemma AttemptCompletes(env: Env, s: Slot, first: Attempt, rest: seq<Attempt>, end: Thread)
    requires s.active.Acting? && s.active.left == 1 + |rest|
    requires end == Thread(ActNode(s.thread.values, Outcome([first] + rest)), None)
    ensures Completes(env, s, end)
  {
    assert Leads(env, s, [first] + rest, end);
  }

  lemma RefusedCompletes(env: Env, w: World, x: World, t: nat, error: string, digest: string -> string, required: nat,
                         end: Thread)
    requires Enabled(w, Refused(t, error)) && x == Next(env, digest, required, w, Refused(t, error))
    requires Completes(env, x.slots[t], end)
    ensures Completes(env, w.slots[t], end)
  {
    var s := w.slots[t];
    if s.active.left > 1 {
      var attempts :| Leads(env, x.slots[t], attempts, end);
      assert ([NoConnection(error)] + attempts)[1..] == attempts;
      AttemptCompletes(env, s, NoConnection(error), attempts, end);
    } else {
      EndedCompletes(env, x.slots[t].thread, end);
      AttemptCompletes(env, s, NoConnection(error), [], end);
    }
  }

  lemma SettledCompletes(env: Env, s: Slot, first: Attempt, after: Thread, end: Thread)
    requires Busy(s) && s.active.Acting? && (first.Answer? || first.OtherFailure?)
    requires after == Superstep(env, s.thread, Tool(Outcome([first])))
    requires Completes(env, Slot(after, Stepping(None)), end)
    ensures Completes(env, s, end)
  {
    EndedCompletes(env, after, end);
    AttemptCompletes(env, s, first, Padding(s.active.left - 1), end);
  }

  lemma SendCompletes(env: Env, s: Slot, call: Option<nat>, end: Thread)
    requires s.active.Acting? && Completes(env, Slot(s.thread, Acting(s.active.left, call)), end)
    ensures Completes(env, s, end)
  {
    var attempts :| Leads(env, Slot(s.thread, Acting(s.active.left, call)), attempts, end);
    assert Leads(env, s, attempts, end);
  }

  /** A step of the process keeps what its slot comes to. */
  lemma OwnStepCompletes(env: Env, digest: string -> string, required: nat, w: World, e: Event, t: nat)
    requires t < |w.slots| && Enabled(w, e) && Concerns(e, t) && Busy(w.slots[t]) && !e.Pause? && !e.Crash?
    ensures var x := Next(env, digest, required, w, e);
            && t < |x.slots| && Busy(x.slots[t])
            && forall end :: Completes(env, x.slots[t], end) ==> Completes(env, w.slots[t], end)
  {
    var s, x := w.slots[t], Next(env, digest, required, w, e);
    hide Completes, Invoke;
    forall end | Completes(env, x.slots[t], end) ensures Completes(env, s, end) {
      match e
      case Advance(_, input) => AdvanceCompletes(env, s.thread, input, end);
      case Consume(_) => ConsumeCompletes(env, s.thread, s.active.resume.value, end);
      case Call(_) => CallCompletes(env, s.thread, end);
      case Refused(_, error) => RefusedCompletes(env, w, x, t, error, digest, required, end);
      case Send(_, _) => SendCompletes(env, s, x.slots[t].active.call, end);
      case Succeed(_) =>
        SettledCompletes(env, s, Answer(w.store.calls[s.active.call.value].pc.ref), x.slots[t].thread, end);
      case Broken(_, error) => SettledCompletes(env, s, OtherFailure(error), x.slots[t].thread, end);
    }
  }

  /** From any point of an invocation on, with the steps of all other runs, of the database and of other
      processes in between, the process leaves what one invocation makes of the run. */
  lemma {:induction false} ProcessCompletes(env: Env, digest: string -> string, required: nat, w: World,
                                            events: seq<Event>, t: nat)
    requires Possible(env, digest, required, w, events) && Uninterrupted(events, t)
    requires t < |w.slots| && Busy(w.slots[t])
    ensures var x := Run(env, digest, required, w, events);
            t < |x.slots| && x.slots[t].active.Idle? && Completes(env, w.slots[t], x.slots[t].thread)
    decreases |events|
  {
    hide Completes, Busy;
    var e, x := events[0], Next(env, digest, required, w, events[0]);
    if e == Pause(t) {
      PauseCompletes(env, w, t);
      assert events[1..] == [];
    } else {
      if Concerns(e, t) {
        OwnStepCompletes(env, digest, required, w, e, t);
      } else {
        OthersLeaveSlot(env, digest, required, w, e, t);
      }
      ProcessCompletes(env, digest, required, x, events[1..], t);
    }
  }

  /** A decision that is delivered to a paused run and followed up without a crash leaves exactly what the
      runner's resume leaves, whatever else happens in between. */
  lemma ResumeRefinesRunner(env: Env, digest: string -> string, required: nat, w: World, t: nat, d: Decision,
                            events: seq<Event>)
    requires t < |w.slots| && w.slots[t].active.Idle? && Resumable(w.slots[t].thread)
    requires Possible(env, digest, required, w, [Resume(t, d)] + events) && Uninterrupted(events, t)
    ensures var x := Run(env, digest, required, w, [Resume(t, d)] + events);
            && t < |x.slots| && x.slots[t].active.Idle?
            && exists o :: Supplies(env, o) && x.slots[t].thread == Resumed(env, w.slots[t].thread, d, o)
  {
    assert ([Resume(t, d)] + events)[1..] == events;
    var y := Next(env, digest, required, w, Resume(t, d));
    ProcessCompletes(env, digest, required, y, events, t);
    var end := Run(env, digest, required, y, events).slots[t].thread;
    var o :| Supplies(env, o) && end == Invoke(env, y.slots[t].thread, Some(d), o);
    assert end == Resumed(env, w.slots[t].thread, d, o);
  }

  /** A run that is started and not interrupted reaches exactly what the runner's start reaches. */
  lemma StartRefinesRunner(env: Env, digest: string -> string, required: nat, w: World,
                           runId: string, account: string, period: string, caller: string, events: seq<Event>)
    requires Possible(env, digest, required, w, [Start(runId, account, period, caller)] + events)
    requires Uninterrupted(events, |w.slots|)
    ensures var x := Run(env, digest, required, w, [Start(runId, account, period, caller)] + events);
            && |w.slots| < |x.slots| && x.slots[|w.slots|].active.Idle?
            && exists o :: Supplies(env, o) && x.slots[|w.slots|].thread
                 == Invoke(env, Thread(Fresh(account, period, runId, caller), Some(Planner)), None, o)
  {
    var e := Start(runId, account, period, caller);
    assert ([e] + events)[1..] == events;
    var y := Next(env, digest, required, w, e);
    ProcessCompletes(env, digest, required, y, events, |w.slots|);
  }
}
