/** The load generator: workers that share one counter, interleaved wherever they await a reply. */
module LoadRunner {

  /** A worker is about to look at the counter, waits for the reply to request `index`, or has left. */
  datatype Worker = Ready | Sending(index: nat) | Done

  datatype State = State(issued: nat, workers: seq<Worker>, results: seq<nat>)

  function Start(concurrency: nat): State { State(0, seq(concurrency, _ => Ready), []) }

  predicate Enabled(s: State, w: nat) { w < |s.workers| && !s.workers[w].Done? }

  /** Worker w runs up to its next await: it issues a request or leaves, or takes in a reply. */
  function Next(total: int, s: State, w: nat): State
    requires Enabled(s, w)
  {
    match s.workers[w]
    case Ready =>
      if s.issued < total then s.(issued := s.issued + 1, workers := s.workers[w := Sending(s.issued)])
      else s.(workers := s.workers[w := Done])
    case Sending(index) => s.(workers := s.workers[w := Ready], results := s.results + [index])
  }

  predicate Possible(total: int, s: State, schedule: seq<nat>)
    decreases |schedule|
  {
    schedule != [] ==> Enabled(s, schedule[0]) && Possible(total, Next(total, s, schedule[0]), schedule[1..])
  }

  function Run(total: int, s: State, schedule: seq<nat>): State
    requires Possible(total, s, schedule)
    decreases |schedule|
  {
    if schedule == [] then s else Run(total, Next(total, s, schedule[0]), schedule[1..])
  }

  predicate Finished(s: State) { forall w :: 0 <= w < |s.workers| ==> s.workers[w].Done? }

  // ---- no request is lost or repeated ------------------------------------------------------------

  function Own(w: Worker): multiset<nat> { if w.Sending? then multiset{w.index} else multiset{} }

  /** The requests that wait for a reply. */
  function InFlight(workers: seq<Worker>): multiset<nat> {
    if workers == [] then multiset{}
    else InFlight(workers[1..]) + Own(workers[0])
  }

  /** Each of the first n requests once. */
  function Upto(n: nat): multiset<nat> { if n == 0 then multiset{} else Upto(n - 1) + multiset{n - 1} }

  function Quota(total: int): nat { if total < 0 then 0 else total }

  /** Each issued request is in flight or has exactly one result. */
  predicate Counted(s: State) { multiset(s.results) + InFlight(s.workers) == Upto(s.issued) }

  predicate Inv(total: int, s: State) {
    && Counted(s)
    && s.issued <= Quota(total)
    && ((exists w :: 0 <= w < |s.workers| && s.workers[w].Done?) ==> s.issued >= total)
  }

  lemma AddToBoth(a: multiset<nat>, b: multiset<nat>, h: multiset<nat>, x: multiset<nat>, y: multiset<nat>)
    requires a + x == b + y
    ensures (a + h) + x == (b + h) + y
  {
    assert (a + h) + x == (a + x) + h;
    assert (b + h) + y == (b + y) + h;
  }

  lemma {:induction false} InFlightUpdate(workers: seq<Worker>, w: nat, to: Worker)
    requires w < |workers|
    ensures InFlight(workers[w := to]) + Own(workers[w]) == InFlight(workers) + Own(to)
  {
    hide Own;
    var updated := workers[w := to];
    if w == 0 {
      assert updated[1..] == workers[1..];
    } else {
      assert updated[1..] == workers[1..][w - 1 := to] && updated[0] == workers[0];
      InFlightUpdate(workers[1..], w - 1, to);
      AddToBoth(InFlight(updated[1..]), InFlight(workers[1..]), Own(workers[0]), Own(workers[w]), Own(to));
    }
  }

  lemma {:induction false} InFlightSize(workers: seq<Worker>)
    ensures |InFlight(workers)| <= |workers|
  {
    if workers != [] { InFlightSize(workers[1..]); }
  }

  lemma {:induction false} NoneInFlight(workers: seq<Worker>)
    requires forall w :: 0 <= w < |workers| ==> !workers[w].Sending?
    ensures InFlight(workers) == multiset{}
  {
    if workers != [] { NoneInFlight(workers[1..]); }
  }

  lemma Issue(results: multiset<nat>, before: multiset<nat>, after: multiset<nat>, n: nat)
    requires results + before == Upto(n) && after + multiset{} == before + multiset{n}
    ensures results + after == Upto(n + 1)
  {
    assert after == before + multiset{n};
    assert results + (before + multiset{n}) == (results + before) + multiset{n};
  }

  lemma TakeIn(results: seq<nat>, before: multiset<nat>, after: multiset<nat>, index: nat)
    requires after + multiset{index} == before
    ensures multiset(results + [index]) + after == multiset(results) + before
  {
    assert multiset(results + [index]) == multiset(results) + multiset{index};
  }

  lemma Leave(before: multiset<nat>, after: multiset<nat>)
    requires after + multiset{} == before + multiset{}
    ensures after == before
  {
    assert after + multiset{} == after && before + multiset{} == before;
  }

  lemma IssueKeepsCount(s: State, w: nat, workers: seq<Worker>)
    requires Counted(s) && w < |s.workers| && s.workers[w] == Ready && workers == s.workers[w := Sending(s.issued)]
    ensures multiset(s.results) + InFlight(workers) == Upto(s.issued + 1)
  {
    InFlightUpdate(s.workers, w, Sending(s.issued));
    Issue(multiset(s.results), InFlight(s.workers), InFlight(workers), s.issued);
  }

  lemma LeaveKeepsCount(s: State, w: nat, workers: seq<Worker>)
    requires Counted(s) && w < |s.workers| && s.workers[w] == Ready && workers == s.workers[w := Done]
    ensures multiset(s.results) + InFlight(workers) == Upto(s.issued)
  {
    InFlightUpdate(s.workers, w, Done);
    Leave(InFlight(s.workers), InFlight(workers));
  }

  lemma ReadyKeepsCount(total: int, s: State, w: nat)
    requires Counted(s) && Enabled(s, w) && s.workers[w].Ready?
    ensures Counted(Next(total, s, w))
  {
    if s.issued < total {
      IssueKeepsCount(s, w, Next(total, s, w).workers);
    } else {
      LeaveKeepsCount(s, w, Next(total, s, w).workers);
    }
  }

  lemma ReplyKeepsCount(total: int, s: State, w: nat)
    requires Counted(s) && Enabled(s, w) && s.workers[w].Sending?
    ensures Counted(Next(total, s, w))
  {
    InFlightUpdate(s.workers, w, Ready);
    Leave(InFlight(s.workers), InFlight(s.workers[w := Ready]) + multiset{s.workers[w].index});
    TakeIn(s.results, InFlight(s.workers), InFlight(s.workers[w := Ready]), s.workers[w].index);
  }

  lemma StepKeepsInv(total: int, s: State, w: nat)
    requires Inv(total, s) && Enabled(s, w)
    ensures Inv(total, Next(total, s, w))
  {
    var t := Next(total, s, w);
    if s.workers[w].Ready? { ReadyKeepsCount(total, s, w); } else { ReplyKeepsCount(total, s, w); }
    if k :| 0 <= k < |t.workers| && t.workers[k].Done? {
      if k != w { assert s.workers[k].Done?; }
    }
  }

  lemma {:induction false} RunKeepsInv(total: int, s: State, schedule: seq<nat>)
    requires Inv(total, s) && Possible(total, s, schedule)
    ensures Inv(total, Run(total, s, schedule))
    decreases |schedule|
  {
    if schedule != [] {
      StepKeepsInv(total, s, schedule[0]);
      RunKeepsInv(total, Next(total, s, schedule[0]), schedule[1..]);
    }
  }

  lemma {:induction false} UptoSize(n: nat)
    ensures |Upto(n)| == n
    ensures forall k: nat :: Upto(n)[k] == if k < n then 1 else 0
  {
    if n > 0 { UptoSize(n - 1); }
  }

  lemma StartHoldsInv(total: int, concurrency: nat)
    ensures Inv(total, Start(concurrency))
  {
    NoneInFlight(Start(concurrency).workers);
  }

  lemma {:induction false} RunKeepsWorkers(total: int, s: State, schedule: seq<nat>)
    requires Possible(total, s, schedule)
    ensures |Run(total, s, schedule).workers| == |s.workers|
    decreases |schedule|
  {
    if schedule != [] { RunKeepsWorkers(total, Next(total, s, schedule[0]), schedule[1..]); }
  }

  /** Under every interleaving: never more than `concurrency` requests are in flight and never more than
      the total is issued; each issued request is in flight or has exactly one result. */
  lemma LoadIsBounded(total: int, concurrency: nat, schedule: seq<nat>)
    requires Possible(total, Start(concurrency), schedule)
    ensures var s := Run(total, Start(concurrency), schedule);
            && |InFlight(s.workers)| <= concurrency
            && s.issued <= Quota(total)
            && multiset(s.results) + InFlight(s.workers) == Upto(s.issued)
  {
    StartHoldsInv(total, concurrency);
    RunKeepsInv(total, Start(concurrency), schedule);
    RunKeepsWorkers(total, Start(concurrency), schedule);
    InFlightSize(Run(total, Start(concurrency), schedule).workers);
  }

  lemma AllAnswered(total: int, s: State)
    requires Inv(total, s) && Finished(s) && s.workers != []
    ensures s.issued == Quota(total) && |s.results| == Quota(total) && multiset(s.results) == Upto(Quota(total))
  {
    NoneInFlight(s.workers);
    assert s.workers[0].Done?;
    UptoSize(s.issued);
    assert |multiset(s.results)| == |s.results|;
  }

  /** When the last worker has left, exactly the requested number was issued, with exactly one result for
      each. */
  lemma LoadIsExact(total: int, concurrency: nat, schedule: seq<nat>)
    requires concurrency >= 1 && Possible(total, Start(concurrency), schedule)
    requires Finished(Run(total, Start(concurrency), schedule))
    ensures var s := Run(total, Start(concurrency), schedule);
            && s.issued == Quota(total) && |s.results| == Quota(total)
            && multiset(s.results) == Upto(Quota(total))
  {
    StartHoldsInv(total, concurrency);
    RunKeepsInv(total, Start(concurrency), schedule);
    RunKeepsWorkers(total, Start(concurrency), schedule);
    AllAnswered(total, Run(total, Start(concurrency), schedule));
  }

  // ---- every schedule ends -----------------------------------------------------------------------

  function Stakes(workers: seq<Worker>): nat {
    if workers == [] then 0
    else (match workers[0] case Ready => 1 case Sending(_) => 2 case Done => 0) + Stakes(workers[1..])
  }

  /** How many steps are left at most. */
  function Left(total: int, s: State): nat { Stakes(s.workers) + 2 * Quota(total - s.issued) }

  lemma {:induction false} StakesUpdate(workers: seq<Worker>, w: nat, to: Worker)
    requires w < |workers|
    ensures Stakes(workers[w := to]) + (match workers[w] case Ready => 1 case Sending(_) => 2 case Done => 0)
         == Stakes(workers) + (match to case Ready => 1 case Sending(_) => 2 case Done => 0)
  {
    if w == 0 {
      assert workers[0 := to][1..] == workers[1..];
    } else {
      assert workers[w := to][1..] == workers[1..][w - 1 := to];
      StakesUpdate(workers[1..], w - 1, to);
    }
  }

  lemma StepUsesOne(total: int, s: State, w: nat)
    requires Enabled(s, w)
    ensures Left(total, Next(total, s, w)) == Left(total, s) - 1
  {
    StakesUpdate(s.workers, w, Next(total, s, w).workers[w]);
  }

  lemma {:induction false} ReadyStakes(workers: seq<Worker>)
    requires forall w :: 0 <= w < |workers| ==> workers[w].Ready?
    ensures Stakes(workers) == |workers|
  {
    if workers != [] { ReadyStakes(workers[1..]); }
  }

  lemma {:induction false} ScheduleUses(total: int, s: State, schedule: seq<nat>)
    requires Possible(total, s, schedule)
    ensures Left(total, Run(total, s, schedule)) == Left(total, s) - |schedule|
    decreases |schedule|
  {
    if schedule != [] {
      StepUsesOne(total, s, schedule[0]);
      ScheduleUses(total, Next(total, s, schedule[0]), schedule[1..]);
    }
  }

  lemma {:induction false} NoStakesMeansDone(workers: seq<Worker>)
    ensures Stakes(workers) == 0 <==> forall w :: 0 <= w < |workers| ==> workers[w].Done?
  {
    if workers != [] {
      NoStakesMeansDone(workers[1..]);
      assert forall w :: 1 <= w < |workers| ==> workers[w] == workers[1..][w - 1];
    }
  }

  /** However the workers interleave, the load ends, and always after the same number of steps: two for
      each request and one for each worker. */
  lemma EveryScheduleEnds(total: int, concurrency: nat, schedule: seq<nat>)
    requires concurrency >= 1 && Possible(total, Start(concurrency), schedule)
    ensures |schedule| <= 2 * Quota(total) + concurrency
    ensures Finished(Run(total, Start(concurrency), schedule)) <==> |schedule| == 2 * Quota(total) + concurrency
  {
    ReadyStakes(Start(concurrency).workers);
    ScheduleUses(total, Start(concurrency), schedule);
    var s := Run(total, Start(concurrency), schedule);
    NoStakesMeansDone(s.workers);
    StartHoldsInv(total, concurrency);
    RunKeepsInv(total, Start(concurrency), schedule);
    RunKeepsWorkers(total, Start(concurrency), schedule);
    if Finished(s) { AllAnswered(total, s); }
  }

  /** From any point on, as long as some worker has not left, some schedule lets all of them finish. */
  lemma {:induction false} SomeScheduleFinishes(total: int, s: State) returns (schedule: seq<nat>)
    ensures Possible(total, s, schedule) && Finished(Run(total, s, schedule))
    decreases Left(total, s)
  {
    hide Left;
    if Finished(s) {
      schedule := [];
    } else {
      var w :| 0 <= w < |s.workers| && !s.workers[w].Done?;
      StepUsesOne(total, s, w);
      var rest := SomeScheduleFinishes(total, Next(total, s, w));
      schedule := [w] + rest;
      assert schedule[1..] == rest;
    }
  }

  /** A schedule can go on with exactly the workers that have not left. */
  lemma {:induction false} GoesOnExactly(total: int, s: State, schedule: seq<nat>, w: nat)
    ensures Possible(total, s, schedule + [w])
       <==> Possible(total, s, schedule)
            && w < |Run(total, s, schedule).workers| && !Run(total, s, schedule).workers[w].Done?
    ensures Possible(total, s, schedule + [w]) ==>
              Run(total, s, schedule + [w]) == Next(total, Run(total, s, schedule), w)
    decreases |schedule|
  {
    if schedule == [] {
      assert schedule + [w] == [w] && [w][1..] == [];
    } else {
      assert (schedule + [w])[1..] == schedule[1..] + [w] && (schedule + [w])[0] == schedule[0];
      if Enabled(s, schedule[0]) { GoesOnExactly(total, Next(total, s, schedule[0]), schedule[1..], w); }
    }
  }

  // ---- prompts are used evenly -------------------------------------------------------------------

  /** How often prompt p of m is used by the first n requests. */
  function Uses(n: nat, m: nat, p: nat): nat
    requires m > 0
  {
    if n == 0 then 0 else Uses(n - 1, m, p) + (if (n - 1) % m == p then 1 else 0)
  }

  lemma NextTurn(n: nat, m: nat)
    requires m > 0
    ensures n % m + 1 < m ==> (n + 1) / m == n / m && (n + 1) % m == n % m + 1
    ensures n % m + 1 == m ==> (n + 1) / m == n / m + 1 && (n + 1) % m == 0
  {
    var q, r := n / m, n % m;
    assert n == q * m + r;
    if r + 1 == m {
      Quotient(q + 1, 0, m);
      assert (q + 1) * m == n + 1;
    } else {
      Quotient(q, r + 1, m);
    }
  }

  lemma Quotient(q: nat, r: nat, m: nat)
    requires r < m
    ensures (q * m + r) / m == q && (q * m + r) % m == r
  {
    var n := q * m + r;
    var a, b := n / m, n % m;
    assert n == a * m + b;
    if a < q { Scaled(a + 1, q, m); } else if q < a { Scaled(q + 1, a, m); }
  }

  lemma Scaled(a: nat, b: nat, m: nat)
    requires a <= b
    ensures a * m <= b * m && (a * m == (a - 1) * m + m)
  {
    assert (b - a) * m >= 0;
  }

  lemma {:induction false} UsesInTurn(n: nat, m: nat, p: nat)
    requires p < m
    ensures Uses(n, m, p) == n / m + (if p < n % m then 1 else 0)
  {
    if n > 0 {
      UsesInTurn(n - 1, m, p);
      NextTurn(n - 1, m);
    }
  }

  /** Any two prompts are used a number of times that differs by at most one. */
  lemma PromptsUsedEvenly(n: nat, m: nat, p: nat, q: nat)
    requires p < m && q < m
    ensures -1 <= Uses(n, m, p) - Uses(n, m, q) <= 1
  {
    UsesInTurn(n, m, p);
    UsesInTurn(n, m, q);
  }

  /** How often prompt p was answered. */
  function Answered(results: seq<nat>, m: nat, p: nat): nat
    requires m > 0
  {
    if results == [] then 0 else (if results[0] % m == p then 1 else 0) + Answered(results[1..], m, p)
  }

  lemma {:induction false} AnsweredWithout(results: seq<nat>, k: nat, m: nat, p: nat)
    requires m > 0 && k < |results|
    ensures Answered(results, m, p)
            == Answered(results[..k] + results[k + 1..], m, p) + (if results[k] % m == p then 1 else 0)
  {
    if k == 0 {
      assert results[..0] + results[1..] == results[1..];
    } else {
      AnsweredWithout(results[1..], k - 1, m, p);
      assert (results[..k] + results[k + 1..])[1..] == results[1..][..k - 1] + results[1..][k..];
    }
  }

  lemma TakeOut(results: seq<nat>, k: nat)
    requires k < |results|
    ensures multiset(results[..k] + results[k + 1..]) == multiset(results) - multiset{results[k]}
  {
    assert results == results[..k] + [results[k]] + results[k + 1..];
  }

  lemma {:induction false} AnsweredAsIssued(results: seq<nat>, n: nat, m: nat, p: nat)
    requires m > 0 && multiset(results) == Upto(n)
    ensures Answered(results, m, p) == Uses(n, m, p)
  {
    if n == 0 {
      assert |multiset(results)| == 0;
    } else {
      var last: nat := n - 1;
      assert last in multiset(results);
      var k :| 0 <= k < |results| && results[k] == last;
      LastTakenOut(results, k, n);
      AnsweredAsIssued(results[..k] + results[k + 1..], n - 1, m, p);
      AnsweredWithout(results, k, m, p);
    }
  }

  lemma LastTakenOut(results: seq<nat>, k: nat, n: nat)
    requires k < |results| && n > 0 && results[k] == n - 1 && multiset(results) == Upto(n)
    ensures multiset(results[..k] + results[k + 1..]) == Upto(n - 1)
  {
    hide Upto;
    TakeOut(results, k);
    UptoWithoutLast(n);
  }

  lemma UptoWithoutLast(n: nat)
    requires n > 0
    ensures Upto(n) - multiset{n - 1} == Upto(n - 1)
  {
  }

  datatype Outcome = Rejected | Results(indices: seq<nat>)

  /** Runs the workers in an arbitrary order until all have left. With no worker nothing is issued. */
  method RunLoad(prompts: seq<string>, concurrency: int, total: int) returns (r: Outcome)
    ensures r.Rejected? <==> prompts == []
    ensures r.Results? && concurrency <= 0 ==> r.indices == []
    ensures r.Results? && concurrency >= 1 ==> |r.indices| == Quota(total) && multiset(r.indices) == Upto(Quota(total))
    ensures r.Results? ==> forall p, q :: 0 <= p < |prompts| && 0 <= q < |prompts| ==>
              -1 <= Answered(r.indices, |prompts|, p) - Answered(r.indices, |prompts|, q) <= 1
  {
    hide InFlight, Upto, Uses, Counted;
    if prompts == [] { return Rejected; }
    if concurrency <= 0 { return Results([]); }
    var s := Start(concurrency);
    StartHoldsInv(total, concurrency);
    while exists w :: 0 <= w < |s.workers| && !s.workers[w].Done?
      invariant Inv(total, s) && |s.workers| == concurrency
      decreases Left(total, s)
    {
      var w :| 0 <= w < |s.workers| && !s.workers[w].Done?;
      StepKeepsInv(total, s, w);
      StepUsesOne(total, s, w);
      s := Next(total, s, w);
    }
    AllAnswered(total, s);
    forall p, q | 0 <= p < |prompts| && 0 <= q < |prompts|
      ensures -1 <= Answered(s.results, |prompts|, p) - Answered(s.results, |prompts|, q) <= 1
    {
      AnsweredAsIssued(s.results, Quota(total), |prompts|, p);
      AnsweredAsIssued(s.results, Quota(total), |prompts|, q);
      PromptsUsedEvenly(Quota(total), |prompts|, p, q);
    }
    return Results(s.results);
  }
}
