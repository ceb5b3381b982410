/** The agent's graph: its nodes, its branches, the tool call's retry loop, and the runner that pauses
    and resumes a run over its checkpoint. */
module Agent {
  import opened Text

  datatype Node = Planner | Retrieve | Assess | Approve | Clarify | ActSar | Rejected | Finalize

  datatype Context = Context(n: Option<int>, snippet: Option<string>)
  datatype Proposed = Proposed(account: string, period: string, rationale: string, citations: seq<int>)
  datatype Decision = Decision(approved: Option<bool>, note: Option<string>, breach: Option<bool>)
  datatype Status = Completed | RejectedRun | FailedRun

  datatype Values = Values(
    account: string, period: string, runId: string, caller: string,
    answer: string, contexts: seq<Context>, amounts: seq<real>,
    breach: bool, breachDetail: Option<string>, ambiguous: bool, proposed: Option<Proposed>,
    approval: Option<Decision>,
    status: Option<Status>, draftRef: Option<string>, error: Option<string>, note: Option<string>,
    trace: seq<Node>, stepCount: nat)

  /** `extract` finds the amounts of a text, `describe` words a breach. */
  datatype Env = Env(threshold: real, extract: string -> seq<real>, describe: (real, real) -> string, retries: int)

  function Fresh(account: string, period: string, runId: string, caller: string): Values {
    Values(account, period, runId, caller, "", [], [], false, None, false, None, None, None, None, None, None, [], 0)
  }

  function Traced(v: Values, node: Node): Values { v.(trace := v.trace + [node], stepCount := v.stepCount + 1) }

  // ---- assess ---------------------------------------------------------------------------------------

  /** Each element once, in increasing order. */
  function SortedSet(s: seq<int>): seq<int> { if s == [] then [] else InsertOnce(SortedSet(s[1..]), s[0]) }

  function InsertOnce(s: seq<int>, x: int): seq<int> {
    if s == [] || x < s[0] then [x] + s
    else if x == s[0] then s
    else [s[0]] + InsertOnce(s[1..], x)
  }

  predicate StrictlyIncreasing(s: seq<int>) { forall i, j :: 0 <= i < j < |s| ==> s[i] < s[j] }

  lemma {:induction false} InsertOnceSorted(s: seq<int>, x: int)
    requires StrictlyIncreasing(s)
    ensures StrictlyIncreasing(InsertOnce(s, x))
    ensures forall y :: y in InsertOnce(s, x) <==> y == x || y in s
  {
    if s != [] && x <= s[0] {
      HeadFirst(s);
      if x < s[0] { ConsIncreasing(x, s); }
    } else if s != [] {
      HeadFirst(s);
      InsertOnceSorted(s[1..], x);
      ConsIncreasing(s[0], InsertOnce(s[1..], x));
    }
  }

  lemma HeadFirst(s: seq<int>)
    requires s != [] && StrictlyIncreasing(s)
    ensures forall y :: y in s <==> y == s[0] || y in s[1..]
    ensures forall y :: y in s[1..] ==> s[0] < y
    ensures StrictlyIncreasing(s[1..])
  {
  }

  lemma ConsIncreasing(h: int, t: seq<int>)
    requires StrictlyIncreasing(t) && forall y :: y in t ==> h < y
    ensures StrictlyIncreasing([h] + t)
    ensures forall y :: y in [h] + t <==> y == h || y in t
  {
    var all := [h] + t;
    assert all[0] == h;
    assert forall k :: 0 <= k < |t| ==> all[k + 1] == t[k];
    forall i, j | 0 <= i < j < |all| ensures all[i] < all[j] {
      assert all[j] == t[j - 1] && t[j - 1] in t;
      if i > 0 { assert all[i] == t[i - 1]; }
    }
  }

  lemma {:induction false} SortedSetIsSet(s: seq<int>)
    ensures StrictlyIncreasing(SortedSet(s))
    ensures forall y :: y in SortedSet(s) <==> y in s
  {
    if s != [] {
      SortedSetIsSet(s[1..]);
      InsertOnceSorted(SortedSet(s[1..]), s[0]);
    }
  }

  function TextOf(s: Option<string>): string { if s.None? then "" else s.value }

  function ContextAmounts(env: Env, contexts: seq<Context>): seq<real> {
    if contexts == [] then [] else env.extract(TextOf(contexts[0].snippet)) + ContextAmounts(env, contexts[1..])
  }

  predicate AnyAtLeast(amounts: seq<real>, threshold: real) {
    exists k :: 0 <= k < |amounts| && amounts[k] >= threshold
  }

  /** The numbers of the contexts that pass the filter; contexts without a number do not count. */
  function Numbers(contexts: seq<Context>, keep: Context -> bool): seq<int> {
    if contexts == [] then []
    else
      (if contexts[0].n.Some? && keep(contexts[0]) then [contexts[0].n.value] else []) + Numbers(contexts[1..], keep)
  }

  function MaxOf(amounts: seq<real>): real
    requires amounts != []
  {
    if |amounts| == 1 then amounts[0]
    else
      var m := MaxOf(amounts[1..]);
      if amounts[0] >= m then amounts[0] else m
  }

  /** Some amount in the snippet reaches the threshold. */
  predicate Shows(env: Env, c: Context) { AnyAtLeast(env.extract(TextOf(c.snippet)), env.threshold) }

  function ShowsIn(env: Env): Context -> bool { (c: Context) => Shows(env, c) }

  function Every(): Context -> bool { (c: Context) => true }

  function Breaching(env: Env, contexts: seq<Context>): seq<int> {
    var attributable := SortedSet(Numbers(contexts, ShowsIn(env)));
    if attributable != [] then attributable else SortedSet(Numbers(contexts, Every()))
  }

  predicate MentionsMoney(v: Values) {
    '$' in v.answer || exists k :: 0 <= k < |v.contexts| && '$' in TextOf(v.contexts[k].snippet)
  }

  function AssessNode(env: Env, v: Values): Values {
    var breach := v.amounts != [] && MaxOf(v.amounts) >= env.threshold;
    var detail := if breach then Some(env.describe(MaxOf(v.amounts), env.threshold)) else None;
    var proposed :=
      if breach then Some(Proposed(v.account, v.period, detail.value, Breaching(env, v.contexts))) else None;
    Traced(v.(breach := breach, breachDetail := detail, proposed := proposed,
              ambiguous := !breach && v.amounts == [] && MentionsMoney(v)), Assess)
  }

  // ---- the other nodes ------------------------------------------------------------------------------

  function PlannerNode(v: Values): Values { Traced(v, Planner) }

  function RetrieveNode(env: Env, v: Values, answer: Option<string>, contexts: seq<Context>): Values {
    Traced(v.(answer := TextOf(answer), contexts := contexts,
              amounts := env.extract(TextOf(answer)) + ContextAmounts(env, contexts)), Retrieve)
  }

  predicate Truthy(b: Option<bool>) { b == Some(true) }

  function ApproveNode(v: Values, d: Decision): Values { Traced(v.(approval := Some(d)), Approve) }

  const CONFIRMED := "Human-confirmed breach (amount not machine-readable in the source)"

  function ClarifyNode(v: Values, d: Decision): Values {
    if !Truthy(d.breach) then Traced(v.(breach := false), Clarify)
    else
      Traced(v.(breach := true, breachDetail := Some(CONFIRMED),
                proposed := Some(Proposed(v.account, v.period, CONFIRMED, SortedSet(Numbers(v.contexts, Every()))))),
             Clarify)
  }

  function RejectedNode(v: Values): Values {
    var note := if v.approval.Some? && v.approval.value.note.Some? && v.approval.value.note.value != ""
                then v.approval.value.note else None;
    Traced(v.(status := Some(RejectedRun), note := note), Rejected)
  }

  function FinalizeNode(v: Values): Values { Traced(v.(status := Some(Completed)), Finalize) }

  /** How the tool call of a run ended. */
  datatype Settled = Opened(draftRef: string) | Unopened(error: string)

  function ActNode(v: Values, result: Settled): Values {
    match result
    case Opened(ref) => Traced(v.(status := Some(Completed), draftRef := Some(ref)), ActSar)
    case Unopened(error) =>
      v.(status := Some(FailedRun), error := Some(error),
         trace := v.trace + [ActSar, ActSar], stepCount := v.stepCount + 1)
  }

  // ---- the edges ------------------------------------------------------------------------------------

  function BreachBranch(v: Values): Node { if v.breach then Approve else if v.ambiguous then Clarify else Finalize }

  function ClarifyBranch(v: Values): Node { if v.proposed.Some? then Approve else Finalize }

  predicate Approved(v: Values) { v.approval.Some? && Truthy(v.approval.value.approved) }

  function ApprovalBranch(v: Values): Node { if Approved(v) then ActSar else Rejected }

  function After(node: Node, v: Values): Option<Node> {
    match node
    case Planner => Some(Retrieve)
    case Retrieve => Some(Assess)
    case Assess => Some(BreachBranch(v))
    case Clarify => Some(ClarifyBranch(v))
    case Approve => Some(ApprovalBranch(v))
    case _ => None
  }

  /** A checkpoint: the values, and the node that runs next unless the run is over. */
  datatype Thread = Thread(values: Values, next: Option<Node>)

  /** What a superstep needs from outside. */
  datatype Input = Nothing | Reply(answer: Option<string>, contexts: seq<Context>)
    | Human(decision: Decision) | Tool(result: Settled)

  predicate IsGate(node: Node) { node.Approve? || node.Clarify? }

  predicate Feeds(node: Node, input: Input) {
    match node
    case Retrieve => input.Reply?
    case Approve => input.Human?
    case Clarify => input.Human?
    case ActSar => input.Tool?
    case _ => input.Nothing?
  }

  function Superstep(env: Env, t: Thread, input: Input): Thread
    requires t.next.Some? && Feeds(t.next.value, input)
  {
    var v := t.values;
    var node := t.next.value;
    var after :=
      match node
      case Planner => PlannerNode(v)
      case Retrieve => RetrieveNode(env, v, input.answer, input.contexts)
      case Assess => AssessNode(env, v)
      case Approve => ApproveNode(v, input.decision)
      case Clarify => ClarifyNode(v, input.decision)
      case ActSar => ActNode(v, input.result)
      case Rejected => RejectedNode(v)
      case Finalize => FinalizeNode(v);
    Thread(after, After(node, after))
  }

  /** The most supersteps a run can still take. */
  function Remaining(next: Option<Node>): nat {
    match next
    case None => 0
    case Some(Planner) => 6
    case Some(Retrieve) => 5
    case Some(Assess) => 4
    case Some(Clarify) => 3
    case Some(Approve) => 2
    case Some(_) => 1
  }

  /** Every superstep brings the run nearer its end, so a run takes at most six, within the graph's
      limit of eight. */
  lemma SuperstepAdvances(env: Env, t: Thread, input: Input)
    requires t.next.Some? && Feeds(t.next.value, input)
    ensures Remaining(Superstep(env, t, input).next) < Remaining(t.next)
    ensures Superstep(env, t, input).values.stepCount == t.values.stepCount + 1
  {
  }

  // ---- what assess decides ----------------------------------------------------------------------------

  lemma {:induction false} MaxIsGreatest(amounts: seq<real>)
    requires amounts != []
    ensures MaxOf(amounts) in amounts
    ensures forall k :: 0 <= k < |amounts| ==> amounts[k] <= MaxOf(amounts)
  {
    if |amounts| > 1 {
      MaxIsGreatest(amounts[1..]);
      assert forall k :: 1 <= k < |amounts| ==> amounts[k] == amounts[1..][k - 1];
    }
  }

  lemma {:induction false} NumbersComplete(contexts: seq<Context>, keep: Context -> bool)
    ensures forall n :: n in Numbers(contexts, keep)
                   <==> exists k :: 0 <= k < |contexts| && contexts[k].n == Some(n) && keep(contexts[k])
  {
    if contexts != [] {
      var rest := contexts[1..];
      NumbersComplete(rest, keep);
      forall n ensures n in Numbers(contexts, keep)
                   <==> exists k :: 0 <= k < |contexts| && contexts[k].n == Some(n) && keep(contexts[k])
      {
        if k :| 0 <= k < |contexts| && contexts[k].n == Some(n) && keep(contexts[k]) {
          if k > 0 { assert rest[k - 1] == contexts[k]; }
        }
        if n in Numbers(rest, keep) {
          var k :| 0 <= k < |rest| && rest[k].n == Some(n) && keep(rest[k]);
          assert contexts[k + 1] == rest[k];
        }
      }
    }
  }

  /** A draft is proposed exactly when some amount reaches the threshold; only then, or when money is
      mentioned but no amount was read, is a human asked. */
  lemma AssessDecides(env: Env, v: Values)
    ensures var t := AssessNode(env, v);
            && (t.breach <==> AnyAtLeast(v.amounts, env.threshold))
            && (t.proposed.Some? <==> t.breach)
            && (BreachBranch(t) == Approve <==> AnyAtLeast(v.amounts, env.threshold))
            && (BreachBranch(t) == Clarify <==> v.amounts == [] && MentionsMoney(v))
  {
    if v.amounts != [] {
      MaxIsGreatest(v.amounts);
      var k :| 0 <= k < |v.amounts| && v.amounts[k] == MaxOf(v.amounts);
    }
  }

  lemma NumberListed(contexts: seq<Context>, keep: Context -> bool, k: nat)
    requires k < |contexts| && contexts[k].n.Some? && keep(contexts[k])
    ensures contexts[k].n.value in Numbers(contexts, keep)
  {
    if k > 0 { NumberListed(contexts[1..], keep, k - 1); }
  }

  /** Some numbered context shows a breaching amount. */
  predicate Attributable(env: Env, contexts: seq<Context>) {
    exists k :: 0 <= k < |contexts| && contexts[k].n.Some? && Shows(env, contexts[k])
  }

  lemma AttributableIffShown(env: Env, contexts: seq<Context>)
    ensures Attributable(env, contexts) <==> SortedSet(Numbers(contexts, ShowsIn(env))) != []
  {
    var shown := Numbers(contexts, ShowsIn(env));
    SortedSetIsSet(shown);
    NumbersComplete(contexts, ShowsIn(env));
    if Attributable(env, contexts) {
      var k :| 0 <= k < |contexts| && contexts[k].n.Some? && Shows(env, contexts[k]);
      NumberListed(contexts, ShowsIn(env), k);
    }
    if SortedSet(shown) != [] {
      assert SortedSet(shown)[0] in SortedSet(shown);
    }
  }

  /** The proposal cites, once each and in order, the numbered contexts that show a breaching amount, or
      every numbered context when none does. */
  lemma ProposalCitesBreaches(env: Env, v: Values)
    requires AssessNode(env, v).breach
    ensures var cited := AssessNode(env, v).proposed.value.citations;
            && StrictlyIncreasing(cited)
            && forall n :: n in cited <==>
                 exists k :: 0 <= k < |v.contexts| && v.contexts[k].n == Some(n)
                             && (Attributable(env, v.contexts) ==> Shows(env, v.contexts[k]))
  {
    AttributableIffShown(env, v.contexts);
    NumbersComplete(v.contexts, ShowsIn(env));
    NumbersComplete(v.contexts, Every());
    SortedSetIsSet(Numbers(v.contexts, ShowsIn(env)));
    SortedSetIsSet(Numbers(v.contexts, Every()));
  }

  // ---- the tool call ------------------------------------------------------------------------------------

  /** One attempt: no connection, an answer, or any other failure. */
  datatype Attempt = NoConnection(error: string) | Answer(draftRef: string) | OtherFailure(error: string)

  function Max(a: int, b: int): int { if a < b then b else a }

  function Limit(retries: int): nat { Max(1, retries + 1) }

  /** What the attempts come to: the first that got a connection decides. */
  function Outcome(attempts: seq<Attempt>): Settled
    requires attempts != []
  {
    match attempts[0]
    case Answer(ref) => Opened(ref)
    case OtherFailure(error) => Unopened(error)
    case NoConnection(error) => if |attempts| == 1 then Unopened("connect error: " + error) else Outcome(attempts[1..])
  }

  /** `outcomes` is what each attempt would meet; only as many as were needed are made. */
  method ActSarNode(v: Values, retries: int, outcomes: seq<Attempt>) returns (after: Values, made: nat)
    requires |outcomes| >= Limit(retries)
    ensures after == ActNode(v, Outcome(outcomes[..Limit(retries)]))
    ensures 1 <= made <= Limit(retries)
    ensures forall j :: 0 <= j < made - 1 ==> outcomes[j].NoConnection?
    ensures made < Limit(retries) ==> !outcomes[made - 1].NoConnection?
  {
    var lastError := "";
    made := 0;
    while made < Limit(retries)
      invariant made <= Limit(retries)
      invariant forall j :: 0 <= j < made ==> outcomes[j].NoConnection?
      invariant made < Limit(retries) ==> Outcome(outcomes[..Limit(retries)]) == Outcome(outcomes[made..Limit(retries)])
      invariant made == Limit(retries) ==> Outcome(outcomes[..Limit(retries)]) == Unopened(lastError)
    {
      var rest := outcomes[made..Limit(retries)];
      assert rest[0] == outcomes[made] && rest[1..] == outcomes[made + 1..Limit(retries)];
      made := made + 1;
      match rest[0]
      case Answer(ref) => return ActNode(v, Opened(ref)), made;
      case OtherFailure(error) => return ActNode(v, Unopened(error)), made;
      case NoConnection(error) => lastError := "connect error: " + error;
    }
    after := ActNode(v, Unopened(lastError));
  }

  /** A run completes its action exactly when the first attempt that got a connection was answered. */
  lemma {:induction false} OpenedIffFirstConnectionAnswered(attempts: seq<Attempt>)
    requires attempts != []
    ensures Outcome(attempts).Opened?
       <==> exists k ::
              0 <= k < |attempts| && attempts[k].Answer?
              && forall j :: 0 <= j < k ==> attempts[j].NoConnection?
  {
    if attempts[0].NoConnection? && |attempts| > 1 {
      var rest := attempts[1..];
      OpenedIffFirstConnectionAnswered(rest);
      if k :| 0 <= k < |rest| && rest[k].Answer? && forall j :: 0 <= j < k ==> rest[j].NoConnection? {
        assert attempts[k + 1].Answer?;
        assert forall j :: 1 <= j < k + 1 ==> attempts[j] == rest[j - 1];
      }
      if k :| 0 <= k < |attempts| && attempts[k].Answer? && forall j :: 0 <= j < k ==> attempts[j].NoConnection? {
        assert rest[k - 1].Answer? && forall j :: 0 <= j < k - 1 ==> rest[j] == attempts[j + 1];
      }
    } else if attempts[0].Answer? {
      assert attempts[0].Answer?;
    }
  }

  // ---- the runner ---------------------------------------------------------------------------------------

  /** What the outside holds ready for a run: the gateway's answer and the tool's attempts. */
  datatype Outside = Outside(answer: Option<string>, contexts: seq<Context>, attempts: seq<Attempt>)

  predicate Supplies(env: Env, o: Outside) { |o.attempts| >= Limit(env.retries) }

  function InputFor(env: Env, node: Node, resume: Option<Decision>, o: Outside): Input
    requires Supplies(env, o) && (IsGate(node) ==> resume.Some?)
    ensures Feeds(node, InputFor(env, node, resume, o))
  {
    match node
    case Retrieve => Reply(o.answer, o.contexts)
    case Approve => Human(resume.value)
    case Clarify => Human(resume.value)
    case ActSar => Tool(Outcome(o.attempts[..Limit(env.retries)]))
    case _ => Nothing
  }

  /** One invocation of the graph: supersteps until the run is over or at a gate without a decision. A
      decision serves the gate the run was paused at and no other. */
  function Invoke(env: Env, t: Thread, resume: Option<Decision>, o: Outside): Thread
    requires Supplies(env, o) && (resume.Some? ==> t.next.Some? && IsGate(t.next.value))
    decreases Remaining(t.next)
  {
    if t.next.None? || (IsGate(t.next.value) && resume.None?) then t
    else
      SuperstepAdvances(env, t, InputFor(env, t.next.value, resume, o));
      Invoke(env, Superstep(env, t, InputFor(env, t.next.value, resume, o)), None, o)
  }

  datatype RunStatus = AwaitingClarification | AwaitingApproval | Running | Over(status: Status)

  function Render(t: Thread): RunStatus {
    if t.next == Some(Clarify) then AwaitingClarification
    else if t.next == Some(Approve) then AwaitingApproval
    else if t.next.Some? then Running
    else Over(if t.values.status.None? then Completed else t.values.status.value)
  }

  predicate Resumable(t: Thread) { t.next.Some? && IsGate(t.next.value) }

  function Resumed(env: Env, t: Thread, d: Decision, o: Outside): Thread
    requires Supplies(env, o)
  {
    if Resumable(t) then Invoke(env, t, Some(d), o) else t
  }

  // ---- where a started run stops, from the texts alone ----------------------------------------------------

  /** Some amount read from the answer or from a snippet reaches the threshold. */
  predicate ShowsBreach(env: Env, o: Outside) {
    || (exists k :: 0 <= k < |env.extract(TextOf(o.answer))| && env.extract(TextOf(o.answer))[k] >= env.threshold)
    || exists j :: 0 <= j < |o.contexts|
         && exists k :: 0 <= k < |env.extract(TextOf(o.contexts[j].snippet))|
              && env.extract(TextOf(o.contexts[j].snippet))[k] >= env.threshold
  }

  /** Some amount was read at all. */
  predicate ShowsAmount(env: Env, o: Outside) {
    || env.extract(TextOf(o.answer)) != []
    || exists j :: 0 <= j < |o.contexts| && env.extract(TextOf(o.contexts[j].snippet)) != []
  }

  predicate ShowsMoney(o: Outside) {
    '$' in TextOf(o.answer) || exists j :: 0 <= j < |o.contexts| && '$' in TextOf(o.contexts[j].snippet)
  }

  /** Some snippet from position i on shows a breach. */
  predicate BreachFrom(env: Env, contexts: seq<Context>, i: nat) {
    exists j :: i <= j < |contexts| && AnyAtLeast(env.extract(TextOf(contexts[j].snippet)), env.threshold)
  }

  predicate AmountFrom(env: Env, contexts: seq<Context>, i: nat) {
    exists j :: i <= j < |contexts| && env.extract(TextOf(contexts[j].snippet)) != []
  }

  lemma {:induction false} ContextAmountsFrom(env: Env, contexts: seq<Context>, i: nat)
    requires i <= |contexts|
    ensures AnyAtLeast(ContextAmounts(env, contexts[i..]), env.threshold) <==> BreachFrom(env, contexts, i)
    ensures ContextAmounts(env, contexts[i..]) != [] <==> AmountFrom(env, contexts, i)
    decreases |contexts| - i
  {
    hide AnyAtLeast;
    if i < |contexts| {
      var first, rest := env.extract(TextOf(contexts[i].snippet)), ContextAmounts(env, contexts[i + 1..]);
      ContextAmountsFrom(env, contexts, i + 1);
      assert contexts[i..][0] == contexts[i] && contexts[i..][1..] == contexts[i + 1..];
      AnyAtLeastConcat(first, rest, env.threshold);
    } else {
      NoneAtLeast(env.threshold);
    }
  }

  lemma NoneAtLeast(threshold: real)
    ensures !AnyAtLeast([], threshold)
  {
  }

  lemma ContextAmountsExactly(env: Env, contexts: seq<Context>)
    ensures AnyAtLeast(ContextAmounts(env, contexts), env.threshold)
       <==> exists j :: 0 <= j < |contexts| && AnyAtLeast(env.extract(TextOf(contexts[j].snippet)), env.threshold)
    ensures ContextAmounts(env, contexts) != []
       <==> exists j :: 0 <= j < |contexts| && env.extract(TextOf(contexts[j].snippet)) != []
  {
    hide AnyAtLeast, ContextAmounts;
    ContextAmountsFrom(env, contexts, 0);
    assert contexts[0..] == contexts;
  }

  lemma AnyAtLeastConcat(a: seq<real>, b: seq<real>, threshold: real)
    ensures AnyAtLeast(a + b, threshold) <==> AnyAtLeast(a, threshold) || AnyAtLeast(b, threshold)
  {
    if k :| 0 <= k < |b| && b[k] >= threshold { assert (a + b)[|a| + k] == b[k]; }
    if k :| 0 <= k < |a| && a[k] >= threshold { assert (a + b)[k] == a[k]; }
  }

  /** The checkpoint a started run has when it is assessed. */
  function Gathered(env: Env, account: string, period: string, runId: string, caller: string, o: Outside): Values {
    RetrieveNode(env, PlannerNode(Fresh(account, period, runId, caller)), o.answer, o.contexts)
  }

  lemma GatheredShows(env: Env, account: string, period: string, runId: string, caller: string, o: Outside)
    ensures var v := Gathered(env, account, period, runId, caller, o);
            && (AnyAtLeast(v.amounts, env.threshold) <==> ShowsBreach(env, o))
            && (v.amounts != [] <==> ShowsAmount(env, o)) && (MentionsMoney(v) <==> ShowsMoney(o))
            && v.contexts == o.contexts && v.account == account && v.period == period
            && v.runId == runId && v.caller == caller && v.approval.None? && v.draftRef.None? && v.status.None?
  {
    ContextAmountsExactly(env, o.contexts);
    AnyAtLeastConcat(env.extract(TextOf(o.answer)), ContextAmounts(env, o.contexts), env.threshold);
  }

  /** From the start of a run to its assessment. */
  lemma StartReachesAssess(env: Env, account: string, period: string, runId: string, caller: string, o: Outside)
    requires Supplies(env, o)
    ensures Invoke(env, Thread(Fresh(account, period, runId, caller), Some(Planner)), None, o)
         == Invoke(env, Thread(Gathered(env, account, period, runId, caller, o), Some(Assess)), None, o)
  {
    var v := Fresh(account, period, runId, caller);
    var t1 := Thread(PlannerNode(v), Some(Retrieve));
    assert Superstep(env, Thread(v, Some(Planner)), Nothing) == t1;
    assert Invoke(env, Thread(v, Some(Planner)), None, o) == Invoke(env, t1, None, o);
    assert InputFor(env, Retrieve, None, o) == Reply(o.answer, o.contexts);
    assert Superstep(env, t1, Reply(o.answer, o.contexts)).next == Some(Assess);
  }

  lemma AssessStops(env: Env, v: Values, o: Outside)
    requires Supplies(env, o)
    ensures var end := Invoke(env, Thread(v, Some(Assess)), None, o);
            var a := AssessNode(env, v);
            end == match BreachBranch(a)
                   case Finalize => Thread(FinalizeNode(a), None)
                   case gate => Thread(a, Some(gate))
  {
    var a := AssessNode(env, v);
    var t := Thread(a, Some(BreachBranch(a)));
    assert Superstep(env, Thread(v, Some(Assess)), Nothing) == t;
    assert Invoke(env, Thread(v, Some(Assess)), None, o) == Invoke(env, t, None, o);
    if BreachBranch(a) == Finalize {
      var last := Thread(FinalizeNode(a), None);
      assert Superstep(env, t, Nothing) == last;
      assert Invoke(env, t, None, o) == Invoke(env, last, None, o) == last;
    }
  }

  /** A started run pauses at the approval gate exactly when some amount in the answer or in a snippet reaches
      the threshold, at the clarification gate exactly when no amount was read anywhere and money is mentioned,
      and completes without an action otherwise. At the approval gate it proposes a report on its own account
      and period. */
  lemma StartDecides(env: Env, account: string, period: string, runId: string, caller: string, o: Outside)
    requires Supplies(env, o)
    ensures var end := Invoke(env, Thread(Fresh(account, period, runId, caller), Some(Planner)), None, o);
            && (end.next == Some(Approve) <==> ShowsBreach(env, o))
            && (end.next == Some(Clarify) <==> !ShowsAmount(env, o) && ShowsMoney(o))
            && (end.next.None? <==> !ShowsBreach(env, o) && (ShowsAmount(env, o) || !ShowsMoney(o)))
            && (end.next.None? ==> end.values.status == Some(Completed))
            && end.values.runId == runId && end.values.caller == caller
            && end.values.approval.None? && end.values.draftRef.None?
            && (end.values.proposed.Some? <==> ShowsBreach(env, o))
            && (ShowsBreach(env, o) ==> end.values.proposed.value.account == account
                                        && end.values.proposed.value.period == period)
  {
    var v := Gathered(env, account, period, runId, caller, o);
    GatheredShows(env, account, period, runId, caller, o);
    hide ShowsBreach, ShowsAmount, ShowsMoney, MentionsMoney, Gathered, Invoke, AnyAtLeast, Breaching;
    StartReachesAssess(env, account, period, runId, caller, o);
    AssessStops(env, v, o);
    AssessDecides(env, v);
  }

  /** The amount was read from the answer or from some snippet. */
  predicate WasRead(env: Env, o: Outside, x: real) {
    x in env.extract(TextOf(o.answer))
    || exists j :: 0 <= j < |o.contexts| && x in env.extract(TextOf(o.contexts[j].snippet))
  }

  lemma {:induction false} ContextAmountsRead(env: Env, contexts: seq<Context>, x: real)
    ensures x in ContextAmounts(env, contexts)
       <==> exists j :: 0 <= j < |contexts| && x in env.extract(TextOf(contexts[j].snippet))
  {
    if contexts != [] {
      var rest := contexts[1..];
      ContextAmountsRead(env, rest, x);
      if j :| 0 <= j < |rest| && x in env.extract(TextOf(rest[j].snippet)) {
        assert contexts[j + 1] == rest[j];
      }
      assert forall j :: 1 <= j < |contexts| ==> contexts[j] == rest[j - 1];
    }
  }

  /** Some numbered snippet shows a breach by itself. */
  predicate Attributed(env: Env, contexts: seq<Context>) {
    exists j :: 0 <= j < |contexts| && contexts[j].n.Some?
                && exists k :: 0 <= k < |env.extract(TextOf(contexts[j].snippet))|
                     && env.extract(TextOf(contexts[j].snippet))[k] >= env.threshold
  }

  /** What the proposal of a started run says: the largest amount read, put in words, and, each once and in
      order, the numbers of the snippets that show a breach, or of all when no numbered one does. */
  lemma StartProposes(env: Env, account: string, period: string, runId: string, caller: string, o: Outside)
    requires Supplies(env, o) && ShowsBreach(env, o)
    ensures var end := Invoke(env, Thread(Fresh(account, period, runId, caller), Some(Planner)), None, o);
            && end.values.proposed.Some?
            && var p := end.values.proposed.value;
               && (exists m :: WasRead(env, o, m) && (forall x :: WasRead(env, o, x) ==> x <= m)
                               && p.rationale == env.describe(m, env.threshold))
               && StrictlyIncreasing(p.citations)
               && forall n :: n in p.citations <==>
                    exists j :: 0 <= j < |o.contexts| && o.contexts[j].n == Some(n)
                                && (Attributed(env, o.contexts) ==>
                                      exists k :: 0 <= k < |env.extract(TextOf(o.contexts[j].snippet))|
                                        && env.extract(TextOf(o.contexts[j].snippet))[k] >= env.threshold)
  {
    var v := Gathered(env, account, period, runId, caller, o);
    GatheredShows(env, account, period, runId, caller, o);
    hide ShowsBreach, ShowsAmount, ShowsMoney, MentionsMoney, Invoke, Breaching;
    StartReachesAssess(env, account, period, runId, caller, o);
    AssessStops(env, v, o);
    AssessDecides(env, v);
    ProposalCitesBreaches(env, v);
    var m := MaxOf(v.amounts);
    MaxIsGreatest(v.amounts);
    forall x ensures x in v.amounts <==> WasRead(env, o, x) {
      ContextAmountsRead(env, o.contexts, x);
    }
  }

  class GraphRunner {
    const env: Env
    var threads: map<string, Thread>

    constructor (env: Env)
      ensures this.env == env && threads == map[]
    {
      this.env := env;
      threads := map[];
    }

    method Drive(t: Thread, resume: Option<Decision>, o: Outside) returns (end: Thread)
      requires Supplies(env, o) && (resume.Some? ==> t.next.Some? && IsGate(t.next.value))
      ensures end == Invoke(env, t, resume, o)
    {
      end := t;
      var decision := resume;
      while end.next.Some? && (IsGate(end.next.value) ==> decision.Some?)
        invariant decision.Some? ==> end.next.Some? && IsGate(end.next.value)
        invariant Invoke(env, end, decision, o) == Invoke(env, t, resume, o)
        decreases Remaining(end.next)
      {
        SuperstepAdvances(env, end, InputFor(env, end.next.value, decision, o));
        if end.next == Some(ActSar) {
          var after, _ := ActSarNode(end.values, env.retries, o.attempts);
          end := Thread(after, None);
        } else {
          end := Superstep(env, end, InputFor(env, end.next.value, decision, o));
        }
        decision := None;
      }
    }

    method Start(runId: string, account: string, period: string, caller: string, o: Outside) returns (r: RunStatus)
      requires Supplies(env, o) && runId !in threads
      modifies this`threads
      ensures threads == old(threads)[runId :=
                Invoke(env, Thread(Fresh(account, period, runId, caller), Some(Planner)), None, o)]
      ensures r == if ShowsBreach(env, o) then AwaitingApproval
                   else if !ShowsAmount(env, o) && ShowsMoney(o) then AwaitingClarification
                   else Over(Completed)
    {
      StartDecides(env, account, period, runId, caller, o);
      hide ShowsBreach, ShowsAmount, ShowsMoney, Invoke;
      var end := Drive(Thread(Fresh(account, period, runId, caller), Some(Planner)), None, o);
      threads := threads[runId := end];
      r := Render(end);
    }

    /** An unknown run is not found; a run that is not paused at a gate stays as it is. */
    method Resume(runId: string, d: Decision, o: Outside) returns (r: Option<RunStatus>)
      requires Supplies(env, o)
      modifies this`threads
      ensures runId !in old(threads) ==> r == None && threads == old(threads)
      ensures runId in old(threads) ==>
                && threads == old(threads)[runId := Resumed(env, old(threads)[runId], d, o)]
                && r == Some(Render(threads[runId]))
    {
      if runId !in threads { return None; }
      var t := threads[runId];
      if !Resumable(t) {
        assert threads == threads[runId := t];
        return Some(Render(t));
      }
      var end := Drive(t, Some(d), o);
      threads := threads[runId := end];
      r := Some(Render(end));
    }
  }

  // ---- a decision is used once ------------------------------------------------------------------------------

  /** A decision at the approval gate ends the run: COMPLETED or FAILED when approved, REJECTED when not. */
  lemma ApprovalEndsRun(env: Env, t: Thread, d: Decision, o: Outside)
    requires Supplies(env, o) && t.next == Some(Approve)
    ensures var end := Resumed(env, t, d, o);
            && end.next.None? && end.values.approval == Some(d)
            && (end.values.status == Some(RejectedRun) <==> !Truthy(d.approved))
            && (!Truthy(d.approved) ==> end.values.draftRef == t.values.draftRef)
  {
    var gate := Superstep(env, t, Human(d));
    assert Invoke(env, t, Some(d), o) == Invoke(env, gate, None, o);
    var last := Superstep(env, gate, InputFor(env, gate.next.value, None, o));
    assert Invoke(env, gate, None, o) == Invoke(env, last, None, o);
  }

  /** Attempt k is the first that got a connection. */
  predicate FirstConnected(attempts: seq<Attempt>, k: nat) {
    k < |attempts| && !attempts[k].NoConnection? && forall j :: 0 <= j < k ==> attempts[j].NoConnection?
  }

  lemma {:induction false} FirstConnectionDecides(attempts: seq<Attempt>, k: nat)
    requires FirstConnected(attempts, k)
    ensures Outcome(attempts) == if attempts[k].Answer? then Opened(attempts[k].draftRef)
                                 else Unopened(attempts[k].error)
  {
    if k > 0 {
      assert forall j :: 0 <= j < k - 1 ==> attempts[1..][j] == attempts[j + 1];
      FirstConnectionDecides(attempts[1..], k - 1);
    }
  }

  lemma {:induction false} NoConnectionFails(attempts: seq<Attempt>)
    requires attempts != [] && forall j :: 0 <= j < |attempts| ==> attempts[j].NoConnection?
    ensures Outcome(attempts) == Unopened("connect error: " + attempts[|attempts| - 1].error)
  {
    if |attempts| > 1 { NoConnectionFails(attempts[1..]); }
  }

  /** After an approval the first attempt that gets a connection, within max(1, retries + 1), decides: an
      answer completes the run with its reference, any other failure ends it FAILED, and so does no connection
      at all. */
  lemma ApprovalActs(env: Env, t: Thread, d: Decision, o: Outside)
    requires Supplies(env, o) && t.next == Some(Approve) && d.approved == Some(true)
    ensures var end := Resumed(env, t, d, o).values;
            var tries := o.attempts[..if env.retries < 0 then 1 else env.retries + 1];
            && (forall k :: 0 <= k < |tries| && tries[k].Answer?
                            && (forall j :: 0 <= j < k ==> tries[j].NoConnection?) ==>
                  Render(Resumed(env, t, d, o)) == Over(Completed) && end.draftRef == Some(tries[k].draftRef))
            && (forall k :: 0 <= k < |tries| && tries[k].OtherFailure?
                            && (forall j :: 0 <= j < k ==> tries[j].NoConnection?) ==>
                  Render(Resumed(env, t, d, o)) == Over(FailedRun) && end.error == Some(tries[k].error)
                  && end.draftRef == t.values.draftRef)
            && ((forall j :: 0 <= j < |tries| ==> tries[j].NoConnection?) ==>
                  Render(Resumed(env, t, d, o)) == Over(FailedRun) && end.draftRef == t.values.draftRef
                  && end.error == Some("connect error: " + tries[|tries| - 1].error))
  {
    var tries := o.attempts[..Limit(env.retries)];
    ApprovedEnds(env, t, d, o);
    hide Invoke, Resumed, Outcome;
    forall k | 0 <= k < |tries| && !tries[k].NoConnection? && (forall j :: 0 <= j < k ==> tries[j].NoConnection?)
      ensures Outcome(tries) == if tries[k].Answer? then Opened(tries[k].draftRef) else Unopened(tries[k].error)
    {
      FirstConnectionDecides(tries, k);
    }
    if forall j :: 0 <= j < |tries| ==> tries[j].NoConnection? { NoConnectionFails(tries); }
  }

  lemma ApprovedEnds(env: Env, t: Thread, d: Decision, o: Outside)
    requires Supplies(env, o) && t.next == Some(Approve) && d.approved == Some(true)
    ensures Resumed(env, t, d, o)
         == Thread(ActNode(ApproveNode(t.values, d), Outcome(o.attempts[..Limit(env.retries)])), None)
  {
    hide Outcome;
    var gate := Superstep(env, t, Human(d));
    assert Invoke(env, t, Some(d), o) == Invoke(env, gate, None, o);
    var last := Superstep(env, gate, Tool(Outcome(o.attempts[..Limit(env.retries)])));
    assert Invoke(env, gate, None, o) == Invoke(env, last, None, o);
  }

  /** A rejection keeps its note and reports no draft. A breach confirmed at the clarification gate proposes a
      report citing every numbered snippet. */
  lemma DecisionsOnRecord(env: Env, t: Thread, d: Decision, o: Outside)
    requires Supplies(env, o)
    ensures t.next == Some(Approve) && d.approved != Some(true) ==>
              Render(Resumed(env, t, d, o)) == Over(RejectedRun)
              && Resumed(env, t, d, o).values.note == (if d.note.Some? && d.note.value != "" then d.note else None)
    ensures t.next == Some(Clarify) && d.breach == Some(true) ==>
              var p := Resumed(env, t, d, o).values.proposed;
              && p.Some? && p.value.account == t.values.account && p.value.period == t.values.period
              && p.value.rationale == "Human-confirmed breach (amount not machine-readable in the source)"
              && StrictlyIncreasing(p.value.citations)
              && forall n :: n in p.value.citations
                   <==> exists k :: 0 <= k < |t.values.contexts| && t.values.contexts[k].n == Some(n)
  {
    if t.next == Some(Approve) && d.approved != Some(true) {
      var gate := Superstep(env, t, Human(d));
      assert Invoke(env, t, Some(d), o) == Invoke(env, gate, None, o);
      var last := Superstep(env, gate, Nothing);
      assert Invoke(env, gate, None, o) == Invoke(env, last, None, o);
    }
    if t.next == Some(Clarify) && d.breach == Some(true) {
      assert Invoke(env, t, Some(d), o) == Invoke(env, Superstep(env, t, Human(d)), None, o);
      NumbersComplete(t.values.contexts, Every());
      SortedSetIsSet(Numbers(t.values.contexts, Every()));
    }
  }

  /** Whatever is delivered after a decision at the approval gate, the run stays as that decision left it. */
  lemma DecisionIsSingleUse(env: Env, t: Thread, d: Decision, o: Outside, again: Decision, later: Outside)
    requires Supplies(env, o) && Supplies(env, later) && t.next == Some(Approve)
    ensures Resumed(env, Resumed(env, t, d, o), again, later) == Resumed(env, t, d, o)
  {
    ApprovalEndsRun(env, t, d, o);
  }

  /** A decision at the clarification gate never reaches the tool, even when it says "approved": the run
      pauses at the approval gate or completes without an action. */
  lemma ClarificationNeverWrites(env: Env, t: Thread, d: Decision, o: Outside)
    requires Supplies(env, o) && t.next == Some(Clarify) && t.values.proposed.None?
    ensures var end := Resumed(env, t, d, o);
            && end.values.draftRef == t.values.draftRef && end.values.approval == t.values.approval
            && (if Truthy(d.breach) then end.next == Some(Approve) && end.values.proposed.Some?
                else end.next.None? && end.values.status == Some(Completed))
  {
    var gate := Superstep(env, t, Human(d));
    assert Invoke(env, t, Some(d), o) == Invoke(env, gate, None, o);
    if !Truthy(d.breach) {
      var last := Superstep(env, gate, InputFor(env, gate.next.value, None, o));
      assert Invoke(env, gate, None, o) == Invoke(env, last, None, o);
    }
  }
}
