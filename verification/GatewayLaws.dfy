/** The gateway's guards, each in terms of the request and the stores, and the rate limit over whole runs. */
module GatewayLaws {
  import opened Text
  import RateLimiter
  import Budget
  import Cache
  import Sanitizer
  import opened Query

  // ---- what each guard refuses ----------------------------------------------------------------------------

  /** The request has a question and a caller, so it reaches the rate limit. */
  predicate Counts(r: Request) { r.query.Some? && !Blank(r.query.value) && r.caller.Some? }

  /** The caller's bucket holds a token. */
  predicate WithinRate(cfg: Config, w: World, r: Request, now: int)
    requires Counts(r)
  {
    RateLimiter.Suffices(RateLimiter.Live(w.hashes, r.caller.value.subject, now), cfg.capacity, now)
  }

  predicate WithinInput(env: Env, cfg: Config, r: Request)
    requires Counts(r)
  {
    env.estimateTokens(r.query.value) <= cfg.maxInputTokens
  }

  /** What the caller spent on the day, in the store's counter, and the estimate for the smallest tier stay
      within the cap. */
  predicate WithinBudget(env: Env, cfg: Config, w: World, r: Request, now: int)
    requires Counts(r)
  {
    var estimate := env.costUnits("tier1-small", env.estimateTokens(r.query.value), cfg.maxOutputTokens);
    var key := Budget.Key(r.caller.value.subject, now / 1000 / 86_400);
    var spent := if key in w.store then w.store[key].amount else 0.0;
    spent + (if estimate < 0.0 then 0.0 else estimate) <= cfg.dailyCap
  }

  lemma BudgetExactly(env: Env, cfg: Config, w: World, r: Request, now: int)
    requires Counts(r)
    ensures Budget.Exceeds(w.store, cfg.dailyCap, r.caller.value.subject,
                           env.costUnits(TIER1, env.estimateTokens(r.query.value), cfg.maxOutputTokens), Seconds(now))
       <==> !WithinBudget(env, cfg, w, r, now)
  {
  }

  lemma CacheAnswers(env: Env, cfg: Config, hit: Cache.Hit)
    ensures FromCache(env, cfg, hit).Delivered? || FromCache(env, cfg, hit) == Rejected(500)
  {
    hide Egress;
  }

  /** A request is answered with the status of the first guard it fails; one that fails none is served from the
      cache or goes to the engine. */
  lemma GuardsExactly(env: Env, cfg: Config, w: World, r: Request, now: int)
    ensures var outcome := Arrive(env, cfg, w, r, now).1;
            if r.query.None? || Blank(r.query.value) then outcome == Done(Rejected(400))
            else if r.caller.None? then outcome == Done(Rejected(401))
            else if !WithinRate(cfg, w, r, now) then outcome == Done(Rejected(429))
            else if !WithinInput(env, cfg, r) then outcome == Done(Rejected(413))
            else if !WithinBudget(env, cfg, w, r, now) then outcome == Done(Rejected(402))
            else || (outcome.Done? && (outcome.response.Delivered? || outcome.response == Rejected(500)))
                 || (outcome.Proxied? && outcome.pending.caller == r.caller.value)
  {
    if Counts(r) {
      RateLimiter.AllowedExactly(RateLimiter.Live(w.hashes, r.caller.value.subject, now), cfg.capacity, now);
      BudgetExactly(env, cfg, w, r, now);
    }
    forall hit ensures FromCache(env, cfg, hit).Delivered? || FromCache(env, cfg, hit) == Rejected(500) {
      CacheAnswers(env, cfg, hit);
    }
    hide FromCache, RedactedQuery, Cache.Found, Budget.Exceeds, WithinBudget, RateLimiter.Allowed, RateLimiter.Suffices;
  }

  /** What is embedded and routed is the redacted question; the size is that of the question as asked. */
  lemma QuestionIsRedacted(env: Env, cfg: Config, w: World, r: Request, now: int)
    requires forall text :: env.redact(text).counts == map[] ==> env.redact(text).text == text
    requires Arrive(env, cfg, w, r, now).1.Proxied?
    ensures var p := Arrive(env, cfg, w, r, now).1.pending;
            var safe := if cfg.safety.piiEnabled then env.redact(r.query.value).text else r.query.value;
            && p.decision == env.route(safe, r.hints) && p.vec == (if cfg.cacheEnabled then env.embed(safe) else [])
            && p.inputTokens == env.estimateTokens(r.query.value)
  {
    hide FromCache, Cache.Found, Budget.Exceeds, RateLimiter.Allowed, RateLimiter.After;
  }

  /** The hypotheses of the spend bound, step by step: the clock does not go back, an arriving caller has fewer
      requests in flight than the limit, and no answer costs more than the maximum. */
  lemma {:induction false} WithinExactly(env: Env, cfg: Config, p: Budget.Limits, s: State, events: seq<Event>,
                                         clock: int, e: Event, end: State, last: int)
    requires Possible(env, cfg, s, events) && end == Run(env, cfg, s, events)
    requires last == if events == [] then clock else LastTime(events, clock)
    ensures AllWithin(env, cfg, p, s, [], clock)
    ensures AllWithin(env, cfg, p, s, events + [e], clock)
       <==> && AllWithin(env, cfg, p, s, events, clock)
            && (e.Completion? ==> e.index < |end.pending|)
            && (!e.CacheRestart? ==> last <= e.now / 1000)
            && (e.Arrival? && e.request.caller.Some? ==>
                  Budget.InFlight(Users(end.pending), e.request.caller.value.subject) < p.concurrent)
            && (e.Completion? && e.reply.Answered? ==> Cost(env, end.pending[e.index], e.reply.body) <= p.maxCost)
    decreases |events|
  {
    hide Next;
    if events == [] {
      assert events + [e] == [e] && [e][1..] == [];
    } else {
      assert (events + [e])[1..] == events[1..] + [e] && (events + [e])[0] == events[0];
      WithinExactly(env, cfg, p, Next(env, cfg, s, events[0]), events[1..], TimeOf(events[0], clock), e, end, last);
    }
  }

  /** The time of the last event that has one. */
  function LastTime(events: seq<Event>, clock: int): int {
    if events == [] then clock else LastTime(events[1..], TimeOf(events[0], clock))
  }

  // ---- the rate limit over a run ----------------------------------------------------------------------------

  /** A run takes its steps one after the other; it can go on with every arrival and cache restart, and with the
      answer of every request that still waits. */
  lemma {:induction false} RunTakesSteps(env: Env, cfg: Config, s: State, events: seq<Event>, e: Event)
    ensures Possible(env, cfg, s, []) && Run(env, cfg, s, []) == s
    ensures Possible(env, cfg, s, events + [e])
       <==> Possible(env, cfg, s, events) && (e.Completion? ==> e.index < |Run(env, cfg, s, events).pending|)
    ensures Possible(env, cfg, s, events + [e]) ==>
              Run(env, cfg, s, events + [e]) == Next(env, cfg, Run(env, cfg, s, events), e)
    decreases |events|
  {
    hide Next;
    if events == [] {
      assert events + [e] == [e] && [e][1..] == [];
    } else {
      assert (events + [e])[1..] == events[1..] + [e] && (events + [e])[0] == events[0];
      if Enabled(s, events[0]) { RunTakesSteps(env, cfg, Next(env, cfg, s, events[0]), events[1..], e); }
    }
  }

  predicate CallOf(e: Event, user: string) {
    e.Arrival? && Counts(e.request) && e.request.caller.value.subject == user
  }

  /** When the user's requests reached the rate limit. */
  function CallTimes(events: seq<Event>, user: string): seq<int> {
    if events == [] then []
    else (if CallOf(events[0], user) then [events[0].now] else []) + CallTimes(events[1..], user)
  }

  /** Which of them were not answered with 429. */
  function Verdicts(env: Env, cfg: Config, s: State, events: seq<Event>, user: string): seq<bool>
    requires Possible(env, cfg, s, events)
    decreases |events|
  {
    if events == [] then []
    else
      var e := events[0];
      (if CallOf(e, user) then [Arrive(env, cfg, s.world, e.request, e.now).1 != Done(Rejected(429))] else [])
      + Verdicts(env, cfg, Next(env, cfg, s, e), events[1..], user)
  }

  /** The store holds this bucket for the user, to be kept for two minutes. */
  predicate Holds(hashes: map<string, RateLimiter.Hash>, user: string, b: RateLimiter.Bucket) {
    match b
    case Absent => user !in hashes
    case Present(tokens, ts) => user in hashes && hashes[user] == RateLimiter.Hash(tokens, ts, ts + 120_000)
  }

  lemma HeldUntilExpiry(hashes: map<string, RateLimiter.Hash>, user: string, b: RateLimiter.Bucket, now: int)
    requires Holds(hashes, user, b)
    ensures RateLimiter.Live(hashes, user, now) == RateLimiter.Expired(b, now)
  {
  }

  lemma ArrivalKeepsOthers(env: Env, cfg: Config, w: World, r: Request, now: int, user: string)
    requires !(Counts(r) && r.caller.value.subject == user)
    ensures var h := Arrive(env, cfg, w, r, now).0.hashes;
            (user in h <==> user in w.hashes) && (user in h ==> h[user] == w.hashes[user])
  {
    hide FromCache, RedactedQuery, Cache.Found, Budget.Exceeds, RateLimiter.Allowed, RateLimiter.After;
  }

  lemma ArrivalCharges(env: Env, cfg: Config, w: World, r: Request, now: int, b: RateLimiter.Bucket)
    requires Counts(r) && Holds(w.hashes, r.caller.value.subject, b)
    ensures var live := RateLimiter.Expired(b, now);
            && Holds(Arrive(env, cfg, w, r, now).0.hashes, r.caller.value.subject,
                     RateLimiter.After(live, cfg.capacity, now))
            && (Arrive(env, cfg, w, r, now).1 != Done(Rejected(429)) <==> RateLimiter.Allowed(live, cfg.capacity, now))
  {
    HeldUntilExpiry(w.hashes, r.caller.value.subject, b, now);
    GuardsExactly(env, cfg, w, r, now);
    RateLimiter.AllowedExactly(RateLimiter.Live(w.hashes, r.caller.value.subject, now), cfg.capacity, now);
    hide FromCache, RedactedQuery, Cache.Found, Budget.Exceeds, WithinBudget, RateLimiter.Suffices, RateLimiter.OnHand;
  }

  lemma OtherStepsKeep(env: Env, cfg: Config, s: State, e: Event, user: string, b: RateLimiter.Bucket)
    requires Enabled(s, e) && !CallOf(e, user) && Holds(s.world.hashes, user, b)
    ensures Holds(Next(env, cfg, s, e).world.hashes, user, b)
  {
    hide Arrive, Egress, Tokens;
    if e.Arrival? { ArrivalKeepsOthers(env, cfg, s.world, e.request, e.now, user); }
  }

  lemma {:induction false} VerdictsAreDecisions(env: Env, cfg: Config, s: State, events: seq<Event>, user: string,
                                                b: RateLimiter.Bucket)
    requires Possible(env, cfg, s, events) && Holds(s.world.hashes, user, b)
    ensures Verdicts(env, cfg, s, events, user)
         == RateLimiter.DecisionsWithExpiry(b, cfg.capacity, CallTimes(events, user))
    decreases |events|
  {
    hide Arrive, Holds, RateLimiter.Allowed, RateLimiter.After, RateLimiter.Expired;
    if events != [] {
      var e, rest := events[0], events[1..];
      var t := Next(env, cfg, s, e);
      if CallOf(e, user) {
        var after := RateLimiter.After(RateLimiter.Expired(b, e.now), cfg.capacity, e.now);
        ArrivalCharges(env, cfg, s.world, e.request, e.now, b);
        assert t.world == Arrive(env, cfg, s.world, e.request, e.now).0;
        VerdictsAreDecisions(env, cfg, t, rest, user, after);
        assert ([e.now] + CallTimes(rest, user))[1..] == CallTimes(rest, user);
      } else {
        OtherStepsKeep(env, cfg, s, e, user, b);
        VerdictsAreDecisions(env, cfg, t, rest, user, b);
        assert [] + CallTimes(rest, user) == CallTimes(rest, user);
        assert [] + Verdicts(env, cfg, t, rest, user) == Verdicts(env, cfg, t, rest, user);
      }
    }
  }

  /** On every run, with requests of all users, engine answers and cache restarts in between: a user's requests
      pass or are refused as the token bucket decides for their times alone. */
  lemma RateIsPerUser(env: Env, cfg: Config, events: seq<Event>, user: string)
    requires Possible(env, cfg, Start(), events)
    ensures Verdicts(env, cfg, Start(), events, user)
         == RateLimiter.Decisions(RateLimiter.Absent, cfg.capacity, CallTimes(events, user))
  {
    VerdictsAreDecisions(env, cfg, Start(), events, user, RateLimiter.Absent);
    RateLimiter.ExpiryNeverChangesDecisions(RateLimiter.Absent, cfg.capacity, CallTimes(events, user));
  }

  /** So over any window of a user's requests whose clock moves forward by at most `span` ms, at most
      capacity + span * capacity / 60000 of them pass. */
  lemma GatewayRateIsBounded(env: Env, cfg: Config, events: seq<Event>, user: string, i: nat, j: nat, span: int)
    requires Possible(env, cfg, Start(), events)
    requires var times := CallTimes(events, user);
             i < j <= |times| && RateLimiter.Advance(times[i], times[i + 1..j]) <= span
    ensures |Verdicts(env, cfg, Start(), events, user)| == |CallTimes(events, user)|
    ensures RateLimiter.CountAllowed(Verdicts(env, cfg, Start(), events, user)[i..j]) * 60_000
         <= 60_000 * cfg.capacity + span * cfg.capacity
  {
    RateIsPerUser(env, cfg, events, user);
    RateLimiter.EveryWindowBoundedAnyClock(cfg.capacity, CallTimes(events, user), i, j, span);
  }

  // ---- what an answer costs and reports ---------------------------------------------------------------------

  /** The engine's token counts when it reports any, otherwise the estimates for question and answer. */
  predicate TokensOf(env: Env, body: Option<Body>, inputTokens: nat, prompt: int, completion: int) {
    var answer := if body.Some? && body.value.Object? && body.value.answer.Some? then body.value.answer.value else "";
    if body.Some? && body.value.Object? && body.value.usage.Some?
       && (body.value.usage.value.promptTokens > 0 || body.value.usage.value.completionTokens > 0)
    then prompt == body.value.usage.value.promptTokens && completion == body.value.usage.value.completionTokens
    else prompt == inputTokens && completion == env.estimateTokens(answer)
  }

  /** The user's counter of a day, a day being 86400 seconds. */
  function CounterOf(store: Budget.Store, user: string, now: int): real {
    var key := Budget.Key(user, now / 1000 / 86_400);
    if key in store then store[key].amount else 0.0
  }

  /** An answered request is charged to its caller's counter of the day, with the cost of the tier that served
      it, and to no other; the response shows that cost. A failed one changes nothing. */
  lemma AnswerIsCharged(env: Env, cfg: Config, w: World, p: Pending, reply: Reply, now: int)
    ensures var (after, response) := Complete(env, cfg, w, p, reply, now);
            && (reply.Failed? ==> after == w && response == Unavailable)
            && (reply.Answered? ==>
                  && response.Delivered? && !response.meta.cacheHit
                  && response.meta.tier == p.decision.tier && response.meta.model == p.decision.model
                  && TokensOf(env, reply.body, p.inputTokens,
                              response.meta.promptTokens, response.meta.completionTokens)
                  && response.meta.costUnits
                     == env.costUnits(p.decision.tier, response.meta.promptTokens, response.meta.completionTokens)
                  && CounterOf(after.store, p.caller.subject, now)
                     == CounterOf(w.store, p.caller.subject, now)
                        + (if response.meta.costUnits > 0.0 then response.meta.costUnits else 0.0)
                  && (forall k :: k != Budget.Key(p.caller.subject, now / 1000 / 86_400) ==>
                        Budget.Spent(after.store, k) == Budget.Spent(w.store, k))
                  && after.hashes == w.hashes)
  {
    hide Egress, Cache.Stored;
  }

  /** An answer from the cache costs nothing and is charged to nobody. */
  lemma HitIsFree(env: Env, cfg: Config, w: World, r: Request, now: int)
    ensures Arrive(env, cfg, w, r, now).0.store == w.store && Arrive(env, cfg, w, r, now).0.entries == w.entries
    ensures forall hit :: FromCache(env, cfg, hit).Delivered? ==>
              var meta := FromCache(env, cfg, hit).meta;
              meta.cacheHit && meta.tier == "cache" && !meta.escalated
              && meta.costUnits == 0.0 && meta.promptTokens == 0 && meta.completionTokens == 0
              && meta.model == hit.model && meta.similarity == hit.similarity
  {
    hide Egress, RedactedQuery, Cache.Found, Budget.Exceeds, RateLimiter.Allowed, RateLimiter.After;
  }

  /** How often a text contributes to a count: what the redactor found, and for UNSAFE_OUTPUT what the sanitiser
      removed from the redacted text. */
  function Contributes(redact: string -> Redaction, safety: Safety, text: string, key: string): nat {
    (if safety.piiEnabled && key in redact(text).counts then redact(text).counts[key] else 0)
    + (if safety.sanitizeEnabled && key == "UNSAFE_OUTPUT" then
         Sanitizer.Outcome(if safety.piiEnabled then redact(text).text else text).removed
       else 0)
  }

  function SnippetsContribute(redact: string -> Redaction, safety: Safety, citations: seq<Citation>, key: string): nat {
    if citations == [] then 0
    else
      (if citations[0].snippet.Some? then Contributes(redact, safety, citations[0].snippet.value, key) else 0)
      + SnippetsContribute(redact, safety, citations[1..], key)
  }

  lemma MergeAdds(a: Counts, b: Counts, key: string)
    ensures Count(Merge(a, b), key) == Count(a, key) + Count(b, key)
  {
  }

  lemma CleansedCounts(redact: string -> Redaction, safety: Safety, text: string, counts: Counts, key: string)
    ensures Count(Cleansed(redact, safety, text, counts).1, key)
         == Count(counts, key) + Contributes(redact, safety, text, key)
  {
    hide Sanitizer.Outcome;
    var found := redact(text).counts;
    var removed := Sanitizer.Outcome(if safety.piiEnabled then redact(text).text else text).removed;
    MergeAdds(counts, found, key);
    MergeAdds(counts, map["UNSAFE_OUTPUT" := removed], key);
    MergeAdds(Merge(counts, found), map["UNSAFE_OUTPUT" := removed], key);
  }

  lemma {:induction false} SnippetCounts(redact: string -> Redaction, safety: Safety, citations: seq<Citation>,
                                         counts: Counts, key: string)
    ensures Count(CleansedSnippets(redact, safety, citations, counts).1, key)
         == Count(counts, key) + SnippetsContribute(redact, safety, citations, key)
    decreases |citations|
  {
    hide Cleansed, Contributes, Count;
    if citations != [] {
      if citations[0].snippet.Some? {
        CleansedCounts(redact, safety, citations[0].snippet.value, counts, key);
        SnippetCounts(redact, safety, citations[1..],
                      Cleansed(redact, safety, citations[0].snippet.value, counts).1, key);
      } else {
        SnippetCounts(redact, safety, citations[1..], counts, key);
      }
    }
  }

  /** The counts a response reports are the sums over the answer and all snippets. */
  lemma CountsAddUp(redact: string -> Redaction, safety: Safety, body: Body, key: string)
    ensures Count(Egress(redact, safety, body).1, key)
         == if body.Other? then 0
            else (if body.answer.Some? then Contributes(redact, safety, body.answer.value, key) else 0)
                 + SnippetsContribute(redact, safety, body.citations, key)
  {
    hide Cleansed, Contributes;
    if body.Object? {
      if body.answer.Some? {
        CleansedCounts(redact, safety, body.answer.value, map[], key);
        SnippetCounts(redact, safety, body.citations, Cleansed(redact, safety, body.answer.value, map[]).1, key);
      } else {
        SnippetCounts(redact, safety, body.citations, map[], key);
      }
    }
  }

  predicate Positive(counts: Counts) { forall k :: k in counts ==> counts[k] > 0 }

  lemma CleansedPositive(redact: string -> Redaction, safety: Safety, text: string, counts: Counts)
    requires Positive(redact(text).counts) && Positive(counts)
    ensures Positive(Cleansed(redact, safety, text, counts).1)
  {
    hide Sanitizer.Outcome;
  }

  lemma {:induction false} SnippetsPositive(redact: string -> Redaction, safety: Safety, citations: seq<Citation>,
                                            counts: Counts)
    requires Positive(counts) && forall text :: Positive(redact(text).counts)
    ensures Positive(CleansedSnippets(redact, safety, citations, counts).1)
    decreases |citations|
  {
    hide Cleansed, Positive;
    if citations != [] {
      if citations[0].snippet.Some? {
        CleansedPositive(redact, safety, citations[0].snippet.value, counts);
        SnippetsPositive(redact, safety, citations[1..],
                         Cleansed(redact, safety, citations[0].snippet.value, counts).1);
      } else {
        SnippetsPositive(redact, safety, citations[1..], counts);
      }
    }
  }

  /** With a redactor that reports only what it found, a response reports no count of zero. */
  lemma CountsArePositive(redact: string -> Redaction, safety: Safety, body: Body)
    requires forall text :: Positive(redact(text).counts)
    ensures forall k :: k in Egress(redact, safety, body).1 ==> Egress(redact, safety, body).1[k] > 0
  {
    if body.Object? {
      if body.answer.Some? {
        CleansedPositive(redact, safety, body.answer.value, map[]);
        SnippetsPositive(redact, safety, body.citations, Cleansed(redact, safety, body.answer.value, map[]).1);
      } else {
        SnippetsPositive(redact, safety, body.citations, map[]);
      }
    }
  }

  /** Cleansing changes texts alone: a text becomes its redaction sanitised, and the rest of the document stays. */
  lemma EgressKeepsTheRest(redact: string -> Redaction, safety: Safety, body: Body)
    ensures var after := Egress(redact, safety, body).0;
            if body.Other? then after == body
            else
              && after.Object? && after.usage == body.usage && after.rest == body.rest
              && after.answer
                 == (if body.answer.None? then None else Some(TextAfter(redact, safety, body.answer.value)))
              && |after.citations| == |body.citations|
              && forall k :: 0 <= k < |body.citations| ==>
                   after.citations[k] == body.citations[k].(snippet :=
                     if body.citations[k].snippet.None? then None
                     else Some(TextAfter(redact, safety, body.citations[k].snippet.value)))
  {
    if body.Object? {
      if body.answer.Some? {
        SnippetsKeepTheRest(redact, safety, body.citations, Cleansed(redact, safety, body.answer.value, map[]).1);
      } else {
        SnippetsKeepTheRest(redact, safety, body.citations, map[]);
      }
    }
  }

  function TextAfter(redact: string -> Redaction, safety: Safety, text: string): string {
    var clear := if safety.piiEnabled then redact(text).text else text;
    if safety.sanitizeEnabled then Sanitizer.Outcome(clear).text else clear
  }

  lemma {:induction false} SnippetsKeepTheRest(redact: string -> Redaction, safety: Safety, citations: seq<Citation>,
                                               counts: Counts)
    ensures var after := CleansedSnippets(redact, safety, citations, counts).0;
            && |after| == |citations|
            && forall k :: 0 <= k < |citations| ==>
                 after[k] == citations[k].(snippet :=
                   if citations[k].snippet.None? then None
                   else Some(TextAfter(redact, safety, citations[k].snippet.value)))
    decreases |citations|
  {
    hide Sanitizer.Outcome;
    if citations != [] {
      var rest := citations[1..];
      if citations[0].snippet.Some? {
        SnippetsKeepTheRest(redact, safety, rest, Cleansed(redact, safety, citations[0].snippet.value, counts).1);
      } else {
        SnippetsKeepTheRest(redact, safety, rest, counts);
      }
      assert forall k :: 1 <= k < |citations| ==> citations[k] == rest[k - 1];
    }
  }
}
