/** The gateway's query pipeline: guards, cache, proxied call, charging, and output safety. */
module Query {
  import opened Text
  import Budget
  import Cache
  import RateLimiter
  import Sanitizer
  import AccountNumbers

  // ---- the answer document --------------------------------------------------------------------------

  datatype Citation = Citation(snippet: Option<string>, rest: string)
  datatype Usage = Usage(promptTokens: int, completionTokens: int)

  /** The value of an answer document; `rest` stands for the fields the pipeline only passes on. */
  datatype Body =
    | Object(answer: Option<string>, citations: seq<Citation>, usage: Option<Usage>, rest: string)
    | Other(text: string)

  type Counts = map<string, nat>

  datatype Redaction = Redaction(text: string, counts: Counts)

  function Count(counts: Counts, key: string): nat { if key in counts then counts[key] else 0 }

  function Merge(counts: Counts, more: Counts): Counts {
    map k | k in counts.Keys + more.Keys :: Count(counts, k) + Count(more, k)
  }

  datatype Safety = Safety(piiEnabled: bool, sanitizeEnabled: bool)

  function WithUnsafe(removed: nat, counts: Counts): Counts {
    if removed > 0 then Merge(counts, map["UNSAFE_OUTPUT" := removed]) else counts
  }

  /** The cleansed text, and the counts with this text's findings added. */
  function Cleansed(redact: string -> Redaction, safety: Safety, text: string, counts: Counts): (string, Counts) {
    var r := if safety.piiEnabled then redact(text) else Redaction(text, map[]);
    var afterPii := if safety.piiEnabled then Merge(counts, r.counts) else counts;
    if !safety.sanitizeEnabled then (r.text, afterPii)
    else
      var s := Sanitizer.Outcome(r.text);
      (s.text, WithUnsafe(s.removed, afterPii))
  }

  function CleansedSnippets(redact: string -> Redaction, safety: Safety, citations: seq<Citation>, counts: Counts)
    : (seq<Citation>, Counts)
    decreases |citations|
  {
    if citations == [] then ([], counts)
    else
      var c := citations[0];
      var (snippet, after) :=
        if c.snippet.None? then (c.snippet, counts)
        else
          var (text, more) := Cleansed(redact, safety, c.snippet.value, counts);
          (Some(text), more);
      var (others, all) := CleansedSnippets(redact, safety, citations[1..], after);
      ([c.(snippet := snippet)] + others, all)
  }

  /** What the caller receives for a raw body, with the counts by kind. */
  function Egress(redact: string -> Redaction, safety: Safety, body: Body): (Body, Counts) {
    if body.Other? then (body, map[])
    else
      var (answer, counts) :=
        if body.answer.None? then (body.answer, map[])
        else
          var (text, found) := Cleansed(redact, safety, body.answer.value, map[]);
          (Some(text), found);
      var (citations, all) := CleansedSnippets(redact, safety, body.citations, counts);
      (body.(answer := answer, citations := citations), all)
  }

  /** With sanitising on, no cleansed text holds active content. */
  lemma CleansedIsInert(redact: string -> Redaction, safety: Safety, text: string, counts: Counts)
    ensures safety.sanitizeEnabled ==> Sanitizer.Inert(Cleansed(redact, safety, text, counts).0)
  {
    Sanitizer.OutputIsInert(if safety.piiEnabled then redact(text).text else text);
  }

  predicate AllSnippets(cs: seq<Citation>, good: string -> bool) {
    cs != [] ==> (cs[0].snippet.Some? ==> good(cs[0].snippet.value)) && AllSnippets(cs[1..], good)
  }

  /** The answer and every snippet satisfy `good`. */
  predicate AllTexts(body: Body, good: string -> bool) {
    body.Object? ==> (body.answer.Some? ==> good(body.answer.value)) && AllSnippets(body.citations, good)
  }

  /** Cleansing turns every text that is `given` into one that is `good`. */
  ghost predicate Ensures(redact: string -> Redaction, safety: Safety, given: string -> bool, good: string -> bool) {
    forall text, counts :: given(text) ==> good(Cleansed(redact, safety, text, counts).0)
  }

  lemma {:induction false} SnippetsSatisfy(redact: string -> Redaction, safety: Safety, given: string -> bool,
                                           good: string -> bool, cs: seq<Citation>, counts: Counts)
    requires Ensures(redact, safety, given, good) && AllSnippets(cs, given)
    ensures AllSnippets(CleansedSnippets(redact, safety, cs, counts).0, good)
    decreases |cs|
  {
    if cs != [] {
      var c := cs[0];
      if c.snippet.Some? {
        var t := Cleansed(redact, safety, c.snippet.value, counts);
        assert good(t.0);
        SnippetsSatisfy(redact, safety, given, good, cs[1..], t.1);
      } else {
        SnippetsSatisfy(redact, safety, given, good, cs[1..], counts);
      }
    }
  }

  lemma EgressSatisfies(redact: string -> Redaction, safety: Safety, given: string -> bool, good: string -> bool,
                        body: Body)
    requires Ensures(redact, safety, given, good) && AllTexts(body, given)
    ensures AllTexts(Egress(redact, safety, body).0, good)
  {
    if body.Object? {
      if body.answer.Some? {
        var t := Cleansed(redact, safety, body.answer.value, map[]);
        assert good(t.0);
        SnippetsSatisfy(redact, safety, given, good, body.citations, t.1);
      } else {
        SnippetsSatisfy(redact, safety, given, good, body.citations, map[]);
      }
    }
  }

  /** What AllSnippets says of one snippet. */
  lemma {:induction false} SnippetAt(cs: seq<Citation>, good: string -> bool, k: nat)
    requires AllSnippets(cs, good) && k < |cs| && cs[k].snippet.Some?
    ensures good(cs[k].snippet.value)
  {
    if k > 0 { SnippetAt(cs[1..], good, k - 1); }
  }

  function IsInert(): string -> bool { (s: string) => Sanitizer.Inert(s) }

  function Anything(): string -> bool { (s: string) => true }

  lemma {:induction false} AnySnippets(cs: seq<Citation>)
    ensures AllSnippets(cs, Anything())
  {
    if cs != [] { AnySnippets(cs[1..]); }
  }

  /** Neither the answer nor any snippet holds active content. */
  predicate InertBody(body: Body) { AllTexts(body, IsInert()) }

  lemma EgressIsInert(redact: string -> Redaction, safety: Safety, body: Body)
    requires safety.sanitizeEnabled
    ensures InertBody(Egress(redact, safety, body).0)
  {
    forall text, counts ensures IsInert()(Cleansed(redact, safety, text, counts).0) {
      CleansedIsInert(redact, safety, text, counts);
    }
    if body.Object? { AnySnippets(body.citations); }
    EgressSatisfies(redact, safety, Anything(), IsInert(), body);
  }

  // ---- account numbers after redaction ----------------------------------------------------------------

  /** The redactor leaves no account number. */
  ghost predicate RedactsAccounts(redact: string -> Redaction) {
    forall text :: !AccountNumbers.HasAccount(redact(text).text)
  }

  /** In the redacted text no `<` directly follows a digit. */
  function RedactedGuarded(redact: string -> Redaction): string -> bool {
    (s: string) => AccountNumbers.NoDigitBeforeAngle(redact(s).text)
  }

  function HasNoAccount(): string -> bool { (s: string) => AccountNumbers.NoAccount(s) }

  /** With redaction on, a cleansed text holds an account number exactly when taking out elements and tags
      joins one from the redacted text. */
  lemma CleansedAccountsExactly(redact: string -> Redaction, safety: Safety, text: string, counts: Counts)
    requires safety.piiEnabled && safety.sanitizeEnabled
    ensures AccountNumbers.HasAccount(Cleansed(redact, safety, text, counts).0)
       <==> AccountNumbers.HasAccount(AccountNumbers.Removed(redact(text).text))
  {
    AccountNumbers.OnlyRemovalMatters(redact(text).text);
  }

  /** Redaction runs before sanitising, so a removed element can join digits the redactor saw apart: whatever
      it does elsewhere, if it leaves such a text alone then an account number is delivered. */
  lemma JoinedDigitsDelivered(redact: string -> Redaction, safety: Safety, a: string, b: string, counts: Counts)
    requires safety.piiEnabled && safety.sanitizeEnabled
    requires AccountNumbers.AllDigits(a) && AccountNumbers.AllDigits(b) && |a| < 8 && |b| < 8 && |a| + |b| >= 8
    requires redact(a + (AccountNumbers.EMBED + b)).text == a + (AccountNumbers.EMBED + b)
    ensures !AccountNumbers.HasAccount(a + (AccountNumbers.EMBED + b))
    ensures var out := Cleansed(redact, safety, a + (AccountNumbers.EMBED + b), counts).0;
            out == a + b && AccountNumbers.HasAccount(out)
  {
    AccountNumbers.RemovalJoinsDigits(a, b);
  }

  /** When no `<` of a redacted text directly follows a digit, nothing delivered holds an account number. */
  lemma EgressHasNoAccount(redact: string -> Redaction, safety: Safety, body: Body)
    requires safety.piiEnabled && RedactsAccounts(redact) && AllTexts(body, RedactedGuarded(redact))
    ensures AllTexts(Egress(redact, safety, body).0, HasNoAccount())
  {
    forall text, counts | RedactedGuarded(redact)(text)
      ensures HasNoAccount()(Cleansed(redact, safety, text, counts).0)
    {
      if safety.sanitizeEnabled {
        AccountNumbers.SanitizingJoinsNothing(redact(text).text);
      }
      AccountNumbers.NoAccountExactly(Cleansed(redact, safety, text, counts).0);
    }
    EgressSatisfies(redact, safety, RedactedGuarded(redact), HasNoAccount(), body);
  }

  /** The document as the pipeline holds it: a tree it changes in place. */
  class JsonNode {
    const isObject: bool
    const usage: Option<Usage>
    const rest: string
    var answer: Option<string>
    var citations: seq<Citation>

    constructor (body: Body)
      ensures Value() == body
    {
      isObject := body.Object?;
      usage := if body.Object? then body.usage else None;
      rest := if body.Object? then body.rest else body.text;
      answer := if body.Object? then body.answer else None;
      citations := if body.Object? then body.citations else [];
    }

    function Value(): Body
      reads this
    {
      if isObject then Object(answer, citations, usage, rest) else Other(rest)
    }
  }

  method Cleanse(redact: string -> Redaction, safety: Safety, text: string, counts: Counts)
    returns (out: string, all: Counts)
    ensures (out, all) == Cleansed(redact, safety, text, counts)
    ensures safety.sanitizeEnabled ==> Sanitizer.Inert(out)
    ensures !safety.piiEnabled && !safety.sanitizeEnabled ==> out == text && all == counts
  {
    CleansedIsInert(redact, safety, text, counts);
    out, all := text, counts;
    if safety.piiEnabled {
      var r := redact(out);
      out := r.text;
      all := Merge(all, r.counts);
    }
    if safety.sanitizeEnabled {
      var s := Sanitizer.Sanitize(out);
      out := s.text;
      all := WithUnsafe(s.removed, all);
    }
  }

  lemma NextCitation(citations: seq<Citation>, i: nat, c: Citation, later: seq<Citation>)
    requires i < |citations|
    ensures var updated := citations[i := c];
            && updated[i + 1..] == citations[i..][1..]
            && updated[..i + 1] + later == citations[..i] + ([c] + later)
  {
  }

  /** Cleanses the snippets in place, in order. */
  method CleanseSnippets(redact: string -> Redaction, safety: Safety, body: JsonNode, counts: Counts)
    returns (all: Counts)
    modifies body`citations
    ensures (body.citations, all) == CleansedSnippets(redact, safety, old(body.citations), counts)
  {
    all := counts;
    var i := 0;
    assert body.citations[0..] == body.citations;
    assert body.citations[..0] + CleansedSnippets(redact, safety, body.citations, counts).0
        == CleansedSnippets(redact, safety, body.citations, counts).0;
    while i < |body.citations|
      invariant i <= |body.citations|
      invariant var (later, total) := CleansedSnippets(redact, safety, body.citations[i..], all);
                CleansedSnippets(redact, safety, old(body.citations), counts) == (body.citations[..i] + later, total)
      decreases |body.citations| - i
    {
      var c := body.citations[i];
      if c.snippet.Some? {
        var text, found := Cleanse(redact, safety, c.snippet.value, all);
        c := c.(snippet := Some(text));
        all := found;
      }
      NextCitation(body.citations, i, c, CleansedSnippets(redact, safety, body.citations[i..][1..], all).0);
      body.citations := body.citations[i := c];
      i := i + 1;
    }
    assert body.citations[i..] == [] && body.citations[..i] + [] == body.citations;
  }

  /** Cleanses the document in place. */
  method ApplyEgressSafety(redact: string -> Redaction, safety: Safety, body: JsonNode) returns (counts: Counts)
    modifies body
    ensures (body.Value(), counts) == Egress(redact, safety, old(body.Value()))
  {
    counts := map[];
    if !body.isObject { return; }
    if body.answer.Some? {
      var text, found := Cleanse(redact, safety, body.answer.value, counts);
      body.answer := Some(text);
      counts := found;
    }
    counts := CleanseSnippets(redact, safety, body, counts);
  }

  // ---- the pipeline ---------------------------------------------------------------------------------

  datatype Caller = Caller(subject: string, clearance: string)
  datatype Request = Request(query: Option<string>, caller: Option<Caller>, hints: string)
  datatype Decision = Decision(tier: string, model: string, escalated: bool)
  datatype Reply = Failed | Answered(body: Option<Body>)

  /** The collaborators whose inside does not matter here. */
  datatype Env = Env(
    redact: string -> Redaction,
    embed: string -> Cache.Vec,
    distance: (Cache.Vec, Cache.Vec) -> real,
    render: Body -> string,
    parse: string -> Option<Body>,
    route: (string, string) -> Decision,
    estimateTokens: string -> nat,
    costUnits: (string, int, int) -> real)

  datatype Config = Config(
    capacity: nat,
    dailyCap: real,
    maxInputTokens: nat,
    maxOutputTokens: nat,
    cacheEnabled: bool,
    corpusVersion: string,
    cache: Cache.Settings,
    safety: Safety)

  datatype Meta = Meta(tier: string, model: string, escalated: bool, cacheHit: bool, similarity: real, counts: Counts,
                       promptTokens: int, completionTokens: int, costUnits: real)

  /** The sections of `meta` are merged into the body when it is an object. */
  datatype Response = Rejected(status: nat) | Unavailable | Delivered(body: Option<Body>, meta: Meta)

  /** The stores behind the gateway. */
  datatype World = World(hashes: map<string, RateLimiter.Hash>, store: Budget.Store, entries: seq<Cache.Entry>)

  /** A request that passed every guard, missed the cache, and waits for the engine's answer. */
  datatype Pending = Pending(caller: Caller, vec: Cache.Vec, inputTokens: nat, decision: Decision)

  datatype Outcome = Done(response: Response) | Proxied(pending: Pending)

  const TIER1 := "tier1-small"

  function Seconds(ms: int): int { ms / 1000 }

  function RedactedQuery(env: Env, cfg: Config, query: string): string {
    if cfg.safety.piiEnabled && env.redact(query).counts != map[] then env.redact(query).text else query
  }

  function FromCache(env: Env, cfg: Config, hit: Cache.Hit): Response {
    match env.parse(hit.answer)
    case None => Rejected(500)
    case Some(raw) =>
      var (body, counts) := Egress(env.redact, cfg.safety, raw);
      Delivered(Some(body), Meta("cache", hit.model, false, true, hit.similarity, counts, 0, 0, 0.0))
  }

  /** From the arrival of a request to its answer, or to the call of the engine. */
  function Arrive(env: Env, cfg: Config, w: World, r: Request, now: int): (World, Outcome) {
    if r.query.None? || Blank(r.query.value) then (w, Done(Rejected(400)))
    else if r.caller.None? then (w, Done(Rejected(401)))
    else
      var user, query := r.caller.value.subject, r.query.value;
      var bucket := RateLimiter.Live(w.hashes, user, now);
      var after := RateLimiter.After(bucket, cfg.capacity, now);
      var charged := w.(hashes := w.hashes[user := RateLimiter.Hash(after.tokens, after.ts, now + RateLimiter.TTL_MS)]);
      var inputTokens := env.estimateTokens(query);
      var estimate := env.costUnits(TIER1, inputTokens, cfg.maxOutputTokens);
      if !RateLimiter.Allowed(bucket, cfg.capacity, now) then (charged, Done(Rejected(429)))
      else if inputTokens > cfg.maxInputTokens then (charged, Done(Rejected(413)))
      else if Budget.Exceeds(w.store, cfg.dailyCap, user, estimate, Seconds(now)) then (charged, Done(Rejected(402)))
      else
        var safe := RedactedQuery(env, cfg, query);
        var vec := if cfg.cacheEnabled then env.embed(safe) else [];
        var part := Cache.Partition(r.caller.value.clearance, cfg.corpusVersion);
        var hit := if cfg.cacheEnabled then Cache.Found(env.distance, cfg.cache, w.entries, part, vec, Seconds(now))
                   else None;
        if hit.Some? then (charged, Done(FromCache(env, cfg, hit.value)))
        else (charged, Proxied(Pending(r.caller.value, vec, inputTokens, env.route(safe, r.hints))))
  }

  function AnswerText(body: Option<Body>): string {
    if body.Some? && body.value.Object? && body.value.answer.Some? then body.value.answer.value else ""
  }

  function Tokens(env: Env, body: Option<Body>, inputTokens: nat): (int, int) {
    if body.Some? && body.value.Object? && body.value.usage.Some?
       && (body.value.usage.value.promptTokens > 0 || body.value.usage.value.completionTokens > 0)
    then (body.value.usage.value.promptTokens, body.value.usage.value.completionTokens)
    else (inputTokens, env.estimateTokens(AnswerText(body)))
  }

  function Cost(env: Env, p: Pending, body: Option<Body>): real {
    var (prompt, completion) := Tokens(env, body, p.inputTokens);
    env.costUnits(p.decision.tier, prompt, completion)
  }

  /** From the engine's answer to the response. */
  function Complete(env: Env, cfg: Config, w: World, p: Pending, reply: Reply, now: int): (World, Response) {
    if reply.Failed? then (w, Unavailable)
    else
      var part := Cache.Partition(p.caller.clearance, cfg.corpusVersion);
      var entries :=
        if cfg.cacheEnabled && reply.body.Some? then
          Cache.Stored(cfg.cache, w.entries, part, p.vec,
                       Some(Cache.CachedAnswer(Some(env.render(reply.body.value)),
                                               Some(p.decision.model))), Seconds(now))
        else w.entries;
      var (prompt, completion) := Tokens(env, reply.body, p.inputTokens);
      var cost := Cost(env, p, reply.body);
      var store := Budget.Charged(w.store, p.caller.subject, cost, Seconds(now));
      var (body, counts) :=
        if reply.body.None? then (None, map[])
        else
          var (b, found) := Egress(env.redact, cfg.safety, reply.body.value);
          (Some(b), found);
      (w.(entries := entries, store := store),
       Delivered(body, Meta(p.decision.tier, p.decision.model, p.decision.escalated, false, 0.0, counts,
                            prompt, completion, cost)))
  }

  class GatewayQueryController {
    const env: Env
    const cfg: Config
    const limiter: RateLimiter.RedisRateLimiter
    const budget: Budget.RedisBudgetGuard
    const cache: Cache.RedisSemanticCache

    constructor (env: Env, cfg: Config, limiter: RateLimiter.RedisRateLimiter, budget: Budget.RedisBudgetGuard,
                 cache: Cache.RedisSemanticCache)
      requires limiter.capacity == cfg.capacity && budget.dailyCapUnits == cfg.dailyCap
      requires cache.settings == cfg.cache && cache.distance == env.distance && Cache.Exact(cache.filter)
      ensures Valid() && this.env == env && this.cfg == cfg
      ensures this.limiter == limiter && this.budget == budget && this.cache == cache
    {
      this.env, this.cfg := env, cfg;
      this.limiter, this.budget, this.cache := limiter, budget, cache;
    }

    ghost predicate Valid() {
      && limiter.capacity == cfg.capacity && budget.dailyCapUnits == cfg.dailyCap
      && cache.settings == cfg.cache && cache.distance == env.distance && Cache.Exact(cache.filter)
    }

    ghost function Stores(): World
      reads limiter, budget, cache
    {
      World(limiter.hashes, budget.store, cache.entries)
    }

    method ServeHit(hit: Cache.Hit) returns (r: Response)
      ensures r == FromCache(env, cfg, hit)
    {
      var parsed := env.parse(hit.answer);
      if parsed.None? { return Rejected(500); }
      var body := new JsonNode(parsed.value);
      var counts := ApplyEgressSafety(env.redact, cfg.safety, body);
      return Delivered(Some(body.Value()), Meta("cache", hit.model, false, true, hit.similarity, counts, 0, 0, 0.0));
    }

    method Guard(r: Request, now: int) returns (outcome: Outcome)
      requires Valid()
      modifies limiter, cache
      ensures (Stores(), outcome) == Arrive(env, cfg, old(Stores()), r, now)
    {
      if r.query.None? || Blank(r.query.value) { return Done(Rejected(400)); }
      if r.caller.None? { return Done(Rejected(401)); }
      var caller, query := r.caller.value, r.query.value;
      var allowed := limiter.TryAcquire(caller.subject, now);
      if !allowed { return Done(Rejected(429)); }
      var inputTokens := env.estimateTokens(query);
      if inputTokens > cfg.maxInputTokens { return Done(Rejected(413)); }
      var estimate := env.costUnits(TIER1, inputTokens, cfg.maxOutputTokens);
      var exceeds := budget.WouldExceed(caller.subject, estimate, Seconds(now));
      if exceeds { return Done(Rejected(402)); }
      var safe := RedactedQuery(env, cfg, query);
      var vec := [];
      if cfg.cacheEnabled {
        vec := env.embed(safe);
        var hit := cache.Lookup(Cache.Partition(caller.clearance, cfg.corpusVersion), vec, Seconds(now));
        if hit.Some? {
          var response := ServeHit(hit.value);
          return Done(response);
        }
      }
      return Proxied(Pending(caller, vec, inputTokens, env.route(safe, r.hints)));
    }

    /** The raw answer is stored before the document is cleansed in place. */
    method Conclude(p: Pending, reply: Reply, now: int) returns (response: Response)
      requires Valid()
      modifies budget, cache
      ensures (Stores(), response) == Complete(env, cfg, old(Stores()), p, reply, now)
    {
      if reply.Failed? { return Unavailable; }
      var tokens := Tokens(env, reply.body, p.inputTokens);
      var cost := env.costUnits(p.decision.tier, tokens.0, tokens.1);
      if reply.body.None? {
        budget.Record(p.caller.subject, cost, Seconds(now));
        return Delivered(None, Meta(p.decision.tier, p.decision.model, p.decision.escalated, false, 0.0, map[],
                                    tokens.0, tokens.1, cost));
      }
      var body := new JsonNode(reply.body.value);
      if cfg.cacheEnabled {
        var raw := Cache.CachedAnswer(Some(env.render(body.Value())), Some(p.decision.model));
        cache.Put(Cache.Partition(p.caller.clearance, cfg.corpusVersion), p.vec, Some(raw), Seconds(now));
      }
      budget.Record(p.caller.subject, cost, Seconds(now));
      var counts := ApplyEgressSafety(env.redact, cfg.safety, body);
      return Delivered(Some(body.Value()), Meta(p.decision.tier, p.decision.model, p.decision.escalated, false, 0.0,
                                                counts, tokens.0, tokens.1, cost));
    }
  }

  // ---- runs: many requests at once ------------------------------------------------------------------

  /** `log` lists what was answered, with the clearance it was answered at. */
  datatype LogEntry = LogEntry(clearance: string, response: Response)
  datatype State = State(world: World, pending: seq<Pending>, log: seq<LogEntry>)

  datatype Event =
    | Arrival(request: Request, now: int)
    | Completion(index: nat, reply: Reply, now: int)
    | CacheRestart

  predicate Enabled(s: State, e: Event) { e.Completion? ==> e.index < |s.pending| }

  function Without(pending: seq<Pending>, i: nat): seq<Pending>
    requires i < |pending|
  {
    pending[..i] + pending[i + 1..]
  }

  function ClearanceOf(r: Request): string { if r.caller.None? then "" else r.caller.value.clearance }

  function Next(env: Env, cfg: Config, s: State, e: Event): State
    requires Enabled(s, e)
  {
    match e
    case Arrival(r, now) =>
      var (w, outcome) := Arrive(env, cfg, s.world, r, now);
      if outcome.Done? then s.(world := w, log := s.log + [LogEntry(ClearanceOf(r), outcome.response)])
      else s.(world := w, pending := s.pending + [outcome.pending])
    case Completion(i, reply, now) =>
      var (w, response) := Complete(env, cfg, s.world, s.pending[i], reply, now);
      State(w, Without(s.pending, i), s.log + [LogEntry(s.pending[i].caller.clearance, response)])
    case CacheRestart => s.(world := s.world.(entries := []))
  }

  predicate Possible(env: Env, cfg: Config, s: State, events: seq<Event>)
    decreases |events|
  {
    events != [] ==> Enabled(s, events[0]) && Possible(env, cfg, Next(env, cfg, s, events[0]), events[1..])
  }

  function Run(env: Env, cfg: Config, s: State, events: seq<Event>): State
    requires Possible(env, cfg, s, events)
    decreases |events|
  {
    if events == [] then s else Run(env, cfg, Next(env, cfg, s, events[0]), events[1..])
  }

  function Start(): State { State(World(map[], map[], []), [], []) }

  // ---- hit transparency -----------------------------------------------------------------------------

  predicate IsHit(r: Response) { r.Delivered? && r.meta.cacheHit }

  /** `miss` delivered the engine's answer that `hit` repeats: same clearance, same answer and citations,
      same redaction counts, same model. */
  predicate Repeats(hit: LogEntry, miss: LogEntry) {
    && hit.response.Delivered? && miss.response.Delivered? && !miss.response.meta.cacheHit
    && hit.clearance == miss.clearance
    && hit.response.body == miss.response.body
    && hit.response.meta.counts == miss.response.meta.counts
    && hit.response.meta.model == miss.response.meta.model
  }

  /** A lookup that finds the entry will deliver what `miss` delivered. */
  ghost predicate Backs(env: Env, cfg: Config, e: Cache.Entry, miss: LogEntry) {
    forall similarity {:trigger Cache.Hit(e.answer, e.model, similarity)} ::
      Repeats(LogEntry(e.part.clearance, FromCache(env, cfg, Cache.Hit(e.answer, e.model, similarity))), miss)
  }

  ghost predicate Transparent(env: Env, cfg: Config, s: State) {
    && (forall e :: e in s.world.entries ==> exists i :: 0 <= i < |s.log| && Backs(env, cfg, e, s.log[i]))
    && (forall j :: 0 <= j < |s.log| && IsHit(s.log[j].response) ==>
          exists i :: 0 <= i < j && Repeats(s.log[j], s.log[i]))
    && (forall j :: 0 <= j < |s.log| ==> s.log[j].response != Rejected(500))
  }

  /** Printing and parsing a document gives it back. */
  ghost predicate RoundTrips(env: Env) { forall b :: env.parse(env.render(b)) == Some(b) }

  lemma ArrivalLog(env: Env, cfg: Config, s: State, r: Request, now: int)
    requires Transparent(env, cfg, s)
    ensures var (w, outcome) := Arrive(env, cfg, s.world, r, now);
            && w.entries == s.world.entries
            && outcome != Done(Rejected(500))
            && (outcome.Done? && IsHit(outcome.response) ==>
                  exists i :: 0 <= i < |s.log| && Repeats(LogEntry(ClearanceOf(r), outcome.response), s.log[i]))
  {
    hide Egress, RedactedQuery;
    var (w, outcome) := Arrive(env, cfg, s.world, r, now);
    if outcome.Done? && (IsHit(outcome.response) || outcome.response == Rejected(500)) {
      var vec := env.embed(RedactedQuery(env, cfg, r.query.value));
      var part := Cache.Partition(r.caller.value.clearance, cfg.corpusVersion);
      Cache.HitIsNearestOwnEntry(env.distance, cfg.cache, s.world.entries, part, vec, Seconds(now));
      var hit := Cache.Found(env.distance, cfg.cache, s.world.entries, part, vec, Seconds(now)).value;
      var e :| e in s.world.entries && e.part == part && hit == Cache.Hit(e.answer, e.model, hit.similarity);
      var i :| 0 <= i < |s.log| && Backs(env, cfg, e, s.log[i]);
      assert Repeats(LogEntry(e.part.clearance, FromCache(env, cfg, Cache.Hit(e.answer, e.model, hit.similarity))),
                     s.log[i]);
    }
  }

  lemma CompletionBacks(env: Env, cfg: Config, w: World, p: Pending, reply: Reply, now: int, e: Cache.Entry)
    requires RoundTrips(env)
    requires e in Complete(env, cfg, w, p, reply, now).0.entries && e !in w.entries
    ensures Backs(env, cfg, e, LogEntry(p.caller.clearance, Complete(env, cfg, w, p, reply, now).1))
  {
    assert reply.Answered? && reply.body.Some?;
    assert e.answer == env.render(reply.body.value);
    assert env.parse(e.answer) == Some(reply.body.value);
  }

  lemma GrowLog(env: Env, cfg: Config, s: State, t: State, entry: LogEntry)
    requires Transparent(env, cfg, s) && t.log == s.log + [entry] && entry.response != Rejected(500)
    requires IsHit(entry.response) ==> exists i :: 0 <= i < |s.log| && Repeats(entry, s.log[i])
    requires forall e :: e in t.world.entries ==> e in s.world.entries || Backs(env, cfg, e, entry)
    ensures Transparent(env, cfg, t)
  {
    forall e | e in t.world.entries ensures exists i :: 0 <= i < |t.log| && Backs(env, cfg, e, t.log[i]) {
      if e in s.world.entries {
        var i :| 0 <= i < |s.log| && Backs(env, cfg, e, s.log[i]);
        assert t.log[i] == s.log[i];
      } else {
        assert t.log[|s.log|] == entry;
      }
    }
    forall j | 0 <= j < |t.log| && IsHit(t.log[j].response)
      ensures exists i :: 0 <= i < j && Repeats(t.log[j], t.log[i])
    {
      if j < |s.log| {
        var i :| 0 <= i < j && Repeats(s.log[j], s.log[i]);
        assert t.log[i] == s.log[i] && t.log[j] == s.log[j];
      } else {
        var i :| 0 <= i < |s.log| && Repeats(entry, s.log[i]);
        assert t.log[i] == s.log[i];
      }
    }
  }

  lemma StepKeepsTransparent(env: Env, cfg: Config, s: State, e: Event)
    requires RoundTrips(env) && Enabled(s, e) && Transparent(env, cfg, s)
    ensures Transparent(env, cfg, Next(env, cfg, s, e))
  {
    var t := Next(env, cfg, s, e);
    match e
    case Arrival(r, now) =>
      ArrivalLog(env, cfg, s, r, now);
      var (w, outcome) := Arrive(env, cfg, s.world, r, now);
      if outcome.Done? {
        GrowLog(env, cfg, s, t, LogEntry(ClearanceOf(r), outcome.response));
      }
    case Completion(i, reply, now) =>
      var (w, response) := Complete(env, cfg, s.world, s.pending[i], reply, now);
      var entry := LogEntry(s.pending[i].caller.clearance, response);
      forall e | e in t.world.entries && e !in s.world.entries ensures Backs(env, cfg, e, entry) {
        CompletionBacks(env, cfg, s.world, s.pending[i], reply, now, e);
      }
      GrowLog(env, cfg, s, t, entry);
    case CacheRestart =>
  }

  lemma {:induction false} RunKeepsTransparent(env: Env, cfg: Config, s: State, events: seq<Event>)
    requires RoundTrips(env) && Possible(env, cfg, s, events) && Transparent(env, cfg, s)
    ensures Transparent(env, cfg, Run(env, cfg, s, events))
    decreases |events|
  {
    if events != [] {
      StepKeepsTransparent(env, cfg, s, events[0]);
      RunKeepsTransparent(env, cfg, Next(env, cfg, s, events[0]), events[1..]);
    }
  }

  /** On every interleaving of requests, each cache hit delivers exactly the answer, citations, counts
      and model that an earlier miss delivered at the same clearance, and no stored answer ever fails
      to decode. */
  lemma HitsRepeatMisses(env: Env, cfg: Config, events: seq<Event>, j: nat)
    requires RoundTrips(env) && Possible(env, cfg, Start(), events)
    requires j < |Run(env, cfg, Start(), events).log|
    ensures var log := Run(env, cfg, Start(), events).log;
            && log[j].response != Rejected(500)
            && (log[j].response.Delivered? && log[j].response.meta.cacheHit ==>
                  exists i :: 0 <= i < j && log[i].response.Delivered? && !log[i].response.meta.cacheHit
                    && log[i].clearance == log[j].clearance && log[i].response.body == log[j].response.body
                    && log[i].response.meta.counts == log[j].response.meta.counts
                    && log[i].response.meta.model == log[j].response.meta.model)
  {
    RunKeepsTransparent(env, cfg, Start(), events);
    var log := Run(env, cfg, Start(), events).log;
    if IsHit(log[j].response) {
      var i :| 0 <= i < j && Repeats(log[j], log[i]);
    }
  }

  // ---- nothing active is ever delivered ---------------------------------------------------------------

  predicate InertResponse(r: Response) { r.Delivered? && r.body.Some? ==> InertBody(r.body.value) }

  predicate InertLog(log: seq<LogEntry>) { forall j :: 0 <= j < |log| ==> InertResponse(log[j].response) }

  lemma ServedIsInert(env: Env, cfg: Config, hit: Cache.Hit)
    requires cfg.safety.sanitizeEnabled
    ensures InertResponse(FromCache(env, cfg, hit))
  {
    if env.parse(hit.answer).Some? {
      EgressIsInert(env.redact, cfg.safety, env.parse(hit.answer).value);
    }
  }

  lemma ArrivalIsInert(env: Env, cfg: Config, w: World, r: Request, now: int)
    requires cfg.safety.sanitizeEnabled
    ensures var outcome := Arrive(env, cfg, w, r, now).1; outcome.Done? ==> InertResponse(outcome.response)
  {
    var outcome := Arrive(env, cfg, w, r, now).1;
    if outcome.Done? && outcome.response.Delivered? {
      var vec := env.embed(RedactedQuery(env, cfg, r.query.value));
      var part := Cache.Partition(r.caller.value.clearance, cfg.corpusVersion);
      ServedIsInert(env, cfg, Cache.Found(env.distance, cfg.cache, w.entries, part, vec, Seconds(now)).value);
    }
  }

  lemma CompletionIsInert(env: Env, cfg: Config, w: World, p: Pending, reply: Reply, now: int)
    requires cfg.safety.sanitizeEnabled
    ensures InertResponse(Complete(env, cfg, w, p, reply, now).1)
  {
    if reply.Answered? && reply.body.Some? {
      EgressIsInert(env.redact, cfg.safety, reply.body.value);
    }
  }

  lemma StepIsInert(env: Env, cfg: Config, s: State, e: Event)
    requires cfg.safety.sanitizeEnabled && Enabled(s, e) && InertLog(s.log)
    ensures InertLog(Next(env, cfg, s, e).log)
  {
    match e
    case Arrival(r, now) => ArrivalIsInert(env, cfg, s.world, r, now);
    case Completion(i, reply, now) => CompletionIsInert(env, cfg, s.world, s.pending[i], reply, now);
    case CacheRestart =>
  }

  lemma {:induction false} RunIsInert(env: Env, cfg: Config, s: State, events: seq<Event>)
    requires cfg.safety.sanitizeEnabled && Possible(env, cfg, s, events) && InertLog(s.log)
    ensures InertLog(Run(env, cfg, s, events).log)
    decreases |events|
  {
    if events != [] {
      StepIsInert(env, cfg, s, events[0]);
      RunIsInert(env, cfg, Next(env, cfg, s, events[0]), events[1..]);
    }
  }

  /** With sanitising on, no answer and no snippet ever delivered, on a hit or a miss of any run, holds active
      content. */
  lemma DeliveredIsInert(env: Env, cfg: Config, events: seq<Event>, j: nat)
    requires cfg.safety.sanitizeEnabled && Possible(env, cfg, Start(), events)
    requires j < |Run(env, cfg, Start(), events).log|
    ensures var r := Run(env, cfg, Start(), events).log[j].response;
            r.Delivered? && r.body.Some? && r.body.value.Object? ==>
              && (r.body.value.answer.Some? ==> Sanitizer.Inert(r.body.value.answer.value))
              && (forall k :: 0 <= k < |r.body.value.citations| && r.body.value.citations[k].snippet.Some? ==>
                    Sanitizer.Inert(r.body.value.citations[k].snippet.value))
  {
    RunIsInert(env, cfg, Start(), events);
    var r := Run(env, cfg, Start(), events).log[j].response;
    if r.Delivered? && r.body.Some? && r.body.value.Object? {
      InertTexts(r.body.value);
    }
  }

  lemma InertTexts(body: Body)
    requires InertBody(body) && body.Object?
    ensures body.answer.Some? ==> Sanitizer.Inert(body.answer.value)
    ensures forall k :: 0 <= k < |body.citations| && body.citations[k].snippet.Some? ==>
              Sanitizer.Inert(body.citations[k].snippet.value)
  {
    forall k | 0 <= k < |body.citations| && body.citations[k].snippet.Some?
      ensures Sanitizer.Inert(body.citations[k].snippet.value)
    {
      SnippetAt(body.citations, IsInert(), k);
    }
  }

  // ---- the budget on gateway runs -------------------------------------------------------------------

  function Users(pending: seq<Pending>): seq<string> {
    seq(|pending|, i requires 0 <= i < |pending| => pending[i].caller.subject)
  }

  function Ledger(s: State, clock: int): Budget.State { Budget.State(clock, s.world.store, Users(s.pending)) }

  function TimeOf(e: Event, clock: int): int { if e.CacheRestart? then clock else Seconds(e.now) }

  /** The clock does not go back, no user has more than the limit in flight, no answer costs more
      than the maximum. */
  predicate Within(env: Env, p: Budget.Limits, s: State, e: Event, clock: int) {
    && Enabled(s, e) && clock <= TimeOf(e, clock)
    && (e.Arrival? && e.request.caller.Some? ==>
          Budget.InFlight(Users(s.pending), e.request.caller.value.subject) < p.concurrent)
    && (e.Completion? && e.reply.Answered? ==> Cost(env, s.pending[e.index], e.reply.body) <= p.maxCost)
  }

  predicate AllWithin(env: Env, cfg: Config, p: Budget.Limits, s: State, events: seq<Event>, clock: int)
    decreases |events|
  {
    events != [] ==>
      && Within(env, p, s, events[0], clock)
      && AllWithin(env, cfg, p, Next(env, cfg, s, events[0]), events[1..], TimeOf(events[0], clock))
  }

  /** A step of the gateway is a step of the budget's own model, or leaves its state alone. */
  lemma GatewayStepIsBudgetStep(env: Env, cfg: Config, p: Budget.Limits, s: State, e: Event, clock: int)
    requires p.cap == cfg.dailyCap && Within(env, p, s, e, clock)
    ensures var now := TimeOf(e, clock);
            var before, after := Ledger(s, now), Ledger(Next(env, cfg, s, e), now);
            before == after || exists b :: Budget.Enabled(p, before, b) && Budget.Next(p, before, b) == after
  {
    hide Egress, RedactedQuery, Tokens;
    var now := TimeOf(e, clock);
    var before, after := Ledger(s, now), Ledger(Next(env, cfg, s, e), now);
    match e
    case Arrival(r, at) =>
      var (w, outcome) := Arrive(env, cfg, s.world, r, at);
      if outcome.Proxied? {
        var user := r.caller.value.subject;
        var b := Budget.Admit(user, env.costUnits(TIER1, env.estimateTokens(r.query.value), cfg.maxOutputTokens));
        assert Users(s.pending + [outcome.pending]) == Users(s.pending) + [user];
        assert Budget.Enabled(p, before, b) && Budget.Next(p, before, b) == after;
      }
    case Completion(i, reply, at) =>
      assert Users(Without(s.pending, i)) == Budget.RemoveAt(Users(s.pending), i);
      var b := if reply.Failed? then Budget.Drop(i) else Budget.Finish(i, Cost(env, s.pending[i], reply.body));
      assert Budget.Enabled(p, before, b) && Budget.Next(p, before, b) == after;
    case CacheRestart =>
  }

  lemma {:induction false} GatewayRunKeepsBound(env: Env, cfg: Config, p: Budget.Limits, s: State, events: seq<Event>,
                                               clock: int, user: string)
    requires 0.0 <= p.maxCost && p.cap == cfg.dailyCap
    requires AllWithin(env, cfg, p, s, events, clock) && Budget.Bounded(p, Ledger(s, clock), user)
    ensures Possible(env, cfg, s, events)
    ensures exists end :: Budget.Bounded(p, Ledger(Run(env, cfg, s, events), end), user)
    decreases |events|
  {
    if events == [] {
      assert Budget.Bounded(p, Ledger(Run(env, cfg, s, events), clock), user);
    } else {
      var e := events[0];
      var now := TimeOf(e, clock);
      Budget.StepKeepsBound(p, Ledger(s, clock), Budget.Tick(now - clock), user);
      assert Budget.Next(p, Ledger(s, clock), Budget.Tick(now - clock)) == Ledger(s, now);
      GatewayStepIsBudgetStep(env, cfg, p, s, e, clock);
      var before, after := Ledger(s, now), Ledger(Next(env, cfg, s, e), now);
      if before != after {
        var b :| Budget.Enabled(p, before, b) && Budget.Next(p, before, b) == after;
        Budget.StepKeepsBound(p, before, b, user);
      }
      var next := Next(env, cfg, s, e);
      GatewayRunKeepsBound(env, cfg, p, next, events[1..], now, user);
      var end :| Budget.Bounded(p, Ledger(Run(env, cfg, next, events[1..]), end), user);
      assert Budget.Bounded(p, Ledger(Run(env, cfg, s, events), end), user);
    }
  }

  /** On every interleaving of requests, no user's spend on any day exceeds the daily cap by more than
      the worst case of the requests that were in flight together. */
  lemma GatewaySpendIsBounded(env: Env, cfg: Config, p: Budget.Limits, events: seq<Event>,
                              clock: int, user: string, day: int)
    requires 0.0 <= p.maxCost && p.cap == cfg.dailyCap
    requires AllWithin(env, cfg, p, Start(), events, clock)
    ensures Possible(env, cfg, Start(), events)
    ensures Budget.Spent(Run(env, cfg, Start(), events).world.store, Budget.Key(user, day))
         <= Budget.Max(0.0, cfg.dailyCap) + p.concurrent as real * p.maxCost
  {
    Budget.TimesMonotone(0, p.concurrent, p.maxCost);
    assert Ledger(Start(), clock).inFlight == [];
    GatewayRunKeepsBound(env, cfg, p, Start(), events, clock, user);
    Budget.InProducts(p, Budget.Spent(Run(env, cfg, Start(), events).world.store, Budget.Key(user, day)), 0);
  }
}
