# Atlas: governed write, gateway guards, retrieval text and paired statistics

A Dafny model of the parts of Atlas whose correctness spans several functions or a whole run, with proofs.
`dafny verify dfyconfig.toml` checks everything.

- **The governed write** (`Agent`, `AgentWorld`, `AgentRuns`, `AgentOutcomes`, `AgentRefinement`, `AgentWrites`,
  `GovernedWrite`, `GovernedRuns`, `GovernedProgress`, `GovernedRules`, `DraftTool`, `DraftRefs`, `AuditChain`). An agent
  run is a checkpoint that supersteps move through a graph with two human gates; one node calls a tool that writes a
  draft and a hash-chained audit row in one transaction. `GovernedWrite` is the step system of concurrent calls and their transactions;
  `AgentWorld` adds the runs, decisions, retries and crashes around it; `GovernedRuns` and `AgentRuns` state what holds
  on every run, `GovernedProgress` and `AgentOutcomes` what a run that is over may still bring. `DraftTool` and
  `Agent.GraphRunner` are the methods as a thread executes them, proved against the same functions; `AgentRefinement`
  shows that a process among all other steps does what the runner does alone; `GovernedRules` and `AgentWrites` say
  what labels, arguments, rows and drafts hold.
- **The gateway** (`RateLimiter`, `Budget`, `Cache`, `Query`, `GatewayLaws`, `Sanitizer`, `Markup`, `AccountNumbers`).
  Token bucket, daily budget with requests in flight, the partitioned answer cache, and the pipeline that joins them, again both as methods
  over state and as step systems over every interleaving of requests.
- **Retrieval text** (`Words`, `Splitting`, `Chunker`, `Layout`, `Guardrail`, `Replacing`, `Text`). The recursive
  chunker, the spotlighting printer, and what replacing every match of a pattern comes to.
- **Paired statistics** (`Sorting`, `Rounding`, `Wilcoxon`, `Walsh`, `McNemar`, `Bootstrap`), over exact reals.
- **Small step machines** (`LoadRunner`, `Aliases`). `Sequences` holds facts about lists.

Assumptions, all visible as parameters or hypotheses:

- The digest is a function parameter. Where needed it is assumed free of collisions on the finitely many strings
  actually hashed, never to yield the genesis link on them, and to yield separator-free text.
- Resumes of one run do not overlap and each superstep is checkpointed before the next; run ids are fresh; the agent
  is the only client of the tool. A decision whose process dies before its superstep is checkpointed may be delivered
  again.
- A request reaches the tool only on the last exchange of the client, so a missing connection means nothing was sent.
- The rate-limit and budget clocks are inputs; the theorems say when they must not go back.
- Cache search is exact nearest neighbour within the filter, the older entry winning a tie; documents survive printing
  and parsing.
- The detectors of personal data, the embedder, the cost table, the router and the amount extractor are function
  parameters; random draws are inputs.

Where code and its documentation disagree the model follows the code. A gain in every pair is not always reported as
significant, because the ends are rounded before the test (`Bootstrap.SmallGainGoesUnreported`, and which data always is
in `Bootstrap.AlwaysSignificantExactly`). The header of `agents/app/nodes/act.py` first says that an error ends a run
FAILED "with no draft"; its later remark that a write may have landed is the accurate one (`AgentOutcomes.FailedRunHasDraft`, and exactly when in
`AgentOutcomes.FailedRunGetsDraftExactly`). The audit phase ERROR is described as no write having happened, but a
commit whose report is lost leaves SUCCESS and then ERROR (`DraftTool.DraftSarTool.OpenDraftSar`). The separator of
`mcp-tools/src/main/java/com/atlas/mcptools/audit/AuditHasher.java` is called unambiguous, which needs separator-free
fields (`AuditChain.SplitUndoesJoin`). The egress is described as redaction plus sanitising; in that order a removal can
join what the redactor saw apart (`Query.JoinedDigitsDelivered`, and when not in `Query.EgressHasNoAccount`).

## Model

| member | source | states |
|---|---|---|
| `Agent.SuperstepAdvances` | agents/app/graph.py:136-152 | every superstep strictly lowers the number of supersteps still possible and counts one step, so a run takes at most six; the recursion limit of eight is never reached |
| `Agent.AssessDecides` | agents/app/nodes/assess.py:27-57 | a draft is proposed if and only if some retrieved amount reaches the threshold; the run asks for clarification if and only if no amount was read and money is mentioned |
| `Agent.ProposalCitesBreaches` | agents/app/nodes/assess.py:40-56 | the cited numbers are strictly increasing and are exactly those of the numbered contexts showing a breaching amount, or all numbered contexts when none does |
| `Agent.SortedSetIsSet` | agents/app/nodes/assess.py:40-43 | `sorted({...})` yields each element once, in order |
| `Agent.ActSarNode` | agents/app/nodes/act.py:36-73 | the retry loop ends with the outcome of the first attempt that got a connection, within max(1, retries + 1) attempts; every attempt before the last made one met no connection |
| `Agent.OpenedIffFirstConnectionAnswered` | agents/app/nodes/act.py:42-73 | a run completes its action if and only if the first attempt that got a connection was answered |
| `Agent.GraphRunner.Drive` | agents/app/graph.py:121-152 | one invocation runs supersteps until the end or a gate without a decision, and equals the recursive meaning of the graph |
| `Agent.GraphRunner.Start` | agents/app/runner.py:37-58 | a fresh run is driven from the planner to its first pause or end, which is the approval gate, the clarification gate or completion as the texts say; no other run changes |
| `Agent.StartDecides` | agents/app/nodes/retrieve.py:22-44 | a started run pauses at the approval gate if and only if some amount in the answer or in some snippet reaches the threshold, at the clarification gate if and only if none of these texts yields an amount and one holds a dollar sign, and completes otherwise |
| `Agent.StartProposes` | agents/app/nodes/assess.py:23-57 | the proposal words the largest amount read anywhere and cites, once each and in order, the numbered snippets that show a breach, or all of them when none does |
| `Agent.GraphRunner.Resume` | agents/app/runner.py:60-80 | an unknown run is not found, a run not paused at a gate is left as it is, a paused one is driven on with the decision; no other run changes |
| `Agent.ApprovalEndsRun` | agents/app/graph.py:108-110 | a decision at the approval gate ends the run and is recorded; the run is REJECTED, with no draft, if and only if it is not an approval |
| `Agent.ApprovalActs` | agents/app/nodes/act.py:36-73 | after an approval the first attempt that gets a connection, within max(1, retries + 1), decides: an answer completes the run with its reference, anything else ends it FAILED with its error and no reference |
| `Agent.DecisionsOnRecord` | agents/app/graph.py:43-75 | a rejection keeps its note; a breach confirmed at the clarification gate proposes a report on the run's account and period citing every numbered snippet |
| `Agent.DecisionIsSingleUse` | agents/app/runner.py:67-70 | after a decision at the approval gate, any later decision leaves the run unchanged |
| `Agent.ClarificationNeverWrites` | agents/app/graph.py:43-75 | a decision at the clarification gate, even one that also says approved, writes nothing: the run pauses at the approval gate or completes without an action |
| `AgentWorld.StepKeepsInv` | agents/app/runner.py:64-74 | every step of the whole system (supersteps, decisions, refused, broken and lost tool calls, crashes, database steps) keeps the invariant that ties checkpoints, calls, drafts and decisions together |
| `AgentWorld.SendOpensFirstCall` | agents/app/nodes/act.py:42-52 | a request is sent only for a run that has never sent one |
| `AgentRuns.AtMostOneDraftPerRun` | agents/app/nodes/act.py:36-73 | over every run of the system, no two drafts carry the same run id |
| `AgentRuns.DraftNeedsApproval` | agents/app/graph.py:94-152 | a draft exists only if a truthy approval was delivered to its run while it was paused at the approval gate; decisions at the clarification gate never suffice |
| `AgentRuns.RejectionIsFinal` | agents/app/runner.py:64-74 | once a decision that is not an approval is consumed, no continuation gives the run a draft or changes the decision |
| `AgentWorld.RunSettles` | agents/app/runner.py:67-70 | over every continuation a consumed approval decision is kept and a run that is over keeps its checkpoint |
| `AgentRuns.ReportedDraftExists` | agents/app/nodes/act.py:53-65 | a run that reports a draft reference has that draft committed under its run id, and no run takes more than six supersteps |
| `AgentWrites.FaultsAnywhere` | agents/app/nodes/act.py:42-73 | processes may die at any time, and a tool call may break before or after it was sent or find no connection before |
| `AgentWrites.DraftIsTheProposal` | agents/app/nodes/act.py:36-65 | on every run of the system each draft holds exactly the account, period, rationale and citations of its run's approved proposal, and the label its caller presented meets the requirement |
| `AgentOutcomes.FailedRunHasDraft` | agents/app/nodes/act.py:70-73 | FAILED does not mean nothing was written: an event list from the start that ends FAILED with its draft committed |
| `AgentOutcomes.CompletedRunHasDraft` | agents/app/nodes/act.py:53-65 | an event list from the start that completes and reports its committed draft |
| `AgentOutcomes.FailedRunGetsDraftExactly` | agents/app/nodes/act.py:66-73 | a FAILED run has a draft or can still get one if and only if the audit log holds its SUCCESS row or its call has clearance and input and is not yet denied, failed, lost or done; a run refused every connection never gets one |
| `AgentOutcomes.OverRunGetsDraftExactly` | agents/app/runner.py:67-70 | the same condition for every run that is over, in every state the system keeps |
| `GovernedProgress.DraftIffLogged` | mcp-tools/src/main/java/com/atlas/mcptools/tool/SarDraftService.java:39-60 | a run has a draft if and only if the audit log holds a SUCCESS row of the run |
| `AgentRefinement.ResumeRefinesRunner` | agents/app/runner.py:60-80 | a decision delivered to a paused run and followed up without a crash leaves exactly what the runner's resume leaves, with the steps of all other runs, calls and transactions in between |
| `AgentRefinement.StartRefinesRunner` | agents/app/runner.py:37-58 | a run that is started and not interrupted reaches, among all other steps, exactly the pause or end the runner's start reaches |
| `GovernedProgress.DraftReachable` | mcp-tools/src/main/java/com/atlas/mcptools/tool/DraftSarTool.java:58-84 | from every reachable state a call that can still write has a continuation that commits its draft, whoever holds the lock |
| `AuditChain.SplitUndoesJoin` | mcp-tools/src/main/java/com/atlas/mcptools/audit/AuditHasher.java:25-31 | splitting the canonical string gives the fields back if and only if no field holds the unit separator |
| `AuditChain.PreimageInjective` | mcp-tools/src/main/java/com/atlas/mcptools/audit/AuditHasher.java:25-31 | equal hash preimages have equal previous hashes, and equal fields when the fields are free of the separator |
| `AuditChain.SeparatorMakesRowsCollide` | mcp-tools/src/main/java/com/atlas/mcptools/audit/AuditHasher.java:25-31 | whatever the tool, a row whose run id holds the separator shares its hash, under every digest, with a row of another run and another tool |
| `AuditChain.ShiftGoesUnnoticed` | mcp-tools/src/main/java/com/atlas/mcptools/audit/AuditChainVerifier.java:61-75 | verification accepts the exchange of such a row for its double, anywhere in any accepted log |
| `AuditChain.UnhashedParts` | mcp-tools/src/main/java/com/atlas/mcptools/audit/AuditHasher.java:25-31 | the sequence number is not hashed, and a missing result reference hashes like an empty one |
| `AuditChain.GenesisIsZeros` | mcp-tools/src/main/java/com/atlas/mcptools/audit/AuditHasher.java:18-31 | the first link is sixty-four zeros |
| `AuditChain.VerifyChain` | mcp-tools/src/main/java/com/atlas/mcptools/audit/AuditChainVerifier.java:61-75 | the loop reports the first row that does not link or does not match its digest, with the reason, and is content if and only if every row checks out |
| `AuditChain.FirstBrokenUnique` | mcp-tools/src/main/java/com/atlas/mcptools/audit/AuditChainVerifier.java:61-75 | there is only one first broken row, so the report is determined |
| `AuditChain.HashesDistinct` | mcp-tools/src/main/java/com/atlas/mcptools/audit/AuditChainVerifier.java:61-75 | all row hashes of an accepted log differ from each other and from the genesis link |
| `AuditChain.SameTipSameLog` | mcp-tools/src/main/java/com/atlas/mcptools/audit/AuditChainVerifier.java:61-75 | two accepted logs that end in the same hash have equal length and agree row by row on every hashed field |
| `AuditChain.RearrangementReported` | mcp-tools/src/main/java/com/atlas/mcptools/audit/AuditChainVerifier.java:61-75 | however the rows of an accepted log are dropped, repeated or reordered, the first row out of place is reported as unlinked; only a prefix is accepted |
| `AuditChain.RemovalReported` | mcp-tools/src/main/java/com/atlas/mcptools/audit/AuditChainVerifier.java:61-75 | removing a block is reported at the first surviving row after it, and goes unnoticed if and only if the block is a suffix |
| `AuditChain.ChangeReported` | mcp-tools/src/main/java/com/atlas/mcptools/audit/AuditChainVerifier.java:61-75 | changing one row and leaving the hashes alone is reported at that row, if and only if a hashed field changed |
| `AuditChain.PrefixAccepted` | mcp-tools/src/main/java/com/atlas/mcptools/audit/AuditChainVerifier.java:61-75 | every prefix of an accepted log is accepted |
| `AuditChain.AppendAccepted` | mcp-tools/src/main/java/com/atlas/mcptools/audit/AuditService.java:43-49 | a row built on the tip extends an accepted log to an accepted log |
| `DraftRefs.NumberOfRef` | mcp-tools/src/main/java/com/atlas/mcptools/tool/SarDraftService.java:42-44 | the sequence number can be read back from `SAR-%d-%06d` for every year and any number of digits, so references never clash |
| `GovernedWrite.StepKeepsInv` | mcp-tools/src/main/java/com/atlas/mcptools/audit/AuditService.java:36-63 | every database step of any call, committing or not, keeps the chain, the lock discipline, the protocol of each call and the pairing of drafts and SUCCESS rows |
| `GovernedWrite.NewestIsLast` | mcp-tools/src/main/java/com/atlas/mcptools/audit/AuditService.java:43-45 | the row with the greatest sequence number is the last committed one, so the hash read under the lock is the tip |
| `GovernedRuns.LogIsAlwaysAChain` | mcp-tools/src/main/java/com/atlas/mcptools/audit/AuditService.java:36-63 | under every interleaving of calls, aborts and lost commits the committed rows form an accepted chain with sequence numbers strictly increasing in commit order |
| `GovernedRuns.DraftsMatchSuccessRows` | mcp-tools/src/main/java/com/atlas/mcptools/tool/SarDraftService.java:39-60 | in every reachable state drafts and SUCCESS rows correspond one to one by reference (with equal run and clearance), and no reference is used twice |
| `GovernedRuns.ClearanceDecides` | mcp-tools/src/main/java/com/atlas/mcptools/auth/ClearanceRecheck.java:21-32 | every SUCCESS row carries a label that meets the requirement and every DENIED row one that does not; with the default requirement those are compliance and restricted, in any case, against everything else |
| `GovernedRules.ClearedExactly` | mcp-tools/src/main/java/com/atlas/mcptools/auth/Clearance.java:14-43 | stripped and in lower case, the granted labels are: requirement 0 all four, 1 all but public, 2 compliance and restricted, 3 restricted; no other text is ever granted |
| `GovernedRules.ValidExactly` | mcp-tools/src/main/java/com/atlas/mcptools/tool/SarInputValidator.java:22-46 | input is accepted if and only if account and rationale are not blank, the period is a four-digit year, a dash and Q1 to Q4, the rationale has at most 2000 characters, and there is a citation |
| `GovernedRules.RefShape` | mcp-tools/src/main/java/com/atlas/mcptools/tool/SarDraftService.java:42-44 | a reference gives back its year and its number, the number with at least six digits and no more than needed |
| `GovernedRules.DigestTellsArgs` | mcp-tools/src/main/java/com/atlas/mcptools/tool/DraftSarTool.java:87-91 | without collisions the argument digest of separator-free arguments tells account, period, rationale and citations, and nothing else |
| `GovernedRules.FaultsAnywhere` | mcp-tools/src/main/java/com/atlas/mcptools/tool/DraftSarTool.java:58-84 | a call may be lost with its server whenever it is not over, a transaction aborted at any time, and a commit go unreported |
| `GovernedRules.DraftsSayWhatWasAsked` | mcp-tools/src/main/java/com/atlas/mcptools/tool/SarDraftService.java:39-60 | on every run each draft holds exactly the arguments of one call that was opened, with acceptable input, by a caller whose label meets the requirement |
| `GovernedRules.RowsSayWhatWasAsked` | mcp-tools/src/main/java/com/atlas/mcptools/tool/DraftSarTool.java:58-84 | on every run each row names run, tool, caller, label and argument digest of one call that was opened; exactly the SUCCESS rows carry a reference |
| `GovernedRuns.CallsFollowProtocol` | mcp-tools/src/main/java/com/atlas/mcptools/tool/DraftSarTool.java:58-84 | what a call leaves in the log is one of six phase sequences, and every later row has its own earlier ATTEMPT row with the same run and argument digest |
| `GovernedWrite.ReturnedDraftExists` | mcp-tools/src/main/java/com/atlas/mcptools/tool/SarDraftService.java:55-59 | a reference handed back to a caller names a committed draft of the caller's run |
| `GovernedWrite.TwoDraftsTwoCalls` | mcp-tools/src/main/java/com/atlas/mcptools/tool/DraftSarTool.java:73-79 | one call writes at most one draft: two drafts of a run come from two calls made for it |
| `DraftTool.DraftSarTool.InsertRow` | mcp-tools/src/main/java/com/atlas/mcptools/audit/AuditService.java:40-59 | lock, tip read and insert lead to exactly one uncommitted row built on the newest hash, with the next sequence number |
| `DraftTool.DraftSarTool.Append` | mcp-tools/src/main/java/com/atlas/mcptools/audit/AuditService.java:36-63 | one transaction adds exactly the due row, or nothing when it fails; drafts do not change |
| `DraftTool.DraftSarTool.CreateDraft` | mcp-tools/src/main/java/com/atlas/mcptools/tool/SarDraftService.java:39-60 | the draft and its SUCCESS row are added together, or neither is; a reference number is used up either way |
| `DraftTool.DraftSarTool.Authorize` | mcp-tools/src/main/java/com/atlas/mcptools/tool/DraftSarTool.java:61-71 | the ATTEMPT row comes first; a label that does not meet the requirement leads to a DENIED row and nothing else |
| `DraftTool.DraftSarTool.Write` | mcp-tools/src/main/java/com/atlas/mcptools/tool/DraftSarTool.java:73-84 | after validation either draft and SUCCESS row, or an ERROR row; a commit reported as failed leaves both SUCCESS and ERROR |
| `DraftTool.DraftSarTool.OpenDraftSar` | mcp-tools/src/main/java/com/atlas/mcptools/tool/DraftSarTool.java:50-85 | for every way its transactions may end, the call's rows, the draft and the reply: a draft with the call's own fields is added if and only if ATTEMPT commits, the label is granted, the input is acceptable and the draft transaction does not fail |
| `DraftTool.FollowsKeepsInv` | mcp-tools/src/main/java/com/atlas/mcptools/tool/DraftSarTool.java:50-85 | whatever the methods do keeps the invariant of the concurrent model |
| `RateLimiter.RedisRateLimiter.TryAcquire` | gateway/src/main/java/com/atlas/gateway/resilience/RedisRateLimiter.java:14-53 | a call is allowed if and only if what the bucket held and what came in since, at capacity tokens a minute, make one; the new balance is stored for 120 s; no other key changes |
| `RateLimiter.EmptyBucketWaits` | gateway/src/main/java/com/atlas/gateway/resilience/RedisRateLimiter.java:24-28 | from an empty bucket the first call after ms is allowed if and only if capacity >= 1 and ms * capacity >= 60000 |
| `RateLimiter.LeftAfterCall` | gateway/src/main/java/com/atlas/gateway/resilience/RedisRateLimiter.java:24-29 | in sixty-thousandths of a token, a call leaves the smaller of what was there and a full bucket, less the token it took |
| `RateLimiter.WindowBoundAnyClock` | gateway/src/main/java/com/atlas/gateway/resilience/RedisRateLimiter.java:20-31 | for any clock, a window allows at most capacity plus the refill over the clock's total forward motion |
| `RateLimiter.EveryWindowBounded` | gateway/src/main/java/com/atlas/gateway/resilience/RedisRateLimiter.java:20-31 | with a clock that never goes back, every window of T ms of every run allows at most capacity + T * capacity / 60000 calls |
| `RateLimiter.EveryWindowBoundedAnyClock` | gateway/src/main/java/com/atlas/gateway/resilience/RedisRateLimiter.java:20-31 | for any clock, every window of every run whose clock moves forward by at most T ms in all obeys the same bound |
| `RateLimiter.RefillLostAtCap` | gateway/src/main/java/com/atlas/gateway/resilience/RedisRateLimiter.java:26 | the converse fails, since refill beyond a full bucket is lost: a window within the bound whose clock moved further |
| `RateLimiter.NoCallerGetsMore` | gateway/src/main/java/com/atlas/gateway/resilience/RedisRateLimiter.java:20-31 | whatever calls are made at the readings of any clock, at most capacity plus the whole tokens of its forward motion are allowed |
| `RateLimiter.DrainingGetsAll` | gateway/src/main/java/com/atlas/gateway/resilience/RedisRateLimiter.java:20-31 | when no forward step refills more than capacity - 1 tokens, a caller that drains the bucket at each reading is allowed exactly that many |
| `RateLimiter.ClockBoundExactly` | gateway/src/main/java/com/atlas/gateway/resilience/RedisRateLimiter.java:20-31 | on such a clock, going back or not, every caller stays within capacity plus T ms of refill if and only if the whole tokens of the clock's forward motion do |
| `RateLimiter.WindowOfRun` | gateway/src/main/java/com/atlas/gateway/resilience/RedisRateLimiter.java:20-31 | a window of a run is decided as a run of its own from the bucket left by what came before |
| `RateLimiter.BackwardClockBreaksBound` | gateway/src/main/java/com/atlas/gateway/resilience/RedisRateLimiter.java:24-29 | with a clock that goes back the bound fails: capacity 1, five calls within one minute, three allowed |
| `RateLimiter.SpacedCallsNeverRefused` | gateway/src/main/java/com/atlas/gateway/resilience/RedisRateLimiter.java:24-28 | a caller spacing its calls at least 60000 / capacity ms apart is never refused |
| `RateLimiter.ExpiryInvisible` | gateway/src/main/java/com/atlas/gateway/resilience/RedisRateLimiter.java:30-34 | after 120 s without a call the bucket is full, exactly as if the key were absent |
| `RateLimiter.ExpiryNeverChangesDecisions` | gateway/src/main/java/com/atlas/gateway/resilience/RedisRateLimiter.java:30-34 | deleting idle keys never changes a decision on any run |
| `Budget.RedisBudgetGuard.WouldExceed` | gateway/src/main/java/com/atlas/gateway/resilience/RedisBudgetGuard.java:26-30 | true exactly when today's spend plus the non-negative part of the estimate exceeds the cap |
| `Budget.RedisBudgetGuard.Record` | gateway/src/main/java/com/atlas/gateway/resilience/RedisBudgetGuard.java:33-40 | adds the positive part of the cost to today's counter of the user and changes no other counter |
| `Budget.SpendIsBounded` | gateway/src/main/java/com/atlas/gateway/query/GatewayQueryController.java:113-158 | on every interleaving, today's spend plus in-flight * M is at most cap + c * M, and so is the spend of every day |
| `Budget.SumBoundExactly` | gateway/src/main/java/com/atlas/gateway/query/GatewayQueryController.java:113-158 | any day's spend plus in-flight * M stays within cap + c * M on all runs, for all users and days, if and only if c is 0, M is 0 or the cap is negative |
| `Budget.PastDayPlusInFlightExceeds` | gateway/src/main/java/com/atlas/gateway/resilience/RedisBudgetGuard.java:42-44 | an instance: cap 1, one request at a time, cost 1, exceeded the next day |
| `Budget.PastDaysAreFrozen` | gateway/src/main/java/com/atlas/gateway/resilience/RedisBudgetGuard.java:42-44 | a counter whose day is over never changes again, whatever is in flight |
| `Budget.SpendIsSumOfCosts` | gateway/src/main/java/com/atlas/gateway/resilience/RedisBudgetGuard.java:33-40 | a counter equals the sum of the positive costs recorded under it, for today and for every key the store still holds |
| `Budget.StepKeepsFresh` | gateway/src/main/java/com/atlas/gateway/resilience/RedisBudgetGuard.java:15-39 | the store never expires a counter of the current day |
| `Cache.RedisSemanticCache.Lookup` | gateway/src/main/java/com/atlas/gateway/cache/RedisSemanticCache.java:54-109 | a lookup finds what the stored entries hold, whatever became of the index and of the gateway's memory of it |
| `Cache.RedisSemanticCache.Put` | gateway/src/main/java/com/atlas/gateway/cache/RedisSemanticCache.java:116-131 | an entry is added with its partition and expiry, or nothing when the vector or the answer is missing |
| `Cache.RedisSemanticCache.EnsureIndex` | gateway/src/main/java/com/atlas/gateway/cache/RedisSemanticCache.java:134-159 | afterwards the gateway believes in the index; it creates it only when it did not believe before |
| `Cache.HitIsNearestOwnEntry` | gateway/src/main/java/com/atlas/gateway/cache/RedisSemanticCache.java:58-108 | a hit is an unexpired entry of the caller's own partition, no other such entry is nearer, and it reaches the threshold |
| `Cache.HitIffSimilarEntry` | gateway/src/main/java/com/atlas/gateway/cache/RedisSemanticCache.java:54-108 | a lookup hits if and only if the vector is usable and some unexpired entry of the partition is similar enough |
| `Cache.HitWasPut` | gateway/src/main/java/com/atlas/gateway/cache/RedisSemanticCache.java:116-131 | on every history a hit gives back unchanged an answer put in the caller's own partition less than the time to live ago |
| `Cache.PutIsFound` | gateway/src/main/java/com/atlas/gateway/cache/RedisSemanticCache.java:116-131 | an answer that was put is found for every similar question until its time to live is over, unless the store restarts |
| `Cache.CrossClearanceRefused` | gateway/src/main/java/com/atlas/gateway/cache/RedisSemanticCache.java:54-109 | however the store's partition filter misbehaves, whatever a lookup serves was stored under the caller's own clearance, is unexpired and reaches the threshold |
| `Cache.ExactFilterFinds` | gateway/src/main/java/com/atlas/gateway/cache/RedisSemanticCache.java:100-104 | with an exact filter the second clearance check never fires |
| `Cache.AnswersInTurn` | gateway/src/main/java/com/atlas/gateway/cache/RedisSemanticCache.java:54-109 | the lookups of a history are answered in turn, each from what is stored by then |
| `Cache.NonInterference` | gateway/src/main/java/com/atlas/gateway/cache/RedisSemanticCache.java:54-131 | erasing from any history all stores under other clearances or corpus versions leaves every lookup of the partition unchanged |
| `Query.Cleanse` | gateway/src/main/java/com/atlas/gateway/query/GatewayQueryController.java:242-257 | redaction first, then sanitising, with the counts of both added; with sanitising on the result holds no active content, with both off it is the text itself |
| `Query.DeliveredIsInert` | gateway/src/main/java/com/atlas/gateway/query/GatewayQueryController.java:149-257 | with sanitising on, no answer and no snippet ever delivered, on a hit or a miss of any run, holds active content |
| `Query.CleansedAccountsExactly` | gateway/src/main/java/com/atlas/gateway/query/GatewayQueryController.java:242-257 | a cleansed text holds an account number if and only if taking out elements and tags joins one from the redacted text |
| `Query.JoinedDigitsDelivered` | gateway/src/main/java/com/atlas/gateway/query/GatewayQueryController.java:242-257 | since redaction comes first, two short runs of digits around an empty element are delivered as one account number, whenever the redactor leaves the text alone |
| `Query.EgressHasNoAccount` | gateway/src/main/java/com/atlas/gateway/query/GatewayQueryController.java:219-257 | if the redactor leaves no account number and no `<` of a redacted text directly follows a digit, no delivered answer or snippet holds one |
| `Query.ApplyEgressSafety` | gateway/src/main/java/com/atlas/gateway/query/GatewayQueryController.java:223-240 | the document is cleansed in place, answer first and snippets in order, with all counts; other documents stay as they are |
| `Query.GatewayQueryController.Guard` | gateway/src/main/java/com/atlas/gateway/query/GatewayQueryController.java:94-148 | the guards run in order with their exact effects on the stores; a hit is served without charge, a miss goes to the engine |
| `Query.GatewayQueryController.Conclude` | gateway/src/main/java/com/atlas/gateway/query/GatewayQueryController.java:149-169 | the raw answer is stored, the cost recorded, and only then the document is cleansed and delivered; a failed call changes nothing |
| `Query.GatewayQueryController.ServeHit` | gateway/src/main/java/com/atlas/gateway/query/GatewayQueryController.java:205-217 | a stored answer is parsed and cleansed like a fresh one, with zero cost |
| `Query.HitsRepeatMisses` | gateway/src/main/java/com/atlas/gateway/query/GatewayQueryController.java:149-257 | on every interleaving of requests each cache hit delivers exactly the answer, citations, redaction counts and model that an earlier miss delivered at the same clearance, and no stored answer fails to decode |
| `Query.GatewayStepIsBudgetStep` | gateway/src/main/java/com/atlas/gateway/query/GatewayQueryController.java:113-158 | every step of the pipeline is a step of the budget model or leaves its state alone |
| `Query.GatewaySpendIsBounded` | gateway/src/main/java/com/atlas/gateway/query/GatewayQueryController.java:113-158 | on every interleaving of requests the spend of any user on any day stays within cap + c * M |
| `GatewayLaws.GuardsExactly` | gateway/src/main/java/com/atlas/gateway/query/GatewayQueryController.java:94-135 | a request gets the status of the first guard it fails (400, 401, 429, 413, 402), each in terms of the request, the caller's bucket and the day's counter; one that fails none is served from the cache or sent to the engine |
| `GatewayLaws.QuestionIsRedacted` | gateway/src/main/java/com/atlas/gateway/query/GatewayQueryController.java:121-148 | what is embedded and routed is the redacted question, and the size counted is that of the question as asked |
| `GatewayLaws.RunTakesSteps` | gateway/src/main/java/com/atlas/gateway/query/GatewayQueryController.java:94-169 | a run takes its steps one after the other and can go on with every arrival and with the answer of every waiting request |
| `GatewayLaws.WithinExactly` | gateway/src/main/java/com/atlas/gateway/query/GatewayQueryController.java:113-158 | the hypotheses of the spend bound hold for a longer run if and only if the next event keeps the clock, the limit in flight and the maximal cost |
| `GatewayLaws.RateIsPerUser` | gateway/src/main/java/com/atlas/gateway/query/GatewayQueryController.java:108-111 | on every run, with all other users and answers in between, a user's requests pass or get 429 as the token bucket decides for their times alone |
| `GatewayLaws.GatewayRateIsBounded` | gateway/src/main/java/com/atlas/gateway/query/GatewayQueryController.java:108-111 | in any window of a user's requests whose clock moves forward by at most T ms at most capacity + T * capacity / 60000 of them pass |
| `GatewayLaws.AnswerIsCharged` | gateway/src/main/java/com/atlas/gateway/query/GatewayQueryController.java:149-169 | an answer is charged to its caller's counter of the day, and to no other, at the cost of its tier for the engine's token counts or, without any, the estimates; a failed call changes nothing |
| `GatewayLaws.HitIsFree` | gateway/src/main/java/com/atlas/gateway/query/GatewayQueryController.java:205-217 | an answer from the cache costs nothing and is charged to nobody |
| `GatewayLaws.CountsAddUp` | gateway/src/main/java/com/atlas/gateway/query/GatewayQueryController.java:219-257 | the counts a response reports are, kind by kind, the sums of what was found in the answer and in every snippet |
| `GatewayLaws.CountsArePositive` | gateway/src/main/java/com/atlas/gateway/query/GatewayQueryController.java:219-257 | no count of zero is ever reported |
| `GatewayLaws.EgressKeepsTheRest` | gateway/src/main/java/com/atlas/gateway/query/GatewayQueryController.java:223-257 | cleansing changes texts alone, each into its sanitised redaction |
| `Sanitizer.Sanitize` | gateway/src/main/java/com/atlas/gateway/safety/OutputSanitizer.java:31-56 | the four replacement passes and the escape give the stated text and count |
| `Sanitizer.CountMatches` | gateway/src/main/java/com/atlas/gateway/safety/OutputSanitizer.java:58-65 | the counting loop counts the leftmost non-overlapping matches |
| `Sanitizer.OutputIsInert` | gateway/src/main/java/com/atlas/gateway/safety/OutputSanitizer.java:38-54 | the output holds no match of any pass and no angle bracket |
| `Replacing.InertExactly` | gateway/src/main/java/com/atlas/gateway/safety/OutputSanitizer.java:16-56 | in plain terms: the output holds no angle bracket, no `javascript:` in any case and no event-handler attribute, and a text is left alone if and only if it is of this kind |
| `Replacing.PassExactly` | gateway/src/main/java/com/atlas/gateway/safety/OutputSanitizer.java:38-45 | a pass keeps the text between the leftmost, non-overlapping matches, puts the replacement for each, and counts them |
| `Replacing.JsExactly` | gateway/src/main/java/com/atlas/gateway/safety/OutputSanitizer.java:21 | `javascript:` in any letter case is matched, and nothing else |
| `Replacing.HandlerExactly` | gateway/src/main/java/com/atlas/gateway/safety/OutputSanitizer.java:22 | white space, `on` in any case, word characters, white space and an equals sign are matched, and nothing else |
| `Markup.DanglingExactly` | gateway/src/main/java/com/atlas/gateway/safety/OutputSanitizer.java:19-20 | an opening tag of one of the five names, up to the next bracket, is matched, and nothing else |
| `Markup.ScriptishExactly` | gateway/src/main/java/com/atlas/gateway/safety/OutputSanitizer.java:16-18 | an opening name, everything up to the first closing tag of that name in any spelling, and that tag are matched, and nothing else |
| `Sanitizer.Idempotent` | gateway/src/main/java/com/atlas/gateway/safety/OutputSanitizer.java:31-56 | sanitising the output returns it unchanged with nothing removed |
| `Sanitizer.AppliedIffChanged` | gateway/src/main/java/com/atlas/gateway/safety/OutputSanitizer.java:25-29 | a sanitisation counts as applied if and only if it changed the text, which is if and only if the text was not inert |
| `Sanitizer.ActiveElementRemoved` | gateway/src/main/java/com/atlas/gateway/safety/OutputSanitizer.java:16-56 | an element with an active tag, in any spelling, with any attributes and with any content that holds no closing tag of its name, goes as a whole: the text sanitises as without it, with one removal more, whatever stands before it as long as no match of the first pass runs across the place |
| `Sanitizer.PlainElementRemoved` | gateway/src/main/java/com/atlas/gateway/safety/OutputSanitizer.java:16-56 | the same for conditions on the characters: no `<` before the element is followed by a letter that begins an active name, and no `<` in its content by a slash |
| `Sanitizer.ClosingTagFound` | gateway/src/main/java/com/atlas/gateway/safety/OutputSanitizer.java:16-18 | every spelling of a closing tag ends its element, whatever follows |
| `Text.CharacterClasses` | gateway/src/main/java/com/atlas/gateway/safety/OutputSanitizer.java:16-22 | by code point: white space is 9 to 13 and 32, word characters are ASCII letters, digits and the underscore, and folding moves upper-case letters alone |
| `AccountNumbers.FoundExactly` | gateway/src/main/java/com/atlas/gateway/safety/PiiRedactor.java:28 | reading from left to right finds exactly the matches of the account pattern, eight or more digits between word boundaries |
| `AccountNumbers.OnlyRemovalMatters` | gateway/src/main/java/com/atlas/gateway/safety/OutputSanitizer.java:32-56 | whether sanitised text holds an account number is decided by the two passes that remove; the replacing passes and the escape neither add nor remove one |
| `AccountNumbers.SanitizingJoinsNothing` | gateway/src/main/java/com/atlas/gateway/safety/OutputSanitizer.java:32-56 | if no `<` directly follows a digit, sanitising brings no account number about |
| `AccountNumbers.RemovalJoinsDigits` | gateway/src/main/java/com/atlas/gateway/safety/OutputSanitizer.java:32-56 | otherwise it may: digits too few for an account number on both sides of an empty element become one |
| `Guardrail.Spotlight` | rag-engine/src/main/java/com/atlas/ragengine/guardrail/InjectionGuardrail.java:78-89 | the printing loop yields the concatenation of the delimited chunks |
| `Guardrail.DelimitersCounted` | rag-engine/src/main/java/com/atlas/ragengine/guardrail/InjectionGuardrail.java:78-102 | when ids and clearances lack the token, the output holds it exactly twice per chunk, whatever content and source are |
| `Guardrail.SplitRecoversSegments` | rag-engine/src/main/java/com/atlas/ragengine/guardrail/InjectionGuardrail.java:78-102 | splitting at the closing tag gives back one piece per chunk, in order: its header followed by its neutralised content |
| `Guardrail.ContentReadBack` | rag-engine/src/main/java/com/atlas/ragengine/guardrail/InjectionGuardrail.java:81-86 | a piece alone gives the neutralised content back if and only if the mark that ends its header does not occur among the labels and the source before it |
| `Guardrail.ContextReadBack` | rag-engine/src/main/java/com/atlas/ragengine/guardrail/InjectionGuardrail.java:78-102 | the printed context alone gives all neutralised contents back, in order, if and only if no header holds that mark |
| `Guardrail.NeutralizedIsClean` | rag-engine/src/main/java/com/atlas/ragengine/guardrail/InjectionGuardrail.java:98-102 | neutralised text never holds the delimiter token |
| `Replacing.TokensExactly` | rag-engine/src/main/java/com/atlas/ragengine/guardrail/InjectionGuardrail.java:98-102 | every occurrence of the delimiter token in any case gives way to the dotted one and the rest of the text stays |
| `Replacing.CommentsExactly` | rag-engine/src/main/java/com/atlas/ragengine/guardrail/InjectionGuardrail.java:98-102 | every comment, from its opening to the first closing mark, gives way to a blank and the rest of the text stays |
| `Replacing.CommentEndExactly` | rag-engine/src/main/java/com/atlas/ragengine/guardrail/InjectionGuardrail.java:98-102 | a comment ends at the first closing mark |
| `Replacing.NeutralizedExactly` | rag-engine/src/main/java/com/atlas/ragengine/guardrail/InjectionGuardrail.java:98-102 | what is printed of a content or source: first comments give way, then tokens, and nothing else changes |
| `Guardrail.BreakTokenOnlyIfNeeded` | rag-engine/src/main/java/com/atlas/ragengine/guardrail/InjectionGuardrail.java:98-102 | breaking the token changes a text if and only if it holds the token |
| `Guardrail.Partition` | rag-engine/src/main/java/com/atlas/ragengine/guardrail/InjectionGuardrail.java:63-75 | the loop puts every chunk into exactly one of two order-preserving lists, by its verdict |
| `Guardrail.PartitionIsExact` | rag-engine/src/main/java/com/atlas/ragengine/guardrail/InjectionGuardrail.java:63-75 | the two lists together hold every chunk exactly once |
| `Guardrail.PartitionByVerdict` | rag-engine/src/main/java/com/atlas/ragengine/guardrail/InjectionGuardrail.java:63-75 | every safe chunk has an empty verdict, every quarantined one carries its own non-empty verdict |
| `Guardrail.InjectionGuardrail.Scan` | rag-engine/src/main/java/com/atlas/ragengine/guardrail/InjectionGuardrail.java:48-60 | the configured phrases found in the normalised content, none when disabled |
| `Replacing.PhrasesExactly` | rag-engine/src/main/java/com/atlas/ragengine/guardrail/InjectionGuardrail.java:48-60 | a phrase is reported if and only if it is configured and occurs in the normalised text |
| `Replacing.NormalizedExactly` | rag-engine/src/main/java/com/atlas/ragengine/guardrail/InjectionGuardrail.java:91-95 | what is scanned: comment marks give way to blanks, letters are folded, and the words are joined by single blanks |
| `Guardrail.InjectionGuardrail.Apply` | rag-engine/src/main/java/com/atlas/ragengine/guardrail/InjectionGuardrail.java:63-75 | the exact partition, and a context printed from the safe chunks only |
| `Chunker.Chunker.Pack` | rag-engine/src/main/java/com/atlas/ragengine/ingest/DocumentChunker.java:54-75 | the packing loop with its recursion computes the packing; which one that is says Layout.PackedIsTheLayout |
| `Layout.PackedIsTheLayout` | rag-engine/src/main/java/com/atlas/ragengine/ingest/DocumentChunker.java:54-75 | the packed chunks are exactly those of the greedy layout: blocks of consecutive units that fit together and could not take the next unit, and oversized units laid out in the same way from their sentences or words |
| `Layout.LaysOnce` | rag-engine/src/main/java/com/atlas/ragengine/ingest/DocumentChunker.java:54-75 | the units have only one greedy layout |
| `Layout.DocumentIsLaidOut` | rag-engine/src/main/java/com/atlas/ragengine/ingest/DocumentChunker.java:41-50 | so a document's packed chunks are those of the layout of its paragraphs; one without words yields none |
| `Layout.SmallDocumentIsOneChunk` | rag-engine/src/main/java/com/atlas/ragengine/ingest/DocumentChunker.java:41-50 | a document whose paragraphs stay within the window together is one chunk, their join, with overlap or without |
| `Chunker.Chunker.TerminationExact` | rag-engine/src/main/java/com/atlas/ragengine/ingest/DocumentChunker.java:54-91 | for any token counter the recursion ends if and only if every paragraph fits or falls apart into sentences or words that fit; two nested splits are then enough |
| `Chunker.Chunker.TerminatesIffWordsFit` | rag-engine/src/main/java/com/atlas/ragengine/ingest/DocumentChunker.java:54-91 | for a counter that never counts a word above its text, chunking ends if and only if every word fits |
| `Chunker.Chunker.FittingWordsSuffice` | rag-engine/src/main/java/com/atlas/ragengine/ingest/DocumentChunker.java:54-91 | for any counter chunking ends when every word fits |
| `Chunker.DefaultTerminatesIffWordsFit` | rag-engine/src/main/java/com/atlas/ragengine/ingest/DocumentChunker.java:33-35 | with the default estimate chunking ends if and only if every word fits the window |
| `Chunker.Chunker.DepthIrrelevant` | rag-engine/src/main/java/com/atlas/ragengine/ingest/DocumentChunker.java:54-75 | the nesting bound of the specification never influences the result |
| `Chunker.Chunker.PackedWithinWindow` | rag-engine/src/main/java/com/atlas/ragengine/ingest/DocumentChunker.java:54-82 | every packed chunk is non-empty and within the window, for any token counter |
| `Chunker.Chunker.PackedKeepsWords` | rag-engine/src/main/java/com/atlas/ragengine/ingest/DocumentChunker.java:54-91 | packing neither loses, repeats nor reorders a word |
| `Chunker.Chunker.PackedDocument` | rag-engine/src/main/java/com/atlas/ragengine/ingest/DocumentChunker.java:41-102 | the packed chunks of a document are within the window and their words are exactly the document's words |
| `Chunker.Chunker.ApplyOverlap` | rag-engine/src/main/java/com/atlas/ragengine/ingest/DocumentChunker.java:106-117 | each later chunk is its predecessor's tail, the gap, and itself |
| `Chunker.Chunker.ComputeTrailing` | rag-engine/src/main/java/com/atlas/ragengine/ingest/DocumentChunker.java:120-131 | the backward loop collects the tail it is specified by |
| `Layout.TailTakesMost` | rag-engine/src/main/java/com/atlas/ragengine/ingest/DocumentChunker.java:119-131 | a tail is the last words with single blanks: the last one and before it as many as stay within the overlap, up to the first that does not |
| `Layout.EstimateExactly` | rag-engine/src/main/java/com/atlas/ragengine/ingest/DocumentChunker.java:133-135 | the default estimate is a quarter of the length rounded up, at least one |
| `Chunker.Chunker.ChunkDocument` | rag-engine/src/main/java/com/atlas/ragengine/ingest/DocumentChunker.java:41-50 | the chunks are the overlapped packed chunks, numbered from zero; the packed ones are Layout.DocumentIsLaidOut |
| `Chunker.Chunker.OverlappedBound` | rag-engine/src/main/java/com/atlas/ragengine/ingest/DocumentChunker.java:106-131 | an overlapped chunk exceeds the window by at most max(overlap, longest word) and the cost of the gap |
| `Chunker.Chunker.OverlappedWords` | rag-engine/src/main/java/com/atlas/ragengine/ingest/DocumentChunker.java:106-131 | an overlapped chunk holds some of the last words of its predecessor, at least one, followed by exactly its own words |
| `Chunker.DefaultOverlappedBound` | rag-engine/src/main/java/com/atlas/ragengine/ingest/DocumentChunker.java:106-135 | with the default estimate an overlapped chunk is at most chunkSize + max(overlap, longest word) + 1 tokens |
| `Words.ParagraphsKeepWords` | rag-engine/src/main/java/com/atlas/ragengine/ingest/DocumentChunker.java:93-102 | splitting into paragraphs keeps the words, and every paragraph is trimmed or the document is empty |
| `Words.SplitSmallerKeepsWords` | rag-engine/src/main/java/com/atlas/ragengine/ingest/DocumentChunker.java:85-91 | splitting by sentences or by words keeps the words |
| `Splitting.ParagraphsExactly` | rag-engine/src/main/java/com/atlas/ragengine/ingest/DocumentChunker.java:93-102 | a document is its paragraphs with white space around them and a blank line in the white space between any two; each paragraph is trimmed and holds no blank line |
| `Splitting.SentencesExactly` | rag-engine/src/main/java/com/atlas/ragengine/ingest/DocumentChunker.java:85-91 | a trimmed text is its sentences with white space between; each but the last ends with a mark and none holds a mark before white space |
| `Splitting.WordsAreWoven` | rag-engine/src/main/java/com/atlas/ragengine/ingest/DocumentChunker.java:85-91 | a text is its words, none with white space, with white space between and around them |
| `Splitting.WordSplitIsWoven` | rag-engine/src/main/java/com/atlas/ragengine/ingest/DocumentChunker.java:85-91 | split at white space a text is its pieces and the white space between them, the first piece empty where it begins with white space |
| `Wilcoxon.WilcoxonSignedRank` | training/atlas_training/stats.py:73-114 | the rank and tie loops compute the smaller rank sum, its null mean n(n+1)/4 and a variance that is a quarter of the sum of squared ranks; the degenerate exit is never taken |
| `Wilcoxon.AverageRanks` | training/atlas_training/stats.py:85-95 | each difference gets the average of the positions its magnitude ties over |
| `Wilcoxon.TieTerm` | training/atlas_training/stats.py:101-111 | the loop over equal runs computes the sum of t^3 - t |
| `Wilcoxon.RankTotals` | training/atlas_training/stats.py:85-95 | tie-averaged ranks sum to n(n+1)/2, and their squares to the untied total less a twelfth of the tie correction |
| `Wilcoxon.RankSumsPartitionTriangle` | training/atlas_training/stats.py:96-98 | w_plus + w_minus is n(n+1)/2 for any data |
| `Wilcoxon.VarianceIsQuarterOfSquares` | training/atlas_training/stats.py:112-114 | the tie-corrected variance equals a quarter of the sum of squared ranks and is positive when any difference is non-zero |
| `Wilcoxon.SwapSamples` | training/atlas_training/stats.py:81-112 | swapping the samples exchanges the two rank sums and leaves the magnitudes, hence w and the variance, unchanged |
| `Wilcoxon.StatisticBelowMean` | training/atlas_training/stats.py:98-99 | the statistic lies between 0 and its null mean, which it reaches if and only if the rank sums balance |
| `Walsh.RankSumIsWalshCount` | training/atlas_training/stats.py:83-99 | without any ranks: the positive rank sum is the number of pairs of differences, each also with itself, whose sum is positive, zero sums counting half; the negative one is the number of the others |
| `Walsh.DiffsExactly` | training/atlas_training/stats.py:79 | the differences are those of exactly the pairs that differ, in order |
| `McNemar.TwoSidedIsDoubledTail` | training/atlas_training/stats.py:119-130 | in exact arithmetic the p-value is min(1, twice the lower tail), lies in (0, 1], and is 1 if and only if n <= 2k + 1 |
| `McNemar.SlackNeverLowersP` | training/atlas_training/stats.py:129-130 | with any non-negative slack the p-value is never below the exact one and at most 1 |
| `McNemar.SlackHarmlessExactly` | training/atlas_training/stats.py:129-130 | the slack leaves the exact p-value alone if and only if n <= 2k + 1 or the next outcome is out of its reach |
| `McNemar.SlackHarmlessUpTo39` | training/atlas_training/stats.py:129 | for at most 39 trials the 1e-12 slack is below every gap |
| `McNemar.McNemarSymmetric` | training/atlas_training/stats.py:133-145 | swapping the samples leaves the reported p-value unchanged |
| `McNemar.CountsDiscordantPairs` | training/atlas_training/stats.py:141-142 | the two counts are the sizes of the sets of pairs that change from right to wrong and from wrong to right |
| `McNemar.ChooseExactly` | training/atlas_training/stats.py:124-125 | the coefficients satisfy C(n,k) k! (n-k)! = n!, and are 0 for k above n |
| `McNemar.McNemarExactWhen` | training/atlas_training/stats.py:133-145 | for the sets of pairs lost and won: 1 when both are empty; otherwise the value before rounding is the doubled exact tail for their sizes if and only if these differ by at most one or the next outcome is out of the slack's reach, and the reported one is never below the rounded exact one |
| `McNemar.McNemarSmallSample` | training/atlas_training/stats.py:133-145 | for at most 39 pairs lost or won the reported value is the exact tail for the two set sizes to four decimals, and 1 if and only if that tail reaches 0.99995 |
| `Bootstrap.PercentileMonotone` | training/atlas_training/stats.py:25-37 | interpolated percentiles never cross and stay between the least and the greatest value |
| `Bootstrap.PercentileMirror` | training/atlas_training/stats.py:25-37 | negating the data mirrors its percentiles |
| `Bootstrap.PercentileExactly` | training/atlas_training/stats.py:25-37 | at (k + f) / (n - 1) the percentile is f of the way from the k-th to the next order statistic |
| `Bootstrap.MeanExactly` | training/atlas_training/stats.py:58-61 | a resample's mean times n is the sum of the drawn deltas |
| `Bootstrap.Resample` | training/atlas_training/stats.py:58-61 | one resample is the mean of the drawn deltas |
| `Bootstrap.PairedBootstrapCi` | training/atlas_training/stats.py:40-65 | the loops compute the sorted resample means' two percentiles, rounded to four decimals, with each error case |
| `Bootstrap.IntervalWithinDeltas` | training/atlas_training/stats.py:40-65 | for any draws min delta <= lo <= hi <= max delta before rounding, and between the rounded extremes after it |
| `Bootstrap.SignificantExactly` | training/atlas_training/stats.py:65-172 | a change is reported as significant if and only if the interval before rounding lies more than 0.00005 away from zero |
| `Bootstrap.ClearOneSidedDeltasAreSignificant` | training/atlas_training/stats.py:148-174 | deltas of one sign, all beyond 0.00005, are reported as significant |
| `Bootstrap.AlwaysSignificantExactly` | training/atlas_training/stats.py:148-174 | a change is reported as significant whatever is drawn if and only if every pair changes in the same direction by more than 0.00005: for one-signed data with any number of resamples, for any data when (resamples - 1) * ci >= 2 |
| `Bootstrap.OneSidedDeltasExcludeZero` | training/atlas_training/stats.py:40-64 | deltas of one strict sign give an interval that excludes zero before rounding |
| `Bootstrap.SmallGainGoesUnreported` | training/atlas_training/stats.py:65-172 | a gain of 0.00004 in every pair is not reported as significant: both rounded ends are zero |
| `Rounding.RoundingLaws` | training/atlas_training/stats.py:65 | rounding to four decimals keeps the order, commutes with negation and moves a value by at most 0.00005 |
| `Rounding.SignAfterRounding` | training/atlas_training/stats.py:65-172 | a rounded value is positive if and only if the value exceeds 0.00005, and dually |
| `Bootstrap.SwapMirrorsInterval` | training/atlas_training/stats.py:40-65 | with the same draws swapping the samples mirrors the interval before and after rounding, and keeps the reported verdict |
| `Sorting.SortIsStable` | training/atlas_training/stats.py:85 | the sort keeps the order of elements with equal keys |
| `Sorting.SortBy` | training/atlas_training/stats.py:85 | the sort yields an ordered permutation |
| `LoadRunner.LoadIsBounded` | infra/bench/atlas_bench/runner.py:57-69 | under every interleaving at most `concurrency` requests are in flight, at most the total is issued, and each issued request is in flight or has exactly one result |
| `LoadRunner.LoadIsExact` | infra/bench/atlas_bench/runner.py:57-69 | when all workers have left, exactly the requested number was issued with exactly one result each |
| `LoadRunner.EveryScheduleEnds` | infra/bench/atlas_bench/runner.py:62-69 | every schedule ends, always after two steps per request and one per worker |
| `LoadRunner.SomeScheduleFinishes` | infra/bench/atlas_bench/runner.py:62-69 | from any point on some schedule lets all workers finish |
| `LoadRunner.GoesOnExactly` | infra/bench/atlas_bench/runner.py:62-69 | a schedule can go on with exactly the workers that have not left |
| `LoadRunner.PromptsUsedEvenly` | infra/bench/atlas_bench/runner.py:64-66 | any two prompts are used a number of times that differs by at most one |
| `LoadRunner.RunLoad` | infra/bench/atlas_bench/runner.py:43-71 | for an arbitrary scheduling order: exactly one result per requested index, prompts answered evenly, empty prompts rejected, nothing issued without a worker |
| `Aliases.Registry.Promote` | training/atlas_training/tracking.py:176-189 | the new champion, the outgoing one as rollback target, and a no-op when nothing changes |
| `Aliases.Registry.Rollback` | training/atlas_training/tracking.py:192-207 | the two aliases swapped, or an error when there is nothing to roll back to |
| `Aliases.OnlyPromotedVersionsServe` | training/atlas_training/tracking.py:176-207 | over every run with crashes between the two writes, champion and rollback target were promoted earlier, and a target exists only beside a champion |
| `Aliases.LatestPromotionServes` | training/atlas_training/tracking.py:176-189 | after promotions alone the last version serves and the rollback target is the last one before it that differs, if there is one |
| `Aliases.PromotionServes` | training/atlas_training/tracking.py:176-189 | after any run, with crashes, a promoted version serves and a rollback returns to what served before, if anything did |
| `Aliases.RollbackReversibleOnEveryRun` | training/atlas_training/tracking.py:176-207 | after every run, with crashes anywhere, a second rollback undoes the first, and a rollback takes back any promotion that changed the champion |
| `Aliases.RetryAfterCrash` | training/atlas_training/tracking.py:186-206 | repeating a promotion after a crash completes it; repeating a rollback does so if and only if nothing was to be swapped, otherwise the outgoing champion is lost |

## Left out

- Budget.SpendIsBounded: adds the requests in flight to today's counter only; when the sum holds for every day is Budget.SumBoundExactly.
- RateLimiter.EveryWindowBounded: holds for a clock that never goes back; the form for any clock is RateLimiter.EveryWindowBoundedAnyClock.
- Chunker.Chunker.ChunkDocument: is stated for documents on which the recursion ends, since on others the program does not return; which those are is Chunker.Chunker.TerminationExact.
- Wilcoxon.WilcoxonSignedRank: stops at the statistic and its variance; the normal tail, the square root and rounding are not modelled.
- McNemar.TwoSidedIsDoubledTail: is about exact reals before the final rounding, which the McNemar rows add; floating-point powers are not modelled.
- Bootstrap.PairedBootstrapCi: computes on exact reals; the random generator is an input list of draws.
- Query.HitsRepeatMisses: is for fixed safety settings; a change of settings between miss and hit is not modelled, nor are non-text answers, which the program turns into text.
- Agent.GraphRunner.Drive: trace entries keep the node but not their details; metrics, spans and latency are left out.
- Query.EgressHasNoAccount: covers account numbers; the redactor's other patterns and its replacement loop are left out.
- Regular expressions and strings use ASCII white space, word characters and letter case; Unicode classes and case folding are left out, also for clearance labels.
- Null arguments other than those shown as optional values, JSON field types, and null citation entries.
- HTTP, token signing and validation, audience checks, JSON-RPC framing, and the circuit breaker's own states.
- Approximate vector search, tag syntax and asynchronous indexing of the cache store; other cache store faults count as a miss in the program and are not modelled.
- The unique constraint on draft references, which is never reached, and database behaviour beyond lock, commit and rollback.
- Two processes resuming one run at the same time, which the program does not guard against.
- Duration-bounded load runs, warm-up and sweeps.
- Retrieval fusion, role filters, promotion, cost and evaluation gates, user interface, infrastructure and training.
