# IOS+ verification

A Dafny model of the parts of IOS+ that hold state, order or arithmetic, with proofs of what they
promise. `dafny verify dfyconfig.toml` checks everything.

| component | module |
|---|---|
| Gate 530 condition trees, rules and overrides; the decision engine and its rule store | `Gate530Rules`, `Gate530Engine` |
| Middleware: policy store behind a TTL cache, rate limiter, buffered audit log, seven-layer pipeline | `Policies`, `RateLimiter`, `AuditLog`, `Orchestrator` |
| COS+: migration runners, archive-then-delete pruning, evidence hash chains | `Migrations`, `AuditPrune`, `EvidenceChain` |
| RAG vault: partitions, retrieval pipeline | `Partitions`, `RagVault` |
| UCO resolver: crosswalk index, licensure traversal and ranking | `Crosswalk`, `Traversal` |
| Evidence fabric: deep key sorting, canonicalizer cache | `Jcs`, `JcsCache` |
| Array and `Map` semantics shared by all of them | `Seqs`, `JsMaps`, `Wrappers` |

How the code is read:

- `Array.prototype.sort` is a stable sort. `Seqs.Sort` is one, and `Seqs.StableSortIsUnique` shows that any
  stable sort returns the same sequence, so no result depends on the algorithm.
- A `Map` is a sequence of entries in insertion order (`JsMaps`) wherever the order of entries matters.
- Time is an integer, given to each call. Scores, priorities and confidences are reals.
- Arrays that two holders share and change in place are references into a list of arrays (`Policies.State`).
- A database transaction is one step that commits or does nothing. That a prune is atomic beside
  inserts relies on the table lock its `ALTER TABLE` takes; event ids are generated and never repeat.
- SHA-256, JSON text, RFC 8785 text, regular expressions, search results and document scores are
  parameters. Where a proof needs that two inputs do not collide, the lemma says so.
- An exception is a value (`Threw`, `None`, `ok == false`).
- A method of a class is proved equal to a step function on the class's state, and the run lemmas
  are about sequences of those steps.

Two places of the repository do not compile as written and are modelled by their evident intent: the
second declaration of `expectedHash` (packages/cos-plus/src/evidence-store.ts:60) is ignored, and
`canonicalize` (packages/evidence-fabric/src/jcs.ts:10) is taken to call the imported function it shadows.

## What the proofs turned up

- Policy cache keys join tenant, sector and action with ":"; a request shares its key with another one
  exactly when there is a colon in its sector, its action or its tenant past the first character. Among
  colon-free requests every cached list is right up to the time to live; a request with a colon in tenant
  or sector can be served the list of another request, unless its tenant starts with the colon.
- The limiter lets through 2M - 1 requests, not M, in a span as long as a window, and that is exact. With a
  limit below 1, rejected requests can move the deadline.
- A rule that overrides others does so even when it is itself overridden or its condition does not hold. One
  considered rule with a malformed leaf makes the whole evaluation fail, whatever the priorities. A
  winning rule with an unknown action decides under "security", not under the category of the request.
- In the retrieval pipeline a compliance level outside the list passes every filter, a negative limit
  makes the total wrong, the depth limit is applied after the top k were chosen, and the access check
  never turns an actor away.
- Of the initial partitions, "regulatory_compliance" and not "general" serves queries for the sector "general".
- A chain of evidence whose front was cut off still verifies. An offered record whose hash is the empty string
  is stored with it and breaks its chain.
- The audit layer's hash covers neither id nor timestamp.
- Registering a partition as its own parent makes it its own child.
- `deepSortKeys` drops "__proto__" members, and keys that look like array indices are enumerated first,
  so the output is in code unit order only where the two orders agree.
- The canonicalizer's cache key leaves out every key name that occurs only below the top level, so such
  payloads can get another payload's text. Once any such payload has been seen, only payloads without
  nested objects are safe.
- A tenant whose rules were all deleted keeps an empty list and does not fall back to the default policy.

## Model

| member | source | states |
|---|---|---|
| Gate530Rules.ResolveField | packages/gate-530/src/rules.ts:47-60 | The loop returns what following the dotted path from the context leads to, undefined once a step is not an object |
| Gate530Rules.SplitJoin | packages/gate-530/src/rules.ts:48 | Splitting a path at dots loses nothing and leaves dot-free parts |
| Gate530Rules.FollowPath | packages/gate-530/src/rules.ts:51-59 | Each further step of a path reads that property of the object or array reached so far, and is undefined anywhere else |
| Gate530Rules.LeafMeaning | packages/gate-530/src/rules.ts:13-45 | What each of the ten operators asks of the two values, and that any other operator is false |
| Gate530Rules.EvaluateConditionMeaning | packages/gate-530/src/rules.ts:4-45 | A tree throws exactly when a leaf reachable through groups has no field, never short-circuited; otherwise it yields its declarative truth value |
| Gate530Rules.ApplyOverridesLoop | packages/gate-530/src/rules.ts:71-83 | The nested loops drop exactly the rules whose id some rule of the list overrides |
| Gate530Rules.ApplyOverridesKeeps | packages/gate-530/src/rules.ts:82 | What is kept, in order, are the rules that no rule of the list overrides |
| Gate530Rules.ApplyOverridesIdempotent | packages/gate-530/src/rules.ts:71-83 | Applying overrides twice removes nothing more |
| Gate530Rules.ApplyOverridesCommutesWithSort | packages/gate-530/src/rules.ts:67-83 | Overrides and the priority sort can be applied in either order |
| Gate530Engine.ApplicableAre | packages/gate-530/src/engine.ts:136-147 | The applicable rules are exactly the eligible ones that no eligible rule overrides |
| Gate530Engine.ThrowsIffSomeMalformed | packages/gate-530/src/engine.ts:86-105 | Evaluation and classification throw exactly when some considered rule is malformed, independent of priorities |
| Gate530Engine.FailClosedNeverThrows | packages/gate-530/src/engine.ts:56-69 | Under failClosed evaluation always returns, and denies for security exactly when the context is missing or some considered rule is malformed; otherwise it throws exactly then |
| Gate530Engine.MatchedIsSortedFiring | packages/gate-530/src/engine.ts:96-107 | The matched list is the stable priority sort of the firing rules, so its second sort is the identity |
| Gate530Engine.WinnerIsUnique | packages/gate-530/src/engine.ts:107-110 | At most one rule comes first by priority and then by position |
| Gate530Engine.WinnerDecides | packages/gate-530/src/engine.ts:86-154 | The one rule that fires and comes first by priority, then position in globals followed by sector rules, gives the decision its action, dimension, id, name and confidence; an unknown action gives a deny for security; allow when none fires |
| Gate530Engine.ConfidenceGrows | packages/gate-530/src/engine.ts:149-154 | The confidence of a decision is at most 1, at least 0.5 for priorities from 0, and grows with the priority, strictly up to 86 |
| Gate530Engine.ClassificationIs | packages/gate-530/src/engine.ts:191-215 | A classification lists the ids of the firing rules by priority; its category is the first one's dimension or "unknown", its confidence 0.5 and 0.1 per rule, at most 0.95 |
| Gate530Engine.CategoryIsDecisionDimension | packages/gate-530/src/engine.ts:191-204 | The category of a classified request is the winner's dimension; it equals the decision's dimension if and only if the winner's action is known or its dimension is "security" |
| Gate530Engine.CategoryMayDiffer | packages/gate-530/src/engine.ts:131-133 | An input on which the category is "privacy" and the decision's dimension "security" |
| Gate530Engine.StoreHoldsLatest | packages/gate-530/src/engine.ts:156-165 | After any run of additions and removals the store maps every id to its latest surviving rule, keys distinct |
| Gate530Engine.Engine.Create | packages/gate-530/src/engine.ts:33-54 | Construction fails exactly on an invalid configuration; otherwise the configured rules and sectors are loaded over the defaults |
| Gate530Engine.Engine.AddRule | packages/gate-530/src/engine.ts:156-161 | A rule without id is refused; any other is set in the Map, and the store still equals its update history |
| Gate530Engine.Engine.RemoveRule | packages/gate-530/src/engine.ts:163-165 | The rule is deleted and nothing else changes |
| Gate530Engine.Engine.EvaluateContext | packages/gate-530/src/engine.ts:56-69 | Evaluation reads the rules in Map order, and with failClosed it always returns a decision |
| Policies.CacheKeyInjective | packages/middleware-engine/src/layers/policy.ts:22-23 | Without colons in tenants and sectors a cache key names one tenant, sector and action |
| Policies.KeyIsSharedIffColon | packages/middleware-engine/src/layers/policy.ts:22-23 | A request's cache key is also that of another request, with a tenant that is not empty either, if and only if its sector, its action or its tenant after the first character contains a colon |
| Policies.FindIndex | packages/middleware-engine/src/layers/policy.ts:113 | The first position of a rule with the id, or -1 when there is none |
| Policies.StoredAt | packages/middleware-engine/src/layers/policy.ts:112-118 | Replacing the found slot, or appending, replaces the first rule with that id and touches no other |
| Policies.RunExplained | packages/middleware-engine/src/layers/policy.ts:21-134 | Over every run of colon-free operations no cached list is ever touched by an update in place, and each is what its load selected |
| Policies.SelectedAre | packages/middleware-engine/src/layers/policy.ts:32-36 | What a load selects: of the tenant's rules ("global" for none) or the default policy, in stored order, exactly those with the request's sector or "*" and its action or "*" |
| Policies.LoadIsRecent | packages/middleware-engine/src/layers/policy.ts:21-46 | After every run, a load returns the sector and action selection of the tenant's store as it is now, or as it was at a load less than the time to live ago; with the cache off, always now |
| Policies.LoadReturnsExactly | packages/middleware-engine/src/layers/policy.ts:21-46 | The same with the selection spelled out in the rules' own fields |
| Policies.RulesAfter | packages/middleware-engine/src/layers/policy.ts:111-134 | In every run, read through the shared arrays, storing replaces the first rule with the id or appends, deleting drops the rules with the id, and nothing else changes any tenant's rules |
| Policies.AlwaysRecentIff | packages/middleware-engine/src/layers/policy.ts:21-46 | A request's load is recent after every clock-ordered, colon-free run if and only if the cache is off, entries expire at once, its tenant and sector have no colon, or its tenant starts with one |
| Policies.OwnRulesIffEverStored | packages/middleware-engine/src/layers/policy.ts:32 | A tenant is served its own rules instead of the default policy if and only if a rule was ever stored for it |
| Policies.EmptiedTenantHasNoPolicies | packages/middleware-engine/src/layers/policy.ts:126-133 | A tenant whose only rule was deleted is served nothing, where a tenant without rules is served the default policy |
| Policies.Layer.LoadPolicies | packages/middleware-engine/src/layers/policy.ts:21-46 | The layer's arrays, store and cache after a load, and the array it returns, are those of the load step |
| Policies.Layer.CachePolicies | packages/middleware-engine/src/layers/policy.ts:100-106 | The tenant's own array is cached, by reference, under the bare tenant name |
| Policies.Layer.StoreRule | packages/middleware-engine/src/layers/policy.ts:111-121 | The tenant's array changes in place, for every holder, and is cached again |
| Policies.Layer.DeleteRule | packages/middleware-engine/src/layers/policy.ts:126-134 | Deleting installs a new array without the rule and leaves the old one alone; false exactly when the tenant has no such rule |
| RateLimiter.Limiter.CheckRateLimit | packages/gate-530/src/api-server.ts:291-312 | The table after a request, whether it is accepted, what remains and when the window ends |
| RateLimiter.CountMeaning | packages/middleware-engine/src/server.ts:130-140 | The count is the number of requests of both classes since the window opened, the deadline is the one its first request set, and that request was accepted exactly when its class allows one at all |
| RateLimiter.NextRequest | packages/middleware-engine/src/server.ts:125-139 | A request opens a window exactly after the last deadline, which the class of its first request set; otherwise it is accepted exactly within the limit of its own class |
| RateLimiter.WindowBound | packages/middleware-engine/src/server.ts:124-146 | In one window at most max(ordinary, admin) requests of an address are accepted, whatever the mix of classes |
| RateLimiter.SpanBound | packages/middleware-engine/src/server.ts:124-146 | In any span no longer than the smaller window at most 2M - 1 requests of an address are accepted, over every ordered trace |
| RateLimiter.SpanBoundIsReached | packages/middleware-engine/src/server.ts:124-146 | For all limits with M at least 1, and all windows of at least one tick, some trace has 2M - 1 accepted requests in such a span |
| RateLimiter.RejectionsKeepDeadlines | packages/middleware-engine/src/server.ts:131-139 | In every reachable table rejected requests leave an existing deadline alone, if and only if their limit is at least 1 |
| RateLimiter.OthersDoNotMatter | packages/middleware-engine/src/server.ts:128-135 | Requests of other addresses leave an address's entry alone |
| AuditLog.HashesPinBodies | packages/middleware-engine/src/layers/audit.ts:108-116 | A log with the hashes of a sound one passes the check exactly when every body is unchanged; ids and timestamps may differ |
| AuditLog.PagesConcatenate | packages/middleware-engine/src/layers/audit.ts:99-102 | Consecutive pages of any size concatenate to the matching events, none lost or repeated |
| AuditLog.MatchingIs | packages/middleware-engine/src/layers/audit.ts:74-99 | The matching events are exactly those that pass every given filter, with the latest timestamp first |
| AuditLog.MatchingTies | packages/middleware-engine/src/layers/audit.ts:99 | Those with the same timestamp come in the order in which they were recorded |
| AuditLog.TrailIs | packages/middleware-engine/src/layers/audit.ts:100-102 | A trail is the slice from the offset to `limit` events later, 100 when none is given; negative positions count from the end |
| AuditLog.AuditLayer.RecordEvent | packages/middleware-engine/src/layers/audit.ts:30-49 | Persisted events followed by the buffer remain the recorded history, now one event longer; events stay in the buffer exactly while it is shorter than the batch size |
| AuditLog.AuditLayer.FlushBuffer | packages/middleware-engine/src/layers/audit.ts:129-138 | The buffer moves behind the persisted events in order and is empty afterwards |
| AuditLog.AuditLayer.Shutdown | packages/middleware-engine/src/layers/audit.ts:121-127 | The timer is stopped, the buffer is empty and everything recorded is persisted |
| AuditLog.AuditLayer.VerifyIntegrity | packages/middleware-engine/src/layers/audit.ts:108-116 | True exactly when every persisted hash is that of its event, which holds in every reachable state |
| AuditLog.AuditLayer.GetAuditTrail | packages/middleware-engine/src/layers/audit.ts:74-103 | The successive optional filters, the sort and the slice return the requested page of the persisted matching events |
| Orchestrator.MiddlewareOrchestrator.Process | packages/middleware-engine/src/orchestrator.ts:49-207 | The answer, the events added to the audit history and the new policy state, for every combination of layer outcomes |
| Orchestrator.MiddlewareOrchestrator.ProcessPolicies | packages/middleware-engine/src/orchestrator.ts:102-181 | The same for the layers from the explicit denies on |
| Orchestrator.AllowIff | packages/middleware-engine/src/orchestrator.ts:57-153 | ALLOW exactly when the request authenticated, was classified, was not critical under failClosed, has an allow and no deny, and no layer failed; REVIEW exactly when all this holds but it has no policies |
| Orchestrator.AnswersAre | packages/middleware-engine/src/orchestrator.ts:60-206 | For every denial, which layer denies, with what confidence, and that it ends the pipeline; the confidence of the other answers |
| Orchestrator.EvaluationIs | packages/middleware-engine/src/layers/evaluation.ts:26-143 | The first deny decides, without one the first allow, with neither the request is to be reviewed; a failing gate denies |
| Orchestrator.AllowedByFirst | packages/middleware-engine/src/layers/evaluation.ts:126-135 | An allowing answer names the first loaded policy that allows |
| Orchestrator.RetrievedAreBest | packages/middleware-engine/src/layers/retrieval.ts:31-59 | Retrieval returns the documents that score above 0.1, best first, as many as the limit allows; none left out beats one returned; a failing search returns nothing |
| Orchestrator.ComplianceFilterKeeps | packages/middleware-engine/src/layers/retrieval.ts:64-83 | The filter keeps, in order, exactly the documents of low or no sensitivity on ALLOW, of medium too on REVIEW, none on DENY, and all when switched off |
| Orchestrator.FailClosedAnswers | packages/middleware-engine/src/orchestrator.ts:182-206 | An error is passed on exactly without failClosed and when a layer that is reached fails |
| Orchestrator.DocumentsOnlyOnAllow | packages/middleware-engine/src/orchestrator.ts:146-153 | Documents are attached exactly on ALLOW: the retrieved ones, with the filter on exactly those of low or no sensitivity, in order; they respect the configured maximum if and only if it is not negative |
| Orchestrator.EveryRequestIsRecorded | packages/middleware-engine/src/orchestrator.ts:61-194 | Every request records one or two events, all its own, the last of which tells the outcome |
| Orchestrator.EarlyEvents | packages/middleware-engine/src/orchestrator.ts:60-118 | A request turned away before the evaluation records exactly one event, with the actor, action and result of the layer that did it |
| Orchestrator.LateEvents | packages/middleware-engine/src/orchestrator.ts:131-194 | An evaluated request records the evaluation's deny, if any, then its outcome or the error |
| Orchestrator.AllowedByRecentPolicies | packages/middleware-engine/src/orchestrator.ts:94-118 | Whatever ran before on the policy layer, an allowed request had an allow and no deny in its tenant's store less than the time to live ago |
| Migrations.RunMigrations | packages/cos-plus/src/migrations.ts:46-94 | A run skips what the ledger had, applies the rest in order with one ledger row each, and stops at the first rejected file |
| Migrations.SqlFilesDistinct | packages/cos-plus/src/migrations.ts:52-55 | The sorted list of migration files has no duplicates |
| Migrations.SqlFilesAre | packages/cos-plus/src/migrations.ts:52-55 | The migrations are exactly the listed names that end in ".sql", in the locale's order |
| Migrations.LedgerAlwaysPrefix | packages/cos-plus/src/migrations.ts:15-94 | Over every interleaving of starting, applying, failing and crashing runners the ledger is a prefix of the sorted files, each once, and only grows |
| Migrations.CleanFinishIsComplete | packages/cos-plus/src/migrations.ts:57-94 | A runner that ends without failure leaves the ledger complete; what it skipped and then applied is the whole file list |
| Migrations.PendingIsSuffix | packages/cos-plus/src/migrations.ts:105-113 | In every reachable state the pending migrations are exactly the rest of the sorted files |
| Migrations.UndisturbedRunKeepsPrefix | packages/cos-plus/src/migrations.ts:59-91 | A run with nobody else at work extends a prefix up to where it got |
| Migrations.UndisturbedRunIsAlone | packages/cos-plus/src/migrations.ts:46-94 | What the loop yields is what the event model yields when one process starts and advances with nobody else at work |
| AuditPrune.AuditStore.InsertAuditEvent | packages/cos-plus/src/audit.ts:64-82 | One new row, or failure when the id is taken |
| AuditPrune.AuditStore.PruneAuditEvents | packages/cos-plus/src/audit.ts:249-311 | The transaction, failing at any statement or at commit, is one atomic step; the counts are those of the rows moved |
| AuditPrune.StatementsFailIff | packages/cos-plus/src/audit.ts:258-289 | Exactly when archiving, deleting under the write-once trigger, and inserting fail |
| AuditPrune.EveryEventIsKept | packages/cos-plus/src/audit.ts:64-311 | Over every run of inserts and prunes main and archive are disjoint, together hold every event ever inserted unchanged, and the trigger is enabled |
| AuditPrune.PruneMovesExactlyExpired | packages/cos-plus/src/audit.ts:254-305 | In a reachable state a prune commits unless it fails from outside, archives exactly the rows before the cutoff that it deletes, and adds one PRUNE event |
| EvidenceChain.VerifyEvidenceChain | packages/cos-plus/src/evidence-store.ts:126-152 | Accepts exactly the non-empty chains whose hashes and links are right, and reports every mismatch and break in order |
| EvidenceChain.ErrorsAre | packages/cos-plus/src/evidence-store.ts:134-149 | A mismatch is reported for exactly the records whose hash is not that of their fields, a break for exactly those that do not name the hash before them |
| EvidenceChain.LastHashPinsHistory | packages/cos-plus/src/evidence-store.ts:126-152 | A chain no longer than a valid one verifies and ends in the same hash if and only if it is its suffix in all hashed fields |
| EvidenceChain.EditsAreReported | packages/cos-plus/src/evidence-store.ts:134-149 | A chain with as many records and the last hash of a valid one passes if and only if no hashed field or hash was edited |
| EvidenceChain.AppendVerifies | packages/cos-plus/src/evidence-store.ts:134-151 | One more record keeps a chain valid if and only if it is hashed right and linked to the last hash |
| EvidenceChain.EvidenceStore.StoreEvidenceRecord | packages/cos-plus/src/evidence-store.ts:53-78 | An offer is accepted exactly when it carries no hash, an empty one or its digest; then one row with the hash it carries, else the digest, is added, otherwise nothing changes |
| EvidenceChain.RowsAreAccepted | packages/cos-plus/src/evidence-store.ts:53-78 | After every run the rows are, in order, exactly those of the acceptable offers |
| EvidenceChain.ChainIs | packages/cos-plus/src/evidence-store.ts:92-104 | The chain of a request are the rows with its id, in order |
| EvidenceChain.StoreVerifies | packages/cos-plus/src/evidence-store.ts:53-78 | Storing keeps a request's chain, empty or not, valid if and only if the offer is refused, or is linked and does not carry the empty string as hash |
| EvidenceChain.RunVerifiesIffHarmless | packages/cos-plus/src/evidence-store.ts:53-152 | After a run of offers the chains of all requests are valid if and only if every accepted offer was linked and carried no empty hash |
| Partitions.PartitionManager.RegisterPartition | packages/rag-vault/src/partition.ts:73-107 | A taken id is refused; otherwise the partition is appended and linked below its parent if that is registered |
| Partitions.ForestIffNoSelfParent | packages/rag-vault/src/partition.ts:73-107 | Over every run, child links are duplicate-free, match the child's parent and follow registration order if and only if no accepted registration named itself as parent |
| Partitions.DefaultForest | packages/rag-vault/src/partition.ts:9-71 | The default partitions satisfy this |
| Partitions.OneParent | packages/rag-vault/src/partition.ts:100-106 | Each id occurs in at most one child list, and at most once there |
| Partitions.BelowIsLater | packages/rag-vault/src/partition.ts:98-106 | Walking child links terminates and reaches only partitions registered later |
| Partitions.SectorChoice | packages/rag-vault/src/partition.ts:123-147 | A sector is served by its most restricted partition, the first registered among equals |
| Partitions.NamedChoice | packages/rag-vault/src/partition.ts:125-127 | A query that names a partition gets that one, or none if it is not registered |
| Partitions.GeneralChoice | packages/rag-vault/src/partition.ts:149-157 | A query without a partition whose sector nobody serves gets the partition "general" |
| Partitions.DefaultIsInitial | packages/rag-vault/src/partition.ts:9-58 | Ids, sectors and ranks of the six initial partitions |
| Partitions.InitialChoice | packages/rag-vault/src/partition.ts:130-147 | Among them a sector is served by its only partition, "government" and "general" by the more restricted of their two |
| Partitions.LevelIsRank | packages/rag-vault/src/partition.ts:134-140 | The five levels rank in the listed order, any other name below them |
| Partitions.AccessIff | packages/rag-vault/src/partition.ts:160-186 | Access is granted exactly to those who list the partition or its parent, and to those who share a sector and whose clearance is not below its level |
| RagVault.ComplianceMeaning | packages/rag-vault/src/rag-vault.ts:340-353 | A document passes exactly when its level is listed not above the required one, or is not listed at all |
| RagVault.Deduplicate | packages/rag-vault/src/retrieval.ts:217-238 | The loop keeps the documents whose key was not seen before, renumbered |
| RagVault.UnseenIsFirst | packages/rag-vault/src/retrieval.ts:221-227 | Of each key the first document is kept |
| RagVault.LimitTotal | packages/rag-vault/src/retrieval.ts:251-260 | The limited total and ranks are right if and only if the limit is not negative |
| RagVault.PipelineNumbered | packages/rag-vault/src/rag-vault.ts:134-152 | Ranks are 1 to n and the total is n after every stage: after the limit if and only if it is not negative, at the end if and only if that or a depth limit is given |
| RagVault.SortUnseenSliceIsTopK | packages/rag-vault/src/rag-vault.ts:143-149 | Rank, dedupe and limit yield a sorted top k with distinct keys and min(k, number of keys) entries; whatever is omitted is covered by its key or no better than any kept one |
| RagVault.RetrievalIsTopK | packages/rag-vault/src/rag-vault.ts:134-152 | The whole pipeline returns the top k of exactly the found documents that fit the query, scored 0.6, 0.2 and 0.2, for every limit; the depth limit then only removes deeper ones |
| RagVault.ReturnedFits | packages/rag-vault/src/sector.ts:79-84 | Every returned document is untagged or tagged with the sector or "general", and of a level not above the required one |
| RagVault.FittingIsCovered | packages/rag-vault/src/rag-vault.ts:349-353 | Every found document that fits has its key returned with a score as good, or beats no returned one |
| RagVault.SameKeyIff | packages/rag-vault/src/retrieval.ts:240-247 | Without a vertical bar in references, documents are duplicates exactly when reference or id and the first 100 characters agree |
| RagVault.Vault.Retrieve | packages/rag-vault/src/rag-vault.ts:94-175 | Retrieval fails exactly when no partition can be chosen, otherwise returns the pipeline's result and logs it once if logging is on |
| Crosswalk.LookupIsFilteredLog | packages/uco-resolver/src/crosswalk.ts:27-64 | A lookup is the log of additions filtered by code, in order |
| Crosswalk.CrosswalkIndex.AddSocNaics | packages/uco-resolver/src/crosswalk.ts:27-32 | Appends to the log unless the index is frozen |
| Crosswalk.CrosswalkIndex.AddCipNaics | packages/uco-resolver/src/crosswalk.ts:34-39 | Appends to the log unless the index is frozen |
| Crosswalk.CrosswalkIndex.AddCipSoc | packages/uco-resolver/src/crosswalk.ts:41-46 | Appends to the log unless the index is frozen |
| Crosswalk.CrosswalkIndex.GetNaicsForSoc | packages/uco-resolver/src/crosswalk.ts:54-56 | Exactly the rows added under the code, in order |
| Crosswalk.CrosswalkIndex.GetNaicsForCip | packages/uco-resolver/src/crosswalk.ts:58-60 | Exactly the rows added under the code, in order |
| Crosswalk.CrosswalkIndex.GetSocForCip | packages/uco-resolver/src/crosswalk.ts:62-64 | Exactly the rows added under the code, in order |
| Traversal.TraverseCipToNaics | packages/uco-resolver/src/traversal.ts:44-71 | Database codes as listed, then the index codes that are new |
| Traversal.TraverseCipToSocToNaics | packages/uco-resolver/src/traversal.ts:73-127 | The SOC codes, and every NAICS code found through them once, as first found |
| Traversal.FirstHopIs | packages/uco-resolver/src/traversal.ts:44-127 | The codes of both hops are the findings of database and index, at the weights of the hop, each new one added |
| Traversal.AddNewIs | packages/uco-resolver/src/traversal.ts:60-68 | Added are, in order, exactly the findings whose code is neither there nor that of an earlier finding |
| Traversal.NewOnesAre | packages/uco-resolver/src/traversal.ts:60-68 | Which findings are new: those whose code is neither there nor that of an earlier finding |
| Traversal.Dedupe | packages/uco-resolver/src/traversal.ts:142-150 | For every list the loop over the Map keeps, per code, the first entry of the highest confidence, and lists codes in the order of their first entries |
| Traversal.UniqueNaicsDistinct | packages/uco-resolver/src/traversal.ts:142-150 | The considered codes are duplicate-free |
| Traversal.UniqueNaicsAre | packages/uco-resolver/src/traversal.ts:44-150 | They are exactly the one-hop and two-hop codes, over database and index |
| Traversal.UniqueNaicsConfidence | packages/uco-resolver/src/traversal.ts:44-150 | Each is the better of its first one-hop and first two-hop finding, the one-hop one on ties |
| Traversal.UniqueNaicsUnit | packages/uco-resolver/src/traversal.ts:50-122 | With weights and row confidences in [0, 1] all confidences are |
| Traversal.RankingIsWeakOrder | packages/uco-resolver/src/traversal.ts:200-212 | The comparator is a strict weak order |
| Traversal.RankedInOrder | packages/uco-resolver/src/traversal.ts:194-215 | Ranking any paths keeps them all, direct index matches first, then higher confidence, then lower risk |
| Traversal.PathIs | packages/uco-resolver/src/traversal.ts:161-257 | What each path is made of, and its confidence and risk by what is missing |
| Traversal.ScoresAre | packages/uco-resolver/src/traversal.ts:217-258 | The confidence and risk of any path by what it has and lacks |
| Traversal.SameScores | packages/uco-resolver/src/traversal.ts:217-258 | Paths of one traversal share their confidence, and their risk unless one code reads "inferred"; both lie in [0, 1] |
| Traversal.RankingIsStablePartition | packages/uco-resolver/src/traversal.ts:194-215 | Without a code that reads "inferred" ranking is the stable partition that puts first the codes that the index lists for the CIP code as direct |
| Traversal.TraverseToLicensure | packages/uco-resolver/src/traversal.ts:131-190 | The ranked paths are those of the considered codes, grouped by direct match and then "inferred" last, in discovery order |
| Jcs.DeepSort | packages/evidence-fabric/src/jcs.ts:50-64 | The recursion that assigns sorted keys one by one computes the deeply sorted form |
| Jcs.DeepSortMeaning | packages/evidence-fabric/src/jcs.ts:50-64 | Deep sorting keeps exactly the value without its "__proto__" members |
| Jcs.DeepSortPreservesIffNoProto | packages/evidence-fabric/src/jcs.ts:50-64 | It preserves a value if and only if no object in it has the key "__proto__" |
| Jcs.DeepSortIsCanonical | packages/evidence-fabric/src/jcs.ts:29-64 | Two values have the same form if and only if they differ only in key order, at any depth, and in "__proto__" members; sorting twice changes nothing more (section 3.2.3 of RFC 8785) |
| Jcs.ObjectInOrder | packages/evidence-fabric/src/jcs.ts:59-63 | The rebuilt object lists its index-like keys by number, then the others in code unit order |
| Jcs.IndexIffDecimal | packages/evidence-fabric/src/jcs.ts:59-62 | Index-like keys are exactly the decimal forms of the numbers below 2^32 - 1 |
| Jcs.KeyBeforeIff | packages/evidence-fabric/src/jcs.ts:60 | A key sorts before another exactly when it is a proper beginning of it or smaller where they first differ |
| Jcs.ProtoIs | packages/evidence-fabric/src/jcs.ts:61 | The key whose assignment creates no property reads "__proto__" |
| Jcs.AscendsIffOrdersAgree | packages/evidence-fabric/src/jcs.ts:50-64 | The result lists the keys of every object in code unit order if and only if, among its keys, whichever is enumerated first for being an index also precedes in code unit order |
| Jcs.IndexKeysMayNotAscend | packages/evidence-fabric/src/jcs.ts:59-63 | With them it may not: 9 is enumerated before 10 |
| JcsCache.RestrictMeaning | packages/evidence-fabric/src/jcs.ts:79 | The text under the allow-list keeps a value's meaning if and only if all its key names are on the list and, where the list names "__proto__", every object has that key itself |
| JcsCache.NestedValuesAreLost | packages/evidence-fabric/src/jcs.ts:79 | All payloads {a: {b: x}} have the same cache key |
| JcsCache.CacheInvariant | packages/evidence-fabric/src/jcs.ts:78-99 | Over every run of covered payloads the cache holds at most max(1, maxCacheSize) entries, and each is the canonical text of every covered payload with its key |
| JcsCache.StorePushesOutOldest | packages/evidence-fabric/src/jcs.ts:90-97 | A miss is stored last and pushes out only the first entry of a full cache |
| JcsCache.AfterIs | packages/evidence-fabric/src/jcs.ts:80-98 | A hit leaves the cache alone; a miss appends the canonical text and drops the oldest entry of a full cache; either way the answer is cached afterwards |
| JcsCache.CacheIsTransparent | packages/evidence-fabric/src/jcs.ts:78-99 | After every run of covered payloads a covered payload gets exactly its canonical text |
| JcsCache.TransparentIffCovered | packages/evidence-fabric/src/jcs.ts:78-99 | A payload gets its own canonical text after every run of covered payloads if and only if it is covered: its cache key text keeps its meaning |
| JcsCache.RightIffLiveMeansSame | packages/evidence-fabric/src/jcs.ts:78-99 | After any run of payloads an answer is right if and only if no payload with its key is cached, or that payload means the same |
| JcsCache.RightAfterAnyRunIffFlat | packages/evidence-fabric/src/jcs.ts:78-99 | A payload gets its own canonical text after every run of any payloads if and only if no object occurs below its top level |
| JcsCache.Canonicalizer.Canonicalize | packages/evidence-fabric/src/jcs.ts:78-99 | The result and the new cache are those of one cache step |
| JcsCache.Canonicalizer.ClearCache | packages/evidence-fabric/src/jcs.ts:120-122 | The cache is empty |
| Seqs.StableSortIsUnique | packages/gate-530/src/rules.ts:68 | Any two stable sorts of the same list agree, so the sort's algorithm does not matter |

## Left out

- Everything around the modelled components: HTTP servers, routing, CORS, metrics, transports, SQL text,
  connection pools, vector search, embeddings, JWT, Ed25519, Vault, HMAC, configuration loading.
- Floating point: sums, products and comparisons of scores are over reals, so NaN, infinities and rounding do not occur.
- Interleavings inside an asynchronous call of the middleware: each call of the audit layer and of the orchestrator
  runs to its end; `Promise.all` persists a batch in order. Migration runners are interleaved transaction by transaction.
- Migrations.LedgerAlwaysPrefix: the directory does not change while migrations run, and file names are compared
  by a strict weak order, as the locale's comparison is meant to be.
- AuditPrune.EveryEventIsKept: requires that generated ids never repeat, and treats a prune as atomic beside inserts.
- Migration checksums are stored but their verification, a plain lookup, is not modelled.
- JcsCache.RestrictMeaning: objects are plain ones, whose common prototype holds functions and "__proto__" only; values
  that JSON cannot express (undefined, functions, cycles, numbers that are not finite, minus zero) do not occur.
- Gate530Rules.EvaluateConditionMeaning: a regular expression is an opaque predicate, false when it does not compile; a
  context's properties are plain data without getters.
- `evaluateAsync` of the engine, which repeats `evaluate`, and `synthesizeDecision`, `getRules` and `getPolicyMetadata`.
- Policy timestamps, versions and conditions; `mergePolicies` and `validatePolicy`.
- Orchestrator: request metadata, evidence records, durations and layer texts; the audit layer itself is taken not to fail.
- The evaluation layer's bounded log and `evaluateBatch`, and retrieval's `augmentContext`: easy members.
- AuditLog: `recordAdminMutation`, which only fills in an event, and the interval timer's firing times.
- EvidenceChain: rows come back ordered by creation, with their content and `previous_hash` as stored; the audit event of a stored record
  and the search functions are not part of the model.
- RagVault: result metadata, timing, the document methods, `hybridSearch` and the sector-based re-ranking that `retrieve` does not call.
- `SectorKnowledgeMap`, `getSectorDimensions` and the other getters of the sector classes.
- `validateCrosswalk`, `buildIndex` and the CSV loader; titles and descriptions of codes.
- `verifyCanonicalization`, which repeats the opaque RFC 8785 function, and `EvidenceBuilder`, whose hash does not round-trip as written.
