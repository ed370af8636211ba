# Stalky: verified model

Stalky keeps a structured memory of what a person does at the computer: it segments activity, extracts
memory candidates through a leased queue, reconciles them into a store, and renders a bounded context for a
model. This project models that memory subsystem and the small concurrent services around it in Dafny, and
proves what the design relies on.

| files | what they model |
|---|---|
| `MemoryModel`, `Reconcile`, `StoreSpec`, `MemoryStore` | memories, plans, the store as a value and as an object whose operations run as transactions |
| `PlanLaws`, `EditLaws`, `RetentionLaws` | what each request of the store is answered and writes, table by table |
| `StoreInvariants`, `StoreEffects`, `MemoryLineage`, `Replay`, `Deletion`, `Trust`, `Profiles` | what every reachable store satisfies, and where the store does less than one might assume |
| `ExtractionQueue`, `QueueLaws` | the leased job queue under any interleaving of workers, and what its requests tell of each row |
| `Segmentation`, `Packing`, `Text` | the online segmenter, next-fit batching, text normalisation |
| `Ranking`, `RankingLaws`, `Rendering`, `IncludedIds`, `ContextAssembly`, `Sorting` | ranking and what each feature is worth, escaping, the byte budget, and reading the rendered block back |
| `Accessibility`, `AccessibilityNumbering` | the two traversals behind an accessibility snapshot |
| `EventBus`, `SessionLifecycle`, `PercentCoding`, `JwksCache`, `Frames`, `CaptureService` | the bounded queue, sign-in and sign-out, callback parsing, the key cache, frame ingestion and the capture service |
| `Wrappers`, `Integers` | optional and fallible results, fixed-width arithmetic |

Operations that update state in place are classes whose methods follow the program statement by statement and
are proved against a specification function; the main results are lemmas about those functions over every run
or every interleaving. Database tables are maps and sets, and a transaction is all or nothing: a method that
fails leaves the store as it was.

Where the code does less than its shape suggests, the code is modelled as it is. Each line names the lemma with
the exact condition under which the property holds, and the lemma with an input at which it fails:

- a plan's update does not raise the old revision, so an edit can give a memory a second successor
  (`MemoryLineage.SingleSuccessorExactly`, `MemoryLineage.UpdateLeavesRevisionUsable`);
- a permanent delete leaves projection jobs behind (`Deletion.PermanentDeleteLeavesJobs`,
  `Deletion.CreatedThenDeleted`), and one of a replacement strands what it replaced
  (`MemoryLineage.DeleteStrands`, `MemoryLineage.DeletedReplacementStrands`);
- a duplicate can lift a confidence over its ceiling (`Trust.CeilingsEscapedOnlyByDuplicates`,
  `Trust.RestatedInferenceEscapes`);
- a retry of an extension held for review reports `active` (`Replay.RetryStatus`,
  `Replay.HeldExtensionReportsActive`), and retention can purge the audit row a retry needs
  (`Replay.RetryAfterRetention`, `Replay.RetentionForgetsReview`);
- a stale profile can be stored after a forget (`Profiles.StaleProfileExactly` and, over runs,
  `Profiles.AlwaysCleanExactly`; `Profiles.StaleProfileResurrects`);
- an exhausted lease is not mirrored on its segment (`ExtractionQueue.ClaimAgreesExactly` and, over runs,
  `ExtractionQueue.RunDisagreesExactly`; `ExtractionQueue.ExhaustionIsNotMirrored`);
- a packed batch can fail validation (`Packing.LoadedBatchValid`, `Packing.PackedButRefused`);
- a query between 501 and 4,000 characters passes the request's bound and fails in its own search
  (`ContextAssembly.AssembleContext`, `ContextAssembly.LongQueryRefused`);
- a full search can hide an eligible memory (`ContextAssembly.MissingExactly`, with bounds for rows updated at
  the same time in `ContextAssembly.MissingBounds`; `ContextAssembly.FullSearchHides`);
- a failed attribute read shifts element numbers (`AccessibilityNumbering.AgreementExact`,
  `AccessibilityNumbering.FailedSiblingShifts`);
- an element with more than 128 children is cut without being marked (`AccessibilityNumbering.TruncatedExactly`,
  `AccessibilityNumbering.WideElementUnmarked`);
- the percent decoder accepts a signed pair (`PercentCoding.StrictExactly`, `PercentCoding.SignedPairDecodes`).

Ranking boosts only add up, so for arbitrary signals an exact project decision can lose
(`Ranking.DecisionOutranks`, `Ranking.DecisionCanLose`). That takes a similarity, which no search of a context
request supplies: in an assembled context the decisions always come first (`ContextAssembly.DecisionsFirst`).

## Model

| member | source | states |
|---|---|---|
| `StoreInvariants.RunKeeps` | crates/mega-store/src/memory_repo.rs:264-664 | Over every run of plans, manual operations, reviews, deletes, retention, profile, embedding and source requests: keys and foreign keys hold, a search document exists exactly for each active memory and mirrors it, relations point from newer to older, an `updates` edge never points from less to more trusted nor to a memory in use, every non-manual memory links to an existing source, and every row only moves forward |
| `StoreInvariants.ServeKeeps` | crates/mega-store/src/memory_repo.rs:264-664 | Any single request, accepted or refused, keeps referential integrity, index agreement, lineage and provenance |
| `StoreInvariants.ServeEvolves` | crates/mega-store/src/operations_repo.rs:110-178 | Any single request rewrites a row only forward: content and classification never change, status only advances, and a change shows as a higher revision unless a plan superseded the row |
| `StoreInvariants.Compose` | crates/mega-store/src/memory_repo.rs:264-664 | Keeping the invariant and moving rows forward composes over consecutive transactions |
| `StoreInvariants.MutateKeeps` | crates/mega-store/src/memory_repo.rs:284-398 | Each kind of plan keeps the invariant between its statements and its closing audit row |
| `StoreInvariants.InsertCandidateKeeps` | crates/mega-store/src/memory_repo.rs:1095-1149 | Inserting an acceptable candidate keeps the invariant; its source links give the new row its provenance |
| `StoreInvariants.DeletePermanentlyKeeps` | crates/mega-store/src/memory_repo.rs:617-646 | A permanent delete leaves every other non-manual memory with a source and no dangling row |
| `StoreInvariants.SupersedeKeeps` | crates/mega-store/src/memory_repo.rs:350-357 | Retiring a row, dropping its search document and adding the edge keeps index agreement and trust order |
| `StoreInvariants.EmptyInvariant` | crates/mega-store/migrations/0001_memory.sql:1-223 | A new database satisfies the invariant |
| `MemoryLineage.SupersededForGood` | crates/mega-store/src/memory_repo.rs:322-358 | Once some memory updates another, no run makes the other active or searchable again, and its id is never reused |
| `MemoryLineage.Acyclic` | crates/mega-store/migrations/0001_memory.sql:147-155 | The relation graph of every reachable database has no cycle |
| `MemoryLineage.EverySupersededLeadsToCurrent` | crates/mega-store/src/memory_repo.rs:322-488 | With no permanent delete, from every superseded memory a chain of `updates` edges leads to a memory that is not superseded |
| `MemoryLineage.RunSucceeds` | crates/mega-store/src/memory_repo.rs:322-488 | With no permanent delete, every superseded memory has a successor at all times |
| `MemoryLineage.DeleteStrands` | crates/mega-store/src/memory_repo.rs:621-641 | A permanent delete leaves a superseded memory without a successor exactly when the deleted memory was its only one |
| `MemoryLineage.DeletedReplacementStrands` | crates/mega-store/src/memory_repo.rs:429-488 | The run that does so: an edit, then a permanent delete of the replacement |
| `MemoryLineage.EditAccepted` | crates/mega-store/src/memory_repo.rs:429-462 | An edit is accepted exactly for valid input with known categories and distinct known apps, the current revision, a memory neither forgotten nor rejected, and a valid correlation id |
| `MemoryLineage.EditEffect` | crates/mega-store/src/memory_repo.rs:446-486 | What an accepted edit leaves: the replacement, the retired row with a raised revision, and one edge between them |
| `MemoryLineage.UpdateEffect` | crates/mega-store/src/memory_repo.rs:322-358 | What an applied update leaves: the new row, the old row superseded with its revision unchanged, and one edge |
| `MemoryLineage.SingleSuccessorExactly` | crates/mega-store/src/memory_repo.rs:322-488 | That no memory has two successors survives a request exactly when it is not an accepted edit of a memory that already has one |
| `MemoryLineage.UpdateLeavesRevisionUsable` | crates/mega-store/src/memory_repo.rs:350-353 | The failing case: after an update the old revision still edits the superseded memory, which then has two successors; after that edit the same revision is refused |
| `Replay.RetryNamesTheFirstMemory` | crates/mega-store/src/memory_repo.rs:264-283 | After any run, a retry of an applied key leaves the store as it is and names the first memory, or none if that memory was deleted; retention may intervene except for an ignored plan or a review request whose memory is gone |
| `Replay.RetriesChangeNothing` | crates/mega-store/src/memory_repo.rs:264-283 | Any run with retries gives the same store as the run without them, as long as every retention pass spares the audit rows of applied plans |
| `Replay.RetryAfterRetention` | crates/mega-store/src/operations_repo.rs:193-197 | After a retention pass a retry still counts as applied exactly when the pass did not purge its audit row |
| `Replay.RetryStatus` | crates/mega-store/src/memory_repo.rs:1337-1343 | The status a retry reports differs from the first reply exactly for an extension held for review |
| `Replay.HeldExtensionReportsActive` | crates/mega-store/src/memory_repo.rs:1337-1343 | The failing case: a sensitive inference that extends a memory is first reported as held for review, and its retry as active |
| `Replay.RetentionForgetsReview` | crates/mega-store/src/operations_repo.rs:193-197 | The failing case: a purged review request is applied a second time and makes a second memory |
| `Deletion.PermanentDeleteAccepted` | crates/mega-store/src/memory_repo.rs:592-660 | A permanent delete is refused exactly for a stale revision, an invalid correlation id, or an entity alias citing a source only this memory links to |
| `Deletion.PermanentDeleteEvidence` | crates/mega-store/src/memory_repo.rs:621-648 | It removes exactly the sources no other memory links to, and exactly the segments left without a source; the rest keep their contents |
| `Deletion.PermanentDeleteSparesOthers` | crates/mega-store/src/memory_repo.rs:621-660 | After a permanent delete no row, document, embedding, relation, source link or audit row names the memory, its tombstone is above the deleted revision, and rows, links and relations of all others are unchanged |
| `Deletion.PermanentDeleteLeavesJobs` | crates/mega-store/src/memory_repo.rs:621-660 | Where a delete leaves the id: a projection job names it afterwards exactly if one did before, and the event of the delete always does |
| `Deletion.CreatedThenDeleted` | crates/mega-store/src/memory_repo.rs:621-660 | The failing case: a memory made by hand and deleted at once leaves both its projection jobs |
| `Deletion.DeletedForGood` | crates/mega-store/src/memory_repo.rs:592-660 | Whatever requests follow a permanent delete, none of the memory's own tables names it again, its tombstone stays, no later event is about it, and exactly the projection jobs it had before the delete remain |
| `Deletion.ExclusiveSourcesExact` | crates/mega-store/src/memory_repo.rs:627-641 | The sources a delete may remove are those linked to this memory and to no other |
| `Reconcile.BestMatch` | crates/mega-memory/src/reconcile.rs:237-245 | The best match of a relationship has the greatest confidence, the last one among equals, and is absent exactly when no match has that relationship |
| `Reconcile.ReconciledPlans` | crates/mega-memory/src/reconcile.rs:132-235 | What every reconciled plan satisfies, whichever it is: no under-supported observed preference or sensitive inference is promoted, a superseding plan is at least as trusted as its target, a duplicate's target is active, and none is `ignore`; when each plan is due is stated by the rows below |
| `Reconcile.BestIsBest` | crates/mega-memory/src/reconcile.rs:237-245 | Being the best match of a relationship, defined by confidence and position alone, holds of exactly the match the function returns, and none is best exactly when none has the relationship |
| `Reconcile.ReconcileRefusals` | crates/mega-memory/src/reconcile.rs:135-139 | Reconciling fails exactly for a match confidence outside 0 to 1, or for a best exact duplicate that is not active |
| `Reconcile.DuplicateDue` | crates/mega-memory/src/reconcile.rs:154-172 | A duplicate is planned exactly when there is an exact duplicate and the best one is active, with all of the candidate's sources and the confidence capped by the candidate's mode |
| `Reconcile.UpdateDue` | crates/mega-memory/src/reconcile.rs:174-200 | An update of a memory is planned exactly when there is no exact duplicate, it is the best match that updates or, with none, contradicts it, its trust does not exceed the candidate's, and the candidate is supported: no observed preference with under three observations or two segments, and no sensitive inference |
| `Reconcile.ExtensionDue` | crates/mega-memory/src/reconcile.rs:202-210 | An extension is planned exactly when there is an extending match and no duplicate, updating or contradicting one; it is active exactly when the candidate is supported and held for review otherwise |
| `Reconcile.CreationDue` | crates/mega-memory/src/reconcile.rs:224-229 | A creation is planned exactly for a supported candidate with no match of those four relationships |
| `Reconcile.ReviewDue` | crates/mega-memory/src/reconcile.rs:176-222 | Everything else is a review, and each of its reasons is given in exactly its own case |
| `MemoryModel.TrustOrder` | crates/mega-memory/src/model.rs:71-79 | The trust ranks put the modes in one order: inferred, observed, imported, explicit, manual |
| `Trust.GuardsAcceptReconciledPlans` | crates/mega-store/src/memory_repo.rs:300-383 | Against the store as it is, the store's trust and status guards never refuse a reconciled plan: only a target no longer active or an uninsertable candidate does |
| `Trust.CeilingsEscapedOnlyByDuplicates` | crates/mega-store/src/memory_repo.rs:311-314 | Every request keeps all stored confidences under their modes' ceilings, except exactly an acceptable duplicate more confident than the existing mode allows |
| `Trust.PlanCeiling` | crates/mega-store/src/memory_repo.rs:264-398 | For plans alone: ceilings survive a plan exactly when it is not such a duplicate |
| `Trust.ReconciledOverconfidence` | crates/mega-memory/src/reconcile.rs:166-170 | Reconciliation makes such a duplicate exactly when the candidate's confidence and its own ceiling both exceed the existing mode's ceiling |
| `Trust.RestatedInferenceEscapes` | crates/mega-memory/src/reconcile.rs:166-170 | The failing case: an explicit restatement above 0.75 of an inferred memory is reconciled to a duplicate that lifts the memory over its ceiling |
| `MemoryStore.MemoryStore.ApplyPlan` | crates/mega-store/src/memory_repo.rs:264-427 | One plan executed statement by statement is one atomic step: the specified new store and reply, or an error and no change |
| `MemoryStore.MemoryStore.CreateManual` | crates/mega-store/src/memory_repo.rs:240-262 | A manual memory with its document, refresh jobs and event, or no change |
| `MemoryStore.MemoryStore.EditManual` | crates/mega-store/src/memory_repo.rs:429-488 | The replacement, the retired row and the edge in one step, or no change |
| `MemoryStore.MemoryStore.Forget` | crates/mega-store/src/memory_repo.rs:592-620 | The forgotten row loses document, embedding, refresh jobs and every profile it can appear in, in one step |
| `MemoryStore.MemoryStore.DeletePermanently` | crates/mega-store/src/memory_repo.rs:621-664 | Deleting the row and sweeping its sources one by one, in any order, removes exactly the specified rows, or nothing when an alias blocks it |
| `MemoryStore.MemoryStore.ConfirmPending` | crates/mega-store/src/operations_repo.rs:110-140 | A confirmed candidate becomes an active manual memory with a document and a raised revision, or nothing changes |
| `MemoryStore.MemoryStore.RejectPending` | crates/mega-store/src/operations_repo.rs:142-178 | A rejected candidate loses its projections and gets a raised revision, or nothing changes |
| `MemoryStore.MemoryStore.ApplyRetention` | crates/mega-store/src/operations_repo.rs:180-208 | One retention pass over source texts, audit rows and events is one atomic step, and reports how many rows each statement changed |
| `MemoryStore.MemoryStore.constructor` | crates/mega-store/migrations/0001_memory.sql:1-223 | A new store is empty and satisfies the invariant |
| `MemoryStore.Transaction.MutateByPlan` | crates/mega-store/src/memory_repo.rs:284-398 | The statements of each plan kind have the specified effect together, or fail with the specified error |
| `MemoryStore.Transaction.InsertCandidate` | crates/mega-store/src/memory_repo.rs:1095-1149 | The inserts of a candidate, key by key, succeed exactly when the specification accepts it and then leave the specified rows |
| `MemoryStore.Transaction.InsertManual` | crates/mega-store/src/memory_repo.rs:1053-1093 | The inserts of a manual memory, likewise |
| `MemoryStore.Transaction.SweepSources` | crates/mega-store/src/memory_repo.rs:630-641 | Deleting unlinked sources one at a time, in any order, equals deleting them all, and fails exactly when an alias cites one |
| `MemoryStore.Transaction.LinkSupport` | crates/mega-store/src/memory_repo.rs:308-310 | The insert-or-ignore loop adds exactly the missing links |
| `MemoryStore.Transaction.EnqueueProjectionRefresh` | crates/mega-store/src/operations_repo.rs:270-286 | Both refresh jobs are raised to at least the given revision |
| `MemoryStore.Transaction.RecordEvent` | crates/mega-store/src/operations_repo.rs:288-307 | An event is recorded exactly for a valid correlation id |
| `MemoryStore.InsertKeyed` | crates/mega-store/migrations/0001_memory.sql:99-146 | Rows inserted one by one under a composite key succeed exactly when no item repeats |
| `MemoryStore.InsertCategories` | crates/mega-store/src/memory_repo.rs:1029-1051 | Category rows are exactly the named ones, or `uncategorized` for none, and fail exactly on an unknown slug |
| `StoreEffects.PlanRecordsCandidate` | crates/mega-store/src/memory_repo.rs:284-427 | An applied plan's reply names the new row, which holds every part of the candidate with the planned status and exactly its sources; both projections will be refreshed, and no other row changes but an updated one |
| `StoreEffects.DuplicateAddsSupport` | crates/mega-store/src/memory_repo.rs:300-320 | An applied duplicate links its memory to the further sources, never lowers its confidence and changes nothing else of it |
| `StoreEffects.ManualRecordsInput` | crates/mega-store/src/memory_repo.rs:1053-1093 | A manual memory holds everything the user entered, is active and indexed, and rests on no source |
| `StoreEffects.RetentionSettles` | crates/mega-store/src/operations_repo.rs:180-208 | A retention pass leaves nothing for a pass of the same or an earlier time to do |
| `RetentionLaws.RetentionExactly` | crates/mega-store/src/operations_repo.rs:180-199 | One pass empties exactly the texts of sources that ended more than the source days before it, and removes exactly the ignored and reviewed audit rows without a memory that are older than the audit days; times stay, nothing else changes, and periods too long for 64 bits count as the longest there is |
| `RetentionLaws.KeptPositions` | crates/mega-store/src/operations_repo.rs:200-203 | The events a pass keeps are those at the increasing positions of exactly the ones not older than the audit days: in order and with their multiplicity |
| `RetentionLaws.EventsExactly` | crates/mega-store/src/operations_repo.rs:200-203 | The same of the event table after a pass |
| `RetentionLaws.AuditPeriodSparesSources` | crates/mega-store/src/operations_repo.rs:184-191 | Stores that differ only in their audit days keep the same sources |
| `RetentionLaws.TenDaysAreKept` | crates/mega-store/migrations/0002_operations.sql:49-50 | At the default periods a text ten days old stays |
| `PlanLaws.PlanAnswer` | crates/mega-store/src/memory_repo.rs:264-427 | What a plan is answered, by the first guard that fails: bounds, confidence ceilings, references, categories, the audit row of its key, the target's status and trust, repeated keys, the run id; refusals and retries leave the store as it is, and a retry repeats its audit row |
| `PlanLaws.PlanExactly` | crates/mega-store/src/memory_repo.rs:284-427 | Every table after an applied plan with a candidate, for each kind of plan: the new row with its status and first revision, an updated row retired at its old revision, search documents, the relation, exactly the candidate's source links, the audit row with its outcome, both jobs raised, and the event |
| `PlanLaws.DuplicateExactly` | crates/mega-store/src/memory_repo.rs:300-321 | Every table after a duplicate: the greater confidence and a raised revision on the one row, the further source links, its jobs, audit row and event |
| `PlanLaws.IgnoreExactly` | crates/mega-store/src/memory_repo.rs:384-398 | An ignored plan leaves its audit row and its event and nothing else |
| `PlanLaws.BadPlanExactly` | crates/mega-store/src/memory_repo.rs:900-1002 | Validation refuses exactly a candidate, duplicate or reason outside the written bounds or with an unknown reference, and then one with an unknown category |
| `EditLaws.CreateAnswer` | crates/mega-store/src/memory_repo.rs:240-262 | What a memory made by hand is answered, by the first guard that fails: content, importance, category count, scope key, validity interval, known categories, known and distinct apps, correlation id |
| `EditLaws.CreateExactly` | crates/mega-store/src/memory_repo.rs:240-262 | Every table after a memory is made by hand |
| `EditLaws.EditAnswer` | crates/mega-store/src/memory_repo.rs:429-462 | What an edit is answered, by the first guard that fails, with both revisions of a conflict |
| `EditLaws.EditExactly` | crates/mega-store/src/memory_repo.rs:446-486 | Every table after an edit: the replacement and its document, the retired row under the same new revision without one, the relation, the jobs and the event |
| `EditLaws.ReviewAnswer` | crates/mega-store/src/operations_repo.rs:110-178 | Confirming and rejecting are answered alike: not found, a conflict with both revisions, or invalid exactly for a memory not pending or a bad correlation id |
| `EditLaws.ConfirmExactly` | crates/mega-store/src/operations_repo.rs:110-140 | Every table after a confirmation |
| `EditLaws.RejectExactly` | crates/mega-store/src/operations_repo.rs:142-178 | Every table after a rejection |
| `EditLaws.DeleteAnswer` | crates/mega-store/src/memory_repo.rs:592-660 | What either deletion is answered; a permanent one is refused also exactly while an alias cites a source that is this memory's alone |
| `EditLaws.ForgetExactly` | crates/mega-store/src/memory_repo.rs:592-620 | Every table after a forget: the row stays as forgotten, and its document, embedding, both jobs and exactly the profiles it appears in go |
| `EditLaws.PermanentExactly` | crates/mega-store/src/memory_repo.rs:621-660 | The tables after a permanent delete beside its evidence: audit rows lose only the reference, the tombstone keeps the greatest revision, and exactly the profiles it appears in go |
| `EditLaws.AppearsExactly` | crates/mega-store/src/memory_repo.rs:1216-1264 | Invalidation takes exactly the projections of a memory's scope, of the apps it applies to, of its categories and those above them, and of its entities |
| `EditLaws.PutExactly` | crates/mega-store/src/profile_repo.rs:39-73 | A profile is stored exactly under a bounded key, a valid correlation id and a revision no lower than the stored one |
| `EditLaws.EmbedExactly` | crates/mega-store/src/embedding_repo.rs:22-53 | An embedding is stored exactly for an active memory and settles its job unless that wants a later revision |
| `EditLaws.SourceExactly` | crates/mega-store/src/source_repo.rs:92-138 | A source is stored once, with ordered times and a bounded text, and never overwritten |
| `EditLaws.SegmentExactly` | crates/mega-store/src/source_repo.rs:140-181 | A segment is stored once, naming between one and a thousand known sources, each once |
| `EditLaws.CiteExactly` | crates/mega-store/src/entity_repo.rs:25-70 | Only a known source can be cited by an alias, and citing changes nothing else |
| `Profiles.InvalidationExact` | crates/mega-store/src/memory_repo.rs:1220-1262 | The deletion condition of the invalidation statement holds for a stored profile exactly when the memory belongs to that projection |
| `Profiles.BuildProfile` | crates/mega-memory/src/profile.rs:33-76 | The loop builds the specified profile |
| `Profiles.ProfileContents` | crates/mega-memory/src/profile.rs:33-76 | A profile lists exactly the active memories of its projection, durable kinds apart from current ones; their order is the next row's |
| `Profiles.ProfileInRankOrder` | crates/mega-memory/src/profile.rs:45-70 | Each section holds exactly the active memories of the projection of its kinds, each once for each time it was listed, with id, content and last update: the more important first, then the more confident, the later updated and the smaller id |
| `Profiles.ProfileIgnoresListingOrder` | crates/mega-memory/src/profile.rs:45-58 | The profile does not depend on the order in which memories were listed |
| `Profiles.BuiltProfilesAreCurrent` | crates/mega-memory/src/profile.rs:33-76 | A profile built from the store lists only active memories of its projection |
| `Profiles.ForgottenLeavesNoTrace` | crates/mega-store/src/memory_repo.rs:1196-1264 | After any run whose profiles were built from the store as it was or once had been, and whose accepted ones listed only memories then present and not forgotten, a forgotten memory is in no document, embedding, refresh job or profile, and every profile lists only memories of its projection |
| `Profiles.DeletedLeavesNoTrace` | crates/mega-store/src/memory_repo.rs:621-660 | The same for a memory that no longer exists, but for its refresh jobs: no document, embedding or profile names it |
| `Profiles.DeleteKeepsOtherProfiles` | crates/mega-store/src/memory_repo.rs:1220-1262 | A forget and a permanent delete keep exactly the stored profiles whose projection the memory does not belong to |
| `Profiles.PutCleanExactly` | crates/mega-store/src/profile_repo.rs:39-73 | Storing a profile built now or earlier keeps the stored profiles clean exactly when it is refused or every memory it lists still exists and was not forgotten |
| `Profiles.StaleProfileExactly` | crates/mega-store/src/profile_repo.rs:39-73 | For a listing taken before any run and stored after it: clean exactly when the put is refused or every included listed memory still exists and was not forgotten |
| `Profiles.AlwaysCleanExactly` | crates/mega-store/src/profile_repo.rs:39-73 | Over a whole run the stored profiles stay clean throughout exactly when every accepted put spares forgotten and deleted memories |
| `Profiles.RunClean` | crates/mega-store/src/memory_repo.rs:1196-1264 | Over such a run stored profiles, embeddings and the refresh jobs of existing memories stay free of forgotten memories |
| `Profiles.StaleProfileResurrects` | crates/mega-store/src/profile_repo.rs:39-73 | The failing case: a profile built before a forget is stored after it, since the revision that would have refused it went with the row |
| `ExtractionQueue.RunConserves` | crates/mega-store/src/queue_repo.rs:91-257 | Under any interleaving of workers, clocks, pauses and deletions: a job's attempts are its claims, and equal failures plus expiries plus completions plus the one running; pending jobs have attempts left; a lease exists exactly while running |
| `ExtractionQueue.StepKeepsLedger` | crates/mega-store/src/queue_repo.rs:47-257 | Every single operation keeps that account for every job |
| `ExtractionQueue.RunTerminates` | crates/mega-store/src/queue_repo.rs:105-117 | A job's row changes at most six times in any run, and every change lowers a measure of attempts left |
| `ExtractionQueue.StepProgresses` | crates/mega-store/src/queue_repo.rs:105-133 | Any change of a row lowers the measure, leaves its segment and creation time, and never changes a terminal row |
| `ExtractionQueue.TerminalForGood` | crates/mega-store/src/queue_repo.rs:91-257 | A completed job, or one needing attention, keeps its row for as long as it exists |
| `ExtractionQueue.SettledByLatestClaim` | crates/mega-store/src/queue_repo.rs:317-331 | A completion or failure is accepted only from the worker that made the job's latest claim, before that lease ran out, with nothing having happened to the job in between |
| `ExtractionQueue.RunningIsGranted` | crates/mega-store/src/queue_repo.rs:118-133 | A running job's owner and expiry are those of its latest claim |
| `ExtractionQueue.RunMirrors` | crates/mega-store/src/queue_repo.rs:189-192 | A segment is marked completed exactly when its job completed, and as needing attention only with its job; a job whose segment is not marked carries the error code of an exhausted lease, a code a worker may report as well |
| `ExtractionQueue.ClaimAgreesExactly` | crates/mega-store/src/queue_repo.rs:91-120 | A claim on a queue whose jobs and segments agree about needing attention leaves them agreeing exactly when no job with three attempts has a lapsed lease |
| `ExtractionQueue.RunDisagreesExactly` | crates/mega-store/src/queue_repo.rs:91-257 | At the end of any run a job and its segment disagree exactly when some claim of the run met that job with three attempts and a lapsed lease |
| `ExtractionQueue.ExhaustionIsNotMirrored` | crates/mega-store/src/queue_repo.rs:105-110 | The failing case: a third lease that runs out retires the job and leaves its segment unmarked |
| `ExtractionQueue.JobTable.EnqueueExtraction` | crates/mega-store/src/queue_repo.rs:47-89 | Enqueuing is idempotent per segment and fails exactly for bad input |
| `ExtractionQueue.JobTable.ClaimExtraction` | crates/mega-store/src/queue_repo.rs:91-148 | A claim expires lapsed leases, then grants a first due pending job; it yields none exactly when paused or nothing is claimable, and an overflowing lease rolls everything back |
| `ExtractionQueue.JobTable.SelectFirst` | crates/mega-store/src/queue_repo.rs:122-125 | The selected job is due no later than every other claimable job, and none is selected only when none is claimable |
| `ExtractionQueue.JobTable.ExpireLeases` | crates/mega-store/src/queue_repo.rs:105-117 | The two expiry statements together take back exactly the lapsed leases |
| `ExtractionQueue.JobTable.CompleteExtraction` | crates/mega-store/src/queue_repo.rs:150-204 | Completion by the lease holder settles job and segment; every other call changes nothing and says why |
| `ExtractionQueue.JobTable.FailExtraction` | crates/mega-store/src/queue_repo.rs:206-257 | Failure by the lease holder returns the job to pending, due at the given retry time, or retires it after three attempts, and keeps the error code; every other call changes nothing |
| `ExtractionQueue.JobTable.SetExtractionPaused` | crates/mega-store/src/operations_repo.rs:75-81 | The pause switch changes nothing but itself |
| `QueueLaws.FailedJobWaits` | crates/mega-store/src/queue_repo.rs:219-246 | Over any run: from an accepted failure with attempts left, for as long as no request touches the job, its row keeps the reported code, no claim takes it before the reported retry time, and from then on it is available |
| `QueueLaws.RowToldByLast` | crates/mega-store/src/queue_repo.rs:47-257 | Over any run a job's row is told by the last request that touched it, from that request and the row before |
| `QueueLaws.RowStays` | crates/mega-store/src/queue_repo.rs:47-257 | A row stays as it is through every request that does not touch its job |
| `QueueLaws.ClaimExactly` | crates/mega-store/src/queue_repo.rs:91-148 | Which claims are refused, which job a claim hands out and with what lease, which lapsed leases it takes back, and that every other row stays |
| `QueueLaws.ClaimNeedsAvailable` | crates/mega-store/src/queue_repo.rs:118-133 | A claim takes only a job that is pending and due, or whose lease ran out, with attempts left |
| `QueueLaws.FailureExactly` | crates/mega-store/src/queue_repo.rs:206-257 | When a failure is accepted, and then the whole row and the segment's |
| `QueueLaws.CompletionExactly` | crates/mega-store/src/queue_repo.rs:150-204 | When a completion is accepted, and then the whole row and the segment's |
| `QueueLaws.EnqueueExactly` | crates/mega-store/src/queue_repo.rs:47-89 | When a segment is enqueued, and the whole new row |
| `QueueLaws.SegmentsExactly` | crates/mega-store/src/source_repo.rs:140-181 | The pause switch and the segments touch no job, except that a dropped segment takes its jobs with it |
| `QueueLaws.MayBeHandedOut` | crates/mega-store/src/queue_repo.rs:122-125 | The selection leaves ties open: any available job that no other comes before may be handed out |
| `QueueLaws.ErrorCodes` | crates/mega-store/src/queue_repo.rs:303-315 | An error code is one to 64 lower-case letters, digits, underscores, hyphens and full stops |
| `Segmentation.SessionIsPartition` | crates/mega-memory/src/segmentation.rs:77-118 | Over any session the drafts are those of the one partition of the accepted events at the declared boundaries |
| `Segmentation.PartitionUnique` | crates/mega-memory/src/segmentation.rs:168-182 | There is at most one such partition |
| `Segmentation.PartitionExists` | crates/mega-memory/src/segmentation.rs:168-182 | There is one |
| `Segmentation.SessionDraftsSound` | crates/mega-memory/src/segmentation.rs:77-118 | Every draft has one app and scope, gaps under 90 seconds, a span under 15 minutes unless it holds one event, and aligned, distinct, bounded ids and texts in order of first appearance |
| `Segmentation.AcceptedInOrder` | crates/mega-memory/src/segmentation.rs:78-85 | Accepted events are well-formed and never overlap |
| `Segmentation.ActivitySegmenter.Admit` | crates/mega-memory/src/segmentation.rs:78-101 | One admission has the specified effect; a rejected input changes nothing |
| `Segmentation.ActivitySegmenter.Close` | crates/mega-memory/src/segmentation.rs:103-118 | Closing yields the open segment's draft and leaves none open |
| `Segmentation.RefusedExactly` | crates/mega-memory/src/segmentation.rs:77-85 | An event is refused exactly when it ends before it starts, holds more than 12,000 characters, or starts before the open segment ended, and then changes nothing |
| `Segmentation.AdmittedExactly` | crates/mega-memory/src/segmentation.rs:86-101 | An accepted event joins exactly when app and scope agree, it starts under 90 seconds after the segment and ends under 15 minutes from its start; otherwise the first of these that fails is the draft's reason and the event opens its own segment |
| `Text.NormalizeSound` | crates/mega-memory/src/segmentation.rs:184-186 | Normalising never lengthens a text, keeps its non-white characters in order, leaves it single-spaced and is idempotent |
| `Text.NormalizeApart` | crates/mega-memory/src/segmentation.rs:184-186 | Normalising keeps a word as it is and puts one space in place of any whitespace between two words, which determines it on every text |
| `Text.WhitespaceExactly` | crates/mega-memory/src/segmentation.rs:184-186 | Whitespace is the Unicode property White_Space, by code point |
| `Text.BlankExactly` | crates/mega-store/src/memory_repo.rs:889-891 | A text is blank exactly when normalising leaves nothing of it |
| `Packing.SplitExtractionBatches` | crates/mega-memory/src/segmentation.rs:134-156 | The loop yields the next-fit packing, failing exactly when a text is over the bound |
| `Packing.LoadExtractionBatches` | crates/mega-store/src/source_repo.rs:190-248 | The batches of a segment are the next-fit packing of its sources with remaining text, by start and id, with ids and texts kept together; it fails exactly when one text is too long |
| `Packing.EvidenceUnique` | crates/mega-store/src/source_repo.rs:195-207 | The evidence of a segment, and its order, is determined by the database |
| `Packing.EvidenceExactly` | crates/mega-store/src/source_repo.rs:195-199 | The evidence of a segment is the sources it names whose text was not expired, as they are stored, by start and then by id |
| `Packing.PackRows` | crates/mega-store/src/source_repo.rs:208-232 | The packing loop yields the next-fit packing of its rows |
| `Packing.StoredEvidenceLoads` | crates/mega-store/src/source_repo.rs:254-258 | After any run no stored text is over the bound, so the evidence of every segment packs: with `LoadExtractionBatches`, loading never fails |
| `Packing.NextFitUnique` | crates/mega-memory/src/segmentation.rs:134-156 | Next fit is determined by the items, so both packers can only agree |
| `Packing.NextFitBound` | crates/mega-memory/src/segmentation.rs:134-156 | Two consecutive batches exceed one capacity: half the batches times 12,001 is at most the total |
| `Packing.SplitDraft` | crates/mega-memory/src/segmentation.rs:134-156 | Splitting a draft of the segmenter always succeeds |
| `Packing.LoadedBatchValid` | crates/mega-memory/src/extraction.rs:23-33 | A packed batch passes validation exactly when its characters plus the newlines between its texts fit the bound |
| `Packing.PackedButRefused` | crates/mega-store/src/source_repo.rs:240-247 | Two texts of 6,000 characters are packed together and then refused |
| `Rendering.EscapeXmlIsEscape` | crates/mega-memory/src/retrieval.rs:241-248 | The five chained replacements equal one per-character pass |
| `Rendering.UnescapeEscape` | crates/mega-memory/src/retrieval.rs:241-248 | Unescaping the predefined entities undoes escaping |
| `Rendering.ReadItemBack` | crates/mega-memory/src/retrieval.rs:197-210 | A rendered line is read back as its item, and the reader stops where the line ends |
| `Rendering.ReadBlockBack` | crates/mega-memory/src/retrieval.rs:172-195 | Reading a rendered block returns exactly its items, in order, with ids, scopes and contents |
| `Rendering.WithinBudget` | crates/mega-memory/src/retrieval.rs:172-195 | The block never exceeds the budget in UTF-8 bytes |
| `Rendering.TakenExactly` | crates/mega-memory/src/retrieval.rs:172-195 | The next item is taken exactly when the whole block with it still fits the budget, counted in the bytes of its UTF-8 encoding |
| `Rendering.LineExactly` | crates/mega-memory/src/retrieval.rs:197-210 | The whole line of an item, its free texts escaped character by character |
| `Rendering.RenderMemoryContext` | crates/mega-memory/src/retrieval.rs:172-195 | The loop renders exactly the items whose line still fits after the lines before it, and nothing when the frame alone is too long |
| `IncludedIds.IncludedAreChosen` | crates/mega-store/src/context_repo.rs:179-185 | For distinct ids over letters, digits and hyphens, the ids recovered from the text are exactly those of the chosen items, in order |
| `IncludedIds.FoundIsRendered` | crates/mega-store/src/context_repo.rs:179-185 | The id pattern occurs in a block exactly when one of its items has that id |
| `IncludedIds.BlockShows` | crates/mega-memory/src/retrieval.rs:197-210 | No escaped content, scope or attribute value can imitate an id attribute |
| `ContextAssembly.AddSearchResults` | crates/mega-store/src/context_repo.rs:156-177 | The merging loop folds the results one by one |
| `ContextAssembly.GatherSummarises` | crates/mega-store/src/context_repo.rs:156-177 | A candidate exists exactly for each id some search found, with the best relevance and any alias match of those searches |
| `ContextAssembly.GatherIgnoresOrder` | crates/mega-store/src/context_repo.rs:156-177 | Batches that read the same rows merge into the same candidates in any order |
| `ContextAssembly.CandidatesIgnoreSearchOrder` | crates/mega-store/src/context_repo.rs:28-112 | The candidates of a request do not depend on the order of its searches |
| `ContextAssembly.RankingIgnoresSearchOrder` | crates/mega-store/src/context_repo.rs:28-112 | Nor does the ranking, whatever order the candidates are then listed in |
| `ContextAssembly.Search` | crates/mega-store/src/memory_repo.rs:499-590 | A search returns the newest matching rows, at most its limit, each once; whatever matches and is left out is no newer; it fails exactly for an invalid filter |
| `ContextAssembly.EligibleIsRanked` | crates/mega-store/src/context_repo.rs:28-112 | A row is ranked exactly when a search found it and it is eligible; an eligible row none found was cut off by a full search whose rows are at least as new |
| `ContextAssembly.FoundBounds` | crates/mega-store/src/memory_repo.rs:544-590 | Any row a search returns matches and has fewer newer matches than the limit; any match it leaves out has at least as many others no older |
| `ContextAssembly.MissingBounds` | crates/mega-store/src/context_repo.rs:28-112 | Any row outnumbered by newer matches in every search it matches is no candidate, and any row that is none has as many others no older in each |
| `ContextAssembly.FoundExactly` | crates/mega-store/src/memory_repo.rs:544-590 | For a row updated at its own time the bounds meet: it is in a search's result exactly when it matches and fewer newer rows do than the limit |
| `ContextAssembly.MissingExactly` | crates/mega-store/src/context_repo.rs:28-112 | For a row updated at its own time the bounds meet: it is no candidate exactly when every search of the request it matches has as many newer matches as it returns |
| `ContextAssembly.FullSearchHides` | crates/mega-store/src/context_repo.rs:84-93 | The failing case: of 201 global notes a request with no app, project, query or mention misses the oldest, eligible as it is |
| `ContextAssembly.EligibleMatches` | crates/mega-store/src/context_repo.rs:28-93 | Every memory the ranking would admit matches one of the request's searches |
| `ContextAssembly.CandidatesStored` | crates/mega-store/src/context_repo.rs:156-177 | Every candidate is a stored row as it is stored, with a status the searches show |
| `ContextAssembly.DecisionsFirst` | crates/mega-store/src/context_repo.rs:28-110 | In the ranking of a request's candidates every exact project decision comes before every other memory, since no search supplies a similarity |
| `ContextAssembly.ShownAreEligible` | crates/mega-store/src/context_repo.rs:110-118 | Every reported id and every shown item is a stored memory that may be shown, field by field: sensitivity within the allowance, applicable to the current app, a scope key equal to the request's or a mentioned entity, and a status the request asks for; it is shown with its own content |
| `ContextAssembly.FoundAreRanked` | crates/mega-store/src/context_repo.rs:110-118 | The converse: every found row that may be shown, field by field, is ranked |
| `ContextAssembly.ShownSay` | crates/mega-memory/src/retrieval.rs:197-210 | Every shown item says of its memory its kind, its scope, how it was asserted with its confidence, and when it was last updated |
| `ContextAssembly.DecimalExactly` | crates/mega-memory/src/retrieval.rs:197-210 | A timestamp is written in decimal: a sign for a negative one, no leading zeros, and digits that read as it |
| `ContextAssembly.SearchesMean` | crates/mega-store/src/memory_repo.rs:527-573 | What a search of a context request matches, by the row's scope and status |
| `ContextAssembly.QueriesExactly` | crates/mega-store/src/context_repo.rs:28-93 | The searches of a request: one global, one for its app and project each, one for each mentioned entity and one for its text, each with its limit, its statuses and the signals its hits carry |
| `ContextAssembly.LongQueryRefused` | crates/mega-store/src/memory_repo.rs:127-135 | The failing case: a query of 501 letters passes the request's own bound and is refused by its search |
| `ContextAssembly.AssembleContext` | crates/mega-store/src/context_repo.rs:19-139 | The assembly runs the request's searches over the stored rows, is within budget, reads back as the chosen items and reports exactly their ids, each of a stored memory eligible for the request; it succeeds exactly for a bounded request with a usable correlation id whose query is blank or at most 500 characters, and never fails for its budget |
| `Ranking.RankedSorted` | crates/mega-memory/src/retrieval.rs:56-77 | The ranking is a strictly sorted permutation of the scored eligible candidates |
| `Ranking.RankedIgnoresArrival` | crates/mega-memory/src/retrieval.rs:56-77 | The ranking does not depend on the order of retrieval |
| `Ranking.RankMemories` | crates/mega-memory/src/retrieval.rs:56-77 | The filtering and scoring loop followed by the sort yields that ranking; what a feature is worth and who is admitted is stated by the rows below |
| `Ranking.ScoreBounds` | crates/mega-memory/src/retrieval.rs:123-170 | Every score lies between 0 and 8.5 |
| `Ranking.DecisionOutranks` | crates/mega-memory/src/retrieval.rs:147-169 | An exact project decision outranks another memory exactly unless it has no boost of its own, the other has all three, and the other's blended score is at least half a point above |
| `Ranking.DecisionNeedsSimilarity` | crates/mega-memory/src/retrieval.rs:123-169 | It yields only to a memory whose similarity is at least a quarter |
| `Ranking.DecisionCanLose` | crates/mega-memory/src/retrieval.rs:123-169 | The exception at full similarity and freshness, which the ranking accepts but context assembly never supplies: a preference scores 4.5 against a decision's 4.2 |
| `RankingLaws.EligibleExactly` | crates/mega-memory/src/retrieval.rs:79-121 | A memory is admitted exactly if its sensitivity, apps, scope and status fit the request, field by field |
| `RankingLaws.RankedExactly` | crates/mega-memory/src/retrieval.rs:56-69 | The ranking holds exactly the admissible candidates, each as often as it was retrieved |
| `RankingLaws.RankedInOrder` | crates/mega-memory/src/retrieval.rs:70-76 | Of two ranked candidates the earlier one scores more or, with the same score, was updated later or, at the same time, has the smaller id |
| `RankingLaws.HigherScoreFirst` | crates/mega-memory/src/retrieval.rs:70-76 | Of two admissible candidates the one that scores more stands before the other |
| `RankingLaws.ScoreSum` | crates/mega-memory/src/retrieval.rs:123-170 | A score is the sum of its parts, each worth its stated number of points over field values |
| `RankingLaws.AppMatchWorth` | crates/mega-memory/src/retrieval.rs:152-167 | Between candidates alike in the rest, a match of the current app is worth exactly 2 points |
| `RankingLaws.EntityMatchWorth` | crates/mega-memory/src/retrieval.rs:156-168 | A match of a mentioned entity is worth exactly 1 point |
| `RankingLaws.TrustWorth` | crates/mega-memory/src/retrieval.rs:161-169 | A manual or explicit assertion is worth half a point beyond its share of the blend |
| `RankingLaws.DecisionWorth` | crates/mega-memory/src/retrieval.rs:149-166 | An exact project decision is worth exactly 4 points |
| `RankingLaws.SignalsWorth` | crates/mega-memory/src/retrieval.rs:142-147 | Similarity, text relevance and freshness each add their weight times their difference |
| `RankingLaws.ImportanceWorth` | crates/mega-memory/src/retrieval.rs:142-147 | Importance and confidence do so too |
| `RankingLaws.ScopeWorth` | crates/mega-memory/src/retrieval.rs:123-147 | And so does how near the scope is |
| `RankingLaws.AppBeforeEntity` | crates/mega-memory/src/retrieval.rs:56-170 | Of two admissible candidates alike but for these matches, the one that matches the current app comes before the one that matches an entity |
| `Sorting.SortIgnoresArrival` | crates/mega-memory/src/retrieval.rs:70-76 | Sorting values that do not tie gives one result whatever order they arrive in |
| `Sorting.SortSorted` | crates/mega-memory/src/retrieval.rs:70-76 | The result of sorting is sorted |
| `AccessibilityNumbering.AgreementExact` | crates/stalky-accessibility/src/native.rs:566-596 | The handle and bindings stored for `e{i}` are those of the node numbered `i`, for all nodes, exactly when in the traversal's own visit log no element failed to be read before one that was |
| `AccessibilityNumbering.NoFailureAgrees` | crates/stalky-accessibility/src/native.rs:687-762 | When no read fails, handles, bindings and nodes are the same elements in the same order |
| `AccessibilityNumbering.FailedSiblingShifts` | crates/stalky-accessibility/src/native.rs:728-745 | One failed child shifts the numbering: node 1 shows the second child while handle 1 is the first |
| `AccessibilityNumbering.SnapshotNumbers` | crates/stalky-accessibility/src/normalizer.rs:58-101 | The normaliser keeps every raw node and numbers them in preorder; the raw tree is the readable part of the visit log |
| `AccessibilityNumbering.SnapshotIsSafe` | crates/stalky-accessibility/src/normalizer.rs:79-114 | No node carries the value of a secure field, and every text is bounded and free of control characters |
| `AccessibilityNumbering.ReadLogs` | crates/stalky-accessibility/src/native.rs:687-762 | Reading logs each element once, within the node bound, and the raw tree is what the world shows of the readable ones |
| `AccessibilityNumbering.NormalizeNumbers` | crates/stalky-accessibility/src/normalizer.rs:58-101 | A raw tree within the bounds is normalised whole, with consecutive ids |
| `AccessibilityNumbering.RefreshSnapshot` | crates/stalky-accessibility/src/native.rs:566-596 | The zip loop stores the specified entries |
| `Accessibility.ReadContext.ReadElement` | crates/stalky-accessibility/src/native.rs:687-762 | The recursive traversal has the specified effect on its context and result |
| `Accessibility.NormalizeContext.Visit` | crates/stalky-accessibility/src/normalizer.rs:58-101 | The recursive normaliser has the specified effect on its context and result |
| `Accessibility.CleanSound` | crates/stalky-accessibility/src/normalizer.rs:104-114 | Cleaned text has no control character but tabs and is never longer |
| `Accessibility.CutStays` | crates/stalky-accessibility/src/normalizer.rs:67-74 | After a refused child the remaining children are not looked at |
| `AccessibilityNumbering.SnapshotShowsElements` | crates/stalky-accessibility/src/normalizer.rs:79-100 | Every node shows its element's attributes, each in its place, secure values excepted |
| `AccessibilityNumbering.TruncatedExactly` | crates/stalky-accessibility/src/native.rs:726-745 | A node is marked truncated exactly when one of the first 128 children of its element is missing, so every child is shown exactly when it is not marked and the element has no more than 128: a wider one is cut without a mark |
| `AccessibilityNumbering.WideElementUnmarked` | crates/stalky-accessibility/src/native.rs:728-745 | The failing case: of any element with more than 128 readable children exactly 128 are read and the node is not marked |
| `Accessibility.VisitExactly` | crates/stalky-accessibility/src/native.rs:694-709 | A visit passes an element over exactly when the time, the depth of 16 or the 512 nodes are spent or it was seen before, and otherwise fails exactly when its attributes do |
| `Accessibility.ReadPortrays` | crates/stalky-accessibility/src/native.rs:687-762 | Every raw node of a read holds its element's attributes and its readable children in their order |
| `Accessibility.NormalizeExactly` | crates/stalky-accessibility/src/normalizer.rs:58-101 | The normaliser refuses exactly a node beyond its bounds or met before, and gives every other one the next number |
| `Accessibility.CleanExactly` | crates/stalky-accessibility/src/normalizer.rs:104-114 | Cleaning works character by character: a newline becomes a space, tabs stay, and the other control codes go |
| `EventBus.RunKeeps` | crates/mega-runtime/src/event_bus.rs:80-163 | Over every interleaving of publishing, closing, checking and waiting no wake-up is lost and accepted items are conserved in order |
| `EventBus.ReachableQueue` | crates/mega-runtime/src/event_bus.rs:140-155 | A blocked receiver waits on an empty open queue; accepted items are delivered, pushed out or queued; without pushing out, delivery is exact and in order |
| `EventBus.ReceiverProgresses` | crates/mega-runtime/src/event_bus.rs:140-155 | A receiver with something to receive gets it in at most two of its own steps |
| `EventBus.BoundedQueue.Send` | crates/mega-runtime/src/event_bus.rs:81-109 | Publishing has the specified outcome for each overflow policy and keeps the invariant |
| `EventBus.BoundedQueue.Shut` | crates/mega-runtime/src/event_bus.rs:111-119 | Closing wakes or permits the receiver and keeps the invariant |
| `EventBus.BoundedQueue.Poll` | crates/mega-runtime/src/event_bus.rs:141-152 | The locked part of a receive pops the oldest item, ends, or arms the wait |
| `EventBus.BoundedQueue.Notified` | crates/mega-runtime/src/event_bus.rs:153-154 | Waiting consumes a kept permit at once |
| `EventBus.OpenQueue` | crates/mega-runtime/src/event_bus.rs:54-78 | A queue is opened exactly for a positive capacity |
| `EventBus.PublishExactly` | crates/mega-runtime/src/event_bus.rs:81-109 | What publishing does in every case, field by field: the outcome, which item enters, which one it pushes out, the counters and the wake-up |
| `EventBus.ReceiveExactly` | crates/mega-runtime/src/event_bus.rs:111-155 | What checking, waiting and closing do in every case, field by field |
| `EventBus.TakeExactly` | crates/mega-runtime/src/event_bus.rs:140-155 | The receiver checks only from outside the wait or once woken, and waits only when armed |
| `SessionLifecycle.SignedOutForGood` | apps/mega-desktop/src-tauri/src/auth.rs:211-227 | After a sign-out that deleted the session, whatever was in flight and whatever follows, a stored session comes from a login whose snapshot came after that sign-out began (fewer than 2^64 sign-outs) |
| `SessionLifecycle.LoginStoresExactly` | apps/mega-desktop/src-tauri/src/auth.rs:307-313 | A finishing login stores its session exactly when the sign-outs since its snapshot are a multiple of 2^64 |
| `SessionLifecycle.WrappedLoginStores` | apps/mega-desktop/src-tauri/src/auth.rs:171-177 | The wrap: after exactly 2^64 sign-outs an old login is stored |
| `SessionLifecycle.RunSince` | apps/mega-desktop/src-tauri/src/auth.rs:241-319 | No step of any run brings back a session from before a given sign-out |
| `SessionLifecycle.StoredExactly` | apps/mega-desktop/src-tauri/src/auth.rs:211-319 | The stored session changes exactly by a login whose snapshot still holds, a refresh, a refusal for good, or the end of a sign-out |
| `SessionLifecycle.SessionStays` | apps/mega-desktop/src-tauri/src/auth.rs:211-319 | Over any run a session stays in use until a step stores another or removes it |
| `SessionLifecycle.LoginExactly` | apps/mega-desktop/src-tauri/src/auth.rs:180-319 | A login advances one phase at a time, each by its own step |
| `SessionLifecycle.SignOutExactly` | apps/mega-desktop/src-tauri/src/auth.rs:211-227 | The generation moves exactly once for each sign-out that begins while none is under way |
| `SessionLifecycle.SessionKeeper.StoreLogin` | apps/mega-desktop/src-tauri/src/auth.rs:307-318 | The login is cancelled exactly when a sign-out began since its snapshot |
| `SessionLifecycle.SessionKeeper.Begin` | apps/mega-desktop/src-tauri/src/auth.rs:180-193 | At most one login is in progress |
| `SessionLifecycle.SessionKeeper.Snapshot` | apps/mega-desktop/src-tauri/src/auth.rs:271-273 | The snapshot is the generation at that time |
| `SessionLifecycle.SessionKeeper.SignOutInvalidate` | apps/mega-desktop/src-tauri/src/auth.rs:211-214 | The first half of a sign-out moves the generation under the lock |
| `SessionLifecycle.SessionKeeper.SignOutDelete` | apps/mega-desktop/src-tauri/src/auth.rs:215-220 | The second half removes the session, or leaves it when the deletion fails |
| `SessionLifecycle.SessionKeeper.AccessToken` | apps/mega-desktop/src-tauri/src/auth.rs:241-269 | A returned token is the stored session's; a terminal refresh failure removes the session |
| `PercentCoding.RoundTrip` | apps/mega-desktop/src-tauri/src/auth.rs:71-81 | Decoding undoes encoding for every UTF-8 string |
| `PercentCoding.NestedRoundTrip` | apps/mega-desktop/src-tauri/src/auth.rs:283-290 | The state survives its encoding into the redirect and the redirect's into the authorisation URL |
| `PercentCoding.QueryRoundTrip` | apps/mega-desktop/src-tauri/src/auth.rs:436-461 | A query holding the encoded code and state, in either order and among any other parameters, reads back as exactly that pair |
| `PercentCoding.DecodeValue` | apps/mega-desktop/src-tauri/src/auth.rs:494-517 | The decoding loop computes the specified bytes or fails |
| `PercentCoding.ReadCallbackQuery` | apps/mega-desktop/src-tauri/src/auth.rs:436-461 | The query loop computes the specified pair or the first error |
| `PercentCoding.EncodedIsSafe` | apps/mega-desktop/src-tauri/src/auth.rs:71-81 | An encoded value holds only unreserved characters and percent signs |
| `PercentCoding.EncodeByteExactly` | apps/mega-desktop/src-tauri/src/auth.rs:71-81 | Unreserved characters stand for themselves and every other byte is written with two upper-case digits |
| `PercentCoding.HexExactly` | apps/mega-desktop/src-tauri/src/auth.rs:499-506 | A digit of either case has the value of its place, and nothing else is a digit |
| `PercentCoding.Utf8Exactly` | apps/mega-desktop/src-tauri/src/auth.rs:512-517 | Bytes pass the UTF-8 check exactly when they encode some text |
| `PercentCoding.PartExactly` | apps/mega-desktop/src-tauri/src/auth.rs:436-461 | What each part of a query does: a first code or state is decoded, a second refused, an error denies, one without an equals sign is malformed, and any other is passed over |
| `PercentCoding.StrictExactly` | apps/mega-desktop/src-tauri/src/auth.rs:494-517 | The decoder agrees with the two-digit escapes of RFC 3986 exactly on the inputs it refuses and on those where no plus sign follows a percent sign |
| `PercentCoding.DecodesExactly` | apps/mega-desktop/src-tauri/src/auth.rs:494-511 | The bytes of an input decode exactly when each percent sign is followed by a digit or plus sign and then a digit |
| `PercentCoding.SignedPairDecodes` | apps/mega-desktop/src-tauri/src/auth.rs:499-506 | The failing case: behind a percent and a plus sign any hexadecimal digit is taken, and stands for itself |
| `JwksCache.RunKeeps` | backend/src/auth.rs:143-194 | Over every interleaving of calls: one fetch in flight at most, every served key sound, the cached set is the one fetched last, and every fetch justified when it began |
| `JwksCache.ServedIsYoung` | backend/src/auth.rs:143-166 | A returned key belongs to a set whose fetch began under ten minutes before it was checked, under fifteen on the stale path, or to this call's own fetch |
| `JwksCache.RacersShareOneFetch` | backend/src/auth.rs:168-176 | An unforced fetch begins only when every set fetched before is at least ten minutes old |
| `JwksCache.TakeHistory` | backend/src/auth.rs:177-182 | A forced fetch that finds the cache fresh begins at least thirty seconds after every earlier forced one |
| `JwksCache.TakeKeepsHolder` | backend/src/auth.rs:168-169 | A call has the refresh lock exactly while it rechecks or fetches |
| `JwksCache.StaleOnlyAfterFailure` | backend/src/auth.rs:156-165 | A stale key is served only by a call whose own unforced refresh has just failed |
| `JwksCache.JudgeExactly` | backend/src/auth.rs:143-155 | What a call makes of the set it finds, by its age in milliseconds |
| `JwksCache.RecheckExactly` | backend/src/auth.rs:168-182 | A call that has the lock fetches exactly when the newest set is ten minutes old or missing, or when it forces a refresh and none was forced within thirty seconds; otherwise the newest set answers it |
| `JwksCache.FinishExactly` | backend/src/auth.rs:156-189 | How a fetch ends: the newest set with both deadlines and its call answered from it, or the call falling back on what it had unless it was forced |
| `JwksCache.StepExactly` | backend/src/auth.rs:143-169 | Every other step moves one call on, or the clock |
| `JwksCache.KeyCache.RefreshKeys` | backend/src/auth.rs:168-189 | One refresh answers from a fresh cache or fetches, and stores the set with both deadlines |
| `JwksCache.KeyCache.LookUp` | backend/src/auth.rs:143-189 | One call alone, every case: a fresh set answers for its keys and, while cooling down, refuses the others; otherwise the fetched set answers or refuses, and after a failed fetch a known key of a stale set is served or the failure reported |
| `Frames.CompactRows` | crates/mega-capture/src/frame.rs:76-79 | Every row slice is in bounds; output byte r*4w+c is input byte r*stride+c; the length is 4wh and at most 16 MiB |
| `Frames.CompactFrameIsValid` | crates/mega-capture/src/frame.rs:94-110 | A compacted frame handed back is accepted again |
| `Frames.FrameIngest.IngestFrame` | crates/mega-capture/src/frame.rs:68-92 | An invalid input is counted and changes nothing else; a valid one is compacted and committed |
| `Frames.FrameIngest.IngestOwned` | crates/mega-capture/src/frame.rs:94-110 | The same for a frame already owned, without compaction |
| `Frames.FrameIngest.CommitFrame` | crates/mega-capture/src/frame.rs:112-135 | A frame with the latest digest only renews the timestamp; any other replaces the latest |
| `Frames.CommitCounts` | crates/mega-capture/src/frame.rs:68-135 | Frames taken in equal accepted plus duplicate plus invalid, below 2^64 |
| `Frames.FrameAccepted` | crates/mega-capture/src/frame.rs:181-245 | A frame is taken in exactly if it is complete, 1 to 2,048 pixels a side, with rows of four bytes a pixel, announced and delivered whole within 16 MiB; no overflow check shuts out anything else |
| `Frames.FrameRefused` | crates/mega-capture/src/frame.rs:181-245 | Each refusal names the first guard that fails, and two of the overflows cannot occur |
| `Frames.CommitExactly` | crates/mega-capture/src/frame.rs:112-135 | What taking a frame in does to the latest one and to each counter |
| `Frames.LatestIsFirstAlike` | crates/mega-capture/src/frame.rs:112-135 | Over any series of frames the latest holds the bytes of the first of the last frames that look alike, and the time of the last |
| `CaptureService.StoppedIsEmpty` | crates/mega-capture/src/service.rs:163-265 | In every interleaving of starts, stops and callbacks a stopped service holds no raw frame, session or source, and a failed one shows the stream or stop failure that caused it |
| `CaptureService.StopEmpties` | crates/mega-capture/src/service.rs:220-265 | A stop empties the service whatever callbacks arrive meanwhile; after a refused stop the refusal is the last error and the next stop succeeds |
| `CaptureService.RunKeeps` | crates/mega-capture/src/service.rs:60-117 | Every step keeps what each state implies about session, source, frame, drop counter and last error |
| `CaptureService.EveryFrameCountedOnce` | crates/mega-capture/src/service.rs:61-101 | Until the next start, every frame offered by the session's own callbacks is counted exactly once in the shown status, as accepted, duplicate, invalid or dropped |
| `CaptureService.LifecycleExactly` | crates/mega-capture/src/service.rs:163-265 | Every change of the state, the lock, the session and the source, by the step that makes it |
| `CaptureService.ShownExactly` | crates/mega-capture/src/service.rs:60-117 | Every change of the drop counter, the last error, the latest frame and the metrics, by the step that makes it |
| `CaptureService.Capture.StartBegin` | crates/mega-capture/src/service.rs:163-193 | Only a stopped service starts, with a new drop counter and no last error |
| `CaptureService.Capture.StartFinish` | crates/mega-capture/src/service.rs:200-217 | A start that fails leaves the service stopped and empty |
| `CaptureService.Capture.StopBegin` | crates/mega-capture/src/service.rs:220-243 | A stop takes the session out of any service not stopped |
| `CaptureService.Capture.StopFinish` | crates/mega-capture/src/service.rs:245-265 | A finished stop has no frame, session or source; a refused one is failed with the refusal as last error |
| `CaptureService.Capture.OnFrame` | crates/mega-capture/src/service.rs:61-79 | A frame is taken only while running and uncontended, and an invalid one becomes the last error; any other frame counts on its own session's drop counter |
| `CaptureService.Capture.OnOwnedFrame` | crates/mega-capture/src/service.rs:81-97 | The same for owned frames |
| `CaptureService.Capture.OnStreamError` | crates/mega-capture/src/service.rs:103-117 | A stream error fails only a running service; its first 256 characters become the last error |
| `CaptureService.Capture.Status` | crates/mega-capture/src/service.rs:294-305 | The shown counters add the session's drops to the recorded ones |

## Left out

- SQL, encryption, migrations, file permissions and full-text tokenising: tables are maps and sets, and the ids the full-text index returns for a query are an input: a lookup is taken to succeed for every query.
- UUIDs: memory and job ids are numbers issued in increasing order and never reused.
- Revisions and attempts are unbounded numbers: the saturation of a 32-bit revision at its maximum is not modelled.
- Categories, apps, scopes and entities of a memory are held in the memory row; registering an app is no request, so the known apps are fixed over a run; display names and scope rows are not modelled, and the source links of a memory do not record which one is primary.
- The privacy inspection and the resolution of entity mentions are inputs of a candidate: its verdict, and the mentions that resolved to exactly one entity.
- Merging entities, the admission of a source beyond its id, order of times and length (de-duplication by content hash, kinds, flags, policies), and rebuilding the index.
- Profiles.PutCleanExactly: the JSON form and size bounds of a stored profile are not modelled.
- Floating point: confidences, importances and scores are real numbers, so totals carry no rounding; the text of a confidence is any text free of the five special characters.
- The digest of a frame and the contents of a fetched key are uninterpreted.
- Packing.LoadExtractionBatches: the text form of a run id is a pair of job and position.
- PercentCoding.QueryRoundTrip: starts from the query the URL parser hands over; HTTP, the request line and the host check are not modelled.
- ContextAssembly.AssembleContext: reads its rows from a table with textual ids, apart from the store's; search filters no context request uses (category, type, status, dates) are not modelled, and of the recorded event only its outcome is.
- SessionLifecycle.SignedOutForGood: holds below 2^64 sign-outs in one process; `SessionLifecycle.LoginStoresExactly` gives the condition without that bound.
- JwksCache.ServedIsYoung: a key from this call's own fetch is as old as that fetch took, which the request timeout bounds outside this model.
- Accessibility: element attributes and failures are fixed for the duration of one snapshot, and the time budget is a number of visits.
- CaptureService: dropping the last owner of the service while callbacks still arrive.
- Cancelled receive and refresh futures, and poisoned locks.
- The permission machine, the supervisor, preferences, HUD placement, DTOs and error texts: small tables one branch settles.
