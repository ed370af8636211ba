/** Replay safety: retrying a plan that was already applied changes nothing and answers with the memory it
    made, over any run in which no retention pass purges the plan's audit row. */
module Replay {
  import opened Wrappers
  import Integers
  import opened MemoryModel
  import opened Reconcile
  import opened StoreSpec
  import opened StoreInvariants

  /** The audit trail's memory of one applied plan: `memory` is what the plan made or touched,
      reported for as long as that memory exists. */
  ghost predicate Remembers(db: Database, key: PlanKey, outcome: Outcome, memory: Option<MemoryId>) {
    && key in db.audit
    && db.audit[key].outcome == outcome
    && (memory.Some? ==> memory.value < db.nextId)
    && db.audit[key].memory == (if memory.Some? && memory.value in db.memories then memory else None)
  }

  lemma MutateIssues(db: Database, plan: Plan, now: int)
    requires forall id | id in db.memories :: id < db.nextId
    requires Mutate(db, plan, now).Ok?
    ensures var m := Mutate(db, plan, now).value;
      m.memory.Some? ==> m.memory.value in m.db.memories && m.memory.value < m.db.nextId
  {
  }

  lemma AppliedIsRemembered(db: Database, plan: Plan, now: int)
    requires forall id | id in db.memories :: id < db.nextId
    requires plan.key !in db.audit && ApplyPlan(db, plan, now).1.Ok?
    ensures Mutate(db, plan, now).Ok?
    ensures var m := Mutate(db, plan, now).value;
      Remembers(ApplyPlan(db, plan, now).0, plan.key, m.outcome, ApplyPlan(db, plan, now).1.value.memory)
  {
    hide PlanError;
    var m := Mutate(db, plan, now).value;
    MutateIssues(db, plan, now);
    CloseMutationRows(m, plan.key, now);
    hide Mutate, CloseMutation;
  }

  /** The audit rows and the existence of already issued ids, as a transaction that deletes nothing leaves them. */
  ghost predicate Keeps(a: Database, b: Database) {
    && a.nextId <= b.nextId
    && forall id | id < a.nextId :: id in b.memories <==> id in a.memories
  }

  lemma MutateFrames(db: Database, plan: Plan, now: int)
    requires Mutate(db, plan, now).Ok?
    ensures Mutate(db, plan, now).value.db.audit == db.audit && Keeps(db, Mutate(db, plan, now).value.db)
  {
  }

  lemma PlanFrames(db: Database, plan: Plan, now: int)
    ensures var after := ApplyPlan(db, plan, now).0;
      && Keeps(db, after)
      && db.audit.Keys <= after.audit.Keys
      && forall k | k in db.audit :: after.audit[k] == db.audit[k]
  {
    hide PlanError, Mutate, CloseMutation;
    if PlanError(db, plan).None? && plan.key !in db.audit && Mutate(db, plan, now).Ok? {
      var m := Mutate(db, plan, now).value;
      MutateFrames(db, plan, now);
      if CloseMutation(m, plan.key, now).Ok? {
        CloseMutationRows(m, plan.key, now);
      }
    }
  }

  lemma PlanRemembers(db: Database, plan: Plan, now: int, key: PlanKey, outcome: Outcome, memory: Option<MemoryId>)
    requires Remembers(db, key, outcome, memory)
    ensures Remembers(ApplyPlan(db, plan, now).0, key, outcome, memory)
  {
    PlanFrames(db, plan, now);
    hide ApplyPlan;
  }

  lemma CreateFrames(db: Database, input: ManualInput, correlation: string)
    ensures var after := CreateManual(db, input, correlation).0; after.audit == db.audit && Keeps(db, after)
  {
    hide ValidManual, ValidCorrelation, EffectiveCategories, ToSet, NoRepeats;
    if CreateManual(db, input, correlation).0 != db {
      assert CreateManual(db, input, correlation).0.memories == db.memories[db.nextId := ManualMemory(input, 1)];
    }
  }

  lemma EditFrames(db: Database, id: MemoryId, expected: nat, input: ManualInput, correlation: string)
    ensures var after := EditManual(db, id, expected, input, correlation).0; after.audit == db.audit && Keeps(db, after)
  {
    hide ValidManual, ValidCorrelation, EffectiveCategories, ToSet, NoRepeats;
    var after := EditManual(db, id, expected, input, correlation).0;
    assert after == db
      || (id in db.memories && after.audit == db.audit && after.nextId == db.nextId + 1
          && after.memories.Keys == db.memories.Keys + {db.nextId});
    hide EditManual;
  }

  lemma ConfirmFrames(db: Database, id: MemoryId, expected: nat, correlation: string, now: int)
    ensures var after := ConfirmPending(db, id, expected, correlation, now).0;
      after.audit == db.audit && Keeps(db, after)
  {
    hide ValidCorrelation, DocumentOf, UpsertRefresh;
  }

  lemma RejectFrames(db: Database, id: MemoryId, expected: nat, correlation: string, now: int)
    ensures var after := RejectPending(db, id, expected, correlation, now).0;
      after.audit == db.audit && Keeps(db, after)
  {
    hide ValidCorrelation;
    var after := RejectPending(db, id, expected, correlation, now).0;
    assert after == db || after.memories == db.memories[id := after.memories[id]];
    hide RejectPending;
  }

  lemma ManualRemembers(db: Database, r: Request, key: PlanKey, outcome: Outcome, memory: Option<MemoryId>)
    requires Remembers(db, key, outcome, memory) && (r.DoCreate? || r.DoEdit? || r.DoConfirm? || r.DoReject?)
    ensures Remembers(Serve(db, r), key, outcome, memory)
  {
    hide CreateManual, EditManual, ConfirmPending, RejectPending;
    match r
    case DoCreate(input, correlation) => CreateFrames(db, input, correlation);
    case DoEdit(id, expected, input, correlation) => EditFrames(db, id, expected, input, correlation);
    case DoConfirm(id, expected, correlation, now) => ConfirmFrames(db, id, expected, correlation, now);
    case DoReject(id, expected, correlation, now) => RejectFrames(db, id, expected, correlation, now);
  }

  lemma {:induction false} DeleteRemembers(
      db: Database, r: Request, key: PlanKey, outcome: Outcome, memory: Option<MemoryId>)
    requires Remembers(db, key, outcome, memory) && r.DoDelete?
    ensures Remembers(Serve(db, r), key, outcome, memory)
  {
  }

  lemma PutTables(db: Database, key: ProfileKey, profile: Profile, correlation: string, now: int)
    ensures var after := PutProfile(db, key, profile, correlation, now);
      after.audit == db.audit && after.memories == db.memories && after.nextId == db.nextId
  {
    hide ValidCorrelation;
  }

  lemma EmbedTables(db: Database, id: MemoryId)
    ensures var after := UpsertEmbedding(db, id);
      after.audit == db.audit && after.memories == db.memories && after.nextId == db.nextId
  {
  }

  lemma SourceTables(db: Database, source: string, row: Source)
    ensures var after := AddSource(db, source, row);
      after.audit == db.audit && after.memories == db.memories && after.nextId == db.nextId
  {
  }

  lemma SegmentTables(db: Database, segment: string, sources: seq<string>)
    ensures var after := AddSegment(db, segment, sources);
      after.audit == db.audit && after.memories == db.memories && after.nextId == db.nextId
  {
    hide NoRepeats, ToSet;
  }

  lemma CiteTables(db: Database, source: string)
    ensures var after := CiteSource(db, source);
      after.audit == db.audit && after.memories == db.memories && after.nextId == db.nextId
  {
  }

  lemma {:induction false} SideRemembers(
      db: Database, r: Request, key: PlanKey, outcome: Outcome, memory: Option<MemoryId>)
    requires Remembers(db, key, outcome, memory)
    requires r.DoPutProfile? || r.DoEmbed? || r.DoAddSource? || r.DoAddSegment? || r.DoCite?
    ensures Remembers(Serve(db, r), key, outcome, memory)
  {
    match r {
      case DoPutProfile(projection, profile, correlation, now) => PutTables(db, projection, profile, correlation, now);
      case DoEmbed(id) => EmbedTables(db, id);
      case DoAddSource(source, row) => SourceTables(db, source, row);
      case DoAddSegment(segment, sources) => SegmentTables(db, segment, sources);
      case DoCite(source) => CiteTables(db, source);
    }
    hide PutProfile, UpsertEmbedding, AddSource, AddSegment, CiteSource;
    var after := Serve(db, r);
    assert after.audit == db.audit && after.memories == db.memories && after.nextId == db.nextId;
    hide Serve;
  }

  lemma ServeRemembers(db: Database, r: Request, key: PlanKey, outcome: Outcome, memory: Option<MemoryId>)
    requires Remembers(db, key, outcome, memory) && !r.DoRetain?
    ensures Remembers(Serve(db, r), key, outcome, memory)
  {
    hide ApplyPlan, CreateManual, EditManual, ConfirmPending, RejectPending, DeleteMemory;
    match r
    case DoPlan(plan, now) => PlanRemembers(db, plan, now, key, outcome, memory);
    case DoDelete(_, _, _, _, _) => DeleteRemembers(db, r, key, outcome, memory);
    case DoCreate(_, _) => ManualRemembers(db, r, key, outcome, memory);
    case DoEdit(_, _, _, _) => ManualRemembers(db, r, key, outcome, memory);
    case DoConfirm(_, _, _, _) => ManualRemembers(db, r, key, outcome, memory);
    case DoReject(_, _, _, _) => ManualRemembers(db, r, key, outcome, memory);
    case _ => SideRemembers(db, r, key, outcome, memory);
  }

  /** Outcomes whose audit rows retention never purges. */
  predicate Lasting(outcome: Outcome) { !outcome.Ignored? && !outcome.ReviewRequested? }

  function AuditCutoff(db: Database, now: int): int {
    Integers.SaturatingSub(now, Integers.SaturatingMul(db.auditDays, DAY_MILLIS))
  }

  lemma RetainRemembers(db: Database, now: int, key: PlanKey, outcome: Outcome, memory: Option<MemoryId>)
    requires Remembers(db, key, outcome, memory)
    requires Lasting(outcome) || (memory.Some? && memory.value in db.memories)
    ensures Remembers(Retain(db, now), key, outcome, memory)
  {
    assert !Purged(db.audit[key], AuditCutoff(db, now));
    hide KeepRecent;
  }

  /** A memory that exists at the end of a run existed all along, once issued. */
  lemma ExistedAllAlong(db: Database, requests: seq<Request>, id: MemoryId)
    requires Invariant(db) && id < db.nextId && id in Run(db, requests).memories
    ensures id in db.memories
  {
    RunKeeps(db, requests);
    hide Invariant;
  }

  lemma {:induction false} RunRemembers(
      db: Database, requests: seq<Request>, key: PlanKey, outcome: Outcome, memory: Option<MemoryId>)
    requires Invariant(db) && Remembers(db, key, outcome, memory)
    requires || Lasting(outcome) || (memory.Some? && memory.value in Run(db, requests).memories)
             || forall r | r in requests :: !r.DoRetain?
    ensures Remembers(Run(db, requests), key, outcome, memory)
    decreases |requests|
  {
    if requests != [] {
      var r := requests[0];
      if r.DoRetain? {
        if !Lasting(outcome) {
          ExistedAllAlong(db, requests, memory.value);
        }
        RetainRemembers(db, r.now, key, outcome, memory);
      } else {
        ServeRemembers(db, r, key, outcome, memory);
      }
      ServeKeeps(db, r);
      hide Invariant, Remembers, Serve, Lasting;
      RunRemembers(Serve(db, r), requests[1..], key, outcome, memory);
    }
  }

  lemma OutcomeOfPlan(db: Database, plan: Plan, now: int)
    requires Mutate(db, plan, now).Ok?
    ensures Lasting(Mutate(db, plan, now).value.outcome) <==> !(plan.Ignore? || plan.RequestReview?)
  {
    hide InsertCandidate, Relate, Supersede, RaiseConfidence;
  }

  lemma RetryAnswers(at: Database, retry: Plan, later: int, outcome: Outcome, memory: Option<MemoryId>)
    requires Remembers(at, retry.key, outcome, memory)
    ensures var (after, reply) := ApplyPlan(at, retry, later);
      && after == at && (reply.Ok? <==> PlanError(at, retry).None?)
      && (reply.Ok? ==> reply.value.alreadyApplied
                        && reply.value.memory == if memory.Some? && memory.value in at.memories then memory else None)
  {
    hide PlanError, Mutate, CloseMutation;
  }

  /** Main result: once a plan was applied, a retry of its key after any run leaves the store as it is and,
      when it is accepted at all, names the first application's memory, or none if that memory was deleted
      permanently in between. Retention passes may intervene, except for an ignored plan or for a review
      request whose memory is gone. */
  lemma RetryNamesTheFirstMemory(db: Database, plan: Plan, now: int, between: seq<Request>, retry: Plan, later: int)
    requires Invariant(db) && plan.key !in db.audit && ApplyPlan(db, plan, now).1.Ok?
    requires retry.key == plan.key
    requires var (first, reply) := ApplyPlan(db, plan, now);
      || !(plan.Ignore? || plan.RequestReview?)
      || (reply.value.memory.Some? && reply.value.memory.value in Run(first, between).memories)
      || forall r | r in between :: !r.DoRetain?
    ensures var first := ApplyPlan(db, plan, now);
      var at := Run(first.0, between);
      var (after, reply) := ApplyPlan(at, retry, later);
      && after == at
      && (reply.Ok? <==> PlanError(at, retry).None?)
      && (reply.Ok? ==> reply.value.alreadyApplied)
      && (reply.Ok? ==>
            reply.value.memory == if first.1.value.memory.Some? && first.1.value.memory.value in at.memories
                                  then first.1.value.memory else None)
  {
    var first := ApplyPlan(db, plan, now);
    AppliedIsRemembered(db, plan, now);
    ApplyPlanKeeps(db, plan, now);
    OutcomeOfPlan(db, plan, now);
    var outcome := Mutate(db, plan, now).value.outcome;
    hide Invariant, Mutate;
    RunRemembers(first.0, between, plan.key, outcome, first.1.value.memory);
    RetryAnswers(Run(first.0, between), retry, later, outcome, first.1.value.memory);
  }

  /** The status a retry reports differs from the one first reported exactly for a reconciled extension
      that was held for review: the audit row does not keep the status, so the retry says `active`. */
  lemma RetryStatus(db: Database, plan: Plan, now: int, later: int)
    requires Reconciled(plan) && plan.key !in db.audit && ApplyPlan(db, plan, now).1.Ok?
    requires ApplyPlan(ApplyPlan(db, plan, now).0, plan, later).1.Ok?
    ensures ApplyPlan(ApplyPlan(db, plan, now).0, plan, later).1.value.status == ApplyPlan(db, plan, now).1.value.status
            <==> !(plan.Extend? && plan.status.PendingReview?)
  {
    var m := Mutate(db, plan, now).value;
    var after := ApplyPlan(db, plan, now).0;
    assert after.audit[plan.key].outcome == m.outcome;
  }

  /** Whether a plan is valid depends on the known sources, apps and categories alone. */
  lemma SameErrors(a: Database, b: Database, plan: Plan)
    requires a.sources.Keys == b.sources.Keys && a.apps == b.apps && a.categories == b.categories
    ensures PlanError(a, plan) == PlanError(b, plan)
  {
    hide ValidContent;
    if !plan.Ignore? && !plan.Duplicate? {
      assert AcceptableCandidate(a, plan.candidate) <==> AcceptableCandidate(b, plan.candidate);
    }
  }

  lemma ExtensionApplies(db: Database, plan: Plan, now: int)
    requires plan.Extend? && PlanError(db, plan).None? && plan.key !in db.audit && ValidCorrelation(plan.key.run)
    requires IsActive(db, plan.existing) && InsertCandidate(db, plan.candidate, plan.status, 1, now).Ok?
    ensures var (after, reply) := ApplyPlan(db, plan, now);
      && reply == Ok(PlanReply(Some(db.nextId), plan.status, false))
      && plan.key in after.audit && after.audit[plan.key] == AuditRow(Extended, Some(db.nextId), now)
      && after.sources == db.sources && after.apps == db.apps && after.categories == db.categories
  {
    hide PlanError, ValidCorrelation, CandidateMemory, DocumentOf, EffectiveCategories, NoRepeats, ToSet, LinksTo;
  }

  /** The failing case: a sensitive inference that extends a memory is held for review, and its retry says
      `active`. */
  lemma HeldExtensionReportsActive(db: Database, input: Input, id: MemoryId, now: int, later: int)
    requires IsActive(db, id) && input.matches == [Match(id, db.memories[id], Extends, 1.0)]
    requires input.candidate.mode.Inferred? && input.candidate.sensitivity.Sensitive?
    requires CandidateError(db, input.candidate).None?
    requires InsertCandidate(db, input.candidate, PendingReview, 1, now).Ok?
    requires input.key !in db.audit && ValidCorrelation(input.key.run)
    ensures var plan := Extend(input.key, id, input.candidate, PendingReview);
      var first := ApplyPlan(db, plan, now);
      var retried := ApplyPlan(first.0, plan, later);
      && ReconcileCandidate(input) == Ok(plan)
      && first.1 == Ok(PlanReply(Some(db.nextId), PendingReview, false))
      && retried.1 == Ok(PlanReply(Some(db.nextId), Active, true))
  {
    var only := input.matches[0];
    assert input.matches[..0] == [];
    assert forall k :: BestMatch([], k).None?;
    assert BestMatch(input.matches, Extends) == Some(only);
    assert forall k | k != Extends :: BestMatch(input.matches, k).None?;
    var plan := Extend(input.key, id, input.candidate, PendingReview);
    assert ReconcileCandidate(input) == Ok(plan);
    hide ReconcileCandidate, BestMatch;
    ExtensionApplies(db, plan, now);
    SameErrors(db, ApplyPlan(db, plan, now).0, plan);
    hide PlanError, Mutate, CloseMutation, InsertCandidate;
  }

  // ---------- whole runs with retries ----------

  predicate Applies(db: Database, r: Request) { r.DoPlan? && ApplyPlan(db, r.plan, r.now).1.Ok? }

  /** The run with every plan request dropped whose key an earlier request in it already applied. */
  function WithoutRetries(db: Database, requests: seq<Request>, applied: set<PlanKey>): seq<Request>
    decreases |requests|
  {
    if requests == [] then []
    else
      var r := requests[0];
      if r.DoPlan? && r.plan.key in applied then WithoutRetries(Serve(db, r), requests[1..], applied)
      else [r] + WithoutRetries(Serve(db, r), requests[1..], if Applies(db, r) then applied + {r.plan.key} else applied)
  }

  /** Every retention pass in the run spares the audit rows of the plans applied before it. */
  ghost predicate RetentionSpares(db: Database, requests: seq<Request>, applied: set<PlanKey>)
    decreases |requests|
  {
    requests == [] ||
    (var r := requests[0];
     && (r.DoRetain? ==> forall k | k in applied && k in db.audit :: !Purged(db.audit[k], AuditCutoff(db, r.now)))
     && RetentionSpares(Serve(db, r), requests[1..], if Applies(db, r) then applied + {r.plan.key} else applied))
  }

  lemma PlanAuditKept(db: Database, plan: Plan, now: int)
    ensures var (after, reply) := ApplyPlan(db, plan, now);
      db.audit.Keys <= after.audit.Keys && (reply.Ok? ==> plan.key in after.audit)
  {
    PlanFrames(db, plan, now);
    hide PlanError, Mutate, CloseMutation;
    if PlanError(db, plan).None? && plan.key !in db.audit && Mutate(db, plan, now).Ok? {
      var m := Mutate(db, plan, now).value;
      if CloseMutation(m, plan.key, now).Ok? {
        CloseMutationRows(m, plan.key, now);
      }
    }
  }

  lemma OtherAuditKept(db: Database, r: Request)
    requires r.DoDelete? || r.DoPutProfile? || r.DoEmbed? || r.DoAddSource? || r.DoAddSegment? || r.DoCite?
    ensures db.audit.Keys <= Serve(db, r).audit.Keys
  {
    hide ValidCorrelation, ExclusiveSources, PruneSegments, SurvivingProfiles, NoRepeats, ToSet;
  }

  lemma AppliedKeyKept(db: Database, r: Request)
    requires !r.DoRetain?
    ensures db.audit.Keys <= Serve(db, r).audit.Keys
    ensures Applies(db, r) ==> r.plan.key in Serve(db, r).audit
  {
    hide ApplyPlan, CreateManual, EditManual, ConfirmPending, RejectPending, DeleteMemory, PutProfile, UpsertEmbedding;
    hide AddSource, CiteSource, AddSegment;
    match r
    case DoPlan(plan, now) => PlanAuditKept(db, plan, now);
    case DoCreate(input, correlation) => CreateFrames(db, input, correlation);
    case DoEdit(id, expected, input, correlation) => EditFrames(db, id, expected, input, correlation);
    case DoConfirm(id, expected, correlation, now) => ConfirmFrames(db, id, expected, correlation, now);
    case DoReject(id, expected, correlation, now) => RejectFrames(db, id, expected, correlation, now);
    case _ => OtherAuditKept(db, r);
  }

  /** Main result: any interleaving of retries gives the same store as the run without them, as long as
      retention spares the audit rows retries rely on. */
  lemma {:induction false} RetriesChangeNothing(db: Database, requests: seq<Request>, applied: set<PlanKey>)
    requires applied <= db.audit.Keys && RetentionSpares(db, requests, applied)
    ensures Run(db, WithoutRetries(db, requests, applied)) == Run(db, requests)
    ensures forall r | r in WithoutRetries(db, requests, applied) :: r in requests
    decreases |requests|
  {
    if requests != [] {
      var r := requests[0];
      if r.DoRetain? {
        assert applied <= Serve(db, r).audit.Keys;
      } else {
        AppliedKeyKept(db, r);
      }
      var now := if Applies(db, r) then applied + {r.plan.key} else applied;
      if r.DoPlan? && r.plan.key in applied {
        assert Serve(db, r) == db && now == applied;
        hide Serve, ApplyPlan, Applies, Purged, AuditCutoff;
        RetriesChangeNothing(db, requests[1..], applied);
      } else {
        hide Serve, ApplyPlan, Applies, Purged, AuditCutoff;
        RetriesChangeNothing(Serve(db, r), requests[1..], now);
        var rest := WithoutRetries(Serve(db, r), requests[1..], now);
        assert ([r] + rest)[0] == r && ([r] + rest)[1..] == rest;
      }
    }
  }

  /** After one retention pass, a retry still counts as applied exactly when the pass did not purge its row. */
  lemma RetryAfterRetention(db: Database, plan: Plan, now: int, later: int)
    requires plan.key in db.audit && PlanError(db, plan).None?
    ensures var reply := ApplyPlan(Retain(db, now), plan, later).1;
      (reply.Ok? && reply.value.alreadyApplied) <==> !Purged(db.audit[plan.key], AuditCutoff(db, now))
  {
    assert Retain(db, now).sources.Keys == db.sources.Keys;
    SameErrors(db, Retain(db, now), plan);
    hide PlanError, Mutate, CloseMutation, KeepRecent;
  }

  /** What a purge costs: the audit row of a review request whose memory was deleted is gone, and the same
      plan, still acceptable, then makes a second memory. */
  lemma RetentionForgetsReview(db: Database, plan: Plan, now: int, later: int)
    requires plan.RequestReview? && plan.key in db.audit
    requires Purged(db.audit[plan.key], AuditCutoff(db, now))
    requires PlanError(db, plan).None? && ValidCorrelation(plan.key.run)
    requires InsertCandidate(db, plan.candidate, PendingReview, 1, later).Ok?
    ensures ApplyPlan(db, plan, later).0 == db
    ensures ApplyPlan(Retain(db, now), plan, later).1 == Ok(PlanReply(Some(db.nextId), PendingReview, false))
  {
    var kept := Retain(db, now);
    assert plan.key !in kept.audit && kept.nextId == db.nextId && kept.sources.Keys == db.sources.Keys;
    assert AcceptableCandidate(kept, plan.candidate);
  }
}
