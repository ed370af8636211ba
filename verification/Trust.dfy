/** How reconciliation meets the store's guards, and where stored confidence escapes its ceiling. */
module Trust {
  import opened Wrappers
  import opened MemoryModel
  import opened Reconcile
  import opened StoreSpec
  import opened StoreInvariants

  /** The matches describe the store as it is. */
  ghost predicate Faithful(db: Database, input: Input) {
    forall m | m in input.matches :: m.id in db.memories && db.memories[m.id] == m.memory
  }

  /** Whether a candidate can be inserted does not depend on the status or revision it gets. */
  lemma InsertIgnoresStatus(db: Database, c: Candidate, now: int)
    ensures forall status, revision ::
      InsertCandidate(db, c, status, revision, now).Ok? <==> InsertCandidate(db, c, Active, 1, now).Ok?
  {
    hide EffectiveCategories, ToSet, NoRepeats, InsertRow, CandidateMemory;
  }

  lemma ReconciledCandidate(input: Input)
    requires ReconcileCandidate(input).Ok?
    ensures var plan := ReconcileCandidate(input).value;
      plan.Create? || plan.Update? || plan.Extend? || plan.RequestReview? ==> plan.candidate == input.candidate
  {
    hide BestMatch, PromotionStatus, ReviewReason, UpdateMatch;
  }

  /** The status and trust guards of the store never turn down a plan reconciled against the store as it
      is: beyond validation, only a target that is no longer active does. */
  lemma GuardsAcceptReconciledPlans(db: Database, input: Input, now: int)
    requires Faithful(db, input) && ReconcileCandidate(input).Ok? && input.key !in db.audit
    ensures var plan := ReconcileCandidate(input).value;
      Mutate(db, plan, now).Ok?
      <==> && (plan.Update? || plan.Extend? || plan.Duplicate? ==> IsActive(db, plan.existing))
           && (!plan.Duplicate? ==> InsertCandidate(db, input.candidate, Active, 1, now).Ok?)
    ensures ReconcileCandidate(input).value.Duplicate? ==> Mutate(db, ReconcileCandidate(input).value, now).Ok?
  {
    var plan := ReconcileCandidate(input).value;
    ReconciledPlans(input);
    ReconciledCandidate(input);
    hide ReconcileCandidate, BestMatch, UpdateMatch, PromotionStatus;
    InsertIgnoresStatus(db, input.candidate, now);
    hide InsertCandidate;
  }

  // ---------- confidence ceilings ----------

  predicate WithinCeiling(m: Memory) { m.confidence <= m.mode.ConfidenceCeiling() }

  ghost predicate AllWithinCeiling(db: Database) { forall id | id in db.memories :: WithinCeiling(db.memories[id]) }

  /** What the store asks of a duplicate it has not applied yet: known sources, a confidence between zero and
      one, an active target and a usable run name. */
  predicate AcceptableDuplicate(db: Database, plan: Plan)
    requires plan.Duplicate?
  {
    && plan.key !in db.audit
    && PlanError(db, plan).None?
    && IsActive(db, plan.existing)
    && ValidCorrelation(plan.key.run)
  }

  /** An acceptable duplicate with more confidence than the existing memory's mode allows. */
  predicate Overconfident(db: Database, r: Request) {
    && r.DoPlan? && r.plan.Duplicate? && AcceptableDuplicate(db, r.plan)
    && r.plan.confidence > db.memories[r.plan.existing].mode.ConfidenceCeiling()
  }

  lemma DuplicateAccepted(db: Database, plan: Plan, now: int)
    requires plan.Duplicate? && plan.key !in db.audit
    ensures ApplyPlan(db, plan, now).1.Ok? <==> AcceptableDuplicate(db, plan)
  {
    hide PlanError, ValidCorrelation, LinksTo, ToSet, EnqueueRefresh;
  }

  lemma DuplicateCeiling(db: Database, plan: Plan, now: int)
    requires plan.Duplicate? && plan.key !in db.audit && ApplyPlan(db, plan, now).1.Ok?
    ensures plan.existing in db.memories
    ensures var before, after := db.memories[plan.existing], ApplyPlan(db, plan, now).0;
      && after.memories == db.memories[plan.existing := after.memories[plan.existing]]
      && after.memories[plan.existing].mode == before.mode
      && after.memories[plan.existing].confidence == Max(before.confidence, plan.confidence)
  {
    hide PlanError, LinksTo, ToSet;
    CloseMutationRows(Mutate(db, plan, now).value, plan.key, now);
    hide CloseMutation;
  }

  lemma InsertedRows(db: Database, plan: Plan, now: int)
    requires !plan.Duplicate? && !plan.Ignore? && Mutate(db, plan, now).Ok?
    ensures forall id | id in Mutate(db, plan, now).value.db.memories ::
      var m := Mutate(db, plan, now).value.db.memories[id];
      || (id in db.memories && m.confidence == db.memories[id].confidence && m.mode == db.memories[id].mode)
      || (m.confidence == plan.candidate.confidence && m.mode == plan.candidate.mode)
  {
    hide EffectiveCategories, ToSet, NoRepeats;
  }

  lemma InsertedCeiling(db: Database, plan: Plan, now: int)
    requires AllWithinCeiling(db) && !plan.Duplicate? && plan.key !in db.audit && ApplyPlan(db, plan, now).1.Ok?
    ensures AllWithinCeiling(ApplyPlan(db, plan, now).0)
  {
    var m := Mutate(db, plan, now).value;
    CloseMutationRows(m, plan.key, now);
    if !plan.Ignore? {
      assert WithinCeiling(CandidateMemory(plan.candidate, Active, 1, now));
      hide PlanError, CloseMutation;
      InsertedRows(db, plan, now);
      hide Mutate;
    }
  }

  lemma PlanCeiling(db: Database, plan: Plan, now: int)
    requires AllWithinCeiling(db)
    ensures AllWithinCeiling(ApplyPlan(db, plan, now).0) <==> !Overconfident(db, DoPlan(plan, now))
  {
    var after := ApplyPlan(db, plan, now).0;
    if !ApplyPlan(db, plan, now).1.Ok? || plan.key in db.audit {
      assert after == db;
      if plan.Duplicate? && plan.key !in db.audit {
        DuplicateAccepted(db, plan, now);
      }
    } else if plan.Duplicate? {
      DuplicateAccepted(db, plan, now);
      DuplicateCeiling(db, plan, now);
      hide ApplyPlan;
      assert AllWithinCeiling(after) <==> WithinCeiling(after.memories[plan.existing]);
    } else {
      InsertedCeiling(db, plan, now);
    }
  }

  lemma ManualCeiling(db: Database, r: Request)
    requires AllWithinCeiling(db) && (r.DoCreate? || r.DoEdit?)
    ensures AllWithinCeiling(Serve(db, r))
  {
    hide ValidManual, ValidCorrelation, EffectiveCategories, NoRepeats, ToSet;
  }

  lemma ReviewCeiling(db: Database, r: Request)
    requires AllWithinCeiling(db) && (r.DoConfirm? || r.DoReject? || r.DoDelete?)
    ensures AllWithinCeiling(Serve(db, r))
  {
    hide ValidCorrelation, ExclusiveSources, SurvivingProfiles, DocumentOf;
  }

  /** Main result: stored confidences stay under the ceilings of their modes through every request but
      one: a duplicate more confident than the existing memory's own mode allows. */
  lemma CeilingsEscapedOnlyByDuplicates(db: Database, r: Request)
    requires AllWithinCeiling(db)
    ensures AllWithinCeiling(Serve(db, r)) <==> !Overconfident(db, r)
  {
    hide ApplyPlan, CreateManual, EditManual, ConfirmPending, RejectPending, DeleteMemory;
    match r
    case DoPlan(plan, now) => PlanCeiling(db, plan, now);
    case DoCreate(_, _) => ManualCeiling(db, r);
    case DoEdit(_, _, _, _) => ManualCeiling(db, r);
    case DoConfirm(_, _, _, _) => ReviewCeiling(db, r);
    case DoReject(_, _, _, _) => ReviewCeiling(db, r);
    case DoDelete(_, _, _, _, _) => ReviewCeiling(db, r);
    case _ => assert Serve(db, r).memories == db.memories;
  }

  /** Reconciliation itself produces such a plan exactly when the candidate, capped by its own mode, is
      more confident than the best duplicate's mode allows: an explicit restatement of an inference does. */
  lemma ReconciledOverconfidence(db: Database, input: Input)
    requires Faithful(db, input) && AllWithinCeiling(db)
    requires ReconcileCandidate(input).Ok? && ReconcileCandidate(input).value.Duplicate?
    ensures var plan := ReconcileCandidate(input).value;
      var ceiling := db.memories[plan.existing].mode.ConfidenceCeiling();
      plan.confidence > ceiling
      <==> input.candidate.confidence > ceiling && input.candidate.mode.ConfidenceCeiling() > ceiling
  {
    ReconciledPlans(input);
    assert BestMatch(input.matches, ExactDuplicate).value in input.matches;
  }

  /** The failing case: the user restates what the store only inferred, with more confidence than an inference
      may have. Reconciliation asks for a duplicate, and the store then holds an overconfident inference. */
  lemma RestatedInferenceEscapes(db: Database, input: Input, id: MemoryId, now: int)
    requires AllWithinCeiling(db) && IsActive(db, id) && db.memories[id].mode.Inferred?
    requires input.matches == [Match(id, db.memories[id], ExactDuplicate, 1.0)]
    requires input.candidate.mode.Explicit? && 0.75 < input.candidate.confidence <= 1.0
    requires forall s | s in input.candidate.sources :: s in db.sources
    requires input.key !in db.audit && ValidCorrelation(input.key.run)
    ensures var r := ReconcileCandidate(input);
      && r.Ok? && r.value == Duplicate(input.key, id, input.candidate.sources, input.candidate.confidence)
      && !AllWithinCeiling(Serve(db, DoPlan(r.value, now)))
  {
    var only := input.matches[0];
    assert input.matches[..0] == [] && BestMatch([], ExactDuplicate).None?;
    assert BestMatch(input.matches, ExactDuplicate) == Some(only);
    assert db.memories[id].confidence <= 0.75;
    var plan := Duplicate(input.key, id, input.candidate.sources, input.candidate.confidence);
    assert ReconcileCandidate(input) == Ok(plan);
    assert Overconfident(db, DoPlan(plan, now));
    hide ReconcileCandidate, Overconfident, AllWithinCeiling, Serve;
    CeilingsEscapedOnlyByDuplicates(db, DoPlan(plan, now));
  }
}
