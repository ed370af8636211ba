/** What an accepted operation records: every part of a candidate or of a manual input arrives where it
    belongs, and nothing else changes. */
module StoreEffects {
  import opened Wrappers
  import opened Text
  import opened MemoryModel
  import opened StoreSpec
  import opened StoreInvariants
  import Integers

  predicate SameMembersAs<T(==)>(s: set<T>, items: seq<T>) {
    (forall x | x in s :: x in items) && (forall x | x in items :: x in s)
  }

  predicate HasCategories(categories: set<string>, slugs: seq<string>) {
    if slugs == [] then categories == {"uncategorized"} else SameMembersAs(categories, slugs)
  }

  /** A row that holds everything its candidate says. */
  predicate Records(m: Memory, c: Candidate) {
    && m.content == Normalize(c.content) && m.kind == c.kind && m.mode == c.mode && m.scope == c.scope
    && m.importance == c.importance && m.confidence == c.confidence && m.sensitivity == c.sensitivity
    && m.validFrom == c.validFrom && m.validUntil == c.validUntil
    && HasCategories(m.categories, c.categories) && SameMembersAs(m.sourceApps, c.sourceApps)
    && SameMembersAs(m.appliesTo, c.appliesTo) && SameMembersAs(m.entities, c.mentions)
  }

  predicate RecordsInput(m: Memory, input: ManualInput) {
    && m.content == Normalize(input.content) && m.kind == input.kind && m.mode.Manual? && m.scope == input.scope
    && m.importance == input.importance && m.confidence == 1.0 && m.sensitivity == input.sensitivity
    && m.validFrom == input.validFrom && m.validUntil == input.validUntil && m.updatedAt == input.now
    && HasCategories(m.categories, input.categories) && m.sourceApps == {}
    && SameMembersAs(m.appliesTo, input.appliesTo) && m.entities == {}
  }

  predicate Inserts(plan: Plan) { plan.Create? || plan.Update? || plan.Extend? || plan.RequestReview? }

  /** The status an inserting plan gives its row. */
  function PlannedStatus(plan: Plan): Status
    requires Inserts(plan)
  {
    if plan.RequestReview? then PendingReview else plan.status
  }

  lemma CandidateRecorded(c: Candidate, status: Status, revision: nat, now: int)
    ensures Records(CandidateMemory(c, status, revision, now), c)
  {
    hide Normalize;
  }

  lemma InputRecorded(input: ManualInput, revision: nat)
    ensures RecordsInput(ManualMemory(input, revision), input)
  {
    hide Normalize;
  }

  lemma InsertCandidateRecords(db: Database, c: Candidate, status: Status, revision: nat, now: int)
    requires WellKeyed(db) && InsertCandidate(db, c, status, revision, now).Ok?
    ensures var tx := InsertCandidate(db, c, status, revision, now).value;
      && tx.memories == db.memories[db.nextId := CandidateMemory(c, status, revision, now)]
      && tx.relations == db.relations
      && (forall s :: Link(db.nextId, s) in tx.links <==> s in c.sources)
      && (forall x, s | x != db.nextId :: Link(x, s) in tx.links <==> Link(x, s) in db.links)
  {
    hide EffectiveCategories, NoRepeats, CandidateMemory, DocumentOf;
    assert forall s :: Link(db.nextId, s) !in db.links;
  }

  /** The statements of an inserting plan: the candidate's row under the next id with the planned status,
      links to exactly its sources, and no other row touched but an updated one. */
  lemma MutateRecords(db: Database, plan: Plan, now: int)
    requires WellKeyed(db) && Inserts(plan) && Mutate(db, plan, now).Ok?
    ensures var m := Mutate(db, plan, now).value;
      && m.memory == Some(db.nextId) && m.status == PlannedStatus(plan)
      && db.nextId in m.db.memories
      && Records(m.db.memories[db.nextId], plan.candidate) && m.db.memories[db.nextId].status == PlannedStatus(plan)
      && (forall s :: Link(db.nextId, s) in m.db.links <==> s in plan.candidate.sources)
      && (forall x, s | x != db.nextId :: Link(x, s) in m.db.links <==> Link(x, s) in db.links)
      && (forall x | x in db.memories && !(plan.Update? && x == plan.existing) ::
            x in m.db.memories && m.db.memories[x] == db.memories[x])
  {
    var revision := if plan.Update? then db.memories[plan.existing].revision + 1 else 1;
    var c, status := plan.candidate, PlannedStatus(plan);
    CandidateRecorded(c, status, revision, now);
    InsertCandidateRecords(db, c, status, revision, now);
    assert forall x | x in db.memories :: x < db.nextId;
    hide Records, InsertCandidate, WellKeyed;
    assert CandidateMemory(c, status, revision, now).status == status;
    hide CandidateMemory;
  }

  lemma CloseMutationKeepsRows(m: Mutation, key: PlanKey, now: int)
    requires CloseMutation(m, key, now).Ok?
    ensures var after := CloseMutation(m, key, now).value;
      && after.memories == m.db.memories && after.links == m.db.links && after.documents == m.db.documents
      && (m.memory.Some? && m.memory.value in m.db.memories ==>
            && RefreshKey(EmbeddingRefresh, m.memory.value) in after.refreshes
            && RefreshKey(ProfileRefresh, m.memory.value) in after.refreshes)
  {
  }

  /** An applied plan with a candidate: its reply names the new row, which holds everything the candidate
      says, and both projections of it will be refreshed. */
  lemma PlanRecordsCandidate(db: Database, plan: Plan, now: int)
    requires WellKeyed(db) && Inserts(plan) && plan.key !in db.audit && ApplyPlan(db, plan, now).1.Ok?
    ensures var (after, reply) := ApplyPlan(db, plan, now); var id := db.nextId;
      && reply == Ok(PlanReply(Some(id), PlannedStatus(plan), false))
      && id in after.memories && Records(after.memories[id], plan.candidate)
      && after.memories[id].status == PlannedStatus(plan)
      && (forall s :: Link(id, s) in after.links <==> s in plan.candidate.sources)
      && (forall x, s | x != id :: Link(x, s) in after.links <==> Link(x, s) in db.links)
      && RefreshKey(EmbeddingRefresh, id) in after.refreshes && RefreshKey(ProfileRefresh, id) in after.refreshes
      && (forall x | x in db.memories && !(plan.Update? && x == plan.existing) ::
            x in after.memories && after.memories[x] == db.memories[x])
  {
    hide PlanError, Mutate, CloseMutation, Records, WellKeyed;
    MutateRecords(db, plan, now);
    CloseMutationKeepsRows(Mutate(db, plan, now).value, plan.key, now);
  }

  /** An applied duplicate links its memory to the further sources, never lowers its confidence and leaves
      everything else about it alone. */
  lemma DuplicateAddsSupport(db: Database, plan: Plan, now: int)
    requires plan.Duplicate? && plan.key !in db.audit && ApplyPlan(db, plan, now).1.Ok?
    ensures plan.existing in db.memories
    ensures var (after, reply) := ApplyPlan(db, plan, now); var before := db.memories[plan.existing];
      && reply == Ok(PlanReply(Some(plan.existing), Active, false))
      && after.memories.Keys == db.memories.Keys
      && (forall x | x in db.memories && x != plan.existing :: after.memories[x] == db.memories[x])
      && after.memories[plan.existing] == before.(
           confidence := after.memories[plan.existing].confidence, revision := before.revision + 1, updatedAt := now)
      && after.memories[plan.existing].confidence >= before.confidence
      && after.memories[plan.existing].confidence >= plan.confidence
      && (forall s ::
            Link(plan.existing, s) in after.links <==> Link(plan.existing, s) in db.links || s in plan.sources)
      && (forall x, s | x != plan.existing :: Link(x, s) in after.links <==> Link(x, s) in db.links)
  {
    hide PlanError;
    CloseMutationKeepsRows(Mutate(db, plan, now).value, plan.key, now);
    hide CloseMutation;
  }

  lemma ManualIsActive(input: ManualInput, revision: nat)
    ensures ManualMemory(input, revision).status.Active? && ManualMemory(input, revision).revision == revision
  {
  }

  /** A manual memory, new or replacing another, holds everything the user entered, is active and indexed,
      and rests on no source. */
  lemma ManualRecordsInput(db: Database, input: ManualInput, correlation: string)
    requires WellKeyed(db) && CreateManual(db, input, correlation).1.Ok?
    ensures var (after, reply) := CreateManual(db, input, correlation); var id := db.nextId;
      && reply == Ok(id) && after.memories == db.memories[id := after.memories[id]]
      && RecordsInput(after.memories[id], input)
      && after.memories[id].status.Active? && after.memories[id].revision == 1
      && id in after.documents && after.links == db.links && forall s :: Link(id, s) !in after.links
  {
    hide ValidManual, ValidCorrelation, EffectiveCategories, NoRepeats, ManualMemory, DocumentOf;
    InputRecorded(input, 1);
    ManualIsActive(input, 1);
    assert LinksTo(db.nextId, {}) == {};
    hide RecordsInput;
  }

  // ---------- retention ----------

  lemma {:induction false} KeptStay(events: seq<Event>, cutoff: int, earlier: int)
    requires earlier <= cutoff
    ensures KeepRecent(KeepRecent(events, cutoff), earlier) == KeepRecent(events, cutoff)
  {
    if events != [] {
      KeptStay(events[1..], cutoff, earlier);
      var kept := KeepRecent(events[1..], cutoff);
      if events[0].occurredAt < cutoff {
        assert KeepRecent(events, cutoff) == kept;
      } else {
        var all := KeepRecent(events, cutoff);
        assert all == [events[0]] + kept;
        assert all[0] == events[0] && all[1..] == kept;
        assert KeepRecent(all, earlier) == [all[0]] + KeepRecent(all[1..], earlier);
      }
    }
  }

  /** A retention pass leaves nothing for a pass of the same or an earlier time to do. */
  lemma RetentionSettles(db: Database, now: int, earlier: int)
    requires earlier <= now
    ensures Retain(Retain(db, now), earlier) == Retain(db, now)
  {
    var days := Integers.SaturatingMul(db.auditDays, DAY_MILLIS);
    KeptStay(db.events, Integers.SaturatingSub(now, days), Integers.SaturatingSub(earlier, days));
    hide KeepRecent, Integers.SaturatingMul;
    var once := Retain(db, now);
    assert Retain(once, earlier).sources == once.sources;
    assert Retain(once, earlier).audit == once.audit;
  }
}
