/** Lineage over whole runs: retired memories stay retired, the relation graph has no cycle, and
    every superseded memory leads to one that is not, unless a permanent delete cut the chain. */
module MemoryLineage {
  import opened Wrappers
  import opened MemoryModel
  import opened Reconcile
  import opened StoreSpec
  import opened StoreInvariants

  /** Once some memory updates `r.older`, no run makes that memory active again: it stays retired
      for as long as it exists, and its id is never given to another memory. */
  lemma {:induction false} SupersededForGood(db: Database, before: seq<Request>, after: seq<Request>, r: Relation)
    requires Invariant(db) && r in Run(db, before).relations && r.kind.UpdatesRelation?
    ensures var end := Run(db, before + after);
      r.older in end.memories ==> Retired(end.memories[r.older].status) && r.older !in end.documents
  {
    RunKeeps(db, before);
    RunKeeps(Run(db, before), after);
    RunSplit(db, before, after);
  }

  // ---------- acyclicity ----------

  ghost predicate Edge(db: Database, newer: MemoryId, older: MemoryId) {
    exists r | r in db.relations :: r.newer == newer && r.older == older
  }

  /** A walk that follows relations from newer to older memories. */
  ghost predicate Walk(db: Database, path: seq<MemoryId>) {
    forall i | 0 <= i < |path| - 1 :: Edge(db, path[i], path[i + 1])
  }

  lemma {:induction false} WalkDescends(db: Database, path: seq<MemoryId>, k: nat)
    requires WellKeyed(db) && Lineage(db) && Walk(db, path) && 1 <= k < |path|
    ensures path[k] < path[0]
  {
    assert Edge(db, path[k - 1], path[k]);
    if k > 1 {
      WalkDescends(db, path, k - 1);
    }
  }

  /** The relation graph of every reachable database is acyclic. */
  lemma Acyclic(db: Database, requests: seq<Request>, path: seq<MemoryId>)
    requires Invariant(db) && |path| >= 2 && Walk(Run(db, requests), path)
    ensures path[0] != path[|path| - 1]
  {
    RunKeeps(db, requests);
    WalkDescends(Run(db, requests), path, |path| - 1);
  }

  // ---------- the head of a lineage ----------

  ghost predicate HasSuccessor(db: Database, id: MemoryId) {
    exists n :: Relation(n, id, UpdatesRelation) in db.relations
  }

  ghost predicate Succeeded(db: Database) {
    forall id | id in db.memories && db.memories[id].status.Superseded? :: HasSuccessor(db, id)
  }

  /** No permanent delete, and plans as reconciliation makes them. */
  predicate Tame(r: Request) {
    && !(r.DoDelete? && r.mode.Permanent?)
    && (r.DoPlan? ==> Reconciled(r.plan))
  }

  lemma StillSucceeded(a: Database, b: Database)
    requires Succeeded(a) && a.relations <= b.relations
    requires forall id | id in b.memories && b.memories[id].status.Superseded? ::
      (id in a.memories && a.memories[id].status.Superseded?) || HasSuccessor(b, id)
    ensures Succeeded(b)
  {
    forall id | id in b.memories && b.memories[id].status.Superseded? ensures HasSuccessor(b, id) {
      if id in a.memories && a.memories[id].status.Superseded? {
        var n :| Relation(n, id, UpdatesRelation) in a.relations;
        assert Relation(n, id, UpdatesRelation) in b.relations;
      }
    }
  }

  lemma MutateSucceeds(db: Database, plan: Plan, now: int)
    requires Succeeded(db) && Reconciled(plan) && Mutate(db, plan, now).Ok?
    ensures Succeeded(Mutate(db, plan, now).value.db)
  {
    var after := Mutate(db, plan, now).value.db;
    if plan.Update? {
      assert Relation(db.nextId, plan.existing, UpdatesRelation) in after.relations;
    }
    StillSucceeded(db, after);
  }

  lemma PlanSucceeds(db: Database, plan: Plan, now: int)
    requires Succeeded(db) && Reconciled(plan)
    ensures Succeeded(ApplyPlan(db, plan, now).0)
  {
    hide PlanError, ValidCorrelation, Mutate;
    if PlanError(db, plan).None? && plan.key !in db.audit && Mutate(db, plan, now).Ok? {
      var m := Mutate(db, plan, now).value;
      MutateSucceeds(db, plan, now);
      if CloseMutation(m, plan.key, now).Ok? {
        CloseMutationRows(m, plan.key, now);
        StillSucceeded(m.db, CloseMutation(m, plan.key, now).value);
      }
    }
  }

  lemma EditSucceeds(db: Database, id: MemoryId, expected: nat, input: ManualInput, correlation: string)
    requires Succeeded(db)
    ensures Succeeded(EditManual(db, id, expected, input, correlation).0)
  {
    var after := EditManual(db, id, expected, input, correlation).0;
    if after != db {
      assert Relation(db.nextId, id, UpdatesRelation) in after.relations;
      StillSucceeded(db, after);
    }
  }

  lemma CreateSucceeds(db: Database, input: ManualInput, correlation: string)
    requires Succeeded(db)
    ensures Succeeded(CreateManual(db, input, correlation).0)
  {
    var after := CreateManual(db, input, correlation).0;
    if after != db {
      assert after.relations == db.relations && after.memories == db.memories[db.nextId := ManualMemory(input, 1)];
      hide CreateManual;
      StillSucceeded(db, after);
    }
  }

  lemma {:induction false} ConfirmSucceeds(db: Database, id: MemoryId, expected: nat, correlation: string, now: int)
    requires Succeeded(db)
    ensures Succeeded(ConfirmPending(db, id, expected, correlation, now).0)
  {
    hide ValidCorrelation, DocumentOf;
    StillSucceeded(db, ConfirmPending(db, id, expected, correlation, now).0);
  }

  lemma {:induction false} RejectSucceeds(db: Database, id: MemoryId, expected: nat, correlation: string, now: int)
    requires Succeeded(db)
    ensures Succeeded(RejectPending(db, id, expected, correlation, now).0)
  {
    StillSucceeded(db, RejectPending(db, id, expected, correlation, now).0);
  }

  lemma ForgetSucceeds(db: Database, id: MemoryId, expected: nat, correlation: string, now: int)
    requires Succeeded(db)
    ensures Succeeded(DeleteMemory(db, id, expected, Forget, correlation, now).0)
  {
    StillSucceeded(db, DeleteMemory(db, id, expected, Forget, correlation, now).0);
  }

  lemma SideSucceeds(db: Database, r: Request)
    requires Succeeded(db)
    requires r.DoRetain? || r.DoPutProfile? || r.DoEmbed? || r.DoAddSource? || r.DoAddSegment? || r.DoCite?
    ensures Succeeded(Serve(db, r))
  {
    assert Serve(db, r).memories == db.memories && Serve(db, r).relations == db.relations;
    hide Serve;
    StillSucceeded(db, Serve(db, r));
  }

  lemma ServeSucceeds(db: Database, r: Request)
    requires Succeeded(db) && Tame(r)
    ensures Succeeded(Serve(db, r))
  {
    match r
    case DoPlan(plan, now) => PlanSucceeds(db, plan, now);
    case DoCreate(input, correlation) => CreateSucceeds(db, input, correlation);
    case DoEdit(id, expected, input, correlation) => EditSucceeds(db, id, expected, input, correlation);
    case DoConfirm(id, expected, correlation, now) => ConfirmSucceeds(db, id, expected, correlation, now);
    case DoReject(id, expected, correlation, now) => RejectSucceeds(db, id, expected, correlation, now);
    case DoDelete(id, expected, _, correlation, now) => ForgetSucceeds(db, id, expected, correlation, now);
    case _ => SideSucceeds(db, r);
  }

  lemma {:induction false} RunSucceeds(db: Database, requests: seq<Request>)
    requires Succeeded(db) && forall r | r in requests :: Tame(r)
    ensures Succeeded(Run(db, requests))
    decreases |requests|
  {
    if requests != [] {
      ServeSucceeds(db, requests[0]);
      RunSucceeds(Serve(db, requests[0]), requests[1..]);
    }
  }

  /** A chain of `updates` edges from `path[0]` forward to its successors. */
  ghost predicate Chain(db: Database, path: seq<MemoryId>) {
    forall i | 0 <= i < |path| - 1 :: Relation(path[i + 1], path[i], UpdatesRelation) in db.relations
  }

  ghost predicate LeadsToCurrent(db: Database, path: seq<MemoryId>) {
    && path != [] && Chain(db, path)
    && (forall p | p in path :: p in db.memories)
    && !db.memories[path[|path| - 1]].status.Superseded?
  }

  lemma {:induction false} FollowChain(db: Database, id: MemoryId) returns (path: seq<MemoryId>)
    requires Invariant(db) && Succeeded(db) && id in db.memories
    ensures LeadsToCurrent(db, path) && path[0] == id
    decreases db.nextId - id
  {
    if !db.memories[id].status.Superseded? {
      path := [id];
    } else {
      var n :| Relation(n, id, UpdatesRelation) in db.relations;
      var link := Relation(n, id, UpdatesRelation);
      assert link.older < link.newer < db.nextId;
      var rest := FollowChain(db, n);
      path := [id] + rest;
      forall i | 0 <= i < |path| - 1 ensures Relation(path[i + 1], path[i], UpdatesRelation) in db.relations {
        if i > 0 {
          assert path[i] == rest[i - 1] && path[i + 1] == rest[i];
        }
      }
    }
  }

  /** Main result: with no permanent delete in the run, every memory it leaves superseded reaches, along
      `updates` edges, one that is not superseded. */
  lemma EverySupersededLeadsToCurrent(db: Database, requests: seq<Request>, id: MemoryId)
    requires Invariant(db) && Succeeded(db) && (forall r | r in requests :: Tame(r))
    requires id in Run(db, requests).memories
    ensures exists path :: path != [] && path[0] == id && LeadsToCurrent(Run(db, requests), path)
  {
    RunKeeps(db, requests);
    RunSucceeds(db, requests);
    var path := FollowChain(Run(db, requests), id);
  }

  // ---------- where the chain can break ----------

  /** A permanent delete of `id` strands a superseded memory exactly when `id` was its only successor. */
  lemma DeleteStrands(db: Database, id: MemoryId, expected: nat, correlation: string, now: int, older: MemoryId)
    requires older in db.memories && older != id && HasSuccessor(db, older)
    requires DeleteMemory(db, id, expected, Permanent, correlation, now).1.Ok?
    ensures var after := DeleteMemory(db, id, expected, Permanent, correlation, now).0;
      && older in after.memories && after.memories[older] == db.memories[older]
      && (HasSuccessor(after, older) <==> exists n :: n != id && Relation(n, older, UpdatesRelation) in db.relations)
  {
    var after := DeleteMemory(db, id, expected, Permanent, correlation, now).0;
    assert after.relations == DeletePermanently(db, id, expected).relations;
    forall n ensures Relation(n, older, UpdatesRelation) in after.relations
                     <==> n != id && Relation(n, older, UpdatesRelation) in db.relations {}
  }

  ghost predicate IdsIssued(db: Database) { forall id | id in db.memories :: id < db.nextId }

  /** The keys of a manual input: known categories, and known apps without a repeat. */
  predicate Insertable(db: Database, input: ManualInput) {
    && (if input.categories == [] then "uncategorized" in db.categories
        else forall slug | slug in input.categories :: slug in db.categories)
    && NoRepeats(input.appliesTo)
    && forall app | app in input.appliesTo :: app in db.apps
  }

  /** An edit is accepted exactly when its revision is current, its target is neither forgotten nor
      rejected, and the input is valid and names known categories and distinct known apps. */
  lemma EditAccepted(db: Database, id: MemoryId, expected: nat, input: ManualInput, correlation: string)
    ensures EditManual(db, id, expected, input, correlation).1.Ok? <==>
      && id in db.memories && db.memories[id].revision == expected
      && !db.memories[id].status.Forgotten? && !db.memories[id].status.Rejected?
      && ValidManual(input) && ValidCorrelation(correlation) && Insertable(db, input)
  {
    assert EffectiveCategories(input.categories) <= db.categories
      <==> if input.categories == [] then "uncategorized" in db.categories
           else forall slug | slug in input.categories :: slug in db.categories;
    assert ToSet(input.appliesTo) <= db.apps <==> forall app | app in input.appliesTo :: app in db.apps;
    hide ValidManual, ValidCorrelation, NoRepeats, EffectiveCategories, ToSet, InsertRow;
  }

  /** What a successful edit changes, table by table. */
  lemma EditEffect(db: Database, id: MemoryId, expected: nat, input: ManualInput, correlation: string)
    requires IdsIssued(db) && EditManual(db, id, expected, input, correlation).1.Ok?
    ensures id in db.memories && id < db.nextId
    ensures var after := EditManual(db, id, expected, input, correlation).0;
      && after.memories == db.memories[db.nextId := ManualMemory(input, expected + 1)]
           [id := db.memories[id].(status := Superseded, revision := expected + 1, updatedAt := input.now)]
      && after.relations == db.relations + {Relation(db.nextId, id, UpdatesRelation)}
      && after.links == db.links && after.aliasSources == db.aliasSources
  {
  }

  /** A memory with no sources can always be deleted permanently at its current revision. */
  lemma UnsourcedDeletable(db: Database, id: MemoryId, correlation: string, now: int)
    requires id in db.memories && ValidCorrelation(correlation) && forall l | l in db.links :: l.memory != id
    ensures DeleteMemory(db, id, db.memories[id].revision, Permanent, correlation, now).1.Ok?
  {
    assert ExclusiveSources(db, id) == {};
  }

  /** The run that strands a memory: an edit, then a permanent delete of the replacement. */
  lemma {:induction false} DeletedReplacementStrands(
      db: Database, id: MemoryId, input: ManualInput, correlation: string, now: int)
    requires WellKeyed(db) && id in db.memories && !HasSuccessor(db, id)
    requires EditManual(db, id, db.memories[id].revision, input, correlation).1.Ok?
    ensures var edited := EditManual(db, id, db.memories[id].revision, input, correlation).0;
      var after := DeleteMemory(edited, db.nextId, db.memories[id].revision + 1, Permanent, correlation, now);
      && after.1.Ok? && after.0.memories[id].status.Superseded? && !HasSuccessor(after.0, id)
  {
    var revision := db.memories[id].revision;
    var edited := EditManual(db, id, revision, input, correlation).0;
    EditEffect(db, id, revision, input, correlation);
    EditAccepted(db, id, revision, input, correlation);
    hide EditManual;
    UnsourcedDeletable(edited, db.nextId, correlation, now);
    assert Relation(db.nextId, id, UpdatesRelation) in edited.relations;
    assert forall n :: Relation(n, id, UpdatesRelation) !in db.relations;
    DeleteStrands(edited, db.nextId, revision + 1, correlation, now, id);
  }

  // ---------- how many successors ----------

  lemma UpdateEffect(db: Database, plan: Plan, now: int)
    requires IdsIssued(db) && plan.Update? && plan.key !in db.audit && ApplyPlan(db, plan, now).1.Ok?
    ensures plan.existing in db.memories && plan.existing < db.nextId
    ensures var after := ApplyPlan(db, plan, now).0;
      && after.nextId == db.nextId + 1
      && after.memories == db.memories
           [db.nextId := CandidateMemory(plan.candidate, Active, db.memories[plan.existing].revision + 1, now)]
           [plan.existing := db.memories[plan.existing].(status := Superseded, updatedAt := now)]
      && after.relations == db.relations + {Relation(db.nextId, plan.existing, UpdatesRelation)}
      && after.categories == db.categories && after.apps == db.apps
  {
    var target := db.memories[plan.existing];
    assert target.revision + 0 == target.revision;
  }

  /** A plan's update does not raise the superseded memory's revision, so a user holding that revision
      can still edit the memory, which then has two successors; after an edit the same revision is refused. */
  lemma UpdateLeavesRevisionUsable(db: Database, plan: Plan, now: int, input: ManualInput, correlation: string)
    requires IdsIssued(db) && plan.Update? && ApplyPlan(db, plan, now).1.Ok? && plan.key !in db.audit
    requires ValidManual(input) && ValidCorrelation(correlation) && Insertable(db, input)
    ensures plan.existing in db.memories
    ensures var revision := db.memories[plan.existing].revision;
      var updated := ApplyPlan(db, plan, now).0;
      var edited := EditManual(updated, plan.existing, revision, input, correlation);
      && edited.1.Ok?
      && Relation(db.nextId, plan.existing, UpdatesRelation) in edited.0.relations
      && Relation(db.nextId + 1, plan.existing, UpdatesRelation) in edited.0.relations
      && EditManual(edited.0, plan.existing, revision, input, correlation).1.Err?
  {
    var updated := ApplyPlan(db, plan, now).0;
    UpdateEffect(db, plan, now);
    var revision := db.memories[plan.existing].revision;
    hide ApplyPlan, ValidManual, ValidCorrelation, EditManual;
    EditAccepted(updated, plan.existing, revision, input, correlation);
    EditEffect(updated, plan.existing, revision, input, correlation);
    var edited := EditManual(updated, plan.existing, revision, input, correlation).0;
    EditAccepted(edited, plan.existing, revision, input, correlation);
  }

  ghost predicate SingleSuccessors(db: Database) {
    forall r, q | r in db.relations && q in db.relations && r.kind.UpdatesRelation? && q.kind.UpdatesRelation? ::
      r.older == q.older ==> r.newer == q.newer
  }

  /** An edit the store accepts of a memory that already has a successor. */
  ghost predicate SecondSuccessor(db: Database, r: Request) {
    && r.DoEdit? && r.id in db.memories && HasSuccessor(db, r.id)
    && db.memories[r.id].revision == r.expected
    && !db.memories[r.id].status.Forgotten? && !db.memories[r.id].status.Rejected?
    && ValidManual(r.input) && ValidCorrelation(r.correlation) && Insertable(db, r.input)
  }

  lemma NewEdge(db: Database, after: Database, id: MemoryId)
    requires WellKeyed(db) && SingleSuccessors(db)
    requires after.relations == db.relations + {Relation(db.nextId, id, UpdatesRelation)}
    ensures SingleSuccessors(after) <==> !HasSuccessor(db, id)
  {
    var edge := Relation(db.nextId, id, UpdatesRelation);
    if HasSuccessor(db, id) {
      var n :| Relation(n, id, UpdatesRelation) in db.relations;
      var first := Relation(n, id, UpdatesRelation);
      assert first.newer in db.memories && first in after.relations && edge in after.relations;
    } else {
      forall r | r in db.relations && r.kind.UpdatesRelation? ensures r.older != id {
        assert r == Relation(r.newer, r.older, UpdatesRelation);
      }
    }
  }

  lemma FewerEdges(db: Database, after: Database)
    requires SingleSuccessors(db)
    requires forall r | r in after.relations && r.kind.UpdatesRelation? :: r in db.relations
    ensures SingleSuccessors(after)
  {
  }

  lemma PlanEdges(db: Database, plan: Plan, now: int)
    requires !plan.Update?
    ensures forall r | r in ApplyPlan(db, plan, now).0.relations && r.kind.UpdatesRelation? :: r in db.relations
  {
    hide PlanError, CandidateError, ValidCorrelation, EffectiveCategories, ToSet, NoRepeats;
    if PlanError(db, plan).None? && plan.key !in db.audit && Mutate(db, plan, now).Ok? {
      var m := Mutate(db, plan, now).value;
      if CloseMutation(m, plan.key, now).Ok? {
        CloseMutationRows(m, plan.key, now);
      }
    }
  }

  lemma {:induction false} UpdateSingle(db: Database, plan: Plan, now: int)
    requires WellKeyed(db) && Lineage(db) && SingleSuccessors(db) && plan.Update?
    ensures SingleSuccessors(ApplyPlan(db, plan, now).0)
  {
    var (after, reply) := ApplyPlan(db, plan, now);
    assert after == db || (plan.key !in db.audit && reply.Ok? && IsActive(db, plan.existing));
    hide ApplyPlan;
    if after != db {
      UpdateEffect(db, plan, now);
      assert !HasSuccessor(db, plan.existing);
      hide Lineage;
      NewEdge(db, after, plan.existing);
    }
  }

  lemma {:induction false} PlanSingle(db: Database, plan: Plan, now: int)
    requires WellKeyed(db) && Lineage(db) && SingleSuccessors(db)
    ensures SingleSuccessors(ApplyPlan(db, plan, now).0)
  {
    if plan.Update? {
      UpdateSingle(db, plan, now);
    } else {
      PlanEdges(db, plan, now);
      FewerEdges(db, ApplyPlan(db, plan, now).0);
    }
  }

  lemma EditSingle(db: Database, r: Request)
    requires WellKeyed(db) && SingleSuccessors(db) && r.DoEdit?
    ensures SingleSuccessors(Serve(db, r)) <==> !SecondSuccessor(db, r)
  {
    EditAccepted(db, r.id, r.expected, r.input, r.correlation);
    if EditManual(db, r.id, r.expected, r.input, r.correlation).1.Ok? {
      EditEffect(db, r.id, r.expected, r.input, r.correlation);
      hide EditManual, ValidManual, ValidCorrelation, InsertManual;
      NewEdge(db, Serve(db, r), r.id);
    }
  }

  lemma OtherEdges(db: Database, r: Request)
    requires !r.DoPlan? && !r.DoEdit?
    ensures Serve(db, r).relations <= db.relations
  {
    hide ValidManual, ValidCorrelation, EffectiveCategories, ToSet, NoRepeats, ExclusiveSources, SurvivingProfiles;
    hide DocumentOf;
  }

  /** Main result: "each memory has at most one successor" survives a request exactly when the request is no
      accepted edit of a memory that already has one. */
  lemma SingleSuccessorExactly(db: Database, r: Request)
    requires Invariant(db) && SingleSuccessors(db)
    ensures SingleSuccessors(Serve(db, r)) <==> !SecondSuccessor(db, r)
  {
    if r.DoPlan? {
      PlanSingle(db, r.plan, r.now);
    } else if r.DoEdit? {
      EditSingle(db, r);
    } else {
      OtherEdges(db, r);
      hide Serve;
      FewerEdges(db, Serve(db, r));
    }
  }
}
