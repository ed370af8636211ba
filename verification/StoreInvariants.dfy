/** What every reachable database satisfies: referential integrity, agreement of the search index,
    lineage, provenance, and how a memory may change over any run. */
module StoreInvariants {
  import opened Wrappers
  import opened MemoryModel
  import opened StoreSpec

  /** The schema's keys and foreign keys, and the freshness of ids. */
  ghost predicate WellKeyed(db: Database) {
    && (forall id | id in db.memories :: id < db.nextId)
    && (forall r | r in db.relations :: r.newer in db.memories && r.older in db.memories)
    && (forall l | l in db.links :: l.memory in db.memories && l.source in db.sources)
    && (forall s | s in db.aliasSources :: s in db.sources)
    && (forall g | g in db.segments :: db.segments[g] != {} && forall s | s in db.segments[g] :: s in db.sources)
    && (forall k | k in db.audit && db.audit[k].memory.Some? :: db.audit[k].memory.value in db.memories)
    && (forall k | k in db.refreshes :: k.memory < db.nextId)
    && (forall id | id in db.tombstones :: id < db.nextId && id !in db.memories)
  }

  /** A search document exists for an id exactly when that memory is active, and mirrors the memory. */
  ghost predicate Indexed(db: Database) {
    && (forall id :: id in db.documents <==> IsActive(db, id))
    && (forall id | id in db.documents :: db.documents[id] == DocumentOf(db.memories[id]))
  }

  predicate Retired(s: Status) { s.Superseded? || s.Forgotten? }

  /** Every relation points from a later memory to an earlier one, and an `updates` edge never points
      from less trusted to more trusted nor to a memory still in use. */
  ghost predicate Lineage(db: Database) {
    forall r | r in db.relations && r.newer in db.memories && r.older in db.memories ::
      && r.older < r.newer
      && (r.kind.UpdatesRelation? ==>
            && db.memories[r.older].mode.TrustRank() <= db.memories[r.newer].mode.TrustRank()
            && Retired(db.memories[r.older].status))
  }

  ghost predicate Sourced(db: Database, id: MemoryId) { exists s :: s in db.sources && Link(id, s) in db.links }

  /** Every memory not asserted by hand can be traced to a retained source. */
  ghost predicate Provenance(db: Database) {
    forall id | id in db.memories && !db.memories[id].mode.Manual? :: Sourced(db, id)
  }

  ghost predicate Invariant(db: Database) { WellKeyed(db) && Indexed(db) && Lineage(db) && Provenance(db) }

  function Stage(s: Status): nat {
    match s
    case PendingReview => 0
    case Active => 1
    case Expired => 1
    case Superseded => 2
    case Rejected => 2
    case Forgotten => 3
  }

  predicate StatusForward(a: Status, b: Status) { a == b || Stage(a) < Stage(b) }

  /** How one row may change: identity and classification never; status only forward; and a change
      is visible as a new revision unless a plan superseded the row. */
  predicate RowEvolves(a: Memory, b: Memory) {
    && b == a.(status := b.status, mode := b.mode, confidence := b.confidence, revision := b.revision,
               updatedAt := b.updatedAt)
    && StatusForward(a.status, b.status)
    && (a.mode == b.mode || (a.status.PendingReview? && b.mode.Manual?))
    && (a == b || b.status.Superseded? || a.revision < b.revision)
    && a.revision <= b.revision
  }

  ghost predicate Evolves(a: Database, b: Database) {
    && a.nextId <= b.nextId
    && (forall id | id in a.memories && id in b.memories :: RowEvolves(a.memories[id], b.memories[id]))
    && (forall id | id in b.memories && id < a.nextId :: id in a.memories)
  }

  /** One or more committed transactions: the invariant holds after them and every row went forward. */
  ghost predicate Advances(a: Database, b: Database) { Invariant(b) && Evolves(a, b) }

  lemma Compose(a: Database, b: Database, c: Database)
    requires Invariant(a) && Advances(a, b) && Advances(b, c)
    ensures Advances(a, c)
  {
    forall id | id in a.memories && id in c.memories ensures RowEvolves(a.memories[id], c.memories[id]) {
      assert id < a.nextId <= b.nextId;
      assert id in b.memories;
    }
  }

  // ---------- primitive steps ----------

  lemma InsertRowKeepsProvenance(db: Database, m: Memory, sources: set<string>)
    requires WellKeyed(db) && Provenance(db)
    requires forall s | s in sources :: s in db.sources
    requires m.mode.Manual? || sources != {}
    ensures Provenance(InsertRow(db, m, sources))
  {
    var after := InsertRow(db, m, sources);
    forall id | id in after.memories && !after.memories[id].mode.Manual? ensures Sourced(after, id) {
      if id == db.nextId {
        var s :| s in sources;
        assert Link(id, s) in after.links;
      } else {
        assert Sourced(db, id);
      }
    }
  }

  lemma InsertRowKeepsKeys(db: Database, m: Memory, sources: set<string>)
    requires WellKeyed(db) && forall s | s in sources :: s in db.sources
    ensures WellKeyed(InsertRow(db, m, sources))
    ensures db.nextId !in db.memories && forall r | r in db.relations :: r.newer != db.nextId && r.older != db.nextId
  {
  }

  lemma InsertRowKeeps(db: Database, m: Memory, sources: set<string>)
    requires Invariant(db)
    requires forall s | s in sources :: s in db.sources
    requires m.mode.Manual? || sources != {}
    ensures Invariant(InsertRow(db, m, sources))
  {
    InsertRowKeepsKeys(db, m, sources);
    InsertRowKeepsProvenance(db, m, sources);
  }

  /** One row rewritten in place, with its search document kept in step. */
  ghost predicate Rewrites(db: Database, id: MemoryId, m: Memory, after: Database) {
    && id in db.memories && RowEvolves(db.memories[id], m)
    && db.memories[id].mode.TrustRank() <= m.mode.TrustRank()
    && after.memories == db.memories[id := m]
    && after.documents == (if m.status.Active? then db.documents[id := DocumentOf(m)] else db.documents - {id})
    && after.nextId == db.nextId && after.relations == db.relations && after.links == db.links
    && after.sources == db.sources && after.aliasSources == db.aliasSources && after.segments == db.segments
    && after.audit == db.audit && after.tombstones == db.tombstones
    && (forall k | k in after.refreshes :: k in db.refreshes || k.memory == id)
  }

  lemma RewriteKeepsLineage(db: Database, id: MemoryId, m: Memory, after: Database)
    requires WellKeyed(db) && Lineage(db) && Rewrites(db, id, m, after)
    ensures Lineage(after)
  {
    forall r | r in after.relations && r.newer in after.memories && r.older in after.memories
      ensures r.older < r.newer
      ensures r.kind.UpdatesRelation? ==>
        && after.memories[r.older].mode.TrustRank() <= after.memories[r.newer].mode.TrustRank()
        && Retired(after.memories[r.older].status)
    {
      assert r in db.relations;
      if r.kind.UpdatesRelation? && r.older == id {
        assert Retired(db.memories[id].status) && !db.memories[id].status.PendingReview?;
        assert m.mode == db.memories[id].mode;
      }
    }
  }

  lemma RewriteKeepsProvenance(db: Database, id: MemoryId, m: Memory, after: Database)
    requires Provenance(db) && Rewrites(db, id, m, after)
    ensures Provenance(after)
  {
    forall x | x in after.memories && !after.memories[x].mode.Manual? ensures Sourced(after, x) {
      assert Sourced(db, x);
    }
  }

  lemma {:induction false} RewriteKeeps(db: Database, id: MemoryId, m: Memory, after: Database)
    requires Invariant(db) && Rewrites(db, id, m, after)
    ensures Invariant(after)
  {
    RewriteKeepsLineage(db, id, m, after);
    RewriteKeepsProvenance(db, id, m, after);
  }

  lemma RelateKeeps(db: Database, newer: MemoryId, older: MemoryId, kind: RelationKind)
    requires Invariant(db) && newer in db.memories && older in db.memories && older < newer
    requires kind.UpdatesRelation? ==>
      Retired(db.memories[older].status) && db.memories[older].mode.TrustRank() <= db.memories[newer].mode.TrustRank()
    ensures Invariant(Relate(db, newer, older, kind))
  {
    var after := Relate(db, newer, older, kind);
    forall x | x in after.memories && !after.memories[x].mode.Manual? ensures Sourced(after, x) {
      assert Sourced(db, x);
    }
  }

  /** Transactions that leave the memories and what hangs on them alone. */
  ghost predicate SameRows(a: Database, b: Database) {
    && b.nextId == a.nextId && b.memories == a.memories && b.documents == a.documents
    && b.relations == a.relations && a.links <= b.links && a.sources.Keys <= b.sources.Keys
  }

  lemma SameRowsKeeps(a: Database, b: Database)
    requires Invariant(a) && SameRows(a, b) && WellKeyed(b)
    ensures Invariant(b)
  {
    forall x | x in b.memories && !b.memories[x].mode.Manual? ensures Sourced(b, x) {
      assert Sourced(a, x);
    }
  }

  lemma SupersedeKeeps(db: Database, newer: MemoryId, older: MemoryId, bump: nat, now: int)
    requires Invariant(db) && newer in db.memories && older in db.memories && older < newer
    requires Stage(db.memories[older].status) <= 1 || db.memories[older].status.Superseded?
    requires db.memories[older].mode.TrustRank() <= db.memories[newer].mode.TrustRank()
    ensures Invariant(Relate(Supersede(db, older, bump, now), newer, older, UpdatesRelation))
  {
    var superseded := Supersede(db, older, bump, now);
    RewriteKeeps(db, older, superseded.memories[older], superseded);
    RelateKeeps(superseded, newer, older, UpdatesRelation);
  }

  // ---------- plans ----------

  lemma InsertCandidateKeeps(db: Database, c: Candidate, status: Status, revision: nat, now: int)
    requires Invariant(db) && AcceptableCandidate(db, c)
    requires InsertCandidate(db, c, status, revision, now).Ok?
    ensures Invariant(InsertCandidate(db, c, status, revision, now).value)
    ensures InsertCandidate(db, c, status, revision, now).value.memories
            == db.memories[db.nextId := CandidateMemory(c, status, revision, now)]
  {
    if !c.mode.Manual? {
      assert c.sources[0] in ToSet(c.sources);
    }
    InsertRowKeeps(db, CandidateMemory(c, status, revision, now), ToSet(c.sources));
  }

  lemma {:induction false} DuplicateKeeps(db: Database, plan: Plan, now: int)
    requires Invariant(db) && plan.Duplicate? && PlanError(db, plan).None? && Mutate(db, plan, now).Ok?
    ensures Invariant(Mutate(db, plan, now).value.db)
  {
    var linked := db.(links := db.links + LinksTo(plan.existing, ToSet(plan.sources)));
    SameRowsKeeps(db, linked);
    var after := RaiseConfidence(linked, plan.existing, plan.confidence, now);
    RewriteKeeps(linked, plan.existing, after.memories[plan.existing], after);
  }

  lemma {:induction false} UpdateKeeps(db: Database, plan: Plan, now: int)
    requires Invariant(db) && plan.Update? && PlanError(db, plan).None? && Mutate(db, plan, now).Ok?
    ensures Invariant(Mutate(db, plan, now).value.db)
  {
    assert plan.existing < db.nextId;
    var revision := db.memories[plan.existing].revision + 1;
    var inserted := InsertCandidate(db, plan.candidate, Active, revision, now).value;
    InsertCandidateKeeps(db, plan.candidate, Active, revision, now);
    SupersedeKeeps(inserted, db.nextId, plan.existing, 0, now);
  }

  lemma ExtendKeeps(db: Database, plan: Plan, now: int)
    requires Invariant(db) && plan.Extend? && PlanError(db, plan).None? && Mutate(db, plan, now).Ok?
    ensures Invariant(Mutate(db, plan, now).value.db)
  {
    assert plan.existing < db.nextId;
    var inserted := InsertCandidate(db, plan.candidate, plan.status, 1, now).value;
    InsertCandidateKeeps(db, plan.candidate, plan.status, 1, now);
    RelateKeeps(inserted, db.nextId, plan.existing, ExtendsRelation);
  }

  lemma MutateKeeps(db: Database, plan: Plan, now: int)
    requires Invariant(db) && PlanError(db, plan).None? && Mutate(db, plan, now).Ok?
    ensures Invariant(Mutate(db, plan, now).value.db)
  {
    match plan
    case Create(_, c, status) => InsertCandidateKeeps(db, c, status, 1, now);
    case RequestReview(_, c, _) => InsertCandidateKeeps(db, c, PendingReview, 1, now);
    case Duplicate(_, _, _, _) => DuplicateKeeps(db, plan, now);
    case Update(_, _, _, _) => UpdateKeeps(db, plan, now);
    case Extend(_, _, _, _) => ExtendKeeps(db, plan, now);
    case Ignore(_, _) =>
  }

  lemma MutateTarget(db: Database, plan: Plan, now: int)
    requires Mutate(db, plan, now).Ok?
    ensures var m := Mutate(db, plan, now).value; m.memory.Some? ==> m.memory.value in m.db.memories
  {
  }

  lemma CloseMutationKeeps(m: Mutation, key: PlanKey, now: int)
    requires Invariant(m.db) && (m.memory.Some? ==> m.memory.value in m.db.memories)
    requires CloseMutation(m, key, now).Ok?
    ensures Invariant(CloseMutation(m, key, now).value)
  {
    var after := CloseMutation(m, key, now).value;
    assert WellKeyed(after);
    SameRowsKeeps(m.db, after);
  }

  lemma ApplyPlanKeeps(db: Database, plan: Plan, now: int)
    requires Invariant(db)
    ensures Invariant(ApplyPlan(db, plan, now).0)
  {
    if PlanError(db, plan).None? && plan.key !in db.audit && Mutate(db, plan, now).Ok? {
      var m := Mutate(db, plan, now).value;
      if CloseMutation(m, plan.key, now).Ok? {
        MutateKeeps(db, plan, now);
        MutateTarget(db, plan, now);
        CloseMutationKeeps(m, plan.key, now);
      }
    }
  }

  // ---------- manual operations and deletion ----------

  lemma RefreshedKeeps(db: Database, id: MemoryId, revision: nat, e: Event)
    requires Invariant(db) && id in db.memories
    requires Record(EnqueueRefresh(db, id, revision), e).Ok?
    ensures Invariant(Record(EnqueueRefresh(db, id, revision), e).value)
  {
    SameRowsKeeps(db, Record(EnqueueRefresh(db, id, revision), e).value);
  }

  lemma InsertManualKeeps(db: Database, input: ManualInput, revision: nat)
    requires Invariant(db) && InsertManual(db, input, revision).Ok?
    ensures Invariant(InsertManual(db, input, revision).value)
    ensures InsertManual(db, input, revision).value.memories == db.memories[db.nextId := ManualMemory(input, revision)]
  {
    InsertRowKeeps(db, ManualMemory(input, revision), {});
  }

  lemma CreateManualKeeps(db: Database, input: ManualInput, correlation: string)
    requires Invariant(db)
    ensures Invariant(CreateManual(db, input, correlation).0)
  {
    var after := CreateManual(db, input, correlation).0;
    if after != db {
      var inserted := InsertManual(db, input, 1).value;
      InsertManualKeeps(db, input, 1);
      RefreshedKeeps(inserted, db.nextId, 1, Event(ReconciliationApplied, correlation, Some(db.nextId), input.now));
    }
  }

  lemma {:induction false} ReplaceKeeps(db: Database, id: MemoryId, expected: nat, input: ManualInput)
    requires Invariant(db) && id in db.memories && Replace(db, id, expected, input).Ok?
    requires !db.memories[id].status.Forgotten? && !db.memories[id].status.Rejected?
    ensures Invariant(Replace(db, id, expected, input).value)
    ensures db.nextId in Replace(db, id, expected, input).value.memories
  {
    assert id < db.nextId;
    var inserted := InsertManual(db, input, expected + 1).value;
    InsertManualKeeps(db, input, expected + 1);
    SupersedeKeeps(inserted, db.nextId, id, 1, input.now);
  }

  lemma EditManualKeeps(db: Database, id: MemoryId, expected: nat, input: ManualInput, correlation: string)
    requires Invariant(db)
    ensures Invariant(EditManual(db, id, expected, input, correlation).0)
  {
    var after := EditManual(db, id, expected, input, correlation).0;
    if after != db {
      var replaced := Replace(db, id, expected, input).value;
      ReplaceKeeps(db, id, expected, input);
      RefreshedKeeps(replaced, db.nextId, expected + 1, Event(MemoryEdited, correlation, Some(db.nextId), input.now));
    }
  }

  lemma ConfirmKeeps(db: Database, id: MemoryId, expected: nat, correlation: string, now: int)
    requires Invariant(db)
    ensures Invariant(ConfirmPending(db, id, expected, correlation, now).0)
  {
    var after := ConfirmPending(db, id, expected, correlation, now).0;
    if after != db {
      RewriteKeeps(db, id, after.memories[id], after);
    }
  }

  lemma RejectKeeps(db: Database, id: MemoryId, expected: nat, correlation: string, now: int)
    requires Invariant(db)
    ensures Invariant(RejectPending(db, id, expected, correlation, now).0)
  {
    var after := RejectPending(db, id, expected, correlation, now).0;
    if after != db {
      RewriteKeeps(db, id, after.memories[id], after);
    }
  }

  lemma DeletePermanentlyKeepsKeys(db: Database, id: MemoryId, expected: nat)
    requires WellKeyed(db) && id in db.memories && ExclusiveSources(db, id) !! db.aliasSources
    ensures WellKeyed(DeletePermanently(db, id, expected))
  {
    var after := DeletePermanently(db, id, expected);
    forall l | l in after.links ensures l.memory in after.memories && l.source in after.sources {
      assert l in db.links && l.source !in ExclusiveSources(db, id);
    }
  }

  lemma DeletePermanentlyKeeps(db: Database, id: MemoryId, expected: nat)
    requires Invariant(db) && id in db.memories && ExclusiveSources(db, id) !! db.aliasSources
    ensures Invariant(DeletePermanently(db, id, expected))
  {
    DeletePermanentlyKeepsKeys(db, id, expected);
    var after := DeletePermanently(db, id, expected);
    forall x | x in after.memories && !after.memories[x].mode.Manual? ensures Sourced(after, x) {
      assert Sourced(db, x);
      var s :| s in db.sources && Link(x, s) in db.links;
      assert Link(x, s) in after.links;
    }
  }

  lemma EventKeeps(a: Database, b: Database)
    requires Invariant(a) && b == a.(events := b.events)
    ensures Invariant(b)
  {
    SameRowsKeeps(a, b);
  }

  lemma DeleteMemoryKeeps(db: Database, id: MemoryId, expected: nat, mode: DeleteMode, correlation: string, now: int)
    requires Invariant(db)
    ensures Invariant(DeleteMemory(db, id, expected, mode, correlation, now).0)
  {
    var after := DeleteMemory(db, id, expected, mode, correlation, now).0;
    if after != db {
      if mode.Forget? {
        RewriteKeeps(db, id, after.memories[id], after);
      } else {
        var deleted := DeletePermanently(db, id, expected);
        DeletePermanentlyKeeps(db, id, expected);
        EventKeeps(deleted, after);
        hide Invariant, Advances;
      }
    }
  }

  // ---------- requests that feed the side tables ----------

  lemma AddSegmentKeeps(db: Database, segment: string, sources: seq<string>)
    requires Invariant(db)
    ensures Invariant(AddSegment(db, segment, sources))
  {
    var after := AddSegment(db, segment, sources);
    if after != db {
      assert sources[0] in ToSet(sources);
    }
    assert WellKeyed(after);
    SameRowsKeeps(db, after);
  }

  lemma AddSourceKeepsKeys(db: Database, source: string, row: Source)
    requires WellKeyed(db)
    ensures WellKeyed(AddSource(db, source, row))
  {
  }

  lemma {:induction false} AddSourceKeeps(db: Database, source: string, row: Source)
    requires Invariant(db)
    ensures Invariant(AddSource(db, source, row))
  {
    AddSourceKeepsKeys(db, source, row);
    SameRowsKeeps(db, AddSource(db, source, row));
  }

  lemma CiteSourceKeeps(db: Database, source: string)
    requires Invariant(db)
    ensures Invariant(CiteSource(db, source))
  {
    assert WellKeyed(CiteSource(db, source));
    SameRowsKeeps(db, CiteSource(db, source));
  }

  lemma RetainKeeps(db: Database, now: int)
    requires Invariant(db)
    ensures Invariant(Retain(db, now))
  {
    assert WellKeyed(Retain(db, now));
    SameRowsKeeps(db, Retain(db, now));
  }

  lemma PutProfileKeeps(db: Database, key: ProfileKey, profile: Profile, correlation: string, now: int)
    requires Invariant(db)
    ensures Invariant(PutProfile(db, key, profile, correlation, now))
  {
    SameRowsKeeps(db, PutProfile(db, key, profile, correlation, now));
  }

  lemma {:induction false} UpsertEmbeddingKeeps(db: Database, id: MemoryId)
    requires Invariant(db)
    ensures Invariant(UpsertEmbedding(db, id))
  {
    assert WellKeyed(UpsertEmbedding(db, id));
    SameRowsKeeps(db, UpsertEmbedding(db, id));
  }

  // ---------- every request, every run ----------

  lemma ServeKeeps(db: Database, r: Request)
    requires Invariant(db)
    ensures Invariant(Serve(db, r))
  {
    hide ApplyPlan, CreateManual, EditManual, ConfirmPending, RejectPending, DeleteMemory, Retain, PutProfile,
      UpsertEmbedding, AddSource, AddSegment, CiteSource, Invariant;
    match r
    case DoPlan(plan, now) => ApplyPlanKeeps(db, plan, now);
    case DoCreate(input, correlation) => CreateManualKeeps(db, input, correlation);
    case DoEdit(id, expected, input, correlation) => EditManualKeeps(db, id, expected, input, correlation);
    case DoConfirm(id, expected, correlation, now) => ConfirmKeeps(db, id, expected, correlation, now);
    case DoReject(id, expected, correlation, now) => RejectKeeps(db, id, expected, correlation, now);
    case DoDelete(id, expected, mode, correlation, now) => DeleteMemoryKeeps(db, id, expected, mode, correlation, now);
    case DoRetain(now) => RetainKeeps(db, now);
    case DoPutProfile(key, profile, correlation, now) => PutProfileKeeps(db, key, profile, correlation, now);
    case DoEmbed(id) => UpsertEmbeddingKeeps(db, id);
    case DoAddSource(source, row) => AddSourceKeeps(db, source, row);
    case DoAddSegment(segment, sources) => AddSegmentKeeps(db, segment, sources);
    case DoCite(source) => CiteSourceKeeps(db, source);
  }

  // ---------- how rows change ----------

  /** One row rewritten, or none: `m` is then the row itself. */
  lemma RewrittenEvolves(a: Database, b: Database, id: MemoryId, m: Memory)
    requires WellKeyed(a) && id in a.memories && RowEvolves(a.memories[id], m)
    requires b.nextId == a.nextId && b.memories == a.memories[id := m]
    ensures Evolves(a, b)
  {
  }

  /** One row inserted under the next id and one old row rewritten. */
  lemma ReplacedEvolves(a: Database, b: Database, n: Memory, id: MemoryId, m: Memory)
    requires WellKeyed(a) && id in a.memories && RowEvolves(a.memories[id], m)
    requires b.nextId == a.nextId + 1 && b.memories == a.memories[a.nextId := n][id := m]
    ensures Evolves(a, b)
  {
  }

  lemma InsertedEvolves(a: Database, b: Database, n: Memory)
    requires WellKeyed(a) && b.nextId == a.nextId + 1 && b.memories == a.memories[a.nextId := n]
    ensures Evolves(a, b)
  {
  }

  lemma PlanEvolves(db: Database, plan: Plan, now: int)
    requires WellKeyed(db) && Mutate(db, plan, now).Ok?
    ensures Evolves(db, Mutate(db, plan, now).value.db)
  {
    var after := Mutate(db, plan, now).value.db;
    match plan
    case Duplicate(_, id, _, _) => RewrittenEvolves(db, after, id, after.memories[id]);
    case Update(_, id, c, status) =>
      ReplacedEvolves(db, after, CandidateMemory(c, status, db.memories[id].revision + 1, now), id, after.memories[id]);
    case Create(_, c, status) => InsertedEvolves(db, after, CandidateMemory(c, status, 1, now));
    case Extend(_, _, c, status) => InsertedEvolves(db, after, CandidateMemory(c, status, 1, now));
    case RequestReview(_, c, _) => InsertedEvolves(db, after, CandidateMemory(c, PendingReview, 1, now));
    case Ignore(_, _) =>
  }

  lemma CloseMutationRows(m: Mutation, key: PlanKey, now: int)
    requires CloseMutation(m, key, now).Ok?
    ensures var after := CloseMutation(m, key, now).value;
      && after.memories == m.db.memories && after.nextId == m.db.nextId && after.relations == m.db.relations
      && after.audit == m.db.audit[key := AuditRow(m.outcome, m.memory, now)]
  {
  }

  lemma ApplyPlanEvolves(db: Database, plan: Plan, now: int)
    requires WellKeyed(db)
    ensures Evolves(db, ApplyPlan(db, plan, now).0)
  {
    if PlanError(db, plan).None? && plan.key !in db.audit && Mutate(db, plan, now).Ok? {
      PlanEvolves(db, plan, now);
      if CloseMutation(Mutate(db, plan, now).value, plan.key, now).Ok? {
        CloseMutationRows(Mutate(db, plan, now).value, plan.key, now);
      }
    }
  }

  lemma CreateEvolves(db: Database, input: ManualInput, correlation: string)
    requires WellKeyed(db)
    ensures Evolves(db, CreateManual(db, input, correlation).0)
  {
    if CreateManual(db, input, correlation).0 != db {
      InsertedEvolves(db, CreateManual(db, input, correlation).0, ManualMemory(input, 1));
    }
  }

  lemma EditEvolves(db: Database, id: MemoryId, expected: nat, input: ManualInput, correlation: string)
    requires WellKeyed(db)
    ensures Evolves(db, EditManual(db, id, expected, input, correlation).0)
  {
    var after := EditManual(db, id, expected, input, correlation).0;
    if after != db {
      ReplacedEvolves(db, after, ManualMemory(input, expected + 1), id, after.memories[id]);
    }
  }

  lemma EvolvesSelf(db: Database)
    ensures Evolves(db, db)
  {
  }

  lemma ConfirmEvolves(db: Database, id: MemoryId, expected: nat, correlation: string, now: int)
    requires WellKeyed(db)
    ensures Evolves(db, ConfirmPending(db, id, expected, correlation, now).0)
  {
    hide ValidCorrelation, DocumentOf, UpsertRefresh;
    EvolvesSelf(db);
    var confirmed := ConfirmPending(db, id, expected, correlation, now).0;
    if confirmed != db {
      RewrittenEvolves(db, confirmed, id, confirmed.memories[id]);
    }
    hide Evolves;
  }

  lemma RejectEvolves(db: Database, id: MemoryId, expected: nat, correlation: string, now: int)
    requires WellKeyed(db)
    ensures Evolves(db, RejectPending(db, id, expected, correlation, now).0)
  {
    hide ValidCorrelation;
    EvolvesSelf(db);
    var rejected := RejectPending(db, id, expected, correlation, now).0;
    if rejected != db {
      RewrittenEvolves(db, rejected, id, rejected.memories[id]);
    }
    hide Evolves;
  }

  lemma DeleteEvolves(db: Database, id: MemoryId, expected: nat, mode: DeleteMode, correlation: string, now: int)
    requires WellKeyed(db)
    ensures Evolves(db, DeleteMemory(db, id, expected, mode, correlation, now).0)
  {
    var after := DeleteMemory(db, id, expected, mode, correlation, now).0;
    if after != db && mode.Forget? {
      RewrittenEvolves(db, after, id, after.memories[id]);
    }
  }

  lemma {:induction false} SideRequestEvolves(db: Database, r: Request)
    requires WellKeyed(db)
    requires r.DoRetain? || r.DoPutProfile? || r.DoEmbed? || r.DoAddSource? || r.DoAddSegment? || r.DoCite?
    ensures Evolves(db, Serve(db, r))
  {
    hide ValidCorrelation, NoRepeats, KeepRecent, Purged;
    var after := Serve(db, r);
    assert after.memories == db.memories && after.nextId == db.nextId;
    hide Serve;
  }

  lemma ServeEvolves(db: Database, r: Request)
    requires WellKeyed(db)
    ensures Evolves(db, Serve(db, r))
  {
    hide ApplyPlan, CreateManual, EditManual, ConfirmPending, RejectPending, DeleteMemory;
    match r
    case DoPlan(plan, now) => ApplyPlanEvolves(db, plan, now);
    case DoEdit(id, expected, input, correlation) => EditEvolves(db, id, expected, input, correlation);
    case DoConfirm(id, expected, correlation, now) => ConfirmEvolves(db, id, expected, correlation, now);
    case DoReject(id, expected, correlation, now) => RejectEvolves(db, id, expected, correlation, now);
    case DoDelete(id, expected, mode, correlation, now) => DeleteEvolves(db, id, expected, mode, correlation, now);
    case DoCreate(input, correlation) => CreateEvolves(db, input, correlation);
    case _ => SideRequestEvolves(db, r);
  }

  /** Main result: in every database that any run of requests reaches, the search index agrees with the
      memories, lineage and provenance hold, and every memory evolved only forward. */
  lemma {:induction false} RunKeeps(db: Database, requests: seq<Request>)
    requires Invariant(db)
    ensures Advances(db, Run(db, requests))
    decreases |requests|
  {
    if requests != [] {
      ServeKeeps(db, requests[0]);
      ServeEvolves(db, requests[0]);
      RunKeeps(Serve(db, requests[0]), requests[1..]);
      Compose(db, Serve(db, requests[0]), Run(db, requests));
    }
  }

  lemma EmptyInvariant(apps: set<string>, categories: set<string>, sourceDays: nat, auditDays: nat)
    ensures Invariant(EmptyDatabase(apps, categories, sourceDays, auditDays))
  {
  }
}
