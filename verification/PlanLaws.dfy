/** What a plan is answered and what it writes, over the values of the request and the tables it finds: which
    guard fails first, and afterwards every table. */
module PlanLaws {
  import opened Wrappers
  import opened Text
  import opened MemoryModel
  import opened StoreSpec
  import opened StoreInvariants
  import opened StoreEffects

  // ---------- guards ----------

  /** An item occurs again behind itself. */
  predicate Repeats<T(==)>(s: seq<T>) { exists k | 0 <= k < |s| :: s[k] in s[..k] }

  predicate OutsideUnit(x: real) { x < 0.0 || x > 1.0 }

  predicate Unscoped(scope: Scope) { scope.kind != GlobalScope && Blank(scope.key) }

  predicate EndsBeforeItStarts(validFrom: Option<int>, validUntil: Option<int>) {
    validFrom.Some? && validUntil.Some? && validUntil.value < validFrom.value
  }

  predicate BadLength(content: string) { |Normalize(content)| < 8 || |Normalize(content)| > 500 }

  predicate BadRun(run: string) { |run| > 128 || Blank(run) }

  predicate Overconfident(c: Candidate) {
    || OutsideUnit(c.confidence)
    || (c.mode.Observed? && c.confidence > 0.9)
    || (c.mode.Inferred? && c.confidence > 0.75)
    || (c.mode.Imported? && c.confidence > 0.95)
  }

  predicate BadCandidate(db: Database, c: Candidate) {
    || BadLength(c.content) || OutsideUnit(c.importance) || Overconfident(c)
    || |c.categories| > 5 || |c.sources| > 20 || (c.sources == [] && c.mode != Manual)
    || Unscoped(c.scope) || EndsBeforeItStarts(c.validFrom, c.validUntil) || !c.privacyAccepted
    || (exists s | s in c.sources :: s !in db.sources)
    || (exists a | a in c.sourceApps + c.appliesTo :: a !in db.apps)
  }

  predicate BadPlan(db: Database, plan: Plan) {
    match plan
    case Duplicate(_, _, sources, confidence) =>
      OutsideUnit(confidence) || exists s | s in sources :: s !in db.sources
    case Ignore(_, reason) => Blank(reason) || |reason| > 256
    case _ => BadCandidate(db, plan.candidate)
  }

  predicate BadInput(input: ManualInput) {
    || BadLength(input.content) || OutsideUnit(input.importance) || |input.categories| > 5
    || Unscoped(input.scope) || EndsBeforeItStarts(input.validFrom, input.validUntil)
  }

  predicate UnknownSlug(db: Database, slugs: seq<string>) { exists slug | slug in slugs :: slug !in db.categories }

  /** The categories a row would get, which include the default when none is named. */
  predicate Uncategorizable(db: Database, slugs: seq<string>) {
    UnknownSlug(db, slugs) || (slugs == [] && "uncategorized" !in db.categories)
  }

  /** The keys a candidate would insert twice. */
  predicate RepeatsKeys(c: Candidate) {
    Repeats(c.sourceApps) || Repeats(c.appliesTo) || Repeats(c.sources) || Repeats(c.mentions)
  }

  predicate BadTarget(db: Database, plan: Plan) {
    match plan
    case Duplicate(_, id, _, _) => id !in db.memories || db.memories[id].status != Active
    case Update(_, id, c, status) =>
      || id !in db.memories || db.memories[id].status != Active || status != Active
      || LessTrusted(c.mode, db.memories[id].mode)
    case Extend(_, id, _, _) => id !in db.memories || db.memories[id].status != Active
    case _ => false
  }

  lemma RepeatsExactly<T>(s: seq<T>)
    ensures NoRepeats(s) <==> !Repeats(s)
  {
    if !NoRepeats(s) {
      var i, j :| 0 <= i < j < |s| && s[i] == s[j];
      assert s[..j][i] == s[j];
    }
    if Repeats(s) {
      var k :| 0 <= k < |s| && s[k] in s[..k];
      var i :| 0 <= i < k && s[..k][i] == s[k];
      assert s[i] == s[k];
    }
  }

  lemma BadCandidateExactly(db: Database, c: Candidate)
    ensures AcceptableCandidate(db, c) <==> !BadCandidate(db, c)
  {
    hide Normalize, Blank;
  }

  lemma BadPlanExactly(db: Database, plan: Plan)
    ensures var e := PlanError(db, plan);
      && (e == Some(InvalidPlan) <==> BadPlan(db, plan))
      && (e == Some(UnknownCategory) <==>
            !BadPlan(db, plan) && Inserts(plan) && UnknownSlug(db, plan.candidate.categories))
      && (e.Some? ==> e.value.InvalidPlan? || e.value.UnknownCategory?)
  {
    if Inserts(plan) {
      BadCandidateExactly(db, plan.candidate);
    }
    hide AcceptableCandidate, BadCandidate, Blank;
  }

  lemma UncategorizableExactly(db: Database, slugs: seq<string>)
    ensures EffectiveCategories(slugs) <= db.categories <==> !Uncategorizable(db, slugs)
  {
  }

  lemma InsertAnswer(db: Database, c: Candidate, status: Status, revision: nat, now: int)
    ensures InsertCandidate(db, c, status, revision, now)
            == if Uncategorizable(db, c.categories) then Err(UnknownCategory)
               else if RepeatsKeys(c) then Err(Constraint)
               else Ok(InsertRow(db, CandidateMemory(c, status, revision, now), ToSet(c.sources)))
  {
    UncategorizableExactly(db, c.categories);
    RepeatsExactly(c.sourceApps);
    RepeatsExactly(c.appliesTo);
    RepeatsExactly(c.sources);
    RepeatsExactly(c.mentions);
    hide Repeats, NoRepeats, EffectiveCategories, Uncategorizable, CandidateMemory;
  }

  lemma MutateAnswer(db: Database, plan: Plan, now: int)
    ensures var r := Mutate(db, plan, now);
      && (r == Err(InvalidPlan) <==> BadTarget(db, plan))
      && (r == Err(UnknownCategory) <==>
            !BadTarget(db, plan) && Inserts(plan) && Uncategorizable(db, plan.candidate.categories))
      && (r == Err(Constraint) <==>
            && !BadTarget(db, plan) && Inserts(plan) && !Uncategorizable(db, plan.candidate.categories)
            && RepeatsKeys(plan.candidate))
      && (r.Err? ==> r.error.InvalidPlan? || r.error.UnknownCategory? || r.error.Constraint?)
  {
    if Inserts(plan) {
      var status := PlannedStatus(plan);
      InsertAnswer(db, plan.candidate, status, 1, now);
      if plan.Update? && plan.existing in db.memories {
        TrustOrder(plan.candidate.mode, db.memories[plan.existing].mode);
        InsertAnswer(db, plan.candidate, status, db.memories[plan.existing].revision + 1, now);
      }
    }
    hide InsertCandidate, Uncategorizable, RepeatsKeys, LessTrusted, CandidateMemory, RaiseConfidence;
  }

  /** The status a retried plan reports, by the outcome its audit row kept. */
  predicate Reports(status: Status, outcome: Outcome) {
    && (status.PendingReview? <==> outcome.ReviewRequested?)
    && (status.Rejected? <==> outcome.Ignored?)
    && (status.PendingReview? || status.Rejected? || status.Active?)
  }

  /** Main result on plans: what a plan is answered, by the first of its guards that fails. A refused plan
      and the retry of an applied one leave the store as it is, and the retry repeats the audit row. */
  lemma PlanAnswer(db: Database, plan: Plan, now: int)
    ensures var (after, reply) := ApplyPlan(db, plan, now);
      var bad := BadPlan(db, plan);
      var unknown := Inserts(plan) && UnknownSlug(db, plan.candidate.categories);
      var first := plan.key !in db.audit;
      var homeless := Inserts(plan) && Uncategorizable(db, plan.candidate.categories);
      var repeats := Inserts(plan) && RepeatsKeys(plan.candidate);
      && (reply == Err(InvalidPlan) <==> bad || (!unknown && first && BadTarget(db, plan)))
      && (reply == Err(UnknownCategory) <==> !bad && (unknown || (first && !BadTarget(db, plan) && homeless)))
      && (reply == Err(Constraint) <==> !bad && first && !BadTarget(db, plan) && !homeless && repeats)
      && (reply == Err(InvalidInput) <==>
            !bad && first && !BadTarget(db, plan) && !homeless && !repeats && BadRun(plan.key.run))
      && (reply.Err? ==> after == db && (reply.error.InvalidPlan? || reply.error.UnknownCategory?
                                         || reply.error.Constraint? || reply.error.InvalidInput?))
      && (reply.Ok? ==> (reply.value.alreadyApplied <==> !first))
      && (reply.Ok? && !first ==> after == db && reply.value.memory == db.audit[plan.key].memory
                                  && Reports(reply.value.status, db.audit[plan.key].outcome))
  {
    BadPlanExactly(db, plan);
    MutateAnswer(db, plan, now);
    hide PlanError, Mutate, BadPlan, BadTarget, RepeatsKeys, Blank;
    if Mutate(db, plan, now).Ok? {
      assert CloseMutation(Mutate(db, plan, now).value, plan.key, now).Ok? <==> !BadRun(plan.key.run);
      assert CloseMutation(Mutate(db, plan, now).value, plan.key, now).Err? ==>
          CloseMutation(Mutate(db, plan, now).value, plan.key, now) == Err(InvalidInput);
    }
    hide CloseMutation;
  }

  // ---------- what an applied plan writes ----------

  /** Both projection jobs of `id` are raised to at least `revision`, and every other job is as it was. */
  ghost predicate RefreshedTo(before: map<RefreshKey, nat>, after: map<RefreshKey, nat>, id: MemoryId, revision: nat) {
    && (forall k :: k in after <==> k in before || k.memory == id)
    && (forall k | k in before && k.memory != id :: after[k] == before[k])
    && forall k | k in after && k.memory == id ::
         && after[k] >= revision && (k in before ==> after[k] >= before[k])
         && (after[k] == revision || (k in before && after[k] == before[k]))
  }

  /** The search document of a row: its text, its classification and the apps it came from or applies to. */
  predicate Indexes(d: Document, m: Memory) {
    && d.content == m.content && d.categories == m.categories && d.entities == m.entities
    && forall app | app in d.apps + m.sourceApps + m.appliesTo ::
         app in d.apps && (app in m.sourceApps || app in m.appliesTo)
  }

  lemma RefreshExactly(db: Database, id: MemoryId, revision: nat)
    ensures RefreshedTo(db.refreshes, EnqueueRefresh(db, id, revision).refreshes, id, revision)
    ensures EnqueueRefresh(db, id, revision) == db.(refreshes := EnqueueRefresh(db, id, revision).refreshes)
  {
    forall k: RefreshKey ensures k.memory == id <==>
        k == RefreshKey(EmbeddingRefresh, id) || k == RefreshKey(ProfileRefresh, id)
    {
      match k.kind
      case EmbeddingRefresh =>
      case ProfileRefresh =>
    }
  }

  lemma DocumentIndexes(m: Memory)
    ensures Indexes(DocumentOf(m), m)
  {
  }

  function PlannedOutcome(plan: Plan): (outcome: Outcome)
    requires Inserts(plan)
    ensures outcome.Updated? <==> plan.Update?
    ensures outcome.Extended? <==> plan.Extend?
    ensures outcome.ReviewRequested? <==> plan.RequestReview?
    ensures outcome.Created? <==> plan.Create?
  {
    match plan
    case Create(_, _, _) => Created
    case Update(_, _, _, _) => Updated
    case Extend(_, _, _, _) => Extended
    case RequestReview(_, _, _) => ReviewRequested
  }

  /** The revision a plan's row starts at: one more than that of the row it replaces. */
  predicate FirstRevision(db: Database, plan: Plan, revision: nat)
    requires Inserts(plan) && (plan.Update? ==> plan.existing in db.memories)
  {
    if plan.Update? then revision == db.memories[plan.existing].revision + 1 else revision == 1
  }

  /** The rows after an inserting plan: the new one, and an updated one retired at its old revision. */
  ghost predicate PlannedRows(db: Database, plan: Plan, now: int, rows: map<MemoryId, Memory>)
    requires Inserts(plan)
  {
    var id := db.nextId;
    && (plan.Update? ==> plan.existing in db.memories) && id in rows
    && Records(rows[id], plan.candidate) && rows[id].updatedAt == now
    && rows[id].status == PlannedStatus(plan) && FirstRevision(db, plan, rows[id].revision)
    && rows == (if plan.Update?
         then db.memories[plan.existing :=
                db.memories[plan.existing].(status := Superseded, updatedAt := now)][id := rows[id]]
         else db.memories[id := rows[id]])
  }

  /** The search documents after it: the new row's exactly when it is active, and an updated row's no more. */
  ghost predicate PlannedDocuments(db: Database, plan: Plan, row: Memory, documents: map<MemoryId, Document>)
    requires Inserts(plan)
  {
    var id := db.nextId;
    && (id in documents <==> PlannedStatus(plan).Active?)
    && (id in documents ==> Indexes(documents[id], row))
    && (forall x | x != id :: x in documents <==> x in db.documents && !(plan.Update? && x == plan.existing))
    && (forall x | x in documents && x != id :: documents[x] == db.documents[x])
  }

  ghost predicate PlannedEdges(db: Database, plan: Plan, relations: set<Relation>) {
    && (plan.Update? ==> relations == db.relations + {Relation(db.nextId, plan.existing, UpdatesRelation)})
    && (plan.Extend? ==> relations == db.relations + {Relation(db.nextId, plan.existing, ExtendsRelation)})
    && (!plan.Update? && !plan.Extend? ==> relations == db.relations)
  }

  /** Exactly these sources are added to what `id` is linked to. */
  ghost predicate PlannedLinks(before: set<Link>, sources: seq<string>, id: MemoryId, links: set<Link>) {
    forall x, s :: Link(x, s) in links <==> Link(x, s) in before || (x == id && s in sources)
  }

  /** What closes every applied plan: its audit row and its event, and nothing in the tables it has no part in. */
  ghost predicate Closed(
      db: Database, plan: Plan, outcome: Outcome, memory: Option<MemoryId>, now: int, after: Database)
  {
    && after.audit == db.audit[plan.key := AuditRow(outcome, memory, now)]
    && after.events == db.events + [Event(ReconciliationApplied, plan.key.run, memory, now)]
    && after == db.(nextId := after.nextId, memories := after.memories, documents := after.documents,
                    relations := after.relations, links := after.links, audit := after.audit,
                    refreshes := after.refreshes, events := after.events)
  }

  lemma CloseExactly(db: Database, m: Mutation, plan: Plan, now: int)
    requires m.db == db.(nextId := m.db.nextId, memories := m.db.memories, documents := m.db.documents,
                         relations := m.db.relations, links := m.db.links)
    requires CloseMutation(m, plan.key, now).Ok?
    ensures var after := CloseMutation(m, plan.key, now).value;
      && Closed(db, plan, m.outcome, m.memory, now, after)
      && after.nextId == m.db.nextId && after.memories == m.db.memories && after.documents == m.db.documents
      && after.relations == m.db.relations && after.links == m.db.links
      && (m.memory.Some? && m.memory.value in m.db.memories ==>
            RefreshedTo(db.refreshes, after.refreshes, m.memory.value, m.db.memories[m.memory.value].revision))
      && (m.memory.None? ==> after.refreshes == db.refreshes)
  {
    hide ValidCorrelation, RefreshedTo;
    if m.memory.Some? && m.memory.value in m.db.memories {
      var audited := m.db.(audit := m.db.audit[plan.key := AuditRow(m.outcome, m.memory, now)]);
      RefreshExactly(audited, m.memory.value, m.db.memories[m.memory.value].revision);
      hide EnqueueRefresh;
    }
  }

  lemma InsertRowExactly(db: Database, plan: Plan, status: Status, revision: nat, now: int)
    requires Inserts(plan) && InsertCandidate(db, plan.candidate, status, revision, now).Ok?
    ensures var tx := InsertCandidate(db, plan.candidate, status, revision, now).value; var id := db.nextId;
      && tx == db.(nextId := id + 1, memories := tx.memories, documents := tx.documents, links := tx.links)
      && id in tx.memories && tx.memories == db.memories[id := tx.memories[id]]
      && Records(tx.memories[id], plan.candidate) && tx.memories[id].status == status
      && tx.memories[id].revision == revision && tx.memories[id].updatedAt == now
      && PlannedLinks(db.links, plan.candidate.sources, id, tx.links)
      && tx.documents == (if status.Active? then db.documents[id := DocumentOf(tx.memories[id])] else db.documents)
  {
    var c := plan.candidate;
    var m := CandidateMemory(c, status, revision, now);
    CandidateRecorded(c, status, revision, now);
    assert m.status == status && m.revision == revision && m.updatedAt == now;
    hide CandidateMemory, Records, EffectiveCategories, NoRepeats, DocumentOf;
    var tx := InsertRow(db, m, ToSet(c.sources));
    assert forall x, s :: Link(x, s) in LinksTo(db.nextId, ToSet(c.sources)) <==> x == db.nextId && s in c.sources;
    hide LinksTo;
  }

  function StartRevision(db: Database, plan: Plan): nat
    requires plan.Update? ==> plan.existing in db.memories
  {
    if plan.Update? then db.memories[plan.existing].revision + 1 else 1
  }

  /** The statements of an inserting plan in terms of its insertion alone. */
  lemma MutateInserts(db: Database, plan: Plan, now: int)
    requires Inserts(plan) && Mutate(db, plan, now).Ok?
    ensures plan.Update? ==> plan.existing in db.memories
    ensures var r := InsertCandidate(db, plan.candidate, PlannedStatus(plan), StartRevision(db, plan), now);
      var m := Mutate(db, plan, now).value; var id := db.nextId;
      && r.Ok? && m.memory == Some(id) && m.outcome == PlannedOutcome(plan) && m.status == PlannedStatus(plan)
      && (plan.Update? && plan.existing != id ==> m.db == r.value.(
            memories := r.value.memories[plan.existing :=
              db.memories[plan.existing].(status := Superseded, updatedAt := now)],
            documents := r.value.documents - {plan.existing},
            relations := db.relations + {Relation(id, plan.existing, UpdatesRelation)}))
      && (plan.Extend? ==>
            m.db == r.value.(relations := db.relations + {Relation(id, plan.existing, ExtendsRelation)}))
      && (!plan.Update? && !plan.Extend? ==> m.db == r.value)
  {
    hide CandidateMemory, EffectiveCategories, NoRepeats, DocumentOf, LinksTo;
    if plan.Update? {
      var target := db.memories[plan.existing];
      assert target.revision + 0 == target.revision;
    }
  }

  lemma DocumentsPlanned(
      db: Database, plan: Plan, row: Memory, d: Document, documents: map<MemoryId, Document>)
    requires Inserts(plan) && Indexes(d, row) && db.nextId !in db.documents
    requires plan.Update? ==> plan.existing != db.nextId
    requires var added := if PlannedStatus(plan).Active? then db.documents[db.nextId := d] else db.documents;
      documents == if plan.Update? then added - {plan.existing} else added
    ensures PlannedDocuments(db, plan, row, documents)
  {
    hide Indexes, PlannedStatus;
  }

  lemma MutateDocuments(db: Database, plan: Plan, now: int)
    requires WellKeyed(db) && Indexed(db) && Inserts(plan) && Mutate(db, plan, now).Ok?
    ensures var m := Mutate(db, plan, now).value;
      db.nextId in m.db.memories && PlannedDocuments(db, plan, m.db.memories[db.nextId], m.db.documents)
  {
    MutateInserts(db, plan, now);
    var id, revision := db.nextId, StartRevision(db, plan);
    InsertRowExactly(db, plan, PlannedStatus(plan), revision, now);
    var tx := InsertCandidate(db, plan.candidate, PlannedStatus(plan), revision, now).value;
    DocumentIndexes(tx.memories[id]);
    assert id !in db.memories && !IsActive(db, id) && id !in db.documents;
    var m := Mutate(db, plan, now).value;
    assert m.db.memories[id] == tx.memories[id];
    assert m.db.documents == if plan.Update? then tx.documents - {plan.existing} else tx.documents;
    assert plan.Update? ==> plan.existing != id;
    hide Mutate, Records, InsertCandidate, Indexes, DocumentOf, WellKeyed, Indexed, PlannedStatus, PlannedDocuments,
      PlannedLinks;
    DocumentsPlanned(db, plan, tx.memories[id], DocumentOf(tx.memories[id]), m.db.documents);
  }

  lemma MutateRows(db: Database, plan: Plan, now: int)
    requires WellKeyed(db) && Inserts(plan) && Mutate(db, plan, now).Ok?
    ensures PlannedRows(db, plan, now, Mutate(db, plan, now).value.db.memories)
  {
    MutateInserts(db, plan, now);
    InsertRowExactly(db, plan, PlannedStatus(plan), StartRevision(db, plan), now);
    assert db.nextId !in db.memories && (plan.Update? ==> plan.existing != db.nextId);
    hide Mutate, Records, InsertCandidate, WellKeyed, PlannedStatus, PlannedOutcome, PlannedLinks;
  }

  lemma MutateExactly(db: Database, plan: Plan, now: int)
    requires WellKeyed(db) && Indexed(db) && Inserts(plan) && Mutate(db, plan, now).Ok?
    ensures var m := Mutate(db, plan, now).value;
      && m.memory == Some(db.nextId) && m.outcome == PlannedOutcome(plan) && m.status == PlannedStatus(plan)
      && m.db == db.(nextId := db.nextId + 1, memories := m.db.memories, documents := m.db.documents,
                     relations := m.db.relations, links := m.db.links)
      && PlannedRows(db, plan, now, m.db.memories) && PlannedEdges(db, plan, m.db.relations)
      && PlannedLinks(db.links, plan.candidate.sources, db.nextId, m.db.links)
      && PlannedDocuments(db, plan, m.db.memories[db.nextId], m.db.documents)
  {
    MutateRows(db, plan, now);
    MutateInserts(db, plan, now);
    MutateDocuments(db, plan, now);
    assert db.nextId in Mutate(db, plan, now).value.db.memories;
    assert plan.Update? ==> plan.existing != db.nextId;
    InsertRowExactly(db, plan, PlannedStatus(plan), StartRevision(db, plan), now);
    hide Mutate, Records, InsertCandidate, WellKeyed, Indexed, PlannedStatus, PlannedOutcome, PlannedLinks,
      PlannedDocuments, PlannedRows;
  }

  /** Main result on plans with a candidate: every table after the plan. The new row holds the candidate and is
      linked to exactly its sources, an updated row is retired at its old revision, the relation says which it
      was, only an active row is searchable, and the projections of the new row are due. */
  lemma PlanExactly(db: Database, plan: Plan, now: int)
    requires WellKeyed(db) && Indexed(db) && Inserts(plan) && plan.key !in db.audit && ApplyPlan(db, plan, now).1.Ok?
    ensures var (after, reply) := ApplyPlan(db, plan, now); var id := db.nextId;
      && reply == Ok(PlanReply(Some(id), PlannedStatus(plan), false))
      && Closed(db, plan, PlannedOutcome(plan), Some(id), now, after) && after.nextId == id + 1
      && PlannedRows(db, plan, now, after.memories) && PlannedEdges(db, plan, after.relations)
      && PlannedLinks(db.links, plan.candidate.sources, id, after.links)
      && PlannedDocuments(db, plan, after.memories[id], after.documents)
      && RefreshedTo(db.refreshes, after.refreshes, id, after.memories[id].revision)
  {
    MutateExactly(db, plan, now);
    var m := Mutate(db, plan, now).value;
    assert m.db.memories[db.nextId].revision == m.db.memories[m.memory.value].revision;
    hide PlanError, Mutate, PlannedRows, PlannedEdges, PlannedLinks, PlannedDocuments, Closed, RefreshedTo, Inserts;
    CloseExactly(db, m, plan, now);
    hide CloseMutation;
  }

  /** Another extraction of a known memory: its confidence rises to the greater one, further sources support it,
      and nothing else about any memory changes. */
  lemma DuplicateExactly(db: Database, plan: Plan, now: int)
    requires plan.Duplicate? && plan.key !in db.audit && ApplyPlan(db, plan, now).1.Ok?
    ensures plan.existing in db.memories
    ensures var (after, reply) := ApplyPlan(db, plan, now); var id := plan.existing; var before := db.memories[id];
      && reply == Ok(PlanReply(Some(id), Active, false))
      && Closed(db, plan, Duplicated, Some(id), now, after)
      && after.memories == db.memories[id := before.(
           confidence := if plan.confidence > before.confidence then plan.confidence else before.confidence,
           revision := before.revision + 1, updatedAt := now)]
      && PlannedLinks(db.links, plan.sources, id, after.links)
      && after.nextId == db.nextId && after.documents == db.documents && after.relations == db.relations
      && RefreshedTo(db.refreshes, after.refreshes, id, before.revision + 1)
  {
    var m := Mutate(db, plan, now).value;
    hide PlanError, Closed, RefreshedTo;
    CloseExactly(db, m, plan, now);
    hide CloseMutation;
  }

  /** An ignored plan leaves its audit row and its event and nothing else. */
  lemma IgnoreExactly(db: Database, plan: Plan, now: int)
    requires plan.Ignore? && plan.key !in db.audit && ApplyPlan(db, plan, now).1.Ok?
    ensures ApplyPlan(db, plan, now)
            == (db.(audit := db.audit[plan.key := AuditRow(Ignored, None, now)],
                    events := db.events + [Event(ReconciliationApplied, plan.key.run, None, now)]),
                Ok(PlanReply(None, Rejected, false)))
  {
    hide PlanError, ValidCorrelation;
  }
}
