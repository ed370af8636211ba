/** The memory database as a value: one map or set per table, and what each committed transaction
    of the store does to them. A transaction that fails leaves the value unchanged. */
module StoreSpec {
  import opened Wrappers
  import opened Integers
  import opened Text
  import opened MemoryModel

  datatype StoreError =
    | InvalidInput
    | InvalidPlan
    | UnknownCategory
    | NotFound
    | RevisionConflict(expected: nat, actual: nat)
    | Constraint  // a key or foreign-key constraint of the schema

  datatype Document = Document(content: string, categories: set<string>, entities: set<EntityLink>, apps: set<string>)

  datatype RelationKind = UpdatesRelation | ExtendsRelation

  datatype Relation = Relation(newer: MemoryId, older: MemoryId, kind: RelationKind)

  datatype Link = Link(memory: MemoryId, source: string)

  datatype Source = Source(text: string, startedAt: int, endedAt: int)

  datatype Outcome = Created | Duplicated | Updated | Extended | Ignored | ReviewRequested

  datatype AuditRow = AuditRow(outcome: Outcome, memory: Option<MemoryId>, createdAt: int)

  datatype ProjectionType = GlobalProfile | AppProfile | ProjectProfile | CategoryProfile | EntityProfile

  datatype ProfileKey = ProfileKey(projection: ProjectionType, key: string)

  datatype ProfileItem = ProfileItem(memory: MemoryId, content: string, updatedAt: int)

  datatype Profile = Profile(stable: seq<ProfileItem>, current: seq<ProfileItem>, sourceRevision: nat)

  datatype RefreshKind = EmbeddingRefresh | ProfileRefresh

  datatype RefreshKey = RefreshKey(kind: RefreshKind, memory: MemoryId)

  datatype EventKind =
    | ReconciliationApplied | MemoryConfirmed | MemoryRejected | MemoryEdited
    | MemoryForgotten | MemoryDeleted | ProfileRegenerated

  datatype Event = Event(kind: EventKind, correlation: string, memory: Option<MemoryId>, occurredAt: int)

  datatype Database = Database(
    nextId: MemoryId,
    memories: map<MemoryId, Memory>,
    documents: map<MemoryId, Document>,
    relations: set<Relation>,
    links: set<Link>,
    sources: map<string, Source>,
    aliasSources: set<string>,
    segments: map<string, set<string>>,
    audit: map<PlanKey, AuditRow>,
    profiles: map<ProfileKey, Profile>,
    embeddings: set<MemoryId>,
    refreshes: map<RefreshKey, nat>,
    tombstones: map<MemoryId, nat>,
    events: seq<Event>,
    apps: set<string>,
    categories: set<string>,
    sourceDays: nat,
    auditDays: nat)

  function EmptyDatabase(apps: set<string>, categories: set<string>, sourceDays: nat, auditDays: nat): Database {
    Database(0, map[], map[], {}, {}, map[], {}, map[], map[], map[], {}, map[], map[], [],
             apps, categories, sourceDays, auditDays)
  }

  // ---------- validation ----------

  predicate ValidCorrelation(id: string) { !Blank(id) && |id| <= 128 }

  predicate NoRepeats<T(==)>(s: seq<T>) { forall i, j | 0 <= i < j < |s| :: s[i] != s[j] }

  function ToSet<T>(s: seq<T>): set<T> { set x | x in s }

  predicate ReversedValidity(from: Option<int>, until: Option<int>) {
    from.Some? && until.Some? && until.value < from.value
  }

  predicate ValidContent(content: string) { 8 <= |Normalize(content)| <= 500 }

  predicate ValidManual(input: ManualInput) {
    && ValidContent(input.content)
    && 0.0 <= input.importance <= 1.0
    && |input.categories| <= 5
    && (!input.scope.kind.GlobalScope? ==> !Blank(input.scope.key))
    && !ReversedValidity(input.validFrom, input.validUntil)
  }

  predicate AcceptableCandidate(db: Database, c: Candidate) {
    && ValidContent(c.content)
    && 0.0 <= c.importance <= 1.0
    && 0.0 <= c.confidence <= c.mode.ConfidenceCeiling()
    && |c.categories| <= 5
    && (!c.mode.Manual? ==> 1 <= |c.sources|)
    && |c.sources| <= 20
    && (!c.scope.kind.GlobalScope? ==> !Blank(c.scope.key))
    && !ReversedValidity(c.validFrom, c.validUntil)
    && c.privacyAccepted
    && (forall s | s in c.sources :: s in db.sources)
    && (forall a | a in c.sourceApps :: a in db.apps)
    && (forall a | a in c.appliesTo :: a in db.apps)
  }

  function CandidateError(db: Database, c: Candidate): Option<StoreError> {
    if !AcceptableCandidate(db, c) then Some(InvalidPlan)
    else if exists slug | slug in c.categories :: slug !in db.categories then Some(UnknownCategory)
    else None
  }

  function PlanError(db: Database, plan: Plan): Option<StoreError> {
    match plan
    case Duplicate(_, _, sources, confidence) =>
      if 0.0 <= confidence <= 1.0 && forall s | s in sources :: s in db.sources then None else Some(InvalidPlan)
    case Ignore(_, reason) => if Blank(reason) || |reason| > 256 then Some(InvalidPlan) else None
    case _ => CandidateError(db, plan.candidate)
  }

  // ---------- single statements ----------

  function EffectiveCategories(slugs: seq<string>): set<string> {
    if slugs == [] then {"uncategorized"} else ToSet(slugs)
  }

  function DocumentOf(m: Memory): Document {
    Document(m.content, m.categories, m.entities, m.sourceApps + m.appliesTo)
  }

  function CandidateMemory(c: Candidate, status: Status, revision: nat, now: int): Memory {
    Memory(Normalize(c.content), c.kind, c.mode, status, c.scope, c.importance, c.confidence, c.sensitivity,
           c.validFrom, c.validUntil, revision, now,
           EffectiveCategories(c.categories), ToSet(c.sourceApps), ToSet(c.appliesTo), ToSet(c.mentions))
  }

  function ManualMemory(input: ManualInput, revision: nat): Memory {
    Memory(Normalize(input.content), input.kind, Manual, Active, input.scope, input.importance, 1.0,
           input.sensitivity, input.validFrom, input.validUntil, revision, input.now,
           EffectiveCategories(input.categories), {}, ToSet(input.appliesTo), {})
  }

  function LinksTo(id: MemoryId, sources: set<string>): set<Link> { set s | s in sources :: Link(id, s) }

  /** A new row under the next id, with its source links and, when active, its search document. */
  function InsertRow(db: Database, m: Memory, sources: set<string>): Database {
    db.(nextId := db.nextId + 1,
        memories := db.memories[db.nextId := m],
        links := db.links + LinksTo(db.nextId, sources),
        documents := if m.status.Active? then db.documents[db.nextId := DocumentOf(m)] else db.documents)
  }

  function InsertCandidate(db: Database, c: Candidate, status: Status, revision: nat, now: int)
    : Result<Database, StoreError>
  {
    if !(EffectiveCategories(c.categories) <= db.categories) then Err(UnknownCategory)
    else if !(NoRepeats(c.sourceApps) && NoRepeats(c.appliesTo) && NoRepeats(c.sources) && NoRepeats(c.mentions)) then
      Err(Constraint)
    else Ok(InsertRow(db, CandidateMemory(c, status, revision, now), ToSet(c.sources)))
  }

  function InsertManual(db: Database, input: ManualInput, revision: nat): Result<Database, StoreError> {
    if !(EffectiveCategories(input.categories) <= db.categories) then Err(UnknownCategory)
    else if !NoRepeats(input.appliesTo) || !(ToSet(input.appliesTo) <= db.apps) then Err(Constraint)
    else Ok(InsertRow(db, ManualMemory(input, revision), {}))
  }

  function Supersede(db: Database, id: MemoryId, bump: nat, now: int): Database
    requires id in db.memories
  {
    var m := db.memories[id];
    db.(memories := db.memories[id := m.(status := Superseded, revision := m.revision + bump, updatedAt := now)],
        documents := db.documents - {id})
  }

  function Relate(db: Database, newer: MemoryId, older: MemoryId, kind: RelationKind): Database {
    db.(relations := db.relations + {Relation(newer, older, kind)})
  }

  function UpsertRefresh(refreshes: map<RefreshKey, nat>, key: RefreshKey, revision: nat): map<RefreshKey, nat> {
    refreshes[key := if key in refreshes && refreshes[key] > revision then refreshes[key] else revision]
  }

  function EnqueueRefresh(db: Database, id: MemoryId, revision: nat): Database {
    db.(refreshes := UpsertRefresh(UpsertRefresh(db.refreshes, RefreshKey(EmbeddingRefresh, id), revision),
                                   RefreshKey(ProfileRefresh, id), revision))
  }

  function Record(db: Database, e: Event): Result<Database, StoreError> {
    if ValidCorrelation(e.correlation) then Ok(db.(events := db.events + [e])) else Err(InvalidInput)
  }

  /** The revision guard every edit goes through. */
  function RevisionError(db: Database, id: MemoryId, expected: nat): Option<StoreError> {
    if id !in db.memories then Some(NotFound)
    else if db.memories[id].revision != expected then Some(RevisionConflict(expected, db.memories[id].revision))
    else None
  }

  // ---------- apply_plan ----------

  datatype PlanReply = PlanReply(memory: Option<MemoryId>, status: Status, alreadyApplied: bool)

  datatype Mutation = Mutation(db: Database, memory: Option<MemoryId>, status: Status, outcome: Outcome)

  function OutcomeStatus(outcome: Outcome): Status {
    match outcome
    case ReviewRequested => PendingReview
    case Ignored => Rejected
    case _ => Active
  }

  predicate IsActive(db: Database, id: MemoryId) { id in db.memories && db.memories[id].status.Active? }

  function Inserted(db: Database, c: Candidate, status: Status, revision: nat, now: int, outcome: Outcome)
    : Result<Mutation, StoreError>
  {
    match InsertCandidate(db, c, status, revision, now)
    case Err(e) => Err(e)
    case Ok(tx) => Ok(Mutation(tx, Some(db.nextId), status, outcome))
  }

  function RaiseConfidence(db: Database, id: MemoryId, confidence: real, now: int): Database
    requires id in db.memories
  {
    var m := db.memories[id];
    db.(memories := db.memories[id :=
          m.(confidence := if m.confidence < confidence then confidence else m.confidence,
             revision := m.revision + 1, updatedAt := now)])
  }

  function Mutate(db: Database, plan: Plan, now: int): Result<Mutation, StoreError> {
    match plan
    case Create(_, c, status) => Inserted(db, c, status, 1, now, Created)
    case Duplicate(_, id, sources, confidence) =>
      if !IsActive(db, id) then Err(InvalidPlan)
      else
        var tx := db.(links := db.links + LinksTo(id, ToSet(sources)));
        Ok(Mutation(RaiseConfidence(tx, id, confidence, now), Some(id), Active, Duplicated))
    case Update(_, id, c, status) =>
      if !IsActive(db, id) then Err(InvalidPlan)
      else if c.mode.TrustRank() < db.memories[id].mode.TrustRank() then Err(InvalidPlan)
      else if !status.Active? then Err(InvalidPlan)
      else
        (match Inserted(db, c, status, db.memories[id].revision + 1, now, Updated)
         case Err(e) => Err(e)
         case Ok(m) =>
           assert id in m.db.memories;
           Ok(m.(db := Relate(Supersede(m.db, id, 0, now), db.nextId, id, UpdatesRelation))))
    case Extend(_, id, c, status) =>
      if !IsActive(db, id) then Err(InvalidPlan)
      else
        (match Inserted(db, c, status, 1, now, Extended)
         case Err(e) => Err(e)
         case Ok(m) => Ok(m.(db := Relate(m.db, db.nextId, id, ExtendsRelation))))
    case Ignore(_, _) => Ok(Mutation(db, None, Rejected, Ignored))
    case RequestReview(_, c, _) => Inserted(db, c, PendingReview, 1, now, ReviewRequested)
  }

  /** The audit row, the projection refresh and the event that close every applied plan. */
  function CloseMutation(m: Mutation, key: PlanKey, now: int): Result<Database, StoreError> {
    var audited := m.db.(audit := m.db.audit[key := AuditRow(m.outcome, m.memory, now)]);
    var refreshed :=
      if m.memory.Some? && m.memory.value in audited.memories
      then EnqueueRefresh(audited, m.memory.value, audited.memories[m.memory.value].revision)
      else audited;
    Record(refreshed, Event(ReconciliationApplied, key.run, m.memory, now))
  }

  function ApplyPlan(db: Database, plan: Plan, now: int): (Database, Result<PlanReply, StoreError>) {
    var invalid := PlanError(db, plan);
    if invalid.Some? then (db, Err(invalid.value))
    else if plan.key in db.audit then
      var row := db.audit[plan.key];
      (db, Ok(PlanReply(row.memory, OutcomeStatus(row.outcome), true)))
    else
      match Mutate(db, plan, now)
      case Err(e) => (db, Err(e))
      case Ok(m) =>
        match CloseMutation(m, plan.key, now)
        case Err(e) => (db, Err(e))
        case Ok(tx) => (tx, Ok(PlanReply(m.memory, m.status, false)))
  }

  // ---------- manual operations ----------

  function CreateManual(db: Database, input: ManualInput, correlation: string)
    : (Database, Result<MemoryId, StoreError>)
  {
    if !ValidManual(input) then (db, Err(InvalidInput))
    else
      match InsertManual(db, input, 1)
      case Err(e) => (db, Err(e))
      case Ok(tx) =>
        var created := Event(ReconciliationApplied, correlation, Some(db.nextId), input.now);
        match Record(EnqueueRefresh(tx, db.nextId, 1), created)
        case Err(e) => (db, Err(e))
        case Ok(done) => (done, Ok(db.nextId))
  }

  /** The replacement row, the retired row and the edge between them. */
  function Replace(db: Database, id: MemoryId, expected: nat, input: ManualInput): Result<Database, StoreError>
    requires id in db.memories
  {
    match InsertManual(db, input, expected + 1)
    case Err(e) => Err(e)
    case Ok(tx) =>
      assert id in tx.memories;
      Ok(Relate(Supersede(tx, id, 1, input.now), db.nextId, id, UpdatesRelation))
  }

  function EditManual(db: Database, id: MemoryId, expected: nat, input: ManualInput, correlation: string)
    : (Database, Result<MemoryId, StoreError>)
  {
    var stale := RevisionError(db, id, expected);
    if !ValidManual(input) then (db, Err(InvalidInput))
    else if stale.Some? then (db, Err(stale.value))
    else if db.memories[id].status.Forgotten? || db.memories[id].status.Rejected? then (db, Err(InvalidInput))
    else
      match Replace(db, id, expected, input)
      case Err(e) => (db, Err(e))
      case Ok(tx) =>
        match Record(EnqueueRefresh(tx, db.nextId, expected + 1),
                     Event(MemoryEdited, correlation, Some(db.nextId), input.now))
        case Err(e) => (db, Err(e))
        case Ok(done) => (done, Ok(db.nextId))
  }

  function ConfirmPending(db: Database, id: MemoryId, expected: nat, correlation: string, now: int)
    : (Database, Result<nat, StoreError>)
  {
    var stale := RevisionError(db, id, expected);
    if stale.Some? then (db, Err(stale.value))
    else if !db.memories[id].status.PendingReview? then (db, Err(InvalidInput))
    else
      var m := db.memories[id]
        .(status := Active, mode := Manual, confidence := 1.0, revision := expected + 1, updatedAt := now);
      var tx := db.(memories := db.memories[id := m], documents := db.documents[id := DocumentOf(m)]);
      match Record(EnqueueRefresh(tx, id, expected + 1), Event(MemoryConfirmed, correlation, Some(id), now))
      case Err(e) => (db, Err(e))
      case Ok(done) => (done, Ok(expected + 1))
  }

  function RejectPending(db: Database, id: MemoryId, expected: nat, correlation: string, now: int)
    : (Database, Result<nat, StoreError>)
  {
    var stale := RevisionError(db, id, expected);
    if stale.Some? then (db, Err(stale.value))
    else if !db.memories[id].status.PendingReview? then (db, Err(InvalidInput))
    else
      var m := db.memories[id].(status := Rejected, revision := expected + 1, updatedAt := now);
      var tx := db.(memories := db.memories[id := m], documents := db.documents - {id},
                    embeddings := db.embeddings - {id});
      match Record(tx, Event(MemoryRejected, correlation, Some(id), now))
      case Err(e) => (db, Err(e))
      case Ok(done) => (done, Ok(expected + 1))
  }

  // ---------- deletion ----------

  datatype DeleteMode = Forget | Permanent

  /** The deletion condition of the profile invalidation statement, for the row `m`. */
  predicate InvalidatesProfile(m: Memory, key: ProfileKey) {
    match key.projection
    case GlobalProfile => m.scope.kind.GlobalScope?
    case AppProfile => (m.scope.kind.AppScope? && m.scope.key == key.key) || key.key in m.appliesTo
    case ProjectProfile => m.scope.kind.ProjectScope? && m.scope.key == key.key
    case CategoryProfile =>
      exists slug | slug in m.categories ::
        || slug == key.key
        || (|slug| > |key.key| && slug[..|key.key|] == key.key && slug[|key.key|..|key.key| + 1] == ".")
    case EntityProfile => exists e | e in m.entities :: e.entity == key.key
  }

  function SurvivingProfiles(db: Database, m: Memory): map<ProfileKey, Profile> {
    map k | k in db.profiles && !InvalidatesProfile(m, k) :: db.profiles[k]
  }

  function ForgetMemory(db: Database, id: MemoryId, now: int): Database
    requires id in db.memories
  {
    var m := db.memories[id];
    db.(memories := db.memories[id := m.(status := Forgotten, revision := m.revision + 1, updatedAt := now)],
        documents := db.documents - {id},
        embeddings := db.embeddings - {id},
        profiles := SurvivingProfiles(db, m),
        refreshes := db.refreshes - {RefreshKey(EmbeddingRefresh, id), RefreshKey(ProfileRefresh, id)})
  }

  function SourcesOf(db: Database, id: MemoryId): set<string> { set l | l in db.links && l.memory == id :: l.source }

  /** The sources of a memory that no other memory is linked to. */
  function ExclusiveSources(db: Database, id: MemoryId): set<string> {
    set s | s in SourcesOf(db, id) && forall l | l in db.links && l.source == s :: l.memory == id
  }

  function PruneSegments(segments: map<string, set<string>>, gone: set<string>): map<string, set<string>> {
    map g | g in segments && segments[g] - gone != {} :: segments[g] - gone
  }

  function DeletePermanently(db: Database, id: MemoryId, expected: nat): Database
    requires id in db.memories
  {
    var gone := ExclusiveSources(db, id);
    db.(memories := db.memories - {id},
        documents := db.documents - {id},
        embeddings := db.embeddings - {id},
        profiles := SurvivingProfiles(db, db.memories[id]),
        relations := (set r | r in db.relations && r.newer != id && r.older != id),
        links := (set l | l in db.links && l.memory != id),
        sources := db.sources - gone,
        segments := PruneSegments(db.segments, gone),
        audit := map k | k in db.audit ::
          if db.audit[k].memory == Some(id) then db.audit[k].(memory := None) else db.audit[k],
        tombstones := db.tombstones[id :=
          if id in db.tombstones && db.tombstones[id] > expected + 1 then db.tombstones[id] else expected + 1])
  }

  function DeleteMemory(db: Database, id: MemoryId, expected: nat, mode: DeleteMode, correlation: string, now: int)
    : (Database, Result<(), StoreError>)
  {
    var stale := RevisionError(db, id, expected);
    if stale.Some? then (db, Err(stale.value))
    else if mode.Forget? then
      match Record(ForgetMemory(db, id, now), Event(MemoryForgotten, correlation, Some(id), now))
      case Err(e) => (db, Err(e))
      case Ok(done) => (done, Ok(()))
    else if !(ExclusiveSources(db, id) !! db.aliasSources) then (db, Err(Constraint))
    else
      match Record(DeletePermanently(db, id, expected), Event(MemoryDeleted, correlation, Some(id), now))
      case Err(e) => (db, Err(e))
      case Ok(done) => (done, Ok(()))
  }

  // ---------- retention and the feeding tables ----------

  const DAY_MILLIS: int := 86_400_000

  predicate Purged(row: AuditRow, cutoff: int) {
    (row.outcome.Ignored? || row.outcome.ReviewRequested?) && row.createdAt < cutoff && row.memory.None?
  }

  function KeepRecent(events: seq<Event>, cutoff: int): (kept: seq<Event>)
    ensures |kept| <= |events|
  {
    if events == [] then []
    else (if events[0].occurredAt < cutoff then [] else [events[0]]) + KeepRecent(events[1..], cutoff)
  }

  function Retain(db: Database, now: int): Database {
    var sourceCutoff := SaturatingSub(now, SaturatingMul(db.sourceDays, DAY_MILLIS));
    var auditCutoff := SaturatingSub(now, SaturatingMul(db.auditDays, DAY_MILLIS));
    db.(sources := map s | s in db.sources ::
          if db.sources[s].endedAt < sourceCutoff then db.sources[s].(text := "") else db.sources[s],
        audit := map k | k in db.audit && !Purged(db.audit[k], auditCutoff) :: db.audit[k],
        events := KeepRecent(db.events, auditCutoff))
  }

  function PutProfile(db: Database, key: ProfileKey, profile: Profile, correlation: string, now: int): Database {
    if Blank(key.key) || |key.key| > 256 || profile.sourceRevision > I64_MAX then db
    else if key in db.profiles && profile.sourceRevision < db.profiles[key].sourceRevision then db
    else
      match Record(db.(profiles := db.profiles[key := profile]), Event(ProfileRegenerated, correlation, None, now))
      case Err(_) => db
      case Ok(done) => done
  }

  const MAX_EVIDENCE_CHARS: nat := 12_000

  function AddSource(db: Database, id: string, source: Source): Database {
    if id in db.sources || source.endedAt < source.startedAt || |source.text| > MAX_EVIDENCE_CHARS then db
    else db.(sources := db.sources[id := source])
  }

  function AddSegment(db: Database, id: string, sources: seq<string>): Database {
    if id in db.segments || sources == [] || |sources| > 1000 || !NoRepeats(sources)
       || exists s | s in sources :: s !in db.sources
    then db
    else db.(segments := db.segments[id := ToSet(sources)])
  }

  /** Creating an entity whose alias cites a source. */
  function CiteSource(db: Database, source: string): Database {
    if source in db.sources then db.(aliasSources := db.aliasSources + {source}) else db
  }

  function UpsertEmbedding(db: Database, id: MemoryId): Database {
    if !IsActive(db, id) then db
    else
      var key := RefreshKey(EmbeddingRefresh, id);
      db.(embeddings := db.embeddings + {id},
          refreshes := if key in db.refreshes && db.refreshes[key] <= db.memories[id].revision
                       then db.refreshes - {key} else db.refreshes)
  }

  // ---------- runs ----------

  datatype Request =
    | DoPlan(plan: Plan, now: int)
    | DoCreate(input: ManualInput, correlation: string)
    | DoEdit(id: MemoryId, expected: nat, input: ManualInput, correlation: string)
    | DoConfirm(id: MemoryId, expected: nat, correlation: string, now: int)
    | DoReject(id: MemoryId, expected: nat, correlation: string, now: int)
    | DoDelete(id: MemoryId, expected: nat, mode: DeleteMode, correlation: string, now: int)
    | DoRetain(now: int)
    | DoPutProfile(key: ProfileKey, profile: Profile, correlation: string, now: int)
    | DoEmbed(id: MemoryId)
    | DoAddSource(source: string, row: Source)
    | DoAddSegment(segment: string, sources: seq<string>)
    | DoCite(source: string)

  function Serve(db: Database, r: Request): Database {
    match r
    case DoPlan(plan, now) => ApplyPlan(db, plan, now).0
    case DoCreate(input, correlation) => CreateManual(db, input, correlation).0
    case DoEdit(id, expected, input, correlation) => EditManual(db, id, expected, input, correlation).0
    case DoConfirm(id, expected, correlation, now) => ConfirmPending(db, id, expected, correlation, now).0
    case DoReject(id, expected, correlation, now) => RejectPending(db, id, expected, correlation, now).0
    case DoDelete(id, expected, mode, correlation, now) => DeleteMemory(db, id, expected, mode, correlation, now).0
    case DoRetain(now) => Retain(db, now)
    case DoPutProfile(key, profile, correlation, now) => PutProfile(db, key, profile, correlation, now)
    case DoEmbed(id) => UpsertEmbedding(db, id)
    case DoAddSource(source, row) => AddSource(db, source, row)
    case DoAddSegment(segment, sources) => AddSegment(db, segment, sources)
    case DoCite(source) => CiteSource(db, source)
  }

  function Run(db: Database, requests: seq<Request>): Database
    decreases |requests|
  {
    if requests == [] then db else Run(Serve(db, requests[0]), requests[1..])
  }

  lemma RunSplit(db: Database, a: seq<Request>, b: seq<Request>)
    ensures Run(db, a + b) == Run(Run(db, a), b)
    decreases |a|
  {
    if a == [] {
      assert a + b == b;
    } else {
      assert (a + b)[0] == a[0] && (a + b)[1..] == a[1..] + b;
      RunSplit(Serve(db, a[0]), a[1..], b);
    }
  }
}
