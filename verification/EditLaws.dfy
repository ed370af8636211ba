/** What the user's operations on memories are answered and what they write: which guard fails first, and
    afterwards every table. */
module EditLaws {
  import opened Wrappers
  import opened Text
  import opened MemoryModel
  import opened StoreSpec
  import opened StoreInvariants
  import opened StoreEffects
  import opened PlanLaws
  import opened Deletion

  /** An app the input names that is unknown or named twice. */
  predicate BadApps(db: Database, input: ManualInput) {
    Repeats(input.appliesTo) || exists a | a in input.appliesTo :: a !in db.apps
  }

  lemma BadInputExactly(input: ManualInput)
    ensures ValidManual(input) <==> !BadInput(input)
  {
    hide Normalize, Blank;
  }

  /** The row, with its search document, that a manual insertion adds under the next id. */
  ghost predicate AddsManual(db: Database, input: ManualInput, revision: nat, after: Database) {
    var id := db.nextId;
    && id in after.memories && id in after.documents
    && after == db.(nextId := id + 1, memories := db.memories[id := after.memories[id]],
                    documents := db.documents[id := after.documents[id]])
    && RecordsInput(after.memories[id], input) && after.memories[id].status == Active
    && after.memories[id].revision == revision && Indexes(after.documents[id], after.memories[id])
  }

  lemma InsertManualAnswer(db: Database, input: ManualInput, revision: nat)
    ensures var r := InsertManual(db, input, revision);
      && (r == Err(UnknownCategory) <==> Uncategorizable(db, input.categories))
      && (r == Err(Constraint) <==> !Uncategorizable(db, input.categories) && BadApps(db, input))
      && (r.Err? ==> r.error.UnknownCategory? || r.error.Constraint?)
      && (r.Ok? ==> AddsManual(db, input, revision, r.value))
  {
    UncategorizableExactly(db, input.categories);
    RepeatsExactly(input.appliesTo);
    InputRecorded(input, revision);
    ManualIsActive(input, revision);
    DocumentIndexes(ManualMemory(input, revision));
    assert ToSet(input.appliesTo) <= db.apps <==> !(exists a | a in input.appliesTo :: a !in db.apps);
    assert LinksTo(db.nextId, {}) == {};
    assert db.links + {} == db.links;
    hide EffectiveCategories, Uncategorizable, NoRepeats, Repeats, ToSet, ManualMemory, DocumentOf, Indexes,
      RecordsInput;
  }

  /** What a memory made by hand is answered, by the first guard that fails. */
  lemma CreateAnswer(db: Database, input: ManualInput, correlation: string)
    ensures var (after, reply) := CreateManual(db, input, correlation);
      var homeless := Uncategorizable(db, input.categories);
      && (reply == Err(InvalidInput) <==>
            BadInput(input) || (!homeless && !BadApps(db, input) && BadRun(correlation)))
      && (reply == Err(UnknownCategory) <==> !BadInput(input) && homeless)
      && (reply == Err(Constraint) <==> !BadInput(input) && !homeless && BadApps(db, input))
      && (reply.Err? ==> after == db
                         && (reply.error.InvalidInput? || reply.error.UnknownCategory? || reply.error.Constraint?))
      && (reply.Ok? ==> reply.value == db.nextId)
  {
    BadInputExactly(input);
    InsertManualAnswer(db, input, 1);
    hide ValidManual, BadInput, InsertManual, Uncategorizable, BadApps, AddsManual, Blank, EnqueueRefresh;
  }

  lemma CreateExactly(db: Database, input: ManualInput, correlation: string)
    requires CreateManual(db, input, correlation).1.Ok?
    ensures var after := CreateManual(db, input, correlation).0; var id := db.nextId;
      && AddsManual(db, input, 1, after.(refreshes := db.refreshes, events := db.events))
      && RefreshedTo(db.refreshes, after.refreshes, id, 1)
      && after.events == db.events + [Event(ReconciliationApplied, correlation, Some(id), input.now)]
  {
    InsertManualAnswer(db, input, 1);
    var tx := InsertManual(db, input, 1).value;
    assert tx.refreshes == db.refreshes && tx.events == db.events;
    RefreshExactly(tx, db.nextId, 1);
    var after := CreateManual(db, input, correlation).0;
    hide ValidManual, ValidCorrelation, InsertManual, EnqueueRefresh, RefreshedTo;
    assert after == tx.(refreshes := after.refreshes, events := after.events);
    assert after.(refreshes := db.refreshes, events := db.events) == tx;
  }

  // ---------- guards on an existing memory ----------

  predicate Missing(db: Database, id: MemoryId) { id !in db.memories }

  predicate Stale(db: Database, id: MemoryId, expected: nat) {
    id in db.memories && db.memories[id].revision != expected
  }

  predicate Current(db: Database, id: MemoryId, expected: nat) {
    id in db.memories && db.memories[id].revision == expected
  }

  /** What an edit is answered, by the first guard that fails. */
  lemma EditAnswer(db: Database, id: MemoryId, expected: nat, input: ManualInput, correlation: string)
    ensures var (after, reply) := EditManual(db, id, expected, input, correlation);
      var bad := BadInput(input);
      var closed := id in db.memories && db.memories[id].status in {Forgotten, Rejected};
      var homeless := Uncategorizable(db, input.categories);
      && (reply == Err(NotFound) <==> !bad && Missing(db, id))
      && (forall actual :: reply == Err(RevisionConflict(expected, actual)) <==>
            !bad && Stale(db, id, expected) && actual == db.memories[id].revision)
      && (reply == Err(UnknownCategory) <==> !bad && Current(db, id, expected) && !closed && homeless)
      && (reply == Err(Constraint) <==>
            !bad && Current(db, id, expected) && !closed && !homeless && BadApps(db, input))
      && (reply == Err(InvalidInput) <==>
            bad || (Current(db, id, expected)
                    && (closed || (!homeless && !BadApps(db, input) && BadRun(correlation)))))
      && (reply.Err? ==> after == db && !reply.error.InvalidPlan?
                         && (reply.error.RevisionConflict? ==> reply.error.expected == expected))
      && (reply.Ok? ==> reply.value == db.nextId)
  {
    BadInputExactly(input);
    InsertManualAnswer(db, input, expected + 1);
    hide ValidManual, BadInput, InsertManual, Uncategorizable, BadApps, AddsManual, Blank, EnqueueRefresh,
      Supersede, Relate;
  }

  lemma ReplaceExactly(db: Database, id: MemoryId, expected: nat, input: ManualInput)
    requires WellKeyed(db) && Current(db, id, expected) && Replace(db, id, expected, input).Ok?
    ensures var r := Replace(db, id, expected, input).value; var added := db.nextId;
      && added in r.memories && added in r.documents
      && r == db.(
           nextId := added + 1,
           memories := db.memories[added := r.memories[added]]
             [id := db.memories[id].(status := Superseded, revision := expected + 1, updatedAt := input.now)],
           documents := db.documents[added := r.documents[added]] - {id},
           relations := db.relations + {Relation(added, id, UpdatesRelation)})
      && RecordsInput(r.memories[added], input) && r.memories[added].status == Active
      && r.memories[added].revision == expected + 1 && Indexes(r.documents[added], r.memories[added])
  {
    InsertManualAnswer(db, input, expected + 1);
    assert id < db.nextId;
    hide InsertManual, WellKeyed, RecordsInput, Indexes;
  }

  /** Every table after an edit: the replacement is added, the edited row is retired under the same new revision
      and no longer searchable, and one relation joins them. */
  lemma EditExactly(db: Database, id: MemoryId, expected: nat, input: ManualInput, correlation: string)
    requires WellKeyed(db) && EditManual(db, id, expected, input, correlation).1.Ok?
    ensures Current(db, id, expected)
    ensures var after := EditManual(db, id, expected, input, correlation).0; var added := db.nextId;
      && added in after.memories && added in after.documents
      && after == db.(
           nextId := added + 1,
           memories := db.memories[added := after.memories[added]]
             [id := db.memories[id].(status := Superseded, revision := expected + 1, updatedAt := input.now)],
           documents := db.documents[added := after.documents[added]] - {id},
           relations := db.relations + {Relation(added, id, UpdatesRelation)},
           refreshes := after.refreshes,
           events := db.events + [Event(MemoryEdited, correlation, Some(added), input.now)])
      && RecordsInput(after.memories[added], input) && after.memories[added].status == Active
      && after.memories[added].revision == expected + 1 && Indexes(after.documents[added], after.memories[added])
      && RefreshedTo(db.refreshes, after.refreshes, added, expected + 1)
  {
    ReplaceExactly(db, id, expected, input);
    var replaced := Replace(db, id, expected, input).value;
    RefreshExactly(replaced, db.nextId, expected + 1);
    hide Replace, WellKeyed, ValidManual, ValidCorrelation, RecordsInput, Indexes, RefreshedTo, EnqueueRefresh;
  }

  // ---------- review ----------

  /** Confirming and rejecting are answered alike: only a pending memory at its current revision is reviewed. */
  lemma ReviewAnswer(db: Database, id: MemoryId, expected: nat, correlation: string, now: int, confirm: bool)
    ensures var (after, reply) := if confirm then ConfirmPending(db, id, expected, correlation, now)
                                  else RejectPending(db, id, expected, correlation, now);
      && (reply == Err(NotFound) <==> Missing(db, id))
      && (forall actual :: reply == Err(RevisionConflict(expected, actual)) <==>
            Stale(db, id, expected) && actual == db.memories[id].revision)
      && (reply == Err(InvalidInput) <==>
            Current(db, id, expected) && (db.memories[id].status != PendingReview || BadRun(correlation)))
      && (reply.Err? ==> after == db && (reply.error.NotFound? || reply.error.RevisionConflict?
                                         || reply.error.InvalidInput?))
      && (reply.Err? && reply.error.RevisionConflict? ==> reply.error.expected == expected)
      && (reply.Ok? ==> reply.value == expected + 1)
  {
    hide Blank, EnqueueRefresh, DocumentOf;
  }

  lemma ConfirmExactly(db: Database, id: MemoryId, expected: nat, correlation: string, now: int)
    requires ConfirmPending(db, id, expected, correlation, now).1.Ok?
    ensures Current(db, id, expected)
    ensures var after := ConfirmPending(db, id, expected, correlation, now).0;
      && id in after.memories && id in after.documents
      && after == db.(
           memories := db.memories[id := db.memories[id].(status := Active, mode := Manual, confidence := 1.0,
                                                          revision := expected + 1, updatedAt := now)],
           documents := db.documents[id := after.documents[id]],
           refreshes := after.refreshes,
           events := db.events + [Event(MemoryConfirmed, correlation, Some(id), now)])
      && Indexes(after.documents[id], after.memories[id])
      && RefreshedTo(db.refreshes, after.refreshes, id, expected + 1)
  {
    var m := db.memories[id]
      .(status := Active, mode := Manual, confidence := 1.0, revision := expected + 1, updatedAt := now);
    var tx := db.(memories := db.memories[id := m], documents := db.documents[id := DocumentOf(m)]);
    DocumentIndexes(m);
    RefreshExactly(tx, id, expected + 1);
    hide ValidCorrelation, EnqueueRefresh, RefreshedTo, Indexes, DocumentOf;
  }

  lemma RejectExactly(db: Database, id: MemoryId, expected: nat, correlation: string, now: int)
    requires RejectPending(db, id, expected, correlation, now).1.Ok?
    ensures Current(db, id, expected)
    ensures RejectPending(db, id, expected, correlation, now).0 == db.(
      memories := db.memories[id := db.memories[id].(status := Rejected, revision := expected + 1, updatedAt := now)],
      documents := db.documents - {id}, embeddings := db.embeddings - {id},
      events := db.events + [Event(MemoryRejected, correlation, Some(id), now)])
  {
    hide ValidCorrelation;
  }

  // ---------- deletion ----------

  /** The projections a memory appears in: that of its scope, of each app it applies to, of each of its
      categories and of the ones above it, and of each of its entities. */
  predicate AppearsIn(m: Memory, key: ProfileKey) {
    || (key.projection.GlobalProfile? && m.scope.kind == GlobalScope)
    || (key.projection.AppProfile? && (m.scope == Scope(AppScope, key.key) || key.key in m.appliesTo))
    || (key.projection.ProjectProfile? && m.scope == Scope(ProjectScope, key.key))
    || (key.projection.CategoryProfile?
        && exists slug | slug in m.categories :: slug == key.key || key.key + "." <= slug)
    || (key.projection.EntityProfile? && exists role :: EntityLink(key.key, role) in m.entities)
  }

  lemma AppearsExactly(m: Memory, key: ProfileKey)
    ensures InvalidatesProfile(m, key) <==> AppearsIn(m, key)
  {
    forall slug: string
      ensures key.key + "." <= slug <==>
              |slug| > |key.key| && slug[..|key.key|] == key.key && slug[|key.key|..|key.key| + 1] == "."
    {
      if |slug| > |key.key| {
        assert slug[..|key.key| + 1] == slug[..|key.key|] + slug[|key.key|..|key.key| + 1];
      }
    }
    if key.projection.EntityProfile? {
      if InvalidatesProfile(m, key) {
        var e :| e in m.entities && e.entity == key.key;
        assert EntityLink(key.key, e.role) in m.entities;
      }
    }
  }

  /** The stored profiles left without those a row appears in. */
  ghost predicate ProfilesWithout(before: map<ProfileKey, Profile>, m: Memory, after: map<ProfileKey, Profile>) {
    && (forall k :: k in after <==> k in before && !AppearsIn(m, k))
    && (forall k | k in after :: after[k] == before[k])
  }

  lemma SurvivorsExactly(db: Database, m: Memory)
    ensures ProfilesWithout(db.profiles, m, SurvivingProfiles(db, m))
  {
    forall k ensures InvalidatesProfile(m, k) <==> AppearsIn(m, k) {
      AppearsExactly(m, k);
    }
    hide InvalidatesProfile, AppearsIn;
  }

  /** What either deletion is answered; a permanent one is refused also while an alias cites a source that is
      this memory's alone. */
  lemma DeleteAnswer(db: Database, id: MemoryId, expected: nat, mode: DeleteMode, correlation: string, now: int)
    ensures var (after, reply) := DeleteMemory(db, id, expected, mode, correlation, now);
      var cited := mode.Permanent? && exists s | s in db.aliasSources && Link(id, s) in db.links ::
        !LinkedElsewhere(db, id, s);
      && (reply == Err(NotFound) <==> Missing(db, id))
      && (forall actual :: reply == Err(RevisionConflict(expected, actual)) <==>
            Stale(db, id, expected) && actual == db.memories[id].revision)
      && (reply == Err(Constraint) <==> Current(db, id, expected) && cited)
      && (reply == Err(InvalidInput) <==> Current(db, id, expected) && !cited && BadRun(correlation))
      && (reply.Ok? <==> Current(db, id, expected) && !cited && !BadRun(correlation))
      && (reply.Err? ==> after == db)
  {
    forall s ensures s in ExclusiveSources(db, id) <==> Link(id, s) in db.links && !LinkedElsewhere(db, id, s) {
      ExclusiveSourcesExact(db, id, s);
    }
    hide ForgetMemory, DeletePermanently, Blank, LinkedElsewhere, ExclusiveSources;
  }

  /** Every table after a forget: the row stays as a forgotten one, and everything derived from it goes. */
  lemma ForgetExactly(db: Database, id: MemoryId, expected: nat, correlation: string, now: int)
    requires DeleteMemory(db, id, expected, Forget, correlation, now).1.Ok?
    ensures Current(db, id, expected)
    ensures var after := DeleteMemory(db, id, expected, Forget, correlation, now).0;
      && after == db.(
           memories := db.memories[id :=
             db.memories[id].(status := Forgotten, revision := expected + 1, updatedAt := now)],
           documents := db.documents - {id}, embeddings := db.embeddings - {id},
           profiles := after.profiles, refreshes := after.refreshes,
           events := db.events + [Event(MemoryForgotten, correlation, Some(id), now)])
      && ProfilesWithout(db.profiles, db.memories[id], after.profiles)
      && (forall k :: k in after.refreshes <==> k in db.refreshes && k.memory != id)
      && (forall k | k in after.refreshes :: after.refreshes[k] == db.refreshes[k])
  {
    SurvivorsExactly(db, db.memories[id]);
    forall k: RefreshKey ensures k.memory == id <==>
        k == RefreshKey(EmbeddingRefresh, id) || k == RefreshKey(ProfileRefresh, id)
    {
      match k.kind
      case EmbeddingRefresh =>
      case ProfileRefresh =>
    }
    hide ValidCorrelation, SurvivingProfiles, ProfilesWithout;
  }

  /** The tables after a permanent delete, beside the evidence it destroys: no table of the memory names it, its
      tombstone keeps the greatest revision, audit rows only lose the reference, and profiles it appears in go. */
  lemma PermanentExactly(db: Database, id: MemoryId, expected: nat, correlation: string, now: int)
    requires DeleteMemory(db, id, expected, Permanent, correlation, now).1.Ok?
    ensures Current(db, id, expected)
    ensures var after := DeleteMemory(db, id, expected, Permanent, correlation, now).0;
      && after == db.(
           memories := db.memories - {id}, documents := db.documents - {id}, embeddings := db.embeddings - {id},
           profiles := after.profiles, relations := after.relations, links := after.links,
           sources := after.sources, segments := after.segments, audit := after.audit,
           tombstones := db.tombstones[id := after.tombstones[id]],
           events := db.events + [Event(MemoryDeleted, correlation, Some(id), now)])
      && id in after.tombstones && after.tombstones[id] > expected
      && (id in db.tombstones ==> after.tombstones[id] >= db.tombstones[id])
      && (after.tombstones[id] == expected + 1 || (id in db.tombstones && after.tombstones[id] == db.tombstones[id]))
      && ProfilesWithout(db.profiles, db.memories[id], after.profiles)
      && after.audit.Keys == db.audit.Keys
      && (forall k | k in db.audit :: after.audit[k] == AuditRow(
            db.audit[k].outcome, if db.audit[k].memory == Some(id) then None else db.audit[k].memory,
            db.audit[k].createdAt))
  {
    SurvivorsExactly(db, db.memories[id]);
    hide ValidCorrelation, SurvivingProfiles, ProfilesWithout, ExclusiveSources, PruneSegments;
  }

  // ---------- profiles, embeddings and evidence ----------

  /** A profile is stored under a bounded key unless an older one would replace a newer one. */
  lemma PutExactly(db: Database, key: ProfileKey, profile: Profile, correlation: string, now: int)
    ensures Serve(db, DoPutProfile(key, profile, correlation, now)) ==
      if BadRun(correlation) || Blank(key.key) || |key.key| > 256 || profile.sourceRevision > 0x7fff_ffff_ffff_ffff
         || (key in db.profiles && db.profiles[key].sourceRevision > profile.sourceRevision)
      then db
      else db.(profiles := db.profiles[key := profile],
               events := db.events + [Event(ProfileRegenerated, correlation, None, now)])
  {
    hide Blank;
  }

  /** The embedding job of an active memory is settled when its revision reached the one the job asks for. */
  predicate Settled(db: Database, k: RefreshKey) {
    && k in db.refreshes && k.memory in db.memories && db.memories[k.memory].status == Active
    && k.kind == EmbeddingRefresh && db.refreshes[k] <= db.memories[k.memory].revision
  }

  lemma EmbedEffect(db: Database, id: MemoryId)
    ensures var after := UpsertEmbedding(db, id); var job := RefreshKey(EmbeddingRefresh, id);
      && after.embeddings == (if IsActive(db, id) then db.embeddings + {id} else db.embeddings)
      && after.refreshes == (if Settled(db, job) then db.refreshes - {job} else db.refreshes)
      && after == db.(embeddings := after.embeddings, refreshes := after.refreshes)
  {
  }

  /** An embedding is stored for an active memory alone, and settles the job that asked for it unless that
      wants a later revision. */
  lemma EmbedExactly(db: Database, id: MemoryId)
    ensures var after := Serve(db, DoEmbed(id));
      && after == db.(embeddings := after.embeddings, refreshes := after.refreshes)
      && (forall x :: x in after.embeddings <==>
            x in db.embeddings || (x == id && x in db.memories && db.memories[x].status == Active))
      && (forall k :: k in after.refreshes <==> k in db.refreshes && !(k.memory == id && Settled(db, k)))
      && (forall k | k in after.refreshes :: after.refreshes[k] == db.refreshes[k])
  {
    assert Serve(db, DoEmbed(id)) == UpsertEmbedding(db, id);
    hide Serve, UpsertEmbedding;
    EmbedEffect(db, id);
    forall k: RefreshKey | k.memory == id && Settled(db, k) ensures k == RefreshKey(EmbeddingRefresh, id) {}
    hide Settled;
  }

  /** A source once added is never overwritten, and its text is bounded. */
  lemma SourceExactly(db: Database, id: string, row: Source)
    ensures Serve(db, DoAddSource(id, row)) ==
      if id in db.sources || row.endedAt < row.startedAt || |row.text| > 12_000 then db
      else db.(sources := db.sources[id := row])
  {
  }

  /** A segment names between one and a thousand known sources, each once. */
  lemma SegmentExactly(db: Database, id: string, sources: seq<string>)
    ensures var after := Serve(db, DoAddSegment(id, sources));
      if id in db.segments || |sources| < 1 || |sources| > 1000 || Repeats(sources)
         || exists s | s in sources :: s !in db.sources
      then after == db
      else && id in after.segments && after == db.(segments := db.segments[id := after.segments[id]])
           && SameMembersAs(after.segments[id], sources)
  {
    RepeatsExactly(sources);
    assert SameMembersAs(ToSet(sources), sources);
    hide NoRepeats, Repeats, SameMembersAs, ToSet;
  }

  lemma CiteExactly(db: Database, source: string)
    ensures var after := Serve(db, DoCite(source));
      && after == db.(aliasSources := after.aliasSources)
      && forall s :: s in after.aliasSources <==> s in db.aliasSources || (s == source && s in db.sources)
  {
  }
}
