/** What a permanent delete removes, and what it can never bring back. */
module Deletion {
  import opened Wrappers
  import Integers
  import opened MemoryModel
  import opened StoreSpec
  import opened StoreInvariants

  ghost predicate LinkedElsewhere(db: Database, id: MemoryId, source: string) {
    exists other :: other != id && Link(other, source) in db.links
  }

  lemma ExclusiveSourcesExact(db: Database, id: MemoryId, source: string)
    ensures source in ExclusiveSources(db, id) <==> Link(id, source) in db.links && !LinkedElsewhere(db, id, source)
  {
    if Link(id, source) in db.links {
      assert source in SourcesOf(db, id);
    }
    forall l | l in db.links && l.source == source ensures l == Link(l.memory, source) {}
  }

  /** A permanent delete is refused exactly for a stale revision, a bad correlation id, or when an entity
      alias still cites a source that only this memory is linked to. */
  lemma PermanentDeleteAccepted(db: Database, id: MemoryId, expected: nat, correlation: string, now: int)
    ensures DeleteMemory(db, id, expected, Permanent, correlation, now).1.Ok?
            <==> && id in db.memories && db.memories[id].revision == expected && ValidCorrelation(correlation)
                 && forall s | s in db.aliasSources && Link(id, s) in db.links :: LinkedElsewhere(db, id, s)
  {
    hide ValidCorrelation;
    forall s ensures s in ExclusiveSources(db, id) <==> Link(id, s) in db.links && !LinkedElsewhere(db, id, s) {
      ExclusiveSourcesExact(db, id, s);
    }
    if id in db.memories {
      assert Record(DeletePermanently(db, id, expected), Event(MemoryDeleted, correlation, Some(id), now)).Ok?
          <==> ValidCorrelation(correlation);
    }
  }

  /** The evidence a permanent delete destroys: exactly the sources no other memory is linked to, and
      exactly the segments left with no source. */
  lemma PermanentDeleteEvidence(db: Database, id: MemoryId, expected: nat, correlation: string, now: int)
    requires WellKeyed(db) && DeleteMemory(db, id, expected, Permanent, correlation, now).1.Ok?
    ensures var after := DeleteMemory(db, id, expected, Permanent, correlation, now).0;
      && (forall s | s in db.sources :: s !in after.sources <==> Link(id, s) in db.links && !LinkedElsewhere(db, id, s))
      && (forall s | s in after.sources :: s in db.sources && after.sources[s] == db.sources[s])
      && (forall g | g in db.segments ::
            g in after.segments <==> exists s | s in db.segments[g] :: s in after.sources)
      && (forall g | g in after.segments ::
            g in db.segments && after.segments[g] == db.segments[g] * after.sources.Keys)
  {
    hide ValidCorrelation;
    forall s ensures s in ExclusiveSources(db, id) <==> Link(id, s) in db.links && !LinkedElsewhere(db, id, s) {
      ExclusiveSourcesExact(db, id, s);
    }
    var after := DeleteMemory(db, id, expected, Permanent, correlation, now).0;
    var gone := ExclusiveSources(db, id);
    assert after.sources == db.sources - gone && after.segments == PruneSegments(db.segments, gone);
    hide DeleteMemory, LinkedElsewhere, ExclusiveSources;
    forall g | g in db.segments
      ensures g in after.segments <==> exists s | s in db.segments[g] :: s in after.sources
      ensures g in after.segments ==> after.segments[g] == db.segments[g] * after.sources.Keys
    {
      assert db.segments[g] - gone == db.segments[g] * after.sources.Keys;
      if g in after.segments {
        var s :| s in db.segments[g] - gone;
      }
      assert forall s | s in db.segments[g] && s in after.sources :: s in db.segments[g] - gone;
    }
  }

  /** None of the memory's own tables names it: no row, search document, relation, source link or audit
      reference. */
  ghost predicate Unmentioned(db: Database, id: MemoryId) {
    && id !in db.memories && id !in db.documents
    && (forall r | r in db.relations :: r.newer != id && r.older != id)
    && (forall l | l in db.links :: l.memory != id)
    && (forall k | k in db.audit :: db.audit[k].memory != Some(id))
  }

  /** The rest of the store is as it was. */
  lemma PermanentDeleteSparesOthers(db: Database, id: MemoryId, expected: nat, correlation: string, now: int)
    requires DeleteMemory(db, id, expected, Permanent, correlation, now).1.Ok?
    ensures var after := DeleteMemory(db, id, expected, Permanent, correlation, now).0;
      && Unmentioned(after, id) && id !in after.embeddings
      && id in after.tombstones && after.tombstones[id] > expected
      && (forall x | x != id :: x in after.memories <==> x in db.memories)
      && (forall x | x in after.memories :: after.memories[x] == db.memories[x])
      && (forall x, s | x != id :: Link(x, s) in after.links <==> Link(x, s) in db.links)
      && (forall a, b, k | a != id && b != id ::
            Relation(a, b, k) in after.relations <==> Relation(a, b, k) in db.relations)
      && after.audit.Keys == db.audit.Keys
  {
    hide ValidCorrelation, ExclusiveSources, PruneSegments, SurvivingProfiles;
  }

  // ---------- what still names a deleted memory ----------

  predicate Names(e: Event, id: MemoryId) { e.memory == Some(id) }

  /** A permanent delete leaves the projection jobs alone and records itself: a job names the memory
      afterwards exactly if one did before, and an event always does. */
  lemma PermanentDeleteLeavesJobs(db: Database, id: MemoryId, expected: nat, correlation: string, now: int)
    requires DeleteMemory(db, id, expected, Permanent, correlation, now).1.Ok?
    ensures var after := DeleteMemory(db, id, expected, Permanent, correlation, now).0;
      && after.refreshes == db.refreshes
      && (forall kind :: RefreshKey(kind, id) in after.refreshes <==> RefreshKey(kind, id) in db.refreshes)
      && after.events == db.events + [Event(MemoryDeleted, correlation, Some(id), now)]
      && exists e :: e in after.events && Names(e, id)
  {
    hide ValidCorrelation, ExclusiveSources, PruneSegments, SurvivingProfiles;
    var after := DeleteMemory(db, id, expected, Permanent, correlation, now).0;
    var e := Event(MemoryDeleted, correlation, Some(id), now);
    assert after.events[|db.events|] == e && Names(e, id);
  }

  /** From `a` to `b`, nothing new names the absent memory `id` outside its own tables, and its projection
      jobs and tombstone stay. */
  ghost predicate StaysGone(a: Database, b: Database, id: MemoryId) {
    && (forall kind :: RefreshKey(kind, id) in b.refreshes <==> RefreshKey(kind, id) in a.refreshes)
    && (forall e | e in b.events && Names(e, id) :: e in a.events)
    && (id in a.tombstones ==> id in b.tombstones && b.tombstones[id] >= a.tombstones[id])
  }

  /** One recorded event about another memory, or about none. */
  lemma RecordedElsewhere(a: Database, b: Database, e: Event, id: MemoryId)
    requires b.events == a.events + [e] && !Names(e, id) && b.tombstones == a.tombstones
    requires forall kind :: RefreshKey(kind, id) in b.refreshes <==> RefreshKey(kind, id) in a.refreshes
    ensures StaysGone(a, b, id)
  {
  }

  lemma MutateElsewhere(db: Database, plan: Plan, now: int, id: MemoryId)
    requires id !in db.memories && id < db.nextId && Mutate(db, plan, now).Ok?
    ensures var m := Mutate(db, plan, now).value;
      && m.memory != Some(id) && m.db.refreshes == db.refreshes && m.db.events == db.events
      && m.db.tombstones == db.tombstones
  {
    hide EffectiveCategories, NoRepeats, CandidateMemory;
  }

  lemma CloseElsewhere(m: Mutation, key: PlanKey, now: int, id: MemoryId)
    requires m.memory != Some(id) && CloseMutation(m, key, now).Ok?
    ensures StaysGone(m.db, CloseMutation(m, key, now).value, id)
  {
    hide ValidCorrelation;
    RecordedElsewhere(m.db, CloseMutation(m, key, now).value, Event(ReconciliationApplied, key.run, m.memory, now), id);
    hide StaysGone;
  }

  lemma PlanStaysGone(db: Database, plan: Plan, now: int, id: MemoryId)
    requires id !in db.memories && id < db.nextId
    ensures StaysGone(db, ApplyPlan(db, plan, now).0, id)
  {
    hide PlanError, Mutate, CloseMutation;
    if PlanError(db, plan).None? && plan.key !in db.audit && Mutate(db, plan, now).Ok? {
      var m := Mutate(db, plan, now).value;
      MutateElsewhere(db, plan, now, id);
      if CloseMutation(m, plan.key, now).Ok? {
        CloseElsewhere(m, plan.key, now, id);
      }
    }
  }

  lemma CreateStaysGone(db: Database, input: ManualInput, correlation: string, id: MemoryId)
    requires id < db.nextId
    ensures StaysGone(db, CreateManual(db, input, correlation).0, id)
  {
    hide ValidManual, ValidCorrelation, EffectiveCategories, NoRepeats, ManualMemory;
    var after := CreateManual(db, input, correlation).0;
    if after != db {
      RecordedElsewhere(db, after, Event(ReconciliationApplied, correlation, Some(db.nextId), input.now), id);
    }
    hide CreateManual;
  }

  lemma EditStaysGone(db: Database, x: MemoryId, expected: nat, input: ManualInput, correlation: string, id: MemoryId)
    requires id < db.nextId
    ensures StaysGone(db, EditManual(db, x, expected, input, correlation).0, id)
  {
    hide ValidManual, ValidCorrelation, EffectiveCategories, NoRepeats, ManualMemory;
    var after := EditManual(db, x, expected, input, correlation).0;
    if after != db {
      RecordedElsewhere(db, after, Event(MemoryEdited, correlation, Some(db.nextId), input.now), id);
    }
    hide EditManual;
  }

  lemma ConfirmStaysGone(db: Database, x: MemoryId, expected: nat, correlation: string, now: int, id: MemoryId)
    requires id !in db.memories
    ensures StaysGone(db, ConfirmPending(db, x, expected, correlation, now).0, id)
  {
    hide ValidCorrelation, DocumentOf;
    var after := ConfirmPending(db, x, expected, correlation, now).0;
    if after != db {
      RecordedElsewhere(db, after, Event(MemoryConfirmed, correlation, Some(x), now), id);
    }
    hide ConfirmPending;
  }

  lemma RejectStaysGone(db: Database, x: MemoryId, expected: nat, correlation: string, now: int, id: MemoryId)
    requires id !in db.memories
    ensures StaysGone(db, RejectPending(db, x, expected, correlation, now).0, id)
  {
    hide ValidCorrelation;
    var after := RejectPending(db, x, expected, correlation, now).0;
    if after != db {
      RecordedElsewhere(db, after, Event(MemoryRejected, correlation, Some(x), now), id);
    }
    hide RejectPending;
  }

  lemma DeleteStaysGone(
      db: Database, x: MemoryId, expected: nat, mode: DeleteMode, correlation: string, now: int, id: MemoryId)
    requires id !in db.memories
    ensures StaysGone(db, DeleteMemory(db, x, expected, mode, correlation, now).0, id)
  {
    hide ValidCorrelation, ExclusiveSources, PruneSegments, SurvivingProfiles;
  }

  lemma {:induction false} KeptEvents(events: seq<Event>, cutoff: int)
    ensures forall e | e in KeepRecent(events, cutoff) :: e in events
  {
    if events != [] {
      KeptEvents(events[1..], cutoff);
    }
  }

  lemma PutProfileStaysGone(
      db: Database, key: ProfileKey, profile: Profile, correlation: string, now: int, id: MemoryId)
    ensures StaysGone(db, PutProfile(db, key, profile, correlation, now), id)
  {
    hide ValidCorrelation;
    var after := PutProfile(db, key, profile, correlation, now);
    if after != db {
      RecordedElsewhere(db, after, Event(ProfileRegenerated, correlation, None, now), id);
    }
    hide PutProfile;
  }

  lemma EmbedStaysGone(db: Database, x: MemoryId, id: MemoryId)
    requires id !in db.memories
    ensures StaysGone(db, UpsertEmbedding(db, x), id)
  {
  }

  lemma SourceStaysGone(db: Database, source: string, row: Source, id: MemoryId)
    ensures StaysGone(db, AddSource(db, source, row), id)
  {
  }

  lemma CiteStaysGone(db: Database, source: string, id: MemoryId)
    ensures StaysGone(db, CiteSource(db, source), id)
  {
  }

  lemma SegmentStaysGone(db: Database, segment: string, sources: seq<string>, id: MemoryId)
    ensures StaysGone(db, AddSegment(db, segment, sources), id)
  {
    hide NoRepeats, ToSet;
  }

  lemma RetainStaysGone(db: Database, now: int, id: MemoryId)
    ensures StaysGone(db, Retain(db, now), id)
  {
    forall e | e in Retain(db, now).events ensures e in db.events {
      KeptEvents(db.events, Integers.SaturatingSub(now, Integers.SaturatingMul(db.auditDays, DAY_MILLIS)));
    }
    hide KeepRecent, Purged;
  }

  lemma ServeStaysGone(db: Database, r: Request, id: MemoryId)
    requires id !in db.memories && id < db.nextId
    ensures StaysGone(db, Serve(db, r), id)
  {
    hide ApplyPlan, CreateManual, EditManual, ConfirmPending, RejectPending, DeleteMemory, Retain, PutProfile,
      UpsertEmbedding, AddSource, CiteSource, AddSegment, StaysGone;
    match r
    case DoPlan(plan, now) => PlanStaysGone(db, plan, now, id);
    case DoCreate(input, correlation) => CreateStaysGone(db, input, correlation, id);
    case DoEdit(x, expected, input, correlation) => EditStaysGone(db, x, expected, input, correlation, id);
    case DoConfirm(x, expected, correlation, now) => ConfirmStaysGone(db, x, expected, correlation, now, id);
    case DoReject(x, expected, correlation, now) => RejectStaysGone(db, x, expected, correlation, now, id);
    case DoDelete(x, expected, mode, correlation, now) => DeleteStaysGone(db, x, expected, mode, correlation, now, id);
    case DoRetain(now) => RetainStaysGone(db, now, id);
    case DoPutProfile(key, profile, correlation, now) => PutProfileStaysGone(db, key, profile, correlation, now, id);
    case DoEmbed(x) => EmbedStaysGone(db, x, id);
    case DoAddSource(source, row) => SourceStaysGone(db, source, row, id);
    case DoCite(source) => CiteStaysGone(db, source, id);
    case DoAddSegment(segment, sources) => SegmentStaysGone(db, segment, sources, id);
  }

  lemma StaysGoneTwice(a: Database, b: Database, c: Database, id: MemoryId)
    requires StaysGone(a, b, id) && StaysGone(b, c, id)
    ensures StaysGone(a, c, id)
  {
  }

  lemma {:induction false} RunStaysGone(db: Database, requests: seq<Request>, id: MemoryId)
    requires Invariant(db) && id !in db.memories && id < db.nextId
    ensures StaysGone(db, Run(db, requests), id)
    decreases |requests|
  {
    if requests != [] {
      var next := Serve(db, requests[0]);
      ServeStaysGone(db, requests[0], id);
      ServeKeeps(db, requests[0]);
      ServeEvolves(db, requests[0]);
      assert id !in next.memories && id < next.nextId;
      hide Serve, StaysGone, Evolves;
      RunStaysGone(next, requests[1..], id);
      StaysGoneTwice(db, next, Run(db, requests), id);
    }
  }

  lemma GoneIsUnmentioned(db: Database, id: MemoryId)
    requires WellKeyed(db) && Indexed(db) && id !in db.memories
    ensures Unmentioned(db, id)
  {
  }

  /** Main result: whatever requests follow a permanent delete, none of the memory's own tables ever names it
      again, its tombstone stays, no later event is about it, and exactly the projection jobs it had remain. */
  lemma DeletedForGood(db: Database, id: MemoryId, expected: nat, correlation: string, now: int, requests: seq<Request>)
    requires Invariant(db) && DeleteMemory(db, id, expected, Permanent, correlation, now).1.Ok?
    ensures var deleted := DeleteMemory(db, id, expected, Permanent, correlation, now).0;
      var end := Run(deleted, requests);
      && Unmentioned(end, id)
      && id in end.tombstones && end.tombstones[id] > expected
      && (forall e | e in end.events && Names(e, id) :: e in deleted.events)
      && (forall kind :: RefreshKey(kind, id) in end.refreshes <==> RefreshKey(kind, id) in db.refreshes)
  {
    var after := DeleteMemory(db, id, expected, Permanent, correlation, now).0;
    DeleteMemoryKeeps(db, id, expected, Permanent, correlation, now);
    PermanentDeleteLeavesJobs(db, id, expected, correlation, now);
    PermanentDeleteSparesOthers(db, id, expected, correlation, now);
    assert id < db.nextId == after.nextId && id !in after.memories;
    hide DeleteMemory;
    RunKeeps(after, requests);
    assert id !in Run(after, requests).memories;
    hide Evolves, Lineage, Provenance;
    RunStaysGone(after, requests, id);
    GoneIsUnmentioned(Run(after, requests), id);
  }

  /** The failing case: a memory made by hand and deleted at once leaves both its projection jobs behind. */
  lemma CreatedThenDeleted(db: Database, input: ManualInput, correlation: string, now: int)
    requires WellKeyed(db) && CreateManual(db, input, correlation).1.Ok?
    ensures var created := CreateManual(db, input, correlation).0;
      var deleted := DeleteMemory(created, db.nextId, 1, Permanent, correlation, now);
      && deleted.1.Ok? && db.nextId !in deleted.0.memories
      && RefreshKey(EmbeddingRefresh, db.nextId) in deleted.0.refreshes
      && RefreshKey(ProfileRefresh, db.nextId) in deleted.0.refreshes
  {
    var id := db.nextId;
    var created := CreateManual(db, input, correlation).0;
    assert created.memories[id].revision == 1 && ValidCorrelation(correlation);
    assert created.links == db.links + {} && forall s :: Link(id, s) !in created.links;
    assert RefreshKey(EmbeddingRefresh, id) in created.refreshes && RefreshKey(ProfileRefresh, id) in created.refreshes;
    hide CreateManual, WellKeyed, ValidCorrelation, LinkedElsewhere;
    PermanentDeleteAccepted(created, id, 1, correlation, now);
    PermanentDeleteLeavesJobs(created, id, 1, correlation, now);
    PermanentDeleteSparesOthers(created, id, 1, correlation, now);
  }
}
