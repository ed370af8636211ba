/** The memory store as a mutable object. Each operation opens a transaction, executes its statements
    one by one, and commits by storing the transaction's database; any error abandons it. The contracts
    tie every operation to its specification as one atomic step. */
module MemoryStore {
  import opened Wrappers
  import opened MemoryModel
  import opened StoreSpec
  import opened StoreInvariants
  import Integers

  lemma Grow<T>(s: seq<T>, i: nat)
    requires i < |s|
    ensures ToSet(s[..i + 1]) == ToSet(s[..i]) + {s[i]}
    ensures NoRepeats(s[..i + 1]) <==> NoRepeats(s[..i]) && s[i] !in ToSet(s[..i])
    ensures !NoRepeats(s[..i + 1]) ==> !NoRepeats(s)
  {
    var a, b := s[..i], s[..i + 1];
    assert b == a + [s[i]];
    assert forall k | 0 <= k < i :: a[k] == s[k] == b[k];
    if s[i] in ToSet(a) {
      var k :| 0 <= k < i && a[k] == s[i];
      assert b[k] == b[i];
    }
  }

  /** Rows inserted one at a time into a table whose primary key pairs the memory with the item. */
  method InsertKeyed<T(==)>(items: seq<T>) returns (r: Result<set<T>, StoreError>)
    ensures r == if NoRepeats(items) then Ok(ToSet(items)) else Err(Constraint)
  {
    var rows: set<T> := {};
    var i := 0;
    while i < |items|
      invariant 0 <= i <= |items| && rows == ToSet(items[..i]) && NoRepeats(items[..i])
    {
      Grow(items, i);
      if items[i] in rows {
        return Err(Constraint);
      }
      rows := rows + {items[i]};
      i := i + 1;
    }
    assert items[..|items|] == items;
    return Ok(rows);
  }

  method InsertCategories(slugs: seq<string>, known: set<string>) returns (r: Result<set<string>, StoreError>)
    ensures r == if EffectiveCategories(slugs) <= known then Ok(EffectiveCategories(slugs)) else Err(UnknownCategory)
  {
    var effective := if slugs == [] then ["uncategorized"] else slugs;
    assert ToSet(effective) == EffectiveCategories(slugs);
    var rows := {};
    var i := 0;
    while i < |effective|
      invariant 0 <= i <= |effective| && rows == ToSet(effective[..i]) && rows <= known
    {
      if effective[i] !in known {
        assert effective[i] in ToSet(effective);
        return Err(UnknownCategory);
      }
      assert effective[..i + 1] == effective[..i] + [effective[i]];
      rows := rows + {effective[i]};
      i := i + 1;
    }
    assert effective[..|effective|] == effective;
    return Ok(rows);
  }

  datatype RetentionReport = RetentionReport(sources: nat, audits: nat, events: nat)

  datatype Applied = Applied(memory: Option<MemoryId>, status: Status, outcome: Outcome)

  function DropSource(db: Database, source: string): Database {
    db.(segments := (map g | g in db.segments :: db.segments[g] - {source}), sources := db.sources - {source})
  }

  ghost function Swept(db: Database, gone: set<string>): Database {
    db.(segments := (map g | g in db.segments :: db.segments[g] - gone), sources := db.sources - gone)
  }

  /** The sources of a deleted memory that no remaining link mentions. */
  ghost function Unlinked(db: Database, sources: set<string>): set<string> {
    set s | s in sources && !exists l | l in db.links :: l.source == s
  }

  function WithoutRow(db: Database, id: MemoryId): Database {
    db.(memories := db.memories - {id}, documents := db.documents - {id}, embeddings := db.embeddings - {id},
        relations := (set r | r in db.relations && r.newer != id && r.older != id),
        links := (set l | l in db.links && l.memory != id),
        audit := map k | k in db.audit ::
          if db.audit[k].memory == Some(id) then db.audit[k].(memory := None) else db.audit[k])
  }

  lemma RemovedRows<K, V>(m: map<K, V>, gone: set<K>)
    requires gone <= m.Keys
    ensures |m - gone| == |m| - |gone|
  {
    assert (m - gone).Keys == m.Keys - gone;
    assert |m.Keys| == |m| && |(m - gone).Keys| == |m - gone|;
  }

  lemma SweptNothing(db: Database)
    ensures Swept(db, {}) == db
  {
    forall g | g in db.segments ensures db.segments[g] - {} == db.segments[g] {}
    assert (map g | g in db.segments :: db.segments[g] - {}) == db.segments;
  }

  lemma SweptMore(db: Database, gone: set<string>, s: string)
    ensures DropSource(Swept(db, gone), s) == Swept(db, gone + {s})
  {
    forall g | g in db.segments ensures db.segments[g] - gone - {s} == db.segments[g] - (gone + {s}) {}
    assert DropSource(Swept(db, gone), s).segments == Swept(db, gone + {s}).segments;
    assert db.sources - gone - {s} == db.sources - (gone + {s});
  }

  lemma UnlinkedIsExclusive(before: Database, after: Database, id: MemoryId)
    requires after.links == WithoutRow(before, id).links
    ensures Unlinked(after, SourcesOf(before, id)) == ExclusiveSources(before, id)
  {
    forall s | s in SourcesOf(before, id)
      ensures s in Unlinked(after, SourcesOf(before, id)) <==> s in ExclusiveSources(before, id)
    {
      assert forall l :: l in after.links <==> l in before.links && l.memory != id;
    }
  }

  class Transaction {
    var db: Database

    constructor (start: Database)
      ensures db == start
    {
      db := start;
    }

    /** The new row with its categories; the id it got. */
    method InsertMemory(row: Memory, slugs: seq<string>) returns (r: Result<MemoryId, StoreError>)
      modifies this
      ensures r == if EffectiveCategories(slugs) <= old(db).categories then Ok(old(db).nextId) else Err(UnknownCategory)
      ensures r.Ok? ==>
        db == old(db).(nextId := old(db).nextId + 1,
                       memories := old(db).memories[old(db).nextId := row.(categories := EffectiveCategories(slugs))])
    {
      var id := db.nextId;
      db := db.(nextId := id + 1, memories := db.memories[id := row]);
      var categorised := InsertCategories(slugs, db.categories);
      if categorised.Err? { return Err(categorised.error); }
      db := db.(memories := db.memories[id := row.(categories := categorised.value)]);
      return Ok(id);
    }

    /** The row's search document, if the row is active. */
    method RefreshSearchDocument(id: MemoryId)
      requires id in db.memories
      modifies this
      ensures db == old(db).(documents :=
        if old(db).memories[id].status.Active? then old(db).documents[id := DocumentOf(old(db).memories[id])]
        else old(db).documents)
    {
      if db.memories[id].status.Active? {
        db := db.(documents := db.documents[id := DocumentOf(db.memories[id])]);
      }
    }

    /** The apps, sources and entities of a row just inserted. */
    method LinkCandidate(id: MemoryId, c: Candidate) returns (r: Result<(), StoreError>)
      requires id in db.memories
      modifies this
      ensures r == if NoRepeats(c.sourceApps) && NoRepeats(c.appliesTo) && NoRepeats(c.sources) && NoRepeats(c.mentions)
                   then Ok(()) else Err(Constraint)
      ensures r.Ok? ==>
        && db == old(db).(memories := db.memories, links := old(db).links + LinksTo(id, ToSet(c.sources)))
        && db.memories == old(db).memories[id := old(db).memories[id].(
             sourceApps := ToSet(c.sourceApps), appliesTo := ToSet(c.appliesTo), entities := ToSet(c.mentions))]
    {
      hide ToSet, NoRepeats;
      var made := InsertKeyed(c.sourceApps);
      if made.Err? { return Err(made.error); }
      db := db.(memories := db.memories[id := db.memories[id].(sourceApps := made.value)]);
      var applied := InsertKeyed(c.appliesTo);
      if applied.Err? { return Err(applied.error); }
      db := db.(memories := db.memories[id := db.memories[id].(appliesTo := applied.value)]);
      var linked := InsertKeyed(c.sources);
      if linked.Err? { return Err(linked.error); }
      db := db.(links := db.links + LinksTo(id, linked.value));
      var resolved := InsertKeyed(c.mentions);
      if resolved.Err? { return Err(resolved.error); }
      db := db.(memories := db.memories[id := db.memories[id].(entities := resolved.value)]);
      return Ok(());
    }

    method InsertCandidate(c: Candidate, status: Status, revision: nat, now: int)
      returns (r: Result<MemoryId, StoreError>)
      modifies this
      ensures r == (match StoreSpec.InsertCandidate(old(db), c, status, revision, now)
                    case Ok(_) => Ok(old(db).nextId)
                    case Err(e) => Err(e))
      ensures r.Ok? ==> db == StoreSpec.InsertCandidate(old(db), c, status, revision, now).value
      ensures r.Ok? ==> old(db).memories.Keys <= db.memories.Keys
    {
      hide EffectiveCategories, ToSet, NoRepeats, Text.Normalize;
      var row := CandidateMemory(c, status, revision, now)
        .(categories := {}, sourceApps := {}, appliesTo := {}, entities := {});
      var inserted := InsertMemory(row, c.categories);
      if inserted.Err? { return inserted; }
      var id := inserted.value;
      var linked := LinkCandidate(id, c);
      if linked.Err? { return Err(linked.error); }
      assert db.memories == old(db).memories[id := CandidateMemory(c, status, revision, now)];
      hide CandidateMemory, DocumentOf, LinksTo;
      if status.Active? {
        RefreshSearchDocument(id);
      }
      return Ok(id);
    }

    method InsertManual(input: ManualInput, revision: nat) returns (r: Result<MemoryId, StoreError>)
      modifies this
      ensures r == (match StoreSpec.InsertManual(old(db), input, revision)
                    case Ok(_) => Ok(old(db).nextId)
                    case Err(e) => Err(e))
      ensures r.Ok? ==> db == StoreSpec.InsertManual(old(db), input, revision).value
    {
      hide EffectiveCategories, ToSet, NoRepeats, Text.Normalize;
      var row := ManualMemory(input, revision).(categories := {}, appliesTo := {});
      var inserted := InsertMemory(row, input.categories);
      if inserted.Err? { return inserted; }
      var id := inserted.value;
      var applied := InsertKeyed(input.appliesTo);
      if applied.Err? { return Err(applied.error); }
      if !(applied.value <= db.apps) { return Err(Constraint); }
      db := db.(memories := db.memories[id := db.memories[id].(appliesTo := applied.value)]);
      RefreshSearchDocument(id);
      assert LinksTo(id, {}) == {};
      return Ok(id);
    }

    /** A row is retired and loses its search document. */
    method Retire(id: MemoryId, bump: nat, now: int)
      requires id in db.memories
      modifies this
      ensures db == Supersede(old(db), id, bump, now)
    {
      var m := db.memories[id];
      var retired := m.(status := Superseded, revision := m.revision + bump, updatedAt := now);
      db := db.(memories := db.memories[id := retired]);
      db := db.(documents := db.documents - {id});
    }

    method EnqueueProjectionRefresh(id: MemoryId, revision: nat)
      modifies this
      ensures db == EnqueueRefresh(old(db), id, revision)
    {
      var kinds := [EmbeddingRefresh, ProfileRefresh];
      var i := 0;
      while i < |kinds|
        invariant 0 <= i <= 2
        invariant db == old(db).(refreshes :=
          if i == 0 then old(db).refreshes
          else if i == 1 then UpsertRefresh(old(db).refreshes, RefreshKey(EmbeddingRefresh, id), revision)
          else EnqueueRefresh(old(db), id, revision).refreshes)
      {
        db := db.(refreshes := UpsertRefresh(db.refreshes, RefreshKey(kinds[i], id), revision));
        i := i + 1;
      }
    }

    method RecordEvent(e: Event) returns (r: Result<(), StoreError>)
      modifies this
      ensures r.Ok? <==> Record(old(db), e).Ok?
      ensures r.Ok? ==> db == Record(old(db), e).value
      ensures r.Err? ==> r.error == Record(old(db), e).error
    {
      if !ValidCorrelation(e.correlation) {
        return Err(InvalidInput);
      }
      db := db.(events := db.events + [e]);
      return Ok(());
    }

    /** Links a memory to further sources, ignoring links it already has. */
    method LinkSupport(id: MemoryId, sources: seq<string>)
      modifies this
      ensures db == old(db).(links := old(db).links + LinksTo(id, ToSet(sources)))
    {
      var i := 0;
      while i < |sources|
        invariant 0 <= i <= |sources|
        invariant db == old(db).(links := old(db).links + LinksTo(id, ToSet(sources[..i])))
      {
        Grow(sources, i);
        db := db.(links := db.links + {Link(id, sources[i])});
        i := i + 1;
      }
      assert sources[..|sources|] == sources;
    }

    /** The statements of one plan, by kind. */
    method MutateByPlan(plan: Plan, now: int) returns (r: Result<Applied, StoreError>)
      modifies this
      ensures r.Ok? <==> Mutate(old(db), plan, now).Ok?
      ensures r.Ok? ==>
        Mutate(old(db), plan, now).value == Mutation(db, r.value.memory, r.value.status, r.value.outcome)
      ensures r.Err? ==> r.error == Mutate(old(db), plan, now).error
    {
      hide EffectiveCategories, NoRepeats, CandidateMemory, InsertRow, ToSet, LinksTo;
      match plan {
        case Create(_, c, status) =>
          var id := InsertCandidate(c, status, 1, now);
          if id.Err? { return Err(id.error); }
          hide StoreSpec.InsertCandidate;
          return Ok(Applied(Some(id.value), status, Created));
        case Duplicate(_, id, sources, confidence) =>
          if !IsActive(db, id) { return Err(InvalidPlan); }
          LinkSupport(id, sources);
          db := RaiseConfidence(db, id, confidence, now);
          return Ok(Applied(Some(id), Active, Duplicated));
        case Update(_, existing, c, status) =>
          if !IsActive(db, existing) { return Err(InvalidPlan); }
          var target := db.memories[existing];
          if c.mode.TrustRank() < target.mode.TrustRank() || !status.Active? { return Err(InvalidPlan); }
          var id := InsertCandidate(c, status, target.revision + 1, now);
          if id.Err? { return Err(id.error); }
          Retire(existing, 0, now);
          db := db.(relations := db.relations + {Relation(id.value, existing, UpdatesRelation)});
          hide StoreSpec.InsertCandidate, Supersede;
          return Ok(Applied(Some(id.value), status, Updated));
        case Extend(_, existing, c, status) =>
          if !IsActive(db, existing) { return Err(InvalidPlan); }
          var id := InsertCandidate(c, status, 1, now);
          if id.Err? { return Err(id.error); }
          hide StoreSpec.InsertCandidate;
          db := db.(relations := db.relations + {Relation(id.value, existing, ExtendsRelation)});
          return Ok(Applied(Some(id.value), status, Extended));
        case Ignore(_, _) =>
          return Ok(Applied(None, Rejected, Ignored));
        case RequestReview(_, c, _) =>
          var id := InsertCandidate(c, PendingReview, 1, now);
          if id.Err? { return Err(id.error); }
          hide StoreSpec.InsertCandidate;
          return Ok(Applied(Some(id.value), PendingReview, ReviewRequested));
      }
    }

    /** Empties the texts of sources that ended before the cutoff, and counts those that had one. */
    method ExpireSourceTexts(cutoff: int) returns (count: nat)
      modifies this
      ensures db == old(db).(sources := map s | s in old(db).sources ::
        if old(db).sources[s].endedAt < cutoff then old(db).sources[s].(text := "") else old(db).sources[s])
      ensures count == |set s | s in old(db).sources && db.sources[s] != old(db).sources[s]|
    {
      var expired := set s | s in db.sources && db.sources[s].endedAt < cutoff && db.sources[s].text != "";
      db := db.(sources := map s | s in db.sources ::
        if s in expired then db.sources[s].(text := "") else db.sources[s]);
      assert expired == set s | s in old(db).sources && db.sources[s] != old(db).sources[s];
      return |expired|;
    }

    method PurgeAudits(cutoff: int) returns (count: nat)
      modifies this
      ensures db == old(db).(audit :=
        map k | k in old(db).audit && !Purged(old(db).audit[k], cutoff) :: old(db).audit[k])
      ensures count == |old(db).audit| - |db.audit|
    {
      var purged := set k | k in db.audit && Purged(db.audit[k], cutoff);
      RemovedRows(db.audit, purged);
      db := db.(audit := db.audit - purged);
      return |purged|;
    }

    method ExpireEvents(cutoff: int) returns (count: nat)
      modifies this
      ensures db == old(db).(events := KeepRecent(old(db).events, cutoff))
      ensures count == |old(db).events| - |db.events|
    {
      var kept := KeepRecent(db.events, cutoff);
      count := |db.events| - |kept|;
      db := db.(events := kept);
    }

    /** DELETE FROM memories, with the cascades of the schema. */
    method DeleteMemoryRow(id: MemoryId)
      modifies this
      ensures db == WithoutRow(old(db), id)
    {
      db := db.(memories := db.memories - {id}, documents := db.documents - {id}, embeddings := db.embeddings - {id});
      db := db.(relations := (set r | r in db.relations && r.newer != id && r.older != id));
      db := db.(links := (set l | l in db.links && l.memory != id));
      db := db.(audit := map k | k in db.audit ::
        if db.audit[k].memory == Some(id) then db.audit[k].(memory := None) else db.audit[k]);
    }

    /** Sweeps the sources the deleted memory had, in any order. */
    method SweepSources(sources: set<string>) returns (r: Result<(), StoreError>)
      modifies this
      ensures r.Err? <==> !(Unlinked(old(db), sources) !! old(db).aliasSources)
      ensures r.Err? ==> r.error == Constraint
      ensures r.Ok? ==> db == Swept(old(db), Unlinked(old(db), sources))
    {
      var pending := sources;
      ghost var start, all := db, Unlinked(db, sources);
      SweptNothing(db);
      assert all - pending == {};
      while pending != {}
        invariant pending <= sources
        invariant all - pending !! start.aliasSources
        invariant db == Swept(start, all - pending)
      {
        var s :| s in pending;
        var deleted := DeleteSource(s);
        assert s in all <==> !exists l | l in start.links :: l.source == s;
        if deleted.Err? { return deleted; }
        SweptMore(start, all - pending, s);
        assert all - (pending - {s}) == if s in all then (all - pending) + {s} else all - pending;
        pending := pending - {s};
      }
      assert all - {} == all;
      return Ok(());
    }

    /** Deletes one source that no memory is linked to any more, and its segment rows. */
    method DeleteSource(source: string) returns (r: Result<(), StoreError>)
      modifies this
      ensures var linked := exists l | l in old(db).links :: l.source == source;
        && (r.Err? <==> !linked && source in old(db).aliasSources)
        && (r.Err? ==> r.error == Constraint)
        && (r.Ok? ==> db == if linked then old(db) else DropSource(old(db), source))
    {
      if exists l | l in db.links :: l.source == source {
        return Ok(());
      }
      db := db.(segments := map g | g in db.segments :: db.segments[g] - {source});
      if source in db.aliasSources {
        return Err(Constraint);
      }
      db := db.(sources := db.sources - {source});
      return Ok(());
    }
  }

  class MemoryStore {
    var db: Database

    constructor (apps: set<string>, categories: set<string>, sourceDays: nat, auditDays: nat)
      ensures db == EmptyDatabase(apps, categories, sourceDays, auditDays) && Invariant(db)
    {
      db := EmptyDatabase(apps, categories, sourceDays, auditDays);
      EmptyInvariant(apps, categories, sourceDays, auditDays);
    }

    method ApplyPlan(plan: Plan, now: int) returns (r: Result<PlanReply, StoreError>)
      modifies this
      ensures (db, r) == StoreSpec.ApplyPlan(old(db), plan, now)
    {
      hide PlanError, Mutate, EnqueueRefresh, Record;
      var invalid := PlanError(db, plan);
      if invalid.Some? { return Err(invalid.value); }
      if plan.key in db.audit {
        var row := db.audit[plan.key];
        return Ok(PlanReply(row.memory, OutcomeStatus(row.outcome), true));
      }
      var tx := new Transaction(db);
      var applied := tx.MutateByPlan(plan, now);
      if applied.Err? { return Err(applied.error); }
      var Applied(memory, status, outcome) := applied.value;
      tx.db := tx.db.(audit := tx.db.audit[plan.key := AuditRow(outcome, memory, now)]);
      if memory.Some? && memory.value in tx.db.memories {
        tx.EnqueueProjectionRefresh(memory.value, tx.db.memories[memory.value].revision);
      }
      var recorded := tx.RecordEvent(Event(ReconciliationApplied, plan.key.run, memory, now));
      if recorded.Err? { return Err(recorded.error); }
      db := tx.db;
      return Ok(PlanReply(memory, status, false));
    }

    method CreateManual(input: ManualInput, correlation: string) returns (r: Result<MemoryId, StoreError>)
      modifies this
      ensures (db, r) == StoreSpec.CreateManual(old(db), input, correlation)
    {
      hide ValidManual, StoreSpec.InsertManual, EnqueueRefresh, Record;
      if !ValidManual(input) { return Err(InvalidInput); }
      var tx := new Transaction(db);
      var id := tx.InsertManual(input, 1);
      if id.Err? { return id; }
      tx.EnqueueProjectionRefresh(id.value, 1);
      var recorded := tx.RecordEvent(Event(ReconciliationApplied, correlation, Some(id.value), input.now));
      if recorded.Err? { return Err(recorded.error); }
      db := tx.db;
      return id;
    }

    method EditManual(id: MemoryId, expected: nat, input: ManualInput, correlation: string)
      returns (r: Result<MemoryId, StoreError>)
      modifies this
      ensures (db, r) == StoreSpec.EditManual(old(db), id, expected, input, correlation)
    {
      hide ValidManual, EnqueueRefresh, Record;
      if !ValidManual(input) { return Err(InvalidInput); }
      var tx := new Transaction(db);
      var stale := RevisionError(tx.db, id, expected);
      if stale.Some? { return Err(stale.value); }
      var status := tx.db.memories[id].status;
      if status.Forgotten? || status.Rejected? { return Err(InvalidInput); }
      var newer := tx.InsertManual(input, expected + 1);
      if newer.Err? { return newer; }
      assert id in tx.db.memories;
      hide StoreSpec.InsertManual;
      tx.Retire(id, 1, input.now);
      tx.db := tx.db.(relations := tx.db.relations + {Relation(newer.value, id, UpdatesRelation)});
      tx.EnqueueProjectionRefresh(newer.value, expected + 1);
      var recorded := tx.RecordEvent(Event(MemoryEdited, correlation, Some(newer.value), input.now));
      if recorded.Err? { return Err(recorded.error); }
      db := tx.db;
      return newer;
    }

    method ConfirmPending(id: MemoryId, expected: nat, correlation: string, now: int)
      returns (r: Result<nat, StoreError>)
      modifies this
      ensures (db, r) == StoreSpec.ConfirmPending(old(db), id, expected, correlation, now)
    {
      hide EnqueueRefresh, Record, DocumentOf;
      var tx := new Transaction(db);
      var stale := RevisionError(tx.db, id, expected);
      if stale.Some? { return Err(stale.value); }
      var m := tx.db.memories[id];
      if !m.status.PendingReview? { return Err(InvalidInput); }
      tx.db := tx.db.(memories := tx.db.memories[id :=
        m.(status := Active, mode := Manual, confidence := 1.0, revision := m.revision + 1, updatedAt := now)]);
      tx.RefreshSearchDocument(id);
      tx.EnqueueProjectionRefresh(id, expected + 1);
      var recorded := tx.RecordEvent(Event(MemoryConfirmed, correlation, Some(id), now));
      if recorded.Err? { return Err(recorded.error); }
      db := tx.db;
      return Ok(expected + 1);
    }

    method RejectPending(id: MemoryId, expected: nat, correlation: string, now: int)
      returns (r: Result<nat, StoreError>)
      modifies this
      ensures (db, r) == StoreSpec.RejectPending(old(db), id, expected, correlation, now)
    {
      hide Record;
      var tx := new Transaction(db);
      var stale := RevisionError(tx.db, id, expected);
      if stale.Some? { return Err(stale.value); }
      var m := tx.db.memories[id];
      if !m.status.PendingReview? { return Err(InvalidInput); }
      var rejected := m.(status := Rejected, revision := m.revision + 1, updatedAt := now);
      tx.db := tx.db.(memories := tx.db.memories[id := rejected]);
      tx.db := tx.db.(documents := tx.db.documents - {id});
      tx.db := tx.db.(embeddings := tx.db.embeddings - {id});
      var recorded := tx.RecordEvent(Event(MemoryRejected, correlation, Some(id), now));
      if recorded.Err? { return Err(recorded.error); }
      db := tx.db;
      return Ok(expected + 1);
    }

    method Forget(id: MemoryId, expected: nat, correlation: string, now: int) returns (r: Result<(), StoreError>)
      modifies this
      ensures (db, r) == StoreSpec.DeleteMemory(old(db), id, expected, DeleteMode.Forget, correlation, now)
    {
      hide Record, InvalidatesProfile;
      var tx := new Transaction(db);
      var stale := RevisionError(tx.db, id, expected);
      if stale.Some? { return Err(stale.value); }
      var m := tx.db.memories[id];
      var forgotten := m.(status := Forgotten, revision := m.revision + 1, updatedAt := now);
      tx.db := tx.db.(memories := tx.db.memories[id := forgotten]);
      tx.db := tx.db.(documents := tx.db.documents - {id}, embeddings := tx.db.embeddings - {id});
      tx.db := tx.db.(profiles := SurvivingProfiles(tx.db, m));
      var jobs := {RefreshKey(EmbeddingRefresh, id), RefreshKey(ProfileRefresh, id)};
      tx.db := tx.db.(refreshes := tx.db.refreshes - jobs);
      var recorded := tx.RecordEvent(Event(MemoryForgotten, correlation, Some(id), now));
      if recorded.Err? { return Err(recorded.error); }
      db := tx.db;
      return Ok(());
    }

    method DeletePermanently(id: MemoryId, expected: nat, correlation: string, now: int)
      returns (r: Result<(), StoreError>)
      modifies this
      ensures (db, r) == StoreSpec.DeleteMemory(old(db), id, expected, Permanent, correlation, now)
    {
      hide Record, InvalidatesProfile;
      var tx := new Transaction(db);
      var stale := RevisionError(tx.db, id, expected);
      if stale.Some? { return Err(stale.value); }
      var sources := SourcesOf(tx.db, id);
      tx.db := tx.db.(profiles := SurvivingProfiles(tx.db, tx.db.memories[id]));
      tx.DeleteMemoryRow(id);
      UnlinkedIsExclusive(db, tx.db, id);
      hide ExclusiveSources, Unlinked, SourcesOf;
      var swept := tx.SweepSources(sources);
      if swept.Err? { return swept; }
      tx.db := tx.db.(segments := map g | g in tx.db.segments && tx.db.segments[g] != {} :: tx.db.segments[g]);
      tx.db := tx.db.(tombstones := tx.db.tombstones[id :=
        if id in tx.db.tombstones && tx.db.tombstones[id] > expected + 1 then tx.db.tombstones[id] else expected + 1]);
      assert tx.db == StoreSpec.DeletePermanently(db, id, expected);
      hide StoreSpec.DeletePermanently;
      var recorded := tx.RecordEvent(Event(MemoryDeleted, correlation, Some(id), now));
      if recorded.Err? { return Err(recorded.error); }
      db := tx.db;
      return Ok(());
    }

    /** One retention pass; the report counts the rows each statement changed. */
    method ApplyRetention(now: int) returns (report: RetentionReport)
      modifies this
      ensures db == Retain(old(db), now)
      ensures report.sources == |set s | s in old(db).sources && db.sources[s] != old(db).sources[s]|
      ensures report.audits == |old(db).audit| - |db.audit| && report.events == |old(db).events| - |db.events|
    {
      hide KeepRecent, Integers.SaturatingSub, Integers.SaturatingMul, Purged;
      var sourceCutoff := Integers.SaturatingSub(now, Integers.SaturatingMul(db.sourceDays, DAY_MILLIS));
      var auditCutoff := Integers.SaturatingSub(now, Integers.SaturatingMul(db.auditDays, DAY_MILLIS));
      var tx := new Transaction(db);
      var sources := tx.ExpireSourceTexts(sourceCutoff);
      var audits := tx.PurgeAudits(auditCutoff);
      var events := tx.ExpireEvents(auditCutoff);
      db := tx.db;
      return RetentionReport(sources, audits, events);
    }
  }
}
