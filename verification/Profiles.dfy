/** Profile projections: what a generated profile contains, and that invalidation removes exactly the
    stored profiles a forgotten or deleted memory can appear in. */
module Profiles {
  import opened Wrappers
  import opened MemoryModel
  import opened StoreSpec
  import opened StoreInvariants
  import opened Reconcile
  import Integers
  import Text
  import opened Sorting

  datatype Listed = Listed(id: MemoryId, memory: Memory)

  function StripPrefix(s: string, prefix: string): Option<string> {
    if prefix <= s then Some(s[|prefix|..]) else None
  }

  /** The projection membership test of the profile builder. */
  predicate BelongsToProjection(m: Memory, key: ProfileKey) {
    match key.projection
    case GlobalProfile => m.scope.kind == GlobalScope
    case AppProfile => key.key in m.appliesTo || (m.scope.kind == AppScope && m.scope.key == key.key)
    case ProjectProfile => m.scope == Scope(ProjectScope, key.key)
    case CategoryProfile =>
      exists slug | slug in m.categories ::
        slug == key.key || (var suffix := StripPrefix(slug, key.key); suffix.Some? && "." <= suffix.value)
    case EntityProfile => exists e | e in m.entities :: e.entity == key.key
  }

  /** The statement that invalidates stored profiles selects exactly the projections a memory belongs to. */
  lemma InvalidationExact(m: Memory, key: ProfileKey)
    ensures InvalidatesProfile(m, key) <==> BelongsToProjection(m, key)
  {
    if key.projection.CategoryProfile? {
      forall slug | slug in m.categories
        ensures (slug == key.key || (var suffix := StripPrefix(slug, key.key); suffix.Some? && "." <= suffix.value))
                <==> (slug == key.key || (|slug| > |key.key| && slug[..|key.key|] == key.key
                                          && slug[|key.key|..|key.key| + 1] == "."))
      {
        if |slug| > |key.key| {
          assert slug[|key.key|..][..1] == slug[|key.key|..|key.key| + 1];
        }
      }
    }
  }

  // ---------- building ----------

  /** The builder's order: importance, confidence and recency descending, then id. */
  predicate Outweighs(a: Listed, b: Listed) {
    || a.memory.importance > b.memory.importance
    || (a.memory.importance == b.memory.importance
        && (|| a.memory.confidence > b.memory.confidence
            || (a.memory.confidence == b.memory.confidence
                && (|| a.memory.updatedAt > b.memory.updatedAt
                    || (a.memory.updatedAt == b.memory.updatedAt && a.id < b.id)))))
  }

  predicate Included(l: Listed, key: ProfileKey) {
    l.memory.status.Active? && BelongsToProjection(l.memory, key)
  }

  function Select(listing: seq<Listed>, key: ProfileKey): seq<Listed> {
    if listing == [] then []
    else (if Included(listing[0], key) then [listing[0]] else []) + Select(listing[1..], key)
  }

  predicate Stable(kind: MemoryType) { kind.Preference? || kind.Fact? || kind.Procedure? }

  function Item(l: Listed): ProfileItem { ProfileItem(l.id, l.memory.content, l.memory.updatedAt) }

  function Items(ranked: seq<Listed>, stable: bool): seq<ProfileItem> {
    if ranked == [] then []
    else
      var last := ranked[|ranked| - 1];
      Items(ranked[..|ranked| - 1], stable) + (if Stable(last.memory.kind) == stable then [Item(last)] else [])
  }

  function ProfileOf(listing: seq<Listed>, key: ProfileKey, sourceRevision: nat): Profile {
    var ranked := Sort(Select(listing, key), Outweighs);
    Profile(Items(ranked, true), Items(ranked, false), sourceRevision)
  }

  method BuildProfile(listing: seq<Listed>, key: ProfileKey, sourceRevision: nat) returns (profile: Profile)
    ensures profile == ProfileOf(listing, key, sourceRevision)
  {
    var ranked := Sort(Select(listing, key), Outweighs);
    var stable, current := [], [];
    for i := 0 to |ranked|
      invariant stable == Items(ranked[..i], true) && current == Items(ranked[..i], false)
    {
      assert ranked[..i + 1][..i] == ranked[..i];
      if Stable(ranked[i].memory.kind) {
        stable := stable + [Item(ranked[i])];
      } else {
        current := current + [Item(ranked[i])];
      }
    }
    assert ranked[..|ranked|] == ranked;
    profile := Profile(stable, current, sourceRevision);
  }

  ghost predicate DistinctListed(listing: seq<Listed>) {
    forall i, j | 0 <= i < j < |listing| :: listing[i].id != listing[j].id
  }

  lemma {:induction false} SelectMembers(listing: seq<Listed>, key: ProfileKey)
    ensures forall l :: l in Select(listing, key) <==> l in listing && Included(l, key)
    ensures DistinctListed(listing) ==> DistinctListed(Select(listing, key))
  {
    if listing != [] {
      SelectMembers(listing[1..], key);
      assert listing == [listing[0]] + listing[1..];
      if DistinctListed(listing) {
        forall l | l in Select(listing[1..], key) ensures l.id != listing[0].id {
          var k :| 0 <= k < |listing[1..]| && listing[1..][k] == l;
          assert listing[k + 1] == l;
        }
      }
    }
  }

  lemma OutweighsOrders()
    ensures Asymmetric(Outweighs) && Transitive(Outweighs)
  {
  }

  lemma DistinctComparable(listing: seq<Listed>)
    requires DistinctListed(listing)
    ensures Comparable(listing, Outweighs)
  {
  }

  lemma {:induction false} ItemsMembers(ranked: seq<Listed>, stable: bool)
    ensures forall item :: item in Items(ranked, stable) <==>
              exists l | l in ranked :: Item(l) == item && Stable(l.memory.kind) == stable
  {
    if ranked != [] {
      var n := |ranked| - 1;
      ItemsMembers(ranked[..n], stable);
      assert ranked == ranked[..n] + [ranked[n]];
    }
  }

  /** Main result on building: a profile lists exactly the active memories of its projection, durable kinds
      and current kinds apart, and does not depend on the order in which the memories were listed. */
  lemma ProfileContents(listing: seq<Listed>, key: ProfileKey, sourceRevision: nat)
    ensures var p := ProfileOf(listing, key, sourceRevision);
      && (forall item :: item in p.stable <==>
            exists l | l in listing :: Item(l) == item && Included(l, key) && Stable(l.memory.kind))
      && (forall item :: item in p.current <==>
            exists l | l in listing :: Item(l) == item && Included(l, key) && !Stable(l.memory.kind))
  {
    var ranked := Sort(Select(listing, key), Outweighs);
    SortKeeps(Select(listing, key), Outweighs);
    SameMembers(ranked, Select(listing, key));
    SelectMembers(listing, key);
    ItemsMembers(ranked, true);
    ItemsMembers(ranked, false);
  }

  /** The ranked memories of one kind of section, in rank order. */
  function Section(ranked: seq<Listed>, stable: bool): seq<Listed> {
    if ranked == [] then []
    else
      var last := ranked[|ranked| - 1];
      Section(ranked[..|ranked| - 1], stable) + (if Stable(last.memory.kind) == stable then [last] else [])
  }

  lemma {:induction false} ItemsOfSection(ranked: seq<Listed>, stable: bool)
    ensures |Items(ranked, stable)| == |Section(ranked, stable)|
    ensures forall i | 0 <= i < |Section(ranked, stable)| ::
      Items(ranked, stable)[i] == Item(Section(ranked, stable)[i])
  {
    if ranked != [] {
      ItemsOfSection(ranked[..|ranked| - 1], stable);
    }
  }

  lemma {:induction false} SectionCounts(ranked: seq<Listed>, stable: bool, l: Listed)
    ensures multiset(Section(ranked, stable))[l] == if Stable(l.memory.kind) == stable then multiset(ranked)[l] else 0
  {
    if ranked != [] {
      var n := |ranked| - 1;
      SectionCounts(ranked[..n], stable, l);
      assert ranked == ranked[..n] + [ranked[n]];
    }
  }

  lemma {:induction false} SectionMembers(ranked: seq<Listed>, stable: bool)
    ensures forall l | l in Section(ranked, stable) :: l in ranked
  {
    if ranked != [] {
      SectionMembers(ranked[..|ranked| - 1], stable);
    }
  }

  lemma {:induction false} SectionSorted(ranked: seq<Listed>, stable: bool)
    requires Sorted(ranked, Outweighs)
    ensures Sorted(Section(ranked, stable), Outweighs)
  {
    if ranked != [] {
      var n := |ranked| - 1;
      SectionSorted(ranked[..n], stable);
      SectionMembers(ranked[..n], stable);
      hide Outweighs;
      forall l | l in Section(ranked[..n], stable) ensures Outweighs(l, ranked[n]) {
        var k :| 0 <= k < n && ranked[..n][k] == l;
        assert ranked[k] == l;
      }
    }
  }

  lemma {:induction false} SelectCounts(listing: seq<Listed>, key: ProfileKey, l: Listed)
    ensures multiset(Select(listing, key))[l] == if Included(l, key) then multiset(listing)[l] else 0
  {
    if listing != [] {
      SelectCounts(listing[1..], key, l);
      assert listing == [listing[0]] + listing[1..];
    }
  }

  /** The more important first, then the more confident, the later updated, and the smaller id. */
  predicate Before(a: Listed, b: Listed) {
    && a.memory.importance >= b.memory.importance
    && (a.memory.importance == b.memory.importance ==> a.memory.confidence >= b.memory.confidence)
    && (a.memory.importance == b.memory.importance && a.memory.confidence == b.memory.confidence ==>
          a.memory.updatedAt >= b.memory.updatedAt
          && (a.memory.updatedAt == b.memory.updatedAt ==> a.id < b.id))
  }

  lemma SortedBefore(section: seq<Listed>)
    requires Sorted(section, Outweighs)
    ensures forall i, j | 0 <= i < j < |section| :: Before(section[i], section[j])
  {
    forall i, j | 0 <= i < j < |section| ensures Before(section[i], section[j]) {
      assert Outweighs(section[i], section[j]);
    }
  }

  /** A memory's section: durable kinds apart from the others, and only while it is active. */
  predicate Placed(l: Listed, key: ProfileKey, stable: bool) {
    && l.memory.status == Active && BelongsToProjection(l.memory, key)
    && (stable <==> l.memory.kind in {Preference, Fact, Procedure})
  }

  /** The items of each section stand in rank order, one for each time their memory was listed. */
  lemma ProfileInRankOrder(listing: seq<Listed>, key: ProfileKey, sourceRevision: nat, stable: bool)
    returns (section: seq<Listed>)
    requires DistinctListed(listing)
    ensures var p := ProfileOf(listing, key, sourceRevision);
      var items := if stable then p.stable else p.current;
      |items| == |section| && forall i | 0 <= i < |items| ::
        items[i] == ProfileItem(section[i].id, section[i].memory.content, section[i].memory.updatedAt)
    ensures forall i, j | 0 <= i < j < |section| :: Before(section[i], section[j])
    ensures forall l :: multiset(section)[l] == if Placed(l, key, stable) then multiset(listing)[l] else 0
  {
    var selected := Select(listing, key);
    var ranked := Sort(selected, Outweighs);
    section := Section(ranked, stable);
    ItemsOfSection(ranked, stable);
    SelectMembers(listing, key);
    DistinctComparable(selected);
    OutweighsOrders();
    SortSorted(selected, Outweighs);
    SortKeeps(selected, Outweighs);
    SectionSorted(ranked, stable);
    SortedBefore(section);
    hide Outweighs, Before, Sort, Sorted;
    forall l ensures multiset(section)[l] == if Placed(l, key, stable) then multiset(listing)[l] else 0 {
      SectionCounts(ranked, stable, l);
      SelectCounts(listing, key, l);
    }
  }

  lemma ProfileIgnoresListingOrder(a: seq<Listed>, b: seq<Listed>, key: ProfileKey, sourceRevision: nat)
    requires multiset(a) == multiset(b) && DistinctListed(a) && DistinctListed(b)
    ensures ProfileOf(a, key, sourceRevision) == ProfileOf(b, key, sourceRevision)
  {
    forall l ensures multiset(Select(a, key))[l] == multiset(Select(b, key))[l] {
      SelectCounts(a, key, l);
      SelectCounts(b, key, l);
    }
    SelectMembers(a, key);
    SelectMembers(b, key);
    OutweighsOrders();
    DistinctComparable(Select(a, key));
    DistinctComparable(Select(b, key));
    SortIgnoresArrival(Select(a, key), Select(b, key), Outweighs);
  }

  // ---------- no trace of a forgotten memory ----------

  predicate Lists(p: Profile, item: ProfileItem) { item in p.stable || item in p.current }

  /** What every profile built from the current store satisfies. */
  ghost predicate BuiltFrom(db: Database, key: ProfileKey, p: Profile) {
    forall item | Lists(p, item) :: IsActive(db, item.memory) && BelongsToProjection(db.memories[item.memory], key)
  }

  lemma BuiltProfilesAreCurrent(db: Database, listing: seq<Listed>, key: ProfileKey, sourceRevision: nat)
    requires forall l | l in listing :: l.id in db.memories && db.memories[l.id] == l.memory
    ensures BuiltFrom(db, key, ProfileOf(listing, key, sourceRevision))
  {
    ProfileContents(listing, key, sourceRevision);
  }

  ghost predicate ProfilesClean(db: Database) {
    forall k, item | k in db.profiles && Lists(db.profiles[k], item) ::
      && item.memory in db.memories && !db.memories[item.memory].status.Forgotten?
      && BelongsToProjection(db.memories[item.memory], k)
  }

  ghost predicate EmbeddingsClean(db: Database) {
    forall id | id in db.embeddings ::
      id in db.memories && (db.memories[id].status.Active? || db.memories[id].status.Superseded?)
  }

  ghost predicate RefreshesClean(db: Database) {
    forall k | k in db.refreshes :: k.memory in db.memories ==> !db.memories[k.memory].status.Forgotten?
  }

  // ---------- which puts keep the profiles clean ----------

  predicate ListedFrom(db: Database, listing: seq<Listed>) {
    forall l | l in listing :: l.id in db.memories && db.memories[l.id] == l.memory
  }

  /** `p` was built from a listing of the earlier store. */
  ghost predicate BuiltAt(
      earlier: Database, at: Database, key: ProfileKey, p: Profile, listing: seq<Listed>, sourceRevision: nat)
  {
    Evolves(earlier, at) && ListedFrom(earlier, listing) && p == ProfileOf(listing, key, sourceRevision)
  }

  /** `p` was built from a listing of the store as it is or once was. */
  ghost predicate BuiltEarlier(at: Database, key: ProfileKey, p: Profile) {
    exists earlier, listing, sourceRevision :: BuiltAt(earlier, at, key, p, listing, sourceRevision)
  }

  /** Every memory the profile lists still exists and was not forgotten. */
  ghost predicate StillThere(at: Database, p: Profile) {
    forall item | Lists(p, item) :: item.memory in at.memories && !at.memories[item.memory].status.Forgotten?
  }

  /** The guards of storing a profile: a bounded key, no older revision and a valid correlation id. */
  predicate PutAccepted(at: Database, key: ProfileKey, p: Profile, correlation: string) {
    && !Text.Blank(key.key) && |key.key| <= 256 && p.sourceRevision <= Integers.I64_MAX
    && (key in at.profiles ==> at.profiles[key].sourceRevision <= p.sourceRevision)
    && ValidCorrelation(correlation)
  }

  lemma PutEffect(at: Database, key: ProfileKey, p: Profile, correlation: string, now: int)
    ensures var after := PutProfile(at, key, p, correlation, now);
      if PutAccepted(at, key, p, correlation)
      then after == at.(profiles := at.profiles[key := p], events := after.events)
      else after == at
  {
    hide ValidCorrelation, Text.Blank;
  }

  lemma SameProjections(a: Memory, b: Memory, key: ProfileKey)
    requires RowEvolves(a, b)
    ensures BelongsToProjection(a, key) <==> BelongsToProjection(b, key)
  {
  }

  /** A memory listed in a profile built earlier still belongs to its projection, if it still exists. */
  lemma EarlierStillBelongs(at: Database, key: ProfileKey, p: Profile, item: ProfileItem)
    requires BuiltEarlier(at, key, p) && Lists(p, item) && item.memory in at.memories
    ensures BelongsToProjection(at.memories[item.memory], key)
  {
    var earlier, listing, sourceRevision :| BuiltAt(earlier, at, key, p, listing, sourceRevision);
    ProfileContents(listing, key, sourceRevision);
    var l :| l in listing && Item(l) == item && Included(l, key);
    hide ProfileOf;
    SameProjections(earlier.memories[l.id], at.memories[l.id], key);
  }

  /** Storing a profile built now or earlier keeps the stored profiles clean exactly when it is refused or
      every memory it lists still exists and was not forgotten. */
  lemma PutCleanExactly(at: Database, key: ProfileKey, p: Profile, correlation: string, now: int)
    requires ProfilesClean(at) && BuiltEarlier(at, key, p)
    ensures ProfilesClean(PutProfile(at, key, p, correlation, now))
            <==> (PutAccepted(at, key, p, correlation) ==> StillThere(at, p))
  {
    var after := PutProfile(at, key, p, correlation, now);
    PutEffect(at, key, p, correlation, now);
    hide PutProfile, BelongsToProjection, BuiltEarlier;
    if PutAccepted(at, key, p, correlation) {
      hide PutAccepted;
      assert after.profiles[key] == p && after.memories == at.memories;
      if StillThere(at, p) {
        forall item | Lists(p, item) ensures BelongsToProjection(at.memories[item.memory], key) {
          EarlierStillBelongs(at, key, p, item);
        }
      }
      if ProfilesClean(after) {
        forall item | Lists(p, item)
          ensures item.memory in at.memories && !at.memories[item.memory].status.Forgotten?
        {
          assert key in after.profiles && Lists(after.profiles[key], item);
        }
      }
    }
  }

  /** Every profile stored in the run was built from the store as it then was or once had been. */
  ghost predicate BuiltPuts(db: Database, requests: seq<Request>)
    decreases |requests|
  {
    requests == [] ||
    (&& (requests[0].DoPutProfile? ==> BuiltEarlier(db, requests[0].key, requests[0].profile))
     && BuiltPuts(Serve(db, requests[0]), requests[1..]))
  }

  ghost predicate PutSpares(db: Database, r: Request) {
    r.DoPutProfile? && PutAccepted(db, r.key, r.profile, r.correlation) ==> StillThere(db, r.profile)
  }

  /** Every accepted profile of the run lists only memories that still exist and were not forgotten. */
  ghost predicate PutsSpare(db: Database, requests: seq<Request>)
    decreases |requests|
  {
    requests == [] || (PutSpares(db, requests[0]) && PutsSpare(Serve(db, requests[0]), requests[1..]))
  }

  /** Transactions that drop no memory and forget none keep the stored profiles clean. */
  lemma RowsKeptClean(a: Database, b: Database)
    requires ProfilesClean(a)
    requires forall k | k in b.profiles :: k in a.profiles && b.profiles[k] == a.profiles[k]
    requires forall id | id in a.memories && !a.memories[id].status.Forgotten? ::
      && id in b.memories && RowEvolves(a.memories[id], b.memories[id])
      && !b.memories[id].status.Forgotten?
    ensures ProfilesClean(b)
  {
  }

  lemma ForgottenProfilesClean(
      db: Database, id: MemoryId, expected: nat, mode: DeleteMode, correlation: string, now: int)
    requires ProfilesClean(db)
    ensures ProfilesClean(DeleteMemory(db, id, expected, mode, correlation, now).0)
  {
    var after := DeleteMemory(db, id, expected, mode, correlation, now).0;
    if after != db {
      var m := db.memories[id];
      forall k, item | k in after.profiles && Lists(after.profiles[k], item)
        ensures item.memory in after.memories && !after.memories[item.memory].status.Forgotten?
        ensures BelongsToProjection(after.memories[item.memory], k)
      {
        assert k in SurvivingProfiles(db, m) && Lists(db.profiles[k], item);
        InvalidationExact(m, k);
        assert item.memory != id;
      }
    }
  }

  /** No stored profile, embedding or pending refresh concerns a forgotten memory. */
  ghost predicate Clean(db: Database) { ProfilesClean(db) && EmbeddingsClean(db) && RefreshesClean(db) }

  lemma UpdateRows(db: Database, plan: Plan, now: int)
    requires WellKeyed(db) && plan.Update? && Mutate(db, plan, now).Ok?
    ensures var m := Mutate(db, plan, now).value;
      && m.db.profiles == db.profiles && m.db.embeddings == db.embeddings && m.db.refreshes == db.refreshes
      && (m.memory.Some? ==> m.memory.value in m.db.memories && !m.db.memories[m.memory.value].status.Forgotten?)
      && (forall id | id in db.memories ::
            && id in m.db.memories
            && (m.db.memories[id].status == db.memories[id].status
                || (db.memories[id].status.Active? && m.db.memories[id].status.Superseded?)))
      && (forall id | id in m.db.memories && id !in db.memories ::
            id == db.nextId && !m.db.memories[id].status.Forgotten?)
  {
    hide EffectiveCategories, NoRepeats, DocumentOf, LinksTo, ToSet;
  }

  lemma MutateRows(db: Database, plan: Plan, now: int)
    requires WellKeyed(db) && Reconciled(plan) && Mutate(db, plan, now).Ok?
    ensures var m := Mutate(db, plan, now).value;
      && m.db.profiles == db.profiles && m.db.embeddings == db.embeddings && m.db.refreshes == db.refreshes
      && (m.memory.Some? ==> m.memory.value in m.db.memories && !m.db.memories[m.memory.value].status.Forgotten?)
      && (forall id | id in db.memories ::
            && id in m.db.memories
            && (m.db.memories[id].status == db.memories[id].status
                || (db.memories[id].status.Active? && m.db.memories[id].status.Superseded?)))
      && (forall id | id in m.db.memories && id !in db.memories ::
            id == db.nextId && !m.db.memories[id].status.Forgotten?)
  {
    if plan.Update? {
      UpdateRows(db, plan, now);
    } else {
      hide EffectiveCategories, NoRepeats, DocumentOf, LinksTo, ToSet;
    }
  }

  lemma CloseMutationTables(m: Mutation, key: PlanKey, now: int)
    requires CloseMutation(m, key, now).Ok?
    ensures var after := CloseMutation(m, key, now).value;
      && after.profiles == m.db.profiles && after.embeddings == m.db.embeddings
      && forall k | k in after.refreshes :: k in m.db.refreshes || m.memory == Some(k.memory)
  {
  }

  lemma PlanFrame(db: Database, plan: Plan, now: int)
    requires WellKeyed(db) && EmbeddingsClean(db) && RefreshesClean(db) && Reconciled(plan)
    ensures var after := ApplyPlan(db, plan, now).0;
      && after.profiles == db.profiles && EmbeddingsClean(after) && RefreshesClean(after)
      && forall id | id in db.memories && !db.memories[id].status.Forgotten? ::
           id in after.memories && !after.memories[id].status.Forgotten?
  {
    hide PlanError, Mutate, CloseMutation;
    if PlanError(db, plan).None? && plan.key !in db.audit && Mutate(db, plan, now).Ok? {
      var m := Mutate(db, plan, now).value;
      MutateRows(db, plan, now);
      if CloseMutation(m, plan.key, now).Ok? {
        CloseMutationRows(m, plan.key, now);
        CloseMutationTables(m, plan.key, now);
      }
    }
  }

  lemma PlanClean(db: Database, plan: Plan, now: int)
    requires WellKeyed(db) && Clean(db) && Reconciled(plan)
    ensures Clean(ApplyPlan(db, plan, now).0)
  {
    PlanFrame(db, plan, now);
    ApplyPlanEvolves(db, plan, now);
    hide ApplyPlan;
    RowsKeptClean(db, ApplyPlan(db, plan, now).0);
  }

  lemma CreateClean(db: Database, input: ManualInput, correlation: string)
    requires WellKeyed(db) && Clean(db)
    ensures Clean(CreateManual(db, input, correlation).0)
  {
    hide ValidManual, ValidCorrelation, BelongsToProjection;
    var after := CreateManual(db, input, correlation).0;
    if after != db {
      assert after.memories == db.memories[db.nextId := ManualMemory(input, 1)] && after.profiles == db.profiles;
      RowsKeptClean(db, after);
    }
  }

  lemma EditTables(db: Database, id: MemoryId, expected: nat, input: ManualInput, correlation: string)
    requires WellKeyed(db) && EditManual(db, id, expected, input, correlation).1.Ok?
    ensures var after := EditManual(db, id, expected, input, correlation).0;
      && id in db.memories && db.nextId != id
      && after.memories == db.memories[db.nextId := ManualMemory(input, expected + 1)]
           [id := db.memories[id].(status := Superseded, revision := expected + 1, updatedAt := input.now)]
      && after.profiles == db.profiles && after.embeddings == db.embeddings
      && forall k | k in after.refreshes :: k in db.refreshes || k.memory == db.nextId
  {
    hide ValidManual, ValidCorrelation, EffectiveCategories, NoRepeats;
  }

  /** Rewriting rows without forgetting any, and asking for a refresh of `id` only, keeps the rest clean. */
  lemma RestClean(a: Database, b: Database, id: MemoryId)
    requires EmbeddingsClean(a) && RefreshesClean(a) && b.embeddings == a.embeddings
    requires forall x | x in a.memories :: x in b.memories && (b.memories[x].status == a.memories[x].status
                                                                || b.memories[x].status.Superseded?)
    requires forall x | x in b.memories && x !in a.memories :: x == id
    requires id in b.memories && !b.memories[id].status.Forgotten?
    requires forall k | k in b.refreshes :: k in a.refreshes || k.memory == id
    ensures EmbeddingsClean(b) && RefreshesClean(b)
  {
  }

  lemma EditedProfilesClean(db: Database, id: MemoryId, expected: nat, input: ManualInput, correlation: string)
    requires WellKeyed(db) && ProfilesClean(db) && EditManual(db, id, expected, input, correlation).1.Ok?
    ensures ProfilesClean(EditManual(db, id, expected, input, correlation).0)
  {
    EditTables(db, id, expected, input, correlation);
    EditEvolves(db, id, expected, input, correlation);
    hide EditManual, BelongsToProjection, ManualMemory, RowEvolves;
    RowsKeptClean(db, EditManual(db, id, expected, input, correlation).0);
  }

  lemma EditClean(db: Database, id: MemoryId, expected: nat, input: ManualInput, correlation: string)
    requires WellKeyed(db) && Clean(db)
    ensures Clean(EditManual(db, id, expected, input, correlation).0)
  {
    var after := EditManual(db, id, expected, input, correlation).0;
    if EditManual(db, id, expected, input, correlation).1.Ok? {
      EditedProfilesClean(db, id, expected, input, correlation);
      EditTables(db, id, expected, input, correlation);
      hide EditManual, ProfilesClean;
      RestClean(db, after, db.nextId);
    } else {
      assert after == db;
    }
  }

  lemma ConfirmTables(db: Database, id: MemoryId, expected: nat, correlation: string, now: int)
    requires ConfirmPending(db, id, expected, correlation, now).1.Ok?
    ensures var after := ConfirmPending(db, id, expected, correlation, now).0;
      && id in db.memories && db.memories[id].status.PendingReview?
      && after.memories == db.memories[id := db.memories[id].(status := Active, mode := Manual, confidence := 1.0,
                                                              revision := expected + 1, updatedAt := now)]
      && after.profiles == db.profiles && after.embeddings == db.embeddings
      && forall k | k in after.refreshes :: k in db.refreshes || k.memory == id
  {
    hide ValidCorrelation, DocumentOf;
  }

  lemma ConfirmedProfilesClean(db: Database, id: MemoryId, expected: nat, correlation: string, now: int)
    requires WellKeyed(db) && ProfilesClean(db) && ConfirmPending(db, id, expected, correlation, now).1.Ok?
    ensures ProfilesClean(ConfirmPending(db, id, expected, correlation, now).0)
  {
    ConfirmTables(db, id, expected, correlation, now);
    ConfirmEvolves(db, id, expected, correlation, now);
    hide ConfirmPending, BelongsToProjection, RowEvolves;
    RowsKeptClean(db, ConfirmPending(db, id, expected, correlation, now).0);
  }

  lemma ConfirmClean(db: Database, id: MemoryId, expected: nat, correlation: string, now: int)
    requires WellKeyed(db) && Clean(db)
    ensures Clean(ConfirmPending(db, id, expected, correlation, now).0)
  {
    var after := ConfirmPending(db, id, expected, correlation, now).0;
    if ConfirmPending(db, id, expected, correlation, now).1.Ok? {
      ConfirmedProfilesClean(db, id, expected, correlation, now);
      ConfirmTables(db, id, expected, correlation, now);
      hide ConfirmPending, ProfilesClean;
    } else {
      assert after == db;
    }
  }

  lemma RejectClean(db: Database, id: MemoryId, expected: nat, correlation: string, now: int)
    requires WellKeyed(db) && Clean(db)
    ensures Clean(RejectPending(db, id, expected, correlation, now).0)
  {
    hide ValidCorrelation, BelongsToProjection;
    var after := RejectPending(db, id, expected, correlation, now).0;
    if after != db {
      assert after.memories == db.memories[id := after.memories[id]] && after.memories[id].status.Rejected?;
      assert after.profiles == db.profiles && after.refreshes == db.refreshes;
      assert after.embeddings == db.embeddings - {id};
      RejectEvolves(db, id, expected, correlation, now);
      hide RejectPending;
      RowsKeptClean(db, after);
    }
  }

  lemma DeleteClean(db: Database, id: MemoryId, expected: nat, mode: DeleteMode, correlation: string, now: int)
    requires Clean(db)
    ensures Clean(DeleteMemory(db, id, expected, mode, correlation, now).0)
  {
    ForgottenProfilesClean(db, id, expected, mode, correlation, now);
    hide ValidCorrelation, ProfilesClean, InvalidatesProfile;
    var after := DeleteMemory(db, id, expected, mode, correlation, now).0;
    if after != db && mode.Forget? {
      assert after.memories == db.memories[id := after.memories[id]];
      assert after.embeddings == db.embeddings - {id};
      assert forall k | k in after.refreshes :: k in db.refreshes && k.memory != id by {
        forall k | k in after.refreshes ensures k.memory != id {
          assert k.kind == EmbeddingRefresh || k.kind == ProfileRefresh;
        }
      }
    }
  }

  lemma PutProfileClean(db: Database, key: ProfileKey, profile: Profile, correlation: string, now: int)
    requires Clean(db) && BuiltEarlier(db, key, profile)
    requires PutAccepted(db, key, profile, correlation) ==> StillThere(db, profile)
    ensures Clean(PutProfile(db, key, profile, correlation, now))
  {
    hide ProfilesClean, BuiltEarlier, PutAccepted, StillThere;
    PutCleanExactly(db, key, profile, correlation, now);
    PutEffect(db, key, profile, correlation, now);
    hide PutProfile;
  }

  /** Transactions that keep the memories and profiles, refresh nothing new and embed only active memories. */
  lemma UntouchedClean(a: Database, b: Database)
    requires Clean(a) && b.memories == a.memories && b.profiles == a.profiles
    requires forall k | k in b.refreshes :: k in a.refreshes
    requires forall id | id in b.embeddings :: id in a.embeddings || IsActive(a, id)
    ensures Clean(b)
  {
    hide BelongsToProjection, Lists;
  }

  lemma RetainClean(db: Database, now: int)
    requires Clean(db)
    ensures Clean(Retain(db, now))
  {
    hide KeepRecent, Clean, Purged;
    UntouchedClean(db, Retain(db, now));
  }

  lemma EmbedClean(db: Database, id: MemoryId)
    requires Clean(db)
    ensures Clean(UpsertEmbedding(db, id))
  {
    hide Clean;
    UntouchedClean(db, UpsertEmbedding(db, id));
  }

  lemma SourceClean(db: Database, source: string, row: Source)
    requires Clean(db)
    ensures Clean(AddSource(db, source, row))
  {
    hide Clean;
    UntouchedClean(db, AddSource(db, source, row));
  }

  lemma CiteClean(db: Database, source: string)
    requires Clean(db)
    ensures Clean(CiteSource(db, source))
  {
    hide Clean;
    UntouchedClean(db, CiteSource(db, source));
  }

  lemma SegmentClean(db: Database, segment: string, sources: seq<string>)
    requires Clean(db)
    ensures Clean(AddSegment(db, segment, sources))
  {
    hide NoRepeats, ToSet, Clean;
    UntouchedClean(db, AddSegment(db, segment, sources));
  }

  lemma ServeClean(db: Database, r: Request)
    requires WellKeyed(db) && Clean(db)
    requires r.DoPlan? ==> Reconciled(r.plan)
    requires r.DoPutProfile? ==> BuiltEarlier(db, r.key, r.profile)
    requires PutSpares(db, r)
    ensures Clean(Serve(db, r))
  {
    hide BuiltEarlier, PutAccepted, StillThere, PutProfile, ApplyPlan, CreateManual, EditManual, ConfirmPending;
    hide RejectPending, DeleteMemory, Retain, UpsertEmbedding, AddSource, CiteSource, AddSegment, Clean;
    match r
    case DoPlan(plan, now) => PlanClean(db, plan, now);
    case DoCreate(input, correlation) => CreateClean(db, input, correlation);
    case DoEdit(id, expected, input, correlation) => EditClean(db, id, expected, input, correlation);
    case DoConfirm(id, expected, correlation, now) => ConfirmClean(db, id, expected, correlation, now);
    case DoReject(id, expected, correlation, now) => RejectClean(db, id, expected, correlation, now);
    case DoDelete(id, expected, mode, correlation, now) => DeleteClean(db, id, expected, mode, correlation, now);
    case DoPutProfile(key, profile, correlation, now) => PutProfileClean(db, key, profile, correlation, now);
    case DoRetain(now) => RetainClean(db, now);
    case DoEmbed(id) => EmbedClean(db, id);
    case DoAddSource(source, row) => SourceClean(db, source, row);
    case DoCite(source) => CiteClean(db, source);
    case DoAddSegment(segment, sources) => SegmentClean(db, segment, sources);
  }

  lemma InvariantKeyed(db: Database)
    requires Invariant(db)
    ensures WellKeyed(db)
  {
  }

  /** Every request keeps the stored profiles, the embeddings and, for memories that still exist, the projection
      jobs free of forgotten memories. */
  lemma {:induction false} RunClean(db: Database, requests: seq<Request>)
    requires Invariant(db) && Clean(db) && BuiltPuts(db, requests) && PutsSpare(db, requests)
    requires forall r | r in requests && r.DoPlan? :: Reconciled(r.plan)
    ensures Clean(Run(db, requests))
    decreases |requests|
  {
    if requests != [] {
      hide Invariant, Clean, Serve, BuiltEarlier, PutSpares;
      assert WellKeyed(db) by { InvariantKeyed(db); }
      ServeClean(db, requests[0]);
      ServeKeeps(db, requests[0]);
      RunClean(Serve(db, requests[0]), requests[1..]);
    }
  }

  /** The stored profiles are clean after every request of the run. */
  ghost predicate AlwaysClean(db: Database, requests: seq<Request>)
    decreases |requests|
  {
    ProfilesClean(db) && (requests == [] || AlwaysClean(Serve(db, requests[0]), requests[1..]))
  }

  lemma {:induction false} AlwaysCleanAtOnce(db: Database, requests: seq<Request>)
    requires AlwaysClean(db, requests)
    ensures ProfilesClean(db)
  {
  }

  /** Main result: over a run whose profiles were each built from the store as it was or once had been, the
      stored profiles stay clean throughout exactly when every accepted one lists only memories that still
      exist and were not forgotten at that time. */
  lemma {:induction false} AlwaysCleanExactly(db: Database, requests: seq<Request>)
    requires Invariant(db) && Clean(db) && BuiltPuts(db, requests)
    requires forall r | r in requests && r.DoPlan? :: Reconciled(r.plan)
    ensures AlwaysClean(db, requests) <==> PutsSpare(db, requests)
    decreases |requests|
  {
    assert ProfilesClean(db);
    if requests != [] {
      var r := requests[0];
      var next := Serve(db, r);
      if r.DoPutProfile? {
        PutCleanExactly(db, r.key, r.profile, r.correlation, r.now);
        assert ProfilesClean(next) <==> PutSpares(db, r);
      } else {
        assert PutSpares(db, r);
      }
      hide ProfilesClean, Serve, BuiltEarlier, PutSpares;
      if PutSpares(db, r) {
        assert WellKeyed(db) by { InvariantKeyed(db); }
        hide Invariant;
        ServeClean(db, r);
        ServeKeeps(db, r);
        AlwaysCleanExactly(next, requests[1..]);
      } else if AlwaysClean(next, requests[1..]) {
        AlwaysCleanAtOnce(next, requests[1..]);
      }
    }
  }

  /** Main result: after any run whose accepted profiles listed only memories that still existed and were not
      forgotten when stored, a forgotten memory appears in no search document, no embedding, no pending
      refresh and no profile, and every profile lists only memories of its own projection. */
  lemma ForgottenLeavesNoTrace(db: Database, requests: seq<Request>, id: MemoryId)
    requires Invariant(db) && Clean(db) && BuiltPuts(db, requests) && PutsSpare(db, requests)
    requires forall r | r in requests && r.DoPlan? :: Reconciled(r.plan)
    requires var end := Run(db, requests); id in end.memories && end.memories[id].status.Forgotten?
    ensures var end := Run(db, requests);
      && id !in end.documents && id !in end.embeddings
      && (forall k | k in end.refreshes :: k.memory != id)
      && (forall k, item | k in end.profiles && Lists(end.profiles[k], item) ::
            item.memory != id && item.memory in end.memories && BelongsToProjection(end.memories[item.memory], k))
  {
    RunKeeps(db, requests);
    RunClean(db, requests);
    hide BuiltPuts, PutsSpare, BelongsToProjection, Evolves, Lineage, Provenance;
  }

  /** The same for a permanently deleted memory, but for its projection jobs, which stay. */
  lemma DeletedLeavesNoTrace(db: Database, requests: seq<Request>, id: MemoryId)
    requires Invariant(db) && Clean(db) && BuiltPuts(db, requests) && PutsSpare(db, requests)
    requires forall r | r in requests && r.DoPlan? :: Reconciled(r.plan)
    requires id !in Run(db, requests).memories
    ensures var end := Run(db, requests);
      && id !in end.documents && id !in end.embeddings
      && (forall k, item | k in end.profiles && Lists(end.profiles[k], item) ::
            item.memory != id && item.memory in end.memories && BelongsToProjection(end.memories[item.memory], k))
  {
    RunKeeps(db, requests);
    RunClean(db, requests);
    hide BuiltPuts, PutsSpare, BelongsToProjection, Evolves, Lineage, Provenance;
  }

  /** Either way of deleting keeps exactly the stored profiles the memory cannot appear in. */
  lemma DeleteKeepsOtherProfiles(
      db: Database, id: MemoryId, expected: nat, mode: DeleteMode, correlation: string, now: int)
    requires DeleteMemory(db, id, expected, mode, correlation, now).1.Ok?
    ensures id in db.memories
    ensures DeleteMemory(db, id, expected, mode, correlation, now).0.profiles
            == map k | k in db.profiles && !BelongsToProjection(db.memories[id], k) :: db.profiles[k]
  {
    hide ValidCorrelation, ExclusiveSources, PruneSegments;
    var m := db.memories[id];
    forall k ensures InvalidatesProfile(m, k) <==> BelongsToProjection(m, k) {
      InvalidationExact(m, k);
    }
    hide InvalidatesProfile, BelongsToProjection;
  }

  lemma ListedStillThere(at: Database, listing: seq<Listed>, key: ProfileKey, sourceRevision: nat)
    ensures StillThere(at, ProfileOf(listing, key, sourceRevision))
            <==> forall l | l in listing && Included(l, key) ::
                   l.id in at.memories && !at.memories[l.id].status.Forgotten?
  {
    ProfileContents(listing, key, sourceRevision);
    var p := ProfileOf(listing, key, sourceRevision);
    hide ProfileOf, BelongsToProjection;
    forall l | l in listing && Included(l, key) ensures Lists(p, Item(l)) {}
    forall item | Lists(p, item) ensures exists l | l in listing :: Item(l) == item && Included(l, key) {}
  }

  /** For a listing taken at `db` and stored after any run: the stored profiles stay clean exactly when the
      profile is refused or every listed memory of its projection still exists and was not forgotten. */
  lemma StaleProfileExactly(
      db: Database, listing: seq<Listed>, between: seq<Request>, key: ProfileKey, sourceRevision: nat,
      correlation: string, now: int)
    requires Invariant(db) && ListedFrom(db, listing) && ProfilesClean(Run(db, between))
    ensures var at := Run(db, between);
      var p := ProfileOf(listing, key, sourceRevision);
      ProfilesClean(PutProfile(at, key, p, correlation, now))
      <==> (PutAccepted(at, key, p, correlation) ==>
              forall l | l in listing && Included(l, key) ::
                l.id in at.memories && !at.memories[l.id].status.Forgotten?)
  {
    var at, p := Run(db, between), ProfileOf(listing, key, sourceRevision);
    RunKeeps(db, between);
    assert BuiltAt(db, at, key, p, listing, sourceRevision);
    ListedStillThere(at, listing, key, sourceRevision);
    hide Invariant, Evolves, ProfilesClean, PutAccepted, StillThere, ProfileOf;
    PutCleanExactly(at, key, p, correlation, now);
  }

  /** The failing case: a profile built before a memory is forgotten can still be stored afterwards, because
      forgetting also removed the revision that would have refused it. */
  lemma StaleProfileResurrects(
      db: Database, listing: seq<Listed>, key: ProfileKey, sourceRevision: nat, l: Listed, correlation: string,
      now: int)
    requires l in listing && Included(l, key) && l.id in db.memories && db.memories[l.id] == l.memory
    requires ValidCorrelation(correlation) && !Text.Blank(key.key) && |key.key| <= 256
    requires sourceRevision <= Integers.I64_MAX
    ensures var forgotten := DeleteMemory(db, l.id, l.memory.revision, Forget, correlation, now);
      var stale := ProfileOf(listing, key, sourceRevision);
      var stored := PutProfile(forgotten.0, key, stale, correlation, now);
      && forgotten.1.Ok? && key !in forgotten.0.profiles
      && stored.memories[l.id].status.Forgotten? && stored.profiles[key] == stale && Lists(stale, Item(l))
  {
    InvalidationExact(l.memory, key);
    ProfileContents(listing, key, sourceRevision);
    var p := ProfileOf(listing, key, sourceRevision);
    assert Item(l) in p.stable || Item(l) in p.current;
    hide ValidCorrelation, ProfileOf;
  }
}
