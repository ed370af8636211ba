/** Assembling the memory context: the request's searches run over the stored rows, their results are merged,
    ranked and rendered, and the ids of the rendered memories are reported. */
module ContextAssembly {
  import opened Wrappers
  import opened MemoryModel
  import opened Ranking
  import opened Sorting
  import IncludedIds
  import RankingLaws
  import Rendering
  import StoreSpec
  import Text

  /** A stored row as a search returns it. */
  datatype Found = Found(id: string, memory: Memory, createdAt: int)

  /** One search: its results and the signals it contributes. */
  datatype Batch = Batch(found: seq<Found>, signals: Signals)

  datatype AssemblyError = InvalidRequest | BudgetExceeded | InvalidCorrelation

  // ---------- one search ----------

  datatype Filter = Filter(
    scope: Option<ScopeType>, key: Option<string>, app: Option<string>, entity: Option<string>,
    query: Option<string>, limit: nat)

  const MAX_SEARCH_QUERY: nat := 500

  predicate ValidFilter(f: Filter) {
    1 <= f.limit <= 200 && (f.query.Some? ==> !Text.Blank(f.query.value) && |f.query.value| <= MAX_SEARCH_QUERY)
  }

  /** The table of memories, with the ids the full-text index returns for the request's query. */
  datatype Rows = Rows(table: map<string, Found>, textMatches: set<string>) {
    ghost predicate Keyed() { forall id | id in table :: table[id].id == id }
  }

  predicate Shown(m: Memory, history: bool) {
    if history then !(m.status.Rejected? || m.status.Forgotten? || m.status.PendingReview?) else m.status.Active?
  }

  predicate Matches(rows: Rows, f: Found, filter: Filter, history: bool) {
    && Shown(f.memory, history)
    && (filter.query.Some? ==> f.id in rows.textMatches)
    && (filter.app.Some? ==> filter.app.value in f.memory.appliesTo)
    && (filter.scope.Some? ==> f.memory.scope.kind == filter.scope.value)
    && (filter.key.Some? ==> f.memory.scope.key == filter.key.value)
    && (filter.entity.Some? ==> exists e | e in f.memory.entities :: e.entity == filter.entity.value)
  }

  predicate IsMatch(rows: Rows, f: Found, filter: Filter, history: bool) {
    f.id in rows.table && rows.table[f.id] == f && Matches(rows, f, filter, history)
  }

  predicate CutOff(found: seq<Found>, filter: Filter, f: Found) {
    |found| == filter.limit && forall g | g in found :: g.memory.updatedAt >= f.memory.updatedAt
  }

  /** The newest matching rows, at most `limit` of them, each once; what is left out is no newer. */
  ghost predicate IsResult(found: seq<Found>, rows: Rows, filter: Filter, history: bool) {
    && |found| <= filter.limit
    && (forall i, j | 0 <= i < j < |found| ::
          found[i].id != found[j].id && found[i].memory.updatedAt >= found[j].memory.updatedAt)
    && (forall f | f in found :: IsMatch(rows, f, filter, history))
    && (forall f | IsMatch(rows, f, filter, history) && f !in found :: CutOff(found, filter, f))
  }

  /** SQL leaves the order of equally old rows open; the model settles it by id. */
  predicate Newer(a: Found, b: Found) {
    a.memory.updatedAt > b.memory.updatedAt || (a.memory.updatedAt == b.memory.updatedAt && LexLess(a.id, b.id))
  }

  lemma NewerTransitive()
    ensures Transitive(Newer)
  {
    forall a, b, c | Newer(a, b) && Newer(b, c) ensures Newer(a, c) {
      if LexLess(a.id, b.id) && LexLess(b.id, c.id) { LexTransitive(a.id, b.id, c.id); }
    }
  }

  method Matching(rows: Rows, filter: Filter, history: bool) returns (all: seq<Found>)
    requires rows.Keyed()
    ensures forall i, j | 0 <= i < j < |all| :: all[i].id != all[j].id
    ensures forall f :: f in all <==> IsMatch(rows, f, filter, history)
  {
    all := [];
    var rest := rows.table.Keys;
    hide Matches;
    while rest != {}
      invariant rest <= rows.table.Keys
      invariant forall i, j | 0 <= i < j < |all| :: all[i].id != all[j].id
      invariant forall f :: f in all <==> IsMatch(rows, f, filter, history) && f.id !in rest
    {
      var id :| id in rest;
      rest := rest - {id};
      if Matches(rows, rows.table[id], filter, history) {
        all := all + [rows.table[id]];
      }
    }
  }

  lemma FirstAreResult(rows: Rows, filter: Filter, history: bool, sorted: seq<Found>, found: seq<Found>)
    requires Sorted(sorted, Newer) && forall f :: f in sorted <==> IsMatch(rows, f, filter, history)
    requires found == if |sorted| <= filter.limit then sorted else sorted[..filter.limit]
    ensures IsResult(found, rows, filter, history)
  {
    hide Matches;
    forall i, j | 0 <= i < j < |found| ensures found[i].id != found[j].id {
      assert Newer(sorted[i], sorted[j]) && sorted[i] in sorted && sorted[j] in sorted;
      if LexLess(found[i].id, found[j].id) { LexAsymmetric(found[i].id, found[j].id); }
    }
    hide IsMatch;
    forall f | IsMatch(rows, f, filter, history) && f !in found ensures CutOff(found, filter, f) {
      var k :| 0 <= k < |sorted| && sorted[k] == f;
      assert k >= |found|;
      forall g | g in found ensures g.memory.updatedAt >= f.memory.updatedAt {
        var i :| 0 <= i < |found| && found[i] == g;
        assert Newer(sorted[i], sorted[k]);
      }
    }
  }

  method Search(rows: Rows, filter: Filter, history: bool) returns (r: Result<seq<Found>, AssemblyError>)
    requires rows.Keyed()
    ensures r.Err? <==> !ValidFilter(filter)
    ensures r.Err? <==>
      || filter.limit < 1 || filter.limit > 200
      || (filter.query.Some? && (Text.Blank(filter.query.value) || |filter.query.value| > 500))
    ensures r.Err? ==> r.error == InvalidRequest
    ensures r.Ok? ==> IsResult(r.value, rows, filter, history)
  {
    if !ValidFilter(filter) { return Err(InvalidRequest); }
    var all := Matching(rows, filter, history);
    hide IsMatch;
    forall i, j | 0 <= i < j < |all| ensures Newer(all[i], all[j]) || Newer(all[j], all[i]) {
      LexTotal(all[i].id, all[j].id);
    }
    NewerTransitive();
    SortSorted(all, Newer);
    SortKeeps(all, Newer);
    var sorted := Sort(all, Newer);
    SameMembers(sorted, all);
    var found := if |sorted| <= filter.limit then sorted else sorted[..filter.limit];
    FirstAreResult(rows, filter, history, sorted, found);
    return Ok(found);
  }

  // ---------- the searches of a request ----------

  datatype Query = Query(filter: Filter, signals: Signals)

  const SEARCH_LIMIT: nat := 200
  const ENTITY_LIMIT: nat := 100
  const MAX_MENTIONS: nat := 20

  const UNFILTERED := Filter(None, None, None, None, None, SEARCH_LIMIT)
  const PLAIN_SIGNALS := Signals(0.0, 0.0, 0.0, false)

  function ByScope(kind: ScopeType, key: string): Query {
    Query(UNFILTERED.(scope := Some(kind), key := Some(key)), PLAIN_SIGNALS)
  }

  function ByApp(app: string): Query { Query(UNFILTERED.(app := Some(app)), PLAIN_SIGNALS) }

  function ByEntity(entity: string): Query {
    Query(UNFILTERED.(entity := Some(entity), limit := ENTITY_LIMIT), PLAIN_SIGNALS.(alias := true))
  }

  const GLOBALLY := Query(UNFILTERED.(scope := Some(GlobalScope)), PLAIN_SIGNALS)

  function ByText(query: string): Query { Query(UNFILTERED.(query := Some(query)), PLAIN_SIGNALS.(fts := 1.0)) }

  function EntityQueries(mentioned: seq<string>): seq<Query> {
    seq(|mentioned|, i requires 0 <= i < |mentioned| => ByEntity(mentioned[i]))
  }

  function Queries(r: ContextRequest): seq<Query> {
    (if r.activeProject.Some? then [ByScope(ProjectScope, r.activeProject.value)] else [])
    + (if r.currentApp.Some? then [ByApp(r.currentApp.value), ByScope(AppScope, r.currentApp.value)] else [])
    + EntityQueries(if |r.mentioned| <= MAX_MENTIONS then r.mentioned else r.mentioned[..MAX_MENTIONS])
    + [GLOBALLY]
    + (if Text.Blank(r.query) then [] else [ByText(r.query)])
  }

  predicate StatusShown(s: Status, history: bool) { s.Active? || (history && (s.Superseded? || s.Expired?)) }

  /** What each search of a request looks for, and how many rows it returns at most. */
  lemma SearchesMean(rows: Rows, f: Found, kind: ScopeType, key: string, history: bool)
    ensures Matches(rows, f, ByScope(kind, key).filter, history)
            <==> StatusShown(f.memory.status, history) && f.memory.scope == Scope(kind, key)
    ensures Matches(rows, f, ByApp(key).filter, history)
            <==> StatusShown(f.memory.status, history) && key in f.memory.appliesTo
    ensures Matches(rows, f, ByEntity(key).filter, history)
            <==> StatusShown(f.memory.status, history) && exists e | e in f.memory.entities :: e.entity == key
    ensures Matches(rows, f, GLOBALLY.filter, history)
            <==> StatusShown(f.memory.status, history) && f.memory.scope.kind.GlobalScope?
    ensures Matches(rows, f, ByText(key).filter, history)
            <==> StatusShown(f.memory.status, history) && f.id in rows.textMatches
    ensures ByText(key).filter.query == Some(key)
    ensures ByScope(kind, key).filter.limit == ByApp(key).filter.limit == GLOBALLY.filter.limit == 200
    ensures ByText(key).filter.limit == 200 && ByEntity(key).filter.limit == 100
  {
  }

  lemma QuerySignals(r: ContextRequest)
    ensures forall q | q in Queries(r) ::
      q.signals == Signals(0.0, if q.filter.query.Some? then 1.0 else 0.0, 0.0, q.filter.entity.Some?)
  {
  }

  /** Which searches a request makes: for its project, its app, each mentioned entity, global memories and its
      query. Only the last tells relevance, and only an entity's an alias match. */
  lemma QueriesExactly(r: ContextRequest)
    requires |r.mentioned| <= 20
    ensures forall q :: q in Queries(r) <==>
      || (exists p :: r.activeProject == Some(p) && q == ByScope(ProjectScope, p))
      || (exists a :: r.currentApp == Some(a) && (q == ByApp(a) || q == ByScope(AppScope, a)))
      || (exists e | e in r.mentioned :: q == ByEntity(e))
      || q == GLOBALLY
      || (q == ByText(r.query) && exists c | c in r.query :: !Text.IsWhitespace(c))
    ensures forall q | q in Queries(r) ::
      q.signals == Signals(0.0, if q.filter.query.Some? then 1.0 else 0.0, 0.0, q.filter.entity.Some?)
  {
    var entities := EntityQueries(r.mentioned);
    forall q ensures q in entities <==> exists e | e in r.mentioned :: q == ByEntity(e) {
      if q in entities {
        var k :| 0 <= k < |entities| && entities[k] == q;
        assert r.mentioned[k] in r.mentioned;
      }
      if e :| e in r.mentioned && q == ByEntity(e) {
        var k :| 0 <= k < |r.mentioned| && r.mentioned[k] == e;
        assert entities[k] == q;
      }
    }
    hide EntityQueries, ByScope, ByApp, ByEntity, ByText;
    QuerySignals(r);
  }

  /** The batches hold the results of the request's searches, each with the signals of its search. */
  ghost predicate Searched(batches: seq<Batch>, rows: Rows, queries: seq<Query>, history: bool) {
    && |batches| == |queries|
    && forall i | 0 <= i < |queries| ::
         IsResult(batches[i].found, rows, queries[i].filter, history) && batches[i].signals == queries[i].signals
  }

  lemma NothingSearched(rows: Rows, history: bool)
    ensures Searched([], rows, [], history)
  {
  }

  lemma SearchedMore(batches: seq<Batch>, rows: Rows, queries: seq<Query>, history: bool, found: seq<Found>, q: Query)
    requires Searched(batches, rows, queries, history) && IsResult(found, rows, q.filter, history)
    ensures Searched(batches + [Batch(found, q.signals)], rows, queries + [q], history)
  {
    hide IsResult;
  }

  predicate SearchableQuery(r: ContextRequest) { Text.Blank(r.query) || |r.query| <= MAX_SEARCH_QUERY }

  /** Only the text of the query can make a search of the request fail. */
  lemma QueriesValid(r: ContextRequest)
    ensures SearchableQuery(r) <==> forall q | q in Queries(r) :: ValidFilter(q.filter)
  {
    if !Text.Blank(r.query) {
      assert ByText(r.query) in Queries(r);
    }
  }

  method RunSearches(rows: Rows, r: ContextRequest) returns (result: Result<seq<Batch>, AssemblyError>)
    requires rows.Keyed()
    ensures result.Ok? <==> SearchableQuery(r)
    ensures result.Err? ==> result.error == InvalidRequest
    ensures result.Ok? ==> Searched(result.value, rows, Queries(r), r.includeHistory)
  {
    QueriesValid(r);
    hide SearchableQuery, ValidFilter, IsResult, Searched, Queries;
    var queries, batches := Queries(r), [];
    NothingSearched(rows, r.includeHistory);
    for i := 0 to |queries|
      invariant Searched(batches, rows, queries[..i], r.includeHistory)
      invariant forall q | q in queries[..i] :: ValidFilter(q.filter)
    {
      var found := Search(rows, queries[i].filter, r.includeHistory);
      if found.Err? {
        assert queries[i] in queries;
        return Err(found.error);
      }
      assert queries[..i + 1] == queries[..i] + [queries[i]];
      SearchedMore(batches, rows, queries[..i], r.includeHistory, found.value, queries[i]);
      batches := batches + [Batch(found.value, queries[i].signals)];
    }
    assert queries[..|queries|] == queries;
    return Ok(batches);
  }

  // ---------- merging ----------

  function Later(a: real, b: real): real { if a < b then b else a }

  function Fold(existing: Retrieved, s: Signals): Retrieved {
    var before := existing.signals;
    existing.(signals := before.(fts := Later(before.fts, s.fts), alias := before.alias || s.alias))
  }

  function Fresh(f: Found, s: Signals): Retrieved {
    Retrieved(f.id, f.memory, f.createdAt, s, 0.0, Some(f.memory.updatedAt))
  }

  function AddOne(candidates: map<string, Retrieved>, f: Found, s: Signals): map<string, Retrieved> {
    candidates[f.id := if f.id in candidates then Fold(candidates[f.id], s) else Fresh(f, s)]
  }

  function AddAll(candidates: map<string, Retrieved>, found: seq<Found>, s: Signals): map<string, Retrieved> {
    if found == [] then candidates
    else AddOne(AddAll(candidates, found[..|found| - 1], s), found[|found| - 1], s)
  }

  method AddSearchResults(candidates: map<string, Retrieved>, found: seq<Found>, s: Signals)
    returns (merged: map<string, Retrieved>)
    ensures merged == AddAll(candidates, found, s)
  {
    merged := candidates;
    for i := 0 to |found|
      invariant merged == AddAll(candidates, found[..i], s)
    {
      assert found[..i + 1][..i] == found[..i];
      merged := AddOne(merged, found[i], s);
    }
    assert found[..|found|] == found;
  }

  function Gather(batches: seq<Batch>): map<string, Retrieved> {
    if batches == [] then map[]
    else
      var last := batches[|batches| - 1];
      AddAll(Gather(batches[..|batches| - 1]), last.found, last.signals)
  }

  // ---------- what merging yields ----------

  ghost predicate Lists(b: Batch, id: string) { exists f | f in b.found :: f.id == id }

  /** A candidate carries, of all the searches that found it, the best relevance and any alias match. */
  ghost predicate Summarises(c: Retrieved, batches: seq<Batch>, id: string) {
    && c.id == id
    && (exists b | b in batches :: Lists(b, id) && c.signals.fts == b.signals.fts)
    && (forall b | b in batches && Lists(b, id) :: b.signals.fts <= c.signals.fts)
    && (c.signals.alias <==> exists b | b in batches :: Lists(b, id) && b.signals.alias)
  }

  /** A candidate after folding in a list of results: unchanged, folded, or new. */
  lemma {:induction false} AddAllAt(candidates: map<string, Retrieved>, found: seq<Found>, s: Signals, id: string)
    ensures var after := AddAll(candidates, found, s);
      var listed := exists f | f in found :: f.id == id;
      && (id in after <==> id in candidates || listed)
      && (!listed && id in candidates ==> after[id] == candidates[id])
      && (listed && id in candidates ==> after[id] == Fold(candidates[id], s))
      && (listed && id !in candidates ==> exists f | f in found :: f.id == id && after[id] == Fresh(f, s))
  {
    if found != [] {
      var n := |found| - 1;
      AddAllAt(candidates, found[..n], s, id);
      assert found == found[..n] + [found[n]];
    }
  }

  lemma FoldSummarises(c: Retrieved, before: seq<Batch>, last: Batch, id: string)
    requires Summarises(c, before, id) && Lists(last, id)
    ensures Summarises(Fold(c, last.signals), before + [last], id)
  {
    hide Lists;
    var b :| b in before && Lists(b, id) && c.signals.fts == b.signals.fts;
    assert b in before + [last] && last in before + [last];
  }

  lemma {:induction false} GatherSummarises(batches: seq<Batch>, id: string)
    ensures id in Gather(batches) <==> exists b | b in batches :: Lists(b, id)
    ensures id in Gather(batches) ==> Summarises(Gather(batches)[id], batches, id)
  {
    if batches != [] {
      var n := |batches| - 1;
      var before, last := batches[..n], batches[n];
      GatherSummarises(before, id);
      AddAllAt(Gather(before), last.found, last.signals, id);
      assert batches == before + [last];
      hide AddAll;
      if Lists(last, id) {
        if id in Gather(before) {
          FoldSummarises(Gather(before)[id], before, last, id);
        } else {
          assert Summarises(Gather(batches)[id], batches, id);
        }
      }
    }
  }

  /** The row and the other signals are those of one of the searches that found it. */
  predicate Stems(c: Retrieved, b: Batch, f: Found) {
    && f in b.found && c == Fresh(f, c.signals)
    && c.signals.semantic == b.signals.semantic && c.signals.freshness == b.signals.freshness
  }

  ghost predicate Founded(c: Retrieved, batches: seq<Batch>) {
    exists b, f :: b in batches && Stems(c, b, f)
  }

  lemma {:induction false} GatherFounded(batches: seq<Batch>, id: string)
    requires id in Gather(batches)
    ensures Founded(Gather(batches)[id], batches)
  {
    var n := |batches| - 1;
    var before, last := batches[..n], batches[n];
    AddAllAt(Gather(before), last.found, last.signals, id);
    assert batches == before + [last];
    var after := Gather(batches)[id];
    hide AddAll;
    if id in Gather(before) {
      GatherFounded(before, id);
      var b, f :| b in before && Stems(Gather(before)[id], b, f);
      assert Stems(after, b, f) && b in batches;
    } else {
      var f :| f in last.found && f.id == id && after == Fresh(f, last.signals);
      assert Stems(after, last, f);
    }
  }

  /** All searches of one request read the same rows, and none contributes similarity or freshness. */
  ghost predicate SameRows(batches: seq<Batch>) {
    && (forall a, b, f, g | a in batches && b in batches && f in a.found && g in b.found && f.id == g.id :: f == g)
    && (forall a | a in batches :: a.signals.semantic == 0.0 && a.signals.freshness == 0.0)
  }

  lemma SameSignals(c: Retrieved, d: Retrieved, batches: seq<Batch>, id: string)
    requires Summarises(c, batches, id) && Summarises(d, batches, id)
    ensures c.id == d.id == id && c.signals.fts == d.signals.fts && c.signals.alias == d.signals.alias
  {
    hide Lists;
  }

  lemma OneCandidate(c: Retrieved, d: Retrieved, batches: seq<Batch>, id: string)
    requires SameRows(batches)
    requires Summarises(c, batches, id) && Summarises(d, batches, id) && Founded(c, batches) && Founded(d, batches)
    ensures c == d
  {
    SameSignals(c, d, batches, id);
    hide Summarises;
    var b1, f1 :| b1 in batches && Stems(c, b1, f1);
    var b2, f2 :| b2 in batches && Stems(d, b2, f2);
    assert f1 == f2;
  }

  lemma SameMembersSummarise(c: Retrieved, a: seq<Batch>, b: seq<Batch>, id: string)
    requires forall x :: x in a <==> x in b
    requires Summarises(c, a, id) && Founded(c, a)
    ensures Summarises(c, b, id) && Founded(c, b)
  {
    hide Lists, Stems;
  }

  /** Batches that read the same rows merge into the same candidates in any order. */
  lemma GatherIgnoresOrder(a: seq<Batch>, b: seq<Batch>)
    requires (forall x :: x in a <==> x in b) && SameRows(a)
    ensures Gather(a) == Gather(b)
  {
    forall id ensures id in Gather(a) <==> id in Gather(b)
              ensures id in Gather(a) ==> Gather(a)[id] == Gather(b)[id]
    {
      GatherSummarises(a, id);
      GatherSummarises(b, id);
      if id in Gather(a) {
        assert id in Gather(b) by {
          var x :| x in a && Lists(x, id);
        }
        GatherFounded(a, id);
        GatherFounded(b, id);
        hide Gather, Summarises, Founded, SameRows;
        SameMembersSummarise(Gather(b)[id], b, a, id);
        OneCandidate(Gather(a)[id], Gather(b)[id], a, id);
      }
    }
  }

  // ---------- what the searches reach ----------

  /** Whatever may be ranked matches one of the searches: the one for its own scope. */
  lemma EligibleMatches(rows: Rows, r: ContextRequest, f: Found) returns (i: nat)
    requires Eligible(r, f.memory) && |r.mentioned| <= MAX_MENTIONS
    ensures i < |Queries(r)| && Matches(rows, f, Queries(r)[i].filter, r.includeHistory)
  {
    var m, before := f.memory, if r.activeProject.Some? then 1 else 0;
    var entities := before + if r.currentApp.Some? then 2 else 0;
    match m.scope.kind
    case ProjectScope => i := 0;
    case AppScope => i := before + 1;
    case GlobalScope => i := entities + |r.mentioned|;
    case EntityScope =>
      var e :| e in m.entities && e.entity in r.mentioned;
      var k :| 0 <= k < |r.mentioned| && r.mentioned[k] == e.entity;
      i := entities + k;
      assert Queries(r)[i] == ByEntity(e.entity);
  }

  /** Every eligible row becomes a candidate, unless the search for its own scope was full of
      rows that are at least as new. */
  lemma {:induction false} EligibleIsFound(rows: Rows, r: ContextRequest, batches: seq<Batch>, id: string)
    requires rows.Keyed() && |r.mentioned| <= MAX_MENTIONS && Searched(batches, rows, Queries(r), r.includeHistory)
    requires id in rows.table && Eligible(r, rows.table[id].memory)
    ensures || id in Gather(batches)
            || exists i :: 0 <= i < |batches| && CutOff(batches[i].found, Queries(r)[i].filter, rows.table[id])
  {
    var f := rows.table[id];
    var i := EligibleMatches(rows, r, f);
    hide Eligible, Matches, Queries, CutOff;
    assert IsMatch(rows, f, Queries(r)[i].filter, r.includeHistory);
    assert IsResult(batches[i].found, rows, Queries(r)[i].filter, r.includeHistory);
    if f in batches[i].found {
      assert batches[i] in batches && Lists(batches[i], id);
      GatherSummarises(batches, id);
    }
  }

  /** All searches read the same rows, and none contributes similarity or freshness. */
  lemma {:induction false} SearchedSameRows(rows: Rows, r: ContextRequest, batches: seq<Batch>)
    requires Searched(batches, rows, Queries(r), r.includeHistory)
    ensures SameRows(batches)
  {
    forall b | b in batches
      ensures b.signals.semantic == 0.0 && b.signals.freshness == 0.0
      ensures forall f | f in b.found :: f.id in rows.table && rows.table[f.id] == f
    {
      var i :| 0 <= i < |batches| && batches[i] == b;
      assert IsResult(b.found, rows, Queries(r)[i].filter, r.includeHistory);
    }
  }

  /** Every candidate is a stored row, as it is stored, with a status the searches show. */
  lemma {:induction false} CandidatesStored(rows: Rows, r: ContextRequest, batches: seq<Batch>, id: string)
    requires Searched(batches, rows, Queries(r), r.includeHistory) && id in Gather(batches)
    ensures id in rows.table && Shown(rows.table[id].memory, r.includeHistory)
    ensures Gather(batches)[id] == Fresh(rows.table[id], Gather(batches)[id].signals)
  {
    GatherSummarises(batches, id);
    GatherFounded(batches, id);
    hide Gather, Queries;
    var b, f :| b in batches && Stems(Gather(batches)[id], b, f);
    var i :| 0 <= i < |batches| && batches[i] == b;
    assert IsResult(b.found, rows, Queries(r)[i].filter, r.includeHistory);
    assert IsMatch(rows, f, Queries(r)[i].filter, r.includeHistory);
  }

  /** The candidates as ranked: each entry of the map once. */
  ghost predicate Values(values: seq<Retrieved>, candidates: map<string, Retrieved>) {
    DistinctIds(values) && forall c :: c in values <==> c.id in candidates && candidates[c.id] == c
  }

  /** Main result: a row is ranked exactly when it is stored, eligible and not cut off: an eligible row that is
      missing matched a search that was full of rows at least as new. */
  lemma {:induction false} EligibleIsRanked(
      rows: Rows, r: ContextRequest, batches: seq<Batch>, values: seq<Retrieved>, id: string)
    requires rows.Keyed() && |r.mentioned| <= MAX_MENTIONS && Searched(batches, rows, Queries(r), r.includeHistory)
    requires Values(values, Gather(batches))
    ensures (exists x :: x in Ranked(r, values) && x.id == id)
      <==> id in Gather(batches) && id in rows.table && Eligible(r, rows.table[id].memory)
    ensures id in rows.table && Eligible(r, rows.table[id].memory) && id !in Gather(batches) ==>
      exists i :: 0 <= i < |batches| && CutOff(batches[i].found, Queries(r)[i].filter, rows.table[id])
  {
    RankedSorted(r, values);
    GatherSummarises(batches, id);
    if id in Gather(batches) {
      CandidatesStored(rows, r, batches, id);
    }
    if id in rows.table && Eligible(r, rows.table[id].memory) {
      EligibleIsFound(rows, r, batches, id);
    }
    hide Ranked, Gather, Queries, Eligible, Score, Searched, CutOff, Sorted;
    if id in Gather(batches) && Eligible(r, rows.table[id].memory) {
      var c := Gather(batches)[id];
      assert c in values && c.memory == rows.table[id].memory;
      assert c.(score := Score(r, c)) in Ranked(r, values);
    }
  }

  /** Main result: the candidates of a request do not depend on the order in which its searches ran. */
  lemma {:induction false} CandidatesIgnoreSearchOrder(rows: Rows, r: ContextRequest, a: seq<Batch>, b: seq<Batch>)
    requires Searched(a, rows, Queries(r), r.includeHistory) && multiset(a) == multiset(b)
    ensures Gather(a) == Gather(b)
  {
    SearchedSameRows(rows, r, a);
    SameMembers(a, b);
    hide Searched, SameRows, Queries;
    GatherIgnoresOrder(a, b);
  }

  lemma {:induction false} ValuesCount(a: seq<Retrieved>, b: seq<Retrieved>)
    requires DistinctIds(a) && DistinctIds(b) && forall c :: c in a <==> c in b
    ensures multiset(a) == multiset(b)
  {
    forall c ensures multiset(a)[c] == multiset(b)[c] {
      TwiceIsTwice(a, c);
      TwiceIsTwice(b, c);
      assert (c in a <==> c in multiset(a)) && (c in b <==> c in multiset(b));
    }
  }

  /** Nor does the ranking, whatever order the candidates are then listed in. */
  lemma {:induction false} RankingIgnoresSearchOrder(
      rows: Rows, r: ContextRequest, a: seq<Batch>, b: seq<Batch>, va: seq<Retrieved>, vb: seq<Retrieved>)
    requires Searched(a, rows, Queries(r), r.includeHistory) && multiset(a) == multiset(b)
    requires Values(va, Gather(a)) && Values(vb, Gather(b))
    ensures Ranked(r, va) == Ranked(r, vb)
  {
    CandidatesIgnoreSearchOrder(rows, r, a, b);
    hide Searched, Gather, Queries, Ranked;
    ValuesCount(va, vb);
    RankedIgnoresArrival(r, va, vb);
  }

  /** No search of a request contributes similarity or freshness. */
  lemma {:induction false} CandidateSignals(rows: Rows, r: ContextRequest, batches: seq<Batch>, id: string)
    requires Searched(batches, rows, Queries(r), r.includeHistory) && id in Gather(batches)
    ensures Gather(batches)[id].signals.semantic == 0.0 && Gather(batches)[id].signals.freshness == 0.0
  {
    SearchedSameRows(rows, r, batches);
    GatherFounded(batches, id);
    hide Gather, Queries, Searched;
    var b, f :| b in batches && Stems(Gather(batches)[id], b, f);
  }

  /** Every ranked value is an eligible stored row, scored as found. */
  lemma {:induction false} RankedIsStored(
      rows: Rows, r: ContextRequest, batches: seq<Batch>, values: seq<Retrieved>, x: Retrieved)
    requires Searched(batches, rows, Queries(r), r.includeHistory) && Values(values, Gather(batches))
    requires x in Ranked(r, values)
    ensures x.id in rows.table && x.memory == rows.table[x.id].memory && Eligible(r, x.memory)
    ensures x.id in Gather(batches) && x.signals == Gather(batches)[x.id].signals
    ensures x.score == Score(r, Gather(batches)[x.id]) && x.sourceTimestamp == Some(x.memory.updatedAt)
  {
    RankedSorted(r, values);
    hide Ranked, Gather, Queries, Eligible, Score, Searched, Sorted;
    var c :| c in values && Eligible(r, c.memory) && x == c.(score := Score(r, c));
    CandidatesStored(rows, r, batches, c.id);
    assert Gather(batches)[c.id] == c;
    GatherFounded(batches, c.id);
  }

  /** Main result: no search supplies the similarity a decision could lose to, so in a context the exact project
      decisions come before everything else. The schema checks that stored importances and confidences are
      between zero and one. */
  lemma {:induction false} DecisionsFirst(
      rows: Rows, r: ContextRequest, batches: seq<Batch>, values: seq<Retrieved>, i: nat, j: nat)
    requires Searched(batches, rows, Queries(r), r.includeHistory) && Values(values, Gather(batches))
    requires forall id | id in rows.table :: UnitScaled(rows.table[id].memory)
    requires i < j < |Ranked(r, values)|
    ensures var ranked := Ranked(r, values);
      ExactProjectDecision(r, ranked[j].memory) ==> ExactProjectDecision(r, ranked[i].memory)
  {
    var ranked := Ranked(r, values);
    RankedSorted(r, values);
    assert RanksBefore(ranked[i], ranked[j]) && ranked[i] in ranked && ranked[j] in ranked;
    hide Ranked, Gather, Queries, Eligible, Score, Searched, Sorted, Values;
    RankedIsStored(rows, r, batches, values, ranked[i]);
    RankedIsStored(rows, r, batches, values, ranked[j]);
    var c, d := Gather(batches)[ranked[i].id], Gather(batches)[ranked[j].id];
    CandidatesStored(rows, r, batches, ranked[i].id);
    CandidatesStored(rows, r, batches, ranked[j].id);
    CandidateSignals(rows, r, batches, ranked[i].id);
    if ExactProjectDecision(r, d.memory) && !ExactProjectDecision(r, c.memory) {
      DecisionNeedsSimilarity(r, d, c);
    }
  }

  // ---------- what a limit cuts off ----------

  /** The stored rows that match a filter and are newer than `f`. */
  function NewerMatches(rows: Rows, filter: Filter, history: bool, f: Found): set<string> {
    set id | id in rows.table && Matches(rows, rows.table[id], filter, history)
             && rows.table[id].memory.updatedAt > f.memory.updatedAt
  }

  function IdsOf(found: seq<Found>): set<string> { set f | f in found :: f.id }

  lemma {:induction false} IdsCount(found: seq<Found>)
    requires forall i, j | 0 <= i < j < |found| :: found[i].id != found[j].id
    ensures |IdsOf(found)| == |found|
  {
    if found != [] {
      var n := |found| - 1;
      IdsCount(found[..n]);
      assert found == found[..n] + [found[n]];
      assert IdsOf(found) == IdsOf(found[..n]) + {found[n].id};
    }
  }

  lemma SubsetSize(small: set<string>, large: set<string>)
    requires small <= large
    ensures |small| <= |large|
  {
    assert large == small + (large - small);
  }

  /** The other stored rows that match a filter and are at least as new as `f`. */
  function RivalMatches(rows: Rows, filter: Filter, history: bool, f: Found): set<string> {
    set id | id in rows.table && id != f.id && Matches(rows, rows.table[id], filter, history)
             && rows.table[id].memory.updatedAt >= f.memory.updatedAt
  }

  /** A row a search returns has fewer newer matches than the limit; a match it leaves out has as many rivals. */
  lemma {:induction false} FoundBounds(found: seq<Found>, rows: Rows, filter: Filter, history: bool, id: string)
    requires rows.Keyed() && IsResult(found, rows, filter, history) && id in rows.table
    ensures var f := rows.table[id];
      && (f in found ==>
            Matches(rows, f, filter, history) && |NewerMatches(rows, filter, history, f)| < filter.limit)
      && (f !in found && Matches(rows, f, filter, history) ==>
            |RivalMatches(rows, filter, history, f)| >= filter.limit)
  {
    var f := rows.table[id];
    var newer, rivals := NewerMatches(rows, filter, history, f), RivalMatches(rows, filter, history, f);
    hide Matches;
    IdsCount(found);
    if f in found {
      assert IsMatch(rows, f, filter, history);
      forall x | x in newer ensures x in IdsOf(found) {
        assert IsMatch(rows, rows.table[x], filter, history);
        assert rows.table[x] in found;
      }
      SubsetSize(newer + {id}, IdsOf(found));
    } else if Matches(rows, f, filter, history) {
      assert IsMatch(rows, f, filter, history);
      assert CutOff(found, filter, f);
      forall x | x in IdsOf(found) ensures x in rivals {
        var g :| g in found && g.id == x;
        assert IsMatch(rows, g, filter, history);
      }
      SubsetSize(IdsOf(found), rivals);
    }
  }

  /** Every search of the request that a row matches has as many newer matches as it returns. */
  ghost predicate Outnumbered(rows: Rows, r: ContextRequest, id: string)
    requires id in rows.table
  {
    forall q | q in Queries(r) && Matches(rows, rows.table[id], q.filter, r.includeHistory) ::
      |NewerMatches(rows, q.filter, r.includeHistory, rows.table[id])| >= q.filter.limit
  }

  /** The same, with the rows updated at the same time counted in. */
  ghost predicate Rivalled(rows: Rows, r: ContextRequest, id: string)
    requires id in rows.table
  {
    forall q | q in Queries(r) && Matches(rows, rows.table[id], q.filter, r.includeHistory) ::
      |RivalMatches(rows, q.filter, r.includeHistory, rows.table[id])| >= q.filter.limit
  }

  /** A row is listed under its id exactly when it is among the results. */
  lemma {:induction false} ListedIsFound(
      b: Batch, rows: Rows, filter: Filter, history: bool, id: string)
    requires rows.Keyed() && IsResult(b.found, rows, filter, history) && id in rows.table
    ensures Lists(b, id) <==> rows.table[id] in b.found
  {
    hide Matches;
    if Lists(b, id) {
      var g :| g in b.found && g.id == id;
      assert IsMatch(rows, g, filter, history);
    }
  }

  /** Main result: outnumbered rows are never candidates, and only rivalled rows are missing. */
  lemma {:induction false} MissingBounds(rows: Rows, r: ContextRequest, batches: seq<Batch>, id: string)
    requires rows.Keyed() && Searched(batches, rows, Queries(r), r.includeHistory) && id in rows.table
    ensures Outnumbered(rows, r, id) ==> id !in Gather(batches)
    ensures id !in Gather(batches) ==> Rivalled(rows, r, id)
  {
    var f, queries := rows.table[id], Queries(r);
    GatherSummarises(batches, id);
    hide Gather, Queries, Matches, NewerMatches, RivalMatches, Lists, IsResult;
    forall i | 0 <= i < |queries|
      ensures Lists(batches[i], id) ==>
        && Matches(rows, f, queries[i].filter, r.includeHistory)
        && |NewerMatches(rows, queries[i].filter, r.includeHistory, f)| < queries[i].filter.limit
      ensures !Lists(batches[i], id) && Matches(rows, f, queries[i].filter, r.includeHistory) ==>
        |RivalMatches(rows, queries[i].filter, r.includeHistory, f)| >= queries[i].filter.limit
    {
      ListedIsFound(batches[i], rows, queries[i].filter, r.includeHistory, id);
      FoundBounds(batches[i].found, rows, queries[i].filter, r.includeHistory, id);
    }
    hide Searched;
    if id in Gather(batches) {
      var b :| b in batches && Lists(b, id);
      var i :| 0 <= i < |batches| && batches[i] == b;
      assert queries[i] in queries;
    } else {
      forall q | q in queries && Matches(rows, f, q.filter, r.includeHistory)
        ensures |RivalMatches(rows, q.filter, r.includeHistory, f)| >= q.filter.limit
      {
        var i :| 0 <= i < |queries| && queries[i] == q;
        assert batches[i] in batches;
      }
    }
  }

  /** No other row was updated at the same time. */
  predicate Untied(rows: Rows, id: string)
    requires id in rows.table
  {
    forall x | x in rows.table && x != id :: rows.table[x].memory.updatedAt != rows.table[id].memory.updatedAt
  }

  lemma UntiedRivals(rows: Rows, filter: Filter, history: bool, id: string)
    requires rows.Keyed() && id in rows.table && Untied(rows, id)
    ensures RivalMatches(rows, filter, history, rows.table[id]) == NewerMatches(rows, filter, history, rows.table[id])
  {
    hide Matches;
  }

  /** For a row updated at its own time the bounds meet: it is found exactly when it matches and fewer newer rows
      do than the limit. */
  lemma {:induction false} FoundExactly(found: seq<Found>, rows: Rows, filter: Filter, history: bool, id: string)
    requires rows.Keyed() && IsResult(found, rows, filter, history) && id in rows.table && Untied(rows, id)
    ensures var f := rows.table[id];
      f in found <==> Matches(rows, f, filter, history) && |NewerMatches(rows, filter, history, f)| < filter.limit
  {
    FoundBounds(found, rows, filter, history, id);
    UntiedRivals(rows, filter, history, id);
    hide Matches, NewerMatches, RivalMatches, IsResult;
  }

  /** Such a row is missing exactly when it is outnumbered. */
  lemma {:induction false} MissingExactly(rows: Rows, r: ContextRequest, batches: seq<Batch>, id: string)
    requires rows.Keyed() && Searched(batches, rows, Queries(r), r.includeHistory)
    requires id in rows.table && Untied(rows, id)
    ensures id !in Gather(batches) <==> Outnumbered(rows, r, id)
  {
    MissingBounds(rows, r, batches, id);
    hide Gather, Queries, Matches, NewerMatches, RivalMatches, Searched;
    if Rivalled(rows, r, id) {
      forall q | q in Queries(r) && Matches(rows, rows.table[id], q.filter, r.includeHistory)
        ensures |NewerMatches(rows, q.filter, r.includeHistory, rows.table[id])| >= q.filter.limit
      {
        UntiedRivals(rows, q.filter, r.includeHistory, id);
      }
    }
  }

  // ---------- a memory its search hides ----------

  function CrowdId(i: nat): string { seq(i + 1, _ => 'a') }

  /** Public notes about nothing in particular, one for each millisecond. */
  function CrowdRow(i: nat): Found {
    Found(CrowdId(i),
          Memory("a note", Fact, Explicit, Active, Scope(GlobalScope, ""), 0.5, 0.9, Public, None, None, 1, i,
                 {"uncategorized"}, {}, {}, {}), 0)
  }

  function CrowdIds(n: nat): set<string> { set i | 0 <= i < n :: CrowdId(i) }

  function Crowd(n: nat): Rows { Rows(map id | id in CrowdIds(n) :: CrowdRow(|id| - 1), {}) }

  lemma {:induction false} CrowdSize(n: nat)
    ensures |CrowdIds(n)| == n
  {
    if n > 0 {
      CrowdSize(n - 1);
      assert |CrowdId(n - 1)| == n && forall i | 0 <= i < n - 1 :: |CrowdId(i)| == i + 1;
      assert CrowdIds(n) == CrowdIds(n - 1) + {CrowdId(n - 1)};
    }
  }

  lemma CrowdKeyed(n: nat)
    ensures Crowd(n).Keyed()
  {
    forall i | 0 <= i < n ensures |CrowdId(i)| == i + 1 {}
  }

  const IDLE := ContextRequest(None, None, "", [], false, PublicOnly, 1_000)

  lemma CrowdMatches(n: nat, i: nat)
    requires i < n
    ensures CrowdId(i) in Crowd(n).table && Crowd(n).table[CrowdId(i)] == CrowdRow(i)
    ensures Matches(Crowd(n), CrowdRow(i), GLOBALLY.filter, false)
  {
    assert |CrowdId(i)| == i + 1;
  }

  lemma CrowdNewer(n: nat)
    requires n > 0
    ensures |NewerMatches(Crowd(n), GLOBALLY.filter, false, CrowdRow(0))| >= n - 1
  {
    var newer := NewerMatches(Crowd(n), GLOBALLY.filter, false, CrowdRow(0));
    hide Matches, Crowd;
    forall x | x in CrowdIds(n) - {CrowdId(0)} ensures x in newer {
      var i :| 0 <= i < n && x == CrowdId(i);
      CrowdMatches(n, i);
    }
    CrowdSize(n);
    hide NewerMatches;
    SubsetSize(CrowdIds(n) - {CrowdId(0)}, newer);
  }

  /** Of 201 global notes a request with no app, project, query or mention misses the oldest, though it is
      eligible: 200 newer ones fill its only search. */
  lemma {:induction false} FullSearchHides(batches: seq<Batch>)
    requires Searched(batches, Crowd(201), Queries(IDLE), IDLE.includeHistory)
    ensures var id := CrowdId(0);
      id in Crowd(201).table && Eligible(IDLE, Crowd(201).table[id].memory) && id !in Gather(batches)
  {
    CrowdMatches(201, 0);
    CrowdKeyed(201);
    CrowdNewer(201);
    assert Queries(IDLE) == [GLOBALLY];
    hide Matches, Gather, Crowd, NewerMatches, Searched;
    MissingBounds(Crowd(201), IDLE, batches, CrowdId(0));
  }

  // ---------- the assembly ----------

  function Digit(n: nat): char
    requires n < 10
  {
    '0' + n as char
  }

  function Digits(n: nat): string {
    if n < 10 then [Digit(n)] else Digits(n / 10) + [Digit(n % 10)]
  }

  function Decimal(n: int): string { if n < 0 then "-" + Digits(-n) else Digits(n) }

  lemma {:induction false} DecimalPlain(n: int)
    ensures Rendering.Plain(Decimal(n))
    decreases if n < 0 then 1 - 2 * n else 2 * n
  {
    if n < 0 {
      DecimalPlain(-n);
    } else if n >= 10 {
      DecimalPlain(n / 10);
    }
  }

  /** The number a row of decimal digits stands for. */
  function Reading(digits: string): int {
    if digits == [] then 0 else 10 * Reading(digits[..|digits| - 1]) + (digits[|digits| - 1] as int - '0' as int)
  }

  lemma {:induction false} DigitsRead(n: nat)
    ensures Reading(Digits(n)) == n && Digits(n) != [] && (forall c | c in Digits(n) :: '0' <= c <= '9')
    ensures n > 0 ==> Digits(n)[0] != '0'
  {
    if n >= 10 {
      DigitsRead(n / 10);
      var d := Digits(n);
      assert d[..|d| - 1] == Digits(n / 10) && d[0] == Digits(n / 10)[0];
    } else {
      assert [Digit(n)][..0] == [];
    }
  }

  /** A timestamp is written in decimal: a sign for a negative one, no leading zeros, and digits that read as it. */
  lemma DecimalExactly(n: int)
    ensures n >= 0 ==> Reading(Decimal(n)) == n && (n > 0 ==> Decimal(n)[0] != '0') && '-' !in Decimal(n)
    ensures n < 0 ==> Decimal(n)[0] == '-' && Reading(Decimal(n)[1..]) == -n && Decimal(n)[1] != '0'
  {
    if n < 0 {
      DigitsRead(-n);
      assert Decimal(n)[1..] == Digits(-n);
    } else {
      DigitsRead(n);
    }
  }

  function KindName(k: MemoryType): string {
    match k
    case Preference => "preference"
    case Fact => "fact"
    case Decision => "decision"
    case Episode => "episode"
    case Task => "task"
    case Procedure => "procedure"
  }

  function ModeName(m: AssertionMode): string {
    match m
    case Explicit => "explicit"
    case Observed => "observed"
    case Inferred => "inferred"
    case Imported => "imported"
    case Manual => "manual"
  }

  function ScopeLabel(s: Scope): string {
    match s.kind
    case GlobalScope => "global"
    case AppScope => "app:" + s.key
    case ProjectScope => "project:" + s.key
    case EntityScope => "entity:" + s.key
  }

  /** `hundredths` renders a confidence with two decimals. */
  function ItemOf(c: Retrieved, hundredths: real -> string): Rendering.Item {
    var m := c.memory;
    var timestamp := if c.sourceTimestamp.Some? then c.sourceTimestamp.value else c.createdAt;
    Rendering.Item(c.id, KindName(m.kind), ScopeLabel(m.scope), ModeName(m.mode) + ":" + hundredths(m.confidence),
                   Decimal(timestamp), m.content)
  }

  function ItemsOf(ranked: seq<Retrieved>, hundredths: real -> string): seq<Rendering.Item> {
    seq(|ranked|, i requires 0 <= i < |ranked| => ItemOf(ranked[i], hundredths))
  }

  lemma KindPlain(k: MemoryType)
    ensures Rendering.Plain(KindName(k))
  {
  }

  lemma ModePlain(m: AssertionMode)
    ensures Rendering.Plain(ModeName(m) + ":")
  {
  }

  lemma ItemPlain(c: Retrieved, hundredths: real -> string)
    requires Rendering.Plain(hundredths(c.memory.confidence))
    ensures Rendering.PlainParts(ItemOf(c, hundredths))
  {
    KindPlain(c.memory.kind);
    ModePlain(c.memory.mode);
    DecimalPlain(if c.sourceTimestamp.Some? then c.sourceTimestamp.value else c.createdAt);
    hide KindName, ModeName, Decimal, Rendering.Special;
  }

  /** The candidates in some order. */
  method IntoValues(candidates: map<string, Retrieved>) returns (values: seq<Retrieved>)
    requires forall id | id in candidates :: candidates[id].id == id
    ensures Values(values, candidates)
  {
    values := [];
    var rest := candidates.Keys;
    while rest != {}
      invariant rest <= candidates.Keys && DistinctIds(values)
      invariant forall c :: c in values <==> c.id in candidates && c.id !in rest && candidates[c.id] == c
    {
      var id :| id in rest;
      rest := rest - {id};
      values := values + [candidates[id]];
    }
  }

  datatype Assembly = Assembly(rendered: string, ids: seq<string>, tokens: nat)

  method IncludedIdsOf(rendered: string, ranked: seq<Rendering.Item>) returns (ids: seq<string>)
    ensures ids == IncludedIds.Included(rendered, ranked)
  {
    ids := [];
    for i := 0 to |ranked|
      invariant ids == IncludedIds.Included(rendered, ranked[..i])
    {
      assert ranked[..i + 1][..i] == ranked[..i];
      if IncludedIds.Contains(rendered, IncludedIds.IdPattern(ranked[i].id)) {
        ids := ids + [ranked[i].id];
      }
    }
    assert ranked[..|ranked|] == ranked;
  }

  /** What an assembly promises: within budget, and either nothing, or the block of the chosen items with
      exactly their ids. */
  ghost predicate Faithful(a: Assembly, budget: nat, items: seq<Rendering.Item>) {
    && a.tokens == Rendering.Bytes(a.rendered) <= budget
    && (budget < Rendering.Frame() ==> a.rendered == "" && a.ids == [])
    && (budget >= Rendering.Frame() ==>
          && Rendering.ReadBlock(a.rendered) == Some(Rendering.Chosen(budget, items))
          && a.ids == IncludedIds.Ids(Rendering.Chosen(budget, items)))
  }

  method GatherCandidates(batches: seq<Batch>) returns (candidates: map<string, Retrieved>)
    ensures candidates == Gather(batches)
  {
    candidates := map[];
    for i := 0 to |batches|
      invariant candidates == Gather(batches[..i])
    {
      assert batches[..i + 1][..i] == batches[..i];
      candidates := AddSearchResults(candidates, batches[i].found, batches[i].signals);
    }
    assert batches[..|batches|] == batches;
  }

  lemma EmptyShowsNothing(items: seq<Rendering.Item>)
    ensures IncludedIds.Included("", items) == []
  {
    if items != [] {
      EmptyShowsNothing(items[..|items| - 1]);
    }
  }

  lemma AssemblyFaithful(budget: nat, items: seq<Rendering.Item>, rendered: string, ids: seq<string>)
    requires IncludedIds.DistinctItems(items)
    requires forall i | i in items :: Rendering.PlainParts(i) && IncludedIds.IdLike(i.id)
    requires rendered == if budget < Rendering.Frame() then "" else Rendering.Block(Rendering.Chosen(budget, items))
    requires ids == IncludedIds.Included(rendered, items)
    ensures Faithful(Assembly(rendered, ids, Rendering.Bytes(rendered)), budget, items)
  {
    hide Rendering.Frame, Rendering.Block, Rendering.ReadBlock, Rendering.PlainParts;
    hide IncludedIds.IdLike, IncludedIds.Contains;
    if budget < Rendering.Frame() {
      EmptyShowsNothing(items);
      assert Rendering.Bytes("") == 0;
    } else {
      Rendering.WithinBudget(budget, items);
      Rendering.ChosenAreRanked(budget, items);
      Rendering.ReadBlockBack(Rendering.Chosen(budget, items));
      IncludedIds.IncludedAreChosen(budget, items, |items|);
      assert items[..|items|] == items;
      hide Rendering.Chosen, Rendering.Bytes, IncludedIds.Included;
    }
  }

  lemma FaithfulFits(a: Assembly, budget: nat, items: seq<Rendering.Item>)
    requires Faithful(a, budget, items)
    ensures a.tokens <= budget
  {
  }

  lemma CandidatesKeyed(batches: seq<Batch>)
    requires forall b, f | b in batches && f in b.found :: IncludedIds.IdLike(f.id)
    ensures forall id | id in Gather(batches) :: Gather(batches)[id].id == id && IncludedIds.IdLike(id)
  {
    forall id | id in Gather(batches) ensures Gather(batches)[id].id == id && IncludedIds.IdLike(id) {
      GatherSummarises(batches, id);
      var b :| b in batches && Lists(b, id);
      var f :| f in b.found && f.id == id;
    }
  }

  lemma RankedItems(request: ContextRequest, values: seq<Retrieved>, hundredths: real -> string)
    requires DistinctIds(values) && forall x :: Rendering.Plain(hundredths(x))
    requires forall c | c in values :: IncludedIds.IdLike(c.id)
    ensures var items := ItemsOf(Ranked(request, values), hundredths);
      && IncludedIds.DistinctItems(items)
      && forall i | i in items :: Rendering.PlainParts(i) && IncludedIds.IdLike(i.id)
  {
    hide Rendering.Plain, Rendering.PlainParts, IncludedIds.IdLike, Eligible, Score;
    var ranked := Ranked(request, values);
    RankedSorted(request, values);
    RankedDistinct(request, values);
    forall c | c in ranked ensures Rendering.PlainParts(ItemOf(c, hundredths)) && IncludedIds.IdLike(c.id) {
      ItemPlain(c, hundredths);
    }
    hide Ranked;
  }

  lemma {:induction false} ChosenIsAdmissible(
      rows: Rows, r: ContextRequest, batches: seq<Batch>, values: seq<Retrieved>, hundredths: real -> string,
      i: Rendering.Item)
    requires Searched(batches, rows, Queries(r), r.includeHistory) && Values(values, Gather(batches))
    requires i in Rendering.Chosen(r.budget, ItemsOf(Ranked(r, values), hundredths))
    ensures i.id in rows.table && RankingLaws.Admissible(r, rows.table[i.id].memory)
    ensures i.content == rows.table[i.id].memory.content
  {
    var ranked := Ranked(r, values);
    var items := ItemsOf(ranked, hundredths);
    hide Ranked, Gather, Queries, Searched, Values, Eligible, RankingLaws.Admissible, Rendering.Chosen, KindName,
      ModeName, ScopeLabel, Decimal;
    Rendering.ChosenAreRanked(r.budget, items);
    var k :| 0 <= k < |items| && items[k] == i;
    RankedIsStored(rows, r, batches, values, ranked[k]);
    RankingLaws.EligibleExactly(r, ranked[k].memory);
  }

  /** What an item shows of a memory beside its content: its kind, its scope, how it was asserted with its
      confidence, and when it was last updated. */
  predicate Says(i: Rendering.Item, m: Memory, hundredths: real -> string) {
    && i.kind == (match m.kind
        case Preference => "preference" case Fact => "fact" case Decision => "decision"
        case Episode => "episode" case Task => "task" case Procedure => "procedure")
    && i.scope == (match m.scope
        case Scope(GlobalScope, _) => "global" case Scope(AppScope, key) => "app:" + key
        case Scope(ProjectScope, key) => "project:" + key case Scope(EntityScope, key) => "entity:" + key)
    && i.confidence == (match m.mode
        case Explicit => "explicit:" case Observed => "observed:" case Inferred => "inferred:"
        case Imported => "imported:" case Manual => "manual:") + hundredths(m.confidence)
    && i.timestamp == Decimal(m.updatedAt)
  }

  lemma ModeSays(mode: AssertionMode, confidence: string)
    ensures ModeName(mode) + ":" + confidence == (match mode
        case Explicit => "explicit:" case Observed => "observed:" case Inferred => "inferred:"
        case Imported => "imported:" case Manual => "manual:") + confidence
  {
  }

  lemma ItemSays(c: Retrieved, hundredths: real -> string)
    requires c.sourceTimestamp == Some(c.memory.updatedAt)
    ensures Says(ItemOf(c, hundredths), c.memory, hundredths)
  {
    hide Decimal;
    ModeSays(c.memory.mode, hundredths(c.memory.confidence));
  }

  /** Every item a context shows says this of its memory. */
  lemma {:induction false} ShownSay(
      rows: Rows, r: ContextRequest, batches: seq<Batch>, values: seq<Retrieved>, hundredths: real -> string,
      i: Rendering.Item)
    requires Searched(batches, rows, Queries(r), r.includeHistory) && Values(values, Gather(batches))
    requires i in Rendering.Chosen(r.budget, ItemsOf(Ranked(r, values), hundredths))
    ensures i.id in rows.table && Says(i, rows.table[i.id].memory, hundredths)
  {
    var ranked := Ranked(r, values);
    var items := ItemsOf(ranked, hundredths);
    Rendering.ChosenAreRanked(r.budget, items);
    var k :| 0 <= k < |items| && items[k] == i;
    assert i == ItemOf(ranked[k], hundredths) && ranked[k] in ranked;
    hide Gather, Queries, Searched, Eligible, Rendering.Chosen, Says, KindName, ModeName, ScopeLabel, Decimal;
    RankedIsStored(rows, r, batches, values, ranked[k]);
    ItemSays(ranked[k], hundredths);
  }

  /** Main result: whatever a context shows is a stored memory with its own content that the request may show: in
      scope, allowed in its sensitivity, applicable and of a status asked for. */
  lemma {:induction false} ShownAreEligible(
      rows: Rows, r: ContextRequest, batches: seq<Batch>, values: seq<Retrieved>, hundredths: real -> string,
      a: Assembly)
    requires Searched(batches, rows, Queries(r), r.includeHistory) && Values(values, Gather(batches))
    requires Faithful(a, r.budget, ItemsOf(Ranked(r, values), hundredths))
    ensures forall id | id in a.ids :: id in rows.table && RankingLaws.Admissible(r, rows.table[id].memory)
    ensures r.budget >= Rendering.Frame() ==>
      forall i | i in Rendering.Chosen(r.budget, ItemsOf(Ranked(r, values), hundredths)) ::
        && i.id in rows.table && RankingLaws.Admissible(r, rows.table[i.id].memory)
        && i.content == rows.table[i.id].memory.content
  {
    var items := ItemsOf(Ranked(r, values), hundredths);
    var chosen := Rendering.Chosen(r.budget, items);
    hide Ranked, ItemsOf, Gather, Queries, Searched, Values, RankingLaws.Admissible, Rendering.Chosen,
      Rendering.ReadBlock, Rendering.Bytes, Rendering.Frame;
    forall i | i in chosen
      ensures i.id in rows.table && RankingLaws.Admissible(r, rows.table[i.id].memory)
      ensures i.content == rows.table[i.id].memory.content
    {
      ChosenIsAdmissible(rows, r, batches, values, hundredths, i);
    }
    if r.budget >= Rendering.Frame() {
      forall id | id in a.ids ensures id in rows.table && RankingLaws.Admissible(r, rows.table[id].memory) {
        var k :| 0 <= k < |a.ids| && a.ids[k] == id;
        assert chosen[k] in chosen && chosen[k].id == id;
      }
    }
  }

  /** And nothing admissible that was found is left out of the ranking. */
  lemma {:induction false} FoundAreRanked(
      rows: Rows, r: ContextRequest, batches: seq<Batch>, values: seq<Retrieved>)
    requires rows.Keyed() && |r.mentioned| <= 20 && Searched(batches, rows, Queries(r), r.includeHistory)
    requires Values(values, Gather(batches))
    ensures forall id | id in rows.table ::
      (exists x :: x in Ranked(r, values) && x.id == id)
      <==> id in Gather(batches) && RankingLaws.Admissible(r, rows.table[id].memory)
  {
    hide Ranked, Gather, Queries, Searched, Values, Eligible, RankingLaws.Admissible;
    forall id | id in rows.table
      ensures (exists x :: x in Ranked(r, values) && x.id == id)
              <==> id in Gather(batches) && RankingLaws.Admissible(r, rows.table[id].memory)
    {
      EligibleIsRanked(rows, r, batches, values, id);
      RankingLaws.EligibleExactly(r, rows.table[id].memory);
    }
  }

  predicate ValidRequest(r: ContextRequest) {
    r.budget <= 16_000 && |r.query| <= 4_000 && |r.mentioned| <= MAX_MENTIONS
  }

  /** What the audit event of an assembly says. */
  function Outcome(ids: seq<string>): string { if ids == [] then "empty" else "bounded" }

  lemma {:induction false} FoundIdLike(rows: Rows, r: ContextRequest, batches: seq<Batch>)
    requires forall id | id in rows.table :: IncludedIds.IdLike(id)
    requires Searched(batches, rows, Queries(r), r.includeHistory)
    ensures forall b, f | b in batches && f in b.found :: IncludedIds.IdLike(f.id)
  {
    hide IncludedIds.IdLike, Queries;
    forall b | b in batches ensures forall f | f in b.found :: IncludedIds.IdLike(f.id) {
      var i :| 0 <= i < |batches| && batches[i] == b;
      assert IsResult(b.found, rows, Queries(r)[i].filter, r.includeHistory);
    }
  }

  /** Assembly succeeds exactly for a bounded request with a usable correlation id whose query a search takes:
      the rendered context never exceeds the budget, so the check behind it never fails. */
  method AssembleContext(request: ContextRequest, rows: Rows, hundredths: real -> string, correlation: string)
    returns (r: Result<Assembly, AssemblyError>, outcome: Option<string>, ghost batches: seq<Batch>,
             ghost values: seq<Retrieved>)
    requires rows.Keyed() && forall x :: Rendering.Plain(hundredths(x))
    requires forall id | id in rows.table :: IncludedIds.IdLike(id)
    ensures r.Ok? <==>
      && request.budget <= 16_000 && |request.query| <= 4_000 && |request.mentioned| <= 20
      && (|request.query| <= 500 || Text.Blank(request.query)) && !Text.Blank(correlation) && |correlation| <= 128
    ensures r.Err? ==> !r.error.BudgetExceeded? && outcome == None
    ensures r.Ok? ==>
      && Searched(batches, rows, Queries(request), request.includeHistory)
      && Values(values, Gather(batches))
      && Faithful(r.value, request.budget, ItemsOf(Ranked(request, values), hundredths))
      && outcome == Some(if r.value.ids == [] then "empty" else "bounded")
      && (forall id | id in r.value.ids :: id in rows.table && RankingLaws.Admissible(request, rows.table[id].memory))
      && (forall id | id in rows.table ::
            (exists x :: x in Ranked(request, values) && x.id == id)
            <==> id in Gather(batches) && RankingLaws.Admissible(request, rows.table[id].memory))
  {
    outcome, batches, values := None, [], [];
    if !ValidRequest(request) { return Err(InvalidRequest), None, [], []; }
    hide Gather, Ranked, ItemsOf, StoreSpec.ValidCorrelation, Faithful, Rendering.Plain, Rendering.PlainParts,
      Rendering.Bytes, Rendering.Block, Rendering.Chosen, Rendering.Frame, IncludedIds.Included, IncludedIds.IdLike;
    hide Searched, Queries, SearchableQuery, RankingLaws.Admissible;
    var searched := RunSearches(rows, request);
    if searched.Err? { return Err(searched.error), None, [], []; }
    batches := searched.value;
    FoundIdLike(rows, request, batches);
    var candidates := GatherCandidates(searched.value);
    CandidatesKeyed(batches);
    var listed := IntoValues(candidates);
    values := listed;
    var ranked := RankMemories(request, listed);
    RankedItems(request, listed, hundredths);
    var items := ItemsOf(ranked, hundredths);
    var rendered := Rendering.RenderMemoryContext(request.budget, items);
    var ids := IncludedIdsOf(rendered, items);
    AssemblyFaithful(request.budget, items, rendered, ids);
    var tokens := Rendering.Bytes(rendered);
    FaithfulFits(Assembly(rendered, ids, tokens), request.budget, items);
    if tokens > request.budget { return Err(BudgetExceeded), None, batches, values; }
    if !StoreSpec.ValidCorrelation(correlation) { return Err(InvalidCorrelation), None, batches, values; }
    ShownAreEligible(rows, request, batches, values, hundredths, Assembly(rendered, ids, tokens));
    FoundAreRanked(rows, request, batches, values);
    return Ok(Assembly(rendered, ids, tokens)), Some(Outcome(ids)), batches, values;
  }

  /** The request's own bound admits a query that its search refuses: 501 letters. */
  lemma LongQueryRefused()
    ensures var r := ContextRequest(None, None, seq(501, _ => 'a'), [], false, PublicOnly, 1_000);
      ValidRequest(r) && !SearchableQuery(r)
  {
    var query := ContextRequest(None, None, seq(501, _ => 'a'), [], false, PublicOnly, 1_000).query;
    assert query[0] == 'a' && query[0] in query && !Text.IsWhitespace(query[0]);
  }
}
