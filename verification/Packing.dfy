/** Next-fit packing of texts into extraction batches of at most 12,000 source characters, as the
    segmenter does it and as the store does it when it loads a leased segment. */
module Packing {
  import opened Wrappers
  import opened Segmentation
  import MemoryModel
  import Sorting
  import StoreSpec
  import Text

  const CAPACITY: nat := MAX_EXTRACTION_BATCH_CHARS

  function Total<T>(items: seq<T>, weight: T -> nat): nat {
    if items == [] then 0 else Total(items[..|items| - 1], weight) + weight(items[|items| - 1])
  }

  function Concat<T>(batches: seq<seq<T>>): seq<T> {
    if batches == [] then [] else Concat(batches[..|batches| - 1]) + batches[|batches| - 1]
  }

  predicate Fits<T>(batch: seq<T>, weight: T -> nat) { batch != [] && Total(batch, weight) <= CAPACITY }

  /** `batch` could not have taken the item that opens `next`. */
  predicate Tight<T>(batch: seq<T>, next: seq<T>, weight: T -> nat) {
    next != [] && Total(batch, weight) + weight(next[0]) > CAPACITY
  }

  /** The batches, in order, are the items; none is empty or over capacity; and no batch could have
      taken the item that opens the next one. */
  ghost predicate IsNextFit<T>(batches: seq<seq<T>>, items: seq<T>, weight: T -> nat) {
    && Concat(batches) == items
    && (forall i | 0 <= i < |batches| :: Fits(batches[i], weight))
    && (forall i | 1 <= i < |batches| :: Tight(batches[i - 1], batches[i], weight))
  }

  lemma Snoc<T>(items: seq<T>, x: T, weight: T -> nat)
    ensures Total(items + [x], weight) == Total(items, weight) + weight(x)
  {
    assert (items + [x])[..|items|] == items;
  }

  lemma SnocBatch<T>(batches: seq<seq<T>>, b: seq<T>)
    ensures Concat(batches + [b]) == Concat(batches) + b
  {
    assert (batches + [b])[..|batches|] == batches;
  }

  /** The loop state of a packer: `batches` are closed, `current` is being filled from `items`. */
  ghost predicate Packing<T>(batches: seq<seq<T>>, current: seq<T>, items: seq<T>, weight: T -> nat) {
    if current == [] then batches == [] && items == [] else IsNextFit(batches + [current], items, weight)
  }

  lemma PackedOn<T>(batches: seq<seq<T>>, current: seq<T>, items: seq<T>, x: T, weight: T -> nat)
    requires Packing(batches, current, items, weight) && Total(current, weight) + weight(x) <= CAPACITY
    ensures Packing(batches, current + [x], items + [x], weight)
  {
    var closed, grown := batches + [current], batches + [current + [x]];
    SnocBatch(batches, current);
    SnocBatch(batches, current + [x]);
    Snoc(current, x, weight);
    assert Concat(grown) == items + [x];
    hide Concat, Total;
    assert Fits(current + [x], weight);
    forall i | 1 <= i < |grown| ensures Tight(grown[i - 1], grown[i], weight) {
      assert Tight(closed[i - 1], closed[i], weight) && grown[i - 1] == closed[i - 1] && grown[i][0] == closed[i][0];
    }
    forall i | 0 <= i < |batches| ensures Fits(grown[i], weight) {
      assert Fits(closed[i], weight);
    }
  }

  lemma PackedApart<T>(batches: seq<seq<T>>, current: seq<T>, items: seq<T>, x: T, weight: T -> nat)
    requires Packing(batches, current, items, weight) && weight(x) <= CAPACITY
    requires current != [] && Total(current, weight) + weight(x) > CAPACITY
    ensures Packing(batches + [current], [x], items + [x], weight)
  {
    var closed := batches + [current];
    SnocBatch(closed, [x]);
    Snoc([], x, weight);
    assert [] + [x] == [x];
    hide Concat, Total;
    var split := closed + [[x]];
    forall i | 0 <= i < |split| ensures Fits(split[i], weight) {
      assert i < |closed| ==> Fits(closed[i], weight);
    }
    forall i | 1 <= i < |split| ensures Tight(split[i - 1], split[i], weight) {
      if i < |closed| {
        assert Tight(closed[i - 1], closed[i], weight);
      }
    }
  }

  function Length(text: string): nat { |text| }

  /** The segmenter's packer. */
  method SplitExtractionBatches(texts: seq<string>) returns (r: Result<seq<seq<string>>, SegmentationError>)
    ensures r.Err? <==> exists t | t in texts :: |t| > CAPACITY
    ensures r.Ok? ==> IsNextFit(r.value, texts, Length)
  {
    var batches, current, chars := [], [], 0;
    for i := 0 to |texts|
      invariant Packing(batches, current, texts[..i], Length)
      invariant chars == Total(current, Length)
      invariant forall t | t in texts[..i] :: |t| <= CAPACITY
    {
      var text := texts[i];
      if |text| > CAPACITY { return Err(OversizedSource); }
      assert texts[..i + 1] == texts[..i] + [text];
      if current != [] && chars + |text| > CAPACITY {
        PackedApart(batches, current, texts[..i], text, Length);
        batches, current, chars := batches + [current], [], 0;
      } else {
        PackedOn(batches, current, texts[..i], text, Length);
      }
      Snoc(current, text, Length);
      hide Packing;
      chars := chars + |text|;
      current := current + [text];
    }
    assert texts[..|texts|] == texts;
    if current != [] {
      batches := batches + [current];
    }
    return Ok(batches);
  }

  // ---------- the store's packer ----------

  datatype SourceText = SourceText(id: string, startedAt: int, text: string)

  /** By start, and by id among equal starts. */
  predicate Earlier(a: SourceText, b: SourceText) {
    a.startedAt < b.startedAt || (a.startedAt == b.startedAt && Sorting.LexLess(a.id, b.id))
  }

  lemma EarlierOrders()
    ensures Sorting.Asymmetric(Earlier) && Sorting.Transitive(Earlier)
  {
    forall a, b | Earlier(a, b) ensures !Earlier(b, a) {
      if Sorting.LexLess(a.id, b.id) { Sorting.LexAsymmetric(a.id, b.id); }
    }
    forall a, b, c | Earlier(a, b) && Earlier(b, c) ensures Earlier(a, c) {
      if Sorting.LexLess(a.id, b.id) && Sorting.LexLess(b.id, c.id) { Sorting.LexTransitive(a.id, b.id, c.id); }
    }
  }

  function SourcesIn(db: StoreSpec.Database, segment: string): set<string> {
    if segment in db.segments then db.segments[segment] else {}
  }

  /** A source of the segment whose text has not been expired. */
  predicate Remains(db: StoreSpec.Database, segment: string, row: SourceText) {
    && row.id in SourcesIn(db, segment) && row.id in db.sources && row.text != ""
    && row.startedAt == db.sources[row.id].startedAt && row.text == db.sources[row.id].text
  }

  /** The remaining evidence of a segment, each source once, in order. */
  ghost predicate IsEvidence(rows: seq<SourceText>, db: StoreSpec.Database, segment: string) {
    && Sorting.Sorted(rows, Earlier)
    && forall row :: row in rows <==> Remains(db, segment, row)
  }

  /** What the evidence of a segment is: the sources it names whose text was not expired, the ones that started
      first before the others and by id among those that started together. */
  lemma EvidenceExactly(rows: seq<SourceText>, db: StoreSpec.Database, segment: string, source: string)
    requires IsEvidence(rows, db, segment)
    ensures (exists row :: row in rows && row.id == source) <==>
      && segment in db.segments && source in db.segments[segment]
      && source in db.sources && |db.sources[source].text| > 0
    ensures forall row | row in rows ::
      row.id in db.sources && row == SourceText(row.id, db.sources[row.id].startedAt, db.sources[row.id].text)
    ensures forall i, j | 0 <= i < j < |rows| ::
      && rows[i].startedAt <= rows[j].startedAt
      && (rows[i].startedAt == rows[j].startedAt ==> Sorting.LexLess(rows[i].id, rows[j].id))
  {
    if source in db.sources && source in SourcesIn(db, segment) && db.sources[source].text != "" {
      assert SourceText(source, db.sources[source].startedAt, db.sources[source].text) in rows;
    }
  }

  /** The evidence of a segment is determined by the database. */
  lemma EvidenceUnique(a: seq<SourceText>, b: seq<SourceText>, db: StoreSpec.Database, segment: string)
    requires IsEvidence(a, db, segment) && IsEvidence(b, db, segment)
    ensures a == b
  {
    EarlierOrders();
    Sorting.SortedByMembers(a, b, Earlier);
  }

  method SelectEvidence(db: StoreSpec.Database, segment: string) returns (rows: seq<SourceText>)
    ensures IsEvidence(rows, db, segment)
  {
    var found, rest := [], SourcesIn(db, segment);
    while rest != {}
      invariant rest <= SourcesIn(db, segment)
      invariant forall row :: row in found <==> Remains(db, segment, row) && row.id !in rest
      invariant forall i, j | 0 <= i < j < |found| :: found[i].id != found[j].id
    {
      var id :| id in rest;
      rest := rest - {id};
      if id in db.sources && db.sources[id].text != "" {
        found := found + [SourceText(id, db.sources[id].startedAt, db.sources[id].text)];
      }
    }
    forall i, j | 0 <= i < j < |found| ensures Earlier(found[i], found[j]) || Earlier(found[j], found[i]) {
      Sorting.LexTotal(found[i].id, found[j].id);
    }
    EarlierOrders();
    Sorting.SortSorted(found, Earlier);
    Sorting.SortKeeps(found, Earlier);
    Sorting.SameMembers(Sorting.Sort(found, Earlier), found);
    return Sorting.Sort(found, Earlier);
  }

  /** `extraction_run_id` is rendered from the job and the batch's position. */
  datatype RunId = RunId(job: string, index: nat)

  datatype ExtractionBatch = ExtractionBatch(run: RunId, segments: seq<string>, sources: seq<string>, text: string)

  function Weight(s: SourceText): nat { |s.text| }

  function Ids(rows: seq<SourceText>): seq<string> { seq(|rows|, i requires 0 <= i < |rows| => rows[i].id) }

  function Texts(rows: seq<SourceText>): seq<string> { seq(|rows|, i requires 0 <= i < |rows| => rows[i].text) }

  function BatchOf(job: string, segment: string, index: nat, rows: seq<SourceText>): ExtractionBatch {
    ExtractionBatch(RunId(job, index), [segment], Ids(rows), Text.Join(Texts(rows), "\n"))
  }

  /** The batches carry the packed rows: ids and texts stay together and in order. */
  ghost predicate Carries(batches: seq<ExtractionBatch>, packed: seq<seq<SourceText>>, job: string, segment: string) {
    |batches| == |packed| && forall i | 0 <= i < |packed| :: batches[i] == BatchOf(job, segment, i, packed[i])
  }

  method PushBatch(batches: seq<ExtractionBatch>, job: string, segment: string, ids: seq<string>, texts: seq<string>)
    returns (pushed: seq<ExtractionBatch>, noIds: seq<string>, noTexts: seq<string>)
    ensures pushed == batches + [ExtractionBatch(RunId(job, |batches|), [segment], ids, Text.Join(texts, "\n"))]
    ensures noIds == [] && noTexts == []
  {
    pushed := batches + [ExtractionBatch(RunId(job, |batches|), [segment], ids, Text.Join(texts, "\n"))];
    noIds, noTexts := [], [];
  }

  lemma CarriesMore(
      batches: seq<ExtractionBatch>, packed: seq<seq<SourceText>>, job: string, segment: string, rows: seq<SourceText>)
    requires Carries(batches, packed, job, segment)
    ensures Carries(batches + [BatchOf(job, segment, |batches|, rows)], packed + [rows], job, segment)
  {
    hide BatchOf;
  }

  lemma RowsMore(rows: seq<SourceText>, row: SourceText)
    ensures Ids(rows + [row]) == Ids(rows) + [row.id] && Texts(rows + [row]) == Texts(rows) + [row.text]
  {
  }

  lemma NothingPacked(job: string, segment: string)
    ensures Packing([], [], [], Weight) && Carries([], [], job, segment)
    ensures Total([], Weight) == 0 && Ids([]) == [] && Texts([]) == []
  {
  }

  lemma AllPacked(packed: seq<seq<SourceText>>, current: seq<SourceText>, rows: seq<SourceText>)
    requires Packing(packed, current, rows, Weight)
    ensures IsNextFit(if current == [] then packed else packed + [current], rows, Weight)
  {
  }

  /** The packing loop over the rows the query returned. */
  method PackRows(job: string, segment: string, rows: seq<SourceText>)
    returns (r: Result<seq<ExtractionBatch>, ()>, ghost packed: seq<seq<SourceText>>)
    ensures r.Err? <==> exists s | s in rows :: |s.text| > CAPACITY
    ensures r.Ok? ==> IsNextFit(packed, rows, Weight) && Carries(r.value, packed, job, segment)
  {
    hide Packing, IsNextFit, Carries, Ids, Texts, Total;
    packed := [];
    var batches, ids, texts, chars := [], [], [], 0;
    ghost var current: seq<SourceText> := [];
    NothingPacked(job, segment);
    for i := 0 to |rows|
      invariant Packing(packed, current, rows[..i], Weight)
      invariant chars == Total(current, Weight) && ids == Ids(current) && texts == Texts(current)
      invariant |ids| == |current| && Carries(batches, packed, job, segment)
      invariant forall s | s in rows[..i] :: |s.text| <= CAPACITY
    {
      var row := rows[i];
      if |row.text| > CAPACITY { return Err(()), packed; }
      assert rows[..i + 1] == rows[..i] + [row];
      if ids != [] && chars + |row.text| > CAPACITY {
        PackedApart(packed, current, rows[..i], row, Weight);
        CarriesMore(batches, packed, job, segment, current);
        batches, ids, texts := PushBatch(batches, job, segment, ids, texts);
        packed, current, chars := packed + [current], [], 0;
        assert [] + [row] == [row];
      } else {
        PackedOn(packed, current, rows[..i], row, Weight);
      }
      Snoc(current, row, Weight);
      RowsMore(current, row);
      chars := chars + |row.text|;
      ids := ids + [row.id];
      texts := texts + [row.text];
      current := current + [row];
    }
    assert rows[..|rows|] == rows;
    AllPacked(packed, current, rows);
    if ids != [] {
      CarriesMore(batches, packed, job, segment, current);
      batches, ids, texts := PushBatch(batches, job, segment, ids, texts);
      packed := packed + [current];
    }
    return Ok(batches), packed;
  }

  /** The batches of a segment: its remaining evidence, packed; an error exactly when one text is too long. */
  method LoadExtractionBatches(db: StoreSpec.Database, job: string, segment: string)
    returns (r: Result<seq<ExtractionBatch>, ()>, ghost evidence: seq<SourceText>, ghost packed: seq<seq<SourceText>>)
    ensures r.Err? <==> exists row :: Remains(db, segment, row) && |row.text| > CAPACITY
    ensures r.Ok? ==>
      && IsEvidence(evidence, db, segment) && IsNextFit(packed, evidence, Weight)
      && Carries(r.value, packed, job, segment)
  {
    hide IsNextFit, Carries, Remains;
    var rows := SelectEvidence(db, segment);
    evidence := rows;
    r, packed := PackRows(job, segment, rows);
  }

  // ---------- stored evidence always loads ----------

  predicate TextsFit(db: StoreSpec.Database) { forall s | s in db.sources :: |db.sources[s].text| <= CAPACITY }

  lemma MutateTextsFit(db: StoreSpec.Database, plan: MemoryModel.Plan, now: int)
    requires StoreSpec.Mutate(db, plan, now).Ok?
    ensures StoreSpec.Mutate(db, plan, now).value.db.sources == db.sources
  {
    hide StoreSpec.EffectiveCategories, StoreSpec.ToSet, StoreSpec.NoRepeats, StoreSpec.CandidateMemory;
  }

  lemma PlanTextsFit(db: StoreSpec.Database, plan: MemoryModel.Plan, now: int)
    ensures StoreSpec.ApplyPlan(db, plan, now).0.sources == db.sources
  {
    hide StoreSpec.PlanError, StoreSpec.Mutate;
    if StoreSpec.Mutate(db, plan, now).Ok? {
      MutateTextsFit(db, plan, now);
    }
  }

  lemma ServeTextsFit(db: StoreSpec.Database, r: StoreSpec.Request)
    requires TextsFit(db)
    ensures TextsFit(StoreSpec.Serve(db, r))
  {
    hide StoreSpec.ValidManual, StoreSpec.ValidCorrelation, StoreSpec.EffectiveCategories, StoreSpec.ToSet,
      StoreSpec.NoRepeats, StoreSpec.ExclusiveSources, StoreSpec.SurvivingProfiles, StoreSpec.DocumentOf,
      StoreSpec.KeepRecent, StoreSpec.ApplyPlan;
    if r.DoPlan? {
      PlanTextsFit(db, r.plan, r.now);
    }
  }

  lemma {:induction false} RunTextsFit(db: StoreSpec.Database, requests: seq<StoreSpec.Request>)
    requires TextsFit(db)
    ensures TextsFit(StoreSpec.Run(db, requests))
    decreases |requests|
  {
    if requests != [] {
      ServeTextsFit(db, requests[0]);
      RunTextsFit(StoreSpec.Serve(db, requests[0]), requests[1..]);
    }
  }

  /** Main result: after any run the evidence of any segment packs: no stored text is over the bound. */
  lemma {:induction false} StoredEvidenceLoads(
      db: StoreSpec.Database, requests: seq<StoreSpec.Request>, segment: string)
    requires TextsFit(db)
    ensures forall row | Remains(StoreSpec.Run(db, requests), segment, row) :: 0 < |row.text| <= CAPACITY
  {
    RunTextsFit(db, requests);
    hide StoreSpec.Run;
  }

  // ---------- what next fit guarantees ----------

  lemma {:induction false} TotalSplit<T>(a: seq<T>, b: seq<T>, weight: T -> nat)
    ensures Total(a + b, weight) == Total(a, weight) + Total(b, weight)
  {
    if b == [] {
      assert a + b == a;
    } else {
      var n := |b| - 1;
      assert (a + b)[..|a + b| - 1] == a + b[..n];
      TotalSplit(a, b[..n], weight);
    }
  }

  lemma HeadWeighs<T>(b: seq<T>, weight: T -> nat)
    requires b != []
    ensures Total(b, weight) >= weight(b[0])
  {
    assert b == [b[0]] + b[1..];
    TotalSplit([b[0]], b[1..], weight);
  }

  lemma LastTwo<T>(front: seq<seq<T>>, a: seq<T>, b: seq<T>, weight: T -> nat)
    ensures Total(Concat(front + [a] + [b]), weight)
            == Total(Concat(front), weight) + Total(a, weight) + Total(b, weight)
  {
    SnocBatch(front, a);
    SnocBatch(front + [a], b);
    hide Concat;
    TotalSplit(Concat(front) + a, b, weight);
    TotalSplit(Concat(front), a, weight);
  }

  /** Two consecutive batches hold more than one capacity, so packing wastes less than half the space. */
  lemma {:induction false} NextFitBound<T>(batches: seq<seq<T>>, items: seq<T>, weight: T -> nat)
    requires IsNextFit(batches, items, weight)
    ensures (|batches| / 2) * (CAPACITY + 1) <= Total(items, weight)
    decreases |batches|
  {
    if |batches| >= 2 {
      var n := |batches| - 2;
      var last, previous := batches[n + 1], batches[n];
      var front := batches[..n];
      hide Total, Concat;
      assert Tight(batches[n + 1 - 1], batches[n + 1], weight);
      assert batches == front + [previous] + [last];
      assert IsNextFit(front, Concat(front), weight);
      hide IsNextFit;
      HeadWeighs(last, weight);
      LastTwo(front, previous, last, weight);
      NextFitBound(front, Concat(front), weight);
      assert |batches| / 2 == |front| / 2 + 1;
    }
  }

  lemma {:induction false} ConcatCons<T>(b: seq<T>, rest: seq<seq<T>>)
    ensures Concat([b] + rest) == b + Concat(rest)
  {
    if rest == [] {
      assert [b] + rest == [] + [b];
      SnocBatch([], b);
    } else {
      var n := |rest| - 1;
      ConcatCons(b, rest[..n]);
      assert [b] + rest == [b] + rest[..n] + [rest[n]];
      SnocBatch([b] + rest[..n], rest[n]);
    }
  }

  lemma PeelConcat<T>(batches: seq<seq<T>>)
    requires batches != []
    ensures Concat(batches) == batches[0] + Concat(batches[1..])
    ensures batches[1..] == [] ==> Concat(batches[1..]) == []
  {
    assert batches == [batches[0]] + batches[1..];
    ConcatCons(batches[0], batches[1..]);
  }

  lemma Peel<T>(batches: seq<seq<T>>, items: seq<T>, weight: T -> nat)
    requires IsNextFit(batches, items, weight) && batches != []
    ensures Fits(batches[0], weight) && batches[0] <= items
    ensures IsNextFit(batches[1..], items[|batches[0]|..], weight)
    ensures batches[1..] != [] ==>
      |batches[0]| < |items| && Total(batches[0], weight) + weight(items[|batches[0]|]) > CAPACITY
    ensures batches[1..] == [] ==> batches[0] == items
  {
    hide Total;
    var rest := batches[1..];
    PeelConcat(batches);
    hide Concat;
    assert items[|batches[0]|..] == Concat(rest);
    forall i | 1 <= i < |rest| ensures Tight(rest[i - 1], rest[i], weight) {
      assert Tight(batches[i], batches[i + 1], weight);
    }
    if rest != [] {
      assert Tight(batches[0], batches[1], weight);
      PeelConcat(rest);
    }
  }

  lemma NoShorterFirst<T>(a: seq<T>, b: seq<T>, items: seq<T>, weight: T -> nat)
    requires a <= items && b <= items && |a| < |b| && Fits(b, weight)
    ensures Total(a, weight) + weight(items[|a|]) <= CAPACITY
  {
    assert b == a + [items[|a|]] + b[|a| + 1..];
    TotalSplit(a + [items[|a|]], b[|a| + 1..], weight);
    Snoc(a, items[|a|], weight);
  }

  /** Next fit is determined by the items: both packers can only produce this one arrangement. */
  lemma {:induction false} NextFitUnique<T>(a: seq<seq<T>>, b: seq<seq<T>>, items: seq<T>, weight: T -> nat)
    requires IsNextFit(a, items, weight) && IsNextFit(b, items, weight)
    ensures a == b
    decreases |a|
  {
    if a == [] || b == [] {
      assert Concat<T>([]) == [];
      if a != [] { Peel(a, items, weight); }
      if b != [] { Peel(b, items, weight); }
    } else {
      Peel(a, items, weight);
      Peel(b, items, weight);
      if |a[0]| < |b[0]| {
        NoShorterFirst(a[0], b[0], items, weight);
      } else if |b[0]| < |a[0]| {
        NoShorterFirst(b[0], a[0], items, weight);
      }
      hide IsNextFit;
      assert a[0] == b[0];
      NextFitUnique(a[1..], b[1..], items[|a[0]|..], weight);
    }
  }

  // ---------- what it does not guarantee ----------

  /** The validation every extractor applies to a batch. */
  predicate ValidBatch(b: ExtractionBatch) { |b.text| <= CAPACITY && b.segments != [] }

  lemma {:induction false} JoinedLength(texts: seq<string>)
    requires texts != []
    ensures |Text.Join(texts, "\n")| == Total(texts, Length) + |texts| - 1
  {
    if |texts| == 1 {
      assert texts == [] + [texts[0]];
      Snoc([], texts[0], Length);
    } else {
      JoinedLength(texts[1..]);
      assert texts == [texts[0]] + texts[1..];
      TotalSplit([texts[0]], texts[1..], Length);
      assert [texts[0]] == [] + [texts[0]];
      Snoc([], texts[0], Length);
    }
  }

  lemma {:induction false} TextsTotal(rows: seq<SourceText>)
    ensures Total(Texts(rows), Length) == Total(rows, Weight)
  {
    if rows != [] {
      var n := |rows| - 1;
      TextsTotal(rows[..n]);
      assert Texts(rows)[..n] == Texts(rows[..n]);
    }
  }

  /** The separators count too: a packed batch passes validation exactly when its characters and the
      newlines between its texts fit together. */
  lemma LoadedBatchValid(job: string, segment: string, index: nat, rows: seq<SourceText>)
    requires rows != []
    ensures ValidBatch(BatchOf(job, segment, index, rows)) <==> Total(rows, Weight) + |rows| - 1 <= CAPACITY
  {
    JoinedLength(Texts(rows));
    TextsTotal(rows);
  }

  /** Two texts of 6,000 characters are packed together and then refused. */
  lemma PackedButRefused(job: string, segment: string, a: SourceText, b: SourceText)
    requires |a.text| == 6_000 && |b.text| == 6_000
    ensures IsNextFit([[a, b]], [a, b], Weight)
    ensures !ValidBatch(BatchOf(job, segment, 0, [a, b]))
  {
    assert [a, b] == [] + [a] + [b];
    Snoc([], a, Weight);
    Snoc([] + [a], b, Weight);
    SnocBatch([], [a, b]);
    assert [] + [[a, b]] == [[a, b]];
    LoadedBatchValid(job, segment, 0, [a, b]);
  }

  /** The segmenter's own drafts never exceed the bound, so splitting one always succeeds. */
  method SplitDraft(inputs: seq<Event>, reason: Boundary, i: nat) returns (batches: seq<seq<string>>)
    requires i < |Session(None, inputs, reason)|
    ensures IsNextFit(batches, Session(None, inputs, reason)[i].texts, Length)
  {
    var draft := Session(None, inputs, reason)[i];
    ghost var g := SessionDraftsSound(inputs, reason, i);
    var r := SplitExtractionBatches(draft.texts);
    batches := r.value;
  }
}
