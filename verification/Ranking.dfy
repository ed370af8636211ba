/** Context ranking: which memories are eligible for a request, their score over the reals, and their order. */
module Ranking {
  import opened Wrappers
  import opened MemoryModel
  import opened Sorting

  datatype Allowance = PublicOnly | IncludePrivate | IncludeSensitive {
    predicate Allows(s: Sensitivity) {
      s.Public? || ((IncludePrivate? || IncludeSensitive?) && s.Private?) || IncludeSensitive?
    }
  }

  datatype ContextRequest = ContextRequest(
    currentApp: Option<string>,
    activeProject: Option<string>,
    query: string,
    mentioned: seq<string>,
    includeHistory: bool,
    allowance: Allowance,
    budget: nat)

  datatype Signals = Signals(semantic: real, fts: real, freshness: real, alias: bool)

  datatype Retrieved = Retrieved(
    id: string, memory: Memory, createdAt: int, signals: Signals, score: real, sourceTimestamp: Option<int>)

  // ---------- eligibility and score ----------

  predicate MentionsAny(m: Memory, mentioned: seq<string>) { exists e | e in m.entities :: e.entity in mentioned }

  predicate AppliesHere(r: ContextRequest, m: Memory) { r.currentApp.Some? && r.currentApp.value in m.appliesTo }

  predicate Eligible(r: ContextRequest, m: Memory) {
    && (!r.includeHistory ==> m.status.Active?)
    && !(m.status.Forgotten? || m.status.Rejected? || m.status.PendingReview?)
    && r.allowance.Allows(m.sensitivity)
    && (m.appliesTo != {} ==> AppliesHere(r, m))
    && match m.scope.kind
       case GlobalScope => true
       case AppScope => r.currentApp == Some(m.scope.key)
       case ProjectScope => r.activeProject == Some(m.scope.key)
       case EntityScope => MentionsAny(m, r.mentioned)
  }

  function UnitClamp(x: real): real { if x < 0.0 then 0.0 else if x > 1.0 then 1.0 else x }

  function ScopeMatch(r: ContextRequest, m: Memory): real {
    match m.scope.kind
    case GlobalScope => 0.5
    case AppScope => if r.currentApp.Some? then 1.0 else 0.0
    case ProjectScope => if r.activeProject.Some? then 1.0 else 0.0
    case EntityScope => 1.0
  }

  function Blended(r: ContextRequest, c: Retrieved): real {
    var m := c.memory;
    var freshness := if m.kind.FreshnessSensitive() then UnitClamp(c.signals.freshness) else 1.0;
    var trust := (m.mode.TrustRank() as real) / 5.0 * m.confidence;
    0.40 * UnitClamp(c.signals.semantic) + 0.20 * UnitClamp(c.signals.fts) + 0.15 * ScopeMatch(r, m)
      + 0.10 * m.importance + 0.10 * trust + 0.05 * freshness
  }

  predicate ExactProjectDecision(r: ContextRequest, m: Memory) {
    m.kind.Decision? && m.scope.kind.ProjectScope? && r.activeProject == Some(m.scope.key)
  }

  predicate EntityMatch(r: ContextRequest, c: Retrieved) { c.signals.alias || MentionsAny(c.memory, r.mentioned) }

  predicate HighTrust(m: Memory) { m.mode.Explicit? || m.mode.Manual? }

  function Boost(on: bool, amount: real): real { if on then amount else 0.0 }

  function Score(r: ContextRequest, c: Retrieved): real {
    Blended(r, c)
      + Boost(ExactProjectDecision(r, c.memory), 4.0)
      + Boost(AppliesHere(r, c.memory), 2.0)
      + Boost(EntityMatch(r, c), 1.0)
      + Boost(HighTrust(c.memory), 0.5)
  }

  predicate UnitScaled(m: Memory) { 0.0 <= m.importance <= 1.0 && 0.0 <= m.confidence <= 1.0 }

  lemma TrustShare(m: Memory)
    requires UnitScaled(m)
    ensures 0.0 <= (m.mode.TrustRank() as real) / 5.0 * m.confidence <= 1.0
  {
    var share := (m.mode.TrustRank() as real) / 5.0;
    assert 0.0 <= share <= 1.0;
    assert share * m.confidence <= 1.0 * m.confidence;
  }

  lemma BlendedBounds(r: ContextRequest, c: Retrieved)
    requires UnitScaled(c.memory)
    ensures 0.0 <= Blended(r, c) <= 1.0
    ensures ExactProjectDecision(r, c.memory) ==> Blended(r, c) >= 0.2
  {
    TrustShare(c.memory);
  }

  lemma ScoreBounds(r: ContextRequest, c: Retrieved)
    requires UnitScaled(c.memory)
    ensures 0.0 <= Score(r, c) <= 8.5
  {
    BlendedBounds(r, c);
    hide Blended;
  }

  predicate AllBoosts(r: ContextRequest, c: Retrieved) {
    AppliesHere(r, c.memory) && EntityMatch(r, c) && HighTrust(c.memory)
  }

  predicate NoBoost(r: ContextRequest, c: Retrieved) {
    !AppliesHere(r, c.memory) && !EntityMatch(r, c) && !HighTrust(c.memory)
  }

  /** Main result: an exact project decision outranks every other memory unless it has no boost of its own,
      the other has all three, and the other's blended score is at least half a point above. */
  lemma DecisionOutranks(r: ContextRequest, d: Retrieved, c: Retrieved)
    requires UnitScaled(d.memory) && UnitScaled(c.memory)
    requires ExactProjectDecision(r, d.memory) && !ExactProjectDecision(r, c.memory)
    ensures Score(r, d) > Score(r, c)
      <==> !(AllBoosts(r, c) && NoBoost(r, d) && Blended(r, c) >= Blended(r, d) + 0.5)
  {
    BlendedBounds(r, d);
    BlendedBounds(r, c);
    hide Blended;
  }

  /** An exact project decision yields only to a memory whose similarity is at least a quarter. */
  lemma {:induction false} DecisionNeedsSimilarity(r: ContextRequest, d: Retrieved, c: Retrieved)
    requires UnitScaled(d.memory) && UnitScaled(c.memory)
    requires ExactProjectDecision(r, d.memory) && !ExactProjectDecision(r, c.memory)
    ensures Score(r, d) <= Score(r, c) ==> c.signals.semantic >= 0.25
  {
    BlendedBounds(r, d);
    DecisionOutranks(r, d, c);
    TrustShare(c.memory);
    assert Blended(r, c) <= 0.40 * UnitClamp(c.signals.semantic) + 0.6;
    hide Blended, Score;
  }

  /** The exception needs a similarity: a preference with all boosts and full signals beats a decision that
      matches nothing else. */
  lemma DecisionCanLose(r: ContextRequest, d: Retrieved, c: Retrieved, app: string)
    requires r.currentApp == Some(app) && r.activeProject == Some(d.memory.scope.key)
    requires d.memory.kind.Decision? && d.memory.scope.kind.ProjectScope? && d.memory.appliesTo == {}
    requires d.memory.mode.Inferred? && d.memory.importance == 0.0 && d.memory.confidence == 0.0
    requires d.signals == Signals(0.0, 0.0, 0.0, false) && d.memory.entities == {}
    requires c.memory.kind.Preference? && c.memory.scope.kind.AppScope? && c.memory.appliesTo == {app}
    requires c.memory.mode.Manual? && c.memory.importance == 1.0 && c.memory.confidence == 1.0
    requires c.signals == Signals(1.0, 1.0, 1.0, true)
    ensures ExactProjectDecision(r, d.memory) && Score(r, d) == 4.2 && Score(r, c) == 4.5
  {
  }

  // ---------- the order ----------

  predicate RanksBefore(a: Retrieved, b: Retrieved) {
    || a.score > b.score
    || (a.score == b.score
        && (|| a.memory.updatedAt > b.memory.updatedAt
            || (a.memory.updatedAt == b.memory.updatedAt && LexLess(a.id, b.id))))
  }

  lemma RanksBeforeOrders()
    ensures Asymmetric(RanksBefore) && Transitive(RanksBefore)
  {
    forall a, b | RanksBefore(a, b) ensures !RanksBefore(b, a) {
      if LexLess(a.id, b.id) { LexAsymmetric(a.id, b.id); }
    }
    forall a, b, c | RanksBefore(a, b) && RanksBefore(b, c) ensures RanksBefore(a, c) {
      if LexLess(a.id, b.id) && LexLess(b.id, c.id) { LexTransitive(a.id, b.id, c.id); }
    }
  }

  ghost predicate DistinctIds(s: seq<Retrieved>) { forall i, j | 0 <= i < j < |s| :: s[i].id != s[j].id }

  function Scored(r: ContextRequest, candidates: seq<Retrieved>): seq<Retrieved> {
    if candidates == [] then []
    else
      var n := |candidates| - 1;
      var c := candidates[n];
      Scored(r, candidates[..n]) + if Eligible(r, c.memory) then [c.(score := Score(r, c))] else []
  }

  function Ranked(r: ContextRequest, candidates: seq<Retrieved>): seq<Retrieved> {
    Sort(Scored(r, candidates), RanksBefore)
  }

  method RankMemories(r: ContextRequest, candidates: seq<Retrieved>) returns (ranked: seq<Retrieved>)
    ensures ranked == Ranked(r, candidates)
  {
    var eligible := [];
    for i := 0 to |candidates|
      invariant eligible == Scored(r, candidates[..i])
    {
      assert candidates[..i + 1][..i] == candidates[..i];
      if Eligible(r, candidates[i].memory) {
        eligible := eligible + [candidates[i].(score := Score(r, candidates[i]))];
      }
    }
    assert candidates[..|candidates|] == candidates;
    ranked := Sort(eligible, RanksBefore);
  }

  lemma {:induction false} ScoredIds(r: ContextRequest, candidates: seq<Retrieved>)
    ensures forall x | x in Scored(r, candidates) ::
      exists c | c in candidates :: Eligible(r, c.memory) && x == c.(score := Score(r, c))
    ensures forall c | c in candidates && Eligible(r, c.memory) :: c.(score := Score(r, c)) in Scored(r, candidates)
  {
    if candidates != [] {
      var n := |candidates| - 1;
      ScoredIds(r, candidates[..n]);
      hide Eligible, Score;
      assert candidates == candidates[..n] + [candidates[n]];
    }
  }

  lemma {:induction false} ScoredDistinct(r: ContextRequest, candidates: seq<Retrieved>)
    requires DistinctIds(candidates)
    ensures DistinctIds(Scored(r, candidates))
  {
    hide Eligible, Score;
    if candidates != [] {
      var n := |candidates| - 1;
      var before := candidates[..n];
      ScoredDistinct(r, before);
      ScoredIds(r, before);
      forall x | x in Scored(r, before) ensures x.id != candidates[n].id {
        var c :| c in before && x == c.(score := Score(r, c));
        var k :| 0 <= k < n && candidates[k] == c;
      }
    }
  }

  lemma DistinctComparable(s: seq<Retrieved>)
    requires DistinctIds(s)
    ensures Comparable(s, RanksBefore)
  {
    forall i, j | 0 <= i < j < |s| ensures RanksBefore(s[i], s[j]) || RanksBefore(s[j], s[i]) {
      LexTotal(s[i].id, s[j].id);
    }
  }

  lemma {:induction false} ScoredAppend(r: ContextRequest, a: seq<Retrieved>, b: seq<Retrieved>)
    ensures Scored(r, a + b) == Scored(r, a) + Scored(r, b)
  {
    if b == [] {
      assert a + b == a;
    } else {
      var n := |b| - 1;
      ScoredAppend(r, a, b[..n]);
      assert (a + b)[..|a + b| - 1] == a + b[..n];
      hide Eligible, Score;
    }
  }

  lemma ScoredRemove(r: ContextRequest, a: seq<Retrieved>, c: Retrieved, b: seq<Retrieved>)
    ensures multiset(Scored(r, a + [c] + b)) == multiset(Scored(r, a + b)) + multiset(Scored(r, [c]))
  {
    ScoredAppend(r, a + [c], b);
    ScoredAppend(r, a, [c]);
    ScoredAppend(r, a, b);
  }

  lemma {:induction false} ScoredCounts(r: ContextRequest, a: seq<Retrieved>, b: seq<Retrieved>)
    requires multiset(a) == multiset(b)
    ensures multiset(Scored(r, a)) == multiset(Scored(r, b))
    decreases |a|
  {
    hide Scored;
    if a == [] {
      assert |multiset(b)| == |b|;
      assert b == a;
    } else {
      var n := |a| - 1;
      var c := a[n];
      assert a == a[..n] + [c];
      assert multiset(a) == multiset(a[..n]) + multiset{c};
      SameMembers(a, b);
      assert c in a;
      var before, after := Extract(b, c);
      assert multiset(before + after) == multiset(a[..n]);
      ScoredCounts(r, a[..n], before + after);
      ScoredAppend(r, a[..n], [c]);
      ScoredRemove(r, before, c, after);
    }
  }

  /** Main result: the ranking is a strictly sorted permutation of the scored eligible candidates. */
  lemma RankedSorted(r: ContextRequest, candidates: seq<Retrieved>)
    requires DistinctIds(candidates)
    ensures Sorted(Ranked(r, candidates), RanksBefore)
    ensures multiset(Ranked(r, candidates)) == multiset(Scored(r, candidates))
    ensures forall x :: x in Ranked(r, candidates) <==>
      exists c | c in candidates :: Eligible(r, c.memory) && x == c.(score := Score(r, c))
  {
    ScoredIds(r, candidates);
    ScoredDistinct(r, candidates);
    DistinctComparable(Scored(r, candidates));
    RanksBeforeOrders();
    SortSorted(Scored(r, candidates), RanksBefore);
    SortKeeps(Scored(r, candidates), RanksBefore);
    SameMembers(Ranked(r, candidates), Scored(r, candidates));
    hide Eligible, Score;
  }

  /** Main result: the ranking does not depend on the order in which candidates were retrieved. */
  lemma RankedIgnoresArrival(r: ContextRequest, a: seq<Retrieved>, b: seq<Retrieved>)
    requires multiset(a) == multiset(b) && DistinctIds(a) && DistinctIds(b)
    ensures Ranked(r, a) == Ranked(r, b)
  {
    ScoredCounts(r, a, b);
    ScoredDistinct(r, a);
    ScoredDistinct(r, b);
    DistinctComparable(Scored(r, a));
    DistinctComparable(Scored(r, b));
    RanksBeforeOrders();
    SortIgnoresArrival(Scored(r, a), Scored(r, b), RanksBefore);
  }

  lemma {:induction false} TwiceIsTwice(a: seq<Retrieved>, x: Retrieved)
    requires DistinctIds(a)
    ensures multiset(a)[x] <= 1
  {
    if a != [] {
      var n := |a| - 1;
      assert a == a[..n] + [a[n]];
      TwiceIsTwice(a[..n], x);
      if x == a[n] {
        assert x !in a[..n];
      }
    }
  }

  lemma {:induction false} DistinctById(a: seq<Retrieved>, b: seq<Retrieved>)
    requires multiset(a) == multiset(b) && DistinctIds(a)
    ensures DistinctIds(b)
  {
    forall i, j | 0 <= i < j < |b| ensures b[i].id != b[j].id {
      if b[i].id == b[j].id {
        assert b[i] in multiset(a) && b[j] in multiset(a);
        assert b == b[..i] + [b[i]] + b[i + 1..j] + [b[j]] + b[j + 1..];
        assert multiset(b)[b[i]] >= (if b[i] == b[j] then 2 else 1);
        TwiceIsTwice(a, b[i]);
      }
    }
  }

  lemma RankedDistinct(request: ContextRequest, values: seq<Retrieved>)
    requires DistinctIds(values)
    ensures DistinctIds(Ranked(request, values))
  {
    ScoredDistinct(request, values);
    SortKeeps(Scored(request, values), RanksBefore);
    DistinctById(Scored(request, values), Ranked(request, values));
  }
}
