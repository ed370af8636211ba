/** What ranking promises, from the fields of memories, requests and signals alone: who may be shown, what each
    feature of a candidate is worth, and in which order candidates come. */
module RankingLaws {
  import opened Wrappers
  import opened MemoryModel
  import opened Ranking
  import opened Sorting

  // ---------- who may be shown ----------

  /** A memory a request may show: its status is asked for, its sensitivity allowed, and it applies to the
      current app, project or one of the mentioned entities, as far as it is bound to any. */
  predicate Admissible(r: ContextRequest, m: Memory) {
    && (if r.includeHistory then !m.status.Forgotten? && !m.status.Rejected? && !m.status.PendingReview?
        else m.status.Active?)
    && (r.allowance.PublicOnly? ==> m.sensitivity.Public?)
    && (r.allowance.IncludePrivate? ==> !m.sensitivity.Sensitive?)
    && (m.appliesTo != {} ==> exists app | app in m.appliesTo :: r.currentApp == Some(app))
    && (m.scope.kind.AppScope? ==> r.currentApp == Some(m.scope.key))
    && (m.scope.kind.ProjectScope? ==> r.activeProject == Some(m.scope.key))
    && (m.scope.kind.EntityScope? ==> exists e | e in m.entities :: e.entity in r.mentioned)
  }

  lemma EligibleExactly(r: ContextRequest, m: Memory)
    ensures Eligible(r, m) <==> Admissible(r, m)
  {
  }

  lemma {:induction false} ScoredFewer(r: ContextRequest, values: seq<Retrieved>)
    ensures |Scored(r, values)| <= |values|
  {
    if values != [] {
      ScoredFewer(r, values[..|values| - 1]);
      hide Eligible, Score;
    }
  }

  /** The ranking holds each admissible candidate once, with its score, and nothing else. */
  lemma RankedExactly(r: ContextRequest, values: seq<Retrieved>)
    requires DistinctIds(values)
    ensures forall x :: x in Ranked(r, values) <==>
      exists c | c in values :: Admissible(r, c.memory) && x == c.(score := Score(r, c))
    ensures |Ranked(r, values)| <= |values|
    ensures DistinctIds(Ranked(r, values))
  {
    RankedSorted(r, values);
    RankedDistinct(r, values);
    ScoredFewer(r, values);
    assert |Ranked(r, values)| == |multiset(Ranked(r, values))| == |Scored(r, values)|;
    forall c | c in values ensures Eligible(r, c.memory) <==> Admissible(r, c.memory) {
      EligibleExactly(r, c.memory);
    }
    hide Eligible, Admissible, Score, Ranked;
  }

  // ---------- the order ----------

  /** At the first place where the two differ, `a` has ended or holds the smaller code point. */
  predicate ComesFirst(a: string, b: string) {
    exists k | 0 <= k < |b| :: k <= |a| && a[..k] == b[..k] && (k == |a| || a[k] < b[k])
  }

  /** By score, then the more recently updated first, then by id. */
  predicate Precedes(x: Retrieved, y: Retrieved) {
    && x.score >= y.score
    && (x.score == y.score ==> x.memory.updatedAt >= y.memory.updatedAt)
    && (x.score == y.score && x.memory.updatedAt == y.memory.updatedAt ==> ComesFirst(x.id, y.id))
  }

  lemma {:induction false} LexLessExactly(a: string, b: string)
    ensures LexLess(a, b) <==> ComesFirst(a, b)
    decreases |a|
  {
    if a != [] && b != [] && a[0] == b[0] {
      LexLessExactly(a[1..], b[1..]);
      if ComesFirst(a[1..], b[1..]) {
        var k :| 0 <= k < |b[1..]| && k <= |a[1..]| && a[1..][..k] == b[1..][..k]
          && (k == |a[1..]| || a[1..][k] < b[1..][k]);
        assert a[..k + 1] == [a[0]] + a[1..][..k] && b[..k + 1] == [b[0]] + b[1..][..k];
        assert a[..k + 1] == b[..k + 1];
      }
      if ComesFirst(a, b) {
        var k :| 0 <= k < |b| && k <= |a| && a[..k] == b[..k] && (k == |a| || a[k] < b[k]);
        assert k > 0;
        assert a[1..][..k - 1] == a[..k][1..] && b[1..][..k - 1] == b[..k][1..];
        assert a[1..][..k - 1] == b[1..][..k - 1];
      }
    } else if b != [] && (a == [] || a[0] < b[0]) {
      assert a[..0] == b[..0];
    } else {
      forall k | 0 < k < |b| && k <= |a| ensures a[..k] != b[..k] {
        assert a[..k][0] == a[0] && b[..k][0] == b[0];
      }
    }
  }

  lemma RankedInOrder(r: ContextRequest, values: seq<Retrieved>, i: nat, j: nat)
    requires DistinctIds(values) && i < j < |Ranked(r, values)|
    ensures Precedes(Ranked(r, values)[i], Ranked(r, values)[j])
  {
    RankedSorted(r, values);
    var x, y := Ranked(r, values)[i], Ranked(r, values)[j];
    assert RanksBefore(x, y);
    LexLessExactly(x.id, y.id);
    hide Ranked;
  }

  /** Of two admissible candidates the one with the higher score comes first. */
  lemma {:induction false} HigherScoreFirst(r: ContextRequest, values: seq<Retrieved>, a: Retrieved, b: Retrieved)
    returns (i: nat, j: nat)
    requires DistinctIds(values) && a in values && b in values
    requires Admissible(r, a.memory) && Admissible(r, b.memory) && Score(r, a) > Score(r, b)
    ensures i < j < |Ranked(r, values)|
    ensures Ranked(r, values)[i] == a.(score := Score(r, a)) && Ranked(r, values)[j] == b.(score := Score(r, b))
  {
    RankedExactly(r, values);
    hide Admissible, Score, Ranked;
    var x, y := a.(score := Score(r, a)), b.(score := Score(r, b));
    assert x in Ranked(r, values) && y in Ranked(r, values);
    i :| 0 <= i < |Ranked(r, values)| && Ranked(r, values)[i] == x;
    j :| 0 <= j < |Ranked(r, values)| && Ranked(r, values)[j] == y;
    if j < i {
      RankedInOrder(r, values, j, i);
    }
  }

  // ---------- what each feature is worth ----------

  predicate ForThisApp(r: ContextRequest, m: Memory) { exists app | app in m.appliesTo :: r.currentApp == Some(app) }

  predicate NamesMentioned(r: ContextRequest, c: Retrieved) {
    c.signals.alias || exists e | e in c.memory.entities :: e.entity in r.mentioned
  }

  predicate ByTheUser(m: Memory) { m.mode in {Explicit, Manual} }

  predicate ProjectDecision(r: ContextRequest, m: Memory) {
    m.kind.Decision? && m.scope.kind.ProjectScope? && r.activeProject == Some(m.scope.key)
  }

  predicate Ageing(m: Memory) { m.kind in {Episode, Task} }

  /** The nearest point of the unit interval. */
  function Nearest(x: real): real { if x <= 0.0 then 0.0 else if x >= 1.0 then 1.0 else x }

  /** How well a scope fits: a global one by half, an app or project one fully when the request names any, an
      entity one always. */
  function Fit(r: ContextRequest, m: Memory): real {
    if m.scope.kind.GlobalScope? then 0.5
    else if m.scope.kind.AppScope? && r.currentApp.None? then 0.0
    else if m.scope.kind.ProjectScope? && r.activeProject.None? then 0.0
    else 1.0
  }

  function Points(on: bool, points: real): real { if on then points else 0.0 }

  /** The confidence, scaled by the rank of its mode among the five. */
  function Backing(m: Memory): real { (m.mode.TrustRank() as real) * m.confidence }

  lemma BackingScales(m: Memory)
    ensures 0.10 * ((m.mode.TrustRank() as real) / 5.0 * m.confidence) == 0.02 * Backing(m)
  {
    var t, c := m.mode.TrustRank() as real, m.confidence;
    assert t / 5.0 * c == (t * c) / 5.0;
  }

  lemma BlendedSum(r: ContextRequest, c: Retrieved)
    ensures var m, s := c.memory, c.signals;
      Blended(r, c)
      == 0.40 * Nearest(s.semantic) + 0.20 * Nearest(s.fts) + 0.15 * Fit(r, m) + 0.10 * m.importance
         + 0.02 * Backing(m) + 0.05 * (if Ageing(m) then Nearest(s.freshness) else 1.0)
  {
    BackingScales(c.memory);
    assert ScopeMatch(r, c.memory) == Fit(r, c.memory);
    assert UnitClamp(c.signals.semantic) == Nearest(c.signals.semantic);
    assert UnitClamp(c.signals.fts) == Nearest(c.signals.fts);
    assert UnitClamp(c.signals.freshness) == Nearest(c.signals.freshness);
    assert c.memory.kind.FreshnessSensitive() <==> Ageing(c.memory);
    hide ScopeMatch, Fit, UnitClamp, Nearest, Ageing, Backing;
  }

  /** What of a candidate its score depends on. */
  datatype Parts = Parts(
    semantic: real, fts: real, fit: real, importance: real, backing: real, freshness: real,
    decision: bool, app: bool, entity: bool, user: bool)

  function PartsOf(r: ContextRequest, c: Retrieved): Parts {
    Parts(Nearest(c.signals.semantic), Nearest(c.signals.fts), Fit(r, c.memory), c.memory.importance, Backing(c.memory),
          if Ageing(c.memory) then Nearest(c.signals.freshness) else 1.0,
          ProjectDecision(r, c.memory), ForThisApp(r, c.memory), NamesMentioned(r, c), ByTheUser(c.memory))
  }

  /** A score is the weighted sum of its parts. */
  function Sum(p: Parts): real {
    0.40 * p.semantic + 0.20 * p.fts + 0.15 * p.fit + 0.10 * p.importance + 0.02 * p.backing + 0.05 * p.freshness
    + Points(p.decision, 4.0) + Points(p.app, 2.0) + Points(p.entity, 1.0) + Points(p.user, 0.5)
  }

  lemma ScoreSum(r: ContextRequest, c: Retrieved)
    ensures Score(r, c) == Sum(PartsOf(r, c))
  {
    BlendedSum(r, c);
    assert ExactProjectDecision(r, c.memory) <==> ProjectDecision(r, c.memory);
    assert AppliesHere(r, c.memory) <==> ForThisApp(r, c.memory);
    assert EntityMatch(r, c) <==> NamesMentioned(r, c);
    assert HighTrust(c.memory) <==> ByTheUser(c.memory);
    hide Blended, Fit, Nearest, Ageing, Backing, AppliesHere, ForThisApp, EntityMatch, NamesMentioned, HighTrust,
      ByTheUser, ExactProjectDecision, ProjectDecision;
  }

  /** Two candidates alike but for the apps they apply to: the current app is worth two points. */
  lemma AppMatchWorth(r: ContextRequest, a: Retrieved, b: Retrieved, app: string)
    requires a.signals == b.signals && b.memory == a.memory.(appliesTo := b.memory.appliesTo)
    requires r.currentApp == Some(app) && app in a.memory.appliesTo && app !in b.memory.appliesTo
    ensures Score(r, a) == Score(r, b) + 2.0
  {
    var p, q := PartsOf(r, a), PartsOf(r, b);
    assert p == q.(app := true) && !q.app;
    hide PartsOf, Score;
    ScoreSum(r, a);
    ScoreSum(r, b);
  }

  /** Alike but for entities: a mentioned entity or an alias match is worth one point. */
  lemma EntityMatchWorth(r: ContextRequest, a: Retrieved, b: Retrieved)
    requires b.signals == a.signals.(alias := b.signals.alias)
    requires b.memory == a.memory.(entities := b.memory.entities)
    requires NamesMentioned(r, a) && !NamesMentioned(r, b)
    ensures Score(r, a) == Score(r, b) + 1.0
  {
    var p, q := PartsOf(r, a), PartsOf(r, b);
    assert p == q.(entity := true) && !q.entity;
    hide PartsOf, Score;
    ScoreSum(r, a);
    ScoreSum(r, b);
  }

  /** Alike but for mode and confidence: what the user said is worth half a point, and its backing two
      hundredths. */
  lemma TrustWorth(r: ContextRequest, a: Retrieved, b: Retrieved)
    requires a.signals == b.signals
    requires b.memory == a.memory.(mode := b.memory.mode, confidence := b.memory.confidence)
    ensures Score(r, a) - Score(r, b)
      == Points(ByTheUser(a.memory), 0.5) - Points(ByTheUser(b.memory), 0.5)
         + 0.02 * (Backing(a.memory) - Backing(b.memory))
  {
    var p, q := PartsOf(r, a), PartsOf(r, b);
    assert p == q.(backing := Backing(a.memory), user := ByTheUser(a.memory))
      && q.backing == Backing(b.memory) && q.user == ByTheUser(b.memory);
    hide PartsOf, Score, Backing, ByTheUser;
    ScoreSum(r, a);
    ScoreSum(r, b);
  }

  /** Alike but for the kind: a decision of the active project is worth four points, and an episode or a task
      loses what it lacks in freshness. */
  lemma DecisionWorth(r: ContextRequest, a: Retrieved, b: Retrieved)
    requires a.signals == b.signals && b.memory == a.memory.(kind := b.memory.kind)
    requires a.memory.kind.Decision? && !b.memory.kind.Decision?
    ensures Score(r, a) - Score(r, b)
      == Points(a.memory.scope.kind.ProjectScope? && r.activeProject == Some(a.memory.scope.key), 4.0)
         + Points(Ageing(b.memory), 0.05 * (1.0 - Nearest(b.signals.freshness)))
  {
    var p, q := PartsOf(r, a), PartsOf(r, b);
    assert p == q.(freshness := 1.0, decision := p.decision) && !q.decision;
    assert p.decision <==> a.memory.scope.kind.ProjectScope? && r.activeProject == Some(a.memory.scope.key);
    assert q.freshness == if Ageing(b.memory) then Nearest(b.signals.freshness) else 1.0;
    hide PartsOf, Score, Ageing, Nearest;
    ScoreSum(r, a);
    ScoreSum(r, b);
  }

  /** Alike but for the signals: similarity, text match and, for an ageing kind, freshness add their shares of the
      difference, a signal outside the unit interval counting as its nearer end. */
  lemma SignalsWorth(r: ContextRequest, a: Retrieved, b: Retrieved)
    requires a.memory == b.memory && a.signals.alias == b.signals.alias
    ensures Score(r, a) - Score(r, b)
      == 0.40 * (Nearest(a.signals.semantic) - Nearest(b.signals.semantic))
         + 0.20 * (Nearest(a.signals.fts) - Nearest(b.signals.fts))
         + Points(Ageing(a.memory), 0.05 * (Nearest(a.signals.freshness) - Nearest(b.signals.freshness)))
  {
    ScoreSum(r, a);
    ScoreSum(r, b);
    assert NamesMentioned(r, a) == NamesMentioned(r, b);
    hide Score, Fit, Backing, Nearest, NamesMentioned, ForThisApp, Ageing, ByTheUser, ProjectDecision;
  }

  /** Alike but for importance: a tenth of the difference. */
  lemma ImportanceWorth(r: ContextRequest, a: Retrieved, b: Retrieved)
    requires a.signals == b.signals && b.memory == a.memory.(importance := b.memory.importance)
    ensures Score(r, a) - Score(r, b) == 0.10 * (a.memory.importance - b.memory.importance)
  {
    var p, q := PartsOf(r, a), PartsOf(r, b);
    assert p == q.(importance := a.memory.importance) && q.importance == b.memory.importance;
    hide PartsOf, Score;
    ScoreSum(r, a);
    ScoreSum(r, b);
  }

  /** Alike but for the scope, and no decisions: fifteen hundredths of the difference in fit. */
  lemma ScopeWorth(r: ContextRequest, a: Retrieved, b: Retrieved)
    requires a.signals == b.signals && b.memory == a.memory.(scope := b.memory.scope) && !a.memory.kind.Decision?
    ensures Score(r, a) - Score(r, b) == 0.15 * (Fit(r, a.memory) - Fit(r, b.memory))
  {
    var p, q := PartsOf(r, a), PartsOf(r, b);
    assert p == q.(fit := Fit(r, a.memory)) && q.fit == Fit(r, b.memory);
    hide PartsOf, Score, Fit;
    ScoreSum(r, a);
    ScoreSum(r, b);
  }

  /** Main result: of two candidates alike but for their matches, one that applies to the current app is ranked
      before one that is only about a mentioned entity. */
  lemma AppBeforeEntity(r: ContextRequest, values: seq<Retrieved>, a: Retrieved, b: Retrieved, app: string)
    returns (i: nat, j: nat)
    requires DistinctIds(values) && a in values && b in values
    requires Admissible(r, a.memory) && Admissible(r, b.memory)
    requires b.signals == a.signals.(alias := b.signals.alias)
    requires b.memory == a.memory.(appliesTo := b.memory.appliesTo, entities := b.memory.entities)
    requires r.currentApp == Some(app) && app in a.memory.appliesTo && app !in b.memory.appliesTo
    requires NamesMentioned(r, b) && !NamesMentioned(r, a)
    ensures i < j < |Ranked(r, values)|
    ensures Ranked(r, values)[i].id == a.id && Ranked(r, values)[j].id == b.id
    ensures Ranked(r, values)[i].score == Ranked(r, values)[j].score + 1.0
  {
    var both := a.(memory := a.memory.(entities := b.memory.entities), signals := b.signals);
    AppMatchWorth(r, both, b, app);
    EntityMatchWorth(r, both, a);
    hide Score, Admissible, Ranked, NamesMentioned;
    i, j := HigherScoreFirst(r, values, a, b);
  }
}
