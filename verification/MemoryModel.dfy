/** The vocabulary of the structured memory: what a memory records and what a plan may ask for. */
module MemoryModel {
  import opened Wrappers

  /** Memory ids are UUIDs that are never issued twice; here, numbers issued in increasing order. */
  type MemoryId = nat

  datatype AssertionMode = Explicit | Observed | Inferred | Imported | Manual {
    function TrustRank(): nat {
      match this
      case Manual => 5
      case Explicit => 4
      case Imported => 3
      case Observed => 2
      case Inferred => 1
    }

    function ConfidenceCeiling(): real {
      match this
      case Explicit => 1.0
      case Manual => 1.0
      case Observed => 0.9
      case Inferred => 0.75
      case Imported => 0.95
    }
  }

  datatype MemoryType = Preference | Fact | Decision | Episode | Task | Procedure {
    predicate FreshnessSensitive() { Episode? || Task? }
  }

  datatype Status = Active | Superseded | Expired | Forgotten | PendingReview | Rejected

  datatype Sensitivity = Public | Private | Sensitive

  datatype ScopeType = GlobalScope | AppScope | ProjectScope | EntityScope

  datatype Scope = Scope(kind: ScopeType, key: string)

  datatype EntityRole = Subject | Object | Participant | Mentioned | InScope

  datatype EntityLink = EntityLink(entity: string, role: EntityRole)

  /** One row of `memories` with the classification rows that live and die with it. */
  datatype Memory = Memory(
    content: string,
    kind: MemoryType,
    mode: AssertionMode,
    status: Status,
    scope: Scope,
    importance: real,
    confidence: real,
    sensitivity: Sensitivity,
    validFrom: Option<int>,
    validUntil: Option<int>,
    revision: nat,
    updatedAt: int,
    categories: set<string>,
    sourceApps: set<string>,
    appliesTo: set<string>,
    entities: set<EntityLink>)

  /** A candidate for a memory. `mentions` are the entity mentions that resolved to exactly one
      entity, and `privacyAccepted` is the privacy inspection's verdict on the content. */
  datatype Candidate = Candidate(
    content: string,
    kind: MemoryType,
    mode: AssertionMode,
    categories: seq<string>,
    scope: Scope,
    sourceApps: seq<string>,
    appliesTo: seq<string>,
    mentions: seq<EntityLink>,
    importance: real,
    confidence: real,
    validFrom: Option<int>,
    validUntil: Option<int>,
    sources: seq<string>,
    sensitivity: Sensitivity,
    privacyAccepted: bool)

  /** The idempotency key of a plan: extraction run and candidate index. */
  datatype PlanKey = PlanKey(run: string, index: nat)

  datatype Plan =
    | Create(key: PlanKey, candidate: Candidate, status: Status)
    | Duplicate(key: PlanKey, existing: MemoryId, sources: seq<string>, confidence: real)
    | Update(key: PlanKey, existing: MemoryId, candidate: Candidate, status: Status)
    | Extend(key: PlanKey, existing: MemoryId, candidate: Candidate, status: Status)
    | Ignore(key: PlanKey, reason: string)
    | RequestReview(key: PlanKey, candidate: Candidate, reason: string)

  /** The user's input for a memory asserted by hand. */
  datatype ManualInput = ManualInput(
    content: string,
    kind: MemoryType,
    scope: Scope,
    categories: seq<string>,
    appliesTo: seq<string>,
    importance: real,
    sensitivity: Sensitivity,
    validFrom: Option<int>,
    validUntil: Option<int>,
    now: int)

  /** Modes of assertion from the least to the most trusted. */
  const TRUST_ORDER: seq<AssertionMode> := [Inferred, Observed, Imported, Explicit, Manual]

  predicate LessTrusted(a: AssertionMode, b: AssertionMode) {
    exists i, j | 0 <= i < j < |TRUST_ORDER| :: TRUST_ORDER[i] == a && TRUST_ORDER[j] == b
  }

  lemma TrustOrder(a: AssertionMode, b: AssertionMode)
    ensures a.TrustRank() < b.TrustRank() <==> LessTrusted(a, b)
  {
    assert TRUST_ORDER[0].Inferred? && TRUST_ORDER[1].Observed? && TRUST_ORDER[2].Imported?
        && TRUST_ORDER[3].Explicit? && TRUST_ORDER[4].Manual?;
    if a.TrustRank() < b.TrustRank() {
      assert TRUST_ORDER[a.TrustRank() - 1] == a && TRUST_ORDER[b.TrustRank() - 1] == b;
    }
  }
}
