/** Reconciliation: which mutation a validated candidate asks for, given its matches. */
module Reconcile {
  import opened Wrappers
  import opened MemoryModel

  datatype Relationship = ExactDuplicate | Updates | Extends | Contradicts | Related

  datatype Match = Match(id: MemoryId, memory: Memory, relationship: Relationship, confidence: real)

  datatype Input = Input(
    key: PlanKey,
    candidate: Candidate,
    matches: seq<Match>,
    observations: nat,
    segments: nat)

  datatype ReconciliationError = InvalidMatchConfidence | DuplicateTargetNotActive

  function Max(a: real, b: real): real { if a < b then b else a }

  function Min(a: real, b: real): real { if b < a then b else a }

  predicate ValidConfidences(matches: seq<Match>) {
    forall m | m in matches :: 0.0 <= m.confidence <= 1.0
  }

  /** The best match so far: a later match wins a tie, as `max_by` keeps its last maximum. */
  function BestMatch(matches: seq<Match>, relationship: Relationship): (best: Option<Match>)
    ensures best.None? <==> forall m | m in matches :: m.relationship != relationship
    ensures best.Some? ==>
      exists i | 0 <= i < |matches| ::
        && matches[i] == best.value && matches[i].relationship == relationship
        && (forall j | 0 <= j < |matches| && matches[j].relationship == relationship ::
              matches[j].confidence <= best.value.confidence
              && (j > i ==> matches[j].confidence < best.value.confidence))
  {
    if matches == [] then None
    else
      var last := matches[|matches| - 1];
      var rest := BestMatch(matches[..|matches| - 1], relationship);
      if last.relationship != relationship || (rest.Some? && rest.value.confidence > last.confidence) then rest
      else Some(last)
  }

  function PromotionStatus(c: Candidate, observations: nat, segments: nat): Status {
    if c.mode.Observed? && c.kind.Preference? && (observations < 3 || segments < 2) then PendingReview
    else if c.mode.Inferred? && c.sensitivity.Sensitive? then PendingReview
    else Active
  }

  function ReviewReason(observations: nat, segments: nat): string {
    if observations < 3 || segments < 2 then
      "observed preference requires three observations across two activity segments"
    else "sensitive inferred memory requires review"
  }

  function UpdateMatch(matches: seq<Match>): Option<Match> {
    var updates := BestMatch(matches, Updates);
    if updates.Some? then updates else BestMatch(matches, Contradicts)
  }

  function ReconcileCandidate(input: Input): Result<Plan, ReconciliationError> {
    var c := input.candidate;
    var status := PromotionStatus(c, input.observations, input.segments);
    var duplicate := BestMatch(input.matches, ExactDuplicate);
    var update := UpdateMatch(input.matches);
    var extend := BestMatch(input.matches, Extends);
    if !ValidConfidences(input.matches) then Err(InvalidMatchConfidence)
    else if duplicate.Some? then
      var m := duplicate.value;
      if !m.memory.status.Active? then Err(DuplicateTargetNotActive)
      else
        var raised := Min(Max(m.memory.confidence, c.confidence), c.mode.ConfidenceCeiling());
        Ok(Duplicate(input.key, m.id, c.sources, raised))
    else if update.Some? then
      var m := update.value;
      if c.mode.TrustRank() < m.memory.mode.TrustRank() then
        Ok(RequestReview(input.key, c, "lower-trust assertion cannot supersede higher-trust memory"))
      else if !status.Active? then
        Ok(RequestReview(input.key, c, "candidate is not eligible to supersede an active memory"))
      else Ok(Update(input.key, m.id, c, status))
    else if extend.Some? then Ok(Extend(input.key, extend.value.id, c, status))
    else if status.PendingReview? then
      Ok(RequestReview(input.key, c, ReviewReason(input.observations, input.segments)))
    else Ok(Create(input.key, c, status))
  }

  /** The statuses a reconciled plan may carry, and what it promises about its target. */
  predicate Reconciled(plan: Plan) {
    match plan
    case Create(_, _, status) => status.Active?
    case Update(_, _, _, status) => status.Active?
    case Extend(_, _, _, status) => status.Active? || status.PendingReview?
    case Duplicate(_, _, _, _) => true
    case Ignore(_, _) => true
    case RequestReview(_, _, _) => true
  }

  /** A plan never promotes what policy holds for review: an under-supported observed preference or a
      sensitive inference reaches `active` neither directly nor by superseding; a superseding plan
      names a match it is at least as trusted as; and no plan is ever `Ignore`. */
  lemma ReconciledPlans(input: Input)
    requires ReconcileCandidate(input).Ok?
    ensures Reconciled(ReconcileCandidate(input).value) && ReconcileCandidate(input).value.key == input.key
    ensures !ReconcileCandidate(input).value.Ignore?
    ensures var plan := ReconcileCandidate(input).value;
      plan.Create? || plan.Update? || (plan.Extend? && plan.status.Active?) ==>
        && !(input.candidate.mode.Inferred? && input.candidate.sensitivity.Sensitive?)
        && (input.candidate.mode.Observed? && input.candidate.kind.Preference? ==>
              input.observations >= 3 && input.segments >= 2)
    ensures var plan := ReconcileCandidate(input).value;
      plan.Update? ==>
        exists m | m in input.matches ::
          && (m.relationship.Updates? || m.relationship.Contradicts?)
          && m.id == plan.existing && m.memory.mode.TrustRank() <= input.candidate.mode.TrustRank()
    ensures var plan := ReconcileCandidate(input).value;
      plan.Duplicate? ==>
        exists m | m in input.matches ::
          m.relationship.ExactDuplicate? && m.id == plan.existing && m.memory.status.Active?
  {
    var plan := ReconcileCandidate(input).value;
    if plan.Update? {
      assert UpdateMatch(input.matches).value in input.matches;
    } else if plan.Duplicate? {
      assert BestMatch(input.matches, ExactDuplicate).value in input.matches;
    }
  }

  // ---------- which plan is due ----------

  predicate BestAt(matches: seq<Match>, relationship: Relationship, i: nat)
    requires i < |matches|
  {
    && matches[i].relationship == relationship
    && forall j | 0 <= j < |matches| && matches[j].relationship == relationship ::
         || matches[j].confidence < matches[i].confidence
         || (matches[j].confidence == matches[i].confidence && j <= i)
  }

  /** Of the matches of one relationship the last among those of greatest confidence. */
  ghost predicate Best(matches: seq<Match>, relationship: Relationship, m: Match) {
    exists i | 0 <= i < |matches| :: BestAt(matches, relationship, i) && matches[i] == m
  }

  predicate Unmatched(matches: seq<Match>, relationship: Relationship) {
    forall m | m in matches :: m.relationship != relationship
  }

  lemma BestIsBest(matches: seq<Match>, relationship: Relationship)
    ensures BestMatch(matches, relationship).None? <==> Unmatched(matches, relationship)
    ensures forall m :: BestMatch(matches, relationship) == Some(m) <==> Best(matches, relationship, m)
  {
    var best := BestMatch(matches, relationship);
    hide BestMatch;
    if best.Some? {
      var i :| 0 <= i < |matches| && matches[i] == best.value && matches[i].relationship == relationship
        && forall j | 0 <= j < |matches| && matches[j].relationship == relationship ::
             matches[j].confidence <= best.value.confidence
             && (j > i ==> matches[j].confidence < best.value.confidence);
      assert BestAt(matches, relationship, i);
      forall k | 0 <= k < |matches| && BestAt(matches, relationship, k) ensures k == i {}
    } else {
      forall i | 0 <= i < |matches| ensures !BestAt(matches, relationship, i) {
        assert matches[i] in matches;
      }
    }
  }

  /** The match a candidate would replace: the best update or, with none, the best contradiction. */
  ghost predicate Replaces(matches: seq<Match>, m: Match) {
    || Best(matches, Updates, m)
    || (Unmatched(matches, Updates) && Best(matches, Contradicts, m))
  }

  /** Enough support to become active: an observed preference needs three observations in two segments, and
      a sensitive inference is never enough. */
  predicate Supported(c: Candidate, observations: nat, segments: nat) {
    && (c.mode.Observed? && c.kind.Preference? ==> observations >= 3 && segments >= 2)
    && (c.mode.Inferred? ==> !c.sensitivity.Sensitive?)
  }

  /** Reconciliation fails exactly for a confidence outside the unit interval or an inactive best duplicate. */
  lemma ReconcileRefusals(input: Input)
    ensures var r := ReconcileCandidate(input);
      && (r == Err(InvalidMatchConfidence) <==>
            exists m | m in input.matches :: m.confidence < 0.0 || m.confidence > 1.0)
      && (r == Err(DuplicateTargetNotActive) <==>
            && (forall m | m in input.matches :: 0.0 <= m.confidence <= 1.0)
            && exists m :: Best(input.matches, ExactDuplicate, m) && !m.memory.status.Active?)
  {
    BestIsBest(input.matches, ExactDuplicate);
    hide BestMatch, Best, PromotionStatus, UpdateMatch;
  }

  predicate DuplicateConfidence(existing: real, c: Candidate, confidence: real) {
    var ceiling := c.mode.ConfidenceCeiling();
    && confidence <= ceiling
    && (existing <= ceiling && c.confidence <= ceiling ==>
          existing <= confidence && c.confidence <= confidence && confidence in {existing, c.confidence})
    && (existing > ceiling || c.confidence > ceiling ==> confidence == ceiling)
  }

  /** Main result: a duplicate is due exactly when the best exact duplicate is active; its confidence is the
      greater of the two, cut at the ceiling of the candidate's mode. */
  lemma DuplicateDue(input: Input)
    requires forall m | m in input.matches :: 0.0 <= m.confidence <= 1.0
    ensures var r := ReconcileCandidate(input);
      && (r.Ok? && r.value.Duplicate? <==>
            exists m :: Best(input.matches, ExactDuplicate, m) && m.memory.status.Active?)
      && (forall m | Best(input.matches, ExactDuplicate, m) && m.memory.status.Active? ::
            r == Ok(Duplicate(input.key, m.id, input.candidate.sources, r.value.confidence))
            && DuplicateConfidence(m.memory.confidence, input.candidate, r.value.confidence))
  {
    BestIsBest(input.matches, ExactDuplicate);
    hide BestMatch, Best, PromotionStatus, UpdateMatch;
  }

  /** Main result: an update of a memory is due exactly when there is no exact duplicate, the memory is the one
      to replace, the candidate is at least as trusted as it, and the candidate is supported. */
  lemma UpdateDue(input: Input, id: MemoryId)
    requires forall m | m in input.matches :: 0.0 <= m.confidence <= 1.0
    ensures var r := ReconcileCandidate(input);
      && (r == Ok(Update(input.key, id, input.candidate, Active)) <==>
            && Unmatched(input.matches, ExactDuplicate)
            && Supported(input.candidate, input.observations, input.segments)
            && exists m :: && Replaces(input.matches, m) && m.id == id
                           && input.candidate.mode.TrustRank() >= m.memory.mode.TrustRank())
      && (r.Ok? && r.value.Update? ==> r.value == Update(input.key, r.value.existing, input.candidate, Active))
  {
    BestIsBest(input.matches, ExactDuplicate);
    BestIsBest(input.matches, Updates);
    BestIsBest(input.matches, Contradicts);
    hide BestMatch, Best;
  }

  /** Main result: an extension is due exactly when its memory is the best one to extend and nothing is to be
      duplicated or replaced; it becomes active exactly with enough support. */
  lemma ExtensionDue(input: Input, id: MemoryId)
    requires forall m | m in input.matches :: 0.0 <= m.confidence <= 1.0
    ensures var r := ReconcileCandidate(input);
      var status := if Supported(input.candidate, input.observations, input.segments) then Active else PendingReview;
      && (r == Ok(Extend(input.key, id, input.candidate, status)) <==>
            && Unmatched(input.matches, ExactDuplicate)
            && Unmatched(input.matches, Updates) && Unmatched(input.matches, Contradicts)
            && exists m :: Best(input.matches, Extends, m) && m.id == id)
      && (r.Ok? && r.value.Extend? ==> r.value == Extend(input.key, r.value.existing, input.candidate, status))
  {
    BestIsBest(input.matches, ExactDuplicate);
    BestIsBest(input.matches, Updates);
    BestIsBest(input.matches, Contradicts);
    BestIsBest(input.matches, Extends);
    hide BestMatch, Best;
  }

  /** Nothing among the matches to duplicate, replace or extend. */
  predicate Unrelated(matches: seq<Match>) {
    && Unmatched(matches, ExactDuplicate) && Unmatched(matches, Updates)
    && Unmatched(matches, Contradicts) && Unmatched(matches, Extends)
  }

  /** Main result: a new memory is due exactly for a supported candidate with nothing to duplicate, replace or
      extend. */
  lemma CreationDue(input: Input)
    requires forall m | m in input.matches :: 0.0 <= m.confidence <= 1.0
    ensures var r := ReconcileCandidate(input);
      && (r.Ok? && r.value.Create? <==>
            Unrelated(input.matches) && Supported(input.candidate, input.observations, input.segments))
      && (r.Ok? && r.value.Create? ==> r.value == Create(input.key, input.candidate, Active))
  {
    BestIsBest(input.matches, ExactDuplicate);
    BestIsBest(input.matches, Updates);
    BestIsBest(input.matches, Contradicts);
    BestIsBest(input.matches, Extends);
    hide BestMatch, Best;
  }

  const LOWER_TRUST := "lower-trust assertion cannot supersede higher-trust memory"
  const NOT_ELIGIBLE := "candidate is not eligible to supersede an active memory"
  const FEW_OBSERVATIONS := "observed preference requires three observations across two activity segments"
  const SENSITIVE_INFERENCE := "sensitive inferred memory requires review"

  /** Main result: a review is due exactly for a candidate that would replace a memory more trusted than itself,
      and for an unsupported one that would replace a memory or make a new one. */
  lemma ReviewDue(input: Input)
    requires forall m | m in input.matches :: 0.0 <= m.confidence <= 1.0
    ensures var r := ReconcileCandidate(input);
      var c, supported := input.candidate, Supported(input.candidate, input.observations, input.segments);
      && (r.Ok? && r.value.RequestReview? <==>
            || (Unrelated(input.matches) && !supported)
            || (Unmatched(input.matches, ExactDuplicate)
                && exists m :: Replaces(input.matches, m)
                               && (c.mode.TrustRank() < m.memory.mode.TrustRank() || !supported)))
      && (r.Ok? && r.value.RequestReview? ==>
            r.value == RequestReview(input.key, c, r.value.reason)
            && (forall m | Replaces(input.matches, m) ::
                  r.value.reason ==
                    if c.mode.TrustRank() < m.memory.mode.TrustRank() then LOWER_TRUST else NOT_ELIGIBLE)
            && (Unrelated(input.matches) ==>
                  r.value.reason == if input.observations < 3 || input.segments < 2 then FEW_OBSERVATIONS
                                    else SENSITIVE_INFERENCE))
  {
    BestIsBest(input.matches, ExactDuplicate);
    BestIsBest(input.matches, Updates);
    BestIsBest(input.matches, Contradicts);
    BestIsBest(input.matches, Extends);
    hide BestMatch, Best;
  }
}
