/** The persistent extraction queue: jobs are claimed under a lease, completed or failed by the lease
    holder, given back when a lease runs out, and attempted at most three times. */
module ExtractionQueue {
  import opened Wrappers
  import opened Integers
  import opened Text

  const MAX_ATTEMPTS: nat := 3
  const MAX_LEASE_MILLIS: int := 15 * 60 * 1_000

  type JobId = nat

  datatype JobState = Pending | Running | Completed | NeedsAttention

  datatype Job = Job(
    segment: string,
    state: JobState,
    attempts: nat,
    nextAttemptAt: int,
    leaseOwner: Option<string>,
    leaseExpiresAt: Option<int>,
    createdAt: int,
    lastError: Option<string>)

  datatype SegmentRow = SegmentRow(state: JobState, attempts: nat)

  datatype Queue = Queue(nextId: JobId, jobs: map<JobId, Job>, segments: map<string, SegmentRow>, paused: bool)

  datatype Completion = Completion(
    provider: string, model: string, latency: nat, inputTokens: Option<nat>, outputTokens: Option<nat>)

  datatype QueueError = InvalidInput | LeaseLost

  datatype Request =
    | Enqueue(segment: string, promptVersion: string, correlation: string, now: int)
    | Claim(worker: string, now: int, lease: int)
    | Complete(id: JobId, worker: string, completion: Completion, now: int)
    | Fail(id: JobId, worker: string, errorCode: string, retryAt: int, now: int)
    | SetPaused(paused: bool)
    | AddSegment(segment: string)
    | DropSegment(segment: string)

  /** What happened to a job in a step; a run's history is the multiset of them. */
  datatype Happening = Claimed(job: JobId) | Expired(job: JobId) | Failed(job: JobId) | Finished(job: JobId)

  // ---------- validation ----------

  predicate ValidName(s: string, limit: nat) { !Blank(s) && |s| <= limit }

  predicate ValidClaim(worker: string, lease: int) { ValidName(worker, 128) && 1_000 <= lease <= MAX_LEASE_MILLIS }

  predicate Storable(n: Option<nat>) { n.Some? ==> n.value <= I64_MAX }

  predicate ValidErrorCode(code: string) {
    && 1 <= |code| <= 64
    && forall c | c in code :: 'a' <= c <= 'z' || '0' <= c <= '9' || c == '_' || c == '-' || c == '.'
  }

  // ---------- one step ----------

  predicate Lapsed(j: Job, now: int) { j.state.Running? && j.leaseExpiresAt.Some? && j.leaseExpiresAt.value <= now }

  /** What the two expiry statements make of a job whose lease ran out. */
  function Lapse(j: Job, now: int): Job {
    if !Lapsed(j, now) then j
    else if j.attempts >= MAX_ATTEMPTS then
      j.(state := NeedsAttention, leaseOwner := None, leaseExpiresAt := None, lastError := Some("lease_exhausted"))
    else
      j.(state := Pending, leaseOwner := None, leaseExpiresAt := None, nextAttemptAt := now,
         lastError := Some("lease_expired"))
  }

  function Expire(q: Queue, now: int): Queue {
    q.(jobs := map id | id in q.jobs :: Lapse(q.jobs[id], now))
  }

  function LapsedJobs(q: Queue, now: int): set<JobId> { set id | id in q.jobs && Lapsed(q.jobs[id], now) }

  function Expiries(q: Queue, now: int): multiset<Happening> {
    multiset(set id | id in LapsedJobs(q, now) :: Expired(id))
  }

  predicate Claimable(q: Queue, id: JobId, now: int) {
    && id in q.jobs && q.jobs[id].state.Pending?
    && q.jobs[id].nextAttemptAt <= now && q.jobs[id].attempts < MAX_ATTEMPTS
  }

  predicate DueNoLater(a: Job, b: Job) {
    a.nextAttemptAt < b.nextAttemptAt || (a.nextAttemptAt == b.nextAttemptAt && a.createdAt <= b.createdAt)
  }

  /** A job the ordered selection may return: ties are broken arbitrarily. */
  ghost predicate First(q: Queue, id: JobId, now: int) {
    Claimable(q, id, now) && forall x | Claimable(q, x, now) :: DueNoLater(q.jobs[id], q.jobs[x])
  }

  function Grant(q: Queue, id: JobId, worker: string, expires: int): Queue
    requires id in q.jobs
  {
    var j := q.jobs[id];
    q.(jobs := q.jobs[id := j.(state := Running, attempts := j.attempts + 1,
                               leaseOwner := Some(worker), leaseExpiresAt := Some(expires))])
  }

  /** The lease check that guards completion and failure. */
  predicate Holds(q: Queue, id: JobId, worker: string, now: int) {
    && id in q.jobs && q.jobs[id].state.Running? && q.jobs[id].leaseOwner == Some(worker)
    && q.jobs[id].leaseExpiresAt.Some? && q.jobs[id].leaseExpiresAt.value > now
  }

  function Settle(q: Queue, id: JobId, j: Job, row: SegmentRow): Queue
    requires id in q.jobs
  {
    q.(jobs := q.jobs[id := j],
       segments := if j.segment in q.segments then q.segments[j.segment := row] else q.segments)
  }

  function CompletionError(q: Queue, r: Request): Option<QueueError>
    requires r.Complete?
  {
    if !(ValidName(r.completion.provider, 128) && ValidName(r.completion.model, 128)) then Some(InvalidInput)
    else if !Holds(q, r.id, r.worker, r.now) then Some(LeaseLost)
    else if
      || r.completion.latency > I64_MAX
      || !Storable(r.completion.inputTokens) || !Storable(r.completion.outputTokens)
    then Some(InvalidInput)
    else None
  }

  function FailureError(q: Queue, r: Request): Option<QueueError>
    requires r.Fail?
  {
    if !ValidErrorCode(r.errorCode) || r.retryAt < r.now then Some(InvalidInput)
    else if !Holds(q, r.id, r.worker, r.now) then Some(LeaseLost)
    else None
  }

  predicate Queued(q: Queue, segment: string) { exists id | id in q.jobs :: q.jobs[id].segment == segment }

  function EnqueueError(q: Queue, r: Request): Option<QueueError>
    requires r.Enqueue?
  {
    if !ValidName(r.promptVersion, 64) || r.segment !in q.segments then Some(InvalidInput)
    else if !Queued(q, r.segment) && !ValidName(r.correlation, 128) then Some(InvalidInput)
    else None
  }

  function Completes(q: Queue, id: JobId): Queue
    requires id in q.jobs
  {
    var j := q.jobs[id];
    var attempts := if j.segment in q.segments then q.segments[j.segment].attempts else 0;
    Settle(q, id, j.(state := Completed, leaseOwner := None, leaseExpiresAt := None, lastError := None),
           SegmentRow(Completed, attempts))
  }

  function Fails(q: Queue, id: JobId, errorCode: string, retryAt: int): Queue
    requires id in q.jobs
  {
    var j := q.jobs[id];
    var state := if j.attempts >= MAX_ATTEMPTS then NeedsAttention else Pending;
    Settle(q, id, j.(state := state, leaseOwner := None, leaseExpiresAt := None,
                     nextAttemptAt := retryAt, lastError := Some(errorCode)),
           SegmentRow(state, j.attempts))
  }

  function Enqueues(q: Queue, segment: string, now: int): Queue {
    q.(nextId := q.nextId + 1, jobs := q.jobs[q.nextId := Job(segment, Pending, 0, now, None, None, now, None)])
  }

  ghost predicate ClaimStep(q: Queue, r: Request, after: Queue, happened: multiset<Happening>)
    requires r.Claim?
  {
    if !ValidClaim(r.worker, r.lease) || q.paused || r.now + r.lease > I64_MAX then after == q && happened == multiset{}
    else
      var e := Expire(q, r.now);
      if forall id :: !Claimable(e, id, r.now) then after == e && happened == Expiries(q, r.now)
      else exists id ::
        && First(e, id, r.now) && after == Grant(e, id, r.worker, r.now + r.lease)
        && happened == Expiries(q, r.now) + multiset{Claimed(id)}
  }

  /** One committed or rolled back operation. */
  ghost predicate Step(q: Queue, r: Request, after: Queue, happened: multiset<Happening>) {
    match r
    case Enqueue(segment, _, _, now) =>
      && happened == multiset{}
      && after == if EnqueueError(q, r).None? && !Queued(q, segment) then Enqueues(q, segment, now) else q
    case Claim(_, _, _) => ClaimStep(q, r, after, happened)
    case Complete(id, _, _, _) =>
      if CompletionError(q, r).None? then after == Completes(q, id) && happened == multiset{Finished(id)}
      else after == q && happened == multiset{}
    case Fail(id, _, code, retryAt, _) =>
      if FailureError(q, r).None? then after == Fails(q, id, code, retryAt) && happened == multiset{Failed(id)}
      else after == q && happened == multiset{}
    case SetPaused(paused) => after == q.(paused := paused) && happened == multiset{}
    case AddSegment(segment) =>
      && happened == multiset{}
      && after == if segment in q.segments then q else q.(segments := q.segments[segment := SegmentRow(Pending, 0)])
    case DropSegment(segment) =>
      && happened == multiset{}
      && after == q.(segments := q.segments - {segment},
                     jobs := map id | id in q.jobs && q.jobs[id].segment != segment :: q.jobs[id])
  }

  // ---------- the ledger of a job ----------

  function One(b: bool): nat { if b then 1 else 0 }

  /** What a job row owes to its history. */
  predicate Accounted(id: JobId, j: Job, h: multiset<Happening>) {
    && j.attempts == h[Claimed(id)]
    && j.attempts == h[Failed(id)] + h[Expired(id)] + h[Finished(id)] + One(j.state.Running?)
    && h[Finished(id)] == One(j.state.Completed?)
  }

  predicate WellFormed(j: Job) {
    && j.attempts <= MAX_ATTEMPTS
    && (j.state.Pending? ==> j.attempts < MAX_ATTEMPTS)
    && (j.state.NeedsAttention? ==> j.attempts == MAX_ATTEMPTS)
    && (j.state.Running? || j.state.Completed? ==> j.attempts >= 1)
    && (j.state.Running? <==> j.leaseOwner.Some?)
    && (j.state.Running? <==> j.leaseExpiresAt.Some?)
  }

  ghost predicate Untouched(id: JobId, h: multiset<Happening>) {
    h[Claimed(id)] == 0 && h[Expired(id)] == 0 && h[Failed(id)] == 0 && h[Finished(id)] == 0
  }

  /** The ledger of one job id: a row accounts for its history, and an id not issued yet has none. */
  ghost predicate Balanced(q: Queue, h: multiset<Happening>, id: JobId) {
    && (id in q.jobs ==> id < q.nextId && WellFormed(q.jobs[id]) && Accounted(id, q.jobs[id], h))
    && (id >= q.nextId ==> Untouched(id, h))
  }

  ghost predicate Ledger(q: Queue, h: multiset<Happening>) { forall id :: Balanced(q, h, id) }

  lemma ExpiriesCount(q: Queue, now: int, id: JobId)
    ensures Expiries(q, now)[Expired(id)] == One(id in q.jobs && Lapsed(q.jobs[id], now))
    ensures var h := Expiries(q, now); h[Claimed(id)] == 0 && h[Failed(id)] == 0 && h[Finished(id)] == 0
  {
    var s := set id | id in LapsedJobs(q, now) :: Expired(id);
    assert Expired(id) in s <==> id in LapsedJobs(q, now);
  }

  lemma ExpireBalances(q: Queue, h: multiset<Happening>, now: int, id: JobId)
    requires Balanced(q, h, id)
    ensures Balanced(Expire(q, now), h + Expiries(q, now), id)
  {
    ExpiriesCount(q, now, id);
    hide Expiries;
  }

  lemma GrantBalances(q: Queue, h: multiset<Happening>, job: JobId, now: int, worker: string, expires: int, id: JobId)
    requires Balanced(q, h, id) && Balanced(q, h, job) && Claimable(q, job, now)
    ensures Balanced(Grant(q, job, worker, expires), h + multiset{Claimed(job)}, id)
  {
  }

  lemma GrantKeepsLedger(q: Queue, h: multiset<Happening>, job: JobId, now: int, worker: string, expires: int)
    requires Ledger(q, h) && Claimable(q, job, now)
    ensures Ledger(Grant(q, job, worker, expires), h + multiset{Claimed(job)})
  {
    hide Balanced;
    forall id ensures Balanced(Grant(q, job, worker, expires), h + multiset{Claimed(job)}, id) {
      GrantBalances(q, h, job, now, worker, expires, id);
    }
  }

  lemma ClaimKeepsLedger(q: Queue, h: multiset<Happening>, r: Request, after: Queue, happened: multiset<Happening>)
    requires Ledger(q, h) && r.Claim? && ClaimStep(q, r, after, happened)
    ensures Ledger(after, h + happened)
  {
    hide Balanced, Expire, Expiries, Grant, DueNoLater, ValidClaim;
    if ValidClaim(r.worker, r.lease) && !q.paused && r.now + r.lease <= I64_MAX {
      var e, eh := Expire(q, r.now), h + Expiries(q, r.now);
      forall id ensures Balanced(e, eh, id) {
        ExpireBalances(q, h, r.now, id);
      }
      if exists id :: Claimable(e, id, r.now) {
        var job :| First(e, job, r.now) && after == Grant(e, job, r.worker, r.now + r.lease)
          && happened == Expiries(q, r.now) + multiset{Claimed(job)};
        hide ClaimStep, Claimable;
        GrantKeepsLedger(e, eh, job, r.now, r.worker, r.now + r.lease);
        assert h + happened == eh + multiset{Claimed(job)};
      }
    } else {
      assert h + happened == h;
    }
  }

  lemma StepBalances(
      q: Queue, h: multiset<Happening>, r: Request, after: Queue, happened: multiset<Happening>, id: JobId)
    requires Ledger(q, h) && !r.Claim? && Step(q, r, after, happened)
    ensures Balanced(after, h + happened, id)
  {
    hide ValidName, ValidErrorCode, Storable, Queued;
    assert Balanced(q, h, id);
    if r.Complete? || r.Fail? {
      assert Balanced(q, h, r.id);
    }
  }

  lemma StepKeepsLedger(q: Queue, h: multiset<Happening>, r: Request, after: Queue, happened: multiset<Happening>)
    requires Ledger(q, h) && Step(q, r, after, happened)
    ensures Ledger(after, h + happened)
  {
    if r.Claim? {
      ClaimKeepsLedger(q, h, r, after, happened);
    } else {
      forall id ensures Balanced(after, h + happened, id) { StepBalances(q, h, r, after, happened, id); }
    }
  }

  // ---------- whole runs ----------

  /** One step of a run with the queue it left and what happened in it. */
  datatype Entry = Entry(request: Request, after: Queue, happened: multiset<Happening>)

  function Before(start: Queue, run: seq<Entry>, i: nat): Queue
    requires i <= |run|
  {
    if i == 0 then start else run[i - 1].after
  }

  /** Any interleaving of workers, clocks, pauses and deletions. */
  ghost predicate IsRun(start: Queue, run: seq<Entry>) {
    forall i | 0 <= i < |run| :: Step(Before(start, run, i), run[i].request, run[i].after, run[i].happened)
  }

  function End(start: Queue, run: seq<Entry>): Queue { Before(start, run, |run|) }

  function History(run: seq<Entry>): multiset<Happening> {
    if run == [] then multiset{} else History(run[..|run| - 1]) + run[|run| - 1].happened
  }

  lemma RunPrefix(start: Queue, run: seq<Entry>, n: nat)
    requires IsRun(start, run) && n <= |run|
    ensures IsRun(start, run[..n]) && End(start, run[..n]) == Before(start, run, n)
  {
    forall i | 0 <= i < n
      ensures Step(Before(start, run[..n], i), run[..n][i].request, run[..n][i].after, run[..n][i].happened)
    {
      assert Before(start, run[..n], i) == Before(start, run, i);
    }
  }

  const EMPTY: Queue := Queue(0, map[], map[], false)

  /** Main result: after any run, every job's attempts are its claims, and each claim ended in a failure,
      an expiry or a completion, but for the one a running job still holds. */
  lemma {:induction false} RunConserves(run: seq<Entry>)
    requires IsRun(EMPTY, run)
    ensures Ledger(End(EMPTY, run), History(run))
  {
    if run != [] {
      var n := |run| - 1;
      RunPrefix(EMPTY, run, n);
      RunConserves(run[..n]);
      StepKeepsLedger(End(EMPTY, run[..n]), History(run[..n]), run[n].request, run[n].after, run[n].happened);
    }
  }

  // ---------- termination ----------

  /** How many more times a row can change. */
  function Measure(j: Job): int { 2 * (MAX_ATTEMPTS - j.attempts) + One(j.state.Running?) }

  predicate Terminal(s: JobState) { s.Completed? || s.NeedsAttention? }

  /** A changed row has a smaller measure and was not terminal; a job keeps its segment and creation time. */
  predicate Progresses(a: Job, b: Job) {
    a == b || (Measure(b) < Measure(a) && !Terminal(a.state) && b.segment == a.segment && b.createdAt == a.createdAt)
  }

  lemma StepProgresses(
      q: Queue, h: multiset<Happening>, r: Request, after: Queue, happened: multiset<Happening>, id: JobId)
    requires Ledger(q, h) && Step(q, r, after, happened) && id in q.jobs && id in after.jobs
    ensures Progresses(q.jobs[id], after.jobs[id])
  {
    assert Balanced(q, h, id);
    hide ValidName, ValidErrorCode, Storable, Queued, Expiries, Accounted;
  }

  /** The rows of a job that differ from the row one step earlier. */
  function Changes(start: Queue, run: seq<Entry>, id: JobId): nat {
    if run == [] then 0
    else
      var n := |run| - 1;
      var before := End(start, run[..n]);
      var after := run[n].after;
      Changes(start, run[..n], id)
      + One(id in before.jobs && id in after.jobs && before.jobs[id] != after.jobs[id])
  }

  /** Ids are issued in order and never again, and an issued job starts pending. */
  lemma StepIssues(q: Queue, r: Request, after: Queue, happened: multiset<Happening>, id: JobId)
    requires Step(q, r, after, happened)
    ensures q.nextId <= after.nextId
    ensures id !in q.jobs && id in after.jobs ==>
      id == q.nextId < after.nextId && after.jobs[id].attempts == 0 && after.jobs[id].state.Pending?
  {
    hide ValidName, ValidErrorCode, Storable, Expiries, Queued;
  }

  /** Main result: a job's row changes at most six times in any run, and fewer the more attempts it used. */
  lemma {:induction false} RunTerminates(run: seq<Entry>, id: JobId)
    requires IsRun(EMPTY, run)
    ensures id >= End(EMPTY, run).nextId ==> Changes(EMPTY, run, id) == 0
    ensures id in End(EMPTY, run).jobs ==> Changes(EMPTY, run, id) + Measure(End(EMPTY, run).jobs[id]) <= 6
  {
    if run != [] {
      var n := |run| - 1;
      var before := End(EMPTY, run[..n]);
      RunPrefix(EMPTY, run, n);
      RunTerminates(run[..n], id);
      RunConserves(run[..n]);
      assert Balanced(before, History(run[..n]), id);
      StepIssues(before, run[n].request, run[n].after, run[n].happened, id);
      if id in before.jobs && id in run[n].after.jobs {
        StepProgresses(before, History(run[..n]), run[n].request, run[n].after, run[n].happened, id);
      }
      hide Step;
    }
  }

  /** A completed job, or one that needs attention, keeps its row for as long as it exists. */
  lemma {:induction false} TerminalForGood(run: seq<Entry>, i: nat, id: JobId)
    requires IsRun(EMPTY, run) && i <= |run|
    requires id in Before(EMPTY, run, i).jobs && Terminal(Before(EMPTY, run, i).jobs[id].state)
    ensures id < End(EMPTY, run).nextId
    ensures id in End(EMPTY, run).jobs ==> End(EMPTY, run).jobs[id] == Before(EMPTY, run, i).jobs[id]
  {
    if i == |run| {
      RunConserves(run);
      assert Balanced(End(EMPTY, run), History(run), id);
    } else {
      var n := |run| - 1;
      var before := End(EMPTY, run[..n]);
      RunPrefix(EMPTY, run, n);
      assert Before(EMPTY, run[..n], i) == Before(EMPTY, run, i);
      TerminalForGood(run[..n], i, id);
      RunConserves(run[..n]);
      StepIssues(before, run[n].request, run[n].after, run[n].happened, id);
      if id in before.jobs && id in run[n].after.jobs {
        StepProgresses(before, History(run[..n]), run[n].request, run[n].after, run[n].happened, id);
      }
      hide Step;
    }
  }

  // ---------- who may complete or fail a job ----------

  ghost predicate Quiet(run: seq<Entry>, from: nat, id: JobId) {
    forall k | from <= k < |run| :: Untouched(id, run[k].happened)
  }

  /** The claim at `i` granted the job's present lease and nothing has happened to the job since. */
  ghost predicate GrantedBy(run: seq<Entry>, i: nat, id: JobId, owner: string, expires: int) {
    && i < |run| && run[i].request.Claim? && run[i].happened[Claimed(id)] > 0
    && run[i].request.worker == owner && run[i].request.now + run[i].request.lease == expires
    && Quiet(run, i + 1, id)
  }

  lemma GrantHere(run: seq<Entry>, id: JobId)
    requires run != [] && run[|run| - 1].request.Claim? && run[|run| - 1].happened[Claimed(id)] > 0
    ensures var r := run[|run| - 1].request; GrantedBy(run, |run| - 1, id, r.worker, r.now + r.lease)
  {
  }

  lemma GrantExtends(run: seq<Entry>, i: nat, id: JobId, owner: string, expires: int)
    requires run != [] && GrantedBy(run[..|run| - 1], i, id, owner, expires)
    requires Untouched(id, run[|run| - 1].happened)
    ensures GrantedBy(run, i, id, owner, expires)
  {
    hide Untouched;
    var before := run[..|run| - 1];
    forall k | i < k < |run| ensures Untouched(id, run[k].happened) {
      if k < |before| {
        assert before[k] == run[k] && Untouched(id, before[k].happened);
      }
    }
  }

  predicate LeasedTo(j: Job, worker: string, expires: int) {
    j.leaseOwner == Some(worker) && j.leaseExpiresAt == Some(expires)
  }

  lemma ClaimLease(q: Queue, r: Request, after: Queue, happened: multiset<Happening>, id: JobId)
    requires r.Claim? && ClaimStep(q, r, after, happened) && id in after.jobs && after.jobs[id].state.Running?
    ensures || (happened[Claimed(id)] > 0 && LeasedTo(after.jobs[id], r.worker, r.now + r.lease))
            || (id in q.jobs && after.jobs[id] == q.jobs[id] && Untouched(id, happened))
  {
    hide ValidClaim, DueNoLater;
    ExpiriesCount(q, r.now, id);
    hide Expiries;
  }

  lemma StepLease(q: Queue, h: multiset<Happening>, r: Request, after: Queue, happened: multiset<Happening>, id: JobId)
    requires Ledger(q, h) && Step(q, r, after, happened) && id in after.jobs && after.jobs[id].state.Running?
    ensures || (r.Claim? && happened[Claimed(id)] > 0 && LeasedTo(after.jobs[id], r.worker, r.now + r.lease))
            || (id in q.jobs && after.jobs[id] == q.jobs[id] && Untouched(id, happened))
  {
    hide ValidName, ValidErrorCode, Storable, Queued, ClaimStep;
    if r.Claim? {
      ClaimLease(q, r, after, happened, id);
    } else {
      assert Balanced(q, h, id);
    }
    hide Ledger;
  }

  lemma {:induction false} RunningIsGranted(run: seq<Entry>, id: JobId) returns (i: nat)
    requires IsRun(EMPTY, run) && id in End(EMPTY, run).jobs && End(EMPTY, run).jobs[id].state.Running?
    ensures End(EMPTY, run).jobs[id].leaseOwner.Some? && End(EMPTY, run).jobs[id].leaseExpiresAt.Some?
    ensures var job := End(EMPTY, run).jobs[id];
      GrantedBy(run, i, id, job.leaseOwner.value, job.leaseExpiresAt.value)
  {
    var n := |run| - 1;
    var before := End(EMPTY, run[..n]);
    RunPrefix(EMPTY, run, n);
    RunConserves(run[..n]);
    StepLease(before, History(run[..n]), run[n].request, run[n].after, run[n].happened, id);
    hide IsRun, Step, Ledger, History, GrantedBy;
    if Untouched(id, run[n].happened) {
      hide Untouched;
      i := RunningIsGranted(run[..n], id);
      GrantExtends(run, i, id, before.jobs[id].leaseOwner.value, before.jobs[id].leaseExpiresAt.value);
    } else {
      i := n;
      GrantHere(run, id);
    }
  }

  lemma SettlementHolds(q: Queue, r: Request, after: Queue, happened: multiset<Happening>, id: JobId)
    requires Step(q, r, after, happened) && (happened[Finished(id)] > 0 || happened[Failed(id)] > 0)
    ensures (r.Complete? || r.Fail?) && r.id == id && Holds(q, id, r.worker, r.now)
  {
    hide ValidName, ValidErrorCode, Storable, Queued, Grant, Completes, Fails;
    if r.Claim? {
      ExpiriesCount(q, r.now, id);
    }
  }

  /** The latest thing to happen to the job is the claim at `i`, by `worker`, with a lease beyond `now`. */
  ghost predicate GrantedBefore(run: seq<Entry>, i: nat, id: JobId, worker: string, now: int) {
    && i < |run| && run[i].request.Claim? && run[i].happened[Claimed(id)] > 0
    && run[i].request.worker == worker && now < run[i].request.now + run[i].request.lease
    && Quiet(run, i + 1, id)
  }

  lemma GrantUnexpired(run: seq<Entry>, i: nat, id: JobId, owner: string, expires: int, now: int)
    requires GrantedBy(run, i, id, owner, expires) && now < expires
    ensures GrantedBefore(run, i, id, owner, now)
  {
  }

  /** Main result: a completion or failure is accepted only from the worker that made the job's latest
      claim, before that claim's lease ran out, and with nothing having happened to the job in between. */
  lemma SettledByLatestClaim(run: seq<Entry>, id: JobId) returns (i: nat)
    requires IsRun(EMPTY, run) && run != []
    requires var last := run[|run| - 1].happened; last[Finished(id)] > 0 || last[Failed(id)] > 0
    ensures var r := run[|run| - 1].request;
      && (r.Complete? || r.Fail?) && r.id == id
      && GrantedBefore(run[..|run| - 1], i, id, r.worker, r.now)
  {
    var n := |run| - 1;
    var before, r := End(EMPTY, run[..n]), run[n].request;
    RunPrefix(EMPTY, run, n);
    SettlementHolds(before, r, run[n].after, run[n].happened, id);
    hide IsRun, Step, GrantedBy;
    i := RunningIsGranted(run[..n], id);
    GrantUnexpired(run[..n], i, id, r.worker, before.jobs[id].leaseExpiresAt.value, r.now);
  }

  // ---------- the segment table ----------

  /** What a segment row says about its job. */
  predicate Mirrors(row: SegmentRow, j: Job) {
    && !row.state.Running?
    && (row.state.Completed? <==> j.state.Completed?)
    && (row.state.NeedsAttention? ==> j.state.NeedsAttention?)
    && (j.state.NeedsAttention? && !row.state.NeedsAttention? ==> j.lastError == Some("lease_exhausted"))
  }

  /** Every job has its own segment, and the segment's row mirrors it. */
  ghost predicate Mirrored(q: Queue) {
    && (forall id | id in q.jobs ::
          q.jobs[id].segment in q.segments && Mirrors(q.segments[q.jobs[id].segment], q.jobs[id]))
    && (forall a, b | a in q.jobs && b in q.jobs && q.jobs[a].segment == q.jobs[b].segment :: a == b)
    && (forall s | s in q.segments && !Queued(q, s) :: q.segments[s].state.Pending?)
  }

  lemma SameQueued(a: Queue, b: Queue)
    requires a.jobs.Keys == b.jobs.Keys && forall id | id in a.jobs :: a.jobs[id].segment == b.jobs[id].segment
    ensures forall s :: Queued(a, s) <==> Queued(b, s)
  {
  }

  lemma LapseMirrors(row: SegmentRow, j: Job, now: int)
    requires Mirrors(row, j)
    ensures Mirrors(row, Lapse(j, now)) && Lapse(j, now).segment == j.segment
  {
  }

  lemma ExpireMirrors(q: Queue, now: int)
    requires Mirrored(q)
    ensures Mirrored(Expire(q, now))
  {
    hide Mirrors, Lapse;
    var e := Expire(q, now);
    forall id | id in q.jobs
      ensures e.jobs[id].segment == q.jobs[id].segment && Mirrors(q.segments[q.jobs[id].segment], e.jobs[id])
    {
      LapseMirrors(q.segments[q.jobs[id].segment], q.jobs[id], now);
    }
    SameQueued(q, e);
    hide Queued;
  }

  lemma RewriteMirrors(q: Queue, id: JobId, j: Job, after: Queue)
    requires Mirrored(q) && id in q.jobs && j.segment == q.jobs[id].segment && after.jobs == q.jobs[id := j]
    requires j.segment in after.segments && Mirrors(after.segments[j.segment], j)
    requires after.segments.Keys == q.segments.Keys
    requires forall s | s in q.segments && s != j.segment :: after.segments[s] == q.segments[s]
    ensures Mirrored(after)
  {
    assert Queued(q, j.segment);
    SameQueued(q, after);
    hide Mirrors, Queued;
  }

  lemma {:induction false} ClaimMirrors(q: Queue, r: Request, after: Queue, happened: multiset<Happening>)
    requires Mirrored(q) && r.Claim? && ClaimStep(q, r, after, happened)
    ensures Mirrored(after)
  {
    if ValidClaim(r.worker, r.lease) && !q.paused && r.now + r.lease <= I64_MAX {
      var e := Expire(q, r.now);
      ExpireMirrors(q, r.now);
      if exists id :: Claimable(e, id, r.now) {
        var id :| First(e, id, r.now) && after == Grant(e, id, r.worker, r.now + r.lease);
        var j := after.jobs[id];
        assert e.jobs[id].state.Pending? && Mirrors(e.segments[j.segment], j);
        hide Mirrored, ClaimStep, First, Expire;
        RewriteMirrors(e, id, j, after);
      }
    }
  }

  lemma SettleMirrors(q: Queue, id: JobId, j: Job, row: SegmentRow)
    requires Mirrored(q) && id in q.jobs && j.segment == q.jobs[id].segment && Mirrors(row, j)
    ensures Mirrored(Settle(q, id, j, row))
  {
    assert j.segment in q.segments;
    RewriteMirrors(q, id, j, Settle(q, id, j, row));
  }

  lemma EnqueueMirrors(q: Queue, segment: string, now: int)
    requires Mirrored(q) && segment in q.segments && !Queued(q, segment) && q.nextId !in q.jobs
    ensures Mirrored(Enqueues(q, segment, now))
  {
    var after := Enqueues(q, segment, now);
    assert forall s | Queued(q, s) :: Queued(after, s) by {
      assert forall x | x in q.jobs :: after.jobs[x] == q.jobs[x];
    }
  }

  lemma AddMirrors(q: Queue, segment: string)
    requires Mirrored(q) && segment !in q.segments
    ensures Mirrored(q.(segments := q.segments[segment := SegmentRow(Pending, 0)]))
  {
    SameQueued(q, q.(segments := q.segments[segment := SegmentRow(Pending, 0)]));
    hide Mirrors, Queued;
  }

  lemma DropMirrors(q: Queue, segment: string, after: Queue)
    requires Mirrored(q) && after.segments == q.segments - {segment}
    requires after.jobs == map id | id in q.jobs && q.jobs[id].segment != segment :: q.jobs[id]
    ensures Mirrored(after)
  {
    forall s | Queued(q, s) && s in after.segments ensures Queued(after, s) {
      var x :| x in q.jobs && q.jobs[x].segment == s;
      assert x in after.jobs && after.jobs[x] == q.jobs[x];
    }
    hide Mirrors, Queued;
  }

  lemma PauseMirrors(q: Queue, after: Queue)
    requires Mirrored(q) && after == q.(paused := after.paused)
    ensures Mirrored(after)
  {
    assert forall s :: Queued(after, s) <==> Queued(q, s);
  }

  lemma StepMirrors(q: Queue, h: multiset<Happening>, r: Request, after: Queue, happened: multiset<Happening>)
    requires Ledger(q, h) && Mirrored(q) && Step(q, r, after, happened)
    ensures Mirrored(after)
  {
    hide Mirrored, ValidName, ValidErrorCode, Storable;
    match r
    case Enqueue(segment, _, _, now) =>
      if EnqueueError(q, r).None? && !Queued(q, segment) {
        assert Balanced(q, h, q.nextId);
        hide Queued;
        EnqueueMirrors(q, segment, now);
      }
    case Claim(_, _, _) =>
      hide ClaimStep;
      ClaimMirrors(q, r, after, happened);
    case Complete(id, _, _, _) =>
      if CompletionError(q, r).None? {
        var j := after.jobs[id];
        var attempts := if j.segment in q.segments then q.segments[j.segment].attempts else 0;
        SettleMirrors(q, id, j, SegmentRow(Completed, attempts));
      }
    case Fail(id, _, code, _, _) =>
      if FailureError(q, r).None? {
        var j := after.jobs[id];
        SettleMirrors(q, id, j, SegmentRow(j.state, j.attempts));
      }
    case SetPaused(_) => PauseMirrors(q, after);
    case AddSegment(segment) => if segment !in q.segments { AddMirrors(q, segment); }
    case DropSegment(segment) => DropMirrors(q, segment, after);
  }

  /** A segment is marked completed exactly when its job completed, and as needing attention only with its
      job; a job whose segment is not marked carries the error code of an exhausted lease. */
  lemma {:induction false} RunMirrors(run: seq<Entry>)
    requires IsRun(EMPTY, run)
    ensures Mirrored(End(EMPTY, run))
  {
    if run != [] {
      var n := |run| - 1;
      RunPrefix(EMPTY, run, n);
      RunMirrors(run[..n]);
      RunConserves(run[..n]);
      hide Mirrored, Ledger;
      StepMirrors(End(EMPTY, run[..n]), History(run[..n]), run[n].request, run[n].after, run[n].happened);
    }
  }

  /** The job needs attention and its segment does not say so, or the other way round. */
  predicate Disagrees(q: Queue, id: JobId) {
    && id in q.jobs && q.jobs[id].segment in q.segments
    && (q.jobs[id].state.NeedsAttention? <==> !q.segments[q.jobs[id].segment].state.NeedsAttention?)
  }

  ghost predicate Agreeing(q: Queue) { forall id | id in q.jobs :: !Disagrees(q, id) }

  /** A claim that expires leases: well-formed, not paused, and with a representable expiry. */
  predicate ExpiringClaim(q: Queue, r: Request) {
    r.Claim? && ValidClaim(r.worker, r.lease) && !q.paused && r.now + r.lease <= I64_MAX
  }

  /** The request is a claim that finds the job's last lease lapsed. */
  predicate Retires(q: Queue, r: Request, id: JobId) {
    ExpiringClaim(q, r) && id in q.jobs && q.jobs[id].attempts >= MAX_ATTEMPTS && Lapsed(q.jobs[id], r.now)
  }

  /** What a claim does to the row of a job: its lease may lapse, and it may then be granted. */
  lemma ClaimRow(q: Queue, r: Request, after: Queue, happened: multiset<Happening>, id: JobId)
    requires r.Claim? && ClaimStep(q, r, after, happened) && id in q.jobs
    ensures id in after.jobs && after.jobs[id].segment == q.jobs[id].segment && after.segments == q.segments
    ensures after.jobs[id].state.NeedsAttention? <==> q.jobs[id].state.NeedsAttention? || Retires(q, r, id)
  {
    hide ValidClaim, DueNoLater, Expiries;
  }

  lemma SettledRow(q: Queue, r: Request, after: Queue, happened: multiset<Happening>, id: JobId)
    requires Mirrored(q) && (r.Complete? || r.Fail?) && Step(q, r, after, happened) && id in q.jobs
    ensures Disagrees(after, id) <==> Disagrees(q, id)
  {
    hide ValidName, ValidErrorCode, Storable, Queued;
    assert r.id in q.jobs && r.id != id ==> q.jobs[r.id].segment != q.jobs[id].segment;
  }

  lemma UnsettledRow(q: Queue, r: Request, after: Queue, happened: multiset<Happening>, id: JobId)
    requires Mirrored(q) && !r.Claim? && !r.Complete? && !r.Fail? && Step(q, r, after, happened)
    requires id in q.jobs && id in after.jobs && q.nextId !in q.jobs
    ensures Disagrees(after, id) <==> Disagrees(q, id)
  {
    hide ValidName, Queued;
    assert q.jobs[id].segment in q.segments;
  }

  /** One step: a job and its segment disagree afterwards exactly if they did before or a claim just retired
      the job by expiry. */
  lemma StepDisagrees(
      q: Queue, h: multiset<Happening>, r: Request, after: Queue, happened: multiset<Happening>, id: JobId)
    requires Ledger(q, h) && Mirrored(q) && Step(q, r, after, happened) && id in q.jobs && id in after.jobs
    ensures Disagrees(after, id) <==> Disagrees(q, id) || Retires(q, r, id)
  {
    if r.Claim? {
      ClaimRow(q, r, after, happened, id);
      assert q.jobs[id].segment in q.segments;
      assert Balanced(q, h, id) && Mirrors(q.segments[q.jobs[id].segment], q.jobs[id]);
      hide ClaimStep, Ledger, Mirrored, ExpiringClaim;
    } else {
      assert Balanced(q, h, q.nextId);
      if r.Complete? || r.Fail? {
        SettledRow(q, r, after, happened, id);
      } else {
        UnsettledRow(q, r, after, happened, id);
      }
      hide Step, Ledger, Mirrored, Disagrees;
    }
  }

  lemma ClaimIssuesNothing(q: Queue, r: Request, after: Queue, happened: multiset<Happening>)
    requires r.Claim? && ClaimStep(q, r, after, happened)
    ensures after.jobs.Keys == q.jobs.Keys
  {
    hide ValidClaim, DueNoLater, Expiries;
  }

  /** A claim that expires leases keeps all jobs and segments in agreement exactly when no job that has used
      its three attempts has a lapsed lease. */
  lemma ClaimAgreesExactly(q: Queue, h: multiset<Happening>, r: Request, after: Queue, happened: multiset<Happening>)
    requires Ledger(q, h) && Mirrored(q) && Agreeing(q) && ExpiringClaim(q, r) && Step(q, r, after, happened)
    ensures Agreeing(after)
            <==> forall id | id in q.jobs :: q.jobs[id].attempts >= MAX_ATTEMPTS ==> !Lapsed(q.jobs[id], r.now)
  {
    forall id | id in q.jobs ensures id in after.jobs && (Disagrees(after, id) <==> Retires(q, r, id)) {
      ClaimRow(q, r, after, happened, id);
      StepDisagrees(q, h, r, after, happened, id);
    }
    ClaimIssuesNothing(q, r, after, happened);
    hide Step, Disagrees, Lapsed, Ledger, Mirrored, ClaimStep;
    assert forall id | id in after.jobs :: id in q.jobs;
    assert Agreeing(q) ==> forall id | id in q.jobs :: !Disagrees(q, id);
  }

  /** A claim of the run retired the job by expiry. */
  ghost predicate RetiredInRun(run: seq<Entry>, id: JobId) {
    exists k | 0 <= k < |run| :: Retires(Before(EMPTY, run, k), run[k].request, id)
  }

  lemma RetiredExtends(run: seq<Entry>, id: JobId)
    requires run != []
    ensures RetiredInRun(run, id)
            <==> || RetiredInRun(run[..|run| - 1], id)
                 || Retires(Before(EMPTY, run, |run| - 1), run[|run| - 1].request, id)
  {
    var n := |run| - 1;
    forall k | 0 <= k < n
      ensures Retires(Before(EMPTY, run, k), run[k].request, id)
              <==> Retires(Before(EMPTY, run[..n], k), run[..n][k].request, id)
    {
      assert Before(EMPTY, run[..n], k) == Before(EMPTY, run, k);
    }
    hide Retires, Before;
    if RetiredInRun(run, id) {
      var k :| 0 <= k < |run| && Retires(Before(EMPTY, run, k), run[k].request, id);
    }
    if RetiredInRun(run[..n], id) {
      var k :| 0 <= k < |run[..n]| && Retires(Before(EMPTY, run[..n], k), run[..n][k].request, id);
    }
  }

  /** An id not issued yet was never retired. */
  lemma {:induction false} UnissuedUnretired(run: seq<Entry>, id: JobId)
    requires IsRun(EMPTY, run) && id >= End(EMPTY, run).nextId
    ensures !RetiredInRun(run, id)
  {
    if run != [] {
      var n := |run| - 1;
      var before := End(EMPTY, run[..n]);
      RunPrefix(EMPTY, run, n);
      StepIssues(before, run[n].request, run[n].after, run[n].happened, id);
      UnissuedUnretired(run[..n], id);
      RunConserves(run[..n]);
      assert Balanced(before, History(run[..n]), id);
      RetiredExtends(run, id);
      hide IsRun, Step, RetiredInRun, Ledger;
    }
  }

  lemma FreshAgrees(q: Queue, id: JobId)
    requires Mirrored(q) && id in q.jobs && q.jobs[id].state.Pending?
    ensures !Disagrees(q, id)
  {
    assert Mirrors(q.segments[q.jobs[id].segment], q.jobs[id]);
  }

  /** Main result: at the end of any run a job and its segment disagree about needing attention exactly when
      a claim in the run retired that job by expiry. */
  lemma {:induction false} RunDisagreesExactly(run: seq<Entry>, id: JobId)
    requires IsRun(EMPTY, run) && id in End(EMPTY, run).jobs
    ensures Disagrees(End(EMPTY, run), id) <==> RetiredInRun(run, id)
  {
    var n := |run| - 1;
    var before, r, after, happened := End(EMPTY, run[..n]), run[n].request, run[n].after, run[n].happened;
    RunPrefix(EMPTY, run, n);
    RunConserves(run[..n]);
    RunMirrors(run[..n]);
    RetiredExtends(run, id);
    StepIssues(before, r, after, happened, id);
    if id in before.jobs {
      StepDisagrees(before, History(run[..n]), r, after, happened, id);
      hide IsRun, Step, RetiredInRun, Ledger, Mirrored, Disagrees, Retires;
      RunDisagreesExactly(run[..n], id);
    } else {
      UnissuedUnretired(run[..n], id);
      RunMirrors(run);
      FreshAgrees(after, id);
      hide IsRun, Step, RetiredInRun, Ledger, Mirrored, Disagrees;
    }
  }

  /** The gap: a third lease that runs out retires the job and leaves the segment as it was. */
  lemma ExhaustionIsNotMirrored(q: Queue, id: JobId, r: Request, after: Queue, happened: multiset<Happening>)
    requires Mirrored(q) && id in q.jobs && q.jobs[id].attempts == MAX_ATTEMPTS && q.jobs[id].state.Running?
    requires r.Claim? && ClaimStep(q, r, after, happened) && Lapsed(q.jobs[id], r.now)
    requires ValidClaim(r.worker, r.lease) && !q.paused && r.now + r.lease <= I64_MAX
    ensures after.jobs[id].state.NeedsAttention? && !after.segments[after.jobs[id].segment].state.NeedsAttention?
  {
    hide ValidClaim, Expiries, Queued;
  }

  // ---------- the queue as the store keeps it ----------

  /** The queue's tables, updated in place. Each operation is one transaction; `happened` records what it
      did to jobs, for the ledger. */
  class JobTable {
    var nextId: JobId
    var jobs: map<JobId, Job>
    var segments: map<string, SegmentRow>
    var paused: bool

    function View(): Queue
      reads this
    {
      Queue(nextId, jobs, segments, paused)
    }

    constructor ()
      ensures View() == EMPTY
    {
      nextId, jobs, segments, paused := 0, map[], map[], false;
    }

    method EnqueueExtraction(segment: string, promptVersion: string, correlation: string, now: int)
      returns (r: Result<JobId, QueueError>, ghost happened: multiset<Happening>)
      modifies this
      ensures Step(old(View()), Enqueue(segment, promptVersion, correlation, now), View(), happened)
      ensures r.Ok? ==> r.value in jobs && jobs[r.value].segment == segment
      ensures r.Err? <==> EnqueueError(old(View()), Enqueue(segment, promptVersion, correlation, now)).Some?
    {
      happened := multiset{};
      if !ValidName(promptVersion, 64) || segment !in segments { return Err(InvalidInput), happened; }
      if id :| id in jobs && jobs[id].segment == segment {
        return Ok(id), happened;
      }
      if !ValidName(correlation, 128) { return Err(InvalidInput), happened; }
      hide ValidName;
      r := Ok(nextId);
      jobs := jobs[nextId := Job(segment, Pending, 0, now, None, None, now, None)];
      nextId := nextId + 1;
    }

    /** The ordered selection of a claimable job. */
    method SelectFirst(now: int) returns (first: Option<JobId>)
      ensures first.None? ==> forall id :: !Claimable(View(), id, now)
      ensures first.Some? ==> First(View(), first.value, now)
    {
      var rest := set id | id in jobs && Claimable(View(), id, now);
      first := None;
      while rest != {}
        invariant first.Some? ==> Claimable(View(), first.value, now)
        invariant forall id | Claimable(View(), id, now) ::
          id in rest || (first.Some? && DueNoLater(jobs[first.value], jobs[id]))
        invariant forall id | id in rest :: Claimable(View(), id, now)
      {
        var id :| id in rest;
        rest := rest - {id};
        if first.None? || !DueNoLater(jobs[first.value], jobs[id]) {
          first := Some(id);
        }
      }
    }

    /** The two statements that take back leases that ran out. */
    method ExpireLeases(now: int)
      modifies this
      ensures View() == Expire(old(View()), now)
    {
      jobs := map id | id in jobs ::
        if Lapsed(jobs[id], now) && jobs[id].attempts >= MAX_ATTEMPTS
        then jobs[id].(state := NeedsAttention, leaseOwner := None, leaseExpiresAt := None,
                       lastError := Some("lease_exhausted"))
        else jobs[id];
      jobs := map id | id in jobs ::
        if Lapsed(jobs[id], now) && jobs[id].attempts < MAX_ATTEMPTS
        then jobs[id].(state := Pending, leaseOwner := None, leaseExpiresAt := None, nextAttemptAt := now,
                       lastError := Some("lease_expired"))
        else jobs[id];
    }

    method ClaimExtraction(worker: string, now: int, lease: int)
      returns (r: Result<Option<JobId>, QueueError>, ghost happened: multiset<Happening>)
      modifies this
      ensures Step(old(View()), Claim(worker, now, lease), View(), happened)
      ensures r.Err? <==> !ValidClaim(worker, lease) || (!old(paused) && now + lease > I64_MAX)
      ensures r.Ok? ==> (r.value.None? <==> old(paused) || forall id :: !Claimable(Expire(old(View()), now), id, now))
      ensures r.Ok? && r.value.Some? ==>
        Holds(View(), r.value.value, worker, now) && happened[Claimed(r.value.value)] > 0
    {
      happened := multiset{};
      if !ValidClaim(worker, lease) { return Err(InvalidInput), happened; }
      if paused { return Ok(None), happened; }
      var before := jobs;
      ExpireLeases(now);
      if now + lease > I64_MAX {
        jobs := before;
        return Err(InvalidInput), happened;
      }
      happened := Expiries(old(View()), now);
      hide Expire, Expiries, ValidName;
      var first := SelectFirst(now);
      if first.None? { return Ok(None), happened; }
      var id := first.value;
      happened := happened + multiset{Claimed(id)};
      jobs := jobs[id := jobs[id].(state := Running, attempts := jobs[id].attempts + 1,
                                   leaseOwner := Some(worker), leaseExpiresAt := Some(now + lease))];
      return Ok(first), happened;
    }

    method CompleteExtraction(id: JobId, worker: string, completion: Completion, now: int)
      returns (r: Result<(), QueueError>, ghost happened: multiset<Happening>)
      modifies this
      ensures Step(old(View()), Complete(id, worker, completion, now), View(), happened)
      ensures r == match CompletionError(old(View()), Complete(id, worker, completion, now))
                   case Some(e) => Err(e)
                   case None => Ok(())
    {
      hide ValidName, Storable;
      happened := multiset{};
      if !(ValidName(completion.provider, 128) && ValidName(completion.model, 128)) {
        return Err(InvalidInput), happened;
      }
      if !Holds(View(), id, worker, now) { return Err(LeaseLost), happened; }
      if completion.latency > I64_MAX || !Storable(completion.inputTokens) || !Storable(completion.outputTokens) {
        return Err(InvalidInput), happened;
      }
      var segment := jobs[id].segment;
      jobs := jobs[id := jobs[id].(state := Completed, leaseOwner := None, leaseExpiresAt := None, lastError := None)];
      if segment in segments {
        segments := segments[segment := segments[segment].(state := Completed)];
      }
      happened := multiset{Finished(id)};
      return Ok(()), happened;
    }

    method FailExtraction(id: JobId, worker: string, errorCode: string, retryAt: int, now: int)
      returns (r: Result<JobState, QueueError>, ghost happened: multiset<Happening>)
      modifies this
      ensures Step(old(View()), Fail(id, worker, errorCode, retryAt, now), View(), happened)
      ensures r.Ok? ==> id in jobs && r.value == jobs[id].state && (r.value.Pending? || r.value.NeedsAttention?)
      ensures r.Ok? ==> jobs[id].nextAttemptAt == retryAt && jobs[id].lastError == Some(errorCode)
      ensures r.Err? <==> FailureError(old(View()), Fail(id, worker, errorCode, retryAt, now)).Some?
    {
      hide ValidErrorCode;
      happened := multiset{};
      if !ValidErrorCode(errorCode) || retryAt < now { return Err(InvalidInput), happened; }
      if !Holds(View(), id, worker, now) { return Err(LeaseLost), happened; }
      var segment := jobs[id].segment;
      var attempts := jobs[id].attempts;
      var state := if attempts >= MAX_ATTEMPTS then NeedsAttention else Pending;
      jobs := jobs[id := jobs[id].(state := state, leaseOwner := None, leaseExpiresAt := None,
                                   nextAttemptAt := retryAt, lastError := Some(errorCode))];
      if segment in segments {
        segments := segments[segment := SegmentRow(state, attempts)];
      }
      happened := multiset{Failed(id)};
      return Ok(state), happened;
    }

    method SetExtractionPaused(value: bool)
      modifies this
      ensures Step(old(View()), SetPaused(value), View(), multiset{})
    {
      paused := value;
    }
  }
}
