/** What the queue's operations mean for its rows, from the fields of the rows and of the requests alone, and
    what a row tells about the run that led to it. */
module QueueLaws {
  import opened Wrappers
  import opened Integers
  import opened ExtractionQueue
  import Text

  // ---------- what each operation does ----------

  /** A claim the queue acts on: a named worker, a lease of one second to fifteen minutes that ends at a
      representable time, and no pause. */
  predicate Admitted(q: Queue, r: Request)
    requires r.Claim?
  {
    && !q.paused && !Text.Blank(r.worker) && |r.worker| <= 128
    && 1_000 <= r.lease <= 900_000 && r.now + r.lease <= 0x7fff_ffff_ffff_ffff
  }

  predicate LeaseOver(j: Job, now: int) { j.state.Running? && j.leaseExpiresAt.Some? && j.leaseExpiresAt.value <= now }

  /** A job that may be handed out: due and waiting, or left behind by a worker, with an attempt to go. */
  predicate Available(j: Job, now: int) {
    j.attempts < 3 && ((j.state.Pending? && j.nextAttemptAt <= now) || LeaseOver(j, now))
  }

  function DueAt(j: Job, now: int): int { if j.state.Pending? then j.nextAttemptAt else now }

  predicate NotAfter(a: Job, b: Job, now: int) {
    DueAt(a, now) < DueAt(b, now) || (DueAt(a, now) == DueAt(b, now) && a.createdAt <= b.createdAt)
  }

  /** The row of a job a claim passes over. */
  function PassedOver(j: Job, now: int): Job {
    if !LeaseOver(j, now) then j
    else if j.attempts < 3 then
      Job(j.segment, Pending, j.attempts, now, None, None, j.createdAt, Some("lease_expired"))
    else Job(j.segment, NeedsAttention, j.attempts, j.nextAttemptAt, None, None, j.createdAt, Some("lease_exhausted"))
  }

  /** The row of a job a claim hands out. */
  function HandedOut(j: Job, r: Request): Job
    requires r.Claim?
  {
    Job(j.segment, Running, j.attempts + 1, DueAt(j, r.now), Some(r.worker), Some(r.now + r.lease), j.createdAt,
        if j.state.Pending? then j.lastError else Some("lease_expired"))
  }

  lemma RefusedClaim(q: Queue, r: Request, after: Queue, happened: multiset<Happening>)
    requires r.Claim? && Step(q, r, after, happened) && !Admitted(q, r)
    ensures after == q && happened == multiset{}
  {
  }

  lemma ClaimableIsAvailable(q: Queue, now: int, id: JobId)
    requires id in q.jobs
    ensures Claimable(Expire(q, now), id, now) <==> Available(q.jobs[id], now)
    ensures var e := Expire(q, now).jobs[id];
      && e == PassedOver(q.jobs[id], now) && e.createdAt == q.jobs[id].createdAt
      && (Available(q.jobs[id], now) ==> e.nextAttemptAt == DueAt(q.jobs[id], now))
  {
  }

  lemma HandedOutRow(q: Queue, r: Request, waiting: Job, id: JobId)
    requires r.Claim? && id in q.jobs && Available(q.jobs[id], r.now) && waiting == PassedOver(q.jobs[id], r.now)
    ensures waiting.(state := Running, attempts := waiting.attempts + 1, leaseOwner := Some(r.worker),
                     leaseExpiresAt := Some(r.now + r.lease)) == HandedOut(q.jobs[id], r)
  {
  }

  lemma AdmittedIsValid(q: Queue, r: Request)
    requires r.Claim?
    ensures Admitted(q, r) <==> !q.paused && ValidClaim(r.worker, r.lease) && r.now + r.lease <= I64_MAX
  {
  }

  /** With nothing available an admitted claim only passes over. */
  lemma ClaimPasses(q: Queue, r: Request, after: Queue, happened: multiset<Happening>)
    requires r.Claim? && Step(q, r, after, happened) && Admitted(q, r)
    requires forall id | id in q.jobs :: !Available(q.jobs[id], r.now)
    ensures after == Expire(q, r.now) && happened == Expiries(q, r.now)
  {
    AdmittedIsValid(q, r);
    var e := Expire(q, r.now);
    forall id ensures !Claimable(e, id, r.now) {
      if id in q.jobs { ClaimableIsAvailable(q, r.now, id); }
    }
    hide Expire, Expiries, Admitted, Claimable, Available, First, ValidClaim;
  }

  lemma FirstIsNotAfter(q: Queue, now: int, id: JobId)
    requires id in q.jobs && First(Expire(q, now), id, now)
    ensures forall x | x in q.jobs && Available(q.jobs[x], now) :: NotAfter(q.jobs[id], q.jobs[x], now)
  {
    var e := Expire(q, now);
    ClaimableIsAvailable(q, now, id);
    hide Expire, PassedOver, Available, Claimable, DueAt;
    forall x | x in q.jobs && Available(q.jobs[x], now) ensures NotAfter(q.jobs[id], q.jobs[x], now) {
      ClaimableIsAvailable(q, now, x);
      assert DueNoLater(e.jobs[id], e.jobs[x]);
    }
  }

  lemma FirstIsAvailable(q: Queue, now: int, id: JobId)
    requires First(Expire(q, now), id, now)
    ensures id in q.jobs && Available(q.jobs[id], now)
  {
    assert Expire(q, now).jobs.Keys == q.jobs.Keys;
    ClaimableIsAvailable(q, now, id);
    hide Expire, Available, DueNoLater;
  }

  lemma ClaimTakesFirst(q: Queue, r: Request, after: Queue, happened: multiset<Happening>) returns (id: JobId)
    requires r.Claim? && Step(q, r, after, happened) && Admitted(q, r)
    requires exists x | x in q.jobs :: Available(q.jobs[x], r.now)
    ensures id in q.jobs && First(Expire(q, r.now), id, r.now) && Available(q.jobs[id], r.now)
    ensures after == Grant(Expire(q, r.now), id, r.worker, r.now + r.lease)
    ensures happened == Expiries(q, r.now) + multiset{Claimed(id)}
  {
    AdmittedIsValid(q, r);
    var e := Expire(q, r.now);
    var x :| x in q.jobs && Available(q.jobs[x], r.now);
    ClaimableIsAvailable(q, r.now, x);
    assert e.jobs.Keys == q.jobs.Keys;
    assert ClaimStep(q, r, after, happened);
    hide Step, Admitted, ValidClaim, Expiries, Expire, Grant, Available, PassedOver, DueAt, First, Claimable;
    id :| First(e, id, r.now) && after == Grant(e, id, r.worker, r.now + r.lease)
      && happened == Expiries(q, r.now) + multiset{Claimed(id)};
    FirstIsAvailable(q, r.now, id);
  }

  /** Otherwise it hands out one available job, due no later than any other. */
  lemma ClaimHandsOut(q: Queue, r: Request, after: Queue, happened: multiset<Happening>) returns (id: JobId)
    requires r.Claim? && Step(q, r, after, happened) && Admitted(q, r)
    requires exists id | id in q.jobs :: Available(q.jobs[id], r.now)
    ensures id in q.jobs && Available(q.jobs[id], r.now)
    ensures after == Expire(q, r.now).(jobs := Expire(q, r.now).jobs[id := HandedOut(q.jobs[id], r)])
    ensures happened == Expiries(q, r.now) + multiset{Claimed(id)}
    ensures forall x | x in q.jobs && Available(q.jobs[x], r.now) :: NotAfter(q.jobs[id], q.jobs[x], r.now)
  {
    hide Step, First, Expire, Expiries, Admitted, HandedOut, PassedOver, Available, NotAfter;
    id := ClaimTakesFirst(q, r, after, happened);
    FirstIsNotAfter(q, r.now, id);
    ClaimableIsAvailable(q, r.now, id);
    HandedOutRow(q, r, Expire(q, r.now).jobs[id], id);
  }

  lemma ExpireRows(q: Queue, now: int)
    ensures var e := Expire(q, now);
      && e.nextId == q.nextId && e.segments == q.segments && e.paused == q.paused && e.jobs.Keys == q.jobs.Keys
      && forall id | id in q.jobs :: e.jobs[id] == PassedOver(q.jobs[id], now)
    ensures forall id :: Expiries(q, now)[Claimed(id)] == 0
  {
    forall id ensures Expiries(q, now)[Claimed(id)] == 0 { ExpiriesCount(q, now, id); }
    forall id | id in q.jobs ensures Expire(q, now).jobs[id] == PassedOver(q.jobs[id], now) {
      ClaimableIsAvailable(q, now, id);
    }
    hide Expiries, PassedOver;
  }

  /** An admitted claim hands out a job exactly when one is available, one due no later than any other, and
      passes over all others; nothing else changes. */
  lemma ClaimExactly(q: Queue, r: Request, after: Queue, happened: multiset<Happening>)
    requires r.Claim? && Step(q, r, after, happened) && Admitted(q, r)
    ensures after.nextId == q.nextId && after.segments == q.segments && after.paused == q.paused
    ensures after.jobs.Keys == q.jobs.Keys
    ensures (exists id :: happened[Claimed(id)] > 0) <==> exists id | id in q.jobs :: Available(q.jobs[id], r.now)
    ensures forall id | happened[Claimed(id)] > 0 ::
      && id in q.jobs && Available(q.jobs[id], r.now) && happened[Claimed(id)] == 1
      && after.jobs[id] == HandedOut(q.jobs[id], r)
      && forall x | x in q.jobs && Available(q.jobs[x], r.now) :: NotAfter(q.jobs[id], q.jobs[x], r.now)
    ensures forall id | id in q.jobs && happened[Claimed(id)] == 0 :: after.jobs[id] == PassedOver(q.jobs[id], r.now)
    ensures forall a, b | happened[Claimed(a)] > 0 && happened[Claimed(b)] > 0 :: a == b
  {
    ExpireRows(q, r.now);
    if exists id | id in q.jobs :: Available(q.jobs[id], r.now) {
      var id := ClaimHandsOut(q, r, after, happened);
      assert happened[Claimed(id)] == 1;
    } else {
      ClaimPasses(q, r, after, happened);
    }
    hide Step, Expire, Expiries, Available, PassedOver, HandedOut, NotAfter, Admitted;
  }

  /** The job is running under this worker's lease, which ends after `now`. */
  predicate HeldBy(q: Queue, id: JobId, worker: string, now: int) {
    && id in q.jobs && q.jobs[id].state.Running? && q.jobs[id].leaseOwner == Some(worker)
    && q.jobs[id].leaseExpiresAt.Some? && now < q.jobs[id].leaseExpiresAt.value
  }

  /** Lower-case letters, digits, underscores, hyphens and full stops, by code point. */
  predicate IsErrorCode(code: string) {
    && 1 <= |code| <= 64
    && forall c | c in code :: 97 <= c as int <= 122 || 48 <= c as int <= 57 || c as int in {95, 45, 46}
  }

  lemma ErrorCodes(code: string)
    ensures ValidErrorCode(code) <==> IsErrorCode(code)
  {
  }

  predicate FailureAccepted(q: Queue, r: Request)
    requires r.Fail?
  {
    IsErrorCode(r.errorCode) && r.now <= r.retryAt && HeldBy(q, r.id, r.worker, r.now)
  }

  /** A failure reported by the lease holder sends the job back until the time it asks for or, after the third
      attempt, out of the queue, and marks its segment; any other report changes nothing. */
  lemma FailureExactly(q: Queue, r: Request, after: Queue, happened: multiset<Happening>)
    requires r.Fail? && Step(q, r, after, happened)
    ensures !FailureAccepted(q, r) ==> after == q && happened == multiset{}
    ensures FailureAccepted(q, r) ==>
      var j := q.jobs[r.id];
      var state := if j.attempts < 3 then Pending else NeedsAttention;
      && happened == multiset{Failed(r.id)} && after.nextId == q.nextId && after.paused == q.paused
      && after.jobs == q.jobs[r.id :=
           Job(j.segment, state, j.attempts, r.retryAt, None, None, j.createdAt, Some(r.errorCode))]
      && after.segments.Keys == q.segments.Keys
      && forall s | s in q.segments ::
           after.segments[s] == if s == j.segment then SegmentRow(state, j.attempts) else q.segments[s]
  {
    ErrorCodes(r.errorCode);
    hide ValidErrorCode, IsErrorCode;
  }

  predicate CompletionAccepted(q: Queue, r: Request)
    requires r.Complete?
  {
    var c := r.completion;
    && !Text.Blank(c.provider) && |c.provider| <= 128 && !Text.Blank(c.model) && |c.model| <= 128
    && c.latency <= 0x7fff_ffff_ffff_ffff
    && (c.inputTokens.Some? ==> c.inputTokens.value <= 0x7fff_ffff_ffff_ffff)
    && (c.outputTokens.Some? ==> c.outputTokens.value <= 0x7fff_ffff_ffff_ffff)
    && HeldBy(q, r.id, r.worker, r.now)
  }

  /** A completion by the lease holder settles the job and its segment; any other changes nothing. */
  lemma CompletionExactly(q: Queue, r: Request, after: Queue, happened: multiset<Happening>)
    requires r.Complete? && Step(q, r, after, happened)
    ensures !CompletionAccepted(q, r) ==> after == q && happened == multiset{}
    ensures CompletionAccepted(q, r) ==>
      var j := q.jobs[r.id];
      && happened == multiset{Finished(r.id)} && after.nextId == q.nextId && after.paused == q.paused
      && after.jobs == q.jobs[r.id :=
           Job(j.segment, Completed, j.attempts, j.nextAttemptAt, None, None, j.createdAt, None)]
      && after.segments.Keys == q.segments.Keys
      && forall s | s in q.segments ::
           after.segments[s] == if s == j.segment then SegmentRow(Completed, q.segments[s].attempts) else q.segments[s]
  {
    hide Text.Blank;
  }

  predicate HasJob(q: Queue, segment: string) { exists id | id in q.jobs :: q.jobs[id].segment == segment }

  /** Enqueueing a known segment that has no job yet makes one that is due at once; anything else changes
      nothing. */
  lemma EnqueueExactly(q: Queue, r: Request, after: Queue, happened: multiset<Happening>)
    requires r.Enqueue? && Step(q, r, after, happened)
    ensures happened == multiset{}
    ensures var issues := && !Text.Blank(r.promptVersion) && |r.promptVersion| <= 64
                          && !Text.Blank(r.correlation) && |r.correlation| <= 128
                          && r.segment in q.segments && !HasJob(q, r.segment);
      after == if !issues then q
               else Queue(q.nextId + 1,
                          q.jobs[q.nextId := Job(r.segment, Pending, 0, r.now, None, None, r.now, None)],
                          q.segments, q.paused)
  {
    assert HasJob(q, r.segment) <==> Queued(q, r.segment);
    hide Text.Blank, Queued, HasJob;
  }

  /** The requests that touch no job by themselves: the pause switch, and the segments, whose jobs go with them. */
  lemma SegmentsExactly(q: Queue, r: Request, after: Queue, happened: multiset<Happening>)
    requires (r.SetPaused? || r.AddSegment? || r.DropSegment?) && Step(q, r, after, happened)
    ensures happened == multiset{} && after.nextId == q.nextId
    ensures after.paused == if r.SetPaused? then r.paused else q.paused
    ensures forall s :: s in after.segments <==>
      if r.AddSegment? && s == r.segment then true else s in q.segments && !(r.DropSegment? && s == r.segment)
    ensures forall s | s in after.segments ::
      after.segments[s] == if s in q.segments then q.segments[s] else SegmentRow(Pending, 0)
    ensures forall id :: id in after.jobs <==>
      id in q.jobs && !(r.DropSegment? && q.jobs[id].segment == r.segment)
    ensures forall id | id in after.jobs :: after.jobs[id] == q.jobs[id]
  {
  }

  /** The selection leaves ties open: any available job no other comes before may be handed out. */
  lemma MayBeHandedOut(q: Queue, r: Request, id: JobId)
    requires r.Claim? && Admitted(q, r) && id in q.jobs && Available(q.jobs[id], r.now)
    requires forall x | x in q.jobs && Available(q.jobs[x], r.now) :: NotAfter(q.jobs[id], q.jobs[x], r.now)
    ensures exists after :: Step(q, r, after, Expiries(q, r.now) + multiset{Claimed(id)})
  {
    AdmittedIsValid(q, r);
    var e := Expire(q, r.now);
    ClaimableIsAvailable(q, r.now, id);
    assert e.jobs.Keys == q.jobs.Keys;
    hide Admitted, ValidClaim, Expiries, Expire, Grant, Available, PassedOver, DueAt;
    forall x | Claimable(e, x, r.now) ensures DueNoLater(e.jobs[id], e.jobs[x]) {
      ClaimableIsAvailable(q, r.now, x);
    }
    assert First(e, id, r.now) && Claimable(e, id, r.now);
    hide First, Claimable;
    var after, happened := Grant(e, id, r.worker, r.now + r.lease), Expiries(q, r.now) + multiset{Claimed(id)};
    assert ClaimStep(q, r, after, happened);
    assert Step(q, r, after, happened);
  }

  // ---------- what a row tells about its run ----------

  lemma ClaimUntouched(q: Queue, r: Request, after: Queue, happened: multiset<Happening>, id: JobId)
    requires r.Claim? && Step(q, r, after, happened) && id in q.jobs && Untouched(id, happened)
    ensures id in after.jobs && after.jobs[id] == q.jobs[id]
  {
    ExpiriesCount(q, r.now, id);
    if Admitted(q, r) {
      ClaimExactly(q, r, after, happened);
      assert happened >= Expiries(q, r.now);
      assert happened[Expired(id)] >= Expiries(q, r.now)[Expired(id)];
      hide Expiries, Step;
    } else {
      RefusedClaim(q, r, after, happened);
    }
  }

  /** A job nothing happens to keeps its row. */
  lemma UntouchedStays(q: Queue, r: Request, after: Queue, happened: multiset<Happening>, id: JobId)
    requires Step(q, r, after, happened) && id in q.jobs && id in after.jobs && q.nextId !in q.jobs
    requires Untouched(id, happened)
    ensures after.jobs[id] == q.jobs[id]
  {
    if r.Claim? {
      ClaimUntouched(q, r, after, happened, id);
    } else {
      hide ValidName, ValidErrorCode, Storable, Queued;
    }
  }

  /** How a row follows from the request that last touched its job. */
  ghost predicate Tells(q: Queue, r: Request, happened: multiset<Happening>, id: JobId, j: Job) {
    match r
    case Enqueue(segment, _, _, now) =>
      id == q.nextId && j == Job(segment, Pending, 0, now, None, None, now, None)
    case Claim(worker, now, lease) =>
      if happened[Claimed(id)] > 0 then
        j.state.Running? && j.leaseOwner == Some(worker) && j.leaseExpiresAt == Some(now + lease)
      else
        && happened[Expired(id)] > 0
        && (j.state.Pending? || j.state.NeedsAttention?)
        && (j.state.Pending? ==> j.nextAttemptAt == now && j.lastError == Some("lease_expired"))
        && (j.state.NeedsAttention? ==> j.lastError == Some("lease_exhausted"))
    case Complete(x, _, _, _) => x == id && happened[Finished(id)] > 0 && j.state.Completed? && j.lastError == None
    case Fail(x, _, code, retryAt, _) =>
      && x == id && happened[Failed(id)] > 0
      && j.state == (if j.attempts < 3 then Pending else NeedsAttention)
      && j.nextAttemptAt == retryAt && j.lastError == Some(code)
    case _ => false
  }

  lemma ClaimHappened(q: Queue, r: Request, after: Queue, happened: multiset<Happening>, id: JobId)
    requires r.Claim? && Step(q, r, after, happened)
    ensures happened[Failed(id)] == 0 && happened[Finished(id)] == 0
    ensures happened[Expired(id)] > 0 ==> id in q.jobs && LeaseOver(q.jobs[id], r.now)
  {
    ExpiriesCount(q, r.now, id);
    hide Expiries, Expire, Grant;
  }

  lemma ClaimTells(q: Queue, r: Request, after: Queue, happened: multiset<Happening>, id: JobId)
    requires r.Claim? && Step(q, r, after, happened) && id in after.jobs
    requires id !in q.jobs || !Untouched(id, happened)
    ensures Tells(q, r, happened, id, after.jobs[id])
  {
    if Admitted(q, r) {
      ClaimExactly(q, r, after, happened);
      ExpiriesCount(q, r.now, id);
      ClaimHappened(q, r, after, happened, id);
      hide Step, Expiries;
    } else {
      RefusedClaim(q, r, after, happened);
    }
  }

  lemma StepTells(q: Queue, r: Request, after: Queue, happened: multiset<Happening>, id: JobId)
    requires Step(q, r, after, happened) && id in after.jobs && q.nextId !in q.jobs
    requires id !in q.jobs || !Untouched(id, happened)
    ensures Tells(q, r, happened, id, after.jobs[id])
  {
    StepIssues(q, r, after, happened, id);
    match r
    case Claim(_, _, _) => ClaimTells(q, r, after, happened, id);
    case Fail(_, _, _, _, _) => FailureExactly(q, r, after, happened);
    case Complete(_, _, _, _) => CompletionExactly(q, r, after, happened);
    case Enqueue(_, _, _, _) => EnqueueExactly(q, r, after, happened);
    case _ =>
  }

  /** The request at `i` is the last that touched the job, and tells its row. */
  ghost predicate ToldBy(run: seq<Entry>, i: nat, id: JobId, j: Job) {
    && i < |run| && Quiet(run, i + 1, id)
    && Tells(Before(EMPTY, run, i), run[i].request, run[i].happened, id, j)
  }

  lemma ToldExtends(run: seq<Entry>, i: nat, id: JobId, j: Job)
    requires run != [] && ToldBy(run[..|run| - 1], i, id, j) && Untouched(id, run[|run| - 1].happened)
    ensures ToldBy(run, i, id, j)
  {
    var before := run[..|run| - 1];
    assert Before(EMPTY, run, i) == Before(EMPTY, before, i) && run[i] == before[i];
    hide Untouched, Tells;
    forall k | i < k < |run| ensures Untouched(id, run[k].happened) {
      if k < |before| {
        assert before[k] == run[k] && Untouched(id, before[k].happened);
      }
    }
  }

  /** Main result: after any run the row of a job follows from the last request that touched it: when it is due,
      who holds it and until when, and which error it shows. */
  lemma {:induction false} RowToldByLast(run: seq<Entry>, id: JobId) returns (i: nat)
    requires IsRun(EMPTY, run) && id in End(EMPTY, run).jobs
    ensures ToldBy(run, i, id, End(EMPTY, run).jobs[id])
  {
    var n := |run| - 1;
    var before, last := End(EMPTY, run[..n]), run[n];
    RunPrefix(EMPTY, run, n);
    RunConserves(run[..n]);
    assert Balanced(before, History(run[..n]), before.nextId);
    hide Ledger;
    if id in before.jobs && Untouched(id, last.happened) {
      UntouchedStays(before, last.request, last.after, last.happened, id);
      hide IsRun, Step, ToldBy, Untouched;
      i := RowToldByLast(run[..n], id);
      ToldExtends(run, i, id, before.jobs[id]);
    } else {
      StepTells(before, last.request, last.after, last.happened, id);
      hide IsRun, Step;
      i := n;
    }
  }

  // ---------- how long a failed job waits ----------

  /** Nothing happens to the job in the entries from `start` up to `stop`. */
  ghost predicate QuietBetween(run: seq<Entry>, start: nat, stop: nat, id: JobId) {
    forall k | start <= k < stop && k < |run| :: Untouched(id, run[k].happened)
  }

  lemma StepAt(run: seq<Entry>, k: nat)
    requires IsRun(EMPTY, run) && k < |run|
    ensures Step(Before(EMPTY, run, k), run[k].request, run[k].after, run[k].happened)
  {
  }

  lemma IdsBelow(run: seq<Entry>, i: nat)
    requires IsRun(EMPTY, run) && i <= |run|
    ensures forall id | id in Before(EMPTY, run, i).jobs :: id < Before(EMPTY, run, i).nextId
  {
    RunPrefix(EMPTY, run, i);
    RunConserves(run[..i]);
    hide IsRun, Step;
    forall id | id in Before(EMPTY, run, i).jobs ensures id < Before(EMPTY, run, i).nextId {
      assert Balanced(Before(EMPTY, run, i), History(run[..i]), id);
    }
  }

  lemma RowStep(q: Queue, r: Request, after: Queue, happened: multiset<Happening>, id: JobId)
    requires Step(q, r, after, happened) && Untouched(id, happened) && id < q.nextId
    requires forall x | x in q.jobs :: x < q.nextId
    ensures id < after.nextId
    ensures id in after.jobs ==> id in q.jobs && after.jobs[id] == q.jobs[id]
  {
    hide Step, Untouched;
    StepIssues(q, r, after, happened, id);
    if id in q.jobs && id in after.jobs {
      UntouchedStays(q, r, after, happened, id);
    }
  }

  lemma {:induction false} RowStays(run: seq<Entry>, start: nat, stop: nat, id: JobId)
    requires IsRun(EMPTY, run) && start <= stop <= |run| && QuietBetween(run, start, stop, id)
    requires id in Before(EMPTY, run, start).jobs
    ensures id < Before(EMPTY, run, stop).nextId
    ensures id in Before(EMPTY, run, stop).jobs ==>
      Before(EMPTY, run, stop).jobs[id] == Before(EMPTY, run, start).jobs[id]
    decreases stop
  {
    hide IsRun, Untouched, Step;
    IdsBelow(run, start);
    if start < stop {
      var q, e := Before(EMPTY, run, stop - 1), run[stop - 1];
      assert Untouched(id, e.happened);
      assert QuietBetween(run, start, stop - 1, id);
      hide QuietBetween;
      RowStays(run, start, stop - 1, id);
      IdsBelow(run, stop - 1);
      StepAt(run, stop - 1);
      assert Before(EMPTY, run, stop) == e.after;
      hide Before;
      RowStep(q, e.request, e.after, e.happened, id);
    }
  }

  lemma FailureRow(q: Queue, r: Request, after: Queue, happened: multiset<Happening>, id: JobId)
    requires Step(q, r, after, happened) && happened[Failed(id)] > 0 && id in q.jobs && q.jobs[id].attempts < 3
    ensures r.Fail? && id in after.jobs && after.jobs[id].state.Pending? && after.jobs[id].attempts < 3
    ensures after.jobs[id].nextAttemptAt == r.retryAt && after.jobs[id].lastError == Some(r.errorCode)
  {
    SettlementHolds(q, r, after, happened, id);
    if r.Complete? {
      CompletionExactly(q, r, after, happened);
    } else {
      FailureExactly(q, r, after, happened);
    }
    hide Step;
  }

  lemma ClaimNeedsAvailable(q: Queue, r: Request, after: Queue, happened: multiset<Happening>, id: JobId)
    requires Step(q, r, after, happened) && id in q.jobs
    ensures happened[Claimed(id)] > 0 ==> r.Claim? && Available(q.jobs[id], r.now)
    ensures r.Claim? && Admitted(q, r) && Available(q.jobs[id], r.now) ==> exists x :: happened[Claimed(x)] > 0
  {
    if r.Claim? {
      if Admitted(q, r) {
        ClaimExactly(q, r, after, happened);
        hide Step;
      } else {
        RefusedClaim(q, r, after, happened);
      }
    } else {
      hide ValidName, ValidErrorCode, Storable, Queued;
    }
  }

  /** Main result: a job whose failure was accepted with attempts left waits, for as long as nothing else happens
      to it, with the reported error and until the reported time: no claim takes it earlier, and from then on it
      is available to every claim. */
  lemma {:induction false} FailedJobWaits(run: seq<Entry>, i: nat, k: nat, id: JobId)
    requires IsRun(EMPTY, run) && i < k < |run| && run[i].happened[Failed(id)] > 0
    requires id in Before(EMPTY, run, i).jobs && Before(EMPTY, run, i).jobs[id].attempts < 3
    requires QuietBetween(run, i + 1, k, id) && id in Before(EMPTY, run, k).jobs
    ensures run[i].request.Fail?
    ensures var failure, job, r := run[i].request, Before(EMPTY, run, k).jobs[id], run[k].request;
      && job.state.Pending? && job.lastError == Some(failure.errorCode)
      && (forall now :: Available(job, now) <==> failure.retryAt <= now)
      && (run[k].happened[Claimed(id)] > 0 ==> r.Claim? && failure.retryAt <= r.now)
      && (r.Claim? && Admitted(Before(EMPTY, run, k), r) && failure.retryAt <= r.now ==>
            exists x :: run[k].happened[Claimed(x)] > 0)
  {
    hide IsRun, Step, QuietBetween;
    var q, e, later, last := Before(EMPTY, run, i), run[i], Before(EMPTY, run, k), run[k];
    StepAt(run, i);
    StepAt(run, k);
    FailureRow(q, e.request, e.after, e.happened, id);
    assert Before(EMPTY, run, i + 1) == e.after;
    RowStays(run, i + 1, k, id);
    ClaimNeedsAvailable(later, last.request, last.after, last.happened, id);
  }
}
