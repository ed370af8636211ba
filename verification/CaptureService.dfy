/** The capture service: start and stop, each in two halves around the platform call, interleaved with the
    platform's callbacks. */
module CaptureService {
  import opened Wrappers
  import opened Frames
  import opened Integers

  datatype CaptureState = Stopped | Starting | Running | Stopping | Failed

  type Source = nat

  /** The half-done operation that holds the lifecycle lock; a stop has taken the session out, if any. */
  datatype Lifecycle = Free | InStart | InStop(tookSession: bool)

  /** What the status shows as the last error. */
  datatype Diagnostic = BadFrame(error: FrameError) | Stream(message: string) | StopFailure(message: string)

  datatype Service = Service(
    state: CaptureState, source: Option<Source>, session: bool, frames: Ingest, drops: nat,
    lastError: Option<Diagnostic>, lifecycle: Lifecycle)

  /** A callback is `own` when it counts on the drop counter of the latest start; a frame is given as validated
      and compacted, and `contended` when the state lock is taken. */
  datatype Step =
    | BeginStart(source: Source)
    | FinishStart(ok: bool)
    | BeginStop
    | FinishStop(failure: Option<string>)
    | Deliver(own: bool, contended: bool, problem: Option<FrameError>, frame: Frame)
    | Drop(own: bool)
    | StreamError(message: string)

  const INITIAL := Service(Stopped, None, false, EMPTY, 0, None, Free)

  const MAX_DIAGNOSTIC: nat := 256

  function Bounded(message: string): string {
    if |message| <= MAX_DIAGNOSTIC then message else message[..MAX_DIAGNOSTIC]
  }

  function StopOutcome(tookSession: bool, failure: Option<string>): CaptureState {
    if tookSession && failure.Some? then Failed else Stopped
  }

  /** An atomic counter wraps. */
  function CountDrop(drops: nat): nat { (drops + 1) % U64_MODULUS }

  function Dropped(s: Service, own: bool): Service { if own then s.(drops := CountDrop(s.drops)) else s }

  function Take(s: Service, step: Step): Service {
    match step
    case BeginStart(source) =>
      if s.lifecycle.Free? && s.state.Stopped?
      then s.(state := Starting, source := Some(source), lastError := None, drops := 0, lifecycle := InStart) else s
    case FinishStart(ok) =>
      if !s.lifecycle.InStart? then s
      else if ok then s.(session := true, state := Running, lifecycle := Free)
      else s.(state := Stopped, source := None, lifecycle := Free)
    case BeginStop =>
      if !s.lifecycle.Free? || s.state.Stopped? || s.state.Stopping? then s
      else s.(state := Stopping, session := false, lifecycle := InStop(s.session))
    case FinishStop(failure) =>
      if !s.lifecycle.InStop? then s
      else
        var outcome := StopOutcome(s.lifecycle.tookSession, failure);
        s.(frames := s.frames.(latest := None), source := None, state := outcome,
           lastError := if outcome.Failed? then Some(StopFailure(failure.value)) else s.lastError, lifecycle := Free)
    case Deliver(own, contended, problem, frame) =>
      if contended || !s.state.Running? then Dropped(s, own)
      else if problem.Some? then s.(frames := Refused(s.frames), lastError := Some(BadFrame(problem.value)))
      else s.(frames := Commit(s.frames, frame))
    case Drop(own) => Dropped(s, own)
    case StreamError(message) =>
      s.(frames := s.frames.(metrics := s.frames.metrics.(streamErrors := Bump(s.frames.metrics.streamErrors))),
         lastError := Some(Stream(Bounded(message))),
         state := if s.state.Running? then Failed else s.state)
  }

  function Run(s: Service, steps: seq<Step>): Service
    decreases |steps|
  {
    if steps == [] then s else Run(Take(s, steps[0]), steps[1..])
  }

  // ---------- which steps change what ----------

  predicate Starts(s: Service, step: Step) { step.BeginStart? && s.lifecycle == Free && s.state == Stopped }

  predicate Stops(s: Service, step: Step) {
    step.BeginStop? && s.lifecycle == Free && s.state in {Starting, Running, Failed}
  }

  predicate EndsStart(s: Service, step: Step) { step.FinishStart? && s.lifecycle == InStart }

  predicate EndsStop(s: Service, step: Step) { step.FinishStop? && s.lifecycle.InStop? }

  predicate StopFails(s: Service, step: Step) {
    EndsStop(s, step) && s.lifecycle.tookSession && step.failure.Some?
  }

  /** A frame that reaches the ingest: delivered to a running service whose state is free. */
  predicate Arrives(s: Service, step: Step) { step.Deliver? && !step.contended && s.state == Running }

  /** The lifecycle: every change of the state, the lock and the held resources, by the step that makes it. */
  lemma LifecycleExactly(s: Service, step: Step)
    ensures var t := Take(s, step);
      && (Starts(s, step) ==> t.state == Starting && t.source == Some(step.source) && t.lifecycle == InStart)
      && (EndsStart(s, step) ==>
            && t.lifecycle == Free && t.state == (if step.ok then Running else Stopped)
            && t.source == (if step.ok then s.source else None) && t.session == (step.ok || s.session))
      && (Stops(s, step) ==> t.state == Stopping && !t.session && t.lifecycle == InStop(s.session))
      && (EndsStop(s, step) ==>
            && t.lifecycle == Free && t.source == None
            && t.state == if s.lifecycle.tookSession && step.failure.Some? then Failed else Stopped)
      && (t.lifecycle != s.lifecycle ==>
            Starts(s, step) || EndsStart(s, step) || Stops(s, step) || EndsStop(s, step))
      && (t.state != s.state ==>
            || t.lifecycle != s.lifecycle || (step.StreamError? && s.state == Running && t.state == Failed))
      && (step.StreamError? && s.state == Running ==> t.state == Failed)
      && (t.source != s.source ==> Starts(s, step) || EndsStart(s, step) || EndsStop(s, step))
      && (t.session != s.session ==> EndsStart(s, step) || Stops(s, step))
  {
  }

  /** What the status shows: the drop counter, the last error and the ingest, by the step that changes them. */
  lemma ShownExactly(s: Service, step: Step)
    ensures var t := Take(s, step);
      var dropped := (step.Drop? && step.own) || (step.Deliver? && step.own && !Arrives(s, step));
      && t.drops == (if Starts(s, step) then 0
                     else if dropped then (s.drops + 1) % 0x1_0000_0000_0000_0000 else s.drops)
      && (Starts(s, step) ==> t.lastError == None)
      && (Arrives(s, step) && step.problem.Some? ==>
            t.lastError == Some(BadFrame(step.problem.value)) && t.frames == Refused(s.frames))
      && (Arrives(s, step) && step.problem.None? ==> t.frames == Commit(s.frames, step.frame))
      && (StopFails(s, step) ==> t.lastError == Some(StopFailure(step.failure.value)))
      && (EndsStop(s, step) ==> t.frames == s.frames.(latest := None))
      && (step.StreamError? ==>
            && t.lastError.Some? && t.lastError.value.Stream?
            && var shown := t.lastError.value.message;
               shown <= step.message && |shown| <= 256 && (|shown| < 256 ==> shown == step.message))
      && (step.StreamError? ==>
            && t.frames.latest == s.frames.latest
            && t.frames.metrics == s.frames.metrics.(streamErrors := Bump(s.frames.metrics.streamErrors)))
      && (t.lastError != s.lastError ==>
            || Starts(s, step) || (Arrives(s, step) && step.problem.Some?) || StopFails(s, step) || step.StreamError?)
      && (t.frames != s.frames ==> Arrives(s, step) || EndsStop(s, step) || step.StreamError?)
  {
  }

  predicate Empty(s: Service) { s.frames.latest.None? && !s.session && s.source.None? }

  /** A failed service shows a failure of its stream or of its stop, and stream messages are bounded. */
  predicate Explained(s: Service) {
    && (s.state.Failed? ==> s.lastError.Some? && !s.lastError.value.BadFrame?)
    && (s.state.Failed? && s.session ==> s.lastError.value.Stream?)
    && (s.lastError.Some? && s.lastError.value.Stream? ==> |s.lastError.value.message| <= MAX_DIAGNOSTIC)
  }

  /** What each state implies about the session, the source, the raw frame and the last error. */
  predicate Consistent(s: Service) {
    && (s.lifecycle.InStart? <==> s.state.Starting?)
    && (s.lifecycle.InStop? <==> s.state.Stopping?)
    && s.drops < U64_MODULUS && s.frames.metrics.dropped == 0
    && Explained(s)
    && match s.state
       case Stopped => Empty(s)
       case Starting => s.frames.latest.None? && !s.session && s.source.Some?
       case Running => s.session && s.source.Some?
       case Stopping => !s.session
       case Failed => s.session || Empty(s)
  }

  lemma TakeKeeps(s: Service, step: Step)
    requires Consistent(s)
    ensures Consistent(Take(s, step))
  {
  }

  lemma {:induction false} RunKeeps(s: Service, steps: seq<Step>)
    requires Consistent(s)
    ensures Consistent(Run(s, steps))
    decreases |steps|
  {
    if steps != [] {
      TakeKeeps(s, steps[0]);
      RunKeeps(Take(s, steps[0]), steps[1..]);
    }
  }

  /** Main result: in every interleaving of starts, stops and callbacks, a stopped service holds no raw
      frame, no session and no source, a raw frame is held only by one that was running, and a failed
      service shows why it failed. */
  lemma StoppedIsEmpty(steps: seq<Step>)
    ensures var s := Run(INITIAL, steps);
      && (s.state.Stopped? ==> Empty(s))
      && (s.frames.latest.Some? ==> s.state.Running? || s.state.Stopping? || (s.state.Failed? && s.session))
      && Explained(s)
  {
    RunKeeps(INITIAL, steps);
  }

  predicate IsCallback(c: Step) { c.Deliver? || c.Drop? || c.StreamError? }

  lemma {:induction false} CallbacksLeaveStopAlone(s: Service, callbacks: seq<Step>)
    requires s.lifecycle.InStop? && s.state.Stopping?
    requires forall c | c in callbacks :: IsCallback(c)
    ensures var t := Run(s, callbacks); t.lifecycle == s.lifecycle && t.state.Stopping? && t.session == s.session
    decreases |callbacks|
  {
    if callbacks != [] {
      assert IsCallback(callbacks[0]);
      CallbacksLeaveStopAlone(Take(s, callbacks[0]), callbacks[1..]);
    }
  }

  /** A stop that runs to its end empties the service whatever callbacks arrive in between; when the
      platform refuses to stop, the service is left failed with the refusal as its last error, and the
      next stop succeeds. */
  lemma StopEmpties(s: Service, callbacks: seq<Step>, failure: Option<string>, again: Option<string>)
    requires Consistent(s) && s.lifecycle.Free? && !s.state.Stopped?
    requires forall c | c in callbacks :: IsCallback(c)
    ensures var t := Take(Run(Take(s, BeginStop), callbacks), FinishStop(failure));
      && Empty(t) && t.lifecycle.Free?
      && t.state == StopOutcome(s.session, failure)
      && (t.state.Failed? ==>
            && t.lastError == Some(StopFailure(failure.value))
            && Take(Take(t, BeginStop), FinishStop(again)).state.Stopped?)
  {
    TakeKeeps(s, BeginStop);
    CallbacksLeaveStopAlone(Take(s, BeginStop), callbacks);
  }

  // ---------- counting frames ----------

  /** The counters a status shows: frames dropped by callbacks are added in. */
  function Shown(s: Service): Metrics {
    s.frames.metrics.(dropped := SaturatingAdd(s.frames.metrics.dropped, s.drops))
  }

  predicate OffersFrame(c: Step) { c.Deliver? || c.Drop? }

  function Deliveries(steps: seq<Step>): nat {
    if steps == [] then 0 else (if OffersFrame(steps[0]) then 1 else 0) + Deliveries(steps[1..])
  }

  function CountedFrames(s: Service): nat { Total(Shown(s)) + Shown(s).dropped }

  lemma TakeCounts(s: Service, step: Step)
    requires Consistent(s) && CountedFrames(s) + 1 < U64_MODULUS
    requires !step.BeginStart? && (OffersFrame(step) ==> step.own)
    ensures CountedFrames(Take(s, step)) == CountedFrames(s) + if OffersFrame(step) then 1 else 0
  {
  }

  /** Main result: until the next start, every frame the platform offers to its own session is counted exactly
      once, as accepted, duplicate, invalid or dropped, whatever starts, stops and failures surround it. */
  lemma {:induction false} EveryFrameCountedOnce(s: Service, steps: seq<Step>)
    requires Consistent(s) && CountedFrames(s) + |steps| < U64_MODULUS
    requires forall c | c in steps :: !c.BeginStart? && (OffersFrame(c) ==> c.own)
    ensures CountedFrames(Run(s, steps)) == CountedFrames(s) + Deliveries(steps)
    decreases |steps|
  {
    if steps != [] {
      var next := Take(s, steps[0]);
      assert steps[0] in steps;
      TakeKeeps(s, steps[0]);
      TakeCounts(s, steps[0]);
      hide Take, Consistent, CountedFrames;
      EveryFrameCountedOnce(next, steps[1..]);
    }
  }

  // ---------- the service as an object ----------

  /** The shared counter a start hands to its callbacks. */
  class DropCounter {
    var value: nat

    constructor ()
      ensures value == 0
    {
      value := 0;
    }

    method Record()
      modifies this
      ensures value == CountDrop(old(value))
    {
      value := (value + 1) % U64_MODULUS;
    }
  }

  class Capture {
    const frames: FrameIngest
    var state: CaptureState
    var source: Option<Source>
    var session: bool
    var lastError: Option<Diagnostic>
    var callbackDrops: DropCounter
    ghost var lifecycle: Lifecycle

    constructor (frames: FrameIngest)
      requires frames.View() == EMPTY && frames.Valid()
      ensures View() == INITIAL && Valid() && this.frames == frames && fresh(callbackDrops)
    {
      this.frames := frames;
      state, source, session, lastError, lifecycle := Stopped, None, false, None, Free;
      callbackDrops := new DropCounter();
    }

    ghost function View(): Service
      reads this, frames, callbackDrops
    {
      Service(state, source, session, frames.View(), callbackDrops.value, lastError, lifecycle)
    }

    ghost predicate Valid()
      reads this, frames, callbackDrops
    {
      frames.Valid() && Consistent(View())
    }

    method StartBegin(from: Source) returns (started: bool)
      requires Valid() && lifecycle.Free?
      modifies this
      ensures Valid() && View() == Take(old(View()), BeginStart(from)) && started == old(state).Stopped?
      ensures if started then fresh(callbackDrops) else callbackDrops == old(callbackDrops)
    {
      TakeKeeps(View(), BeginStart(from));
      started := state.Stopped?;
      if started {
        state := Starting;
        source := Some(from);
        lastError := None;
        callbackDrops := new DropCounter();
        lifecycle := InStart;
      }
    }

    method StartFinish(ok: bool)
      requires Valid() && lifecycle.InStart?
      modifies this
      ensures Valid() && View() == Take(old(View()), FinishStart(ok)) && callbackDrops == old(callbackDrops)
    {
      TakeKeeps(View(), FinishStart(ok));
      lifecycle := Free;
      if !ok {
        state := Stopped;
        source := None;
        return;
      }
      session := true;
      state := Running;
    }

    method StopBegin() returns (stopping: bool, tookSession: bool)
      requires Valid() && lifecycle.Free?
      modifies this
      ensures Valid() && View() == Take(old(View()), BeginStop) && callbackDrops == old(callbackDrops)
      ensures stopping <==> !old(state).Stopped?
      ensures stopping ==> lifecycle == InStop(tookSession)
    {
      TakeKeeps(View(), BeginStop);
      stopping, tookSession := false, false;
      if state.Stopped? || state.Stopping? { return; }
      state := Stopping;
      stopping, tookSession := true, session;
      session := false;
      lifecycle := InStop(tookSession);
    }

    method StopFinish(tookSession: bool, failure: Option<string>) returns (stopped: bool)
      requires Valid() && lifecycle == InStop(tookSession)
      modifies this, frames
      ensures Valid() && View() == Take(old(View()), FinishStop(failure)) && Empty(View())
      ensures callbackDrops == old(callbackDrops) && (stopped <==> state.Stopped?)
    {
      TakeKeeps(View(), FinishStop(failure));
      stopped := !tookSession || failure.None?;
      frames.ClearLatest();
      source := None;
      state := if stopped then Stopped else Failed;
      lifecycle := Free;
      if !stopped {
        lastError := Some(StopFailure(failure.value));
      }
    }

    /** A frame callback holding `counter`; `frame` is the input as compacted, when it is valid. */
    method OnFrame(counter: DropCounter, contended: bool, input: FrameInput) returns (kept: bool, ghost frame: Frame)
      requires Valid()
      modifies this, frames, counter
      ensures Valid() && callbackDrops == old(callbackDrops)
      ensures View() == Take(old(View()), Deliver(counter == callbackDrops, contended, FrameProblem(input), frame))
      ensures counter.value ==
        if contended || !old(state).Running? then CountDrop(old(counter.value)) else old(counter.value)
      ensures kept <==> !contended && old(state).Running? && FrameProblem(input).None?
      ensures kept ==>
        && Compacted(frame.bytes, input.data, input.height, input.bytesPerRow, input.width * BYTES_PER_PIXEL)
        && frame == Frame(CompactMetadata(input, |frame.bytes|), frame.bytes, frames.digest(frame.bytes))
    {
      hide FrameProblem, Compacted, Commit, Consistent;
      frame := Frame(CompactMetadata(input, 0), [], 0);
      TakeKeeps(View(), Deliver(counter == callbackDrops, contended, FrameProblem(input), frame));
      if contended || !state.Running? {
        counter.Record();
        return false, frame;
      }
      var r := frames.IngestFrame(input);
      kept := r.Ok?;
      if kept {
        ghost var bytes :| Compacted(bytes, input.data, input.height, input.bytesPerRow, input.width * BYTES_PER_PIXEL)
          && frames.View()
             == Commit(old(frames.View()), Frame(CompactMetadata(input, |bytes|), bytes, frames.digest(bytes)));
        frame := Frame(CompactMetadata(input, |bytes|), bytes, frames.digest(bytes));
        TakeKeeps(old(View()), Deliver(counter == callbackDrops, contended, FrameProblem(input), frame));
      } else {
        lastError := Some(BadFrame(r.error));
      }
    }

    method OnOwnedFrame(counter: DropCounter, contended: bool, owned: Frame) returns (kept: bool)
      requires Valid()
      modifies this, frames, counter
      ensures Valid() && callbackDrops == old(callbackDrops)
      ensures var problem := FrameProblem(OwnedInput(owned));
        View() == Take(old(View()), Deliver(counter == callbackDrops, contended, problem, Accepted(owned)))
      ensures counter.value ==
        if contended || !old(state).Running? then CountDrop(old(counter.value)) else old(counter.value)
      ensures kept <==> !contended && old(state).Running? && FrameProblem(OwnedInput(owned)).None?
    {
      hide FrameProblem, Consistent;
      TakeKeeps(View(), Deliver(counter == callbackDrops, contended, FrameProblem(OwnedInput(owned)), Accepted(owned)));
      if contended || !state.Running? {
        counter.Record();
        return false;
      }
      var r := frames.IngestOwned(owned);
      kept := r.Ok?;
      if !kept {
        lastError := Some(BadFrame(r.error));
      }
    }

    /** An owned frame as it is committed: with its actual length and digest. */
    function Accepted(owned: Frame): Frame
      reads this
    {
      Frame(owned.metadata.(byteLen := |owned.bytes|), owned.bytes, frames.digest(owned.bytes))
    }

    method OnStreamError(message: string)
      requires Valid()
      modifies this, frames
      ensures Valid() && View() == Take(old(View()), StreamError(message)) && callbackDrops == old(callbackDrops)
    {
      TakeKeeps(View(), StreamError(message));
      frames.RecordStreamError();
      lastError := Some(Stream(Bounded(message)));
      if state.Running? {
        state := Failed;
      }
    }

    method Status() returns (shown: Metrics)
      requires Valid()
      ensures shown == Shown(View())
    {
      shown := frames.metrics.(dropped := SaturatingAdd(frames.metrics.dropped, callbackDrops.value));
    }
  }
}
