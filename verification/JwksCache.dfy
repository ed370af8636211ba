/** The signing-key cache: any number of calls look keys up concurrently; one lock admits one refresh at a
    time; a fetched set is fresh for ten minutes and may be served stale for five more when refreshing fails. */
module JwksCache {
  import opened Wrappers

  const CACHE_TTL: nat := 10 * 60 * 1_000
  const STALE_IF_ERROR_TTL: nat := 5 * 60 * 1_000
  const UNKNOWN_KID_COOLDOWN: nat := 30 * 1_000

  /** A fetched key set, tagged with the time its fetch began. */
  datatype KeySet = KeySet(keys: map<string, nat>, began: nat)

  datatype Cached = Cached(keys: KeySet, expiresAt: nat, staleUntil: nat)

  datatype AuthError = Token | Jwks

  /** How a key was obtained: from a fresh cache, from a set another call fetched meanwhile, from this
      call's own fetch, or from a stale set after this call's refresh failed. */
  datatype Path = FromCache | Shared | Fetched | Stale

  datatype Served = Served(key: nat, from: KeySet, checkedAt: nat, path: Path)

  function Store(keys: KeySet): Cached {
    Cached(keys, keys.began + CACHE_TTL, keys.began + CACHE_TTL + STALE_IF_ERROR_TTL)
  }

  predicate IsFresh(c: Cached, now: nat) { c.expiresAt > now }

  predicate CanServeStale(c: Cached, now: nat) { c.staleUntil > now }

  function Find(keys: KeySet, kid: string, now: nat, path: Path): Option<Served> {
    if kid in keys.keys then Some(Served(keys.keys[kid], keys, now, path)) else None
  }

  function OrToken(s: Option<Served>): Result<Served, AuthError> { if s.Some? then Ok(s.value) else Err(Token) }

  /** What a call makes of its snapshot: a key at once, or a refresh with what it may serve if that fails. */
  datatype Judgement = Serve(served: Served) | Refresh(forced: bool, stale: Option<Served>)

  function Judge(cached: Option<Cached>, kid: string, now: nat): Judgement {
    if cached.Some? && IsFresh(cached.value, now) then
      match Find(cached.value.keys, kid, now, FromCache)
      case Some(served) => Serve(served)
      case None => Refresh(true, None)
    else if cached.Some? && CanServeStale(cached.value, now) then
      Refresh(false, Find(cached.value.keys, kid, now, Stale))
    else Refresh(false, None)
  }

  /** Under the lock: whether the cache already answers, so that nothing is fetched. */
  predicate Answers(value: Option<Cached>, lastForced: Option<nat>, forced: bool, now: nat) {
    && value.Some? && IsFresh(value.value, now)
    && (!forced || (lastForced.Some? && now - lastForced.value < UNKNOWN_KID_COOLDOWN))
  }

  // ---------- all calls together ----------

  type CallId = nat

  datatype Call =
    | Asked(kid: string)
    | Looked(kid: string, cached: Option<Cached>)
    | Queueing(kid: string, forced: bool, stale: Option<Served>)
    | Holding(kid: string, forced: bool, stale: Option<Served>)
    | Fetching(kid: string, forced: bool, stale: Option<Served>, began: nat)
    | Done(kid: string, reply: Result<Served, AuthError>)

  /** A fetch as it began: when, whether forced, whether the cache was fresh, and how many sets were fetched before. */
  datatype Begin = Begin(at: nat, forced: bool, wasFresh: bool, known: nat)

  datatype State = State(
    now: nat, value: Option<Cached>, lastForced: Option<nat>, holder: Option<CallId>, calls: map<CallId, Call>,
    begins: seq<Begin>, fetched: seq<KeySet>)

  const INITIAL := State(0, None, None, None, map[], [], [])

  datatype Step =
    | Pass(millis: nat)
    | Ask(id: CallId, kid: string)
    | Look(id: CallId)
    | Decide(id: CallId)
    | Acquire(id: CallId)
    | Recheck(id: CallId)
    | Finish(id: CallId, keys: map<string, nat>)  // an empty set is a failed fetch

  function Enter(s: State, id: CallId, c: Call): State { s.(calls := s.calls[id := c]) }

  function Release(s: State, id: CallId, c: Call): State { Enter(s, id, c).(holder := None) }

  function Rechecked(s: State, id: CallId): State
    requires id in s.calls && s.calls[id].Holding?
  {
    var c := s.calls[id];
    if Answers(s.value, s.lastForced, c.forced, s.now) then
      Release(s, id, Done(c.kid, OrToken(Find(s.value.value.keys, c.kid, s.now, Shared))))
    else
      Enter(s, id, Fetching(c.kid, c.forced, c.stale, s.now)).(
        lastForced := if c.forced then Some(s.now) else s.lastForced,
        begins := s.begins + [Begin(s.now, c.forced, s.value.Some? && IsFresh(s.value.value, s.now), |s.fetched|)])
  }

  function Finished(s: State, id: CallId, keys: map<string, nat>): State
    requires id in s.calls && s.calls[id].Fetching?
  {
    var c := s.calls[id];
    if keys == map[] then
      Release(s, id, Done(c.kid, if c.forced || c.stale.None? then Err(Jwks) else Ok(c.stale.value)))
    else
      var newest := KeySet(keys, c.began);
      Release(s, id, Done(c.kid, OrToken(Find(newest, c.kid, s.now, Fetched)))).(
        value := Some(Store(newest)), fetched := s.fetched + [newest])
  }

  function Take(s: State, step: Step): State {
    match step
    case Pass(millis) => s.(now := s.now + millis)
    case Ask(id, kid) => if id in s.calls then s else Enter(s, id, Asked(kid))
    case Look(id) =>
      if id in s.calls && s.calls[id].Asked? then Enter(s, id, Looked(s.calls[id].kid, s.value)) else s
    case Decide(id) =>
      if id in s.calls && s.calls[id].Looked? then
        match Judge(s.calls[id].cached, s.calls[id].kid, s.now)
        case Serve(served) => Enter(s, id, Done(s.calls[id].kid, Ok(served)))
        case Refresh(forced, stale) => Enter(s, id, Queueing(s.calls[id].kid, forced, stale))
      else s
    case Acquire(id) =>
      if id in s.calls && s.calls[id].Queueing? && s.holder.None? then
        Enter(s, id, Holding(s.calls[id].kid, s.calls[id].forced, s.calls[id].stale)).(holder := Some(id))
      else s
    case Recheck(id) => if id in s.calls && s.calls[id].Holding? then Rechecked(s, id) else s
    case Finish(id, keys) => if id in s.calls && s.calls[id].Fetching? then Finished(s, id, keys) else s
  }

  function Run(s: State, steps: seq<Step>): State
    decreases |steps|
  {
    if steps == [] then s else Run(Take(s, steps[0]), steps[1..])
  }

  // ---------- what holds in every reachable state ----------

  predicate InFlight(c: Call) { c.Holding? || c.Fetching? }

  /** A call has the lock exactly when it rechecks or fetches: at most one fetch is in flight. */
  ghost predicate OneHolder(s: State) {
    && (forall id | id in s.calls && InFlight(s.calls[id]) :: s.holder == Some(id))
    && (s.holder.Some? ==> s.holder.value in s.calls && InFlight(s.calls[s.holder.value]))
  }

  /** A served key belongs to a fetched set that was young enough when it was checked. */
  predicate Sound(s: State, kid: string, served: Served) {
    && served.from in s.fetched && kid in served.from.keys && served.from.keys[kid] == served.key
    && served.checkedAt <= s.now
    && match served.path
       case FromCache => served.checkedAt < served.from.began + CACHE_TTL
       case Shared => served.checkedAt < served.from.began + CACHE_TTL
       case Fetched => true
       case Stale => served.checkedAt < served.from.began + CACHE_TTL + STALE_IF_ERROR_TTL
  }

  predicate SoundCached(s: State, c: Option<Cached>) {
    c.Some? ==> c.value.keys in s.fetched && c.value == Store(c.value.keys)
  }

  /** What a call may fall back on when its refresh fails: nothing if it is forced. */
  predicate SoundFallback(s: State, kid: string, forced: bool, stale: Option<Served>) {
    stale.Some? ==> !forced && stale.value.path.Stale? && Sound(s, kid, stale.value)
  }

  predicate SoundCall(s: State, c: Call) {
    match c
    case Asked(_) => true
    case Looked(_, cached) => SoundCached(s, cached)
    case Queueing(kid, forced, stale) => SoundFallback(s, kid, forced, stale)
    case Holding(kid, forced, stale) => SoundFallback(s, kid, forced, stale)
    case Fetching(kid, forced, stale, began) => began <= s.now && SoundFallback(s, kid, forced, stale)
    case Done(kid, reply) => reply.Ok? ==> Sound(s, kid, reply.value)
  }

  ghost predicate SoundCalls(s: State) {
    SoundCached(s, s.value) && forall id | id in s.calls :: SoundCall(s, s.calls[id])
  }

  lemma JudgeSound(s: State, cached: Option<Cached>, kid: string)
    requires SoundCached(s, cached)
    ensures match Judge(cached, kid, s.now)
            case Serve(served) => Sound(s, kid, served)
            case Refresh(forced, stale) => SoundFallback(s, kid, forced, stale)
  {
  }

  /** Later states know more fetched sets and a later time. */
  predicate Grows(s: State, t: State) { s.now <= t.now && forall k | k in s.fetched :: k in t.fetched }

  lemma SoundGrows(s: State, t: State, c: Call)
    requires Grows(s, t) && SoundCall(s, c)
    ensures SoundCall(t, c)
  {
  }

  /** One call changes; the others stay sound. */
  lemma OneCallChanges(s: State, t: State, id: CallId)
    requires SoundCalls(s) && Grows(s, t) && SoundCached(t, t.value) && id in t.calls && SoundCall(t, t.calls[id])
    requires forall x | x in t.calls && x != id :: x in s.calls && t.calls[x] == s.calls[x]
    ensures SoundCalls(t)
  {
    forall x | x in t.calls ensures SoundCall(t, t.calls[x]) {
      if x != id {
        SoundGrows(s, t, s.calls[x]);
      }
    }
  }

  lemma TakeGrows(s: State, step: Step)
    ensures Grows(s, Take(s, step))
  {
  }

  lemma TakeKeepsHolder(s: State, step: Step)
    requires OneHolder(s)
    ensures OneHolder(Take(s, step))
  {
    hide Judge, Answers, Find, OrToken, Store;
  }

  lemma RecheckSound(s: State, id: CallId)
    requires SoundCalls(s) && id in s.calls && s.calls[id].Holding?
    ensures SoundCalls(Rechecked(s, id))
  {
    var t := Rechecked(s, id);
    assert SoundCall(s, s.calls[id]);
    assert SoundCall(t, t.calls[id]);
    hide Rechecked, SoundCall;
    OneCallChanges(s, t, id);
  }

  lemma FinishSound(s: State, id: CallId, keys: map<string, nat>)
    requires SoundCalls(s) && id in s.calls && s.calls[id].Fetching?
    ensures SoundCalls(Finished(s, id, keys))
  {
    var t := Finished(s, id, keys);
    assert SoundCall(s, s.calls[id]);
    assert Grows(s, t) && SoundCached(t, t.value);
    assert SoundCall(t, t.calls[id]);
    hide Finished, SoundCall;
    OneCallChanges(s, t, id);
  }

  lemma StillSound(s: State, t: State)
    requires SoundCalls(s) && Grows(s, t) && t.calls == s.calls && t.value == s.value
    ensures SoundCalls(t)
  {
    forall x | x in t.calls ensures SoundCall(t, t.calls[x]) {
      SoundGrows(s, t, s.calls[x]);
    }
  }

  lemma TakeSound(s: State, step: Step)
    requires SoundCalls(s)
    ensures SoundCalls(Take(s, step))
  {
    var t := Take(s, step);
    TakeGrows(s, step);
    match step
    case Recheck(id) => if id in s.calls && s.calls[id].Holding? { RecheckSound(s, id); }
    case Finish(id, keys) => if id in s.calls && s.calls[id].Fetching? { FinishSound(s, id, keys); }
    case Pass(_) => StillSound(s, t);
    case Decide(id) =>
      if id in s.calls && s.calls[id].Looked? {
        assert SoundCall(s, s.calls[id]);
        JudgeSound(s, s.calls[id].cached, s.calls[id].kid);
        hide Judge;
        assert SoundCall(t, t.calls[id]);
        OneCallChanges(s, t, id);
      }
    case Acquire(id) =>
      if t != s {
        assert SoundCall(s, s.calls[id]);
        assert SoundCall(t, t.calls[id]);
        OneCallChanges(s, t, id);
      }
    case Ask(id, _) => if t != s { OneCallChanges(s, t, id); }
    case Look(id) => if t != s { OneCallChanges(s, t, id); }
  }

  /** The cached value is the set fetched last, fetched sets are in the order their fetches began, and the
      fetch in flight began after all of them. */
  ghost predicate Ordered(s: State) {
    && (s.value.Some? <==> s.fetched != [])
    && (s.fetched != [] ==> s.value.value == Store(s.fetched[|s.fetched| - 1]))
    && (forall i, j | 0 <= i < j < |s.fetched| :: s.fetched[i].began <= s.fetched[j].began)
    && (forall i | 0 <= i < |s.fetched| :: s.fetched[i].began <= s.now)
    && (forall id, i | id in s.calls && s.calls[id].Fetching? && 0 <= i < |s.fetched| ::
          s.fetched[i].began <= s.calls[id].began)
    && (forall id | id in s.calls && s.calls[id].Fetching? :: s.calls[id].began <= s.now)
  }

  lemma FinishOrdered(s: State, id: CallId, keys: map<string, nat>)
    requires Ordered(s) && OneHolder(s) && id in s.calls && s.calls[id].Fetching?
    ensures Ordered(Finished(s, id, keys))
  {
    hide Find, OrToken, Store;
  }

  lemma TakeOrdered(s: State, step: Step)
    requires Ordered(s) && OneHolder(s)
    ensures Ordered(Take(s, step))
  {
    hide Judge, Answers, Find, OrToken, Store, Finished;
    if step.Finish? {
      if step.id in s.calls && s.calls[step.id].Fetching? {
        FinishOrdered(s, step.id, step.keys);
      }
    }
  }

  /** An unforced fetch begins only when every set known is ten minutes old; a forced one that finds the
      cache fresh begins at least thirty seconds after every earlier forced one. */
  ghost predicate Justified(s: State, j: nat)
    requires j < |s.begins|
  {
    var b := s.begins[j];
    && b.at <= s.now && b.known <= |s.fetched|
    && (!b.forced ==> forall i | 0 <= i < b.known :: s.fetched[i].began + CACHE_TTL <= b.at)
    && (b.forced && b.wasFresh ==>
          forall i | 0 <= i < j && s.begins[i].forced :: s.begins[i].at + UNKNOWN_KID_COOLDOWN <= b.at)
  }

  ghost predicate History(s: State) {
    && (forall j | 0 <= j < |s.begins| :: Justified(s, j))
    && (forall j | 0 <= j < |s.begins| && s.begins[j].forced ::
          s.lastForced.Some? && s.begins[j].at <= s.lastForced.value)
    && (s.lastForced.Some? ==> s.lastForced.value <= s.now)
  }

  lemma RecheckHistory(s: State, id: CallId)
    requires History(s) && Ordered(s) && id in s.calls && s.calls[id].Holding?
    ensures History(Rechecked(s, id))
  {
    var t := Rechecked(s, id);
    hide Find, OrToken;
    forall j | 0 <= j < |t.begins| ensures Justified(t, j) {
      if j < |s.begins| {
        assert Justified(s, j) && t.begins[j] == s.begins[j];
      }
    }
  }

  lemma FinishHistory(s: State, id: CallId, keys: map<string, nat>)
    requires History(s) && id in s.calls && s.calls[id].Fetching?
    ensures History(Finished(s, id, keys))
  {
    var t := Finished(s, id, keys);
    hide Find, OrToken, Store;
    forall j | 0 <= j < |t.begins| ensures Justified(t, j) {
      assert Justified(s, j);
    }
  }

  lemma TakeHistory(s: State, step: Step)
    requires History(s) && Ordered(s)
    ensures History(Take(s, step))
  {
    hide Judge, Answers, Find, OrToken, Store, Ordered;
    match step
    case Recheck(id) => if id in s.calls && s.calls[id].Holding? { RecheckHistory(s, id); }
    case Finish(id, keys) => if id in s.calls && s.calls[id].Fetching? { FinishHistory(s, id, keys); }
    case _ =>
      var t := Take(s, step);
      forall j | 0 <= j < |t.begins| ensures Justified(t, j) {
        assert Justified(s, j);
      }
  }

  // ---------- what each step decides, by the age of the sets ----------

  /** What a call makes of the set it found cached: a set under ten minutes old either has the key or makes the
      call force a refresh; one under fifteen may be fallen back on; an older one counts for nothing. */
  lemma JudgeExactly(known: KeySet, kid: string, now: nat)
    ensures var age := now - known.began;
      var has := kid in known.keys;
      Judge(Some(Store(known)), kid, now) ==
        if age < 600_000 && has then Serve(Served(known.keys[kid], known, now, FromCache))
        else if age < 600_000 then Refresh(true, None)
        else if age < 900_000 && has then Refresh(false, Some(Served(known.keys[kid], known, now, Stale)))
        else Refresh(false, None)
    ensures Judge(None, kid, now) == Refresh(false, None)
  {
  }

  /** Whether a call that got the lock fetches: the newest set is ten minutes old or there is none, or the call
      forces a refresh and none was forced in the last thirty seconds. */
  predicate MustFetch(s: State, forced: bool) {
    || s.fetched == []
    || s.now - s.fetched[|s.fetched| - 1].began >= 600_000
    || (forced && (s.lastForced.None? || s.now - s.lastForced.value >= 30_000))
  }

  /** A call that need not fetch is answered from the newest set, and one that must notes when it begins. */
  lemma RecheckExactly(s: State, id: CallId)
    requires Ordered(s) && id in s.calls && s.calls[id].Holding?
    ensures var t := Take(s, Recheck(id)); var c := s.calls[id];
      && (MustFetch(s, c.forced) ==>
            && t.calls == s.calls[id := Fetching(c.kid, c.forced, c.stale, s.now)] && t.holder == s.holder
            && t.lastForced == (if c.forced then Some(s.now) else s.lastForced) && |t.begins| == |s.begins| + 1)
      && (!MustFetch(s, c.forced) ==>
            var newest := s.fetched[|s.fetched| - 1];
            && t == s.(holder := None, calls := s.calls[id := Done(c.kid,
                 if c.kid in newest.keys then Ok(Served(newest.keys[c.kid], newest, s.now, Shared)) else Err(Token))]))
      && t.value == s.value && t.fetched == s.fetched && t.now == s.now
  {
  }

  /** How a fetch ends: with keys it becomes the newest set and answers its call; without, the call falls back on
      what it had found unless it was forced. Either way the lock is free again. */
  lemma FinishExactly(s: State, id: CallId, keys: map<string, nat>)
    requires id in s.calls && s.calls[id].Fetching?
    ensures var t := Take(s, Finish(id, keys)); var c := s.calls[id];
      && t.holder == None && t.lastForced == s.lastForced && t.begins == s.begins && t.now == s.now
      && t.fetched == s.fetched + (if keys == map[] then [] else [KeySet(keys, c.began)])
      && (keys == map[] ==> t.value == s.value)
      && (keys != map[] ==>
            t.value == Some(Cached(KeySet(keys, c.began), c.began + 600_000, c.began + 900_000)))
      && t.calls == s.calls[id := Done(c.kid,
           if keys == map[] && !c.forced && c.stale.Some? then Ok(c.stale.value)
           else if keys == map[] then Err(Jwks)
           else if c.kid in keys then Ok(Served(keys[c.kid], KeySet(keys, c.began), s.now, Fetched))
           else Err(Token))]
  {
  }

  /** The other steps move one call on, or the clock. */
  lemma StepExactly(s: State, step: Step)
    requires !step.Recheck? && !step.Finish?
    ensures var t := Take(s, step);
      && t.now == s.now + (if step.Pass? then step.millis else 0)
      && t == s.(now := t.now, calls := t.calls, holder := t.holder)
      && (step.Pass? ==> t.calls == s.calls)
      && (step.Ask? ==> t.calls == if step.id in s.calls then s.calls else s.calls[step.id := Asked(step.kid)])
      && (step.Look? && step.id in s.calls && s.calls[step.id].Asked? ==>
            t.calls == s.calls[step.id := Looked(s.calls[step.id].kid, s.value)])
      && (step.Decide? && step.id in s.calls && s.calls[step.id].Looked? ==>
            var c := s.calls[step.id];
            match Judge(c.cached, c.kid, s.now)
            case Serve(served) => t.calls == s.calls[step.id := Done(c.kid, Ok(served))]
            case Refresh(forced, stale) => t.calls == s.calls[step.id := Queueing(c.kid, forced, stale)])
      && (step.Acquire? && step.id in s.calls && s.calls[step.id].Queueing? && s.holder.None? ==>
            var c := s.calls[step.id];
            t.holder == Some(step.id) && t.calls == s.calls[step.id := Holding(c.kid, c.forced, c.stale)])
      && (t.holder != s.holder ==> step.Acquire? && s.holder.None?)
      && (t.calls != s.calls && !step.Ask? ==> !step.Pass? && step.id in s.calls)
  {
    hide Judge;
  }

  ghost predicate Invariant(s: State) { OneHolder(s) && SoundCalls(s) && Ordered(s) && History(s) }

  /** Main result: over every interleaving of calls, at most one fetch is in flight, every served key is
      sound, and every fetch was justified when it began. */
  lemma {:induction false} RunKeeps(s: State, steps: seq<Step>)
    requires Invariant(s)
    ensures Invariant(Run(s, steps))
    decreases |steps|
  {
    if steps != [] {
      hide OneHolder, SoundCalls, Ordered, History;
      TakeKeepsHolder(s, steps[0]);
      TakeSound(s, steps[0]);
      TakeOrdered(s, steps[0]);
      TakeHistory(s, steps[0]);
      RunKeeps(Take(s, steps[0]), steps[1..]);
    }
  }

  lemma InitialInvariant()
    ensures Invariant(INITIAL)
  {
  }

  /** Calls racing on a cold cache share one fetch: once a set was fetched, no unforced call begins a
      fetch until ten minutes after that set's own fetch began. */
  lemma RacersShareOneFetch(steps: seq<Step>, j: nat)
    requires j < |Run(INITIAL, steps).begins| && !Run(INITIAL, steps).begins[j].forced
    ensures var s := Run(INITIAL, steps); var b := s.begins[j];
      b.known <= |s.fetched| && forall i | 0 <= i < b.known :: s.fetched[i].began + CACHE_TTL <= b.at
  {
    InitialInvariant();
    RunKeeps(INITIAL, steps);
    assert Justified(Run(INITIAL, steps), j);
  }

  /** Whatever a call returns was fetched within the age its path allows. */
  lemma ServedIsYoung(steps: seq<Step>, id: CallId)
    requires var s := Run(INITIAL, steps); id in s.calls && s.calls[id].Done? && s.calls[id].reply.Ok?
    ensures var s := Run(INITIAL, steps); Sound(s, s.calls[id].kid, s.calls[id].reply.value)
  {
    InitialInvariant();
    RunKeeps(INITIAL, steps);
    assert SoundCall(Run(INITIAL, steps), Run(INITIAL, steps).calls[id]);
  }

  /** A stale key is served only by a call whose own refresh has just failed. */
  lemma StaleOnlyAfterFailure(s: State, step: Step, id: CallId)
    requires SoundCalls(s) && id in s.calls && !s.calls[id].Done?
    requires var t := Take(s, step); t.calls[id].Done? && t.calls[id].reply.Ok? && t.calls[id].reply.value.path.Stale?
    ensures step == Finish(id, map[]) && s.calls[id].Fetching? && !s.calls[id].forced
  {
    assert SoundCall(s, s.calls[id]);
  }

  // ---------- the cache as an object ----------

  class KeyCache {
    var value: Option<Cached>
    var lastForced: Option<nat>

    constructor ()
      ensures value == None && lastForced == None && Valid()
    {
      value, lastForced := None, None;
    }

    ghost predicate Valid()
      reads this
    {
      value.Some? ==> value.value == Store(value.value.keys)
    }

    /** One refresh by the holder of the lock, at time `now`; `response` is the fetched set, empty on failure. */
    method RefreshKeys(forced: bool, now: nat, response: map<string, nat>) returns (r: Result<KeySet, AuthError>)
      requires Valid()
      modifies this
      ensures Valid()
      ensures Answers(old(value), old(lastForced), forced, now) ==>
        r == Ok(old(value).value.keys) && value == old(value) && lastForced == old(lastForced)
      ensures !Answers(old(value), old(lastForced), forced, now) ==>
        && lastForced == (if forced then Some(now) else old(lastForced))
        && (response == map[] ==> r == Err(Jwks) && value == old(value))
        && (response != map[] ==> r == Ok(KeySet(response, now)) && value == Some(Store(KeySet(response, now))))
    {
      if value.Some? && IsFresh(value.value, now)
         && (!forced || (lastForced.Some? && now - lastForced.value < UNKNOWN_KID_COOLDOWN)) {
        return Ok(value.value.keys);
      }
      if forced {
        lastForced := Some(now);
      }
      if response == map[] { return Err(Jwks); }
      var keys := KeySet(response, now);
      value := Some(Cached(keys, now + CACHE_TTL, now + CACHE_TTL + STALE_IF_ERROR_TTL));
      return Ok(keys);
    }

    /** The cached set is fresh at `now` and so soon after a forced refresh that no other one is made. */
    predicate CoolingDown(now: nat)
      reads this
    {
      value.Some? && IsFresh(value.value, now) && lastForced.Some? && now - lastForced.value < UNKNOWN_KID_COOLDOWN
    }

    predicate Knows(kid: string)
      reads this
    {
      value.Some? && kid in value.value.keys.keys
    }

    predicate FreshAt(at: nat)
      reads this
    {
      value.Some? && IsFresh(value.value, at)
    }

    /** A call alone: the snapshot is judged at `asked`, the lock is taken at `now`. A fresh set answers for the
        keys it holds, and refuses the others while cooling down; every other call fetches, and when that
        fails falls back on a known key of a set that is no longer fresh but still servable. */
    method LookUp(kid: string, asked: nat, now: nat, response: map<string, nat>) returns (r: Result<nat, AuthError>)
      requires Valid() && asked <= now
      modifies this
      ensures Valid()
      ensures old(FreshAt(asked) && Knows(kid)) ==>
        r == Ok(old(value).value.keys.keys[kid]) && value == old(value) && lastForced == old(lastForced)
      ensures old(FreshAt(asked) && !Knows(kid) && CoolingDown(now)) ==>
        r == Err(Token) && value == old(value) && lastForced == old(lastForced)
      ensures old(FreshAt(asked) ==> !Knows(kid) && !CoolingDown(now)) ==>
        && lastForced == (if old(FreshAt(asked)) then Some(now) else old(lastForced))
        && (response != map[] ==>
              && value == Some(Store(KeySet(response, now)))
              && r == if kid in response then Ok(response[kid]) else Err(Token))
        && (response == map[] ==>
              && value == old(value)
              && r == if old(!FreshAt(asked) && Knows(kid)) && CanServeStale(old(value).value, asked)
                      then Ok(old(value).value.keys.keys[kid]) else Err(Jwks))
    {
      match Judge(value, kid, asked) {
        case Serve(served) => return Ok(served.key);
        case Refresh(forced, stale) =>
          var keys := RefreshKeys(forced, now, response);
          if keys.Ok? {
            return if kid in keys.value.keys then Ok(keys.value.keys[kid]) else Err(Token);
          }
          return if forced || stale.None? then Err(Jwks) else Ok(stale.value.key);
      }
    }
  }
}
