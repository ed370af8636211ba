/** Signing in, refreshing and signing out as interleaved steps: a login notes the session generation
    before it talks to the provider and stores its session only if no sign-out has moved it since. */
module SessionLifecycle {
  import opened Wrappers
  import opened Integers

  /** A stored session, tagged with the number of sign-outs that had begun when its login took its
      snapshot. A refreshed session keeps the tag of the session it replaces. */
  datatype Session = Session(token: nat, seen: nat)

  /** The one login that may be in progress; `seen` is the tag its session will get. */
  datatype Login = NoLogin | Begun | Snapshotted(generation: nat, seen: nat) | Settled

  /** `invalidations` counts sign-outs without bound; the program keeps only `generation`. The lifecycle
      lock is held between the two halves of a sign-out. */
  datatype State = State(generation: nat, invalidations: nat, login: Login, stored: Option<Session>, signingOut: bool)

  datatype Refresh = Refreshed(token: nat) | Terminal | Transient

  datatype Step =
    | BeginLogin
    | TakeSnapshot
    | FinishLogin(token: nat, keychainOk: bool)
    | DropLogin
    | BeginSignOut
    | FinishSignOut(deleted: bool)
    | UseToken(expiring: bool, refresh: Refresh, keychainOk: bool)

  const INITIAL := State(0, 0, NoLogin, None, false)

  function Take(s: State, step: Step): State {
    match step
    case BeginLogin => if s.login.NoLogin? then s.(login := Begun) else s
    case TakeSnapshot => if s.login.Begun? then s.(login := Snapshotted(s.generation, s.invalidations)) else s
    case FinishLogin(token, keychainOk) =>
      if s.signingOut || !s.login.Snapshotted? then s
      else if s.login.generation != s.generation || !keychainOk then s.(login := Settled)
      else s.(login := Settled, stored := Some(Session(token, s.login.seen)))
    case DropLogin => s.(login := NoLogin)
    case BeginSignOut =>
      if s.signingOut then s
      else s.(generation := (s.generation + 1) % U64_MODULUS, invalidations := s.invalidations + 1, signingOut := true)
    case FinishSignOut(deleted) =>
      if !s.signingOut then s
      else s.(signingOut := false, stored := if deleted then None else s.stored)
    case UseToken(expiring, refresh, keychainOk) =>
      if s.signingOut || s.stored.None? || !expiring then s
      else
        match refresh
        case Refreshed(token) => if keychainOk then s.(stored := Some(Session(token, s.stored.value.seen))) else s
        case Terminal => if keychainOk then s.(stored := None) else s
        case Transient => s
  }

  function Run(s: State, steps: seq<Step>): State
    decreases |steps|
  {
    if steps == [] then s else Run(Take(s, steps[0]), steps[1..])
  }

  // ---------- which steps change what ----------

  /** A step that stores a session: a login whose snapshot still holds, or a refresh of the stored one. */
  predicate Stores(s: State, step: Step, session: Session) {
    && !s.signingOut
    && (|| (step.FinishLogin? && step.keychainOk && s.login.Snapshotted? && s.login.generation == s.generation
            && session == Session(step.token, s.login.seen))
        || (step.UseToken? && step.keychainOk && step.expiring && s.stored.Some? && step.refresh.Refreshed?
            && session == Session(step.refresh.token, s.stored.value.seen)))
  }

  /** A step that removes it: the end of a sign-out, or a refresh refused for good. */
  predicate Removes(s: State, step: Step) {
    || (step.FinishSignOut? && s.signingOut && step.deleted)
    || (step.UseToken? && !s.signingOut && step.expiring && step.keychainOk && step.refresh.Terminal?)
  }

  /** Nothing else touches the stored session. */
  lemma StoredExactly(s: State, step: Step)
    ensures forall session :: Stores(s, step, session) ==> Take(s, step).stored == Some(session)
    ensures Removes(s, step) ==> Take(s, step).stored == None
    ensures !Removes(s, step) && !(exists session :: Stores(s, step, session)) ==> Take(s, step).stored == s.stored
  {
    if step.FinishLogin? && s.login.Snapshotted? {
      assert Take(s, step).stored != s.stored ==> Stores(s, step, Session(step.token, s.login.seen));
    } else if step.UseToken? && s.stored.Some? && step.refresh.Refreshed? {
      assert Take(s, step).stored != s.stored ==>
          Stores(s, step, Session(step.refresh.token, s.stored.value.seen));
    }
  }

  /** A login advances one phase at a time, and only a login that is not there begins. */
  lemma LoginExactly(s: State, step: Step)
    ensures var login := Take(s, step).login;
      && (step.BeginLogin? && s.login.NoLogin? ==> login == Begun)
      && (step.TakeSnapshot? && s.login.Begun? ==> login == Snapshotted(s.generation, s.invalidations))
      && (step.FinishLogin? && s.login.Snapshotted? && !s.signingOut ==> login == Settled)
      && (step.DropLogin? ==> login == NoLogin)
      && (login != s.login ==>
            || (step.BeginLogin? && s.login.NoLogin?) || (step.TakeSnapshot? && s.login.Begun?)
            || (step.FinishLogin? && s.login.Snapshotted? && !s.signingOut) || step.DropLogin?)
  {
  }

  /** The generation moves once for every sign-out that begins while none is under way. */
  lemma SignOutExactly(s: State, step: Step)
    ensures var t := Take(s, step); var begins := step.BeginSignOut? && !s.signingOut;
      && t.invalidations == s.invalidations + (if begins then 1 else 0)
      && t.generation == (if begins then (s.generation + 1) % 0x1_0000_0000_0000_0000 else s.generation)
      && (t.signingOut <==> begins || (s.signingOut && !step.FinishSignOut?))
  {
  }

  /** A session stored at some step is the one in use until a later step stores another or removes it. */
  lemma {:induction false} SessionStays(s: State, steps: seq<Step>, session: Session)
    requires s.stored == Some(session)
    requires forall k | 0 <= k < |steps| ::
      !Removes(Run(s, steps[..k]), steps[k]) && forall other :: !Stores(Run(s, steps[..k]), steps[k], other)
    ensures Run(s, steps).stored == Some(session)
    decreases |steps|
  {
    if steps != [] {
      var next := Take(s, steps[0]);
      assert steps[..0] == [];
      StoredExactly(s, steps[0]);
      forall k | 0 <= k < |steps| - 1
        ensures !Removes(Run(next, steps[1..][..k]), steps[1..][k])
        ensures forall other :: !Stores(Run(next, steps[1..][..k]), steps[1..][k], other)
      {
        assert steps[..k + 1][0] == steps[0] && steps[..k + 1][1..] == steps[1..][..k];
        assert Run(s, steps[..k + 1]) == Run(next, steps[1..][..k]);
        assert steps[1..][k] == steps[k + 1];
      }
      SessionStays(next, steps[1..], session);
    }
  }

  /** The generation is the number of sign-outs as a 64-bit word, and tags never run ahead of it. */
  predicate Counted(s: State) {
    && s.generation == s.invalidations % U64_MODULUS
    && (s.login.Snapshotted? ==> s.login.generation == s.login.seen % U64_MODULUS && s.login.seen <= s.invalidations)
    && (s.stored.Some? ==> s.stored.value.seen <= s.invalidations)
  }

  lemma TakeCounts(s: State, step: Step)
    requires Counted(s)
    ensures Counted(Take(s, step)) && s.invalidations <= Take(s, step).invalidations
  {
  }

  lemma {:induction false} RunCounts(s: State, steps: seq<Step>)
    requires Counted(s)
    ensures Counted(Run(s, steps)) && s.invalidations <= Run(s, steps).invalidations
    decreases |steps|
  {
    if steps != [] {
      TakeCounts(s, steps[0]);
      RunCounts(Take(s, steps[0]), steps[1..]);
    }
  }

  /** The words of two counts agree exactly when the counts differ by a multiple of 2^64. */
  lemma WordsAgree(a: nat, b: nat)
    requires a <= b
    ensures a % U64_MODULUS == b % U64_MODULUS <==> (b - a) % U64_MODULUS == 0
    ensures b < U64_MODULUS && a % U64_MODULUS == b % U64_MODULUS ==> a == b
  {
  }

  /** A finishing login stores its session exactly when the sign-outs begun since its snapshot are a
      multiple of 2^64: with fewer, exactly when there were none. */
  lemma LoginStoresExactly(s: State, token: nat)
    requires Counted(s) && !s.signingOut && s.login.Snapshotted?
    ensures Take(s, FinishLogin(token, true)).stored
            == if (s.invalidations - s.login.seen) % U64_MODULUS == 0
               then Some(Session(token, s.login.seen)) else s.stored
    ensures s.invalidations < U64_MODULUS ==>
      ((s.invalidations - s.login.seen) % U64_MODULUS == 0 <==> s.invalidations == s.login.seen)
  {
    WordsAgree(s.login.seen, s.invalidations);
  }

  /** The stored session, if any, comes from a login that took its snapshot after the `k`-th sign-out. */
  predicate Since(s: State, k: nat) { s.stored.Some? ==> s.stored.value.seen >= k }

  lemma TakeSince(s: State, step: Step, k: nat)
    requires Counted(s) && Since(s, k) && k <= s.invalidations < U64_MODULUS
    ensures Since(Take(s, step), k)
  {
    if step.FinishLogin? && s.login.Snapshotted? {
      WordsAgree(s.login.seen, s.invalidations);
    }
  }

  lemma {:induction false} RunSince(s: State, steps: seq<Step>, k: nat)
    requires Counted(s) && Since(s, k) && k <= s.invalidations && Run(s, steps).invalidations < U64_MODULUS
    ensures Since(Run(s, steps), k)
    decreases |steps|
  {
    if steps != [] {
      var next := Take(s, steps[0]);
      TakeCounts(s, steps[0]);
      RunCounts(next, steps[1..]);
      TakeSince(s, steps[0], k);
      RunSince(next, steps[1..], k);
    }
  }

  lemma RunSplit(s: State, a: seq<Step>, b: seq<Step>)
    ensures Run(s, a + b) == Run(Run(s, a), b)
    decreases |a|
  {
    if a == [] {
      assert a + b == b;
    } else {
      assert (a + b)[0] == a[0] && (a + b)[1..] == a[1..] + b;
      RunSplit(Take(s, a[0]), a[1..], b);
    }
  }

  /** Main result: after a sign-out that deleted the local session, whatever was in flight and whatever
      follows, a stored session comes from a login that took its snapshot after that sign-out began. */
  lemma SignedOutForGood(before: seq<Step>, after: seq<Step>)
    requires Run(INITIAL, before).signingOut
    requires Run(INITIAL, before + [FinishSignOut(true)] + after).invalidations < U64_MODULUS
    ensures Since(Run(INITIAL, before + [FinishSignOut(true)] + after), Run(INITIAL, before).invalidations)
  {
    var at := Run(INITIAL, before);
    RunCounts(INITIAL, before);
    RunSplit(INITIAL, before, [FinishSignOut(true)]);
    RunSplit(INITIAL, before + [FinishSignOut(true)], after);
    var signedOut := Take(at, FinishSignOut(true));
    assert Run(at, [FinishSignOut(true)]) == signedOut;
    TakeCounts(at, FinishSignOut(true));
    RunSince(signedOut, after, at.invalidations);
  }

  /** The word wraps: after exactly 2^64 sign-outs an in-flight login passes for current again. */
  lemma WrappedLoginStores(s: State, token: nat)
    requires Counted(s) && !s.signingOut && s.login.Snapshotted? && s.stored == None
    requires s.invalidations == s.login.seen + U64_MODULUS
    ensures Take(s, FinishLogin(token, true)).stored == Some(Session(token, s.login.seen))
  {
    assert (s.login.seen + U64_MODULUS) % U64_MODULUS == s.login.seen % U64_MODULUS;
  }

  // ---------- the session as the program keeps it ----------

  class SessionKeeper {
    var generation: nat
    var loginInProgress: bool
    var stored: Option<nat>
    var signingOut: bool
    ghost var tag: nat
    ghost var invalidations: nat
    ghost var login: Login

    constructor ()
      ensures View() == INITIAL && Valid()
    {
      generation, loginInProgress, stored, signingOut := 0, false, None, false;
      tag, invalidations, login := 0, 0, NoLogin;
    }

    ghost function View(): State
      reads this
    {
      var session := if stored.Some? then Some(Session(stored.value, tag)) else None;
      State(generation, invalidations, login, session, signingOut)
    }

    ghost predicate Valid()
      reads this
    {
      Counted(View()) && (loginInProgress <==> !login.NoLogin?)
    }

    method Begin() returns (begun: bool)
      requires Valid()
      modifies this
      ensures Valid() && View() == Take(old(View()), BeginLogin) && begun == old(login).NoLogin?
    {
      begun := !loginInProgress;
      if begun {
        loginInProgress := true;
        login := Begun;
      }
    }

    method Snapshot() returns (snapshot: nat)
      requires Valid() && login.Begun?
      modifies this
      ensures Valid() && View() == Take(old(View()), TakeSnapshot) && snapshot == generation == login.generation
    {
      snapshot := generation;
      login := Snapshotted(generation, invalidations);
    }

    /** The locked end of a login, with the snapshot it has carried since. */
    method StoreLogin(snapshot: nat, token: nat, keychainOk: bool) returns (cancelled: bool)
      requires Valid() && !signingOut && login.Snapshotted? && login.generation == snapshot
      modifies this
      ensures Valid() && View() == Take(old(View()), FinishLogin(token, keychainOk))
      ensures invalidations < U64_MODULUS ==> (cancelled <==> old(login).seen < invalidations)
    {
      WordsAgree(login.seen, invalidations);
      cancelled := snapshot != generation;
      if !cancelled && keychainOk {
        stored, tag := Some(token), login.seen;
      }
      login := Settled;
    }

    method Drop()
      requires Valid()
      modifies this
      ensures Valid() && View() == Take(old(View()), DropLogin)
    {
      loginInProgress := false;
      login := NoLogin;
    }

    method SignOutInvalidate()
      requires Valid() && !signingOut
      modifies this
      ensures Valid() && View() == Take(old(View()), BeginSignOut)
    {
      TakeCounts(View(), BeginSignOut);
      signingOut := true;
      generation := (generation + 1) % U64_MODULUS;
      invalidations := invalidations + 1;
    }

    method SignOutDelete(deleted: bool)
      requires Valid() && signingOut
      modifies this
      ensures Valid() && View() == Take(old(View()), FinishSignOut(deleted))
    {
      if deleted {
        stored := None;
      }
      signingOut := false;
    }

    method AccessToken(expiring: bool, refresh: Refresh, keychainOk: bool) returns (token: Option<nat>)
      requires Valid() && !signingOut
      modifies this
      ensures Valid() && View() == Take(old(View()), UseToken(expiring, refresh, keychainOk))
      ensures token.Some? ==> stored.Some? && token == stored
    {
      if stored.None? { return None; }
      var session := stored.value;
      if expiring {
        match refresh {
          case Refreshed(newer) =>
            session := newer;
            if !keychainOk { return None; }
            stored := Some(session);
          case Terminal =>
            if keychainOk { stored := None; }
            return None;
          case Transient => return None;
        }
      }
      return Some(session);
    }
  }
}
