/** `PinLockManager`: the PIN envelope, the persisted failure counter and its rate limit. */
module PinLock {
  import opened Text

  const PIN_MIN_LENGTH := 6
  const MAX_FAILED_ATTEMPTS := 5
  const LOCKOUT_BACKOFF_MS := 30_000

  datatype State = State(enrolled: bool, failedAttempts: nat, lockedUntil: Option<int>)

  const CLEAR_STATE := State(true, 0, None)

  type Salt = nat
  type Pepper = nat
  type Key = nat
  type Lak = seq<int>

  /** PBKDF2 then HKDF, as one fixed function of its three inputs. */
  type Kdf = (string, Salt, Pepper) -> Key

  /** The stored PIN envelope; `Garbled` parses as JSON but its fields cannot be decoded. */
  datatype Envelope = Absent | NotJson | Garbled | Sealed(salt: Salt, under: Key, lak: Lak)

  datatype Disk = Disk(envelope: Envelope, pepper: Option<Pepper>, pinState: State)

  /** A storage call works, rejects without effect, or rejects although it took effect. */
  datatype Fault = Works | Rejects | LandsAndRejects

  /** What one call meets: the clock, the random draws, and how its storage calls end. */
  datatype Env = Env(
    now: int, freshSalt: Salt, freshPepper: Pepper, readThrows: bool, pepper: Fault, write: Fault, save: Fault)

  datatype Reason = Wrong | LockedOut
  datatype Outcome =
    | Unlocked(lak: Lak)
    | Denied(reason: Reason, failedAttempts: nat, lockedUntil: Option<int>)
    | Threw

  datatype After = After(outcome: Outcome, state: State, disk: Disk)

  // ---------------------------------------------------------------------------
  // What each call does to the manager's state and to storage
  // ---------------------------------------------------------------------------

  predicate Locked(state: State, now: int) {
    state.lockedUntil.Some? && now < state.lockedUntil.value
  }

  function Persist(outcome: Outcome, next: State, disk: Disk, env: Env): After {
    After(if env.save.Works? then outcome else Threw, next, if env.save.Rejects? then disk else disk.(pinState := next))
  }

  function Failed(state: State, disk: Disk, env: Env): After {
    var n := state.failedAttempts + 1;
    var until := if n >= MAX_FAILED_ATTEMPTS - 1 then Some(env.now + LOCKOUT_BACKOFF_MS) else None;
    var reason := if n >= MAX_FAILED_ATTEMPTS then LockedOut else Wrong;
    Persist(Denied(reason, n, until), State(state.enrolled, n, until), disk, env)
  }

  /** The pepper that will be used, if any, and storage after it was minted if it was missing. */
  function PepperOf(disk: Disk, env: Env): (Option<Pepper>, Disk) {
    var used := if disk.pepper.Some? then disk.pepper else Some(env.freshPepper);
    (if env.pepper.Works? then used else None, if env.pepper.Rejects? then disk else disk.(pepper := used))
  }

  function AfterUnlock(kdf: Kdf, state: State, disk: Disk, secret: string, env: Env): After {
    if Locked(state, env.now) then After(Denied(LockedOut, state.failedAttempts, state.lockedUntil), state, disk)
    else if env.readThrows then After(Threw, state, disk)
    else match disk.envelope
      case Absent => Failed(state, disk, env)
      case NotJson => Failed(state, disk, env)
      case Garbled => After(Threw, state, disk)
      case Sealed(salt, under, lak) =>
        var (pepper, disk') := PepperOf(disk, env);
        if pepper.None? then After(Threw, state, disk')
        else if kdf(secret, salt, pepper.value) == under then Persist(Unlocked(lak), CLEAR_STATE, disk', env)
        else Failed(state, disk', env)
  }

  function AfterEnroll(kdf: Kdf, state: State, disk: Disk, secret: string, lak: Lak, env: Env): After {
    if |secret| < PIN_MIN_LENGTH then After(Threw, state, disk)
    else
      var (pepper, disk') := PepperOf(disk, env);
      if pepper.None? then After(Threw, state, disk')
      else
        var sealed := Sealed(env.freshSalt, kdf(secret, env.freshSalt, pepper.value), lak);
        match env.write
        case Rejects => After(Threw, state, disk')
        case LandsAndRejects => After(Threw, state, disk'.(envelope := sealed))
        case Works => Persist(Unlocked(lak), CLEAR_STATE, disk'.(envelope := sealed), env)
  }

  // ---------------------------------------------------------------------------
  // The class
  // ---------------------------------------------------------------------------

  class PinLockStorage {
    var envelope: Envelope
    var pepper: Option<Pepper>
    var pinState: State

    function Contents(): Disk
      reads this
    {
      Disk(envelope, pepper, pinState)
    }

    constructor (disk: Disk)
      ensures Contents() == disk
    {
      envelope, pepper, pinState := disk.envelope, disk.pepper, disk.pinState;
    }
  }

  class PinLockManager {
    var state: State
    const storage: PinLockStorage
    const kdf: Kdf

    /** A restarted app starts from the persisted counter. */
    constructor (storage: PinLockStorage, kdf: Kdf)
      ensures this.storage == storage && this.kdf == kdf
      ensures state == storage.pinState
    {
      this.storage := storage;
      this.kdf := kdf;
      this.state := storage.pinState;
    }

    method GetOrCreatePepper(env: Env) returns (r: Option<Pepper>)
      modifies storage`pepper
      ensures PepperOf(old(storage.Contents()), env) == (r, storage.Contents())
    {
      if storage.pepper.Some? {
        return if env.pepper.Works? then storage.pepper else None;
      }
      if !env.pepper.Rejects? {
        storage.pepper := Some(env.freshPepper);
      }
      r := if env.pepper.Works? then Some(env.freshPepper) else None;
    }

    method SavePinState(env: Env) returns (ok: bool)
      modifies storage`pinState
      ensures ok == env.save.Works?
      ensures storage.pinState == if env.save.Rejects? then old(storage.pinState) else state
    {
      if !env.save.Rejects? {
        storage.pinState := state;
      }
      ok := env.save.Works?;
    }

    method RegisterFailure(env: Env) returns (r: Outcome)
      modifies this`state, storage`pinState
      ensures After(r, state, storage.Contents()) == Failed(old(state), old(storage.Contents()), env)
    {
      var failedAttempts := state.failedAttempts + 1;
      if failedAttempts >= MAX_FAILED_ATTEMPTS {
        var lockedUntil := Some(env.now + LOCKOUT_BACKOFF_MS);
        state := State(state.enrolled, failedAttempts, lockedUntil);
        var saved := SavePinState(env);
        return if saved then Denied(LockedOut, failedAttempts, lockedUntil) else Threw;
      }
      var lockedUntil :=
        if failedAttempts >= MAX_FAILED_ATTEMPTS - 1 then Some(env.now + LOCKOUT_BACKOFF_MS) else None;
      state := State(state.enrolled, failedAttempts, lockedUntil);
      var saved := SavePinState(env);
      r := if saved then Denied(Wrong, failedAttempts, lockedUntil) else Threw;
    }

    method Unlock(secret: string, env: Env) returns (r: Outcome)
      modifies this`state, storage
      ensures After(r, state, storage.Contents()) == AfterUnlock(kdf, old(state), old(storage.Contents()), secret, env)
    {
      if state.lockedUntil.Some? && env.now < state.lockedUntil.value {
        return Denied(LockedOut, state.failedAttempts, state.lockedUntil);
      }
      if env.readThrows {
        return Threw;
      }
      match storage.envelope {
        case Absent => r := RegisterFailure(env);
        case NotJson => r := RegisterFailure(env);
        case Garbled => r := Threw;
        case Sealed(salt, under, lak) =>
          var pepper := GetOrCreatePepper(env);
          if pepper.None? {
            return Threw;
          }
          if kdf(secret, salt, pepper.value) != under {
            r := RegisterFailure(env);
            return;
          }
          state := CLEAR_STATE;
          var saved := SavePinState(env);
          r := if saved then Unlocked(lak) else Threw;
      }
    }

    method Enroll(secret: string, lak: Lak, env: Env) returns (r: Outcome)
      modifies this`state, storage
      ensures After(r, state, storage.Contents())
              == AfterEnroll(kdf, old(state), old(storage.Contents()), secret, lak, env)
    {
      if |secret| < PIN_MIN_LENGTH {
        return Threw;
      }
      var pepper := GetOrCreatePepper(env);
      if pepper.None? {
        return Threw;
      }
      if !env.write.Rejects? {
        storage.envelope := Sealed(env.freshSalt, kdf(secret, env.freshSalt, pepper.value), lak);
      }
      if !env.write.Works? {
        return Threw;
      }
      state := CLEAR_STATE;
      var saved := SavePinState(env);
      r := if saved then Unlocked(lak) else Threw;
    }

    /** The first clearing that rejects stops the rest; the counter is only reset after both. */
    method Disable(env: Env) returns (ok: bool)
      modifies this`state, storage
      ensures storage.envelope == if env.write.Rejects? then old(storage.envelope) else Absent
      ensures storage.pepper == if !env.write.Works? || env.pepper.Rejects? then old(storage.pepper) else None
      ensures state == if env.write.Works? && env.pepper.Works? then State(false, 0, None) else old(state)
      ensures ok == (env.write.Works? && env.pepper.Works? && env.save.Works?)
      ensures storage.pinState
              == if env.write.Works? && env.pepper.Works? && !env.save.Rejects? then State(false, 0, None) else old(storage.pinState)
    {
      if !env.write.Rejects? {
        storage.envelope := Absent;
      }
      if !env.write.Works? {
        return false;
      }
      if !env.pepper.Rejects? {
        storage.pepper := None;
      }
      if !env.pepper.Works? {
        return false;
      }
      state := State(false, 0, None);
      ok := SavePinState(env);
    }
  }

  // ---------------------------------------------------------------------------
  // Runs: attempts and restarts in any order
  // ---------------------------------------------------------------------------

  datatype Step = Attempt(secret: string, env: Env) | Restart
  datatype System = System(state: State, disk: Disk)

  function Next(kdf: Kdf, s: System, step: Step): System {
    match step
    case Attempt(secret, env) =>
      var after := AfterUnlock(kdf, s.state, s.disk, secret, env);
      System(after.state, after.disk)
    case Restart => System(s.disk.pinState, s.disk)
  }

  // ---------------------------------------------------------------------------
  // What one attempt does
  // ---------------------------------------------------------------------------

  /** The key a secret derives for the stored envelope, with the stored pepper or one minted now. */
  function Derived(kdf: Kdf, salt: Salt, disk: Disk, secret: string, env: Env): Key {
    kdf(secret, salt, if disk.pepper.Some? then disk.pepper.value else env.freshPepper)
  }

  /** The attempt is evaluated, and there is no readable envelope or the secret does not open it. */
  predicate WrongGuess(kdf: Kdf, s: System, secret: string, env: Env) {
    && !(s.state.lockedUntil.Some? && env.now < s.state.lockedUntil.value) && !env.readThrows
    && (|| s.disk.envelope.Absent? || s.disk.envelope.NotJson?
        || (&& s.disk.envelope.Sealed? && env.pepper.Works?
            && Derived(kdf, s.disk.envelope.salt, s.disk, secret, env) != s.disk.envelope.under))
  }

  predicate RightGuess(kdf: Kdf, s: System, secret: string, env: Env) {
    && !(s.state.lockedUntil.Some? && env.now < s.state.lockedUntil.value) && !env.readThrows
    && s.disk.envelope.Sealed? && env.pepper.Works?
    && Derived(kdf, s.disk.envelope.salt, s.disk, secret, env) == s.disk.envelope.under
  }

  /**
   * A wrong guess always counts: one failure more, and from the fourth on a lock of 30 seconds. The counter is stored
   * unless the save rejects without effect, and it is what is answered when the save works.
   */
  lemma {:induction false} WrongGuessCounts(kdf: Kdf, s: System, secret: string, env: Env)
    requires WrongGuess(kdf, s, secret, env)
    ensures var after := AfterUnlock(kdf, s.state, s.disk, secret, env);
            var n := s.state.failedAttempts + 1;
            var until := if n >= 4 then Some(env.now + 30000) else None;
            && after.state == State(s.state.enrolled, n, until)
            && after.disk.pinState == (if env.save.Rejects? then s.disk.pinState else after.state)
            && after.disk.envelope == s.disk.envelope
            && after.outcome == if env.save.Works? then Denied(if n >= 5 then LockedOut else Wrong, n, until) else Threw
  {
  }

  /** The right secret clears the counter and returns the key when the save works. */
  lemma {:induction false} RightGuessUnlocks(kdf: Kdf, s: System, secret: string, env: Env)
    requires RightGuess(kdf, s, secret, env)
    ensures var after := AfterUnlock(kdf, s.state, s.disk, secret, env);
            && after.state == State(true, 0, None)
            && after.disk.pinState == (if env.save.Rejects? then s.disk.pinState else after.state)
            && after.disk.envelope == s.disk.envelope
            && after.outcome == if env.save.Works? then Unlocked(s.disk.envelope.lak) else Threw
  {
  }

  /** Any other attempt leaves the counter, stored and in memory; outside the window it throws. */
  lemma {:induction false} OtherAttemptsDoNotCount(kdf: Kdf, s: System, secret: string, env: Env)
    requires !WrongGuess(kdf, s, secret, env) && !RightGuess(kdf, s, secret, env)
    ensures var after := AfterUnlock(kdf, s.state, s.disk, secret, env);
            && after.state == s.state && after.disk.pinState == s.disk.pinState && after.disk.envelope == s.disk.envelope
            && (after.outcome.Denied? <==> s.state.lockedUntil.Some? && env.now < s.state.lockedUntil.value)
            && (!after.outcome.Denied? ==> after.outcome == Threw)
  {
  }

  /** No attempt replaces a stored pepper; one that is minted is stored unless storing it rejects without effect. */
  lemma {:induction false} PepperIsKept(kdf: Kdf, s: System, secret: string, env: Env)
    ensures var after := AfterUnlock(kdf, s.state, s.disk, secret, env).disk;
            && (s.disk.pepper.Some? || env.pepper.Rejects? ==> after.pepper == s.disk.pepper)
            && (WrongGuess(kdf, s, secret, env) && s.disk.envelope.Sealed? ==> after.pepper.Some?)
            && (after.pepper == s.disk.pepper || after.pepper == Some(env.freshPepper))
  {
  }

  /** An attempt whose counter was not saved tells nothing: it throws, right secret or wrong. */
  lemma {:induction false} UnsavedAttemptTellsNothing(kdf: Kdf, s: System, secret: string, env: Env)
    requires !env.save.Works? && !Locked(s.state, env.now)
    ensures AfterUnlock(kdf, s.state, s.disk, secret, env).outcome == Threw
  {
  }

  /** Enrolling succeeds exactly on six characters or more and with working storage; then the secret holds the key. */
  lemma {:induction false} EnrollsExactly(kdf: Kdf, s: System, secret: string, lak: Lak, env: Env)
    ensures var after := AfterEnroll(kdf, s.state, s.disk, secret, lak, env);
            && (after.outcome.Unlocked? <==> |secret| >= 6 && env.pepper.Works? && env.write.Works? && env.save.Works?)
            && (after.outcome.Unlocked? ==>
                  && after.state == State(true, 0, None) && after.disk.pinState == after.state
                  && HoldsPin(kdf, after.disk, secret, lak))
            && (|secret| < 6 ==> after == After(Threw, s.state, s.disk))
            && (after.disk.envelope != s.disk.envelope ==> after.disk.pepper.Some? && HoldsPin(kdf, after.disk, secret, lak))
  {
  }

  // ---------------------------------------------------------------------------
  // The rate bound
  // ---------------------------------------------------------------------------

  /** An evaluated wrong guess whose counter reached storage, whether it was answered or threw. */
  predicate StoredWrong(kdf: Kdf, s: System, step: Step) {
    step.Attempt? && WrongGuess(kdf, s, step.secret, step.env) && !step.env.save.Rejects?
  }

  /** An evaluated wrong attempt whose answer reached the caller. */
  predicate AnsweredWrong(kdf: Kdf, s: System, step: Step) {
    step.Attempt? && !Locked(s.state, step.env.now)
    && AfterUnlock(kdf, s.state, s.disk, step.secret, step.env).outcome.Denied?
  }

  /** The attempt is evaluated, and its secret is one that opens the envelope. */
  predicate Opens(kdf: Kdf, s: System, step: Step) {
    step.Attempt? && RightGuess(kdf, s, step.secret, step.env)
  }

  function CountAnswered(kdf: Kdf, s: System, run: seq<Step>): nat
    decreases run
  {
    if run == [] then 0
    else (if AnsweredWrong(kdf, s, run[0]) then 1 else 0) + CountAnswered(kdf, Next(kdf, s, run[0]), run[1..])
  }

  /** Every attempt is made between `t0` and `t1`, and none is the right secret. */
  ghost predicate GuessesWithin(kdf: Kdf, s: System, run: seq<Step>, t0: int, t1: int)
    decreases run
  {
    run != [] ==>
      && (run[0].Attempt? ==> t0 <= run[0].env.now <= t1)
      && !Opens(kdf, s, run[0])
      && GuessesWithin(kdf, Next(kdf, s, run[0]), run[1..], t0, t1)
  }

  /** After `n` answered guesses, both counters are at least `n`, and from the fourth on both are locked. */
  predicate Throttled(state: State, n: nat, t0: int) {
    && n <= state.failedAttempts
    && (n >= MAX_FAILED_ATTEMPTS - 1 ==>
          state.lockedUntil.Some? && state.lockedUntil.value >= t0 + LOCKOUT_BACKOFF_MS * (n - 3))
  }

  lemma {:induction false} StepThrottles(kdf: Kdf, s: System, step: Step, n: nat, t0: int)
    requires Throttled(s.state, n, t0) && Throttled(s.disk.pinState, n, t0)
    requires step.Attempt? ==> t0 <= step.env.now
    requires !Opens(kdf, s, step)
    ensures var n' := if StoredWrong(kdf, s, step) then n + 1 else n;
            Throttled(Next(kdf, s, step).state, n', t0) && Throttled(Next(kdf, s, step).disk.pinState, n', t0)
    ensures StoredWrong(kdf, s, step) ==> step.env.now >= t0 + LOCKOUT_BACKOFF_MS * (n - 3) || n < 4
  {
  }

  function CountStored(kdf: Kdf, s: System, run: seq<Step>): nat
    decreases run
  {
    if run == [] then 0
    else (if StoredWrong(kdf, s, run[0]) then 1 else 0) + CountStored(kdf, Next(kdf, s, run[0]), run[1..])
  }

  lemma {:induction false} GuessesAreThrottled(kdf: Kdf, s: System, run: seq<Step>, n: nat, t0: int, t1: int)
    requires Throttled(s.state, n, t0) && Throttled(s.disk.pinState, n, t0)
    requires GuessesWithin(kdf, s, run, t0, t1)
    requires t0 <= t1 && n <= 4 + (t1 - t0) / LOCKOUT_BACKOFF_MS
    ensures n + CountStored(kdf, s, run) <= 4 + (t1 - t0) / LOCKOUT_BACKOFF_MS
    decreases run
  {
    if run != [] {
      StepThrottles(kdf, s, run[0], n, t0);
      var n' := if StoredWrong(kdf, s, run[0]) then n + 1 else n;
      GuessesAreThrottled(kdf, Next(kdf, s, run[0]), run[1..], n', t0, t1);
    }
  }

  /**
   * Rate bound. From any state, over any run of guesses and restarts with any storage failures, the wrong guesses
   * evaluated and stored within a stretch of `t1 - t0` ms number at most 4 + (t1 - t0) / 30000, answered or not.
   */
  lemma {:induction false} RateBound(kdf: Kdf, s: System, run: seq<Step>, t0: int, t1: int)
    requires t0 <= t1 && GuessesWithin(kdf, s, run, t0, t1)
    ensures CountStored(kdf, s, run) <= 4 + (t1 - t0) / 30000
    ensures CountAnswered(kdf, s, run) <= CountStored(kdf, s, run)
  {
    GuessesAreThrottled(kdf, s, run, 0, t0, t1);
    AnsweredAreStored(kdf, s, run);
  }

  lemma {:induction false} AnsweredAreStored(kdf: Kdf, s: System, run: seq<Step>)
    ensures CountAnswered(kdf, s, run) <= CountStored(kdf, s, run)
    decreases run
  {
    if run != [] {
      AnsweredAreStored(kdf, Next(kdf, s, run[0]), run[1..]);
    }
  }

  /** An attempt inside the lockout window changes nothing, right secret or not. */
  lemma {:induction false} RefusalChangesNothing(kdf: Kdf, s: System, secret: string, env: Env)
    requires Locked(s.state, env.now)
    ensures Next(kdf, s, Attempt(secret, env)) == s
    ensures AfterUnlock(kdf, s.state, s.disk, secret, env).outcome
            == Denied(LockedOut, s.state.failedAttempts, s.state.lockedUntil)
  {
  }

  // ---------------------------------------------------------------------------
  // The bound is met
  // ---------------------------------------------------------------------------

  function QuietEnv(now: int): Env { Env(now, 0, 0, false, Works, Works, Works) }

  /** The `i`-th fastest guess: four at once, then one each time the lock runs out. */
  function FastGuess(t0: int, i: nat): Step {
    Attempt("", QuietEnv(if i < 4 then t0 else t0 + LOCKOUT_BACKOFF_MS * (i - 3)))
  }

  function FastGuesses(t0: int, i: nat, n: nat): seq<Step>
    requires i <= n
    decreases n - i
  {
    if i == n then [] else [FastGuess(t0, i)] + FastGuesses(t0, i + 1, n)
  }

  ghost predicate AfterFast(s: System, t0: int, i: nat) {
    && s.disk.envelope.Absent? && s.state.failedAttempts == i
    && s.state.lockedUntil == if i < 4 then None else Some(t0 + LOCKOUT_BACKOFF_MS * (i - 3))
  }

  lemma {:induction false} FastGuessesAnswered(kdf: Kdf, s: System, t0: int, i: nat, n: nat)
    requires i <= n && AfterFast(s, t0, i)
    ensures CountAnswered(kdf, s, FastGuesses(t0, i, n)) == n - i
    ensures n > 0 ==> GuessesWithin(kdf, s, FastGuesses(t0, i, n), t0, FastGuess(t0, n - 1).env.now)
    decreases n - i
  {
    if i < n {
      var run := FastGuesses(t0, i, n);
      assert run[0] == FastGuess(t0, i) && run[1..] == FastGuesses(t0, i + 1, n);
      FastGuessesAnswered(kdf, Next(kdf, s, run[0]), t0, i + 1, n);
    }
  }

  /** No smaller bound holds: some run of guesses is answered exactly 4 + T / 30000 times in T ms. */
  lemma {:induction false} RateBoundIsMet(kdf: Kdf, t0: int, t1: int) returns (s: System, run: seq<Step>)
    requires t0 <= t1
    ensures GuessesWithin(kdf, s, run, t0, t1)
    ensures CountAnswered(kdf, s, run) == 4 + (t1 - t0) / LOCKOUT_BACKOFF_MS
  {
    var n := 4 + (t1 - t0) / LOCKOUT_BACKOFF_MS;
    var start := State(true, 0, None);
    s := System(start, Disk(Absent, None, start));
    run := FastGuesses(t0, 0, n);
    FastGuessesAnswered(kdf, s, t0, 0, n);
    WithinLonger(kdf, s, run, t0, FastGuess(t0, n - 1).env.now, t1);
  }

  lemma {:induction false} WithinLonger(kdf: Kdf, s: System, run: seq<Step>, t0: int, t: int, t1: int)
    requires t <= t1 && GuessesWithin(kdf, s, run, t0, t)
    ensures GuessesWithin(kdf, s, run, t0, t1)
    decreases run
  {
    if run != [] {
      WithinLonger(kdf, Next(kdf, s, run[0]), run[1..], t0, t, t1);
    }
  }

  // ---------------------------------------------------------------------------
  // Enroll, then unlock
  // ---------------------------------------------------------------------------

  /** The envelope holds `lak` under `secret` and the stored pepper. */
  predicate HoldsPin(kdf: Kdf, disk: Disk, secret: string, lak: Lak) {
    && disk.envelope.Sealed? && disk.pepper.Some? && disk.envelope.lak == lak
    && kdf(secret, disk.envelope.salt, disk.pepper.value) == disk.envelope.under
  }

  function Run(kdf: Kdf, s: System, run: seq<Step>): System
    decreases run
  {
    if run == [] then s else Run(kdf, Next(kdf, s, run[0]), run[1..])
  }

  lemma {:induction false} PinSurvives(kdf: Kdf, s: System, run: seq<Step>, secret: string, lak: Lak)
    requires HoldsPin(kdf, s.disk, secret, lak)
    ensures HoldsPin(kdf, Run(kdf, s, run).disk, secret, lak)
    decreases run
  {
    if run != [] {
      PinSurvives(kdf, Next(kdf, s, run[0]), run[1..], secret, lak);
    }
  }

  /**
   * After an enrolment that succeeded and any attempts and restarts, the enrolled secret outside a lockout
   * returns the enrolled key, and any other secret returns it exactly when its derived key is the same.
   */
  lemma {:induction false} EnrolledSecretUnlocks(
      kdf: Kdf, s: System, secret: string, lak: Lak, env: Env, run: seq<Step>, attempt: string, env': Env)
    requires AfterEnroll(kdf, s.state, s.disk, secret, lak, env).outcome.Unlocked?
    requires !env'.readThrows && env'.pepper.Works? && env'.save.Works?
    ensures var enrolled := AfterEnroll(kdf, s.state, s.disk, secret, lak, env);
            var later := Run(kdf, System(enrolled.state, enrolled.disk), run);
            && HoldsPin(kdf, later.disk, secret, lak)
            && (!Locked(later.state, env'.now) ==>
                  (AfterUnlock(kdf, later.state, later.disk, attempt, env').outcome == Unlocked(lak)
                   <==> kdf(attempt, later.disk.envelope.salt, later.disk.pepper.value)
                        == kdf(secret, later.disk.envelope.salt, later.disk.pepper.value)))
  {
    var enrolled := AfterEnroll(kdf, s.state, s.disk, secret, lak, env);
    PinSurvives(kdf, System(enrolled.state, enrolled.disk), run, secret, lak);
  }
}
