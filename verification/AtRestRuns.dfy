/** Key continuity of the at-rest cipher over every run, and what its recovery can be relied on for. */
module AtRestRuns {
  import opened Bytes
  import opened Text
  import opened AtRest

  // ---------------------------------------------------------------------------
  // One key
  // ---------------------------------------------------------------------------

  /** The key an envelope holds, whether or not this device can open it. */
  function HeldBy(envelope: Option<Envelope>): Option<Key> {
    if envelope.None? || envelope.value.Malformed? then None else Some(envelope.value.lak)
  }

  predicate AllUnder(files: seq<File>, key: Key) {
    forall i :: 0 <= i < |files| ==> (files[i].Vg1? ==> files[i].key == key)
  }

  /** `key` is the key of everything that has one: the live fields, the envelope and the readable files. */
  predicate IsTheKey(s: System, key: Key) {
    && (s.cipher.lak.Some? ==> s.cipher.lak.value == key)
    && (s.cipher.key.Some? ==> s.cipher.key.value == key && s.cipher.lak.Some?)
    && (HeldBy(s.disk.envelope).Some? ==> HeldBy(s.disk.envelope).value == key)
    && AllUnder(s.disk.files, key)
  }

  ghost predicate OneKey(s: System) {
    exists key :: IsTheKey(s, key)
  }

  // ---------------------------------------------------------------------------
  // Operations and environment steps
  // ---------------------------------------------------------------------------

  datatype Op =
    | DoInit(env: Env)
    | DoEncrypt(plaintext: seq<byte>)
    | DoLock
    | DoRequireRecovery
    | DoReset(env: Env)
    | DoRestore(candidate: Key, confirmReplace: bool, env: Env)
    | DoPersist(env: Env)
    | DoClearWrap(env: Env)
    | DoUnlockWithLak(bytes: Key, env: Env)
    | Restart                      // the process ends; only storage survives
    | DeleteFile(at: nat)
    | DamageFile(at: nat)
    | LoseEnvelope
    | TearEnvelope
    | ChangeFallbackKek(kek: Option<Key>)

  function Apply(hooks: Hooks, s: System, op: Op): System {
    match op
    case DoInit(env) => var r := Init(hooks, s.cipher, s.disk, env); System(r.cipher, r.disk)
    case DoEncrypt(plaintext) =>
      (match Encrypt(s.cipher, plaintext)
       case None => s
       case Some(file) => s.(disk := s.disk.(files := s.disk.files + [file])))
    case DoLock => s.(cipher := LockCipher(s.cipher))
    case DoRequireRecovery => s.(cipher := RequireRecovery(s.cipher))
    case DoReset(env) => Reset(hooks, s.cipher, s.disk, env).1
    case DoRestore(candidate, confirm, env) =>
      var r := RestoreKey(hooks, s.cipher, s.disk, candidate, confirm, env); System(r.cipher, r.disk)
    case DoPersist(env) => PersistWrapped(hooks, s.cipher, s.disk, env).1
    case DoClearWrap(env) => s.(disk := ClearPersistedWrap(s.disk, env))
    case DoUnlockWithLak(bytes, env) => s.(cipher := UnlockWithLak(s.cipher, bytes, env).1)
    case Restart => s.(cipher := NEW_CIPHER)
    case DeleteFile(at) =>
      if at < |s.disk.files| then s.(disk := s.disk.(files := s.disk.files[..at] + s.disk.files[at + 1..])) else s
    case DamageFile(at) =>
      if at < |s.disk.files| then s.(disk := s.disk.(files := s.disk.files[at := Damaged])) else s
    case LoseEnvelope => s.(disk := s.disk.(envelope := None))
    case TearEnvelope => s.(disk := s.disk.(envelope := Some(Malformed)))
    case ChangeFallbackKek(kek) => s.(disk := s.disk.(fallbackKek := kek))
  }

  /**
   * What is respected in a run. `unlockWithLak` is given the key of everything that has one, and neither `init`
   * nor a restore stores a new key under a live one that it then does not replace.
   */
  predicate Respected(hooks: Hooks, s: System, op: Op) {
    match op
    case DoUnlockWithLak(bytes, _) => IsTheKey(s, bytes)
    case DoInit(env) => !MintsUnderLiveKey(hooks, s, env)
    case DoRestore(candidate, confirm, env) => !LandsUnderLiveKey(hooks, s, candidate, confirm, env)
    case _ => true
  }

  /**
   * `init` over a live key finds no envelope and no file and stores a new key, and then the import fails, or the
   * save was rejected although it took effect.
   */
  predicate MintsUnderLiveKey(hooks: Hooks, s: System, env: Env) {
    && env.probe != ProbeThrows && ProbeEnvelope(hooks, s.disk, env).ProbedAbsent?
    && s.disk.files == [] && !env.scanThrows
    && Wrap(hooks, s.cipher.(keychain := env.keychain), s.disk, env.freshLak, env).envelope.Some?
    && (|| (env.save == SaveOk && env.importThrows && Ready(s.cipher) && env.freshLak != s.cipher.key.value)
        || (env.save == SaveLands && s.cipher.lak.Some? && env.freshLak != s.cipher.lak.value))
  }

  /**
   * A restore of another key than the live one passes its gates over an empty vault, and its save is rejected
   * although it took effect.
   */
  predicate LandsUnderLiveKey(hooks: Hooks, s: System, candidate: Key, confirm: bool, env: Env) {
    var c := s.cipher.(keychain := s.cipher.keychain || env.keychain);
    && s.cipher.lak.Some? && s.cipher.lak.value != candidate && env.save == SaveLands
    && s.disk.files == [] && env.listThrowsAfter != Some(0) && !env.probeImportThrows && !env.importThrows
    && (s.cipher.status.Unlocked? ==> confirm)
    && Wrap(hooks, c, s.disk, candidate, env).envelope.Some?
  }

  predicate CiphertextHooks(hooks: Hooks) { hooks.scan && hooks.list }

  // ---------------------------------------------------------------------------
  // Continuity
  // ---------------------------------------------------------------------------

  lemma {:induction false} ValidateMeaning(files: seq<File>, i: nat, candidate: Key, throwsAfter: Option<nat>)
    requires i <= |files|
    ensures Validate(files, i, candidate, throwsAfter).AllOpen? ==>
              && Validate(files, i, candidate, throwsAfter).count == |files|
              && forall k :: i <= k < |files| ==> Opens(files[k], candidate)
    ensures throwsAfter.None? && (forall k :: i <= k < |files| ==> Opens(files[k], candidate)) ==>
              Validate(files, i, candidate, throwsAfter) == AllOpen(|files|)
    ensures Validate(files, i, candidate, throwsAfter).SomeMismatch? ==>
              exists k :: i <= k < |files| && !Opens(files[k], candidate)
    ensures throwsAfter.None? ==> !Validate(files, i, candidate, throwsAfter).CannotTell?
    decreases |files| - i
  {
    if i < |files| && Opens(files[i], candidate) && throwsAfter != Some(i) {
      ValidateMeaning(files, i + 1, candidate, throwsAfter);
    }
  }

  /** Wrapping never touches the files, and an envelope it makes holds the wrapped key. */
  lemma {:induction false} WrapHolds(hooks: Hooks, c: Cipher, disk: Disk, lak: Key, env: Env)
    ensures var w := Wrap(hooks, c, disk, lak, env);
            && w.disk.files == disk.files && w.disk.envelope == disk.envelope
            && (w.envelope.Some? ==> HeldBy(w.envelope) == Some(lak))
  {
  }

  /** A new key over an empty vault: the live fields and the envelope take it together. */
  lemma {:induction false} ProvisionKeepsOneKey(hooks: Hooks, c: Cipher, disk: Disk, env: Env, key: Key)
    requires IsTheKey(System(c, disk), key) && disk.files == []
    requires Wrap(hooks, c, disk, env.freshLak, env).envelope.Some? ==>
               && (env.save == SaveOk && env.importThrows && Ready(c) ==> env.freshLak == c.key.value)
               && (env.save == SaveLands && c.lak.Some? ==> env.freshLak == c.lak.value)
    ensures var r := Provision(hooks, c, disk, env);
            IsTheKey(System(r.cipher, r.disk), key) || IsTheKey(System(r.cipher, r.disk), env.freshLak)
  {
    WrapHolds(hooks, c, disk, env.freshLak, env);
    var r := Provision(hooks, c, disk, env);
    if r.outcome == NotReady {
      assert r.cipher.lak == c.lak && r.cipher.key == c.key;
      assert r.disk.envelope == disk.envelope || HeldBy(r.disk.envelope) in {None, Some(env.freshLak)};
    } else {
      assert HeldBy(r.disk.envelope) == Some(env.freshLak) == r.cipher.lak && r.disk.files == [];
    }
  }

  lemma {:induction false} UnwrapHolds(hooks: Hooks, c: Cipher, disk: Disk, envelope: Envelope, env: Env)
    ensures var u := Unwrap(hooks, c, disk, envelope, env);
            && u.disk.files == disk.files && u.disk.envelope == disk.envelope
            && (u.lak.Some? ==> HeldBy(Some(envelope)) == u.lak)
  {
  }

  /** With the ciphertext scan, `init` keeps one key even when an unreadable envelope looks absent to it. */
  lemma {:induction false} InitKeepsOneKey(hooks: Hooks, s: System, env: Env, key: Key)
    requires hooks.scan && IsTheKey(s, key) && Respected(hooks, s, DoInit(env))
    ensures OneKey(Apply(hooks, s, DoInit(env)))
  {
    var c := s.cipher.(keychain := env.keychain);
    assert IsTheKey(System(c, s.disk), key);
    var s' := Apply(hooks, s, DoInit(env));
    if env.probe == ProbeThrows || ProbeEnvelope(hooks, s.disk, env).ProbedError? {
      assert IsTheKey(s', key);
    } else if ProbeEnvelope(hooks, s.disk, env).ProbedAbsent? {
      if env.scanThrows || s.disk.files != [] {
        assert IsTheKey(s', key);
      } else {
        ProvisionKeepsOneKey(hooks, c, s.disk, env, key);
      }
    } else {
      UnwrapHolds(hooks, c, s.disk, s.disk.envelope.value, env);
      assert IsTheKey(s', key);
    }
  }

  /** And only then: `init` keeps one key exactly when it does not mint under a live key. */
  lemma {:induction false} InitKeepsOneKeyExactly(hooks: Hooks, s: System, env: Env)
    requires hooks.scan && OneKey(s)
    ensures OneKey(Apply(hooks, s, DoInit(env))) <==> !MintsUnderLiveKey(hooks, s, env)
  {
    var key :| IsTheKey(s, key);
    if MintsUnderLiveKey(hooks, s, env) {
      var s' := Apply(hooks, s, DoInit(env));
      WrapHolds(hooks, s.cipher.(keychain := env.keychain), s.disk, env.freshLak, env);
      assert HeldBy(s'.disk.envelope) == Some(env.freshLak) && s'.cipher.key == s.cipher.key;
      assert forall k :: !IsTheKey(s', k);
    } else {
      InitKeepsOneKey(hooks, s, env, key);
    }
  }

  lemma {:induction false} RewrapHolds(hooks: Hooks, c: Cipher, disk: Disk, candidate: Key, env: Env)
    ensures var (tier, disk') := Rewrap(hooks, c, disk, candidate, env);
            && disk'.files == disk.files
            && (tier.Some? ==> HeldBy(disk'.envelope) == Some(candidate))
            && (tier.None? ==> disk'.envelope == disk.envelope || HeldBy(disk'.envelope).None?
                               || (env.save == SaveLands && HeldBy(disk'.envelope) == Some(candidate)))
  {
    WrapHolds(hooks, c, disk, candidate, env);
  }

  /** A restore keeps one key whatever the candidate: it is adopted everywhere or nowhere. */
  lemma {:induction false} RestoreKeepsOneKey(hooks: Hooks, s: System, candidate: Key, confirm: bool, env: Env, key: Key)
    requires hooks.list && IsTheKey(s, key) && Respected(hooks, s, DoRestore(candidate, confirm, env))
    ensures OneKey(Apply(hooks, s, DoRestore(candidate, confirm, env)))
  {
    var r := RestoreKey(hooks, s.cipher, s.disk, candidate, confirm, env);
    if r.outcome.Restored? {
      RestoredIsTheKey(hooks, s, candidate, confirm, env, key);
    } else {
      RestoreFrame(hooks, s.cipher, s.disk, candidate, confirm, env);
      if r.disk.envelope == s.disk.envelope || HeldBy(r.disk.envelope).None? {
        assert IsTheKey(System(r.cipher, r.disk), key);
      } else {
        LandedIsTheKey(hooks, s, candidate, confirm, env, key);
      }
    }
  }

  lemma {:induction false} RestoredIsTheKey(hooks: Hooks, s: System, candidate: Key, confirm: bool, env: Env, key: Key)
    requires hooks.list && IsTheKey(s, key) && RestoreKey(hooks, s.cipher, s.disk, candidate, confirm, env).outcome.Restored?
    ensures IsTheKey(Apply(hooks, s, DoRestore(candidate, confirm, env)), candidate)
  {
    ValidateMeaning(s.disk.files, 0, candidate, env.listThrowsAfter);
    RewrapHolds(hooks, s.cipher.(keychain := s.cipher.keychain || env.keychain), s.disk, candidate, env);
  }

  /** A save that lands and is rejected reached the envelope only past the gates, so files and live key are the candidate's. */
  lemma {:induction false} LandedIsTheKey(hooks: Hooks, s: System, candidate: Key, confirm: bool, env: Env, key: Key)
    requires hooks.list && IsTheKey(s, key) && !LandsUnderLiveKey(hooks, s, candidate, confirm, env)
    requires var r := RestoreKey(hooks, s.cipher, s.disk, candidate, confirm, env);
             !r.outcome.Restored? && r.disk.envelope != s.disk.envelope && HeldBy(r.disk.envelope).Some?
    ensures IsTheKey(Apply(hooks, s, DoRestore(candidate, confirm, env)), candidate)
  {
    ValidateMeaning(s.disk.files, 0, candidate, env.listThrowsAfter);
    RestoreFrame(hooks, s.cipher, s.disk, candidate, confirm, env);
  }

  /** And only then: a restore keeps one key exactly when its save does not land, rejected, under another live key. */
  lemma {:induction false} RestoreKeepsOneKeyExactly(hooks: Hooks, s: System, candidate: Key, confirm: bool, env: Env)
    requires hooks.list && OneKey(s)
    ensures OneKey(Apply(hooks, s, DoRestore(candidate, confirm, env)))
            <==> !LandsUnderLiveKey(hooks, s, candidate, confirm, env)
  {
    var key :| IsTheKey(s, key);
    if LandsUnderLiveKey(hooks, s, candidate, confirm, env) {
      var s' := Apply(hooks, s, DoRestore(candidate, confirm, env));
      WrapHolds(hooks, s.cipher.(keychain := s.cipher.keychain || env.keychain), s.disk, candidate, env);
      assert HeldBy(s'.disk.envelope) == Some(candidate) && s'.cipher.lak == s.cipher.lak;
      assert forall k :: !IsTheKey(s', k);
    } else {
      RestoreKeepsOneKey(hooks, s, candidate, confirm, env, key);
    }
  }

  lemma {:induction false} StepKeepsOneKey(hooks: Hooks, s: System, op: Op)
    requires CiphertextHooks(hooks) && OneKey(s) && Respected(hooks, s, op)
    ensures OneKey(Apply(hooks, s, op))
  {
    var key :| IsTheKey(s, key);
    var s' := Apply(hooks, s, op);
    match op {
      case DoInit(env) => InitKeepsOneKey(hooks, s, env, key);
      case DoRestore(candidate, confirm, env) => RestoreKeepsOneKey(hooks, s, candidate, confirm, env, key);
      case DoPersist(env) =>
        if s.cipher.lak.Some? { WrapHolds(hooks, s.cipher, s.disk, s.cipher.lak.value, env); }
        assert IsTheKey(s', key);
      case DoUnlockWithLak(bytes, env) => assert IsTheKey(s', bytes);
      case _ => assert IsTheKey(s', key);
    }
  }

  ghost predicate RunRespected(hooks: Hooks, s: System, run: seq<Op>)
    decreases run
  {
    run != [] ==> Respected(hooks, s, run[0]) && RunRespected(hooks, Apply(hooks, s, run[0]), run[1..])
  }

  function ApplyAll(hooks: Hooks, s: System, run: seq<Op>): System
    decreases run
  {
    if run == [] then s else ApplyAll(hooks, Apply(hooks, s, run[0]), run[1..])
  }

  lemma {:induction false} RunKeepsOneKey(hooks: Hooks, s: System, run: seq<Op>)
    requires CiphertextHooks(hooks) && OneKey(s) && RunRespected(hooks, s, run)
    ensures OneKey(ApplyAll(hooks, s, run))
    decreases run
  {
    if run != [] {
      StepKeepsOneKey(hooks, s, run[0]);
      RunKeepsOneKey(hooks, Apply(hooks, s, run[0]), run[1..]);
    }
  }

  /**
   * Key continuity. After any respected run with any storage failures: whenever the cipher is ready, it
   * decrypts every undamaged file to what was encrypted, and any envelope that unwraps yields a key that
   * opens them too and is the live one.
   */
  lemma {:induction false} KeyContinuity(hooks: Hooks, s: System, run: seq<Op>, env: Env)
    requires CiphertextHooks(hooks) && OneKey(s) && RunRespected(hooks, s, run)
    ensures var e := ApplyAll(hooks, s, run);
            && (Ready(e.cipher) ==>
                  forall f :: f in e.disk.files && f.Vg1? ==> Decrypt(e.cipher, f) == Some(f.plaintext))
            && (e.disk.envelope.Some? && Unwrap(hooks, e.cipher, e.disk, e.disk.envelope.value, env).lak.Some? ==>
                  var lak := Unwrap(hooks, e.cipher, e.disk, e.disk.envelope.value, env).lak.value;
                  AllUnder(e.disk.files, lak) && (Ready(e.cipher) ==> e.cipher.key == Some(lak)))
  {
    RunKeepsOneKey(hooks, s, run);
  }

  // ---------------------------------------------------------------------------
  // The two conditions are needed
  // ---------------------------------------------------------------------------

  const QUIET := Env(
    true, false, false, ProbeHonest, false, None, false, false, false, None, false, true, false,
    SaveOk, false, false, seq(KEY_LEN, _ => 7), seq(KEY_LEN, _ => 8))

  const ALL_HOOKS := Hooks(true, true, true, true)

  /** `init` on a ready cipher whose envelope was cleared, with a failing import: the old key stays live. */
  lemma {:induction false} FailingImportMixesKeys()
    ensures exists s, run ::
              && OneKey(s) && s.cipher.key.Some? && run == [DoInit(QUIET.(importThrows := true)), DoEncrypt([])]
              && !OneKey(ApplyAll(ALL_HOOKS, s, run))
  {
    var old_: Key := seq(KEY_LEN, _ => 1);
    var s := System(Cipher(Some(old_), Some(old_), Some(SafeStorage), Unlocked(SafeStorage), true), Disk(None, None, []));
    assert IsTheKey(s, old_);
    var env := QUIET.(importThrows := true);
    var run := [DoInit(env), DoEncrypt([])];
    assert run[1..] == [DoEncrypt([])] && run[1..][1..] == [];
    var s1 := Apply(ALL_HOOKS, s, run[0]);
    assert s1.cipher.lak == Some(env.freshLak) && s1.cipher.key == Some(old_);
    var s2 := Apply(ALL_HOOKS, s1, run[1]);
    assert run[0] == DoInit(env) && run[1] == DoEncrypt([]);
    assert ApplyAll(ALL_HOOKS, s2, []) == s2;
    assert ApplyAll(ALL_HOOKS, s1, run[1..]) == s2;
    assert ApplyAll(ALL_HOOKS, s, run) == s2;
    assert old_[0] == 1 && env.freshLak[0] == 7;
    forall key
      ensures !IsTheKey(s2, key)
    {
    }
  }

  /**
   * A confirmed restore over an empty vault whose save lands and is rejected: the restore throws and the old key
   * stays live, the envelope holds the new one, and the next file is lost to the next start.
   */
  lemma {:induction false} LandedSaveMixesKeys()
    ensures exists s, candidate, env ::
              && OneKey(s) && Ready(s.cipher)
              && RestoreKey(ALL_HOOKS, s.cipher, s.disk, candidate, true, env).outcome == RestoreThrew
              && RestoreKey(ALL_HOOKS, s.cipher, s.disk, candidate, true, env).cipher.lak == s.cipher.lak
              && HeldBy(RestoreKey(ALL_HOOKS, s.cipher, s.disk, candidate, true, env).disk.envelope) == Some(candidate)
              && !OneKey(Apply(ALL_HOOKS, s, DoRestore(candidate, true, env)))
  {
    var a: Key, b: Key := seq(KEY_LEN, _ => 1), seq(KEY_LEN, _ => 2);
    assert a[0] == 1 && b[0] == 2;
    var env := QUIET.(save := SaveLands);
    var s := System(Cipher(Some(a), Some(a), Some(SafeStorage), Unlocked(SafeStorage), true),
                    Disk(Some(KeychainSealed(a)), None, []));
    assert IsTheKey(s, a);
    RestoreKeepsOneKeyExactly(ALL_HOOKS, s, b, true, env);
    var r := RestoreKey(ALL_HOOKS, s.cipher, s.disk, b, true, env);
    assert r.outcome == RestoreThrew && r.cipher.lak == s.cipher.lak && HeldBy(r.disk.envelope) == Some(b);
  }

  /** Without the listing hook a restored stranger's key leaves existing files unreadable. */
  lemma {:induction false} UnvalidatedRestoreMixesKeys()
    ensures exists s, candidate ::
              && OneKey(s) && RestoreKey(ALL_HOOKS.(list := false), s.cipher, s.disk, candidate, false, QUIET).outcome
                             == Restored(Unvalidated)
              && !OneKey(Apply(ALL_HOOKS.(list := false), s, DoRestore(candidate, false, QUIET)))
  {
    var a: Key, b: Key := seq(KEY_LEN, _ => 1), seq(KEY_LEN, _ => 2);
    var s := System(NEW_CIPHER, Disk(None, None, [Vg1(a, [])]));
    assert IsTheKey(s, a);
    var s' := Apply(ALL_HOOKS.(list := false), s, DoRestore(b, false, QUIET));
    assert a[0] == 1 && b[0] == 2;
    assert s'.cipher.key == Some(b) && s'.disk.files[0] == Vg1(a, []);
    forall key
      ensures !IsTheKey(s', key)
    {
    }
  }

  // ---------------------------------------------------------------------------
  // init never writes over a key
  // ---------------------------------------------------------------------------

  /** `init` writes an envelope only when there is none to read and no ciphertext, and then for a fresh key. */
  lemma {:induction false} InitWritesOnlyOnFirstRun(hooks: Hooks, c: Cipher, disk: Disk, env: Env)
    requires hooks.probe && hooks.scan
    ensures var r := Init(hooks, c, disk, env);
            && r.disk.files == disk.files
            && (r.disk.envelope != disk.envelope <==>
                  && disk.envelope.None? && env.probe == ProbeHonest && disk.files == [] && !env.scanThrows
                  && Wrap(hooks, c.(keychain := env.keychain), disk, env.freshLak, env).envelope.Some?
                  && env.save != SaveFails)
            && (r.disk.envelope != disk.envelope ==> HeldBy(r.disk.envelope) in {None, Some(env.freshLak)})
  {
    WrapHolds(hooks, c.(keychain := env.keychain), disk, env.freshLak, env);
  }

  /** Every refusal of `init` leaves the live key alone, so a ready cipher stays ready under the same key. */
  lemma {:induction false} InitRefusalKeepsLiveKey(hooks: Hooks, c: Cipher, disk: Disk, env: Env)
    ensures Init(hooks, c, disk, env).outcome == NotReady ==>
              && Init(hooks, c, disk, env).cipher.lak == c.lak
              && Init(hooks, c, disk, env).cipher.key == c.key
              && Init(hooks, c, disk, env).cipher.status.NeedsRecovery?
  {
  }

  // ---------------------------------------------------------------------------
  // Restore
  // ---------------------------------------------------------------------------

  /**
   * A refused or throwing restore leaves the live key, status and tier, and a refused one all storage. A throwing one
   * changes the envelope only when its save tears it or lands, and the fallback key only when wrapping minted one.
   */
  lemma {:induction false} RestoreFrame(hooks: Hooks, c: Cipher, disk: Disk, candidate: Key, confirm: bool, env: Env)
    ensures var r := RestoreKey(hooks, c, disk, candidate, confirm, env);
            && (!r.outcome.Restored? ==>
                  && r.cipher.lak == c.lak && r.cipher.key == c.key
                  && r.cipher.status == c.status && r.cipher.tier == c.tier
                  && r.disk.files == disk.files
                  && (|| r.disk.envelope == disk.envelope
                      || (r.outcome == RestoreThrew && env.save == SaveTears && r.disk.envelope == Some(Malformed))
                      || (r.outcome == RestoreThrew && env.save == SaveLands && HeldBy(r.disk.envelope) == Some(candidate)))
                  && (|| r.disk.fallbackKek == disk.fallbackKek
                      || (&& r.outcome == RestoreThrew && r.disk.fallbackKek == Some(env.freshKek)
                          && Mints(hooks, c.(keychain := c.keychain || env.keychain), disk, env))))
            && (r.outcome in {KeyMismatch, ValidationError, NeedsConfirmation} ==> r.disk == disk)
  {
    WrapHolds(hooks, c.(keychain := c.keychain || env.keychain), disk, candidate, env);
  }

  /** Without faults a restore answers by the files alone, and confirmation only ever skips the last gate. */
  lemma {:induction false} RestoreDecides(hooks: Hooks, c: Cipher, disk: Disk, candidate: Key, confirm: bool, env: Env)
    requires hooks.list && c.lak != Some(candidate)
    requires env.listThrowsAfter.None? && !env.probeImportThrows && !env.importThrows
    requires Wrap(hooks, c.(keychain := c.keychain || env.keychain), disk, candidate, env).envelope.Some?
    requires env.save == SaveOk
    ensures RestoreKey(hooks, c, disk, candidate, confirm, env).outcome
            == if exists i :: 0 <= i < |disk.files| && !Opens(disk.files[i], candidate) then KeyMismatch
               else if disk.files != [] then Restored(Verified)
               else if c.status.Unlocked? && c.lak.Some? && !confirm then NeedsConfirmation
               else Restored(Replaced)
  {
    ValidateMeaning(disk.files, 0, candidate, None);
    WrapHolds(hooks, c.(keychain := c.keychain || env.keychain), disk, candidate, env);
  }

  /** Storage, wrapping and imports succeed. */
  predicate Succeeds(hooks: Hooks, c: Cipher, disk: Disk, candidate: Key, env: Env) {
    && env.listThrowsAfter.None? && !env.probeImportThrows && !env.importThrows && env.save == SaveOk
    && Wrap(hooks, c.(keychain := c.keychain || env.keychain), disk, candidate, env).envelope.Some?
  }

  /**
   * Recovery. Whatever happened to the cipher and its envelope, restoring the key the files were written
   * under succeeds, makes a cipher that is not already holding it ready, and every file decrypts again.
   */
  lemma {:induction false} RecoveryReadsEveryFile(hooks: Hooks, c: Cipher, disk: Disk, key: Key, env: Env)
    requires Succeeds(hooks, c, disk, key, env)
    requires forall i :: 0 <= i < |disk.files| ==> Opens(disk.files[i], key)
    ensures var r := RestoreKey(hooks, c, disk, key, true, env);
            && r.outcome.Restored? && r.cipher.lak == Some(key) && HeldBy(r.disk.envelope) == Some(key)
            && r.cipher.status.Unlocked? && r.disk.files == disk.files
            && (c.lak != Some(key) ==> r.cipher.key == Some(key))
            && (Ready(r.cipher) && OneKey(System(c, disk)) ==>
                  forall i :: 0 <= i < |disk.files| && disk.files[i].Vg1? ==>
                    Decrypt(r.cipher, disk.files[i]) == Some(disk.files[i].plaintext))
  {
    ValidateMeaning(disk.files, 0, key, None);
    WrapHolds(hooks, c.(keychain := c.keychain || env.keychain), disk, key, env);
  }

  /** The device can open what it wrapped: the keychain works, or the wrapping key is among the candidates. */
  predicate CanReopen(envelope: Envelope, env: Env) {
    match envelope
    case KeychainSealed(_) => env.keychain && !env.decryptThrows
    case FallbackSealed(kek, _) => env.candidates.Some? && kek in env.candidates.value
    case Malformed => false
  }

  /** The stored fallback key opens the stored fallback envelope. */
  predicate StoredKekOpens(disk: Disk) {
    disk.envelope.Some? && disk.envelope.value.FallbackSealed? ==> disk.fallbackKek == Some(disk.envelope.value.kek)
  }

  /** Wrapping mints a new fallback key: none is readable, and storing one works. */
  predicate Mints(hooks: Hooks, c: Cipher, disk: Disk, env: Env) {
    && !(c.keychain && !env.encryptThrows) && hooks.fallback && !env.loadKekThrows
    && !(env.kekVisible && disk.fallbackKek.Some?) && !env.saveKekThrows
  }

  /**
   * Re-wrapping keeps the stored fallback key and the envelope in step, except when it mints a key over one it
   * could not read and the envelope is then not replaced: the old envelope is left sealed under the old key.
   */
  lemma {:induction false} RewrapKeepsKekInStep(hooks: Hooks, c: Cipher, disk: Disk, candidate: Key, env: Env)
    requires StoredKekOpens(disk) && hooks.fallback
    ensures StoredKekOpens(Rewrap(hooks, c, disk, candidate, env).1)
            <==> !(&& Mints(hooks, c, disk, env) && (env.wrapThrows || env.save == SaveFails)
                   && disk.envelope.Some? && disk.envelope.value.FallbackSealed?
                   && disk.envelope.value.kek != env.freshKek)
  {
  }

  /** A saved envelope survives a restart: a new cipher comes up ready under the same key. */
  lemma {:induction false} EnvelopeReopens(hooks: Hooks, disk: Disk, env: Env)
    requires disk.envelope.Some? && CanReopen(disk.envelope.value, env)
    requires env.probe == ProbeHonest && !env.importThrows
    ensures Init(hooks, NEW_CIPHER, disk, env).outcome == IsReady
    ensures Init(hooks, NEW_CIPHER, disk, env).cipher.key == HeldBy(disk.envelope)
    ensures Init(hooks, NEW_CIPHER, disk, env).disk.envelope == disk.envelope
  {
  }
}
