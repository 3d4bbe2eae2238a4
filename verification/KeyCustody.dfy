/**
 * What the answers of the at-rest cipher can be relied on for: when each call succeeds, what storage and the cipher
 * hold after it did, and what the next start makes of that.
 */
module KeyCustody {
  import opened Bytes
  import opened Text
  import opened AtRest
  import opened AtRestRuns

  // ---------------------------------------------------------------------------
  // Wrapping
  // ---------------------------------------------------------------------------

  /** The keychain seals, or a fallback key can be had and sealing under it works. */
  predicate CanWrap(hooks: Hooks, keychain: bool, disk: Disk, env: Env) {
    || (keychain && !env.encryptThrows)
    || (!env.wrapThrows
        && (hooks.fallback ==> !env.loadKekThrows && ((env.kekVisible && disk.fallbackKek.Some?) || !env.saveKekThrows)))
  }

  lemma {:induction false} WrapsExactly(hooks: Hooks, c: Cipher, disk: Disk, lak: Key, env: Env)
    ensures var w := Wrap(hooks, c, disk, lak, env);
            && (w.envelope.Some? <==> CanWrap(hooks, c.keychain, disk, env))
            && (w.envelope.Some? ==> HeldBy(w.envelope) == Some(lak))
            && (w.envelope.Some? ==> (w.envelope.value.KeychainSealed? <==> c.keychain && !env.encryptThrows))
            && (w.envelope.Some? ==> (w.tier == Some(SafeStorage) <==> w.envelope.value.KeychainSealed?))
            && (w.envelope.Some? && w.envelope.value.FallbackSealed? && hooks.fallback ==>
                  w.disk.fallbackKek == Some(w.envelope.value.kek) && w.tier == Some(LocalFallback))
            && (w.envelope.Some? && w.envelope.value.FallbackSealed? && !hooks.fallback ==> w.tier == Some(Ephemeral))
            && w.disk.files == disk.files && w.disk.envelope == disk.envelope
            && (env.kekVisible && disk.fallbackKek.Some? ==> w.disk == disk)
  {
  }

  /** The device on which a key was wrapped: its keychain still works, and its fallback key is found. */
  predicate SameDevice(keychain: bool, disk: Disk, later: Env) {
    && (keychain ==> later.keychain && !later.decryptThrows)
    && (disk.fallbackKek.Some? ==> later.candidates.Some? && disk.fallbackKek.value in later.candidates.value)
  }

  // ---------------------------------------------------------------------------
  // Persisting the live key
  // ---------------------------------------------------------------------------

  /**
   * `persistWrappedLak` succeeds exactly when a key is live, it can be wrapped and the save works; then the envelope
   * holds that key. A failure leaves the envelope, or what its save tore or landed.
   */
  lemma {:induction false} PersistSucceedsExactly(hooks: Hooks, c: Cipher, disk: Disk, env: Env)
    ensures var (ok, s) := PersistWrapped(hooks, c, disk, env);
            && (ok <==> c.lak.Some? && CanWrap(hooks, c.keychain, disk, env) && env.save == SaveOk)
            && (ok ==> s.disk.envelope.Some? && HeldBy(s.disk.envelope) == c.lak)
            && (ok ==> s.cipher.tier.Some? && (s.cipher.tier.value == SafeStorage <==> s.disk.envelope.value.KeychainSealed?))
            && (!ok ==> || s.disk.envelope == disk.envelope
                        || (env.save == SaveTears && s.disk.envelope == Some(Malformed))
                        || (env.save == SaveLands && c.lak.Some? && HeldBy(s.disk.envelope) == c.lak))
            && s.disk.files == disk.files
            && s.cipher.lak == c.lak && s.cipher.key == c.key && s.cipher.status == c.status
  {
    if c.lak.Some? { WrapsExactly(hooks, c, disk, c.lak.value, env); }
  }

  /** After a persist that succeeded, a new start on the same device is ready under the key that was live. */
  lemma {:induction false} PersistedKeyComesBack(hooks: Hooks, c: Cipher, disk: Disk, env: Env, later: Env)
    requires hooks.fallback && PersistWrapped(hooks, c, disk, env).0
    requires SameDevice(c.keychain, PersistWrapped(hooks, c, disk, env).1.disk, later)
    requires later.probe == ProbeHonest && !later.importThrows
    ensures var r := Init(hooks, NEW_CIPHER, PersistWrapped(hooks, c, disk, env).1.disk, later);
            && c.lak.Some? && r.outcome == IsReady && r.cipher.lak == c.lak && r.cipher.key == c.lak
            && forall f :: f in disk.files && Opens(f, c.lak.value) ==> Decrypt(r.cipher, f) == Some(f.plaintext)
  {
    PersistSucceedsExactly(hooks, c, disk, env);
    WrapsExactly(hooks, c, disk, c.lak.value, env);
    EnvelopeReopens(hooks, PersistWrapped(hooks, c, disk, env).1.disk, later);
  }

  // ---------------------------------------------------------------------------
  // Clearing and resetting
  // ---------------------------------------------------------------------------

  /** `reset` succeeds exactly when its clearings do; the live key is gone either way. */
  lemma {:induction false} ResetSucceedsExactly(hooks: Hooks, c: Cipher, disk: Disk, env: Env)
    ensures var (ok, s) := Reset(hooks, c, disk, env);
            && (ok <==> !env.clearThrows && (hooks.fallback ==> !env.clearKekThrows))
            && s.cipher.lak.None? && s.cipher.key.None? && !s.cipher.status.Unlocked?
            && (ok ==> s.disk.envelope.None? && s.cipher.status == Uninitialized)
            && (ok && hooks.fallback ==> s.disk.fallbackKek.None?)
            && (env.clearThrows ==> s.disk == disk)
            && (s.disk.fallbackKek.None? || s.disk.fallbackKek == disk.fallbackKek)
            && s.disk.files == disk.files
  {
  }

  /** Clearing the persisted wrap removes the envelope and nothing else, or changes nothing. */
  lemma {:induction false} ClearedExactly(disk: Disk, env: Env)
    ensures var after := ClearPersistedWrap(disk, env);
            && (after.envelope.None? <==> !env.clearThrows || disk.envelope.None?)
            && (env.clearThrows ==> after == disk)
            && after.files == disk.files && after.fallbackKek == disk.fallbackKek
  {
  }

  /**
   * Without an envelope no start brings the old key back: over files it asks for recovery, and over none it takes a
   * fresh key. So after a reset, or after a PIN took over, only a recovery code or the PIN opens the files.
   */
  lemma {:induction false} NothingToReopen(hooks: Hooks, c: Cipher, disk: Disk, env: Env)
    requires hooks.scan && disk.envelope.None?
    ensures var r := Init(hooks, c, disk, env);
            && (r.outcome == IsReady ==> disk.files == [] && r.cipher.key == Some(env.freshLak))
            && (disk.files != [] && env.probe != ProbeThrows ==>
                  && r.outcome == NotReady && r.disk == disk
                  && r.cipher.status in {NeedsRecovery(CiphertextWithoutEnvelope), NeedsRecovery(EnvelopeUnreadable)})
  {
  }

  // ---------------------------------------------------------------------------
  // Unlocking and locking
  // ---------------------------------------------------------------------------

  /**
   * `unlockWithLak` succeeds exactly on 32 bytes that can be imported; then exactly the files under them open. A
   * refusal leaves the crypto key, and one for length leaves everything.
   */
  lemma {:induction false} UnlockSucceedsExactly(c: Cipher, bytes: Key, env: Env, f: File)
    ensures var (ok, after) := UnlockWithLak(c, bytes, env);
            && (ok <==> |bytes| == 32 && !env.importThrows)
            && (ok ==> after.lak == Some(bytes) && after.key == Some(bytes)
                       && after.status == Unlocked(if env.keychain then SafeStorage else LocalFallback)
                       && after.tier == Some(after.status.tier))
            && (ok ==> (Decrypt(after, f).Some? <==> Opens(f, bytes)))
            && (!ok ==> after.key == c.key && after.status == c.status && after.tier == c.tier)
            && (!ok ==> after.lak == if |bytes| == 32 then Some(bytes) else c.lak)
            && (|bytes| != 32 ==> after == c)
  {
  }

  /** A ready cipher encrypts, and exactly the ready ciphers under that key read what it wrote. */
  lemma {:induction false} EncryptsExactly(c: Cipher, plaintext: seq<byte>, other: Cipher)
    ensures Encrypt(c, plaintext).Some? <==> c.key.Some?
    ensures c.key.Some? ==> (Decrypt(other, Encrypt(c, plaintext).value) == Some(plaintext) <==> other.key == c.key)
  {
  }

  /** Nothing is readable or writable through a cipher that was locked or sent to recovery. */
  lemma {:induction false} LockedOut(c: Cipher, f: File, plaintext: seq<byte>)
    ensures forall after :: after in {LockCipher(c), RequireRecovery(c)} ==>
              && after.lak.None? && Decrypt(after, f).None? && Encrypt(after, plaintext).None?
              && !after.status.Unlocked? && after.tier == c.tier
    ensures LockCipher(c).status
            == match c.tier
               case None => Uninitialized
               case Some(SafeStorage) => Locked(SafeStorage)
               case Some(_) => Locked(LocalFallback)
    ensures RequireRecovery(c).status == NeedsRecovery(RequiredByCaller)
  {
  }

  // ---------------------------------------------------------------------------
  // Starting
  // ---------------------------------------------------------------------------

  predicate SeesEnvelope(disk: Disk, env: Env) {
    env.probe == ProbeHonest && disk.envelope.Some?
  }

  /** The start is allowed to mint a key: no envelope seen, and no file found that one would be orphaned by. */
  predicate MayMint(hooks: Hooks, disk: Disk, env: Env) {
    && !SeesEnvelope(disk, env) && (env.probe == ProbeReportsError ==> !hooks.probe)
    && (hooks.scan ==> !env.scanThrows && disk.files == [])
  }

  /**
   * `init` is ready exactly when the envelope it sees reopens, or it may mint a key and can wrap and save it, and the key
   * imports; the key is then the envelope's, and the envelope holds it.
   */
  lemma {:induction false} InitReadyExactly(hooks: Hooks, c: Cipher, disk: Disk, env: Env)
    ensures var r := Init(hooks, c, disk, env);
            && (r.outcome == IsReady <==>
                  && env.probe != ProbeThrows && !env.importThrows
                  && (|| (SeesEnvelope(disk, env) && CanReopen(disk.envelope.value, env))
                      || (MayMint(hooks, disk, env) && CanWrap(hooks, env.keychain, disk, env) && env.save == SaveOk)))
            && (r.outcome == IsReady ==>
                  && r.cipher.key.Some? && r.cipher.lak == r.cipher.key && HeldBy(r.disk.envelope) == r.cipher.key
                  && (SeesEnvelope(disk, env) ==> r.disk.envelope == disk.envelope)
                  && (!SeesEnvelope(disk, env) ==> r.cipher.key == Some(env.freshLak))
                  && r.cipher.status.Unlocked? && r.cipher.tier == Some(r.cipher.status.tier)
                  && (r.cipher.status.tier == SafeStorage <==> r.disk.envelope.value.KeychainSealed?))
  {
    WrapsExactly(hooks, c.(keychain := env.keychain), disk, env.freshLak, env);
  }

  /** A start that is refused says why: which of the four ways to recovery it is follows from what was found. */
  lemma {:induction false} InitRefusesBecause(hooks: Hooks, c: Cipher, disk: Disk, env: Env)
    ensures var r := Init(hooks, c, disk, env);
            && (r.outcome == NotReady <==>
                  && env.probe != ProbeThrows
                  && (|| (env.probe == ProbeReportsError && hooks.probe)
                      || (SeesEnvelope(disk, env) && !CanReopen(disk.envelope.value, env))
                      || (!SeesEnvelope(disk, env) && !MayMint(hooks, disk, env))
                      || (MayMint(hooks, disk, env) && !(CanWrap(hooks, env.keychain, disk, env) && env.save == SaveOk))))
            && (r.outcome == NotReady ==>
                  r.cipher.status
                  == NeedsRecovery(
                       if env.probe == ProbeReportsError && hooks.probe then EnvelopeUnreadable
                       else if SeesEnvelope(disk, env) then UnwrapFailed
                       else if MayMint(hooks, disk, env) then ProvisioningFailed else CiphertextWithoutEnvelope))
            && (r.cipher.status == NeedsRecovery(UnwrapFailed) && r.outcome == NotReady ==>
                  r.cipher.tier == if disk.envelope.value.FallbackSealed? then Some(LocalFallback) else c.tier)
  {
    WrapsExactly(hooks, c.(keychain := env.keychain), disk, env.freshLak, env);
  }

  /** An envelope reopened under one of several candidates heals the stored fallback key, so it reopens again. */
  lemma {:induction false} ReopeningHeals(hooks: Hooks, c: Cipher, disk: Disk, env: Env)
    requires hooks.fallback && Init(hooks, c, disk, env).outcome == IsReady && !env.saveKekThrows
    ensures StoredKekOpens(Init(hooks, c, disk, env).disk)
  {
    WrapsExactly(hooks, c.(keychain := env.keychain), disk, env.freshLak, env);
  }

  // ---------------------------------------------------------------------------
  // Restoring
  // ---------------------------------------------------------------------------

  lemma {:induction false} AllOpenExactly(files: seq<File>, i: nat, candidate: Key, throwsAfter: Option<nat>)
    requires i <= |files|
    ensures Validate(files, i, candidate, throwsAfter).AllOpen?
            <==> && !(throwsAfter.Some? && i <= throwsAfter.value <= |files|)
                 && forall k :: i <= k < |files| ==> Opens(files[k], candidate)
    decreases |files| - i
  {
    if i < |files| && Opens(files[i], candidate) && throwsAfter != Some(i) {
      AllOpenExactly(files, i + 1, candidate, throwsAfter);
    }
  }

  /** The gates of a restore of another key than the live one. */
  predicate PassesGates(hooks: Hooks, c: Cipher, disk: Disk, candidate: Key, confirm: bool, env: Env) {
    && !env.importThrows
    && (hooks.list ==>
          && !env.probeImportThrows && !(env.listThrowsAfter.Some? && env.listThrowsAfter.value <= |disk.files|)
          && (forall k :: 0 <= k < |disk.files| ==> Opens(disk.files[k], candidate))
          && (disk.files == [] && c.status.Unlocked? && c.lak.Some? ==> confirm))
  }

  /**
   * A restore succeeds exactly when its candidate is the live key or passes the gates, and it can be wrapped and saved;
   * then candidate, envelope and status agree.
   */
  lemma {:induction false} RestoreSucceedsExactly(hooks: Hooks, c: Cipher, disk: Disk, candidate: Key, confirm: bool, env: Env)
    ensures var r := RestoreKey(hooks, c, disk, candidate, confirm, env);
            && (r.outcome.Restored? <==>
                  && (c.lak == Some(candidate) || PassesGates(hooks, c, disk, candidate, confirm, env))
                  && CanWrap(hooks, c.keychain || env.keychain, disk, env) && env.save == SaveOk)
            && (r.outcome.Restored? ==>
                  && r.cipher.lak == Some(candidate) && HeldBy(r.disk.envelope) == Some(candidate)
                  && r.cipher.key == (if c.lak == Some(candidate) then c.key else Some(candidate))
                  && r.cipher.status.Unlocked? && r.cipher.tier == Some(r.cipher.status.tier)
                  && (r.cipher.status.tier == SafeStorage <==> r.disk.envelope.value.KeychainSealed?))
            && (r.outcome.Restored? ==>
                  r.outcome.continuity
                  == if c.lak == Some(candidate) then SameKey else if !hooks.list then Unvalidated
                     else if disk.files != [] then Verified else Replaced)
  {
    WrapsExactly(hooks, c.(keychain := c.keychain || env.keychain), disk, candidate, env);
    AllOpenExactly(disk.files, 0, candidate, env.listThrowsAfter);
    ValidateMeaning(disk.files, 0, candidate, env.listThrowsAfter);
  }
}
