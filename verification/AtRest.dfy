/**
 * The life of the local at-rest key: what every operation of `AtRestCipher` does to the cipher's own state
 * and to storage, as functions of both and of the faults the call meets. AES-GCM is ideal: a sealed value
 * opens under the key that sealed it and no other.
 */
module AtRest {
  import opened Bytes
  import opened Text

  type Key = seq<byte>

  datatype Tier = SafeStorage | LocalFallback | Ephemeral

  datatype RecoveryReason =
    EnvelopeUnreadable | CiphertextWithoutEnvelope | ProvisioningFailed | UnwrapFailed | RequiredByCaller

  datatype Status =
    | Uninitialized
    | Unlocked(tier: Tier)
    | Locked(tier: Tier)
    | NeedsRecovery(reason: RecoveryReason)

  /** A managed file with a VG1 header: readable under one key, or damaged and readable under none. */
  datatype File = Vg1(key: Key, plaintext: seq<byte>) | Damaged

  /** The wrapped key on disk. A blob that is neither kind, or was torn by a failed write, is malformed. */
  datatype Envelope = KeychainSealed(lak: Key) | FallbackSealed(kek: Key, lak: Key) | Malformed

  datatype Disk = Disk(envelope: Option<Envelope>, fallbackKek: Option<Key>, files: seq<File>)

  /** The cipher's fields: `lak`, `cryptoKey`, `tier`, `status`, and whether `safeStorage` is held. */
  datatype Cipher = Cipher(lak: Option<Key>, key: Option<Key>, tier: Option<Tier>, status: Status, keychain: bool)

  const NEW_CIPHER := Cipher(None, None, None, Uninitialized, false)

  /** Which optional storage hooks exist. */
  datatype Hooks = Hooks(probe: bool, scan: bool, list: bool, fallback: bool)

  datatype ProbeFault = ProbeHonest | ProbeReportsError | ProbeThrows
  /** How a save ends: done, rejected without effect, torn, or in effect and still rejected. */
  datatype SaveFault = SaveOk | SaveFails | SaveTears | SaveLands

  /** What one call meets: random draws, and which of its library and storage calls fail. */
  datatype Env = Env(
    keychain: bool, encryptThrows: bool, decryptThrows: bool,
    probe: ProbeFault, scanThrows: bool, listThrowsAfter: Option<nat>,
    probeImportThrows: bool, importThrows: bool, wrapThrows: bool,
    candidates: Option<seq<Key>>, loadKekThrows: bool, kekVisible: bool, saveKekThrows: bool,
    save: SaveFault, clearThrows: bool, clearKekThrows: bool,
    freshLak: Key, freshKek: Key)

  datatype System = System(cipher: Cipher, disk: Disk)

  predicate Ready(c: Cipher) { c.key.Some? }

  // ---------------------------------------------------------------------------
  // Wrapping and unwrapping
  // ---------------------------------------------------------------------------

  datatype Wrapped = Wrapped(envelope: Option<Envelope>, tier: Option<Tier>, disk: Disk)

  /** The fallback key-encryption key, its tier, and storage after it may have been minted. */
  function FallbackKek(hooks: Hooks, tier: Option<Tier>, disk: Disk, env: Env)
    : (r: (Option<Key>, Option<Tier>, Disk))
  {
    if !hooks.fallback then (Some(env.freshKek), Some(Ephemeral), disk)
    else if env.loadKekThrows then (None, tier, disk)
    else if env.kekVisible && disk.fallbackKek.Some? then (disk.fallbackKek, Some(LocalFallback), disk)
    else if env.saveKekThrows then (None, tier, disk)
    else (Some(env.freshKek), Some(LocalFallback), disk.(fallbackKek := Some(env.freshKek)))
  }

  function Wrap(hooks: Hooks, c: Cipher, disk: Disk, lak: Key, env: Env): (w: Wrapped)
    ensures w.envelope.Some? ==> w.tier.Some?
  {
    if c.keychain && !env.encryptThrows then Wrapped(Some(KeychainSealed(lak)), Some(SafeStorage), disk)
    else
      var (kek, tier, disk') := FallbackKek(hooks, c.tier, disk, env);
      if kek.None? || env.wrapThrows then Wrapped(None, tier, disk')
      else Wrapped(Some(FallbackSealed(kek.value, lak)), tier, disk')
  }

  datatype Unwrapped = Unwrapped(lak: Option<Key>, tier: Option<Tier>, disk: Disk)

  function Unwrap(hooks: Hooks, c: Cipher, disk: Disk, envelope: Envelope, env: Env): (u: Unwrapped)
    ensures u.lak.Some? ==> u.tier.Some?
  {
    match envelope
    case Malformed => Unwrapped(None, c.tier, disk)
    case KeychainSealed(lak) =>
      if !c.keychain || env.decryptThrows then Unwrapped(None, c.tier, disk)
      else Unwrapped(Some(lak), Some(SafeStorage), disk)
    case FallbackSealed(kek, lak) =>
      if env.candidates.None? || kek !in env.candidates.value then Unwrapped(None, Some(LocalFallback), disk)
      else
        var healed := if hooks.fallback && !env.saveKekThrows then disk.(fallbackKek := Some(kek)) else disk;
        Unwrapped(Some(lak), Some(LocalFallback), healed)
  }

  /** Storage after an attempt to save `envelope`. */
  function Saved(disk: Disk, envelope: Envelope, fault: SaveFault): Disk {
    match fault
    case SaveOk => disk.(envelope := Some(envelope))
    case SaveFails => disk
    case SaveTears => disk.(envelope := Some(Malformed))
    case SaveLands => disk.(envelope := Some(envelope))
  }

  // ---------------------------------------------------------------------------
  // Operations
  // ---------------------------------------------------------------------------

  datatype InitOutcome = IsReady | NotReady | InitThrew

  datatype InitResult = InitResult(outcome: InitOutcome, cipher: Cipher, disk: Disk)

  function NeedRecovery(c: Cipher, disk: Disk, reason: RecoveryReason): InitResult {
    InitResult(NotReady, c.(status := NeedsRecovery(reason)), disk)
  }

  /** The last part of `init`: import the adopted key and report ready. */
  function Adopt(c: Cipher, disk: Disk, lak: Key, tier: Tier, env: Env): InitResult {
    var adopted := c.(lak := Some(lak), tier := Some(tier));
    if env.importThrows then InitResult(InitThrew, adopted, disk)
    else InitResult(IsReady, adopted.(key := Some(lak), status := Unlocked(tier)), disk)
  }

  function Provision(hooks: Hooks, c: Cipher, disk: Disk, env: Env): InitResult {
    var w := Wrap(hooks, c, disk, env.freshLak, env);
    var c' := c.(tier := w.tier);
    if w.envelope.None? then NeedRecovery(c', w.disk, ProvisioningFailed)
    else
      var saved := Saved(w.disk, w.envelope.value, env.save);
      if env.save != SaveOk then NeedRecovery(c', saved, ProvisioningFailed)
      else Adopt(c', saved, env.freshLak, w.tier.value, env)
  }

  /** `init` over an envelope it could read. */
  function Reopen(hooks: Hooks, c: Cipher, disk: Disk, envelope: Envelope, env: Env): InitResult {
    var u := Unwrap(hooks, c, disk, envelope, env);
    var c' := c.(tier := u.tier);
    match u.lak
    case None => NeedRecovery(c', u.disk, UnwrapFailed)
    case Some(lak) => Adopt(c', u.disk, lak, u.tier.value, env)
  }

  /** What the envelope probe tells `init`; without the probe hook an unreadable envelope looks absent. */
  datatype Probe = ProbedAbsent | ProbedPresent(envelope: Envelope) | ProbedError

  function ProbeEnvelope(hooks: Hooks, disk: Disk, env: Env): Probe {
    if env.probe == ProbeReportsError then (if hooks.probe then ProbedError else ProbedAbsent)
    else match disk.envelope
      case None => ProbedAbsent
      case Some(e) => ProbedPresent(e)
  }

  function Open(hooks: Hooks, c: Cipher, disk: Disk, probe: Probe, env: Env): InitResult {
    match probe
    case ProbedError => NeedRecovery(c, disk, EnvelopeUnreadable)
    case ProbedAbsent =>
      if hooks.scan && (env.scanThrows || disk.files != []) then NeedRecovery(c, disk, CiphertextWithoutEnvelope)
      else Provision(hooks, c, disk, env)
    case ProbedPresent(envelope) => Reopen(hooks, c, disk, envelope, env)
  }

  function Init(hooks: Hooks, c0: Cipher, disk: Disk, env: Env): InitResult {
    var c := c0.(keychain := env.keychain);
    if env.probe == ProbeThrows then InitResult(InitThrew, c, disk)
    else Open(hooks, c, disk, ProbeEnvelope(hooks, disk, env), env)
  }

  function LockCipher(c: Cipher): Cipher {
    c.(lak := None, key := None,
       status := if c.tier.None? then Uninitialized
                 else Locked(if c.tier.value == Ephemeral then LocalFallback else c.tier.value))
  }

  function RequireRecovery(c: Cipher): Cipher {
    c.(lak := None, key := None, status := NeedsRecovery(RequiredByCaller))
  }

  /** `reset`: lock, then clear the envelope, then the fallback key; the first failure stops the rest. */
  function Reset(hooks: Hooks, c: Cipher, disk: Disk, env: Env): (bool, System) {
    var locked := LockCipher(c);
    if env.clearThrows then (false, System(locked, disk))
    else
      var cleared := disk.(envelope := None);
      if !hooks.fallback then (true, System(locked.(status := Uninitialized), cleared))
      else if env.clearKekThrows then (false, System(locked, cleared))
      else (true, System(locked.(status := Uninitialized), cleared.(fallbackKek := None)))
  }

  function ClearPersistedWrap(disk: Disk, env: Env): Disk {
    if env.clearThrows then disk else disk.(envelope := None)
  }

  /** `persistWrappedLak`; the tier the wrap went through stays recorded even when the save fails. */
  function PersistWrapped(hooks: Hooks, c: Cipher, disk: Disk, env: Env): (bool, System) {
    if c.lak.None? then (false, System(c, disk))
    else
      var w := Wrap(hooks, c, disk, c.lak.value, env);
      var c' := c.(tier := w.tier);
      if w.envelope.None? then (false, System(c', w.disk))
      else (env.save == SaveOk, System(c', Saved(w.disk, w.envelope.value, env.save)))
  }

  function UnlockWithLak(c0: Cipher, bytes: Key, env: Env): (bool, Cipher) {
    if |bytes| != KEY_LEN then (false, c0)
    else
      var c := c0.(keychain := c0.keychain || env.keychain, lak := Some(bytes));
      if env.importThrows then (false, c)
      else
        // `env.keychain` is also what `isEncryptionAvailable` answers on a safeStorage held from before.
        var tier := if c.keychain && env.keychain then SafeStorage else LocalFallback;
        (true, c.(key := Some(bytes), tier := Some(tier), status := Unlocked(tier)))
  }

  function Encrypt(c: Cipher, plaintext: seq<byte>): Option<File> {
    if c.key.None? then None else Some(Vg1(c.key.value, plaintext))
  }

  /** `decryptBytes`: the plaintext, or nothing when locked, not VG1, or sealed under another key. */
  function Decrypt(c: Cipher, file: File): Option<seq<byte>> {
    if c.key.Some? && file.Vg1? && file.key == c.key.value then Some(file.plaintext) else None
  }

  // ---------------------------------------------------------------------------
  // Restore
  // ---------------------------------------------------------------------------

  datatype Continuity = SameKey | Verified | Replaced | Unvalidated

  datatype RestoreOutcome =
    | Restored(continuity: Continuity)
    | MalformedCode | KeyMismatch | ValidationError | NeedsConfirmation
    | RestoreThrew

  datatype RestoreResult = RestoreResult(outcome: RestoreOutcome, cipher: Cipher, disk: Disk)

  predicate Opens(file: File, key: Key) { file.Vg1? && file.key == key }

  datatype Verdict = AllOpen(count: nat) | SomeMismatch | CannotTell

  /** Probing the samples in order: the first mismatch or enumeration error decides. */
  function Validate(files: seq<File>, i: nat, candidate: Key, throwsAfter: Option<nat>): Verdict
    requires i <= |files|
    decreases |files| - i
  {
    if throwsAfter == Some(i) then CannotTell
    else if i == |files| then AllOpen(i)
    else if !Opens(files[i], candidate) then SomeMismatch
    else Validate(files, i + 1, candidate, throwsAfter)
  }

  /** Wrap and save: the tier of a wrap that was saved, and storage. */
  function Rewrap(hooks: Hooks, c: Cipher, disk: Disk, candidate: Key, env: Env): (r: (Option<Tier>, Disk))
  {
    var w := Wrap(hooks, c, disk, candidate, env);
    if w.envelope.None? then (None, w.disk)
    else (if env.save == SaveOk then w.tier else None, Saved(w.disk, w.envelope.value, env.save))
  }

  /** `restoreFromRecoveryCode` once the code has been read and its checksum accepted. */
  function RestoreKey(hooks: Hooks, c0: Cipher, disk: Disk, candidate: Key, confirmReplace: bool, env: Env)
    : RestoreResult
  {
    var c := c0.(keychain := c0.keychain || env.keychain);
    if c.lak == Some(candidate) then
      var (tier, disk') := Rewrap(hooks, c, disk, candidate, env);
      if tier.None? then RestoreResult(RestoreThrew, c, disk')
      else RestoreResult(Restored(SameKey), c.(tier := tier, status := Unlocked(tier.value)), disk')
    else if hooks.list && env.probeImportThrows then RestoreResult(ValidationError, c, disk)
    else
      var verdict := if hooks.list then Validate(disk.files, 0, candidate, env.listThrowsAfter) else AllOpen(0);
      match verdict
      case CannotTell => RestoreResult(ValidationError, c, disk)
      case SomeMismatch => RestoreResult(KeyMismatch, c, disk)
      case AllOpen(count) =>
        if hooks.list && count == 0 && c.status.Unlocked? && c.lak.Some? && !confirmReplace then
          RestoreResult(NeedsConfirmation, c, disk)
        else Commit(hooks, c, disk, candidate, if !hooks.list then Unvalidated else if count > 0 then Verified else Replaced, env)
  }

  /** The last step of a restore: import, re-wrap, save, and only then replace the live key. */
  function Commit(hooks: Hooks, c: Cipher, disk: Disk, candidate: Key, continuity: Continuity, env: Env): RestoreResult {
    if env.importThrows then RestoreResult(RestoreThrew, c, disk)
    else
      var (tier, disk') := Rewrap(hooks, c, disk, candidate, env);
      if tier.None? then RestoreResult(RestoreThrew, c, disk')
      else
        RestoreResult(
          Restored(continuity),
          c.(lak := Some(candidate), key := Some(candidate), tier := tier, status := Unlocked(tier.value)),
          disk')
  }
}
