/**
 * `AtRestCipher` itself: fields and key arrays updated in place, each method proved against the functions of
 * `AtRest`, and none leaving key bytes behind in an array it is done with.
 */
module AtRestClass {
  import opened Bytes
  import opened Text
  import opened AtRest
  import RecoveryCode

  predicate Zeroed(a: array<byte>)
    reads a
  {
    forall i :: 0 <= i < a.Length ==> a[i] == 0
  }

  method FillZero(a: array<byte>)
    modifies a
    ensures Zeroed(a)
  {
    for i := 0 to a.Length
      invariant forall j :: 0 <= j < i ==> a[j] == 0
    {
      a[i] := 0;
    }
  }

  method NewArray(bytes: seq<byte>) returns (a: array<byte>)
    ensures fresh(a) && a[..] == bytes
  {
    a := new byte[|bytes|](i requires 0 <= i < |bytes| => bytes[i]);
  }

  class AtRestStorage {
    var envelope: Option<Envelope>
    var fallbackKek: Option<Key>
    var files: seq<File>

    function Contents(): Disk
      reads this
    {
      Disk(envelope, fallbackKek, files)
    }
  }

  class AtRestCipher {
    var lak: array?<byte>
    var cryptoKey: Option<Key>
    var tier: Option<Tier>
    var status: Status
    var keychain: bool
    const storage: AtRestStorage
    const hooks: Hooks

    /** Every array in which this cipher has ever put key bytes. */
    ghost var scratch: set<array<byte>>

    function Fields(): Cipher
      reads this, lak
    {
      Cipher(if lak == null then None else Some(lak[..]), cryptoKey, tier, status, keychain)
    }

    /** The live key is in an array of the cipher's own. */
    ghost predicate Valid()
      reads this
    {
      lak != null ==> lak in scratch
    }

    /** No array but the live one still holds key bytes. */
    ghost predicate Clean()
      reads this, scratch
    {
      forall a :: a in scratch ==> a == lak || Zeroed(a)
    }

    constructor (storage: AtRestStorage, hooks: Hooks)
      ensures this.storage == storage && this.hooks == hooks
      ensures Valid() && Clean() && scratch == {} && Fields() == NEW_CIPHER
    {
      this.storage, this.hooks := storage, hooks;
      lak, cryptoKey, tier, status, keychain := null, None, None, Uninitialized, false;
      scratch := {};
    }

    // -------------------------------------------------------------------------
    // Wrapping
    // -------------------------------------------------------------------------

    /** A fresh array with the fallback key-encryption key, or null when it cannot be had. */
    method GetOrCreateFallbackKek(env: Env) returns (kek: array?<byte>)
      modifies this`tier, this`scratch, storage`fallbackKek
      ensures (if kek == null then None else Some(kek[..]), tier, storage.Contents())
              == FallbackKek(hooks, old(tier), old(storage.Contents()), env)
      ensures old(scratch) <= scratch && fresh(scratch - old(scratch))
      ensures forall a :: a in scratch - old(scratch) ==> a == kek || Zeroed(a)
      ensures kek != null ==> kek in scratch && fresh(kek)
    {
      if !hooks.fallback {
        tier := Some(Ephemeral);
        kek := NewArray(env.freshKek);
        scratch := scratch + {kek};
        return;
      }
      if env.loadKekThrows {
        return null;
      }
      if env.kekVisible && storage.fallbackKek.Some? {
        tier := Some(LocalFallback);
        kek := NewArray(storage.fallbackKek.value);
        scratch := scratch + {kek};
        return;
      }
      var minted := NewArray(env.freshKek);
      scratch := scratch + {minted};
      if env.saveKekThrows {
        FillZero(minted);
        return null;
      }
      storage.fallbackKek := Some(minted[..]);
      tier := Some(LocalFallback);
      kek := minted;
    }

    method WrapLak(bytes: array<byte>, env: Env) returns (r: Option<Envelope>)
      modifies this`tier, this`scratch, storage`fallbackKek
      ensures Wrapped(r, tier, storage.Contents())
              == Wrap(hooks, old(Fields()), old(storage.Contents()), old(bytes[..]), env)
      ensures old(scratch) <= scratch && fresh(scratch - old(scratch))
      ensures forall a :: a in scratch - old(scratch) ==> Zeroed(a)
    {
      if keychain && !env.encryptThrows {
        tier := Some(SafeStorage);
        return Some(KeychainSealed(bytes[..]));
      }
      var kek := GetOrCreateFallbackKek(env);
      if kek == null {
        return None;
      }
      r := if env.wrapThrows then None else Some(FallbackSealed(kek[..], bytes[..]));
      FillZero(kek);
    }

    /** The candidate keys in arrays of their own, each distinct value once. */
    method LoadCandidates(candidates: seq<Key>) returns (out: seq<array<byte>>, ghost values: seq<Key>)
      modifies this`scratch
      ensures old(scratch) <= scratch && fresh(scratch - old(scratch))
      ensures forall a :: a in scratch - old(scratch) <==> a in out
      ensures forall j :: 0 <= j < |out| ==> fresh(out[j])
      ensures |values| == |out| && forall j :: 0 <= j < |out| ==> out[j][..] == values[j]
      ensures forall k :: k in candidates <==> k in values
    {
      out, values := [], [];
      ghost var before := scratch;
      for i := 0 to |candidates|
        invariant before <= scratch && fresh(scratch - before)
        invariant forall a :: a in scratch - before <==> a in out
        invariant forall j :: 0 <= j < |out| ==> fresh(out[j]) && out[j] !in before
        invariant |values| == |out| && forall j :: 0 <= j < |out| ==> out[j][..] == values[j]
        invariant forall k :: k in candidates[..i] <==> k in values
      {
        var j := 0;
        while j < |out| && out[j][..] != candidates[i]
          invariant 0 <= j <= |out|
          invariant forall m :: 0 <= m < j ==> values[m] != candidates[i]
        {
          j := j + 1;
        }
        if j == |out| {
          var a := NewArray(candidates[i]);
          scratch := scratch + {a};
          out, values := out + [a], values + [candidates[i]];
        } else {
          assert values[j] == candidates[i];
        }
        assert candidates[..i + 1] == candidates[..i] + [candidates[i]];
      }
      assert candidates[..|candidates|] == candidates;
    }

    /** The first candidate array that holds `kek`, trying each in turn. */
    method TryCandidates(arrays: seq<array<byte>>, kek: Key, ghost values: seq<Key>) returns (found: bool)
      requires |values| == |arrays| && forall j :: 0 <= j < |arrays| ==> arrays[j][..] == values[j]
      ensures found <==> kek in values
    {
      found := false;
      for i := 0 to |arrays|
        invariant forall j :: 0 <= j < i ==> values[j] != kek
      {
        if arrays[i][..] == kek {
          assert values[i] == kek;
          return true;
        }
      }
    }

    method FillAllZero(arrays: seq<array<byte>>)
      modifies arrays
      ensures forall a :: a in arrays ==> Zeroed(a)
    {
      for i := 0 to |arrays|
        invariant forall j :: 0 <= j < i ==> Zeroed(arrays[j])
      {
        FillZero(arrays[i]);
      }
    }

    /** Whichever candidate unwraps, and also when none does, every candidate array is zeroed. */
    method UnwrapLak(envelope: Envelope, env: Env) returns (r: array?<byte>)
      modifies this`tier, this`scratch, storage`fallbackKek
      ensures Unwrapped(if r == null then None else Some(r[..]), tier, storage.Contents())
              == Unwrap(hooks, old(Fields()), old(storage.Contents()), envelope, env)
      ensures old(scratch) <= scratch && fresh(scratch - old(scratch))
      ensures forall a :: a in scratch - old(scratch) ==> a == r || Zeroed(a)
      ensures r != null ==> r in scratch && fresh(r)
    {
      match envelope {
        case Malformed => r := null;
        case KeychainSealed(sealed) =>
          if !keychain || env.decryptThrows {
            return null;
          }
          tier := Some(SafeStorage);
          r := NewArray(sealed);
          scratch := scratch + {r};
        case FallbackSealed(kek, sealed) =>
          tier := Some(LocalFallback);
          if env.candidates.None? {
            return null;
          }
          var arrays, values := LoadCandidates(env.candidates.value);
          var found := TryCandidates(arrays, kek, values);
          if found && hooks.fallback && !env.saveKekThrows {
            storage.fallbackKek := Some(kek);
          }
          FillAllZero(arrays);
          if !found {
            return null;
          }
          r := NewArray(sealed);
          scratch := scratch + {r};
      }
    }

    // -------------------------------------------------------------------------
    // The lifecycle
    // -------------------------------------------------------------------------

    method SaveWrappedLak(blob: Envelope, env: Env) returns (ok: bool)
      modifies storage`envelope
      ensures storage.Contents() == Saved(old(storage.Contents()), blob, env.save)
      ensures ok <==> env.save == SaveOk
    {
      match env.save {
        case SaveOk => storage.envelope := Some(blob);
        case SaveFails =>
        case SaveTears => storage.envelope := Some(Malformed);
        case SaveLands => storage.envelope := Some(blob);
      }
      ok := env.save == SaveOk;
    }

    method Provision(env: Env) returns (r: InitOutcome)
      requires Valid()
      modifies this, storage
      ensures Valid() && old(scratch) <= scratch && fresh(scratch - old(scratch))
      ensures InitResult(r, Fields(), storage.Contents())
              == AtRest.Provision(hooks, old(Fields()), old(storage.Contents()), env)
      ensures forall a :: a in scratch - old(scratch) ==> a == lak || Zeroed(a)
      ensures lak == old(lak) || (lak != null && fresh(lak))
    {
      var minted := NewArray(env.freshLak);
      scratch := scratch + {minted};
      var blob := WrapLak(minted, env);
      if blob.None? {
        FillZero(minted);
        status := NeedsRecovery(ProvisioningFailed);
        return NotReady;
      }
      var saved := SaveWrappedLak(blob.value, env);
      if !saved {
        FillZero(minted);
        status := NeedsRecovery(ProvisioningFailed);
        return NotReady;
      }
      lak := minted;
      r := ImportLak(env);
    }

    /** The last part of `init`: a failing key import leaves the new key bytes beside the old key. */
    method ImportLak(env: Env) returns (r: InitOutcome)
      requires lak != null && tier.Some?
      modifies this`cryptoKey, this`status
      ensures InitResult(r, Fields(), storage.Contents())
              == Adopt(old(Fields()), storage.Contents(), lak[..], tier.value, env)
    {
      if env.importThrows {
        return InitThrew;
      }
      cryptoKey := Some(lak[..]);
      status := Unlocked(tier.value);
      r := IsReady;
    }

    method Reopen(envelope: Envelope, env: Env) returns (r: InitOutcome)
      requires Valid()
      modifies this, storage
      ensures Valid() && old(scratch) <= scratch && fresh(scratch - old(scratch))
      ensures InitResult(r, Fields(), storage.Contents())
              == AtRest.Reopen(hooks, old(Fields()), old(storage.Contents()), envelope, env)
      ensures forall a :: a in scratch - old(scratch) ==> a == lak || Zeroed(a)
      ensures lak == old(lak) || (lak != null && fresh(lak))
    {
      var unwrapped := UnwrapLak(envelope, env);
      if unwrapped == null {
        status := NeedsRecovery(UnwrapFailed);
        return NotReady;
      }
      lak := unwrapped;
      r := ImportLak(env);
    }

    method Open(probe: Probe, env: Env) returns (r: InitOutcome)
      requires Valid()
      modifies this, storage
      ensures Valid() && old(scratch) <= scratch && fresh(scratch - old(scratch))
      ensures InitResult(r, Fields(), storage.Contents())
              == AtRest.Open(hooks, old(Fields()), old(storage.Contents()), probe, env)
      ensures forall a :: a in scratch - old(scratch) ==> a == lak || Zeroed(a)
      ensures lak == old(lak) || (lak != null && fresh(lak))
    {
      match probe {
        case ProbedError =>
          status := NeedsRecovery(EnvelopeUnreadable);
          r := NotReady;
        case ProbedAbsent =>
          if hooks.scan && (env.scanThrows || storage.files != []) {
            status := NeedsRecovery(CiphertextWithoutEnvelope);
            return NotReady;
          }
          r := Provision(env);
        case ProbedPresent(envelope) =>
          r := Reopen(envelope, env);
      }
    }

    /**
     * `init`. The scratch arrays stay clean unless a live key array is replaced: `init` on a cipher that
     * still holds a key drops the old array with its bytes.
     */
    method Init(env: Env) returns (r: InitOutcome)
      requires Valid()
      modifies this, storage
      ensures Valid() && old(scratch) <= scratch && fresh(scratch - old(scratch))
      ensures InitResult(r, Fields(), storage.Contents())
              == AtRest.Init(hooks, old(Fields()), old(storage.Contents()), env)
      ensures old(lak) != null ==> old(lak)[..] == old(lak[..])
      ensures old(Clean()) ==> (Clean() <==> lak == old(lak) || old(lak) == null || Zeroed(old(lak)))
    {
      keychain := env.keychain;
      if env.probe == ProbeThrows {
        return InitThrew;
      }
      r := Open(ProbeEnvelope(hooks, storage.Contents(), env), env);
    }

    method WipeLak()
      requires Valid()
      modifies this`lak, this`cryptoKey, lak
      ensures Valid() && lak == null && cryptoKey.None?
      ensures old(lak) != null ==> Zeroed(old(lak))
      ensures old(Clean()) ==> Clean()
    {
      if lak != null {
        FillZero(lak);
        lak := null;
      }
      cryptoKey := None;
    }

    method RequireRecovery()
      requires Valid()
      modifies this, lak
      ensures Valid() && Fields() == AtRest.RequireRecovery(old(Fields())) && scratch == old(scratch)
      ensures old(lak) != null ==> Zeroed(old(lak))
      ensures old(Clean()) ==> Clean()
    {
      WipeLak();
      status := NeedsRecovery(RequiredByCaller);
    }

    method Lock()
      requires Valid()
      modifies this, lak
      ensures Valid() && Fields() == LockCipher(old(Fields())) && scratch == old(scratch)
      ensures old(lak) != null ==> Zeroed(old(lak))
      ensures old(Clean()) ==> Clean()
    {
      WipeLak();
      status := if tier.None? then Uninitialized
                else Locked(if tier.value == Ephemeral then LocalFallback else tier.value);
    }

    method Reset(env: Env) returns (ok: bool)
      requires Valid()
      modifies this, storage, lak
      ensures Valid() && scratch == old(scratch)
      ensures (ok, System(Fields(), storage.Contents()))
              == AtRest.Reset(hooks, old(Fields()), old(storage.Contents()), env)
      ensures old(lak) != null ==> Zeroed(old(lak))
      ensures old(Clean()) ==> Clean()
    {
      Lock();
      if env.clearThrows {
        return false;
      }
      storage.envelope := None;
      if hooks.fallback {
        if env.clearKekThrows {
          return false;
        }
        storage.fallbackKek := None;
      }
      status := Uninitialized;
      ok := true;
    }

    /** A defensive copy: the caller never gets the live array. */
    method ExportLakBytes() returns (copy: array?<byte>)
      requires Valid()
      ensures copy == null <==> lak == null
      ensures copy != null ==> fresh(copy) && copy !in scratch && copy[..] == lak[..]
    {
      if lak == null {
        return null;
      }
      copy := NewArray(lak[..]);
    }

    /** Adopts a copy of the caller's bytes; the old key array is zeroed first. */
    method UnlockWithLak(bytes: array<byte>, env: Env) returns (ok: bool)
      requires Valid() && bytes !in scratch
      modifies this, lak
      ensures Valid() && old(scratch) <= scratch && fresh(scratch - old(scratch)) && bytes !in scratch
      ensures (ok, Fields()) == AtRest.UnlockWithLak(old(Fields()), old(bytes[..]), env)
      ensures bytes[..] == old(bytes[..])
      ensures lak == old(lak) || (lak != null && fresh(lak) && lak != bytes && (old(lak) != null ==> Zeroed(old(lak))))
      ensures old(Clean()) ==> Clean()
    {
      if bytes.Length != KEY_LEN {
        return false;
      }
      if !keychain {
        keychain := env.keychain;
      }
      AdoptCopy(bytes);
      if env.importThrows {
        return false;
      }
      cryptoKey := Some(lak[..]);
      var held := if keychain && env.keychain then SafeStorage else LocalFallback;
      tier := Some(held);
      status := Unlocked(held);
      ok := true;
    }

    method AdoptCopy(bytes: array<byte>)
      requires Valid() && bytes !in scratch
      modifies this`lak, this`scratch, lak
      ensures Valid() && old(scratch) <= scratch && fresh(scratch - old(scratch)) && bytes !in scratch
      ensures lak != null && fresh(lak) && lak[..] == old(bytes[..]) == bytes[..]
      ensures old(lak) != null ==> Zeroed(old(lak))
      ensures old(Clean()) ==> Clean()
    {
      if lak != null {
        FillZero(lak);
      }
      lak := NewArray(bytes[..]);
      scratch := scratch + {lak};
    }

    method ClearPersistedWrap(env: Env) returns (ok: bool)
      modifies storage`envelope
      ensures ok == !env.clearThrows
      ensures storage.Contents() == AtRest.ClearPersistedWrap(old(storage.Contents()), env)
    {
      ok := !env.clearThrows;
      if ok {
        storage.envelope := None;
      }
    }

    method PersistWrappedLak(env: Env) returns (ok: bool)
      requires Valid()
      modifies this`tier, this`scratch, storage
      ensures Valid() && old(scratch) <= scratch && fresh(scratch - old(scratch))
      ensures (ok, System(Fields(), storage.Contents()))
              == PersistWrapped(hooks, old(Fields()), old(storage.Contents()), env)
      ensures old(Clean()) ==> Clean()
    {
      if lak == null {
        return false;
      }
      var blob := WrapLak(lak, env);
      if blob.None? {
        return false;
      }
      ok := SaveWrappedLak(blob.value, env);
    }

    // -------------------------------------------------------------------------
    // Files
    // -------------------------------------------------------------------------

    /** A ready cipher writes a file that gives the data back to every cipher under the same key, and to no other. */
    method EncryptBytes(data: seq<byte>) returns (r: Option<File>)
      ensures r.Some? <==> Ready(Fields())
      ensures r.Some? ==> forall c :: Decrypt(c, r.value) == if c.key == cryptoKey then Some(data) else None
    {
      if cryptoKey.None? {
        return None;
      }
      r := Some(Vg1(cryptoKey.value, data));
    }

    /** A file is read as `data` exactly when it is what this cipher writes for `data`. */
    method DecryptBytes(file: File) returns (r: Option<seq<byte>>)
      ensures forall data :: r == Some(data) <==> Encrypt(Fields(), data) == Some(file)
    {
      if cryptoKey.Some? && file.Vg1? && file.key == cryptoKey.value {
        return Some(file.plaintext);
      }
      r := None;
    }

    // -------------------------------------------------------------------------
    // Recovery codes
    // -------------------------------------------------------------------------

    method ExportRecoveryCode(sum: RecoveryCode.Checksum) returns (code: Option<string>)
      ensures code == if lak == null then None else Some(RecoveryCode.Code(lak[..], sum))
    {
      if lak == null {
        return None;
      }
      var lakHex := RecoveryCode.BytesToHex(lak);
      var checksum := RecoveryCode.ChecksumBytes(sum, lak[..]);
      RecoveryCode.HexConcat(lak[..], checksum);
      var groups := RecoveryCode.GroupBy(lakHex + RecoveryCode.Hex(checksum), 4);
      code := Some(RecoveryCode.PREFIX + Join(groups, '-'));
    }

    /** `constantTimeEquals`: no early exit. */
    method ConstantTimeEquals(a: array<byte>, b: array<byte>) returns (equal: bool)
      ensures equal <==> a[..] == b[..]
    {
      if a.Length != b.Length {
        return false;
      }
      equal := true;
      for i := 0 to a.Length
        invariant equal <==> a[..i] == b[..i]
      {
        assert a[..i + 1] == a[..i] + [a[i]] && b[..i + 1] == b[..i] + [b[i]];
        equal := equal && a[i] == b[i];
      }
      assert a[..a.Length] == a[..] && b[..b.Length] == b[..];
    }

    /** Probe every sample under the candidate key until one fails or the enumeration does. */
    method ValidateSamples(candidate: array<byte>, env: Env) returns (verdict: Verdict)
      ensures verdict == Validate(storage.files, 0, candidate[..], env.listThrowsAfter)
    {
      var sampleCount := 0;
      while sampleCount < |storage.files|
        invariant sampleCount <= |storage.files|
        invariant Validate(storage.files, sampleCount, candidate[..], env.listThrowsAfter)
                  == Validate(storage.files, 0, candidate[..], env.listThrowsAfter)
      {
        if env.listThrowsAfter == Some(sampleCount) {
          return CannotTell;
        }
        if !Opens(storage.files[sampleCount], candidate[..]) {
          return SomeMismatch;
        }
        sampleCount := sampleCount + 1;
      }
      verdict := if env.listThrowsAfter == Some(sampleCount) then CannotTell else AllOpen(sampleCount);
    }

    /** What restoring from the text of a code comes to. */
    function AfterRestore(code: string, confirmReplace: bool, sum: RecoveryCode.Checksum, env: Env): RestoreResult
      reads this, storage, lak
    {
      match RecoveryCode.Read(code, sum)
      case None => RestoreResult(MalformedCode, Fields(), storage.Contents())
      case Some(candidate) => RestoreKey(hooks, Fields(), storage.Contents(), candidate, confirmReplace, env)
    }

    /** Re-wrap and save `candidate`; the tier goes back to `before` when either fails. */
    method Rewrap(candidate: array<byte>, before: Option<Tier>, env: Env) returns (committed: bool)
      requires before == tier
      modifies this`tier, this`scratch, storage
      ensures old(scratch) <= scratch && fresh(scratch - old(scratch))
      ensures forall a :: a in scratch - old(scratch) ==> Zeroed(a)
      ensures (if committed then tier else None, storage.Contents())
              == AtRest.Rewrap(hooks, old(Fields()), old(storage.Contents()), old(candidate[..]), env)
      ensures committed ==> tier.Some?
      ensures !committed ==> tier == before
    {
      var blob := WrapLak(candidate, env);
      if blob.None? {
        tier := before;
        return false;
      }
      committed := SaveWrappedLak(blob.value, env);
      if !committed {
        tier := before;
      }
    }

    /** Import, re-wrap, save, and only then wipe the old key and take the new one. */
    method Commit(candidate: array<byte>, continuity: Continuity, env: Env) returns (r: RestoreOutcome, adopted: bool)
      requires Valid() && candidate !in scratch && candidate != lak
      modifies this, storage, lak
      ensures old(scratch) <= scratch && fresh(scratch - old(scratch)) && candidate !in scratch
      ensures RestoreResult(r, if adopted then Fields().(lak := Some(candidate[..])) else Fields(), storage.Contents())
              == AtRest.Commit(hooks, old(Fields()), old(storage.Contents()), old(candidate[..]), continuity, env)
      ensures candidate[..] == old(candidate[..])
      ensures adopted ==> r.Restored? && lak == null && (old(lak) != null ==> Zeroed(old(lak)))
      ensures !adopted ==> lak == old(lak) && (lak != null ==> lak[..] == old(lak[..]))
      ensures forall a :: a in scratch - old(scratch) ==> Zeroed(a)
    {
      if env.importThrows {
        return RestoreThrew, false;
      }
      var committed := Rewrap(candidate, tier, env);
      if !committed {
        return RestoreThrew, false;
      }
      if lak != null {
        FillZero(lak);
      }
      lak := null;
      cryptoKey := Some(candidate[..]);
      status := Unlocked(tier.value);
      return Restored(continuity), true;
    }

    /** The code of the current key: re-wrap it and leave the live key as it is. */
    method RestoreSame(candidate: array<byte>, env: Env) returns (r: RestoreOutcome)
      requires Valid() && lak != null && candidate[..] == lak[..]
      modifies this`tier, this`status, this`scratch, storage
      ensures old(scratch) <= scratch && fresh(scratch - old(scratch))
      ensures forall a :: a in scratch - old(scratch) ==> Zeroed(a)
      ensures var (tier', disk') := AtRest.Rewrap(hooks, old(Fields()), old(storage.Contents()), candidate[..], env);
              && storage.Contents() == disk'
              && r == (if tier'.None? then RestoreThrew else Restored(SameKey))
              && tier == (if tier'.None? then old(tier) else tier')
              && status == (if tier'.None? then old(status) else Unlocked(tier'.value))
    {
      var committed := Rewrap(candidate, tier, env);
      if !committed {
        return RestoreThrew;
      }
      status := Unlocked(tier.value);
      r := Restored(SameKey);
    }

    /** Everything after the checksum: prove the candidate, pass the gate, commit. */
    method RestoreCandidate(candidate: array<byte>, confirmReplace: bool, env: Env)
      returns (r: RestoreOutcome, adopted: bool)
      requires Valid() && candidate !in scratch && candidate != lak
      modifies this, storage, lak
      ensures old(scratch) <= scratch && fresh(scratch - old(scratch)) && candidate !in scratch
      ensures RestoreResult(r, if adopted then Fields().(lak := Some(candidate[..])) else Fields(), storage.Contents())
              == RestoreKey(hooks, old(Fields()), old(storage.Contents()), old(candidate[..]), confirmReplace, env)
      ensures candidate[..] == old(candidate[..])
      ensures adopted ==> r.Restored? && lak == null && (old(lak) != null ==> Zeroed(old(lak)))
      ensures !adopted ==> lak == old(lak) && (lak != null ==> lak[..] == old(lak[..]))
      ensures forall a :: a in scratch - old(scratch) ==> Zeroed(a)
    {
      adopted := false;
      if !keychain {
        keychain := env.keychain;
      }
      if lak != null {
        var same := ConstantTimeEquals(candidate, lak);
        if same {
          r := RestoreSame(candidate, env);
          return;
        }
      }
      var verdict := AllOpen(0);
      if hooks.list {
        if env.probeImportThrows {
          return ValidationError, false;
        }
        verdict := ValidateSamples(candidate, env);
      }
      match verdict {
        case CannotTell => r := ValidationError;
        case SomeMismatch => r := KeyMismatch;
        case AllOpen(sampleCount) =>
          if hooks.list && sampleCount == 0 && status.Unlocked? && lak != null && !confirmReplace {
            return NeedsConfirmation, false;
          }
          r, adopted := Commit(
            candidate, if !hooks.list then Unvalidated else if sampleCount > 0 then Verified else Replaced, env);
      }
    }

    /**
     * `restoreFromRecoveryCode`. The candidate array becomes the live key or is zeroed; a replaced key array
     * is zeroed; on a refusal the live array is the same one with the same bytes.
     */
    method RestoreFromRecoveryCode(code: string, confirmReplace: bool, sum: RecoveryCode.Checksum, env: Env)
      returns (r: RestoreOutcome)
      requires Valid()
      modifies this, storage, lak
      ensures Valid() && old(scratch) <= scratch && fresh(scratch - old(scratch))
      ensures RestoreResult(r, Fields(), storage.Contents()) == old(AfterRestore(code, confirmReplace, sum, env))
      ensures lak == old(lak) || (lak != null && fresh(lak) && (old(lak) != null ==> Zeroed(old(lak))))
      ensures !r.Restored? ==> lak == old(lak) && (lak != null ==> lak[..] == old(lak[..]))
      ensures old(Clean()) ==> Clean()
    {
      var stripped := RecoveryCode.Stripped(code);
      if |stripped| < |RecoveryCode.PREFIX| || stripped[..|RecoveryCode.PREFIX|] != RecoveryCode.PREFIX {
        return MalformedCode;
      }
      var body := RecoveryCode.WithoutDashes(stripped[|RecoveryCode.PREFIX|..]);
      if |body| != 2 * (KEY_LEN + RecoveryCode.CHECKSUM_BYTES) || !RecoveryCode.AllHex(body) {
        return MalformedCode;
      }
      var candidate := RecoveryCode.HexToBytes(body[..2 * KEY_LEN]);
      var expected := RecoveryCode.ChecksumBytes(sum, candidate[..]);
      if RecoveryCode.UpperAll(RecoveryCode.Hex(expected)) != body[2 * KEY_LEN..] {
        FillZero(candidate);
        scratch := scratch + {candidate};
        return MalformedCode;
      }
      var adopted;
      r, adopted := RestoreCandidate(candidate, confirmReplace, env);
      if adopted {
        lak := candidate;
      } else {
        FillZero(candidate);
      }
      scratch := scratch + {candidate};
    }
  }
}
