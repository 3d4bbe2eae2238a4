/** Recovery from end to end: a code written down once brings the files back whatever happened in between. */
module Recovery {
  import opened Bytes
  import opened Text
  import opened AtRest
  import opened AtRestRuns
  import RecoveryCode

  /** All files, not only the readable ones, are under `key`. */
  lemma {:induction false} OneFileTellsAll(s: System, key: Key)
    requires OneKey(s) && (forall f :: f in s.disk.files ==> f.Vg1?)
    requires s.disk.files != [] ==> exists f :: f in s.disk.files && Opens(f, key)
    ensures forall i :: 0 <= i < |s.disk.files| ==> Opens(s.disk.files[i], key)
  {
    if s.disk.files != [] {
      var k :| IsTheKey(s, k);
      var f :| f in s.disk.files && Opens(f, key);
      var j :| 0 <= j < |s.disk.files| && s.disk.files[j] == f;
      assert k == key;
      forall i | 0 <= i < |s.disk.files|
        ensures Opens(s.disk.files[i], key)
      {
        assert s.disk.files[i] in s.disk.files;
      }
    }
  }

  /**
   * The recovery theorem. Export a code while a key is live; let any run follow, with any storage failures, locks,
   * resets and restarts of the cipher's state; retype the code with any slips of case, spacing and dashes. If one of
   * the files then on disk is under that key, or there is none, and none is damaged, the code restores that very key
   * and every file decrypts to what was encrypted. The restored cipher is ready unless it already held the key
   * without having it imported.
   */
  lemma {:induction false} CodeBringsFilesBack(
      hooks: Hooks, s: System, run: seq<Op>, sum: RecoveryCode.Checksum, t: string, slips: seq<RecoveryCode.Slip>, env: Env)
    requires CiphertextHooks(hooks) && OneKey(s) && RunRespected(hooks, s, run)
    requires s.cipher.lak.Some? && |s.cipher.lak.value| == KEY_LEN
    requires RecoveryCode.Retyped(RecoveryCode.Code(s.cipher.lak.value, sum), t, slips)
    requires var e := ApplyAll(hooks, s, run);
             && Succeeds(hooks, e.cipher, e.disk, s.cipher.lak.value, env)
             && (forall f :: f in e.disk.files ==> f.Vg1?)
             && (e.disk.files != [] ==> exists f :: f in e.disk.files && Opens(f, s.cipher.lak.value))
    ensures RecoveryCode.Read(t, sum) == s.cipher.lak
    ensures var e, key := ApplyAll(hooks, s, run), s.cipher.lak.value;
            var r := RestoreKey(hooks, e.cipher, e.disk, key, true, env);
            && r.outcome.Restored? && r.cipher.lak == Some(key) && HeldBy(r.disk.envelope) == Some(key)
            && r.disk.files == e.disk.files
            && (Ready(r.cipher) <==> e.cipher.lak != Some(key) || Ready(e.cipher))
            && (Ready(r.cipher) ==>
                  forall i :: 0 <= i < |r.disk.files| ==> Decrypt(r.cipher, r.disk.files[i]) == Some(r.disk.files[i].plaintext))
  {
    var e, key := ApplyAll(hooks, s, run), s.cipher.lak.value;
    RecoveryCode.RetypedCode(key, sum, t, slips);
    RunKeepsOneKey(hooks, s, run);
    OneFileTellsAll(e, key);
    RecoveryReadsEveryFile(hooks, e.cipher, e.disk, key, env);
    RestoredReadiness(hooks, e.cipher, e.disk, key, env);
  }

  /**
   * A key adopted without an imported crypto key, and restored by its own code: the answer is a success and the status
   * unlocked, and the cipher still is not ready.
   */
  lemma {:induction false} RestoredButNotReady(bytes: Key)
    requires |bytes| == KEY_LEN
    ensures var c := UnlockWithLak(NEW_CIPHER, bytes, QUIET.(importThrows := true)).1;
            var r := RestoreKey(ALL_HOOKS, c, Disk(None, None, []), bytes, true, QUIET);
            r.outcome == Restored(SameKey) && r.cipher.status.Unlocked? && !Ready(r.cipher)
  {
  }

  lemma {:induction false} RestoredReadiness(hooks: Hooks, c: Cipher, disk: Disk, key: Key, env: Env)
    requires RestoreKey(hooks, c, disk, key, true, env).outcome.Restored?
    ensures var r := RestoreKey(hooks, c, disk, key, true, env);
            Ready(r.cipher) <==> c.lak != Some(key) || Ready(c)
  {
  }
}
