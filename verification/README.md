# VaultGuard plugin: verification project

A Dafny model of the parts of the VaultGuard plugin in which one mistake loses data, keys or authority, with the
properties those parts are for proved over all inputs, all runs and all interleavings. `dafny verify dfyconfig.toml`
checks everything.

- **Local at-rest key** (`AtRest`, `AtRestRuns`, `KeyCustody`, `AtRestClass`, `RecoveryCode`, `Recovery`). `AtRest`
  says, as functions of the cipher's fields, of storage and of the faults a call meets, what each operation does.
  `AtRestClass` has the class with its mutable key arrays and proves every method against those functions, together
  with what becomes of the arrays. `AtRestRuns` proves key continuity over runs, `KeyCustody` when each call succeeds and
  what its success can be relied on for, `Recovery` the recovery theorem.
- **PIN lock** (`PinLock`). The manager with its persisted counter; the rate bound over guesses and restarts.
- **Unified diffs** (`UnifiedDiff`, `PatchText`, `DiffPrinter`, `PosixReading`). The patch engine's loops, the algebra of
  patches they compute, which hunks any diff text holds, the whole-file printer, and where the engine agrees with the
  POSIX reading of a patch.
- **Import walk** (`DirectoryListing`, `ImportWalk`). The explicit-stack walk over any directory graph, and the sandbox
  check on every path.
- **Leases** (`LeaseTable`, `LeaseBridge`). The lease table and its token index, over runs, late failures and restarts;
  `LeaseBridge` has the lease objects whose token field a rotation overwrites.
- **Governed automation** (`Automation`, `AutomationPlan`, `Versions`, `VersionTexts`). Single flight and the idempotency
  cache over interleavings of calls, one step per stretch between awaits; plan, revalidate, invoke; version texts and
  their order.
- **Read windows and path suggestions** (`Utf8`, `ReadWindow`, `EditDistance`, `PathSuggestions`).
- **API client** (`OfflineQueue`, `Retry`, `QueuedSends`, `ApiClient`). Queue conservation under overlapping flushes, the
  resend discipline within one call, and both together: how often a queued request is sent.
- **Command schemas** (`Schema`, `SchemaClosure`, `CommandSchemas`, `AcceptedCommands`). The recursive validator against
  the declarative meaning of its keywords, the seven shipped schemas, and the commands they accept in plain terms.

`Text` and `Bytes` hold what several of these share. Functions state what the code does, methods in the code's own
form are proved equal to them, and the lemmas listed below say what follows.

## What is false of the code

Each of these is kept as the code has it, with a lemma at a concrete run or input and the exact condition beside it.

- `init` over an empty vault and a live key leaves two keys when the import fails after the new key was saved
  (`AtRestRuns.FailingImportMixesKeys`) or the save is rejected although it took effect; so does a restore in the latter
  case (`AtRestRuns.LandedSaveMixesKeys`). Exactly then: `AtRestRuns.InitKeepsOneKeyExactly`,
  `AtRestRuns.RestoreKeepsOneKeyExactly`.
- Restoring the key a cipher holds but never imported reports success without making the cipher ready
  (`Recovery.RestoredButNotReady`; exactly then: `Recovery.CodeBringsFilesBack`).
- `applyUnifiedDiff` leaves one newline after deleting every line of a newline-terminated text, so the reversed patch
  does not apply (`UnifiedDiff.DeletingEveryLineSticks`; exactly: `UnifiedDiff.TextReversalOnInput`). It always refuses a
  printed diff of a text that ends in a newline or has a line ending in a carriage return, and no other
  (`DiffPrinter.PrintApplyRoundTrip`).
- A hunk with an empty old range at k inserts before line k and is refused at 0, where the POSIX `diff` utility ("Diff
  -u or -U Output Format") means behind line k (`PosixReading.InsertionIsMisread`, `PosixReading.InsertionGoesBefore`;
  exactly: `PosixReading.AgreesWithPosixExactly`). Hunk counts are ignored (`PosixReading.HeaderIgnoresCounts`).
- An import listing of exactly `limit` items is reported as truncated although nothing was left out
  (`DirectoryListing.FullFolderLooksTruncated`; exactly: `ImportWalk.ImportList`).
- A rotation whose save has no effect is undone by a restart (`LeaseTable.UnsavedRotationRevives`), a creation that
  failed can come back with it (`LeaseTable.FailedCreationComesBack`), and loading an envelope over a table in use can
  break lockstep (`LeaseTable.LoadOverRotationBreaksLockstep`). Exactly: `LeaseTable.RestartAcceptsLastSaved`,
  `LeaseTable.FailedCreationComesBackExactly`, `LeaseTable.LoadKeepsLockstep`.
- An execution that straddles `clearProcessState` breaks single flight
  (`Automation.StraddledClearBreaksSingleFlight`; exactly then: `Automation.ClearIsSafeExactly`).
- A run can be planned that is refused ever after, even when nothing changes: normalising a path argument a second time
  may change it (`AutomationPlan.SlashPlanNeverRevalidates`; exactly: `AutomationPlan.UnchangedPlanRevalidatesExactly`).
- Two listed files can have one printed path, when a name holds a backslash (`ImportWalk.BackslashCollides`; exactly:
  `ImportWalk.PrintedAlikeExactly`).
- Numeric identifiers with leading zeros break transitivity of the version order
  (`Versions.LeadingZeroBreaksTransitivity`; exactly then: `Versions.SafePivotIffCanonical`).
- What follows a dash inside a prerelease is dropped, where Semantic Versioning 2.0.0 (section 9) has dashes in
  identifiers (`VersionTexts.DashCutsOff`; exactly: `VersionTexts.DashIsLostExactly`).
- Paths that end in a slash have distance zero, whatever folders they name (`EditDistance.FoldersAreOnePlace`; exactly:
  `EditDistance.PathsApart`).
- The concatenated window texts lose a byte order mark at a window start (`ReadWindow.MarkIsDropped`; exactly then:
  `ReadWindow.WholeText`).
- Re-queueing overtakes later requests and exceeds the cap (`OfflineQueue.RequeueOvertakes`; exactly when:
  `OfflineQueue.RequeueKeepsOrderExactly`, `OfflineQueue.RequeueKeepsCapExactly`).
- A POST is documented as never re-sent when it may have run. Yet an answer that looks misrouted is taken as proof that
  it did not (`Retry.GatewayPageRepeatsAPost`; within one call exactly then: `Retry.PostRepeatsARunExactly`), and a
  queued one that failed after such a send, as without an answer, is put back when the client is offline by then, and
  sent by the next flush (`QueuedSends.LostPostIsSentAgain`). Over all runs exactly in these two cases:
  `QueuedSends.QueuedPostRepeatsExactly`, `QueuedSends.LaterCallWasPutBack`.
- `additionalProperties: false` is documented as closing a schema, but a field named like a member of
  `Object.prototype` is looked up there and passes unchecked (`CommandSchemas.InheritedNamePassesClosedSchema`;
  exactly: `CommandSchemas.ClosedUpToInheritedNames`).

## Model

| member | source | states |
|---|---|---|
| `AtRestRuns.StepKeepsOneKey` | packages/plugin/src/crypto/at-rest-cipher.ts:172-422 | Every operation and every outside accident (restart, deleted or damaged file, lost or torn envelope, changed fallback key), whichever calls fail and whether or not a rejected save took effect, keeps one key: live fields, envelope and readable files agree. Excluded are exactly the two cases below. |
| `AtRestRuns.RunKeepsOneKey` | packages/plugin/src/crypto/at-rest-cipher.ts:172-897 | The same over every run whose callers pass `unlockWithLak` the vault's key and in which neither `init` nor a restore stores a new key under a live one that it then does not replace. |
| `AtRestRuns.KeyContinuity` | packages/plugin/src/crypto/at-rest-cipher.ts:172-897 | After any such run a ready cipher decrypts every undamaged file to what was encrypted, and any envelope that unwraps yields that same key. |
| `AtRestRuns.InitKeepsOneKeyExactly` | packages/plugin/src/crypto/at-rest-cipher.ts:172-263 | `init` keeps one key if and only if it does not, over an empty vault and a live key, store a new key and then fail to import it, or have its save rejected although it took effect. |
| `AtRestRuns.FailingImportMixesKeys` | packages/plugin/src/crypto/at-rest-cipher.ts:217-259 | The excluded case is real: a run in which a failed import leaves old key and new envelope side by side, and the next file is written under the old key. |
| `AtRestRuns.InitWritesOnlyOnFirstRun` | packages/plugin/src/crypto/at-rest-cipher.ts:177-233 | With both ciphertext hooks, `init` changes the envelope exactly when none is there to read, no ciphertext exists and the wrap goes through; never over a present or unreadable one. |
| `AtRestRuns.InitRefusalKeepsLiveKey` | packages/plugin/src/crypto/at-rest-cipher.ts:177-189 | A refused `init` sets `needs-recovery` and leaves the live key alone, so readiness is a matter of `cryptoKey`, not of `status`. |
| `AtRestRuns.RestoreFrame` | packages/plugin/src/crypto/at-rest-cipher.ts:803-897 | A refused or throwing restore leaves live key, crypto key, status and method. A refusal leaves storage too; a throw changes the envelope only when its save tears it or takes effect, and the fallback key only when wrapping minted one. |
| `AtRestRuns.RestoreDecides` | packages/plugin/src/crypto/at-rest-cipher.ts:811-892 | Without faults a restore answers by the files alone: any file the candidate does not open is a mismatch, some opened file verifies, none asks for confirmation over a live key. |
| `AtRestRuns.RestoreKeepsOneKey` | packages/plugin/src/crypto/at-rest-cipher.ts:765-897 | Outside that case, whatever candidate is restored, it is adopted everywhere or nowhere. |
| `AtRestRuns.RestoreKeepsOneKeyExactly` | packages/plugin/src/crypto/at-rest-cipher.ts:803-897 | A restore keeps one key if and only if it does not, over an empty vault and another live key, pass its gates and have its save rejected although it took effect. |
| `AtRestRuns.LandedSaveMixesKeys` | packages/plugin/src/crypto/at-rest-cipher.ts:872-896 | Such a run: a confirmed restore throws, the old key stays live and the envelope holds the new one. |
| `AtRestRuns.UnvalidatedRestoreMixesKeys` | packages/plugin/src/crypto/at-rest-cipher.ts:811-856 | Without the listing hook a stranger's code is accepted as `unvalidated` and two keys result. |
| `AtRestRuns.RecoveryReadsEveryFile` | packages/plugin/src/crypto/at-rest-cipher.ts:765-897 | Restoring the key the files are under succeeds from any cipher and envelope, and every file decrypts again. |
| `AtRestRuns.RewrapKeepsKekInStep` | packages/plugin/src/crypto/at-rest-cipher.ts:679-701 | Re-wrapping keeps the stored fallback key and the envelope in step, except exactly when a key is minted over an unreadable one and the envelope is then not replaced. |
| `AtRestRuns.EnvelopeReopens` | packages/plugin/src/crypto/at-rest-cipher.ts:233-262 | A saved envelope the device can open makes a new cipher ready under the same key. |
| `AtRestRuns.ValidateMeaning` | packages/plugin/src/crypto/at-rest-cipher.ts:832-855 | The sampling loop answers "all open" only when every file opens under the candidate, and "mismatch" only when one does not. |
| `KeyCustody.PersistSucceedsExactly` | packages/plugin/src/crypto/at-rest-cipher.ts:416-422 | `persistWrappedLak` succeeds if and only if a key is live, it can be wrapped and the save works; then the envelope holds that key. A failure leaves the envelope, or what its save tore or landed. |
| `KeyCustody.PersistedKeyComesBack` | packages/plugin/src/crypto/at-rest-cipher.ts:416-422 | After it succeeded, a new start on the same device is ready under the key that was live, and every file under it decrypts. |
| `KeyCustody.WrapsExactly` | packages/plugin/src/crypto/at-rest-cipher.ts:511-553 | A key can be wrapped exactly when the keychain seals or a fallback key can be had; the envelope holds the key, and the stored fallback key opens a fallback envelope. |
| `KeyCustody.InitReadyExactly` | packages/plugin/src/crypto/at-rest-cipher.ts:172-263 | `init` is ready if and only if the envelope it sees reopens, or it may mint and can wrap and save, and the key imports; live key, envelope, status and tier then agree. |
| `KeyCustody.InitRefusesBecause` | packages/plugin/src/crypto/at-rest-cipher.ts:172-263 | It asks for recovery if and only if one of four things was found, and the reason says which. |
| `KeyCustody.ReopeningHeals` | packages/plugin/src/crypto/at-rest-cipher.ts:555-647 | After a start that reopened, the stored fallback key opens the stored envelope, when it could be stored. |
| `KeyCustody.RestoreSucceedsExactly` | packages/plugin/src/crypto/at-rest-cipher.ts:803-897 | A restore succeeds if and only if its candidate is the live key or passes the gates, and can be wrapped and saved; what it then says, holds and has stored. |
| `KeyCustody.UnlockSucceedsExactly` | packages/plugin/src/crypto/at-rest-cipher.ts:369-397 | `unlockWithLak` succeeds if and only if it gets 32 bytes that import; then exactly the files under them open. What a refusal leaves. |
| `KeyCustody.LockedOut` | packages/plugin/src/crypto/at-rest-cipher.ts:293-318 | A cipher that was locked or sent to recovery reads and writes nothing, and says how it is locked. |
| `KeyCustody.EncryptsExactly` | packages/plugin/src/crypto/at-rest-cipher.ts:463-501 | A ready cipher encrypts, and exactly the ready ciphers under the same key read what it wrote. |
| `KeyCustody.ResetSucceedsExactly` | packages/plugin/src/crypto/at-rest-cipher.ts:325-334 | `reset` succeeds if and only if its clearings do; then envelope and fallback key are gone, and the live key either way. |
| `KeyCustody.ClearedExactly` | packages/plugin/src/crypto/at-rest-cipher.ts:406-408 | Clearing the persisted wrap removes the envelope and nothing else, or changes nothing. |
| `KeyCustody.NothingToReopen` | packages/plugin/src/crypto/at-rest-cipher.ts:172-233 | Without an envelope no start brings the old key back: over files it asks for recovery, over none it takes a fresh key. |
| `Recovery.CodeBringsFilesBack` | packages/plugin/src/crypto/at-rest-cipher.ts:720-897 | Recovery theorem: a code exported while a key is live, after any run and any retyping, reads back as that key; restoring it succeeds and every file decrypts; ready unless the cipher held the key without an imported crypto key. |
| `Recovery.RestoredButNotReady` | packages/plugin/src/crypto/at-rest-cipher.ts:799-809 | A key adopted by an `unlockWithLak` whose import failed, and restored by its own code: success, status unlocked, and not ready. |
| `AtRestClass.AtRestCipher.Init` | packages/plugin/src/crypto/at-rest-cipher.ts:172-263 | The method on fields, key array and storage computes the specified outcome and state; discarded arrays are zero unless a live array is replaced. |
| `AtRestClass.AtRestCipher.UnwrapLak` | packages/plugin/src/crypto/at-rest-cipher.ts:555-647 | Whichever fallback candidate unwraps, or none, every candidate array is zeroed. |
| `AtRestClass.AtRestCipher.WrapLak` | packages/plugin/src/crypto/at-rest-cipher.ts:511-553 | The envelope and the possibly minted fallback key are as specified, and every key array drawn on the way is zeroed. |
| `AtRestClass.AtRestCipher.Lock` | packages/plugin/src/crypto/at-rest-cipher.ts:307-318 | The key array is zeroed in place and dropped. |
| `AtRestClass.AtRestCipher.Reset` | packages/plugin/src/crypto/at-rest-cipher.ts:325-334 | Lock, then clear envelope and fallback key, stopping at the first failure; the key array is zeroed either way. |
| `AtRestClass.AtRestCipher.ExportLakBytes` | packages/plugin/src/crypto/at-rest-cipher.ts:350-360 | The caller gets a fresh array equal to, and never aliasing, the live one. |
| `AtRestClass.AtRestCipher.UnlockWithLak` | packages/plugin/src/crypto/at-rest-cipher.ts:369-397 | A copy is adopted, never the caller's array; a replaced array is zeroed; only the length is checked. |
| `AtRestClass.AtRestCipher.PersistWrappedLak` | packages/plugin/src/crypto/at-rest-cipher.ts:416-422 | Re-wraps the live key; a failed save may still have minted a fallback key, as specified. |
| `AtRestClass.AtRestCipher.ClearPersistedWrap` | packages/plugin/src/crypto/at-rest-cipher.ts:406-408 | Clears the envelope or, when storage fails, changes nothing. |
| `AtRestClass.AtRestCipher.EncryptBytes` | packages/plugin/src/crypto/at-rest-cipher.ts:463-483 | Refused exactly when not ready; what a ready cipher writes gives the data back to every cipher under the same key and to no other. |
| `AtRestClass.AtRestCipher.DecryptBytes` | packages/plugin/src/crypto/at-rest-cipher.ts:485-501 | A file is read as some data exactly when it is what this cipher writes for that data. |
| `AtRestClass.AtRestCipher.ValidateSamples` | packages/plugin/src/crypto/at-rest-cipher.ts:832-855 | The loop over samples returns the specified verdict, stopping at the first mismatch or enumeration error. |
| `AtRestClass.AtRestCipher.RestoreFromRecoveryCode` | packages/plugin/src/crypto/at-rest-cipher.ts:765-897 | Ties code, storage and key arrays together: candidate adopted or zeroed, replaced array zeroed, refused restore keeps the very same array and bytes. |
| `AtRestClass.AtRestCipher.ExportRecoveryCode` | packages/plugin/src/crypto/at-rest-cipher.ts:720-731 | The code of the live key, or an error when locked. |
| `RecoveryCode.ReadCode` | packages/plugin/src/crypto/at-rest-cipher.ts:720-792 | An exported code reads back as the exported key. |
| `RecoveryCode.RetypedCode` | packages/plugin/src/crypto/at-rest-cipher.ts:765-792 | So does any text obtained by changing letter case, adding or dropping white space, and adding or dropping dashes behind the prefix. |
| `RecoveryCode.SlipReadsTheSame` | packages/plugin/src/crypto/at-rest-cipher.ts:769-777 | One slip never changes what any text, valid or not, is read as. |
| `RecoveryCode.ReadExactly` | packages/plugin/src/crypto/at-rest-cipher.ts:765-792 | A text is read as a key if and only if it is that key's code, retyped: a wrong prefix, length, digit or checksum is always refused. |
| `RecoveryCode.UnhexHex` | packages/plugin/src/crypto/at-rest-cipher.ts:971-985 | Upper-cased hexadecimal digits read back as the bytes. |
| `RecoveryCode.BytesToHex` | packages/plugin/src/crypto/at-rest-cipher.ts:971-977 | The loop yields two digits a byte, in order. |
| `RecoveryCode.HexToBytes` | packages/plugin/src/crypto/at-rest-cipher.ts:979-985 | The loop yields one byte for two digits, in order. |
| `RecoveryCode.GroupBy` | packages/plugin/src/crypto/at-rest-cipher.ts:987-991 | The loop cuts the text into groups of `n`. |
| `PinLock.RateBound` | packages/plugin/src/crypto/pin-lock-manager.ts:211-296 | From any state, over guesses and restarts, whichever storage calls fail and whether or not a rejected one took effect, wrong guesses evaluated and stored within T ms number at most 4 + T/30000, answered or not; every answered one is among them. |
| `PinLock.RateBoundIsMet` | packages/plugin/src/crypto/pin-lock-manager.ts:280-296 | The bound is attained for every T. |
| `PinLock.WrongGuessCounts` | packages/plugin/src/crypto/pin-lock-manager.ts:249-296 | Outside the window, without a readable envelope or with a derived key unlike the envelope's: one failure more, the lock its count calls for, stored unless the save rejects without effect, and answered when it works. |
| `PinLock.RightGuessUnlocks` | packages/plugin/src/crypto/pin-lock-manager.ts:254-257 | The right secret clears the counter, stored likewise, and returns the key when the save works. |
| `PinLock.OtherAttemptsDoNotCount` | packages/plugin/src/crypto/pin-lock-manager.ts:211-258 | Any other attempt leaves counter and envelope; it is denied exactly inside the window and throws otherwise. |
| `PinLock.UnsavedAttemptTellsNothing` | packages/plugin/src/crypto/pin-lock-manager.ts:211-296 | An attempt whose counter was not saved throws, right secret or wrong. |
| `PinLock.PepperIsKept` | packages/plugin/src/crypto/pin-lock-manager.ts:211-258 | No attempt replaces a stored pepper; one that is minted is stored unless that rejects without effect. |
| `PinLock.EnrollsExactly` | packages/plugin/src/crypto/pin-lock-manager.ts:170-201 | Enrolling succeeds if and only if the secret has six characters and storage works; then the secret holds the key and the counter is clear. |
| `PinLock.RefusalChangesNothing` | packages/plugin/src/crypto/pin-lock-manager.ts:211-222 | An attempt inside the window changes nothing and reports the standing counter, right secret or not. |
| `PinLock.EnrolledSecretUnlocks` | packages/plugin/src/crypto/pin-lock-manager.ts:170-258 | After enrolment and any attempts and restarts, outside the window a secret returns the enrolled key exactly when it derives the enrolled secret's key. |
| `PinLock.PinLockManager.Unlock` | packages/plugin/src/crypto/pin-lock-manager.ts:211-258 | State, stored state and answer are as specified on every path. |
| `PinLock.PinLockManager.RegisterFailure` | packages/plugin/src/crypto/pin-lock-manager.ts:280-296 | Counter, lockout time and reason, persisted before they are answered. |
| `PinLock.PinLockManager.Enroll` | packages/plugin/src/crypto/pin-lock-manager.ts:170-201 | Envelope, pepper and cleared counter, or the partial writes of a failure. |
| `PinLock.PinLockManager.Disable` | packages/plugin/src/crypto/pin-lock-manager.ts:266-271 | The first clearing that rejects stops the rest. |
| `UnifiedDiff.PatchMeaning` | packages/plugin/src/plugin/agent-bridge.ts:7301-7343 | Patch theorem: hunks apply exactly when the original is gaps woven with the hunks' old lines at the announced positions; the result is the same gaps woven with their new lines. |
| `UnifiedDiff.BackToFront` | packages/plugin/src/plugin/agent-bridge.ts:7301-7343 | Applying the hunks one by one from last to first gives the same result. |
| `UnifiedDiff.ReverseUndoes` | packages/plugin/src/plugin/agent-bridge.ts:7301-7343 | The reversed hunks (signs swapped, starts shifted by earlier growth) take the result back to the original lines. |
| `UnifiedDiff.TextReversal` | packages/plugin/src/plugin/agent-bridge.ts:7301-7343 | On texts, reversal undoes the patch if and only if the patched lines can be shown as a text with that final newline; deleting every line is the case that fails. |
| `UnifiedDiff.TextReversalOnInput` | packages/plugin/src/plugin/agent-bridge.ts:7301-7343 | The same on the input: lines plus growth of the hunks are more than none, and without a final newline the last line left is not empty, or is the only one. |
| `UnifiedDiff.DeletingEveryLineSticks` | packages/plugin/src/plugin/agent-bridge.ts:7342-7343 | The patch `-a` on the text `a` with a final newline leaves one newline, and the reversed patch does not lead back. |
| `UnifiedDiff.ToFromLines` | packages/plugin/src/plugin/agent-bridge.ts:7301-7343 | Setting the final newline aside and putting it back loses nothing on representable lines. |
| `UnifiedDiff.ReadHunks` | packages/plugin/src/plugin/agent-bridge.ts:7267-7295 | The parsing loop, with its cursor moved by hand, reads the hunks the header and body rules define; counts are ignored. |
| `UnifiedDiff.RunBody` | packages/plugin/src/plugin/agent-bridge.ts:7317-7350 | One hunk body, line by line: context, removal, addition, bare empty line, or an error. |
| `UnifiedDiff.RunHunks` | packages/plugin/src/plugin/agent-bridge.ts:7301-7343 | The loop over cursor and result array computes the specified application. |
| `UnifiedDiff.ApplyUnifiedDiff` | packages/plugin/src/plugin/agent-bridge.ts:7266-7344 | The whole function on texts; it succeeds exactly when there is a hunk and the hunks fit. |
| `PatchText.ReadsEveryHunk` | packages/plugin/src/plugin/agent-bridge.ts:7266-7295 | Of a text that is a preamble and sections, any number of them, exactly one hunk a section is read, in order, with all its lines but the no-newline marks and a final empty line. |
| `PatchText.EveryTextIsADiff` | packages/plugin/src/plugin/agent-bridge.ts:7266-7295 | Every text is such a preamble and sections. |
| `PatchText.AppliesEveryHunk` | packages/plugin/src/plugin/agent-bridge.ts:7266-7344 | So applying the text of a diff applies the hunks of all its sections; it is refused for want of hunks exactly when there is no section. |
| `PatchText.LinesOfText` | packages/plugin/src/plugin/agent-bridge.ts:7267 | Lines ended by LF or CR LF, in any mixture, are the lines that are read. |
| `PosixReading.AgreesWithPosixExactly` | packages/plugin/src/plugin/agent-bridge.ts:7308-7343 | On every patch that applies as the POSIX `diff` utility defines positions, the engine gives that result if and only if each hunk with an empty old range names a line behind the hunks before it and adds only copies of that line. |
| `PosixReading.InsertionGoesBefore` | packages/plugin/src/plugin/agent-bridge.ts:7308-7343 | A pure insertion at k goes before line k, and is refused at 0, where POSIX puts it behind line k. |
| `PosixReading.InsertionIsMisread` | packages/plugin/src/plugin/agent-bridge.ts:7308-7343 | Adding `b` behind the only line of `a` gives `b`, `a`; adding it to no lines is refused. |
| `PosixReading.HeaderIgnoresCounts` | packages/plugin/src/plugin/agent-bridge.ts:7267-7295 | A hunk header gives the same start whatever counts it has and whatever it says of the new file. |
| `PosixReading.HeaderExactly` | packages/plugin/src/plugin/agent-bridge.ts:7275-7277 | A line is a hunk header if and only if it is two ranges, each with or without a count, between the marks; its start is the first number. |
| `DiffPrinter.PrintedHunks` | packages/plugin/src/plugin/agent-bridge.ts:4237-4254 | A printed whole-file diff parses back to one hunk at line 1 trading all old lines for all new ones, each side normalised once more. |
| `DiffPrinter.PrintApplyRoundTrip` | packages/plugin/src/plugin/agent-bridge.ts:4237-4254 | Over all texts: applying the printed diff to `before` gives `after` with its line ends normalised twice, unless `before` ends in a newline or has a line ending in a carriage return: then it always refuses. |
| `DiffPrinter.NothingToNormalize` | packages/plugin/src/plugin/agent-bridge.ts:4245-4246 | On texts without carriage returns that is `after` itself. |
| `ImportWalk.InsideRootIsBelowRoot` | packages/plugin/src/plugin/agent-bridge.ts:5379-5405 | The textual escape test admits, on canonical paths, exactly the root and what lies below it, except below a first segment that looks like an exit. |
| `ImportWalk.CandidateIsBelowRoot` | packages/plugin/src/plugin/agent-bridge.ts:5355-5373 | A request whose text is accepted names a path below the root already before links are followed. |
| `ImportWalk.ListedInside` | packages/plugin/src/plugin/agent-bridge.ts:5213-5240 | Whatever links and cycles there are, everything listed is below the root by its canonical path. |
| `ImportWalk.ChildrenExactly` | packages/plugin/src/plugin/agent-bridge.ts:5204-5240 | The children of a folder are exactly its entries that are files or folders, do not begin with a dot and have no name to skip, whose canonical path is below the root and does not look like an exit. |
| `ImportWalk.StartExactly` | packages/plugin/src/plugin/agent-bridge.ts:5355-5405 | A request is accepted if and only if its text stays relative and its canonical path is below the root. |
| `ImportWalk.PlainRequest` | packages/plugin/src/plugin/agent-bridge.ts:5355-5373 | Plain segments joined by slashes name the path of those segments. |
| `ImportWalk.NoLinksIsTree` | packages/plugin/src/plugin/agent-bridge.ts:5204-5240 | Without links below the root, what can be reached there is a tree. |
| `ImportWalk.ImportList` | packages/plugin/src/plugin/agent-bridge.ts:5167-5252 | At most `limit` entries; they are the first `limit` of the recursive listing; `truncated` exactly when there are `limit`; everything listed is an entry of a reachable folder, shown with its path, type, size and kind, and without truncation every such entry is listed; all inside the root; and without links below the root each path once. |
| `ImportWalk.PrintedAlikeExactly` | packages/plugin/src/plugin/agent-bridge.ts:5407-5411 | Two paths below the root are printed alike if and only if their names, cut at every backslash, are the same sequence. |
| `ImportWalk.BackslashCollides` | packages/plugin/src/plugin/agent-bridge.ts:5407-5411 | Such as the file `a\b` and the file `b` in the folder `a`. |
| `ImportWalk.PrintedPathsDiffer` | packages/plugin/src/plugin/agent-bridge.ts:5407-5411 | So distinct paths are printed differently as long as no name has a backslash. |
| `DirectoryListing.Walk` | packages/plugin/src/plugin/agent-bridge.ts:5190-5250 | The explicit-stack loop ends on every directory graph, cycles included, and yields the first `limit` items of "children, then each subfolder in order". |
| `DirectoryListing.Scan` | packages/plugin/src/plugin/agent-bridge.ts:5194-5246 | One folder: its kept children are appended until the limit, its subfolders collected in order. |
| `DirectoryListing.ShortListingIsWhole` | packages/plugin/src/plugin/agent-bridge.ts:5190-5250 | A listing shorter than the limit is complete to every depth; a longer one has the same first `limit` items at every depth. |
| `DirectoryListing.ListsWhatIsReached` | packages/plugin/src/plugin/agent-bridge.ts:5190-5250 | The listing holds exactly the children of folders reachable within its depth. |
| `DirectoryListing.TreeListedOnce` | packages/plugin/src/plugin/agent-bridge.ts:5190-5250 | On a tree every path is listed once, strictly below the start. |
| `DirectoryListing.FullFolderLooksTruncated` | packages/plugin/src/plugin/agent-bridge.ts:5241-5244 | A folder of exactly `limit` files is listed whole and flagged as truncated. |
| `LeaseTable.RunKeepsInv` | packages/plugin/src/plugin/agent-bridge.ts:2325-2476 | Over every sequence of create, late save failure, revoke, revoke-all, rotate, prune and session end, index and leases stay in lockstep and retired tokens stay out of the index. |
| `LeaseTable.ResolvesToItsLease` | packages/plugin/src/plugin/agent-bridge.ts:6875-6893 | In lockstep a bearer token resolves to exactly the unexpired lease that carries it now, local leases only over MCP. |
| `LeaseTable.ChangesWhoResolves` | packages/plugin/src/plugin/agent-bridge.ts:2325-2648 | For every token: a creation adds its lease, a revocation or failed creation takes one token away, revoking all and a session end take every one, pruning none that is unexpired, and nothing else changes. |
| `LeaseTable.RotationSwitches` | packages/plugin/src/plugin/agent-bridge.ts:2626-2648 | A rotation: the old token stops working, the new one gives the same lease, every other works as before. |
| `LeaseTable.RetiredTokensResolveToNothing` | packages/plugin/src/plugin/agent-bridge.ts:2578-2648 | A token that left the index by rotation, revocation, expiry or failure resolves to nothing for the rest of the process, whichever saves fail. |
| `LeaseTable.LoadKeepsLockstep` | packages/plugin/src/plugin/agent-bridge.ts:1948-1999 | Loading over a table in use keeps lockstep if and only if every lease it takes over with another token also loses its old token to another lease. |
| `LeaseTable.LoadOverRotationBreaksLockstep` | packages/plugin/src/plugin/agent-bridge.ts:1948-1999 | A record loaded over its own lease after a rotation: both tokens then find the lease. |
| `LeaseTable.PersistThenLoad` | packages/plugin/src/plugin/agent-bridge.ts:2650-2674 | Any listing of the persistent leases, loaded into an empty table for a user and vault, restores exactly their persistent leases, each with its token and terms but for powers, deadline and local mode. |
| `LeaseTable.RestartAcceptsLastSaved` | packages/plugin/src/plugin/agent-bridge.ts:1910-2022 | After any run, whichever saves had an effect and whichever creations failed, a new process accepts a token exactly when it was held for a persistent lease of its user and vault at the last save that had an effect, and for that same lease. |
| `LeaseTable.StaysInStepExactly` | packages/plugin/src/plugin/agent-bridge.ts:2440-2641 | Step by step, an envelope in step with the table stays so if and only if the step does not change the persistent leases or their tokens without storing that. |
| `LeaseTable.TokensSurviveRestart` | packages/plugin/src/plugin/agent-bridge.ts:1910-2022 | While no step does so, from a table in step or from any save that took effect, a new process accepts exactly the tokens the old one holds for persistent leases of its user and vault. |
| `LeaseTable.UnsavedRotationRevives` | packages/plugin/src/plugin/agent-bridge.ts:2626-2641 | In every world in step, a rotation whose save has no effect: the old token is refused now and accepted after a restart, for the same lease, and the new one is not. |
| `LeaseTable.FailedCreationComesBack` | packages/plugin/src/plugin/agent-bridge.ts:2440-2447 | A creation whose save failed is stored by the save of another, dropped by its failure handler, refused now, and accepted after a restart. |
| `LeaseTable.FailedCreationComesBackExactly` | packages/plugin/src/plugin/agent-bridge.ts:2440-2447 | After a creation was dropped by its failure handler, its token is accepted after a restart if and only if the last save that had an effect held it. |
| `LeaseTable.MintedLeasesAreBounded` | packages/plugin/src/plugin/agent-bridge.ts:2325-2433 | Every minted lease is bounded in time or by login; persistent leases never have write mode `allow`; automation needs an interactive, session-bound, non-persistent lease. |
| `LeaseTable.MintsExactly` | packages/plugin/src/plugin/agent-bridge.ts:2325-2370 | A lease is minted if and only if someone is logged in, the folder is bound or the lease local, the scopes are accepted, and no rule on persistent or local leases is broken. |
| `LeaseTable.MintsWhatWasAsked` | packages/plugin/src/plugin/agent-bridge.ts:2372-2433 | It has the scopes, rights, powers and limits asked for, automation only where it may be, and the deadline its kind calls for. |
| `LeaseBridge.AgentBridge.CreateLease` | packages/plugin/src/plugin/agent-bridge.ts:2325-2476 | A refused creation changes nothing; a lease is put under fresh id and token, and saved if persistent. |
| `LeaseBridge.AgentBridge.CreationNotSaved` | packages/plugin/src/plugin/agent-bridge.ts:2440-2447 | The late failure handler deletes by the object's id and by the token it has by then. |
| `LeaseBridge.AgentBridge.RevokeLease` | packages/plugin/src/plugin/agent-bridge.ts:2578-2597 | Lease and current token leave the table together; the envelope is rewritten for a persistent one. |
| `LeaseBridge.AgentBridge.RevokeAllLeases` | packages/plugin/src/plugin/agent-bridge.ts:2599-2618 | Both maps are emptied; the envelope is rewritten if a persistent lease was among them. |
| `LeaseBridge.AgentBridge.PruneExpiredLeases` | packages/plugin/src/plugin/agent-bridge.ts:5701-5709 | The loop removes exactly the leases whose expiry has come, with their tokens, and keeps the other objects. |
| `LeaseBridge.AgentBridge.RequireLease` | packages/plugin/src/plugin/agent-bridge.ts:5685-5699 | Prunes first; refuses a missing lease, a missing login, an unbound folder or another user's session lease. |
| `LeaseBridge.AgentBridge.RotateLeaseToken` | packages/plugin/src/plugin/agent-bridge.ts:2626-2648 | Succeeds exactly for a usable lease; the same object then has the new token, exchanged for the old in the index at once. |
| `LeaseBridge.AgentBridge.PersistLeases` | packages/plugin/src/plugin/agent-bridge.ts:2650-2674 | The saved envelope lists each persistent lease once, or is deleted when there is none. |
| `LeaseBridge.AgentBridge.LoadPersistedLeases` | packages/plugin/src/plugin/agent-bridge.ts:1910-2022 | Once per session: the matching records enter the table, the others are counted as dropped and written away. |
| `LeaseBridge.AgentBridge.ResolveLeaseFromBearer` | packages/plugin/src/plugin/agent-bridge.ts:6875-6893 | Prune, look up token, look up lease. |
| `LeaseBridge.AgentBridge.EndSession` | packages/plugin/src/plugin/agent-bridge.ts:2032-2055 | Everything is dropped and the next load is allowed again. |
| `Automation.RunKeepsInv` | packages/plugin/src/plugin/agent-automation-registry.ts:1143-1197 | Single flight, cache soundness and receipt soundness over every interleaving in which no keyed execution straddles a clear. |
| `Automation.AtMostOneExecutionPerKey` | packages/plugin/src/plugin/agent-automation-registry.ts:1143-1192 | At most one execution per alias-and-key is active. |
| `Automation.StartsIffFree` | packages/plugin/src/plugin/agent-automation-registry.ts:1147-1182 | A keyed call starts an execution exactly when its key is uncached and no execution of it is active. |
| `Automation.CachedKeyReplays` | packages/plugin/src/plugin/agent-automation-registry.ts:1147-1157 | For a cached key the same request gets the verified receipt with `invoked` false, a different one is refused, and nothing starts. |
| `Automation.JoinersShareOneExecution` | packages/plugin/src/plugin/agent-automation-registry.ts:1158-1167 | A joining call waits for an active execution of the same key and request. |
| `Automation.JoinersGetTheReceipt` | packages/plugin/src/plugin/agent-automation-registry.ts:1158-1167 | What joiners get is fixed when the execution settles: its receipt as an uninvoked replay, or its failure. |
| `Automation.InvokeOnlyUncached` | packages/plugin/src/plugin/agent-automation-registry.ts:1238-1252 | The runtime is invoked only for a key without a cached receipt. |
| `Automation.ReceiptIsKept` | packages/plugin/src/plugin/agent-automation-registry.ts:1375-1390 | A remembered receipt stays, unchanged, until 128 newer ones have been remembered. |
| `Automation.NotInvokedAgain` | packages/plugin/src/plugin/agent-automation-registry.ts:1143-1192 | Until then the runtime is not invoked for its key again. |
| `Automation.VerifiedIsCached` | packages/plugin/src/plugin/agent-automation-registry.ts:1183-1192 | A keyed execution that settled with a verified receipt leaves it as the newest entry, under its key and request; the same request is answered with it uninvoked, another is refused. |
| `Automation.OnlyVerifiedIsCached` | packages/plugin/src/plugin/agent-automation-registry.ts:1183-1192 | A failure, an unverified receipt and a keyless execution leave the cache as it is. |
| `Automation.VerifiedRunsOnce` | packages/plugin/src/plugin/agent-automation-registry.ts:1143-1192 | After it, and until 128 newer verified receipts or a clear, the runtime is not called for that key, and the request is answered with that receipt. |
| `Automation.ReceiptsTellTheTruth` | packages/plugin/src/plugin/agent-automation-registry.ts:1238-1275 | In every run, clears or not, a receipt that says it was invoked is of an execution for which the runtime was called, exactly once. |
| `Automation.VerifiedIsReachable` | packages/plugin/src/plugin/agent-automation-registry.ts:1238-1275 | A started execution can come to a verified receipt: invoked, polled, settled and finished. |
| `Automation.RememberReplaces` | packages/plugin/src/plugin/agent-automation-registry.ts:1375-1390 | Remembering over an older entry of the key replaces it at the end. |
| `Automation.ActiveKeyIsJoined` | packages/plugin/src/plugin/agent-automation-registry.ts:1158-1167 | An uncached key with an active execution: the same request joins it, another is refused. |
| `Automation.CallStartsOne` | packages/plugin/src/plugin/agent-automation-registry.ts:1174-1182 | A call that starts begins one execution of its plan before its runtime call; no other call changes anything. |
| `Automation.KeylessStartsIffUnused` | packages/plugin/src/plugin/agent-automation-registry.ts:1168-1174 | A keyless call starts if and only if its plan object was never executed, with or without clears. |
| `Automation.OldestIsEvicted` | packages/plugin/src/plugin/agent-automation-registry.ts:1375-1390 | The 128th newer receipt evicts it, first in, first out. |
| `Automation.KeylessPlanRunsOnce` | packages/plugin/src/plugin/agent-automation-registry.ts:1168-1174 | A keyless plan object reaches execution, and the runtime, at most once, even across clears. |
| `Automation.StraddledClearBreaksSingleFlight` | packages/plugin/src/plugin/agent-automation-registry.ts:1183-1197 | A concrete run: an execution that straddles a clear deletes its successor's in-flight record, and two executions of one key run together. |
| `Automation.ClearExact` | packages/plugin/src/plugin/agent-automation-registry.ts:1194-1197 | A clear keeps the invariant if and only if no keyed execution straddles it. |
| `Automation.ClearIsSafeExactly` | packages/plugin/src/plugin/agent-automation-registry.ts:1194-1197 | From any reachable state, whatever runs follow a clear keep single flight if and only if no keyed execution straddles it. |
| `Automation.StraddledClearDoubles` | packages/plugin/src/plugin/agent-automation-registry.ts:1194-1197 | In every state in which one does, the next call with its key starts a second execution beside it. |
| `Automation.AgentAutomationRegistry.BeginExecute` | packages/plugin/src/plugin/agent-automation-registry.ts:1143-1182 | `executePlan` up to its first await on the registry's maps. |
| `Automation.AgentAutomationRegistry.FinishExecute` | packages/plugin/src/plugin/agent-automation-registry.ts:1183-1192 | Remembering the receipt, and the unconditional delete in `finally`. |
| `Automation.AgentAutomationRegistry.RememberIdempotent` | packages/plugin/src/plugin/agent-automation-registry.ts:1375-1390 | Re-inserting at the end and evicting from the front past 128 entries. |
| `Automation.AgentAutomationRegistry.ClearProcessState` | packages/plugin/src/plugin/agent-automation-registry.ts:1194-1197 | Both maps are emptied, executions keep running. |
| `AutomationPlan.NoStaleInvocation` | packages/plugin/src/plugin/agent-automation-registry.ts:950-1136 | With settings, commands and active file changing at will, at the step that calls the runtime policy entry, revision, active path and command are the plan's own and current; the one target is the active path; the watched path is absent or that path. Holds for any path normaliser. |
| `AutomationPlan.PlansExactly` | packages/plugin/src/plugin/agent-automation-registry.ts:950-1054 | A request is planned for an entry at an active path if and only if the world offers the entry and an eligible command, revision, key and arguments fit, every path given is the active one, and the watched path resolves and is approved. |
| `AutomationPlan.PlanCarriesRequest` | packages/plugin/src/plugin/agent-automation-registry.ts:950-1054 | The plan carries the alias, revision and key of the request, its arguments with paths as the active path, one fingerprint of them, and as targets the active path and the watched one. |
| `AutomationPlan.InvokedCommandIsApproved` | packages/plugin/src/plugin/agent-automation-registry.ts:793-849 | What the runtime is called with is the policy's command, not forbidden, of the core or of the policy's enabled plugin in an accepted version. |
| `AutomationPlan.EligibleExactly` | packages/plugin/src/plugin/agent-automation-registry.ts:793-832 | And every such command is eligible. |
| `AutomationPlan.RefusalSays` | packages/plugin/src/plugin/agent-automation-registry.ts:793-985 | Which refusals are called denied, unavailable or stale. |
| `AutomationPlan.RevalidatedIsCurrent` | packages/plugin/src/plugin/agent-automation-registry.ts:1060-1136 | A revalidated plan is current in the world it was checked in. |
| `AutomationPlan.ChangesAreRefused` | packages/plugin/src/plugin/agent-automation-registry.ts:1060-1136 | Any disabled, missing or changed entry, ineligible command or other active file refuses the plan. |
| `AutomationPlan.OnlyTarget` | packages/plugin/src/plugin/agent-automation-registry.ts:851-884 | When every supplied path is the active path, the target list is that one path. |
| `AutomationPlan.InvokesExactly` | packages/plugin/src/plugin/agent-automation-registry.ts:1060-1252 | A planned run reaches the runtime, through whatever changes of settings, commands and active file, if and only if both revalidations find its entry, an eligible command and its active file unchanged, and each given path argument is accepted again and is its own normal form. |
| `AutomationPlan.SettledRevalidatesExactly` | packages/plugin/src/plugin/agent-automation-registry.ts:1060-1136 | The same for one revalidation, and what comes out is the plan with the current command. |
| `AutomationPlan.UnchangedPlanRevalidatesExactly` | packages/plugin/src/plugin/agent-automation-registry.ts:1060-1136 | In the world it was made in, a plan revalidates to itself if and only if its given path arguments are accepted again and are their own normal forms. |
| `AutomationPlan.SlashPlanNeverRevalidates` | packages/plugin/src/plugin/agent-automation-registry.ts:1060-1136 | An input where they are not: the active file `/ a`, whose normal form begins with a space. The run is planned and then refused in the same world. |
| `AutomationPlan.PathArgumentsNeedFixedPoint` | packages/plugin/src/plugin/agent-automation-registry.ts:1060-1136 | So any plan with a path argument is refused when its active path is not a fixed point of the normaliser. |
| `AutomationPlan.AcceptedArguments` | packages/plugin/src/plugin/agent-automation-registry.ts:729-791 | Arguments are accepted exactly when each has a definition and every definition admits them; exactly the supplied names come out, paths in normal form, the rest unchanged. |
| `Versions.SignsMirror` | packages/plugin/src/plugin/agent-automation-registry.ts:641-666 | The comparison is sign-antisymmetric on all versions. |
| `Versions.ZeroMeansEqual` | packages/plugin/src/plugin/agent-automation-registry.ts:641-666 | On canonical versions it is zero only for equal versions. |
| `Versions.Transitive` | packages/plugin/src/plugin/agent-automation-registry.ts:641-666 | On canonical versions it is transitive (section 11 of Semantic Versioning 2.0.0). |
| `Versions.SafePivotIffCanonical` | packages/plugin/src/plugin/agent-automation-registry.ts:641-666 | Comparisons through a version are transitive if and only if its numeric identifiers have no leading zeros. |
| `Versions.RangesAreConvex` | packages/plugin/src/plugin/agent-automation-registry.ts:668-684 | What lies between two accepted canonical versions is accepted. |
| `Versions.LeadingZeroBreaksTransitivity` | packages/plugin/src/plugin/agent-automation-registry.ts:652-664 | `1-1.3`, `1-01.5`, `1-1.5`: the early return of zero breaks transitivity. |
| `Versions.CompareAutomationVersions` | packages/plugin/src/plugin/agent-automation-registry.ts:641-666 | The loops over numeric parts and identifiers compute the specified order, nothing on unparsable input. |
| `VersionTexts.ReadsExactly` | packages/plugin/src/plugin/agent-automation-registry.ts:628-639 | Exactly the texts of one to four numbers, with white space around, maybe a `v` before and a prerelease behind, are read as versions, missing numbers as zero and identifiers up to an inner dash. |
| `VersionTexts.DashCutsOff` | packages/plugin/src/plugin/agent-automation-registry.ts:631 | What follows a dash inside a prerelease does not count. |
| `VersionTexts.DashIsLostExactly` | packages/plugin/src/plugin/agent-automation-registry.ts:631 | The identifiers are those of the whole prerelease if and only if it has no dash. |
| `VersionTexts.LongerComesLater` | packages/plugin/src/plugin/agent-automation-registry.ts:653-656 | Identifiers that go on where the others end come later. |
| `VersionTexts.RangeEnds` | packages/plugin/src/plugin/agent-automation-registry.ts:668-684 | A range takes in its minimum and leaves out its maximum; without bounds it takes in everything, with bounds nothing unnamed. |
| `EditDistance.BoundedLevenshtein` | packages/plugin/src/plugin/agent-read-window.ts:352-368 | The one-row in-place loop computes the recursive edit distance. |
| `EditDistance.DistanceIsShortestScript` | packages/plugin/src/plugin/agent-read-window.ts:352-368 | The distance is the length of a shortest edit script: some script is that short, none is shorter. |
| `EditDistance.Triangle` | packages/plugin/src/plugin/agent-read-window.ts:352-368 | Triangle inequality of the edit distance. |
| `EditDistance.PathPseudometric` | packages/plugin/src/plugin/agent-read-window.ts:345-350 | `pathDistance` is a pseudometric, zero exactly on equal clipped names in one directory. |
| `EditDistance.PathDistance` | packages/plugin/src/plugin/agent-read-window.ts:345-350 | The method computes that metric. |
| `EditDistance.PathsApart` | packages/plugin/src/plugin/agent-read-window.ts:345-350 | Two paths are as far apart as the first 160 characters of their names, and 4 more in different folders; but a path that ends in a slash counts as one in no folder. |
| `EditDistance.FoldersAreOnePlace` | packages/plugin/src/plugin/agent-read-window.ts:345-350 | So paths that end in a slash have distance zero, whatever folders they name. |
| `PathSuggestions.SuggestionsAreNearest` | packages/plugin/src/plugin/agent-read-window.ts:311-339 | The suggestions are allowed paths among the first candidates, each once, by distance and then by name; no such path left out comes before one of them, and one is left out only when the list is full. |
| `PathSuggestions.SuggestsExactly` | packages/plugin/src/plugin/agent-read-window.ts:311-331 | There are suggestions exactly when the bounds given are positive. |
| `Utf8.DecodeEncode` | packages/plugin/src/plugin/agent-read-window.ts:301 | Fatal UTF-8 decoding (section 3 of RFC 3629) undoes encoding. |
| `ReadWindow.CreateAgentReadWindow` | packages/plugin/src/plugin/agent-read-window.ts:268-309 | Offset and size checks, the backing-up loop and the decoded slice are as specified, error by error. |
| `ReadWindow.RefusedBecause` | packages/plugin/src/plugin/agent-read-window.ts:268-295 | Each error is given exactly for its fault, the first that applies. |
| `ReadWindow.WindowExactly` | packages/plugin/src/plugin/agent-read-window.ts:268-309 | A request gets a window if and only if the next character fits the smaller of the two sizes or there is none: the longest run of whole characters from the offset that fits, with its place in the file. |
| `ReadWindow.BackUp` | packages/plugin/src/plugin/agent-read-window.ts:287-288 | The loop stops at the last character boundary within the limit. |
| `ReadWindow.TooSmallIffNextDoesNotFit` | packages/plugin/src/plugin/agent-read-window.ts:290-295 | "Window too small" exactly when the next character does not fit. |
| `ReadWindow.SpansTile` | packages/plugin/src/plugin/agent-read-window.ts:268-309 | Windows of at least four bytes never fail, always advance, and tile the bytes. |
| `ReadWindow.WholeFile` | packages/plugin/src/plugin/agent-read-window.ts:268-309 | Following `nextOffsetBytes` from 0 ends within the number of bytes and the spans concatenate to the whole encoding. |
| `ReadWindow.WholeText` | packages/plugin/src/plugin/agent-read-window.ts:300-301 | The window texts concatenate to the content if and only if no window begins at a byte order mark. |
| `ReadWindow.MarkAtWindowStart` | packages/plugin/src/plugin/agent-read-window.ts:300-301 | A file whose second window begins at a byte order mark: the texts of its windows are not its content. |
| `ReadWindow.MarkIsDropped` | packages/plugin/src/plugin/agent-read-window.ts:300-301 | Such as four letters and a mark, read four bytes at a time. |
| `ReadWindow.TruncateUtf8` | packages/plugin/src/plugin/agent-bridge.ts:6121-6132 | The longest prefix of whole characters within the limit. |
| `ReadWindow.FirstWindowAgrees` | packages/plugin/src/plugin/agent-bridge.ts:6121-6132 | The first read window equals the bridge's truncation exactly when the content does not begin with a byte order mark. |
| `ReadWindow.TruncationIsFirstWindow` | packages/plugin/src/plugin/agent-bridge.ts:6121-6132 | The first window fails exactly when the truncation is empty though the content is not, and else is the truncation without a leading mark. |
| `OfflineQueue.EachRequestInOnePlace` | packages/plugin/src/api/client.ts:2319-2368 | After any run with overlapping flushes and connection flips each accepted request is in exactly one of queue, one flush's unprocessed tail, or settled, and there once. |
| `OfflineQueue.StepConserves` | packages/plugin/src/api/client.ts:733-744 | Every queue, status and flush step keeps that. |
| `OfflineQueue.SettledStays` | packages/plugin/src/api/client.ts:2351-2368 | Settling and acceptance are final. |
| `OfflineQueue.QueuedExactly` | packages/plugin/src/api/client.ts:2319-2339 | A request is taken if and only if there is room, and then waits last. |
| `OfflineQueue.OrderIsKept` | packages/plugin/src/api/client.ts:2319-2368 | While no flush is put back, what waits in flushes and queue is in the order of acceptance. |
| `OfflineQueue.RequeueOvertakes` | packages/plugin/src/api/client.ts:2359-2366 | Re-queueing keeps neither the size cap nor the order of acceptance. |
| `OfflineQueue.RequeueKeepsCapExactly` | packages/plugin/src/api/client.ts:2359-2364 | Putting a flush back keeps the size cap if and only if the queue has room for its whole unprocessed tail. |
| `OfflineQueue.RequeueKeepsOrderExactly` | packages/plugin/src/api/client.ts:2359-2364 | It leaves the queue in order of acceptance if and only if queue and tail were and nothing queued was accepted after the first request put back. |
| `Retry.SendsAreBounded` | packages/plugin/src/api/client.ts:1990-2038 | Within one call a request makes at most 2 (maxRetries + 1) sends. |
| `Retry.BoundIsMet` | packages/plugin/src/api/client.ts:1990-2038 | The bound within one call is attained. |
| `Retry.TriesExactly` | packages/plugin/src/api/client.ts:1990-2030 | A call makes attempts until one ends in a way it does not go on after (for an idempotent request no connection, 429, 5xx or a refreshed 401; for a POST the last) or its retries are used; it sends what they send and answers as the last. |
| `Retry.SucceedsExactly` | packages/plugin/src/api/client.ts:1990-2030 | It succeeds if and only if an attempt it makes does. |
| `Retry.AttemptSucceedsExactly` | packages/plugin/src/api/client.ts:2088-2111 | An attempt succeeds if and only if its last answer is a 2xx that parses, and sends none, one or two. |
| `Retry.RefusalSays` | packages/plugin/src/api/client.ts:1920-1988 | Which error an answer is reported as. |
| `Retry.PostIsOnlyRepeatedSafely` | packages/plugin/src/api/client.ts:1807-1809 | Within one call every send of a non-idempotent request before its last was answered by a misrouted response or by a 401 followed by a refresh. |
| `Retry.PostRepeatsARunExactly` | packages/plugin/src/api/client.ts:2088-2111 | Within one call a POST is sent again after a send that may have run (no answer, 2xx, 429, 5xx) if and only if an attempt that is made gets such a status in an answer that looks misrouted, and finds another base URL. |
| `Retry.GatewayPageRepeatsAPost` | packages/plugin/src/api/client.ts:2101-2111 | Such a call: an HTML gateway page with status 504, after which the POST is also sent to another base and succeeds. |
| `QueuedSends.QueuedPostRepeatsExactly` | packages/plugin/src/api/client.ts:1803-2368 | Over all runs of queue, overlapping flushes and retrying calls: a queued POST is sent again after a send that may have run if and only if one of its calls repeats it within itself as above, or a call sends after an earlier one had a send that may have run. |
| `QueuedSends.LaterCallWasPutBack` | packages/plugin/src/api/client.ts:2351-2368 | A request is called again only after being put back: whenever a flush is about to call it, it has been put back as often as it was called, and at least once if it has sent. |
| `QueuedSends.CallsAreAccounted` | packages/plugin/src/api/client.ts:2319-2368 | For every request, calls made and calls still waiting in queue and flushes add up to acceptances and returns to the queue. |
| `QueuedSends.QueuedSendsAreBounded` | packages/plugin/src/api/client.ts:1990-2368 | A queued request makes at most 2 (maxRetries + 1) sends, and as many again each time it is put back. |
| `QueuedSends.StatusFollowsCall` | packages/plugin/src/api/client.ts:1995-2013 | After a call the status is online when it succeeded, offline when it ended in a network error, and else as before; coming online starts a flush of the whole queue. |
| `QueuedSends.LostPostIsSentAgain` | packages/plugin/src/api/client.ts:2359-2364 | Such a run: a queued POST gets no answer, is put back by its flush and sent again by the next, without any misrouted answer or second base. |
| `ApiClient.VaultGuardApiClient.QueueRequest` | packages/plugin/src/api/client.ts:2319-2339 | Accepted exactly when below the cap. |
| `ApiClient.VaultGuardApiClient.SetConnectionStatus` | packages/plugin/src/api/client.ts:733-744 | A change to online, and nothing else, starts a flush that takes the whole queue. |
| `ApiClient.VaultGuardApiClient.FlushFailed` | packages/plugin/src/api/client.ts:2359-2366 | Offline again: the request and what is behind it go back; otherwise it is rejected and the flush goes on. |
| `ApiClient.VaultGuardApiClient.FindIndex` | packages/plugin/src/api/client.ts:2362 | `indexOf` finds the first position. |
| `ApiClient.VaultGuardApiClient.RunAttempt` | packages/plugin/src/api/client.ts:2088-2111 | One attempt: what is sent and what is made of the response. |
| `ApiClient.VaultGuardApiClient.ExecuteWithRetry` | packages/plugin/src/api/client.ts:1990-2030 | The retry recursion sends and answers as specified, and the connection status follows the outcome. |
| `Schema.CheckIsMeaning` | packages/plugin/src/plugin/agent-command-schemas.ts:338-455 | The recursive checker with early returns accepts exactly the values of which the keywords hold (section 10.2.1 of JSON Schema Core 2020-12 for allOf, anyOf, oneOf), and never reports the depth limit while the schema nests within it. |
| `SchemaClosure.StrayIsTheDifference` | packages/plugin/src/plugin/agent-command-schemas.ts:414-431 | For schemas built of arrays, closed objects and blind schemas: looking fields up through inherited names accepts what the JSON Schema reading accepts and, besides, exactly the values with a stray inherited name in a closed object. |
| `SchemaClosure.OpenIndifferent` | packages/plugin/src/plugin/agent-command-schemas.ts:414-431 | In a choice or condition that closes nothing, inherited names change nothing, but for objects with symbol keys under them. |
| `SchemaClosure.BlindIndifferent` | packages/plugin/src/plugin/agent-command-schemas.ts:414-431 | Where no field is looked up by name, inherited names change nothing. |
| `CommandSchemas.ValidateIsMeaning` | packages/plugin/src/plugin/agent-command-schemas.ts:466-473 | For the seven shipped schemas the validator decides the keywords on every input of every size; the depth-64 guard never fires. |
| `CommandSchemas.ClosedUpToInheritedNames` | packages/plugin/src/plugin/agent-command-schemas.ts:91-319 | An input satisfies the shipped schema in the JSON Schema reading if and only if it is accepted and no closed object in it has an unlisted field under an inherited name. |
| `CommandSchemas.InheritedNamePassesClosedSchema` | packages/plugin/src/plugin/agent-command-schemas.ts:272-280 | The gap is real: the schema without any field accepts `{"toString": null}`. |
| `CommandSchemas.SymbolsAreRefusedUnderAnyName` | packages/plugin/src/plugin/agent-command-schemas.ts:403-406 | An object with symbol keys is refused under an inherited name as everywhere. |
| `AcceptedCommands.AcceptedNote` | packages/plugin/src/plugin/agent-command-schemas.ts:92-120 | A note command is accepted if and only if its fields are in order and it names exactly one target, and a change its text and hash. |
| `AcceptedCommands.AcceptedProperty` | packages/plugin/src/plugin/agent-command-schemas.ts:121-147 | A property command: note and key, for a change the hash, for setting the value. |
| `AcceptedCommands.AcceptedTask` | packages/plugin/src/plugin/agent-command-schemas.ts:148-183 | A task command: for a change place, old text hash and note hash, for a creation text and hash. |
| `AcceptedCommands.AcceptedInspect` | packages/plugin/src/plugin/agent-command-schemas.ts:184-234 | An inspect command: a path where it is about one file; filters and sort in order. |
| `AcceptedCommands.AcceptedTemplate` | packages/plugin/src/plugin/agent-command-schemas.ts:235-271 | A template command: its template, for an insertion note and hash, for a creation a path or a unique name and not both. |
| `AcceptedCommands.AcceptedSyncStatus` | packages/plugin/src/plugin/agent-command-schemas.ts:272-280 | A sync status command: no field of its own. |
| `AcceptedCommands.AcceptedAutomation` | packages/plugin/src/plugin/agent-command-schemas.ts:281-319 | An automation command: for a run its alias; at most 16 arguments in order. |
| `CommandSchemas.WhenMeans` | packages/plugin/src/plugin/agent-command-schemas.ts:78-89 | A conditional part applies exactly to the records of its operation, but for symbol keys under an inherited name. |

## Left out

- Cryptography: AES-GCM is ideal (a sealed value opens under its own key and no other), SHA-256 and the key derivations
  are fixed functions, base64 and Electron `safeStorage` are library calls that work or throw.
- Clearing the envelope, and saving or clearing the fallback key, either work or do nothing in one call of the at-rest
  cipher; one that takes effect and still rejects is that call followed by the accident step that loses the envelope or
  changes the fallback key.
- Key material in base64 strings is never wiped by the code and is not tracked.
- Concurrency of the at-rest cipher: operations are atomic towards each other; a vault write between the awaits of a
  restore is outside the model, as are concurrent `unlock` calls of the PIN manager.
- Recovery codes are read as Unicode scalar values; `toUpperCase` is modelled on ASCII letters, not on letters that
  upper-case to ASCII ones (such as the ligature U+FB00).
- Strings are sequences of Unicode scalar values: unpaired surrogates and UTF-16 lengths are not modelled.
- UnifiedDiff.TextReversal: requires hunk lines without newlines, which parsing guarantees.
- PosixReading: an old range is empty when the hunk's body has no old lines; a header whose count disagrees with its body
  is not a patch in that reading.
- DiffPrinter.PrintApplyRoundTrip: header fields without newlines.
- PinLock.RateBound: counts wrong secrets; a right secret resets the counter by design.
- ImportWalk: POSIX paths; the file system stands still during a walk; sorting, extension classification and `trim` are
  arbitrary functions; lease and session checks before the walk, and `importRead`, are not modelled.
- Leases: ChatGPT connector sessions, audit and log emission, scope normalisation and agent-name cleaning; random ids
  and tokens are parameters assumed new; JSON of an envelope reads back as written, and saves take effect in order.
- LeaseTable.RetiredTokensResolveToNothing: within one process between loads; a load may bring a token back from an
  envelope that was not rewritten.
- Automation: confirmation dialogs, file permission, contents of observations, number of polls and delays; path
  normaliser, glob matching, regular expressions and `localeCompare` are arbitrary functions or total orders. Policy
  normalisation from untrusted settings is not modelled; planned entries are assumed normalised.
- Versions: numeric parts are unbounded integers, not floating-point numbers.
- Read windows: request sizes are integers; classification and preflight would only add finite cases. Path normalisation
  and the collation of suggestions are arbitrary functions, the latter a total preorder.
- SchemaClosure.StrayIsTheDifference: for the forms the shipped schemas use, not for closed objects inside choices.
- API client: `destroy`, delays, the token refresh's own requests and endpoint resolution; whether an error looks like a
  network error is a flag of the environment; a retrying call is one step towards the queue.
- Schema: which of several faults is reported is modelled, its message and path text are not; getters, proxies and
  non-enumerable fields are not modelled; a regular expression is the set of texts it accepts.
- The HTTP server, MCP and RPC dispatch, permission, share and membership wrappers, note and task services, sync engine,
  user interface and catalogues: plumbing over calls outside the modelled files.
