/** `VaultGuardApiClient`: the queue, the status that starts flushes, and the retrying request, in place. */
module ApiClient {
  import OfflineQueue
  import Retry

  class VaultGuardApiClient {
    const offlineQueueMaxSize: nat
    const maxRetries: nat

    var offlineQueue: seq<nat>
    var connectionStatus: OfflineQueue.Status
    /** Flush loops suspended at their await. */
    var flushes: seq<OfflineQueue.Flush>
    /** Requests whose promise was resolved or rejected by a flush, and those ever queued. */
    ghost var settled: seq<nat>
    ghost var accepted: seq<nat>
    /** Everything sent, in order. */
    ghost var sent: seq<Retry.Send>

    ghost function Contents(): OfflineQueue.State
      reads this
    {
      OfflineQueue.State(offlineQueue, connectionStatus, flushes, settled, accepted)
    }

    constructor (offlineQueueMaxSize: nat, maxRetries: nat)
      ensures Contents() == OfflineQueue.START && sent == []
      ensures this.offlineQueueMaxSize == offlineQueueMaxSize && this.maxRetries == maxRetries
    {
      this.offlineQueueMaxSize, this.maxRetries := offlineQueueMaxSize, maxRetries;
      offlineQueue, connectionStatus, flushes := [], OfflineQueue.Offline, [];
      settled, accepted, sent := [], [], [];
    }

    method QueueRequest(request: nat) returns (taken: bool)
      requires OfflineQueue.Enabled(Contents(), OfflineQueue.QueueRequest(request))
      modifies this
      ensures Contents() == OfflineQueue.Next(offlineQueueMaxSize, old(Contents()), OfflineQueue.QueueRequest(request))
      ensures taken <==> request in accepted
      ensures sent == old(sent)
    {
      if |offlineQueue| >= offlineQueueMaxSize {
        return false;
      }
      offlineQueue := offlineQueue + [request];
      accepted := accepted + [request];
      taken := true;
    }

    method SetConnectionStatus(status: OfflineQueue.Status)
      modifies this
      ensures Contents() == OfflineQueue.Next(offlineQueueMaxSize, old(Contents()), OfflineQueue.SetStatus(status))
      ensures sent == old(sent)
    {
      if connectionStatus != status {
        connectionStatus := status;
        if status == OfflineQueue.Online {
          BeginFlush();
        }
      }
    }

    /** `flushOfflineQueue` up to its first await: take the whole queue. */
    method BeginFlush()
      modifies this`offlineQueue, this`flushes
      ensures offlineQueue == [] && flushes == old(flushes) + [OfflineQueue.Flush(old(offlineQueue), 0)]
    {
      flushes := flushes + [OfflineQueue.Flush(offlineQueue, 0)];
      offlineQueue := [];
    }

    method FindIndex(batch: seq<nat>, request: nat) returns (i: int)
      ensures i == OfflineQueue.IndexOf(batch, request)
    {
      for k := 0 to |batch|
        invariant request !in batch[..k]
      {
        if batch[k] == request {
          FirstIsIndexOf(batch, k);
          return k;
        }
        assert batch[..k + 1] == batch[..k] + [batch[k]];
      }
      assert batch[..|batch|] == batch;
      i := -1;
    }

    /** A flush loop from one await to the next, after its request succeeded. */
    method FlushResolved(i: nat)
      requires OfflineQueue.Enabled(Contents(), OfflineQueue.Resolved(i))
      modifies this
      ensures Contents() == OfflineQueue.Next(offlineQueueMaxSize, old(Contents()), OfflineQueue.Resolved(i))
      ensures sent == old(sent)
    {
      var f := flushes[i];
      settled := settled + [f.batch[f.pos]];
      flushes := flushes[i := f.(pos := f.pos + 1)];
    }

    /** Or after it failed: put the rest back when offline again, else reject and go on. */
    method FlushFailed(i: nat)
      requires OfflineQueue.Enabled(Contents(), OfflineQueue.Failed(i))
      modifies this
      ensures Contents() == OfflineQueue.Next(offlineQueueMaxSize, old(Contents()), OfflineQueue.Failed(i))
      ensures sent == old(sent)
    {
      var f := flushes[i];
      var request := f.batch[f.pos];
      if connectionStatus == OfflineQueue.Offline {
        var at := FindIndex(f.batch, request);
        offlineQueue := offlineQueue + [request] + f.batch[at + 1..];
        flushes := flushes[i := f.(pos := |f.batch|)];
      } else {
        settled := settled + [request];
        flushes := flushes[i := f.(pos := f.pos + 1)];
      }
    }

    /** `sendRequest` and what is made of its response. */
    method RunAttempt(env: Retry.Env) returns (r: Retry.Result)
      modifies this`sent
      ensures sent == old(sent) + Retry.Attempt(env).0 && r == Retry.Attempt(env).1
    {
      if env.headersFail.Some? {
        return Retry.Threw(Retry.Error(Retry.Other, env.headersFail.value));
      }
      if env.resolveFails.Some? {
        return Retry.Threw(Retry.Error(Retry.Other, env.resolveFails.value));
      }
      var answer := env.first;
      if env.first.Response? && env.first.misrouted {
        match env.fallback {
          case SameBase =>
          case ResolveThrows(looks) =>
            sent := sent + [Retry.Send(env.first, false)];
            return Retry.Threw(Retry.Error(Retry.Other, looks));
          case OtherBase(second) =>
            sent := sent + [Retry.Send(env.first, false)];
            answer := second;
        }
      }
      sent := sent + [Retry.Judge(answer, env).0];
      r := Retry.Judge(answer, env).1;
    }

    /** `executeWithRetry`: the status follows the outcome, and the sends are those of `Retry.Execute`. */
    method ExecuteWithRetry(envs: nat -> Retry.Env, idempotent: bool, attempt: nat) returns (r: Retry.Result)
      modifies this
      ensures sent == old(sent) + Retry.Execute(envs, idempotent, attempt, maxRetries).0
      ensures r == Retry.Execute(envs, idempotent, attempt, maxRetries).1
      ensures r.Succeeded? ==>
                Contents() == OfflineQueue.Next(offlineQueueMaxSize, old(Contents()), OfflineQueue.SetStatus(OfflineQueue.Online))
      ensures r.Threw? && r.error.kind == Retry.Network && r.error.looksNetwork ==>
                Contents() == OfflineQueue.Next(offlineQueueMaxSize, old(Contents()), OfflineQueue.SetStatus(OfflineQueue.Offline))
      ensures r.Threw? && !r.error.looksNetwork ==> Contents() == old(Contents())
      decreases maxRetries - attempt
    {
      var result := RunAttempt(envs(attempt));
      SentConcat(old(sent), Retry.Attempt(envs(attempt)).0, Retry.Execute(envs, idempotent, attempt + 1, maxRetries).0);
      if result.Succeeded? {
        SetConnectionStatus(OfflineQueue.Online);
        return result;
      }
      var error := result.error;
      if error.looksNetwork {
        if idempotent && attempt < maxRetries {
          r := ExecuteWithRetry(envs, idempotent, attempt + 1);
          return;
        }
        SetConnectionStatus(OfflineQueue.Offline);
        return Retry.Threw(Retry.Error(Retry.Network, true));
      }
      if (idempotent || error.kind == Retry.Retryable) && Retry.IsRetryable(error.kind) && attempt < maxRetries {
        r := ExecuteWithRetry(envs, idempotent, attempt + 1);
        return;
      }
      r := result;
    }
  }

  lemma {:induction false} SentConcat(a: seq<Retry.Send>, b: seq<Retry.Send>, c: seq<Retry.Send>)
    ensures (a + b) + c == a + (b + c)
  {
  }

  lemma {:induction false} FirstIsIndexOf(batch: seq<nat>, k: nat)
    requires k < |batch| && batch[k] !in batch[..k]
    ensures OfflineQueue.IndexOf(batch, batch[k]) == k
  {
    if k > 0 {
      assert batch[..k][0] == batch[0];
      assert batch[1..][..k - 1] == batch[1..k];
      FirstIsIndexOf(batch[1..], k - 1);
    }
  }
}
