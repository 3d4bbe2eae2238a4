/** The offline queue and the retrying requests together: how often, and after what, a queued request is sent again. */
module QueuedSends {
  import opened Text
  import OfflineQueue
  import Retry

  datatype Config = Config(maxSize: nat, maxRetries: nat, isPost: nat -> bool)

  /** A send and the request it was made for. */
  datatype Sent = Sent(request: nat, send: Retry.Send)

  /**
   * `ended` holds the flushes whose awaited request has ended and which have not resumed, with whether it succeeded;
   * `calls` the requests called and `backs` those put back after a call, each in order and as often as it happened.
   */
  datatype World = World(q: OfflineQueue.State, ended: map<nat, bool>, calls: seq<nat>, backs: seq<nat>, log: seq<Sent>)

  const START := World(OfflineQueue.START, map[], [], [], [])

  datatype Step =
    | Queue(request: nat)
    | Status(status: OfflineQueue.Status)              // by any other request, health check or initialisation
    | Call(flush: nat, envs: nat -> Retry.Env)         // the awaited request runs: all its attempts
    | Resume(flush: nat)                               // the flush goes on after it

  predicate Waiting(q: OfflineQueue.State, i: nat) {
    i < |q.flushes| && q.flushes[i].pos < |q.flushes[i].batch|
  }

  function Head(q: OfflineQueue.State, i: nat): nat
    requires Waiting(q, i)
  {
    q.flushes[i].batch[q.flushes[i].pos]
  }

  predicate Enabled(w: World, step: Step) {
    match step
    case Queue(r) => r !in w.q.accepted
    case Status(_) => true
    case Call(i, _) => Waiting(w.q, i) && i !in w.ended
    case Resume(i) => Waiting(w.q, i) && i in w.ended
  }

  function Tagged(request: nat, sends: seq<Retry.Send>): seq<Sent> {
    if sends == [] then [] else [Sent(request, sends[0])] + Tagged(request, sends[1..])
  }

  /** The status a request leaves: online when it succeeded, offline when it ended in a network error. */
  function StatusAfter(c: Config, q: OfflineQueue.State, result: Retry.Result): OfflineQueue.State {
    if result.Succeeded? then OfflineQueue.Next(c.maxSize, q, OfflineQueue.SetStatus(OfflineQueue.Online))
    else if result.error.looksNetwork then OfflineQueue.Next(c.maxSize, q, OfflineQueue.SetStatus(OfflineQueue.Offline))
    else q
  }

  function Sends(c: Config, request: nat, envs: nat -> Retry.Env): seq<Retry.Send> {
    Retry.Execute(envs, !c.isPost(request), 0, c.maxRetries).0
  }

  function Next(c: Config, w: World, step: Step): World
    requires Enabled(w, step)
  {
    match step
    case Queue(r) => w.(q := OfflineQueue.Next(c.maxSize, w.q, OfflineQueue.QueueRequest(r)))
    case Status(status) => w.(q := OfflineQueue.Next(c.maxSize, w.q, OfflineQueue.SetStatus(status)))
    case Call(i, envs) =>
      var request := Head(w.q, i);
      var result := Retry.Execute(envs, !c.isPost(request), 0, c.maxRetries).1;
      World(StatusAfter(c, w.q, result), w.ended[i := result.Succeeded?], w.calls + [request], w.backs,
            w.log + Tagged(request, Sends(c, request, envs)))
    case Resume(i) =>
      var q := OfflineQueue.Next(c.maxSize, w.q, if w.ended[i] then OfflineQueue.Resolved(i) else OfflineQueue.Failed(i));
      var back := !w.ended[i] && w.q.status.Offline?;
      World(q, w.ended - {i}, w.calls, w.backs + (if back then [Head(w.q, i)] else []), w.log)
  }

  ghost predicate Runs(c: Config, w: World, run: seq<Step>)
    decreases run
  {
    run != [] ==> Enabled(w, run[0]) && Runs(c, Next(c, w, run[0]), run[1..])
  }

  ghost function End(c: Config, w: World, run: seq<Step>): World
    requires Runs(c, w, run)
    decreases run
  {
    if run == [] then w else End(c, Next(c, w, run[0]), run[1..])
  }

  // ---------------------------------------------------------------------------
  // Calls, and requests put back after them
  // ---------------------------------------------------------------------------

  /** What a flush has not called yet. */
  function Uncalled(f: OfflineQueue.Flush, ended: bool): seq<nat> {
    var tail := OfflineQueue.Tail(f);
    if ended && tail != [] then tail[1..] else tail
  }

  function CountUncalled(flushes: seq<OfflineQueue.Flush>, ended: set<nat>, k: nat, x: nat): nat
    requires k <= |flushes|
    decreases |flushes| - k
  {
    if k == |flushes| then 0
    else OfflineQueue.Count(Uncalled(flushes[k], k in ended), x) + CountUncalled(flushes, ended, k + 1, x)
  }

  /** How often `x` waits to be called. */
  function ToCall(w: World, x: nat): nat {
    OfflineQueue.Count(w.q.queue, x) + CountUncalled(w.q.flushes, w.ended.Keys, 0, x)
  }

  ghost predicate Accounted(w: World, x: nat) {
    OfflineQueue.Count(w.calls, x) + ToCall(w, x)
    == OfflineQueue.Count(w.q.accepted, x) + OfflineQueue.Count(w.backs, x)
  }

  ghost predicate Inv(w: World) {
    && OfflineQueue.Conserved(w.q)
    && (forall i :: i in w.ended ==> Waiting(w.q, i))
    && (forall x :: Accounted(w, x))
  }

  /** Changing flush `i` changes the count by its own part. */
  lemma {:induction false} UncalledUpdate(
      flushes: seq<OfflineQueue.Flush>, ended: set<nat>, f: OfflineQueue.Flush, ended': set<nat>, k: nat, i: nat, x: nat)
    requires k <= |flushes| && i < |flushes| && forall j :: j != i ==> (j in ended <==> j in ended')
    ensures CountUncalled(flushes[i := f], ended', k, x)
              + (if k <= i then OfflineQueue.Count(Uncalled(flushes[i], i in ended), x) else 0)
            == CountUncalled(flushes, ended, k, x)
              + (if k <= i then OfflineQueue.Count(Uncalled(f, i in ended'), x) else 0)
    decreases |flushes| - k
  {
    if k < |flushes| {
      UncalledUpdate(flushes, ended, f, ended', k + 1, i, x);
      if k != i { assert flushes[i := f][k] == flushes[k]; }
    }
  }

  lemma {:induction false} UncalledAppend(flushes: seq<OfflineQueue.Flush>, ended: set<nat>, f: OfflineQueue.Flush, k: nat, x: nat)
    requires k <= |flushes| && |flushes| !in ended
    ensures CountUncalled(flushes + [f], ended, k, x)
            == CountUncalled(flushes, ended, k, x) + OfflineQueue.Count(OfflineQueue.Tail(f), x)
    decreases |flushes| - k
  {
    if k < |flushes| {
      UncalledAppend(flushes, ended, f, k + 1, x);
      assert (flushes + [f])[k] == flushes[k];
    } else {
      assert (flushes + [f])[k] == f && CountUncalled(flushes + [f], ended, k + 1, x) == 0;
    }
  }

  lemma {:induction false} CalledHead(f: OfflineQueue.Flush, x: nat)
    requires f.pos < |f.batch|
    ensures OfflineQueue.Count(Uncalled(f, false), x)
            == OfflineQueue.Count([f.batch[f.pos]], x) + OfflineQueue.Count(Uncalled(f, true), x)
    ensures Uncalled(f, true) == OfflineQueue.Tail(f.(pos := f.pos + 1))
  {
    assert OfflineQueue.Tail(f)[1..] == OfflineQueue.Tail(f.(pos := f.pos + 1));
    OfflineQueue.TailShrinks(f, x);
  }

  /** A change of status moves the queue into a new flush, or nothing. */
  lemma {:induction false} StatusKeeps(c: Config, q: OfflineQueue.State, ended: set<nat>, status: OfflineQueue.Status, x: nat)
    requires |q.flushes| !in ended
    ensures var q' := OfflineQueue.Next(c.maxSize, q, OfflineQueue.SetStatus(status));
            && q'.accepted == q.accepted
            && OfflineQueue.Count(q'.queue, x) + CountUncalled(q'.flushes, ended, 0, x)
               == OfflineQueue.Count(q.queue, x) + CountUncalled(q.flushes, ended, 0, x)
  {
    UncalledAppend(q.flushes, ended, OfflineQueue.Flush(q.queue, 0), 0, x);
    assert OfflineQueue.Tail(OfflineQueue.Flush(q.queue, 0)) == q.queue;
  }

  lemma {:induction false} QueueKeeps(c: Config, w: World, r: nat, x: nat)
    requires Inv(w) && Enabled(w, Queue(r))
    ensures Accounted(Next(c, w, Queue(r)), x)
  {
    assert Accounted(w, x);
    OfflineQueue.CountConcat(w.q.queue, [r], x);
    OfflineQueue.CountConcat(w.q.accepted, [r], x);
  }

  lemma {:induction false} StatusKeepsAccount(c: Config, w: World, status: OfflineQueue.Status, x: nat)
    requires Inv(w)
    ensures Accounted(Next(c, w, Status(status)), x)
  {
    assert Accounted(w, x);
    StatusKeeps(c, w.q, w.ended.Keys, status, x);
  }

  /** The flush's request is called, and the rest of its batch still waits. */
  lemma {:induction false} CallMovesHead(w: World, i: nat, ended: set<nat>, x: nat)
    requires Waiting(w.q, i) && i !in w.ended && ended == w.ended.Keys + {i}
    ensures CountUncalled(w.q.flushes, w.ended.Keys, 0, x)
            == CountUncalled(w.q.flushes, ended, 0, x) + OfflineQueue.Count([Head(w.q, i)], x)
  {
    var f := w.q.flushes[i];
    assert w.q.flushes[i := f] == w.q.flushes;
    UncalledUpdate(w.q.flushes, w.ended.Keys, f, ended, 0, i, x);
    CalledHead(f, x);
  }

  lemma {:induction false} StatusAfterKeeps(c: Config, q: OfflineQueue.State, result: Retry.Result, ended: set<nat>, x: nat)
    requires |q.flushes| !in ended
    ensures var q' := StatusAfter(c, q, result);
            && q'.accepted == q.accepted && q.flushes <= q'.flushes
            && OfflineQueue.Count(q'.queue, x) + CountUncalled(q'.flushes, ended, 0, x)
               == OfflineQueue.Count(q.queue, x) + CountUncalled(q.flushes, ended, 0, x)
  {
    StatusKeeps(c, q, ended, OfflineQueue.Online, x);
    StatusKeeps(c, q, ended, OfflineQueue.Offline, x);
  }

  lemma {:induction false} CallKeeps(c: Config, w: World, i: nat, envs: nat -> Retry.Env, x: nat)
    requires Inv(w) && Enabled(w, Call(i, envs))
    ensures Accounted(Next(c, w, Call(i, envs)), x)
  {
    var request := Head(w.q, i);
    var result := Retry.Execute(envs, !c.isPost(request), 0, c.maxRetries).1;
    CallAccounts(c, w, i, result, w.log + Tagged(request, Sends(c, request, envs)), x);
  }

  lemma {:induction false} CallAccounts(c: Config, w: World, i: nat, result: Retry.Result, log: seq<Sent>, x: nat)
    requires Inv(w) && Waiting(w.q, i) && i !in w.ended
    ensures Accounted(
              World(StatusAfter(c, w.q, result), w.ended[i := result.Succeeded?], w.calls + [Head(w.q, i)], w.backs, log), x)
  {
    assert Accounted(w, x);
    var ended := w.ended.Keys + {i};
    CallMovesHead(w, i, ended, x);
    StatusAfterKeeps(c, w.q, result, ended, x);
    OfflineQueue.CountConcat(w.calls, [Head(w.q, i)], x);
    assert w.ended[i := result.Succeeded?].Keys == ended;
  }

  /** Going on: the called request leaves its flush. */
  lemma {:induction false} GoOn(w: World, i: nat, ended: set<nat>, x: nat)
    requires Waiting(w.q, i) && i in w.ended && ended == w.ended.Keys - {i}
    ensures var f := w.q.flushes[i];
            CountUncalled(w.q.flushes[i := f.(pos := f.pos + 1)], ended, 0, x)
            == CountUncalled(w.q.flushes, w.ended.Keys, 0, x)
  {
    var f := w.q.flushes[i];
    UncalledUpdate(w.q.flushes, w.ended.Keys, f.(pos := f.pos + 1), ended, 0, i, x);
    CalledHead(f, x);
  }

  /** Putting back: the rest of the batch leaves its flush, the called request with it. */
  lemma {:induction false} PutBack(w: World, i: nat, ended: set<nat>, x: nat)
    requires Waiting(w.q, i) && i in w.ended && ended == w.ended.Keys - {i}
    ensures var f := w.q.flushes[i];
            CountUncalled(w.q.flushes[i := f.(pos := |f.batch|)], ended, 0, x)
            + OfflineQueue.Count(OfflineQueue.Tail(f), x)
            == CountUncalled(w.q.flushes, w.ended.Keys, 0, x) + OfflineQueue.Count([Head(w.q, i)], x)
  {
    var f := w.q.flushes[i];
    UncalledUpdate(w.q.flushes, w.ended.Keys, f.(pos := |f.batch|), ended, 0, i, x);
    CalledHead(f, x);
  }

  lemma {:induction false} PutBackKeeps(c: Config, w: World, i: nat, x: nat)
    requires Inv(w) && Enabled(w, Resume(i)) && !w.ended[i] && w.q.status.Offline?
    ensures var f := w.q.flushes[i];
            Next(c, w, Resume(i))
            == World(w.q.(queue := w.q.queue + OfflineQueue.Tail(f), flushes := w.q.flushes[i := f.(pos := |f.batch|)]),
                     w.ended - {i}, w.calls, w.backs + [Head(w.q, i)], w.log)
    ensures Accounted(Next(c, w, Resume(i)), x)
  {
    assert Accounted(w, x);
    OfflineQueue.FailedOffline(c.maxSize, w.q, i);
    assert (w.ended - {i}).Keys == w.ended.Keys - {i};
    PutBack(w, i, w.ended.Keys - {i}, x);
    OfflineQueue.CountConcat(w.q.queue, OfflineQueue.Tail(w.q.flushes[i]), x);
    OfflineQueue.CountConcat(w.backs, [Head(w.q, i)], x);
  }

  lemma {:induction false} GoOnKeeps(c: Config, w: World, i: nat, x: nat)
    requires Inv(w) && Enabled(w, Resume(i)) && (w.ended[i] || !w.q.status.Offline?)
    ensures Next(c, w, Resume(i)) == World(OfflineQueue.Settle(w.q, i), w.ended - {i}, w.calls, w.backs, w.log)
    ensures Accounted(Next(c, w, Resume(i)), x)
  {
    assert w.backs + [] == w.backs;
    GoOnAccounts(w, i, x);
  }

  lemma {:induction false} GoOnAccounts(w: World, i: nat, x: nat)
    requires Accounted(w, x) && Waiting(w.q, i) && i in w.ended
    ensures Accounted(World(OfflineQueue.Settle(w.q, i), w.ended - {i}, w.calls, w.backs, w.log), x)
  {
    assert (w.ended - {i}).Keys == w.ended.Keys - {i};
    GoOn(w, i, w.ended.Keys - {i}, x);
  }

  lemma {:induction false} ResumeKeeps(c: Config, w: World, i: nat, x: nat)
    requires Inv(w) && Enabled(w, Resume(i))
    ensures Accounted(Next(c, w, Resume(i)), x)
  {
    if !w.ended[i] && w.q.status.Offline? { PutBackKeeps(c, w, i, x); } else { GoOnKeeps(c, w, i, x); }
  }

  lemma {:induction false} StepKeepsAccount(c: Config, w: World, step: Step, x: nat)
    requires Inv(w) && Enabled(w, step)
    ensures Accounted(Next(c, w, step), x)
  {
    match step {
      case Queue(r) => QueueKeeps(c, w, r, x);
      case Status(status) => StatusKeepsAccount(c, w, status, x);
      case Call(i, envs) => CallKeeps(c, w, i, envs, x);
      case Resume(i) => ResumeKeeps(c, w, i, x);
    }
  }

  lemma {:induction false} StepConserves(c: Config, w: World, step: Step)
    requires Inv(w) && Enabled(w, step)
    ensures OfflineQueue.Conserved(Next(c, w, step).q)
  {
    match step {
      case Queue(r) => OfflineQueue.StepConserves(c.maxSize, w.q, OfflineQueue.QueueRequest(r));
      case Status(status) => OfflineQueue.StepConserves(c.maxSize, w.q, OfflineQueue.SetStatus(status));
      case Call(i, envs) =>
        OfflineQueue.StepConserves(c.maxSize, w.q, OfflineQueue.SetStatus(OfflineQueue.Online));
        OfflineQueue.StepConserves(c.maxSize, w.q, OfflineQueue.SetStatus(OfflineQueue.Offline));
      case Resume(i) =>
        OfflineQueue.StepConserves(c.maxSize, w.q, OfflineQueue.Resolved(i));
        OfflineQueue.StepConserves(c.maxSize, w.q, OfflineQueue.Failed(i));
    }
  }

  lemma {:induction false} StepKeepsEnded(c: Config, w: World, step: Step)
    requires Inv(w) && Enabled(w, step)
    ensures forall i :: i in Next(c, w, step).ended ==> Waiting(Next(c, w, step).q, i)
  {
  }

  lemma {:induction false} StepKeepsInv(c: Config, w: World, step: Step)
    requires Inv(w) && Enabled(w, step)
    ensures Inv(Next(c, w, step))
  {
    StepConserves(c, w, step);
    StepKeepsEnded(c, w, step);
    forall x
      ensures Accounted(Next(c, w, step), x)
    {
      StepKeepsAccount(c, w, step, x);
    }
  }

  lemma {:induction false} RunKeepsInv(c: Config, w: World, run: seq<Step>)
    requires Inv(w) && Runs(c, w, run)
    ensures Inv(End(c, w, run))
    decreases run
  {
    if run != [] {
      StepKeepsInv(c, w, run[0]);
      RunKeepsInv(c, Next(c, w, run[0]), run[1..]);
    }
  }

  lemma {:induction false} StartInv()
    ensures Inv(START)
  {
    forall x
      ensures Accounted(START, x)
    {
      assert CountUncalled(START.q.flushes, START.ended.Keys, 0, x) == 0;
    }
  }

  /**
   * After any run an accepted request has been called once more than it was put back, unless it is waiting for that
   * call; so every call after the first follows a flush that put the request back.
   */
  lemma {:induction false} CallsAreAccounted(c: Config, run: seq<Step>, x: nat)
    requires Runs(c, START, run)
    ensures var w := End(c, START, run);
            && OfflineQueue.Count(w.calls, x) + ToCall(w, x)
               == (if x in w.q.accepted then 1 else 0) + OfflineQueue.Count(w.backs, x)
            && ToCall(w, x) <= 1
  {
    StartInv();
    RunKeepsInv(c, START, run);
    var w := End(c, START, run);
    assert Accounted(w, x);
    OfflineQueue.CountIn(w.q.accepted, x);
    WaitsAtMostOnce(w, x);
  }

  lemma {:induction false} WaitsAtMostOnce(w: World, x: nat)
    requires Inv(w)
    ensures ToCall(w, x) <= 1
  {
    UncalledAreTails(w.q.flushes, w.ended.Keys, 0, x);
    assert w.q.flushes[0..] == w.q.flushes;
    assert OfflineQueue.Places(w.q, x) == OfflineQueue.Count(w.q.accepted, x);
    OfflineQueue.CountIn(w.q.accepted, x);
  }

  lemma {:induction false} UncalledAreTails(flushes: seq<OfflineQueue.Flush>, ended: set<nat>, k: nat, x: nat)
    requires k <= |flushes|
    ensures CountUncalled(flushes, ended, k, x) <= OfflineQueue.Count(OfflineQueue.Tails(flushes[k..]), x)
    decreases |flushes| - k
  {
    if k < |flushes| {
      UncalledAreTails(flushes, ended, k + 1, x);
      assert flushes[k..][0] == flushes[k] && flushes[k..][1..] == flushes[k + 1..];
      OfflineQueue.TailsSplit(flushes[k..], x);
    }
  }

  /** The status after a call: online when it succeeded, offline when it ended in a network error, and else as it was. */
  lemma {:induction false} StatusFollowsCall(c: Config, w: World, i: nat, envs: nat -> Retry.Env)
    requires Enabled(w, Call(i, envs))
    ensures var result := Retry.Execute(envs, !c.isPost(Head(w.q, i)), 0, c.maxRetries).1;
            var after := Next(c, w, Call(i, envs)).q;
            && (result.Succeeded? ==> after.status == OfflineQueue.Online)
            && (result.Threw? && result.error.looksNetwork ==> after.status == OfflineQueue.Offline)
            && (result.Threw? && !result.error.looksNetwork ==> after == w.q)
            && (after.status != OfflineQueue.Online || w.q.status == OfflineQueue.Online ==>
                  after.queue == w.q.queue && after.flushes == w.q.flushes)
            && (after.status == OfflineQueue.Online && w.q.status != OfflineQueue.Online ==>
                  after.queue == [] && after.flushes == w.q.flushes + [OfflineQueue.Flush(w.q.queue, 0)])
  {
  }

  // ---------------------------------------------------------------------------
  // What a request has sent
  // ---------------------------------------------------------------------------

  function SendsOf(log: seq<Sent>, x: nat): seq<Retry.Send> {
    if log == [] then [] else (if log[0].request == x then [log[0].send] else []) + SendsOf(log[1..], x)
  }

  lemma {:induction false} SendsOfConcat(a: seq<Sent>, b: seq<Sent>, x: nat)
    ensures SendsOf(a + b, x) == SendsOf(a, x) + SendsOf(b, x)
  {
    if a == [] {
      assert a + b == b;
    } else {
      SendsOfConcat(a[1..], b, x);
      assert (a + b)[0] == a[0] && (a + b)[1..] == a[1..] + b;
      Associates(if a[0].request == x then [a[0].send] else [], SendsOf(a[1..], x), SendsOf(b, x));
    }
  }

  lemma {:induction false} Associates(a: seq<Retry.Send>, b: seq<Retry.Send>, c: seq<Retry.Send>)
    ensures a + (b + c) == (a + b) + c
  {
  }

  lemma {:induction false} SendsOfTagged(request: nat, sends: seq<Retry.Send>, x: nat)
    ensures SendsOf(Tagged(request, sends), x) == if request == x then sends else []
  {
    if sends != [] {
      SendsOfTagged(request, sends[1..], x);
      var tagged := Tagged(request, sends);
      assert tagged[0] == Sent(request, sends[0]) && tagged[1..] == Tagged(request, sends[1..]);
      assert sends == [sends[0]] + sends[1..];
    }
  }

  /** The log grows by the sends of a call, for the request it is made for. */
  lemma {:induction false} StepLogs(c: Config, w: World, step: Step, x: nat)
    requires Enabled(w, step)
    ensures SendsOf(Next(c, w, step).log, x)
            == if step.Call? && Head(w.q, step.flush) == x then SendsOf(w.log, x) + Sends(c, x, step.envs) else SendsOf(w.log, x)
  {
    if step.Call? {
      var request := Head(w.q, step.flush);
      SendsOfConcat(w.log, Tagged(request, Sends(c, request, step.envs)), x);
      SendsOfTagged(request, Sends(c, request, step.envs), x);
      assert SendsOf(w.log, x) + [] == SendsOf(w.log, x);
    }
  }

  predicate AnyMayHaveRun(sends: seq<Retry.Send>) {
    exists i :: 0 <= i < |sends| && Retry.MayHaveRun(sends[i].answer)
  }

  lemma {:induction false} RepeatsAcross(a: seq<Retry.Send>, b: seq<Retry.Send>)
    ensures Retry.RepeatsARun(a + b) <==> Retry.RepeatsARun(a) || Retry.RepeatsARun(b) || (AnyMayHaveRun(a) && b != [])
  {
    var all := a + b;
    if Retry.RepeatsARun(a) {
      var i :| 0 <= i < |a| - 1 && Retry.MayHaveRun(a[i].answer);
      assert all[i] == a[i];
    }
    if Retry.RepeatsARun(b) {
      var i :| 0 <= i < |b| - 1 && Retry.MayHaveRun(b[i].answer);
      assert all[|a| + i] == b[i];
    }
    if AnyMayHaveRun(a) && b != [] {
      var i :| 0 <= i < |a| && Retry.MayHaveRun(a[i].answer);
      assert all[i] == a[i];
    }
    if Retry.RepeatsARun(all) {
      var i :| 0 <= i < |all| - 1 && Retry.MayHaveRun(all[i].answer);
      if i < |a| { assert a[i] == all[i]; } else { assert b[i - |a|] == all[i]; }
    }
  }

  /** A POST's call sends nothing exactly when it fails before its first send. */
  predicate SendsSomething(env: Retry.Env) {
    env.headersFail.None? && env.resolveFails.None?
  }

  lemma {:induction false} PostSendsSomething(c: Config, x: nat, envs: nat -> Retry.Env)
    requires c.isPost(x)
    ensures Sends(c, x, envs) != [] <==> SendsSomething(envs(0))
  {
  }

  /**
   * The step sends the request again after a send that may have run: within one call, because the first answer of an
   * attempt looked misrouted though it may follow the effect and another base was found, or in a later call, after a
   * send that may have run in an earlier one.
   */
  ghost predicate SendsAgain(c: Config, w: World, step: Step, x: nat)
    requires Enabled(w, step)
  {
    && step.Call? && Head(w.q, step.flush) == x
    && (|| (exists n: nat :: Retry.Reaches(step.envs, 0, n, c.maxRetries) && Retry.DoublesInAttempt(step.envs(n)))
        || (AnyMayHaveRun(SendsOf(w.log, x)) && SendsSomething(step.envs(0))))
  }

  ghost predicate SomeStepSendsAgain(c: Config, w: World, run: seq<Step>, x: nat)
    requires Runs(c, w, run)
    decreases run
  {
    run != [] && (SendsAgain(c, w, run[0], x) || SomeStepSendsAgain(c, Next(c, w, run[0]), run[1..], x))
  }

  lemma {:induction false} StepRepeats(c: Config, w: World, step: Step, x: nat)
    requires Enabled(w, step) && c.isPost(x)
    ensures Retry.RepeatsARun(SendsOf(Next(c, w, step).log, x))
            <==> Retry.RepeatsARun(SendsOf(w.log, x)) || SendsAgain(c, w, step, x)
  {
    StepLogs(c, w, step, x);
    if step.Call? && Head(w.q, step.flush) == x {
      RepeatsAcross(SendsOf(w.log, x), Sends(c, x, step.envs));
      Retry.PostRepeatsARunExactly(step.envs, 0, c.maxRetries);
      PostSendsSomething(c, x, step.envs);
    }
  }

  lemma {:induction false} RunRepeats(c: Config, w: World, run: seq<Step>, x: nat)
    requires Runs(c, w, run) && c.isPost(x)
    ensures Retry.RepeatsARun(SendsOf(End(c, w, run).log, x))
            <==> Retry.RepeatsARun(SendsOf(w.log, x)) || SomeStepSendsAgain(c, w, run, x)
    decreases run
  {
    if run != [] {
      StepRepeats(c, w, run[0], x);
      RunRepeats(c, Next(c, w, run[0]), run[1..], x);
    }
  }

  /**
   * Over every run with overlapping flushes, connection flips and any answers: a queued POST is sent again after a send
   * that may have run if and only if some call of it repeats itself through a misrouted answer, or sends after an
   * earlier call had a send that may have run.
   */
  lemma {:induction false} QueuedPostRepeatsExactly(c: Config, run: seq<Step>, x: nat)
    requires Runs(c, START, run) && c.isPost(x)
    ensures Retry.RepeatsARun(SendsOf(End(c, START, run).log, x)) <==> SomeStepSendsAgain(c, START, run, x)
  {
    RunRepeats(c, START, run, x);
  }

  lemma {:induction false} NoCallNoSend(c: Config, w: World, run: seq<Step>, x: nat)
    requires Runs(c, w, run) && (x !in w.calls ==> SendsOf(w.log, x) == [])
    ensures x !in End(c, w, run).calls ==> SendsOf(End(c, w, run).log, x) == []
    decreases run
  {
    if run != [] {
      StepLogs(c, w, run[0], x);
      NoCallNoSend(c, Next(c, w, run[0]), run[1..], x);
    }
  }

  /**
   * And a later call only comes from a flush that failed while offline: when a request that has sent before is called,
   * it has been put back exactly as often as it was called, at least once.
   */
  lemma {:induction false} LaterCallWasPutBack(c: Config, run: seq<Step>, i: nat, envs: nat -> Retry.Env)
    requires Runs(c, START, run) && Enabled(End(c, START, run), Call(i, envs))
    ensures var w := End(c, START, run);
            var x := Head(w.q, i);
            && OfflineQueue.Count(w.backs, x) == OfflineQueue.Count(w.calls, x)
            && (SendsOf(w.log, x) != [] ==> OfflineQueue.Count(w.backs, x) >= 1)
  {
    var w := End(c, START, run);
    var x := Head(w.q, i);
    CallsAreAccounted(c, run, x);
    StartInv();
    RunKeepsInv(c, START, run);
    HeadWaits(w, i);
    HeadIsAccepted(w, i);
    NoCallNoSend(c, START, run, x);
    OfflineQueue.CountIn(w.calls, x);
  }

  lemma {:induction false} HeadWaits(w: World, i: nat)
    requires Inv(w) && Waiting(w.q, i) && i !in w.ended
    ensures ToCall(w, Head(w.q, i)) >= 1
  {
    var f := w.q.flushes[i];
    UncalledHas(w.q.flushes, w.ended.Keys, 0, i, Head(w.q, i));
    CalledHead(f, Head(w.q, i));
  }

  lemma {:induction false} UncalledHas(flushes: seq<OfflineQueue.Flush>, ended: set<nat>, k: nat, i: nat, x: nat)
    requires k <= i < |flushes|
    ensures CountUncalled(flushes, ended, k, x) >= OfflineQueue.Count(Uncalled(flushes[i], i in ended), x)
    decreases i - k
  {
    if k < i { UncalledHas(flushes, ended, k + 1, i, x); }
  }

  lemma {:induction false} HeadIsAccepted(w: World, i: nat)
    requires Inv(w) && Waiting(w.q, i) && i !in w.ended
    ensures Head(w.q, i) in w.q.accepted
  {
    var x := Head(w.q, i);
    HeadWaits(w, i);
    UncalledAreTails(w.q.flushes, w.ended.Keys, 0, x);
    assert w.q.flushes[0..] == w.q.flushes;
    assert OfflineQueue.Places(w.q, x) == OfflineQueue.Count(w.q.accepted, x);
    OfflineQueue.CountIn(w.q.accepted, x);
  }

  /** At most `per` sends for each call of `x`. */
  ghost predicate BoundedPerCall(w: World, x: nat, per: nat) {
    |SendsOf(w.log, x)| <= per * OfflineQueue.Count(w.calls, x)
  }

  lemma {:induction false} SendsPerCall(c: Config, w: World, run: seq<Step>, x: nat)
    requires Runs(c, w, run) && BoundedPerCall(w, x, 2 * (c.maxRetries + 1))
    ensures BoundedPerCall(End(c, w, run), x, 2 * (c.maxRetries + 1))
    decreases run
  {
    if run != [] {
      StepSendsPerCall(c, w, run[0], x);
      SendsPerCall(c, Next(c, w, run[0]), run[1..], x);
    }
  }

  lemma {:induction false} StepSendsPerCall(c: Config, w: World, step: Step, x: nat)
    requires Enabled(w, step) && BoundedPerCall(w, x, 2 * (c.maxRetries + 1))
    ensures BoundedPerCall(Next(c, w, step), x, 2 * (c.maxRetries + 1))
  {
    StepLogs(c, w, step, x);
    if step.Call? {
      CallIsCounted(w.calls, Head(w.q, step.flush), x);
      if Head(w.q, step.flush) == x {
        Retry.SendsAreBounded(step.envs, !c.isPost(x), 0, c.maxRetries);
        OneMore(2 * (c.maxRetries + 1), OfflineQueue.Count(w.calls, x), |SendsOf(w.log, x)|, |Sends(c, x, step.envs)|);
      }
    }
  }

  lemma {:induction false} CallIsCounted(calls: seq<nat>, request: nat, x: nat)
    ensures OfflineQueue.Count(calls + [request], x) == OfflineQueue.Count(calls, x) + if request == x then 1 else 0
  {
    OfflineQueue.CountConcat(calls, [request], x);
    assert [request][1..] == [];
  }

  /** A queued request makes at most 2 (maxRetries + 1) sends, and as many again each time it is put back. */
  lemma {:induction false} QueuedSendsAreBounded(c: Config, run: seq<Step>, x: nat)
    requires Runs(c, START, run)
    ensures var w := End(c, START, run);
            |SendsOf(w.log, x)| <= 2 * (c.maxRetries + 1) * (1 + OfflineQueue.Count(w.backs, x))
  {
    var w := End(c, START, run);
    SendsPerCall(c, START, run, x);
    CallsAreAccounted(c, run, x);
    MoreCalls(2 * (c.maxRetries + 1), OfflineQueue.Count(w.calls, x), 1 + OfflineQueue.Count(w.backs, x));
  }

  lemma {:induction false} MoreCalls(a: nat, n: nat, m: nat)
    requires n <= m
    ensures a * n <= a * m
  {
  }

  lemma {:induction false} OneMore(per: nat, n: nat, before: nat, more: nat)
    requires before <= per * n && more <= per
    ensures before + more <= per * (n + 1)
  {
  }

  // ---------------------------------------------------------------------------
  // A POST sent again after its answer was lost
  // ---------------------------------------------------------------------------

  lemma {:induction false} FirstStep(c: Config, w: World, step: Step, next: World, run: seq<Step>)
    requires Enabled(w, step) && Next(c, w, step) == next && Runs(c, next, run)
    ensures Runs(c, w, [step] + run) && End(c, w, [step] + run) == End(c, next, run)
  {
    assert ([step] + run)[1..] == run;
  }

  /** One request whose only send ends in `answer`. */
  function OneAnswer(answer: Retry.Answer): nat -> Retry.Env {
    _ => Retry.Env(None, None, answer, true, Retry.SameBase, Retry.NoCode, false, false, false, None)
  }

  const LOST := Retry.Send(Retry.Lost, false)
  const DONE := Retry.Send(Retry.Response(200, false), false)

  lemma {:induction false} LostThenDone(maxRetries: nat)
    ensures Retry.Execute(OneAnswer(Retry.Lost), false, 0, maxRetries) == ([LOST], Retry.Threw(Retry.Error(Retry.Network, true)))
    ensures Retry.Execute(OneAnswer(Retry.Response(200, false)), false, 0, maxRetries) == ([DONE], Retry.Succeeded)
  {
  }

  /** Queue a POST, flush it, lose the answer, put it back, and flush again when online. */
  const LOST_AND_SENT_AGAIN: seq<Step> :=
    [Queue(1)] + ([Status(OfflineQueue.Online)] + ([Call(0, OneAnswer(Retry.Lost))] + ([Resume(0)]
    + ([Status(OfflineQueue.Online)] + ([Call(1, OneAnswer(Retry.Response(200, false)))] + [])))))

  /** No answer looked misrouted and no other base was found, and the POST is sent twice. */
  lemma {:induction false} LostPostIsSentAgain(c: Config)
    requires c.maxSize >= 1 && c.isPost(1)
    ensures Runs(c, START, LOST_AND_SENT_AGAIN)
    ensures SendsOf(End(c, START, LOST_AND_SENT_AGAIN).log, 1) == [LOST, DONE]
    ensures Retry.RepeatsARun(SendsOf(End(c, START, LOST_AND_SENT_AGAIN).log, 1))
  {
    var lost, done := OneAnswer(Retry.Lost), OneAnswer(Retry.Response(200, false));
    var f0, f1 := OfflineQueue.Flush([1], 0), OfflineQueue.Flush([1], 1);
    var w1 := World(OfflineQueue.State([1], OfflineQueue.Offline, [], [], [1]), map[], [], [], []);
    var w2 := World(OfflineQueue.State([], OfflineQueue.Online, [f0], [], [1]), map[], [], [], []);
    var w3 := World(OfflineQueue.State([], OfflineQueue.Offline, [f0], [], [1]), map[0 := false], [1], [], [Sent(1, LOST)]);
    var w4 := World(OfflineQueue.State([1], OfflineQueue.Offline, [f1], [], [1]), map[], [1], [1], [Sent(1, LOST)]);
    var w5 := World(OfflineQueue.State([], OfflineQueue.Online, [f1, f0], [], [1]), map[], [1], [1], [Sent(1, LOST)]);
    var w6 := Next(c, w5, Call(1, done));
    LostThenDone(c.maxRetries);
    LostIsPutBack(c, w3, w4);
    assert [Sent(1, LOST)][1..] == [] && Tagged(1, [LOST]) == [Sent(1, LOST)] && Tagged(1, [DONE]) == [Sent(1, DONE)];
    FirstStep(c, w5, Call(1, done), w6, []);
    FirstStep(c, w4, Status(OfflineQueue.Online), w5, [Call(1, done)] + []);
    FirstStep(c, w3, Resume(0), w4, [Status(OfflineQueue.Online)] + ([Call(1, done)] + []));
    FirstStep(c, w2, Call(0, lost), w3, [Resume(0)] + ([Status(OfflineQueue.Online)] + ([Call(1, done)] + [])));
    FirstStep(c, w1, Status(OfflineQueue.Online), w2,
      [Call(0, lost)] + ([Resume(0)] + ([Status(OfflineQueue.Online)] + ([Call(1, done)] + []))));
    FirstStep(c, START, Queue(1), w1,
      [Status(OfflineQueue.Online)] + ([Call(0, lost)] + ([Resume(0)] + ([Status(OfflineQueue.Online)] + ([Call(1, done)] + [])))));
    BothLogged(w6);
  }

  lemma {:induction false} LostIsPutBack(c: Config, w: World, next: World)
    requires w == World(OfflineQueue.State([], OfflineQueue.Offline, [OfflineQueue.Flush([1], 0)], [], [1]),
                        map[0 := false], [1], [], [Sent(1, LOST)])
    requires next == World(OfflineQueue.State([1], OfflineQueue.Offline, [OfflineQueue.Flush([1], 1)], [], [1]),
                           map[], [1], [1], [Sent(1, LOST)])
    ensures Enabled(w, Resume(0)) && Next(c, w, Resume(0)) == next
  {
    OfflineQueue.FailedOffline(c.maxSize, w.q, 0);
    assert w.ended - {0} == map[] && OfflineQueue.Tail(OfflineQueue.Flush([1], 0)) == [1];
  }

  lemma {:induction false} BothLogged(w: World)
    requires w.log == [Sent(1, LOST)] + [Sent(1, DONE)]
    ensures SendsOf(w.log, 1) == [LOST, DONE] && Retry.RepeatsARun(SendsOf(w.log, 1))
  {
    SendsOfConcat([Sent(1, LOST)], [Sent(1, DONE)], 1);
    assert [Sent(1, LOST)][1..] == [] && [Sent(1, DONE)][1..] == [];
    assert SendsOf([Sent(1, LOST)], 1) == [LOST] && SendsOf([Sent(1, DONE)], 1) == [DONE];
    assert Retry.MayHaveRun([LOST, DONE][0].answer);
  }
}
