/** The offline queue of the API client: no accepted request is lost, duplicated or settled twice. */
module OfflineQueue {

  datatype Status = Online | Offline | Degraded

  /** A flush suspended in its loop: `batch[pos]` is the request it is waiting for. */
  datatype Flush = Flush(batch: seq<nat>, pos: nat)

  /** Requests are objects; a number stands for one. `accepted` lists those `queueRequest` took. */
  datatype State = State(
    queue: seq<nat>, status: Status, flushes: seq<Flush>, settled: seq<nat>, accepted: seq<nat>)

  const START := State([], Offline, [], [], [])

  datatype Step =
    | QueueRequest(request: nat)
    | SetStatus(status: Status)          // by any request, health check or initialisation
    | Resolved(flush: nat)               // the awaited request succeeded
    | Failed(flush: nat)                 // it failed; what follows depends on the status at the catch

  function Tail(f: Flush): seq<nat> {
    if f.pos < |f.batch| then f.batch[f.pos..] else []
  }

  /** `indexOf`: the first position of `x`, or -1. */
  function IndexOf(xs: seq<nat>, x: nat): (i: int)
    ensures -1 <= i < |xs|
    ensures i >= 0 ==> xs[i] == x && x !in xs[..i]
    ensures i < 0 ==> x !in xs
  {
    if xs == [] then -1
    else if xs[0] == x then 0
    else
      var rest := IndexOf(xs[1..], x);
      assert xs == [xs[0]] + xs[1..];
      if rest < 0 then -1 else
        assert xs[..rest + 1] == [xs[0]] + xs[1..][..rest];
        rest + 1
  }

  predicate Enabled(s: State, step: Step) {
    match step
    case QueueRequest(r) => r !in s.accepted
    case SetStatus(_) => true
    case Resolved(i) => i < |s.flushes| && s.flushes[i].pos < |s.flushes[i].batch|
    case Failed(i) => i < |s.flushes| && s.flushes[i].pos < |s.flushes[i].batch|
  }

  function Settle(s: State, i: nat): State
    requires i < |s.flushes| && s.flushes[i].pos < |s.flushes[i].batch|
  {
    var f := s.flushes[i];
    s.(flushes := s.flushes[i := f.(pos := f.pos + 1)], settled := s.settled + [f.batch[f.pos]])
  }

  function Next(maxSize: nat, s: State, step: Step): State
    requires Enabled(s, step)
  {
    match step
    case QueueRequest(r) =>
      if |s.queue| >= maxSize then s else s.(queue := s.queue + [r], accepted := s.accepted + [r])
    case SetStatus(status) =>
      if status == s.status then s
      else if status != Online then s.(status := status)
      else s.(status := status, queue := [], flushes := s.flushes + [Flush(s.queue, 0)])
    case Resolved(i) => Settle(s, i)
    case Failed(i) =>
      var f := s.flushes[i];
      if s.status != Offline then Settle(s, i)
      else
        var request := f.batch[f.pos];
        s.(queue := s.queue + [request] + f.batch[IndexOf(f.batch, request) + 1..],
           flushes := s.flushes[i := f.(pos := |f.batch|)])
  }

  // ---------------------------------------------------------------------------
  // Conservation
  // ---------------------------------------------------------------------------

  function Tails(flushes: seq<Flush>): seq<nat> {
    if flushes == [] then [] else Tail(flushes[0]) + Tails(flushes[1..])
  }

  function Count(xs: seq<nat>, x: nat): nat {
    if xs == [] then 0 else (if xs[0] == x then 1 else 0) + Count(xs[1..], x)
  }

  /** In how many places request `x` is. */
  function Places(s: State, x: nat): nat {
    Count(s.queue, x) + Count(Tails(s.flushes), x) + Count(s.settled, x)
  }

  predicate NoRepeats(xs: seq<nat>) {
    forall i, j :: 0 <= i < j < |xs| ==> xs[i] != xs[j]
  }

  /** A step changes the places of `x` by as much as it changes the times `x` was accepted. */
  ghost predicate Moves(s: State, s': State, x: nat) {
    Places(s', x) + Count(s.accepted, x) == Places(s, x) + Count(s'.accepted, x)
  }

  ghost predicate Conserved(s: State) {
    && NoRepeats(s.accepted)
    && (forall x :: Places(s, x) == Count(s.accepted, x))
    && (forall i :: 0 <= i < |s.flushes| ==> NoRepeats(s.flushes[i].batch) && s.flushes[i].pos <= |s.flushes[i].batch|)
  }

  lemma {:induction false} CountConcat(a: seq<nat>, b: seq<nat>, x: nat)
    ensures Count(a + b, x) == Count(a, x) + Count(b, x)
  {
    if a == [] {
      assert a + b == b;
    } else {
      CountConcat(a[1..], b, x);
      assert (a + b)[1..] == a[1..] + b;
    }
  }

  lemma {:induction false} CountIn(xs: seq<nat>, x: nat)
    ensures Count(xs, x) > 0 <==> x in xs
    ensures NoRepeats(xs) ==> Count(xs, x) <= 1
  {
    if xs != [] {
      CountIn(xs[1..], x);
      assert xs == [xs[0]] + xs[1..];
    }
  }

  lemma {:induction false} CountsNoRepeats(xs: seq<nat>)
    requires forall x :: Count(xs, x) <= 1
    ensures NoRepeats(xs)
  {
    if xs != [] {
      forall x
        ensures Count(xs[1..], x) <= 1
      {
        assert Count(xs, x) <= 1;
      }
      CountsNoRepeats(xs[1..]);
      assert Count(xs, xs[0]) <= 1;
      CountIn(xs[1..], xs[0]);
      assert xs == [xs[0]] + xs[1..];
    }
  }

  lemma {:induction false} TailsSplit(flushes: seq<Flush>, x: nat)
    requires flushes != []
    ensures Count(Tails(flushes), x) == Count(Tail(flushes[0]), x) + Count(Tails(flushes[1..]), x)
  {
    CountConcat(Tail(flushes[0]), Tails(flushes[1..]), x);
  }

  lemma {:induction false} TailsUpdate(flushes: seq<Flush>, i: nat, f: Flush, x: nat)
    requires i < |flushes|
    ensures Count(Tails(flushes[i := f]), x) + Count(Tail(flushes[i]), x) == Count(Tails(flushes), x) + Count(Tail(f), x)
  {
    var after := flushes[i := f];
    TailsSplit(flushes, x);
    TailsSplit(after, x);
    if i == 0 {
      UpdateFirst(flushes, f);
    } else {
      TailsUpdate(flushes[1..], i - 1, f, x);
      UpdateRest(flushes, i, f);
    }
  }

  lemma {:induction false} UpdateFirst(flushes: seq<Flush>, f: Flush)
    requires flushes != []
    ensures flushes[0 := f][1..] == flushes[1..] && flushes[0 := f][0] == f
  {
  }

  lemma {:induction false} UpdateRest(flushes: seq<Flush>, i: nat, f: Flush)
    requires 0 < i < |flushes|
    ensures flushes[i := f][1..] == flushes[1..][i - 1 := f] && flushes[i := f][0] == flushes[0]
  {
  }

  lemma {:induction false} TailsAppend(flushes: seq<Flush>, f: Flush, x: nat)
    ensures Count(Tails(flushes + [f]), x) == Count(Tails(flushes), x) + Count(Tail(f), x)
  {
    var after := flushes + [f];
    TailsSplit(after, x);
    if flushes == [] {
      assert after[1..] == [];
    } else {
      TailsSplit(flushes, x);
      TailsAppend(flushes[1..], f, x);
      assert after[1..] == flushes[1..] + [f];
    }
  }

  lemma {:induction false} IndexOfDistinct(xs: seq<nat>, i: nat)
    requires NoRepeats(xs) && i < |xs|
    ensures IndexOf(xs, xs[i]) == i
  {
    assert IndexOf(xs, xs[i]) >= 0 && xs[IndexOf(xs, xs[i])] == xs[i];
  }

  lemma {:induction false} TailShrinks(f: Flush, x: nat)
    requires f.pos < |f.batch|
    ensures Count(Tail(f), x) == Count([f.batch[f.pos]], x) + Count(Tail(f.(pos := f.pos + 1)), x)
  {
    assert Tail(f) == [f.batch[f.pos]] + Tail(f.(pos := f.pos + 1));
    CountConcat([f.batch[f.pos]], Tail(f.(pos := f.pos + 1)), x);
  }

  lemma {:induction false} SettleCounts(s: State, i: nat, x: nat)
    requires i < |s.flushes| && s.flushes[i].pos < |s.flushes[i].batch|
    ensures Places(Settle(s, i), x) == Places(s, x)
  {
    var f := s.flushes[i];
    TailsUpdate(s.flushes, i, f.(pos := f.pos + 1), x);
    TailShrinks(f, x);
    CountConcat(s.settled, [f.batch[f.pos]], x);
  }

  lemma {:induction false} RequeueCounts(s: State, i: nat, x: nat)
    requires i < |s.flushes| && s.flushes[i].pos < |s.flushes[i].batch|
    ensures var f := s.flushes[i];
            Places(s.(queue := s.queue + Tail(f), flushes := s.flushes[i := f.(pos := |f.batch|)]), x) == Places(s, x)
  {
    var f := s.flushes[i];
    TailsUpdate(s.flushes, i, f.(pos := |f.batch|), x);
    CountConcat(s.queue, Tail(f), x);
  }

  /** Failing offline puts back exactly the unprocessed tail: `indexOf` finds the request being processed. */
  lemma {:induction false} FailedOffline(maxSize: nat, s: State, i: nat)
    requires Enabled(s, Failed(i)) && s.status == Offline && NoRepeats(s.flushes[i].batch)
    ensures var f := s.flushes[i];
            Next(maxSize, s, Failed(i))
            == s.(queue := s.queue + Tail(f), flushes := s.flushes[i := f.(pos := |f.batch|)])
  {
    var f := s.flushes[i];
    IndexOfDistinct(f.batch, f.pos);
    assert Tail(f) == [f.batch[f.pos]] + f.batch[f.pos + 1..];
    assert s.queue + [f.batch[f.pos]] + f.batch[f.pos + 1..] == s.queue + Tail(f);
  }

  lemma {:induction false} FlushCounts(s: State, x: nat)
    ensures Count([], x) + Count(Tails(s.flushes + [Flush(s.queue, 0)]), x)
            == Count(s.queue, x) + Count(Tails(s.flushes), x)
  {
    TailsAppend(s.flushes, Flush(s.queue, 0), x);
    assert Tail(Flush(s.queue, 0)) == s.queue;
  }

  lemma {:induction false} StepCounts(maxSize: nat, s: State, step: Step, x: nat)
    requires Conserved(s) && Enabled(s, step)
    ensures Moves(s, Next(maxSize, s, step), x)
  {
    match step {
      case QueueRequest(r) => QueuedCounts(maxSize, s, r, x);
      case SetStatus(status) => FlushCounts(s, x);
      case Resolved(i) => SettleCounts(s, i, x);
      case Failed(i) => FailedCounts(maxSize, s, i, x);
    }
  }

  lemma {:induction false} QueuedCounts(maxSize: nat, s: State, r: nat, x: nat)
    requires Enabled(s, QueueRequest(r))
    ensures Moves(s, Next(maxSize, s, QueueRequest(r)), x)
  {
    CountConcat(s.queue, [r], x);
    CountConcat(s.accepted, [r], x);
  }

  lemma {:induction false} FailedCounts(maxSize: nat, s: State, i: nat, x: nat)
    requires Conserved(s) && Enabled(s, Failed(i))
    ensures Moves(s, Next(maxSize, s, Failed(i)), x)
  {
    if s.status == Offline {
      FailedOffline(maxSize, s, i);
      RequeueCounts(s, i, x);
    } else {
      SettleCounts(s, i, x);
    }
  }

  lemma {:induction false} QueueHasNoRepeats(s: State)
    requires Conserved(s)
    ensures NoRepeats(s.queue)
  {
    forall x
      ensures Count(s.queue, x) <= 1
    {
      assert Places(s, x) == Count(s.accepted, x);
      CountIn(s.accepted, x);
    }
    CountsNoRepeats(s.queue);
  }

  lemma {:induction false} StepConserves(maxSize: nat, s: State, step: Step)
    requires Conserved(s) && Enabled(s, step)
    ensures Conserved(Next(maxSize, s, step))
  {
    QueueHasNoRepeats(s);
    forall x
      ensures Places(Next(maxSize, s, step), x) == Count(Next(maxSize, s, step).accepted, x)
    {
      StepCounts(maxSize, s, step, x);
      assert Places(s, x) == Count(s.accepted, x);
    }
  }

  ghost predicate Runs(maxSize: nat, s: State, run: seq<Step>)
    decreases run
  {
    run != [] ==> Enabled(s, run[0]) && Runs(maxSize, Next(maxSize, s, run[0]), run[1..])
  }

  ghost function End(maxSize: nat, s: State, run: seq<Step>): State
    requires Runs(maxSize, s, run)
    decreases run
  {
    if run == [] then s else End(maxSize, Next(maxSize, s, run[0]), run[1..])
  }

  lemma {:induction false} RunConserves(maxSize: nat, s: State, run: seq<Step>)
    requires Conserved(s) && Runs(maxSize, s, run)
    ensures Conserved(End(maxSize, s, run))
    decreases run
  {
    if run != [] {
      StepConserves(maxSize, s, run[0]);
      RunConserves(maxSize, Next(maxSize, s, run[0]), run[1..]);
    }
  }

  /**
   * Queue conservation. After any run with overlapping flushes and connection flips, each accepted request is
   * in exactly one place, the queue, the unprocessed tail of a flush, or settled, and there only once.
   */
  lemma {:induction false} EachRequestInOnePlace(maxSize: nat, run: seq<Step>, x: nat)
    requires Runs(maxSize, START, run)
    ensures var s := End(maxSize, START, run);
            && Count(s.queue, x) + Count(Tails(s.flushes), x) + Count(s.settled, x) == (if x in s.accepted then 1 else 0)
            && (x in s.settled ==> x in s.accepted && x !in s.queue && x !in Tails(s.flushes))
  {
    RunConserves(maxSize, START, run);
    var s := End(maxSize, START, run);
    assert Places(s, x) == Count(s.accepted, x);
    CountIn(s.accepted, x);
    CountIn(s.settled, x);
    CountIn(s.queue, x);
    CountIn(Tails(s.flushes), x);
  }

  /** Settling and acceptance are final. */
  lemma {:induction false} SettledStays(maxSize: nat, s: State, run: seq<Step>)
    requires Runs(maxSize, s, run)
    ensures s.settled <= End(maxSize, s, run).settled && s.accepted <= End(maxSize, s, run).accepted
    decreases run
  {
    if run != [] {
      SettledStays(maxSize, Next(maxSize, s, run[0]), run[1..]);
    }
  }

  // ---------------------------------------------------------------------------
  // What is not kept
  // ---------------------------------------------------------------------------

  /** Putting a flush back keeps the size cap exactly when the queue has room for the whole unprocessed tail. */
  lemma {:induction false} RequeueKeepsCapExactly(maxSize: nat, s: State, i: nat)
    requires Enabled(s, Failed(i)) && s.status == Offline && NoRepeats(s.flushes[i].batch)
    ensures |Next(maxSize, s, Failed(i)).queue| <= maxSize <==> |s.queue| + |Tail(s.flushes[i])| <= maxSize
  {
    FailedOffline(maxSize, s, i);
  }

  predicate Earlier(accepted: seq<nat>, x: nat, y: nat) {
    IndexOf(accepted, x) < IndexOf(accepted, y)
  }

  /** The requests stand in the order in which they were accepted. */
  ghost predicate InOrder(xs: seq<nat>, accepted: seq<nat>) {
    forall i, j :: 0 <= i < j < |xs| ==> Earlier(accepted, xs[i], xs[j])
  }

  lemma {:induction false} InOrderConcat(a: seq<nat>, b: seq<nat>, accepted: seq<nat>)
    requires b != []
    ensures InOrder(a + b, accepted)
            <==> InOrder(a, accepted) && InOrder(b, accepted) && forall x :: x in a ==> Earlier(accepted, x, b[0])
  {
    var all := a + b;
    if InOrder(all, accepted) {
      assert forall i :: 0 <= i < |a| ==> all[i] == a[i];
      assert forall j :: 0 <= j < |b| ==> all[|a| + j] == b[j];
      forall x | x in a
        ensures Earlier(accepted, x, b[0])
      {
        var i :| 0 <= i < |a| && a[i] == x;
        assert Earlier(accepted, all[i], all[|a|]);
      }
      forall i, j | 0 <= i < j < |b|
        ensures Earlier(accepted, b[i], b[j])
      {
        assert Earlier(accepted, all[|a| + i], all[|a| + j]);
      }
    }
    if InOrder(a, accepted) && InOrder(b, accepted) && (forall x :: x in a ==> Earlier(accepted, x, b[0])) {
      forall i, j | 0 <= i < j < |all|
        ensures Earlier(accepted, all[i], all[j])
      {
        if i < |a| && |a| <= j {
          assert a[i] in a && Earlier(accepted, a[i], b[0]);
          assert j == |a| || Earlier(accepted, b[0], b[j - |a|]);
        }
      }
    }
  }

  /**
   * Putting a flush back leaves the queue in the order of acceptance exactly when queue and tail were, and nothing in
   * the queue was accepted after the request being put back first.
   */
  lemma {:induction false} RequeueKeepsOrderExactly(maxSize: nat, s: State, i: nat)
    requires Enabled(s, Failed(i)) && s.status == Offline && NoRepeats(s.flushes[i].batch)
    ensures var tail := Tail(s.flushes[i]);
            && tail != []
            && (InOrder(Next(maxSize, s, Failed(i)).queue, s.accepted)
                <==> InOrder(s.queue, s.accepted) && InOrder(tail, s.accepted)
                     && forall x :: x in s.queue ==> Earlier(s.accepted, x, tail[0]))
  {
    FailedOffline(maxSize, s, i);
    InOrderConcat(s.queue, Tail(s.flushes[i]), s.accepted);
  }

  // ---------------------------------------------------------------------------
  // What each step does, and the order it keeps
  // ---------------------------------------------------------------------------

  /** A request is taken exactly when there is room, and then waits last. */
  lemma {:induction false} QueuedExactly(maxSize: nat, s: State, r: nat)
    requires Enabled(s, QueueRequest(r))
    ensures var after := Next(maxSize, s, QueueRequest(r));
            && (r in after.accepted <==> |s.queue| < maxSize)
            && (r in after.accepted ==>
                  && |after.queue| == |s.queue| + 1 && after.queue[|s.queue|] == r && after.queue[..|s.queue|] == s.queue
                  && after.accepted == s.accepted + [r])
            && (r !in after.accepted ==> after == s)
            && after.flushes == s.flushes && after.settled == s.settled && after.status == s.status
  {
  }

  /** Everything that waits, in the order of flushes and places. */
  function Waiting(s: State): seq<nat> { Tails(s.flushes) + s.queue }

  /** Waiting requests stand in the order in which they were accepted. */
  ghost predicate Orderly(s: State) {
    InTurn(Waiting(s), s.accepted)
  }

  lemma {:induction false} IndexOfLonger(xs: seq<nat>, r: nat, x: nat)
    requires r !in xs
    ensures x in xs ==> IndexOf(xs + [r], x) == IndexOf(xs, x)
    ensures IndexOf(xs + [r], r) == |xs|
  {
    if xs != [] {
      IndexOfLonger(xs[1..], r, x);
      assert (xs + [r])[1..] == xs[1..] + [r];
    }
  }

  lemma {:induction false} AcceptedStaysInOrder(xs: seq<nat>, accepted: seq<nat>, r: nat)
    requires InOrder(xs, accepted) && (forall x :: x in xs ==> x in accepted) && r !in accepted
    ensures InOrder(xs + [r], accepted + [r])
  {
    var all := xs + [r];
    forall i, j | 0 <= i < j < |all|
      ensures Earlier(accepted + [r], all[i], all[j])
    {
      assert all[i] == xs[i] && xs[i] in accepted;
      IndexOfLonger(accepted, r, all[i]);
      if j < |xs| {
        assert all[j] == xs[j] && xs[j] in accepted && Earlier(accepted, xs[i], xs[j]);
        IndexOfLonger(accepted, r, all[j]);
      }
    }
  }

  /** The tails with the head of one flush taken out. */
  lemma {:induction false} TailsDrop(flushes: seq<Flush>, i: nat) returns (a: seq<nat>, b: seq<nat>)
    requires i < |flushes| && flushes[i].pos < |flushes[i].batch|
    ensures var f := flushes[i];
            && Tails(flushes) == a + [f.batch[f.pos]] + b
            && Tails(flushes[i := f.(pos := f.pos + 1)]) == a + b
  {
    var f := flushes[i];
    var after := f.(pos := f.pos + 1);
    if i == 0 {
      a, b := [], Tail(after) + Tails(flushes[1..]);
      UpdateFirst(flushes, after);
      TailBegins(f);
      Regroup([f.batch[f.pos]], Tail(after), Tails(flushes[1..]));
    } else {
      var a', b' := TailsDrop(flushes[1..], i - 1);
      a, b := Tail(flushes[0]) + a', b';
      UpdateRest(flushes, i, after);
      Regroup(Tail(flushes[0]), a', b');
      Regroup(Tail(flushes[0]), a' + [f.batch[f.pos]], b');
      Regroup(Tail(flushes[0]), a', [f.batch[f.pos]]);
    }
  }

  lemma {:induction false} TailBegins(f: Flush)
    requires f.pos < |f.batch|
    ensures Tail(f) == [f.batch[f.pos]] + Tail(f.(pos := f.pos + 1))
  {
  }

  lemma {:induction false} Regroup(a: seq<nat>, b: seq<nat>, c: seq<nat>)
    ensures a + (b + c) == (a + b) + c && [] + a == a
  {
  }

  /** In the order of acceptance, and all accepted. */
  ghost predicate InTurn(xs: seq<nat>, accepted: seq<nat>) {
    InOrder(xs, accepted) && forall x :: x in xs ==> x in accepted
  }

  lemma {:induction false} WithoutOneInTurn(a: seq<nat>, x: nat, b: seq<nat>, accepted: seq<nat>)
    requires InTurn(a + [x] + b, accepted)
    ensures InTurn(a + b, accepted)
  {
    var all, rest := a + [x] + b, a + b;
    forall i, j | 0 <= i < j < |rest|
      ensures Earlier(accepted, rest[i], rest[j])
    {
      var i', j' := if i < |a| then i else i + 1, if j < |a| then j else j + 1;
      assert all[i'] == rest[i] && all[j'] == rest[j];
    }
    forall y | y in rest
      ensures y in accepted
    {
      var i :| 0 <= i < |rest| && rest[i] == y;
      assert all[if i < |a| then i else i + 1] == y && y in all;
    }
  }

  lemma {:induction false} SettleKeepsOrder(s: State, i: nat)
    requires Orderly(s) && i < |s.flushes| && s.flushes[i].pos < |s.flushes[i].batch|
    ensures Orderly(Settle(s, i))
  {
    var f := s.flushes[i];
    var a, b := TailsDrop(s.flushes, i);
    Regroup(a + [f.batch[f.pos]], b, s.queue);
    Regroup(a, b, s.queue);
    assert Waiting(s) == a + [f.batch[f.pos]] + (b + s.queue) && Waiting(Settle(s, i)) == a + (b + s.queue);
    WithoutOneInTurn(a, f.batch[f.pos], b + s.queue, s.accepted);
  }

  lemma {:induction false} TailsOfMore(flushes: seq<Flush>, f: Flush)
    ensures Tails(flushes + [f]) == Tails(flushes) + Tail(f)
  {
    if flushes == [] {
      assert [f][1..] == [] && Tail(f) + [] == Tail(f);
    } else {
      TailsOfMore(flushes[1..], f);
      assert (flushes + [f])[1..] == flushes[1..] + [f];
    }
  }

  /** The step does not put a flush back. */
  predicate PutsNothingBack(s: State, step: Step) {
    step.Failed? ==> s.status != Offline
  }

  lemma {:induction false} StepKeepsOrder(maxSize: nat, s: State, step: Step)
    requires Orderly(s) && Enabled(s, step) && PutsNothingBack(s, step)
    ensures Orderly(Next(maxSize, s, step))
  {
    match step {
      case QueueRequest(r) =>
        AcceptedStaysInOrder(Waiting(s), s.accepted, r);
        assert Tails(s.flushes) + (s.queue + [r]) == Waiting(s) + [r];
      case SetStatus(status) =>
        TailsOfMore(s.flushes, Flush(s.queue, 0));
        assert Waiting(s) + [] == Waiting(s);
      case Resolved(i) => SettleKeepsOrder(s, i);
      case Failed(i) => SettleKeepsOrder(s, i);
    }
  }

  ghost predicate NeverPutsBack(maxSize: nat, s: State, run: seq<Step>)
    requires Runs(maxSize, s, run)
    decreases run
  {
    run != [] ==> PutsNothingBack(s, run[0]) && NeverPutsBack(maxSize, Next(maxSize, s, run[0]), run[1..])
  }

  /** First come, first served: while no flush is put back, what waits is in the order of acceptance. */
  lemma {:induction false} OrderIsKept(maxSize: nat, s: State, run: seq<Step>)
    requires Orderly(s) && Runs(maxSize, s, run) && NeverPutsBack(maxSize, s, run)
    ensures Orderly(End(maxSize, s, run))
    decreases run
  {
    if run != [] {
      StepKeepsOrder(maxSize, s, run[0]);
      OrderIsKept(maxSize, Next(maxSize, s, run[0]), run[1..]);
    }
  }

  lemma {:induction false} FirstStep(maxSize: nat, s: State, step: Step, next: State, run: seq<Step>)
    requires Enabled(s, step) && Next(maxSize, s, step) == next && Runs(maxSize, next, run)
    ensures Runs(maxSize, s, [step] + run) && End(maxSize, s, [step] + run) == End(maxSize, next, run)
  {
    assert ([step] + run)[1..] == run;
  }

  lemma {:induction false} PutBackBehind()
    ensures var s := State([2], Offline, [Flush([1], 0)], [], [1, 2]);
            && Enabled(s, Failed(0))
            && Next(1, s, Failed(0)) == State([2, 1], Offline, [Flush([1], 1)], [], [1, 2])
  {
    IndexOfDistinct([1], 0);
    assert [1][1..] == [];
    assert [2] + [1] + [] == [2, 1];
  }

  const OVERTAKE: seq<Step> :=
    [QueueRequest(1)] + ([SetStatus(Online)] + ([SetStatus(Offline)] + ([QueueRequest(2)] + ([Failed(0)] + []))))

  /** Re-queueing keeps neither the size cap nor the order of acceptance. */
  lemma {:induction false} RequeueOvertakes()
    ensures Runs(1, START, OVERTAKE)
    ensures End(1, START, OVERTAKE).accepted == [1, 2] && End(1, START, OVERTAKE).queue == [2, 1]
  {
    var queued := State([1], Offline, [], [], [1]);
    var flushing := State([], Online, [Flush([1], 0)], [], [1]);
    var dropped := State([], Offline, [Flush([1], 0)], [], [1]);
    var second := State([2], Offline, [Flush([1], 0)], [], [1, 2]);
    var last := State([2, 1], Offline, [Flush([1], 1)], [], [1, 2]);
    assert [1] + [2] == [1, 2];
    PutBackBehind();
    FirstStep(1, second, Failed(0), last, []);
    FirstStep(1, dropped, QueueRequest(2), second, [Failed(0)] + []);
    FirstStep(1, flushing, SetStatus(Offline), dropped, [QueueRequest(2)] + ([Failed(0)] + []));
    FirstStep(1, queued, SetStatus(Online), flushing, [SetStatus(Offline)] + ([QueueRequest(2)] + ([Failed(0)] + [])));
    FirstStep(1, START, QueueRequest(1), queued,
      [SetStatus(Online)] + ([SetStatus(Offline)] + ([QueueRequest(2)] + ([Failed(0)] + []))));
  }
}
