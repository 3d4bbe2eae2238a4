/**
 * `executePlan` of the automation registry: single-flight, the bounded idempotency cache, and consumed plans.
 * An execution is a sequence of steps, one per stretch of code between awaits; calls interleave freely.
 */
module Automation {
  import opened Text

  const MAX_IDEMPOTENCY_ENTRIES := 128

  /** A plan object: its identity, its `alias:idempotencyKey` if it has a key, its request fingerprint. */
  datatype Plan = Plan(id: nat, cacheKey: Option<string>, fingerprint: string)

  datatype Receipt = Receipt(summary: string, invoked: bool, verified: bool, replay: bool)

  function AsReplay(r: Receipt): Receipt { r.(invoked := false, replay := true) }

  datatype Outcome = Done(receipt: Receipt) | Failed

  /** Where an execution stands: before the runtime call, in it, polling after it, settled, cleaned up. */
  datatype Phase = Observing | Invoking | Polling | Settled(outcome: Outcome) | Finished(result: Outcome)

  datatype Execution = Execution(plan: Plan, phase: Phase)

  datatype Entry = Entry(key: string, fingerprint: string, receipt: Receipt)

  datatype Answer = Replayed(receipt: Receipt) | Stale | Started(exec: nat) | Joined(exec: nat)

  /** The registry's fields; `execs` are all executions ever begun, and an in-flight record names one. */
  datatype State = State(
    idempotency: seq<Entry>, inFlight: map<string, nat>, consumed: set<nat>,
    execs: seq<Execution>, invocations: seq<nat>)

  const START := State([], map[], {}, [], [])

  // ---------------------------------------------------------------------------
  // The cache: an insertion-ordered map
  // ---------------------------------------------------------------------------

  /** The position of `key`, or the length when it is absent. */
  function Find(cache: seq<Entry>, key: string): (i: nat)
    ensures i <= |cache|
    ensures i < |cache| ==> cache[i].key == key
    ensures forall j :: 0 <= j < i ==> cache[j].key != key
  {
    if cache == [] || cache[0].key == key then 0 else 1 + Find(cache[1..], key)
  }

  predicate Has(cache: seq<Entry>, key: string) { Find(cache, key) < |cache| }

  function Without(cache: seq<Entry>, key: string): seq<Entry> {
    var i := Find(cache, key);
    if i < |cache| then cache[..i] + cache[i + 1..] else cache
  }

  /** Only the newest entries are kept. */
  function Newest(cache: seq<Entry>): seq<Entry> {
    if |cache| <= MAX_IDEMPOTENCY_ENTRIES then cache else cache[|cache| - MAX_IDEMPOTENCY_ENTRIES..]
  }

  function Remember(cache: seq<Entry>, entry: Entry): seq<Entry> {
    Newest(Without(cache, entry.key) + [entry])
  }

  // ---------------------------------------------------------------------------
  // Steps
  // ---------------------------------------------------------------------------

  datatype Step =
    | Call(plan: Plan)                                 // the synchronous part of executePlan
    | Invoke(exec: nat)                                // revalidated once more, runtime.execute called
    | Advance(exec: nat)                               // the runtime reported true; polling starts
    | Settle(exec: nat, outcome: Outcome)              // performExecution resolves or rejects
    | Finish(exec: nat)                                // the owner's continuation and finally
    | Clear

  predicate Active(s: State, e: nat) {
    e < |s.execs| && !s.execs[e].phase.Finished?
  }

  /** A settled outcome fits the phase it ends: only polling can verify, and only the runtime's answer ends a call. */
  predicate CanSettle(phase: Phase, outcome: Outcome) {
    match phase
    case Observing => outcome.Failed?
    case Invoking => outcome.Failed? || (!outcome.receipt.invoked && !outcome.receipt.verified && !outcome.receipt.replay)
    case Polling => outcome.Failed? || (outcome.receipt.invoked && !outcome.receipt.replay)
    case _ => false
  }

  predicate Enabled(s: State, step: Step) {
    match step
    case Call(plan) => plan.cacheKey.None? || plan.cacheKey.value != ""
    case Invoke(e) => e < |s.execs| && s.execs[e].phase == Observing
    case Advance(e) => e < |s.execs| && s.execs[e].phase == Invoking
    case Settle(e, outcome) => e < |s.execs| && CanSettle(s.execs[e].phase, outcome)
    case Finish(e) => e < |s.execs| && s.execs[e].phase.Settled?
    case Clear => true
  }

  /** What `executePlan` answers at once, or the execution it starts or joins. */
  function AnswerTo(s: State, plan: Plan): Answer {
    match plan.cacheKey
    case Some(key) =>
      var i := Find(s.idempotency, key);
      if i < |s.idempotency| then
        if s.idempotency[i].fingerprint == plan.fingerprint then Replayed(AsReplay(s.idempotency[i].receipt)) else Stale
      else if key in s.inFlight && s.inFlight[key] < |s.execs| then
        if s.execs[s.inFlight[key]].plan.fingerprint == plan.fingerprint then Joined(s.inFlight[key]) else Stale
      else Started(|s.execs|)
    case None => if plan.id in s.consumed then Stale else Started(|s.execs|)
  }

  function AfterCall(s: State, plan: Plan): State {
    if AnswerTo(s, plan).Started? then
      s.(consumed := s.consumed + {plan.id},
         execs := s.execs + [Execution(plan, Observing)],
         inFlight := if plan.cacheKey.Some? then s.inFlight[plan.cacheKey.value := |s.execs|] else s.inFlight)
    else s
  }

  function SetPhase(s: State, e: nat, phase: Phase): State
    requires e < |s.execs|
  {
    s.(execs := s.execs[e := s.execs[e].(phase := phase)])
  }

  predicate Remembered(x: Execution) {
    x.plan.cacheKey.Some? && x.phase.Settled? && x.phase.outcome.Done? && x.phase.outcome.receipt.verified
  }

  /** Remember a verified receipt; then delete the key's in-flight record, whoever it belongs to. */
  function AfterFinish(s: State, e: nat): State
    requires e < |s.execs| && s.execs[e].phase.Settled?
  {
    var x := s.execs[e];
    var done := SetPhase(s, e, Finished(x.phase.outcome));
    if x.plan.cacheKey.None? then done
    else
      var key := x.plan.cacheKey.value;
      done.(
        idempotency := if Remembered(x) then Remember(s.idempotency, Entry(key, x.plan.fingerprint, x.phase.outcome.receipt))
                       else s.idempotency,
        inFlight := s.inFlight - {key})
  }

  function Next(s: State, step: Step): State
    requires Enabled(s, step)
  {
    match step
    case Call(plan) => AfterCall(s, plan)
    case Invoke(e) => SetPhase(s, e, Invoking).(invocations := s.invocations + [e])
    case Advance(e) => SetPhase(s, e, Polling)
    case Settle(e, outcome) => SetPhase(s, e, Settled(outcome))
    case Finish(e) => AfterFinish(s, e)
    case Clear => s.(idempotency := [], inFlight := map[])
  }

  /** What a joiner of execution `e` gets when it resumes. */
  function JoinerGets(s: State, e: nat): Outcome
    requires e < |s.execs| && (s.execs[e].phase.Settled? || s.execs[e].phase.Finished?)
  {
    var outcome := if s.execs[e].phase.Settled? then s.execs[e].phase.outcome else s.execs[e].phase.result;
    match outcome
    case Failed => Failed
    case Done(receipt) => Done(AsReplay(receipt))
  }

  // ---------------------------------------------------------------------------
  // The registry as the source writes it
  // ---------------------------------------------------------------------------

  class AgentAutomationRegistry {
    var idempotency: seq<Entry>
    var inFlight: map<string, nat>
    var consumedPlans: set<nat>
    var execs: seq<Execution>
    ghost var invocations: seq<nat>

    ghost function Contents(): State
      reads this
    {
      State(idempotency, inFlight, consumedPlans, execs, invocations)
    }

    constructor ()
      ensures Contents() == START
    {
      idempotency, inFlight, consumedPlans, execs, invocations := [], map[], {}, [], [];
    }

    /** The stretch of `executePlan` up to its first await. */
    method BeginExecute(plan: Plan) returns (answer: Answer)
      requires Enabled(Contents(), Call(plan))
      modifies this
      ensures answer == AnswerTo(old(Contents()), plan)
      ensures Contents() == Next(old(Contents()), Call(plan))
    {
      if plan.cacheKey.Some? {
        var key := plan.cacheKey.value;
        var at := Find(idempotency, key);
        if at < |idempotency| {
          var cached := idempotency[at];
          if cached.fingerprint != plan.fingerprint {
            return Stale;
          }
          return Replayed(AsReplay(cached.receipt));
        }
        if key in inFlight && inFlight[key] < |execs| {
          var running := inFlight[key];
          if execs[running].plan.fingerprint != plan.fingerprint {
            return Stale;
          }
          return Joined(running);
        }
      } else if plan.id in consumedPlans {
        return Stale;
      }
      consumedPlans := consumedPlans + {plan.id};
      var execution := |execs|;
      execs := execs + [Execution(plan, Observing)];
      if plan.cacheKey.Some? {
        inFlight := inFlight[plan.cacheKey.value := execution];
      }
      answer := Started(execution);
    }

    method RememberIdempotent(entry: Entry)
      modifies this`idempotency
      ensures idempotency == Remember(old(idempotency), entry)
    {
      var at := Find(idempotency, entry.key);
      if at < |idempotency| {
        idempotency := idempotency[..at] + idempotency[at + 1..];
      }
      idempotency := idempotency + [entry];
      ghost var all := idempotency;
      while |idempotency| > MAX_IDEMPOTENCY_ENTRIES
        invariant |idempotency| <= |all| && idempotency == all[|all| - |idempotency|..]
        invariant |all| >= MAX_IDEMPOTENCY_ENTRIES ==> |idempotency| >= MAX_IDEMPOTENCY_ENTRIES
        invariant |all| <= MAX_IDEMPOTENCY_ENTRIES ==> idempotency == all
      {
        idempotency := idempotency[1..];
      }
    }

    /** The stretch of `executePlan` after the execution settled, `finally` included. */
    method FinishExecute(e: nat)
      requires Enabled(Contents(), Finish(e))
      modifies this
      ensures Contents() == Next(old(Contents()), Finish(e))
    {
      var x := execs[e];
      if x.plan.cacheKey.Some? && x.phase.outcome.Done? && x.phase.outcome.receipt.verified {
        RememberIdempotent(Entry(x.plan.cacheKey.value, x.plan.fingerprint, x.phase.outcome.receipt));
      }
      execs := execs[e := x.(phase := Finished(x.phase.outcome))];
      if x.plan.cacheKey.Some? {
        inFlight := inFlight - {x.plan.cacheKey.value};
      }
    }

    method ClearProcessState()
      modifies this`idempotency, this`inFlight
      ensures Contents() == Next(old(Contents()), Clear)
    {
      idempotency := [];
      inFlight := map[];
    }
  }

  // ---------------------------------------------------------------------------
  // The invariant of runs in which no execution straddles a clear
  // ---------------------------------------------------------------------------

  predicate KeyOf(s: State, e: nat, key: string) {
    e < |s.execs| && s.execs[e].plan.cacheKey == Some(key)
  }

  /** The in-flight record of a key is its one active execution. */
  ghost predicate SingleFlight(s: State) {
    && (forall key :: key in s.inFlight ==> KeyOf(s, s.inFlight[key], key) && Active(s, s.inFlight[key]))
    && (forall e: nat, key :: KeyOf(s, e, key) && Active(s, e) ==> key in s.inFlight && s.inFlight[key] == e)
  }

  predicate Distinct(cache: seq<Entry>) {
    forall i, j :: 0 <= i < j < |cache| ==> cache[i].key != cache[j].key
  }

  predicate HonestEntry(entry: Entry) {
    entry.receipt.invoked && entry.receipt.verified && !entry.receipt.replay
  }

  /** A cached key has no active execution, and every cached receipt is a first-hand verified one. */
  ghost predicate CacheSound(s: State) {
    && |s.idempotency| <= MAX_IDEMPOTENCY_ENTRIES && Distinct(s.idempotency)
    && (forall i :: 0 <= i < |s.idempotency| ==> HonestEntry(s.idempotency[i]))
    && (forall i :: 0 <= i < |s.idempotency| ==> s.idempotency[i].key !in s.inFlight)
  }

  predicate ReceiptOf(phase: Phase) {
    phase.Settled? && phase.outcome.Done? && phase.outcome.receipt.verified ==>
      phase.outcome.receipt.invoked && !phase.outcome.receipt.replay
  }

  ghost predicate ReceiptsSound(s: State) {
    forall e :: 0 <= e < |s.execs| ==> ReceiptOf(s.execs[e].phase)
  }

  ghost predicate Inv(s: State) {
    SingleFlight(s) && CacheSound(s) && ReceiptsSound(s)
  }

  /** The step is not a clear in the middle of a keyed execution. */
  ghost predicate NoStraddle(s: State, step: Step) {
    step.Clear? ==> forall e: nat, key :: KeyOf(s, e, key) ==> !Active(s, e)
  }

  lemma {:induction false} FindAbsent(cache: seq<Entry>, key: string)
    ensures Has(cache, key) <==> exists i :: 0 <= i < |cache| && cache[i].key == key
  {
  }

  lemma {:induction false} RememberNew(cache: seq<Entry>, entry: Entry)
    requires |cache| <= MAX_IDEMPOTENCY_ENTRIES && !Has(cache, entry.key)
    ensures Remember(cache, entry)
            == (if |cache| == MAX_IDEMPOTENCY_ENTRIES then cache[1..] else cache) + [entry]
  {
    var all := cache + [entry];
    if |cache| == MAX_IDEMPOTENCY_ENTRIES {
      assert all[1..] == cache[1..] + [entry];
    }
  }

  /** Remembering over an older entry of the key replaces it: the new one is last, and each key is there once. */
  lemma {:induction false} RememberReplaces(cache: seq<Entry>, entry: Entry)
    requires Distinct(cache) && |cache| <= MAX_IDEMPOTENCY_ENTRIES && Has(cache, entry.key)
    ensures var i := Find(cache, entry.key); Remember(cache, entry) == cache[..i] + cache[i + 1..] + [entry]
    ensures Distinct(Remember(cache, entry))
  {
    var i := Find(cache, entry.key);
    var after := cache[..i] + cache[i + 1..] + [entry];
    assert |after| == |cache|;
    forall j, k | 0 <= j < k < |after|
      ensures after[j].key != after[k].key
    {
      assert after[j] == cache[if j < i then j else j + 1];
      assert k < |after| - 1 ==> after[k] == cache[if k < i then k else k + 1];
    }
  }

  lemma {:induction false} CallKeepsInv(s: State, plan: Plan)
    requires Inv(s) && Enabled(s, Call(plan))
    ensures Inv(AfterCall(s, plan))
  {
    var s' := AfterCall(s, plan);
    if AnswerTo(s, plan).Started? {
      var n := |s.execs|;
      assert forall e :: 0 <= e < n ==> s'.execs[e] == s.execs[e];
      forall e: nat, key | KeyOf(s', e, key) && Active(s', e)
        ensures key in s'.inFlight && s'.inFlight[key] == e
      {
        if e < n {
          assert KeyOf(s, e, key) && Active(s, e);
        }
      }
    }
  }

  lemma {:induction false} PhaseKeepsInv(s: State, e: nat, phase: Phase)
    requires Inv(s) && e < |s.execs| && !s.execs[e].phase.Finished? && !phase.Finished? && ReceiptOf(phase)
    ensures Inv(SetPhase(s, e, phase))
  {
    var s' := SetPhase(s, e, phase);
    forall f: nat, key
      ensures KeyOf(s', f, key) == KeyOf(s, f, key) && Active(s', f) == Active(s, f)
    {
    }
  }

  lemma {:induction false} FinishKeepsInv(s: State, e: nat)
    requires Inv(s) && Enabled(s, Finish(e))
    ensures Inv(AfterFinish(s, e))
  {
    FinishKeepsSingleFlight(s, e);
    FinishKeepsCache(s, e);
  }

  lemma {:induction false} FinishKeepsSingleFlight(s: State, e: nat)
    requires Inv(s) && Enabled(s, Finish(e))
    ensures SingleFlight(AfterFinish(s, e)) && ReceiptsSound(AfterFinish(s, e))
  {
    var s' := AfterFinish(s, e);
    forall f: nat, key
      ensures KeyOf(s', f, key) == KeyOf(s, f, key)
      ensures Active(s', f) == (Active(s, f) && f != e)
    {
    }
    if s.execs[e].plan.cacheKey.Some? { assert KeyOf(s, e, s.execs[e].plan.cacheKey.value) && Active(s, e); }
  }

  lemma {:induction false} FinishKeepsCache(s: State, e: nat)
    requires Inv(s) && Enabled(s, Finish(e))
    ensures CacheSound(AfterFinish(s, e))
  {
    var x := s.execs[e];
    assert ReceiptOf(x.phase);
    if x.plan.cacheKey.Some? {
      var k := x.plan.cacheKey.value;
      assert KeyOf(s, e, k) && Active(s, e);
      FindAbsent(s.idempotency, k);
      if Remembered(x) {
        RememberNew(s.idempotency, Entry(k, x.plan.fingerprint, x.phase.outcome.receipt));
      }
    }
  }

  lemma {:induction false} StepKeepsInv(s: State, step: Step)
    requires Inv(s) && Enabled(s, step) && NoStraddle(s, step)
    ensures Inv(Next(s, step))
  {
    match step {
      case Call(plan) => CallKeepsInv(s, plan);
      case Invoke(e) =>
        PhaseKeepsInv(s, e, Invoking);
        forall f: nat, key
          ensures KeyOf(Next(s, step), f, key) == KeyOf(SetPhase(s, e, Invoking), f, key)
          ensures Active(Next(s, step), f) == Active(SetPhase(s, e, Invoking), f)
        {
        }
      case Advance(e) => PhaseKeepsInv(s, e, Polling);
      case Settle(e, outcome) => PhaseKeepsInv(s, e, Settled(outcome));
      case Finish(e) => FinishKeepsInv(s, e);
      case Clear =>
        forall e: nat, key
          ensures !(KeyOf(Next(s, step), e, key) && Active(Next(s, step), e))
        {
          assert KeyOf(Next(s, step), e, key) == KeyOf(s, e, key) && Active(Next(s, step), e) == Active(s, e);
        }
    }
  }

  // ---------------------------------------------------------------------------
  // Runs
  // ---------------------------------------------------------------------------

  ghost predicate Runs(s: State, run: seq<Step>)
    decreases run
  {
    run != [] ==> Enabled(s, run[0]) && Runs(Next(s, run[0]), run[1..])
  }

  ghost predicate NeverStraddles(s: State, run: seq<Step>)
    requires Runs(s, run)
    decreases run
  {
    run != [] ==> NoStraddle(s, run[0]) && NeverStraddles(Next(s, run[0]), run[1..])
  }

  ghost function End(s: State, run: seq<Step>): State
    requires Runs(s, run)
    decreases run
  {
    if run == [] then s else End(Next(s, run[0]), run[1..])
  }

  lemma {:induction false} RunKeepsInv(s: State, run: seq<Step>)
    requires Inv(s) && Runs(s, run) && NeverStraddles(s, run)
    ensures Inv(End(s, run))
    decreases run
  {
    if run != [] {
      StepKeepsInv(s, run[0]);
      RunKeepsInv(Next(s, run[0]), run[1..]);
    }
  }

  /** Single flight: after any interleaving without a straddled clear, a key has at most one active execution. */
  lemma {:induction false} AtMostOneExecutionPerKey(run: seq<Step>, key: string, e: nat, f: nat)
    requires Runs(START, run) && NeverStraddles(START, run)
    requires var s := End(START, run);
             KeyOf(s, e, key) && Active(s, e) && KeyOf(s, f, key) && Active(s, f)
    ensures e == f
  {
    RunKeepsInv(START, run);
  }

  /** The runtime is only ever invoked for a key that has no cached receipt. */
  lemma {:induction false} InvokeOnlyUncached(run: seq<Step>, e: nat, key: string)
    requires Runs(START, run) && NeverStraddles(START, run)
    requires Enabled(End(START, run), Invoke(e)) && KeyOf(End(START, run), e, key)
    ensures !Has(End(START, run).idempotency, key)
  {
    RunKeepsInv(START, run);
    FindAbsent(End(START, run).idempotency, key);
    assert Active(End(START, run), e);
  }

  /** A cached key: the same request replays the first-hand receipt uninvoked, another is refused; nothing starts. */
  lemma {:induction false} CachedKeyReplays(run: seq<Step>, plan: Plan)
    requires Runs(START, run) && NeverStraddles(START, run) && plan.cacheKey.Some? && plan.cacheKey.value != ""
    requires Has(End(START, run).idempotency, plan.cacheKey.value)
    ensures var s := End(START, run);
            var entry := s.idempotency[Find(s.idempotency, plan.cacheKey.value)];
            && AnswerTo(s, plan) == (if entry.fingerprint == plan.fingerprint then Replayed(AsReplay(entry.receipt)) else Stale)
            && entry.receipt.verified && entry.receipt.invoked && !AsReplay(entry.receipt).invoked
            && Next(s, Call(plan)) == s
  {
    RunKeepsInv(START, run);
    var s := End(START, run);
    assert HonestEntry(s.idempotency[Find(s.idempotency, plan.cacheKey.value)]);
  }

  /** A call that joins waits for an active execution of the same key and request, and never invokes again. */
  lemma {:induction false} JoinersShareOneExecution(run: seq<Step>, plan: Plan)
    requires Runs(START, run) && NeverStraddles(START, run) && Enabled(End(START, run), Call(plan))
    requires AnswerTo(End(START, run), plan).Joined?
    ensures var s, e := End(START, run), AnswerTo(End(START, run), plan).exec;
            && Active(s, e) && s.execs[e].plan.cacheKey == plan.cacheKey
            && s.execs[e].plan.fingerprint == plan.fingerprint
            && Next(s, Call(plan)) == s
  {
    RunKeepsInv(START, run);
    var s := End(START, run);
    assert KeyOf(s, s.inFlight[plan.cacheKey.value], plan.cacheKey.value);
  }

  /** With a key uncached and not in flight, a call starts; so a keyed call waits or replays exactly otherwise. */
  lemma {:induction false} StartsIffFree(run: seq<Step>, plan: Plan, key: string)
    requires Runs(START, run) && NeverStraddles(START, run) && plan.cacheKey == Some(key)
    ensures var s := End(START, run);
            AnswerTo(s, plan).Started?
            <==> !Has(s.idempotency, key) && forall e: nat :: KeyOf(s, e, key) ==> !Active(s, e)
  {
    RunKeepsInv(START, run);
    var s := End(START, run);
    if key in s.inFlight {
      assert KeyOf(s, s.inFlight[key], key);
    }
  }

  // ---------------------------------------------------------------------------
  // How long a receipt is kept
  // ---------------------------------------------------------------------------

  /** How many receipts the run remembers. */
  ghost function Remembers(s: State, run: seq<Step>): nat
    requires Runs(s, run)
    decreases run
  {
    if run == [] then 0
    else (if run[0].Finish? && Remembered(s.execs[run[0].exec]) then 1 else 0) + Remembers(Next(s, run[0]), run[1..])
  }

  ghost predicate NoClear(run: seq<Step>) {
    forall i :: 0 <= i < |run| ==> !run[i].Clear?
  }

  /** How many cached entries are newer than `key`. */
  function Newer(cache: seq<Entry>, key: string): nat
    requires Has(cache, key)
  {
    |cache| - 1 - Find(cache, key)
  }

  lemma {:induction false} FindAt(cache: seq<Entry>, i: nat)
    requires Distinct(cache) && i < |cache|
    ensures Find(cache, cache[i].key) == i
  {
  }

  lemma {:induction false} StepKeepsEntry(s: State, step: Step, entry: Entry)
    requires Inv(s) && Enabled(s, step) && !step.Clear?
    requires Has(s.idempotency, entry.key) && s.idempotency[Find(s.idempotency, entry.key)] == entry
    requires var r := if step.Finish? && Remembered(s.execs[step.exec]) then 1 else 0;
             Newer(s.idempotency, entry.key) + r < MAX_IDEMPOTENCY_ENTRIES
    ensures var cache := Next(s, step).idempotency;
            && Has(cache, entry.key) && cache[Find(cache, entry.key)] == entry
            && Newer(cache, entry.key) == Newer(s.idempotency, entry.key)
                 + (if step.Finish? && Remembered(s.execs[step.exec]) then 1 else 0)
  {
    if step.Finish? && Remembered(s.execs[step.exec]) {
      var e, x := step.exec, s.execs[step.exec];
      var k := x.plan.cacheKey.value;
      assert KeyOf(s, e, k) && Active(s, e);
      FindAbsent(s.idempotency, k);
      RememberNew(s.idempotency, Entry(k, x.plan.fingerprint, x.phase.outcome.receipt));
      FinishKeepsInv(s, e);
      var cache := Next(s, step).idempotency;
      var at := Find(s.idempotency, entry.key);
      var at' := if |s.idempotency| == MAX_IDEMPOTENCY_ENTRIES then at - 1 else at;
      assert cache[at'] == entry;
      FindAt(cache, at');
    }
  }

  /**
   * A remembered receipt stays, unchanged, through any run without a clear that remembers fewer than
   * 128 - n others, where n are already newer than it.
   */
  lemma {:induction false} ReceiptIsKept(s: State, run: seq<Step>, entry: Entry)
    requires Inv(s) && Runs(s, run) && NoClear(run)
    requires Has(s.idempotency, entry.key) && s.idempotency[Find(s.idempotency, entry.key)] == entry
    requires Newer(s.idempotency, entry.key) + Remembers(s, run) < MAX_IDEMPOTENCY_ENTRIES
    ensures var cache := End(s, run).idempotency;
            Has(cache, entry.key) && cache[Find(cache, entry.key)] == entry
    decreases run
  {
    if run != [] {
      assert !run[0].Clear?;
      StepKeepsEntry(s, run[0], entry);
      StepKeepsInv(s, run[0]);
      assert forall i :: 0 <= i < |run[1..]| ==> run[1..][i] == run[i + 1];
      ReceiptIsKept(Next(s, run[0]), run[1..], entry);
    }
  }

  lemma {:induction false} NoClearNeverStraddles(s: State, run: seq<Step>)
    requires Runs(s, run) && NoClear(run)
    ensures NeverStraddles(s, run)
    decreases run
  {
    if run != [] {
      assert !run[0].Clear?;
      assert forall i :: 0 <= i < |run[1..]| ==> run[1..][i] == run[i + 1];
      NoClearNeverStraddles(Next(s, run[0]), run[1..]);
    }
  }

  /** So until its eviction no execution of the key is active: the runtime is not invoked for it again. */
  lemma {:induction false} NotInvokedAgain(s: State, run: seq<Step>, entry: Entry, f: nat)
    requires Inv(s) && Runs(s, run) && NoClear(run)
    requires Has(s.idempotency, entry.key) && s.idempotency[Find(s.idempotency, entry.key)] == entry
    requires Newer(s.idempotency, entry.key) + Remembers(s, run) < MAX_IDEMPOTENCY_ENTRIES
    ensures KeyOf(End(s, run), f, entry.key) ==> !Active(End(s, run), f) && !Enabled(End(s, run), Invoke(f))
  {
    ReceiptIsKept(s, run, entry);
    NoClearNeverStraddles(s, run);
    RunKeepsInv(s, run);
    FindAbsent(End(s, run).idempotency, entry.key);
  }

  // ---------------------------------------------------------------------------
  // From a verified receipt on
  // ---------------------------------------------------------------------------

  /** Execution `e` of `key` has settled with the verified receipt `r`. */
  predicate SettledVerified(s: State, e: nat, key: string, r: Receipt) {
    KeyOf(s, e, key) && s.execs[e].phase == Settled(Done(r)) && r.verified
  }

  /**
   * A verified receipt of a keyed execution is cached as the newest entry, under its key and request, when the
   * execution finishes; the same request is answered with it from then on, uninvoked, and another is refused.
   */
  lemma {:induction false} VerifiedIsCached(s: State, e: nat, key: string, r: Receipt, plan: Plan)
    requires Inv(s) && SettledVerified(s, e, key, r) && plan.cacheKey == Some(key)
    ensures Enabled(s, Finish(e))
    ensures var after, entry := Next(s, Finish(e)), Entry(key, s.execs[e].plan.fingerprint, r);
            && after.execs[e].phase == Finished(Done(r)) && key !in after.inFlight
            && Has(after.idempotency, key) && Newer(after.idempotency, key) == 0
            && after.idempotency[|after.idempotency| - 1] == entry
            && AnswerTo(after, plan) == (if plan.fingerprint == entry.fingerprint
                                         then Replayed(Receipt(r.summary, false, true, true)) else Stale)
  {
    var x := s.execs[e];
    assert KeyOf(s, e, key) && Active(s, e);
    FindAbsent(s.idempotency, key);
    RememberNew(s.idempotency, Entry(key, x.plan.fingerprint, r));
    FinishKeepsInv(s, e);
    FindAt(Next(s, Finish(e)).idempotency, |Next(s, Finish(e)).idempotency| - 1);
  }

  /** And nothing else is: a failure, an unverified receipt and a keyless execution leave the cache as it is. */
  lemma {:induction false} OnlyVerifiedIsCached(s: State, step: Step)
    requires Inv(s) && Enabled(s, step) && !step.Clear?
    requires step.Finish? ==> forall key, r :: !SettledVerified(s, step.exec, key, r)
    ensures Next(s, step).idempotency == s.idempotency
  {
    if step.Finish? && s.execs[step.exec].plan.cacheKey.Some? && s.execs[step.exec].phase.outcome.Done? {
      assert !SettledVerified(s, step.exec, s.execs[step.exec].plan.cacheKey.value, s.execs[step.exec].phase.outcome.receipt);
    }
  }

  /** How many verified receipts of keyed executions come in during the run. */
  ghost function VerifiedReceipts(s: State, run: seq<Step>): nat
    requires Runs(s, run)
    decreases run
  {
    if run == [] then 0
    else
      (if run[0].Finish? && exists key, r :: SettledVerified(s, run[0].exec, key, r) then 1 else 0)
      + VerifiedReceipts(Next(s, run[0]), run[1..])
  }

  lemma {:induction false} RemembersVerified(s: State, run: seq<Step>)
    requires Runs(s, run)
    ensures Remembers(s, run) == VerifiedReceipts(s, run)
    decreases run
  {
    if run != [] {
      RemembersVerified(Next(s, run[0]), run[1..]);
      if run[0].Finish? { RememberedIsVerified(s, run[0].exec); }
    }
  }

  lemma {:induction false} RememberedIsVerified(s: State, e: nat)
    requires Enabled(s, Finish(e))
    ensures Remembered(s.execs[e]) <==> exists key, r :: SettledVerified(s, e, key, r)
  {
    if Remembered(s.execs[e]) {
      assert SettledVerified(s, e, s.execs[e].plan.cacheKey.value, s.execs[e].phase.outcome.receipt);
    }
  }

  /** None of the runtime calls from the `n`-th on is for `key`. */
  ghost predicate NoneFor(s: State, n: nat, key: string) {
    forall i :: n <= i < |s.invocations| ==> !KeyOf(s, s.invocations[i], key)
  }

  lemma {:induction false} StepKeepsNone(s: State, step: Step, n: nat, key: string)
    requires Enabled(s, step) && NoneFor(s, n, key) && InvokedOnce(s)
    requires step.Invoke? ==> !KeyOf(s, step.exec, key)
    ensures NoneFor(Next(s, step), n, key)
  {
    var s' := Next(s, step);
    forall i | n <= i < |s'.invocations|
      ensures !KeyOf(s', s'.invocations[i], key)
    {
      if i < |s.invocations| {
        assert s'.invocations[i] == s.invocations[i] && !KeyOf(s, s.invocations[i], key);
      }
    }
  }

  lemma {:induction false} CachedIsNotInvoked(s: State, run: seq<Step>, entry: Entry, n: nat)
    requires Inv(s) && InvokedOnce(s) && Runs(s, run) && NoClear(run) && NoneFor(s, n, entry.key)
    requires Has(s.idempotency, entry.key) && s.idempotency[Find(s.idempotency, entry.key)] == entry
    requires Newer(s.idempotency, entry.key) + Remembers(s, run) < MAX_IDEMPOTENCY_ENTRIES
    ensures NoneFor(End(s, run), n, entry.key)
    decreases run
  {
    if run != [] {
      assert !run[0].Clear?;
      FindAbsent(s.idempotency, entry.key);
      assert run[0].Invoke? && KeyOf(s, run[0].exec, entry.key) ==> Active(s, run[0].exec);
      StepKeepsNone(s, run[0], n, entry.key);
      StepKeepsInvocations(s, run[0]);
      StepKeepsEntry(s, run[0], entry);
      StepKeepsInv(s, run[0]);
      assert forall i :: 0 <= i < |run[1..]| ==> run[1..][i] == run[i + 1];
      CachedIsNotInvoked(Next(s, run[0]), run[1..], entry, n);
    }
  }

  /**
   * Idempotency. Once an execution of a key has come back verified, the runtime is not called for that key again, and
   * the same request is answered with that receipt, until 128 newer verified receipts or a clear.
   */
  lemma {:induction false} VerifiedRunsOnce(before: seq<Step>, e: nat, key: string, r: Receipt, after: seq<Step>, plan: Plan)
    requires Runs(START, before) && NeverStraddles(START, before)
    requires SettledVerified(End(START, before), e, key, r) && plan.cacheKey == Some(key)
    requires Runs(Next(End(START, before), Finish(e)), after) && NoClear(after)
    requires VerifiedReceipts(Next(End(START, before), Finish(e)), after) < 128
    ensures var s := End(START, before);
            var later := End(Next(s, Finish(e)), after);
            && NoneFor(later, |s.invocations|, key)
            && AnswerTo(later, plan) == (if plan.fingerprint == s.execs[e].plan.fingerprint
                                         then Replayed(Receipt(r.summary, false, true, true)) else Stale)
  {
    var s := End(START, before);
    RunKeepsInv(START, before);
    RunKeepsUses(START, before);
    VerifiedIsCached(s, e, key, r, plan);
    FinishKeepsInv(s, e);
    StepKeepsInvocations(s, Finish(e));
    var s1, entry := Next(s, Finish(e)), Entry(key, s.execs[e].plan.fingerprint, r);
    FindAt(s1.idempotency, |s1.idempotency| - 1);
    RemembersVerified(s1, after);
    CachedIsNotInvoked(s1, after, entry, |s.invocations|);
    ReceiptIsKept(s1, after, entry);
  }

  // ---------------------------------------------------------------------------
  // What a call is answered
  // ---------------------------------------------------------------------------

  /** An uncached key whose execution is active: the same request joins it, another is refused. */
  lemma {:induction false} ActiveKeyIsJoined(run: seq<Step>, plan: Plan, key: string, e: nat)
    requires Runs(START, run) && NeverStraddles(START, run) && plan.cacheKey == Some(key)
    requires KeyOf(End(START, run), e, key) && Active(End(START, run), e)
    ensures var s := End(START, run);
            AnswerTo(s, plan) == if plan.fingerprint == s.execs[e].plan.fingerprint then Joined(e) else Stale
  {
    RunKeepsInv(START, run);
    FindAbsent(End(START, run).idempotency, key);
  }

  /** A call that starts begins one execution of its plan, before its runtime call; no other call changes anything. */
  lemma {:induction false} CallStartsOne(s: State, plan: Plan)
    requires Enabled(s, Call(plan))
    ensures var after := Next(s, Call(plan));
            if AnswerTo(s, plan).Started?
            then && AnswerTo(s, plan).exec == |s.execs| && after.execs == s.execs + [Execution(plan, Observing)]
                 && after.idempotency == s.idempotency && after.invocations == s.invocations
                 && (plan.cacheKey.Some? ==> plan.cacheKey.value in after.inFlight && after.inFlight[plan.cacheKey.value] == |s.execs|)
            else after == s
  {
  }

  /** The consumed plans are those of the executions. */
  ghost predicate ConsumedAreUsed(s: State) {
    forall id :: id in s.consumed ==> exists e :: 0 <= e < |s.execs| && s.execs[e].plan.id == id
  }

  lemma {:induction false} StepKeepsConsumed(s: State, step: Step)
    requires Enabled(s, step) && ConsumedAreUsed(s)
    ensures ConsumedAreUsed(Next(s, step))
  {
    var s' := Next(s, step);
    forall id | id in s'.consumed
      ensures exists e :: 0 <= e < |s'.execs| && s'.execs[e].plan.id == id
    {
      if id in s.consumed {
        var e :| 0 <= e < |s.execs| && s.execs[e].plan.id == id;
        assert s'.execs[e].plan == s.execs[e].plan;
      } else {
        assert s'.execs[|s.execs|].plan.id == id;
      }
    }
  }

  lemma {:induction false} RunKeepsConsumed(s: State, run: seq<Step>)
    requires ConsumedAreUsed(s) && Runs(s, run)
    ensures ConsumedAreUsed(End(s, run))
    decreases run
  {
    if run != [] {
      StepKeepsConsumed(s, run[0]);
      RunKeepsConsumed(Next(s, run[0]), run[1..]);
    }
  }

  /** A keyless call starts exactly when its plan object was never executed, with or without clears; else it is refused. */
  lemma {:induction false} KeylessStartsIffUnused(run: seq<Step>, plan: Plan)
    requires Runs(START, run) && plan.cacheKey.None?
    ensures var s := End(START, run);
            && (AnswerTo(s, plan).Started? <==> forall e :: 0 <= e < |s.execs| ==> s.execs[e].plan.id != plan.id)
            && (AnswerTo(s, plan).Started? || AnswerTo(s, plan) == Stale)
  {
    RunKeepsUses(START, run);
    RunKeepsConsumed(START, run);
  }

  /** What a joiner gets is fixed once the execution settles: its receipt as an uninvoked replay, or its failure. */
  lemma {:induction false} JoinersGetTheReceipt(s: State, run: seq<Step>, e: nat, outcome: Outcome)
    requires Runs(s, run) && e < |s.execs|
    requires s.execs[e].phase == Settled(outcome) || s.execs[e].phase == Finished(outcome)
    ensures e < |End(s, run).execs|
    ensures End(s, run).execs[e].phase == Settled(outcome) || End(s, run).execs[e].phase == Finished(outcome)
    ensures JoinerGets(End(s, run), e)
            == match outcome case Failed => Failed case Done(r) => Done(r.(invoked := false, replay := true))
    decreases run
  {
    if run != [] {
      JoinersGetTheReceipt(Next(s, run[0]), run[1..], e, outcome);
    }
  }

  /** The 128th receipt remembered after it evicts it: first in, first out. */
  lemma {:induction false} OldestIsEvicted(s: State, e: nat, entry: Entry)
    requires Inv(s) && Enabled(s, Finish(e)) && Remembered(s.execs[e])
    requires Has(s.idempotency, entry.key) && Newer(s.idempotency, entry.key) == MAX_IDEMPOTENCY_ENTRIES - 1
    ensures !Has(Next(s, Finish(e)).idempotency, entry.key)
  {
    var x := s.execs[e];
    var k := x.plan.cacheKey.value;
    assert KeyOf(s, e, k) && Active(s, e);
    FindAbsent(s.idempotency, k);
    RememberNew(s.idempotency, Entry(k, x.plan.fingerprint, x.phase.outcome.receipt));
    assert Find(s.idempotency, entry.key) == 0;
    FindAbsent(Next(s, Finish(e)).idempotency, entry.key);
  }

  // ---------------------------------------------------------------------------
  // Consumed plans and invocations, clears or not
  // ---------------------------------------------------------------------------

  /** Keyless executions are of different, consumed plan objects. */
  ghost predicate PlansUsedOnce(s: State) {
    && (forall e :: 0 <= e < |s.execs| ==> s.execs[e].plan.id in s.consumed)
    && (forall e, f :: 0 <= e < f < |s.execs| && s.execs[f].plan.cacheKey.None? ==> s.execs[e].plan.id != s.execs[f].plan.id)
  }

  /** An execution has been invoked at most once, and only once past observing. */
  ghost predicate InvokedOnce(s: State) {
    && (forall i :: 0 <= i < |s.invocations| ==>
          s.invocations[i] < |s.execs| && !s.execs[s.invocations[i]].phase.Observing?)
    && (forall i, j :: 0 <= i < j < |s.invocations| ==> s.invocations[i] != s.invocations[j])
  }

  lemma {:induction false} StepKeepsUses(s: State, step: Step)
    requires PlansUsedOnce(s) && InvokedOnce(s) && Enabled(s, step)
    ensures PlansUsedOnce(Next(s, step)) && InvokedOnce(Next(s, step))
  {
    StepKeepsPlans(s, step);
    StepKeepsInvocations(s, step);
  }

  lemma {:induction false} StepKeepsPlans(s: State, step: Step)
    requires PlansUsedOnce(s) && Enabled(s, step)
    ensures PlansUsedOnce(Next(s, step))
  {
  }

  lemma {:induction false} StepKeepsInvocations(s: State, step: Step)
    requires InvokedOnce(s) && Enabled(s, step)
    ensures InvokedOnce(Next(s, step))
  {
  }

  lemma {:induction false} RunKeepsUses(s: State, run: seq<Step>)
    requires PlansUsedOnce(s) && InvokedOnce(s) && Runs(s, run)
    ensures PlansUsedOnce(End(s, run)) && InvokedOnce(End(s, run))
    decreases run
  {
    if run != [] {
      StepKeepsUses(s, run[0]);
      RunKeepsUses(Next(s, run[0]), run[1..]);
    }
  }

  /** A keyless plan object reaches execution, and the runtime, at most once, even across clears. */
  lemma {:induction false} KeylessPlanRunsOnce(run: seq<Step>, e: nat, f: nat)
    requires Runs(START, run)
    requires var s := End(START, run);
             && e < |s.execs| && f < |s.execs| && s.execs[e].plan == s.execs[f].plan && s.execs[e].plan.cacheKey.None?
    ensures e == f
    ensures var s := End(START, run);
            forall i, j :: 0 <= i < j < |s.invocations| ==> s.invocations[i] != s.invocations[j]
  {
    RunKeepsUses(START, run);
  }

  /** The runtime has been called for an execution that is past its call, and for one that says so in its receipt. */
  predicate SaysInvoked(phase: Phase) {
    match phase
    case Observing => false
    case Invoking => true
    case Polling => true
    case Settled(outcome) => outcome.Done? && outcome.receipt.invoked
    case Finished(result) => result.Done? && result.receipt.invoked
  }

  ghost predicate InvokedIsTrue(s: State) {
    forall e :: 0 <= e < |s.execs| && SaysInvoked(s.execs[e].phase) ==> e in s.invocations
  }

  lemma {:induction false} StepKeepsInvoked(s: State, step: Step)
    requires InvokedIsTrue(s) && Enabled(s, step)
    ensures InvokedIsTrue(Next(s, step))
  {
    var s' := Next(s, step);
    forall e | 0 <= e < |s'.execs| && SaysInvoked(s'.execs[e].phase)
      ensures e in s'.invocations
    {
      if e < |s.execs| && SaysInvoked(s.execs[e].phase) {
        assert e in s.invocations && s.invocations <= s'.invocations;
      } else {
        assert step == Invoke(e);
        assert s'.invocations[|s.invocations|] == e;
      }
    }
  }

  lemma {:induction false} RunKeepsInvoked(s: State, run: seq<Step>)
    requires InvokedIsTrue(s) && Runs(s, run)
    ensures InvokedIsTrue(End(s, run))
    decreases run
  {
    if run != [] {
      StepKeepsInvoked(s, run[0]);
      RunKeepsInvoked(Next(s, run[0]), run[1..]);
    }
  }

  /** A receipt that says it was invoked is of an execution for which the runtime was called, exactly once. */
  lemma {:induction false} ReceiptsTellTheTruth(run: seq<Step>, e: nat)
    requires Runs(START, run)
    requires e < |End(START, run).execs| && SaysInvoked(End(START, run).execs[e].phase)
    ensures exists i :: 0 <= i < |End(START, run).invocations| && End(START, run).invocations[i] == e
                        && forall j :: 0 <= j < |End(START, run).invocations| && j != i ==> End(START, run).invocations[j] != e
  {
    RunKeepsUses(START, run);
    RunKeepsInvoked(START, run);
    var s := End(START, run);
    var i :| 0 <= i < |s.invocations| && s.invocations[i] == e;
    forall j | 0 <= j < |s.invocations| && j != i
      ensures s.invocations[j] != e
    {
      if j < i { assert s.invocations[j] != s.invocations[i]; } else { assert s.invocations[i] != s.invocations[j]; }
    }
  }

  /** And a started execution can come to a verified receipt: invoked, polled, settled and finished. */
  lemma {:induction false} VerifiedIsReachable(s: State, e: nat, r: Receipt)
    requires e < |s.execs| && s.execs[e].phase == Observing && r.invoked && r.verified && !r.replay
    ensures Enabled(s, Invoke(e))
    ensures var called := Next(s, Invoke(e));
            && called.execs == s.execs[e := Execution(s.execs[e].plan, Invoking)] && called.invocations == s.invocations + [e]
            && Enabled(called, Advance(e)) && Enabled(Next(called, Advance(e)), Settle(e, Done(r)))
            && (var settled := Next(Next(called, Advance(e)), Settle(e, Done(r)));
                settled.execs[e] == Execution(s.execs[e].plan, Settled(Done(r))) && Enabled(settled, Finish(e)))
  {
  }

  // ---------------------------------------------------------------------------
  // The straddled clear
  // ---------------------------------------------------------------------------

  /** A clear keeps the invariant exactly when no keyed execution straddles it. */
  lemma {:induction false} ClearExact(s: State)
    requires Inv(s)
    ensures Inv(Next(s, Clear)) <==> NoStraddle(s, Clear)
  {
    var s' := Next(s, Clear);
    forall e: nat, key
      ensures KeyOf(s', e, key) == KeyOf(s, e, key) && Active(s', e) == Active(s, e)
    {
    }
  }

  /** And in every state in which one does, the next call with its key starts a second execution beside it. */
  lemma {:induction false} StraddledClearDoubles(s: State, e: nat, key: string, plan: Plan)
    requires KeyOf(s, e, key) && Active(s, e) && plan.cacheKey == Some(key) && key != ""
    ensures var s1 := Next(s, Clear);
            && Enabled(s1, Call(plan))
            && (var s2 := Next(s1, Call(plan));
                && KeyOf(s2, e, key) && Active(s2, e)
                && KeyOf(s2, |s.execs|, key) && Active(s2, |s.execs|) && e != |s.execs|)
  {
  }

  ghost predicate OneActivePerKey(s: State) {
    forall e: nat, f: nat, key :: KeyOf(s, e, key) && Active(s, e) && KeyOf(s, f, key) && Active(s, f) ==> e == f
  }

  ghost predicate NamedKeys(s: State) {
    forall e: nat, key :: KeyOf(s, e, key) ==> key != ""
  }

  lemma {:induction false} StepNamesKeys(s: State, step: Step)
    requires NamedKeys(s) && Enabled(s, step)
    ensures NamedKeys(Next(s, step))
  {
    var s' := Next(s, step);
    forall e: nat, key | KeyOf(s', e, key)
      ensures key != ""
    {
      if e < |s.execs| { assert KeyOf(s, e, key); }
    }
  }

  lemma {:induction false} RunNamesKeys(s: State, run: seq<Step>)
    requires NamedKeys(s) && Runs(s, run)
    ensures NamedKeys(End(s, run))
    decreases run
  {
    if run != [] {
      StepNamesKeys(s, run[0]);
      RunNamesKeys(Next(s, run[0]), run[1..]);
    }
  }

  /** Whatever follows a clear, up to the next straddled one, keeps single flight. */
  ghost predicate SafeAfterClear(s: State) {
    forall run :: Runs(Next(s, Clear), run) && NeverStraddles(Next(s, Clear), run) ==>
      OneActivePerKey(End(Next(s, Clear), run))
  }

  /** Single flight survives a clear, in whatever runs follow, if and only if no keyed execution straddles it. */
  lemma {:induction false} ClearIsSafeExactly(before: seq<Step>)
    requires Runs(START, before) && NeverStraddles(START, before)
    ensures SafeAfterClear(End(START, before)) <==> NoStraddle(End(START, before), Clear)
  {
    var s := End(START, before);
    RunKeepsInv(START, before);
    RunNamesKeys(START, before);
    var s1 := Next(s, Clear);
    if NoStraddle(s, Clear) {
      ClearExact(s);
      forall run | Runs(s1, run) && NeverStraddles(s1, run)
        ensures OneActivePerKey(End(s1, run))
      {
        RunKeepsInv(s1, run);
      }
    } else {
      var e: nat, key :| KeyOf(s, e, key) && Active(s, e);
      OneCallDoubles(s, e, key);
    }
  }

  lemma {:induction false} OneCallDoubles(s: State, e: nat, key: string)
    requires KeyOf(s, e, key) && Active(s, e) && key != ""
    ensures !SafeAfterClear(s)
  {
    var plan := Plan(0, Some(key), "");
    var s1, run := Next(s, Clear), [Call(plan)];
    StraddledClearDoubles(s, e, key, plan);
    var s2 := Next(s1, Call(plan));
    assert run[1..] == [] && Runs(s2, []) && End(s2, []) == s2 && NeverStraddles(s2, []);
    assert Runs(s1, run) && End(s1, run) == s2 && NeverStraddles(s1, run);
    assert !OneActivePerKey(s2);
  }

  const P: Plan := Plan(0, Some("a:k"), "f")

  /** Call, clear, call again, finish the first, call once more. */
  const BAD_RUN: seq<Step> := [Call(P), Clear, Call(P), Settle(0, Failed), Finish(0), Call(P)]

  /**
   * An execution that straddles a clear breaks single flight: its `finally` deletes the in-flight record of
   * the execution that replaced it, and the next call starts a third one beside the second.
   */
  lemma {:induction false} StraddledClearBreaksSingleFlight()
    ensures Runs(START, BAD_RUN) && !NeverStraddles(START, BAD_RUN)
    ensures var s := End(START, BAD_RUN);
            KeyOf(s, 1, "a:k") && Active(s, 1) && KeyOf(s, 2, "a:k") && Active(s, 2)
  {
    var s1 := Next(START, BAD_RUN[0]);
    assert s1.execs == [Execution(P, Observing)] && s1.inFlight == map["a:k" := 0];
    var s2 := Next(s1, BAD_RUN[1]);
    var s3 := Next(s2, BAD_RUN[2]);
    assert s3.execs == [Execution(P, Observing), Execution(P, Observing)] && s3.inFlight == map["a:k" := 1];
    var s4 := Next(s3, BAD_RUN[3]);
    assert s4.execs == [Execution(P, Settled(Failed)), Execution(P, Observing)];
    var s5 := Next(s4, BAD_RUN[4]);
    assert s5.execs == [Execution(P, Finished(Failed)), Execution(P, Observing)] && "a:k" !in s5.inFlight;
    var s6 := Next(s5, BAD_RUN[5]);
    assert s6.execs == [Execution(P, Finished(Failed)), Execution(P, Observing), Execution(P, Observing)];
    UnrollSix(BAD_RUN, s1, s2, s3, s4, s5, s6);
    assert KeyOf(s1, 0, "a:k") && Active(s1, 0) && !NoStraddle(s1, Clear);
    assert BAD_RUN[1..][0] == Clear;
  }

  lemma {:induction false} RunsOn(s: State, run: seq<Step>, next: State, last: State)
    requires run != [] && Enabled(s, run[0]) && Next(s, run[0]) == next
    requires Runs(next, run[1..]) && End(next, run[1..]) == last
    ensures Runs(s, run) && End(s, run) == last
  {
  }

  lemma {:induction false} UnrollSix(run: seq<Step>, s1: State, s2: State, s3: State, s4: State, s5: State, s6: State)
    requires |run| == 6
    requires Enabled(START, run[0]) && s1 == Next(START, run[0])
    requires Enabled(s1, run[1]) && s2 == Next(s1, run[1])
    requires Enabled(s2, run[2]) && s3 == Next(s2, run[2])
    requires Enabled(s3, run[3]) && s4 == Next(s3, run[3])
    requires Enabled(s4, run[4]) && s5 == Next(s4, run[4])
    requires Enabled(s5, run[5]) && s6 == Next(s5, run[5])
    ensures Runs(START, run) && End(START, run) == s6
  {
    var r1, r2, r3, r4, r5 := run[1..], run[2..], run[3..], run[4..], run[5..];
    assert r5[1..] == [];
    assert r1[1..] == r2 && r2[1..] == r3 && r3[1..] == r4 && r4[1..] == r5;
    RunsOn(s5, r5, s6, s6);
    RunsOn(s4, r4, s5, s6);
    RunsOn(s3, r3, s4, s6);
    RunsOn(s2, r2, s3, s6);
    RunsOn(s1, r1, s2, s6);
    RunsOn(START, run, s1, s6);
  }
}
