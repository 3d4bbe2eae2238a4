/** `executeWithRetry` and `sendRequest`: how often a request is sent, and what a POST may be re-sent after. */
module Retry {
  import opened Text

  /** How one send ended: no answer at all, or a response. */
  datatype Answer = Lost | Response(status: nat, misrouted: bool)

  datatype Kind = Network | Authentication | Retryable | UpgradeRequired | Authorization | RateLimit | Server
                | SubscriptionRequired | Other

  /** `looksNetwork`: `isNetworkError` accepts the error, by its status 0 or by its message. */
  datatype Error = Error(kind: Kind, looksNetwork: bool)

  datatype BodyCode = UpgradeCode | CheckoutCode | NoCode

  /** The forced base-URL resolution after a misrouted response. */
  datatype Fallback = SameBase | ResolveThrows(looksNetwork: bool) | OtherBase(answer: Answer)

  /** Everything outside that one attempt meets. */
  datatype Env = Env(
    headersFail: Option<bool>,          // getAuthHeaders throws; does the error look like a network error
    resolveFails: Option<bool>,         // likewise the first base-URL resolution
    first: Answer, lostLooksNetwork: bool,
    fallback: Fallback,
    code: BodyCode, bodyLooksNetwork: bool,
    canRefresh: bool, refreshSucceeds: bool,
    parseFails: Option<bool>)           // a 2xx body that does not parse

  /** A send, its answer, and whether that answer was a 401 after which the tokens were refreshed. */
  datatype Send = Send(answer: Answer, refreshed: bool)

  datatype Result = Succeeded | Threw(error: Error)

  predicate IsSuccess(status: nat) { 200 <= status < 300 }

  function HandleErrorResponse(status: nat, env: Env): Error {
    if status == 0 then Error(Network, env.bodyLooksNetwork)
    else if status == 401 && env.canRefresh then
      if env.refreshSucceeds then Error(Retryable, env.bodyLooksNetwork) else Error(Authentication, false)
    else if status == 426 && env.code == UpgradeCode then Error(UpgradeRequired, env.bodyLooksNetwork)
    else if status == 403 then Error(Authorization, env.bodyLooksNetwork)
    else if status == 429 then Error(RateLimit, env.bodyLooksNetwork)
    else if status >= 500 then Error(Server, env.bodyLooksNetwork)
    else if status == 402 && env.code == CheckoutCode then Error(SubscriptionRequired, env.bodyLooksNetwork)
    else Error(Other, env.bodyLooksNetwork)
  }

  /** The last send of an attempt, judged. */
  function Judge(answer: Answer, env: Env): (Send, Result) {
    match answer
    case Lost => (Send(answer, false), Threw(Error(Other, env.lostLooksNetwork)))
    case Response(status, _) =>
      if IsSuccess(status) then
        (Send(answer, false), if env.parseFails.Some? then Threw(Error(Other, env.parseFails.value)) else Succeeded)
      else
        (Send(answer, status == 401 && env.canRefresh && env.refreshSucceeds), Threw(HandleErrorResponse(status, env)))
  }

  /** One attempt: its sends and how it ended. */
  function Attempt(env: Env): (seq<Send>, Result) {
    if env.headersFail.Some? then ([], Threw(Error(Other, env.headersFail.value)))
    else if env.resolveFails.Some? then ([], Threw(Error(Other, env.resolveFails.value)))
    else if env.first.Response? && env.first.misrouted then
      match env.fallback
      case SameBase => var (send, result) := Judge(env.first, env); ([send], result)
      case ResolveThrows(looks) => ([Send(env.first, false)], Threw(Error(Other, looks)))
      case OtherBase(answer) =>
        var (send, result) := Judge(answer, env); ([Send(env.first, false), send], result)
    else var (send, result) := Judge(env.first, env); ([send], result)
  }

  predicate IsRetryable(kind: Kind) { kind in {Retryable, RateLimit, Server} }

  /** Whether attempt number `attempt` is followed by another. */
  predicate Resends(error: Error, idempotent: bool, attempt: nat, maxRetries: nat) {
    attempt < maxRetries
    && if error.looksNetwork then idempotent
       else (idempotent || error.kind == Retryable) && IsRetryable(error.kind)
  }

  /** All sends of a request from attempt `attempt` on, and how it ends. */
  function Execute(envs: nat -> Env, idempotent: bool, attempt: nat, maxRetries: nat): (seq<Send>, Result)
    decreases maxRetries - attempt
  {
    var (sends, result) := Attempt(envs(attempt));
    if result.Threw? && Resends(result.error, idempotent, attempt, maxRetries) then
      var (more, last) := Execute(envs, idempotent, attempt + 1, maxRetries);
      (sends + more, last)
    else if result.Threw? && result.error.looksNetwork then (sends, Threw(Error(Network, true)))
    else (sends, result)
  }

  // ---------------------------------------------------------------------------
  // Resend discipline
  // ---------------------------------------------------------------------------

  /** What the code takes as leave to send a POST again: refused and re-authorised, or answered off the API's path. */
  predicate SafeToRepeat(send: Send) {
    && send.answer.Response?
    && (send.answer.misrouted || (send.answer.status == 401 && send.refreshed))
  }

  lemma {:induction false} SendsAreBounded(envs: nat -> Env, idempotent: bool, attempt: nat, maxRetries: nat)
    requires attempt <= maxRetries
    ensures |Execute(envs, idempotent, attempt, maxRetries).0| <= 2 * (maxRetries + 1 - attempt)
    decreases maxRetries - attempt
  {
    if attempt < maxRetries {
      SendsAreBounded(envs, idempotent, attempt + 1, maxRetries);
    }
  }

  /** An attempt's sends before its last were misrouted; a retryable refusal means its last was re-authorised. */
  lemma {:induction false} AttemptShape(env: Env)
    ensures var (sends, result) := Attempt(env);
            && |sends| <= 2
            && (|sends| == 2 ==> SafeToRepeat(sends[0]))
            && (result.Threw? && result.error.kind == Retryable ==>
                  |sends| >= 1 && SafeToRepeat(sends[|sends| - 1]))
  {
  }

  predicate AllButLastSafe(sends: seq<Send>) {
    forall i :: 0 <= i < |sends| - 1 ==> SafeToRepeat(sends[i])
  }

  /**
   * Every send of a POST before its last was answered by a misrouted response or by a 401 after which the tokens
   * were refreshed: never lost, never a 429 or 5xx of the API itself.
   */
  lemma {:induction false} PostIsOnlyRepeatedSafely(envs: nat -> Env, attempt: nat, maxRetries: nat)
    ensures AllButLastSafe(Execute(envs, false, attempt, maxRetries).0)
    decreases maxRetries - attempt
  {
    AttemptShape(envs(attempt));
    var (sends, result) := Attempt(envs(attempt));
    if result.Threw? && Resends(result.error, false, attempt, maxRetries) {
      PostIsOnlyRepeatedSafely(envs, attempt + 1, maxRetries);
      var more := Execute(envs, false, attempt + 1, maxRetries).0;
      var all := sends + more;
      assert result.error.kind == Retryable;
      forall i | 0 <= i < |all| - 1
        ensures SafeToRepeat(all[i])
      {
        if i >= |sends| {
          assert all[i] == more[i - |sends|] && SafeToRepeat(more[i - |sends|]);
        } else if i == |sends| - 1 {
          assert all[i] == sends[|sends| - 1] && SafeToRepeat(sends[|sends| - 1]);
        } else {
          assert all[i] == sends[0] && SafeToRepeat(sends[0]);
        }
      }
    }
  }

  // ---------------------------------------------------------------------------
  // What a repeated POST may have done
  // ---------------------------------------------------------------------------

  /** By its answer alone, misrouted or not: no answer, success, a rate limit or a server error may follow the effect. */
  predicate MayHaveRun(answer: Answer) {
    answer.Lost? || IsSuccess(answer.status) || answer.status == 0 || answer.status == 429 || answer.status >= 500
  }

  /** Some send of a request that may have run is followed by another send of it. */
  predicate RepeatsARun(sends: seq<Send>) {
    exists i :: 0 <= i < |sends| - 1 && MayHaveRun(sends[i].answer)
  }

  /** The attempt's first answer looks misrouted though it may follow the effect, and another base URL is found. */
  predicate DoublesInAttempt(env: Env) {
    && env.headersFail.None? && env.resolveFails.None?
    && env.first.Response? && env.first.misrouted && MayHaveRun(env.first) && env.fallback.OtherBase?
  }

  /** Attempt `n` of a POST is made. */
  predicate Reaches(envs: nat -> Env, attempt: nat, n: nat, maxRetries: nat) {
    attempt <= n && forall k :: attempt <= k < n ==>
      var result := Attempt(envs(k)).1; result.Threw? && Resends(result.error, false, k, maxRetries)
  }

  /** Within an attempt a run is repeated exactly in that case; and what another attempt follows did not run. */
  lemma {:induction false} AttemptRuns(env: Env)
    ensures var (sends, result) := Attempt(env);
            && (RepeatsARun(sends) <==> DoublesInAttempt(env))
            && (result.Threw? && result.error.kind == Retryable ==>
                  sends != [] && !MayHaveRun(sends[|sends| - 1].answer))
  {
    var sends := Attempt(env).0;
    if DoublesInAttempt(env) { assert MayHaveRun(sends[0].answer); }
  }

  lemma {:induction false} RepeatsInConcat(a: seq<Send>, b: seq<Send>)
    requires a != [] && !MayHaveRun(a[|a| - 1].answer)
    ensures RepeatsARun(a + b) <==> RepeatsARun(a) || RepeatsARun(b)
  {
    var all := a + b;
    if RepeatsARun(a) {
      var i :| 0 <= i < |a| - 1 && MayHaveRun(a[i].answer);
      assert all[i] == a[i];
    }
    if RepeatsARun(b) {
      var i :| 0 <= i < |b| - 1 && MayHaveRun(b[i].answer);
      assert all[|a| + i] == b[i];
    }
    if RepeatsARun(all) {
      var i :| 0 <= i < |all| - 1 && MayHaveRun(all[i].answer);
      if i < |a| { assert a[i] == all[i]; } else { assert b[i - |a|] == all[i]; }
    }
  }

  lemma {:induction false} ReachesNext(envs: nat -> Env, attempt: nat, maxRetries: nat, n: nat)
    requires n > attempt
    ensures Reaches(envs, attempt, n, maxRetries)
            <==> && Attempt(envs(attempt)).1.Threw?
                 && Resends(Attempt(envs(attempt)).1.error, false, attempt, maxRetries)
                 && Reaches(envs, attempt + 1, n, maxRetries)
  {
  }

  /**
   * A POST is sent again after a send that may have run exactly when some attempt that is made gets a first answer
   * which looks misrouted though it is a success, a rate limit or a server error, and finds another base URL.
   */
  lemma {:induction false} PostRepeatsARunExactly(envs: nat -> Env, attempt: nat, maxRetries: nat)
    ensures RepeatsARun(Execute(envs, false, attempt, maxRetries).0)
            <==> exists n: nat :: Reaches(envs, attempt, n, maxRetries) && DoublesInAttempt(envs(n))
    decreases maxRetries - attempt
  {
    var (sends, result) := Attempt(envs(attempt));
    AttemptRuns(envs(attempt));
    assert Reaches(envs, attempt, attempt, maxRetries);
    forall n: nat | n > attempt
      ensures Reaches(envs, attempt, n, maxRetries)
              <==> result.Threw? && Resends(result.error, false, attempt, maxRetries) && Reaches(envs, attempt + 1, n, maxRetries)
    {
      ReachesNext(envs, attempt, maxRetries, n);
    }
    if result.Threw? && Resends(result.error, false, attempt, maxRetries) {
      assert result.error.kind == Retryable;
      PostRepeatsARunExactly(envs, attempt + 1, maxRetries);
      RepeatsInConcat(sends, Execute(envs, false, attempt + 1, maxRetries).0);
    }
  }

  /** Such an input: a gateway's HTML page with status 504 looks misrouted, and the POST goes to another base as well. */
  lemma {:induction false} GatewayPageRepeatsAPost(envs: nat -> Env, maxRetries: nat)
    requires envs(0) == Env(None, None, Response(504, true), false, OtherBase(Response(200, false)), NoCode, false, false, false, None)
    ensures Execute(envs, false, 0, maxRetries)
            == ([Send(Response(504, true), false), Send(Response(200, false), false)], Succeeded)
    ensures RepeatsARun(Execute(envs, false, 0, maxRetries).0)
  {
    assert MayHaveRun(Execute(envs, false, 0, maxRetries).0[0].answer);
  }

  // ---------------------------------------------------------------------------
  // How long a request is tried
  // ---------------------------------------------------------------------------

  /** The answer an attempt is judged by, when it gets to send: the other base's, if the first looked misrouted. */
  function LastAnswer(env: Env): Answer {
    if env.first.Response? && env.first.misrouted && env.fallback.OtherBase? then env.fallback.answer else env.first
  }

  /** The attempt sends, and is not stopped by failing to find another base. */
  predicate GetsAnAnswer(env: Env) {
    && env.headersFail.None? && env.resolveFails.None?
    && !(env.first.Response? && env.first.misrouted && env.fallback.ResolveThrows?)
  }

  /** An attempt succeeds exactly when its last answer is a 2xx whose body parses. */
  lemma {:induction false} AttemptSucceedsExactly(env: Env)
    ensures Attempt(env).1.Succeeded?
            <==> && GetsAnAnswer(env) && LastAnswer(env).Response? && 200 <= LastAnswer(env).status <= 299
                 && env.parseFails.None?
    ensures |Attempt(env).0|
            == if env.headersFail.Some? || env.resolveFails.Some? then 0
               else if env.first.Response? && env.first.misrouted && env.fallback.OtherBase? then 2 else 1
  {
  }

  /** What a refused answer is reported as: which kind of error says which answer it was. */
  lemma {:induction false} RefusalSays(env: Env)
    requires GetsAnAnswer(env) && LastAnswer(env).Response? && !(200 <= LastAnswer(env).status <= 299)
    ensures Attempt(env).1.Threw?
    ensures var status, e := LastAnswer(env).status, Attempt(env).1.error;
            && (e.kind == Network <==> status == 0)
            && (e.kind in {Retryable, Authentication} <==> status == 401 && env.canRefresh)
            && (e.kind == Retryable ==> env.refreshSucceeds) && (e.kind == Authentication ==> !env.refreshSucceeds)
            && (e.kind == UpgradeRequired <==> status == 426 && env.code == UpgradeCode)
            && (e.kind == Authorization <==> status == 403) && (e.kind == RateLimit <==> status == 429)
            && (e.kind == Server <==> status >= 500) && (e.kind == SubscriptionRequired <==> status == 402 && env.code == CheckoutCode)
            && e.looksNetwork == (env.bodyLooksNetwork && e.kind != Authentication)
  {
  }

  /** The attempt ends in a way that may pass: no connection, a rate limit, a server error, or a refreshed token. */
  predicate Passing(env: Env) {
    && GetsAnAnswer(env)
    && (if LastAnswer(env).Lost? then env.lostLooksNetwork
        else
          || LastAnswer(env).status == 429 || LastAnswer(env).status >= 500
          || (LastAnswer(env).status == 401 && env.canRefresh && env.refreshSucceeds))
  }

  /** The token was refreshed after a 401, whose body does not read like a network error. */
  predicate Reauthorised(env: Env) {
    && GetsAnAnswer(env) && LastAnswer(env).Response? && LastAnswer(env).status == 401
    && env.canRefresh && env.refreshSucceeds && !env.bodyLooksNetwork
  }

  /** All sends of attempts `n` up to and with `last`. */
  function SendsUpTo(envs: nat -> Env, n: nat, last: nat): seq<Send>
    decreases last - n
  {
    Attempt(envs(n)).0 + if n >= last then [] else SendsUpTo(envs, n + 1, last)
  }

  /** Attempts `first` up to `last` are made: each before ended in a way after which the request may be sent again. */
  predicate TriedUpTo(envs: nat -> Env, idempotent: bool, first: nat, last: nat) {
    first <= last && forall k :: first <= k < last ==> GoesOn(envs(k), idempotent)
  }

  /** An idempotent request goes on after any passing end or one that reads like a network error, a POST after a refresh. */
  predicate GoesOn(env: Env, idempotent: bool) {
    if idempotent then Passing(env) || (Attempt(env).1.Threw? && Attempt(env).1.error.looksNetwork) else Reauthorised(env)
  }

  lemma {:induction false} GoesOnExactly(env: Env, idempotent: bool, attempt: nat, maxRetries: nat)
    requires attempt < maxRetries
    ensures Attempt(env).1.Threw? && Resends(Attempt(env).1.error, idempotent, attempt, maxRetries) <==> GoesOn(env, idempotent)
  {
  }

  /** What a request's last attempt makes of it: an error that reads like a network error is reported as one. */
  function Reported(result: Result): Result {
    if result.Threw? && result.error.looksNetwork then Threw(Error(Network, true)) else result
  }

  /**
   * A request makes attempts until one ends in a way it does not go on after, or it has made its retries; it sends what
   * they send and answers as the last of them.
   */
  lemma {:induction false} TriesExactly(envs: nat -> Env, idempotent: bool, attempt: nat, maxRetries: nat, last: nat)
    requires attempt <= maxRetries && TriedUpTo(envs, idempotent, attempt, last) && last <= maxRetries
    requires last == maxRetries || !GoesOn(envs(last), idempotent)
    ensures Execute(envs, idempotent, attempt, maxRetries)
            == (SendsUpTo(envs, attempt, last), Reported(Attempt(envs(last)).1))
    decreases last - attempt
  {
    if attempt < maxRetries { GoesOnExactly(envs(attempt), idempotent, attempt, maxRetries); }
    if attempt < last {
      TriesExactly(envs, idempotent, attempt + 1, maxRetries, last);
    } else {
      var sends := Attempt(envs(attempt)).0;
      assert sends + [] == sends;
    }
  }

  /** So a request succeeds exactly when an attempt it makes gets a 2xx that parses. */
  lemma {:induction false} SucceedsExactly(envs: nat -> Env, idempotent: bool, attempt: nat, maxRetries: nat)
    requires attempt <= maxRetries
    ensures Execute(envs, idempotent, attempt, maxRetries).1.Succeeded?
            <==> exists n :: attempt <= n <= maxRetries && TriedUpTo(envs, idempotent, attempt, n) && Attempt(envs(n)).1.Succeeded?
  {
    var last := LastTry(envs, idempotent, attempt, maxRetries);
    TriesExactly(envs, idempotent, attempt, maxRetries, last);
    if n :| attempt <= n <= maxRetries && TriedUpTo(envs, idempotent, attempt, n) && Attempt(envs(n)).1.Succeeded? {
      assert !GoesOn(envs(n), idempotent) by { AttemptSucceedsExactly(envs(n)); }
      assert last == n;
    }
  }

  function LastTry(envs: nat -> Env, idempotent: bool, attempt: nat, maxRetries: nat): (last: nat)
    requires attempt <= maxRetries
    ensures attempt <= last <= maxRetries && TriedUpTo(envs, idempotent, attempt, last)
    ensures last == maxRetries || !GoesOn(envs(last), idempotent)
    decreases maxRetries - attempt
  {
    if attempt == maxRetries || !GoesOn(envs(attempt), idempotent) then attempt
    else LastTry(envs, idempotent, attempt + 1, maxRetries)
  }

  /** The bound is met: a request misrouted every time, then refused and re-authorised, uses all its sends. */
  lemma {:induction false} BoundIsMet(idempotent: bool, attempt: nat, maxRetries: nat) returns (envs: nat -> Env)
    requires attempt <= maxRetries
    ensures |Execute(envs, idempotent, attempt, maxRetries).0| == 2 * (maxRetries + 1 - attempt)
  {
    var env := Env(None, None, Response(200, true), false, OtherBase(Response(401, false)), NoCode, false, true, true, None);
    envs := _ => env;
    AlwaysTwice(envs, env, idempotent, attempt, maxRetries);
  }

  lemma {:induction false} AlwaysTwice(envs: nat -> Env, env: Env, idempotent: bool, attempt: nat, maxRetries: nat)
    requires attempt <= maxRetries && forall i :: envs(i) == env
    requires env == Env(None, None, Response(200, true), false, OtherBase(Response(401, false)), NoCode, false, true, true, None)
    ensures |Execute(envs, idempotent, attempt, maxRetries).0| == 2 * (maxRetries + 1 - attempt)
    decreases maxRetries - attempt
  {
    if attempt < maxRetries {
      AlwaysTwice(envs, env, idempotent, attempt + 1, maxRetries);
    }
  }
}
