/** The retry loop around a transfer: a bounded number of attempts with waits in
    between that double up to 1024 seconds. */
module Retry {
  import opened Basics
  import opened Wrappers
  import opened Redirect

  datatype Code = OperationAborted | ConnectionRefused | BinaryOutputToTty | OtherCode

  /** What one attempt ends with. */
  datatype Attempted = Status(status: nat) | SystemError(code: Code) | OtherException

  datatype RetryConfig = RetryConfig(reqRetry: nat, retryDelay: Option<nat>, allErrors: bool, connRefused: bool)

  /** What the outside contributes to one attempt: how the part before the first
      connection ends the transfer if it does, the network, the error code a
      failure of it carries, how the part after the redirect loop fails if it
      does, whether the time for retries has run out, cancellation, and whether
      the wait before the next attempt is aborted. */
  datatype Attempt = Attempt(
    early: Option<Attempted>, connects: bool, env: seq<Exchange>, code: Code, tail: Option<Attempted>,
    late: bool, cancelled: bool, waitAborted: bool)

  /** An aborted wait throws out of the loop. */
  datatype Result = Returned | Rethrown | WaitThrew | Pending

  predicate IsTransient(status: nat) { status in {408, 429, 500, 502, 503, 504} }

  /** The result of one attempt, given how its redirect loop ended. */
  function AttemptResult(a: Attempt, o: Outcome): Attempted
    requires !o.Unfinished?
  {
    match o
    case Final(status) => a.tail.GetOr(Status(status))
    case Threw(RequestFailed(_)) => SystemError(a.code)
    case Threw(ConnectFailed) => SystemError(a.code)
    case Threw(BadSetCookie) => SystemError(OtherCode)
    case Threw(_) => OtherException
  }

  /** An attempt's result and circumstances allow another attempt. */
  predicate Retryable(cfg: RetryConfig, a: Attempt, r: Attempted) {
    && !a.late && !a.cancelled
    && match r
       case Status(status) => IsTransient(status)
       case SystemError(code) =>
         && code != BinaryOutputToTty
         && (cfg.allErrors || code == OperationAborted || (cfg.connRefused && code == ConnectionRefused))
       case OtherException => false
  }

  /** Which results are worth another attempt, spelled out: six statuses, an aborted
      operation, a refused connection if that was asked for, and with `allErrors`
      every error code but the terminal's refusal of binary output. */
  lemma RetryableIs(cfg: RetryConfig, a: Attempt, status: nat)
    ensures Retryable(cfg, a, Status(status)) <==>
              && !a.late && !a.cancelled
              && (status == 408 || status == 429 || status == 500 || status == 502 || status == 503 || status == 504)
    ensures Retryable(cfg, a, SystemError(OperationAborted)) <==> !a.late && !a.cancelled
    ensures Retryable(cfg, a, SystemError(ConnectionRefused)) <==>
              !a.late && !a.cancelled && (cfg.allErrors || cfg.connRefused)
    ensures Retryable(cfg, a, SystemError(OtherCode)) <==> !a.late && !a.cancelled && cfg.allErrors
    ensures !Retryable(cfg, a, SystemError(BinaryOutputToTty)) && !Retryable(cfg, a, OtherException)
  {
  }

  /** How a transfer that is not repeated ends. */
  function Ending(cfg: RetryConfig, a: Attempt, r: Attempted, retries: nat): Result {
    match r
    case Status(_) => Returned
    case OtherException => Rethrown
    case SystemError(code) =>
      if code == BinaryOutputToTty then Returned
      else if a.cancelled && retries > 0 && Retryable(cfg, a.(cancelled := false), r) then Returned
      else Rethrown
  }

  /** How an attempt that is not repeated ends the transfer, spelled out: a status and
      refused binary output quietly, a cancelled transfer quietly too if it would have
      been repeated, and any other exception by being thrown on. */
  lemma EndingIs(cfg: RetryConfig, a: Attempt, status: nat, code: Code, retries: nat)
    ensures Ending(cfg, a, Status(status), retries) == Returned
    ensures Ending(cfg, a, OtherException, retries) == Rethrown
    ensures Ending(cfg, a, SystemError(BinaryOutputToTty), retries) == Returned
    ensures code != BinaryOutputToTty ==>
              Ending(cfg, a, SystemError(code), retries) ==
              if a.cancelled && retries > 0 && !a.late
                 && (|| cfg.allErrors || code == OperationAborted
                     || (cfg.connRefused && code == ConnectionRefused))
              then Returned else Rethrown
  {
  }

  /** The result of a whole attempt; none while its redirect loop has not ended. */
  function ResultOf(cfg: Config, first: Url, a: Attempt): Option<Attempted> {
    if a.early.Some? then a.early
    else
      var o := OutcomeOf(cfg, first, a.connects, a.env);
      if o.Unfinished? then None else Some(AttemptResult(a, o))
  }

  /** What an attempt is judged by: a failure before the first connection as it is; a
      connection that cannot be opened, or a request that fails, by its error code;
      a malformed Set-Cookie by a code of its own; other exceptions of the redirect
      loop not at all; and else the status, unless what follows the loop fails. */
  lemma JudgedBy(cfg: Config, first: Url, a: Attempt)
    ensures a.early.Some? ==> ResultOf(cfg, first, a) == a.early
    ensures a.early.None? && !a.connects ==> ResultOf(cfg, first, a) == Some(SystemError(a.code))
    ensures a.early.None? ==>
              match OutcomeOf(cfg, first, a.connects, a.env)
              case Unfinished => ResultOf(cfg, first, a) == None
              case Final(status) =>
                ResultOf(cfg, first, a) == Some(if a.tail.Some? then a.tail.value else Status(status))
              case Threw(reason) =>
                ResultOf(cfg, first, a) ==
                if reason.RequestFailed? || reason.ConnectFailed? then Some(SystemError(a.code))
                else if reason.BadSetCookie? then Some(SystemError(OtherCode))
                else Some(OtherException)
  {
  }

  function Pow2(k: nat): nat { if k == 0 then 1 else 2 * Pow2(k - 1) }

  function Min(a: nat, b: nat): nat { if a < b then a else b }

  /** The k-th wait, counting from one. */
  function Wait(cfg: RetryConfig, k: nat): nat {
    match cfg.retryDelay
    case Some(d) => d
    case None => Min(Pow2(k), 1024)
  }

  lemma {:induction false} PowersGrow(j: nat, k: nat)
    requires j <= k
    ensures Pow2(j) <= Pow2(k)
  {
    if j < k {
      PowersGrow(j, k - 1);
    }
  }

  /** Doubling while below ten minutes, starting from one second, gives the powers
      of two up to 1024 and then 1024 for ever. */
  lemma BackoffStep(k: nat)
    ensures var b := Min(Pow2(k), 1024);
            (if b < 600 then b * 2 else b) == Min(Pow2(k + 1), 1024)
  {
    assert Pow2(9) == 512 && Pow2(10) == 1024 by {
      assert Pow2(5) == 32;
    }
    if k <= 9 {
      PowersGrow(k, 9);
      PowersGrow(k + 1, 10);
    } else {
      PowersGrow(10, k);
      PowersGrow(10, k + 1);
    }
  }

  method CanRetry(cfg: RetryConfig, retries: nat, late: bool, ec: Option<Code>) returns (ok: bool)
    ensures ok <==> retries != 0 && !late
                    && (ec.None? || cfg.allErrors || ec.value == OperationAborted
                        || (cfg.connRefused && ec.value == ConnectionRefused))
  {
    if retries == 0 || late {
      return false;
    }
    if cfg.allErrors {
      return true;
    }
    if ec.None? {
      return true;
    }
    if ec.value == OperationAborted {
      return true;
    }
    if cfg.connRefused && ec.value == ConnectionRefused {
      return true;
    }
    return false;
  }

  /** What follows from an attempt's result: another attempt, or this ending. */
  method Judge(cfg: RetryConfig, a: Attempt, r: Attempted, retries: nat) returns (ending: Option<Result>)
    ensures ending.None? <==> Retryable(cfg, a, r) && retries > 0
    ensures ending.Some? ==> ending.value == Ending(cfg, a, r, retries)
  {
    match r {
      case Status(status) =>
        var ok := CanRetry(cfg, retries, a.late, None);
        if !IsTransient(status) || !ok {
          return Some(Returned);
        }
      case SystemError(code) =>
        if code == BinaryOutputToTty {
          return Some(Returned);
        }
        var ok := CanRetry(cfg, retries, a.late, Some(code));
        if !ok {
          return Some(Rethrown);
        }
      case OtherException =>
        return Some(Rethrown);
    }
    return if a.cancelled then Some(Returned) else None;
  }

  lemma OneAttemptMore(exchanges: nat, count: nat, n: nat, limit: nat, m: nat)
    requires exchanges <= n * m && count <= m && n <= limit
    ensures exchanges + count <= (n + 1) * m <= (limit + 1) * m
  {
    TimesMonotone(n + 1, limit + 1, m);
    assert (n + 1) * m == n * m + m;
  }

  /** One attempt: what comes before the first connection, the redirect loop, and
      what comes after it. */
  method Perform(cfg: Config, first: Url, req: Request, body: Option<string>, a: Attempt)
    returns (r: Option<Attempted>, count: nat)
    ensures r == ResultOf(cfg, first, a) && count <= cfg.maxRedirs + 1
  {
    if a.early.Some? {
      return a.early, 0;
    }
    var sent, outcome := FollowRedirects(cfg, first, req, body, a.connects, a.env);
    if sent != [] {
      FirstEndDecides(cfg, first, a.env, 0, |sent|);
    }
    count := |sent|;
    if outcome.Unfinished? {
      r := None;
    } else {
      r := Some(AttemptResult(a, outcome));
    }
  }

  /** Exchanges of all attempts together stay below the product of the two bounds,
      every attempt but the last was retryable, the waits are as computed, and the
      retry counter accounts for them exactly. */
  method RunWithRetries(cfg: Config, rcfg: RetryConfig, first: Url, req: Request, body: Option<string>,
                        attempts: seq<Attempt>)
    returns (waits: seq<nat>, results: seq<Attempted>, exchanges: nat, retries: nat, result: Result)
    ensures retries + |waits| == rcfg.reqRetry
    ensures exchanges <= (rcfg.reqRetry + 1) * (cfg.maxRedirs + 1)
    ensures forall i | 0 <= i < |waits| ::
              waits[i] == if rcfg.retryDelay.Some? then rcfg.retryDelay.value else Min(Pow2(i + 1), 1024)
    ensures |waits| <= |results| <= |waits| + 1 && |results| <= |attempts|
    ensures forall i | 0 <= i < |waits| :: Retryable(rcfg, attempts[i], results[i])
    ensures forall i | 0 <= i < |results| :: ResultOf(cfg, first, attempts[i]) == Some(results[i])
    ensures forall i | 0 <= i < |waits| :: attempts[i].waitAborted <==> result.WaitThrew? && i == |waits| - 1
    ensures result.WaitThrew? ==> 0 < |waits| == |results|
    ensures result.Pending? ==> |results| == |waits|
    ensures result.Pending? && |waits| < |attempts| ==> ResultOf(cfg, first, attempts[|waits|]) == None
    ensures result.Returned? || result.Rethrown? ==>
              && |results| == |waits| + 1
              && (!Retryable(rcfg, attempts[|waits|], results[|waits|]) || retries == 0)
              && result == Ending(rcfg, attempts[|waits|], results[|waits|], retries)
  {
    waits, results, exchanges, retries, result := [], [], 0, rcfg.reqRetry, Pending;
    var backoff := 1;
    for n := 0 to |attempts|
      invariant |waits| == |results| == n && retries + n == rcfg.reqRetry
      invariant exchanges <= n * (cfg.maxRedirs + 1)
      invariant rcfg.retryDelay.None? ==> backoff == Min(Pow2(n), 1024)
      invariant forall i | 0 <= i < n :: waits[i] == Wait(rcfg, i + 1)
      invariant forall i | 0 <= i < n :: Retryable(rcfg, attempts[i], results[i])
      invariant forall i | 0 <= i < n :: ResultOf(cfg, first, attempts[i]) == Some(results[i])
      invariant forall i | 0 <= i < n :: !attempts[i].waitAborted
      invariant result == Pending
    {
      var a := attempts[n];
      var o, count := Perform(cfg, first, req, body, a);
      OneAttemptMore(exchanges, count, n, rcfg.reqRetry, cfg.maxRedirs + 1);
      exchanges := exchanges + count;
      if o.None? {
        return;
      }
      var r := o.value;
      results := results + [r];
      var ending := Judge(rcfg, a, r, retries);
      if ending.Some? {
        result := ending.value;
        return;
      }
      var delay;
      if rcfg.retryDelay.Some? {
        delay := rcfg.retryDelay.value;
      } else {
        BackoffStep(n);
        if backoff < 600 {
          backoff := backoff * 2;
        }
        delay := backoff;
      }
      waits := waits + [delay];
      retries := retries - 1;
      if a.waitAborted {
        result := WaitThrew;
        return;
      }
    }
    TimesMonotone(|attempts|, rcfg.reqRetry + 1, cfg.maxRedirs + 1);
  }
}
