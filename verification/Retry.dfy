/** Bounded retry with exponential backoff and jitter. What the method does, the random draws and the moment the
    caller's signal fires are a call's environment. */
module Retry {
  import opened Options

  datatype Config = Config(attempts: real, backoffMs: int, jitter: bool)

  /** `ok(k)` and `duration(k)` belong to attempt `k`; `draw(k)` is the random number drawn after it, already
      scaled to the backoff and rounded down; `abortAt` is when the signal fires. */
  datatype Environment = Environment(ok: nat -> bool, duration: nat -> nat, draw: nat -> nat, abortAt: Option<int>)

  /** One without a configured number, otherwise its floor, but at least one. */
  function Attempts(cfg: Option<Config>): (n: nat)
    ensures n >= 1 && (cfg.None? ==> n == 1)
    ensures cfg.Some? ==> (n == 1 || n as real <= cfg.value.attempts) && cfg.value.attempts < (n + 1) as real
  {
    if cfg.None? || cfg.value.attempts.Floor < 1 then 1 else cfg.value.attempts.Floor
  }

  function Base(cfg: Option<Config>): int { if cfg.None? then 0 else cfg.value.backoffMs }

  function Pow2(k: nat): (r: nat)
    ensures r >= 1
  {
    if k == 0 then 1 else 2 * Pow2(k - 1)
  }

  /** The wait after failed attempt `k`. */
  function Backoff(cfg: Option<Config>, env: Environment, k: nat): int
    requires k >= 1
  {
    Base(cfg) * Pow2(k - 1) + if cfg.Some? && cfg.value.jitter then env.draw(k) else 0
  }

  datatype Result = Succeeded | Failed | Aborted

  /** How a call ended, when its attempts started, and how long it waited between them in full waits. */
  datatype Trace = Trace(result: Result, starts: seq<int>, waited: int)

  predicate AbortedBy(env: Environment, t: int) { env.abortAt.Some? && env.abortAt.value <= t }

  /** Whether a wait of `ms` from time `t` is cut short. A wait of no time is not a wait. */
  predicate WaitAborted(env: Environment, t: int, ms: int)
  {
    ms > 0 && env.abortAt.Some? && (AbortedBy(env, t) || env.abortAt.value < t + ms)
  }

  function After(ms: int): (wait: nat) { if ms > 0 then ms else 0 }

  /** The call from attempt `k` on, started at time `now`. */
  function From(cfg: Option<Config>, env: Environment, k: nat, now: int): Trace
    requires 1 <= k <= Attempts(cfg)
    decreases Attempts(cfg) - k
  {
    var done := now + env.duration(k);
    if env.ok(k) then Trace(Succeeded, [now], 0)
    else if k >= Attempts(cfg) then Trace(Failed, [now], 0)
    else
      var ms := Backoff(cfg, env, k);
      if WaitAborted(env, done, ms) then Trace(Aborted, [now], 0)
      else
        var rest := From(cfg, env, k + 1, done + After(ms));
        Trace(rest.result, [now] + rest.starts, After(ms) + rest.waited)
  }

  /** `sleep`, as the loop sees it: a wait of some length is cut short exactly when the signal has fired before it
      or fires before it is over. */
  method Sleep(env: Environment, now: int, ms: int) returns (aborted: bool, later: int)
    ensures aborted <==> ms > 0 && env.abortAt.Some? && env.abortAt.value < now + ms
    ensures !aborted ==> later == if ms > 0 then now + ms else now
  {
    if ms <= 0 {
      return false, now;
    }
    if AbortedBy(env, now) {
      return true, now;
    }
    if env.abortAt.Some? && env.abortAt.value < now + ms {
      return true, env.abortAt.value;
    }
    return false, now + ms;
  }

  lemma AttemptEnds(cfg: Option<Config>, env: Environment, k: nat, now: int)
    requires 1 <= k <= Attempts(cfg)
    ensures env.ok(k) ==> From(cfg, env, k, now) == Trace(Succeeded, [now], 0)
    ensures !env.ok(k) && k == Attempts(cfg) ==> From(cfg, env, k, now) == Trace(Failed, [now], 0)
  {
  }

  /** A failed attempt that is not the last: the wait is cut short, or the rest follows after it. */
  lemma NextAttempt(cfg: Option<Config>, env: Environment, k: nat, now: int, starts: seq<int>, waited: int)
    requires 1 <= k <= Attempts(cfg)
    ensures var t, done, ms := From(cfg, env, k, now), now + env.duration(k), Backoff(cfg, env, k);
            !env.ok(k) && k < Attempts(cfg) ==>
              if WaitAborted(env, done, ms) then t == Trace(Aborted, [now], 0)
              else
                var rest := From(cfg, env, k + 1, done + After(ms));
                && t.result == rest.result && waited + t.waited == waited + After(ms) + rest.waited
                && starts + t.starts == starts + [now] + rest.starts
  {
    hide Backoff, After, WaitAborted;
  }

  // ----- what a trace is, read off the attempts alone -----

  /** The time between the end of attempt `k` and the start of the next: twice as long each time, and a random
      amount on top when there is jitter. */
  function Pause(cfg: Option<Config>, env: Environment, k: nat): int
    requires k >= 1
  {
    if cfg.None? then 0 else cfg.value.backoffMs * Pow2(k - 1) + if cfg.value.jitter then env.draw(k) else 0
  }

  /** How long `n` attempts from attempt `k` on took. */
  function Durations(env: Environment, k: nat, n: nat): nat
    decreases n
  {
    if n == 0 then 0 else env.duration(k) + Durations(env, k + 1, n - 1)
  }

  /** The attempt that started at `start` failed and was followed by another, a pause after it, with no signal
      before the pause was over. */
  predicate WentOn(cfg: Option<Config>, env: Environment, k: nat, start: int, next: int)
    requires k >= 1
  {
    var ms := Pause(cfg, env, k);
    && !env.ok(k) && next == start + env.duration(k) + (if ms > 0 then ms else 0)
    && (ms > 0 && env.abortAt.Some? ==> env.abortAt.value >= next)
  }

  /** The attempt that started at `start` failed and the signal fires before the pause after it is over. */
  predicate CutShort(cfg: Option<Config>, env: Environment, k: nat, start: int)
    requires k >= 1
  {
    var ms := Pause(cfg, env, k);
    !env.ok(k) && ms > 0 && env.abortAt.Some? && env.abortAt.value < start + env.duration(k) + ms
  }

  /** A trace from attempt `first` on: attempts one after the other until one succeeds, the last one allowed has
      failed, or the signal fires before the pause after a failed one is over. */
  ghost predicate IsTrace(cfg: Option<Config>, env: Environment, first: nat, startedAt: int, t: Trace)
    requires first >= 1
  {
    && 1 <= |t.starts| && t.starts[0] == startedAt
    && var last := first + |t.starts| - 1;
       && last <= Attempts(cfg)
       && (forall i: nat :: i + 1 < |t.starts| ==> WentOn(cfg, env, first + i, t.starts[i], t.starts[i + 1]))
       && (t.result == Succeeded ==> env.ok(last))
       && (t.result == Failed ==> !env.ok(last) && last == Attempts(cfg))
       && (t.result == Aborted ==> last < Attempts(cfg) && CutShort(cfg, env, last, t.starts[|t.starts| - 1]))
       && t.waited == t.starts[|t.starts| - 1] - startedAt - Durations(env, first, |t.starts| - 1)
  }

  lemma TraceMore(cfg: Option<Config>, env: Environment, k: nat, now: int, next: int, t: Trace, rest: Trace)
    requires 1 <= k < Attempts(cfg) && WentOn(cfg, env, k, now, next)
    requires t == Trace(rest.result, [now] + rest.starts, next - now - env.duration(k) + rest.waited)
    ensures IsTrace(cfg, env, k + 1, next, rest) ==> IsTrace(cfg, env, k, now, t)
  {
    hide Pause, WentOn, CutShort;
    if IsTrace(cfg, env, k + 1, next, rest) {
      forall i: nat | i + 1 < |t.starts| ensures WentOn(cfg, env, k + i, t.starts[i], t.starts[i + 1]) {
        if i > 0 { assert WentOn(cfg, env, k + 1 + (i - 1), rest.starts[i - 1], rest.starts[i]); }
      }
    }
  }

  lemma {:induction false} FromIsTrace(cfg: Option<Config>, env: Environment, k: nat, now: int)
    requires 1 <= k <= Attempts(cfg)
    ensures IsTrace(cfg, env, k, now, From(cfg, env, k, now))
    decreases Attempts(cfg) - k
  {
    assert k < Attempts(cfg) ==> Backoff(cfg, env, k) == Pause(cfg, env, k);
    if !env.ok(k) && k < Attempts(cfg) {
      var done, ms := now + env.duration(k), Backoff(cfg, env, k);
      if !WaitAborted(env, done, ms) {
        FromIsTrace(cfg, env, k + 1, done + After(ms));
        hide IsTrace;
        TraceMore(cfg, env, k, now, done + After(ms), From(cfg, env, k, now), From(cfg, env, k + 1, done + After(ms)));
      }
    }
  }

  /** Attempts, pauses and signal leave one trace. */
  lemma {:induction false} OneTrace(cfg: Option<Config>, env: Environment, first: nat, startedAt: int, t: Trace, u: Trace)
    requires first >= 1 && IsTrace(cfg, env, first, startedAt, t) && IsTrace(cfg, env, first, startedAt, u)
    ensures t == u
  {
    NotLonger(cfg, env, first, startedAt, t, u);
    NotLonger(cfg, env, first, startedAt, u, t);
    var k := |t.starts|;
    SameStarts(cfg, env, first, startedAt, t, u, k);
    assert t.starts[..k] == t.starts && u.starts[..k] == u.starts;
  }

  lemma StopsThere(cfg: Option<Config>, env: Environment, first: nat, startedAt: int, t: Trace, next: int)
    requires first >= 1 && IsTrace(cfg, env, first, startedAt, t) && first + |t.starts| <= Attempts(cfg)
    ensures !WentOn(cfg, env, first + |t.starts| - 1, t.starts[|t.starts| - 1], next)
  {
  }

  lemma NotLonger(cfg: Option<Config>, env: Environment, first: nat, startedAt: int, t: Trace, u: Trace)
    requires first >= 1 && IsTrace(cfg, env, first, startedAt, t) && IsTrace(cfg, env, first, startedAt, u)
    ensures |t.starts| >= |u.starts|
  {
    var k := |t.starts|;
    if k < |u.starts| {
      SameStarts(cfg, env, first, startedAt, t, u, k);
      assert t.starts[..k][k - 1] == u.starts[..k][k - 1];
      StopsThere(cfg, env, first, startedAt, t, u.starts[k]);
    }
  }

  lemma {:induction false} SameStarts(cfg: Option<Config>, env: Environment, first: nat, startedAt: int, t: Trace, u: Trace, k: nat)
    requires first >= 1 && IsTrace(cfg, env, first, startedAt, t) && IsTrace(cfg, env, first, startedAt, u)
    requires k <= |t.starts| && k <= |u.starts|
    ensures t.starts[..k] == u.starts[..k]
  {
    if k > 0 { SameStarts(cfg, env, first, startedAt, t, u, k - 1); }
    if k > 1 {
      assert WentOn(cfg, env, first + (k - 2), t.starts[k - 2], t.starts[k - 1]);
      assert WentOn(cfg, env, first + (k - 2), u.starts[k - 2], u.starts[k - 1]);
      assert t.starts[..k - 1][k - 2] == t.starts[k - 2] && u.starts[..k - 1][k - 2] == u.starts[k - 2];
    }
  }

  /** Without a signal, attempts are made up to the first that succeeds, or all of them. */
  lemma WithoutSignal(cfg: Option<Config>, env: Environment, now: int, t: Trace)
    requires env.abortAt.None? && IsTrace(cfg, env, 1, now, t)
    ensures (forall j :: 1 <= j < |t.starts| ==> !env.ok(j)) && 1 <= |t.starts| <= Attempts(cfg)
    ensures |t.starts| == Attempts(cfg) || env.ok(|t.starts|)
    ensures t.result == if env.ok(|t.starts|) then Succeeded else Failed
  {
    forall j | 1 <= j < |t.starts| ensures !env.ok(j) {
      assert WentOn(cfg, env, 1 + (j - 1), t.starts[j - 1], t.starts[j]);
    }
  }

  method RunWithRetry(cfg: Option<Config>, env: Environment, startedAt: int) returns (trace: Trace)
    ensures trace == From(cfg, env, 1, startedAt)
    ensures IsTrace(cfg, env, 1, startedAt, trace)
  {
    hide From, Backoff, IsTrace;
    FromIsTrace(cfg, env, 1, startedAt);
    var attempts := Attempts(cfg);
    var now, starts, waited := startedAt, [], 0;
    for attempt := 1 to attempts + 1
      invariant attempt <= attempts
      invariant var rest := From(cfg, env, attempt, now);
                From(cfg, env, 1, startedAt) == Trace(rest.result, starts + rest.starts, waited + rest.waited)
    {
      AttemptEnds(cfg, env, attempt, now);
      NextAttempt(cfg, env, attempt, now, starts, waited);
      starts := starts + [now];
      now := now + env.duration(attempt);
      if env.ok(attempt) {
        return Trace(Succeeded, starts, waited);
      }
      if attempt >= attempts {
        return Trace(Failed, starts, waited);
      }
      var ms := Backoff(cfg, env, attempt);
      var aborted, later := Sleep(env, now, ms);
      if aborted {
        return Trace(Aborted, starts, waited);
      }
      now := later;
      waited := waited + After(ms);
    }
  }

  // ----- bounds -----

  /** At most `attempts` invocations, and all of them when the call ends in failure. */
  lemma {:induction false} InvocationsBounded(cfg: Option<Config>, env: Environment, k: nat, now: int)
    requires 1 <= k <= Attempts(cfg)
    ensures var t := From(cfg, env, k, now);
            && 1 <= |t.starts| <= Attempts(cfg) - k + 1
            && (t.result == Failed ==> |t.starts| == Attempts(cfg) - k + 1)
            && (t.result == Succeeded <==> |t.starts| >= 1 && env.ok(k + |t.starts| - 1))
            && (forall j :: k <= j < k + |t.starts| - 1 ==> !env.ok(j))
    decreases Attempts(cfg) - k
  {
    if !env.ok(k) && k < Attempts(cfg) {
      InvocationsBounded(cfg, env, k + 1, now + env.duration(k) + After(Backoff(cfg, env, k)));
    }
  }

  /** Every draw is an integer from zero up to the backoff, exclusive. */
  ghost predicate DrawsBelow(env: Environment, base: nat) { forall k :: env.draw(k) < base }

  /** `waited` is within `slots` jitters of the exponential sum from `low` to `high`. */
  predicate WaitBounds(base: int, low: int, high: int, slots: int, waited: int)
  {
    base * high - base * low <= waited <= base * high - base * low + slots * (base - 1)
  }

  lemma OneMoreWait(base: int, low: int, high: int, slots: int, jitter: int, rest: int)
    requires base >= 1 && low >= 1 && 0 <= jitter < base
    requires WaitBounds(base, 2 * low, high, slots, rest)
    ensures base * low >= 1
    ensures WaitBounds(base, low, high, slots + 1, base * low + jitter + rest)
  {
    assert base * (2 * low) == base * low + base * low;
    assert (slots + 1) * (base - 1) == slots * (base - 1) + (base - 1);
  }

  /** A call that fails for good has waited for the sum of the exponential backoffs, plus at most
      `base - 1` of jitter per wait. */
  lemma {:induction false} TotalBackoff(cfg: Option<Config>, env: Environment, k: nat, now: int)
    requires 1 <= k <= Attempts(cfg)
    requires Base(cfg) >= 1 && DrawsBelow(env, Base(cfg))
    requires From(cfg, env, k, now).result == Failed
    ensures WaitBounds(Base(cfg), Pow2(k - 1), Pow2(Attempts(cfg) - 1), Attempts(cfg) - k,
                       From(cfg, env, k, now).waited)
    decreases Attempts(cfg) - k
  {
    var base, n := Base(cfg), Attempts(cfg);
    if k < n {
      var jitter := if cfg.value.jitter then env.draw(k) else 0;
      var next := now + env.duration(k) + After(Backoff(cfg, env, k));
      TotalBackoff(cfg, env, k + 1, next);
      OneMoreWait(base, Pow2(k - 1), Pow2(n - 1), n - (k + 1), jitter, From(cfg, env, k + 1, next).waited);
    }
  }

  /** From the first attempt: between `base * (2^(n-1) - 1)` and that plus `(n-1) * (base-1)`. */
  lemma TotalBackoffOfCall(cfg: Option<Config>, env: Environment, now: int)
    requires Base(cfg) >= 1 && DrawsBelow(env, Base(cfg))
    requires From(cfg, env, 1, now).result == Failed
    ensures var n, base, waited := Attempts(cfg), Base(cfg), From(cfg, env, 1, now).waited;
            base * (Pow2(n - 1) - 1) <= waited <= base * (Pow2(n - 1) - 1) + (n - 1) * (base - 1)
  {
    var n, base := Attempts(cfg), Base(cfg);
    TotalBackoff(cfg, env, 1, now);
    assert base * (Pow2(n - 1) - 1) == base * Pow2(n - 1) - base;
  }

  /** No attempt but the first starts after the signal has fired. */
  predicate QuietAfterAbort(env: Environment, t: Trace)
  {
    forall i :: 1 <= i < |t.starts| && env.abortAt.Some? ==> t.starts[i] <= env.abortAt.value
  }

  /** A backoff of some length looks at the signal. */
  lemma {:induction false} NoAttemptAfterAbort(cfg: Option<Config>, env: Environment, k: nat, now: int)
    requires 1 <= k <= Attempts(cfg) && (k == Attempts(cfg) || Base(cfg) >= 1)
    ensures QuietAfterAbort(env, From(cfg, env, k, now))
    decreases Attempts(cfg) - k
  {
    if !env.ok(k) && k < Attempts(cfg) {
      var done, ms := now + env.duration(k), Backoff(cfg, env, k);
      var rest := From(cfg, env, k + 1, done + After(ms));
      NoAttemptAfterAbort(cfg, env, k + 1, done + After(ms));
      FirstStart(cfg, env, k + 1, done + After(ms));
      if !WaitAborted(env, done, ms) {
        var t := From(cfg, env, k, now);
        forall i | 1 <= i < |t.starts| && env.abortAt.Some? ensures t.starts[i] <= env.abortAt.value {
          assert t.starts[i] == rest.starts[i - 1];
        }
      }
    }
  }

  lemma FirstStart(cfg: Option<Config>, env: Environment, k: nat, now: int)
    requires 1 <= k <= Attempts(cfg)
    ensures From(cfg, env, k, now).starts != [] && From(cfg, env, k, now).starts[0] == now
  {
  }

  /** What the random numbers can be: below the base, and nothing for a base of less than one. */
  ghost predicate PossibleDraws(cfg: Option<Config>, env: Environment)
  {
    forall k :: env.draw(k) == 0 || env.draw(k) < Base(cfg)
  }

  /** In every call, no attempt but the first starts after the signal has fired. */
  ghost predicate AlwaysQuietAfterAbort(cfg: Option<Config>)
  {
    forall env, now :: PossibleDraws(cfg, env) ==> QuietAfterAbort(env, From(cfg, env, 1, now))
  }

  /** Every attempt takes a moment and fails, and the signal fires during the first. */
  function AllFail(): Environment { Environment(k => false, k => 1, k => 0, Some(0)) }

  lemma NoBackoffNoAbort(cfg: Option<Config>)
    requires Attempts(cfg) > 1 && Base(cfg) < 1
    ensures PossibleDraws(cfg, AllFail()) && !QuietAfterAbort(AllFail(), From(cfg, AllFail(), 1, 0))
  {
    var env := AllFail();
    assert Backoff(cfg, env, 1) == Base(cfg);
    FirstStart(cfg, env, 2, 1);
    assert From(cfg, env, 1, 0).starts[1] == 1;
  }

  /** An abort keeps further attempts from starting exactly when there are none to start or there is a backoff:
      a wait of no length ends without a look at the signal. */
  lemma QuietAfterAbortIff(cfg: Option<Config>)
    ensures AlwaysQuietAfterAbort(cfg) <==> Attempts(cfg) == 1 || Base(cfg) >= 1
  {
    if Attempts(cfg) == 1 || Base(cfg) >= 1 {
      forall env, now | PossibleDraws(cfg, env) ensures QuietAfterAbort(env, From(cfg, env, 1, now)) {
        NoAttemptAfterAbort(cfg, env, 1, now);
      }
    } else {
      NoBackoffNoAbort(cfg);
    }
  }
}
