/** An integration's calls, through cache, semaphore, breaker and retry together. Calls overlap: between two
    awaits of one call any steps of others may happen, so a run is any sequence of such steps. */
module Adapter {
  import opened CodeUnits
  import opened Lists
  import opened Options
  import Brk = Breaker
  import Cache = PromiseCache
  import Retry
  import Sem = Semaphore

  datatype Config = Config(
    concurrency: Option<real>,
    breaker: Option<Brk.Config>,
    retry: Option<Retry.Config>,
    cache: Option<Cache.Config>)

  /** Calls that miss the cache are numbered by their request for a permit. `attempts` holds the current attempt
      of each call the breaker let through, `failed` the calls that ended in an error after getting a permit, and
      `log` what the breaker was told. */
  datatype State = State(
    sem: Sem.State,
    brk: Brk.State,
    cache: Cache.State,
    attempts: map<nat, nat>,
    failed: set<nat>,
    now: int,
    log: seq<Brk.Event>)

  function Init(cfg: Config, now: int): State
  {
    State(Sem.Init(Sem.Normalize(cfg.concurrency)), Brk.Init(), Cache.Init(), map[], {}, now, [])
  }

  // ----- steps -----

  /** The wrapped method: a cached promise, or a new call that asks for a permit. */
  function Call(cfg: Config, s: State, key: Text, signal: Option<nat>): State
  {
    if cfg.cache.None? then s.(sem := Sem.Acquire(s.sem, signal))
    else
      s.(cache := Cache.Step(cfg.cache.value, s.cache, Cache.Call(key, s.now)),
         sem := if Cache.LookUp(s.cache.slots, key, s.now).hit.Some? then s.sem else Sem.Acquire(s.sem, signal))
  }

  /** The call has its permit and the breaker has not been asked yet. */
  predicate MayProceed(s: State, id: nat) { Sem.IsHolding(s.sem, id) && id !in s.attempts }

  predicate IsInFlight(s: State, id: nat) { Sem.IsHolding(s.sem, id) && id in s.attempts }

  /** With the permit in hand: the breaker's check, then the first attempt or the way out. */
  function Proceed(cfg: Config, s: State, id: nat): State
    requires Sem.QueueInRange(s.sem) && MayProceed(s, id)
  {
    if cfg.breaker.None? then s.(attempts := s.attempts[id := 1])
    else
      var t := s.(brk := Brk.Before(cfg.breaker.value, s.brk, s.now), log := s.log + [Brk.Check(s.now)]);
      if Brk.Admits(cfg.breaker.value, s.brk, s.now) then t.(attempts := s.attempts[id := 1])
      else t.(sem := Sem.Release(s.sem, id), failed := s.failed + {id})
  }

  /** A call may end in failure after its last attempt, or during a wait when its signal has fired. */
  predicate MayFinish(cfg: Config, s: State, id: nat, ok: bool)
  {
    && IsInFlight(s, id)
    && (ok || s.attempts[id] == Retry.Attempts(cfg.retry) || Sem.SignalAborted(s.sem, s.sem.calls[id].signal))
  }

  /** The outcome is reported to the breaker, then the permit is given back. */
  function Finish(cfg: Config, s: State, id: nat, ok: bool): State
    requires Sem.QueueInRange(s.sem)
  {
    var t := s.(sem := Sem.Release(s.sem, id), failed := if ok then s.failed else s.failed + {id});
    if cfg.breaker.None? then t
    else
      var e := if ok then Brk.Success(s.now) else Brk.Failure(s.now);
      t.(brk := Brk.Step(cfg.breaker.value, s.brk, e), log := s.log + [e])
  }

  /** The promise of the call is rejected. */
  predicate HasFailed(s: State, id: nat)
  {
    id in s.failed || (id < |s.sem.calls| && s.sem.calls[id].status == Sem.Rejected)
  }

  datatype Event =
    | DoCall(key: Text, signal: Option<nat>)
    | DoProceed(id: nat)
    | DoRetry(id: nat)
    | DoFinish(id: nat, ok: bool)
    | DoOnRejected(id: nat)
    | DoSignal(sig: nat)
    | DoFireAbort(id: nat)
    | DoAdvance(ms: nat)

  /** One step. A step whose time has not come changes nothing. */
  function Step(cfg: Config, s: State, e: Event): State
    requires Sem.QueueInRange(s.sem)
  {
    match e
    case DoCall(key, signal) => Call(cfg, s, key, signal)
    case DoProceed(id) => if MayProceed(s, id) then Proceed(cfg, s, id) else s
    case DoRetry(id) =>
      if IsInFlight(s, id) && s.attempts[id] < Retry.Attempts(cfg.retry) then
        s.(attempts := s.attempts[id := s.attempts[id] + 1])
      else s
    case DoFinish(id, ok) => if MayFinish(cfg, s, id, ok) then Finish(cfg, s, id, ok) else s
    case DoOnRejected(id) =>
      if cfg.cache.Some? && HasFailed(s, id) then s.(cache := Cache.Step(cfg.cache.value, s.cache, Cache.OnRejected(id))) else s
    case DoSignal(sig) => s.(sem := Sem.Step(s.sem, Sem.DoSignal(sig)))
    case DoFireAbort(id) => s.(sem := Sem.FireAbort(s.sem, id))
    case DoAdvance(ms) => s.(now := s.now + ms)
  }

  // ----- the invariant -----

  ghost function InFlight(s: State): set<nat> { set id | id in s.attempts && IsInFlight(s, id) }

  /** Calls the breaker let through that have ended. */
  ghost function Finished(s: State): set<nat> { set id | id in s.attempts && !IsInFlight(s, id) }

  /** The positions of reported outcomes. */
  ghost function Outcomes(log: seq<Brk.Event>): set<nat> { set i: nat | i < |log| && !log[i].Check? }

  ghost predicate ValidCalls(cfg: Config, s: State)
  {
    && (forall id :: id in s.attempts ==>
                       id < |s.sem.calls| && 1 <= s.attempts[id] <= Retry.Attempts(cfg.retry)
                       && (s.sem.calls[id].status == Sem.Holding || s.sem.calls[id].status == Sem.Released))
    && (forall id :: id in s.failed ==> id < |s.sem.calls| && s.sem.calls[id].status == Sem.Released)
  }

  /** The breaker is where its log leads, has one outcome per call that ended, and is never half-open without
      a call in flight to decide. */
  ghost predicate ValidBreaker(cfg: Config, s: State)
  {
    && (cfg.breaker.None? ==> s.brk == Brk.Init() && s.log == [])
    && (cfg.breaker.Some? ==> s.brk == Brk.StateAt(cfg.breaker.value, s.log, |s.log|) && |Outcomes(s.log)| == |Finished(s)|)
    && (s.brk.mode == Brk.Open ==> s.brk.openedAt <= s.now)
    && (s.brk.mode == Brk.HalfOpen ==> InFlight(s) != {})
  }

  ghost predicate ValidCache(cfg: Config, s: State)
  {
    cfg.cache.Some? ==>
      && Cache.Valid(cfg.cache.value, s.cache)
      && |s.cache.created| == |s.sem.calls|
      && forall p :: p in s.cache.handled ==> HasFailed(s, p)
  }

  ghost predicate Valid(cfg: Config, s: State)
  {
    && Sem.Valid(s.sem) && s.sem.limit == Sem.Normalize(cfg.concurrency)
    && ValidCalls(cfg, s) && ValidBreaker(cfg, s) && ValidCache(cfg, s)
  }

  lemma InitValid(cfg: Config, now: int)
    ensures Valid(cfg, Init(cfg, now))
  {
    Sem.InitValid(Sem.Normalize(cfg.concurrency));
    assert InFlight(Init(cfg, now)) == {} == Finished(Init(cfg, now));
    assert Outcomes([]) == {};
  }

  // ----- effects on the parts -----

  lemma {:induction false} LogPrefix(cfg: Brk.Config, log: seq<Brk.Event>, e: Brk.Event, n: nat)
    requires n <= |log|
    ensures Brk.StateAt(cfg, log + [e], n) == Brk.StateAt(cfg, log, n)
  {
    if n > 0 { LogPrefix(cfg, log, e, n - 1); }
  }

  lemma Logged(cfg: Brk.Config, log: seq<Brk.Event>, e: Brk.Event)
    ensures Brk.StateAt(cfg, log + [e], |log| + 1) == Brk.Step(cfg, Brk.StateAt(cfg, log, |log|), e)
    ensures |Outcomes(log + [e])| == |Outcomes(log)| + if e.Check? then 0 else 1
  {
    LogPrefix(cfg, log, e, |log|);
    var i: nat := |log|;
    assert Outcomes(log + [e]) == Outcomes(log) + if e.Check? then {} else {i};
  }

  /** Steps of the semaphore that release nobody leave calls in flight, and calls that ended, as they are. */
  lemma OthersStay(cfg: Config, s: State, t: State)
    requires ValidCalls(cfg, s) && Sem.Forward(s.sem.calls, t.sem.calls, None)
    requires t.attempts == s.attempts && t.failed == s.failed
    ensures ValidCalls(cfg, t) && InFlight(t) == InFlight(s) && Finished(t) == Finished(s)
    ensures forall id :: HasFailed(s, id) ==> HasFailed(t, id)
  {
    forall id | id in s.attempts
      ensures id < |t.sem.calls| && t.sem.calls[id].status == s.sem.calls[id].status
    {
      assert Sem.MovesOn(s.sem.calls[id], t.sem.calls[id], false);
    }
  }

  lemma CallKeepsCache(cfg: Config, s: State, key: Text, signal: Option<nat>)
    requires Valid(cfg, s)
    ensures ValidCache(cfg, Call(cfg, s, key, signal))
  {
    hide Sem.Valid, Cache.Valid;
    if cfg.cache.Some? {
      Cache.StepValid(cfg.cache.value, s.cache, Cache.Call(key, s.now));
      hide Cache.LookUp, Cache.Insert;
      assert forall p :: p in s.cache.handled ==> HasFailed(Call(cfg, s, key, signal), p);
    }
  }

  /** A step that only moves the queue or the clock on. */
  lemma QueueStepValid(cfg: Config, s: State, t: State)
    requires Valid(cfg, s) && Sem.Valid(t.sem) && t.sem.limit == s.sem.limit
    requires Sem.Forward(s.sem.calls, t.sem.calls, None)
    requires t.attempts == s.attempts && t.failed == s.failed && t.brk == s.brk && t.log == s.log && t.now >= s.now
    requires ValidCache(cfg, t)
    ensures Valid(cfg, t)
  {
    hide Sem.Valid, ValidCache;
    OthersStay(cfg, s, t);
  }

  lemma SameCallsForward(calls: seq<Sem.Call>)
    ensures Sem.Forward(calls, calls, None)
  {
  }

  lemma CallValid(cfg: Config, s: State, key: Text, signal: Option<nat>)
    requires Valid(cfg, s)
    ensures Valid(cfg, Call(cfg, s, key, signal))
  {
    CallKeepsCache(cfg, s, key, signal);
    Sem.AcquireValid(s.sem, signal);
    Sem.AcquireForward(s.sem, signal);
    SameCallsForward(s.sem.calls);
    hide Sem.Acquire, Sem.Valid, Sem.Forward, ValidCache, ValidCalls, ValidBreaker, Cache.Step, Cache.LookUp;
    QueueStepValid(cfg, s, Call(cfg, s, key, signal));
  }

  /** `after` is what the calls are once `id` has given its permit back. */
  ghost predicate GaveBack(before: seq<Sem.Call>, after: seq<Sem.Call>, id: nat)
  {
    && |after| == |before| && id < |before|
    && after[id].status == Sem.Released
    && forall j: nat :: j < |before| ==> Sem.MovesOn(before[j], after[j], j == id)
  }

  lemma ReleasedOne(s: Sem.State, id: nat)
    requires Sem.Valid(s) && Sem.IsHolding(s, id)
    ensures Sem.QueueInRange(s)
    ensures Sem.Valid(Sem.Release(s, id)) && Sem.Release(s, id).limit == s.limit
    ensures GaveBack(s.calls, Sem.Release(s, id).calls, id)
  {
    Sem.ReleaseValid(s, id);
    Sem.StepLimit(s, Sem.DoRelease(id));
    Sem.ReleaseForward(s, id);
    hide Sem.Release, Sem.Valid;
    forall j: nat | j < |s.calls| ensures Sem.MovesOn(s.calls[j], Sem.Release(s, id).calls[j], j == id) {
      assert Some(id) == Some(j) <==> j == id;
    }
  }

  /** The calls after `id` has given its permit back, successfully or not. */
  lemma ReleasedCalls(cfg: Config, s: State, t: State, id: nat, ok: bool)
    requires Sem.IsHolding(s.sem, id) && ValidCalls(cfg, s) && GaveBack(s.sem.calls, t.sem.calls, id)
    requires t.attempts == s.attempts
    requires t.failed == if ok then s.failed else s.failed + {id}
    ensures ValidCalls(cfg, t)
    ensures InFlight(t) == InFlight(s) - {id}
    ensures Finished(t) == Finished(s) + if id in s.attempts then {id} else {}
    ensures forall p :: HasFailed(s, p) ==> HasFailed(t, p)
  {
    forall j | j in s.attempts
      ensures t.sem.calls[j].status == if j == id then Sem.Released else s.sem.calls[j].status
    {
      assert Sem.MovesOn(s.sem.calls[j], t.sem.calls[j], j == id);
    }
  }

  lemma RejectValid(cfg: Config, s: State, id: nat)
    requires Valid(cfg, s) && MayProceed(s, id) && Sem.QueueInRange(s.sem)
    requires cfg.breaker.Some? && !Brk.Admits(cfg.breaker.value, s.brk, s.now)
    ensures Valid(cfg, Proceed(cfg, s, id))
  {
    hide Sem.Valid, Cache.Valid;
    Logged(cfg.breaker.value, s.log, Brk.Check(s.now));
    ReleasedOne(s.sem, id);
    hide Sem.Release;
    var t := Proceed(cfg, s, id);
    ReleasedCalls(cfg, s, t, id, false);
    assert Finished(t) == Finished(s);
  }

  lemma AdmitValid(cfg: Config, s: State, id: nat)
    requires Valid(cfg, s) && MayProceed(s, id) && Sem.QueueInRange(s.sem)
    requires cfg.breaker.None? || Brk.Admits(cfg.breaker.value, s.brk, s.now)
    ensures Valid(cfg, Proceed(cfg, s, id))
  {
    hide Sem.Valid, Cache.Valid, Sem.Release;
    var t := Proceed(cfg, s, id);
    assert InFlight(t) == InFlight(s) + {id};
    assert Finished(t) == Finished(s);
    hide InFlight, Finished;
    if cfg.breaker.Some? { Logged(cfg.breaker.value, s.log, Brk.Check(s.now)); }
  }

  lemma FinishValid(cfg: Config, s: State, id: nat, ok: bool)
    requires Valid(cfg, s) && MayFinish(cfg, s, id, ok) && Sem.QueueInRange(s.sem)
    ensures Valid(cfg, Finish(cfg, s, id, ok))
  {
    hide Sem.Valid, Cache.Valid;
    ReleasedOne(s.sem, id);
    hide Sem.Release;
    var t := Finish(cfg, s, id, ok);
    ReleasedCalls(cfg, s, t, id, ok);
    assert |Finished(t)| == |Finished(s)| + 1;
    FinishKeepsBreaker(cfg, s, t, id, ok);
  }

  lemma FinishKeepsBreaker(cfg: Config, s: State, t: State, id: nat, ok: bool)
    requires ValidBreaker(cfg, s) && |Finished(t)| == |Finished(s)| + 1 && t.now == s.now
    requires cfg.breaker.None? ==> t.brk == s.brk && t.log == s.log
    requires cfg.breaker.Some? ==>
               var e := if ok then Brk.Success(s.now) else Brk.Failure(s.now);
               t.brk == Brk.Step(cfg.breaker.value, s.brk, e) && t.log == s.log + [e]
    ensures ValidBreaker(cfg, t)
  {
    if cfg.breaker.Some? {
      hide Finished, InFlight, Outcomes, Brk.FailurePct;
      Logged(cfg.breaker.value, s.log, if ok then Brk.Success(s.now) else Brk.Failure(s.now));
    }
  }

  lemma FireAbortMoves(s: Sem.State, id: nat)
    requires Sem.Valid(s)
    ensures Sem.QueueInRange(s)
    ensures var t := Sem.FireAbort(s, id);
            t.limit == s.limit && |t.calls| == |s.calls| && Sem.Forward(s.calls, t.calls, None)
  {
    Sem.ValidInRange(s);
  }

  lemma FireAbortValid(cfg: Config, s: State, id: nat)
    requires Valid(cfg, s) && Sem.QueueInRange(s.sem)
    ensures Valid(cfg, s.(sem := Sem.FireAbort(s.sem, id)))
  {
    hide Sem.Valid, Cache.Valid, Sem.FireAbort, Brk.StateAt, Outcomes, ValidCalls;
    Sem.FireAbortValid(s.sem, id);
    FireAbortMoves(s.sem, id);
    OthersStay(cfg, s, s.(sem := Sem.FireAbort(s.sem, id)));
  }

  lemma OnRejectedValid(cfg: Config, s: State, id: nat)
    requires Valid(cfg, s) && cfg.cache.Some? && HasFailed(s, id)
    ensures Valid(cfg, s.(cache := Cache.Step(cfg.cache.value, s.cache, Cache.OnRejected(id))))
  {
    var t := s.(cache := Cache.Step(cfg.cache.value, s.cache, Cache.OnRejected(id)));
    Cache.StepValid(cfg.cache.value, s.cache, Cache.OnRejected(id));
    hide Sem.Valid, Cache.Valid;
    assert InFlight(t) == InFlight(s) && Finished(t) == Finished(s);
  }

  lemma RetryValid(cfg: Config, s: State, id: nat)
    requires Valid(cfg, s) && IsInFlight(s, id) && s.attempts[id] < Retry.Attempts(cfg.retry)
    ensures Valid(cfg, s.(attempts := s.attempts[id := s.attempts[id] + 1]))
  {
    hide Sem.Valid, Cache.Valid;
    var t := s.(attempts := s.attempts[id := s.attempts[id] + 1]);
    assert InFlight(t) == InFlight(s) && Finished(t) == Finished(s);
  }

  lemma SignalValid(cfg: Config, s: State, sig: nat)
    requires Valid(cfg, s) && Sem.QueueInRange(s.sem)
    ensures Valid(cfg, s.(sem := Sem.Step(s.sem, Sem.DoSignal(sig))))
  {
    Sem.StepValid(s.sem, Sem.DoSignal(sig));
    hide Sem.Valid, Cache.Valid;
    OthersStay(cfg, s, s.(sem := Sem.Step(s.sem, Sem.DoSignal(sig))));
  }

  lemma AdvanceValid(cfg: Config, s: State, ms: nat)
    requires Valid(cfg, s)
    ensures Valid(cfg, s.(now := s.now + ms))
  {
    hide Sem.Valid, Cache.Valid;
    OthersStay(cfg, s, s.(now := s.now + ms));
  }

  lemma InRange(cfg: Config, s: State)
    requires Valid(cfg, s)
    ensures Sem.QueueInRange(s.sem)
  {
    Sem.ValidInRange(s.sem);
  }

  lemma StepValid(cfg: Config, s: State, e: Event)
    requires Valid(cfg, s)
    ensures Sem.QueueInRange(s.sem) && Valid(cfg, Step(cfg, s, e))
  {
    hide Valid, Proceed, Finish, Call;
    InRange(cfg, s);
    match e
    case DoCall(key, signal) => CallValid(cfg, s, key, signal);
    case DoProceed(id) =>
      if MayProceed(s, id) {
        if cfg.breaker.None? || Brk.Admits(cfg.breaker.value, s.brk, s.now) {
          AdmitValid(cfg, s, id);
        } else {
          RejectValid(cfg, s, id);
        }
      }
    case DoRetry(id) => if IsInFlight(s, id) && s.attempts[id] < Retry.Attempts(cfg.retry) { RetryValid(cfg, s, id); }
    case DoFinish(id, ok) => if MayFinish(cfg, s, id, ok) { FinishValid(cfg, s, id, ok); }
    case DoOnRejected(id) => if cfg.cache.Some? && HasFailed(s, id) { OnRejectedValid(cfg, s, id); }
    case DoSignal(sig) => SignalValid(cfg, s, sig);
    case DoFireAbort(id) => FireAbortValid(cfg, s, id);
    case DoAdvance(ms) => AdvanceValid(cfg, s, ms);
  }

  // ----- what each step does -----

  /** A call is served a live entry of the cache, which then is all that changes, or asks for a permit. */
  lemma CallOutcome(cfg: Config, s: State, key: Text, signal: Option<nat>)
    requires Valid(cfg, s)
    ensures Sem.QueueInRange(s.sem)
    ensures var t := Step(cfg, s, DoCall(key, signal));
            var hit := cfg.cache.Some? && exists i :: 0 <= i < |s.cache.slots| && s.cache.slots[i].key == key
                                                      && s.cache.slots[i].expiresAt > s.now;
            && t.cache == (if cfg.cache.Some? then Cache.Step(cfg.cache.value, s.cache, Cache.Call(key, s.now)) else s.cache)
            && t.sem == (if hit then s.sem else Sem.Step(s.sem, Sem.DoAcquire(signal)))
            && t.brk == s.brk && t.attempts == s.attempts && t.failed == s.failed && t.now == s.now && t.log == s.log
  {
    InRange(cfg, s);
    if cfg.cache.Some? { LiveIsHit(cfg.cache.value, s.cache, key, s.now); }
    hide Valid, Sem.Valid, Cache.Step, Cache.LookUp;
  }

  lemma LiveIsHit(cfg: Cache.Config, c: Cache.State, key: Text, now: int)
    requires Cache.Valid(cfg, c)
    ensures Cache.LookUp(c.slots, key, now).hit.Some? <==>
              exists i :: 0 <= i < |c.slots| && c.slots[i].key == key && c.slots[i].expiresAt > now
  {
    var found := Cache.Find(c.slots, key);
    if i :| 0 <= i < |c.slots| && c.slots[i].key == key && c.slots[i].expiresAt > now {
      assert c.slots[i] in c.slots;
      Cache.OneSlotPerKey(c.slots, c.uses, c.slots[i], found.value);
    }
  }

  /** With its permit, a call starts its first attempt when the breaker is not open or its reset time has passed;
      otherwise it ends in an error and gives the permit back. */
  lemma ProceedOutcome(cfg: Config, s: State, id: nat)
    requires Valid(cfg, s)
    ensures Sem.QueueInRange(s.sem)
    ensures var t := Step(cfg, s, DoProceed(id));
            if id < |s.sem.calls| && s.sem.calls[id].status == Sem.Holding && id !in s.attempts then
              var admitted := cfg.breaker.None? || s.brk.mode != Brk.Open || s.now - s.brk.openedAt >= cfg.breaker.value.resetMs;
              && t.attempts == (if admitted then s.attempts[id := 1] else s.attempts)
              && t.failed == (if admitted then s.failed else s.failed + {id})
              && t.sem == (if admitted then s.sem else Sem.Step(s.sem, Sem.DoRelease(id)))
              && (if cfg.breaker.None? then t.brk == s.brk && t.log == s.log
                  else t.brk == Brk.Step(cfg.breaker.value, s.brk, Brk.Check(s.now)) && t.log == s.log + [Brk.Check(s.now)])
              && t.cache == s.cache && t.now == s.now
            else t == s
  {
    InRange(cfg, s);
    hide Valid, Sem.Valid, Sem.Release;
  }

  /** After a failed attempt that is not the last, the next one follows. */
  lemma RetryOutcome(cfg: Config, s: State, id: nat)
    requires Valid(cfg, s)
    ensures Sem.QueueInRange(s.sem)
    ensures var t := Step(cfg, s, DoRetry(id));
            if id < |s.sem.calls| && s.sem.calls[id].status == Sem.Holding && id in s.attempts
               && s.attempts[id] < Retry.Attempts(cfg.retry)
            then t == s.(attempts := s.attempts[id := s.attempts[id] + 1])
            else t == s
  {
    InRange(cfg, s);
    hide Valid, Sem.Valid;
  }

  /** A call that succeeds, or fails after its last attempt or during a wait when its signal has fired, reports that
      to the breaker and gives its permit back; it is an error exactly when it did not succeed. */
  lemma FinishOutcome(cfg: Config, s: State, id: nat, ok: bool)
    requires Valid(cfg, s)
    ensures Sem.QueueInRange(s.sem)
    ensures var t := Step(cfg, s, DoFinish(id, ok));
            if id < |s.sem.calls| && s.sem.calls[id].status == Sem.Holding && id in s.attempts
               && (ok || s.attempts[id] == Retry.Attempts(cfg.retry) || Sem.Fired(s.sem, id))
            then
              var e := if ok then Brk.Success(s.now) else Brk.Failure(s.now);
              && t.failed == (if ok then s.failed else s.failed + {id})
              && t.sem == Sem.Step(s.sem, Sem.DoRelease(id)) && t.attempts == s.attempts
              && (if cfg.breaker.None? then t.brk == s.brk && t.log == s.log
                  else t.brk == Brk.Step(cfg.breaker.value, s.brk, e) && t.log == s.log + [e])
              && t.cache == s.cache && t.now == s.now
            else t == s
  {
    InRange(cfg, s);
    hide Valid, Sem.Valid, Sem.Release;
  }

  /** Signals and their listeners reach the semaphore, and nothing else. */
  lemma SignalOutcome(cfg: Config, s: State, e: Event)
    requires Valid(cfg, s) && (e.DoSignal? || e.DoFireAbort?)
    ensures Sem.QueueInRange(s.sem)
    ensures Step(cfg, s, e) ==
            s.(sem := Sem.Step(s.sem, if e.DoSignal? then Sem.DoSignal(e.sig) else Sem.DoFireAbort(e.id)))
  {
    InRange(cfg, s);
    hide Valid, Sem.Valid, Sem.FireAbort;
  }

  /** The rejection of a call's promise runs its handler. */
  lemma RejectionOutcome(cfg: Config, s: State, id: nat)
    requires Valid(cfg, s)
    ensures Sem.QueueInRange(s.sem)
    ensures var t := Step(cfg, s, DoOnRejected(id));
            if cfg.cache.Some? && (id in s.failed || (id < |s.sem.calls| && s.sem.calls[id].status == Sem.Rejected)) then
              t == s.(cache := Cache.Step(cfg.cache.value, s.cache, Cache.OnRejected(id)))
            else t == s
  {
    InRange(cfg, s);
    hide Valid, Sem.Valid, Cache.Step;
  }

  // ----- runs -----

  ghost function After(cfg: Config, s: State, e: Event): (t: State)
    requires Valid(cfg, s)
    ensures Valid(cfg, t)
  {
    StepValid(cfg, s, e);
    Step(cfg, s, e)
  }

  ghost function Run(cfg: Config, s: State, events: seq<Event>): (t: State)
    requires Valid(cfg, s)
    ensures Valid(cfg, t)
    decreases events
  {
    if events == [] then s else Run(cfg, After(cfg, s, events[0]), events[1..])
  }

  /** Where a new adapter is after any interleaving of the steps of its calls. */
  ghost function Reached(cfg: Config, start: int, events: seq<Event>): (t: State)
    ensures Valid(cfg, t)
  {
    InitValid(cfg, start);
    Run(cfg, Init(cfg, start), events)
  }

  /** The breaker moves only when a call with its permit asks it, and when a call in flight ends. */
  lemma BreakerMoves(cfg: Config, s: State, e: Event)
    requires Valid(cfg, s)
    ensures var t := After(cfg, s, e);
            && t.now >= s.now
            && t.brk == (if cfg.breaker.None? then s.brk
                         else if e.DoProceed? && MayProceed(s, e.id) then Brk.Before(cfg.breaker.value, s.brk, s.now)
                         else if e.DoFinish? && MayFinish(cfg, s, e.id, e.ok) then
                           Brk.Step(cfg.breaker.value, s.brk, if e.ok then Brk.Success(s.now) else Brk.Failure(s.now))
                         else s.brk)
  {
    InRange(cfg, s);
    hide Valid, Sem.Acquire, Sem.Release, Sem.FireAbort, Sem.Step, Cache.Step, Cache.Valid, Brk.Step, Brk.Before, Brk.Admits,
      Call, MayProceed, MayFinish, IsInFlight, HasFailed;
  }

  lemma InFlightBound(cfg: Config, s: State)
    requires Valid(cfg, s)
    ensures s.sem.limit.AtMost? ==> |InFlight(s)| <= s.sem.limit.n
  {
    assert InFlight(s) <= Sem.HoldingSet(s.sem.calls);
    SubsetSize(InFlight(s), Sem.HoldingSet(s.sem.calls));
  }

  /** What every interleaving of overlapping calls keeps: no more calls in flight than permits, no more
      attempts than configured, one outcome per call that ended and none for rejected calls or retries, a
      closed breaker below its threshold, a half-open one never without a call to decide it, and a cache that
      serves each key only its own promises, none of them known to have failed. */
  lemma EveryInterleaving(cfg: Config, start: int, events: seq<Event>)
    ensures var t := Reached(cfg, start, events);
            && (t.sem.limit.AtMost? ==> |InFlight(t)| <= t.sem.limit.n)
            && (forall id :: id in t.attempts ==> 1 <= t.attempts[id] <= Retry.Attempts(cfg.retry))
            && (cfg.breaker.Some? ==> |Outcomes(t.log)| == |Finished(t)|)
            && (cfg.breaker.Some? && t.brk.mode == Brk.Closed ==> Brk.BelowThreshold(cfg.breaker.value, t.brk))
            && (t.brk.mode == Brk.HalfOpen ==> InFlight(t) != {})
            && (cfg.cache.Some? ==> forall x :: x in t.cache.slots ==>
                                                  && x.promise < |t.sem.calls| && x.promise !in t.cache.handled
                                                  && t.cache.created[x.promise].key == x.key)
  {
    var t := Reached(cfg, start, events);
    InFlightBound(cfg, t);
    if cfg.breaker.Some? { Brk.ClosedMeansBelow(cfg.breaker.value, t.log, |t.log|); }
  }

  // ----- an open breaker -----

  lemma StepWhileOpen(cfg: Config, s: State, e: Event)
    requires Valid(cfg, s) && cfg.breaker.Some? && s.brk.mode == Brk.Open
    requires After(cfg, s, e).now < s.brk.openedAt + cfg.breaker.value.resetMs
    ensures var t := After(cfg, s, e);
            && t.attempts.Keys == s.attempts.Keys && t.brk.mode == Brk.Open
            && t.brk.openedAt >= s.brk.openedAt && t.now >= s.now
  {
    hide Sem.Valid, ValidCalls, ValidCache, Sem.Acquire, Sem.Release, Sem.FireAbort, Cache.Step, Brk.FailurePct;
  }

  lemma {:induction false} TimePasses(cfg: Config, s: State, events: seq<Event>)
    requires Valid(cfg, s)
    ensures Run(cfg, s, events).now >= s.now
    decreases events
  {
    if events != [] {
      BreakerMoves(cfg, s, events[0]);
      hide Valid, After;
      TimePasses(cfg, After(cfg, s, events[0]), events[1..]);
    }
  }

  /** Once the breaker has opened, no call gets through to the integration before the reset time, and calls
      admitted earlier can only move that time later. */
  lemma {:induction false} OpenAdmitsNothing(cfg: Config, s: State, events: seq<Event>)
    requires Valid(cfg, s) && cfg.breaker.Some? && s.brk.mode == Brk.Open
    requires Run(cfg, s, events).now < s.brk.openedAt + cfg.breaker.value.resetMs
    ensures var t := Run(cfg, s, events);
            t.attempts.Keys == s.attempts.Keys && t.brk.mode == Brk.Open && t.brk.openedAt >= s.brk.openedAt
    decreases events
  {
    if events != [] {
      var t := After(cfg, s, events[0]);
      TimePasses(cfg, t, events[1..]);
      StepWhileOpen(cfg, s, events[0]);
      hide Valid, After;
      OpenAdmitsNothing(cfg, t, events[1..]);
    }
  }

  // ----- half-open -----

  ghost predicate OneProbe(s: State) { s.brk.mode == Brk.HalfOpen ==> |InFlight(s)| == 1 }

  lemma SingleProbe(cfg: Config, s: State)
    requires Valid(cfg, s) && s.sem.limit == Sem.AtMost(1)
    ensures OneProbe(s)
  {
    InFlightBound(cfg, s);
  }

  /** With one permit, half-open means one probe is in flight, and nothing but its outcome changes the breaker:
      success closes it with both counters at zero, failure opens it again from now. */
  lemma ProbeDecides(cfg: Config, s: State, e: Event)
    requires Valid(cfg, s) && s.sem.limit == Sem.AtMost(1) && s.brk.mode == Brk.HalfOpen
    ensures var t := After(cfg, s, e);
            if e.DoFinish? && InFlight(s) == {e.id} && MayFinish(cfg, s, e.id, e.ok) then
              t.brk == if e.ok then Brk.State(Brk.Closed, s.brk.openedAt, 0, 0) else s.brk.(mode := Brk.Open, openedAt := s.now)
            else t.brk == s.brk
  {
    hide After, Sem.Valid, ValidCalls, ValidCache, Brk.FailurePct, MayProceed, Retry.Attempts, Brk.StateAt, Outcomes, Finished;
    InFlightBound(cfg, s);
    BreakerMoves(cfg, s, e);
    if e.DoFinish? && IsInFlight(s, e.id) {
      assert e.id in InFlight(s);
      assert |InFlight(s) - {e.id}| == 0;
      assert InFlight(s) == {e.id};
    }
  }

  /** In every run, half-open means exactly one call in flight. */
  ghost predicate AlwaysOneProbe(cfg: Config)
  {
    forall start, events :: OneProbe(Reached(cfg, start, events))
  }

  /** A threshold above one hundred percent is never reached. */
  ghost predicate NeverOpens(cfg: Config) { cfg.breaker.None? || cfg.breaker.value.errorThresholdPct > 100.0 }

  lemma PctAtMostHundred(s: nat, f: nat)
    ensures Brk.FailurePct(s, f) <= 100.0
  {
    if s + f > 0 {
      var total := (s + f) as real;
    }
  }

  lemma FailureStaysClosed(cfg: Brk.Config, b: Brk.State, now: int)
    requires cfg.errorThresholdPct > 100.0 && b.mode == Brk.Closed
    ensures Brk.AfterFailure(cfg, b, now).mode == Brk.Closed
  {
    PctAtMostHundred(b.successes, b.failures + 1);
    hide Brk.FailurePct;
  }

  lemma ClosedStep(cfg: Config, s: State, e: Event)
    requires Valid(cfg, s) && NeverOpens(cfg) && s.brk.mode == Brk.Closed
    ensures After(cfg, s, e).brk.mode == Brk.Closed
  {
    hide After, Valid, Brk.AfterFailure;
    BreakerMoves(cfg, s, e);
    if cfg.breaker.Some? { FailureStaysClosed(cfg.breaker.value, s.brk, s.now); }
  }

  lemma {:induction false} StaysClosed(cfg: Config, s: State, events: seq<Event>)
    requires Valid(cfg, s) && NeverOpens(cfg) && s.brk.mode == Brk.Closed
    ensures Run(cfg, s, events).brk.mode == Brk.Closed
    decreases events
  {
    if events != [] {
      ClosedStep(cfg, s, events[0]);
      hide Valid, After;
      StaysClosed(cfg, After(cfg, s, events[0]), events[1..]);
    }
  }

  // ----- more than one permit -----

  /** The parts of a state that the run below goes through: nobody waits and no signal has fired. */
  ghost predicate At(s: State, calls: seq<Sem.Call>, attempts: map<nat, nat>, brk: Brk.State)
  {
    && s.sem.calls == calls && s.sem.active == |Sem.HoldingSet(calls)| && s.sem.waiters == [] && s.sem.aborted == {}
    && s.attempts == attempts && s.brk == brk
  }

  const HELD := Sem.Call(None, Sem.Holding)
  const DONE := Sem.Call(None, Sem.Released)

  ghost predicate RoomForTwo(limit: Sem.Limit) { limit.Unlimited? || limit.n >= 2 }

  lemma Holders(calls: seq<Sem.Call>)
    ensures Sem.HoldingSet(calls + [HELD]) == Sem.HoldingSet(calls) + {|calls|}
    ensures |Sem.HoldingSet(calls + [HELD])| == |Sem.HoldingSet(calls)| + 1
  {
    var n: nat := |calls|;
    assert Sem.HoldingSet(calls + [HELD]) == Sem.HoldingSet(calls) + {n};
  }

  ghost predicate NewKey(cfg: Config, s: State, key: Text)
  {
    cfg.cache.Some? ==> forall i :: 0 <= i < |s.cache.created| ==> s.cache.created[i].key != key
  }

  lemma NewKeyMisses(cfg: Config, s: State, key: Text)
    requires Valid(cfg, s) && NewKey(cfg, s, key) && cfg.cache.Some?
    ensures Cache.LookUp(s.cache.slots, key, s.now).hit.None?
    ensures Cache.Step(cfg.cache.value, s.cache, Cache.Call(key, s.now)).created == s.cache.created + [Cache.Creation(key, s.now)]
  {
    hide Sem.Valid, ValidCalls, ValidBreaker, Cache.Remove, Cache.Insert;
    forall x | x in s.cache.slots ensures x.key != key { assert Cache.Genuine(cfg.cache.value, s.cache, x); }
  }

  /** A call with a new key gets a permit at once when there is room. */
  lemma CallGranted(cfg: Config, s: State, key: Text, calls: seq<Sem.Call>, attempts: map<nat, nat>, brk: Brk.State)
    requires Valid(cfg, s) && At(s, calls, attempts, brk) && NewKey(cfg, s, key)
    requires Sem.HasRoom(s.sem.limit, s.sem.active)
    ensures var t := After(cfg, s, DoCall(key, None));
            At(t, calls + [HELD], attempts, brk) && t.now == s.now && t.sem.limit == s.sem.limit
    ensures forall other :: other != key && NewKey(cfg, s, other) ==> NewKey(cfg, After(cfg, s, DoCall(key, None)), other)
  {
    hide Valid, Cache.Step, Cache.LookUp, Sem.HoldingSet;
    InRange(cfg, s);
    if cfg.cache.Some? { NewKeyMisses(cfg, s, key); }
    Holders(calls);
  }

  /** A call with its permit is let through. */
  lemma ProceedAdmitted(cfg: Config, s: State, id: nat, calls: seq<Sem.Call>, attempts: map<nat, nat>, brk: Brk.State)
    requires Valid(cfg, s) && At(s, calls, attempts, brk) && cfg.breaker.Some?
    requires id < |calls| && calls[id] == HELD && id !in attempts && Brk.Admits(cfg.breaker.value, brk, s.now)
    ensures var t := After(cfg, s, DoProceed(id));
            && At(t, calls, attempts[id := 1], Brk.Before(cfg.breaker.value, brk, s.now))
            && t.now == s.now && t.sem == s.sem && t.cache == s.cache
  {
    InRange(cfg, s);
    hide Valid, Sem.HoldingSet;
  }

  lemma {:induction false} RunAppended(cfg: Config, s: State, a: seq<Event>, b: seq<Event>)
    requires Valid(cfg, s)
    ensures Run(cfg, s, a + b) == Run(cfg, Run(cfg, s, a), b)
    decreases a
  {
    hide Valid, After;
    if a == [] {
      assert a + b == b;
    } else {
      assert (a + b)[0] == a[0] && (a + b)[1..] == a[1..] + b;
      RunAppended(cfg, After(cfg, s, a[0]), a[1..], b);
    }
  }

  lemma Extended(cfg: Config, start: int, events: seq<Event>, e: Event)
    ensures Reached(cfg, start, events + [e]) == After(cfg, Reached(cfg, start, events), e)
  {
    InitValid(cfg, start);
    hide Valid, After;
    RunAppended(cfg, Init(cfg, start), events, [e]);
    var t := Reached(cfg, start, events);
    assert Run(cfg, t, [e]) == Run(cfg, After(cfg, t, e), []);
  }

  /** The first call is at its `k`-th attempt. */
  function Tries(k: nat): map<nat, nat> { map[0 := k] }

  lemma RetriedOnce(cfg: Config, s: State, k: nat)
    requires Valid(cfg, s) && At(s, [HELD], Tries(k), Brk.Init()) && k < Retry.Attempts(cfg.retry)
    ensures var t := After(cfg, s, DoRetry(0));
            At(t, [HELD], Tries(k + 1), Brk.Init()) && t.sem == s.sem && t.cache == s.cache
  {
    InRange(cfg, s);
    hide Valid, Sem.HoldingSet, Retry.Attempts;
    assert s.attempts[0 := k + 1] == Tries(k + 1);
  }

  function Retries(m: nat): seq<Event> { if m == 0 then [] else [DoRetry(0)] + Retries(m - 1) }

  /** All attempts of the call but the last fail. */
  lemma {:induction false} RetriedOut(cfg: Config, s: State, k: nat, m: nat)
    requires Valid(cfg, s) && At(s, [HELD], Tries(k), Brk.Init()) && k + m <= Retry.Attempts(cfg.retry)
    ensures var t := Run(cfg, s, Retries(m));
            At(t, [HELD], Tries(k + m), Brk.Init()) && t.sem == s.sem && t.cache == s.cache
    decreases m
  {
    hide Valid, After, At, Tries, Retry.Attempts, Brk.Init;
    if m > 0 {
      RetriedOnce(cfg, s, k);
      hide Run;
      RetriedOut(cfg, After(cfg, s, DoRetry(0)), k + 1, m - 1);
    }
  }

  lemma LastRelease(s: Sem.State)
    requires Sem.Valid(s) && s.calls == [HELD] && s.waiters == []
    ensures Sem.QueueInRange(s) && Sem.Release(s, 0) == s.(calls := [DONE], active := s.active - 1)
    ensures |Sem.HoldingSet([HELD])| == 1 && |Sem.HoldingSet([DONE])| == 0
  {
    Holders([]);
    assert [] + [HELD] == [HELD];
    assert Sem.HoldingSet([]) == {} == Sem.HoldingSet([DONE]);
    assert Sem.SetStatus([HELD], 0, Sem.Released) == [DONE];
  }

  /** The last attempt fails too, which is all the breaker has seen. */
  lemma FailureOpens(cfg: Config, s: State)
    requires Valid(cfg, s) && At(s, [HELD], Tries(Retry.Attempts(cfg.retry)), Brk.Init())
    requires cfg.breaker.Some? && cfg.breaker.value.errorThresholdPct <= 100.0
    ensures var t := After(cfg, s, DoFinish(0, false));
            && At(t, [DONE], s.attempts, Brk.State(Brk.Open, s.now, 0, 1))
            && t.now == s.now && t.sem.limit == s.sem.limit && t.cache == s.cache
  {
    LastRelease(s.sem);
    hide Valid, Sem.Release, Sem.HoldingSet, Retry.Attempts;
    assert Brk.Step(cfg.breaker.value, Brk.Init(), Brk.Failure(s.now)) == Brk.State(Brk.Open, s.now, 0, 1);
    assert After(cfg, s, DoFinish(0, false)) == Finish(cfg, s, 0, false);
  }

  lemma Waited(cfg: Config, s: State, ms: nat, calls: seq<Sem.Call>, attempts: map<nat, nat>, brk: Brk.State)
    requires Valid(cfg, s) && At(s, calls, attempts, brk)
    ensures var t := After(cfg, s, DoAdvance(ms));
            At(t, calls, attempts, brk) && t.now == s.now + ms && t.sem == s.sem && t.cache == s.cache
  {
    hide Valid;
  }

  /** A call fails and opens the breaker; after the reset time two calls are let through half-open. */
  lemma TwoProbes(cfg: Config) returns (events: seq<Event>)
    requires cfg.breaker.Some? && cfg.breaker.value.errorThresholdPct <= 100.0
    requires RoomForTwo(Sem.Normalize(cfg.concurrency))
    ensures !OneProbe(Reached(cfg, 0, events))
  {
    hide Valid, Reached, Run, Sem.HoldingSet, Retry.Attempts, NewKey;
    var soFar := Opened(cfg);
    var s := Reached(cfg, 0, soFar);
    var ms: nat := if cfg.breaker.value.resetMs > 0 then cfg.breaker.value.resetMs else 0;
    events := TwoMore(cfg, soFar, ms, s.attempts, s.brk);
    var t := Reached(cfg, 0, events);
    assert t.sem.calls[1] == HELD && t.sem.calls[2] == HELD;
    assert 1 in InFlight(t) && 2 in InFlight(t);
    TwoMembers(InFlight(t), 1, 2);
  }

  lemma TwoMembers(a: set<nat>, x: nat, y: nat)
    requires x in a && y in a && x != y
    ensures |a| >= 2
  {
    SubsetSize({x, y}, a);
  }

  lemma InitAt(cfg: Config)
    ensures Valid(cfg, Init(cfg, 0)) && Reached(cfg, 0, []) == Init(cfg, 0)
    ensures At(Init(cfg, 0), [], map[], Brk.Init()) && |Sem.HoldingSet([])| == 0
  {
    InitValid(cfg, 0);
    assert Sem.HoldingSet([]) == {};
  }

  lemma FirstCall(cfg: Config) returns (events: seq<Event>)
    requires cfg.breaker.Some? && RoomForTwo(Sem.Normalize(cfg.concurrency))
    ensures var t := Reached(cfg, 0, events);
            && At(t, [HELD], Tries(1), Brk.Init()) && t.sem.limit == Sem.Normalize(cfg.concurrency)
            && NewKey(cfg, t, [1]) && NewKey(cfg, t, [2])
  {
    hide Valid, Run, Reached, After, At, Sem.HoldingSet, Retry.Attempts;
    InitAt(cfg);
    var s0, e0, e1 := Init(cfg, 0), DoCall([0], None), DoProceed(0);
    assert [] + [HELD] == [HELD];
    var first, second, third: Text := [0], [1], [2];
    assert first[0] != second[0] && first[0] != third[0];
    CallGranted(cfg, s0, [0], [], map[], Brk.Init());
    Extended(cfg, 0, [], e0);
    assert NewKey(cfg, s0, second) && NewKey(cfg, s0, third);
    assert NewKey(cfg, Reached(cfg, 0, [] + [e0]), second) && NewKey(cfg, Reached(cfg, 0, [] + [e0]), third);
    ProceedAdmitted(cfg, Reached(cfg, 0, [] + [e0]), 0, [HELD], map[], Brk.Init());
    Extended(cfg, 0, [] + [e0], e1);
    events := [] + [e0] + [e1];
  }

  lemma Opened(cfg: Config) returns (events: seq<Event>)
    requires cfg.breaker.Some? && cfg.breaker.value.errorThresholdPct <= 100.0
    requires RoomForTwo(Sem.Normalize(cfg.concurrency))
    ensures var t := Reached(cfg, 0, events);
            && At(t, [DONE], Tries(Retry.Attempts(cfg.retry)), Brk.State(Brk.Open, t.now, 0, 1))
            && t.sem.limit == Sem.Normalize(cfg.concurrency)
            && NewKey(cfg, t, [1]) && NewKey(cfg, t, [2])
  {
    hide Valid, Run, After;
    InitValid(cfg, 0);
    var first := FirstCall(cfg);
    var retries := Retries(Retry.Attempts(cfg.retry) - 1);
    var more := first + retries;
    RetriedOut(cfg, Reached(cfg, 0, first), 1, Retry.Attempts(cfg.retry) - 1);
    RunAppended(cfg, Init(cfg, 0), first, retries);
    FailureOpens(cfg, Reached(cfg, 0, more));
    Extended(cfg, 0, more, DoFinish(0, false));
    events := more + [DoFinish(0, false)];
  }

  lemma TwoMore(cfg: Config, soFar: seq<Event>, ms: nat, attempts: map<nat, nat>, brk: Brk.State) returns (events: seq<Event>)
    requires cfg.breaker.Some? && ms >= cfg.breaker.value.resetMs && RoomForTwo(Sem.Normalize(cfg.concurrency))
    requires var s := Reached(cfg, 0, soFar);
             && At(s, [DONE], attempts, brk) && s.sem.limit == Sem.Normalize(cfg.concurrency)
             && brk.mode == Brk.Open && brk.openedAt == s.now && 1 !in attempts && 2 !in attempts
             && NewKey(cfg, s, [1]) && NewKey(cfg, s, [2])
    ensures At(Reached(cfg, 0, events), [DONE, HELD, HELD], attempts[1 := 1][2 := 1], brk.(mode := Brk.HalfOpen))
  {
    hide Valid, Run, Reached, After;
    Holders([]); Holders([DONE]); Holders([DONE, HELD]);
    assert Sem.HoldingSet([DONE]) == {};
    assert [DONE] + [HELD] == [DONE, HELD] && [DONE, HELD] + [HELD] == [DONE, HELD, HELD];
    var s0 := Reached(cfg, 0, soFar);
    Waited(cfg, s0, ms, [DONE], attempts, brk);
    Extended(cfg, 0, soFar, DoAdvance(ms));
    var es1 := soFar + [DoAdvance(ms)];
    var s1 := Reached(cfg, 0, es1);
    CallGranted(cfg, s1, [1], [DONE], attempts, brk);
    Extended(cfg, 0, es1, DoCall([1], None));
    var es2 := es1 + [DoCall([1], None)];
    var s2 := Reached(cfg, 0, es2);
    CallGranted(cfg, s2, [2], [DONE, HELD], attempts, brk);
    Extended(cfg, 0, es2, DoCall([2], None));
    var es3 := es2 + [DoCall([2], None)];
    var s3 := Reached(cfg, 0, es3);
    ProceedAdmitted(cfg, s3, 1, [DONE, HELD, HELD], attempts, brk);
    Extended(cfg, 0, es3, DoProceed(1));
    var es4 := es3 + [DoProceed(1)];
    ProceedAdmitted(cfg, Reached(cfg, 0, es4), 2, [DONE, HELD, HELD], attempts[1 := 1], brk.(mode := Brk.HalfOpen));
    Extended(cfg, 0, es4, DoProceed(2));
    events := es4 + [DoProceed(2)];
  }

  /** Half-open means a single probe exactly when the integration has a concurrency of one, or its breaker can
      never open. */
  lemma OneProbeIff(cfg: Config)
    ensures AlwaysOneProbe(cfg) <==> Sem.Normalize(cfg.concurrency) == Sem.AtMost(1) || NeverOpens(cfg)
  {
    if Sem.Normalize(cfg.concurrency) == Sem.AtMost(1) || NeverOpens(cfg) {
      forall start, events ensures OneProbe(Reached(cfg, start, events)) {
        ProbesBounded(cfg, start, events);
      }
    } else {
      var events := TwoProbes(cfg);
      assert !OneProbe(Reached(cfg, 0, events));
    }
  }

  lemma ProbesBounded(cfg: Config, start: int, events: seq<Event>)
    requires Sem.Normalize(cfg.concurrency) == Sem.AtMost(1) || NeverOpens(cfg)
    ensures OneProbe(Reached(cfg, start, events))
  {
    InitValid(cfg, start);
    if NeverOpens(cfg) {
      StaysClosed(cfg, Init(cfg, start), events);
    } else {
      SingleProbe(cfg, Reached(cfg, start, events));
    }
  }
}
