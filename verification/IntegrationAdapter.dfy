/** The adapter as the source has it: one semaphore, one breaker and one cache behind the wrapped methods, and
    the stretches of code that a call runs between two awaits. */
module IntegrationAdapter {
  import opened CodeUnits
  import opened Options
  import opened Adapter
  import Brk = Breaker
  import Cache = PromiseCache
  import Retry
  import Sem = Semaphore

  /** What a step needs of the state it starts in, and keeps. */
  lemma Steps(cfg: Config, s: State, e: Event)
    requires Valid(cfg, s)
    ensures Sem.Valid(s.sem) && Sem.QueueInRange(s.sem) && Valid(cfg, Step(cfg, s, e))
    ensures cfg.cache.Some? ==> |s.cache.created| == |s.sem.calls|
  {
    InRange(cfg, s);
    StepValid(cfg, s, e);
  }

  class IntegrationAdapter {
    const config: Config
    const semaphore: Sem.AdapterSemaphore
    const breaker: Brk.AdapterBreaker
    const cache: Cache.AdapterCache?
    /** What the pending calls hold in their frames: the attempt each is at; and which of them threw. */
    var attempts: map<nat, nat>
    var failed: set<nat>
    var now: int
    ghost var uses: seq<Text>
    ghost var created: seq<Cache.Creation>
    ghost var handled: set<nat>
    ghost var log: seq<Brk.Event>

    ghost function Current(): State
      reads this, semaphore, breaker, cache
    {
      State(semaphore.Current(), breaker.Current(),
            Cache.State(if cache == null then [] else cache.cache, uses, created, handled),
            attempts, failed, now, log)
    }

    ghost predicate Ready()
      reads this, semaphore, breaker, cache
    {
      && Valid(config, Current())
      && semaphore.limit == Sem.Normalize(config.concurrency)
      && breaker.config == config.breaker
      && (cache != null <==> config.cache.Some?)
      && (cache != null ==> cache.config == config.cache.value)
    }

    constructor (config: Config, start: int)
      ensures Ready() && this.config == config && Current() == Init(config, start)
    {
      this.config := config;
      semaphore := new Sem.AdapterSemaphore(config.concurrency);
      breaker := new Brk.AdapterBreaker(config.breaker);
      if config.cache.Some? {
        cache := new Cache.AdapterCache(config.cache.value);
      } else {
        cache := null;
      }
      attempts, failed, now := map[], {}, start;
      uses, created, handled, log := [], [], {}, [];
      new;
      InitValid(config, start);
    }

    /** The wrapped method up to its await: the number of the promise the caller gets. */
    method Call(key: Text, signal: Option<nat>) returns (promise: nat)
      requires Ready()
      modifies this, semaphore, breaker, cache
      ensures Sem.QueueInRange(old(Current().sem))
      ensures Ready() && Current() == Step(config, old(Current()), DoCall(key, signal))
      ensures promise == if config.cache.Some? then Cache.Served(old(Current()).cache, key, now) else |old(semaphore.calls)|
    {
      hide Valid, Sem.Valid, Sem.QueueInRange, Sem.Acquire, Sem.Release, Sem.FireAbort, Cache.LookUp, Cache.Insert, Cache.Remove;
      ghost var before := Current();
      Steps(config, before, DoCall(key, signal));
      if cache != null {
        var hit := cache.GetCached(key, now);
        uses := uses + [key];
        if hit.Some? {
          return hit.value.promise;
        }
      }
      promise := semaphore.Acquire(signal);
      if cache != null {
        created := created + [Cache.Creation(key, now)];
        cache.SetCached(key, promise, now);
      }
    }

    /** From the permit to the first attempt, or out again when the breaker rejects. */
    method Proceed(id: nat) returns (admitted: bool)
      requires Ready() && MayProceed(Current(), id)
      modifies this, semaphore, breaker
      ensures Sem.QueueInRange(old(Current().sem))
      ensures Ready() && Current() == Step(config, old(Current()), DoProceed(id))
      ensures admitted <==> config.breaker.None? || old(breaker.breakerState) != Brk.Open
                            || now - old(breaker.breakerOpenedAt) >= config.breaker.value.resetMs
    {
      hide Valid, Sem.Valid, Sem.QueueInRange, Sem.Acquire, Sem.Release, Sem.FireAbort, Cache.LookUp, Cache.Insert, Cache.Remove;
      ghost var before := Current();
      Steps(config, before, DoProceed(id));
      admitted := breaker.BeforeBreakerCall(now);
      if breaker.config.Some? {
        log := log + [Brk.Check(now)];
      }
      if admitted {
        attempts := attempts[id := 1];
      } else {
        failed := failed + {id};
        semaphore.Release(id);
      }
    }

    /** The next turn of the retry loop. */
    method NextAttempt(id: nat)
      requires Ready() && IsInFlight(Current(), id) && attempts[id] < Retry.Attempts(config.retry)
      modifies this
      ensures Sem.QueueInRange(old(Current().sem))
      ensures Ready() && Current() == Step(config, old(Current()), DoRetry(id))
    {
      hide Valid, Sem.Valid, Sem.QueueInRange, Sem.Acquire, Sem.Release, Sem.FireAbort, Cache.LookUp, Cache.Insert, Cache.Remove;
      ghost var before := Current();
      Steps(config, before, DoRetry(id));
      attempts := attempts[id := attempts[id] + 1];
    }

    /** The end of a call: the outcome goes to the breaker and the permit back to the semaphore. */
    method Finish(id: nat, ok: bool)
      requires Ready() && MayFinish(config, Current(), id, ok)
      modifies this, semaphore, breaker
      ensures Sem.QueueInRange(old(Current().sem))
      ensures Ready() && Current() == Step(config, old(Current()), DoFinish(id, ok))
    {
      hide Valid, Sem.Valid, Sem.QueueInRange, Sem.Acquire, Sem.Release, Sem.FireAbort, Cache.LookUp, Cache.Insert, Cache.Remove;
      ghost var before := Current();
      Steps(config, before, DoFinish(id, ok));
      if ok {
        breaker.AfterBreakerSuccess(now);
      } else {
        breaker.AfterBreakerFailure(now);
        failed := failed + {id};
      }
      if breaker.config.Some? {
        log := log + [if ok then Brk.Success(now) else Brk.Failure(now)];
      }
      semaphore.Release(id);
    }

    /** The rejection handler that caching a promise has attached to it. */
    method OnRejected(id: nat, key: Text)
      requires Ready() && cache != null && HasFailed(Current(), id) && id < |created| && created[id].key == key
      modifies this, cache
      ensures Sem.QueueInRange(old(Current().sem))
      ensures Ready() && Current() == Step(config, old(Current()), DoOnRejected(id))
    {
      hide Valid, Sem.Valid, Sem.QueueInRange, Sem.Acquire, Sem.Release, Sem.FireAbort, Cache.LookUp, Cache.Insert, Cache.Remove;
      ghost var before := Current();
      Steps(config, before, DoOnRejected(id));
      handled := handled + {id};
      cache.OnRejected(key);
    }

    /** A caller's signal fires; a waiting call's listener runs. */
    method Signal(sig: nat)
      requires Ready()
      modifies semaphore
      ensures Sem.QueueInRange(old(Current().sem))
      ensures Ready() && Current() == Step(config, old(Current()), DoSignal(sig))
    {
      hide Valid, Sem.Valid, Sem.QueueInRange, Sem.Acquire, Sem.Release, Sem.FireAbort, Cache.LookUp, Cache.Insert, Cache.Remove;
      ghost var before := Current();
      Steps(config, before, DoSignal(sig));
      semaphore.Signal(sig);
    }

    method OnAbort(id: nat)
      requires Ready()
      modifies semaphore
      ensures Sem.QueueInRange(old(Current().sem))
      ensures Ready() && Current() == Step(config, old(Current()), DoFireAbort(id))
    {
      hide Valid, Sem.Valid, Sem.QueueInRange, Sem.Acquire, Sem.Release, Sem.FireAbort, Cache.LookUp, Cache.Insert, Cache.Remove;
      ghost var before := Current();
      Steps(config, before, DoFireAbort(id));
      semaphore.OnAbort(id);
    }
  }
}
