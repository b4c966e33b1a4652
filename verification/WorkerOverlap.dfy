/** When batches of the scheduled worker overlap without ever working on the same record: the lease must outlast
    the slowest batch. */
module WorkerOverlap {
  import opened CodeUnits
  import opened JoinedNames
  import opened Options
  import opened ScheduledStore
  import opened ScheduledWorker

  /** Record `i` of batch `b` is not done. */
  predicate IsPending(s: State, b: nat, i: nat)
  {
    b < |s.batches| && s.batches[b].next <= i < |s.batches[b].recs|
  }

  function At(s: State, b: nat, i: nat): Record
    requires IsPending(s, b, i)
  {
    s.batches[b].recs[i]
  }

  /** No record, known by its lease name, is pending in two places. */
  ghost predicate Disjoint(s: State)
  {
    forall b: nat, i: nat, c: nat, j: nat ::
      IsPending(s, b, i) && IsPending(s, c, j) && Lease(At(s, b, i)) == Lease(At(s, c, j)) ==> b == c && i == j
  }

  // ----- the runs in question -----

  /** The event does not enqueue a key that is pending in a batch. */
  ghost predicate Quiet(s: State, e: Event)
  {
    e.DoEnqueue? ==> forall b: nat, i: nat :: IsPending(s, b, i) ==> At(s, b, i).rule != e.rule || At(s, b, i).key != e.key
  }

  predicate Small(s: State, n: nat) { forall b :: 0 <= b < |s.batches| ==> |s.batches[b].recs| <= n }

  /** No key is enqueued while it is in a batch, and no batch has more than `n` records. */
  ghost predicate Orderly(cfg: Config, s: State, events: seq<Event>, n: nat)
    decreases events
  {
    events == [] || (Quiet(s, events[0]) && Small(Step(cfg, s, events[0]), n)
        && Orderly(cfg, Step(cfg, s, events[0]), events[1..], n))
  }

  predicate NoClashes(cfg: Config)
  {
    forall rule, other :: rule in cfg.rules && other in cfg.rules && rule != other ==> !Clash(COLON, rule, other)
  }

  // ----- the invariant -----

  /** The watchdog bounds each run of the batch, and so the time since the claim. */
  predicate OnTime(cfg: Config, b: Batch, now: int)
  {
    && b.next <= |b.recs| && b.claimedAt <= b.startedAt <= now
    && b.startedAt <= b.claimedAt + b.next * cfg.evalTimeoutMs
    && (b.next < |b.recs| ==> now <= b.startedAt + cfg.evalTimeoutMs)
  }

  /** A pending record is still the one in the store, and under the lease of its claim. */
  predicate Held(cfg: Config, store: Store, b: Batch, r: Record)
  {
    && LeasedUntil(store, Lease(r), b.claimedAt + LeaseMs(cfg))
    && Get(store.groups, r.rule, r.key) == Some(r) && r.runAt <= b.claimedAt
  }

  ghost predicate KnownRules(cfg: Config, groups: seq<Group>)
  {
    forall rule, key :: Get(groups, rule, key).Some? ==> rule in cfg.rules
  }

  ghost predicate ValidStore(cfg: Config, store: Store)
  {
    ValidGroups(store.groups) && KnownRules(cfg, store.groups)
  }

  ghost predicate Valid(cfg: Config, s: State, n: nat)
  {
    && ValidStore(cfg, s.store)
    && (forall b :: 0 <= b < |s.batches| ==> OnTime(cfg, s.batches[b], s.now))
    && (forall b: nat, i: nat :: IsPending(s, b, i) ==> Held(cfg, s.store, s.batches[b], At(s, b, i)))
    && Disjoint(s) && Small(s, n)
  }

  /** Lease names tell records of known rules apart. */
  lemma NamesTellApart(cfg: Config, r: Record, x: Record)
    requires NoClashes(cfg) && r.rule in cfg.rules && x.rule in cfg.rules && Lease(r) == Lease(x)
    ensures r.rule == x.rule && r.key == x.key
  {
    LeaseNamesClash(r.rule, r.key, x.rule, x.key);
  }

  /** While anything of a batch is pending, its lease has not run out. */
  lemma LeaseOutlasts(cfg: Config, b: Batch, now: int, n: nat)
    requires OnTime(cfg, b, now) && b.next < |b.recs| <= n && n * cfg.evalTimeoutMs < LeaseMs(cfg)
    ensures now < b.claimedAt + LeaseMs(cfg)
  {
    Products(b.next, n, cfg.evalTimeoutMs);
  }

  lemma Products(k: nat, n: nat, e: nat)
    requires k < n
    ensures k * e + e <= n * e
  {
    var d: nat := n - k - 1;
    assert n * e == k * e + e + d * e;
  }

  // ----- claims -----

  lemma ClaimedApart(cfg: Config, s: State, n: nat, b: nat, i: nat, r: Record)
    requires Valid(cfg, s, n) && NoClashes(cfg) && n * cfg.evalTimeoutMs < LeaseMs(cfg)
    requires IsPending(s, b, i) && Available(s.store, r, s.now)
    ensures Lease(r) != Lease(At(s, b, i))
  {
    hide Get, ValidGroups, Disjoint;
    assert OnTime(cfg, s.batches[b], s.now) && Held(cfg, s.store, s.batches[b], At(s, b, i));
    LeaseOutlasts(cfg, s.batches[b], s.now, n);
  }

  lemma ClaimedDistinct(cfg: Config, store: Store, now: int, limit: int, i: nat, j: nat)
    requires ValidStore(cfg, store) && NoClashes(cfg)
    requires i < |Claimed(store, now, limit)| && j < |Claimed(store, now, limit)|
    requires Lease(Claimed(store, now, limit)[i]) == Lease(Claimed(store, now, limit)[j])
    ensures i == j
  {
    ClaimReturns(store, now, limit);
    hide Claimed, Get, ValidGroups, NoClashes;
    var claimed := Claimed(store, now, limit);
    assert claimed[i] in claimed && claimed[j] in claimed;
    NamesTellApart(cfg, claimed[i], claimed[j]);
  }

  lemma TickDisjoint(cfg: Config, s: State, n: nat)
    requires Valid(cfg, s, n) && NoClashes(cfg) && n * cfg.evalTimeoutMs < LeaseMs(cfg)
    ensures Disjoint(Tick(cfg, s, true))
  {
    var t, claimed := Tick(cfg, s, true), Claimed(s.store, s.now, CLAIM_LIMIT);
    ClaimReturns(s.store, s.now, CLAIM_LIMIT);
    hide Claimed, Available, Claim, OnTime, Held;
    forall b: nat, i: nat, c: nat, j: nat | IsPending(t, b, i) && IsPending(t, c, j)
        && Lease(At(t, b, i)) == Lease(At(t, c, j)) ensures b == c && i == j {
      var last := |s.batches|;
      if b == last && c == last {
        ClaimedDistinct(cfg, s.store, s.now, CLAIM_LIMIT, i, j);
      } else if b == last {
        assert claimed[i] in claimed && IsPending(s, c, j);
        ClaimedApart(cfg, s, n, c, j, claimed[i]);
      } else if c == last {
        assert claimed[j] in claimed && IsPending(s, b, i);
        ClaimedApart(cfg, s, n, b, i, claimed[j]);
      } else {
        assert IsPending(s, b, i) && IsPending(s, c, j);
      }
    }
  }

  /** What a claim returns is under its lease from then on. */
  lemma ClaimLeases(store: Store, now: int, limit: int, leaseMs: int, i: nat)
    requires i < |Claimed(store, now, limit)| && leaseMs > 0
    ensures LeasedUntil(Claim(store, now, limit, leaseMs), Lease(Claimed(store, now, limit)[i]), now + leaseMs)
  {
    hide Claimed, LeaseAll, LeaseKey;
    var claimed := Claimed(store, now, limit);
    LeaseAllAt(store.leases, claimed, now + leaseMs, Lease(claimed[i]));
    assert claimed[i] in claimed;
  }

  lemma ClaimKeepsGroups(store: Store, now: int, limit: int, leaseMs: int)
    ensures Claim(store, now, limit, leaseMs).groups == store.groups
  {
  }

  lemma TickHolds(cfg: Config, s: State, n: nat, b: nat, i: nat)
    requires Valid(cfg, s, n) && IsPending(Tick(cfg, s, true), b, i)
    ensures var t := Tick(cfg, s, true); Held(cfg, t.store, t.batches[b], At(t, b, i))
  {
    hide Claimed, Claim, Get, ValidGroups, Disjoint, KnownRules, OnTime, LeaseKey, LeaseMs;
    var t, claimed := Tick(cfg, s, true), Claimed(s.store, s.now, CLAIM_LIMIT);
    var r := At(t, b, i);
    ClaimKeepsGroups(s.store, s.now, CLAIM_LIMIT, LeaseMs(cfg));
    if b == |s.batches| {
      ClaimReturns(s.store, s.now, CLAIM_LIMIT);
      ClaimLeases(s.store, s.now, CLAIM_LIMIT, LeaseMs(cfg), i);
      assert claimed[i] in claimed && Available(s.store, r, s.now);
    } else {
      assert IsPending(s, b, i) && Held(cfg, s.store, s.batches[b], r);
      StepHoldsLease(s.store, DoClaim(s.now, CLAIM_LIMIT, LeaseMs(cfg)), Lease(r), s.batches[b].claimedAt + LeaseMs(cfg));
    }
  }

  lemma TickValid(cfg: Config, s: State, registry: bool, n: nat)
    requires Valid(cfg, s, n) && NoClashes(cfg) && n * cfg.evalTimeoutMs < LeaseMs(cfg)
    requires Small(Tick(cfg, s, registry), n)
    ensures Valid(cfg, Tick(cfg, s, registry), n)
  {
    hide Claimed, Claim, ValidGroups, Get, Disjoint, Held, Lease;
    var t := Tick(cfg, s, registry);
    if registry {
      TickDisjoint(cfg, s, n);
      forall b: nat, i: nat | IsPending(t, b, i)
          ensures Held(cfg, t.store, t.batches[b], At(t, b, i)) { TickHolds(cfg, s, n, b, i); }
      ClaimKeepsGroups(s.store, s.now, CLAIM_LIMIT, LeaseMs(cfg));
    } else {
      SamePending(cfg, s, t, n);
    }
  }

  lemma SamePending(cfg: Config, s: State, t: State, n: nat)
    requires Valid(cfg, s, n) && t.store == s.store && t.batches == s.batches && t.now >= s.now
    requires forall b :: 0 <= b < |t.batches| ==> OnTime(cfg, t.batches[b], t.now)
    ensures Valid(cfg, t, n)
  {
    hide ValidGroups, Held, Lease, OnTime, KnownRules;
    forall b: nat, i: nat | IsPending(t, b, i)
        ensures Held(cfg, t.store, t.batches[b], At(t, b, i)) { assert IsPending(s, b, i); }
    forall b: nat, i: nat, c: nat, j: nat | IsPending(t, b, i) && IsPending(t, c, j)
        && Lease(At(t, b, i)) == Lease(At(t, c, j)) ensures b == c && i == j {
      assert IsPending(s, b, i) && IsPending(s, c, j);
    }
  }

  // ----- ends of runs -----

  /** What the worker does to the store is about one record. */
  predicate IsAbout(op: Op, rule: Text, key: Text)
  {
    match op
    case DoEnqueue(x) => x.rule == rule && x.key == key
    case DoClaim(_, _, _) => false
    case DoRemove(rule', key') => rule' == rule && key' == key
    case DoReschedule(rule', key', _) => rule' == rule && key' == key
  }

  lemma AboutOne(store: Store, op: Op, rule: Text, key: Text)
    requires ValidGroups(store.groups) && IsAbout(op, rule, key)
    ensures ValidGroups(Apply(store, op).groups)
    ensures forall rule', key' :: rule' != rule || key' != key ==>
                                    Get(Apply(store, op).groups, rule', key') == Get(store.groups, rule', key')
    ensures !op.DoEnqueue? && Get(Apply(store, op).groups, rule, key).Some? ==> Get(store.groups, rule, key).Some?
  {
    match op
    case DoEnqueue(x) => PutChanges(store.groups, x);
    case DoRemove(_, _) => RemoveChanges(store, rule, key);
    case DoReschedule(_, _, newRunAt) =>
      var there := Get(store.groups, rule, key);
      if there.Some? {
        GetHas(store.groups, rule, key);
        PutChanges(store.groups, there.value.(runAt := newRunAt));
      }
  }

  lemma OtherHeld(cfg: Config, store: Store, op: Op, rule: Text, key: Text, b: Batch, x: Record)
    requires ValidGroups(store.groups) && IsAbout(op, rule, key) && Held(cfg, store, b, x)
    requires Lease(x) != LeaseKey(rule, key)
    ensures Held(cfg, Apply(store, op), b, x)
  {
    AboutOne(store, op, rule, key);
    StepHoldsLease(store, op, Lease(x), b.claimedAt + LeaseMs(cfg));
    hide ValidGroups, Get, Apply;
  }

  lemma EndIsAbout(s: State, r: Record, outcome: Outcome) returns (op: Op)
    ensures Ended(s, r, outcome).store == s.store || Ended(s, r, outcome).store == Apply(s.store, op)
    ensures Ended(s, r, outcome).now == s.now
    ensures IsAbout(op, r.rule, r.key) && !op.DoEnqueue?
  {
    hide NameOf;
    op := DoRemove(r.rule, r.key);
    if outcome.Recheck? && !PastDeadline(r, s.now + outcome.after) {
      op := DoReschedule(r.rule, r.key, s.now + outcome.after);
    }
  }

  /** The store after the event, when all but one key is as before. */
  lemma ChangedStore(cfg: Config, s: State, t: State, op: Op, rule: Text, key: Text, n: nat)
    requires Valid(cfg, s, n) && IsAbout(op, rule, key) && rule in cfg.rules
    requires t.store == s.store || t.store == Apply(s.store, op)
    requires |t.batches| == |s.batches| && t.now == s.now
    requires forall b :: 0 <= b < |s.batches| ==>
                           && t.batches[b].recs == s.batches[b].recs && t.batches[b].claimedAt == s.batches[b].claimedAt
                           && t.batches[b].next >= s.batches[b].next && OnTime(cfg, t.batches[b], t.now)
    requires forall b: nat, i: nat :: IsPending(t, b, i) ==> Lease(At(t, b, i)) != LeaseKey(rule, key)
    ensures Valid(cfg, t, n)
  {
    AboutOne(s.store, op, rule, key);
    hide ValidGroups, Get, Apply, Lease, OnTime;
    forall b: nat, i: nat | IsPending(t, b, i) ensures Held(cfg, t.store, t.batches[b], At(t, b, i)) {
      assert IsPending(s, b, i) && Held(cfg, s.store, s.batches[b], At(s, b, i));
      OtherHeld(cfg, s.store, op, rule, key, s.batches[b], At(s, b, i));
    }
    forall b: nat, i: nat, c: nat, j: nat | IsPending(t, b, i) && IsPending(t, c, j)
        && Lease(At(t, b, i)) == Lease(At(t, c, j)) ensures b == c && i == j {
      assert IsPending(s, b, i) && IsPending(s, c, j);
    }
  }

  lemma FinishValid(cfg: Config, s: State, b: nat, outcome: Outcome, n: nat)
    requires Valid(cfg, s, n) && Running(s, b)
    ensures Valid(cfg, Step(cfg, s, DoFinish(b, outcome)), n)
  {
    hide ValidGroups, Get, Ended;
    var t, r := Step(cfg, s, DoFinish(b, outcome)), Current(s, b);
    var k := s.batches[b].next;
    assert IsPending(s, b, k) && At(s, b, k) == r;
    assert Held(cfg, s.store, s.batches[b], r);
    hide Held;
    var op := EndIsAbout(s, r, outcome);
    hide OnTime;
    assert t.batches == Advanced(s, b) && t.now == s.now;
    forall c: nat, j: nat | IsPending(t, c, j) ensures Lease(At(t, c, j)) != LeaseKey(r.rule, r.key) {
      assert IsPending(s, c, j) && (c != b || j != k);
    }
    hide Lease, LeaseKey;
    ChangedStore(cfg, s, t, op, r.rule, r.key, n);
  }

  lemma EnqueueValid(cfg: Config, s: State, rule: Text, key: Text, payload: nat, n: nat)
    requires Valid(cfg, s, n) && NoClashes(cfg) && rule in cfg.rules && Quiet(s, Event.DoEnqueue(rule, key, payload))
    ensures Valid(cfg, Step(cfg, s, Event.DoEnqueue(rule, key, payload)), n)
  {
    var r, t := NewRecord(cfg, s.now, rule, key, payload), Step(cfg, s, Event.DoEnqueue(rule, key, payload));
    hide ValidGroups, Get, OnTime, NoClashes;
    forall c: nat, j: nat | IsPending(t, c, j) ensures Lease(At(t, c, j)) != LeaseKey(rule, key) {
      assert IsPending(s, c, j) && Held(cfg, s.store, s.batches[c], At(s, c, j));
      if Lease(At(s, c, j)) == Lease(r) { NamesTellApart(cfg, At(s, c, j), r); }
    }
    assert t.store == Apply(s.store, Op.DoEnqueue(r));
    hide Enqueue, Lease, LeaseKey, Held;
    ChangedStore(cfg, s, t, Op.DoEnqueue(r), rule, key, n);
  }

  lemma StepValid(cfg: Config, s: State, e: Event, n: nat)
    requires Valid(cfg, s, n) && NoClashes(cfg) && n * cfg.evalTimeoutMs < LeaseMs(cfg)
    requires Quiet(s, e) && Small(Step(cfg, s, e), n)
    ensures Valid(cfg, Step(cfg, s, e), n)
  {
    match e
    case DoStart => hide ValidStore; SamePending(cfg, s, Step(cfg, s, e), n);
    case DoStop => hide ValidStore; SamePending(cfg, s, Step(cfg, s, e), n);
    case DoTick(registry) => hide Valid; if MayTick(cfg, s) { TickValid(cfg, s, registry, n); }
    case DoEnqueue(rule, key, payload) => hide Valid; if rule in cfg.rules { EnqueueValid(cfg, s, rule, key, payload, n); }
    case DoFinish(b, outcome) => hide Valid; if Running(s, b) { FinishValid(cfg, s, b, outcome, n); }
    case DoAdvance(ms) => AdvanceValid(cfg, s, ms, n);
  }

  lemma AdvanceValid(cfg: Config, s: State, ms: nat, n: nat)
    requires Valid(cfg, s, n)
    ensures Valid(cfg, Step(cfg, s, DoAdvance(ms)), n)
  {
    hide ValidStore, Held, Disjoint;
    var t := Step(cfg, s, DoAdvance(ms));
    forall b | 0 <= b < |t.batches| ensures OnTime(cfg, t.batches[b], t.now) {
      assert OnTime(cfg, s.batches[b], s.now);
      assert MayAdvance(cfg, s, ms) && s.batches[b].next < |s.batches[b].recs| ==> Running(s, b);
    }
    SamePending(cfg, s, t, n);
  }

  lemma {:induction false} RunValid(cfg: Config, s: State, events: seq<Event>, n: nat)
    requires Valid(cfg, s, n) && NoClashes(cfg) && n * cfg.evalTimeoutMs < LeaseMs(cfg)
    requires Orderly(cfg, s, events, n)
    ensures Valid(cfg, Run(cfg, s, events), n)
    decreases events
  {
    hide Valid, Step, Quiet, Small;
    if events != [] {
      StepValid(cfg, s, events[0], n);
      RunValid(cfg, Step(cfg, s, events[0]), events[1..], n);
    }
  }

  /** In all runs with batches of at most `n` records, no record is pending in two batches. */
  ghost predicate AlwaysDisjoint(cfg: Config, n: nat)
  {
    forall start, events :: Orderly(cfg, Init(start), events, n) ==> Disjoint(Run(cfg, Init(start), events))
  }

  /** If running out the time limit on all records of a batch takes less than the lease, then in every run no
      record is worked on by two overlapping batches. */
  lemma LeaseKeepsBatchesApart(cfg: Config, n: nat)
    requires NoClashes(cfg) && n * cfg.evalTimeoutMs < LeaseMs(cfg)
    ensures AlwaysDisjoint(cfg, n)
  {
    forall start, events | Orderly(cfg, Init(start), events, n) ensures Disjoint(Run(cfg, Init(start), events)) {
      RunValid(cfg, Init(start), events, n);
    }
  }

  // ----- how soon a failed check is run again -----

  /** The event gives a lease name up: its key is enqueued, or a run of it succeeds or is the last one allowed. */
  predicate Frees(cfg: Config, s: State, e: Event, name: Text)
  {
    || (e.DoEnqueue? && LeaseKey(e.rule, e.key) == name)
    || (e.DoFinish? && Running(s, e.b) && Lease(Current(s, e.b)) == name && Step(cfg, s, e).store != s.store)
  }

  predicate NeverFrees(cfg: Config, s: State, events: seq<Event>, name: Text)
    decreases events
  {
    events == [] || (!Frees(cfg, s, events[0], name) && NeverFrees(cfg, Step(cfg, s, events[0]), events[1..], name))
  }

  lemma StepKeepsLease(cfg: Config, s: State, e: Event, name: Text, until: int)
    requires ValidGroups(s.store.groups) && LeasedUntil(s.store, name, until) && !Frees(cfg, s, e, name)
    ensures var t := Step(cfg, s, e); ValidGroups(t.store.groups) && LeasedUntil(t.store, name, until)
  {
    hide ValidGroups, Enqueue, Remove, Reschedule;
    if e.DoFinish? && Running(s, e.b) {
      var r := Current(s, e.b);
      var op := EndIsAbout(s, r, e.outcome);
      if Step(cfg, s, e).store != s.store {
        StepHoldsLease(s.store, op, name, until);
        ApplyValidGroups(s.store, op);
      }
    } else if e.DoEnqueue? && e.rule in cfg.rules {
      StepHoldsLease(s.store, Op.DoEnqueue(NewRecord(cfg, s.now, e.rule, e.key, e.payload)), name, until);
      ApplyValidGroups(s.store, Op.DoEnqueue(NewRecord(cfg, s.now, e.rule, e.key, e.payload)));
    } else if e.DoTick? && MayTick(cfg, s) && e.registry {
      StepHoldsLease(s.store, DoClaim(s.now, CLAIM_LIMIT, LeaseMs(cfg)), name, until);
      ApplyValidGroups(s.store, DoClaim(s.now, CLAIM_LIMIT, LeaseMs(cfg)));
    }
  }

  /** Batch `b` has claimed a record of that lease name. */
  predicate Claims(b: Batch, name: Text) { exists i :: 0 <= i < |b.recs| && Lease(b.recs[i]) == name }

  lemma NewBatchIsLater(cfg: Config, s: State, e: Event, name: Text, until: int)
    requires ValidGroups(s.store.groups) && LeasedUntil(s.store, name, until)
    ensures var t := Step(cfg, s, e);
            && |t.batches| >= |s.batches|
            && (forall b :: 0 <= b < |s.batches| ==>
                              t.batches[b].recs == s.batches[b].recs && t.batches[b].claimedAt == s.batches[b].claimedAt)
            && (forall b :: |s.batches| <= b < |t.batches| && Claims(t.batches[b], name) ==> t.batches[b].claimedAt >= until)
  {
    if e.DoTick? && MayTick(cfg, s) && e.registry {
      ClaimReturns(s.store, s.now, CLAIM_LIMIT);
      hide ValidGroups, Get, Claimed, Claim;
      var claimed := Claimed(s.store, s.now, CLAIM_LIMIT);
      forall i | 0 <= i < |claimed| && Lease(claimed[i]) == name ensures s.now >= until { assert claimed[i] in claimed; }
    } else if e.DoFinish? && Running(s, e.b) {
      hide Ended;
    }
  }

  /** A record that is under a lease until some time, for instance because its last run failed, is not in any
      batch claimed before that time, unless it was enqueued, rescheduled or removed since. */
  lemma {:induction false} FailuresALeaseApart(cfg: Config, s: State, events: seq<Event>, name: Text, until: int)
    requires ValidGroups(s.store.groups) && LeasedUntil(s.store, name, until) && NeverFrees(cfg, s, events, name)
    ensures var t := Run(cfg, s, events);
            && |t.batches| >= |s.batches|
            && (forall b :: 0 <= b < |s.batches| ==>
                              t.batches[b].recs == s.batches[b].recs && t.batches[b].claimedAt == s.batches[b].claimedAt)
            && (forall b :: |s.batches| <= b < |t.batches| && Claims(t.batches[b], name) ==> t.batches[b].claimedAt >= until)
    decreases events
  {
    if events != [] {
      hide ValidGroups, LeasedUntil, Step, Frees;
      StepKeepsLease(cfg, s, events[0], name, until);
      NewBatchIsLater(cfg, s, events[0], name, until);
      FailuresALeaseApart(cfg, Step(cfg, s, events[0]), events[1..], name, until);
    }
  }

  /** Two claims of one record with nothing in between that frees it, such as the claims before and after a failed
      run, are at least a lease apart. */
  lemma ClaimsALeaseApart(cfg: Config, start: int, before: seq<Event>, between: seq<Event>, name: Text, c: nat)
    ensures var s := Run(cfg, Init(start), before);
            var b, t := |s.batches|, Step(cfg, s, DoTick(true));
            var u := Run(cfg, t, between);
            MayTick(cfg, s) && Claims(t.batches[b], name) && NeverFrees(cfg, t, between, name)
            && b < c < |u.batches| && Claims(u.batches[c], name) ==>
              u.batches[b].recs == t.batches[b].recs && u.batches[c].claimedAt >= u.batches[b].claimedAt + LeaseMs(cfg)
  {
    hide Run, NeverFrees, Claimed, Get, LeaseAll;
    InitDeadlines(cfg, start);
    DeadlinesAlwaysKept(cfg, Init(start), before);
    var s := Run(cfg, Init(start), before);
    var t, claimed := Step(cfg, s, DoTick(true)), Claimed(s.store, s.now, CLAIM_LIMIT);
    if MayTick(cfg, s) && Claims(t.batches[|s.batches|], name) && NeverFrees(cfg, t, between, name) {
      LeaseAllAt(s.store.leases, claimed, s.now + LeaseMs(cfg), name);
      hide ValidGroups, LeaseMs;
      FailuresALeaseApart(cfg, t, between, name, s.now + LeaseMs(cfg));
    }
  }
}
