/** The bounds on overlapping batches and on repeats are exact: when the time limits of a full batch add up to the
    lease, there are runs in which two batches work on one record, and in which both repeat it. */
module WorkerLease {
  import opened CodeUnits
  import opened Options
  import opened ScheduledStore
  import opened ScheduledWorker
  import opened TimeOrder
  import opened WorkerOverlap
  import opened WorkerRechecks

  // ----- building a run event by event -----

  /** A key that is watched, and the least time its repeats put it off by. */
  datatype Watch = Watch(rule: Text, key: Text, a: nat)

  /** The event does not enqueue the watched key, nor repeat it too soon. */
  predicate Keeps(s: State, e: Event, w: Watch)
  {
    && !(e.DoEnqueue? && e.rule == w.rule && e.key == w.key)
    && (Repeats(s, e, w.rule, w.key) ==> e.outcome.after >= w.a)
  }

  function Repeated(s: State, e: Event, w: Watch): nat { if Repeats(s, e, w.rule, w.key) then 1 else 0 }

  lemma {:induction false} RunOneMore(cfg: Config, s: State, events: seq<Event>, e: Event, n: nat, w: Watch)
    requires Orderly(cfg, s, events, n) && Steady(cfg, s, events, w.rule, w.key, w.a)
    requires var t := Run(cfg, s, events); Quiet(t, e) && Keeps(t, e, w) && Small(Step(cfg, t, e), n)
    ensures var t := Run(cfg, s, events);
            && Run(cfg, s, events + [e]) == Step(cfg, t, e) && Orderly(cfg, s, events + [e], n)
            && Steady(cfg, s, events + [e], w.rule, w.key, w.a)
            && Rechecks(cfg, s, events + [e], w.rule, w.key) == Rechecks(cfg, s, events, w.rule, w.key) + Repeated(t, e, w)
    decreases events
  {
    hide Step, Quiet, Small, Repeats;
    if events == [] {
      assert [] + [e] == [e] && [e][1..] == [];
      assert Run(cfg, s, [e]) == Run(cfg, Step(cfg, s, e), []);
    } else {
      assert (events + [e])[0] == events[0] && (events + [e])[1..] == events[1..] + [e];
      RunOneMore(cfg, Step(cfg, s, events[0]), events[1..], e, n, w);
    }
  }

  lemma {:induction false} RunOn(cfg: Config, s: State, before: seq<Event>, later: seq<Event>, n: nat)
    requires Orderly(cfg, s, before, n) && Orderly(cfg, Run(cfg, s, before), later, n)
    ensures Orderly(cfg, s, before + later, n) && Run(cfg, s, before + later) == Run(cfg, Run(cfg, s, before), later)
    decreases before
  {
    hide Step, Quiet, Small;
    if before == [] {
      assert [] + later == later;
    } else {
      assert (before + later)[0] == before[0] && (before + later)[1..] == before[1..] + later;
      RunOn(cfg, Step(cfg, s, before[0]), before[1..], later, n);
    }
  }

  /** There is an orderly run from one state to the other, with batches of at most `n` records, that repeats the
      watched key so many times. */
  ghost predicate Reached(cfg: Config, origin: State, s: State, n: nat, w: Watch, k: nat)
  {
    exists events ::
      && Orderly(cfg, origin, events, n) && Run(cfg, origin, events) == s
      && Steady(cfg, origin, events, w.rule, w.key, w.a) && Rechecks(cfg, origin, events, w.rule, w.key) == k
  }

  lemma ReachHere(cfg: Config, s: State, n: nat, w: Watch)
    ensures Reached(cfg, s, s, n, w, 0)
  {
    assert Orderly(cfg, s, [], n) && Run(cfg, s, []) == s;
    assert Steady(cfg, s, [], w.rule, w.key, w.a) && Rechecks(cfg, s, [], w.rule, w.key) == 0;
  }

  lemma ReachStep(cfg: Config, origin: State, s: State, e: Event, n: nat, w: Watch, k: nat)
    requires Reached(cfg, origin, s, n, w, k) && Quiet(s, e) && Keeps(s, e, w) && Small(Step(cfg, s, e), n)
    ensures Reached(cfg, origin, Step(cfg, s, e), n, w, k + Repeated(s, e, w))
  {
    hide Step, Run, Orderly, Quiet, Small, Steady, Rechecks, Keeps, Repeated;
    var events :|
      && Orderly(cfg, origin, events, n) && Run(cfg, origin, events) == s
      && Steady(cfg, origin, events, w.rule, w.key, w.a) && Rechecks(cfg, origin, events, w.rule, w.key) == k;
    RunOneMore(cfg, origin, events, e, n, w);
  }

  // ----- a store with so many due records -----

  function KeyText(i: nat): Text { seq(i, _ => 0) }

  /** `m` records of one rule, all due at its delay, none of them leased, and keys from `m` on unused. */
  ghost predicate Filled(cfg: Config, rule: Text, store: Store, m: nat)
  {
    && ValidGroups(store.groups) && store.leases == map[] && |All(store.groups)| == m
    && (rule in cfg.rules && forall r :: r in All(store.groups) ==> r.rule == rule && r.runAt == cfg.rules[rule].delayMs)
    && (forall i: nat :: i >= m ==> Get(store.groups, rule, KeyText(i)) == None)
  }

  /** `n` records of one rule, none of them leased, and `last` due after all others. */
  ghost predicate Full(store: Store, last: Record, n: nat)
  {
    && ValidGroups(store.groups) && store.leases == map[] && |All(store.groups)| == n && last in All(store.groups)
    && forall r :: r in All(store.groups) ==> r.rule == last.rule && (r == last || r.runAt < last.runAt)
  }

  lemma {:induction false} PutAdds(recs: seq<Record>, r: Record)
    requires FindRec(recs, r.key) == None
    ensures PutRec(recs, r) == recs + [r]
  {
    if recs != [] { PutAdds(recs[1..], r); }
  }

  lemma {:induction false} AllPut(groups: seq<Group>, r: Record)
    requires Get(groups, r.rule, r.key) == None
    ensures |All(Put(groups, r))| == |All(groups)| + 1
    ensures forall x :: x in All(Put(groups, r)) ==> x == r || x in All(groups)
  {
    if groups == [] {
      assert [Group(r.rule, [r])][1..] == [];
      assert All([Group(r.rule, [r])]) == [r] + All([]);
    } else if groups[0].rule == r.rule {
      PutAdds(groups[0].recs, r);
      assert Put(groups, r)[1..] == groups[1..];
    } else {
      AllPut(groups[1..], r);
      assert Put(groups, r)[1..] == Put(groups[1..], r);
    }
  }

  lemma EnqueueFills(cfg: Config, rule: Text, store: Store, m: nat)
    requires Filled(cfg, rule, store, m)
    ensures Filled(cfg, rule, Enqueue(store, NewRecord(cfg, 0, rule, KeyText(m), 0)), m + 1)
  {
    var r := NewRecord(cfg, 0, rule, KeyText(m), 0);
    AllPut(store.groups, r);
    PutChanges(store.groups, r);
    hide ValidGroups, Get, All, Put, LeaseKey;
    forall i: nat | i >= m + 1 ensures Get(Put(store.groups, r), rule, KeyText(i)) == None {
      assert |KeyText(i)| != |KeyText(m)|;
    }
  }

  lemma EnqueueLast(cfg: Config, rule: Text, store: Store, m: nat, now: int)
    requires Filled(cfg, rule, store, m) && now >= 1
    ensures var last := NewRecord(cfg, now, rule, KeyText(m), 0); Full(Enqueue(store, last), last, m + 1)
  {
    var last := NewRecord(cfg, now, rule, KeyText(m), 0);
    AllPut(store.groups, last);
    PutChanges(store.groups, last);
    AllMembers(Put(store.groups, last), last);
    hide ValidGroups, Get, All, Put, LeaseKey;
  }

  lemma {:induction false} ReachFilled(cfg: Config, rule: Text, m: nat, n: nat, w: Watch) returns (s: State)
    requires rule in cfg.rules && w.key == KeyText(n) && m <= n
    ensures Reached(cfg, Init(0), s, n + 1, w, 0) && Filled(cfg, rule, s.store, m)
    ensures s == Init(0).(store := s.store)
  {
    if m == 0 {
      s := Init(0);
      ReachHere(cfg, s, n + 1, w);
      assert All([]) == [];
    } else {
      hide Reached, Filled, Enqueue;
      var before := ReachFilled(cfg, rule, m - 1, n, w);
      EnqueueFills(cfg, rule, before.store, m - 1);
      var e := Event.DoEnqueue(rule, KeyText(m - 1), 0);
      assert |KeyText(m - 1)| != |KeyText(n)|;
      s := Step(cfg, before, e);
      ReachStep(cfg, Init(0), before, e, n + 1, w, 0);
      assert s.repeated == {};
    }
  }

  // ----- claiming them all -----

  lemma {:induction false} AllCandidates(recs: seq<Record>, leases: map<Text, int>, now: int)
    requires forall r :: r in recs ==> Eligible(leases, r, now)
    ensures |Candidates(recs, leases, now)| == |recs|
  {
    if recs != [] { AllCandidates(recs[1..], leases, now); }
  }

  /** When everything is available and the limit is not reached, everything is claimed. */
  lemma ClaimsAll(store: Store, now: int, limit: nat)
    requires ValidGroups(store.groups) && |All(store.groups)| <= limit
    requires forall r :: r in All(store.groups) ==> Eligible(store.leases, r, now)
    ensures |Claimed(store, now, limit)| == |All(store.groups)|
    ensures forall r :: r in Claimed(store, now, limit) <==> r in All(store.groups)
  {
    var cs := Candidates(All(store.groups), store.leases, now);
    AllCandidates(All(store.groups), store.leases, now);
    CandidatesAreAvailable(store, now);
    hide Candidates, ValidGroups, SortLog, All, Eligible;
    var sorted := SortLog(cs);
    assert sorted[..|cs|] == sorted;
    forall r ensures r in Claimed(store, now, limit) <==> r in All(store.groups) {
      AllMembers(store.groups, r);
      if r in All(store.groups) {
        assert Timed(r.runAt, r) in sorted;
        var i :| 0 <= i < |sorted| && sorted[i] == Timed(r.runAt, r);
        assert Claimed(store, now, limit)[i] == r;
      }
      if r in Claimed(store, now, limit) {
        var i :| 0 <= i < |sorted| && sorted[i].value == r;
        assert sorted[i] in sorted;
      }
    }
  }

  /** The first claim has all records, `last` at its end. */
  lemma LastIsLast(store: Store, last: Record, n: nat)
    requires Full(store, last, n) && n <= CLAIM_LIMIT
    ensures var claimed := Claimed(store, last.runAt, CLAIM_LIMIT);
            && n >= 1 && |claimed| == n && claimed[n - 1] == last
            && (forall i :: 0 <= i < n - 1 ==> claimed[i].rule == last.rule && claimed[i].key != last.key)
            && (forall r :: r in claimed <==> r in All(store.groups))
  {
    hide ValidGroups, All, Claimed, LeaseKey;
    ClaimsAll(store, last.runAt, CLAIM_LIMIT);
    ClaimReturns(store, last.runAt, CLAIM_LIMIT);
    var claimed := Claimed(store, last.runAt, CLAIM_LIMIT);
    hide Get;
    var i: nat :| i < |claimed| && claimed[i] == last;
    assert claimed[n - 1] in claimed;
    forall j | 0 <= j < n - 1 ensures claimed[j].rule == last.rule && claimed[j].key != last.key {
      assert claimed[j] in claimed && Available(store, claimed[j], last.runAt) && Available(store, last, last.runAt);
    }
  }

  /** Once claimed, all are claimed again when the lease has run out. */
  lemma ClaimsAllAgain(cfg: Config, store: Store, last: Record, n: nat)
    requires Full(store, last, n) && n <= CLAIM_LIMIT
    ensures var again := Claimed(Claim(store, last.runAt, CLAIM_LIMIT, LeaseMs(cfg)), last.runAt + LeaseMs(cfg), CLAIM_LIMIT);
            |again| == n && last in again
  {
    hide ValidGroups, All, Claimed, Claim, LeaseKey, LeaseMs;
    var claimed, leased := Claimed(store, last.runAt, CLAIM_LIMIT), Claim(store, last.runAt, CLAIM_LIMIT, LeaseMs(cfg));
    LastIsLast(store, last, n);
    ClaimKeepsGroups(store, last.runAt, CLAIM_LIMIT, LeaseMs(cfg));
    forall r | r in All(leased.groups) ensures Eligible(leased.leases, r, last.runAt + LeaseMs(cfg)) {
      var i :| 0 <= i < |claimed| && claimed[i] == r;
      LeasedExactly(store, last.runAt, CLAIM_LIMIT, LeaseMs(cfg), i);
    }
    ClaimsAll(leased, last.runAt + LeaseMs(cfg), CLAIM_LIMIT);
  }

  lemma LeasedExactly(store: Store, now: int, limit: int, leaseMs: int, i: nat)
    requires i < |Claimed(store, now, limit)| && leaseMs > 0
    ensures var t, name := Claim(store, now, limit, leaseMs), Lease(Claimed(store, now, limit)[i]);
            name in t.leases && t.leases[name] == now + leaseMs
  {
    hide Claimed, LeaseAll, LeaseKey;
    var claimed := Claimed(store, now, limit);
    LeaseAllAt(store.leases, claimed, now + leaseMs, Lease(claimed[i]));
    assert claimed[i] in claimed;
  }

  // ----- working through the batch as slowly as the watchdog allows -----

  /** The first `q` records of the only batch have used up their time and failed. */
  ghost predicate Working(cfg: Config, s: State, store: Store, recs: seq<Record>, t: int, q: nat)
  {
    && q < |recs| && s.store == store && s.timer == Some(t)
    && s.batches == [Batch(t, recs, q, s.now)] && s.now == t + q * cfg.evalTimeoutMs
    && forall j :: q <= j < |recs| ==> NameOf(recs[j]) !in s.attempts
  }

  predicate DistinctRuns(recs: seq<Record>) { forall i, j :: 0 <= i < j < |recs| ==> NameOf(recs[i]) != NameOf(recs[j]) }

  /** Records of one rule are counted under names of their own. */
  lemma ClaimedRunsDistinct(store: Store, now: int, limit: int, rule: Text)
    requires ValidGroups(store.groups) && forall r :: r in Claimed(store, now, limit) ==> r.rule == rule
    ensures DistinctRuns(Claimed(store, now, limit))
  {
    hide Claimed, ValidGroups, Get, AttemptName;
    ClaimReturns(store, now, limit);
    var claimed := Claimed(store, now, limit);
    forall i, j | 0 <= i < j < |claimed| ensures NameOf(claimed[i]) != NameOf(claimed[j]) {
      var r, x := claimed[i], claimed[j];
      assert r in claimed && x in claimed;
      assert Available(store, r, now) && Available(store, x, now);
      AttemptNamesTellApart(r.rule, r.key, r.scheduledAt, x.rule, x.key, x.scheduledAt);
    }
  }

  lemma OneMoreFailure(cfg: Config, origin: State, s: State, store: Store, recs: seq<Record>, t: int, q: nat, n: nat, w: Watch)
    requires Working(cfg, s, store, recs, t, q) && |recs| <= n && q + 1 < |recs| && DistinctRuns(recs)
    requires Reached(cfg, origin, s, n, w, 0)
    ensures var u := Step(cfg, Step(cfg, s, DoAdvance(cfg.evalTimeoutMs)), DoFinish(0, Fails));
            Reached(cfg, origin, u, n, w, 0) && Working(cfg, u, store, recs, t, q + 1)
  {
    hide Reached, Remove, NameOf;
    var e := cfg.evalTimeoutMs;
    var mid := Step(cfg, s, DoAdvance(e));
    assert mid == s.(now := s.now + e);
    ReachStep(cfg, origin, s, DoAdvance(e), n, w, 0);
    ReachStep(cfg, origin, mid, DoFinish(0, Fails), n, w, 0);
    assert (q + 1) * e == q * e + e;
  }

  lemma {:induction false} ReachWorking(cfg: Config, origin: State, s: State, store: Store, recs: seq<Record>, t: int, q: nat,
      n: nat, w: Watch)
    returns (u: State)
    requires Working(cfg, s, store, recs, t, 0) && Reached(cfg, origin, s, n, w, 0) && q < |recs| <= n && DistinctRuns(recs)
    ensures Reached(cfg, origin, u, n, w, 0) && Working(cfg, u, store, recs, t, q)
    decreases q
  {
    hide Reached, Working, DistinctRuns, Step;
    if q == 0 {
      u := s;
    } else {
      var before := ReachWorking(cfg, origin, s, store, recs, t, q - 1, n, w);
      OneMoreFailure(cfg, origin, before, store, recs, t, q - 1, n, w);
      u := Step(cfg, Step(cfg, before, DoAdvance(cfg.evalTimeoutMs)), DoFinish(0, Fails));
    }
  }

  /** How many records have used up their time when the lease runs out, the next one being under way. */
  lemma {:induction false} WhenLeaseEnds(n: nat, e: nat, lease: nat) returns (q: nat)
    requires n >= 1 && n * e >= lease
    ensures q < n && q * e <= lease <= q * e + e
  {
    q := n - 1;
    assert n * e == q * e + e;
    if q * e > lease {
      assert q != 0;
      q := WhenLeaseEnds(n - 1, e, lease);
    }
  }

  // ----- the two claims -----

  /** Before the last of `n` records is enqueued: the others are there, and a tick is due by the time they are. */
  lemma ReachAlmost(cfg: Config, rule: Text, n: nat, a: nat) returns (s: State)
    requires rule in cfg.rules && n >= 1
    ensures Reached(cfg, Init(0), s, n, Watch(rule, KeyText(n - 1), a), 0) && Filled(cfg, rule, s.store, n - 1)
    ensures s == Init(0).(store := s.store, timer := Some(0), now := s.now) && s.now >= 1 && s.now >= cfg.pollMs
  {
    hide Reached, Filled;
    var w := Watch(rule, KeyText(n - 1), a);
    var wait: nat := if cfg.pollMs >= 1 then cfg.pollMs else 1;
    var s0 := ReachFilled(cfg, rule, n - 1, n - 1, w);
    var s1 := Step(cfg, s0, DoStart);
    ReachStep(cfg, Init(0), s0, DoStart, n, w, 0);
    s := Step(cfg, s1, DoAdvance(wait));
    ReachStep(cfg, Init(0), s1, DoAdvance(wait), n, w, 0);
  }

  /** Two batches with all of the records, the last one pending in both. */
  ghost predicate BothClaimed(s: State, last: Record, n: nat, lease: nat, q: nat)
  {
    && s.now == last.runAt + lease && |s.batches| == 2 && q < n
    && |s.batches[0].recs| == n == |s.batches[1].recs| && s.batches[0].next == q && s.batches[1].next == 0
    && s.batches[0].recs[n - 1] == last && last in s.batches[1].recs
    && forall i :: 0 <= i < n - 1 ==> s.batches[0].recs[i].rule == last.rule && s.batches[0].recs[i].key != last.key
  }

  lemma FirstClaim(cfg: Config, s: State, last: Record, n: nat, delay: nat, w: Watch) returns (u: State)
    requires Full(s.store, last, n) && 1 <= n <= CLAIM_LIMIT && last.runAt == s.now + delay
    requires s == Init(0).(store := s.store, timer := Some(0), now := s.now) && s.now >= cfg.pollMs
    ensures Reached(cfg, s, u, n, w, 0)
    ensures Working(cfg, u, Claim(s.store, last.runAt, CLAIM_LIMIT, LeaseMs(cfg)),
                    Claimed(s.store, last.runAt, CLAIM_LIMIT), last.runAt, 0)
  {
    hide Reached, Full, Claimed, Claim, NameOf;
    LastIsLast(s.store, last, n);
    ReachHere(cfg, s, n, w);
    var t := Step(cfg, s, DoAdvance(delay));
    ReachStep(cfg, s, s, DoAdvance(delay), n, w, 0);
    u := Step(cfg, t, DoTick(true));
    ReachStep(cfg, s, t, DoTick(true), n, w, 0);
  }

  lemma SecondClaim(cfg: Config, origin: State, store: Store, s: State, last: Record, q: nat, n: nat, w: Watch) returns (u: State)
    requires Full(store, last, n) && 1 <= n <= CLAIM_LIMIT && Reached(cfg, origin, s, n, w, 0)
    requires Working(cfg, s, Claim(store, last.runAt, CLAIM_LIMIT, LeaseMs(cfg)),
                     Claimed(store, last.runAt, CLAIM_LIMIT), last.runAt, q)
    requires q < n && q * cfg.evalTimeoutMs <= LeaseMs(cfg) <= q * cfg.evalTimeoutMs + cfg.evalTimeoutMs
    ensures Reached(cfg, origin, u, n, w, 0) && BothClaimed(u, last, n, LeaseMs(cfg), q)
  {
    hide Reached, Full, Claimed, Claim, NameOf;
    var ms: nat := LeaseMs(cfg) - q * cfg.evalTimeoutMs;
    LastIsLast(store, last, n);
    ClaimsAllAgain(cfg, store, last, n);
    var v := Step(cfg, s, DoAdvance(ms));
    assert v == s.(now := last.runAt + LeaseMs(cfg));
    ReachStep(cfg, origin, s, DoAdvance(ms), n, w, 0);
    u := Step(cfg, v, DoTick(true));
    ReachStep(cfg, origin, v, DoTick(true), n, w, 0);
  }

  /** From where the last record has just been enqueued to where two batches have claimed it. */
  lemma ReachBothClaimed(cfg: Config, s: State, last: Record, n: nat, delay: nat, w: Watch) returns (u: State, q: nat)
    requires Full(s.store, last, n) && 1 <= n <= CLAIM_LIMIT && last.runAt == s.now + delay
    requires s == Init(0).(store := s.store, timer := Some(0), now := s.now) && s.now >= cfg.pollMs
    requires n * cfg.evalTimeoutMs >= LeaseMs(cfg)
    ensures Reached(cfg, s, u, n, w, 0) && BothClaimed(u, last, n, LeaseMs(cfg), q)
  {
    LastIsLast(s.store, last, n);
    hide Reached, Claimed, Claim, DistinctRuns, Working, BothClaimed;
    ClaimedRunsDistinct(s.store, last.runAt, CLAIM_LIMIT, last.rule);
    hide Full, LeaseMs;
    var leased, recs := Claim(s.store, last.runAt, CLAIM_LIMIT, LeaseMs(cfg)), Claimed(s.store, last.runAt, CLAIM_LIMIT);
    q := WhenLeaseEnds(n, cfg.evalTimeoutMs, LeaseMs(cfg));
    var s1 := FirstClaim(cfg, s, last, n, delay, w);
    var s2 := ReachWorking(cfg, s, s1, leased, recs, last.runAt, q, n, w);
    u := SecondClaim(cfg, s, s.store, s2, last, q, n, w);
  }

  lemma PendingTwice(cfg: Config, n: nat) returns (events: seq<Event>)
    requires cfg.rules != map[] && 1 <= n <= CLAIM_LIMIT && n * cfg.evalTimeoutMs >= LeaseMs(cfg)
    ensures Orderly(cfg, Init(0), events, n) && !Disjoint(Run(cfg, Init(0), events))
  {
    hide Full, Filled, LeaseMs, Orderly, Run, Steady, Rechecks, BothClaimed, Disjoint;
    var rule :| rule in cfg.rules;
    var w := Watch(rule, KeyText(n - 1), 0);
    var s := ReachAlmost(cfg, rule, n, 0);
    var before :| Orderly(cfg, Init(0), before, n) && Run(cfg, Init(0), before) == s;
    EnqueueLast(cfg, rule, s.store, n - 1, s.now);
    var last, e := NewRecord(cfg, s.now, rule, KeyText(n - 1), 0), Event.DoEnqueue(rule, KeyText(n - 1), 0);
    var t := Step(cfg, s, e);
    assert t.repeated == {};
    var u, q := ReachBothClaimed(cfg, t, last, n, cfg.rules[rule].delayMs, w);
    var later :| Orderly(cfg, t, later, n) && Run(cfg, t, later) == u;
    OneStep(cfg, s, e, n);
    RunOn(cfg, s, [e], later, n);
    RunOn(cfg, Init(0), before, [e] + later, n);
    events := before + ([e] + later);
    BothPending(u, last, n, LeaseMs(cfg), q);
  }

  lemma OneStep(cfg: Config, s: State, e: Event, n: nat)
    requires Quiet(s, e) && Small(Step(cfg, s, e), n)
    ensures Orderly(cfg, s, [e], n) && Run(cfg, s, [e]) == Step(cfg, s, e)
  {
    hide Step, Quiet, Small;
    assert [e][1..] == [];
    assert Orderly(cfg, Step(cfg, s, e), [], n) && Run(cfg, Step(cfg, s, e), []) == Step(cfg, s, e);
  }

  lemma BothPending(s: State, last: Record, n: nat, lease: nat, q: nat)
    requires BothClaimed(s, last, n, lease, q)
    ensures !Disjoint(s)
  {
    var again := s.batches[1].recs;
    var j: nat :| j < |again| && again[j] == last;
    assert IsPending(s, 0, n - 1) && At(s, 0, n - 1) == last;
    assert IsPending(s, 1, j) && At(s, 1, j) == last;
  }

  /** Overlapping batches never work on the same record exactly when a full batch that runs out its time limits
      is done before its lease ends. */
  lemma DisjointIff(cfg: Config, n: nat)
    requires NoClashes(cfg) && cfg.rules != map[] && 1 <= n <= CLAIM_LIMIT
    ensures AlwaysDisjoint(cfg, n) <==> n * cfg.evalTimeoutMs < LeaseMs(cfg)
  {
    hide Orderly, Run, Disjoint, LeaseMs;
    if n * cfg.evalTimeoutMs < LeaseMs(cfg) {
      LeaseKeepsBatchesApart(cfg, n);
    } else {
      var events := PendingTwice(cfg, n);
      assert !Disjoint(Run(cfg, Init(0), events));
    }
  }

  /** With the engine's defaults, a poll of ten seconds and a limit of fifteen, batches of one record are kept
      apart and batches of two are not. */
  lemma DefaultsKeepOneApart(cfg: Config)
    requires NoClashes(cfg) && cfg.rules != map[] && cfg.pollMs == 10000 && cfg.evalTimeoutMs == 15000
    ensures AlwaysDisjoint(cfg, 1) && !AlwaysDisjoint(cfg, 2)
  {
    DisjointIff(cfg, 1);
    DisjointIff(cfg, 2);
  }

  // ----- both repeat the record -----

  /** The batches are those of `s`, batch `b` having come to record `i`; no time has passed. */
  predicate CameTo(s: State, u: State, b: nat, i: nat)
  {
    && u.now == s.now && |u.batches| == |s.batches| && b < |s.batches| && i <= |s.batches[b].recs|
    && (forall c :: 0 <= c < |s.batches| ==> u.batches[c].recs == s.batches[c].recs)
    && (forall c :: 0 <= c < |s.batches| && c != b ==> u.batches[c] == s.batches[c])
    && u.batches[b].next == i
  }

  /** All records before one fail at once, none of them the watched one. */
  lemma {:induction false} ReachRecord(cfg: Config, origin: State, s: State, b: nat, i: nat, n: nat, w: Watch, k: nat)
    returns (u: State)
    requires Reached(cfg, origin, s, n, w, k) && Small(s, n) && b < |s.batches| && s.batches[b].next <= i <= |s.batches[b].recs|
    ensures Reached(cfg, origin, u, n, w, k) && CameTo(s, u, b, i)
    decreases i - s.batches[b].next
  {
    hide Reached, Ended;
    if s.batches[b].next == i {
      u := s;
    } else {
      var t := Step(cfg, s, DoFinish(b, Fails));
      var op := EndIsAbout(s, Current(s, b), Fails);
      assert t.batches == Advanced(s, b);
      ReachStep(cfg, origin, s, DoFinish(b, Fails), n, w, k);
      u := ReachRecord(cfg, origin, t, b, i, n, w, k);
    }
  }

  /** The watched record is repeated by a batch that still has it before it. */
  lemma ReachRepeat(cfg: Config, origin: State, s: State, b: nat, i: nat, n: nat, w: Watch, k: nat) returns (u: State)
    requires Reached(cfg, origin, s, n, w, k) && Small(s, n) && IsCopy(s, b, i, w.rule, w.key)
    requires !PastDeadline(At(s, b, i), s.now + w.a)
    ensures Reached(cfg, origin, u, n, w, k + 1) && CameTo(s, u, b, i + 1)
  {
    hide Reached, Ended;
    var t := ReachRecord(cfg, origin, s, b, i, n, w, k);
    var e := DoFinish(b, Recheck(w.a));
    u := Step(cfg, t, e);
    var op := EndIsAbout(t, Current(t, b), Recheck(w.a));
    ReachStep(cfg, origin, t, e, n, w, k);
  }

  lemma BothRepeat(cfg: Config, origin: State, s: State, last: Record, n: nat, q: nat, w: Watch) returns (u: State)
    requires Reached(cfg, origin, s, n, w, 0) && BothClaimed(s, last, n, LeaseMs(cfg), q)
    requires last.rule == w.rule && last.key == w.key && !PastDeadline(last, s.now + w.a)
    ensures Reached(cfg, origin, u, n, w, 2)
  {
    hide Reached;
    var t := ReachRepeat(cfg, origin, s, 0, n - 1, n, w, 0);
    var j: nat :| j < |s.batches[1].recs| && s.batches[1].recs[j] == last;
    assert IsCopy(t, 1, j, w.rule, w.key) && At(t, 1, j) == last;
    u := ReachRepeat(cfg, origin, t, 1, j, n, w, 1);
  }

  /** A full batch that can outlast its lease, and a time between repeats that leaves a lease free before the
      deadline: then there is a run with two repeats. The record is claimed when it is due and claimed again when
      the lease runs out, both checks being answered then. */
  lemma RepeatedTwice(cfg: Config, rule: Text, n: nat, a: nat) returns (before: seq<Event>, e: Event, later: seq<Event>)
    requires rule in cfg.rules && cfg.rules[rule].deadlineMs.Some? && 1 <= n <= CLAIM_LIMIT
    requires n * cfg.evalTimeoutMs >= LeaseMs(cfg) && a + LeaseMs(cfg) <= Slack(cfg.rules[rule])
    ensures Orderly(cfg, Init(0), before, n) && e.DoEnqueue? && e.rule == rule
    ensures var s := Run(cfg, Init(0), before);
            Tracked(cfg, s, e, later, a, n) && Rechecks(cfg, Step(cfg, s, e), later, rule, e.key) == 2
  {
    hide Full, Filled, LeaseMs, Orderly, Run, Steady, Rechecks, BothClaimed;
    var w := Watch(rule, KeyText(n - 1), a);
    var s := ReachAlmost(cfg, rule, n, a);
    before :| Orderly(cfg, Init(0), before, n) && Run(cfg, Init(0), before) == s;
    EnqueueLast(cfg, rule, s.store, n - 1, s.now);
    var last := NewRecord(cfg, s.now, rule, KeyText(n - 1), 0);
    e := Event.DoEnqueue(rule, KeyText(n - 1), 0);
    var t := Step(cfg, s, e);
    assert t.repeated == {};
    var u, q := ReachBothClaimed(cfg, t, last, n, cfg.rules[rule].delayMs, w);
    assert !PastDeadline(last, u.now + a) by { BothAt(u, last, n, LeaseMs(cfg), q); }
    u := BothRepeat(cfg, t, u, last, n, q, w);
    later :|
      && Orderly(cfg, t, later, n) && Run(cfg, t, later) == u
      && Steady(cfg, t, later, w.rule, w.key, w.a) && Rechecks(cfg, t, later, w.rule, w.key) == 2;
  }

  lemma BothAt(s: State, last: Record, n: nat, lease: nat, q: nat)
    requires BothClaimed(s, last, n, lease, q)
    ensures s.now == last.runAt + lease
  {
  }

  /** A check is never repeated more often than the least time between its repeats fits before its deadline exactly
      when full batches end within their lease, or no rule leaves more than two leases for repeats. */
  lemma BoundedIff(cfg: Config, n: nat)
    requires NoClashes(cfg) && 1 <= n <= CLAIM_LIMIT
    ensures AlwaysBounded(cfg, n) <==>
              n * cfg.evalTimeoutMs < LeaseMs(cfg)
              || forall rule :: rule in cfg.rules && cfg.rules[rule].deadlineMs.Some? ==>
                                  Slack(cfg.rules[rule]) <= 2 * LeaseMs(cfg)
  {
    hide Orderly, Run, Tracked, Rechecks, LeaseMs, Slack;
    if n * cfg.evalTimeoutMs < LeaseMs(cfg) {
      BoundedWhen(cfg, n);
    } else if rule :| rule in cfg.rules && cfg.rules[rule].deadlineMs.Some? && Slack(cfg.rules[rule]) > 2 * LeaseMs(cfg) {
      NotBounded(cfg, n, rule, Slack(cfg.rules[rule]) - LeaseMs(cfg));
    } else {
      BoundedWhen(cfg, n);
    }
  }

  lemma NotBounded(cfg: Config, n: nat, rule: Text, a: nat)
    requires rule in cfg.rules && cfg.rules[rule].deadlineMs.Some? && 1 <= n <= CLAIM_LIMIT
    requires n * cfg.evalTimeoutMs >= LeaseMs(cfg) && a + LeaseMs(cfg) <= Slack(cfg.rules[rule]) < 2 * a
    ensures !AlwaysBounded(cfg, n)
  {
    hide Orderly, Run, Tracked, Rechecks, LeaseMs, Slack;
    var before, e, later := RepeatedTwice(cfg, rule, n, a);
    assert e == Event.DoEnqueue(e.rule, e.key, e.payload);
    var s := Run(cfg, Init(0), before);
    assert Rechecks(cfg, Step(cfg, s, e), later, rule, e.key) * a > Slack(cfg.rules[rule]);
  }

  /** A poll of ten seconds, a limit of forty for one check and a deadline of about an hour: a check that asks to be
      repeated after an hour is repeated twice. */
  lemma LongChecksRepeatTwice(cfg: Config, rule: Text) returns (before: seq<Event>, e: Event, later: seq<Event>)
    requires cfg == Config(10000, 40000, map[rule := Strategy(0, Some(4000000))])
    ensures Orderly(cfg, Init(0), before, 1) && e.DoEnqueue?
    ensures var s := Run(cfg, Init(0), before);
            && Tracked(cfg, s, e, later, 3600000, 1)
            && Rechecks(cfg, Step(cfg, s, e), later, e.rule, e.key) * 3600000 > Slack(cfg.rules[rule])
    ensures !AlwaysBounded(cfg, 1)
  {
    hide Orderly, Run, Tracked, Rechecks, AlwaysBounded;
    before, e, later := RepeatedTwice(cfg, rule, 1, 3600000);
    NotBounded(cfg, 1, rule, 3600000);
  }
}
