/** How often the check of one scheduled record is repeated before its deadline. */
module WorkerRechecks {
  import opened CodeUnits
  import opened Options
  import opened ScheduledStore
  import opened ScheduledWorker
  import opened WorkerOverlap

  /** The event puts the record of a key off. */
  predicate Repeats(s: State, e: Event, rule: Text, key: Text)
  {
    && e.DoFinish? && Running(s, e.b) && PutsOff(s, Current(s, e.b), e.outcome)
    && Current(s, e.b).rule == rule && Current(s, e.b).key == key
  }

  function Rechecks(cfg: Config, s: State, events: seq<Event>, rule: Text, key: Text): nat
    decreases events
  {
    if events == [] then 0
    else (if Repeats(s, events[0], rule, key) then 1 else 0) + Rechecks(cfg, Step(cfg, s, events[0]), events[1..], rule, key)
  }

  /** The key is not enqueued again, and each repeat puts it off by at least `a`. */
  predicate Steady(cfg: Config, s: State, events: seq<Event>, rule: Text, key: Text, a: nat)
    decreases events
  {
    events == [] ||
    (&& !(events[0].DoEnqueue? && events[0].rule == rule && events[0].key == key)
     && (Repeats(s, events[0], rule, key) ==> events[0].outcome.after >= a)
     && Steady(cfg, Step(cfg, s, events[0]), events[1..], rule, key, a))
  }

  /** The room a record has before its deadline. */
  function Room(r: Record): nat
    requires r.deadline.Some?
  {
    if r.deadline.value > r.runAt then r.deadline.value - r.runAt else 0
  }

  // ----- when batches end within their lease -----

  lemma FinishRecord(cfg: Config, s: State, b: nat, outcome: Outcome, n: nat, rule: Text, key: Text)
    requires Valid(cfg, s, n) && Running(s, b)
    ensures var e := DoFinish(b, outcome);
            var t, was := Step(cfg, s, e), Get(s.store.groups, rule, key);
            if Repeats(s, e, rule, key) then
              && was.Some? && s.now >= was.value.runAt && was.value.deadline == Current(s, b).deadline
              && Get(t.store.groups, rule, key) == Some(was.value.(runAt := s.now + outcome.after))
            else Get(t.store.groups, rule, key) == None || Get(t.store.groups, rule, key) == was
  {
    var r, t := Current(s, b), Step(cfg, s, DoFinish(b, outcome));
    assert IsPending(s, b, s.batches[b].next) && At(s, b, s.batches[b].next) == r;
    assert Held(cfg, s.store, s.batches[b], r) && OnTime(cfg, s.batches[b], s.now);
    hide ValidGroups, Get, Lease, Disjoint, Put, Drop;
    if PutsOff(s, r, outcome) {
      PutChanges(s.store.groups, r.(runAt := s.now + outcome.after));
    } else if t.store != s.store {
      RemoveChanges(s.store, r.rule, r.key);
    }
  }

  /** What one event can do to the record of a key that it does not enqueue. */
  lemma StepRecord(cfg: Config, s: State, e: Event, n: nat, rule: Text, key: Text)
    requires Valid(cfg, s, n) && !(e.DoEnqueue? && e.rule == rule && e.key == key)
    ensures var t, was := Step(cfg, s, e), Get(s.store.groups, rule, key);
            if Repeats(s, e, rule, key) then
              && was.Some? && s.now >= was.value.runAt && !PastDeadline(was.value, s.now + e.outcome.after)
              && Get(t.store.groups, rule, key) == Some(was.value.(runAt := s.now + e.outcome.after))
            else Get(t.store.groups, rule, key) == None || Get(t.store.groups, rule, key) == was
  {
    if e.DoFinish? && Running(s, e.b) {
      FinishRecord(cfg, s, e.b, e.outcome, n, rule, key);
      hide Get, Ended, Valid;
    } else if e.DoEnqueue? && e.rule in cfg.rules {
      PutChanges(s.store.groups, NewRecord(cfg, s.now, e.rule, e.key, e.payload));
      hide Get, Put;
    } else if e.DoTick? && MayTick(cfg, s) {
      ClaimKeepsGroups(s.store, s.now, CLAIM_LIMIT, LeaseMs(cfg));
      hide Get, Claim;
    }
  }

  /** Where `n` time limits add up to less than the lease, batches have at most `n` records, no rule identifiers
      clash and no key is enqueued while it is in a batch: from any state of such a run on, as long as a key is not
      enqueued again, its check is repeated at most as often as the least time between repeats fits between its due
      time and its deadline. `WorkerLease.BoundedIff` says what is left without the first of these. */
  lemma {:induction false} RechecksBounded(cfg: Config, s: State, events: seq<Event>, n: nat, rule: Text, key: Text, a: nat)
    requires Valid(cfg, s, n) && NoClashes(cfg) && n * cfg.evalTimeoutMs < LeaseMs(cfg) && Orderly(cfg, s, events, n)
    requires Steady(cfg, s, events, rule, key, a) && a >= 1
    ensures var r := Get(s.store.groups, rule, key);
            && (r.None? ==> Rechecks(cfg, s, events, rule, key) == 0)
            && (r.Some? && r.value.deadline.Some? ==> Rechecks(cfg, s, events, rule, key) * a <= Room(r.value))
    decreases events
  {
    if events != [] {
      var e, t := events[0], Step(cfg, s, events[0]);
      var was, r := Get(s.store.groups, rule, key), Get(t.store.groups, rule, key);
      StepRecord(cfg, s, e, n, rule, key);
      StepValid(cfg, s, e, n);
      hide Valid, Get, Step, NoClashes, Quiet, Small, Repeats, LeaseMs;
      RechecksBounded(cfg, t, events[1..], n, rule, key, a);
      hide Orderly, Steady, PastDeadline;
      if Repeats(s, e, rule, key) && was.value.deadline.Some? {
        OneMoreRepeat(was.value, s.now, e.outcome.after, a, Rechecks(cfg, t, events[1..], rule, key));
      } else if r.None? {
        assert 0 * a == 0;
      }
    }
  }

  lemma OneMoreRepeat(r: Record, now: int, after: nat, a: nat, k: nat)
    requires r.deadline.Some? && now >= r.runAt && after >= a && !PastDeadline(r, now + after)
    requires k * a <= Room(r.(runAt := now + after))
    ensures (1 + k) * a <= Room(r)
  {
    assert (1 + k) * a == k * a + a;
  }

  // ----- whatever overlaps -----

  /** A pending copy of the record of a key. */
  predicate IsCopy(s: State, b: nat, i: nat, rule: Text, key: Text)
  {
    IsPending(s, b, i) && At(s, b, i).rule == rule && At(s, b, i).key == key
  }

  ghost function Copies(s: State, rule: Text, key: Text): set<(nat, nat)>
  {
    set b: nat, i: nat | b < |s.batches| && i < |s.batches[b].recs| && IsCopy(s, b, i, rule, key) :: (b, i)
  }

  /** The record of the key has kept its deadline and is not claimed before `next`. */
  predicate Waits(store: Store, first: Record, next: int)
  {
    var r := Get(store.groups, first.rule, first.key);
    r.Some? ==> r.value.deadline == first.deadline && (r.value.runAt >= next || LeasedUntil(store, Lease(first), next))
  }

  /** Copies of the record are pending only from a gap before its next claim on. */
  ghost predicate Spaced(cfg: Config, s: State, first: Record, gap: nat, next: int)
  {
    && DeadlinesKept(cfg, s) && Waits(s.store, first, next)
    && forall b: nat, i: nat :: IsCopy(s, b, i, first.rule, first.key) ==>
                                  At(s, b, i).deadline == first.deadline && s.now >= next - gap
  }

  /** A batch has the record of a key at most once. */
  lemma OneCopy(store: Store, now: int, limit: int, i: nat, j: nat)
    requires ValidGroups(store.groups)
    requires var recs := Claimed(store, now, limit);
             i < |recs| && j < |recs| && recs[i].rule == recs[j].rule && recs[i].key == recs[j].key
    ensures i == j
  {
    hide Claimed, Get, ValidGroups;
    ClaimReturns(store, now, limit);
    var recs := Claimed(store, now, limit);
    assert recs[i] in recs && recs[j] in recs;
    assert Available(store, recs[i], now) && Available(store, recs[j], now);
  }

  /** A claim that takes the record comes no earlier than expected, and the next one a gap later. */
  lemma ClaimWaits(store: Store, first: Record, next: int, now: int, limit: int, leaseMs: nat, i: nat)
    requires ValidGroups(store.groups) && Waits(store, first, next) && leaseMs > 0
    requires var recs := Claimed(store, now, limit);
             i < |recs| && recs[i].rule == first.rule && recs[i].key == first.key
    ensures Claimed(store, now, limit)[i].deadline == first.deadline && now >= next
    ensures Waits(Claim(store, now, limit, leaseMs), first, now + leaseMs)
  {
    hide Claimed, Claim, Get, ValidGroups, LeaseKey;
    ClaimReturns(store, now, limit);
    ClaimLeases(store, now, limit, leaseMs, i);
    ClaimKeepsGroups(store, now, limit, leaseMs);
    var recs := Claimed(store, now, limit);
    assert recs[i] in recs && Available(store, recs[i], now);
  }

  lemma ClaimPassesBy(store: Store, first: Record, next: int, now: int, limit: int, leaseMs: nat)
    requires ValidGroups(store.groups) && Waits(store, first, next)
    ensures Waits(Claim(store, now, limit, leaseMs), first, next)
  {
    hide Claimed, Claim, Get, ValidGroups, LeaseKey;
    ClaimKeepsGroups(store, now, limit, leaseMs);
    if LeasedUntil(store, Lease(first), next) {
      StepHoldsLease(store, DoClaim(now, limit, leaseMs), Lease(first), next);
    }
  }

  lemma InCopies(s: State, rule: Text, key: Text, p: (nat, nat))
    ensures p in Copies(s, rule, key) <==> IsCopy(s, p.0, p.1, rule, key)
  {
    assert p == (p.0, p.1);
  }

  lemma OldCopy(s: State, t: State, batch: Batch, rule: Text, key: Text, b: nat, i: nat)
    requires t.batches == s.batches + [batch] && b != |s.batches|
    ensures IsCopy(t, b, i, rule, key) == IsCopy(s, b, i, rule, key)
    ensures IsCopy(t, b, i, rule, key) ==> At(t, b, i) == At(s, b, i)
  {
  }

  /** What one more batch adds to the copies. */
  lemma MoreCopies(s: State, t: State, batch: Batch, rule: Text, key: Text) returns (claimed: bool, i: nat)
    requires t.batches == s.batches + [batch]
    requires forall i: nat, j: nat :: IsCopy(t, |s.batches|, i, rule, key) && IsCopy(t, |s.batches|, j, rule, key) ==> i == j
    ensures claimed ==> IsCopy(t, |s.batches|, i, rule, key)
    ensures !claimed ==> forall j: nat :: !IsCopy(t, |s.batches|, j, rule, key)
    ensures |Copies(t, rule, key)| == |Copies(s, rule, key)| + if claimed then 1 else 0
  {
    hide Copies, IsCopy;
    var last := |s.batches|;
    var was, now := Copies(s, rule, key), Copies(t, rule, key);
    claimed, i := exists i: nat :: IsCopy(t, last, i, rule, key), 0;
    if claimed { i :| IsCopy(t, last, i, rule, key); }
    var all := if claimed then was + {(last, i)} else was;
    forall p ensures p in now <==> p in all {
      InCopies(s, rule, key, p);
      InCopies(t, rule, key, p);
      if p.0 != last { OldCopy(s, t, batch, rule, key, p.0, p.1); }
      NotYet(s, rule, key, p.1);
    }
    assert now == all;
    NotYet(s, rule, key, i);
    InCopies(s, rule, key, (last, i));
  }

  lemma NotYet(s: State, rule: Text, key: Text, i: nat)
    ensures !IsCopy(s, |s.batches|, i, rule, key)
  {
  }

  lemma ClaimSpaced(cfg: Config, s: State, first: Record, gap: nat, next: int) returns (claimed: bool)
    requires Spaced(cfg, s, first, gap, next) && gap <= LeaseMs(cfg)
    ensures var t := Tick(cfg, s, true);
            && Spaced(cfg, t, first, gap, if claimed then next + gap else next)
            && |Copies(t, first.rule, first.key)| == |Copies(s, first.rule, first.key)| + if claimed then 1 else 0
  {
    TickKeepsDeadlines(cfg, s, true);
    assert ValidGroups(s.store.groups);
    hide DeadlinesKept, Claimed, Claim, ValidGroups, LeaseMs, Waits, Copies;
    var t, last := Tick(cfg, s, true), |s.batches|;
    forall i: nat, j: nat | IsCopy(t, last, i, first.rule, first.key) && IsCopy(t, last, j, first.rule, first.key)
      ensures i == j { OneCopy(s.store, s.now, CLAIM_LIMIT, i, j); }
    var i;
    claimed, i := MoreCopies(s, t, t.batches[last], first.rule, first.key);
    forall b: nat, j: nat | IsCopy(t, b, j, first.rule, first.key) && b != last
      ensures IsCopy(s, b, j, first.rule, first.key) && At(s, b, j) == At(t, b, j)
    {
      OldCopy(s, t, t.batches[last], first.rule, first.key, b, j);
    }
    if claimed {
      ClaimWaits(s.store, first, next, s.now, CLAIM_LIMIT, LeaseMs(cfg), i);
      WaitsLess(t.store, first, next + gap, s.now + LeaseMs(cfg));
    } else {
      ClaimPassesBy(s.store, first, next, s.now, CLAIM_LIMIT, LeaseMs(cfg));
    }
  }

  lemma WaitsLess(store: Store, first: Record, less: int, next: int)
    requires Waits(store, first, next) && less <= next
    ensures Waits(store, first, less)
  {
  }

  lemma OtherWaits(store: Store, op: Op, rule: Text, key: Text, first: Record, next: int)
    requires ValidGroups(store.groups) && IsAbout(op, rule, key) && Waits(store, first, next)
    requires Lease(first) != LeaseKey(rule, key)
    ensures Waits(Apply(store, op), first, next)
  {
    hide ValidGroups, Get, Apply;
    AboutOne(store, op, rule, key);
    if LeasedUntil(store, Lease(first), next) { StepHoldsLease(store, op, Lease(first), next); }
  }

  lemma OtherName(cfg: Config, first: Record, rule: Text, key: Text)
    requires NoClashes(cfg) && first.rule in cfg.rules && rule in cfg.rules && (rule != first.rule || key != first.key)
    ensures Lease(first) != LeaseKey(rule, key)
  {
    hide LeaseKey;
    if Lease(first) == LeaseKey(rule, key) { LeaseNamesClash(first.rule, first.key, rule, key); }
  }

  /** The end of a run of the record itself. */
  lemma OwnEndWaits(s: State, r: Record, outcome: Outcome, first: Record, next: int)
    requires ValidGroups(s.store.groups) && Waits(s.store, first, next) && r.rule == first.rule && r.key == first.key
    requires PutsOff(s, r, outcome) ==> s.now + outcome.after >= next
    ensures Waits(Ended(s, r, outcome).store, first, next)
  {
    hide NameOf, ValidGroups, Get, LeaseKey, Put, Drop;
    RemoveChanges(s.store, r.rule, r.key);
    var there := Get(s.store.groups, r.rule, r.key);
    if PutsOff(s, r, outcome) && there.Some? {
      GetHas(s.store.groups, r.rule, r.key);
      PutChanges(s.store.groups, there.value.(runAt := s.now + outcome.after));
    }
  }

  lemma FinishWaits(cfg: Config, s: State, b: nat, outcome: Outcome, first: Record, a: nat, gap: nat, next: int)
    requires Spaced(cfg, s, first, gap, next) && NoClashes(cfg) && first.rule in cfg.rules && gap <= a && Running(s, b)
    requires Repeats(s, DoFinish(b, outcome), first.rule, first.key) ==> outcome.after >= a
    ensures Waits(Step(cfg, s, DoFinish(b, outcome)).store, first, next)
  {
    hide ValidGroups, Get, Ended, Waits, NoClashes, LeaseKey, PutsOff;
    var r := Current(s, b);
    assert Fits(cfg, r, s.now);
    if r.rule == first.rule && r.key == first.key {
      assert IsCopy(s, b, s.batches[b].next, first.rule, first.key);
      OwnEndWaits(s, r, outcome, first, next);
    } else {
      OtherName(cfg, first, r.rule, r.key);
      var op := EndIsAbout(s, r, outcome);
      OtherWaits(s.store, op, r.rule, r.key, first, next);
    }
  }

  lemma FewerCopies(s: State, t: State, b: nat, rule: Text, key: Text)
    requires Running(s, b) && t.batches == Advanced(s, b)
    ensures Copies(t, rule, key) == Copies(s, rule, key) - {(b, s.batches[b].next)}
    ensures (b, s.batches[b].next) in Copies(s, rule, key) <==> Current(s, b).rule == rule && Current(s, b).key == key
    ensures forall c: nat, j: nat :: IsCopy(t, c, j, rule, key) ==> IsCopy(s, c, j, rule, key) && At(s, c, j) == At(t, c, j)
  {
    hide Copies;
    var was, now, k := Copies(s, rule, key), Copies(t, rule, key), s.batches[b].next;
    forall p ensures p in now <==> p in was - {(b, k)} {
      InCopies(s, rule, key, p);
      InCopies(t, rule, key, p);
      assert p == (b, k) <==> p.0 == b && p.1 == k;
    }
    InCopies(s, rule, key, (b, k));
  }

  lemma FinishSpaced(cfg: Config, s: State, b: nat, outcome: Outcome, first: Record, a: nat, gap: nat, next: int)
    requires Spaced(cfg, s, first, gap, next) && NoClashes(cfg) && first.rule in cfg.rules && gap <= a && Running(s, b)
    requires Repeats(s, DoFinish(b, outcome), first.rule, first.key) ==> outcome.after >= a
    ensures var t := Step(cfg, s, DoFinish(b, outcome));
            && Spaced(cfg, t, first, gap, next)
            && |Copies(t, first.rule, first.key)| <= |Copies(s, first.rule, first.key)|
            && (Repeats(s, DoFinish(b, outcome), first.rule, first.key) ==>
                  && |Copies(t, first.rule, first.key)| < |Copies(s, first.rule, first.key)|
                  && Current(s, b).deadline == first.deadline && s.now >= next - gap)
  {
    FinishKeepsDeadlines(cfg, s, b, outcome);
    FinishWaits(cfg, s, b, outcome, first, a, gap, next);
    hide DeadlinesKept, Ended, Waits, NoClashes, PutsOff, Copies;
    var op := EndIsAbout(s, Current(s, b), outcome);
    var t := Step(cfg, s, DoFinish(b, outcome));
    FewerCopies(s, t, b, first.rule, first.key);
    InCopies(s, first.rule, first.key, (b, s.batches[b].next));
  }

  lemma OtherEnqueueWaits(cfg: Config, s: State, rule: Text, key: Text, payload: nat, first: Record, next: int)
    requires DeadlinesKept(cfg, s) && Waits(s.store, first, next) && rule in cfg.rules
    requires Lease(first) != LeaseKey(rule, key)
    ensures Waits(Step(cfg, s, Event.DoEnqueue(rule, key, payload)).store, first, next)
  {
    var r := NewRecord(cfg, s.now, rule, key, payload);
    hide Waits, Enqueue, LeaseKey, ValidGroups, Get;
    OtherWaits(s.store, Op.DoEnqueue(r), rule, key, first, next);
    assert Apply(s.store, Op.DoEnqueue(r)) == Enqueue(s.store, r);
  }

  lemma SameBatches(s: State, t: State, rule: Text, key: Text)
    requires t.batches == s.batches
    ensures Copies(t, rule, key) == Copies(s, rule, key)
    ensures forall b: nat, i: nat :: IsCopy(t, b, i, rule, key) == IsCopy(s, b, i, rule, key)
  {
  }

  /** What one event does to the spacing of the claims of a record. */
  lemma StepSpaced(cfg: Config, s: State, e: Event, first: Record, a: nat, gap: nat, next: int) returns (claimed: bool)
    requires Spaced(cfg, s, first, gap, next) && NoClashes(cfg) && first.rule in cfg.rules && gap <= a && gap <= LeaseMs(cfg)
    requires !(e.DoEnqueue? && e.rule == first.rule && e.key == first.key)
    requires Repeats(s, e, first.rule, first.key) ==> e.outcome.after >= a
    ensures var t := Step(cfg, s, e);
            && Spaced(cfg, t, first, gap, if claimed then next + gap else next)
            && |Copies(t, first.rule, first.key)| <= |Copies(s, first.rule, first.key)| + (if claimed then 1 else 0)
            && (Repeats(s, e, first.rule, first.key) ==>
                  && !claimed && |Copies(t, first.rule, first.key)| < |Copies(s, first.rule, first.key)|
                  && Current(s, e.b).deadline == first.deadline && s.now >= next - gap)
  {
    hide DeadlinesKept, Claim, Claimed, Ended, Waits, NoClashes, PutsOff, LeaseMs, Enqueue, LeaseKey, Copies;
    StepKeepsDeadlines(cfg, s, e);
    claimed := false;
    if e.DoTick? && MayTick(cfg, s) && e.registry {
      claimed := ClaimSpaced(cfg, s, first, gap, next);
    } else if e.DoFinish? && Running(s, e.b) {
      FinishSpaced(cfg, s, e.b, e.outcome, first, a, gap, next);
    } else if e.DoEnqueue? && e.rule in cfg.rules {
      OtherName(cfg, first, e.rule, e.key);
      OtherEnqueueWaits(cfg, s, e.rule, e.key, e.payload, first, next);
      SameBatches(s, Step(cfg, s, e), first.rule, first.key);
    } else {
      SameBatches(s, Step(cfg, s, e), first.rule, first.key);
    }
  }

  function Gap(cfg: Config, a: nat): nat { if a < LeaseMs(cfg) then a else LeaseMs(cfg) }

  /** One event, with the claims and the repeats so far counted along. */
  lemma CountEvent(cfg: Config, s: State, e: Event, first: Record, a: nat, claims: nat, done: nat)
    returns (claims': nat, done': nat)
    requires NoClashes(cfg) && first.rule in cfg.rules && first.deadline.Some?
    requires Spaced(cfg, s, first, Gap(cfg, a), first.runAt + claims * Gap(cfg, a))
    requires |Copies(s, first.rule, first.key)| + done <= claims
    requires !(e.DoEnqueue? && e.rule == first.rule && e.key == first.key)
    requires Repeats(s, e, first.rule, first.key) ==> e.outcome.after >= a
    ensures Spaced(cfg, Step(cfg, s, e), first, Gap(cfg, a), first.runAt + claims' * Gap(cfg, a))
    ensures |Copies(Step(cfg, s, e), first.rule, first.key)| + done' <= claims'
    ensures done' == done + if Repeats(s, e, first.rule, first.key) then 1 else 0
    ensures Repeats(s, e, first.rule, first.key) ==> done * Gap(cfg, a) + a <= Room(first)
  {
    var gap := Gap(cfg, a);
    hide Spaced, Step, NoClashes, Repeats, LeaseMs, Copies;
    var claimed := StepSpaced(cfg, s, e, first, a, gap, first.runAt + claims * gap);
    hide Gap, Room;
    claims' := if claimed then claims + 1 else claims;
    assert (claims + 1) * gap == claims * gap + gap;
    done' := done;
    if Repeats(s, e, first.rule, first.key) {
      done' := done + 1;
      LastRepeat(s, e, first, a, gap, claims, done);
    }
  }

  /** By induction over the run, from a record that has been claimed and repeated so many times. */
  lemma {:induction false} RepeatsSpaced(cfg: Config, s: State, events: seq<Event>, first: Record, a: nat, claims: nat, done: nat)
    requires NoClashes(cfg) && first.rule in cfg.rules && first.deadline.Some?
    requires Spaced(cfg, s, first, Gap(cfg, a), first.runAt + claims * Gap(cfg, a))
    requires |Copies(s, first.rule, first.key)| + done <= claims
    requires Steady(cfg, s, events, first.rule, first.key, a)
    ensures var k := Rechecks(cfg, s, events, first.rule, first.key);
            k >= 1 ==> (done + k - 1) * Gap(cfg, a) + a <= Room(first)
    decreases events
  {
    hide Spaced, Step, NoClashes, Repeats, LeaseMs, Copies, Gap, Room;
    if events != [] {
      var claims', done' := CountEvent(cfg, s, events[0], first, a, claims, done);
      RepeatsSpaced(cfg, Step(cfg, s, events[0]), events[1..], first, a, claims', done');
      var k' := Rechecks(cfg, Step(cfg, s, events[0]), events[1..], first.rule, first.key);
      assert done' + k' == done + Rechecks(cfg, s, events, first.rule, first.key);
    }
  }

  /** The last repeat comes after as many gaps as there were repeats before it, and a time before the deadline. */
  lemma LastRepeat(s: State, e: Event, first: Record, a: nat, gap: nat, claims: nat, done: nat)
    requires Repeats(s, e, first.rule, first.key) && e.outcome.after >= a && claims >= done + 1
    requires Current(s, e.b).deadline == first.deadline && first.deadline.Some? && s.now >= first.runAt + claims * gap - gap
    ensures done * gap + a <= Room(first)
  {
    var d: nat := claims - done - 1;
    assert claims * gap == done * gap + gap + d * gap;
  }

  lemma EnqueueSpaced(cfg: Config, s: State, rule: Text, key: Text, payload: nat, gap: nat)
    requires DeadlinesKept(cfg, s) && rule in cfg.rules && Quiet(s, Event.DoEnqueue(rule, key, payload))
    ensures var t, first := Step(cfg, s, Event.DoEnqueue(rule, key, payload)), NewRecord(cfg, s.now, rule, key, payload);
            Spaced(cfg, t, first, gap, first.runAt) && Copies(t, rule, key) == {}
  {
    var t, first := Step(cfg, s, Event.DoEnqueue(rule, key, payload)), NewRecord(cfg, s.now, rule, key, payload);
    EnqueueKeepsDeadlines(cfg, s, rule, key, payload);
    PutChanges(s.store.groups, first);
    hide DeadlinesKept, ValidGroups, Get, Put;
    forall b: nat, i: nat ensures !IsCopy(t, b, i, rule, key) { assert IsPending(t, b, i) ==> IsPending(s, b, i); }
  }

  /** The time a rule leaves for repeats. */
  function Slack(strat: Strategy): nat
    requires strat.deadlineMs.Some?
  {
    if strat.deadlineMs.value > strat.delayMs then strat.deadlineMs.value - strat.delayMs else 0
  }

  /** However batches overlap: a key that is enqueued while it is in no batch, and not again, is repeated so rarely
      that its repeats but the last, each counted with the shorter of the lease and the least time between repeats,
      and that time once more fit between its due time and its deadline. */
  lemma RechecksSpaced(cfg: Config, start: int, before: seq<Event>, rule: Text, key: Text, payload: nat, later: seq<Event>, a: nat)
    requires NoClashes(cfg) && rule in cfg.rules && cfg.rules[rule].deadlineMs.Some?
    ensures var s, e := Run(cfg, Init(start), before), Event.DoEnqueue(rule, key, payload);
            var k := Rechecks(cfg, Step(cfg, s, e), later, rule, key);
            Quiet(s, e) && Steady(cfg, Step(cfg, s, e), later, rule, key, a) && k >= 1 ==>
              (k - 1) * (if a < LeaseMs(cfg) then a else LeaseMs(cfg)) + a <= Slack(cfg.rules[rule])
  {
    hide Run, DeadlinesKept, Rechecks, Steady, LeaseMs, NoClashes, Copies, Spaced;
    InitDeadlines(cfg, start);
    DeadlinesAlwaysKept(cfg, Init(start), before);
    var s, e := Run(cfg, Init(start), before), Event.DoEnqueue(rule, key, payload);
    var t, first := Step(cfg, s, e), NewRecord(cfg, s.now, rule, key, payload);
    if Quiet(s, e) && Steady(cfg, t, later, rule, key, a) {
      EnqueueSpaced(cfg, s, rule, key, payload, Gap(cfg, a));
      assert 0 * Gap(cfg, a) == 0;
      RepeatsSpaced(cfg, t, later, first, a, 0, 0);
    }
  }

  // ----- the bound in all runs -----

  /** From `s` on: the key is enqueued while it is in no batch, and the rest of the run is orderly and repeats it
      with at least `a` in between. */
  ghost predicate Tracked(cfg: Config, s: State, e: Event, later: seq<Event>, a: nat, n: nat)
    requires e.DoEnqueue?
  {
    && e.rule in cfg.rules && cfg.rules[e.rule].deadlineMs.Some? && Quiet(s, e)
    && Orderly(cfg, Step(cfg, s, e), later, n) && Steady(cfg, Step(cfg, s, e), later, e.rule, e.key, a)
  }

  /** In all runs with batches of at most `n` records, a check is repeated at most as often as the least time
      between repeats fits between its due time and its deadline. */
  ghost predicate AlwaysBounded(cfg: Config, n: nat)
  {
    forall start, before, rule, key, payload, later, a: nat ::
      var s, e := Run(cfg, Init(start), before), Event.DoEnqueue(rule, key, payload);
      Orderly(cfg, Init(start), before, n) && Tracked(cfg, s, e, later, a, n) ==>
        Rechecks(cfg, Step(cfg, s, e), later, rule, key) * a <= Slack(cfg.rules[rule])
  }

  lemma ShortBatchesBound(cfg: Config, n: nat, start: int, before: seq<Event>, e: Event, later: seq<Event>, a: nat)
    requires NoClashes(cfg) && n * cfg.evalTimeoutMs < LeaseMs(cfg) && Orderly(cfg, Init(start), before, n)
    requires e.DoEnqueue? && Tracked(cfg, Run(cfg, Init(start), before), e, later, a, n)
    ensures Rechecks(cfg, Step(cfg, Run(cfg, Init(start), before), e), later, e.rule, e.key) * a <= Slack(cfg.rules[e.rule])
  {
    var s := Run(cfg, Init(start), before);
    RunValid(cfg, Init(start), before, n);
    EnqueueValid(cfg, s, e.rule, e.key, e.payload, n);
    PutChanges(s.store.groups, NewRecord(cfg, s.now, e.rule, e.key, e.payload));
    hide Run, Valid, Orderly, Steady, Get, Put, Rechecks;
    if a >= 1 { RechecksBounded(cfg, Step(cfg, s, e), later, n, e.rule, e.key, a); }
  }

  lemma TwoGaps(k: nat, a: nat, lease: nat, room: nat)
    requires k >= 1 ==> (k - 1) * (if a < lease then a else lease) + a <= room
    requires a <= lease || room <= 2 * lease
    ensures k * a <= room
  {
    if k >= 1 { assert k * a == (k - 1) * a + a; }
    assert k >= 2 ==> (k - 1) * lease == lease + (k - 2) * lease;
  }

  /** The bound holds when batches end within their lease, and also when no rule leaves more than two leases for
      repeats. */
  lemma BoundedWhen(cfg: Config, n: nat)
    requires NoClashes(cfg)
    requires n * cfg.evalTimeoutMs < LeaseMs(cfg)
             || forall rule :: rule in cfg.rules && cfg.rules[rule].deadlineMs.Some? ==>
                                 Slack(cfg.rules[rule]) <= 2 * LeaseMs(cfg)
    ensures AlwaysBounded(cfg, n)
  {
    hide Run, Orderly, Quiet, Steady, Rechecks, Step, LeaseMs, NoClashes, Slack;
    forall start, before, rule, key, payload, later, a: nat
      | Orderly(cfg, Init(start), before, n) &&
        Tracked(cfg, Run(cfg, Init(start), before), Event.DoEnqueue(rule, key, payload), later, a, n)
      ensures Rechecks(cfg, Step(cfg, Run(cfg, Init(start), before), Event.DoEnqueue(rule, key, payload)), later, rule, key) * a
              <= Slack(cfg.rules[rule])
    {
      if n * cfg.evalTimeoutMs < LeaseMs(cfg) {
        ShortBatchesBound(cfg, n, start, before, Event.DoEnqueue(rule, key, payload), later, a);
      } else {
        ShortDeadlinesBound(cfg, n, start, before, Event.DoEnqueue(rule, key, payload), later, a);
      }
    }
  }

  lemma ShortDeadlinesBound(cfg: Config, n: nat, start: int, before: seq<Event>, e: Event, later: seq<Event>, a: nat)
    requires NoClashes(cfg) && e.DoEnqueue? && Tracked(cfg, Run(cfg, Init(start), before), e, later, a, n)
    requires Slack(cfg.rules[e.rule]) <= 2 * LeaseMs(cfg)
    ensures Rechecks(cfg, Step(cfg, Run(cfg, Init(start), before), e), later, e.rule, e.key) * a <= Slack(cfg.rules[e.rule])
  {
    hide Run, Orderly, Steady, Rechecks, LeaseMs, NoClashes, Quiet;
    RechecksSpaced(cfg, start, before, e.rule, e.key, e.payload, later, a);
    var k := Rechecks(cfg, Step(cfg, Run(cfg, Init(start), before), e), later, e.rule, e.key);
    hide Step;
    TwoGaps(k, a, LeaseMs(cfg), Slack(cfg.rules[e.rule]));
  }
}
