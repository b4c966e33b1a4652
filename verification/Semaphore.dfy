/** The integration adapter's semaphore: a bounded number of permits, a first-in-first-out queue of
    waiters that can be aborted, and hand-over of a released permit straight to the next waiter. */
module Semaphore {
  import opened Lists
  import opened Options

  datatype Limit = Unlimited | AtMost(n: nat)

  /** The configured concurrency: absent means no limit, anything below one counts as one. */
  function Normalize(concurrency: Option<real>): (limit: Limit)
    ensures limit.Unlimited? <==> concurrency.None?
    ensures limit.AtMost? ==> limit.n >= 1 && (limit.n as real <= concurrency.value || limit.n == 1)
    ensures limit.AtMost? ==> concurrency.value < (limit.n + 1) as real
  {
    if concurrency.None? then Unlimited
    else AtMost(if concurrency.value.Floor < 1 then 1 else concurrency.value.Floor)
  }

  predicate HasRoom(limit: Limit, active: int) { limit.Unlimited? || active < limit.n }

  /** What became of a call to `acquire`. A call that holds a permit has not used its release yet. */
  datatype Status = Waiting | Holding | Released | Rejected

  datatype Call = Call(signal: Option<nat>, status: Status)

  /** Calls are numbered in the order of arrival. `aborted` are the signals that have fired; `grants` and
      `settled` record the calls in the order they got a permit, or were resolved or rejected. */
  datatype State = State(
    limit: Limit,
    active: int,
    waiters: seq<nat>,
    calls: seq<Call>,
    aborted: set<nat>,
    grants: seq<nat>,
    settled: seq<nat>)

  function Init(limit: Limit): State { State(limit, 0, [], [], {}, [], []) }

  predicate SignalAborted(s: State, signal: Option<nat>) { signal.Some? && signal.value in s.aborted }

  // ----- steps -----

  function SetStatus(calls: seq<Call>, id: nat, status: Status): (r: seq<Call>)
    requires id < |calls|
    ensures |r| == |calls|
  {
    calls[id := calls[id].(status := status)]
  }

  function Acquire(s: State, signal: Option<nat>): State
  {
    var id := |s.calls|;
    if HasRoom(s.limit, s.active) then
      s.(active := s.active + 1, calls := s.calls + [Call(signal, Holding)], grants := s.grants + [id],
          settled := s.settled + [id])
    else if SignalAborted(s, signal) then
      s.(calls := s.calls + [Call(signal, Rejected)], settled := s.settled + [id])
    else
      s.(waiters := s.waiters + [id], calls := s.calls + [Call(signal, Waiting)])
  }

  /** The queue holds calls that have been made. */
  predicate QueueInRange(s: State) { forall i :: 0 <= i < |s.waiters| ==> s.waiters[i] < |s.calls| }

  function Without(ws: seq<nat>, id: nat): seq<nat>
  {
    if ws == [] then [] else if ws[0] == id then ws[1..] else [ws[0]] + Without(ws[1..], id)
  }

  /** A waiter leaves the queue with a permit or with an error. */
  function SettleWaiter(s: State, id: nat, status: Status): State
    requires id < |s.calls|
  {
    s.(waiters := Without(s.waiters, id),
       calls := SetStatus(s.calls, id, status),
       settled := s.settled + [id],
       grants := if status == Holding then s.grants + [id] else s.grants)
  }

  /** Passing a free permit on: waiters with an aborted signal are rejected and skipped. */
  function HandOver(s: State): State
    requires QueueInRange(s)
    decreases |s.waiters|
  {
    if s.waiters == [] then s.(active := s.active - 1)
    else
      var next := s.waiters[0];
      if SignalAborted(s, s.calls[next].signal) then HandOver(SettleWaiter(s, next, Rejected))
      else SettleWaiter(s, next, Holding)
  }

  predicate IsHolding(s: State, id: nat) { id < |s.calls| && s.calls[id].status == Holding }

  /** Calling a release function: only the first call has an effect. */
  function Release(s: State, id: nat): State
    requires QueueInRange(s)
  {
    if IsHolding(s, id) then HandOver(s.(calls := SetStatus(s.calls, id, Released))) else s
  }

  /** The abort listener of a waiter. It is gone once the waiter has left the queue. */
  function FireAbort(s: State, id: nat): State
    requires QueueInRange(s)
  {
    if id in s.waiters && SignalAborted(s, s.calls[id].signal) then
      SettleWaiter(s, id, Rejected)
    else s
  }

  /** A signal fires first and then runs its listeners one by one, so a release can fall in between. */
  datatype Event =
    | DoAcquire(signal: Option<nat>)
    | DoRelease(id: nat)
    | DoSignal(sig: nat)
    | DoFireAbort(id: nat)

  function Step(s: State, e: Event): State
    requires QueueInRange(s)
  {
    match e
    case DoAcquire(signal) => Acquire(s, signal)
    case DoRelease(id) => Release(s, id)
    case DoSignal(sig) => s.(aborted := s.aborted + {sig})
    case DoFireAbort(id) => FireAbort(s, id)
  }

  // ----- the invariant -----

  ghost function HoldingSet(calls: seq<Call>): set<nat>
  {
    set i: nat | i < |calls| && calls[i].status == Holding
  }

  predicate Increasing(ids: seq<nat>) { forall i, j :: 0 <= i < j < |ids| ==> ids[i] < ids[j] }

  ghost predicate ValidQueue(s: State)
  {
    && Increasing(s.waiters)
    && forall id: nat :: id in s.waiters <==> id < |s.calls| && s.calls[id].status == Waiting
  }

  ghost predicate ValidPermits(s: State)
  {
    && s.active == |HoldingSet(s.calls)|
    && (s.limit.AtMost? ==> s.active <= s.limit.n)
    && (s.waiters != [] ==> s.limit.AtMost? && s.active == s.limit.n)
  }

  /** Permits go out in the order of arrival, and nobody in the queue has been passed over. */
  ghost predicate ValidGrants(s: State)
  {
    && Increasing(s.grants)
    && (forall id: nat :: id in s.grants <==> id < |s.calls| && (s.calls[id].status == Holding || s.calls[id].status == Released))
    && (forall g, w :: g in s.grants && w in s.waiters ==> g < w)
  }

  /** Every call is settled at most once, and only for a reason: the unsettled ones are in the queue. */
  ghost predicate ValidSettlements(s: State)
  {
    && NoRepeats(s.settled)
    && (forall id: nat :: id in s.settled <==> id < |s.calls| && s.calls[id].status != Waiting)
    && (forall id: nat :: id < |s.calls| && s.calls[id].status == Rejected ==> SignalAborted(s, s.calls[id].signal))
  }

  ghost predicate Valid(s: State)
  {
    ValidQueue(s) && ValidPermits(s) && ValidGrants(s) && ValidSettlements(s)
  }

  lemma InitValid(limit: Limit)
    ensures Valid(Init(limit))
  {
    assert HoldingSet([]) == {};
  }

  lemma ValidInRange(s: State)
    requires ValidQueue(s)
    ensures QueueInRange(s)
  {
    forall i | 0 <= i < |s.waiters| ensures s.waiters[i] < |s.calls| { assert s.waiters[i] in s.waiters; }
  }

  lemma StatusChange(calls: seq<Call>, id: nat, status: Status)
    requires id < |calls|
    ensures HoldingSet(SetStatus(calls, id, status)) ==
            if status == Holding then HoldingSet(calls) + {id} else HoldingSet(calls) - {id}
  {
  }

  lemma NewestId(s: State)
    requires ValidQueue(s) && ValidGrants(s) && ValidSettlements(s)
    ensures forall i :: 0 <= i < |s.waiters| ==> s.waiters[i] < |s.calls|
    ensures forall i :: 0 <= i < |s.grants| ==> s.grants[i] < |s.calls|
    ensures forall i :: 0 <= i < |s.settled| ==> s.settled[i] < |s.calls|
  {
    forall i | 0 <= i < |s.waiters| ensures s.waiters[i] < |s.calls| { assert s.waiters[i] in s.waiters; }
    forall i | 0 <= i < |s.grants| ensures s.grants[i] < |s.calls| { assert s.grants[i] in s.grants; }
    forall i | 0 <= i < |s.settled| ensures s.settled[i] < |s.calls| { assert s.settled[i] in s.settled; }
  }

  lemma GrantOnArrival(s: State, signal: Option<nat>)
    requires Valid(s) && HasRoom(s.limit, s.active)
    ensures Valid(Acquire(s, signal))
  {
    var id, t := |s.calls|, Acquire(s, signal);
    assert s.waiters == [];
    assert HoldingSet(t.calls) == HoldingSet(s.calls) + {id};
    GrantOnArrivalLogs(s, signal);
  }

  lemma GrantOnArrivalLogs(s: State, signal: Option<nat>)
    requires Valid(s) && HasRoom(s.limit, s.active) && s.waiters == []
    ensures ValidGrants(Acquire(s, signal)) && ValidSettlements(Acquire(s, signal))
  {
    NewestId(s);
  }

  lemma RejectOnArrival(s: State, signal: Option<nat>)
    requires Valid(s) && !HasRoom(s.limit, s.active) && SignalAborted(s, signal)
    ensures Valid(Acquire(s, signal))
  {
    NewestId(s);
    assert HoldingSet(Acquire(s, signal).calls) == HoldingSet(s.calls);
  }

  lemma QueueOnArrival(s: State, signal: Option<nat>)
    requires Valid(s) && !HasRoom(s.limit, s.active) && !SignalAborted(s, signal)
    ensures Valid(Acquire(s, signal))
  {
    NewestId(s);
    assert HoldingSet(Acquire(s, signal).calls) == HoldingSet(s.calls);
  }

  lemma AcquireValid(s: State, signal: Option<nat>)
    requires Valid(s)
    ensures Valid(Acquire(s, signal))
  {
    if HasRoom(s.limit, s.active) {
      GrantOnArrival(s, signal);
    } else if SignalAborted(s, signal) {
      RejectOnArrival(s, signal);
    } else {
      QueueOnArrival(s, signal);
    }
  }

  lemma {:induction false} WithoutMembers(ws: seq<nat>, id: nat)
    requires Increasing(ws)
    ensures Increasing(Without(ws, id))
    ensures forall x :: x in Without(ws, id) <==> x in ws && x != id
  {
    if ws != [] {
      WithoutMembers(ws[1..], id);
      hide Without;
      var rest := Without(ws[1..], id);
      WithoutFirst(ws, id);
      assert ws == [ws[0]] + ws[1..];
      forall i | 0 <= i < |rest| ensures ws[0] < rest[i] {
        assert rest[i] in rest;
        var j :| 0 <= j < |ws[1..]| && ws[1..][j] == rest[i];
      }
      forall x ensures x in Without(ws, id) <==> x in ws && x != id {
        assert x in ws <==> x == ws[0] || x in ws[1..];
      }
    }
  }

  lemma WithoutFirst(ws: seq<nat>, id: nat)
    requires ws != [] && Increasing(ws)
    ensures Without(ws, id) == if ws[0] == id then ws[1..] else [ws[0]] + Without(ws[1..], id)
  {
  }

  /** A waiter may be settled with a permit when it is first in line, with an error when its signal fired. */
  ghost predicate MaySettle(s: State, id: nat, status: Status)
  {
    && id in s.waiters && id < |s.calls|
    && (status == Holding || status == Rejected)
    && (status == Holding ==> s.waiters[0] == id)
    && (status == Rejected ==> SignalAborted(s, s.calls[id].signal))
  }

  lemma SettleKeepsQueue(s: State, id: nat, status: Status)
    requires ValidQueue(s) && MaySettle(s, id, status)
    ensures ValidQueue(SettleWaiter(s, id, status))
    ensures HoldingSet(SettleWaiter(s, id, status).calls)
            == if status == Holding then HoldingSet(s.calls) + {id} else HoldingSet(s.calls)
    ensures id !in HoldingSet(s.calls)
  {
    WithoutMembers(s.waiters, id);
    StatusChange(s.calls, id, status);
  }

  lemma SettleKeepsGrants(s: State, id: nat, status: Status)
    requires ValidQueue(s) && ValidGrants(s) && MaySettle(s, id, status)
    ensures ValidGrants(SettleWaiter(s, id, status))
  {
    WithoutMembers(s.waiters, id);
    forall i | 0 <= i < |s.grants| ensures s.grants[i] < id { assert s.grants[i] in s.grants; }
  }

  lemma SettleKeepsSettlements(s: State, id: nat, status: Status)
    requires ValidQueue(s) && ValidSettlements(s) && MaySettle(s, id, status)
    ensures ValidSettlements(SettleWaiter(s, id, status))
  {
    assert id !in s.settled;
  }

  /** Before a hand-over the counter is one ahead of the permits in use. */
  ghost predicate PermitInHand(s: State)
  {
    && ValidQueue(s) && ValidGrants(s) && ValidSettlements(s)
    && s.active == |HoldingSet(s.calls)| + 1
    && (s.limit.AtMost? ==> s.active <= s.limit.n)
    && (s.waiters != [] ==> s.limit.AtMost? && s.active == s.limit.n)
  }

  lemma SettleFirst(s: State, status: Status)
    requires PermitInHand(s) && s.waiters != [] && MaySettle(s, s.waiters[0], status)
    ensures var t := SettleWaiter(s, s.waiters[0], status);
            if status == Holding then Valid(t) else PermitInHand(t)
  {
    SettleKeepsQueue(s, s.waiters[0], status);
    SettleKeepsGrants(s, s.waiters[0], status);
    SettleKeepsSettlements(s, s.waiters[0], status);
  }

  lemma {:induction false} HandOverValid(s: State)
    requires PermitInHand(s)
    ensures QueueInRange(s) && Valid(HandOver(s))
    decreases |s.waiters|
  {
    ValidInRange(s);
    if s.waiters != [] {
      var next := s.waiters[0];
      if SignalAborted(s, s.calls[next].signal) {
        SettleFirst(s, Rejected);
        HandOverValid(SettleWaiter(s, next, Rejected));
      } else {
        SettleFirst(s, Holding);
      }
    }
  }

  lemma ReleaseInHand(s: State, id: nat)
    requires Valid(s) && IsHolding(s, id)
    ensures PermitInHand(s.(calls := SetStatus(s.calls, id, Released)))
  {
    StatusChange(s.calls, id, Released);
    assert id in HoldingSet(s.calls);
  }

  lemma ReleaseValid(s: State, id: nat)
    requires Valid(s)
    ensures QueueInRange(s) && Valid(Release(s, id))
  {
    ValidInRange(s);
    if IsHolding(s, id) {
      ReleaseInHand(s, id);
      HandOverValid(s.(calls := SetStatus(s.calls, id, Released)));
    }
  }

  lemma FireAbortValid(s: State, id: nat)
    requires Valid(s)
    ensures QueueInRange(s) && Valid(FireAbort(s, id))
  {
    ValidInRange(s);
    if id in s.waiters && SignalAborted(s, s.calls[id].signal) {
      SettleKeepsQueue(s, id, Rejected);
      SettleKeepsGrants(s, id, Rejected);
      SettleKeepsSettlements(s, id, Rejected);
    }
  }

  lemma StepValid(s: State, e: Event)
    requires Valid(s)
    ensures QueueInRange(s) && Valid(Step(s, e))
  {
    ValidInRange(s);
    match e
    case DoAcquire(signal) => AcquireValid(s, signal);
    case DoRelease(id) => ReleaseValid(s, id);
    case DoSignal(sig) =>
    case DoFireAbort(id) => FireAbortValid(s, id);
  }

  // ----- runs -----

  ghost function After(s: State, e: Event): (t: State)
    requires Valid(s)
    ensures Valid(t) && t.limit == s.limit
  {
    StepValid(s, e);
    StepLimit(s, e);
    Step(s, e)
  }

  lemma {:induction false} HandOverLimit(s: State)
    requires QueueInRange(s)
    ensures HandOver(s).limit == s.limit
    decreases |s.waiters|
  {
    if s.waiters != [] && SignalAborted(s, s.calls[s.waiters[0]].signal) {
      var next := s.waiters[0];
      HandOverLimit(SettleWaiter(s, next, Rejected));
    }
  }

  lemma StepLimit(s: State, e: Event)
    requires QueueInRange(s)
    ensures Step(s, e).limit == s.limit
  {
    if e.DoRelease? && IsHolding(s, e.id) {
      HandOverLimit(s.(calls := SetStatus(s.calls, e.id, Released)));
    }
  }

  /** Any interleaving of acquires, releases and aborts. */
  ghost function Run(s: State, events: seq<Event>): (t: State)
    requires Valid(s)
    ensures Valid(t) && t.limit == s.limit
    decreases events
  {
    if events == [] then s else Run(After(s, events[0]), events[1..])
  }

  ghost function Reached(limit: Limit, events: seq<Event>): State
  {
    InitValid(limit);
    Run(Init(limit), events)
  }

  /** In every interleaving: unreleased permits equal `active` and never exceed the limit, a non-empty queue
      means all permits are out, permits are granted in order of arrival and past no one still waiting, and
      every call is settled at most once, by rejection only if its signal has fired. */
  lemma EveryInterleaving(limit: Limit, events: seq<Event>)
    ensures var t := Reached(limit, events);
            && t.active == |HoldingSet(t.calls)|
            && (limit.AtMost? ==> t.active <= limit.n)
            && (t.waiters != [] ==> limit.AtMost? && t.active == limit.n)
            && Increasing(t.grants) && (forall g, w :: g in t.grants && w in t.waiters ==> g < w)
            && NoRepeats(t.settled)
            && (forall id: nat :: id < |t.calls| && id !in t.settled ==> id in t.waiters)
            && (forall id: nat :: id < |t.calls| && t.calls[id].status == Rejected ==> SignalAborted(t, t.calls[id].signal))
  {
    assert Valid(Reached(limit, events)) by { InitValid(limit); }
  }

  // ----- waiting is bounded -----

  /** How many waiters are ahead of `id` in the queue. */
  function Position(ws: seq<nat>, id: nat): nat
    requires id in ws
  {
    if ws[0] == id then 0 else 1 + Position(ws[1..], id)
  }

  /** A release that gives a permit back. */
  predicate Effective(s: State, e: Event) { e.DoRelease? && IsHolding(s, e.id) }

  ghost function EffectiveReleases(s: State, events: seq<Event>): nat
    requires Valid(s)
    decreases events
  {
    if events == [] then 0
    else (if Effective(s, events[0]) then 1 else 0) + EffectiveReleases(After(s, events[0]), events[1..])
  }

  lemma {:induction false} PositionAppend(ws: seq<nat>, id: nat, more: seq<nat>)
    requires id in ws
    ensures Position(ws + more, id) == Position(ws, id)
  {
    if ws[0] != id {
      PositionAppend(ws[1..], id, more);
      assert (ws + more)[1..] == ws[1..] + more;
    }
  }

  lemma {:induction false} PositionWithout(ws: seq<nat>, id: nat, gone: nat)
    requires id in ws && id != gone
    ensures id in Without(ws, gone) && Position(Without(ws, gone), id) <= Position(ws, id)
  {
    if ws[0] != id && ws[0] != gone {
      PositionWithout(ws[1..], id, gone);
    }
  }

  /** Passing a permit on brings everybody who keeps waiting forward. */
  lemma {:induction false} HandOverPosition(s: State, id: nat)
    requires QueueInRange(s) && Increasing(s.waiters)
    requires id in s.waiters && id in HandOver(s).waiters
    ensures Position(HandOver(s).waiters, id) < Position(s.waiters, id)
    decreases |s.waiters|
  {
    var next := s.waiters[0];
    HandOverShrinks(s);
    if SignalAborted(s, s.calls[next].signal) {
      var t := SettleWaiter(s, next, Rejected);
      HandOverShrinks(t);
      HandOverPosition(t, id);
    }
  }

  lemma {:induction false} HandOverShrinks(s: State)
    requires QueueInRange(s) && s.waiters != []
    ensures forall id :: id in HandOver(s).waiters ==> id in s.waiters[1..]
    ensures Increasing(s.waiters) ==> s.waiters[0] !in HandOver(s).waiters
    decreases |s.waiters|
  {
    var next := s.waiters[0];
    if SignalAborted(s, s.calls[next].signal) && |s.waiters| > 1 {
      HandOverShrinks(SettleWaiter(s, next, Rejected));
    }
  }

  lemma StepPosition(s: State, e: Event, id: nat)
    requires Valid(s) && id in s.waiters && id in After(s, e).waiters
    ensures Position(After(s, e).waiters, id) + (if Effective(s, e) then 1 else 0) <= Position(s.waiters, id)
  {
    match e
    case DoAcquire(signal) => PositionAppend(s.waiters, id, [|s.calls|]);
    case DoRelease(h) =>
      if IsHolding(s, h) {
        ValidInRange(s);
        HandOverPosition(s.(calls := SetStatus(s.calls, h, Released)), id);
      }
    case DoSignal(sig) =>
    case DoFireAbort(gone) =>
      if gone == id {
        WithoutMembers(s.waiters, id);
      } else {
        PositionWithout(s.waiters, id, gone);
      }
  }

  /** A call that has left the queue does not come back to it. */
  lemma {:induction false} SettledForGood(s: State, events: seq<Event>, id: nat)
    requires Valid(s) && id < |s.calls| && id !in s.waiters
    ensures id !in Run(s, events).waiters
    decreases events
  {
    if events != [] {
      var e, t := events[0], After(s, events[0]);
      ValidInRange(s);
      match e {
        case DoRelease(h) =>
          if IsHolding(s, h) { HandOverKeeps(s.(calls := SetStatus(s.calls, h, Released)), id); }
        case DoFireAbort(gone) =>
          WithoutMembers(s.waiters, gone);
        case _ =>
      }
      SettledForGood(t, events[1..], id);
    }
  }

  lemma {:induction false} HandOverKeeps(s: State, id: nat)
    requires QueueInRange(s)
    ensures |HandOver(s).calls| == |s.calls|
    ensures id !in s.waiters ==> id !in HandOver(s).waiters
    decreases |s.waiters|
  {
    if s.waiters != [] {
      HandOverShrinks(s);
      if SignalAborted(s, s.calls[s.waiters[0]].signal) {
        var next := s.waiters[0];
        HandOverKeeps(SettleWaiter(s, next, Rejected), id);
      }
    }
  }

  /** A waiter with `i` others ahead of it is settled by the time `i + 1` permits have been given back,
      whatever else arrives, aborts or is released twice in between. */
  lemma {:induction false} SettledWithin(s: State, events: seq<Event>, id: nat)
    requires Valid(s) && id in s.waiters
    requires EffectiveReleases(s, events) > Position(s.waiters, id)
    ensures id !in Run(s, events).waiters
    decreases events
  {
    var t := After(s, events[0]);
    if id in t.waiters {
      StepPosition(s, events[0], id);
      SettledWithin(t, events[1..], id);
    } else {
      assert id < |s.calls|;
      CallsStay(s, events[0]);
      SettledForGood(t, events[1..], id);
    }
  }

  lemma CallsStay(s: State, e: Event)
    requires Valid(s)
    ensures |After(s, e).calls| >= |s.calls|
  {
    ValidInRange(s);
    if Effective(s, e) { HandOverKeeps(s.(calls := SetStatus(s.calls, e.id, Released)), 0); }
  }

  // ----- what a step does to the calls -----

  /** Statuses only move forward: a settled call keeps its permit until its own release, and a call that was
      not released by this step has not become released. */
  ghost predicate Forward(before: seq<Call>, after: seq<Call>, released: Option<nat>)
  {
    && |before| <= |after|
    && forall j: nat :: j < |after| ==>
                          if j >= |before| then after[j].status != Released
                          else MovesOn(before[j], after[j], released == Some(j))
  }

  predicate MovesOn(c: Call, d: Call, released: bool)
  {
    && d.signal == c.signal
    && (c.status == Released ==> d.status == Released)
    && (c.status == Rejected ==> d.status == Rejected)
    && (c.status == Holding ==> d.status == if released then Released else Holding)
    && (c.status == Waiting ==> d.status != Released)
  }

  lemma AcquireForward(s: State, signal: Option<nat>)
    ensures Forward(s.calls, Acquire(s, signal).calls, None) && |Acquire(s, signal).calls| == |s.calls| + 1
    ensures Acquire(s, signal).limit == s.limit
  {
  }

  lemma {:induction false} HandOverForward(s: State)
    requires ValidQueue(s)
    ensures QueueInRange(s) && Forward(s.calls, HandOver(s).calls, None) && |HandOver(s).calls| == |s.calls|
    decreases |s.waiters|
  {
    ValidInRange(s);
    if s.waiters != [] {
      var next := s.waiters[0];
      assert next in s.waiters;
      var t := SettleWaiter(s, next, Rejected);
      if SignalAborted(s, s.calls[next].signal) {
        SettleKeepsQueue(s, next, Rejected);
        HandOverForward(t);
      }
    }
  }

  lemma ReleaseForward(s: State, id: nat)
    requires Valid(s) && IsHolding(s, id)
    ensures QueueInRange(s) && Forward(s.calls, Release(s, id).calls, Some(id)) && |Release(s, id).calls| == |s.calls|
    ensures Release(s, id).calls[id].status == Released
  {
    ReleaseInHand(s, id);
    ValidInRange(s);
    HandOverForward(s.(calls := SetStatus(s.calls, id, Released)));
  }

  // ----- what each step does -----

  /** The signal of call `id` has fired. */
  predicate Fired(s: State, id: nat) { id < |s.calls| && s.calls[id].signal.Some? && s.calls[id].signal.value in s.aborted }

  /** Calls other than those in `changed` are as they were. */
  ghost predicate OnlyChanges(before: seq<Call>, after: seq<Call>, changed: seq<nat>)
  {
    && |after| == |before|
    && (forall j: nat :: j < |before| && j !in changed ==> after[j] == before[j])
    && forall j: nat :: j < |before| ==> after[j].signal == before[j].signal
  }

  /** A new call gets a permit when there is one, whatever its signal; without one it is rejected exactly when its
      signal has fired, and queued at the end otherwise. */
  lemma AcquireOutcome(s: State, signal: Option<nat>)
    requires Valid(s)
    ensures QueueInRange(s)
    ensures var t, id := Step(s, DoAcquire(signal)), |s.calls|;
            var room := s.limit.Unlimited? || s.active < s.limit.n;
            var fired := signal.Some? && signal.value in s.aborted;
            && |t.calls| == id + 1 && t.calls[..id] == s.calls && t.calls[id].signal == signal
            && t.calls[id].status == (if room then Holding else if fired then Rejected else Waiting)
            && t.active == (if room then s.active + 1 else s.active)
            && t.waiters == (if room || fired then s.waiters else s.waiters + [id])
            && t.grants == (if room then s.grants + [id] else s.grants)
            && t.settled == (if room || fired then s.settled + [id] else s.settled)
            && t.limit == s.limit && t.aborted == s.aborted
  {
    ValidInRange(s);
  }

  lemma {:induction false} WithoutAt(ws: seq<nat>, id: nat, i: nat)
    requires Increasing(ws) && i < |ws| && ws[i] == id
    ensures Without(ws, id) == ws[..i] + ws[i + 1..]
  {
    WithoutFirst(ws, id);
    hide Without;
    if i > 0 {
      assert ws[0] < ws[i];
      assert Increasing(ws[1..]);
      WithoutAt(ws[1..], id, i - 1);
      CutNext(ws, i);
    } else {
      assert ws[..0] + ws[1..] == ws[1..];
    }
  }

  lemma CutNext(ws: seq<nat>, i: nat)
    requires 0 < i < |ws|
    ensures [ws[0]] + (ws[1..][..i - 1] + ws[1..][i..]) == ws[..i] + ws[i + 1..]
  {
  }

  /** The listener of a queued call whose signal has fired takes it out of the queue and rejects it; any other
      listener does nothing. */
  lemma AbortRejects(s: State, id: nat)
    requires Valid(s)
    ensures QueueInRange(s)
    ensures var t := Step(s, DoFireAbort(id));
            if id in s.waiters && Fired(s, id) then
              && id < |t.calls| && t.calls[id].status == Rejected && OnlyChanges(s.calls, t.calls, [id])
              && (forall i :: 0 <= i < |s.waiters| && s.waiters[i] == id ==> t.waiters == s.waiters[..i] + s.waiters[i + 1..])
              && id !in t.waiters && t.settled == s.settled + [id]
              && t.active == s.active && t.grants == s.grants && t.limit == s.limit && t.aborted == s.aborted
            else t == s
  {
    ValidInRange(s);
    if id in s.waiters && Fired(s, id) {
      WithoutMembers(s.waiters, id);
      forall i | 0 <= i < |s.waiters| && s.waiters[i] == id
        ensures Without(s.waiters, id) == s.waiters[..i] + s.waiters[i + 1..] { WithoutAt(s.waiters, id, i); }
    }
  }

  /** How many waiters at the front have a signal that has fired. */
  function FiredAhead(s: State, ws: seq<nat>): (k: nat)
    ensures k <= |ws| && (forall i :: 0 <= i < k ==> Fired(s, ws[i])) && (k < |ws| ==> !Fired(s, ws[k]))
  {
    if ws == [] || !Fired(s, ws[0]) then 0 else 1 + FiredAhead(s, ws[1..])
  }

  /** A permit that is passed on from `s` to `t`: the `k` waiters ahead whose signal has fired are rejected, the next
      one gets the permit, and it is given up when there is none. */
  ghost predicate PassedOn(s: State, t: State, k: nat)
    requires k <= |s.waiters|
  {
    var gone := if k < |s.waiters| then k + 1 else k;
    && OnlyChanges(s.calls, t.calls, s.waiters[..gone])
    && (forall i :: 0 <= i < k ==> s.waiters[i] < |s.calls| && t.calls[s.waiters[i]].status == Rejected)
    && (k < |s.waiters| ==> s.waiters[k] < |s.calls| && t.calls[s.waiters[k]].status == Holding)
    && t.waiters == s.waiters[gone..] && t.settled == s.settled + s.waiters[..gone]
    && t.grants == s.grants + s.waiters[k..gone] && t.active == (if k < |s.waiters| then s.active else s.active - 1)
    && t.limit == s.limit && t.aborted == s.aborted
  }

  lemma {:induction false} HandOverPasses(s: State)
    requires ValidQueue(s)
    ensures QueueInRange(s) && PassedOn(s, HandOver(s), FiredAhead(s, s.waiters))
    decreases |s.waiters|
  {
    ValidInRange(s);
    if s.waiters == [] || !Fired(s, s.waiters[0]) {
      LastPass(s);
    } else {
      var next := s.waiters[0];
      assert next in s.waiters;
      var t := SettleWaiter(s, next, Rejected);
      SettleKeepsQueue(s, next, Rejected);
      SettledFirst(s, Rejected);
      hide ValidQueue, PassedOn, SettleWaiter;
      HandOverPasses(t);
      SameAhead(s, t, s.waiters[1..], next);
      PassedMore(s, t, HandOver(s), FiredAhead(t, t.waiters));
    }
  }

  lemma SettledFirst(s: State, status: Status)
    requires s.waiters != [] && s.waiters[0] < |s.calls|
    ensures var t := SettleWaiter(s, s.waiters[0], status);
            t.waiters == s.waiters[1..] && t.aborted == s.aborted && OnlyChanges(s.calls, t.calls, [s.waiters[0]])
  {
  }

  /** Nobody waits, or the first in the queue gets the permit. */
  lemma LastPass(s: State)
    requires QueueInRange(s) && (s.waiters == [] || !Fired(s, s.waiters[0]))
    ensures PassedOn(s, HandOver(s), FiredAhead(s, s.waiters))
  {
    if s.waiters == [] {
      assert s.settled + [] == s.settled && s.grants + [] == s.grants;
    } else {
      assert s.waiters[..1] == [s.waiters[0]] == s.waiters[0..1];
    }
  }

  lemma {:induction false} SameAhead(s: State, t: State, ws: seq<nat>, id: nat)
    requires t.aborted == s.aborted && OnlyChanges(s.calls, t.calls, [id])
    ensures FiredAhead(s, ws) == FiredAhead(t, ws)
  {
    if ws != [] { SameAhead(s, t, ws[1..], id); }
  }

  lemma OneAhead(ws: seq<nat>, k: nat, gone: nat)
    requires ws != [] && k <= gone < |ws|
    ensures ws[1..][gone..] == ws[gone + 1..] && [ws[0]] + ws[1..][..gone] == ws[..gone + 1]
    ensures ws[1..][k..gone] == ws[k + 1..gone + 1]
  {
  }

  lemma PassedMore(s: State, t: State, u: State, k: nat)
    requires s.waiters != [] && s.waiters[0] < |s.calls| && t.waiters == s.waiters[1..]
    requires Increasing(s.waiters) && t == SettleWaiter(s, s.waiters[0], Rejected)
    requires k <= |t.waiters| && PassedOn(t, u, k)
    ensures PassedOn(s, u, k + 1)
  {
    hide OnlyChanges, Increasing, SetStatus;
    var next, rest := s.waiters[0], s.waiters[1..];
    var gone := if k < |rest| then k + 1 else k;
    OneAhead(s.waiters, k, gone);
    assert s.settled + [next] + rest[..gone] == s.settled + ([next] + rest[..gone]);
    PassedCalls(s, t, u, k, gone);
  }

  lemma PassedCalls(s: State, t: State, u: State, k: nat, gone: nat)
    requires s.waiters != [] && s.waiters[0] < |s.calls| && k <= gone < |s.waiters| && Increasing(s.waiters)
    requires t.calls == SetStatus(s.calls, s.waiters[0], Rejected) && OnlyChanges(t.calls, u.calls, s.waiters[1..][..gone])
    requires forall i :: 0 <= i < k ==> s.waiters[1..][i] < |t.calls| && u.calls[s.waiters[1..][i]].status == Rejected
    ensures OnlyChanges(s.calls, u.calls, s.waiters[..gone + 1])
    ensures forall i :: 0 <= i < k + 1 ==> s.waiters[i] < |s.calls| && u.calls[s.waiters[i]].status == Rejected
  {
    var next, rest := s.waiters[0], s.waiters[1..];
    assert s.waiters[..gone + 1] == [next] + rest[..gone];
    assert next !in rest[..gone];
    forall i | 0 <= i < k + 1 ensures s.waiters[i] < |s.calls| && u.calls[s.waiters[i]].status == Rejected {
      assert i > 0 ==> s.waiters[i] == rest[i - 1];
    }
  }

  lemma StaysReleased(s: State, t: State, k: nat, id: nat)
    requires k <= |s.waiters| && PassedOn(s, t, k) && id < |s.calls| && id !in s.waiters
    ensures id < |t.calls| && t.calls[id] == s.calls[id]
  {
  }

  /** Using a release function: the first time, the permit is passed on to the first waiter whose signal has not
      fired, the ones before it being rejected; any other time nothing happens. */
  lemma ReleasePassesOn(s: State, id: nat)
    requires Valid(s)
    ensures QueueInRange(s)
    ensures var t, k := Step(s, DoRelease(id)), FiredAhead(s, s.waiters);
            if id < |s.calls| && s.calls[id].status == Holding then
              && id < |t.calls| && t.calls[id].status == Released
              && PassedOn(s.(calls := s.calls[id := s.calls[id].(status := Released)]), t, k)
            else t == s
  {
    hide HoldingSet, ValidGrants, ValidSettlements, HandOver, FiredAhead, Increasing;
    ValidInRange(s);
    if IsHolding(s, id) {
      var given := s.(calls := SetStatus(s.calls, id, Released));
      ReleaseInHand(s, id);
      HandOverPasses(given);
      SameAhead(s, given, s.waiters, id);
      assert id !in s.waiters;
      StaysReleased(given, Step(s, DoRelease(id)), FiredAhead(given, given.waiters), id);
      hide PassedOn, Valid, PermitInHand, ValidQueue;
    }
  }

  /** The listener of everybody queued with that signal is among the events. */
  ghost predicate ListenersIn(s: State, sig: nat, events: seq<Event>)
  {
    forall id :: id in s.waiters && id < |s.calls| && s.calls[id].signal == Some(sig) ==> DoFireAbort(id) in events
  }

  /** Once a signal and the listeners of its waiters have run, nobody with that signal is queued, whatever happens in
      between and later: new calls with it are let in at once or rejected. */
  lemma {:induction false} AbortedLeaveQueue(s: State, sig: nat, events: seq<Event>)
    requires Valid(s) && sig in s.aborted && ListenersIn(s, sig, events)
    ensures var t := Run(s, events); forall id :: id in t.waiters ==> id < |t.calls| && t.calls[id].signal != Some(sig)
    decreases events
  {
    if events == [] {
      forall id | id in s.waiters ensures id < |s.calls| && s.calls[id].signal != Some(sig) { assert DoFireAbort(id) !in events; }
    } else {
      var e, t := events[0], After(s, events[0]);
      hide Valid, After;
      StepKeepsAborted(s, e, sig);
      forall id | id in t.waiters && id < |t.calls| && t.calls[id].signal == Some(sig) ensures DoFireAbort(id) in events[1..] {
        assert DoFireAbort(id) in events;
        assert events == [e] + events[1..];
      }
      AbortedLeaveQueue(t, sig, events[1..]);
      FirstEvent(s, e, events[1..]);
      assert [e] + events[1..] == events;
    }
  }

  /** A signal fires and the listeners of all its waiters run, in any order and whatever happens in between: then
      nobody with that signal is queued, then or later. */
  lemma SignalClearsQueue(s: State, sig: nat, events: seq<Event>)
    requires Valid(s) && ListenersIn(s, sig, events)
    ensures var t := Run(s, [DoSignal(sig)] + events);
            forall id :: id in t.waiters ==> id < |t.calls| && t.calls[id].signal != Some(sig)
  {
    FirstEvent(s, DoSignal(sig), events);
    SignalFires(s, sig, events);
    hide Run, After, Valid, ListenersIn;
    AbortedLeaveQueue(After(s, DoSignal(sig)), sig, events);
  }

  lemma FirstEvent(s: State, e: Event, events: seq<Event>)
    requires Valid(s)
    ensures Run(s, [e] + events) == Run(After(s, e), events)
  {
    hide Valid, After;
    assert ([e] + events)[0] == e && ([e] + events)[1..] == events;
  }

  lemma SignalFires(s: State, sig: nat, events: seq<Event>)
    requires Valid(s) && ListenersIn(s, sig, events)
    ensures var t := After(s, DoSignal(sig)); sig in t.aborted && ListenersIn(t, sig, events)
  {
    hide Valid;
  }

  lemma StepKeepsAborted(s: State, e: Event, sig: nat)
    requires Valid(s) && sig in s.aborted
    ensures var t := After(s, e);
            && sig in t.aborted
            && forall id :: id in t.waiters && id < |t.calls| && t.calls[id].signal == Some(sig) ==>
                              && id in s.waiters && id < |s.calls| && s.calls[id].signal == Some(sig) && e != DoFireAbort(id)
  {
    ValidInRange(s);
    match e
    case DoAcquire(signal) =>
    case DoSignal(_) =>
    case DoFireAbort(id) => AbortKeepsAborted(s, id, sig);
    case DoRelease(id) => ReleaseKeepsAborted(s, id, sig);
  }

  lemma AbortKeepsAborted(s: State, id: nat, sig: nat)
    requires Valid(s) && sig in s.aborted
    ensures var t := After(s, DoFireAbort(id));
            && sig in t.aborted
            && forall other :: other in t.waiters && other < |t.calls| && t.calls[other].signal == Some(sig) ==>
                                 && other in s.waiters && other < |s.calls| && s.calls[other].signal == Some(sig) && other != id
  {
    hide ValidGrants, ValidPermits, ValidSettlements, FireAbort;
    AbortRejects(s, id);
    if id in s.waiters { var i :| 0 <= i < |s.waiters| && s.waiters[i] == id; }
  }

  lemma ReleaseKeepsAborted(s: State, id: nat, sig: nat)
    requires Valid(s) && sig in s.aborted
    ensures var t := After(s, DoRelease(id));
            && sig in t.aborted
            && forall other :: other in t.waiters && other < |t.calls| && t.calls[other].signal == Some(sig) ==>
                                 other in s.waiters && other < |s.calls| && s.calls[other].signal == Some(sig)
  {
    hide ValidGrants, ValidPermits, ValidSettlements, Release, FiredAhead;
    ReleasePassesOn(s, id);
  }

  // ----- the semaphore as the source has it -----

  class AdapterSemaphore {
    const limit: Limit
    var active: int
    var waiters: seq<nat>
    var calls: seq<Call>
    var aborted: set<nat>
    ghost var grants: seq<nat>
    ghost var settled: seq<nat>

    ghost function Current(): State
      reads this
    {
      State(limit, active, waiters, calls, aborted, grants, settled)
    }

    constructor (concurrency: Option<real>)
      ensures Current() == Init(Normalize(concurrency)) && Valid(Current())
    {
      limit := Normalize(concurrency);
      active, waiters, calls, aborted := 0, [], [], {};
      grants, settled := [], [];
      new;
      InitValid(limit);
    }

    /** Resolving or rejecting the promise of a call, which is possible once. */
    method Settle(id: nat, status: Status)
      requires id < |calls| && calls[id].status == Waiting && (status == Holding || status == Rejected)
      modifies this
      ensures Current() == old(Current()).(calls := SetStatus(old(calls), id, status), settled := old(settled) + [id],
                                           grants := if status == Holding then old(grants) + [id] else old(grants))
    {
      calls := SetStatus(calls, id, status);
      settled := settled + [id];
      if status == Holding { grants := grants + [id]; }
    }

    method Acquire(signal: Option<nat>) returns (id: nat)
      requires Valid(Current())
      modifies this
      ensures id == |old(calls)|
      ensures QueueInRange(old(Current()))
      ensures Current() == Step(old(Current()), DoAcquire(signal)) && Valid(Current())
    {
      hide HoldingSet, ValidGrants, ValidSettlements, Increasing, QueueInRange;
      id := |calls|;
      ghost var before := Current();
      ValidInRange(before);
      if HasRoom(limit, active) {
        active := active + 1;
        calls := calls + [Call(signal, Waiting)];
        Settle(id, Holding);
      } else if signal.Some? && signal.value in aborted {
        calls := calls + [Call(signal, Waiting)];
        Settle(id, Rejected);
      } else {
        calls := calls + [Call(signal, Waiting)];
        waiters := waiters + [id];
      }
      StepValid(before, DoAcquire(signal));
    }

    /** The release function handed to call `id`. */
    method Release(id: nat)
      requires Valid(Current())
      modifies this
      ensures QueueInRange(old(Current()))
      ensures Current() == Step(old(Current()), DoRelease(id)) && Valid(Current())
    {
      hide HoldingSet, ValidGrants, ValidSettlements;
      ghost var before := Current();
      ValidInRange(before);
      StepValid(before, DoRelease(id));
      if !(id < |calls| && calls[id].status == Holding) {
        return;
      }
      calls := SetStatus(calls, id, Released);
      ghost var given := Current();
      ReleaseInHand(before, id);
      ValidInRange(given);
      while |waiters| > 0
        invariant PermitInHand(Current()) && QueueInRange(Current())
        invariant HandOver(Current()) == HandOver(given)
      {
        var next := waiters[0];
        ghost var s := Current();
        assert next in waiters;
        waiters := waiters[1..];
        if calls[next].signal.Some? && calls[next].signal.value in aborted {
          SettleFirst(s, Rejected);
          Settle(next, Rejected);
          ValidInRange(Current());
        } else {
          Settle(next, Holding);
          return;
        }
      }
      active := active - 1;
    }

    /** A signal fires; its listeners follow one at a time. */
    method Signal(sig: nat)
      requires Valid(Current())
      modifies this
      ensures QueueInRange(old(Current()))
      ensures Current() == Step(old(Current()), DoSignal(sig)) && Valid(Current())
    {
      ghost var before := Current();
      StepValid(before, DoSignal(sig));
      aborted := aborted + {sig};
    }

    /** The abort listener of waiter `id`. */
    method OnAbort(id: nat)
      requires Valid(Current())
      modifies this
      ensures QueueInRange(old(Current()))
      ensures Current() == Step(old(Current()), DoFireAbort(id)) && Valid(Current())
    {
      ghost var before := Current();
      StepValid(before, DoFireAbort(id));
      if id in waiters && calls[id].signal.Some? && calls[id].signal.value in aborted {
        RemoveWaiter(id);
        Settle(id, Rejected);
      }
    }

    method RemoveWaiter(id: nat)
      modifies this`waiters
      ensures waiters == Without(old(waiters), id)
    {
      var idx := 0;
      assert waiters[0..] == waiters;
      while idx < |waiters| && waiters[idx] != id
        invariant idx <= |waiters|
        invariant Without(waiters, id) == waiters[..idx] + Without(waiters[idx..], id)
      {
        assert waiters[idx..][1..] == waiters[idx + 1..];
        assert waiters[..idx] + ([waiters[idx]] + Without(waiters[idx + 1..], id))
            == waiters[..idx + 1] + Without(waiters[idx + 1..], id);
        idx := idx + 1;
      }
      if idx < |waiters| {
        assert waiters[idx..][1..] == waiters[idx + 1..];
        waiters := waiters[..idx] + waiters[idx + 1..];
      }
    }
  }
}
