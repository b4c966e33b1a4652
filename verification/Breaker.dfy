/** The integration adapter's circuit breaker: it opens when failures reach a percentage of all counted
    outcomes, rejects calls until the reset time has passed, and then lets calls through half-open. */
module Breaker {
  import opened Options

  datatype Mode = Closed | Open | HalfOpen

  datatype Config = Config(errorThresholdPct: real, resetMs: int)

  datatype State = State(mode: Mode, openedAt: int, successes: nat, failures: nat)

  function Init(): State { State(Closed, 0, 0, 0) }

  // ----- steps, for an integration with a breaker -----

  predicate Admits(cfg: Config, s: State, now: int) { s.mode != Open || now - s.openedAt >= cfg.resetMs }

  /** The check before a call: an open breaker past its reset time becomes half-open. */
  function Before(cfg: Config, s: State, now: int): State
  {
    if s.mode == Open && Admits(cfg, s, now) then s.(mode := HalfOpen) else s
  }

  function AfterSuccess(s: State): State
  {
    if s.mode == HalfOpen then s.(mode := Closed, successes := 0, failures := 0)
    else s.(successes := s.successes + 1)
  }

  function FailurePct(successes: nat, failures: nat): real
  {
    if successes + failures == 0 then 0.0 else failures as real / (successes + failures) as real * 100.0
  }

  function AfterFailure(cfg: Config, s: State, now: int): State
  {
    if s.mode == HalfOpen then s.(mode := Open, openedAt := now)
    else
      var t := s.(failures := s.failures + 1);
      if FailurePct(t.successes, t.failures) >= cfg.errorThresholdPct then t.(mode := Open, openedAt := now) else t
  }

  /** Checks and outcomes of overlapping calls, in any order. */
  datatype Event = Check(now: int) | Success(now: int) | Failure(now: int)

  function Step(cfg: Config, s: State, e: Event): State
  {
    match e
    case Check(now) => Before(cfg, s, now)
    case Success(_) => AfterSuccess(s)
    case Failure(now) => AfterFailure(cfg, s, now)
  }

  /** The state after the first `n` events. */
  function StateAt(cfg: Config, events: seq<Event>, n: nat): State
    requires n <= |events|
  {
    if n == 0 then Init() else Step(cfg, StateAt(cfg, events, n - 1), events[n - 1])
  }

  // ----- a closed breaker is below its threshold -----

  predicate BelowThreshold(cfg: Config, s: State)
  {
    s.failures == 0 || 100.0 * s.failures as real < cfg.errorThresholdPct * (s.successes + s.failures) as real
  }

  lemma FailureKeepsBelow(cfg: Config, s: State, now: int)
    ensures s.mode == Closed && AfterFailure(cfg, s, now).mode == Closed ==> BelowThreshold(cfg, AfterFailure(cfg, s, now))
  {
  }

  /** Whatever overlapping calls do, a closed breaker has no failures or a failure rate below its threshold. */
  lemma {:induction false} ClosedMeansBelow(cfg: Config, events: seq<Event>, n: nat)
    requires n <= |events|
    ensures StateAt(cfg, events, n).mode == Closed ==> BelowThreshold(cfg, StateAt(cfg, events, n))
  {
    if n > 0 {
      ClosedMeansBelow(cfg, events, n - 1);
      var s := StateAt(cfg, events, n - 1);
      if events[n - 1].Failure? { FailureKeepsBelow(cfg, s, events[n - 1].now); }
    }
  }

  // ----- what the counters count -----

  /** A reset: a success while half-open. */
  predicate IsReset(cfg: Config, events: seq<Event>, i: nat)
    requires i < |events|
  {
    events[i].Success? && StateAt(cfg, events, i).mode == HalfOpen
  }

  /** Event `i` is the outcome `ok` of a call that finished outside half-open. */
  predicate CountsAs(cfg: Config, events: seq<Event>, i: nat, ok: bool)
    requires i < |events|
  {
    (if ok then events[i].Success? else events[i].Failure?) && StateAt(cfg, events, i).mode != HalfOpen
  }

  /** The positions of such outcomes from `from` on. */
  ghost function Counted(cfg: Config, events: seq<Event>, from: nat, n: nat, ok: bool): set<nat>
    requires n <= |events|
  {
    set i: nat | from <= i < n && CountsAs(cfg, events, i, ok)
  }

  /** `from` is the start, or comes right after a reset, and there has been no reset since. */
  ghost predicate SinceLastReset(cfg: Config, events: seq<Event>, from: nat, n: nat)
    requires from <= n <= |events|
  {
    && (from == 0 || IsReset(cfg, events, from - 1))
    && forall i :: from <= i < n ==> !IsReset(cfg, events, i)
  }

  /** The counters are exactly the outcomes since the last reset of calls that finished outside half-open;
      checks, rejected or not, add nothing. */
  lemma {:induction false} CountersAreOutcomes(cfg: Config, events: seq<Event>, from: nat, n: nat)
    requires from <= n <= |events| && SinceLastReset(cfg, events, from, n)
    ensures StateAt(cfg, events, n).successes == |Counted(cfg, events, from, n, true)|
    ensures StateAt(cfg, events, n).failures == |Counted(cfg, events, from, n, false)|
    decreases n
  {
    if n == from {
      assert Counted(cfg, events, from, n, true) == {} == Counted(cfg, events, from, n, false);
    } else {
      hide StateAt, Counted;
      CountersAreOutcomes(cfg, events, from, n - 1);
      CountersStep(cfg, events, from, n);
    }
  }

  lemma CountersStep(cfg: Config, events: seq<Event>, from: nat, n: nat)
    requires from < n <= |events| && !IsReset(cfg, events, n - 1)
    requires StateAt(cfg, events, n - 1).successes == |Counted(cfg, events, from, n - 1, true)|
    requires StateAt(cfg, events, n - 1).failures == |Counted(cfg, events, from, n - 1, false)|
    ensures StateAt(cfg, events, n).successes == |Counted(cfg, events, from, n, true)|
    ensures StateAt(cfg, events, n).failures == |Counted(cfg, events, from, n, false)|
  {
    CountedStep(cfg, events, from, n, true);
    CountedStep(cfg, events, from, n, false);
    hide Step, Counted;
  }

  lemma CountedStep(cfg: Config, events: seq<Event>, from: nat, n: nat, ok: bool)
    requires from < n <= |events|
    ensures |Counted(cfg, events, from, n, ok)|
            == |Counted(cfg, events, from, n - 1, ok)| + if CountsAs(cfg, events, n - 1, ok) then 1 else 0
  {
    hide CountsAs;
    var i: nat := n - 1;
    assert Counted(cfg, events, from, n, ok) ==
           Counted(cfg, events, from, i, ok) + if CountsAs(cfg, events, i, ok) then {i} else {};
  }

  // ----- when the breaker changes its state -----

  /** Failure `n` has brought the failures counted since the last reset to the threshold of all outcomes counted. */
  ghost predicate ReachesThreshold(cfg: Config, events: seq<Event>, from: nat, n: nat)
    requires n < |events|
  {
    var s, f := |Counted(cfg, events, from, n + 1, true)|, |Counted(cfg, events, from, n + 1, false)|;
    100.0 * f as real >= cfg.errorThresholdPct * (s + f) as real
  }

  lemma PctReaches(s: nat, f: nat, threshold: real)
    requires s + f > 0
    ensures FailurePct(s, f) >= threshold <==> 100.0 * f as real >= threshold * (s + f) as real
  {
    var total, pct := (s + f) as real, FailurePct(s, f);
    assert pct * total == 100.0 * f as real;
    if pct >= threshold { assert (pct - threshold) * total >= 0.0; } else { assert (threshold - pct) * total > 0.0; }
  }

  /** A failure outside half-open opens the breaker, or sets the opening time of an open one anew, exactly when
      the threshold is reached; a closed one otherwise stays closed, and an open one as it was. */
  lemma FailureOpensIff(cfg: Config, events: seq<Event>, from: nat, n: nat)
    requires from <= n < |events| && SinceLastReset(cfg, events, from, n)
    requires events[n].Failure? && StateAt(cfg, events, n).mode != HalfOpen
    ensures var s, t := StateAt(cfg, events, n), StateAt(cfg, events, n + 1);
            if ReachesThreshold(cfg, events, from, n) then t.mode == Open && t.openedAt == events[n].now
            else t.mode == s.mode && t.openedAt == s.openedAt
  {
    hide Counted, StateAt, AfterFailure, SinceLastReset;
    StillSince(cfg, events, from, n);
    CountersAreOutcomes(cfg, events, from, n + 1);
    FailureStep(cfg, StateAt(cfg, events, n), events[n].now);
    NextState(cfg, events, n);
  }

  lemma NextState(cfg: Config, events: seq<Event>, n: nat)
    requires n < |events|
    ensures StateAt(cfg, events, n + 1) == Step(cfg, StateAt(cfg, events, n), events[n])
  {
  }

  lemma StillSince(cfg: Config, events: seq<Event>, from: nat, n: nat)
    requires from <= n < |events| && SinceLastReset(cfg, events, from, n) && !events[n].Success?
    ensures SinceLastReset(cfg, events, from, n + 1)
  {
  }

  lemma FailureStep(cfg: Config, s: State, now: int)
    requires s.mode != HalfOpen
    ensures var t := AfterFailure(cfg, s, now);
            && t.successes == s.successes && t.failures == s.failures + 1
            && if 100.0 * t.failures as real >= cfg.errorThresholdPct * (t.successes + t.failures) as real
               then t.mode == Open && t.openedAt == now
               else t.mode == s.mode && t.openedAt == s.openedAt
  {
    hide FailurePct;
    PctReaches(s.successes, s.failures + 1, cfg.errorThresholdPct);
  }

  /** Everything else: only a success half-open closes the breaker, with both counters at zero; a failure half-open
      opens it; a check takes an open one half-open exactly from the reset time on. */
  lemma OtherEvents(cfg: Config, events: seq<Event>, n: nat)
    requires n < |events| && (events[n].Failure? ==> StateAt(cfg, events, n).mode == HalfOpen)
    ensures var s, t, e := StateAt(cfg, events, n), StateAt(cfg, events, n + 1), events[n];
            && (e.Success? && s.mode == HalfOpen ==> t == State(Closed, s.openedAt, 0, 0))
            && (e.Success? && s.mode != HalfOpen ==> t.mode == s.mode && t.openedAt == s.openedAt)
            && (e.Failure? ==> t == State(Open, e.now, s.successes, s.failures))
            && (e.Check? && s.mode == Open && e.now - s.openedAt >= cfg.resetMs ==>
                  t == State(HalfOpen, s.openedAt, s.successes, s.failures))
            && (e.Check? && !(s.mode == Open && e.now - s.openedAt >= cfg.resetMs) ==> t == s)
  {
  }

  // ----- an open breaker stays shut -----

  predicate TimesFrom(events: seq<Event>, t: int)
    decreases events
  {
    events == [] || (events[0].now >= t && TimesFrom(events[1..], events[0].now))
  }

  function Run(cfg: Config, s: State, events: seq<Event>): State
    decreases events
  {
    if events == [] then s else Run(cfg, Step(cfg, s, events[0]), events[1..])
  }

  /** From the moment it opens until its reset time an open breaker admits nothing and stays open, whatever
      calls admitted earlier do; their failures can only move the reset time later. */
  lemma {:induction false} OpenStaysShut(cfg: Config, s: State, events: seq<Event>, now: int)
    requires s.mode == Open && TimesFrom(events, s.openedAt)
    requires forall i :: 0 <= i < |events| ==> events[i].now <= now
    requires s.openedAt <= now < s.openedAt + cfg.resetMs
    ensures var t := Run(cfg, s, events);
            t.mode == Open && s.openedAt <= t.openedAt <= now && !Admits(cfg, t, now)
    decreases events
  {
    if events != [] {
      var t := Step(cfg, s, events[0]);
      var later := events[1..];
      assert t.mode == Open && s.openedAt <= t.openedAt <= events[0].now;
      assert forall i :: 0 <= i < |later| ==> later[i] == events[i + 1];
      OpenStaysShut(cfg, t, later, now);
    }
  }

  // ----- the breaker as the source has it -----

  class AdapterBreaker {
    const config: Option<Config>
    var breakerState: Mode
    var breakerOpenedAt: int
    var successes: nat
    var failures: nat

    ghost function Current(): State
      reads this
    {
      State(breakerState, breakerOpenedAt, successes, failures)
    }

    constructor (config: Option<Config>)
      ensures this.config == config && Current() == Init()
    {
      this.config := config;
      breakerState, breakerOpenedAt, successes, failures := Closed, 0, 0, 0;
    }

    method OpenBreaker(now: int)
      modifies this
      ensures Current() == old(Current()).(mode := Open, openedAt := now)
    {
      breakerState := Open;
      breakerOpenedAt := now;
    }

    method BeforeBreakerCall(now: int) returns (admitted: bool)
      modifies this
      ensures config.None? ==> admitted && Current() == old(Current())
      ensures config.Some? ==> (admitted <==> old(breakerState) != Open || now - old(breakerOpenedAt) >= config.value.resetMs)
      ensures config.Some? ==> Current() == Step(config.value, old(Current()), Check(now))
    {
      if config.None? || breakerState != Open {
        return true;
      }
      if now - breakerOpenedAt >= config.value.resetMs {
        breakerState := HalfOpen;
        return true;
      }
      return false;
    }

    method AfterBreakerSuccess(now: int)
      modifies this
      ensures config.None? ==> Current() == old(Current())
      ensures config.Some? ==> Current() == Step(config.value, old(Current()), Success(now))
    {
      if config.None? {
        return;
      }
      if breakerState == HalfOpen {
        breakerState := Closed;
        successes := 0;
        failures := 0;
        return;
      }
      successes := successes + 1;
    }

    method AfterBreakerFailure(now: int)
      modifies this
      ensures config.None? ==> Current() == old(Current())
      ensures config.Some? ==> Current() == Step(config.value, old(Current()), Failure(now))
      ensures config.Some? && old(breakerState) != HalfOpen ==>
                var reached := 100.0 * failures as real >= config.value.errorThresholdPct * (successes + failures) as real;
                && successes == old(successes) && failures == old(failures) + 1
                && breakerState == (if reached then Open else old(breakerState))
                && breakerOpenedAt == (if reached then now else old(breakerOpenedAt))
    {
      if config.None? {
        return;
      }
      PctReaches(successes, failures + 1, config.value.errorThresholdPct);
      if breakerState == HalfOpen {
        OpenBreaker(now);
        return;
      }
      failures := failures + 1;
      var total := successes + failures;
      var failurePct := if total == 0 then 0.0 else failures as real / total as real * 100.0;
      if failurePct >= config.value.errorThresholdPct {
        OpenBreaker(now);
      }
    }
  }
}
