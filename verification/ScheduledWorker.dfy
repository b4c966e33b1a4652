/** The worker that runs scheduled checks: a timer claims due records in batches, each batch runs its records
    one after another under a time limit, and batches of different ticks overlap. */
module ScheduledWorker {
  import opened CodeUnits
  import opened JoinedNames
  import JsonText
  import opened Options
  import opened ScheduledStore

  const CLAIM_LIMIT := 100
  const MIN_LEASE_MS := 30000
  const MAX_ATTEMPTS := 10

  /** The delay before a rule's check and how long after the event it may still be repeated. */
  datatype Strategy = Strategy(delayMs: nat, deadlineMs: Option<nat>)

  datatype Config = Config(pollMs: nat, evalTimeoutMs: nat, rules: map<Text, Strategy>)

  function LeaseMs(cfg: Config): (l: nat)
    ensures l >= 30000 && l >= 2 * cfg.pollMs && (l == 30000 || l == 2 * cfg.pollMs)
  {
    if 2 * cfg.pollMs > MIN_LEASE_MS then 2 * cfg.pollMs else MIN_LEASE_MS
  }

  /** A claim being worked off: the records before `next` are done, the one at `next` runs since `startedAt`. */
  datatype Batch = Batch(claimedAt: int, recs: seq<Record>, next: nat, startedAt: int)

  /** Failed runs are counted per scheduling of a record, under identifiers and time joined by a character of
      their own. */
  function AttemptName(rule: Text, key: Text, scheduledAt: int): Text
  {
    Joined(rule, NUL, Joined(key, NUL, JsonText.Decimal(scheduledAt)))
  }

  function NameOf(r: Record): Text { AttemptName(r.rule, r.key, r.scheduledAt) }

  /** How a run ended, and the name it is counted under. */
  datatype End = End(name: Text, failed: bool)

  datatype RecordKey = RecordKey(rule: Text, key: Text)

  /** `timer` is when the timer of a started worker was last set; `repeated` holds the keys whose check has asked
      to be repeated since they were last enqueued. */
  datatype State = State(
    store: Store,
    batches: seq<Batch>,
    timer: Option<int>,
    attempts: map<Text, nat>,
    now: int,
    ended: seq<End>,
    repeated: set<RecordKey>)

  function Init(start: int): State { State(Empty(), [], None, map[], start, [], {}) }

  /** What a run comes to: no registry or no such rule, the verdict of the rule's check with its actions done,
      or an error, which includes running out of time. */
  datatype Outcome = NoRegistry | RuleGone | Pass | Skip | Recheck(after: nat) | Fails

  datatype Event =
    | DoStart
    | DoStop
    | DoTick(registry: bool)
    | DoEnqueue(rule: Text, key: Text, payload: nat)
    | DoFinish(b: nat, outcome: Outcome)
    | DoAdvance(ms: nat)

  // ----- steps -----

  function NewRecord(cfg: Config, now: int, rule: Text, key: Text, payload: nat): Record
    requires rule in cfg.rules
  {
    var strat := cfg.rules[rule];
    var deadline := if strat.deadlineMs.Some? then Some(now + strat.deadlineMs.value) else None;
    Record(rule, key, now + strat.delayMs, now, deadline, payload)
  }

  predicate Running(s: State, b: nat) { b < |s.batches| && s.batches[b].next < |s.batches[b].recs| }

  function Current(s: State, b: nat): Record
    requires Running(s, b)
  {
    s.batches[b].recs[s.batches[b].next]
  }

  predicate PastDeadline(r: Record, newRunAt: int) { r.deadline.Some? && newRunAt > r.deadline.value }

  /** The store after a run of `r` that did not fail. */
  function StoreAfter(s: Store, r: Record, outcome: Outcome, now: int): Store
  {
    match outcome
    case RuleGone => Remove(s, r.rule, r.key)
    case Pass => Remove(s, r.rule, r.key)
    case Skip => Remove(s, r.rule, r.key)
    case Recheck(after) =>
      if PastDeadline(r, now + after) then Remove(s, r.rule, r.key) else Reschedule(s, r.rule, r.key, now + after)
    case _ => s
  }

  function AttemptsOf(attempts: map<Text, nat>, name: Text): nat { if name in attempts then attempts[name] else 0 }

  /** The run ends with the record of its key put off. */
  predicate PutsOff(s: State, r: Record, outcome: Outcome)
  {
    outcome.Recheck? && !PastDeadline(r, s.now + outcome.after)
  }

  /** The end of a run: a failed one is counted, and the record dropped at the last attempt. */
  function Ended(s: State, r: Record, outcome: Outcome): State
  {
    var name := NameOf(r);
    var t := s.(ended := s.ended + [End(name, outcome.Fails?)],
                repeated := s.repeated + (if PutsOff(s, r, outcome) then {RecordKey(r.rule, r.key)} else {}));
    if outcome.Fails? then
      var n := AttemptsOf(s.attempts, name) + 1;
      if n < MAX_ATTEMPTS then t.(attempts := s.attempts[name := n])
      else t.(attempts := s.attempts - {name}, store := Remove(s.store, r.rule, r.key))
    else t.(attempts := s.attempts - {name}, store := StoreAfter(s.store, r, outcome, s.now))
  }

  /** The watchdog: no time passes beyond the limit of a run. */
  predicate MayAdvance(cfg: Config, s: State, ms: nat)
  {
    forall b :: 0 <= b < |s.batches| && Running(s, b) ==> s.now + ms <= s.batches[b].startedAt + cfg.evalTimeoutMs
  }

  predicate MayTick(cfg: Config, s: State) { s.timer.Some? && s.now >= s.timer.value + cfg.pollMs }

  function Tick(cfg: Config, s: State, registry: bool): State
  {
    var t := s.(timer := Some(s.now));
    if registry then
      t.(store := Claim(s.store, s.now, CLAIM_LIMIT, LeaseMs(cfg)),
         batches := s.batches + [Batch(s.now, Claimed(s.store, s.now, CLAIM_LIMIT), 0, s.now)])
    else t
  }

  function Advanced(s: State, b: nat): seq<Batch>
    requires Running(s, b)
  {
    s.batches[b := s.batches[b].(next := s.batches[b].next + 1, startedAt := s.now)]
  }

  function Step(cfg: Config, s: State, e: Event): State
  {
    match e
    case DoStart => if s.timer.None? then s.(timer := Some(s.now)) else s
    case DoStop => s.(timer := None)
    case DoTick(registry) => if MayTick(cfg, s) then Tick(cfg, s, registry) else s
    case DoEnqueue(rule, key, payload) =>
      if rule in cfg.rules then
        s.(store := Enqueue(s.store, NewRecord(cfg, s.now, rule, key, payload)),
           repeated := s.repeated - {RecordKey(rule, key)})
      else s
    case DoFinish(b, outcome) =>
      if Running(s, b) then Ended(s, Current(s, b), outcome).(batches := Advanced(s, b)) else s
    case DoAdvance(ms) => if MayAdvance(cfg, s, ms) then s.(now := s.now + ms) else s
  }

  function Run(cfg: Config, s: State, events: seq<Event>): State
    decreases events
  {
    if events == [] then s else Run(cfg, Step(cfg, s, events[0]), events[1..])
  }

  // ----- attempts -----

  /** How often the runs counted under a name have failed since the last one that did not. */
  function FailuresInARow(ended: seq<End>, name: Text): nat
  {
    if ended == [] then 0
    else
      var last, before := ended[|ended| - 1], FailuresInARow(ended[..|ended| - 1], name);
      if last.name != name then before else if last.failed then before + 1 else 0
  }

  /** The counter of a name holds its failures in a row since the last drop, which comes with every tenth. */
  predicate CounterMatches(attempts: map<Text, nat>, ended: seq<End>, name: Text)
  {
    && AttemptsOf(attempts, name) == FailuresInARow(ended, name) % MAX_ATTEMPTS
    && (name in attempts ==> 1 <= attempts[name] < MAX_ATTEMPTS)
  }

  ghost predicate CountersMatch(s: State) { forall name :: CounterMatches(s.attempts, s.ended, name) }

  lemma EndedCount(ended: seq<End>, e: End, name: Text)
    ensures FailuresInARow(ended + [e], name)
            == if e.name != name then FailuresInARow(ended, name)
               else if e.failed then FailuresInARow(ended, name) + 1
               else 0
  {
    assert (ended + [e])[..|ended|] == ended;
  }

  lemma EndedKeepsCounter(s: State, r: Record, outcome: Outcome, name: Text)
    requires CounterMatches(s.attempts, s.ended, name)
    ensures var t := Ended(s, r, outcome); CounterMatches(t.attempts, t.ended, name)
  {
    hide FailuresInARow, StoreAfter, Remove, NameOf;
    EndedCount(s.ended, End(NameOf(r), outcome.Fails?), name);
  }

  /** In every run of the worker the counter of a name is the failures in a row of the runs counted under it,
      modulo ten, and between one and nine where there is one. */
  lemma {:induction false} CountersAlwaysMatch(cfg: Config, s: State, events: seq<Event>)
    requires CountersMatch(s)
    ensures CountersMatch(Run(cfg, s, events))
    decreases events
  {
    hide CounterMatches, Ended;
    if events != [] {
      var e, t := events[0], Step(cfg, s, events[0]);
      if e.DoFinish? && Running(s, e.b) {
        forall name ensures CounterMatches(t.attempts, t.ended, name) {
          EndedKeepsCounter(s, Current(s, e.b), e.outcome, name);
        }
      }
      assert CountersMatch(t);
      hide CountersMatch, Step;
      CountersAlwaysMatch(cfg, t, events[1..]);
    }
  }

  lemma InitCounters(start: int)
    ensures CountersMatch(Init(start))
  {
  }

  /** A failing run drops its record exactly when it is the tenth in a row since the last drop; otherwise it
      leaves the store alone. */
  lemma DropAtTheTenth(cfg: Config, start: int, events: seq<Event>, b: nat)
    ensures var s := Run(cfg, Init(start), events);
            Running(s, b) ==>
              var r, t := Current(s, b), Step(cfg, s, DoFinish(b, Fails));
              t.store == if FailuresInARow(t.ended, NameOf(r)) % MAX_ATTEMPTS == 0 then Remove(s.store, r.rule, r.key) else s.store
  {
    hide Run, FailuresInARow, Remove, NameOf;
    InitCounters(start);
    CountersAlwaysMatch(cfg, Init(start), events);
    var s := Run(cfg, Init(start), events);
    if Running(s, b) {
      var name := NameOf(Current(s, b));
      EndedCount(s.ended, End(name, true), name);
      assert CounterMatches(s.attempts, s.ended, name);
    }
  }

  // ----- the names of the counters -----

  lemma DecimalHasNoNul(n: int)
    ensures NUL !in JsonText.Decimal(n)
  {
    JsonText.DigitsAreDigits(if n < 0 then -n else n);
  }

  /** The names tell apart all records of one rule, and those of rules that do not clash. */
  lemma AttemptNamesTellApart(rule: Text, key: Text, at: int, rule': Text, key': Text, at': int)
    requires rule == rule' || !Clash(NUL, rule, rule')
    ensures AttemptName(rule, key, at) == AttemptName(rule', key', at') <==> rule == rule' && key == key' && at == at'
  {
    hide Clash, Joined;
    var x, x' := JsonText.Decimal(at), JsonText.Decimal(at');
    if AttemptName(rule, key, at) == AttemptName(rule', key', at') {
      SameNamesClash(NUL, rule, Joined(key, NUL, x), rule', Joined(key', NUL, x'));
      DecimalHasNoNul(at);
      DecimalHasNoNul(at');
      LastPart(NUL, key, x, key', x');
      JsonText.IntRoundTrip(at, []);
      JsonText.IntRoundTrip(at', []);
      assert x + [] == x && x' + [] == x';
    }
  }

  /** Records of two rules can be counted under one name exactly when one identifier with the joining character
      begins the other. */
  lemma AttemptNamesClashIff(rule: Text, other: Text)
    ensures (exists key, at, key', at' :: AttemptName(rule, key, at) == AttemptName(other, key', at'))
            <==> Clash(NUL, rule, other)
  {
    if key, at, key', at' :| AttemptName(rule, key, at) == AttemptName(other, key', at') {
      SameNamesClash(NUL, rule, Joined(key, NUL, JsonText.Decimal(at)), other, Joined(key', NUL, JsonText.Decimal(at')));
    }
    if rule == other {
      assert AttemptName(rule, [], 0) == AttemptName(other, [], 0);
    } else if rule + [NUL] <= other + [NUL] {
      var key := SharedName(rule, other);
    } else if other + [NUL] <= rule + [NUL] {
      var key := SharedName(other, rule);
    }
  }

  /** Two records whose failures are counted together. */
  lemma SharedName(rule: Text, other: Text) returns (key: Text)
    requires rule + [NUL] <= other + [NUL] && rule != other
    ensures AttemptName(rule, key, 0) == AttemptName(other, [], 0)
  {
    var rest := Remainder(NUL, rule, other);
    key := Joined(rest, NUL, []);
  }

  // ----- deadlines -----

  /** What is known of a record: when it was scheduled and the deadline that gives. */
  predicate Fits(cfg: Config, r: Record, now: int)
  {
    && r.rule in cfg.rules && r.scheduledAt <= now
    && r.deadline == (if cfg.rules[r.rule].deadlineMs.Some?
        then Some(r.scheduledAt + cfg.rules[r.rule].deadlineMs.value) else None)
  }

  /** A record whose check has not been repeated is due at the time it was enqueued with, any other by its
      deadline. */
  predicate DueInTime(cfg: Config, repeated: set<RecordKey>, r: Record)
    requires r.rule in cfg.rules
  {
    if RecordKey(r.rule, r.key) in repeated then !PastDeadline(r, r.runAt)
    else r.runAt == r.scheduledAt + cfg.rules[r.rule].delayMs
  }

  /** `c` is a claimed copy of what is, or is older than, the record under its key. */
  predicate NotNewer(c: Record, groups: seq<Group>)
  {
    var r := Get(groups, c.rule, c.key);
    r.Some? ==> c.scheduledAt <= r.value.scheduledAt
  }

  ghost predicate DeadlinesKept(cfg: Config, s: State)
  {
    && ValidGroups(s.store.groups)
    && (forall rule, key :: Get(s.store.groups, rule, key).Some? ==>
                            var r := Get(s.store.groups, rule, key).value;
                            && r.rule == rule && r.key == key && Fits(cfg, r, s.now) && DueInTime(cfg, s.repeated, r))
    && (forall b, i :: 0 <= b < |s.batches| && 0 <= i < |s.batches[b].recs| ==>
                         Fits(cfg, s.batches[b].recs[i], s.now) && NotNewer(s.batches[b].recs[i], s.store.groups))
  }

  lemma InitDeadlines(cfg: Config, start: int)
    ensures DeadlinesKept(cfg, Init(start))
  {
  }

  /** Every record of `t` was in `s`, or is `r`; claimed copies stay not newer. */
  ghost predicate OnlyChanges(s: seq<Group>, t: seq<Group>, rule: Text, key: Text, r: Option<Record>)
  {
    forall rule', key' :: Get(t, rule', key') == if rule' == rule && key' == key then r else Get(s, rule', key')
  }

  lemma RemoveChanges(s: Store, rule: Text, key: Text)
    requires ValidGroups(s.groups)
    ensures ValidGroups(Remove(s, rule, key).groups)
    ensures OnlyChanges(s.groups, Remove(s, rule, key).groups, rule, key, None)
  {
    forall rule', key'
      ensures Get(Remove(s, rule, key).groups, rule', key') ==
              if rule' == rule && key' == key then None else Get(s.groups, rule', key')
    {
      GetDrop(s.groups, rule, key, rule', key');
    }
    GetDrop(s.groups, rule, key, rule, key);
  }

  lemma PutChanges(groups: seq<Group>, r: Record)
    requires ValidGroups(groups)
    ensures ValidGroups(Put(groups, r)) && OnlyChanges(groups, Put(groups, r), r.rule, r.key, Some(r))
  {
    forall rule', key'
      ensures Get(Put(groups, r), rule', key') == if rule' == r.rule && key' == r.key then Some(r) else Get(groups, rule', key')
    {
      GetPut(groups, r, rule', key');
    }
    GetPut(groups, r, r.rule, r.key);
  }

  /** A change under one key keeps the deadlines when what it leaves there fits and is no older than the copies. */
  lemma ChangeKeepsDeadlines(cfg: Config, s: State, t: State, rule: Text, key: Text, r: Option<Record>)
    requires DeadlinesKept(cfg, s) && ValidGroups(t.store.groups) && t.now == s.now
    requires OnlyChanges(s.store.groups, t.store.groups, rule, key, r)
    requires t.repeated - {RecordKey(rule, key)} == s.repeated - {RecordKey(rule, key)}
    requires r.Some? ==> r.value.rule == rule && r.value.key == key
    requires r.Some? ==> Fits(cfg, r.value, s.now) && DueInTime(cfg, t.repeated, r.value)
    requires r.Some? ==> r.value.scheduledAt == s.now
                         || (Get(s.store.groups, rule, key).Some?
                             && Get(s.store.groups, rule, key).value.scheduledAt == r.value.scheduledAt)
    requires |t.batches| == |s.batches| && forall b :: 0 <= b < |s.batches| ==> t.batches[b].recs == s.batches[b].recs
    ensures DeadlinesKept(cfg, t)
  {
    hide ValidGroups, Get, PastDeadline;
    forall rule', key' | Get(t.store.groups, rule', key').Some?
      ensures var x := Get(t.store.groups, rule', key').value;
              x.rule == rule' && x.key == key' && Fits(cfg, x, t.now) && DueInTime(cfg, t.repeated, x)
    {
      var other := RecordKey(rule', key');
      if other != RecordKey(rule, key) {
        assert other in t.repeated - {RecordKey(rule, key)} <==> other in s.repeated - {RecordKey(rule, key)};
      }
    }
    forall b, i | 0 <= b < |t.batches| && 0 <= i < |t.batches[b].recs|
      ensures Fits(cfg, t.batches[b].recs[i], t.now) && NotNewer(t.batches[b].recs[i], t.store.groups)
    {
      var c := s.batches[b].recs[i];
      assert Fits(cfg, c, s.now) && NotNewer(c, s.store.groups);
    }
  }

  lemma TickKeepsDeadlines(cfg: Config, s: State, registry: bool)
    requires DeadlinesKept(cfg, s)
    ensures DeadlinesKept(cfg, Tick(cfg, s, registry))
  {
    var t := Tick(cfg, s, registry);
    if registry {
      ClaimReturns(s.store, s.now, CLAIM_LIMIT);
      hide ValidGroups, Get, Fits, Claimed, LeaseAll;
      var claimed := Claimed(s.store, s.now, CLAIM_LIMIT);
      forall b, i | 0 <= b < |t.batches| && 0 <= i < |t.batches[b].recs|
        ensures Fits(cfg, t.batches[b].recs[i], t.now) && NotNewer(t.batches[b].recs[i], t.store.groups)
      {
        if b == |s.batches| { assert claimed[i] in claimed; assert Available(s.store, claimed[i], s.now); }
      }
    }
  }

  lemma AdvanceKeepsDeadlines(cfg: Config, s: State, t: State)
    requires DeadlinesKept(cfg, s) && t.store == s.store && t.batches == s.batches && t.repeated == s.repeated
    requires t.now >= s.now
    ensures DeadlinesKept(cfg, t)
  {
    hide ValidGroups, Get;
  }

  /** A repeated check is due by the deadline of the record it repeats, even when what it reschedules is a newer
      record that took its place: that one's deadline is later still. */
  lemma PutOffKeepsDeadlines(cfg: Config, s: State, b: nat, outcome: Outcome)
    requires DeadlinesKept(cfg, s) && Running(s, b) && PutsOff(s, Current(s, b), outcome)
    ensures DeadlinesKept(cfg, Step(cfg, s, DoFinish(b, outcome)))
  {
    var t, r := Step(cfg, s, DoFinish(b, outcome)), Current(s, b);
    var there := Get(s.store.groups, r.rule, r.key);
    assert Fits(cfg, r, s.now) && NotNewer(r, s.store.groups);
    if there.Some? {
      var moved := there.value.(runAt := s.now + outcome.after);
      PutChanges(s.store.groups, moved);
      hide ValidGroups, Get, Put, NameOf;
      ChangeKeepsDeadlines(cfg, s, t, r.rule, r.key, Some(moved));
    } else {
      hide ValidGroups, Get, NameOf;
      ChangeKeepsDeadlines(cfg, s, t, r.rule, r.key, None);
    }
  }

  lemma FinishKeepsDeadlines(cfg: Config, s: State, b: nat, outcome: Outcome)
    requires DeadlinesKept(cfg, s) && Running(s, b)
    ensures DeadlinesKept(cfg, Step(cfg, s, DoFinish(b, outcome)))
  {
    var t, r := Step(cfg, s, DoFinish(b, outcome)), Current(s, b);
    hide ValidGroups, Get, Remove, PastDeadline, NameOf;
    RemoveChanges(s.store, r.rule, r.key);
    if PutsOff(s, r, outcome) {
      PutOffKeepsDeadlines(cfg, s, b, outcome);
    } else if t.store == s.store {
      ChangeKeepsDeadlines(cfg, s, t, r.rule, r.key, Get(s.store.groups, r.rule, r.key));
    } else {
      ChangeKeepsDeadlines(cfg, s, t, r.rule, r.key, None);
    }
  }

  lemma EnqueueKeepsDeadlines(cfg: Config, s: State, rule: Text, key: Text, payload: nat)
    requires DeadlinesKept(cfg, s) && rule in cfg.rules
    ensures DeadlinesKept(cfg, Step(cfg, s, Event.DoEnqueue(rule, key, payload)))
  {
    var r := NewRecord(cfg, s.now, rule, key, payload);
    PutChanges(s.store.groups, r);
    hide ValidGroups, Get, Put;
    ChangeKeepsDeadlines(cfg, s, Step(cfg, s, Event.DoEnqueue(rule, key, payload)), rule, key, Some(r));
  }

  lemma StepKeepsDeadlines(cfg: Config, s: State, e: Event)
    requires DeadlinesKept(cfg, s)
    ensures DeadlinesKept(cfg, Step(cfg, s, e))
  {
    hide DeadlinesKept, Ended, Tick;
    match e
    case DoStart => AdvanceKeepsDeadlines(cfg, s, Step(cfg, s, e));
    case DoStop => AdvanceKeepsDeadlines(cfg, s, Step(cfg, s, e));
    case DoTick(registry) => if MayTick(cfg, s) { TickKeepsDeadlines(cfg, s, registry); }
    case DoEnqueue(rule, key, payload) => if rule in cfg.rules { EnqueueKeepsDeadlines(cfg, s, rule, key, payload); }
    case DoFinish(b, outcome) => if Running(s, b) { FinishKeepsDeadlines(cfg, s, b, outcome); }
    case DoAdvance(ms) => AdvanceKeepsDeadlines(cfg, s, Step(cfg, s, e));
  }

  lemma {:induction false} DeadlinesAlwaysKept(cfg: Config, s: State, events: seq<Event>)
    requires DeadlinesKept(cfg, s)
    ensures DeadlinesKept(cfg, Run(cfg, s, events))
    decreases events
  {
    if events != [] {
      StepKeepsDeadlines(cfg, s, events[0]);
      hide DeadlinesKept, Step;
      DeadlinesAlwaysKept(cfg, Step(cfg, s, events[0]), events[1..]);
    }
  }

  /** In every run, whatever overlaps and whatever replaces claimed records: a record whose check has not been
      repeated since it was enqueued is due one delay after that, any other by the deadline counted from there. */
  lemma RechecksMeetDeadlines(cfg: Config, start: int, events: seq<Event>, rule: Text, key: Text)
    ensures var s := Run(cfg, Init(start), events);
            Get(s.store.groups, rule, key).Some? ==>
              var r := Get(s.store.groups, rule, key).value;
              && r.rule == rule && rule in cfg.rules && r.scheduledAt <= s.now
              && (RecordKey(rule, key) !in s.repeated ==> r.runAt == r.scheduledAt + cfg.rules[rule].delayMs)
              && (RecordKey(rule, key) in s.repeated && cfg.rules[rule].deadlineMs.Some? ==>
                    r.runAt <= r.scheduledAt + cfg.rules[rule].deadlineMs.value)
  {
    hide Run;
    InitDeadlines(cfg, start);
    DeadlinesAlwaysKept(cfg, Init(start), events);
  }

  // ----- what a run and a tick leave behind -----

  /** The check is not to be run again: it passed or was skipped, its rule is gone, or it asked to be repeated at a
      time past the deadline. */
  predicate Finishes(r: Record, outcome: Outcome, now: int)
  {
    || outcome.Pass? || outcome.Skip? || outcome.RuleGone?
    || (outcome.Recheck? && r.deadline.Some? && now + outcome.after > r.deadline.value)
  }

  /** What a run that did not fail does to the store. */
  ghost predicate CheckOutcome(s: Store, t: Store, r: Record, outcome: Outcome, now: int)
  {
    if Finishes(r, outcome, now) then Gone(s, t, r.rule, r.key)
    else if outcome.Recheck? then Moved(s, t, r.rule, r.key, now + outcome.after)
    else t == s
  }

  lemma StoreAfterOutcome(s: Store, r: Record, outcome: Outcome, now: int)
    requires ValidGroups(s.groups) && !outcome.Fails?
    ensures CheckOutcome(s, StoreAfter(s, r, outcome, now), r, outcome, now)
  {
    hide Gone, Moved, Remove, Reschedule;
    RemoveOutcome(s, r.rule, r.key);
    if outcome.Recheck? { RescheduleOutcome(s, r.rule, r.key, now + outcome.after); }
  }

  /** The end of a run in every reachable state. A check that passes or is skipped, a rule that is gone and a repeat
      past the deadline take the record and its lease away; a repeat in time moves the record that is there; without a
      registry nothing happens; a failure takes the record away exactly at every tenth in a row. */
  lemma FinishOutcome(cfg: Config, start: int, events: seq<Event>, b: nat, outcome: Outcome)
    ensures var s := Run(cfg, Init(start), events);
            Running(s, b) ==>
              var r, t := Current(s, b), Step(cfg, s, DoFinish(b, outcome));
              && (!outcome.Fails? ==> CheckOutcome(s.store, t.store, r, outcome, s.now))
              && (outcome.Fails? ==>
                    if FailuresInARow(t.ended, NameOf(r)) % 10 == 0 then Gone(s.store, t.store, r.rule, r.key)
                    else t.store == s.store)
              && t.now == s.now && t.timer == s.timer && |t.batches| == |s.batches|
              && (forall c :: 0 <= c < |s.batches| && c != b ==> t.batches[c] == s.batches[c])
              && t.batches[b] == s.batches[b].(next := s.batches[b].next + 1, startedAt := s.now)
  {
    hide Run, Gone, CheckOutcome, Remove, StoreAfter, FailuresInARow, NameOf, DeadlinesKept;
    InitDeadlines(cfg, start);
    DeadlinesAlwaysKept(cfg, Init(start), events);
    DropAtTheTenth(cfg, start, events, b);
    var s := Run(cfg, Init(start), events);
    KeptIsValid(cfg, s);
    if Running(s, b) {
      var r := Current(s, b);
      if outcome.Fails? { RemoveOutcome(s.store, r.rule, r.key); } else { StoreAfterOutcome(s.store, r, outcome, s.now); }
    }
  }

  lemma KeptIsValid(cfg: Config, s: State)
    requires DeadlinesKept(cfg, s)
    ensures ValidGroups(s.store.groups)
  {
  }

  /** Enqueueing for a scheduling rule puts a new record under the key, due a delay from now and with the deadline
      counted from now, and frees the key's lease; for any other rule nothing happens. */
  lemma EnqueueEventOutcome(cfg: Config, start: int, events: seq<Event>, rule: Text, key: Text, payload: nat)
    ensures var s := Run(cfg, Init(start), events);
            var t := Step(cfg, s, Event.DoEnqueue(rule, key, payload));
            if rule in cfg.rules then
              var due := cfg.rules[rule].deadlineMs;
              var r := Record(rule, key, s.now + cfg.rules[rule].delayMs, s.now,
                              if due.Some? then Some(s.now + due.value) else None, payload);
              && Freed(s.store.leases, t.store.leases, LeaseKey(rule, key))
              && (forall rule', key' :: Get(t.store.groups, rule', key') ==
                                        if rule' == rule && key' == key then Some(r) else Get(s.store.groups, rule', key'))
              && t.batches == s.batches && t.now == s.now && t.timer == s.timer && t.attempts == s.attempts
            else t == s
  {
    hide Run, DeadlinesKept, Get, Freed;
    InitDeadlines(cfg, start);
    DeadlinesAlwaysKept(cfg, Init(start), events);
    var s := Run(cfg, Init(start), events);
    KeptIsValid(cfg, s);
    if rule in cfg.rules { EnqueueOutcome(s.store, NewRecord(cfg, s.now, rule, key, payload)); }
  }

  /** A tick that is due sets the timer again; with a registry it also claims, as one more batch, under the lease
      time: twice the poll, but at least thirty seconds. Nothing else claims. */
  lemma TickOutcome(cfg: Config, s: State, e: Event)
    ensures var t := Step(cfg, s, e);
            if e.DoTick? && s.timer.Some? && s.now >= s.timer.value + cfg.pollMs then
              && t.timer == Some(s.now)
              && (if e.registry then
                    var leaseMs := if 2 * cfg.pollMs > 30000 then 2 * cfg.pollMs else 30000;
                    && t.store == Apply(s.store, DoClaim(s.now, 100, leaseMs))
                    && t.batches == s.batches + [Batch(s.now, Claimed(s.store, s.now, 100), 0, s.now)]
                  else t.store == s.store && t.batches == s.batches)
            else
              && |t.batches| == |s.batches| && (forall c :: 0 <= c < |s.batches| ==> t.batches[c].recs == s.batches[c].recs)
              && (t.timer == s.timer || e.DoStart? || e.DoStop?)
  {
    hide Claim, Claimed, NameOf, Remove, Reschedule, Enqueue;
  }

  /** A start sets the timer of a worker that has none, and only that; a stop takes the timer away. */
  lemma StartStopOutcome(cfg: Config, s: State)
    ensures Step(cfg, s, DoStart) == if s.timer.Some? then s else s.(timer := Some(s.now))
    ensures Step(cfg, s, DoStop) == s.(timer := None)
  {
  }

  /** No event after a stop claims anything until the next start. */
  lemma {:induction false} StoppedClaimsNothing(cfg: Config, s: State, events: seq<Event>)
    requires s.timer.None? && DoStart !in events
    ensures var t := Run(cfg, s, events); |t.batches| == |s.batches| && t.timer.None?
    decreases events
  {
    if events != [] {
      assert events[0] in events && forall e :: e in events[1..] ==> e in events;
      TickOutcome(cfg, s, events[0]);
      hide Step;
      StopsTimer(cfg, s, events[0]);
      StoppedClaimsNothing(cfg, Step(cfg, s, events[0]), events[1..]);
    }
  }

  lemma StopsTimer(cfg: Config, s: State, e: Event)
    ensures e.DoStop? || (s.timer.None? && !e.DoStart?) ==> Step(cfg, s, e).timer.None?
  {
    hide Ended;
    if e.DoFinish? && Running(s, e.b) { EndedLeaves(s, Current(s, e.b), e.outcome); }
  }

  lemma EndedLeaves(s: State, r: Record, outcome: Outcome)
    ensures Ended(s, r, outcome).timer == s.timer && Ended(s, r, outcome).now == s.now
  {
  }

  /** The batch has claimed the record of a key. */
  predicate Takes(b: Batch, rule: Text, key: Text)
  {
    exists i :: 0 <= i < |b.recs| && b.recs[i].rule == rule && b.recs[i].key == key
  }

  /** Without a record of the key, an event other than its enqueueing brings none and claims none. */
  lemma StaysGone(cfg: Config, s: State, e: Event, rule: Text, key: Text)
    requires DeadlinesKept(cfg, s) && Get(s.store.groups, rule, key) == None
    requires !(e.DoEnqueue? && e.rule == rule && e.key == key)
    ensures var t := Step(cfg, s, e);
            && Get(t.store.groups, rule, key) == None
            && |t.batches| >= |s.batches|
            && (forall c :: 0 <= c < |s.batches| ==> t.batches[c].recs == s.batches[c].recs)
            && forall c :: |s.batches| <= c < |t.batches| ==> !Takes(t.batches[c], rule, key)
  {
    KeptIsValid(cfg, s);
    TickOutcome(cfg, s, e);
    if e.DoEnqueue? && e.rule in cfg.rules {
      EnqueueOutcome(s.store, NewRecord(cfg, s.now, e.rule, e.key, e.payload));
    } else if e.DoTick? {
      ClaimReturns(s.store, s.now, CLAIM_LIMIT);
      hide ValidGroups, Get, Claimed, LeaseAll, DeadlinesKept;
      var claimed := Claimed(s.store, s.now, CLAIM_LIMIT);
      forall i | 0 <= i < |claimed| ensures claimed[i].rule != rule || claimed[i].key != key {
        assert claimed[i] in claimed && Available(s.store, claimed[i], s.now);
      }
    } else if e.DoFinish? && Running(s, e.b) {
      var r := Current(s, e.b);
      hide ValidGroups, Get, DeadlinesKept, Remove, Reschedule, NameOf;
      RemoveOutcome(s.store, r.rule, r.key);
      if e.outcome.Recheck? { RescheduleOutcome(s.store, r.rule, r.key, s.now + e.outcome.after); }
    }
  }

  /** A key without a record, as one that is finished, is in no later batch until it is enqueued again. */
  lemma {:induction false} GoneForGood(cfg: Config, s: State, events: seq<Event>, rule: Text, key: Text)
    requires DeadlinesKept(cfg, s) && Get(s.store.groups, rule, key) == None
    requires forall i :: 0 <= i < |events| ==> !(events[i].DoEnqueue? && events[i].rule == rule && events[i].key == key)
    ensures var t := Run(cfg, s, events);
            && |t.batches| >= |s.batches|
            && (forall c :: 0 <= c < |s.batches| ==> t.batches[c].recs == s.batches[c].recs)
            && forall c :: |s.batches| <= c < |t.batches| ==> !Takes(t.batches[c], rule, key)
    decreases events
  {
    if events != [] {
      var u := Step(cfg, s, events[0]);
      StepKeepsDeadlines(cfg, s, events[0]);
      StaysGone(cfg, s, events[0], rule, key);
      hide DeadlinesKept, Get, Step;
      GoneForGood(cfg, u, events[1..], rule, key);
    }
  }

  /** A check that is finished, at whatever point of whatever run, is in no later batch until its key is enqueued
      again: it does not run and its actions do not run. */
  lemma FinishedStaysFinished(cfg: Config, start: int, events: seq<Event>, b: nat, outcome: Outcome, later: seq<Event>)
    ensures var s := Run(cfg, Init(start), events);
            Running(s, b) && Finishes(Current(s, b), outcome, s.now) ==>
              var r, t := Current(s, b), Step(cfg, s, DoFinish(b, outcome));
              var u := Run(cfg, t, later);
              (forall i :: 0 <= i < |later| ==> !(later[i].DoEnqueue? && later[i].rule == r.rule && later[i].key == r.key)) ==>
                |u.batches| >= |t.batches| && forall c :: |t.batches| <= c < |u.batches| ==> !Takes(u.batches[c], r.rule, r.key)
  {
    hide Run, DeadlinesKept, Takes, Get;
    InitDeadlines(cfg, start);
    DeadlinesAlwaysKept(cfg, Init(start), events);
    FinishOutcome(cfg, start, events, b, outcome);
    var s := Run(cfg, Init(start), events);
    if Running(s, b) && Finishes(Current(s, b), outcome, s.now) {
      var r, t := Current(s, b), Step(cfg, s, DoFinish(b, outcome));
      StepKeepsDeadlines(cfg, s, DoFinish(b, outcome));
      hide Step, Freed;
      assert Get(t.store.groups, r.rule, r.key) == None;
      if forall i :: 0 <= i < |later| ==> !(later[i].DoEnqueue? && later[i].rule == r.rule && later[i].key == r.key) {
        GoneForGood(cfg, t, later, r.rule, r.key);
      }
    }
  }

  // ----- the worker as the source has it -----

  class Worker {
    const config: Config
    const schedStore: InMemoryScheduledStore
    var started: bool
    var stopped: bool
    var schedTimer: Option<int>
    var attempts: map<Text, nat>
    /** What the pending `processClaim` calls hold in their frames, and the clock. */
    var batches: seq<Batch>
    var now: int
    ghost var ended: seq<End>
    ghost var repeated: set<RecordKey>

    ghost function Now(): State
      reads this, schedStore
    {
      State(schedStore.Current(), batches, schedTimer, attempts, now, ended, repeated)
    }

    /** A timer is set exactly while the worker is started. */
    ghost predicate Ready()
      reads this
    {
      (schedTimer.Some? <==> started) && !(started && stopped)
    }

    constructor (config: Config, start: int)
      ensures Ready() && this.config == config && Now() == Init(start) && fresh(schedStore)
    {
      this.config := config;
      schedStore := new InMemoryScheduledStore();
      started, stopped, schedTimer := false, false, None;
      attempts, batches, now, ended, repeated := map[], [], start, [], {};
    }

    method Start()
      requires Ready()
      modifies this
      ensures Ready() && started && Now() == Step(config, old(Now()), DoStart)
    {
      if started {
        return;
      }
      started := true;
      stopped := false;
      ScheduleNextTick();
    }

    method Stop()
      requires Ready()
      modifies this
      ensures Ready() && !started && Now() == Step(config, old(Now()), DoStop)
    {
      stopped := true;
      started := false;
      if schedTimer.Some? {
        schedTimer := None;
      }
    }

    method ScheduleNextTick()
      modifies this`schedTimer
      ensures schedTimer == if started && !stopped then Some(now) else old(schedTimer)
    {
      if !started || stopped {
        return;
      }
      schedTimer := Some(now);
    }

    /** The timer's callback: the next timer is set before the claim. */
    method RunTick(registry: bool)
      requires Ready() && MayTick(config, Now())
      modifies this, schedStore
      ensures Ready() && Now() == Step(config, old(Now()), DoTick(registry))
    {
      schedTimer := None;
      ScheduleNextTick();
      if stopped || !registry {
        return;
      }
      var leaseMs := if config.pollMs * 2 > 30000 then config.pollMs * 2 else 30000;
      var claimed := schedStore.Claim(now, CLAIM_LIMIT, leaseMs);
      batches := batches + [Batch(now, claimed, 0, now)];
    }

    /** One turn of the loop over a claim, from the end of the record's check or actions on. */
    method FinishRun(b: nat, outcome: Outcome)
      requires Ready() && Running(Now(), b)
      modifies this, schedStore
      ensures Ready() && Now() == Step(config, old(Now()), DoFinish(b, outcome))
    {
      hide Remove, Reschedule, NameOf;
      var rec := batches[b].recs[batches[b].next];
      ended := ended + [End(NameOf(rec), outcome.Fails?)];
      repeated := repeated + (if PutsOff(Now(), rec, outcome) then {RecordKey(rec.rule, rec.key)} else {});
      if outcome.Fails? {
        HandleScheduledFailure(rec);
      } else {
        RunScheduledCheck(rec, outcome);
        ClearAttempts(rec);
      }
      batches := batches[b := batches[b].(next := batches[b].next + 1, startedAt := now)];
    }

    method RunScheduledCheck(rec: Record, outcome: Outcome)
      requires !outcome.Fails?
      modifies schedStore
      ensures schedStore.Current() == StoreAfter(old(schedStore.Current()), rec, outcome, now)
      ensures ValidGroups(old(schedStore.records)) ==> CheckOutcome(old(schedStore.Current()), schedStore.Current(), rec, outcome, now)
    {
      hide CheckOutcome, ValidGroups;
      if ValidGroups(schedStore.records) { StoreAfterOutcome(schedStore.Current(), rec, outcome, now); }
      match outcome {
        case NoRegistry =>
        case RuleGone => schedStore.Remove(rec.rule, rec.key);
        case Pass => schedStore.Remove(rec.rule, rec.key);
        case Skip => schedStore.Remove(rec.rule, rec.key);
        case Recheck(after) =>
          var newRunAt := now + after;
          if rec.deadline.Some? && newRunAt > rec.deadline.value {
            schedStore.Remove(rec.rule, rec.key);
          } else {
            schedStore.Reschedule(rec.rule, rec.key, newRunAt);
          }
      }
    }

    method ClearAttempts(rec: Record)
      modifies this`attempts
      ensures attempts == old(attempts) - {NameOf(rec)}
    {
      attempts := attempts - {NameOf(rec)};
    }

    method HandleScheduledFailure(rec: Record)
      modifies this`attempts, schedStore
      ensures var n := AttemptsOf(old(attempts), NameOf(rec)) + 1;
              if n < MAX_ATTEMPTS then
                && attempts == old(attempts)[NameOf(rec) := n]
                && schedStore.Current() == old(schedStore.Current())
              else
                && attempts == old(attempts) - {NameOf(rec)}
                && schedStore.Current() == Remove(old(schedStore.Current()), rec.rule, rec.key)
    {
      var key := NameOf(rec);
      var n := (if key in attempts then attempts[key] else 0) + 1;
      if n < MAX_ATTEMPTS {
        attempts := attempts[key := n];
        return;
      }
      attempts := attempts - {key};
      schedStore.Remove(rec.rule, rec.key);
    }
  }
}
