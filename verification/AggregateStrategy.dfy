/** A matching event in an aggregating rule: it is appended to the bucket of each aggregated action, which is
    queued when its trailing window has reached the threshold. */
module AggregateStrategy {
  import opened AggregationStore
  import opened CodeUnits
  import opened TimeOrder

  datatype Kind = Plain | Aggregated | Scheduled

  /** What kind of action a name stands for. */
  type Kinds = map<Text, Kind>

  /** The rule's name, its attachments by action name, and its threshold. */
  datatype Rule = Rule(name: Text, attachments: seq<Text>, count: int, windowMs: nat)

  /** A matching event: its bucket key, its time, and the payload each action's transform makes of it. */
  datatype Delivery = Delivery(id: Text, keyId: Text, at: int, payload: Text -> nat)

  datatype Pending = QueuedPlain(name: Text) | QueuedAggregated(name: Text, keyId: Text)

  predicate IsAggregated(reg: Kinds, name: Text) { name in reg && reg[name] == Aggregated }

  predicate IsPlain(reg: Kinds, name: Text) { name in reg && reg[name] == Plain }

  function KeyOf(rule: Rule, name: Text, d: Delivery): Key { Key(rule.name, name, d.keyId) }

  function AppendFor(rule: Rule, name: Text, d: Delivery): Op
  {
    Append(KeyOf(rule, name, d), Timed(d.at, Arrival(d.id, d.payload(name))))
  }

  // ----- one event, attachment by attachment -----

  /** The store's operations for the attachments. */
  function Appends(reg: Kinds, rule: Rule, names: seq<Text>, d: Delivery): seq<Op>
  {
    if names == [] then []
    else
      var init := Appends(reg, rule, names[..|names| - 1], d);
      if IsAggregated(reg, names[|names| - 1]) then init + [AppendFor(rule, names[|names| - 1], d)] else init
  }

  /** The aggregated actions that reach the threshold, each judged right after its own append. */
  function Queued(reg: Kinds, rule: Rule, names: seq<Text>, d: Delivery, ops: seq<Op>, now: int): seq<Pending>
  {
    if names == [] then []
    else
      var init, name := names[..|names| - 1], names[|names| - 1];
      var before := Queued(reg, rule, init, d, ops, now);
      if IsAggregated(reg, name) && InWindow(rule, name, d, ops + Appends(reg, rule, names, d), now) >= rule.count then
        before + [QueuedAggregated(name, d.keyId)]
      else before
  }

  function InWindow(rule: Rule, name: Text, d: Delivery, ops: seq<Op>, now: int): int
  {
    CountOf(Bucket(ops, KeyOf(rule, name, d)), now - rule.windowMs, now)
  }

  function PlainActions(reg: Kinds, names: seq<Text>): seq<Pending>
  {
    if names == [] then []
    else
      PlainActions(reg, names[..|names| - 1]) +
      if IsPlain(reg, names[|names| - 1]) then [QueuedPlain(names[|names| - 1])] else []
  }

  /** One attachment further. */
  lemma OneMore(reg: Kinds, rule: Rule, names: seq<Text>, i: nat, d: Delivery, ops: seq<Op>, now: int)
    requires i < |names|
    ensures var all, name := ops + Appends(reg, rule, names[..i], d), names[i];
            && ops + Appends(reg, rule, names[..i + 1], d) ==
               (if IsAggregated(reg, name) then all + [AppendFor(rule, name, d)] else all)
            && Queued(reg, rule, names[..i + 1], d, ops, now) ==
               Queued(reg, rule, names[..i], d, ops, now) +
               (if IsAggregated(reg, name) && InWindow(rule, name, d, all + [AppendFor(rule, name, d)], now) >= rule.count
                then [QueuedAggregated(name, d.keyId)] else [])
  {
    hide Bucket, CountOf, InWindow;
    assert names[..i + 1][..i] == names[..i];
    assert ops + (Appends(reg, rule, names[..i], d) + [AppendFor(rule, names[i], d)])
        == ops + Appends(reg, rule, names[..i], d) + [AppendFor(rule, names[i], d)];
  }

  method AppendOne(store: InMemoryAggregationStore, rule: Rule, name: Text, d: Delivery, now: int) returns (count: int)
    requires store.Valid()
    modifies store
    ensures store.Valid() && store.ops == old(store.ops) + [AppendFor(rule, name, d)]
    ensures count == InWindow(rule, name, d, store.ops, now)
  {
    hide Bucket, CountOf;
    var entry := Timed(d.at, Arrival(d.id, d.payload(name)));
    count := store.AppendAndCount(KeyOf(rule, name, d), entry, rule.windowMs, now);
  }

  method AppendToBuckets(store: InMemoryAggregationStore, reg: Kinds, rule: Rule, d: Delivery, now: int)
    returns (ruleFired: bool, pending: seq<Pending>)
    requires store.Valid()
    modifies store
    ensures store.Valid() && store.ops == old(store.ops) + Appends(reg, rule, rule.attachments, d)
    ensures pending == Queued(reg, rule, rule.attachments, d, old(store.ops), now) && ruleFired == (pending != [])
  {
    hide Bucket, CountOf, Appends, Queued, InWindow;
    ruleFired, pending := false, [];
    ghost var ops := store.ops;
    NothingYet(reg, rule, d, ops, now);
    var names := rule.attachments;
    for i := 0 to |names|
      invariant store.Valid() && store.ops == ops + Appends(reg, rule, names[..i], d)
      invariant pending == Queued(reg, rule, names[..i], d, ops, now) && ruleFired == (pending != [])
    {
      OneMore(reg, rule, names, i, d, ops, now);
      if names[i] !in reg {
        continue;
      }
      if reg[names[i]] != Aggregated {
        continue;
      }
      var count := AppendOne(store, rule, names[i], d, now);
      if count >= rule.count {
        ruleFired := true;
        pending := pending + [QueuedAggregated(names[i], d.keyId)];
      }
    }
    assert names[..|names|] == names;
  }

  lemma NothingYet(reg: Kinds, rule: Rule, d: Delivery, ops: seq<Op>, now: int)
    ensures rule.attachments[..0] == []
    ensures ops + Appends(reg, rule, [], d) == ops && Queued(reg, rule, [], d, ops, now) == []
  {
  }

  method QueuePlainActions(reg: Kinds, names: seq<Text>, before: seq<Pending>) returns (pending: seq<Pending>)
    ensures pending == before + PlainActions(reg, names)
  {
    pending := before;
    assert names[..0] == [] && before + [] == before;
    for i := 0 to |names|
      invariant pending == before + PlainActions(reg, names[..i])
    {
      assert names[..i + 1][..i] == names[..i];
      if names[i] in reg && reg[names[i]] == Plain {
        pending := pending + [QueuedPlain(names[i])];
      }
    }
    assert names[..|names|] == names;
  }

  /** A rule fires when at least one aggregated action is queued; its plain actions are queued after those. */
  method HandleAggregateStrategy(store: InMemoryAggregationStore, reg: Kinds, rule: Rule, d: Delivery, now: int)
    returns (ruleFired: bool, pending: seq<Pending>)
    requires store.Valid()
    modifies store
    ensures store.Valid() && store.ops == old(store.ops) + Appends(reg, rule, rule.attachments, d)
    ensures var queued := Queued(reg, rule, rule.attachments, d, old(store.ops), now);
            && ruleFired == (queued != [])
            && pending == queued + if ruleFired then PlainActions(reg, rule.attachments) else []
  {
    hide Bucket, CountOf, Appends, Queued, PlainActions;
    ruleFired, pending := AppendToBuckets(store, reg, rule, d, now);
    if ruleFired {
      pending := QueuePlainActions(reg, rule.attachments, pending);
    } else {
      assert pending + [] == pending;
    }
  }

  /** A plain rule fires whenever it matches. */
  method HandlePlainStrategy(reg: Kinds, names: seq<Text>) returns (pending: seq<Pending>)
    ensures pending == PlainActions(reg, names)
  {
    pending := QueuePlainActions(reg, names, []);
  }

  // ----- buckets with the same times -----

  predicate SameTimes(a: seq<Entry>, b: seq<Entry>)
  {
    |a| == |b| && forall i :: 0 <= i < |a| ==> a[i].at == b[i].at
  }

  lemma {:induction false} PlaceSameTimes(a: seq<Entry>, b: seq<Entry>, e: Entry, f: Entry)
    requires SameTimes(a, b) && e.at == f.at
    ensures SameTimes(Place(a, e), Place(b, f))
  {
    if a != [] && a[0].at <= e.at { PlaceSameTimes(a[1..], b[1..], e, f); }
  }

  lemma {:induction false} FromSameTimes(a: seq<Entry>, b: seq<Entry>, lo: int)
    requires SameTimes(a, b)
    ensures SameTimes(From(a, lo), From(b, lo))
  {
    if a != [] { FromSameTimes(a[1..], b[1..], lo); }
  }

  lemma {:induction false} WindowSameTimes(a: seq<Entry>, b: seq<Entry>, lo: int, hi: int)
    requires SameTimes(a, b)
    ensures SameTimes(Window(a, lo, hi), Window(b, lo, hi))
  {
    if a != [] { WindowSameTimes(a[1..], b[1..], lo, hi); }
  }

  // ----- serial runs -----

  /** Between the events of a rule anything may happen to other rules' buckets, and pruning to all. */
  datatype Step = Deliver(d: Delivery) | Elsewhere(op: Op)

  predicate Serial(rule: Rule, steps: seq<Step>)
  {
    forall i :: 0 <= i < |steps| && steps[i].Elsewhere? ==> steps[i].op.Append? ==> steps[i].op.key.rule != rule.name
  }

  function RunOps(reg: Kinds, rule: Rule, steps: seq<Step>): seq<Op>
  {
    if steps == [] then []
    else
      var step := steps[|steps| - 1];
      RunOps(reg, rule, steps[..|steps| - 1]) +
      if step.Deliver? then Appends(reg, rule, rule.attachments, step.d) else [step.op]
  }

  /** How often a name is attached. */
  function Copies(names: seq<Text>, name: Text): nat
  {
    if names == [] then 0 else Copies(names[..|names| - 1], name) + if names[|names| - 1] == name then 1 else 0
  }

  /** The plain actions of a rule: each attachment of a plain action once, and nothing else. */
  lemma {:induction false} PlainOutcome(reg: Kinds, names: seq<Text>, name: Text)
    ensures var queued := PlainActions(reg, names);
            && (forall i :: 0 <= i < |queued| ==> queued[i].QueuedPlain?)
            && multiset(queued)[QueuedPlain(name)] == if name in reg && reg[name] == Plain then Copies(names, name) else 0
    decreases |names|
  {
    if names != [] {
      var init, last := names[..|names| - 1], names[|names| - 1];
      PlainOutcome(reg, init, name);
      hide PlainActions, Copies;
      NextPlain(reg, names, name);
    }
  }

  lemma NextPlain(reg: Kinds, names: seq<Text>, name: Text)
    requires names != []
    ensures var init, last := names[..|names| - 1], names[|names| - 1];
            && PlainActions(reg, names) == PlainActions(reg, init) +
                                           (if last in reg && reg[last] == Plain then [QueuedPlain(last)] else [])
            && Copies(names, name) == Copies(names[..|names| - 1], name) + if last == name then 1 else 0
  {
  }

  /** They come in the order of attachment: those of the first attachments come first. */
  lemma {:induction false} PlainInOrder(reg: Kinds, names: seq<Text>, k: nat)
    requires k <= |names|
    ensures PlainActions(reg, names[..k]) <= PlainActions(reg, names)
    decreases |names|
  {
    if k < |names| {
      PlainInOrder(reg, names[..|names| - 1], k);
      assert names[..|names| - 1][..k] == names[..k];
    } else {
      assert names[..k] == names;
    }
  }

  lemma {:induction false} CopiesUpTo(names: seq<Text>, k: nat, name: Text)
    requires k <= |names|
    ensures Copies(names[..k], name) <= Copies(names, name)
    ensures k > 0 && names[k - 1] == name ==> Copies(names[..k], name) >= 1
    decreases |names|
  {
    if k < |names| {
      CopiesUpTo(names[..|names| - 1], k, name);
      assert names[..|names| - 1][..k] == names[..k];
    } else {
      assert names[..k] == names;
    }
  }

  lemma {:induction false} AttachedHasCopies(names: seq<Text>, name: Text)
    ensures name in names <==> Copies(names, name) >= 1
  {
    if names != [] {
      AttachedHasCopies(names[..|names| - 1], name);
      assert names == names[..|names| - 1] + [names[|names| - 1]];
    }
  }

  lemma BucketStep(ops: seq<Op>, op: Op, key: Key)
    ensures Bucket(ops + [op], key) ==
            if op.Prune? then From(Bucket(ops, key), op.now - op.olderThan)
            else if op.key == key then Place(Bucket(ops, key), op.entry)
            else Bucket(ops, key)
  {
    assert (ops + [op])[..|ops|] == ops;
  }

  function PlaceAll(es: seq<Entry>, e: Entry, n: nat): seq<Entry>
  {
    if n == 0 then es else Place(PlaceAll(es, e, n - 1), e)
  }

  function EntryOf(d: Delivery, name: Text): Entry { Timed(d.at, Arrival(d.id, d.payload(name))) }

  lemma LastAppend(reg: Kinds, rule: Rule, names: seq<Text>, d: Delivery, ops: seq<Op>)
    requires names != []
    ensures var before, name := ops + Appends(reg, rule, names[..|names| - 1], d), names[|names| - 1];
            ops + Appends(reg, rule, names, d) == if IsAggregated(reg, name) then before + [AppendFor(rule, name, d)] else before
  {
    var before := Appends(reg, rule, names[..|names| - 1], d);
    var op := AppendFor(rule, names[|names| - 1], d);
    assert ops + (before + [op]) == ops + before + [op];
  }

  /** An event leaves as many new entries in the bucket of an aggregated action under its key as the action is
      attached times, and nothing elsewhere. */
  lemma {:induction false} AppendsCopies(reg: Kinds, rule: Rule, names: seq<Text>, d: Delivery, ops: seq<Op>, key: Key)
    ensures Bucket(ops + Appends(reg, rule, names, d), key) ==
            if key.rule == rule.name && key.keyId == d.keyId && IsAggregated(reg, key.action)
            then PlaceAll(Bucket(ops, key), EntryOf(d, key.action), Copies(names, key.action))
            else Bucket(ops, key)
  {
    hide Bucket, Place;
    if names == [] {
      assert ops + [] == ops;
    } else {
      hide Appends;
      var init, name := names[..|names| - 1], names[|names| - 1];
      AppendsCopies(reg, rule, init, d, ops, key);
      LastAppend(reg, rule, names, d, ops);
      if IsAggregated(reg, name) { BucketStep(ops + Appends(reg, rule, init, d), AppendFor(rule, name, d), key); }
    }
  }

  predicate AggregatedIn(reg: Kinds, rule: Rule, name: Text) { name in rule.attachments && IsAggregated(reg, name) }

  lemma {:induction false} PlaceAllSameTimes(a: seq<Entry>, b: seq<Entry>, e: Entry, f: Entry, n: nat)
    requires SameTimes(a, b) && e.at == f.at
    ensures SameTimes(PlaceAll(a, e, n), PlaceAll(b, f, n))
  {
    if n > 0 {
      PlaceAllSameTimes(a, b, e, f, n - 1);
      PlaceSameTimes(PlaceAll(a, e, n - 1), PlaceAll(b, f, n - 1), e, f);
    }
  }

  lemma ElsewhereKeepsSameTimes(rule: Rule, ops: seq<Op>, op: Op, ka: Key, kb: Key)
    requires SameTimes(Bucket(ops, ka), Bucket(ops, kb)) && ka.rule == rule.name == kb.rule
    requires op.Append? ==> op.key.rule != rule.name
    ensures SameTimes(Bucket(ops + [op], ka), Bucket(ops + [op], kb))
  {
    hide Bucket, SameTimes, From;
    BucketStep(ops, op, ka);
    BucketStep(ops, op, kb);
    if op.Prune? { FromSameTimes(Bucket(ops, ka), Bucket(ops, kb), op.now - op.olderThan); }
  }

  /** After any serial run, aggregated actions that are attached equally often hold entries of the same times. */
  lemma {:induction false} AllHoldTheSameTimes(reg: Kinds, rule: Rule, steps: seq<Step>, a: Text, b: Text, keyId: Text)
    requires Serial(rule, steps) && Copies(rule.attachments, a) == Copies(rule.attachments, b)
    requires AggregatedIn(reg, rule, a) && AggregatedIn(reg, rule, b)
    ensures var ops := RunOps(reg, rule, steps);
            SameTimes(Bucket(ops, Key(rule.name, a, keyId)), Bucket(ops, Key(rule.name, b, keyId)))
  {
    if steps != [] {
      hide Bucket, SameTimes, Appends, Copies, PlaceAll;
      var init, step := steps[..|steps| - 1], steps[|steps| - 1];
      AllHoldTheSameTimes(reg, rule, init, a, b, keyId);
      var ops, ka, kb := RunOps(reg, rule, init), Key(rule.name, a, keyId), Key(rule.name, b, keyId);
      if step.Deliver? {
        AppendsCopies(reg, rule, rule.attachments, step.d, ops, ka);
        AppendsCopies(reg, rule, rule.attachments, step.d, ops, kb);
        PlaceAllSameTimes(Bucket(ops, ka), Bucket(ops, kb), EntryOf(step.d, a), EntryOf(step.d, b), Copies(rule.attachments, a));
      } else {
        ElsewhereKeepsSameTimes(rule, ops, step.op, ka, kb);
      }
    }
  }

  // ----- how many entries a bucket holds -----

  function HeardAlso(heard: seq<Entry>, d: Delivery, keyId: Text): seq<Entry>
  {
    if d.keyId == keyId then heard + [Timed(d.at, Arrival(d.id, 0))] else heard
  }

  /** The events of a key, forgotten by the same pruning as the buckets. */
  function Heard(steps: seq<Step>, keyId: Text): seq<Entry>
  {
    if steps == [] then []
    else
      var before, step := Heard(steps[..|steps| - 1], keyId), steps[|steps| - 1];
      if step.Deliver? then HeardAlso(before, step.d, keyId)
      else if step.op.Prune? then From(before, step.op.now - step.op.olderThan)
      else before
  }

  lemma {:induction false} PlaceCount(es: seq<Entry>, e: Entry, lo: int, hi: int)
    ensures |Window(Place(es, e), lo, hi)| == |Window(es, lo, hi)| + if lo <= e.at <= hi then 1 else 0
  {
    if es != [] && es[0].at <= e.at {
      PlaceCount(es[1..], e, lo, hi);
    } else {
      WindowConcat([e], es, lo, hi);
    }
  }

  lemma {:induction false} PlaceAllCount(es: seq<Entry>, e: Entry, n: nat, lo: int, hi: int)
    ensures |Window(PlaceAll(es, e, n), lo, hi)| == |Window(es, lo, hi)| + if lo <= e.at <= hi then n else 0
  {
    if n > 0 {
      PlaceAllCount(es, e, n - 1, lo, hi);
      PlaceCount(PlaceAll(es, e, n - 1), e, lo, hi);
    }
  }

  lemma {:induction false} FromWindow(es: seq<Entry>, c: int, lo: int, hi: int)
    ensures Window(From(es, c), lo, hi) == Window(es, if lo < c then c else lo, hi)
  {
    if es != [] {
      FromWindow(es[1..], c, lo, hi);
      WindowConcat(if es[0].at >= c then [es[0]] else [], From(es[1..], c), lo, hi);
    }
  }

  lemma DeliverCopies(reg: Kinds, rule: Rule, ops: seq<Op>, d: Delivery, key: Key, heard: seq<Entry>, lo: int, hi: int)
    requires key.rule == rule.name && IsAggregated(reg, key.action)
    requires |Window(Bucket(ops, key), lo, hi)| == Copies(rule.attachments, key.action) * |Window(heard, lo, hi)|
    ensures |Window(Bucket(ops + Appends(reg, rule, rule.attachments, d), key), lo, hi)|
            == Copies(rule.attachments, key.action) * |Window(HeardAlso(heard, d, key.keyId), lo, hi)|
  {
    hide Bucket, Appends, Copies, PlaceAll, Window;
    AppendsCopies(reg, rule, rule.attachments, d, ops, key);
    if d.keyId == key.keyId {
      PlaceAllCount(Bucket(ops, key), EntryOf(d, key.action), Copies(rule.attachments, key.action), lo, hi);
      OneMoreHeard(heard, Timed(d.at, Arrival(d.id, 0)), Copies(rule.attachments, key.action), lo, hi);
    }
  }

  lemma ElsewhereCopies(rule: Rule, ops: seq<Op>, op: Op, key: Key, heard: seq<Entry>, c: nat, lo: int, hi: int)
    requires key.rule == rule.name && (op.Append? ==> op.key.rule != rule.name)
    requires var from := if op.Prune? && lo < op.now - op.olderThan then op.now - op.olderThan else lo;
             |Window(Bucket(ops, key), from, hi)| == c * |Window(heard, from, hi)|
    ensures |Window(Bucket(ops + [op], key), lo, hi)|
            == c * |Window(if op.Prune? then From(heard, op.now - op.olderThan) else heard, lo, hi)|
  {
    hide Bucket, Window, From;
    BucketStep(ops, op, key);
    if op.Prune? {
      FromWindow(Bucket(ops, key), op.now - op.olderThan, lo, hi);
      FromWindow(heard, op.now - op.olderThan, lo, hi);
    }
  }

  /** After any serial run, the bucket of an action holds every event of its key as often as the action is
      attached. */
  lemma {:induction false} BucketCopies(reg: Kinds, rule: Rule, steps: seq<Step>, a: Text, keyId: Text, lo: int, hi: int)
    requires Serial(rule, steps) && IsAggregated(reg, a)
    ensures |Window(Bucket(RunOps(reg, rule, steps), Key(rule.name, a, keyId)), lo, hi)|
            == Copies(rule.attachments, a) * |Window(Heard(steps, keyId), lo, hi)|
  {
    hide Bucket, Appends, Copies, HeardAlso;
    if steps != [] {
      hide Window;
      var init, step := steps[..|steps| - 1], steps[|steps| - 1];
      var ops, key, heard := RunOps(reg, rule, init), Key(rule.name, a, keyId), Heard(init, keyId);
      if step.Deliver? {
        BucketCopies(reg, rule, init, a, keyId, lo, hi);
        DeliverCopies(reg, rule, ops, step.d, key, heard, lo, hi);
      } else {
        var pruned := step.op.Prune? && lo < step.op.now - step.op.olderThan;
        BucketCopies(reg, rule, init, a, keyId, if pruned then step.op.now - step.op.olderThan else lo, hi);
        ElsewhereCopies(rule, ops, step.op, key, heard, Copies(rule.attachments, a), lo, hi);
      }
    } else {
      EmptyBucket(Key(rule.name, a, keyId));
    }
  }

  lemma EmptyBucket(key: Key)
    ensures Bucket([], key) == []
  {
  }

  lemma OneMoreHeard(es: seq<Entry>, e: Entry, c: nat, lo: int, hi: int)
    ensures c * |Window(es + [e], lo, hi)| == c * |Window(es, lo, hi)| + if lo <= e.at <= hi then c else 0
  {
    WindowConcat(es, [e], lo, hi);
    assert [e][1..] == [];
    assert c * (|Window(es, lo, hi)| + 1) == c * |Window(es, lo, hi)| + c;
  }

  /** The count the action of attachment `k - 1` is judged by: all its copies of earlier events in the window, and
      its copies of this event so far. */
  lemma JudgedBy(reg: Kinds, rule: Rule, steps: seq<Step>, d: Delivery, now: int, k: nat, name: Text)
    requires Serial(rule, steps) && k <= |rule.attachments| && IsAggregated(reg, name)
    ensures var names, lo := rule.attachments, now - rule.windowMs;
            InWindow(rule, name, d, RunOps(reg, rule, steps) + Appends(reg, rule, names[..k], d), now)
            == Copies(names, name) * |Window(Heard(steps, d.keyId), lo, now)| +
               if lo <= d.at <= now then Copies(names[..k], name) else 0
  {
    hide Bucket, Appends, Copies, PlaceAll, Window;
    var ops, key, lo := RunOps(reg, rule, steps), KeyOf(rule, name, d), now - rule.windowMs;
    AppendsCopies(reg, rule, rule.attachments[..k], d, ops, key);
    PlaceAllCount(Bucket(ops, key), EntryOf(d, name), Copies(rule.attachments[..k], name), lo, now);
    BucketCopies(reg, rule, steps, name, d.keyId, lo, now);
    CountIsLength(Bucket(ops + Appends(reg, rule, rule.attachments[..k], d), key), lo, now);
  }

  // ----- firing -----

  /** Every aggregated action, in the order of the attachments. */
  function AllAggregated(reg: Kinds, names: seq<Text>, keyId: Text): seq<Pending>
  {
    if names == [] then []
    else
      AllAggregated(reg, names[..|names| - 1], keyId) +
      if IsAggregated(reg, names[|names| - 1]) then [QueuedAggregated(names[|names| - 1], keyId)] else []
  }

  /** Every attachment is judged alike. */
  ghost predicate JudgedAlike(reg: Kinds, rule: Rule, steps: seq<Step>, d: Delivery, now: int, fire: bool)
  {
    forall k :: 0 < k <= |rule.attachments| && IsAggregated(reg, rule.attachments[k - 1]) ==>
                  (Judged(reg, rule, steps, d, now, k) >= rule.count <==> fire)
  }

  /** What the action of attachment `k - 1` finds. */
  function Judged(reg: Kinds, rule: Rule, steps: seq<Step>, d: Delivery, now: int, k: nat): int
    requires 0 < k <= |rule.attachments|
  {
    InWindow(rule, rule.attachments[k - 1], d, RunOps(reg, rule, steps) + Appends(reg, rule, rule.attachments[..k], d), now)
  }

  lemma {:induction false} FireUpTo(reg: Kinds, rule: Rule, steps: seq<Step>, d: Delivery, now: int, fire: bool, k: nat)
    requires JudgedAlike(reg, rule, steps, d, now, fire) && k <= |rule.attachments|
    ensures var names := rule.attachments[..k];
            Queued(reg, rule, names, d, RunOps(reg, rule, steps), now)
            == if fire then AllAggregated(reg, names, d.keyId) else []
    decreases k
  {
    if k > 0 {
      hide InWindow, RunOps, Appends;
      FireUpTo(reg, rule, steps, d, now, fire, k - 1);
      assert rule.attachments[..k][..k - 1] == rule.attachments[..k - 1];
      assert IsAggregated(reg, rule.attachments[k - 1]) ==> (Judged(reg, rule, steps, d, now, k) >= rule.count <==> fire);
    }
  }

  /** No aggregated action is attached more than once; plain actions may be. */
  predicate OnceEach(reg: Kinds, rule: Rule)
  {
    forall i :: 0 <= i < |rule.attachments| && IsAggregated(reg, rule.attachments[i]) ==>
                  Copies(rule.attachments, rule.attachments[i]) == 1
  }

  lemma OnceEachIsOne(reg: Kinds, rule: Rule, a: Text)
    requires OnceEach(reg, rule) && AggregatedIn(reg, rule, a)
    ensures Copies(rule.attachments, a) == 1
  {
  }

  /** All aggregated actions of a rule fire together or not at all: they fire exactly when, this event included,
      at least `count` entries of the event's key lie in the trailing window, counted in the log of everything
      ever appended, which is the same number for each of them. */
  lemma FireTogether(reg: Kinds, rule: Rule, steps: seq<Step>, d: Delivery, now: int, a: Text)
    requires OnceEach(reg, rule) && Serial(rule, steps) && AggregatedIn(reg, rule, a)
    requires KeptFrom(RunOps(reg, rule, steps), now - rule.windowMs)
    ensures var ops := RunOps(reg, rule, steps);
            var log := Appended(ops + Appends(reg, rule, rule.attachments, d), KeyOf(rule, a, d));
            Queued(reg, rule, rule.attachments, d, ops, now)
            == if |Window(log, now - rule.windowMs, now)| >= rule.count
               then AllAggregated(reg, rule.attachments, d.keyId) else []
  {
    hide Bucket, Appended, Queued, AllAggregated, Appends, Serial, Copies, OnceEach, Window;
    var ops, names, lo := RunOps(reg, rule, steps), rule.attachments, now - rule.windowMs;
    assert names[..|names|] == names;
    var n := InWindow(rule, a, d, ops + Appends(reg, rule, names, d), now);
    OnceEachIsOne(reg, rule, a);
    JudgedBy(reg, rule, steps, d, now, |names|, a);
    forall k | 0 < k <= |names| && IsAggregated(reg, names[k - 1]) ensures Judged(reg, rule, steps, d, now, k) == n {
      OnceEachIsOne(reg, rule, names[k - 1]);
      CopiesUpTo(names, k, names[k - 1]);
      JudgedBy(reg, rule, steps, d, now, k, names[k - 1]);
    }
    FireUpTo(reg, rule, steps, d, now, n >= rule.count, |names|);
    KeptAfterAppends(reg, rule, names, d, ops, lo);
    ListIsLogWindow(ops + Appends(reg, rule, names, d), KeyOf(rule, a, d), now, rule.windowMs);
  }

  lemma {:induction false} OnlyAppends(reg: Kinds, rule: Rule, names: seq<Text>, d: Delivery)
    ensures forall i :: 0 <= i < |Appends(reg, rule, names, d)| ==> Appends(reg, rule, names, d)[i].Append?
  {
    if names != [] { OnlyAppends(reg, rule, names[..|names| - 1], d); }
  }

  lemma KeptAfterAppends(reg: Kinds, rule: Rule, names: seq<Text>, d: Delivery, ops: seq<Op>, lo: int)
    requires KeptFrom(ops, lo)
    ensures KeptFrom(ops + Appends(reg, rule, names, d), lo)
  {
    OnlyAppends(reg, rule, names, d);
  }

  /** What the queued actions see when they run, at the same instant but after the event's other rules: all of
      them see as many entries as were counted for the threshold, and entries of the same times. */
  lemma {:induction false} ActionsSeeTheCount(reg: Kinds, rule: Rule, steps: seq<Step>, d: Delivery, now: int,
                                              a: Text, b: Text, others: seq<Op>)
    requires OnceEach(reg, rule) && Serial(rule, steps) && AggregatedIn(reg, rule, a) && AggregatedIn(reg, rule, b)
    requires forall i :: 0 <= i < |others| ==> others[i].Append? && others[i].key.rule != rule.name
    ensures var judged := RunOps(reg, rule, steps) + Appends(reg, rule, rule.attachments, d);
            var listA := Window(Bucket(judged + others, KeyOf(rule, a, d)), now - rule.windowMs, now);
            var listB := Window(Bucket(judged + others, KeyOf(rule, b, d)), now - rule.windowMs, now);
            |listA| == InWindow(rule, a, d, judged, now) && SameTimes(listA, listB)
    decreases |others|
  {
    hide Bucket, Appends, RunOps;
    var judged := RunOps(reg, rule, steps) + Appends(reg, rule, rule.attachments, d);
    var ka, kb := KeyOf(rule, a, d), KeyOf(rule, b, d);
    if others == [] {
      assert judged + others == judged;
      CountIsLength(Bucket(judged, ka), now - rule.windowMs, now);
      var more := steps + [Deliver(d)];
      assert RunOps(reg, rule, more) == judged by { RunOneEvent(reg, rule, steps, d); }
      OnceEachIsOne(reg, rule, a);
      OnceEachIsOne(reg, rule, b);
      AllHoldTheSameTimes(reg, rule, more, a, b, d.keyId);
      WindowSameTimes(Bucket(judged, ka), Bucket(judged, kb), now - rule.windowMs, now);
    } else {
      var init, op := others[..|others| - 1], others[|others| - 1];
      ActionsSeeTheCount(reg, rule, steps, d, now, a, b, init);
      assert judged + others == judged + init + [op];
      BucketStep(judged + init, op, ka);
      BucketStep(judged + init, op, kb);
    }
  }

  lemma RunOneEvent(reg: Kinds, rule: Rule, steps: seq<Step>, d: Delivery)
    ensures RunOps(reg, rule, steps + [Deliver(d)]) == RunOps(reg, rule, steps) + Appends(reg, rule, rule.attachments, d)
  {
    assert (steps + [Deliver(d)])[..|steps|] == steps;
  }

  // ----- when actions fire together -----

  /** The event queues all attached aggregated actions, or none. */
  ghost predicate Together(reg: Kinds, rule: Rule, steps: seq<Step>, d: Delivery, now: int)
  {
    var queued := Queued(reg, rule, rule.attachments, d, RunOps(reg, rule, steps), now);
    queued == [] || queued == AllAggregated(reg, rule.attachments, d.keyId)
  }

  ghost predicate AlwaysTogether(reg: Kinds, rule: Rule)
  {
    forall steps, d, now :: Serial(rule, steps) ==> Together(reg, rule, steps, d, now)
  }

  /** All aggregated actions are attached equally often, and if that is more than once, a threshold above one is
      reached by the first copy of an event. */
  predicate AttachedAlike(reg: Kinds, rule: Rule)
  {
    forall i, j ::
      0 <= i < |rule.attachments| && 0 <= j < |rule.attachments|
      && IsAggregated(reg, rule.attachments[i]) && IsAggregated(reg, rule.attachments[j]) ==>
        var m := Copies(rule.attachments, rule.attachments[i]);
        Copies(rule.attachments, rule.attachments[j]) == m && (m <= 1 || rule.count % m == 1)
  }

  /** With `m` copies of each event, `j` earlier events and `i` copies of this one, the threshold is reached for
      all `i` or for none. */
  lemma CopiesAgree(count: int, m: nat, j: nat, i: nat)
    requires 1 <= i <= m && (count <= 1 || m == 1 || count % m == 1)
    ensures m * j + i >= count <==> m * j + 1 >= count
  {
    if count > 1 && m > 1 {
      var q := count / m;
      assert count == m * q + 1;
      NextProduct(m, j, q);
      if q <= j { Products(m, q, j); }
    }
  }

  lemma Products(m: nat, a: nat, b: nat)
    requires a <= b
    ensures m * a <= m * b
  {
  }

  lemma AlikeFireTogether(reg: Kinds, rule: Rule, steps: seq<Step>, d: Delivery, now: int)
    requires (rule.count <= 1 || AttachedAlike(reg, rule)) && Serial(rule, steps)
    ensures Together(reg, rule, steps, d, now)
  {
    hide Bucket, Queued, AllAggregated, Appends, Serial, Copies, Window;
    var names, lo := rule.attachments, now - rule.windowMs;
    var j, heard := |Window(Heard(steps, d.keyId), lo, now)|, lo <= d.at <= now;
    assert names[..|names|] == names;
    if rule.count <= 1 {
      var fire := if heard then true else rule.count <= 0 || j >= 1;
      forall k | 0 < k <= |names| && IsAggregated(reg, names[k - 1]) ensures Judged(reg, rule, steps, d, now, k) >= rule.count <==> fire {
        CopiesUpTo(names, k, names[k - 1]);
        JudgedBy(reg, rule, steps, d, now, k, names[k - 1]);
        Products(j, 1, Copies(names, names[k - 1]));
        assert j == 0 ==> Copies(names, names[k - 1]) * j == 0;
      }
      FireUpTo(reg, rule, steps, d, now, fire, |names|);
    } else if i :| 0 <= i < |names| && IsAggregated(reg, names[i]) {
      var m := Copies(names, names[i]);
      var fire := m * j + (if heard then 1 else 0) >= rule.count;
      forall k | 0 < k <= |names| && IsAggregated(reg, names[k - 1]) ensures Judged(reg, rule, steps, d, now, k) >= rule.count <==> fire {
        assert Copies(names, names[k - 1]) == m;
        CopiesUpTo(names, k, names[k - 1]);
        JudgedBy(reg, rule, steps, d, now, k, names[k - 1]);
        CopiesAgree(rule.count, m, j, Copies(names[..k], names[k - 1]));
      }
      FireUpTo(reg, rule, steps, d, now, fire, |names|);
    } else {
      FireUpTo(reg, rule, steps, d, now, false, |names|);
    }
  }

  // ----- a run in which they do not -----

  lemma {:induction false} QueuedSome(reg: Kinds, rule: Rule, steps: seq<Step>, d: Delivery, now: int, n: nat, k: nat)
    requires 0 < k <= n <= |rule.attachments| && IsAggregated(reg, rule.attachments[k - 1])
    ensures var names := rule.attachments[..n];
            var queued, all := |Queued(reg, rule, names, d, RunOps(reg, rule, steps), now)|, |AllAggregated(reg, names, d.keyId)|;
            && queued <= all
            && (Judged(reg, rule, steps, d, now, k) >= rule.count ==> queued > 0)
            && (Judged(reg, rule, steps, d, now, k) < rule.count ==> queued < all)
    decreases n
  {
    hide InWindow, RunOps, Appends;
    assert rule.attachments[..n][..n - 1] == rule.attachments[..n - 1];
    if k < n {
      QueuedSome(reg, rule, steps, d, now, n - 1, k);
    } else {
      QueuedAtMost(reg, rule, rule.attachments[..n - 1], d, RunOps(reg, rule, steps), now);
    }
  }

  lemma {:induction false} QueuedAtMost(reg: Kinds, rule: Rule, names: seq<Text>, d: Delivery, ops: seq<Op>, now: int)
    ensures |Queued(reg, rule, names, d, ops, now)| <= |AllAggregated(reg, names, d.keyId)|
  {
    hide InWindow, Appends;
    if names != [] { QueuedAtMost(reg, rule, names[..|names| - 1], d, ops, now); }
  }

  /** Where a name is attached for the first and for the last time. */
  lemma {:induction false} FirstCopy(names: seq<Text>, name: Text) returns (k: nat)
    requires Copies(names, name) >= 1
    ensures 0 < k <= |names| && names[k - 1] == name && Copies(names[..k], name) == 1
  {
    var init := names[..|names| - 1];
    if Copies(init, name) >= 1 {
      k := FirstCopy(init, name);
      assert init[..k] == names[..k];
    } else {
      k := |names|;
      assert names[..k] == names;
    }
  }

  lemma {:induction false} LastCopy(names: seq<Text>, name: Text) returns (k: nat)
    requires Copies(names, name) >= 1
    ensures 0 < k <= |names| && names[k - 1] == name && Copies(names[..k], name) == Copies(names, name)
  {
    if names[|names| - 1] == name {
      k := |names|;
      assert names[..k] == names;
    } else {
      k := LastCopy(names[..|names| - 1], name);
      assert names[..|names| - 1][..k] == names[..k];
    }
  }

  /** The same event again and again. */
  function Again(d: Delivery, j: nat): seq<Step> { if j == 0 then [] else Again(d, j - 1) + [Deliver(d)] }

  lemma {:induction false} AgainSerial(rule: Rule, d: Delivery, j: nat)
    ensures |Again(d, j)| == j && Serial(rule, Again(d, j))
  {
    if j > 0 { AgainSerial(rule, d, j - 1); }
  }

  lemma {:induction false} AgainHeard(d: Delivery, j: nat, lo: int, hi: int)
    requires lo <= d.at <= hi
    ensures |Window(Heard(Again(d, j), d.keyId), lo, hi)| == j
  {
    if j > 0 {
      hide Window;
      AgainHeard(d, j - 1, lo, hi);
      var steps := Again(d, j);
      assert steps[..|steps| - 1] == Again(d, j - 1) && steps[|steps| - 1] == Deliver(d);
      OneMoreHeard(Heard(Again(d, j - 1), d.keyId), Timed(d.at, Arrival(d.id, 0)), 1, lo, hi);
    }
  }

  /** After how many events the last copy of `b` reaches the threshold while the first copy of `a` does not. */
  lemma WhenTheyPart(count: int, a: nat, b: nat) returns (j: nat)
    requires count > 1 && 1 <= a <= b && (a == b ==> b > 1 && count % b != 1)
    ensures a * j + 1 < count <= b * j + b
  {
    j := (count - 1) / b;
    assert b * j <= count - 1 < b * j + b;
    if a < b {
      Products(j, a + 1, b);
      assert j * (a + 1) == a * j + j;
    } else if b * j + 1 == count {
      Remainder(b, j);
    }
  }

  lemma Remainder(m: nat, j: nat)
    requires m > 1
    ensures (m * j + 1) % m == 1
  {
    var x := m * j + 1;
    assert x == m * (x / m) + x % m;
    OneQuotient(m, x / m, x % m, j);
  }

  lemma OneQuotient(m: nat, q: nat, r: nat, j: nat)
    requires r < m && m > 1 && m * q + r == m * j + 1
    ensures r == 1
  {
    NextProduct(m, q, j);
    NextProduct(m, j, q);
  }

  lemma NextProduct(m: nat, a: nat, b: nat)
    ensures a < b ==> m * a + m <= m * b
  {
    if a < b {
      Products(m, a + 1, b);
      assert m * (a + 1) == m * a + m;
    }
  }

  lemma TheyPart(reg: Kinds, rule: Rule, a: Text, b: Text, d: Delivery) returns (steps: seq<Step>)
    requires AggregatedIn(reg, rule, a) && AggregatedIn(reg, rule, b) && rule.count > 1
    requires var m, n := Copies(rule.attachments, a), Copies(rule.attachments, b);
             m <= n && (m == n ==> n > 1 && rule.count % n != 1)
    ensures Serial(rule, steps) && !Together(reg, rule, steps, d, d.at)
  {
    hide Queued, AllAggregated, RunOps, Appends, Copies, Window, Heard;
    var names, lo := rule.attachments, d.at - rule.windowMs;
    AttachedHasCopies(names, a);
    AttachedHasCopies(names, b);
    var j := WhenTheyPart(rule.count, Copies(names, a), Copies(names, b));
    steps := Again(d, j);
    AgainSerial(rule, d, j);
    AgainHeard(d, j, lo, d.at);
    var first := FirstCopy(names, a);
    var last := LastCopy(names, b);
    JudgedBy(reg, rule, steps, d, d.at, first, a);
    JudgedBy(reg, rule, steps, d, d.at, last, b);
    QueuedSome(reg, rule, steps, d, d.at, |names|, first);
    QueuedSome(reg, rule, steps, d, d.at, |names|, last);
    assert names[..|names|] == names;
  }

  /** The aggregated actions of a rule fire together in every serial run exactly when its threshold is at most one
      or they are attached equally often, once or such that the threshold is one more than a multiple of that. */
  lemma TogetherIff(reg: Kinds, rule: Rule)
    ensures AlwaysTogether(reg, rule) <==> rule.count <= 1 || AttachedAlike(reg, rule)
  {
    if rule.count <= 1 || AttachedAlike(reg, rule) {
      forall steps, d, now | Serial(rule, steps) ensures Together(reg, rule, steps, d, now) {
        AlikeFireTogether(reg, rule, steps, d, now);
      }
    } else {
      var names := rule.attachments;
      var i, j :| 0 <= i < |names| && 0 <= j < |names| && IsAggregated(reg, names[i]) && IsAggregated(reg, names[j])
                  && !(var m := Copies(names, names[i]); Copies(names, names[j]) == m && (m <= 1 || rule.count % m == 1));
      var d := Delivery([], [], 0, name => 0);
      AttachedHasCopies(names, names[i]);
      AttachedHasCopies(names, names[j]);
      var swap := Copies(names, names[i]) > Copies(names, names[j]);
      var steps := TheyPart(reg, rule, if swap then names[j] else names[i], if swap then names[i] else names[j], d);
      assert !Together(reg, rule, steps, d, 0);
    }
  }

  /** An action attached twice next to nothing else: the thresholds at which it fires by halves. */
  lemma AttachedTwice(a: Text, rule: Text, count: int, windowMs: nat)
    ensures AlwaysTogether(map[a := Aggregated], Rule(rule, [a, a], count, windowMs)) <==> count <= 1 || count % 2 == 1
  {
    hide AlwaysTogether, AttachedAlike;
    TogetherIff(map[a := Aggregated], Rule(rule, [a, a], count, windowMs));
    TwiceAlike(a, rule, count, windowMs);
  }

  lemma TwiceAlike(a: Text, rule: Text, count: int, windowMs: nat)
    ensures AttachedAlike(map[a := Aggregated], Rule(rule, [a, a], count, windowMs)) <==> count % 2 == 1
  {
    TwoCopies(a);
    hide Copies;
    var reg, r := map[a := Aggregated], Rule(rule, [a, a], count, windowMs);
    assert r.attachments[0] == a && r.attachments[1] == a && IsAggregated(reg, r.attachments[0]);
    assert forall i :: 0 <= i < |r.attachments| ==> r.attachments[i] == a;
  }

  lemma TwoCopies(a: Text)
    ensures Copies([a, a], a) == 2
  {
    assert [a, a][..1] == [a] && [a][..0] == [];
    assert Copies([], a) == 0;
    assert Copies([a], a) == 1;
  }
}
