/** The integration adapter's cache of promises: a time-to-live per entry, and eviction of the least
    recently used entry, where recency is the insertion order of a `Map` (section 24.1 of ECMA-262). */
module PromiseCache {
  import opened CodeUnits
  import opened Lists
  import opened Options

  datatype Slot = Slot(key: Text, promise: nat, expiresAt: int)

  datatype Config = Config(ttl: int, max: int)

  // ----- the map: slots in insertion order, one per key -----

  function Find(slots: seq<Slot>, key: Text): (r: Option<Slot>)
    ensures r.Some? ==> r.value in slots && r.value.key == key
    ensures r.None? <==> forall x :: x in slots ==> x.key != key
  {
    if slots == [] then None
    else if slots[0].key == key then Some(slots[0])
    else
      assert forall x :: x in slots <==> x == slots[0] || x in slots[1..];
      Find(slots[1..], key)
  }

  function Remove(slots: seq<Slot>, key: Text): seq<Slot>
  {
    if slots == [] then []
    else if slots[0].key == key then Remove(slots[1..], key)
    else [slots[0]] + Remove(slots[1..], key)
  }

  /** Setting a key that is there keeps its place in the order. */
  function Put(slots: seq<Slot>, slot: Slot): seq<Slot>
  {
    if slots == [] then [slot]
    else if slots[0].key == slot.key then [slot] + slots[1..]
    else [slots[0]] + Put(slots[1..], slot)
  }

  // ----- lookup, insertion, rejection -----

  datatype Lookup = Lookup(hit: Option<Slot>, slots: seq<Slot>)

  /** An expired entry is dropped; a live one moves to the recent end. */
  function LookUp(slots: seq<Slot>, key: Text, now: int): Lookup
  {
    var found := Find(slots, key);
    if found.None? then Lookup(None, slots)
    else if found.value.expiresAt <= now then Lookup(None, Remove(slots, key))
    else Lookup(found, Remove(slots, key) + [found.value])
  }

  /** Entries go from the old end until at most `max` are left. */
  function Evict(slots: seq<Slot>, max: int): seq<Slot>
    decreases |slots|
  {
    if |slots| > max && slots != [] then Evict(slots[1..], max) else slots
  }

  function Insert(cfg: Config, slots: seq<Slot>, key: Text, promise: nat, now: int): seq<Slot>
  {
    Evict(Put(slots, Slot(key, promise, now + cfg.ttl)), cfg.max)
  }

  // ----- runs of overlapping calls -----

  datatype Creation = Creation(key: Text, at: int)

  /** Promises are numbered as they are created. `uses` are the keys in the order they were asked for and
      served, from the cache or not; `handled` the promises whose rejection handler has run. */
  datatype State = State(slots: seq<Slot>, uses: seq<Text>, created: seq<Creation>, handled: set<nat>)

  function Init(): State { State([], [], [], {}) }

  datatype Event = Call(key: Text, now: int) | OnRejected(promise: nat)

  /** The promise a call for `key` is served. */
  function Served(s: State, key: Text, now: int): nat
  {
    var l := LookUp(s.slots, key, now);
    if l.hit.Some? then l.hit.value.promise else |s.created|
  }

  function Step(cfg: Config, s: State, e: Event): State
  {
    match e
    case Call(key, now) =>
      var l := LookUp(s.slots, key, now);
      if l.hit.Some? then s.(slots := l.slots, uses := s.uses + [key])
      else
        State(Insert(cfg, l.slots, key, |s.created|, now), s.uses + [key], s.created + [Creation(key, now)], s.handled)
    case OnRejected(p) =>
      if p < |s.created| then s.(slots := Remove(s.slots, s.created[p].key), handled := s.handled + {p}) else s
  }

  function Run(cfg: Config, s: State, events: seq<Event>): State
    decreases events
  {
    if events == [] then s else Run(cfg, Step(cfg, s, events[0]), events[1..])
  }

  // ----- the invariant -----

  /** When a key was last used, or -1. */
  function LastUse(uses: seq<Text>, key: Text): (r: int)
    ensures -1 <= r < |uses|
  {
    if uses == [] then -1
    else if uses[|uses| - 1] == key then |uses| - 1
    else LastUse(uses[..|uses| - 1], key)
  }

  /** The order of the map is the order of last use. */
  predicate OrderedByUse(slots: seq<Slot>, uses: seq<Text>)
  {
    && (forall i :: 0 <= i < |slots| ==> LastUse(uses, slots[i].key) >= 0)
    && forall i, j :: 0 <= i < j < |slots| ==> LastUse(uses, slots[i].key) < LastUse(uses, slots[j].key)
  }

  /** The entry holds a promise created under its key, that expires a time-to-live later and whose
      rejection handler has not run. */
  predicate Genuine(cfg: Config, s: State, slot: Slot)
  {
    && slot.promise < |s.created|
    && s.created[slot.promise].key == slot.key
    && slot.expiresAt == s.created[slot.promise].at + cfg.ttl
    && slot.promise !in s.handled
  }

  ghost predicate Valid(cfg: Config, s: State)
  {
    && OrderedByUse(s.slots, s.uses)
    && |s.slots| <= (if cfg.max < 0 then 0 else cfg.max)
    && (forall x :: x in s.slots ==> Genuine(cfg, s, x))
    && (forall p :: p in s.handled ==> p < |s.created|)
  }

  lemma {:induction false} RemoveMembers(slots: seq<Slot>, key: Text)
    ensures forall x :: x in Remove(slots, key) <==> x in slots && x.key != key
    ensures |Remove(slots, key)| <= |slots|
  {
    if slots != [] {
      RemoveMembers(slots[1..], key);
      assert slots == [slots[0]] + slots[1..];
    }
  }

  lemma PrependOrdered(x: Slot, rest: seq<Slot>, uses: seq<Text>)
    requires OrderedByUse(rest, uses) && LastUse(uses, x.key) >= 0
    requires forall y :: y in rest ==> LastUse(uses, x.key) < LastUse(uses, y.key)
    ensures OrderedByUse([x] + rest, uses)
  {
    var all := [x] + rest;
    forall i, j | 0 <= i < j < |all| ensures LastUse(uses, all[i].key) < LastUse(uses, all[j].key) {
      assert all[j] == rest[j - 1] && rest[j - 1] in rest;
      if i > 0 { assert all[i] == rest[i - 1]; }
    }
  }

  lemma {:induction false} RemoveOrdered(slots: seq<Slot>, uses: seq<Text>, key: Text)
    requires OrderedByUse(slots, uses)
    ensures OrderedByUse(Remove(slots, key), uses)
  {
    if slots != [] {
      RemoveOrdered(slots[1..], uses, key);
      if slots[0].key != key {
        RemoveMembers(slots[1..], key);
        forall y | y in slots[1..] ensures LastUse(uses, slots[0].key) < LastUse(uses, y.key) {
          var i :| 0 <= i < |slots[1..]| && slots[1..][i] == y;
          assert slots[i + 1] == y;
        }
        PrependOrdered(slots[0], Remove(slots[1..], key), uses);
      }
    }
  }

  /** Moving or adding a key at the recent end, at the moment it is used. */
  lemma AppendOrdered(slots: seq<Slot>, uses: seq<Text>, slot: Slot)
    requires OrderedByUse(slots, uses) && forall x :: x in slots ==> x.key != slot.key
    ensures OrderedByUse(slots + [slot], uses + [slot.key])
  {
    forall i | 0 <= i < |slots| ensures LastUse(uses + [slot.key], slots[i].key) == LastUse(uses, slots[i].key) {
      assert slots[i] in slots;
    }
  }

  lemma {:induction false} RemoveOne(slots: seq<Slot>, uses: seq<Text>, slot: Slot)
    requires OrderedByUse(slots, uses) && slot in slots
    ensures |Remove(slots, slot.key)| < |slots|
  {
    if slots[0] == slot {
      RemoveMembers(slots[1..], slot.key);
    } else {
      assert slot in slots[1..];
      RemoveOne(slots[1..], uses, slot);
    }
  }

  lemma {:induction false} PutAbsent(slots: seq<Slot>, slot: Slot)
    requires forall x :: x in slots ==> x.key != slot.key
    ensures Put(slots, slot) == slots + [slot]
  {
    if slots != [] {
      assert slots[0] in slots;
      PutAbsent(slots[1..], slot);
      assert slots + [slot] == [slots[0]] + (slots[1..] + [slot]);
    }
  }

  /** Eviction cuts off a prefix, no longer than needed. */
  lemma {:induction false} EvictDropsOldest(slots: seq<Slot>, max: int)
    ensures Evict(slots, max) == slots[if max < 0 then |slots| else if |slots| > max then |slots| - max else 0..]
    decreases |slots|
  {
    if |slots| > max && slots != [] {
      EvictDropsOldest(slots[1..], max);
    }
  }

  /** After a miss the key is absent, so insertion always adds at the recent end. */
  lemma InsertionFindsKeyAbsent(slots: seq<Slot>, uses: seq<Text>, key: Text, now: int)
    requires OrderedByUse(slots, uses) && LookUp(slots, key, now).hit.None?
    ensures forall x :: x in LookUp(slots, key, now).slots ==> x.key != key
    ensures forall slot: Slot :: slot.key == key ==>
                                   Put(LookUp(slots, key, now).slots, slot) == LookUp(slots, key, now).slots + [slot]
  {
    RemoveMembers(slots, key);
    forall slot: Slot | slot.key == key
      ensures Put(LookUp(slots, key, now).slots, slot) == LookUp(slots, key, now).slots + [slot]
    {
      PutAbsent(LookUp(slots, key, now).slots, slot);
    }
  }

  lemma HitValid(cfg: Config, s: State, key: Text, now: int)
    requires Valid(cfg, s) && LookUp(s.slots, key, now).hit.Some?
    ensures Valid(cfg, Step(cfg, s, Call(key, now)))
  {
    var slot := LookUp(s.slots, key, now).hit.value;
    RemoveOrdered(s.slots, s.uses, key);
    RemoveMembers(s.slots, key);
    RemoveOne(s.slots, s.uses, slot);
    AppendOrdered(Remove(s.slots, key), s.uses, slot);
    var t := Step(cfg, s, Call(key, now));
    forall x | x in t.slots ensures Genuine(cfg, t, x) { assert Genuine(cfg, s, x); }
  }

  /** What a miss leaves: the new entry at the recent end, and the oldest entries gone if need be. */
  lemma MissSlots(cfg: Config, slots: seq<Slot>, uses: seq<Text>, slot: Slot, now: int)
    requires OrderedByUse(slots, uses) && LookUp(slots, slot.key, now).hit.None?
    ensures var all := LookUp(slots, slot.key, now).slots + [slot];
            && OrderedByUse(all, uses + [slot.key])
            && Evict(Put(LookUp(slots, slot.key, now).slots, slot), cfg.max)
               == all[if cfg.max < 0 then |all| else if |all| > cfg.max then |all| - cfg.max else 0..]
    ensures forall x :: x in LookUp(slots, slot.key, now).slots ==> x in slots
  {
    hide Remove, Evict, Put;
    var left := LookUp(slots, slot.key, now).slots;
    RemoveOrdered(slots, uses, slot.key);
    RemoveMembers(slots, slot.key);
    InsertionFindsKeyAbsent(slots, uses, slot.key, now);
    AppendOrdered(left, uses, slot);
    EvictDropsOldest(left + [slot], cfg.max);
  }

  lemma MissValid(cfg: Config, s: State, key: Text, now: int)
    requires Valid(cfg, s) && LookUp(s.slots, key, now).hit.None?
    ensures Valid(cfg, Step(cfg, s, Call(key, now)))
  {
    hide Remove, Evict, Put, LookUp, LastUse;
    var left := LookUp(s.slots, key, now).slots;
    var slot := Slot(key, |s.created|, now + cfg.ttl);
    MissSlots(cfg, s.slots, s.uses, slot, now);
    var t := Step(cfg, s, Call(key, now));
    forall x | x in t.slots ensures Genuine(cfg, t, x) {
      assert x in left + [slot];
      if x != slot { assert Genuine(cfg, s, x); }
    }
  }

  lemma StepValid(cfg: Config, s: State, e: Event)
    requires Valid(cfg, s)
    ensures Valid(cfg, Step(cfg, s, e))
  {
    match e
    case Call(key, now) =>
      if LookUp(s.slots, key, now).hit.Some? { HitValid(cfg, s, key, now); } else { MissValid(cfg, s, key, now); }
    case OnRejected(p) =>
      if p < |s.created| {
        RemoveOrdered(s.slots, s.uses, s.created[p].key);
        RemoveMembers(s.slots, s.created[p].key);
        var t := Step(cfg, s, e);
        forall x | x in t.slots ensures Genuine(cfg, t, x) { assert Genuine(cfg, s, x); }
      }
  }

  /** In every run: the map is ordered by last use and within its bound, and every entry holds a promise
      created under its own key, due a time-to-live after its creation, whose rejection handler has not run. */
  lemma {:induction false} EveryRunValid(cfg: Config, s: State, events: seq<Event>)
    requires Valid(cfg, s)
    ensures Valid(cfg, Run(cfg, s, events))
    decreases events
  {
    if events != [] {
      StepValid(cfg, s, events[0]);
      EveryRunValid(cfg, Step(cfg, s, events[0]), events[1..]);
    }
  }

  lemma InitValid(cfg: Config)
    ensures Valid(cfg, Init())
  {
  }

  /** After any run, a hit serves a promise that was created under the same key less than a time-to-live ago and
      whose rejection handler has not run. */
  lemma HitIsFresh(cfg: Config, events: seq<Event>, key: Text, now: int)
    ensures var s := Run(cfg, Init(), events);
            LookUp(s.slots, key, now).hit.Some? ==>
              var p := Served(s, key, now);
              p < |s.created| && s.created[p].key == key && now - s.created[p].at < cfg.ttl && p !in s.handled
  {
    InitValid(cfg);
    EveryRunValid(cfg, Init(), events);
  }

  // ----- what least-recently-used promises -----

  function CalledKeys(events: seq<Event>): set<Text>
    decreases events
  {
    if events == [] then {} else (if events[0].Call? then {events[0].key} else {}) + CalledKeys(events[1..])
  }

  /** No event of the run concerns `key`. */
  predicate Undisturbed(cfg: Config, s: State, events: seq<Event>, key: Text)
    decreases events
  {
    events == [] ||
    (&& (match events[0]
         case Call(k, _) => k != key
         case OnRejected(p) => p < |s.created| ==> s.created[p].key != key)
     && Undisturbed(cfg, Step(cfg, s, events[0]), events[1..], key))
  }

  ghost function SlotKeys(slots: seq<Slot>): set<Text> { set i | 0 <= i < |slots| :: slots[i].key }

  lemma {:induction false} RemoveAround(a: seq<Slot>, slot: Slot, b: seq<Slot>, key: Text)
    requires key != slot.key
    ensures Remove(a + [slot] + b, key) == Remove(a, key) + [slot] + Remove(b, key)
  {
    var all := a + [slot] + b;
    if a == [] {
      assert all[1..] == b;
    } else {
      assert all[1..] == a[1..] + [slot] + b;
      RemoveAround(a[1..], slot, b, key);
    }
  }

  lemma {:induction false} CountKeys(slots: seq<Slot>, uses: seq<Text>)
    requires OrderedByUse(slots, uses)
    ensures |SlotKeys(slots)| == |slots|
  {
    if slots == [] {
      assert SlotKeys(slots) == {};
    } else {
      CountKeys(slots[1..], uses);
      assert SlotKeys(slots) == {slots[0].key} + SlotKeys(slots[1..]);
      assert slots[0].key !in SlotKeys(slots[1..]);
    }
  }

  lemma FewEnough(slots: seq<Slot>, uses: seq<Text>, keys: set<Text>)
    requires OrderedByUse(slots, uses) && SlotKeys(slots) <= keys
    ensures |slots| <= |keys|
  {
    CountKeys(slots, uses);
    SubsetSize(SlotKeys(slots), keys);
  }

  /** One event leaves `slot` in place, with only used keys more recent than it. */
  lemma StepRetains(cfg: Config, s: State, e: Event, a: seq<Slot>, slot: Slot, b: seq<Slot>, keys: set<Text>)
    returns (a': seq<Slot>, b': seq<Slot>)
    requires Valid(cfg, s) && s.slots == a + [slot] + b
    requires Undisturbed(cfg, s, [e], slot.key)
    requires SlotKeys(b) <= keys && (e.Call? ==> e.key in keys) && |keys| < cfg.max
    ensures Step(cfg, s, e).slots == a' + [slot] + b' && SlotKeys(b') <= keys
  {
    if e.OnRejected? && e.promise >= |s.created| {
      a', b' := a, b;
    } else if e.OnRejected? {
      var k := s.created[e.promise].key;
      RemoveAround(a, slot, b, k);
      RemovedKeys(b, k);
      a', b' := Remove(a, k), Remove(b, k);
    } else {
      RemoveAround(a, slot, b, e.key);
      RemovedKeys(b, e.key);
      var l := LookUp(s.slots, e.key, e.now);
      if l.hit.Some? {
        a', b' := Remove(a, e.key), Remove(b, e.key) + [l.hit.value];
        MoreKeys(Remove(b, e.key), l.hit.value);
        assert a' + [slot] + b' == a' + [slot] + Remove(b, e.key) + [l.hit.value];
      } else {
        var same := l.slots == s.slots;
        var a1, b1 := if same then a else Remove(a, e.key), if same then b else Remove(b, e.key);
        a', b' := MissRetains(cfg, s, e.key, e.now, a1, slot, b1, keys);
      }
    }
  }

  lemma MoreKeys(b: seq<Slot>, x: Slot)
    ensures SlotKeys(b + [x]) == SlotKeys(b) + {x.key}
  {
    var c := b + [x];
    forall k | k in SlotKeys(b) + {x.key} ensures k in SlotKeys(c) {
      if k in SlotKeys(b) {
        var i :| 0 <= i < |b| && b[i].key == k;
        assert c[i].key == k;
      } else {
        assert c[|b|].key == k;
      }
    }
  }

  lemma RemovedKeys(b: seq<Slot>, key: Text)
    ensures SlotKeys(Remove(b, key)) <= SlotKeys(b)
  {
    var c := Remove(b, key);
    RemoveMembers(b, key);
    forall i | 0 <= i < |c| ensures c[i].key in SlotKeys(b) { assert c[i] in b; }
  }

  lemma MissRetains(cfg: Config, s: State, k: Text, now: int, a: seq<Slot>, slot: Slot, b: seq<Slot>, keys: set<Text>)
    returns (a': seq<Slot>, b': seq<Slot>)
    requires Valid(cfg, s) && LookUp(s.slots, k, now) == Lookup(None, a + [slot] + b)
    requires SlotKeys(b) <= keys && k in keys && |keys| < cfg.max
    ensures Step(cfg, s, Call(k, now)).slots == a' + [slot] + b' && SlotKeys(b') <= keys
  {
    hide Remove, Evict, Put, LookUp, LastUse;
    var added := Slot(k, |s.created|, now + cfg.ttl);
    MissSlots(cfg, s.slots, s.uses, added, now);
    MoreKeys(b, added);
    b' := b + [added];
    assert a + [slot] + b + [added] == a + [slot] + b';
    a' := CutRetains(cfg.max, a, slot, b', s.uses + [k], keys);
  }

  /** Cutting the oldest entries down to `max` does not reach an entry with fewer than `max` keys after it. */
  lemma CutRetains(max: int, a: seq<Slot>, slot: Slot, b: seq<Slot>, uses: seq<Text>, keys: set<Text>) returns (a': seq<Slot>)
    requires OrderedByUse(a + [slot] + b, uses)
    requires SlotKeys(b) <= keys && |keys| < max
    ensures (a + [slot] + b)[if |a + [slot] + b| > max then |a + [slot] + b| - max else 0..] == a' + [slot] + b
  {
    var all := a + [slot] + b;
    assert all[|a| + 1..] == b;
    FewEnough(b, uses, keys);
    var d := if |all| > max then |all| - max else 0;
    a' := a[d..];
    assert all[d..] == a' + [slot] + b;
  }

  /** A cached key that has just been used is still cached, with the same promise, as long as fewer than
      `max` other keys are asked for and none of its own promises is rejected. */
  lemma {:induction false} RecentlyUsedIsRetained(cfg: Config, s: State, events: seq<Event>,
                                                  a: seq<Slot>, slot: Slot, b: seq<Slot>, used: set<Text>)
    requires Valid(cfg, s) && s.slots == a + [slot] + b && SlotKeys(b) <= used
    requires Undisturbed(cfg, s, events, slot.key)
    requires |used + CalledKeys(events)| < cfg.max
    ensures slot in Run(cfg, s, events).slots
    decreases events
  {
    if events != [] {
      var keys := used + CalledKeys(events);
      var more := if events[0].Call? then {events[0].key} else {};
      var t := Step(cfg, s, events[0]);
      assert used + more <= keys && (used + more) + CalledKeys(events[1..]) == keys;
      SubsetSize(used + more, keys);
      assert Undisturbed(cfg, s, [events[0]], slot.key);
      var a', b' := StepRetains(cfg, s, events[0], a, slot, b, used + more);
      StepValid(cfg, s, events[0]);
      RecentlyUsedIsRetained(cfg, t, events[1..], a', slot, b', used + more);
    }
  }

  /** Asked again within its time to live, such a key is a hit. */
  lemma RecentlyUsedHits(cfg: Config, s: State, events: seq<Event>, slot: Slot, now: int)
    requires Valid(cfg, s) && s.slots != [] && s.slots[|s.slots| - 1] == slot
    requires Undisturbed(cfg, s, events, slot.key) && |CalledKeys(events)| < cfg.max
    requires now < slot.expiresAt
    ensures LookUp(Run(cfg, s, events).slots, slot.key, now).hit == Some(slot)
  {
    var n := |s.slots| - 1;
    assert s.slots == s.slots[..n] + [slot] + [];
    assert {} + CalledKeys(events) == CalledKeys(events);
    RecentlyUsedIsRetained(cfg, s, events, s.slots[..n], slot, [], {});
    EveryRunValid(cfg, s, events);
    var t := Run(cfg, s, events);
    var found := Find(t.slots, slot.key).value;
    assert found in t.slots && slot in t.slots;
    OneSlotPerKey(t.slots, t.uses, found, slot);
  }

  lemma OneSlotPerKey(slots: seq<Slot>, uses: seq<Text>, x: Slot, y: Slot)
    requires OrderedByUse(slots, uses) && x in slots && y in slots && x.key == y.key
    ensures x == y
  {
    var i :| 0 <= i < |slots| && slots[i] == x;
    var j :| 0 <= j < |slots| && slots[j] == y;
    assert i == j;
  }

  /** The rejection handler deletes by key: when the first promise of a key was evicted or expired and a second
      one took its place, rejection of the first drops the second, which is live and has not failed. */
  lemma LateRejectionDropsNewer(cfg: Config, key: Text, now: int)
    requires 0 < cfg.ttl && 0 < cfg.max
    ensures var s := Run(cfg, Init(), [Call(key, now), Call(key, now + cfg.ttl)]);
            && s.slots == [Slot(key, 1, now + cfg.ttl + cfg.ttl)] && 1 !in s.handled
            && Step(cfg, s, OnRejected(0)).slots == []
  {
    var first, second := Call(key, now), Call(key, now + cfg.ttl);
    var a := Slot(key, 0, now + cfg.ttl);
    var s1 := Step(cfg, Init(), first);
    assert s1.slots == [a];
    assert [a][1..] == [] && Find([a], key) == Some(a) && Remove([a], key) == [];
    assert LookUp([a], key, now + cfg.ttl) == Lookup(None, []);
    assert [first, second][1..] == [second] && [second][1..] == [];
    assert Run(cfg, Init(), [first, second]) == Run(cfg, s1, [second]) == Step(cfg, s1, second);
    var b := Slot(key, 1, now + cfg.ttl + cfg.ttl);
    assert [b][1..] == [] && Remove([b], key) == [];
  }

  // ----- when a rejection drops an entry that is not its own -----

  /** The rejection of `p` drops an entry that holds another promise. */
  ghost predicate DropsForeign(cfg: Config, s: State, p: nat)
  {
    exists x :: x in s.slots && x !in Step(cfg, s, OnRejected(p)).slots && x.promise != p
  }

  /** It does so exactly when the entry under its key holds another promise. */
  lemma DropsForeignIff(cfg: Config, s: State, p: nat)
    requires Valid(cfg, s) && p < |s.created|
    ensures var under := Find(s.slots, s.created[p].key);
            DropsForeign(cfg, s, p) <==> under.Some? && under.value.promise != p
  {
    var key := s.created[p].key;
    var under := Find(s.slots, key);
    RemoveMembers(s.slots, key);
    if under.Some? {
      forall x | x in s.slots && x.key == key ensures x == under.value { OneSlotPerKey(s.slots, s.uses, x, under.value); }
    }
  }

  /** The calls come in the order of a clock that shows `now` in the end. */
  predicate ClockTo(events: seq<Event>, now: int)
  {
    && (forall i :: 0 <= i < |events| && events[i].Call? ==> events[i].now <= now)
    && forall i, j :: 0 <= i < j < |events| && events[i].Call? && events[j].Call? ==> events[i].now <= events[j].now
  }

  /** After the run, at `now`, the rejection of `p` drops entry `x`, which is live and holds another promise. */
  ghost predicate LosesLive(cfg: Config, events: seq<Event>, now: int, p: nat, x: Slot)
  {
    var s := Run(cfg, Init(), events);
    && ClockTo(events, now) && p < |s.created| && p !in s.handled
    && x in s.slots && x !in Step(cfg, s, OnRejected(p)).slots && x.promise != p && now < x.expiresAt
  }

  ghost predicate CanLoseLive(cfg: Config)
  {
    exists events, now, p, x :: LosesLive(cfg, events, now, p, x)
  }

  lemma {:induction false} CreatedInTime(cfg: Config, s: State, events: seq<Event>, now: int)
    requires forall i :: 0 <= i < |events| && events[i].Call? ==> events[i].now <= now
    requires forall c :: c in s.created ==> c.at <= now
    ensures forall c :: c in Run(cfg, s, events).created ==> c.at <= now
    decreases events
  {
    if events != [] {
      CreatedInTime(cfg, Step(cfg, s, events[0]), events[1..], now);
    }
  }

  /** Some run loses a live entry to the rejection of another promise exactly when the cache can hold a live entry
      at all: with a positive time-to-live and room for one. */
  lemma CanLoseLiveIff(cfg: Config)
    ensures CanLoseLive(cfg) <==> 0 < cfg.ttl && 0 < cfg.max
  {
    if 0 < cfg.ttl && 0 < cfg.max {
      LateRejectionDropsNewer(cfg, [], 0);
      var events := [Call([], 0), Call([], cfg.ttl)];
      var s := Run(cfg, Init(), events);
      InitValid(cfg);
      EveryRunValid(cfg, Init(), events);
      assert s.slots[0] in s.slots && Genuine(cfg, s, s.slots[0]);
      NothingHandled(cfg, Init(), events);
      assert LosesLive(cfg, events, cfg.ttl, 0, s.slots[0]);
    }
    if CanLoseLive(cfg) {
      var events, now, p, x :| LosesLive(cfg, events, now, p, x);
      var s := Run(cfg, Init(), events);
      InitValid(cfg);
      EveryRunValid(cfg, Init(), events);
      CreatedInTime(cfg, Init(), events, now);
      assert Genuine(cfg, s, x) && s.created[x.promise] in s.created;
    }
  }

  lemma {:induction false} NothingHandled(cfg: Config, s: State, events: seq<Event>)
    requires forall i :: 0 <= i < |events| ==> events[i].Call?
    ensures Run(cfg, s, events).handled == s.handled
    decreases events
  {
    if events != [] { NothingHandled(cfg, Step(cfg, s, events[0]), events[1..]); }
  }

  // ----- what each step does -----

  /** The slots without the one at `i`, if `i` is the place of one. */
  function Cut(slots: seq<Slot>, i: nat): seq<Slot> { if i < |slots| then slots[..i] + slots[i + 1..] else slots }

  /** Where a key is, or the length. */
  function PlaceOf(slots: seq<Slot>, key: Text): (i: nat)
    ensures i <= |slots| && (forall j :: 0 <= j < i ==> slots[j].key != key) && (i < |slots| ==> slots[i].key == key)
  {
    if slots == [] || slots[0].key == key then 0 else 1 + PlaceOf(slots[1..], key)
  }

  lemma {:induction false} RemoveAbsent(slots: seq<Slot>, key: Text)
    requires forall j :: 0 <= j < |slots| ==> slots[j].key != key
    ensures Remove(slots, key) == slots
  {
    if slots != [] { RemoveAbsent(slots[1..], key); }
  }

  predicate KeysDiffer(slots: seq<Slot>) { forall i, j :: 0 <= i < j < |slots| ==> slots[i].key != slots[j].key }

  lemma CutFirst(slots: seq<Slot>)
    requires slots != []
    ensures Cut(slots, 0) == slots[1..]
  {
    assert slots[..0] + slots[1..] == slots[1..];
  }

  lemma CutNext(slots: seq<Slot>, i: nat)
    requires slots != []
    ensures [slots[0]] + Cut(slots[1..], i) == Cut(slots, i + 1)
  {
    if i + 1 < |slots| {
      assert slots[..i + 1] == [slots[0]] + slots[1..][..i] && slots[1..][i + 1..] == slots[i + 2..];
    } else {
      assert slots == [slots[0]] + slots[1..];
    }
  }

  lemma {:induction false} RemoveAt(slots: seq<Slot>, key: Text)
    requires KeysDiffer(slots)
    ensures Remove(slots, key) == Cut(slots, PlaceOf(slots, key))
  {
    hide Cut, KeysDiffer, PlaceOf;
    CutAbsent(slots, key);
    if slots != [] {
      var rest := slots[1..];
      DifferOn(slots);
      PlaceNext(slots, key);
      CutFirst(slots);
      CutNext(slots, PlaceOf(rest, key));
      if slots[0].key == key { RemoveAbsent(rest, key); } else { RemoveAt(rest, key); }
    }
  }

  lemma PlaceNext(slots: seq<Slot>, key: Text)
    requires slots != []
    ensures PlaceOf(slots, key) == if slots[0].key == key then 0 else PlaceOf(slots[1..], key) + 1
  {
  }

  lemma CutAbsent(slots: seq<Slot>, key: Text)
    ensures slots == [] ==> Cut(slots, PlaceOf(slots, key)) == []
  {
  }

  lemma DifferOn(slots: seq<Slot>)
    requires slots != [] && KeysDiffer(slots)
    ensures KeysDiffer(slots[1..]) && forall j :: 0 <= j < |slots[1..]| ==> slots[1..][j].key != slots[0].key
  {
  }

  /** A call is served the entry under its key exactly when it is still alive, and makes it the most recent one;
      otherwise a new promise takes the recent end, whatever was under the key is dropped, and so are the oldest
      entries until the bound is met. */
  lemma CallOutcome(cfg: Config, s: State, key: Text, now: int)
    requires Valid(cfg, s)
    ensures var t, i := Step(cfg, s, Call(key, now)), PlaceOf(s.slots, key);
            && t.uses == s.uses + [key] && t.handled == s.handled
            && if i < |s.slots| && s.slots[i].expiresAt > now then
                 && t.slots == Cut(s.slots, i) + [s.slots[i]] && t.created == s.created
                 && Served(s, key, now) == s.slots[i].promise
               else
                 var all := Cut(s.slots, i) + [Slot(key, |s.created|, now + cfg.ttl)];
                 && t.slots == all[if cfg.max < 0 then |all| else if |all| > cfg.max then |all| - cfg.max else 0..]
                 && t.created == s.created + [Creation(key, now)] && Served(s, key, now) == |s.created|
  {
    assert KeysDiffer(s.slots);
    hide Remove, Find, Evict, Put, OrderedByUse, Cut, KeysDiffer, PlaceOf, Genuine, LastUse;
    FindAt(s.slots, key);
    RemoveAt(s.slots, key);
    if LookUp(s.slots, key, now).hit.None? {
      MissSlots(cfg, s.slots, s.uses, Slot(key, |s.created|, now + cfg.ttl), now);
    }
  }

  lemma {:induction false} FindAt(slots: seq<Slot>, key: Text)
    ensures var i := PlaceOf(slots, key); Find(slots, key) == if i < |slots| then Some(slots[i]) else None
  {
    if slots != [] && slots[0].key != key { FindAt(slots[1..], key); }
  }

  /** The rejection of a promise takes whatever is under its key. */
  lemma RejectionOutcome(cfg: Config, s: State, p: nat)
    requires Valid(cfg, s)
    ensures var t := Step(cfg, s, OnRejected(p));
            if p < |s.created| then
              t == State(Cut(s.slots, PlaceOf(s.slots, s.created[p].key)), s.uses, s.created, s.handled + {p})
            else t == s
  {
    if p < |s.created| { RemoveAt(s.slots, s.created[p].key); }
  }

  // ----- the cache as the source has it -----

  class AdapterCache {
    const config: Config
    var cache: seq<Slot>

    constructor (config: Config)
      ensures this.config == config && cache == []
    {
      this.config := config;
      cache := [];
    }

    method GetCached(key: Text, now: int) returns (hit: Option<Slot>)
      modifies this
      ensures Lookup(hit, cache) == LookUp(old(cache), key, now)
    {
      hit := Find(cache, key);
      if hit.None? {
        return None;
      }
      if hit.value.expiresAt <= now {
        cache := Remove(cache, key);
        return None;
      }
      cache := Remove(cache, key);
      RemovedAbsent(old(cache), key);
      PutAbsent(cache, hit.value);
      cache := Put(cache, hit.value);
    }

    method SetCached(key: Text, promise: nat, now: int)
      modifies this
      ensures cache == Insert(config, old(cache), key, promise, now)
    {
      cache := Put(cache, Slot(key, promise, now + config.ttl));
      ghost var filled := cache;
      while |cache| > config.max
        invariant Evict(cache, config.max) == Evict(filled, config.max)
        decreases |cache|
      {
        if |cache| == 0 {
          break;
        }
        cache := cache[1..];
      }
    }

    method OnRejected(key: Text)
      modifies this
      ensures cache == Remove(old(cache), key)
    {
      cache := Remove(cache, key);
    }
  }

  lemma {:induction false} RemovedAbsent(slots: seq<Slot>, key: Text)
    ensures forall x :: x in Remove(slots, key) ==> x.key != key
  {
    if slots != [] { RemovedAbsent(slots[1..], key); }
  }
}
