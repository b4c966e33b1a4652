/** The in-memory aggregation store: per rule, action and key a bucket of entries sorted by time, searched by
    bisection. It stands in for a plain log of everything that was appended. */
module AggregationStore {
  import opened CodeUnits
  import opened TimeOrder

  /** A payload is only carried along, so a number stands for it. */
  datatype Arrival = Arrival(delivery: Text, payload: nat)

  type Entry = Timed<Arrival>

  datatype Key = Key(rule: Text, action: Text, keyId: Text)

  // ----- runs -----

  /** What changes the store. Pruning drops what is older than `olderThan` at the time `now`. */
  datatype Op = Append(key: Key, entry: Entry) | Prune(olderThan: int, now: int)

  function From(es: seq<Entry>, lo: int): seq<Entry>
  {
    if es == [] then [] else (if es[0].at >= lo then [es[0]] else []) + From(es[1..], lo)
  }

  /** The bucket of a key after a run. */
  function Bucket(ops: seq<Op>, key: Key): seq<Entry>
  {
    if ops == [] then []
    else
      var before, op := Bucket(ops[..|ops| - 1], key), ops[|ops| - 1];
      match op
      case Append(k, e) => if k == key then Place(before, e) else before
      case Prune(olderThan, now) => From(before, now - olderThan)
  }

  /** The log: everything ever appended under a key. */
  function Appended(ops: seq<Op>, key: Key): seq<Entry>
  {
    if ops == [] then []
    else
      Appended(ops[..|ops| - 1], key) +
      if ops[|ops| - 1].Append? && ops[|ops| - 1].key == key then [ops[|ops| - 1].entry] else []
  }

  lemma {:induction false} FromMembers(es: seq<Entry>, lo: int)
    ensures forall e :: e in From(es, lo) <==> e in es && e.at >= lo
  {
    if es != [] {
      FromMembers(es[1..], lo);
      assert es == [es[0]] + es[1..];
    }
  }

  lemma {:induction false} FromSorted(es: seq<Entry>, lo: int)
    requires Sorted(es)
    ensures Sorted(From(es, lo))
  {
    if es != [] {
      FromSorted(es[1..], lo);
      FromMembers(es[1..], lo);
      var rest := From(es[1..], lo);
      forall i | 0 <= i < |rest| ensures es[0].at <= rest[i].at { assert rest[i] in es[1..]; }
    }
  }

  lemma {:induction false} FromIsSlice(es: seq<Entry>, lo: int, l: nat)
    requires l <= |es|
    requires (forall i :: 0 <= i < l ==> es[i].at < lo) && (forall i :: l <= i < |es| ==> es[i].at >= lo)
    ensures From(es, lo) == es[l..]
  {
    if es != [] {
      FromIsSlice(es[1..], lo, if l > 0 then l - 1 else 0);
      assert es == [es[0]] + es[1..];
    }
  }

  lemma {:induction false} FromKeepsLater(es: seq<Entry>, lo: int, t: int)
    requires t >= lo
    ensures AtTime(From(es, lo), t) == AtTime(es, t)
  {
    if es != [] {
      FromKeepsLater(es[1..], lo, t);
      WindowConcat(if es[0].at >= lo then [es[0]] else [], From(es[1..], lo), t, t);
    }
  }

  lemma {:induction false} BucketSorted(ops: seq<Op>, key: Key)
    ensures Sorted(Bucket(ops, key))
  {
    if ops != [] {
      var before, op := Bucket(ops[..|ops| - 1], key), ops[|ops| - 1];
      BucketSorted(ops[..|ops| - 1], key);
      match op
      case Append(k, e) => PlaceKeepsOrder(before, e);
      case Prune(olderThan, now) => FromSorted(before, now - olderThan);
    }
  }

  /** Nothing from `lo` on has been pruned. */
  predicate KeptFrom(ops: seq<Op>, lo: int)
  {
    forall i :: 0 <= i < |ops| && ops[i].Prune? ==> ops[i].now - ops[i].olderThan <= lo
  }

  lemma {:induction false} BucketKeepsLog(ops: seq<Op>, key: Key, lo: int, t: int)
    requires KeptFrom(ops, lo) && lo <= t
    ensures AtTime(Bucket(ops, key), t) == AtTime(Appended(ops, key), t)
  {
    if ops != [] {
      var init, op := ops[..|ops| - 1], ops[|ops| - 1];
      BucketKeepsLog(init, key, lo, t);
      BucketSorted(init, key);
      match op
      case Append(k, e) =>
        if k == key {
          PlaceIsStable(Bucket(init, key), e, t);
          WindowConcat(Bucket(init, key), [e], t, t);
          WindowConcat(Appended(init, key), [e], t, t);
        } else {
          assert Appended(ops, key) == Appended(init, key);
        }
      case Prune(olderThan, now) =>
        FromKeepsLater(Bucket(init, key), now - olderThan, t);
        assert Appended(ops, key) == Appended(init, key);
    }
  }

  /** What `list` returns: the log's entries in the window, by time and then by order of arrival, as long as
      no pruning has reached into the window. `count` is their number when the window is not negative. */
  lemma ListIsLogWindow(ops: seq<Op>, key: Key, now: int, window: int)
    requires KeptFrom(ops, now - window)
    ensures IsStableSort(Window(Bucket(ops, key), now - window, now), Window(Appended(ops, key), now - window, now))
    ensures window >= 0 ==> CountOf(Bucket(ops, key), now - window, now) == |Window(Appended(ops, key), now - window, now)|
  {
    hide Bucket, Appended, Window, AtTime, CountOf, KeptFrom, Sorted;
    if window >= 0 { CountIsLength(Bucket(ops, key), now - window, now); }
    var bucket, log, lo := Bucket(ops, key), Appended(ops, key), now - window;
    BucketSorted(ops, key);
    WindowSorted(bucket, lo, now);
    forall t ensures AtTime(Window(bucket, lo, now), t) == AtTime(Window(log, lo, now), t) {
      WindowOfWindow(bucket, lo, now, t);
      WindowOfWindow(log, lo, now, t);
      if lo <= t { BucketKeepsLog(ops, key, lo, t); }
    }
    StableSortLength(Window(bucket, lo, now), Window(log, lo, now));
  }

  /** With a clock that does not go back, pruning with at least the window of a later read changes nothing in
      what that read returns. */
  lemma PruneUnseen(ops: seq<Op>, later: seq<Op>, olderThan: int, at: int, key: Key, now: int, window: int)
    requires KeptFrom(ops + later, now - window)
    requires window <= olderThan && at <= now
    ensures Window(Bucket(ops + [Prune(olderThan, at)] + later, key), now - window, now)
            == Window(Bucket(ops + later, key), now - window, now)
  {
    var with, without, lo := ops + [Prune(olderThan, at)] + later, ops + later, now - window;
    assert KeptFrom(with, lo) by {
      forall i | 0 <= i < |with| && with[i].Prune? ensures with[i].now - with[i].olderThan <= lo {
        assert i < |ops| ==> with[i] == without[i];
        assert i > |ops| ==> with[i] == without[i - 1];
      }
    }
    BucketSorted(with, key);
    BucketSorted(without, key);
    AppendedAround(ops, Prune(olderThan, at), later, key);
    var a, b := Window(Bucket(with, key), lo, now), Window(Bucket(without, key), lo, now);
    WindowSorted(Bucket(with, key), lo, now);
    WindowSorted(Bucket(without, key), lo, now);
    forall t ensures AtTime(a, t) == AtTime(b, t) {
      WindowOfWindow(Bucket(with, key), lo, now, t);
      WindowOfWindow(Bucket(without, key), lo, now, t);
      if lo <= t {
        BucketKeepsLog(with, key, lo, t);
        BucketKeepsLog(without, key, lo, t);
      }
    }
    StableSortUnique(a, b);
  }

  lemma {:induction false} AppendedAround(ops: seq<Op>, op: Op, later: seq<Op>, key: Key)
    requires op.Prune?
    ensures Appended(ops + [op] + later, key) == Appended(ops + later, key)
  {
    var all := ops + [op] + later;
    if later == [] {
      assert all[..|all| - 1] == ops && ops + later == ops;
    } else {
      var init := later[..|later| - 1];
      AppendedAround(ops, op, init, key);
      assert all[..|all| - 1] == ops + [op] + init;
      assert (ops + later)[..|ops + later| - 1] == ops + init;
    }
  }

  // ----- the store as the source has it -----

  method LowerBound(es: seq<Entry>, target: int) returns (lo: nat)
    requires Sorted(es)
    ensures lo <= |es|
    ensures forall i :: 0 <= i < lo ==> es[i].at < target
    ensures forall i :: lo <= i < |es| ==> es[i].at >= target
  {
    lo := 0;
    var hi := |es|;
    while lo < hi
      invariant lo <= hi <= |es|
      invariant forall i :: 0 <= i < lo ==> es[i].at < target
      invariant forall i :: hi <= i < |es| ==> es[i].at >= target
    {
      var mid := (lo + hi) / 2;
      if es[mid].at < target { lo := mid + 1; } else { hi := mid; }
    }
  }

  method UpperBound(es: seq<Entry>, target: int) returns (lo: nat)
    requires Sorted(es)
    ensures lo <= |es|
    ensures forall i :: 0 <= i < lo ==> es[i].at <= target
    ensures forall i :: lo <= i < |es| ==> es[i].at > target
  {
    lo := 0;
    var hi := |es|;
    while lo < hi
      invariant lo <= hi <= |es|
      invariant forall i :: 0 <= i < lo ==> es[i].at <= target
      invariant forall i :: hi <= i < |es| ==> es[i].at > target
    {
      var mid := (lo + hi) / 2;
      if es[mid].at <= target { lo := mid + 1; } else { hi := mid; }
    }
  }

  method InsertSorted(es: seq<Entry>, entry: Entry) returns (r: seq<Entry>)
    requires Sorted(es)
    ensures r == Place(es, entry)
  {
    var lo, hi := 0, |es|;
    while lo < hi
      invariant 0 <= lo <= hi <= |es|
      invariant forall i :: 0 <= i < lo ==> es[i].at <= entry.at
      invariant forall i :: hi <= i < |es| ==> es[i].at > entry.at
    {
      var mid := (lo + hi) / 2;
      if es[mid].at <= entry.at { lo := mid + 1; } else { hi := mid; }
    }
    PlaceAt(es, entry, lo);
    r := es[..lo] + [entry] + es[lo..];
  }

  class InMemoryAggregationStore {
    var buckets: map<Key, seq<Entry>>
    ghost var ops: seq<Op>

    function GetBucket(key: Key): seq<Entry>
      reads this
    {
      if key in buckets then buckets[key] else []
    }

    ghost predicate Valid()
      reads this
    {
      forall key :: GetBucket(key) == Bucket(ops, key)
    }

    constructor ()
      ensures Valid() && ops == []
    {
      buckets := map[];
      ops := [];
    }

    method Append(key: Key, entry: Entry)
      requires Valid()
      modifies this
      ensures Valid() && ops == old(ops) + [Op.Append(key, entry)]
    {
      BucketSorted(ops, key);
      var bucket := InsertSorted(GetBucket(key), entry);
      buckets := buckets[key := bucket];
      ops := ops + [Op.Append(key, entry)];
      assert ops[..|ops| - 1] == old(ops);
      assert forall k :: old(GetBucket(k)) == Bucket(old(ops), k);
    }

    method List(key: Key, windowMs: int, now: int) returns (r: seq<Entry>)
      requires Valid()
      ensures r == Window(Bucket(ops, key), now - windowMs, now)
    {
      hide Bucket, Window, CountOf;
      var bucket := GetBucket(key);
      BucketSorted(ops, key);
      var cutoff := now - windowMs;
      var start := LowerBound(bucket, cutoff);
      var end := UpperBound(bucket, now);
      WindowIsSlice(bucket, cutoff, now, start, end);
      r := if start <= end then bucket[start..end] else [];
    }

    method Count(key: Key, windowMs: int, now: int) returns (n: int)
      requires Valid()
      ensures n == CountOf(Bucket(ops, key), now - windowMs, now)
    {
      hide Bucket, Window, CountOf;
      var bucket := GetBucket(key);
      BucketSorted(ops, key);
      var cutoff := now - windowMs;
      var end := UpperBound(bucket, now);
      var start := LowerBound(bucket, cutoff);
      CountIsDifference(bucket, cutoff, now, start, end);
      n := end as int - start as int;
    }

    method AppendAndCount(key: Key, entry: Entry, windowMs: int, now: int) returns (n: int)
      requires Valid()
      modifies this
      ensures Valid() && ops == old(ops) + [Op.Append(key, entry)]
      ensures n == CountOf(Bucket(ops, key), now - windowMs, now)
    {
      hide Bucket, Window, CountOf;
      Append(key, entry);
      var bucket := GetBucket(key);
      BucketSorted(ops, key);
      var cutoff := now - windowMs;
      var end := UpperBound(bucket, now);
      var start := LowerBound(bucket, cutoff);
      CountIsDifference(bucket, cutoff, now, start, end);
      n := end as int - start as int;
    }

    method PruneBuckets(cutoff: int)
      requires forall k :: k in buckets ==> Sorted(buckets[k])
      modifies this`buckets
      ensures buckets == map k | k in old(buckets) :: From(old(buckets)[k], cutoff)
    {
      hide From, Sorted;
      var todo := buckets.Keys;
      while todo != {}
        invariant todo <= buckets.Keys == old(buckets).Keys
        invariant forall k :: k in buckets ==> buckets[k] == if k in todo then old(buckets)[k] else From(old(buckets)[k], cutoff)
        decreases |todo|
      {
        var key :| key in todo;
        todo := todo - {key};
        var entries := buckets[key];
        var start := LowerBound(entries, cutoff);
        FromIsSlice(entries, cutoff, start);
        if start != 0 {
          buckets := buckets[key := entries[start..]];
        } else {
          assert entries[0..] == entries;
        }
      }
    }

    method Prune(olderThanMs: int, now: int)
      requires Valid()
      modifies this
      ensures Valid() && ops == old(ops) + [Op.Prune(olderThanMs, now)]
    {
      forall k | k in buckets ensures Sorted(buckets[k]) {
        assert GetBucket(k) == Bucket(ops, k);
        BucketSorted(ops, k);
      }
      PruneBuckets(now - olderThanMs);
      ops := ops + [Op.Prune(olderThanMs, now)];
      hide Sorted;
      assert ops[..|ops| - 1] == old(ops);
      forall k ensures GetBucket(k) == Bucket(ops, k) {
        assert old(GetBucket(k)) == Bucket(old(ops), k);
        assert From([], now - olderThanMs) == [];
      }
    }
  }
}
