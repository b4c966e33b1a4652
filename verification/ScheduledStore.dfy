/** The in-memory store of scheduled checks: one record per rule and key, claimed when due under a lease that
    keeps it from being claimed again until it runs out. */
module ScheduledStore {
  import opened CodeUnits
  import opened JoinedNames
  import opened Lists
  import opened Options
  import opened TimeOrder

  datatype Record = Record(rule: Text, key: Text, runAt: int, scheduledAt: int, deadline: Option<int>, payload: nat)

  /** The records of a rule, in the order their keys were first set. */
  datatype Group = Group(rule: Text, recs: seq<Record>)

  datatype Store = Store(groups: seq<Group>, leases: map<Text, int>)

  function Empty(): Store { Store([], map[]) }

  /** Leases are filed under the joined identifiers. */
  function LeaseKey(rule: Text, key: Text): Text { Joined(rule, COLON, key) }

  function Lease(r: Record): Text { LeaseKey(r.rule, r.key) }

  // ----- records -----

  function FindRec(recs: seq<Record>, key: Text): Option<Record>
  {
    if recs == [] then None else if recs[0].key == key then Some(recs[0]) else FindRec(recs[1..], key)
  }

  /** Setting a key that is there keeps its place. */
  function PutRec(recs: seq<Record>, r: Record): seq<Record>
  {
    if recs == [] then [r] else if recs[0].key == r.key then [r] + recs[1..] else [recs[0]] + PutRec(recs[1..], r)
  }

  function DropRec(recs: seq<Record>, key: Text): seq<Record>
  {
    if recs == [] then [] else if recs[0].key == key then recs[1..] else [recs[0]] + DropRec(recs[1..], key)
  }

  function Get(groups: seq<Group>, rule: Text, key: Text): Option<Record>
  {
    if groups == [] then None
    else if groups[0].rule == rule then FindRec(groups[0].recs, key)
    else Get(groups[1..], rule, key)
  }

  function Put(groups: seq<Group>, r: Record): seq<Group>
  {
    if groups == [] then [Group(r.rule, [r])]
    else if groups[0].rule == r.rule then [Group(r.rule, PutRec(groups[0].recs, r))] + groups[1..]
    else [groups[0]] + Put(groups[1..], r)
  }

  function Drop(groups: seq<Group>, rule: Text, key: Text): seq<Group>
  {
    if groups == [] then []
    else if groups[0].rule == rule then [Group(rule, DropRec(groups[0].recs, key))] + groups[1..]
    else [groups[0]] + Drop(groups[1..], rule, key)
  }

  /** All records, in the order they are visited. */
  function All(groups: seq<Group>): seq<Record>
  {
    if groups == [] then [] else groups[0].recs + All(groups[1..])
  }

  // ----- operations -----

  function Enqueue(s: Store, r: Record): Store { Store(Put(s.groups, r), s.leases - {Lease(r)}) }

  function Remove(s: Store, rule: Text, key: Text): Store
  {
    Store(Drop(s.groups, rule, key), s.leases - {LeaseKey(rule, key)})
  }

  /** A record that is gone is left gone, and a lease under its name stays. */
  function Reschedule(s: Store, rule: Text, key: Text, newRunAt: int): Store
  {
    var r := Get(s.groups, rule, key);
    if r.None? then s else Store(Put(s.groups, r.value.(runAt := newRunAt)), s.leases - {LeaseKey(rule, key)})
  }

  /** Due and not under a lease. */
  predicate Eligible(leases: map<Text, int>, r: Record, now: int)
  {
    r.runAt <= now && (Lease(r) in leases ==> leases[Lease(r)] <= now)
  }

  function Candidates(recs: seq<Record>, leases: map<Text, int>, now: int): seq<Timed<Record>>
  {
    if recs == [] then []
    else (if Eligible(leases, recs[0], now) then [Timed(recs[0].runAt, recs[0])] else []) + Candidates(recs[1..], leases, now)
  }

  function Values(ts: seq<Timed<Record>>): (r: seq<Record>)
    ensures |r| == |ts| && forall i :: 0 <= i < |ts| ==> r[i] == ts[i].value
  {
    if ts == [] then [] else [ts[0].value] + Values(ts[1..])
  }

  function Clip(limit: int, n: nat): nat { if limit < 0 then 0 else if limit < n then limit else n }

  function Claimed(s: Store, now: int, limit: int): seq<Record>
  {
    var cs := Candidates(All(s.groups), s.leases, now);
    SortLogSorts(cs);
    StableSortLength(SortLog(cs), cs);
    Values(SortLog(cs)[..Clip(limit, |cs|)])
  }

  function LeaseAll(leases: map<Text, int>, rs: seq<Record>, until: int): map<Text, int>
  {
    if rs == [] then leases else LeaseAll(leases, rs[..|rs| - 1], until)[Lease(rs[|rs| - 1]) := until]
  }

  function Claim(s: Store, now: int, limit: int, leaseMs: int): Store
  {
    if leaseMs > 0 then Store(s.groups, LeaseAll(s.leases, Claimed(s, now, limit), now + leaseMs)) else s
  }

  // ----- one record per rule and key -----

  predicate UniqueKeys(recs: seq<Record>) { forall i, j :: 0 <= i < j < |recs| ==> recs[i].key != recs[j].key }

  predicate GroupOk(g: Group) { UniqueKeys(g.recs) && forall i :: 0 <= i < |g.recs| ==> g.recs[i].rule == g.rule }

  predicate ValidGroups(groups: seq<Group>)
  {
    && (forall i :: 0 <= i < |groups| ==> GroupOk(groups[i]))
    && forall i, j :: 0 <= i < j < |groups| ==> groups[i].rule != groups[j].rule
  }

  lemma {:induction false} FindPut(recs: seq<Record>, r: Record, key: Text)
    ensures FindRec(PutRec(recs, r), key) == if key == r.key then Some(r) else FindRec(recs, key)
    ensures forall x :: x in PutRec(recs, r) ==> x == r || x in recs
  {
    if recs != [] && recs[0].key != r.key { FindPut(recs[1..], r, key); }
  }

  lemma {:induction false} PutDistinct(recs: seq<Record>, r: Record)
    requires UniqueKeys(recs)
    ensures UniqueKeys(PutRec(recs, r))
  {
    if recs != [] && recs[0].key != r.key {
      PutDistinct(recs[1..], r);
      FindPut(recs[1..], r, r.key);
      var rest := PutRec(recs[1..], r);
      forall j | 0 <= j < |rest| ensures recs[0].key != rest[j].key { assert rest[j] in rest; }
    }
  }

  lemma {:induction false} FindDrop(recs: seq<Record>, gone: Text, key: Text)
    requires UniqueKeys(recs)
    ensures FindRec(DropRec(recs, gone), key) == if key == gone then None else FindRec(recs, key)
    ensures UniqueKeys(DropRec(recs, gone))
    ensures forall x :: x in DropRec(recs, gone) ==> x in recs
  {
    if recs != [] {
      if recs[0].key != gone {
        FindDrop(recs[1..], gone, key);
        var rest := DropRec(recs[1..], gone);
        forall j | 0 <= j < |rest| ensures recs[0].key != rest[j].key { assert rest[j] in rest && rest[j] in recs[1..]; }
      } else if key == gone {
        FindAbsent(recs[1..], gone);
      }
    }
  }

  lemma {:induction false} FindAbsent(recs: seq<Record>, key: Text)
    requires forall i :: 0 <= i < |recs| ==> recs[i].key != key
    ensures FindRec(recs, key) == None
  {
    if recs != [] { FindAbsent(recs[1..], key); }
  }

  lemma {:induction false} FindMember(recs: seq<Record>, r: Record)
    requires UniqueKeys(recs)
    ensures r in recs <==> FindRec(recs, r.key) == Some(r)
  {
    if recs != [] {
      FindMember(recs[1..], r);
      assert recs == [recs[0]] + recs[1..];
    }
  }

  lemma PutGroupOk(g: Group, r: Record)
    requires GroupOk(g) && g.rule == r.rule
    ensures GroupOk(Group(r.rule, PutRec(g.recs, r)))
  {
    PutDistinct(g.recs, r);
    FindPut(g.recs, r, r.key);
    var recs := PutRec(g.recs, r);
    forall i | 0 <= i < |recs| ensures recs[i].rule == r.rule { assert recs[i] in recs; }
  }

  lemma DropGroupOk(g: Group, key: Text)
    requires GroupOk(g)
    ensures GroupOk(Group(g.rule, DropRec(g.recs, key)))
  {
    FindDrop(g.recs, key, key);
    var recs := DropRec(g.recs, key);
    forall i | 0 <= i < |recs| ensures recs[i].rule == g.rule { assert recs[i] in recs && recs[i] in g.recs; }
  }

  lemma {:induction false} GetPut(groups: seq<Group>, r: Record, rule: Text, key: Text)
    requires ValidGroups(groups)
    ensures ValidGroups(Put(groups, r))
    ensures Get(Put(groups, r), rule, key) == if rule == r.rule && key == r.key then Some(r) else Get(groups, rule, key)
    ensures forall i :: 0 <= i < |Put(groups, r)| ==>
                          Put(groups, r)[i].rule == r.rule ||
                          exists j :: 0 <= j < |groups| && groups[j].rule == Put(groups, r)[i].rule
  {
    if groups != [] {
      if groups[0].rule == r.rule {
        FindPut(groups[0].recs, r, key);
        PutGroupOk(groups[0], r);
        assert Put(groups, r)[1..] == groups[1..];
      } else {
        GetPut(groups[1..], r, rule, key);
        var rest := Put(groups[1..], r);
        assert Put(groups, r)[1..] == rest;
      }
    } else {
      assert [Group(r.rule, [r])][1..] == [] && [r][1..] == [];
      assert FindRec([r], key) == if r.key == key then Some(r) else FindRec([], key);
    }
  }

  lemma {:induction false} GetDrop(groups: seq<Group>, rule: Text, key: Text, rule': Text, key': Text)
    requires ValidGroups(groups)
    ensures ValidGroups(Drop(groups, rule, key)) && |Drop(groups, rule, key)| == |groups|
    ensures forall i :: 0 <= i < |groups| ==> Drop(groups, rule, key)[i].rule == groups[i].rule
    ensures Get(Drop(groups, rule, key), rule', key') == if rule' == rule && key' == key then None else Get(groups, rule', key')
  {
    if groups != [] {
      if groups[0].rule == rule {
        FindDrop(groups[0].recs, key, key');
        DropGroupOk(groups[0], key);
      } else {
        GetDrop(groups[1..], rule, key, rule', key');
      }
    }
  }

  lemma {:induction false} AllMembers(groups: seq<Group>, r: Record)
    requires ValidGroups(groups)
    ensures r in All(groups) <==> Get(groups, r.rule, r.key) == Some(r)
  {
    if groups != [] {
      AllMembers(groups[1..], r);
      FindMember(groups[0].recs, r);
      if groups[0].rule == r.rule { NoSuchRule(groups[1..], r); }
    }
  }

  lemma {:induction false} NoSuchRule(groups: seq<Group>, r: Record)
    requires ValidGroups(groups) && forall i :: 0 <= i < |groups| ==> groups[i].rule != r.rule
    ensures r !in All(groups)
  {
    if groups != [] { NoSuchRule(groups[1..], r); }
  }

  lemma {:induction false} AllDistinct(groups: seq<Group>)
    requires ValidGroups(groups)
    ensures NoRepeats(All(groups))
  {
    if groups != [] {
      AllDistinct(groups[1..]);
      var first, rest := groups[0].recs, All(groups[1..]);
      forall i, j | 0 <= i < j < |first + rest| ensures (first + rest)[i] != (first + rest)[j] {
        if i < |first| <= j {
          NoSuchRule(groups[1..], first[i]);
          assert (first + rest)[j] in rest;
        }
      }
    }
  }

  // ----- what claim returns -----

  lemma {:induction false} CandidateMembers(recs: seq<Record>, leases: map<Text, int>, now: int)
    ensures forall t :: t in Candidates(recs, leases, now) <==>
                          t.value in recs && Eligible(leases, t.value, now) && t.at == t.value.runAt
  {
    if recs != [] {
      CandidateMembers(recs[1..], leases, now);
      assert recs == [recs[0]] + recs[1..];
    }
  }

  lemma {:induction false} CandidatesDistinct(recs: seq<Record>, leases: map<Text, int>, now: int)
    requires NoRepeats(recs)
    ensures NoRepeats(Candidates(recs, leases, now))
  {
    if recs != [] {
      CandidatesDistinct(recs[1..], leases, now);
      CandidateMembers(recs[1..], leases, now);
      var rest := Candidates(recs[1..], leases, now);
      forall j | 0 <= j < |rest| ensures rest[j].value != recs[0] { assert rest[j] in rest; }
    }
  }

  lemma SortMembers(es: seq<Timed<Record>>)
    ensures forall t :: t in SortLog(es) <==> t in es
  {
    SortLogSorts(es);
    hide SortLog;
    forall t ensures t in SortLog(es) <==> t in es {
      assert t in SortLog(es) <==> t in multiset(SortLog(es));
      assert t in es <==> t in multiset(es);
    }
  }

  lemma PlaceDistinct(es: seq<Timed<Record>>, e: Timed<Record>)
    requires Sorted(es) && NoRepeats(es) && e !in es
    ensures NoRepeats(Place(es, e))
  {
    hide Place, Sorted;
    var i := PlaceExists(es, e.at);
    PlaceAt(es, e, i);
    var r := es[..i] + [e] + es[i..];
    forall j | 0 <= j < |r| && j != i ensures r[j] in es { assert r[j] == if j < i then es[j] else es[j - 1]; }
  }

  lemma {:induction false} SortDistinct(es: seq<Timed<Record>>)
    requires NoRepeats(es)
    ensures NoRepeats(SortLog(es))
  {
    if es != [] {
      var init, e := es[..|es| - 1], es[|es| - 1];
      SortDistinct(init);
      SortMembers(init);
      SortLogSorts(init);
      hide Sorted, Place;
      PlaceDistinct(SortLog(init), e);
    }
  }

  /** The record is in the store, due and not under a lease. */
  predicate Available(s: Store, r: Record, now: int)
  {
    && Get(s.groups, r.rule, r.key) == Some(r) && r.runAt <= now
    && (Lease(r) in s.leases ==> s.leases[Lease(r)] <= now)
  }

  /** The candidates are the available records, each once. */
  lemma CandidatesAreAvailable(s: Store, now: int)
    requires ValidGroups(s.groups)
    ensures var cs := Candidates(All(s.groups), s.leases, now);
            && NoRepeats(SortLog(cs)) && |SortLog(cs)| == |cs| && Sorted(SortLog(cs))
            && forall t :: t in SortLog(cs) <==> Available(s, t.value, now) && t.at == t.value.runAt
  {
    var cs := Candidates(All(s.groups), s.leases, now);
    SortLogSorts(cs);
    StableSortLength(SortLog(cs), cs);
    AllDistinct(s.groups);
    CandidatesDistinct(All(s.groups), s.leases, now);
    CandidateMembers(All(s.groups), s.leases, now);
    SortMembers(cs);
    SortDistinct(cs);
    hide Candidates, SortLog, Get, ValidGroups, Eligible;
    forall t ensures t in cs <==> Available(s, t.value, now) && t.at == t.value.runAt { AllMembers(s.groups, t.value); }
  }

  /** A claim returns the front of the available records ordered by due time, ties in the order of the store. */
  lemma ClaimIsFront(s: Store, now: int, limit: int)
    ensures var cs := Candidates(All(s.groups), s.leases, now);
            exists sorted :: IsStableSort(sorted, cs) && |sorted| == |cs|
                && Claimed(s, now, limit) == Values(sorted[..Clip(limit, |cs|)])
  {
    var cs := Candidates(All(s.groups), s.leases, now);
    SortLogSorts(cs);
    StableSortLength(SortLog(cs), cs);
  }

  /** It returns as many records as the limit allows, each available and none twice, the earliest due first, and
      leaves none out that was due before one it returns. */
  lemma ClaimReturns(s: Store, now: int, limit: int)
    requires ValidGroups(s.groups)
    ensures var claimed := Claimed(s, now, limit);
            && NoRepeats(claimed) && |claimed| <= (if limit < 0 then 0 else limit)
            && (forall r :: r in claimed ==> Available(s, r, now))
            && (forall i, j :: 0 <= i < j < |claimed| ==> claimed[i].runAt <= claimed[j].runAt)
            && (forall x: Record :: Available(s, x, now) && x !in claimed ==>
                                      && |claimed| == (if limit < 0 then 0 else limit)
                                      && forall r :: r in claimed ==> r.runAt <= x.runAt)
  {
    var cs, claimed := Candidates(All(s.groups), s.leases, now), Claimed(s, now, limit);
    var sorted := SortLog(cs);
    CandidatesAreAvailable(s, now);
    hide Candidates, SortLog, Available, ValidGroups;
    var n := Clip(limit, |cs|);
    forall i | 0 <= i < |sorted| ensures sorted[i].at == sorted[i].value.runAt { assert sorted[i] in sorted; }
    forall i, j | 0 <= i < j < |claimed| ensures claimed[i] != claimed[j] && claimed[i].runAt <= claimed[j].runAt {
      assert sorted[i] != sorted[j];
    }
    forall r | r in claimed ensures Available(s, r, now) {
      var i :| 0 <= i < n && sorted[i].value == r;
      assert sorted[i] in sorted;
    }
    forall x: Record | Available(s, x, now) && x !in claimed
      ensures n == (if limit < 0 then 0 else limit) && forall r :: r in claimed ==> r.runAt <= x.runAt
    {
      LeftOut(sorted, n, x);
    }
  }

  lemma LeftOut(sorted: seq<Timed<Record>>, n: nat, x: Record)
    requires Sorted(sorted) && n <= |sorted| && Timed(x.runAt, x) in sorted
    requires forall i :: 0 <= i < |sorted| ==> sorted[i].at == sorted[i].value.runAt
    ensures x in Values(sorted[..n]) || (n < |sorted| && forall r :: r in Values(sorted[..n]) ==> r.runAt <= x.runAt)
  {
    var claimed := Values(sorted[..n]);
    var j :| 0 <= j < |sorted| && sorted[j] == Timed(x.runAt, x);
    if j < n {
      assert claimed[j] == x;
    } else {
      forall r | r in claimed ensures r.runAt <= x.runAt {
        var i :| 0 <= i < n && claimed[i] == r;
        assert sorted[i].at <= sorted[j].at;
      }
    }
  }

  // ----- lease names -----

  lemma LeaseNamesClash(rule: Text, key: Text, other: Text, key': Text)
    requires LeaseKey(rule, key) == LeaseKey(other, key')
    ensures Clash(COLON, rule, other)
    ensures rule == other ==> key == key'
  {
    SameNamesClash(COLON, rule, key, other, key');
  }

  /** Joining with a colon tells two rules' records apart exactly when neither identifier with its colon begins
      the other; identifiers without colons are always told apart. */
  lemma LeasesClashIff(rule: Text, other: Text)
    ensures (exists key, key' :: LeaseKey(rule, key) == LeaseKey(other, key')) <==> Clash(COLON, rule, other)
    ensures COLON !in rule && COLON !in other && rule != other ==> !Clash(COLON, rule, other)
  {
    ClashIff(COLON, rule, other);
    if x, y :| Joined(rule, COLON, x) == Joined(other, COLON, y) { assert LeaseKey(rule, x) == LeaseKey(other, y); }
    if x, y :| LeaseKey(rule, x) == LeaseKey(other, y) { assert Joined(rule, COLON, x) == Joined(other, COLON, y); }
  }

  // ----- runs -----

  datatype Op =
    | DoEnqueue(record: Record)
    | DoClaim(now: int, limit: int, leaseMs: int)
    | DoRemove(rule: Text, key: Text)
    | DoReschedule(rule: Text, key: Text, newRunAt: int)

  function Apply(s: Store, op: Op): Store
  {
    match op
    case DoEnqueue(r) => Enqueue(s, r)
    case DoClaim(now, limit, leaseMs) => Claim(s, now, limit, leaseMs)
    case DoRemove(rule, key) => Remove(s, rule, key)
    case DoReschedule(rule, key, newRunAt) => Reschedule(s, rule, key, newRunAt)
  }

  function ApplyAll(s: Store, ops: seq<Op>): Store
    decreases ops
  {
    if ops == [] then s else ApplyAll(Apply(s, ops[0]), ops[1..])
  }

  lemma GetHas(groups: seq<Group>, rule: Text, key: Text)
    requires ValidGroups(groups) && Get(groups, rule, key).Some?
    ensures Get(groups, rule, key).value.rule == rule && Get(groups, rule, key).value.key == key
  {
    if groups[0].rule == rule { FindHas(groups[0].recs, key); } else { GetHas(groups[1..], rule, key); }
  }

  lemma FindHas(recs: seq<Record>, key: Text)
    requires FindRec(recs, key).Some?
    ensures FindRec(recs, key).value in recs && FindRec(recs, key).value.key == key
  {
  }

  lemma ApplyValidGroups(s: Store, op: Op)
    requires ValidGroups(s.groups)
    ensures ValidGroups(Apply(s, op).groups)
  {
    match op
    case DoEnqueue(r) => GetPut(s.groups, r, r.rule, r.key);
    case DoClaim(now, limit, leaseMs) =>
    case DoRemove(rule, key) => GetDrop(s.groups, rule, key, rule, key);
    case DoReschedule(rule, key, newRunAt) =>
      var r := Get(s.groups, rule, key);
      if r.Some? { GetPut(s.groups, r.value.(runAt := newRunAt), rule, key); }
  }

  // ----- the order records are visited in -----

  /** Where a rule's group is, or the number of groups. */
  function GroupAt(groups: seq<Group>, rule: Text): (g: nat)
    ensures g <= |groups| && (forall h :: 0 <= h < g ==> groups[h].rule != rule) && (g < |groups| ==> groups[g].rule == rule)
  {
    if groups == [] || groups[0].rule == rule then 0 else 1 + GroupAt(groups[1..], rule)
  }

  /** Where a key's record is, or the number of records. */
  function RecAt(recs: seq<Record>, key: Text): (i: nat)
    ensures i <= |recs| && (forall j :: 0 <= j < i ==> recs[j].key != key) && (i < |recs| ==> recs[i].key == key)
  {
    if recs == [] || recs[0].key == key then 0 else 1 + RecAt(recs[1..], key)
  }

  /** A record that is set takes the place of the one under its key, or comes last; all others keep theirs. */
  lemma {:induction false} PutRecPlaces(recs: seq<Record>, r: Record)
    ensures var i := RecAt(recs, r.key); PutRec(recs, r) == if i < |recs| then recs[i := r] else recs + [r]
  {
    if recs != [] && recs[0].key != r.key {
      PutRecPlaces(recs[1..], r);
      var i := RecAt(recs[1..], r.key);
      assert i < |recs[1..]| ==> [recs[0]] + recs[1..][i := r] == recs[i + 1 := r];
    }
  }

  /** A record that is dropped leaves the others in their order. */
  lemma {:induction false} DropRecPlaces(recs: seq<Record>, key: Text)
    ensures var i := RecAt(recs, key); DropRec(recs, key) == if i < |recs| then recs[..i] + recs[i + 1..] else recs
  {
    if recs != [] && recs[0].key != key {
      DropRecPlaces(recs[1..], key);
      var i := RecAt(recs[1..], key);
      assert i < |recs[1..]| ==> [recs[0]] + (recs[1..][..i] + recs[1..][i + 1..]) == recs[..i + 1] + recs[i + 2..];
    }
  }

  lemma OneFurther(groups: seq<Group>, g: nat, x: Group)
    requires g + 1 < |groups|
    ensures [groups[0]] + groups[1..][g := x] == groups[g + 1 := x]
  {
  }

  /** Groups keep their places; one that is new comes last, and one that has lost its records stays. */
  lemma {:induction false} GroupsKeepPlaces(groups: seq<Group>, r: Record)
    ensures var g := GroupAt(groups, r.rule);
            && Put(groups, r) == (if g < |groups| then groups[g := Group(r.rule, PutRec(groups[g].recs, r))]
                                  else groups + [Group(r.rule, [r])])
            && Drop(groups, r.rule, r.key) == (if g < |groups| then groups[g := Group(r.rule, DropRec(groups[g].recs, r.key))]
                                               else groups)
  {
    hide PutRec, DropRec;
    if groups != [] && groups[0].rule != r.rule {
      var rest, g := groups[1..], GroupAt(groups[1..], r.rule);
      GroupsKeepPlaces(rest, r);
      if g < |rest| {
        OneFurther(groups, g, Group(r.rule, PutRec(rest[g].recs, r)));
        OneFurther(groups, g, Group(r.rule, DropRec(rest[g].recs, r.key)));
      }
    }
  }

  // ----- what each operation does -----

  /** The lease of that name is gone, the others are as they were. */
  predicate Freed(before: map<Text, int>, after: map<Text, int>, name: Text)
  {
    && name !in after
    && (forall x :: x in after ==> x in before && after[x] == before[x])
    && (forall x :: x in before && x != name ==> x in after)
  }

  /** Enqueueing puts the record under its key and frees the key's lease. */
  lemma EnqueueOutcome(s: Store, r: Record)
    requires ValidGroups(s.groups)
    ensures var t := Apply(s, DoEnqueue(r));
            && Freed(s.leases, t.leases, LeaseKey(r.rule, r.key))
            && forall rule, key :: Get(t.groups, rule, key) ==
                                   if rule == r.rule && key == r.key then Some(r) else Get(s.groups, rule, key)
  {
    hide Get, ValidGroups, LeaseKey, Put;
    var t := Apply(s, DoEnqueue(r));
    forall rule, key
      ensures Get(t.groups, rule, key) == if rule == r.rule && key == r.key then Some(r) else Get(s.groups, rule, key)
    {
      GetPut(s.groups, r, rule, key);
    }
  }

  /** From `s` to `t`, the record of a key is gone and so is its lease; all others are as they were. */
  ghost predicate Gone(s: Store, t: Store, rule: Text, key: Text)
  {
    && Freed(s.leases, t.leases, LeaseKey(rule, key))
    && forall rule', key' :: Get(t.groups, rule', key') ==
                             if rule' == rule && key' == key then None else Get(s.groups, rule', key')
  }

  /** From `s` to `t`, the record of a key has moved to a new due time and lost its lease; where there is none,
      nothing has changed. */
  ghost predicate Moved(s: Store, t: Store, rule: Text, key: Text, newRunAt: int)
  {
    var was := Get(s.groups, rule, key);
    if was.None? then t == s
    else
      && Freed(s.leases, t.leases, LeaseKey(rule, key))
      && forall rule', key' :: Get(t.groups, rule', key') ==
                               if rule' == rule && key' == key then Some(was.value.(runAt := newRunAt))
                               else Get(s.groups, rule', key')
  }

  /** Removing leaves neither record nor lease. */
  lemma RemoveOutcome(s: Store, rule: Text, key: Text)
    requires ValidGroups(s.groups)
    ensures Gone(s, Apply(s, DoRemove(rule, key)), rule, key)
  {
    hide Get, ValidGroups, LeaseKey, Drop;
    var t := Apply(s, DoRemove(rule, key));
    forall rule', key'
      ensures Get(t.groups, rule', key') == if rule' == rule && key' == key then None else Get(s.groups, rule', key')
    {
      GetDrop(s.groups, rule, key, rule', key');
    }
  }

  /** Rescheduling moves a record that is there and frees its lease; a record that is gone stays gone, leases and all. */
  lemma RescheduleOutcome(s: Store, rule: Text, key: Text, newRunAt: int)
    requires ValidGroups(s.groups)
    ensures Moved(s, Apply(s, DoReschedule(rule, key, newRunAt)), rule, key, newRunAt)
  {
    hide Get, ValidGroups, LeaseKey, Put;
    var t, was := Apply(s, DoReschedule(rule, key, newRunAt)), Get(s.groups, rule, key);
    if was.Some? {
      GetHas(s.groups, rule, key);
      var moved := was.value.(runAt := newRunAt);
      forall rule', key'
        ensures Get(t.groups, rule', key') == if rule' == rule && key' == key then Some(moved) else Get(s.groups, rule', key')
      {
        GetPut(s.groups, moved, rule', key');
      }
    }
  }

  /** A claim leaves the records alone and leases exactly what it returns, from now on. */
  lemma ClaimOutcome(s: Store, now: int, limit: int, leaseMs: int, name: Text)
    requires leaseMs > 0
    ensures var t := Apply(s, DoClaim(now, limit, leaseMs));
            && t.groups == s.groups
            && if exists r :: r in Claimed(s, now, limit) && LeaseKey(r.rule, r.key) == name
               then name in t.leases && t.leases[name] == now + leaseMs
               else (name in t.leases <==> name in s.leases) && (name in t.leases ==> t.leases[name] == s.leases[name])
  {
    hide Claimed, LeaseAll, LeaseKey;
    LeaseAllAt(s.leases, Claimed(s, now, limit), now + leaseMs, name);
  }

  // ----- leases -----

  lemma {:induction false} LeaseAllAt(leases: map<Text, int>, rs: seq<Record>, until: int, name: Text)
    ensures var t := LeaseAll(leases, rs, until);
            if exists r :: r in rs && Lease(r) == name then name in t && t[name] == until
            else (name in t <==> name in leases) && (name in t ==> t[name] == leases[name])
  {
    if rs != [] {
      LeaseAllAt(leases, rs[..|rs| - 1], until, name);
      assert rs == rs[..|rs| - 1] + [rs[|rs| - 1]];
      assert rs[|rs| - 1] in rs;
    }
  }

  /** The operation is about a record of that lease name, other than by claiming it. */
  predicate Touches(op: Op, name: Text)
  {
    match op
    case DoEnqueue(r) => Lease(r) == name
    case DoClaim(_, _, _) => false
    case DoRemove(rule, key) => LeaseKey(rule, key) == name
    case DoReschedule(rule, key, _) => LeaseKey(rule, key) == name
  }

  predicate LeasedUntil(s: Store, name: Text, until: int) { name in s.leases && s.leases[name] >= until }

  lemma StepHoldsLease(s: Store, op: Op, name: Text, until: int)
    requires ValidGroups(s.groups) && LeasedUntil(s, name, until) && !Touches(op, name)
    ensures LeasedUntil(Apply(s, op), name, until)
  {
    hide Claimed, Get, ValidGroups, LeaseAll, LeaseKey;
    if op.DoClaim? && op.leaseMs > 0 {
      var claimed := Claimed(s, op.now, op.limit);
      ClaimReturns(s, op.now, op.limit);
      LeaseAllAt(s.leases, claimed, op.now + op.leaseMs, name);
    }
  }

  /** Leases never shorten while nobody touches the record, whatever clock the claims bring. */
  lemma {:induction false} LeaseHolds(s: Store, ops: seq<Op>, name: Text, until: int)
    requires ValidGroups(s.groups) && LeasedUntil(s, name, until)
    requires forall i :: 0 <= i < |ops| ==> !Touches(ops[i], name)
    ensures ValidGroups(ApplyAll(s, ops).groups) && LeasedUntil(ApplyAll(s, ops), name, until)
    decreases ops
  {
    if ops != [] {
      StepHoldsLease(s, ops[0], name, until);
      ApplyValidGroups(s, ops[0]);
      LeaseHolds(Apply(s, ops[0]), ops[1..], name, until);
    }
  }

  /** A record claimed at `now` under a lease is not returned by any claim at a time before the lease runs out,
      unless it was enqueued, removed or rescheduled in between. */
  lemma ClaimFences(s: Store, now: int, limit: int, leaseMs: int, r: Record, ops: seq<Op>, later: int, limit': int)
    requires ValidGroups(s.groups) && r in Claimed(s, now, limit) && leaseMs > 0
    requires forall i :: 0 <= i < |ops| ==> !Touches(ops[i], Lease(r))
    requires later < now + leaseMs
    ensures forall x :: x in Claimed(ApplyAll(Claim(s, now, limit, leaseMs), ops), later, limit') ==> Lease(x) != Lease(r)
  {
    hide Claimed, Get, ValidGroups, LeaseAll;
    var t := Claim(s, now, limit, leaseMs);
    LeaseAllAt(s.leases, Claimed(s, now, limit), now + leaseMs, Lease(r));
    LeaseHolds(t, ops, Lease(r), now + leaseMs);
    ClaimReturns(ApplyAll(t, ops), later, limit');
  }

  /** A clash defeats the lease: removing the one record frees the other, which is then claimed again at once. */
  lemma ClashFrees(r: Record, x: Record, now: int, leaseMs: int)
    requires r.rule != x.rule && Lease(r) == Lease(x) && r.runAt <= now && x.runAt > now && leaseMs > 0
    ensures var s := ApplyAll(Empty(), [DoEnqueue(r), DoEnqueue(x), DoClaim(now, 1, leaseMs), DoRemove(x.rule, x.key)]);
            r in Claimed(s, now, 1)
  {
    var s0 := Enqueue(Empty(), r);
    var s1 := Enqueue(s0, x);
    var s2 := Claim(s1, now, 1, leaseMs);
    var s3 := Remove(s2, x.rule, x.key);
    assert ApplyAll(Empty(), [DoEnqueue(r), DoEnqueue(x), DoClaim(now, 1, leaseMs), DoRemove(x.rule, x.key)]) == s3 by {
      FourSteps(Empty(), DoEnqueue(r), DoEnqueue(x), DoClaim(now, 1, leaseMs), DoRemove(x.rule, x.key));
    }
    GetPut([], r, r.rule, r.key);
    GetPut(s0.groups, x, r.rule, r.key);
    GetDrop(s2.groups, x.rule, x.key, r.rule, r.key);
    assert Available(s3, r, now);
    hide Claimed, Get, ApplyAll;
    ClaimReturns(s3, now, 1);
    forall y | y in Claimed(s3, now, 1) ensures y == r { OnlyOne(s0, x, s3, r, y, now); }
    var claimed := Claimed(s3, now, 1);
    assert |claimed| == 1 ==> claimed[0] in claimed;
  }

  /** The operation enqueues, removes or reschedules a record of one of the rules. */
  predicate OfRules(op: Op, rules: set<Text>)
  {
    match op
    case DoEnqueue(r) => r.rule in rules
    case DoClaim(_, _, _) => true
    case DoRemove(rule, _) => rule in rules
    case DoReschedule(rule, _, _) => rule in rules
  }

  /** The operation enqueues, removes or reschedules that very record. */
  predicate Handles(op: Op, rule: Text, key: Text)
  {
    match op
    case DoEnqueue(r) => r.rule == rule && r.key == key
    case DoClaim(_, _, _) => false
    case DoRemove(rule', key') => rule' == rule && key' == key
    case DoReschedule(rule', key', _) => rule' == rule && key' == key
  }

  /** A record of the first rule that is claimed after some operations is claimed again, under its lease and after
      more operations on records of the two rules other than it. */
  ghost predicate ClaimedTwice(rule: Text, other: Text, before: seq<Op>, now: int, limit: int, leaseMs: int, r: Record,
                               between: seq<Op>, later: int, limit': int)
  {
    var s := ApplyAll(Empty(), before);
    && r.rule == rule && r in Claimed(s, now, limit) && leaseMs > 0 && later < now + leaseMs
    && (forall i :: 0 <= i < |between| ==> OfRules(between[i], {rule, other}) && !Handles(between[i], rule, r.key))
    && r in Claimed(ApplyAll(Claim(s, now, limit, leaseMs), between), later, limit')
  }

  lemma {:induction false} ApplyAllValid(s: Store, ops: seq<Op>)
    requires ValidGroups(s.groups)
    ensures ValidGroups(ApplyAll(s, ops).groups)
    decreases ops
  {
    hide Apply, ValidGroups;
    if ops != [] {
      ApplyValidGroups(s, ops[0]);
      ApplyAllValid(Apply(s, ops[0]), ops[1..]);
    }
  }

  lemma EmptyIsValid()
    ensures ValidGroups(Empty().groups)
  {
  }

  lemma NeverTwice(rule: Text, other: Text, before: seq<Op>, now: int, limit: int, leaseMs: int, r: Record,
                   between: seq<Op>, later: int, limit': int)
    requires rule == other || !Clash(COLON, rule, other)
    ensures !ClaimedTwice(rule, other, before, now, limit, leaseMs, r, between, later, limit')
  {
    hide ApplyAll, Claimed, Claim, ValidGroups, LeaseKey;
    if ClaimedTwice(rule, other, before, now, limit, leaseMs, r, between, later, limit') {
      var s := ApplyAll(Empty(), before);
      EmptyIsValid();
      ApplyAllValid(Empty(), before);
      forall i | 0 <= i < |between| ensures !Touches(between[i], Lease(r)) { NotTouched(between[i], rule, other, r); }
      ClaimFences(s, now, limit, leaseMs, r, between, later, limit');
    }
  }

  lemma NotTouched(op: Op, rule: Text, other: Text, r: Record)
    requires rule == other || !Clash(COLON, rule, other)
    requires r.rule == rule && OfRules(op, {rule, other}) && !Handles(op, rule, r.key)
    ensures !Touches(op, Lease(r))
  {
    hide LeaseKey;
    match op
    case DoEnqueue(x) => if Lease(x) == Lease(r) { LeaseNamesClash(r.rule, r.key, x.rule, x.key); }
    case DoClaim(_, _, _) =>
    case DoRemove(rule', key) => if LeaseKey(rule', key) == Lease(r) { LeaseNamesClash(r.rule, r.key, rule', key); }
    case DoReschedule(rule', key, _) => if LeaseKey(rule', key) == Lease(r) { LeaseNamesClash(r.rule, r.key, rule', key); }
  }

  /** Two rules can break each other's leases exactly when their identifiers clash. */
  lemma ClaimedTwiceIff(rule: Text, other: Text)
    ensures (exists before, now, limit, leaseMs, r, between, later, limit' ::
               ClaimedTwice(rule, other, before, now, limit, leaseMs, r, between, later, limit'))
            <==> rule != other && Clash(COLON, rule, other)
  {
    if rule != other && Clash(COLON, rule, other) {
      LeasesClashIff(rule, other);
      var key, key' :| LeaseKey(rule, key) == LeaseKey(other, key');
      var r, x := Record(rule, key, 0, 0, None, 0), Record(other, key', 1, 0, None, 0);
      ClashTwice(r, x);
    } else {
      forall before, now, limit, leaseMs, r, between, later, limit'
        ensures !ClaimedTwice(rule, other, before, now, limit, leaseMs, r, between, later, limit')
      {
        NeverTwice(rule, other, before, now, limit, leaseMs, r, between, later, limit');
      }
    }
  }

  lemma ClashTwice(r: Record, x: Record)
    requires r.rule != x.rule && Lease(r) == Lease(x) && r.runAt <= 0 < x.runAt
    ensures ClaimedTwice(r.rule, x.rule, [DoEnqueue(r), DoEnqueue(x)], 0, 1, 1, r, [DoRemove(x.rule, x.key)], 0, 1)
  {
    ClashFrees(r, x, 0, 1);
    var s0 := Enqueue(Empty(), r);
    var s := Enqueue(s0, x);
    FourSteps(Empty(), DoEnqueue(r), DoEnqueue(x), DoClaim(0, 1, 1), DoRemove(x.rule, x.key));
    FewSteps(Empty(), DoEnqueue(r), DoEnqueue(x));
    FewSteps(Claim(s, 0, 1, 1), DoRemove(x.rule, x.key), DoRemove(x.rule, x.key));
    GetPut([], r, r.rule, r.key);
    GetPut(s0.groups, x, r.rule, r.key);
    hide Claimed, Get, ApplyAll, LeaseKey, Claim;
    assert Available(s, r, 0);
    ClaimReturns(s, 0, 1);
    forall y | y in Claimed(s, 0, 1) ensures y == r { OnlyDue(s0, r, x, y); }
    var claimed := Claimed(s, 0, 1);
    assert |claimed| == 1 ==> claimed[0] in claimed;
  }

  lemma OnlyDue(s0: Store, r: Record, x: Record, y: Record)
    requires s0 == Enqueue(Empty(), r) && x.runAt > 0 && Available(Enqueue(s0, x), y, 0)
    ensures y == r
  {
    GetPut([], r, y.rule, y.key);
    GetPut(s0.groups, x, y.rule, y.key);
  }

  lemma FewSteps(s: Store, a: Op, b: Op)
    ensures ApplyAll(s, [a]) == Apply(s, a) && ApplyAll(s, [a, b]) == Apply(Apply(s, a), b)
  {
    hide Apply;
    assert [a, b][1..] == [b] && [b][1..] == [] && [a][1..] == [];
    assert ApplyAll(s, [a]) == ApplyAll(Apply(s, a), []);
    assert ApplyAll(s, [a, b]) == ApplyAll(Apply(s, a), [b]) == ApplyAll(Apply(Apply(s, a), b), []);
  }

  lemma OnlyOne(s0: Store, x: Record, s3: Store, r: Record, y: Record, now: int)
    requires s0.groups == [Group(r.rule, [r])] && s3.groups == Drop(Put(s0.groups, x), x.rule, x.key)
    requires Available(s3, y, now)
    ensures y == r
  {
    GetPut([], r, y.rule, y.key);
    GetPut(s0.groups, x, y.rule, y.key);
    GetDrop(Put(s0.groups, x), x.rule, x.key, y.rule, y.key);
    assert Put([], r) == s0.groups;
  }

  lemma FourSteps(s: Store, a: Op, b: Op, c: Op, d: Op)
    ensures ApplyAll(s, [a, b, c, d]) == Apply(Apply(Apply(Apply(s, a), b), c), d)
  {
    hide Apply;
    assert [a, b, c, d][1..] == [b, c, d] && [b, c, d][1..] == [c, d] && [c, d][1..] == [d] && [d][1..] == [];
    assert ApplyAll(s, [a, b, c, d]) == ApplyAll(Apply(s, a), [b, c, d]) == ApplyAll(Apply(Apply(s, a), b), [c, d]);
    assert ApplyAll(Apply(Apply(s, a), b), [c, d]) == ApplyAll(Apply(Apply(Apply(s, a), b), c), [d]);
  }

  // ----- the store as the source has it -----

  class InMemoryScheduledStore {
    var records: seq<Group>
    var leases: map<Text, int>

    ghost function Current(): Store
      reads this
    {
      Store(records, leases)
    }

    constructor ()
      ensures Current() == Empty()
    {
      records, leases := [], map[];
    }

    method Enqueue(rule: Text, key: Text, runAt: int, payload: nat, scheduledAt: int, deadline: Option<int>)
      modifies this
      ensures Current() == Apply(old(Current()), DoEnqueue(Record(rule, key, runAt, scheduledAt, deadline, payload)))
    {
      records := Put(records, Record(rule, key, runAt, scheduledAt, deadline, payload));
      leases := leases - {LeaseKey(rule, key)};
    }

    method CollectCandidates(now: int) returns (candidates: seq<Timed<Record>>)
      ensures candidates == Candidates(All(records), leases, now)
    {
      candidates := [];
      assert records[0..] == records;
      assert [] + Candidates(All(records), leases, now) == Candidates(All(records), leases, now);
      for i := 0 to |records|
        invariant candidates + Candidates(All(records[i..]), leases, now) == Candidates(All(records), leases, now)
      {
        var group := records[i].recs;
        assert records[i..][1..] == records[i + 1..];
        ghost var rest := All(records[i + 1..]);
        assert group[0..] == group;
        for j := 0 to |group|
          invariant candidates + Candidates(group[j..] + rest, leases, now) == Candidates(All(records), leases, now)
        {
          var rec := group[j];
          assert (group[j..] + rest)[1..] == group[j + 1..] + rest;
          OneCandidate(candidates, group[j..] + rest, leases, now);
          if rec.runAt > now {
            continue;
          }
          var lk := LeaseKey(rec.rule, rec.key);
          if lk in leases && leases[lk] > now {
            continue;
          }
          candidates := candidates + [Timed(rec.runAt, rec)];
        }
        assert group[|group|..] + rest == rest;
      }
      assert candidates + [] == candidates;
    }

    method Claim(now: int, limit: int, leaseMs: int) returns (claimed: seq<Record>)
      modifies this
      ensures claimed == Claimed(old(Current()), now, limit)
      ensures Current() == Apply(old(Current()), DoClaim(now, limit, leaseMs))
    {
      hide Candidates, All, SortLog;
      var candidates := CollectCandidates(now);
      SortLogSorts(candidates);
      StableSortLength(SortLog(candidates), candidates);
      candidates := SortLog(candidates);
      claimed := Values(candidates[..Clip(limit, |candidates|)]);
      if leaseMs > 0 {
        for i := 0 to |claimed|
          invariant records == old(records)
          invariant leases == LeaseAll(old(leases), claimed[..i], now + leaseMs)
        {
          assert claimed[..i + 1][..i] == claimed[..i];
          leases := leases[LeaseKey(claimed[i].rule, claimed[i].key) := now + leaseMs];
        }
        assert claimed[..|claimed|] == claimed;
      }
    }

    method Remove(rule: Text, key: Text)
      modifies this
      ensures Current() == Apply(old(Current()), DoRemove(rule, key))
    {
      records := Drop(records, rule, key);
      leases := leases - {LeaseKey(rule, key)};
    }

    method Reschedule(rule: Text, key: Text, newRunAt: int)
      modifies this
      ensures Current() == Apply(old(Current()), DoReschedule(rule, key, newRunAt))
    {
      var rec := Get(records, rule, key);
      if rec.None? {
        return;
      }
      records := Put(records, rec.value.(runAt := newRunAt));
      leases := leases - {LeaseKey(rule, key)};
    }
  }

  lemma OneCandidate(done: seq<Timed<Record>>, recs: seq<Record>, leases: map<Text, int>, now: int)
    requires recs != []
    ensures done + Candidates(recs, leases, now)
            == (if Eligible(leases, recs[0], now) then done + [Timed(recs[0].runAt, recs[0])] else done)
               + Candidates(recs[1..], leases, now)
  {
  }
}
