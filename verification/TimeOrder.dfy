/** Things that happened at some time, kept in a list: windows of time, the lists ordered by time in which things
    of the same time keep their order, insertion into such lists at the place found by bisection, and sorting by
    repeated insertion, which yields the one list that is ordered by time and then by position. */
module TimeOrder {
  datatype Timed<T> = Timed(at: int, value: T)

  // ----- by time -----

  predicate Sorted<T(!new)>(es: seq<Timed<T>>) { forall i, j :: 0 <= i < j < |es| ==> es[i].at <= es[j].at }

  /** The entries from `lo` to `hi`, in the order they are in. */
  function Window<T(!new)>(es: seq<Timed<T>>, lo: int, hi: int): seq<Timed<T>>
  {
    if es == [] then []
    else (if lo <= es[0].at <= hi then [es[0]] else []) + Window(es[1..], lo, hi)
  }

  function AtTime<T(!new)>(es: seq<Timed<T>>, t: int): seq<Timed<T>> { Window(es, t, t) }

  /** `sorted` is `es` ordered by time, entries of the same time in the order they have in `es`. */
  ghost predicate IsStableSort<T(!new)>(sorted: seq<Timed<T>>, es: seq<Timed<T>>)
  {
    Sorted(sorted) && forall t :: AtTime(sorted, t) == AtTime(es, t)
  }

  /** `i` is where an entry belongs: after everything not later than it. */
  predicate IsPlace<T(!new)>(es: seq<Timed<T>>, at: int, i: nat)
  {
    && i <= |es|
    && (forall j :: 0 <= j < i ==> es[j].at <= at)
    && (forall j :: i <= j < |es| ==> es[j].at > at)
  }

  function Place<T(!new)>(es: seq<Timed<T>>, e: Timed<T>): seq<Timed<T>>
  {
    if es == [] || es[0].at > e.at then [e] + es else [es[0]] + Place(es[1..], e)
  }

  // ----- lemmas about windows -----

  lemma Associative<T(!new)>(a: seq<Timed<T>>, b: seq<Timed<T>>, c: seq<Timed<T>>)
    ensures a + (b + c) == a + b + c
  {
  }

  lemma {:induction false} WindowConcat<T(!new)>(a: seq<Timed<T>>, b: seq<Timed<T>>, lo: int, hi: int)
    ensures Window(a + b, lo, hi) == Window(a, lo, hi) + Window(b, lo, hi)
  {
    if a == [] {
      assert a + b == b;
    } else {
      WindowConcat(a[1..], b, lo, hi);
      assert (a + b)[1..] == a[1..] + b;
      Associative(if lo <= a[0].at <= hi then [a[0]] else [], Window(a[1..], lo, hi), Window(b, lo, hi));
    }
  }

  lemma {:induction false} WindowNone<T(!new)>(es: seq<Timed<T>>, lo: int, hi: int)
    requires forall i :: 0 <= i < |es| ==> !(lo <= es[i].at <= hi)
    ensures Window(es, lo, hi) == []
  {
    if es != [] { WindowNone(es[1..], lo, hi); }
  }

  lemma {:induction false} WindowAll<T(!new)>(es: seq<Timed<T>>, lo: int, hi: int)
    requires forall i :: 0 <= i < |es| ==> lo <= es[i].at <= hi
    ensures Window(es, lo, hi) == es
  {
    if es != [] { WindowAll(es[1..], lo, hi); }
  }

  /** `l` and `u` are the lower bound of `lo` and the upper bound of `hi`. */
  predicate Bounds<T(!new)>(es: seq<Timed<T>>, lo: int, hi: int, l: nat, u: nat)
  {
    && l <= |es| && u <= |es|
    && (forall i :: 0 <= i < l ==> es[i].at < lo) && (forall i :: l <= i < |es| ==> es[i].at >= lo)
    && (forall i :: 0 <= i < u ==> es[i].at <= hi) && (forall i :: u <= i < |es| ==> es[i].at > hi)
  }

  /** Between the bounds of a sorted bucket lies the window; crossed bounds mean it is empty. */
  lemma WindowIsSlice<T(!new)>(es: seq<Timed<T>>, lo: int, hi: int, l: nat, u: nat)
    requires Bounds(es, lo, hi, l, u)
    ensures Window(es, lo, hi) == if l <= u then es[l..u] else []
  {
    if l <= u {
      assert es == es[..l] + es[l..u] + es[u..];
      WindowConcat(es[..l] + es[l..u], es[u..], lo, hi);
      WindowConcat(es[..l], es[l..u], lo, hi);
      WindowNone(es[..l], lo, hi);
      WindowAll(es[l..u], lo, hi);
      WindowNone(es[u..], lo, hi);
    } else {
      WindowNone(es, lo, hi);
    }
  }

  /** What the source counts: the entries in the window, less those strictly between `hi` and `lo` when the two
      are crossed. With a window of non-negative length that is the number of entries in it. */
  function CountOf<T(!new)>(es: seq<Timed<T>>, lo: int, hi: int): int
  {
    |Window(es, lo, hi)| - |Window(es, hi + 1, lo - 1)|
  }

  lemma CountIsDifference<T(!new)>(es: seq<Timed<T>>, lo: int, hi: int, l: nat, u: nat)
    requires Bounds(es, lo, hi, l, u)
    ensures u - l == CountOf(es, lo, hi)
  {
    WindowIsSlice(es, lo, hi, l, u);
    WindowIsSlice(es, hi + 1, lo - 1, u, l);
  }

  lemma CountIsLength<T(!new)>(es: seq<Timed<T>>, lo: int, hi: int)
    requires lo <= hi
    ensures CountOf(es, lo, hi) == |Window(es, lo, hi)|
  {
    WindowNone(es, hi + 1, lo - 1);
  }

  lemma {:induction false} WindowOfWindow<T(!new)>(es: seq<Timed<T>>, lo: int, hi: int, t: int)
    ensures AtTime(Window(es, lo, hi), t) == if lo <= t <= hi then AtTime(es, t) else []
  {
    if es != [] {
      WindowOfWindow(es[1..], lo, hi, t);
      var first := if lo <= es[0].at <= hi then [es[0]] else [];
      WindowConcat(first, Window(es[1..], lo, hi), t, t);
    }
  }

  lemma {:induction false} WindowMembers<T(!new)>(es: seq<Timed<T>>, lo: int, hi: int)
    ensures forall e :: e in Window(es, lo, hi) <==> e in es && lo <= e.at <= hi
  {
    if es != [] {
      WindowMembers(es[1..], lo, hi);
      assert es == [es[0]] + es[1..];
    }
  }

  lemma {:induction false} WindowSorted<T(!new)>(es: seq<Timed<T>>, lo: int, hi: int)
    requires Sorted(es)
    ensures Sorted(Window(es, lo, hi))
  {
    if es != [] {
      WindowSorted(es[1..], lo, hi);
      WindowMembers(es[1..], lo, hi);
      var rest := Window(es[1..], lo, hi);
      forall i | 0 <= i < |rest| ensures es[0].at <= rest[i].at { assert rest[i] in es[1..]; }
    }
  }

  // ----- insertion keeps the bucket a stable sort -----

  lemma {:induction false} PlaceAt<T(!new)>(es: seq<Timed<T>>, e: Timed<T>, i: nat)
    requires IsPlace(es, e.at, i)
    ensures Place(es, e) == es[..i] + [e] + es[i..]
  {
    if i > 0 {
      PlaceAt(es[1..], e, i - 1);
      assert es[..i] == [es[0]] + es[1..][..i - 1] && es[1..][i - 1..] == es[i..];
    }
  }

  lemma {:induction false} PlaceExists<T(!new)>(es: seq<Timed<T>>, at: int) returns (i: nat)
    requires Sorted(es)
    ensures IsPlace(es, at, i)
  {
    if es == [] || es[0].at > at {
      i := 0;
    } else {
      var j := PlaceExists(es[1..], at);
      i := j + 1;
      forall k | 0 <= k < i ensures es[k].at <= at { if k > 0 { assert es[k] == es[1..][k - 1]; } }
      forall k | i <= k < |es| ensures es[k].at > at { assert es[k] == es[1..][k - 1]; }
    }
  }

  lemma PlaceKeepsOrder<T(!new)>(es: seq<Timed<T>>, e: Timed<T>)
    requires Sorted(es)
    ensures Sorted(Place(es, e))
  {
    hide Place;
    var i := PlaceExists(es, e.at);
    PlaceAt(es, e, i);
  }

  lemma {:induction false} PlaceAdds<T(!new)>(es: seq<Timed<T>>, e: Timed<T>)
    ensures multiset(Place(es, e)) == multiset(es) + multiset{e}
  {
    if es != [] && es[0].at <= e.at {
      PlaceAdds(es[1..], e);
      assert es == [es[0]] + es[1..];
    }
  }

  lemma PlaceIsStable<T(!new)>(es: seq<Timed<T>>, e: Timed<T>, t: int)
    requires Sorted(es)
    ensures AtTime(Place(es, e), t) == AtTime(es + [e], t)
  {
    hide Place;
    var i := PlaceExists(es, e.at);
    PlaceAt(es, e, i);
    var a, b := es[..i], es[i..];
    assert es == a + b;
    WindowConcat(a + [e], b, t, t);
    WindowConcat(a, [e], t, t);
    WindowConcat(a, b, t, t);
    WindowConcat(es, [e], t, t);
    if t == e.at { WindowNone(b, t, t); } else { WindowNone([e], t, t); }
  }

  /** The log sorted by repeated insertion. */
  function SortLog<T(!new)>(es: seq<Timed<T>>): seq<Timed<T>>
  {
    if es == [] then [] else Place(SortLog(es[..|es| - 1]), es[|es| - 1])
  }

  lemma {:induction false} SortLogSorts<T(!new)>(es: seq<Timed<T>>)
    ensures IsStableSort(SortLog(es), es) && multiset(SortLog(es)) == multiset(es)
  {
    if es != [] {
      var init, e := es[..|es| - 1], es[|es| - 1];
      SortLogSorts(init);
      assert es == init + [e];
      PlaceKeepsOrder(SortLog(init), e);
      PlaceAdds(SortLog(init), e);
      forall t ensures AtTime(SortLog(es), t) == AtTime(es, t) {
        PlaceIsStable(SortLog(init), e, t);
        assert AtTime(SortLog(init), t) == AtTime(init, t);
        WindowConcat(SortLog(init), [e], t, t);
        WindowConcat(init, [e], t, t);
      }
    }
  }

  lemma {:induction false} FirstAtTime<T(!new)>(es: seq<Timed<T>>)
    requires Sorted(es) && es != []
    ensures AtTime(es, es[0].at) != [] && AtTime(es, es[0].at)[0] == es[0]
    ensures forall t :: AtTime(es, t) != [] ==> es[0].at <= t
  {
    forall t | AtTime(es, t) != [] ensures es[0].at <= t {
      if es[0].at > t { WindowNone(es, t, t); }
    }
  }

  lemma SomeTime<T(!new)>(a: seq<Timed<T>>, b: seq<Timed<T>>)
    requires Sorted(b) && forall t :: AtTime(a, t) == AtTime(b, t)
    ensures b != [] ==> a != []
  {
    if b != [] {
      FirstAtTime(b);
      assert AtTime(a, b[0].at) != [];
    }
  }

  lemma TailAtTime<T(!new)>(es: seq<Timed<T>>, t: int)
    requires es != []
    ensures AtTime(es[1..], t) == if es[0].at == t then AtTime(es, t)[1..] else AtTime(es, t)
  {
  }

  /** Order by time, then by position, leaves one possibility. */
  lemma {:induction false} StableSortUnique<T(!new)>(a: seq<Timed<T>>, b: seq<Timed<T>>)
    requires Sorted(a) && Sorted(b) && forall t :: AtTime(a, t) == AtTime(b, t)
    ensures a == b
  {
    SomeTime(a, b);
    SomeTime(b, a);
    if a != [] && b != [] {
      FirstAtTime(a);
      FirstAtTime(b);
      assert AtTime(a, b[0].at) == AtTime(b, b[0].at) && AtTime(b, a[0].at) == AtTime(a, a[0].at);
      assert a[0] == b[0];
      forall t ensures AtTime(a[1..], t) == AtTime(b[1..], t) {
        assert AtTime(a, t) == AtTime(b, t);
        TailAtTime(a, t);
        TailAtTime(b, t);
      }
      StableSortUnique(a[1..], b[1..]);
      assert a == [a[0]] + a[1..] && b == [b[0]] + b[1..];
    }
  }

  lemma StableSortLength<T(!new)>(sorted: seq<Timed<T>>, es: seq<Timed<T>>)
    requires IsStableSort(sorted, es)
    ensures multiset(sorted) == multiset(es) && |sorted| == |es|
  {
    SortLogSorts(es);
    forall t ensures AtTime(sorted, t) == AtTime(SortLog(es), t) {
      assert AtTime(sorted, t) == AtTime(es, t) == AtTime(SortLog(es), t);
    }
    StableSortUnique(sorted, SortLog(es));
    assert |sorted| == |multiset(sorted)| == |multiset(es)| == |es|;
  }
}
