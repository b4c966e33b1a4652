/** Values that may be absent. */
module Options {
  datatype Option<+T> = None | Some(value: T)
}

/** Strings as the source's language has them: sequences of 16-bit code units,
    compared code unit by code unit. */
module CodeUnits {
  newtype CodeUnit = u: int | 0 <= u < 0x1_0000

  type Text = seq<CodeUnit>

  const NUL: CodeUnit := 0
  const COLON: CodeUnit := 0x3A

  /** Strictly before, in the order `Array.prototype.sort` uses on strings. */
  predicate Precedes(a: Text, b: Text)
  {
    b != [] && (a == [] || a[0] < b[0] || (a[0] == b[0] && Precedes(a[1..], b[1..])))
  }

  lemma {:induction false} PrecedesTotal(a: Text, b: Text)
    ensures a == b || Precedes(a, b) || Precedes(b, a)
  {
    if a != [] && b != [] && a[0] == b[0] {
      PrecedesTotal(a[1..], b[1..]);
      assert a == [a[0]] + a[1..] && b == [b[0]] + b[1..];
    }
  }

  lemma {:induction false} PrecedesTransitive(a: Text, b: Text, c: Text)
    requires Precedes(a, b) && Precedes(b, c)
    ensures Precedes(a, c)
  {
    if a != [] && a[0] == b[0] == c[0] {
      PrecedesTransitive(a[1..], b[1..], c[1..]);
    }
  }

  lemma {:induction false} PrecedesIrreflexive(a: Text)
    ensures !Precedes(a, a)
  {
    if a != [] {
      PrecedesIrreflexive(a[1..]);
    }
  }
}

/** Facts about lists and sets that several modules need. */
module Lists {
  predicate NoRepeats<T(==)>(s: seq<T>) { forall i, j :: 0 <= i < j < |s| ==> s[i] != s[j] }

  lemma SubsetSize<T>(a: set<T>, b: set<T>)
    requires a <= b
    ensures |a| <= |b|
  {
    assert b == a + (b - a);
  }
}

/** Names made of two parts with a separator between them, and when two first parts can lead to the same name. */
module JoinedNames {
  import opened CodeUnits

  function Joined(first: Text, separator: CodeUnit, second: Text): Text { first + [separator] + second }

  /** One first part with the separator begins the other. */
  predicate Clash(separator: CodeUnit, first: Text, other: Text)
  {
    first + [separator] <= other + [separator] || other + [separator] <= first + [separator]
  }

  lemma SameNamesClash(separator: CodeUnit, first: Text, second: Text, first': Text, second': Text)
    requires Joined(first, separator, second) == Joined(first', separator, second')
    ensures Clash(separator, first, first')
    ensures first == first' ==> second == second'
  {
    var name := Joined(first, separator, second);
    assert first + [separator] == name[..|first| + 1];
    assert first' + [separator] == name[..|first'| + 1];
    assert second == name[|first| + 1..] && second' == name[|first'| + 1..];
  }

  /** Where the second parts do not hold the separator, a name has one reading. */
  lemma LastPart(separator: CodeUnit, first: Text, second: Text, first': Text, second': Text)
    requires Joined(first, separator, second) == Joined(first', separator, second')
    requires separator !in second && separator !in second'
    ensures first == first' && second == second'
  {
    var name := Joined(first, separator, second);
    assert name[|first|] == name[|first'|] == separator;
    assert forall i :: |first| < i < |name| ==> name[i] == second[i - |first| - 1];
    assert forall i :: |first'| < i < |name| ==> name[i] == second'[i - |first'| - 1];
    assert first == name[..|first|] && first' == name[..|first'|];
    assert second == name[|first| + 1..] && second' == name[|first'| + 1..];
  }

  /** What the longer of two clashing first parts has after the shorter one and the separator. */
  lemma Remainder(separator: CodeUnit, first: Text, other: Text) returns (rest: Text)
    requires first + [separator] <= other + [separator] && first != other
    ensures other == first + [separator] + rest
  {
    var longer := other + [separator];
    assert longer[..|first| + 1] == first + [separator];
    assert first == longer[..|first|] && other == longer[..|other|];
    rest := other[|first| + 1..];
    assert other == longer[..|first| + 1] + rest;
  }

  /** Names lead back to one first part exactly when neither with the separator begins the other; first parts
      without the separator are always told apart. */
  lemma ClashIff(separator: CodeUnit, first: Text, other: Text)
    ensures (exists x, y :: Joined(first, separator, x) == Joined(other, separator, y)) <==> Clash(separator, first, other)
    ensures separator !in first && separator !in other && first != other ==> !Clash(separator, first, other)
  {
    forall x, y | Joined(first, separator, x) == Joined(other, separator, y) ensures Clash(separator, first, other) {
      SameNamesClash(separator, first, x, other, y);
    }
    if first == other {
      assert Joined(first, separator, []) == Joined(other, separator, []);
    } else {
      if first + [separator] <= other + [separator] {
        var rest := Remainder(separator, first, other);
        assert Joined(first, separator, rest + [separator]) == Joined(other, separator, []);
        assert other[|first|] == separator;
      }
      if other + [separator] <= first + [separator] {
        var rest := Remainder(separator, other, first);
        assert Joined(first, separator, []) == Joined(other, separator, rest + [separator]);
        assert first[|other|] == separator;
      }
    }
  }
}

/** Objects as lists of named properties, and the sorting of those lists by name. */
module Entries {
  import opened CodeUnits
  import opened Options

  datatype Entry<+T> = Entry(key: Text, value: T)

  predicate DistinctKeys<T>(es: seq<Entry<T>>)
  {
    forall i, j :: 0 <= i < j < |es| ==> es[i].key != es[j].key
  }

  predicate SortedKeys<T>(es: seq<Entry<T>>)
  {
    forall i, j :: 0 <= i < j < |es| ==> Precedes(es[i].key, es[j].key)
  }

  ghost function KeySet<T>(es: seq<Entry<T>>): set<Text>
  {
    set i | 0 <= i < |es| :: es[i].key
  }

  /** The property map an entry list stands for. */
  ghost predicate SameMapping<T(!new)>(es: seq<Entry<T>>, fs: seq<Entry<T>>)
  {
    forall e :: e in es <==> e in fs
  }

  function Insert<T>(e: Entry<T>, es: seq<Entry<T>>): seq<Entry<T>>
  {
    if es == [] || Precedes(e.key, es[0].key) then [e] + es
    else [es[0]] + Insert(e, es[1..])
  }

  /** The entries in ascending order of their keys. */
  function SortByKey<T>(es: seq<Entry<T>>): seq<Entry<T>>
  {
    if es == [] then [] else Insert(es[0], SortByKey(es[1..]))
  }

  lemma {:induction false} InsertMembers<T(!new)>(e: Entry<T>, es: seq<Entry<T>>)
    ensures |Insert(e, es)| == |es| + 1
    ensures forall f :: f in Insert(e, es) <==> f == e || f in es
  {
    if es != [] && !Precedes(e.key, es[0].key) {
      InsertMembers(e, es[1..]);
      assert es == [es[0]] + es[1..];
    }
  }

  lemma {:induction false} InsertSorted<T(!new)>(e: Entry<T>, es: seq<Entry<T>>)
    requires SortedKeys(es)
    requires forall f :: f in es ==> f.key != e.key
    ensures SortedKeys(Insert(e, es))
  {
    if es == [] {
    } else if Precedes(e.key, es[0].key) {
      forall j | 0 < j < |es| ensures Precedes(e.key, es[j].key) {
        PrecedesTransitive(e.key, es[0].key, es[j].key);
      }
    } else {
      PrecedesTotal(e.key, es[0].key);
      assert es[0] in es;
      InsertSorted(e, es[1..]);
      InsertMembers(e, es[1..]);
      var rest := Insert(e, es[1..]);
      forall j | 0 <= j < |rest| ensures Precedes(es[0].key, rest[j].key) {
        assert rest[j] in rest;
        if rest[j] != e {
          var k :| 0 <= k < |es[1..]| && es[1..][k] == rest[j];
          assert es[k + 1] == rest[j];
        }
      }
    }
  }

  lemma {:induction false} SortMembers<T(!new)>(es: seq<Entry<T>>)
    ensures |SortByKey(es)| == |es|
    ensures forall f :: f in SortByKey(es) <==> f in es
  {
    if es != [] {
      SortMembers(es[1..]);
      InsertMembers(es[0], SortByKey(es[1..]));
      assert es == [es[0]] + es[1..];
    }
  }

  lemma {:induction false} SortSorts<T(!new)>(es: seq<Entry<T>>)
    requires DistinctKeys(es)
    ensures SortedKeys(SortByKey(es))
  {
    if es != [] {
      SortSorts(es[1..]);
      SortMembers(es[1..]);
      forall f | f in SortByKey(es[1..]) ensures f.key != es[0].key {
        var k :| 0 <= k < |es[1..]| && es[1..][k] == f;
        assert es[k + 1] == f;
      }
      InsertSorted(es[0], SortByKey(es[1..]));
    }
  }

  /** A sorted list is determined by its entries: there is one way to sort an object. */
  lemma {:induction false} SortedUnique<T(!new)>(es: seq<Entry<T>>, fs: seq<Entry<T>>)
    requires SortedKeys(es) && SortedKeys(fs)
    requires SameMapping(es, fs)
    ensures es == fs
  {
    assert es != [] ==> es[0] in fs;
    assert fs != [] ==> fs[0] in es;
    if es != [] {
      FirstIsLeast(es, fs);
      forall e | e in es[1..] ensures e in fs[1..] { TailMember(es, fs, e); }
      forall e | e in fs[1..] ensures e in es[1..] { TailMember(fs, es, e); }
      SortedUnique(es[1..], fs[1..]);
      assert es == [es[0]] + es[1..] && fs == [fs[0]] + fs[1..];
    }
  }

  lemma FirstIsLeast<T(!new)>(es: seq<Entry<T>>, fs: seq<Entry<T>>)
    requires SortedKeys(es) && SortedKeys(fs) && es != [] && fs != []
    requires SameMapping(es, fs)
    ensures es[0] == fs[0]
  {
    assert es[0] in fs && fs[0] in es;
    var i :| 0 <= i < |fs| && fs[i] == es[0];
    var j :| 0 <= j < |es| && es[j] == fs[0];
    if i > 0 && j > 0 {
      PrecedesTransitive(es[0].key, fs[0].key, es[0].key);
      PrecedesIrreflexive(es[0].key);
    }
  }

  lemma TailMember<T(!new)>(es: seq<Entry<T>>, fs: seq<Entry<T>>, e: Entry<T>)
    requires SortedKeys(es) && es != [] && fs != [] && es[0] == fs[0]
    requires SameMapping(es, fs)
    requires e in es[1..]
    ensures e in fs[1..]
  {
    var k :| 0 <= k < |es[1..]| && es[1..][k] == e;
    assert es[k + 1] == e && e in fs;
    PrecedesIrreflexive(e.key);
    assert Precedes(es[0].key, e.key);
    var m :| 0 <= m < |fs| && fs[m] == e;
    assert fs[1..][m - 1] == e;
  }

  function MapValues<T, U>(es: seq<Entry<T>>, f: T -> U): (r: seq<Entry<U>>)
    ensures |r| == |es|
    ensures forall i :: 0 <= i < |es| ==> r[i] == Entry(es[i].key, f(es[i].value))
  {
    if es == [] then [] else [Entry(es[0].key, f(es[0].value))] + MapValues(es[1..], f)
  }

  lemma {:induction false} InsertMapped<T, U>(e: Entry<T>, es: seq<Entry<T>>, f: T -> U)
    ensures MapValues(Insert(e, es), f) == Insert(Entry(e.key, f(e.value)), MapValues(es, f))
  {
    if es != [] && !Precedes(e.key, es[0].key) {
      InsertMapped(e, es[1..], f);
    }
  }

  /** Sorting looks only at keys, so it commutes with anything done to the values. */
  lemma {:induction false} SortMapped<T, U>(es: seq<Entry<T>>, f: T -> U)
    ensures MapValues(SortByKey(es), f) == SortByKey(MapValues(es, f))
  {
    if es != [] {
      SortMapped(es[1..], f);
      InsertMapped(es[0], SortByKey(es[1..]), f);
    }
  }

  /** Looking a key up: the value of the one entry that has it. */
  function Lookup<T>(es: seq<Entry<T>>, key: Text): (r: Option<T>)
    ensures r.None? <==> forall i :: 0 <= i < |es| ==> es[i].key != key
    ensures r.Some? ==> exists i :: 0 <= i < |es| && es[i] == Entry(key, r.value)
  {
    if es == [] then None
    else if es[0].key == key then Some(es[0].value)
    else Lookup(es[1..], key)
  }
}
