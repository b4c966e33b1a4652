/** What a canonical text determines: the value it was printed from, up to key order and the printer's merges. */
module CanonicalMeaning {
  import opened CodeUnits
  import opened Entries
  import opened JsonText
  import opened Canonical
  import opened Options

  /** The text of any value reads back as its canonical form. */
  lemma PrintRoundTrip(v: Value)
    ensures ReadValue(Print(v)) == Read(Canon(v), [])
  {
    PrintIsRenderedCanon(v);
    CanonIsPlain(v);
    ValueRoundTrip(Canon(v), []);
    assert Print(v) + [] == Print(v);
  }

  // ----- what equal texts mean -----

  /** The printer's merges: `undefined` and numbers that are not finite count as `null`, a function as the string
      `<fn>` and a cycle as the string `<cycle>`. */
  predicate Merges(a: Value, b: Value)
  {
    || a == b
    || ((a.Undefined? || a.Null? || a.NonFinite?) && (b.Undefined? || b.Null? || b.NonFinite?))
    || (StringOf(a).Some? && StringOf(a) == StringOf(b))
  }

  function StringOf(a: Value): Option<Text>
  {
    match a
    case Str(s) => Some(s)
    case Function => Some([0x3C, 0x66, 0x6E, 0x3E])
    case Cycle => Some([0x3C, 0x63, 0x79, 0x63, 0x6C, 0x65, 0x3E])
    case _ => None
  }

  /** Equal up to key order and the printer's merges. On `Plain` values nothing is merged. */
  ghost predicate Same(a: Value, b: Value)
  {
    if a.Arr? && b.Arr? then
      |a.items| == |b.items| && forall i :: 0 <= i < |a.items| ==> Same(a.items[i], b.items[i])
    else if a.Obj? && b.Obj? then
      && KeySet(a.fields) == KeySet(b.fields)
      && forall i, j :: 0 <= i < |a.fields| && 0 <= j < |b.fields| && a.fields[i].key == b.fields[j].key ==>
                          Same(a.fields[i].value, b.fields[j].value)
    else IsAtom(a) && IsAtom(b) && Merges(a, b)
  }

  lemma {:induction false} SameIffEqualCanon(a: Value, b: Value)
    requires WellFormed(a) && WellFormed(b)
    ensures Same(a, b) <==> Canon(a) == Canon(b)
  {
    if a.Arr? && b.Arr? {
      if |a.items| == |b.items| {
        forall i | 0 <= i < |a.items| ensures Same(a.items[i], b.items[i]) <==> CanonItems(a.items)[i] == CanonItems(b.items)[i] {
          SameIffEqualCanon(a.items[i], b.items[i]);
        }
        assert CanonItems(a.items) == CanonItems(b.items) <==> Same(a, b);
      }
    } else if a.Obj? && b.Obj? {
      forall i, j | 0 <= i < |a.fields| && 0 <= j < |b.fields|
        ensures Same(a.fields[i].value, b.fields[j].value) <==> Canon(a.fields[i].value) == Canon(b.fields[j].value)
      {
        SameIffEqualCanon(a.fields[i].value, b.fields[j].value);
      }
      SortMembers(CanonFields(a.fields));
      SortMembers(CanonFields(b.fields));
      if Same(a, b) {
        SameFieldsMap(a, b);
        SortSorts(CanonFields(a.fields));
        SortSorts(CanonFields(b.fields));
        SortedUnique(SortByKey(CanonFields(a.fields)), SortByKey(CanonFields(b.fields)));
      }
      if Canon(a) == Canon(b) {
        MappedFieldsSame(a, b);
      }
    }
  }

  lemma SameFieldsMap(a: Value, b: Value)
    requires a.Obj? && b.Obj? && KeySet(a.fields) == KeySet(b.fields)
    requires forall i, j :: 0 <= i < |a.fields| && 0 <= j < |b.fields| && a.fields[i].key == b.fields[j].key ==>
                              Canon(a.fields[i].value) == Canon(b.fields[j].value)
    ensures SameMapping(CanonFields(a.fields), CanonFields(b.fields))
  {
    var x, y := CanonFields(a.fields), CanonFields(b.fields);
    forall e | e in x ensures e in y {
      var i :| 0 <= i < |x| && x[i] == e;
      assert a.fields[i].key in KeySet(b.fields);
      var j :| 0 <= j < |b.fields| && b.fields[j].key == a.fields[i].key;
      assert y[j] == e;
    }
    forall e | e in y ensures e in x {
      var j :| 0 <= j < |y| && y[j] == e;
      assert b.fields[j].key in KeySet(a.fields);
      var i :| 0 <= i < |a.fields| && a.fields[i].key == b.fields[j].key;
      assert x[i] == e;
    }
  }

  lemma MappedKeys(a: Value, b: Value)
    requires a.Obj? && b.Obj?
    requires SameMapping(CanonFields(a.fields), CanonFields(b.fields))
    ensures KeySet(a.fields) <= KeySet(b.fields)
  {
    var x, y := CanonFields(a.fields), CanonFields(b.fields);
    forall k | k in KeySet(a.fields) ensures k in KeySet(b.fields) {
      var i :| 0 <= i < |a.fields| && a.fields[i].key == k;
      assert x[i] in y;
      var j :| 0 <= j < |y| && y[j] == x[i];
      assert b.fields[j].key == k;
    }
  }

  lemma MappedFieldsSame(a: Value, b: Value)
    requires a.Obj? && b.Obj? && DistinctKeys(b.fields)
    requires SameMapping(CanonFields(a.fields), CanonFields(b.fields))
    ensures KeySet(a.fields) == KeySet(b.fields)
    ensures forall i, j :: 0 <= i < |a.fields| && 0 <= j < |b.fields| && a.fields[i].key == b.fields[j].key ==>
                             Canon(a.fields[i].value) == Canon(b.fields[j].value)
  {
    var x, y := CanonFields(a.fields), CanonFields(b.fields);
    MappedKeys(a, b);
    MappedKeys(b, a);
    forall i, j | 0 <= i < |a.fields| && 0 <= j < |b.fields| && a.fields[i].key == b.fields[j].key
      ensures x[i] == y[j]
    {
      assert x[i] in y;
      var k :| 0 <= k < |y| && y[k] == x[i];
      assert k == j;
    }
  }

  /** Two values have the same text exactly when they are the same value up to key order and merges. */
  lemma PrintDeterminesValue(a: Value, b: Value)
    requires WellFormed(a) && WellFormed(b)
    ensures Print(a) == Print(b) <==> Same(a, b)
  {
    PrintRoundTrip(a);
    PrintRoundTrip(b);
    PrintIsRenderedCanon(a);
    PrintIsRenderedCanon(b);
    SameIffEqualCanon(a, b);
  }
}
