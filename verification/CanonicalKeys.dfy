/** The keys `name + "@" + canonicalJson(args)` of the predicate memo and the integration cache are unambiguous,
    even when names hold `@`, quotes or braces. */
module CanonicalKeys {
  import opened CodeUnits
  import opened Entries
  import opened JsonText
  import opened Canonical
  import opened CanonicalMeaning

  const AT: CodeUnit := 0x40
  /** The property name `signal`. */
  const SIGNAL: Text := [0x73, 0x69, 0x67, 0x6E, 0x61, 0x6C]

  function MemoKey(name: Text, args: Value): Text
  {
    name + [AT] + Print(args)
  }

  /** What object spread copies: the properties of an object, the indexed parts of a list or string. */
  function Spread(v: Value): seq<Entry<Value>>
  {
    match v
    case Obj(fields) => fields
    case Arr(items) => seq(|items|, i requires 0 <= i < |items| => Entry(Digits(i), items[i]))
    case Str(s) => seq(|s|, i requires 0 <= i < |s| => Entry(Digits(i), Str([s[i]])))
    case _ => []
  }

  function WithoutKey(fields: seq<Entry<Value>>, key: Text): seq<Entry<Value>>
  {
    if fields == [] then []
    else if fields[0].key == key then WithoutKey(fields[1..], key)
    else [fields[0]] + WithoutKey(fields[1..], key)
  }

  /** A call's input as far as the cache looks at it: everything but a top-level `signal`. */
  function Signature(input: Value): Value
  {
    Obj(WithoutKey(Spread(input), SIGNAL))
  }

  function CacheKey(methodName: Text, input: Value): Text
  {
    MemoKey(methodName, Signature(input))
  }

  // ----- where a scan of a canonical text is: between tokens, inside a literal, after a backslash -----

  datatype Mode = Outside | Inside | Escaped | Broken

  function Step(m: Mode, u: CodeUnit): Mode
  {
    match m
    case Outside => if u == QUOTE then Inside else if u == BACKSLASH || u == AT then Broken else Outside
    case Inside => if u == QUOTE then Outside else if u == BACKSLASH then Escaped else Inside
    case Escaped => if u == AT then Broken else Inside
    case Broken => Broken
  }

  function Scan(m: Mode, t: Text): Mode
    decreases t
  {
    if t == [] then m else Scan(Step(m, t[0]), t[1..])
  }

  lemma {:induction false} ScanAppend(m: Mode, a: Text, b: Text)
    ensures Scan(m, a + b) == Scan(Scan(m, a), b)
    decreases a
  {
    if a == [] {
      assert a + b == b;
    } else {
      ScanAppend(Step(m, a[0]), a[1..], b);
      assert (a + b)[1..] == a[1..] + b;
    }
  }

  lemma {:induction false} ScanBroken(t: Text)
    ensures Scan(Broken, t) == Broken
  {
    if t != [] { ScanBroken(t[1..]); }
  }

  /** A text cannot be balanced both when read from between tokens and when read from inside a literal. */
  lemma {:induction false} OneReading(t: Text)
    ensures !(Scan(Inside, t) == Outside && Scan(Outside, t) == Outside)
  {
    if t != [] {
      OneReading(t[1..]);
      ScanBroken(t[1..]);
    }
  }

  lemma ScanTwo(a: CodeUnit, b: CodeUnit, m: Mode)
    ensures Scan(m, [a, b]) == Step(Step(m, a), b)
  {
    assert [a, b][1..] == [b] && [b][1..] == [];
    assert Scan(Step(m, a), [b]) == Scan(Step(Step(m, a), b), []);
  }

  lemma {:induction false} ScanPlainUnits(t: Text)
    requires forall i :: 0 <= i < |t| ==> t[i] != QUOTE && t[i] != BACKSLASH
    ensures Scan(Inside, t) == Inside
  {
    if t != [] { ScanPlainUnits(t[1..]); }
  }

  lemma {:induction false} ScanBareUnits(t: Text)
    requires forall i :: 0 <= i < |t| ==> t[i] != QUOTE && t[i] != BACKSLASH && t[i] != AT
    ensures Scan(Outside, t) == Outside
  {
    if t != [] { ScanBareUnits(t[1..]); }
  }

  lemma EscapedUnitScan(u: CodeUnit)
    ensures Scan(Inside, EscapeUnit(u)) == Inside
  {
    var e := EscapeUnit(u);
    if ShortEscape(u) != 0 {
      ScanTwo(BACKSLASH, ShortEscape(u), Inside);
    } else if u < 0x20 || IsSurrogate(u) {
      assert e == [BACKSLASH, 0x75] + e[2..];
      ScanTwo(BACKSLASH, 0x75, Inside);
      ScanAppend(Inside, [BACKSLASH, 0x75], e[2..]);
      ScanPlainUnits(e[2..]);
    } else {
      ScanPlainUnits(e);
    }
  }

  lemma {:induction false} EscapeScan(s: Text)
    ensures Scan(Inside, Escape(s)) == Inside
  {
    if s == [] {
    } else if |s| >= 2 && IsHighSurrogate(s[0]) && IsLowSurrogate(s[1]) {
      ScanPlainUnits([s[0], s[1]]);
      ScanAppend(Inside, [s[0], s[1]], Escape(s[2..]));
      EscapeScan(s[2..]);
    } else {
      EscapedUnitScan(s[0]);
      ScanAppend(Inside, EscapeUnit(s[0]), Escape(s[1..]));
      EscapeScan(s[1..]);
    }
  }

  lemma QuoteScan(s: Text)
    ensures Scan(Outside, Quote(s)) == Outside
  {
    EscapeScan(s);
    ScanAppend(Inside, Escape(s), [QUOTE]);
    assert Quote(s) == [QUOTE] + (Escape(s) + [QUOTE]);
    ScanAppend(Outside, [QUOTE], Escape(s) + [QUOTE]);
  }

  lemma AtomScan(v: Value)
    requires IsAtom(v)
    ensures Scan(Outside, PrintAtom(v)) == Outside
  {
    match v
    case Str(s) => QuoteScan(s);
    case Function => QuoteScan(FN_MARK);
    case Cycle => QuoteScan(CYCLE_MARK);
    case Number(n) =>
      DigitsAreDigits(if n < 0 then -n else n);
      var d := Decimal(n);
      forall i | 0 <= i < |d| ensures d[i] == MINUS || IsDigit(d[i]) {}
      ScanBareUnits(d);
    case Undefined | Null | NonFinite | Bool(_) => ScanBareUnits(PrintAtom(v));
  }

  lemma {:induction false} JoinScan(texts: seq<Text>)
    requires forall i :: 0 <= i < |texts| ==> Scan(Outside, texts[i]) == Outside
    ensures Scan(Outside, Join(texts)) == Outside
  {
    if |texts| > 1 {
      JoinScan(texts[1..]);
      ScanAppend(Outside, texts[0] + [COMMA], Join(texts[1..]));
      ScanAppend(Outside, texts[0], [COMMA]);
    }
  }

  lemma FieldScan(f: Entry<Text>)
    requires Scan(Outside, f.value) == Outside
    ensures Scan(Outside, Quote(f.key) + [COLON] + f.value) == Outside
  {
    QuoteScan(f.key);
    ScanAppend(Outside, Quote(f.key), [COLON]);
    ScanAppend(Outside, Quote(f.key) + [COLON], f.value);
  }

  lemma {:induction false} JoinFieldsScan(fields: seq<Entry<Text>>)
    requires forall i :: 0 <= i < |fields| ==> Scan(Outside, fields[i].value) == Outside
    ensures Scan(Outside, JoinFields(fields)) == Outside
  {
    if fields != [] {
      var first := Quote(fields[0].key) + [COLON] + fields[0].value;
      FieldScan(fields[0]);
      if |fields| > 1 {
        JoinFieldsScan(fields[1..]);
        ScanAppend(Outside, first, [COMMA]);
        ScanAppend(Outside, first + [COMMA], JoinFields(fields[1..]));
      }
    }
  }

  lemma BracketScan(open: CodeUnit, body: Text, close: CodeUnit)
    requires Scan(Outside, body) == Outside
    requires forall u :: u in [open, close] ==> Step(Outside, u) == Outside
    ensures Scan(Outside, [open] + body + [close]) == Outside
  {
    ScanAppend(Outside, [open], body);
    ScanAppend(Outside, [open] + body, [close]);
  }

  /** Every canonical text is balanced, with `@` and backslashes only inside literals. */
  lemma {:induction false} PrintScan(v: Value)
    ensures Scan(Outside, Print(v)) == Outside
  {
    match v
    case Arr(items) =>
      forall i | 0 <= i < |items| ensures Scan(Outside, PrintItems(items)[i]) == Outside { PrintScan(items[i]); }
      JoinScan(PrintItems(items));
      BracketScan(LBRACKET, Join(PrintItems(items)), RBRACKET);
    case Obj(fields) =>
      var ps := PrintFields(fields);
      forall i | 0 <= i < |fields| ensures Scan(Outside, ps[i].value) == Outside { PrintScan(fields[i].value); }
      SortMembers(ps);
      forall i | 0 <= i < |ps| ensures Scan(Outside, SortByKey(ps)[i].value) == Outside {
        assert SortByKey(ps)[i] in ps;
      }
      JoinFieldsScan(SortByKey(ps));
      BracketScan(LBRACE, JoinFields(SortByKey(ps)), RBRACE);
    case _ => AtomScan(v);
  }

  /** The separator that belongs to the key is found without ambiguity. */
  lemma SeparatorIsUnique(m: Text, s: Text, n: Text, t: Text)
    requires Scan(Outside, s) == Outside && Scan(Outside, t) == Outside
    requires |m| <= |n|
    requires m + [AT] + s == n + [AT] + t
    ensures m == n && s == t
  {
    var key := m + [AT] + s;
    assert key[..|m|] == m && key[..|n|] == n;
    assert s == key[|m| + 1..] && t == key[|n| + 1..];
    if |m| < |n| {
      var x := key[|m| + 1..|n|];
      assert key[|n|] == AT;
      assert s == x + ([AT] + t);
      ScanAppend(Outside, x, [AT] + t);
      var mode := Scan(Outside, x);
      assert ([AT] + t)[1..] == t;
      assert Scan(mode, [AT] + t) == Scan(Step(mode, AT), t);
      ScanBroken(t);
      assert mode == Inside;
      OneReading(t);
    }
  }

  /** Memo keys are equal exactly when the names are equal and the arguments are the same. */
  lemma MemoKeyInjective(m: Text, a: Value, n: Text, b: Value)
    requires WellFormed(a) && WellFormed(b)
    ensures MemoKey(m, a) == MemoKey(n, b) <==> m == n && Same(a, b)
  {
    PrintScan(a);
    PrintScan(b);
    PrintDeterminesValue(a, b);
    if MemoKey(m, a) == MemoKey(n, b) {
      if |m| <= |n| {
        SeparatorIsUnique(m, Print(a), n, Print(b));
      } else {
        SeparatorIsUnique(n, Print(b), m, Print(a));
      }
    }
  }

  lemma {:induction false} WithoutKeyMembers(fields: seq<Entry<Value>>, key: Text)
    ensures forall f :: f in WithoutKey(fields, key) <==> f in fields && f.key != key
    ensures DistinctKeys(fields) ==> DistinctKeys(WithoutKey(fields, key))
  {
    if fields != [] {
      WithoutKeyMembers(fields[1..], key);
      assert fields == [fields[0]] + fields[1..];
      if DistinctKeys(fields) && fields[0].key != key {
        var rest := WithoutKey(fields[1..], key);
        forall j | 0 <= j < |rest| ensures rest[j].key != fields[0].key {
          assert rest[j] in fields[1..];
          var k :| 0 <= k < |fields[1..]| && fields[1..][k] == rest[j];
          assert fields[k + 1] == rest[j];
        }
      }
    }
  }

  lemma SpreadWellFormed(v: Value)
    requires WellFormed(v)
    ensures WellFormed(Obj(Spread(v)))
  {
    var fields := Spread(v);
    if v.Arr? || v.Str? {
      forall i, j | 0 <= i < j < |fields| ensures fields[i].key != fields[j].key {
        DigitsAreDigits(i);
        DigitsAreDigits(j);
      }
    }
  }

  lemma SignatureWellFormed(v: Value)
    requires WellFormed(v)
    ensures WellFormed(Signature(v))
  {
    SpreadWellFormed(v);
    var fields, kept := Spread(v), WithoutKey(Spread(v), SIGNAL);
    WithoutKeyMembers(fields, SIGNAL);
    forall i | 0 <= i < |kept| ensures WellFormed(kept[i].value) {
      assert kept[i] in fields;
    }
  }

  /** An input has a property: an object its own, a list or string one for each index. */
  ghost predicate Has(v: Value, key: Text, value: Value)
  {
    match v
    case Obj(fields) => Entry(key, value) in fields
    case Arr(items) => exists i :: 0 <= i < |items| && key == Digits(i) && value == items[i]
    case Str(s) => exists i :: 0 <= i < |s| && key == Digits(i) && value == Str([s[i]])
    case _ => false
  }

  ghost predicate HasSome(v: Value, key: Text) { exists value :: Has(v, key, value) }

  /** The inputs have the same properties with the same values, `signal` apart. */
  ghost predicate SameInput(a: Value, b: Value)
  {
    && (forall key :: key != SIGNAL ==> (HasSome(a, key) <==> HasSome(b, key)))
    && forall key, x, y :: key != SIGNAL && Has(a, key, x) && Has(b, key, y) ==> Same(x, y)
  }

  lemma SignatureHas(v: Value, key: Text, value: Value)
    ensures Entry(key, value) in Signature(v).fields <==> key != SIGNAL && Has(v, key, value)
  {
    WithoutKeyMembers(Spread(v), SIGNAL);
    var fields := Spread(v);
    if Entry(key, value) in fields { var i :| 0 <= i < |fields| && fields[i] == Entry(key, value); }
    if v.Arr? && Has(v, key, value) {
      var i :| 0 <= i < |v.items| && key == Digits(i) && value == v.items[i];
      assert fields[i] == Entry(key, value);
    }
    if v.Str? && Has(v, key, value) {
      var i :| 0 <= i < |v.s| && key == Digits(i) && value == Str([v.s[i]]);
      assert fields[i] == Entry(key, value);
    }
  }

  lemma SignatureKeys(v: Value, key: Text)
    ensures key in KeySet(Signature(v).fields) <==> key != SIGNAL && HasSome(v, key)
  {
    var fields := Signature(v).fields;
    if key in KeySet(fields) {
      var i :| 0 <= i < |fields| && fields[i].key == key;
      assert fields[i] == Entry(key, fields[i].value) && fields[i] in fields;
      SignatureHas(v, key, fields[i].value);
    }
    if key != SIGNAL && HasSome(v, key) {
      var value :| Has(v, key, value);
      SignatureHas(v, key, value);
      var i :| 0 <= i < |fields| && fields[i] == Entry(key, value);
    }
  }

  lemma SameKeys(a: Value, b: Value)
    ensures KeySet(Signature(a).fields) == KeySet(Signature(b).fields)
            <==> forall key :: key != SIGNAL ==> (HasSome(a, key) <==> HasSome(b, key))
  {
    hide Spread, WithoutKey, HasSome, KeySet;
    var f, g := KeySet(Signature(a).fields), KeySet(Signature(b).fields);
    forall key ensures (key in f <==> key != SIGNAL && HasSome(a, key)) && (key in g <==> key != SIGNAL && HasSome(b, key)) {
      SignatureKeys(a, key);
      SignatureKeys(b, key);
    }
    if forall key :: key != SIGNAL ==> (HasSome(a, key) <==> HasSome(b, key)) {
      assert f == g;
    }
  }

  lemma SameObjects(f: seq<Entry<Value>>, g: seq<Entry<Value>>)
    ensures Same(Obj(f), Obj(g)) <==>
              && KeySet(f) == KeySet(g)
              && forall i, j :: 0 <= i < |f| && 0 <= j < |g| && f[i].key == g[j].key ==> Same(f[i].value, g[j].value)
  {
  }

  lemma SameSignatures(a: Value, b: Value)
    ensures Same(Signature(a), Signature(b)) <==> SameInput(a, b)
  {
    hide Spread, WithoutKey, Has, HasSome, KeySet, Same;
    SameKeys(a, b);
    SameObjects(Signature(a).fields, Signature(b).fields);
    SameValues(a, b, Signature(a).fields, Signature(b).fields);
  }

  lemma SameValues(a: Value, b: Value, f: seq<Entry<Value>>, g: seq<Entry<Value>>)
    requires f == Signature(a).fields && g == Signature(b).fields
    ensures (forall i, j :: 0 <= i < |f| && 0 <= j < |g| && f[i].key == g[j].key ==> Same(f[i].value, g[j].value))
            <==> forall key, x, y :: key != SIGNAL && Has(a, key, x) && Has(b, key, y) ==> Same(x, y)
  {
    hide Signature, Has, Same;
    forall key, x ensures Entry(key, x) in f <==> key != SIGNAL && Has(a, key, x) { SignatureHas(a, key, x); }
    forall key, y ensures Entry(key, y) in g <==> key != SIGNAL && Has(b, key, y) { SignatureHas(b, key, y); }
    if forall key, x, y :: key != SIGNAL && Has(a, key, x) && Has(b, key, y) ==> Same(x, y) {
      forall i, j | 0 <= i < |f| && 0 <= j < |g| && f[i].key == g[j].key ensures Same(f[i].value, g[j].value) {
        assert f[i] == Entry(f[i].key, f[i].value) && g[j] == Entry(f[i].key, g[j].value) && f[i] in f && g[j] in g;
      }
    }
    if forall i, j :: 0 <= i < |f| && 0 <= j < |g| && f[i].key == g[j].key ==> Same(f[i].value, g[j].value) {
      forall key, x, y | key != SIGNAL && Has(a, key, x) && Has(b, key, y) ensures Same(x, y) {
        var i :| 0 <= i < |f| && f[i] == Entry(key, x);
        var j :| 0 <= j < |g| && g[j] == Entry(key, y);
        assert Same(f[i].value, g[j].value);
      }
    }
  }

  /** Cache keys are equal exactly when the methods are equal and the inputs have the same properties apart from
      `signal`. */
  lemma CacheKeyInjective(m: Text, a: Value, n: Text, b: Value)
    requires WellFormed(a) && WellFormed(b)
    ensures CacheKey(m, a) == CacheKey(n, b) <==> m == n && SameInput(a, b)
  {
    SameSignatures(a, b);
    SignatureWellFormed(a);
    SignatureWellFormed(b);
    MemoKeyInjective(m, Signature(a), n, Signature(b));
  }

  /** The abort signal a caller passes along never splits a cache entry. */
  lemma SignalIsIgnored(methodName: Text, before: seq<Entry<Value>>, after: seq<Entry<Value>>, signal: Value)
    ensures CacheKey(methodName, Obj(before + [Entry(SIGNAL, signal)] + after)) == CacheKey(methodName, Obj(before + after))
  {
    var one := [Entry(SIGNAL, signal)];
    WithoutKeyAppend(before + one, after, SIGNAL);
    WithoutKeyAppend(before, one, SIGNAL);
    WithoutKeyAppend(before, after, SIGNAL);
    assert one[1..] == [] && WithoutKey(one, SIGNAL) == [];
    assert WithoutKey(before + one + after, SIGNAL) == WithoutKey(before + after, SIGNAL);
  }

  lemma WithoutNext(a: seq<Entry<Value>>, key: Text)
    ensures WithoutKey(a, key) == if a == [] then []
                                  else if a[0].key == key then WithoutKey(a[1..], key)
                                  else [a[0]] + WithoutKey(a[1..], key)
  {
  }

  lemma {:induction false} WithoutKeyAppend(a: seq<Entry<Value>>, b: seq<Entry<Value>>, key: Text)
    ensures WithoutKey(a + b, key) == WithoutKey(a, key) + WithoutKey(b, key)
  {
    hide WithoutKey;
    WithoutNext(a, key);
    WithoutNext(a + b, key);
    if a == [] {
      assert a + b == b;
    } else {
      assert (a + b)[1..] == a[1..] + b;
      WithoutKeyAppend(a[1..], b, key);
      assert [a[0]] + (WithoutKey(a[1..], key) + WithoutKey(b, key)) == [a[0]] + WithoutKey(a[1..], key) + WithoutKey(b, key);
    }
  }
}
