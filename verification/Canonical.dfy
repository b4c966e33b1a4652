/** The canonical printer `canonicalJson` on tree-shaped values, and a parser for what it prints, with which the
    printed texts are read back.

    The printer merges some values on purpose or by accident: `undefined` and non-finite numbers
    print as `null`, every function prints as the string `<fn>` and a reference back to an enclosing
    object prints as the string `<cycle>`. The canonical form of a value has those merges applied and
    the keys of its objects sorted. */
module Canonical {
  import opened CodeUnits
  import opened Entries
  import opened JsonText

  datatype Value =
    | Undefined
    | Null
    | Bool(b: bool)
    | Number(n: int)
    | NonFinite
    | Str(s: Text)
    | Function
    | Cycle
    | Arr(items: seq<Value>)
    | Obj(fields: seq<Entry<Value>>)

  const LBRACKET: CodeUnit := 0x5B
  const RBRACKET: CodeUnit := 0x5D
  const LBRACE: CodeUnit := 0x7B
  const RBRACE: CodeUnit := 0x7D
  const COMMA: CodeUnit := 0x2C
  const NULL_WORD: Text := [0x6E, 0x75, 0x6C, 0x6C]
  const TRUE_WORD: Text := [0x74, 0x72, 0x75, 0x65]
  const FALSE_WORD: Text := [0x66, 0x61, 0x6C, 0x73, 0x65]
  /** The strings `<fn>` and `<cycle>`. */
  const FN_MARK: Text := [0x3C, 0x66, 0x6E, 0x3E]
  const CYCLE_MARK: Text := [0x3C, 0x63, 0x79, 0x63, 0x6C, 0x65, 0x3E]

  predicate IsAtom(v: Value) { !v.Arr? && !v.Obj? }

  /** Objects have one value per key. */
  ghost predicate WellFormed(v: Value)
  {
    match v
    case Arr(items) => forall i :: 0 <= i < |items| ==> WellFormed(items[i])
    case Obj(fields) => DistinctKeys(fields) && forall i :: 0 <= i < |fields| ==> WellFormed(fields[i].value)
    case _ => true
  }

  // ----- the printer -----

  function Join(texts: seq<Text>): Text
  {
    if texts == [] then [] else if |texts| == 1 then texts[0] else texts[0] + [COMMA] + Join(texts[1..])
  }

  function JoinFields(fields: seq<Entry<Text>>): Text
  {
    if fields == [] then []
    else
      var first := Quote(fields[0].key) + [COLON] + fields[0].value;
      if |fields| == 1 then first else first + [COMMA] + JoinFields(fields[1..])
  }

  function PrintAtom(v: Value): Text
    requires IsAtom(v)
  {
    match v
    case Undefined | Null | NonFinite => NULL_WORD
    case Bool(b) => if b then TRUE_WORD else FALSE_WORD
    case Number(n) => Decimal(n)
    case Str(s) => Quote(s)
    case Function => Quote(FN_MARK)
    case Cycle => Quote(CYCLE_MARK)
  }

  /** The text of a value: object keys sorted, nothing between tokens. */
  function Print(v: Value): Text
  {
    match v
    case Arr(items) => [LBRACKET] + Join(PrintItems(items)) + [RBRACKET]
    case Obj(fields) => [LBRACE] + JoinFields(SortByKey(PrintFields(fields))) + [RBRACE]
    case _ => PrintAtom(v)
  }

  function PrintItems(items: seq<Value>): (r: seq<Text>)
    ensures |r| == |items|
    ensures forall i :: 0 <= i < |items| ==> r[i] == Print(items[i])
  {
    if items == [] then [] else [Print(items[0])] + PrintItems(items[1..])
  }

  function PrintFields(fields: seq<Entry<Value>>): (r: seq<Entry<Text>>)
    ensures |r| == |fields|
    ensures forall i :: 0 <= i < |fields| ==> r[i] == Entry(fields[i].key, Print(fields[i].value))
  {
    if fields == [] then [] else [Entry(fields[0].key, Print(fields[0].value))] + PrintFields(fields[1..])
  }

  // ----- canonical forms -----

  function Atom(v: Value): Value
    requires IsAtom(v)
  {
    match v
    case Undefined | Null | NonFinite => Null
    case Function => Str(FN_MARK)
    case Cycle => Str(CYCLE_MARK)
    case _ => v
  }

  /** The value with its merged atoms replaced and every object's keys in order. */
  function Canon(v: Value): Value
  {
    match v
    case Arr(items) => Arr(CanonItems(items))
    case Obj(fields) => Obj(SortByKey(CanonFields(fields)))
    case _ => Atom(v)
  }

  function CanonItems(items: seq<Value>): (r: seq<Value>)
    ensures |r| == |items|
    ensures forall i :: 0 <= i < |items| ==> r[i] == Canon(items[i])
  {
    if items == [] then [] else [Canon(items[0])] + CanonItems(items[1..])
  }

  function CanonFields(fields: seq<Entry<Value>>): (r: seq<Entry<Value>>)
    ensures |r| == |fields|
    ensures forall i :: 0 <= i < |fields| ==> r[i] == Entry(fields[i].key, Canon(fields[i].value))
  {
    if fields == [] then [] else [Entry(fields[0].key, Canon(fields[0].value))] + CanonFields(fields[1..])
  }

  /** Printing an object's fields in the order given, without sorting. */
  function Render(v: Value): Text
  {
    match v
    case Arr(items) => [LBRACKET] + Join(RenderItems(items)) + [RBRACKET]
    case Obj(fields) => [LBRACE] + JoinFields(RenderFields(fields)) + [RBRACE]
    case _ => PrintAtom(v)
  }

  function RenderItems(items: seq<Value>): (r: seq<Text>)
    ensures |r| == |items|
    ensures forall i :: 0 <= i < |items| ==> r[i] == Render(items[i])
  {
    if items == [] then [] else [Render(items[0])] + RenderItems(items[1..])
  }

  function RenderFields(fields: seq<Entry<Value>>): (r: seq<Entry<Text>>)
    ensures |r| == |fields|
    ensures forall i :: 0 <= i < |fields| ==> r[i] == Entry(fields[i].key, Render(fields[i].value))
  {
    if fields == [] then [] else [Entry(fields[0].key, Render(fields[0].value))] + RenderFields(fields[1..])
  }

  /** Sorting printed fields is the same as printing sorted fields, at every level. */
  lemma {:induction false} PrintIsRenderedCanon(v: Value)
    ensures Print(v) == Render(Canon(v))
  {
    match v
    case Arr(items) =>
      forall i | 0 <= i < |items| ensures PrintItems(items)[i] == RenderItems(CanonItems(items))[i] {
        PrintIsRenderedCanon(items[i]);
      }
      assert PrintItems(items) == RenderItems(CanonItems(items));
    case Obj(fields) =>
      forall i | 0 <= i < |fields| ensures PrintFields(fields)[i] == RenderFields(CanonFields(fields))[i] {
        PrintIsRenderedCanon(fields[i].value);
      }
      assert PrintFields(fields) == RenderFields(CanonFields(fields));
      var cs := CanonFields(fields);
      assert RenderFields(cs) == MapValues(cs, Render);
      assert RenderFields(SortByKey(cs)) == MapValues(SortByKey(cs), Render);
      SortMapped(cs, Render);
    case _ =>
  }

  /** Values JSON can hold. */
  ghost predicate Plain(v: Value)
  {
    match v
    case Null | Bool(_) | Number(_) | Str(_) => true
    case Arr(items) => forall i :: 0 <= i < |items| ==> Plain(items[i])
    case Obj(fields) => forall i :: 0 <= i < |fields| ==> Plain(fields[i].value)
    case _ => false
  }

  lemma {:induction false} CanonIsPlain(v: Value)
    ensures Plain(Canon(v))
  {
    match v
    case Arr(items) =>
      forall i | 0 <= i < |items| ensures Plain(CanonItems(items)[i]) { CanonIsPlain(items[i]); }
    case Obj(fields) =>
      var cs := CanonFields(fields);
      forall i | 0 <= i < |fields| ensures Plain(cs[i].value) { CanonIsPlain(fields[i].value); }
      SortMembers(cs);
      forall i | 0 <= i < |cs| ensures Plain(SortByKey(cs)[i].value) {
        assert SortByKey(cs)[i] in cs;
      }
    case _ =>
  }

  // ----- a reader for the printed form -----

  predicate StartsWith(t: Text, word: Text) { |word| <= |t| && t[..|word|] == word }

  function ReadWord(t: Text): (r: Reading<Value>)
    ensures r.Read? ==> |r.rest| < |t|
  {
    if StartsWith(t, NULL_WORD) then Read(Null, t[4..])
    else if StartsWith(t, TRUE_WORD) then Read(Bool(true), t[4..])
    else if StartsWith(t, FALSE_WORD) then Read(Bool(false), t[5..])
    else Malformed
  }

  function ReadValue(t: Text): (r: Reading<Value>)
    ensures r.Read? ==> |r.rest| < |t|
    decreases |t|, 0
  {
    if t == [] then Malformed
    else if t[0] == QUOTE then
      var r := ReadString(t[1..]);
      if r.Malformed? then Malformed else Read(Str(r.value), r.rest)
    else if t[0] == LBRACKET then
      if |t| >= 2 && t[1] == RBRACKET then Read(Arr([]), t[2..])
      else
        var r := ReadItems(t[1..]);
        if r.Malformed? then Malformed else Read(Arr(r.value), r.rest)
    else if t[0] == LBRACE then
      if |t| >= 2 && t[1] == RBRACE then Read(Obj([]), t[2..])
      else
        var r := ReadFields(t[1..]);
        if r.Malformed? then Malformed else Read(Obj(r.value), r.rest)
    else if t[0] == MINUS || IsDigit(t[0]) then
      var r := ReadInt(t);
      if r.Malformed? then Malformed else Read(Number(r.value), r.rest)
    else ReadWord(t)
  }

  /** One or more values separated by commas, up to and including the closing bracket. */
  function ReadItems(t: Text): (r: Reading<seq<Value>>)
    ensures r.Read? ==> |r.rest| < |t|
    decreases |t|, 1
  {
    var v := ReadValue(t);
    if v.Malformed? || v.rest == [] then Malformed
    else if v.rest[0] == RBRACKET then Read([v.value], v.rest[1..])
    else if v.rest[0] != COMMA then Malformed
    else
      var more := ReadItems(v.rest[1..]);
      if more.Malformed? then Malformed else Read([v.value] + more.value, more.rest)
  }

  function ReadField(t: Text): (r: Reading<Entry<Value>>)
    ensures r.Read? ==> |r.rest| < |t|
    decreases |t|, 1
  {
    if t == [] || t[0] != QUOTE then Malformed
    else
      var k := ReadString(t[1..]);
      if k.Malformed? || k.rest == [] || k.rest[0] != COLON then Malformed
      else
        var v := ReadValue(k.rest[1..]);
        if v.Malformed? then Malformed else Read(Entry(k.value, v.value), v.rest)
  }

  /** One or more fields separated by commas, up to and including the closing brace. */
  function ReadFields(t: Text): (r: Reading<seq<Entry<Value>>>)
    ensures r.Read? ==> |r.rest| < |t|
    decreases |t|, 2
  {
    var f := ReadField(t);
    if f.Malformed? || f.rest == [] then Malformed
    else if f.rest[0] == RBRACE then Read([f.value], f.rest[1..])
    else if f.rest[0] != COMMA then Malformed
    else
      var more := ReadFields(f.rest[1..]);
      if more.Malformed? then Malformed else Read([f.value] + more.value, more.rest)
  }

  // ----- reading back what was printed -----

  predicate NoDigitNext(t: Text) { t == [] || !IsDigit(t[0]) }

  lemma WordRoundTrip(v: Value, rest: Text)
    requires v.Null? || v.Bool?
    ensures ReadWord(PrintAtom(v) + rest) == Read(v, rest)
  {
    var t := PrintAtom(v) + rest;
    if v == Bool(false) {
      assert t[..5] == FALSE_WORD && t[5..] == rest;
    } else {
      assert t[..4] == PrintAtom(v) && t[4..] == rest;
      assert NULL_WORD[0] != TRUE_WORD[0];
    }
  }

  lemma NumberRoundTrip(n: int, rest: Text)
    requires NoDigitNext(rest)
    ensures ReadValue(Decimal(n) + rest) == Read(Number(n), rest)
  {
    var t := Decimal(n) + rest;
    IntRoundTrip(n, rest);
    DigitsAreDigits(if n < 0 then -n else n);
    assert t[0] == MINUS || IsDigit(t[0]);
  }

  lemma StrRoundTrip(s: Text, rest: Text)
    ensures ReadValue(Quote(s) + rest) == Read(Str(s), rest)
  {
    var body := Escape(s) + ([QUOTE] + rest);
    StringRoundTrip(s, rest);
    assert Quote(s) + rest == [QUOTE] + body;
    assert ([QUOTE] + body)[1..] == body;
  }

  lemma AtomRoundTrip(v: Value, rest: Text)
    requires IsAtom(v) && Plain(v) && NoDigitNext(rest)
    ensures ReadValue(PrintAtom(v) + rest) == Read(v, rest)
  {
    if v.Number? {
      NumberRoundTrip(v.n, rest);
    } else if v.Str? {
      StrRoundTrip(v.s, rest);
    } else {
      WordRoundTrip(v, rest);
      assert PrintAtom(v)[0] in [NULL_WORD[0], TRUE_WORD[0], FALSE_WORD[0]];
      ReadsAsWord(PrintAtom(v) + rest);
    }
  }

  lemma ReadsAsWord(t: Text)
    requires t != [] && t[0] in [NULL_WORD[0], TRUE_WORD[0], FALSE_WORD[0]]
    ensures ReadValue(t) == ReadWord(t)
  {
  }

  lemma {:induction false} ValueRoundTrip(v: Value, rest: Text)
    requires Plain(v) && NoDigitNext(rest)
    ensures ReadValue(Render(v) + rest) == Read(v, rest)
    decreases v, 0
  {
    match v
    case Arr(items) =>
      if items != [] { ItemsRoundTrip(items, rest); }
      ArrRoundTrip(items, rest);
    case Obj(fields) =>
      if fields != [] { FieldsRoundTrip(fields, rest); }
      ObjRoundTrip(fields, rest);
    case _ => AtomRoundTrip(v, rest);
  }

  lemma ReadsArr(body: Text, items: seq<Value>, rest: Text)
    requires body != [] && body[0] != RBRACKET && ReadItems(body) == Read(items, rest)
    ensures ReadValue([LBRACKET] + body) == Read(Arr(items), rest)
  {
    assert ([LBRACKET] + body)[1..] == body;
  }

  lemma ArrRoundTrip(items: seq<Value>, rest: Text)
    requires Plain(Arr(items))
    requires items != [] ==> ReadItems(Join(RenderItems(items)) + ([RBRACKET] + rest)) == Read(items, rest)
    ensures ReadValue(Render(Arr(items)) + rest) == Read(Arr(items), rest)
  {
    var body := Join(RenderItems(items)) + ([RBRACKET] + rest);
    ArrText(items, rest);
    if items == [] {
      ReadsEmpty(rest);
    } else {
      FirstUnitOfItems(items);
      ReadsArr(body, items, rest);
    }
  }

  lemma ArrText(items: seq<Value>, rest: Text)
    ensures Render(Arr(items)) + rest == [LBRACKET] + (Join(RenderItems(items)) + ([RBRACKET] + rest))
  {
  }

  lemma ReadsEmpty(rest: Text)
    ensures ReadValue([LBRACKET] + ([RBRACKET] + rest)) == Read(Arr([]), rest)
    ensures ReadValue([LBRACE] + ([RBRACE] + rest)) == Read(Obj([]), rest)
  {
    assert ([LBRACKET] + ([RBRACKET] + rest))[2..] == rest;
    assert ([LBRACE] + ([RBRACE] + rest))[2..] == rest;
  }

  lemma ReadsObj(body: Text, fields: seq<Entry<Value>>, rest: Text)
    requires body != [] && body[0] != RBRACE && ReadFields(body) == Read(fields, rest)
    ensures ReadValue([LBRACE] + body) == Read(Obj(fields), rest)
  {
    assert ([LBRACE] + body)[1..] == body;
  }

  lemma ObjRoundTrip(fields: seq<Entry<Value>>, rest: Text)
    requires fields != [] ==> ReadFields(JoinFields(RenderFields(fields)) + ([RBRACE] + rest)) == Read(fields, rest)
    ensures ReadValue(Render(Obj(fields)) + rest) == Read(Obj(fields), rest)
  {
    var body := JoinFields(RenderFields(fields)) + ([RBRACE] + rest);
    ObjText(fields, rest);
    if fields == [] {
      ReadsEmpty(rest);
    } else {
      FirstUnitOfFields(fields);
      ReadsObj(body, fields, rest);
    }
  }

  lemma ObjText(fields: seq<Entry<Value>>, rest: Text)
    ensures Render(Obj(fields)) + rest == [LBRACE] + (JoinFields(RenderFields(fields)) + ([RBRACE] + rest))
  {
  }

  lemma FirstUnitOfFields(fields: seq<Entry<Value>>)
    requires fields != []
    ensures JoinFields(RenderFields(fields)) != [] && JoinFields(RenderFields(fields))[0] == QUOTE
  {
  }

  lemma FirstUnit(v: Value)
    requires Plain(v)
    ensures Render(v) != [] && Render(v)[0] != RBRACKET
  {
    if v.Number? { DigitsAreDigits(if v.n < 0 then -v.n else v.n); }
  }

  lemma JoinStartsWithFirst(texts: seq<Text>)
    requires texts != [] && texts[0] != []
    ensures Join(texts) != [] && Join(texts)[0] == texts[0][0]
  {
  }

  lemma FirstUnitOfItems(items: seq<Value>)
    requires items != [] && forall i :: 0 <= i < |items| ==> Plain(items[i])
    ensures Join(RenderItems(items)) != [] && Join(RenderItems(items))[0] != RBRACKET
  {
    FirstUnit(items[0]);
    hide Render, Plain, RenderItems;
    JoinStartsWithFirst(RenderItems(items));
  }

  lemma {:induction false} ItemsRoundTrip(items: seq<Value>, rest: Text)
    requires items != [] && forall i :: 0 <= i < |items| ==> Plain(items[i])
    ensures ReadItems(Join(RenderItems(items)) + ([RBRACKET] + rest)) == Read(items, rest)
    decreases items, 1
  {
    hide Render, Plain, ReadValue;
    var close := [RBRACKET] + rest;
    if |items| == 1 {
      ValueRoundTrip(items[0], close);
      assert items == [items[0]];
    } else {
      var more := Join(RenderItems(items[1..])) + close;
      ItemsRoundTrip(items[1..], rest);
      ValueRoundTrip(items[0], [COMMA] + more);
      assert RenderItems(items)[1..] == RenderItems(items[1..]);
      JoinStep(RenderItems(items), close);
      ReadsMoreItems(Join(RenderItems(items)) + close, items[0], more, items[1..], rest);
      assert items == [items[0]] + items[1..];
    }
  }

  lemma JoinStep(texts: seq<Text>, close: Text)
    requires |texts| > 1
    ensures Join(texts) + close == texts[0] + ([COMMA] + (Join(texts[1..]) + close))
  {
  }

  lemma ReadsMoreItems(t: Text, v: Value, more: Text, items: seq<Value>, rest: Text)
    requires ReadValue(t) == Read(v, [COMMA] + more)
    requires ReadItems(more) == Read(items, rest)
    ensures ReadItems(t) == Read([v] + items, rest)
  {
    assert ([COMMA] + more)[1..] == more;
  }

  lemma {:induction false} FieldRoundTrip(f: Entry<Value>, rest: Text)
    requires Plain(f.value) && NoDigitNext(rest)
    ensures ReadField(Quote(f.key) + [COLON] + Render(f.value) + rest) == Read(f, rest)
    decreases f.value, 1
  {
    hide Render, Escape, ReadValue, ReadString, Plain;
    var t := Quote(f.key) + [COLON] + Render(f.value) + rest;
    var afterKey := [COLON] + (Render(f.value) + rest);
    StringRoundTrip(f.key, afterKey);
    assert t[1..] == Escape(f.key) + ([QUOTE] + afterKey);
    assert afterKey[1..] == Render(f.value) + rest;
    ValueRoundTrip(f.value, rest);
  }

  lemma {:induction false} FieldsRoundTrip(fields: seq<Entry<Value>>, rest: Text)
    requires fields != [] && forall i :: 0 <= i < |fields| ==> Plain(fields[i].value)
    ensures ReadFields(JoinFields(RenderFields(fields)) + ([RBRACE] + rest)) == Read(fields, rest)
    decreases fields, 2
  {
    hide Render, Plain, Escape, ReadValue, Quote;
    var close := [RBRACE] + rest;
    if |fields| == 1 {
      FieldRoundTrip(fields[0], close);
      assert fields == [fields[0]];
    } else {
      var more := JoinFields(RenderFields(fields[1..])) + close;
      FieldsRoundTrip(fields[1..], rest);
      FieldRoundTrip(fields[0], [COMMA] + more);
      FieldsText(fields, close);
      hide RenderFields, JoinFields;
      ReadsMoreFields(JoinFields(RenderFields(fields)) + close, fields[0], more, fields[1..], rest);
      assert fields == [fields[0]] + fields[1..];
    }
  }

  lemma FieldsText(fields: seq<Entry<Value>>, close: Text)
    requires |fields| > 1
    ensures JoinFields(RenderFields(fields)) + close
            == Quote(fields[0].key) + [COLON] + Render(fields[0].value)
               + ([COMMA] + (JoinFields(RenderFields(fields[1..])) + close))
  {
    hide Render, Quote;
    assert RenderFields(fields)[1..] == RenderFields(fields[1..]);
  }

  lemma ReadsMoreFields(t: Text, f: Entry<Value>, more: Text, fields: seq<Entry<Value>>, rest: Text)
    requires ReadField(t) == Read(f, [COMMA] + more)
    requires ReadFields(more) == Read(fields, rest)
    ensures ReadFields(t) == Read([f] + fields, rest)
  {
    assert ([COMMA] + more)[1..] == more;
  }
}
