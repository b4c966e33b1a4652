/** JSON string literals and decimal integers: the writer the source relies on (`JSON.stringify` on a string or
    an integer) and a reader written from the grammar of sections 6 and 7 of RFC 8259. Quotes, backslashes and
    control characters are escaped; a surrogate pair is written as it is, a surrogate without its partner as an
    escape. */
module JsonText {
  import opened CodeUnits

  const QUOTE: CodeUnit := 0x22
  const BACKSLASH: CodeUnit := 0x5C
  const SLASH: CodeUnit := 0x2F
  const MINUS: CodeUnit := 0x2D

  /** The outcome of reading a value off the front of a text. */
  datatype Reading<+T> = Malformed | Read(value: T, rest: Text)

  // ----- string literals -----

  predicate IsHighSurrogate(u: CodeUnit) { 0xD800 <= u < 0xDC00 }
  predicate IsLowSurrogate(u: CodeUnit) { 0xDC00 <= u < 0xE000 }
  predicate IsSurrogate(u: CodeUnit) { 0xD800 <= u < 0xE000 }

  function HexDigit(d: nat): CodeUnit
    requires d < 16
  {
    if d < 10 then (0x30 + d) as CodeUnit else (0x61 + d - 10) as CodeUnit
  }

  function HexValue(u: CodeUnit): (r: int)
    ensures -1 <= r < 16
  {
    if 0x30 <= u <= 0x39 then u as int - 0x30
    else if 0x61 <= u <= 0x66 then u as int - 0x61 + 10
    else if 0x41 <= u <= 0x46 then u as int - 0x41 + 10
    else -1
  }

  /** `\uXXXX`, in lower case. */
  function UnicodeEscape(u: CodeUnit): Text
  {
    [BACKSLASH, 0x75, HexDigit(u as int / 4096), HexDigit(u as int / 256 % 16),
     HexDigit(u as int / 16 % 16), HexDigit(u as int % 16)]
  }

  /** The letter of a two-unit escape, or 0 for a unit that has none. */
  function ShortEscape(u: CodeUnit): CodeUnit
  {
    if u == 0x08 then 0x62
    else if u == 0x09 then 0x74
    else if u == 0x0A then 0x6E
    else if u == 0x0C then 0x66
    else if u == 0x0D then 0x72
    else if u == QUOTE || u == BACKSLASH then u
    else 0
  }

  function EscapeUnit(u: CodeUnit): Text
  {
    if ShortEscape(u) != 0 then [BACKSLASH, ShortEscape(u)]
    else if u < 0x20 || IsSurrogate(u) then UnicodeEscape(u)
    else [u]
  }

  /** A surrogate pair is written as it is; a surrogate on its own is escaped. */
  function Escape(s: Text): Text
  {
    if s == [] then []
    else if |s| >= 2 && IsHighSurrogate(s[0]) && IsLowSurrogate(s[1]) then [s[0], s[1]] + Escape(s[2..])
    else EscapeUnit(s[0]) + Escape(s[1..])
  }

  function Quote(s: Text): Text
  {
    [QUOTE] + Escape(s) + [QUOTE]
  }

  /** The code unit an escape sequence stands for; `t` starts after the backslash. */
  function ReadEscape(t: Text): (r: Reading<CodeUnit>)
    ensures r.Read? ==> |r.rest| < |t|
  {
    if t == [] then Malformed
    else if t[0] == 0x62 then Read(0x08, t[1..])
    else if t[0] == 0x74 then Read(0x09, t[1..])
    else if t[0] == 0x6E then Read(0x0A, t[1..])
    else if t[0] == 0x66 then Read(0x0C, t[1..])
    else if t[0] == 0x72 then Read(0x0D, t[1..])
    else if t[0] == QUOTE || t[0] == BACKSLASH || t[0] == SLASH then Read(t[0], t[1..])
    else if t[0] == 0x75 && |t| >= 5
            && HexValue(t[1]) >= 0 && HexValue(t[2]) >= 0 && HexValue(t[3]) >= 0 && HexValue(t[4]) >= 0 then
      Read((HexValue(t[1]) * 4096 + HexValue(t[2]) * 256 + HexValue(t[3]) * 16 + HexValue(t[4])) as CodeUnit, t[5..])
    else Malformed
  }

  function Prepend(u: CodeUnit, r: Reading<Text>): Reading<Text>
  {
    if r.Malformed? then Malformed else Read([u] + r.value, r.rest)
  }

  /** The rest of a string literal, up to and including its closing quote. */
  function ReadString(t: Text): (r: Reading<Text>)
    ensures r.Read? ==> |r.rest| < |t|
    decreases |t|
  {
    if t == [] || t[0] < 0x20 then Malformed
    else if t[0] == QUOTE then Read([], t[1..])
    else if t[0] == BACKSLASH then
      var e := ReadEscape(t[1..]);
      if e.Malformed? then Malformed else Prepend(e.value, ReadString(e.rest))
    else Prepend(t[0], ReadString(t[1..]))
  }

  lemma HexExpansion(n: nat)
    requires n < 0x1_0000
    ensures n / 4096 < 16
    ensures n == n / 4096 * 4096 + n / 256 % 16 * 256 + n / 16 % 16 * 16 + n % 16
  {
    assert n / 256 == (n / 256) / 16 * 16 + n / 256 % 16 && (n / 256) / 16 == n / 4096;
    assert n / 16 == (n / 16) / 16 * 16 + n / 16 % 16 && (n / 16) / 16 == n / 256;
  }

  lemma ReadsUnicodeEscape(u: CodeUnit, tail: Text)
    ensures ReadEscape(UnicodeEscape(u)[1..] + tail) == Read(u, tail)
  {
    var n := u as int;
    HexExpansion(n);
    assert UnicodeEscape(u)[1..] ==
           [0x75, HexDigit(n / 4096), HexDigit(n / 256 % 16), HexDigit(n / 16 % 16), HexDigit(n % 16)];
  }

  lemma ReadsEscapedUnit(u: CodeUnit, tail: Text)
    ensures ReadString(EscapeUnit(u) + tail) == Prepend(u, ReadString(tail))
  {
    var e := EscapeUnit(u);
    var t := e + tail;
    if ShortEscape(u) != 0 {
      assert t[1..] == [ShortEscape(u)] + tail && t[1..][1..] == tail;
      assert ReadEscape(t[1..]) == Read(u, tail);
    } else if u < 0x20 || IsSurrogate(u) {
      assert t[1..] == UnicodeEscape(u)[1..] + tail;
      ReadsUnicodeEscape(u, tail);
    } else {
      assert t[1..] == tail;
    }
  }

  lemma ReadsRawUnit(u: CodeUnit, tail: Text)
    requires u >= 0x20 && u != QUOTE && u != BACKSLASH
    ensures ReadString([u] + tail) == Prepend(u, ReadString(tail))
  {
    assert ([u] + tail)[1..] == tail;
  }

  lemma ReadsPair(s: Text, tail: Text)
    requires |s| >= 2 && IsHighSurrogate(s[0]) && IsLowSurrogate(s[1])
    requires ReadString(tail).Read?
    ensures ReadString([s[0], s[1]] + tail) == Read([s[0], s[1]] + ReadString(tail).value, ReadString(tail).rest)
  {
    var r := ReadString(tail);
    ReadsRawUnit(s[1], tail);
    ReadsRawUnit(s[0], [s[1]] + tail);
    assert [s[0], s[1]] + tail == [s[0]] + ([s[1]] + tail);
    assert [s[0]] + ([s[1]] + r.value) == [s[0], s[1]] + r.value;
  }

  lemma EscapeAppend(a: Text, s: Text, close: Text)
    ensures a + Escape(s) + close == a + (Escape(s) + close)
  {
  }

  /** Reading a written literal gives the string back and stops right after it. */
  lemma {:induction false} StringRoundTrip(s: Text, rest: Text)
    ensures ReadString(Escape(s) + ([QUOTE] + rest)) == Read(s, rest)
  {
    var close := [QUOTE] + rest;
    if s == [] {
      assert Escape(s) + close == close;
      assert close[1..] == rest;
    } else if |s| >= 2 && IsHighSurrogate(s[0]) && IsLowSurrogate(s[1]) {
      StringRoundTrip(s[2..], rest);
      ReadsPair(s, Escape(s[2..]) + close);
      EscapeAppend([s[0], s[1]], s[2..], close);
      assert s == [s[0], s[1]] + s[2..];
    } else {
      StringRoundTrip(s[1..], rest);
      ReadsEscapedUnit(s[0], Escape(s[1..]) + close);
      EscapeAppend(EscapeUnit(s[0]), s[1..], close);
      assert s == [s[0]] + s[1..];
    }
  }

  // ----- integers -----

  predicate IsDigit(u: CodeUnit) { 0x30 <= u <= 0x39 }

  function Digits(n: nat): Text
  {
    if n < 10 then [(0x30 + n) as CodeUnit] else Digits(n / 10) + [(0x30 + n % 10) as CodeUnit]
  }

  function Decimal(n: int): Text
  {
    if n < 0 then [MINUS] + Digits(-n) else Digits(n)
  }

  /** The number of digits at the front of a text. */
  function DigitRun(t: Text): (k: nat)
    ensures k <= |t|
  {
    if t == [] || !IsDigit(t[0]) then 0 else 1 + DigitRun(t[1..])
  }

  function DigitsValue(t: Text): nat
    requires forall i :: 0 <= i < |t| ==> IsDigit(t[i])
  {
    if t == [] then 0
    else
      assert IsDigit(t[|t| - 1]);
      10 * DigitsValue(t[..|t| - 1]) + (t[|t| - 1] as int - 0x30)
  }

  lemma {:induction false} RunIsDigits(t: Text)
    ensures forall i :: 0 <= i < DigitRun(t) ==> IsDigit(t[i])
  {
    if t != [] && IsDigit(t[0]) {
      RunIsDigits(t[1..]);
      forall i | 0 < i < DigitRun(t) ensures IsDigit(t[i]) {
        assert t[i] == t[1..][i - 1];
      }
    }
  }

  /** A number without sign: the longest run of digits. */
  function ReadNat(t: Text): (r: Reading<int>)
    ensures r.Read? ==> |r.rest| < |t|
  {
    var k := DigitRun(t);
    RunIsDigits(t);
    if k == 0 then Malformed else Read(DigitsValue(t[..k]), t[k..])
  }

  function ReadInt(t: Text): (r: Reading<int>)
    ensures r.Read? ==> |r.rest| < |t|
  {
    if t != [] && t[0] == MINUS then
      var r := ReadNat(t[1..]);
      if r.Malformed? then Malformed else Read(-r.value, r.rest)
    else ReadNat(t)
  }

  lemma {:induction false} DigitsAreDigits(n: nat)
    ensures Digits(n) != []
    ensures forall i :: 0 <= i < |Digits(n)| ==> IsDigit(Digits(n)[i])
    ensures DigitsValue(Digits(n)) == n
  {
    if n >= 10 {
      DigitsAreDigits(n / 10);
      assert Digits(n)[..|Digits(n)| - 1] == Digits(n / 10);
    }
  }

  lemma {:induction false} RunStops(ds: Text, rest: Text)
    requires forall i :: 0 <= i < |ds| ==> IsDigit(ds[i])
    requires rest == [] || !IsDigit(rest[0])
    ensures DigitRun(ds + rest) == |ds|
  {
    if ds == [] {
      assert ds + rest == rest;
    } else {
      RunStops(ds[1..], rest);
      assert (ds + rest)[1..] == ds[1..] + rest;
    }
  }

  /** Reading a written integer gives it back, as long as no digit follows. */
  lemma IntRoundTrip(n: int, rest: Text)
    requires rest == [] || !IsDigit(rest[0])
    ensures ReadInt(Decimal(n) + rest) == Read(n, rest)
  {
    hide Digits, DigitsValue, DigitRun;
    var m: nat := if n < 0 then -n else n;
    DigitsAreDigits(m);
    RunStops(Digits(m), rest);
    assert (Digits(m) + rest)[..|Digits(m)|] == Digits(m);
    assert (Digits(m) + rest)[|Digits(m)|..] == rest;
    if n < 0 {
      assert (Decimal(n) + rest)[1..] == Digits(m) + rest;
    } else {
      assert IsDigit((Decimal(n) + rest)[0]);
    }
  }
}
