/** Decoded JSON and its canonical encoding (encoding/json with sorted object keys). */
module Json {
  import opened Text

  // ------------------------------------------------------------------ numbers

  predicate IsDigit(c: char) { '0' <= c <= '9' }

  predicate AllDigits(s: string) { forall i :: 0 <= i < |s| ==> IsDigit(s[i]) }

  predicate IsDigits(s: string) { s != "" && AllDigits(s) }

  /** Everything before the first character for which `stop` holds. */
  function Until(s: string, stop: char -> bool): (n: nat)
    ensures n <= |s|
    ensures n < |s| ==> stop(s[n])
    ensures forall i :: 0 <= i < n ==> !stop(s[i])
  {
    if s == "" || stop(s[0]) then 0 else 1 + Until(s[1..], stop)
  }

  /** The parts of a number literal: [-] whole [. fraction] [e exponent]. */
  datatype Parts = Parts(negative: bool, whole: string, fraction: Option<string>, exponent: Option<string>)

  function PartsOf(s: string): Parts {
    var negative := HasPrefix(s, "-");
    var body := if negative then s[1..] else s;
    var e := Until(body, c => c == 'e' || c == 'E');
    var mantissa := body[..e];
    var dot := Until(mantissa, c => c == '.');
    Parts(
      negative,
      mantissa[..dot],
      if dot < |mantissa| then Some(mantissa[dot + 1..]) else None,
      if e < |body| then Some(body[e + 1..]) else None)
  }

  predicate IsExponent(s: string) {
    IsDigits(s) || (s != "" && (s[0] == '+' || s[0] == '-') && IsDigits(s[1..]))
  }

  /** The number grammar of section 6 of RFC 8259. */
  predicate IsNumberLiteral(s: string) {
    var p := PartsOf(s);
    && IsDigits(p.whole) && (p.whole[0] == '0' ==> |p.whole| == 1)
    && (p.fraction.Some? ==> IsDigits(p.fraction.value))
    && (p.exponent.Some? ==> IsExponent(p.exponent.value))
  }

  lemma ZeroIsLiteral()
    ensures IsNumberLiteral("0")
  {
    assert Until("0", c => c == 'e' || c == 'E') == 1;
    assert "0"[..1] == "0";
    assert Until("0", c => c == '.') == 1;
  }

  type Literal = s: string | IsNumberLiteral(s) witness (ZeroIsLiteral(); "0")

  predicate IsNumberChar(c: char) {
    IsDigit(c) || c == '-' || c == '+' || c == '.' || c == 'e' || c == 'E'
  }

  predicate NumberChars(s: string) { forall i :: 0 <= i < |s| ==> IsNumberChar(s[i]) }

  lemma ExponentChars(s: string)
    requires IsExponent(s)
    ensures NumberChars(s)
  {
    if !IsDigits(s) {
      assert forall i :: 0 < i < |s| ==> s[i] == s[1..][i - 1];
    }
  }

  /** The unsigned part of a literal, by its three pieces. */
  lemma BodyChars(body: string, dot: nat, e: nat)
    requires dot <= e <= |body| && IsDigits(body[..dot])
    requires dot < e ==> body[dot] == '.' && IsDigits(body[dot + 1..e])
    requires e < |body| ==> (body[e] == 'e' || body[e] == 'E') && IsExponent(body[e + 1..])
    ensures body != "" && IsDigit(body[0]) && NumberChars(body)
  {
    hide IsExponent;
    assert body[0] == body[..dot][0];
    if e < |body| { ExponentChars(body[e + 1..]); }
    forall i | 0 <= i < |body| ensures IsNumberChar(body[i]) {
      if i < dot {
        assert body[i] == body[..dot][i];
      } else if dot < i < e {
        assert body[i] == body[dot + 1..e][i - dot - 1];
      } else if i > e {
        assert body[i] == body[e + 1..][i - e - 1];
      }
    }
  }

  function Unsigned(s: string): string {
    if HasPrefix(s, "-") then s[1..] else s
  }

  /** Where the pieces of a literal end, and what they are. */
  lemma Pieces(n: Literal) returns (dot: nat, e: nat)
    ensures var body := Unsigned(n);
            && dot <= e <= |body| && IsDigits(body[..dot])
            && (dot < e ==> body[dot] == '.' && IsDigits(body[dot + 1..e]))
            && (e < |body| ==> (body[e] == 'e' || body[e] == 'E') && IsExponent(body[e + 1..]))
  {
    hide IsExponent, IsDigits, HasPrefix;
    var body := Unsigned(n);
    e := Until(body, c => c == 'e' || c == 'E');
    var mantissa := body[..e];
    dot := Until(mantissa, c => c == '.');
    hide Until;
    assert mantissa[..dot] == body[..dot];
    if dot < e {
      assert mantissa[dot] == body[dot] && mantissa[dot + 1..] == body[dot + 1..e];
    }
  }

  lemma LiteralChars(n: Literal)
    ensures n != "" && (n[0] == '-' || IsDigit(n[0]))
    ensures forall i :: 0 <= i < |n| ==> IsNumberChar(n[i])
  {
    var dot, e := Pieces(n);
    hide IsExponent, IsNumberLiteral, IsDigits;
    var body := Unsigned(n);
    BodyChars(body, dot, e);
    if HasPrefix(n, "-") {
      assert n[..1][0] == n[0];
      assert forall i :: 0 < i < |n| ==> n[i] == body[i - 1];
    }
  }

  /** The number a digit string denotes. */
  function DigitsValue(s: string): nat
    requires AllDigits(s)
  {
    if s == "" then 0 else 10 * DigitsValue(s[..|s| - 1]) + (s[|s| - 1] as int - 48)
  }

  function Power10(n: nat): nat {
    if n == 0 then 1 else 10 * Power10(n - 1)
  }

  function ExponentValue(s: string): int
    requires IsExponent(s)
  {
    if s[0] == '-' then -(DigitsValue(s[1..]) as int)
    else if s[0] == '+' then DigitsValue(s[1..])
    else DigitsValue(s)
  }

  /** Does the literal denote an integer, as 1, 1.0 and 100e-2 all do? */
  predicate Integral(n: Literal) {
    var p := PartsOf(n);
    var fraction := if p.fraction.Some? then p.fraction.value else "";
    var shift := (if p.exponent.Some? then ExponentValue(p.exponent.value) else 0) - |fraction|;
    shift >= 0 || (Power10(-shift) > 0 && DigitsValue(p.whole + fraction) % Power10(-shift) == 0)
  }

  /** A literal without '.', 'e' or 'E'. */
  predicate Plain(n: Literal) {
    forall i :: 0 <= i < |n| ==> n[i] != '.' && n[i] != 'e' && n[i] != 'E'
  }

  lemma PlainIsIntegral(n: Literal)
    requires Plain(n)
    ensures Integral(n)
  {
    var off := if HasPrefix(n, "-") then 1 else 0;
    var body := n[off..];
    assert body == if off == 1 then n[1..] else n;
    assert forall i :: 0 <= i < |body| ==> body[i] == n[i + off];
    var e := Until(body, c => c == 'e' || c == 'E');
    assert e == |body|;
    assert body[..e] == body;
    assert Until(body, c => c == '.') == |body|;
  }

  /** Plain literals are those without a fraction and without an exponent, signed or not. */
  lemma PlainIffNoParts(n: Literal)
    ensures Plain(n) <==> PartsOf(n).fraction.None? && PartsOf(n).exponent.None?
    ensures Plain(n) <==> '.' !in n && 'e' !in n && 'E' !in n
  {
    var body := Unsigned(n);
    var off := |n| - |body|;
    assert forall i :: 0 <= i < |body| ==> body[i] == n[i + off];
    assert off == 1 ==> n[..1][0] == n[0] == '-';
    var e := Until(body, c => c == 'e' || c == 'E');
    var dot := Until(body[..e], c => c == '.');
    hide Until, IsNumberLiteral;
    if e < |body| {
      assert n[e + off] == body[e];
    } else {
      assert body[..e] == body;
      if dot < |body| { assert n[dot + off] == body[dot]; }
    }
    assert e == |body| && dot == |body| ==> forall i :: 0 <= i < |n| ==> i < off || n[i] == body[i - off];
  }

  // ------------------------------------------------------------------- values

  datatype Json =
    | Null
    | Bool(b: bool)
    | Num(literal: Literal)
    | Str(text: string)
    | Arr(items: seq<Json>)
    | Obj(fields: map<string, Json>)

  type Object = map<string, Json>

  /** value, _ := object[key].(string): absent and non-string both read as "". */
  function StringField(o: Object, key: string): string {
    if key in o && o[key].Str? then o[key].text else ""
  }

  function ObjectField(o: Object, key: string): Option<Object> {
    if key in o && o[key].Obj? then Some(o[key].fields) else None
  }

  // ----------------------------------------------------------------- encoding

  function HexDigit(n: nat): char
    requires n < 16
  {
    if n < 10 then (48 + n) as char else (87 + n) as char
  }

  function EscapeUnicode(n: nat): string
    requires n < 0x1_0000
  {
    ['\\', 'u', HexDigit(n / 16 / 16 / 16), HexDigit(n / 16 / 16 % 16), HexDigit(n / 16 % 16), HexDigit(n % 16)]
  }

  /** One character inside a JSON string, with encoding/json's HTML-safe escapes. */
  function EscapeChar(c: char): (e: string)
    ensures |e| == 1 || |e| == 2 || |e| == 6
  {
    var n := c as int;
    if c == '\"' || c == '\\' then ['\\', c]
    else if n == 8 then ['\\', 'b']
    else if n == 9 then ['\\', 't']
    else if n == 10 then ['\\', 'n']
    else if n == 12 then ['\\', 'f']
    else if n == 13 then ['\\', 'r']
    else if n < 32 || c == '<' || c == '>' || c == '&' || n == 0x2028 || n == 0x2029 then EscapeUnicode(n)
    else [c]
  }

  // Every Write function gives the encoding of its argument followed by `rest`,
  // so that a text is always read from its front.

  function WriteChars(s: string, rest: string): string {
    if s == "" then rest else EscapeChar(s[0]) + WriteChars(s[1..], rest)
  }

  function WriteString(s: string, rest: string): string {
    ['\"'] + WriteChars(s, ['\"'] + rest)
  }

  function Write(v: Json, rest: string): string
    decreases v
  {
    match v
    case Null => "null" + rest
    case Bool(b) => (if b then "true" else "false") + rest
    case Num(n) => n + rest
    case Str(s) => WriteString(s, rest)
    case Arr(items) => ['['] + WriteItems(items, true, [']'] + rest)
    case Obj(m) => ['{'] + WriteFields(v, Sorted(m.Keys), true, ['}'] + rest)
  }

  function WriteItems(items: seq<Json>, first: bool, rest: string): string
    decreases items
  {
    if items == [] then rest
    else Comma(first, Write(items[0], WriteItems(items[1..], false, rest)))
  }

  function WriteFields(v: Json, keys: seq<string>, first: bool, rest: string): string
    requires v.Obj? && forall k :: k in keys ==> k in v.fields
    decreases v, |keys|
  {
    if keys == [] then rest
    else
      Comma(first, WriteString(keys[0], [':'] + Write(v.fields[keys[0]], WriteFields(v, keys[1..], false, rest))))
  }

  function Comma(first: bool, text: string): string {
    if first then text else [','] + text
  }

  /** json.Marshal: compact, object keys sorted. */
  function Marshal(v: Json): string { Write(v, "") }

  // ------------------------------------------- the encoding is uniquely read

  lemma ConsUnique(c: char, d: char, x: string, y: string)
    requires [c] + x == [d] + y
    ensures c == d && x == y
  {
    assert ([c] + x)[0] == c && ([d] + y)[0] == d;
    assert ([c] + x)[1..] == x && ([d] + y)[1..] == y;
  }

  lemma PrefixUnique(p: string, q: string, x: string, y: string)
    requires p + x == q + y && |p| == |q|
    ensures p == q && x == y
  {
    assert (p + x)[..|p|] == p && (q + y)[..|q|] == q;
    assert (p + x)[|p|..] == x && (q + y)[|q|..] == y;
  }

  lemma HexInjective(m: nat, n: nat)
    requires m < 16 && n < 16 && HexDigit(m) == HexDigit(n)
    ensures m == n
  {
    assert HexDigit(m) as int == if m < 10 then 48 + m else 87 + m;
    assert HexDigit(n) as int == if n < 10 then 48 + n else 87 + n;
  }

  lemma EscapeUnicodeInjective(m: nat, n: nat)
    requires m < 0x1_0000 && n < 0x1_0000 && EscapeUnicode(m) == EscapeUnicode(n)
    ensures m == n
  {
    var a, b := EscapeUnicode(m), EscapeUnicode(n);
    assert a[2] == b[2] && a[3] == b[3] && a[4] == b[4] && a[5] == b[5];
    HexInjective(m / 16 / 16 / 16, n / 16 / 16 / 16);
    HexInjective(m / 16 / 16 % 16, n / 16 / 16 % 16);
    HexInjective(m / 16 % 16, n / 16 % 16);
    HexInjective(m % 16, n % 16);
  }

  /** No escape is a prefix of another. */
  lemma EscapeCharUnique(c: char, d: char, x: string, y: string)
    requires EscapeChar(c) + x == EscapeChar(d) + y
    ensures c == d && x == y
  {
    var e, f := EscapeChar(c), EscapeChar(d);
    assert e[0] == (e + x)[0] == (f + y)[0] == f[0];
    if |e| > 1 && |f| > 1 {
      assert e[1] == (e + x)[1] == (f + y)[1] == f[1];
    }
    assert |e| == |f|;
    PrefixUnique(e, f, x, y);
    if |e| == 6 { EscapeUnicodeInjective(c as int, d as int); }
  }

  lemma CharsFirst(s: string, x: string)
    ensures WriteChars(s, ['\"'] + x) != ""
    ensures WriteChars(s, ['\"'] + x)[0] == '\"' <==> s == ""
  {
    if s != "" {
      assert WriteChars(s, ['\"'] + x)[0] == EscapeChar(s[0])[0];
    }
  }

  lemma {:induction false} CharsUnique(s: string, t: string, x: string, y: string)
    requires WriteChars(s, ['\"'] + x) == WriteChars(t, ['\"'] + y)
    ensures s == t && x == y
  {
    CharsFirst(s, x);
    CharsFirst(t, y);
    if s == "" || t == "" {
      ConsUnique('\"', '\"', x, y);
    } else {
      EscapeCharUnique(s[0], t[0], WriteChars(s[1..], ['\"'] + x), WriteChars(t[1..], ['\"'] + y));
      CharsUnique(s[1..], t[1..], x, y);
      assert s == [s[0]] + s[1..] && t == [t[0]] + t[1..];
    }
  }

  lemma StringUnique(s: string, t: string, x: string, y: string)
    requires WriteString(s, x) == WriteString(t, y)
    ensures s == t && x == y
  {
    ConsUnique('\"', '\"', WriteChars(s, ['\"'] + x), WriteChars(t, ['\"'] + y));
    CharsUnique(s, t, x, y);
  }

  /** What may follow a value inside an encoding. */
  predicate Delimited(x: string) {
    x == "" || x[0] == ',' || x[0] == ']' || x[0] == '}'
  }

  /** The constructor can be read off the first character. */
  lemma FirstChar(v: Json, rest: string)
    ensures Write(v, rest) != ""
    ensures var c := Write(v, rest)[0];
            match v
            case Null => c == 'n'
            case Bool(b) => c == if b then 't' else 'f'
            case Num(_) => c == '-' || IsDigit(c)
            case Str(_) => c == '\"'
            case Arr(_) => c == '['
            case Obj(_) => c == '{'
  {
    if v.Num? { LiteralChars(v.literal); }
  }

  lemma NumberUnique(m: Literal, n: Literal, x: string, y: string)
    requires m + x == n + y && Delimited(x) && Delimited(y)
    ensures m == n && x == y
  {
    assert |m| >= |n| by { NumberNotShorter(m, n, x, y); }
    assert |n| >= |m| by { NumberNotShorter(n, m, y, x); }
    PrefixUnique(m, n, x, y);
  }

  lemma NumberNotShorter(m: Literal, n: Literal, x: string, y: string)
    requires m + x == n + y && Delimited(x)
    ensures |m| >= |n|
  {
    LiteralChars(n);
    var k := |m|;
    assert k < |n| ==> IsNumberChar((n + y)[k]);
    assert k < |m + x| ==> (m + x)[k] == x[0];
  }

  /** Reading a value off the front of a text can end in only one way. */
  lemma {:induction false} WriteUnique(v: Json, w: Json, x: string, y: string)
    requires Write(v, x) == Write(w, y)
    requires Delimited(x) && Delimited(y)
    ensures v == w && x == y
    decreases v
  {
    FirstChar(v, x);
    FirstChar(w, y);
    match v {
      case Null => PrefixUnique("null", "null", x, y);
      case Bool(b) =>
        var t := if b then "true" else "false";
        PrefixUnique(t, t, x, y);
      case Num(n) => NumberUnique(n, w.literal, x, y);
      case Str(s) => StringUnique(s, w.text, x, y);
      case Arr(items) =>
        ConsUnique('[', '[', WriteItems(items, true, [']'] + x), WriteItems(w.items, true, [']'] + y));
        ItemsUnique(items, w.items, true, x, y);
      case Obj(m) =>
        var j, k := Sorted(m.Keys), Sorted(w.fields.Keys);
        ConsUnique('{', '{', WriteFields(v, j, true, ['}'] + x), WriteFields(w, k, true, ['}'] + y));
        FieldsUnique(v, j, w, k, true, x, y);
        assert m.Keys == w.fields.Keys by {
          assert forall key :: key in m <==> key in j;
          assert forall key :: key in w.fields <==> key in k;
        }
        assert m == w.fields;
    }
  }

  lemma ItemsFirst(items: seq<Json>, first: bool, x: string)
    ensures WriteItems(items, first, [']'] + x) != ""
    ensures items == [] ==> WriteItems(items, first, [']'] + x)[0] == ']'
    ensures items != [] ==> WriteItems(items, first, [']'] + x)[0] != ']'
    ensures !first ==> Delimited(WriteItems(items, first, [']'] + x))
  {
    if items != [] { FirstChar(items[0], WriteItems(items[1..], false, [']'] + x)); }
  }

  lemma {:induction false} ItemsUnique(a: seq<Json>, b: seq<Json>, first: bool, x: string, y: string)
    requires WriteItems(a, first, [']'] + x) == WriteItems(b, first, [']'] + y)
    ensures a == b && x == y
    decreases a, 0
  {
    ItemsFirst(a, first, x);
    ItemsFirst(b, first, y);
    if a == [] || b == [] {
      ConsUnique(']', ']', x, y);
    } else {
      var x', y' := WriteItems(a[1..], false, [']'] + x), WriteItems(b[1..], false, [']'] + y);
      ItemsFirst(a[1..], false, x);
      ItemsFirst(b[1..], false, y);
      if !first { ConsUnique(',', ',', Write(a[0], x'), Write(b[0], y')); }
      WriteUnique(a[0], b[0], x', y');
      ItemsUnique(a[1..], b[1..], false, x, y);
      assert a == [a[0]] + a[1..] && b == [b[0]] + b[1..];
    }
  }

  lemma FieldsFirst(v: Json, keys: seq<string>, first: bool, x: string)
    requires v.Obj? && forall key :: key in keys ==> key in v.fields
    ensures keys == [] ==> WriteFields(v, keys, first, ['}'] + x)[0] == '}'
    ensures keys != [] ==> WriteFields(v, keys, first, ['}'] + x)[0] == if first then '\"' else ','
    ensures !first ==> Delimited(WriteFields(v, keys, first, ['}'] + x))
  {
  }

  lemma {:induction false} FieldsUnique(v: Json, j: seq<string>, w: Json, k: seq<string>,
                                        first: bool, x: string, y: string)
    requires v.Obj? && forall key :: key in j ==> key in v.fields
    requires w.Obj? && forall key :: key in k ==> key in w.fields
    requires WriteFields(v, j, first, ['}'] + x) == WriteFields(w, k, first, ['}'] + y)
    ensures j == k && x == y
    ensures forall key :: key in j ==> v.fields[key] == w.fields[key]
    decreases v, |j|
  {
    FieldsFirst(v, j, first, x);
    FieldsFirst(w, k, first, y);
    if j == [] || k == [] {
      ConsUnique('}', '}', x, y);
    } else {
      var x', y' := WriteFields(v, j[1..], false, ['}'] + x), WriteFields(w, k[1..], false, ['}'] + y);
      FieldsFirst(v, j[1..], false, x);
      FieldsFirst(w, k[1..], false, y);
      var a, b := v.fields[j[0]], w.fields[k[0]];
      var s, t := [':'] + Write(a, x'), [':'] + Write(b, y');
      if !first { ConsUnique(',', ',', WriteString(j[0], s), WriteString(k[0], t)); }
      StringUnique(j[0], k[0], s, t);
      ConsUnique(':', ':', Write(a, x'), Write(b, y'));
      WriteUnique(a, b, x', y');
      FieldsUnique(v, j[1..], w, k[1..], false, x, y);
      assert j == [j[0]] + j[1..] && k == [k[0]] + k[1..];
    }
  }

  /** Distinct values have distinct encodings. */
  lemma MarshalInjective(v: Json, w: Json)
    requires Marshal(v) == Marshal(w)
    ensures v == w
  {
    WriteUnique(v, w, "", "");
  }

  // ------------------------------------------------------- the encoding spelled out

  lemma Regroup(a: string, b: string, c: string)
    ensures a + (b + c) == (a + b) + c
  {
  }

  lemma CommaAppends(first: bool, text: string, rest: string)
    ensures Comma(first, text + rest) == Comma(first, text) + rest
  {
    Regroup([','], text, rest);
  }

  lemma {:induction false} CharsAppend(s: string, rest: string)
    ensures WriteChars(s, rest) == WriteChars(s, "") + rest
  {
    hide EscapeChar;
    if s == "" {
      assert "" + rest == rest;
    } else {
      CharsAppend(s[1..], rest);
      Regroup(EscapeChar(s[0]), WriteChars(s[1..], ""), rest);
    }
  }

  lemma StringAppend(s: string, rest: string)
    ensures WriteString(s, rest) == "\"" + WriteChars(s, "") + "\"" + rest
  {
    CharsAppend(s, ['\"'] + rest);
  }

  /** Whatever follows, a value is written as by itself. */
  lemma {:induction false} WriteAppends(v: Json, rest: string)
    ensures Write(v, rest) == Marshal(v) + rest
    decreases v, 1
  {
    match v {
      case Null =>
      case Bool(_) =>
      case Num(_) =>
      case Str(s) =>
        StringAppend(s, rest);
        StringAppend(s, "");
      case Arr(items) =>
        ItemsAppend(items, true, [']'], rest);
        assert [']'] + rest == "]" + rest && [']'] + "" == [']'];
      case Obj(m) =>
        FieldsAppend(v, Sorted(m.Keys), true, ['}'], rest);
        assert ['}'] + rest == "}" + rest && ['}'] + "" == ['}'];
    }
  }

  lemma {:induction false} ItemsAppend(items: seq<Json>, first: bool, end: string, rest: string)
    ensures WriteItems(items, first, end + rest) == WriteItems(items, first, end) + rest
    decreases items, 0
  {
    hide Write, Comma, Marshal;
    if items == [] {
    } else {
      var tail := WriteItems(items[1..], false, end);
      ItemsAppend(items[1..], false, end, rest);
      WriteAppends(items[0], tail + rest);
      WriteAppends(items[0], tail);
      Regroup(Marshal(items[0]), tail, rest);
      CommaAppends(first, Marshal(items[0]) + tail, rest);
    }
  }

  lemma {:induction false} FieldsAppend(v: Json, keys: seq<string>, first: bool, end: string, rest: string)
    requires v.Obj? && forall k :: k in keys ==> k in v.fields
    ensures WriteFields(v, keys, first, end + rest) == WriteFields(v, keys, first, end) + rest
    decreases v, 0, |keys|
  {
    if keys == [] {
    } else {
      FieldStep(v, keys, first, end);
      FieldStep(v, keys, first, end + rest);
      FieldsAppend(v, keys[1..], false, end, rest);
      hide WriteFields, Write, WriteString, WriteChars, Comma, Marshal;
      var k, tail := keys[0], WriteFields(v, keys[1..], false, end);
      WriteAppends(v.fields[k], tail + rest);
      WriteAppends(v.fields[k], tail);
      var one := [':'] + Write(v.fields[k], tail);
      Regroup(Marshal(v.fields[k]), tail, rest);
      Regroup([':'], Write(v.fields[k], tail), rest);
      StringAppend(k, one + rest);
      StringAppend(k, one);
      Regroup("\"" + WriteChars(k, "") + "\"", one, rest);
      CommaAppends(first, WriteString(k, one), rest);
    }
  }

  lemma FieldStep(v: Json, keys: seq<string>, first: bool, end: string)
    requires v.Obj? && keys != [] && forall k :: k in keys ==> k in v.fields
    ensures WriteFields(v, keys, first, end) ==
            Comma(first, WriteString(keys[0], [':'] + Write(v.fields[keys[0]], WriteFields(v, keys[1..], false, end))))
  {
  }

  /** Literals, numbers and the empty values. */
  lemma SimpleTexts(n: Literal)
    ensures Marshal(Null) == "null" && Marshal(Bool(true)) == "true" && Marshal(Bool(false)) == "false"
    ensures Marshal(Num(n)) == n
    ensures Marshal(Arr([])) == "[]" && Marshal(Obj(map[])) == "{}"
  {
    assert n + "" == n;
  }

  /** A string is quoted, character by character. */
  lemma StringTexts(c: char, s: string)
    ensures Marshal(Str("")) == "\"\""
    ensures Marshal(Str([c] + s)) == "\"" + EscapeChar(c) + Marshal(Str(s))[1..]
  {
    StringAppend("", "");
    StringAppend(s, "");
    StringAppend([c] + s, "");
    assert ([c] + s)[1..] == s;
  }

  /** The escapes: the two-character ones, and six characters for other controls and for
      what could end a script. */
  lemma EscapesAre(c: char)
    ensures EscapeChar('\"') == "\\\"" && EscapeChar('\\') == "\\\\"
    ensures EscapeChar('\n') == "\\n" && EscapeChar('\r') == "\\r" && EscapeChar('\t') == "\\t"
    ensures EscapeChar(8 as char) == "\\b" && EscapeChar(12 as char) == "\\f"
    ensures EscapeChar('<') == "\\u003c" && EscapeChar('>') == "\\u003e" && EscapeChar('&') == "\\u0026"
    ensures EscapeChar(0 as char) == "\\u0000" && EscapeChar(0x1F as char) == "\\u001f"
    ensures EscapeChar(0x2028 as char) == "\\u2028" && EscapeChar(0x2029 as char) == "\\u2029"
    ensures EscapeChar(c) == [c] <==>
            c as int >= 0x20 && c !in ['\"', '\\', '<', '>', '&', 0x2028 as char, 0x2029 as char]
  {
  }

  function Member(k: string, v: Json): string {
    Marshal(Str(k)) + ":" + Marshal(v)
  }

  lemma FieldText(v: Json, keys: seq<string>, first: bool, end: string)
    requires v.Obj? && keys != [] && forall k :: k in keys ==> k in v.fields
    ensures WriteFields(v, keys, first, end) ==
            Comma(first, Member(keys[0], v.fields[keys[0]]) + WriteFields(v, keys[1..], false, end))
  {
    FieldStep(v, keys, first, end);
    hide WriteString, Write, Marshal, WriteFields;
    var k, tail := keys[0], WriteFields(v, keys[1..], false, end);
    WriteAppends(v.fields[k], tail);
    StringIsMarshal(k, [':'] + (Marshal(v.fields[k]) + tail));
    assert [':'] + (Marshal(v.fields[k]) + tail) == ":" + Marshal(v.fields[k]) + tail;
    assert Marshal(Str(k)) + (":" + Marshal(v.fields[k]) + tail) == Marshal(Str(k)) + ":" + Marshal(v.fields[k]) + tail;
  }

  lemma ItemText(items: seq<Json>, first: bool, end: string)
    requires items != []
    ensures WriteItems(items, first, end) == Comma(first, Marshal(items[0]) + WriteItems(items[1..], false, end))
  {
    hide Write, Marshal;
    WriteAppends(items[0], WriteItems(items[1..], false, end));
  }

  lemma StringIsMarshal(k: string, rest: string)
    ensures WriteString(k, rest) == Marshal(Str(k)) + rest
  {
    WriteAppends(Str(k), rest);
  }

  lemma SortedOne(k: string)
    ensures Sorted({k}) == [k]
  {
    var q := Sorted({k});
    assert |q| == 1 && q[0] in {k};
  }

  lemma SortedPair(k: string, l: string)
    requires Less(k, l)
    ensures k != l && Sorted({k, l}) == [k, l]
  {
    LessTrichotomy(k, l);
    SortedAscending({k, l});
    assert |{k, l}| == 2;
    assert [k, l][0] == k && [k, l][1] == l;
    forall x ensures x in [k, l] <==> x in {k, l} { }
    AscendingUnique(Sorted({k, l}), [k, l]);
  }

  lemma Ends(v: Json, end: string)
    ensures WriteItems([], false, end) == end
    ensures v.Obj? ==> WriteFields(v, [], false, end) == end
  {
  }

  lemma Brackets(items: seq<Json>, m: Object)
    ensures Marshal(Arr(items)) == "[" + WriteItems(items, true, "]")
    ensures Marshal(Obj(m)) == "{" + WriteFields(Obj(m), Sorted(m.Keys), true, "}")
  {
    hide WriteItems, WriteFields, Sorted;
    assert [']'] + "" == "]" && ['}'] + "" == "}";
  }

  /** Items are separated by commas. */
  lemma ArrayTexts(v: Json, w: Json)
    ensures Marshal(Arr([v])) == "[" + Marshal(v) + "]"
    ensures Marshal(Arr([v, w])) == "[" + Marshal(v) + "," + Marshal(w) + "]"
  {
    Brackets([v], map[]);
    Brackets([v, w], map[]);
    hide Marshal, WriteItems;
    assert [v][1..] == [] && [v, w][1..] == [w] && [w][1..] == [];
    ItemText([v], true, "]");
    ItemText([w], false, "]");
    ItemText([v, w], true, "]");
    Ends(v, "]");
  }

  lemma MemberText(v: Json, k: string)
    ensures Marshal(Obj(map[k := v])) == "{" + (Member(k, v) + "}")
  {
    var one := Obj(map[k := v]);
    assert one.fields.Keys == {k};
    SortedOne(k);
    Brackets([], one.fields);
    hide Marshal, WriteFields, Sorted, Member;
    assert [k][1..] == [];
    FieldText(one, [k], true, "}");
    Ends(one, "}");
  }

  /** So are the members of an object, the lesser key first. */
  lemma MembersText(v: Json, w: Json, k: string, l: string)
    requires Less(k, l)
    ensures Marshal(Obj(map[k := v, l := w])) == "{" + (Member(k, v) + ("," + (Member(l, w) + "}")))
  {
    var two := Obj(map[k := v, l := w]);
    assert two.fields.Keys == {k, l};
    SortedPair(k, l);
    Brackets([], two.fields);
    hide Marshal, WriteFields, Sorted, Less, Member;
    assert [k, l][1..] == [l] && [l][1..] == [];
    assert two.fields[k] == v && two.fields[l] == w;
    FieldText(two, [l], false, "}");
    FieldText(two, [k, l], true, "}");
    Ends(two, "}");
  }
}
