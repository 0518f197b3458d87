/** The PAYMENT-REQUIRED header: raw JSON or any of four base64 forms
    (sections 3.2, 4 and 5 of RFC 4648). */
module Headers {
  import opened Text

  type Byte = b: int | 0 <= b < 256

  /** Six bits. */
  type Sextet = n: int | 0 <= n < 64

  datatype Encoding = Encoding(urlSafe: bool, padded: bool)

  const STD := Encoding(false, true)
  const RAW_STD := Encoding(false, false)
  const URL := Encoding(true, true)
  const RAW_URL := Encoding(true, false)

  // ------------------------------------------------------------------- alphabets

  function Symbol(urlSafe: bool, n: Sextet): char {
    if n < 26 then (n + 65) as char
    else if n < 52 then (n + 71) as char
    else if n < 62 then (n - 4) as char
    else if n == 62 then (if urlSafe then '-' else '+')
    else (if urlSafe then '_' else '/')
  }

  function Value(urlSafe: bool, c: char): Option<Sextet> {
    if 'A' <= c <= 'Z' then Some(c as int - 65)
    else if 'a' <= c <= 'z' then Some(c as int - 71)
    else if '0' <= c <= '9' then Some(c as int + 4)
    else if c == (if urlSafe then '-' else '+') then Some(62)
    else if c == (if urlSafe then '_' else '/') then Some(63)
    else None
  }

  lemma SymbolValue(urlSafe: bool, n: Sextet)
    ensures Value(urlSafe, Symbol(urlSafe, n)) == Some(n)
    ensures Symbol(urlSafe, n) != '\r' && Symbol(urlSafe, n) != '\n' && Symbol(urlSafe, n) != '{'
  {
    assert n < 62 ==> Symbol(urlSafe, n) as int == if n < 26 then n + 65 else if n < 52 then n + 71 else n - 4;
  }

  /** The alphabets differ only in characters the other one rejects. */
  lemma ValuesAgree(u: bool, w: bool, c: char)
    requires Value(u, c).Some? && Value(w, c).Some?
    ensures Value(u, c) == Value(w, c) && c != '='
  {
  }

  // ------------------------------------------------------------ bytes and sextets

  function Pack(a: Sextet, b: Sextet, c: Sextet, d: Sextet): (bytes: seq<Byte>)
    ensures |bytes| == 3
  {
    [a * 4 + b / 16, b % 16 * 16 + c / 4, c % 4 * 64 + d]
  }

  function First(x: Byte): Sextet { x / 4 }

  function Second(x: Byte, y: Byte): Sextet { x % 4 * 16 + y / 16 }

  function Third(y: Byte, z: Byte): Sextet { y % 16 * 4 + z / 64 }

  function Fourth(z: Byte): Sextet { z % 64 }

  lemma PackUnpacks(x: Byte, y: Byte, z: Byte)
    ensures Pack(First(x), Second(x, y), Third(y, z), Fourth(z)) == [x, y, z]
  {
    assert Second(x, y) / 16 == x % 4 && Second(x, y) % 16 == y / 16;
    assert Third(y, z) / 4 == y % 16 && Third(y, z) % 4 == z / 64;
  }

  // -------------------------------------------------------------------- decoding

  predicate Symbols(urlSafe: bool, s: string) {
    forall i :: 0 <= i < |s| ==> Value(urlSafe, s[i]).Some?
  }

  function At(urlSafe: bool, s: string, i: nat): Sextet
    requires i < |s| && Symbols(urlSafe, s)
  {
    Value(urlSafe, s[i]).value
  }

  /** The last, incomplete quantum. Leftover bits are not checked. */
  function DecodeTail(e: Encoding, s: string): Option<seq<Byte>> {
    var symbols :=
      if e.padded then
        if |s| == 4 && s[3] == '=' then (if s[2] == '=' then s[..2] else s[..3]) else ""
      else if |s| == 2 || |s| == 3 then s else "";
    if |symbols| == 0 || !Symbols(e.urlSafe, symbols) then None
    else if |symbols| == 2 then
      Some(Pack(At(e.urlSafe, symbols, 0), At(e.urlSafe, symbols, 1), 0, 0)[..1])
    else
      Some(Pack(At(e.urlSafe, symbols, 0), At(e.urlSafe, symbols, 1), At(e.urlSafe, symbols, 2), 0)[..2])
  }

  predicate FullQuantum(e: Encoding, s: string) {
    |s| >= 4 && Symbols(e.urlSafe, s[..4])
  }

  function DecodeQuanta(e: Encoding, s: string): Option<seq<Byte>> {
    if s == "" then Some([])
    else if FullQuantum(e, s) then
      var q := s[..4];
      match DecodeQuanta(e, s[4..])
      case None => None
      case Some(rest) =>
        Some(Pack(At(e.urlSafe, q, 0), At(e.urlSafe, q, 1), At(e.urlSafe, q, 2), At(e.urlSafe, q, 3)) + rest)
    else DecodeTail(e, s)
  }

  /** Go's decoders skip carriage returns and line feeds wherever they stand. */
  function SkipNewlines(s: string): string {
    if s == "" then ""
    else if s[0] == '\r' || s[0] == '\n' then SkipNewlines(s[1..])
    else [s[0]] + SkipNewlines(s[1..])
  }

  function DecodeString(e: Encoding, s: string): Option<seq<Byte>> {
    DecodeQuanta(e, SkipNewlines(s))
  }

  function FirstDecoded(order: seq<Encoding>, s: string): Option<seq<Byte>> {
    if order == [] then None
    else if DecodeString(order[0], s).Some? then DecodeString(order[0], s)
    else FirstDecoded(order[1..], s)
  }

  /** The UTF-8 bytes of a text. */
  function Utf8(s: string): seq<Byte> {
    if s == "" then []
    else
      var n := s[0] as int;
      (if n < 0x80 then [n]
       else if n < 0x800 then [0xC0 + n / 64, 0x80 + n % 64]
       else if n < 0x1_0000 then [0xE0 + n / 4096, 0x80 + n / 64 % 64, 0x80 + n % 64]
       else [0xF0 + n / 262144, 0x80 + n / 4096 % 64, 0x80 + n / 64 % 64, 0x80 + n % 64])
      + Utf8(s[1..])
  }

  predicate IsRawJson(value: string) {
    HasPrefix(TrimSpace(value), "{")
  }

  /** The source's order: standard, unpadded standard, URL-safe, unpadded URL-safe. */
  function DecodePaymentHeader(value: string): Option<seq<Byte>> {
    if IsRawJson(value) then Some(Utf8(value))
    else FirstDecoded([STD, RAW_STD, URL, RAW_URL], value)
  }

  // ----------------------------------------------------- the order is irrelevant

  /** Whatever two decoders both accept they decode alike. */
  lemma {:induction false} DecodersAgree(e: Encoding, f: Encoding, s: string)
    requires DecodeQuanta(e, s).Some? && DecodeQuanta(f, s).Some?
    ensures DecodeQuanta(e, s) == DecodeQuanta(f, s)
  {
    if s == "" {
    } else {
      if FullQuantum(e, s) && FullQuantum(f, s) {
        DecodersAgree(e, f, s[4..]);
        forall i | 0 <= i < 4 ensures At(e.urlSafe, s[..4], i) == At(f.urlSafe, s[..4], i) {
          ValuesAgree(e.urlSafe, f.urlSafe, s[..4][i]);
        }
      } else if FullQuantum(e, s) {
        NotATail(e, f, s);
      } else if FullQuantum(f, s) {
        NotATail(f, e, s);
      } else {
        TailsAgree(e, f, s);
      }
    }
  }

  lemma NotATail(e: Encoding, f: Encoding, s: string)
    requires FullQuantum(e, s)
    ensures DecodeTail(f, s).None?
  {
    ValueNotPad(e.urlSafe, s[..4][3]);
  }

  lemma ValueNotPad(urlSafe: bool, c: char)
    ensures Value(urlSafe, c).Some? ==> c != '='
  {
  }

  lemma TailsAgree(e: Encoding, f: Encoding, s: string)
    requires DecodeTail(e, s).Some? && DecodeTail(f, s).Some?
    ensures DecodeTail(e, s) == DecodeTail(f, s)
  {
    assert e.padded == f.padded;
    var n := if e.padded then (if s[2] == '=' then 2 else 3) else |s|;
    assert e.padded || s[..n] == s;
    forall i | 0 <= i < n ensures Value(e.urlSafe, s[i]) == Value(f.urlSafe, s[i]) {
      assert s[..n][i] == s[i];
      ValuesAgree(e.urlSafe, f.urlSafe, s[i]);
    }
  }

  lemma {:induction false} FirstDecodedIsAny(order: seq<Encoding>, s: string, e: Encoding)
    requires e in order && DecodeString(e, s).Some?
    ensures FirstDecoded(order, s) == DecodeString(e, s)
  {
    if DecodeString(order[0], s).Some? {
      DecodersAgree(e, order[0], SkipNewlines(s));
    } else {
      FirstDecodedIsAny(order[1..], s, e);
    }
  }

  lemma {:induction false} NoneDecoded(order: seq<Encoding>, s: string)
    requires forall e :: e in order ==> DecodeString(e, s).None?
    ensures FirstDecoded(order, s) == None
  {
    if order == [] {
    } else {
      assert order[0] in order;
      NoneDecoded(order[1..], s);
    }
  }

  /** Trying the same decoders in any other order gives the same answer. */
  lemma TrialOrderIsIrrelevant(order: seq<Encoding>, value: string)
    requires forall e :: e in order
    ensures !IsRawJson(value) ==> FirstDecoded(order, value) == DecodePaymentHeader(value)
  {
    var source := [STD, RAW_STD, URL, RAW_URL];
    forall e: Encoding ensures e in source { SourceOrder(e); }
    if e :| DecodeString(e, value).Some? {
      FirstDecodedIsAny(order, value, e);
      FirstDecodedIsAny(source, value, e);
    } else {
      NoneDecoded(order, value);
      NoneDecoded(source, value);
    }
  }

  // ------------------------------------------------------------------- encoding

  function Encode(e: Encoding, bytes: seq<Byte>): string {
    var u := e.urlSafe;
    if bytes == [] then ""
    else if |bytes| == 1 then
      [Symbol(u, First(bytes[0])), Symbol(u, Second(bytes[0], 0))] + (if e.padded then "==" else "")
    else if |bytes| == 2 then
      [Symbol(u, First(bytes[0])), Symbol(u, Second(bytes[0], bytes[1])), Symbol(u, Third(bytes[1], 0))]
      + (if e.padded then "=" else "")
    else
      Quantum(u, bytes[0], bytes[1], bytes[2]) + Encode(e, bytes[3..])
  }

  function Quantum(u: bool, x: Byte, y: Byte, z: Byte): string {
    [Symbol(u, First(x)), Symbol(u, Second(x, y)), Symbol(u, Third(y, z)), Symbol(u, Fourth(z))]
  }

  lemma QuantumSymbols(u: bool, x: Byte, y: Byte, z: Byte)
    ensures var q := Quantum(u, x, y, z);
            && Symbols(u, q) && At(u, q, 0) == First(x) && At(u, q, 1) == Second(x, y)
            && At(u, q, 2) == Third(y, z) && At(u, q, 3) == Fourth(z)
  {
    SymbolValue(u, First(x));
    SymbolValue(u, Second(x, y));
    SymbolValue(u, Third(y, z));
    SymbolValue(u, Fourth(z));
  }

  function Padding(e: Encoding, symbols: nat): string {
    if !e.padded then "" else if symbols == 2 then "==" else "="
  }

  /** An incomplete quantum is read as such, padded or not. */
  lemma TailDecodes(e: Encoding, symbols: string)
    requires (|symbols| == 2 || |symbols| == 3) && Symbols(e.urlSafe, symbols)
    ensures DecodeQuanta(e, symbols + Padding(e, |symbols|)) ==
            Some(Pack(At(e.urlSafe, symbols, 0), At(e.urlSafe, symbols, 1),
                      if |symbols| == 3 then At(e.urlSafe, symbols, 2) else 0, 0)[..|symbols| - 1])
  {
    hide Value, Pack, FullQuantum;
    var s := symbols + Padding(e, |symbols|);
    assert s[..|symbols|] == symbols;
    if |symbols| == 3 { ValueNotPad(e.urlSafe, symbols[2]); }
    PaddedIsNotFull(e, symbols);
  }

  lemma PaddedIsNotFull(e: Encoding, symbols: string)
    requires |symbols| == 2 || |symbols| == 3
    ensures !FullQuantum(e, symbols + Padding(e, |symbols|))
  {
    hide Value;
    var s := symbols + Padding(e, |symbols|);
    ValueNotPad(e.urlSafe, '=');
    assert |s| == 4 ==> s[..4][3] == '=';
  }

  lemma FullDecodes(e: Encoding, q: string, rest: string)
    requires |q| == 4 && Symbols(e.urlSafe, q) && DecodeQuanta(e, rest).Some?
    ensures DecodeQuanta(e, q + rest) ==
            Some(Pack(At(e.urlSafe, q, 0), At(e.urlSafe, q, 1), At(e.urlSafe, q, 2), At(e.urlSafe, q, 3))
                 + DecodeQuanta(e, rest).value)
  {
    hide Value, Pack;
    assert (q + rest)[..4] == q && (q + rest)[4..] == rest;
  }

  lemma SymbolsPrefix(u: bool, q: string, n: nat)
    requires n <= |q| && Symbols(u, q)
    ensures Symbols(u, q[..n]) && forall i :: 0 <= i < n ==> At(u, q[..n], i) == At(u, q, i)
  {
  }

  lemma {:induction false} QuantaRoundTrip(e: Encoding, bytes: seq<Byte>)
    ensures DecodeQuanta(e, Encode(e, bytes)) == Some(bytes)
    decreases |bytes|
  {
    hide Value, Symbol, Pack, DecodeQuanta, Symbols, At, First, Second, Third, Fourth;
    if |bytes| >= 3 {
      QuantumSymbols(e.urlSafe, bytes[0], bytes[1], bytes[2]);
      PackUnpacks(bytes[0], bytes[1], bytes[2]);
      QuantaRoundTrip(e, bytes[3..]);
      FullDecodes(e, Quantum(e.urlSafe, bytes[0], bytes[1], bytes[2]), Encode(e, bytes[3..]));
      assert bytes == [bytes[0], bytes[1], bytes[2]] + bytes[3..];
    } else if bytes != [] {
      ShortRoundTrip(e, bytes);
    } else {
      NothingDecodes(e);
    }
  }

  lemma NothingDecodes(e: Encoding)
    ensures DecodeQuanta(e, "") == Some([])
  {
  }

  lemma ZeroSextets()
    ensures Third(0, 0) == 0 && Fourth(0) == 0
  {
  }

  lemma ShortRoundTrip(e: Encoding, bytes: seq<Byte>)
    requires |bytes| == 1 || |bytes| == 2
    ensures DecodeQuanta(e, Encode(e, bytes)) == Some(bytes)
  {
    hide Value, Symbol, Pack, DecodeQuanta, Symbols, At, First, Second, Third, Fourth;
    var n := |bytes| + 1;
    var x, y := bytes[0], if n == 3 then bytes[1] else 0;
    var q := Quantum(e.urlSafe, x, y, 0);
    QuantumSymbols(e.urlSafe, x, y, 0);
    SymbolsPrefix(e.urlSafe, q, n);
    PackUnpacks(x, y, 0);
    ZeroSextets();
    assert Encode(e, bytes) == q[..n] + Padding(e, n);
    TailDecodes(e, q[..n]);
    assert bytes == [x, y, 0][..n - 1];
  }

  /** No encoder writes a line break or an opening brace. */
  lemma {:induction false} EncodedCharacters(e: Encoding, bytes: seq<Byte>, c: char)
    requires c == '\r' || c == '\n' || c == '{'
    ensures c !in Encode(e, bytes)
    decreases |bytes|
  {
    forall n: Sextet ensures Symbol(e.urlSafe, n) != c { SymbolValue(e.urlSafe, n); }
    if |bytes| >= 3 { EncodedCharacters(e, bytes[3..], c); }
  }

  lemma {:induction false} NothingSkipped(s: string)
    requires '\r' !in s && '\n' !in s
    ensures SkipNewlines(s) == s
  {
    if s == "" {
    } else {
      assert s[0] in s;
      NothingSkipped(s[1..]);
    }
  }

  lemma {:induction false} TrimmedCharacters(s: string, drop: char -> bool)
    ensures forall c :: c in TrimLeft(s, drop) ==> c in s
    ensures forall c :: c in TrimRight(s, drop) ==> c in s
    decreases |s|
  {
    if s == "" {
    } else {
      TrimmedCharacters(s[1..], drop);
      TrimmedCharacters(s[..|s| - 1], drop);
    }
  }

  /** Every encoder is undone, for every byte string, although three other decoders
      may be tried first. */
  lemma HeaderRoundTrip(e: Encoding, bytes: seq<Byte>)
    ensures DecodePaymentHeader(Encode(e, bytes)) == Some(bytes)
  {
    hide DecodeQuanta, Encode;
    var s := Encode(e, bytes);
    EncodedCharacters(e, bytes, '\r');
    EncodedCharacters(e, bytes, '\n');
    EncodedCharacters(e, bytes, '{');
    NothingSkipped(s);
    QuantaRoundTrip(e, bytes);
    NotRawJson(s);
    SourceOrder(e);
    FirstDecodedIsAny([STD, RAW_STD, URL, RAW_URL], s, e);
  }

  lemma SourceOrder(e: Encoding)
    ensures e in [STD, RAW_STD, URL, RAW_URL]
  {
    var source := [STD, RAW_STD, URL, RAW_URL];
    assert source[0] == STD && source[1] == RAW_STD && source[2] == URL && source[3] == RAW_URL;
    assert e == STD || e == RAW_STD || e == URL || e == RAW_URL;
  }

  lemma NotRawJson(s: string)
    requires '{' !in s
    ensures !IsRawJson(s)
  {
    var t := TrimSpace(s);
    TrimmedCharacters(s, IsSpace);
    TrimmedCharacters(TrimLeft(s, IsSpace), IsSpace);
    assert '{' !in t;
    if t != "" {
      assert t[0] in t && t[..1][0] == t[0];
    }
  }

  // ------------------------------------------------- the alphabets, and raw JSON

  const STANDARD_ALPHABET := CAPITALS + SMALL + "0123456789" + "+/"

  /** Tables 1 and 2 of RFC 4648: the URL-safe alphabet has "-" and "_" for "+" and "/". */
  lemma AlphabetsAre(n: Sextet)
    ensures |STANDARD_ALPHABET| == 64 && Symbol(false, n) == STANDARD_ALPHABET[n]
    ensures Symbol(true, n) == if n == 62 then '-' else if n == 63 then '_' else STANDARD_ALPHABET[n]
  {
    AlphabetAt();
    FiguresAt();
  }

  lemma FiguresAt()
    ensures |"0123456789"| == 10 && forall i :: 0 <= i < 10 ==> "0123456789"[i] == (48 + i) as char
  {
  }

  /** Some of the vectors of section 10 of RFC 4648, padded and not. */
  lemma KnownVectors()
    ensures Encode(STD, [102]) == "Zg==" && Encode(STD, [102, 111]) == "Zm8=" && Encode(STD, [102, 111, 111]) == "Zm9v"
    ensures Encode(RAW_URL, [102]) == "Zg" && Encode(RAW_URL, [102, 111]) == "Zm8"
    ensures Encode(URL, [251, 239, 255]) == "--__" && Encode(STD, [251, 239, 255]) == "++//"
  {
    assert [102, 111, 111][3..] == [] && [251, 239, 255][3..] == [];
  }

  /** Line ends anywhere in a header value change nothing. */
  lemma {:induction false} LineEndsAreSkipped(e: Encoding, s: string, t: string, c: char)
    requires c == '\r' || c == '\n'
    ensures SkipNewlines(s + [c] + t) == SkipNewlines(s + t)
    ensures DecodeString(e, s + [c] + t) == DecodeString(e, s + t)
  {
    if s == "" {
      assert s + [c] + t == [c] + t && ([c] + t)[1..] == t && s + t == t;
    } else {
      LineEndsAreSkipped(e, s[1..], t, c);
      assert (s + [c] + t)[1..] == s[1..] + [c] + t && (s + t)[1..] == s[1..] + t;
    }
  }

  /** A value whose first character after white space is a brace is taken as it stands. */
  lemma BracesAreTakenRaw(value: string, n: nat)
    requires n < |value| && value[n] == '{' && forall i :: 0 <= i < n ==> IsSpace(value[i])
    ensures DecodePaymentHeader(value) == Some(Utf8(value))
  {
    hide TrimLeft, TrimRight, FirstDecoded, Utf8, IsSpace;
    BraceIsNoSpace();
    var before, after := TrimSpaceMeans(value);
    assert n == before;
    assert TrimSpace(value)[..1] == "{";
  }

  lemma BraceIsNoSpace()
    ensures !IsSpace('{')
  {
  }

  /** Any other value is base64 or nothing. */
  lemma OthersAreBase64(value: string, n: nat)
    requires n <= |value| && (forall i :: 0 <= i < n ==> IsSpace(value[i]))
    requires n < |value| ==> !IsSpace(value[n]) && value[n] != '{'
    ensures DecodePaymentHeader(value) == FirstDecoded([STD, RAW_STD, URL, RAW_URL], value)
  {
    hide TrimLeft, TrimRight, FirstDecoded, Utf8, IsSpace;
    var before, after := TrimSpaceMeans(value);
    if before < after {
      assert n == before;
      assert TrimSpace(value)[..1][0] == value[n];
    }
  }

  // ----------------------------------------------------------------------- UTF-8

  predicate Continuation(b: Byte) { 0x80 <= b < 0xC0 }

  /** Read one character off the front, as table 3-6 of the Unicode Standard lays it out,
      and how many bytes it took. */
  function FrontCode(bytes: seq<Byte>): (int, nat)
    requires bytes != []
  {
    var a: int := bytes[0];
    if a < 0x80 then (a, 1)
    else if 0xC0 <= a < 0xE0 && |bytes| >= 2 && Continuation(bytes[1]) then ((a - 0xC0) * 64 + Low(bytes[1]), 2)
    else if 0xE0 <= a < 0xF0 && |bytes| >= 3 && Continuation(bytes[1]) && Continuation(bytes[2]) then
      ((a - 0xE0) * 4096 + Low(bytes[1]) * 64 + Low(bytes[2]), 3)
    else if 0xF0 <= a && |bytes| >= 4 && Continuation(bytes[1]) && Continuation(bytes[2]) && Continuation(bytes[3]) then
      ((a - 0xF0) * 262144 + Low(bytes[1]) * 4096 + Low(bytes[2]) * 64 + Low(bytes[3]), 4)
    else (-1, 1)
  }

  function Low(b: Byte): int
    requires Continuation(b)
  {
    b as int - 0x80
  }

  lemma DigitsOf64(n: nat)
    ensures n == n / 64 * 64 + n % 64
    ensures n == n / 4096 * 4096 + n / 64 % 64 * 64 + n % 64
    ensures n == n / 262144 * 262144 + n / 4096 % 64 * 4096 + n / 64 % 64 * 64 + n % 64
  {
    var a := n / 64;
    var b := a / 64;
    assert n == a * 64 + n % 64 && a == b * 64 + a % 64 && b == b / 64 * 64 + b % 64;
    Nested(n, a, 64);
    Nested(n, b, 4096);
  }

  lemma Nested(n: nat, a: nat, w: nat)
    requires w == 64 || w == 4096
    requires a == n / w
    ensures n / (w * 64) == a / 64
  {
  }

  /** The first character of a text is read back off its bytes. */
  lemma FrontIsRead(c: char, rest: seq<Byte>)
    ensures FrontCode(Utf8([c]) + rest) == (c as int, |Utf8([c])|)
    ensures |Utf8([c])| == Utf8Length([c])
  {
    var n := c as int;
    assert [c][1..] == "";
    DigitsOf64(n);
    var bytes := Utf8([c]);
    assert forall i :: 0 <= i < |bytes| ==> (bytes + rest)[i] == bytes[i];
  }

  lemma Utf8Cons(s: string)
    requires s != ""
    ensures Utf8(s) == Utf8([s[0]]) + Utf8(s[1..])
  {
    assert [s[0]][1..] == "";
  }

  /** No two texts have the same bytes. */
  lemma {:induction false} Utf8IsInjective(s: string, t: string)
    requires Utf8(s) == Utf8(t)
    ensures s == t
  {
    hide Utf8, FrontCode;
    if s == "" || t == "" {
      EmptyUtf8(s);
      EmptyUtf8(t);
    } else {
      Utf8Cons(s);
      Utf8Cons(t);
      FrontIsRead(s[0], Utf8(s[1..]));
      FrontIsRead(t[0], Utf8(t[1..]));
      assert Utf8(s[1..]) == Utf8(s)[|Utf8([s[0]])|..] == Utf8(t[1..]);
      Utf8IsInjective(s[1..], t[1..]);
      assert s == [s[0]] + s[1..] && t == [t[0]] + t[1..];
    }
  }

  lemma EmptyUtf8(s: string)
    ensures Utf8(s) == [] <==> s == ""
  {
  }

  // ------------------------------------------------------------ what base64 accepts

  predicate AllPads(s: string) {
    forall i :: 0 <= i < |s| ==> s[i] == '='
  }

  /** Symbols, and then what makes the last group of four complete: with padding, up to
      two equals signs to a multiple of four; without, nothing, and never one symbol over. */
  predicate WellPadded(e: Encoding, s: string, symbols: nat) {
    && symbols <= |s| && Symbols(e.urlSafe, s[..symbols])
    && if e.padded then |s| % 4 == 0 && |s| - symbols <= 2 && AllPads(s[symbols..])
       else symbols == |s| && |s| % 4 != 1
  }

  lemma TailExactly(e: Encoding, s: string)
    requires s != "" && !FullQuantum(e, s)
    ensures DecodeTail(e, s).Some? <==> exists symbols :: WellPadded(e, s, symbols)
  {
    hide Value;
    ValueNotPad(e.urlSafe, '=');
    if DecodeTail(e, s).Some? {
      var n := if !e.padded then |s| else if s[2] == '=' then 2 else 3;
      assert !e.padded ==> s[..n] == s;
      assert WellPadded(e, s, n);
    }
    if symbols: nat :| WellPadded(e, s, symbols) {
      if symbols >= 4 {
        forall i | 0 <= i < 4 ensures Value(e.urlSafe, s[..4][i]).Some? {
          assert s[..4][i] == s[..symbols][i];
        }
      }
      assert symbols < 4;
      if e.padded {
        assert |s| == 4;
        assert s[3] == s[symbols..][3 - symbols];
        if symbols == 2 { assert s[2] == s[symbols..][0]; } else { assert s[2] == s[..symbols][2]; }
      } else {
        assert s[..symbols] == s;
      }
    }
  }

  lemma WellPaddedStep(e: Encoding, s: string, symbols: nat)
    requires FullQuantum(e, s) && symbols >= 4
    ensures WellPadded(e, s, symbols) <==> WellPadded(e, s[4..], symbols - 4)
  {
    hide Value;
    if symbols <= |s| {
      var rest := s[4..];
      assert rest[symbols - 4..] == s[symbols..];
      assert s[..symbols] == s[..4] + rest[..symbols - 4];
      SymbolsOfBoth(e.urlSafe, s[..4], rest[..symbols - 4]);
    }
  }

  lemma SymbolsOfBoth(urlSafe: bool, a: string, b: string)
    ensures Symbols(urlSafe, a + b) <==> Symbols(urlSafe, a) && Symbols(urlSafe, b)
  {
    hide Value;
    if Symbols(urlSafe, a + b) {
      forall i | 0 <= i < |a| ensures Value(urlSafe, a[i]).Some? { assert a[i] == (a + b)[i]; }
      forall i | 0 <= i < |b| ensures Value(urlSafe, b[i]).Some? { assert b[i] == (a + b)[|a| + i]; }
    }
  }

  /** A decoder accepts exactly the well-padded texts over its alphabet. */
  lemma {:induction false} AcceptedExactly(e: Encoding, s: string)
    ensures DecodeQuanta(e, s).Some? <==> exists symbols :: WellPadded(e, s, symbols)
    decreases |s|
  {
    hide Value, Pack, DecodeTail, WellPadded, Symbols;
    if s == "" {
      NothingIsWellPadded(e);
    } else if FullQuantum(e, s) {
      AcceptedExactly(e, s[4..]);
      if n: nat :| WellPadded(e, s[4..], n) { WellPaddedStep(e, s, n + 4); }
      if n: nat :| WellPadded(e, s, n) {
        AtLeastFour(e, s, n);
        WellPaddedStep(e, s, n);
      }
    } else {
      TailExactly(e, s);
    }
  }

  lemma NothingIsWellPadded(e: Encoding)
    ensures WellPadded(e, "", 0)
  {
  }

  lemma AtLeastFour(e: Encoding, s: string, n: nat)
    requires FullQuantum(e, s) && WellPadded(e, s, n)
    ensures n >= 4
  {
    ValueNotPad(e.urlSafe, '=');
    forall i | 0 <= i < 4 ensures s[i] != '=' { assert s[i] == s[..4][i]; }
    if n < |s| { assert s[n] == s[n..][0] == '='; }
  }
}
