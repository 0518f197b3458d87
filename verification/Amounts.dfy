/** Atomic token amounts: decimal integers of any size. */
module Amounts {
  import opened Text
  import opened Json

  /** big.Int.SetString(s, 10): an optional sign, then at least one decimal digit. */
  function ParseInt(s: string): Option<int> {
    if s == "" then None
    else if s[0] == '-' then if IsDigits(s[1..]) then Some(-(DigitsValue(s[1..]) as int)) else None
    else if s[0] == '+' then if IsDigits(s[1..]) then Some(DigitsValue(s[1..])) else None
    else if IsDigits(s) then Some(DigitsValue(s))
    else None
  }

  /** big.Int.String for a non-negative value. */
  function NatString(n: nat): string {
    if n < 10 then [(48 + n) as char] else NatString(n / 10) + [(48 + n % 10) as char]
  }

  function Normalize(s: string): Option<string> {
    match ParseInt(s)
    case Some(z) => if z >= 0 then Some(NatString(z)) else None
    case None => None
  }

  /** Only strings and number literals can be amounts; an absent field cannot. */
  function AtomicString(v: Option<Json>): Option<string> {
    match v
    case Some(Str(s)) => Normalize(s)
    case Some(Num(n)) => Normalize(n)
    case _ => None
  }

  const MAX_INT64 := 0x7FFF_FFFF_FFFF_FFFF

  /** strconv.Atoi after atomicString: fails beyond 64 bits. */
  function IntegerValue(v: Option<Json>): Option<int> {
    match AtomicString(v)
    case Some(text) =>
      var parsed := ParseInt(text);
      if parsed.Some? && parsed.value <= MAX_INT64 then parsed else None
    case None => None
  }

  // ----------------------------------------------------------------- properties

  /** Digits without a leading zero, except "0" itself; no sign. */
  predicate Canonical(s: string) {
    IsDigits(s) && (s[0] == '0' ==> |s| == 1)
  }

  lemma {:induction false} NatStringIsCanonical(n: nat)
    ensures Canonical(NatString(n)) && DigitsValue(NatString(n)) == n
    ensures n > 0 ==> NatString(n)[0] != '0'
  {
    var s := NatString(n);
    if n < 10 {
      assert s[..|s| - 1] == "";
    } else {
      NatStringIsCanonical(n / 10);
      assert s[..|s| - 1] == NatString(n / 10);
      assert s[|s| - 1] as int - 48 == n % 10;
      assert s[0] == NatString(n / 10)[0];
    }
  }

  lemma {:induction false} LeadingDigit(s: string)
    requires IsDigits(s) && s[0] != '0'
    ensures DigitsValue(s) >= 1
  {
    if |s| > 1 {
      assert s[..|s| - 1][0] == s[0];
      LeadingDigit(s[..|s| - 1]);
    }
  }

  lemma QuotientAndRemainder(n: int, q: int, r: int)
    requires n == 10 * q + r && 0 <= r < 10
    ensures n / 10 == q && n % 10 == r
  {
  }

  lemma ValueOfLast(s: string)
    requires IsDigits(s)
    ensures DigitsValue(s) == 10 * DigitsValue(s[..|s| - 1]) + (s[|s| - 1] as int - 48)
  {
  }

  lemma SingleDigit(c: char)
    requires IsDigit(c)
    ensures DigitsValue([c]) == c as int - 48 && NatString(c as int - 48) == [c]
  {
    assert [c][..0] == "";
  }

  lemma CanonicalPrefix(s: string)
    requires Canonical(s) && |s| > 1
    ensures Canonical(s[..|s| - 1]) && s[..|s| - 1][0] == s[0] != '0' && IsDigit(s[|s| - 1])
    ensures s == s[..|s| - 1] + [s[|s| - 1]]
  {
  }

  /** A canonical string is the only canonical spelling of its value. */
  lemma {:induction false} CanonicalIsNatString(s: string)
    requires Canonical(s)
    ensures NatString(DigitsValue(s)) == s
  {
    hide NatString, DigitsValue;
    if |s| == 1 {
      SingleDigit(s[0]);
      assert s == [s[0]];
    } else {
      var prefix, last := s[..|s| - 1], s[|s| - 1];
      CanonicalPrefix(s);
      CanonicalIsNatString(prefix);
      LeadingDigit(prefix);
      ValueOfLast(s);
      LastDigit(DigitsValue(prefix), last);
    }
  }

  /** Appending a digit to a positive numeral multiplies by ten and adds. */
  lemma LastDigit(q: nat, c: char)
    requires q >= 1 && IsDigit(c)
    ensures NatString(10 * q + (c as int - 48)) == NatString(q) + [c]
  {
    var r := c as int - 48;
    QuotientAndRemainder(10 * q + r, q, r);
  }

  lemma ParseCanonical(s: string)
    requires Canonical(s)
    ensures ParseInt(s) == Some(DigitsValue(s))
  {
    assert IsDigit(s[0]);
  }

  /** The text an amount field carries. */
  function AmountText(v: Option<Json>): Option<string> {
    match v
    case Some(Str(s)) => Some(s)
    case Some(Num(n)) => Some(n)
    case _ => None
  }

  /** Exactly the optionally signed decimal spellings of non-negative integers are
      amounts; the result is the canonical spelling of the same integer. */
  lemma AmountsAreExact(v: Option<Json>)
    ensures var text := AmountText(v);
            AtomicString(v).Some? <==> text.Some? && ParseInt(text.value).Some? && ParseInt(text.value).value >= 0
    ensures AtomicString(v).Some? ==>
              var amount := AtomicString(v).value;
              && Canonical(amount)
              && ParseInt(amount) == ParseInt(AmountText(v).value)
              && AtomicString(Some(Str(amount))) == Some(amount)
  {
    if AtomicString(v).Some? {
      var z := ParseInt(AmountText(v).value).value;
      NatStringIsCanonical(z);
      ParseCanonical(NatString(z));
    }
  }

  /** Two fields give the same amount iff they denote the same integer. */
  lemma SameAmountIffSameInteger(v: Option<Json>, w: Option<Json>)
    requires AtomicString(v).Some? && AtomicString(w).Some?
    ensures AtomicString(v) == AtomicString(w) <==> ParseInt(AmountText(v).value) == ParseInt(AmountText(w).value)
  {
    AmountsAreExact(v);
    AmountsAreExact(w);
  }

  /** A signed digit string contains no white space, so trimming does not touch it. */
  lemma ParsedIsTrimmed(s: string)
    requires ParseInt(s).Some?
    ensures TrimSpace(s) == s
  {
    var last := s[|s| - 1];
    assert IsDigit(last) by {
      assert |s| > 1 ==> s[1..][|s| - 2] == last;
    }
    assert !IsSpace(s[0]) && !IsSpace(last);
  }

  // ------------------------------------------------------- what is read and refused

  /** Digits, with or without a plus sign, denote their value, and with a minus sign its
      negative; nothing else is a number. */
  lemma SignsAre(s: string)
    ensures IsDigits(s) ==> ParseInt(s) == ParseInt("+" + s) == Some(DigitsValue(s))
    ensures IsDigits(s) ==> ParseInt("-" + s) == Some(-(DigitsValue(s) as int))
    ensures ParseInt(s).Some? ==>
              IsDigits(s) || exists t :: IsDigits(t) && (s == "+" + t || s == "-" + t)
  {
    assert ("+" + s)[1..] == s && ("-" + s)[1..] == s;
    if IsDigits(s) {
      assert IsDigit(s[0]);
    } else if ParseInt(s).Some? {
      assert IsDigits(s[1..]) && (s == "+" + s[1..] || s == "-" + s[1..]);
    }
  }

  /** Decimal positions: appending a digit multiplies by ten and adds. */
  lemma DigitsAreDecimal(s: string, c: char)
    requires AllDigits(s) && IsDigit(c)
    ensures AllDigits(s + [c]) && DigitsValue(s + [c]) == 10 * DigitsValue(s) + (c as int - '0' as int)
    ensures DigitsValue("") == 0
  {
    assert (s + [c])[..|s|] == s;
  }

  /** A timeout is the value of such a number up to 64 bits. */
  lemma IntegersAre(v: Option<Json>)
    ensures IntegerValue(v).Some? <==>
            var text := AmountText(v);
            text.Some? && ParseInt(text.value).Some? && 0 <= ParseInt(text.value).value <= 0x7FFF_FFFF_FFFF_FFFF
    ensures IntegerValue(v).Some? ==> IntegerValue(v) == ParseInt(AmountText(v).value)
  {
    AmountsAreExact(v);
  }
}
