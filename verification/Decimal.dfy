/** strconv.Itoa and strconv.Atoi on 64-bit integers. */
module Decimal {

  const MAX_INT: int := 0x7fff_ffff_ffff_ffff
  const MIN_INT: int := -0x8000_0000_0000_0000
  const MAX_UINT: int := 0xffff_ffff_ffff_ffff

  predicate IsInt64(n: int) { MIN_INT <= n <= MAX_INT }

  /** Two's-complement addition of a 64-bit integer and a small non-negative one. */
  function WrapAdd(n: int, i: nat): (r: int)
    requires IsInt64(n) && i <= 1000
    ensures IsInt64(r)
  {
    if n + i > MAX_INT then n + i - MAX_UINT - 1 else n + i
  }

  predicate IsDigit(c: char) { '0' <= c <= '9' }

  predicate AllDigits(s: string) { forall i :: 0 <= i < |s| ==> IsDigit(s[i]) }

  function DigitOf(d: nat): (c: char)
    requires d < 10
    ensures IsDigit(c) && c as int - '0' as int == d
  {
    '0' + d as char
  }

  function Digits(n: nat): (s: string)
    ensures s != "" && AllDigits(s)
  {
    if n < 10 then [DigitOf(n)] else Digits(n / 10) + [DigitOf(n % 10)]
  }

  function Value(s: string): (n: nat)
    requires AllDigits(s)
  {
    if s == "" then 0 else 10 * Value(s[..|s| - 1]) + (s[|s| - 1] as int - '0' as int)
  }

  lemma {:induction false} ValueOfDigits(n: nat)
    ensures Value(Digits(n)) == n
  {
    if n >= 10 {
      ValueOfDigits(n / 10);
      var s := Digits(n);
      assert s[..|s| - 1] == Digits(n / 10);
    } else {
      assert Digits(n)[..0] == "";
    }
  }

  function Power10(k: nat): nat {
    if k == 0 then 1 else 10 * Power10(k - 1)
  }

  /** Digits in front count by their place; leading zeros count nothing. */
  lemma {:induction false} ValueOfAppend(a: string, b: string)
    requires AllDigits(a) && AllDigits(b)
    ensures Value(a + b) == Value(a) * Power10(|b|) + Value(b)
  {
    if b == "" {
      assert a + b == a;
    } else {
      var init := b[..|b| - 1];
      assert (a + b)[..|a + b| - 1] == a + init;
      ValueOfAppend(a, init);
      assert Value(a) * Power10(|b|) == 10 * (Value(a) * Power10(|init|));
    }
  }

  lemma ValueOfOne(d: nat)
    requires d < 10
    ensures Value(["0123456789"[d]]) == d
  {
    var s := ["0123456789"[d]];
    assert s[..0] == "";
  }

  function Itoa(n: int): (s: string)
    ensures s != ""
  {
    if n < 0 then "-" + Digits(-n) else Digits(n)
  }

  /** A syntax error carries no number; a range error carries the clamped one. */
  datatype Number = Parsed(value: int) | SyntaxError | RangeError(clamped: int)

  function DigitPrefix(s: string): (p: string)
    ensures |p| <= |s| && p == s[..|p|] && AllDigits(p)
    ensures p == s <==> AllDigits(s)
  {
    if s == "" || !IsDigit(s[0]) then ""
    else
      var rest := DigitPrefix(s[1..]);
      assert [s[0]] + rest == s[..1 + |rest|];
      [s[0]] + rest
  }

  /**
   * An optional sign, then digits. Overflow of the leading digits is reported
   * before a bad character further on is.
   */
  function Atoi(s: string): (r: Number)
    ensures r.Parsed? ==> IsInt64(r.value)
  {
    var signed := s != "" && (s[0] == '-' || s[0] == '+');
    var negative := signed && s[0] == '-';
    var body := if signed then s[1..] else s;
    var digits := DigitPrefix(body);
    var n := Value(digits);
    var limit := if negative then MIN_INT else MAX_INT;
    if body == "" then SyntaxError
    else if n > MAX_UINT then RangeError(limit)
    else if digits != body then SyntaxError
    else if negative then (if n > MAX_INT + 1 then RangeError(limit) else Parsed(0 - n))
    else if n > MAX_INT then RangeError(limit)
    else Parsed(n)
  }

  /** A text of digits, with or without a sign. */
  ghost predicate Numeral(s: string, negative: bool, digits: string) {
    && digits != "" && AllDigits(digits)
    && if negative then s == "-" + digits else s == digits || s == "+" + digits
  }

  lemma NumeralOf(s: string) returns (negative: bool, digits: string)
    requires Atoi(s).Parsed?
    ensures Numeral(s, negative, digits) && Atoi(s).value == if negative then 0 - Value(digits) else Value(digits)
  {
    var signed := s[0] == '-' || s[0] == '+';
    negative, digits := s[0] == '-', if signed then s[1..] else s;
    assert signed ==> s == [s[0]] + digits;
  }

  /** What parses is a numeral of a 64-bit number. */
  lemma AtoiIff(s: string, n: int)
    ensures Atoi(s) == Parsed(n) <==>
              IsInt64(n) && exists negative, digits ::
                Numeral(s, negative, digits) && n == if negative then 0 - Value(digits) else Value(digits)
  {
    if Atoi(s) == Parsed(n) {
      var negative, digits := NumeralOf(s);
    }
    hide Atoi, Value, AllDigits;
    if negative, digits :| IsInt64(n) && Numeral(s, negative, digits)
                           && n == if negative then 0 - Value(digits) else Value(digits) {
      NumeralIs(s, negative, digits);
    }
  }

  lemma NumeralIs(s: string, negative: bool, digits: string)
    requires Numeral(s, negative, digits)
    requires if negative then Value(digits) <= MAX_INT + 1 else Value(digits) <= MAX_INT
    ensures Atoi(s) == Parsed(if negative then 0 - Value(digits) else Value(digits))
  {
    AtoiOfDigits(digits, negative);
    AtoiWithPlus(digits);
  }

  lemma AtoiWithPlus(s: string)
    requires s != "" && AllDigits(s)
    ensures Atoi("+" + s) == Atoi(s)
  {
    assert ("+" + s)[1..] == s;
  }

  lemma AtoiOfDigits(s: string, negative: bool)
    requires s != "" && AllDigits(s)
    requires if negative then Value(s) <= MAX_INT + 1 else Value(s) <= MAX_INT
    ensures Atoi(if negative then "-" + s else s) == Parsed(if negative then 0 - Value(s) else Value(s))
  {
    var t := if negative then "-" + s else s;
    assert negative ==> t[1..] == s;
    assert DigitPrefix(s) == s;
  }

  /** Printing then parsing gives the number back. */
  lemma AtoiItoa(n: int)
    requires IsInt64(n)
    ensures Atoi(Itoa(n)) == Parsed(n)
  {
    var m: nat := if n < 0 then -n else n;
    ValueOfDigits(m);
    AtoiOfDigits(Digits(m), n < 0);
  }

  /** Printed numbers are made of digits, with at most a leading minus sign. */
  lemma ItoaAlphabet(n: int)
    ensures forall i :: 0 <= i < |Itoa(n)| ==> IsDigit(Itoa(n)[i]) || Itoa(n)[i] == '-'
  {
  }
}
