/** Decimal printing and parsing of machine integers, as strconv does them in base 10. */
module Decimal {
  import opened Wrappers

  const INT64_MIN: int := -0x8000_0000_0000_0000
  const INT64_MAX: int := 0x7fff_ffff_ffff_ffff

  predicate IsInt64(n: int) {
    INT64_MIN <= n <= INT64_MAX
  }

  predicate IsDigit(c: char) {
    '0' <= c <= '9'
  }

  predicate AllDigits(s: string) {
    forall i :: 0 <= i < |s| ==> IsDigit(s[i])
  }

  function DigitValue(c: char): nat
    requires IsDigit(c)
  {
    c as int - '0' as int
  }

  function Digits(n: nat): (s: string)
    ensures s != [] && AllDigits(s)
  {
    var last := [(n % 10 + '0' as int) as char];
    if n < 10 then last else Digits(n / 10) + last
  }

  function Itoa(n: int): string {
    if n < 0 then "-" + Digits(-n) else Digits(n)
  }

  function Value(s: string): nat
    requires AllDigits(s)
  {
    if s == [] then 0 else Value(s[..|s| - 1]) * 10 + DigitValue(s[|s| - 1])
  }

  function Unsigned(s: string): Option<nat> {
    if s != [] && AllDigits(s) then Some(Value(s)) else None
  }

  /** Optional sign, at least one digit, and a value in the 64-bit signed range. */
  function ParseInt(s: string): Option<int> {
    if s == [] then None
    else
      var negative := s[0] == '-';
      match Unsigned(if s[0] in "+-" then s[1..] else s)
      case None => None
      case Some(u) =>
        var n := if negative then 0 - u as int else u;
        if IsInt64(n) then Some(n) else None
  }

  lemma {:induction false} DigitsValue(n: nat)
    ensures Value(Digits(n)) == n
  {
    if n >= 10 {
      DigitsValue(n / 10);
      var s := Digits(n);
      assert s[..|s| - 1] == Digits(n / 10);
    }
  }

  /** Parsing undoes printing on the 64-bit range and rejects what lies outside it. */
  lemma ParsePrinted(n: int)
    ensures ParseInt(Itoa(n)) == if IsInt64(n) then Some(n) else None
  {
    DigitsValue(if n < 0 then -n else n);
    if n < 0 {
      assert Itoa(n)[1..] == Digits(-n);
    }
  }

  lemma PrintedChars(n: int)
    ensures Itoa(n) != [] && forall c :: c in Itoa(n) ==> IsDigit(c) || c == '-'
  {
  }

  lemma PrintInjective(m: int, n: int)
    requires Itoa(m) == Itoa(n)
    ensures m == n
  {
    DigitsValue(if m < 0 then -m else m);
    DigitsValue(if n < 0 then -n else n);
    if m < 0 || n < 0 {
      assert m < 0 && n < 0 by { PrintedSign(m); PrintedSign(n); }
      assert Itoa(m)[1..] == Digits(-m) && Itoa(n)[1..] == Digits(-n);
    }
  }

  lemma PrintedSign(n: int)
    ensures Itoa(n)[0] == '-' <==> n < 0
  {
  }

  /** A text parses exactly when, after one optional sign, it is digits for a value in range. */
  lemma ParsesExactly(s: string)
    ensures ParseInt(s).Some? <==>
      var body := if s != "" && (s[0] == '+' || s[0] == '-') then s[1..] else s;
      body != "" && AllDigits(body) && IsInt64(if s[0] == '-' then 0 - Value(body) as int else Value(body))
  {
  }

  /** Leading zeros change nothing. */
  lemma {:induction false} LeadingZeros(zeros: nat, digits: string)
    requires AllDigits(digits)
    ensures Value(seq(zeros, _ => '0') + digits) == Value(digits)
    decreases |digits|, zeros
  {
    var s := seq(zeros, _ => '0') + digits;
    if digits != "" {
      assert s[..|s| - 1] == seq(zeros, _ => '0') + digits[..|digits| - 1];
      LeadingZeros(zeros, digits[..|digits| - 1]);
    } else if zeros > 0 {
      assert s[..|s| - 1] == seq(zeros - 1, _ => '0') + digits;
      LeadingZeros(zeros - 1, digits);
    }
  }
}
