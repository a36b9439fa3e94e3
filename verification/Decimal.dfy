/** Decimal numbers as text: fmt's %d and strconv.Atoi. */
module Decimal {
  import opened Wrappers

  function Digit(d: nat): char
    requires d < 10
  {
    "0123456789"[d]
  }

  predicate IsDigit(c: char) {
    '0' <= c <= '9'
  }

  function DigitValue(c: char): (d: nat)
    requires IsDigit(c)
    ensures d < 10 && Digit(d) == c
  {
    var d := c as int - '0' as int;
    assert "0123456789"[d] == c;
    d
  }

  function Digits(n: nat): (s: string)
    ensures s != ""
  {
    if n < 10 then [Digit(n)] else Digits(n / 10) + [Digit(n % 10)]
  }

  function Itoa(n: int): string {
    if n < 0 then "-" + Digits(-n) else Digits(n)
  }

  predicate AllDigits(s: string) {
    forall k :: 0 <= k < |s| ==> IsDigit(s[k])
  }

  function Value(s: string): nat
    requires AllDigits(s)
  {
    if s == "" then 0 else 10 * Value(s[..|s| - 1]) + DigitValue(s[|s| - 1])
  }

  const MAX_INT := 0x7fff_ffff_ffff_ffff

  /** A sign, at least one digit, and a value that fits 64 bits. */
  function Atoi(s: string): Option<int> {
    var negative := s != "" && s[0] == '-';
    var digits := if s != "" && (s[0] == '-' || s[0] == '+') then s[1..] else s;
    if digits == "" || !AllDigits(digits) then None
    else
      var magnitude: int := Value(digits);
      var value := if negative then -magnitude else magnitude;
      if -MAX_INT - 1 <= value <= MAX_INT then Some(value) else None
  }

  lemma {:induction false} DigitsRoundTrip(n: nat)
    ensures AllDigits(Digits(n)) && Value(Digits(n)) == n
    ensures n > 0 ==> Digits(n)[0] != '0'
  {
    if n >= 10 {
      DigitsRoundTrip(n / 10);
      var s := Digits(n);
      assert s[..|s| - 1] == Digits(n / 10);
    } else {
      assert Digits(n)[..0] == "";
    }
  }

  lemma AtoiDigits(s: string, n: int)
    requires s != "" && AllDigits(s) && Value(s) == n
    ensures n <= MAX_INT ==> Atoi(s) == Some(n)
    ensures n <= MAX_INT ==> Atoi("+" + s) == Some(n)
    ensures n <= MAX_INT + 1 ==> Atoi("-" + s) == Some(-n)
    ensures n > MAX_INT ==> Atoi(s) == None && Atoi("+" + s) == None
  {
    assert ("-" + s)[1..] == s && ("+" + s)[1..] == s;
    assert IsDigit(s[0]);
  }

  /** Nothing else is a number: one sign at most, and digits. */
  lemma AtoiOnlyDigits(s: string) returns (digits: string)
    requires Atoi(s).Some?
    ensures digits != "" && AllDigits(digits) && (s == digits || s == "+" + digits || s == "-" + digits)
  {
    digits := if s[0] == '-' || s[0] == '+' then s[1..] else s;
    assert s == [s[0]] + s[1..];
  }

  /** Digits without a leading zero are the text of their value. */
  lemma {:induction false} DigitsOfValue(s: string)
    requires s != "" && AllDigits(s) && s[0] != '0'
    ensures Value(s) > 0 && Digits(Value(s)) == s
  {
    var last: nat := |s| - 1;
    if last > 0 {
      DigitsOfValue(s[..last]);
      DigitsMore(Value(s[..last]), DigitValue(s[last]));
      assert s == s[..last] + [s[last]];
    } else {
      assert s[..0] == "" && s == [s[0]];
    }
  }

  lemma DigitsMore(n: nat, d: nat)
    requires n > 0 && d < 10
    ensures Digits(10 * n + d) == Digits(n) + [Digit(d)]
  {
    assert (10 * n + d) / 10 == n && (10 * n + d) % 10 == d;
  }

  /** Printing and reading back, for every machine integer. */
  lemma AtoiItoa(n: int)
    requires -MAX_INT - 1 <= n <= MAX_INT
    ensures Atoi(Itoa(n)) == Some(n)
  {
    var magnitude := if n < 0 then -n else n;
    DigitsRoundTrip(magnitude);
    AtoiDigits(Digits(magnitude), magnitude);
  }

  /** Different numbers have different texts. */
  lemma ItoaInjective(m: nat, n: nat)
    requires Itoa(m) == Itoa(n)
    ensures m == n
  {
    DigitsRoundTrip(m);
    DigitsRoundTrip(n);
  }

  lemma {:induction false} DigitsLength(n: nat, k: nat)
    requires n < Power10(k) && k > 0
    ensures |Digits(n)| <= k
    decreases k
  {
    if n >= 10 { DigitsLength(n / 10, k - 1); }
  }

  function Power10(k: nat): nat {
    if k == 0 then 1 else 10 * Power10(k - 1)
  }
}
