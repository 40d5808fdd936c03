/** Java's decimal numbers: how an integer is printed, and what `parseInt` and `parseLong` accept. */
module Decimal {
  import opened Wrappers

  const INT_MIN := -0x8000_0000
  const INT_MAX := 0x7FFF_FFFF
  const LONG_MIN := -0x8000_0000_0000_0000
  const LONG_MAX := 0x7FFF_FFFF_FFFF_FFFF

  predicate IsInt(n: int)
  {
    INT_MIN <= n <= INT_MAX
  }

  predicate IsLong(n: int)
  {
    LONG_MIN <= n <= LONG_MAX
  }

  /** The cast `(int)` of a long. */
  function ToInt(n: int): int
  {
    (n - INT_MIN) % 0x1_0000_0000 + INT_MIN
  }

  predicate IsDigit(c: char)
  {
    '0' <= c <= '9'
  }

  predicate AllDigits(s: string)
  {
    forall i | 0 <= i < |s| :: IsDigit(s[i])
  }

  function Digits(n: nat): (s: string)
    ensures s != "" && AllDigits(s)
  {
    var last := [(n % 10) as char + '0'];
    if n < 10 then last else Digits(n / 10) + last
  }

  function Print(n: int): string
  {
    if n < 0 then "-" + Digits(-n) else Digits(n)
  }

  function Value(s: string): (v: int)
    requires AllDigits(s)
    ensures v >= 0
  {
    if s == "" then 0
    else
      var last := |s| - 1;
      assert IsDigit(s[last]);
      10 * Value(s[..last]) + (s[last] - '0') as int
  }

  /** An optional sign and at least one digit, the value within bounds; anything else is an error. */
  function Parse(s: string, lo: int, hi: int): Option<int>
  {
    var digits := if s != "" && (s[0] == '-' || s[0] == '+') then s[1..] else s;
    if digits == "" || !AllDigits(digits) then None
    else
      var n: int := if s[0] == '-' then -Value(digits) else Value(digits);
      if lo <= n <= hi then Some(n) else None
  }

  function ParseInt(s: string): Option<int>
  {
    Parse(s, INT_MIN, INT_MAX)
  }

  function ParseLong(s: string): Option<int>
  {
    Parse(s, LONG_MIN, LONG_MAX)
  }

  lemma {:induction false} ValueOfDigits(n: nat)
    ensures Value(Digits(n)) == n
  {
    var s := Digits(n);
    if n < 10 {
      assert s[..|s| - 1] == "";
    } else {
      ValueOfDigits(n / 10);
      assert s[..|s| - 1] == Digits(n / 10);
    }
  }

  lemma SignThenDigits(digits: string, lo: int, hi: int)
    requires digits != "" && AllDigits(digits)
    ensures Parse("-" + digits, lo, hi) == if lo <= -Value(digits) <= hi then Some(-Value(digits)) else None
  {
    assert ("-" + digits)[1..] == digits;
  }

  lemma DigitsAlone(digits: string, lo: int, hi: int)
    requires digits != "" && AllDigits(digits)
    ensures Parse(digits, lo, hi) == if lo <= Value(digits) <= hi then Some(Value(digits)) else None
  {
    assert IsDigit(digits[0]);
  }

  /** What was printed is read back, negative numbers included. */
  lemma ParsePrint(n: int, lo: int, hi: int)
    requires lo <= n <= hi
    ensures Parse(Print(n), lo, hi) == Some(n)
  {
    if n < 0 {
      ValueOfDigits(-n);
      SignThenDigits(Digits(-n), lo, hi);
    } else {
      ValueOfDigits(n);
      DigitsAlone(Digits(n), lo, hi);
    }
  }

  /** `n` is written as a sign or none, and digits. */
  predicate Writes(s: string, n: int)
  {
    (s != "" && AllDigits(s) && n == Value(s)) ||
    (|s| > 1 && s[0] == '+' && AllDigits(s[1..]) && n == Value(s[1..])) ||
    (|s| > 1 && s[0] == '-' && AllDigits(s[1..]) && n == -Value(s[1..]))
  }

  /** A text is read as a number exactly if it writes that number, and the number is within bounds. */
  lemma ParseIff(s: string, lo: int, hi: int, n: int)
    ensures Parse(s, lo, hi) == Some(n) <==> Writes(s, n) && lo <= n <= hi
  {
    if s != "" && AllDigits(s) {
      assert IsDigit(s[0]);
    }
  }

  /** Digits count by their places. */
  lemma ValueOfMore(s: string, c: char)
    requires AllDigits(s) && IsDigit(c)
    ensures AllDigits(s + [c]) && Value(s + [c]) == 10 * Value(s) + (c as int - '0' as int)
    ensures Value("") == 0
  {
    assert (s + [c])[..|s|] == s;
  }

  /** The cast keeps ints and takes everything else to the int that differs by a multiple of 2^32. */
  lemma CastWraps(n: int)
    ensures INT_MIN <= ToInt(n) <= INT_MAX && (ToInt(n) - n) % 0x1_0000_0000 == 0
    ensures INT_MIN <= n <= INT_MAX ==> ToInt(n) == n
  {
  }
}
