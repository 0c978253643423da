/** Text the server prints and reads back: decimal numbers and separated fields. */
module Text {
  import opened Basics

  predicate IsDigit(c: char) { '0' <= c <= '9' }

  function DigitOf(n: nat): (c: char)
    requires n < 10
    ensures IsDigit(c)
  {
    '0' + n as char
  }

  function DigitValue(c: char): (n: nat)
    requires IsDigit(c)
    ensures n < 10
  {
    c as int - '0' as int
  }

  predicate AllDigits(s: string) { forall i :: 0 <= i < |s| ==> IsDigit(s[i]) }

  function Decimal(n: nat): (s: string)
    ensures s != [] && AllDigits(s)
    ensures n > 0 ==> s[0] != '0'
  {
    if n < 10 then [DigitOf(n)] else Decimal(n / 10) + [DigitOf(n % 10)]
  }

  /** `i64::to_string`. */
  function ToDecimal(n: int): string { if n < 0 then "-" + Decimal(-n) else Decimal(n) }

  function DigitsValue(s: string): nat
    requires AllDigits(s)
  {
    if s == [] then 0 else 10 * DigitsValue(s[..|s| - 1]) + DigitValue(s[|s| - 1])
  }

  /** `str::parse::<i64>`: an optional sign, at least one digit, and no overflow. */
  function ParseI64(s: string): Option<int> {
    var signed := s != [] && (s[0] == '-' || s[0] == '+');
    var digits := if signed then s[1..] else s;
    if digits == [] || !AllDigits(digits) then None
    else
      var magnitude: int := DigitsValue(digits);
      var n := if signed && s[0] == '-' then -magnitude else magnitude;
      if IsI64(n) then Some(n) else None
  }

  lemma {:induction false} DecimalValue(n: nat)
    ensures DigitsValue(Decimal(n)) == n
  {
    if n < 10 {
      assert Decimal(n)[..0] == [];
    } else {
      DecimalValue(n / 10);
      assert Decimal(n)[..|Decimal(n)| - 1] == Decimal(n / 10);
    }
  }

  lemma ParseUnsigned(digits: string)
    requires digits != [] && AllDigits(digits) && DigitsValue(digits) <= I64_MAX
    ensures ParseI64(digits) == Some(DigitsValue(digits))
  {
    assert IsDigit(digits[0]);
  }

  lemma ParseNegative(digits: string, n: int)
    requires digits != [] && AllDigits(digits) && DigitsValue(digits) == n <= -I64_MIN
    ensures ParseI64("-" + digits) == Some(-n)
  {
    assert ("-" + digits)[1..] == digits;
  }

  lemma ParseToDecimal(n: int)
    requires IsI64(n)
    ensures ParseI64(ToDecimal(n)) == Some(n)
  {
    if n < 0 {
      DecimalValue(-n);
      ParseNegative(Decimal(-n), -n);
    } else {
      DecimalValue(n);
      ParseUnsigned(Decimal(n));
    }
  }

  /** A number is printed with its last digit last, and its sign first. */
  lemma DecimalDigits(n: int, d: nat)
    requires n > 0 && d < 10
    ensures ToDecimal(10 * n + d) == ToDecimal(n) + [('0' as int + d) as char]
    ensures ToDecimal(d) == [('0' as int + d) as char]
    ensures ToDecimal(-n) == "-" + ToDecimal(n)
  {
  }

  lemma DecimalInjective(a: nat, b: nat)
    requires Decimal(a) == Decimal(b)
    ensures a == b
  {
    DecimalValue(a);
    DecimalValue(b);
  }

  lemma SignsDiffer(a: nat, b: nat)
    ensures "-" + Decimal(a) != Decimal(b)
  {
    assert IsDigit(Decimal(b)[0]) && ("-" + Decimal(a))[0] == '-';
  }

  lemma ToDecimalInjective(a: int, b: int)
    requires ToDecimal(a) == ToDecimal(b)
    ensures a == b
  {
    if a < 0 && b < 0 {
      assert ToDecimal(a)[1..] == Decimal(-a) && ToDecimal(b)[1..] == Decimal(-b);
      DecimalInjective(-a, -b);
    } else if a >= 0 && b >= 0 {
      DecimalInjective(a, b);
    } else {
      SignsDiffer(if a < 0 then -a else -b, if a < 0 then b else a);
      assert false;
    }
  }

  predicate Lacks(s: string, c: char) { forall i :: 0 <= i < |s| ==> s[i] != c }

  lemma DecimalLacks(n: int, c: char)
    requires !IsDigit(c) && c != '-'
    ensures Lacks(ToDecimal(n), c)
  {
  }

  /** A separator that the first fields cannot contain splits both texts at the same
      place. */
  lemma SplitFirst(c: char, a: string, x: string, b: string, y: string)
    requires Lacks(a, c) && Lacks(b, c)
    requires a + [c] + x == b + [c] + y
    ensures a == b && x == y
  {
    var s := a + [c] + x;
    assert s[|a|] == c && s[|b|] == c;
    assert forall i :: 0 <= i < |a| ==> s[i] == a[i];
    assert forall i :: 0 <= i < |b| ==> s[i] == b[i];
    assert a == s[..|a|] && b == s[..|b|];
    assert x == s[|a| + 1..] && y == s[|b| + 1..];
  }

  /** The same from the other end. */
  lemma SplitLast(c: char, x: string, a: string, y: string, b: string)
    requires Lacks(a, c) && Lacks(b, c)
    requires x + [c] + a == y + [c] + b
    ensures a == b && x == y
  {
    var s := x + [c] + a;
    assert s[|x|] == c && s[|y|] == c;
    assert forall i :: |x| < i < |s| ==> s[i] == a[i - |x| - 1];
    assert forall i :: |y| < i < |s| ==> s[i] == b[i - |y| - 1];
    assert x == s[..|x|] && y == s[..|y|];
    assert a == s[|x| + 1..] && b == s[|y| + 1..];
  }

  /** Characters allowed in peer, key, event and payload ids. */
  predicate IdChar(c: char) {
    'a' <= c <= 'z' || 'A' <= c <= 'Z' || '0' <= c <= '9' || c == '.' || c == '-' || c == '_' || c == ':'
  }

  predicate IsId(s: string, max: nat) { 1 <= |s| <= max && forall i :: 0 <= i < |s| ==> IdChar(s[i]) }

  lemma {:induction false} DecimalLength(n: nat, width: nat, bound: nat)
    requires n < bound && width >= 1 && bound == Power10(width)
    ensures |Decimal(n)| <= width
    decreases width
  {
    if n >= 10 {
      assert width > 1;
      DecimalLength(n / 10, width - 1, Power10(width - 1));
    }
  }

  function Power10(n: nat): nat { if n == 0 then 1 else 10 * Power10(n - 1) }

  /** Every printed `i64` is an acceptable payload id. */
  lemma DecimalIsId(n: int)
    requires IsI64(n)
    ensures IsId(ToDecimal(n), 256)
  {
    assert Power10(20) == 100_000_000_000_000_000_000 by {
      assert Power10(5) == 100_000;
      assert Power10(10) == 10_000_000_000;
      assert Power10(15) == 1_000_000_000_000_000;
    }
    DecimalLength(if n < 0 then -n else n, 20, Power10(20));
  }
}
