/** Decimal numbers as strings. */
module Decimal {
  import opened Options

  function Digit(n: nat): char
    requires n < 10
  {
    ('0' as int + n) as char
  }

  predicate IsDigit(c: char) {
    '0' <= c <= '9'
  }

  function Digits(n: nat): (s: string)
    ensures s != "" && forall c :: c in s ==> IsDigit(c)
  {
    if n < 10 then [Digit(n)] else Digits(n / 10) + [Digit(n % 10)]
  }

  function ParseDigits(s: string): Option<nat> {
    if s == "" then None
    else
      var c := s[|s| - 1];
      if !IsDigit(c) then None
      else if |s| == 1 then Some(c as int - '0' as int)
      else
        var high := ParseDigits(s[..|s| - 1]);
        if high.None? then None else Some(10 * high.value + (c as int - '0' as int))
  }

  lemma {:induction false} ParseDigitsOfDigits(n: nat)
    ensures ParseDigits(Digits(n)) == Some(n)
  {
    if n >= 10 {
      ParseDigitsOfDigits(n / 10);
      assert Digits(n)[..|Digits(n)| - 1] == Digits(n / 10);
    }
  }

  /** The notation is positional in base ten, without leading zeros. */
  lemma AppendDigit(n: nat, d: nat)
    requires d < 10
    ensures Digits(d) == [('0' as int + d) as char]
    ensures n > 0 ==> Digits(10 * n + d) == Digits(n) + Digits(d)
  {
    assert (10 * n + d) / 10 == n && (10 * n + d) % 10 == d;
  }

  /** A signed number in base ten. */
  function Format(n: int): string {
    if n < 0 then "-" + Digits(-n) else Digits(n)
  }

  const MIN_INT64: int := -0x8000_0000_0000_0000
  const MAX_INT64: int := 0x7FFF_FFFF_FFFF_FFFF

  function InRange(n: int): Option<int> {
    if MIN_INT64 <= n <= MAX_INT64 then Some(n) else None
  }

  /** Parsing accepts one leading sign and refuses what does not fit 64 bits. */
  function ParseInt(s: string): Option<int> {
    if s == "" then None
    else
      var digits := ParseDigits(if s[0] == '-' || s[0] == '+' then s[1..] else s);
      if digits.None? then None
      else
        var n: int := digits.value;
        InRange(if s[0] == '-' then -n else n)
  }

  lemma ParseNegative(digits: string)
    requires digits != "" && ParseDigits(digits).Some?
    ensures ParseInt("-" + digits) == InRange(0 - ParseDigits(digits).value)
  {
    var s := "-" + digits;
    assert s[0] == '-' && s[1..] == digits;
  }

  lemma ParseUnsigned(digits: string)
    requires digits != "" && IsDigit(digits[0]) && ParseDigits(digits).Some?
    ensures ParseInt(digits) == InRange(ParseDigits(digits).value)
  {
  }

  lemma ParseIntOfFormat(n: int)
    ensures ParseInt(Format(n)) == InRange(n)
  {
    var digits := Digits(if n < 0 then -n else n);
    ParseDigitsOfDigits(if n < 0 then -n else n);
    if n < 0 {
      ParseNegative(digits);
    } else {
      assert digits[0] in digits;
      ParseUnsigned(digits);
    }
  }

  // --- Lengths ---

  lemma {:induction false} DigitsGrow(m: nat, n: nat)
    requires m <= n
    ensures |Digits(m)| <= |Digits(n)|
  {
    if m >= 10 {
      DigitsGrow(m / 10, n / 10);
    }
  }

  /** More digits never make a number smaller. */
  lemma {:induction false} AppendedDigits(v: string, d: string)
    requires v != "" && ParseDigits(v + d).Some?
    ensures ParseDigits(v).Some? && ParseDigits(v).value <= ParseDigits(v + d).value
    decreases d
  {
    if d == "" {
      assert v + d == v;
    } else {
      var s, init := v + d, d[..|d| - 1];
      assert s[..|s| - 1] == v + init;
      AppendedDigits(v, init);
    }
  }

  /** A formatted number ends in a digit and consists of digits after an optional sign. */
  lemma FormatShape(n: int)
    ensures var s := Format(n);
            && s != "" && IsDigit(s[|s| - 1])
            && forall c :: c in s ==> IsDigit(c) || c == '-'
  {
    var digits := Digits(if n < 0 then -n else n);
    assert digits[|digits| - 1] in digits;
  }

  lemma FormatLength(x: int, y: int)
    requires 0 <= x <= y || y <= x <= 0
    ensures |Format(x)| <= |Format(y)|
  {
    if y <= x <= 0 {
      DigitsGrow(-x, -y);
    } else {
      DigitsGrow(x, y);
    }
  }

  /** Appending to a numeral does not bring its number closer to zero. */
  lemma AppendedInt(v: string, d: string)
    requires v != "" && ParseInt(v).Some? && ParseInt(v + d).Some?
    ensures var x, y := ParseInt(v).value, ParseInt(v + d).value; 0 <= x <= y || y <= x <= 0
  {
    assert (v + d)[0] == v[0];
    if v[0] == '-' || v[0] == '+' {
      assert (v + d)[1..] == v[1..] + d;
      AppendedDigits(v[1..], d);
    } else {
      AppendedDigits(v, d);
    }
  }

  /** A numeral's own prefix cannot be moved behind it. */
  lemma NoShift(v: string, d: string)
    requires v != "" && ParseInt(v).Some? && ParseInt(v + d).Some?
    requires Format(ParseInt(v).value) == d + Format(ParseInt(v + d).value)
    ensures d == ""
  {
    AppendedInt(v, d);
    FormatLength(ParseInt(v).value, ParseInt(v + d).value);
  }
}
