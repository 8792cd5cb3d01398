/** Reading numbers from CSV columns: integers of any width with an overflow policy, and
    floating-point literals in exact arithmetic. A column is the text of a C string. */
module CsvNumbers {
  import opened Decimals
  import opened Outcomes

  /** An integer type of at least 8 bits. */
  datatype IntType = IntType(min: int, max: int) {
    predicate Signed() { min <= -128 && 127 <= max }
    predicate Unsigned() { min == 0 && 255 <= max }
  }

  const INT := IntType(-0x8000_0000, 0x7fff_ffff)

  datatype Policy = ThrowOnOverflow | IgnoreOverflow | SetToMaxOnOverflow

  datatype Error = NoDigit | IntegerOverflow | IntegerUnderflow

  /** C++ integer division: towards zero. */
  function Quotient(a: int, b: int): int
    requires b > 0
  {
    if a >= 0 then a / b else -((-a) / b)
  }

  /** What the policy makes of x, the value before the digit that does not fit. */
  function OnOverflow(t: IntType, policy: Policy, x: int): Result<int, Error> {
    match policy
    case ThrowOnOverflow => Thrown(IntegerOverflow)
    case IgnoreOverflow => Ok(x)
    case SetToMaxOnOverflow => Ok(t.max)
  }

  function OnUnderflow(t: IntType, policy: Policy, x: int): Result<int, Error> {
    match policy
    case ThrowOnOverflow => Thrown(IntegerUnderflow)
    case IgnoreOverflow => Ok(x)
    case SetToMaxOnOverflow => Ok(t.min)
  }

  /** The longest run of leading digits of s whose value is at most limit. */
  ghost predicate LongestFitting(s: string, limit: int, n: nat) {
    n < DigitRun(s) && Value(s[..n]) <= limit < Value(s[..n + 1])
  }

  /** r is the value of the digits of s, with the sign: exactly, if it fits and s is digits
      only; if the leading digits do not fit, what the policy makes of it; else the error that
      there is a character that is no digit. */
  ghost predicate Reads(s: string, t: IntType, policy: Policy, negative: bool, r: Result<int, Error>) {
    var v := Value(s[..DigitRun(s)]);
    var limit := if negative then -t.min else t.max;
    if v > limit then
      exists n: nat :: LongestFitting(s, limit, n) &&
        r == if negative then OnUnderflow(t, policy, -Value(s[..n])) else OnOverflow(t, policy, Value(s[..n]))
    else if DigitRun(s) < |s| then r == Thrown(NoDigit)
    else r == Ok(if negative then -v else v)
  }

  /** The loop stops at digit i: the digits up to there fit, with it they do not. */
  lemma StopsAt(s: string, limit: int, i: nat)
    requires i < |s| && (forall k :: 0 <= k <= i ==> IsDigit(s[k]))
    requires Value(s[..i]) <= limit < Value(s[..i + 1])
    ensures LongestFitting(s, limit, i) && Value(s[..DigitRun(s)]) > limit
  {
    var d := DigitRun(s);
    assert i < d by { assert d < |s| ==> !IsDigit(s[d]); }
    ValueGrows(s, i + 1, d);
  }

  lemma NextValue(s: string, i: nat)
    requires i < |s|
    ensures Value(s[..i + 1]) == 10 * Value(s[..i]) + (s[i] as int - '0' as int)
  {
    ValueStep(s, 0, i);
    assert s[0..i] == s[..i] && s[0..i + 1] == s[..i + 1];
  }

  method ParseUnsignedInteger(t: IntType, policy: Policy, s: string, from: nat) returns (r: Result<int, Error>)
    requires (t.Unsigned() || t.Signed()) && from <= |s|
    ensures Reads(s[from..], t, policy, false, r)
  {
    hide Value;
    ghost var u := s[from..];
    var x := 0;
    var i := from;
    Nothing(u);
    while i < |s|
      invariant from <= i <= |s| && x == Value(u[..i - from]) && 0 <= x <= t.max
      invariant forall k :: 0 <= k < i - from ==> IsDigit(u[k])
    {
      assert u[i - from] == s[i];
      if '0' <= s[i] <= '9' {
        var y := s[i] as int - '0' as int;
        NextValue(u, i - from);
        if x > Quotient(t.max - y, 10) {
          StopsAt(u, t.max, i - from);
          return OnOverflow(t, policy, x);
        }
        x := 10 * x + y;
        assert t.min <= x <= t.max;  // no wrap-around
      } else {
        DigitRunIs(u, i - from);
        return Thrown(NoDigit);
      }
      i := i + 1;
    }
    DigitRunIs(u, |u|);
    r := Ok(x);
  }

  /** The loop for numbers after a minus sign, which counts downwards. */
  method ParseNegativeInteger(t: IntType, policy: Policy, s: string, from: nat) returns (r: Result<int, Error>)
    requires t.Signed() && from <= |s|
    ensures Reads(s[from..], t, policy, true, r)
  {
    hide Value;
    ghost var u := s[from..];
    var x := 0;
    var i := from;
    Nothing(u);
    while i < |s|
      invariant from <= i <= |s| && x == -Value(u[..i - from]) && t.min <= x <= 0
      invariant forall k :: 0 <= k < i - from ==> IsDigit(u[k])
    {
      assert u[i - from] == s[i];
      if '0' <= s[i] <= '9' {
        var y := s[i] as int - '0' as int;
        NextValue(u, i - from);
        if x < Quotient(t.min + y, 10) {
          StopsAt(u, -t.min, i - from);
          return OnUnderflow(t, policy, x);
        }
        x := 10 * x - y;
        assert t.min <= x <= t.max;  // no wrap-around
      } else {
        DigitRunIs(u, i - from);
        return Thrown(NoDigit);
      }
      i := i + 1;
    }
    DigitRunIs(u, |u|);
    r := Ok(x);
  }

  lemma Nothing(s: string)
    ensures Value(s[..0]) == 0
  {
  }

  function AfterSign(s: string): string { if s != "" && (s[0] == '-' || s[0] == '+') then s[1..] else s }

  predicate Negative(s: string) { s != "" && s[0] == '-' }

  method ParseSignedInteger(t: IntType, policy: Policy, s: string, from: nat) returns (r: Result<int, Error>)
    requires t.Signed() && from <= |s|
    ensures Reads(AfterSign(s[from..]), t, policy, Negative(s[from..]), r)
  {
    var i := from;
    assert from < |s| ==> s[from..][1..] == s[from + 1..];
    if i < |s| && s[i] == '-' {
      i := i + 1;
      r := ParseNegativeInteger(t, policy, s, i);
      return;
    } else if i < |s| && s[i] == '+' {
      i := i + 1;
    }
    r := ParseUnsignedInteger(t, policy, s, i);
  }

  lemma WholeRun(s: string)
    requires AllDigits(s)
    ensures DigitRun(s) == |s| && s[..|s|] == s
    ensures 0 <= Value(s) && forall n :: 0 <= n <= |s| ==> 0 <= Value(s[..n])
  {
    DigitRunIs(s, |s|);
    assert s[..|s|] == s;
    forall n | 0 <= n <= |s| ensures 0 <= Value(s[..n]) {
      ValueGrows(s, 0, n);
      assert s[..0] == "";
    }
  }

  /** A text of digits gives its mathematical value exactly when that fits the type; otherwise
      the policy decides: an error, the limit, or the longest prefix that fits. */
  lemma ExactIffFits(s: string, t: IntType, policy: Policy, negative: bool, r: Result<int, Error>)
    requires AllDigits(s) && Reads(s, t, policy, negative, r) && (t.Signed() || (t.Unsigned() && !negative))
    ensures var v := if negative then -Value(s) else Value(s);
      if t.min <= v <= t.max then r == Ok(v)
      else match policy
           case ThrowOnOverflow => r == Thrown(if negative then IntegerUnderflow else IntegerOverflow)
           case SetToMaxOnOverflow => r == Ok(if negative then t.min else t.max)
           case IgnoreOverflow =>
             r.Ok? && r.value != v && t.min <= r.value <= t.max &&
             exists n: nat :: LongestFitting(s, if negative then -t.min else t.max, n) &&
               r.value == if negative then -Value(s[..n]) else Value(s[..n])
  {
    hide Value, AllDigits;
    WholeRun(s);
  }

  /** A character that is no digit, behind digits that fit, is an error. */
  lemma StrayCharacter(s: string, i: nat, t: IntType, policy: Policy, negative: bool, r: Result<int, Error>)
    requires i < |s| && AllDigits(s[..i]) && !IsDigit(s[i]) && Reads(s, t, policy, negative, r)
    requires Value(s[..i]) <= if negative then -t.min else t.max
    ensures r == Thrown(NoDigit)
  {
    hide Value;
    assert forall k :: 0 <= k < i ==> IsDigit(s[..i][k]) && s[..i][k] == s[k];
    DigitRunIs(s, i);
  }

  datatype Sign = NoSign | Plus | Minus {
    function Print(): string { match this case NoSign => "" case Plus => "+" case Minus => "-" }
  }

  lemma SignOf(sign: Sign, rest: string)
    requires sign == NoSign && rest != "" ==> rest[0] != '-' && rest[0] != '+'
    ensures Negative(sign.Print() + rest) == (sign == Minus)
    ensures AfterSign(sign.Print() + rest) == rest
  {
    var s := sign.Print() + rest;
    if sign == NoSign { assert s == rest; } else { assert s[1..] == rest; }
  }

  /** Digits behind any sign or none: the signed value, exactly when it fits the type. */
  lemma SignedExactIffFits(sign: Sign, digits: string, t: IntType, policy: Policy, r: Result<int, Error>)
    requires AllDigits(digits) && t.Signed()
    requires Reads(AfterSign(sign.Print() + digits), t, policy, Negative(sign.Print() + digits), r)
    ensures var v := if sign == Minus then -Value(digits) else Value(digits);
      if t.min <= v <= t.max then r == Ok(v)
      else match policy
           case ThrowOnOverflow => r == Thrown(if sign == Minus then IntegerUnderflow else IntegerOverflow)
           case SetToMaxOnOverflow => r == Ok(if sign == Minus then t.min else t.max)
           case IgnoreOverflow => r.Ok? && r.value != v && t.min <= r.value <= t.max
  {
    hide Reads, Value, AllDigits;
    DigitsUnsigned(digits);
    SignOf(sign, digits);
    ExactIffFits(digits, t, policy, sign == Minus, r);
  }

  lemma DigitsUnsigned(digits: string)
    requires AllDigits(digits)
    ensures digits != "" ==> digits[0] != '-' && digits[0] != '+'
  {
    assert digits != "" ==> IsDigit(digits[0]);
  }
}
