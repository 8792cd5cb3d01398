/** Floating-point literals of CSV columns, in exact arithmetic. */
module CsvFloats {
  import opened CsvNumbers
  import opened Decimals
  import opened Outcomes

  function Pow(base: real, n: nat): real {
    if n == 0 then 1.0 else base * Pow(base, n - 1)
  }

  /** The power of ten that the exponent e stands for. */
  function Scale(e: int): real { if e >= 0 then Pow(10.0, e) else Pow(0.1, -e) }

  function Scaled(m: real, e: int): real { m * Scale(e) }

  /** The exponent text as an int, clamped to the range of int; or that it has a non-digit. */
  function Exponent(s: string): Result<int, Error> {
    var u, negative := AfterSign(s), Negative(s);
    var v := Value(u[..DigitRun(u)]);
    if v > (if negative then -INT.min else INT.max) then Ok(if negative then INT.min else INT.max)
    else if DigitRun(u) < |u| then Thrown(NoDigit)
    else Ok(if negative then -v else v)
  }

  predicate StartsWith(s: string, a: char, b: char) { s != "" && (s[0] == a || s[0] == b) }

  /** The digits before the point, those after it, and what follows. */
  function Whole(s: string): string { s[..DigitRun(s)] }

  function AfterWhole(s: string): string { s[DigitRun(s)..] }

  function FractionDigits(s: string): string { if StartsWith(s, '.', ',') then Whole(s[1..]) else "" }

  function AfterFraction(s: string): string { if StartsWith(s, '.', ',') then AfterWhole(s[1..]) else s }

  function ExponentOn(s: string): string { AfterFraction(AfterWhole(AfterSign(s))) }

  /** (integer + fraction) of the literal, without its sign */
  function Mantissa(s: string): real {
    var u := AfterSign(s);
    Value(Whole(u)) as real + Fraction(FractionDigits(AfterWhole(u)))
  }

  /** m scaled by the exponent that the rest of the literal holds, if any. */
  function Finished(m: real, tail: string): Result<real, Error> {
    if StartsWith(tail, 'e', 'E') then
      match Exponent(tail[1..])
      case Thrown(error) => Thrown(error)
      case Ok(e) => Ok(Scaled(m, e))
    else if tail != "" then Thrown(NoDigit)
    else Ok(m)
  }

  /** sign * (integer + fraction) * 10^exponent, or the error of a character out of place */
  function FloatOf(s: string): Result<real, Error> {
    Finished(if Negative(s) then -Mantissa(s) else Mantissa(s), ExponentOn(s))
  }

  /** The literal's exponent is -2^31 or below; negating it is undefined in the program. */
  predicate ExponentTooSmall(s: string) {
    StartsWith(ExponentOn(s), 'e', 'E') && Exponent(ExponentOn(s)[1..]) == Ok(INT.min)
  }

  lemma ReadsExponent(s: string, r: Result<int, Error>)
    requires Reads(AfterSign(s), INT, SetToMaxOnOverflow, Negative(s), r)
    ensures r == Exponent(s)
  {
  }

  // ----- exponentiation by squaring -----

  lemma {:induction false} PowSquare(b: real, n: nat)
    ensures Pow(b * b, n) == Pow(b, 2 * n)
  {
    if n > 0 {
      PowSquare(b, n - 1);
      var p := Pow(b, 2 * (n - 1));
      assert Pow(b, 2 * n) == b * Pow(b, 2 * n - 1) == b * (b * p);
      assert b * (b * p) == (b * b) * p;
    }
  }

  lemma TimesAssociative(x: real, y: real, z: real)
    ensures x * (y * z) == (x * y) * z
  {
  }

  /** x times base to the e, with about log e multiplications; x * base^e never changes. */
  method MultiplyPower(x0: real, base0: real, e0: nat) returns (x: real)
    requires e0 != 0
    ensures x == x0 * Pow(base0, e0)
  {
    hide Pow;
    x := x0;
    var base, e := base0, e0;
    while e != 1
      invariant 0 < e && x * Pow(base, e) == x0 * Pow(base0, e0)
      decreases e
    {
      if e % 2 == 0 {
        PowSquare(base, e / 2);
        base := base * base;
        e := e / 2;
      } else {
        PowStep(base, e);
        TimesAssociative(x, base, Pow(base, e - 1));
        x := x * base;
        e := e - 1;
      }
    }
    PowStep(base, 1);
    x := x * base;
  }

  lemma PowStep(b: real, n: nat)
    requires n > 0
    ensures Pow(b, n) == b * Pow(b, n - 1)
    ensures Pow(b, 0) == 1.0
  {
  }

  /** The two scales are inverse to each other. */
  lemma {:induction false} ScaleInverse(e: nat)
    ensures Scale(e) * Scale(0 - e) == 1.0
  {
    if e > 0 {
      ScaleInverse(e - 1);
      var p, q := Pow(10.0, e - 1), Pow(0.1, e - 1);
      assert p * q == 1.0;
      assert (10.0 * p) * (0.1 * q) == p * q;
    }
  }

  /** The scale is the power of ten, for positive and negative exponents. */
  lemma ScaleIsPowerOfTen(e: int)
    ensures Scale(0) == 1.0 && Scale(e + 1) == 10.0 * Scale(e)
  {
    if e < 0 {
      var p := Pow(0.1, -e - 1);
      assert Pow(0.1, -e) == 0.1 * p;
      assert 10.0 * (0.1 * p) == p;
    }
  }

  // ----- parse_float -----

  method IntegerPart(s: string, from: nat) returns (x: real, i: nat)
    requires from <= |s|
    ensures x == Value(Whole(s[from..])) as real && i <= |s| && s[i..] == AfterWhole(s[from..])
  {
    hide Value;
    ghost var u := s[from..];
    x, i := 0.0, from;
    Nothing(u);
    while i < |s| && '0' <= s[i] <= '9'
      invariant from <= i <= |s| && x == Value(u[..i - from]) as real && forall k :: 0 <= k < i - from ==> IsDigit(u[k])
    {
      NextValue(u, i - from);
      x := x * 10.0;
      x := x + (s[i] as int - '0' as int) as real;
      i := i + 1;
    }
    DigitRunIs(u, i - from);
  }

  method DecimalsPart(s: string, from: nat, whole: real) returns (x: real, i: nat)
    requires from <= |s|
    ensures x == whole + Fraction(Whole(s[from..])) && i <= |s| && s[i..] == AfterWhole(s[from..])
  {
    hide Weighted, Fraction;
    ghost var u := s[from..];
    x, i := whole, from;
    NoFraction();
    assert s[from..from] == "";
    var pos := 1.0;
    while i < |s| && '0' <= s[i] <= '9'
      invariant from <= i <= |s| && x == whole + Fraction(s[from..i]) && pos == Place(i - from)
      invariant forall k :: 0 <= k < i - from ==> IsDigit(u[k])
    {
      FractionStep(s, from, i);
      pos := pos / 10.0;
      x := x + Weighted(s[i], pos);
      i := i + 1;
    }
    DigitRunIs(u, i - from);
    assert u[..i - from] == s[from..i];
  }

  /** Sign, digits, point and decimals. */
  method MantissaPart(s: string) returns (x: real, i: nat)
    ensures x == Mantissa(s) && i <= |s| && s[i..] == ExponentOn(s)
  {
    hide Value, Fraction, DigitRun;
    i := if |s| > 0 && (s[0] == '-' || s[0] == '+') then 1 else 0;
    assert s[i..] == AfterSign(s);
    x, i := IntegerPart(s, i);
    ghost var rest := s[i..];
    if i < |s| && (s[i] == '.' || s[i] == ',') {
      assert rest[1..] == s[i + 1..];
      x, i := DecimalsPart(s, i + 1, x);
    } else {
      NoFraction();
    }
  }

  /** The multiplications for the exponent e. */
  method ScaleBy(x0: real, e: int) returns (x: real)
    ensures x == Scaled(x0, e)
  {
    hide Pow;
    x := x0;
    if e > 0 {
      x := MultiplyPower(x, 10.0, e);
    } else if e < 0 {
      x := MultiplyPower(x, 0.1, -e);
    } else {
      PowStep(10.0, 1);
    }
  }

  /** The exponent, and the check that nothing follows. */
  method FinishFloat(s: string, i: nat, x: real) returns (r: Result<real, Error>)
    requires i <= |s| && !(StartsWith(s[i..], 'e', 'E') && Exponent(s[i..][1..]) == Ok(INT.min))
    ensures r == Finished(x, s[i..])
  {
    hide Exponent, Scaled;
    if i < |s| && (s[i] == 'e' || s[i] == 'E') {
      assert s[i..][1..] == s[i + 1..];
      var exponent := ParseSignedInteger(INT, SetToMaxOnOverflow, s, i + 1);
      ReadsExponent(s[i + 1..], exponent);
      if exponent.Thrown? { return Thrown(exponent.error); }
      assert exponent.value != INT.min;  // it can be negated
      var scaled := ScaleBy(x, exponent.value);
      r := Ok(scaled);
    } else if i < |s| {
      r := Thrown(NoDigit);
    } else {
      r := Ok(x);
    }
  }

  method ParseFloat(s: string) returns (r: Result<real, Error>)
    requires !ExponentTooSmall(s)
    ensures r == FloatOf(s)
  {
    hide Mantissa, ExponentOn, Exponent, Finished;
    var isNeg := |s| > 0 && s[0] == '-';
    var x, i := MantissaPart(s);
    r := FinishFloat(s, i, x);
    FinishedNegative(x, ExponentOn(s));
    if isNeg && r.Ok? { r := Ok(-r.value); }
  }

  lemma FinishedNegative(m: real, tail: string)
    ensures Finished(-m, tail) == match Finished(m, tail) case Ok(x) => Ok(-x) case Thrown(error) => Thrown(error)
  {
    hide Exponent, Scaled;
    if StartsWith(tail, 'e', 'E') && Exponent(tail[1..]).Ok? { ScaledNegative(m, Exponent(tail[1..]).value); }
  }

  lemma NoFraction()
    ensures Fraction("") == 0.0
  {
  }

  lemma ScaledNegative(x: real, e: int)
    ensures Scaled(-x, e) == -Scaled(x, e)
  {
  }

  // ----- literals -----

  /** sign? digits (point digits)? (e sign? digits)? */
  datatype Literal =
    Literal(sign: Sign, whole: string, fraction: Option<FractionText>, exponent: Option<ExponentText>) {
    predicate WellFormed() {
      AllDigits(whole) && (fraction.Some? ==> fraction.value.WellFormed()) &&
        (exponent.Some? ==> exponent.value.WellFormed())
    }

    function Number(): real {
      var m := Value(whole) as real + if fraction.Some? then Fraction(fraction.value.decimals) else 0.0;
      Scaled(if sign == Minus then -m else m, if exponent.Some? then exponent.value.Number() else 0)
    }

    function PrintExponent(): string { if exponent.Some? then exponent.value.Print() else "" }

    function PrintUnsigned(): string {
      whole +
      (if fraction.Some? then [fraction.value.point] + (fraction.value.decimals + PrintExponent())
       else PrintExponent())
    }

    function Print(): string { sign.Print() + PrintUnsigned() }
  }

  /** a point or a comma, and the digits behind it */
  datatype FractionText = FractionText(point: char, decimals: string) {
    predicate WellFormed() { (point == '.' || point == ',') && AllDigits(decimals) }
  }

  /** the letter e, an optional sign and digits, of a number in the range of int without its minimum */
  datatype ExponentText = ExponentText(letter: char, sign: Sign, digits: string) {
    function Number(): int { if sign == Minus then -Value(digits) else Value(digits) }

    predicate WellFormed() {
      (letter == 'e' || letter == 'E') && AllDigits(digits) && INT.min < Number() <= INT.max
    }

    function Print(): string { [letter] + (sign.Print() + digits) }
  }

  lemma RunOf(digits: string, rest: string)
    requires AllDigits(digits) && (rest != "" ==> !IsDigit(rest[0]))
    ensures Whole(digits + rest) == digits && AfterWhole(digits + rest) == rest
  {
    DigitRunIs(digits + rest, |digits|);
  }

  /** Any exponent of digits is its value, clamped to the range of int. */
  lemma ExponentPrinted(e: ExponentText)
    requires AllDigits(e.digits)
    ensures Exponent(e.Print()[1..]) ==
      Ok(if e.Number() > 0x7fff_ffff then 0x7fff_ffff else if e.Number() < -0x8000_0000 then -0x8000_0000
        else e.Number())
  {
    hide Value;
    assert e.Print()[1..] == e.sign.Print() + e.digits;
    DigitsUnsigned(e.digits);
    SignOf(e.sign, e.digits);
    WholeRun(e.digits);
  }

  /** The digits, the fraction and the exponent are read where they were printed. */
  lemma UnsignedParts(l: Literal)
    requires l.WellFormed()
    ensures var u := l.PrintUnsigned();
      && Whole(u) == l.whole
      && FractionDigits(AfterWhole(u)) == (if l.fraction.Some? then l.fraction.value.decimals else "")
      && AfterFraction(AfterWhole(u)) == l.PrintExponent()
  {
    hide Whole, AfterWhole;
    var e := l.PrintExponent();
    assert e != "" ==> e[0] == 'e' || e[0] == 'E';
    if l.fraction.Some? {
      var f := l.fraction.value;
      var rest := [f.point] + (f.decimals + e);
      RunOf(l.whole, rest);
      assert rest[1..] == f.decimals + e;
      RunOf(f.decimals, e);
    } else {
      RunOf(l.whole, e);
    }
  }

  lemma ScaledByNothing(m: real)
    ensures Scaled(m, 0) == m
  {
    PowStep(10.0, 1);
  }

  lemma LiteralParts(l: Literal)
    requires l.WellFormed()
    ensures var s := l.Print();
      && Negative(s) == (l.sign == Minus)
      && Mantissa(s) == Value(l.whole) as real + (if l.fraction.Some? then Fraction(l.fraction.value.decimals) else 0.0)
      && ExponentOn(s) == l.PrintExponent()
  {
    hide Value, Fraction, Whole, AfterWhole, FractionDigits, AfterFraction;
    SignAside(l);
    SignOf(l.sign, l.PrintUnsigned());
    UnsignedParts(l);
    NoFraction();
  }

  /** Parsing any decimal literal gives sign * (integer + fraction) * 10^exponent. */
  lemma LiteralRead(l: Literal)
    requires l.WellFormed()
    ensures !ExponentTooSmall(l.Print()) && FloatOf(l.Print()) == Ok(l.Number())
  {
    hide Value, Fraction, Exponent, Scaled, Mantissa, ExponentOn, AllDigits, Negative;
    LiteralParts(l);
    ScaledByNothing(if l.sign == Minus then -Mantissa(l.Print()) else Mantissa(l.Print()));
    if l.exponent.Some? { ExponentPrinted(l.exponent.value); }
  }

  lemma SignAside(l: Literal)
    requires l.WellFormed()
    ensures var u := l.PrintUnsigned(); u != "" ==> u[0] != '-' && u[0] != '+'
  {
    if l.whole != "" { assert IsDigit(l.whole[0]); }
  }

  /** A character out of place behind digits and fraction is an error, whatever follows it. */
  lemma StrayCharacterThrows(l: Literal, c: char, rest: string)
    requires l.WellFormed() && l.exponent == None && !IsDigit(c) && c != 'e' && c != 'E'
    requires l.fraction == None ==> c != '.' && c != ','
    requires l.Print() == "" ==> c != '-' && c != '+'
    ensures FloatOf(l.Print() + ([c] + rest)) == Thrown(NoDigit)
  {
    hide Value, Fraction, Whole, AfterWhole, FractionDigits, AfterFraction, AllDigits, Mantissa;
    var u := l.PrintUnsigned() + ([c] + rest);
    assert l.Print() + ([c] + rest) == l.sign.Print() + u;
    StrayParts(l, c, rest);
    SignAside(l);
    assert l.PrintUnsigned() != "" ==> u[0] == l.PrintUnsigned()[0];
    SignOf(l.sign, u);
  }

  lemma StrayParts(l: Literal, c: char, rest: string)
    requires l.WellFormed() && l.exponent == None && !IsDigit(c)
    requires l.fraction == None ==> c != '.' && c != ','
    ensures AfterFraction(AfterWhole(l.PrintUnsigned() + ([c] + rest))) == [c] + rest
  {
    hide Whole, AfterWhole;
    var e := [c] + rest;
    if l.fraction.Some? {
      var f := l.fraction.value;
      var tail := [f.point] + (f.decimals + e);
      assert l.PrintUnsigned() + e == l.whole + tail;
      RunOf(l.whole, tail);
      assert tail[1..] == f.decimals + e;
      RunOf(f.decimals, e);
    } else {
      assert l.PrintUnsigned() + e == l.whole + e;
      RunOf(l.whole, e);
    }
  }
}
