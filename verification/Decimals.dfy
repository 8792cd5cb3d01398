/** What a run of digits means, before and after a decimal point. */
module Decimals {

  /** Decimal reading of a text, digit by digit; any character c counts as c - '0'. */
  function Value(s: string): int {
    if s == "" then 0 else 10 * Value(s[..|s| - 1]) + (s[|s| - 1] as int - '0' as int)
  }

  /** The weight of the n-th decimal. */
  function Place(n: nat): real {
    if n == 0 then 1.0 else Place(n - 1) * 0.1
  }

  function Weighted(digit: char, place: real): real { (digit as int - '0' as int) as real * place }

  /** The digits d1 d2 ... read as 0.d1d2... */
  function Fraction(s: string): real {
    if s == "" then 0.0 else
      Fraction(s[..|s| - 1]) + Weighted(s[|s| - 1], Place(|s|))
  }

  lemma ValueStep(line: string, from: nat, i: nat)
    requires from <= i < |line|
    ensures Value(line[from..i + 1]) == 10 * Value(line[from..i]) + (line[i] as int - '0' as int)
  {
    assert line[from..i + 1][..i - from] == line[from..i];
  }

  lemma FractionStep(line: string, from: nat, i: nat)
    requires from <= i < |line|
    ensures Fraction(line[from..i + 1])
         == Fraction(line[from..i]) + Weighted(line[i], Place(i - from + 1))
  {
    assert line[from..i + 1][..i - from] == line[from..i];
  }

  /** The n-th power of ten. */
  function Tens(n: nat): nat { if n == 0 then 1 else 10 * Tens(n - 1) }

  lemma {:induction false} PlaceTens(n: nat)
    ensures Place(n) * Tens(n) as real == 1.0
  {
    if n > 0 {
      PlaceTens(n - 1);
      var p, t := Place(n - 1), Tens(n - 1) as real;
      assert (p * 0.1) * (10.0 * t) == p * t;
    }
  }

  /** The digits after the point are the number they spell, divided by ten to their number. */
  lemma {:induction false} FractionMeans(s: string)
    ensures Fraction(s) * Tens(|s|) as real == Value(s) as real
  {
    if s != "" {
      var n := |s| - 1;
      FractionMeans(s[..n]);
      PlaceTens(n + 1);
      var f, d, p, t := Fraction(s[..n]), (s[n] as int - '0' as int) as real, Place(n + 1), Tens(n) as real;
      assert Tens(n + 1) as real == 10.0 * t;
      OneMoreDigit(f, d, p, t);
    }
  }

  lemma OneMoreDigit(f: real, d: real, p: real, t: real)
    requires p * (10.0 * t) == 1.0
    ensures (f + d * p) * (10.0 * t) == 10.0 * (f * t) + d
  {
    assert (f + d * p) * (10.0 * t) == f * (10.0 * t) + (d * p) * (10.0 * t);
    assert (d * p) * (10.0 * t) == d * (p * (10.0 * t));
  }

  predicate IsDigit(c: char) { '0' <= c <= '9' }

  predicate AllDigits(s: string) { forall i :: 0 <= i < |s| ==> IsDigit(s[i]) }

  /** The length of the run of digits that s starts with. */
  function DigitRun(s: string): (n: nat)
    ensures n <= |s| && AllDigits(s[..n]) && (n < |s| ==> !IsDigit(s[n]))
  {
    if s == "" || !IsDigit(s[0]) then 0 else
      var n := DigitRun(s[1..]);
      assert s[..n + 1] == [s[0]] + s[1..][..n];
      n + 1
  }

  lemma DigitRunIs(s: string, n: nat)
    requires n <= |s| && (forall i :: 0 <= i < n ==> IsDigit(s[i])) && (n < |s| ==> !IsDigit(s[n]))
    ensures DigitRun(s) == n
  {
    var m := DigitRun(s);
    assert m < |s| ==> !IsDigit(s[m]);
    assert forall i :: 0 <= i < m ==> IsDigit(s[..m][i]) && s[..m][i] == s[i];
  }

  /** More digits never make the number smaller. */
  lemma {:induction false} ValueGrows(s: string, m: nat, n: nat)
    requires m <= n <= |s| && AllDigits(s[..n])
    ensures 0 <= Value(s[..m]) <= Value(s[..n])
    decreases n
  {
    assert s[..n][..m] == s[..m] && AllDigits(s[..m]);
    if n > 0 {
      assert IsDigit(s[..n][n - 1]);
      assert s[..n][..n - 1] == s[..n - 1] && AllDigits(s[..n - 1]);
      ValueGrows(s, if m < n then m else n - 1, n - 1);
    }
  }

  /** The decimal numeral of n. */
  function Digits(n: nat): (s: string)
    ensures s != "" && AllDigits(s)
  {
    var last := ['0' + (n % 10) as char];
    if n < 10 then last else Digits(n / 10) + last
  }

  lemma {:induction false} ValueOfDigits(n: nat)
    ensures Value(Digits(n)) == n
  {
    var s := Digits(n);
    assert s[|s| - 1] as int - '0' as int == n % 10;
    if n < 10 {
      assert s[..|s| - 1] == "";
    } else {
      ValueOfDigits(n / 10);
      assert s[..|s| - 1] == Digits(n / 10);
    }
  }
}
