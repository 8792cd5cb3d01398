/** One line of the advertising data file, how a node parses it, and which node keeps it. */
module RowParser {

  import opened Decimals
  import opened Integers
  import opened Texts

  datatype RawData = RawData(keyword: int64, adgroupId: uint64, price: uint16,
                             timingsMask: bv32, itemVec1: real, itemVec2: real)

  /** A node keeps the keywords whose remainder modulo nodeNum is nodeId. */
  datatype Options = Options(nodeId: nat, nodeNum: nat) {
    ghost predicate Valid() { nodeNum > 0 }
  }

  // ----- machine integers -----

  datatype Width = Signed64 | Unsigned64 | Unsigned16

  /** What is left of x in a field of the given width. */
  function Wrap(w: Width, x: int): int {
    match w
    case Signed64 => (x + 0x8000_0000_0000_0000) % 0x1_0000_0000_0000_0000 - 0x8000_0000_0000_0000
    case Unsigned64 => x % 0x1_0000_0000_0000_0000
    case Unsigned16 => x % 0x1_0000
  }

  predicate Fits(w: Width, x: int) {
    match w
    case Signed64 => -0x8000_0000_0000_0000 <= x < 0x8000_0000_0000_0000
    case Unsigned64 => 0 <= x < 0x1_0000_0000_0000_0000
    case Unsigned16 => 0 <= x < 0x1_0000
  }

  lemma WrapFits(w: Width, x: int)
    ensures Fits(w, Wrap(w, x))
    ensures Fits(w, x) ==> Wrap(w, x) == x
  {
  }

  /** The number of values that a field of the given width can hold. */
  function Size(w: Width): int { if w == Unsigned16 then 0x1_0000 else 0x1_0000_0000_0000_0000 }

  /** Wrapping loses a multiple of the number of values, so it is determined by Fits. */
  lemma WrapLoses(w: Width, x: int)
    ensures (x - Wrap(w, x)) % Size(w) == 0
  {
    var q := if w == Signed64 then (x + 0x8000_0000_0000_0000) / Size(w) else x / Size(w);
    assert x - Wrap(w, x) == Size(w) * q;
  }

  lemma Multiple64(y: int, k: int)
    ensures (y - 0x1_0000_0000_0000_0000 * k) % 0x1_0000_0000_0000_0000 == y % 0x1_0000_0000_0000_0000
  {
  }

  lemma Multiple16(y: int, k: int)
    ensures (y - 0x1_0000 * k) % 0x1_0000 == y % 0x1_0000
  {
  }

  /** Wrapping after every digit is the same as wrapping once at the end. */
  lemma WrapStep(w: Width, x: int, d: int)
    ensures Wrap(w, Wrap(w, x) * 10 + d) == Wrap(w, x * 10 + d)
  {
    match w
    case Signed64 => SignedStep(x, d);
    case Unsigned64 => UnsignedStep(x, d);
    case Unsigned16 => ShortStep(x, d);
  }

  lemma SignedStep(x: int, d: int)
    ensures Wrap(Signed64, Wrap(Signed64, x) * 10 + d) == Wrap(Signed64, x * 10 + d)
  {
    var q := (x + 0x8000_0000_0000_0000) / 0x1_0000_0000_0000_0000;
    assert Wrap(Signed64, x) == x - 0x1_0000_0000_0000_0000 * q;
    Multiple64(x * 10 + d + 0x8000_0000_0000_0000, 10 * q);
  }

  lemma UnsignedStep(x: int, d: int)
    ensures Wrap(Unsigned64, Wrap(Unsigned64, x) * 10 + d) == Wrap(Unsigned64, x * 10 + d)
  {
    var q := x / 0x1_0000_0000_0000_0000;
    assert Wrap(Unsigned64, x) == x - 0x1_0000_0000_0000_0000 * q;
    Multiple64(x * 10 + d, 10 * q);
  }

  lemma ShortStep(x: int, d: int)
    ensures Wrap(Unsigned16, Wrap(Unsigned16, x) * 10 + d) == Wrap(Unsigned16, x * 10 + d)
  {
    var q := x / 0x1_0000;
    assert Wrap(Unsigned16, x) == x - 0x1_0000 * q;
    Multiple16(x * 10 + d, 10 * q);
  }

  /** The C++ remainder: its sign is that of the dividend. */
  function Remainder(a: int, b: int): int
    requires b > 0
  {
    if a >= 0 then a % b else -((-a) % b)
  }

  // ----- the pieces of a line -----

  function SkipTabs(s: string): string {
    if s != "" && s[0] == '\t' then SkipTabs(s[1..]) else s
  }

  function AfterField(s: string): string { SkipTabs(s[Span(s, '\t')..]) }

  /** Digits, a point, more digits up to the stop character, in exact arithmetic. */
  function Decimal(s: string, stop: char): real {
    Value(UpTo(s, '.')) as real + Fraction(UpTo(After(s, '.'), stop))
  }

  function AfterDecimal(s: string, stop: char): string { After(After(s, '.'), stop) }

  /** The loop over the time slots: '0' and '1' are counted, everything else is skipped. */
  function Flags(s: string, k: bv6, mask: bv32): (bv32, string)
    decreases |s|
  {
    if s == "" || k >= 24 then (mask, s)
    else if s[0] == '0' then Flags(s[1..], k + 1, mask)
    else if s[0] == '1' then Flags(s[1..], k + 1, mask | (1 << k))
    else Flags(s[1..], k, mask)
  }

  function KeywordOf(line: string): int64 {
    WrapFits(Signed64, Value(UpTo(line, '\t')));
    Wrap(Signed64, Value(UpTo(line, '\t')))
  }

  function StatusOn(line: string): string { AfterField(AfterField(AfterField(line))) }

  /** The column after the price is not '0'. */
  predicate Offered(line: string) {
    !(StatusOn(line) != "" && StatusOn(line)[0] == '0')
  }

  function TimingsOn(line: string): string { SkipTabs(Tail(StatusOn(line))) }

  function VectorOn(line: string): string { SkipTabs(Flags(TimingsOn(line), 0, 0).1) }

  /** The fields of a line: the integers wrapped to their widths, the decimals exact. */
  function RowOf(line: string): RawData {
    var ad, pr := AfterField(line), AfterField(AfterField(line));
    var adgroup, price := Value(UpTo(ad, '\t')), Value(UpTo(pr, '\t'));
    var vec := VectorOn(line);
    WrapFits(Unsigned64, adgroup);
    WrapFits(Unsigned16, price);
    RawData(KeywordOf(line), Wrap(Unsigned64, adgroup), Wrap(Unsigned16, price),
            Flags(TimingsOn(line), 0, 0).0,
            Decimal(vec, ','), Decimal(AfterDecimal(vec, ','), '\t'))
  }

  /** The node holds this keyword. */
  predicate Mine(o: Options, keyword: int)
    requires o.Valid()
  {
    Remainder(keyword, o.nodeNum) == o.nodeId
  }

  // ----- the parser -----

  /** The digit loop of the integer columns and the tab loop after it. */
  method NumberField(line: string, from: nat, w: Width) returns (x: int, i: nat)
    requires from <= |line|
    ensures x == Wrap(w, Value(UpTo(line[from..], '\t')))
    ensures i <= |line| && line[i..] == AfterField(line[from..])
  {
    x, i := 0, from;
    while i < |line| && line[i] != '\t'
      invariant from <= i <= |line| && forall k :: from <= k < i ==> line[k] != '\t'
      invariant x == Wrap(w, Value(line[from..i]))
    {
      ValueStep(line, from, i);
      WrapStep(w, Value(line[from..i]), line[i] as int - '0' as int);
      x := Wrap(w, x * 10 + (line[i] as int - '0' as int));
      i := i + 1;
    }
    SpanAt(line, from, i, '\t');
    i := PastTabs(line, i);
  }

  method PastTabs(line: string, from: nat) returns (i: nat)
    requires from <= |line|
    ensures i <= |line| && line[i..] == SkipTabs(line[from..])
  {
    i := from;
    while i < |line| && line[i] == '\t'
      invariant i <= |line| && SkipTabs(line[i..]) == SkipTabs(line[from..])
    {
      assert line[i..][1..] == line[i + 1..];
      i := i + 1;
    }
  }

  function Rest(line: string, i: nat): string { if i <= |line| then line[i..] else "" }

  /** The loop up to the decimal point and the step past it; the step may leave the line, and
      then the loops that follow do nothing. */
  method WholePart(line: string, from: nat) returns (x: real, i: nat)
    ensures x == Value(UpTo(Rest(line, from), '.')) as real
    ensures Rest(line, i) == After(Rest(line, from), '.')
  {
    hide Span;
    if from > |line| { return 0.0, from + 1; }
    x, i := 0.0, from;
    while i < |line| && line[i] != '.'
      invariant from <= i <= |line| && forall k :: from <= k < i ==> line[k] != '.'
      invariant x == Value(line[from..i]) as real
    {
      ValueStep(line, from, i);
      x := x * 10.0 + (line[i] as int - '0' as int) as real;
      i := i + 1;
    }
    SpanAt(line, from, i, '.');
    i := i + 1;
  }

  /** The loop over the decimals and the step past its stop character. */
  method FractionPart(line: string, from: nat, stop: char, whole: real) returns (x: real, i: nat)
    ensures x == whole + Fraction(UpTo(Rest(line, from), stop))
    ensures Rest(line, i) == After(Rest(line, from), stop)
  {
    hide Span, Weighted;
    if from > |line| { return whole, from + 1; }
    x, i := whole, from;
    var decimal := 0.1;
    while i < |line| && line[i] != stop
      invariant from <= i <= |line| && forall k :: from <= k < i ==> line[k] != stop
      invariant x == whole + Fraction(line[from..i])
      invariant decimal == Place(i - from + 1)
    {
      FractionStep(line, from, i);
      x := x + Weighted(line[i], decimal);
      decimal := decimal * 0.1;
      i := i + 1;
    }
    SpanAt(line, from, i, stop);
    i := i + 1;
  }

  method FlagsField(line: string, from: nat) returns (mask: bv32, i: nat)
    requires from <= |line|
    ensures i <= |line| && (mask, line[i..]) == Flags(line[from..], 0, 0)
  {
    mask, i := 0, from;
    var k: bv6 := 0;
    while i < |line|
      invariant i <= |line| && k <= 24
      invariant Flags(line[i..], k, mask) == Flags(line[from..], 0, 0)
    {
      if k >= 24 { break; }
      assert line[i..][1..] == line[i + 1..];
      if line[i] == '0' {
        k := k + 1;
      } else if line[i] == '1' {
        mask := mask | (1 << k);
        k := k + 1;
      }
      i := i + 1;
    }
  }

  method Timings(line: string, from: nat) returns (mask: bv32, i: nat)
    ensures mask == Flags(SkipTabs(Rest(line, from)), 0, 0).0
    ensures Rest(line, i) == SkipTabs(Flags(SkipTabs(Rest(line, from)), 0, 0).1)
  {
    mask, i := 0, from;
    if i <= |line| {
      i := PastTabs(line, i);
      mask, i := FlagsField(line, i);
      i := PastTabs(line, i);
    }
  }

  method DecimalField(line: string, from: nat, stop: char) returns (x: real, i: nat)
    ensures x == Decimal(Rest(line, from), stop)
    ensures Rest(line, i) == AfterDecimal(Rest(line, from), stop)
  {
    x, i := WholePart(line, from);
    x, i := FractionPart(line, i, stop, x);
  }

  /** The part of the parser after the status character. */
  method TimingsAndVector(line: string, from: nat) returns (mask: bv32, vec1: real, vec2: real)
    ensures mask == Flags(SkipTabs(Rest(line, from)), 0, 0).0
    ensures var vec := SkipTabs(Flags(SkipTabs(Rest(line, from)), 0, 0).1);
            vec1 == Decimal(vec, ',') && vec2 == Decimal(AfterDecimal(vec, ','), '\t')
  {
    var i := from;
    mask, i := Timings(line, i);
    vec1, i := DecimalField(line, i, ',');
    vec2, i := DecimalField(line, i, '\t');
  }

  /** Parses a line into `data`, which keeps its old contents in the fields not reached.
      False means that another node holds the keyword or that the status is 0. */
  method ParserRawData(option: Options, line: string, old': RawData) returns (ok: bool, data: RawData)
    requires option.Valid()
    ensures ok <==> Mine(option, KeywordOf(line)) && Offered(line)
    ensures ok ==> data == RowOf(line)
  {
    data := old';
    assert line[0..] == line;
    WrapFits(Signed64, Value(UpTo(line, '\t')));
    var x, i := NumberField(line, 0, Signed64);
    data := data.(keyword := x);
    assert line[i..] == AfterField(line);
    if Remainder(data.keyword, option.nodeNum) != option.nodeId { return false, data; }

    WrapFits(Unsigned64, Value(UpTo(line[i..], '\t')));
    x, i := NumberField(line, i, Unsigned64);
    data := data.(adgroupId := x);
    assert line[i..] == AfterField(AfterField(line));

    WrapFits(Unsigned16, Value(UpTo(line[i..], '\t')));
    x, i := NumberField(line, i, Unsigned16);
    data := data.(price := x);
    assert line[i..] == StatusOn(line);

    if i < |line| && line[i] == '0' { return false, data; }
    assert Rest(line, i + 1) == Tail(line[i..]);
    var mask, vec1, vec2 := TimingsAndVector(line, i + 1);
    data := data.(timingsMask := mask, itemVec1 := vec1, itemVec2 := vec2);
    ok := true;
  }
}
