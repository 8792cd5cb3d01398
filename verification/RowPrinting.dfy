/** Parsing undoes printing: every well-formed data row is restored field by field. */
module RowPrinting {
  import opened Bits
  import opened Decimals
  import opened RowParser
  import opened Texts

  /** whole.decimals, a decimal numeral of the vector column */
  datatype Numeral = Numeral(whole: nat, decimals: string) {
    function Real(): real { whole as real + Fraction(decimals) }
  }

  /** The columns of a row, and how they are written: between two columns a tab and some more
      tabs, between two time slots any text without 0 and 1. */
  datatype Ad = Ad(keyword: nat, adgroupId: nat, price: nat, status: char, timings: seq<bool>,
                   vec1: Numeral, vec2: Numeral, otherColumns: string, moreTabs: seq<nat>, between: string)

  /** The ranges of the documented columns; campaign and item id may follow the vector. */
  predicate WellFormed(ad: Ad) {
    && ad.keyword < 0x1_0000_0000_0000_0000
    && ad.adgroupId < 0x1_0000_0000_0000_0000
    && ad.price < 0x1_0000
    && ad.status != '\t'
    && |ad.timings| == 24
    && AllDigits(ad.vec1.decimals)
    && AllDigits(ad.vec2.decimals)
    && (ad.otherColumns != "" ==> ad.otherColumns[0] == '\t')
    && |ad.moreTabs| == 5
    && '0' !in ad.between && '1' !in ad.between
  }

  function Tabs(more: nat): string { if more == 0 then "\t" else "\t" + Tabs(more - 1) }

  function PrintFlag(b: bool): string { if b then "1" else "0" }

  function PrintFlags(flags: seq<bool>, between: string): string {
    if |flags| == 0 then ""
    else if |flags| == 1 then PrintFlag(flags[0])
    else PrintFlag(flags[0]) + (between + PrintFlags(flags[1..], between))
  }

  function PrintVector(ad: Ad): string {
    Digits(ad.vec1.whole) + ("." + (ad.vec1.decimals + ("," +
      (Digits(ad.vec2.whole) + ("." + (ad.vec2.decimals + ad.otherColumns))))))
  }

  function PrintTimings(ad: Ad): string
    requires |ad.moreTabs| == 5
  {
    PrintFlags(ad.timings, ad.between) + (Tabs(ad.moreTabs[4]) + PrintVector(ad))
  }

  function Print(ad: Ad): string
    requires |ad.moreTabs| == 5
  {
    Digits(ad.keyword) + (Tabs(ad.moreTabs[0]) + (Digits(ad.adgroupId) + (Tabs(ad.moreTabs[1]) +
      (Digits(ad.price) + (Tabs(ad.moreTabs[2]) + ([ad.status] + (Tabs(ad.moreTabs[3]) + PrintTimings(ad))))))))
  }

  // ----- undoing the pieces -----

  lemma {:induction false} TabsSkipped(more: nat, rest: string)
    requires rest != "" && rest[0] != '\t'
    ensures (Tabs(more) + rest)[0] == '\t' && SkipTabs(Tabs(more) + rest) == rest
  {
    if more > 0 {
      TabsSkipped(more - 1, rest);
      assert (Tabs(more) + rest)[1..] == Tabs(more - 1) + rest;
    } else {
      assert (Tabs(0) + rest)[1..] == rest;
    }
  }

  lemma Column(f: string, more: nat, rest: string)
    requires forall i :: 0 <= i < |f| ==> f[i] != '\t'
    requires rest != "" && rest[0] != '\t'
    ensures UpTo(f + (Tabs(more) + rest), '\t') == f
    ensures AfterField(f + (Tabs(more) + rest)) == rest
  {
    TabsSkipped(more, rest);
    var s := f + (Tabs(more) + rest);
    assert s[|f|] == (Tabs(more) + rest)[0];
    SpanIs(s, '\t', |f|);
    assert s[..|f|] == f && s[|f|..] == Tabs(more) + rest;
  }

  lemma {:induction false} BetweenSkipped(between: string, rest: string, k: bv6, mask: bv32)
    requires '0' !in between && '1' !in between && k < 24
    ensures Flags(between + rest, k, mask) == Flags(rest, k, mask)
  {
    if between == "" {
      assert between + rest == rest;
    } else {
      assert (between + rest)[1..] == between[1..] + rest;
      BetweenSkipped(between[1..], rest, k, mask);
    }
  }

  /** The flag loop consumes exactly the printed flags and records each in its bit. */
  lemma {:induction false} FlagsOfPrinted(flags: seq<bool>, between: string, rest: string, k: bv6, mask: bv32)
    requires k < 24 && |flags| == 24 - k as int && '0' !in between && '1' !in between
    ensures Flags(PrintFlags(flags, between) + rest, k, mask).1 == rest
    ensures forall j: bv6 ::
      Bit(Flags(PrintFlags(flags, between) + rest, k, mask).0, j) <==> FlagAt(flags, k as int, j as int) || Bit(mask, j)
    decreases |flags|
  {
    hide Bit, FlagAt;
    var s := PrintFlags(flags, between) + rest;
    var mask' := if flags[0] then mask | (1 << k) else mask;
    Successor(k);
    if k == 23 {
      NoFlags(flags[1..]);
      assert s[1..] == rest;
      assert Flags(s, k, mask) == Flags(rest, 24, mask') == (mask', rest);
    } else {
      var tail := PrintFlags(flags[1..], between) + rest;
      FirstOfFlags(flags, between, rest);
      BetweenSkipped(between, tail, k + 1, mask');
      FlagsOfPrinted(flags[1..], between, rest, k + 1, mask');
      assert Flags(s, k, mask) == Flags(tail, k + 1, mask');
    }
    forall j: bv6 ensures Bit(Flags(s, k, mask).0, j) <==> FlagAt(flags, k as int, j as int) || Bit(mask, j) {
      FirstFlag(flags, k, mask, j);
    }
  }

  lemma FirstOfFlags(flags: seq<bool>, between: string, rest: string)
    requires |flags| > 1
    ensures var s := PrintFlags(flags, between) + rest;
      s[0] == PrintFlag(flags[0])[0] && s[1..] == between + (PrintFlags(flags[1..], between) + rest)
  {
  }

  lemma NoFlags(flags: seq<bool>)
    requires flags == []
    ensures forall k: int, j: int :: !FlagAt(flags, k, j)
  {
  }

  /** Of flags from k on, the first sets bit k, and the others the bits that they list. */
  lemma FirstFlag(flags: seq<bool>, k: bv6, mask: bv32, j: bv6)
    requires k < 32 && |flags| > 0
    ensures FlagAt(flags, k as int, j as int) || Bit(mask, j) <==>
      FlagAt(flags[1..], k as int + 1, j as int) || Bit(if flags[0] then mask | (1 << k) else mask, j)
  {
    hide Bit;
    SetBit(mask, k, j);
    AsInt(k, j);
    FlagAtStep(flags, k as int, j as int);
  }

  /** The slot j is among those from k on that `flags` lists, and is listed as 1. */
  predicate FlagAt(flags: seq<bool>, k: int, j: int) {
    0 <= j - k < |flags| && flags[j - k]
  }

  lemma FlagAtStep(flags: seq<bool>, k: int, j: int)
    requires |flags| > 0
    ensures FlagAt(flags, k, j) <==> (j == k && flags[0]) || FlagAt(flags[1..], k + 1, j)
  {
  }

  lemma DecimalOfPrinted(n: Numeral, stop: char, rest: string)
    requires AllDigits(n.decimals) && !('0' <= stop <= '9') && (rest == "" || rest[0] == stop)
    ensures Decimal(Digits(n.whole) + ("." + (n.decimals + rest)), stop) == n.Real()
    ensures AfterDecimal(Digits(n.whole) + ("." + (n.decimals + rest)), stop) == Tail(rest)
  {
    var tail := n.decimals + rest;
    BeforeStop(Digits(n.whole), '.', tail);
    ValueOfDigits(n.whole);
    SpanIs(tail, stop, |n.decimals|);
    assert tail[..|n.decimals|] == n.decimals && tail[|n.decimals|..] == rest;
  }

  lemma VectorOfPrinted(ad: Ad)
    requires WellFormed(ad)
    ensures Decimal(PrintVector(ad), ',') == ad.vec1.Real()
    ensures Decimal(AfterDecimal(PrintVector(ad), ','), '\t') == ad.vec2.Real()
  {
    var second := Digits(ad.vec2.whole) + ("." + (ad.vec2.decimals + ad.otherColumns));
    DecimalOfPrinted(ad.vec1, ',', "," + second);
    assert Tail("," + second) == second;
    DecimalOfPrinted(ad.vec2, '\t', ad.otherColumns);
  }

  lemma TimingsOfPrinted(ad: Ad)
    requires WellFormed(ad)
    ensures var (mask, rest) := Flags(PrintTimings(ad), 0, 0);
            && SkipTabs(rest) == PrintVector(ad)
            && (forall j :: 0 <= j < 24 ==> (Bit(mask, j as bv6) <==> ad.timings[j]))
            && (forall j: bv6 :: Bit(mask, j) ==> j as int < 24)
  {
    FlagsOfPrinted(ad.timings, ad.between, Tabs(ad.moreTabs[4]) + PrintVector(ad), 0, 0);
    forall j | 0 <= j < 24 ensures FlagAt(ad.timings, 0, (j as bv6) as int) == ad.timings[j] {
      RoundTrip(j);
    }
    TabsSkipped(ad.moreTabs[4], PrintVector(ad));
  }

  /** Parsing undoes printing: all fields come back (a keyword from 2^63 on as the negative
      number of the same 64 bits), mask bit k is set exactly when flag k is 1, and the row is on
      offer exactly when its status is not 0. */
  lemma PrintedRowRestored(ad: Ad)
    requires WellFormed(ad)
    ensures Offered(Print(ad)) <==> ad.status != '0'
    ensures UpTo(Print(ad), '\t') == Digits(ad.keyword)
    ensures var r := RowOf(Print(ad));
      && r.keyword == (if ad.keyword < 0x8000_0000_0000_0000 then ad.keyword else ad.keyword - 0x1_0000_0000_0000_0000)
      && r.adgroupId == ad.adgroupId && r.price == ad.price
      && r.itemVec1 == ad.vec1.Real() && r.itemVec2 == ad.vec2.Real()
      && (forall j :: 0 <= j < 24 ==> (Bit(r.timingsMask, j as bv6) <==> ad.timings[j]))
      && (forall j: bv6 :: Bit(r.timingsMask, j) ==> j as int < 24)
  {
    hide Flags, Decimal, AfterDecimal, PrintTimings, PrintVector, Value, Span, Print, AfterField, UpTo, Digits;
    ColumnsOfPrinted(ad);
    ValueOfDigits(ad.keyword);
    ValueOfDigits(ad.adgroupId);
    ValueOfDigits(ad.price);
    WrapFits(Unsigned64, ad.adgroupId);
    WrapFits(Unsigned16, ad.price);
    TimingsOfPrinted(ad);
    VectorOfPrinted(ad);
  }

  lemma ColumnsOfPrinted(ad: Ad)
    requires WellFormed(ad)
    ensures var line := Print(ad);
      && UpTo(line, '\t') == Digits(ad.keyword)
      && UpTo(AfterField(line), '\t') == Digits(ad.adgroupId)
      && UpTo(AfterField(AfterField(line)), '\t') == Digits(ad.price)
      && (Offered(line) <==> ad.status != '0') && TimingsOn(line) == PrintTimings(ad)
  {
    hide Flags, PrintTimings, UpTo, AfterField, Tabs, SkipTabs;
    var timings := Tabs(ad.moreTabs[3]) + PrintTimings(ad);
    var status := [ad.status] + timings;
    var price := Digits(ad.price) + (Tabs(ad.moreTabs[2]) + status);
    var adgroup := Digits(ad.adgroupId) + (Tabs(ad.moreTabs[1]) + price);
    Column(Digits(ad.keyword), ad.moreTabs[0], adgroup);
    Column(Digits(ad.adgroupId), ad.moreTabs[1], price);
    Column(Digits(ad.price), ad.moreTabs[2], status);
    assert StatusOn(Print(ad)) == status;
    assert Tail(status) == timings;
    FirstTiming(ad);
    TabsSkipped(ad.moreTabs[3], PrintTimings(ad));
  }

  lemma FirstTiming(ad: Ad)
    requires WellFormed(ad)
    ensures PrintTimings(ad) != "" && PrintTimings(ad)[0] != '\t'
  {
  }
}
