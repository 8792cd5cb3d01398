/** Which rows of the data file each node loads. */
module Shards {
  import opened Decimals
  import opened Integers
  import opened RowParser
  import opened RowPrinting
  import opened Texts

  predicate Keeps(o: Options, line: string)
    requires o.Valid()
  {
    Mine(o, KeywordOf(line)) && Offered(line)
  }

  /** The rows a node holds after reading the lines, in file order. */
  function Loaded(o: Options, lines: seq<string>): seq<RawData>
    requires o.Valid()
  {
    if lines == [] then [] else
      var last := lines[|lines| - 1];
      Loaded(o, lines[..|lines| - 1]) + (if Keeps(o, last) then [RowOf(last)] else [])
  }

  /** One of the two serving nodes. */
  function Node(id: nat): Options { Options(id, 2) }

  /** A single server that holds everything. */
  function Whole(): Options { Options(0, 1) }

  /** The remainder of a negative odd keyword is -1, which is no node's id. */
  predicate Unroutable(line: string) {
    Offered(line) && KeywordOf(line) < 0 && KeywordOf(line) % 2 == 1
  }

  function Lost(lines: seq<string>): seq<RawData> {
    if lines == [] then [] else
      var last := lines[|lines| - 1];
      Lost(lines[..|lines| - 1]) + (if Unroutable(last) then [RowOf(last)] else [])
  }

  lemma {:induction false} TwoNodesHold(lines: seq<string>)
    ensures multiset(Loaded(Whole(), lines))
         == multiset(Loaded(Node(0), lines)) + multiset(Loaded(Node(1), lines)) + multiset(Lost(lines))
  {
    hide Keeps, Unroutable, RowOf;
    if lines != [] {
      TwoNodesHold(lines[..|lines| - 1]);
      OneNodeKeeps(lines[|lines| - 1]);
    }
  }

  /** A row on offer is kept by exactly one node, or has an unroutable keyword. */
  lemma OneNodeKeeps(line: string)
    ensures Node(0).Valid() && Node(1).Valid() && Whole().Valid()
    ensures Keeps(Whole(), line) <==> Keeps(Node(0), line) || Keeps(Node(1), line) || Unroutable(line)
    ensures !(Keeps(Node(0), line) && Keeps(Node(1), line))
    ensures Unroutable(line) ==> !Keeps(Node(0), line) && !Keeps(Node(1), line)
  {
  }

  lemma {:induction false} NothingLost(lines: seq<string>)
    ensures Lost(lines) == [] <==> forall i :: 0 <= i < |lines| ==> !Unroutable(lines[i])
  {
    if lines != [] {
      var init := lines[..|lines| - 1];
      NothingLost(init);
      assert forall i :: 0 <= i < |init| ==> init[i] == lines[i];
    }
  }

  /** The two nodes' rows partition the rows on offer, with multiplicity, exactly when no line
      on offer has a negative odd keyword. */
  lemma ShardsPartition(lines: seq<string>)
    ensures multiset(Loaded(Whole(), lines)) == multiset(Loaded(Node(0), lines)) + multiset(Loaded(Node(1), lines))
       <==> forall i :: 0 <= i < |lines| ==> !Unroutable(lines[i])
  {
    hide Loaded, Lost, Unroutable;
    TwoNodesHold(lines);
    NothingLost(lines);
    NothingMore(multiset(Loaded(Node(0), lines)) + multiset(Loaded(Node(1), lines)), Lost(lines));
  }

  lemma NothingMore<T>(a: multiset<T>, c: seq<T>)
    ensures a + multiset(c) == a <==> c == []
  {
    if c != [] { assert (a + multiset(c))[c[0]] > a[c[0]]; }
  }

  /** A row on a node has a keyword of that node; no keyword is on both. */
  lemma {:induction false} LoadedAreMine(o: Options, lines: seq<string>)
    requires o.Valid()
    ensures forall r :: r in Loaded(o, lines) ==> Mine(o, r.keyword)
  {
    if lines != [] { LoadedAreMine(o, lines[..|lines| - 1]); }
  }

  /** The documented keywords are unsigned 64-bit numbers, but the field is signed: of those,
      exactly the odd ones from 2^63 on become unroutable. */
  lemma UnsignedKeyword(line: string, k: uint64)
    requires UpTo(line, '\t') == Digits(k)
    ensures Unroutable(line) <==> Offered(line) && 0x8000_0000_0000_0000 <= k && k % 2 == 1
  {
    hide Offered, Digits, Value, UpTo;
    ValueOfDigits(k);
  }

  /** Some line on offer has the keyword k. */
  lemma LineOnOffer(k: uint64) returns (line: string)
    ensures UpTo(line, '\t') == Digits(k) && Offered(line)
  {
    hide Digits, UpTo, AfterField, Tabs;
    var price := Digits(5) + (Tabs(0) + "1");
    var adgroup := Digits(7) + (Tabs(0) + price);
    line := Digits(k) + (Tabs(0) + adgroup);
    Column(Digits(k), 0, adgroup);
    Column(Digits(7), 0, price);
    Column(Digits(5), 0, "1");
    assert StatusOn(line) == "1";
  }

  /** A row on offer that neither node loads. */
  lemma LostRow() returns (line: string)
    ensures UpTo(line, '\t') == Digits(0x8000_0000_0000_0001)
    ensures Keeps(Whole(), line) && !Keeps(Node(0), line) && !Keeps(Node(1), line)
  {
    hide Digits, Keeps, Unroutable, Offered, UpTo;
    line := LineOnOffer(0x8000_0000_0000_0001);
    UnsignedKeyword(line, 0x8000_0000_0000_0001);
    OneNodeKeeps(line);
  }
}
