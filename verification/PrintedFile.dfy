/** What a search means for the ads of a data file, from the text of the file to the answer. */
module PrintedFile {
  import opened Billing
  import opened Bits
  import opened Decimals
  import opened Integers
  import opened KeywordIndex
  import opened Ranking
  import opened Recall
  import opened RowParser
  import opened RowPrinting
  import opened SearchService
  import opened Shards
  import opened Texts
  import opened TwoNodes

  predicate AllWellFormed(ads: seq<Ad>) { forall i :: 0 <= i < |ads| ==> WellFormed(ads[i]) }

  /** The data file, line by line. */
  function PrintAll(ads: seq<Ad>): (lines: seq<string>)
    requires AllWellFormed(ads)
    ensures |lines| == |ads| && forall i :: 0 <= i < |ads| ==> lines[i] == Print(ads[i])
  {
    seq(|ads|, i requires 0 <= i < |ads| => Print(ads[i]))
  }

  /** A row may be shown at exactly the hours that its ad lists as 1. */
  lemma TimelyPrinted(ad: Ad, hour: nat)
    requires WellFormed(ad) && hour < 32
    ensures Timely(RowOf(Print(ad)), hour) <==> hour < 24 && ad.timings[hour]
  {
    hide RowOf, Print, Bit;
    PrintedRowRestored(ad);
    RoundTrip(hour);
  }

  /** A row is found under exactly the keyword of its ad. */
  lemma KeyPrinted(ad: Ad)
    requires WellFormed(ad)
    ensures Key(RowOf(Print(ad))) == ad.keyword
  {
    hide RowOf, Print;
    PrintedRowRestored(ad);
  }

  /** A node keeps the rows that are on offer and whose keyword modulo the number of nodes is its
      id, up to 2^63; from there on only the even ones, if there are two nodes. */
  lemma KeepsPrinted(o: Options, ad: Ad)
    requires WellFormed(ad) && Serving(o)
    ensures Keeps(o, Print(ad)) <==>
      ad.status != '0' && ad.keyword % o.nodeNum == o.nodeId && (ad.keyword < 0x8000_0000_0000_0000 || o.nodeId == 0)
  {
    hide RowOf, Print, Offered;
    PrintedRowRestored(ad);
    KeywordOfRow(Print(ad));
    SignedRemainder(o, ad.keyword);
  }

  lemma KeywordOfRow(line: string)
    ensures RowOf(line).keyword == KeywordOf(line)
  {
  }

  lemma SignedRemainder(o: Options, k: uint64)
    requires Serving(o)
    ensures var signed := if k < 0x8000_0000_0000_0000 then k else k - 0x1_0000_0000_0000_0000;
      Mine(o, signed) <==> k % o.nodeNum == o.nodeId && (k < 0x8000_0000_0000_0000 || o.nodeId == 0)
  {
  }

  lemma {:induction false} LoadedMembers(o: Options, lines: seq<string>, r: RawData)
    requires o.Valid()
    ensures r in Loaded(o, lines) <==> exists i :: 0 <= i < |lines| && Keeps(o, lines[i]) && r == RowOf(lines[i])
  {
    hide Keeps, RowOf;
    if lines != [] {
      var n := |lines| - 1;
      LoadedMembers(o, lines[..n], r);
      assert forall i :: 0 <= i < n ==> lines[..n][i] == lines[i];
    }
  }

  function OfferOfAd(ctr: CtrModel, ad: Ad, c: Context): Offer
    requires WellFormed(ad)
  {
    Offer(ad.adgroupId, ad.price, ctr(RowOf(Print(ad)), c) * ad.price as real)
  }

  predicate Matches(ad: Ad, q: Request)
    requires WellFormed(ad)
  {
    ad.status != '0' && ad.keyword in q.keywords && q.hour < 24 && ad.timings[q.hour]
  }

  /** The offers of the ads of a file that match a request. */
  ghost function OffersOfAds(ctr: CtrModel, ads: seq<Ad>, q: Request): set<Offer>
    requires AllWellFormed(ads)
  {
    set i | 0 <= i < |ads| && Matches(ads[i], q) :: OfferOfAd(ctr, ads[i], q.context)
  }

  lemma RowMatches(ctr: CtrModel, ad: Ad, q: Request)
    requires WellFormed(ad) && q.Valid()
    ensures var r := RowOf(Print(ad));
      Keeps(Whole(), Print(ad)) && Key(r) in q.keywords && Timely(r, q.hour) <==> Matches(ad, q)
    ensures OfferOf(ctr, RowOf(Print(ad)), q.context) == OfferOfAd(ctr, ad, q.context)
  {
    hide RowOf, Print, Keeps, Timely, Key;
    PrintedRowRestored(ad);
    TimelyPrinted(ad, q.hour);
    KeyPrinted(ad);
    KeepsPrinted(Whole(), ad);
  }

  /** A server with the whole file recalls exactly the offers of its ads that are on offer, have
      a requested keyword and may be shown at the hour. */
  lemma RecalledOfPrinted(ctr: CtrModel, ads: seq<Ad>, q: Request)
    requires AllWellFormed(ads) && q.Valid()
    ensures Recalled(ctr, Loaded(Whole(), PrintAll(ads)), q) == OffersOfAds(ctr, ads, q)
  {
    hide RowOf, Print, Keeps, Timely, Key, Matches, Loaded, WellFormed;
    var lines := PrintAll(ads);
    var a, b := Recalled(ctr, Loaded(Whole(), lines), q), OffersOfAds(ctr, ads, q);
    forall o | o in a ensures o in b {
      var r :| r in Loaded(Whole(), lines) && Key(r) in q.keywords && Timely(r, q.hour) &&
        OfferOf(ctr, r, q.context) == o;
      LoadedMembers(Whole(), lines, r);
      var i :| 0 <= i < |lines| && Keeps(Whole(), lines[i]) && r == RowOf(lines[i]);
      RowMatches(ctr, ads[i], q);
    }
    forall o | o in b ensures o in a {
      var i :| 0 <= i < |ads| && Matches(ads[i], q) && OfferOfAd(ctr, ads[i], q.context) == o;
      RowMatches(ctr, ads[i], q);
      var r := RowOf(lines[i]);
      LoadedMembers(Whole(), lines, r);
    }
  }

  /** The lines that neither node loads are those of ads with an odd keyword from 2^63 on. */
  lemma UnroutablePrinted(ad: Ad)
    requires WellFormed(ad)
    ensures Unroutable(Print(ad)) <==> ad.status != '0' && 0x8000_0000_0000_0000 <= ad.keyword && ad.keyword % 2 == 1
  {
    hide RowOf, Print, Offered;
    PrintedRowRestored(ad);
    UnsignedKeyword(Print(ad), ad.keyword);
  }

  /** From the text of a data file to the answer: the two nodes, and one server, rank and bill
      exactly the best offers of the ads that match the request. */
  method AnswersForAds(ads: seq<Ad>, ctr: CtrModel, q: Request) returns (sharded: Response, whole: Response)
    requires AllWellFormed(ads) && |ads| < TOTAL_DATA_NUM
    requires forall i :: 0 <= i < |ads| ==> ads[i].keyword < 0x8000_0000_0000_0000 || ads[i].keyword % 2 == 0
    requires q.Valid() && 0 < q.topn && exists i :: 0 <= i < |ads| && Matches(ads[i], q)
    ensures sharded == whole == Answer(Ranked(OffersOfAds(ctr, ads, q)), q.topn)
  {
    hide Answer, Recalled, Loaded, Print, WellFormed, Unroutable;
    var lines := PrintAll(ads);
    RecalledOfPrinted(ctr, ads, q);
    ghost var i :| 0 <= i < |ads| && Matches(ads[i], q);
    assert OfferOfAd(ctr, ads[i], q.context) in OffersOfAds(ctr, ads, q);
    NoMoreRows(Whole(), lines);
    forall k | 0 <= k < |lines| ensures !Unroutable(lines[k]) { UnroutablePrinted(ads[k]); }
    sharded, whole := ShardedLikeWhole(lines, ctr, q);
  }

  lemma {:induction false} NoMoreRows(o: Options, lines: seq<string>)
    requires o.Valid()
    ensures |Loaded(o, lines)| <= |lines|
  {
    if lines != [] { NoMoreRows(o, lines[..|lines| - 1]); }
  }
}
