/** The search server of one node, and the service that two of them make up. */
module SearchService {
  import opened Billing
  import opened Integers
  import opened KeywordIndex
  import opened Ranking
  import opened Recall
  import opened RowParser
  import opened SearchResults
  import opened Shards
  import opened Sorting

  const TOTAL_DATA_NUM := 300_000_000

  /** What InernalSearch replies with: the results, column by column. */
  datatype SearchResponse =
    SearchResponse(adgroupIds: seq<uint64>, prices: seq<uint64>, ctrs: seq<real>, scores: seq<real>)

  /** Two nodes, or one server that holds everything. */
  ghost predicate Serving(o: Options) { 1 <= o.nodeNum <= 2 && o.nodeId < o.nodeNum }

  lemma KeywordOrder()
    ensures StrictWeakOrder(ByKeyword)
  {
  }

  lemma ResultOrder()
    ensures StrictWeakOrder(SortCmp)
  {
  }

  /** The node test on an unsigned request keyword never skips a row the node has loaded. */
  lemma KeyOnNode(o: Options, r: RawData)
    requires Serving(o) && Mine(o, r.keyword)
    ensures Key(r) % o.nodeNum == o.nodeId
  {
  }

  class SearchServiceImpl {
    const options: Options
    const ctr: CtrModel
    var rawDatas: array<RawData>
    var dataNum: nat
    var indexs: Index

    ghost predicate Loading()
      reads this
    {
      Serving(options) && dataNum <= rawDatas.Length
    }

    function Rows(): seq<RawData>
      requires dataNum <= rawDatas.Length
      reads this, rawDatas
    {
      rawDatas[..dataNum]
    }

    /** All rows belong to this node, and the index finds them. */
    ghost predicate Valid()
      reads this, rawDatas
    {
      Loading() && Indexed(Rows(), indexs) && forall r :: r in Rows() ==> Mine(options, r.keyword)
    }

    constructor (options: Options, ctr: CtrModel)
      requires Serving(options)
      ensures this.options == options && this.ctr == ctr && Loading() && dataNum == 0 && indexs == map[]
    {
      this.options, this.ctr := options, ctr;
      rawDatas := new RawData[0];
      dataNum, indexs := 0, map[];
    }

    /** Loads the data file, sorts it by keyword and indexes the runs of equal keywords. */
    method Init(lines: seq<string>)
      requires Loading() && dataNum == 0 && indexs == map[] && |Loaded(options, lines)| < TOTAL_DATA_NUM
      modifies this
      ensures Valid() && fresh(rawDatas)
      ensures multiset(Rows()) == multiset(Loaded(options, lines)) && Grouped(Rows())
      ensures dataNum > 0 ==> NoIdleKey(indexs)
      ensures dataNum == 0 ==> forall k :: k in indexs ==> indexs[k] == (0, -1)
    {
      LoadCsvData(lines);
      SortRows();
      BuildIndex();
      LoadedAreMine(options, lines);
      assert forall r :: r in Rows() <==> r in multiset(Rows());
    }

    method LoadCsvData(lines: seq<string>)
      requires Loading() && dataNum == 0 && |Loaded(options, lines)| < TOTAL_DATA_NUM
      modifies this`rawDatas, this`dataNum
      ensures Loading() && fresh(rawDatas) && 0 < rawDatas.Length
      ensures Rows() == Loaded(options, lines)
    {
      rawDatas := new RawData[TOTAL_DATA_NUM];
      for n := 0 to |lines|
        invariant Loading() && fresh(rawDatas) && rawDatas.Length == TOTAL_DATA_NUM
        invariant Rows() == Loaded(options, lines[..n])
      {
        LoadedNext(options, lines, n);
        LoadedGrows(options, lines, n + 1);
        var ok, data := ParserRawData(options, lines[n], rawDatas[dataNum]);
        rawDatas[dataNum] := data;
        if ok { dataNum := dataNum + 1; }
      }
      assert lines[..|lines|] == lines;
    }

    /** std::sort(raw_datas, raw_datas + data_num) by keyword */
    method SortRows()
      requires Loading()
      modifies rawDatas
      ensures multiset(Rows()) == old(multiset(Rows())) && Grouped(Rows())
      ensures rawDatas[dataNum..] == old(rawDatas[dataNum..])
    {
      KeywordOrder();
      var sorted := StdSort(ByKeyword, rawDatas[..dataNum]);
      assert |multiset(sorted)| == dataNum;
      forall i | 0 <= i < dataNum { rawDatas[i] := sorted[i]; }
      assert Rows() == sorted;
    }

    method BuildIndex()
      requires Loading() && indexs == map[] && 0 < rawDatas.Length && Grouped(Rows())
      modifies this`indexs
      ensures Indexed(Rows(), indexs)
      ensures dataNum > 0 ==> NoIdleKey(indexs)
      ensures dataNum == 0 ==> indexs == map[Key(rawDatas[0]) := (0, -1)]
    {
      hide IndexedTo, NoIdleKey;
      ghost var rows := Rows();
      if dataNum > 0 { EmptyIndex(rows); }
      var s := 0;
      var i := 1;
      while i < dataNum
        invariant 0 <= s < i && (i <= dataNum || (s == 0 && i == 1))
        invariant dataNum > 0 ==> IndexedTo(rows, indexs, s) && NoIdleKey(indexs)
        invariant forall j :: s <= j < i && j < dataNum ==> rows[j].keyword == rows[s].keyword
        invariant 0 < s < dataNum ==> rows[s - 1].keyword < rows[s].keyword
        invariant s == 0 ==> indexs == map[]
      {
        if rawDatas[i].keyword != rawDatas[i - 1].keyword {
          CloseRun(rows, indexs, s, i - 1);
          indexs := indexs[Key(rawDatas[s]) := (s, i - 1)];
          s := i;
        }
        i := i + 1;
      }
      if dataNum > 0 { CloseRun(rows, indexs, s, dataNum - 1); }
      indexs := indexs[Key(rawDatas[s]) := (s, dataNum - 1)];
      if dataNum == 0 { IdleIndex(Key(rawDatas[0])); }
    }

    /** Scans one run of rows into the results. */
    method ScanRun(q: Request, run: Interval, results: seq<SearchResult>, slots: map<nat, nat>,
        ghost offers: set<Offer>)
        returns (results': seq<SearchResult>, slots': map<nat, nat>)
      requires Valid() && q.Valid() && 0 <= run.0 <= run.1 + 1 <= dataNum
      requires Holds(results, slots, offers) && AllWellScored(results)
      ensures Holds(results', slots', offers + Scanned(ctr, Rows(), run.0, run.1 + 1, q)) && AllWellScored(results')
    {
      hide Holds, AllWellScored, Timely, Scanned;
      results', slots' := results, slots;
      var i := run.0;
      ScanStart(ctr, Rows(), run.0, q);
      assert offers + Scanned(ctr, Rows(), run.0, i, q) == offers;
      while i <= run.1
        invariant run.0 <= i <= run.1 + 1
        invariant Holds(results', slots', offers + Scanned(ctr, Rows(), run.0, i, q)) && AllWellScored(results')
      {
        ScanNext(ctr, Rows(), run.0, i, q);
        ghost var scanned := Scanned(ctr, Rows(), run.0, i, q);
        ghost var sofar := offers + scanned;
        var data := rawDatas[i];
        if Timely(data, q.hour) {
          var rate := ctr(data, q.context);
          var found := SearchResult(data.adgroupId, data.price, rate, rate * data.price as real, 0);
          ghost var over;
          results', slots', over := InsertResult(results', slots', found, sofar);
          assert found.Offer() == OfferOf(ctr, Rows()[i], q.context) && found.WellScored();
          assert sofar + {found.Offer()} == offers + (scanned + {found.Offer()});
        } else {
          assert scanned + {} == scanned;
        }
        i := i + 1;
      }
    }

    /** The node's answer: the ranking of what it recalls, cut to topn + 1 entries, whatever
        the order or repetition of the requested keywords. */
    method SearchTopNByKeyword(q: Request) returns (results: seq<SearchResult>)
      requires Valid() && q.Valid()
      ensures AllWellScored(results)
      ensures Offers(results) == Cut(Ranked(Recalled(ctr, Rows(), q)), q.topn)
      ensures Offers(results) <= Ranked(Recalled(ctr, Rows(), q))
      ensures |results| == Min(|Ranked(Recalled(ctr, Rows(), q))|, q.topn + 1)
    {
      hide Holds, AllWellScored, Recalled, Scanned, Indexed, IsRanking;
      results := [];
      var slots: map<nat, nat> := map[];
      NothingRecalled(ctr, Rows(), q);
      for i := 0 to |q.keywords|
        invariant Holds(results, slots, Recalled(ctr, Rows(), FirstKeywords(q, i))) && AllWellScored(results)
      {
        var keyword := q.keywords[i];
        if keyword % options.nodeNum == options.nodeId && keyword in indexs {
          ScanOfRun(ctr, Rows(), indexs, q, i);
          results, slots := ScanRun(q, indexs[keyword], results, slots, Recalled(ctr, Rows(), FirstKeywords(q, i)));
        } else {
          NoRowHere(q, i);
          ScanOfNothing(ctr, Rows(), q, i);
        }
      }
      assert FirstKeywords(q, |q.keywords|) == q by { assert q.keywords[..|q.keywords|] == q.keywords; }
      ResultOrder();
      var sorted := StdSort(SortCmp, results);
      SortedIsRanked(results, slots, sorted, Recalled(ctr, Rows(), q));
      CutOffers(sorted, q.topn);
      results := Cut(sorted, q.topn);
    }

    lemma NoRowHere(q: Request, i: nat)
      requires Valid() && i < |q.keywords|
      requires q.keywords[i] % options.nodeNum != options.nodeId || q.keywords[i] !in indexs
      ensures forall r :: r in Rows() ==> Key(r) != q.keywords[i]
    {
      forall r | r in Rows() ensures Key(r) != q.keywords[i] {
        var j :| 0 <= j < |Rows()| && Rows()[j] == r;
        KeyOnNode(options, r);
        LookupIsScan(Rows(), indexs, q.keywords[i], j);
      }
    }

    method InternalSearch(q: Request) returns (response: SearchResponse)
      requires Valid() && q.Valid()
      ensures AllWellScored(Received(response))
      ensures Offers(Received(response)) == Cut(Ranked(Recalled(ctr, Rows(), q)), q.topn)
      ensures Offers(Received(response)) <= Ranked(Recalled(ctr, Rows(), q))
      ensures |Received(response)| == Min(|Ranked(Recalled(ctr, Rows(), q))|, q.topn + 1)
    {
      hide Reply, Received, AllWellScored;
      var results := SearchTopNByKeyword(q);
      response := SearchResponse([], [], [], []);
      ReplyEmpty();
      for i := 0 to |results|
        invariant response == Reply(results[..i])
      {
        ReplyNext(results, i);
        var data := results[i];
        response := SearchResponse(response.adgroupIds + [data.adgroupId], response.prices + [data.price],
                                   response.ctrs + [data.ctr], response.scores + [data.score]);
      }
      assert results[..|results|] == results;
      ReplyReceived(results);
    }

    /** Node 0's public search: its own results merged with what arrived from node 1 (nothing,
        if the remote call failed or was not needed), then billed. */
    method Search(q: Request, remote: seq<SearchResult>) returns (response: Response)
      requires Valid() && q.Valid() && 0 < q.topn
      requires AllWellScored(remote) && InOrder(remote)
      requires remote != [] || Recalled(ctr, Rows(), q) != {}
      ensures response
        == Answer(Ranked(Elements(Cut(Ranked(Recalled(ctr, Rows(), q)), q.topn)) + Elements(Offers(remote))), q.topn)
    {
      hide Recalled, AllWellScored, Deduplicated, Answer;
      ghost var local := Recalled(ctr, Rows(), q);
      var results := SearchTopNByKeyword(q);
      CutInOrder(local, q.topn);
      var final, overwrites := MergeResult(results, remote);
      ghost var offers := Elements(Offers(results)) + Elements(Offers(remote));
      SomethingMerged(local, q.topn, remote, final, offers);
      RankingUnique(Offers(final), offers);
      var billed := BillResults(final, q.topn);
      AnswerShape(final, q.topn);
      response := FillResponse(billed, Min(|billed|, q.topn));
    }
  }

  lemma CutInOrder(offers: set<Offer>, topn: nat)
    ensures Sorted(Cut(Ranked(offers), topn))
  {
    RankedIsRanking(offers);
  }

  lemma SomethingMerged(local: set<Offer>, topn: nat, remote: seq<SearchResult>, final: seq<SearchResult>,
      offers: set<Offer>)
    requires local != {} || remote != []
    requires offers == Elements(Cut(Ranked(local), topn)) + Elements(Offers(remote))
    requires Deduplicated(Offers(final), offers)
    ensures final != []
  {
    var o: Offer;
    if remote != [] {
      o := Offers(remote)[0];
      assert o in Offers(remote);
    } else {
      o := Cut(Ranked(local), topn)[0];
      assert o in Cut(Ranked(local), topn);
    }
    assert o in offers && Listed(o.adgroupId, Offers(final));
  }

  /** Step 4 of Search: the first n entries get their bills. */
  method BillResults(final: seq<SearchResult>, topn: nat) returns (results: seq<SearchResult>)
    requires final != [] && 0 < topn && AllWellScored(final) && InOrder(final)
    ensures |results| == |final|
    ensures forall k :: 0 <= k < Min(|final|, topn) ==>
      results[k] == final[k].(billPrice := Answer(Offers(final), topn).prices[k])
  {
    hide AllWellScored, InOrder, Answer, Round;
    AnswerShape(final, topn);
    ghost var bills := Answer(Offers(final), topn).prices;
    results := final;
    var n := if |results| <= topn then |results| else topn;
    for i := 0 to n - 1
      invariant |results| == |final| && forall k :: i <= k < |final| ==> results[k] == final[k]
      invariant forall k :: 0 <= k < i ==> results[k] == final[k].(billPrice := bills[k])
    {
      BillAt(final, topn, i);
      results := results[i := results[i].(billPrice := Round(results[i + 1].score / results[i].ctr))];
    }
    BillAt(final, topn, n - 1);
    results := results[n - 1 := results[n - 1].(billPrice :=
      if |results| <= topn then results[n - 1].price else Round(results[n].score / results[n - 1].ctr))];
  }

  /** Step 5 of Search: the columns of the response. */
  method FillResponse(results: seq<SearchResult>, n: nat) returns (response: Response)
    requires n <= |results|
    ensures |response.adgroupIds| == |response.prices| == n
    ensures forall k :: 0 <= k < n ==>
      response.adgroupIds[k] == results[k].adgroupId && response.prices[k] == results[k].billPrice
  {
    response := Response([], []);
    for i := 0 to n
      invariant |response.adgroupIds| == |response.prices| == i
      invariant forall k :: 0 <= k < i ==>
        response.adgroupIds[k] == results[k].adgroupId && response.prices[k] == results[k].billPrice
    {
      response := Response(response.adgroupIds + [results[i].adgroupId], response.prices + [results[i].billPrice]);
    }
  }

  lemma AnswerShape(final: seq<SearchResult>, topn: nat)
    ensures var a := Answer(Offers(final), topn);
      && |a.adgroupIds| == |a.prices| == Min(|final|, topn)
      && forall k :: 0 <= k < |a.adgroupIds| ==> a.adgroupIds[k] == final[k].adgroupId
  {
  }

  lemma BillAt(final: seq<SearchResult>, topn: nat, i: nat)
    requires AllWellScored(final) && InOrder(final) && i < |final| && i < topn
    ensures final[i].ctr > 0.0
    ensures Answer(Offers(final), topn).prices[i]
         == if i + 1 < |final| then Round(final[i + 1].score / final[i].ctr) else final[i].price
  {
    hide Bill, Round;
    if i + 1 < |final| {
      assert !Before(Offers(final)[i + 1], Offers(final)[i]);
      BillByRate(final[i], final[i + 1]);
    }
  }

  /** The reply that carries a list of results column by column. */
  function Reply(s: seq<SearchResult>): SearchResponse {
    SearchResponse(seq(|s|, i requires 0 <= i < |s| => s[i].adgroupId), seq(|s|, i requires 0 <= i < |s| => s[i].price),
                   seq(|s|, i requires 0 <= i < |s| => s[i].ctr), seq(|s|, i requires 0 <= i < |s| => s[i].score))
  }

  lemma ReplyEmpty()
    ensures Reply([]) == SearchResponse([], [], [], [])
  {
  }

  lemma ReplyNext(s: seq<SearchResult>, i: nat)
    requires i < |s|
    ensures var r := Reply(s[..i]);
      Reply(s[..i + 1]) == SearchResponse(r.adgroupIds + [s[i].adgroupId], r.prices + [s[i].price],
                                          r.ctrs + [s[i].ctr], r.scores + [s[i].score])
  {
  }

  /** Sending results and receiving them again loses nothing but the bills. */
  lemma ReplyReceived(s: seq<SearchResult>)
    ensures |Received(Reply(s))| == |s|
    ensures forall i :: 0 <= i < |s| ==> Received(Reply(s))[i] == s[i].(billPrice := 0)
    ensures Offers(Received(Reply(s))) == Offers(s)
    ensures AllWellScored(s) ==> AllWellScored(Received(Reply(s)))
  {
    assert forall i :: 0 <= i < |s| ==> Received(Reply(s))[i] == s[i].(billPrice := 0);
  }

  /** HandleResponse turns the columns of a reply back into results; prices are 16 bits wide. */
  function Received(r: SearchResponse): seq<SearchResult> {
    if |r.adgroupIds| <= |r.prices| && |r.adgroupIds| <= |r.ctrs| && |r.adgroupIds| <= |r.scores| then
      seq(|r.adgroupIds|, i requires 0 <= i < |r.adgroupIds| =>
        SearchResult(r.adgroupIds[i], r.prices[i] % 0x1_0000, r.ctrs[i], r.scores[i], 0))
    else []
  }

  lemma NothingRecalled(ctr: CtrModel, rows: seq<RawData>, q: Request)
    requires q.Valid()
    ensures Holds([], map[], Recalled(ctr, rows, FirstKeywords(q, 0))) && AllWellScored([])
  {
    assert Recalled(ctr, rows, FirstKeywords(q, 0)) == {};
  }

  lemma SortedIsRanked(results: seq<SearchResult>, slots: map<nat, nat>, sorted: seq<SearchResult>, offers: set<Offer>)
    requires Holds(results, slots, offers) && AllWellScored(results)
    requires multiset(sorted) == multiset(results) && SortedBy(SortCmp, sorted)
    ensures Offers(sorted) == Ranked(offers) && AllWellScored(sorted)
  {
    Reordered(results, sorted, offers);
    assert IsRanking(Offers(sorted), offers);
    RankingUnique(Offers(sorted), offers);
  }

  lemma CutOffers(s: seq<SearchResult>, topn: nat)
    ensures Offers(Cut(s, topn)) == Cut(Offers(s), topn)
    ensures AllWellScored(s) ==> AllWellScored(Cut(s, topn))
  {
  }

  lemma EmptyIndex(rows: seq<RawData>)
    ensures IndexedTo(rows, map[], 0) && NoIdleKey(map[])
  {
  }

  lemma IdleIndex(k: uint64)
    ensures Indexed([], map[k := (0, -1)])
  {
  }

  lemma LoadedNext(o: Options, lines: seq<string>, n: nat)
    requires o.Valid() && n < |lines|
    ensures Loaded(o, lines[..n + 1]) == Loaded(o, lines[..n]) + (if Keeps(o, lines[n]) then [RowOf(lines[n])] else [])
  {
    assert lines[..n + 1][..n] == lines[..n];
  }

  lemma {:induction false} LoadedGrows(o: Options, lines: seq<string>, n: nat)
    requires o.Valid() && n <= |lines|
    ensures |Loaded(o, lines[..n])| <= |Loaded(o, lines)|
    decreases |lines| - n
  {
    if n < |lines| {
      LoadedNext(o, lines, n);
      LoadedGrows(o, lines, n + 1);
    } else {
      assert lines[..n] == lines;
    }
  }
}
