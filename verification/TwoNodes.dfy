/** The deployed service: node 0 answers clients and asks node 1 for the odd keywords. Its
    answers are those of one server that holds all the rows. */
module TwoNodes {
  import opened Billing
  import opened Integers
  import opened KeywordIndex
  import opened Ranking
  import opened Recall
  import opened RowParser
  import opened SearchResults
  import opened SearchService
  import opened Shards

  /** The keywords held by node 1, in request order and with their repetitions. */
  function RemoteKeywords(keywords: seq<uint64>, nodeNum: nat): (r: seq<uint64>)
    requires nodeNum > 0
    ensures forall k :: k in r <==> k in keywords && k % nodeNum == 1
  {
    if keywords == [] then [] else
      var last := keywords[|keywords| - 1];
      var init := RemoteKeywords(keywords[..|keywords| - 1], nodeNum);
      assert keywords == keywords[..|keywords| - 1] + [last];
      if last % nodeNum == 1 then init + [last] else init
  }

  /** SearchServiceClient's loop that builds the request for node 1. */
  method NewRequest(options: Options, q: Request) returns (r: Request)
    requires options.Valid()
    ensures r == q.(keywords := RemoteKeywords(q.keywords, options.nodeNum))
  {
    var keywords: seq<uint64> := [];
    for i := 0 to |q.keywords|
      invariant keywords == RemoteKeywords(q.keywords[..i], options.nodeNum)
    {
      assert q.keywords[..i + 1][..i] == q.keywords[..i];
      if q.keywords[i] % options.nodeNum == 1 { keywords := keywords + [q.keywords[i]]; }
    }
    assert q.keywords[..|q.keywords|] == q.keywords;
    r := Request(keywords, q.context, q.hour, q.topn);
  }

  ghost predicate Deployed(node0: SearchServiceImpl, node1: SearchServiceImpl)
    reads node0, node1, node0.rawDatas, node1.rawDatas
  {
    node0.Valid() && node1.Valid() && node0.options == Node(0) && node1.options == Node(1) && node0.ctr == node1.ctr
  }

  /** A client's search. `delivered` says whether the remote call, if one is made, succeeds.
      If it does, the answer is that of ranking all recalled offers of both nodes; if it fails,
      it is the answer of node 0's rows alone. */
  method Search(node0: SearchServiceImpl, node1: SearchServiceImpl, q: Request, delivered: bool)
      returns (response: Response)
    requires Deployed(node0, node1) && q.Valid() && 0 < q.topn
    requires Recalled(node0.ctr, node0.Rows(), q) != {} || (delivered && Recalled(node0.ctr, node1.Rows(), q) != {})
    ensures delivered || RemoteKeywords(q.keywords, 2) == [] ==>
      response == Answer(Ranked(Recalled(node0.ctr, node0.Rows(), q) + Recalled(node0.ctr, node1.Rows(), q)), q.topn)
    ensures !delivered ==> response == Answer(Ranked(Recalled(node0.ctr, node0.Rows(), q)), q.topn)
  {
    hide Answer, Indexed, AllWellScored, Recalled;
    ghost var a, b := Recalled(node0.ctr, node0.Rows(), q), Recalled(node0.ctr, node1.Rows(), q);
    var part := NewRequest(node0.options, q);
    OddRowsOnly(node1.ctr, node1.Rows(), q, part);
    var remote: seq<SearchResult> := [];
    EmptyList();
    if part.keywords != [] && delivered {
      var reply := node1.InternalSearch(part);
      remote := Received(reply);
      CutInOrder(b, q.topn);
      if b != {} { NotEmptied(b, q.topn); }
      response := node0.Search(q, remote);
      ExactAnswer(a, b, q.topn);
    } else {
      response := node0.Search(q, remote);
      ExactAnswer(a, {}, q.topn);
      assert Cut(Ranked({}), q.topn) == [] && Elements([]) == {};
      assert a + {} == a;
      assert part.keywords == [] ==> b == {};
    }
  }

  lemma EmptyList()
    ensures AllWellScored([]) && InOrder([]) && Offers([]) == []
  {
  }

  lemma NotEmptied(b: set<Offer>, topn: nat)
    requires b != {} && 0 < topn
    ensures Cut(Ranked(b), topn) != []
  {
  }

  /** Rows of node 1 are recalled by node 1's part of a request just as by the whole. */
  lemma OddRowsOnly(ctr: CtrModel, rows: seq<RawData>, q: Request, part: Request)
    requires q.Valid() && forall r :: r in rows ==> Mine(Node(1), r.keyword)
    requires part == q.(keywords := RemoteKeywords(q.keywords, 2))
    ensures Recalled(ctr, rows, part) == Recalled(ctr, rows, q)
    ensures part.keywords == [] ==> Recalled(ctr, rows, q) == {}
  {
    forall r | r in rows ensures Key(r) in part.keywords <==> Key(r) in q.keywords {
      KeyOnNode(Node(1), r);
    }
    RecallRestricted(ctr, rows, q, part);
  }

  lemma ExactAnswer(a: set<Offer>, b: set<Offer>, topn: nat)
    ensures Answer(Ranked(Elements(Cut(Ranked(a), topn)) + Elements(Cut(Ranked(b), topn))), topn)
      == Answer(Ranked(a + b), topn)
  {
    hide Answer, Ranked, Cut, Elements;
    var m := Ranked(Elements(Cut(Ranked(a), topn)) + Elements(Cut(Ranked(b), topn)));
    MergeOfCutsExact(a, b, topn);
    AnswerOfCut(m, topn);
    AnswerOfCut(Ranked(a + b), topn);
  }

  /** From one data file: the two nodes and a single server running the same code over the
      unsharded file answer every request alike, ids and bills. */
  method ShardedLikeWhole(lines: seq<string>, ctr: CtrModel, q: Request) returns (sharded: Response, whole: Response)
    requires forall i :: 0 <= i < |lines| ==> !Unroutable(lines[i])
    requires |Loaded(Whole(), lines)| < TOTAL_DATA_NUM
    requires q.Valid() && 0 < q.topn && Recalled(ctr, Loaded(Whole(), lines), q) != {}
    ensures sharded == whole == Answer(Ranked(Recalled(ctr, Loaded(Whole(), lines), q)), q.topn)
  {
    hide Answer, Recalled, Indexed, Loaded;
    ShardsPartition(lines);
    var node0, node1 := Deploy(lines, ctr);
    RecallUnion(ctr, node0.Rows(), node1.Rows(), Loaded(Whole(), lines), q);
    sharded := Search(node0, node1, q, true);
    var server := new SearchServiceImpl(Whole(), ctr);
    server.Init(lines);
    RecallReordered(ctr, server.Rows(), Loaded(Whole(), lines), q);
    whole := SearchAlone(server, q);
  }

  method Deploy(lines: seq<string>, ctr: CtrModel) returns (node0: SearchServiceImpl, node1: SearchServiceImpl)
    requires forall i :: 0 <= i < |lines| ==> !Unroutable(lines[i])
    requires |Loaded(Whole(), lines)| < TOTAL_DATA_NUM
    ensures fresh(node0) && fresh(node1) && Deployed(node0, node1) && node0.ctr == ctr
    ensures multiset(node0.Rows()) == multiset(Loaded(Node(0), lines)) &&
      multiset(node1.Rows()) == multiset(Loaded(Node(1), lines))
  {
    hide Indexed, Loaded;
    ShardSizes(lines);
    node0 := new SearchServiceImpl(Node(0), ctr);
    node0.Init(lines);
    node1 := new SearchServiceImpl(Node(1), ctr);
    node1.Init(lines);
  }

  /** A search on one server, with nothing to merge. */
  method SearchAlone(server: SearchServiceImpl, q: Request) returns (response: Response)
    requires server.Valid() && q.Valid() && 0 < q.topn
    requires Recalled(server.ctr, server.Rows(), q) != {}
    ensures response == Answer(Ranked(Recalled(server.ctr, server.Rows(), q)), q.topn)
  {
    hide Answer, Recalled, Indexed, AllWellScored;
    ghost var all := Recalled(server.ctr, server.Rows(), q);
    EmptyList();
    response := server.Search(q, []);
    ExactAnswer(all, {}, q.topn);
    assert Cut(Ranked({}), q.topn) == [] && Elements([]) == {};
    assert all + {} == all;
  }

  lemma ShardSizes(lines: seq<string>)
    requires forall i :: 0 <= i < |lines| ==> !Unroutable(lines[i])
    ensures |Loaded(Node(0), lines)| <= |Loaded(Whole(), lines)| && |Loaded(Node(1), lines)| <= |Loaded(Whole(), lines)|
  {
    hide Loaded;
    ShardsPartition(lines);
    assert |multiset(Loaded(Whole(), lines))|
      == |multiset(Loaded(Node(0), lines))| + |multiset(Loaded(Node(1), lines))|;
  }

  /** Over every data and request: the first topn ads are shown, none is billed above its bid,
      and where there is a next ad the bill, at the ad's own rate, is that ad's score to within
      half a rate. */
  lemma BillsWithinBids(ctr: CtrModel, rows: seq<RawData>, q: Request, i: nat)
    requires q.Valid() && i < q.topn && i < |Ranked(Recalled(ctr, rows, q))|
    ensures var r := Ranked(Recalled(ctr, rows, q));
            var a := Answer(r, q.topn);
            && |a.adgroupIds| == |a.prices| == (if |r| <= q.topn then |r| else q.topn)
            && a.adgroupIds[i] == r[i].adgroupId
            && (if i + 1 < |r| then FairBill(a.prices[i], r[i], r[i + 1]) else a.prices[i] == r[i].price)
  {
    hide Recalled, Bill, FairBill, Ranked;
    var offers := Recalled(ctr, rows, q);
    var r := Ranked(offers);
    if i + 1 < |r| {
      Neighbours(offers, i);
      var cur := ResultOf(ctr, rows, q, r[i]);
      var next := ResultOf(ctr, rows, q, r[i + 1]);
      BillIsFair(cur, next);
    }
  }

  lemma Neighbours(offers: set<Offer>, i: nat)
    requires i + 1 < |Ranked(offers)|
    ensures Ranked(offers)[i] in offers && Ranked(offers)[i + 1] in offers
    ensures !Before(Ranked(offers)[i + 1], Ranked(offers)[i])
  {
    RankedIsRanking(offers);
    assert Best(Ranked(offers)[i], offers) && Best(Ranked(offers)[i + 1], offers);
  }

  lemma ResultOf(ctr: CtrModel, rows: seq<RawData>, q: Request, o: Offer) returns (s: SearchResult)
    requires q.Valid() && o in Recalled(ctr, rows, q)
    ensures s.WellScored() && s.Offer() == o
  {
    var r :| r in rows && OfferOf(ctr, r, q.context) == o;
    var rate := ctr(r, q.context);
    s := SearchResult(r.adgroupId, r.price, rate, rate * r.price as real, 0);
    assert s.Offer() == OfferOf(ctr, r, q.context);
  }
}
