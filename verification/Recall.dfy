/** Requests, and the offers that a request recalls from a list of rows. */
module Recall {
  import opened Bits
  import opened Integers
  import opened KeywordIndex
  import opened Ranking
  import opened RowParser

  type Context = (real, real)

  /** The estimated click-through rate of a row in a context, which the scoring formula makes
      positive for the non-negative vectors of the data file; otherwise left abstract. */
  type CtrModel = f: (RawData, Context) -> real | forall r: RawData, c: Context :: f(r, c) > 0.0
    witness (r: RawData, c: Context) => 1.0

  datatype Request = Request(keywords: seq<uint64>, context: Context, hour: nat, topn: nat) {
    ghost predicate Valid() { hour < 32 }
  }

  function OfferOf(ctr: CtrModel, r: RawData, c: Context): Offer {
    Offer(r.adgroupId, r.price, ctr(r, c) * r.price as real)
  }

  /** The row may be shown at this hour. */
  predicate Timely(r: RawData, hour: nat)
    requires hour < 32
  {
    Bit(r.timingsMask, hour as bv6)
  }

  /** All offers whose row has a requested keyword and is timely: a full scan of the rows,
      with no index, no shard, and no regard for order or repetition of the keywords. */
  ghost function Recalled(ctr: CtrModel, rows: seq<RawData>, q: Request): set<Offer>
    requires q.Valid()
  {
    set r | r in rows && Key(r) in q.keywords && Timely(r, q.hour) :: OfferOf(ctr, r, q.context)
  }

  /** The offers of the timely rows among rows[lo..hi]. */
  ghost function Scanned(ctr: CtrModel, rows: seq<RawData>, lo: int, hi: int, q: Request): set<Offer>
    requires q.Valid() && 0 <= lo <= hi <= |rows|
  {
    set i | lo <= i < hi && Timely(rows[i], q.hour) :: OfferOf(ctr, rows[i], q.context)
  }

  lemma ScanStart(ctr: CtrModel, rows: seq<RawData>, lo: nat, q: Request)
    requires q.Valid() && lo <= |rows|
    ensures Scanned(ctr, rows, lo, lo, q) == {}
  {
  }

  lemma ScanNext(ctr: CtrModel, rows: seq<RawData>, lo: nat, i: nat, q: Request)
    requires q.Valid() && lo <= i < |rows|
    ensures Scanned(ctr, rows, lo, i + 1, q)
         == Scanned(ctr, rows, lo, i, q) + if Timely(rows[i], q.hour) then {OfferOf(ctr, rows[i], q.context)} else {}
  {
  }

  function FirstKeywords(q: Request, n: nat): Request
    requires n <= |q.keywords|
  {
    q.(keywords := q.keywords[..n])
  }

  /** Scanning the run of one more keyword recalls exactly what that keyword adds. */
  lemma ScanOfRun(ctr: CtrModel, rows: seq<RawData>, index: Index, q: Request, n: nat)
    requires q.Valid() && n < |q.keywords| && Indexed(rows, index)
    requires q.keywords[n] in index
    ensures 0 <= index[q.keywords[n]].0 <= index[q.keywords[n]].1 + 1 <= |rows|
    ensures Recalled(ctr, rows, FirstKeywords(q, n + 1))
         == Recalled(ctr, rows, FirstKeywords(q, n))
            + Scanned(ctr, rows, index[q.keywords[n]].0, index[q.keywords[n]].1 + 1, q)
  {
    var k := q.keywords[n];
    var (lo, hi) := index[k];
    assert Run(rows, index, k, |rows|);
    var a, b := Recalled(ctr, rows, FirstKeywords(q, n + 1)), Recalled(ctr, rows, FirstKeywords(q, n));
    assert q.keywords[..n + 1] == q.keywords[..n] + [k];
    forall o | o in a ensures o in b + Scanned(ctr, rows, lo, hi + 1, q) {
      var r :| r in rows && Key(r) in q.keywords[..n + 1] && Timely(r, q.hour) && OfferOf(ctr, r, q.context) == o;
      if Key(r) == k {
        var i :| 0 <= i < |rows| && rows[i] == r;
        LookupIsScan(rows, index, k, i);
      }
    }
  }

  /** A keyword that no row has recalls nothing. */
  lemma ScanOfNothing(ctr: CtrModel, rows: seq<RawData>, q: Request, n: nat)
    requires q.Valid() && n < |q.keywords|
    requires forall r :: r in rows ==> Key(r) != q.keywords[n]
    ensures Recalled(ctr, rows, FirstKeywords(q, n + 1)) == Recalled(ctr, rows, FirstKeywords(q, n))
  {
    assert q.keywords[..n + 1] == q.keywords[..n] + [q.keywords[n]];
  }

  /** What is recalled depends on the rows only as a collection. */
  lemma RecallUnion(ctr: CtrModel, a: seq<RawData>, b: seq<RawData>, whole: seq<RawData>, q: Request)
    requires q.Valid() && multiset(whole) == multiset(a) + multiset(b)
    ensures Recalled(ctr, whole, q) == Recalled(ctr, a, q) + Recalled(ctr, b, q)
  {
    forall r ensures r in whole <==> r in a || r in b {
      assert r in multiset(whole) <==> r in multiset(a) || r in multiset(b);
    }
  }

  lemma RecallReordered(ctr: CtrModel, a: seq<RawData>, b: seq<RawData>, q: Request)
    requires q.Valid() && multiset(a) == multiset(b)
    ensures Recalled(ctr, a, q) == Recalled(ctr, b, q)
  {
    forall r ensures r in a <==> r in b { assert r in multiset(a) <==> r in multiset(b); }
  }

  /** Asking a node only for the keywords it holds recalls the same offers. */
  lemma RecallRestricted(ctr: CtrModel, rows: seq<RawData>, q: Request, part: Request)
    requires q.Valid() && part.hour == q.hour && part.context == q.context
    requires forall r :: r in rows ==> (Key(r) in part.keywords <==> Key(r) in q.keywords)
    ensures Recalled(ctr, rows, part) == Recalled(ctr, rows, q)
  {
  }
}
