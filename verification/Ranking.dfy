/** The order in which ads are shown, what "the best offer of every adgroup" means, and
    why cutting each shard to topn + 1 entries before merging loses nothing.

    An Offer is a search result without its click-through rate: the rate takes no part in
    the comparison, and it is determined by score and price unless the price is 0.
 */
module Ranking {

  datatype Offer = Offer(adgroupId: nat, price: nat, score: real)

  /** The comparator given to std::sort: score descending, price ascending, id descending. */
  predicate Before(l: Offer, r: Offer) {
    if l.score > r.score then true
    else if l.score == r.score then
      if l.price < r.price then true
      else if l.price == r.price then l.adgroupId > r.adgroupId
      else false
    else false
  }

  /** The test that lets a later offer of the same adgroup overwrite an earlier one. */
  predicate Improves(later: Offer, earlier: Offer) {
    later.score > earlier.score || (later.score == earlier.score && later.price < earlier.price)
  }

  /** No offer of the same adgroup in `offers` would overwrite o. */
  ghost predicate Best(o: Offer, offers: set<Offer>) {
    o in offers && forall c :: c in offers && c.adgroupId == o.adgroupId ==> !Improves(c, o)
  }

  ghost predicate Sorted(s: seq<Offer>) {
    forall i, j :: 0 <= i < j < |s| ==> !Before(s[j], s[i])
  }

  ghost predicate DistinctIds(s: seq<Offer>) {
    forall i, j :: 0 <= i < j < |s| ==> s[i].adgroupId != s[j].adgroupId
  }

  ghost predicate Listed(id: nat, s: seq<Offer>) {
    exists i :: 0 <= i < |s| && s[i].adgroupId == id
  }

  /** s holds, for every adgroup among the offers and for no other, its best offer, once. */
  ghost predicate Deduplicated(s: seq<Offer>, offers: set<Offer>) {
    && DistinctIds(s)
    && (forall i :: 0 <= i < |s| ==> Best(s[i], offers))
    && (forall c :: c in offers ==> Listed(c.adgroupId, s))
  }

  ghost predicate IsRanking(s: seq<Offer>, offers: set<Offer>) {
    Sorted(s) && Deduplicated(s, offers)
  }

  // ----- the reference: take the overall best offer, drop its adgroup, repeat -----

  ghost predicate Top(o: Offer, offers: set<Offer>) {
    o in offers && forall c :: c in offers && c != o ==> Before(o, c)
  }

  ghost function Others(o: Offer, offers: set<Offer>): set<Offer> {
    set c | c in offers && c.adgroupId != o.adgroupId
  }

  lemma TopExists(offers: set<Offer>)
    requires offers != {}
    ensures exists o :: Top(o, offers)
  {
    var x :| x in offers;
    var rest := offers - {x};
    assert offers == rest + {x};
    if rest == {} {
      assert Top(x, offers);
    } else {
      TopExists(rest);
      var y :| Top(y, rest);
      assert Before(x, y) || Before(y, x);
      assert Top(if Before(x, y) then x else y, offers);
    }
  }

  /** The naive server's answer: repeatedly pick the offer that comes before all the others
      and discard every other offer of its adgroup. */
  ghost function Ranked(offers: set<Offer>): (s: seq<Offer>)
    decreases |offers|
  {
    if offers == {} then [] else
      TopExists(offers);
      var o :| Top(o, offers);
      assert o in offers - Others(o, offers);
      assert Others(o, offers) < offers;
      SmallerSet(Others(o, offers), offers);
      [o] + Ranked(Others(o, offers))
  }

  lemma SmallerSet<T>(a: set<T>, b: set<T>)
    requires a < b
    ensures |a| < |b|
  {
    var x :| x in b && x !in a;
    assert |b - a| >= 1 by { assert x in b - a; }
    assert b == a + (b - a);
  }

  lemma TopFirst(o: Offer, t: seq<Offer>, offers: set<Offer>)
    requires Top(o, offers) && IsRanking(t, Others(o, offers))
    ensures Sorted([o] + t) && DistinctIds([o] + t)
  {
    hide Before;
    forall i | 0 <= i < |t| ensures t[i].adgroupId != o.adgroupId && !Before(t[i], o) {
      assert Best(t[i], Others(o, offers));
      NotBoth(o, t[i]);
    }
  }

  lemma NotBoth(a: Offer, b: Offer)
    ensures !(Before(a, b) && Before(b, a))
  {
  }

  lemma TopThenRest(o: Offer, t: seq<Offer>, offers: set<Offer>)
    requires Top(o, offers) && IsRanking(t, Others(o, offers))
    ensures IsRanking([o] + t, offers)
  {
    hide Sorted, DistinctIds;
    var s := [o] + t;
    TopFirst(o, t, offers);
    forall i | 0 <= i < |s| ensures Best(s[i], offers) {
      if i > 0 { assert Best(t[i - 1], Others(o, offers)); }
    }
    forall c | c in offers ensures Listed(c.adgroupId, s) {
      if c.adgroupId == o.adgroupId {
        assert s[0].adgroupId == c.adgroupId;
      } else {
        var i := Position(t, c.adgroupId);
        assert s[i + 1].adgroupId == c.adgroupId;
      }
    }
  }

  /** The naive answer is a ranking. */
  lemma {:induction false} RankedIsRanking(offers: set<Offer>)
    ensures IsRanking(Ranked(offers), offers)
    decreases |offers|
  {
    if offers != {} {
      var o := Ranked(offers)[0];
      SmallerSet(Others(o, offers), offers);
      RankedIsRanking(Others(o, offers));
      TopThenRest(o, Ranked(Others(o, offers)), offers);
    }
  }

  // ----- uniqueness -----

  lemma BestUnique(a: Offer, b: Offer, offers: set<Offer>)
    requires Best(a, offers) && Best(b, offers) && a.adgroupId == b.adgroupId
    ensures a == b
  {
    assert !Improves(a, b) && !Improves(b, a);
  }

  lemma Position(s: seq<Offer>, id: nat) returns (p: nat)
    requires Listed(id, s)
    ensures p < |s| && s[p].adgroupId == id
  {
    p :| 0 <= p < |s| && s[p].adgroupId == id;
  }

  ghost predicate Contains(s: seq<Offer>, o: Offer) { o in s }

  /** s holds an offer of x's adgroup that x does not come before. */
  ghost predicate Outdone(x: Offer, s: seq<Offer>) {
    exists j :: 0 <= j < |s| && s[j].adgroupId == x.adgroupId && !Before(x, s[j])
  }

  lemma NextSame(m: seq<Offer>, g: seq<Offer>, n: nat)
    requires n < |g| && n <= |m| && Contains(m, g[n])
    requires forall k :: 0 <= k < n ==> m[k] == g[k]
    requires Sorted(m) && DistinctIds(m) && Sorted(g) && DistinctIds(g)
    requires n < |m| ==> Outdone(m[n], g)
    ensures n < |m| && m[n] == g[n]
  {
    var p :| 0 <= p < |m| && m[p] == g[n];
    assert p >= n;
    var j :| 0 <= j < |g| && g[j].adgroupId == m[n].adgroupId && !Before(m[n], g[j]);
    assert j >= n;
    assert Before(m[n], m[p]) || p == n;
    assert Before(g[n], g[j]) || j == n;
  }

  /** A sorted list m that has the first n entries of g, and otherwise only offers that g
      has something at least as good for, starts with those n entries. */
  lemma {:induction false} SamePrefix(m: seq<Offer>, g: seq<Offer>, n: nat)
    requires n <= |g|
    requires Sorted(m) && DistinctIds(m) && Sorted(g) && DistinctIds(g)
    requires forall j {:trigger Contains(m, g[j])} :: 0 <= j < n ==> Contains(m, g[j])
    requires forall i {:trigger Outdone(m[i], g)} :: 0 <= i < |m| ==> Outdone(m[i], g)
    ensures n <= |m| && forall k :: 0 <= k < n ==> m[k] == g[k]
  {
    if n > 0 {
      SamePrefix(m, g, n - 1);
      assert Contains(m, g[n - 1]);
      assert n - 1 < |m| ==> Outdone(m[n - 1], g);
      NextSame(m, g, n - 1);
    }
  }

  /** There is one ranking of a set of offers, so std::sort's freedom does not show. */
  lemma RankingUnique(s: seq<Offer>, offers: set<Offer>)
    requires IsRanking(s, offers)
    ensures s == Ranked(offers)
  {
    var g := Ranked(offers);
    RankedIsRanking(offers);
    SubRanking(s, offers, g, offers, |g|);
    SubRanking(g, offers, s, offers, |s|);
    assert s[..|s|] == s && g[..|g|] == g;
  }

  /** If every one of the first n of the ranking of `all` is also on offer in `some`, a
      subset, then the two rankings have the same first n entries. */
  lemma SubRanking(m: seq<Offer>, some: set<Offer>, g: seq<Offer>, all: set<Offer>, n: nat)
    requires IsRanking(m, some) && IsRanking(g, all) && some <= all && n <= |g|
    requires forall j :: 0 <= j < n ==> g[j] in some
    ensures n <= |m| && m[..n] == g[..n]
  {
    forall j | 0 <= j < n ensures Contains(m, g[j]) {
      var p := Position(m, g[j].adgroupId);
      assert Best(g[j], all) && Best(m[p], some);
      BestUnique(g[j], m[p], some);
    }
    forall i | 0 <= i < |m| ensures Outdone(m[i], g) {
      assert Best(m[i], some);
      var j := Position(g, m[i].adgroupId);
      assert Best(g[j], all);
    }
    SamePrefix(m, g, n);
  }

  /** By falling score, then rising price, then falling id; no adgroup twice. */
  ghost predicate BestFirst(s: seq<Offer>) {
    forall i, j :: 0 <= i < j < |s| ==>
      && s[i].adgroupId != s[j].adgroupId
      && s[i].score >= s[j].score
      && (s[i].score == s[j].score ==> s[i].price <= s[j].price)
      && (s[i].score == s[j].score && s[i].price == s[j].price ==> s[i].adgroupId > s[j].adgroupId)
  }

  /** Entry i is one of the offers, and no offer of its adgroup has a higher score, or the same
      score at a lower price. */
  ghost predicate NoneBetter(s: seq<Offer>, i: nat, offers: set<Offer>)
    requires i < |s|
  {
    s[i] in offers && forall c :: c in offers && c.adgroupId == s[i].adgroupId ==>
      c.score < s[i].score || (c.score == s[i].score && s[i].price <= c.price)
  }

  /** What a ranking is, in plain terms. */
  lemma RankingMeans(s: seq<Offer>, offers: set<Offer>)
    ensures IsRanking(s, offers) <==>
      && BestFirst(s)
      && (forall i :: 0 <= i < |s| ==> NoneBetter(s, i, offers))
      && (forall c :: c in offers ==> exists i :: 0 <= i < |s| && s[i].adgroupId == c.adgroupId)
  {
    OrderMeans(s);
    forall i | 0 <= i < |s| ensures Best(s[i], offers) <==> NoneBetter(s, i, offers) { }
    forall c | c in offers ensures Listed(c.adgroupId, s)
      <==> exists i :: 0 <= i < |s| && s[i].adgroupId == c.adgroupId { }
    hide BestFirst, Best, NoneBetter, Sorted, DistinctIds;
  }

  lemma OrderMeans(s: seq<Offer>)
    ensures Sorted(s) && DistinctIds(s) <==> BestFirst(s)
  {
  }

  // ----- cutting to topn + 1 -----

  function Cut<T>(s: seq<T>, topn: nat): seq<T> {
    if |s| > topn then s[..topn + 1] else s
  }

  function Elements(s: seq<Offer>): set<Offer> {
    set o | o in s
  }

  function Ids(s: seq<Offer>): set<nat> {
    set o | o in s :: o.adgroupId
  }

  lemma {:induction false} IdsCardinality(s: seq<Offer>)
    requires DistinctIds(s)
    ensures |Ids(s)| == |s|
  {
    if s != [] {
      var t := s[..|s| - 1];
      IdsCardinality(t);
      assert s == t + [s[|s| - 1]];
      assert Ids(s) == Ids(t) + {s[|s| - 1].adgroupId};
    }
  }

  lemma SubsetCardinality<T>(a: set<T>, b: set<T>)
    requires a <= b
    ensures |a| <= |b|
  {
    assert b == a + (b - a);
  }

  lemma RankingsIds(m: seq<Offer>, some: set<Offer>, g: seq<Offer>, all: set<Offer>)
    requires IsRanking(m, some) && IsRanking(g, all) && some <= all
    ensures |m| <= |g|
  {
    forall id | id in Ids(m) ensures id in Ids(g) {
      var o :| o in m && o.adgroupId == id;
      assert Best(o, some);
      var j := Position(g, id);
      assert g[j] in g;
    }
    IdsCardinality(m);
    IdsCardinality(g);
    SubsetCardinality(Ids(m), Ids(g));
  }

  /** An offer among the overall first j + 1 stands no lower than place j in its own shard. */
  lemma RankInShard(r: seq<Offer>, shard: set<Offer>, g: seq<Offer>, all: set<Offer>, j: nat) returns (p: nat)
    requires IsRanking(r, shard) && IsRanking(g, all) && shard <= all
    requires j < |g| && g[j] in shard
    ensures p <= j && p < |r| && r[p] == g[j]
  {
    p := Position(r, g[j].adgroupId);
    assert Best(r[p], shard) && Best(g[j], all);
    BestUnique(r[p], g[j], shard);
    var before, first := r[..p], g[..j];
    forall id | id in Ids(before) ensures id in Ids(first) {
      var i :| 0 <= i < p && r[i].adgroupId == id;
      assert Best(r[i], shard);
      var k := Position(g, id);
      assert Best(g[k], all) && !Improves(r[i], g[k]);
      assert !Before(r[p], r[i]) && r[i].adgroupId != r[p].adgroupId;
      assert Before(r[i], r[p]) && Before(g[k], g[j]);
      assert k <= j;
      assert first[k] in first;
    }
    IdsCardinality(before);
    IdsCardinality(first);
    SubsetCardinality(Ids(before), Ids(first));
  }

  lemma KeptInShard(r: seq<Offer>, shard: set<Offer>, g: seq<Offer>, all: set<Offer>, j: nat, topn: nat)
    requires IsRanking(r, shard) && IsRanking(g, all) && shard <= all
    requires j < |g| && j <= topn && g[j] in shard
    ensures g[j] in Elements(Cut(r, topn))
  {
    var p := RankInShard(r, shard, g, all, j);
    assert Cut(r, topn)[p] == r[p];
  }

  lemma CutsSuffice(ra: seq<Offer>, a: set<Offer>, rb: seq<Offer>, b: set<Offer>,
                    m: seq<Offer>, g: seq<Offer>, topn: nat)
    requires IsRanking(ra, a) && IsRanking(rb, b) && IsRanking(g, a + b)
    requires IsRanking(m, Elements(Cut(ra, topn)) + Elements(Cut(rb, topn)))
    ensures Cut(m, topn) == Cut(g, topn)
  {
    var some := Elements(Cut(ra, topn)) + Elements(Cut(rb, topn));
    ElementsOnOffer(ra, a);
    ElementsOnOffer(rb, b);
    var n := if |g| > topn then topn + 1 else |g|;
    forall j | 0 <= j < n ensures g[j] in some {
      assert Best(g[j], a + b);
      if g[j] in a {
        KeptInShard(ra, a, g, a + b, j, topn);
      } else {
        KeptInShard(rb, b, g, a + b, j, topn);
      }
    }
    SubRanking(m, some, g, a + b, n);
    RankingsIds(m, some, g, a + b);
    if |g| <= topn {
      assert m[..n] == m && g[..n] == g;
    }
  }

  lemma ElementsOnOffer(r: seq<Offer>, offers: set<Offer>)
    requires IsRanking(r, offers)
    ensures Elements(r) <= offers
  {
    forall o | o in r ensures o in offers {
      var i :| 0 <= i < |r| && r[i] == o;
      assert Best(r[i], offers);
    }
  }

  /** Distributed top-N is exact: ranking the union of the two cut shard rankings and cutting
      again gives the cut ranking of the union of the shards, also when an adgroup has offers
      in both. */
  lemma MergeOfCutsExact(a: set<Offer>, b: set<Offer>, topn: nat)
    ensures Cut(Ranked(Elements(Cut(Ranked(a), topn)) + Elements(Cut(Ranked(b), topn))), topn)
         == Cut(Ranked(a + b), topn)
  {
    var some := Elements(Cut(Ranked(a), topn)) + Elements(Cut(Ranked(b), topn));
    RankedIsRanking(a);
    RankedIsRanking(b);
    RankedIsRanking(a + b);
    RankedIsRanking(some);
    CutsSuffice(Ranked(a), a, Ranked(b), b, Ranked(some), Ranked(a + b), topn);
  }
}
