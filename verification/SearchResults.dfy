/** Lists of search results: the removal of duplicate adgroups while inserting, and the merge
    of two nodes' lists. */
module SearchResults {
  import opened Integers
  import opened Ranking

  datatype SearchResult = SearchResult(adgroupId: uint64, price: uint16, ctr: real, score: real, billPrice: int) {
    function Offer(): Offer { Ranking.Offer(adgroupId, price, score) }

    /** The score is the click-through rate times the bid. */
    predicate WellScored() { ctr > 0.0 && score == ctr * price as real }
  }

  function Offers(results: seq<SearchResult>): (offers: seq<Offer>)
    ensures |offers| == |results|
    ensures forall i :: 0 <= i < |results| ==> offers[i] == results[i].Offer()
  {
    seq(|results|, i requires 0 <= i < |results| => results[i].Offer())
  }

  ghost predicate AllWellScored(results: seq<SearchResult>) {
    forall i :: 0 <= i < |results| ==> results[i].WellScored()
  }

  /** deduplication_maps is a bijection between the adgroups seen and the slots they occupy. */
  ghost predicate Bijection(results: seq<SearchResult>, slots: map<nat, nat>) {
    && (forall id :: id in slots ==> slots[id] < |results| && results[slots[id]].adgroupId == id)
    && (forall i :: 0 <= i < |results| ==> results[i].adgroupId in slots && slots[results[i].adgroupId] == i)
  }

  /** The state of an insertion loop that has been given exactly `offers` so far. */
  ghost predicate Holds(results: seq<SearchResult>, slots: map<nat, nat>, offers: set<Offer>) {
    Bijection(results, slots) && Deduplicated(Offers(results), offers)
  }

  /** data is a better offer than the entry its adgroup already has. */
  ghost predicate Overwrites(data: SearchResult, results: seq<SearchResult>) {
    exists i :: 0 <= i < |results| && results[i].adgroupId == data.adgroupId &&
      Improves(data.Offer(), results[i].Offer())
  }

  /** Inserts data, or lets it overwrite the price, score and rate of its adgroup's entry if
      it has a higher score, or the same score at a lower price. */
  method InsertResult(results: seq<SearchResult>, slots: map<nat, nat>, data: SearchResult, ghost offers: set<Offer>)
      returns (results': seq<SearchResult>, slots': map<nat, nat>, ghost overwritten: bool)
    requires Holds(results, slots, offers)
    ensures Holds(results', slots', offers + {data.Offer()})
    ensures AllWellScored(results) && data.WellScored() ==> AllWellScored(results')
    ensures overwritten <==> Overwrites(data, results)
    ensures !overwritten ==>
      results' == if Listed(data.adgroupId, Offers(results)) then results else results + [data.(billPrice := 0)]
  {
    results', slots', overwritten := results, slots, false;
    if data.adgroupId in slots {
      var slot := slots[data.adgroupId];
      var result := results[slot];
      if data.score > result.score || (data.score == result.score && data.price < result.price) {
        results' := results[slot := result.(price := data.price, score := data.score, ctr := data.ctr)];
        overwritten := true;
        Overwritten(results, slots, slot, data, results', offers);
      } else {
        Rejected(results, slots, slot, data, offers);
      }
    } else {
      results' := results + [data.(billPrice := 0)];
      slots' := slots[data.adgroupId := |results|];
      Appended(results, slots, data, results', offers);
    }
  }

  lemma Overwritten(results: seq<SearchResult>, slots: map<nat, nat>, slot: nat, data: SearchResult,
                    results': seq<SearchResult>, offers: set<Offer>)
    requires Holds(results, slots, offers) && slot < |results| && results[slot].adgroupId == data.adgroupId
    requires Improves(data.Offer(), results[slot].Offer())
    requires results' == results[slot := results[slot].(price := data.price, score := data.score, ctr := data.ctr)]
    ensures Holds(results', slots, offers + {data.Offer()})
    ensures AllWellScored(results) && data.WellScored() ==> AllWellScored(results')
    ensures Overwrites(data, results)
  {
    hide Deduplicated, Improves;
    OverwriteKeepsBest(Offers(results), slot, data.Offer(), offers);
    assert Offers(results') == Offers(results)[slot := data.Offer()];
  }

  lemma Rejected(results: seq<SearchResult>, slots: map<nat, nat>, slot: nat, data: SearchResult, offers: set<Offer>)
    requires Holds(results, slots, offers) && slot < |results| && results[slot].adgroupId == data.adgroupId
    requires !Improves(data.Offer(), results[slot].Offer())
    ensures Holds(results, slots, offers + {data.Offer()})
    ensures !Overwrites(data, results) && Listed(data.adgroupId, Offers(results))
  {
    RejectKeepsBest(Offers(results), slot, data.Offer(), offers);
    assert Offers(results)[slot].adgroupId == data.adgroupId;
  }

  lemma Appended(results: seq<SearchResult>, slots: map<nat, nat>, data: SearchResult,
                 results': seq<SearchResult>, offers: set<Offer>)
    requires Holds(results, slots, offers) && results' == results + [data.(billPrice := 0)]
    requires data.adgroupId !in slots
    ensures Holds(results', slots[data.adgroupId := |results|], offers + {data.Offer()})
    ensures AllWellScored(results) && data.WellScored() ==> AllWellScored(results')
    ensures !Overwrites(data, results) && !Listed(data.adgroupId, Offers(results))
  {
    hide Deduplicated;
    forall i | 0 <= i < |results| ensures Offers(results)[i].adgroupId in slots { }
    AppendKeepsBest(Offers(results), data.Offer(), offers);
    assert Offers(results') == Offers(results) + [data.Offer()];
  }

  lemma OverwriteKeepsBest(s: seq<Offer>, slot: nat, o: Offer, offers: set<Offer>)
    requires Deduplicated(s, offers) && slot < |s| && s[slot].adgroupId == o.adgroupId && Improves(o, s[slot])
    ensures Deduplicated(s[slot := o], offers + {o})
  {
    var t := s[slot := o];
    forall i | 0 <= i < |t| ensures Best(t[i], offers + {o}) {
      assert Best(s[i], offers) && Best(s[slot], offers);
    }
    forall c | c in offers + {o} ensures Listed(c.adgroupId, t) {
      var p := slot;
      if c != o { p := Position(s, c.adgroupId); }
      assert t[p].adgroupId == c.adgroupId;
    }
  }

  lemma RejectKeepsBest(s: seq<Offer>, slot: nat, o: Offer, offers: set<Offer>)
    requires Deduplicated(s, offers) && slot < |s| && s[slot].adgroupId == o.adgroupId && !Improves(o, s[slot])
    ensures Deduplicated(s, offers + {o})
  {
    forall i | 0 <= i < |s| ensures Best(s[i], offers + {o}) {
      assert Best(s[i], offers);
    }
  }

  lemma AppendKeepsBest(s: seq<Offer>, o: Offer, offers: set<Offer>)
    requires Deduplicated(s, offers) && !Listed(o.adgroupId, s)
    ensures Deduplicated(s + [o], offers + {o})
  {
    var t := s + [o];
    forall i | 0 <= i < |t| ensures Best(t[i], offers + {o}) {
      if i < |s| { assert Best(s[i], offers); }
    }
    forall c | c in offers + {o} ensures Listed(c.adgroupId, t) {
      var p := |s|;
      if c != o { p := Position(s, c.adgroupId); }
      assert t[p].adgroupId == c.adgroupId;
    }
  }

  // ----- reordering -----

  lemma {:induction false} IdsCover(s: seq<Offer>)
    ensures |Ids(s)| <= |s|
    ensures |Ids(s)| == |s| ==> DistinctIds(s)
  {
    if s != [] {
      var t, x := s[..|s| - 1], s[|s| - 1].adgroupId;
      IdsCover(t);
      assert s == t + [s[|s| - 1]];
      assert Ids(s) == Ids(t) + {x};
      if |Ids(s)| == |s| {
        assert x !in Ids(t);
        forall i | 0 <= i < |t| ensures s[i].adgroupId != x { assert t[i] in t; }
      }
    }
  }

  lemma SameMembers<T>(a: seq<T>, b: seq<T>)
    requires multiset(a) == multiset(b)
    ensures |a| == |b| && forall x :: x in a <==> x in b
  {
    assert |multiset(a)| == |multiset(b)|;
    forall x ensures x in a <==> x in b { assert x in multiset(a) <==> x in multiset(b); }
  }

  /** Sorting a deduplicated list keeps it deduplicated and well scored. */
  lemma Reordered(a: seq<SearchResult>, b: seq<SearchResult>, offers: set<Offer>)
    requires multiset(a) == multiset(b) && Deduplicated(Offers(a), offers)
    ensures Deduplicated(Offers(b), offers)
    ensures AllWellScored(a) ==> AllWellScored(b)
  {
    SameMembers(a, b);
    SameOffers(a, b);
    assert forall i :: 0 <= i < |b| ==> b[i] in a;
    IdsCardinality(Offers(a));
    assert Ids(Offers(a)) == Ids(Offers(b));
    IdsCover(Offers(b));
    forall i | 0 <= i < |b| ensures Best(Offers(b)[i], offers) {
      assert Offers(b)[i] in Offers(b);
      var j :| 0 <= j < |a| && Offers(a)[j] == Offers(b)[i];
      assert Best(Offers(a)[j], offers);
    }
    forall c | c in offers ensures Listed(c.adgroupId, Offers(b)) {
      var j := Position(Offers(a), c.adgroupId);
      assert Offers(a)[j] in Offers(a);
      var i :| 0 <= i < |b| && Offers(b)[i] == Offers(a)[j];
    }
  }

  lemma SameOffers(a: seq<SearchResult>, b: seq<SearchResult>)
    requires forall x :: x in a <==> x in b
    ensures forall o :: o in Offers(a) <==> o in Offers(b)
  {
    forall o | o in Offers(a) ensures o in Offers(b) { OfferMoved(a, b, o); }
    forall o | o in Offers(b) ensures o in Offers(a) { OfferMoved(b, a, o); }
  }

  lemma OfferMoved(a: seq<SearchResult>, b: seq<SearchResult>, o: Offer)
    requires forall x :: x in a ==> x in b
    requires o in Offers(a)
    ensures o in Offers(b)
  {
    var i :| 0 <= i < |a| && Offers(a)[i] == o;
    assert a[i] in b;
    var j :| 0 <= j < |b| && b[j] == a[i];
    assert Offers(b)[j] == o;
  }

  // ----- merging -----

  /** sort_cmp of mergeResult */
  predicate SortCmp(l: SearchResult, r: SearchResult) { Before(l.Offer(), r.Offer()) }

  lemma NotBeforeTransitive(a: Offer, b: Offer, c: Offer)
    requires !Before(b, a) && !Before(c, b)
    ensures !Before(c, a)
  {
  }

  ghost function Seen(r: seq<SearchResult>, i: nat): set<Offer>
    requires i <= |r|
  {
    Elements(Offers(r[..i]))
  }

  lemma SeenNext(r: seq<SearchResult>, i: nat)
    requires i < |r|
    ensures Seen(r, i + 1) == Seen(r, i) + {r[i].Offer()}
  {
    assert Offers(r[..i + 1]) == Offers(r[..i]) + [r[i].Offer()];
  }

  /** Nothing from position i of r on comes before a result. */
  ghost predicate NothingEarlier(results: seq<SearchResult>, r: seq<SearchResult>, i: nat) {
    forall k, l :: 0 <= k < |results| && i <= l < |r| ==> !Before(r[l].Offer(), results[k].Offer())
  }

  ghost predicate InOrder(r: seq<SearchResult>) { Sorted(Offers(r)) }

  /** The state of the merge when it has taken i entries of r1 and j of r2. */
  ghost predicate Merging(results: seq<SearchResult>, slots: map<nat, nat>,
                          r1: seq<SearchResult>, i: nat, r2: seq<SearchResult>, j: nat, overwrites: nat)
  {
    && i <= |r1| && j <= |r2|
    && Holds(results, slots, Seen(r1, i) + Seen(r2, j))
    && (AllWellScored(r1) && AllWellScored(r2) ==> AllWellScored(results))
    && (InOrder(r1) && InOrder(r2) ==>
          InOrder(results) && NothingEarlier(results, r1, i) && NothingEarlier(results, r2, j) && overwrites == 0)
  }

  lemma MergingSymmetric(results: seq<SearchResult>, slots: map<nat, nat>,
                         r1: seq<SearchResult>, i: nat, r2: seq<SearchResult>, j: nat, overwrites: nat)
    requires Merging(results, slots, r1, i, r2, j, overwrites)
    ensures Merging(results, slots, r2, j, r1, i, overwrites)
  {
    assert Seen(r1, i) + Seen(r2, j) == Seen(r2, j) + Seen(r1, i);
  }

  lemma OrderKept(results: seq<SearchResult>, r: seq<SearchResult>, i: nat, x: SearchResult)
    requires InOrder(results) && NothingEarlier(results, r, i)
    requires forall k :: 0 <= k < |results| ==> !Before(x.Offer(), results[k].Offer())
    requires forall l :: i <= l < |r| ==> !Before(r[l].Offer(), x.Offer())
    ensures InOrder(results + [x]) && NothingEarlier(results + [x], r, i)
  {
    assert forall k :: 0 <= k < |results| ==> Offers(results + [x])[k] == Offers(results)[k];
  }

  /** Entries in order that are inserted in order never improve on their adgroup's entry. */
  lemma NoOverwrite(results: seq<SearchResult>, x: SearchResult)
    requires forall k :: 0 <= k < |results| ==> !Before(x.Offer(), results[k].Offer())
    ensures !Overwrites(x, results)
  {
  }

  lemma RestIsLater(r1: seq<SearchResult>, i: nat, r2: seq<SearchResult>, j: nat)
    requires i < |r1| && InOrder(r1) && InOrder(r2)
    requires j < |r2| ==> !SortCmp(r2[j], r1[i])
    ensures forall l :: i < l < |r1| ==> !Before(r1[l].Offer(), r1[i].Offer())
    ensures forall l :: j <= l < |r2| ==> !Before(r2[l].Offer(), r1[i].Offer())
  {
    forall l | i < l < |r1| ensures !Before(r1[l].Offer(), r1[i].Offer()) {
      assert !Before(Offers(r1)[l], Offers(r1)[i]);
    }
    forall l | j <= l < |r2| ensures !Before(r2[l].Offer(), r1[i].Offer()) {
      if j < l {
        assert !Before(Offers(r2)[l], Offers(r2)[j]);
        NotBeforeTransitive(r1[i].Offer(), r2[j].Offer(), r2[l].Offer());
      }
    }
  }

  /** The head of r1, when the head of r2 does not come before it, extends ordered results. */
  lemma HeadInOrder(results: seq<SearchResult>, r1: seq<SearchResult>, i: nat, r2: seq<SearchResult>, j: nat)
    requires i < |r1| && InOrder(r1) && InOrder(r2)
    requires InOrder(results) && NothingEarlier(results, r1, i) && NothingEarlier(results, r2, j)
    requires j < |r2| ==> !SortCmp(r2[j], r1[i])
    ensures !Overwrites(r1[i], results)
    ensures NothingEarlier(results, r1, i + 1)
    ensures var results' := results + [r1[i].(billPrice := 0)];
      InOrder(results') && NothingEarlier(results', r1, i + 1) && NothingEarlier(results', r2, j)
  {
    RestIsLater(r1, i, r2, j);
    NoOverwrite(results, r1[i]);
    OrderKept(results, r1, i + 1, r1[i].(billPrice := 0));
    OrderKept(results, r2, j, r1[i].(billPrice := 0));
  }

  /** Taking the head of r1, when the head of r2 does not come before it, keeps the invariant. */
  lemma TakeHead(results: seq<SearchResult>, slots: map<nat, nat>,
                 r1: seq<SearchResult>, i: nat, r2: seq<SearchResult>, j: nat, overwrites: nat,
                 results': seq<SearchResult>, slots': map<nat, nat>, over: bool)
    requires Merging(results, slots, r1, i, r2, j, overwrites) && i < |r1|
    requires j < |r2| ==> !SortCmp(r2[j], r1[i])
    requires Holds(results', slots', Seen(r1, i) + Seen(r2, j) + {r1[i].Offer()})
    requires AllWellScored(results) && r1[i].WellScored() ==> AllWellScored(results')
    requires over <==> Overwrites(r1[i], results)
    requires !over ==>
      results' == if Listed(r1[i].adgroupId, Offers(results)) then results else results + [r1[i].(billPrice := 0)]
    ensures Merging(results', slots', r1, i + 1, r2, j, if over then overwrites + 1 else overwrites)
  {
    hide Holds, InOrder, NothingEarlier, SortCmp, Overwrites, Listed, Seen;
    SeenNext(r1, i);
    assert Seen(r1, i) + Seen(r2, j) + {r1[i].Offer()} == Seen(r1, i + 1) + Seen(r2, j);
    if InOrder(r1) && InOrder(r2) { HeadInOrder(results, r1, i, r2, j); }
  }

  lemma MergeStart(r1: seq<SearchResult>, r2: seq<SearchResult>)
    ensures Merging([], map[], r1, 0, r2, 0, 0)
  {
    assert Seen(r1, 0) + Seen(r2, 0) == {};
  }

  lemma MergeDone(results: seq<SearchResult>, slots: map<nat, nat>, r1: seq<SearchResult>, r2: seq<SearchResult>,
      overwrites: nat)
    requires Merging(results, slots, r1, |r1|, r2, |r2|, overwrites)
    ensures Deduplicated(Offers(results), Elements(Offers(r1)) + Elements(Offers(r2)))
    ensures AllWellScored(r1) && AllWellScored(r2) ==> AllWellScored(results)
    ensures InOrder(r1) && InOrder(r2) ==> InOrder(results) && overwrites == 0
  {
    assert r1[..|r1|] == r1 && r2[..|r2|] == r2;
  }

  /** Two-pointer merge with removal of duplicates. The result has the best offer of every
      adgroup in either list. When both lists are in order, so is the result, and the branch
      that overwrites an entry is never taken: the first occurrence is already the best. */
  method MergeResult(result1: seq<SearchResult>, result2: seq<SearchResult>)
      returns (results: seq<SearchResult>, ghost overwrites: nat)
    ensures Deduplicated(Offers(results), Elements(Offers(result1)) + Elements(Offers(result2)))
    ensures AllWellScored(result1) && AllWellScored(result2) ==> AllWellScored(results)
    ensures InOrder(result1) && InOrder(result2) ==> InOrder(results) && overwrites == 0
  {
    hide Merging;
    results, overwrites := [], 0;
    var slots: map<nat, nat> := map[];
    var i, j := 0, 0;
    MergeStart(result1, result2);
    while i < |result1| && j < |result2|
      invariant i <= |result1| && j <= |result2|
      invariant Merging(results, slots, result1, i, result2, j, overwrites)
      decreases |result1| - i + |result2| - j
    {
      if SortCmp(result1[i], result2[j]) {
        results, slots, overwrites := TakeFirst(results, slots, result1, i, result2, j, overwrites);
        i := i + 1;
      } else {
        results, slots, overwrites := TakeSecond(results, slots, result1, i, result2, j, overwrites);
        j := j + 1;
      }
    }
    results, slots, overwrites := Drain(results, slots, result1, i, result2, j, overwrites);
    MergingSymmetric(results, slots, result1, |result1|, result2, j, overwrites);
    results, slots, overwrites := Drain(results, slots, result2, j, result1, |result1|, overwrites);
    MergingSymmetric(results, slots, result2, |result2|, result1, |result1|, overwrites);
    MergeDone(results, slots, result1, result2, overwrites);
  }

  /** The loop over what is left of one list once the other is used up, or has nothing earlier. */
  method Drain(results: seq<SearchResult>, slots: map<nat, nat>, r1: seq<SearchResult>, i: nat,
               r2: seq<SearchResult>, j: nat, ghost overwrites: nat)
      returns (results': seq<SearchResult>, slots': map<nat, nat>, ghost overwrites': nat)
    requires Merging(results, slots, r1, i, r2, j, overwrites) && i <= |r1| && (i == |r1| || j == |r2|)
    ensures Merging(results', slots', r1, |r1|, r2, j, overwrites')
  {
    hide Merging;
    results', slots', overwrites' := results, slots, overwrites;
    var i' := i;
    while i' < |r1|
      invariant i <= i' <= |r1| && Merging(results', slots', r1, i', r2, j, overwrites')
    {
      results', slots', overwrites' := TakeFirst(results', slots', r1, i', r2, j, overwrites');
      i' := i' + 1;
    }
  }

  method TakeFirst(results: seq<SearchResult>, slots: map<nat, nat>, r1: seq<SearchResult>, i: nat,
                   r2: seq<SearchResult>, j: nat, ghost overwrites: nat)
      returns (results': seq<SearchResult>, slots': map<nat, nat>, ghost overwrites': nat)
    requires Merging(results, slots, r1, i, r2, j, overwrites) && i < |r1|
    requires j < |r2| ==> !SortCmp(r2[j], r1[i])
    ensures Merging(results', slots', r1, i + 1, r2, j, overwrites')
  {
    ghost var over;
    results', slots', over := InsertResult(results, slots, r1[i], Seen(r1, i) + Seen(r2, j));
    overwrites' := if over then overwrites + 1 else overwrites;
    TakeHead(results, slots, r1, i, r2, j, overwrites, results', slots', over);
  }

  method TakeSecond(results: seq<SearchResult>, slots: map<nat, nat>, r1: seq<SearchResult>, i: nat,
                    r2: seq<SearchResult>, j: nat, ghost overwrites: nat)
      returns (results': seq<SearchResult>, slots': map<nat, nat>, ghost overwrites': nat)
    requires Merging(results, slots, r1, i, r2, j, overwrites) && j < |r2|
    requires i < |r1| ==> !SortCmp(r1[i], r2[j])
    ensures Merging(results', slots', r1, i, r2, j + 1, overwrites')
  {
    MergingSymmetric(results, slots, r1, i, r2, j, overwrites);
    results', slots', overwrites' := TakeFirst(results, slots, r2, j, r1, i, overwrites);
    MergingSymmetric(results', slots', r2, j + 1, r1, i, overwrites');
  }
}
