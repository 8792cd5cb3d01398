/** Second-price billing: every ad pays what keeps its score at the next one's. */
module Billing {
  import opened Integers
  import opened Ranking
  import opened SearchResults

  /** std::round on a non-negative number: to the nearest integer, halves upwards. */
  function Round(x: real): int { (x + 0.5).Floor }

  datatype Response = Response(adgroupIds: seq<nat>, prices: seq<int>)

  /** The next score divided by the ad's own rate, which is its score per unit of its bid;
      a bid of 0 has score 0 and is billed 0. */
  function Bill(o: Offer, next: Offer): int {
    if o.price == 0 || o.score == 0.0 then 0 else Round(next.score / (o.score / o.price as real))
  }

  /** What a ranking answers: the first topn ads, each billed by its successor in the ranking,
      and the very last ad of the ranking, if shown, at its own bid. */
  function Answer(r: seq<Offer>, topn: nat): Response {
    var n := Min(|r|, topn);
    Response(seq(n, i requires 0 <= i < n => r[i].adgroupId),
             seq(n, i requires 0 <= i < n => if i + 1 < |r| then Bill(r[i], r[i + 1]) else r[i].price))
  }

  /** The answer looks at no more than the first topn + 1 entries. */
  lemma AnswerOfCut(r: seq<Offer>, topn: nat)
    ensures Answer(Cut(r, topn), topn) == Answer(r, topn)
  {
    var a, b := Answer(Cut(r, topn), topn), Answer(r, topn);
    assert |a.prices| == |b.prices| == |a.adgroupIds| == |b.adgroupIds|;
    forall i | 0 <= i < |a.prices| ensures a.prices[i] == b.prices[i] && a.adgroupIds[i] == b.adgroupIds[i] {
    }
  }

  lemma RoundClose(x: real)
    ensures x - 0.5 < Round(x) as real <= x + 0.5
  {
  }

  lemma RoundBelow(x: real, n: int)
    requires x <= n as real
    ensures Round(x) <= n
  {
  }

  lemma QuotientInRange(x: real, ctr: real, n: nat) returns (q: real)
    requires ctr > 0.0 && 0.0 <= x <= ctr * n as real
    ensures q == x / ctr && q * ctr == x && 0.0 <= q <= n as real
  {
    q := x / ctr;
    assert q * ctr == x;
    assert q >= 0.0 by { if q < 0.0 { Monotone(q, 0.0, ctr); } }
    assert q <= n as real by { if q > n as real { Monotone(n as real, q, ctr); } }
  }

  lemma Monotone(a: real, b: real, c: real)
    requires c > 0.0 && a < b
    ensures a * c < b * c
  {
    assert (b - a) * c > 0.0;
  }

  lemma ErrorScaled(x: real, y: real, c: real, yc: real)
    requires c > 0.0 && -0.5 < x - y <= 0.5 && yc == y * c
    ensures -0.5 * c < x * c - yc <= 0.5 * c
  {
    var d := x - y;
    assert x * c == y * c + d * c by { Distributive(y, d, c); }
    assert (d + 0.5) * c == d * c + 0.5 * c by { Distributive(d, 0.5, c); }
    assert 0.5 * c == d * c + (0.5 - d) * c by { Distributive(d, 0.5 - d, c); }
    assert -0.5 * c + 0.5 * c == 0.0 by { Distributive(-0.5, 0.5, c); }
    assert (0.5 - d) * c >= 0.0 by { NonNegative(c, 0.5 - d); }
    assert (d + 0.5) * c > 0.0 by { NonNegative(c, d + 0.5); }
    assert d * c + 0.5 * c > 0.0;
    assert d * c > -0.5 * c;
    assert x * c - yc == d * c;
  }

  lemma Distributive(a: real, b: real, c: real)
    ensures (a + b) * c == a * c + b * c
  {
  }

  lemma RoundedQuotient(x: real, ctr: real, n: nat)
    requires ctr > 0.0 && 0.0 <= x <= ctr * n as real
    ensures 0 <= Round(x / ctr) <= n
    ensures -0.5 * ctr < Round(x / ctr) as real * ctr - x <= 0.5 * ctr
  {
    var q := QuotientInRange(x, ctr, n);
    var b := Round(q) as real;
    RoundBelow(q, n);
    RoundClose(q);
    ErrorScaled(b, q, ctr, x);
  }

  /** The rate is score / price, so billing needs no more than the two offers. */
  lemma BillByRate(cur: SearchResult, next: SearchResult)
    requires cur.WellScored() && next.WellScored()
    requires !Before(next.Offer(), cur.Offer())
    ensures Round(next.score / cur.ctr) == Bill(cur.Offer(), next.Offer())
  {
    if cur.price == 0 {
      assert next.score == 0.0 by { NonNegative(next.ctr, next.price as real); }
      assert 0.0 / cur.ctr == 0.0;
    } else {
      NonNegative(cur.ctr, cur.price as real);
      RateOf(cur.score, cur.ctr, cur.price as real);
      assert cur.score > 0.0;
      var o := cur.Offer();
      assert Bill(o, next.Offer()) == Round(next.score / (o.score / o.price as real));
    }
  }

  lemma NonNegative(a: real, b: real)
    requires a > 0.0 && b >= 0.0
    ensures a * b >= 0.0
    ensures b > 0.0 ==> a * b > 0.0
  {
  }

  lemma RateOf(score: real, ctr: real, price: real)
    requires price > 0.0 && score == ctr * price
    ensures score / price == ctr
  {
  }

  /** Billing never exceeds the bid, and with a runner-up it is the price at which the ad
      would score like the runner-up, to within half a rate, halves rounded up. */
  lemma SecondPrice(cur: SearchResult, next: SearchResult)
    requires cur.WellScored() && next.WellScored()
    requires !Before(next.Offer(), cur.Offer())
    ensures 0 <= Bill(cur.Offer(), next.Offer()) <= cur.price
    ensures var off := Bill(cur.Offer(), next.Offer()) as real * cur.ctr - next.score;
            -0.5 * cur.ctr < off <= 0.5 * cur.ctr
  {
    BillByRate(cur, next);
    NonNegative(next.ctr, next.price as real);
    RoundedQuotient(next.score, cur.ctr, cur.price);
  }

  /** A bill that is right for the offer o with successor next. */
  ghost predicate FairBill(bill: int, o: Offer, next: Offer) {
    && 0 <= bill <= o.price
    && (o.price > 0 ==>
          var rate := o.score / o.price as real;
          -0.5 * rate < bill as real * rate - next.score <= 0.5 * rate)
  }

  lemma BillIsFair(cur: SearchResult, next: SearchResult)
    requires cur.WellScored() && next.WellScored()
    requires !Before(next.Offer(), cur.Offer())
    ensures FairBill(Bill(cur.Offer(), next.Offer()), cur.Offer(), next.Offer())
  {
    hide Bill;
    SecondPrice(cur, next);
    if cur.price > 0 {
      RateOf(cur.Offer().score, cur.ctr, cur.Offer().price as real);
    }
  }
}
