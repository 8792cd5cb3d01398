/** The search for the highest request rate a service sustains: a coarse pass upwards from the
    baseline, then a fine pass from the last coarse rate that passed. The settings are whole
    numbers, so the doubles of the program hold exact integers. A benchmark run is an oracle
    that says whether the service passes at a rate. */
module MaxQps {
  import opened Outcomes

  datatype Config = Config(baseline: int, upper: int, step0: int, step1: int, successPercentTh: real) {
    ghost predicate Valid() { 0 < baseline && 0 < step0 && 0 < step1 }
  }

  /** qps_limit and qps_max after a pass, the rate of its last valid summary, and its runs. */
  datatype Pass = Pass(limit: int, max: int, valid: Option<int>, probes: nat)

  /** The rates limit, limit + step, ... up to max are tried until one does not pass. */
  function Tried(passes: int -> bool, limit: int, max: int, step: int, valid: Option<int>): Pass
    requires 0 < step
    decreases max - limit
  {
    if limit > max then Pass(limit, max, valid, 0)
    else if !passes(limit) then Pass(limit - step, limit, valid, 1)
    else
      var p := Tried(passes, limit + step, max, step, Some(limit));
      p.(probes := p.probes + 1)
  }

  /** doBatchBench; a summary without any run has a success percentage of 0. */
  method DoBatchBench(passes: int -> bool, limit: int, max: int, step: int)
      returns (limit': int, max': int, validSummary: Option<int>, probes: nat)
    requires 0 < step
    ensures Pass(limit', max', validSummary, probes) == Tried(passes, limit, max, step, None)
  {
    limit', max', validSummary, probes := limit, max, None, 0;
    while limit' <= max'
      invariant max' == max
      invariant Tried(passes, limit, max, step, None)
             == var p := Tried(passes, limit', max', step, validSummary); p.(probes := p.probes + probes)
      decreases max - limit'
    {
      if !passes(limit') {
        max' := limit';
        limit' := max' - step;
        probes := probes + 1;
        break;
      }
      validSummary := Some(limit');
      limit' := limit' + step;
      probes := probes + 1;
    }
  }

  /** Where the fine pass starts. */
  function FineStart(cfg: Config, coarse: Pass): int { if coarse.limit <= 0 then cfg.step1 else coarse.limit }

  function Coarse(cfg: Config, passes: int -> bool): Pass
    requires cfg.Valid()
  {
    Tried(passes, cfg.baseline, cfg.upper, cfg.step0, None)
  }

  function Fine(cfg: Config, passes: int -> bool): Pass
    requires cfg.Valid()
  {
    var coarse := Coarse(cfg, passes);
    Tried(passes, FineStart(cfg, coarse), coarse.max, cfg.step1, None)
  }

  /** The reported rate: that of the fine pass, unless its summary is empty and thereby fails
      the threshold. */
  function Reported(cfg: Config, passes: int -> bool): Option<int>
    requires cfg.Valid()
  {
    if Fine(cfg, passes).valid == None && 0.0 < cfg.successPercentTh then Coarse(cfg, passes).valid
    else Fine(cfg, passes).valid
  }

  method TestMaxQps(cfg: Config, passes: int -> bool) returns (qps: Option<int>, probes: nat)
    requires cfg.Valid()
    ensures qps == Reported(cfg, passes)
    ensures probes == Coarse(cfg, passes).probes + Fine(cfg, passes).probes
  {
    hide Tried;
    var limit, max, summary0, probes0 := DoBatchBench(passes, cfg.baseline, cfg.upper, cfg.step0);
    if limit <= 0 {
      limit := cfg.step1;
    }
    var limit1, max1, summary1, probes1 := DoBatchBench(passes, limit, max, cfg.step1);
    qps := if summary1 == None && 0.0 < cfg.successPercentTh then summary0 else summary1;
    probes := probes0 + probes1;
  }

  // ----- what the search finds -----

  /** The service sustains exactly the rates up to c. */
  ghost predicate Threshold(passes: int -> bool, c: int) {
    forall q :: passes(q) <==> q <= c
  }

  /** Some rate of the grid limit, limit + step, ... up to max does not pass. */
  ghost predicate GridFails(limit: int, max: int, step: int, c: int) {
    exists k: nat :: c < limit + k * step <= max
  }

  ghost predicate OnGrid(x: int, limit: int, step: int) {
    exists k: nat :: x == limit + k * step
  }

  ghost predicate Accurate(qps: Option<int>, c: int, step: int) {
    qps.Some? && qps.value <= c < qps.value + step
  }

  lemma GridUnfold(limit: int, max: int, step: int, c: int)
    requires 0 < step
    ensures GridFails(limit, max, step, c) <==> c < limit <= max || GridFails(limit + step, max, step, c)
  {
    if GridFails(limit, max, step, c) {
      var k: nat :| c < limit + k * step <= max;
      if k > 0 { Shift(limit, step, k); assert c < (limit + step) + (k - 1) * step <= max; }
    }
    if c < limit <= max { assert c < limit + 0 * step <= max; }
    if GridFails(limit + step, max, step, c) {
      var k: nat :| c < (limit + step) + k * step <= max;
      Shift(limit, step, k + 1);
      assert c < limit + (k + 1) * step <= max;
    }
  }

  lemma Shift(limit: int, step: int, k: nat)
    requires k > 0
    ensures limit + k * step == (limit + step) + (k - 1) * step
  {
  }

  /** A pass ends right above the last rate that passes, or past its maximum. */
  lemma {:induction false} PassFinds(passes: int -> bool, c: int, limit: int, max: int, step: int, valid: Option<int>)
    requires 0 < step && Threshold(passes, c)
    ensures var p := Tried(passes, limit, max, step, valid);
      if GridFails(limit, max, step, c) then
        && c < p.max <= max && limit <= p.max && p.limit == p.max - step
        && (if limit <= c then p.valid == Some(p.limit) && limit <= p.limit <= c
            else p.valid == valid && p.max == limit)
      else
        && p.max == max && max < p.limit
        && (if limit <= max then
              p.valid == Some(p.limit - step) && limit <= p.limit - step <= max && p.limit - step <= c
            else p.valid == valid && p.limit == limit)
    decreases max - limit
  {
    GridUnfold(limit, max, step, c);
    if limit <= max && passes(limit) {
      PassFinds(passes, c, limit + step, max, step, Some(limit));
    }
    if limit > max { NoGrid(limit, max, step, c); }
  }

  lemma NoGrid(limit: int, max: int, step: int, c: int)
    requires 0 < step && max < limit
    ensures !GridFails(limit, max, step, c)
  {
    forall k: nat ensures limit + k * step >= limit { }
  }

  /** Coarse to fine is accurate: when the baseline passes and some coarse rate up to the upper
      limit does not, the reported rate is within one fine step below the threshold. */
  lemma ReportedAccurate(cfg: Config, passes: int -> bool, c: int)
    requires cfg.Valid() && Threshold(passes, c)
    requires cfg.baseline <= c && GridFails(cfg.baseline, cfg.upper, cfg.step0, c)
    ensures Accurate(Reported(cfg, passes), c, cfg.step1)
  {
    ReportedExactly(cfg, passes, c);
  }

  /** When some coarse rate does not pass, the report is accurate exactly if the rate at which
      the fine pass starts does pass; otherwise nothing is reported. */
  lemma ReportedExactly(cfg: Config, passes: int -> bool, c: int)
    requires cfg.Valid() && Threshold(passes, c)
    requires GridFails(cfg.baseline, cfg.upper, cfg.step0, c)
    ensures Accurate(Reported(cfg, passes), c, cfg.step1)
       <==> (cfg.baseline <= c || (if cfg.step0 < cfg.baseline then cfg.baseline - cfg.step0 else cfg.step1) <= c)
    ensures Accurate(Reported(cfg, passes), c, cfg.step1) || Reported(cfg, passes) == None
  {
    hide Tried;
    var coarse := Coarse(cfg, passes);
    PassFinds(passes, c, cfg.baseline, cfg.upper, cfg.step0, None);
    PassFinds(passes, c, FineStart(cfg, coarse), coarse.max, cfg.step1, None);
  }

  /** When no coarse rate fails, the report is the largest coarse rate up to the upper limit,
      provided that the threshold for an empty summary is positive; else there is none. */
  lemma ReportedWithoutFailure(cfg: Config, passes: int -> bool, c: int)
    requires cfg.Valid() && Threshold(passes, c)
    requires !GridFails(cfg.baseline, cfg.upper, cfg.step0, c) && cfg.baseline <= cfg.upper
    ensures var r := Reported(cfg, passes);
      if 0.0 < cfg.successPercentTh then
        r.Some? && OnGrid(r.value, cfg.baseline, cfg.step0) && r.value <= cfg.upper < r.value + cfg.step0
      else r == None
  {
    var coarse := Coarse(cfg, passes);
    PassFinds(passes, c, cfg.baseline, cfg.upper, cfg.step0, None);
    PassFinds(passes, c, FineStart(cfg, coarse), coarse.max, cfg.step1, None);
    PassOnGrid(passes, cfg.baseline, cfg.upper, cfg.step0, None);
  }

  lemma {:induction false} PassOnGrid(passes: int -> bool, limit: int, max: int, step: int, valid: Option<int>)
    requires 0 < step
    ensures Tried(passes, limit, max, step, valid).valid == valid ||
      (Tried(passes, limit, max, step, valid).valid.Some? &&
        OnGrid(Tried(passes, limit, max, step, valid).valid.value, limit, step))
    decreases max - limit
  {
    if limit <= max && passes(limit) {
      assert limit == limit + 0 * step;
      assert OnGrid(limit, limit, step);
      PassOnGrid(passes, limit + step, max, step, Some(limit));
      var p := Tried(passes, limit + step, max, step, Some(limit));
      if p.valid != Some(limit) {
        var k: nat :| p.valid.value == (limit + step) + k * step;
        Shift(limit, step, k + 1);
        assert p.valid.value == limit + (k + 1) * step;
      }
    }
  }

  /** The k-th rate of a grid. */
  function Rate(limit: int, step: int, k: int): int { limit + k * step }

  lemma RateNext(limit: int, step: int, k: int)
    ensures Rate(limit, step, 0) == limit
    ensures Rate(limit, step, k) == Rate(limit + step, step, k - 1)
    ensures Rate(limit, step, k) == Rate(limit, step, k - 1) + step
  {
  }

  /** What a pass does, for any oracle: with n runs it tries the first n rates of the grid, all
      but the last pass, and the last either fails, or is the last up to the maximum. */
  lemma {:induction false} PassMeans(passes: int -> bool, limit: int, max: int, step: int, valid: Option<int>)
    requires 0 < step
    ensures var p := Tried(passes, limit, max, step, valid);
      var n := p.probes;
      && (forall k {:trigger Rate(limit, step, k)} :: 0 <= k < n ==>
            Rate(limit, step, k) <= max && (k < n - 1 ==> passes(Rate(limit, step, k))))
      && if n > 0 && !passes(Rate(limit, step, n - 1)) then
           && p.max == Rate(limit, step, n - 1) && p.limit == p.max - step
           && p.valid == if n == 1 then valid else Some(p.limit)
         else
           && p.max == max < Rate(limit, step, n) == p.limit
           && p.valid == if n == 0 then valid else Some(p.limit - step)
    decreases max - limit
  {
    hide Rate;
    RateNext(limit, step, 0);
    if limit <= max && passes(limit) {
      PassMeans(passes, limit + step, max, step, Some(limit));
      var n := Tried(passes, limit, max, step, valid).probes;
      RateNext(limit, step, n);
      RateNext(limit, step, n - 1);
      RateNext(limit + step, step, 0);
      forall k {:trigger Rate(limit, step, k)} | 0 <= k < n
        ensures Rate(limit, step, k) <= max && (k < n - 1 ==> passes(Rate(limit, step, k)))
      {
        RateNext(limit, step, k);
      }
    }
  }

  /** Every run but the last moves on by a whole step. */
  lemma {:induction false} PassLength(passes: int -> bool, limit: int, max: int, step: int, valid: Option<int>)
    requires 0 < step
    ensures var p := Tried(passes, limit, max, step, valid);
      limit <= max ==> 0 < p.probes && (p.probes - 1) * step <= max - limit
    ensures limit > max ==> Tried(passes, limit, max, step, valid).probes == 0
    decreases max - limit
  {
    if limit <= max && passes(limit) {
      PassLength(passes, limit + step, max, step, Some(limit));
      var n := Tried(passes, limit + step, max, step, Some(limit)).probes;
      assert n * step == (n - 1) * step + step;
    }
  }

  lemma AtMostQuotient(n: int, step: int, range: int)
    requires 0 < step && 0 <= n && n * step <= range
    ensures n <= range / step
  {
    var q := range / step;
    assert n * step <= range < q * step + step == (q + 1) * step;
    Cancel(n, q + 1, step);
  }

  lemma Cancel(a: int, b: int, step: int)
    requires 0 < step && a * step < b * step
    ensures a < b
  {
  }

  /** Whatever the oracle says, a pass ends within one step of its maximum. */
  lemma {:induction false} PassWidth(passes: int -> bool, limit: int, max: int, step: int, valid: Option<int>)
    requires 0 < step && 0 < limit
    ensures var p := Tried(passes, limit, max, step, valid);
      p.max - p.limit <= step && (p.limit <= 0 ==> p.max <= step)
    decreases max - limit
  {
    if limit <= max && passes(limit) {
      PassWidth(passes, limit + step, max, step, Some(limit));
    }
  }

  /** However the service behaves, and even if it fails at a rate after passing at a higher one,
      the number of runs is at most the two ranges divided by their steps, plus two. */
  lemma ProbesBounded(cfg: Config, passes: int -> bool)
    requires cfg.Valid()
    ensures cfg.baseline <= cfg.upper ==>
      Coarse(cfg, passes).probes + Fine(cfg, passes).probes
      <= (cfg.upper - cfg.baseline) / cfg.step0 + cfg.step0 / cfg.step1 + 2
    ensures cfg.baseline > cfg.upper ==> Coarse(cfg, passes).probes + Fine(cfg, passes).probes == 0
  {
    var coarse := Coarse(cfg, passes);
    var start := FineStart(cfg, coarse);
    PassWidth(passes, cfg.baseline, cfg.upper, cfg.step0, None);
    PassLength(passes, cfg.baseline, cfg.upper, cfg.step0, None);
    PassLength(passes, start, coarse.max, cfg.step1, None);
    if cfg.baseline <= cfg.upper {
      AtMostQuotient(coarse.probes - 1, cfg.step0, cfg.upper - cfg.baseline);
      AtMostQuotient(if start <= coarse.max then Fine(cfg, passes).probes - 1 else 0, cfg.step1, cfg.step0);
    }
  }
}
