/** Bounds on prices and rewards over every run of the second updater. */
module GasPriceV1Prices {
  import opened MachineInts
  import opened GasPriceExec
  import opened GasPriceV1
  import opened GasPriceV1Runs

  // ---------------------------------------------------------------------------------------
  // Execution price
  // ---------------------------------------------------------------------------------------

  /** The number of L2 blocks a run accepts. */
  ghost function AcceptedIn(p: Params, s: State, blocks: Blocks, run: seq<Event>): nat
    requires ValidParams(p) && AllUsable(run)
    decreases |run|
  {
    if run == [] then 0
    else
      var front := run[..|run| - 1];
      AcceptedIn(p, s, blocks, front)
        + if Accepted(Run(p, s, blocks, front).0, run[|run| - 1]) then 1 else 0
  }

  lemma ExecStep(p: Params, s: State, blocks: Blocks, e: Event)
    requires ValidParams(p) && Usable(e)
    ensures Step(p, s, blocks, e).0.execPrice ==
      if Accepted(s, e) then
        NextPrice(s.execPrice, MinExec(p), p.execChangePercent,
                  FullnessPercent(e.used, e.capacity) >= p.fullnessThreshold)
      else s.execPrice
  {
    hide NextPrice, NextDaPrice, DaPortionOfFee, SumBytes, InRange, OutOfRange;
  }

  /** An accepted block that reaches the threshold never lowers the execution price, any other never raises it. */
  lemma ExecPriceFollowsFullness(p: Params, s: State, blocks: Blocks, e: Event)
    requires ValidParams(p) && Usable(e) && Accepted(s, e) && s.execPrice >= MinExec(p)
    ensures var price := Step(p, s, blocks, e).0.execPrice;
      && (SatU64(e.used * 100) >= p.fullnessThreshold * e.capacity ==> price >= s.execPrice)
      && (SatU64(e.used * 100) < p.fullnessThreshold * e.capacity ==> price <= s.execPrice)
  {
    hide Step, NextPrice, FullnessPercent, MinExec;
    ExecStep(p, s, blocks, e);
    FullnessReachesIff(e.used, e.capacity, p.fullnessThreshold);
    NextPriceBounds(s.execPrice, MinExec(p), p.execChangePercent,
                    FullnessPercent(e.used, e.capacity) >= p.fullnessThreshold);
  }

  /** The scaled execution price compounds with accepted blocks only, and never falls below its minimum. */
  lemma {:induction false} RunCompounds(p: Params, s: State, blocks: Blocks, run: seq<Event>)
    requires ValidParams(p) && AllUsable(run) && s.execPrice >= MinExec(p)
    ensures var price := Run(p, s, blocks, run).0.execPrice;
      && price >= MinExec(p)
      && Compounded(s.execPrice, price, p.execChangePercent, AcceptedIn(p, s, blocks, run))
    decreases |run|
  {
    hide Compounded, NextPrice, Step, MinExec;
    if run == [] {
      CompoundStart(s.execPrice, p.execChangePercent);
    } else {
      var front, e := run[..|run| - 1], run[|run| - 1];
      RunCompounds(p, s, blocks, front);
      var (mid, rest) := Run(p, s, blocks, front);
      assert Usable(e);
      ExecStep(p, mid, rest, e);
      if Accepted(mid, e) {
        CompoundStep(s.execPrice, mid.execPrice, MinExec(p), p.execChangePercent,
                     FullnessPercent(e.used, e.capacity) >= p.fullnessThreshold,
                     AcceptedIn(p, s, blocks, front));
      }
    }
  }

  // ---------------------------------------------------------------------------------------
  // DA price
  // ---------------------------------------------------------------------------------------

  ghost predicate InDaRange(p: Params, price: u64) { MinDa(p) <= price <= MaxDa(p) }

  lemma DaRangeNotEmpty(p: Params)
    ensures MinDa(p) <= MaxDa(p)
  {
    Scale(p.minDaGasPrice, Max(p.maxDaGasPrice, p.minDaGasPrice), p.gasPriceFactor);
  }

  lemma MaxChangeNotNegative(p: Params, s: State)
    ensures 0 <= MaxChange(p, s)
  {
    ProductNonNegative(s.daPrice, p.maxDaChangePercent);
  }

  lemma DaChangeBounded(p: Params, s: State)
    ensures Abs(DaChange(p, s)) <= MaxChange(p, s)
  {
    hide ProportionalTerm, DerivativeTerm, MaxChange;
    MaxChangeNotNegative(p, s);
  }

  lemma ActivityChangeBounded(p: Params, s: State)
    ensures Abs(ActivityChange(p, s)) <= MaxChange(p, s)
    ensures Mode(s.activity) != Normal ==> ActivityChange(p, s) <= 0
    ensures DaChange(p, s) <= 0 ==> ActivityChange(p, s) == DaChange(p, s)
    ensures Mode(s.activity) == Normal ==> ActivityChange(p, s) == DaChange(p, s)
  {
    hide DaChange, MaxChange;
    DaChangeBounded(p, s);
    MaxChangeNotNegative(p, s);
  }

  lemma TruncDivSign(a: int, b: int)
    requires b > 0
    ensures a >= 0 ==> TruncDiv(a, b) >= 0
    ensures a <= 0 ==> TruncDiv(a, b) <= 0
  {
    DivisionShrinks(Abs(a), b);
    if a == 0 {
      assert 0 / b == 0;
    }
  }

  lemma QuotientSign(a: i128, b: i64)
    requires b >= 0
    ensures a >= 0 ==> QuotientOrZero(a, b) >= 0
    ensures a <= 0 ==> QuotientOrZero(a, b) <= 0
  {
    if b > 0 {
      TruncDivSign(a, b);
    }
  }

  /** Profit that is positive and not falling lowers the price; losses that are not shrinking raise it. */
  lemma DaChangeSign(p: Params, s: State)
    requires ValidParams(p) && p.pComponent >= 0 && p.dComponent >= 0
    ensures s.lastProfit >= 0 && s.lastProfit >= s.secondToLastProfit ==> DaChange(p, s) <= 0
    ensures s.lastProfit <= 0 && s.lastProfit <= s.secondToLastProfit ==> DaChange(p, s) >= 0
  {
    QuotientSign(s.lastProfit, p.pComponent);
    QuotientSign(Slope(s), p.dComponent);
    MaxChangeNotNegative(p, s);
    hide MaxChange, QuotientOrZero;
    var sum := SatI128(ProportionalTerm(p, s) + DerivativeTerm(p, s));
    SignOfProduct(sum, p.gasPriceFactor);
  }

  lemma SignOfProduct(a: int, b: int)
    requires b > 0
    ensures a <= 0 ==> a * b <= 0
    ensures a >= 0 ==> a * b >= 0
  {}

  lemma DivMonotone(x: nat, y: nat, d: nat)
    requires x <= y && d > 0
    ensures x / d <= y / d
  {
    var p, q := x / d, y / d;
    assert p * d <= x && y < q * d + d;
    if p > q {
      Scale(q + 1, p, d);
      SuccessorProduct(q, d);
      assert false;
    }
  }

  lemma TruncDivMonotone(a: int, b: int, d: int)
    requires a <= b && d > 0
    ensures TruncDiv(a, d) <= TruncDiv(b, d)
  {
    TruncDivSign(a, d);
    TruncDivSign(b, d);
    if a >= 0 {
      DivMonotone(a, b, d);
    } else if b < 0 {
      DivMonotone(-b, -a, d);
    }
  }

  lemma QuotientMonotone(a: i128, b: i128, d: i64)
    requires a <= b && d >= 0
    ensures QuotientOrZero(a, d) <= QuotientOrZero(b, d)
  {
    if d > 0 {
      TruncDivMonotone(a, b, d);
    }
  }

  /** More profit never asks for a larger change. */
  lemma DaChangeFallsWithProfit(p: Params, s: State, more: i128)
    requires ValidParams(p) && p.pComponent >= 0 && p.dComponent >= 0 && more >= s.lastProfit
    ensures DaChange(p, s.(lastProfit := more)) <= DaChange(p, s)
  {
    var s' := s.(lastProfit := more);
    QuotientMonotone(s.lastProfit, more, p.pComponent);
    QuotientMonotone(Slope(s), Slope(s'), p.dComponent);
    hide QuotientOrZero;
    var sum := SatI128(ProportionalTerm(p, s) + DerivativeTerm(p, s));
    var sum' := SatI128(ProportionalTerm(p, s') + DerivativeTerm(p, s'));
    assert sum' <= sum;
    Scale(sum', sum, p.gasPriceFactor);
    MaxChangeNotNegative(p, s);
    hide ProportionalTerm, DerivativeTerm, MaxChange;
    assert MaxChange(p, s') == MaxChange(p, s) by { SameMaxChange(p, s, s'); }
  }

  lemma SameMaxChange(p: Params, a: State, b: State)
    requires a.daPrice == b.daPrice
    ensures MaxChange(p, a) == MaxChange(p, b)
  {}

  lemma ClampRisesIff(x: int, y: int, low: u64, high: u64)
    requires x < y && low <= high
    ensures Min(Max(low, SatU64(y)), high) > Min(Max(low, SatU64(x)), high) <==> low < y && x < high && low < high
  {}

  /**
   More profit leads to a higher DA price in exactly one situation: activity turns the increase
   that the smaller profit asks for into the largest decrease, the larger profit asks for a
   smaller decrease, and the price range leaves room for the difference.
   */
  lemma DaPriceRisesWithProfitIff(p: Params, s: State, more: i128)
    requires ValidParams(p) && p.pComponent >= 0 && p.dComponent >= 0 && more >= s.lastProfit
    ensures var s' := s.(lastProfit := more);
      NextDaPrice(p, s') > NextDaPrice(p, s) <==>
        && Mode(s.activity) == AlwaysDecrease
        && DaChange(p, s) > 0 && -MaxChange(p, s) < DaChange(p, s') <= 0
        && MinDa(p) < s.daPrice + DaChange(p, s') && s.daPrice - MaxChange(p, s) < MaxDa(p) && MinDa(p) < MaxDa(p)
  {
    var s' := s.(lastProfit := more);
    DaChangeFallsWithProfit(p, s, more);
    SameMaxChange(p, s, s');
    DaRangeNotEmpty(p);
    hide DaChange, MinDa, MaxDa, MaxChange, SatU64;
    MaxChangeNotNegative(p, s);
    DaChangeBounded(p, s');
    var x, y := s.daPrice + ActivityChange(p, s), s.daPrice + ActivityChange(p, s');
    if x < y {
      ClampRisesIff(x, y, MinDa(p), MaxDa(p));
    } else {
      ClampMonotone(y, x, MinDa(p), MaxDa(p));
    }
  }

  lemma ClampMonotone(x: int, y: int, low: u64, high: u64)
    requires x <= y
    ensures Min(Max(low, SatU64(x)), high) <= Min(Max(low, SatU64(y)), high)
  {}

  /** In the decreasing mode it can: a loss lowers the price by the most, a small profit hardly. */
  lemma ForcedDecreaseInverts(p: Params, s: State)
    requires ValidParams(p) && p.pComponent == 1 && p.dComponent == 1
    requires Mode(s.activity) == AlwaysDecrease && MinDa(p) == 0 && MaxChange(p, s) > 0
    requires s.lastProfit == -1 && s.secondToLastProfit == 0 && s.daPrice <= MaxDa(p)
    ensures NextDaPrice(p, s.(lastProfit := 0)) > NextDaPrice(p, s)
  {
    var s' := s.(lastProfit := 0);
    assert Slope(s) == -1 && Slope(s') == 0;
    assert TruncDiv(-1, 1) == -1 && TruncDiv(0, 1) == 0;
    assert ProportionalTerm(p, s) + DerivativeTerm(p, s) == 2 && ProportionalTerm(p, s') + DerivativeTerm(p, s') == 0;
    DaChangeOf(p, s, 2);
    DaChangeOf(p, s', 0);
    hide DaChange, MaxDa, MinDa;
    MaxChangeWithinPrice(p, s);
  }

  lemma DaChangeOf(p: Params, s: State, sum: nat)
    requires ValidParams(p) && ProportionalTerm(p, s) + DerivativeTerm(p, s) == sum && sum <= 2
    ensures sum == 0 ==> DaChange(p, s) == 0
    ensures sum > 0 && MaxChange(p, s) > 0 ==> DaChange(p, s) > 0
  {
    hide ProportionalTerm, DerivativeTerm, MaxChange;
    assert sum == 0 || sum == 1 || sum == 2;
  }

  lemma MaxChangeWithinPrice(p: Params, s: State)
    ensures MaxChange(p, s) > 0 ==> s.daPrice > 0
  {
    if s.daPrice == 0 {
      assert s.daPrice * p.maxDaChangePercent == 0;
    }
  }

  /** How a price update may move the scaled DA price. */
  ghost predicate DaMove(p: Params, s: State, next: u64) {
    && InDaRange(p, next)
    && (InDaRange(p, s.daPrice) ==>
          && Abs(next - s.daPrice) <= MaxChange(p, s)
          && (Mode(s.activity) != Normal ==> next <= s.daPrice)
          && (p.pComponent >= 0 && p.dComponent >= 0 ==>
                && (s.lastProfit >= 0 && s.lastProfit >= s.secondToLastProfit ==> next <= s.daPrice)
                && (s.lastProfit <= 0 && s.lastProfit <= s.secondToLastProfit && Mode(s.activity) == Normal ==>
                      next >= s.daPrice)))
  }

  lemma NextDaPriceMoves(p: Params, s: State)
    requires ValidParams(p)
    ensures DaMove(p, s, NextDaPrice(p, s))
  {
    DaRangeNotEmpty(p);
    ActivityChangeBounded(p, s);
    if p.pComponent >= 0 && p.dComponent >= 0 {
      DaChangeSign(p, s);
    }
    hide MinDa, MaxDa, MaxChange, ActivityChange, DaChange, Mode;
  }

  /** Whether an event sets the DA price. */
  predicate SetsDaPrice(s: State, e: Event) {
    Accepted(s, e) || (e.Da? && e.first <= e.last && !Failing(e))
  }

  /** An event moves the DA price by the rules, judged by profit and activity as it leaves them, or not at all. */
  lemma StepMovesDaPrice(p: Params, s: State, blocks: Blocks, e: Event)
    requires ValidParams(p) && Usable(e)
    ensures var s' := Step(p, s, blocks, e).0;
      if SetsDaPrice(s, e) then DaMove(p, s'.(daPrice := s.daPrice), s'.daPrice)
      else s'.daPrice == s.daPrice
  {
    hide NextPrice, NextDaPrice, DaPortionOfFee, SumBytes, InRange, OutOfRange, Observed, Usage, DaMove;
    var s' := Step(p, s, blocks, e).0;
    if SetsDaPrice(s, e) {
      SameDaPrice(p, s, blocks, e);
      NextDaPriceMoves(p, s'.(daPrice := s.daPrice));
    }
  }

  /** The DA price is computed from profit and activity only, which the later steps leave alone. */
  lemma SameDaPrice(p: Params, s: State, blocks: Blocks, e: Event)
    requires ValidParams(p) && Usable(e) && SetsDaPrice(s, e)
    ensures var s' := Step(p, s, blocks, e).0;
      s'.daPrice == NextDaPrice(p, s'.(daPrice := s.daPrice))
  {
    hide NextPrice, DaPortionOfFee, SumBytes, InRange, OutOfRange, Observed, Usage, SatU128, SatI128, QuotientOrZero;
  }

  /** Once in its range, the scaled DA price never leaves it. */
  lemma {:induction false} RunStaysInDaRange(p: Params, s: State, blocks: Blocks, run: seq<Event>)
    requires ValidParams(p) && AllUsable(run) && InDaRange(p, s.daPrice)
    ensures InDaRange(p, Run(p, s, blocks, run).0.daPrice)
    decreases |run|
  {
    hide Step, MinDa, MaxDa;
    if run != [] {
      RunStaysInDaRange(p, s, blocks, run[..|run| - 1]);
      var (mid, rest) := Run(p, s, blocks, run[..|run| - 1]);
      assert Usable(run[|run| - 1]);
      StepMovesDaPrice(p, mid, rest, run[|run| - 1]);
    }
  }

  // ---------------------------------------------------------------------------------------
  // Rewards
  // ---------------------------------------------------------------------------------------

  lemma DivCeilAtMost(x: nat, d: nat, limit: nat)
    requires d > 0 && x <= limit * d
    ensures DivCeil(x, d) <= limit
  {
    var q := (x + d - 1) / d;
    assert q * d <= x + d - 1;
    if q > limit {
      Scale(limit + 1, q, d);
    }
  }

  /** The DA portion is the DA price's share of the fee, rounded up: one less would be too little. */
  lemma PortionIsShare(p: Params, s: State, fee: u128)
    requires ValidParams(p)
    ensures var da, exec := s.daPrice / p.gasPriceFactor, s.execPrice / p.gasPriceFactor;
      fee * da <= U128_MAX && exec + da > 0 ==>
        && DaPortionOfFee(p, s, fee) * (exec + da) >= fee * da
        && (DaPortionOfFee(p, s, fee) - 1) * (exec + da) < fee * da
  {
    var da, exec := s.daPrice / p.gasPriceFactor, s.execPrice / p.gasPriceFactor;
    DivisionShrinks(s.daPrice, p.gasPriceFactor);
    DivisionShrinks(s.execPrice, p.gasPriceFactor);
    ProductNonNegative(fee, da);
    if fee * da <= U128_MAX && exec + da > 0 {
      DivCeilExact(fee * da, exec + da);
    }
  }

  lemma DivCeilExact(x: nat, d: nat)
    requires d > 0
    ensures DivCeil(x, d) * d >= x && (DivCeil(x, d) - 1) * d < x
  {
    var q := (x + d - 1) / d;
    assert q * d <= x + d - 1 < q * d + d;
    SuccessorProduct(q - 1, d);
  }

  /** Even rounded up, the DA portion never exceeds the fee. */
  lemma PortionWithinFee(p: Params, s: State, fee: u128)
    requires ValidParams(p)
    ensures DaPortionOfFee(p, s, fee) <= fee
  {
    var da, exec := s.daPrice / p.gasPriceFactor, s.execPrice / p.gasPriceFactor;
    DivisionShrinks(s.daPrice, p.gasPriceFactor);
    DivisionShrinks(s.execPrice, p.gasPriceFactor);
    var d := SatU128(exec + da);
    if d != 0 {
      Scale(da, d, fee);
      ProductNonNegative(fee, da);
      DivCeilAtMost(SatU128(fee * da), d, fee);
    }
  }

  ghost function FeesIn(p: Params, s: State, blocks: Blocks, run: seq<Event>): nat
    requires ValidParams(p) && AllUsable(run)
    decreases |run|
  {
    if run == [] then 0
    else
      var front, e := run[..|run| - 1], run[|run| - 1];
      FeesIn(p, s, blocks, front) + if Accepted(Run(p, s, blocks, front).0, e) then e.fee else 0
  }

  lemma StepRewards(p: Params, s: State, blocks: Blocks, e: Event)
    requires ValidParams(p) && Usable(e)
    ensures var rewards := Step(p, s, blocks, e).0.rewards;
      s.rewards <= rewards <= s.rewards + if Accepted(s, e) then e.fee else 0
  {
    if Accepted(s, e) {
      PortionWithinFee(p, s.(height := e.height), e.fee);
    }
    hide NextPrice, NextDaPrice, DaPortionOfFee, SumBytes, InRange, OutOfRange, Observed, Usage;
  }

  /** Over any run the rewards grow, by no more than the fees of the accepted blocks. */
  lemma {:induction false} RunRewards(p: Params, s: State, blocks: Blocks, run: seq<Event>)
    requires ValidParams(p) && AllUsable(run)
    ensures s.rewards <= Run(p, s, blocks, run).0.rewards <= s.rewards + FeesIn(p, s, blocks, run)
    decreases |run|
  {
    hide Step;
    if run != [] {
      RunRewards(p, s, blocks, run[..|run| - 1]);
      var (mid, rest) := Run(p, s, blocks, run[..|run| - 1]);
      assert Usable(run[|run| - 1]);
      StepRewards(p, mid, rest, run[|run| - 1]);
    }
  }
}
