/**
 What each event does to the second updater, told without its helper functions: quotients by
 what multiplying them back gives, and saturation by the number it stops at.
 */
module GasPriceV1Exact {
  import opened MachineInts
  import opened GasPriceExec
  import opened GasPriceV1
  import opened GasPriceV1Runs
  import opened GasPriceV1Prices

  // ---------------------------------------------------------------------------------------
  // L2 blocks
  // ---------------------------------------------------------------------------------------

  /** Whether a block uses `threshold` percent of its capacity. */
  ghost predicate Uses(e: Event, threshold: nat)
    requires e.L2?
  {
    Min(e.used * 100, 0xFFFF_FFFF_FFFF_FFFF) >= threshold * e.capacity
  }

  lemma UsesIff(e: Event, threshold: nat)
    requires e.L2? && Usable(e)
    ensures FullnessPercent(e.used, e.capacity) >= threshold <==> Uses(e, threshold)
  {
    FullnessReachesIff(e.used, e.capacity, threshold);
    ProductNonNegative(e.used, 100);
  }

  /**
   `share` is the DA price's share of the fee, rounded up, at the descaled prices; the product
   of fee and price stops at the largest number.
   */
  ghost predicate IsShare(p: Params, s: State, fee: u128, share: nat)
    requires ValidParams(p)
  {
    var da, exec := s.daPrice / p.gasPriceFactor, s.execPrice / p.gasPriceFactor;
    var product := Min(fee * da, 0xFFFF_FFFF_FFFF_FFFF_FFFF_FFFF_FFFF_FFFF);
    if exec + da == 0 then share == 0
    else (share - 1) * (exec + da) < product <= share * (exec + da)
  }

  lemma PortionIsExact(p: Params, s: State, fee: u128)
    requires ValidParams(p)
    ensures IsShare(p, s, fee, DaPortionOfFee(p, s, fee))
  {
    var da, exec := s.daPrice / p.gasPriceFactor, s.execPrice / p.gasPriceFactor;
    DivisionShrinks(s.daPrice, p.gasPriceFactor);
    DivisionShrinks(s.execPrice, p.gasPriceFactor);
    ProductNonNegative(fee, da);
    if exec + da > 0 {
      DivCeilExact(SatU128(fee * da), exec + da);
    }
  }

  /** Rewards, costs and profit of an accepted block. */
  lemma L2StepAccounts(p: Params, s: State, blocks: Blocks, e: Event) returns (share: nat)
    requires ValidParams(p) && Usable(e) && Accepted(s, e)
    ensures IsShare(p, s, e.fee, share)
    ensures var (s', blocks') := Step(p, s, blocks, e);
      && s'.rewards == Min(s.rewards + share, U128_MAX)
      && s'.projectedCost == Min(s.projectedCost + e.bytes * s.costPerByte, U128_MAX)
      && s'.lastProfit == Min(s'.rewards, I128_MAX) - Min(s'.projectedCost, I128_MAX)
      && s'.secondToLastProfit == s.lastProfit
      && s'.knownCost == s.knownCost && s'.costPerByte == s.costPerByte
      && s'.unrecordedBytes == Min(s.unrecordedBytes + e.bytes, U128_MAX)
      && s'.height == e.height && blocks' == blocks[e.height := e.bytes]
  {
    share := DaPortionOfFee(p, s, e.fee);
    PortionIsExact(p, s, e.fee);
    assert DaPortionOfFee(p, s.(height := e.height), e.fee) == share;
    hide DaPortionOfFee, IsShare, NextPrice, NextDaPrice, Observed, Usage;
    ProductNonNegative(e.bytes, s.costPerByte);
  }

  /** Activity after an accepted block: one up if it uses enough, one down otherwise, within the range. */
  lemma L2StepActivity(p: Params, s: State, blocks: Blocks, e: Event)
    requires ValidParams(p) && Usable(e) && Accepted(s, e)
    ensures Step(p, s, blocks, e).0.activity == s.activity.(chain :=
      if Uses(e, s.activity.blockThreshold) then Min(s.activity.chain + 1, s.activity.maxActivity)
      else Max(0, s.activity.chain - 1))
  {
    UsesIff(e, s.activity.blockThreshold);
    hide DaPortionOfFee, NextPrice, NextDaPrice, FullnessPercent, Uses;
  }

  /** The execution price after an accepted block, and that nothing else moves it. */
  lemma ExecPriceIsExact(p: Params, s: State, blocks: Blocks, e: Event)
    requires ValidParams(p) && Usable(e)
    ensures var next := Step(p, s, blocks, e).0.execPrice;
      if Accepted(s, e) then
        PriceStep(s.execPrice, next, Min(p.minExecGasPrice * p.gasPriceFactor, U64_MAX), p.execChangePercent,
                  Uses(e, p.fullnessThreshold))
      else next == s.execPrice
  {
    ExecStep(p, s, blocks, e);
    if Accepted(s, e) {
      UsesIff(e, p.fullnessThreshold);
      ProductNonNegative(p.minExecGasPrice, p.gasPriceFactor);
      assert MinExec(p) == Min(p.minExecGasPrice * p.gasPriceFactor, U64_MAX);
      NextPriceIsExact(s.execPrice, MinExec(p), p.execChangePercent,
                       FullnessPercent(e.used, e.capacity) >= p.fullnessThreshold);
    }
    hide Step, NextPrice, FullnessPercent, PriceStep, MinExec, Uses;
  }

  /** Exactly the next height is accepted; a refused block names both heights and changes nothing. */
  lemma L2AcceptedIff(p: Params, s: State, blocks: Blocks, e: Event)
    requires ValidParams(p) && e.L2? && Usable(e)
    ensures L2Update(p, s, blocks, e).Ok? <==> e.height == Min(s.height + 1, 0xFFFF_FFFF)
    ensures L2Update(p, s, blocks, e).Err? ==>
      && L2Update(p, s, blocks, e).error == SkippedL2Block(Min(s.height + 1, 0xFFFF_FFFF), e.height)
      && Step(p, s, blocks, e) == (s, blocks)
  {
    hide Accounted, Priced;
  }

  // ---------------------------------------------------------------------------------------
  // DA records
  // ---------------------------------------------------------------------------------------

  /** The part of a DA record that is booked whether or not it fails. */
  lemma DaStepBooks(p: Params, s: State, blocks: Blocks, e: Event)
    requires ValidParams(p) && e.Da? && e.first <= e.last
    ensures var (s', blocks') := Step(p, s, blocks, e);
      && (forall h :: h in blocks' <==> h in blocks && !(e.first <= h <= e.last))
      && (forall h :: h in blocks' ==> blocks'[h] == blocks[h])
      && s'.unrecordedBytes == s.unrecordedBytes - RemovedBytes(s, blocks, e)
      && s'.knownCost == Min(s.knownCost + e.cost, U128_MAX)
      && s'.rewards == s.rewards && s'.lastProfit == s.lastProfit && s'.secondToLastProfit == s.secondToLastProfit
      && s'.activity == s.activity && s'.execPrice == s.execPrice && s'.height == s.height
  {
    hide NextDaPrice, SumBytes;
  }

  /** A record of no heights changes nothing, one without bytes fails and names what it could not divide. */
  lemma DaFailsIff(p: Params, s: State, blocks: Blocks, e: Event)
    requires ValidParams(p) && e.Da?
    ensures e.first > e.last ==> Step(p, s, blocks, e) == (s, blocks)
    ensures DaUpdate(p, s, blocks, e).2.Err? <==> e.first <= e.last && e.recordedBytes == 0
    ensures DaUpdate(p, s, blocks, e).2.Err? ==>
      DaUpdate(p, s, blocks, e).2.error == CouldNotCalculateCostPerByte(0, e.cost)
  {
    hide NextDaPrice, SumBytes, InRange, OutOfRange;
  }

  /** Cost per byte and projection: from this record if it has bytes, else as before. */
  lemma DaStepProjects(p: Params, s: State, blocks: Blocks, e: Event)
    requires ValidParams(p) && e.Da? && e.first <= e.last
    ensures var s' := Step(p, s, blocks, e).0;
      if e.recordedBytes == 0 then
        s'.costPerByte == s.costPerByte && s'.projectedCost == s.projectedCost && s'.daPrice == s.daPrice
      else
        && s'.costPerByte * e.recordedBytes <= e.cost < s'.costPerByte * e.recordedBytes + e.recordedBytes
        && s'.projectedCost == Min(s'.knownCost + s'.unrecordedBytes * s'.costPerByte, U128_MAX)
  {
    hide NextDaPrice, SumBytes, InRange, OutOfRange;
    var s' := Step(p, s, blocks, e).0;
    if e.recordedBytes > 0 {
      ProductNonNegative(s'.unrecordedBytes, s'.costPerByte);
      QuotientBack(e.cost, e.recordedBytes);
      assert s'.costPerByte == e.cost / e.recordedBytes;
    }
  }

  lemma QuotientBack(a: nat, b: nat)
    requires b > 0
    ensures a / b * b <= a < a / b * b + b
  {}

  // ---------------------------------------------------------------------------------------
  // The DA price
  // ---------------------------------------------------------------------------------------

  /** `q` is `a` over `b` rounded toward zero; zero if there is no such quotient or it overflows. */
  ghost predicate IsQuotient(q: int, a: i128, b: i64) {
    if b == 0 || (a == I128_MIN && b == -1) then q == 0
    else
      && Abs(q) * Abs(b) <= Abs(a) < Abs(q) * Abs(b) + Abs(b)
      && (q > 0 ==> (a > 0) == (b > 0))
      && (q < 0 ==> (a > 0) != (b > 0))
  }

  lemma QuotientIsExact(a: i128, b: i64)
    ensures IsQuotient(QuotientOrZero(a, b), a, b)
  {
    if b != 0 {
      QuotientBack(Abs(a), Abs(b));
      DivisionShrinks(Abs(a), Abs(b));
      assert Abs(TruncDiv(a, b)) == Abs(a) / Abs(b);
      if a == 0 {
        assert 0 / Abs(b) == 0;
      }
    }
  }

  /**
   The controller: `pq` and `dq` are the profit over the P component and its slope over the D
   component, `most` the largest change. The price moves against their sum, up only as far as
   activity allows, and stays in its range.
   */
  ghost predicate Steered(p: Params, s: State, next: int, pq: int, dq: int, most: int) {
    && most >= 0
    && IsQuotient(pq, s.lastProfit, p.pComponent)
    && IsQuotient(dq, Max(I128_MIN, Min(s.lastProfit - s.secondToLastProfit, I128_MAX)), p.dComponent)
    && 100 * most <= Min(s.daPrice * p.maxDaChangePercent, U64_MAX) < 100 * most + 100
    && var wanted :=
         Max(-most, Min((Min(-pq, I128_MAX) + Min(-dq, I128_MAX)) * p.gasPriceFactor, most));
       var change :=
         if wanted <= 0 || s.activity.chain >= s.activity.cappedThreshold then wanted
         else if s.activity.chain >= s.activity.decreaseThreshold then 0
         else -most;
       next == Min(Max(Min(p.minDaGasPrice * p.gasPriceFactor, U64_MAX), s.daPrice + change),
                   Min(Max(p.maxDaGasPrice, p.minDaGasPrice) * p.gasPriceFactor, U64_MAX))
  }

  /** Saturating on the way does not matter, since the change is limited to far less in the end. */
  lemma ScaledIsClamped(a: int, b: int, factor: int, most: int)
    requires 0 < factor <= U64_MAX && 0 <= most <= U64_MAX
    ensures var scaled := SatI128(SatI128(a + b) * factor);
      Max(-most, Min((a + b) * factor, most)) ==
        if scaled > 0 then Min(SatI128(Abs(scaled)), most)
        else if scaled < 0 then -Min(SatI128(Abs(scaled)), most) else 0
  {
    var sum: int := SatI128(a + b);
    if sum == a + b {
    } else if a + b > 0 {
      Scale(1, factor, sum);
      Scale(1, factor, a + b);
    } else {
      Scale(1, factor, -sum);
      Scale(1, factor, -(a + b));
      NegatedProduct(sum, factor);
      NegatedProduct(a + b, factor);
    }
  }

  lemma NegatedProduct(a: int, b: int)
    ensures (-a) * b == -(a * b)
  {}

  lemma WantedChange(p: Params, s: State, pq: int, dq: int, most: int)
    requires ValidParams(p) && most == MaxChange(p, s) && 0 <= most <= U64_MAX
    requires pq == QuotientOrZero(s.lastProfit, p.pComponent) && dq == QuotientOrZero(Slope(s), p.dComponent)
    requires Min(-pq, I128_MAX) >= I128_MIN && Min(-dq, I128_MAX) >= I128_MIN
    ensures DaChange(p, s) == Max(-most, Min((Min(-pq, I128_MAX) + Min(-dq, I128_MAX)) * p.gasPriceFactor, most))
  {
    hide QuotientOrZero, MaxChange, Slope;
    assert ProportionalTerm(p, s) == Min(-pq, I128_MAX) && DerivativeTerm(p, s) == Min(-dq, I128_MAX);
    hide ProportionalTerm, DerivativeTerm, SatI128;
    ScaledIsClamped(ProportionalTerm(p, s), DerivativeTerm(p, s), p.gasPriceFactor, most);
  }

  lemma QuotientFits(a: i128, b: i64)
    ensures Abs(QuotientOrZero(a, b)) <= Abs(a) && -QuotientOrZero(a, b) >= I128_MIN
  {
    if b != 0 {
      DivisionShrinks(Abs(a), Abs(b));
      if a == I128_MIN && b != -1 && b < 0 {
        QuotientBack(Abs(a), Abs(b));
        Scale(2, Abs(b), Abs(a) / Abs(b));
      }
    }
  }

  lemma MaxChangeIsExact(p: Params, s: State)
    ensures 0 <= MaxChange(p, s) <= U64_MAX
    ensures 100 * MaxChange(p, s) <= Min(s.daPrice * p.maxDaChangePercent, U64_MAX) < 100 * MaxChange(p, s) + 100
  {
    ProductNonNegative(s.daPrice, p.maxDaChangePercent);
  }

  /** The DA price after an update is what the controller makes of profit and activity. */
  lemma DaPriceIsSteered(p: Params, s: State) returns (pq: int, dq: int, most: int)
    requires ValidParams(p)
    ensures Steered(p, s, NextDaPrice(p, s), pq, dq, most)
  {
    pq, dq := QuotientOrZero(s.lastProfit, p.pComponent), QuotientOrZero(Slope(s), p.dComponent);
    QuotientIsExact(s.lastProfit, p.pComponent);
    QuotientIsExact(Slope(s), p.dComponent);
    QuotientFits(s.lastProfit, p.pComponent);
    QuotientFits(Slope(s), p.dComponent);
    MaxChangeIsExact(p, s);
    most := MaxChange(p, s);
    WantedChange(p, s, pq, dq, most);
    ProductNonNegative(p.minDaGasPrice, p.gasPriceFactor);
    ProductNonNegative(Max(p.maxDaGasPrice, p.minDaGasPrice), p.gasPriceFactor);
    hide QuotientOrZero, IsQuotient, MaxChange, DaChange;
  }

  /** An event sets the DA price so, by profit and activity as it leaves them, or leaves it alone. */
  lemma StepIsSteered(p: Params, s: State, blocks: Blocks, e: Event) returns (pq: int, dq: int, most: int)
    requires ValidParams(p) && Usable(e)
    ensures var s' := Step(p, s, blocks, e).0;
      if SetsDaPrice(s, e) then Steered(p, s'.(daPrice := s.daPrice), s'.daPrice, pq, dq, most)
      else s'.daPrice == s.daPrice
  {
    hide Step, NextDaPrice, Steered, SetsDaPrice, DaMove;
    pq, dq, most := 0, 0, 0;
    if SetsDaPrice(s, e) {
      SameDaPrice(p, s, blocks, e);
      pq, dq, most := DaPriceIsSteered(p, Step(p, s, blocks, e).0.(daPrice := s.daPrice));
    } else {
      StepMovesDaPrice(p, s, blocks, e);
    }
  }

  // ---------------------------------------------------------------------------------------
  // Runs
  // ---------------------------------------------------------------------------------------

  /**
   After any run, a block whose rewards cover its projected cost, with profit not falling, never
   raises the DA price; in normal activity one whose rewards do not, with profit not rising,
   never lowers it.
   */
  lemma CoverDecides(p: Params, s: State, blocks: Blocks, run: seq<Event>, e: Event)
    requires ValidParams(p) && AllUsable(run) && Usable(e) && InDaRange(p, s.daPrice)
    requires p.pComponent >= 0 && p.dComponent >= 0
    requires Accepted(Run(p, s, blocks, run).0, e)
    ensures var (mid, rest) := Run(p, s, blocks, run);
      var s' := Step(p, mid, rest, e).0;
      var profit := Min(s'.rewards, I128_MAX) - Min(s'.projectedCost, I128_MAX);
      && (s'.rewards >= s'.projectedCost && profit >= mid.lastProfit ==> s'.daPrice <= mid.daPrice)
      && (s'.rewards <= s'.projectedCost && profit <= mid.lastProfit &&
          s'.activity.chain >= s'.activity.cappedThreshold ==>
            s'.daPrice >= mid.daPrice)
  {
    var (mid, rest) := Run(p, s, blocks, run);
    hide Run, Step, InDaRange, IsShare;
    RunStaysInDaRange(p, s, blocks, run);
    StepMovesDaPrice(p, mid, rest, e);
    var _ := L2StepAccounts(p, mid, rest, e);
  }

  /** Full blocks only: each accepted one adds at least a percentage of the starting execution price. */
  lemma {:induction false} RunGrows(p: Params, s: State, blocks: Blocks, run: seq<Event>, g: nat)
    requires ValidParams(p) && AllUsable(run) && s.execPrice >= MinExec(p)
    requires 100 * g <= Min(s.execPrice * p.execChangePercent, 0xFFFF_FFFF_FFFF_FFFF)
    requires forall i :: 0 <= i < |run| && run[i].L2? ==> Uses(run[i], p.fullnessThreshold)
    ensures var price := Run(p, s, blocks, run).0.execPrice;
      price >= s.execPrice && price >= Min(0xFFFF_FFFF_FFFF_FFFF, s.execPrice + AcceptedIn(p, s, blocks, run) * g)
    decreases |run|
  {
    hide Step, PriceStep, Uses, Compounded, Accepted;
    if run != [] {
      var front, e := run[..|run| - 1], run[|run| - 1];
      RunGrows(p, s, blocks, front, g);
      RunCompounds(p, s, blocks, front);
      var (mid, rest) := Run(p, s, blocks, front);
      assert Usable(e);
      ExecPriceIsExact(p, mid, rest, e);
      MinExecIs(p);
      if Accepted(mid, e) {
        AcceptedIsL2(mid, e);
        StepGrows(mid.execPrice, Step(p, mid, rest, e).0.execPrice, MinExec(p), p.execChangePercent, s.execPrice, g);
        SuccessorProduct(AcceptedIn(p, s, blocks, front), g);
      }
    }
  }

  /** Other blocks only: each accepted one takes off at least a percentage of `floor`, down to it. */
  lemma {:induction false} RunFalls(p: Params, s: State, blocks: Blocks, run: seq<Event>, floor: u64, g: nat)
    requires ValidParams(p) && AllUsable(run) && s.execPrice >= MinExec(p) && floor >= MinExec(p)
    requires 100 * g <= Min(floor * p.execChangePercent, 0xFFFF_FFFF_FFFF_FFFF)
    requires forall i :: 0 <= i < |run| && run[i].L2? ==> !Uses(run[i], p.fullnessThreshold)
    ensures var price := Run(p, s, blocks, run).0.execPrice;
      price <= s.execPrice && price <= Max(floor, s.execPrice - AcceptedIn(p, s, blocks, run) * g)
    decreases |run|
  {
    hide Step, PriceStep, Uses, Compounded, Accepted;
    if run != [] {
      var front, e := run[..|run| - 1], run[|run| - 1];
      RunFalls(p, s, blocks, front, floor, g);
      RunCompounds(p, s, blocks, front);
      var (mid, rest) := Run(p, s, blocks, front);
      assert Usable(e);
      ExecPriceIsExact(p, mid, rest, e);
      MinExecIs(p);
      if Accepted(mid, e) {
        AcceptedIsL2(mid, e);
        StepFalls(mid.execPrice, Step(p, mid, rest, e).0.execPrice, MinExec(p), p.execChangePercent, floor, g);
        SuccessorProduct(AcceptedIn(p, s, blocks, front), g);
      }
    }
  }

  lemma MinExecIs(p: Params)
    ensures MinExec(p) == Min(p.minExecGasPrice * p.gasPriceFactor, U64_MAX)
  {
    ProductNonNegative(p.minExecGasPrice, p.gasPriceFactor);
  }

  lemma AcceptedIsL2(s: State, e: Event)
    requires Accepted(s, e)
    ensures e.L2?
  {}

  // ---------------------------------------------------------------------------------------
  // Activity over runs
  // ---------------------------------------------------------------------------------------

  lemma StepActivity(p: Params, s: State, blocks: Blocks, e: Event)
    requires ValidParams(p) && Usable(e) && !Accepted(s, e)
    ensures Step(p, s, blocks, e).0.activity == s.activity
  {
    hide NextDaPrice, SumBytes, InRange, OutOfRange;
  }

  /** Idle blocks only: each accepted one takes one off the activity, down to zero. */
  lemma {:induction false} IdleRunDrains(p: Params, s: State, blocks: Blocks, run: seq<Event>)
    requires ValidParams(p) && AllUsable(run)
    requires forall i :: 0 <= i < |run| && run[i].L2? ==> !Uses(run[i], s.activity.blockThreshold)
    ensures Run(p, s, blocks, run).0.activity ==
      s.activity.(chain := Max(0, s.activity.chain - AcceptedIn(p, s, blocks, run)))
    decreases |run|
  {
    hide Step, Uses, Accepted;
    if run != [] {
      var front, e := run[..|run| - 1], run[|run| - 1];
      IdleRunDrains(p, s, blocks, front);
      var (mid, rest) := Run(p, s, blocks, front);
      assert Usable(e);
      if Accepted(mid, e) {
        AcceptedIsL2(mid, e);
        L2StepActivity(p, mid, rest, e);
      } else {
        StepActivity(p, mid, rest, e);
      }
    }
  }

  /** Busy blocks only: each accepted one adds one to the activity, up to the largest. */
  lemma {:induction false} BusyRunFills(p: Params, s: State, blocks: Blocks, run: seq<Event>)
    requires ValidParams(p) && AllUsable(run) && s.activity.chain <= s.activity.maxActivity
    requires forall i :: 0 <= i < |run| && run[i].L2? ==> Uses(run[i], s.activity.blockThreshold)
    ensures Run(p, s, blocks, run).0.activity ==
      s.activity.(chain := Min(s.activity.chain + AcceptedIn(p, s, blocks, run), s.activity.maxActivity))
    decreases |run|
  {
    hide Step, Uses, Accepted;
    if run != [] {
      var front, e := run[..|run| - 1], run[|run| - 1];
      BusyRunFills(p, s, blocks, front);
      var (mid, rest) := Run(p, s, blocks, front);
      assert Usable(e);
      if Accepted(mid, e) {
        AcceptedIsL2(mid, e);
        L2StepActivity(p, mid, rest, e);
      } else {
        StepActivity(p, mid, rest, e);
      }
    }
  }

  /** An idle chain ends up in the mode that only lowers the DA price exactly when it was idle long enough. */
  lemma IdleLeadsToDecreaseIff(p: Params, s: State, blocks: Blocks, run: seq<Event>)
    requires ValidParams(p) && AllUsable(run)
    requires forall i :: 0 <= i < |run| && run[i].L2? ==> !Uses(run[i], s.activity.blockThreshold)
    requires 0 < s.activity.decreaseThreshold <= s.activity.cappedThreshold
    ensures Mode(Run(p, s, blocks, run).0.activity) == AlwaysDecrease <==>
      AcceptedIn(p, s, blocks, run) > s.activity.chain - s.activity.decreaseThreshold
  {
    hide Run, AcceptedIn, Uses;
    IdleRunDrains(p, s, blocks, run);
  }

  /** A busy chain gets back to the normal mode exactly when it was busy long enough. */
  lemma BusyLeadsToNormalIff(p: Params, s: State, blocks: Blocks, run: seq<Event>)
    requires ValidParams(p) && AllUsable(run)
    requires forall i :: 0 <= i < |run| && run[i].L2? ==> Uses(run[i], s.activity.blockThreshold)
    requires s.activity.chain <= s.activity.maxActivity && s.activity.cappedThreshold <= s.activity.maxActivity
    ensures Mode(Run(p, s, blocks, run).0.activity) == Normal <==>
      AcceptedIn(p, s, blocks, run) >= s.activity.cappedThreshold - s.activity.chain
  {
    hide Run, AcceptedIn, Uses;
    BusyRunFills(p, s, blocks, run);
  }
}
