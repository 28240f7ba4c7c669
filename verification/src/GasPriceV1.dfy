/**
 The second gas price updater: an execution price that follows block fullness and a data
 availability (DA) price steered by profit, with projected costs for unrecorded blocks.
 */
module GasPriceV1 {
  import opened Wrappers
  import opened MachineInts
  import opened GasPriceExec

  datatype Error =
    | SkippedL2Block(expected: u32, got: u32)
    | CouldNotCalculateCostPerByte(bytes: u32, cost: u128)

  type Percentage = p: int | 0 <= p <= 100

  /** Parameters, which no update changes. */
  datatype Params = Params(
    minExecGasPrice: u64,
    execChangePercent: u16,
    fullnessThreshold: Percentage,
    gasPriceFactor: u64,
    minDaGasPrice: u64,
    maxDaGasPrice: u64,
    maxDaChangePercent: u16,
    pComponent: i64,
    dComponent: i64)

  predicate ValidParams(p: Params) { p.gasPriceFactor > 0 }

  // ---------------------------------------------------------------------------------------
  // L2 activity
  // ---------------------------------------------------------------------------------------

  datatype Activity = Activity(
    maxActivity: u16, cappedThreshold: u16, decreaseThreshold: u16, chain: u16, blockThreshold: Percentage)

  datatype SafetyMode = Normal | Capped | AlwaysDecrease

  function Mode(a: Activity): SafetyMode {
    if a.chain >= a.cappedThreshold then Normal
    else if a.chain >= a.decreaseThreshold then Capped
    else AlwaysDecrease
  }

  function Observed(a: Activity, usage: Percentage): (r: Activity) {
    a.(chain := if usage < a.blockThreshold then SatU16(a.chain - 1) else Min(SatU16(a.chain + 1), a.maxActivity))
  }

  class L2ActivityTracker {
    const maxActivity: u16
    const cappedActivityThreshold: u16
    const decreaseActivityThreshold: u16
    var chainActivity: u16
    const blockActivityThreshold: Percentage

    function View(): Activity
      reads this
    {
      Activity(maxActivity, cappedActivityThreshold, decreaseActivityThreshold, chainActivity, blockActivityThreshold)
    }

    /** Stacks the three ranges on top of each other and starts at `activity`, at most the top. */
    constructor (normalRange: u16, cappedRange: u16, decreaseRange: u16, activity: u16, threshold: u8)
      ensures decreaseActivityThreshold <= cappedActivityThreshold <= maxActivity && chainActivity <= maxActivity
      ensures decreaseActivityThreshold == decreaseRange
      ensures cappedActivityThreshold == Min(decreaseRange + cappedRange, 0xFFFF)
      ensures maxActivity == Min(decreaseRange + cappedRange + normalRange, 0xFFFF)
      ensures chainActivity == Min(activity, maxActivity)
      ensures blockActivityThreshold == Min(threshold, 100)
    {
      decreaseActivityThreshold := decreaseRange;
      cappedActivityThreshold := SatU16(decreaseRange + cappedRange);
      maxActivity := SatU16(SatU16(decreaseRange + cappedRange) + normalRange);
      chainActivity := Min(activity, SatU16(SatU16(decreaseRange + cappedRange) + normalRange));
      blockActivityThreshold := Min(threshold, 100);
    }

    method Update(usage: Percentage)
      modifies this
      ensures View() == Observed(old(View()), usage)
    {
      if usage < blockActivityThreshold {
        chainActivity := SatU16(chainActivity - 1);
      } else {
        chainActivity := Min(SatU16(chainActivity + 1), maxActivity);
      }
    }
  }

  // ---------------------------------------------------------------------------------------
  // Updater state and its pure helpers
  // ---------------------------------------------------------------------------------------

  datatype State = State(
    execPrice: u64,
    height: u32,
    daPrice: u64,
    rewards: u128,
    knownCost: u128,
    projectedCost: u128,
    lastProfit: i128,
    secondToLastProfit: i128,
    costPerByte: u128,
    activity: Activity,
    unrecordedBytes: u128)

  function MinExec(p: Params): u64 { SatU64(p.minExecGasPrice * p.gasPriceFactor) }
  function MinDa(p: Params): u64 { SatU64(p.minDaGasPrice * p.gasPriceFactor) }
  function MaxDa(p: Params): u64 { SatU64(Max(p.maxDaGasPrice, p.minDaGasPrice) * p.gasPriceFactor) }

  /** The part of a block's fee that pays for DA, rounded up. */
  function DaPortionOfFee(p: Params, s: State, fee: u128): (r: nat)
    requires ValidParams(p)
  {
    var da, exec := s.daPrice / p.gasPriceFactor, s.execPrice / p.gasPriceFactor;
    var denominator := SatU128(exec + da);
    if denominator == 0 then 0 else DivCeil(SatU128(fee * da), denominator)
  }

  function DivCeil(a: nat, b: nat): (r: nat)
    requires b > 0
  {
    (a + b - 1) / b
  }

  /** Division that rounds toward zero. */
  function TruncDiv(a: int, b: int): (r: int)
    requires b != 0
  {
    if (a >= 0) == (b > 0) then Abs(a) / Abs(b) else -(Abs(a) / Abs(b))
  }

  /** A missing or overflowing quotient counts as zero. */
  function QuotientOrZero(a: i128, b: i64): (r: int) {
    if b == 0 || (a == I128_MIN && b == -1) then 0 else TruncDiv(a, b)
  }

  function ProportionalTerm(p: Params, s: State): (r: i128) {
    SatI128(-QuotientOrZero(s.lastProfit, p.pComponent))
  }

  function Slope(s: State): (r: i128) {
    SatI128(s.lastProfit - s.secondToLastProfit)
  }

  function DerivativeTerm(p: Params, s: State): (r: i128) {
    SatI128(-QuotientOrZero(Slope(s), p.dComponent))
  }

  /** The most the scaled DA price may change in one update. */
  function MaxChange(p: Params, s: State): (r: int) {
    SatU64(s.daPrice * p.maxDaChangePercent) / 100
  }

  /** The controller's output, limited to the largest change on either side. */
  function DaChange(p: Params, s: State): (r: int) {
    var scaled := SatI128(SatI128(ProportionalTerm(p, s) + DerivativeTerm(p, s)) * p.gasPriceFactor);
    var clamped := Min(SatI128(Abs(scaled)), MaxChange(p, s));
    if scaled > 0 then clamped else if scaled < 0 then -clamped else 0
  }

  /** With too little activity an increase is withheld or turned around. */
  function ActivityChange(p: Params, s: State): (r: int) {
    if DaChange(p, s) > 0 then
      match Mode(s.activity)
      case Normal => DaChange(p, s)
      case Capped => 0
      case AlwaysDecrease => -MaxChange(p, s)
    else
      DaChange(p, s)
  }

  function NextDaPrice(p: Params, s: State): (r: u64) {
    Min(Max(MinDa(p), SatU64(s.daPrice + ActivityChange(p, s))), MaxDa(p))
  }

  function Usage(used: u64, capacity: u64): (r: Percentage)
    requires capacity > 0
  {
    Min(FullnessPercent(used, capacity), 100)
  }

  // ---------------------------------------------------------------------------------------
  // Events
  // ---------------------------------------------------------------------------------------

  type Blocks = map<u32, u64>

  datatype Event =
    | L2(height: u32, used: u64, capacity: u64, bytes: u64, fee: u128)
    | Da(first: u32, last: u32, recordedBytes: u32, cost: u128)

  predicate Usable(e: Event) { e.L2? ==> e.capacity > 0 }

  /** Rewards, costs and profit of a new block, at the prices before it. */
  function Accounted(p: Params, s: State, bytes: u64, fee: u128): (r: State)
    requires ValidParams(p)
  {
    var rewards := SatU128(s.rewards + DaPortionOfFee(p, s, fee));
    var projected := SatU128(s.projectedCost + SatU128(bytes * s.costPerByte));
    s.(rewards := rewards,
       projectedCost := projected,
       secondToLastProfit := s.lastProfit,
       lastProfit := SatI128(SatI128(rewards) - SatI128(projected)))
  }

  function Priced(p: Params, s: State, used: u64, capacity: u64): (r: State)
    requires capacity > 0
  {
    var rise := FullnessPercent(used, capacity) >= p.fullnessThreshold;
    var s1 := s.(activity := Observed(s.activity, Usage(used, capacity)),
                 execPrice := NextPrice(s.execPrice, MinExec(p), p.execChangePercent, rise));
    s1.(daPrice := NextDaPrice(p, s1))
  }

  /** State and unrecorded blocks after an L2 block, or why it was refused. */
  function L2Update(p: Params, s: State, blocks: Blocks, e: Event): (r: Result<(State, Blocks), Error>)
    requires ValidParams(p) && e.L2? && Usable(e)
  {
    var expected := SatU32(s.height + 1);
    if e.height != expected then
      Err(SkippedL2Block(expected, e.height))
    else
      var s1 := Priced(p, Accounted(p, s.(height := e.height), e.bytes, e.fee), e.used, e.capacity);
      Ok((s1.(unrecordedBytes := SatU128(s.unrecordedBytes + e.bytes)), blocks[e.height := e.bytes]))
  }

  /** Bytes of all blocks below `n`. */
  ghost function SumBelow(blocks: Blocks, n: nat): (r: nat) {
    if n == 0 then 0
    else SumBelow(blocks, n - 1) + if n - 1 in blocks then blocks[n - 1] else 0
  }

  ghost function SumBytes(blocks: Blocks): (r: nat) { SumBelow(blocks, 0x1_0000_0000) }

  function InRange(blocks: Blocks, first: int, last: int): Blocks {
    map h | h in blocks && first <= h <= last :: blocks[h]
  }

  function OutOfRange(blocks: Blocks, first: int, last: int): Blocks {
    map h | h in blocks && !(first <= h <= last) :: blocks[h]
  }

  /** Forgets the recorded blocks and books their cost; the blocks stay forgotten if it fails. */
  ghost function DaBlockUpdate(s: State, blocks: Blocks, e: Event): (r: (State, Blocks))
    requires e.Da?
  {
    (s.(unrecordedBytes := SatU128(s.unrecordedBytes - SumBytes(InRange(blocks, e.first, e.last))),
        knownCost := SatU128(s.knownCost + e.cost)),
     OutOfRange(blocks, e.first, e.last))
  }

  function Recalculated(s: State): State {
    s.(projectedCost := SatU128(s.knownCost + SatU128(s.unrecordedBytes * s.costPerByte)))
  }

  function CostPerByte(cost: u128, bytes: u32): (r: u128)
    requires bytes > 0
  {
    DivisionShrinks(cost, bytes);
    cost / bytes
  }

  /** State, unrecorded blocks and outcome after blocks were recorded on the DA chain. */
  ghost function DaUpdate(p: Params, s: State, blocks: Blocks, e: Event): (r: (State, Blocks, Result<(), Error>))
    requires e.Da?
  {
    if e.first > e.last then
      (s, blocks, Ok(()))
    else
      var (s1, rest) := DaBlockUpdate(s, blocks, e);
      if e.recordedBytes == 0 then
        (s1, rest, Err(CouldNotCalculateCostPerByte(e.recordedBytes, e.cost)))
      else
        var s2 := Recalculated(s1.(costPerByte := CostPerByte(e.cost, e.recordedBytes)));
        (s2.(daPrice := NextDaPrice(p, s2)), rest, Ok(()))
  }
}
