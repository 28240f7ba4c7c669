/** The first gas price updater: an execution price that follows block fullness. */
module GasPriceV0 {
  import opened Wrappers
  import opened MachineInts
  import opened GasPriceExec

  datatype Error = SkippedL2Block(expected: u32, got: u32)

  datatype State = State(
    price: u64, minPrice: u64, changePercent: u64, height: u32, thresholdPercent: u64)

  datatype Update = Update(height: u32, used: u64, capacity: u64)

  predicate Usable(u: Update) { u.capacity > 0 }

  function Next(s: State, u: Update): (r: Result<State, Error>)
    requires Usable(u)
  {
    var expected := SatU32(s.height + 1);
    if u.height != expected then
      Err(SkippedL2Block(expected, u.height))
    else
      var rise := FullnessPercent(u.used, u.capacity) >= s.thresholdPercent;
      Ok(s.(height := u.height, price := NextPrice(s.price, s.minPrice, s.changePercent, rise)))
  }

  class AlgorithmUpdaterV0 {
    var newExecPrice: u64
    const minExecGasPrice: u64
    const execGasPriceChangePercent: u64
    var l2BlockHeight: u32
    const l2BlockFullnessThresholdPercent: u64

    function View(): State
      reads this
    {
      State(newExecPrice, minExecGasPrice, execGasPriceChangePercent, l2BlockHeight, l2BlockFullnessThresholdPercent)
    }

    /** The starting price is corrected to the minimum. */
    constructor (price: u64, minPrice: u64, changePercent: u64, height: u32, thresholdPercent: u64)
      ensures View() == State(Max(price, minPrice), minPrice, changePercent, height, thresholdPercent)
      ensures newExecPrice >= minExecGasPrice
    {
      newExecPrice := Max(price, minPrice);
      minExecGasPrice := minPrice;
      execGasPriceChangePercent := changePercent;
      l2BlockHeight := height;
      l2BlockFullnessThresholdPercent := thresholdPercent;
    }

    method UpdateL2BlockData(u: Update) returns (r: Result<(), Error>)
      requires Usable(u)
      modifies this
      ensures match Next(old(View()), u)
        case Ok(s) => r == Ok(()) && View() == s
        case Err(e) => r == Err(e) && View() == old(View())
    {
      var expected := SatU32(l2BlockHeight + 1);
      if u.height != expected {
        return Err(SkippedL2Block(expected, u.height));
      }
      l2BlockHeight := u.height;
      UpdateExecGasPrice(u.used, u.capacity);
      r := Ok(());
    }

    method UpdateExecGasPrice(used: u64, capacity: u64)
      requires capacity > 0
      modifies this`newExecPrice
      ensures newExecPrice == NextPrice(old(newExecPrice), minExecGasPrice, execGasPriceChangePercent,
        FullnessPercent(used, capacity) >= l2BlockFullnessThresholdPercent)
    {
      var price: int := newExecPrice;
      var fullness := FullnessPercent(used, capacity);
      var change: int := ChangeAmount(newExecPrice, execGasPriceChangePercent);
      if fullness >= l2BlockFullnessThresholdPercent {
        price := SatU64(price + change);
      } else {
        price := SatU64(price - change);
      }
      newExecPrice := Max(minExecGasPrice, price);
    }
  }

  /** Whether a block uses as much of its capacity as the threshold asks for. */
  ghost predicate Full(s: State, u: Update) {
    Min(u.used * 100, 0xFFFF_FFFF_FFFF_FFFF) >= s.thresholdPercent * u.capacity
  }

  /** Exactly the next height is accepted, and moves the price by exactly one step; nothing else changes. */
  lemma NextIsExact(s: State, u: Update)
    requires Usable(u)
    ensures Next(s, u).Ok? <==> u.height == Min(s.height + 1, 0xFFFF_FFFF)
    ensures Next(s, u).Err? ==> Next(s, u).error == SkippedL2Block(Min(s.height + 1, 0xFFFF_FFFF), u.height)
    ensures Next(s, u).Ok? ==>
      var s' := Next(s, u).value;
      && s' == s.(height := u.height, price := s'.price)
      && PriceStep(s.price, s'.price, s.minPrice, s.changePercent, Full(s, u))
  {
    FullnessReachesIff(u.used, u.capacity, s.thresholdPercent);
    NextPriceIsExact(s.price, s.minPrice, s.changePercent, FullnessPercent(u.used, u.capacity) >= s.thresholdPercent);
    ProductSign(u.used, 100);
    hide NextPrice, FullnessPercent, PriceStep;
  }

  /** An accepted block that reaches the threshold never lowers the price, any other never raises it. */
  lemma PriceFollowsFullness(s: State, u: Update)
    requires Usable(u) && s.price >= s.minPrice && Next(s, u).Ok?
    ensures SatU64(u.used * 100) >= s.thresholdPercent * u.capacity ==> Next(s, u).value.price >= s.price
    ensures SatU64(u.used * 100) < s.thresholdPercent * u.capacity ==> Next(s, u).value.price <= s.price
  {
    FullnessReachesIff(u.used, u.capacity, s.thresholdPercent);
    NextPriceBounds(s.price, s.minPrice, s.changePercent, FullnessPercent(u.used, u.capacity) >= s.thresholdPercent);
    hide NextPrice, FullnessPercent;
  }

  // ---------------------------------------------------------------------------------------
  // Runs
  // ---------------------------------------------------------------------------------------

  ghost predicate AllUsable(run: seq<Update>) {
    forall i :: 0 <= i < |run| ==> Usable(run[i])
  }

  /** Final state and number of accepted updates; a skipped block changes nothing. */
  function Run(s: State, run: seq<Update>): (r: (State, nat))
    requires AllUsable(run)
    decreases |run|
  {
    if run == [] then
      (s, 0)
    else
      var front := Run(s, run[..|run| - 1]);
      match Next(front.0, run[|run| - 1])
      case Ok(s') => (s', front.1 + 1)
      case Err(_) => front
  }

  /** After `n` accepted updates the price is within `n` compounded steps and above the minimum. */
  lemma {:induction false} RunCompounds(s: State, run: seq<Update>)
    requires AllUsable(run) && s.price >= s.minPrice
    ensures var (s', n) := Run(s, run);
      && s'.price >= s.minPrice
      && Compounded(s.price, s'.price, s.changePercent, n)
      && s' == s.(price := s'.price, height := s'.height)
    decreases |run|
  {
    if run == [] {
      CompoundStart(s.price, s.changePercent);
    } else {
      RunCompounds(s, run[..|run| - 1]);
      var (mid, n) := Run(s, run[..|run| - 1]);
      var u := run[|run| - 1];
      assert Usable(u);
      hide Compounded, NextPrice;
      CompoundStep(s.price, mid.price, s.minPrice, s.changePercent,
                   FullnessPercent(u.used, u.capacity) >= s.thresholdPercent, n);
    }
  }

  /** One more update of a run: its state, and whether it was accepted. */
  lemma RunLast(s: State, run: seq<Update>)
    requires AllUsable(run) && run != []
    ensures var (mid, n), u := Run(s, run[..|run| - 1]), run[|run| - 1];
      Run(s, run) == match Next(mid, u) case Ok(s') => (s', n + 1) case Err(_) => (mid, n)
  {
    hide Next;
  }

  /** Full blocks only: each accepted one adds at least a percentage of the starting price. */
  lemma {:induction false} RunGrows(s: State, run: seq<Update>, g: nat)
    requires AllUsable(run) && s.price >= s.minPrice
    requires 100 * g <= Min(s.price * s.changePercent, 0xFFFF_FFFF_FFFF_FFFF)
    requires forall i :: 0 <= i < |run| ==> Full(s, run[i])
    ensures var (s', n) := Run(s, run);
      s'.price >= s.price && s'.price >= Min(0xFFFF_FFFF_FFFF_FFFF, s.price + n * g)
    decreases |run|
  {
    if run != [] {
      var front, u := run[..|run| - 1], run[|run| - 1];
      RunGrows(s, front, g);
      RunCompounds(s, front);
      RunLast(s, run);
      var (mid, n) := Run(s, front);
      assert Usable(u) && Full(s, u);
      NextIsExact(mid, u);
      hide Next, Run, PriceStep, Compounded;
      if Next(mid, u).Ok? {
        StepGrows(mid.price, Next(mid, u).value.price, s.minPrice, s.changePercent, s.price, g);
        SuccessorProduct(n, g);
      }
    }
  }

  /** Other blocks only: each accepted one takes off at least a percentage of `floor`, down to it. */
  lemma {:induction false} RunFalls(s: State, run: seq<Update>, floor: u64, g: nat)
    requires AllUsable(run) && s.price >= s.minPrice && floor >= s.minPrice
    requires 100 * g <= Min(floor * s.changePercent, 0xFFFF_FFFF_FFFF_FFFF)
    requires forall i :: 0 <= i < |run| ==> !Full(s, run[i])
    ensures var (s', n) := Run(s, run);
      s'.price <= s.price && s'.price <= Max(floor, s.price - n * g)
    decreases |run|
  {
    if run != [] {
      var front, u := run[..|run| - 1], run[|run| - 1];
      RunFalls(s, front, floor, g);
      RunCompounds(s, front);
      RunLast(s, run);
      var (mid, n) := Run(s, front);
      assert Usable(u) && !Full(s, u);
      NextIsExact(mid, u);
      hide Next, Run, PriceStep, Compounded;
      if Next(mid, u).Ok? {
        StepFalls(mid.price, Next(mid, u).value.price, s.minPrice, s.changePercent, floor, g);
        SuccessorProduct(n, g);
      }
    }
  }
}
