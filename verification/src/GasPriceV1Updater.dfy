/** The second gas price updater as an object: each update changes its fields step by step. */
module GasPriceV1Updater {
  import opened Wrappers
  import opened MachineInts
  import opened GasPriceExec
  import opened GasPriceV1
  import opened GasPriceV1Bytes

  /** Sizes of the L2 blocks not yet recorded on the DA chain. */
  class UnrecordedBlocks {
    var blocks: Blocks

    method Insert(height: u32, bytes: u64)
      modifies this
      ensures blocks == old(blocks)[height := bytes]
    {
      blocks := blocks[height := bytes];
    }

    method Remove(height: u32) returns (bytes: Option<u64>)
      modifies this
      ensures blocks == old(blocks) - {height}
      ensures bytes == if height in old(blocks) then Some(old(blocks)[height]) else None
    {
      bytes := if height in blocks then Some(blocks[height]) else None;
      blocks := blocks - {height};
    }
  }

  class AlgorithmUpdaterV1 {
    const params: Params
    const l2Activity: L2ActivityTracker
    var newScaledExecPrice: u64
    var l2BlockHeight: u32
    var newScaledDaGasPrice: u64
    var totalDaRewards: u128
    var latestKnownTotalDaCost: u128
    var projectedTotalDaCost: u128
    var lastProfit: i128
    var secondToLastProfit: i128
    var latestDaCostPerByte: u128
    var unrecordedBlocksBytes: u128

    function View(): State
      reads this, l2Activity
    {
      State(newScaledExecPrice, l2BlockHeight, newScaledDaGasPrice, totalDaRewards, latestKnownTotalDaCost,
            projectedTotalDaCost, lastProfit, secondToLastProfit, latestDaCostPerByte,
            l2Activity.View(), unrecordedBlocksBytes)
    }

    /** The updater is stored and restored field by field. */
    constructor (params: Params, tracker: L2ActivityTracker, s: State)
      ensures this.params == params && l2Activity == tracker
      ensures View() == s.(activity := tracker.View())
    {
      this.params := params;
      l2Activity := tracker;
      newScaledExecPrice := s.execPrice;
      l2BlockHeight := s.height;
      newScaledDaGasPrice := s.daPrice;
      totalDaRewards := s.rewards;
      latestKnownTotalDaCost := s.knownCost;
      projectedTotalDaCost := s.projectedCost;
      lastProfit := s.lastProfit;
      secondToLastProfit := s.secondToLastProfit;
      latestDaCostPerByte := s.costPerByte;
      unrecordedBlocksBytes := s.unrecordedBytes;
    }

    method UpdateL2BlockData(e: Event, unrecorded: UnrecordedBlocks) returns (r: Result<(), Error>)
      requires ValidParams(params) && e.L2? && Usable(e)
      modifies this, l2Activity, unrecorded
      ensures match L2Update(params, old(View()), old(unrecorded.blocks), e)
        case Ok((s, blocks)) => r == Ok(()) && View() == s && unrecorded.blocks == blocks
        case Err(error) =>
          && r == Err(error) && View() == old(View()) && unrecorded.blocks == old(unrecorded.blocks)
    {
      hide Accounted, Priced;
      var expected := SatU32(l2BlockHeight + 1);
      if e.height != expected {
        return Err(SkippedL2Block(expected, e.height));
      }
      l2BlockHeight := e.height;

      UpdateAccounts(e.bytes, e.fee);
      UpdatePrices(e.used, e.capacity);
      unrecorded.Insert(e.height, e.bytes);
      unrecordedBlocksBytes := SatU128(unrecordedBlocksBytes + e.bytes);
      r := Ok(());
    }

    /** Rewards, costs and profit. */
    method UpdateAccounts(bytes: u64, fee: u128)
      requires ValidParams(params)
      modifies this`totalDaRewards, this`projectedTotalDaCost, this`lastProfit, this`secondToLastProfit
      ensures View() == Accounted(params, old(View()), bytes, fee)
    {
      hide DaPortionOfFee;
      UpdateDaRewards(fee);
      UpdateProjectedDaCost(bytes);
      UpdateLastProfit(SatI128(SatI128(totalDaRewards) - SatI128(projectedTotalDaCost)));
    }

    /** Activity and gas prices. */
    method UpdatePrices(used: u64, capacity: u64)
      requires capacity > 0
      modifies this`newScaledExecPrice, this`newScaledDaGasPrice, l2Activity
      ensures View() == Priced(params, old(View()), used, capacity)
    {
      hide NextDaPrice, NextPrice, Observed, Usage;
      l2Activity.Update(Usage(used, capacity));
      UpdateExecGasPrice(used, capacity);
      UpdateDaGasPrice();
    }

    method UpdateDaRewards(fee: u128)
      requires ValidParams(params)
      modifies this`totalDaRewards
      ensures totalDaRewards == SatU128(old(totalDaRewards) + DaPortionOfFee(params, old(View()), fee))
    {
      totalDaRewards := SatU128(totalDaRewards + DaPortionOfFee(params, View(), fee));
    }

    method UpdateProjectedDaCost(bytes: u64)
      modifies this`projectedTotalDaCost
      ensures projectedTotalDaCost == SatU128(old(projectedTotalDaCost) + SatU128(bytes * latestDaCostPerByte))
    {
      var blockCost := SatU128(bytes * latestDaCostPerByte);
      projectedTotalDaCost := SatU128(projectedTotalDaCost + blockCost);
    }

    method UpdateLastProfit(profit: i128)
      modifies this`lastProfit, this`secondToLastProfit
      ensures lastProfit == profit && secondToLastProfit == old(lastProfit)
    {
      secondToLastProfit := lastProfit;
      lastProfit := profit;
    }

    method UpdateExecGasPrice(used: u64, capacity: u64)
      requires capacity > 0
      modifies this`newScaledExecPrice
      ensures newScaledExecPrice == NextPrice(old(newScaledExecPrice), MinExec(params), params.execChangePercent,
        FullnessPercent(used, capacity) >= params.fullnessThreshold)
    {
      var price: int := newScaledExecPrice;
      var change: int := ChangeAmount(newScaledExecPrice, params.execChangePercent);
      if FullnessPercent(used, capacity) >= params.fullnessThreshold {
        price := SatU64(price + change);
      } else {
        price := SatU64(price - change);
      }
      newScaledExecPrice := Max(MinExec(params), price);
    }

    method UpdateDaGasPrice()
      modifies this`newScaledDaGasPrice
      ensures newScaledDaGasPrice == NextDaPrice(params, old(View()))
    {
      var change := ActivityChange(params, View());
      var price: int := newScaledDaGasPrice + change;
      if price < 0 || price > U64_MAX {
        price := if change > 0 then U64_MAX else 0;
      }
      newScaledDaGasPrice := Min(Max(MinDa(params), price), MaxDa(params));
    }

    method UpdateDaRecordData(e: Event, unrecorded: UnrecordedBlocks) returns (r: Result<(), Error>)
      requires e.Da?
      modifies this, unrecorded
      ensures (View(), unrecorded.blocks, r) == DaUpdate(params, old(View()), old(unrecorded.blocks), e)
    {
      hide NextDaPrice, InRange, OutOfRange, SumBytes;
      if e.first > e.last {
        return Ok(());
      }
      UpdateUnrecordedBlockBytes(e.first, e.last, unrecorded);
      latestKnownTotalDaCost := SatU128(latestKnownTotalDaCost + e.cost);
      if e.recordedBytes == 0 {
        return Err(CouldNotCalculateCostPerByte(e.recordedBytes, e.cost));
      }
      latestDaCostPerByte := CostPerByte(e.cost, e.recordedBytes);
      var projection := SatU128(unrecordedBlocksBytes * latestDaCostPerByte);
      projectedTotalDaCost := SatU128(latestKnownTotalDaCost + projection);
      UpdateDaGasPrice();
      r := Ok(());
    }

    /** Removes the blocks of a range of heights, present or not, and their bytes. */
    method UpdateUnrecordedBlockBytes(first: u32, last: u32, unrecorded: UnrecordedBlocks)
      requires first <= last
      modifies this`unrecordedBlocksBytes, unrecorded
      ensures unrecorded.blocks == OutOfRange(old(unrecorded.blocks), first, last)
      ensures unrecordedBlocksBytes
           == SatU128(old(unrecordedBlocksBytes) - SumBytes(InRange(old(unrecorded.blocks), first, last)))
    {
      hide InRange, OutOfRange, SumBytes;
      var total: u128 := 0;
      RangeStart(unrecorded.blocks, first);
      for height := first to last + 1
        invariant unrecorded.blocks == OutOfRange(old(unrecorded.blocks), first, height - 1)
        invariant total == SumBytes(InRange(old(unrecorded.blocks), first, height - 1))
        invariant unrecordedBlocksBytes == old(unrecordedBlocksBytes)
      {
        RangeNext(old(unrecorded.blocks), first, height);
        SumBytesBound(InRange(old(unrecorded.blocks), first, height));
        var bytes := unrecorded.Remove(height);
        if bytes.Some? {
          total := SatU128(total + bytes.value);
        }
      }
      unrecordedBlocksBytes := SatU128(unrecordedBlocksBytes - total);
    }
  }
}
