/** What every run of L2 and DA updates keeps. */
module GasPriceV1Runs {
  import opened MachineInts
  import opened GasPriceExec
  import opened GasPriceV1
  import opened GasPriceV1Bytes

  // ---------------------------------------------------------------------------------------
  // Runs
  // ---------------------------------------------------------------------------------------

  ghost predicate AllUsable(run: seq<Event>) {
    forall i :: 0 <= i < |run| ==> Usable(run[i])
  }

  predicate Accepted(s: State, e: Event) {
    e.L2? && e.height == SatU32(s.height + 1)
  }

  /** A DA update that finds no recorded bytes to divide its cost by. */
  predicate Failing(e: Event) {
    e.Da? && e.first <= e.last && e.recordedBytes == 0
  }

  /** State and unrecorded blocks after one event; a refused L2 block changes nothing. */
  ghost function Step(p: Params, s: State, blocks: Blocks, e: Event): (r: (State, Blocks))
    requires ValidParams(p) && Usable(e)
  {
    match e
    case L2(_, _, _, _, _) =>
      (match L2Update(p, s, blocks, e)
       case Ok(next) => next
       case Err(_) => (s, blocks))
    case Da(_, _, _, _) =>
      var d := DaUpdate(p, s, blocks, e);
      (d.0, d.1)
  }

  ghost function Run(p: Params, s: State, blocks: Blocks, run: seq<Event>): (r: (State, Blocks))
    requires ValidParams(p) && AllUsable(run)
    decreases |run|
  {
    if run == [] then
      (s, blocks)
    else
      var front := Run(p, s, blocks, run[..|run| - 1]);
      Step(p, front.0, front.1, run[|run| - 1])
  }

  // ---------------------------------------------------------------------------------------
  // Unrecorded bytes
  // ---------------------------------------------------------------------------------------

  /** The byte counter is the sum of the unrecorded blocks, none of which is above the L2 height. */
  ghost predicate BytesMatch(s: State, blocks: Blocks) {
    && s.unrecordedBytes == SumBytes(blocks)
    && forall h :: h in blocks ==> h <= s.height
  }

  /** An accepted block keeps counter and map equal exactly when it replaces no bytes in the map. */
  lemma L2KeepsBytesIff(p: Params, s: State, blocks: Blocks, e: Event)
    requires ValidParams(p) && e.L2? && Usable(e) && Accepted(s, e)
    requires s.unrecordedBytes == SumBytes(blocks)
    ensures var (s', blocks') := Step(p, s, blocks, e);
      s'.unrecordedBytes == SumBytes(blocks') <==> BytesAt(blocks, e.height) == 0
  {
    hide Accounted, Priced, SumBytes;
    SumBytesBound(blocks);
    SumBytesInsert(blocks, e.height, e.bytes);
  }

  /** At the top height a block can be accepted twice, and the counter drifts from the map. */
  lemma TopHeightDrifts(p: Params, s: State, e: Event)
    requires ValidParams(p) && e.L2? && Usable(e)
    requires e.height == U32_MAX && e.bytes > 0 && s.height == U32_MAX - 1 && s.unrecordedBytes == 0
    ensures var (s', blocks') := Run(p, s, map[], [e, e]);
      s'.unrecordedBytes != SumBytes(blocks')
  {
    hide Accounted, Priced;
    var run := [e, e];
    assert run[..1] == [e] && [e][..0] == [];
    var (s1, blocks1) := Step(p, s, map[], e);
    assert Run(p, s, map[], [e]) == (s1, blocks1);
    assert Run(p, s, map[], run) == Step(p, s1, blocks1, e);
    AcceptedHeight(p, s, map[], e);
    SumBelowNone(HEIGHTS);
    L2KeepsBytesIff(p, s, map[], e);
    L2KeepsBytesIff(p, s1, blocks1, e);
  }

  lemma AcceptedHeight(p: Params, s: State, blocks: Blocks, e: Event)
    requires ValidParams(p) && e.L2? && Usable(e) && Accepted(s, e)
    ensures Step(p, s, blocks, e).0.height == e.height
    ensures Step(p, s, blocks, e).1 == blocks[e.height := e.bytes]
  {}

  /** One update keeps counter and map equal exactly unless it is an accepted block that replaces bytes. */
  lemma StepKeepsBytesIff(p: Params, s: State, blocks: Blocks, e: Event)
    requires ValidParams(p) && Usable(e) && s.unrecordedBytes == SumBytes(blocks)
    ensures var (s', blocks') := Step(p, s, blocks, e);
      s'.unrecordedBytes == SumBytes(blocks') <==> (Accepted(s, e) ==> BytesAt(blocks, e.height) == 0)
  {
    hide SumBytes;
    if Accepted(s, e) {
      L2KeepsBytesIff(p, s, blocks, e);
    } else if e.Da? && e.first <= e.last {
      hide NextDaPrice;
      SumBytesBound(blocks);
      SumBytesSplit(blocks, e.first, e.last);
    }
  }

  /** At every point of the run the counter is the sum of the unrecorded blocks. */
  ghost predicate BytesMatchThroughout(p: Params, s: State, blocks: Blocks, run: seq<Event>)
    requires ValidParams(p) && AllUsable(run)
  {
    forall i :: 0 <= i <= |run| ==>
      var (mid, rest) := Run(p, s, blocks, run[..i]); mid.unrecordedBytes == SumBytes(rest)
  }

  /** No block of the run is accepted at a height that has unrecorded bytes already. */
  ghost predicate ReplacesNothing(p: Params, s: State, blocks: Blocks, run: seq<Event>)
    requires ValidParams(p) && AllUsable(run)
  {
    forall i :: 0 <= i < |run| ==>
      var (mid, rest) := Run(p, s, blocks, run[..i]);
      Accepted(mid, run[i]) ==> BytesAt(rest, run[i].height) == 0
  }

  lemma BytesSplitLast(p: Params, s: State, blocks: Blocks, run: seq<Event>)
    requires ValidParams(p) && AllUsable(run) && run != []
    ensures var front, e := run[..|run| - 1], run[|run| - 1];
      var (mid, rest) := Run(p, s, blocks, front);
      var (s', blocks') := Run(p, s, blocks, run);
      && (BytesMatchThroughout(p, s, blocks, run) <==>
            BytesMatchThroughout(p, s, blocks, front) && s'.unrecordedBytes == SumBytes(blocks'))
      && (ReplacesNothing(p, s, blocks, run) <==>
            ReplacesNothing(p, s, blocks, front) && (Accepted(mid, e) ==> BytesAt(rest, e.height) == 0))
      && (BytesMatchThroughout(p, s, blocks, front) ==> mid.unrecordedBytes == SumBytes(rest))
  {
    hide Run, SumBytes, BytesAt, Accepted;
    var front := run[..|run| - 1];
    assert forall i :: 0 <= i < |run| ==> run[..i] == front[..i];
    assert forall i :: 0 <= i < |front| ==> run[i] == front[i];
    assert run[..|run|] == run && front[..|front|] == front;
  }

  /**
   Over every run, failed DA updates included, the counter is the sum of the unrecorded blocks
   throughout, exactly when no accepted block replaces bytes in the map.
   */
  lemma {:induction false} RunKeepsBytesIff(p: Params, s: State, blocks: Blocks, run: seq<Event>)
    requires ValidParams(p) && AllUsable(run) && s.unrecordedBytes == SumBytes(blocks)
    ensures BytesMatchThroughout(p, s, blocks, run) <==> ReplacesNothing(p, s, blocks, run)
    decreases |run|
  {
    if run == [] {
      assert run[..0] == [];
    } else {
      hide BytesMatchThroughout, ReplacesNothing, Step, SumBytes, BytesAt, Accepted;
      var front, e := run[..|run| - 1], run[|run| - 1];
      RunKeepsBytesIff(p, s, blocks, front);
      BytesSplitLast(p, s, blocks, run);
      var (mid, rest) := Run(p, s, blocks, front);
      if mid.unrecordedBytes == SumBytes(rest) {
        StepKeepsBytesIff(p, mid, rest, e);
      }
    }
  }

  /** Below the top height an accepted block is above all unrecorded ones. */
  lemma StepKeepsBytes(p: Params, s: State, blocks: Blocks, e: Event)
    requires ValidParams(p) && Usable(e) && BytesMatch(s, blocks)
    requires Accepted(s, e) ==> s.height < U32_MAX
    ensures var (s', blocks') := Step(p, s, blocks, e);
      BytesMatch(s', blocks')
  {
    hide SumBytes;
    StepKeepsBytesIff(p, s, blocks, e);
    if Accepted(s, e) {
      AcceptedHeight(p, s, blocks, e);
    }
  }

  /** Over every run with at most one block at the top height, the counter is the sum and under 2^96. */
  lemma {:induction false} RunKeepsBytes(p: Params, s: State, blocks: Blocks, run: seq<Event>)
    requires ValidParams(p) && AllUsable(run) && BytesMatch(s, blocks)
    requires forall i :: 0 <= i < |run| ==>
      Accepted(Run(p, s, blocks, run[..i]).0, run[i]) ==>
        Run(p, s, blocks, run[..i]).0.height < U32_MAX
    ensures var (s', blocks') := Run(p, s, blocks, run);
      BytesMatch(s', blocks') && s'.unrecordedBytes < 0x1_0000_0000_0000_0000_0000_0000
    decreases |run|
  {
    hide BytesMatch, Step, SumBytes, Accepted;
    if run != [] {
      var front := run[..|run| - 1];
      assert forall i :: 0 <= i < |front| ==> front[..i] == run[..i] && front[i] == run[i];
      RunKeepsBytes(p, s, blocks, front);
      var (mid, rest) := Run(p, s, blocks, front);
      StepKeepsBytes(p, mid, rest, run[|run| - 1]);
    }
    var (s', blocks') := Run(p, s, blocks, run);
    BytesMatchBound(s', blocks');
  }

  lemma BytesMatchBound(s: State, blocks: Blocks)
    requires BytesMatch(s, blocks)
    ensures s.unrecordedBytes < 0x1_0000_0000_0000_0000_0000_0000
  {
    SumBytesBound(blocks);
  }

  lemma NothingUnrecorded(s: State)
    requires s.unrecordedBytes == 0
    ensures BytesMatch(s, map[])
  {
    SumBelowNone(HEIGHTS);
  }

  /** In particular from the start: no unrecorded blocks, and heights that do not reach the top twice. */
  lemma StartKeepsBytes(p: Params, s: State, run: seq<Event>)
    requires ValidParams(p) && AllUsable(run) && s.unrecordedBytes == 0
    requires forall i :: 0 <= i < |run| ==>
      Accepted(Run(p, s, map[], run[..i]).0, run[i]) ==> Run(p, s, map[], run[..i]).0.height < U32_MAX
    ensures var (s', blocks') := Run(p, s, map[], run);
      s'.unrecordedBytes == SumBytes(blocks') < 0x1_0000_0000_0000_0000_0000_0000
  {
    hide Run, SumBytes, Accepted;
    NothingUnrecorded(s);
    RunKeepsBytes(p, s, map[], run);
  }

  // ---------------------------------------------------------------------------------------
  // Projected cost
  // ---------------------------------------------------------------------------------------

  /** The maintained projection is what recomputing it would give, saturation included. */
  ghost predicate InSync(s: State) {
    s.projectedCost == SatU128(s.knownCost + s.unrecordedBytes * s.costPerByte)
  }

  lemma SaturateTwice(a: nat, b: nat)
    ensures SatU128(a + SatU128(b)) == SatU128(a + b)
  {}

  /** Adding up saturated costs or costing the saturated bytes: it comes to the same. */
  lemma SaturatingSum(known: nat, bytes: nat, more: nat, cost: nat)
    ensures SatU128(SatU128(known + bytes * cost) + SatU128(more * cost))
         == SatU128(known + SatU128(bytes + more) * cost)
  {
    ProductSplits(bytes, more, cost);
    ProductNonNegative(bytes, cost);
    ProductNonNegative(more, cost);
    if bytes + more > U128_MAX && cost > 0 {
      ProductAtLeast(bytes + more, cost);
      ProductAtLeast(U128_MAX, cost);
    }
  }

  lemma ProductAtLeast(a: nat, b: nat)
    requires b > 0
    ensures a * b >= a
  {}

  /** A successful DA update recomputes the projection. */
  lemma DaSyncs(p: Params, s: State, blocks: Blocks, e: Event)
    requires ValidParams(p) && e.Da? && e.first <= e.last && !Failing(e)
    ensures InSync(Step(p, s, blocks, e).0)
  {
    hide NextDaPrice, SumBytes, InRange, OutOfRange, SatU128;
    var s' := Step(p, s, blocks, e).0;
    ProductNonNegative(s'.unrecordedBytes, s'.costPerByte);
    SaturateTwice(s'.knownCost, s'.unrecordedBytes * s'.costPerByte);
  }

  lemma ProductNonNegative(a: nat, b: nat)
    ensures a * b >= 0
  {}

  /** An L2 block extends the projection by as much as recomputing it would. */
  lemma L2KeepsSync(p: Params, s: State, blocks: Blocks, e: Event)
    requires ValidParams(p) && e.L2? && Usable(e) && InSync(s)
    ensures InSync(Step(p, s, blocks, e).0)
  {
    hide DaPortionOfFee, NextDaPrice, NextPrice, Observed, Usage;
    if Accepted(s, e) {
      SaturatingSum(s.knownCost, s.unrecordedBytes, e.bytes, s.costPerByte);
    }
  }

  lemma SyncStep(p: Params, s: State, blocks: Blocks, e: Event)
    requires ValidParams(p) && Usable(e) && InSync(s) && !Failing(e)
    ensures InSync(Step(p, s, blocks, e).0)
  {
    hide InSync, L2Update;
    if e.L2? {
      L2KeepsSync(p, s, blocks, e);
    } else if e.first <= e.last {
      DaSyncs(p, s, blocks, e);
    }
  }

  /** In any run without a failing DA update, the projection stays what recomputing would give. */
  lemma {:induction false} RunKeepsSync(p: Params, s: State, blocks: Blocks, run: seq<Event>)
    requires ValidParams(p) && AllUsable(run) && InSync(s)
    requires forall i :: 0 <= i < |run| ==> !Failing(run[i])
    ensures InSync(Run(p, s, blocks, run).0)
    decreases |run|
  {
    hide InSync, Step;
    if run != [] {
      var front, e := run[..|run| - 1], run[|run| - 1];
      RunKeepsSync(p, s, blocks, front);
      var (mid, rest) := Run(p, s, blocks, front);
      assert !Failing(e);
      SyncStep(p, mid, rest, e);
    }
  }

  /** From any state at all: a successful DA update, then any number of L2 updates. */
  lemma SyncedSinceDa(p: Params, s: State, blocks: Blocks, e: Event, run: seq<Event>)
    requires ValidParams(p)
    requires e.Da? && e.first <= e.last && !Failing(e)
    requires AllUsable(run) && forall i :: 0 <= i < |run| ==> run[i].L2?
    ensures var (s1, blocks1) := Step(p, s, blocks, e);
      InSync(Run(p, s1, blocks1, run).0)
  {
    hide InSync;
    var (s1, blocks1) := Step(p, s, blocks, e);
    DaSyncs(p, s, blocks, e);
    RunKeepsSync(p, s1, blocks1, run);
  }

  lemma SyncArithmetic(known: nat, cost: nat, removed: nat, left: nat, perByte: nat)
    ensures SatU128(known + (removed + left) * perByte) == SatU128(SatU128(known + cost) + left * perByte) <==>
      || cost == removed * perByte
      || (known + (removed + left) * perByte >= U128_MAX && known + cost + left * perByte >= U128_MAX)
  {
    ProductNonNegative(left, perByte);
    ProductNonNegative(removed, perByte);
    ProductSplits(removed, left, perByte);
    var a, b := removed * perByte, left * perByte;
    assert (removed + left) * perByte == a + b;
    assert SatU128(SatU128(known + cost) + b) == SatU128(known + cost + b);
  }

  lemma ProductSplits(a: nat, b: nat, x: nat)
    ensures (a + b) * x == a * x + b * x
  {}

  /** The bytes a DA update takes off the counter. */
  ghost function RemovedBytes(s: State, blocks: Blocks, e: Event): nat
    requires e.Da?
  {
    Min(s.unrecordedBytes, SumBytes(InRange(blocks, e.first, e.last)))
  }

  lemma FailingDaState(p: Params, s: State, blocks: Blocks, e: Event)
    requires ValidParams(p) && Failing(e)
    ensures var s' := Step(p, s, blocks, e).0;
      && s'.projectedCost == s.projectedCost && s'.costPerByte == s.costPerByte
      && s'.knownCost == SatU128(s.knownCost + e.cost)
      && s'.unrecordedBytes == s.unrecordedBytes - RemovedBytes(s, blocks, e)
  {
    hide SumBytes, InRange, OutOfRange;
  }

  /**
   A failing DA update books its cost without recomputing the projection. They stay in step
   exactly when the cost is what the removed bytes were projected to cost, or when both the old
   and the new projection saturate.
   */
  lemma FailingDaKeepsSyncIff(p: Params, s: State, blocks: Blocks, e: Event)
    requires ValidParams(p) && Failing(e) && InSync(s)
    ensures var removed := RemovedBytes(s, blocks, e);
      InSync(Step(p, s, blocks, e).0) <==>
        || e.cost == removed * s.costPerByte
        || (&& s.knownCost + s.unrecordedBytes * s.costPerByte >= U128_MAX
            && s.knownCost + e.cost + (s.unrecordedBytes - removed) * s.costPerByte >= U128_MAX)
  {
    hide SumBytes, InRange, Step, SatU128;
    var removed := RemovedBytes(s, blocks, e);
    assert 0 <= removed <= s.unrecordedBytes;
    hide RemovedBytes;
    FailingDaState(p, s, blocks, e);
    SyncArithmetic(s.knownCost, e.cost, removed, s.unrecordedBytes - removed, s.costPerByte);
  }

  /** A failing DA update that would leave the projection wrong. */
  ghost predicate Unbalances(s: State, blocks: Blocks, e: Event) {
    && Failing(e)
    && var removed := RemovedBytes(s, blocks, e);
       && e.cost != removed * s.costPerByte
       && (|| s.knownCost + s.unrecordedBytes * s.costPerByte < U128_MAX
           || s.knownCost + e.cost + (s.unrecordedBytes - removed) * s.costPerByte < U128_MAX)
  }

  lemma SyncStepIff(p: Params, s: State, blocks: Blocks, e: Event)
    requires ValidParams(p) && Usable(e) && InSync(s)
    ensures InSync(Step(p, s, blocks, e).0) <==> !Unbalances(s, blocks, e)
  {
    if Failing(e) {
      FailingDaKeepsSyncIff(p, s, blocks, e);
      hide InSync, Step, RemovedBytes;
    } else {
      SyncStep(p, s, blocks, e);
    }
  }

  /** At every point of the run the projection is what recomputing it would give. */
  ghost predicate InSyncThroughout(p: Params, s: State, blocks: Blocks, run: seq<Event>)
    requires ValidParams(p) && AllUsable(run)
  {
    forall i :: 0 <= i <= |run| ==> InSync(Run(p, s, blocks, run[..i]).0)
  }

  ghost predicate StaysBalanced(p: Params, s: State, blocks: Blocks, run: seq<Event>)
    requires ValidParams(p) && AllUsable(run)
  {
    forall i :: 0 <= i < |run| ==>
      var (mid, rest) := Run(p, s, blocks, run[..i]);
      !Unbalances(mid, rest, run[i])
  }

  lemma SyncSplitLast(p: Params, s: State, blocks: Blocks, run: seq<Event>)
    requires ValidParams(p) && AllUsable(run) && run != []
    ensures var front, e := run[..|run| - 1], run[|run| - 1];
      var (mid, rest) := Run(p, s, blocks, front);
      && (InSyncThroughout(p, s, blocks, run) <==>
            InSyncThroughout(p, s, blocks, front) && InSync(Run(p, s, blocks, run).0))
      && (StaysBalanced(p, s, blocks, run) <==> StaysBalanced(p, s, blocks, front) && !Unbalances(mid, rest, e))
      && (InSyncThroughout(p, s, blocks, front) ==> InSync(mid))
  {
    hide Run, InSync, Unbalances;
    var front := run[..|run| - 1];
    assert forall i :: 0 <= i < |run| ==> run[..i] == front[..i];
    assert forall i :: 0 <= i < |front| ==> run[i] == front[i];
    assert run[..|run|] == run && front[..|front|] == front;
  }

  /**
   Over every run the projection is what recomputing it would give throughout, exactly when no
   failing DA update has a cost other than projected, short of saturation.
   */
  lemma {:induction false} RunKeepsSyncIff(p: Params, s: State, blocks: Blocks, run: seq<Event>)
    requires ValidParams(p) && AllUsable(run) && InSync(s)
    ensures InSyncThroughout(p, s, blocks, run) <==> StaysBalanced(p, s, blocks, run)
    decreases |run|
  {
    hide InSync, Step, Unbalances;
    if run == [] {
      assert run[..0] == [];
    } else {
      hide InSyncThroughout, StaysBalanced;
      var front, e := run[..|run| - 1], run[|run| - 1];
      RunKeepsSyncIff(p, s, blocks, front);
      SyncSplitLast(p, s, blocks, run);
      var (mid, rest) := Run(p, s, blocks, front);
      if InSync(mid) {
        SyncStepIff(p, mid, rest, e);
      }
    }
  }

  /** On a fresh start, one failing DA update with a cost: the projection misses that cost. */
  lemma FailingDaDrifts(p: Params, s: State)
    requires ValidParams(p) && s.knownCost == 0 && s.projectedCost == 0 && s.unrecordedBytes == 0
    ensures InSync(s) && !InSync(Step(p, s, map[], Da(1, 1, 0, 1)).0)
  {
    hide Step;
    assert InSync(s);
    SumBytesBound(InRange(map[], 1, 1));
    hide SumBytes, InRange;
    FailingDaKeepsSyncIff(p, s, map[], Da(1, 1, 0, 1));
  }
}
