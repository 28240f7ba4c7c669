/** Sums of the unrecorded blocks' bytes. */
module GasPriceV1Bytes {
  import opened MachineInts
  import opened GasPriceV1

  const HEIGHTS: nat := 0x1_0000_0000

  lemma {:induction false} SumBelowBound(blocks: Blocks, n: nat)
    ensures SumBelow(blocks, n) <= n * U64_MAX
  {
    if n > 0 {
      SumBelowBound(blocks, n - 1);
    }
  }

  /** All unrecorded bytes together stay under 2^96. */
  lemma SumBytesBound(blocks: Blocks)
    ensures SumBytes(blocks) < 0x1_0000_0000_0000_0000_0000_0000
  {
    SumBelowBound(blocks, HEIGHTS);
  }

  function BytesAt(blocks: Blocks, h: u32): (r: nat) {
    if h in blocks then blocks[h] else 0
  }

  /** Setting one height's bytes changes the sum by the difference. */
  lemma {:induction false} SumBelowInsert(blocks: Blocks, h: u32, bytes: u64, n: nat)
    ensures SumBelow(blocks[h := bytes], n)
         == SumBelow(blocks, n) + if h < n then bytes - BytesAt(blocks, h) else 0
  {
    if n > 0 {
      SumBelowInsert(blocks, h, bytes, n - 1);
    }
  }

  lemma SumBytesInsert(blocks: Blocks, h: u32, bytes: u64)
    ensures SumBytes(blocks[h := bytes]) == SumBytes(blocks) + bytes - BytesAt(blocks, h)
  {
    SumBelowInsert(blocks, h, bytes, HEIGHTS);
  }

  lemma {:induction false} SumBelowSplit(blocks: Blocks, first: int, last: int, n: nat)
    ensures SumBelow(blocks, n)
         == SumBelow(InRange(blocks, first, last), n) + SumBelow(OutOfRange(blocks, first, last), n)
  {
    if n > 0 {
      SumBelowSplit(blocks, first, last, n - 1);
    }
  }

  /** What a range removes and what it leaves add up. */
  lemma SumBytesSplit(blocks: Blocks, first: int, last: int)
    ensures SumBytes(blocks) == SumBytes(InRange(blocks, first, last)) + SumBytes(OutOfRange(blocks, first, last))
  {
    SumBelowSplit(blocks, first, last, HEIGHTS);
  }

  lemma {:induction false} SumBelowNone(n: nat)
    ensures SumBelow(map[], n) == 0
  {
    if n > 0 {
      SumBelowNone(n - 1);
    }
  }

  lemma RangeStart(blocks: Blocks, first: u32)
    ensures OutOfRange(blocks, first, first - 1) == blocks
    ensures SumBytes(InRange(blocks, first, first - 1)) == 0
  {
    assert InRange(blocks, first, first - 1) == map[];
    SumBelowNone(HEIGHTS);
  }

  lemma RangeNext(blocks: Blocks, first: u32, height: u32)
    requires first <= height
    ensures OutOfRange(blocks, first, height) == OutOfRange(blocks, first, height - 1) - {height}
    ensures height in OutOfRange(blocks, first, height - 1) <==> height in blocks
    ensures height in blocks ==> OutOfRange(blocks, first, height - 1)[height] == blocks[height]
    ensures SumBytes(InRange(blocks, first, height))
         == SumBytes(InRange(blocks, first, height - 1)) + BytesAt(blocks, height)
  {
    var before := InRange(blocks, first, height - 1);
    if height in blocks {
      assert InRange(blocks, first, height) == before[height := blocks[height]];
      SumBytesInsert(before, height, blocks[height]);
    } else {
      assert InRange(blocks, first, height) == before;
    }
  }
}
