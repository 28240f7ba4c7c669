/**
 The round-robin evictor of one keyspace: keys are handed out in cyclic order, skipping the
 keys the current block must not lose.

 The specification works with the unwrapped cursor: a position that never wraps, whose key is
 `KeyAt(position)`. The evictor itself stores only that key.
 */
module EvictionPolicy {
  import opened Wrappers
  import opened RegistryKeys

  /** A free key, fixed once per keep set; it only measures how far the cursor can still go. */
  ghost function SomeFreeKey(keep: set<WritableKey>): (k: WritableKey)
    requires |keep| < KEY_COUNT
    ensures k !in keep
  {
    FreeKeyExists(keep);
    var k: WritableKey :| k !in keep;
    k
  }

  /** Cyclic distance from a key to the chosen free key. */
  ghost function Gap(keep: set<WritableKey>, k: WritableKey): (d: nat)
    requires |keep| < KEY_COUNT
  {
    var free := SomeFreeKey(keep);
    if free >= k then free - k else free + 0xFF_FFFF - k
  }

  lemma GapShrinks(keep: set<WritableKey>, k: WritableKey)
    requires |keep| < KEY_COUNT && k in keep
    ensures Gap(keep, Next(k)) < Gap(keep, k)
  {}

  /** The first position at or after `p` whose key is not kept. */
  ghost function FreeFrom(keep: set<WritableKey>, p: nat): (q: nat)
    requires |keep| < KEY_COUNT
    ensures p <= q && KeyAt(q) !in keep
    ensures forall i :: p <= i < q ==> KeyAt(i) in keep
    decreases Gap(keep, KeyAt(p))
  {
    if KeyAt(p) !in keep then
      p
    else
      KeyAtNext(p);
      GapShrinks(keep, KeyAt(p));
      FreeFrom(keep, p + 1)
  }

  /** The search depends on the key under the cursor only, not on the lap it is in. */
  lemma {:induction false} FreeFromLap(keep: set<WritableKey>, p: nat, q: nat)
    requires |keep| < KEY_COUNT && KeyAt(p) == KeyAt(q)
    ensures FreeFrom(keep, p) - p == FreeFrom(keep, q) - q
    ensures KeyAt(FreeFrom(keep, p)) == KeyAt(FreeFrom(keep, q))
    decreases Gap(keep, KeyAt(p))
  {
    if KeyAt(p) in keep {
      KeyAtNext(p);
      KeyAtNext(q);
      GapShrinks(keep, KeyAt(p));
      FreeFromLap(keep, p + 1, q + 1);
    }
  }

  /** The key `next_key` hands out: the first key from `next` on, in cyclic order, not kept. */
  ghost function NextFree(keep: set<WritableKey>, next: WritableKey): (k: WritableKey)
    requires |keep| < KEY_COUNT
    ensures k !in keep
  {
    KeyAt(FreeFrom(keep, next))
  }

  lemma NextFreeSkips(keep: set<WritableKey>, next: WritableKey)
    requires |keep| < KEY_COUNT
    ensures next !in keep ==> NextFree(keep, next) == next
    ensures next in keep ==> NextFree(keep, next) == NextFree(keep, Next(next))
  {
    KeyAtWrittenKey(next);
    if next in keep {
      KeyAtNext(next);
      FreeFromLap(keep, next + 1, Next(next));
    }
  }

  /** Where a block's evictor starts, given the key its predecessor committed. */
  function StartKey(latest: Option<WritableKey>): (k: WritableKey) {
    match latest
    case Some(key) => Next(key)
    case None => ZERO
  }

  class CacheEvictor {
    /** Keys that must not be evicted. */
    var keepKeys: set<WritableKey>
    /** The next key to be used. */
    var nextKey: WritableKey

    constructor NewFromDb(latest: Option<WritableKey>, keep: set<WritableKey>)
      ensures keepKeys == keep && nextKey == StartKey(latest)
    {
      keepKeys := keep;
      nextKey := match latest case Some(key) => Next(key) case None => ZERO;
    }

    method NextKey() returns (key: WritableKey)
      requires |keepKeys| < KEY_COUNT
      modifies this
      ensures key == NextFree(old(keepKeys), old(nextKey))
      ensures nextKey == key && keepKeys == old(keepKeys) + {key}
    {
      while nextKey in keepKeys
        invariant keepKeys == old(keepKeys)
        invariant NextFree(keepKeys, nextKey) == NextFree(old(keepKeys), old(nextKey))
        decreases Gap(keepKeys, nextKey)
      {
        NextFreeSkips(keepKeys, nextKey);
        GapShrinks(keepKeys, nextKey);
        nextKey := Next(nextKey);
      }
      NextFreeSkips(keepKeys, nextKey);
      keepKeys := keepKeys + {nextKey};
      key := nextKey;
    }
  }

  // ---------------------------------------------------------------------------------------
  // Many allocations
  // ---------------------------------------------------------------------------------------

  /** Positions handed out by `count` calls of `next_key`, starting with the cursor at `p`. */
  ghost function Allocate(keep: set<WritableKey>, p: nat, count: nat): (taken: seq<nat>)
    requires |keep| + count <= KEY_COUNT
    ensures |taken| == count
    decreases count
  {
    if count == 0 then
      []
    else
      var q := FreeFrom(keep, p);
      [q] + Allocate(keep + {KeyAt(q)}, q, count - 1)
  }

  /** The position `commit` persists: the last one handed out, or the untouched start. */
  ghost function Committed(p: nat, taken: seq<nat>): nat {
    if taken == [] then p else taken[|taken| - 1]
  }

  ghost function StartPosition(latest: Option<nat>): nat {
    match latest
    case Some(p) => p + 1
    case None => 0
  }

  ghost predicate StrictlyIncreasing(s: seq<nat>) {
    forall i, j :: 0 <= i < j < |s| ==> s[i] < s[j]
  }

  /** Within a block the cursor only moves forward, off the kept keys, and never repeats. */
  lemma {:induction false} AllocateAdvances(keep: set<WritableKey>, p: nat, count: nat)
    requires |keep| + count <= KEY_COUNT
    ensures var taken := Allocate(keep, p, count);
      && StrictlyIncreasing(taken)
      && (forall q :: q in taken ==> p <= q && KeyAt(q) !in keep)
    decreases count
  {
    if count > 0 {
      var q := FreeFrom(keep, p);
      var rest := Allocate(keep + {KeyAt(q)}, q, count - 1);
      AllocateAdvances(keep + {KeyAt(q)}, q, count - 1);
      forall i | 0 <= i < |rest|
        ensures q < rest[i] && KeyAt(rest[i]) !in keep
      {
        assert rest[i] in rest;
        assert KeyAt(rest[i]) !in keep + {KeyAt(q)};
      }
      assert Allocate(keep, p, count) == [q] + rest;
    }
  }

  lemma SameKeyIsALapApart(p: nat, q: nat)
    requires p < q && KeyAt(p) == KeyAt(q)
    ensures q - p >= KEY_COUNT
  {}

  lemma EveryOtherKeyIsPassed(p: nat, q: nat, k: WritableKey)
    requires q - p >= KEY_COUNT && k != KeyAt(p)
    ensures exists r :: p < r < q && KeyAt(r) == k
  {
    var step := if k > KeyAt(p) then k - KeyAt(p) else k + 0xFF_FFFF - KeyAt(p);
    var r := p + step;
    assert KeyAt(r) == k;
  }
}
