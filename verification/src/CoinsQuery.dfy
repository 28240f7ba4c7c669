/** Coin selection by size and by random improvement. */
module CoinsQuery {
  import opened Wrappers
  import opened MachineInts
  import opened Coins

  datatype CoinsQueryError =
    | StorageError
    | InsufficientCoinsForTheMax(collected: u128, max: u16)
    | TooManyCoinsSelected(required: int, allowed: int)
    | UnexpectedInternalState

  // ---------------------------------------------------------------------------------------
  // Largest first
  // ---------------------------------------------------------------------------------------

  /** Inserts a coin behind every coin that is worth at least as much. */
  function Insert(sorted: seq<Coin>, coin: Coin): (r: seq<Coin>)
    requires Descending(sorted)
    ensures Descending(r) && multiset(r) == multiset(sorted) + multiset{coin}
  {
    if sorted == [] || sorted[|sorted| - 1].amount >= coin.amount then
      sorted + [coin]
    else
      var front, last := sorted[..|sorted| - 1], sorted[|sorted| - 1];
      assert sorted == front + [last];
      var r := Insert(front, coin);
      forall c | c in r
        ensures c.amount >= last.amount
      {
        assert c in multiset(r);
        assert c in front || c == coin;
      }
      r + [last]
  }

  /** A stable sort by decreasing amount. */
  function SortedByAmount(coins: seq<Coin>): (r: seq<Coin>)
    ensures Descending(r) && multiset(r) == multiset(coins)
  {
    if coins == [] then
      []
    else
      assert coins == coins[..|coins| - 1] + [coins[|coins| - 1]];
      Insert(SortedByAmount(coins[..|coins| - 1]), coins[|coins| - 1])
  }

  /** Nothing is taken once the target is met. */
  ghost predicate NoneToSpare(coins: seq<Coin>, target: nat) {
    forall i :: 0 <= i < |coins| ==> Total(coins[..i]) < target
  }

  /** The promise of `LargestFirst` when it succeeds: a selection that no smaller one could replace. */
  ghost predicate FewestCoins(coins: seq<Coin>, inputs: seq<Coin>, target: nat, max: nat) {
    && Selection(coins, inputs, max)
    && Total(coins) >= target
    && NoneToSpare(coins, target)
    && forall n :: 0 <= n < |coins| ==> !Reachable(inputs, n, target)
  }

  lemma PrefixIsFewest(sorted: seq<Coin>, inputs: seq<Coin>, k: nat, target: nat, max: nat)
    requires Descending(sorted) && multiset(sorted) == multiset(inputs)
    requires k <= |sorted| && k <= max && Total(sorted[..k]) >= target && NoneToSpare(sorted[..k], target)
    ensures FewestCoins(sorted[..k], inputs, target, max) && Reachable(inputs, max, target)
  {
    assert sorted == sorted[..k] + sorted[k..];
    assert Selection(sorted[..k], inputs, max);
    forall n | 0 <= n < k
      ensures !Reachable(inputs, n, target)
    {
      ReachableIff(sorted, inputs, n, target);
      assert sorted[..k][..n] == sorted[..n];
    }
  }

  /** All that `max` coins are worth together is the most they can reach. */
  lemma PrefixIsMost(sorted: seq<Coin>, inputs: seq<Coin>, k: nat, target: nat, max: nat)
    requires Descending(sorted) && multiset(sorted) == multiset(inputs)
    requires k == Min(max, |sorted|) && Total(sorted[..k]) < target
    ensures !Reachable(inputs, max, target)
    ensures Reachable(inputs, max, Total(sorted[..k])) && !Reachable(inputs, max, Total(sorted[..k]) + 1)
  {
    ReachableIff(sorted, inputs, max, target);
    ReachableIff(sorted, inputs, max, Total(sorted[..k]));
    ReachableIff(sorted, inputs, max, Total(sorted[..k]) + 1);
  }

  lemma NoneToSpareNext(coins: seq<Coin>, i: nat, target: nat)
    requires i < |coins| && NoneToSpare(coins[..i], target) && Total(coins[..i]) < target
    ensures NoneToSpare(coins[..i + 1], target)
  {
    var next := coins[..i + 1];
    forall j | 0 <= j < |next|
      ensures Total(next[..j]) < target
    {
      assert next[..j] == coins[..j];
      assert j < i ==> coins[..i][..j] == coins[..j];
    }
  }

  /**
   Takes the largest coins until they meet the target. It fails exactly when no `max` coins can
   meet it, and then reports the most that `max` coins are worth; no selection that meets the
   target has fewer coins than the one returned.
   */
  method LargestFirst(inputs: seq<Coin>, target: u128, max: u16) returns (r: Result<seq<Coin>, CoinsQueryError>)
    ensures r.Ok? <==> Reachable(inputs, max, target)
    ensures r.Ok? ==> FewestCoins(r.value, inputs, target, max)
    ensures r.Err? ==>
      && r.error.InsufficientCoinsForTheMax? && r.error.max == max
      && Reachable(inputs, max, r.error.collected) && !Reachable(inputs, max, r.error.collected + 1)
  {
    hide Total, Reachable, FewestCoins, SortedByAmount;
    var sorted := SortedByAmount(inputs);
    var collected: u128 := 0;
    var coins := [];
    TotalBound(coins);
    for i := 0 to |sorted|
      invariant i <= max && coins == sorted[..i] && collected == Total(coins)
      invariant NoneToSpare(coins, target)
    {
      // Enough has been collected
      if collected >= target {
        PrefixIsFewest(sorted, inputs, i, target, max);
        return Ok(coins);
      }
      // No more coins are allowed
      if |coins| >= max {
        PrefixIsMost(sorted, inputs, i, target, max);
        return Err(InsufficientCoinsForTheMax(collected, max));
      }
      FewCoinsFit(coins);
      TotalNext(sorted, i);
      NoneToSpareNext(sorted, i, target);
      collected := SatU128(collected + sorted[i].amount);
      coins := coins + [sorted[i]];
    }
    if collected < target {
      PrefixIsMost(sorted, inputs, |sorted|, target, max);
      return Err(InsufficientCoinsForTheMax(collected, max));
    }
    PrefixIsFewest(sorted, inputs, |sorted|, target, max);
    r := Ok(coins);
  }

  // ---------------------------------------------------------------------------------------
  // Random improvement
  // ---------------------------------------------------------------------------------------

  /** How far a sum is from twice the target, the sum whose change equals the target. */
  function Distance(sum: nat, target: nat): nat {
    Abs(2 * target - sum)
  }

  /** Once the target is met, a coin is refused if it is too large or brings no improvement. */
  predicate Refused(sum: nat, coin: Coin, target: nat) {
    && sum >= target
    && (|| sum >= U64_MAX
        || coin.amount > SatU128(2 * target)
        || Distance(sum + coin.amount, target) >= Distance(sum, target))
  }

  /** `coins` are the offered coins up to the first refused one. */
  ghost predicate RandomWalk(coins: seq<Coin>, offered: seq<Coin>, target: nat) {
    && coins <= offered
    && (forall i :: 0 <= i < |coins| ==> !Refused(Total(offered[..i]), offered[i], target))
    && (|coins| < |offered| ==> Refused(Total(coins), offered[|coins|], target))
  }

  /** Every coin added after the target is met brings the sum strictly closer to twice the target. */
  ghost predicate OnlyImproves(coins: seq<Coin>, target: nat) {
    forall i :: 0 <= i < |coins| && Total(coins[..i]) >= target ==>
      Distance(Total(coins[..i]) + coins[i].amount, target) < Distance(Total(coins[..i]), target)
  }

  lemma RandomWalkImproves(coins: seq<Coin>, offered: seq<Coin>, target: nat)
    requires RandomWalk(coins, offered, target)
    ensures OnlyImproves(coins, target)
  {
    hide Total;
    forall i | 0 <= i < |coins| && Total(coins[..i]) >= target
      ensures Distance(Total(coins[..i]) + coins[i].amount, target) < Distance(Total(coins[..i]), target)
    {
      assert coins[..i] == offered[..i];
    }
  }

  /** After the sum is worth the target, a coin is taken that brings it nearer and is not too large. */
  ghost predicate Nears(sum: nat, amount: nat, target: nat) {
    && sum < 0xFFFF_FFFF_FFFF_FFFF && amount <= Min(2 * target, U128_MAX)
    && Abs(2 * target - (sum + amount)) < Abs(2 * target - sum)
  }

  /** What the walk takes, exactly: every coin until the target is met, then each that nears twice the target. */
  lemma RandomWalkIff(coins: seq<Coin>, offered: seq<Coin>, target: nat)
    ensures RandomWalk(coins, offered, target) <==>
      && coins <= offered
      && (forall i :: 0 <= i < |coins| ==>
            Total(coins[..i]) < target || Nears(Total(coins[..i]), coins[i].amount, target))
      && (|coins| < |offered| ==>
            Total(coins) >= target && !Nears(Total(coins), offered[|coins|].amount, target))
  {
    hide Total;
    if coins <= offered {
      assert forall i :: 0 <= i < |coins| ==> coins[..i] == offered[..i] && coins[i] == offered[i];
    }
  }

  /** A walk that never meets its target has taken everything it was offered. */
  lemma ShortWalkIsComplete(coins: seq<Coin>, offered: seq<Coin>, target: nat)
    requires RandomWalk(coins, offered, target) && Total(coins) < target
    ensures coins == offered
  {}

  /**
   Selection for one asset: a random walk over at most `max` shuffled coins, or the largest
   coins if the walk falls short.
   */
  ghost predicate Improved(
      coins: seq<Coin>, inputs: seq<Coin>, shuffled: seq<Coin>, target: nat, max: nat)
  {
    && Selection(coins, inputs, max) && Total(coins) >= target && OnlyImproves(coins, target)
    && var offered := shuffled[..Min(max, |shuffled|)];
       if Total(offered) >= target then RandomWalk(coins, offered, target)
       else FewestCoins(coins, inputs, target, max)
  }

  lemma WalkIsImproved(
      coins: seq<Coin>, inputs: seq<Coin>, shuffled: seq<Coin>, target: nat, max: nat)
    requires multiset(shuffled) == multiset(inputs)
    requires RandomWalk(coins, shuffled[..Min(max, |shuffled|)], target) && Total(coins) >= target
    ensures Improved(coins, inputs, shuffled, target, max) && Reachable(inputs, max, target)
  {
    var offered := shuffled[..Min(max, |shuffled|)];
    assert coins <= offered;
    hide RandomWalk, OnlyImproves, Total;
    RandomWalkImproves(coins, offered, target);
    assert offered[..|coins|] == coins && offered[..|offered|] == offered;
    PrefixTotal(offered, |coins|, |offered|);
    PrefixIsSelection(coins, inputs, shuffled, max);
  }

  lemma PrefixIsSelection(coins: seq<Coin>, inputs: seq<Coin>, shuffled: seq<Coin>, max: nat)
    requires multiset(shuffled) == multiset(inputs) && coins <= shuffled && |coins| <= max
    ensures Selection(coins, inputs, max)
  {
    assert shuffled == coins + shuffled[|coins|..];
  }

  lemma FewestIsImproved(
      coins: seq<Coin>, inputs: seq<Coin>, shuffled: seq<Coin>, target: nat, max: nat)
    requires FewestCoins(coins, inputs, target, max)
    requires Total(shuffled[..Min(max, |shuffled|)]) < target
    ensures Improved(coins, inputs, shuffled, target, max)
  {
    assert forall i :: 0 <= i < |coins| ==> Total(coins[..i]) < target;
  }

  lemma EmptyWalk(target: nat)
    ensures RandomWalk([], [], target) && Total([]) == 0
  {}

  lemma WalkGoesOn(offered: seq<Coin>, i: nat, target: nat)
    requires i < |offered| && RandomWalk(offered[..i], offered[..i], target)
    requires !Refused(Total(offered[..i]), offered[i], target)
    ensures RandomWalk(offered[..i + 1], offered[..i + 1], target)
    ensures Total(offered[..i + 1]) == Total(offered[..i]) + offered[i].amount
  {
    TotalNext(offered, i);
    var next := offered[..i + 1];
    forall j | 0 <= j < |next|
      ensures !Refused(Total(next[..j]), next[j], target)
    {
      assert next[..j] == offered[..j];
      assert j < i ==> offered[..i][..j] == offered[..j];
    }
  }

  lemma WalkStops(offered: seq<Coin>, i: nat, target: nat)
    requires i <= |offered| && RandomWalk(offered[..i], offered[..i], target)
    requires i < |offered| ==> Refused(Total(offered[..i]), offered[i], target)
    ensures RandomWalk(offered[..i], offered, target)
  {
    forall j | 0 <= j < i
      ensures !Refused(Total(offered[..j]), offered[j], target)
    {
      assert offered[..i][..j] == offered[..j];
    }
  }

  /** Goes through the offered coins, first to meet the target and then to improve on it. */
  method Walk(offered: seq<Coin>, target: u128) returns (coins: seq<Coin>, collected: u128)
    requires |offered| <= U16_MAX
    ensures RandomWalk(coins, offered, target) && collected == Total(coins)
  {
    hide RandomWalk, Total;
    collected := 0;
    coins := [];
    EmptyWalk(target);
    var upperTarget := SatU128(target * 2);
    for i := 0 to |offered|
      invariant coins == offered[..i] && collected == Total(coins)
      invariant RandomWalk(coins, coins, target)
    {
      var coin := offered[i];
      FewCoinsFit(coins);
      if collected >= target {
        if collected >= U64_MAX || coin.amount > upperTarget {
          WalkStops(offered, i, target);
          return;
        }
        var change := collected - target;
        var distance := Abs(target - change);
        var nextDistance := Abs(target - SatU128(change + coin.amount));
        if nextDistance >= distance {
          WalkStops(offered, i, target);
          return;
        }
      }
      WalkGoesOn(offered, i, target);
      collected := SatU128(collected + coin.amount);
      coins := coins + [coin];
    }
    assert offered[..|offered|] == offered;
  }

  /** For every shuffle: it fails exactly when the largest coins would not do either. */
  method ImproveAsset(inputs: seq<Coin>, shuffled: seq<Coin>, target: u128, max: u16)
    returns (r: Result<seq<Coin>, CoinsQueryError>)
    requires multiset(shuffled) == multiset(inputs)
    ensures r.Ok? <==> Reachable(inputs, max, target)
    ensures r.Ok? ==> Improved(r.value, inputs, shuffled, target, max)
  {
    hide Reachable, Improved, FewestCoins, RandomWalk;
    var offered := shuffled[..Min(max, |shuffled|)];
    var coins, collected := Walk(offered, target);
    if collected < target {
      ShortWalkIsComplete(coins, offered, target);
      r := LargestFirst(inputs, target, max);
      if r.Ok? {
        FewestIsImproved(r.value, inputs, shuffled, target, max);
      }
    } else {
      WalkIsImproved(coins, inputs, shuffled, target, max);
      r := Ok(coins);
    }
  }

  /** A spend query for one asset: the owner's coins, some shuffle of them, and what is asked for. */
  datatype AssetQuery = AssetQuery(inputs: seq<Coin>, shuffled: seq<Coin>, target: u128, max: u16)

  ghost predicate Shuffles(q: AssetQuery) { multiset(q.shuffled) == multiset(q.inputs) }

  ghost predicate Answerable(q: AssetQuery) { Reachable(q.inputs, q.max, q.target) }

  ghost predicate Answers(coins: seq<Coin>, q: AssetQuery) {
    Improved(coins, q.inputs, q.shuffled, q.target, q.max)
  }

  /** Answers every asset's query, or fails if one of them cannot be answered. */
  method RandomImprove(queries: seq<AssetQuery>) returns (r: Result<seq<seq<Coin>>, CoinsQueryError>)
    requires forall i :: 0 <= i < |queries| ==> Shuffles(queries[i])
    ensures r.Ok? <==> forall i :: 0 <= i < |queries| ==> Answerable(queries[i])
    ensures r.Ok? ==>
      && |r.value| == |queries|
      && forall i :: 0 <= i < |queries| ==> Answers(r.value[i], queries[i])
  {
    hide Reachable, Improved;
    var all := [];
    for i := 0 to |queries|
      invariant |all| == i
      invariant forall j :: 0 <= j < i ==> Answerable(queries[j]) && Answers(all[j], queries[j])
    {
      var q := queries[i];
      assert Shuffles(q);
      var coins := ImproveAsset(q.inputs, q.shuffled, q.target, q.max);
      if coins.Err? {
        assert !Answerable(queries[i]);
        return Err(coins.error);
      }
      all := all + [coins.value];
    }
    r := Ok(all);
  }
}
