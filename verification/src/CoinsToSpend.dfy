/** Coin selection over the index of coins to spend: big coins first, then some dust instead. */
module CoinsToSpend {
  import opened Wrappers
  import opened MachineInts
  import opened Coins
  import opened CoinsQuery

  type Exclude = set<CoinId>

  const TOTAL_AMOUNT_ADJUSTMENT_FACTOR: nat := 2
  const DUST_TO_BIG_COINS_FACTOR: nat := 5

  /** The coins of a stream that may be spent, in its order. */
  ghost function Eligible(stream: seq<Coin>, exclude: Exclude): seq<Coin> {
    if stream == [] then []
    else
      var front, last := Eligible(stream[..|stream| - 1], exclude), stream[|stream| - 1];
      if last.id in exclude then front else front + [last]
  }

  ghost predicate Distinct(coins: seq<Coin>) {
    forall i, j :: 0 <= i < j < |coins| ==> coins[i] != coins[j]
  }

  ghost function Reversed(coins: seq<Coin>): (r: seq<Coin>)
    ensures |r| == |coins|
    ensures forall i :: 0 <= i < |r| ==> r[i] == coins[|coins| - 1 - i]
  {
    seq(|coins|, i requires 0 <= i < |coins| => coins[|coins| - 1 - i])
  }

  // ---------------------------------------------------------------------------------------
  // Eligible coins
  // ---------------------------------------------------------------------------------------

  lemma {:induction false} EligibleConcat(a: seq<Coin>, b: seq<Coin>, exclude: Exclude)
    ensures Eligible(a + b, exclude) == Eligible(a, exclude) + Eligible(b, exclude)
    decreases |b|
  {
    if b == [] {
      assert a + b == a;
    } else {
      EligibleConcat(a, b[..|b| - 1], exclude);
      assert (a + b)[..|a + b| - 1] == a + b[..|b| - 1];
    }
  }

  lemma EligibleOne(c: Coin, exclude: Exclude)
    ensures Eligible([c], exclude) == if c.id in exclude then [] else [c]
  {
    assert [c][..0] == [];
  }

  /** An eligible coin of the stream comes right after the eligible coins before it. */
  lemma EligibleAt(stream: seq<Coin>, i: nat, exclude: Exclude)
    requires i < |stream|
    ensures var before := Eligible(stream[..i], exclude);
      && before <= Eligible(stream, exclude)
      && (stream[i].id in exclude ==> Eligible(stream[..i + 1], exclude) == before)
      && (stream[i].id !in exclude ==>
            && Eligible(stream[..i + 1], exclude) == before + [stream[i]]
            && |before| < |Eligible(stream, exclude)|
            && Eligible(stream, exclude)[|before|] == stream[i])
  {
    hide Eligible;
    var before := Eligible(stream[..i], exclude);
    EligibleConcat(stream[..i], [stream[i]], exclude);
    EligibleOne(stream[i], exclude);
    assert stream[..i + 1] == stream[..i] + [stream[i]];
    EligibleConcat(stream[..i + 1], stream[i + 1..], exclude);
    assert stream == stream[..i + 1] + stream[i + 1..];
  }

  /** Exactly the excluded coins are left out. */
  lemma {:induction false} EligibleMembers(stream: seq<Coin>, exclude: Exclude)
    ensures forall c :: c in Eligible(stream, exclude) <==> c in stream && c.id !in exclude
  {
    if stream != [] {
      var front, last := stream[..|stream| - 1], stream[|stream| - 1];
      EligibleMembers(front, exclude);
      assert stream == front + [last];
    }
  }

  /** Leaving coins out keeps the others in order and distinct. */
  lemma {:induction false} EligibleKeeps(stream: seq<Coin>, exclude: Exclude)
    requires Descending(stream) && Distinct(stream)
    ensures Descending(Eligible(stream, exclude)) && Distinct(Eligible(stream, exclude))
  {
    if stream != [] {
      var front, last := stream[..|stream| - 1], stream[|stream| - 1];
      EligibleKeeps(front, exclude);
      EligibleMembers(front, exclude);
      var kept := Eligible(front, exclude);
      forall i | 0 <= i < |kept|
        ensures kept[i] != last && kept[i].amount >= last.amount
      {
        assert kept[i] in front;
      }
    }
  }

  lemma {:induction false} EligibleReversed(stream: seq<Coin>, exclude: Exclude)
    ensures Eligible(Reversed(stream), exclude) == Reversed(Eligible(stream, exclude))
  {
    if stream != [] {
      var front, last := stream[..|stream| - 1], stream[|stream| - 1];
      EligibleReversed(front, exclude);
      assert Reversed(stream) == [last] + Reversed(front);
      EligibleConcat([last], Reversed(front), exclude);
      EligibleOne(last, exclude);
    }
  }

  // ---------------------------------------------------------------------------------------
  // Taking coins from a stream
  // ---------------------------------------------------------------------------------------

  /** `taken` are the first of `coins`, up to `max` many or the first at which to stop. */
  ghost predicate TakenUntil(taken: seq<Coin>, coins: seq<Coin>, max: nat, stop: (Coin, nat) -> bool) {
    && taken <= coins && |taken| <= max
    && (forall i :: 0 <= i < |taken| ==> !stop(coins[i], Total(coins[..i])))
    && (|taken| < |coins| && |taken| < max ==> stop(coins[|taken|], Total(taken)))
  }

  /** Nothing among the first `n` coins makes the selection stop. */
  ghost predicate ReadsPast(coins: seq<Coin>, n: nat, max: nat, stop: (Coin, nat) -> bool)
    requires n <= |coins|
  {
    n <= max && forall i :: 0 <= i < n ==> !stop(coins[i], Total(coins[..i]))
  }

  lemma TakeOneMore(taken: seq<Coin>, coins: seq<Coin>, max: nat, stop: (Coin, nat) -> bool)
    requires |taken| < |coins| && |taken| < max && taken <= coins
    requires ReadsPast(coins, |taken|, max, stop) && !stop(coins[|taken|], Total(taken))
    ensures taken + [coins[|taken|]] <= coins
    ensures ReadsPast(coins, |taken| + 1, max, stop)
    ensures Total(taken + [coins[|taken|]]) == Total(taken) + coins[|taken|].amount
  {
    hide Total;
    var n := |taken|;
    assert coins[..n] == taken;
    assert coins[..n + 1] == taken + [coins[n]];
    TotalNext(coins, n);
  }

  /**
   Takes coins from a stream, whose item at `failsAt` (possibly after the last coin) is an error
   of the storage. The error comes out exactly when nothing stops the selection before it.
   */
  method SelectCoinsUntil(
      stream: seq<Coin>, failsAt: Option<nat>, max: u16, exclude: Exclude, stop: (Coin, nat) -> bool)
    returns (r: Result<(u128, seq<Coin>), CoinsQueryError>)
    ensures r.Ok? ==> TakenUntil(r.value.1, Eligible(stream, exclude), max, stop) && r.value.0 == Total(r.value.1)
    ensures r.Err? ==> r.error == StorageError
    ensures r.Err? <==>
      && failsAt.Some? && failsAt.value <= |stream|
      && |Eligible(stream[..failsAt.value], exclude)| <= |Eligible(stream, exclude)|
      && ReadsPast(Eligible(stream, exclude), |Eligible(stream[..failsAt.value], exclude)|, max, stop)
  {
    hide Eligible, TakenUntil, ReadsPast, Total;
    var total: u128 := 0;
    var coins := [];
    ghost var all := Eligible(stream, exclude);
    NothingTaken(all, max, stop, exclude);
    assert stream[..0] == [];
    for i := 0 to |stream|
      invariant coins == Eligible(stream[..i], exclude) && coins <= all && total == Total(coins)
      invariant ReadsPast(all, |coins|, max, stop)
      invariant failsAt.Some? ==> i <= failsAt.value
    {
      if failsAt == Some(i) {
        return Err(StorageError);
      }
      var coin := stream[i];
      EligibleAt(stream, i, exclude);
      if coin.id !in exclude {
        if |coins| >= max || stop(coin, total) {
          Stopped(coins, all, max, stop);
          if failsAt.Some? && failsAt.value <= |stream| {
            EligibleUpTo(stream, i + 1, failsAt.value, exclude);
          }
          return Ok((total, coins));
        }
        TakeOneMore(coins, all, max, stop);
        FewCoinsFit(coins);
        total := SatU128(total + coin.amount);
        coins := coins + [coin];
      }
    }
    assert stream[..|stream|] == stream;
    Exhausted(coins, max, stop);
    if failsAt == Some(|stream|) {
      return Err(StorageError);
    }
    r := Ok((total, coins));
  }

  lemma NothingTaken(coins: seq<Coin>, max: nat, stop: (Coin, nat) -> bool, exclude: Exclude)
    ensures Eligible([], exclude) == [] && Total([]) == 0 && ReadsPast(coins, 0, max, stop)
  {}

  /** At a coin that is one too many or at which to stop, the selection is complete and reads no further. */
  lemma Stopped(taken: seq<Coin>, coins: seq<Coin>, max: nat, stop: (Coin, nat) -> bool)
    requires taken <= coins && |taken| < |coins| && ReadsPast(coins, |taken|, max, stop)
    requires |taken| >= max || stop(coins[|taken|], Total(taken))
    ensures TakenUntil(taken, coins, max, stop)
    ensures forall n :: |taken| < n <= |coins| ==> !ReadsPast(coins, n, max, stop)
  {
    hide Total;
    assert coins[..|taken|] == taken;
  }

  lemma Exhausted(coins: seq<Coin>, max: nat, stop: (Coin, nat) -> bool)
    requires ReadsPast(coins, |coins|, max, stop)
    ensures TakenUntil(coins, coins, max, stop)
  {
    hide Total;
  }

  lemma EligibleUpTo(stream: seq<Coin>, i: nat, j: nat, exclude: Exclude)
    requires i <= j <= |stream|
    ensures |Eligible(stream[..i], exclude)| <= |Eligible(stream[..j], exclude)| <= |Eligible(stream, exclude)|
  {
    hide Eligible;
    EligiblePrefix(stream, i, j, exclude);
    EligiblePrefix(stream, j, |stream|, exclude);
    assert stream[..|stream|] == stream;
  }

  lemma EligiblePrefix(stream: seq<Coin>, i: nat, j: nat, exclude: Exclude)
    requires i <= j <= |stream|
    ensures Eligible(stream[..i], exclude) <= Eligible(stream[..j], exclude)
  {
    hide Eligible;
    assert stream[..j] == stream[..i] + stream[i..j];
    EligibleConcat(stream[..i], stream[i..j], exclude);
  }

  /** The dust count is drawn from zero up to the bound. */
  method MaxDustCount(max: u16, bigCoins: u16, draw: nat -> nat) returns (count: u16)
    requires forall n :: draw(n) <= n
    ensures count == draw(Min(5 * bigCoins, Max(0, max - bigCoins)))
  {
    var fromFactor := SatU16(bigCoins * DUST_TO_BIG_COINS_FACTOR);
    var adjusted := SatU16(max - bigCoins);
    var upperBound := Min(fromFactor, adjusted);
    count := draw(upperBound);
  }

  /** Leaves out the first big coins, as long as the dust pays for all of them. */
  method SkipBigCoinsUpToAmount(big: seq<Coin>, skipped: u128) returns (retained: seq<Coin>)
    ensures |retained| <= |big| && retained == big[|big| - |retained|..]
    ensures Total(big[..|big| - |retained|]) <= skipped
    ensures retained != [] ==> Total(big[..|big| - |retained| + 1]) > skipped
  {
    var left := skipped;
    var i := 0;
    while i < |big| && left >= big[i].amount
      invariant 0 <= i <= |big| && 0 <= left && left + Total(big[..i]) == skipped
    {
      TotalNext(big, i);
      left := left - big[i].amount;
      i := i + 1;
    }
    if i < |big| {
      TotalNext(big, i);
    }
    retained := big[i..];
  }

  // ---------------------------------------------------------------------------------------
  // The whole selection
  // ---------------------------------------------------------------------------------------

  /** `n` is the least number of coins worth `amount`, or as many as allowed if they are not. */
  ghost predicate TakesUpTo(n: nat, coins: seq<Coin>, max: nat, amount: nat) {
    && n <= Min(max, |coins|)
    && (n < Min(max, |coins|) ==> Total(coins[..n]) >= amount)
    && forall i :: 0 <= i < n ==> Total(coins[..i]) < amount
  }

  lemma TakenBig(big: seq<Coin>, eligible: seq<Coin>, max: nat, stop: (Coin, nat) -> bool, adjusted: nat)
    requires TakenUntil(big, eligible, max, stop)
    requires forall c, sum: nat :: stop(c, sum) <==> sum >= adjusted
    ensures |big| <= Min(max, |eligible|) && big == eligible[..|big|]
    ensures TakesUpTo(|big|, eligible, max, adjusted)
  {
    hide Total;
    assert big == eligible[..|big|];
  }

  /** Big coins that fall short of the total are all that may be spent: nothing else would do. */
  lemma BigCoinsDecide(big: seq<Coin>, eligible: seq<Coin>, max: nat, total: nat)
    requires Descending(eligible)
    requires |big| <= Min(max, |eligible|) && big == eligible[..|big|]
    requires TakesUpTo(|big|, eligible, max, Min(2 * total, U128_MAX)) && total <= U128_MAX
    ensures Total(big) >= total <==> Reachable(eligible, max, total)
    ensures Total(big) < total ==>
      Reachable(eligible, max, Total(big)) && !Reachable(eligible, max, Total(big) + 1)
  {
    hide Total, Reachable, Descending;
    var k := Min(max, |eligible|);
    if Total(big) < total {
      PrefixIsMost(eligible, eligible, k, total, max);
    } else {
      ReachableIff(eligible, eligible, max, total);
      PrefixTotal(eligible, |big|, k);
    }
  }

  /** The dust is all there is of it, and stops before it reaches the smallest big coin. */
  lemma DustStaysBehind(
      big: seq<Coin>, dust: seq<Coin>, eligible: seq<Coin>, max: nat, stop: (Coin, nat) -> bool)
    requires Distinct(eligible) && big <= eligible && big != []
    requires TakenUntil(dust, Reversed(eligible), max, stop)
    requires forall c, sum: nat :: stop(c, sum) <==> c == big[|big| - 1]
    ensures |dust| == Min(max, |eligible| - |big|)
  {
    hide Total;
    var n := |eligible| - |big|;
    assert Reversed(eligible)[n] == big[|big| - 1] == eligible[|big| - 1];
    if |dust| < n {
      assert Reversed(eligible)[|dust|] == eligible[|eligible| - 1 - |dust|];
      assert eligible[|big| - 1] != eligible[|eligible| - 1 - |dust|];
    }
  }

  /** Distinct spendable coins, at most `max` of them, worth at least `total`. */
  ghost predicate Pays(coins: seq<Coin>, eligible: seq<Coin>, total: nat, max: nat) {
    && Distinct(coins)
    && |coins| <= max
    && Total(coins) >= total
    && forall c :: c in coins ==> c in eligible
  }

  /** What is selected: big coins `skipped` up to `taken`, then `dust` many of the smallest coins. */
  ghost predicate BigThenDust(coins: seq<Coin>, eligible: seq<Coin>, skipped: nat, taken: nat, dust: nat) {
    && skipped <= taken <= |eligible| && dust <= |eligible| - taken
    && coins == eligible[skipped..taken] + Reversed(eligible)[..dust]
    && Total(eligible[..skipped]) <= Total(Reversed(eligible)[..dust])
    && (skipped < taken ==> Total(eligible[..skipped + 1]) > Total(Reversed(eligible)[..dust]))
  }

  lemma BigThenDustDistinct(coins: seq<Coin>, eligible: seq<Coin>, skipped: nat, taken: nat, dust: nat)
    requires Distinct(eligible) && BigThenDust(coins, eligible, skipped, taken, dust)
    ensures Distinct(coins) && forall c :: c in coins ==> c in eligible
  {
    var n := taken - skipped;
    forall i | 0 <= i < |coins|
      ensures coins[i] == eligible[if i < n then skipped + i else |eligible| - 1 - (i - n)]
    {}
  }

  lemma BigThenDustTotal(coins: seq<Coin>, eligible: seq<Coin>, skipped: nat, taken: nat, dust: nat)
    requires BigThenDust(coins, eligible, skipped, taken, dust)
    ensures |coins| == taken - skipped + dust && Total(coins) >= Total(eligible[..taken])
  {
    hide Total;
    TotalConcat(eligible[..skipped], eligible[skipped..taken]);
    assert eligible[..taken] == eligible[..skipped] + eligible[skipped..taken];
    TotalConcat(eligible[skipped..taken], Reversed(eligible)[..dust]);
  }

  lemma BigThenDustPays(
      coins: seq<Coin>, eligible: seq<Coin>, skipped: nat, taken: nat, dust: nat, total: nat, max: nat)
    requires Distinct(eligible) && BigThenDust(coins, eligible, skipped, taken, dust)
    requires Total(eligible[..taken]) >= total && taken + dust <= max
    ensures Pays(coins, eligible, total, max)
  {
    hide Distinct, Total;
    BigThenDustDistinct(coins, eligible, skipped, taken, dust);
    BigThenDustTotal(coins, eligible, skipped, taken, dust);
  }

  /** The dust pays for the skipped coins, so what is returned is as good as the big coins. */
  lemma SelectionPays(
      big: seq<Coin>, dust: seq<Coin>, retained: seq<Coin>, n: nat, eligible: seq<Coin>, total: nat, max: nat)
    requires Distinct(eligible) && big <= eligible && dust <= Reversed(eligible)
    requires |dust| <= |eligible| - |big| && |big| + |dust| <= max && Total(big) >= total
    requires n <= |big| && retained == big[n..] && Total(big[..n]) <= Total(dust)
    requires n < |big| ==> Total(big[..n + 1]) > Total(dust)
    ensures BigThenDust(retained + dust, eligible, n, |big|, |dust|)
    ensures Pays(retained + dust, eligible, total, max)
  {
    hide Distinct, Total, Reversed;
    assert big == eligible[..|big|] && dust == Reversed(eligible)[..|dust|];
    assert big[..n] == eligible[..n] && retained == eligible[n..|big|];
    assert n < |big| ==> big[..n + 1] == eligible[..n + 1];
    BigThenDustPays(retained + dust, eligible, n, |big|, |dust|, total, max);
  }

  /**
   Selects coins worth at least `total` from an index listed from the largest coin down and,
   for dust, from the smallest up. For every random dust count it succeeds exactly when some
   `max` spendable coins are worth the total, unless reading the index fails; the remaining
   internal errors never occur. The big coins are just enough for twice the total, the dust is
   what was drawn, and the largest big coins that the dust pays for are left out.
   */
  method SelectCoinsToSpend(
      bigStream: seq<Coin>, bigFailsAt: Option<nat>, dustStream: seq<Coin>, dustFailsAt: Option<nat>,
      total: u128, max: u16, exclude: Exclude, draw: nat -> nat)
    returns (r: Result<seq<Coin>, CoinsQueryError>)
    requires forall n :: draw(n) <= n
    requires Descending(bigStream) && Distinct(bigStream) && dustStream == Reversed(bigStream)
    ensures total == 0 || max == 0 ==> r == Ok([])
    ensures total > 0 && max > 0 ==>
      var eligible := Eligible(bigStream, exclude);
      && (r.Ok? ==> Reachable(eligible, max, total) && Pays(r.value, eligible, total, max))
      && (r.Ok? ==> exists skipped: nat, taken: nat, dust: nat ::
            && BigThenDust(r.value, eligible, skipped, taken, dust)
            && TakesUpTo(taken, eligible, max, Min(2 * total, U128_MAX))
            && dust == Min(draw(Min(5 * taken, Max(0, max - taken))), |eligible| - taken))
      && (r.Err? && r.error != StorageError ==>
            && r.error.InsufficientCoinsForTheMax? && r.error.max == max && !Reachable(eligible, max, total)
            && Reachable(eligible, max, r.error.collected) && !Reachable(eligible, max, r.error.collected + 1))
      && (r == Err(StorageError) ==> bigFailsAt.Some? || dustFailsAt.Some?)
      && (bigFailsAt.None? && dustFailsAt.None? ==> (r.Ok? <==> Reachable(eligible, max, total)))
  {
    hide Eligible, Total, Reachable, Descending, Distinct, Reversed, Pays, BigThenDust, TakenUntil, ReadsPast,
      TakesUpTo;
    if total == 0 || max == 0 {
      return Ok([]);
    }
    ghost var eligible := Eligible(bigStream, exclude);
    EligibleKeeps(bigStream, exclude);
    EligibleReversed(bigStream, exclude);
    var adjusted := SatU128(total * TOTAL_AMOUNT_ADJUSTMENT_FACTOR);
    var enough := (c: Coin, sum: nat) => sum >= adjusted;
    var bigCoins := SelectCoinsUntil(bigStream, bigFailsAt, max, exclude, enough);
    if bigCoins.Err? {
      return Err(bigCoins.error);
    }
    var (bigTotal, big) := bigCoins.value;
    TakenBig(big, eligible, max, enough, adjusted);
    BigCoinsDecide(big, eligible, max, total);
    if bigTotal < total {
      return Err(InsufficientCoinsForTheMax(bigTotal, max));
    }
    TakenFacts(big, eligible, max, enough);
    if |big| == 0 {
      NothingIsWorthNothing(big);
      return Err(UnexpectedInternalState);
    }
    var last := big[|big| - 1];
    if |big| > U16_MAX {
      return Err(TooManyCoinsSelected(|big|, U16_MAX));
    }
    var maxDust := MaxDustCount(max, |big|, draw);
    var atLast := (c: Coin, sum: nat) => c == last;
    var dustCoins := SelectCoinsUntil(dustStream, dustFailsAt, maxDust, exclude, atLast);
    if dustCoins.Err? {
      return Err(dustCoins.error);
    }
    var (dustTotal, dust) := dustCoins.value;
    DustStaysBehind(big, dust, eligible, maxDust, atLast);
    TakenFacts(dust, Reversed(eligible), maxDust, atLast);
    var retained := SkipBigCoinsUpToAmount(big, dustTotal);
    ghost var skipped := |big| - |retained|;
    SelectionPays(big, dust, retained, skipped, eligible, total, max);
    r := Ok(retained + dust);
  }

  lemma TakenFacts(taken: seq<Coin>, coins: seq<Coin>, max: nat, stop: (Coin, nat) -> bool)
    requires TakenUntil(taken, coins, max, stop)
    ensures taken <= coins && |taken| <= max
  {}

  lemma NothingIsWorthNothing(coins: seq<Coin>)
    requires coins == []
    ensures Total(coins) == 0
  {}
}
