/** Coins, selections of coins, and the sums that bound what any selection can reach. */
module Coins {
  import opened MachineInts

  datatype CoinId = Utxo(utxo: nat) | Message(nonce: nat)
  datatype Coin = Coin(id: CoinId, amount: u64)

  function Total(coins: seq<Coin>): (sum: nat) {
    if coins == [] then 0 else Total(coins[..|coins| - 1]) + coins[|coins| - 1].amount
  }

  /** A choice of at most `max` coins out of `pool`, each used at most as often as it occurs. */
  ghost predicate Selection(chosen: seq<Coin>, pool: seq<Coin>, max: nat) {
    |chosen| <= max && multiset(chosen) <= multiset(pool)
  }

  /** Some selection of at most `max` coins is worth at least `target`. */
  ghost predicate Reachable(pool: seq<Coin>, max: nat, target: nat) {
    exists chosen :: Selection(chosen, pool, max) && Total(chosen) >= target
  }

  ghost predicate Descending(coins: seq<Coin>) {
    forall i, j :: 0 <= i < j < |coins| ==> coins[i].amount >= coins[j].amount
  }

  // ---------------------------------------------------------------------------------------
  // Sums
  // ---------------------------------------------------------------------------------------

  lemma {:induction false} TotalConcat(a: seq<Coin>, b: seq<Coin>)
    ensures Total(a + b) == Total(a) + Total(b)
    decreases |b|
  {
    if b == [] {
      assert a + b == a;
    } else {
      TotalConcat(a, b[..|b| - 1]);
      assert (a + b)[..|a + b| - 1] == a + b[..|b| - 1];
    }
  }

  lemma TotalFirst(coins: seq<Coin>)
    requires coins != []
    ensures Total(coins) == coins[0].amount + Total(coins[1..])
  {
    TotalConcat([coins[0]], coins[1..]);
    TotalOne(coins[0]);
    assert coins == [coins[0]] + coins[1..];
  }

  lemma TotalNext(coins: seq<Coin>, i: nat)
    requires i < |coins|
    ensures Total(coins[..i + 1]) == Total(coins[..i]) + coins[i].amount
  {
    assert coins[..i + 1][..i] == coins[..i];
  }

  lemma {:induction false} TotalBound(coins: seq<Coin>)
    ensures Total(coins) <= |coins| * U64_MAX
  {
    if coins != [] {
      TotalBound(coins[..|coins| - 1]);
    }
  }

  lemma PrefixTotal(coins: seq<Coin>, i: nat, j: nat)
    requires i <= j <= |coins|
    ensures Total(coins[..i]) <= Total(coins[..j])
  {
    TotalConcat(coins[..i], coins[i..j]);
    assert coins[..j] == coins[..i] + coins[i..j];
  }

  /** No 16-bit number of coins can overflow a 128-bit sum. */
  lemma FewCoinsFit(coins: seq<Coin>)
    requires |coins| <= U16_MAX
    ensures Total(coins) + U64_MAX <= U128_MAX
  {
    TotalBound(coins);
  }

  // ---------------------------------------------------------------------------------------
  // The largest coins are the best selection
  // ---------------------------------------------------------------------------------------

  lemma TotalOne(c: Coin)
    ensures Total([c]) == c.amount
  {
    assert [c][..0] == [];
  }

  lemma TotalWithout(s: seq<Coin>, i: nat)
    requires i < |s|
    ensures Total(s) == Total(s[..i] + s[i + 1..]) + s[i].amount
  {
    TotalConcat(s[..i], s[i + 1..]);
    TotalConcat(s[..i + 1], s[i + 1..]);
    TotalNext(s, i);
    assert s == s[..i + 1] + s[i + 1..];
  }

  lemma MultisetWithout(s: seq<Coin>, i: nat)
    requires i < |s|
    ensures multiset(s) == multiset(s[..i] + s[i + 1..]) + multiset{s[i]}
  {
    assert s == s[..i] + [s[i]] + s[i + 1..];
  }

  lemma MultisetDrop(a: multiset<Coin>, y: Coin, b: multiset<Coin>, x: Coin)
    requires a + multiset{y} <= multiset{x} + b && (y == x || x !in a)
    ensures a <= b
  {
    forall c
      ensures a[c] <= b[c]
    {
      assert (a + multiset{y})[c] <= (multiset{x} + b)[c];
    }
  }

  /** A selection gives up one coin, worth at most the largest, and fits into the others. */
  lemma GiveUpOne(first: Coin, rest: seq<Coin>, chosen: seq<Coin>, k: nat) returns (chosen': seq<Coin>)
    requires chosen != [] && Selection(chosen, [first] + rest, k)
    requires forall c :: c in rest ==> c.amount <= first.amount
    ensures k > 0 && Selection(chosen', rest, k - 1)
    ensures Total(chosen) <= Total(chosen') + first.amount
  {
    var i := if first in chosen then IndexOf(chosen, first) else 0;
    chosen' := chosen[..i] + chosen[i + 1..];
    TotalWithout(chosen, i);
    MultisetWithout(chosen, i);
    assert multiset([first] + rest) == multiset{first} + multiset(rest);
    assert first !in chosen ==> first !in multiset(chosen);
    MultisetDrop(multiset(chosen'), chosen[i], multiset(rest), first);
    assert chosen[i] in multiset(chosen);
    assert chosen[i] == first || chosen[i] in multiset(rest);
  }

  lemma DescendingTail(sorted: seq<Coin>)
    requires Descending(sorted) && sorted != []
    ensures Descending(sorted[1..])
    ensures forall c :: c in sorted[1..] ==> c.amount <= sorted[0].amount
    ensures sorted == [sorted[0]] + sorted[1..]
  {}

  lemma TopSplit(sorted: seq<Coin>, k: nat)
    requires 0 < k <= |sorted|
    ensures Total(sorted[..k]) == sorted[0].amount + Total(sorted[1..][..k - 1])
  {
    TotalFirst(sorted[..k]);
    assert sorted[..k][1..] == sorted[1..][..k - 1];
  }

  lemma SelectionBound(chosen: seq<Coin>, pool: seq<Coin>, k: nat)
    requires Selection(chosen, pool, k)
    ensures |chosen| <= k
  {}

  /** Exchange argument: any `k` coins of a descending list are worth at most its first `k`. */
  lemma {:induction false} LargestAreBest(sorted: seq<Coin>, chosen: seq<Coin>, k: nat)
    requires Descending(sorted) && Selection(chosen, sorted, k) && k <= |sorted|
    ensures Total(chosen) <= Total(sorted[..k])
    decreases |sorted|
  {
    hide *;
    SelectionBound(chosen, sorted, k);
    if chosen == [] {
      assert Total(chosen) == 0 by { TotalBound(chosen); }
    } else {
      DescendingTail(sorted);
      var chosen' := GiveUpOne(sorted[0], sorted[1..], chosen, k);
      LargestAreBest(sorted[1..], chosen', k - 1);
      TopSplit(sorted, k);
    }
  }

  ghost function IndexOf(s: seq<Coin>, c: Coin): (i: nat)
    requires c in s
    ensures i < |s| && s[i] == c
  {
    var i :| 0 <= i < |s| && s[i] == c;
    i
  }

  /** Exactly the sums up to that of the `max` largest coins can be reached. */
  lemma ReachableIff(sorted: seq<Coin>, pool: seq<Coin>, max: nat, target: nat)
    requires Descending(sorted) && multiset(sorted) == multiset(pool)
    ensures Reachable(pool, max, target) <==> Total(sorted[..Min(max, |sorted|)]) >= target
  {
    var k := Min(max, |sorted|);
    assert sorted == sorted[..k] + sorted[k..];
    assert Selection(sorted[..k], pool, max);
    forall chosen | Selection(chosen, pool, max)
      ensures Total(chosen) <= Total(sorted[..k])
    {
      SelectionSize(chosen, sorted);
      LargestAreBest(sorted, chosen, k);
    }
  }

  lemma SelectionSize(chosen: seq<Coin>, pool: seq<Coin>)
    requires multiset(chosen) <= multiset(pool)
    ensures |chosen| <= |pool|
  {
    assert multiset(pool) == multiset(chosen) + (multiset(pool) - multiset(chosen));
    assert |multiset(chosen)| == |chosen| && |multiset(pool)| == |pool|;
  }
}
