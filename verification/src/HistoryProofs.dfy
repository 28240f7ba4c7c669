/**
 The history refines a stack of snapshots: rolling back pops one, and reading at a height that
 the history still covers finds exactly what was there.
 */
module HistoryProofs {
  import opened Wrappers
  import opened MachineInts
  import opened HistoricalStore

  /** Snapshots: `states[0]` is the store below height `first`, `states[i]` the one after `i` blocks. */
  datatype Chain = Chain(first: nat, states: seq<Store>)

  /** The height of the last block, or one below `first` if there is none. */
  function Top(c: Chain): int { c.first + |c.states| - 2 }

  predicate Covers(c: Chain, height: int) { c.first - 1 <= height <= Top(c) }

  function StateAt(c: Chain, height: int): Store
    requires Covers(c, height)
  {
    c.states[height + 1 - c.first]
  }

  function Pushed(c: Chain, s: Store): Chain { c.(states := c.states + [s]) }

  function Popped(c: Chain): Chain
    requires |c.states| > 0
  {
    c.(states := c.states[..|c.states| - 1])
  }

  // ---------------------------------------------------------------------------------------
  // Invariant
  // ---------------------------------------------------------------------------------------

  /** `reverse` leads from `after` back to `before`, and names just the keys that differ. */
  ghost predicate Undoes(after: Store, before: Store, reverse: Changes) {
    forall k ::
      && Get(before, k) == (if k in reverse then Outcome(reverse[k]) else Get(after, k))
      && (k in reverse ==> Get(before, k) != Get(after, k))
  }

  /** The heights with history reach up to the last block without a gap. */
  ghost predicate Contiguous(mods: map<nat, Changes>, c: Chain) {
    && (forall g :: g in mods ==> c.first <= g <= Top(c))
    && (forall g, i :: g in mods && g <= i <= Top(c) ==> i in mods)
  }

  /** Each height's reverse changes lead from its snapshot back to the one before. */
  ghost predicate Faithful(mods: map<nat, Changes>, c: Chain) {
    forall g :: g in mods ==>
      && Covers(c, g) && Covers(c, g - 1)
      && Undoes(StateAt(c, g), StateAt(c, g - 1), mods[g])
  }

  /** Both history tables say the same. */
  ghost predicate Duplicated(h: History) {
    forall k, g ::
      && ((k, g) in h.duplicates <==> g in h.modifications && k in h.modifications[g])
      && ((k, g) in h.duplicates ==> h.duplicates[(k, g)] == h.modifications[g][k])
  }

  /** What the policy promises to keep, and what it forgets. */
  ghost predicate Windowed(policy: Policy, mods: map<nat, Changes>, c: Chain) {
    match policy
    case NoRewind => mods == map[]
    case RewindFullRange => forall g: nat :: c.first <= g <= Top(c) ==> g in mods
    case RewindRange(size) => forall g :: g in mods ==> Top(c) < g + size
  }

  ghost predicate Inv(policy: Policy, h: History, c: Chain) {
    && |c.states| > 0
    && h.store == c.states[|c.states| - 1]
    && Contiguous(h.modifications, c)
    && Faithful(h.modifications, c)
    && Duplicated(h)
    && Windowed(policy, h.modifications, c)
  }

  // ---------------------------------------------------------------------------------------
  // Undoing
  // ---------------------------------------------------------------------------------------

  lemma SameStore(a: Store, b: Store)
    requires forall k :: Get(a, k) == Get(b, k)
    ensures a == b
  {
    assert forall k :: k in a <==> Get(a, k).Some?;
    assert forall k :: k in b <==> Get(b, k).Some?;
    assert forall k :: k in a ==> Get(a, k) == Some(a[k]) && Get(b, k) == Some(b[k]);
  }

  /** The reverse changes of a commit undo it. */
  lemma ReverseUndoes(store: Store, changes: Changes)
    ensures Undoes(Apply(store, changes), store, Reverse(store, changes))
  {}

  /** Undoing changes brings the earlier store back exactly. */
  lemma UndoIsExact(after: Store, before: Store, reverse: Changes)
    requires Undoes(after, before, reverse)
    ensures Apply(after, reverse) == before
  {
    SameStore(Apply(after, reverse), before);
  }

  // ---------------------------------------------------------------------------------------
  // Forgetting
  // ---------------------------------------------------------------------------------------

  lemma ForgetKeepsDuplicated(h: History, height: nat)
    requires Duplicated(h)
    ensures Duplicated(Forget(h, height))
    ensures Forget(h, height).modifications == h.modifications - {height}
  {
    if height in h.modifications {
      var tags := Tagged(h.modifications[height], height).Keys;
      var r := Forget(h, height);
      forall k, g
        ensures (k, g) in r.duplicates <==> g in r.modifications && k in r.modifications[g]
        ensures (k, g) in r.duplicates ==> r.duplicates[(k, g)] == r.modifications[g][k]
      {
        assert (k, g) in h.duplicates <==> g in h.modifications && k in h.modifications[g];
        assert (k, g) in tags <==> k in h.modifications[height] && g == height;
      }
    }
  }

  lemma RecordFresh(h: History, height: nat, reverse: Changes)
    requires Duplicated(h) && height !in h.modifications
    ensures Duplicated(h.(modifications := h.modifications[height := reverse],
                          duplicates := h.duplicates + Tagged(reverse, height)))
  {
    var r := h.(modifications := h.modifications[height := reverse],
                duplicates := h.duplicates + Tagged(reverse, height));
    forall k, g
      ensures (k, g) in r.duplicates <==> g in r.modifications && k in r.modifications[g]
      ensures (k, g) in r.duplicates ==> r.duplicates[(k, g)] == r.modifications[g][k]
    {
      assert (k, g) in h.duplicates <==> g in h.modifications && k in h.modifications[g];
    }
  }

  lemma RecordKeepsDuplicated(h: History, height: nat, reverse: Changes)
    requires Duplicated(h)
    ensures Duplicated(Recorded(h, height, reverse))
    ensures Recorded(h, height, reverse).modifications == h.modifications[height := reverse]
  {
    ForgetKeepsDuplicated(h, height);
    hide Forget, Duplicated, Tagged;
    RecordFresh(Forget(h, height), height, reverse);
  }

  // ---------------------------------------------------------------------------------------
  // Commit and rollback
  // ---------------------------------------------------------------------------------------

  /** The table of reverse changes a commit leaves. */
  function Retained(policy: Policy, mods: map<nat, Changes>, height: nat): map<nat, Changes> {
    if policy.RewindRange? then mods - {Max(0, height - policy.size)} else mods
  }

  lemma CommitTables(policy: Policy, h: History, height: nat, changes: Changes)
    requires Duplicated(h) && !policy.NoRewind?
    ensures var r := Commit(policy, h, Some(height), changes);
      && Duplicated(r)
      && r.store == Apply(h.store, changes)
      && r.modifications == Retained(policy, h.modifications, height)[height := Reverse(h.store, changes)]
  {
    var cleaned := CleanedUp(policy, h, height);
    if policy.RewindRange? {
      ForgetKeepsDuplicated(h, Max(0, height - policy.size));
    }
    RecordKeepsDuplicated(cleaned, height, Reverse(h.store, changes));
    hide Recorded, Forget, Reverse, Apply, Duplicated;
    var recorded := Recorded(cleaned, height, Reverse(h.store, changes));
    DuplicatedIgnoresStore(recorded, Apply(h.store, changes));
  }

  /** A height survives a commit exactly when the window does not push it out; height zero goes early. */
  lemma RangeRetainsIff(size: nat, h: History, height: nat, changes: Changes, g: nat)
    requires size > 0 && Duplicated(h) && g != height
    ensures g in Commit(RewindRange(size), h, Some(height), changes).modifications <==>
      g in h.modifications && g + size != height && !(g == 0 && height <= size)
  {
    hide Commit, Duplicated, Reverse;
    CommitTables(RewindRange(size), h, height, changes);
  }

  lemma DuplicatedIgnoresStore(h: History, store: Store)
    requires Duplicated(h)
    ensures Duplicated(h.(store := store))
  {}

  lemma PushedStates(c: Chain, s: Store)
    requires |c.states| > 0
    ensures Top(Pushed(c, s)) == Top(c) + 1
    ensures forall g :: Covers(c, g) ==> Covers(Pushed(c, s), g) && StateAt(Pushed(c, s), g) == StateAt(c, g)
    ensures Covers(Pushed(c, s), Top(c) + 1) && StateAt(Pushed(c, s), Top(c) + 1) == s
  {}

  /** Only the oldest height is ever forgotten, so the retained heights stay without a gap. */
  lemma PushKeepsWindow(policy: Policy, mods: map<nat, Changes>, c: Chain, s: Store, reverse: Changes)
    requires ValidPolicy(policy) && !policy.NoRewind? && |c.states| > 0 && Top(c) + 1 >= 0
    requires Contiguous(mods, c) && Windowed(policy, mods, c)
    ensures Contiguous(Retained(policy, mods, Top(c) + 1)[Top(c) + 1 := reverse], Pushed(c, s))
    ensures Windowed(policy, Retained(policy, mods, Top(c) + 1)[Top(c) + 1 := reverse], Pushed(c, s))
  {
    PushedStates(c, s);
    hide Pushed;
  }

  lemma PushKeepsFaithful(policy: Policy, mods: map<nat, Changes>, c: Chain, s: Store, reverse: Changes)
    requires |c.states| > 0 && Top(c) + 1 >= 0
    requires Faithful(mods, c) && Undoes(s, StateAt(c, Top(c)), reverse)
    ensures Faithful(Retained(policy, mods, Top(c) + 1)[Top(c) + 1 := reverse], Pushed(c, s))
  {
    PushedStates(c, s);
    hide Pushed, Undoes, StateAt;
  }

  /** Committing the next height pushes a snapshot. */
  lemma CommitPushes(policy: Policy, h: History, c: Chain, changes: Changes)
    requires ValidPolicy(policy) && Inv(policy, h, c) && Top(c) + 1 >= 0
    ensures Inv(policy, Commit(policy, h, Some(Top(c) + 1), changes), Pushed(c, Apply(h.store, changes)))
  {
    var height, s := Top(c) + 1, Apply(h.store, changes);
    hide Apply, Reverse, Duplicated, Undoes, Contiguous, Faithful, Retained;
    if policy.NoRewind? {
      DuplicatedIgnoresStore(h, s);
      NoHistory(c.(states := c.states + [s]));
    } else {
      CommitTables(policy, h, height, changes);
      ReverseUndoes(h.store, changes);
      PushKeepsWindow(policy, h.modifications, c, s, Reverse(h.store, changes));
      PushKeepsFaithful(policy, h.modifications, c, s, Reverse(h.store, changes));
      hide Commit, Windowed;
    }
  }

  lemma NoHistory(c: Chain)
    ensures Contiguous(map[], c) && Faithful(map[], c)
  {}

  /** Before the first height, changes go straight into the base snapshot. */
  lemma CommitWithoutHeight(policy: Policy, h: History, c: Chain, first: nat, changes: Changes)
    requires Inv(policy, h, c) && |c.states| == 1
    ensures Inv(policy, Commit(policy, h, None, changes), Chain(first, [Apply(h.store, changes)]))
  {
    hide Apply;
    DuplicatedIgnoresStore(h, Apply(h.store, changes));
  }

  lemma PopKeepsTables(policy: Policy, mods: map<nat, Changes>, c: Chain)
    requires |c.states| > 1 && Contiguous(mods, c) && Faithful(mods, c) && Windowed(policy, mods, c)
    requires Top(c) in mods
    ensures var mods', c' := mods - {Top(c)}, Popped(c);
      Contiguous(mods', c') && Faithful(mods', c') && Windowed(policy, mods', c')
  {
    var c' := Popped(c);
    assert forall g :: Covers(c', g) ==> Covers(c, g) && StateAt(c', g) == StateAt(c, g);
    hide Undoes, StateAt;
  }

  lemma RollbackTables(h: History, height: nat)
    requires Duplicated(h) && height in h.modifications
    ensures Rollback(h, height).Ok?
    ensures var r := Rollback(h, height).value;
      && Duplicated(r)
      && r.modifications == h.modifications - {height}
      && r.store == Apply(h.store, h.modifications[height])
  {
    hide Apply, Duplicated, Forget;
    ForgetKeepsDuplicated(h, height);
    DuplicatedIgnoresStore(Forget(h, height), Apply(h.store, h.modifications[height]));
  }

  lemma LastIsUndone(h: History, c: Chain)
    requires |c.states| > 1 && h.store == c.states[|c.states| - 1]
    requires Faithful(h.modifications, c) && Top(c) in h.modifications
    ensures Apply(h.store, h.modifications[Top(c)]) == c.states[|c.states| - 2]
  {
    assert Undoes(StateAt(c, Top(c)), StateAt(c, Top(c) - 1), h.modifications[Top(c)]);
    hide Undoes, Faithful, Apply;
    UndoIsExact(StateAt(c, Top(c)), StateAt(c, Top(c) - 1), h.modifications[Top(c)]);
  }

  /** Rolling back the last block pops its snapshot, if its history was kept. */
  lemma RollbackPops(policy: Policy, h: History, c: Chain)
    requires Inv(policy, h, c) && |c.states| > 1
    ensures Rollback(h, Top(c)).Ok? <==> Top(c) in h.modifications
    ensures Rollback(h, Top(c)).Ok? ==>
      && Inv(policy, Rollback(h, Top(c)).value, Popped(c))
      && Rollback(h, Top(c)).value.modifications == h.modifications - {Top(c)}
  {
    if Top(c) in h.modifications {
      LastIsUndone(h, c);
      hide Apply, Duplicated, Contiguous, Faithful, Windowed, Rollback;
      RollbackTables(h, Top(c));
      PopKeepsTables(policy, h.modifications, c);
    }
  }

  // ---------------------------------------------------------------------------------------
  // Reading at a height
  // ---------------------------------------------------------------------------------------

  /** A key no block between two heights modified has the same value at both. */
  lemma {:induction false} UnmodifiedBetween(policy: Policy, h: History, c: Chain, k: Key, low: int, high: int)
    requires Inv(policy, h, c) && Covers(c, low) && Covers(c, high) && low <= high
    requires forall g :: low < g <= high ==> g in h.modifications && k !in h.modifications[g]
    ensures Get(StateAt(c, low), k) == Get(StateAt(c, high), k)
    decreases high - low
  {
    if low < high {
      assert Undoes(StateAt(c, high), StateAt(c, high - 1), h.modifications[high]);
      UnmodifiedBetween(policy, h, c, k, low, high - 1);
    }
  }

  /** Below the largest height the time-travel read finds exactly the snapshot of its height. */
  lemma ReadAtBelowMax(policy: Policy, h: History, c: Chain, height: nat, k: Key)
    requires Inv(policy, h, c) && height < U64_MAX && ViewExists(h, height)
    ensures Covers(c, height)
    ensures ReadAt(h, height, k) == Ok(Get(StateAt(c, height), k))
  {
    var from := height + 1;
    assert Covers(c, height);
    assert forall g :: from <= g <= Top(c) ==> g in h.modifications;
    if exists g :: g >= from && (k, g) in h.duplicates {
      var n := Nearest(h, from, k);
      assert n in h.modifications && k in h.modifications[n];
      assert forall g :: height < g <= n - 1 ==> (k, g) !in h.duplicates;
      UnmodifiedBetween(policy, h, c, k, height, n - 1);
      assert Undoes(StateAt(c, n), StateAt(c, n - 1), h.modifications[n]);
    } else {
      assert forall g :: height < g <= Top(c) ==> (k, g) !in h.duplicates;
      UnmodifiedBetween(policy, h, c, k, height, Top(c));
    }
  }

  /** At the largest height "the height after" saturates, and the read stops one block early. */
  lemma ReadAtMax(policy: Policy, h: History, c: Chain, k: Key)
    requires Inv(policy, h, c) && Top(c) <= U64_MAX && ViewExists(h, U64_MAX)
    ensures Covers(c, U64_MAX)
    ensures ReadAt(h, U64_MAX, k) == Ok(Get(StateAt(c, U64_MAX), k)) <==> k !in h.modifications[U64_MAX]
  {
    assert Undoes(StateAt(c, U64_MAX), StateAt(c, U64_MAX - 1), h.modifications[U64_MAX]);
    if exists g :: g >= U64_MAX && (k, g) in h.duplicates {
      assert Nearest(h, U64_MAX, k) == U64_MAX;
    } else {
      assert (k, U64_MAX) !in h.duplicates;
    }
  }

  /**
   The time-travel read refines the snapshots: at every height it admits it finds that state,
   except for the keys the block at the largest height of all has changed.
   */
  lemma ReadAtIsExactIff(policy: Policy, h: History, c: Chain, height: u64, k: Key)
    requires Inv(policy, h, c) && Top(c) <= U64_MAX && ViewExists(h, height)
    ensures Covers(c, height)
    ensures ReadAt(h, height, k) == Ok(Get(StateAt(c, height), k)) <==>
      !(height == U64_MAX && height in h.modifications && k in h.modifications[height])
  {
    if height < U64_MAX {
      hide Inv, ReadAt, ViewExists;
      ReadAtBelowMax(policy, h, c, height, k);
    } else {
      ReadAtMax(policy, h, c, k);
    }
  }

  /** Such a case: the block at the largest height writes a key, and reading at that height does not find it. */
  lemma MaxHeightReadMisses(k: Key, v: Value)
    ensures var h := Commit(RewindFullRange, History(map[], map[], map[]), Some(U64_MAX), map[k := Insert(v)]);
      Get(h.store, k) == Some(v) && ReadAt(h, U64_MAX, k) == Ok(None)
  {
    var empty := History(map[], map[], map[]);
    var h := Commit(RewindFullRange, empty, Some(U64_MAX), map[k := Insert(v)]);
    assert Reverse(map[], map[k := Insert(v)]) == map[k := Remove];
    assert h.modifications == map[U64_MAX := map[k := Remove]];
    assert (k, U64_MAX) in h.duplicates && h.duplicates[(k, U64_MAX)] == Remove;
    assert forall g :: (k, g) in h.duplicates ==> g == U64_MAX;
    hide Commit;
    assert Nearest(h, U64_MAX, k) == U64_MAX;
  }

  /** Under the full-range policy exactly the heights since the first block can be read. */
  lemma FullRangeReadsIff(h: History, c: Chain, height: u64)
    requires Inv(RewindFullRange, h, c) && |c.states| > 1 && Top(c) <= U64_MAX
    ensures ViewExists(h, height) <==> Covers(c, height)
  {}
}
