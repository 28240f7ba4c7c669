/** Rolling several databases back to one height. */
module CombinedDatabases {
  import opened Wrappers
  import opened MachineInts
  import opened HistoricalStore
  import opened HistoryProofs
  import opened DatabaseModel
  import opened Databases
  import Runs = DatabaseRuns

  // ---------------------------------------------------------------------------------------
  // One database
  // ---------------------------------------------------------------------------------------

  function HeightOf(db: Db): Option<nat> { MetadataHeight(db.history.store) }

  /** A height that has to be undone: without metadata below the first block, none below it. */
  ghost predicate Needed(c: Chain, g: nat)
    requires |c.states| > 0
  {
    MetadataHeight(c.states[0]) == None ==> g >= c.first
  }

  /**
   The database can be rolled back to `target`: it is not below it, every block above it can be
   undone, and at the target it has a height again, unless it is `optional` to have one.
   */
  ghost predicate Ready(db: Db, c: Chain, target: nat, optional: bool)
    requires |c.states| > 0
  {
    match HeightOf(db)
    case None => optional
    case Some(h) =>
      && target <= h
      && (forall g :: target < g <= h && Needed(c, g) ==> g in db.history.modifications)
      && (optional || (Covers(c, target) && MetadataHeight(StateAt(c, target)).Some?))
  }

  /** At the target, or optional and without a height. */
  ghost predicate Arrived(db: Db, target: nat, optional: bool) {
    HeightOf(db) == Some(target) || (optional && HeightOf(db) == None)
  }

  /** Some of the blocks of `c0` have been undone, none of those at or below `target`. */
  ghost predicate RolledBack(c0: Chain, c: Chain, target: nat) {
    && c.first == c0.first
    && 0 < |c.states| && c.states <= c0.states
    && (|c.states| < |c0.states| ==> Top(c) >= Min(target, Top(c0)))
  }

  lemma ArrivedIsReady(d: Description, db: Db, c: Chain, target: nat, optional: bool)
    requires DbInv(d, db, c) && Arrived(db, target, optional)
    ensures Ready(db, c, target, optional)
  {
    StoredHeight(d, db, c);
  }

  /** The store is exactly what it was right after the block at `target`. */
  ghost predicate Holds(db: Db, c0: Chain, target: nat) {
    Covers(c0, target) && db.history.store == StateAt(c0, target)
  }

  lemma ArrivedIsExact(d: Description, db: Db, c0: Chain, c: Chain, target: nat)
    requires DbInv(d, db, c) && RolledBack(c0, c, target) && HeightOf(db) == Some(target)
    ensures Holds(db, c0, target)
  {
    StoredHeight(d, db, c);
  }

  /** If the snapshots are those of a run, that is the store which the live commit at `target` left. */
  lemma HoldsIsLive(
      d: Description, start: Db, c: Chain, ops: seq<Runs.Operation>, db: Db, i: nat)
    requires ValidPolicy(d.policy) && DbInv(d, start, c) && |c.states| > 0 && Runs.PlainRun(d, start, ops)
    requires i < |Runs.Live(d, start, Runs.BlocksOf(c), ops)|
    requires Holds(db, Runs.RunChain(d, start, c, ops), Runs.Live(d, start, Runs.BlocksOf(c), ops)[i].height)
    ensures db.history.store == Runs.Live(d, start, Runs.BlocksOf(c), ops)[i].store
  {
    hide DbInv, Runs.PlainRun, Runs.Live, Runs.RunChain;
    Runs.RunIsLive(d, start, c, ops);
  }

  /** Undoing one block above the target changes nothing about whether the target can be reached. */
  lemma RollbackTowards(d: Description, db: Db, c: Chain, target: nat, optional: bool)
    requires DbInv(d, db, c) && HeightOf(db).Some? && HeightOf(db).value > target
    ensures RollbackDb(db).Err? ==> !Ready(db, c, target, optional)
    ensures RollbackDb(db).Ok? ==>
      && |c.states| > 1
      && DbInv(d, RollbackDb(db).value, Popped(c))
      && (HeightOf(RollbackDb(db).value).Some? ==> HeightOf(RollbackDb(db).value).value == HeightOf(db).value - 1)
      && (Ready(db, c, target, optional) <==> Ready(RollbackDb(db).value, Popped(c), target, optional))
  {
    StoredHeight(d, db, c);
    RollbackKeeps(d, db, c);
    var h := HeightOf(db).value;
    if RollbackDb(db).Err? {
      NeededAtTop(d, db, c);
    } else {
      StoreAfterRollback(d, db, c);
      ReadyAfterPop(d, db, RollbackDb(db).value, c, target, optional);
    }
    hide Inv, RollbackDb, Ready;
  }

  lemma NeededAtTop(d: Description, db: Db, c: Chain)
    requires DbInv(d, db, c) && HeightOf(db) == Some(Top(c)) && Top(c) !in db.history.modifications
    ensures Needed(c, Top(c))
  {}

  lemma ReadyAfterPop(d: Description, db: Db, db': Db, c: Chain, target: nat, optional: bool)
    requires DbInv(d, db, c) && |c.states| > 1 && HeightOf(db) == Some(Top(c)) && Top(c) > target
    requires Top(c) in db.history.modifications
    requires db'.history.store == StateAt(c, Top(c) - 1)
    requires db'.history.modifications == db.history.modifications - {Top(c)}
    ensures Ready(db, c, target, optional) <==> Ready(db', Popped(c), target, optional)
    ensures HeightOf(db').Some? ==> HeightOf(db').value == Top(c) - 1
  {
    hide MetadataHeight, Popped, Inv, CacheLinked, HeightsLinked;
    PoppedHeights(c);
    var c' := Popped(c);
    assert forall g :: Needed(c', g) <==> Needed(c, g);
  }

  lemma PoppedHeights(c: Chain)
    requires HeightsLinked(c) && |c.states| > 1
    ensures Top(Popped(c)) == Top(c) - 1 && Popped(c).states[0] == c.states[0] && Popped(c).first == c.first
    ensures forall g :: Covers(c, g) && g < Top(c) ==> Covers(Popped(c), g) && StateAt(Popped(c), g) == StateAt(c, g)
    ensures MetadataHeight(StateAt(c, Top(c) - 1)) == Some(Top(c) - 1) ||
      (|c.states| == 2 && MetadataHeight(c.states[0]) == None)
  {
    hide MetadataHeight;
  }

  lemma PopRollsBack(c0: Chain, c: Chain, target: nat)
    requires RolledBack(c0, c, target) && |c.states| > 1 && Top(c) > target
    ensures RolledBack(c0, Popped(c), target)
  {}

  predicate Above(height: Option<nat>, target: nat) { height.Some? && height.value > target }

  ghost predicate NotAbove(db: Db, target: nat) {
    HeightOf(db).Some? ==> HeightOf(db).value <= target
  }

  ghost predicate NotBelow(db: Db, target: nat) {
    HeightOf(db).Some? ==> HeightOf(db).value >= target
  }

  /** The database does not have to be rolled back, or it can be. */
  ghost predicate SyncReady(db: Db, c: Chain, target: nat)
    requires |c.states| > 0
  {
    NotAbove(db, target) || Ready(db, c, target, true)
  }

  /** A database that came down to the target has been ready for it. */
  lemma CameDownReady(db: Db, c: Chain, target: nat)
    requires |c.states| > 0 && NotBelow(db, target)
    ensures SyncReady(db, c, target) <==> Ready(db, c, target, true)
  {}

  /** How many blocks have to be undone to get to the target, or to no height at all. */
  ghost function Distance(db: Db, c: Chain, target: nat): (n: nat)
    requires |c.states| > 0
  {
    match HeightOf(db)
    case None => 0
    case Some(h) =>
      if h <= target then 0
      else if MetadataHeight(c.states[0]) == None then Max(0, h - Max(target, c.first - 1))
      else h - target
  }

  lemma DistanceIsZeroIff(d: Description, db: Db, c: Chain, target: nat)
    requires DbInv(d, db, c) && |c.states| > 0
    ensures Distance(db, c, target) == 0 <==> NotAbove(db, target)
  {
    StoredHeight(d, db, c);
    hide Inv;
  }

  lemma DistanceStep(d: Description, db: Db, c: Chain, target: nat)
    requires DbInv(d, db, c) && HeightOf(db).Some? && HeightOf(db).value > target
    requires RollbackDb(db).Ok? && |c.states| > 1
    ensures Distance(RollbackDb(db).value, Popped(c), target) == Distance(db, c, target) - 1
  {
    hide Inv, RollbackDb, MetadataHeight, Popped, HeightsLinked, CacheLinked, Covers, StateAt, Distance;
    StoredHeight(d, db, c);
    RollbackKeeps(d, db, c);
    StoreAfterRollback(d, db, c);
    PoppedHeights(c);
    BaseBelow(d, db, c);
    DistancePopped(db, RollbackDb(db).value, c, target);
  }

  lemma BaseBelow(d: Description, db: Db, c: Chain)
    requires DbInv(d, db, c) && |c.states| > 1
    ensures |c.states| == 2 ==> StateAt(c, Top(c) - 1) == c.states[0]
  {}

  lemma DistancePopped(db: Db, db': Db, c: Chain, target: nat)
    requires |c.states| > 1 && HeightOf(db) == Some(Top(c)) && Top(c) > target
    requires Popped(c).states[0] == c.states[0] && Popped(c).first == c.first
    requires || HeightOf(db') == Some(Top(c) - 1)
             || (|c.states| == 2 && MetadataHeight(c.states[0]) == None && HeightOf(db') == None)
    requires |c.states| == 2 ==> HeightOf(db') == MetadataHeight(c.states[0])
    ensures Distance(db', Popped(c), target) == Distance(db, c, target) - 1
  {
    hide MetadataHeight;
  }

  /** A database together with its snapshots. */
  ghost predicate Linked(db: Database, c: Chain)
    reads db, db.data
  {
    DbInv(db.description, db.View(), c) && |c.states| > 0
  }

  /** Undoes one block of a database that is above the target, and does nothing to any other. */
  method RollbackIfAbove(db: Database, height: Option<nat>, target: nat, ghost c0: Chain, ghost c: Chain)
    returns (r: Result<(), DatabaseError>, ghost c': Chain)
    requires Linked(db, c) && RolledBack(c0, c, target) && height == HeightOf(db.View())
    modifies db, db.data
    ensures Linked(db, c') && RolledBack(c0, c', target)
    ensures height.Some? && height.value > target && r.Ok? ==> |c'.states| < |c.states|
    ensures !(height.Some? && height.value > target) ==> r.Ok? && c' == c && db.View() == old(db.View())
    ensures r.Ok? ==> forall o :: Ready(db.View(), c', target, o) <==> Ready(old(db.View()), c, target, o)
    ensures r.Err? ==> forall o :: !Ready(old(db.View()), c, target, o)
    ensures r.Ok? ==> (SyncReady(db.View(), c', target) <==> SyncReady(old(db.View()), c, target))
    ensures r.Err? ==> !SyncReady(old(db.View()), c, target)
    ensures NotBelow(old(db.View()), target) ==> NotBelow(db.View(), target)
    ensures r.Ok? ==> Distance(db.View(), c', target) == Max(0, Distance(old(db.View()), c, target) - 1)
    ensures Above(height, target) ==> Distance(old(db.View()), c, target) > 0
  {
    hide Ready, DbInv, RolledBack, RollbackDb, Distance;
    c' := c;
    r := Ok(());
    DistanceIsZeroIff(db.description, db.View(), c, target);
    if height.Some? && height.value > target {
      RollbackTowards(db.description, db.View(), c, target, true);
      RollbackTowards(db.description, db.View(), c, target, false);
      AboveTarget(db.description, db.View(), c);
      ghost var before := db.View();
      r := db.RollbackLastBlock();
      if r.Ok? {
        DistanceStep(db.description, before, c, target);
        PopRollsBack(c0, c, target);
        c' := Popped(c);
        CameDownReady(db.View(), c', target);
      }
    }
  }

  lemma AboveTarget(d: Description, db: Db, c: Chain)
    requires DbInv(d, db, c) && HeightOf(db).Some?
    ensures HeightOf(db) == Some(Top(c))
  {}

  // ---------------------------------------------------------------------------------------
  // All of them
  // ---------------------------------------------------------------------------------------

  datatype RollbackError =
    | NoHeight
    | HeightTooLow
    | ShutdownRequested
    | Failed(error: DatabaseError)

  /** What the stored heights call for. */
  datatype Decision = Missing | Done | TooLow | Undo

  function Decide(onHeight: Option<nat>, offHeight: Option<nat>, gasHeight: Option<nat>, target: nat)
    : (d: Decision)
  {
    if onHeight.None? || offHeight.None? then Missing
    else if onHeight.value == target && offHeight.value == target
         && (gasHeight.None? || gasHeight.value == target) then Done
    else if onHeight.value < target || offHeight.value < target
         || (gasHeight.Some? && gasHeight.value < target) then TooLow
    else Undo
  }

  /** What asking about a shutdown the n-th time answers. */
  class ShutdownListener {
    const signals: nat -> bool
    var asked: nat

    constructor (signals: nat -> bool)
      ensures this.signals == signals && asked == 0
    {
      this.signals := signals;
      asked := 0;
    }

    method IsCancelled() returns (cancelled: bool)
      modifies this
      ensures asked == old(asked) + 1 && cancelled == signals(old(asked))
    {
      cancelled := signals(asked);
      asked := asked + 1;
    }

    /** Of the questions from `q` on, the one at `n` is the first to be answered with a request. */
    ghost predicate FirstRequest(q: nat, n: nat) {
      q <= n && signals(n) && forall i :: q <= i < n ==> !signals(i)
    }

    /** Among `rounds` questions from `q` on there is a request, and the first is withdrawn right away. */
    ghost predicate Withdrawn(q: nat, rounds: nat) {
      exists n :: q <= n < q + rounds && FirstRequest(q, n) && !signals(n + 1)
    }

    lemma WithdrawnIff(q: nat, n: nat, rounds: nat)
      requires q <= n && forall i :: q <= i < n ==> !signals(i)
      ensures signals(n) ==> (Withdrawn(q, rounds) <==> n < q + rounds && !signals(n + 1))
      ensures !signals(n) && n == q + rounds ==> !Withdrawn(q, rounds)
    {
      if signals(n) {
        assert FirstRequest(q, n);
      }
    }

    /** No shutdown is ever requested. */
    ghost predicate Quiet() { forall i: nat :: !signals(i) }
  }

  class CombinedDatabase {
    const onChain: Database
    const offChain: Database
    const gasPrice: Database

    constructor (onChain: Database, offChain: Database, gasPrice: Database)
      ensures this.onChain == onChain && this.offChain == offChain && this.gasPrice == gasPrice
    {
      this.onChain, this.offChain, this.gasPrice := onChain, offChain, gasPrice;
    }

    ghost predicate Separate() {
      && onChain != offChain && onChain != gasPrice && offChain != gasPrice
      && onChain.data != offChain.data && onChain.data != gasPrice.data && offChain.data != gasPrice.data
    }

    ghost predicate AllLinked(on: Chain, off: Chain, gas: Chain)
      reads onChain, onChain.data, offChain, offChain.data, gasPrice, gasPrice.data
    {
      Linked(onChain, on) && Linked(offChain, off) && Linked(gasPrice, gas)
    }

    /** On- and off-chain can be brought to the target, and gas price there or to no height at all. */
    ghost predicate AllReady(on: Chain, off: Chain, gas: Chain, target: nat)
      requires |on.states| > 0 && |off.states| > 0 && |gas.states| > 0
      reads onChain, onChain.data, offChain, offChain.data, gasPrice, gasPrice.data
    {
      && Ready(onChain.View(), on, target, false)
      && Ready(offChain.View(), off, target, false)
      && Ready(gasPrice.View(), gas, target, true)
    }

    ghost predicate AllArrived(target: nat)
      reads onChain, onChain.data, offChain, offChain.data, gasPrice, gasPrice.data
    {
      && Arrived(onChain.View(), target, false)
      && Arrived(offChain.View(), target, false)
      && Arrived(gasPrice.View(), target, true)
    }

    lemma ArrivedAreReady(on: Chain, off: Chain, gas: Chain, target: nat)
      requires AllLinked(on, off, gas) && AllArrived(target)
      ensures AllReady(on, off, gas, target)
    {
      hide DbInv, Ready, Arrived;
      ArrivedIsReady(onChain.description, onChain.View(), on, target, false);
      ArrivedIsReady(offChain.description, offChain.View(), off, target, false);
      ArrivedIsReady(gasPrice.description, gasPrice.View(), gas, target, true);
    }

    /** How many rounds it takes to bring all of them to the target. */
    ghost function Rounds(on: Chain, off: Chain, gas: Chain, target: nat): (n: nat)
      requires |on.states| > 0 && |off.states| > 0 && |gas.states| > 0
      reads onChain, onChain.data, offChain, offChain.data, gasPrice, gasPrice.data
    {
      Max(Distance(onChain.View(), on, target),
          Max(Distance(offChain.View(), off, target), Distance(gasPrice.View(), gas, target)))
    }

    /** Databases that can be brought to the target are there exactly when no round is left. */
    lemma NoRoundsIff(on: Chain, off: Chain, gas: Chain, target: nat)
      requires AllLinked(on, off, gas)
      ensures AllArrived(target) ==> Rounds(on, off, gas, target) == 0
      ensures AllReady(on, off, gas, target) && Rounds(on, off, gas, target) == 0 ==> AllArrived(target)
    {
      DistanceIsZeroIff(onChain.description, onChain.View(), on, target);
      DistanceIsZeroIff(offChain.description, offChain.View(), off, target);
      DistanceIsZeroIff(gasPrice.description, gasPrice.View(), gas, target);
      hide DbInv, Distance, MetadataHeight;
    }

    ghost predicate NoneBelow(target: nat)
      reads onChain, onChain.data, offChain, offChain.data, gasPrice, gasPrice.data
    {
      NotBelow(onChain.View(), target) && NotBelow(offChain.View(), target) && NotBelow(gasPrice.View(), target)
    }

    /** One round: undoes a block of every database that is above the target. */
    method RollbackRound(
        target: nat, onHeight: Option<nat>, offHeight: Option<nat>, gasHeight: Option<nat>,
        ghost on0: Chain, ghost off0: Chain, ghost gas0: Chain, ghost on: Chain, ghost off: Chain, ghost gas: Chain)
      returns (r: Result<(), RollbackError>, ghost on': Chain, ghost off': Chain, ghost gas': Chain)
      requires Separate() && AllLinked(on, off, gas)
      requires RolledBack(on0, on, target) && RolledBack(off0, off, target) && RolledBack(gas0, gas, target)
      requires onHeight == HeightOf(onChain.View()) && offHeight == HeightOf(offChain.View())
      requires gasHeight == HeightOf(gasPrice.View())
      modifies onChain, onChain.data, offChain, offChain.data, gasPrice, gasPrice.data
      ensures AllLinked(on', off', gas')
      ensures RolledBack(on0, on', target) && RolledBack(off0, off', target) && RolledBack(gas0, gas', target)
      ensures r.Ok? ==> (AllReady(on', off', gas', target) <==> old(AllReady(on, off, gas, target)))
      ensures r.Err? ==> r.error.Failed? && !old(AllReady(on, off, gas, target))
      ensures old(NoneBelow(target)) ==> NoneBelow(target)
      ensures r.Ok? ==> Rounds(on', off', gas', target) == Max(0, old(Rounds(on, off, gas, target)) - 1)
      ensures Above(onHeight, target) || Above(offHeight, target) || Above(gasHeight, target) ==>
        r.Ok? ==> old(Rounds(on, off, gas, target)) > 0
      ensures r.Ok? && (Above(onHeight, target) || Above(offHeight, target) || Above(gasHeight, target)) ==>
        |on'.states| + |off'.states| + |gas'.states| < |on.states| + |off.states| + |gas.states|
    {
      hide DbInv, Ready, RolledBack, HeightOf, Distance, Database.View;
      on', off', gas' := on, off, gas;
      var step, c := RollbackIfAbove(onChain, onHeight, target, on0, on);
      on' := c;
      if step.Err? {
        return Err(Failed(step.error)), on', off', gas';
      }
      step, c := RollbackIfAbove(offChain, offHeight, target, off0, off);
      off' := c;
      if step.Err? {
        return Err(Failed(step.error)), on', off', gas';
      }
      step, c := RollbackIfAbove(gasPrice, gasHeight, target, gas0, gas);
      gas' := c;
      if step.Err? {
        return Err(Failed(step.error)), on', off', gas';
      }
      r := Ok(());
    }

    /** What the stored heights say about reaching the target. */
    lemma HeightsDecide(on: Chain, off: Chain, gas: Chain, target: nat)
      requires AllLinked(on, off, gas)
      ensures var onHeight, offHeight, gasHeight :=
          HeightOf(onChain.View()), HeightOf(offChain.View()), HeightOf(gasPrice.View());
        match Decide(onHeight, offHeight, gasHeight, target)
        case Missing => !AllReady(on, off, gas, target)
        case Done => AllArrived(target) && AllReady(on, off, gas, target)
        case TooLow => !NoneBelow(target) && !AllReady(on, off, gas, target)
        case Undo =>
          && NoneBelow(target)
          && (Above(onHeight, target) || Above(offHeight, target) || Above(gasHeight, target))
    {
      if AllArrived(target) {
        ArrivedAreReady(on, off, gas, target);
      }
      hide DbInv;
    }

    /** Each database that is at the target holds what it held right after that block. */
    ghost predicate AllHold(on0: Chain, off0: Chain, gas0: Chain, target: nat)
      reads onChain, onChain.data, offChain, offChain.data, gasPrice, gasPrice.data
    {
      && (HeightOf(onChain.View()) == Some(target) ==> Holds(onChain.View(), on0, target))
      && (HeightOf(offChain.View()) == Some(target) ==> Holds(offChain.View(), off0, target))
      && (HeightOf(gasPrice.View()) == Some(target) ==> Holds(gasPrice.View(), gas0, target))
    }

    lemma RolledBackHold(
        on0: Chain, off0: Chain, gas0: Chain, on: Chain, off: Chain, gas: Chain, target: nat)
      requires AllLinked(on, off, gas)
      requires RolledBack(on0, on, target) && RolledBack(off0, off, target) && RolledBack(gas0, gas, target)
      ensures AllHold(on0, off0, gas0, target)
    {
      hide DbInv, RolledBack, Holds;
      if HeightOf(onChain.View()) == Some(target) {
        ArrivedIsExact(onChain.description, onChain.View(), on0, on, target);
      }
      if HeightOf(offChain.View()) == Some(target) {
        ArrivedIsExact(offChain.description, offChain.View(), off0, off, target);
      }
      if HeightOf(gasPrice.View()) == Some(target) {
        ArrivedIsExact(gasPrice.description, gasPrice.View(), gas0, gas, target);
      }
    }

    /** Where a rollback from the given snapshots to the target may be. */
    ghost predicate Underway(
        on0: Chain, off0: Chain, gas0: Chain, on: Chain, off: Chain, gas: Chain, target: nat)
      reads onChain, onChain.data, offChain, offChain.data, gasPrice, gasPrice.data
    {
      && AllLinked(on, off, gas)
      && RolledBack(on0, on, target) && RolledBack(off0, off, target) && RolledBack(gas0, gas, target)
    }

    ghost predicate Views(onView: Db, offView: Db, gasView: Db)
      reads onChain, onChain.data, offChain, offChain.data, gasPrice, gasPrice.data
    {
      onChain.View() == onView && offChain.View() == offView && gasPrice.View() == gasView
    }

    /** One turn of the rollback: looks at the heights, and unless they settle it undoes a round of blocks. */
    method RollbackTurn(
        target: nat, ghost on0: Chain, ghost off0: Chain, ghost gas0: Chain,
        ghost on: Chain, ghost off: Chain, ghost gas: Chain)
      returns (done: Result<bool, RollbackError>, ghost on': Chain, ghost off': Chain, ghost gas': Chain)
      requires Separate() && Underway(on0, off0, gas0, on, off, gas, target)
      modifies onChain, onChain.data, offChain, offChain.data, gasPrice, gasPrice.data
      ensures Underway(on0, off0, gas0, on', off', gas', target)
      ensures done == Ok(true) ==>
        AllArrived(target) && old(AllReady(on, off, gas, target)) && old(Rounds(on, off, gas, target)) == 0
      ensures done == Ok(true) || done == Err(HeightTooLow) ==>
        Views(old(onChain.View()), old(offChain.View()), old(gasPrice.View()))
      ensures done == Ok(false) ==>
        && (AllReady(on', off', gas', target) <==> old(AllReady(on, off, gas, target)))
        && NoneBelow(target)
        && Rounds(on', off', gas', target) == old(Rounds(on, off, gas, target)) - 1
        && |on'.states| + |off'.states| + |gas'.states| < |on.states| + |off.states| + |gas.states|
      ensures done.Err? ==> !old(AllReady(on, off, gas, target))
      ensures done == Err(HeightTooLow) ==> !old(NoneBelow(target))
    {
      hide DbInv, Ready, RolledBack, MetadataHeight, Arrived, NotBelow, Decide, Rounds;
      on', off', gas' := on, off, gas;
      NoRoundsIff(on, off, gas, target);
      var onHeight := onChain.LatestHeightFromMetadata();
      var offHeight := offChain.LatestHeightFromMetadata();
      var gasHeight := gasPrice.LatestHeightFromMetadata();
      HeightsDecide(on, off, gas, target);
      match Decide(onHeight, offHeight, gasHeight, target) {
        case Missing =>
          done := Err(NoHeight);
        case Done =>
          done := Ok(true);
        case TooLow =>
          done := Err(HeightTooLow);
        case Undo =>
          var step, c1, c2, c3 := RollbackRound(
            target, onHeight, offHeight, gasHeight, on0, off0, gas0, on, off, gas);
          on', off', gas' := c1, c2, c3;
          done := if step.Ok? then Ok(false) else Err(step.error);
      }
    }

    /** Takes turns until the databases have arrived, a turn fails, or a shutdown is requested. */
    method RollbackLoop(
        target: nat, listener: ShutdownListener, ghost on0: Chain, ghost off0: Chain, ghost gas0: Chain)
      returns (r: Result<(), RollbackError>, ghost on: Chain, ghost off: Chain, ghost gas: Chain)
      requires Separate() && AllLinked(on0, off0, gas0)
      requires |on0.states| > 0 && |off0.states| > 0 && |gas0.states| > 0
      modifies listener, onChain, onChain.data, offChain, offChain.data, gasPrice, gasPrice.data
      ensures Underway(on0, off0, gas0, on, off, gas, target) && AllHold(on0, off0, gas0, target)
      ensures listener.asked > old(listener.asked)
      ensures forall i :: old(listener.asked) <= i < listener.asked - 1 ==> !listener.signals(i)
      ensures r.Ok? ==> AllArrived(target) || listener.signals(listener.asked - 1)
      ensures r.Ok? && !listener.signals(listener.asked - 1) ==> old(AllReady(on0, off0, gas0, target))
      ensures r.Err? ==> !old(AllReady(on0, off0, gas0, target)) && !listener.signals(listener.asked - 1)
      ensures old(AllReady(on0, off0, gas0, target)) ==>
        var rounds := old(Rounds(on0, off0, gas0, target));
        && listener.asked - 1 <= old(listener.asked) + rounds
        && (AllArrived(target) <==> listener.asked - 1 == old(listener.asked) + rounds)
      ensures r == Err(HeightTooLow) || (listener.asked == old(listener.asked) + 1 && r.Ok?) ==>
        Views(old(onChain.View()), old(offChain.View()), old(gasPrice.View()))
    {
      hide AllLinked, AllArrived, AllReady, NoneBelow, Underway, AllHold, Linked, MetadataHeight, Database.View, Rounds;
      StartUnderway(on0, off0, gas0, target);
      on, off, gas := on0, off0, gas0;
      ghost var reachable, rounds := AllReady(on0, off0, gas0, target), Rounds(on0, off0, gas0, target);
      ghost var q := listener.asked;
      var cancelled := listener.IsCancelled();
      while !cancelled
        invariant Underway(on0, off0, gas0, on, off, gas, target)
        invariant |on.states| > 0 && |off.states| > 0 && |gas.states| > 0
        invariant AllReady(on, off, gas, target) == reachable
        invariant NoneBelow(target) || Views(old(onChain.View()), old(offChain.View()), old(gasPrice.View()))
        invariant listener.asked > q && cancelled == listener.signals(listener.asked - 1)
        invariant forall i :: q <= i < listener.asked - 1 ==> !listener.signals(i)
        invariant reachable ==> Rounds(on, off, gas, target) + listener.asked - 1 - q == rounds
        invariant listener.asked == q + 1 ==> Views(old(onChain.View()), old(offChain.View()), old(gasPrice.View()))
        decreases |on.states| + |off.states| + |gas.states|
      {
        var done, c1, c2, c3 := RollbackTurn(target, on0, off0, gas0, on, off, gas);
        on, off, gas := c1, c2, c3;
        HoldUnderway(on0, off0, gas0, on, off, gas, target);
        if done.Err? {
          return Err(done.error), on, off, gas;
        }
        if done.value {
          break;
        }
        cancelled := listener.IsCancelled();
      }
      HoldUnderway(on0, off0, gas0, on, off, gas, target);
      r := Ok(());
    }

    /**
     Rolls all databases back to `target`. Uninterrupted, it succeeds exactly when every
     database can be brought there; it never undoes a block at or below the target, and a
     database at the target holds exactly what it held there. The one success that stops short
     of the target is a shutdown that is requested at one question and withdrawn at the next;
     with databases that can be brought there, this happens exactly when the first request comes
     before the last round and is withdrawn.
     */
    method RollbackTo(target: nat, listener: ShutdownListener, ghost on0: Chain, ghost off0: Chain, ghost gas0: Chain)
      returns (r: Result<(), RollbackError>, ghost on: Chain, ghost off: Chain, ghost gas: Chain)
      requires Separate() && AllLinked(on0, off0, gas0)
      modifies listener, onChain, onChain.data, offChain, offChain.data, gasPrice, gasPrice.data
      ensures Underway(on0, off0, gas0, on, off, gas, target) && AllHold(on0, off0, gas0, target)
      ensures r.Ok? ==>
        || AllArrived(target)
        || (listener.asked >= 2 && listener.signals(listener.asked - 2) && !listener.signals(listener.asked - 1))
      ensures listener.Quiet() ==> (r.Ok? <==> old(AllReady(on0, off0, gas0, target)))
      ensures old(AllReady(on0, off0, gas0, target)) ==>
        var q, rounds := old(listener.asked), old(Rounds(on0, off0, gas0, target));
        r.Ok? && !AllArrived(target) <==> listener.Withdrawn(q, rounds)
      ensures r == Err(HeightTooLow) || listener.signals(old(listener.asked)) ==>
        Views(old(onChain.View()), old(offChain.View()), old(gasPrice.View()))
      ensures listener.signals(old(listener.asked)) ==>
        (r.Ok? <==> !listener.signals(old(listener.asked) + 1))
    {
      hide AllLinked, AllArrived, AllReady, Underway, AllHold, Linked, Views, Rounds, Database.View,
        ShutdownListener.Withdrawn;
      StartUnderway(on0, off0, gas0, target);
      ghost var q, rounds := listener.asked, Rounds(on0, off0, gas0, target);
      r, on, off, gas := RollbackLoop(target, listener, on0, off0, gas0);
      listener.WithdrawnIff(q, listener.asked - 1, rounds);
      if r.Ok? {
        var cancelled := listener.IsCancelled();
        if cancelled {
          r := Err(ShutdownRequested);
        }
      }
    }

    lemma StartUnderway(on: Chain, off: Chain, gas: Chain, target: nat)
      requires AllLinked(on, off, gas)
      ensures Underway(on, off, gas, on, off, gas, target)
      ensures |on.states| > 0 && |off.states| > 0 && |gas.states| > 0
    {}

    lemma HoldUnderway(on0: Chain, off0: Chain, gas0: Chain, on: Chain, off: Chain, gas: Chain, target: nat)
      requires Underway(on0, off0, gas0, on, off, gas, target)
      ensures AllHold(on0, off0, gas0, target)
      ensures |on.states| > 0 && |off.states| > 0 && |gas.states| > 0
      ensures AllReady(on, off, gas, target) ==> (AllArrived(target) <==> Rounds(on, off, gas, target) == 0)
    {
      hide DbInv, Holds, Ready, Distance, MetadataHeight;
      RolledBackHold(on0, off0, gas0, on, off, gas, target);
      NoRoundsIff(on, off, gas, target);
    }

    /** The auxiliary databases, on the way from the given snapshots down to the target. */
    ghost predicate AuxUnderway(off0: Chain, gas0: Chain, off: Chain, gas: Chain, target: nat)
      reads offChain, offChain.data, gasPrice, gasPrice.data
    {
      && Linked(offChain, off) && Linked(gasPrice, gas)
      && RolledBack(off0, off, target) && RolledBack(gas0, gas, target)
    }

    /** Each auxiliary database that is above the target can be rolled back to it. */
    ghost predicate AuxReady(off: Chain, gas: Chain, target: nat)
      requires |off.states| > 0 && |gas.states| > 0
      reads offChain, offChain.data, gasPrice, gasPrice.data
    {
      SyncReady(offChain.View(), off, target) && SyncReady(gasPrice.View(), gas, target)
    }

    ghost predicate AuxNotAbove(target: nat)
      reads offChain, offChain.data, gasPrice, gasPrice.data
    {
      NotAbove(offChain.View(), target) && NotAbove(gasPrice.View(), target)
    }

    /** Each auxiliary database at the target holds what it held right after that block. */
    ghost predicate AuxHold(off0: Chain, gas0: Chain, target: nat)
      reads offChain, offChain.data, gasPrice, gasPrice.data
    {
      && (HeightOf(offChain.View()) == Some(target) ==> Holds(offChain.View(), off0, target))
      && (HeightOf(gasPrice.View()) == Some(target) ==> Holds(gasPrice.View(), gas0, target))
    }

    lemma AuxUnderwayHold(off0: Chain, gas0: Chain, off: Chain, gas: Chain, target: nat)
      requires AuxUnderway(off0, gas0, off, gas, target)
      ensures AuxHold(off0, gas0, target)
      ensures Linked(offChain, off) && Linked(gasPrice, gas) && |off.states| > 0 && |gas.states| > 0
    {
      hide DbInv, RolledBack, Holds;
      if HeightOf(offChain.View()) == Some(target) {
        ArrivedIsExact(offChain.description, offChain.View(), off0, off, target);
      }
      if HeightOf(gasPrice.View()) == Some(target) {
        ArrivedIsExact(gasPrice.description, gasPrice.View(), gas0, gas, target);
      }
    }

    lemma AuxStart(off: Chain, gas: Chain, target: nat)
      requires Linked(offChain, off) && Linked(gasPrice, gas)
      ensures AuxUnderway(off, gas, off, gas, target)
    {
      RolledBackStart(off, target);
      RolledBackStart(gas, target);
    }

    /** One turn: undoes a block of each auxiliary database that is above the on-chain height. */
    method SyncTurn(target: nat, ghost off0: Chain, ghost gas0: Chain, ghost off: Chain, ghost gas: Chain)
      returns (done: Result<bool, RollbackError>, ghost off': Chain, ghost gas': Chain)
      requires Separate() && AuxUnderway(off0, gas0, off, gas, target) && |off.states| > 0 && |gas.states| > 0
      modifies offChain, offChain.data, gasPrice, gasPrice.data
      ensures AuxUnderway(off0, gas0, off', gas', target) && |off'.states| > 0 && |gas'.states| > 0
      ensures done == Ok(true) ==> AuxNotAbove(target)
      ensures done.Ok? ==> (AuxReady(off', gas', target) <==> old(AuxReady(off, gas, target)))
      ensures done.Err? ==> !old(AuxReady(off, gas, target))
      ensures done == Ok(false) ==> |off'.states| + |gas'.states| < |off.states| + |gas.states|
    {
      hide DbInv, Ready, RolledBack, MetadataHeight, SyncReady;
      off', gas' := off, gas;
      var offHeight := offChain.LatestHeightFromMetadata();
      var gasHeight := gasPrice.LatestHeightFromMetadata();
      var step, c := RollbackIfAbove(offChain, offHeight, target, off0, off);
      off' := c;
      if step.Err? {
        return Err(Failed(step.error)), off', gas';
      }
      step, c := RollbackIfAbove(gasPrice, gasHeight, target, gas0, gas);
      gas' := c;
      if step.Err? {
        return Err(Failed(step.error)), off', gas';
      }
      done := Ok(!Above(offHeight, target) && !Above(gasHeight, target));
    }

    lemma NotAboveAreReady(off: Chain, gas: Chain, target: nat)
      requires |off.states| > 0 && |gas.states| > 0 && AuxNotAbove(target)
      ensures AuxReady(off, gas, target)
    {
      hide Ready;
    }

    /**
     Brings the off-chain and gas price databases down to the on-chain height, and never touches
     the on-chain database. Uninterrupted, it succeeds exactly when each of the two that is above
     that height can be rolled back to it, and then neither is above it.
     */
    method SyncAuxDbHeights(listener: ShutdownListener, ghost off0: Chain, ghost gas0: Chain)
      returns (r: Result<(), RollbackError>, ghost off: Chain, ghost gas: Chain)
      requires Separate() && Linked(offChain, off0) && Linked(gasPrice, gas0)
      modifies listener, offChain, offChain.data, gasPrice, gasPrice.data
      ensures HeightOf(onChain.View()) == None ==>
        && r.Ok? && off == off0 && gas == gas0
        && offChain.View() == old(offChain.View()) && gasPrice.View() == old(gasPrice.View())
      ensures HeightOf(onChain.View()).Some? ==>
        var h := HeightOf(onChain.View()).value;
        && AuxUnderway(off0, gas0, off, gas, h) && AuxHold(off0, gas0, h)
        && (listener.Quiet() && r.Ok? ==> AuxNotAbove(h))
        && (listener.Quiet() ==> (r.Ok? <==> old(AuxReady(off0, gas0, h))))
    {
      hide Linked, MetadataHeight, Database.View, AuxUnderway, AuxReady, AuxNotAbove, AuxHold;
      off, gas := off0, gas0;
      ghost var start := HeightOf(onChain.View());
      ghost var target := if start.Some? then start.value else 0;
      AuxStart(off0, gas0, target);
      AuxUnderwayHold(off0, gas0, off, gas, target);
      ghost var reachable := AuxReady(off0, gas0, target);
      var cancelled := listener.IsCancelled();
      while !cancelled
        invariant AuxUnderway(off0, gas0, off, gas, target) && |off.states| > 0 && |gas.states| > 0
        invariant AuxReady(off, gas, target) == reachable
        invariant start == None ==>
          && off == off0 && gas == gas0
          && offChain.View() == old(offChain.View()) && gasPrice.View() == old(gasPrice.View())
        invariant listener.Quiet() ==> !cancelled
        decreases |off.states| + |gas.states|
      {
        var onHeight := onChain.LatestHeightFromMetadata();
        if onHeight.None? {
          break;
        }
        var done, c1, c2 := SyncTurn(onHeight.value, off0, gas0, off, gas);
        off, gas := c1, c2;
        AuxUnderwayHold(off0, gas0, off, gas, target);
        if done.Err? {
          return Err(done.error), off, gas;
        }
        if done.value {
          NotAboveAreReady(off, gas, target);
          break;
        }
        cancelled := listener.IsCancelled();
      }
      AuxUnderwayHold(off0, gas0, off, gas, target);
      r := Ok(());
    }
  }

  lemma RolledBackStart(c: Chain, target: nat)
    requires |c.states| > 0
    ensures RolledBack(c, c, target)
  {}

  /** A store that just has a height is the base of a chain. */
  lemma BareIsLinked(d: Description, store: Store, height: nat)
    requires MetadataHeight(store) == Some(height)
    ensures DbInv(d, OpenDb(History(store, map[], map[])), Chain(height + 1, [store]))
  {}

  /** A shutdown requested at the first question and withdrawn at the second: success, and nothing done. */
  method WithdrawnShutdown() returns (r: Result<(), RollbackError>, height: Option<nat>)
    ensures r.Ok? && height == Some(5)
  {
    var target := 3;
    var d := Description(RewindFullRange, 0xFFFF_FFFF, 0, {});
    var stored: Store := map[MetadataKey := MetadataValue(V1(0, 5))];
    assert MetadataHeight(stored) == Some(5);
    BareIsLinked(d, stored, 5);
    hide DbInv, MetadataHeight, RolledBack, Ready;
    var history := History(stored, map[], map[]);
    var onData := new HistoricalRocksDB(RewindFullRange, history);
    var offData := new HistoricalRocksDB(RewindFullRange, history);
    var gasData := new HistoricalRocksDB(RewindFullRange, history);
    var onChain := new Database(d, onData);
    var offChain := new Database(d, offData);
    var gasPrice := new Database(d, gasData);
    var all := new CombinedDatabase(onChain, offChain, gasPrice);
    var listener := new ShutdownListener((n: nat) => n == 0);
    ghost var c := Chain(6, [stored]);
    var result, _, _, _ := all.RollbackTo(target, listener, c, c, c);
    height := onChain.LatestHeightFromMetadata();
    r := result;
  }
}
