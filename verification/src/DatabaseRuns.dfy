/** What every sequential run of commits and rollbacks keeps. */
module DatabaseRuns {
  import opened Wrappers
  import opened MachineInts
  import opened HistoricalStore
  import opened HistoryProofs
  import opened DatabaseModel

  datatype Operation =
    | CommitBlock(heights: seq<nat>, changes: Changes)
    | RollbackBlock
    | Reopen

  /** The database after an operation; a rejected operation changes nothing. */
  function After(d: Description, db: Db, op: Operation): (r: Db) {
    var attempt := match op
      case CommitBlock(heights, changes) => CommitDb(d, db, heights, changes)
      case RollbackBlock => RollbackDb(db)
      case Reopen => Ok(OpenDb(db.history));
    if attempt.Ok? then attempt.value else db
  }

  function Run(d: Description, db: Db, ops: seq<Operation>): (r: Db)
    decreases |ops|
  {
    if ops == [] then db else After(d, Run(d, db, ops[..|ops| - 1]), ops[|ops| - 1])
  }

  // ---------------------------------------------------------------------------------------
  // When the cache follows the metadata
  // ---------------------------------------------------------------------------------------

  /** Not a commit without a height that sets one in the metadata itself. */
  predicate Plain(db: Db, op: Operation) {
    op.CommitBlock? && op.heights == [] && db.cached.None? ==> !WritesMetadata(op.changes)
  }

  /** Plain, and a rollback does not take the first committed height with it, unless that is zero. */
  predicate Safe(db: Db, op: Operation) {
    && Plain(db, op)
    && (op.RollbackBlock? && db.cached.Some? && db.cached.value in db.history.modifications ==>
        RestoresMetadata(db) || db.cached == Some(0))
  }

  ghost predicate PlainRun(d: Description, db: Db, ops: seq<Operation>) {
    forall i :: 0 <= i < |ops| ==> Plain(Run(d, db, ops[..i]), ops[i])
  }

  ghost predicate SafeRun(d: Description, db: Db, ops: seq<Operation>) {
    forall i :: 0 <= i < |ops| ==> Safe(Run(d, db, ops[..i]), ops[i])
  }

  /** The cache agrees with the metadata at every point of the run. */
  ghost predicate ConsistentRun(d: Description, db: Db, ops: seq<Operation>) {
    forall i :: 0 <= i <= |ops| ==> Consistent(Run(d, db, ops[..i]))
  }

  /** The snapshots after an operation: an accepted commit pushes one, a rollback pops one. */
  ghost function ChainAfter(d: Description, db: Db, c: Chain, op: Operation): (r: Chain)
    requires |c.states| > 0
  {
    match op
    case CommitBlock(heights, changes) =>
      if CommitDb(d, db, heights, changes).Ok? then
        Extended(c, db.cached, heights, After(d, db, op).history.store)
      else c
    case RollbackBlock => if RollbackDb(db).Ok? && |c.states| > 1 then Popped(c) else c
    case Reopen => c
  }

  ghost function RunChain(d: Description, db: Db, c: Chain, ops: seq<Operation>): (r: Chain)
    requires |c.states| > 0
    ensures |r.states| > 0
    decreases |ops|
  {
    if ops == [] then c
    else
      var front := ops[..|ops| - 1];
      ChainAfter(d, Run(d, db, front), RunChain(d, db, c, front), ops[|ops| - 1])
  }

  lemma DbHasStates(d: Description, db: Db, c: Chain)
    requires DbInv(d, db, c)
    ensures |c.states| > 0 && db.history.store == c.states[|c.states| - 1]
  {}

  /** One operation keeps cache and metadata equal exactly when it is safe, and moves the snapshots if plain. */
  lemma StepKeepsIff(d: Description, db: Db, c: Chain, op: Operation)
    requires ValidPolicy(d.policy) && DbInv(d, db, c) && |c.states| > 0
    ensures Plain(db, op) ==> DbInv(d, After(d, db, op), ChainAfter(d, db, c, op))
    ensures Consistent(db) ==> (Consistent(After(d, db, op)) <==> Safe(db, op))
  {
    if op.Reopen? {
      ReopenKeeps(d, db, c);
    }
    hide DbInv, Consistent, RollbackDb, RestoresMetadata, WritesMetadata, Commit, WithMetadata, Extended, OpenDb;
    match op
    case CommitBlock(heights, changes) =>
      if CommitDb(d, db, heights, changes).Ok? {
        CommitKeepsIff(d, db, c, heights, changes);
      }
    case RollbackBlock =>
      RollbackKeeps(d, db, c);
      if RollbackDb(db).Ok? {
        RollbackConsistentIff(d, db, c);
      }
    case Reopen =>
  }

  /** Opening the store again keeps the blocks, and makes cache and metadata equal whatever they were. */
  lemma ReopenKeeps(d: Description, db: Db, c: Chain)
    requires DbInv(d, db, c)
    ensures DbInv(d, OpenDb(db.history), c) && Consistent(OpenDb(db.history))
  {}

  lemma PlainFront(d: Description, db: Db, ops: seq<Operation>)
    requires PlainRun(d, db, ops) && ops != []
    ensures PlainRun(d, db, ops[..|ops| - 1]) && Plain(Run(d, db, ops[..|ops| - 1]), ops[|ops| - 1])
  {
    hide Plain, Run;
    var front := ops[..|ops| - 1];
    assert forall i :: 0 <= i < |front| ==> front[..i] == ops[..i] && front[i] == ops[i];
  }

  /** Over every plain run the database refines the snapshots that the run pushed and popped. */
  lemma {:induction false} RunRefines(d: Description, db: Db, c: Chain, ops: seq<Operation>)
    requires ValidPolicy(d.policy) && DbInv(d, db, c) && |c.states| > 0 && PlainRun(d, db, ops)
    ensures DbInv(d, Run(d, db, ops), RunChain(d, db, c, ops))
    decreases |ops|
  {
    hide DbInv, After, ChainAfter, PlainRun, Plain;
    if ops != [] {
      var front := ops[..|ops| - 1];
      PlainFront(d, db, ops);
      RunRefines(d, db, c, front);
      StepKeepsIff(d, Run(d, db, front), RunChain(d, db, c, front), ops[|ops| - 1]);
    }
  }

  lemma SafeIsPlain(d: Description, db: Db, ops: seq<Operation>)
    requires SafeRun(d, db, ops)
    ensures PlainRun(d, db, ops)
  {
    hide Plain, Run;
  }

  lemma RunPrefix(d: Description, db: Db, ops: seq<Operation>, i: nat)
    requires i < |ops|
    ensures Run(d, db, ops[..i + 1]) == After(d, Run(d, db, ops[..i]), ops[i])
  {
    assert ops[..i + 1][..i] == ops[..i];
  }

  /** From a point where the run has been consistent so far, one more operation. */
  lemma {:induction false} ConsistentUpTo(d: Description, db: Db, c: Chain, ops: seq<Operation>, n: nat)
    requires ValidPolicy(d.policy) && DbInv(d, db, c) && |c.states| > 0 && Consistent(db) && n <= |ops|
    ensures ConsistentRun(d, db, ops[..n]) <==> SafeRun(d, db, ops[..n])
    decreases n
  {
    hide DbInv, Consistent, After, ChainAfter, Safe, Plain, Run;
    if n == 0 {
      assert Run(d, db, ops[..0]) == db by { assert ops[..0] == []; RunNothing(d, db); }
      assert ops[..0][..0] == ops[..0];
    } else {
      var front, all := ops[..n - 1], ops[..n];
      ConsistentUpTo(d, db, c, ops, n - 1);
      assert forall i :: 0 <= i < n ==> all[..i] == front[..i] && all[i] == ops[i];
      assert forall i :: 0 <= i < n - 1 ==> front[i] == ops[i];
      assert all[..n - 1] == front == front[..n - 1] && all[..n] == all;
      RunPrefix(d, db, ops, n - 1);
      if SafeRun(d, db, front) {
        assert Consistent(Run(d, db, front[..n - 1]));
        SafeIsPlain(d, db, front);
        RunRefines(d, db, c, front);
        StepKeepsIff(d, Run(d, db, front), RunChain(d, db, c, front), ops[n - 1]);
      }
      SplitLast(d, db, all);
    }
  }

  lemma RunNothing(d: Description, db: Db)
    ensures Run(d, db, []) == db
  {}

  lemma SplitLast(d: Description, db: Db, all: seq<Operation>)
    requires all != []
    ensures var front := all[..|all| - 1];
      && (ConsistentRun(d, db, all) <==> ConsistentRun(d, db, front) && Consistent(Run(d, db, all)))
      && (SafeRun(d, db, all) <==> SafeRun(d, db, front) && Safe(Run(d, db, front), all[|all| - 1]))
  {
    hide Consistent, Safe, Run;
    var front := all[..|all| - 1];
    assert forall i :: 0 <= i < |all| ==> all[..i] == front[..i];
    assert forall i :: 0 <= i < |front| ==> all[i] == front[i];
    assert all[..|all|] == all && front[..|front|] == front;
  }

  /**
   Over every run of commits and rollbacks the cached height equals the stored one throughout,
   exactly when no commit without a height sets one and no rollback removes the first height.
   */
  lemma RunConsistentIff(d: Description, db: Db, c: Chain, ops: seq<Operation>)
    requires ValidPolicy(d.policy) && DbInv(d, db, c) && Consistent(db)
    ensures ConsistentRun(d, db, ops) <==> SafeRun(d, db, ops)
  {
    DbHasStates(d, db, c);
    ConsistentUpTo(d, db, c, ops, |ops|);
    assert ops[..|ops|] == ops;
  }

  // ---------------------------------------------------------------------------------------
  // Live commits
  // ---------------------------------------------------------------------------------------

  /** A committed block that was not rolled back: its height and the store right after it. */
  datatype Committed = Committed(height: nat, store: Store)

  function LiveAfter(d: Description, db: Db, live: seq<Committed>, op: Operation): (r: seq<Committed>) {
    match op
    case CommitBlock(heights, changes) =>
      if CommitDb(d, db, heights, changes).Ok? && heights != []
      then live + [Committed(heights[0], After(d, db, op).history.store)]
      else live
    case RollbackBlock => if RollbackDb(db).Ok? && live != [] then live[..|live| - 1] else live
    case Reopen => live
  }

  /** The live commits of a run, oldest first, on top of those there were before. */
  function Live(d: Description, db: Db, live: seq<Committed>, ops: seq<Operation>): (r: seq<Committed>)
    decreases |ops|
  {
    if ops == [] then live
    else
      var front := ops[..|ops| - 1];
      LiveAfter(d, Run(d, db, front), Live(d, db, live, front), ops[|ops| - 1])
  }

  function BlocksOf(c: Chain): (r: seq<Committed>)
    requires |c.states| > 0
  {
    seq(|c.states| - 1, i requires 0 <= i < |c.states| - 1 => Committed(c.first + i, c.states[i + 1]))
  }

  lemma StepIsLive(d: Description, db: Db, c: Chain, op: Operation)
    requires ValidPolicy(d.policy) && DbInv(d, db, c) && |c.states| > 0 && Plain(db, op)
    ensures LiveAfter(d, db, BlocksOf(c), op) == BlocksOf(ChainAfter(d, db, c, op))
  {
    CacheFacts(d, db, c);
    hide DbInv, RollbackDb, Commit, WithMetadata, Plain;
    match op
    case CommitBlock(heights, changes) =>
      if CommitDb(d, db, heights, changes).Ok? {
        assert heights != [] ==> heights[0] == if db.cached.None? then heights[0] else Top(c) + 1;
      }
    case RollbackBlock =>
      RollbackKeeps(d, db, c);
    case Reopen =>
  }

  lemma CacheFacts(d: Description, db: Db, c: Chain)
    requires DbInv(d, db, c)
    ensures db.cached.None? ==> |c.states| == 1
    ensures db.cached.Some? ==> db.cached.value == Top(c)
  {}

  /** The snapshots of a run are exactly the stores right after its live commits. */
  lemma {:induction false} RunIsLive(d: Description, db: Db, c: Chain, ops: seq<Operation>)
    requires ValidPolicy(d.policy) && DbInv(d, db, c) && |c.states| > 0 && PlainRun(d, db, ops)
    ensures Live(d, db, BlocksOf(c), ops) == BlocksOf(RunChain(d, db, c, ops))
    decreases |ops|
  {
    hide DbInv, After, ChainAfter, LiveAfter, BlocksOf, PlainRun, Plain;
    if ops != [] {
      var front := ops[..|ops| - 1];
      PlainFront(d, db, ops);
      RunRefines(d, db, c, front);
      RunIsLive(d, db, c, front);
      StepIsLive(d, Run(d, db, front), RunChain(d, db, c, front), ops[|ops| - 1]);
    }
  }

  /**
   The live commits of every run have consecutive heights, the last of them is the cached
   height, and the store is what that commit left.
   */
  lemma LiveHeights(d: Description, db: Db, c: Chain, ops: seq<Operation>)
    requires ValidPolicy(d.policy) && DbInv(d, db, c) && |c.states| > 0 && PlainRun(d, db, ops)
    ensures var live, db' := Live(d, db, BlocksOf(c), ops), Run(d, db, ops);
      && (forall i :: 0 <= i < |live| ==> live[i].height == live[0].height + i)
      && (live != [] ==>
        && db'.cached == Some(live[|live| - 1].height)
        && db'.history.store == live[|live| - 1].store)
  {
    hide *;
    RunRefines(d, db, c, ops);
    RunIsLive(d, db, c, ops);
    BlocksLinked(d, Run(d, db, ops), RunChain(d, db, c, ops));
  }

  lemma BlocksLinked(d: Description, db: Db, c: Chain)
    requires DbInv(d, db, c) && |c.states| > 0
    ensures forall i :: 0 <= i < |BlocksOf(c)| ==> BlocksOf(c)[i].height == BlocksOf(c)[0].height + i
    ensures BlocksOf(c) != [] ==>
      && db.cached == Some(BlocksOf(c)[|BlocksOf(c)| - 1].height)
      && db.history.store == BlocksOf(c)[|BlocksOf(c)| - 1].store
  {
    DbHasStates(d, db, c);
    if |c.states| > 1 {
      CachedWithBlocks(d, db, c);
    }
    hide DbInv;
  }

  lemma CachedWithBlocks(d: Description, db: Db, c: Chain)
    requires DbInv(d, db, c) && |c.states| > 1
    ensures db.cached == Some(Top(c))
  {}

  /**
   After every run, reading at the height of a live commit finds the store exactly as that commit
   left it, if it is the last one or there is history for it or the next, and nothing otherwise.
   */
  lemma LiveReads(d: Description, db: Db, c: Chain, ops: seq<Operation>, i: nat, k: Key)
    requires ValidPolicy(d.policy) && DbInv(d, db, c) && |c.states| > 0 && PlainRun(d, db, ops)
    requires var live := Live(d, db, BlocksOf(c), ops);
      i < |live| && live[|live| - 1].height <= U64_MAX
    ensures var live, db' := Live(d, db, BlocksOf(c), ops), Run(d, db, ops);
      var mods, h := db'.history.modifications, live[i].height;
      ViewAt(db', h, k) ==
        if i == |live| - 1 || h in mods || h + 1 in mods then Ok(Get(live[i].store, k))
        else Err(NoHistoryForRequestedHeight)
  {
    hide *;
    RunRefines(d, db, c, ops);
    RunIsLive(d, db, c, ops);
    BlockReads(d, Run(d, db, ops), RunChain(d, db, c, ops), i, k);
  }

  lemma BlockReads(d: Description, db: Db, c: Chain, i: nat, k: Key)
    requires DbInv(d, db, c) && |c.states| > 0 && i < |BlocksOf(c)|
    requires BlocksOf(c)[|BlocksOf(c)| - 1].height <= U64_MAX
    ensures var blocks, mods := BlocksOf(c), db.history.modifications;
      ViewAt(db, blocks[i].height, k) ==
        if i == |blocks| - 1 || blocks[i].height in mods || blocks[i].height + 1 in mods
        then Ok(Get(blocks[i].store, k))
        else Err(NoHistoryForRequestedHeight)
  {
    hide Inv, HeightsLinked, CacheLinked, ReadFrom;
    BlocksLinked(d, db, c);
    if i < |BlocksOf(c)| - 1 && ViewExists(db.history, BlocksOf(c)[i].height) {
      ReadAtBelowMax(d.policy, db.history, c, BlocksOf(c)[i].height, k);
    }
  }

  /**
   Any other height is refused, except the one right below the live commits while the first of
   them can be undone: that reads the store they started from.
   */
  lemma OtherReads(d: Description, db: Db, c: Chain, ops: seq<Operation>, height: u64, k: Key)
    requires ValidPolicy(d.policy) && DbInv(d, db, c) && |c.states| > 0 && PlainRun(d, db, ops)
    requires var live := Live(d, db, BlocksOf(c), ops);
      live != [] && live[|live| - 1].height <= U64_MAX && !(live[0].height <= height <= live[|live| - 1].height)
    ensures var live, db' := Live(d, db, BlocksOf(c), ops), Run(d, db, ops);
      ViewAt(db', height, k) ==
        if height + 1 == live[0].height && live[0].height in db'.history.modifications
        then Ok(Get(RunChain(d, db, c, ops).states[0], k))
        else Err(NoHistoryForRequestedHeight)
  {
    hide *;
    RunRefines(d, db, c, ops);
    RunIsLive(d, db, c, ops);
    BlocksRange(RunChain(d, db, c, ops));
    OutsideReads(d, Run(d, db, ops), RunChain(d, db, c, ops), height, k);
  }

  lemma OutsideReads(d: Description, db: Db, c: Chain, height: u64, k: Key)
    requires DbInv(d, db, c) && |c.states| > 1 && Top(c) <= U64_MAX && !(c.first <= height <= Top(c))
    ensures ViewAt(db, height, k) ==
      if height + 1 == c.first && c.first in db.history.modifications then Ok(Get(c.states[0], k))
      else Err(NoHistoryForRequestedHeight)
  {
    CachedWithBlocks(d, db, c);
    ModificationsWithin(d.policy, db.history, c);
    hide Inv, HeightsLinked, CacheLinked, ReadFrom;
    if height + 1 == c.first && c.first in db.history.modifications {
      ReadAtBelowMax(d.policy, db.history, c, height, k);
    }
  }

  lemma BlocksRange(c: Chain)
    requires |c.states| > 0
    ensures |BlocksOf(c)| == |c.states| - 1
    ensures BlocksOf(c) != [] ==>
      BlocksOf(c)[0].height == c.first && BlocksOf(c)[|BlocksOf(c)| - 1].height == Top(c)
  {}

  lemma ModificationsWithin(policy: Policy, h: History, c: Chain)
    requires Inv(policy, h, c)
    ensures forall g :: g in h.modifications ==> c.first <= g <= Top(c)
  {}

  /** After a run with live commits, exactly the next height is accepted, and no commit without a height. */
  lemma NextCommitIff(d: Description, db: Db, c: Chain, ops: seq<Operation>, heights: seq<nat>, changes: Changes)
    requires ValidPolicy(d.policy) && DbInv(d, db, c) && |c.states| > 0 && PlainRun(d, db, ops)
    requires Live(d, db, BlocksOf(c), ops) != []
    ensures var live := Live(d, db, BlocksOf(c), ops);
      var last := live[|live| - 1].height;
      CommitDb(d, Run(d, db, ops), heights, changes).Ok? <==>
        && last != d.maxHeight && heights == [last + 1]
        && !(d.policy.NoRewind? && MetadataKey in changes)
  {
    hide *;
    LiveHeights(d, db, c, ops);
    CommitAcceptsIff(d, Run(d, db, ops), heights, changes);
  }

  // ---------------------------------------------------------------------------------------
  // Kinds of metadata
  // ---------------------------------------------------------------------------------------

  /** What indexes a database is known to have: none are recorded by metadata of the first kind. */
  datatype Indexation = NotRecorded | Indexes(indexes: set<nat>)

  function IndexationOf(store: Store): (r: Option<Indexation>) {
    match Get(store, MetadataKey)
    case Some(MetadataValue(V1(_, _))) => Some(NotRecorded)
    case Some(MetadataValue(V2(_, _, indexes))) => Some(Indexes(indexes))
    case _ => None
  }

  /** All snapshots that have metadata agree on the indexation. */
  ghost predicate Uniform(c: Chain, x: Indexation) {
    forall i :: 0 <= i < |c.states| ==> IndexationOf(c.states[i]) in {None, Some(x)}
  }

  lemma CommitIndexation(d: Description, db: Db, height: nat, changes: Changes)
    requires CommitDb(d, db, [height], changes).Ok?
    ensures IndexationOf(CommitDb(d, db, [height], changes).value.history.store) ==
      if IndexationOf(db.history.store).Some? then IndexationOf(db.history.store) else Some(Indexes(d.indexation))
  {
    CommitMetadata(d, db, height, changes);
    hide CommitDb;
  }

  lemma UniformTop(c: Chain, x: Indexation)
    requires Uniform(c, x) && |c.states| > 0
    ensures IndexationOf(c.states[|c.states| - 1]) in {None, Some(x)}
  {}

  lemma UniformMoves(c: Chain, x: Indexation, cached: Option<nat>, heights: seq<nat>, store: Store)
    requires Uniform(c, x) && |c.states| > 0 && IndexationOf(store) in {None, Some(x)}
    ensures Uniform(Extended(c, cached, heights, store), x) && Uniform(Popped(c), x)
  {
    hide IndexationOf;
  }

  lemma PlainKeepsNone(store: Store, changes: Changes)
    requires MetadataHeight(store) == None && !WritesMetadata(changes)
    ensures IndexationOf(Apply(store, changes)) == None
  {}

  /** One operation of a run keeps the indexation, given that new metadata would have the same. */
  lemma StepKeepsIndexation(d: Description, db: Db, c: Chain, op: Operation, x: Indexation)
    requires ValidPolicy(d.policy) && DbInv(d, db, c) && |c.states| > 0 && Plain(db, op) && Uniform(c, x)
    requires IndexationOf(db.history.store) == None ==> x == Indexes(d.indexation)
    ensures Uniform(ChainAfter(d, db, c, op), x)
  {
    DbHasStates(d, db, c);
    CacheFacts(d, db, c);
    UniformTop(c, x);
    if op.CommitBlock? && CommitDb(d, db, op.heights, op.changes).Ok? {
      var db' := CommitDb(d, db, op.heights, op.changes).value;
      if op.heights == [] {
        NothingStored(d, db, c);
        PlainKeepsNone(db.history.store, op.changes);
      } else {
        assert op.heights == [op.heights[0]];
        CommitIndexation(d, db, op.heights[0], op.changes);
      }
      hide DbInv, Commit, WithMetadata, IndexationOf, Uniform, Plain;
      UniformMoves(c, x, db.cached, op.heights, db'.history.store);
    } else {
      hide DbInv, CommitDb, RollbackDb, IndexationOf, Uniform, Plain;
      UniformMoves(c, x, db.cached, [], db.history.store);
    }
  }

  lemma NothingStored(d: Description, db: Db, c: Chain)
    requires DbInv(d, db, c) && db.cached.None?
    ensures MetadataHeight(db.history.store) == None
  {}

  /** Metadata is there, or what would be written has the indexation `x`. */
  ghost predicate Settled(d: Description, db: Db, x: Indexation) {
    IndexationOf(db.history.store) == None ==> x == Indexes(d.indexation)
  }

  lemma {:induction false} UniformRun(d: Description, db: Db, c: Chain, ops: seq<Operation>, x: Indexation)
    requires ValidPolicy(d.policy) && DbInv(d, db, c) && |c.states| > 0 && PlainRun(d, db, ops) && Uniform(c, x)
    requires forall i :: 0 <= i < |ops| ==> Settled(d, Run(d, db, ops[..i]), x)
    ensures Uniform(RunChain(d, db, c, ops), x)
    decreases |ops|
  {
    hide DbInv, After, ChainAfter, PlainRun, Plain, Uniform, Run;
    if ops != [] {
      var front := ops[..|ops| - 1];
      PlainFront(d, db, ops);
      assert forall i :: 0 <= i < |front| ==> front[..i] == ops[..i];
      RunRefines(d, db, c, front);
      UniformRun(d, db, c, front, x);
      assert Settled(d, Run(d, db, front), x);
      StepKeepsIndexation(d, Run(d, db, front), RunChain(d, db, c, front), ops[|ops| - 1], x);
    }
  }

  /**
   Over every run, as long as there is metadata, it records the same indexes: commits, rollbacks
   and restarts neither add nor lose any, whatever the description says.
   */
  lemma RunKeepsIndexation(d: Description, db: Db, c: Chain, ops: seq<Operation>, x: Indexation)
    requires ValidPolicy(d.policy) && DbInv(d, db, c) && |c.states| > 0 && PlainRun(d, db, ops) && Uniform(c, x)
    requires forall i :: 0 <= i <= |ops| ==> IndexationOf(Run(d, db, ops[..i]).history.store).Some?
    ensures IndexationOf(Run(d, db, ops).history.store) == Some(x)
  {
    hide DbInv, PlainRun, Uniform, Run, IndexationOf;
    assert ops[..|ops|] == ops;
    UniformRun(d, db, c, ops, x);
    RunRefines(d, db, c, ops);
    DbHasStates(d, Run(d, db, ops), RunChain(d, db, c, ops));
    UniformTop(RunChain(d, db, c, ops), x);
  }

  /** A database that started empty has the description's indexation, or no metadata, after every run. */
  lemma NewDatabaseIndexation(d: Description, ops: seq<Operation>)
    requires ValidPolicy(d.policy) && PlainRun(d, OpenDb(EMPTY), ops)
    ensures IndexationOf(Run(d, OpenDb(EMPTY), ops).history.store) in {None, Some(Indexes(d.indexation))}
  {
    var c, x := Chain(0, [map[]]), Indexes(d.indexation);
    assert Uniform(c, x);
    hide DbInv, PlainRun, Uniform, Run, IndexationOf;
    EmptyIsConsistent(d, 0);
    UniformRun(d, OpenDb(EMPTY), c, ops, x);
    RunRefines(d, OpenDb(EMPTY), c, ops);
    DbHasStates(d, Run(d, OpenDb(EMPTY), ops), RunChain(d, OpenDb(EMPTY), c, ops));
    UniformTop(RunChain(d, OpenDb(EMPTY), c, ops), x);
  }

  // ---------------------------------------------------------------------------------------
  // Rolling back several blocks
  // ---------------------------------------------------------------------------------------

  function RollbackTimes(db: Db, n: nat): (r: Result<Db, DatabaseError>)
    decreases n
  {
    if n == 0 then Ok(db)
    else
      match RollbackDb(db)
      case Ok(next) => RollbackTimes(next, n - 1)
      case Err(e) => Err(e)
  }

  ghost function PoppedTimes(c: Chain, n: nat): (r: Chain)
    requires n < |c.states|
  {
    c.(states := c.states[..|c.states| - n])
  }

  /** The last `n` blocks can be undone exactly when the oldest of them still has history. */
  lemma {:induction false} RollbackTimesIff(d: Description, db: Db, c: Chain, n: nat)
    requires DbInv(d, db, c)
    ensures RollbackTimes(db, n).Ok? <==> n == 0 || Top(c) - n + 1 in db.history.modifications
    ensures RollbackTimes(db, n).Ok? ==> n < |c.states| && DbInv(d, RollbackTimes(db, n).value, PoppedTimes(c, n))
    decreases n
  {
    hide *;
    DbHasStates(d, db, c);
    RollbackTimesStep(db, n);
    if n == 0 {
      PoppedNone(c);
    } else {
      RollbackKeeps(d, db, c);
      RetainedUpwards(d, db, c, Top(c) - n + 1);
      if RollbackDb(db).Ok? {
        PoppedMore(c, n);
        RollbackTimesIff(d, RollbackDb(db).value, Popped(c), n - 1);
      }
    }
  }

  lemma RollbackTimesStep(db: Db, n: nat)
    ensures n == 0 ==> RollbackTimes(db, n) == Ok(db)
    ensures n > 0 && RollbackDb(db).Ok? ==> RollbackTimes(db, n) == RollbackTimes(RollbackDb(db).value, n - 1)
    ensures n > 0 && RollbackDb(db).Err? ==> RollbackTimes(db, n).Err?
  {
    hide RollbackDb;
  }

  lemma PoppedNone(c: Chain)
    requires |c.states| > 0
    ensures PoppedTimes(c, 0) == c
  {}

  lemma PoppedMore(c: Chain, n: nat)
    requires |c.states| > 0 && n > 0
    ensures Top(Popped(c)) == Top(c) - 1 && |Popped(c).states| == |c.states| - 1
    ensures n < |c.states| ==> PoppedTimes(Popped(c), n - 1) == PoppedTimes(c, n)
  {}

  /** History for a height means history for every later one, up to the cached height. */
  lemma RetainedUpwards(d: Description, db: Db, c: Chain, g: int)
    requires DbInv(d, db, c)
    ensures g in db.history.modifications ==>
      && |c.states| > 1 && c.first <= g <= Top(c)
      && db.cached == Some(Top(c)) && Top(c) in db.history.modifications
  {
    if g in db.history.modifications {
      HistoryHasBlocks(d.policy, db.history, c, g);
      CachedWithBlocks(d, db, c);
    }
  }

  /** Undoing blocks of a run leads to the store right after an earlier live commit. */
  lemma LiveRollback(d: Description, db: Db, c: Chain, ops: seq<Operation>, n: nat)
    requires ValidPolicy(d.policy) && DbInv(d, db, c) && |c.states| > 0 && PlainRun(d, db, ops)
    requires n < |Live(d, db, BlocksOf(c), ops)|
    requires RollbackTimes(Run(d, db, ops), n).Ok?
    ensures var live, undone := Live(d, db, BlocksOf(c), ops), RollbackTimes(Run(d, db, ops), n).value;
      && undone.history.store == live[|live| - 1 - n].store
      && undone.cached == Some(live[|live| - 1 - n].height)
  {
    hide *;
    RunRefines(d, db, c, ops);
    RunIsLive(d, db, c, ops);
    BlockRollback(d, Run(d, db, ops), RunChain(d, db, c, ops), n);
  }

  lemma BlockRollback(d: Description, db: Db, c: Chain, n: nat)
    requires DbInv(d, db, c) && |c.states| > 0 && n < |BlocksOf(c)| && RollbackTimes(db, n).Ok?
    ensures var blocks, undone := BlocksOf(c), RollbackTimes(db, n).value;
      && undone.history.store == blocks[|blocks| - 1 - n].store
      && undone.cached == Some(blocks[|blocks| - 1 - n].height)
  {
    hide DbInv, RollbackTimes;
    RollbackTimesIff(d, db, c, n);
    BlocksLinked(d, RollbackTimes(db, n).value, PoppedTimes(c, n));
  }

  const EMPTY: History := History(map[], map[], map[])

  /** An empty database starts consistent. */
  lemma EmptyIsConsistent(d: Description, first: nat)
    ensures DbInv(d, OpenDb(EMPTY), Chain(first, [map[]])) && Consistent(OpenDb(EMPTY))
  {}

  /** Committing a block and rolling it back gives the store back, wherever history is kept. */
  lemma CommitThenRollback(d: Description, db: Db, c: Chain, height: nat, changes: Changes)
    requires ValidPolicy(d.policy) && !d.policy.NoRewind? && DbInv(d, db, c)
    requires CommitDb(d, db, [height], changes).Ok?
    ensures var committed := CommitDb(d, db, [height], changes).value;
      && RollbackDb(committed).Ok?
      && RollbackDb(committed).value.history.store == db.history.store
  {
    hide DbInv, Consistent, RollbackDb, CommitDb, StateAt, Extended;
    var committed := CommitDb(d, db, [height], changes).value;
    DbHasStates(d, db, c);
    CommitKeepsIff(d, db, c, [height], changes);
    CommittedIsRecorded(d, db, height, changes);
    ExtendedPrevious(c, db.cached, height, committed.history.store);
    var c' := Extended(c, db.cached, [height], committed.history.store);
    RollbackKeeps(d, committed, c');
    StoreAfterRollback(d, committed, c');
  }

  lemma ExtendedPrevious(c: Chain, cached: Option<nat>, height: nat, store: Store)
    requires |c.states| > 0
    ensures var c' := Extended(c, cached, [height], store);
      Covers(c', Top(c') - 1) && StateAt(c', Top(c') - 1) == c.states[|c.states| - 1]
  {}

  lemma CommittedIsRecorded(d: Description, db: Db, height: nat, changes: Changes)
    requires !d.policy.NoRewind? && CommitDb(d, db, [height], changes).Ok?
    ensures var committed := CommitDb(d, db, [height], changes).value;
      committed.cached == Some(height) && height in committed.history.modifications
  {
    hide Commit, WithMetadata;
    CommitRecords(d.policy, db.history, height, WithMetadata(d, db.history.store, Some(height), changes));
  }

  lemma CommitRecords(policy: Policy, h: History, height: nat, changes: Changes)
    requires !policy.NoRewind?
    ensures height in Commit(policy, h, Some(height), changes).modifications
  {}

  // ---------------------------------------------------------------------------------------
  // What a rewind window keeps
  // ---------------------------------------------------------------------------------------

  /** A run of accepted commits whose heights start at `first`. */
  ghost predicate CommitsFrom(d: Description, db: Db, first: nat, ops: seq<Operation>) {
    forall i :: 0 <= i < |ops| ==>
      && ops[i].CommitBlock? && ops[i].heights == [first + i]
      && CommitDb(d, Run(d, db, ops[..i]), [first + i], ops[i].changes).Ok?
  }

  lemma CommitsFront(d: Description, db: Db, first: nat, ops: seq<Operation>)
    requires CommitsFrom(d, db, first, ops) && ops != []
    ensures var front, op := ops[..|ops| - 1], ops[|ops| - 1];
      && CommitsFrom(d, db, first, front)
      && op.CommitBlock? && op.heights == [first + |front|]
      && CommitDb(d, Run(d, db, front), [first + |front|], op.changes).Ok?
      && Run(d, db, ops) == CommitDb(d, Run(d, db, front), [first + |front|], op.changes).value
  {
    hide CommitDb;
    var front := ops[..|ops| - 1];
    assert forall i :: 0 <= i < |front| ==> front[..i] == ops[..i] && front[i] == ops[i];
  }

  lemma CommitsArePlain(d: Description, db: Db, first: nat, ops: seq<Operation>)
    requires CommitsFrom(d, db, first, ops)
    ensures PlainRun(d, db, ops)
  {
    hide CommitDb, Run;
  }

  lemma WindowIsValid(d: Description, size: nat)
    requires size > 0 && d.policy == RewindRange(size)
    ensures ValidPolicy(d.policy)
  {}

  lemma NoBlocksYet(d: Description, db: Db, c: Chain)
    requires DbInv(d, db, c) && db.cached.None?
    ensures forall g :: g !in db.history.modifications
  {}

  /** What one accepted commit with a height does to cache and history. */
  lemma CommitRetains(d: Description, size: nat, db: Db, c: Chain, height: nat, changes: Changes, g: nat)
    requires size > 0 && d.policy == RewindRange(size) && DbInv(d, db, c)
    requires CommitDb(d, db, [height], changes).Ok?
    ensures var db' := CommitDb(d, db, [height], changes).value;
      && (db.cached.Some? ==> height == db.cached.value + 1)
      && db'.cached == Some(height)
      && (g in db'.history.modifications <==>
        g == height || (g in db.history.modifications && g + size != height && !(g == 0 && height <= size)))
  {
    hide Commit, WithMetadata, Duplicated, Contiguous, Faithful, Windowed, HeightsLinked, CacheLinked;
    var all := WithMetadata(d, db.history.store, Some(height), changes);
    CommitRecords(d.policy, db.history, height, all);
    if g != height {
      RangeRetainsIff(size, db.history, height, all, g);
    }
  }

  /**
   After a run of commits a window of `size` blocks has history for exactly the last `size`
   heights, without height zero once there is a height above it.
   */
  lemma {:induction false} RangeRunRetainsIff(
      d: Description, size: nat, db: Db, c: Chain, first: nat, ops: seq<Operation>, g: nat)
    requires size > 0 && d.policy == RewindRange(size) && DbInv(d, db, c) && db.cached.None?
    requires ops != [] && CommitsFrom(d, db, first, ops)
    ensures var top := first + |ops| - 1;
      && Run(d, db, ops).cached == Some(top)
      && (g in Run(d, db, ops).history.modifications <==> first <= g <= top < g + size && !(g == 0 && top > 0))
    decreases |ops|
  {
    hide *;
    WindowIsValid(d, size);
    var front := ops[..|ops| - 1];
    CommitsFront(d, db, first, ops);
    DbHasStates(d, db, c);
    CommitsArePlain(d, db, first, front);
    RunRefines(d, db, c, front);
    CommitRetains(d, size, Run(d, db, front), RunChain(d, db, c, front), first + |front|, ops[|front|].changes, g);
    if front == [] {
      RunNothing(d, db);
      NoBlocksYet(d, db, c);
    } else {
      RangeRunRetainsIff(d, size, db, c, first, front, g);
    }
  }

  /**
   Exactly how many of the blocks committed since the start can be undone: those within the
   window, except that height zero cannot be once there is a height above it.
   */
  lemma RangeRollbackIff(
      d: Description, size: nat, db: Db, c: Chain, first: nat, ops: seq<Operation>, n: nat)
    requires size > 0 && d.policy == RewindRange(size) && DbInv(d, db, c) && db.cached.None?
    requires ops != [] && CommitsFrom(d, db, first, ops)
    ensures RollbackTimes(Run(d, db, ops), n).Ok? <==>
      n == 0 || (n <= |ops| && n <= size && !(first == 0 && n == |ops| && n > 1))
  {
    hide *;
    WindowIsValid(d, size);
    DbHasStates(d, db, c);
    CommitsArePlain(d, db, first, ops);
    RunRefines(d, db, c, ops);
    var db', c' := Run(d, db, ops), RunChain(d, db, c, ops);
    RollbackTimesIff(d, db', c', n);
    RangeRunRetainsIff(d, size, db, c, first, ops, if Top(c') - n + 1 >= 0 then Top(c') - n + 1 else 0);
    CacheFacts(d, db', c');
  }

  // ---------------------------------------------------------------------------------------
  // Where cache, metadata and history fall apart
  // ---------------------------------------------------------------------------------------

  /**
   The first block of an empty store, at height five: undoing it leaves a cached height and no
   stored one, until the store is opened again.
   */
  lemma FirstBlockRollback(version: nat, changes: Changes)
    ensures var d := Description(RewindFullRange, 0xFFFF_FFFF, version, {});
      && CommitDb(d, OpenDb(EMPTY), [5], changes).Ok?
      && RollbackDb(CommitDb(d, OpenDb(EMPTY), [5], changes).value).Ok?
      && var undone := RollbackDb(CommitDb(d, OpenDb(EMPTY), [5], changes).value).value;
         && undone.history.store == map[] && undone.cached == Some(4) && MetadataHeight(undone.history.store) == None
         && After(d, undone, Reopen).cached == None
  {
    var d := Description(RewindFullRange, 0xFFFF_FFFF, version, {});
    EmptyIsConsistent(d, 0);
    CommitThenRollback(d, OpenDb(EMPTY), Chain(0, [map[]]), 5, changes);
    CommittedIsRecorded(d, OpenDb(EMPTY), 5, changes);
    hide Commit, WithMetadata, Rollback;
  }

  /** A commit without a height that writes one into the metadata: it is stored and not cached. */
  lemma HeightWithoutCommit(policy: Policy, version: nat)
    ensures var d, changes :=
        Description(policy, 0xFFFF_FFFF, version, {}), map[MetadataKey := Insert(MetadataValue(V1(0, 7)))];
      && CommitDb(d, OpenDb(EMPTY), [], changes).Ok?
      && var db := CommitDb(d, OpenDb(EMPTY), [], changes).value;
         db.cached == None && MetadataHeight(db.history.store) == Some(7)
  {}

  lemma TwoCommits(d: Description, zero: Changes, one: Changes)
    requires d.maxHeight > 0 && !d.policy.NoRewind?
    ensures CommitsFrom(d, OpenDb(EMPTY), 0, [CommitBlock([0], zero), CommitBlock([1], one)])
  {
    hide Commit, WithMetadata, RollbackDb;
    var ops := [CommitBlock([0], zero), CommitBlock([1], one)];
    assert ops[..0] == [] && ops[..1] == [CommitBlock([0], zero)];
    assert [CommitBlock([0], zero)][..0] == [];
    assert Run(d, OpenDb(EMPTY), []) == OpenDb(EMPTY);
    assert Run(d, OpenDb(EMPTY), ops[..1]).cached == Some(0);
  }

  /** Blocks zero and one under a window of five: one can be undone, two cannot. */
  lemma HeightZeroForgotten(version: nat, zero: Changes, one: Changes)
    ensures var d := Description(RewindRange(5), 0xFFFF_FFFF, version, {});
      var db := Run(d, OpenDb(EMPTY), [CommitBlock([0], zero), CommitBlock([1], one)]);
      db.cached == Some(1) && RollbackTimes(db, 1).Ok? && RollbackTimes(db, 2).Err?
  {
    hide *;
    var d := Description(RewindRange(5), 0xFFFF_FFFF, version, {});
    var ops, c := [CommitBlock([0], zero), CommitBlock([1], one)], Chain(0, [map[]]);
    TwoCommits(d, zero, one);
    EmptyIsConsistent(d, 0);
    NothingCached();
    RangeRollbackIff(d, 5, OpenDb(EMPTY), c, 0, ops, 1);
    RangeRollbackIff(d, 5, OpenDb(EMPTY), c, 0, ops, 2);
    RangeRunRetainsIff(d, 5, OpenDb(EMPTY), c, 0, ops, 0);
  }

  lemma NothingCached()
    ensures OpenDb(EMPTY).cached == None
  {}
}
