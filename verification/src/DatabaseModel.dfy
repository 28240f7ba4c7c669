/**
 Height-linked databases: every commit carries the next height, the height is kept both in the
 stored metadata and in a cache, and blocks can be rolled back one at a time.
 */
module DatabaseModel {
  import opened Wrappers
  import opened HistoricalStore
  import opened HistoryProofs
  import opened ChangeLists

  /** What distinguishes one kind of database from another. */
  datatype Description = Description(policy: Policy, maxHeight: nat, version: nat, indexation: set<nat>)

  datatype Db = Db(history: History, cached: Option<nat>)

  datatype DatabaseError =
    | MultipleHeightsInCommit(heights: seq<nat>)
    | FailedToAdvanceHeight
    | HeightsAreNotLinked(prev: nat, new_: nat)
    | NewHeightIsNotSet(prev: nat)
    | NoHeightToRollback
    | Storage(error: HistoryError)

  function MetadataHeight(store: Store): (r: Option<nat>) {
    match Get(store, MetadataKey)
    case Some(MetadataValue(m)) => Some(m.height)
    case _ => None
  }

  function UpdatedMetadata(d: Description, current: Option<Value>, height: nat): (r: Metadata) {
    match current
    case Some(MetadataValue(V1(_, _))) => V1(d.version, height)
    case Some(MetadataValue(V2(_, _, indexation))) => V2(d.version, height, indexation)
    case _ => V2(d.version, height, d.indexation)
  }

  /** Which heights a commit may carry, given the cached one. */
  function CheckHeights(d: Description, cached: Option<nat>, heights: seq<nat>)
    : (r: Result<Option<nat>, DatabaseError>)
  {
    if |heights| > 1 then Err(MultipleHeightsInCommit(heights))
    else if heights == [] then
      (if cached.Some? then Err(NewHeightIsNotSet(cached.value)) else Ok(None))
    else if cached.None? then Ok(Some(heights[0]))
    else if cached.value == d.maxHeight then Err(FailedToAdvanceHeight)
    else if cached.value + 1 != heights[0] then Err(HeightsAreNotLinked(cached.value, heights[0]))
    else Ok(Some(heights[0]))
  }

  /** The changes of a commit with a height also update the metadata. */
  function WithMetadata(d: Description, store: Store, height: Option<nat>, changes: Changes): (r: Changes) {
    match height
    case Some(h) =>
      changes[MetadataKey := Insert(MetadataValue(UpdatedMetadata(d, Get(store, MetadataKey), h)))]
    case None => changes
  }

  /** Without history the metadata goes into the batch beside the changes, and must not clash with them. */
  predicate Conflicts(d: Description, height: Option<nat>, changes: Changes) {
    height.Some? && d.policy.NoRewind? && MetadataKey in changes
  }

  function CommitDb(d: Description, db: Db, heights: seq<nat>, changes: Changes): (r: Result<Db, DatabaseError>) {
    var height :- CheckHeights(d, db.cached, heights);
    if Conflicts(d, height, changes) then Err(Storage(ConflictingChanges)) else
    Ok(Db(Commit(d.policy, db.history, height, WithMetadata(d, db.history.store, height, changes)),
          if height.Some? then height else db.cached))
  }

  function MetadataChange(d: Description, store: Store, height: nat): (r: Changes) {
    map[MetadataKey := Insert(MetadataValue(UpdatedMetadata(d, Get(store, MetadataKey), height)))]
  }

  /** The same for a list of change sets, to which the metadata is added as the last. */
  function CommitDbList(d: Description, db: Db, heights: seq<nat>, list: seq<Changes>)
    : (r: Result<Db, DatabaseError>)
  {
    var height :- CheckHeights(d, db.cached, heights);
    var all := if height.Some? then list + [MetadataChange(d, db.history.store, height.value)] else list;
    match CommitList(d.policy, db.history, height, all)
    case Ok(h) => Ok(Db(h, if height.Some? then height else db.cached))
    case Err(e) => Err(Storage(e))
  }

  function RollbackDb(db: Db): (r: Result<Db, DatabaseError>) {
    if db.cached.None? then Err(NoHeightToRollback)
    else
      match Rollback(db.history, db.cached.value)
      case Err(e) => Err(Storage(e))
      case Ok(h) => Ok(Db(h, if db.cached.value == 0 then None else Some(db.cached.value - 1)))
  }

  /** `view_at`: the current height is read from the store itself, any other from history. */
  ghost function ViewAt(db: Db, height: nat, k: Key): (r: Result<Option<Value>, HistoryError>) {
    if db.cached.None? || db.cached.value == height then Ok(Get(db.history.store, k))
    else ReadAt(db.history, height, k)
  }

  function OpenDb(history: History): (r: Db) {
    Db(history, MetadataHeight(history.store))
  }

  // ---------------------------------------------------------------------------------------
  // Invariant
  // ---------------------------------------------------------------------------------------

  /** Snapshots carry consecutive heights in their metadata; below them there is at most one more. */
  ghost predicate HeightsLinked(c: Chain) {
    && |c.states| > 0
    && (forall i :: 1 <= i < |c.states| ==> MetadataHeight(c.states[i]) == Some(c.first + i - 1))
    && (MetadataHeight(c.states[0]).Some? ==> MetadataHeight(c.states[0]).value == c.first - 1)
  }

  ghost predicate CacheLinked(cached: Option<nat>, c: Chain) {
    match cached
    case None => |c.states| == 1 && MetadataHeight(c.states[0]) == None
    case Some(h) => h == Top(c)
  }

  ghost predicate DbInv(d: Description, db: Db, c: Chain) {
    && Inv(d.policy, db.history, c)
    && HeightsLinked(c)
    && CacheLinked(db.cached, c)
  }

  /** The cache says what the metadata says. */
  predicate Consistent(db: Db) { db.cached == MetadataHeight(db.history.store) }

  lemma StoredHeight(d: Description, db: Db, c: Chain)
    requires DbInv(d, db, c)
    ensures MetadataHeight(db.history.store).Some? ==>
      MetadataHeight(db.history.store) == Some(Top(c)) && db.cached == Some(Top(c))
  {}

  // ---------------------------------------------------------------------------------------
  // Commits
  // ---------------------------------------------------------------------------------------

  /** A commit is accepted exactly when it carries the next height, or the first, or none before that. */
  lemma CommitAcceptsIff(d: Description, db: Db, heights: seq<nat>, changes: Changes)
    ensures CommitDb(d, db, heights, changes).Ok? <==>
      || (heights == [] && db.cached == None)
      || (&& |heights| == 1 && !(d.policy.NoRewind? && MetadataKey in changes)
          && (db.cached.Some? ==> db.cached.value != d.maxHeight && heights[0] == db.cached.value + 1))
  {
    hide Commit;
  }

  /** The change set that a list of them amounts to. */
  function Effective(d: Description, heights: seq<nat>, list: seq<Changes>): (r: Changes) {
    if heights != [] && !d.policy.NoRewind? then Collected(list) else Merged(list)
  }

  /** A list of change sets is committed as one set, or refused for writing a key twice. */
  lemma CommitListIsCommit(d: Description, db: Db, heights: seq<nat>, list: seq<Changes>)
    ensures CommitDbList(d, db, heights, list) ==
      if CheckHeights(d, db.cached, heights).Ok? && (heights == [] || d.policy.NoRewind?) && !KeysDisjoint(list)
      then Err(Storage(ConflictingChanges))
      else CommitDb(d, db, heights, Effective(d, heights, list))
  {
    hide Commit, UpdatedMetadata, Collected, Merged, KeysDisjoint;
    var checked := CheckHeights(d, db.cached, heights);
    if checked.Ok? && checked.value.Some? {
      ListWithMetadata(list, MetadataChange(d, db.history.store, checked.value.value));
    }
  }

  lemma ListWithMetadata(list: seq<Changes>, last: Changes)
    requires last.Keys == {MetadataKey}
    ensures var all := list + [last];
      && Collected(all) == Collected(list)[MetadataKey := last[MetadataKey]]
      && Merged(all) == Merged(list)[MetadataKey := last[MetadataKey]]
      && (KeysDisjoint(all) <==> KeysDisjoint(list) && MetadataKey !in Merged(list))
  {
    var all := list + [last];
    assert all[..|all| - 1] == list;
    assert Merged(all) == Merged(list) + last && Collected(all) == Overlaid(Collected(list), last);
    hide Merged, Collected, KeysDisjoint;
    OverlaidMetadata(Collected(list), last);
    DisjointFromMetadata(list, last);
  }

  lemma OverlaidMetadata(earlier: Changes, last: Changes)
    requires last.Keys == {MetadataKey}
    ensures Overlaid(earlier, last) == earlier[MetadataKey := last[MetadataKey]]
  {
    assert Columns(last) == {MetadataColumn} by { assert ColumnOf(MetadataKey) == MetadataColumn; }
    assert forall k :: ColumnOf(k) == MetadataColumn <==> k == MetadataKey;
  }

  lemma DisjointFromMetadata(list: seq<Changes>, last: Changes)
    requires last.Keys == {MetadataKey}
    ensures KeysDisjoint(list + [last]) <==> KeysDisjoint(list) && MetadataKey !in Merged(list)
  {
    hide Merged;
    var all := list + [last];
    assert forall i :: 0 <= i < |list| ==> all[i] == list[i];
    MergedMembers(list, MetadataKey);
    if MetadataKey in Merged(list) {
      var i :| 0 <= i < |list| && MetadataKey in list[i];
      assert MetadataKey in all[i] && MetadataKey in all[|list|];
    }
  }

  lemma CommittedHeight(d: Description, store: Store, height: nat, changes: Changes)
    ensures MetadataHeight(Apply(store, WithMetadata(d, store, Some(height), changes))) == Some(height)
  {}

  /**
   The stored metadata after an accepted commit with a height: the description's version and
   that height; the kind of metadata there was stays, with its indexation, and new metadata is
   of the second kind with the description's indexation.
   */
  lemma CommitMetadata(d: Description, db: Db, height: nat, changes: Changes)
    requires CommitDb(d, db, [height], changes).Ok?
    ensures var before := Get(db.history.store, MetadataKey);
      var after := Get(CommitDb(d, db, [height], changes).value.history.store, MetadataKey);
      && after.Some? && after.value.MetadataValue?
      && after.value.metadata.version == d.version && after.value.metadata.height == height
      && (if before.Some? && before.value.MetadataValue? && before.value.metadata.V1?
          then after.value.metadata.V1?
          else
            && after.value.metadata.V2?
            && after.value.metadata.indexation ==
              if before.Some? && before.value.MetadataValue? then before.value.metadata.indexation else d.indexation)
  {
    hide Reverse, Recorded, CleanedUp;
  }

  /** Whether the changes themselves set a height. */
  predicate WritesMetadata(changes: Changes) {
    MetadataKey in changes && changes[MetadataKey].Insert? && changes[MetadataKey].value.MetadataValue?
  }

  lemma UnsetMetadata(store: Store, changes: Changes)
    requires MetadataHeight(store) == None
    ensures MetadataHeight(Apply(store, changes)) == None <==> !WritesMetadata(changes)
  {}

  /** The chain after an accepted commit: the first height may start anywhere, later ones are next. */
  ghost function Extended(c: Chain, cached: Option<nat>, heights: seq<nat>, store: Store): Chain
    requires |c.states| > 0
  {
    if heights == [] then Chain(c.first, [store])
    else Pushed(if cached.None? then c.(first := heights[0]) else c, store)
  }

  /** With no block yet, the snapshots can start at any height. */
  lemma Rebase(policy: Policy, h: History, c: Chain, first: nat)
    requires Inv(policy, h, c) && |c.states| == 1
    ensures Inv(policy, h, c.(first := first))
  {
    assert h.modifications == map[] by {
      assert forall g :: g in h.modifications ==> c.first <= g <= Top(c);
      assert forall g :: g !in h.modifications;
    }
  }

  lemma PushLinks(c: Chain, store: Store)
    requires HeightsLinked(c) && MetadataHeight(store) == Some(Top(c) + 1)
    ensures HeightsLinked(Pushed(c, store)) && CacheLinked(Some(Top(c) + 1), Pushed(c, store))
  {
    hide MetadataHeight;
  }

  /** A commit of the next height, on snapshots that end right below it. */
  lemma CommitKeepsHeight(d: Description, h: History, c: Chain, changes: Changes)
    requires ValidPolicy(d.policy) && Inv(d.policy, h, c) && HeightsLinked(c) && Top(c) + 1 >= 0
    ensures var h' := Commit(d.policy, h, Some(Top(c) + 1), WithMetadata(d, h.store, Some(Top(c) + 1), changes));
      && Inv(d.policy, h', Pushed(c, h'.store))
      && HeightsLinked(Pushed(c, h'.store)) && CacheLinked(Some(Top(c) + 1), Pushed(c, h'.store))
      && MetadataHeight(h'.store) == Some(Top(c) + 1)
  {
    hide Inv, Apply, WithMetadata, HeightsLinked, CacheLinked, MetadataHeight;
    var all := WithMetadata(d, h.store, Some(Top(c) + 1), changes);
    CommitPushes(d.policy, h, c, all);
    CommittedHeight(d, h.store, Top(c) + 1, changes);
    PushLinks(c, Apply(h.store, all));
  }

  lemma CommitKeepsBase(d: Description, h: History, c: Chain, changes: Changes)
    requires Inv(d.policy, h, c) && HeightsLinked(c) && CacheLinked(None, c)
    ensures var h' := Commit(d.policy, h, None, changes);
      && (MetadataHeight(h'.store) == None <==> !WritesMetadata(changes))
      && (!WritesMetadata(changes) ==>
        && Inv(d.policy, h', Chain(c.first, [h'.store]))
        && HeightsLinked(Chain(c.first, [h'.store])) && CacheLinked(None, Chain(c.first, [h'.store])))
  {
    InvStore(d.policy, h, c);
    hide Inv, Apply, MetadataHeight, WritesMetadata;
    CommitWithoutHeight(d.policy, h, c, c.first, changes);
    UnsetMetadata(h.store, changes);
  }

  /**
   An accepted commit keeps heights linked and leaves cache and metadata equal, exactly unless
   it has no height and sets one in the metadata itself.
   */
  lemma CommitKeepsIff(d: Description, db: Db, c: Chain, heights: seq<nat>, changes: Changes)
    requires ValidPolicy(d.policy) && DbInv(d, db, c)
    requires CommitDb(d, db, heights, changes).Ok?
    ensures var db' := CommitDb(d, db, heights, changes).value;
      && (Consistent(db') <==> heights != [] || !WritesMetadata(changes))
      && (Consistent(db') ==> DbInv(d, db', Extended(c, db.cached, heights, db'.history.store)))
  {
    var h := db.history;
    hide Inv, Apply, MetadataHeight, Commit, UpdatedMetadata, WritesMetadata;
    if heights == [] {
      CommitKeepsBase(d, h, c, changes);
    } else if db.cached.None? {
      Rebase(d.policy, h, c, heights[0]);
      hide WithMetadata;
      CommitKeepsHeight(d, h, c.(first := heights[0]), changes);
    } else {
      hide WithMetadata;
      CommitKeepsHeight(d, h, c, changes);
    }
  }

  lemma InvStore(policy: Policy, h: History, c: Chain)
    requires Inv(policy, h, c)
    ensures |c.states| > 0 && h.store == c.states[|c.states| - 1]
  {}

  // ---------------------------------------------------------------------------------------
  // Rollbacks
  // ---------------------------------------------------------------------------------------

  lemma PopLinks(c: Chain)
    requires HeightsLinked(c) && |c.states| > 1
    ensures HeightsLinked(Popped(c))
    ensures CacheLinked(if Top(c) == 0 then None else Some(Top(c) - 1), Popped(c))
  {
    hide MetadataHeight;
  }

  /** A rollback succeeds exactly when the cached height still has history, and pops its block. */
  lemma RollbackKeeps(d: Description, db: Db, c: Chain)
    requires DbInv(d, db, c)
    ensures RollbackDb(db).Ok? <==> db.cached.Some? && db.cached.value in db.history.modifications
    ensures RollbackDb(db).Ok? ==>
      && |c.states| > 1 && db.cached == Some(Top(c))
      && DbInv(d, RollbackDb(db).value, Popped(c))
      && RollbackDb(db).value.history.modifications == db.history.modifications - {Top(c)}
  {
    if db.cached.Some? && db.cached.value in db.history.modifications {
      HistoryHasBlocks(d.policy, db.history, c, db.cached.value);
      hide Inv, Rollback, HeightsLinked;
      RollbackPops(d.policy, db.history, c);
      PopLinks(c);
    }
  }

  lemma HistoryHasBlocks(policy: Policy, h: History, c: Chain, height: nat)
    requires Inv(policy, h, c) && height in h.modifications
    ensures |c.states| > 1 && c.first <= height <= Top(c)
  {}

  /** Whether undoing the cached height brings back metadata of the height before. */
  predicate RestoresMetadata(db: Db)
    requires db.cached.Some? && db.cached.value in db.history.modifications
  {
    var reverse := db.history.modifications[db.cached.value];
    MetadataKey in reverse && reverse[MetadataKey].Insert? && reverse[MetadataKey].value.MetadataValue?
  }

  /**
   The cache is stepped back by one, the metadata is restored from history: they agree after a
   rollback exactly when there was metadata before the block, or the block was at height zero.
   */
  lemma RollbackConsistentIff(d: Description, db: Db, c: Chain)
    requires DbInv(d, db, c) && RollbackDb(db).Ok?
    ensures Consistent(RollbackDb(db).value) <==> RestoresMetadata(db) || db.cached == Some(0)
  {
    RollbackKeeps(d, db, c);
    HeightBelowTop(c);
    hide DbInv, RollbackDb, MetadataHeight, RestoresMetadata;
    RestoresIff(d, db, c);
    StoreAfterRollback(d, db, c);
  }

  lemma StoreAfterRollback(d: Description, db: Db, c: Chain)
    requires DbInv(d, db, c) && RollbackDb(db).Ok? && |c.states| > 1 && db.cached == Some(Top(c))
    requires DbInv(d, RollbackDb(db).value, Popped(c))
    ensures RollbackDb(db).value.history.store == StateAt(c, Top(c) - 1)
    ensures RollbackDb(db).value.cached == if Top(c) == 0 then None else Some(Top(c) - 1)
  {
    hide Inv, HeightsLinked, Rollback;
    InvStore(d.policy, RollbackDb(db).value.history, Popped(c));
  }

  lemma HeightBelowTop(c: Chain)
    requires HeightsLinked(c) && |c.states| > 1
    ensures MetadataHeight(StateAt(c, Top(c) - 1)) == None || MetadataHeight(StateAt(c, Top(c) - 1)) == Some(Top(c) - 1)
  {
    hide MetadataHeight;
  }

  lemma RestoresIff(d: Description, db: Db, c: Chain)
    requires DbInv(d, db, c) && |c.states| > 1 && db.cached == Some(Top(c)) && Top(c) in db.history.modifications
    ensures RestoresMetadata(db) <==> MetadataHeight(StateAt(c, Top(c) - 1)).Some?
  {
    var before, after := StateAt(c, Top(c) - 1), StateAt(c, Top(c));
    var reverse := db.history.modifications[Top(c)];
    assert Undoes(after, before, reverse);
    assert MetadataHeight(after) == Some(Top(c));
    HeightBelowTop(c);
    hide Inv;
    assert Get(before, MetadataKey) ==
      if MetadataKey in reverse then Outcome(reverse[MetadataKey]) else Get(after, MetadataKey);
  }
}
