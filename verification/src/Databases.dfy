/** The databases as objects: a store with history, and a database with a cached height on top. */
module Databases {
  import opened Wrappers
  import opened MachineInts
  import opened HistoricalStore
  import opened ChangeLists
  import opened DatabaseModel

  lemma NoSets()
    ensures Merged([]) == map[] && KeysDisjoint([])
  {}

  /** One more set: its keys clash with the batch exactly when they clash with a set before. */
  lemma DisjointNext(list: seq<Changes>, i: nat)
    requires i < |list| && KeysDisjoint(list[..i])
    ensures Merged(list[..i + 1]) == Merged(list[..i]) + list[i]
    ensures KeysDisjoint(list[..i + 1]) <==> list[i].Keys !! Merged(list[..i]).Keys
    ensures !KeysDisjoint(list[..i + 1]) ==> !KeysDisjoint(list)
  {
    assert list[..i + 1][..i] == list[..i];
    assert forall j :: 0 <= j <= i ==> list[..i + 1][j] == list[j];
    hide Merged;
    if list[i].Keys !! Merged(list[..i]).Keys {
      forall j | 0 <= j < i
        ensures list[j].Keys !! list[i].Keys
      {
        forall k | k in list[j]
          ensures k !in list[i]
        {
          assert k in list[..i][j];
          MergedMembers(list[..i], k);
        }
      }
    } else {
      var k :| k in list[i] && k in Merged(list[..i]);
      MergedMembers(list[..i], k);
      var j :| 0 <= j < i && k in list[..i][j];
      assert k in list[j] && k in list[..i + 1][j] && k in list[..i + 1][i];
    }
  }

  class HistoricalRocksDB {
    const policy: Policy
    var store: Store
    var modifications: map<nat, Changes>
    var duplicates: map<(Key, nat), Op>

    constructor (policy: Policy, history: History)
      ensures this.policy == policy && View() == history
    {
      this.policy := policy;
      store, modifications, duplicates := history.store, history.modifications, history.duplicates;
    }

    function View(): History
      reads this
    {
      History(store, modifications, duplicates)
    }

    /** Compares each change with what it replaces. */
    method ReverseHistoryChanges(changes: Changes) returns (reverse: Changes)
      ensures reverse == Reverse(store, changes)
    {
      reverse := map[];
      var rest := changes.Keys;
      while rest != {}
        invariant rest <= changes.Keys
        invariant forall k :: k in reverse <==> k in changes.Keys - rest && k in Reverse(store, changes)
        invariant forall k :: k in reverse ==> reverse[k] == Reverse(store, changes)[k]
      {
        var k :| k in rest;
        match (Get(store, k), changes[k]) {
          case (None, Remove) =>
          case (None, Insert(_)) =>
            reverse := reverse[k := Remove];
          case (Some(old_), Remove) =>
            reverse := reverse[k := Insert(old_)];
          case (Some(old_), Insert(new_)) =>
            if old_ != new_ {
              reverse := reverse[k := Insert(old_)];
            }
        }
        rest := rest - {k};
      }
      assert reverse.Keys == Reverse(store, changes).Keys;
    }

    /** Takes a height's reverse changes out of both history tables. */
    method TakeModifications(height: nat) returns (taken: Option<Changes>)
      modifies this`modifications, this`duplicates
      ensures View() == Forget(old(View()), height)
      ensures taken == if height in old(modifications) then Some(old(modifications)[height]) else None
    {
      if height in modifications {
        taken := Some(modifications[height]);
        duplicates := duplicates - Tagged(modifications[height], height).Keys;
        modifications := modifications - {height};
      } else {
        taken := None;
      }
    }

    method StoreModificationsHistory(height: nat, changes: Changes)
      modifies this`modifications, this`duplicates
      ensures View() ==
        if policy.NoRewind? then old(View())
        else Recorded(CleanedUp(policy, old(View()), height), height, Reverse(old(store), changes))
    {
      hide Reverse, Forget;
      if policy.NoRewind? {
        return;
      }
      var reverse := ReverseHistoryChanges(changes);
      if policy.RewindRange? {
        var _ := TakeModifications(Max(0, height - policy.size));
      }
      var _ := TakeModifications(height);
      modifications := modifications[height := reverse];
      duplicates := duplicates + Tagged(reverse, height);
    }

    /** Collects a list of change sets, later columns over earlier ones. */
    static method CollectColumns(list: seq<Changes>) returns (all: Changes)
      ensures all == Collected(list)
    {
      all := map[];
      for i := 0 to |list|
        invariant all == Collected(list[..i])
      {
        assert list[..i + 1][..i] == list[..i];
        all := Overlaid(all, list[i]);
      }
      assert list[..|list|] == list;
    }

    /** Puts a list of change sets into one batch, unless a key is written twice. */
    static method PopulateBatch(list: seq<Changes>) returns (r: Result<Changes, HistoryError>)
      ensures r == if KeysDisjoint(list) then Ok(Merged(list)) else Err(ConflictingChanges)
    {
      hide Merged;
      var batch := map[];
      NoSets();
      assert list[..0] == [];
      for i := 0 to |list|
        invariant KeysDisjoint(list[..i]) && batch == Merged(list[..i])
      {
        DisjointNext(list, i);
        var rest := list[i].Keys;
        while rest != {}
          invariant rest <= list[i].Keys
          invariant batch.Keys == Merged(list[..i]).Keys + (list[i].Keys - rest)
          invariant forall k :: k in batch ==>
            batch[k] == if k in list[i] && k !in rest then list[i][k] else Merged(list[..i])[k]
          invariant (list[i].Keys - rest) !! Merged(list[..i]).Keys
        {
          var k :| k in rest;
          if k in batch {
            return Err(ConflictingChanges);
          }
          batch := batch[k := list[i][k]];
          rest := rest - {k};
        }
        assert batch == Merged(list[..i]) + list[i];
      }
      assert list[..|list|] == list;
      r := Ok(batch);
    }

    /** Commits a list of change sets, with history for commits that have a height. */
    method CommitChanges(height: Option<nat>, list: seq<Changes>) returns (r: Result<(), HistoryError>)
      modifies this
      ensures match CommitList(policy, old(View()), height, list)
        case Ok(h) => r == Ok(()) && View() == h
        case Err(e) => r == Err(e) && View() == old(View())
    {
      hide Reverse, Recorded, CleanedUp, Apply, Collected, Merged, KeysDisjoint;
      var changes;
      if height.Some? && !policy.NoRewind? {
        changes := CollectColumns(list);
        StoreModificationsHistory(height.value, changes);
      } else {
        var batch := PopulateBatch(list);
        if batch.Err? {
          return Err(batch.error);
        }
        changes := batch.value;
      }
      store := Apply(store, changes);
      r := Ok(());
    }

    method RollbackBlockTo(height: nat) returns (r: Result<(), HistoryError>)
      modifies this
      ensures match Rollback(old(View()), height)
        case Ok(h) => r == Ok(()) && View() == h
        case Err(e) => r == Err(e) && View() == old(View())
    {
      hide Forget, Apply;
      if height !in modifications {
        return Err(NotFound);
      }
      var changes := TakeModifications(height);
      store := Apply(store, changes.value);
      r := Ok(());
    }
  }

  class Database {
    const description: Description
    const data: HistoricalRocksDB
    var height: Option<nat>

    /** The store follows the rewind policy of the database. */
    ghost predicate Valid() { data.policy == description.policy }

    function View(): Db
      reads this, data
    {
      Db(data.View(), height)
    }

    /** Opens a store; the cache starts with what the metadata says. */
    constructor (description: Description, data: HistoricalRocksDB)
      requires data.policy == description.policy
      ensures this.description == description && this.data == data && Valid()
      ensures View() == OpenDb(data.View())
    {
      this.description := description;
      this.data := data;
      height := MetadataHeight(data.store);
    }

    method LatestHeightFromMetadata() returns (r: Option<nat>)
      ensures r == MetadataHeight(View().history.store)
    {
      r := MetadataHeight(data.store);
    }

    /** Commits change sets that carry the given heights; a refused commit changes nothing. */
    method CommitChangesWithHeightUpdate(newHeights: seq<nat>, list: seq<Changes>)
      returns (r: Result<(), DatabaseError>)
      requires Valid()
      modifies this, data
      ensures match CommitDbList(description, old(View()), newHeights, list)
        case Ok(db) => r == Ok(()) && View() == db
        case Err(e) => r == Err(e) && View() == old(View())
    {
      hide CommitList, UpdatedMetadata;
      if |newHeights| > 1 {
        return Err(MultipleHeightsInCommit(newHeights));
      }
      var newHeight := if |newHeights| == 1 then Some(newHeights[0]) else None;
      match (height, newHeight) {
        case (None, _) =>
        case (Some(prev), Some(next)) =>
          if prev == description.maxHeight {
            return Err(FailedToAdvanceHeight);
          }
          if prev + 1 != next {
            return Err(HeightsAreNotLinked(prev, next));
          }
        case (Some(prev), None) =>
          return Err(NewHeightIsNotSet(prev));
      }
      var all := list;
      if newHeight.Some? {
        var metadata := UpdatedMetadata(description, Get(data.store, MetadataKey), newHeight.value);
        all := all + [map[MetadataKey := Insert(MetadataValue(metadata))]];
      }
      var committed := data.CommitChanges(newHeight, all);
      if committed.Err? {
        return Err(Storage(committed.error));
      }
      if newHeight.Some? {
        height := newHeight;
      }
      r := Ok(());
    }

    method RollbackLastBlock() returns (r: Result<(), DatabaseError>)
      modifies this, data
      ensures match RollbackDb(old(View()))
        case Ok(db) => r == Ok(()) && View() == db
        case Err(e) => r == Err(e) && View() == old(View())
    {
      hide Rollback;
      if height.None? {
        return Err(NoHeightToRollback);
      }
      var undone := data.RollbackBlockTo(height.value);
      if undone.Err? {
        return Err(Storage(undone.error));
      }
      height := if height.value == 0 then None else Some(height.value - 1);
      r := Ok(());
    }
  }
}
