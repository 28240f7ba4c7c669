/**
 Lists of change sets, as a block is committed with: a store that keeps history collects them
 column by column, any other store writes them all and refuses two writes to one key.
 */
module ChangeLists {
  import opened Wrappers
  import opened HistoricalStore

  function Columns(changes: Changes): (r: set<Column>) {
    set k | k in changes :: ColumnOf(k)
  }

  /** A column of the later set replaces that of the earlier one as a whole. */
  function Overlaid(earlier: Changes, later: Changes): (r: Changes) {
    map k | k in earlier.Keys + later.Keys && (k in later || ColumnOf(k) !in Columns(later))
      :: if k in later then later[k] else earlier[k]
  }

  function Collected(list: seq<Changes>): (r: Changes) {
    if list == [] then map[] else Overlaid(Collected(list[..|list| - 1]), list[|list| - 1])
  }

  function Merged(list: seq<Changes>): (r: Changes) {
    if list == [] then map[] else Merged(list[..|list| - 1]) + list[|list| - 1]
  }

  predicate KeysDisjoint(list: seq<Changes>) {
    forall i, j :: 0 <= i < j < |list| ==> list[i].Keys !! list[j].Keys
  }

  predicate ColumnsDisjoint(list: seq<Changes>) {
    forall i, j :: 0 <= i < j < |list| ==> Columns(list[i]) !! Columns(list[j])
  }

  /** `commit_changes` of a list of change sets. */
  function CommitList(policy: Policy, h: History, height: Option<nat>, list: seq<Changes>)
    : (r: Result<History, HistoryError>)
  {
    if height.Some? && !policy.NoRewind? then Ok(Commit(policy, h, height, Collected(list)))
    else if KeysDisjoint(list) then Ok(Commit(policy, h, height, Merged(list)))
    else Err(ConflictingChanges)
  }

  // ---------------------------------------------------------------------------------------
  // What takes effect
  // ---------------------------------------------------------------------------------------

  lemma {:induction false} MergedMembers(list: seq<Changes>, k: Key)
    ensures k in Merged(list) <==> exists i :: 0 <= i < |list| && k in list[i]
    decreases |list|
  {
    if list != [] {
      var front := list[..|list| - 1];
      MergedMembers(front, k);
      if k in Merged(front) {
        var i :| 0 <= i < |front| && k in front[i];
        assert k in list[i];
      }
      if i :| 0 <= i < |list| && k in list[i] && i < |front| {
        assert k in front[i];
      }
    }
  }

  /** With no key written twice, every change is in the merged set as it was given. */
  lemma {:induction false} MergedKeeps(list: seq<Changes>, i: nat, k: Key)
    requires KeysDisjoint(list) && i < |list| && k in list[i]
    ensures k in Merged(list) && Merged(list)[k] == list[i][k]
    decreases |list|
  {
    if i < |list| - 1 {
      assert list[i].Keys !! list[|list| - 1].Keys;
      MergedKeeps(list[..|list| - 1], i, k);
    }
  }

  /** What is collected of a column is what the last set that has the column says. */
  lemma {:induction false} CollectedLast(list: seq<Changes>, i: nat, k: Key)
    requires i < |list| && ColumnOf(k) in Columns(list[i])
    requires forall j :: i < j < |list| ==> ColumnOf(k) !in Columns(list[j])
    ensures k in Collected(list) <==> k in list[i]
    ensures k in list[i] ==> Collected(list)[k] == list[i][k]
    decreases |list|
  {
    if i < |list| - 1 {
      var front := list[..|list| - 1];
      assert forall j :: i < j < |front| ==> front[j] == list[j];
      CollectedLast(front, i, k);
    }
  }

  lemma {:induction false} CollectedMembers(list: seq<Changes>, k: Key)
    requires k in Collected(list)
    ensures exists i :: 0 <= i < |list| && k in list[i]
    decreases |list|
  {
    var front := list[..|list| - 1];
    if k in list[|list| - 1] {
    } else {
      CollectedMembers(front, k);
      var i :| 0 <= i < |front| && k in front[i];
      assert k in list[i];
    }
  }

  /** The last set that has a column. */
  lemma {:induction false} LastWith(list: seq<Changes>, i: nat, column: Column) returns (last: nat)
    requires i < |list| && column in Columns(list[i])
    ensures i <= last < |list| && column in Columns(list[last])
    ensures forall j :: last < j < |list| ==> column !in Columns(list[j])
    decreases |list| - i
  {
    last := i;
    if j :| i < j < |list| && column in Columns(list[j]) {
      last := LastWith(list, j, column);
    }
  }

  /** Every change of every set is collected. */
  ghost predicate AllCollected(list: seq<Changes>) {
    forall i, k :: 0 <= i < |list| && k in list[i] ==> k in Collected(list) && Collected(list)[k] == list[i][k]
  }

  lemma DisjointCollects(list: seq<Changes>, i: nat, k: Key)
    requires ColumnsDisjoint(list) && i < |list| && k in list[i]
    ensures k in Collected(list) && Collected(list)[k] == list[i][k]
  {
    assert ColumnOf(k) in Columns(list[i]);
    assert forall j :: i < j < |list| ==> Columns(list[i]) !! Columns(list[j]);
    hide Collected;
    CollectedLast(list, i, k);
  }

  lemma SharedColumnLoses(list: seq<Changes>, i: nat, j: nat, column: Column)
    requires KeysDisjoint(list) && i < j < |list| && column in Columns(list[i]) && column in Columns(list[j])
    ensures !AllCollected(list)
  {
    var last := LastWith(list, j, column);
    var k :| k in list[i] && ColumnOf(k) == column;
    assert list[i].Keys !! list[last].Keys;
    hide Collected;
    CollectedLast(list, last, k);
  }

  /**
   Of sets that do not write one key twice, every change takes effect under a policy with
   history exactly when no two sets share a column.
   */
  lemma CollectsAllIff(list: seq<Changes>)
    requires KeysDisjoint(list)
    ensures AllCollected(list) <==> ColumnsDisjoint(list)
    ensures Collected(list) == Merged(list) <==> ColumnsDisjoint(list)
  {
    hide Collected, Merged;
    if ColumnsDisjoint(list) {
      forall i, k | 0 <= i < |list| && k in list[i]
        ensures k in Collected(list) && Collected(list)[k] == list[i][k]
      {
        DisjointCollects(list, i, k);
      }
      CollectedIsMerged(list);
    } else {
      var i, j, column :| 0 <= i < j < |list| && column in Columns(list[i]) && column in Columns(list[j]);
      SharedColumnLoses(list, i, j, column);
      if Collected(list) == Merged(list) {
        MergedIsAll(list);
        assert false;
      }
    }
  }

  lemma MergedIsAll(list: seq<Changes>)
    requires KeysDisjoint(list) && Collected(list) == Merged(list)
    ensures AllCollected(list)
  {
    hide Collected, Merged, KeysDisjoint;
    forall i, k | 0 <= i < |list| && k in list[i]
      ensures k in Collected(list) && Collected(list)[k] == list[i][k]
    {
      MergedKeeps(list, i, k);
    }
  }

  lemma CollectedIsMerged(list: seq<Changes>)
    requires KeysDisjoint(list) && AllCollected(list)
    ensures Collected(list) == Merged(list)
  {
    hide Collected, Merged, KeysDisjoint;
    forall k
      ensures k in Collected(list) <==> k in Merged(list)
      ensures k in Collected(list) ==> Collected(list)[k] == Merged(list)[k]
    {
      MergedMembers(list, k);
      if k in Collected(list) {
        CollectedMembers(list, k);
      }
      if i :| 0 <= i < |list| && k in list[i] {
        MergedKeeps(list, i, k);
      }
    }
  }

  /** Two sets with different keys in one column: with history only the later one is written. */
  lemma SharedColumn(h: History, height: nat, a: Value, b: Value)
    requires DataKey(0, 0) !in h.store
    ensures var list: seq<Changes> := [map[DataKey(0, 0) := Insert(a)], map[DataKey(0, 1) := Insert(b)]];
      && CommitList(RewindFullRange, h, Some(height), list).Ok?
      && CommitList(NoRewind, h, Some(height), list).Ok?
      && Get(CommitList(RewindFullRange, h, Some(height), list).value.store, DataKey(0, 0)) == None
      && Get(CommitList(NoRewind, h, Some(height), list).value.store, DataKey(0, 0)) == Some(a)
  {
    var list: seq<Changes> := [map[DataKey(0, 0) := Insert(a)], map[DataKey(0, 1) := Insert(b)]];
    assert ColumnOf(DataKey(0, 1)) in Columns(list[1]) by { assert DataKey(0, 1) in list[1]; }
    assert ColumnOf(DataKey(0, 0)) == ColumnOf(DataKey(0, 1));
    CollectedLast(list, 1, DataKey(0, 0));
    MergedKeeps(list, 0, DataKey(0, 0));
    hide Collected, Merged, Reverse, Recorded, CleanedUp;
  }
}
