/**
 A key-value store that can be rolled back block by block and read as of an earlier height. For
 every committed height it keeps the changes that would undo it, once per height and once per
 key and height.
 */
module HistoricalStore {
  import opened Wrappers
  import opened MachineInts

  datatype Metadata =
    | V1(version: nat, height: nat)
    | V2(version: nat, height: nat, indexation: set<nat>)

  datatype Key = MetadataKey | DataKey(column: nat, id: nat)
  datatype Column = MetadataColumn | DataColumn(column: nat)
  datatype Value = MetadataValue(metadata: Metadata) | DataValue(bytes: seq<nat>)
  datatype Op = Insert(value: Value) | Remove

  function ColumnOf(k: Key): (r: Column) {
    match k
    case MetadataKey => MetadataColumn
    case DataKey(column, _) => DataColumn(column)
  }

  type Store = map<Key, Value>
  type Changes = map<Key, Op>

  datatype Policy = NoRewind | RewindFullRange | RewindRange(size: nat)

  predicate ValidPolicy(p: Policy) { p.RewindRange? ==> p.size > 0 }

  /** The store, the reverse changes by height, and the same by key and height. */
  datatype History = History(
    store: Store, modifications: map<nat, Changes>, duplicates: map<(Key, nat), Op>)

  datatype HistoryError = NotFound | NoHistoryForRequestedHeight | ConflictingChanges

  function Get(store: Store, k: Key): (r: Option<Value>) {
    if k in store then Some(store[k]) else None
  }

  function Outcome(op: Op): (r: Option<Value>) {
    match op
    case Insert(v) => Some(v)
    case Remove => None
  }

  function Apply(store: Store, changes: Changes): (r: Store)
    ensures forall k :: Get(r, k) == if k in changes then Outcome(changes[k]) else Get(store, k)
  {
    map k | k in store.Keys + changes.Keys && (k in changes ==> changes[k].Insert?)
      :: if k in changes then changes[k].value else store[k]
  }

  /** The changes that would bring back what `changes` replaces; what stays the same is left out. */
  function Reverse(store: Store, changes: Changes): (r: Changes) {
    map k | k in changes && Get(store, k) != Outcome(changes[k])
      :: if k in store then Insert(store[k]) else Remove
  }

  function Tagged(changes: Changes, height: nat): (r: map<(Key, nat), Op>)
    ensures forall k, h :: (k, h) in r <==> k in changes && h == height
    ensures forall k :: k in changes ==> r[(k, height)] == changes[k]
  {
    map kh | kh in (set k | k in changes :: (k, height)) :: changes[kh.0]
  }

  /** Forgets a height, in both tables. */
  function Forget(h: History, height: nat): (r: History) {
    if height in h.modifications then
      h.(modifications := h.modifications - {height},
         duplicates := h.duplicates - Tagged(h.modifications[height], height).Keys)
    else h
  }

  /** What a commit forgets to stay within the rewind window. */
  function CleanedUp(policy: Policy, h: History, height: nat): (r: History) {
    if policy.RewindRange? then Forget(h, Max(0, height - policy.size)) else h
  }

  function Recorded(h: History, height: nat, reverse: Changes): (r: History) {
    var h1 := Forget(h, height);
    h1.(modifications := h1.modifications[height := reverse],
        duplicates := h1.duplicates + Tagged(reverse, height))
  }

  /** `commit_changes`: history is kept for commits that have a height, if the policy asks for it. */
  function Commit(policy: Policy, h: History, height: Option<nat>, changes: Changes): (r: History) {
    var h1 := if height.Some? && !policy.NoRewind?
              then Recorded(CleanedUp(policy, h, height.value), height.value, Reverse(h.store, changes))
              else h;
    h1.(store := Apply(h.store, changes))
  }

  /** `rollback_block_to`: undoes the block at `height`, if its reverse changes are still there. */
  function Rollback(h: History, height: nat): (r: Result<History, HistoryError>) {
    if height in h.modifications then
      Ok(Forget(h, height).(store := Apply(h.store, h.modifications[height])))
    else
      Err(NotFound)
  }

  /** Whether the state at a height can be read. */
  predicate ViewExists(h: History, height: nat) {
    SatU64(height + 1) in h.modifications || height in h.modifications
  }

  /** The value of a key just before the nearest modification from `from` on, or its current value. */
  ghost function ReadFrom(h: History, from: nat, k: Key): (r: Option<Value>) {
    if exists g :: g >= from && (k, g) in h.duplicates then
      Outcome(h.duplicates[(k, Nearest(h, from, k))])
    else
      Get(h.store, k)
  }

  ghost predicate IsNearest(h: History, from: nat, k: Key, g: nat) {
    g >= from && (k, g) in h.duplicates && forall i :: from <= i < g ==> (k, i) !in h.duplicates
  }

  ghost function Nearest(h: History, from: nat, k: Key): (g: nat)
    requires exists g :: g >= from && (k, g) in h.duplicates
    ensures IsNearest(h, from, k, g)
  {
    var g: nat :| g >= from && (k, g) in h.duplicates;
    NearestExists(h, from, k, g);
    var n: nat :| IsNearest(h, from, k, n);
    n
  }

  lemma {:induction false} NearestExists(h: History, from: nat, k: Key, g: nat)
    requires g >= from && (k, g) in h.duplicates
    ensures exists n: nat :: IsNearest(h, from, k, n)
    decreases g
  {
    if i :| from <= i < g && (k, i) in h.duplicates {
      NearestExists(h, from, k, i);
    } else {
      assert IsNearest(h, from, k, g);
    }
  }

  /** Reading the state as of `height`. */
  ghost function ReadAt(h: History, height: nat, k: Key): (r: Result<Option<Value>, HistoryError>) {
    if ViewExists(h, height) then Ok(ReadFrom(h, SatU64(height + 1), k))
    else Err(NoHistoryForRequestedHeight)
  }
}
