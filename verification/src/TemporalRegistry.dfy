/**
 The rolling registry: for each keyspace the values by key, the time each key was written, the
 reverse index from values to keys, and the evictor's last committed key.
 */
module TemporalRegistry {
  import opened Wrappers
  import opened RegistryKeys
  import opened Blocks

  datatype Table = Table(
    values: map<WritableKey, Value>,
    times: map<WritableKey, Time>,
    index: map<Value, WritableKey>,
    latest: Option<WritableKey>)

  type Tables = PerKeyspace<Table>

  /** Writing a key unindexes the value it held, indexes the new one and stamps the key. */
  function Write(t: Table, key: WritableKey, value: Value, now: Time): (r: Table) {
    var unindexed := if key in t.values then t.index - {t.values[key]} else t.index;
    t.(values := t.values[key := value],
       times := t.times[key := now],
       index := unindexed[value := key])
  }

  function WriteAll(t: Table, regs: seq<(WritableKey, Value)>, now: Time): (r: Table)
    decreases |regs|
  {
    if regs == [] then t else WriteAll(Write(t, regs[0].0, regs[0].1, now), regs[1..], now)
  }

  // ---------------------------------------------------------------------------------------
  // Invariant of every reachable registry
  // ---------------------------------------------------------------------------------------

  /**
   An indexed value's key holds that value; exactly the written keys are stamped, never later
   than the last block; and the default value is never registered.
   */
  ghost predicate Sound(t: Table, default: Value, lastBlock: Time) {
    && (forall v :: v in t.index ==> t.index[v] in t.values && t.values[t.index[v]] == v)
    && t.times.Keys == t.values.Keys
    && (forall k :: k in t.times ==> t.times[k] <= lastBlock)
    && (forall k :: k in t.values ==> t.values[k] != default)
  }

  lemma WriteKeepsSound(t: Table, default: Value, key: WritableKey, value: Value, last: Time, now: Time)
    requires Sound(t, default, last) && last <= now && value != default
    ensures Sound(Write(t, key, value, now), default, now)
  {
    var r := Write(t, key, value, now);
    assert forall v :: v in r.index && v != value ==> v in t.index && t.index[v] != key;
  }

  ghost predicate NoDefault(regs: seq<(WritableKey, Value)>, default: Value) {
    forall i :: 0 <= i < |regs| ==> regs[i].1 != default
  }

  lemma {:induction false} WriteAllKeepsSound(
      t: Table, default: Value, regs: seq<(WritableKey, Value)>, last: Time, now: Time)
    requires Sound(t, default, last) && last <= now && NoDefault(regs, default)
    ensures Sound(WriteAll(t, regs, now), default, now)
    decreases |regs|
  {
    if regs != [] {
      WriteKeepsSound(t, default, regs[0].0, regs[0].1, last, now);
      WriteAllKeepsSound(Write(t, regs[0].0, regs[0].1, now), default, regs[1..], now, now);
    }
  }

  // ---------------------------------------------------------------------------------------
  // Draining a hash map of changes
  // ---------------------------------------------------------------------------------------

  /** `regs` lists the entries of `changes`, each once, in some order. */
  ghost predicate Drains(regs: seq<(WritableKey, Value)>, changes: map<WritableKey, Value>) {
    && (forall i :: 0 <= i < |regs| ==> regs[i].0 in changes && changes[regs[i].0] == regs[i].1)
    && (forall i, j :: 0 <= i < j < |regs| ==> regs[i].0 != regs[j].0)
    && (forall k :: k in changes ==> exists i :: 0 <= i < |regs| && regs[i].0 == k)
  }

  ghost function Stamps(changes: map<WritableKey, Value>, now: Time): map<WritableKey, Time> {
    map k | k in changes :: now
  }

  lemma DrainTail(regs: seq<(WritableKey, Value)>, changes: map<WritableKey, Value>)
    requires Drains(regs, changes) && regs != []
    ensures Drains(regs[1..], changes - {regs[0].0})
  {
    var rest := changes - {regs[0].0};
    forall k | k in rest
      ensures exists i :: 0 <= i < |regs[1..]| && regs[1..][i].0 == k
    {
      var i :| 0 <= i < |regs| && regs[i].0 == k;
      assert regs[1..][i - 1].0 == k;
    }
  }

  lemma {:induction false} WriteAllKeepsLatest(t: Table, regs: seq<(WritableKey, Value)>, now: Time)
    ensures WriteAll(t, regs, now).latest == t.latest
    decreases |regs|
  {
    if regs != [] {
      WriteAllKeepsLatest(Write(t, regs[0].0, regs[0].1, now), regs[1..], now);
    }
  }

  lemma MergeOneMore<V>(m: map<WritableKey, V>, changes: map<WritableKey, V>, k: WritableKey)
    requires k in changes
    ensures m[k := changes[k]] + (changes - {k}) == m + changes
  {}

  /** Whatever the order, draining a set of changes merges it into the values and stamps its keys. */
  lemma {:induction false} WriteAllMerges(
      t: Table, regs: seq<(WritableKey, Value)>, changes: map<WritableKey, Value>, now: Time)
    requires Drains(regs, changes)
    ensures WriteAll(t, regs, now).values == t.values + changes
    ensures WriteAll(t, regs, now).times == t.times + Stamps(changes, now)
    decreases |regs|
  {
    if regs == [] {
      assert changes == map[];
    } else {
      var key := regs[0].0;
      DrainTail(regs, changes);
      hide Drains;
      WriteAllMerges(Write(t, key, regs[0].1, now), regs[1..], changes - {key}, now);
      MergeOneMore(t.values, changes, key);
      MergeOneMore(t.times, Stamps(changes, now), key);
      assert Stamps(changes, now) - {key} == Stamps(changes - {key}, now);
    }
  }

  /** The value and time tables do not depend on the order a hash map is drained in. */
  lemma DrainOrderIrrelevant(
      t: Table, a: seq<(WritableKey, Value)>, b: seq<(WritableKey, Value)>,
      changes: map<WritableKey, Value>, now: Time)
    requires Drains(a, changes) && Drains(b, changes)
    ensures WriteAll(t, a, now).values == WriteAll(t, b, now).values
    ensures WriteAll(t, a, now).times == WriteAll(t, b, now).times
  {
    WriteAllMerges(t, a, changes, now);
    WriteAllMerges(t, b, changes, now);
  }

  // ---------------------------------------------------------------------------------------
  // What two parties share, and what they do not
  // ---------------------------------------------------------------------------------------

  /** Compressor and decompressor agree on everything but the evictor's bookkeeping. */
  predicate Agree(a: Table, b: Table) {
    a.values == b.values && a.times == b.times && a.index == b.index
  }

  lemma {:induction false} WriteAllKeepsAgreement(
      a: Table, b: Table, regs: seq<(WritableKey, Value)>, now: Time)
    requires Agree(a, b)
    ensures Agree(WriteAll(a, regs, now), WriteAll(b, regs, now))
    decreases |regs|
  {
    if regs != [] {
      WriteAllKeepsAgreement(
        Write(a, regs[0].0, regs[0].1, now), Write(b, regs[0].0, regs[0].1, now), regs[1..], now);
    }
  }

  /** Every stored value can be found through the index. */
  ghost predicate Complete(t: Table) {
    forall k :: k in t.values ==> t.values[k] in t.index
  }

  /** Writing the key unindexes a value that another key still holds. */
  ghost predicate Loses(t: Table, key: WritableKey, value: Value) {
    && key in t.values && t.values[key] != value
    && exists other :: other != key && other in t.values && t.values[other] == t.values[key]
  }

  /**
   A write loses a stored value from the index exactly when the value it replaces also lives
   under another key: the index entry removed may be the other key's.
   */
  lemma WriteKeepsCompleteIff(t: Table, key: WritableKey, value: Value, now: Time)
    requires Complete(t)
    ensures Complete(Write(t, key, value, now)) <==> !Loses(t, key, value)
  {
    var r := Write(t, key, value, now);
    if key in t.values && t.values[key] != value {
      var evicted := t.values[key];
      assert evicted !in r.index;
      if other :| other != key && other in t.values && t.values[other] == evicted {
        assert r.values[other] == evicted;
      }
    }
  }

  // ---------------------------------------------------------------------------------------
  // The store
  // ---------------------------------------------------------------------------------------

  class RegistryDb {
    var tables: Tables

    constructor (tables: Tables)
      ensures this.tables == tables
    {
      this.tables := tables;
    }

    method WriteRegistry(ks: Keyspace, key: WritableKey, value: Value, now: Time)
      modifies this
      ensures tables == Set(old(tables), ks, Write(old(tables).Get(ks), key, value, now))
    {
      var t := tables.Get(ks);
      var oldValue := if key in t.values then Some(t.values[key]) else None;
      t := t.(values := t.values[key := value]);
      if oldValue.Some? {
        t := t.(index := t.index - {oldValue.value});
      }
      t := t.(index := t.index[value := key]);
      t := t.(times := t.times[key := now]);
      tables := Set(tables, ks, t);
    }

    method SetLatestAssignedKey(ks: Keyspace, key: WritableKey)
      modifies this
      ensures tables == Set(old(tables), ks, old(tables).Get(ks).(latest := Some(key)))
    {
      tables := Set(tables, ks, tables.Get(ks).(latest := Some(key)));
    }

    /** Writes one keyspace's registrations in the order they are listed. */
    method WriteTable(ks: Keyspace, regs: seq<(WritableKey, Value)>, now: Time)
      modifies this
      ensures tables == Set(old(tables), ks, WriteAll(old(tables).Get(ks), regs, now))
    {
      ghost var t0 := tables.Get(ks);
      SetSame(tables, ks);
      for i := 0 to |regs|
        invariant tables == Set(old(tables), ks, tables.Get(ks))
        invariant WriteAll(tables.Get(ks), regs[i..], now) == WriteAll(t0, regs, now)
      {
        WriteRegistry(ks, regs[i].0, regs[i].1, now);
        assert regs[i..][1..] == regs[i + 1..];
      }
    }

    /** Registrations of a whole block, keyspace by keyspace. */
    method WriteToRegistry(regs: Registrations, now: Time)
      modifies this
      ensures forall ks :: tables.Get(ks) == WriteAll(old(tables).Get(ks), regs.Get(ks), now)
    {
      WriteTable(Address, regs.address, now);
      WriteTable(AssetId, regs.assetId, now);
      WriteTable(ContractId, regs.contractId, now);
      WriteTable(ScriptCode, regs.scriptCode, now);
      WriteTable(PredicateCode, regs.predicateCode, now);
    }
  }
}
