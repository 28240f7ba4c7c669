/** The compressor: two contexts updated value by value, then committed to the registry. */
module Compressor {
  import opened Wrappers
  import opened RegistryKeys
  import opened Blocks
  import opened TemporalRegistry
  import opened EvictionPolicy
  import opened Compression

  /** First pass: collects the keys the block reuses and discards everything else. */
  class PrepareCtx {
    const env: Env
    const db: RegistryDb
    var accessedKeys: Kept

    constructor (env: Env, db: RegistryDb)
      ensures this.env == env && this.db == db && accessedKeys == NothingKept()
    {
      this.env := env;
      this.db := db;
      accessedKeys := NothingKept();
    }

    /** Records the key of a value; on an error the context is of no further use. */
    method CompressWith(f: Field) returns (r: Result<(), Error>)
      modifies this
      ensures r == Discard(PrepareField(db.tables, env, old(accessedKeys), f))
      ensures r.Ok? ==> PrepareField(db.tables, env, old(accessedKeys), f) == Ok(accessedKeys)
    {
      if f.Utxo? || f.value == DefaultOf(f.ks) {
        SetSame(accessedKeys, if f.Registry? then f.ks else Address);
        return Ok(());
      }
      var t := db.tables.Get(f.ks);
      SetSame(accessedKeys, f.ks);
      if f.value in t.index {
        var found := t.index[f.value];
        if found !in accessedKeys.Get(f.ks) {
          if found !in t.times {
            return Err(MissingTimestamp);
          }
          var accessible := IsTimestampAccessible(env.retention, env.now, t.times[found]);
          if accessible.Err? {
            return Err(accessible.error);
          }
          if accessible.value {
            accessedKeys := Set(accessedKeys, f.ks, accessedKeys.Get(f.ks) + {found});
          }
        }
      }
      r := Ok(());
    }

    method CompressBlock(txs: seq<Transaction>) returns (r: Result<(), Error>)
      modifies this
      ensures r == Discard(PrepareBlock(db.tables, env, old(accessedKeys), txs))
      ensures r.Ok? ==> PrepareBlock(db.tables, env, old(accessedKeys), txs) == Ok(accessedKeys)
    {
      for i := 0 to |txs|
        invariant PrepareBlock(db.tables, env, old(accessedKeys), txs)
               == PrepareBlock(db.tables, env, accessedKeys, txs[i..])
      {
        var fields := txs[i].fields;
        ghost var entry := accessedKeys;
        for j := 0 to |fields|
          invariant PrepareFields(db.tables, env, entry, fields)
                 == PrepareFields(db.tables, env, accessedKeys, fields[j..])
        {
          var step := CompressWith(fields[j]);
          if step.Err? {
            return step;
          }
          assert fields[j..][1..] == fields[j + 1..];
        }
        assert txs[i..][1..] == txs[i + 1..];
      }
      r := Ok(());
    }
  }

  function Discard<T>(r: Result<T, Error>): Result<(), Error> {
    match r
    case Ok(_) => Ok(())
    case Err(e) => Err(e)
  }

  /** One keyspace's evictor, its changes, and the reverse lookup into them. */
  datatype CompressCtxKeyspace = CompressCtxKeyspace(
    evictor: CacheEvictor, changes: map<WritableKey, Value>, changesLookup: map<Value, WritableKey>)

  ghost function WorkOf(space: CompressCtxKeyspace): Work
    reads space.evictor
  {
    Work(space.evictor.keepKeys, space.evictor.nextKey, space.changes, space.changesLookup)
  }

  /** Second pass: replaces values by keys. */
  class CompressCtx {
    const env: Env
    const db: RegistryDb
    var spaces: PerKeyspace<CompressCtxKeyspace>

    ghost function Evictors(): set<CacheEvictor>
      reads this
    {
      {spaces.address.evictor, spaces.assetId.evictor, spaces.contractId.evictor,
       spaces.scriptCode.evictor, spaces.predicateCode.evictor}
    }

    /** Each keyspace has an evictor of its own. */
    ghost predicate Valid()
      reads this
    {
      forall a: Keyspace, b: Keyspace :: a != b ==> spaces.Get(a).evictor != spaces.Get(b).evictor
    }

    ghost function State(): Works
      reads this, Evictors()
    {
      PerKeyspace(WorkOf(spaces.address), WorkOf(spaces.assetId), WorkOf(spaces.contractId),
                  WorkOf(spaces.scriptCode), WorkOf(spaces.predicateCode))
    }

    /** Takes over the keys collected by the first pass. */
    constructor FromPrepared(prepared: PrepareCtx)
      ensures env == prepared.env && db == prepared.db
      ensures Valid() && fresh(Evictors())
      ensures State() == StartWorks(db.tables, prepared.accessedKeys)
    {
      hide StartKey;
      var kept, tables := prepared.accessedKeys, prepared.db.tables;
      var address := new CacheEvictor.NewFromDb(tables.address.latest, kept.address);
      var assetId := new CacheEvictor.NewFromDb(tables.assetId.latest, kept.assetId);
      var contractId := new CacheEvictor.NewFromDb(tables.contractId.latest, kept.contractId);
      var scriptCode := new CacheEvictor.NewFromDb(tables.scriptCode.latest, kept.scriptCode);
      var predicateCode := new CacheEvictor.NewFromDb(tables.predicateCode.latest, kept.predicateCode);
      env := prepared.env;
      db := prepared.db;
      spaces := PerKeyspace(
        CompressCtxKeyspace(address, map[], map[]),
        CompressCtxKeyspace(assetId, map[], map[]),
        CompressCtxKeyspace(contractId, map[], map[]),
        CompressCtxKeyspace(scriptCode, map[], map[]),
        CompressCtxKeyspace(predicateCode, map[], map[]));
      new;
      ghost var start := StartWorks(tables, kept);
      assert WorkOf(spaces.address) == start.Get(Address) && WorkOf(spaces.assetId) == start.Get(AssetId);
      assert WorkOf(spaces.contractId) == start.Get(ContractId) && WorkOf(spaces.scriptCode) == start.Get(ScriptCode);
      assert WorkOf(spaces.predicateCode) == start.Get(PredicateCode);
      hide WorkOf, StartWorks;
    }

    method CompressWith(f: Field) returns (r: Result<CompressedField, Error>)
      requires Valid()
      modifies this, Evictors()
      ensures Valid() && Evictors() == old(Evictors())
      ensures r == First(CompressField(db.tables, env, old(State()), f))
      ensures r.Ok? ==> State() == CompressField(db.tables, env, old(State()), f).value.1
    {
      match f
      case Utxo(id) =>
        if id in env.pointers {
          return Ok(Pointer(env.pointers[id]));
        } else {
          return Err(UtxoNotFound);
        }
      case Registry(ks, value) =>
        SetSame(State(), ks);
        if value == DefaultOf(ks) {
          return Ok(Key(ks, DEFAULT_VALUE));
        }
        var space := spaces.Get(ks);
        assert State().Get(ks) == WorkOf(space);
        if value in space.changesLookup {
          return Ok(Key(ks, space.changesLookup[value]));
        }
        var t := db.tables.Get(ks);
        if value in t.index {
          var found := t.index[value];
          if found !in t.times {
            return Err(MissingTimestamp);
          }
          var accessible := IsTimestampAccessible(env.retention, env.now, t.times[found]);
          if accessible.Err? {
            return Err(accessible.error);
          }
          if accessible.value {
            return Ok(Key(ks, found));
          }
        }
        var key := Assign(ks, value);
        r := if key.Ok? then Ok(Key(ks, key.value)) else Err(key.error);
    }

    method CompressFieldsOf(fields: seq<Field>) returns (r: Result<seq<CompressedField>, Error>)
      requires Valid()
      modifies this, Evictors()
      ensures Valid() && Evictors() == old(Evictors())
      ensures r == First(CompressFields(db.tables, env, old(State()), fields, []))
      ensures r.Ok? ==> State() == CompressFields(db.tables, env, old(State()), fields, []).value.1
    {
      var out := [];
      for i := 0 to |fields|
        invariant Valid() && Evictors() == old(Evictors())
        invariant CompressFields(db.tables, env, old(State()), fields, [])
               == CompressFields(db.tables, env, State(), fields[i..], out)
      {
        var step := CompressWith(fields[i]);
        if step.Err? {
          return Err(step.error);
        }
        out := out + [step.value];
        assert fields[i..][1..] == fields[i + 1..];
      }
      r := Ok(out);
    }

    method CompressBlock(txs: seq<Transaction>) returns (r: Result<seq<CompressedTransaction>, Error>)
      requires Valid()
      modifies this, Evictors()
      ensures Valid() && Evictors() == old(Evictors())
      ensures r == First(CompressTransactions(db.tables, env, old(State()), txs, []))
      ensures r.Ok? ==> State() == CompressTransactions(db.tables, env, old(State()), txs, []).value.1
    {
      var out := [];
      for i := 0 to |txs|
        invariant Valid() && Evictors() == old(Evictors())
        invariant CompressTransactions(db.tables, env, old(State()), txs, [])
               == CompressTransactions(db.tables, env, State(), txs[i..], out)
      {
        var fields := CompressFieldsOf(txs[i].fields);
        if fields.Err? {
          return Err(fields.error);
        }
        out := out + [Packed(txs[i], fields.value)];
        assert txs[i..][1..] == txs[i + 1..];
      }
      r := Ok(out);
    }

    /** Commits a keyspace's evictor and lists its changes. */
    method CommitKeyspace(ks: Keyspace) returns (regs: seq<(WritableKey, Value)>)
      requires Valid()
      modifies db
      ensures Drains(regs, State().Get(ks).changes)
      ensures db.tables == Set(old(db.tables), ks, old(db.tables).Get(ks).(latest := Some(State().Get(ks).next)))
    {
      var space := spaces.Get(ks);
      assert State().Get(ks) == WorkOf(space);
      db.SetLatestAssignedKey(ks, space.evictor.nextKey);
      regs := Drain(space.changes);
    }

    /** Commits the evictors, then writes all registrations under the block's time. */
    method Finalize() returns (regs: Registrations)
      requires Valid()
      modifies db
      ensures forall ks: Keyspace ::
        FinalizedAs(old(db.tables).Get(ks), State().Get(ks), regs.Get(ks), env.now, db.tables.Get(ks))
    {
      hide Drains, WriteAll;
      var address := CommitKeyspace(Address);
      var assetId := CommitKeyspace(AssetId);
      var contractId := CommitKeyspace(ContractId);
      var scriptCode := CommitKeyspace(ScriptCode);
      var predicateCode := CommitKeyspace(PredicateCode);
      regs := PerKeyspace(address, assetId, contractId, scriptCode, predicateCode);
      ghost var committed := db.tables;
      assert forall ks: Keyspace ::
        committed.Get(ks) == old(db.tables).Get(ks).(latest := Some(State().Get(ks).next));
      db.WriteToRegistry(regs, env.now);
    }

    /** Gives `value` the next free key, unless the evictor's size check fails. */
    method Assign(ks: Keyspace, value: Value) returns (r: Result<WritableKey, Error>)
      requires Valid()
      modifies this, Evictors()
      ensures Valid() && Evictors() == old(Evictors())
      ensures var w := old(State()).Get(ks);
        if |w.keep| >= KEY_COUNT - 1 then r == Err(KeyspaceExhausted) && State() == old(State())
        else
          var key := NextFree(w.keep, w.next);
          && r == Ok(key)
          && State() == Set(old(State()), ks,
               Work(w.keep + {key}, key, w.changes[key := value], w.lookup[value := key]))
    {
      var space := spaces.Get(ks);
      assert State().Get(ks) == WorkOf(space);
      if |space.evictor.keepKeys| >= KEY_COUNT - 1 {
        return Err(KeyspaceExhausted);
      }
      var key := space.evictor.NextKey();
      spaces := Set(spaces, ks, space.(
        changes := space.changes[key := value],
        changesLookup := space.changesLookup[value := key]));
      ghost var w := old(State()).Get(ks);
      ghost var expected := Set(old(State()), ks,
        Work(w.keep + {key}, key, w.changes[key := value], w.lookup[value := key]));
      forall other: Keyspace
        ensures State().Get(other) == expected.Get(other)
      {
        assert State().Get(other) == WorkOf(spaces.Get(other));
        if other != ks {
          assert old(State()).Get(other) == old(WorkOf(spaces.Get(other)));
        }
      }
      SameEverywhere(State(), expected);
      r := Ok(key);
    }
  }

  function First<T, U>(r: Result<(T, U), Error>): Result<T, Error> {
    match r
    case Ok(p) => Ok(p.0)
    case Err(e) => Err(e)
  }

  /** The entries of a hash map, in whatever order it yields them. */
  method Drain(changes: map<WritableKey, Value>) returns (regs: seq<(WritableKey, Value)>)
    ensures Drains(regs, changes)
  {
    regs := [];
    var rest := changes.Keys;
    while rest != {}
      invariant rest <= changes.Keys
      invariant forall i :: 0 <= i < |regs| ==> regs[i].0 in changes && changes[regs[i].0] == regs[i].1
      invariant forall i :: 0 <= i < |regs| ==> regs[i].0 !in rest
      invariant forall i, j :: 0 <= i < j < |regs| ==> regs[i].0 != regs[j].0
      invariant forall k :: k in changes && k !in rest ==> exists i :: 0 <= i < |regs| && regs[i].0 == k
    {
      var key :| key in rest;
      ghost var before := regs;
      regs := regs + [(key, changes[key])];
      rest := rest - {key};
      forall k | k in changes && k !in rest
        ensures exists i :: 0 <= i < |regs| && regs[i].0 == k
      {
        if k == key {
          assert regs[|before|].0 == k;
        } else {
          var i :| 0 <= i < |before| && before[i].0 == k;
          assert regs[i].0 == k;
        }
      }
    }
  }

  /** Compresses a block; the registry changes only if every value could be compressed. */
  method Compress(db: RegistryDb, retention: nat, pointers: map<UtxoId, CompressedUtxoId>, block: Block)
    returns (r: Result<CompressedBlock, Error>)
    modifies db
    ensures r.Ok? ==> Compresses(old(db.tables), retention, pointers, block, r.value, db.tables)
    ensures r.Err? ==>
      && db.tables == old(db.tables)
      && CompressBody(old(db.tables), Env(retention, block.header.time, pointers), block) == Err(r.error)
  {
    hide PrepareBlock, CompressTransactions, FinalizedAs, StartWorks;
    var prepared := new PrepareCtx(Env(retention, block.header.time, pointers), db);
    var pass1 := prepared.CompressBlock(block.transactions);
    if pass1.Err? {
      return Err(pass1.error);
    }
    var ctx := new CompressCtx.FromPrepared(prepared);
    var txs := ctx.CompressBlock(block.transactions);
    if txs.Err? {
      return Err(txs.error);
    }
    var regs := ctx.Finalize();
    r := Ok(CompressedBlock(block.header, regs, txs.value));
  }
}
