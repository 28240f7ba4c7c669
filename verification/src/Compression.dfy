/**
 What compressing a block means: a first pass over the block collects the registry keys it
 reuses, a second pass replaces each value by a key, allocating keys around the reused ones.
 */
module Compression {
  import opened Wrappers
  import opened RegistryKeys
  import opened Blocks
  import opened TemporalRegistry
  import opened EvictionPolicy

  /** What a block is compressed under: key retention in seconds, its time, its spent outputs. */
  datatype Env = Env(retention: nat, now: Time, pointers: map<UtxoId, CompressedUtxoId>)

  /** Whether a key written at `key` may still be used by a block of time `block`. */
  function IsTimestampAccessible(retention: nat, block: Time, key: Time): (r: Result<bool, Error>) {
    if key > block then Err(InvalidTimestampOrdering) else Ok(block - key <= retention)
  }

  /** The key through which a stored value may still be referred to. */
  function FindAccessible(t: Table, env: Env, v: Value): (r: Result<Option<WritableKey>, Error>)
    ensures r.Ok? && r.value.Some? ==> v in t.index && t.index[v] == r.value.value
  {
    if v !in t.index then
      Ok(None)
    else if t.index[v] !in t.times then
      Err(MissingTimestamp)
    else
      var accessible :- IsTimestampAccessible(env.retention, env.now, t.times[t.index[v]]);
      Ok(if accessible then Some(t.index[v]) else None)
  }

  predicate Fresh(t: Table, env: Env, v: Value) { FindAccessible(t, env, v) == Ok(None) }

  // ---------------------------------------------------------------------------------------
  // First pass
  // ---------------------------------------------------------------------------------------

  function PrepareValue(t: Table, env: Env, default: Value, kept: set<WritableKey>, v: Value)
    : (r: Result<set<WritableKey>, Error>)
  {
    if v == default || (v in t.index && t.index[v] in kept) then
      Ok(kept)
    else
      var found :- FindAccessible(t, env, v);
      Ok(if found.Some? then kept + {found.value} else kept)
  }

  type Kept = PerKeyspace<set<WritableKey>>

  function PrepareField(tables: Tables, env: Env, kept: Kept, f: Field): (r: Result<Kept, Error>) {
    match f
    case Utxo(_) => Ok(kept)
    case Registry(ks, v) =>
      var k :- PrepareValue(tables.Get(ks), env, DefaultOf(ks), kept.Get(ks), v);
      Ok(Set(kept, ks, k))
  }

  function PrepareFields(tables: Tables, env: Env, kept: Kept, fields: seq<Field>): (r: Result<Kept, Error>)
    decreases |fields|
  {
    if fields == [] then
      Ok(kept)
    else
      var next :- PrepareField(tables, env, kept, fields[0]);
      PrepareFields(tables, env, next, fields[1..])
  }

  function PrepareBlock(tables: Tables, env: Env, kept: Kept, txs: seq<Transaction>): (r: Result<Kept, Error>)
    decreases |txs|
  {
    if txs == [] then
      Ok(kept)
    else
      var next :- PrepareFields(tables, env, kept, txs[0].fields);
      PrepareBlock(tables, env, next, txs[1..])
  }

  // ---------------------------------------------------------------------------------------
  // Second pass
  // ---------------------------------------------------------------------------------------

  /** One keyspace's compression state: its evictor, its new entries, and their reverse lookup. */
  datatype Work = Work(
    keep: set<WritableKey>,
    next: WritableKey,
    changes: map<WritableKey, Value>,
    lookup: map<Value, WritableKey>)

  type Works = PerKeyspace<Work>

  function NewWork(t: Table, kept: set<WritableKey>): Work {
    Work(kept, StartKey(t.latest), map[], map[])
  }

  ghost function CompressValue(t: Table, env: Env, default: Value, w: Work, v: Value)
    : (r: Result<(RegistryKey, Work), Error>)
  {
    if v == default then
      Ok((DEFAULT_VALUE, w))
    else if v in w.lookup then
      Ok((w.lookup[v], w))
    else
      var found :- FindAccessible(t, env, v);
      if found.Some? then
        Ok((found.value, w))
      else if |w.keep| >= KEY_COUNT - 1 then
        Err(KeyspaceExhausted)
      else
        var key := NextFree(w.keep, w.next);
        Ok((key, Work(w.keep + {key}, key, w.changes[key := v], w.lookup[v := key])))
  }

  ghost function CompressField(tables: Tables, env: Env, works: Works, f: Field)
    : (r: Result<(CompressedField, Works), Error>)
  {
    match f
    case Utxo(id) =>
      if id in env.pointers then Ok((Pointer(env.pointers[id]), works)) else Err(UtxoNotFound)
    case Registry(ks, v) =>
      var step :- CompressValue(tables.Get(ks), env, DefaultOf(ks), works.Get(ks), v);
      Ok((Key(ks, step.0), Set(works, ks, step.1)))
  }

  /** Compresses `fields` in order; `done` are the fields compressed before them. */
  ghost function CompressFields(
      tables: Tables, env: Env, works: Works, fields: seq<Field>, done: seq<CompressedField>)
    : (r: Result<(seq<CompressedField>, Works), Error>)
    decreases |fields|
  {
    if fields == [] then
      Ok((done, works))
    else
      var step :- CompressField(tables, env, works, fields[0]);
      CompressFields(tables, env, step.1, fields[1..], done + [step.0])
  }

  function Packed(tx: Transaction, fields: seq<CompressedField>): CompressedTransaction {
    match tx
    case Mint(_, _) => CompressedMint(fields)
    case Other(_) => CompressedOther(fields)
  }

  ghost function CompressTransactions(
      tables: Tables, env: Env, works: Works, txs: seq<Transaction>, done: seq<CompressedTransaction>)
    : (r: Result<(seq<CompressedTransaction>, Works), Error>)
    decreases |txs|
  {
    if txs == [] then
      Ok((done, works))
    else
      var step :- CompressFields(tables, env, works, txs[0].fields, []);
      CompressTransactions(tables, env, step.1, txs[1..], done + [Packed(txs[0], step.0)])
  }

  function StartWorks(tables: Tables, kept: Kept): (works: Works) {
    Each(ks => NewWork(tables.Get(ks), kept.Get(ks)))
  }

  function NothingKept(): Kept { Each(_ => {}) }

  /** Both passes over a block. */
  ghost function CompressBody(tables: Tables, env: Env, block: Block)
    : (r: Result<(seq<CompressedTransaction>, Works), Error>)
  {
    var kept :- PrepareBlock(tables, env, NothingKept(), block.transactions);
    CompressTransactions(tables, env, StartWorks(tables, kept), block.transactions, [])
  }

  /** The registry a keyspace is left with: the evictor committed, the registrations written. */
  function Finalized(t: Table, w: Work, regs: seq<(WritableKey, Value)>, now: Time): Table {
    WriteAll(t.(latest := Some(w.next)), regs, now)
  }

  /**
   Compressing `block` over `before` may produce `out` and leave `after`. It is a relation, not
   a function, because a hash map's entries come out in no particular order.
   */
  ghost predicate Compresses(
      before: Tables, retention: nat, pointers: map<UtxoId, CompressedUtxoId>,
      block: Block, out: CompressedBlock, after: Tables)
  {
    var env := Env(retention, block.header.time, pointers);
    var body := CompressBody(before, env, block);
    && body.Ok?
    && out.header == block.header
    && out.transactions == body.value.0
    && forall ks: Keyspace ::
         FinalizedAs(before.Get(ks), body.value.1.Get(ks), out.registrations.Get(ks), env.now, after.Get(ks))
  }

  ghost predicate FinalizedAs(t: Table, w: Work, regs: seq<(WritableKey, Value)>, now: Time, after: Table) {
    Drains(regs, w.changes) && after == Finalized(t, w, regs, now)
  }
}
