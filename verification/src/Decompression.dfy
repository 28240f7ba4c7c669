/** What decompressing a block means: replay its registrations, then read its keys back. */
module Decompression {
  import opened Wrappers
  import opened RegistryKeys
  import opened Blocks
  import opened TemporalRegistry
  import opened Compression

  /** The decompressor's view of spent outputs. */
  type History = map<CompressedUtxoId, UtxoId>

  datatype ReadEnv = ReadEnv(retention: nat, now: Time, history: History)

  function DecompressValue(t: Table, env: ReadEnv, default: Value, key: RegistryKey): (r: Result<Value, Error>) {
    if key == DEFAULT_VALUE then
      Ok(default)
    else if key !in t.times then
      Err(MissingTimestamp)
    else
      var accessible :- IsTimestampAccessible(env.retention, env.now, t.times[key]);
      if !accessible then Err(TimestampNotAccessible)
      else if key in t.values then Ok(t.values[key])
      else Err(ValueNotFound)
  }

  function DecompressField(tables: Tables, env: ReadEnv, c: CompressedField): (r: Result<Field, Error>) {
    match c
    case Pointer(p) => if p in env.history then Ok(Utxo(env.history[p])) else Err(UtxoNotFound)
    case Key(ks, key) =>
      var v :- DecompressValue(tables.Get(ks), env, DefaultOf(ks), key);
      Ok(Registry(ks, v))
  }

  function DecompressFields(tables: Tables, env: ReadEnv, cs: seq<CompressedField>, done: seq<Field>)
    : (r: Result<seq<Field>, Error>)
    decreases |cs|
  {
    if cs == [] then
      Ok(done)
    else
      var f :- DecompressField(tables, env, cs[0]);
      DecompressFields(tables, env, cs[1..], done + [f])
  }

  const UNKNOWN_POINTER: TxPointer := TxPointer(0, 0)

  function Unpacked(c: CompressedTransaction, fields: seq<Field>): Transaction {
    match c
    case CompressedMint(_) => Mint(fields, UNKNOWN_POINTER)
    case CompressedOther(_) => Other(fields)
  }

  function DecompressTransactions(
      tables: Tables, env: ReadEnv, cs: seq<CompressedTransaction>, done: seq<Transaction>)
    : (r: Result<seq<Transaction>, Error>)
    decreases |cs|
  {
    if cs == [] then
      Ok(done)
    else
      var fields :- DecompressFields(tables, env, cs[0].fields, []);
      DecompressTransactions(tables, env, cs[1..], done + [Unpacked(cs[0], fields)])
  }

  const MAX_TX_INDEX: nat := 0xFFFF

  /** Restores the transaction pointer of the mint that must close a block. */
  function PatchMint(height: nat, txs: seq<Transaction>): (r: Result<seq<Transaction>, Error>) {
    if txs == [] then Err(NoTransactions)
    else
      var last := |txs| - 1;
      if txs[last].Other? then Err(LastIsNotAMint)
      else if last > MAX_TX_INDEX then Err(TooManyTransactions)
      else Ok(txs[last := txs[last].(txPointer := TxPointer(height, last))])
  }

  /** The registry after a compressed block's registrations. */
  function Replayed(tables: Tables, block: CompressedBlock): (r: Tables)
  {
    Each(ks => WriteAll(tables.Get(ks), block.registrations.Get(ks), block.header.time))
  }

  function DecompressBody(tables: Tables, retention: nat, history: History, block: CompressedBlock)
    : (r: Result<Block, Error>)
  {
    var env := ReadEnv(retention, block.header.time, history);
    var txs :- DecompressTransactions(tables, env, block.transactions, []);
    var patched :- PatchMint(block.header.height, txs);
    Ok(Block(block.header, patched))
  }

  /** `decompress`: the registrations are written first, and stay written even if reading fails. */
  method Decompress(db: RegistryDb, retention: nat, history: History, block: CompressedBlock)
    returns (r: Result<Block, Error>)
    modifies db
    ensures db.tables == Replayed(old(db.tables), block)
    ensures r == DecompressBody(db.tables, retention, history, block)
  {
    db.WriteToRegistry(block.registrations, block.header.time);
    SameEverywhere(db.tables, Replayed(old(db.tables), block));
    var env := ReadEnv(retention, block.header.time, history);
    var txs := [];
    for i := 0 to |block.transactions|
      invariant db.tables == Replayed(old(db.tables), block)
      invariant DecompressTransactions(db.tables, env, block.transactions, [])
             == DecompressTransactions(db.tables, env, block.transactions[i..], txs)
    {
      var c := block.transactions[i];
      var fields := DecompressFields(db.tables, env, c.fields, []);
      if fields.Err? {
        return Err(fields.error);
      }
      txs := txs + [Unpacked(c, fields.value)];
      assert block.transactions[i..][1..] == block.transactions[i + 1..];
    }
    if |txs| == 0 {
      return Err(NoTransactions);
    }
    var last := |txs| - 1;
    match txs[last] {
      case Mint(fields, _) =>
        if last > MAX_TX_INDEX {
          return Err(TooManyTransactions);
        }
        txs := txs[last := Mint(fields, TxPointer(block.header.height, last))];
      case Other(_) =>
        return Err(LastIsNotAMint);
    }
    r := Ok(Block(block.header, txs));
  }
}
