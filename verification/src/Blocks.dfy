/**
 Blocks as the compressor sees them: transactions are lists of fields, and a field is either a
 value of one of the five registry keyspaces or the id of a spent output.
 */
module Blocks {
  import opened RegistryKeys

  newtype Byte = b: int | 0 <= b < 256
  type Value = seq<Byte>
  type Time = nat

  datatype Keyspace = Address | AssetId | ContractId | ScriptCode | PredicateCode

  /** The default of a keyspace's type: a zeroed 32-byte id, or empty code. */
  function DefaultOf(ks: Keyspace): Value {
    match ks
    case ScriptCode => []
    case PredicateCode => []
    case _ => seq(32, _ => 0)
  }

  /** One `T` for each keyspace. */
  datatype PerKeyspace<+T> = PerKeyspace(
    address: T, assetId: T, contractId: T, scriptCode: T, predicateCode: T)
  {
    function Get(ks: Keyspace): T {
      match ks
      case Address => address
      case AssetId => assetId
      case ContractId => contractId
      case ScriptCode => scriptCode
      case PredicateCode => predicateCode
    }
  }

  function Set<T>(all: PerKeyspace<T>, ks: Keyspace, t: T): (r: PerKeyspace<T>)
    ensures r.Get(ks) == t
    ensures forall other :: other != ks ==> r.Get(other) == all.Get(other)
  {
    match ks
    case Address => all.(address := t)
    case AssetId => all.(assetId := t)
    case ContractId => all.(contractId := t)
    case ScriptCode => all.(scriptCode := t)
    case PredicateCode => all.(predicateCode := t)
  }

  lemma SetSame<T>(all: PerKeyspace<T>, ks: Keyspace)
    ensures Set(all, ks, all.Get(ks)) == all
  {}

  function Each<T>(f: Keyspace -> T): (r: PerKeyspace<T>)
    ensures forall ks :: r.Get(ks) == f(ks)
  {
    PerKeyspace(f(Address), f(AssetId), f(ContractId), f(ScriptCode), f(PredicateCode))
  }

  lemma SameEverywhere<T>(a: PerKeyspace<T>, b: PerKeyspace<T>)
    requires forall ks :: a.Get(ks) == b.Get(ks)
    ensures a == b
  {
    assert a.Get(Address) == b.Get(Address) && a.Get(AssetId) == b.Get(AssetId);
    assert a.Get(ContractId) == b.Get(ContractId) && a.Get(ScriptCode) == b.Get(ScriptCode);
    assert a.Get(PredicateCode) == b.Get(PredicateCode);
  }

  datatype TxPointer = TxPointer(height: nat, index: nat)
  datatype UtxoId = UtxoId(txId: nat, outputIndex: nat)
  datatype CompressedUtxoId = CompressedUtxoId(txPointer: TxPointer, outputIndex: nat)

  datatype Field = Registry(ks: Keyspace, value: Value) | Utxo(id: UtxoId)
  datatype CompressedField = Key(ks: Keyspace, key: RegistryKey) | Pointer(utxo: CompressedUtxoId)

  datatype Transaction =
    | Mint(fields: seq<Field>, txPointer: TxPointer)
    | Other(fields: seq<Field>)

  /** A compressed mint carries no transaction pointer: decompression restores it. */
  datatype CompressedTransaction =
    | CompressedMint(fields: seq<CompressedField>)
    | CompressedOther(fields: seq<CompressedField>)

  datatype Header = Header(height: nat, time: Time)
  datatype Block = Block(header: Header, transactions: seq<Transaction>)

  type Registrations = PerKeyspace<seq<(WritableKey, Value)>>

  datatype CompressedBlock = CompressedBlock(
    header: Header, registrations: Registrations, transactions: seq<CompressedTransaction>)

  datatype Error =
    | InvalidTimestampOrdering
    | MissingTimestamp
    | TimestampNotAccessible
    | ValueNotFound
    | UtxoNotFound
    | KeyspaceExhausted
    | NoTransactions
    | LastIsNotAMint
    | TooManyTransactions
}
