/**
 The default value of each keyspace, by its bytes: it is compressed to the reserved key and to
 no other, is never registered, and is what the reserved key reads back as.
 */
module DefaultValues {
  import opened Wrappers
  import opened RegistryKeys
  import opened Blocks
  import opened TemporalRegistry
  import opened Compression
  import opened EvictionSafety
  import opened Decompression
  import opened ChainRoundTrip

  /** Ids of 32 zero bytes, and code of no bytes. */
  ghost predicate Zeroed(ks: Keyspace, v: Value) {
    match ks
    case Address => |v| == 32 && forall i :: 0 <= i < 32 ==> v[i] == 0
    case AssetId => |v| == 32 && forall i :: 0 <= i < 32 ==> v[i] == 0
    case ContractId => |v| == 32 && forall i :: 0 <= i < 32 ==> v[i] == 0
    case ScriptCode => |v| == 0
    case PredicateCode => |v| == 0
  }

  lemma ZeroedIsDefault(ks: Keyspace, v: Value)
    ensures Zeroed(ks, v) <==> v == DefaultOf(ks)
  {}

  /** Of every compressed block: exactly the zeroed values come out as the reserved key. */
  lemma BlockDefaultsIff(
      before: Tables, last: Time, retention: nat, pointers: map<UtxoId, CompressedUtxoId>,
      block: Block, out: CompressedBlock, after: Tables, i: nat, j: nat)
    requires SoundTables(before, last) && last <= block.header.time
    requires Compresses(before, retention, pointers, block, out, after)
    requires i < |block.transactions| && j < |block.transactions[i].fields|
    requires block.transactions[i].fields[j].Registry?
    ensures |out.transactions| == |block.transactions|
    ensures |out.transactions[i].fields| == |block.transactions[i].fields|
    ensures var c, f := out.transactions[i].fields[j], block.transactions[i].fields[j];
      && c.Key? && c.ks == f.ks
      && (c.key == 0xFF_FFFF <==> Zeroed(f.ks, f.value))
  {
    hide CompressBody, SoundTables, AllLookable, KeptFor, Zeroed, Drains, Finalized, WorkOk, DefaultOf;
    var env, f := Env(retention, block.header.time, pointers), block.transactions[i].fields[j];
    SoundTablesAreLookable(before, last, env);
    var kept := CompressBodyOk(before, env, block);
    var works := CompressBody(before, env, block).value.1;
    assert EncodesTx(before, env, kept, works, out.transactions[i], block.transactions[i]);
    assert Encodes(before, env, kept, works, out.transactions[i].fields[j], f);
    ZeroedIsDefault(f.ks, f.value);
  }

  /** And no zeroed value is registered. */
  lemma NoDefaultRegistered(
      before: Tables, last: Time, retention: nat, pointers: map<UtxoId, CompressedUtxoId>,
      block: Block, out: CompressedBlock, after: Tables, ks: Keyspace, v: Value)
    requires SoundTables(before, last) && last <= block.header.time
    requires Compresses(before, retention, pointers, block, out, after)
    requires v in RegisteredValues(out.registrations.Get(ks))
    ensures !Zeroed(ks, v)
  {
    hide Compresses, SoundTables, RegisteredValues, Zeroed, AllFields;
    BlockRegistersFresh(before, last, retention, pointers, block, out, after, ks);
    ZeroedIsDefault(ks, v);
  }

  /** So none is ever stored: not in any registry of a chain. */
  lemma {:induction false} ChainStoresNoDefault(
      retention: nat, states: seq<Tables>, steps: seq<Step>, last: Time, n: nat, ks: Keyspace, key: WritableKey)
    requires CompressorRun(retention, states, steps)
    requires SoundTables(states[0], last) && Chronological(last, steps)
    requires n <= |steps| && |states| == |steps| + 1 && key in states[n].Get(ks).values
    ensures !Zeroed(ks, states[n].Get(ks).values[key])
    decreases n
  {
    hide *;
    if n == 0 {
      SoundStoresNoDefault(states[0], last, ks, key);
    } else {
      var s := steps[0];
      FirstStep(retention, states, steps, last);
      AgreeSelf(states[0]);
      BlockKeepsLockstep(states[0], states[0], last, retention, s.pointers, s.block, s.out, states[1]);
      ChronologicalTail(retention, states, steps, last);
      ChainStoresNoDefault(retention, states[1..], steps[1..], s.block.header.time, n - 1, ks, key);
    }
  }

  lemma SoundStoresNoDefault(tables: Tables, last: Time, ks: Keyspace, key: WritableKey)
    requires SoundTables(tables, last) && key in tables.Get(ks).values
    ensures !Zeroed(ks, tables.Get(ks).values[key])
  {
    assert Sound(tables.Get(ks), DefaultOf(ks), last);
    ZeroedIsDefault(ks, tables.Get(ks).values[key]);
  }

  lemma FirstStep(retention: nat, states: seq<Tables>, steps: seq<Step>, last: Time)
    requires CompressorRun(retention, states, steps) && steps != [] && Chronological(last, steps)
    ensures |states| == |steps| + 1 && last <= steps[0].block.header.time
    ensures Compresses(states[0], retention, steps[0].pointers, steps[0].block, steps[0].out, states[1])
  {
    hide Compresses;
  }

  /** The reserved key reads back as the zeroed value, and as nothing else. */
  lemma ReservedKeyReads(tables: Tables, env: ReadEnv, ks: Keyspace, v: Value)
    ensures DecompressField(tables, env, Key(ks, 0xFF_FFFF)) == Ok(Registry(ks, v)) <==> Zeroed(ks, v)
  {
    ZeroedIsDefault(ks, v);
    hide Zeroed, DefaultOf;
  }

  /** Any other key reads back exactly as what is stored under it within retention. */
  lemma OtherKeyReads(tables: Tables, env: ReadEnv, ks: Keyspace, key: WritableKey, v: Value)
    ensures var t := tables.Get(ks);
      DecompressField(tables, env, Key(ks, key)) == Ok(Registry(ks, v)) <==>
        && key in t.times && t.times[key] <= env.now <= t.times[key] + env.retention
        && key in t.values && t.values[key] == v
  {
    hide DefaultOf;
  }
}
