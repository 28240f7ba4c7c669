/**
 The promise of the codec: decompressing what was compressed gives the block back, over whole
 chains of blocks, while the two parties' registries move in lockstep.
 */
module ChainRoundTrip {
  import opened Wrappers
  import opened RegistryKeys
  import opened Blocks
  import opened TemporalRegistry
  import opened Compression
  import opened EvictionSafety
  import opened Decompression

  ghost predicate SoundTables(tables: Tables, last: Time) {
    forall ks: Keyspace :: Sound(tables.Get(ks), DefaultOf(ks), last)
  }

  ghost predicate AgreeTables(a: Tables, b: Tables) {
    forall ks: Keyspace :: Agree(a.Get(ks), b.Get(ks))
  }

  /** The decompressor's history undoes the compressor's lookup of spent outputs. */
  ghost predicate Undoes(history: History, pointers: map<UtxoId, CompressedUtxoId>) {
    forall id :: id in pointers ==> pointers[id] in history && history[pointers[id]] == id
  }

  // ---------------------------------------------------------------------------------------
  // One value
  // ---------------------------------------------------------------------------------------

  /** The finalized registry holds the new entries, stamped with the block's time, and the rest as before. */
  lemma FinalizedHolds(t: Table, w: Work, regs: seq<(WritableKey, Value)>, now: Time, key: WritableKey)
    requires Drains(regs, w.changes)
    ensures var r := Finalized(t, w, regs, now);
      if key in w.changes then
        && key in r.values && r.values[key] == w.changes[key]
        && key in r.times && r.times[key] == now
      else
        && (key in r.values <==> key in t.values)
        && (key in r.times <==> key in t.times)
        && (key in t.values ==> r.values[key] == t.values[key])
        && (key in t.times ==> r.times[key] == t.times[key])
  {
    WriteAllMerges(t.(latest := Some(w.next)), regs, w.changes, now);
  }

  /** After the registrations are in, a key that stands for a value reads back as that value. */
  lemma StandsForReadsBack(
      t: Table, env: Env, renv: ReadEnv, default: Value, last: Time, kept: set<WritableKey>, w: Work,
      regs: seq<(WritableKey, Value)>, key: RegistryKey, v: Value)
    requires Sound(t, default, last) && WorkOk(t, env, default, kept, w) && Drains(regs, w.changes)
    requires renv.retention == env.retention && renv.now == env.now
    requires StandsFor(t, env, default, kept, w, key, v)
    ensures DecompressValue(Finalized(t, w, regs, env.now), renv, default, key) == Ok(v)
  {
    hide Drains, Finalized;
    if v != default {
      FinalizedHolds(t, w, regs, env.now, key);
      if v !in w.lookup {
        assert key !in w.changes;
        assert t.values[key] == v;
      }
    }
  }

  /** Reading depends on what the parties agree on only. */
  lemma AgreeReadsAlike(a: Tables, b: Tables, env: ReadEnv, c: CompressedField)
    requires AgreeTables(a, b)
    ensures DecompressField(a, env, c) == DecompressField(b, env, c)
  {
    if c.Key? {
      assert Agree(a.Get(c.ks), b.Get(c.ks));
    }
  }

  // ---------------------------------------------------------------------------------------
  // Fields and transactions
  // ---------------------------------------------------------------------------------------

  ghost predicate ReadsBack(tables: Tables, env: ReadEnv, c: CompressedField, f: Field) {
    DecompressField(tables, env, c) == Ok(f)
  }

  lemma {:induction false} FieldsReadBack(
      tables: Tables, env: ReadEnv, cs: seq<CompressedField>, fields: seq<Field>, done: seq<Field>)
    requires |cs| == |fields|
    requires forall i :: 0 <= i < |cs| ==> ReadsBack(tables, env, cs[i], fields[i])
    ensures DecompressFields(tables, env, cs, done) == Ok(done + fields)
    decreases |cs|
  {
    if cs == [] {
      assert done + fields == done;
    } else {
      assert ReadsBack(tables, env, cs[0], fields[0]);
      assert forall i :: 0 <= i < |cs[1..]| ==> cs[1..][i] == cs[i + 1] && fields[1..][i] == fields[i + 1];
      FieldsReadBack(tables, env, cs[1..], fields[1..], done + [fields[0]]);
      assert done + [fields[0]] + fields[1..] == done + fields;
    }
  }

  /** A transaction as it comes out of compression: a mint has lost its pointer. */
  function Erased(tx: Transaction): Transaction {
    match tx
    case Mint(fields, _) => Mint(fields, UNKNOWN_POINTER)
    case Other(_) => tx
  }

  function ErasedAll(txs: seq<Transaction>): seq<Transaction> {
    seq(|txs|, i requires 0 <= i < |txs| => Erased(txs[i]))
  }

  ghost predicate TxReadsBack(tables: Tables, env: ReadEnv, c: CompressedTransaction, tx: Transaction) {
    && c == Packed(tx, c.fields)
    && |c.fields| == |tx.fields|
    && forall i :: 0 <= i < |tx.fields| ==> ReadsBack(tables, env, c.fields[i], tx.fields[i])
  }

  lemma {:induction false} TransactionsReadBack(
      tables: Tables, env: ReadEnv, cs: seq<CompressedTransaction>, txs: seq<Transaction>, done: seq<Transaction>)
    requires |cs| == |txs|
    requires forall i :: 0 <= i < |cs| ==> TxReadsBack(tables, env, cs[i], txs[i])
    ensures DecompressTransactions(tables, env, cs, done) == Ok(done + ErasedAll(txs))
    decreases |cs|
  {
    if cs == [] {
      assert done + ErasedAll(txs) == done;
    } else {
      assert TxReadsBack(tables, env, cs[0], txs[0]);
      FieldsReadBack(tables, env, cs[0].fields, txs[0].fields, []);
      assert [] + txs[0].fields == txs[0].fields;
      assert forall i :: 0 <= i < |cs[1..]| ==> cs[1..][i] == cs[i + 1] && txs[1..][i] == txs[i + 1];
      TransactionsReadBack(tables, env, cs[1..], txs[1..], done + [Erased(txs[0])]);
      assert done + [Erased(txs[0])] + ErasedAll(txs[1..]) == done + ErasedAll(txs);
    }
  }

  /** A block closed by a mint that points at itself; no other mint knows where it is. */
  ghost predicate ClosedByMint(block: Block) {
    var txs := block.transactions;
    && 0 < |txs| <= 0x1_0000
    && txs[|txs| - 1].Mint?
    && txs[|txs| - 1].txPointer == TxPointer(block.header.height, |txs| - 1)
    && forall i :: 0 <= i < |txs| - 1 && txs[i].Mint? ==> txs[i].txPointer == TxPointer(0, 0)
  }

  /** Patching recovers the transactions exactly when the block is closed by a mint. */
  lemma PatchRecoversIff(block: Block)
    ensures PatchMint(block.header.height, ErasedAll(block.transactions)) == Ok(block.transactions)
       <==> ClosedByMint(block)
  {
    var txs := block.transactions;
    var patched := PatchMint(block.header.height, ErasedAll(txs));
    if patched.Ok? {
      var last := |txs| - 1;
      assert forall i :: 0 <= i < last ==> patched.value[i] == Erased(txs[i]);
      if ClosedByMint(block) {
        assert patched.value == txs;
      }
    }
  }

  // ---------------------------------------------------------------------------------------
  // One block
  // ---------------------------------------------------------------------------------------

  lemma SoundTablesAreLookable(tables: Tables, last: Time, env: Env)
    requires SoundTables(tables, last) && last <= env.now
    ensures AllLookable(tables, env)
  {
    forall ks: Keyspace
      ensures Lookable(tables.Get(ks), env)
    {
      SoundIsLookable(tables.Get(ks), DefaultOf(ks), last, env);
    }
  }

  ghost function Unwritten(): Tables { Each(_ => Table(map[], map[], map[], None)) }

  /** A registry nothing was written to is sound. */
  lemma EmptyIsSound(last: Time)
    ensures SoundTables(Unwritten(), last)
  {}

  lemma EncodedFieldReadsBack(
      before: Tables, last: Time, env: Env, renv: ReadEnv, kept: Kept, works: Works,
      regs: Registrations, after: Tables, c: CompressedField, f: Field)
    requires SoundTables(before, last) && WorksOk(before, env, kept, works)
    requires renv.retention == env.retention && renv.now == env.now && Undoes(renv.history, env.pointers)
    requires forall ks: Keyspace :: FinalizedAs(before.Get(ks), works.Get(ks), regs.Get(ks), env.now, after.Get(ks))
    requires Encodes(before, env, kept, works, c, f)
    ensures ReadsBack(after, renv, c, f)
  {
    if f.Registry? {
      var ks := f.ks;
      assert Sound(before.Get(ks), DefaultOf(ks), last);
      assert WorkOk(before.Get(ks), env, DefaultOf(ks), kept.Get(ks), works.Get(ks));
      assert FinalizedAs(before.Get(ks), works.Get(ks), regs.Get(ks), env.now, after.Get(ks));
      hide Sound, WorkOk, StandsFor, Drains, DecompressValue;
      StandsForReadsBack(before.Get(ks), env, renv, DefaultOf(ks), last, kept.Get(ks), works.Get(ks),
                         regs.Get(ks), c.key, f.value);
    }
  }

  /** Lockstep and soundness: the compressor's block leaves both parties with the same sound registry. */
  lemma BlockKeepsLockstep(
      before: Tables, other: Tables, last: Time, retention: nat, pointers: map<UtxoId, CompressedUtxoId>,
      block: Block, out: CompressedBlock, after: Tables)
    requires SoundTables(before, last) && last <= block.header.time
    requires AgreeTables(before, other)
    requires Compresses(before, retention, pointers, block, out, after)
    ensures SoundTables(after, block.header.time)
    ensures AgreeTables(after, Replayed(other, out))
  {
    var env := Env(retention, block.header.time, pointers);
    SoundTablesAreLookable(before, last, env);
    var kept := CompressBodyOk(before, env, block);
    var works := CompressBody(before, env, block).value.1;
    forall ks: Keyspace
      ensures Sound(after.Get(ks), DefaultOf(ks), block.header.time)
      ensures Agree(after.Get(ks), Replayed(other, out).Get(ks))
    {
      assert Sound(before.Get(ks), DefaultOf(ks), last) && Agree(before.Get(ks), other.Get(ks));
      assert WorkOk(before.Get(ks), env, DefaultOf(ks), kept.Get(ks), works.Get(ks));
      assert FinalizedAs(before.Get(ks), works.Get(ks), out.registrations.Get(ks), env.now, after.Get(ks));
      TableKeepsLockstep(before.Get(ks), other.Get(ks), env, DefaultOf(ks), last, kept.Get(ks), works.Get(ks),
                         out.registrations.Get(ks));
    }
  }

  lemma TableKeepsLockstep(
      t: Table, other: Table, env: Env, default: Value, last: Time, kept: set<WritableKey>, w: Work,
      regs: seq<(WritableKey, Value)>)
    requires Sound(t, default, last) && last <= env.now && Agree(t, other)
    requires WorkOk(t, env, default, kept, w) && Drains(regs, w.changes)
    ensures Sound(Finalized(t, w, regs, env.now), default, env.now)
    ensures Agree(Finalized(t, w, regs, env.now), WriteAll(other, regs, env.now))
  {
    var t' := t.(latest := Some(w.next));
    assert NoDefault(regs, default);
    WriteAllKeepsSound(t', default, regs, last, env.now);
    WriteAllKeepsAgreement(t', other, regs, env.now);
  }

  ghost function RegisteredValues(regs: seq<(WritableKey, Value)>): set<Value> {
    set e | e in regs :: e.1
  }

  lemma DrainValues(regs: seq<(WritableKey, Value)>, w: Work)
    requires Drains(regs, w.changes) && Inverse(w.changes, w.lookup)
    ensures RegisteredValues(regs) == w.lookup.Keys
  {
    forall e | e in regs
      ensures e.1 in w.lookup
    {
      var i :| 0 <= i < |regs| && regs[i] == e;
    }
    forall v | v in w.lookup
      ensures v in RegisteredValues(regs)
    {
      var i :| 0 <= i < |regs| && regs[i].0 == w.lookup[v];
      assert regs[i] in regs && regs[i].1 == v;
    }
  }

  lemma TableRegistersFresh(
      t: Table, env: Env, default: Value, kept: set<WritableKey>, w: Work,
      regs: seq<(WritableKey, Value)>, vs: set<Value>)
    requires WorkOk(t, env, default, kept, w) && Drains(regs, w.changes)
    requires Gained(t, env, NewWork(t, kept), vs, w)
    ensures RegisteredValues(regs) == FreshOf(t, env, vs)
    ensures forall i, j :: 0 <= i < j < |regs| ==> regs[i].1 != regs[j].1
  {
    hide FreshOf, RegisteredValues;
    DrainValues(regs, w);
  }

  /** A block registers exactly those of its values that could not be referred to, each once. */
  lemma BlockRegistersFresh(
      before: Tables, last: Time, retention: nat, pointers: map<UtxoId, CompressedUtxoId>,
      block: Block, out: CompressedBlock, after: Tables, ks: Keyspace)
    requires SoundTables(before, last) && last <= block.header.time
    requires Compresses(before, retention, pointers, block, out, after)
    ensures RegisteredValues(out.registrations.Get(ks)) ==
      FreshOf(before.Get(ks), Env(retention, block.header.time, pointers), ValuesIn(AllFields(block.transactions), ks))
    ensures forall i, j :: 0 <= i < j < |out.registrations.Get(ks)| ==>
      out.registrations.Get(ks)[i].1 != out.registrations.Get(ks)[j].1
  {
    hide CompressBody, WorkOk, Gained, Drains, FreshOf, ValuesIn, RegisteredValues, SoundTables, AllLookable,
      KeptFor, EncodesBlock;
    var env := Env(retention, block.header.time, pointers);
    SoundTablesAreLookable(before, last, env);
    var kept := CompressBodyOk(before, env, block);
    var w := CompressBody(before, env, block).value.1.Get(ks);
    assert WorkOk(before.Get(ks), env, DefaultOf(ks), kept.Get(ks), w);
    assert FinalizedAs(before.Get(ks), w, out.registrations.Get(ks), env.now, after.Get(ks));
    TableRegistersFresh(before.Get(ks), env, DefaultOf(ks), kept.Get(ks), w, out.registrations.Get(ks),
                        ValuesIn(AllFields(block.transactions), ks));
  }

  /** So a value of the block is registered exactly when the index has no key for it young enough. */
  lemma BlockRegistersIff(
      before: Tables, last: Time, retention: nat, pointers: map<UtxoId, CompressedUtxoId>,
      block: Block, out: CompressedBlock, after: Tables, ks: Keyspace, v: Value)
    requires SoundTables(before, last) && last <= block.header.time
    requires Compresses(before, retention, pointers, block, out, after)
    ensures var t := before.Get(ks);
      v in RegisteredValues(out.registrations.Get(ks)) <==>
        && v in ValuesIn(AllFields(block.transactions), ks)
        && (v !in t.index || block.header.time - t.times[t.index[v]] > retention)
  {
    assert Sound(before.Get(ks), DefaultOf(ks), last);
    hide Compresses, RegisteredValues, ValuesIn, AllFields, Fresh;
    BlockRegistersFresh(before, last, retention, pointers, block, out, after, ks);
    FreshIff(before.Get(ks), DefaultOf(ks), last, Env(retention, block.header.time, pointers), v);
  }

  /** A value that reads back does so from an entry no older than the retention. */
  lemma ReadableIsRecent(t: Table, env: ReadEnv, default: Value, key: WritableKey, v: Value)
    requires DecompressValue(t, env, default, key) == Ok(v)
    ensures key in t.times && t.times[key] <= env.now <= t.times[key] + env.retention
  {}

  /** Every key a block emits, but the default one, refers to an entry no older than the retention. */
  lemma BlockKeysAreRecent(
      before: Tables, last: Time, retention: nat, pointers: map<UtxoId, CompressedUtxoId>,
      block: Block, out: CompressedBlock, after: Tables, i: nat, j: nat)
    requires SoundTables(before, last) && last <= block.header.time
    requires Compresses(before, retention, pointers, block, out, after)
    requires i < |out.transactions| && j < |out.transactions[i].fields|
    requires out.transactions[i].fields[j].Key? && out.transactions[i].fields[j].key != DEFAULT_VALUE
    ensures var c := out.transactions[i].fields[j];
      && c.key in after.Get(c.ks).times
      && after.Get(c.ks).times[c.key] <= block.header.time <= after.Get(c.ks).times[c.key] + retention
  {
    hide CompressBody, SoundTables, AllLookable, KeptFor, Encodes, WorkOk, Drains, StandsFor, DecompressValue, Sound;
    var env, c := Env(retention, block.header.time, pointers), out.transactions[i].fields[j];
    SoundTablesAreLookable(before, last, env);
    var kept := CompressBodyOk(before, env, block);
    var works := CompressBody(before, env, block).value.1;
    assert EncodesTx(before, env, kept, works, out.transactions[i], block.transactions[i]);
    EncodedKeyIsRecent(before, last, env, kept, works, out.registrations, after, c, block.transactions[i].fields[j]);
  }

  lemma EncodedKeyIsRecent(
      before: Tables, last: Time, env: Env, kept: Kept, works: Works, regs: Registrations, after: Tables,
      c: CompressedField, f: Field)
    requires SoundTables(before, last) && WorksOk(before, env, kept, works)
    requires forall ks: Keyspace :: FinalizedAs(before.Get(ks), works.Get(ks), regs.Get(ks), env.now, after.Get(ks))
    requires Encodes(before, env, kept, works, c, f) && c.Key? && c.key != DEFAULT_VALUE
    ensures c.key in after.Get(c.ks).times
    ensures after.Get(c.ks).times[c.key] <= env.now <= after.Get(c.ks).times[c.key] + env.retention
  {
    var ks, renv := c.ks, ReadEnv(env.retention, env.now, map[]);
    assert Sound(before.Get(ks), DefaultOf(ks), last);
    assert WorkOk(before.Get(ks), env, DefaultOf(ks), kept.Get(ks), works.Get(ks));
    assert FinalizedAs(before.Get(ks), works.Get(ks), regs.Get(ks), env.now, after.Get(ks));
    hide Sound, WorkOk, StandsFor, Drains, DecompressValue, Finalized;
    StandsForReadsBack(before.Get(ks), env, renv, DefaultOf(ks), last, kept.Get(ks), works.Get(ks),
                       regs.Get(ks), c.key, f.value);
    ReadableIsRecent(after.Get(ks), renv, DefaultOf(ks), c.key, f.value);
  }

  /** A block decompresses to itself exactly when it is closed by a mint. */
  lemma BlockRoundTripIff(
      before: Tables, other: Tables, last: Time, retention: nat, pointers: map<UtxoId, CompressedUtxoId>,
      history: History, block: Block, out: CompressedBlock, after: Tables)
    requires SoundTables(before, last) && last <= block.header.time
    requires AgreeTables(before, other) && Undoes(history, pointers)
    requires Compresses(before, retention, pointers, block, out, after)
    ensures DecompressBody(Replayed(other, out), retention, history, out) == Ok(block) <==> ClosedByMint(block)
  {
    hide SoundTables, AgreeTables, WorksOk, Advances, KeptFor, EncodesBlock, FinalizedAs, TxReadsBack,
      Undoes, PatchMint, ClosedByMint, CompressBody, AllLookable, Replayed;
    var env := Env(retention, block.header.time, pointers);
    var renv := ReadEnv(retention, block.header.time, history);
    SoundTablesAreLookable(before, last, env);
    var kept := CompressBodyOk(before, env, block);
    var works := CompressBody(before, env, block).value.1;
    BlockKeepsLockstep(before, other, last, retention, pointers, block, out, after);
    var replayed := Replayed(other, out);
    BlockReadsBack(before, last, env, renv, kept, works, block.transactions, out, after, replayed);
    TransactionsReadBack(replayed, renv, out.transactions, block.transactions, []);
    assert [] + ErasedAll(block.transactions) == ErasedAll(block.transactions);
    PatchRecoversIff(block);
  }

  lemma BlockReadsBack(
      before: Tables, last: Time, env: Env, renv: ReadEnv, kept: Kept, works: Works,
      txs: seq<Transaction>, out: CompressedBlock, after: Tables, replayed: Tables)
    requires SoundTables(before, last) && WorksOk(before, env, kept, works)
    requires renv.retention == env.retention && renv.now == env.now && Undoes(renv.history, env.pointers)
    requires forall ks: Keyspace ::
      FinalizedAs(before.Get(ks), works.Get(ks), out.registrations.Get(ks), env.now, after.Get(ks))
    requires EncodesBlock(before, env, kept, works, out.transactions, txs)
    requires AgreeTables(after, replayed)
    ensures |out.transactions| == |txs|
    ensures forall i :: 0 <= i < |txs| ==> TxReadsBack(replayed, renv, out.transactions[i], txs[i])
  {
    hide SoundTables, WorksOk, Undoes, FinalizedAs, Encodes, AgreeTables, ReadsBack;
    forall i | 0 <= i < |txs|
      ensures TxReadsBack(replayed, renv, out.transactions[i], txs[i])
    {
      var c, tx := out.transactions[i], txs[i];
      assert EncodesTx(before, env, kept, works, c, tx);
      forall j | 0 <= j < |tx.fields|
        ensures ReadsBack(replayed, renv, c.fields[j], tx.fields[j])
      {
        EncodedFieldReadsBack(
          before, last, env, renv, kept, works, out.registrations, after, c.fields[j], tx.fields[j]);
        ReadsBackAlike(after, replayed, renv, c.fields[j], tx.fields[j]);
      }
    }
  }

  lemma ReadsBackAlike(a: Tables, b: Tables, env: ReadEnv, c: CompressedField, f: Field)
    requires AgreeTables(a, b) && ReadsBack(a, env, c, f)
    ensures ReadsBack(b, env, c, f)
  {
    AgreeReadsAlike(a, b, env, c);
  }

  // ---------------------------------------------------------------------------------------
  // Chains
  // ---------------------------------------------------------------------------------------

  /** One block of a chain, with the spent-output lookups of both parties and the emitted payload. */
  datatype Step = Step(
    block: Block, pointers: map<UtxoId, CompressedUtxoId>, history: History, out: CompressedBlock)

  /** A run of the compressor: registry `states[i]` turns into `states[i + 1]` over `steps[i]`. */
  ghost predicate CompressorRun(retention: nat, states: seq<Tables>, steps: seq<Step>) {
    && |states| == |steps| + 1
    && forall i :: 0 <= i < |steps| ==>
         Compresses(states[i], retention, steps[i].pointers, steps[i].block, steps[i].out, states[i + 1])
  }

  /** Block times never go back, starting from `last`. */
  ghost predicate Chronological(last: Time, steps: seq<Step>) {
    && (forall i :: 0 <= i < |steps| ==> last <= steps[i].block.header.time)
    && (forall i, j :: 0 <= i < j < |steps| ==> steps[i].block.header.time <= steps[j].block.header.time)
  }

  lemma AgreeSelf(t: Tables)
    ensures AgreeTables(t, t)
  {}

  lemma ChronologicalTail(retention: nat, states: seq<Tables>, steps: seq<Step>, last: Time)
    requires CompressorRun(retention, states, steps) && steps != [] && Chronological(last, steps)
    ensures CompressorRun(retention, states[1..], steps[1..])
    ensures Chronological(steps[0].block.header.time, steps[1..])
  {
    hide Compresses;
    assert forall i :: 0 <= i < |steps[1..]| ==> steps[1..][i] == steps[i + 1];
    assert forall i :: 0 <= i < |states[1..]| ==> states[1..][i] == states[i + 1];
  }

  ghost predicate WellFormed(steps: seq<Step>) {
    forall i :: 0 <= i < |steps| ==>
      Undoes(steps[i].history, steps[i].pointers) && ClosedByMint(steps[i].block)
  }

  function Originals(steps: seq<Step>): seq<Block> {
    seq(|steps|, i requires 0 <= i < |steps| => steps[i].block)
  }

  /** Decompresses the payloads of a run in order. */
  function DecompressRun(retention: nat, tables: Tables, steps: seq<Step>, done: seq<Block>)
    : (r: Result<(seq<Block>, Tables), Error>)
    decreases |steps|
  {
    if steps == [] then
      Ok((done, tables))
    else
      var next := Replayed(tables, steps[0].out);
      var block :- DecompressBody(next, retention, steps[0].history, steps[0].out);
      DecompressRun(retention, next, steps[1..], done + [block])
  }

  /**
   For every chain with nondecreasing block times, whatever order its hash maps drain in, the
   decompressor recovers every block without an error, and ends with the compressor's registry.
   */
  lemma {:induction false} ChainRoundTrip(
      retention: nat, states: seq<Tables>, steps: seq<Step>, other: Tables, last: Time, done: seq<Block>)
    requires CompressorRun(retention, states, steps)
    requires SoundTables(states[0], last) && Chronological(last, steps) && WellFormed(steps)
    requires AgreeTables(states[0], other)
    ensures var r := DecompressRun(retention, other, steps, done);
      && r.Ok?
      && r.value.0 == done + Originals(steps)
      && AgreeTables(states[|steps|], r.value.1)
    decreases |steps|
  {
    hide SoundTables, AgreeTables, Compresses, DecompressBody, Undoes, ClosedByMint;
    if steps == [] {
      assert done + Originals(steps) == done;
    } else {
      var s, rest := steps[0], steps[1..];
      assert Compresses(states[0], retention, s.pointers, s.block, s.out, states[1]);
      BlockKeepsLockstep(states[0], other, last, retention, s.pointers, s.block, s.out, states[1]);
      BlockRoundTripIff(states[0], other, last, retention, s.pointers, s.history, s.block, s.out, states[1]);
      RunTail(retention, states, steps, last);
      ChainRoundTrip(retention, states[1..], rest, Replayed(other, s.out), s.block.header.time, done + [s.block]);
      assert done + [s.block] + Originals(rest) == done + Originals(steps);
    }
  }

  lemma RunTail(retention: nat, states: seq<Tables>, steps: seq<Step>, last: Time)
    requires CompressorRun(retention, states, steps) && steps != []
    requires Chronological(last, steps) && WellFormed(steps)
    ensures CompressorRun(retention, states[1..], steps[1..])
    ensures Chronological(steps[0].block.header.time, steps[1..]) && WellFormed(steps[1..])
    ensures states[1..][0] == states[1] && states[1..][|steps[1..]|] == states[|steps|]
  {
    hide Compresses, Undoes, ClosedByMint;
    assert forall i :: 0 <= i < |steps[1..]| ==> steps[1..][i] == steps[i + 1];
    assert forall i :: 0 <= i < |states[1..]| ==> states[1..][i] == states[i + 1];
  }
}
