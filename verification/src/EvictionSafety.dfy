/**
 Eviction safety within a block: every key the second pass reuses was kept by the first, no
 allocation lands on a kept key, and new entries and their reverse lookup stay inverse.
 */
module EvictionSafety {
  import opened Wrappers
  import opened RegistryKeys
  import opened Blocks
  import opened TemporalRegistry
  import opened EvictionPolicy
  import opened Compression

  /** The non-default values of a keyspace that occur in `fields`. */
  ghost function ValuesIn(fields: seq<Field>, ks: Keyspace): set<Value> {
    set f | f in fields && f.Registry? && f.ks == ks && f.value != DefaultOf(ks) :: f.value
  }

  ghost function AllFields(txs: seq<Transaction>): seq<Field> {
    if txs == [] then [] else txs[0].fields + AllFields(txs[1..])
  }

  lemma ValuesInConcat(a: seq<Field>, b: seq<Field>, ks: Keyspace)
    ensures ValuesIn(a + b, ks) == ValuesIn(a, ks) + ValuesIn(b, ks)
  {
    forall f | f in a
      ensures f in a + b
    {}
  }

  // ---------------------------------------------------------------------------------------
  // What the first pass keeps
  // ---------------------------------------------------------------------------------------

  ghost predicate Lookable(t: Table, env: Env) {
    forall v :: FindAccessible(t, env, v).Ok?
  }

  /** Sound registries not newer than the block answer every lookup. */
  lemma SoundIsLookable(t: Table, default: Value, last: Time, env: Env)
    requires Sound(t, default, last) && last <= env.now
    ensures Lookable(t, env)
  {}

  /** A value needs a new key exactly when it is not stored or its key is older than the retention. */
  lemma FreshIff(t: Table, default: Value, last: Time, env: Env, v: Value)
    requires Sound(t, default, last) && last <= env.now
    ensures Fresh(t, env, v) <==> v !in t.index || env.now - t.times[t.index[v]] > env.retention
  {}

  /** The keys of those values among `vs` that can still be referred to. */
  ghost function KeysOf(t: Table, env: Env, vs: set<Value>): set<WritableKey> {
    set v | v in vs && v in t.index && FindAccessible(t, env, v) == Ok(Some(t.index[v])) :: t.index[v]
  }

  lemma KeysOfUnion(t: Table, env: Env, a: set<Value>, b: set<Value>)
    ensures KeysOf(t, env, a + b) == KeysOf(t, env, a) + KeysOf(t, env, b)
  {}

  lemma PrepareValueKeeps(t: Table, env: Env, default: Value, vs: set<Value>, v: Value)
    requires Lookable(t, env)
    ensures PrepareValue(t, env, default, KeysOf(t, env, vs), v)
         == Ok(KeysOf(t, env, if v == default then vs else vs + {v}))
  {
    KeysOfUnion(t, env, vs, {v});
    assert FindAccessible(t, env, v).Ok?;
    assert KeysOf(t, env, vs) + {} == KeysOf(t, env, vs);
    if v in t.index {
      assert KeysOf(t, env, {v}) == if FindAccessible(t, env, v).value.Some? then {t.index[v]} else {};
      if t.index[v] in KeysOf(t, env, vs) {
        var other :| other in vs && other in t.index && t.index[other] == t.index[v]
          && FindAccessible(t, env, other) == Ok(Some(t.index[other]));
        assert KeysOf(t, env, vs) + {t.index[v]} == KeysOf(t, env, vs);
      }
    } else {
      assert KeysOf(t, env, {v}) == {};
    }
  }

  ghost predicate AllLookable(tables: Tables, env: Env) {
    forall ks: Keyspace :: Lookable(tables.Get(ks), env)
  }

  /** `kept` is exactly what the fields in `seen` reuse. */
  ghost predicate KeptFor(tables: Tables, env: Env, kept: Kept, seen: seq<Field>) {
    forall ks: Keyspace :: kept.Get(ks) == KeysOf(tables.Get(ks), env, ValuesIn(seen, ks))
  }

  lemma PrepareFieldKeeps(tables: Tables, env: Env, kept: Kept, seen: seq<Field>, f: Field)
    requires AllLookable(tables, env) && KeptFor(tables, env, kept, seen)
    ensures PrepareField(tables, env, kept, f).Ok?
    ensures KeptFor(tables, env, PrepareField(tables, env, kept, f).value, seen + [f])
  {
    if f.Registry? {
      PrepareValueKeeps(tables.Get(f.ks), env, DefaultOf(f.ks), ValuesIn(seen, f.ks), f.value);
    }
    forall ks: Keyspace
      ensures ValuesIn(seen + [f], ks) == ValuesIn(seen, ks) + ValuesIn([f], ks)
    {
      ValuesInConcat(seen, [f], ks);
    }
    forall ks: Keyspace
      ensures ValuesIn([f], ks) ==
        if f.Registry? && f.ks == ks && f.value != DefaultOf(ks) then {f.value} else {}
    {
      assert f in [f];
    }
  }

  lemma {:induction false} PrepareFieldsKeeps(
      tables: Tables, env: Env, kept: Kept, seen: seq<Field>, fields: seq<Field>)
    requires AllLookable(tables, env) && KeptFor(tables, env, kept, seen)
    ensures PrepareFields(tables, env, kept, fields).Ok?
    ensures KeptFor(tables, env, PrepareFields(tables, env, kept, fields).value, seen + fields)
    decreases |fields|
  {
    if fields == [] {
      assert seen + fields == seen;
    } else {
      PrepareFieldKeeps(tables, env, kept, seen, fields[0]);
      var next := PrepareField(tables, env, kept, fields[0]).value;
      PrepareFieldsKeeps(tables, env, next, seen + [fields[0]], fields[1..]);
      assert seen + [fields[0]] + fields[1..] == seen + fields;
    }
  }

  /** The first pass keeps exactly the keys through which the block's values can be reused. */
  lemma {:induction false} PrepareBlockKeeps(
      tables: Tables, env: Env, kept: Kept, seen: seq<Field>, txs: seq<Transaction>)
    requires AllLookable(tables, env) && KeptFor(tables, env, kept, seen)
    ensures PrepareBlock(tables, env, kept, txs).Ok?
    ensures KeptFor(tables, env, PrepareBlock(tables, env, kept, txs).value, seen + AllFields(txs))
    decreases |txs|
  {
    hide AllLookable, KeptFor, PrepareFields;
    if txs == [] {
      assert seen + AllFields(txs) == seen;
    } else {
      PrepareFieldsKeeps(tables, env, kept, seen, txs[0].fields);
      var next := PrepareFields(tables, env, kept, txs[0].fields).value;
      PrepareBlockKeeps(tables, env, next, seen + txs[0].fields, txs[1..]);
      assert seen + txs[0].fields + AllFields(txs[1..]) == seen + AllFields(txs);
    }
  }

  // ---------------------------------------------------------------------------------------
  // What the second pass maintains
  // ---------------------------------------------------------------------------------------

  ghost predicate Inverse(changes: map<WritableKey, Value>, lookup: map<Value, WritableKey>) {
    && (forall v :: v in lookup ==> lookup[v] in changes && changes[lookup[v]] == v)
    && (forall k :: k in changes ==> changes[k] in lookup && lookup[changes[k]] == k)
  }

  /** New entries avoid every kept key and hold only values that could not be reused. */
  ghost predicate WorkOk(t: Table, env: Env, default: Value, kept: set<WritableKey>, w: Work) {
    && Inverse(w.changes, w.lookup)
    && w.changes.Keys !! kept
    && w.keep == kept + w.changes.Keys
    && (forall v :: v in w.lookup ==> v != default && Fresh(t, env, v))
  }

  /** The values among `vs` that need a new key. */
  ghost function FreshOf(t: Table, env: Env, vs: set<Value>): set<Value> {
    set v | v in vs && Fresh(t, env, v)
  }

  /** How a keyspace moves over fields holding the values `vs`: it gains their fresh ones, no more. */
  ghost predicate Gained(t: Table, env: Env, w: Work, vs: set<Value>, w': Work) {
    && w'.lookup.Keys == w.lookup.Keys + FreshOf(t, env, vs)
    && forall v :: v in w.lookup ==> w'.lookup[v] == w.lookup[v]
  }

  /** A key stands for `v`: reserved for the default, newly assigned, or reused and kept. */
  ghost predicate StandsFor(
      t: Table, env: Env, default: Value, kept: set<WritableKey>, w: Work, key: RegistryKey, v: Value)
  {
    if v == default then key == DEFAULT_VALUE
    else if v in w.lookup then key == w.lookup[v]
    else v in t.index && key == t.index[v] && key in kept && FindAccessible(t, env, v) == Ok(Some(t.index[v]))
  }

  /** Assigning an unkept key to an unseen value keeps both directions inverse: nothing is overwritten. */
  lemma AssignOk(
      t: Table, env: Env, default: Value, kept: set<WritableKey>, w: Work, v: Value, key: WritableKey)
    requires WorkOk(t, env, default, kept, w)
    requires key !in w.keep && v !in w.lookup && v != default && Fresh(t, env, v)
    ensures key !in w.changes
    ensures WorkOk(t, env, default, kept, Work(w.keep + {key}, key, w.changes[key := v], w.lookup[v := key]))
  {
    var changes, lookup := w.changes[key := v], w.lookup[v := key];
    assert changes.Keys == w.changes.Keys + {key};
    forall k | k in changes
      ensures changes[k] in lookup && lookup[changes[k]] == k
    {
      if k != key {
        assert w.changes[k] != v;
      }
    }
  }

  lemma CompressValueGains(t: Table, env: Env, default: Value, w: Work, v: Value)
    requires CompressValue(t, env, default, w, v).Ok?
    requires v in w.lookup ==> Fresh(t, env, v)
    ensures Gained(t, env, w, if v == default then {} else {v}, CompressValue(t, env, default, w, v).value.1)
  {
    if v == default {
      assert FreshOf(t, env, {}) == {};
    } else if Fresh(t, env, v) {
      assert FreshOf(t, env, {v}) == {v};
    } else {
      assert FreshOf(t, env, {v}) == {};
    }
  }

  /** The key a value gets stands for it, and no reused or earlier assigned key is overwritten. */
  lemma CompressValueOk(
      t: Table, env: Env, default: Value, kept: set<WritableKey>, w: Work, v: Value)
    requires WorkOk(t, env, default, kept, w)
    requires CompressValue(t, env, default, w, v).Ok?
    requires v != default ==> KeysOf(t, env, {v}) <= kept
    ensures WorkOk(t, env, default, kept, CompressValue(t, env, default, w, v).value.1)
    ensures StandsFor(t, env, default, kept, CompressValue(t, env, default, w, v).value.1,
                      CompressValue(t, env, default, w, v).value.0, v)
  {
    if v != default && v !in w.lookup {
      if FindAccessible(t, env, v).value.Some? {
        assert t.index[v] in KeysOf(t, env, {v});
      } else {
        AssignOk(t, env, default, kept, w, v, NextFree(w.keep, w.next));
      }
    }
  }

  // ---------------------------------------------------------------------------------------
  // Lifted to all keyspaces and whole blocks
  // ---------------------------------------------------------------------------------------

  ghost predicate WorksOk(tables: Tables, env: Env, kept: Kept, works: Works) {
    forall ks: Keyspace :: WorkOk(tables.Get(ks), env, DefaultOf(ks), kept.Get(ks), works.Get(ks))
  }

  ghost predicate Advances(tables: Tables, env: Env, works: Works, fields: seq<Field>, works': Works) {
    forall ks: Keyspace :: Gained(tables.Get(ks), env, works.Get(ks), ValuesIn(fields, ks), works'.Get(ks))
  }

  /** What the first pass kept covers all the values in `fields`. */
  ghost predicate Covers(tables: Tables, env: Env, kept: Kept, fields: seq<Field>) {
    forall ks: Keyspace :: KeysOf(tables.Get(ks), env, ValuesIn(fields, ks)) <= kept.Get(ks)
  }

  ghost predicate Encodes(tables: Tables, env: Env, kept: Kept, works: Works, c: CompressedField, f: Field) {
    match f
    case Utxo(id) => id in env.pointers && c == Pointer(env.pointers[id])
    case Registry(ks, v) =>
      && c.Key? && c.ks == ks
      && StandsFor(tables.Get(ks), env, DefaultOf(ks), kept.Get(ks), works.Get(ks), c.key, v)
  }

  ghost predicate EncodesAll(
      tables: Tables, env: Env, kept: Kept, works: Works, cs: seq<CompressedField>, fields: seq<Field>)
  {
    && |cs| == |fields|
    && forall i :: 0 <= i < |fields| ==> Encodes(tables, env, kept, works, cs[i], fields[i])
  }

  lemma AdvancesTrans(tables: Tables, env: Env, a: Works, f: seq<Field>, b: Works, g: seq<Field>, c: Works)
    requires Advances(tables, env, a, f, b) && Advances(tables, env, b, g, c)
    ensures Advances(tables, env, a, f + g, c)
  {
    forall ks: Keyspace
      ensures Gained(tables.Get(ks), env, a.Get(ks), ValuesIn(f + g, ks), c.Get(ks))
    {
      ValuesInConcat(f, g, ks);
      assert Gained(tables.Get(ks), env, a.Get(ks), ValuesIn(f, ks), b.Get(ks));
      assert Gained(tables.Get(ks), env, b.Get(ks), ValuesIn(g, ks), c.Get(ks));
    }
  }

  /** A key goes on standing for its value whatever is compressed after it. */
  lemma EncodesStays(
      tables: Tables, env: Env, kept: Kept, works: Works, rest: seq<Field>, works': Works,
      c: CompressedField, f: Field)
    requires WorksOk(tables, env, kept, works') && Advances(tables, env, works, rest, works')
    requires Encodes(tables, env, kept, works, c, f)
    ensures Encodes(tables, env, kept, works', c, f)
  {
    if f.Registry? {
      var ks := f.ks;
      assert Gained(tables.Get(ks), env, works.Get(ks), ValuesIn(rest, ks), works'.Get(ks));
      assert WorkOk(tables.Get(ks), env, DefaultOf(ks), kept.Get(ks), works'.Get(ks));
    }
  }

  lemma ValuesInOne(f: Field, ks: Keyspace)
    ensures ValuesIn([f], ks) == if f.Registry? && f.ks == ks && f.value != DefaultOf(ks) then {f.value} else {}
  {
    assert f in [f];
  }

  lemma GainedNothing(t: Table, env: Env, w: Work)
    ensures Gained(t, env, w, {}, w)
  {
    assert FreshOf(t, env, {}) == {};
  }

  lemma AdvancesNothing(tables: Tables, env: Env, works: Works)
    ensures Advances(tables, env, works, [], works)
  {
    forall ks: Keyspace
      ensures Gained(tables.Get(ks), env, works.Get(ks), ValuesIn([], ks), works.Get(ks))
    {
      assert ValuesIn([], ks) == {};
      GainedNothing(tables.Get(ks), env, works.Get(ks));
    }
  }

  lemma CompressFieldOkAt(tables: Tables, env: Env, kept: Kept, works: Works, f: Field, ks: Keyspace)
    requires WorkOk(tables.Get(ks), env, DefaultOf(ks), kept.Get(ks), works.Get(ks))
    requires KeysOf(tables.Get(ks), env, ValuesIn([f], ks)) <= kept.Get(ks)
    requires CompressField(tables, env, works, f).Ok?
    ensures var works' := CompressField(tables, env, works, f).value.1;
      && WorkOk(tables.Get(ks), env, DefaultOf(ks), kept.Get(ks), works'.Get(ks))
      && Gained(tables.Get(ks), env, works.Get(ks), ValuesIn([f], ks), works'.Get(ks))
  {
    ValuesInOne(f, ks);
    var t, w, d := tables.Get(ks), works.Get(ks), DefaultOf(ks);
    assert f.Registry? && f.value in w.lookup ==> Fresh(t, env, f.value);
    hide WorkOk, Gained, KeysOf, CompressValue, Fresh;
    if f.Registry? && f.ks == ks {
      CompressValueGains(t, env, d, w, f.value);
      CompressValueOk(t, env, d, kept.Get(ks), w, f.value);
    } else {
      GainedNothing(t, env, w);
    }
  }

  lemma CompressFieldOk(tables: Tables, env: Env, kept: Kept, works: Works, f: Field)
    requires WorksOk(tables, env, kept, works) && Covers(tables, env, kept, [f])
    requires CompressField(tables, env, works, f).Ok?
    ensures WorksOk(tables, env, kept, CompressField(tables, env, works, f).value.1)
    ensures Advances(tables, env, works, [f], CompressField(tables, env, works, f).value.1)
  {
    hide WorkOk, Gained, KeysOf, ValuesIn, CompressField;
    forall ks: Keyspace {
      CompressFieldOkAt(tables, env, kept, works, f, ks);
    }
  }

  lemma CompressFieldEncodes(tables: Tables, env: Env, kept: Kept, works: Works, f: Field)
    requires WorksOk(tables, env, kept, works) && Covers(tables, env, kept, [f])
    requires CompressField(tables, env, works, f).Ok?
    ensures Encodes(tables, env, kept, CompressField(tables, env, works, f).value.1,
                    CompressField(tables, env, works, f).value.0, f)
  {
    if f.Registry? {
      ValuesInOne(f, f.ks);
      assert KeysOf(tables.Get(f.ks), env, ValuesIn([f], f.ks)) <= kept.Get(f.ks);
      assert WorkOk(tables.Get(f.ks), env, DefaultOf(f.ks), kept.Get(f.ks), works.Get(f.ks));
      hide WorkOk, KeysOf, StandsFor, CompressValue;
      CompressValueOk(tables.Get(f.ks), env, DefaultOf(f.ks), kept.Get(f.ks), works.Get(f.ks), f.value);
    }
  }

  lemma CoversPart(tables: Tables, env: Env, kept: Kept, a: seq<Field>, b: seq<Field>)
    requires Covers(tables, env, kept, a + b)
    ensures Covers(tables, env, kept, a) && Covers(tables, env, kept, b)
  {
    forall ks: Keyspace
      ensures KeysOf(tables.Get(ks), env, ValuesIn(a, ks)) <= kept.Get(ks)
      ensures KeysOf(tables.Get(ks), env, ValuesIn(b, ks)) <= kept.Get(ks)
    {
      ValuesInConcat(a, b, ks);
      KeysOfUnion(tables.Get(ks), env, ValuesIn(a, ks), ValuesIn(b, ks));
      assert KeysOf(tables.Get(ks), env, ValuesIn(a + b, ks)) <= kept.Get(ks);
    }
  }

  lemma {:induction false} CompressFieldsOk(
      tables: Tables, env: Env, kept: Kept, works: Works, fields: seq<Field>, done: seq<CompressedField>)
    requires WorksOk(tables, env, kept, works) && Covers(tables, env, kept, fields)
    requires CompressFields(tables, env, works, fields, done).Ok?
    ensures var (out, works') := CompressFields(tables, env, works, fields, done).value;
      && WorksOk(tables, env, kept, works')
      && Advances(tables, env, works, fields, works')
      && done <= out
      && EncodesAll(tables, env, kept, works', out[|done|..], fields)
    decreases |fields|
  {
    hide WorksOk, Covers, Advances, Encodes, CompressField;
    if fields == [] {
      AdvancesNothing(tables, env, works);
    } else {
      var f, rest := fields[0], fields[1..];
      assert fields == [f] + rest;
      CoversPart(tables, env, kept, [f], rest);
      CompressFieldOk(tables, env, kept, works, f);
      CompressFieldEncodes(tables, env, kept, works, f);
      var (c, mid) := CompressField(tables, env, works, f).value;
      CompressFieldsOk(tables, env, kept, mid, rest, done + [c]);
      var (out, works') := CompressFields(tables, env, mid, rest, done + [c]).value;
      AdvancesTrans(tables, env, works, [f], mid, rest, works');
      EncodesStays(tables, env, kept, mid, rest, works', c, f);
      assert out[|done|..] == [c] + out[|done| + 1..];
    }
  }

  ghost predicate EncodesTx(
      tables: Tables, env: Env, kept: Kept, works: Works, c: CompressedTransaction, tx: Transaction)
  {
    && c == Packed(tx, c.fields)
    && EncodesAll(tables, env, kept, works, c.fields, tx.fields)
  }

  ghost predicate EncodesBlock(
      tables: Tables, env: Env, kept: Kept, works: Works, cs: seq<CompressedTransaction>, txs: seq<Transaction>)
  {
    && |cs| == |txs|
    && forall i :: 0 <= i < |txs| ==> EncodesTx(tables, env, kept, works, cs[i], txs[i])
  }

  lemma EncodesTxStays(
      tables: Tables, env: Env, kept: Kept, works: Works, rest: seq<Field>, works': Works,
      c: CompressedTransaction, tx: Transaction)
    requires WorksOk(tables, env, kept, works') && Advances(tables, env, works, rest, works')
    requires EncodesTx(tables, env, kept, works, c, tx)
    ensures EncodesTx(tables, env, kept, works', c, tx)
  {
    hide WorksOk, Advances, Encodes;
    forall i | 0 <= i < |tx.fields|
      ensures Encodes(tables, env, kept, works', c.fields[i], tx.fields[i])
    {
      EncodesStays(tables, env, kept, works, rest, works', c.fields[i], tx.fields[i]);
    }
  }

  /** Eviction safety for a whole block: at its end every emitted key still stands for its value. */
  lemma {:induction false} CompressTransactionsOk(
      tables: Tables, env: Env, kept: Kept, works: Works,
      txs: seq<Transaction>, done: seq<CompressedTransaction>)
    requires WorksOk(tables, env, kept, works) && Covers(tables, env, kept, AllFields(txs))
    requires CompressTransactions(tables, env, works, txs, done).Ok?
    ensures var (out, works') := CompressTransactions(tables, env, works, txs, done).value;
      && WorksOk(tables, env, kept, works')
      && Advances(tables, env, works, AllFields(txs), works')
      && done <= out
      && EncodesBlock(tables, env, kept, works', out[|done|..], txs)
    decreases |txs|
  {
    hide WorksOk, Covers, Advances, Encodes, CompressFields;
    if txs == [] {
      AdvancesNothing(tables, env, works);
    } else {
      var tx, rest := txs[0], AllFields(txs[1..]);
      CoversPart(tables, env, kept, tx.fields, rest);
      CompressFieldsOk(tables, env, kept, works, tx.fields, []);
      var (cs, mid) := CompressFields(tables, env, works, tx.fields, []).value;
      var c := Packed(tx, cs);
      assert cs[0..] == cs;
      assert EncodesTx(tables, env, kept, mid, c, tx);
      CompressTransactionsOk(tables, env, kept, mid, txs[1..], done + [c]);
      var (out, works') := CompressTransactions(tables, env, mid, txs[1..], done + [c]).value;
      AdvancesTrans(tables, env, works, tx.fields, mid, rest, works');
      EncodesTxStays(tables, env, kept, mid, rest, works', c, tx);
      assert out[|done|..] == [c] + out[|done| + 1..];
    }
  }

  /** Both passes together, from a registry that answers every lookup. */
  lemma CompressBodyOk(tables: Tables, env: Env, block: Block) returns (kept: Kept)
    requires AllLookable(tables, env)
    requires CompressBody(tables, env, block).Ok?
    ensures KeptFor(tables, env, kept, AllFields(block.transactions))
    ensures var (out, works) := CompressBody(tables, env, block).value;
      && WorksOk(tables, env, kept, works)
      && Advances(tables, env, StartWorks(tables, kept), AllFields(block.transactions), works)
      && EncodesBlock(tables, env, kept, works, out, block.transactions)
  {
    kept := PreparedFor(tables, env, block);
    StartWorksOk(tables, env, kept);
    CompressTransactionsOk(tables, env, kept, StartWorks(tables, kept), block.transactions, []);
    var out := CompressBody(tables, env, block).value.0;
    assert out[0..] == out;
  }

  lemma PreparedFor(tables: Tables, env: Env, block: Block) returns (kept: Kept)
    requires AllLookable(tables, env)
    ensures PrepareBlock(tables, env, NothingKept(), block.transactions) == Ok(kept)
    ensures KeptFor(tables, env, kept, AllFields(block.transactions))
    ensures Covers(tables, env, kept, AllFields(block.transactions))
  {
    assert forall ks: Keyspace :: ValuesIn([], ks) == {};
    PrepareBlockKeeps(tables, env, NothingKept(), [], block.transactions);
    kept := PrepareBlock(tables, env, NothingKept(), block.transactions).value;
    assert [] + AllFields(block.transactions) == AllFields(block.transactions);
  }

  lemma StartWorksOk(tables: Tables, env: Env, kept: Kept)
    ensures WorksOk(tables, env, kept, StartWorks(tables, kept))
  {
    forall ks: Keyspace
      ensures WorkOk(tables.Get(ks), env, DefaultOf(ks), kept.Get(ks), StartWorks(tables, kept).Get(ks))
    {
      assert StartWorks(tables, kept).Get(ks) == NewWork(tables.Get(ks), kept.Get(ks));
    }
  }
}
