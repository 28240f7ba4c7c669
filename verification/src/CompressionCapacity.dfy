/**
 When compression succeeds: over a sound registry not newer than the block, exactly when every
 spent output is known and no keyspace that needs new keys has as many values as there are keys.
 */
module CompressionCapacity {
  import opened RegistryKeys
  import opened Blocks
  import opened TemporalRegistry
  import opened Compression
  import opened EvictionSafety
  import opened ChainRoundTrip

  // ---------------------------------------------------------------------------------------
  // Counting
  // ---------------------------------------------------------------------------------------

  lemma {:induction false} InverseSameSize(changes: map<WritableKey, Value>, lookup: map<Value, WritableKey>)
    requires Inverse(changes, lookup)
    ensures |changes.Keys| == |lookup.Keys|
    decreases lookup.Keys
  {
    if lookup.Keys == {} {
      assert changes.Keys == {} by {
        if k :| k in changes.Keys {
          assert changes[k] in lookup.Keys;
        }
      }
    } else {
      var v :| v in lookup.Keys;
      var changes', lookup' := changes - {lookup[v]}, lookup - {v};
      InverseSameSize(changes', lookup');
      assert changes'.Keys == changes.Keys - {lookup[v]};
      assert lookup'.Keys == lookup.Keys - {v};
    }
  }

  /** Distinct values are reused under distinct keys: together with the fresh ones they add up. */
  lemma {:induction false} ReusedAndFresh(t: Table, env: Env, default: Value, last: Time, vs: set<Value>)
    requires Sound(t, default, last) && last <= env.now
    ensures |KeysOf(t, env, vs)| + |FreshOf(t, env, vs)| == |vs|
    decreases vs
  {
    if vs != {} {
      var v :| v in vs;
      var rest := vs - {v};
      ReusedAndFresh(t, env, default, last, rest);
      SoundIsLookable(t, default, last, env);
      assert FindAccessible(t, env, v).Ok?;
      if Fresh(t, env, v) {
        assert FreshOf(t, env, vs) == FreshOf(t, env, rest) + {v};
        assert KeysOf(t, env, vs) == KeysOf(t, env, rest);
      } else {
        assert FreshOf(t, env, vs) == FreshOf(t, env, rest);
        assert KeysOf(t, env, vs) == KeysOf(t, env, rest) + {t.index[v]};
        assert t.index[v] !in KeysOf(t, env, rest);
      }
    }
  }

  lemma KeepSize(t: Table, env: Env, default: Value, kept: set<WritableKey>, w: Work)
    requires WorkOk(t, env, default, kept, w)
    ensures |w.keep| == |kept| + |w.lookup.Keys|
  {
    InverseSameSize(w.changes, w.lookup);
  }

  // ---------------------------------------------------------------------------------------
  // Room is enough
  // ---------------------------------------------------------------------------------------

  /** The keyspace can take the values `vs`: nothing new among them, or room left for it all. */
  ghost predicate Room(t: Table, env: Env, kept: set<WritableKey>, w: Work, vs: set<Value>) {
    || FreshOf(t, env, vs) <= w.lookup.Keys
    || |kept| + |w.lookup.Keys + FreshOf(t, env, vs)| < KEY_COUNT
  }

  ghost predicate Known(env: Env, fields: seq<Field>) {
    forall f :: f in fields && f.Utxo? ==> f.id in env.pointers
  }

  lemma CompressValueSucceeds(
      t: Table, env: Env, default: Value, kept: set<WritableKey>, w: Work, vs: set<Value>, v: Value)
    requires WorkOk(t, env, default, kept, w) && Lookable(t, env)
    requires Room(t, env, kept, w, vs) && (v != default ==> v in vs)
    ensures CompressValue(t, env, default, w, v).Ok?
  {
    assert FindAccessible(t, env, v).Ok?;
    if v != default && v !in w.lookup && Fresh(t, env, v) {
      KeepSize(t, env, default, kept, w);
      assert v in FreshOf(t, env, vs);
      SubsetCardinality(w.lookup.Keys + {v}, w.lookup.Keys + FreshOf(t, env, vs));
    }
  }

  ghost predicate AllRoom(tables: Tables, env: Env, kept: Kept, works: Works, fields: seq<Field>) {
    forall ks: Keyspace :: Room(tables.Get(ks), env, kept.Get(ks), works.Get(ks), ValuesIn(fields, ks))
  }

  lemma CompressFieldSucceeds(
      tables: Tables, env: Env, kept: Kept, works: Works, f: Field, rest: seq<Field>)
    requires WorksOk(tables, env, kept, works) && AllLookable(tables, env)
    requires AllRoom(tables, env, kept, works, [f] + rest) && Known(env, [f] + rest)
    ensures CompressField(tables, env, works, f).Ok?
  {
    assert f in [f] + rest;
    if f.Registry? {
      assert WorkOk(tables.Get(f.ks), env, DefaultOf(f.ks), kept.Get(f.ks), works.Get(f.ks));
      assert Lookable(tables.Get(f.ks), env);
      assert Room(tables.Get(f.ks), env, kept.Get(f.ks), works.Get(f.ks), ValuesIn([f] + rest, f.ks));
      assert f.value != DefaultOf(f.ks) ==> f.value in ValuesIn([f] + rest, f.ks);
      hide WorkOk, Lookable, Room, ValuesIn, CompressValue;
      CompressValueSucceeds(tables.Get(f.ks), env, DefaultOf(f.ks), kept.Get(f.ks), works.Get(f.ks),
                            ValuesIn([f] + rest, f.ks), f.value);
    }
  }

  /** Room for all of a list is, once its front is compressed, room for the rest. */
  lemma RoomForRest(
      tables: Tables, env: Env, kept: Kept, works: Works, front: seq<Field>, rest: seq<Field>, mid: Works)
    requires AllRoom(tables, env, kept, works, front + rest) && Advances(tables, env, works, front, mid)
    ensures AllRoom(tables, env, kept, mid, rest)
  {
    forall ks: Keyspace
      ensures Room(tables.Get(ks), env, kept.Get(ks), mid.Get(ks), ValuesIn(rest, ks))
    {
      var t, w, w' := tables.Get(ks), works.Get(ks), mid.Get(ks);
      assert Room(t, env, kept.Get(ks), w, ValuesIn(front + rest, ks));
      assert Gained(t, env, w, ValuesIn(front, ks), w');
      ValuesInConcat(front, rest, ks);
      RoomSplits(t, env, kept.Get(ks), w, ValuesIn(front, ks), ValuesIn(rest, ks), w');
    }
  }

  lemma FreshOfUnion(t: Table, env: Env, a: set<Value>, b: set<Value>)
    ensures FreshOf(t, env, a + b) == FreshOf(t, env, a) + FreshOf(t, env, b)
  {}

  lemma RoomSplits(
      t: Table, env: Env, kept: set<WritableKey>, w: Work, a: set<Value>, b: set<Value>, w': Work)
    requires Room(t, env, kept, w, a + b) && Gained(t, env, w, a, w')
    ensures Room(t, env, kept, w', b)
  {
    hide FreshOf;
    FreshOfUnion(t, env, a, b);
    assert w'.lookup.Keys + FreshOf(t, env, b) == w.lookup.Keys + FreshOf(t, env, a + b);
  }

  lemma KnownParts(env: Env, a: seq<Field>, b: seq<Field>)
    ensures Known(env, a + b) <==> Known(env, a) && Known(env, b)
  {
    assert forall f :: f in a + b <==> f in a || f in b;
  }

  lemma {:induction false} CompressFieldsSucceed(
      tables: Tables, env: Env, kept: Kept, works: Works, fields: seq<Field>, done: seq<CompressedField>)
    requires WorksOk(tables, env, kept, works) && AllLookable(tables, env) && Covers(tables, env, kept, fields)
    requires AllRoom(tables, env, kept, works, fields) && Known(env, fields)
    ensures CompressFields(tables, env, works, fields, done).Ok?
    decreases |fields|
  {
    hide WorksOk, AllLookable, Covers, AllRoom, Known, Advances, CompressField;
    if fields != [] {
      var f, rest := fields[0], fields[1..];
      assert fields == [f] + rest;
      CompressFieldSucceeds(tables, env, kept, works, f, rest);
      CoversPart(tables, env, kept, [f], rest);
      CompressFieldOk(tables, env, kept, works, f);
      var (c, mid) := CompressField(tables, env, works, f).value;
      RoomForRest(tables, env, kept, works, [f], rest, mid);
      KnownParts(env, [f], rest);
      CompressFieldsSucceed(tables, env, kept, mid, rest, done + [c]);
    }
  }

  lemma {:induction false} CompressTransactionsSucceed(
      tables: Tables, env: Env, kept: Kept, works: Works, txs: seq<Transaction>, done: seq<CompressedTransaction>)
    requires WorksOk(tables, env, kept, works) && AllLookable(tables, env)
    requires Covers(tables, env, kept, AllFields(txs))
    requires AllRoom(tables, env, kept, works, AllFields(txs)) && Known(env, AllFields(txs))
    ensures CompressTransactions(tables, env, works, txs, done).Ok?
    decreases |txs|
  {
    hide WorksOk, AllLookable, Covers, AllRoom, Known, Advances, CompressFields;
    if txs != [] {
      var fields, rest := txs[0].fields, AllFields(txs[1..]);
      CoversPart(tables, env, kept, fields, rest);
      KnownParts(env, fields, rest);
      RoomForFront(tables, env, kept, works, fields, rest);
      CompressFieldsSucceed(tables, env, kept, works, fields, []);
      CompressFieldsOk(tables, env, kept, works, fields, []);
      var (cs, mid) := CompressFields(tables, env, works, fields, []).value;
      RoomForRest(tables, env, kept, works, fields, rest, mid);
      CompressTransactionsSucceed(tables, env, kept, mid, txs[1..], done + [Packed(txs[0], cs)]);
    }
  }

  lemma RoomForFront(tables: Tables, env: Env, kept: Kept, works: Works, front: seq<Field>, rest: seq<Field>)
    requires AllRoom(tables, env, kept, works, front + rest)
    ensures AllRoom(tables, env, kept, works, front)
  {
    forall ks: Keyspace
      ensures Room(tables.Get(ks), env, kept.Get(ks), works.Get(ks), ValuesIn(front, ks))
    {
      var t, w := tables.Get(ks), works.Get(ks);
      assert Room(t, env, kept.Get(ks), w, ValuesIn(front + rest, ks));
      ValuesInConcat(front, rest, ks);
      assert FreshOf(t, env, ValuesIn(front, ks)) <= FreshOf(t, env, ValuesIn(front + rest, ks));
      SubsetCardinality(w.lookup.Keys + FreshOf(t, env, ValuesIn(front, ks)),
                        w.lookup.Keys + FreshOf(t, env, ValuesIn(front + rest, ks)));
    }
  }

  // ---------------------------------------------------------------------------------------
  // Room is needed
  // ---------------------------------------------------------------------------------------

  /** A keyspace that took a new key still leaves one free. */
  ghost predicate UntouchedOrRoomy(w: Work, w': Work) {
    w' == w || |w'.keep| < KEY_COUNT
  }

  ghost predicate AllUntouchedOrRoomy(works: Works, works': Works) {
    forall ks: Keyspace :: UntouchedOrRoomy(works.Get(ks), works'.Get(ks))
  }

  lemma {:induction false} FieldsNeedRoom(
      tables: Tables, env: Env, works: Works, fields: seq<Field>, done: seq<CompressedField>)
    requires CompressFields(tables, env, works, fields, done).Ok?
    ensures AllUntouchedOrRoomy(works, CompressFields(tables, env, works, fields, done).value.1)
    ensures Known(env, fields)
    decreases |fields|
  {
    if fields != [] {
      var (c, mid) := CompressField(tables, env, works, fields[0]).value;
      FieldsNeedRoom(tables, env, mid, fields[1..], done + [c]);
      assert AllUntouchedOrRoomy(works, mid);
      assert forall f :: f in fields ==> f == fields[0] || f in fields[1..];
    }
  }

  lemma {:induction false} TransactionsNeedRoom(
      tables: Tables, env: Env, works: Works, txs: seq<Transaction>, done: seq<CompressedTransaction>)
    requires CompressTransactions(tables, env, works, txs, done).Ok?
    ensures AllUntouchedOrRoomy(works, CompressTransactions(tables, env, works, txs, done).value.1)
    ensures Known(env, AllFields(txs))
    decreases |txs|
  {
    hide CompressFields;
    if txs != [] {
      FieldsNeedRoom(tables, env, works, txs[0].fields, []);
      var (cs, mid) := CompressFields(tables, env, works, txs[0].fields, []).value;
      TransactionsNeedRoom(tables, env, mid, txs[1..], done + [Packed(txs[0], cs)]);
      KnownParts(env, txs[0].fields, AllFields(txs[1..]));
    }
  }

  // ---------------------------------------------------------------------------------------
  // The exact condition
  // ---------------------------------------------------------------------------------------

  /** No new key is needed in the keyspace, or its distinct values are fewer than the keys. */
  ghost predicate FitsKeyspace(t: Table, env: Env, vs: set<Value>) {
    FreshOf(t, env, vs) == {} || |vs| < 0xFF_FFFF
  }

  lemma FitsIffRoom(t: Table, env: Env, default: Value, last: Time, vs: set<Value>)
    requires Sound(t, default, last) && last <= env.now
    ensures Room(t, env, KeysOf(t, env, vs), NewWork(t, KeysOf(t, env, vs)), vs) <==> FitsKeyspace(t, env, vs)
  {
    ReusedAndFresh(t, env, default, last, vs);
    assert {} + FreshOf(t, env, vs) == FreshOf(t, env, vs);
  }

  lemma UsedIsRoom(
      t: Table, env: Env, default: Value, kept: set<WritableKey>, w: Work, vs: set<Value>, w': Work)
    requires WorkOk(t, env, default, kept, w') && Gained(t, env, w, vs, w') && UntouchedOrRoomy(w, w')
    ensures Room(t, env, kept, w, vs)
  {
    KeepSize(t, env, default, kept, w');
  }

  /** Compression of a block succeeds exactly when its outputs are known and its values fit. */
  lemma CompressSucceedsIff(tables: Tables, last: Time, env: Env, block: Block)
    requires SoundTables(tables, last) && last <= env.now
    ensures var fields := AllFields(block.transactions);
      CompressBody(tables, env, block).Ok? <==>
        && Known(env, fields)
        && forall ks: Keyspace :: FitsKeyspace(tables.Get(ks), env, ValuesIn(fields, ks))
  {
    SoundTablesAreLookable(tables, last, env);
    var kept := PreparedFor(tables, env, block);
    var fields, works := AllFields(block.transactions), StartWorks(tables, kept);
    StartWorksOk(tables, env, kept);
    forall ks: Keyspace
      ensures Room(tables.Get(ks), env, kept.Get(ks), works.Get(ks), ValuesIn(fields, ks))
         <==> FitsKeyspace(tables.Get(ks), env, ValuesIn(fields, ks))
    {
      assert Sound(tables.Get(ks), DefaultOf(ks), last);
      assert kept.Get(ks) == KeysOf(tables.Get(ks), env, ValuesIn(fields, ks));
      FitsIffRoom(tables.Get(ks), env, DefaultOf(ks), last, ValuesIn(fields, ks));
    }
    hide FitsKeyspace, Room, Known, Covers, WorksOk;
    if CompressTransactions(tables, env, works, block.transactions, []).Ok? {
      SuccessNeedsRoom(tables, env, kept, works, block.transactions);
    } else if AllRoom(tables, env, kept, works, fields) && Known(env, fields) {
      CompressTransactionsSucceed(tables, env, kept, works, block.transactions, []);
    }
  }

  lemma SuccessNeedsRoom(tables: Tables, env: Env, kept: Kept, works: Works, txs: seq<Transaction>)
    requires WorksOk(tables, env, kept, works) && Covers(tables, env, kept, AllFields(txs))
    requires CompressTransactions(tables, env, works, txs, []).Ok?
    ensures AllRoom(tables, env, kept, works, AllFields(txs)) && Known(env, AllFields(txs))
  {
    CompressTransactionsOk(tables, env, kept, works, txs, []);
    TransactionsNeedRoom(tables, env, works, txs, []);
    var works' := CompressTransactions(tables, env, works, txs, []).value.1;
    hide WorkOk, Gained, UntouchedOrRoomy, ValuesIn, Room, Known, CompressTransactions, AllFields;
    forall ks: Keyspace
      ensures Room(tables.Get(ks), env, kept.Get(ks), works.Get(ks), ValuesIn(AllFields(txs), ks))
    {
      assert WorkOk(tables.Get(ks), env, DefaultOf(ks), kept.Get(ks), works'.Get(ks));
      assert Gained(tables.Get(ks), env, works.Get(ks), ValuesIn(AllFields(txs), ks), works'.Get(ks));
      UsedIsRoom(tables.Get(ks), env, DefaultOf(ks), kept.Get(ks), works.Get(ks),
                 ValuesIn(AllFields(txs), ks), works'.Get(ks));
    }
  }
}
