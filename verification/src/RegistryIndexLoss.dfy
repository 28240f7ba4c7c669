/**
 Chains of blocks on which the reverse index falls short: after a lap of the cursor a stored
 value cannot be found any more, or can or cannot depending on the order of writing.
 */
module RegistryIndexLoss {
  import opened Wrappers
  import opened RegistryKeys
  import opened Blocks
  import opened TemporalRegistry
  import opened EvictionPolicy
  import opened Compression
  import opened ChainRoundTrip

  // ---------------------------------------------------------------------------------------
  // Blocks of script code
  // ---------------------------------------------------------------------------------------

  function CodeFields(vs: seq<Value>): seq<Field> {
    seq(|vs|, i requires 0 <= i < |vs| => Registry(ScriptCode, vs[i]))
  }

  /** A block with the given script code, closed by its mint. */
  function CodeBlock(height: nat, time: Time, vs: seq<Value>): Block {
    Block(Header(height, time), [Other(CodeFields(vs)), Mint([], TxPointer(height, 1))])
  }

  /** Different values, none of which can be referred to. */
  ghost predicate AllFresh(t: Table, env: Env, vs: seq<Value>) {
    && (forall i :: 0 <= i < |vs| ==> vs[i] != [] && Fresh(t, env, vs[i]))
    && (forall i, j :: 0 <= i < j < |vs| ==> vs[i] != vs[j])
    && |vs| < KEY_COUNT
  }

  /** The state of the keyspace after each of the values was assigned a key. */
  ghost function AssignAll(w: Work, vs: seq<Value>): Work
    requires |w.keep| + |vs| < KEY_COUNT
    decreases |vs|
  {
    if vs == [] then w
    else
      var key := NextFree(w.keep, w.next);
      AssignAll(Work(w.keep + {key}, key, w.changes[key := vs[0]], w.lookup[vs[0] := key]), vs[1..])
  }

  lemma CodeFieldsTail(vs: seq<Value>)
    requires vs != []
    ensures CodeFields(vs)[0] == Registry(ScriptCode, vs[0]) && CodeFields(vs)[1..] == CodeFields(vs[1..])
  {}

  lemma {:induction false} CodePrepared(before: Tables, env: Env, vs: seq<Value>)
    requires AllFresh(before.scriptCode, env, vs)
    ensures PrepareFields(before, env, NothingKept(), CodeFields(vs)) == Ok(NothingKept())
    decreases |vs|
  {
    if vs != [] {
      CodeFieldsTail(vs);
      var f, kept := Registry(ScriptCode, vs[0]), NothingKept();
      SetSame(kept, ScriptCode);
      assert PrepareField(before, env, kept, f) == Ok(kept);
      CodePrepared(before, env, vs[1..]);
    }
  }

  lemma {:induction false} CodeCompressed(
      before: Tables, env: Env, works: Works, vs: seq<Value>, done: seq<CompressedField>)
    requires AllFresh(before.scriptCode, env, vs) && |works.scriptCode.keep| + |vs| < KEY_COUNT
    requires forall i :: 0 <= i < |vs| ==> vs[i] !in works.scriptCode.lookup
    ensures var r := CompressFields(before, env, works, CodeFields(vs), done);
      r.Ok? && r.value.1 == Set(works, ScriptCode, AssignAll(works.scriptCode, vs))
    decreases |vs|
  {
    if vs == [] {
      SetSame(works, ScriptCode);
    } else {
      CodeFieldsTail(vs);
      var w := works.scriptCode;
      var key := NextFree(w.keep, w.next);
      var w' := Work(w.keep + {key}, key, w.changes[key := vs[0]], w.lookup[vs[0] := key]);
      var next := Set(works, ScriptCode, w');
      assert CompressField(before, env, works, CodeFields(vs)[0]) == Ok((Key(ScriptCode, key), next));
      hide CompressField, NextFree;
      CodeCompressed(before, env, next, vs[1..], done + [Key(ScriptCode, key)]);
      assert Set(next, ScriptCode, AssignAll(w', vs[1..])) == Set(works, ScriptCode, AssignAll(w', vs[1..]));
    }
  }

  /** What compressing such a block leaves for each keyspace. */
  ghost function CodeWorks(before: Tables, vs: seq<Value>): Works
    requires |vs| < KEY_COUNT
  {
    Set(StartWorks(before, NothingKept()), ScriptCode, AssignAll(NewWork(before.scriptCode, {}), vs))
  }

  lemma CodeBlockPrepared(before: Tables, env: Env, height: nat, vs: seq<Value>)
    requires AllFresh(before.scriptCode, env, vs)
    ensures PrepareBlock(before, env, NothingKept(), CodeBlock(height, env.now, vs).transactions) == Ok(NothingKept())
  {
    CodePrepared(before, env, vs);
    hide CodeFields, AllFresh;
    var kept, txs := NothingKept(), CodeBlock(height, env.now, vs).transactions;
    assert PrepareFields(before, env, kept, []) == Ok(kept);
    assert PrepareBlock(before, env, kept, txs[1..][1..]) == Ok(kept);
    assert PrepareBlock(before, env, kept, txs[1..]) == Ok(kept);
  }

  lemma CodeBlockBody(before: Tables, env: Env, height: nat, vs: seq<Value>)
    requires AllFresh(before.scriptCode, env, vs)
    ensures var r := CompressBody(before, env, CodeBlock(height, env.now, vs));
      r.Ok? && r.value.1 == CodeWorks(before, vs)
  {
    var works, txs := StartWorks(before, NothingKept()), CodeBlock(height, env.now, vs).transactions;
    assert works.Get(ScriptCode) == NewWork(before.scriptCode, {});
    CodeCompressed(before, env, works, vs, []);
    CodeBlockPrepared(before, env, height, vs);
    hide CodeFields, AllFresh, AssignAll, PrepareBlock;
    var (cs, next) := CompressFields(before, env, works, txs[0].fields, []).value;
    assert txs[1..] == [Mint([], TxPointer(height, 1))];
    EmptyMint(before, env, next, TxPointer(height, 1), [] + [Packed(txs[0], cs)]);
  }

  lemma EmptyMint(before: Tables, env: Env, works: Works, p: TxPointer, done: seq<CompressedTransaction>)
    ensures CompressTransactions(before, env, works, [Mint([], p)], done) == Ok((done + [CompressedMint([])], works))
  {
    assert [Mint([], p)][1..] == [];
    assert CompressFields(before, env, works, [], []) == Ok(([], works));
    assert CompressTransactions(before, env, works, [], done + [CompressedMint([])])
        == Ok((done + [CompressedMint([])], works));
  }

  lemma CodeBlockIsClosed(height: nat, time: Time, vs: seq<Value>)
    ensures ClosedByMint(CodeBlock(height, time, vs))
  {}

  lemma CodeDrains(before: Tables, vs: seq<Value>, regs: seq<(WritableKey, Value)>, ks: Keyspace)
    requires |vs| < KEY_COUNT && Drains(regs, AssignAll(NewWork(before.scriptCode, {}), vs).changes)
    ensures Drains(Set(Each(_ => []), ScriptCode, regs).Get(ks), CodeWorks(before, vs).Get(ks).changes)
  {
    hide AssignAll;
    if ks != ScriptCode {
      assert CodeWorks(before, vs).Get(ks) == NewWork(before.Get(ks), {});
    }
  }

  /** Such a block compresses, with its registrations listed in any order the drain may have. */
  lemma CompressCode(
      before: Tables, retention: nat, height: nat, time: Time, vs: seq<Value>, regs: seq<(WritableKey, Value)>)
    returns (s: Step, after: Tables)
    requires AllFresh(before.scriptCode, Env(retention, time, map[]), vs)
    requires Drains(regs, AssignAll(NewWork(before.scriptCode, {}), vs).changes)
    ensures Compresses(before, retention, s.pointers, s.block, s.out, after)
    ensures s.block == CodeBlock(height, time, vs) && s.pointers == map[] && Undoes(s.history, s.pointers)
    ensures after.scriptCode == Finalized(before.scriptCode, AssignAll(NewWork(before.scriptCode, {}), vs), regs, time)
  {
    var env, works := Env(retention, time, map[]), CodeWorks(before, vs);
    CodeBlockBody(before, env, height, vs);
    assert works.scriptCode == AssignAll(NewWork(before.scriptCode, {}), vs);
    var all := Set(Each(_ => []), ScriptCode, regs);
    assert all.scriptCode == regs;
    hide CompressBody, AssignAll, Drains, WriteAll, AllFresh, CodeBlock;
    after := Each((ks: Keyspace) => Finalized(before.Get(ks), works.Get(ks), all.Get(ks), time));
    assert after.Get(ScriptCode) == Finalized(before.scriptCode, works.scriptCode, all.scriptCode, time);
    var block := CodeBlock(height, time, vs);
    assert block.header == Header(height, time) by { CodeBlockHeader(height, time, vs); }
    s := Step(block, map[], map[],
              CompressedBlock(block.header, all, CompressBody(before, env, block).value.0));
    forall ks: Keyspace
      ensures FinalizedAs(before.Get(ks), works.Get(ks), all.Get(ks), time, after.Get(ks))
    {
      hide CodeWorks;
      CodeDrains(before, vs, regs, ks);
    }
    hide FinalizedAs, Finalized, CodeWorks;
  }

  lemma CodeBlockHeader(height: nat, time: Time, vs: seq<Value>)
    ensures CodeBlock(height, time, vs).header == Header(height, time)
  {}

  // ---------------------------------------------------------------------------------------
  // One value
  // ---------------------------------------------------------------------------------------

  /** The table after one new value took the next key. */
  function Assigned(t: Table, v: Value, time: Time): Table {
    Write(t.(latest := Some(StartKey(t.latest))), StartKey(t.latest), v, time)
  }

  lemma AssignedOne(t: Table, v: Value)
    ensures var key := StartKey(t.latest);
      AssignAll(NewWork(t, {}), [v]) == Work({key}, key, map[key := v], map[v := key])
  {
    var key := StartKey(t.latest);
    KeyAtWrittenKey(key);
    assert NextFree({}, key) == key && {} + {key} == {key};
    assert AssignAll(Work({key}, key, map[key := v], map[v := key]), [v][1..])
        == Work({key}, key, map[key := v], map[v := key]);
  }

  lemma FinalizedOne(t: Table, w: Work, key: WritableKey, v: Value, time: Time)
    ensures Finalized(t, w, [(key, v)], time) == Write(t.(latest := Some(w.next)), key, v, time)
  {
    hide Write;
    assert [(key, v)][1..] == [];
    var t' := Write(t.(latest := Some(w.next)), key, v, time);
    assert WriteAll(t', [], time) == t';
  }

  /** A block with one value that needs a new key takes the key after the committed one. */
  lemma CompressOne(before: Tables, retention: nat, height: nat, time: Time, v: Value)
    returns (s: Step, after: Tables)
    requires v != [] && Fresh(before.scriptCode, Env(retention, time, map[]), v)
    ensures Compresses(before, retention, s.pointers, s.block, s.out, after)
    ensures s.block == CodeBlock(height, time, [v]) && Undoes(s.history, s.pointers)
    ensures after.scriptCode == Assigned(before.scriptCode, v, time)
  {
    hide Compresses, CodeBlock, AssignAll, Finalized, Undoes;
    var key := StartKey(before.scriptCode.latest);
    AssignedOne(before.scriptCode, v);
    assert Drains([(key, v)], map[key := v]) by { assert [(key, v)][0].0 == key; }
    hide Drains;
    s, after := CompressCode(before, retention, height, time, [v], [(key, v)]);
    FinalizedOne(before.scriptCode, AssignAll(NewWork(before.scriptCode, {}), [v]), key, v, time);
  }

  // ---------------------------------------------------------------------------------------
  // A lap
  // ---------------------------------------------------------------------------------------

  const LOST: Value := [1]
  const LAST: Value := [2]

  ghost function Padding(n: nat): Value { seq(n, _ => 0) }

  /** After `n` blocks: two keys hold the same value, and the next key was never written. */
  ghost predicate TwoKeysOneValue(t: Table, n: nat, now: Time) {
    && 2 <= n <= KEY_COUNT
    && t.latest == Some(n - 1)
    && 0 in t.values && t.values[0] == LOST
    && 1 in t.values && t.values[1] == LOST && 1 in t.times && t.times[1] == now
    && LOST in t.index && t.index[LOST] == 1
    && (forall k :: k in t.values ==> k < n)
    && (forall v :: v in t.index && v != LOST ==> 2 < |v| <= n)
  }

  /** A chain from the empty registry whose blocks are numbered, closed by their mints and in order of time. */
  ghost predicate Proper(retention: nat, states: seq<Tables>, steps: seq<Step>) {
    && CompressorRun(retention, states, steps)
    && states[0] == Unwritten()
    && (forall i :: 0 <= i < |steps| ==> steps[i].block.header.height == i)
    && Chronological(0, steps) && WellFormed(steps)
  }

  /** Whatever became of the index, such a chain decompresses to its blocks. */
  lemma ProperRoundTrips(retention: nat, states: seq<Tables>, steps: seq<Step>)
    requires Proper(retention, states, steps)
    ensures var r := DecompressRun(retention, Unwritten(), steps, []);
      r.Ok? && r.value.0 == Originals(steps)
  {
    hide CompressorRun, Unwritten, Chronological, WellFormed, DecompressRun, SoundTables;
    EmptyIsSound(0);
    ChainRoundTrip.ChainRoundTrip(retention, states, steps, Unwritten(), 0, []);
    assert [] + Originals(steps) == Originals(steps);
  }

  lemma ProperSnoc(
      retention: nat, states: seq<Tables>, steps: seq<Step>, s: Step, after: Tables, time: Time, vs: seq<Value>)
    requires Proper(retention, states, steps)
    requires Compresses(states[|steps|], retention, s.pointers, s.block, s.out, after)
    requires s.block == CodeBlock(|steps|, time, vs) && Undoes(s.history, s.pointers)
    requires steps != [] ==> steps[|steps| - 1].block.header.time <= time
    ensures Proper(retention, states + [after], steps + [s])
  {
    hide Compresses, Unwritten, ClosedByMint, Undoes, CodeBlock, Chronological, WellFormed, CompressorRun;
    CodeBlockIsClosed(|steps|, time, vs);
    CodeBlockHeader(|steps|, time, vs);
    RunSnoc(retention, states, steps, s, after);
    ChronologicalSnoc(steps, s);
    WellFormedSnoc(steps, s);
  }

  lemma RunSnoc(retention: nat, states: seq<Tables>, steps: seq<Step>, s: Step, after: Tables)
    requires CompressorRun(retention, states, steps)
    requires Compresses(states[|steps|], retention, s.pointers, s.block, s.out, after)
    ensures CompressorRun(retention, states + [after], steps + [s])
    ensures |states| == |steps| + 1
  {
    hide Compresses;
  }

  lemma ChronologicalSnoc(steps: seq<Step>, s: Step)
    requires Chronological(0, steps)
    requires steps != [] ==> steps[|steps| - 1].block.header.time <= s.block.header.time
    ensures Chronological(0, steps + [s])
  {
    forall i | 0 <= i < |steps|
      ensures steps[i].block.header.time <= s.block.header.time
    {
      assert i < |steps| - 1 ==> steps[i].block.header.time <= steps[|steps| - 1].block.header.time;
    }
  }

  lemma WellFormedSnoc(steps: seq<Step>, s: Step)
    requires WellFormed(steps) && Undoes(s.history, s.pointers) && ClosedByMint(s.block)
    ensures WellFormed(steps + [s])
  {
    hide Undoes, ClosedByMint;
  }

  lemma ProperNothing(retention: nat)
    ensures Proper(retention, [Unwritten()], [])
  {}

  /** A value that has gone stale is registered again, under a second key. */
  lemma AssignedTwice(t: Table, retention: nat)
    requires t == Table(map[], map[], map[], None)
    ensures var t1 := Assigned(t, LOST, 0);
      && Fresh(t, Env(retention, 0, map[]), LOST) && Fresh(t1, Env(retention, retention + 1, map[]), LOST)
      && TwoKeysOneValue(Assigned(t1, LOST, retention + 1), 2, retention + 1)
  {
    var t1 := Assigned(t, LOST, 0);
    assert t1 == Table(map[0 := LOST], map[0 := 0], map[LOST := 0], Some(0));
  }

  /** A value longer than all before it takes a key that was never written. */
  lemma AssignedNext(t: Table, n: nat, retention: nat)
    requires 2 < n <= KEY_COUNT && TwoKeysOneValue(t, n - 1, retention + 1)
    ensures Fresh(t, Env(retention, retention + 1, map[]), Padding(n))
    ensures TwoKeysOneValue(Assigned(t, Padding(n), retention + 1), n, retention + 1)
  {
    assert |Padding(n)| == n;
    hide Padding;
  }

  lemma {:induction false} Lap(retention: nat, n: nat) returns (states: seq<Tables>, steps: seq<Step>)
    requires 2 <= n <= KEY_COUNT
    ensures Proper(retention, states, steps) && |states| == n + 1 && |steps| == n
    ensures steps[n - 1].block.header.time == retention + 1
    ensures TwoKeysOneValue(states[n].scriptCode, n, retention + 1)
    decreases n
  {
    hide Compresses, TwoKeysOneValue, Proper, Fresh, Assigned, Undoes, CodeBlock;
    if n == 2 {
      AssignedTwice(Unwritten().scriptCode, retention);
      ProperNothing(retention);
      states, steps := [Unwritten()], [];
      var s, after := CompressOne(states[0], retention, 0, 0, LOST);
      ProperSnoc(retention, states, steps, s, after, 0, [LOST]);
      CodeBlockHeader(0, 0, [LOST]);
      states, steps := states + [after], steps + [s];
      s, after := CompressOne(states[1], retention, 1, retention + 1, LOST);
      ProperSnoc(retention, states, steps, s, after, retention + 1, [LOST]);
      CodeBlockHeader(1, retention + 1, [LOST]);
      states, steps := states + [after], steps + [s];
    } else {
      states, steps := Lap(retention, n - 1);
      AssignedNext(states[n - 1].scriptCode, n, retention);
      assert Padding(n) != [];
      var s, after := CompressOne(states[n - 1], retention, n - 1, retention + 1, Padding(n));
      ProperSnoc(retention, states, steps, s, after, retention + 1, [Padding(n)]);
      CodeBlockHeader(n - 1, retention + 1, [Padding(n)]);
      states, steps := states + [after], steps + [s];
    }
  }

  /** When the cursor has come round to the first of the two keys, the index entry goes, the value stays. */
  lemma AssignedLast(t: Table, retention: nat)
    requires TwoKeysOneValue(t, KEY_COUNT, retention + 1)
    ensures Fresh(t, Env(retention, retention + 1, map[]), LAST)
    ensures var t' := Assigned(t, LAST, retention + 1);
      && 1 in t'.values && t'.values[1] == LOST && LOST !in t'.index
      && 1 in t'.times && t'.times[1] == retention + 1
  {}

  /**
   From the empty registry the compressor reaches one that still stores a value, written at the
   time of the latest block and so within retention, which the index does not find.
   */
  lemma IndexLosesValue(retention: nat) returns (states: seq<Tables>, steps: seq<Step>)
    ensures Proper(retention, states, steps) && |states| == |steps| + 1 && steps != []
    ensures var t := states[|steps|].scriptCode;
      && 1 in t.values && t.values[1] == LOST && LOST !in t.index
      && 1 in t.times && t.times[1] == steps[|steps| - 1].block.header.time
  {
    hide Compresses, TwoKeysOneValue, Proper, Fresh, Assigned, Undoes, CodeBlock;
    states, steps := Lap(retention, KEY_COUNT);
    AssignedLast(states[KEY_COUNT].scriptCode, retention);
    var s, after := CompressOne(states[KEY_COUNT], retention, KEY_COUNT, retention + 1, LAST);
    ProperSnoc(retention, states, steps, s, after, retention + 1, [LAST]);
    CodeBlockHeader(KEY_COUNT, retention + 1, [LAST]);
    states, steps := states + [after], steps + [s];
  }

  // ---------------------------------------------------------------------------------------
  // Two values, in two orders
  // ---------------------------------------------------------------------------------------

  /** Once the first of the two keys is next and their value has gone stale, a block can assign both. */
  lemma AssignedBoth(t: Table, retention: nat)
    requires TwoKeysOneValue(t, KEY_COUNT, retention + 1)
    ensures AllFresh(t, Env(retention, 2 * retention + 2, map[]), [LAST, LOST])
    ensures var w := AssignAll(NewWork(t, {}), [LAST, LOST]);
      w.next == 1 && w.changes == map[0 := LAST, 1 := LOST]
  {
    hide NextFree;
    KeyAtWrittenKey(0);
    NextFreeSkips({}, 0);
    NextFreeSkips({0}, 0);
    NextFreeSkips({0}, 1);
    var w1 := Work({0}, 0, map[0 := LAST], map[LAST := 0]);
    var w2 := Work({0, 1}, 1, map[0 := LAST, 1 := LOST], map[LAST := 0, LOST := 1]);
    assert {} + {0} == {0} && {0} + {1} == {0, 1};
    assert [LAST, LOST][1..] == [LOST] && [LOST][1..] == [];
    assert AssignAll(w2, []) == w2;
    assert AssignAll(w1, [LOST]) == w2;
  }

  lemma FinalizedTwo(t: Table, w: Work, a: (WritableKey, Value), b: (WritableKey, Value), time: Time)
    ensures Finalized(t, w, [a, b], time) ==
      Write(Write(t.(latest := Some(w.next)), a.0, a.1, time), b.0, b.1, time)
  {
    hide Write;
    assert [a, b][1..] == [b] && [b][1..] == [];
    var t1 := Write(t.(latest := Some(w.next)), a.0, a.1, time);
    var t2 := Write(t1, b.0, b.1, time);
    assert WriteAll(t2, [], time) == t2;
    assert WriteAll(t1, [b], time) == t2;
  }

  /** Written in one order the value is indexed, in the other it is not. */
  lemma TwoOrders(t: Table, w: Work, retention: nat, time: Time)
    requires TwoKeysOneValue(t, KEY_COUNT, retention + 1)
    ensures LOST in Finalized(t, w, [(0, LAST), (1, LOST)], time).index
    ensures LOST !in Finalized(t, w, [(1, LOST), (0, LAST)], time).index
  {
    FinalizedTwo(t, w, (0, LAST), (1, LOST), time);
    FinalizedTwo(t, w, (1, LOST), (0, LAST), time);
    hide Finalized;
  }

  lemma BothDrain()
    ensures Drains([(0, LAST), (1, LOST)], map[0 := LAST, 1 := LOST])
    ensures Drains([(1, LOST), (0, LAST)], map[0 := LAST, 1 := LOST])
  {
    var a: seq<(WritableKey, Value)>, b: seq<(WritableKey, Value)> :=
      [(0, LAST), (1, LOST)], [(1, LOST), (0, LAST)];
    assert a[0].0 == 0 && a[1].0 == 1 && b[0].0 == 1 && b[1].0 == 0;
  }

  /**
   At the end of a chain of blocks, one block can be compressed in two ways that differ in the
   order of its registrations only; one leaves a stored value in the index, the other does not.
   */
  lemma OrderMatters(retention: nat)
    returns (states: seq<Tables>, steps: seq<Step>, a: Step, afterA: Tables, b: Step, afterB: Tables)
    ensures a.block == b.block && a.pointers == b.pointers
    ensures Proper(retention, states + [afterA], steps + [a])
    ensures Proper(retention, states + [afterB], steps + [b])
    ensures LOST in afterA.scriptCode.index && LOST !in afterB.scriptCode.index
  {
    hide Compresses, TwoKeysOneValue, Proper, AllFresh, Undoes, CodeBlock, AssignAll, Finalized, Drains;
    var time, vs := 2 * retention + 2, [LAST, LOST];
    states, steps := Lap(retention, KEY_COUNT);
    var before := states[KEY_COUNT];
    AssignedBoth(before.scriptCode, retention);
    BothDrain();
    a, afterA := CompressCode(before, retention, KEY_COUNT, time, vs, [(0, LAST), (1, LOST)]);
    b, afterB := CompressCode(before, retention, KEY_COUNT, time, vs, [(1, LOST), (0, LAST)]);
    TwoOrders(before.scriptCode, AssignAll(NewWork(before.scriptCode, {}), vs), retention, time);
    ProperSnoc(retention, states, steps, a, afterA, time, vs);
    ProperSnoc(retention, states, steps, b, afterB, time, vs);
  }
}
