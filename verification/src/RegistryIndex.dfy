/**
 The reverse index of the registry against its values: exactly when it depends on the order in
 which a block's registrations are written, and exactly when it loses a value that is stored.
 */
module RegistryIndex {
  import opened Wrappers
  import opened RegistryKeys
  import opened Blocks
  import opened TemporalRegistry
  import opened Compression
  import opened ChainRoundTrip

  // ---------------------------------------------------------------------------------------
  // The order of writing
  // ---------------------------------------------------------------------------------------

  ghost predicate Wrote(changes: map<WritableKey, Value>, v: Value) {
    exists k :: k in changes && changes[k] == v
  }

  ghost predicate Evicts(t: Table, changes: map<WritableKey, Value>, v: Value) {
    exists k :: k in changes && k in t.values && t.values[k] == v
  }

  /** Two entries share a value, or one overwrites what the other registers anew. */
  ghost predicate ClashAt(t: Table, changes: map<WritableKey, Value>, k: WritableKey, other: WritableKey) {
    && k in changes && other in changes && k != other
    && (changes[k] == changes[other] || (k in t.values && t.values[k] == changes[other]))
  }

  ghost predicate Clashes(t: Table, changes: map<WritableKey, Value>) {
    exists k, other :: ClashAt(t, changes, k, other)
  }

  /** New values are indexed at their keys, evicted ones not at all, and all others as before. */
  ghost predicate IndexedAs(t: Table, changes: map<WritableKey, Value>, v: Value, index: map<Value, WritableKey>) {
    if Wrote(changes, v) then
      v in index && index[v] in changes && changes[index[v]] == v
    else
      && (v in index <==> v in t.index && !Evicts(t, changes, v))
      && (v in index ==> index[v] == t.index[v])
  }

  lemma FirstWriteClashes(t: Table, changes: map<WritableKey, Value>, key: WritableKey, now: Time)
    requires key in changes && !Clashes(t, changes)
    ensures !Clashes(Write(t, key, changes[key], now), changes - {key})
  {
    var t', rest := Write(t, key, changes[key], now), changes - {key};
    forall k, other
      ensures !ClashAt(t', rest, k, other)
    {
      assert !ClashAt(t, changes, k, other);
    }
  }

  /** Without clashes, writing one entry first and the rest after it indexes every value as it should be. */
  lemma FirstWriteIndexes(
      t: Table, changes: map<WritableKey, Value>, key: WritableKey, now: Time, v: Value, index: map<Value, WritableKey>)
    requires key in changes && !Clashes(t, changes)
    requires IndexedAs(Write(t, key, changes[key], now), changes - {key}, v, index)
    ensures IndexedAs(t, changes, v, index)
  {
    var t', rest := Write(t, key, changes[key], now), changes - {key};
    assert forall k :: k in changes <==> k in rest || k == key;
    assert forall k :: k in rest ==> rest[k] == changes[k];
    assert Wrote(changes, v) <==> Wrote(rest, v) || changes[key] == v by {
      if k :| k in rest && rest[k] == v {
        assert k in changes && changes[k] == v;
      }
    }
    if !Wrote(rest, v) && changes[key] == v {
      if Evicts(t', rest, v) {
        var k :| k in rest && k in t'.values && t'.values[k] == v;
        assert ClashAt(t, changes, k, key);
      }
    } else if !Wrote(rest, v) {
      assert Evicts(t, changes, v) <==> Evicts(t', rest, v) || (key in t.values && t.values[key] == v) by {
        if k :| k in changes && k in t.values && t.values[k] == v && k != key {
          assert k in rest && t'.values[k] == v;
        }
      }
    }
  }

  lemma {:induction false} WriteAllIndexes(
      t: Table, regs: seq<(WritableKey, Value)>, changes: map<WritableKey, Value>, now: Time, v: Value)
    requires Drains(regs, changes) && !Clashes(t, changes)
    ensures IndexedAs(t, changes, v, WriteAll(t, regs, now).index)
    decreases |regs|
  {
    if regs == [] {
      assert changes == map[];
    } else {
      var key := regs[0].0;
      assert changes[key] == regs[0].1;
      DrainTail(regs, changes);
      hide Drains, Clashes, IndexedAs, Write;
      FirstWriteClashes(t, changes, key, now);
      WriteAllIndexes(Write(t, key, changes[key], now), regs[1..], changes - {key}, now, v);
      FirstWriteIndexes(t, changes, key, now, v, WriteAll(t, regs, now).index);
    }
  }

  /** Without clashes, every order leaves the same index. */
  lemma NoClashOneIndex(
      t: Table, a: seq<(WritableKey, Value)>, b: seq<(WritableKey, Value)>, changes: map<WritableKey, Value>, now: Time)
    requires Drains(a, changes) && Drains(b, changes) && !Clashes(t, changes)
    ensures WriteAll(t, a, now).index == WriteAll(t, b, now).index
  {
    var x, y := WriteAll(t, a, now).index, WriteAll(t, b, now).index;
    forall v
      ensures v in x <==> v in y
      ensures v in x ==> x[v] == y[v]
    {
      WriteAllIndexes(t, a, changes, now, v);
      WriteAllIndexes(t, b, changes, now, v);
      if Wrote(changes, v) {
        assert !ClashAt(t, changes, x[v], y[v]);
      }
    }
  }

  lemma DrainSnoc(regs: seq<(WritableKey, Value)>, changes: map<WritableKey, Value>, k: WritableKey)
    requires k in changes && Drains(regs, changes - {k})
    ensures Drains(regs + [(k, changes[k])], changes)
  {
    var all := regs + [(k, changes[k])];
    forall other | other in changes
      ensures exists i :: 0 <= i < |all| && all[i].0 == other
    {
      if other == k {
        assert all[|regs|].0 == k;
      } else {
        assert other in changes - {k};
        var i :| 0 <= i < |regs| && regs[i].0 == other;
        assert all[i].0 == other;
      }
    }
  }

  lemma {:induction false} DrainExists(changes: map<WritableKey, Value>) returns (regs: seq<(WritableKey, Value)>)
    ensures Drains(regs, changes)
    decreases |changes.Keys|
  {
    if changes == map[] {
      regs := [];
    } else {
      var k :| k in changes;
      assert (changes - {k}).Keys == changes.Keys - {k};
      regs := DrainExists(changes - {k});
      DrainSnoc(regs, changes, k);
      regs := regs + [(k, changes[k])];
    }
  }

  lemma {:induction false} WriteAllSnoc(t: Table, regs: seq<(WritableKey, Value)>, k: WritableKey, v: Value, now: Time)
    ensures WriteAll(t, regs + [(k, v)], now) == Write(WriteAll(t, regs, now), k, v, now)
    decreases |regs|
  {
    var all := regs + [(k, v)];
    if regs == [] {
      assert WriteAll(Write(t, k, v, now), all[1..], now) == Write(t, k, v, now);
    } else {
      hide Write;
      assert all[1..] == regs[1..] + [(k, v)];
      WriteAllSnoc(Write(t, regs[0].0, regs[0].1, now), regs[1..], k, v, now);
    }
  }

  /** Clashing entries, written last in either order, leave different indexes. */
  lemma ClashTwoIndexes(t: Table, changes: map<WritableKey, Value>, now: Time, k: WritableKey, other: WritableKey)
    returns (a: seq<(WritableKey, Value)>, b: seq<(WritableKey, Value)>)
    requires ClashAt(t, changes, k, other)
    ensures Drains(a, changes) && Drains(b, changes)
    ensures WriteAll(t, a, now).index != WriteAll(t, b, now).index
  {
    hide Drains, Write, WriteAll;
    var base := DrainExists(changes - {k} - {other});
    assert changes - {other} - {k} == changes - {k} - {other};
    DrainSnoc(base, changes - {other}, k);
    DrainSnoc(base + [(k, changes[k])], changes, other);
    DrainSnoc(base, changes - {k}, other);
    DrainSnoc(base + [(other, changes[other])], changes, k);
    a := base + [(k, changes[k])] + [(other, changes[other])];
    b := base + [(other, changes[other])] + [(k, changes[k])];
    WriteAllMerges(t, base, changes - {k} - {other}, now);
    WriteAllSnoc(t, base, k, changes[k], now);
    WriteAllSnoc(t, base + [(k, changes[k])], other, changes[other], now);
    WriteAllSnoc(t, base, other, changes[other], now);
    WriteAllSnoc(t, base + [(other, changes[other])], k, changes[k], now);
    LastTwoWrites(WriteAll(t, base, now), k, changes[k], other, changes[other], now);
  }

  lemma LastTwoWrites(t: Table, k: WritableKey, v: Value, other: WritableKey, x: Value, now: Time)
    requires k != other && (v == x || (k in t.values && t.values[k] == x))
    ensures Write(Write(t, k, v, now), other, x, now).index != Write(Write(t, other, x, now), k, v, now).index
  {
    assert Write(Write(t, k, v, now), other, x, now).index[x] == other;
    assert v == x ==> Write(Write(t, other, x, now), k, v, now).index[x] == k;
    assert v != x ==> x !in Write(Write(t, other, x, now), k, v, now).index;
  }

  /** The index does not depend on the order a hash map is drained in, exactly if nothing clashes. */
  lemma IndexOrderIrrelevantIff(t: Table, changes: map<WritableKey, Value>, now: Time)
    ensures !Clashes(t, changes) <==>
      forall a, b :: Drains(a, changes) && Drains(b, changes) ==>
        WriteAll(t, a, now).index == WriteAll(t, b, now).index
  {
    hide Drains, WriteAll, ClashAt;
    if Clashes(t, changes) {
      var k, other :| ClashAt(t, changes, k, other);
      var a, b := ClashTwoIndexes(t, changes, now, k, other);
      assert Drains(a, changes) && Drains(b, changes);
    } else {
      forall a, b | Drains(a, changes) && Drains(b, changes)
        ensures WriteAll(t, a, now).index == WriteAll(t, b, now).index
      {
        NoClashOneIndex(t, a, b, changes, now);
      }
    }
  }

  // ---------------------------------------------------------------------------------------
  // Completeness over chains
  // ---------------------------------------------------------------------------------------

  /** Every stored value can be found after each of the writes. */
  ghost predicate CompleteThroughout(t: Table, regs: seq<(WritableKey, Value)>, now: Time) {
    forall n :: 0 <= n <= |regs| ==> Complete(WriteAll(t, regs[..n], now))
  }

  ghost predicate NoneLost(t: Table, regs: seq<(WritableKey, Value)>, now: Time) {
    forall n :: 0 <= n < |regs| ==> !Loses(WriteAll(t, regs[..n], now), regs[n].0, regs[n].1)
  }

  lemma WritesSplitLast(t: Table, regs: seq<(WritableKey, Value)>, now: Time)
    requires regs != []
    ensures var front, e := regs[..|regs| - 1], regs[|regs| - 1];
      && (CompleteThroughout(t, regs, now) <==> CompleteThroughout(t, front, now) && Complete(WriteAll(t, regs, now)))
      && (NoneLost(t, regs, now) <==> NoneLost(t, front, now) && !Loses(WriteAll(t, front, now), e.0, e.1))
      && (CompleteThroughout(t, front, now) ==> Complete(WriteAll(t, front, now)))
  {
    hide WriteAll, Complete, Loses;
    var front := regs[..|regs| - 1];
    assert forall n :: 0 <= n < |regs| ==> regs[..n] == front[..n];
    assert forall n :: 0 <= n < |front| ==> regs[n] == front[n];
    assert regs[..|regs|] == regs && front[..|front|] == front;
  }

  /** The index stays complete over a list of writes exactly when none of them loses a value. */
  lemma {:induction false} WritesKeepCompleteIff(t: Table, regs: seq<(WritableKey, Value)>, now: Time)
    requires Complete(t)
    ensures CompleteThroughout(t, regs, now) <==> NoneLost(t, regs, now)
    decreases |regs|
  {
    hide Complete, Write;
    if regs == [] {
      assert regs[..0] == [];
    } else {
      hide CompleteThroughout, NoneLost, WriteAll;
      var front, e := regs[..|regs| - 1], regs[|regs| - 1];
      WritesKeepCompleteIff(t, front, now);
      WritesSplitLast(t, regs, now);
      if Complete(WriteAll(t, front, now)) {
        WriteKeepsCompleteIff(WriteAll(t, front, now), e.0, e.1, now);
        WriteAllSnoc(t, front, e.0, e.1, now);
        assert regs == front + [(e.0, e.1)];
      }
    }
  }

  /** The evictor's key has no part in completeness. */
  lemma LatestIsNoMatter(t: Table, latest: Option<WritableKey>, regs: seq<(WritableKey, Value)>, now: Time)
    ensures Complete(WriteAll(t.(latest := latest), regs, now)) <==> Complete(WriteAll(t, regs, now))
  {
    hide WriteAll;
    WriteAllKeepsAgreement(t.(latest := latest), t, regs, now);
  }

  lemma BlockWrites(
      before: Tables, retention: nat, pointers: map<UtxoId, CompressedUtxoId>, block: Block, out: CompressedBlock,
      after: Tables, ks: Keyspace)
    requires Compresses(before, retention, pointers, block, out, after)
    ensures Complete(after.Get(ks)) <==>
      Complete(WriteAll(before.Get(ks), out.registrations.Get(ks), block.header.time))
  {
    hide CompressBody, Complete, Drains, WriteAll;
    var env := Env(retention, block.header.time, pointers);
    var w := CompressBody(before, env, block).value.1.Get(ks);
    assert FinalizedAs(before.Get(ks), w, out.registrations.Get(ks), env.now, after.Get(ks));
    LatestIsNoMatter(before.Get(ks), Some(w.next), out.registrations.Get(ks), env.now);
  }

  ghost predicate ChainComplete(states: seq<Tables>, steps: seq<Step>, ks: Keyspace)
    requires |states| == |steps| + 1
  {
    forall i :: 0 <= i < |steps| ==>
      CompleteThroughout(states[i].Get(ks), steps[i].out.registrations.Get(ks), steps[i].block.header.time)
  }

  ghost predicate ChainLosesNone(states: seq<Tables>, steps: seq<Step>, ks: Keyspace)
    requires |states| == |steps| + 1
  {
    forall i :: 0 <= i < |steps| ==>
      NoneLost(states[i].Get(ks), steps[i].out.registrations.Get(ks), steps[i].block.header.time)
  }

  lemma {:induction false} LosesNoneUpTo(
      retention: nat, states: seq<Tables>, steps: seq<Step>, ks: Keyspace, n: nat)
    requires CompressorRun(retention, states, steps) && Complete(states[0].Get(ks))
    requires ChainLosesNone(states, steps, ks) && n <= |steps|
    ensures Complete(states[n].Get(ks))
    decreases n
  {
    hide Complete, Compresses, CompleteThroughout, NoneLost, WriteAll;
    if n > 0 {
      LosesNoneUpTo(retention, states, steps, ks, n - 1);
      var t, s := states[n - 1].Get(ks), steps[n - 1];
      var regs := s.out.registrations.Get(ks);
      WritesKeepCompleteIff(t, regs, s.block.header.time);
      assert Complete(WriteAll(t, regs, s.block.header.time)) by { CompleteAtEnd(t, regs, s.block.header.time); }
      BlockWrites(states[n - 1], retention, s.pointers, s.block, s.out, states[n], ks);
    }
  }

  lemma CompleteAtEnd(t: Table, regs: seq<(WritableKey, Value)>, now: Time)
    requires CompleteThroughout(t, regs, now)
    ensures Complete(t) && Complete(WriteAll(t, regs, now))
  {
    hide Complete;
    assert regs[..|regs|] == regs && regs[..0] == [];
    assert Complete(WriteAll(t, regs[..0], now));
  }

  /**
   Over every chain of compressed blocks each stored value can be found throughout, exactly when
   no registration overwrites a value that another key holds too.
   */
  lemma ChainKeepsCompleteIff(retention: nat, states: seq<Tables>, steps: seq<Step>, ks: Keyspace)
    requires CompressorRun(retention, states, steps) && Complete(states[0].Get(ks))
    ensures ChainComplete(states, steps, ks) <==> ChainLosesNone(states, steps, ks)
  {
    hide Complete, Compresses, CompleteThroughout, NoneLost, WriteAll;
    forall i | 0 <= i < |steps| && (ChainComplete(states, steps, ks) || ChainLosesNone(states, steps, ks))
      ensures var t, regs, now :=
          states[i].Get(ks), steps[i].out.registrations.Get(ks), steps[i].block.header.time;
        CompleteThroughout(t, regs, now) <==> NoneLost(t, regs, now)
    {
      var t, regs, now := states[i].Get(ks), steps[i].out.registrations.Get(ks), steps[i].block.header.time;
      if ChainComplete(states, steps, ks) {
        CompleteAtEnd(t, regs, now);
      } else {
        LosesNoneUpTo(retention, states, steps, ks, i);
      }
      WritesKeepCompleteIff(t, regs, now);
    }
  }
}
