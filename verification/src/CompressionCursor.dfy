/**
 The evictor over a chain of compressed blocks: every block resumes where its predecessor
 stopped, passes over nothing but keys it reuses or registers, and so no key comes round again
 before every other key had its turn.
 */
module CompressionCursor {
  import opened Wrappers
  import opened RegistryKeys
  import opened Blocks
  import opened TemporalRegistry
  import opened EvictionPolicy
  import opened Compression
  import opened EvictionSafety
  import opened ChainRoundTrip

  ghost function KeysAt(positions: seq<nat>): set<WritableKey> {
    set q | q in positions :: KeyAt(q)
  }

  lemma KeepFits(keep: set<WritableKey>)
    ensures |keep| <= KEY_COUNT
  {
    var widened: set<int> := keep;
    SubsetCardinality(widened, KeysBelow(KEY_COUNT));
  }

  lemma KeysAtParts(a: seq<nat>, b: seq<nat>)
    ensures KeysAt(a + b) == KeysAt(a) + KeysAt(b)
  {
    assert forall r :: r in a + b <==> r in a || r in b;
  }

  lemma KeysAtOne(q: nat)
    ensures KeysAt([q]) == {KeyAt(q)}
  {
    assert q in [q];
  }

  lemma KeysAtSize(positions: seq<nat>)
    ensures |KeysAt(positions)| <= |positions|
  {
    if positions != [] {
      var front, last := positions[..|positions| - 1], positions[|positions| - 1];
      KeysAtSize(front);
      KeysAtOne(last);
      KeysAtParts(front, [last]);
      assert positions == front + [last];
    } else {
      assert KeysAt([]) == {};
    }
  }

  /** The key the next allocation takes, given what has been taken already. */
  ghost function NextPosition(keep: set<WritableKey>, p: nat, taken: seq<nat>): nat
    requires |keep| + |taken| < KEY_COUNT
  {
    KeysAtSize(taken);
    FreeFrom(keep + KeysAt(taken), Committed(p, taken))
  }

  /** One more allocation is one more search, from where the last one ended. */
  lemma {:induction false} AllocateOneMore(keep: set<WritableKey>, p: nat, count: nat)
    requires |keep| + count + 1 <= KEY_COUNT
    ensures var taken := Allocate(keep, p, count);
      Allocate(keep, p, count + 1) == taken + [NextPosition(keep, p, taken)]
    decreases count
  {
    hide KeysAt, KeyAt;
    var q := FreeFrom(keep, p);
    KeysAtOne(q);
    if count == 0 {
      assert KeysAt([]) == {} by { KeysAtSize([]); }
      assert keep + {} == keep;
    } else {
      var rest := Allocate(keep + {KeyAt(q)}, q, count - 1);
      AllocateOneMore(keep + {KeyAt(q)}, q, count - 1);
      KeysAtParts([q], rest);
      assert keep + KeysAt([q] + rest) == keep + {KeyAt(q)} + KeysAt(rest);
      assert Committed(p, [q] + rest) == Committed(q, rest);
      assert NextPosition(keep, p, [q] + rest) == NextPosition(keep + {KeyAt(q)}, q, rest);
    }
  }

  /** A keyspace's state is that of an evictor which started at `p` and made these allocations. */
  ghost predicate Drawn(kept: set<WritableKey>, p: nat, w: Work) {
    && |kept| + |w.changes.Keys| <= KEY_COUNT
    && var taken := Allocate(kept, p, |w.changes.Keys|);
       && w.changes.Keys == KeysAt(taken)
       && w.keep == kept + KeysAt(taken)
       && w.next == KeyAt(Committed(p, taken))
  }

  lemma DrawnAtStart(t: Table, kept: set<WritableKey>, p: nat)
    requires KeyAt(p) == StartKey(t.latest)
    ensures Drawn(kept, p, NewWork(t, kept))
  {
    KeepFits(kept);
    assert KeysAt([]) == {} && kept + {} == kept;
    assert Allocate(kept, p, 0) == [];
  }

  /** The stored key finds the same free key as the unwrapped cursor. */
  lemma NextFreeIsNextPosition(kept: set<WritableKey>, p: nat, w: Work, taken: seq<nat>)
    requires |w.keep| < KEY_COUNT && |kept| + |taken| < KEY_COUNT
    requires w.keep == kept + KeysAt(taken) && w.next == KeyAt(Committed(p, taken))
    ensures NextFree(w.keep, w.next) == KeyAt(NextPosition(kept, p, taken))
  {
    KeyAtWrittenKey(w.next);
    FreeFromLap(w.keep, w.next, Committed(p, taken));
  }

  lemma AssignDraws(kept: set<WritableKey>, p: nat, w: Work, v: Value)
    requires Drawn(kept, p, w) && |w.keep| < KEY_COUNT && w.keep == kept + w.changes.Keys
    requires w.changes.Keys !! kept
    ensures var key := NextFree(w.keep, w.next);
      Drawn(kept, p, Work(w.keep + {key}, key, w.changes[key := v], w.lookup[v := key]))
  {
    hide KeysAt, KeyAt, NextFree, NextPosition, Allocate, FreeFrom, Committed;
    var key, count := NextFree(w.keep, w.next), |w.changes.Keys|;
    DisjointSize(kept, w.changes.Keys);
    var taken := Allocate(kept, p, count);
    AllocateOneMore(kept, p, count);
    NextFreeIsNextPosition(kept, p, w, taken);
    DrawnNext(kept, p, w, taken, NextPosition(kept, p, taken), key, v);
  }

  lemma DisjointSize(a: set<WritableKey>, b: set<WritableKey>)
    requires a !! b
    ensures |a + b| == |a| + |b|
  {}

  lemma DrawnNext(
      kept: set<WritableKey>, p: nat, w: Work, taken: seq<nat>, q: nat, key: WritableKey, v: Value)
    requires |kept| + |w.changes.Keys| < KEY_COUNT && key == KeyAt(q) && key !in w.changes
    requires Allocate(kept, p, |w.changes.Keys| + 1) == taken + [q]
    requires w.changes.Keys == KeysAt(taken) && w.keep == kept + KeysAt(taken)
    ensures Drawn(kept, p, Work(w.keep + {key}, key, w.changes[key := v], w.lookup[v := key]))
  {
    hide KeysAt, KeyAt, Allocate;
    assert w.changes[key := v].Keys == w.changes.Keys + {key};
    KeysAtParts(taken, [q]);
    KeysAtOne(q);
    assert w.keep + {key} == kept + KeysAt(taken + [q]);
  }

  lemma CompressValueDraws(
      t: Table, env: Env, default: Value, kept: set<WritableKey>, p: nat, w: Work, v: Value)
    requires Drawn(kept, p, w) && WorkOk(t, env, default, kept, w)
    requires CompressValue(t, env, default, w, v).Ok?
    ensures Drawn(kept, p, CompressValue(t, env, default, w, v).value.1)
  {
    if v != default && v !in w.lookup && Fresh(t, env, v) {
      assert w.keep == kept + w.changes.Keys && w.changes.Keys !! kept;
      hide Drawn, WorkOk;
      AssignDraws(kept, p, w, v);
    }
  }

  ghost predicate AllDrawn(kept: Kept, starts: PerKeyspace<nat>, works: Works) {
    forall ks: Keyspace :: Drawn(kept.Get(ks), starts.Get(ks), works.Get(ks))
  }

  lemma CompressFieldDraws(
      tables: Tables, env: Env, kept: Kept, starts: PerKeyspace<nat>, works: Works, f: Field)
    requires AllDrawn(kept, starts, works) && WorksOk(tables, env, kept, works)
    requires CompressField(tables, env, works, f).Ok?
    ensures AllDrawn(kept, starts, CompressField(tables, env, works, f).value.1)
  {
    hide Drawn, WorkOk, CompressValue;
    if f.Registry? {
      CompressValueDraws(tables.Get(f.ks), env, DefaultOf(f.ks), kept.Get(f.ks), starts.Get(f.ks),
                         works.Get(f.ks), f.value);
    }
  }

  lemma {:induction false} CompressFieldsDraw(
      tables: Tables, env: Env, kept: Kept, starts: PerKeyspace<nat>, works: Works,
      fields: seq<Field>, done: seq<CompressedField>)
    requires AllDrawn(kept, starts, works) && WorksOk(tables, env, kept, works)
    requires Covers(tables, env, kept, fields)
    requires CompressFields(tables, env, works, fields, done).Ok?
    ensures AllDrawn(kept, starts, CompressFields(tables, env, works, fields, done).value.1)
    decreases |fields|
  {
    hide AllDrawn, WorksOk, Covers, CompressField;
    if fields != [] {
      var f, rest := fields[0], fields[1..];
      assert fields == [f] + rest;
      CoversPart(tables, env, kept, [f], rest);
      CompressFieldOk(tables, env, kept, works, f);
      CompressFieldDraws(tables, env, kept, starts, works, f);
      var (c, mid) := CompressField(tables, env, works, f).value;
      CompressFieldsDraw(tables, env, kept, starts, mid, rest, done + [c]);
    }
  }

  lemma {:induction false} CompressTransactionsDraw(
      tables: Tables, env: Env, kept: Kept, starts: PerKeyspace<nat>, works: Works,
      txs: seq<Transaction>, done: seq<CompressedTransaction>)
    requires AllDrawn(kept, starts, works) && WorksOk(tables, env, kept, works)
    requires Covers(tables, env, kept, AllFields(txs))
    requires CompressTransactions(tables, env, works, txs, done).Ok?
    ensures AllDrawn(kept, starts, CompressTransactions(tables, env, works, txs, done).value.1)
    decreases |txs|
  {
    hide AllDrawn, WorksOk, Covers, CompressFields;
    if txs != [] {
      var fields, rest := txs[0].fields, AllFields(txs[1..]);
      CoversPart(tables, env, kept, fields, rest);
      CompressFieldsOk(tables, env, kept, works, fields, []);
      CompressFieldsDraw(tables, env, kept, starts, works, fields, []);
      var (cs, mid) := CompressFields(tables, env, works, fields, []).value;
      CompressTransactionsDraw(tables, env, kept, starts, mid, txs[1..], done + [Packed(txs[0], cs)]);
    }
  }

  // ---------------------------------------------------------------------------------------
  // One block
  // ---------------------------------------------------------------------------------------

  /** The keys of a list of registrations. */
  ghost function RegisteredKeys(regs: seq<(WritableKey, Value)>): set<WritableKey> {
    set e | e in regs :: e.0
  }

  /** A position the committed key of a keyspace stands for. */
  ghost predicate CursorAt(t: Table, cursor: Option<nat>) {
    match cursor
    case None => t.latest == None
    case Some(p) => t.latest == Some(KeyAt(p))
  }

  lemma DrainKeys(regs: seq<(WritableKey, Value)>, changes: map<WritableKey, Value>)
    requires Drains(regs, changes)
    ensures RegisteredKeys(regs) == changes.Keys
  {
    forall k | k in changes
      ensures k in RegisteredKeys(regs)
    {
      var i :| 0 <= i < |regs| && regs[i].0 == k;
      assert regs[i] in regs;
    }
    forall e | e in regs
      ensures e.0 in changes
    {
      var i :| 0 <= i < |regs| && regs[i] == e;
    }
  }

  /** The keys through which a block refers to what is stored already. */
  ghost function ReusedKeys(
      before: Tables, retention: nat, pointers: map<UtxoId, CompressedUtxoId>, block: Block, ks: Keyspace)
    : set<WritableKey>
  {
    KeysOf(before.Get(ks), Env(retention, block.header.time, pointers), ValuesIn(AllFields(block.transactions), ks))
  }

  /** The way of a keyspace's cursor through one block. */
  datatype Walk = Walk(start: nat, taken: seq<nat>) {
    ghost function Stop(): nat {
      Committed(start, taken)
    }
  }

  /** The cursor walked as an evictor that skips `kept`, and handed out exactly the keys `registered`. */
  ghost predicate Walks(kept: set<WritableKey>, registered: set<WritableKey>, w: Walk) {
    && |kept| + |registered| <= KEY_COUNT
    && w.taken == Allocate(kept, w.start, |registered|)
    && KeysAt(w.taken) == registered
  }

  /** One block: the cursor starts past where it was, skips what the block reuses, and stops at what it registers. */
  lemma BlockCursor(
      before: Tables, last: Time, retention: nat, pointers: map<UtxoId, CompressedUtxoId>, block: Block,
      out: CompressedBlock, after: Tables, ks: Keyspace, cursor: Option<nat>)
    returns (w: Walk)
    requires SoundTables(before, last) && last <= block.header.time
    requires Compresses(before, retention, pointers, block, out, after)
    requires CursorAt(before.Get(ks), cursor)
    ensures w.start == StartPosition(cursor)
    ensures Walks(
      ReusedKeys(before, retention, pointers, block, ks), RegisteredKeys(out.registrations.Get(ks)), w)
    ensures CursorAt(after.Get(ks), Some(w.Stop()))
  {
    var env := Env(retention, block.header.time, pointers);
    SoundTablesAreLookable(before, last, env);
    var kept := PreparedFor(before, env, block);
    StartWorksOk(before, env, kept);
    var start := StartPosition(cursor);
    // The other keyspaces' cursors are where their stored keys say.
    var starts := Each((k: Keyspace) => StartKey(before.Get(k).latest) as nat);
    starts := Set(starts, ks, start);
    forall k: Keyspace
      ensures Drawn(kept.Get(k), starts.Get(k), StartWorks(before, kept).Get(k))
    {
      if k == ks {
        StartPositionKey(before.Get(ks), cursor);
      } else {
        KeyAtWrittenKey(StartKey(before.Get(k).latest));
      }
      DrawnAtStart(before.Get(k), kept.Get(k), starts.Get(k));
    }
    CompressTransactionsDraw(before, env, kept, starts, StartWorks(before, kept), block.transactions, []);
    var work := CompressBody(before, env, block).value.1.Get(ks);
    assert FinalizedAs(before.Get(ks), work, out.registrations.Get(ks), env.now, after.Get(ks));
    assert Drawn(kept.Get(ks), start, work);
    w := WalkOf(before.Get(ks), kept.Get(ks), start, work, out.registrations.Get(ks), env.now);
  }

  lemma StartPositionKey(t: Table, cursor: Option<nat>)
    requires CursorAt(t, cursor)
    ensures KeyAt(StartPosition(cursor)) == StartKey(t.latest)
  {
    if cursor.Some? {
      KeyAtNext(cursor.value);
    }
  }

  lemma WalkOf(
      t: Table, kept: set<WritableKey>, start: nat, work: Work, regs: seq<(WritableKey, Value)>, now: Time)
    returns (w: Walk)
    requires Drawn(kept, start, work) && Drains(regs, work.changes)
    ensures w.start == start && Walks(kept, RegisteredKeys(regs), w)
    ensures CursorAt(Finalized(t, work, regs, now), Some(w.Stop()))
  {
    hide KeysAt, KeyAt, RegisteredKeys, Drains, Allocate, WriteAll;
    w := Walk(start, Allocate(kept, start, |work.changes.Keys|));
    DrainKeys(regs, work.changes);
    WriteAllKeepsLatest(t.(latest := Some(work.next)), regs, now);
  }

  // ---------------------------------------------------------------------------------------
  // What a walk passes over
  // ---------------------------------------------------------------------------------------

  /** Between its start and its last allocation the cursor passes kept and allocated keys only. */
  lemma {:induction false} AllocatePasses(keep: set<WritableKey>, p: nat, count: nat, r: nat)
    requires |keep| + count <= KEY_COUNT && count > 0
    requires p <= r <= Committed(p, Allocate(keep, p, count))
    ensures KeyAt(r) in keep + KeysAt(Allocate(keep, p, count))
    decreases count
  {
    hide KeyAt, KeysAt;
    var q := FreeFrom(keep, p);
    var rest := Allocate(keep + {KeyAt(q)}, q, count - 1);
    KeysAtOne(q);
    KeysAtParts([q], rest);
    if r > q {
      AllocatePasses(keep + {KeyAt(q)}, q, count - 1, r);
    }
  }

  /** A walk ends at or after its start, and its allocations lie in between in increasing order. */
  lemma WalkAdvances(kept: set<WritableKey>, registered: set<WritableKey>, w: Walk)
    requires Walks(kept, registered, w)
    ensures w.start <= w.Stop() && StrictlyIncreasing(w.taken)
    ensures forall q :: q in w.taken ==> w.start <= q <= w.Stop()
  {
    AllocateAdvances(kept, w.start, |registered|);
    assert w.taken != [] ==> w.Stop() in w.taken;
  }

  /** A passed position was reused or registered by the block, or the block registered nothing. */
  lemma WalkPasses(kept: set<WritableKey>, registered: set<WritableKey>, w: Walk, r: nat)
    requires Walks(kept, registered, w) && w.start <= r <= w.Stop()
    ensures KeyAt(r) in registered || KeyAt(r) in kept || (registered == {} && r == w.start == w.Stop())
  {
    hide KeyAt, KeysAt;
    if registered != {} {
      AllocatePasses(kept, w.start, |registered|, r);
    }
  }

  // ---------------------------------------------------------------------------------------
  // Chains
  // ---------------------------------------------------------------------------------------

  ghost predicate WalksBlock(retention: nat, before: Tables, s: Step, after: Tables, ks: Keyspace, w: Walk) {
    && Walks(ReusedKeys(before, retention, s.pointers, s.block, ks), RegisteredKeys(s.out.registrations.Get(ks)), w)
    && CursorAt(after.Get(ks), Some(w.Stop()))
  }

  /** `trace[i]` is the walk through block `i`; each resumes right after its predecessor's stop. */
  ghost predicate CursorTrace(
      retention: nat, states: seq<Tables>, steps: seq<Step>, ks: Keyspace, cursor: Option<nat>, trace: seq<Walk>)
    requires |states| == |steps| + 1
  {
    && |trace| == |steps|
    && (forall i :: 0 <= i < |steps| ==> WalksBlock(retention, states[i], steps[i], states[i + 1], ks, trace[i]))
    && (trace != [] ==> trace[0].start == StartPosition(cursor))
    && (forall i :: 0 < i < |steps| ==> trace[i].start == trace[i - 1].Stop() + 1)
  }

  /** Every chain of compressed blocks walks the keyspace without a gap, from the stored cursor on. */
  lemma {:induction false} ChainCursor(
      retention: nat, states: seq<Tables>, steps: seq<Step>, last: Time, ks: Keyspace, cursor: Option<nat>)
    returns (trace: seq<Walk>)
    requires CompressorRun(retention, states, steps)
    requires SoundTables(states[0], last) && Chronological(last, steps)
    requires CursorAt(states[0].Get(ks), cursor)
    ensures CursorTrace(retention, states, steps, ks, cursor, trace)
    decreases |steps|
  {
    hide Compresses, SoundTables, CursorAt, CursorTrace, Walks, ReusedKeys, RegisteredKeys;
    if steps == [] {
      trace := [];
      NoTrace(retention, states, steps, ks, cursor);
    } else {
      var s := steps[0];
      assert Compresses(states[0], retention, s.pointers, s.block, s.out, states[1]);
      BlockKeepsLockstep(states[0], states[0], last, retention, s.pointers, s.block, s.out, states[1]) by {
        AgreeSelf(states[0]);
      }
      var w := BlockCursor(states[0], last, retention, s.pointers, s.block, s.out, states[1], ks, cursor);
      ChronologicalTail(retention, states, steps, last);
      var rest := ChainCursor(retention, states[1..], steps[1..], s.block.header.time, ks, Some(w.Stop()));
      trace := [w] + rest;
      TracePrepend(retention, states, steps, ks, cursor, w, rest);
    }
  }

  lemma NoTrace(retention: nat, states: seq<Tables>, steps: seq<Step>, ks: Keyspace, cursor: Option<nat>)
    requires steps == [] && |states| == 1
    ensures CursorTrace(retention, states, steps, ks, cursor, [])
  {}

  lemma TracePrepend(
      retention: nat, states: seq<Tables>, steps: seq<Step>, ks: Keyspace, cursor: Option<nat>, w: Walk,
      rest: seq<Walk>)
    requires steps != [] && |states| == |steps| + 1
    requires w.start == StartPosition(cursor) && WalksBlock(retention, states[0], steps[0], states[1], ks, w)
    requires CursorTrace(retention, states[1..], steps[1..], ks, Some(w.Stop()), rest)
    ensures CursorTrace(retention, states, steps, ks, cursor, [w] + rest)
  {
    hide WalksBlock, Committed;
    var trace := [w] + rest;
    forall i | 0 < i < |steps|
      ensures WalksBlock(retention, states[i], steps[i], states[i + 1], ks, trace[i])
      ensures trace[i].start == trace[i - 1].Stop() + 1
    {
      assert states[1..][i - 1] == states[i] && states[1..][i] == states[i + 1] && steps[1..][i - 1] == steps[i];
      assert trace[i] == rest[i - 1] && (i > 1 ==> trace[i - 1] == rest[i - 2]);
    }
  }

  /** The walks leave no gap, so a position between two of them lies in one of those between. */
  lemma {:induction false} TraceCovers(
      retention: nat, states: seq<Tables>, steps: seq<Step>, ks: Keyspace, cursor: Option<nat>, trace: seq<Walk>,
      i: nat, j: nat, r: nat)
    returns (m: nat)
    requires |states| == |steps| + 1 && CursorTrace(retention, states, steps, ks, cursor, trace)
    requires i <= j < |steps| && trace[i].start <= r <= trace[j].Stop()
    ensures i <= m <= j && trace[m].start <= r <= trace[m].Stop()
    decreases j
  {
    hide WalksBlock, Committed;
    if trace[j].start <= r {
      m := j;
    } else {
      assert trace[j].start == trace[j - 1].Stop() + 1;
      m := TraceCovers(retention, states, steps, ks, cursor, trace, i, j - 1, r);
    }
  }

  /** A later block's allocations lie beyond an earlier block's stop. */
  lemma {:induction false} TraceAdvances(
      retention: nat, states: seq<Tables>, steps: seq<Step>, ks: Keyspace, cursor: Option<nat>, trace: seq<Walk>,
      i: nat, j: nat)
    requires |states| == |steps| + 1 && CursorTrace(retention, states, steps, ks, cursor, trace)
    requires i < j < |steps|
    ensures trace[i].Stop() < trace[j].start
    decreases j
  {
    hide Walks, CursorAt, Committed;
    assert trace[j].start == trace[j - 1].Stop() + 1;
    if i < j - 1 {
      TraceAdvances(retention, states, steps, ks, cursor, trace, i, j - 1);
      assert WalksBlock(retention, states[j - 1], steps[j - 1], states[j], ks, trace[j - 1]);
      WalkAdvances(ReusedKeys(states[j - 1], retention, steps[j - 1].pointers, steps[j - 1].block, ks),
                   RegisteredKeys(steps[j - 1].out.registrations.Get(ks)), trace[j - 1]);
    }
  }

  ghost function CursorFor(t: Table): (cursor: Option<nat>)
    ensures CursorAt(t, cursor)
  {
    match t.latest
    case None => None
    case Some(key) => KeyAtWrittenKey(key); Some(key as nat)
  }

  /** Where a walk allocated a key it registered. */
  lemma RegisteredAt(
      retention: nat, before: Tables, s: Step, after: Tables, ks: Keyspace, w: Walk, key: WritableKey)
    returns (p: nat)
    requires WalksBlock(retention, before, s, after, ks, w)
    requires key in RegisteredKeys(s.out.registrations.Get(ks))
    ensures KeyAt(p) == key && w.start <= p <= w.Stop()
  {
    hide KeyAt, RegisteredKeys, ReusedKeys;
    p :| p in w.taken && KeyAt(p) == key;
    WalkAdvances(
      ReusedKeys(before, retention, s.pointers, s.block, ks), RegisteredKeys(s.out.registrations.Get(ks)), w);
  }

  /**
   Round robin: if two blocks of a chain register the same key, then from the one to the other
   every other key had its turn. Some block registered it, reused it, or registered nothing and
   left the cursor on it.
   */
  lemma ChainRoundRobin(
      retention: nat, states: seq<Tables>, steps: seq<Step>, last: Time, ks: Keyspace, i: nat, j: nat,
      key: WritableKey, other: WritableKey)
    returns (m: nat)
    requires CompressorRun(retention, states, steps)
    requires SoundTables(states[0], last) && Chronological(last, steps)
    requires i < j < |steps| && other != key
    requires key in RegisteredKeys(steps[i].out.registrations.Get(ks))
    requires key in RegisteredKeys(steps[j].out.registrations.Get(ks))
    ensures i <= m <= j
    ensures
      || other in RegisteredKeys(steps[m].out.registrations.Get(ks))
      || other in ReusedKeys(states[m], retention, steps[m].pointers, steps[m].block, ks)
      || (steps[m].out.registrations.Get(ks) == [] && states[m + 1].Get(ks).latest == Some(other))
  {
    hide CompressorRun, SoundTables, Chronological, Walks, KeyAt, RegisteredKeys, ReusedKeys, Committed;
    assert |states| == |steps| + 1 by { RunLength(retention, states, steps); }
    var cursor := CursorFor(states[0].Get(ks));
    var trace := ChainCursor(retention, states, steps, last, ks, cursor);
    assert WalksBlock(retention, states[i], steps[i], states[i + 1], ks, trace[i]);
    assert WalksBlock(retention, states[j], steps[j], states[j + 1], ks, trace[j]);
    var p := RegisteredAt(retention, states[i], steps[i], states[i + 1], ks, trace[i], key);
    var q := RegisteredAt(retention, states[j], steps[j], states[j + 1], ks, trace[j], key);
    TraceAdvances(retention, states, steps, ks, cursor, trace, i, j);
    SameKeyIsALapApart(p, q);
    EveryOtherKeyIsPassed(p, q, other);
    var r :| p < r < q && KeyAt(r) == other;
    m := TraceCovers(retention, states, steps, ks, cursor, trace, i, j, r);
    assert WalksBlock(retention, states[m], steps[m], states[m + 1], ks, trace[m]);
    WalkPasses(ReusedKeys(states[m], retention, steps[m].pointers, steps[m].block, ks),
               RegisteredKeys(steps[m].out.registrations.Get(ks)), trace[m], r);
    NothingRegistered(steps[m].out.registrations.Get(ks));
  }

  lemma RunLength(retention: nat, states: seq<Tables>, steps: seq<Step>)
    requires CompressorRun(retention, states, steps)
    ensures |states| == |steps| + 1
  {}

  lemma NothingRegistered(regs: seq<(WritableKey, Value)>)
    ensures RegisteredKeys(regs) == {} <==> regs == []
  {
    if regs != [] {
      assert regs[0] in regs;
      assert regs[0].0 in RegisteredKeys(regs);
    }
  }
}
