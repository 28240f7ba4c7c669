/**
 Registry keys are 24-bit integers. The largest one is reserved for the default value of a
 keyspace; the others are the writable keys, on which `Next` walks in a circle.
 */
module RegistryKeys {

  /** Number of writable keys, and also the raw value of the reserved key. */
  const KEY_COUNT: nat := 0xFF_FFFF

  type RegistryKey = k: int | 0 <= k <= 0xFF_FFFF
  type WritableKey = k: int | 0 <= k < 0xFF_FFFF

  const ZERO: WritableKey := 0
  const DEFAULT_VALUE: RegistryKey := 0xFF_FFFF

  function Next(k: WritableKey): (next: WritableKey)
  {
    if k + 1 == DEFAULT_VALUE then ZERO else k + 1
  }

  /** The key under an unwrapped cursor position: position `p` lies `p / KEY_COUNT` laps in. */
  function KeyAt(p: nat): (k: WritableKey) {
    p % 0xFF_FFFF
  }

  lemma KeyAtNext(p: nat)
    ensures KeyAt(p + 1) == Next(KeyAt(p))
  {}

  lemma KeyAtWrittenKey(k: WritableKey)
    ensures KeyAt(k) == k
  {}

  /** The set `{0, ..., n - 1}`. */
  ghost function KeysBelow(n: nat): (s: set<int>)
    ensures |s| == n
    ensures forall i :: i in s <==> 0 <= i < n
  {
    if n == 0 then {} else KeysBelow(n - 1) + {n - 1}
  }

  lemma {:induction false} SubsetCardinality<T>(a: set<T>, b: set<T>)
    requires a <= b
    ensures |a| <= |b|
  {
    if a != {} {
      var x :| x in a;
      SubsetCardinality(a - {x}, b - {x});
    }
  }

  /** A set of writable keys smaller than the key space leaves some key free. */
  lemma FreeKeyExists(keep: set<WritableKey>)
    requires |keep| < KEY_COUNT
    ensures exists k: WritableKey :: k !in keep
  {
    if forall k: WritableKey :: k in keep {
      var widened: set<int> := keep;
      assert KeysBelow(KEY_COUNT) <= widened;
      SubsetCardinality(KeysBelow(KEY_COUNT), widened);
      assert false;
    }
  }
}
