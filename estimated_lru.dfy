/** `EstimatedLruCache`: an unbounded LRU cache that keeps a running estimate
    of the heap size of its keys and values, and is shrunk by evicting the
    entries of old epochs. */
module EstimatedLru {
  import opened Wrappers

  /** One entry of the inner LRU cache with the epoch it was pushed in. */
  datatype CacheEntry<K, V> = CacheEntry(key: K, value: V, epoch: nat)

  /** The summed estimated size of the entries. */
  function SizeSum<K, V>(es: seq<CacheEntry<K, V>>, sizeOf: (K, V) -> nat): nat
    decreases |es|
  {
    if es == [] then 0 else sizeOf(es[0].key, es[0].value) + SizeSum(es[1..], sizeOf)
  }

  lemma {:induction false} SizeSumAppend<K, V>(a: seq<CacheEntry<K, V>>, b: seq<CacheEntry<K, V>>, sizeOf: (K, V) -> nat)
    ensures SizeSum(a + b, sizeOf) == SizeSum(a, sizeOf) + SizeSum(b, sizeOf)
    decreases |a|
  {
    if a != [] {
      assert (a + b)[1..] == a[1..] + b;
      SizeSumAppend(a[1..], b, sizeOf);
    } else {
      assert a + b == b;
    }
  }

  /** Taking one entry out lowers the sum by exactly its size. */
  lemma SizeSumRemove<K, V>(es: seq<CacheEntry<K, V>>, i: nat, sizeOf: (K, V) -> nat)
    requires i < |es|
    ensures SizeSum(es[..i] + es[i + 1..], sizeOf) + sizeOf(es[i].key, es[i].value) == SizeSum(es, sizeOf)
  {
    assert es == es[..i] + ([es[i]] + es[i + 1..]);
    SizeSumAppend(es[..i], [es[i]] + es[i + 1..], sizeOf);
    SizeSumAppend(es[..i], es[i + 1..], sizeOf);
  }

  /** The position of key `k` in the cache, if present. */
  function Find<K(==), V>(es: seq<CacheEntry<K, V>>, k: K): (r: Option<nat>)
    ensures r.None? <==> forall i | 0 <= i < |es| :: es[i].key != k
    ensures r.Some? ==> r.value < |es| && es[r.value].key == k
    decreases |es|
  {
    if es == [] then None
    else if es[0].key == k then Some(0)
    else
      var r := Find(es[1..], k);
      if r.None? then None else Some(r.value + 1)
  }

  /** The keys of the cache are pairwise distinct. */
  predicate KeysDistinct<K(==), V>(es: seq<CacheEntry<K, V>>) {
    forall i, j | 0 <= i < j < |es| :: es[i].key != es[j].key
  }

  /** The inner cache after `push(k, v)` in `epoch`: an entry with the same
      key is taken out and the new pair becomes the most recently used. */
  function Pushed<K(==), V>(es: seq<CacheEntry<K, V>>, k: K, v: V, epoch: nat): seq<CacheEntry<K, V>> {
    var f := Find(es, k);
    (if f.Some? then es[..f.value] + es[f.value + 1..] else es) + [CacheEntry(k, v, epoch)]
  }

  /** What the inner cache hands back from `push`: the pair it displaced. */
  function Displaced<K(==), V>(es: seq<CacheEntry<K, V>>, k: K): Option<(K, V)> {
    var f := Find(es, k);
    if f.Some? then Some((es[f.value].key, es[f.value].value)) else None
  }

  /** Pushing keeps the keys distinct and holds exactly one entry for `k`,
      the new one, in the most recent place. */
  lemma PushedSpec<K, V>(es: seq<CacheEntry<K, V>>, k: K, v: V, epoch: nat)
    requires KeysDistinct(es)
    ensures var r := Pushed(es, k, v, epoch);
      && KeysDistinct(r)
      && r[|r| - 1] == CacheEntry(k, v, epoch)
      && |r| == (if Displaced(es, k).Some? then |es| else |es| + 1)
  {
    var f := Find(es, k);
    var rest := if f.Some? then es[..f.value] + es[f.value + 1..] else es;
    var r := rest + [CacheEntry(k, v, epoch)];
    assert forall i | 0 <= i < |rest| :: rest[i].key != k by {
      if f.Some? {
        forall i | 0 <= i < |rest| ensures rest[i].key != k {
          if i < f.value {
            assert rest[i] == es[i];
          } else {
            assert rest[i] == es[i + 1];
          }
        }
      }
    }
    forall i, j | 0 <= i < j < |r| ensures r[i].key != r[j].key {
      if j < |rest| && f.Some? {
        var i' := if i < f.value then i else i + 1;
        var j' := if j < f.value then j else j + 1;
        assert rest[i] == es[i'] && rest[j] == es[j'];
      }
    }
  }

  /** The counter's subtraction, which stops at zero. */
  function SubSize(n: nat, s: nat): nat {
    if n >= s then n - s else 0
  }

  /** The inner cache after `evict_by_epoch(epoch)`: least recently used
      entries are popped while they were pushed before `epoch`. */
  function EvictBelow<K, V>(es: seq<CacheEntry<K, V>>, epoch: nat): seq<CacheEntry<K, V>>
    decreases |es|
  {
    if es != [] && es[0].epoch < epoch then EvictBelow(es[1..], epoch) else es
  }

  /** Eviction drops a prefix of entries all older than `epoch`, and the
      first entry left, if any, is not older. */
  lemma {:induction false} EvictBelowSpec<K, V>(es: seq<CacheEntry<K, V>>, epoch: nat)
    ensures var r := EvictBelow(es, epoch);
      && (exists k | 0 <= k <= |es| :: r == es[k..] && forall i | 0 <= i < k :: es[i].epoch < epoch)
      && (r != [] ==> r[0].epoch >= epoch)
    decreases |es|
  {
    if es != [] && es[0].epoch < epoch {
      EvictBelowSpec(es[1..], epoch);
      var k :| 0 <= k <= |es[1..]| && EvictBelow(es, epoch) == es[1..][k..]
        && forall i | 0 <= i < k :: es[1..][i].epoch < epoch;
      assert es[1..][k..] == es[k + 1..];
      forall i | 0 <= i < k + 1 ensures es[i].epoch < epoch {
        if i > 0 {
          assert es[i] == es[1..][i - 1];
        }
      }
    } else {
      assert es == es[0..];
    }
  }

  class EstimatedLruCache<K(==), V> {
    /** `EstimateSize` of a key plus that of a value. */
    const sizeOf: (K, V) -> nat
    /** The inner LRU cache, least recently used first. */
    var entries: seq<CacheEntry<K, V>>
    var currentEpoch: nat
    /** `kv_heap_size`. */
    var kvHeapSize: nat

    /** The counter equals the summed size of the entries. */
    predicate Accurate()
      reads this
    {
      kvHeapSize == SizeSum(entries, sizeOf)
    }

    /** `unbounded`, `unbounded_with_hasher`, `with_hasher_in` and
        `unbounded_with_hasher_in`: an empty cache with a zero counter. */
    constructor (sizeOf: (K, V) -> nat)
      ensures this.sizeOf == sizeOf && entries == [] && currentEpoch == 0 && kvHeapSize == 0
      ensures Accurate()
    {
      this.sizeOf := sizeOf;
      entries, currentEpoch, kvHeapSize := [], 0, 0;
    }

    /** `push`: the new pair's size is added and the displaced pair's, if
        any, taken off. */
    method Push(k: K, v: V) returns (oldKv: Option<(K, V)>)
      modifies this
      ensures oldKv == Displaced(old(entries), k)
      ensures entries == Pushed(old(entries), k, v, old(currentEpoch)) && currentEpoch == old(currentEpoch)
      ensures kvHeapSize == if oldKv.Some? then SubSize(old(kvHeapSize) + sizeOf(k, v), sizeOf(oldKv.value.0, oldKv.value.1))
                            else old(kvHeapSize) + sizeOf(k, v)
      ensures old(Accurate()) ==> Accurate()
    {
      ghost var wasAccurate := Accurate();
      kvHeapSize := kvHeapSize + sizeOf(k, v);
      var f := Find(entries, k);
      if f.Some? {
        var i := f.value;
        oldKv := Some((entries[i].key, entries[i].value));
        SizeSumRemove(entries, i, sizeOf);
        SizeSumAppend(entries[..i] + entries[i + 1..], [CacheEntry(k, v, currentEpoch)], sizeOf);
        entries := entries[..i] + entries[i + 1..] + [CacheEntry(k, v, currentEpoch)];
        kvHeapSize := SubSize(kvHeapSize, sizeOf(oldKv.value.0, oldKv.value.1));
      } else {
        oldKv := None;
        SizeSumAppend(entries, [CacheEntry(k, v, currentEpoch)], sizeOf);
        entries := entries + [CacheEntry(k, v, currentEpoch)];
      }
    }

    /** `evict_by_epoch`: pops the least recently used entries of epochs
        before `epoch`, taking each one's size off the counter. */
    method EvictByEpoch(epoch: nat)
      modifies this
      ensures entries == EvictBelow(old(entries), epoch) && currentEpoch == old(currentEpoch)
      ensures |entries| <= |old(entries)|
      ensures kvHeapSize == SubSize(old(kvHeapSize), SizeSum(old(entries)[..|old(entries)| - |entries|], sizeOf))
      ensures old(Accurate()) ==> Accurate()
    {
      ghost var wasAccurate := Accurate();
      ghost var es0 := entries;
      assert es0[..0] == [];
      assert es0[0..] == es0;
      while entries != [] && entries[0].epoch < epoch
        invariant EvictBelow(entries, epoch) == EvictBelow(es0, epoch)
        invariant |entries| <= |es0| && entries == es0[|es0| - |entries|..]
        invariant kvHeapSize == SubSize(old(kvHeapSize), SizeSum(es0[..|es0| - |entries|], sizeOf))
        invariant currentEpoch == old(currentEpoch)
        invariant wasAccurate ==> Accurate()
        decreases |entries|
      {
        var e := entries[0];
        ghost var gone := es0[..|es0| - |entries|];
        assert es0[..|es0| - |entries| + 1] == gone + [e];
        SizeSumAppend(gone, [e], sizeOf);
        assert entries[1..] == es0[|es0| - |entries| + 1..];
        entries := entries[1..];
        kvHeapSize := SubSize(kvHeapSize, sizeOf(e.key, e.value));
      }
    }

    method UpdateEpoch(epoch: nat)
      modifies this
      ensures currentEpoch == epoch && entries == old(entries) && kvHeapSize == old(kvHeapSize)
    {
      currentEpoch := epoch;
    }

    /** `clear`: the entries go but the counter is left as it was, so a
        non-zero estimate is no longer accurate. */
    method Clear()
      modifies this
      ensures entries == [] && kvHeapSize == old(kvHeapSize) && currentEpoch == old(currentEpoch)
      ensures old(kvHeapSize) > 0 ==> !Accurate()
    {
      entries := [];
    }

    /** `clear` as evidently intended: the counter drops to zero with the
        entries. */
    method ClearAndReset()
      modifies this
      ensures entries == [] && kvHeapSize == 0 && currentEpoch == old(currentEpoch)
      ensures Accurate()
    {
      entries := [];
      kvHeapSize := 0;
    }

    method Len() returns (n: nat)
      ensures n == |entries|
    {
      n := |entries|;
    }

    /** `is_empty`: the length is zero. */
    method IsEmpty() returns (b: bool)
      ensures b <==> |entries| == 0
    {
      var n := Len();
      b := n == 0;
    }

    /** `estimated_heap_size`: the tracked counter, which is the entries'
        summed size whenever the counter is accurate. */
    method EstimatedHeapSize() returns (n: nat)
      ensures n == kvHeapSize
      ensures Accurate() ==> n == SizeSum(entries, sizeOf)
    {
      n := kvHeapSize;
    }
  }
}
