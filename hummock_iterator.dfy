/** `FromRustIterator`: a Hummock iterator over an in-memory, ordered
    container whose entries all belong to one table and carry one epoch. */
module HummockIterator {
  import opened Wrappers

  /** A stored value: a put of some bytes, or a delete marker. */
  datatype HummockValue = Put(bytes: seq<bv8>) | Delete

  /** A table key paired with its value, as the container yields it. Table
      keys are integers standing for byte strings in their lexicographic
      order. */
  datatype Entry = Entry(key: int, value: HummockValue)

  /** A full key: user key (table id, table key) and epoch. */
  datatype FullKey = FullKey(tableId: nat, tableKey: int, epoch: nat)

  /** Full-key order: user key ascending, then epoch descending (the newest
      version of a user key comes first). */
  predicate FullKeyLt(a: FullKey, b: FullKey) {
    || a.tableId < b.tableId
    || (a.tableId == b.tableId && a.tableKey < b.tableKey)
    || (a.tableId == b.tableId && a.tableKey == b.tableKey && a.epoch > b.epoch)
  }

  /** The container's entries have strictly ascending table keys. */
  predicate Sorted(s: seq<Entry>) {
    forall i, j | 0 <= i < j < |s| :: s[i].key < s[j].key
  }

  /** The builder's `seek`: the index of the first entry whose table key is
      at least `k` (`|s|` when there is none). */
  function SeekStart(s: seq<Entry>, k: int): (r: nat)
    ensures r <= |s|
    ensures forall j | 0 <= j < r :: s[j].key < k
    ensures r < |s| ==> s[r].key >= k
    decreases |s|
  {
    if s == [] || s[0].key >= k then 0 else 1 + SeekStart(s[1..], k)
  }

  /** Entry `e` as an iterator over table `tableId` at `epoch` presents it. */
  function KeyOf(tableId: nat, epoch: nat, e: Entry): FullKey {
    FullKey(tableId, e.key, epoch)
  }

  /** `p` is where a seek to `target` must land: every earlier entry is below
      the target and the entry at `p`, if any, is not. */
  predicate IsLowerBound(s: seq<Entry>, tableId: nat, epoch: nat, target: FullKey, p: nat) {
    && p <= |s|
    && (forall j | 0 <= j < p :: FullKeyLt(KeyOf(tableId, epoch, s[j]), target))
    && (p < |s| ==> !FullKeyLt(KeyOf(tableId, epoch, s[p]), target))
  }

  /** The Rust iterator still to be drawn from, and the current key and
      value. */
  datatype Cursor = Cursor(rest: seq<Entry>, key: int, value: HummockValue)

  class FromRustIterator {
    const inner: seq<Entry>
    const epoch: nat
    const tableId: nat
    var iter: Option<Cursor>
    /** The index of the current entry; `|inner|` once exhausted. */
    ghost var pos: nat

    /** The full key of entry `i` as this iterator presents it. */
    function FullKeyAt(i: nat): FullKey
      requires i < |inner|
    {
      KeyOf(tableId, epoch, inner[i])
    }

    /** The cursor at entry `p`: the rest of the container after it, and the
        entry itself; none past the end. */
    function CursorAt(p: nat): Option<Cursor>
      requires p <= |inner|
    {
      if p < |inner| then Some(Cursor(inner[p + 1..], inner[p].key, inner[p].value)) else None
    }

    ghost predicate Valid()
      reads this
    {
      Sorted(inner) && pos <= |inner| && iter == CursorAt(pos)
    }

    /** `FromRustIterator::new`: not positioned until `rewind` or `seek`. */
    constructor (inner: seq<Entry>, epoch: nat, tableId: nat)
      requires Sorted(inner)
      ensures Valid() && this.inner == inner && this.epoch == epoch && this.tableId == tableId
      ensures iter.None? && pos == |inner|
    {
      this.inner, this.epoch, this.tableId := inner, epoch, tableId;
      iter := None;
      pos := |inner|;
    }

    /** `is_valid`: there is a current entry. */
    method IsValid() returns (b: bool)
      requires Valid()
      ensures b <==> pos < |inner|
    {
      b := iter.Some?;
    }

    /** `key`: the current table key with the iterator's own table id and
        epoch. Calling it on an exhausted iterator is a panic. */
    method Key() returns (k: FullKey)
      requires Valid() && pos < |inner|
      ensures k == FullKeyAt(pos)
      ensures k.tableId == tableId && k.epoch == epoch
    {
      var c := iter.value;
      k := FullKey(tableId, c.key, epoch);
    }

    /** `value`: the current value. */
    method Value() returns (v: HummockValue)
      requires Valid() && pos < |inner|
      ensures v == inner[pos].value
    {
      v := iter.value.value;
    }

    /** `next`: one entry on; past the last entry the iterator is exhausted,
        never an error. */
    method Next()
      requires Valid() && pos < |inner|
      modifies this
      ensures Valid() && pos == old(pos) + 1
    {
      var c := iter.value;
      if c.rest != [] {
        assert inner[pos + 1..][1..] == inner[pos + 2..];
        iter := Some(Cursor(c.rest[1..], c.rest[0].key, c.rest[0].value));
      } else {
        iter := None;
      }
      pos := pos + 1;
    }

    /** `rewind`: at the first entry, exhausted when the container is
        empty. */
    method Rewind()
      requires Valid()
      modifies this
      ensures Valid() && pos == 0
    {
      if inner != [] {
        iter := Some(Cursor(inner[1..], inner[0].key, inner[0].value));
      } else {
        iter := None;
      }
      pos := 0;
    }

    /** `seek`: at the first entry whose full key is at least `target`,
        exhausted when there is none. A target in a later table exhausts the
        iterator; one in an earlier table rewinds it. */
    method Seek(target: FullKey)
      requires Valid()
      modifies this
      ensures Valid()
      ensures IsLowerBound(inner, tableId, epoch, target, pos)
      ensures tableId < target.tableId ==> pos == |inner|
      ensures tableId > target.tableId ==> pos == 0
    {
      if tableId < target.tableId {
        iter := None;
        pos := |inner|;
        return;
      }
      if tableId > target.tableId {
        Rewind();
        return;
      }
      var i := SeekStart(inner, target.tableKey);
      if i == |inner| {
        iter := None;
        pos := |inner|;
        return;
      }
      if FullKeyLt(FullKeyAt(i), target) {
        // The builder only yields keys at least the target's, so the first
        // one can fall below the target only by its epoch.
        assert inner[i].key == target.tableKey;
        if i + 1 < |inner| {
          assert inner[i + 1].key > inner[i].key;
          iter := Some(Cursor(inner[i + 2..], inner[i + 1].key, inner[i + 1].value));
        } else {
          iter := None;
        }
        pos := i + 1;
      } else {
        iter := Some(Cursor(inner[i + 1..], inner[i].key, inner[i].value));
        pos := i;
      }
    }
  }

  /** `HummockIteratorUnion`: one of four iterators, each operation forwarded
      to the one it holds. */
  datatype IteratorUnion =
    | First(first: FromRustIterator)
    | Second(second: FromRustIterator)
    | Third(third: FromRustIterator)
    | Fourth(fourth: FromRustIterator)

  /** The iterator the union holds. */
  function Held(u: IteratorUnion): FromRustIterator {
    match u
    case First(it) => it
    case Second(it) => it
    case Third(it) => it
    case Fourth(it) => it
  }

  method UnionIsValid(u: IteratorUnion) returns (b: bool)
    requires Held(u).Valid()
    ensures b <==> Held(u).pos < |Held(u).inner|
  {
    match u {
      case First(it) => b := it.IsValid();
      case Second(it) => b := it.IsValid();
      case Third(it) => b := it.IsValid();
      case Fourth(it) => b := it.IsValid();
    }
  }

  method UnionKey(u: IteratorUnion) returns (k: FullKey)
    requires Held(u).Valid() && Held(u).pos < |Held(u).inner|
    ensures k == Held(u).FullKeyAt(Held(u).pos)
  {
    match u {
      case First(it) => k := it.Key();
      case Second(it) => k := it.Key();
      case Third(it) => k := it.Key();
      case Fourth(it) => k := it.Key();
    }
  }

  method UnionValue(u: IteratorUnion) returns (v: HummockValue)
    requires Held(u).Valid() && Held(u).pos < |Held(u).inner|
    ensures v == Held(u).inner[Held(u).pos].value
  {
    match u {
      case First(it) => v := it.Value();
      case Second(it) => v := it.Value();
      case Third(it) => v := it.Value();
      case Fourth(it) => v := it.Value();
    }
  }

  method UnionNext(u: IteratorUnion)
    requires Held(u).Valid() && Held(u).pos < |Held(u).inner|
    modifies Held(u)
    ensures Held(u).Valid() && Held(u).pos == old(Held(u).pos) + 1
  {
    match u {
      case First(it) => it.Next();
      case Second(it) => it.Next();
      case Third(it) => it.Next();
      case Fourth(it) => it.Next();
    }
  }

  method UnionRewind(u: IteratorUnion)
    requires Held(u).Valid()
    modifies Held(u)
    ensures Held(u).Valid() && Held(u).pos == 0
  {
    match u {
      case First(it) => it.Rewind();
      case Second(it) => it.Rewind();
      case Third(it) => it.Rewind();
      case Fourth(it) => it.Rewind();
    }
  }

  method UnionSeek(u: IteratorUnion, target: FullKey)
    requires Held(u).Valid()
    modifies Held(u)
    ensures Held(u).Valid()
    ensures IsLowerBound(Held(u).inner, Held(u).tableId, Held(u).epoch, target, Held(u).pos)
  {
    match u {
      case First(it) => it.Seek(target);
      case Second(it) => it.Seek(target);
      case Third(it) => it.Seek(target);
      case Fourth(it) => it.Seek(target);
    }
  }
}
