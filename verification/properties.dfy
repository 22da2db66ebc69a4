/**
  Properties of sequences of filter operations: insertion is monotone,
  idempotent and order-independent, a query never misses an inserted key,
  and the bytes beyond the last slot stay zero forever.
 */
module BloomProperties {
  import opened HashIndex
  import opened BitArray
  import opened Bloom

  /** Inserts `keys` one after another, the last key last. */
  function AddAll(b: BloomFilter, h: Murmur3, keys: seq<Key>): (r: BloomFilter)
    requires Valid(b) && b.size > 0
    ensures Valid(r) && r.size == b.size
    ensures Slots(r) == Slots(b) + InsertedSlots(h, keys, b.size)
  {
    if |keys| == 0 then b
    else Add(AddAll(b, h, keys[..|keys| - 1]), h, keys[|keys| - 1])
  }

  /** The union of the slots of `keys`. */
  ghost function InsertedSlots(h: Murmur3, keys: seq<Key>, size: uint32): set<nat>
    requires size > 0
  {
    if |keys| == 0 then {}
    else InsertedSlots(h, keys[..|keys| - 1], size) + KeySlots(h, keys[|keys| - 1], size)
  }

  /** Every inserted key contributes all of its slots. */
  lemma {:induction false} InsertedSlotsCover(h: Murmur3, keys: seq<Key>, size: uint32, key: Key)
    requires size > 0
    requires key in keys
    ensures KeySlots(h, key, size) <= InsertedSlots(h, keys, size)
  {
    var last := keys[|keys| - 1];
    if key != last {
      assert key in keys[..|keys| - 1];
      InsertedSlotsCover(h, keys[..|keys| - 1], size, key);
    }
  }

  /** `Add` never clears a slot. */
  lemma AddMonotone(b: BloomFilter, h: Murmur3, key: Key)
    requires Valid(b) && b.size > 0
    ensures Slots(b) <= Slots(Add(b, h, key))
    ensures forall q | 0 <= q < 8 * |b.filter| && BitAt(b.filter, q) :: BitAt(Add(b, h, key).filter, q)
  {
  }

  /** Inserting the same key twice leaves the same array as inserting it once. */
  lemma AddIdempotent(b: BloomFilter, h: Murmur3, key: Key)
    requires Valid(b) && b.size > 0
    ensures Add(Add(b, h, key), h, key) == Add(b, h, key)
  {
    var once := Add(b, h, key);
    var twice := Add(once, h, key);
    SlotsDetermineFilter(twice, once);
  }

  /** The order of two insertions does not matter. */
  lemma AddCommutes(b: BloomFilter, h: Murmur3, k1: Key, k2: Key)
    requires Valid(b) && b.size > 0
    ensures Add(Add(b, h, k1), h, k2) == Add(Add(b, h, k2), h, k1)
  {
    SlotsDetermineFilter(Add(Add(b, h, k1), h, k2), Add(Add(b, h, k2), h, k1));
  }

  /** Two valid filters of one size with the same set slots are equal. */
  lemma SlotsDetermineFilter(a: BloomFilter, b: BloomFilter)
    requires Valid(a) && Valid(b) && a.size == b.size
    requires Slots(a) == Slots(b)
    ensures a == b
  {
    forall q | 0 <= q < 8 * |a.filter|
      ensures BitAt(a.filter, q) == BitAt(b.filter, q)
    {
      assert q in Slots(a) <==> q in Slots(b);
    }
    BytesFromBits(a.filter, b.filter);
  }

  /** No false negatives: once inserted, a key is reported present. */
  lemma AddThenExists(b: BloomFilter, h: Murmur3, key: Key)
    requires Valid(b) && b.size > 0
    ensures Exists(Add(b, h, key), h, key) == (0, true)
  {
  }

  /** No false negatives: a key stays present whatever is inserted after it. */
  lemma NoFalseNegatives(b: BloomFilter, h: Murmur3, keys: seq<Key>, key: Key)
    requires Valid(b) && b.size > 0
    requires key in keys
    ensures Exists(AddAll(b, h, keys), h, key) == (0, true)
  {
    InsertedSlotsCover(h, keys, b.size, key);
  }

  /** A key inserted into a filter stays present through any later insertions. */
  lemma StaysPresentAfterLaterInserts(b: BloomFilter, h: Murmur3, key: Key, later: seq<Key>)
    requires Valid(b) && b.size > 0
    ensures Exists(AddAll(Add(b, h, key), h, later), h, key) == (0, true)
  {
  }

  /**
    On a filter built from `keys`, the query reports `key` present exactly
    when every slot of `key` is a slot of some inserted key: false positives
    arise only from slots shared with inserted keys.
   */
  lemma ExistsAfterInserts(size: uint32, h: Murmur3, keys: seq<Key>, key: Key)
    requires size > 0
    ensures Exists(AddAll(NewBloomFilter(size), h, keys), h, key).1
      <==> KeySlots(h, key, size) <= InsertedSlots(h, keys, size)
  {
  }

  /** A new filter reports every key absent, at the slot of the first hasher. */
  lemma ExistsOnNewFilter(size: uint32, h: Murmur3, key: Key)
    requires size > 0
    ensures Exists(NewBloomFilter(size), h, key) == (Murmurhash(h, 0, key, size), false)
  {
  }

  /** `Add` keeps every set slot below `size`. */
  lemma AddKeepsSlotsBelowSize(b: BloomFilter, h: Murmur3, key: Key)
    requires Valid(b) && b.size > 0
    requires SlotsBelowSize(b)
    ensures SlotsBelowSize(Add(b, h, key))
  {
  }

  /** In a filter whose slots are below `size`, bytes after `(size - 1) / 8` are zero. */
  lemma HighBytesZero(b: BloomFilter)
    requires Valid(b) && b.size > 0
    requires SlotsBelowSize(b)
    ensures forall j | (b.size - 1) / 8 < j < |b.filter| :: b.filter[j] == 0
  {
    forall j | (b.size - 1) / 8 < j < |b.filter|
      ensures b.filter[j] == 0
    {
      forall q | 8 * j <= q < 8 * j + 8
        ensures !BitAt(b.filter, q)
      {
        assert q !in Slots(b);
      }
      ZeroByteFromBits(b.filter, j);
    }
  }

  /** Bytes after `(size - 1) / 8` stay zero through any sequence of insertions. */
  lemma {:induction false} HighBytesStayZero(size: uint32, h: Murmur3, keys: seq<Key>)
    requires size > 0
    ensures SlotsBelowSize(AddAll(NewBloomFilter(size), h, keys))
    ensures forall j | (size - 1) / 8 < j < size :: AddAll(NewBloomFilter(size), h, keys).filter[j] == 0
  {
    var r := AddAll(NewBloomFilter(size), h, keys);
    if |keys| > 0 {
      HighBytesStayZero(size, h, keys[..|keys| - 1]);
      AddKeepsSlotsBelowSize(AddAll(NewBloomFilter(size), h, keys[..|keys| - 1]), h, keys[|keys| - 1]);
    }
    HighBytesZero(r);
  }
}
