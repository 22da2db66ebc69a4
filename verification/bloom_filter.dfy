/**
  The bloom filter: construction, insertion and membership query.

  A filter of `size` slots stores them bit-packed in a byte array that the
  program allocates with `size` bytes, eight times what the slots need, so
  only bytes `0 .. (size - 1) / 8` are ever touched. Insertion ORs in the
  slot of every hasher; the query walks the hashers in order and stops at
  the first slot that is not set.
 */
module Bloom {
  import opened HashIndex
  import opened BitArray

  datatype BloomFilter = BloomFilter(filter: seq<bv8>, size: uint32)

  /** The array holds `size` bytes, as allocated at construction. */
  predicate Valid(b: BloomFilter)
  {
    |b.filter| == b.size
  }

  /** The set slots of a filter: its abstract content. */
  ghost function Slots(b: BloomFilter): set<nat>
  {
    SetBits(b.filter)
  }

  /** Every set slot is a real slot, below `size`. */
  ghost predicate SlotsBelowSize(b: BloomFilter)
  {
    forall q | q in Slots(b) :: q < b.size
  }

  /** Whether slot `idx` of a valid filter is set. */
  ghost predicate IsSet(b: BloomFilter, idx: nat)
    requires Valid(b) && idx < b.size
  {
    BitAt(b.filter, idx)
  }

  /** The byte holding slot `idx`; it is always inside the array. */
  function SlotByte(idx: nat, size: uint32): (a: nat)
    requires idx < size
    ensures a < size
    ensures a <= (size - 1) / 8
    ensures 8 * a <= idx < 8 * a + 8
  {
    idx / 8
  }

  /** A new filter of `size` slots: `size` zero bytes. Any `size` is accepted. */
  function NewBloomFilter(size: uint32): (b: BloomFilter)
    ensures Valid(b) && b.size == size
    ensures Slots(b) == {}
    ensures forall j | 0 <= j < |b.filter| :: b.filter[j] == 0
  {
    var b := BloomFilter(seq(size, _ => 0 as bv8), size);
    assert forall q | 0 <= q < 8 * |b.filter| :: !BitAt(b.filter, q);
    b
  }

  /**
    The loop of `Add` after its first `n` hashers: the slot of each of them
    has been ORed in, and no other bit of the array has changed.
   */
  function AddHashers(b: BloomFilter, h: Murmur3, key: Key, n: nat): (r: BloomFilter)
    requires Valid(b) && b.size > 0 && n <= K
    ensures Valid(r) && r.size == b.size
    ensures forall q | 0 <= q < 8 * |r.filter| ::
      BitAt(r.filter, q) <==> (BitAt(b.filter, q) || q in HashSlots(h, key, b.size, n))
  {
    if n == 0 then b
    else
      var prev := AddHashers(b, h, key, n - 1);
      var idx := Murmurhash(h, n - 1, key, b.size);
      prev.(filter := SetBit(prev.filter, idx))
  }

  /**
    Inserts `key`: afterwards exactly the slots that were set, plus the
    key's slots, are set. The size and array length are unchanged, and
    every byte that holds none of the key's slots is untouched.
   */
  function Add(b: BloomFilter, h: Murmur3, key: Key): (r: BloomFilter)
    requires Valid(b) && b.size > 0
    ensures Valid(r) && r.size == b.size
    ensures Slots(r) == Slots(b) + KeySlots(h, key, b.size)
    ensures forall j | 0 <= j < |r.filter| && (forall q | q in KeySlots(h, key, b.size) :: q / 8 != j) ::
      r.filter[j] == b.filter[j]
  {
    var r := AddHashers(b, h, key, K);
    SlotsAfterInsert(b, h, key, r);
    BytesAfterInsert(b, h, key, r);
    r
  }

  /** An array whose bits are those of `b` plus the key's slots holds exactly those slots. */
  lemma SlotsAfterInsert(b: BloomFilter, h: Murmur3, key: Key, r: BloomFilter)
    requires Valid(b) && b.size > 0
    requires |r.filter| == |b.filter|
    requires forall q | 0 <= q < 8 * |r.filter| ::
      BitAt(r.filter, q) <==> (BitAt(b.filter, q) || q in KeySlots(h, key, b.size))
    ensures Slots(r) == Slots(b) + KeySlots(h, key, b.size)
  {
    var ks := KeySlots(h, key, b.size);
    forall q
      ensures q in Slots(r) <==> q in Slots(b) || q in ks
    {
      if q in ks {
        assert q < b.size;
      }
    }
  }

  /** Such an array agrees with `b` on every byte that holds none of the key's slots. */
  lemma BytesAfterInsert(b: BloomFilter, h: Murmur3, key: Key, r: BloomFilter)
    requires Valid(b) && b.size > 0
    requires |r.filter| == |b.filter|
    requires forall q | 0 <= q < 8 * |r.filter| ::
      BitAt(r.filter, q) <==> (BitAt(b.filter, q) || q in KeySlots(h, key, b.size))
    ensures forall j | 0 <= j < |r.filter| && (forall q | q in KeySlots(h, key, b.size) :: q / 8 != j) ::
      r.filter[j] == b.filter[j]
  {
    var ks := KeySlots(h, key, b.size);
    forall j | 0 <= j < |r.filter| && (forall q | q in ks :: q / 8 != j)
      ensures r.filter[j] == b.filter[j]
    {
      forall q | 8 * j <= q < 8 * j + 8
        ensures BitAt(r.filter, q) == BitAt(b.filter, q)
      {
        assert q / 8 == j;
        assert q !in ks;
      }
      SameByteFromBits(r.filter, b.filter, j);
    }
  }

  /**
    The query from hasher `i` on. It returns `(idx, false)` for the first
    hasher whose slot `idx` is unset, and `(0, true)` when every slot is set.
   */
  function ExistsFrom(b: BloomFilter, h: Murmur3, key: Key, i: nat): (r: (int, bool))
    requires Valid(b) && b.size > 0 && i <= K
    decreases K - i
    ensures r.1 <==> forall j | i <= j < K :: IsSet(b, Murmurhash(h, j, key, b.size))
    ensures r.1 ==> r.0 == 0
    ensures !r.1 ==> exists j | i <= j < K ::
      && r.0 == Murmurhash(h, j, key, b.size)
      && !IsSet(b, Murmurhash(h, j, key, b.size))
      && forall l | i <= l < j :: IsSet(b, Murmurhash(h, l, key, b.size))
  {
    if i == K then (0, true)
    else
      var idx := Murmurhash(h, i, key, b.size);
      var aIdx := SlotByte(idx, b.size);
      var bIdx := idx % 8;
      if b.filter[aIdx] & Mask(bIdx) <= 0 then (idx, false)
      else ExistsFrom(b, h, key, i + 1)
  }

  /**
    Queries `key`: `present` holds exactly when every slot of the key is
    set. When it does not, `idx` is the slot of the first hasher, in order,
    whose slot is unset; when it does, `idx` is 0.
   */
  function Exists(b: BloomFilter, h: Murmur3, key: Key): (r: (int, bool))
    requires Valid(b) && b.size > 0
    ensures r.1 <==> KeySlots(h, key, b.size) <= Slots(b)
    ensures r.1 ==> r.0 == 0
    ensures !r.1 ==> exists j | 0 <= j < K ::
      && r.0 == Murmurhash(h, j, key, b.size)
      && !IsSet(b, Murmurhash(h, j, key, b.size))
      && forall l | 0 <= l < j :: IsSet(b, Murmurhash(h, l, key, b.size))
  {
    KeySlotsAllSet(b, h, key);
    ExistsFrom(b, h, key, 0)
  }

  /** The key's slots are all set iff the slot of every hasher is set. */
  lemma KeySlotsAllSet(b: BloomFilter, h: Murmur3, key: Key)
    requires Valid(b) && b.size > 0
    ensures KeySlots(h, key, b.size) <= Slots(b) <==> forall j | 0 <= j < K :: IsSet(b, Murmurhash(h, j, key, b.size))
  {
    if forall j | 0 <= j < K :: IsSet(b, Murmurhash(h, j, key, b.size)) {
      HashSlotsFromHashers(h, key, b.size, K);
    }
  }
}
