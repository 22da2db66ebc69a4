/**
  Hash index generation: turning a key into a slot index of the filter.

  The program keeps two MurmurHash3-32 hashers seeded with 10 and 20000 and
  resets each one after every use, so a call hashes the key alone. Here the
  seeded hash is a parameter `h`: `h(seed, key)` is the 32-bit digest of the
  key's bytes under that seed. The hash algorithm itself is not modelled,
  and every property below holds for every such `h`.
 */
module HashIndex {

  /** Go's `uint32`. */
  type uint32 = x: int | 0 <= x < 0x1_0000_0000

  /** A key: the bytes of a Go string, which may be any bytes at all. */
  type Key = seq<bv8>

  /** A seeded 32-bit hash of a key: `(seed, key) -> digest`. */
  type Murmur3 = (uint32, Key) -> uint32

  /** The seeds of the hashers, in the order the filter consults them. */
  const Seeds: seq<uint32> := [10, 20000]

  /** The number of hashers. */
  const K: nat := |Seeds|

  /**
    The slot index of `key` for hasher `hasherIdx` in a filter of `size`
    slots: the seeded digest reduced modulo `size`. A `size` of zero is a
    division by zero in the program, so the caller must exclude it.
   */
  function Murmurhash(h: Murmur3, hasherIdx: nat, key: Key, size: uint32): (idx: nat)
    requires hasherIdx < K
    requires size > 0
    ensures idx < size
  {
    var digest: nat := h(Seeds[hasherIdx], key);
    digest % size
  }

  /**
    The index depends on nothing but the hasher's own digest of this key:
    two hash functions that agree there give the same index, whatever they
    do on other keys or seeds. This is the purity the per-call reset buys.
   */
  lemma MurmurhashIsLocal(h1: Murmur3, h2: Murmur3, hasherIdx: nat, key: Key, size: uint32)
    requires hasherIdx < K && size > 0
    requires h1(Seeds[hasherIdx], key) == h2(Seeds[hasherIdx], key)
    ensures Murmurhash(h1, hasherIdx, key, size) == Murmurhash(h2, hasherIdx, key, size)
  {
  }

  /** The slots a key maps to under the first `n` hashers. */
  ghost function HashSlots(h: Murmur3, key: Key, size: uint32, n: nat): (s: set<nat>)
    requires size > 0 && n <= K
    ensures forall i | 0 <= i < n :: Murmurhash(h, i, key, size) in s
    ensures forall q | q in s :: q < size
    ensures |s| <= n
  {
    if n == 0 then {}
    else HashSlots(h, key, size, n - 1) + {Murmurhash(h, n - 1, key, size)}
  }

  /** Every slot of the first `n` hashers is the index of one of them. */
  lemma {:induction false} HashSlotsFromHashers(h: Murmur3, key: Key, size: uint32, n: nat)
    requires size > 0 && n <= K
    ensures forall q | q in HashSlots(h, key, size, n) :: exists i | 0 <= i < n :: q == Murmurhash(h, i, key, size)
  {
    if n > 0 {
      HashSlotsFromHashers(h, key, size, n - 1);
    }
  }

  /** The slots a key maps to: the indices of the two hashers, which may coincide. */
  ghost function KeySlots(h: Murmur3, key: Key, size: uint32): (s: set<nat>)
    requires size > 0
    ensures forall i | 0 <= i < K :: Murmurhash(h, i, key, size) in s
    ensures forall q | q in s :: q < size
    ensures s == {Murmurhash(h, 0, key, size), Murmurhash(h, 1, key, size)}
    ensures 1 <= |s| <= K
  {
    assert HashSlots(h, key, size, 1) == {Murmurhash(h, 0, key, size)};
    assert HashSlots(h, key, size, 2) == HashSlots(h, key, size, 1) + {Murmurhash(h, 1, key, size)};
    HashSlots(h, key, size, K)
  }
}
