# Bloom filter — Dafny model

A model of the bloom filter in `main.go`: a fixed set of seeded MurmurHash3-32
hashers turns a key into slot indices, a byte array stores the slots
bit-packed (slot `idx` is bit `idx % 8` of byte `idx / 8`), `Add` ORs in the
slot of every hasher, and `Exists` walks the hashers in order and reports the
first unset slot, or `(0, true)` when every slot is set.

Modules, leaves first:

- `HashIndex` (`hash_index.dfy`): the two hasher seeds (10 and 20000), the
  reduction `Murmurhash` of a digest modulo the filter size, and the set of
  slots a key maps to. The seeded hash is a parameter `h: (seed, key) -> uint32`,
  so every result holds for every hash function.
- `BitArray` (`bit_array.dfy`): bit-packed slot addressing over `seq<bv8>`,
  setting one slot, and the fact that a byte array is determined by its slots.
- `Bloom` (`bloom_filter.dfy`): the filter record, `NewBloomFilter`, `Add` and
  `Exists`, each stated against the abstract content `Slots(b)`, the set of
  set slots.
- `BloomProperties` (`properties.dfy`): sequences of insertions (`AddAll`) and
  the properties of the filter across calls.

The filter is an immutable value: `Add` returns the new filter and `Exists`
is a function of the filter, so the query cannot change it.

Details of the code the model keeps:

- The array holds `size` bytes, eight times what `size` slots need, so
  bytes after `(size - 1) / 8` are never written (`HighBytesStayZero`).
- `NewBloomFilter` accepts any size, 0 included, and then builds an empty
  array. A size of zero fails only later, as a division by zero in the
  `% size` of `murmurhash`, so `size > 0` is a precondition of `Murmurhash`,
  `Add` and `Exists` and not of construction.
- Keys are the bytes of a Go string (`seq<bv8>`), with no assumption that
  they are valid UTF-8: `[]byte(key)` at main.go:27 copies those bytes
  unchanged, and the hash `h` receives them.
- When every slot is set, `Exists` returns index 0.

## Model

| member | source | states |
|---|---|---|
| HashIndex.Murmurhash | main.go:25-30 | for a positive size the index of every hasher lies in `[0, size)` |
| HashIndex.MurmurhashIsLocal | main.go:25-30 | the index depends only on the hasher's own digest of this key, never on other keys hashed before (the per-call reset) |
| HashIndex.KeySlots | main.go:45-46 | the slots of a key are exactly the indices of the two hashers (one slot when they coincide), all below size |
| BitArray.SetBit | main.go:47-49 | ORing in `1 << (idx % 8)` at byte `idx / 8` sets slot `idx`, keeps every other slot as it was, and leaves every other byte alone |
| Bloom.SlotByte | main.go:47 | the byte holding slot `idx < size` is inside the array and at most `(size - 1) / 8` |
| Bloom.NewBloomFilter | main.go:37-42 | a new filter has `size` bytes, all zero, and no slot set |
| Bloom.AddHashers | main.go:45-50 | after the first `n` iterations of the loop, exactly the old slots plus those of the first `n` hashers are set; size and length are unchanged |
| Bloom.Add | main.go:44-51 | after `Add` the set slots are the old ones plus the key's slots; size and length are unchanged; every byte holding none of the key's slots is untouched |
| Bloom.ExistsFrom | main.go:54-62 | the loop from hasher `i` returns `true` iff every later hasher's slot is set, with index 0; otherwise the index of the first hasher from `i` on whose slot is unset |
| Bloom.Exists | main.go:53-63 | `present` iff every slot of the key is set; when absent, the index is the slot of the first hasher in order whose slot is unset; when present, 0 |
| BloomProperties.AddAll | main.go:44-51 | a sequence of insertions sets exactly the old slots plus the slots of every inserted key |
| BloomProperties.AddMonotone | main.go:49 | `Add` never clears a slot |
| BloomProperties.AddIdempotent | main.go:49 | inserting a key twice leaves the same array as inserting it once |
| BloomProperties.AddCommutes | main.go:44-51 | two insertions give the same array in either order |
| BloomProperties.AddThenExists | main.go:44-63 | right after `Add(key)`, `Exists(key)` returns `(0, true)` |
| BloomProperties.NoFalseNegatives | main.go:44-63 | after inserting a sequence of keys, every one of them is reported present |
| BloomProperties.StaysPresentAfterLaterInserts | main.go:44-63 | a key stays present whatever keys are inserted after it |
| BloomProperties.ExistsAfterInserts | main.go:44-63 | on a filter built from some keys, a key is reported present exactly when each of its slots is a slot of an inserted key |
| BloomProperties.ExistsOnNewFilter | main.go:53-63 | on a new filter every key is absent, reported at the first hasher's index |
| BloomProperties.AddKeepsSlotsBelowSize | main.go:45-49 | `Add` sets no slot at or above `size` |
| BloomProperties.HighBytesStayZero | main.go:37-50 | through any sequence of insertions into a new filter, no slot at or above `size` is set and every byte after `(size - 1) / 8` stays zero |

## Left out

- The MurmurHash3 algorithm: it comes from an external library whose source is not part of this model; the seeded hash is the parameter `h`, about which nothing is assumed.
- The streaming `Write`/`Sum32`/`Reset` state of the shared hashers: because every call resets its hasher, a call is modelled as a pure function of seed and key. The thread-safety of the shared hashers is a concurrency concern and is not modelled.
- `main`: the benchmark harness (UUID generation, the map of expected membership, the size sweep, floating-point false-positive percentages and printing).
- The false-positive rate: it is probabilistic and the code does not compute it; `ExistsAfterInserts` states exactly when a false positive occurs instead.
- The model assumes a 64-bit target. On a 32-bit target, `make([]uint8, size)` at main.go:39 panics for `size >= 2^31`, but the model's `NewBloomFilter` accepts every `uint32`; that case is not modelled.
