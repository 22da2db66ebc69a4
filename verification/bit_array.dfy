/**
  Bit-packed slot storage of the bloom filter.

  The filter keeps its slots in a byte array: slot `p` is bit `p % 8` of
  byte `p / 8`. A byte array of length `n` therefore holds the slots
  `0 .. 8 * n - 1`. This module gives that addressing scheme a name and
  proves the facts the filter needs about it: setting one slot sets exactly
  that slot, and a byte array is determined by its slots.
 */
module BitArray {

  /** The single-bit mask `1 << bit` used to select a slot inside its byte. */
  function Mask(bit: nat): (m: bv8)
    requires bit < 8
    ensures m != 0
  {
    (1 as bv8) << bit
  }

  /** The masks of distinct bit positions are disjoint. */
  lemma MaskDisjoint(a: nat, c: nat)
    requires a < 8 && c < 8 && a != c
    ensures Mask(a) & Mask(c) == 0
  {
  }

  /** Whether slot `p` is set: the bit `p % 8` of byte `p / 8` is non-zero. */
  predicate BitAt(bytes: seq<bv8>, p: nat)
    requires p < 8 * |bytes|
  {
    bytes[p / 8] & Mask(p % 8) != 0
  }

  /** The set of slots that are set: the abstract content of a byte array. */
  ghost function SetBits(bytes: seq<bv8>): set<nat>
  {
    set q: nat | q < 8 * |bytes| && BitAt(bytes, q)
  }

  /** ORs the mask of slot `p` into its byte. */
  function SetBit(bytes: seq<bv8>, p: nat): (r: seq<bv8>)
    requires p < 8 * |bytes|
    ensures |r| == |bytes|
    ensures forall q | 0 <= q < 8 * |r| :: BitAt(r, q) <==> (BitAt(bytes, q) || q == p)
    ensures forall j | 0 <= j < |r| && j != p / 8 :: r[j] == bytes[j]
  {
    var r := bytes[p / 8 := bytes[p / 8] | Mask(p % 8)];
    forall q | 0 <= q < 8 * |r|
      ensures BitAt(r, q) <==> (BitAt(bytes, q) || q == p)
    {
      if q / 8 == p / 8 {
        OrMask(bytes[p / 8], p % 8, q % 8);
      }
    }
    r
  }

  /** ORing in the mask of bit `a` sets bit `a` and leaves every other bit as it was. */
  lemma OrMask(x: bv8, a: nat, c: nat)
    requires a < 8 && c < 8
    ensures ((x | Mask(a)) & Mask(c) != 0) <==> (x & Mask(c) != 0 || a == c)
  {
    if a != c {
      MaskDisjoint(a, c);
    }
  }

  /** A byte is determined by its eight bits. */
  lemma ByteFromBits(x: bv8, y: bv8)
    requires forall c | 0 <= c < 8 :: (x & Mask(c) != 0) == (y & Mask(c) != 0)
    ensures x == y
  {
    assert (x & Mask(0) != 0) == (y & Mask(0) != 0);
    assert (x & Mask(1) != 0) == (y & Mask(1) != 0);
    assert (x & Mask(2) != 0) == (y & Mask(2) != 0);
    assert (x & Mask(3) != 0) == (y & Mask(3) != 0);
    assert (x & Mask(4) != 0) == (y & Mask(4) != 0);
    assert (x & Mask(5) != 0) == (y & Mask(5) != 0);
    assert (x & Mask(6) != 0) == (y & Mask(6) != 0);
    assert (x & Mask(7) != 0) == (y & Mask(7) != 0);
  }

  /** Slot `8 * j + c` lives in byte `j` at bit `c`. */
  lemma SlotOfByte(j: nat, c: nat)
    requires c < 8
    ensures (8 * j + c) / 8 == j && (8 * j + c) % 8 == c
  {
  }

  /** Two byte arrays with the same slots set are equal. */
  lemma BytesFromBits(a: seq<bv8>, b: seq<bv8>)
    requires |a| == |b|
    requires forall q | 0 <= q < 8 * |a| :: BitAt(a, q) == BitAt(b, q)
    ensures a == b
  {
    forall j | 0 <= j < |a|
      ensures a[j] == b[j]
    {
      forall c | 0 <= c < 8
        ensures (a[j] & Mask(c) != 0) == (b[j] & Mask(c) != 0)
      {
        SlotOfByte(j, c);
        assert BitAt(a, 8 * j + c) == BitAt(b, 8 * j + c);
      }
      ByteFromBits(a[j], b[j]);
    }
  }

  /** A byte whose eight slots agree in two arrays is the same in both. */
  lemma SameByteFromBits(a: seq<bv8>, b: seq<bv8>, j: nat)
    requires j < |a| == |b|
    requires forall q | 8 * j <= q < 8 * j + 8 :: BitAt(a, q) == BitAt(b, q)
    ensures a[j] == b[j]
  {
    forall c | 0 <= c < 8
      ensures (a[j] & Mask(c) != 0) == (b[j] & Mask(c) != 0)
    {
      SlotOfByte(j, c);
      assert BitAt(a, 8 * j + c) == BitAt(b, 8 * j + c);
    }
    ByteFromBits(a[j], b[j]);
  }

  /** A byte none of whose slots is set is zero. */
  lemma ZeroByteFromBits(bytes: seq<bv8>, j: nat)
    requires j < |bytes|
    requires forall q | 8 * j <= q < 8 * j + 8 :: !BitAt(bytes, q)
    ensures bytes[j] == 0
  {
    forall c | 0 <= c < 8
      ensures (bytes[j] & Mask(c) != 0) == ((0 as bv8) & Mask(c) != 0)
    {
      SlotOfByte(j, c);
      assert !BitAt(bytes, 8 * j + c);
    }
    ByteFromBits(bytes[j], 0);
  }
}
