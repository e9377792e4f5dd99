/** Alignment arithmetic of src/alignment.rs: `align_to` rounds up with a bitmask, and
    `offset_to_alignment` is the padding that rounding adds.  The arithmetic reference
    definitions AlignUp and PaddingTo are what the archive layout is stated with. */
module Alignment {
  import opened Bytes
  import opened Bits

  /** The least multiple of `a` that is at least `size`, by division. */
  function AlignUp(size: nat, a: nat): (r: nat)
    requires a >= 1
    ensures r % a == 0
    ensures size <= r < size + a
  {
    var q := (size + a - 1) / a;
    LemmaDivBound(size + a - 1, a, q + 1);
    assert a * q <= size + a - 1 < a * (q + 1);
    assert q * a == a * q;
    ModOfMultiple(q, a);
    q * a
  }

  /** Bytes needed after `v` to reach the next multiple of `a`. */
  function PaddingTo(v: nat, a: nat): (r: nat)
    requires a >= 1
    ensures r < a
    ensures (v + r) % a == 0
  {
    AlignUp(v, a) - v
  }

  lemma ModOfMultiple(q: nat, a: nat)
    requires a >= 1
    ensures (q * a) % a == 0 && (q * a) / a == q
  {
    ModUnique(q * a, a, q, 0);
  }

  /** A multiple of `a` no smaller than `size` and below `size + a` is AlignUp(size, a). */
  lemma AlignUpUnique(size: nat, a: nat, r: nat)
    requires a >= 1 && r % a == 0 && size <= r < size + a
    ensures r == AlignUp(size, a)
  {
    var s := AlignUp(size, a);
    var p, q := r / a, s / a;
    assert r == a * p && s == a * q;
    if p < q {
      assert a * q == a * p + a * (q - p);
      MulAtLeast(a, q - p);
    } else if q < p {
      assert a * p == a * q + a * (p - q);
      MulAtLeast(a, p - q);
    }
  }

  /** Aligning an aligned value changes nothing. */
  lemma AlignUpIdempotent(size: nat, a: nat)
    requires a >= 1
    ensures AlignUp(AlignUp(size, a), a) == AlignUp(size, a)
  {
    var s := AlignUp(size, a);
    AlignUpUnique(s, a, s);
  }

  /** Rust's `align_to`: `(size + align - 1) & !(align - 1)` on u64.  The sum must not
      overflow, which the model demands of the caller. */
  function AlignTo(size: u64, align: u64): (r: u64)
    requires align >= 1 && size + align - 1 < TWO_64
    ensures r <= size + align - 1
  {
    AndBound(size + align - 1, Not64(align - 1));
    And(size + align - 1, Not64(align - 1))
  }

  /** For a power of two the bitmask computes the arithmetic round-up. */
  lemma AlignToIsAlignUp(size: u64, align: u64)
    requires IsPowerOf2(align) && size + align - 1 < TWO_64
    ensures AlignTo(size, align) == AlignUp(size, align)
  {
    AlignToIsAlignUpMask(size, align);
  }

  lemma AlignToIsAlignUpMask(size: u64, align: u64)
    requires IsPowerOf2(align) && size + align - 1 < TWO_64
    ensures And(size + align - 1, Not64(align - 1)) == AlignUp(size, align)
  {
    var x := size + align - 1;
    var k := PowerOf2IsPow(align);
    PowTwo64();
    PowBelow(k, 64);
    assert Not64(align - 1) == Pow(2, 64) - Pow(2, k);
    AndHighMask(x, 64, k);
    ClearLowIsRoundDown(x, k);
    assert ClearLow(x, k) == (x / align) * align;
    assert AlignUp(size, align) == (x / align) * align;
  }

  /** For a power of two, align_to is a multiple of `align` in [size, size + align). */
  lemma AlignToBounds(size: u64, align: u64)
    requires IsPowerOf2(align) && size + align - 1 < TWO_64
    ensures AlignTo(size, align) % align == 0
    ensures size <= AlignTo(size, align) < size + align
  {
    AlignToIsAlignUp(size, align);
  }

  /** For a power of two, align_to is idempotent. */
  lemma AlignToIdempotent(size: u64, align: u64)
    requires IsPowerOf2(align) && size + align - 1 < TWO_64
    ensures AlignTo(size, align) + align - 1 < TWO_64
    ensures AlignTo(AlignTo(size, align), align) == AlignTo(size, align)
  {
    AlignToIsAlignUp(size, align);
    var r := AlignTo(size, align);
    assert r + align - 1 < TWO_64 by {
      if r + align - 1 >= TWO_64 {
        // r is the multiple just above size; r + align - 1 would exceed the u64 range
        // only if a multiple of align lay at or beyond 2^64 - align + 1 while
        // size + align - 1 < 2^64.
        PowerOf2DividesTwo64(align);
        MultipleGap(r, TWO_64, align);
      }
    }
    AlignUpIdempotent(size, align);
    AlignToIsAlignUp(r, align);
  }

  /** Two distinct multiples of `a` lie at least `a` apart. */
  lemma MultipleGap(r: nat, t: nat, a: nat)
    requires a >= 1 && r % a == 0 && t % a == 0 && r < t
    ensures r + a <= t
  {
    var p, q := r / a, t / a;
    assert r == a * p && t == a * q;
    assert p < q;
    assert a * q == a * p + a * (q - p);
    MulAtLeast(a, q - p);
  }

  lemma PowerOf2DividesTwo64(align: nat)
    requires IsPowerOf2(align) && align < TWO_64
    ensures TWO_64 % align == 0
  {
    var k := PowerOf2IsPow(align);
    PowTwo64();
    PowBelow(k, 64);
    PowAdd(2, k, 64 - k);
    ModUnique(TWO_64, align, Pow(2, 64 - k), 0);
  }

  /** Rust's `offset_to_alignment`: `align_to(value, alignment) - value`, which lies in
      [0, alignment) and completes `value` to a multiple of `alignment`. */
  function OffsetToAlignment(value: u64, alignment: u64): (r: u64)
    requires IsPowerOf2(alignment) && value + alignment - 1 < TWO_64
    ensures r == PaddingTo(value, alignment)
  {
    AlignToIsAlignUp(value, alignment);
    AlignTo(value, alignment) - value
  }
}
