/** src/math_extras.rs: `align_to_power_of2`, which asserts that `align` is a power of two
    and rounds up with the two's-complement mask `-align`. */
module MathExtras {
  import opened Bytes
  import opened Bits
  import opened Alignment
  import opened Wrappers

  /** `!align + 1`: the two's-complement negation of `align`, which is the mask
      `!(align - 1)` clearing the bits below `align`. */
  function NegAlign(align: u64): (r: u64)
    requires align >= 1
    ensures r == (TWO_64 - align) % TWO_64
    ensures r == Not64(align - 1)
  {
    Not64(align) + 1
  }

  /** `align_to_power_of2(value, align)`: None where the source's assertion fails. The sum
      `value + align - 1` is computed only after the assertion, and must not overflow. */
  function AlignToPowerOf2(value: u64, align: u64): (r: Option<u64>)
    requires align != 0 ==> value + align - 1 < TWO_64
    ensures r.None? <==> !IsPowerOf2(align)
    ensures r.Some? ==> r.value % align == 0 && value <= r.value < value + align
  {
    PowerOf2Test(align);
    if !(align != 0 && And(align, align - 1) == 0) then None
    else
      AndBound(value + align - 1, NegAlign(align));
      AlignToPowerOf2Mask(value, align);
      Some(And(value + align - 1, NegAlign(align)))
  }

  lemma AlignToPowerOf2Mask(value: u64, align: u64)
    requires IsPowerOf2(align) && value + align - 1 < TWO_64
    ensures And(value + align - 1, NegAlign(align)) == AlignUp(value, align)
  {
    AlignToIsAlignUpMask(value, align);
  }

  /** The result is the least multiple of `align` that is at least `value`. */
  lemma AlignToPowerOf2Least(value: u64, align: u64, m: nat)
    requires IsPowerOf2(align) && value + align - 1 < TWO_64
    requires m % align == 0 && value <= m
    ensures AlignToPowerOf2(value, align).Some?
    ensures AlignToPowerOf2(value, align).value <= m
  {
    var r := AlignToPowerOf2(value, align).value;
    if m < r {
      MultipleGap(m, r, align);
    }
  }

  /** For a power of two it agrees with `align_to`. */
  lemma AlignToPowerOf2IsAlignTo(value: u64, align: u64)
    requires IsPowerOf2(align) && value + align - 1 < TWO_64
    ensures AlignToPowerOf2(value, align) == Some(AlignTo(value, align))
  {
    AlignToIsAlignUp(value, align);
    AlignUpUnique(value, align, AlignToPowerOf2(value, align).value);
  }
}
