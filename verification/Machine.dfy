/** The pointer-sized unsigned integers of a 64-bit target, and their saturating arithmetic. */
module Machine {
  const USIZE_MAX: nat := 0xFFFF_FFFF_FFFF_FFFF

  type USize = n: nat | n <= USIZE_MAX

  function SaturatingAdd(a: USize, b: USize): USize {
    if a + b <= USIZE_MAX then a + b else USIZE_MAX
  }

  function SaturatingSub(a: USize, b: USize): USize {
    if a >= b then a - b else 0
  }

  /** `n` cut to what a counter can hold. */
  function Capped(n: nat): USize {
    if n <= USIZE_MAX then n else USIZE_MAX
  }

  /** The words are those of 64 bits, and their arithmetic stops at either end. */
  lemma SixtyFourBits(a: USize, b: USize)
    ensures USIZE_MAX == 0xFFFF_FFFF_FFFF_FFFF
    ensures SaturatingAdd(a, b) == if a + b > 0xFFFF_FFFF_FFFF_FFFF then 0xFFFF_FFFF_FFFF_FFFF else a + b
    ensures SaturatingSub(a, b) == if b > a then 0 else a - b
  {
  }
}
