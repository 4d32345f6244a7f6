/** The C++ integer types the thread pool's interface uses, as bounded subsets of `int`. */
module CInts {

  const INT32_MIN: int := -0x8000_0000
  const INT32_MAX: int := 0x7fff_ffff

  /** `int` on the targets the pool is built for. */
  type Int32 = x: int | INT32_MIN <= x <= INT32_MAX

  /** `unsigned long long`, the result type of the demonstration tasks. */
  const ULL_MODULUS: int := 0x1_0000_0000_0000_0000
  type ULongLong = x: nat | x < ULL_MODULUS

  /** `size_t` on a 64-bit target. */
  const SIZE_T_MODULUS: int := 0x1_0000_0000_0000_0000

  /** The conversion `(size_t)c` of a signed `int`: a negative value wraps modulo 2^64. */
  function SizeT(c: Int32): (r: nat)
    ensures r < SIZE_T_MODULUS
    ensures c >= 0 ==> r == c
    ensures c < 0 ==> r > INT32_MAX && r == SIZE_T_MODULUS + (c as int)
  {
    if c >= 0 then c else c + SIZE_T_MODULUS
  }
}
