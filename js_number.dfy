/** The two JavaScript number operations the hash relies on, on integral values:
    the ToInt32 conversion behind `<<` and `&`, and `Math.abs`. */
module JsNumber {

  const Two31: int := 0x8000_0000
  const Two32: int := 0x1_0000_0000

  /** A signed 32-bit integer. */
  predicate IsInt32(x: int) {
    -Two31 <= x < Two31
  }

  /** ToInt32 of an integral Number: the signed 32-bit value congruent to `x` modulo 2^32. */
  function ToInt32(x: int): (r: int)
    ensures IsInt32(r)
    ensures (x - r) % Two32 == 0
    ensures IsInt32(x) ==> r == x
  {
    (x + Two31) % Two32 - Two31
  }

  /** ToInt32 depends only on the residue of its argument modulo 2^32. */
  lemma ToInt32Congruent(x: int, y: int)
    requires (x - y) % Two32 == 0
    ensures ToInt32(x) == ToInt32(y)
  {
  }

  /** Adding a multiple of the modulus does not change the remainder. */
  lemma ModShift(a: int, k: int)
    ensures (a + Two32 * k) % Two32 == a % Two32
  {
  }

  /** `Math.abs` on an integral value. */
  function Abs(x: int): (r: nat)
    ensures r == x || r == -x
  {
    if x < 0 then -x else x
  }
}
