/** Frame numbers: the 32-bit ones of the wire, which wrap, and the unbounded ones they stand for. */
module FrameIds {
  datatype Numbering = Wrapping | Unbounded

  const MODULUS: int := 0x1_0000_0000
  const HALF: int := 0x8000_0000

  predicate IsId(n: Numbering, a: int) {
    n == Wrapping ==> 0 <= a < MODULUS
  }

  /** How far b is ahead of a; on 32 bits, the unsigned difference. */
  function Ahead(n: Numbering, a: int, b: int): int {
    if n == Wrapping then (b - a) % MODULUS else b - a
  }

  /** newer(a, b): the signed difference a - b is positive. */
  predicate Newer(n: Numbering, a: int, b: int) {
    if n == Wrapping then 0 < Ahead(n, b, a) < HALF else a > b
  }

  function Plus(n: Numbering, a: int, k: int): int {
    if n == Wrapping then (a + k) % MODULUS else a + k
  }

  function Wrap(a: int): int { a % MODULUS }
}
