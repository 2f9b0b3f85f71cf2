/** 32-bit sequence numbers (FreeRTOS_TCP_WIN.c).

    Every bound below is about the distance between two sequence numbers; section 3.3 of
    RFC 793 asks for the same comparisons. */
module Seq32 {
  import opened Common

  const TWO31 := 0x8000_0000
  const TWO32 := 0x1_0000_0000

  /** The 32-bit number that stands for an unbounded stream position. */
  function Wrap(n: int): uint32 {
    n % TWO32
  }

  function Add(a: uint32, b: uint32): uint32 {
    if a + b < TWO32 then a + b else a + b - TWO32
  }

  function Sub(a: uint32, b: uint32): uint32 {
    if a >= b then a - b else a - b + TWO32
  }

  /** The cast of a 32-bit number to a signed one. */
  function Int32(a: uint32): int {
    if a < TWO31 then a else a - TWO32
  }

  /** The distance from b to a that is nearest to zero. */
  function Distance(a: uint32, b: uint32): int {
    if Sub(a, b) <= TWO31 then Sub(a, b) else Sub(a, b) - TWO32
  }

  // The four tests of the source: bit 31 of the unsigned difference is clear.

  predicate LessOrEqual(a: uint32, b: uint32) {
    Sub(b, a) < TWO31
  }

  predicate Less(a: uint32, b: uint32) {
    Sub(Sub(b, a), 1) < TWO31
  }

  predicate Greater(a: uint32, b: uint32) {
    Sub(Sub(a, b), 1) < TWO31
  }

  predicate GreaterOrEqual(a: uint32, b: uint32) {
    Sub(a, b) < TWO31
  }

  lemma WrapAdd(n: int, k: uint32)
    ensures Add(Wrap(n), k) == Wrap(n + k)
  {}

  /** The 32-bit tests agree with the comparison of the unbounded positions exactly while
      the positions are less than half the number space apart. */
  lemma ComparisonsExact(x: int, y: int)
    requires -TWO32 < y - x < TWO32
    ensures (LessOrEqual(Wrap(x), Wrap(y)) <==> x <= y) <==> -TWO31 <= y - x < TWO31
    ensures (Less(Wrap(x), Wrap(y)) <==> x < y) <==> -TWO31 < y - x <= TWO31
    ensures (Greater(Wrap(x), Wrap(y)) <==> x > y) <==> -TWO31 <= y - x < TWO31
    ensures (GreaterOrEqual(Wrap(x), Wrap(y)) <==> x >= y) <==> -TWO31 < y - x <= TWO31
  {
    var d := y - x;
    assert Sub(Wrap(y), Wrap(x)) == if d >= 0 then d else d + TWO32;
    assert Sub(Wrap(x), Wrap(y)) == if d > 0 then TWO32 - d else -d;
  }
}
