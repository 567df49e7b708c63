/** Fixed-width integers of the C sources and the 32-bit circular order on TCP
    sequence numbers and timer values (src/lwip/src/include/lwip/priv/tcp_priv.h). */
module Seq32 {

  const TWO31: int := 0x8000_0000
  const TWO32: int := 0x1_0000_0000

  type u32 = x: int | 0 <= x < 0x1_0000_0000
  type u16 = x: int | 0 <= x < 0x1_0000
  type byte = x: int | 0 <= x < 0x100

  /** The 32-bit value that represents an unbounded position. */
  function Wire(x: int): (w: u32)
  {
    x % TWO32
  }

  /** C's unsigned addition and subtraction on u32_t. */
  function Add(a: u32, b: int): u32 { (a + b) % TWO32 }
  function Sub(a: u32, b: int): u32 { (a - b) % TWO32 }

  /** The cast (s32_t). */
  function S32(d: u32): int { if d < TWO31 then d else d - TWO32 }

  predicate SeqLt(a: u32, b: u32) { S32(Sub(a, b)) < 0 }
  predicate SeqLeq(a: u32, b: u32) { S32(Sub(a, b)) <= 0 }
  predicate SeqGt(a: u32, b: u32) { S32(Sub(a, b)) > 0 }
  predicate SeqGeq(a: u32, b: u32) { S32(Sub(a, b)) >= 0 }
  predicate SeqBetween(a: u32, b: u32, c: u32) { SeqGeq(a, b) && SeqLeq(a, c) }

  /** Reducing before or after an addition makes no difference. */
  lemma WireAdd(x: int, n: int)
    ensures Add(Wire(x), n) == Wire(x + n)
    ensures Sub(Wire(x), n) == Wire(x - n)
  {
    var q := x / TWO32;
    assert x == TWO32 * q + Wire(x);
    assert (x + n) == TWO32 * q + (Wire(x) + n);
    assert (x - n) == TWO32 * q + (Wire(x) - n);
    ModShift(Wire(x) + n, q);
    ModShift(Wire(x) - n, q);
  }

  lemma ModShift(y: int, q: int)
    ensures (TWO32 * q + y) % TWO32 == y % TWO32
  {
    var k := y / TWO32;
    var r := y % TWO32;
    assert TWO32 * q + y == TWO32 * (q + k) + r;
    DivUnique(TWO32 * q + y, q + k, r);
  }

  lemma DivUnique(z: int, q: int, r: int)
    requires z == TWO32 * q + r && 0 <= r < TWO32
    ensures z % TWO32 == r
  {
    var q' := z / TWO32;
    var r' := z % TWO32;
    assert z == TWO32 * q' + r';
    assert TWO32 * (q - q') == r' - r;
  }

  /** The bridge: on positions less than half the space apart, the circular
      comparisons of the wire values are the comparisons of the positions. */
  lemma WireOrder(x: int, y: int)
    requires -TWO31 <= x - y < TWO31
    ensures S32(Sub(Wire(x), Wire(y))) == x - y
    ensures SeqLt(Wire(x), Wire(y)) <==> x < y
    ensures SeqLeq(Wire(x), Wire(y)) <==> x <= y
    ensures SeqGt(Wire(x), Wire(y)) <==> x > y
    ensures SeqGeq(Wire(x), Wire(y)) <==> x >= y
    ensures Wire(x) == Wire(y) <==> x == y
    ensures x >= y ==> Sub(Wire(x), Wire(y)) == x - y
  {
    var d := x - y;
    var q := y / TWO32;
    assert y == TWO32 * q + Wire(y);
    WireAdd(x, Wire(y));
    assert x - Wire(y) == TWO32 * q + d;
    ModShift(d, q);
    assert Sub(Wire(x), Wire(y)) == d % TWO32;
    if d < 0 {
      DivUnique(d, -1, d + TWO32);
    } else {
      DivUnique(d, 0, d);
    }
    if Wire(x) == Wire(y) {
      assert Sub(Wire(x), Wire(y)) == 0;
    }
  }

  /** The circular order is a strict order of two values exactly when they are not
      half the space apart: there, each is "less than" the other. */
  lemma HalfSpaceIsAmbiguous(a: u32, b: u32)
    ensures SeqLt(a, b) && SeqLt(b, a) <==> Sub(a, b) == TWO31
  {
    var d := a - b;
    if d >= 0 {
      DivUnique(d, 0, d);
      if d > 0 { DivUnique(-d, -1, TWO32 - d); } else { DivUnique(-d, 0, 0); }
    } else {
      DivUnique(d, -1, d + TWO32);
      DivUnique(-d, 0, -d);
    }
  }
}
