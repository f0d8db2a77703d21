/** The two JavaScript integer operators the smoothing buffer relies on: the
    left shift `1 << n` that sizes the ring, and the bitwise `&` that wraps its
    cursor. */
module Bits {
  import Arith

  function Pow2(k: nat): (p: nat)
    ensures p >= 1
  {
    if k == 0 then 1 else 2 * Pow2(k - 1)
  }

  /** `1 << n` in JavaScript: the shift count is taken modulo 32 and the result
      is a signed 32-bit integer, so a shift by 31 gives -2^31. */
  function ShiftOne(n: nat): (r: int)
    ensures n % 32 < 31 ==> r == Pow2(n % 32)
    ensures n % 32 == 31 ==> r < 0
  {
    var k := n % 32;
    var top: int := Pow2(31);
    if k == 31 then -top else Pow2(k)
  }

  /** Bitwise AND of two non-negative integers, bit by bit from the least
      significant end. */
  function And(a: nat, b: nat): (r: nat)
    ensures r <= a && r <= b
    decreases a
  {
    if a == 0 || b == 0 then 0
    else 2 * And(a / 2, b / 2) + (if a % 2 == 1 && b % 2 == 1 then 1 else 0)
  }

  /** Masking with `2^k - 1` keeps the low k bits, i.e. it is the remainder
      modulo `2^k`: the trick that lets the ring buffer wrap its cursor with
      `&` instead of `%`. */
  lemma {:induction false} MaskIsMod(a: nat, k: nat)
    ensures And(a, Pow2(k) - 1) == a % Pow2(k)
    decreases k
  {
    if k == 0 {
      assert Pow2(0) - 1 == 0;
    } else if a == 0 {
    } else {
      var p := Pow2(k - 1);
      assert Pow2(k) - 1 == 2 * (p - 1) + 1;
      assert (Pow2(k) - 1) / 2 == p - 1;
      assert (Pow2(k) - 1) % 2 == 1;
      MaskIsMod(a / 2, k - 1);
      Arith.ModTwice(a, p);
    }
  }
}
