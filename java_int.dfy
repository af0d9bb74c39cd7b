/** Java's 32-bit `int`: its range and the wrap-around of its addition. */
module JavaInt {

  const TWO_32: int := 0x1_0000_0000
  const INT_MIN: int := -0x8000_0000
  const INT_MAX: int := 0x7FFF_FFFF

  newtype int32 = x: int | -0x8000_0000 <= x < 0x8000_0000

  predicate InRange(x: int) {
    INT_MIN <= x <= INT_MAX
  }

  /** The int that Java's `+` yields for a mathematical sum `x`: `x` reduced modulo 2^32 into the int range. */
  function Wrap(x: int): (r: int32)
    ensures (x - r as int) % TWO_32 == 0
    ensures InRange(x) ==> r as int == x
  {
    var m := (x - INT_MIN) % TWO_32;
    (m + INT_MIN) as int32
  }

  /** The quotient of two naturals. */
  function NatDiv(a: nat, b: nat): (q: nat)
    requires b > 0
    ensures q * b <= a < (q + 1) * b
  {
    a / b
  }

  /** Java's `/` on ints: the quotient truncated toward zero. */
  function JavaDiv(a: int, b: int): (q: int)
    requires b != 0
    ensures 0 <= a && 0 < b ==> q == a / b
    ensures (a < 0) == (b < 0) ==> q >= 0
  {
    var na: nat := if a < 0 then -a else a;
    var nb: nat := if b < 0 then -b else b;
    var n := NatDiv(na, nb);
    if (a < 0) != (b < 0) then 0 - n as int else n
  }
}
