/** Go's fixed-width integers, written out over the unbounded `int`. */
module MachineInts {

  const TWO_64 := 0x1_0000_0000_0000_0000
  const MAX_INT64 := 0x7FFF_FFFF_FFFF_FFFF
  const MIN_INT64 := -0x8000_0000_0000_0000

  predicate IsInt64(x: int) {
    MIN_INT64 <= x <= MAX_INT64
  }

  predicate IsUint64(x: int) {
    0 <= x < TWO_64
  }

  /** Two's complement wrap-around of an `int` operation. */
  function WrapInt64(x: int): (r: int)
    ensures IsInt64(r) && (x - r) % TWO_64 == 0
    ensures IsInt64(x) ==> r == x
  {
    var m := x % TWO_64;
    if m > MAX_INT64 then m - TWO_64 else m
  }

  /** Wrap-around of a `uint64` operation. */
  function WrapUint64(x: int): (r: int)
    ensures IsUint64(r) && (x - r) % TWO_64 == 0
    ensures IsUint64(x) ==> r == x
  {
    x % TWO_64
  }

  /** Go's `/` truncates toward zero. */
  function Quo(x: int, y: int): (q: int)
    requires y > 0
    ensures x >= 0 ==> q == x / y
  {
    if x >= 0 then x / y else -((-x) / y)
  }

  /** Go's `%` takes the sign of the dividend. */
  function Rem(x: int, y: int): (r: int)
    requires y > 0
    ensures x == Quo(x, y) * y + r
    ensures -y < r < y
    ensures x >= 0 ==> r == x % y
    ensures x < 0 ==> r <= 0
  {
    if x >= 0 then x % y else -((-x) % y)
  }
}
