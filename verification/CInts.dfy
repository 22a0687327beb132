/** Integer arithmetic as the C++ source performs it: division truncates toward
    zero, and a 32-bit operation whose exact result does not fit is undefined,
    which is modelled as `None`. */
module CInts {
  import opened Options

  const INT32_MIN: int := -0x8000_0000
  const INT32_MAX: int := 0x7fff_ffff

  predicate FitsInt32(x: int) {
    INT32_MIN <= x <= INT32_MAX
  }

  /** The conversion of a wide integer to a 32-bit one: two's complement wrap-around. */
  function WrapInt32(x: int): (r: int)
    ensures FitsInt32(r) && (r - x) % 0x1_0000_0000 == 0
    ensures FitsInt32(x) ==> r == x
  {
    (x + 0x8000_0000) % 0x1_0000_0000 - 0x8000_0000
  }

  /** C++ `/` for a positive divisor. */
  function TruncDiv(a: int, b: int): (q: int)
    requires b > 0
    ensures a >= 0 ==> q == a / b
  {
    if a >= 0 then a / b else -((-a) / b)
  }

  /** C++ `%` for a positive divisor: the remainder takes the dividend's sign. */
  function TruncMod(a: int, b: int): (r: int)
    requires b > 0
    ensures a >= 0 ==> r == a % b
    ensures -b < r
  {
    a - b * TruncDiv(a, b)
  }

  function Checked(x: int): (r: Option<int>)
    ensures r.Some? <==> FitsInt32(x)
    ensures r.Some? ==> r.value == x
  {
    if FitsInt32(x) then Some(x) else None
  }

  function Add32(a: int, b: int): Option<int> { Checked(a + b) }

  function Sub32(a: int, b: int): Option<int> { Checked(a - b) }

  function Mul32(a: int, b: int): Option<int> { Checked(a * b) }
}
