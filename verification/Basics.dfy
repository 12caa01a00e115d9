/** Shared small types: optional values, Go's int32 and the replies of a remote call. */
module Basics {

  datatype Option<+T> = None | Some(value: T) {
    function GetOr(default: T): T {
      match this
      case Some(v) => v
      case None => default
    }
  }

  type int32 = x: int | -0x8000_0000 <= x <= 0x7fff_ffff

  /** Go's conversion to int32 and the result of an overflowing int32 product:
      the value modulo 2^32, read as a two's complement number. */
  function Wrap32(x: int): (r: int32)
    ensures -0x8000_0000 <= x <= 0x7fff_ffff ==> r == x
    ensures (x - r) % 0x1_0000_0000 == 0
  {
    (x + 0x8000_0000) % 0x1_0000_0000 - 0x8000_0000
  }

  function Max(a: int, b: int): int {
    if a > b then a else b
  }

  function Min(a: int, b: int): int {
    if a < b then a else b
  }

  /** How a request that changes something at the other end can turn out.
      Lost: the change took place, the caller sees an error. A crash right before
      a request is Rejected, a crash right after it is Lost. */
  datatype Reply = Accepted | Rejected | Lost {
    predicate Ok() { Accepted? }
    predicate TookEffect() { !Rejected? }
  }
}
