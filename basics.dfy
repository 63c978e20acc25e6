/** Small shared vocabulary: an option type and the fixed-width integers of
    the C++ code (the model's integers are unbounded, so every narrowing
    conversion the code performs is written out with these). */
module Basics {

  datatype Option<+T> = None | Some(value: T) {
    function GetOr(default: T): T {
      match this
      case Some(v) => v
      case None => default
    }
  }

  const TWO_8: int := 0x100
  const TWO_16: int := 0x1_0000
  const TWO_32: int := 0x1_0000_0000

  type u8 = x: int | 0 <= x < 0x100
  type u16 = x: int | 0 <= x < 0x1_0000
  type u32 = x: int | 0 <= x < 0x1_0000_0000
  /** The range of a 32-bit C `int`. */
  type i32 = x: int | -0x8000_0000 <= x < 0x8000_0000

  /** Conversion of any integer to `uint8_t`: reduction modulo 2^8. */
  function ToU8(x: int): (r: u8)
    ensures 0 <= x < TWO_8 ==> r == x
  {
    x % TWO_8
  }

  /** Conversion of any integer to `uint16_t` (`static_cast<uint16_t>`). */
  function ToU16(x: int): (r: u16)
    ensures 0 <= x < TWO_16 ==> r == x
    ensures (r - x) % TWO_16 == 0
  {
    x % TWO_16
  }

  /** Conversion of any integer to `uint32_t`/`DWORD`. */
  function ToU32(x: int): (r: u32)
    ensures 0 <= x < TWO_32 ==> r == x
    ensures (r - x) % TWO_32 == 0
  {
    x % TWO_32
  }

  /** Conversion of a `uint32_t` to a 32-bit `int` (two's complement). */
  function ToI32(x: u32): (r: i32)
    ensures x < 0x8000_0000 ==> r == x
    ensures ToU32(r) == x
  {
    if x < 0x8000_0000 then x else x - TWO_32
  }

  /** Concatenation is associative. */
  lemma ConcatAssoc<T>(a: seq<T>, b: seq<T>, c: seq<T>)
    ensures a + (b + c) == (a + b) + c
  {
  }

  /** A common prefix cancels. */
  lemma ConcatCancel<T>(p: seq<T>, a: seq<T>, b: seq<T>)
    requires p + a == p + b
    ensures a == b
  {
    assert a == (p + a)[|p|..];
    assert b == (p + b)[|p|..];
  }
}
