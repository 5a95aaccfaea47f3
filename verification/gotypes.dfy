/**
 Go value types the bot works with, written out explicitly: byte strings,
 fixed-width integers with Go's truncating conversion, and the outcome of a
 call that may return normally, return an error, or panic.
 */
module GoTypes {

  /** A Go `string` is a sequence of bytes. */
  type Bytes = seq<bv8>

  const Int32Min: int := -0x8000_0000
  const Int32Max: int := 0x7FFF_FFFF
  const Int64Min: int := -0x8000_0000_0000_0000
  const Int64Max: int := 0x7FFF_FFFF_FFFF_FFFF

  type Int32 = x: int | Int32Min <= x <= Int32Max
  type Int64 = x: int | Int64Min <= x <= Int64Max

  /** The ASCII space byte, the separator of command tokens. */
  const Space: bv8 := 0x20

  datatype Option<+T> = None | Some(value: T)

  /** An error-returning Go call: `(value, nil)` or `(zero, err)`. */
  datatype Result<+T, +E> = Ok(value: T) | Err(error: E)

  /** Why a Go runtime panic was raised. */
  datatype PanicReason =
    | IndexOutOfRange(index: nat, length: nat)   // s[index] with index >= len(s)
    | SliceOutOfRange(low: nat, length: nat)     // s[low:] with low > len(s)
    | NilDereference                             // field access through a nil pointer

  /** A Go call that returns a value, returns an error, or panics. */
  datatype Outcome<+T, +E> = Returned(value: T) | Failed(error: E) | Panicked(reason: PanicReason)

  /**
   Go's conversion `int32(n)`: keeps the low 32 bits of the two's-complement
   representation, so the result is the unique Int32 congruent to n modulo 2^32.
   */
  function ToInt32(n: int): (r: Int32)
    ensures (r - n) % 0x1_0000_0000 == 0
    ensures Int32Min <= n <= Int32Max ==> r == n
  {
    var m := n % 0x1_0000_0000;
    if m <= Int32Max then m else m - 0x1_0000_0000
  }
}
