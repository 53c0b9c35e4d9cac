/**
 * Integer widths of the C# engine, the optional and failing results used in
 * place of `null` and of thrown exceptions, and the byte-stream reading
 * primitive every decoder shares.
 */
module Bytes {

  type Byte = x: int | 0 <= x < 0x100
  type UInt16 = x: int | 0 <= x < 0x1_0000
  type UInt32 = x: int | 0 <= x < 0x1_0000_0000
  type Int32 = x: int | -0x8000_0000 <= x < 0x8000_0000

  const UInt16MaxValue: UInt16 := 0xFFFF
  const UInt32MaxValue: UInt32 := 0xFFFF_FFFF

  /** A reference that may be `null`. */
  datatype Option<T> = None | Some(value: T)

  /** The value of an operation, or the exception it throws. */
  datatype Result<T> = Ok(value: T) | Err(reason: string)

  /**
   * `Stream.ReadByte` on an in-memory stream: the byte at `pos`, or -1 once
   * the stream is exhausted.
   */
  function ReadByte(data: seq<Byte>, pos: nat): (b: int)
    ensures -1 <= b < 0x100
    ensures b == -1 <==> pos >= |data|
  {
    if pos < |data| then data[pos] else -1
  }

  /** The stream position after one `ReadByte`: it does not move past the end. */
  function Next(data: seq<Byte>, pos: nat): nat
  {
    if pos < |data| then pos + 1 else pos
  }

  /** The C# cast `(byte)` applied to a `ReadByte` result: -1 becomes 255. */
  function AsByte(b: int): Byte
    requires -1 <= b < 0x100
  {
    if b < 0 then 0xFF else b
  }

  /** 128 to the power `k`, the weight of the `k`-th Variable Byte Integer group. */
  function Pow128(k: nat): (r: nat)
    ensures r >= 1
  {
    if k == 0 then 1 else 128 * Pow128(k - 1)
  }

  /** The C# cast `(uint)` of an `int`: two's complement, so -1 becomes 0xFFFF_FFFF. */
  function Int32ToUInt32(x: Int32): (u: UInt32)
    ensures x >= 0 ==> u == x
  {
    if x < 0 then x + 0x1_0000_0000 else x
  }

  /** The C# cast `(int)` of a `uint`: two's complement, the inverse of `Int32ToUInt32`. */
  function UInt32ToInt32(u: UInt32): (x: Int32)
    ensures Int32ToUInt32(x) == u
  {
    if u >= 0x8000_0000 then u - 0x1_0000_0000 else u
  }

  lemma Int32RoundTrip(x: Int32)
    ensures UInt32ToInt32(Int32ToUInt32(x)) == x
  {
  }
}
