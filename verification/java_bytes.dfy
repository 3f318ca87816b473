/** Java's signed 8-bit `byte` and the conversions the program applies to it. */
module JavaBytes {

  /** A Java `byte`: a signed two's-complement value. */
  type JByte = b: int | -128 <= b < 128

  /** `x & 0xFF` on a Java `int`: the low eight bits, read as unsigned. */
  function LowByte(x: int): (r: int)
    ensures 0 <= r < 256
    ensures (x - r) % 256 == 0
  {
    x % 256
  }

  /** The narrowing cast `(byte) x`: keeps the low eight bits of `x` and reads them as signed. */
  function ToByte(x: int): (b: JByte)
    ensures (x - b) % 256 == 0
    ensures -128 <= x < 128 ==> b == x
  {
    var low := LowByte(x);
    if low < 128 then low else low - 256
  }

  /** `b & 0xff` on a byte: its bits read as an unsigned value (`byteToInt`). */
  function ByteToInt(b: JByte): (r: int)
    ensures 0 <= r < 256
    ensures (r - b) % 256 == 0
    ensures 0 <= b ==> r == b
  {
    if b < 0 then b + 256 else b
  }

  /** Casting back to `byte` undoes `byteToInt`. */
  lemma ByteToIntRoundTrip(b: JByte)
    ensures ToByte(ByteToInt(b)) == b
  {
  }

  /** Masking with `0xFF` before a `(byte)` cast changes nothing: only the low eight bits survive either way. */
  lemma MaskThenCast(x: int)
    ensures ToByte(LowByte(x)) == ToByte(x)
    ensures ByteToInt(ToByte(x)) == LowByte(x)
  {
  }
}
