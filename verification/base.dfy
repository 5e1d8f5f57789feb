/** Values shared by the SPI engine, the nRF24 driver and the console formatter. */
module Base {

  /** An unsigned 8-bit value, C `uint8_t`. */
  type byte = x: int | 0 <= x < 256

  /** Conversion of an int to `uint8_t`: C keeps the low eight bits. */
  function ToByte(x: int): (b: byte)
    ensures 0 <= x < 256 ==> b == x
    ensures (x - b) % 256 == 0
  {
    x % 256
  }

  /** Concatenation is associative (a step the solver is slow to find by itself). */
  lemma Assoc<T>(a: seq<T>, b: seq<T>, c: seq<T>)
    ensures a + (b + c) == a + b + c
  {
  }

  /** A possibly absent value; `None` stands for a C NULL pointer. */
  datatype Option<+T> = None | Some(value: T)
}
