/** Bytes as numbers below 256. */
module ByteTypes {

  type Byte = x: int | 0 <= x < 256
  type Bytes = seq<Byte>
}
