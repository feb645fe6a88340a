/** Bytes, and the JavaScript arrays that hold them, by value. */
module ByteTypes {
  type Byte = b: int | 0 <= b < 256
  type Bytes = seq<Byte>

  /** `bytes.slice(from, to)` for non-negative arguments: both ends are clamped to the length. */
  function Slice(bytes: Bytes, from: nat, to: nat): Bytes {
    var high := if to <= |bytes| then to else |bytes|;
    if from <= high then bytes[from..high] else []
  }
}
