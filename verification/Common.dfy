/** Types shared by the components of the model. */
module Common {

  datatype Option<+T> = None | Some(value: T)

  type Byte = b: int | 0 <= b < 256

  type Bytes = seq<Byte>

  /** SHA-256, taken symbolically: equal digests come from equal bytes. */
  datatype Digest = Sha256(bytes: Bytes)

  function Min(a: int, b: int): int { if a <= b then a else b }

  function Max(a: int, b: int): int { if a >= b then a else b }
}
