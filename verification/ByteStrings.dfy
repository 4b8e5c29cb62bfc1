/** Byte strings, as Kubernetes and the operator hold names, keys and secret values. */
module ByteStrings {
  newtype byte = b: int | 0 <= b < 256

  type Bytes = seq<byte>
}
