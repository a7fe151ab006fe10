/** Bytes, and texts of bytes. */
module Bytes {
  type Byte = b: int | 0 <= b < 256
  type Text = seq<Byte>

  lemma Associative(a: Text, b: Text, c: Text)
    ensures (a + b) + c == a + (b + c) && [] + b == b
  {
  }
}
