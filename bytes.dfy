/** Raw bytes, as the mail server sends them. */
module ByteString {

  newtype byte = x: int | 0 <= x < 256
}
