/** The checksum and the authentication code of the wire formats, left uninterpreted. */
module Digests {
  import opened Bytes

  const TAG_LEN: nat := 32

  type U32 = n: nat | n < 0x1_0000_0000
  type Tag = t: seq<Byte> | |t| == TAG_LEN witness Zeros(TAG_LEN)

  /** CRC-32 (section 8 of RFC 1952): any function of the bytes. */
  type Crc = seq<Byte> -> U32

  /** HMAC-SHA256 (section 2 of RFC 2104): any function of key and message. */
  type Mac = (seq<Byte>, seq<Byte>) -> Tag
}
