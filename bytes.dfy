/** Fixed-width unsigned integers of the wire format. */
module Bytes {

  /** Rust's u8. */
  type byte = b: int | 0 <= b < 0x100

  /** Rust's u16 (ports and IPv6 segments). */
  type u16 = n: int | 0 <= n < 0x1_0000

  /** The two bytes byteorder's `write_u16::<NetworkEndian>` appends: most significant first. */
  function BeU16(n: u16): (r: seq<byte>)
    ensures |r| == 2
    ensures FromBeU16(r[0], r[1]) == n
  {
    [n / 0x100, n % 0x100]
  }

  /** Reads a big-endian u16 back from its two bytes. */
  function FromBeU16(hi: byte, lo: byte): u16
  {
    hi * 0x100 + lo
  }

  /** Distinct values have distinct encodings. */
  lemma BeU16Injective(m: u16, n: u16)
    requires BeU16(m) == BeU16(n)
    ensures m == n
  {
    assert FromBeU16(BeU16(m)[0], BeU16(m)[1]) == m;
  }
}
