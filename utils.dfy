/**
 * `build_proxy_v2`: the binary header of version 2 of the PROXY protocol
 * (section 2.2 of HAProxy's "PROXY protocol, Versions 1 & 2"), always with
 * command PROXY and family TCP over IPv6, IPv4 addresses being mapped first.
 */
module Utils {
  import opened Wrappers
  import opened Bytes
  import opened Net

  /** The twelve-byte signature `\r\n\r\n\0\r\nQUIT\n`. */
  const Signature: seq<byte> := [0x0D, 0x0A, 0x0D, 0x0A, 0x00, 0x0D, 0x0A, 0x51, 0x55, 0x49, 0x54, 0x0A]

  /** Version 2 in the high nibble, command PROXY in the low one. */
  const VersionCommand: byte := 0x21

  /** Family AF_INET6 in the high nibble, transport STREAM in the low one. */
  const FamilyTcp6: byte := 0x21

  /** Length of the address block: two IPv6 addresses and two ports. */
  const AddressBlockLength: u16 := 36

  /** Why no header was built: the destination is not a socket address, or the source not an IP. */
  datatype BuildError = InvalidDest | InvalidSource

  /** The header for addresses that have already been parsed. */
  function Header(src: IpAddr, srcPort: u16, dest: SocketAddr): seq<byte>
  {
    Signature + [VersionCommand, FamilyTcp6] + BeU16(AddressBlockLength)
    + V6Octets(src) + V6Octets(dest.ip)
    + BeU16(srcPort) + BeU16(dest.port)
  }

  /** What `build_proxy_v2` returns: the destination is parsed first, then the source. */
  function ProxyV2(srcIp: string, srcPort: u16, dest: string): Result<seq<byte>, BuildError>
  {
    match ParseSocketAddr(dest)
    case None => Err(InvalidDest)
    case Some(d) =>
      match ParseIp(srcIp)
      case None => Err(InvalidSource)
      case Some(s) => Ok(Header(s, srcPort, d))
  }

  /**
   * The encoder as the source writes it: a vector grown by `extend`, `push`
   * and `write_u16::<NetworkEndian>` (which cannot fail on a vector).
   */
  method BuildProxyV2(srcIp: string, srcPort: u16, dest: string) returns (r: Result<seq<byte>, BuildError>)
    ensures r == ProxyV2(srcIp, srcPort, dest)
  {
    var destAddr := ParseSocketAddr(dest);
    if destAddr.None? {
      return Err(InvalidDest);
    }
    var destIp, destPort := destAddr.value.ip, destAddr.value.port;
    var src := ParseIp(srcIp);
    if src.None? {
      return Err(InvalidSource);
    }
    var header: seq<byte> := [];
    header := header + Signature;
    header := header + [VersionCommand];
    var srcV6 := V6Octets(src.value);
    var destV6 := V6Octets(destIp);
    header := header + [FamilyTcp6];
    header := header + BeU16(AddressBlockLength);
    header := header + srcV6;
    header := header + destV6;
    header := header + BeU16(srcPort);
    header := header + BeU16(destPort);
    assert header == Header(src.value, srcPort, destAddr.value);
    return Ok(header);
  }

  /**
   * The layout: 52 bytes; the signature; 0x21 twice; 36 big-endian; the
   * source and destination addresses as IPv6; the two ports big-endian.
   */
  lemma HeaderLayout(src: IpAddr, srcPort: u16, dest: SocketAddr)
    ensures var h := Header(src, srcPort, dest);
      && |h| == 52
      && h[..12] == Signature
      && h[12] == 0x21 && h[13] == 0x21
      && h[14] == 0 && h[15] == 36
      && h[16..32] == V6Octets(src)
      && h[32..48] == V6Octets(dest.ip)
      && h[48] == srcPort / 0x100 && h[49] == srcPort % 0x100
      && h[50] == dest.port / 0x100 && h[51] == dest.port % 0x100
  {
    var h := Header(src, srcPort, dest);
    var s, d := V6Octets(src), V6Octets(dest.ip);
    assert h == Signature + [0x21, 0x21, 0, 36] + s + d + BeU16(srcPort) + BeU16(dest.port);
    assert h[16..32] == s;
    assert h[32..48] == d;
  }

  /** For an IPv4 source a.b.c.d, bytes 16-31 are ten zeros, 0xff 0xff, then a, b, c, d. */
  lemma Ipv4SourceBytes(a: byte, b: byte, c: byte, d: byte, srcPort: u16, dest: SocketAddr)
    ensures var h := Header(V4(a, b, c, d), srcPort, dest);
      && (forall i :: 16 <= i < 26 ==> h[i] == 0)
      && h[26] == 0xff && h[27] == 0xff
      && h[28] == a && h[29] == b && h[30] == c && h[31] == d
  {
    HeaderLayout(V4(a, b, c, d), srcPort, dest);
    var h := Header(V4(a, b, c, d), srcPort, dest);
    forall i | 16 <= i < 32 ensures h[i] == ToIpv6Mapped(a, b, c, d)[i - 16] {
      assert h[16..32][i - 16] == h[i];
    }
  }

  /** The header is built exactly when the destination parses as a socket address and the source as an IP. */
  lemma ProxyV2Outcome(srcIp: string, srcPort: u16, dest: string)
    ensures ParseSocketAddr(dest).None? ==> ProxyV2(srcIp, srcPort, dest) == Err(InvalidDest)
    ensures ParseSocketAddr(dest).Some? && ParseIp(srcIp).None? ==> ProxyV2(srcIp, srcPort, dest) == Err(InvalidSource)
    ensures ProxyV2(srcIp, srcPort, dest).Ok? <==> ParseSocketAddr(dest).Some? && ParseIp(srcIp).Some?
    ensures ProxyV2(srcIp, srcPort, dest).Ok? ==> |ProxyV2(srcIp, srcPort, dest).value| == 52
  {
    if ProxyV2(srcIp, srcPort, dest).Ok? {
      HeaderLayout(ParseIp(srcIp).value, srcPort, ParseSocketAddr(dest).value);
    }
  }

  /** A port changes only its own two bytes of the header. */
  lemma PortsTouchOnlyTheirBytes(src: IpAddr, p: u16, q: u16, dest: SocketAddr, port: u16)
    ensures forall i :: 0 <= i < 52 && i != 48 && i != 49 ==>
      Header(src, p, dest)[i] == Header(src, q, dest)[i]
    ensures forall i :: 0 <= i < 50 ==>
      Header(src, p, dest)[i] == Header(src, p, SocketAddr(dest.ip, port))[i]
  {
    var d2 := SocketAddr(dest.ip, port);
    var prefix := Signature + [VersionCommand, FamilyTcp6] + BeU16(AddressBlockLength) + V6Octets(src) + V6Octets(dest.ip);
    assert |prefix| == 48;
    assert Header(src, p, dest) == prefix + BeU16(p) + BeU16(dest.port);
    assert Header(src, q, dest) == prefix + BeU16(q) + BeU16(dest.port);
    assert Header(src, p, d2) == prefix + BeU16(p) + BeU16(port);
  }

  // ---------------------------------------------------------------------
  // The receiving side, as the partner of the encoder

  /** The addresses a PROXY v2 header carries for TCP over IPv6. */
  datatype Addresses = Addresses(src: Octets16, dst: Octets16, srcPort: u16, dstPort: u16)

  /**
   * How a receiver reads a version 2 PROXY header of family TCP over IPv6:
   * signature, version/command and family bytes, a length covering at least
   * the 36-byte address block, then addresses and ports.
   */
  function ReadHeader(h: seq<byte>): Option<Addresses>
  {
    if |h| < 16 || h[..12] != Signature || h[12] != VersionCommand || h[13] != FamilyTcp6 then None
    else
      var len := FromBeU16(h[14], h[15]);
      if len < AddressBlockLength || |h| < 16 + len then None
      else Some(Addresses(h[16..32], h[32..48], FromBeU16(h[48], h[49]), FromBeU16(h[50], h[51])))
  }

  /** A receiver reads back both addresses, normalised to IPv6, and both ports. */
  lemma ReadHeaderRoundTrip(src: IpAddr, srcPort: u16, dest: SocketAddr)
    ensures ReadHeader(Header(src, srcPort, dest))
         == Some(Addresses(V6Octets(src), V6Octets(dest.ip), srcPort, dest.port))
  {
    HeaderLayout(src, srcPort, dest);
    var h := Header(src, srcPort, dest);
    assert BeU16(srcPort) == [h[48], h[49]];
    assert BeU16(dest.port) == [h[50], h[51]];
  }

  /** An IPv4 source survives the IPv6 normalisation: the receiver recovers it exactly. */
  lemma Ipv4SourceRecovered(a: byte, b: byte, c: byte, d: byte, srcPort: u16, dest: SocketAddr)
    ensures var r := ReadHeader(Header(V4(a, b, c, d), srcPort, dest));
      r.Some? && ToIpv4Mapped(r.value.src) == Some(V4(a, b, c, d))
  {
    ReadHeaderRoundTrip(V4(a, b, c, d), srcPort, dest);
    V6OctetsSpec(V4(a, b, c, d));
  }
}
