/**
 * The slice of std::net the core relies on: IPv4/IPv6 addresses, socket
 * addresses, their textual forms and the IPv4-mapped IPv6 embedding
 * (section 2.5.5.2 of RFC 4291). The parsers accept a simplified form of
 * std's grammar; the printers write the forms the parsers read back.
 */
module Net {
  import opened Wrappers
  import opened Bytes
  import opened Numerals
  import opened Text

  type Octets16 = s: seq<byte> | |s| == 16 witness [0, 0, 0, 0, 0, 0, 0, 0, 0, 0, 0, 0, 0, 0, 0, 0]

  /** std::net::IpAddr: four octets, or sixteen in network order. */
  datatype IpAddr = V4(a: byte, b: byte, c: byte, d: byte) | V6(octets: Octets16)

  /** std::net::SocketAddr (an IPv6 flow label and scope id are not modelled). */
  datatype SocketAddr = SocketAddr(ip: IpAddr, port: u16)

  /** The twelve bytes that prefix an IPv4-mapped IPv6 address. */
  const MappedPrefix: seq<byte> := [0, 0, 0, 0, 0, 0, 0, 0, 0, 0, 0xff, 0xff]

  /** `Ipv4Addr::to_ipv6_mapped`: a.b.c.d becomes ::ffff:a.b.c.d. */
  function ToIpv6Mapped(a: byte, b: byte, c: byte, d: byte): Octets16
  {
    MappedPrefix + [a, b, c, d]
  }

  /** `Ipv6Addr::to_ipv4_mapped`: the IPv4 address inside ::ffff:a.b.c.d, if the octets have that form. */
  function ToIpv4Mapped(o: Octets16): Option<IpAddr>
  {
    if o[..12] == MappedPrefix then Some(V4(o[12], o[13], o[14], o[15])) else None
  }

  /** The address normalised to IPv6, as the header encoder does before writing it. */
  function V6Octets(ip: IpAddr): Octets16
  {
    match ip
    case V4(a, b, c, d) => ToIpv6Mapped(a, b, c, d)
    case V6(o) => o
  }

  /**
   * Normalisation keeps IPv6 octets as they are and maps IPv4 to the canonical
   * ::ffff:a.b.c.d, from which the IPv4 address is recovered.
   */
  lemma V6OctetsSpec(ip: IpAddr)
    ensures ip.V6? ==> V6Octets(ip) == ip.octets
    ensures ip.V4? ==> V6Octets(ip)[..12] == MappedPrefix && ToIpv4Mapped(V6Octets(ip)) == Some(ip)
  {
    if ip.V4? {
      assert V6Octets(ip)[..12] == MappedPrefix;
    }
  }

  /**
   * Two addresses normalise to the same octets exactly when they are equal or
   * one is an IPv4 address and the other its mapped IPv6 form.
   */
  lemma V6OctetsCollision(x: IpAddr, y: IpAddr)
    ensures V6Octets(x) == V6Octets(y) <==>
      (|| x == y
       || (x.V4? && y == V6(ToIpv6Mapped(x.a, x.b, x.c, x.d)))
       || (y.V4? && x == V6(ToIpv6Mapped(y.a, y.b, y.c, y.d))))
  {
    if V6Octets(x) == V6Octets(y) && x.V4? && y.V4? {
      V6OctetsSpec(x);
      V6OctetsSpec(y);
    }
  }

  // ---------------------------------------------------------------------
  // IPv6 segments and octets

  /** The eight 16-bit segments of an IPv6 address laid out as sixteen octets, high byte first. */
  function SegmentsToOctets(gs: seq<u16>): (o: Octets16)
    requires |gs| == 8
  {
    seq(16, i requires 0 <= i < 16 => if i % 2 == 0 then gs[i / 2] / 0x100 else gs[i / 2] % 0x100)
  }

  /** `Ipv6Addr::segments`. */
  function OctetsToSegments(o: Octets16): (gs: seq<u16>)
    ensures |gs| == 8
  {
    seq(8, k requires 0 <= k < 8 => (o[2 * k] as int) * 0x100 + o[2 * k + 1])
  }

  lemma SegmentsRoundTrip(o: Octets16, gs: seq<u16>)
    requires |gs| == 8
    ensures SegmentsToOctets(OctetsToSegments(o)) == o
    ensures OctetsToSegments(SegmentsToOctets(gs)) == gs
  {
    var o' := SegmentsToOctets(OctetsToSegments(o));
    forall i | 0 <= i < 16 ensures o'[i] == o[i] {
      var k := i / 2;
      if i % 2 == 0 {
        assert i == 2 * k;
      } else {
        assert i == 2 * k + 1;
      }
    }
  }

  // ---------------------------------------------------------------------
  // Parsing (simplified std::net grammar)

  /** An IPv4 octet: one to three decimal digits, no leading zero, at most 255. */
  function ParseOctet(s: string): Option<byte>
  {
    if 1 <= |s| <= 3 && AllDigits(s, 10) && !(|s| > 1 && s[0] == '0') && Value(s, 10) < 0x100
    then Some(Value(s, 10))
    else None
  }

  /** `Ipv4Addr::from_str`: four octets separated by dots. */
  function ParseIpv4(s: string): Option<IpAddr>
  {
    var parts := Split(s, '.');
    if |parts| != 4 then None
    else
      match (ParseOctet(parts[0]), ParseOctet(parts[1]), ParseOctet(parts[2]), ParseOctet(parts[3]))
      case (Some(a), Some(b), Some(c), Some(d)) => Some(V4(a, b, c, d))
      case _ => None
  }

  /** An IPv6 segment: one to four hexadecimal digits of either case, leading zeros allowed. */
  function ParseSegment(s: string): Option<u16>
  {
    if 1 <= |s| <= 4 && AllDigits(s, 16) then
      SegmentBound(s);
      Some(Value(s, 16))
    else None
  }

  lemma SegmentBound(s: string)
    requires 1 <= |s| <= 4 && AllDigits(s, 16)
    ensures Value(s, 16) < 0x1_0000
  {
    ValueBound(s, 16);
    assert Pow(16, |s|) <= 0x1_0000 by {
      assert Pow(16, 1) == 16;
      assert Pow(16, 2) == 0x100;
      assert Pow(16, 3) == 0x1000;
      assert Pow(16, 4) == 0x1_0000;
    }
  }

  function ParseSegmentList(parts: seq<string>): (r: Option<seq<u16>>)
    ensures r.Some? ==> |r.value| == |parts|
  {
    if parts == [] then Some([])
    else
      match (ParseSegment(parts[0]), ParseSegmentList(parts[1..]))
      case (Some(g), Some(gs)) => Some([g] + gs)
      case _ => None
  }

  /** Colon-separated segments on one side of `::`; the empty string holds none. */
  function ParseSegments(s: string): Option<seq<u16>>
  {
    if s == [] then Some([]) else ParseSegmentList(Split(s, ':'))
  }

  predicate DoubleColonAt(s: string, i: int)
  {
    0 <= i && i + 1 < |s| && s[i] == ':' && s[i + 1] == ':'
  }

  /** Position of the first `::`, or |s| when there is none. */
  function IndexOfDoubleColon(s: string): (i: nat)
    ensures i <= |s|
    ensures i < |s| ==> DoubleColonAt(s, i)
    ensures forall j :: 0 <= j < i ==> !DoubleColonAt(s, j)
  {
    if |s| < 2 then |s|
    else if s[0] == ':' && s[1] == ':' then 0
    else
      var i := 1 + IndexOfDoubleColon(s[1..]);
      assert forall j :: 1 <= j < i ==> DoubleColonAt(s, j) == DoubleColonAt(s[1..], j - 1);
      i
  }

  function Zeros(n: nat): (z: seq<u16>)
    ensures |z| == n && forall k :: 0 <= k < n ==> z[k] == 0
  {
    seq(n, _ => 0)
  }

  /**
   * `Ipv6Addr::from_str`: eight segments, or fewer with one `::` standing for
   * at least one zero segment.
   */
  function ParseIpv6(s: string): Option<IpAddr>
  {
    var i := IndexOfDoubleColon(s);
    if i == |s| then
      var parts := Split(s, ':');
      if |parts| != 8 then None
      else
        match ParseSegmentList(parts)
        case Some(gs) => Some(V6(SegmentsToOctets(gs)))
        case None => None
    else
      match (ParseSegments(s[..i]), ParseSegments(s[i + 2..]))
      case (Some(head), Some(tail)) =>
        if |head| + |tail| <= 7
        then Some(V6(SegmentsToOctets(head + Zeros(8 - |head| - |tail|) + tail)))
        else None
      case _ => None
  }

  /** `IpAddr::from_str`: IPv4 is tried first, then IPv6. */
  function ParseIp(s: string): Option<IpAddr>
  {
    match ParseIpv4(s)
    case Some(ip) => Some(ip)
    case None => ParseIpv6(s)
  }

  /** A port: decimal digits (leading zeros allowed) whose value fits a u16. */
  function ParsePort(s: string): Option<u16>
  {
    if |s| >= 1 && AllDigits(s, 10) && Value(s, 10) < 0x1_0000 then Some(Value(s, 10)) else None
  }

  /** `SocketAddr::from_str`: `a.b.c.d:port` or `[ipv6]:port`. */
  function ParseSocketAddr(s: string): Option<SocketAddr>
  {
    if |s| > 0 && s[0] == '[' then ParseBracketedAddr(s) else ParsePlainAddr(s)
  }

  /** `[ipv6]:port`: the address runs to the first `]`, which a colon must follow. */
  function ParseBracketedAddr(s: string): Option<SocketAddr>
    requires |s| > 0 && s[0] == '['
  {
    var close := IndexOf(s, ']');
    if close + 1 >= |s| || s[close + 1] != ':' then None
    else
      match (ParseIpv6(s[1..close]), ParsePort(s[close + 2..]))
      case (Some(ip), Some(port)) => Some(SocketAddr(ip, port))
      case _ => None
  }

  /** `a.b.c.d:port`: the address runs to the first colon. */
  function ParsePlainAddr(s: string): Option<SocketAddr>
  {
    var colon := IndexOf(s, ':');
    if colon == |s| then None
    else
      match (ParseIpv4(s[..colon]), ParsePort(s[colon + 1..]))
      case (Some(ip), Some(port)) => Some(SocketAddr(ip, port))
      case _ => None
  }

  // ---------------------------------------------------------------------
  // Printing

  /** `IpAddr::to_string`: dotted decimal; IPv6 as eight lower-case hex segments. */
  function IpToString(ip: IpAddr): string
  {
    match ip
    case V4(a, b, c, d) => Join([Show(a, 10), Show(b, 10), Show(c, 10), Show(d, 10)], '.')
    case V6(o) => Join(SegmentTexts(OctetsToSegments(o)), ':')
  }

  function SegmentTexts(gs: seq<u16>): (ts: seq<string>)
    ensures |ts| == |gs|
    ensures forall k :: 0 <= k < |gs| ==> ts[k] == Show(gs[k], 16)
  {
    seq(|gs|, k requires 0 <= k < |gs| => Show(gs[k], 16))
  }

  /** `SocketAddr::to_string`: `ip:port`, with the IPv6 address in brackets. */
  function SocketAddrToString(sa: SocketAddr): string
  {
    match sa.ip
    case V4(_, _, _, _) => IpToString(sa.ip) + ":" + Show(sa.port, 10)
    case V6(_) => "[" + IpToString(sa.ip) + "]:" + Show(sa.port, 10)
  }

  /** Address text is made of digits, dots and colons only: no whitespace, no brackets, no commas. */
  lemma IpToStringChars(ip: IpAddr)
    ensures forall i :: 0 <= i < |IpToString(ip)| ==> IsHexDigit(IpToString(ip)[i]) || IpToString(ip)[i] in ".:"
  {
    match ip
    case V4(a, b, c, d) =>
      JoinChars([Show(a, 10), Show(b, 10), Show(c, 10), Show(d, 10)], '.');
    case V6(o) =>
      JoinChars(SegmentTexts(OctetsToSegments(o)), ':');
  }

  predicate HexOrPunct(s: string)
  {
    forall i :: 0 <= i < |s| ==> IsHexDigit(s[i]) || s[i] in ".:"
  }

  lemma {:induction false} JoinChars(parts: seq<string>, sep: char)
    requires sep in ".:"
    requires forall k :: 0 <= k < |parts| ==> AllDigits(parts[k], 16)
    ensures HexOrPunct(Join(parts, sep))
  {
    if |parts| > 1 {
      JoinChars(parts[1..], sep);
      var j := Join(parts, sep);
      assert j == parts[0] + [sep] + Join(parts[1..], sep);
      forall i | 0 <= i < |j| ensures IsHexDigit(j[i]) || j[i] in ".:" {
        if i < |parts[0]| {
          assert j[i] == parts[0][i];
        } else if i > |parts[0]| {
          assert j[i] == Join(parts[1..], sep)[i - |parts[0]| - 1];
        }
      }
    } else if |parts| == 1 {
      assert Join(parts, sep) == parts[0];
    }
  }

  /** A character that none of the parts nor the separator contains is absent from their join. */
  lemma {:induction false} JoinAvoids(parts: seq<string>, sep: char, c: char)
    requires c != sep
    requires forall k :: 0 <= k < |parts| ==> c !in parts[k]
    ensures c !in Join(parts, sep)
  {
    if |parts| > 1 {
      JoinAvoids(parts[1..], sep, c);
    }
  }

  /** Joining non-empty, colon-free parts with ':' never produces `::`. */
  lemma {:induction false} JoinNoDoubleColon(parts: seq<string>)
    requires forall k :: 0 <= k < |parts| ==> parts[k] != [] && ':' !in parts[k]
    ensures IndexOfDoubleColon(Join(parts, ':')) == |Join(parts, ':')|
  {
    var s := Join(parts, ':');
    if |parts| > 1 {
      var p, rest := parts[0], Join(parts[1..], ':');
      JoinNoDoubleColon(parts[1..]);
      assert s == p + [':'] + rest;
      assert rest[0] == parts[1][0] by {
        if |parts| == 2 {
          assert rest == parts[1];
        } else {
          assert rest == parts[1] + [':'] + Join(parts[2..], ':');
        }
      }
      forall j | 0 <= j < |s| ensures !DoubleColonAt(s, j) {
        if j < |p| {
          assert s[j] == p[j];
        } else if j > |p| {
          assert DoubleColonAt(s, j) ==> DoubleColonAt(rest, j - |p| - 1);
        }
      }
    } else if |parts| == 1 {
      assert s == parts[0];
      assert forall j :: 0 <= j < |s| ==> s[j] != ':' by {
        forall j | 0 <= j < |s| ensures s[j] != ':' { assert s[j] in parts[0]; }
      }
    }
  }

  // ---------------------------------------------------------------------
  // Round trips: every printed address parses back to itself

  lemma ParseOctetShow(n: byte)
    ensures ParseOctet(Show(n, 10)) == Some(n)
  {
    ShowOctetLength(n);
    ValueShow(n, 10);
  }

  lemma ParseSegmentShow(g: u16)
    ensures ParseSegment(Show(g, 16)) == Some(g)
  {
    ShowSegmentLength(g);
    ValueShow(g, 16);
  }

  lemma {:induction false} ParseSegmentListShow(gs: seq<u16>)
    ensures ParseSegmentList(SegmentTexts(gs)) == Some(gs)
  {
    if gs != [] {
      ParseSegmentShow(gs[0]);
      assert SegmentTexts(gs)[0] == Show(gs[0], 16);
      assert SegmentTexts(gs)[1..] == SegmentTexts(gs[1..]);
      assert [gs[0]] + gs[1..] == gs;
      ParseSegmentListShow(gs[1..]);
    }
  }

  lemma ParseIpv4Show(a: byte, b: byte, c: byte, d: byte)
    ensures ParseIpv4(IpToString(V4(a, b, c, d))) == Some(V4(a, b, c, d))
  {
    var parts := [Show(a, 10), Show(b, 10), Show(c, 10), Show(d, 10)];
    SplitJoin(parts, '.');
    ParseOctetShow(a);
    ParseOctetShow(b);
    ParseOctetShow(c);
    ParseOctetShow(d);
  }

  lemma ParseIpv6Show(o: Octets16)
    ensures ParseIpv6(IpToString(V6(o))) == Some(V6(o))
  {
    var gs := OctetsToSegments(o);
    var parts := SegmentTexts(gs);
    JoinNoDoubleColon(parts);
    SplitJoin(parts, ':');
    ParseSegmentListShow(gs);
    SegmentsRoundTrip(o, gs);
  }

  /** `IpAddr::from_str` reads back what `to_string` writes. */
  lemma ParseIpShow(ip: IpAddr)
    ensures ParseIp(IpToString(ip)) == Some(ip)
  {
    match ip
    case V4(a, b, c, d) =>
      ParseIpv4Show(a, b, c, d);
    case V6(o) =>
      var parts := SegmentTexts(OctetsToSegments(o));
      JoinAvoids(parts, ':', '.');
      SplitAbsent(IpToString(ip), '.');
      ParseIpv6Show(o);
  }

  /** `SocketAddr::from_str` reads back what `to_string` writes. */
  lemma ParseSocketAddrShow(sa: SocketAddr)
    ensures ParseSocketAddr(SocketAddrToString(sa)) == Some(sa)
  {
    ValueShow(sa.port, 10);
    match sa.ip
    case V4(a, b, c, d) => ParseSocketAddrShowV4(a, b, c, d, sa.port);
    case V6(o) => ParseSocketAddrShowV6(o, sa.port);
  }

  lemma ParseSocketAddrShowV4(a: byte, b: byte, c: byte, d: byte, port: u16)
    requires ParsePort(Show(port, 10)) == Some(port)
    ensures ParseSocketAddr(SocketAddrToString(SocketAddr(V4(a, b, c, d), port))) == Some(SocketAddr(V4(a, b, c, d), port))
  {
    Ipv4TextAvoids(a, b, c, d);
    ParseIpv4Show(a, b, c, d);
    ParseUnbracketed(IpToString(V4(a, b, c, d)), Show(port, 10), V4(a, b, c, d), port);
  }

  /** `ip:port` with a colon-free IPv4 text parses to that address and port. */
  lemma ParseUnbracketed(t: string, p: string, ip: IpAddr, port: u16)
    requires |t| > 0 && t[0] != '[' && ':' !in t
    requires ParseIpv4(t) == Some(ip) && ParsePort(p) == Some(port)
    ensures ParseSocketAddr(t + ":" + p) == Some(SocketAddr(ip, port))
  {
    PlainShape(t, p);
  }

  lemma PlainShape(t: string, p: string)
    requires |t| > 0 && t[0] != '[' && ':' !in t
    ensures var s := t + ":" + p;
      && s[0] != '[' && IndexOf(s, ':') == |t| && s[..|t|] == t && s[|t| + 1..] == p
  {
    var s := t + ":" + p;
    assert s[0] == t[0];
    forall j | 0 <= j < |t| ensures s[j] != ':' { assert s[j] == t[j]; }
    IndexOfFirst(s, ':', |t|);
    assert s[..|t|] == t;
    assert s[|t| + 1..] == p;
  }

  /** `[ip]:port` with a bracket-free IPv6 text parses to that address and port. */
  lemma ParseBracketed(t: string, p: string, ip: IpAddr, port: u16)
    requires ']' !in t
    requires ParseIpv6(t) == Some(ip) && ParsePort(p) == Some(port)
    ensures ParseSocketAddr("[" + t + "]:" + p) == Some(SocketAddr(ip, port))
  {
    BracketedShape(t, p);
  }

  lemma BracketedShape(t: string, p: string)
    requires ']' !in t
    ensures var s := "[" + t + "]:" + p;
      && |s| == |t| + 3 + |p| && s[0] == '['
      && IndexOf(s, ']') == |t| + 1 && s[|t| + 2] == ':'
      && s[1..|t| + 1] == t && s[|t| + 3..] == p
  {
    var s := "[" + t + "]:" + p;
    forall j | 1 <= j < |t| + 1 ensures s[j] != ']' { assert s[j] == t[j - 1]; }
    IndexOfFirst(s, ']', |t| + 1);
    assert s[1..|t| + 1] == t;
    assert s[|t| + 3..] == p;
  }

  /** Dotted-decimal text is not empty, has no colon and does not open with a bracket. */
  lemma Ipv4TextAvoids(a: byte, b: byte, c: byte, d: byte)
    ensures var t := IpToString(V4(a, b, c, d));
      |t| > 0 && ':' !in t && t[0] != '['
  {
    var parts := [Show(a, 10), Show(b, 10), Show(c, 10), Show(d, 10)];
    forall k | 0 <= k < |parts| ensures ':' !in parts[k] {
      assert AllDigits(parts[k], 10);
      forall i | 0 <= i < |parts[k]| ensures parts[k][i] != ':' {
        assert IsDecDigit(parts[k][i]);
      }
    }
    JoinAvoids(parts, '.', ':');
    var t := Join(parts, '.');
    assert t == parts[0] + ['.'] + Join(parts[1..], '.');
    assert t[0] == parts[0][0];
    assert IsDecDigit(parts[0][0]);
  }

  lemma ParseSocketAddrShowV6(o: Octets16, port: u16)
    requires ParsePort(Show(port, 10)) == Some(port)
    ensures ParseSocketAddr(SocketAddrToString(SocketAddr(V6(o), port))) == Some(SocketAddr(V6(o), port))
  {
    Ipv6TextAvoids(o);
    ParseIpv6Show(o);
    ParseBracketed(IpToString(V6(o)), Show(port, 10), V6(o), port);
  }

  /** Colon-hex text has no closing bracket. */
  lemma Ipv6TextAvoids(o: Octets16)
    ensures ']' !in IpToString(V6(o))
  {
    IpToStringChars(V6(o));
  }
}
