/**
 * src/proxy.rs: what one upgraded WebSocket connection does before and after
 * the relay: who the client is, which target it asked for, what is logged,
 * and the PROXY header sent ahead of the relayed bytes.
 */
module Proxy {
  import opened Wrappers
  import opened Bytes
  import opened Numerals
  import opened Text
  import opened Net
  import opened Utils
  import opened Config
  import Log

  /**
   * The request headers by lower-case name (HeaderMap looks names up without
   * regard to case); a name maps to the first value sent under it.
   */
  type Headers = map<string, string>

  /** `HeaderValue::to_str` succeeds only on visible ASCII and horizontal tab. */
  predicate VisibleAscii(v: string)
  {
    forall i :: 0 <= i < |v| ==> v[i] == '\t' || ' ' <= v[i] <= '~'
  }

  /** `headers.get(name)` followed by `to_str().ok()`: present and readable as text. */
  function HeaderText(h: Headers, name: string): Option<string>
  {
    if name in h && VisibleAscii(h[name]) then Some(h[name]) else None
  }

  /** A header's text, or the default when it is missing or unreadable (`unwrap_or`). */
  function HeaderOr(h: Headers, name: string, default: string): string
  {
    match HeaderText(h, name)
    case Some(v) => v
    case None => default
  }

  /** The first piece of `split(',')`; `next()` always finds one. */
  function FirstSegment(v: string): string
  {
    Split(v, ',')[0]
  }

  const ForwardedFor := "x-forwarded-for"
  const RealIp := "x-real-ip"
  const RemoteHost := "remote_host"
  const Loopback := "127.0.0.1"

  /** None of the three client-identity headers is present and readable. */
  predicate NoIdentityHeader(h: Headers)
  {
    HeaderText(h, ForwardedFor).None? && HeaderText(h, RealIp).None? && HeaderText(h, RemoteHost).None?
  }

  /**
   * `get_client_ip`: the first entry of X-Forwarded-For, else X-Real-IP, else
   * remote_host, each trimmed; else the peer's IP without its port; else the
   * loopback address. Whatever the source, no whitespace surrounds the result.
   */
  function GetClientIp(h: Headers, remote: Option<SocketAddr>): (ip: string)
    ensures Trimmed(ip)
  {
    match HeaderText(h, ForwardedFor)
    case Some(xff) => Trim(FirstSegment(xff))
    case None =>
      match HeaderText(h, RealIp)
      case Some(xri) => Trim(xri)
      case None =>
        match HeaderText(h, RemoteHost)
        case Some(rh) => Trim(rh)
        case None =>
          match remote
          case Some(r) => IpTextTrimmed(r.ip); IpToString(r.ip)
          case None => Loopback
  }

  lemma IpTextTrimmed(ip: IpAddr)
    ensures Trimmed(IpToString(ip))
  {
    IpToStringChars(ip);
  }

  /**
   * A readable X-Forwarded-For decides the client IP alone: the whitespace-trimmed
   * text before its first comma, whatever the other headers and the peer are.
   */
  lemma ForwardedForWins(h: Headers, remote: Option<SocketAddr>, h': Headers, remote': Option<SocketAddr>,
                         pre: string, entry: string, post: string, rest: string)
    requires HeaderText(h, ForwardedFor) == Some(pre + entry + post + rest)
    requires HeaderText(h', ForwardedFor) == HeaderText(h, ForwardedFor)
    requires AllWhitespace(pre) && Trimmed(entry) && AllWhitespace(post)
    requires ',' !in pre + entry + post && (rest == [] || rest[0] == ',')
    ensures GetClientIp(h, remote) == entry
    ensures GetClientIp(h', remote') == entry
  {
    var x := pre + entry + post;
    FirstSegmentOf(x, rest);
    TrimUnique(pre, entry, post);
  }

  /** The first piece of `x + rest` is `x` when `x` has no comma and `rest` is empty or starts with one. */
  lemma FirstSegmentOf(x: string, rest: string)
    requires ',' !in x && (rest == [] || rest[0] == ',')
    ensures FirstSegment(x + rest) == x
  {
    var s := x + rest;
    forall j | 0 <= j < |x| ensures s[j] != ',' { assert s[j] == x[j]; }
    if rest == [] {
      assert s == x;
      SplitAbsent(x, ',');
    } else {
      IndexOfFirst(s, ',', |x|);
      assert s[..|x|] == x;
    }
  }

  /** A blank first entry is not skipped: the client IP is then empty. */
  lemma BlankForwardedForGivesEmptyIp(remote: Option<SocketAddr>)
    ensures GetClientIp(map[ForwardedFor := " , 9.9.9.9"], remote) == ""
  {
    var h := map[ForwardedFor := " , 9.9.9.9"];
    var v := " , 9.9.9.9";
    assert VisibleAscii(v) by {
      forall i | 0 <= i < |v| ensures v[i] == '\t' || ' ' <= v[i] <= '~' {
      }
    }
    assert " " + "" + "" + ", 9.9.9.9" == v;
    ForwardedForWins(h, remote, h, remote, " ", "", "", ", 9.9.9.9");
  }

  /**
   * Without a readable X-Forwarded-For, a readable X-Real-IP decides alone,
   * trimmed, whatever remote_host and the peer are.
   */
  lemma RealIpSecond(h: Headers, remote: Option<SocketAddr>, pre: string, ip: string, post: string)
    requires HeaderText(h, ForwardedFor).None?
    requires HeaderText(h, RealIp) == Some(pre + ip + post)
    requires AllWhitespace(pre) && Trimmed(ip) && AllWhitespace(post)
    ensures GetClientIp(h, remote) == ip
  {
    TrimUnique(pre, ip, post);
  }

  /** Without either forwarding header, a readable remote_host decides, trimmed. */
  lemma RemoteHostThird(h: Headers, remote: Option<SocketAddr>, pre: string, ip: string, post: string)
    requires HeaderText(h, ForwardedFor).None? && HeaderText(h, RealIp).None?
    requires HeaderText(h, RemoteHost) == Some(pre + ip + post)
    requires AllWhitespace(pre) && Trimmed(ip) && AllWhitespace(post)
    ensures GetClientIp(h, remote) == ip
  {
    TrimUnique(pre, ip, post);
  }

  /**
   * With no identity header the client IP is the peer's address without its
   * port, and parses back to that address; with no peer either, 127.0.0.1.
   */
  lemma PeerOrLoopback(h: Headers, remote: Option<SocketAddr>)
    requires NoIdentityHeader(h)
    ensures remote.Some? ==> ParseIp(GetClientIp(h, remote)) == Some(remote.value.ip)
    ensures remote.None? ==> GetClientIp(h, remote) == "127.0.0.1"
  {
    if remote.Some? {
      ParseIpShow(remote.value.ip);
    }
  }

  // ---------------------------------------------------------------------
  // Target selection (src/proxy.rs:36-41)

  /** No target can be found: the configured key is missing, or there is no key and no parameter. */
  predicate NoTarget(frkey: Option<string>, query: map<string, string>)
  {
    match frkey
    case Some(k) => k !in query
    case None => query == map[]
  }

  /**
   * The targets the source may pick: with a key, the value under it; without
   * one, the value of whichever entry the map's iteration yields first, which
   * is unspecified.
   */
  ghost predicate IsTargetChoice(frkey: Option<string>, query: map<string, string>, target: Option<string>)
  {
    match frkey
    case Some(k) => target == (if k in query then Some(query[k]) else None)
    case None => if query == map[] then target == None else target.Some? && target.value in query.Values
  }

  method SelectTarget(frkey: Option<string>, query: map<string, string>) returns (target: Option<string>)
    ensures target.None? <==> NoTarget(frkey, query)
    ensures frkey.Some? && target.Some? ==> target.value == query[frkey.value]
    ensures frkey.None? && target.Some? ==> exists k :: k in query && query[k] == target.value
    ensures IsTargetChoice(frkey, query, target)
  {
    match frkey
    case Some(k) =>
      target := if k in query then Some(query[k]) else None;
    case None =>
      if query == map[] {
        target := None;
      } else {
        var k :| k in query;
        target := Some(query[k]);
      }
  }

  /** With a key the choice is determined: the other parameters and their order do not matter. */
  lemma KeyedTargetIsUnique(k: string, query: map<string, string>, t: Option<string>, t': Option<string>)
    requires IsTargetChoice(Some(k), query, t) && IsTargetChoice(Some(k), query, t')
    ensures t == t'
  {
  }

  /** Without a key, any two different parameter values are both possible targets. */
  lemma UnkeyedTargetIsAmbiguous(query: map<string, string>, k1: string, k2: string)
    requires k1 in query && k2 in query
    ensures IsTargetChoice(None, query, Some(query[k1]))
    ensures IsTargetChoice(None, query, Some(query[k2]))
  {
  }

  // ---------------------------------------------------------------------
  // Source-port defaults and the log's source text

  /** The source port the log shows: the peer's, or 0 without a peer (src/proxy.rs:70). */
  function LogSourcePort(remote: Option<SocketAddr>): (p: u16)
    ensures remote.Some? ==> p == remote.value.port
    ensures remote.None? ==> p == 0
  {
    match remote
    case Some(r) => r.port
    case None => 0
  }

  /** The source port the PROXY header carries: the peer's, or 12345 without a peer (src/proxy.rs:146). */
  function HeaderSourcePort(remote: Option<SocketAddr>): (p: u16)
    ensures remote.Some? ==> p == remote.value.port
    ensures remote.None? ==> p == 12345
  {
    match remote
    case Some(r) => r.port
    case None => 12345
  }

  /** `format!("{}:{}", client_ip, src_port)`. */
  function SrcText(clientIp: string, remote: Option<SocketAddr>): string
  {
    clientIp + ":" + Show(LogSourcePort(remote), 10)
  }

  /**
   * The log's source text splits at its last colon into the client IP and a
   * numeral that reads back as the source port, even when the IP has colons.
   */
  lemma SrcTextSplits(clientIp: string, remote: Option<SocketAddr>)
    ensures var s := SrcText(clientIp, remote);
      && |s| > |clientIp|
      && s[..|clientIp|] == clientIp && s[|clientIp|] == ':'
      && ':' !in s[|clientIp| + 1..]
      && ParsePort(s[|clientIp| + 1..]) == Some(LogSourcePort(remote))
  {
    var s := SrcText(clientIp, remote);
    var n := Show(LogSourcePort(remote), 10);
    assert s[|clientIp| + 1..] == n;
    ValueShow(LogSourcePort(remote), 10);
  }

  // ---------------------------------------------------------------------
  // The PROXY header written ahead of the relay (src/proxy.rs:144-148)

  /**
   * The bytes written to the TCP side before any relayed byte: none without
   * the flag, otherwise the 52-byte PROXY v2 header, which fails exactly when
   * the target or the client IP does not parse (the target is checked first).
   */
  function ProxyPrelude(args: Args, clientIp: string, remote: Option<SocketAddr>, target: string): (r: Result<seq<byte>, BuildError>)
    ensures r.Err? <==> args.haproxyProtocol && (ParseSocketAddr(target).None? || ParseIp(clientIp).None?)
    ensures r.Err? ==> r.error == (if ParseSocketAddr(target).None? then InvalidDest else InvalidSource)
    ensures r.Ok? ==> |r.value| == (if args.haproxyProtocol then 52 else 0)
  {
    ProxyV2Outcome(clientIp, HeaderSourcePort(remote), target);
    if args.haproxyProtocol then ProxyV2(clientIp, HeaderSourcePort(remote), target) else Ok([])
  }

  /** Without the flag nothing precedes the relayed bytes. */
  lemma PreludeDisabled(args: Args, clientIp: string, remote: Option<SocketAddr>, target: string)
    requires !args.haproxyProtocol
    ensures ProxyPrelude(args, clientIp, remote, target) == Ok([])
  {
  }

  /**
   * With the flag, no identity header and a peer, a receiver reads from the
   * header the peer's address and port and the target's address and port.
   */
  lemma PreludeCarriesPeer(args: Args, h: Headers, peer: SocketAddr, target: string)
    requires args.haproxyProtocol && NoIdentityHeader(h)
    requires ParseSocketAddr(target).Some?
    ensures var r := ProxyPrelude(args, GetClientIp(h, Some(peer)), Some(peer), target);
      var d := ParseSocketAddr(target).value;
      && r.Ok?
      && ReadHeader(r.value) == Some(Addresses(V6Octets(peer.ip), V6Octets(d.ip), peer.port, d.port))
  {
    PeerOrLoopback(h, Some(peer));
    PreludeReads(args, GetClientIp(h, Some(peer)), Some(peer), target);
  }

  /** With the flag and parsable addresses, the receiver reads the client IP, the header source port and the target. */
  lemma PreludeReads(args: Args, clientIp: string, remote: Option<SocketAddr>, target: string)
    requires args.haproxyProtocol
    requires ParseIp(clientIp).Some? && ParseSocketAddr(target).Some?
    ensures var r := ProxyPrelude(args, clientIp, remote, target);
      var d := ParseSocketAddr(target).value;
      && r.Ok?
      && ReadHeader(r.value)
         == Some(Addresses(V6Octets(ParseIp(clientIp).value), V6Octets(d.ip), HeaderSourcePort(remote), d.port))
  {
    ProxyV2Outcome(clientIp, HeaderSourcePort(remote), target);
    ReadHeaderRoundTrip(ParseIp(clientIp).value, HeaderSourcePort(remote), ParseSocketAddr(target).value);
  }

  /** With the flag and neither identity header nor peer, the header claims ::ffff:127.0.0.1 port 12345. */
  lemma PreludeWithoutPeer(args: Args, h: Headers, target: string)
    requires args.haproxyProtocol && NoIdentityHeader(h)
    requires ParseSocketAddr(target).Some?
    ensures var r := ProxyPrelude(args, GetClientIp(h, None), None, target);
      var d := ParseSocketAddr(target).value;
      && r.Ok?
      && ReadHeader(r.value) == Some(Addresses(ToIpv6Mapped(127, 0, 0, 1), V6Octets(d.ip), 12345, d.port))
  {
    LoopbackText();
    ParseIpShow(V4(127, 0, 0, 1));
    PreludeReads(args, Loopback, None, target);
  }

  lemma LoopbackText()
    ensures IpToString(V4(127, 0, 0, 1)) == Loopback
  {
    assert Show(1, 10) == "1";
    assert Show(0, 10) == "0";
    assert Show(127, 10) == "127" by {
      assert Show(12, 10) == "12" by { assert Show(1, 10) == "1"; }
    }
  }

  /**
   * The header trusts X-Forwarded-For: when its first entry is an IP literal,
   * that address, not the peer's, is what the receiver reads as the source.
   */
  lemma PreludeTrustsForwardedFor(args: Args, h: Headers, remote: Option<SocketAddr>, target: string,
                                  entry: string, rest: string)
    requires args.haproxyProtocol
    requires HeaderText(h, ForwardedFor) == Some(entry + rest)
    requires ',' !in entry && Trimmed(entry) && (rest == [] || rest[0] == ',')
    requires ParseIp(entry).Some? && ParseSocketAddr(target).Some?
    ensures var r := ProxyPrelude(args, GetClientIp(h, remote), remote, target);
      && r.Ok?
      && ReadHeader(r.value).Some?
      && ReadHeader(r.value).value.src == V6Octets(ParseIp(entry).value)
  {
    assert [] + entry + [] + rest == entry + rest;
    ForwardedForWins(h, remote, h, remote, [], entry, [], rest);
    PreludeReads(args, entry, remote, target);
  }

  // ---------------------------------------------------------------------
  // One upgraded connection (src/proxy.rs:30-88)

  /** What the upgrade handler receives. */
  datatype Request = Request(
    remote: Option<SocketAddr>,
    headers: Headers,
    verb: string,
    path: string,
    query: map<string, string>)

  /**
   * How the upstream side of `handle_ws` goes, which the model does not
   * compute: the dial (connect or time out), then the write of the PROXY
   * header (only attempted with the flag and a header that was built), then
   * the two pumps, whose first error `try_join!` reports.
   */
  datatype Upstream =
    | Unreachable(message: string)
    | Reachable(writeError: Option<string>, pumpError: Option<string>)

  /** The observable steps of one connection, in order. */
  datatype Effect =
    | Dial(target: string, timeoutSecs: nat)
    | SendPrelude(bytes: seq<byte>)     // the attempted write of the PROXY header
    | Pump
    | Stderr(text: string)
    | LogLine(line: string)

  const MissingTargetText := "[!] 缺少目标地址查询参数"

  function ErrorText(message: string): string
  {
    "[!] 错误: " + message
  }

  /** How the address parsers' errors print. */
  function BuildErrorText(e: BuildError): string
  {
    match e
    case InvalidDest => "invalid socket address syntax"
    case InvalidSource => "invalid IP address syntax"
  }

  function LogCount(effects: seq<Effect>): nat
  {
    if effects == [] then 0 else (if effects[0].LogLine? then 1 else 0) + LogCount(effects[1..])
  }

  /** A log line is printed only as the last step. */
  lemma LogCountLast(effects: seq<Effect>)
    requires effects != [] && effects[|effects| - 1].LogLine?
    requires forall i :: 0 <= i < |effects| - 1 ==> !effects[i].LogLine?
    ensures LogCount(effects) == 1
  {
    if |effects| > 1 {
      var t := effects[1..];
      assert t[|t| - 1] == effects[|effects| - 1];
      forall i | 0 <= i < |t| - 1 ensures !t[i].LogLine? { assert t[i] == effects[i + 1]; }
      LogCountLast(t);
    } else {
      assert effects[1..] == [];
    }
  }

  lemma LogCountFramed(first: Effect, middle: seq<Effect>, line: string)
    requires !first.LogLine? && forall e | e in middle :: !e.LogLine?
    ensures LogCount([first] + middle + [LogLine(line)]) == 1
  {
    var effects := [first] + middle + [LogLine(line)];
    forall i | 0 <= i < |effects| - 1 ensures !effects[i].LogLine? {
      if i > 0 { assert effects[i] == middle[i - 1]; }
    }
    LogCountLast(effects);
  }

  /**
   * The fields log_connection is called with after a relay to `target`: the
   * status is always 200 and the client IP doubles as forwarded-for.
   */
  function SessionLogFields(req: Request, target: string, now: string, elapsedMicros: nat): seq<string>
  {
    var clientIp := GetClientIp(req.headers, req.remote);
    Log.LogFields(
      now, elapsedMicros, clientIp, SrcText(clientIp, req.remote), target, req.verb, req.path,
      200, HeaderOr(req.headers, "referer", "-"), clientIp,
      HeaderOr(req.headers, "user-agent", "-"), HeaderText(req.headers, "user-id"))
  }

  function SessionLogLine(req: Request, target: string, now: string, elapsedMicros: nat): string
  {
    Join(SessionLogFields(req, target, now, elapsedMicros), ' ')
  }

  /**
   * What a session's log record says: the client IP in the fourth field and,
   * quoted, in the forwarded-for field; the path from `ip:port` to the target;
   * the status 200 whatever happened; `-` for a missing referer or user agent
   * (a missing user agent prints as `"-"`, a missing referer too).
   */
  lemma SessionLogRecord(req: Request, target: string, now: string, elapsedMicros: nat)
    ensures var f := SessionLogFields(req, target, now, elapsedMicros);
      var ip := GetClientIp(req.headers, req.remote);
      && |f| == 11
      && f[3] == ip
      && f[4] == "\"网络路径:" + ip + ":" + Show(LogSourcePort(req.remote), 10) + "->" + target + "\""
      && f[6] == "200"
      && (HeaderText(req.headers, "referer").None? ==> f[7] == "\"-\"")
      && (HeaderText(req.headers, "user-agent").None? ==> f[9] == "\"-\"")
      && f[8] == "\"" + (if ip == [] then "-" else ip) + "\""
      && Log.ReadUserIdField(f[10]) == HeaderText(req.headers, "user-id")
  {
    RecordFields(now, elapsedMicros, GetClientIp(req.headers, req.remote), req.remote, target, req.verb, req.path,
                 HeaderOr(req.headers, "referer", "-"), HeaderOr(req.headers, "user-agent", "-"),
                 HeaderText(req.headers, "user-id"));
  }

  /** SessionLogRecord for any client IP and header texts. */
  lemma RecordFields(now: string, elapsedMicros: nat, ip: string, remote: Option<SocketAddr>, target: string,
                     verb: string, path: string, referer: string, userAgent: string, userId: Option<string>)
    ensures var f := Log.LogFields(now, elapsedMicros, ip, SrcText(ip, remote), target, verb, path,
                                   200, referer, ip, userAgent, userId);
      && |f| == 11
      && f[3] == ip
      && f[4] == "\"网络路径:" + ip + ":" + Show(LogSourcePort(remote), 10) + "->" + target + "\""
      && f[6] == "200"
      && (referer == "-" ==> f[7] == "\"-\"")
      && (userAgent == "-" ==> f[9] == "\"-\"")
      && f[8] == "\"" + (if ip == [] then "-" else ip) + "\""
      && Log.ReadUserIdField(f[10]) == userId
  {
    PathField(ip, remote, target);
    StatusText();
    assert Log.EscapeQuotes("-") == "-";
    Log.UserIdFieldRoundTrip(userId);
  }

  lemma PathField(ip: string, remote: Option<SocketAddr>, target: string)
    ensures Log.Quoted("网络路径:" + Log.NetPath(SrcText(ip, remote), target))
         == "\"网络路径:" + ip + ":" + Show(LogSourcePort(remote), 10) + "->" + target + "\""
  {
  }

  lemma StatusText()
    ensures Show(200, 10) == "200"
  {
    assert Show(2, 10) == "2";
    assert Show(20, 10) == "20";
  }

  /** The steps between the dial and the log, given how the upstream side went. */
  predicate UpstreamSteps(args: Args, clientIp: string, remote: Option<SocketAddr>, target: string,
                          upstream: Upstream, middle: seq<Effect>)
  {
    var prelude := ProxyPrelude(args, clientIp, remote, target);
    && (upstream.Unreachable? ==> middle == [Stderr(ErrorText(upstream.message))])
    && (upstream.Reachable? && prelude.Err? ==> middle == [Stderr(ErrorText(BuildErrorText(prelude.error)))])
    && (upstream.Reachable? && prelude.Ok? && args.haproxyProtocol && upstream.writeError.Some? ==>
          middle == [SendPrelude(prelude.value), Stderr(ErrorText(upstream.writeError.value))])
    && (upstream.Reachable? && prelude.Ok? && !(args.haproxyProtocol && upstream.writeError.Some?) ==>
          middle == (if args.haproxyProtocol then [SendPrelude(prelude.value)] else [])
                    + [Pump]
                    + (if upstream.pumpError.Some? then [Stderr(ErrorText(upstream.pumpError.value))] else []))
  }

  /**
   * The pumps start exactly when the dial succeeded, the header (if any) was
   * built and its write did not fail; with the flag the header goes first.
   */
  lemma PumpsFollowTheHeader(args: Args, clientIp: string, remote: Option<SocketAddr>, target: string,
                             upstream: Upstream, middle: seq<Effect>)
    requires UpstreamSteps(args, clientIp, remote, target, upstream, middle)
    ensures var prelude := ProxyPrelude(args, clientIp, remote, target);
      Pump in middle <==> upstream.Reachable? && prelude.Ok? && !(args.haproxyProtocol && upstream.writeError.Some?)
    ensures var prelude := ProxyPrelude(args, clientIp, remote, target);
      Pump in middle && args.haproxyProtocol ==> |middle| >= 2 && middle[0] == SendPrelude(prelude.value) && middle[1] == Pump
  {
  }

  /**
   * `handle_ws` as seen from the handler, between the dial and the log:
   * the dial's error; or the header's build error; or the header and its
   * write error; or the header when enabled, the relay and the relay's error
   * if any. It never logs.
   */
  method HandleUpstream(args: Args, clientIp: string, remote: Option<SocketAddr>, target: string, upstream: Upstream)
    returns (middle: seq<Effect>)
    ensures forall e | e in middle :: !e.LogLine?
    ensures UpstreamSteps(args, clientIp, remote, target, upstream, middle)
  {
    match upstream {
      case Unreachable(message) =>
        middle := [Stderr(ErrorText(message))];
      case Reachable(writeError, pumpError) =>
        var prelude := ProxyPrelude(args, clientIp, remote, target);
        if prelude.Err? {
          middle := [Stderr(ErrorText(BuildErrorText(prelude.error)))];
        } else if args.haproxyProtocol && writeError.Some? {
          middle := [SendPrelude(prelude.value), Stderr(ErrorText(writeError.value))];
        } else {
          var sent := if args.haproxyProtocol then [SendPrelude(prelude.value)] else [];
          var failed := if pumpError.Some? then [Stderr(ErrorText(pumpError.value))] else [];
          middle := sent + [Pump] + failed;
        }
    }
  }

  /**
   * The upgrade handler: resolve the client and the target; with no target,
   * report it and stop. Otherwise dial; once connected, send the PROXY header
   * when enabled and relay; report the first error of those steps; and log
   * exactly once, last, whatever happened.
   */
  method Session(args: Args, req: Request, upstream: Upstream, now: string, elapsedMicros: nat)
    returns (effects: seq<Effect>)
    ensures NoTarget(args.frkey, req.query) <==> effects == [Stderr(MissingTargetText)]
    ensures LogCount(effects) == (if NoTarget(args.frkey, req.query) then 0 else 1)
    ensures !NoTarget(args.frkey, req.query) ==>
      && effects != [] && effects[0].Dial?
      && IsTargetChoice(args.frkey, req.query, Some(effects[0].target))
      && ConnectionTrace(args, req, effects[0].target, upstream, now, elapsedMicros, effects)
  {
    var target := SelectTarget(args.frkey, req.query);
    if target.None? {
      effects := [Stderr(MissingTargetText)];
      assert effects[1..] == [];
      return;
    }
    effects := Connection(args, req, target.value, upstream, now, elapsedMicros);
  }

  /**
   * A connection to `target`: the dial with the configured timeout, the
   * upstream steps, then the session's log line, the only one and the last.
   */
  predicate ConnectionTrace(args: Args, req: Request, target: string, upstream: Upstream, now: string,
                            elapsedMicros: nat, effects: seq<Effect>)
  {
    && |effects| >= 3 && LogCount(effects) == 1
    && effects[0] == Dial(target, args.timeout)
    && UpstreamSteps(args, GetClientIp(req.headers, req.remote), req.remote, target, upstream,
                     effects[1..|effects| - 1])
    && effects[|effects| - 1] == LogLine(SessionLogLine(req, target, now, elapsedMicros))
  }

  /** The handler once a target is found: dial, the upstream steps, then the one log line. */
  method Connection(args: Args, req: Request, target: string, upstream: Upstream, now: string, elapsedMicros: nat)
    returns (effects: seq<Effect>)
    ensures ConnectionTrace(args, req, target, upstream, now, elapsedMicros, effects)
  {
    var clientIp := GetClientIp(req.headers, req.remote);
    var middle := HandleUpstream(args, clientIp, req.remote, target, upstream);
    var line := SessionLogLine(req, target, now, elapsedMicros);
    effects := [Dial(target, args.timeout)] + middle + [LogLine(line)];
    assert effects[1..|effects| - 1] == middle;
    LogCountFramed(Dial(target, args.timeout), middle, line);
  }
}
