# WSProxy core in Dafny

WSProxy is a gateway that accepts WebSocket connections and relays their bytes
to a TCP target. The target is named in the query string. This project models
three parts of its core:

- **The PROXY protocol v2 header** (`build_proxy_v2`). The gateway can send
  this 52-byte header ahead of the relayed bytes. The header follows section
  2.2 of the HAProxy "PROXY protocol, Versions 1 & 2" document:
  - command PROXY, family TCP over IPv6;
  - both addresses in IPv6 form, with IPv4 addresses in the IPv4-mapped form of
    section 2.5.5.2 of RFC 4291;
  - both ports big-endian.
  The builder is an imperative method that appends to a byte sequence. It is
  proved equal to a pure function, and the header's layout is proved about that
  function. A decoder for the receiving side, `Utils.ReadHeader`, is proved to
  recover the addresses and ports.
- **Per-connection rules** (`src/proxy.rs`):
  - the client IP: X-Forwarded-For, then X-Real-IP, then remote_host, then the
    peer, then `127.0.0.1`;
  - the choice of target from the query map, where the unkeyed choice is
    nondeterministic;
  - the source-port defaults: 0 in the log, 12345 in the header;
  - the upgrade handler's control flow, as a trace of effects. With no target it
    reports the error and stops. Otherwise it dials, writes the header when
    enabled, relays, reports the first error, and logs once, last, with status
    200.
- **The log line and start-up texts** (`src/log.rs`):
  - the eleven fields of the access-log line;
  - quote escaping, which has an inverse, and a reader that recovers the user
    agent from the line;
  - the user-id field and its reader;
  - the `url_request`, proxy-protocol and passphrase texts.

The standard library's address parsers and printers are modelled in `net.dfy`.
Its `split` and `trim` (with Unicode White_Space) are in `text.dfy`. The one
`replace` the core makes, on the user agent's quotes, is `Log.EscapeQuotes` in
`log.dfy`. Decimal and hexadecimal numerals are modelled in `numerals.dfy`.

## Model

| member | source | states |
|---|---|---|
| Utils.BuildProxyV2 | src/utils.rs:5-44 | The imperative builder (parse dest, parse source, append the header piece by piece) returns exactly `ProxyV2`: an error or the header of the parsed addresses |
| Utils.HeaderLayout | src/utils.rs:21-43 | The header is 52 bytes: the 12-byte signature, then 0x21, 0x21, then 36 big-endian, then the source and destination addresses in IPv6 form, then the source and destination ports big-endian |
| Utils.Ipv4SourceBytes | src/utils.rs:26-29 | An IPv4 source a.b.c.d fills bytes 16-31 with ten zeros, 0xFF, 0xFF, a, b, c, d |
| Utils.ProxyV2Outcome | src/utils.rs:7-19 | An unparsable destination gives the destination error, checked first. Otherwise an unparsable source gives the source error. The result is Ok exactly when both parse, and an Ok header is 52 bytes |
| Utils.PortsTouchOnlyTheirBytes | src/utils.rs:41-42 | Changing the source port changes only bytes 48-49, and changing the destination port only bytes 50-51 |
| Utils.ReadHeaderRoundTrip | src/utils.rs:21-43 | A receiver that reads the header gets back the IPv6-form source and destination and both ports |
| Utils.Ipv4SourceRecovered | src/utils.rs:26-29 | For an IPv4 source, the receiver recovers a.b.c.d exactly from the mapped address |
| Net.V6OctetsSpec | src/utils.rs:26-34 | IPv6 addresses are kept as they are. IPv4 addresses get the ::ffff: prefix, and un-mapping recovers them |
| Net.V6OctetsCollision | src/utils.rs:26-34 | Two addresses get the same IPv6 form exactly when they are equal, or when one is IPv4 and the other its IPv4-mapped IPv6 address |
| Net.SegmentsRoundTrip | src/utils.rs:38-39 | Sixteen octets and eight 16-bit segments convert into each other without loss |
| Net.ParseIpShow | src/utils.rs:19 | Parsing the printed form of any IP address gives that address back |
| Net.ParseSocketAddrShow | src/utils.rs:7-13 | Parsing the printed form of any socket address gives that address and port back, in both the `a.b.c.d:p` and `[v6]:p` forms |
| Net.IpToStringChars | src/proxy.rs:125 | A printed IP address holds only hex digits, dots and colons, so it has no surrounding whitespace |
| Numerals.ValueShow | src/proxy.rs:71 | A number printed in decimal or hex reads back as the same number |
| Text.Split | src/proxy.rs:104 | `split` yields at least one piece, no piece holds the separator, and joining the pieces gives the input back |
| Text.SplitJoin | src/proxy.rs:104 | Splitting pieces joined by a separator they do not hold gives the pieces back |
| Text.Trim | src/proxy.rs:105 | `trim` drops leading and trailing whitespace only, and its result neither starts nor ends with whitespace |
| Text.TrimUnique | src/proxy.rs:105 | Trimming whitespace + t + whitespace gives t whenever t is itself trimmed |
| Proxy.GetClientIp | src/proxy.rs:99-127 | The client IP never has surrounding whitespace, whichever source it came from |
| Proxy.ForwardedForWins | src/proxy.rs:101-106 | A readable X-Forwarded-For decides alone: its first comma-separated entry, trimmed, whatever X-Real-IP, remote_host and the peer are |
| Proxy.BlankForwardedForGivesEmptyIp | src/proxy.rs:104-105 | A blank first X-Forwarded-For entry is not skipped: the client IP is the empty string |
| Proxy.RealIpSecond | src/proxy.rs:111-115 | Without a readable X-Forwarded-For, a readable X-Real-IP decides, trimmed |
| Proxy.RemoteHostThird | src/proxy.rs:118-122 | Without either forwarding header, a readable remote_host decides, trimmed |
| Proxy.PeerOrLoopback | src/proxy.rs:125-126 | With no identity header, the IP is the peer's address without its port, and parses back to it. With no peer, it is `127.0.0.1` |
| Proxy.SelectTarget | src/proxy.rs:36-41 | With a key, the target is `query[key]` and is absent exactly when the key is. Without a key, it is one of the query's values and is absent exactly when the query is empty |
| Proxy.KeyedTargetIsUnique | src/proxy.rs:37 | With a key, the target does not depend on the map's iteration order |
| Proxy.UnkeyedTargetIsAmbiguous | src/proxy.rs:40 | Without a key, every parameter value is a possible target |
| Proxy.LogSourcePort | src/proxy.rs:70 | The log's source port is the peer's port, or 0 without a peer |
| Proxy.HeaderSourcePort | src/proxy.rs:146 | The header's source port is the peer's port, or 12345 without a peer |
| Proxy.SrcTextSplits | src/proxy.rs:70-71 | The log's `ip:port` text splits at its last colon into the client IP and a numeral that reads back as the source port |
| Proxy.ProxyPrelude | src/proxy.rs:144-147 | No bytes without the flag. With it, the 52-byte header, or an error exactly when the target or the client IP does not parse, the target's error first. Partners: `Proxy.PreludeReads`, `Proxy.PreludeDisabled` |
| Proxy.PreludeDisabled | src/proxy.rs:144 | Without the PROXY protocol flag, nothing is written before the relayed bytes |
| Proxy.PreludeCarriesPeer | src/proxy.rs:144-147 | With the flag, no identity header and a peer, the receiver reads the peer's address and port and the target's from the header |
| Proxy.PreludeWithoutPeer | src/proxy.rs:125-126 | With the flag, no identity header and no peer, the header claims ::ffff:127.0.0.1 port 12345 |
| Proxy.PreludeTrustsForwardedFor | src/proxy.rs:101-106 | When the first X-Forwarded-For entry is an IP literal, the header's source is that address, not the peer's |
| Proxy.Session | src/proxy.rs:43-87 | With no target, only the missing-target message and no relay or log. With a target: dial with the timeout; on failure, one error message; once connected, the header if enabled (and its write error, which ends the relay before it starts), the relay and any relay error; then exactly one log line, last, for the chosen target |
| Proxy.Connection | src/proxy.rs:58-84 | Once a target is found: the dial with the configured timeout first, then the upstream steps, then exactly one log line, last, for that target |
| Proxy.HandleUpstream | src/proxy.rs:59-67 | Between the dial and the log: the dial's error alone; or, once connected, the header's build error alone; or the header write and its error, with no relay; or the header (only with the flag), the relay and the relay's error if any. No step is a log line |
| Proxy.PumpsFollowTheHeader | src/proxy.rs:137-148 | The relay starts exactly when the dial succeeded, the header was built (or is disabled) and its write did not fail; with the flag the header is written just before the relay |
| Proxy.PreludeReads | src/proxy.rs:144-147 | With the flag, a parsable client IP and target give a header from which the receiver reads the client IP, the header source port and the target's address and port |
| Proxy.SessionLogRecord | src/proxy.rs:70-83 | The session's log fields: client IP; `网络路径:ip:port->target`; status 200 always; `-` for a missing referer or user agent; the client IP (or `-`) as forwarded-for; a user-id field that reads back as the user-id header |
| Log.EscapeQuotes | src/log.rs:77 | Escaping never shortens the text and never starts it with a bare quote |
| Log.EscapeQuotesLength | src/log.rs:77 | The escaped length is the input length plus the number of quotes |
| Log.EscapedQuotesArePreceded | src/log.rs:77 | Every quote in the escaped text is preceded by a backslash |
| Log.UnescapeEscape | src/log.rs:77 | Unescaping the escaped text gives the user agent back, so every other character stays, in order |
| Log.EscapeNoQuotes | src/log.rs:77 | A user agent without quotes is printed unchanged |
| Log.ReadQuotedEscaped | src/log.rs:80 | Reading a quoted field from its escaped body recovers the user agent and the rest of the line, unless the user agent ends with a backslash |
| Log.TrailingBackslashSwallowsQuote | src/log.rs:77-80 | A user agent ending in a backslash makes its closing quote look escaped |
| Log.OrDash | src/log.rs:60 | An empty referer or forwarded-for becomes `-`, and a non-empty one passes unchanged |
| Log.UserIdField | src/log.rs:63-67 | The user-id field is always quoted |
| Log.UserIdFieldRoundTrip | src/log.rs:63-67 | The user-id field tells whether an id was given and which |
| Log.NetPath | src/log.rs:54 | The path is the source, then `->`, then the destination |
| Log.RequestLine | src/log.rs:57 | The request line is the method, one space, then the path |
| Log.LogFields | src/log.rs:79-91 | The eleven fields, in printed order; what each holds is stated by the three lemmas below |
| Log.LogFieldsHead | src/log.rs:80-83 | The timestamp, then `[信息]`, then the elapsed microseconds as a decimal numeral that reads back as them followed by `µs`, then the client IP |
| Log.LogFieldsRequest | src/log.rs:54-86 | `"网络路径:src->dest"`, then `"method path"`, then the status as a decimal numeral that reads back as the status |
| Log.LogFieldsTail | src/log.rs:60-91 | The quoted referer and the quoted forwarded-for, each `-` when empty; the quoted user agent, whose body unescapes to the user agent; the user-id field, which reads back as the user id |
| Log.MicrosFieldReads | src/log.rs:80-82 | The elapsed-time field ends in `µs` and its digits read back as the microseconds |
| Log.StatusFieldReads | src/log.rs:80-86 | The status field is all decimal digits and reads back as the status |
| Log.UserAgentFieldReads | src/log.rs:77-80 | The user-agent field is quoted and its body unescapes to the user agent |
| Log.LogConnection | src/log.rs:35-92 | The printed line starts with the timestamp and ` [信息] ` and ends with a space and the user-id field. Partner: `Log.UserAgentReadsBack` |
| Log.UserAgentReadsBack | src/log.rs:79-91 | From the opening quote of the user-agent field, a reader recovers the user agent and then the user-id field, when the user agent does not end with a backslash |
| Log.UrlRequest | src/log.rs:12-16 | `/?` followed by `<frkey>=` when a key is set; exactly `/?` when none is |
| Log.ProxyProtocolText | src/log.rs:8 | `启用` exactly when the flag is set, `禁用` otherwise |
| Log.PassphraseText | src/log.rs:9 | The secret, or `无` when there is none |

## Left out

- Server wiring: the warp route, server bind and WebSocket upgrade (src/proxy.rs:12-31, 91-93). These are framework and network I/O.
- The relay in `handle_ws` (src/proxy.rs:130-178):
  - The dial with its timeout, the header write and the two pumps are not executed.
  - `Proxy.Session` takes their outcome as a parameter (`Upstream`): the dial's error, or the header write's error and the pumps' error.
  - The pumps are joined with `try_join!`, which waits for both unless one fails. So one pump error is reported, not the first pump to finish.
- Net parsers: `IpAddr`/`SocketAddr` parsing is a simplified grammar:
  - dotted quads without leading zeros;
  - IPv6 written as eight hex groups, or fewer with one `::`;
  - no embedded IPv4 tail and no scope id;
  - ports as decimal digits below 65536.
  Both branches of the destination parse (src/utils.rs:7-13) call the same parser and are modelled as one.
- Net.IpToString: IPv6 addresses print as eight uncompressed lower-case groups, not the compressed form of RFC 5952.
- Headers: a header name maps to its first value. HeaderMap's case-insensitive lookup is taken as given.
- HashMap order: the iteration order behind `query.values().next()` is unspecified, so it is a nondeterministic choice.
- Clocks: the log timestamp, the banner timestamp and the elapsed microseconds are parameters.
- Output: `println!`/`eprintln!` become effects in the trace, or the returned line.
- The banner: its layout, the pid, version and other constant lines of `print_startup_info` are not modelled. Only its computed texts are.
- src/args.rs: parsing of the command line. `Config.Args` holds only the parsed values.
- src/main.rs and the build tooling (build.rs, xtask): bootstrap and packaging.

## Behaviour of the code worth knowing

- The client IP can be empty: a blank first X-Forwarded-For entry is returned as `""` (`Proxy.BlankForwardedForGivesEmptyIp`).
- A header counts as present only if its value is visible ASCII (`to_str` succeeds). An unreadable header is skipped like a missing one.
- The session still logs after a dial failure or a header error. Only a missing target skips the log line.
- The PROXY header is built after the dial succeeds, so an invalid client IP is reported as a relay error after connecting.
- A failed write of the PROXY header ends the connection before either pump starts; the session still logs (`Proxy.PumpsFollowTheHeader`).
- Only `"` is escaped in the user agent. A user agent ending in `\` therefore makes the field's closing quote read as escaped (`Log.TrailingBackslashSwallowsQuote`).
