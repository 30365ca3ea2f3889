/**
 * src/log.rs: the connection log line and the texts of the start-up banner.
 * The clock (`Local::now`) and the elapsed time (`Instant::elapsed`) are
 * parameters; printing is left to the caller.
 */
module Log {
  import opened Wrappers
  import opened Bytes
  import opened Numerals
  import opened Text

  // ---------------------------------------------------------------------
  // Field derivation

  /** `user_agent.replace('"', "\\\"")`: every quote gets a backslash in front. */
  function EscapeQuotes(s: string): (r: string)
    ensures |r| >= |s|
    ensures r != [] ==> r[0] != '"'
  {
    if s == [] then [] else (if s[0] == '"' then ['\\', '"'] else [s[0]]) + EscapeQuotes(s[1..])
  }

  /** Escaping adds exactly one character per quote. */
  lemma {:induction false} EscapeQuotesLength(s: string)
    ensures |EscapeQuotes(s)| == |s| + multiset(s)['"']
  {
    if s != [] {
      assert s == [s[0]] + s[1..];
      EscapeQuotesLength(s[1..]);
    }
  }

  predicate QuotesEscaped(r: string)
  {
    forall i :: 0 <= i < |r| && r[i] == '"' ==> i > 0 && r[i - 1] == '\\'
  }

  /** In the escaped text every quote has a backslash in front: none can close the quoted field. */
  lemma {:induction false} EscapedQuotesArePreceded(s: string)
    ensures QuotesEscaped(EscapeQuotes(s))
  {
    if s != [] {
      EscapedQuotesArePreceded(s[1..]);
      var r, e := EscapeQuotes(s), EscapeQuotes(s[1..]);
      var h := if s[0] == '"' then ['\\', '"'] else [s[0]];
      assert r == h + e;
      forall i | 0 <= i < |r| && r[i] == '"' ensures i > 0 && r[i - 1] == '\\' {
        if i < |h| {
          assert r[i] == h[i];
          assert s[0] == '"' && i == 1;
          assert r[0] == h[0];
        } else {
          assert r[i] == e[i - |h|];
          assert i - |h| > 0;
          assert e[i - |h|] == '"';
          assert r[i - 1] == e[i - |h| - 1];
        }
      }
    }
  }

  /** Deletes the backslash in front of each quote: the inverse of EscapeQuotes. */
  function UnescapeQuotes(r: string): string
  {
    if r == [] then []
    else if |r| >= 2 && r[0] == '\\' && r[1] == '"' then ['"'] + UnescapeQuotes(r[2..])
    else [r[0]] + UnescapeQuotes(r[1..])
  }

  /** Escaping loses nothing: every other character is kept, in order. */
  lemma {:induction false} UnescapeEscape(s: string)
    ensures UnescapeQuotes(EscapeQuotes(s)) == s
  {
    if s != [] {
      var r := EscapeQuotes(s);
      UnescapeEscape(s[1..]);
      if s[0] == '"' {
        assert r == ['\\', '"'] + EscapeQuotes(s[1..]);
        assert r[2..] == EscapeQuotes(s[1..]);
      } else {
        assert r == [s[0]] + EscapeQuotes(s[1..]);
        assert r[1..] == EscapeQuotes(s[1..]);
      }
    }
  }

  /** A string without quotes is logged as it is. */
  lemma {:induction false} EscapeNoQuotes(s: string)
    requires '"' !in s
    ensures EscapeQuotes(s) == s
  {
    if s != [] {
      assert s == [s[0]] + s[1..];
      EscapeNoQuotes(s[1..]);
    }
  }

  /**
   * How a reader takes a double-quoted field apart: `\"` stands for a quote,
   * the first quote without a backslash ends the field.
   * Gives the field's text and what follows the closing quote.
   */
  function ReadQuoted(s: string): Option<(string, string)>
  {
    if s == [] then None
    else if s[0] == '"' then Some(([], s[1..]))
    else if |s| >= 2 && s[0] == '\\' && s[1] == '"' then Prepend('"', ReadQuoted(s[2..]))
    else Prepend(s[0], ReadQuoted(s[1..]))
  }

  function Prepend(c: char, r: Option<(string, string)>): Option<(string, string)>
  {
    match r
    case Some((v, rest)) => Some(([c] + v, rest))
    case None => None
  }

  lemma ReadQuotedEscapedQuote(t: string)
    ensures ReadQuoted(['\\', '"'] + t) == Prepend('"', ReadQuoted(t))
  {
    assert (['\\', '"'] + t)[2..] == t;
  }

  lemma ReadQuotedPlain(c: char, t: string)
    requires c != '"'
    requires c == '\\' ==> t == [] || t[0] != '"'
    ensures ReadQuoted([c] + t) == Prepend(c, ReadQuoted(t))
  {
    assert ([c] + t)[1..] == t;
  }

  /**
   * The escaped user agent, once quoted, reads back as exactly the user agent,
   * whatever follows it, unless it ends with a backslash.
   */
  lemma {:induction false} ReadQuotedEscaped(ua: string, rest: string)
    requires ua == [] || ua[|ua| - 1] != '\\'
    ensures ReadQuoted(EscapeQuotes(ua) + ['"'] + rest) == Some((ua, rest))
  {
    if ua == [] {
      assert EscapeQuotes(ua) + ['"'] + rest == ['"'] + rest;
    } else {
      ReadQuotedEscaped(ua[1..], rest);
      ReadQuotedEscapedStep(ua, rest);
    }
  }

  /** One character of the user agent: its escaped form reads back as that character. */
  lemma ReadQuotedEscapedStep(ua: string, rest: string)
    requires ua != [] && ua[|ua| - 1] != '\\'
    requires ReadQuoted(EscapeQuotes(ua[1..]) + ['"'] + rest) == Some((ua[1..], rest))
    ensures ReadQuoted(EscapeQuotes(ua) + ['"'] + rest) == Some((ua, rest))
  {
    assert [ua[0]] + ua[1..] == ua;
    if ua[0] == '"' {
      StepQuote(ua[1..], rest);
    } else {
      StepPlain(ua[0], ua[1..], rest);
    }
  }

  lemma StepQuote(tail: string, rest: string)
    ensures EscapeQuotes(['"'] + tail) + ['"'] + rest == ['\\', '"'] + (EscapeQuotes(tail) + ['"'] + rest)
    ensures ReadQuoted(EscapeQuotes(['"'] + tail) + ['"'] + rest)
         == Prepend('"', ReadQuoted(EscapeQuotes(tail) + ['"'] + rest))
  {
    var e := EscapeQuotes(tail);
    assert (['"'] + tail)[1..] == tail;
    assert EscapeQuotes(['"'] + tail) == ['\\', '"'] + e;
    ReadQuotedEscapedQuote(e + ['"'] + rest);
  }

  lemma StepPlain(c: char, tail: string, rest: string)
    requires c != '"'
    requires c == '\\' ==> tail != [] && tail[|tail| - 1] != '\\'
    ensures ReadQuoted(EscapeQuotes([c] + tail) + ['"'] + rest)
         == Prepend(c, ReadQuoted(EscapeQuotes(tail) + ['"'] + rest))
  {
    var e := EscapeQuotes(tail);
    var t := e + ['"'] + rest;
    assert ([c] + tail)[1..] == tail;
    assert EscapeQuotes([c] + tail) == [c] + e;
    assert EscapeQuotes([c] + tail) + ['"'] + rest == [c] + t;
    assert c == '\\' ==> t[0] != '"' by {
      if c == '\\' {
        assert |e| >= 1 && e[0] != '"';
      }
    }
    ReadQuotedPlain(c, t);
  }

  /** A user agent ending in a backslash turns the closing quote into an escaped one. */
  lemma TrailingBackslashSwallowsQuote()
    ensures ReadQuoted(EscapeQuotes("a\\") + "\" \"\"") != Some(("a\\", " \"\""))
  {
    assert EscapeQuotes("a\\") == "a\\";
    assert "a\\" + "\" \"\"" == "a\\\" \"\"";
  }

  /** Referer and forwarded-for: an empty value is logged as `-`. */
  function OrDash(s: string): (r: string)
    ensures r != []
    ensures s != [] ==> r == s
    ensures s == [] ==> r == "-"
  {
    if s == [] then "-" else s
  }

  /** `"User-Id:<id>"` with its quotes when an id is given, `""` otherwise. */
  function UserIdField(userId: Option<string>): (f: string)
    ensures |f| >= 2 && f[0] == '"' && f[|f| - 1] == '"'
  {
    match userId
    case Some(id) => "\"User-Id:" + id + "\""
    case None => "\"\""
  }

  /** Reads the user id back from its field. */
  function ReadUserIdField(f: string): Option<string>
  {
    if |f| >= 10 && f[..9] == "\"User-Id:" && f[|f| - 1] == '"' then Some(f[9..|f| - 1]) else None
  }

  /** The user-id field determines the user id, presence included. */
  lemma UserIdFieldRoundTrip(userId: Option<string>)
    ensures ReadUserIdField(UserIdField(userId)) == userId
  {
    if userId.Some? {
      var f := UserIdField(userId);
      assert f[..9] == "\"User-Id:";
      assert f[9..|f| - 1] == userId.value;
    }
  }

  /** `format!("{}->{}", src, dest)`. */
  function NetPath(src: string, dest: string): (p: string)
    ensures |p| == |src| + 2 + |dest|
    ensures p[..|src|] == src && p[|src|..|src| + 2] == "->" && p[|src| + 2..] == dest
  {
    src + "->" + dest
  }

  /** `format!("{} {}", method, path)`. */
  function RequestLine(verb: string, path: string): (l: string)
    ensures |l| == |verb| + 1 + |path|
    ensures l[..|verb|] == verb && l[|verb|] == ' ' && l[|verb| + 1..] == path
  {
    verb + " " + path
  }

  /** A field between double quotes, as the format string writes it. */
  function Quoted(s: string): string
  {
    "\"" + s + "\""
  }

  /** Quoting adds one double quote at each end and keeps the text between them. */
  lemma QuotedReads(s: string)
    ensures var q := Quoted(s);
      |q| == |s| + 2 && q[0] == '"' && q[|q| - 1] == '"' && q[1..|q| - 1] == s
  {
  }

  /** The elapsed-time field: the microseconds in decimal, then `µs`. */
  function MicrosField(elapsedMicros: nat): string
  {
    Show(elapsedMicros, 10) + "µs"
  }

  /** The elapsed-time field ends in `µs` and what comes before reads back as the microseconds. */
  lemma MicrosFieldReads(elapsedMicros: nat)
    ensures var f := MicrosField(elapsedMicros);
      && |f| > 2 && f[|f| - 2..] == "µs"
      && AllDigits(f[..|f| - 2], 10) && Value(f[..|f| - 2], 10) == elapsedMicros
  {
    var n := Show(elapsedMicros, 10);
    ValueShow(elapsedMicros, 10);
    assert (n + "µs")[..|n|] == n;
  }

  /** The status field: the code in decimal. */
  function StatusField(status: u16): string
  {
    Show(status, 10)
  }

  /** The status field is all digits and reads back as the status. */
  lemma StatusFieldReads(status: u16)
    ensures AllDigits(StatusField(status), 10) && Value(StatusField(status), 10) == status
  {
    ValueShow(status, 10);
  }

  /** The user-agent field: quoted, with its double quotes escaped. */
  function UserAgentField(userAgent: string): string
  {
    Quoted(EscapeQuotes(userAgent))
  }

  /** The user-agent field is quoted, and unescaping its body gives the user agent back. */
  lemma UserAgentFieldReads(userAgent: string)
    ensures var f := UserAgentField(userAgent);
      && |f| >= 2 && f[0] == '"' && f[|f| - 1] == '"'
      && UnescapeQuotes(f[1..|f| - 1]) == userAgent
  {
    UnescapeEscape(userAgent);
    QuotedReads(EscapeQuotes(userAgent));
  }

  /**
   * The eleven fields of the line, in the order they are printed, each with
   * what it says. The fields are separated by single spaces, but some of them
   * (the timestamp, the request line, the quoted values) may hold spaces too.
   */
  function LogFields(
    now: string, elapsedMicros: nat, clientIp: string, src: string, dest: string,
    verb: string, path: string, status: u16, referer: string, forwardedFor: string,
    userAgent: string, userId: Option<string>): (f: seq<string>)
    ensures |f| == 11
  {
    [ now,
      "[信息]",
      MicrosField(elapsedMicros),
      clientIp,
      Quoted("网络路径:" + NetPath(src, dest)),
      Quoted(RequestLine(verb, path)),
      StatusField(status),
      Quoted(OrDash(referer)),
      Quoted(OrDash(forwardedFor)),
      UserAgentField(userAgent),
      UserIdField(userId) ]
  }

  /** The first four fields: the timestamp, the `[信息]` tag, the elapsed microseconds and the client IP. */
  lemma LogFieldsHead(
    now: string, elapsedMicros: nat, clientIp: string, src: string, dest: string,
    verb: string, path: string, status: u16, referer: string, forwardedFor: string,
    userAgent: string, userId: Option<string>)
    ensures var f := LogFields(now, elapsedMicros, clientIp, src, dest, verb, path, status, referer, forwardedFor, userAgent, userId);
      && f[0] == now && f[1] == "[信息]" && f[3] == clientIp
      && |f[2]| > 2 && f[2][|f[2]| - 2..] == "µs"
      && AllDigits(f[2][..|f[2]| - 2], 10) && Value(f[2][..|f[2]| - 2], 10) == elapsedMicros
  {
    MicrosFieldReads(elapsedMicros);
  }

  /** The next three: the quoted network path, the quoted request line and the status. */
  lemma LogFieldsRequest(
    now: string, elapsedMicros: nat, clientIp: string, src: string, dest: string,
    verb: string, path: string, status: u16, referer: string, forwardedFor: string,
    userAgent: string, userId: Option<string>)
    ensures var f := LogFields(now, elapsedMicros, clientIp, src, dest, verb, path, status, referer, forwardedFor, userAgent, userId);
      && f[4] == "\"网络路径:" + src + "->" + dest + "\""
      && f[5] == "\"" + verb + " " + path + "\""
      && AllDigits(f[6], 10) && Value(f[6], 10) == status
  {
    var f := LogFields(now, elapsedMicros, clientIp, src, dest, verb, path, status, referer, forwardedFor, userAgent, userId);
    assert f[4] == Quoted("网络路径:" + NetPath(src, dest));
    assert f[5] == Quoted(RequestLine(verb, path));
    StatusFieldReads(status);
  }

  /**
   * The last four: the quoted referer and forwarded-for (`-` when empty), the
   * quoted user agent that unescapes to the user agent, and the user-id field.
   */
  lemma LogFieldsTail(
    now: string, elapsedMicros: nat, clientIp: string, src: string, dest: string,
    verb: string, path: string, status: u16, referer: string, forwardedFor: string,
    userAgent: string, userId: Option<string>)
    ensures var f := LogFields(now, elapsedMicros, clientIp, src, dest, verb, path, status, referer, forwardedFor, userAgent, userId);
      && f[7] == "\"" + (if referer == [] then "-" else referer) + "\""
      && f[8] == "\"" + (if forwardedFor == [] then "-" else forwardedFor) + "\""
      && |f[9]| >= 2 && f[9][0] == '"' && f[9][|f[9]| - 1] == '"'
      && UnescapeQuotes(f[9][1..|f[9]| - 1]) == userAgent
      && ReadUserIdField(f[10]) == userId
  {
    UserAgentFieldReads(userAgent);
    UserIdFieldRoundTrip(userId);
  }

  /**
   * `log_connection`: the line it prints, its fields separated by single
   * spaces. It opens with the timestamp and the `[信息]` tag and closes with
   * the user-id field.
   */
  function LogConnection(
    now: string, elapsedMicros: nat, clientIp: string, src: string, dest: string,
    verb: string, path: string, status: u16, referer: string, forwardedFor: string,
    userAgent: string, userId: Option<string>): (line: string)
    ensures var u := UserIdField(userId);
      && |line| > |now| + 6 + |u|
      && line[..|now| + 6] == now + " [信息] "
      && line[|line| - |u| - 1..] == " " + u
  {
    var f := LogFields(now, elapsedMicros, clientIp, src, dest, verb, path, status, referer, forwardedFor, userAgent, userId);
    LineEnds(f);
    Join(f, ' ')
  }

  /** The joined line starts with the first two fields and ends with the last, each with its space. */
  lemma LineEnds(f: seq<string>)
    requires |f| == 11 && f[1] == "[信息]"
    ensures var line := Join(f, ' ');
      && |line| > |f[0]| + 6 + |f[10]|
      && line[..|f[0]| + 6] == f[0] + " [信息] "
      && line[|line| - |f[10]| - 1..] == " " + f[10]
  {
    var line := Join(f, ' ');
    var middle := Join(f[2..10], ' ');
    JoinStep(f, 0, ' ');
    JoinStep(f, 1, ' ');
    assert f[0..] == f;
    assert f[2..] == f[2..10] + [f[10]];
    JoinAppend(f[2..10], [f[10]], ' ');
    assert line == (f[0] + " [信息] ") + (middle + " " + f[10]);
    assert line == (f[0] + " [信息] " + middle) + (" " + f[10]);
  }

  /**
   * Reading the log line from just after the opening quote of the user-agent
   * field gives back the user agent, then the user-id field, provided the user
   * agent does not end with a backslash.
   */
  lemma UserAgentReadsBack(
    now: string, elapsedMicros: nat, clientIp: string, src: string, dest: string,
    verb: string, path: string, status: u16, referer: string, forwardedFor: string,
    userAgent: string, userId: Option<string>)
    requires userAgent == [] || userAgent[|userAgent| - 1] != '\\'
    ensures var f := LogFields(now, elapsedMicros, clientIp, src, dest, verb, path, status, referer, forwardedFor, userAgent, userId);
      var line := LogConnection(now, elapsedMicros, clientIp, src, dest, verb, path, status, referer, forwardedFor, userAgent, userId);
      var p := |Join(f[..9], ' ')| + 2;
      p <= |line| && ReadQuoted(line[p..]) == Some((userAgent, " " + UserIdField(userId)))
  {
    var f := LogFields(now, elapsedMicros, clientIp, src, dest, verb, path, status, referer, forwardedFor, userAgent, userId);
    assert f == f[..9] + [Quoted(EscapeQuotes(userAgent)), UserIdField(userId)];
    QuotedTail(f[..9], userAgent, UserIdField(userId));
  }

  /** The last two fields of a line, read from just after the user agent's opening quote. */
  lemma QuotedTail(head: seq<string>, ua: string, u: string)
    requires head != []
    requires ua == [] || ua[|ua| - 1] != '\\'
    ensures var line := Join(head + [Quoted(EscapeQuotes(ua)), u], ' ');
      var p := |Join(head, ' ')| + 2;
      p <= |line| && ReadQuoted(line[p..]) == Some((ua, " " + u))
  {
    var e := EscapeQuotes(ua);
    var f := head + [Quoted(e), u];
    var h := Join(head, ' ');
    JoinAppend(head, [Quoted(e), u], ' ');
    JoinStep([Quoted(e), u], 0, ' ');
    assert [Quoted(e), u][1..] == [u];
    assert Join(f, ' ') == h + [' '] + (Quoted(e) + [' '] + u);
    assert Join(f, ' ') == h + [' ', '"'] + (e + ['"'] + " " + u);
    assert Join(f, ' ')[|h| + 2..] == e + ['"'] + (" " + u);
    ReadQuotedEscaped(ua, " " + u);
  }

  lemma JoinStep(parts: seq<string>, i: nat, c: char)
    requires i + 1 < |parts|
    ensures Join(parts[i..], c) == parts[i] + [c] + Join(parts[i + 1..], c)
  {
    assert parts[i..][1..] == parts[i + 1..];
  }

  // ---------------------------------------------------------------------
  // Start-up banner texts

  /** `url_request`: `/?<frkey>=` with a key, `/?` without. */
  function UrlRequest(frkey: Option<string>): (r: string)
    ensures |r| >= 2 && r[..2] == "/?"
    ensures frkey.None? <==> |r| == 2
    ensures frkey.Some? ==> r[2..|r| - 1] == frkey.value && r[|r| - 1] == '='
  {
    match frkey
    case Some(k) => "/?" + k + "="
    case None => "/?"
  }

  /** The proxy-protocol line: `启用` (enabled) exactly when the flag is set, `禁用` otherwise. */
  function ProxyProtocolText(enabled: bool): (r: string)
    ensures r == "启用" <==> enabled
    ensures !enabled ==> r == "禁用"
  {
    if enabled then "启用" else "禁用"
  }

  /** The passphrase line: the secret, or `无` (none) when there is none. */
  function PassphraseText(secret: Option<string>): (r: string)
    ensures secret.Some? ==> r == secret.value
    ensures secret.None? ==> r == "无"
  {
    match secret
    case Some(s) => s
    case None => "无"
  }
}
