/** From subscription text to xray outbounds: which entries parse, which the leak
    guard lets through, and what outbound they become. */
module Protocols {
  import opened Base
  import opened Text

  /** What a per-protocol body parser finds in one entry. */
  datatype Endpoint = Endpoint(server: string, port: int, name: string)

  /** The library-bound parts of parsing: the body parser for a protocol, query
      unescaping, and base64 decoding. */
  datatype Library = Library(body: (string, string) -> Option<Endpoint>, unescape: string -> string,
    base64: string -> Option<string>)

  /** The part before the first `c`, and whether there is one. */
  function Before(s: string, c: char): string {
    if s == [] || s[0] == c then [] else [s[0]] + Before(s[1..], c)
  }

  function After(s: string, c: char): string {
    if s == [] then [] else if s[0] == c then s[1..] else After(s[1..], c)
  }

  /** The lower-cased scheme in front of the first "://", or the empty string. */
  function Scheme(s: string): string {
    ToLower(SchemeText(s, 0))
  }

  function SchemeText(s: string, i: nat): string
    requires i <= |s|
    decreases |s| - i
  {
    if i + 3 > |s| then "" else if s[i..i + 3] == "://" then s[..i] else SchemeText(s, i + 1)
  }

  /** Schemes with a body parser. */
  const SCHEMES := {"ss", "vmess", "vless", "trojan", "hysteria2", "hy2", "tuic", "wireguard", "socks5", "socks4",
    "socks"}

  /** The protocol names a parsed entry can carry. */
  const PARSED := {"ss", "vmess", "vless", "trojan", "hysteria2", "tuic", "wireguard", "socks5"}

  /** The protocols that become real proxy outbounds. */
  const PROXIED := {"ss", "vmess", "vless", "trojan", "socks5"}

  function Canonical(scheme: string): string {
    if scheme == "hy2" then "hysteria2"
    else if scheme == "socks" || scheme == "socks4" then "socks5"
    else scheme
  }

  function ParseSingle(line: string, lib: Library): Option<ProxyConfig> {
    var raw := TrimSpace(line);
    var before := Before(raw, '#');
    var scheme := Scheme(before);
    if raw == "" || scheme !in SCHEMES then None
    else match lib.body(scheme, before)
      case None => None
      case Some(e) =>
        var name := if e.name == "" then lib.unescape(After(raw, '#')) else e.name;
        Some(ProxyConfig(Canonical(scheme), e.server, e.port, name, raw))
  }

  /** Line ends are normalised before splitting. */
  function DropCarriage(s: string): string {
    if |s| < 2 then s
    else if s[0] == '\r' && s[1] == '\n' then ['\n'] + DropCarriage(s[2..])
    else [s[0]] + DropCarriage(s[1..])
  }

  function DecodeLines(body: string, lib: Library): seq<string> {
    Split(DropCarriage(if lib.base64(body).Some? then lib.base64(body).value else body), '\n')
  }

  function ParseLine(line: string, lib: Library): Option<ProxyConfig> {
    var l := TrimSpace(line);
    if l == "" || l[0] == '#' then None else ParseSingle(l, lib)
  }

  function ParseLines(lines: seq<string>, lib: Library): seq<ProxyConfig> {
    if lines == [] then []
    else
      var rest := ParseLine(lines[|lines| - 1], lib);
      ParseLines(lines[..|lines| - 1], lib) + if rest.Some? then [rest.value] else []
  }

  function Parsed(body: string, lib: Library): seq<ProxyConfig> {
    var text := TrimSpace(body);
    if text == "" then [] else ParseLines(DecodeLines(text, lib), lib)
  }

  method ParseConfigs(body: string, lib: Library) returns (configs: seq<ProxyConfig>)
    ensures configs == Parsed(body, lib)
  {
    var text := TrimSpace(body);
    configs := [];
    if text == "" { return; }
    var lines := DecodeLines(text, lib);
    for i := 0 to |lines|
      invariant configs == ParseLines(lines[..i], lib)
    {
      assert lines[..i + 1][..i] == lines[..i];
      var line := TrimSpace(lines[i]);
      if line == "" || line[0] == '#' { continue; }
      var c := ParseSingle(line, lib);
      if c.Some? { configs := configs + [c.value]; }
    }
    assert lines[..|lines|] == lines;
  }

  /** The leak guard. */
  predicate IsXraySupported(cfg: ProxyConfig) {
    cfg.protocol != "hysteria2" && cfg.protocol != "tuic" && cfg.protocol != "wireguard"
  }

  datatype Outbound = Outbound(protocol: string, mux: bool)

  function XrayProtocol(protocol: string): string {
    if protocol == "ss" then "shadowsocks"
    else if protocol == "vmess" then "vmess"
    else if protocol == "vless" then "vless"
    else if protocol == "trojan" then "trojan"
    else if protocol == "socks5" then "socks"
    else "freedom"
  }

  /** The outbound of a config, reduced to its protocol and multiplexing. */
  function BuildOutbound(cfg: ProxyConfig, muxEnabled: bool): Outbound {
    if cfg.protocol == "ss" then Outbound("shadowsocks", muxEnabled)
    else if cfg.protocol in {"vmess", "vless", "trojan", "socks5"} then Outbound(XrayProtocol(cfg.protocol), muxEnabled)
    else Outbound("freedom", false)
  }

  /** The config leaves through a proxy and not straight from this machine. */
  predicate Proxied(cfg: ProxyConfig) {
    BuildOutbound(cfg, true).protocol != "freedom"
  }

  lemma ProxiedIff(cfg: ProxyConfig, mux: bool)
    ensures Proxied(cfg) <==> cfg.protocol in PROXIED
    ensures BuildOutbound(cfg, mux).protocol != "freedom" <==> Proxied(cfg)
    ensures BuildOutbound(cfg, mux).mux <==> mux && Proxied(cfg)
    ensures BuildOutbound(cfg, mux).protocol ==
      if cfg.protocol == "ss" then "shadowsocks" else if cfg.protocol == "socks5" then "socks"
      else if cfg.protocol in {"vmess", "vless", "trojan"} then cfg.protocol else "freedom"
  {
    var p := BuildOutbound(cfg, mux).protocol;
    assert "freedom"[0] == 'f';
    assert "shadowsocks"[0] == 's' && "vmess"[0] == 'v' && "vless"[0] == 'v' && "trojan"[0] == 't' && "socks"[0] == 's';
  }

  lemma ParsedProtocols(line: string, lib: Library)
    ensures var c := ParseSingle(line, lib); c.Some? ==>
      c.value.protocol in PARSED && c.value.raw == TrimSpace(line) != ""
  {
  }

  /** What an entry "scheme://rest" or "scheme://rest#name" parses to: nothing unless the
      scheme is known and its body parser accepts it; else the server and port that the
      body parser found, under the protocol the scheme stands for. */
  lemma ParsedMeans(line: string, scheme: string, rest: string, fragment: Option<string>, lib: Library)
    requires line == scheme + "://" + rest + if fragment.Some? then "#" + fragment.value else ""
    requires ':' !in scheme && '#' !in scheme && '#' !in rest && TrimSpace(line) == line
    ensures var s, c := ToLower(scheme), ParseSingle(line, lib);
      var found := lib.body(s, scheme + "://" + rest);
      && (c.Some? <==>
            && found.Some?
            && s in {"ss", "vmess", "vless", "trojan", "hysteria2", "hy2", "tuic", "wireguard",
                     "socks5", "socks4", "socks"})
      && (c.Some? ==>
            && c.value.server == found.value.server && c.value.port == found.value.port && c.value.raw == line
            && c.value.name == (if found.value.name != "" then found.value.name
                                else lib.unescape(if fragment.Some? then fragment.value else ""))
            && c.value.protocol == (if s in {"hysteria2", "hy2"} then "hysteria2"
                                    else if s in {"socks5", "socks4", "socks"} then "socks5" else s))
  {
    var before := scheme + "://" + rest;
    CutAt(before, if fragment.Some? then "#" + fragment.value else "", '#');
    SchemeIs(scheme, rest);
    assert line[|scheme|] == ':';
  }

  lemma {:induction false} CutAt(a: string, b: string, c: char)
    requires c !in a && (b == "" || b[0] == c)
    ensures Before(a + b, c) == a && After(a + b, c) == if b == "" then "" else b[1..]
  {
    if a == "" {
      assert a + b == b;
    } else {
      assert (a + b)[1..] == a[1..] + b;
      CutAt(a[1..], b, c);
    }
  }

  lemma SchemeIs(scheme: string, rest: string)
    requires ':' !in scheme
    ensures Scheme(scheme + "://" + rest) == ToLower(scheme)
  {
    SchemeFrom(scheme, rest, 0);
  }

  lemma {:induction false} SchemeFrom(scheme: string, rest: string, i: nat)
    requires ':' !in scheme && i <= |scheme|
    ensures SchemeText(scheme + "://" + rest, i) == scheme
    decreases |scheme| - i
  {
    var s := scheme + "://" + rest;
    if i == |scheme| {
      assert s[i..i + 3] == "://" && s[..i] == scheme;
    } else {
      assert s[i] == scheme[i] && s[i..i + 3][0] == s[i];
      SchemeFrom(scheme, rest, i + 1);
    }
  }

  /** Lines are parsed one by one, in order, and nothing else is. */
  lemma {:induction false} LinesInOrder(a: seq<string>, b: seq<string>, lib: Library)
    ensures ParseLines(a + b, lib) == ParseLines(a, lib) + ParseLines(b, lib)
  {
    if b == [] {
      assert a + b == a;
    } else {
      assert (a + b)[..|a + b| - 1] == a + b[..|b| - 1];
      LinesInOrder(a, b[..|b| - 1], lib);
    }
  }

  /** One line gives its entry, or nothing when it is blank, a comment or not understood. */
  lemma LineMeans(line: string, lib: Library)
    ensures var l := TrimSpace(line);
      ParseLines([line], lib) ==
        if l == "" || l[0] == '#' || ParseSingle(l, lib).None? then [] else [ParseSingle(l, lib).value]
  {
    assert [line][..0] == [];
  }

  /** A subscription is its lines joined by line feeds, in plain text or as base64. */
  lemma SubscriptionMeans(body: string, lines: seq<string>, lib: Library)
    requires lines != [] && forall i :: 0 <= i < |lines| ==> '\n' !in lines[i] && '\r' !in lines[i]
    requires TrimSpace(body) != ""
    requires lib.base64(TrimSpace(body)) == Some(Join(lines, '\n'))
      || (lib.base64(TrimSpace(body)) == None && TrimSpace(body) == Join(lines, '\n'))
    ensures Parsed(body, lib) == ParseLines(lines, lib)
  {
    JoinHasNo(lines, '\n', '\r');
    NoCarriage(Join(lines, '\n'));
    SplitJoin(lines, '\n');
  }

  lemma {:induction false} JoinHasNo(lines: seq<string>, d: char, c: char)
    requires c != d && forall i :: 0 <= i < |lines| ==> c !in lines[i]
    ensures c !in Join(lines, d)
  {
    if |lines| > 1 {
      JoinHasNo(lines[1..], d, c);
    }
  }

  lemma {:induction false} NoCarriage(s: string)
    requires '\r' !in s
    ensures DropCarriage(s) == s
  {
    if |s| >= 2 {
      NoCarriage(s[1..]);
      assert s == [s[0]] + s[1..];
    }
  }

  /** On parsed configs the guard is exact: it passes precisely those that are proxied. */
  lemma GuardIsExactOnParsed(line: string, lib: Library)
    ensures var c := ParseSingle(line, lib); c.Some? ==> (IsXraySupported(c.value) <==> Proxied(c.value))
  {
    var c := ParseSingle(line, lib);
    if c.Some? {
      ParsedProtocols(line, lib);
      ProxiedIff(c.value, true);
    }
  }

  /** On its own the guard is sound exactly on the protocols the parser produces. */
  lemma GuardSufficesIff(cfg: ProxyConfig)
    ensures (IsXraySupported(cfg) ==> Proxied(cfg)) <==> cfg.protocol in PARSED
  {
    ProxiedIff(cfg, true);
  }

  /** For instance "http" passes it and leaks. */
  lemma GuardAloneLeaks(server: string, port: int)
    ensures var c := ProxyConfig("http", server, port, "", "http://"); IsXraySupported(c) && !Proxied(c)
  {
    GuardSufficesIff(ProxyConfig("http", server, port, "", "http://"));
  }

  ghost predicate GuardExact(cfg: ProxyConfig) {
    cfg.raw != "" && (IsXraySupported(cfg) <==> Proxied(cfg))
  }

  /** Every config of a parsed subscription has a non-empty raw text and an exact guard. */
  lemma {:induction false} SubscriptionGuarded(lines: seq<string>, lib: Library)
    ensures forall i :: 0 <= i < |ParseLines(lines, lib)| ==> GuardExact(ParseLines(lines, lib)[i])
  {
    if lines != [] {
      SubscriptionGuarded(lines[..|lines| - 1], lib);
      var l := TrimSpace(lines[|lines| - 1]);
      GuardIsExactOnParsed(l, lib);
      ParsedProtocols(l, lib);
    }
  }
}
