/** The SOCKS5 handshake (sections 3 to 6 of RFC 1928) from both ends: the dialler
    and the listener, as functions of the bytes they receive. */
module Socks {
  import opened Base

  type Byte = b: int | 0 <= b < 256

  datatype Addr = IPv4(bytes: seq<Byte>) | IPv6(bytes: seq<Byte>) | Domain(bytes: seq<Byte>)

  datatype Target = Target(addr: Addr, port: int)

  /** Addresses of the right length; a domain of any length can be asked for. */
  ghost predicate Valid(a: Addr) {
    match a
    case IPv4(b) => |b| == 4
    case IPv6(b) => |b| == 16
    case Domain(_) => true
  }

  /** An IPv4 address in IPv6 clothing: ten zeros, then 255, 255. */
  predicate Mapped(b: seq<Byte>) {
    |b| == 16 && b[10] == 255 && b[11] == 255 && forall i :: 0 <= i < 10 ==> b[i] == 0
  }

  /** Mapped addresses are the IPv4 addresses they carry. */
  function Normal(a: Addr): (r: Addr)
    ensures Valid(a) ==> Valid(r)
  {
    if a.IPv6? && Mapped(a.bytes) then IPv4(a.bytes[12..]) else a
  }

  function PortBytes(port: int): seq<Byte>
    requires 0 <= port < 65536
  {
    [port / 256, port % 256]
  }

  /** Address type and address as they travel. */
  function AddrBytes(a: Addr): seq<Byte>
    requires |a.bytes| < 256
  {
    match a
    case IPv4(b) => [1] + b
    case Domain(b) => [3, |b|] + b
    case IPv6(b) => [4] + b
  }

  const GREETING: seq<Byte> := [5, 1, 0]
  const CHOICE: seq<Byte> := [5, 0]

  function Reply(code: Byte): seq<Byte> {
    [5, code, 0, 1, 0, 0, 0, 0, 0, 0]
  }

  /** What the dialler asks for, or None when it cannot be asked for. */
  function Request(t: Target): Option<seq<Byte>> {
    var a := Normal(t.addr);
    if t.port < 1 || t.port > 65535 || |a.bytes| > 255 then None
    else Some([5, 1, 0] + AddrBytes(a) + PortBytes(t.port))
  }

  // ----- the listener -----

  /** The first `n` bytes and the remainder; None, with nothing left, when the stream
      ends before. */
  datatype Taken = Taken(data: Option<seq<Byte>>, rest: seq<Byte>)

  function Take(input: seq<Byte>, n: nat): Taken {
    if |input| < n then Taken(None, []) else Taken(Some(input[..n]), input[n..])
  }

  datatype ParsedTarget = ParsedTarget(target: Option<Target>, rest: seq<Byte>)

  function ParsePort(a: Addr, input: seq<Byte>): ParsedTarget {
    var p := Take(input, 2);
    if p.data.None? then ParsedTarget(None, p.rest)
    else
      var port := p.data.value[0] as int * 256 + p.data.value[1] as int;
      ParsedTarget(if port == 0 then None else Some(Target(Normal(a), port)), p.rest)
  }

  datatype ParsedHost = ParsedHost(addr: Option<Addr>, rest: seq<Byte>)

  function ParseHost(input: seq<Byte>, atyp: Byte): ParsedHost {
    if atyp == 1 then
      var b := Take(input, 4);
      ParsedHost(if b.data.None? then None else Some(IPv4(b.data.value)), b.rest)
    else if atyp == 3 then
      var l := Take(input, 1);
      if l.data.None? || l.data.value[0] == 0 then ParsedHost(None, l.rest)
      else
        var b := Take(l.rest, l.data.value[0]);
        ParsedHost(if b.data.None? then None else Some(Domain(b.data.value)), b.rest)
    else if atyp == 4 then
      var b := Take(input, 16);
      ParsedHost(if b.data.None? then None else Some(IPv6(b.data.value)), b.rest)
    else ParsedHost(None, input)
  }

  function ParseTarget(input: seq<Byte>, atyp: Byte): ParsedTarget {
    var h := ParseHost(input, atyp);
    if h.addr.None? then ParsedTarget(None, h.rest) else ParsePort(h.addr.value, h.rest)
  }

  /** A listener's run: bytes written, target it was asked for, whether it went on to
      relay, and bytes left unread. */
  datatype Served = Served(out: seq<Byte>, target: Option<Target>, ready: bool, rest: seq<Byte>)

  /** `connects` stands for routing, WAN selection and the upstream dial. */
  function Serve(input: seq<Byte>, connects: Target -> bool): Served {
    var header := Take(input, 2);
    if header.data.None? || header.data.value[0] != 5 then Served([], None, false, header.rest)
    else
      var methods := Take(header.rest, header.data.value[1]);
      if methods.data.None? then Served([], None, false, methods.rest)
      else
        var r := ServeRequest(methods.rest, connects);
        r.(out := CHOICE + r.out)
  }

  function ServeRequest(input: seq<Byte>, connects: Target -> bool): Served {
    var req := Take(input, 4);
    if req.data.None? || req.data.value[0] != 5 then Served([], None, false, req.rest)
    else if req.data.value[1] != 1 then Served(Reply(7), None, false, req.rest)
    else
      var p := ParseTarget(req.rest, req.data.value[3]);
      if p.target.None? then Served(Reply(8), None, false, p.rest)
      else if !connects(p.target.value) then Served(Reply(1), p.target, false, p.rest)
      else Served(Reply(0), p.target, true, p.rest)
  }

  // ----- the dialler -----

  datatype Dialed = Dialed(out: seq<Byte>, ok: bool, rest: seq<Byte>)

  function Dial(t: Target, input: seq<Byte>): Dialed {
    var choice := Take(input, 2);
    if choice.data != Some(CHOICE) then Dialed(GREETING, false, choice.rest)
    else if Request(t).None? then Dialed(GREETING, false, choice.rest)
    else
      var r := ReadReply(choice.rest);
      Dialed(GREETING + Request(t).value, r.ok, r.rest)
  }

  datatype ReplyRead = ReplyRead(ok: bool, rest: seq<Byte>)

  function ReadReply(input: seq<Byte>): ReplyRead {
    var resp := Take(input, 4);
    if resp.data.None? || resp.data.value[0] != 5 || resp.data.value[1] != 0 then ReplyRead(false, resp.rest)
    else ReadBound(resp.rest, resp.data.value[3])
  }

  /** The bound address is read and thrown away. */
  function ReadBound(input: seq<Byte>, atyp: Byte): ReplyRead {
    if atyp == 1 then var b := Take(input, 6); ReplyRead(b.data.Some?, b.rest)
    else if atyp == 3 then
      var l := Take(input, 1);
      if l.data.None? then ReplyRead(false, l.rest)
      else var b := Take(l.rest, l.data.value[0] as int + 2); ReplyRead(b.data.Some?, b.rest)
    else if atyp == 4 then var b := Take(input, 18); ReplyRead(b.data.Some?, b.rest)
    else ReplyRead(false, input)
  }

  // ----- agreement -----

  lemma TakeExact(a: seq<Byte>, b: seq<Byte>)
    ensures Take(a + b, |a|) == Taken(Some(a), b)
  {
    assert (a + b)[..|a|] == a && (a + b)[|a|..] == b;
  }

  /** Targets the listener takes as they are asked for. */
  predicate Askable(t: Target) {
    && 1 <= t.port <= 65535
    && match t.addr
       case IPv4(b) => |b| == 4
       case IPv6(b) => |b| == 16
       case Domain(b) => 1 <= |b| <= 255
  }

  lemma ParsePortExact(a: Addr, port: int, rest: seq<Byte>)
    requires 0 <= port < 65536
    ensures ParsePort(a, PortBytes(port) + rest) == ParsedTarget(if port == 0 then None
      else Some(Target(Normal(a), port)), rest)
  {
    TakeExact(PortBytes(port), rest);
  }

  lemma ParseHostExact(t: Target, rest: seq<Byte>)
    requires Askable(t)
    ensures ParseHost(AddrBytes(t.addr)[1..] + rest, AddrBytes(t.addr)[0]) == ParsedHost(Some(t.addr), rest)
  {
    var b := t.addr.bytes;
    TakeExact(b, rest);
    if t.addr.Domain? {
      assert AddrBytes(t.addr)[1..] + rest == [|b|] + (b + rest);
      TakeExact([|b|], b + rest);
    } else {
      assert AddrBytes(t.addr)[1..] == b;
    }
  }

  /** `input` is address `t.addr` of type `atyp`, then port `t.port`, then `rest`. */
  ghost predicate Encodes(t: Target, input: seq<Byte>, atyp: Byte, rest: seq<Byte>)
    requires Askable(t)
  {
    atyp == AddrBytes(t.addr)[0] && input == AddrBytes(t.addr)[1..] + (PortBytes(t.port) + rest)
  }

  /** The listener's parser undoes the encoding and stops right after it. */
  lemma ParseEncoded(t: Target, input: seq<Byte>, atyp: Byte, rest: seq<Byte>)
    requires Askable(t) && Encodes(t, input, atyp, rest)
    ensures ParseTarget(input, atyp) == ParsedTarget(Some(Target(Normal(t.addr), t.port)), rest)
  {
    ParseHostExact(t, PortBytes(t.port) + rest);
    ParsePortExact(t.addr, t.port, rest);
  }

  lemma ParsedPort(a: Addr, input: seq<Byte>)
    ensures var p := ParsePort(a, input);
      p.target.Some? ==>
        && 1 <= p.target.value.port <= 65535 && p.target.value.addr == Normal(a)
        && input == PortBytes(p.target.value.port) + p.rest
  {
    if |input| >= 2 {
      var port := input[0] as int * 256 + input[1] as int;
      assert port / 256 == input[0] && port % 256 == input[1];
      assert input == [input[0], input[1]] + input[2..];
    }
  }

  lemma ParsedHostIsEncoded(input: seq<Byte>, atyp: Byte)
    ensures var h := ParseHost(input, atyp);
      h.addr.Some? ==>
        && Askable(Target(h.addr.value, 1)) && atyp == AddrBytes(h.addr.value)[0]
        && input == AddrBytes(h.addr.value)[1..] + h.rest
  {
    var h := ParseHost(input, atyp);
    if h.addr.Some? {
      var b := h.addr.value.bytes;
      if atyp == 3 {
        ParsedDomain(input, b, h.rest);
      } else {
        assert AddrBytes(h.addr.value)[1..] == b;
      }
    }
  }

  lemma ParsedDomain(input: seq<Byte>, b: seq<Byte>, rest: seq<Byte>)
    requires |input| > 0 && |b| == input[0] && input[1..] == b + rest
    ensures input == AddrBytes(Domain(b))[1..] + rest
  {
    assert AddrBytes(Domain(b))[1..] == [input[0]] + b;
    assert input == [input[0]] + input[1..];
  }

  /** The listener's parser accepts nothing but encodings of targets that can be asked for. */
  lemma ParsedIsEncoded(input: seq<Byte>, atyp: Byte)
    ensures var p := ParseTarget(input, atyp);
      p.target.Some? ==>
        exists t :: Askable(t) && Encodes(t, input, atyp, p.rest) && p.target.value == Target(Normal(t.addr), t.port)
  {
    var p, h := ParseTarget(input, atyp), ParseHost(input, atyp);
    if p.target.Some? {
      ParsedHostIsEncoded(input, atyp);
      ParsedPort(h.addr.value, h.rest);
      assert Encodes(Target(h.addr.value, p.target.value.port), input, atyp, p.rest);
    }
  }

  lemma NormalIsAskable(t: Target)
    requires Askable(t)
    ensures Askable(Target(Normal(t.addr), t.port)) && Normal(Normal(t.addr)) == Normal(t.addr)
    ensures Request(t).Some?
  {
  }

  lemma PastGreeting(input: seq<Byte>, connects: Target -> bool)
    ensures var r := ServeRequest(input, connects);
      Serve(GREETING + input, connects) == r.(out := CHOICE + r.out)
  {
    assert GREETING + input == [5, 1] + ([0] + input);
    TakeExact([5, 1], [0] + input);
    TakeExact([0], input);
  }

  lemma PastHeader(atyp: Byte, body: seq<Byte>, connects: Target -> bool)
    ensures var r, p := ServeRequest([5, 1, 0, atyp] + body, connects), ParseTarget(body, atyp);
      && r.rest == p.rest && r.target == p.target
      && r.out == Reply(if p.target.None? then 8 else if connects(p.target.value) then 0 else 1)
      && r.ready == (p.target.Some? && connects(p.target.value))
  {
    TakeExact([5, 1, 0, atyp], body);
  }

  /** Given the dialler's greeting and request, the listener answers both, sees exactly
      the target asked for, and leaves the payload alone. */
  lemma ListenerUnderstands(t: Target, payload: seq<Byte>, connects: Target -> bool)
    requires Askable(t)
    ensures Request(t).Some?
    ensures var n := Target(Normal(t.addr), t.port);
      Serve(GREETING + Request(t).value + payload, connects) ==
        Served(CHOICE + Reply(if connects(n) then 0 else 1), Some(n), connects(n), payload)
  {
    NormalIsAskable(t);
    var n := Target(Normal(t.addr), t.port);
    var a, p := AddrBytes(n.addr), PortBytes(t.port);
    var body := a[1..] + (p + payload);
    var request := [5, 1, 0, a[0]] + body;
    assert Request(t).value + payload == request;
    assert GREETING + Request(t).value + payload == GREETING + request;
    PastGreeting(request, connects);
    PastHeader(a[0], body, connects);
    ParseEncoded(n, body, a[0], payload);
  }

  lemma PastChoice(t: Target, code: Byte, payload: seq<Byte>)
    requires Request(t).Some?
    ensures var d := Dial(t, CHOICE + Reply(code) + payload);
      d.out == GREETING + Request(t).value && d.ok == (code == 0) && (code == 0 ==> d.rest == payload)
  {
    var head, bound: seq<Byte> := [5, code, 0, 1], [0, 0, 0, 0, 0, 0];
    assert CHOICE + Reply(code) + payload == CHOICE + (head + (bound + payload));
    TakeExact(CHOICE, head + (bound + payload));
    TakeExact(head, bound + payload);
    TakeExact(bound, payload);
  }

  /** Given the listener's success answer, the dialler succeeds and leaves the payload
      alone; given the failure answer, it fails. */
  lemma DiallerUnderstands(t: Target, code: Byte, payload: seq<Byte>)
    requires Askable(t)
    ensures Request(t).Some?
    ensures code == 0 ==> Dial(t, CHOICE + Reply(code) + payload) == Dialed(GREETING + Request(t).value, true, payload)
    ensures code != 0 ==> !Dial(t, CHOICE + Reply(code) + payload).ok
  {
    NormalIsAskable(t);
    PastChoice(t, code, payload);
  }

  /** Neither side waits for anything but the other's previous message. */
  lemma ServeAnswersGreeting(input: seq<Byte>, connects: Target -> bool)
    requires GREETING <= input
    ensures CHOICE <= Serve(input, connects).out
  {
    assert input == GREETING + input[3..];
    PastGreeting(input[3..], connects);
  }

  lemma DialAnswersChoice(t: Target, input: seq<Byte>)
    ensures GREETING <= Dial(t, input).out
    ensures CHOICE <= input && Request(t).Some? ==> Dial(t, input).out == GREETING + Request(t).value
  {
    if CHOICE <= input {
      assert input == CHOICE + input[2..];
      TakeExact(CHOICE, input[2..]);
    }
  }

  /** The two ends joined: `c` and `s` are all bytes ever sent each way, where each
      side has answered everything it received and adds its payload once it is
      through. SocksWire delivers piece by piece and always ends here. */
  ghost predicate Quiescent(t: Target, connects: Target -> bool, up: seq<Byte>, down: seq<Byte>, c: seq<Byte>,
                            s: seq<Byte>) {
    && c == Dial(t, s).out + (if Dial(t, s).ok then up else [])
    && s == Serve(c, connects).out + (if Serve(c, connects).ready then down else [])
  }

  /** Every conversation that comes to rest is complete: no deadlock, the listener
      connects to exactly the target asked for, and both payloads arrive untouched. */
  lemma HandshakeAgrees(t: Target, connects: Target -> bool, up: seq<Byte>, down: seq<Byte>, c: seq<Byte>, s: seq<Byte>)
    requires Askable(t) && connects(Target(Normal(t.addr), t.port)) && Quiescent(t, connects, up, down, c, s)
    ensures Dial(t, s).ok && Serve(c, connects).ready
    ensures Serve(c, connects).target == Some(Target(Normal(t.addr), t.port))
    ensures Serve(c, connects).rest == up && Dial(t, s).rest == down
  {
    NormalIsAskable(t);
    DialAnswersChoice(t, s);
    assert c[..3] == GREETING;
    ServeAnswersGreeting(c, connects);
    assert CHOICE <= s;
    var extra := if Dial(t, s).ok then up else [];
    assert c == GREETING + Request(t).value + extra;
    ListenerUnderstands(t, extra, connects);
    assert s == CHOICE + Reply(0) + down;
    DiallerUnderstands(t, 0, down);
  }

  /** And such a conversation exists. */
  lemma HandshakeCompletes(t: Target, connects: Target -> bool, up: seq<Byte>, down: seq<Byte>)
    requires Askable(t) && connects(Target(Normal(t.addr), t.port))
    ensures Request(t).Some?
    ensures Quiescent(t, connects, up, down, GREETING + Request(t).value + up, CHOICE + Reply(0) + down)
  {
    ListenerUnderstands(t, up, connects);
    DiallerUnderstands(t, 0, down);
  }

  /** The dialler gets through exactly for ports 1 to 65535 and domains of 1 to 255
      bytes that the listener can connect. */
  lemma HandshakeSucceedsIff(t: Target, connects: Target -> bool, c: seq<Byte>, s: seq<Byte>)
    requires Valid(t.addr) && Quiescent(t, connects, [], [], c, s)
    ensures Dial(t, s).ok <==> Askable(t) && connects(Target(Normal(t.addr), t.port))
  {
    DialAnswersChoice(t, s);
    assert c[..3] == GREETING;
    ServeAnswersGreeting(c, connects);
    assert CHOICE <= s;
    if Request(t).None? {
      assert s == CHOICE + s[2..];
      TakeExact(CHOICE, s[2..]);
    } else if Askable(t) {
      assert c == GREETING + Request(t).value + [];
      ListenerUnderstands(t, [], connects);
      assert s == CHOICE + Reply(if connects(Target(Normal(t.addr), t.port)) then 0 else 1) + [];
      DiallerUnderstands(t, if connects(Target(Normal(t.addr), t.port)) then 0 else 1, []);
    } else {
      EmptyDomainRefused(t, connects, c, s);
    }
  }

  /** An empty domain can be asked for but is answered with reply 8. */
  lemma EmptyDomainRefused(t: Target, connects: Target -> bool, c: seq<Byte>, s: seq<Byte>)
    requires t.addr == Domain([]) && 1 <= t.port <= 65535
    requires c == GREETING + Request(t).value && s == Serve(c, connects).out
    ensures !Dial(t, s).ok
  {
    var body := [0] + PortBytes(t.port);
    assert Request(t).value == [5, 1, 0, 3] + body;
    PastGreeting([5, 1, 0, 3] + body, connects);
    PastHeader(3, body, connects);
    TakeExact([0], PortBytes(t.port));
    assert s == CHOICE + Reply(8) + [];
    PastChoice(t, 8, []);
  }

  // ----- everything else a peer may send -----

  /** Commands other than CONNECT are answered with reply 7, and nothing more is read. */
  lemma OtherCommandRefused(cmd: Byte, rsv: Byte, atyp: Byte, body: seq<Byte>, connects: Target -> bool)
    requires cmd != 1
    ensures Serve([5, 1, 0] + ([5, cmd, rsv, atyp] + body), connects)
      == Served([5, 0] + [5, 7, 0, 1, 0, 0, 0, 0, 0, 0], None, false, body)
  {
    PastGreeting([5, cmd, rsv, atyp] + body, connects);
    TakeExact([5, cmd, rsv, atyp], body);
  }

  /** Address types other than 1, 3 and 4 are answered with reply 8. */
  lemma OtherAddressRefused(rsv: Byte, atyp: Byte, body: seq<Byte>, connects: Target -> bool)
    requires atyp !in {1, 3, 4}
    ensures Serve([5, 1, 0] + ([5, 1, rsv, atyp] + body), connects)
      == Served([5, 0] + [5, 8, 0, 1, 0, 0, 0, 0, 0, 0], None, false, body)
  {
    PastGreeting([5, 1, rsv, atyp] + body, connects);
    TakeExact([5, 1, rsv, atyp], body);
  }

  /** Port 0 is answered with reply 8. */
  lemma PortZeroRefused(a: Addr, body: seq<Byte>, connects: Target -> bool)
    requires Askable(Target(a, 1))
    ensures Serve([5, 1, 0] + ([5, 1, 0, AddrBytes(a)[0]] + (AddrBytes(a)[1..] + ([0, 0] + body))), connects)
      == Served([5, 0] + [5, 8, 0, 1, 0, 0, 0, 0, 0, 0], None, false, body)
  {
    var b := AddrBytes(a);
    PastGreeting([5, 1, 0, b[0]] + (b[1..] + ([0, 0] + body)), connects);
    PastHeader(b[0], b[1..] + ([0, 0] + body), connects);
    ParseHostExact(Target(a, 1), [0, 0] + body);
    TakeExact([0, 0], body);
  }

  /** A greeting or a request of another version ends the conversation without an answer. */
  lemma OtherVersionIgnored(version: Byte, x: Byte, y: Byte, z: Byte, rest: seq<Byte>, connects: Target -> bool)
    requires version != 5
    ensures Serve([version, x] + rest, connects) == Served([], None, false, rest)
    ensures Serve([5, 1, 0] + ([version, x, y, z] + rest), connects) == Served([5, 0], None, false, rest)
  {
    TakeExact([version, x], rest);
    PastGreeting([version, x, y, z] + rest, connects);
    TakeExact([version, x, y, z], rest);
    assert CHOICE + [] == CHOICE;
  }

  /** Any list of methods is skipped and answered with "no authentication". */
  lemma MethodsAreSkipped(methods: seq<Byte>, rest: seq<Byte>, connects: Target -> bool)
    requires |methods| < 256
    ensures var r := ServeRequest(rest, connects);
      Serve([5, |methods|] + (methods + rest), connects) == r.(out := [5, 0] + r.out)
  {
    TakeExact([5, |methods|], methods + rest);
    TakeExact(methods, rest);
  }

  /** An IPv4 address in IPv6 clothing is that IPv4 address; all others stay. */
  lemma NormalMeans(a: Addr, b: seq<Byte>)
    requires Valid(a) && |b| == 4
    ensures a == IPv6([0, 0, 0, 0, 0, 0, 0, 0, 0, 0, 255, 255] + b) ==> Normal(a) == IPv4(b)
    ensures (forall c: seq<Byte> :: |c| == 4 ==> a != IPv6([0, 0, 0, 0, 0, 0, 0, 0, 0, 0, 255, 255] + c)) ==>
      Normal(a) == a
  {
    if a.IPv6? && Mapped(a.bytes) {
      assert a.bytes == [0, 0, 0, 0, 0, 0, 0, 0, 0, 0, 255, 255] + a.bytes[12..];
    }
  }

  /** The bytes of a request: version, CONNECT, zero, address type, address, port. */
  lemma RequestMeans(t: Target)
    requires Askable(t) && Normal(t.addr) == t.addr
    ensures Request(t) == Some([5, 1, 0] +
      (match t.addr case IPv4(b) => [1] + b case Domain(b) => [3, |b|] + b case IPv6(b) => [4] + b) +
      [t.port / 256, t.port % 256])
  {
  }

  /** The bound address of the given type is what the dialler skips: 4 or 16 bytes, or a
      length and as many, and then a port. */
  predicate BoundAddress(atyp: Byte, bound: seq<Byte>) {
    || (atyp == 1 && |bound| == 6)
    || (atyp == 3 && |bound| > 0 && |bound| == bound[0] as int + 3)
    || (atyp == 4 && |bound| == 18)
  }

  /** Whatever address the success reply carries, the dialler stops right after it. */
  lemma DiallerSkipsBound(t: Target, rsv: Byte, atyp: Byte, bound: seq<Byte>, payload: seq<Byte>)
    requires Request(t).Some? && BoundAddress(atyp, bound)
    ensures Dial(t, [5, 0] + ([5, 0, rsv, atyp] + (bound + payload)))
      == Dialed([5, 1, 0] + Request(t).value, true, payload)
  {
    TakeExact([5, 0], [5, 0, rsv, atyp] + (bound + payload));
    TakeExact([5, 0, rsv, atyp], bound + payload);
    BoundIsSkipped(atyp, bound, payload);
  }

  lemma BoundIsSkipped(atyp: Byte, bound: seq<Byte>, payload: seq<Byte>)
    requires BoundAddress(atyp, bound)
    ensures ReadBound(bound + payload, atyp) == ReplyRead(true, payload)
  {
    TakeExact(bound, payload);
    if atyp == 3 {
      assert bound + payload == [bound[0]] + (bound[1..] + payload);
      TakeExact([bound[0]], bound[1..] + payload);
      TakeExact(bound[1..], payload);
    }
  }

  /** A success reply with an unknown address type fails. */
  lemma OtherBoundFails(t: Target, rsv: Byte, atyp: Byte, rest: seq<Byte>)
    requires Request(t).Some? && atyp !in {1, 3, 4}
    ensures Dial(t, [5, 0] + ([5, 0, rsv, atyp] + rest)) == Dialed([5, 1, 0] + Request(t).value, false, rest)
  {
    TakeExact([5, 0], [5, 0, rsv, atyp] + rest);
    TakeExact([5, 0, rsv, atyp], rest);
  }

  /** A method choice other than "no authentication" fails before anything is asked. */
  lemma OtherChoiceFails(t: Target, version: Byte, choice: Byte, rest: seq<Byte>)
    requires version != 5 || choice != 0
    ensures Dial(t, [version, choice] + rest) == Dialed([5, 1, 0], false, rest)
  {
    TakeExact([version, choice], rest);
    assert [version, choice][0] == version && [version, choice][1] == choice;
  }

  /** So does any reply that is not a success. */
  lemma OtherReplyFails(t: Target, version: Byte, code: Byte, rsv: Byte, atyp: Byte, rest: seq<Byte>)
    requires Request(t).Some? && (version != 5 || code != 0)
    ensures Dial(t, [5, 0] + ([version, code, rsv, atyp] + rest)) == Dialed([5, 1, 0] + Request(t).value, false, rest)
  {
    TakeExact([5, 0], [version, code, rsv, atyp] + rest);
    TakeExact([version, code, rsv, atyp], rest);
  }

  // ----- the same on a fragmented connection -----

  function Flatten(chunks: seq<seq<Byte>>): seq<Byte> {
    if chunks == [] then [] else chunks[0] + Flatten(chunks[1..])
  }

  /** Moving `k` bytes from the front piece to the buffer loses and reorders nothing. */
  lemma Advance(buf: seq<Byte>, chunks: seq<seq<Byte>>, k: nat)
    requires |chunks| > 0 && k <= |chunks[0]|
    ensures buf + chunks[0][..k] + Flatten([chunks[0][k..]] + chunks[1..]) == buf + Flatten(chunks)
    ensures k == |chunks[0]| ==> buf + chunks[0][..k] + Flatten(chunks[1..]) == buf + Flatten(chunks)
  {
    var cut := [chunks[0][k..]] + chunks[1..];
    assert cut[1..] == chunks[1..];
    assert chunks[0] == chunks[0][..k] + chunks[0][k..];
  }

  /** One end of a connection: what will still arrive, in the pieces the network
      makes of it, and what was written so far. */
  class Conn {
    var chunks: seq<seq<Byte>>
    var sent: seq<Byte>

    function Unread(): seq<Byte>
      reads this
    {
      Flatten(chunks)
    }

    /** Collects exactly `n` bytes across pieces, or fails at the end of the stream. */
    method ReadFull(n: nat) returns (data: Option<seq<Byte>>)
      modifies this`chunks
      ensures Taken(data, Unread()) == Take(old(Unread()), n)
    {
      var buf: seq<Byte> := [];
      while |buf| < n && |chunks| > 0
        invariant |buf| <= n && buf + Unread() == old(Unread())
        decreases n - |buf|, |chunks|
      {
        var piece := chunks[0];
        var k := if |piece| <= n - |buf| then |piece| else n - |buf|;
        Advance(buf, chunks, k);
        buf := buf + piece[..k];
        chunks := if k == |piece| then chunks[1..] else [piece[k..]] + chunks[1..];
      }
      if |buf| < n {
        return None;
      }
      assert old(Unread())[..n] == buf && old(Unread())[n..] == Unread();
      return Some(buf);
    }

    method Write(data: seq<Byte>)
      modifies this`sent
      ensures sent == old(sent) + data
    {
      sent := sent + data;
    }
  }

  method ReadHost(conn: Conn, atyp: Byte) returns (host: Option<Addr>)
    modifies conn`chunks
    ensures ParsedHost(host, conn.Unread()) == ParseHost(old(conn.Unread()), atyp)
  {
    if atyp == 1 {
      var buf := conn.ReadFull(4);
      if buf.None? { return None; }
      return Some(IPv4(buf.value));
    } else if atyp == 3 {
      var lenBuf := conn.ReadFull(1);
      if lenBuf.None? { return None; }
      if lenBuf.value[0] == 0 { return None; }
      var buf := conn.ReadFull(lenBuf.value[0]);
      if buf.None? { return None; }
      return Some(Domain(buf.value));
    } else if atyp == 4 {
      var buf := conn.ReadFull(16);
      if buf.None? { return None; }
      return Some(IPv6(buf.value));
    }
    return None;
  }

  method ParseSocksTarget(conn: Conn, atyp: Byte) returns (target: Option<Target>)
    modifies conn`chunks
    ensures ParsedTarget(target, conn.Unread()) == ParseTarget(old(conn.Unread()), atyp)
  {
    var host := ReadHost(conn, atyp);
    if host.None? { return None; }
    var portBuf := conn.ReadFull(2);
    if portBuf.None? { return None; }
    var port := portBuf.value[0] as int * 256 + portBuf.value[1] as int;
    if port == 0 { return None; }
    return Some(Target(Normal(host.value), port));
  }

  /** The listener's side of the handshake on a connection. */
  method HandleSocksConn(conn: Conn, connects: Target -> bool) returns (target: Option<Target>, ready: bool)
    modifies conn
    ensures var r := Serve(old(conn.Unread()), connects);
      conn.sent == old(conn.sent) + r.out && target == r.target && ready == r.ready && conn.Unread() == r.rest
  {
    target, ready := None, false;
    var header := conn.ReadFull(2);
    if header.None? { return; }
    if header.value[0] != 5 { return; }
    var methods := conn.ReadFull(header.value[1]);
    if methods.None? { return; }
    conn.Write(CHOICE);
    target, ready := HandleRequest(conn, connects);
  }

  method HandleRequest(conn: Conn, connects: Target -> bool) returns (target: Option<Target>, ready: bool)
    modifies conn
    ensures var r := ServeRequest(old(conn.Unread()), connects);
      conn.sent == old(conn.sent) + r.out && target == r.target && ready == r.ready && conn.Unread() == r.rest
  {
    target, ready := None, false;
    var req := conn.ReadFull(4);
    if req.None? { return; }
    if req.value[0] != 5 { return; }
    if req.value[1] != 1 {
      conn.Write(Reply(7));
      return;
    }
    target := ParseSocksTarget(conn, req.value[3]);
    if target.None? {
      conn.Write(Reply(8));
      return;
    }
    if !connects(target.value) {
      conn.Write(Reply(1));
      return;
    }
    conn.Write(Reply(0));
    ready := true;
  }

  /** The dialler's side of the handshake on a connection. */
  method Socks5Dial(conn: Conn, t: Target) returns (ok: bool)
    modifies conn
    ensures var r := Dial(t, old(conn.Unread()));
      conn.sent == old(conn.sent) + r.out && ok == r.ok && conn.Unread() == r.rest
  {
    conn.Write(GREETING);
    var buf := conn.ReadFull(2);
    if buf.None? { return false; }
    IsChoice(buf.value);
    if buf.value[0] != 5 || buf.value[1] != 0 { return false; }
    ghost var unread := conn.Unread();
    assert Take(old(conn.Unread()), 2) == Taken(Some(CHOICE), unread);
    ok := AskFor(conn, t);
    if Request(t).Some? {
      assert old(conn.sent) + GREETING + Request(t).value == old(conn.sent) + (GREETING + Request(t).value);
    }
  }

  lemma IsChoice(buf: seq<Byte>)
    requires |buf| == 2
    ensures buf == CHOICE <==> buf[0] == 5 && buf[1] == 0
  {
  }

  /** The second half of the dialler: the request, if there is one, and its reply. */
  method AskFor(conn: Conn, t: Target) returns (ok: bool)
    modifies conn
    ensures Request(t).None? ==> !ok && conn.sent == old(conn.sent) && conn.Unread() == old(conn.Unread())
    ensures Request(t).Some? ==>
      conn.sent == old(conn.sent) + Request(t).value && ReplyRead(ok, conn.Unread()) == ReadReply(old(conn.Unread()))
  {
    var req := Request(t);
    if req.None? { return false; }
    conn.Write(req.value);
    ok := ReadConnectReply(conn);
  }

  method ReadConnectReply(conn: Conn) returns (ok: bool)
    modifies conn`chunks
    ensures ReplyRead(ok, conn.Unread()) == ReadReply(old(conn.Unread()))
  {
    var resp := conn.ReadFull(4);
    if resp.None? { return false; }
    if resp.value[0] != 5 || resp.value[1] != 0 { return false; }
    if resp.value[3] == 1 {
      var rest := conn.ReadFull(6);
      return rest.Some?;
    } else if resp.value[3] == 3 {
      var lenByte := conn.ReadFull(1);
      if lenByte.None? { return false; }
      var rest := conn.ReadFull(lenByte.value[0] as int + 2);
      return rest.Some?;
    } else if resp.value[3] == 4 {
      var rest := conn.ReadFull(18);
      return rest.Some?;
    }
    return false;
  }
}
