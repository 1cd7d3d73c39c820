/** Dialler and listener on one connection, byte by byte: every way of cutting and
    timing the deliveries ends in the complete handshake. */
module SocksWire {
  import opened Base
  import opened Socks

  /** The address or port of a request has not arrived in full. */
  predicate TargetShort(input: seq<Byte>, atyp: Byte) {
    if atyp == 1 then |input| < 6
    else if atyp == 3 then |input| < 1 || (input[0] != 0 && |input| < input[0] as int + 3)
    else if atyp == 4 then |input| < 18
    else false
  }

  predicate GreetingShort(input: seq<Byte>) {
    |input| < 2 || (input[0] == 5 && |input| < 2 + input[1] as int)
  }

  predicate RequestShort(input: seq<Byte>) {
    |input| < 4 || (input[0] == 5 && input[1] == 1 && TargetShort(input[4..], input[3]))
  }

  /** The listener has read all of `input`, an open stream, and waits for more. */
  predicate Blocked(input: seq<Byte>) {
    GreetingShort(input) || (input[0] == 5 && RequestShort(input[2 + input[1]..]))
  }

  /** If the stream ends while the listener waits, a cut greeting or request header goes
      unanswered and a cut target gets reply 8; the listener is never ready. */
  lemma EndOfStreamMeans(input: seq<Byte>, connects: Target -> bool)
    requires Blocked(input)
    ensures var r := Serve(input, connects);
      && !r.ready && r.target == None
      && (GreetingShort(input) ==> r.out == [])
      && (!GreetingShort(input) ==>
            r.out == [5, 0] + if |input| < 2 + input[1] as int + 4 then [] else [5, 8, 0, 1, 0, 0, 0, 0, 0, 0])
  {
    if !GreetingShort(input) {
      var request := input[2..][input[1]..];
      assert request == input[2 + input[1]..];
      if |request| >= 4 { ShortTargetFails(request[4..], request[3]); }
    }
  }

  lemma ShortTargetFails(input: seq<Byte>, atyp: Byte)
    requires TargetShort(input, atyp)
    ensures ParseTarget(input, atyp).target == None
  {
  }

  /** A listener that is not blocked has decided: more input only lengthens what it
      leaves unread. */
  lemma UnblockedIsFinal(input: seq<Byte>, more: seq<Byte>, connects: Target -> bool)
    requires !Blocked(input)
    ensures var r := Serve(input, connects); Serve(input + more, connects) == r.(rest := r.rest + more)
  {
    TakeMore(input, more, 2);
    if input[0] == 5 {
      TakeMore(input[2..], more, input[1]);
      assert input[2..][input[1]..] == input[2 + input[1]..];
      RequestIsFinal(input[2 + input[1]..], more, connects);
    }
  }

  lemma RequestIsFinal(input: seq<Byte>, more: seq<Byte>, connects: Target -> bool)
    requires !RequestShort(input)
    ensures var r := ServeRequest(input, connects); ServeRequest(input + more, connects) == r.(rest := r.rest + more)
  {
    TakeMore(input, more, 4);
    if input[0] == 5 && input[1] == 1 { TargetIsFinal(input[4..], more, input[3]); }
  }

  lemma TakeMore(input: seq<Byte>, more: seq<Byte>, n: nat)
    requires n <= |input|
    ensures Take(input + more, n) == Taken(Some(input[..n]), input[n..] + more)
  {
    assert (input + more)[..n] == input[..n] && (input + more)[n..] == input[n..] + more;
  }

  lemma TargetIsFinal(input: seq<Byte>, more: seq<Byte>, atyp: Byte)
    requires !TargetShort(input, atyp)
    ensures var p := ParseTarget(input, atyp); ParseTarget(input + more, atyp) == p.(rest := p.rest + more)
  {
    if atyp == 1 || atyp == 4 {
      var n := if atyp == 1 then 4 else 16;
      TakeMore(input, more, n);
      TakeMore(input[n..], more, 2);
    } else if atyp == 3 {
      TakeMore(input, more, 1);
      if input[0] != 0 {
        TakeMore(input[1..], more, input[0]);
        TakeMore(input[1..][input[0]..], more, 2);
      }
    }
  }

  /** All the listener has sent once `input` has arrived and the stream is still open;
      `down` is its payload. */
  function ListenerSent(input: seq<Byte>, connects: Target -> bool, down: seq<Byte>): seq<Byte> {
    if GreetingShort(input) then []
    else if Blocked(input) then CHOICE
    else Serve(input, connects).out + if Serve(input, connects).ready then down else []
  }

  /** The same for the dialler, which writes nothing while it waits for a reply. */
  function DiallerSent(t: Target, input: seq<Byte>, up: seq<Byte>): seq<Byte> {
    Dial(t, input).out + if Dial(t, input).ok then up else []
  }

  /** `c` and `s` were sent by the dialler and by the listener; the first `i` and `j`
      bytes of them have arrived. */
  datatype Wire = Wire(c: seq<Byte>, s: seq<Byte>, i: nat, j: nat)

  /** The parameters of one conversation. */
  datatype Talk = Talk(t: Target, connects: Target -> bool, up: seq<Byte>, down: seq<Byte>)

  function Begin(k: Talk): Wire {
    Wire(DiallerSent(k.t, [], k.up), ListenerSent([], k.connects, k.down), 0, 0)
  }

  /** Some more bytes arrive at one end, which reads them and sends what it can. */
  ghost predicate Delivers(k: Talk, w: Wire, w': Wire) {
    || (w.i < w'.i <= |w.c| && w' == w.(i := w'.i, s := ListenerSent(w.c[..w'.i], k.connects, k.down)))
    || (w.j < w'.j <= |w.s| && w' == w.(j := w'.j, c := DiallerSent(k.t, w.s[..w'.j], k.up)))
  }

  ghost predicate Deliveries(k: Talk, run: seq<Wire>) {
    && run != [] && run[0] == Begin(k)
    && forall n :: 0 <= n < |run| - 1 ==> Delivers(k, run[n], run[n + 1])
  }

  ghost predicate Accepted(k: Talk) {
    Askable(k.t) && k.connects(Target(Normal(k.t.addr), k.t.port))
  }

  // ----- what is sent at each point of a conversation -----

  /** All the dialler sends before its payload; only the greeting when the target cannot
      be asked for. */
  function ClientSide(k: Talk): seq<Byte> {
    if Request(k.t).Some? then GREETING + Request(k.t).value else GREETING
  }

  /** The reply a complete request gets. */
  ghost function Code(k: Talk): Byte {
    if Accepted(k) then 0 else if Askable(k.t) then 1 else 8
  }

  /** All the listener sends before its payload. */
  ghost function ServerSide(k: Talk): seq<Byte> {
    if Request(k.t).Some? then CHOICE + Reply(Code(k)) else CHOICE
  }

  ghost function Up(k: Talk): seq<Byte> {
    if Accepted(k) then k.up else []
  }

  ghost function Down(k: Talk): seq<Byte> {
    if Accepted(k) then k.down else []
  }

  /** How many bytes the listener needs before it replies: an empty domain is refused
      at its length byte. */
  ghost function Needed(k: Talk): nat {
    if Askable(k.t) then |ClientSide(k)| else 8
  }

  ghost function ClientAt(k: Talk, j: nat): seq<Byte> {
    if j < 2 then GREETING else if j < 12 then ClientSide(k) else ClientSide(k) + Up(k)
  }

  ghost function ServerAt(k: Talk, i: nat): seq<Byte> {
    if i < 3 then [] else if i < Needed(k) then CHOICE else ServerSide(k) + Down(k)
  }

  /** With a valid address, a target that can be requested but not asked for is an
      empty domain. */
  lemma RequestedOrEmpty(t: Target)
    requires Valid(t.addr)
    ensures Askable(t) ==> Request(t).Some? && |Request(t).value| >= 8
    ensures Request(t).Some? && !Askable(t) ==> t.addr == Domain([]) && 1 <= t.port <= 65535
  {
  }

  lemma DiallerStage(k: Talk, j: nat)
    requires Valid(k.t.addr) && j <= |ServerSide(k) + Down(k)|
    ensures DiallerSent(k.t, (ServerSide(k) + Down(k))[..j], k.up) == ClientAt(k, j)
  {
    var all := ServerSide(k) + Down(k);
    RequestedOrEmpty(k.t);
    if Request(k.t).None? {
      assert all == CHOICE;
    } else if j >= 12 {
      assert all[..j] == CHOICE + Reply(Code(k)) + Down(k)[..j - 12];
      PastChoice(k.t, Code(k), Down(k)[..j - 12]);
    } else if j >= 2 {
      assert all[..j] == CHOICE + Reply(Code(k))[..j - 2];
      ReplyShort(k.t, Code(k), j - 2);
    }
  }

  lemma ReplyShort(t: Target, code: Byte, n: nat)
    requires n < 10 && Request(t).Some?
    ensures var d := Dial(t, CHOICE + Reply(code)[..n]); d.out == GREETING + Request(t).value && !d.ok
  {
    var got := Reply(code)[..n];
    TakeExact(CHOICE, got);
    if n >= 4 {
      assert got == [5, code, 0, 1] + got[4..];
      TakeExact([5, code, 0, 1], got[4..]);
    }
  }

  lemma ListenerStage(k: Talk, i: nat)
    requires Valid(k.t.addr) && i <= |ClientSide(k) + Up(k)|
    ensures ListenerSent((ClientSide(k) + Up(k))[..i], k.connects, k.down) == ServerAt(k, i)
  {
    var all, n := ClientSide(k) + Up(k), |ClientSide(k)|;
    RequestedOrEmpty(k.t);
    if Request(k.t).None? {
      assert all == GREETING + [];
      AfterGreeting([]);
    } else if i >= Needed(k) {
      ListenerReplies(k, i);
    } else if i >= 3 {
      assert all[..i] == GREETING + Request(k.t).value[..i - 3];
      RequestIsShort(k, i - 3);
    }
  }

  lemma ListenerReplies(k: Talk, i: nat)
    requires Valid(k.t.addr) && Request(k.t).Some? && Needed(k) <= i <= |ClientSide(k) + Up(k)|
    ensures ListenerSent((ClientSide(k) + Up(k))[..i], k.connects, k.down) == ServerSide(k) + Down(k)
  {
    var all, n := ClientSide(k) + Up(k), |ClientSide(k)|;
    RequestedOrEmpty(k.t);
    if Askable(k.t) {
      assert all[..i] == ClientSide(k) + Up(k)[..i - n];
      ListenerUnderstands(k.t, Up(k)[..i - n], k.connects);
      RequestIsWhole(k, Up(k)[..i - n]);
    } else {
      var rest := PortBytes(k.t.port)[..i - 8];
      assert all[..i] == GREETING + ([5, 1, 0, 3] + ([0] + rest));
      EmptyDomainReply(rest, k.connects);
    }
  }

  lemma EmptyDomainReply(rest: seq<Byte>, connects: Target -> bool)
    ensures var input := GREETING + ([5, 1, 0, 3] + ([0] + rest));
      !Blocked(input) && !GreetingShort(input)
      && Serve(input, connects).out == CHOICE + Reply(8) && !Serve(input, connects).ready
  {
    var body := [0] + rest;
    AfterGreeting([5, 1, 0, 3] + body);
    HeaderThen(3, body);
    PastGreeting([5, 1, 0, 3] + body, connects);
    PastHeader(3, body, connects);
    TakeExact([0], rest);
  }

  lemma TargetIsWhole(t: Target, rest: seq<Byte>)
    requires Askable(t) && |rest| >= 2
    ensures !TargetShort(AddrBytes(t.addr)[1..] + rest, AddrBytes(t.addr)[0])
  {
  }

  lemma AfterGreeting(input: seq<Byte>)
    ensures !GreetingShort(GREETING + input)
    ensures Blocked(GREETING + input) <==> RequestShort(input)
  {
    assert (GREETING + input)[3..] == input;
  }

  lemma HeaderThen(atyp: Byte, body: seq<Byte>)
    ensures RequestShort([5, 1, 0, atyp] + body) <==> TargetShort(body, atyp)
  {
    assert ([5, 1, 0, atyp] + body)[4..] == body;
  }

  lemma RequestForm(t: Target, more: seq<Byte>)
    requires Askable(t) && Request(t).Some?
    ensures var a := AddrBytes(Normal(t.addr));
      Request(t).value + more == [5, 1, 0, a[0]] + (a[1..] + (PortBytes(t.port) + more))
  {
    var a := AddrBytes(Normal(t.addr));
    assert a == [a[0]] + a[1..];
  }

  lemma RequestIsWhole(k: Talk, more: seq<Byte>)
    requires Askable(k.t) && Request(k.t).Some?
    ensures !Blocked(ClientSide(k) + more) && !GreetingShort(ClientSide(k) + more)
  {
    NormalIsAskable(k.t);
    var n := Target(Normal(k.t.addr), k.t.port);
    var a, rest := AddrBytes(n.addr), PortBytes(n.port) + more;
    TargetIsWhole(n, rest);
    RequestForm(k.t, more);
    HeaderThen(a[0], a[1..] + rest);
    AfterGreeting(Request(k.t).value + more);
    assert ClientSide(k) + more == GREETING + (Request(k.t).value + more);
  }

  lemma RequestIsShort(k: Talk, n: nat)
    requires Valid(k.t.addr) && Request(k.t).Some? && n < Needed(k) - 3
    ensures n <= |Request(k.t).value|
    ensures var input := GREETING + Request(k.t).value[..n]; Blocked(input) && !GreetingShort(input)
  {
    var r := Request(k.t).value;
    RequestedOrEmpty(k.t);
    if Askable(k.t) { NormalIsAskable(k.t); }
    AfterGreeting(r[..n]);
    if n >= 4 {
      assert r[..n][4..] == r[4..n];
    }
  }

  // ----- every run -----

  /** Each end has sent what the bytes arrived so far call for. */
  ghost predicate OnTrack(k: Talk, w: Wire) {
    && w.c == ClientAt(k, w.j) && w.s == ServerAt(k, w.i)
    && w.i <= |w.c| && w.j <= |w.s|
  }

  lemma ClientIsPrefix(k: Talk, j: nat)
    ensures ClientAt(k, j) <= ClientSide(k) + Up(k)
  {
    assert ClientSide(k)[..3] == GREETING;
  }

  lemma ServerIsPrefix(k: Talk, i: nat)
    ensures ServerAt(k, i) <= ServerSide(k) + Down(k)
  {
    assert ServerSide(k)[..2] == CHOICE;
  }

  lemma SidesGrow(k: Talk, w: Wire)
    requires OnTrack(k, w)
    ensures w.c <= ClientSide(k) + Up(k) && w.s <= ServerSide(k) + Down(k)
  {
    ClientIsPrefix(k, w.j);
    ServerIsPrefix(k, w.i);
  }

  lemma DeliveryStaysOnTrack(k: Talk, w: Wire, w': Wire)
    requires Valid(k.t.addr) && OnTrack(k, w) && Delivers(k, w, w')
    ensures OnTrack(k, w') && w.c <= w'.c && w.s <= w'.s && w.i + w.j < w'.i + w'.j
  {
    SidesGrow(k, w);
    if w.i < w'.i {
      assert w.c[..w'.i] == (ClientSide(k) + Up(k))[..w'.i];
      ListenerStage(k, w'.i);
      ServerGrows(k, w.i, w'.i);
    } else {
      assert w.s[..w'.j] == (ServerSide(k) + Down(k))[..w'.j];
      DiallerStage(k, w'.j);
      ClientGrows(k, w.j, w'.j);
    }
  }

  lemma ServerGrows(k: Talk, i: nat, i': nat)
    requires i <= i'
    ensures ServerAt(k, i) <= ServerAt(k, i')
  {
    ServerIsPrefix(k, i);
  }

  lemma ClientGrows(k: Talk, j: nat, j': nat)
    requires j <= j'
    ensures ClientAt(k, j) <= ClientAt(k, j')
  {
    ClientIsPrefix(k, j);
    assert ClientSide(k)[..3] == GREETING;
  }

  lemma {:induction false} RunStaysOnTrack(k: Talk, run: seq<Wire>)
    requires Valid(k.t.addr) && Deliveries(k, run)
    ensures OnTrack(k, run[|run| - 1]) && |run| <= 1 + run[|run| - 1].i + run[|run| - 1].j
    decreases |run|
  {
    if |run| == 1 {
      BeginsOnTrack(k);
    } else {
      RunStaysOnTrack(k, run[..|run| - 1]);
      DeliveryStaysOnTrack(k, run[|run| - 2], run[|run| - 1]);
    }
  }

  lemma BeginsOnTrack(k: Talk)
    requires Valid(k.t.addr)
    ensures OnTrack(k, Begin(k))
  {
    DiallerStage(k, 0);
    ListenerStage(k, 0);
  }

  /** However the network cuts and times the deliveries, only finitely many are
      possible, and when none is left both ends have sent and received all they ever
      will. */
  lemma EveryDeliveryEnds(k: Talk, run: seq<Wire>)
    requires Valid(k.t.addr) && Deliveries(k, run)
    ensures |run| <= 1 + |ClientSide(k) + Up(k)| + |ServerSide(k) + Down(k)|
    ensures var w := run[|run| - 1];
      (forall w' :: !Delivers(k, w, w')) ==>
        w == Wire(ClientSide(k) + Up(k), ServerSide(k) + Down(k), |ClientSide(k) + Up(k)|, |ServerSide(k) + Down(k)|)
  {
    var w := run[|run| - 1];
    RunStaysOnTrack(k, run);
    SidesGrow(k, w);
    if forall w' :: !Delivers(k, w, w') {
      NothingLeft(k, w);
    }
  }

  lemma NothingLeft(k: Talk, w: Wire)
    requires Valid(k.t.addr) && OnTrack(k, w) && forall w' :: !Delivers(k, w, w')
    ensures w.i == |w.c| && w.j == |w.s| && w.c == ClientSide(k) + Up(k) && w.s == ServerSide(k) + Down(k)
  {
    RequestedOrEmpty(k.t);
    assert !Delivers(k, w, w.(i := |w.c|, s := ListenerSent(w.c[..|w.c|], k.connects, k.down)));
    assert !Delivers(k, w, w.(j := |w.s|, c := DiallerSent(k.t, w.s[..|w.s|], k.up)));
  }

  /** In an accepted conversation the dialler is then through, the listener is connected
      to exactly the target asked for, and each has the other's payload unread. */
  lemma EveryDeliveryCompletes(k: Talk, run: seq<Wire>)
    requires Accepted(k) && Deliveries(k, run)
    ensures var w := run[|run| - 1];
      (forall w' :: !Delivers(k, w, w')) ==>
        && Dial(k.t, w.s).ok && Dial(k.t, w.s).rest == k.down
        && Serve(w.c, k.connects).ready && Serve(w.c, k.connects).rest == k.up
        && Serve(w.c, k.connects).target == Some(Target(Normal(k.t.addr), k.t.port))
  {
    RequestedOrEmpty(k.t);
    EveryDeliveryEnds(k, run);
    ListenerUnderstands(k.t, k.up, k.connects);
    DiallerUnderstands(k.t, 0, k.down);
  }

  /** In any other the dialler has failed and no payload was sent: refused with reply 1
      when the target could not be connected, with reply 8 for an empty domain, and
      before it was ever asked for when port or length are out of range. */
  lemma EveryRefusalIsTold(k: Talk, run: seq<Wire>)
    requires Valid(k.t.addr) && !Accepted(k) && Deliveries(k, run)
    ensures var w := run[|run| - 1];
      (forall w' :: !Delivers(k, w, w')) ==>
        && !Dial(k.t, w.s).ok
        && (Askable(k.t) ==> w.s == CHOICE + Reply(1))
        && (k.t.addr == Domain([]) && 1 <= k.t.port <= 65535 ==> w.s == CHOICE + Reply(8))
        && (Request(k.t).None? ==> w == Wire(GREETING, CHOICE, 3, 2))
        && (Request(k.t).Some? ==> w.c == GREETING + Request(k.t).value)
  {
    EveryDeliveryEnds(k, run);
    RequestedOrEmpty(k.t);
    if Request(k.t).Some? {
      assert ServerSide(k) + Down(k) == CHOICE + Reply(Code(k)) + [];
      PastChoice(k.t, Code(k), []);
    }
  }
}
