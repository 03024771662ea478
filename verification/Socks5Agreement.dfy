/** Client and server agree.  The server is any RFC 1928 / RFC 1929 server; it answers a message only
    once it has decoded it, and the bytes in either direction may be cut and delayed at will. */
module Socks5Agreement {
  import opened Wire
  import opened Socks5

  // ---------------------------------------------------------------- decoders

  datatype Greeting = Greeting(methods: seq<byte>, rest: seq<byte>)

  function DecodeGreeting(b: seq<byte>): Option<Greeting> {
    if |b| < 2 || b[0] != 5 then None
    else
      var n: nat := b[1];
      if |b| < 2 + n then None else Some(Greeting(b[2..2 + n], b[2 + n..]))
  }

  datatype Auth = Auth(credentials: Credentials, rest: seq<byte>)

  function DecodeAuth(b: seq<byte>): Option<Auth> {
    if |b| < 2 || b[0] != 1 then None
    else
      var ulen: nat := b[1];
      if |b| < 3 + ulen then None
      else
        var plen: nat := b[2 + ulen];
        if |b| < 3 + ulen + plen then None
        else Some(Auth(Credentials(b[2..2 + ulen], b[3 + ulen..3 + ulen + plen]), b[3 + ulen + plen..]))
  }

  datatype Request = Request(host: seq<byte>, port: nat, rest: seq<byte>)

  function DecodeRequest(b: seq<byte>): Option<Request> {
    if |b| < 5 || b[0] != 5 || b[1] != 1 || b[3] != 3 then None
    else
      var n: nat := b[4];
      if |b| < 7 + n then None
      else
        var high: nat := b[5 + n];
        Some(Request(b[5..5 + n], high * 256 + b[6 + n], b[7 + n..]))
  }

  lemma DecodeAuthMessage(c: Credentials, rest: seq<byte>)
    requires FitsAuth(c)
    ensures DecodeAuth(AuthMessage(c) + rest) == Some(Auth(c, rest))
  {
    var b := AuthMessage(c) + rest;
    var u := |c.username|;
    var p := |c.password|;
    assert b == [1, u] + c.username + [p] + c.password + rest;
    assert b[1] == u && b[2..2 + u] == c.username;
    assert b[2 + u] == p && b[3 + u..3 + u + p] == c.password;
    assert b[3 + u + p..] == rest;
  }

  /** Within the capacity of d_buffer the decoder gets the credentials back, with what follows
      untouched; and it accepts no part of the message for the whole. */
  lemma AuthRoundTrip(c: Credentials, rest: seq<byte>, k: nat)
    requires FitsAuth(c) && k <= |AuthMessage(c)|
    ensures |AuthMessage(c)| <= BUFFER_SIZE
    ensures DecodeAuth(AuthMessage(c) + rest) == Some(Auth(c, rest))
    ensures DecodeAuth(AuthMessage(c)[..k]).Some? <==> k == |AuthMessage(c)|
  {
    DecodeAuthMessage(c, rest);
    var m := AuthMessage(c);
    var u := |c.username|;
    if k == |m| {
      DecodeAuthMessage(c, []);
      assert m[..k] == m + [];
    } else if k > 2 + u {
      assert m[..k][1] == u && m[..k][2 + u] == m[2 + u] == |c.password|;
    } else if k >= 2 {
      assert m[..k][1] == u;
    }
  }

  /** The port arrives modulo 2^16: exactly the ports up to 65535 survive the trip. */
  lemma RequestRoundTrip(host: seq<byte>, port: nat, rest: seq<byte>, k: nat)
    requires FitsRequest(host) && k <= |RequestMessage(host, port)|
    ensures |RequestMessage(host, port)| <= BUFFER_SIZE
    ensures DecodeRequest(RequestMessage(host, port) + rest) == Some(Request(host, port % 65536, rest))
    ensures DecodeRequest(RequestMessage(host, port)[..k]).Some? <==> k == |RequestMessage(host, port)|
    ensures port % 65536 == port <==> port <= 65535
  {
    var m := RequestMessage(host, port);
    var n := |host|;
    assert m[4] == n && m[5..5 + n] == host && m[5 + n] == port / 256 % 256 && m[6 + n] == port % 256;
    var b := m + rest;
    assert b[4] == n && b[5..5 + n] == host && b[7 + n..] == rest;
    PortBytes(port);
  }

  lemma PortBytes(port: nat)
    ensures port / 256 % 256 * 256 + port % 256 == port % 65536
  {
    var q := port / 256;
    Remainder(port, q / 256, q % 256 * 256 + port % 256);
  }

  lemma Remainder(n: nat, quotient: nat, rest: nat)
    requires n == 65536 * quotient + rest && rest < 65536
    ensures n % 65536 == rest
  {
  }

  // ---------------------------------------------------------------- the server

  /** What a server has said and understood after some input. */
  datatype Served = Served(output: seq<byte>, method_: Option<byte>, credentials: Option<Credentials>,
                           request: Option<(seq<byte>, nat)>, granted: bool)

  /** r fixes the server's choices; a method that was not offered is refused with 0xff. */
  function Serve(r: Reply, input: seq<byte>): Served
    requires Wellformed(r)
  {
    match DecodeGreeting(input)
    case None => Served([], None, None, None, false)
    case Some(g) =>
      if r.method_ !in g.methods then Served([5, 0xff], Some(0xff), None, None, false)
      else if r.method_ == 2 then ServeAuth(r, g.rest)
      else ServeRequest(r, g.rest, [5, r.method_], r.method_, None)
  }

  function ServeAuth(r: Reply, input: seq<byte>): Served
    requires Wellformed(r)
  {
    match DecodeAuth(input)
    case None => Served([5, 2], Some(2), None, None, false)
    case Some(a) =>
      if r.status != 0 then Served([5, 2, 1, r.status], Some(2), Some(a.credentials), None, false)
      else ServeRequest(r, a.rest, [5, 2, 1, 0], 2, Some(a.credentials))
  }

  function ServeRequest(r: Reply, input: seq<byte>, output: seq<byte>, method_: byte, c: Option<Credentials>): Served
    requires Wellformed(r)
  {
    match DecodeRequest(input)
    case None => Served(output, Some(method_), c, None, false)
    case Some(q) => Served(output + AnswerOf(r), Some(method_), c, Some((q.host, q.port)), r.code == 0)
  }

  /** The client has received no more than the server says after what the client has sent. */
  ghost predicate Heard(r: Reply, log: seq<Action>)
    requires Wellformed(r)
  {
    Gots(log) <= Serve(r, Sents(log)).output
  }

  /** ... at every moment. */
  ghost predicate Causal(r: Reply, log: seq<Action>)
    requires Wellformed(r)
  {
    forall i :: 0 <= i <= |log| ==> Heard(r, log[..i])
  }

  // ---------------------------------------------------------------- the log of a handshake

  /** Two reads in a row. */
  lemma TwoReadsLog(w: Wire, n: int, m: int, limit: Option<nat>)
    ensures var r := Read(w, n, limit);
            var more := Read(r.wire, m, limit);
            more.wire.log == w.log + GotAll(r.bytes + more.bytes) && more.wire.outbox == w.outbox
  {
    ReadLog(w, n, limit);
    var r := Read(w, n, limit);
    ReadLog(r.wire, m, limit);
    var more := Read(r.wire, m, limit).bytes;
    assert GotAll(r.bytes + more) == GotAll(r.bytes) + GotAll(more);
  }

  lemma SkipLog(w: Wire, reserved: byte, kind: byte, limit: Option<nat>) returns (bytes: seq<byte>)
    ensures SkipAddress(w, reserved, kind, limit).log == w.log + GotAll(bytes)
    ensures SkipAddress(w, reserved, kind, limit).outbox == w.outbox
  {
    bytes := [];
    assert w.log + GotAll([]) == w.log;
    if kind == 1 {
      ReadLog(w, 6, limit);
      bytes := Read(w, 6, limit).bytes;
    } else if kind == 3 {
      var r := Read(w, 1, limit);
      var length := if r.bytes == [] then reserved else r.bytes[0];
      TwoReadsLog(w, 1, Signed(length) + 2, limit);
      bytes := r.bytes + Read(r.wire, Signed(length) + 2, limit).bytes;
    } else if kind == 4 {
      ReadLog(w, 18, limit);
      bytes := Read(w, 18, limit).bytes;
    }
  }

  /** After a successful reply the log has grown by what was received, the reply code among it. */
  lemma ReplyLog(w: Wire, limit: Option<nat>) returns (first: seq<byte>, more: seq<byte>)
    requires AwaitReply(w, limit).ok
    ensures |first| == 2 && first[1] == 0
    ensures AwaitReply(w, limit).wire.log == w.log + GotAll(first) + GotAll(more)
  {
    ReadLog(w, 2, limit);
    var r1 := Read(w, 2, limit);
    first := r1.bytes;
    ReadLog(r1.wire, 2, limit);
    var r2 := Read(r1.wire, 2, limit);
    more := AddressLog(r1.wire, r2, limit);
  }

  lemma AddressLog(w: Wire, r: Reading, limit: Option<nat>) returns (more: seq<byte>)
    requires r.wire.log == w.log + GotAll(r.bytes) && |r.bytes| == 2
    ensures SkipAddress(r.wire, r.bytes[0], r.bytes[1], limit).log == w.log + GotAll(more)
  {
    var rest := SkipLog(r.wire, r.bytes[0], r.bytes[1], limit);
    more := r.bytes + rest;
    assert GotAll(more) == GotAll(r.bytes) + GotAll(rest);
  }

  lemma HeardAt(r: Reply, log: seq<Action>, now: seq<Action>)
    requires Wellformed(r) && Causal(r, log) && now <= log
    ensures Heard(r, now)
  {
    assert log[..|now|] == now;
  }

  /** Causality at the moment when the log has grown from base + pre by some sends and receipts. */
  lemma Moment(r: Reply, base: seq<Action>, log: seq<Action>, pre: seq<Action>, sent: seq<byte>, got: seq<byte>)
    requires Wellformed(r) && Causal(r, log)
    requires base + pre + SentAll(sent) + GotAll(got) <= base + log
    ensures var now := pre + SentAll(sent) + GotAll(got);
            && now <= log
            && base + now == base + pre + SentAll(sent) + GotAll(got)
            && Sents(now) == Sents(pre) + sent && Gots(now) == Gots(pre) + got
    ensures Gots(pre) + got <= Serve(r, Sents(pre) + sent).output
  {
    var now := pre + SentAll(sent) + GotAll(got);
    assert base + now == base + pre + SentAll(sent) + GotAll(got);
    CancelPrefix(base, now, log);
    HeardAt(r, log, now);
    LogAfter(pre, sent, got);
  }

  // ---------------------------------------------------------------- agreement

  /** What the client has sent, and the server has said, when the request phase begins: with the
      credentials c if the server asked for them. */
  function SentBefore(c: Option<Credentials>): seq<byte> {
    GREETING + if c.Some? then AuthMessage(c.value) else []
  }

  function SaidBefore(c: Option<Credentials>): seq<byte> {
    if c.Some? then [5, 2, 1, 0] else [5, 0]
  }

  predicate Chose(r: Reply, c: Option<Credentials>) {
    if c.Some? then r.method_ == 2 && r.status == 0 && FitsAuth(c.value) else r.method_ == 0
  }

  lemma GreetingDecoded(x: seq<byte>)
    ensures DecodeGreeting(GREETING + x) == Some(Greeting([0, 2], x))
  {
    assert (GREETING + x)[2..4] == [0, 2] && (GREETING + x)[4..] == x;
  }

  lemma ServeAtRequest(r: Reply, c: Option<Credentials>, x: seq<byte>)
    requires Wellformed(r) && Chose(r, c)
    ensures Serve(r, SentBefore(c) + x) == ServeRequest(r, x, SaidBefore(c), r.method_, c)
  {
    hide DecodeGreeting, DecodeAuth, DecodeRequest, ServeRequest, AuthMessage;
    if c.Some? {
      GreetingDecoded(AuthMessage(c.value) + x);
      assert SentBefore(c) + x == GREETING + (AuthMessage(c.value) + x);
      AuthRoundTrip(c.value, x, 0);
    } else {
      GreetingDecoded(x);
      assert SentBefore(c) + x == GREETING + x;
    }
  }

  /** A server that has answered a request of which part has arrived has seen all of it. */
  lemma AnsweredRequest(r: Reply, output: seq<byte>, method_: byte, c: Option<Credentials>,
                        host: seq<byte>, port: nat, k: nat, first: seq<byte>)
    requires Wellformed(r) && FitsRequest(host) && k <= |RequestMessage(host, port)|
    requires |first| == 2 && first[1] == 0
    requires output + first <= ServeRequest(r, RequestMessage(host, port)[..k], output, method_, c).output
    ensures k == |RequestMessage(host, port)| && r.code == 0
  {
    RequestRoundTrip(host, port, [], k);
    assert (output + first)[|output| + 1] == (output + AnswerOf(r))[|output| + 1];
  }

  lemma InstructLog(host: seq<byte>, port: nat, w: Wire, limit: Option<nat>) returns (k: nat, first: seq<byte>,
        more: seq<byte>)
    requires Instruct(host, port, w, limit).ok
    ensures k <= |RequestMessage(host, port)| && |first| == 2 && first[1] == 0
    ensures Instruct(host, port, w, limit).wire.log
            == w.log + SentAll(RequestMessage(host, port)[..k]) + GotAll(first) + GotAll(more)
  {
    SendExact(w, RequestMessage(host, port), limit);
    var s := Send(w, RequestMessage(host, port), limit);
    k := s.sent;
    first, more := ReplyLog(s.wire, limit);
  }

  lemma {:induction false} InstructAgrees(r: Reply, base: seq<Action>, pre: seq<Action>, c: Option<Credentials>,
                       host: seq<byte>, port: nat, w: Wire, limit: Option<nat>, log: seq<Action>)
    requires Wellformed(r) && FitsRequest(host) && Chose(r, c)
    requires w.log == base + pre && Sents(pre) == SentBefore(c) && Gots(pre) == SaidBefore(c)
    requires Instruct(host, port, w, limit).ok
    requires Instruct(host, port, w, limit).wire.log == base + log && Causal(r, log)
    ensures Sents(log) == SentBefore(c) + RequestMessage(host, port)
    ensures r.code == 0
  {
    var k, first, more := InstructLog(host, port, w, limit);
    var part := RequestMessage(host, port)[..k];
    Moment(r, base, log, pre, part, first);
    ServeAtRequest(r, c, part);
    AnsweredRequest(r, SaidBefore(c), r.method_, c, host, port, k, first);
    assert part == RequestMessage(host, port);
    var now := pre + SentAll(part) + GotAll(first);
    CancelEqual(base, log, now, GotAll(more));
    ThenGot(now, more);
  }

  /** A server that has answered credentials of which part has arrived has seen all of them. */
  lemma AnsweredAuth(r: Reply, c: Credentials, k: nat, first: seq<byte>)
    requires Wellformed(r) && r.method_ == 2 && FitsAuth(c) && k <= |AuthMessage(c)|
    requires |first| == 2 && first[1] == 0
    requires [5, 2] + first <= Serve(r, GREETING + AuthMessage(c)[..k]).output
    ensures k == |AuthMessage(c)| && r.status == 0 && first == [1, 0]
  {
    GreetingDecoded(AuthMessage(c)[..k]);
    AuthRoundTrip(c, [], k);
    var output := Serve(r, GREETING + AuthMessage(c)[..k]).output;
    assert ([5, 2] + first)[2] == first[0] && ([5, 2] + first)[3] == first[1];
    assert output[3] == r.status;
  }

  lemma {:induction false} AuthenticateLog(c: Credentials, host: seq<byte>, port: nat, w: Wire, limit: Option<nat>)
    returns (k: nat, first: seq<byte>, next: Wire)
    requires Authenticate(c, host, port, w, limit).ok
    ensures k <= |AuthMessage(c)| && |first| == 2 && first[1] == 0
    ensures next.log == w.log + SentAll(AuthMessage(c)[..k]) + GotAll(first)
    ensures Authenticate(c, host, port, w, limit) == Instruct(host, port, next, limit)
  {
    SendExact(w, AuthMessage(c), limit);
    var s := Send(w, AuthMessage(c), limit);
    k := s.sent;
    ReadLog(s.wire, 2, limit);
    first, next := Read(s.wire, 2, limit).bytes, Read(s.wire, 2, limit).wire;
  }

  lemma {:induction false} InstructExtends(host: seq<byte>, port: nat, w: Wire, limit: Option<nat>)
    requires Instruct(host, port, w, limit).ok
    ensures w.log <= Instruct(host, port, w, limit).wire.log
  {
    var k, first, more := InstructLog(host, port, w, limit);
  }

  /** When the credentials have been accepted, both sides stand at the request phase. */
  lemma {:induction false} AuthenticatePhase(r: Reply, base: seq<Action>, pre: seq<Action>, c: Credentials,
                          host: seq<byte>, port: nat, w: Wire, limit: Option<nat>, log: seq<Action>)
    returns (now: seq<Action>, next: Wire)
    requires Wellformed(r) && FitsAuth(c) && r.method_ == 2
    requires w.log == base + pre && Sents(pre) == GREETING && Gots(pre) == [5, 2]
    requires Authenticate(c, host, port, w, limit).ok
    requires Authenticate(c, host, port, w, limit).wire.log == base + log && Causal(r, log)
    ensures next.log == base + now && Sents(now) == SentBefore(Some(c)) && Gots(now) == SaidBefore(Some(c))
    ensures r.status == 0 && Authenticate(c, host, port, w, limit) == Instruct(host, port, next, limit)
  {
    var k, first, after := AuthenticateLog(c, host, port, w, limit);
    next := after;
    var part := AuthMessage(c)[..k];
    now := pre + SentAll(part) + GotAll(first);
    InstructExtends(host, port, next, limit);
    Moment(r, base, log, pre, part, first);
    AnsweredAuth(r, c, k, first);
    assert part == AuthMessage(c);
  }

  lemma {:induction false} AuthenticateAgrees(r: Reply, base: seq<Action>, pre: seq<Action>, c: Credentials,
                           host: seq<byte>, port: nat, w: Wire, limit: Option<nat>, log: seq<Action>)
    requires Wellformed(r) && FitsRequest(host) && FitsAuth(c) && r.method_ == 2
    requires w.log == base + pre && Sents(pre) == GREETING && Gots(pre) == [5, 2]
    requires Authenticate(c, host, port, w, limit).ok
    requires Authenticate(c, host, port, w, limit).wire.log == base + log && Causal(r, log)
    ensures Sents(log) == SentBefore(Some(c)) + RequestMessage(host, port)
    ensures r.code == 0 && r.status == 0
  {
    var now, next := AuthenticatePhase(r, base, pre, c, host, port, w, limit, log);
    InstructAgrees(r, base, now, Some(c), host, port, next, limit, log);
  }

  /** A server that has answered a greeting of which part has arrived has seen all of it. */
  lemma AnsweredGreeting(r: Reply, k: nat, first: seq<byte>)
    requires Wellformed(r) && k <= |GREETING|
    requires |first| == 2 && first[1] != 0xff
    requires first <= Serve(r, GREETING[..k]).output
    ensures k == |GREETING| && first == [5, r.method_] && (r.method_ == 0 || r.method_ == 2)
  {
    var output := Serve(r, GREETING[..k]).output;
    if k == |GREETING| {
      assert GREETING[..k] == GREETING + [];
      GreetingDecoded([]);
    }
    assert output != [];
    assert first[0] == output[0] && first[1] == output[1];
  }

  lemma {:induction false} GreetLog(c: Credentials, host: seq<byte>, port: nat, w: Wire, limit: Option<nat>)
    returns (k: nat, first: seq<byte>, next: Wire)
    requires Greet(c, host, port, w, limit).ok
    ensures k <= |GREETING| && |first| == 2 && first[0] == 5 && first[1] != 0xff
    ensures next.log == w.log + SentAll(GREETING[..k]) + GotAll(first)
    ensures Greet(c, host, port, w, limit)
            == if first[1] == 2 then Authenticate(c, host, port, next, limit) else Instruct(host, port, next, limit)
  {
    SendExact(w, GREETING, limit);
    var s := Send(w, GREETING, limit);
    k := s.sent;
    ReadLog(s.wire, 2, limit);
    first, next := Read(s.wire, 2, limit).bytes, Read(s.wire, 2, limit).wire;
  }

  lemma {:induction false} AuthenticateExtends(c: Credentials, host: seq<byte>, port: nat, w: Wire, limit: Option<nat>)
    requires Authenticate(c, host, port, w, limit).ok
    ensures w.log <= Authenticate(c, host, port, w, limit).wire.log
  {
    var k, first, next := AuthenticateLog(c, host, port, w, limit);
    InstructExtends(host, port, next, limit);
  }

  /** When the server's method has been accepted, it is one of the two that were offered. */
  lemma {:induction false} GreetPhase(r: Reply, c: Credentials, host: seq<byte>, port: nat, w: Wire,
        limit: Option<nat>, log: seq<Action>)
    returns (now: seq<Action>, next: Wire)
    requires Wellformed(r) && Greet(c, host, port, w, limit).ok
    requires Greet(c, host, port, w, limit).wire.log == w.log + log && Causal(r, log)
    ensures r.method_ == 0 || r.method_ == 2
    ensures next.log == w.log + now && Sents(now) == GREETING && Gots(now) == [5, r.method_]
    ensures Greet(c, host, port, w, limit)
            == if r.method_ == 2 then Authenticate(c, host, port, next, limit) else Instruct(host, port, next, limit)
  {
    var k, first, after := GreetLog(c, host, port, w, limit);
    next := after;
    var part := GREETING[..k];
    now := [] + SentAll(part) + GotAll(first);
    assert w.log + [] == w.log;
    if first[1] == 2 {
      AuthenticateExtends(c, host, port, next, limit);
    } else {
      InstructExtends(host, port, next, limit);
    }
    Moment(r, w.log, log, [], part, first);
    assert [] + part == part && [] + first == first;
    AnsweredGreeting(r, k, first);
    assert part == GREETING;
  }

  lemma {:induction false} GreetAgrees(r: Reply, c: Credentials, host: seq<byte>, port: nat, w: Wire,
        limit: Option<nat>, log: seq<Action>)
    requires Wellformed(r) && FitsRequest(host) && FitsAuth(c) && Greet(c, host, port, w, limit).ok
    requires Greet(c, host, port, w, limit).wire.log == w.log + log && Causal(r, log)
    ensures var creds := if r.method_ == 2 then Some(c) else None;
            Chose(r, creds) && r.code == 0 && Sents(log) == SentBefore(creds) + RequestMessage(host, port)
  {
    var now, next := GreetPhase(r, c, host, port, w, limit, log);
    if r.method_ == 2 {
      AuthenticateAgrees(r, w.log, now, c, host, port, next, limit, log);
    } else {
      InstructAgrees(r, w.log, now, None, host, port, next, limit, log);
    }
  }

  /** A successful handshake only adds to the log. */
  lemma {:induction false} HandshakeExtends(c: Credentials, sock: nat, host: seq<byte>, port: int, w: Wire,
        limit: Option<nat>)
    requires Handshake(c, sock, host, port, w, limit).ok
    ensures w.log <= Handshake(c, sock, host, port, w, limit).wire.log
  {
    var k, first, next := GreetLog(c, host, port, w, limit);
    if first[1] == 2 {
      AuthenticateExtends(c, host, port, next, limit);
    } else {
      InstructExtends(host, port, next, limit);
    }
  }

  /** If the client reports success, then the server - whatever its choices, however the bytes were
      fragmented, wherever a send was cut short - has decoded exactly the client's host and port, has
      granted that request, and has accepted exactly the client's credentials if it asked for any. */
  lemma {:induction false} Agreement(r: Reply, c: Credentials, sock: nat, host: seq<byte>, port: int, w: Wire,
        limit: Option<nat>, log: seq<Action>)
    requires Wellformed(r) && FitsRequest(host) && FitsAuth(c)
    requires Handshake(c, sock, host, port, w, limit).ok
    requires Handshake(c, sock, host, port, w, limit).wire.log == w.log + log && Causal(r, log)
    ensures var served := Serve(r, Sents(log));
            && served.granted
            && served.request == Some((host, port % 65536))
            && (port <= 65535 ==> served.request == Some((host, port)))
            && ((served.method_ == Some(0) && served.credentials == None)
                || (served.method_ == Some(2) && served.credentials == Some(c) && r.status == 0))
  {
    GreetAgrees(r, c, host, port, w, limit, log);
    var creds := if r.method_ == 2 then Some(c) else None;
    ServeAtRequest(r, creds, RequestMessage(host, port));
    RequestRoundTrip(host, port, [], 0);
    assert RequestMessage(host, port) + [] == RequestMessage(host, port);
  }

  lemma HeardMore(base: seq<Action>, sent: seq<byte>, first: seq<byte>, more: seq<byte>)
    ensures Gots(base + SentAll(sent) + GotAll(first) + GotAll(more)) == Gots(base) + (first + more)
  {
    LogAfter(base, sent, first);
    ThenGot(base + SentAll(sent) + GotAll(first), more);
  }

  lemma InstructHeard(host: seq<byte>, port: nat, w: Wire, limit: Option<nat>) returns (got: seq<byte>)
    requires Instruct(host, port, w, limit).ok
    ensures Gots(Instruct(host, port, w, limit).wire.log) == Gots(w.log) + got && |got| >= 2 && got[1] == 0
  {
    var k, first, more := InstructLog(host, port, w, limit);
    HeardMore(w.log, RequestMessage(host, port)[..k], first, more);
    got := first + more;
  }

  /** What was heard by pre and then some more. */
  lemma HeardThen(pre: seq<Action>, sent: seq<byte>, first: seq<byte>, log: seq<Action>, rest: seq<byte>)
    requires Gots(log) == Gots(pre + SentAll(sent) + GotAll(first)) + rest
    ensures Gots(log) == Gots(pre) + (first + rest)
  {
    LogAfter(pre, sent, first);
    assert Gots(pre) + first + rest == Gots(pre) + (first + rest);
  }

  lemma AuthenticateHeard(c: Credentials, host: seq<byte>, port: nat, w: Wire, limit: Option<nat>)
    returns (got: seq<byte>)
    requires Authenticate(c, host, port, w, limit).ok
    ensures Gots(Authenticate(c, host, port, w, limit).wire.log) == Gots(w.log) + got
    ensures |got| >= 4 && got[1] == 0 && got[3] == 0
  {
    var k, first, next := AuthenticateLog(c, host, port, w, limit);
    var rest := InstructHeard(host, port, next, limit);
    HeardThen(w.log, AuthMessage(c)[..k], first, Instruct(host, port, next, limit).wire.log, rest);
    got := first + rest;
  }

  lemma {:induction false} GreetHeard(c: Credentials, host: seq<byte>, port: nat, w: Wire,
        limit: Option<nat>) returns (first: seq<byte>, rest: seq<byte>)
    requires Greet(c, host, port, w, limit).ok
    ensures Gots(Greet(c, host, port, w, limit).wire.log) == Gots(w.log) + (first + rest)
    ensures |first| == 2 && first[0] == 5 && first[1] != 0xff
    ensures |rest| >= 2 && rest[1] == 0 && (first[1] == 2 ==> |rest| >= 4 && rest[3] == 0)
  {
    var k, heard, next := GreetLog(c, host, port, w, limit);
    first := heard;
    if first[1] == 2 {
      rest := AuthenticateHeard(c, host, port, next, limit);
      HeardThen(w.log, GREETING[..k], first, Authenticate(c, host, port, next, limit).wire.log, rest);
    } else {
      rest := InstructHeard(host, port, next, limit);
      HeardThen(w.log, GREETING[..k], first, Instruct(host, port, next, limit).wire.log, rest);
    }
  }

  /** Success is never imagined, whoever the peer is: it has said version 5 and a method, status 0 to
      the credentials if that method asks for them, and reply code 0. */
  lemma {:induction false} SuccessWasSaid(c: Credentials, sock: nat, host: seq<byte>, port: int, w: Wire,
        limit: Option<nat>) returns (got: seq<byte>)
    requires Handshake(c, sock, host, port, w, limit).ok
    ensures Gots(Handshake(c, sock, host, port, w, limit).wire.log) == Gots(w.log) + got
    ensures |got| >= 4 && got[0] == 5 && got[1] != 0xff && got[3] == 0
    ensures got[1] == 2 ==> |got| >= 6 && got[5] == 0
  {
    var first, rest := GreetHeard(c, host, port, w, limit);
    got := first + rest;
    Indexed(first, rest);
  }

  lemma Indexed(first: seq<byte>, rest: seq<byte>)
    requires |first| == 2 && |rest| >= 2
    ensures var got := first + rest;
            got[0] == first[0] && got[1] == first[1] && got[3] == rest[1] && (|rest| >= 4 ==> got[5] == rest[3])
  {
  }

  // ---------------------------------------------------------------- what the client says

  predicate SaysRequest(host: seq<byte>, port: nat, sent: seq<byte>) {
    DecodeRequest(sent) == Some(Request(host, port % 65536, []))
  }

  /** What a client on its way to host and port, as c, says to a server of which it has heard so much:
      the greeting, which offers two methods; its own credentials if and only if the server asks for
      them; the request if and only if the server has let it come so far; and nothing else. */
  predicate Says(c: Credentials, host: seq<byte>, port: nat, heard: seq<byte>, sent: seq<byte>) {
    match DecodeGreeting(sent)
    case None => false
    case Some(g) =>
      && g.methods == [0, 2]
      && if |heard| < 2 || heard[0] != 5 || heard[1] == 0xff then g.rest == []
         else if heard[1] != 2 then SaysRequest(host, port, g.rest)
         else
           match DecodeAuth(g.rest)
           case None => false
           case Some(a) =>
             && a.credentials == c
             && if |heard| < 4 || heard[3] != 0 then a.rest == [] else SaysRequest(host, port, a.rest)
  }

  lemma RequestSaid(host: seq<byte>, port: nat)
    requires FitsRequest(host)
    ensures SaysRequest(host, port, RequestMessage(host, port))
  {
    RequestRoundTrip(host, port, [], 0);
    assert RequestMessage(host, port) + [] == RequestMessage(host, port);
  }

  /** The messages of a handshake that has come so far, one after the other. */
  lemma SaidInTurn(c: Credentials, host: seq<byte>, port: nat, heard: seq<byte>, after: seq<byte>, request: seq<byte>)
    requires FitsRequest(host) && FitsAuth(c)
    requires request == [] || request == RequestMessage(host, port)
    requires |heard| >= 2 ==> heard[0] == 5 && heard[1] != 0xff
    requires |heard| < 2 ==> after == [] && request == []
    requires |heard| >= 2 && heard[1] != 2 ==> after == [] && request != []
    requires |heard| >= 2 && heard[1] == 2 ==> after == AuthMessage(c)
    requires |heard| >= 2 && heard[1] == 2 ==> (request != [] <==> |heard| >= 4 && heard[3] == 0)
    ensures Says(c, host, port, heard, GREETING + (after + request))
  {
    hide DecodeGreeting, DecodeAuth, DecodeRequest, AuthMessage, RequestMessage, SaysRequest;
    GreetingDecoded(after + request);
    RequestSaid(host, port);
    if |heard| >= 2 && heard[1] == 2 {
      DecodeAuthMessage(c, request);
    } else {
      assert [] + request == request;
    }
  }

  /** What a step adds to the log if nothing obstructs the sending: its message, and what it hears. */
  lemma ReplyHears(w: Wire, limit: Option<nat>) returns (got: seq<byte>)
    ensures AwaitReply(w, limit).wire.log == w.log + GotAll(got) && AwaitReply(w, limit).wire.outbox == w.outbox
  {
    hide SkipAddress, Read;
    ReadLog(w, 2, limit);
    var r1 := Read(w, 2, limit);
    got := r1.bytes;
    if r1.Rc() >= 2 {
      ReadLog(r1.wire, 2, limit);
      var r2 := Read(r1.wire, 2, limit);
      GotTwice(w.log, r1.bytes, r2.bytes);
      got := r1.bytes + r2.bytes;
      if r2.Rc() >= 2 {
        var rest := SkipLog(r2.wire, r2.bytes[0], r2.bytes[1], limit);
        GotTwice(w.log, got, rest);
        got := got + rest;
      }
    }
  }

  lemma InstructSays(host: seq<byte>, port: nat, w: Wire, limit: Option<nat>) returns (got: seq<byte>)
    requires w.outbox == [] && FitsRequest(host)
    ensures Instruct(host, port, w, limit).wire.log == w.log + SentAll(RequestMessage(host, port)) + GotAll(got)
    ensures Instruct(host, port, w, limit).wire.outbox == []
  {
    hide AwaitReply, Send, SentAll;
    var m := RequestMessage(host, port);
    SendExact(w, m, limit);
    assert m[..|m|] == m;
    got := ReplyHears(Send(w, m, limit).wire, limit);
  }

  lemma OneTurn(sent: seq<byte>, got: seq<byte>, more: seq<Action>)
    ensures Sents(SentAll(sent) + GotAll(got) + more) == sent + Sents(more)
    ensures Gots(SentAll(sent) + GotAll(got) + more) == got + Gots(more)
  {
    SaidAndHeard(sent, got);
    LogConcat(SentAll(sent) + GotAll(got), more);
  }

  lemma AuthenticateSays(c: Credentials, host: seq<byte>, port: nat, w: Wire, limit: Option<nat>)
    returns (got: seq<byte>, rest: seq<Action>)
    requires w.outbox == [] && FitsRequest(host) && FitsAuth(c)
    ensures Authenticate(c, host, port, w, limit).wire.log == w.log + SentAll(AuthMessage(c)) + GotAll(got) + rest
    ensures Authenticate(c, host, port, w, limit).wire.outbox == [] && |got| <= 2
    ensures if |got| < 2 || got[1] != 0 then rest == []
            else Sents(rest) == RequestMessage(host, port)
  {
    hide Instruct, Send, Read, SentAll, GotAll;
    var m := AuthMessage(c);
    SendExact(w, m, limit);
    assert m[..|m|] == m;
    var s := Send(w, m, limit);
    ReadLog(s.wire, 2, limit);
    var r := Read(s.wire, 2, limit);
    got, rest := r.bytes, [];
    if r.Rc() >= 2 && r.bytes[1] == 0 {
      var more := InstructSays(host, port, r.wire, limit);
      rest := SentAll(RequestMessage(host, port)) + GotAll(more);
      SaidAndHeard(RequestMessage(host, port), more);
    }
  }

  /** After the method has been chosen: what is sent and heard from there on. */
  lemma ChosenSays(c: Credentials, host: seq<byte>, port: nat, w: Wire, limit: Option<nat>, method_: byte)
    returns (rest: seq<Action>)
    requires w.outbox == [] && FitsRequest(host) && FitsAuth(c)
    ensures var h := if method_ == 2 then Authenticate(c, host, port, w, limit) else Instruct(host, port, w, limit);
            h.wire.log == w.log + rest && h.wire.outbox == []
    ensures var heard := [5, method_] + Gots(rest);
            method_ != 0xff ==> Says(c, host, port, heard, GREETING + Sents(rest))
  {
    hide Authenticate, Instruct, Says, SentAll, GotAll, AuthMessage, RequestMessage, Sents, Gots;
    if method_ == 2 {
      var got, more := AuthenticateSays(c, host, port, w, limit);
      rest := SentAll(AuthMessage(c)) + GotAll(got) + more;
      OneTurn(AuthMessage(c), got, more);
      NothingSaid();
      RequestNotEmpty(host, port);
      assert |got| >= 2 ==> ([5, method_] + (got + Gots(more)))[3] == got[1];
      SaidInTurn(c, host, port, [5, method_] + Gots(rest), AuthMessage(c), Sents(more));
      assert w.log + SentAll(AuthMessage(c)) + GotAll(got) + more == w.log + rest;
    } else {
      var got := InstructSays(host, port, w, limit);
      rest := SentAll(RequestMessage(host, port)) + GotAll(got);
      SaidAndHeard(RequestMessage(host, port), got);
      assert [] + RequestMessage(host, port) == RequestMessage(host, port) != [] by {
        RequestNotEmpty(host, port);
      }
      if method_ != 0xff {
        SaidInTurn(c, host, port, [5, method_] + Gots(rest), [], RequestMessage(host, port));
      }
      assert w.log + SentAll(RequestMessage(host, port)) + GotAll(got) == w.log + rest;
    }
  }

  lemma RequestNotEmpty(host: seq<byte>, port: nat)
    ensures RequestMessage(host, port) != []
  {
  }

  lemma NothingSaid()
    ensures Sents([]) == [] && Gots([]) == []
  {
  }

  /** Only the greeting has been said, and no method has been agreed on. */
  lemma GreetingOnly(c: Credentials, host: seq<byte>, port: nat, first: seq<byte>)
    requires |first| < 2 || first[0] != 5 || first[1] == 0xff
    ensures Says(c, host, port, first, GREETING)
  {
    GreetingDecoded([]);
    assert GREETING + [] == GREETING;
  }

  /** Whatever the server answers and however the handshake ends, if nothing obstructs the sending: what
      the hop sends decodes to its own greeting, credentials and request, each if and only if the
      server's answers have called for it. */
  lemma {:induction false} HandshakeSays(c: Credentials, sock: nat, host: seq<byte>, port: int, w: Wire,
        limit: Option<nat>) returns (log: seq<Action>)
    requires sock != 0 && port > 0 && host != [] && w.outbox == [] && FitsRequest(host) && FitsAuth(c)
    ensures Handshake(c, sock, host, port, w, limit).wire.log == w.log + log
    ensures Handshake(c, sock, host, port, w, limit).wire.outbox == []
    ensures Says(c, host, port, Gots(log), Sents(log))
  {
    hide Authenticate, Instruct, Says, SentAll, GotAll, Send, Read, Sents, Gots;
    SendExact(w, GREETING, limit);
    assert GREETING[..|GREETING|] == GREETING;
    var s := Send(w, GREETING, limit);
    ReadLog(s.wire, 2, limit);
    var r := Read(s.wire, 2, limit);
    var first := r.bytes;
    log := SentAll(GREETING) + GotAll(first);
    SaidAndHeard(GREETING, first);
    if r.Rc() < 2 || first[0] != 5 || first[1] == 0xff {
      GreetingOnly(c, host, port, first);
      assert s.wire.log + GotAll(first) == w.log + log;
    } else {
      var rest := ChosenSays(c, host, port, r.wire, limit, first[1]);
      OneTurn(GREETING, first, rest);
      assert [5, first[1]] == first;
      assert s.wire.log + GotAll(first) + rest == w.log + (log + rest);
      log := log + rest;
    }
  }

  // ---------------------------------------------------------------- what failures say

  /** The outcome of the last step, by the bytes heard in it. */
  predicate ReplyDiagnosis(ok: bool, error: Option<Error>, got: seq<byte>) {
    if ok then error == None && |got| >= 4 && got[1] == 0
    else
      error.Some? && match error.value
                     case InstructionsNotSent => got == []
                     case ReplyUnread => 2 <= |got| < 4
                     case Refused(code) => |got| >= 4 && got[1] == code && 1 <= code <= 8
                     case UnknownReply => |got| >= 4 && got[1] > 8
                     case e => TransferError(e) && |got| < 2
  }

  /** The outcome of a handshake, by the bytes heard in it: each error has one place in the conversation. */
  predicate Diagnosis(ok: bool, error: Option<Error>, heard: seq<byte>) {
    if |heard| < 2 then !ok && (error == None || (error == Some(VersionNotSent) && heard == []))
    else if heard[0] != 5 then !ok && error == Some(BadVersion) && |heard| == 2
    else if heard[1] == 0xff then !ok && error == Some(MethodsRejected) && |heard| == 2
    else if heard[1] != 2 then ReplyDiagnosis(ok, error, heard[2..])
    else if |heard| < 4 then
      !ok && (error == Some(CredentialsUnanswered) || (error == Some(CredentialsNotSent) && |heard| == 2))
    else if heard[3] != 0 then !ok && error == Some(CredentialsRejected) && |heard| == 4
    else ReplyDiagnosis(ok, error, heard[4..])
  }

  lemma ReplyDiagnosed(w: Wire, limit: Option<nat>) returns (got: seq<byte>)
    ensures var h := AwaitReply(w, limit);
            h.wire.log == w.log + GotAll(got) && ReplyDiagnosis(h.ok, h.error, got)
  {
    hide SkipAddress, Read;
    ReadLog(w, 2, limit);
    ReadReasons(w, 2, limit);
    var r1 := Read(w, 2, limit);
    got := r1.bytes;
    if r1.Rc() >= 2 {
      ReadLog(r1.wire, 2, limit);
      var r2 := Read(r1.wire, 2, limit);
      GotTwice(w.log, r1.bytes, r2.bytes);
      got := r1.bytes + r2.bytes;
      if r2.Rc() >= 2 {
        var rest := SkipLog(r2.wire, r2.bytes[0], r2.bytes[1], limit);
        GotTwice(w.log, got, rest);
        got := got + rest;
      }
    }
  }

  /** What a step adds to the log, and what it hears. */
  lemma InstructDiagnosed(host: seq<byte>, port: nat, w: Wire, limit: Option<nat>)
    returns (log: seq<Action>)
    ensures var h := Instruct(host, port, w, limit);
            h.wire.log == w.log + log && ReplyDiagnosis(h.ok, h.error, Gots(log))
  {
    hide AwaitReply, Send, SentAll, Gots, Sents, RequestMessage;
    var m := RequestMessage(host, port);
    SendExact(w, m, limit);
    var s := Send(w, m, limit);
    var got: seq<byte> := [];
    GotNone(s.wire.log);
    if s.rc > 0 {
      got := ReplyDiagnosed(s.wire, limit);
    }
    log := SentAll(m[..s.sent]) + GotAll(got);
    SaidAndHeard(m[..s.sent], got);
    assert w.log + SentAll(m[..s.sent]) + GotAll(got) == w.log + log;
  }

  lemma AuthenticateDiagnosed(c: Credentials, host: seq<byte>, port: nat, w: Wire, limit: Option<nat>)
    returns (log: seq<Action>)
    ensures var h := Authenticate(c, host, port, w, limit);
            && h.wire.log == w.log + log
            && var got := Gots(log);
               if |got| < 2 then
                 !h.ok && (h.error == Some(CredentialsUnanswered) || (h.error == Some(CredentialsNotSent) && got == []))
               else if got[1] != 0 then !h.ok && h.error == Some(CredentialsRejected) && |got| == 2
               else ReplyDiagnosis(h.ok, h.error, got[2..])
  {
    hide Instruct, Send, Read, SentAll, Gots, Sents, AuthMessage, ReplyDiagnosis;
    var m := AuthMessage(c);
    SendExact(w, m, limit);
    var s := Send(w, m, limit);
    var got: seq<byte> := [];
    var rest: seq<Action> := [];
    GotNone(s.wire.log);
    NothingSaid();
    if s.rc > 0 {
      ReadLog(s.wire, 2, limit);
      var r := Read(s.wire, 2, limit);
      got := r.bytes;
      if r.Rc() >= 2 && r.bytes[1] == 0 {
        rest := InstructDiagnosed(host, port, r.wire, limit);
      }
    }
    log := SentAll(m[..s.sent]) + GotAll(got) + rest;
    OneTurn(m[..s.sent], got, rest);
    assert w.log + SentAll(m[..s.sent]) + GotAll(got) + rest == w.log + log;
    assert |got| == 2 ==> (got + Gots(rest))[2..] == Gots(rest);
  }

  /** However the handshake ends and whatever obstructs it, its outcome and its error say how far it has
      come and why it went no further. */
  lemma {:induction false} HandshakeDiagnosed(c: Credentials, sock: nat, host: seq<byte>, port: int, w: Wire,
        limit: Option<nat>) returns (log: seq<Action>)
    requires sock != 0 && port > 0 && host != []
    ensures var h := Handshake(c, sock, host, port, w, limit);
            h.wire.log == w.log + log && Diagnosis(h.ok, h.error, Gots(log))
  {
    hide Instruct, Authenticate, Send, Read, SentAll, Gots, Sents, ReplyDiagnosis;
    SendExact(w, GREETING, limit);
    var s := Send(w, GREETING, limit);
    var got: seq<byte> := [];
    var rest: seq<Action> := [];
    GotNone(s.wire.log);
    NothingSaid();
    if s.rc > 0 {
      ReadLog(s.wire, 2, limit);
      var r := Read(s.wire, 2, limit);
      got := r.bytes;
      if r.Rc() >= 2 && r.bytes[0] == 5 && r.bytes[1] != 0xff {
        if r.bytes[1] == 2 {
          rest := AuthenticateDiagnosed(c, host, port, r.wire, limit);
        } else {
          rest := InstructDiagnosed(host, port, r.wire, limit);
        }
      }
    }
    log := SentAll(GREETING[..s.sent]) + GotAll(got) + rest;
    OneTurn(GREETING[..s.sent], got, rest);
    assert w.log + SentAll(GREETING[..s.sent]) + GotAll(got) + rest == w.log + log;
    Behind(got, Gots(rest));
  }

  lemma Behind(a: seq<byte>, b: seq<byte>)
    ensures |a| == 2 ==> (a + b)[2..] == b && (|b| >= 2 ==> (a + b)[4..] == b[2..] && (a + b)[3] == b[1])
  {
  }
}
