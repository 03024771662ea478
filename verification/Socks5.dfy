/** The SOCKS5 hop: src/socket_connect_socks5.cpp, speaking RFC 1928 (sections 3, 4 and 6) and
    RFC 1929 (section 2).

    A plain char is signed here, as on the platforms the library is built for by default. */
module Socks5 {
  import opened Wire

  const BUFFER_SIZE: nat := 200

  datatype Credentials = Credentials(username: seq<byte>, password: seq<byte>)

  /** What one hop's simpleConnect() does; no error means the previous one stays. */
  datatype HopResult = HopResult(ok: bool, error: Option<Error>, wire: Wire)

  // ---------------------------------------------------------------- messages

  const GREETING: seq<byte> := [5, 2, 0, 2]

  function AuthMessage(c: Credentials): seq<byte> {
    [1, |c.username| % 256] + c.username + [|c.password| % 256] + c.password
  }

  function RequestMessage(host: seq<byte>, port: nat): seq<byte> {
    [5, 1, 0, 3, |host| % 256] + host + [port / 256 % 256, port % 256]
  }

  /** The credentials and the host fit d_buffer. */
  predicate FitsAuth(c: Credentials) {
    |c.username| + |c.password| <= 197
  }

  predicate FitsRequest(host: seq<byte>) {
    |host| <= 193
  }

  // ---------------------------------------------------------------- the handshake

  function Handshake(c: Credentials, sock: nat, host: seq<byte>, port: int, w: Wire, limit: Option<nat>): HopResult {
    if port <= 0 then HopResult(false, Some(PortNotSet), w)
    else if host == [] then HopResult(false, Some(ServerNotSet), w)
    else if sock == 0 then HopResult(false, Some(NotConnected), w)
    else Greet(c, host, port, w, limit)
  }

  /** Steps 1 and 2: offer two methods, read the one the server selects. */
  function Greet(c: Credentials, host: seq<byte>, port: nat, w: Wire, limit: Option<nat>): HopResult {
    var s := Send(w, GREETING, limit);
    if s.rc <= 0 then HopResult(false, Some(VersionNotSent), s.wire)
    else
      var r := Read(s.wire, 2, limit);
      ReadLog(s.wire, 2, limit);
      if r.Rc() < 2 then HopResult(false, None, r.wire)
      else if r.bytes[0] != 5 then HopResult(false, Some(BadVersion), r.wire)
      else if r.bytes[1] == 0xff then HopResult(false, Some(MethodsRejected), r.wire)
      else if r.bytes[1] == 2 then Authenticate(c, host, port, r.wire, limit)
      else Instruct(host, port, r.wire, limit)
  }

  function Authenticate(c: Credentials, host: seq<byte>, port: nat, w: Wire, limit: Option<nat>): HopResult {
    var s := Send(w, AuthMessage(c), limit);
    if s.rc <= 0 then HopResult(false, Some(CredentialsNotSent), s.wire)
    else
      var r := Read(s.wire, 2, limit);
      ReadLog(s.wire, 2, limit);
      if r.Rc() < 2 then HopResult(false, Some(CredentialsUnanswered), r.wire)
      else if r.bytes[1] != 0 then HopResult(false, Some(CredentialsRejected), r.wire)
      else Instruct(host, port, r.wire, limit)
  }

  /** Step 3: the connection instructions. */
  function Instruct(host: seq<byte>, port: nat, w: Wire, limit: Option<nat>): HopResult {
    var s := Send(w, RequestMessage(host, port), limit);
    if s.rc <= 0 then HopResult(false, Some(InstructionsNotSent), s.wire)
    else AwaitReply(s.wire, limit)
  }

  /** Step 4: version and reply code, reserved byte and address type, then the bound address. */
  function AwaitReply(w: Wire, limit: Option<nat>): HopResult {
    var r1 := Read(w, 2, limit);
    ReadLog(w, 2, limit);
    if r1.Rc() < 2 then HopResult(false, Some(r1.Why()), r1.wire)
    else
      var r2 := Read(r1.wire, 2, limit);
      ReadLog(r1.wire, 2, limit);
      if r2.Rc() < 2 then HopResult(false, Some(ReplyUnread), r2.wire)
      else
        var code := r1.bytes[1];
        HopResult(code == 0, if code == 0 then None else Some(Verdict(code)),
                  SkipAddress(r2.wire, r2.bytes[0], r2.bytes[1], limit))
  }

  function Verdict(code: byte): Error {
    if 1 <= code <= 8 then Refused(code) else UnknownReply
  }

  function Signed(b: byte): int {
    if b < 128 then b else b - 256
  }

  /** Reads past the bound address.  No result is checked: after a failed read of the length byte,
      d_buffer[0] still holds the reserved byte. */
  function SkipAddress(w: Wire, reserved: byte, kind: byte, limit: Option<nat>): Wire {
    if kind == 1 then Read(w, 6, limit).wire
    else if kind == 3 then
      var r := Read(w, 1, limit);
      var length := if r.bytes == [] then reserved else r.bytes[0];
      Read(r.wire, Signed(length) + 2, limit).wire
    else if kind == 4 then Read(w, 18, limit).wire
    else w
  }

  // ---------------------------------------------------------------- what an RFC 1928 server says

  datatype Bound = V4(address: seq<byte>) | Domain(name: seq<byte>) | V6(address: seq<byte>)

  /** A server's side of one session: the method it selects, its answer to the credentials, and its
      answer to the request. */
  datatype Reply = Reply(method_: byte, status: byte, code: byte, bound: Bound, port: seq<byte>)

  predicate Wellformed(r: Reply) {
    && |r.port| == 2
    && match r.bound
       case V4(a) => |a| == 4
       case Domain(n) => |n| <= 255
       case V6(a) => |a| == 16
  }

  function AddressOf(r: Reply): seq<byte>
    requires Wellformed(r)
  {
    match r.bound
    case V4(a) => [1] + a
    case Domain(n) => [3, |n|] + n
    case V6(a) => [4] + a
  }

  function AnswerOf(r: Reply): seq<byte>
    requires Wellformed(r)
  {
    [5, r.code, 0] + AddressOf(r) + r.port
  }

  /** All the bytes of a session that gets as far as the reply. */
  function SessionOf(r: Reply): seq<byte>
    requires Wellformed(r)
  {
    [5, r.method_] + (if r.method_ == 2 then [1, r.status] else []) + AnswerOf(r)
  }

  /** The session grants the request, by one of the two methods the client offers. */
  predicate Grants(r: Reply) {
    (r.method_ == 0 || (r.method_ == 2 && r.status == 0)) && r.code == 0
  }

  /** What the client reports to its caller about a session; nothing if the request was granted. */
  function Complaint(r: Reply): Option<Error> {
    if r.method_ == 2 && r.status != 0 then Some(CredentialsRejected)
    else if r.code == 0 then None
    else if r.code <= 8 then Some(Refused(r.code))
    else Some(UnknownReply)
  }

  // ---------------------------------------------------------------- alignment

  /** How many bytes of the bound address and port the client leaves behind. */
  function Left(b: Bound): nat {
    if b.Domain? && |b.name| >= 128 then (if |b.name| == 255 then 256 else |b.name| + 2) else 0
  }

  /** The bound address is one the client reads past completely. */
  predicate Skippable(b: Bound) {
    b.Domain? ==> |b.name| < 128
  }

  /** All of es has been taken but the bytes left behind. */
  predicate TakenBut(inbox: seq<Event>, es: seq<Event>, rest: seq<Event>, left: nat) {
    left <= |es| && inbox == es[|es| - left..] + rest
  }

  lemma TakenButMore(inbox: seq<Event>, es: seq<Event>, rest: seq<Event>, left: nat, n: nat)
    requires n <= |es| && TakenBut(inbox, es[n..], rest, left)
    ensures TakenBut(inbox, es, rest, left)
  {
    assert es[n..][|es| - n - left..] == es[|es| - left..];
  }

  lemma {:induction false} SkipTakes(w: Wire, reply: Reply, es: seq<Event>, rest: seq<Event>, limit: Option<nat>,
        reserved: byte)
    requires Wellformed(reply)
    requires Prompt(es, AddressOf(reply)[1..] + reply.port, limit) && w.inbox == es + rest
    ensures var w' := SkipAddress(w, reserved, AddressOf(reply)[0], limit);
            TakenBut(w'.inbox, es, rest, Left(reply.bound)) && w'.outbox == w.outbox
  {
    var data := AddressOf(reply)[1..] + reply.port;
    match reply.bound
    case V4(_) =>
      ReadPiece(w, data, es, rest, limit, 6);
    case V6(_) =>
      ReadPiece(w, data, es, rest, limit, 18);
    case Domain(name) =>
      ReadPiece(w, data, es, rest, limit, 1);
      var r := Read(w, 1, limit);
      assert r.bytes[0] == data[0] == |name|;
      var n := Signed(|name|) + 2;
      if n > 0 {
        ReadPiece(r.wire, data[1..], es[1..], rest, limit, n);
        assert es[1..][n..] == es[1 + n..];
      }
  }

  lemma ReplyTakes(w: Wire, reply: Reply, es: seq<Event>, rest: seq<Event>, limit: Option<nat>)
    requires Wellformed(reply)
    requires Prompt(es, AnswerOf(reply), limit) && w.inbox == es + rest
    ensures var h := AwaitReply(w, limit);
            && (h.ok <==> reply.code == 0) && h.error == (if reply.code == 0 then None else Some(Verdict(reply.code)))
            && TakenBut(h.wire.inbox, es, rest, Left(reply.bound)) && h.wire.outbox == w.outbox
  {
    var data := AnswerOf(reply);
    var kind := AddressOf(reply)[0];
    assert data == [5, reply.code, 0, kind] + (AddressOf(reply)[1..] + reply.port);
    ReadPiece(w, data, es, rest, limit, 2);
    var r1 := Read(w, 2, limit);
    ReadPiece(r1.wire, data[2..], es[2..], rest, limit, 2);
    var r2 := Read(r1.wire, 2, limit);
    assert es[2..][2..] == es[4..] && data[2..][2..] == AddressOf(reply)[1..] + reply.port;
    assert r1.bytes[1] == reply.code && r2.bytes[1] == kind;
    SkipTakes(r2.wire, reply, es[4..], rest, limit, r2.bytes[0]);
    TakenButMore(AwaitReply(w, limit).wire.inbox, es, rest, Left(reply.bound), 4);
  }

  /** What every phase of the handshake ends in, if the server's answers are those of the reply. */
  ghost predicate Settled(h: HopResult, accepted: bool, complaint: Option<Error>, reply: Reply, unobstructed: bool,
        es: seq<Event>, rest: seq<Event>) {
    && (h.ok ==> accepted && TakenBut(h.wire.inbox, es, rest, Left(reply.bound)))
    && (unobstructed ==> h.ok == accepted && h.error == complaint && h.wire.outbox == [])
  }

  lemma SettledLater(h: HopResult, accepted: bool, complaint: Option<Error>, reply: Reply, unobstructed: bool,
        es: seq<Event>, rest: seq<Event>, n: nat)
    requires n <= |es| && Settled(h, accepted, complaint, reply, unobstructed, es[n..], rest)
    ensures Settled(h, accepted, complaint, reply, unobstructed, es, rest)
  {
    if h.ok {
      TakenButMore(h.wire.inbox, es, rest, Left(reply.bound), n);
    }
  }

  lemma {:induction false} InstructTakes(host: seq<byte>, port: nat, w: Wire, reply: Reply, es: seq<Event>,
        rest: seq<Event>, limit: Option<nat>)
    requires Wellformed(reply) && FitsRequest(host)
    requires Prompt(es, AnswerOf(reply), limit) && w.inbox == es + rest
    ensures Settled(Instruct(host, port, w, limit), reply.code == 0,
                    if reply.code == 0 then None else Some(Verdict(reply.code)),
                    reply, w.outbox == [], es, rest)
  {
    SendExact(w, RequestMessage(host, port), limit);
    var s := Send(w, RequestMessage(host, port), limit);
    ReplyTakes(s.wire, reply, es, rest, limit);
  }

  lemma {:induction false} AuthenticateTakes(c: Credentials, host: seq<byte>, port: nat, w: Wire, reply: Reply,
        es: seq<Event>, rest: seq<Event>, limit: Option<nat>)
    requires Wellformed(reply) && FitsRequest(host) && FitsAuth(c) && reply.method_ == 2
    requires Prompt(es, [1, reply.status] + AnswerOf(reply), limit) && w.inbox == es + rest
    ensures Settled(Authenticate(c, host, port, w, limit), Grants(reply), Complaint(reply), reply, w.outbox == [],
                    es, rest)
  {
    var data := [1, reply.status] + AnswerOf(reply);
    SendExact(w, AuthMessage(c), limit);
    var s := Send(w, AuthMessage(c), limit);
    ReadPiece(s.wire, data, es, rest, limit, 2);
    var r := Read(s.wire, 2, limit);
    assert data[2..] == AnswerOf(reply) && r.bytes[1] == reply.status;
    if reply.status == 0 {
      InstructTakes(host, port, r.wire, reply, es[2..], rest, limit);
      SettledLater(Instruct(host, port, r.wire, limit), Grants(reply), Complaint(reply), reply,
                   s.wire.outbox == [], es, rest, 2);
    }
  }

  /** The server's choice of method has been read. */
  lemma GreetContinues(c: Credentials, host: seq<byte>, port: nat, w: Wire, reply: Reply, es: seq<Event>,
        rest: seq<Event>, limit: Option<nat>)
    returns (next: Wire)
    requires Wellformed(reply) && (reply.method_ == 0 || reply.method_ == 2)
    requires Prompt(es, SessionOf(reply), limit) && w.inbox == es + rest
    ensures next.inbox == es[2..] + rest && Prompt(es[2..], SessionOf(reply)[2..], limit)
    ensures w.outbox == [] ==> next.outbox == []
    ensures var g := Greet(c, host, port, w, limit);
            var after := if reply.method_ == 2 then Authenticate(c, host, port, next, limit)
                         else Instruct(host, port, next, limit);
            (w.outbox == [] || g.ok ==> g == after)
  {
    SendExact(w, GREETING, limit);
    var s := Send(w, GREETING, limit);
    ReadPiece(s.wire, SessionOf(reply), es, rest, limit, 2);
    next := Read(s.wire, 2, limit).wire;
    assert Read(s.wire, 2, limit).bytes == [5, reply.method_];
  }

  /** From the method on, the session is settled. */
  lemma {:induction false} ContinueTakes(c: Credentials, host: seq<byte>, port: nat, next: Wire, reply: Reply,
        es: seq<Event>, rest: seq<Event>, limit: Option<nat>)
    requires FitsRequest(host) && FitsAuth(c)
    requires Wellformed(reply) && (reply.method_ == 0 || reply.method_ == 2)
    requires Prompt(es, SessionOf(reply)[2..], limit) && next.inbox == es + rest
    ensures var after := if reply.method_ == 2 then Authenticate(c, host, port, next, limit)
                         else Instruct(host, port, next, limit);
            Settled(after, Grants(reply), Complaint(reply), reply, next.outbox == [], es, rest)
  {
    if reply.method_ == 2 {
      assert SessionOf(reply)[2..] == [1, reply.status] + AnswerOf(reply);
      AuthenticateTakes(c, host, port, next, reply, es, rest, limit);
    } else {
      assert SessionOf(reply)[2..] == AnswerOf(reply);
      InstructTakes(host, port, next, reply, es, rest, limit);
    }
  }

  lemma {:induction false} GreetTakes(c: Credentials, host: seq<byte>, port: nat, w: Wire, reply: Reply,
        es: seq<Event>, rest: seq<Event>, limit: Option<nat>)
    requires FitsRequest(host) && FitsAuth(c)
    requires Wellformed(reply) && (reply.method_ == 0 || reply.method_ == 2)
    requires Prompt(es, SessionOf(reply), limit) && w.inbox == es + rest
    ensures Settled(Greet(c, host, port, w, limit), Grants(reply), Complaint(reply), reply, w.outbox == [], es, rest)
  {
    var next := GreetContinues(c, host, port, w, reply, es, rest, limit);
    ContinueTakes(c, host, port, next, reply, es[2..], rest, limit);
    var after := if reply.method_ == 2 then Authenticate(c, host, port, next, limit)
                 else Instruct(host, port, next, limit);
    SettledLater(after, Grants(reply), Complaint(reply), reply, next.outbox == [], es, rest, 2);
    SameSettled(Greet(c, host, port, w, limit), after, Grants(reply), Complaint(reply), reply,
                w.outbox == [], next.outbox == [], es, rest);
  }

  lemma SameSettled(g: HopResult, after: HopResult, accepted: bool, complaint: Option<Error>, reply: Reply, u: bool,
        v: bool, es: seq<Event>, rest: seq<Event>)
    requires Settled(after, accepted, complaint, reply, v, es, rest) && (u ==> v) && (u || g.ok ==> g == after)
    ensures Settled(g, accepted, complaint, reply, u, es, rest)
  {
  }

  /** A peer that does not speak version 5, or accepts neither method, is turned down at once, and
      told nothing more than the greeting. */
  lemma GreetingTurnedDown(c: Credentials, sock: nat, host: seq<byte>, port: int, w: Wire, version: byte,
        method_: byte, es: seq<Event>, rest: seq<Event>, limit: Option<nat>)
    requires sock != 0 && port > 0 && host != [] && w.outbox == []
    requires Prompt(es, [version, method_], limit) && w.inbox == es + rest && (version != 5 || method_ == 0xff)
    ensures var h := Handshake(c, sock, host, port, w, limit);
            && !h.ok && h.error == Some(if version != 5 then BadVersion else MethodsRejected)
            && h.wire.inbox == rest && h.wire.log == w.log + SentAll(GREETING) + GotAll([version, method_])
  {
    SendExact(w, GREETING, limit);
    var s := Send(w, GREETING, limit);
    assert GREETING[..4] == GREETING;
    ReadPrompt(s.wire, es, rest, [version, method_], limit);
  }

  /** A session answered promptly by an RFC 1928 server: if the client reports success then it was
      granted, and if the client's messages get through then it reports success exactly if it was
      granted, and otherwise the server's reason.  On success
      the client has consumed the server's bytes and nothing behind them, so that the next read
      yields the destination's first byte, if and only if the bound address is not a domain name of
      128 bytes or more (whose length byte is negative as a char). */
  lemma HandshakeAlignedIff(c: Credentials, sock: nat, host: seq<byte>, port: int, w: Wire, reply: Reply,
        es: seq<Event>, rest: seq<Event>, limit: Option<nat>)
    requires sock != 0 && port > 0 && host != [] && FitsRequest(host) && FitsAuth(c)
    requires Wellformed(reply) && (reply.method_ == 0 || reply.method_ == 2)
    requires Prompt(es, SessionOf(reply), limit) && w.inbox == es + rest
    ensures var h := Handshake(c, sock, host, port, w, limit);
            && (h.ok ==> Grants(reply))
            && (w.outbox == [] ==> (h.ok <==> Grants(reply)) && h.error == Complaint(reply) && h.wire.outbox == [])
            && (h.ok ==> (h.wire.inbox == rest <==> Skippable(reply.bound)))
  {
    GreetTakes(c, host, port, w, reply, es, rest, limit);
    var left := Left(reply.bound);
    if left <= |es| {
      assert |es[|es| - left..] + rest| == left + |rest|;
      assert left == 0 ==> es[|es| - left..] + rest == rest;
    }
  }

  /** The failing case is real: a server that reports a bound name of 128 bytes leaves all of them
      in the stream, where the next hop or the destination's first answer is expected. */
  lemma LongBoundNameMisaligns(w: Wire, host: seq<byte>) returns (reply: Reply)
    requires w.outbox == [] && host != [] && FitsRequest(host)
    requires |w.inbox| == 139
    requires forall i :: 0 <= i < 139 ==>
               w.inbox[i] == Byte(0, if i == 0 || i == 2 then 5 else if i == 5 then 3 else if i == 6 then 128 else 0)
    ensures Wellformed(reply) && Grants(reply) && Prompt(w.inbox[..137], SessionOf(reply), None)
    ensures var h := Handshake(Credentials([], []), 7, host, 443, w, None);
            h.ok && h.wire.inbox != w.inbox[137..]
  {
    reply := Reply(0, 0, 0, Domain(seq(128, _ => 0)), [0, 0]);
    var es := w.inbox[..137];
    assert w.inbox == es + w.inbox[137..];
    assert |SessionOf(reply)| == 137;
    HandshakeAlignedIff(Credentials([], []), 7, host, 443, w, reply, es, w.inbox[137..], None);
  }

  // ---------------------------------------------------------------- time

  lemma SkipSpends(w: Wire, reserved: byte, kind: byte, limit: Option<nat>)
    ensures Spends(w, SkipAddress(w, reserved, kind, limit), limit, 2)
  {
    hide Read, Spends;
    NothingSpent(w, limit);
    if kind == 1 {
      ReadSpends(w, 6, limit);
      SpendsMore(w, Read(w, 6, limit).wire, limit, 1, 2);
    } else if kind == 3 {
      ReadSpends(w, 1, limit);
      var r := Read(w, 1, limit);
      var n := Signed(if r.bytes == [] then reserved else r.bytes[0]) + 2;
      ReadSpends(r.wire, n, limit);
      SpendsThen(w, r.wire, Read(r.wire, n, limit).wire, limit, 1, 1);
    } else if kind == 4 {
      ReadSpends(w, 18, limit);
      SpendsMore(w, Read(w, 18, limit).wire, limit, 1, 2);
    } else {
      SpendsMore(w, w, limit, 0, 2);
    }
  }

  lemma ReplySpends(w: Wire, limit: Option<nat>)
    ensures Spends(w, AwaitReply(w, limit).wire, limit, 4)
  {
    hide Read, Spends, SkipAddress;
    ReadSpends(w, 2, limit);
    ReadLog(w, 2, limit);
    var r1 := Read(w, 2, limit);
    SpendsMore(w, r1.wire, limit, 1, 4);
    if r1.Rc() >= 2 {
      ReadSpends(r1.wire, 2, limit);
      ReadLog(r1.wire, 2, limit);
      var r2 := Read(r1.wire, 2, limit);
      SpendsThen(w, r1.wire, r2.wire, limit, 1, 1);
      SpendsMore(w, r2.wire, limit, 2, 4);
      if r2.Rc() >= 2 {
        SkipSpends(r2.wire, r2.bytes[0], r2.bytes[1], limit);
        SpendsThen(w, r2.wire, AwaitReply(w, limit).wire, limit, 2, 2);
      }
    }
  }

  lemma InstructSpends(host: seq<byte>, port: nat, w: Wire, limit: Option<nat>)
    ensures Spends(w, Instruct(host, port, w, limit).wire, limit, 5)
  {
    hide Send, Spends, AwaitReply;
    SendSpends(w, RequestMessage(host, port), limit);
    var s := Send(w, RequestMessage(host, port), limit);
    SpendsMore(w, s.wire, limit, 1, 5);
    ReplySpends(s.wire, limit);
    SpendsThen(w, s.wire, AwaitReply(s.wire, limit).wire, limit, 1, 4);
  }

  lemma AuthenticateSpends(c: Credentials, host: seq<byte>, port: nat, w: Wire, limit: Option<nat>)
    ensures Spends(w, Authenticate(c, host, port, w, limit).wire, limit, 7)
  {
    hide Send, Read, Spends, Instruct;
    SendSpends(w, AuthMessage(c), limit);
    var s := Send(w, AuthMessage(c), limit);
    SpendsMore(w, s.wire, limit, 1, 7);
    ReadSpends(s.wire, 2, limit);
    ReadLog(s.wire, 2, limit);
    var r := Read(s.wire, 2, limit);
    SpendsThen(w, s.wire, r.wire, limit, 1, 1);
    SpendsMore(w, r.wire, limit, 2, 7);
    InstructSpends(host, port, r.wire, limit);
    SpendsThen(w, r.wire, Instruct(host, port, r.wire, limit).wire, limit, 2, 5);
  }

  /** The handshake waits at most one timeout for each byte in or out, and for nine bytes that do not
      come or go: it makes at most three sends and six reads. */
  lemma HandshakeSpends(c: Credentials, sock: nat, host: seq<byte>, port: int, w: Wire, limit: Option<nat>)
    ensures Spends(w, Handshake(c, sock, host, port, w, limit).wire, limit, 9)
  {
    hide Send, Read, Spends, Instruct, Authenticate;
    if port > 0 && host != [] && sock != 0 {
      SendSpends(w, GREETING, limit);
      var s := Send(w, GREETING, limit);
      SpendsMore(w, s.wire, limit, 1, 9);
      ReadSpends(s.wire, 2, limit);
      ReadLog(s.wire, 2, limit);
      var r := Read(s.wire, 2, limit);
      SpendsThen(w, s.wire, r.wire, limit, 1, 1);
      SpendsMore(w, r.wire, limit, 2, 9);
      InstructSpends(host, port, r.wire, limit);
      SpendsThen(w, r.wire, Instruct(host, port, r.wire, limit).wire, limit, 2, 5);
      SpendsMore(w, Instruct(host, port, r.wire, limit).wire, limit, 7, 9);
      AuthenticateSpends(c, host, port, r.wire, limit);
      SpendsThen(w, r.wire, Authenticate(c, host, port, r.wire, limit).wire, limit, 2, 7);
    } else {
      NothingSpent(w, limit);
      SpendsMore(w, w, limit, 0, 9);
    }
  }

  /** A hop that lacks a port, a host or a connection says which, and sends nothing. */
  lemma HandshakeRefuses(c: Credentials, sock: nat, host: seq<byte>, port: int, w: Wire, limit: Option<nat>)
    requires port <= 0 || host == [] || sock == 0
    ensures var h := Handshake(c, sock, host, port, w, limit);
            && !h.ok && h.wire == w
            && (h.error == Some(PortNotSet) <==> port <= 0)
            && (h.error == Some(ServerNotSet) <==> port > 0 && host == [])
            && (h.error == Some(NotConnected) <==> port > 0 && host != [] && sock == 0)
  {
  }

  // ---------------------------------------------------------------- what came in time

  /** Bytes that a successful read adds to those heard in time. */
  lemma InTimeMore(w: Wire, next: Wire, heard: seq<byte>, n: nat, limit: Option<nat>) returns (more: seq<byte>)
    requires |heard| <= |w.inbox| && Prompt(w.inbox[..|heard|], heard, limit) && next.inbox == w.inbox[|heard|..]
    requires Read(next, n, limit).stop.Complete?
    ensures more == heard + Read(next, n, limit).bytes && |Read(next, n, limit).bytes| == n
    ensures |more| <= |w.inbox| && Prompt(w.inbox[..|more|], more, limit)
    ensures Read(next, n, limit).wire.inbox == w.inbox[|more|..]
  {
    ReadTakes(next, n, limit);
    var r := Read(next, n, limit);
    more := heard + r.bytes;
    PromptConcat(w.inbox, heard, r.bytes, limit);
  }

  /** The reply that a successful step 4 has checked, behind what was heard before. */
  lemma ReplyInTime(w: Wire, next: Wire, heard: seq<byte>, limit: Option<nat>) returns (all: seq<byte>, last: Wire)
    requires |heard| <= |w.inbox| && Prompt(w.inbox[..|heard|], heard, limit) && next.inbox == w.inbox[|heard|..]
    requires AwaitReply(next, limit).ok
    ensures |all| == |heard| + 4 <= |w.inbox| && Prompt(w.inbox[..|all|], all, limit)
    ensures heard <= all && all[|heard| + 1] == 0 && last.inbox == w.inbox[|all|..]
    ensures AwaitReply(next, limit).wire == SkipAddress(last, all[|heard| + 2], all[|heard| + 3], limit)
  {
    hide Read, SkipAddress, Prompt;
    ReadLog(next, 2, limit);
    var r1 := Read(next, 2, limit);
    var some := InTimeMore(w, next, heard, 2, limit);
    ReadLog(r1.wire, 2, limit);
    var r2 := Read(r1.wire, 2, limit);
    all := InTimeMore(w, r1.wire, some, 2, limit);
    last := r2.wire;
  }

  /** Success, whoever the peer is, means that the bytes it rests on stood at the head of the stream and
      each came within the timeout: version and method, the status if the method asks for credentials,
      and the head of the reply.  Then the bound address is read past. */
  lemma {:induction false} HandshakeInTime(c: Credentials, sock: nat, host: seq<byte>, port: int, w: Wire,
        limit: Option<nat>)
    returns (heard: seq<byte>, last: Wire)
    requires Handshake(c, sock, host, port, w, limit).ok
    ensures 6 <= |heard| <= |w.inbox| && Prompt(w.inbox[..|heard|], heard, limit)
    ensures heard[0] == 5 && heard[1] != 0xff && |heard| == (if heard[1] == 2 then 8 else 6)
    ensures heard[3] == 0 && (heard[1] == 2 ==> heard[5] == 0) && last.inbox == w.inbox[|heard|..]
    ensures Handshake(c, sock, host, port, w, limit).wire
            == SkipAddress(last, heard[|heard| - 2], heard[|heard| - 1], limit)
  {
    hide Read, Send, SkipAddress, Prompt, AwaitReply;
    SendExact(w, GREETING, limit);
    var s := Send(w, GREETING, limit);
    ReadLog(s.wire, 2, limit);
    var r := Read(s.wire, 2, limit);
    NothingHeard(w, limit);
    var first := InTimeMore(w, s.wire, [], 2, limit);
    assert [] + r.bytes == r.bytes;
    if first[1] == 2 {
      var a := Send(r.wire, AuthMessage(c), limit);
      SendExact(r.wire, AuthMessage(c), limit);
      ReadLog(a.wire, 2, limit);
      var status := Read(a.wire, 2, limit);
      var second := InTimeMore(w, a.wire, first, 2, limit);
      SendExact(status.wire, RequestMessage(host, port), limit);
      heard, last := ReplyInTime(w, Send(status.wire, RequestMessage(host, port), limit).wire, second, limit);
      assert heard[3] == second[3] == status.bytes[1];
    } else {
      SendExact(r.wire, RequestMessage(host, port), limit);
      heard, last := ReplyInTime(w, Send(r.wire, RequestMessage(host, port), limit).wire, first, limit);
    }
    assert heard[0] == first[0] && heard[1] == first[1];
  }

  lemma NothingHeard(w: Wire, limit: Option<nat>)
    ensures Prompt(w.inbox[..0], [], limit) && w.inbox[0..] == w.inbox
  {
  }

  /** So an answer of which one of these bytes comes late, or does not come, makes the hop fail. */
  lemma LateAnswerFails(c: Credentials, sock: nat, host: seq<byte>, port: int, w: Wire, limit: nat, k: nat)
    requires k < 6
    ensures Handshake(c, sock, host, port, w, Some(limit)).ok ==>
              k < |w.inbox| && w.inbox[k].Byte? && w.inbox[k].after <= limit
  {
    if Handshake(c, sock, host, port, w, Some(limit)).ok {
      var heard, _ := HandshakeInTime(c, sock, host, port, w, Some(limit));
      assert Delivers(w.inbox[..|heard|][k], heard[k], Some(limit));
    }
  }
}
