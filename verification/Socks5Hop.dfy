/** Socket_Connect_Socks5::simpleConnect() as the library runs it: every message is built in place in
    one buffer, and every reply is read over it. */
module Socks5Hop {
  import opened Wire
  import opened Comm
  import opened Socks5

  /** Copies s into the buffer from position x on. */
  method Append(buffer: array<byte>, x: nat, s: seq<byte>) returns (x': nat)
    requires x + |s| <= buffer.Length
    modifies buffer
    ensures x' == x + |s| && buffer[..x'] == old(buffer[..x]) + s
  {
    for y := 0 to |s|
      invariant buffer[..x + y] == old(buffer[..x]) + s[..y]
    {
      buffer[x + y] := s[y];
    }
    x' := x + |s|;
  }

  method BuildAuth(buffer: array<byte>, c: Credentials) returns (x: nat)
    requires buffer.Length == BUFFER_SIZE && FitsAuth(c)
    modifies buffer
    ensures x <= buffer.Length && buffer[..x] == AuthMessage(c)
  {
    buffer[0] := 1;
    buffer[1] := |c.username| % 256;
    x := Append(buffer, 2, c.username);
    ghost var front := buffer[..x];
    buffer[x] := |c.password| % 256;
    assert buffer[..x] == front;
    x := Append(buffer, x + 1, c.password);
  }

  method BuildRequest(buffer: array<byte>, host: seq<byte>, port: nat) returns (x: nat)
    requires buffer.Length == BUFFER_SIZE && FitsRequest(host)
    modifies buffer
    ensures x <= buffer.Length && buffer[..x] == RequestMessage(host, port)
  {
    buffer[0], buffer[1], buffer[2], buffer[3] := 5, 1, 0, 3;
    buffer[4] := |host| % 256;
    x := Append(buffer, 5, host);
    ghost var front := buffer[..x];
    buffer[x] := port / 256 % 256;
    buffer[x + 1] := port % 256;
    x := x + 2;
    assert buffer[..x] == front + [port / 256 % 256, port % 256];
  }

  method SendBuffer(comm: Comm, buffer: array<byte>, x: nat) returns (rc: int)
    requires !comm.secure && comm.sock != 0 && x <= buffer.Length
    modifies comm`error, comm.kernel`wire, comm.kernel`session, comm.kernel`os
    ensures var s := Send(old(comm.kernel.wire), buffer[..x], comm.CurrentLimit());
            rc == s.rc && comm.kernel.wire == s.wire
    ensures comm.kernel.os == old(comm.kernel.os) && comm.kernel.session == old(comm.kernel.session)
  {
    rc := comm.SendData(buffer[..x], 0);
  }

  method ReadBuffer(comm: Comm, buffer: array<byte>, n: int) returns (rc: int)
    requires !comm.secure && comm.sock != 0 && n <= buffer.Length
    modifies buffer, comm`error, comm.kernel`wire
    ensures var r := Read(old(comm.kernel.wire), n, comm.CurrentLimit());
            && rc == r.Rc() && comm.kernel.wire == r.wire && |r.bytes| <= buffer.Length
            && buffer[..] == r.bytes + old(buffer[..])[|r.bytes|..]
            && (r.stop.Complete? || comm.error == Some(r.Why()))
  {
    rc := comm.PlainRead(buffer, n);
  }

  method SkipBoundAddress(comm: Comm, buffer: array<byte>)
    requires !comm.secure && comm.sock != 0 && buffer.Length == BUFFER_SIZE
    modifies buffer, comm`error, comm.kernel`wire
    ensures comm.kernel.wire == SkipAddress(old(comm.kernel.wire), old(buffer[0]), old(buffer[1]), comm.CurrentLimit())
  {
    if buffer[1] == 1 {
      var _ := ReadBuffer(comm, buffer, 6);
    } else if buffer[1] == 3 {
      ReadLog(comm.kernel.wire, 1, comm.CurrentLimit());
      var _ := ReadBuffer(comm, buffer, 1);
      var _ := ReadBuffer(comm, buffer, Signed(buffer[0]) + 2);
    } else if buffer[1] == 4 {
      var _ := ReadBuffer(comm, buffer, 18);
    }
  }

  method AwaitAnswer(comm: Comm, buffer: array<byte>) returns (ok: bool, error: Option<Error>)
    requires !comm.secure && comm.sock != 0 && buffer.Length == BUFFER_SIZE
    modifies buffer, comm`error, comm.kernel`wire
    ensures HopResult(ok, error, comm.kernel.wire) == AwaitReply(old(comm.kernel.wire), comm.CurrentLimit())
  {
    ghost var limit := comm.CurrentLimit();
    ReadLog(comm.kernel.wire, 2, limit);
    var rc := ReadBuffer(comm, buffer, 2);
    if rc < 2 {
      return false, comm.error;
    }
    var code := buffer[1];
    ReadLog(comm.kernel.wire, 2, limit);
    rc := ReadBuffer(comm, buffer, 2);
    if rc < 2 {
      return false, Some(ReplyUnread);
    }
    SkipBoundAddress(comm, buffer);
    if code == 0 {
      return true, None;
    } else if code <= 8 {
      return false, Some(Refused(code));
    } else {
      return false, Some(UnknownReply);
    }
  }

  method SendInstructions(comm: Comm, buffer: array<byte>, host: seq<byte>, port: nat) returns (ok: bool,
        error: Option<Error>)
    requires !comm.secure && comm.sock != 0 && buffer.Length == BUFFER_SIZE && FitsRequest(host)
    modifies buffer, comm`error, comm.kernel`wire, comm.kernel`session, comm.kernel`os
    ensures HopResult(ok, error, comm.kernel.wire) == Instruct(host, port, old(comm.kernel.wire), comm.CurrentLimit())
    ensures comm.kernel.os == old(comm.kernel.os) && comm.kernel.session == old(comm.kernel.session)
  {
    var x := BuildRequest(buffer, host, port);
    var rc := SendBuffer(comm, buffer, x);
    if rc <= 0 {
      return false, Some(InstructionsNotSent);
    }
    ok, error := AwaitAnswer(comm, buffer);
  }

  method SendCredentials(comm: Comm, buffer: array<byte>, c: Credentials, host: seq<byte>,
        port: nat) returns (ok: bool, error: Option<Error>)
    requires !comm.secure && comm.sock != 0 && buffer.Length == BUFFER_SIZE && FitsRequest(host) && FitsAuth(c)
    modifies buffer, comm`error, comm.kernel`wire, comm.kernel`session, comm.kernel`os
    ensures HopResult(ok, error, comm.kernel.wire)
            == Authenticate(c, host, port, old(comm.kernel.wire), comm.CurrentLimit())
    ensures comm.kernel.os == old(comm.kernel.os) && comm.kernel.session == old(comm.kernel.session)
  {
    var x := BuildAuth(buffer, c);
    var rc := SendBuffer(comm, buffer, x);
    if rc <= 0 {
      return false, Some(CredentialsNotSent);
    }
    ReadLog(comm.kernel.wire, 2, comm.CurrentLimit());
    rc := ReadBuffer(comm, buffer, 2);
    if rc < 2 {
      return false, Some(CredentialsUnanswered);
    }
    if buffer[1] != 0 {
      return false, Some(CredentialsRejected);
    }
    ok, error := SendInstructions(comm, buffer, host, port);
  }

  /** The whole handshake, over a comm object that the hop binds to the caller's descriptor.  It must not
      have been bound before: it would keep its first descriptor, and no one looks at bind()'s result. */
  method SimpleConnect(comm: Comm, buffer: array<byte>, c: Credentials, sock: nat, host: seq<byte>, port: int,
        secs: nat, micros: nat)
    returns (ok: bool, error: Option<Error>)
    requires !comm.secure && comm.sock == 0 && buffer.Length == BUFFER_SIZE && FitsRequest(host) && FitsAuth(c)
    modifies buffer, comm, comm.kernel`wire, comm.kernel`session, comm.kernel`os
    ensures HopResult(ok, error, comm.kernel.wire)
            == Handshake(c, sock, host, port, old(comm.kernel.wire), Limit(secs, micros))
    ensures comm.kernel.os == old(comm.kernel.os) && comm.kernel.session == old(comm.kernel.session)
    ensures comm.sock == if port > 0 && host != [] then sock else 0
  {
    if port <= 0 {
      return false, Some(PortNotSet);
    }
    if host == [] {
      return false, Some(ServerNotSet);
    }
    if sock == 0 {
      return false, Some(NotConnected);
    }
    var _ := comm.BindTo(sock);
    comm.SetTimeout(secs, micros);

    buffer[0], buffer[1], buffer[2], buffer[3] := 5, 2, 0, 2;
    assert buffer[..4] == GREETING;
    var rc := SendBuffer(comm, buffer, 4);
    if rc <= 0 {
      return false, Some(VersionNotSent);
    }
    ReadLog(comm.kernel.wire, 2, comm.CurrentLimit());
    rc := ReadBuffer(comm, buffer, 2);
    if rc < 2 {
      return false, None;
    }
    if buffer[0] != 5 {
      return false, Some(BadVersion);
    }
    if buffer[1] == 0xff {
      return false, Some(MethodsRejected);
    }
    if buffer[1] == 2 {
      ok, error := SendCredentials(comm, buffer, c, host, port);
    } else {
      ok, error := SendInstructions(comm, buffer, host, port);
    }
  }
}
