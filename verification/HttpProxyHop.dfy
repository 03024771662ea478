/** Socket_Connect_Proxy::simpleConnect() as the library runs it. */
module HttpProxyHop {
  import opened Wire
  import opened Comm
  import opened Socks5
  import opened Socks5Hop
  import opened HttpProxy

  /** snprintf() into the buffer; returns the length of the string printed. */
  method Print(buffer: array<byte>, text: seq<byte>) returns (n: nat)
    requires buffer.Length > 0
    modifies buffer
    ensures n <= buffer.Length && buffer[..n] == Snprintf(buffer.Length, text)
  {
    n := Append(buffer, 0, Snprintf(buffer.Length, text));
  }

  /** Reads to the end of the headers, a byte at a time, remembering the last two. */
  method ScanHeaders(comm: Comm) returns (found: bool)
    requires !comm.secure && comm.sock != 0
    modifies comm`error, comm.kernel`wire
    ensures (found, comm.kernel.wire) == Scan(old(comm.kernel.wire), 0, 0, comm.CurrentLimit())
  {
    ghost var limit := comm.CurrentLimit();
    ghost var all := Scan(comm.kernel.wire, 0, 0, limit);
    var c := new byte[1];
    var last: byte, secondLast: byte := 0, 0;
    while true
      invariant all == Scan(comm.kernel.wire, last, secondLast, limit)
      decreases |comm.kernel.wire.inbox|
    {
      ReadOne(comm.kernel.wire, limit);
      var rc := ReadBuffer(comm, c, 1);
      if rc > 0 {
        if c[0] == LF {
          if secondLast == c[0] {
            return true;
          }
        }
        secondLast := last;
        last := c[0];
      } else {
        break;
      }
    }
    found := false;
  }

  /** The whole hop, over its own comm object, unbound before as that of a SOCKS5 hop. */
  method SimpleConnect(comm: Comm, sock: nat, host: seq<byte>, port: int, secs: nat, micros: nat)
    returns (ok: bool, error: Option<Error>)
    requires !comm.secure && comm.sock == 0
    modifies comm, comm.kernel`wire, comm.kernel`session, comm.kernel`os
    ensures HopResult(ok, error, comm.kernel.wire)
            == Tunnel(sock, host, port, old(comm.kernel.wire), Limit(secs, micros))
    ensures comm.kernel.os == old(comm.kernel.os) && comm.kernel.session == old(comm.kernel.session)
    ensures comm.sock == sock
  {
    var _ := comm.BindTo(sock);
    comm.SetTimeout(secs, micros);
    if port <= 0 {
      return false, Some(PortNotSet);
    }
    if host == [] {
      return false, Some(ServerNotSet);
    }
    if sock == 0 {
      return false, Some(NotConnected);
    }
    var buffer := new byte[|host| + 200];
    var n := Print(buffer, ConnectRequest(host, port));
    var rc := SendBuffer(comm, buffer, n);
    if rc <= 0 {
      return false, Some(RequestNotSent);
    }
    ReadLog(comm.kernel.wire, STATUS_LENGTH, comm.CurrentLimit());
    rc := ReadBuffer(comm, buffer, STATUS_LENGTH);
    if rc <= 0 {
      return false, comm.error;
    }
    buffer[rc] := 0;
    if rc < STATUS_LENGTH {
      return false, Some(ReplyTooShort);
    }
    if buffer[9] != DIGIT_2 {
      return false, Some(StatusRejected);
    }
    ok := ScanHeaders(comm);
    error := if ok then None else Some(HeadersIncomplete);
  }
}
