/** The Socket object itself: src/rude_socketimpl.cpp together with the src/socket_tcpclient.cpp that
    it contains.  Every method takes the step that the state machine of module Lifecycle prescribes. */
module Client {
  import opened Wire
  import opened Os
  import opened Tls
  import opened Socks5
  import opened Chain
  import opened Comm
  import opened Connection
  import opened Lifecycle
  import Lines
  import TlsLines

  class Socket {
    const kernel: Kernel
    var sock: nat
    var comm: Comm?
    var connection: Connect?
    var lastConnect: Connect?
    var sslVerify: bool
    var timeoutSecs: nat
    var timeoutMicros: nat
    var readBuffer: seq<byte>
    var error: Option<Error>

    ghost var Hops: seq<Hop>
    ghost var Taken: bool
    ghost var Repr: set<object>

    /** The inserted hops belong to this object until a connection takes them over. */
    ghost predicate Valid()
      reads this, Repr
      ensures Valid() ==> this in Repr && kernel !in Repr
    {
      && this in Repr && kernel !in Repr
      && (comm != null ==>
            && comm in Repr && comm.kernel == kernel
            && comm.timeoutSecs == timeoutSecs && comm.timeoutMicros == timeoutMicros)
      && (connection != null ==>
            && connection in Repr && connection.Repr <= Repr && connection.kernel == kernel && connection.Valid()
            && this !in connection.Repr && comm !in connection.Repr)
      && (lastConnect == null <==> Hops == []) && (Taken ==> connection != null)
      && (lastConnect != null && !Taken ==>
            && lastConnect in Repr && lastConnect.Repr <= Repr && lastConnect.kernel == kernel
            && lastConnect.Valid() && lastConnect.Idle() && lastConnect.Hops == Hops
            && this !in lastConnect.Repr && comm !in lastConnect.Repr
            && (connection != null ==> lastConnect.Repr !! connection.Repr))
    }

    ghost function View(): State
      reads this, kernel, comm
    {
      State(sock, if comm == null then None else Some(comm.State()), Hops, Taken,
            sslVerify, timeoutSecs, timeoutMicros, kernel.os)
    }

    constructor (kernel: Kernel)
      ensures Valid() && fresh(Repr) && this.kernel == kernel
      ensures View() == START.(os := kernel.os) && error == None
    {
      this.kernel := kernel;
      sock, comm, connection, lastConnect := 0, null, null, null;
      sslVerify, timeoutSecs, timeoutMicros, readBuffer, error := true, 0, 0, [], None;
      Hops, Taken, Repr := [], false, {this};
    }

    /** The inserted hops, as objects. */
    ghost function Pending(): set<object>
      reads this, lastConnect
    {
      if lastConnect == null || Taken then {} else lastConnect.Repr
    }

    /** A new hop in front of the inserted ones, which it takes over. */
    method NewHop(kind: Kind, server: seq<byte>, port: int, credentials: Credentials) returns (hop: Connect)
      requires Valid() && !Taken
      ensures hop.Valid() && hop.Idle() && hop.kernel == kernel && fresh(hop) && fresh(hop.Repr - Pending())
      ensures hop.Hops == [Hop(kind, server, port, credentials, 0, 0, None)] + Hops
    {
      hop := new Connect(kernel, kind, server, port, credentials);
      if lastConnect != null {
        hop.SetChild(lastConnect);
      }
    }

    /** insertSocks5(), insertProxy() and insertTunnel(). */
    method Insert(kind: Kind, server: seq<byte>, port: int, credentials: Credentials)
      requires Valid() && !Taken
      modifies this`lastConnect, this`Hops, this`Repr
      ensures Valid() && fresh(Repr - old(Repr))
      ensures View() == DoInsert(old(View()), Hop(kind, server, port, credentials, 0, 0, None))
    {
      hide Connection.Connect.Valid, Connection.Connect.Idle, Chained;
      assert this !in Pending() && comm !in Pending() && kernel !in Pending() && Pending() <= Repr;
      lastConnect := NewHop(kind, server, port, credentials);
      Repr := Repr + lastConnect.Repr;
      Hops := lastConnect.Hops;
    }

    /** The connection, as objects. */
    ghost function Connected(): set<object>
      reads this, connection
    {
      if connection == null then {} else connection.Repr
    }

    /** The timeout reaches the hops of the connection; inserted ones wait for theirs. */
    method PassTimeout(secs: nat, micros: nat)
      requires Valid()
      modifies Connected()
      ensures Valid() && View() == old(View())
      ensures connection != null ==> connection.Hops == WithTimeout(old(connection.Hops), secs, micros)
    {
      if connection != null {
        connection.SetTimeout(secs, micros);
      }
    }

    method SetTimeout(secs: nat, micros: nat)
      requires Valid()
      modifies this`timeoutSecs, this`timeoutMicros, comm, Connected()
      ensures Valid()
      ensures View() == DoSetTimeout(old(View()), secs, micros)
      ensures connection != null ==> connection.Hops == WithTimeout(old(connection.Hops), secs, micros)
    {
      hide WithTimeout, Connection.Connect.Valid, Connection.Connect.Idle;
      PassTimeout(secs, micros);
      assert connection != null ==> comm !in connection.Repr && this !in connection.Repr;
      assert lastConnect != null && !Taken ==> comm !in lastConnect.Repr && this !in lastConnect.Repr;
      timeoutSecs, timeoutMicros := secs, micros;
      if comm != null {
        comm.SetTimeout(secs, micros);
      }
    }

    method SetSslVerify(verify: bool)
      requires Valid()
      modifies this`sslVerify
      ensures Valid() && View() == old(View()).(verify := verify)
    {
      sslVerify := verify;
    }

    /** A new normal hop in front of the inserted ones, all with this object's timeout. */
    method NewRoot() returns (normal: Connect)
      requires Valid() && !Taken
      modifies Pending()
      ensures normal.Valid() && normal.Idle() && normal.kernel == kernel
      ensures fresh(normal) && fresh(normal.Repr - old(Pending()))
      ensures normal.Hops == Chained(View())
    {
      normal := new Connect(kernel, NormalHop, [], 0, NOBODY);
      normal.SetChild(lastConnect);
      ghost var hops := normal.Hops;
      normal.SetTimeout(timeoutSecs, timeoutMicros);
      ChainedIs(View(), hops);
    }

    /** setConnection(). */
    method SetConnection()
      requires Valid() && !Taken
      modifies this`connection, this`Taken, this`Repr, Pending()
      ensures Valid() && fresh(Repr - old(Repr))
      ensures connection != null && connection.Idle() && connection.Hops == Chained(View())
      ensures View() == old(View()).(taken := Hops != [])
    {
      hide Connection.Connect.Valid, Connection.Connect.Idle;
      ghost var pending := Pending();
      assert this !in pending && comm !in pending && pending <= Repr;
      var normal := NewRoot();
      connection := normal;
      Taken := Hops != [];
      Repr := Repr + normal.Repr;
    }

    /** The destructor of the old comm object finishes it. */
    method ReleaseComm()
      requires Valid()
      modifies comm, kernel`os
      ensures Valid() && kernel.os == Drop(old(View()).comm, old(kernel.os))
      ensures View().(comm := None) == old(View()).(comm := None, os := kernel.os)
    {
      hide Connection.Connect.Valid, Connection.Connect.Idle;
      if comm != null {
        var _ := comm.FinishUp();
      }
    }

    /** setComm(): a new comm object takes the place of the old one. */
    method SetComm(secure: bool)
      requires Valid()
      modifies this`comm, this`Repr, comm, kernel`os
      ensures Valid() && fresh(Repr - old(Repr)) && comm != null && fresh(comm) && comm.verifyPeer == sslVerify
      ensures comm.error == None
      ensures View() == old(View()).(comm := Some(CommState(secure, 0, 0, 0)),
                                     os := Drop(old(View()).comm, old(kernel.os)))
    {
      hide Connection.Connect.Valid, Connection.Connect.Idle, Finish;
      ReleaseComm();
      var c := new Comm(kernel, secure, sslVerify);
      c.SetTimeout(timeoutSecs, timeoutMicros);
      comm := c;
      Repr := Repr + {c};
    }

    /** The connection object connects, and its error is passed on. */
    method Dial(host: seq<byte>, port: int) returns (ok: bool)
      requires Valid() && (Taken || Hops == [])
      requires connection != null && connection.Idle() && Fits(connection.Hops, host)
      modifies this`sock, this`error, connection.Repr, kernel`os, kernel`wire, kernel`session, kernel`calls
      ensures Valid() && kernel.session == old(kernel.session)
      ensures var w := Walk(old(connection.Hops), Line(old(sock), old(kernel.os), old(kernel.wire)), host, port,
                            kernel.dial);
              && ok == w.ok && View() == old(View()).(sock := w.line.sock, os := w.line.os)
              && kernel.wire == w.line.wire && kernel.calls == old(kernel.calls) + w.calls
              && error == if ok then old(error) else w.error
    {
      hide Connection.Connect.Valid, Connection.Connect.Idle, Walk, Fits;
      ok, sock := connection.ConnectTo(sock, host, port);
      if !ok {
        error := connection.error;
      }
    }

    /** The new comm object is bound to the descriptor, and its error is passed on. */
    method BindComm() returns (ok: bool)
      requires Valid() && comm != null && comm.verifyPeer == sslVerify
      requires comm.State() == CommState(comm.secure, 0, 0, 0) && comm.error == None
      modifies this`error, comm, kernel`os, kernel`session
      ensures Valid()
      ensures var b := BindNew(comm.secure, old(View()), sock, old(kernel.os), old(kernel.session), kernel.tls,
                               kernel.scope);
              && ok == b.ok && View() == old(View()).(comm := Some(b.comm), os := b.os)
              && kernel.session == b.session && error == if ok then old(error) else b.error
    {
      hide Connection.Connect.Valid, Connection.Connect.Idle, TlsBind;
      BindFailsIff(comm.State(), sock, kernel.os, kernel.session, sslVerify, Limit(timeoutSecs, timeoutMicros),
                   kernel.tls, kernel.scope);
      ok := comm.BindTo(sock);
      if !ok {
        error := comm.error;
      }
    }

    /** connect() and connectSSL().  The chain is walked over the wire; on success the stream goes on
        where the last hop has left it, and the comm object is bound to the new descriptor. */
    method Connect(secure: bool, host: seq<byte>, port: int) returns (ok: bool)
      requires Valid() && !Taken && Fits(Chained(View()), host)
      modifies Repr, kernel`os, kernel`wire, kernel`session, kernel`calls
      ensures Valid() && fresh(Repr - old(Repr))
      ensures var op := Op.Connect(secure, host, port, kernel.dial, old(kernel.wire), old(kernel.session),
                                   kernel.tls, kernel.scope);
              (ok, View()) == DoConnect(old(View()), op)
      ensures var op := Op.Connect(secure, host, port, kernel.dial, old(kernel.wire), old(kernel.session),
                                   kernel.tls, kernel.scope);
              var w := WalkOf(old(View()), op);
              var b := BindNew(secure, old(View()), w.line.sock, w.line.os, old(kernel.session), kernel.tls,
                               kernel.scope);
              && kernel.wire == w.line.wire && kernel.calls == old(kernel.calls) + w.calls
              && kernel.session == (if w.ok then b.session else old(kernel.session))
              && error == if !w.ok then w.error else if !b.ok then b.error else old(error)
    {
      hide Connection.Connect.Valid, Connection.Connect.Idle, Walk, Bind, Finish, Chained;
      Install(secure);
      ChainedSame(View(), old(View()));
      ok := Dial(host, port);
      if ok {
        ok := BindComm();
      }
    }

    /** New connection and comm objects, replacing the old ones. */
    method Install(secure: bool)
      requires Valid() && !Taken
      modifies this`connection, this`comm, this`Taken, this`Repr, Pending(), comm, kernel`os
      ensures Valid() && fresh(Repr - old(Repr)) && (Taken || Hops == [])
      ensures connection != null && connection.Idle() && connection.Hops == Chained(View())
      ensures comm != null && comm.verifyPeer == sslVerify && comm.error == None
      ensures View() == old(View()).(taken := Hops != [], comm := Some(CommState(secure, 0, 0, 0)),
                                     os := Drop(old(View()).comm, old(kernel.os)))
    {
      SetConnection();
      SetComm(secure);
    }

    /** The comm object is released from the descriptor. */
    method FinishComm() returns (ok: bool)
      requires Valid() && comm != null
      modifies this`error, comm, kernel`os
      ensures Valid()
      ensures var f := Finish(old(comm.State()), old(kernel.os));
              && ok == f.ok && View() == old(View()).(comm := Some(f.comm), os := f.os)
              && error == if ok then old(error) else Some(AlreadyFinished)
    {
      hide Connection.Connect.Valid, Connection.Connect.Idle;
      ok := comm.FinishUp();
      if !ok {
        error := comm.error;
      }
    }

    /** A new TLS comm takes over; a failed handshake ends the connection. */
    method Upgrade() returns (ok: bool)
      requires Valid()
      modifies Repr, kernel`os, kernel`session
      ensures Valid() && fresh(Repr - old(Repr))
      ensures (ok, View()) == Lifecycle.Upgrade(old(View()), Op.StartSsl(old(kernel.session), kernel.tls, kernel.scope))
      ensures var b := BindNew(true, old(View()), old(sock), Drop(old(View()).comm, old(kernel.os)),
                               old(kernel.session), kernel.tls, kernel.scope);
              kernel.session == b.session && error == if ok then old(error) else b.error
    {
      hide Connection.Connect.Valid, Connection.Connect.Idle, Bind, Finish;
      SetComm(true);
      ok := BindComm();
      if !ok {
        CloseDescriptor();
      }
    }

    /** startSSL(). */
    method StartSsl() returns (ok: bool)
      requires Valid()
      modifies Repr, kernel`os, kernel`session
      ensures Valid() && fresh(Repr - old(Repr))
      ensures (ok, View()) == DoStartSsl(old(View()), Op.StartSsl(old(kernel.session), kernel.tls, kernel.scope))
      ensures var why := RefusesSsl(old(View()));
              var b := BindNew(true, old(View()), old(sock), old(kernel.os), old(kernel.session), kernel.tls,
                               kernel.scope);
              && ok == (why.None? && b.ok)
              && kernel.session == (if why.None? then b.session else old(kernel.session))
              && error == if why.Some? then why else if b.ok then old(error) else b.error
    {
      hide Connection.Connect.Valid, Connection.Connect.Idle, TlsBind;
      if comm == null {
        error := Some(NothingToSecure);
        return false;
      }
      if sock == 0 {
        error := Some(NotConnected);
        return false;
      }
      if comm.secure {
        error := Some(AlreadySecure);
        return false;
      }
      ok := FinishComm();
      if ok {
        ok := Upgrade();
      }
    }

    function CurrentLimit(): Option<nat>
      reads this
    {
      Limit(timeoutSecs, timeoutMicros)
    }

    /** A TLS call comes to an end. */
    ghost predicate Patient(settle: nat)
      reads this, comm, kernel
    {
      comm != null ==> Settles(comm.State(), kernel.session, CurrentLimit(), settle)
    }

    /** send(). */
    method SendBytes(data: seq<byte>, ghost settle: nat) returns (rc: int)
      requires Valid() && Patient(settle)
      modifies this`error, comm, kernel`os, kernel`wire, kernel`session
      ensures Valid()
      ensures View() == DoSend(old(View()), Op.SendData(data, old(kernel.wire), kernel.scope))
      ensures comm == null ==>
                && rc == -1 && error == Some(NoComm)
                && kernel.wire == old(kernel.wire) && kernel.session == old(kernel.session)
      ensures comm != null ==>
                var t := SendOutcome(old(comm.State()), old(kernel.os), old(kernel.wire), old(kernel.session), data,
                                     CurrentLimit(), kernel.scope, settle);
                && rc == t.rc && kernel.wire == t.wire && kernel.session == t.session
                && comm.error == (if t.reason.Some? then t.reason else old(comm.error))
                && error == if rc <= 0 then comm.error else old(error)
    {
      hide Connection.Connect.Valid, Connection.Connect.Idle, SendOutcome, SendEffect, Send;
      if comm == null {
        error := Some(NoComm);
        return -1;
      }
      rc := comm.SendNoted(data, settle);
      if rc <= 0 {
        error := comm.error;
      }
    }

    /** read(). */
    method ReadBytes(buffer: array<byte>, length: nat, ghost settle: nat) returns (rc: int)
      requires Valid() && buffer !in Repr && length <= buffer.Length && Patient(settle)
      modifies this`error, comm, kernel`os, kernel`wire, kernel`session, buffer
      ensures Valid()
      ensures View() == DoRead(old(View()), Op.ReadData(kernel.scope))
      ensures comm == null ==>
                && rc == -1 && error == Some(NoComm) && buffer[..] == old(buffer[..])
                && kernel.wire == old(kernel.wire) && kernel.session == old(kernel.session)
      ensures comm != null ==>
                var t := ReadOutcome(old(comm.State()), old(kernel.os), old(kernel.wire), old(kernel.session), length,
                                     CurrentLimit(), kernel.scope, settle);
                && rc == t.rc && kernel.wire == t.wire && kernel.session == t.session
                && comm.error == (if t.reason.Some? then t.reason else old(comm.error))
                && error == (if rc <= 0 then comm.error else old(error))
                && |t.bytes| <= buffer.Length && buffer[..] == t.bytes + old(buffer[..])[|t.bytes|..]
    {
      hide Connection.Connect.Valid, Connection.Connect.Idle, ReadOutcome, ReadEffect;
      if comm == null {
        error := Some(NoComm);
        return -1;
      }
      rc := comm.ReadData(buffer, length, settle);
      if rc <= 0 {
        error := comm.error;
      }
    }

    // -------------------------------------------------------------- lines

    /** There is a comm object bound to a descriptor, for reading in the clear. */
    predicate PlainBound()
      reads this, comm
    {
      comm != null && comm.sock != 0 && !comm.secure
    }

    /** There is one with a TLS session. */
    predicate TlsBound()
      reads this, comm
    {
      comm != null && Secured(comm.State())
    }

    /** The mode that a TLS call finds the descriptor in. */
    predicate Nonblocking()
      reads this, comm, kernel
      requires comm != null
    {
      NonblockingInside(comm.sock, kernel.os, CurrentLimit(), kernel.scope)
    }

    /** The session has an end, if there is one. */
    ghost predicate Finite(settle: nat)
      reads this, comm, kernel
    {
      TlsBound() ==> TlsLines.Closes(kernel.session, settle)
    }

    /** One byte by read(), as readline() and reads() take it. */
    method Next(ghost settle: nat) returns (rc: int, c: byte)
      requires Valid() && Finite(settle)
      modifies this`error, comm, kernel`os, kernel`wire, kernel`session
      ensures Valid() && View() == DoRead(old(View()), Op.ReadData(kernel.scope))
      ensures DoRead(View(), Op.ReadData(kernel.scope)) == View()
      ensures old(PlainBound()) ==>
                && PlainBound()
                && var r := Read(old(kernel.wire), 1, CurrentLimit());
                   rc == r.Rc() && kernel.wire == r.wire && (rc > 0 ==> |r.bytes| == 1 && c == r.bytes[0])
      ensures old(TlsBound()) ==>
                && TlsBound() && Nonblocking() == old(Nonblocking())
                && var o := TlsLines.ReadByte(old(kernel.session), CurrentLimit(), Nonblocking(), settle);
                   rc == o.rc && kernel.session == o.session && (rc > 0 ==> |o.bytes| == 1 && c == o.bytes[0])
      ensures !old(PlainBound()) && !old(TlsBound()) ==> rc == -1
      ensures rc <= 0 ==> error == if comm == null then Some(NoComm) else comm.error
    {
      hide Connection.Connect.Valid, Connection.Connect.Idle, Read, ReadOutcome, ReadEffect, TlsLines.ReadByte;
      if comm != null {
        OneByte(comm.State(), kernel.os, kernel.wire, kernel.session, CurrentLimit(), kernel.scope, settle);
        ReadEffectLasts(comm.State(), kernel.os, CurrentLimit(), kernel.scope);
      }
      var buffer := new byte[1];
      rc := ReadBytes(buffer, 1, settle);
      c := buffer[0];
    }

    method SetBuffer(text: seq<byte>)
      modifies this`readBuffer
      ensures readBuffer == text && View() == old(View()) && (old(Valid()) ==> Valid())
    {
      readBuffer := text;
    }

    /** readline(). */
    method ReadLine(ghost settle: nat) returns (text: Option<seq<byte>>)
      requires Valid() && Finite(settle)
      modifies this`error, this`readBuffer, comm, kernel`os, kernel`wire, kernel`session
      ensures Valid() && View() == DoRead(old(View()), Op.ReadData(kernel.scope))
      ensures old(PlainBound()) ==>
                Lines.Line(text, kernel.wire) == Lines.ReadLine(old(kernel.wire), CurrentLimit(), [], Lines.NUL)
      ensures old(TlsBound()) ==>
                var l := TlsLines.TlsLine(old(kernel.session), CurrentLimit(), old(Nonblocking()),
                                        settle, [], Lines.NUL);
                text == l.text && kernel.session == l.session
      ensures !old(PlainBound()) && !old(TlsBound()) ==> text == None
      ensures text == None ==> error == if comm == null then Some(NoComm) else comm.error
      ensures readBuffer == if text.Some? then text.value else []
    {
      hide Connection.Connect.Valid, Connection.Connect.Idle;
      hide DoRead, Read, TlsLines.ReadByte, TlsLines.Closes, NonblockingInside, Limit;
      ghost var op := Op.ReadData(kernel.scope);
      SetBuffer([]);
      var lastc: byte := 0;
      while true
        invariant Valid() && Finite(settle) && DoRead(View(), op) == DoRead(old(View()), op)
        invariant PlainBound() == old(PlainBound()) && TlsBound() == old(TlsBound())
        invariant PlainBound() ==>
                    Lines.ReadLine(old(kernel.wire), CurrentLimit(), [], Lines.NUL)
                    == Lines.ReadLine(kernel.wire, CurrentLimit(), readBuffer, lastc)
        invariant TlsBound() ==>
                    && Nonblocking() == old(Nonblocking())
                    && TlsLines.TlsLine(old(kernel.session), CurrentLimit(), Nonblocking(), settle, [], Lines.NUL)
                       == TlsLines.TlsLine(kernel.session, CurrentLimit(), Nonblocking(), settle, readBuffer, lastc)
        decreases if TlsBound() then settle + 1 - kernel.session.turn else |kernel.wire.inbox|,
                  if TlsBound() then |kernel.session.pending| else 0
      {
        ReadOne(kernel.wire, CurrentLimit());
        if TlsBound() {
          TlsLines.ByteTaken(kernel.session, CurrentLimit(), Nonblocking(), settle);
        }
        var rc, c := Next(settle);
        if rc > 0 {
          if c != LF && c != CR {
            SetBuffer(readBuffer + [c]);
          }
          if c == 0 {
            return Some(readBuffer);
          }
          if c == LF && lastc == CR {
            return Some(readBuffer);
          }
          lastc := c;
        } else if rc == 0 {
          if readBuffer == [] {
            return None;
          }
          return Some(readBuffer);
        } else {
          SetBuffer([]);
          return None;
        }
      }
    }

    /** reads(). */
    method ReadString(ghost settle: nat) returns (text: Option<seq<byte>>)
      requires Valid() && Finite(settle)
      modifies this`error, this`readBuffer, comm, kernel`os, kernel`wire, kernel`session
      ensures Valid() && View() == DoRead(old(View()), Op.ReadData(kernel.scope))
      ensures old(PlainBound()) ==>
                Lines.Line(text, kernel.wire) == Lines.ReadString(old(kernel.wire), CurrentLimit(), [])
      ensures old(TlsBound()) ==>
                var l := TlsLines.TlsString(old(kernel.session), CurrentLimit(), old(Nonblocking()), settle, []);
                text == l.text && kernel.session == l.session
      ensures !old(PlainBound()) && !old(TlsBound()) ==> text == None
      ensures text == None ==> error == if comm == null then Some(NoComm) else comm.error
      ensures readBuffer == if text.Some? then text.value else []
    {
      hide Connection.Connect.Valid, Connection.Connect.Idle;
      hide DoRead, Read, TlsLines.ReadByte, TlsLines.Closes, NonblockingInside, Limit;
      ghost var op := Op.ReadData(kernel.scope);
      SetBuffer([]);
      while true
        invariant Valid() && Finite(settle) && DoRead(View(), op) == DoRead(old(View()), op)
        invariant PlainBound() == old(PlainBound()) && TlsBound() == old(TlsBound())
        invariant PlainBound() ==>
                    Lines.ReadString(old(kernel.wire), CurrentLimit(), [])
                    == Lines.ReadString(kernel.wire, CurrentLimit(), readBuffer)
        invariant TlsBound() ==>
                    && Nonblocking() == old(Nonblocking())
                    && TlsLines.TlsString(old(kernel.session), CurrentLimit(), Nonblocking(), settle, [])
                       == TlsLines.TlsString(kernel.session, CurrentLimit(), Nonblocking(), settle, readBuffer)
        decreases if TlsBound() then settle + 1 - kernel.session.turn else |kernel.wire.inbox|,
                  if TlsBound() then |kernel.session.pending| else 0
      {
        ReadOne(kernel.wire, CurrentLimit());
        if TlsBound() {
          TlsLines.ByteTaken(kernel.session, CurrentLimit(), Nonblocking(), settle);
        }
        var rc, c := Next(settle);
        if rc > 0 {
          SetBuffer(readBuffer + [c]);
          if c == 0 {
            return Some(readBuffer);
          }
        } else if rc == 0 {
          if readBuffer == [] {
            return None;
          }
          return Some(readBuffer);
        } else {
          SetBuffer([]);
          return None;
        }
      }
    }

    /** closeDescriptor(). */
    method CloseDescriptor()
      requires Valid()
      modifies this`sock, kernel`os
      ensures Valid()
      ensures View() == old(View()).(sock := 0,
                                     os := if old(sock) == 0 then old(kernel.os)
                                           else CloseFd(old(kernel.os), old(sock)))
    {
      if sock == 0 {
        return;
      }
      kernel.os := CloseFd(kernel.os, sock);
      sock := 0;
    }

    method Close() returns (ok: bool)
      requires Valid()
      modifies this`sock, this`error, comm, kernel`os
      ensures Valid() && (ok, View()) == DoClose(old(View()))
      ensures error == if ok then old(error) else Some(AlreadyFinished)
    {
      if sock == 0 {
        return true;
      }
      if comm != null {
        ok := FinishComm();
        if !ok {
          CloseDescriptor();
          return false;
        }
      }
      CloseDescriptor();
      return true;
    }

    /** The destructor. */
    method Teardown()
      requires Valid()
      modifies this`sock, this`error, this`comm, comm, kernel`os
      ensures View() == Destroy(old(View()))
    {
      if sock != 0 && comm != null {
        var _ := comm.FinishUp();
      }
      CloseDescriptor();
      if comm != null {
        var _ := comm.FinishUp();
        comm := null;
      }
    }
  }

  lemma ChainedSame(s: State, s': State)
    requires s'.hops == s.hops && s'.secs == s.secs && s'.micros == s.micros
    ensures Chained(s) == Chained(s')
  {
  }

  lemma ChainedIs(s: State, hops: seq<Hop>)
    requires hops == [Hop(NormalHop, [], 0, NOBODY, 0, 0, None)] + s.hops
    ensures WithTimeout(hops, s.secs, s.micros) == Chained(s)
  {
  }

  /** What reading one byte comes to, for each kind of comm object. */
  lemma OneByte(c: CommState, os: Os, w: Wire, s: Session, limit: Option<nat>, scope: ScopeAnswers, settle: nat)
    requires Secured(c) ==> TlsLines.Closes(s, settle)
    ensures Settles(c, s, limit, settle)
    ensures var t := ReadOutcome(c, os, w, s, 1, limit, scope, settle);
            && (t.rc > 0 ==> |t.bytes| == 1)
            && (c.sock == 0 || (c.secure && c.ssl == 0) ==> t.rc == -1)
            && (c.sock != 0 && !c.secure ==>
                  var r := Read(w, 1, limit); t.rc == r.Rc() && t.bytes == r.bytes && t.wire == r.wire)
            && (Secured(c) ==>
                  var o := TlsLines.ReadByte(s, limit, NonblockingInside(c.sock, os, limit, scope), settle);
                  t.rc == o.rc && t.bytes == o.bytes && t.session == o.session)
  {
    ReadOne(w, limit);
    if Secured(c) {
      TlsLines.ByteTaken(s, limit, NonblockingInside(c.sock, os, limit, scope), settle);
    }
  }
}
