/** Socket_Connect and its subclasses as objects, each owning the next hop of its chain. */
module Connection {
  import opened Wire
  import opened Os
  import opened Comm
  import opened Socks5
  import opened Chain
  import Dial
  import DialHop
  import HttpProxy
  import HttpProxyHop
  import SocksHop = Socks5Hop

  class Connect {
    const kernel: Kernel
    const kind: Kind
    const comm: Comm
    const buffer: array<byte>
    var server: seq<byte>
    var port: int
    var credentials: Credentials
    var timeoutSecs: nat
    var timeoutMicros: nat
    var error: Option<Error>
    var child: Connect?

    ghost var Repr: set<object>
    ghost var Hops: seq<Hop>

    function Self(): Hop
      reads this
    {
      Hop(kind, server, port, credentials, timeoutSecs, timeoutMicros, error)
    }

    ghost predicate Valid()
      reads this, Repr
      decreases Repr
      ensures Valid() ==> this in Repr && kernel !in Repr && Hops != [] && Hops[0] == Self()
    {
      && {this, comm, buffer} <= Repr && kernel !in Repr
      && comm.kernel == kernel && !comm.secure && buffer.Length == BUFFER_SIZE
      && (child == null ==> Hops == [Self()])
      && (child != null ==>
            && child in Repr && child.Repr < Repr && {this, comm, buffer} !! child.Repr
            && child.kernel == kernel && child.Valid() && Hops == [Self()] + child.Hops)
    }

    /** No hop from here on has bound its own comm object yet: none has been connected through. */
    ghost predicate Idle()
      requires Valid()
      reads this, Repr
      decreases Repr
    {
      comm.sock == 0 && (child != null ==> child.Idle())
    }

    constructor (kernel: Kernel, kind: Kind, server: seq<byte>, port: int, credentials: Credentials)
      ensures Valid() && Idle() && fresh(Repr) && this.kernel == kernel
      ensures Hops == [Hop(kind, server, port, credentials, 0, 0, None)]
    {
      this.kernel, this.kind, this.server, this.port, this.credentials := kernel, kind, server, port, credentials;
      timeoutSecs, timeoutMicros, error, child := 0, 0, None, null;
      comm := new Comm(kernel, false, false);
      buffer := new byte[BUFFER_SIZE];
      new;
      Repr := {this, comm, buffer};
      Hops := [Self()];
    }

    /** setChild(): this object takes over next, if there is one, and lets go of the child it had. */
    method SetChild(next: Connect?)
      requires Valid()
      requires next != null ==> next.Valid() && next.kernel == kernel && next.Repr !! Repr
      modifies this
      ensures Valid() && Repr == {this, comm, buffer} + (if next == null then {} else next.Repr)
      ensures Hops == [Self()] + (if next == null then [] else next.Hops) && Self() == old(Self())
      ensures comm.sock == 0 && (next != null ==> next.Idle()) ==> Idle()
    {
      child := next;
      Repr := {this, comm, buffer};
      Hops := [Self()];
      if next != null {
        Repr := Repr + next.Repr;
        Hops := Hops + next.Hops;
      }
    }

    /** setTimeout() cascades to the end of the chain. */
    method SetTimeout(secs: nat, micros: nat)
      requires Valid()
      modifies Repr
      decreases Repr
      ensures Valid() && Repr == old(Repr) && Hops == WithTimeout(old(Hops), secs, micros)
      ensures old(Idle()) ==> Idle()
    {
      hide WithTimeout;
      WithTimeoutStep(Hops, secs, micros);
      timeoutSecs, timeoutMicros := secs, micros;
      if child != null {
        assert Hops[1..] == child.Hops;
        child.SetTimeout(secs, micros);
        Hops := [Self()] + child.Hops;
      } else {
        Hops := [Self()];
      }
    }

    /** simpleConnect(): the descriptor is the caller's variable, passed in and out.  A hop that talks
        binds its own comm object to it. */
    method SimpleConnect(sock: nat, host: seq<byte>, port: int) returns (ok: bool, sock': nat)
      requires Valid() && comm.sock == 0 && (kind.Socks5Hop? ==> FitsAuth(credentials) && FitsRequest(host))
      modifies this`error, this`Hops, comm, buffer, kernel`os, kernel`wire, kernel`session, kernel`calls
      ensures var d := Simple(old(Self()), Line(sock, old(kernel.os), old(kernel.wire)), host, port, kernel.dial);
              && ok == d.ok && Line(sock', kernel.os, kernel.wire) == d.line && error == Override(d.error, old(error))
      ensures Valid() && Hops == [Self()] + old(Hops)[1..] && kernel.session == old(kernel.session)
      ensures kernel.calls == old(kernel.calls) + [Call(kind, host, port)]
      ensures kernel.wire != old(kernel.wire) ==> comm.sock == sock == sock'
    {
      hide Dial.SimpleConnect, Handshake, HttpProxy.Tunnel, NotePlain, Limit, Connect.Idle;
      kernel.calls := kernel.calls + [Call(kind, host, port)];
      var e: Option<Error> := None;
      sock' := sock;
      match kind {
        case NormalHop =>
          ok, sock', e := DialHop.DialOut(kernel, sock, host, port, timeoutSecs, timeoutMicros);
        case Socks5Hop =>
          ok, e := Negotiate(sock, host, port);
        case ProxyHop =>
          ok, e := Tunnel(sock, host, port);
        case TunnelHop =>
          ok := true;
      }
      if e.Some? {
        error := e;
      }
      Hops := [Self()] + Hops[1..];
    }

    /** The SOCKS5 hop, and what it leaves in the log of the descriptor that it talks over. */
    method Negotiate(sock: nat, host: seq<byte>, port: int) returns (ok: bool, e: Option<Error>)
      requires comm.kernel == kernel && !comm.secure && buffer.Length == BUFFER_SIZE && comm.sock == 0
      requires FitsAuth(credentials) && FitsRequest(host)
      modifies comm, buffer, kernel`os, kernel`wire, kernel`session
      ensures var r := Handshake(credentials, sock, host, port, old(kernel.wire), Limit(timeoutSecs, timeoutMicros));
              && ok == r.ok && e == r.error && kernel.wire == r.wire
              && kernel.os == NotePlain(old(kernel.os), sock, old(kernel.wire), r.wire)
      ensures kernel.session == old(kernel.session) && (kernel.wire != old(kernel.wire) ==> comm.sock == sock)
    {
      var before := kernel.wire;
      ok, e := SocksHop.SimpleConnect(comm, buffer, credentials, sock, host, port, timeoutSecs, timeoutMicros);
      kernel.os := NotePlain(kernel.os, comm.sock, before, kernel.wire);
    }

    /** The HTTP hop, likewise. */
    method Tunnel(sock: nat, host: seq<byte>, port: int) returns (ok: bool, e: Option<Error>)
      requires comm.kernel == kernel && !comm.secure && comm.sock == 0
      modifies comm, kernel`os, kernel`wire, kernel`session
      ensures var r := HttpProxy.Tunnel(sock, host, port, old(kernel.wire), Limit(timeoutSecs, timeoutMicros));
              && ok == r.ok && e == r.error && kernel.wire == r.wire
              && kernel.os == NotePlain(old(kernel.os), sock, old(kernel.wire), r.wire)
      ensures kernel.session == old(kernel.session) && (kernel.wire != old(kernel.wire) ==> comm.sock == sock)
    {
      var before := kernel.wire;
      ok, e := HttpProxyHop.SimpleConnect(comm, sock, host, port, timeoutSecs, timeoutMicros);
      kernel.os := NotePlain(kernel.os, comm.sock, before, kernel.wire);
    }

    /** The child's error becomes this object's own. */
    method Adopt(ok: bool)
      requires {this, comm, buffer} <= Repr && kernel !in Repr
      requires comm.kernel == kernel && !comm.secure && buffer.Length == BUFFER_SIZE
      requires child != null && child in Repr && child.Repr < Repr && {this, comm, buffer} !! child.Repr
      requires child.kernel == kernel && child.Valid()
      modifies this`error, this`Hops
      ensures Valid() && Hops == [Self()] + child.Hops && error == if ok then old(error) else child.error
    {
      if !ok {
        error := child.error;
      }
      Hops := [Self()] + child.Hops;
    }

    /** connect(): to the child if there is one, which then connects onwards. */
    method ConnectTo(sock: nat, host: seq<byte>, port: int) returns (ok: bool, sock': nat)
      requires Valid() && Idle() && Fits(Hops, host)
      modifies Repr, kernel`os, kernel`wire, kernel`session, kernel`calls
      decreases Repr, 1
      ensures Valid() && Repr == old(Repr) && Route(Hops) == Route(old(Hops))
      ensures var w := Walk(old(Hops), Line(sock, old(kernel.os), old(kernel.wire)), host, port, kernel.dial);
              && ok == w.ok && Line(sock', kernel.os, kernel.wire) == w.line && error == w.error
              && kernel.calls == old(kernel.calls) + w.calls
      ensures kernel.session == old(kernel.session)
    {
      hide Simple, Route;
      assert FitsAt(Hops, 0, host) && Hops[0..] == Hops;
      if child != null {
        assert Hops[1] == child.Self() && Hops[1..] == child.Hops;
        FitsTail(Hops, host);
        ok, sock' := SimpleConnect(sock, child.server, child.port);
        assert Hops == [Self()] + child.Hops;
        if ok {
          ok, sock' := Onwards(sock', host, port);
        }
        RouteStep(Hops);
        RouteStep(old(Hops));
      } else {
        ok, sock' := SimpleConnect(sock, host, port);
        RouteStep(Hops);
        RouteStep(old(Hops));
      }
    }

    /** The child connects onwards, and its error is passed on. */
    method Onwards(sock: nat, host: seq<byte>, port: int) returns (ok: bool, sock': nat)
      requires Valid() && child != null && child.Idle() && Fits(child.Hops, host)
      modifies Repr, kernel`os, kernel`wire, kernel`session, kernel`calls
      decreases Repr, 0
      ensures Valid() && Repr == old(Repr) && Self() == old(Self()).(error := error)
      ensures Hops[0] == Self() && Route(Hops[1..]) == Route(old(Hops)[1..])
      ensures var w := Walk(old(Hops)[1..], Line(sock, old(kernel.os), old(kernel.wire)), host, port, kernel.dial);
              && ok == w.ok && Line(sock', kernel.os, kernel.wire) == w.line
              && error == (if ok then old(error) else w.error)
              && kernel.calls == old(kernel.calls) + w.calls
      ensures kernel.session == old(kernel.session)
    {
      hide Walk, Route;
      assert Hops[1..] == child.Hops;
      ok, sock' := child.ConnectTo(sock, host, port);
      Adopt(ok);
      assert Hops[1..] == child.Hops;
    }
  }

  /** The messages of every SOCKS5 hop fit its buffer. */
  predicate FitsAt(hops: seq<Hop>, i: nat, host: seq<byte>)
    requires i < |hops|
  {
    hops[i].kind.Socks5Hop? ==> FitsAuth(hops[i].credentials) && FitsRequest(Target(hops[i..], host, 0).0)
  }

  predicate Fits(hops: seq<Hop>, host: seq<byte>) {
    forall i :: 0 <= i < |hops| ==> FitsAt(hops, i, host)
  }

  lemma FitsTail(hops: seq<Hop>, host: seq<byte>)
    requires hops != [] && Fits(hops, host)
    ensures Fits(hops[1..], host)
  {
    forall i | 0 <= i < |hops| - 1
      ensures FitsAt(hops[1..], i, host)
    {
      assert FitsAt(hops, i + 1, host) && hops[1..][i..] == hops[i + 1..];
    }
  }

  /** The chain without the errors its hops have recorded. */
  function Route(hops: seq<Hop>): seq<Hop> {
    seq(|hops|, i requires 0 <= i < |hops| => hops[i].(error := None))
  }

  lemma RouteStep(hops: seq<Hop>)
    requires hops != []
    ensures Route(hops) == [hops[0].(error := None)] + Route(hops[1..])
  {
  }

  function WithTimeout(hops: seq<Hop>, secs: nat, micros: nat): seq<Hop> {
    seq(|hops|, i requires 0 <= i < |hops| => hops[i].(secs := secs, micros := micros))
  }

  lemma WithTimeoutStep(hops: seq<Hop>, secs: nat, micros: nat)
    requires hops != []
    ensures WithTimeout(hops, secs, micros)
            == [hops[0].(secs := secs, micros := micros)] + WithTimeout(hops[1..], secs, micros)
    ensures |hops| == 1 ==> WithTimeout(hops, secs, micros) == [hops[0].(secs := secs, micros := micros)]
  {
  }
}
