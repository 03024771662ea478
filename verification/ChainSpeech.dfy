/** What the hops of a chain tell the proxies on their way, and how long they wait for them. */
module ChainSpeech {
  import opened Wire
  import opened Os
  import opened Socks5
  import opened Socks5Agreement
  import opened Chain
  import opened ChainAlignment
  import Dial
  import HttpProxy

  // ---------------------------------------------------------------- one hop

  /** The hop can be asked to connect there, by a proxy that can read where. */
  predicate Tellable(h: Hop, host: seq<byte>, port: int) {
    Askable(h, host, port) && (h.kind.ProxyHop? ==> HttpProxy.SPACE !in host)
  }

  /** What has happened on the byte streams between two lines. */
  function Between(before: Line, after: Line): seq<Action> {
    if before.wire.log <= after.wire.log then after.wire.log[|before.wire.log|..] else []
  }

  predicate Grows(before: Line, after: Line) {
    before.wire.log <= after.wire.log
  }

  /** A hop of this kind, which is to go on to host and port with these credentials, has said the right
      things to its far side, given what it has heard from it. */
  predicate Speaks(kind: Kind, c: Credentials, host: seq<byte>, port: nat, log: seq<Action>) {
    match kind
    case NormalHop => log == []
    case TunnelHop => log == []
    case Socks5Hop => Says(c, host, port, Gots(log), Sents(log))
    case ProxyHop => HttpProxy.ParseConnect(Sents(log)) == Some((host, port))
  }

  lemma Grown(before: Line, after: Line, log: seq<Action>)
    requires after.wire.log == before.wire.log + log
    ensures Grows(before, after) && Between(before, after) == log
  {
  }

  /** A hop whose messages get through, whatever it hears and however it ends. */
  lemma HopSpeaks(h: Hop, line: Line, host: seq<byte>, port: int, a: Dial.World)
    requires Tellable(h, host, port) && line.wire.outbox == [] && (!h.kind.NormalHop? ==> line.sock != 0)
    ensures var after := Simple(h, line, host, port, a).line;
            && after.wire.outbox == [] && Grows(line, after)
            && Speaks(h.kind, h.credentials, host, port, Between(line, after))
            && (!h.kind.NormalHop? ==> after.sock == line.sock)
  {
    hide Handshake, HttpProxy.Tunnel, Says, HttpProxy.ParseConnect, Sents, Gots, Dial.SimpleConnect, Between, Grows;
    var after := Simple(h, line, host, port, a).line;
    var limit := Limit(h.secs, h.micros);
    match h.kind
    case NormalHop =>
      Grown(line, after, []);
    case TunnelHop =>
      Grown(line, after, []);
    case Socks5Hop =>
      var log := HandshakeSays(h.credentials, line.sock, host, port, line.wire, limit);
      Grown(line, after, log);
    case ProxyHop =>
      var log, message := HttpProxy.TunnelAsks(line.sock, host, port, line.wire, limit);
      Grown(line, after, log);
  }

  /** The far side of a hop answers only what it has read: a server or a proxy of the kind that the hop
      expects, which makes the choices in r. */
  ghost predicate Listens(kind: Kind, r: Answer, log: seq<Action>) {
    match kind
    case NormalHop => true
    case TunnelHop => true
    case Socks5Hop => r.Session? && Wellformed(r.reply) && Causal(r.reply, log)
    case ProxyHop => r.Header? && HttpProxy.AnswersInTurn(r.h, log)
  }

  /** It has read exactly where the hop is to go on to, and as whom, and a SOCKS5 server has granted it. */
  predicate Understands(kind: Kind, c: Credentials, host: seq<byte>, port: nat, r: Answer, log: seq<Action>) {
    match kind
    case NormalHop => true
    case TunnelHop => true
    case Socks5Hop =>
      && r.Session? && Wellformed(r.reply)
      && var served := Serve(r.reply, Sents(log));
         && served.granted && served.request == Some((host, port % 65536))
         && ((served.method_ == Some(0) && served.credentials == None)
             || (served.method_ == Some(2) && served.credentials == Some(c)))
    case ProxyHop => HttpProxy.ParseConnect(Sents(log)) == Some((host, port))
  }

  lemma {:induction false} HopAgrees(h: Hop, line: Line, host: seq<byte>, port: int, a: Dial.World, r: Answer)
    requires Tellable(h, host, port) && Simple(h, line, host, port, a).ok
    requires Listens(h.kind, r, Between(line, Simple(h, line, host, port, a).line))
    ensures var after := Simple(h, line, host, port, a).line;
            && Grows(line, after)
            && Understands(h.kind, h.credentials, host, port, r, Between(line, after))
  {
    hide Handshake, HttpProxy.Tunnel, HttpProxy.ParseConnect, Sents, Gots, Dial.SimpleConnect, Causal,
         HttpProxy.AnswersInTurn, Serve;
    var after := Simple(h, line, host, port, a).line;
    var limit := Limit(h.secs, h.micros);
    match h.kind
    case NormalHop =>
    case TunnelHop =>
    case Socks5Hop =>
      HandshakeExtends(h.credentials, line.sock, host, port, line.wire, limit);
      assert after.wire.log == line.wire.log + Between(line, after);
      Agreement(r.reply, h.credentials, line.sock, host, port, line.wire, limit, Between(line, after));
    case ProxyHop =>
      TunnelExtends(line.sock, host, port, line.wire, limit);
      assert after.wire.log == line.wire.log + Between(line, after);
      HttpProxy.TunnelAgreement(r.h, line.sock, host, port, line.wire, limit, Between(line, after));
  }

  lemma TunnelExtends(sock: nat, host: seq<byte>, port: int, w: Wire, limit: Option<nat>)
    requires 0 < port <= 0x7fffffff && |host| <= 0x3fffffff && HttpProxy.Tunnel(sock, host, port, w, limit).ok
    ensures w.log <= HttpProxy.Tunnel(sock, host, port, w, limit).wire.log
  {
    hide HttpProxy.Tunnel;
    if sock == 0 || host == [] {
      HttpProxy.TunnelRefuses(sock, host, port, w, limit);
    } else {
      var part, got := HttpProxy.TunnelLog(sock, host, port, w, limit);
      assert w.log + SentAll(part) + GotAll(got) == w.log + (SentAll(part) + GotAll(got));
    }
  }

  /** Any hop waits at most one of its timeouts for each byte in or out, and for nine that do not come
      or go. */
  lemma HopSpends(h: Hop, line: Line, host: seq<byte>, port: int, a: Dial.World)
    ensures Spends(line.wire, Simple(h, line, host, port, a).line.wire, Limit(h.secs, h.micros), 9)
  {
    hide Handshake, HttpProxy.Tunnel, Dial.SimpleConnect, Spends, Limit;
    var limit := Limit(h.secs, h.micros);
    HandshakeSpends(h.credentials, line.sock, host, port, line.wire, limit);
    HttpProxy.TunnelSpends(line.sock, host, port, line.wire, limit);
    SpendsMore(line.wire, HttpProxy.Tunnel(line.sock, host, port, line.wire, limit).wire, limit, 3, 9);
    NothingSpent(line.wire, limit);
    SpendsMore(line.wire, line.wire, limit, 0, 9);
  }

  /** The first byte of the far side has come within the timeout. */
  predicate HeardFrom(line: Line, limit: Option<nat>) {
    !NoByte(line.wire.inbox, limit)
  }

  /** A hop that negotiates succeeds only if its far side speaks within the timeout. */
  lemma {:induction false} HopHears(h: Hop, line: Line, host: seq<byte>, port: int, a: Dial.World)
    requires Simple(h, line, host, port, a).ok && (h.kind.Socks5Hop? || h.kind.ProxyHop?)
    ensures HeardFrom(line, Limit(h.secs, h.micros))
  {
    hide Handshake, HttpProxy.Tunnel, Limit;
    var limit := Limit(h.secs, h.micros);
    if h.kind.Socks5Hop? {
      var heard, _ := HandshakeInTime(h.credentials, line.sock, host, port, line.wire, limit);
      assert Delivers(line.wire.inbox[..|heard|][0], heard[0], limit);
    } else {
      var heard := HttpProxy.TunnelConsumes(line.sock, host, port, line.wire, limit);
      assert Delivers(line.wire.inbox[..|heard|][0], heard[0], limit);
    }
  }

  // ---------------------------------------------------------------- the whole chain

  /** The chain as connect() builds it, every hop of which can be told where to go on to. */
  predicate AllTellable(hops: seq<Hop>, host: seq<byte>, port: int) {
    && hops != [] && hops[0].kind.NormalHop?
    && (forall i :: 1 <= i < |hops| ==> !hops[i].kind.NormalHop?)
    && forall i :: 0 <= i < |hops| ==> TellableAt(hops, i, host, port)
  }

  predicate TellableAt(hops: seq<Hop>, i: nat, host: seq<byte>, port: int)
    requires i < |hops|
  {
    var call := Plan(hops, host, port)[i];
    Tellable(hops[i], call.host, call.port)
  }

  /** Behind the normal hop there is a descriptor and nothing obstructs the sending. */
  predicate Clear(line: Line) {
    line.sock != 0 && line.wire.outbox == []
  }

  /** Hop i, called as planned, has spoken. */
  predicate SpeaksAt(hops: seq<Hop>, stages: seq<Line>, i: nat, host: seq<byte>, port: int)
    requires i < |hops| && i + 1 < |stages|
  {
    var call := Plan(hops, host, port)[i];
    && Grows(stages[i], stages[i + 1]) && call.port >= 0
    && Speaks(hops[i].kind, hops[i].credentials, call.host, call.port, Between(stages[i], stages[i + 1]))
  }

  /** The hops that are called find their line clear, but for the first. */
  lemma {:induction false} StagesClear(hops: seq<Hop>, line: Line, host: seq<byte>, port: int, a: Dial.World, i: nat)
    requires AllTellable(hops, host, port) && line.wire.outbox == []
    requires line.os.nextFd > 0 && line.os.nextFd !in line.os.open
    requires 1 <= i < |Walk(hops, line, host, port, a).calls|
    ensures |Stages(hops, line, host, port, a)| == |Walk(hops, line, host, port, a).calls| + 1
    ensures Clear(Stages(hops, line, host, port, a)[i])
    decreases i
  {
    hide Simple, Walk, Stages, Speaks, Tellable;
    WalkFollowsPlan(hops, line, host, port, a);
    var stages := Stages(hops, line, host, port, a);
    var call := Plan(hops, host, port)[i - 1];
    assert TellableAt(hops, i - 1, host, port);
    assert Outcome(hops, stages, i - 1, host, port, a).line == stages[i];
    if i == 1 {
      NormalHopAligned(hops[0], line, call.host, call.port, a);
      HopSpeaks(hops[0], line, call.host, call.port, a);
    } else {
      StagesClear(hops, line, host, port, a, i - 1);
      HopSpeaks(hops[i - 1], stages[i - 1], call.host, call.port, a);
    }
  }

  /** Chains of any length, whatever the far sides answer and however the walk ends, as long as the
      client's messages get through: every hop that is called tells its proxy the host and the port of
      its own call and, to a SOCKS5 server that asks, its own credentials; and normal hops and tunnels
      say nothing. */
  lemma WalkSpeaks(hops: seq<Hop>, line: Line, host: seq<byte>, port: int, a: Dial.World, i: nat)
    requires AllTellable(hops, host, port) && line.wire.outbox == []
    requires line.os.nextFd > 0 && line.os.nextFd !in line.os.open
    requires i < |Walk(hops, line, host, port, a).calls| <= |hops|
    ensures |Stages(hops, line, host, port, a)| == |Walk(hops, line, host, port, a).calls| + 1
    ensures SpeaksAt(hops, Stages(hops, line, host, port, a), i, host, port)
  {
    hide Simple, Walk, Stages, Speaks, Tellable, Between, Grows;
    WalkFollowsPlan(hops, line, host, port, a);
    var stages := Stages(hops, line, host, port, a);
    var call := Plan(hops, host, port)[i];
    assert TellableAt(hops, i, host, port);
    TellablePort(hops[i], call.host, call.port);
    if i > 0 {
      StagesClear(hops, line, host, port, a, i);
    }
    HopSpeaks(hops[i], stages[i], call.host, call.port, a);
    assert Outcome(hops, stages, i, host, port, a).line == stages[i + 1];
  }

  lemma TellablePort(h: Hop, host: seq<byte>, port: int)
    requires Tellable(h, host, port)
    ensures port > 0
  {
  }

  ghost predicate ListensAt(hops: seq<Hop>, stages: seq<Line>, rs: seq<Answer>, i: nat)
    requires i < |hops| == |rs| && i + 1 < |stages|
  {
    Listens(hops[i].kind, rs[i], Between(stages[i], stages[i + 1]))
  }

  ghost predicate UnderstandsAt(hops: seq<Hop>, stages: seq<Line>, rs: seq<Answer>, i: nat, host: seq<byte>, port: int)
    requires i < |hops| == |rs| && i + 1 < |stages|
  {
    var call := Plan(hops, host, port)[i];
    && Grows(stages[i], stages[i + 1]) && call.port >= 0
    && Understands(hops[i].kind, hops[i].credentials, call.host, call.port, rs[i], Between(stages[i], stages[i + 1]))
  }

  /** Client and proxies agree, for chains of any length, under any fragmentation and wherever a send was
      cut short: if connect() reports success then every proxy that answers only what it has read has
      read exactly the host and the port of its hop's call, and a SOCKS5 server that has asked for
      credentials that hop's own. */
  lemma WalkAgrees(hops: seq<Hop>, line: Line, host: seq<byte>, port: int, a: Dial.World, rs: seq<Answer>, i: nat)
    requires AllTellable(hops, host, port) && |rs| == |hops| && i < |hops|
    requires Walk(hops, line, host, port, a).ok && |Stages(hops, line, host, port, a)| == |hops| + 1
    requires ListensAt(hops, Stages(hops, line, host, port, a), rs, i)
    ensures UnderstandsAt(hops, Stages(hops, line, host, port, a), rs, i, host, port)
  {
    hide Simple, Walk, Stages, Listens, Understands, Tellable, Between, Grows;
    WalkFollowsPlan(hops, line, host, port, a);
    var stages := Stages(hops, line, host, port, a);
    var call := Plan(hops, host, port)[i];
    assert TellableAt(hops, i, host, port);
    TellablePort(hops[i], call.host, call.port);
    assert Outcome(hops, stages, i, host, port, a).line == stages[i + 1];
    HopAgrees(hops[i], stages[i], call.host, call.port, a, rs[i]);
  }

  /** A chain of n hops waits at most one timeout for each byte in or out, and for 9 n that do not come
      or go. */
  lemma {:induction false} WalkSpends(hops: seq<Hop>, line: Line, host: seq<byte>, port: int, a: Dial.World,
        secs: nat, micros: nat)
    requires hops != [] && forall i :: 0 <= i < |hops| ==> hops[i].secs == secs && hops[i].micros == micros
    ensures Spends(line.wire, Walk(hops, line, host, port, a).line.wire, Limit(secs, micros), 9 * |hops|)
    decreases |hops|
  {
    hide Simple, Spends, Limit;
    var (h, p) := Target(hops, host, port);
    var d := Simple(hops[0], line, h, p, a);
    HopSpends(hops[0], line, h, p, a);
    SpendsMore(line.wire, d.line.wire, Limit(secs, micros), 9, 9 * |hops|);
    if d.ok && |hops| > 1 {
      WalkSpends(hops[1..], d.line, host, port, a, secs, micros);
      SpendsThen(line.wire, d.line.wire, Walk(hops, line, host, port, a).line.wire, Limit(secs, micros), 9,
                 9 * (|hops| - 1));
    }
  }

  /** A walk succeeds only if every proxy speaks within the timeout. */
  lemma WalkHears(hops: seq<Hop>, line: Line, host: seq<byte>, port: int, a: Dial.World, i: nat)
    requires i < |hops| && Walk(hops, line, host, port, a).ok && (hops[i].kind.Socks5Hop? || hops[i].kind.ProxyHop?)
    ensures |Stages(hops, line, host, port, a)| == |hops| + 1
    ensures HeardFrom(Stages(hops, line, host, port, a)[i], Limit(hops[i].secs, hops[i].micros))
  {
    hide Simple, Walk, Stages, HeardFrom, Limit;
    WalkFollowsPlan(hops, line, host, port, a);
    var stages := Stages(hops, line, host, port, a);
    var call := Plan(hops, host, port)[i];
    assert Outcome(hops, stages, i, host, port, a).ok;
    HopHears(hops[i], stages[i], call.host, call.port, a);
  }
}
