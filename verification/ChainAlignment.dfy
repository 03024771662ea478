/** Every hop of a chain negotiates in-band on one byte stream, so the chain works only if each hop
    takes exactly its own reply. */
module ChainAlignment {
  import opened Wire
  import opened Os
  import opened Socks5
  import opened Chain
  import Dial
  import HttpProxy

  /** What the far side of a hop says: nothing, a SOCKS5 session, or an HTTP header section. */
  datatype Answer = Silence | Session(reply: Reply) | Header(h: seq<byte>)

  /** The answer is one that a conforming far side of this kind of hop can give. */
  predicate Conforms(kind: Kind, r: Answer) {
    match kind
    case NormalHop => r.Silence?
    case TunnelHop => r.Silence?
    case Socks5Hop => r.Session? && Wellformed(r.reply) && (r.reply.method_ == 0 || r.reply.method_ == 2)
    case ProxyHop => r.Header? && HttpProxy.HeaderSection(r.h)
  }

  function BytesOf(r: Answer): seq<byte>
    requires r.Session? ==> Wellformed(r.reply)
  {
    match r
    case Silence => []
    case Session(reply) => SessionOf(reply)
    case Header(h) => h
  }

  /** The far side lets the client through. */
  predicate Admits(r: Answer) {
    match r
    case Silence => true
    case Session(reply) => Grants(reply)
    case Header(h) => |h| > 9 && h[9] == HttpProxy.DIGIT_2
  }

  predicate SkippableAnswer(r: Answer) {
    r.Session? ==> Skippable(r.reply.bound)
  }

  predicate AllConform(hops: seq<Hop>, rs: seq<Answer>) {
    |hops| == |rs| && forall i :: 0 <= i < |hops| ==> Conforms(hops[i].kind, rs[i])
  }

  /** All the answers of a chain, first hop first. */
  function Script(hops: seq<Hop>, rs: seq<Answer>): seq<byte>
    requires AllConform(hops, rs)
  {
    if hops == [] then [] else BytesOf(rs[0]) + Script(hops[1..], rs[1..])
  }

  /** The hop can be asked to connect there: a host and a port are set, and the messages fit. */
  predicate Askable(h: Hop, host: seq<byte>, port: int) {
    && host != [] && 0 < port <= 0x7fffffff
    && (h.kind.Socks5Hop? ==> FitsAuth(h.credentials) && FitsRequest(host))
    && (h.kind.ProxyHop? ==> |host| <= 0x3fffffff)
  }

  predicate AskableAt(hops: seq<Hop>, i: nat, host: seq<byte>, port: int)
    requires i < |hops|
  {
    var (h, p) := Target(hops[i..], host, port);
    Askable(hops[i], h, p)
  }

  predicate AllAskable(hops: seq<Hop>, host: seq<byte>, port: int) {
    forall i :: 0 <= i < |hops| ==> AskableAt(hops, i, host, port)
  }

  lemma AskableTail(hops: seq<Hop>, host: seq<byte>, port: int)
    requires hops != [] && AllAskable(hops, host, port)
    ensures AllAskable(hops[1..], host, port)
  {
    forall i | 0 <= i < |hops[1..]|
      ensures AskableAt(hops[1..], i, host, port)
    {
      assert AskableAt(hops, i + 1, host, port);
      assert hops[1..][i..] == hops[i + 1..];
    }
  }

  /** All hops have the same timeout, as setTimeout() sees to. */
  predicate SameLimit(hops: seq<Hop>, limit: Option<nat>) {
    forall i :: 0 <= i < |hops| ==> Limit(hops[i].secs, hops[i].micros) == limit
  }

  /** An in-band hop, on its own. */
  lemma {:induction false} HopAligned(h: Hop, r: Answer, line: Line, host: seq<byte>, port: int, a: Dial.World,
        es: seq<Event>, rest: seq<Event>)
    requires !h.kind.NormalHop? && line.sock != 0 && Conforms(h.kind, r) && Askable(h, host, port)
    requires Prompt(es, BytesOf(r), Limit(h.secs, h.micros)) && line.wire.inbox == es + rest
    ensures var d := Simple(h, line, host, port, a);
            && (d.ok ==> Admits(r))
            && (d.ok ==> (d.line.wire.inbox == rest <==> SkippableAnswer(r)))
            && (d.ok ==> d.line.sock == line.sock)
            && (line.wire.outbox == [] ==> (d.ok <==> Admits(r)))
            && (line.wire.outbox == [] && d.ok ==> d.line.wire.outbox == [])
  {
    match h.kind
    case TunnelHop =>
      assert es == [] && es + rest == rest;
    case Socks5Hop =>
      HandshakeAlignedIff(h.credentials, line.sock, host, port, line.wire, r.reply, es, rest, Limit(h.secs, h.micros));
    case ProxyHop =>
      HttpProxy.TunnelAligned(line.sock, host, port, line.wire, r.h, es, rest, Limit(h.secs, h.micros));
  }

  /** What every statement about the in-band part of a chain assumes.  The last answer may be one
      that its hop cannot skip. */
  predicate Ready(hops: seq<Hop>, rs: seq<Answer>, host: seq<byte>, port: int, limit: Option<nat>) {
    && hops != [] && AllConform(hops, rs) && AllAskable(hops, host, port) && SameLimit(hops, limit)
    && (forall i :: 0 <= i < |hops| ==> !hops[i].kind.NormalHop?)
    && (forall i :: 0 <= i < |rs| - 1 ==> SkippableAnswer(rs[i]))
  }

  predicate AllAdmit(rs: seq<Answer>) {
    forall i :: 0 <= i < |rs| ==> Admits(rs[i])
  }

  lemma AdmitStep(rs: seq<Answer>)
    requires rs != []
    ensures AllAdmit(rs) <==> Admits(rs[0]) && AllAdmit(rs[1..])
  {
    assert forall i :: 0 <= i < |rs| ==> rs[i] == if i == 0 then rs[0] else rs[1..][i - 1];
  }

  lemma ReadyTail(hops: seq<Hop>, rs: seq<Answer>, host: seq<byte>, port: int, limit: Option<nat>)
    requires Ready(hops, rs, host, port, limit)
    ensures var (h, p) := Target(hops, host, port);
            Conforms(hops[0].kind, rs[0]) && Askable(hops[0], h, p) && Limit(hops[0].secs, hops[0].micros) == limit
    ensures |hops| > 1 ==> SkippableAnswer(rs[0]) && Ready(hops[1..], rs[1..], host, port, limit)
  {
    assert AskableAt(hops, 0, host, port) && hops[0..] == hops;
    if |hops| > 1 {
      AskableTail(hops, host, port);
    }
  }

  lemma ScriptSplit(hops: seq<Hop>, rs: seq<Answer>, limit: Option<nat>, es: seq<Event>)
    requires hops != [] && AllConform(hops, rs) && Prompt(es, Script(hops, rs), limit)
    ensures var n := |BytesOf(rs[0])|;
            && n <= |es| && Prompt(es[..n], BytesOf(rs[0]), limit)
            && AllConform(hops[1..], rs[1..]) && Prompt(es[n..], Script(hops[1..], rs[1..]), limit)
  {
    var n := |BytesOf(rs[0])|;
    assert BytesOf(rs[0]) == Script(hops, rs)[..n];
    assert Script(hops[1..], rs[1..]) == Script(hops, rs)[n..];
  }

  /** What success or failure says about the answers rs, and what is left of the inbox. */
  ghost predicate Aligned(ok: bool, inbox: seq<Event>, rs: seq<Answer>, unobstructed: bool, rest: seq<Event>)
    requires rs != []
  {
    && (ok ==> AllAdmit(rs) && (inbox == rest <==> SkippableAnswer(rs[|rs| - 1])))
    && (unobstructed ==> (ok <==> AllAdmit(rs)))
  }

  lemma {:induction false} TailAligned(hops: seq<Hop>, rs: seq<Answer>, line: Line, host: seq<byte>, port: int,
        a: Dial.World, limit: Option<nat>, es: seq<Event>, rest: seq<Event>)
    requires Ready(hops, rs, host, port, limit) && line.sock != 0
    requires Prompt(es, Script(hops, rs), limit) && line.wire.inbox == es + rest
    ensures var w := Walk(hops, line, host, port, a);
            Aligned(w.ok, w.line.wire.inbox, rs, line.wire.outbox == [], rest)
    decreases |hops|
  {
    hide Simple;
    var (h, p) := Target(hops, host, port);
    var n := |BytesOf(rs[0])|;
    ReadyTail(hops, rs, host, port, limit);
    ScriptSplit(hops, rs, limit, es);
    assert es + rest == es[..n] + (es[n..] + rest);
    HopAligned(hops[0], rs[0], line, h, p, a, es[..n], es[n..] + rest);
    AdmitStep(rs);
    var d := Simple(hops[0], line, h, p, a);
    if |hops| == 1 {
      assert Script(hops[1..], rs[1..]) == [];
      assert es[n..] + rest == rest;
    } else if d.ok {
      TailAligned(hops[1..], rs[1..], d.line, host, port, a, limit, es[n..], rest);
      assert rs[1..][|rs| - 2] == rs[|rs| - 1];
    }
  }

  /** The normal hop touches the byte streams not at all, and yields a descriptor if it succeeds. */
  lemma NormalHopAligned(h: Hop, line: Line, host: seq<byte>, port: int, a: Dial.World)
    requires h.kind.NormalHop? && line.os.nextFd > 0 && line.os.nextFd !in line.os.open
    ensures var d := Simple(h, line, host, port, a); d.line.wire == line.wire && (d.ok ==> d.line.sock != 0)
  {
    Dial.DescriptorHandedOverOrClosed(line.os, line.sock, host, port, h.secs, h.micros, a(host, port));
  }

  /** A chain as connect() builds it: a normal hop first, then any mix of SOCKS5 hops, HTTP proxies and
      tunnels, with conforming answers of which all but the last can be skipped. */
  predicate ReadyChain(hops: seq<Hop>, rs: seq<Answer>, host: seq<byte>, port: int, limit: Option<nat>) {
    && hops != [] && hops[0].kind.NormalHop?
    && AllConform(hops, rs) && AllAskable(hops, host, port) && SameLimit(hops, limit)
    && (forall i :: 1 <= i < |hops| ==> !hops[i].kind.NormalHop?)
    && (forall i :: 0 <= i < |rs| - 1 ==> SkippableAnswer(rs[i]))
  }

  lemma {:induction false} ReadyBehindNormal(hops: seq<Hop>, rs: seq<Answer>, host: seq<byte>, port: int,
        limit: Option<nat>)
    requires ReadyChain(hops, rs, host, port, limit)
    ensures rs[0] == Silence && Script(hops, rs) == Script(hops[1..], rs[1..])
    ensures |hops| > 1 ==> Ready(hops[1..], rs[1..], host, port, limit)
  {
    assert Conforms(hops[0].kind, rs[0]);
    AskableTail(hops, host, port);
  }

  /** Let every far side of a chain of any length answer promptly and in conformance.  If connect()
      reports success then every far side admitted the client; if the client's messages get through,
      success is what it reports whenever they all do and the first connection is made.  And on
      success the bytes consumed are exactly the concatenation of the answers, so that the next read
      yields the destination's first byte - as long as no SOCKS5 server reports a bound domain name
      of 128 bytes or more; for the last answer, exactly if it does not. */
  lemma {:induction false} ChainAligned(hops: seq<Hop>, rs: seq<Answer>, line: Line, host: seq<byte>, port: int,
        a: Dial.World, limit: Option<nat>, es: seq<Event>, rest: seq<Event>)
    requires ReadyChain(hops, rs, host, port, limit)
    requires line.os.nextFd > 0 && line.os.nextFd !in line.os.open
    requires Prompt(es, Script(hops, rs), limit) && line.wire.inbox == es + rest
    ensures var w := Walk(hops, line, host, port, a);
            var (h, p) := Target(hops, host, port);
            && (w.ok ==> AllAdmit(rs))
            && (w.ok ==> (w.line.wire.inbox == rest <==> SkippableAnswer(rs[|rs| - 1])))
            && (line.wire.outbox == [] ==> (w.ok <==> Simple(hops[0], line, h, p, a).ok && AllAdmit(rs)))
  {
    hide Simple;
    var (h, p) := Target(hops, host, port);
    var d := Simple(hops[0], line, h, p, a);
    NormalHopAligned(hops[0], line, h, p, a);
    ReadyBehindNormal(hops, rs, host, port, limit);
    AdmitStep(rs);
    if |hops| == 1 {
      assert es == [] && es + rest == rest;
    } else if d.ok {
      TailAligned(hops[1..], rs[1..], d.line, host, port, a, limit, es, rest);
    }
  }
}
