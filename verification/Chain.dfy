/** The chain of hops: Socket_Connect::connect() of src/socket_connect.cpp over the hops that
    src/rude_socketimpl.cpp strings together. */
module Chain {
  import opened Wire
  import opened Os
  import opened Socks5
  import Dial
  import HttpProxy

  datatype Kind = NormalHop | Socks5Hop | ProxyHop | TunnelHop

  /** error is what getError() of the hop says; None is the empty string it starts with. */
  datatype Hop = Hop(kind: Kind, server: seq<byte>, port: int, credentials: Credentials,
                     secs: nat, micros: nat, error: Option<Error>)

  /** What a hop works on: the caller's descriptor, the descriptor table and the byte streams. */
  datatype Line = Line(sock: nat, os: Os, wire: Wire)

  datatype Done = Done(ok: bool, error: Option<Error>, line: Line)

  /** simpleConnect(), by the kind of the hop. */
  function Simple(h: Hop, line: Line, host: seq<byte>, port: int, a: Dial.World): Done {
    match h.kind
    case NormalHop =>
      var d := Dial.SimpleConnect(line.os, line.sock, host, port, h.secs, h.micros, a(host, port));
      Done(d.ok, d.error, Line(d.sock, d.os, line.wire))
    case Socks5Hop =>
      var r := Handshake(h.credentials, line.sock, host, port, line.wire, Limit(h.secs, h.micros));
      Done(r.ok, r.error, Line(line.sock, NotePlain(line.os, line.sock, line.wire, r.wire), r.wire))
    case ProxyHop =>
      var r := HttpProxy.Tunnel(line.sock, host, port, line.wire, Limit(h.secs, h.micros));
      Done(r.ok, r.error, Line(line.sock, NotePlain(line.os, line.sock, line.wire, r.wire), r.wire))
    case TunnelHop =>
      Done(true, None, line)
  }

  datatype Call = Call(kind: Kind, host: seq<byte>, port: int)

  /** Where the first hop of a chain connects to: the next hop, or the destination. */
  function Target(hops: seq<Hop>, host: seq<byte>, port: int): (seq<byte>, int)
    requires hops != []
  {
    if |hops| == 1 then (host, port) else (hops[1].server, hops[1].port)
  }

  /** error is what getError() of the first hop says afterwards. */
  datatype Walked = Walked(ok: bool, error: Option<Error>, line: Line, calls: seq<Call>)

  function Override(e: Option<Error>, previous: Option<Error>): Option<Error> {
    if e.Some? then e else previous
  }

  function Walk(hops: seq<Hop>, line: Line, host: seq<byte>, port: int, a: Dial.World): Walked
    requires hops != []
    decreases |hops|
  {
    var (h, p) := Target(hops, host, port);
    var d := Simple(hops[0], line, h, p, a);
    var call := [Call(hops[0].kind, h, p)];
    if !d.ok || |hops| == 1 then Walked(d.ok, Override(d.error, hops[0].error), d.line, call)
    else
      var w := Walk(hops[1..], d.line, host, port, a);
      Walked(w.ok, if w.ok then Override(d.error, hops[0].error) else w.error, w.line, call + w.calls)
  }

  // ---------------------------------------------------------------- the order of the hops

  /** Every hop in order, each to the next, the last to the destination. */
  function Plan(hops: seq<Hop>, host: seq<byte>, port: int): seq<Call> {
    seq(|hops|, i requires 0 <= i < |hops| =>
          if i + 1 < |hops| then Call(hops[i].kind, hops[i + 1].server, hops[i + 1].port)
          else Call(hops[i].kind, host, port))
  }

  lemma PlanStep(hops: seq<Hop>, host: seq<byte>, port: int)
    requires hops != []
    ensures var (h, p) := Target(hops, host, port);
            Plan(hops, host, port) == [Call(hops[0].kind, h, p)] + Plan(hops[1..], host, port)
  {
  }

  /** The line as the hops that are called find it, one after the other, and as the last leaves it. */
  function Stages(hops: seq<Hop>, line: Line, host: seq<byte>, port: int, a: Dial.World): seq<Line>
    requires hops != []
    decreases |hops|
  {
    var (h, p) := Target(hops, host, port);
    var d := Simple(hops[0], line, h, p, a);
    [line] + if !d.ok || |hops| == 1 then [d.line] else Stages(hops[1..], d.line, host, port, a)
  }

  /** What the i-th hop makes of the line that it finds, called as planned. */
  function Outcome(hops: seq<Hop>, stages: seq<Line>, i: nat, host: seq<byte>, port: int, a: Dial.World): Done
    requires i < |hops| && i < |stages|
  {
    var call := Plan(hops, host, port)[i];
    Simple(hops[i], stages[i], call.host, call.port, a)
  }

  lemma OutcomeBehind(hops: seq<Hop>, stages: seq<Line>, i: nat, host: seq<byte>, port: int, a: Dial.World)
    requires 0 < i < |hops| && i < |stages|
    ensures Outcome(hops, stages, i, host, port, a) == Outcome(hops[1..], stages[1..], i - 1, host, port, a)
  {
    hide Simple;
  }

  /** The calls are the plan, cut off behind the first that fails. */
  lemma {:induction false} CallsFollowPlan(hops: seq<Hop>, line: Line, host: seq<byte>, port: int, a: Dial.World)
    requires hops != []
    ensures var w := Walk(hops, line, host, port, a);
            var stages := Stages(hops, line, host, port, a);
            && 0 < |w.calls| <= |hops| && w.calls == Plan(hops, host, port)[..|w.calls|]
            && (w.ok ==> |w.calls| == |hops|)
            && |stages| == |w.calls| + 1 && stages[0] == line && stages[|w.calls|] == w.line
    decreases |hops|
  {
    hide Simple;
    PlanStep(hops, host, port);
    var (h, p) := Target(hops, host, port);
    var d := Simple(hops[0], line, h, p, a);
    if d.ok && |hops| > 1 {
      CallsFollowPlan(hops[1..], d.line, host, port, a);
      var k := |Walk(hops[1..], d.line, host, port, a).calls|;
      assert Plan(hops, host, port)[..k + 1] == [Call(hops[0].kind, h, p)] + Plan(hops[1..], host, port)[..k];
    }
  }

  /** The simpleConnect() calls are the plan, cut off behind the first hop that fails: none is skipped,
      repeated or tried after a failure.  Each hop but the last succeeds and hands its line on; the
      outcome and the line of the last are those of the walk.  What getError() of a failing hop says
      is what the root reports, whatever the hops in between had to say. */
  lemma {:induction false} WalkFollowsPlan(hops: seq<Hop>, line: Line, host: seq<byte>, port: int, a: Dial.World)
    requires hops != []
    ensures var w := Walk(hops, line, host, port, a);
            var stages := Stages(hops, line, host, port, a);
            && 0 < |w.calls| <= |hops| && w.calls == Plan(hops, host, port)[..|w.calls|]
            && (w.ok ==> |w.calls| == |hops|)
            && |stages| == |w.calls| + 1 && stages[0] == line && stages[|w.calls|] == w.line
    ensures var w := Walk(hops, line, host, port, a);
            var stages := Stages(hops, line, host, port, a);
            forall i :: 0 <= i < |w.calls| ==>
              var d := Outcome(hops, stages, i, host, port, a);
              d.line == stages[i + 1] && d.ok == (w.ok || i < |w.calls| - 1)
    ensures var w := Walk(hops, line, host, port, a);
            var k := |w.calls| - 1;
            !w.ok ==> w.error == Override(Outcome(hops, Stages(hops, line, host, port, a), k, host, port, a).error,
                                          hops[k].error)
    decreases |hops|
  {
    CallsFollowPlan(hops, line, host, port, a);
    PlanStep(hops, host, port);
    hide Simple, Plan;
    var (h, p) := Target(hops, host, port);
    var d := Simple(hops[0], line, h, p, a);
    var stages := Stages(hops, line, host, port, a);
    var w := Walk(hops, line, host, port, a);
    assert Outcome(hops, stages, 0, host, port, a) == d;
    if d.ok && |hops| > 1 {
      WalkFollowsPlan(hops[1..], d.line, host, port, a);
      var tail := Stages(hops[1..], d.line, host, port, a);
      hide Outcome;
      assert stages[1..] == tail;
      forall i | 1 <= i < |w.calls|
        ensures Outcome(hops, stages, i, host, port, a) == Outcome(hops[1..], tail, i - 1, host, port, a)
      {
        OutcomeBehind(hops, stages, i, host, port, a);
      }
    }
  }

  /** insertSocks5(), insertProxy() and insertTunnel() put the new hop in front. */
  function Inserted<T>(ps: seq<T>): seq<T> {
    if ps == [] then [] else [ps[|ps| - 1]] + Inserted(ps[..|ps| - 1])
  }

  lemma {:induction false} InsertedReverses<T>(ps: seq<T>)
    ensures |Inserted(ps)| == |ps|
    ensures forall i :: 0 <= i < |ps| ==> Inserted(ps)[i] == ps[|ps| - 1 - i]
  {
    if ps != [] {
      InsertedReverses(ps[..|ps| - 1]);
    }
  }

  /** After inserting p1 ... pn, connecting to d dials pn from here, then p(n-1) through pn, and so on
      down to p1, and from p1 the destination. */
  lemma {:induction false} DialledInReverse(root: Hop, ps: seq<Hop>, host: seq<byte>, port: int)
    ensures var calls := Plan([root] + Inserted(ps), host, port);
            var n := |ps|;
            && |calls| == n + 1
            && (n == 0 ==> calls[0] == Call(root.kind, host, port))
            && (n > 0 ==> calls[0] == Call(root.kind, ps[n - 1].server, ps[n - 1].port))
            && (n > 0 ==> calls[n] == Call(ps[0].kind, host, port))
            && (forall i :: 1 <= i < n ==> calls[i] == Call(ps[n - i].kind, ps[n - i - 1].server, ps[n - i - 1].port))
  {
    InsertedReverses(ps);
  }

  /** The documentation promises the order of insertion.  That is the order of the walk exactly for
      lists of proxies that read the same backwards. */
  lemma InsertionOrderIff(ps: seq<Hop>)
    ensures Inserted(ps) == ps <==> forall i :: 0 <= i < |ps| ==> ps[i] == ps[|ps| - 1 - i]
  {
    InsertedReverses(ps);
  }

  /** Two different proxies are enough to tell the orders apart. */
  lemma TwoProxiesSwapped(p: Hop, q: Hop)
    ensures Inserted([p, q]) == [q, p]
  {
    InsertedReverses([p, q]);
  }
}
