/** Runs of one socket through proxies, from the inserts to the lines that the destination sends. */
module ProxiedRuns {
  import opened Wire
  import opened Os
  import opened Socks5
  import opened Chain
  import opened ChainAlignment
  import opened ChainSpeech
  import opened Comm
  import opened Connection
  import opened Lifecycle
  import opened LifecycleTheorems
  import opened Lines
  import Client
  import Dial
  import HttpProxy

  /** Where the connection goes on to from the proxy that was inserted as number i, counting from 1;
      from the client itself that is proxy |ps|. */
  function NextStop(ps: seq<Hop>, i: nat, host: seq<byte>, port: int): (seq<byte>, int)
    requires i <= |ps|
  {
    if i == 0 then (host, port) else (ps[i - 1].server, ps[i - 1].port)
  }

  predicate Reachable(ps: seq<Hop>, i: nat, host: seq<byte>, port: int)
    requires i <= |ps|
  {
    var (h, p) := NextStop(ps, i, host, port);
    h != [] && 0 < p <= 0x7fffffff && (i < |ps| ==> Askable(ps[i], h, p))
  }

  /** Proxies of any kind, in the order of insertion, with the answers they will give: all conform to
      their protocols, have addresses, and report no bound name that cannot be skipped. */
  predicate ReadyProxies(ps: seq<Hop>, rs: seq<Answer>, host: seq<byte>, port: int) {
    && AllConform(ps, rs)
    && (forall i :: 0 <= i < |ps| ==> !ps[i].kind.NormalHop? && SkippableAnswer(rs[i]))
    && (forall i :: 0 <= i <= |ps| ==> Reachable(ps, i, host, port))
  }

  /** What the client hears from the proxies: from the last inserted one first. */
  function Replies(ps: seq<Hop>, rs: seq<Answer>): seq<byte>
    requires AllConform(ps, rs)
  {
    if ps == [] then [] else BytesOf(rs[|rs| - 1]) + Replies(ps[..|ps| - 1], rs[..|rs| - 1])
  }

  lemma InsertedConform(ps: seq<Hop>, rs: seq<Answer>)
    requires AllConform(ps, rs)
    ensures AllConform(Inserted(ps), Inserted(rs))
  {
    InsertedReverses(ps);
    InsertedReverses(rs);
  }

  lemma {:induction false} RepliesInOrder(ps: seq<Hop>, rs: seq<Answer>)
    requires AllConform(ps, rs)
    ensures AllConform(Inserted(ps), Inserted(rs)) && Script(Inserted(ps), Inserted(rs)) == Replies(ps, rs)
  {
    InsertedConform(ps, rs);
    if ps != [] {
      var n := |ps| - 1;
      RepliesInOrder(ps[..n], rs[..n]);
      assert Inserted(ps)[1..] == Inserted(ps[..n]) && Inserted(rs)[1..] == Inserted(rs[..n]);
    }
  }

  /** Only the answers matter for what is heard. */
  lemma {:induction false} ScriptOfAnswers(hops: seq<Hop>, hops': seq<Hop>, rs: seq<Answer>)
    requires AllConform(hops, rs) && AllConform(hops', rs)
    ensures Script(hops, rs) == Script(hops', rs)
  {
    if hops != [] {
      ScriptOfAnswers(hops[1..], hops'[1..], rs[1..]);
    }
  }

  /** The answers of the whole chain, that of the normal hop first. */
  function InDialOrder(rs: seq<Answer>): seq<Answer> {
    [Silence] + Inserted(rs)
  }

  lemma DialOrder(rs: seq<Answer>)
    ensures var all := InDialOrder(rs);
            && |all| == |rs| + 1 && all[0] == Silence && all[1..] == Inserted(rs)
            && (forall i :: 1 <= i < |all| ==> all[i] == rs[|rs| - i])
            && (forall i :: 0 <= i < |rs| ==> rs[i] == all[|rs| - i])
  {
    InsertedReverses(rs);
  }

  lemma AdmitInOrder(rs: seq<Answer>)
    ensures AllAdmit(InDialOrder(rs)) <==> AllAdmit(rs)
  {
    hide InDialOrder;
    DialOrder(rs);
  }

  lemma AskableInOrder(s: State, ps: seq<Hop>, rs: seq<Answer>, host: seq<byte>, port: int)
    requires s.hops == Inserted(ps) && ReadyProxies(ps, rs, host, port)
    ensures AllAskable(Chained(s), host, port)
  {
    ChainedReversed(s, ps);
    var hops, n := Chained(s), |ps|;
    hide Chained;
    forall i | 0 <= i < |hops|
      ensures AskableAt(hops, i, host, port)
    {
      assert Reachable(ps, n - i, host, port);
      assert i + 1 < |hops| ==> hops[i..][1] == hops[i + 1];
    }
  }

  lemma SilenceConforms()
    ensures Conforms(NormalHop, Silence) && BytesOf(Silence) == []
  {
  }

  lemma ConformInOrder(s: State, ps: seq<Hop>, rs: seq<Answer>)
    requires s.hops == Inserted(ps) && AllConform(ps, rs)
    ensures AllConform(Chained(s), InDialOrder(rs))
    ensures Script(Chained(s), InDialOrder(rs)) == Replies(ps, rs)
  {
    hide Chained, InDialOrder, Inserted, Replies, Conforms;
    ChainedReversed(s, ps);
    DialOrder(rs);
    RepliesInOrder(ps, rs);
    SilenceConforms();
    var hops, all := Chained(s), InDialOrder(rs);
    forall i | 0 <= i < |hops|
      ensures Conforms(hops[i].kind, all[i])
    {
      if i > 0 {
        assert Conforms(ps[|ps| - i].kind, rs[|rs| - i]);
      }
    }
    assert AllConform(hops[1..], all[1..]);
    ScriptOfAnswers(hops[1..], Inserted(ps), Inserted(rs));
    assert [] + Script(hops[1..], all[1..]) == Script(hops[1..], all[1..]);
  }

  /** The chain that connect() builds is one whose alignment has been proved. */
  lemma ProxiesReady(s: State, ps: seq<Hop>, rs: seq<Answer>, host: seq<byte>, port: int)
    requires s.hops == Inserted(ps) && ReadyProxies(ps, rs, host, port)
    ensures ReadyChain(Chained(s), InDialOrder(rs), host, port, Limit(s.secs, s.micros))
    ensures InDialOrder(rs) != []
    ensures forall i :: 0 <= i < |InDialOrder(rs)| ==> SkippableAnswer(InDialOrder(rs)[i])
  {
    AskableInOrder(s, ps, rs, host, port);
    ConformInOrder(s, ps, rs);
    ChainedReversed(s, ps);
    DialOrder(rs);
    hide Chained, InDialOrder, AllAskable, AllConform, Reachable;
    var hops, all := Chained(s), InDialOrder(rs);
    forall i | 1 <= i < |hops|
      ensures !hops[i].kind.NormalHop? && SkippableAnswer(all[i])
    {
      assert hops[i].kind == ps[|ps| - i].kind && all[i] == rs[|rs| - i];
    }
  }

  /** What a connect from state s comes to, through proxies that answer rs.  If its walk succeeds - as it
      does, if the client's messages get through, whenever the first connection is made and all proxies
      admit the client - then all of them did, and rest is what is left to be read: not one byte of an
      answer is left over, and not one byte of rest is lost.  A plain connect then has succeeded, with the
      comm object bound in the clear to the new descriptor; connectSSL() goes on to its handshake. */
  ghost predicate ComesThrough(s: State, op: Op, rs: seq<Answer>, rest: seq<Event>)
    requires op.Connect?
  {
    var (ok, s') := DoConnect(s, op);
    var w := WalkOf(s, op);
    var (h, p) := Target(Chained(s), op.host, op.port);
    && (w.ok ==> AllAdmit(rs) && w.line.wire.inbox == rest)
    && (op.wire.outbox == [] ==>
          (w.ok <==> AllAdmit(rs)
                     && Dial.SimpleConnect(Drop(s.comm, s.os), s.sock, h, p, s.secs, s.micros, op.dial(h, p)).ok))
    && s'.secs == s.secs && s'.micros == s.micros
    && (w.ok ==> s'.sock != 0 && s'.sock in s'.os.open)
    && (!op.secure ==> ok == w.ok && (ok ==> s'.comm == Some(CommState(false, s'.sock, 0, 0))))
  }

  lemma WalkConnects(s: State, op: Op)
    requires Inv(s) && op.Connect?
    ensures var (ok, s') := DoConnect(s, op);
            && s'.secs == s.secs && s'.micros == s.micros
            && (WalkOf(s, op).ok ==> s'.sock != 0 && s'.sock in s'.os.open)
            && (!op.secure ==> ok == WalkOf(s, op).ok && (ok ==> s'.comm == Some(CommState(false, s'.sock, 0, 0))))
  {
    hide Walk, Finish, Bind;
    ConnectSucceedsIff(s, op);
  }

  lemma ConnectsFrom(s: State, op: Op, ps: seq<Hop>, rs: seq<Answer>, es: seq<Event>, rest: seq<Event>)
    requires Inv(s) && s.hops == Inserted(ps) && op.Connect?
    requires ReadyProxies(ps, rs, op.host, op.port)
    requires Prompt(es, Replies(ps, rs), Limit(s.secs, s.micros)) && op.wire.inbox == es + rest
    ensures ComesThrough(s, op, rs, rest)
  {
    hide Dial.SimpleConnect, Simple, Walk, Finish, DoConnect, Inv, Prompt, ReadyChain, AllAdmit,
         InDialOrder, SkippableAnswer, Chained;
    var os := Drop(s.comm, s.os);
    ProxiesReady(s, ps, rs, op.host, op.port);
    ConformInOrder(s, ps, rs);
    AdmitInOrder(rs);
    WalkConnects(s, op);
    FreshDescriptor(s);
    ChainAligned(Chained(s), InDialOrder(rs), Chain.Line.Line(s.sock, os, op.wire), op.host, op.port, op.dial,
                 Limit(s.secs, s.micros), es, rest);
    RootDials(s, op);
  }

  /** The normal hop in front of the chain makes the first connection. */
  lemma RootDials(s: State, op: Op)
    requires op.Connect?
    ensures var os := Drop(s.comm, s.os);
            var (h, p) := Target(Chained(s), op.host, op.port);
            Simple(Chained(s)[0], Chain.Line.Line(s.sock, os, op.wire), h, p, op.dial).ok
            == Dial.SimpleConnect(os, s.sock, h, p, s.secs, s.micros, op.dial(h, p)).ok
  {
  }

  lemma FreshDescriptor(s: State)
    requires Inv(s)
    ensures Drop(s.comm, s.os).nextFd > 0 && Drop(s.comm, s.os).nextFd !in Drop(s.comm, s.os).open
  {
    DropKeeps(s.comm, s.os, s.sock);
  }

  /** In any legal run, through all the proxies inserted in it so far: let these answer promptly and in
      conformance, and let the stream go on with rest. */
  lemma ConnectsThroughProxies(ops: seq<Op>, op: Op, rs: seq<Answer>, es: seq<Event>, rest: seq<Event>)
    requires op.Connect? && LegalRun(ops + [op])
    requires ReadyProxies(InsertsOf(ops), rs, op.host, op.port)
    requires Prompt(es, Replies(InsertsOf(ops), rs), Limit(Run(START, ops).secs, Run(START, ops).micros))
    requires op.wire.inbox == es + rest
    ensures ComesThrough(Run(START, ops), op, rs, rest)
  {
    assert (ops + [op])[..|ops|] == ops;
    RunKeeps(ops);
    HopsAreInserted(ops);
    ConnectsFrom(Run(START, ops), op, InsertsOf(ops), rs, es, rest);
  }

  /** And then the first line that the destination sends is what the next readline() returns; and lines
      that it sends with CRLF until it closes are what the documented loop sees. */
  lemma LinesThroughProxies(ops: seq<Op>, op: Op, rs: seq<Answer>, es: seq<Event>, lines: seq<seq<byte>>,
        tail: seq<byte>, ls: seq<Event>, rest: seq<Event>)
    requires op.Connect? && !op.secure && LegalRun(ops + [op]) && DoConnect(Run(START, ops), op).0
    requires ReadyProxies(InsertsOf(ops), rs, op.host, op.port)
    requires var limit := Limit(Run(START, ops).secs, Run(START, ops).micros);
             && Prompt(es, Replies(InsertsOf(ops), rs), limit)
             && Prompt(ls, Joined(lines) + tail, limit) && AtEnd(rest, limit) && op.wire.inbox == es + (ls + rest)
    requires (forall i :: 0 <= i < |lines| ==> Clean(lines[i])) && Clean(tail)
    ensures var limit := Limit(Run(START, ops).secs, Run(START, ops).micros);
            var w := WalkOf(Run(START, ops), op).line.wire;
            && Drain(w, limit).0 == lines + (if tail == [] then [] else [tail])
            && (lines != [] ==> ReadLine(w, limit, [], NUL).text == Some(lines[0]))
  {
    hide DoConnect, WalkOf, Step, Prompt, AtEnd, ReadyProxies, Drain, ReadLine;
    var limit := Limit(Run(START, ops).secs, Run(START, ops).micros);
    ConnectsThroughProxies(ops, op, rs, es, ls + rest);
    LinesRoundTrip(WalkOf(Run(START, ops), op).line.wire, limit, lines, tail, ls, rest);
    FirstOfDrain(WalkOf(Run(START, ops), op).line.wire, limit);
  }

  lemma FirstOfDrain(w: Wire, limit: Option<nat>)
    ensures Drain(w, limit).0 != [] ==> ReadLine(w, limit, [], NUL).text == Some(Drain(w, limit).0[0])
  {
  }

  /** The same of the object: connect, and read the first line. */
  method FirstLine(socket: Client.Socket, host: seq<byte>, port: int, ghost ps: seq<Hop>, ghost rs: seq<Answer>,
        ghost es: seq<Event>, ghost line: seq<byte>, ghost ls: seq<Event>, ghost rest: seq<Event>)
    returns (ok: bool, text: Option<seq<byte>>)
    requires socket.Valid() && !socket.Taken && Inv(socket.View())
    requires socket.Hops == Inserted(ps) && ReadyProxies(ps, rs, host, port)
    requires Prompt(es, Replies(ps, rs), socket.CurrentLimit())
    requires Prompt(ls, line, socket.CurrentLimit()) && OneLine(NUL, line)
    requires socket.kernel.wire.inbox == es + (ls + rest)
    modifies socket.Repr, socket.kernel`os, socket.kernel`wire, socket.kernel`session, socket.kernel`calls
    ensures socket.Valid() && (ok ==> AllAdmit(rs) && text == Some(Strip(line)) && socket.kernel.wire.inbox == rest)
  {
    hide DoConnect, WalkOf, DoRead, Prompt, OneLine, Inv, Strip, Bind;
    ghost var s := socket.View();
    ghost var op := Op.Connect(false, host, port, socket.kernel.dial, socket.kernel.wire, socket.kernel.session,
                               socket.kernel.tls, socket.kernel.scope);
    SocksHopsFit(s, ps, rs, host, port);
    ConnectsFrom(s, op, ps, rs, es, ls + rest);
    ok := socket.Connect(false, host, port);
    text := None;
    if ok {
      LineTaken(socket.kernel.wire, socket.CurrentLimit(), [], NUL, line, ls, rest);
      assert [] + Strip(line) == Strip(line);
      text := socket.ReadLine(0);
    }
  }

  /** Their messages fit the buffer, as the methods require. */
  lemma SocksHopsFit(s: State, ps: seq<Hop>, rs: seq<Answer>, host: seq<byte>, port: int)
    requires s.hops == Inserted(ps) && ReadyProxies(ps, rs, host, port)
    ensures Fits(Chained(s), host)
  {
    var hops := Chained(s);
    ProxiesReady(s, ps, rs, host, port);
    forall i | 0 <= i < |hops|
      ensures FitsAt(hops, i, host)
    {
      assert AskableAt(hops, i, host, port);
    }
  }

  // ---------------------------------------------------------------- what the proxies are told

  /** Proxies of any kind, in the order of insertion, that can be told where the connection goes on to. */
  predicate TellableProxies(ps: seq<Hop>, host: seq<byte>, port: int) {
    && (forall i :: 0 <= i < |ps| ==> !ps[i].kind.NormalHop?)
    && (forall i :: 0 <= i <= |ps| ==>
          Reachable(ps, i, host, port) && HttpProxy.SPACE !in NextStop(ps, i, host, port).0)
  }

  /** Hop i of the chain, counting from the normal hop as 0, is proxy n - i + 1, and its call goes on to
      the proxy inserted before it, or to the destination. */
  lemma CallInOrder(s: State, ps: seq<Hop>, host: seq<byte>, port: int, i: nat)
    requires s.hops == Inserted(ps) && i <= |ps|
    ensures |Chained(s)| == |ps| + 1
    ensures var (h, p) := NextStop(ps, |ps| - i, host, port);
            Plan(Chained(s), host, port)[i] == Call(Chained(s)[i].kind, h, p)
    ensures i > 0 ==> Chained(s)[i] == ps[|ps| - i].(secs := s.secs, micros := s.micros)
  {
    hide Chained, Inserted;
    ChainedReversed(s, ps);
  }

  lemma TellableInOrder(s: State, ps: seq<Hop>, host: seq<byte>, port: int)
    requires s.hops == Inserted(ps) && TellableProxies(ps, host, port)
    ensures AllTellable(Chained(s), host, port)
  {
    hide Chained, Plan;
    ChainedReversed(s, ps);
    var hops, n := Chained(s), |ps|;
    forall i | 0 <= i < |hops|
      ensures TellableAt(hops, i, host, port)
    {
      CallInOrder(s, ps, host, port, i);
      assert Reachable(ps, n - i, host, port);
    }
    forall i | 1 <= i < |hops|
      ensures !hops[i].kind.NormalHop?
    {
      assert hops[i].kind == ps[n - i].kind;
    }
  }

  /** The stages of the walk of a connect. */
  function StagesOf(s: State, op: Op): seq<Chain.Line>
    requires op.Connect?
  {
    Stages(Chained(s), Chain.Line.Line(s.sock, Drop(s.comm, s.os), op.wire), op.host, op.port, op.dial)
  }

  /** What hop i of the chain has said, to the proxy that it is. */
  predicate Told(s: State, op: Op, ps: seq<Hop>, i: nat)
    requires op.Connect? && 1 <= i <= |ps| && i + 1 < |StagesOf(s, op)|
  {
    var stages := StagesOf(s, op);
    var p := ps[|ps| - i];
    var (h, q) := NextStop(ps, |ps| - i, op.host, op.port);
    && Grows(stages[i], stages[i + 1]) && q >= 0
    && Speaks(p.kind, p.credentials, h, q, Between(stages[i], stages[i + 1]))
  }

  lemma ToldFrom(s: State, op: Op, ps: seq<Hop>, i: nat)
    requires Inv(s) && s.hops == Inserted(ps) && op.Connect? && op.wire.outbox == []
    requires TellableProxies(ps, op.host, op.port) && 1 <= i < |WalkOf(s, op).calls|
    ensures i <= |ps| && |StagesOf(s, op)| == |WalkOf(s, op).calls| + 1
    ensures Told(s, op, ps, i)
  {
    hide Chained, Walk, Stages, Finish, Speaks, Between, Grows, Plan, Inv;
    FreshDescriptor(s);
    TellableInOrder(s, ps, op.host, op.port);
    ChainedReversed(s, ps);
    var line := Chain.Line.Line(s.sock, Drop(s.comm, s.os), op.wire);
    WalkFollowsPlan(Chained(s), line, op.host, op.port, op.dial);
    CallInOrder(s, ps, op.host, op.port, i);
    WalkSpeaks(Chained(s), line, op.host, op.port, op.dial, i);
  }

  /** In every legal run: a connect, in the clear or not, tells each of its proxies as much as it has to
      know and no other - the proxy or the destination behind it, and its own credentials if it asks for
      some - whatever the proxies answer and however the connect ends, as long as its messages get
      through. */
  lemma ProxiesAreTold(ops: seq<Op>, op: Op, i: nat)
    requires op.Connect? && LegalRun(ops + [op]) && op.wire.outbox == []
    requires TellableProxies(InsertsOf(ops), op.host, op.port)
    requires 1 <= i < |WalkOf(Run(START, ops), op).calls|
    ensures i <= |InsertsOf(ops)| && |StagesOf(Run(START, ops), op)| == |WalkOf(Run(START, ops), op).calls| + 1
    ensures Told(Run(START, ops), op, InsertsOf(ops), i)
  {
    hide Step, Told, WalkOf, Inv, StagesOf;
    assert (ops + [op])[..|ops|] == ops;
    RunKeeps(ops);
    HopsAreInserted(ops);
    ToldFrom(Run(START, ops), op, InsertsOf(ops), i);
  }

  /** And if the connect gets through its chain then every proxy that answers only what it has read has
      read just that, under any fragmentation and wherever a send was cut short. */
  lemma ProxiesUnderstand(ops: seq<Op>, op: Op, i: nat, r: Answer)
    requires op.Connect? && LegalRun(ops + [op]) && WalkOf(Run(START, ops), op).ok
    requires TellableProxies(InsertsOf(ops), op.host, op.port) && 1 <= i <= |InsertsOf(ops)|
    requires var stages := StagesOf(Run(START, ops), op);
             var ps := InsertsOf(ops);
             |stages| == |ps| + 2 && Listens(ps[|ps| - i].kind, r, Between(stages[i], stages[i + 1]))
    ensures var stages := StagesOf(Run(START, ops), op);
            var ps := InsertsOf(ops);
            var p := ps[|ps| - i];
            var (h, q) := NextStop(ps, |ps| - i, op.host, op.port);
            && Grows(stages[i], stages[i + 1]) && q >= 0
            && Understands(p.kind, p.credentials, h, q, r, Between(stages[i], stages[i + 1]))
  {
    hide Chained, Walk, Stages, Finish, Step, Listens, Understands, Between, Grows, Plan;
    var s, ps := Run(START, ops), InsertsOf(ops);
    HopsAreInserted(ops);
    TellableInOrder(s, ps, op.host, op.port);
    ChainedReversed(s, ps);
    CallInOrder(s, ps, op.host, op.port, i);
    var rs := seq(|ps| + 1, _ => r);
    var line := Chain.Line.Line(s.sock, Drop(s.comm, s.os), op.wire);
    WalkAgrees(Chained(s), line, op.host, op.port, op.dial, rs, i);
  }

  /** How long a connect can wait for n proxies, in every run whose last timeout is of so many seconds
      and microseconds: one timeout for each byte in or out, and for at most 9 (n + 1) that do not come
      or go.  The first connection is apart from this. */
  lemma ProxiesKeepTimeout(ops: seq<Op>, op: Op)
    requires op.Connect? && LegalRun(ops + [op])
    ensures var w := WalkOf(Run(START, ops), op).line.wire;
            var (secs, micros) := TimeoutOf(ops);
            && op.wire.log <= w.log
            && (secs > 0 || micros > 0 ==>
                  w.waited <= op.wire.waited
                              + (|w.log| - |op.wire.log| + 9 * (|InsertsOf(ops)| + 1)) * (secs * 1000000 + micros))
  {
    hide Chained, Walk, Finish, Step;
    var s, ps := Run(START, ops), InsertsOf(ops);
    HopsAreInserted(ops);
    SettingsLast(ops);
    ChainedReversed(s, ps);
    WalkSpends(Chained(s), Chain.Line.Line(s.sock, Drop(s.comm, s.os), op.wire), op.host, op.port, op.dial, s.secs,
               s.micros);
  }

  /** A connect succeeds only if every SOCKS5 server and every HTTP proxy speaks within that timeout. */
  lemma SilentProxyFails(ops: seq<Op>, op: Op, i: nat)
    requires op.Connect? && LegalRun(ops + [op]) && WalkOf(Run(START, ops), op).ok
    requires var ps := InsertsOf(ops);
             1 <= i <= |ps| && (ps[|ps| - i].kind.Socks5Hop? || ps[|ps| - i].kind.ProxyHop?)
    ensures var stages := StagesOf(Run(START, ops), op);
            var (secs, micros) := TimeoutOf(ops);
            && |stages| == |InsertsOf(ops)| + 2 && stages[i].wire.inbox != [] && stages[i].wire.inbox[0].Byte?
            && (secs > 0 || micros > 0 ==> stages[i].wire.inbox[0].after <= secs * 1000000 + micros)
  {
    hide Chained, Walk, Stages, Finish, Step;
    var s, ps := Run(START, ops), InsertsOf(ops);
    HopsAreInserted(ops);
    SettingsLast(ops);
    ChainedReversed(s, ps);
    WalkHears(Chained(s), Chain.Line.Line(s.sock, Drop(s.comm, s.os), op.wire), op.host, op.port, op.dial, i);
  }
}
