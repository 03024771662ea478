/** More about whole runs: which descriptors leak, which stay non-blocking, and which TLS sessions are
    shut down too late. */
module LifecycleTheorems {
  import opened Wire
  import opened Os
  import opened Tls
  import opened Chain
  import opened Comm
  import opened Lifecycle
  import Dial

  // ---------------------------------------------------------------- descriptors

  /** The connect gets as far as socket(). */
  predicate ReachesSocket(s: State, op: Op) {
    op.Connect? && var (h, p) := Target(Chained(s), op.host, op.port); p > 0 && h != []
  }

  /** socket() has descriptor 0 to give. */
  predicate ZeroGranted(s: State, op: Op)
    requires op.Connect?
  {
    var (h, p) := Target(Chained(s), op.host, op.port);
    op.dial(h, p).socket.Zero?
  }

  function Bit(b: bool): nat {
    if b then 1 else 0
  }

  /** How many descriptors the operation loses: the one the socket had, if connect reaches socket()
      over it, and a descriptor 0, which connect takes for a failure. */
  function Lost(s: State, op: Op): nat {
    Bit(ReachesSocket(s, op) && s.sock != 0) + Bit(ReachesSocket(s, op) && ZeroGranted(s, op) && 0 !in s.os.open)
  }

  function LostIn(ops: seq<Op>): nat {
    if ops == [] then 0 else LostIn(ops[..|ops| - 1]) + Lost(Run(START, ops[..|ops| - 1]), ops[|ops| - 1])
  }

  lemma WalkOpens(s: State, os: Os, wire: Wire, host: seq<byte>, port: int, a: Dial.World)
    requires Sound(os, {}) && forall i :: 0 <= i < |s.hops| ==> !s.hops[i].kind.NormalHop?
    ensures var (h, p) := Target(Chained(s), host, port);
            var w := Walk(Chained(s), Line(s.sock, os, wire), host, port, a);
            var d := Dial.SimpleConnect(os, s.sock, h, p, s.secs, s.micros, a(h, p));
            && w.line.sock == d.sock && w.line.os.open == d.os.open && w.line.os.nonblocking == d.os.nonblocking
            && (w.ok ==> d.ok)
  {
    var hops := Chained(s);
    var line := Line(s.sock, os, wire);
    var (h, p) := Target(hops, host, port);
    var d := Simple(hops[0], line, h, p, a);
    DialKeeps(os, {}, s.sock, h, p, s.secs, s.micros, a(h, p));
    if d.ok && |hops| > 1 {
      assert forall i :: 0 <= i < |hops[1..]| ==> hops[1..][i].kind == s.hops[i].kind;
      TailKeeps(hops[1..], d.line, host, port, a, {});
    }
  }

  lemma Sizes(open: set<nat>, fd: nat)
    requires fd !in open
    ensures |open + {fd}| == |open| + 1
  {
  }

  lemma {:induction false} DialOpens(os: Os, sock: nat, h: seq<byte>, p: int, secs: nat, micros: nat, a: Dial.Answers)
    requires Sound(os, {})
    ensures var d := Dial.SimpleConnect(os, sock, h, p, secs, micros, a);
            var reached := p > 0 && h != [];
            |d.os.open| + Bit(sock != 0)
            == |os.open| + Bit(d.sock != 0) + Bit(reached && sock != 0)
               + Bit(reached && a.socket.Zero? && 0 !in os.open)
  {
    Dial.DescriptorHandedOverOrClosed(os, sock, h, p, secs, micros, a);
    Sizes(os.open, os.nextFd);
    if 0 !in os.open {
      Sizes(os.open, 0);
    }
    assert os.open + {} == os.open;
  }

  lemma {:induction false} ConnectOpens(s: State, op: Op)
    requires Inv(s) && op.Connect?
    ensures var s' := DoConnect(s, op).1;
            |s'.os.open| + Bit(s.sock != 0) == |s.os.open| + Bit(s'.sock != 0) + Lost(s, op)
  {
    hide Walk, Bind, Finish, Dial.SimpleConnect;
    DropKeeps(s.comm, s.os, s.sock);
    var os := Drop(s.comm, s.os);
    var (h, p) := Target(Chained(s), op.host, op.port);
    DialOpens(os, s.sock, h, p, s.secs, s.micros, op.dial(h, p));
    WalkOpens(s, os, op.wire, op.host, op.port, op.dial);
    var w := Walk(Chained(s), Line(s.sock, os, op.wire), op.host, op.port, op.dial);
    if w.ok {
      WalkKeeps(s, os, op.wire, op.host, op.port, op.dial);
      BindKeeps(op.secure, w.line.sock, w.line.os, op.session, s.verify, Limit(s.secs, s.micros), op.tls, op.scope);
    }
  }

  lemma CloseOpens(os: Os, fd: nat)
    requires fd in os.open
    ensures |CloseFd(os, fd).open| == |os.open| - 1
  {
  }

  lemma StartSslOpens(s: State, op: Op)
    requires Inv(s) && op.StartSsl?
    ensures var s' := DoStartSsl(s, op).1;
            |s'.os.open| + Bit(s.sock != 0) == |s.os.open| + Bit(s'.sock != 0)
  {
    if s.comm.Some? && s.sock != 0 && !s.comm.value.secure && s.comm.value.sock != 0 {
      assert LiveOf(s.comm.value) == {};
      BindKeeps(true, s.sock, s.os, op.session, s.verify, Limit(s.secs, s.micros), op.tls, op.scope);
      var b := Bind(CommState(true, 0, 0, 0), s.sock, s.os, op.session, s.verify, Limit(s.secs, s.micros),
                    op.tls, op.scope);
      CloseOpens(b.os, s.sock);
    }
  }

  lemma CloseStepOpens(s: State)
    requires Inv(s)
    ensures var s' := DoClose(s).1; |s'.os.open| + Bit(s.sock != 0) == |s.os.open| && s'.sock == 0
  {
    if s.sock != 0 {
      var os := if s.comm.Some? then Finish(s.comm.value, s.os).os else s.os;
      CloseOpens(os, s.sock);
    }
  }

  lemma {:induction false} StepOpens(s: State, op: Op)
    requires Inv(s) && Legal(s, op)
    ensures var s' := Step(s, op);
            |s'.os.open| + Bit(s.sock != 0) == |s.os.open| + Bit(s'.sock != 0) + Lost(s, op)
  {
    hide DoConnect, DoStartSsl, DoSend, DoRead, DoClose;
    match op
    case Insert(_) =>
    case SetTimeout(_, _) =>
    case SetVerify(_) =>
    case Connect(_, _, _, _, _, _, _, _) => ConnectOpens(s, op);
    case StartSsl(_, _, _) => StartSslOpens(s, op);
    case SendData(_, _, _) => SendOpens(s, op);
    case ReadData(_) => ReadOpens(s, op);
    case Close => CloseStepOpens(s);
  }

  lemma ReadOpens(s: State, op: Op)
    requires op.ReadData?
    ensures DoRead(s, op).os.open == s.os.open && DoRead(s, op).sock == s.sock
  {
  }

  lemma SendOpens(s: State, op: Op)
    requires Inv(s) && op.SendData?
    ensures DoSend(s, op).os.open == s.os.open && DoSend(s, op).sock == s.sock
  {
  }

  /** In every run the open descriptors are the socket's own, if it has one, and those that connect
      calls have lost: none is left behind by a failed resolution, connect, hop, handshake or
      shutdown. */
  lemma {:induction false} DescriptorsConserved(ops: seq<Op>)
    requires LegalRun(ops)
    ensures var s := Run(START, ops);
            |s.os.open| == Bit(s.sock != 0) + LostIn(ops) && (s.sock != 0 ==> s.sock in s.os.open)
  {
    RunKeeps(ops);
    if ops != [] {
      var init := ops[..|ops| - 1];
      DescriptorsConserved(init);
      RunKeeps(init);
      StepOpens(Run(START, init), ops[|ops| - 1]);
    }
  }

  /** After destruction nothing is open, if and only if no connect was called over a live descriptor
      and got as far as socket(), or was handed descriptor 0. */
  lemma {:induction false} NoneOpenAfterDestroy(ops: seq<Op>)
    requires LegalRun(ops)
    ensures |Destroy(Run(START, ops)).os.open| == LostIn(ops)
    ensures Destroy(Run(START, ops)).os.open == {} <==> LostIn(ops) == 0
  {
    DescriptorsConserved(ops);
    RunKeeps(ops);
    var s := Run(START, ops);
    CloseStepOpens(s);
    CloseKeeps(s);
    var s1 := DoClose(s).1;
    DropKeeps(s1.comm, s1.os, s1.sock);
  }

  // ---------------------------------------------------------------- blocking mode

  /** Putting back the old mode succeeds wherever the operation tries it. */
  predicate Restores(op: Op) {
    (op.Connect? || op.StartSsl? || op.SendData? || op.ReadData?) ==> op.scope.restore
  }

  ghost predicate AllBlocking(os: Os) {
    os.nonblocking !! os.open
  }

  lemma ScopeKeepsMode(os: Os, os1: Os, fd: nat, timed: bool, a: ScopeAnswers)
    requires AllBlocking(os) && fd in os.open && a.restore
    requires os1 == EnterScope(os, fd, timed, a).os.(log := os1.log)
    ensures LeaveScope(os1, fd, EnterScope(os, fd, timed, a), a).nonblocking == os.nonblocking
  {
    assert os.nonblocking + {fd} - {fd} == os.nonblocking;
  }

  lemma BindKeepsMode(c: CommState, fd: nat, os: Os, session: Session, verify: bool, limit: Option<nat>,
        tls: TlsAnswers, scope: ScopeAnswers)
    requires AllBlocking(os) && fd in os.open && scope.restore
    ensures var b := Bind(c, fd, os, session, verify, limit, tls, scope);
            b.os.nonblocking == os.nonblocking && b.os.open == os.open
  {
    if c.sock == 0 && fd != 0 && c.secure && tls.ctx && !(verify && !tls.certs) && tls.ssl {
      var os2 := MakeObj(MakeObj(os).1).1;
      ScopeKeepsMode(os2, Note(EnterScope(os2, fd, limit.Some?, scope).os, Shook(fd)), fd, limit.Some?, scope);
    }
  }

  lemma ConnectKeepsMode(s: State, op: Op)
    requires Inv(s) && AllBlocking(s.os) && op.Connect? && op.scope.restore
    ensures AllBlocking(DoConnect(s, op).1.os)
  {
    hide Walk, Bind, Finish;
    DropKeeps(s.comm, s.os, s.sock);
    var os := Drop(s.comm, s.os);
    var (h, p) := Target(Chained(s), op.host, op.port);
    WalkOpens(s, os, op.wire, op.host, op.port, op.dial);
    WalkKeeps(s, os, op.wire, op.host, op.port, op.dial);
    Dial.DescriptorHandedOverOrClosed(os, s.sock, h, p, s.secs, s.micros, op.dial(h, p));
    Dial.DialledIsBlocking(os, s.sock, h, p, s.secs, s.micros, op.dial(h, p));
    var w := Walk(Chained(s), Line(s.sock, os, op.wire), op.host, op.port, op.dial);
    if w.ok {
      BindKeepsMode(CommState(op.secure, 0, 0, 0), w.line.sock, w.line.os, op.session, s.verify,
                    Limit(s.secs, s.micros), op.tls, op.scope);
    }
  }

  lemma StepKeepsMode(s: State, op: Op)
    requires Inv(s) && Legal(s, op) && AllBlocking(s.os) && Restores(op)
    ensures AllBlocking(Step(s, op).os)
  {
    if op.Connect? {
      ConnectKeepsMode(s, op);
    } else if op.StartSsl? {
      if s.comm.Some? && s.sock != 0 && !s.comm.value.secure && s.comm.value.sock != 0 {
        BindKeepsMode(CommState(true, 0, 0, 0), s.sock, s.os, op.session, s.verify, Limit(s.secs, s.micros),
                      op.tls, op.scope);
      }
    } else if op.SendData? || op.ReadData? {
      if s.comm.Some? && s.comm.value.sock in s.os.open && s.comm.value.secure {
        var fd := s.comm.value.sock;
        var timed := Limit(s.secs, s.micros).Some?;
        ScopeKeepsMode(s.os, EnterScope(s.os, fd, timed, op.scope).os, fd, timed, op.scope);
      }
    }
  }

  /** Between operations every open descriptor is in blocking mode, in every run in which restoring
      the mode works; whatever else fails, including the restore of a timed connect. */
  lemma {:induction false} BlockingBetweenOperations(ops: seq<Op>)
    requires LegalRun(ops) && forall i :: 0 <= i < |ops| ==> Restores(ops[i])
    ensures AllBlocking(Run(START, ops).os)
  {
    if ops != [] {
      var init := ops[..|ops| - 1];
      BlockingBetweenOperations(init);
      RunKeeps(init);
      StepKeepsMode(Run(START, init), ops[|ops| - 1]);
    }
  }

  // ---------------------------------------------------------------- late shutdowns

  /** h shuts a TLS session down on a descriptor that has been closed before. */
  predicate Late(log: seq<Happening>, h: Happening) {
    h.Freed? && Closed(h.fd) in log
  }

  ghost predicate LateIn(log: seq<Happening>) {
    exists j :: 0 <= j < |log| && Late(log[..j], log[j])
  }

  /** A late shutdown has happened, or will: the comm still holds a session on a closed descriptor. */
  ghost predicate Stale(s: State) {
    LateIn(s.os.log) || (s.comm.Some? && s.comm.value.ssl != 0 && Closed(s.comm.value.sock) in s.os.log)
  }

  /** startSSL() is called over a plain connection, OpenSSL is in working order, and the peer does not
      complete the handshake. */
  predicate FailedUpgrade(s: State, op: Op) {
    && op.StartSsl? && s.sock != 0
    && s.comm.Some? && !s.comm.value.secure && s.comm.value.sock != 0
    && ReachesHandshake(s.verify, op.tls)
    && !HandshakeCompletes(s.sock, s.os, op.session, Limit(s.secs, s.micros), op.scope)
  }

  predicate UpgradeFailedIn(ops: seq<Op>) {
    ops != [] && (UpgradeFailedIn(ops[..|ops| - 1]) || FailedUpgrade(Run(START, ops[..|ops| - 1]), ops[|ops| - 1]))
  }

  lemma LateStep(log: seq<Happening>, h: Happening)
    ensures LateIn(log + [h]) <==> LateIn(log) || Late(log, h)
  {
    var log' := log + [h];
    if LateIn(log) {
      var j :| 0 <= j < |log| && Late(log[..j], log[j]);
      assert log'[..j] == log[..j] && log'[j] == log[j];
    }
    if Late(log, h) {
      assert log'[..|log|] == log && log'[|log|] == h;
    }
    if LateIn(log') {
      var j :| 0 <= j < |log'| && Late(log'[..j], log'[j]);
      if j < |log| {
        assert log'[..j] == log[..j];
      } else {
        assert log'[..j] == log;
      }
    }
  }

  /** log' continues log without freeing anything. */
  ghost predicate FreesNothing(log: seq<Happening>, log': seq<Happening>) {
    log <= log' && forall j :: |log| <= j < |log'| ==> !log'[j].Freed?
  }

  lemma {:induction false} LateSame(log: seq<Happening>, log': seq<Happening>)
    requires FreesNothing(log, log')
    ensures LateIn(log') <==> LateIn(log)
    decreases |log'|
  {
    if |log'| > |log| {
      var k := |log'| - 1;
      LateSame(log, log'[..k]);
      LateStep(log'[..k], log'[k]);
      assert log' == log'[..k] + [log'[k]];
    } else {
      assert log' == log;
    }
  }

  lemma {:induction false} TailFreesNothing(hops: seq<Hop>, line: Line, host: seq<byte>, port: int, a: Dial.World)
    requires hops != [] && forall i :: 0 <= i < |hops| ==> !hops[i].kind.NormalHop?
    ensures FreesNothing(line.os.log, Walk(hops, line, host, port, a).line.os.log)
    decreases |hops|
  {
    var (h, p) := Target(hops, host, port);
    var d := Simple(hops[0], line, h, p, a);
    assert FreesNothing(line.os.log, d.line.os.log);
    if d.ok && |hops| > 1 {
      TailFreesNothing(hops[1..], d.line, host, port, a);
    }
  }

  lemma {:induction false} WalkFreesNothing(s: State, os: Os, wire: Wire, host: seq<byte>, port: int, a: Dial.World)
    requires Sound(os, {}) && forall i :: 0 <= i < |s.hops| ==> !s.hops[i].kind.NormalHop?
    ensures FreesNothing(os.log, Walk(Chained(s), Line(s.sock, os, wire), host, port, a).line.os.log)
  {
    var hops := Chained(s);
    var line := Line(s.sock, os, wire);
    var (h, p) := Target(hops, host, port);
    var d := Simple(hops[0], line, h, p, a);
    Dial.DescriptorHandedOverOrClosed(os, s.sock, h, p, s.secs, s.micros, a(h, p));
    assert FreesNothing(os.log, d.line.os.log);
    if d.ok && |hops| > 1 {
      assert forall i :: 0 <= i < |hops[1..]| ==> hops[1..][i].kind == s.hops[i].kind;
      TailFreesNothing(hops[1..], d.line, host, port, a);
    }
  }

  lemma BindFreesNothing(c: CommState, fd: nat, os: Os, session: Session, verify: bool, limit: Option<nat>,
        tls: TlsAnswers, scope: ScopeAnswers)
    ensures FreesNothing(os.log, Bind(c, fd, os, session, verify, limit, tls, scope).os.log)
  {
  }

  lemma FinishLate(c: CommState, os: Os)
    requires Closed(0) !in os.log
    ensures LateIn(Finish(c, os).os.log)
            <==> LateIn(os.log) || (c.sock != 0 && c.secure && c.ssl != 0 && Closed(c.sock) in os.log)
  {
    var os1 := if c.ssl != 0 then Note(os, Freed(c.ssl, c.sock)) else os;
    LateStep(os.log, Freed(c.ssl, c.sock));
    LateStep(os1.log, Freed(c.ctx, 0));
  }

  lemma DropLate(s: State)
    requires Inv(s)
    ensures LateIn(Drop(s.comm, s.os).log) <==> Stale(s)
  {
    if s.comm.Some? {
      FinishLate(s.comm.value, s.os);
    }
  }

  lemma ConnectStale(s: State, op: Op)
    requires Inv(s) && op.Connect?
    ensures Stale(DoConnect(s, op).1) <==> Stale(s)
  {
    DropLate(s);
    DropKeeps(s.comm, s.os, s.sock);
    var os := Drop(s.comm, s.os);
    WalkFreesNothing(s, os, op.wire, op.host, op.port, op.dial);
    WalkKeeps(s, os, op.wire, op.host, op.port, op.dial);
    var w := Walk(Chained(s), Line(s.sock, os, op.wire), op.host, op.port, op.dial);
    LateSame(os.log, w.line.os.log);
    if w.ok {
      var limit := Limit(s.secs, s.micros);
      var c := CommState(op.secure, 0, 0, 0);
      BindFreesNothing(c, w.line.sock, w.line.os, op.session, s.verify, limit, op.tls, op.scope);
      BindKeeps(op.secure, w.line.sock, w.line.os, op.session, s.verify, limit, op.tls, op.scope);
      LateSame(w.line.os.log, Bind(c, w.line.sock, w.line.os, op.session, s.verify, limit, op.tls, op.scope).os.log);
    }
  }

  lemma StartSslStale(s: State, op: Op)
    requires Inv(s) && op.StartSsl?
    ensures Stale(DoStartSsl(s, op).1) <==> Stale(s) || FailedUpgrade(s, op)
  {
    if s.comm.Some? && s.sock != 0 && !s.comm.value.secure && s.comm.value.sock != 0 {
      var c := CommState(true, 0, 0, 0);
      var limit := Limit(s.secs, s.micros);
      assert LiveOf(s.comm.value) == {};
      BindFreesNothing(c, s.sock, s.os, op.session, s.verify, limit, op.tls, op.scope);
      BindKeeps(true, s.sock, s.os, op.session, s.verify, limit, op.tls, op.scope);
      BindFailsIff(c, s.sock, s.os, op.session, s.verify, limit, op.tls, op.scope);
      var b := Bind(c, s.sock, s.os, op.session, s.verify, limit, op.tls, op.scope);
      LateSame(s.os.log, b.os.log);
      LateStep(b.os.log, Closed(s.sock));
    }
  }

  lemma CloseStale(s: State)
    requires Inv(s)
    ensures Stale(DoClose(s).1) <==> Stale(s)
  {
    if s.sock != 0 {
      DropLate(s);
      LateStep(Drop(s.comm, s.os).log, Closed(s.sock));
    }
  }

  lemma StepStale(s: State, op: Op)
    requires Inv(s) && Legal(s, op)
    ensures Stale(Step(s, op)) <==> Stale(s) || FailedUpgrade(s, op)
  {
    if op.Connect? {
      ConnectStale(s, op);
    } else if op.StartSsl? {
      StartSslStale(s, op);
    } else if op.Close? {
      CloseStale(s);
    } else {
      assert FreesNothing(s.os.log, Step(s, op).os.log);
      LateSame(s.os.log, Step(s, op).os.log);
    }
  }

  lemma {:induction false} RunStale(ops: seq<Op>)
    requires LegalRun(ops)
    ensures Stale(Run(START, ops)) <==> UpgradeFailedIn(ops)
  {
    if ops != [] {
      var init := ops[..|ops| - 1];
      RunStale(init);
      RunKeeps(init);
      StepStale(Run(START, init), ops[|ops| - 1]);
    }
  }

  /** In every run, TLS sessions are shut down while their descriptor is open - except in the runs in
      which startSSL failed in its handshake, and in all of those one is not: the upgrade closes the
      descriptor under the comm object, whose destructor comes later. */
  lemma {:induction false} LateShutdownIff(ops: seq<Op>)
    requires LegalRun(ops)
    ensures LateIn(Destroy(Run(START, ops)).os.log) <==> UpgradeFailedIn(ops)
  {
    var s := Run(START, ops);
    RunStale(ops);
    RunKeeps(ops);
    CloseStale(s);
    CloseKeeps(s);
    DropLate(DoClose(s).1);
  }

  // ---------------------------------------------------------------- runs that break the rules of thumb

  const WORKS: Dial.Call := Dial.Call(true, 0)

  /** An attempt that connects at once. */
  const CONNECTS: Dial.Answers :=
    Dial.Answers(Dial.Granted, true, WORKS, WORKS, true, Dial.EINPROGRESS, 0, 0, WORKS, WORKS, WORKS, WORKS, 0)

  /** A plain connect() without proxies, and a startSSL() that the peer refuses. */
  function PlainConnectOp(host: seq<byte>, port: int, session: Session): Op {
    Op.Connect(false, host, port, (_, _) => CONNECTS, Wire([], [], [], 0), session, TlsAnswers(true, true, true),
               ScopeAnswers(true, true, true))
  }

  function StartSslOp(session: Session): Op {
    Op.StartSsl(session, TlsAnswers(true, true, true), ScopeAnswers(true, true, true))
  }

  lemma RunSnoc(ops: seq<Op>, op: Op)
    ensures Run(START, ops + [op]) == Step(Run(START, ops), op)
    ensures LegalRun(ops + [op]) <==> LegalRun(ops) && Legal(Run(START, ops), op)
    ensures UpgradeFailedIn(ops + [op]) <==> UpgradeFailedIn(ops) || FailedUpgrade(Run(START, ops), op)
    ensures LostIn(ops + [op]) == LostIn(ops) + Lost(Run(START, ops), op)
  {
    hide Step, Legal, Lost, FailedUpgrade;
    assert (ops + [op])[..|ops|] == ops;
  }

  lemma TwoSteps(a: Op, b: Op)
    ensures Run(START, [a]) == Step(START, a) && Run(START, [a, b]) == Step(Step(START, a), b)
    ensures LegalRun([a, b]) <==> Legal(START, a) && Legal(Step(START, a), b)
    ensures UpgradeFailedIn([a, b]) <==> FailedUpgrade(START, a) || FailedUpgrade(Step(START, a), b)
    ensures LostIn([a, b]) == Lost(START, a) + Lost(Step(START, a), b)
  {
    hide Step, Legal, Lost, FailedUpgrade;
    assert [] + [a] == [a] && [a] + [b] == [a, b];
    RunSnoc([], a);
    RunSnoc([a], b);
  }

  /** The first connect, to any host. */
  lemma {:induction false} FirstConnect(host: seq<byte>, port: int, session: Session)
    requires host != [] && port > 0
    ensures var s := Step(START, PlainConnectOp(host, port, session));
            && s.sock == 1 && s.comm == Some(CommState(false, 1, 0, 0)) && !s.taken && s.hops == []
            && s.verify && Limit(s.secs, s.micros) == None && 1 in s.os.open
  {
    hide Dial.SimpleConnect;
    assert Chained(START) == [Hop(NormalHop, [], 0, NOBODY, 0, 0, None)];
    Dial.TimeoutOnlyAddsTimeout(START.os, 0, host, port, 0, 0, CONNECTS);
    Dial.DescriptorHandedOverOrClosed(START.os, 0, host, port, 0, 0, CONNECTS);
  }

  /** A legal run whose upgrade fails, and so shuts a TLS session down on a closed descriptor. */
  lemma {:induction false} LateShutdownRun(host: seq<byte>, port: int) returns (ops: seq<Op>)
    requires host != [] && port > 0
    ensures LegalRun(ops) && UpgradeFailedIn(ops) && LateIn(Destroy(Run(START, ops)).os.log)
  {
    var session := Session(_ => Turn(Fatal, 0, false, 0, 1), 0, 0, 0, []);
    var connect, upgrade := PlainConnectOp(host, port, session), StartSslOp(session);
    FirstConnect(host, port, session);
    TwoSteps(connect, upgrade);
    ops := [connect, upgrade];
    LateShutdownIff(ops);
  }

  /** A legal run that leaks: two connects in a row leave one descriptor open for good. */
  lemma {:induction false} ReconnectLeaks(host: seq<byte>, port: int) returns (ops: seq<Op>)
    requires host != [] && port > 0
    ensures LegalRun(ops) && LostIn(ops) == 1 && |Destroy(Run(START, ops)).os.open| == 1
  {
    var session := Session(_ => Turn(Fatal, 0, false, 0, 1), 0, 0, 0, []);
    var connect := PlainConnectOp(host, port, session);
    FirstConnect(host, port, session);
    TwoSteps(connect, connect);
    ops := [connect, connect];
    NoneOpenAfterDestroy(ops);
  }

  // ---------------------------------------------------------------- the order of the proxies

  /** The proxies inserted in a run, in the order of insertion. */
  function InsertsOf(ops: seq<Op>): seq<Hop> {
    if ops == [] then []
    else
      var op := ops[|ops| - 1];
      InsertsOf(ops[..|ops| - 1]) + if op.Insert? then [op.hop] else []
  }

  lemma StepHops(s: State, op: Op)
    ensures Step(s, op).hops == (if op.Insert? then [op.hop] else []) + s.hops
  {
    hide Walk, Bind, Finish, SendEffect, ReadEffect;
  }

  /** Whatever else a run does, its chain is that of its inserts. */
  lemma {:induction false} HopsAreInserted(ops: seq<Op>)
    ensures Run(START, ops).hops == Inserted(InsertsOf(ops))
  {
    hide Step;
    if ops != [] {
      var init, op := ops[..|ops| - 1], ops[|ops| - 1];
      HopsAreInserted(init);
      StepHops(Run(START, init), op);
      if op.Insert? {
        var ps := InsertsOf(ops);
        assert ps[..|ps| - 1] == InsertsOf(init);
      } else {
        assert InsertsOf(ops) == InsertsOf(init);
      }
    }
  }

  /** The timeout set last in a run, in seconds and microseconds, and the last word on verification. */
  function TimeoutOf(ops: seq<Op>): (nat, nat) {
    if ops == [] then (0, 0)
    else
      var op := ops[|ops| - 1];
      if op.SetTimeout? then (op.secs, op.micros) else TimeoutOf(ops[..|ops| - 1])
  }

  function VerifyOf(ops: seq<Op>): bool {
    if ops == [] then true
    else
      var op := ops[|ops| - 1];
      if op.SetVerify? then op.verify else VerifyOf(ops[..|ops| - 1])
  }

  lemma StepSettings(s: State, op: Op)
    ensures var s' := Step(s, op);
            && (op.SetTimeout? ==> s'.secs == op.secs && s'.micros == op.micros)
            && (!op.SetTimeout? ==> s'.secs == s.secs && s'.micros == s.micros)
            && s'.verify == (if op.SetVerify? then op.verify else s.verify)
  {
    hide Walk, Bind, Finish, SendEffect, ReadEffect;
  }

  /** Settings last until they are made anew, over whatever else a run does. */
  lemma {:induction false} SettingsLast(ops: seq<Op>)
    ensures var s := Run(START, ops); (s.secs, s.micros) == TimeoutOf(ops) && s.verify == VerifyOf(ops)
  {
    hide Step;
    if ops != [] {
      SettingsLast(ops[..|ops| - 1]);
      StepSettings(Run(START, ops[..|ops| - 1]), ops[|ops| - 1]);
    }
  }

  /** What connect() and connectSSL() report in every legal run, by the settings made in it. */
  lemma ConnectReports(ops: seq<Op>, op: Op)
    requires op.Connect? && LegalRun(ops + [op])
    ensures var s := Run(START, ops);
            var (secs, micros) := TimeoutOf(ops);
            var w := WalkOf(s, op);
            DoConnect(s, op).0 <==>
              w.ok && (op.secure ==>
                         && ReachesHandshake(VerifyOf(ops), op.tls)
                         && HandshakeCompletes(w.line.sock, w.line.os, op.session, Limit(secs, micros), op.scope))
  {
    hide Step, DoConnect, WalkOf, Inv;
    assert (ops + [op])[..|ops|] == ops;
    RunKeeps(ops);
    SettingsLast(ops);
    ConnectSucceedsIff(Run(START, ops), op);
  }

  /** The same for startSSL(). */
  lemma StartSslReports(ops: seq<Op>, op: Op)
    requires op.StartSsl? && LegalRun(ops + [op])
    ensures var s := Run(START, ops);
            var (secs, micros) := TimeoutOf(ops);
            DoStartSsl(s, op).0 <==>
              && Upgradable(s) && ReachesHandshake(VerifyOf(ops), op.tls)
              && HandshakeCompletes(s.sock, s.os, op.session, Limit(secs, micros), op.scope)
  {
    hide Step, DoStartSsl, Inv;
    assert (ops + [op])[..|ops|] == ops;
    RunKeeps(ops);
    SettingsLast(ops);
    StartSslSucceedsIff(Run(START, ops), op);
  }

  /** A walk gets past its first hop, or is over with that hop's error. */
  lemma FirstOfWalk(s: State, op: Op)
    requires op.Connect?
    ensures var (h, p) := Target(Chained(s), op.host, op.port);
            var d := Dial.SimpleConnect(Drop(s.comm, s.os), s.sock, h, p, s.secs, s.micros, op.dial(h, p));
            var w := WalkOf(s, op);
            && (!d.ok && d.error.Some? ==> !w.ok && |w.calls| == 1 && w.error == d.error)
            && (d.ok ==> |w.calls| > 1 || (w.ok && s.hops == []))
  {
    hide Dial.SimpleConnect, Finish;
    var hops := Chained(s);
    if |hops| > 1 {
      var (h, p) := Target(hops, op.host, op.port);
      var d := Simple(hops[0], Line(s.sock, Drop(s.comm, s.os), op.wire), h, p, op.dial);
      CallsFollowPlan(hops[1..], d.line, op.host, op.port, op.dial);
    }
  }

  /** How the attempt goes that a connect begins with: on the last proxy inserted, or the destination. */
  function FirstAttempt(ops: seq<Op>, op: Op): Dial.Answers
    requires op.Connect?
  {
    var ps := InsertsOf(ops);
    if ps == [] then op.dial(op.host, op.port) else op.dial(ps[|ps| - 1].server, ps[|ps| - 1].port)
  }

  /** The first connection of a connect, in every legal run whose last timeout is of so many seconds and
      microseconds, when its helper calls work: an attempt that outlasts the whole milliseconds of that
      time ends the connect with the distinct timeout error; one that fails in time, with its own; and
      one that succeeds in time lets the walk go on, or is all of it. */
  lemma FirstConnectionDecided(ops: seq<Op>, op: Op)
    requires op.Connect? && LegalRun(ops + [op]) && ReachesSocket(Run(START, ops), op)
    requires var a := FirstAttempt(ops, op);
             && Dial.Sane(a) && a.socket.Granted? && a.resolves
             && Dial.Enters(a) && Dial.Leaves(a) && a.select.ok && a.sockopt.ok
    ensures var w := WalkOf(Run(START, ops), op);
            var a := FirstAttempt(ops, op);
            var (secs, micros) := TimeoutOf(ops);
            var msec := secs * 1000 + micros / 1000;
            var late := msec > 0 && !a.atOnce && a.delay > msec * 1000;
            && (late ==> !w.ok && |w.calls| == 1 && w.error == Some(ConnectTimedOut))
            && (!late && a.outcome != 0 ==> !w.ok && |w.calls| == 1 && w.error == Some(Errno(a.outcome)))
            && (!late && a.outcome == 0 ==> |w.calls| > 1 || (w.ok && InsertsOf(ops) == []))
  {
    hide Step, Dial.SimpleConnect, WalkOf, Sound;
    assert (ops + [op])[..|ops|] == ops;
    var s := Run(START, ops);
    RunKeeps(ops);
    SettingsLast(ops);
    HopsAreInserted(ops);
    ChainedReversed(s, InsertsOf(ops));
    DescriptorsLeft(s);
    FirstOfWalk(s, op);
    var (h, p) := Target(Chained(s), op.host, op.port);
    Dial.AttemptDecides(Drop(s.comm, s.os), s.sock, h, p, s.secs, s.micros, op.dial(h, p));
    Dial.DialReports(Drop(s.comm, s.os), s.sock, h, p, s.secs, s.micros, op.dial(h, p));
  }

  lemma DescriptorsLeft(s: State)
    requires Inv(s)
    ensures Drop(s.comm, s.os).nextFd > 0
  {
    DropKeeps(s.comm, s.os, s.sock);
  }

  /** The chain that a connect walks after inserting ps: timeouts apart, the last inserted first. */
  lemma ChainedReversed(s: State, ps: seq<Hop>)
    requires s.hops == Inserted(ps)
    ensures var hops := Chained(s);
            && |hops| == |ps| + 1 && hops[0].kind == NormalHop
            && (forall i :: 0 <= i < |hops| ==> hops[i].secs == s.secs && hops[i].micros == s.micros)
            && forall i :: 1 <= i < |hops| ==> hops[i] == ps[|ps| - i].(secs := s.secs, micros := s.micros)
  {
    InsertedReverses(ps);
    var hops := Chained(s);
    forall i | 1 <= i < |hops|
      ensures hops[i] == s.hops[i - 1].(secs := s.secs, micros := s.micros)
    {
    }
  }

  /** In every legal run, after inserting p1 ... pn, a connect that succeeds has called simpleConnect()
      exactly n + 1 times: here to pn, pn to p(n-1), ..., p2 to p1, p1 to the destination.  One that
      fails has made the first of these calls, up to the one that failed. */
  lemma ProxiesDialledInReverse(ops: seq<Op>, op: Op)
    requires LegalRun(ops + [op]) && op.Connect?
    ensures var ps := InsertsOf(ops);
            var n := |ps|;
            var w := WalkOf(Run(START, ops), op);
            && 0 < |w.calls| <= n + 1 && (w.ok ==> |w.calls| == n + 1)
            && (n > 0 ==> w.calls[0] == Call(NormalHop, ps[n - 1].server, ps[n - 1].port))
            && (forall i :: 1 <= i < n && i < |w.calls| ==>
                  w.calls[i] == Call(ps[n - i].kind, ps[n - i - 1].server, ps[n - i - 1].port))
            && (n > 0 && |w.calls| == n + 1 ==> w.calls[n] == Call(ps[0].kind, op.host, op.port))
            && (n == 0 ==> w.calls == [Call(NormalHop, op.host, op.port)])
  {
    hide WalkOf, Chained, Inserted, Step, InsertsOf;
    var s := Run(START, ops);
    HopsAreInserted(ops);
    ChainedReversed(s, InsertsOf(ops));
    CallsArePlanned(s, op);
  }

  lemma CallsArePlanned(s: State, op: Op)
    requires op.Connect?
    ensures var plan := Plan(Chained(s), op.host, op.port);
            var w := WalkOf(s, op);
            0 < |w.calls| <= |plan| && (w.ok ==> |w.calls| == |plan|) && w.calls == plan[..|w.calls|]
  {
    hide Simple, Finish;
    WalkFollowsPlan(Chained(s), Line(s.sock, Drop(s.comm, s.os), op.wire), op.host, op.port, op.dial);
  }
}
