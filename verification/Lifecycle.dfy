/** The life of one Socket as a state machine: src/socket_tcpclient.cpp under
    src/rude_socketimpl.cpp.  Every operation carries the answers the outside world gives it, so a
    list of operations is one run. */
module Lifecycle {
  import opened Wire
  import opened Os
  import opened Tls
  import opened Socks5
  import opened Chain
  import opened Comm
  import Connection
  import Dial
  import HttpProxy

  /** hops is the chain of inserted proxies; taken says that a connection object owns them, whose
      successor would delete them; sock 0 is "not connected". */
  datatype State = State(sock: nat, comm: Option<CommState>, hops: seq<Hop>, taken: bool,
                         verify: bool, secs: nat, micros: nat, os: Os)

  const START: State := State(0, None, [], false, true, 0, 0, Os(1, 1, {}, {}, 0, []))

  datatype Op =
    | Insert(hop: Hop)
    | SetTimeout(secs: nat, micros: nat)
    | SetVerify(verify: bool)
    | Connect(secure: bool, host: seq<byte>, port: int, dial: Dial.World,
              wire: Wire, session: Session, tls: TlsAnswers, scope: ScopeAnswers)
    | StartSsl(session: Session, tls: TlsAnswers, scope: ScopeAnswers)
    | SendData(data: seq<byte>, wire: Wire, scope: ScopeAnswers)
    | ReadData(scope: ScopeAnswers)
    | Close

  // ---------------------------------------------------------------- the operations

  /** insertSocks5(), insertProxy() and insertTunnel(): the new hop goes in front. */
  function DoInsert(s: State, hop: Hop): State {
    s.(hops := [hop] + s.hops)
  }

  function DoSetTimeout(s: State, secs: nat, micros: nat): State {
    s.(secs := secs, micros := micros)
  }

  /** Deleting a comm object: its destructor finishes it. */
  function Drop(comm: Option<CommState>, os: Os): Os {
    if comm.None? then os else Finish(comm.value, os).os
  }

  const NOBODY: Credentials := Credentials([], [])

  /** The chain that connect() walks: a new normal hop, then the inserted ones, all with the client's
      timeout. */
  function Chained(s: State): seq<Hop> {
    [Hop(NormalHop, [], 0, NOBODY, s.secs, s.micros, None)] + Connection.WithTimeout(s.hops, s.secs, s.micros)
  }

  /** Binding a new comm, for connect(), connectSSL() and startSSL(). */
  function BindNew(secure: bool, s: State, fd: nat, os: Os, session: Session, tls: TlsAnswers,
        scope: ScopeAnswers): Binding {
    Bind(CommState(secure, 0, 0, 0), fd, os, session, s.verify, Limit(s.secs, s.micros), tls, scope)
  }

  /** The walk over the chain, the old comm object having been deleted. */
  function WalkOf(s: State, op: Op): Walked
    requires op.Connect?
  {
    Walk(Chained(s), Line(s.sock, Drop(s.comm, s.os), op.wire), op.host, op.port, op.dial)
  }

  /** connect() and connectSSL(). */
  function DoConnect(s: State, op: Op): (bool, State)
    requires op.Connect?
  {
    var c := CommState(op.secure, 0, 0, 0);
    var w := WalkOf(s, op);
    var s1 := s.(sock := w.line.sock, comm := Some(c), taken := s.hops != [], os := w.line.os);
    if !w.ok then (false, s1)
    else
      var b := BindNew(op.secure, s, s1.sock, s1.os, op.session, op.tls, op.scope);
      (b.ok, s1.(comm := Some(b.comm), os := b.os))
  }

  /** What keeps startSSL() from trying: there is nothing that could be secured, or it is already. */
  function RefusesSsl(s: State): Option<Error> {
    if s.comm.None? then Some(NothingToSecure)
    else if s.sock == 0 then Some(NotConnected)
    else if s.comm.value.secure then Some(AlreadySecure)
    else if s.comm.value.sock == 0 then Some(AlreadyFinished)
    else None
  }

  /** A new TLS comm takes over the descriptor; if its handshake fails the descriptor is closed. */
  function Upgrade(s: State, op: Op): (bool, State)
    requires op.StartSsl?
  {
    var b := BindNew(true, s, s.sock, Drop(s.comm, s.os), op.session, op.tls, op.scope);
    var s' := s.(comm := Some(b.comm), os := b.os);
    if b.ok || s.sock == 0 then (b.ok, s') else (false, s'.(sock := 0, os := CloseFd(b.os, s.sock)))
  }

  /** startSSL(). */
  function DoStartSsl(s: State, op: Op): (bool, State)
    requires op.StartSsl?
  {
    if s.comm.None? || s.sock == 0 || s.comm.value.secure then (false, s)
    else
      var f := Finish(s.comm.value, s.os);
      var s1 := s.(comm := Some(f.comm), os := f.os);
      if !f.ok then (false, s1) else Upgrade(s1, op)
  }

  /** send(): in the clear, through TLS, or not at all. */
  function DoSend(s: State, op: Op): State
    requires op.SendData?
  {
    if s.comm.None? then s
    else
      var limit := Limit(s.secs, s.micros);
      s.(os := SendEffect(s.comm.value, s.os, op.wire, Send(op.wire, op.data, limit).wire, limit, op.scope))
  }

  /** read(), readline() and reads(), as far as the descriptor is concerned. */
  function DoRead(s: State, op: Op): State
    requires op.ReadData?
  {
    if s.comm.None? then s else s.(os := ReadEffect(s.comm.value, s.os, Limit(s.secs, s.micros), op.scope))
  }

  /** close(): the descriptor goes even if the shutdown goes badly. */
  function DoClose(s: State): (bool, State) {
    if s.sock == 0 then (true, s)
    else if s.comm.None? then (true, s.(sock := 0, os := CloseFd(s.os, s.sock)))
    else
      var f := Finish(s.comm.value, s.os);
      (f.ok, s.(sock := 0, comm := Some(f.comm), os := CloseFd(f.os, s.sock)))
  }

  /** The destructor. */
  function Destroy(s: State): State {
    var (_, s1) := DoClose(s);
    s1.(comm := None, os := Drop(s1.comm, s1.os))
  }

  function Step(s: State, op: Op): State {
    match op
    case Insert(hop) => DoInsert(s, hop)
    case SetTimeout(secs, micros) => DoSetTimeout(s, secs, micros)
    case SetVerify(verify) => s.(verify := verify)
    case Connect(_, _, _, _, _, _, _, _) => DoConnect(s, op).1
    case StartSsl(_, _, _) => DoStartSsl(s, op).1
    case SendData(_, _, _) => DoSend(s, op)
    case ReadData(_) => DoRead(s, op)
    case Close => DoClose(s).1
  }

  /** The library's rules of use: a chain with proxies serves one connect, and then neither another one
      nor further proxies.  Without proxies a socket may connect again, and may insert them later. */
  predicate Legal(s: State, op: Op) {
    && (op.Insert? ==> !s.taken && !op.hop.kind.NormalHop?)
    && (op.Connect? ==> !s.taken)
  }

  function Run(s: State, ops: seq<Op>): State {
    if ops == [] then s else Step(Run(s, ops[..|ops| - 1]), ops[|ops| - 1])
  }

  predicate LegalRun(ops: seq<Op>) {
    ops == [] || (LegalRun(ops[..|ops| - 1]) && Legal(Run(START, ops[..|ops| - 1]), ops[|ops| - 1]))
  }

  // ---------------------------------------------------------------- what the log may say

  predicate FreedIn(log: seq<Happening>, obj: nat) {
    exists i :: 0 <= i < |log| && log[i].Freed? && log[i].obj == obj
  }

  /** h, coming after log, would break "one TLS layer": a second handshake on a descriptor, or clear
      text on a descriptor after its handshake. */
  predicate Nests(log: seq<Happening>, h: Happening) {
    (h.Shook? || h.Plain?) && Shook(h.fd) in log
  }

  ghost predicate OneTlsLayer(log: seq<Happening>) {
    forall j :: 0 <= j < |log| ==> !Nests(log[..j], log[j])
  }

  predicate Twice(log: seq<Happening>, h: Happening) {
    (h.Closed? && h in log) || (h.Freed? && FreedIn(log, h.obj))
  }

  /** No descriptor is closed twice, no TLS object freed twice. */
  ghost predicate NothingTwice(log: seq<Happening>) {
    forall j :: 0 <= j < |log| ==> !Twice(log[..j], log[j])
  }

  /** The open descriptors and the live TLS objects are those the log says are. */
  ghost predicate Accounted(os: Os, live: set<nat>) {
    && os.nextFd > 0 && os.nextObj > 0
    && (forall fd: nat :: fd in os.open <==> Opened(fd) in os.log && Closed(fd) !in os.log)
    && Closed(0) !in os.log
    && (forall fd: nat :: Opened(fd) in os.log || Shook(fd) in os.log || Closed(fd) in os.log ==> fd < os.nextFd)
    && (forall obj: nat :: obj in live <==> Made(obj) in os.log && !FreedIn(os.log, obj))
    && (forall obj: nat :: Made(obj) in os.log || FreedIn(os.log, obj) ==> 0 < obj < os.nextObj)
  }

  ghost predicate Sound(os: Os, live: set<nat>) {
    OneTlsLayer(os.log) && NothingTwice(os.log) && Accounted(os, live)
  }

  lemma FreedInStep(log: seq<Happening>, h: Happening, obj: nat)
    ensures FreedIn(log + [h], obj) <==> FreedIn(log, obj) || (h.Freed? && h.obj == obj)
  {
    var log' := log + [h];
    if FreedIn(log, obj) {
      var i :| 0 <= i < |log| && log[i].Freed? && log[i].obj == obj;
      assert log'[i] == log[i];
    }
    if h.Freed? && h.obj == obj {
      assert log'[|log|] == h;
    }
  }

  lemma LogStep(log: seq<Happening>, h: Happening)
    requires OneTlsLayer(log) && NothingTwice(log) && !Nests(log, h) && !Twice(log, h)
    ensures OneTlsLayer(log + [h]) && NothingTwice(log + [h])
  {
    var log' := log + [h];
    forall j | 0 <= j < |log'|
      ensures !Nests(log'[..j], log'[j]) && !Twice(log'[..j], log'[j])
    {
      if j < |log| {
        assert log'[..j] == log[..j];
      } else {
        assert log'[..j] == log;
      }
    }
  }

  /** What a longer log knows about a TLS object. */
  lemma FreedInSteps(log: seq<Happening>, h: Happening)
    ensures forall obj: nat :: FreedIn(log + [h], obj) <==> FreedIn(log, obj) || (h.Freed? && h.obj == obj)
    ensures forall g :: g in log + [h] <==> g in log || g == h
  {
    forall obj: nat
      ensures FreedIn(log + [h], obj) <==> FreedIn(log, obj) || (h.Freed? && h.obj == obj)
    {
      FreedInStep(log, h, obj);
    }
  }

  /** Traffic and handshakes change nobody's account. */
  lemma TrafficSound(os: Os, live: set<nat>, h: Happening)
    requires Sound(os, live) && (h.Shook? || h.Plain? || h.Ciphered?) && !Nests(os.log, h) && h.fd < os.nextFd
    ensures Sound(Note(os, h), live)
  {
    LogStep(os.log, h);
    FreedInSteps(os.log, h);
  }

  lemma OpenSound(os: Os, live: set<nat>, fd: nat)
    requires Sound(os, live) && fd !in os.open && (fd == 0 || fd == os.nextFd)
    ensures Sound(OpenFd(os, fd).(nextFd := if fd == 0 then os.nextFd else os.nextFd + 1), live)
  {
    hide OneTlsLayer, NothingTwice, FreedIn;
    var h := Opened(fd);
    LogStep(os.log, h);
    FreedInSteps(os.log, h);
  }

  lemma CloseSound(os: Os, live: set<nat>, fd: nat)
    requires Sound(os, live) && fd != 0
    ensures Sound(CloseFd(os, fd), live)
  {
    if fd in os.open {
      var h := Closed(fd);
      LogStep(os.log, h);
      FreedInSteps(os.log, h);
    }
  }

  lemma MakeSound(os: Os, live: set<nat>)
    requires Sound(os, live)
    ensures Sound(MakeObj(os).1, live + {os.nextObj}) && os.nextObj !in live && os.nextObj > 0
  {
    var h := Made(os.nextObj);
    LogStep(os.log, h);
    FreedInSteps(os.log, h);
  }

  lemma FreeSound(os: Os, live: set<nat>, obj: nat, fd: nat)
    requires Sound(os, live) && obj in live
    ensures Sound(Note(os, Freed(obj, fd)), live - {obj})
  {
    var h := Freed(obj, fd);
    LogStep(os.log, h);
    FreedInSteps(os.log, h);
  }

  /** The blocking mode plays no part in any of this. */
  lemma ModeSound(os: Os, os': Os, live: set<nat>)
    requires Sound(os, live) && os'.(nonblocking := os.nonblocking, errno := os.errno) == os
    ensures Sound(os', live)
  {
  }

  // ---------------------------------------------------------------- what every operation keeps

  function LiveOf(c: CommState): set<nat> {
    {c.ctx, c.ssl} - {0}
  }

  function LiveObjects(comm: Option<CommState>): set<nat> {
    if comm.None? then {} else LiveOf(comm.value)
  }

  /** A comm object owns TLS objects only while bound.  It is bound to the client's descriptor or,
      if it is a TLS one whose upgrade failed, to a descriptor that has been closed.  And a plain
      comm is never bound to a descriptor on which a handshake was attempted. */
  ghost predicate Bindings(sock: nat, c: CommState, os: Os) {
    && (c.sock == 0 || !c.secure ==> c.ctx == 0 && c.ssl == 0)
    && (c.ssl != 0 ==> c.ctx != 0 && c.ssl != c.ctx)
    && (c.sock != 0 ==> c.sock == sock || (c.secure && Closed(c.sock) in os.log))
    && (c.sock != 0 && !c.secure ==> Shook(c.sock) !in os.log)
    && c.sock < os.nextFd
  }

  ghost predicate Inv(s: State) {
    && Sound(s.os, LiveObjects(s.comm))
    && (s.sock != 0 ==> s.sock in s.os.open)
    && (s.comm.Some? ==> Bindings(s.sock, s.comm.value, s.os))
    && (forall i :: 0 <= i < |s.hops| ==> !s.hops[i].kind.NormalHop?)
  }

  /** os' differs from os in TLS objects freed, as far as descriptors go. */
  ghost predicate OnlyFreed(os: Os, os': Os) {
    && os'.open == os.open && os'.nextFd == os.nextFd && os'.nextObj == os.nextObj && os'.nonblocking == os.nonblocking
    && forall h: Happening :: !h.Freed? ==> (h in os'.log <==> h in os.log)
  }

  lemma FinishKeeps(c: CommState, os: Os, live: set<nat>)
    requires Sound(os, live + LiveOf(c)) && live !! LiveOf(c)
    requires (c.sock == 0 || !c.secure ==> c.ctx == 0 && c.ssl == 0) && (c.ssl != 0 ==> c.ssl != c.ctx)
    ensures var f := Finish(c, os);
            Sound(f.os, live) && OnlyFreed(os, f.os) && LiveOf(f.comm) == {}
            && f.comm.sock == 0 && f.comm.secure == c.secure
    ensures Finish(c, os).ok <==> c.sock != 0
  {
    if c.sock != 0 && c.secure {
      var os1 := if c.ssl != 0 then Note(os, Freed(c.ssl, c.sock)) else os;
      if c.ssl != 0 {
        FreeSound(os, live + LiveOf(c), c.ssl, c.sock);
        assert live + LiveOf(c) - {c.ssl} == live + ({c.ctx} - {0});
      } else {
        assert live + LiveOf(c) == live + ({c.ctx} - {0});
      }
      if c.ctx != 0 {
        FreeSound(os1, live + {c.ctx}, c.ctx, 0);
        assert live + {c.ctx} - {c.ctx} == live;
        assert live + ({c.ctx} - {0}) == live + {c.ctx};
      } else {
        assert live + ({c.ctx} - {0}) == live;
      }
    } else {
      assert live + LiveOf(c) == live;
    }
  }

  lemma DropKeeps(comm: Option<CommState>, os: Os, sock: nat)
    requires Sound(os, LiveObjects(comm)) && (comm.Some? ==> Bindings(sock, comm.value, os))
    ensures Sound(Drop(comm, os), {}) && OnlyFreed(os, Drop(comm, os))
  {
    if comm.Some? {
      assert {} + LiveOf(comm.value) == LiveOf(comm.value);
      FinishKeeps(comm.value, os, {});
    }
  }

  /** os' differs from os in clear text sent on fd. */
  ghost predicate OnlyPlain(os: Os, os': Os, fd: nat) {
    && os' == os.(log := os'.log)
    && forall h :: h != Plain(fd) ==> (h in os'.log <==> h in os.log)
  }

  lemma NotePlainKeeps(os: Os, live: set<nat>, fd: nat, before: Wire, after: Wire)
    requires Sound(os, live) && Shook(fd) !in os.log && fd < os.nextFd
    ensures Sound(NotePlain(os, fd, before, after), live) && OnlyPlain(os, NotePlain(os, fd, before, after), fd)
  {
    TrafficSound(os, live, Plain(fd));
  }

  /** The in-band hops send in the clear, and only on the descriptor they were given. */
  lemma {:induction false} TailKeeps(hops: seq<Hop>, line: Line, host: seq<byte>, port: int, a: Dial.World,
        live: set<nat>)
    requires hops != [] && forall i :: 0 <= i < |hops| ==> !hops[i].kind.NormalHop?
    requires Sound(line.os, live) && Shook(line.sock) !in line.os.log && line.sock < line.os.nextFd
    ensures var l := Walk(hops, line, host, port, a).line;
            Sound(l.os, live) && OnlyPlain(line.os, l.os, line.sock) && l.sock == line.sock
    decreases |hops|
  {
    var (h, p) := Target(hops, host, port);
    var d := Simple(hops[0], line, h, p, a);
    NotePlainKeeps(line.os, live, line.sock, line.wire, d.line.wire);
    if d.ok && |hops| > 1 {
      TailKeeps(hops[1..], d.line, host, port, a, live);
    }
  }

  /** A descriptor opened, and closed again unless it is handed over. */
  lemma {:induction false} OpenedSound(os: Os, os': Os, live: set<nat>, kept: bool)
    requires Sound(os, live)
    requires os'.nextFd == os.nextFd + 1 && os'.nextObj == os.nextObj
             && os'.open == os.open + (if kept then {os.nextFd} else {})
    requires os'.log == os.log + [Opened(os.nextFd)] + (if kept then [] else [Closed(os.nextFd)])
    ensures Sound(os', live) && (kept ==> Shook(os.nextFd) !in os'.log)
  {
    var fd := os.nextFd;
    OpenSound(os, live, fd);
    var os1 := OpenFd(os, fd).(nextFd := fd + 1);
    if kept {
      assert os1.log + [] == os1.log;
      ModeSound(os1, os', live);
    } else {
      CloseSound(os1, live, fd);
      assert os.open + {fd} - {fd} == os.open + {};
      ModeSound(CloseFd(os1, fd), os', live);
    }
  }

  lemma ZeroSound(os: Os, os': Os, live: set<nat>)
    requires Sound(os, live) && 0 !in os.open
    requires os'.nextFd == os.nextFd && os'.nextObj == os.nextObj
             && os'.open == os.open + {0} && os'.log == os.log + [Opened(0)] + []
    ensures Sound(os', live)
  {
    OpenSound(os, live, 0);
    assert os.log + [Opened(0)] + [] == os.log + [Opened(0)];
    ModeSound(OpenFd(os, 0), os', live);
  }

  lemma {:induction false} DialKeeps(os: Os, live: set<nat>, sock: nat, host: seq<byte>, port: int, secs: nat,
        micros: nat, a: Dial.Answers)
    requires Sound(os, live)
    ensures var d := Dial.SimpleConnect(os, sock, host, port, secs, micros, a);
            && Sound(d.os, live) && d.os.nextFd >= os.nextFd
            && (d.ok ==> d.sock == os.nextFd && d.sock in d.os.open && d.sock < d.os.nextFd)
            && (d.ok ==> Shook(d.sock) !in d.os.log)
            && (!d.ok ==> d.sock == sock || d.sock == 0)
            && (!d.ok && d.sock != 0 ==> d.os == os)
  {
    Dial.DescriptorHandedOverOrClosed(os, sock, host, port, secs, micros, a);
    var d := Dial.SimpleConnect(os, sock, host, port, secs, micros, a);
    if port > 0 && host != [] && a.socket.Granted? {
      OpenedSound(os, d.os, live, d.ok);
    } else if port > 0 && host != [] && a.socket.Zero? && 0 !in os.open {
      ZeroSound(os, d.os, live);
    } else {
      assert os.log + [] + [] == os.log && os.open + {} == os.open;
      ModeSound(os, d.os, live);
    }
  }

  /** Walking the whole chain: the descriptor is the old one, untouched; or none; or a fresh one,
      open, on which there has been no handshake. */
  lemma {:induction false} WalkKeeps(s: State, os: Os, wire: Wire, host: seq<byte>, port: int, a: Dial.World)
    requires Sound(os, {}) && forall i :: 0 <= i < |s.hops| ==> !s.hops[i].kind.NormalHop?
    ensures var w := Walk(Chained(s), Line(s.sock, os, wire), host, port, a);
            && Sound(w.line.os, {})
            && (w.line.sock == 0 || (w.line.sock == s.sock && !w.ok && w.line.os == os)
                || (w.line.sock == os.nextFd && w.line.sock in w.line.os.open && Shook(w.line.sock) !in w.line.os.log))
            && (w.ok ==> w.line.sock == os.nextFd && w.line.sock != 0)
  {
    var hops := Chained(s);
    var line := Line(s.sock, os, wire);
    var (h, p) := Target(hops, host, port);
    var d := Simple(hops[0], line, h, p, a);
    DialKeeps(os, {}, s.sock, h, p, s.secs, s.micros, a(h, p));
    if d.ok && |hops| > 1 {
      assert forall i :: 0 <= i < |hops[1..]| ==> hops[1..][i].kind == s.hops[i].kind;
      TailKeeps(hops[1..], d.line, host, port, a, {});
    }
  }

  /** Entering and leaving a scope around something that happens on the descriptor. */
  lemma ScopedSound(os: Os, live: set<nat>, fd: nat, timed: bool, a: ScopeAnswers, h: Happening)
    requires Sound(os, live) && (h.Shook? || h.Ciphered?) && !Nests(os.log, h) && h.fd < os.nextFd
    ensures var inside := EnterScope(os, fd, timed, a);
            var os' := LeaveScope(Note(inside.os, h), fd, inside, a);
            Sound(os', live) && os'.log == os.log + [h] && os'.open == os.open && os'.nextFd == os.nextFd
  {
    TrafficSound(os, live, h);
    var inside := EnterScope(os, fd, timed, a);
    ModeSound(Note(os, h), LeaveScope(Note(inside.os, h), fd, inside, a), live);
  }

  lemma ShakeKeeps(c: CommState, os: Os, session: Session, limit: Option<nat>, scope: ScopeAnswers, live: set<nat>)
    requires Sound(os, live) && c.sock < os.nextFd && Shook(c.sock) !in os.log
    ensures var b := Shake(c, os, session, limit, scope);
            && Sound(b.os, live) && b.comm == c
            && b.os.log == os.log + [Shook(c.sock)] && b.os.open == os.open && b.os.nextFd == os.nextFd
  {
    ScopedSound(os, live, c.sock, limit.Some?, scope, Shook(c.sock));
  }

  /** With both TLS objects made, the handshake. */
  lemma {:induction false} BothMadeKeeps(fd: nat, os: Os, session: Session, limit: Option<nat>, scope: ScopeAnswers)
    requires Sound(os, {}) && fd < os.nextFd && Shook(fd) !in os.log
    ensures var (ctx, os1) := MakeObj(os);
            var (ssl, os2) := MakeObj(os1);
            var b := Shake(CommState(true, fd, ctx, ssl), os2, session, limit, scope);
            && Sound(b.os, LiveOf(b.comm)) && b.os.open == os.open && b.os.nextFd == os.nextFd
            && b.comm == CommState(true, fd, ctx, ssl) && 0 < ctx < ssl
  {
    var (ctx, os1) := MakeObj(os);
    var (ssl, os2) := MakeObj(os1);
    MakeSound(os, {});
    assert {} + {ctx} == {ctx};
    MakeSound(os1, {ctx});
    assert {ctx} + {ssl} == LiveOf(CommState(true, fd, ctx, ssl));
    ShakeKeeps(CommState(true, fd, ctx, ssl), os2, session, limit, scope, {ctx} + {ssl});
  }

  lemma OneMadeKeeps(fd: nat, os: Os)
    requires Sound(os, {})
    ensures var (ctx, os1) := MakeObj(os); Sound(os1, LiveOf(CommState(true, fd, ctx, 0))) && ctx != 0
  {
    var (ctx, os1) := MakeObj(os);
    MakeSound(os, {});
    assert {} + {ctx} == LiveOf(CommState(true, fd, ctx, 0));
  }

  lemma TlsBindKeeps(fd: nat, os: Os, session: Session, verify: bool, limit: Option<nat>, tls: TlsAnswers,
        scope: ScopeAnswers)
    requires Sound(os, {}) && fd != 0 && fd in os.open && Shook(fd) !in os.log
    ensures var b := TlsBind(CommState(true, fd, 0, 0), os, session, verify, limit, tls, scope);
            && Sound(b.os, LiveOf(b.comm)) && b.os.open == os.open && b.os.nextFd == os.nextFd
            && b.comm.secure && b.comm.sock == fd && (b.comm.ssl != 0 ==> b.comm.ctx != 0 && b.comm.ssl != b.comm.ctx)
  {
    OneMadeKeeps(fd, os);
    BothMadeKeeps(fd, os, session, limit, scope);
    assert LiveOf(CommState(true, fd, 0, 0)) == {};
  }

  /** Binding a new comm to an open descriptor that has seen no handshake. */
  lemma {:induction false} BindKeeps(secure: bool, fd: nat, os: Os, session: Session, verify: bool,
        limit: Option<nat>, tls: TlsAnswers, scope: ScopeAnswers)
    requires Sound(os, {}) && fd != 0 && fd in os.open && Shook(fd) !in os.log
    ensures var b := Bind(CommState(secure, 0, 0, 0), fd, os, session, verify, limit, tls, scope);
            && Sound(b.os, LiveOf(b.comm)) && Bindings(fd, b.comm, b.os)
               && b.os.open == os.open && b.os.nextFd == os.nextFd
            && b.comm.sock == fd && b.comm.secure == secure && (!secure ==> b.ok && b.os == os)
  {
    if secure {
      TlsBindKeeps(fd, os, session, verify, limit, tls, scope);
    } else {
      assert {} == LiveOf(CommState(secure, fd, 0, 0));
    }
  }

  lemma {:induction false} ConnectKeeps(s: State, op: Op)
    requires Inv(s) && op.Connect?
    ensures Inv(DoConnect(s, op).1)
  {
    hide Walk, Bind, Finish;
    DropKeeps(s.comm, s.os, s.sock);
    var os := Drop(s.comm, s.os);
    WalkKeeps(s, os, op.wire, op.host, op.port, op.dial);
    var w := Walk(Chained(s), Line(s.sock, os, op.wire), op.host, op.port, op.dial);
    assert LiveOf(CommState(op.secure, 0, 0, 0)) == {};
    if w.ok {
      BindKeeps(op.secure, w.line.sock, w.line.os, op.session, s.verify, Limit(s.secs, s.micros), op.tls, op.scope);
    }
  }

  lemma {:induction false} StartSslKeeps(s: State, op: Op)
    requires Inv(s) && op.StartSsl?
    ensures Inv(DoStartSsl(s, op).1)
  {
    if s.comm.Some? && s.sock != 0 && !s.comm.value.secure {
      var c := s.comm.value;
      assert {} + LiveOf(c) == LiveOf(c);
      FinishKeeps(c, s.os, {});
      var f := Finish(c, s.os);
      if f.ok {
        assert f.os == s.os && Drop(Some(f.comm), f.os) == s.os;
        BindKeeps(true, s.sock, s.os, op.session, s.verify, Limit(s.secs, s.micros), op.tls, op.scope);
        var b := Bind(CommState(true, 0, 0, 0), s.sock, s.os, op.session, s.verify, Limit(s.secs, s.micros),
                      op.tls, op.scope);
        if !b.ok {
          CloseSound(b.os, LiveOf(b.comm), s.sock);
        }
      }
    }
  }

  lemma {:induction false} CloseKeeps(s: State)
    requires Inv(s)
    ensures var s' := DoClose(s).1;
            Inv(s') && s'.sock == 0 && (s.sock != 0 ==> LiveObjects(s'.comm) == {})
  {
    if s.sock != 0 {
      var os := s.os;
      if s.comm.Some? {
        assert {} + LiveOf(s.comm.value) == LiveOf(s.comm.value);
        FinishKeeps(s.comm.value, s.os, {});
        os := Finish(s.comm.value, s.os).os;
      }
      CloseSound(os, {}, s.sock);
    }
  }

  lemma SendKeeps(c: CommState, os: Os, before: Wire, after: Wire, limit: Option<nat>, scope: ScopeAnswers)
    requires Sound(os, LiveOf(c)) && c.sock < os.nextFd && (!c.secure ==> Shook(c.sock) !in os.log)
    ensures var os' := SendEffect(c, os, before, after, limit, scope);
            && Sound(os', LiveOf(c)) && os'.open == os.open && os'.nextFd == os.nextFd
            && forall h :: h != Plain(c.sock) && h != Ciphered(c.sock) ==> (h in os'.log <==> h in os.log)
  {
    if c.sock != 0 && !c.secure {
      NotePlainKeeps(os, LiveOf(c), c.sock, before, after);
    } else if c.sock != 0 && c.ssl != 0 {
      var inside := EnterScope(os, c.sock, limit.Some?, scope);
      var os1 := LeaveScope(inside.os, c.sock, inside, scope);
      ModeSound(os, os1, LiveOf(c));
      TrafficSound(os1, LiveOf(c), Ciphered(c.sock));
    }
  }

  lemma {:induction false} SendStepKeeps(s: State, op: Op)
    requires Inv(s) && op.SendData?
    ensures Inv(DoSend(s, op))
  {
    if s.comm.Some? {
      var c := s.comm.value;
      var limit := Limit(s.secs, s.micros);
      if c.sock != 0 {
        SendKeeps(c, s.os, op.wire, Send(op.wire, op.data, limit).wire, limit, op.scope);
      }
    }
  }

  lemma ReadStepKeeps(s: State, op: Op)
    requires Inv(s) && op.ReadData?
    ensures Inv(DoRead(s, op))
  {
    if s.comm.Some? {
      ModeSound(s.os, DoRead(s, op).os, LiveOf(s.comm.value));
    }
  }

  lemma {:induction false} StepKeeps(s: State, op: Op)
    requires Inv(s) && Legal(s, op)
    ensures Inv(Step(s, op))
  {
    match op
    case Insert(hop) =>
    case SetTimeout(secs, micros) =>
    case SetVerify(verify) =>
    case Connect(_, _, _, _, _, _, _, _) => ConnectKeeps(s, op);
    case StartSsl(_, _, _) => StartSslKeeps(s, op);
    case SendData(_, _, _) => SendStepKeeps(s, op);
    case ReadData(_) => ReadStepKeeps(s, op);
    case Close => CloseKeeps(s);
  }

  lemma {:induction false} RunKeeps(ops: seq<Op>)
    requires LegalRun(ops)
    ensures Inv(Run(START, ops))
  {
    if ops != [] {
      RunKeeps(ops[..|ops| - 1]);
      StepKeeps(Run(START, ops[..|ops| - 1]), ops[|ops| - 1]);
    }
  }

  lemma DestroyKeeps(s: State)
    requires Inv(s)
    ensures Inv(Destroy(s)) && Destroy(s).sock == 0 && Destroy(s).comm.None?
  {
    CloseKeeps(s);
    var s1 := DoClose(s).1;
    DropKeeps(s1.comm, s1.os, s1.sock);
  }

  // ---------------------------------------------------------------- theorems about runs

  /** In every run, including failed reconnects over an open descriptor, at most one TLS handshake is
      attempted on a descriptor, and after it nothing is ever sent on that descriptor in the clear. */
  lemma {:induction false} OneLayerPerDescriptor(ops: seq<Op>, i: nat, j: nat)
    requires LegalRun(ops) && i < j < |Destroy(Run(START, ops)).os.log|
    ensures var log := Destroy(Run(START, ops)).os.log;
            log[i].Shook? ==> log[j] != log[i] && log[j] != Plain(log[i].fd)
  {
    RunKeeps(ops);
    DestroyKeeps(Run(START, ops));
    var log := Destroy(Run(START, ops)).os.log;
    assert !Nests(log[..j], log[j]);
    assert log[..j][i] == log[i];
  }

  /** In every run no descriptor is closed twice and no TLS object freed twice; and when the socket
      has been destroyed every TLS object ever made has been freed, however far its handshake got. */
  lemma {:induction false} EachObjectFreedOnce(ops: seq<Op>, i: nat, j: nat)
    requires LegalRun(ops) && i < j < |Destroy(Run(START, ops)).os.log|
    ensures var log := Destroy(Run(START, ops)).os.log;
            && (log[i].Closed? && log[j].Closed? ==> log[i].fd != log[j].fd)
            && (log[i].Freed? && log[j].Freed? ==> log[i].obj != log[j].obj)
            && (log[i].Made? ==> FreedIn(log, log[i].obj))
  {
    RunKeeps(ops);
    DestroyKeeps(Run(START, ops));
    var log := Destroy(Run(START, ops)).os.log;
    assert !Twice(log[..j], log[j]);
    assert log[..j][i] == log[i];
    if log[i].Made? {
      assert log[i].obj !in {};
      assert Made(log[i].obj) in log;
    }
  }

  /** close() always releases the descriptor and may be called again, to no effect.  It reports
      failure exactly when the comm object was not bound, as after a hop has refused the connection. */
  lemma {:induction false} CloseReleases(ops: seq<Op>)
    requires LegalRun(ops)
    ensures var s := Run(START, ops);
            var (ok, s') := DoClose(s);
            && s'.sock == 0 && (s.sock != 0 ==> s'.os.open == s.os.open - {s.sock} && Closed(s.sock) in s'.os.log)
            && (ok <==> s.sock == 0 || s.comm.None? || s.comm.value.sock != 0)
            && DoClose(s') == (true, s')
  {
    RunKeeps(ops);
    var s := Run(START, ops);
    if s.comm.Some? {
      assert {} + LiveOf(s.comm.value) == LiveOf(s.comm.value);
      FinishKeeps(s.comm.value, s.os, {});
    }
  }

  // ---------------------------------------------------------------- what the operations report

  /** connect() succeeds if and only if its walk does; connectSSL() if and only if moreover OpenSSL is in
      working order and the peer completes the handshake on the new descriptor.  Success leaves a comm
      object bound to that descriptor - with both TLS objects and after a handshake, or in the clear and
      after none.  After a failed walk there is no bound comm object; after a failed handshake there is
      one, on a descriptor that stays open. */
  lemma {:induction false} ConnectSucceedsIff(s: State, op: Op)
    requires Inv(s) && op.Connect?
    ensures var (ok, s') := DoConnect(s, op);
            var w := WalkOf(s, op);
            && (ok <==> w.ok && (op.secure ==>
                                   && ReachesHandshake(s.verify, op.tls)
                                   && HandshakeCompletes(w.line.sock, w.line.os, op.session, Limit(s.secs, s.micros),
                                                         op.scope)))
            && (w.ok ==> s'.sock == s.os.nextFd != 0 && s'.sock in s'.os.open)
    ensures var (ok, s') := DoConnect(s, op);
            && s'.comm.Some?
            && var c := s'.comm.value;
               && c.secure == op.secure && c.sock == (if WalkOf(s, op).ok then s'.sock else 0)
               && (ok && op.secure ==> c.ctx != 0 && c.ssl != 0 && c.ctx != c.ssl && Shook(c.sock) in s'.os.log)
               && (ok && !op.secure ==> c.ctx == c.ssl == 0 && Shook(c.sock) !in s'.os.log)
  {
    hide Walk, Finish;
    DropKeeps(s.comm, s.os, s.sock);
    var os := Drop(s.comm, s.os);
    WalkKeeps(s, os, op.wire, op.host, op.port, op.dial);
    var w := WalkOf(s, op);
    if w.ok {
      BoundNew(op.secure, s, w.line.sock, w.line.os, op.session, op.tls, op.scope);
      BindKeeps(op.secure, w.line.sock, w.line.os, op.session, s.verify, Limit(s.secs, s.micros), op.tls, op.scope);
    }
  }

  /** What binding a new comm object to a descriptor comes to. */
  lemma BoundNew(secure: bool, s: State, fd: nat, os: Os, session: Session, tls: TlsAnswers, scope: ScopeAnswers)
    requires fd != 0 && Accounted(os, {})
    ensures var b := BindNew(secure, s, fd, os, session, tls, scope);
            && (b.ok <==> secure ==> ReachesHandshake(s.verify, tls)
                                     && HandshakeCompletes(fd, os, session, Limit(s.secs, s.micros), scope))
            && b.comm.sock == fd && b.comm.secure == secure
            && (b.ok && secure ==> b.comm.ctx == os.nextObj && b.comm.ssl == os.nextObj + 1 && Shook(fd) in b.os.log)
            && (!secure ==> b.comm.ctx == b.comm.ssl == 0 && b.os == os)
  {
    hide HandshakeLoop;
    BindFailsIff(CommState(secure, 0, 0, 0), fd, os, session, s.verify, Limit(s.secs, s.micros), tls, scope);
  }

  /** startSSL() has something to upgrade: a plain comm object bound to the socket's descriptor. */
  predicate Upgradable(s: State) {
    s.sock != 0 && s.comm.Some? && !s.comm.value.secure && s.comm.value.sock != 0
  }

  /** startSSL() succeeds if and only if there is a plain connection, OpenSSL is in working order and the
      peer completes the handshake.  Success leaves the same descriptor under a TLS comm object with both
      TLS objects; a failed attempt closes it; and without a plain connection nothing changes at all. */
  lemma {:induction false} StartSslSucceedsIff(s: State, op: Op)
    requires Inv(s) && op.StartSsl?
    ensures var (ok, s') := DoStartSsl(s, op);
            && (ok <==> Upgradable(s) && ReachesHandshake(s.verify, op.tls)
                        && HandshakeCompletes(s.sock, s.os, op.session, Limit(s.secs, s.micros), op.scope))
            && (!Upgradable(s) ==> s' == s)
            && (Upgradable(s) && !ok ==> s'.sock == 0 && Closed(s.sock) in s'.os.log && s.sock !in s'.os.open)
    ensures var (ok, s') := DoStartSsl(s, op);
            ok ==> && s'.sock == s.sock && s'.os.open == s.os.open && s'.comm.Some?
                   && var c := s'.comm.value;
                      c.secure && c.sock == s.sock && c.ctx != 0 && c.ssl != 0 && c.ctx != c.ssl
                      && Shook(s.sock) in s'.os.log
  {
    if Upgradable(s) {
      assert LiveOf(s.comm.value) == {};
      BoundNew(true, s, s.sock, s.os, op.session, op.tls, op.scope);
      BindKeeps(true, s.sock, s.os, op.session, s.verify, Limit(s.secs, s.micros), op.tls, op.scope);
    }
  }

  /** Which refusal startSSL() reports, if it does not try: no comm object, no descriptor, a connection
      that is secure already, or a comm object that is not bound - the first of these that applies. */
  lemma RefusesSslIff(s: State)
    ensures RefusesSsl(s).None? <==> Upgradable(s)
    ensures RefusesSsl(s) == Some(NothingToSecure) <==> s.comm.None?
    ensures RefusesSsl(s) == Some(NotConnected) <==> s.comm.Some? && s.sock == 0
    ensures RefusesSsl(s) == Some(AlreadySecure) <==> s.comm.Some? && s.sock != 0 && s.comm.value.secure
    ensures RefusesSsl(s) == Some(AlreadyFinished) <==>
              s.comm.Some? && s.sock != 0 && !s.comm.value.secure && s.comm.value.sock == 0
  {
  }

  // ---------------------------------------------------------------- the log is complete

  /** The log misses nothing that matters for "one TLS layer": clear text that a send or a walk lets out
      on a descriptor is in it, and so is traffic through TLS. */
  lemma SendIsLogged(s: State, op: Op)
    requires op.SendData? && s.comm.Some?
    ensures var c := s.comm.value;
            var s' := DoSend(s, op);
            var sent := Send(op.wire, op.data, Limit(s.secs, s.micros)).wire;
            && (c.sock != 0 && !c.secure && Sents(sent.log) != Sents(op.wire.log) ==> Plain(c.sock) in s'.os.log)
            && (Secured(c) ==> Ciphered(c.sock) in s'.os.log)
            && s.os.log <= s'.os.log
  {
  }

  lemma {:induction false} TailIsLogged(hops: seq<Hop>, line: Line, host: seq<byte>, port: int, a: Dial.World)
    requires hops != [] && forall i :: 0 <= i < |hops| ==> !hops[i].kind.NormalHop?
    ensures var l := Walk(hops, line, host, port, a).line;
            && l.sock == line.sock && line.os.log <= l.os.log
            && (Sents(l.wire.log) != Sents(line.wire.log) ==> Plain(line.sock) in l.os.log)
    decreases |hops|
  {
    hide Sents;
    var (h, p) := Target(hops, host, port);
    var d := Simple(hops[0], line, h, p, a);
    HopIsLogged(hops[0], line, h, p, a);
    if d.ok && |hops| > 1 {
      TailIsLogged(hops[1..], d.line, host, port, a);
    }
  }

  lemma HopIsLogged(h: Hop, line: Line, host: seq<byte>, port: int, a: Dial.World)
    requires !h.kind.NormalHop?
    ensures var l := Simple(h, line, host, port, a).line;
            && l.sock == line.sock && line.os.log <= l.os.log
            && (Sents(l.wire.log) != Sents(line.wire.log) ==> Plain(line.sock) in l.os.log)
  {
    hide Sents, Handshake, HttpProxy.Tunnel;
  }
}
