/** Communication over a bound descriptor: src/socket_comm.cpp, src/socket_comm_normal.cpp and
    src/socket_comm_ssh.cpp.  One class stands for the base class and its two subclasses; the
    constant secure says which of them an object is. */
module Comm {
  import opened Wire
  import opened Os
  import opened Tls
  import Chain
  import Dial

  /** Whether SSL_CTX_new, the loading of the trusted certificates and SSL_new succeed. */
  datatype TlsAnswers = TlsAnswers(ctx: bool, certs: bool, ssl: bool)

  /** Everything outside the library that its objects share, and a record of the simpleConnect() calls
      that hops have been given. */
  class Kernel {
    var os: Os
    var wire: Wire
    var session: Session
    var dial: Dial.World
    var scope: ScopeAnswers
    var tls: TlsAnswers
    ghost var calls: seq<Chain.Call>

    constructor (os: Os, wire: Wire, session: Session, dial: Dial.World, scope: ScopeAnswers, tls: TlsAnswers)
      ensures this.os == os && this.wire == wire && this.session == session
      ensures this.dial == dial && this.scope == scope && this.tls == tls && calls == []
    {
      this.os, this.wire, this.session := os, wire, session;
      this.dial, this.scope, this.tls := dial, scope, tls;
      calls := [];
    }
  }

  /** The state of a comm object that the lifecycle depends on; 0 is "not bound" and "no object". */
  datatype CommState = CommState(secure: bool, sock: nat, ctx: nat, ssl: nat)

  // ---------------------------------------------------------------- blocking mode

  datatype Scope = Scope(entered: bool, was: bool, os: Os)

  /** NonBlockingScope's constructor; without a timeout it is given descriptor -1 and does nothing. */
  function EnterScope(os: Os, fd: nat, timed: bool, a: ScopeAnswers): Scope {
    var entered := timed && a.get && a.set_;
    Scope(entered, fd in os.nonblocking, if entered then SetMode(os, fd, true) else os)
  }

  /** NonBlockingScope's destructor. */
  function LeaveScope(os: Os, fd: nat, scope: Scope, a: ScopeAnswers): Os {
    if scope.entered && a.restore then SetMode(os, fd, scope.was) else os
  }

  /** The scope puts back the mode it found, unless it did change the mode and the restoring call
      failed: exactly then a blocking descriptor is left non-blocking. */
  lemma ScopeRestoresMode(os: Os, fd: nat, timed: bool, a: ScopeAnswers)
    ensures var scope := EnterScope(os, fd, timed, a);
            var os' := LeaveScope(scope.os, fd, scope, a);
            && (os' == os <==> !(timed && a.get && a.set_ && !a.restore && fd !in os.nonblocking))
            && (scope.entered ==> fd in scope.os.nonblocking)
            && os'.nonblocking - {fd} == os.nonblocking - {fd}
            && os'.open == os.open && os'.log == os.log
  {
    assert fd in os.nonblocking ==> os.nonblocking + {fd} == os.nonblocking;
    assert fd !in os.nonblocking ==> os.nonblocking + {fd} - {fd} == os.nonblocking;
  }

  // ---------------------------------------------------------------- binding and finishing

  datatype Finished = Finished(ok: bool, comm: CommState, error: Option<Error>, os: Os)

  /** Socket_Comm::finish() and the two virtualfinish(). */
  function Finish(c: CommState, os: Os): Finished {
    if c.sock == 0 then Finished(false, c, Some(AlreadyFinished), os)
    else if !c.secure then Finished(true, c.(sock := 0), None, os)
    else
      var os1 := if c.ssl != 0 then Note(os, Freed(c.ssl, c.sock)) else os;
      var os2 := if c.ctx != 0 then Note(os1, Freed(c.ctx, 0)) else os1;
      Finished(true, CommState(true, 0, 0, 0), None, os2)
  }

  datatype Binding = Bound(ok: bool, comm: CommState, error: Option<Error>, os: Os, session: Session)

  function Deadline(s: Session, limit: Option<nat>): Option<nat> {
    if limit.Some? then Some(s.now + limit.value * 1000) else None
  }

  /** The handshake over descriptor c.sock, inside its NonBlockingScope. */
  function Shake(c: CommState, os: Os, s: Session, limit: Option<nat>, scope: ScopeAnswers): Binding {
    var inside := EnterScope(os, c.sock, limit.Some?, scope);
    var o := HandshakeLoop(s, c.sock in inside.os.nonblocking, Deadline(s, limit));
    Bound(o.rc == 1, c, o.reason, LeaveScope(Note(inside.os, Shook(c.sock)), c.sock, inside, scope), o.session)
  }

  /** Socket_Comm_SSH::virtualbind(). */
  function TlsBind(c: CommState, os: Os, s: Session, verify: bool, limit: Option<nat>, tls: TlsAnswers,
        scope: ScopeAnswers): Binding {
    if !tls.ctx then Bound(false, c.(ctx := 0), Some(ContextNotCreated), os, s)
    else
      var (ctx, os1) := MakeObj(os);
      var c1 := c.(ctx := ctx);
      if verify && !tls.certs then Bound(false, c1, Some(CertificatesNotLoaded), os1, s)
      else if !tls.ssl then Bound(false, c1.(ssl := 0), Some(SessionNotCreated), os1, s)
      else
        var (ssl, os2) := MakeObj(os1);
        Shake(c1.(ssl := ssl), os2, s, limit, scope)
  }

  /** Socket_Comm::bind(): a failed virtualbind() leaves the object bound. */
  function Bind(c: CommState, fd: nat, os: Os, s: Session, verify: bool, limit: Option<nat>, tls: TlsAnswers,
        scope: ScopeAnswers): Binding {
    if c.sock != 0 then Bound(false, c, Some(AlreadyBound), os, s)
    else if fd == 0 then Bound(false, c, Some(NotValidDescriptor), os, s)
    else if !c.secure then Bound(true, c.(sock := fd), None, os, s)
    else TlsBind(c.(sock := fd), os, s, verify, limit, tls, scope)
  }

  // ---------------------------------------------------------------- TLS data calls

  ghost function Waiting(s: Session, limit: Option<nat>, settle: nat): Patience {
    if limit.Some? then Until(s.now + limit.value * 1000) else Forever(settle)
  }

  ghost function TlsRead(os: Os, s: Session, fd: nat, n: nat, limit: Option<nat>, scope: ScopeAnswers,
        settle: nat): (Outcome, Os)
    requires Ends(s, Waiting(s, limit, settle))
  {
    var inside := EnterScope(os, fd, limit.Some?, scope);
    var o := ReadLoop(s, n, fd in inside.os.nonblocking, Waiting(s, limit, settle));
    (o, LeaveScope(inside.os, fd, inside, scope))
  }

  ghost function TlsSend(os: Os, s: Session, fd: nat, n: nat, limit: Option<nat>, scope: ScopeAnswers,
        settle: nat): (Outcome, Os)
    requires Ends(s, Waiting(s, limit, settle))
  {
    var inside := EnterScope(os, fd, limit.Some?, scope);
    var o := WriteLoop(s, n, fd in inside.os.nonblocking, Waiting(s, limit, settle));
    (o, LeaveScope(inside.os, fd, inside, scope))
  }

  /** What one send() or read() of a comm object comes to: its result, what it put into the caller's
      buffer, the error it sets, and what is left of the streams. */
  datatype Transfer = Transfer(rc: int, bytes: seq<byte>, reason: Option<Error>, wire: Wire, session: Session)

  /** Calls go through TLS. */
  predicate Secured(c: CommState) {
    c.sock != 0 && c.secure && c.ssl != 0
  }

  /** A TLS call comes to an end, by its timeout or by the peer's settling down. */
  ghost predicate Settles(c: CommState, s: Session, limit: Option<nat>, settle: nat) {
    Secured(c) ==> Ends(s, Waiting(s, limit, settle))
  }

  /** Socket_Comm::send(): over the bound descriptor, in the clear or through TLS, or not at all. */
  ghost function SendOutcome(c: CommState, os: Os, w: Wire, s: Session, data: seq<byte>, limit: Option<nat>,
        scope: ScopeAnswers, settle: nat): Transfer
    requires Settles(c, s, limit, settle)
  {
    if c.sock == 0 then Transfer(-1, [], Some(NotBound), w, s)
    else if !c.secure then
      var sent := Send(w, data, limit);
      Transfer(sent.rc, [], sent.error, sent.wire, s)
    else if c.ssl == 0 then Transfer(-1, [], Some(NotEstablished), w, s)
    else
      var (o, _) := TlsSend(os, s, c.sock, |data|, limit, scope, settle);
      Transfer(o.rc, [], o.reason, w, o.session)
  }

  /** Socket_Comm::read(). */
  ghost function ReadOutcome(c: CommState, os: Os, w: Wire, s: Session, n: nat, limit: Option<nat>,
        scope: ScopeAnswers, settle: nat): Transfer
    requires Settles(c, s, limit, settle)
  {
    if c.sock == 0 then Transfer(-1, [], Some(NotBound), w, s)
    else if !c.secure then
      var r := Read(w, n, limit);
      Transfer(r.Rc(), r.bytes, if r.stop.Complete? then None else Some(r.Why()), r.wire, s)
    else if c.ssl == 0 then Transfer(-1, [], Some(NotEstablished), w, s)
    else
      var (o, _) := TlsRead(os, s, c.sock, n, limit, scope, settle);
      Transfer(o.rc, o.bytes, o.reason, w, o.session)
  }

  /** What a read leaves behind in the descriptor table. */
  function ReadEffect(c: CommState, os: Os, limit: Option<nat>, scope: ScopeAnswers): Os {
    if Secured(c) then
      var inside := EnterScope(os, c.sock, limit.Some?, scope);
      LeaveScope(inside.os, c.sock, inside, scope)
    else os
  }

  /** Further reads find the descriptor as the first one left it, and work in the same mode. */
  lemma ReadEffectLasts(c: CommState, os: Os, limit: Option<nat>, scope: ScopeAnswers)
    ensures var os' := ReadEffect(c, os, limit, scope);
            && ReadEffect(c, os', limit, scope) == os'
            && (Secured(c) ==>
                  NonblockingInside(c.sock, os', limit, scope) == NonblockingInside(c.sock, os, limit, scope))
  {
    ScopeRestoresMode(os, c.sock, limit.Some?, scope);
    ScopeRestoresMode(ReadEffect(c, os, limit, scope), c.sock, limit.Some?, scope);
  }

  /** What a send leaves behind in the descriptor table, and in its log. */
  function SendEffect(c: CommState, os: Os, before: Wire, after: Wire, limit: Option<nat>, scope: ScopeAnswers): Os {
    if c.sock == 0 then os
    else if !c.secure then NotePlain(os, c.sock, before, after)
    else if c.ssl == 0 then os
    else Note(ReadEffect(c, os, limit, scope), Ciphered(c.sock))
  }

  /** The certificates load and both TLS objects are made: virtualbind() comes to SSL_connect. */
  predicate ReachesHandshake(verify: bool, tls: TlsAnswers) {
    tls.ctx && (verify ==> tls.certs) && tls.ssl
  }

  /** The mode of fd inside a scope: non-blocking if the scope makes it so, else as it was found. */
  predicate NonblockingInside(fd: nat, os: Os, limit: Option<nat>, scope: ScopeAnswers) {
    fd in EnterScope(os, fd, limit.Some?, scope).os.nonblocking
  }

  /** OpenSSL completes the handshake on fd. */
  predicate HandshakeCompletes(fd: nat, os: Os, s: Session, limit: Option<nat>, scope: ScopeAnswers) {
    HandshakeLoop(s, NonblockingInside(fd, os, limit, scope), Deadline(s, limit)).rc == 1
  }

  /** Whether it does: without a timeout that is the first answer; with one, of so many microseconds on a
      descriptor that could be made non-blocking, the first that does not ask for more, if it comes in
      time. */
  lemma CompletesByAnswer(fd: nat, os: Os, s: Session, limit: Option<nat>, scope: ScopeAnswers, k: nat)
    requires s.turn <= k && OnlyWants(s.turns, s.turn, k) && forall m :: s.turn <= m < k ==> !s.turns(m).broken
    requires if limit.None? then k == s.turn
             else scope.get && scope.set_ && !Wants(s.turns(k).answer)
                  && Elapsed(s.turns, s.turn, k) + 1000 <= limit.value * 1000
    ensures HandshakeCompletes(fd, os, s, limit, scope) <==> s.turns(k).answer.Done?
  {
    hide HandshakeLoop, Elapsed;
    HandshakeAnswered(s, NonblockingInside(fd, os, limit, scope), Deadline(s, limit), k);
  }

  /** When bind() fails, for a comm of either kind. */
  lemma BindFailsIff(c: CommState, fd: nat, os: Os, s: Session, verify: bool, limit: Option<nat>,
        tls: TlsAnswers, scope: ScopeAnswers)
    ensures var b := Bind(c, fd, os, s, verify, limit, tls, scope);
            && (!b.ok <==> c.sock != 0 || fd == 0
                           || (c.secure && !(ReachesHandshake(verify, tls)
                                             && HandshakeCompletes(fd, os, s, limit, scope))))
            && (!b.ok <==> b.error.Some?)
  {
    if c.sock == 0 && fd != 0 && c.secure && ReachesHandshake(verify, tls) {
      var os2 := MakeObj(MakeObj(os).1).1;
      assert NonblockingInside(fd, os2, limit, scope) == NonblockingInside(fd, os, limit, scope);
      HandshakeDecided(s, NonblockingInside(fd, os, limit, scope), Deadline(s, limit));
    }
  }

  /** The documentation has it that a failed bind leaves the comm unbound.  It does if and only if the
      comm was unbound before and was given no descriptor; otherwise the comm is bound after the
      failure, to what it was bound to before or to the new descriptor, and finish() still works. */
  lemma FailedBindUnboundIff(c: CommState, fd: nat, os: Os, s: Session, verify: bool, limit: Option<nat>,
        tls: TlsAnswers, scope: ScopeAnswers)
    ensures var b := Bind(c, fd, os, s, verify, limit, tls, scope);
            && (!b.ok ==> (b.comm.sock == 0 <==> c.sock == 0 && fd == 0))
            && b.comm.sock == (if c.sock != 0 then c.sock else fd)
            && (Finish(b.comm, b.os).ok <==> b.comm.sock != 0)
  {
  }

  /** Two binds that fail and leave the comm bound: OpenSSL has no context to give, or the peer
      refuses the handshake, which leaves the TLS objects too. */
  lemma FailedBindsStayBound(fd: nat, os: Os, verify: bool, limit: Option<nat>, scope: ScopeAnswers)
    returns (s: Session)
    requires fd != 0 && os.nextObj > 0
    ensures var c := CommState(true, 0, 0, 0);
            var noContext := Bind(c, fd, os, s, verify, limit, TlsAnswers(false, true, true), scope);
            var refused := Bind(c, fd, os, s, verify, limit, TlsAnswers(true, true, true), scope);
            && !noContext.ok && noContext.comm == CommState(true, fd, 0, 0)
            && !refused.ok && refused.comm == CommState(true, fd, os.nextObj, os.nextObj + 1)
  {
    s := Session(_ => Turn(Fatal, 0, false, 0, 1), 0, 0, 0, []);
  }

  /** Which error a failed bind reports: the comm is bound already, there is no descriptor, or the first
      thing that OpenSSL could not do; and only a handshake that was tried can fail as one. */
  lemma BindReports(c: CommState, fd: nat, os: Os, s: Session, verify: bool, limit: Option<nat>,
        tls: TlsAnswers, scope: ScopeAnswers)
    ensures var b := Bind(c, fd, os, s, verify, limit, tls, scope);
            var tried := c.sock == 0 && fd != 0 && c.secure;
            && (b.error == Some(AlreadyBound) <==> c.sock != 0)
            && (b.error == Some(NotValidDescriptor) <==> c.sock == 0 && fd == 0)
            && (b.error == Some(ContextNotCreated) <==> tried && !tls.ctx)
            && (b.error == Some(CertificatesNotLoaded) <==> tried && tls.ctx && verify && !tls.certs)
            && (b.error == Some(SessionNotCreated) <==> tried && tls.ctx && (verify ==> tls.certs) && !tls.ssl)
            && (b.error.Some? && b.error.value in {HandshakeFailed, SelectFailed, TimedOut} <==>
                  tried && ReachesHandshake(verify, tls) && !HandshakeCompletes(fd, os, s, limit, scope))
  {
    hide HandshakeLoop;
    if c.sock == 0 && fd != 0 && c.secure && ReachesHandshake(verify, tls) {
      BindFailsIff(c, fd, os, s, verify, limit, tls, scope);
      HandshakeReasons(s, NonblockingInside(fd, MakeObj(MakeObj(os).1).1, limit, scope), Deadline(s, limit));
    }
  }

  /** What a bind leaves of the session: a handshake that was completed has taken the answers up to the one
      that completed it, and not one decrypted byte; a bind that comes to no handshake has taken none. */
  lemma BindSession(c: CommState, fd: nat, os: Os, s: Session, verify: bool, limit: Option<nat>,
        tls: TlsAnswers, scope: ScopeAnswers)
    ensures var b := Bind(c, fd, os, s, verify, limit, tls, scope);
            var tried := c.sock == 0 && fd != 0 && c.secure && ReachesHandshake(verify, tls);
            var last := b.session.turn - 1;
            && b.session.turns == s.turns && b.session.pending == s.pending
            && (!tried ==> b.session == s)
            && (tried ==> s.turn <= last && OnlyWants(s.turns, s.turn, last) && (b.ok <==> s.turns(last).answer.Done?))
  {
    hide HandshakeLoop;
    var os2 := MakeObj(MakeObj(os).1).1;
    HandshakeDecided(s, NonblockingInside(fd, os2, limit, scope), Deadline(s, limit));
  }

  /** What send() returns.  In the clear, a non-negative result counts the bytes of the data that have gone
      out, and an error has let out a first part of them, if anything.  Through TLS, a positive result
      counts the bytes that OpenSSL has accepted, in its one answer that was not a request for more, and
      otherwise it has accepted none.  An unbound comm object, or one without a session, sends nothing. */
  lemma SendReports(c: CommState, os: Os, w: Wire, s: Session, data: seq<byte>, limit: Option<nat>,
        scope: ScopeAnswers, settle: nat) returns (n: nat)
    requires Settles(c, s, limit, settle)
    ensures var t := SendOutcome(c, os, w, s, data, limit, scope, settle);
            && n <= |data| && t.wire.log == w.log + SentAll(data[..n]) && t.wire.inbox == w.inbox
            && (t.rc >= 0 && c.sock != 0 && !c.secure ==> t.rc == n)
            && (c.sock == 0 || c.secure ==> t.wire == w) && (!Secured(c) ==> t.session == s)
    ensures var t := SendOutcome(c, os, w, s, data, limit, scope, settle);
            && (t.reason == Some(NotBound) <==> c.sock == 0)
            && (t.reason == Some(NotEstablished) <==> c.sock != 0 && c.secure && c.ssl == 0)
            && (c.sock == 0 || (c.secure && c.ssl == 0) ==> t.rc == -1)
    ensures Secured(c) && data != [] ==>
              var t := SendOutcome(c, os, w, s, data, limit, scope, settle);
              var last := t.session.turn - 1;
              && t.session.turns == s.turns && (t.rc > 0 || t.rc == -1)
              && (t.rc > 0 ==> s.turn <= last && OnlyWants(s.turns, s.turn, last) && s.turns(last).answer.Done?
                               && t.rc == Min(|data|, |s.turns(last).answer.record|) && t.reason == None)
              && (t.rc < 0 ==> t.reason.Some? && forall k :: s.turn <= k <= last ==> !s.turns(k).answer.Done?)
  {
    hide Send, WriteLoop, SentAll;
    n := 0;
    SentNone(w.log, data);
    if c.sock != 0 && !c.secure {
      SendExact(w, data, limit);
      n := Send(w, data, limit).sent;
      SendReasons(w, data, limit);
    } else if Secured(c) {
      var mode := NonblockingInside(c.sock, os, limit, scope);
      WriteReasons(s, |data|, mode, Waiting(s, limit, settle));
      if data != [] {
        WriteOnce(s, |data|, mode, Waiting(s, limit, settle));
      }
    }
  }

  lemma {:induction false} SendReasons(w: Wire, data: seq<byte>, limit: Option<nat>)
    ensures var s := Send(w, data, limit);
            s.error.Some? ==> TransferError(s.error.value)
    decreases |data|
  {
    if limit.Some? && data != [] {
      SendReasons(PushByte(w, data[0], limit.value).wire, data[1..], limit);
    }
  }

  lemma {:induction false} WriteReasons(s: Session, n: nat, nonblocking: bool, p: Patience)
    requires Ends(s, p)
    ensures var o := WriteLoop(s, n, nonblocking, p);
            o.reason.Some? ==> TransferError(o.reason.value)
    decreases Measure(s, p)
  {
    var (stop, s1) := BeforeWrite(s, p);
    if stop.None? {
      var (count, a, s2) := SslWrite(s1, n, nonblocking);
      if count == 0 && Wants(a) {
        var (ready, s3) := AfterWant(s2, p);
        if ready {
          WriteReasons(s3, n, nonblocking, p);
        }
      }
    }
  }

  /** What read() returns.  In the clear it is positive exactly if the n bytes stand in the stream in time,
      and then the buffer holds them.  Through TLS it counts the bytes it has put into the buffer, the next
      ones of the decrypted stream; 0 is the end of the stream, and -1 an error. */
  lemma ReadReports(c: CommState, os: Os, w: Wire, s: Session, n: nat, limit: Option<nat>, scope: ScopeAnswers,
        settle: nat)
    requires Settles(c, s, limit, settle) && n > 0
    ensures var t := ReadOutcome(c, os, w, s, n, limit, scope, settle);
            && (c.sock == 0 || c.secure ==> t.wire == w) && (!Secured(c) ==> t.session == s)
            && (c.sock == 0 ==> t.rc == -1 && t.bytes == [] && t.reason == Some(NotBound))
            && (c.sock != 0 && c.secure && c.ssl == 0 ==>
                  t.rc == -1 && t.bytes == [] && t.reason == Some(NotEstablished))
    ensures c.sock != 0 && !c.secure ==>
              var t := ReadOutcome(c, os, w, s, n, limit, scope, settle);
              && (t.rc > 0 <==> n <= |w.inbox| && exists data :: Prompt(w.inbox[..n], data, limit))
              && (t.rc > 0 ==> t.rc == n && Prompt(w.inbox[..n], t.bytes, limit) && t.wire.inbox == w.inbox[n..])
    ensures Secured(c) ==>
              var t := ReadOutcome(c, os, w, s, n, limit, scope, settle);
              && s.turn <= t.session.turn && |t.bytes| <= n
              && s.pending + Arrived(s.turns, s.turn, t.session.turn) == t.bytes + t.session.pending
              && t.rc == (if t.bytes != [] then |t.bytes| else if t.reason == Some(PeerTerminated) then 0 else -1)
              && (t.bytes == [] <==> t.reason.Some?)
  {
    hide Read, ReadLoop, Arrived;
    if c.sock != 0 && !c.secure {
      ReadExact(w, n, limit);
    } else if Secured(c) {
      var mode := NonblockingInside(c.sock, os, limit, scope);
      ReadReturns(s, n, mode, Waiting(s, limit, settle));
      ReadConserves(s, n, mode, Waiting(s, limit, settle));
    }
  }

  /** A call of a timed TLS loop has kept within a timeout of so many nanoseconds: it spent no more
      than that waiting, in select() and inside OpenSSL together, and did not report a timeout a
      microsecond or more before the time was up. */
  predicate KeptTimeout(before: Session, after: Session, reason: Option<Error>, budget: nat) {
    && before.waited <= after.waited <= before.waited + budget
    && (reason == Some(Error.TimedOut) ==> before.now + budget < after.now + 1000)
  }

  /** Every timed TLS read, send and handshake on a descriptor that could be made non-blocking. */
  lemma TlsReadKeepsTimeout(os: Os, s: Session, fd: nat, n: nat, micros: nat, scope: ScopeAnswers)
    requires scope.get && scope.set_
    ensures var (o, _) := TlsRead(os, s, fd, n, Some(micros), scope, 0);
            KeptTimeout(s, o.session, o.reason, micros * 1000)
  {
    hide ReadLoop;
    ReadPunctual(s, n, s.now + micros * 1000, 0);
  }

  lemma TlsSendKeepsTimeout(os: Os, s: Session, fd: nat, n: nat, micros: nat, scope: ScopeAnswers)
    requires scope.get && scope.set_
    ensures var (o, _) := TlsSend(os, s, fd, n, Some(micros), scope, 0);
            KeptTimeout(s, o.session, o.reason, micros * 1000)
  {
    hide WriteLoop;
    WritePunctual(s, n, s.now + micros * 1000, 0);
  }

  lemma ShakeKeepsTimeout(c: CommState, os: Os, s: Session, micros: nat, scope: ScopeAnswers)
    requires scope.get && scope.set_
    ensures var b := Shake(c, os, s, Some(micros), scope);
            KeptTimeout(s, b.session, b.error, micros * 1000)
  {
    hide HandshakeLoop;
    HandshakePunctual(s, s.now + micros * 1000, 0);
  }

  /** How long a send and a read can take with a timeout of so many seconds and microseconds.  In the
      clear each byte may take as long; through TLS the whole call, unless the descriptor could not be
      made non-blocking, and it reports a timeout no earlier. */
  lemma TransfersKeepTimeout(c: CommState, os: Os, w: Wire, s: Session, data: seq<byte>, n: nat, secs: nat,
        micros: nat, scope: ScopeAnswers)
    requires secs > 0 || micros > 0
    ensures var time := secs * 1000000 + micros;
            && Settles(c, s, Limit(secs, micros), 0)
            && w.waited <= SendOutcome(c, os, w, s, data, Limit(secs, micros), scope, 0).wire.waited
                        <= w.waited + |data| * time
            && w.waited <= ReadOutcome(c, os, w, s, n, Limit(secs, micros), scope, 0).wire.waited
                        <= w.waited + n * time
    ensures Secured(c) && scope.get && scope.set_ ==>
              var time := secs * 1000000 + micros;
              var sent := SendOutcome(c, os, w, s, data, Limit(secs, micros), scope, 0);
              var read := ReadOutcome(c, os, w, s, n, Limit(secs, micros), scope, 0);
              KeptTimeout(s, sent.session, sent.reason, time * 1000)
              && KeptTimeout(s, read.session, read.reason, time * 1000)
  {
    hide Send, Read, ReadLoop, WriteLoop;
    var time: nat := secs * 1000000 + micros;
    assert 0 <= |data| * time && 0 <= n * time;
    if c.sock != 0 && !c.secure {
      SendTimedWait(w, data, time);
      SendIsTimed(w, data, time);
      ReadWait(w, n, Some(time));
    } else if Secured(c) && scope.get && scope.set_ {
      TlsReadKeepsTimeout(os, s, c.sock, n, time, scope);
      TlsSendKeepsTimeout(os, s, c.sock, |data|, time, scope);
    }
  }

  lemma SendIsTimed(w: Wire, data: seq<byte>, limit: nat)
    ensures Send(w, data, Some(limit)) == SendTimed(w, data, limit)
  {
  }

  class Comm {
    const kernel: Kernel
    const secure: bool
    const verifyPeer: bool
    var sock: nat
    var timeoutSecs: nat
    var timeoutMicros: nat
    var error: Option<Error>
    var ctx: nat
    var ssl: nat

    constructor (kernel: Kernel, secure: bool, verifyPeer: bool)
      ensures this.kernel == kernel && this.secure == secure && this.verifyPeer == verifyPeer
      ensures State() == CommState(secure, 0, 0, 0) && CurrentLimit() == None && error == None
    {
      this.kernel, this.secure, this.verifyPeer := kernel, secure, verifyPeer;
      sock, timeoutSecs, timeoutMicros, error, ctx, ssl := 0, 0, 0, None, 0, 0;
    }

    function State(): CommState
      reads this
    {
      CommState(secure, sock, ctx, ssl)
    }

    function CurrentLimit(): Option<nat>
      reads this
    {
      Limit(timeoutSecs, timeoutMicros)
    }

    method SetTimeout(secs: nat, micros: nat)
      modifies this`timeoutSecs, this`timeoutMicros
      ensures timeoutSecs == secs && timeoutMicros == micros
    {
      timeoutSecs, timeoutMicros := secs, micros;
    }

    // -------------------------------------------------------------- plain

    /** One byte in: select() if there is a timeout, then recv(). */
    method FetchOne() returns (rc: int, value: byte)
      modifies this`error, kernel`wire
      ensures match Fetch(old(kernel.wire), CurrentLimit())
              case Value(b, w) => rc == 1 && value == b && kernel.wire == w && error == old(error)
              case Ended(w) => rc == 0 && kernel.wire == w && error == Some(PeerTerminated)
              case Failed(e, w) => rc == -1 && kernel.wire == w && error == Some(e)
    {
      if timeoutSecs > 0 || timeoutMicros > 0 {
        var (ready, wire) := AwaitReadable(kernel.wire, timeoutSecs * 1000000 + timeoutMicros);
        kernel.wire := wire;
        if ready.Broken? {
          error := Some(Error.SelectFailed);
          return -1, 0;
        }
        if ready.Expired? {
          error := Some(Error.TimedOut);
          return -1, 0;
        }
      }
      var received := Recv(kernel.wire);
      kernel.wire := received.wire;
      if received.rc == 0 {
        error := Some(PeerTerminated);
        return 0, 0;
      }
      if received.rc < 0 {
        error := Some(TransferFailed);
        return -1, 0;
      }
      return 1, received.value;
    }

    method PlainRead(buffer: array<byte>, length: int) returns (rc: int)
      requires length <= buffer.Length
      modifies this`error, kernel`wire, buffer
      ensures var r := Read(old(kernel.wire), length, CurrentLimit());
              && rc == r.Rc() && kernel.wire == r.wire
              && error == (if r.stop.Complete? then old(error) else Some(r.Why()))
              && |r.bytes| <= buffer.Length
              && buffer[..] == r.bytes + old(buffer[..])[|r.bytes|..]
    {
      hide Fetch;
      ghost var limit := CurrentLimit();
      ghost var all := Read(kernel.wire, length, limit);
      ghost var before := buffer[..];
      ghost var done: seq<byte> := [];
      if length <= 0 {
        return 0;
      }
      assert all.Prepend([]) == all by { assert [] + all.bytes == all.bytes; }
      var x := 0;
      while x < length
        invariant 0 <= x <= length && |done| == x
        invariant all == Read(kernel.wire, length - x, limit).Prepend(done)
        invariant buffer[..] == done + before[x..]
        invariant error == old(error)
      {
        ReadStep(kernel.wire, length - x, limit, done);
        var c;
        rc, c := FetchOne();
        if rc <= 0 {
          return rc;
        }
        Store(buffer, x, c, done, before);
        done := done + [c];
        x := x + 1;
      }
      rc := x;
      assert all.bytes == done by { assert done + [] == done; }
    }

    /** Puts c behind what has been read. */
    method Store(buffer: array<byte>, x: nat, c: byte, ghost done: seq<byte>, ghost before: seq<byte>)
      requires |done| == x < buffer.Length == |before| && buffer[..] == done + before[x..]
      modifies buffer
      ensures buffer[..] == done + [c] + before[x + 1..]
    {
      buffer[x] := c;
    }

    /** One byte out: select(), then send(). */
    method PushOne(c: byte) returns (rc: int)
      requires CurrentLimit().Some?
      modifies this`error, kernel`wire
      ensures var p := PushByte(old(kernel.wire), c, CurrentLimit().value);
              && rc == p.rc && kernel.wire == p.wire && error == (if p.error.Some? then p.error else old(error))
    {
      var (ready, wire) := AwaitWritable(kernel.wire, timeoutSecs * 1000000 + timeoutMicros);
      kernel.wire := wire;
      if ready.Broken? {
        error := Some(Error.SelectFailed);
        return -1;
      }
      if ready.Expired? {
        error := Some(Error.TimedOut);
        return 0;
      }
      var (pushed, wire2) := Push(kernel.wire, [c]);
      kernel.wire := wire2;
      if pushed == 0 {
        error := Some(PeerTerminated);
        return -1;
      }
      if pushed < 0 {
        error := Some(TransferFailed);
        return -1;
      }
      return 1;
    }

    method PlainSend(data: seq<byte>) returns (rc: int)
      modifies this`error, kernel`wire
      ensures var s := Send(old(kernel.wire), data, CurrentLimit());
              && rc == s.rc && kernel.wire == s.wire && error == (if s.error.Some? then s.error else old(error))
    {
      if timeoutSecs > 0 || timeoutMicros > 0 {
        ghost var limit := CurrentLimit().value;
        ghost var all := SendTimed(kernel.wire, data, limit);
        var x := 0;
        while x < |data|
          invariant 0 <= x <= |data|
          invariant all == SendTimed(kernel.wire, data[x..], limit).After(x)
          invariant error == old(error)
        {
          assert data[x..][0] == data[x] && data[x..][1..] == data[x + 1..];
          SendStep(kernel.wire, data[x..], limit, x);
          rc := PushOne(data[x]);
          if rc <= 0 {
            return if rc < 0 then -1 else x;
          }
          x := x + 1;
        }
        return x;
      } else {
        var (x, wire) := Push(kernel.wire, data);
        kernel.wire := wire;
        if x == 0 {
          error := Some(PeerTerminated);
          return x;
        }
        if x < 0 {
          error := Some(TransferFailed);
          return -1;
        }
        return x;
      }
    }

    // -------------------------------------------------------------- TLS

    /** SSL_read() into the caller's buffer; the answer explains a count of 0. */
    method SslReadInto(buffer: array<byte>, length: nat, nonblocking: bool) returns (count: nat, answer: Answer)
      requires length <= buffer.Length
      modifies kernel`session, buffer
      ensures var (bytes, a, s) := SslRead(old(kernel.session), length, nonblocking);
              && count == |bytes| <= length && answer == a && kernel.session == s
              && buffer[..] == bytes + old(buffer[..])[|bytes|..]
      ensures count == 0 ==> buffer[..] == old(buffer[..])
    {
      var (bytes, a, s) := SslRead(kernel.session, length, nonblocking);
      kernel.session := s;
      forall k | 0 <= k < |bytes| {
        buffer[k] := bytes[k];
      }
      return |bytes|, a;
    }

    /** The wait in front of SSL_read; false if the call has failed. */
    method AwaitReadTurn(deadline: Option<nat>, ghost p: Patience) returns (go: bool)
      requires deadline == if p.Until? then Some(p.deadline) else None
      modifies this`error, kernel`session
      ensures var (stop, s) := BeforeRead(old(kernel.session), p);
              && go == stop.None? && kernel.session == s && error == (if stop.Some? then stop else old(error))
    {
      if kernel.session.pending == [] && deadline.Some? {
        go := AwaitTurn(deadline.value);
      } else {
        go := true;
      }
    }

    /** select() with the time that remains until the deadline. */
    method AwaitTurn(deadline: nat) returns (go: bool)
      modifies this`error, kernel`session
      ensures var (stop, s) := BeforeWrite(old(kernel.session), Until(deadline));
              && go == stop.None? && kernel.session == s && error == (if stop.Some? then stop else old(error))
    {
      var left := Remaining(kernel.session.now, deadline);
      if left.None? {
        error := Some(Error.TimedOut);
        return false;
      }
      var (ready, s) := Await(kernel.session, kernel.session.turns(kernel.session.turn), left.value);
      kernel.session := s;
      if ready.Broken? {
        error := Some(Error.SelectFailed);
        return false;
      }
      if ready.Expired? {
        error := Some(Error.TimedOut);
        return false;
      }
      return true;
    }

    /** select() without a timeval, after OpenSSL has asked for more on a descriptor without a timeout. */
    method AwaitAgain(deadline: Option<nat>, ghost p: Patience) returns (go: bool)
      requires deadline == if p.Until? then Some(p.deadline) else None
      modifies this`error, kernel`session
      ensures var (ready, s) := AfterWant(old(kernel.session), p);
              && go == ready && kernel.session == s && error == (if ready then old(error) else Some(Error.SelectFailed))
    {
      if deadline.None? {
        var (ready, s) := AwaitForever(kernel.session, kernel.session.turns(kernel.session.turn));
        kernel.session := s;
        if ready.Broken? {
          error := Some(Error.SelectFailed);
          return false;
        }
      }
      return true;
    }

    /** One turn of the reading loop; more says that it goes on. */
    method TlsReadTurn(buffer: array<byte>, length: nat, nonblocking: bool, deadline: Option<nat>, ghost p: Patience)
      returns (more: bool, rc: int)
      requires length <= buffer.Length
      requires deadline == if p.Until? then Some(p.deadline) else None
      requires Ends(kernel.session, p)
      modifies this`error, kernel`session, buffer
      ensures more ==>
                && Ends(kernel.session, p) && Measure(kernel.session, p) < old(Measure(kernel.session, p))
                && ReadLoop(old(kernel.session), length, nonblocking, p)
                   == ReadLoop(kernel.session, length, nonblocking, p)
                && error == old(error) && buffer[..] == old(buffer[..])
      ensures !more ==>
                var o := ReadLoop(old(kernel.session), length, nonblocking, p);
                && rc == o.rc && kernel.session == o.session
                   && error == (if o.reason.Some? then o.reason else old(error))
                && |o.bytes| <= length && buffer[..] == o.bytes + old(buffer[..])[|o.bytes|..]
    {
      assert [] + buffer[..][0..] == buffer[..];
      var go := AwaitReadTurn(deadline, p);
      if !go {
        return false, -1;
      }
      var count, answer := SslReadInto(buffer, length, nonblocking);
      if count > 0 {
        return false, count;
      }
      if Wants(answer) {
        go := AwaitAgain(deadline, p);
        return go, -1;
      }
      if answer.ZeroReturn? || answer.UncleanEof? {
        error := Some(PeerTerminated);
        return false, 0;
      }
      error := Some(TransferFailed);
      return false, -1;
    }

    method TlsReadLoop(buffer: array<byte>, length: nat, nonblocking: bool, deadline: Option<nat>,
          ghost p: Patience) returns (rc: int)
      requires length <= buffer.Length
      requires deadline == if p.Until? then Some(p.deadline) else None
      requires Ends(kernel.session, p)
      modifies this`error, kernel`session, buffer
      ensures var o := ReadLoop(old(kernel.session), length, nonblocking, p);
              && rc == o.rc && kernel.session == o.session && error == (if o.reason.Some? then o.reason else old(error))
              && |o.bytes| <= length && buffer[..] == o.bytes + old(buffer[..])[|o.bytes|..]
    {
      ghost var all := ReadLoop(kernel.session, length, nonblocking, p);
      while true
        invariant Ends(kernel.session, p)
        invariant all == ReadLoop(kernel.session, length, nonblocking, p)
        invariant error == old(error) && buffer[..] == old(buffer[..])
        decreases Measure(kernel.session, p)
      {
        var more;
        more, rc := TlsReadTurn(buffer, length, nonblocking, deadline, p);
        if !more {
          return;
        }
      }
    }

    /** virtualread() over TLS: one deadline for the whole call. */
    method TlsReadCall(buffer: array<byte>, length: nat, ghost settle: nat) returns (rc: int)
      requires length <= buffer.Length
      requires ssl != 0 ==> Ends(kernel.session, Waiting(kernel.session, CurrentLimit(), settle))
      modifies this`error, kernel`session, kernel`os, buffer
      ensures ssl == 0 ==> rc == -1 && error == Some(NotEstablished) && buffer[..] == old(buffer[..])
                           && kernel.os == old(kernel.os) && kernel.session == old(kernel.session)
      ensures ssl != 0 ==>
                var (o, os) := TlsRead(old(kernel.os), old(kernel.session), sock, length,
                                       CurrentLimit(), kernel.scope, settle);
                && rc == o.rc && kernel.session == o.session && kernel.os == os
                && error == (if o.reason.Some? then o.reason else old(error))
                && |o.bytes| <= length && buffer[..] == o.bytes + old(buffer[..])[|o.bytes|..]
    {
      if ssl == 0 {
        error := Some(NotEstablished);
        return -1;
      }
      var limit := CurrentLimit();
      var inside := EnterScope(kernel.os, sock, limit.Some?, kernel.scope);
      kernel.os := inside.os;
      rc := TlsReadLoop(buffer, length, sock in kernel.os.nonblocking, Deadline(kernel.session, limit),
                        Waiting(kernel.session, limit, settle));
      kernel.os := LeaveScope(kernel.os, sock, inside, kernel.scope);
    }

    method TlsWriteLoop(length: nat, nonblocking: bool, deadline: Option<nat>, ghost p: Patience) returns (rc: int)
      requires deadline == if p.Until? then Some(p.deadline) else None
      requires Ends(kernel.session, p)
      modifies this`error, kernel`session
      ensures var o := WriteLoop(old(kernel.session), length, nonblocking, p);
              && rc == o.rc && kernel.session == o.session && error == (if o.reason.Some? then o.reason else old(error))
    {
      ghost var all := WriteLoop(kernel.session, length, nonblocking, p);
      while true
        invariant Ends(kernel.session, p)
        invariant all == WriteLoop(kernel.session, length, nonblocking, p)
        invariant error == old(error)
        decreases Measure(kernel.session, p)
      {
        var go := true;
        if deadline.Some? {
          go := AwaitTurn(deadline.value);
        }
        if !go {
          return -1;
        }
        var (count, answer, s) := SslWrite(kernel.session, length, nonblocking);
        kernel.session := s;
        if count > 0 {
          return count;
        }
        if Wants(answer) {
          go := AwaitAgain(deadline, p);
          if !go {
            return -1;
          }
          continue;
        }
        if answer.ZeroReturn? {
          error := Some(PeerTerminated);
          return -1;
        }
        error := Some(TransferFailed);
        return -1;
      }
    }

    /** virtualsend() over TLS. */
    method TlsSendCall(length: nat, ghost settle: nat) returns (rc: int)
      requires ssl != 0 ==> Ends(kernel.session, Waiting(kernel.session, CurrentLimit(), settle))
      modifies this`error, kernel`session, kernel`os
      ensures ssl == 0 ==> rc == -1 && error == Some(NotEstablished)
                           && kernel.os == old(kernel.os) && kernel.session == old(kernel.session)
      ensures ssl != 0 ==>
                var (o, os) := TlsSend(old(kernel.os), old(kernel.session), sock, length,
                                       CurrentLimit(), kernel.scope, settle);
                && rc == o.rc && kernel.session == o.session && kernel.os == os
                && error == (if o.reason.Some? then o.reason else old(error))
    {
      if ssl == 0 {
        error := Some(NotEstablished);
        return -1;
      }
      var limit := CurrentLimit();
      var inside := EnterScope(kernel.os, sock, limit.Some?, kernel.scope);
      kernel.os := inside.os;
      rc := TlsWriteLoop(length, sock in kernel.os.nonblocking, Deadline(kernel.session, limit),
                         Waiting(kernel.session, limit, settle));
      kernel.os := LeaveScope(kernel.os, sock, inside, kernel.scope);
    }

    method ShakeLoop(nonblocking: bool, deadline: Option<nat>) returns (ok: bool)
      modifies this`error, kernel`session
      ensures var o := HandshakeLoop(old(kernel.session), nonblocking, deadline);
              && ok == (o.rc == 1) && kernel.session == o.session
              && error == (if o.reason.Some? then o.reason else old(error))
    {
      ghost var all := HandshakeLoop(kernel.session, nonblocking, deadline);
      while true
        invariant all == HandshakeLoop(kernel.session, nonblocking, deadline)
        invariant error == old(error)
        decreases if deadline.Some? && kernel.session.now < deadline.value
                  then deadline.value - kernel.session.now else 0
      {
        var turn := kernel.session.turns(kernel.session.turn);
        kernel.session := Called(kernel.session, nonblocking);
        if turn.answer.Done? {
          return true;
        }
        if deadline.None? || !Wants(turn.answer) {
          error := Some(HandshakeFailed);
          return false;
        }
        var left := Remaining(kernel.session.now, deadline.value);
        if left.None? {
          error := Some(Error.TimedOut);
          return false;
        }
        var (ready, s) := Await(kernel.session, turn, left.value);
        kernel.session := s;
        if ready.Broken? {
          error := Some(Error.SelectFailed);
          return false;
        }
        if ready.Expired? {
          error := Some(Error.TimedOut);
          return false;
        }
      }
    }

    /** virtualbind(): builds the SSL objects and performs the handshake. */
    method TlsBindCall() returns (ok: bool)
      modifies this, kernel`os, kernel`session
      ensures var b := TlsBind(old(State()), old(kernel.os), old(kernel.session), verifyPeer,
                          old(CurrentLimit()), kernel.tls, kernel.scope);
              && ok == b.ok && State() == b.comm && kernel.os == b.os && kernel.session == b.session
              && error == (if b.error.Some? then b.error else old(error))
      ensures timeoutSecs == old(timeoutSecs) && timeoutMicros == old(timeoutMicros)
    {
      ctx := 0;
      if kernel.tls.ctx {
        var (obj, os) := MakeObj(kernel.os);
        ctx, kernel.os := obj, os;
      } else {
        error := Some(ContextNotCreated);
        return false;
      }
      if verifyPeer && !kernel.tls.certs {
        error := Some(CertificatesNotLoaded);
        return false;
      }
      ssl := 0;
      if kernel.tls.ssl {
        var (obj, os) := MakeObj(kernel.os);
        ssl, kernel.os := obj, os;
      } else {
        error := Some(SessionNotCreated);
        return false;
      }
      var limit := CurrentLimit();
      var inside := EnterScope(kernel.os, sock, limit.Some?, kernel.scope);
      kernel.os := Note(inside.os, Shook(sock));
      ok := ShakeLoop(sock in inside.os.nonblocking, Deadline(kernel.session, limit));
      kernel.os := LeaveScope(kernel.os, sock, inside, kernel.scope);
    }

    // -------------------------------------------------------------- the base class

    method BindTo(fd: nat) returns (ok: bool)
      modifies this, kernel`os, kernel`session
      ensures var b := Bind(old(State()), fd, old(kernel.os), old(kernel.session), verifyPeer,
                          old(CurrentLimit()), kernel.tls, kernel.scope);
              && ok == b.ok && State() == b.comm && kernel.os == b.os && kernel.session == b.session
              && error == (if b.error.Some? then b.error else old(error))
      ensures timeoutSecs == old(timeoutSecs) && timeoutMicros == old(timeoutMicros)
    {
      if sock != 0 {
        error := Some(AlreadyBound);
        return false;
      }
      if fd == 0 {
        error := Some(NotValidDescriptor);
        return false;
      }
      sock := fd;
      if secure {
        ok := TlsBindCall();
      } else {
        ok := true;
      }
    }

    method FinishUp() returns (ok: bool)
      modifies this`sock, this`ssl, this`ctx, this`error, kernel`os
      ensures var f := Finish(old(State()), old(kernel.os));
              && ok == f.ok && State() == f.comm && kernel.os == f.os
              && error == (if f.error.Some? then f.error else old(error))
    {
      if sock == 0 {
        error := Some(AlreadyFinished);
        return false;
      }
      var fd := sock;
      sock := 0;
      if secure {
        if ssl != 0 {
          kernel.os := Note(kernel.os, Freed(ssl, fd));
          ssl := 0;
        }
        if ctx != 0 {
          kernel.os := Note(kernel.os, Freed(ctx, 0));
          ctx := 0;
        }
      }
      ok := true;
    }

    method SendData(data: seq<byte>, ghost settle: nat) returns (rc: int)
      requires Settles(State(), kernel.session, CurrentLimit(), settle)
      modifies this`error, kernel`wire, kernel`session, kernel`os
      ensures var t := SendOutcome(State(), old(kernel.os), old(kernel.wire), old(kernel.session), data,
                                   CurrentLimit(), kernel.scope, settle);
              && rc == t.rc && kernel.wire == t.wire && kernel.session == t.session
              && error == if t.reason.Some? then t.reason else old(error)
      ensures kernel.os == ReadEffect(State(), old(kernel.os), CurrentLimit(), kernel.scope)
    {
      if sock != 0 {
        if secure {
          rc := TlsSendCall(|data|, settle);
        } else {
          rc := PlainSend(data);
        }
      } else {
        error := Some(NotBound);
        rc := -1;
      }
    }

    /** SendData() with its trace in the log. */
    method SendNoted(data: seq<byte>, ghost settle: nat) returns (rc: int)
      requires Settles(State(), kernel.session, CurrentLimit(), settle)
      modifies this`error, kernel`wire, kernel`session, kernel`os
      ensures var t := SendOutcome(State(), old(kernel.os), old(kernel.wire), old(kernel.session), data,
                                   CurrentLimit(), kernel.scope, settle);
              && rc == t.rc && kernel.wire == t.wire && kernel.session == t.session
              && error == if t.reason.Some? then t.reason else old(error)
      ensures kernel.os == SendEffect(State(), old(kernel.os), old(kernel.wire),
                                      Send(old(kernel.wire), data, CurrentLimit()).wire, CurrentLimit(), kernel.scope)
    {
      var before := kernel.wire;
      rc := SendData(data, settle);
      if sock != 0 {
        if !secure {
          kernel.os := NotePlain(kernel.os, sock, before, kernel.wire);
        } else if ssl != 0 {
          kernel.os := Note(kernel.os, Ciphered(sock));
        }
      }
    }

    method ReadData(buffer: array<byte>, length: nat, ghost settle: nat) returns (rc: int)
      requires length <= buffer.Length
      requires Settles(State(), kernel.session, CurrentLimit(), settle)
      modifies this`error, kernel`wire, kernel`session, kernel`os, buffer
      ensures var t := ReadOutcome(State(), old(kernel.os), old(kernel.wire), old(kernel.session), length,
                                   CurrentLimit(), kernel.scope, settle);
              && rc == t.rc && kernel.wire == t.wire && kernel.session == t.session
              && error == (if t.reason.Some? then t.reason else old(error))
              && |t.bytes| <= buffer.Length && buffer[..] == t.bytes + old(buffer[..])[|t.bytes|..]
      ensures kernel.os == ReadEffect(State(), old(kernel.os), CurrentLimit(), kernel.scope)
    {
      assert [] + buffer[..] == buffer[..];
      if sock != 0 {
        if secure {
          rc := TlsReadCall(buffer, length, settle);
        } else {
          rc := PlainRead(buffer, length);
        }
      } else {
        error := Some(NotBound);
        rc := -1;
      }
    }
  }
}
