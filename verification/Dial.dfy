/** Opening the first connection: src/socket_connect_normal.cpp. */
module Dial {
  import opened Wire
  import opened Os

  const EBADF: nat := 9
  const EAGAIN: nat := 11       // the same code as EWOULDBLOCK
  const EINPROGRESS: nat := 115

  predicate Pending(errno: nat) {
    errno == EINPROGRESS || errno == EAGAIN
  }

  /** A call that may fail.  Success can overwrite errno as well as failure can. */
  datatype Call = Call(ok: bool, errno: nat)

  datatype SocketAnswer = Granted | Zero | Denied(errno: nat)

  /** How the world answers one attempt to connect.  delay and outcome are the attempt's eventual
      fate, the same whether connect() blocks for it or select() waits for it; a non-blocking
      connect() knows it at once or reports that it is pending. */
  datatype Answers = Answers(
    socket: SocketAnswer, resolves: bool,
    getMode: Call, setMode: Call,
    atOnce: bool, pendingCode: nat, delay: nat, outcome: nat,
    select: Call, sockopt: Call,
    regetMode: Call, resetMode: Call,
    closeCode: nat)

  /** How it answers an attempt to connect to any host and port. */
  type World = (seq<byte>, int) -> Answers

  /** What the kernel promises of these answers: an outcome is final, and a pending attempt says so. */
  predicate Sane(a: Answers) {
    && !Pending(a.outcome)
    && Pending(a.pendingCode)
    && !Pending(a.getMode.errno) && !Pending(a.setMode.errno)
    && !Pending(a.select.errno) && !Pending(a.sockopt.errno)
    && !Pending(a.regetMode.errno) && !Pending(a.resetMode.errno)
  }

  /** setNonBlocking(): two fcntl calls, failing on a descriptor that does not exist. */
  function SetNonBlocking(os: Os, fd: Option<nat>, on: bool, get: Call, put: Call): (bool, Os) {
    if fd.None? then (false, os.(errno := EBADF))
    else if !get.ok then (false, os.(errno := get.errno))
    else if !put.ok then (false, os.(errno := put.errno))
    else (true, SetMode(os, fd.value, on).(errno := put.errno))
  }

  /** The blocking ::connect(). */
  function PlainConnect(os: Os, fd: Option<nat>, a: Answers): (int, Os) {
    if fd.None? then (-1, os.(errno := EBADF))
    else if a.outcome == 0 then (0, os)
    else (-1, os.(errno := a.outcome))
  }

  /** The non-blocking ::connect(). */
  function IssueConnect(os: Os, a: Answers): (int, Os) {
    if !a.atOnce then (-1, os.(errno := a.pendingCode))
    else if a.outcome == 0 then (0, os)
    else (-1, os.(errno := a.outcome))
  }

  /** select() on the pending attempt, waiting at most tv microseconds. */
  function AwaitConnect(os: Os, tv: nat, a: Answers): (int, Os) {
    if !a.select.ok then (-1, os.(errno := a.select.errno))
    else if a.delay <= tv then (1, os)
    else (0, os)
  }

  function PendingResult(os: Os, tv: nat, a: Answers): (int, Os) {
    var (ready, os1) := AwaitConnect(os, tv, a);
    if ready == 0 then (-2, os1)
    else if ready < 0 then (-1, os1)
    else if !a.sockopt.ok then (-1, os1.(errno := a.sockopt.errno))
    else if a.outcome == 0 then (0, os1)
    else (-1, os1.(errno := a.outcome))
  }

  function Decide(os: Os, tv: nat, a: Answers): (int, Os) {
    var (rc, os1) := IssueConnect(os, a);
    if rc == 0 then (0, os1)
    else if Pending(os1.errno) then PendingResult(os1, tv, a)
    else (-1, os1)
  }

  /** connecttimeout(): 0 on success, -1 on error, -2 on timeout. */
  function TimedConnect(os: Os, fd: Option<nat>, msec: nat, a: Answers): (int, Os) {
    var (went, os1) := SetNonBlocking(os, fd, true, a.getMode, a.setMode);
    if !went then (-1, os1)
    else
      var (sec, usec) := TimeVal(msec);
      var (value, os2) := Decide(os1, sec * 1000000 + usec, a);
      var (back, os3) := SetNonBlocking(os2, fd, false, a.regetMode, a.resetMode);
      if back then (value, os3.(errno := os2.errno)) else (-1, os3)
  }

  /** The timeval handed to select(). */
  function TimeVal(msec: nat): (nat, nat) {
    (msec / 1000, 1000 * (msec % 1000))
  }

  function Milliseconds(secs: nat, micros: nat): nat {
    secs * 1000 + micros / 1000
  }

  /** The timeval is normalised and falls short of the requested time by less than a millisecond,
      even for a microsecond argument above one second; the wait is unbounded exactly when less
      than one millisecond was asked for. */
  lemma TimeValWithinMillisecond(secs: nat, micros: nat)
    ensures var (sec, usec) := TimeVal(Milliseconds(secs, micros));
            var asked := secs * 1000000 + micros;
            && 0 <= usec < 1000000
            && asked - 1000 < sec * 1000000 + usec <= asked
            && (Milliseconds(secs, micros) == 0 <==> asked < 1000)
  {
    var msec := Milliseconds(secs, micros);
    assert msec == 1000 * (msec / 1000) + msec % 1000;
    assert micros == 1000 * (micros / 1000) + micros % 1000;
  }

  /** When the helper calls work, the timed connect does what the plain one does, result and errno
      alike, or reports the timeout - and it reports the timeout exactly when the attempt takes
      longer than the time allowed. */
  lemma TimedRefinesPlain(os: Os, fd: nat, msec: nat, a: Answers)
    requires Sane(a)
    requires a.getMode.ok && a.setMode.ok && a.select.ok && a.sockopt.ok && a.regetMode.ok && a.resetMode.ok
    ensures var (timed, os') := TimedConnect(os, Some(fd), msec, a);
            var (plain, os'') := PlainConnect(os, Some(fd), a);
            && (timed == -2 <==> !a.atOnce && a.delay > msec * 1000)
            && (timed != -2 ==> timed == plain)
            && (timed == -1 ==> os'.errno == os''.errno)
            && fd !in os'.nonblocking
            && os'.open == os.open == os''.open && os'.log == os.log == os''.log
  {
    assert msec == 1000 * (msec / 1000) + msec % 1000;
  }

  /** Without a descriptor both fail alike. */
  lemma NoDescriptor(os: Os, msec: nat, a: Answers)
    ensures TimedConnect(os, None, msec, a) == PlainConnect(os, None, a) == (-1, os.(errno := EBADF))
  {
  }

  /** Whatever fails, "in progress" is never the reason published with an error. */
  lemma PendingNeverPublished(os: Os, fd: Option<nat>, msec: nat, a: Answers)
    requires Sane(a)
    ensures var (timed, os') := TimedConnect(os, fd, msec, a);
            && -2 <= timed <= 0
            && (timed == -1 ==> !Pending(os'.errno))
  {
  }

  /** The two fcntl calls that make the descriptor non-blocking work, and those that make it blocking
      again. */
  predicate Enters(a: Answers) {
    a.getMode.ok && a.setMode.ok
  }

  predicate Leaves(a: Answers) {
    a.regetMode.ok && a.resetMode.ok
  }

  /** The code of the first call that failed, but for the restoring of the mode, which comes before all
      that went wrong inside. */
  function Blamed(a: Answers): nat {
    if !a.getMode.ok then a.getMode.errno
    else if !a.setMode.ok then a.setMode.errno
    else if !a.regetMode.ok then a.regetMode.errno
    else if !a.resetMode.ok then a.resetMode.errno
    else if !a.atOnce && !a.select.ok then a.select.errno
    else if !a.atOnce && !a.sockopt.ok then a.sockopt.errno
    else a.outcome
  }

  /** Whatever fails: the timed connect succeeds if and only if the attempt does within the time, and every
      helper call that it takes works; it reports the timeout if and only if the attempt is late and they
      work; and otherwise errno says what failed first - or the restoring of the mode, if that did. */
  lemma TimedConnectDecided(os: Os, fd: nat, msec: nat, a: Answers)
    requires Sane(a)
    ensures var (rc, os') := TimedConnect(os, Some(fd), msec, a);
            var inTime := a.atOnce || (a.select.ok && a.delay <= msec * 1000);
            var known := a.atOnce || a.sockopt.ok;
            && (rc == 0 <==> Enters(a) && Leaves(a) && inTime && known && a.outcome == 0)
            && (rc == -2 <==> Enters(a) && Leaves(a) && !a.atOnce && a.select.ok && a.delay > msec * 1000)
            && (rc == 0 || rc == -1 || rc == -2)
            && (rc == -1 ==> os'.errno == Blamed(a))
  {
    Thousandths(msec);
  }

  lemma Thousandths(msec: nat)
    ensures var (sec, usec) := TimeVal(msec); sec * 1000000 + usec == msec * 1000
  {
    assert msec == 1000 * (msec / 1000) + msec % 1000;
  }

  // ---------------------------------------------------------------- simpleConnect

  /** sock is the caller's descriptor afterwards; None leaves the previous error in place. */
  datatype Dialled = Dialled(ok: bool, sock: nat, error: Option<Error>, os: Os)

  /** socket(): -1 is None.  The kernel cannot hand out a descriptor that is open. */
  function NewSocket(os: Os, a: Answers): (Option<nat>, Os) {
    match a.socket
    case Granted => (Some(os.nextFd), OpenFd(os, os.nextFd).(nextFd := os.nextFd + 1))
    case Zero => if 0 in os.open then (None, os) else (Some(0), OpenFd(os, 0))
    case Denied(errno) => (None, os.(errno := errno))
  }

  /** closeSocket(): releases the descriptor; whatever close() does to errno, the pending error stays. */
  function Release(os: Os, fd: Option<nat>): Os {
    if fd.None? then os else CloseFd(os, fd.value)
  }

  function SimpleConnect(os: Os, sock: nat, host: seq<byte>, port: int, secs: nat, micros: nat, a: Answers): Dialled {
    if port <= 0 then Dialled(false, sock, Some(PortNotSet), os)
    else if host == [] then Dialled(false, sock, Some(ServerNotSet), os)
    else
      var (fd, os1) := NewSocket(os, a);
      if fd == Some(0) then Dialled(false, 0, Some(SocketNotCreated), os1)
      else if !a.resolves then Dialled(false, 0, Some(NotResolved), Release(os1, fd))
      else
        var msec := Milliseconds(secs, micros);
        var (rc, os2) := if msec != 0 then TimedConnect(os1, fd, msec, a) else PlainConnect(os1, fd, a);
        if rc != 0 then
          var e := if rc == -2 then ConnectTimedOut else Errno(os2.errno);
          Dialled(false, 0, Some(e), Release(os2, fd))
        else Dialled(true, fd.value, None, os2)
  }

  lemma NoTimeout()
    ensures Milliseconds(0, 0) == 0
  {
  }

  /** Setting a timeout changes nothing about a connect but this: it fails with the distinct timeout
      error exactly when the attempt outlasts the time.  Otherwise the verdict, the descriptor, the
      error reported and the descriptor table are those of the untimed connect. */
  lemma {:induction false} TimeoutOnlyAddsTimeout(os: Os, sock: nat, host: seq<byte>, port: int, secs: nat,
        micros: nat, a: Answers)
    requires os.nextFd > 0 && Sane(a)
    requires a.getMode.ok && a.setMode.ok && a.select.ok && a.sockopt.ok && a.regetMode.ok && a.resetMode.ok
    ensures var timed := SimpleConnect(os, sock, host, port, secs, micros, a);
            var plain := SimpleConnect(os, sock, host, port, 0, 0, a);
            var msec := Milliseconds(secs, micros);
            var late := port > 0 && host != [] && a.socket.Granted? && a.resolves
                        && msec != 0 && !a.atOnce && a.delay > msec * 1000;
            && (plain.ok <==> port > 0 && host != [] && a.socket.Granted? && a.resolves && a.outcome == 0)
            && (plain.error == Some(Errno(a.outcome)) <==>
                  port > 0 && host != [] && a.resolves
                  && (if a.socket.Granted? then a.outcome != 0
                   else a.outcome == EBADF && (a.socket.Denied? || 0 in os.open)))
            && (timed.error == Some(ConnectTimedOut) <==> late)
            && (late ==> !timed.ok && timed.sock == 0)
            && (!late ==> timed.ok == plain.ok && timed.sock == plain.sock && timed.error == plain.error
                          && timed.os.open == plain.os.open && timed.os.log == plain.os.log)
            && (timed.error.Some? && timed.error.value.Errno? && a.socket.Granted? ==>
                  !Pending(timed.error.value.errno) && timed.error.value.errno == a.outcome)
  {
    hide TimedConnect, Milliseconds;
    NoTimeout();
    var (fd, os1) := NewSocket(os, a);
    if fd.Some? {
      TimedRefinesPlain(os1, fd.value, Milliseconds(secs, micros), a);
    } else {
      NoDescriptor(os1, Milliseconds(secs, micros), a);
    }
  }

  /** An attempt on a host that resolves, when the helper calls work: it ends with the distinct timeout
      error if it outlasts the whole milliseconds of the time set, otherwise by its own outcome. */
  lemma AttemptDecides(os: Os, sock: nat, host: seq<byte>, port: int, secs: nat, micros: nat, a: Answers)
    requires os.nextFd > 0 && port > 0 && host != [] && Sane(a) && a.socket.Granted? && a.resolves
    requires Enters(a) && Leaves(a) && a.select.ok && a.sockopt.ok
    ensures var d := SimpleConnect(os, sock, host, port, secs, micros, a);
            var msec := secs * 1000 + micros / 1000;
            d.error == if msec > 0 && !a.atOnce && a.delay > msec * 1000 then Some(ConnectTimedOut)
                       else if a.outcome != 0 then Some(Errno(a.outcome))
                       else None
  {
    DialReports(os, sock, host, port, secs, micros, a);
    DialReports(os, sock, host, port, 0, 0, a);
    TimeoutOnlyAddsTimeout(os, sock, host, port, secs, micros, a);
  }

  /** Which error a connect reports before it comes to connecting: no port, no host, no descriptor (which
      the code finds only in a descriptor 0), or a host that cannot be resolved. */
  lemma DialReports(os: Os, sock: nat, host: seq<byte>, port: int, secs: nat, micros: nat, a: Answers)
    requires os.nextFd > 0
    ensures var d := SimpleConnect(os, sock, host, port, secs, micros, a);
            var zero := a.socket.Zero? && 0 !in os.open;
            && (d.error == Some(PortNotSet) <==> port <= 0)
            && (d.error == Some(ServerNotSet) <==> port > 0 && host == [])
            && (d.error == Some(SocketNotCreated) <==> port > 0 && host != [] && zero)
            && (d.error == Some(NotResolved) <==> port > 0 && host != [] && !zero && !a.resolves)
            && (d.error == None <==> d.ok)
  {
    hide TimedConnect;
  }

  /** The fresh descriptor is the caller's exactly when the connection was made; in every other
      case it has been closed again, except a descriptor 0, which is opened and lost. */
  lemma DescriptorHandedOverOrClosed(os: Os, sock: nat, host: seq<byte>, port: int, secs: nat, micros: nat, a: Answers)
    requires os.nextFd !in os.open && os.nextFd > 0
    ensures var d := SimpleConnect(os, sock, host, port, secs, micros, a);
            var reached := port > 0 && host != [];
            var granted := reached && a.socket.Granted?;
            var zero := reached && a.socket.Zero? && 0 !in os.open;
            && (!reached ==> !d.ok && d.sock == sock && d.os == os)
            && (reached ==> d.sock == if d.ok then os.nextFd else 0)
            && (d.ok ==> granted)
            && d.os.open == os.open + (if d.ok then {os.nextFd} else if zero then {0} else {})
            && d.os.nextFd == os.nextFd + (if granted then 1 else 0) && d.os.nextObj == os.nextObj
            && d.os.log == os.log
                           + (if granted then [Opened(os.nextFd)] else if zero then [Opened(0)] else [])
                           + (if granted && !d.ok then [Closed(os.nextFd)] else [])
  {
    var d := SimpleConnect(os, sock, host, port, secs, micros, a);
    var (fd, os1) := NewSocket(os, a);
    if fd.Some? && fd.value != 0 {
      assert os1.open - {os.nextFd} == os.open;
    }
  }

  /** A descriptor handed over is in blocking mode, with or without a timeout: were the restore to
      fail, the connect would have failed and closed it. */
  lemma DialledIsBlocking(os: Os, sock: nat, host: seq<byte>, port: int, secs: nat, micros: nat, a: Answers)
    requires os.nextFd !in os.open
    ensures var d := SimpleConnect(os, sock, host, port, secs, micros, a);
            && (d.ok ==> d.sock !in d.os.nonblocking)
            && d.os.nonblocking - {os.nextFd, 0} == os.nonblocking - {os.nextFd, 0}
            && (d.os.nonblocking - os.nonblocking) !! d.os.open
  {
    var d := SimpleConnect(os, sock, host, port, secs, micros, a);
    var (fd, os1) := NewSocket(os, a);
    assert os1.nonblocking - {os.nextFd, 0} == os.nonblocking - {os.nextFd, 0};
  }
}
