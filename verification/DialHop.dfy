/** Socket_Connect_Normal as the library runs it, over the descriptor table and errno. */
module DialHop {
  import opened Wire
  import opened Os
  import opened Dial
  import opened Comm

  /** setNonBlocking(); get and put are the answers to its two fcntl calls. */
  method SwitchMode(kernel: Kernel, fd: Option<nat>, nonblocking: bool, get: Call, put: Call) returns (ok: bool)
    modifies kernel`os
    ensures (ok, kernel.os) == SetNonBlocking(old(kernel.os), fd, nonblocking, get, put)
  {
    if fd.None? {
      kernel.os := kernel.os.(errno := EBADF);
      return false;
    }
    if !get.ok {
      kernel.os := kernel.os.(errno := get.errno);
      return false;
    }
    if !put.ok {
      kernel.os := kernel.os.(errno := put.errno);
      return false;
    }
    kernel.os := SetMode(kernel.os, fd.value, nonblocking).(errno := put.errno);
    return true;
  }

  /** connecttimeout(): errno is saved around the restoring of the mode. */
  method ConnectTimeout(kernel: Kernel, fd: Option<nat>, msec: nat, a: Answers) returns (value: int)
    modifies kernel`os
    ensures (value, kernel.os) == TimedConnect(old(kernel.os), fd, msec, a)
  {
    var ok := SwitchMode(kernel, fd, true, a.getMode, a.setMode);
    if !ok {
      return -1;
    }
    var (ret, os) := IssueConnect(kernel.os, a);
    kernel.os := os;
    if ret == 0 {
      value := 0;
    } else if Pending(kernel.os.errno) {
      var (sec, usec) := TimeVal(msec);
      var (ready, os) := AwaitConnect(kernel.os, sec * 1000000 + usec, a);
      kernel.os := os;
      if ready > 0 {
        if !a.sockopt.ok {
          kernel.os := kernel.os.(errno := a.sockopt.errno);
          value := -1;
        } else if a.outcome == 0 {
          value := 0;
        } else {
          kernel.os := kernel.os.(errno := a.outcome);
          value := -1;
        }
      } else if ready == 0 {
        value := -2;
      } else {
        value := -1;
      }
    } else {
      value := -1;
    }
    var saved := kernel.os.errno;
    ok := SwitchMode(kernel, fd, false, a.regetMode, a.resetMode);
    if !ok {
      value := -1;
    } else {
      kernel.os := kernel.os.(errno := saved);
    }
  }

  /** ::close(), which may leave anything in errno. */
  method CloseCall(kernel: Kernel, fd: Option<nat>, a: Answers)
    modifies kernel`os
    ensures kernel.os.errno == if fd.None? then EBADF else a.closeCode
    ensures kernel.os.(errno := old(kernel.os.errno)) == Release(old(kernel.os), fd)
  {
    if fd.None? {
      kernel.os := kernel.os.(errno := EBADF);
    } else {
      kernel.os := CloseFd(kernel.os, fd.value).(errno := a.closeCode);
    }
  }

  /** closeSocket(): errno is saved around the close. */
  method CloseSocket(kernel: Kernel, fd: Option<nat>, a: Answers)
    modifies kernel`os
    ensures kernel.os == Release(old(kernel.os), fd) && kernel.os.errno == old(kernel.os.errno)
  {
    var saved := kernel.os.errno;
    CloseCall(kernel, fd, a);
    kernel.os := kernel.os.(errno := saved);
  }

  method DialOut(kernel: Kernel, sock: nat, host: seq<byte>, port: int, secs: nat, micros: nat)
    returns (ok: bool, sock': nat, error: Option<Error>)
    modifies kernel`os
    ensures Dialled(ok, sock', error, kernel.os)
            == SimpleConnect(old(kernel.os), sock, host, port, secs, micros, kernel.dial(host, port))
  {
    if port <= 0 {
      return false, sock, Some(PortNotSet);
    }
    if host == [] {
      return false, sock, Some(ServerNotSet);
    }
    var a := kernel.dial(host, port);
    var (fd, os) := NewSocket(kernel.os, a);
    kernel.os := os;
    if fd == Some(0) {
      return false, 0, Some(SocketNotCreated);
    }
    if !a.resolves {
      CloseSocket(kernel, fd, a);
      return false, 0, Some(NotResolved);
    }
    var milliseconds := secs * 1000;
    milliseconds := milliseconds + micros / 1000;
    var rc;
    if milliseconds != 0 {
      rc := ConnectTimeout(kernel, fd, milliseconds, a);
    } else {
      var (ret, os) := PlainConnect(kernel.os, fd, a);
      rc, kernel.os := ret, os;
    }
    if rc != 0 {
      error := if rc == -2 then Some(ConnectTimedOut) else Some(Errno(kernel.os.errno));
      CloseSocket(kernel, fd, a);
      return false, 0, error;
    }
    return true, fd.value, None;
  }
}
