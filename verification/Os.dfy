/** The kernel's descriptor table and OpenSSL's object table.

    Identities are never reused, so the log of one run says everything about the fate of each
    descriptor and each TLS object. */
module Os {
  import opened Wire

  datatype Happening =
    | Opened(fd: nat)
    | Closed(fd: nat)
    | Shook(fd: nat)                  // a TLS handshake was attempted on fd
    | Plain(fd: nat)                  // bytes went out on fd in the clear
    | Ciphered(fd: nat)               // bytes went out on fd through TLS
    | Made(obj: nat)                  // SSL_CTX_new or SSL_new
    | Freed(obj: nat, fd: nat)        // SSL_shutdown and SSL_free on fd; for SSL_CTX_free fd is 0

  datatype Os = Os(nextFd: nat, nextObj: nat, open: set<nat>, nonblocking: set<nat>, errno: nat, log: seq<Happening>)

  function Note(os: Os, h: Happening): Os {
    os.(log := os.log + [h])
  }

  function OpenFd(os: Os, fd: nat): Os {
    Note(os, Opened(fd)).(open := os.open + {fd}, nonblocking := os.nonblocking - {fd})
  }

  /** close(); a descriptor that is not open has nothing to close.  What close() does to errno is up to
      its callers' models: only closeSocket() of module DialHop reads errno afterwards. */
  function CloseFd(os: Os, fd: nat): Os {
    if fd in os.open then Note(os, Closed(fd)).(open := os.open - {fd}) else os
  }

  function MakeObj(os: Os): (nat, Os) {
    (os.nextObj, Note(os, Made(os.nextObj)).(nextObj := os.nextObj + 1))
  }

  /** Answers to the three fcntl steps of NonBlockingScope. */
  datatype ScopeAnswers = ScopeAnswers(get: bool, set_: bool, restore: bool)

  function SetMode(os: Os, fd: nat, nonblocking: bool): Os {
    os.(nonblocking := if nonblocking then os.nonblocking + {fd} else os.nonblocking - {fd})
  }

  /** Bytes that have left through the plain wire of fd have gone out in the clear. */
  function NotePlain(os: Os, fd: nat, before: Wire, after: Wire): Os {
    if Sents(after.log) != Sents(before.log) then Note(os, Plain(fd)) else os
  }
}
