/** The HTTP CONNECT hop: src/socket_connect_proxy.cpp (section 9.3.6 of RFC 9110, section 2.1 of
    RFC 9112). */
module HttpProxy {
  import opened Wire
  import opened Socks5

  const SPACE: byte := 32
  const COLON: byte := 58
  const DIGIT_0: byte := 48
  const DIGIT_2: byte := 50

  /** "CONNECT " and " HTTP/1.1\\n\\n" */
  const VERB: seq<byte> := [67, 79, 78, 78, 69, 67, 84, 32]
  const VERSION: seq<byte> := [32, 72, 84, 84, 80, 47, 49, 46, 49, 10, 10]

  /** The status line up to and including the status code. */
  const STATUS_LENGTH: nat := 12

  // ---------------------------------------------------------------- the request

  /** %d of a non-negative number. */
  function Decimal(n: nat): (s: seq<byte>)
    ensures |s| >= 1 && forall i :: 0 <= i < |s| ==> DIGIT_0 <= s[i] <= DIGIT_0 + 9
  {
    if n < 10 then [DIGIT_0 + n] else Decimal(n / 10) + [DIGIT_0 + n % 10]
  }

  /** snprintf(): what fits in size characters, the last of which is the terminator. */
  function Snprintf(size: nat, text: seq<byte>): seq<byte>
    requires size > 0
  {
    if |text| < size then text else text[..size - 1]
  }

  function ConnectRequest(host: seq<byte>, port: nat): seq<byte> {
    VERB + host + [COLON] + Decimal(port) + VERSION
  }

  // ---------------------------------------------------------------- the reply

  /** The loop that looks for the end of the headers: it stops at a LF whose second predecessor
      within the loop is a LF too. */
  function Scan(w: Wire, last: byte, secondLast: byte, limit: Option<nat>): (bool, Wire)
    decreases |w.inbox|
  {
    var r := Read(w, 1, limit);
    ReadOne(w, limit);
    if r.Rc() <= 0 then (false, r.wire)
    else
      var c := r.bytes[0];
      if c == LF && secondLast == c then (true, r.wire)
      else Scan(r.wire, c, last, limit)
  }

  function Tunnel(sock: nat, host: seq<byte>, port: int, w: Wire, limit: Option<nat>): HopResult {
    if port <= 0 then HopResult(false, Some(PortNotSet), w)
    else if host == [] then HopResult(false, Some(ServerNotSet), w)
    else if sock == 0 then HopResult(false, Some(NotConnected), w)
    else
      var s := Send(w, Snprintf(|host| + 200, ConnectRequest(host, port)), limit);
      if s.rc <= 0 then HopResult(false, Some(RequestNotSent), s.wire)
      else AwaitStatus(s.wire, limit)
  }

  function AwaitStatus(w: Wire, limit: Option<nat>): HopResult {
    var r := Read(w, STATUS_LENGTH, limit);
    ReadLog(w, STATUS_LENGTH, limit);
    if r.Rc() <= 0 then HopResult(false, Some(r.Why()), r.wire)
    else if r.bytes[9] != DIGIT_2 then HopResult(false, Some(StatusRejected), r.wire)
    else
      var (found, w') := Scan(r.wire, 0, 0, limit);
      HopResult(found, if found then None else Some(HeadersIncomplete), w')
  }

  // ---------------------------------------------------------------- the request round trip

  /** The value of a string of decimal digits. */
  function Number(s: seq<byte>): nat
    requires forall i :: 0 <= i < |s| ==> DIGIT_0 <= s[i] <= DIGIT_0 + 9
  {
    if s == [] then 0
    else
      var digit: nat := s[|s| - 1] - DIGIT_0;
      Number(s[..|s| - 1]) * 10 + digit
  }

  lemma {:induction false} NumberOfDecimal(n: nat)
    ensures Number(Decimal(n)) == n
  {
    if n >= 10 {
      NumberOfDecimal(n / 10);
      assert Decimal(n)[..|Decimal(n)| - 1] == Decimal(n / 10);
      assert n == 10 * (n / 10) + n % 10;
    } else {
      assert Decimal(n)[..0] == [];
    }
  }

  function Pow10(k: nat): nat {
    if k == 0 then 1 else 10 * Pow10(k - 1)
  }

  lemma {:induction false} DecimalLength(n: nat, k: nat)
    requires k >= 1 && n < Pow10(k)
    ensures |Decimal(n)| <= k
    decreases k
  {
    if n >= 10 {
      assert n / 10 < Pow10(k - 1);
      DecimalLength(n / 10, k - 1);
    }
  }

  /** The position of the last b in s, or |s|. */
  function Last(s: seq<byte>, b: byte): (i: nat)
    ensures i <= |s| && (i < |s| ==> s[i] == b)
  {
    if s == [] then 0
    else if s[|s| - 1] == b then |s| - 1
    else
      var i := Last(s[..|s| - 1], b);
      if i == |s| - 1 then |s| else i
  }

  lemma {:induction false} LastAfter(front: seq<byte>, b: byte, tail: seq<byte>)
    requires b !in tail
    ensures Last(front + [b] + tail, b) == |front|
    decreases |tail|
  {
    var s := front + [b] + tail;
    if tail != [] {
      assert s[|s| - 1] == tail[|tail| - 1];
      assert s[..|s| - 1] == front + [b] + tail[..|tail| - 1];
      LastAfter(front, b, tail[..|tail| - 1]);
    }
  }

  predicate Digits(s: seq<byte>) {
    s != [] && forall i :: 0 <= i < |s| ==> DIGIT_0 <= s[i] <= DIGIT_0 + 9
  }

  /** How a proxy takes the request apart: verb, target up to the next space, version; in the target
      the port stands behind the last colon. */
  function ParseConnect(b: seq<byte>): Option<(seq<byte>, nat)> {
    if !(VERB <= b) then None
    else
      var rest := b[|VERB|..];
      var end := First(rest, SPACE);
      var target := rest[..end];
      var colon := Last(target, COLON);
      if colon == |target| || rest[end..] != VERSION || !Digits(target[colon + 1..]) then None
      else Some((target[..colon], Number(target[colon + 1..])))
  }

  lemma PrintedInFull(host: seq<byte>, port: nat)
    requires port <= 0x7fffffff
    ensures Snprintf(|host| + 200, ConnectRequest(host, port)) == ConnectRequest(host, port)
  {
    assert Pow10(10) == 10000000000 by {
      assert Pow10(5) == 100000;
      assert Pow10(7) == 100 * Pow10(5);
      assert Pow10(9) == 100 * Pow10(7);
    }
    DecimalLength(port, 10);
  }

  lemma FirstIs(target: seq<byte>, b: byte, rest: seq<byte>)
    requires b !in target && rest != [] && rest[0] == b
    ensures First(target + rest, b) == |target|
  {
    assert forall j :: 0 <= j < |target| ==> (target + rest)[j] == target[j];
    assert (target + rest)[|target|] == b;
  }

  /** For every host without a space and every int port the printed request is not truncated, and the
      proxy gets back exactly the host and the port, even of a host that contains colons. */
  lemma ConnectRoundTrip(host: seq<byte>, port: nat)
    requires SPACE !in host && port <= 0x7fffffff
    ensures var sent := Snprintf(|host| + 200, ConnectRequest(host, port));
            sent == ConnectRequest(host, port) && ParseConnect(sent) == Some((host, port))
  {
    hide Decimal, Number, First, Last;
    PrintedInFull(host, port);
    var digits := Decimal(port);
    var target := host + [COLON] + digits;
    var sent := ConnectRequest(host, port);
    assert sent == VERB + (target + VERSION);
    assert sent[|VERB|..] == target + VERSION;
    FirstIs(target, SPACE, VERSION);
    assert (target + VERSION)[..|target|] == target && (target + VERSION)[|target|..] == VERSION;
    LastAfter(host, COLON, digits);
    assert target[|host| + 1..] == digits && target[..|host|] == host;
    NumberOfDecimal(port);
  }

  // ---------------------------------------------------------------- the end of the headers

  /** The loop, having seen secondLast and last before s, stops at position i of s. */
  predicate Stop(secondLast: byte, last: byte, s: seq<byte>, i: nat)
    requires i < |s|
  {
    s[i] == LF && (if i >= 2 then s[i - 2] else if i == 1 then last else secondLast) == LF
  }

  /** ... and its last position is the first such one. */
  predicate FirstStopAtEnd(secondLast: byte, last: byte, s: seq<byte>) {
    s != [] && Stop(secondLast, last, s, |s| - 1) && forall i :: 0 <= i < |s| - 1 ==> !Stop(secondLast, last, s, i)
  }

  lemma FirstStopStep(secondLast: byte, last: byte, s: seq<byte>)
    requires |s| >= 1
    ensures FirstStopAtEnd(secondLast, last, s) <==>
            if Stop(secondLast, last, s, 0) then |s| == 1 else FirstStopAtEnd(last, s[0], s[1..])
  {
    var t := s[1..];
    forall i | 0 <= i < |t|
      ensures Stop(last, s[0], t, i) <==> Stop(secondLast, last, s, i + 1)
    {
    }
    if Stop(secondLast, last, s, 0) {
    } else if FirstStopAtEnd(last, s[0], t) {
      forall i | 0 <= i < |s| - 1
        ensures !Stop(secondLast, last, s, i)
      {
        assert i > 0 ==> !Stop(last, s[0], t, i - 1);
      }
    } else if FirstStopAtEnd(secondLast, last, s) {
      forall i | 0 <= i < |t| - 1
        ensures !Stop(last, s[0], t, i)
      {
        assert !Stop(secondLast, last, s, i + 1);
      }
    }
  }

  /** If prompt bytes s are first stopped at by their last one, the scan takes exactly s. */
  lemma {:induction false} ScanTakes(w: Wire, secondLast: byte, last: byte, s: seq<byte>, es: seq<Event>,
        rest: seq<Event>, limit: Option<nat>)
    requires w.inbox == es + rest && Prompt(es, s, limit) && FirstStopAtEnd(secondLast, last, s)
    ensures var (found, w') := Scan(w, last, secondLast, limit);
            found && w'.inbox == rest && w'.outbox == w.outbox
    decreases |s|
  {
    ReadPiece(w, s, es, rest, limit, 1);
    FirstStopStep(secondLast, last, s);
    var r := Read(w, 1, limit);
    assert r.bytes[0] == s[0];
    if Stop(secondLast, last, s, 0) {
      assert es[1..] + rest == rest;
    } else {
      ScanTakes(r.wire, last, s[0], s[1..], es[1..], rest, limit);
    }
  }

  /** Conversely a scan that reports the end has taken prompt bytes up to their first stop. */
  lemma {:induction false} ScanTook(w: Wire, secondLast: byte, last: byte, limit: Option<nat>) returns (s: seq<byte>)
    requires Scan(w, last, secondLast, limit).0
    ensures |s| <= |w.inbox| && Prompt(w.inbox[..|s|], s, limit)
    ensures FirstStopAtEnd(secondLast, last, s) && Scan(w, last, secondLast, limit).1.inbox == w.inbox[|s|..]
    decreases |w.inbox|
  {
    ReadOne(w, limit);
    var r := Read(w, 1, limit);
    var c := r.bytes[0];
    var t: seq<byte> := [];
    if !(c == LF && secondLast == c) {
      t := ScanTook(r.wire, last, c, limit);
    }
    s := [c] + t;
    PromptCons(w.inbox, c, t, limit);
    assert s[1..] == t;
    FirstStopStep(secondLast, last, s);
  }

  /** A blank line ends at position i: CR LF CR LF. */
  predicate BlankLineAt(h: seq<byte>, i: nat) {
    3 <= i < |h| && h[i - 3] == CR && h[i - 2] == LF && h[i - 1] == CR && h[i] == LF
  }

  /** Lines end in CR LF, never in a bare LF, and the status code stands in the first line. */
  predicate ProperLines(h: seq<byte>) {
    && |h| > STATUS_LENGTH
    && (forall i :: 0 <= i < |h| && h[i] == LF ==> i > 0 && h[i - 1] == CR)
    && forall i :: 0 <= i < STATUS_LENGTH ==> h[i] != LF
  }

  /** A response header section: status line, fields, and the first blank line at its very end. */
  predicate HeaderSection(h: seq<byte>) {
    ProperLines(h) && BlankLineAt(h, |h| - 1) && forall i :: 0 <= i < |h| - 1 ==> !BlankLineAt(h, i)
  }

  /** On proper lines, LF at distance two is the blank line: never early and never late. */
  lemma StopIsBlankLine(h: seq<byte>, i: nat)
    requires ProperLines(h) && STATUS_LENGTH <= i < |h|
    ensures Stop(0, 0, h[STATUS_LENGTH..], i - STATUS_LENGTH) <==> BlankLineAt(h, i)
  {
    var s := h[STATUS_LENGTH..];
    if i >= STATUS_LENGTH + 2 {
      assert s[i - STATUS_LENGTH - 2] == h[i - 2];
    }
  }

  lemma HeaderSectionStops(h: seq<byte>)
    requires ProperLines(h)
    ensures HeaderSection(h) <==> FirstStopAtEnd(0, 0, h[STATUS_LENGTH..])
  {
    var s := h[STATUS_LENGTH..];
    forall i | STATUS_LENGTH <= i < |h|
      ensures Stop(0, 0, s, i - STATUS_LENGTH) <==> BlankLineAt(h, i)
    {
      StopIsBlankLine(h, i);
    }
    assert forall i :: 0 <= i < STATUS_LENGTH ==> !BlankLineAt(h, i);
    if FirstStopAtEnd(0, 0, s) {
      forall i | STATUS_LENGTH <= i < |h| - 1
        ensures !BlankLineAt(h, i)
      {
        assert !Stop(0, 0, s, i - STATUS_LENGTH);
      }
    }
    if HeaderSection(h) {
      forall j | 0 <= j < |s| - 1
        ensures !Stop(0, 0, s, j)
      {
        assert !BlankLineAt(h, j + STATUS_LENGTH);
      }
    }
  }

  /** A proxy that answers promptly with a header section: the hop succeeds exactly on a 2xx status
      (if the request gets through), and on success it has consumed the header section and not one
      byte of what follows. */
  lemma TunnelAligned(sock: nat, host: seq<byte>, port: int, w: Wire, h: seq<byte>, es: seq<Event>, rest: seq<Event>,
        limit: Option<nat>)
    requires sock != 0 && 0 < port <= 0x7fffffff && host != [] && |host| <= 0x3fffffff
    requires HeaderSection(h) && Prompt(es, h, limit) && w.inbox == es + rest
    ensures var t := Tunnel(sock, host, port, w, limit);
            && (t.ok ==> h[9] == DIGIT_2 && t.wire.inbox == rest)
            && (w.outbox == [] ==> (t.ok <==> h[9] == DIGIT_2) && t.wire.outbox == [])
            && (w.outbox == [] && !t.ok ==> t.error == Some(StatusRejected))
  {
    var request := Snprintf(|host| + 200, ConnectRequest(host, port));
    SendExact(w, request, limit);
    var s := Send(w, request, limit);
    ReadPiece(s.wire, h, es, rest, limit, STATUS_LENGTH);
    var r := Read(s.wire, STATUS_LENGTH, limit);
    assert r.bytes[9] == h[9];
    HeaderSectionStops(h);
    ScanTakes(r.wire, 0, 0, h[STATUS_LENGTH..], es[STATUS_LENGTH..], rest, limit);
  }

  lemma {:induction false} StatusConsumes(w: Wire, limit: Option<nat>) returns (status: seq<byte>, next: Wire)
    requires AwaitStatus(w, limit).ok
    ensures |status| == STATUS_LENGTH <= |w.inbox| && Prompt(w.inbox[..STATUS_LENGTH], status, limit)
    ensures status[9] == DIGIT_2 && next.inbox == w.inbox[STATUS_LENGTH..]
    ensures Scan(next, 0, 0, limit) == (true, AwaitStatus(w, limit).wire)
  {
    var r := Read(w, STATUS_LENGTH, limit);
    ReadLog(w, STATUS_LENGTH, limit);
    ReadTakes(w, STATUS_LENGTH, limit);
    status, next := r.bytes, r.wire;
  }

  /** On any input at all: what a successful hop has consumed is the status and the bytes up to the
      first LF at distance two from another. */
  lemma {:induction false} TunnelConsumes(sock: nat, host: seq<byte>, port: int, w: Wire,
        limit: Option<nat>) returns (h: seq<byte>)
    requires Tunnel(sock, host, port, w, limit).ok
    ensures STATUS_LENGTH < |h| <= |w.inbox| && Prompt(w.inbox[..|h|], h, limit)
    ensures h[9] == DIGIT_2 && FirstStopAtEnd(0, 0, h[STATUS_LENGTH..])
    ensures Tunnel(sock, host, port, w, limit).wire.inbox == w.inbox[|h|..]
    ensures ProperLines(h) ==> HeaderSection(h)
  {
    var request := Snprintf(|host| + 200, ConnectRequest(host, port));
    SendExact(w, request, limit);
    var s := Send(w, request, limit);
    var status, next := StatusConsumes(s.wire, limit);
    var t := ScanTook(next, 0, 0, limit);
    PromptConcat(w.inbox, status, t, limit);
    h := status + t;
    assert h[STATUS_LENGTH..] == t;
    if ProperLines(h) {
      HeaderSectionStops(h);
    }
  }

  /** A status line that the hop accepts, up to the status code. */
  predicate GoodStatus(status: seq<byte>) {
    |status| == STATUS_LENGTH && status[9] == DIGIT_2 && LF !in status
  }

  /** The line discipline is needed.  With two bare LFs around a single character c the hop reports
      success in the middle of the header section: all that stands behind, up to the blank line and
      beyond, is left in the stream. */
  lemma BareLineFeedsStopEarly(sock: nat, host: seq<byte>, port: int, w: Wire, status: seq<byte>, c: byte,
        es: seq<Event>, rest: seq<Event>, limit: Option<nat>)
    requires sock != 0 && 0 < port <= 0x7fffffff && host != [] && |host| <= 0x3fffffff && w.outbox == []
    requires GoodStatus(status) && c != CR && c != LF && Prompt(es, status + [LF, c, LF], limit) && w.inbox == es + rest
    ensures Tunnel(sock, host, port, w, limit).ok && Tunnel(sock, host, port, w, limit).wire.inbox == rest
    ensures forall i :: 0 <= i < |status| + 3 ==> !BlankLineAt(status + [LF, c, LF], i)
  {
    hide Tunnel, Scan;
    var h := status + [LF, c, LF];
    var r := StatusRead(sock, host, port, w, h, es, rest, limit);
    assert h[STATUS_LENGTH..] == [LF, c, LF];
    ScanTakes(r, 0, 0, [LF, c, LF], es[STATUS_LENGTH..], rest, limit);
    NoBlankLine(status, c);
  }

  lemma NoBlankLine(status: seq<byte>, c: byte)
    requires LF !in status && c != CR && c != LF
    ensures forall i :: 0 <= i < |status| + 3 ==> !BlankLineAt(status + [LF, c, LF], i)
  {
    forall i | 3 <= i < |status| + 3
      ensures !BlankLineAt(status + [LF, c, LF], i)
    {
      assert i - 2 < |status| ==> (status + [LF, c, LF])[i - 2] == status[i - 2];
    }
  }

  /** A blank line made of bare LFs is not seen: behind a complete header section with such line ends
      the hop goes on looking, and fails when the proxy says no more. */
  lemma BareBlankLineMissed(sock: nat, host: seq<byte>, port: int, w: Wire, status: seq<byte>, es: seq<Event>,
        limit: Option<nat>)
    requires sock != 0 && 0 < port <= 0x7fffffff && host != [] && |host| <= 0x3fffffff && w.outbox == []
    requires GoodStatus(status) && Prompt(es, status + [LF, LF], limit) && w.inbox == es
    ensures var t := Tunnel(sock, host, port, w, limit); !t.ok && t.error == Some(HeadersIncomplete)
  {
    var h := status + [LF, LF];
    assert es == es + [];
    var r := StatusRead(sock, host, port, w, h, es, [], limit);
    var tail := es[STATUS_LENGTH..];
    assert h[STATUS_LENGTH..] == [LF, LF];
    ReadPiece(r, [LF, LF], tail, [], limit, 1);
    var r1 := Read(r, 1, limit).wire;
    ReadPiece(r1, [LF], tail[1..], [], limit, 1);
    var r2 := Read(r1, 1, limit).wire;
    assert Scan(r2, LF, LF, limit).0 == false;
    assert Scan(r1, LF, 0, limit) == Scan(r2, LF, LF, limit);
  }

  /** The hop's progress up to the header fields. */
  lemma StatusRead(sock: nat, host: seq<byte>, port: int, w: Wire, h: seq<byte>, es: seq<Event>, rest: seq<Event>,
        limit: Option<nat>) returns (next: Wire)
    requires sock != 0 && 0 < port <= 0x7fffffff && host != [] && |host| <= 0x3fffffff && w.outbox == []
    requires |h| >= STATUS_LENGTH && h[9] == DIGIT_2 && Prompt(es, h, limit) && w.inbox == es + rest
    ensures next.inbox == es[STATUS_LENGTH..] + rest
    ensures Prompt(es[STATUS_LENGTH..], h[STATUS_LENGTH..], limit)
    ensures var (found, w') := Scan(next, 0, 0, limit);
            Tunnel(sock, host, port, w, limit) == HopResult(found, if found then None else Some(HeadersIncomplete), w')
  {
    var request := Snprintf(|host| + 200, ConnectRequest(host, port));
    SendExact(w, request, limit);
    var s := Send(w, request, limit);
    ReadPiece(s.wire, h, es, rest, limit, STATUS_LENGTH);
    var r := Read(s.wire, STATUS_LENGTH, limit);
    assert r.bytes[9] == h[9];
    next := r.wire;
  }

  // ---------------------------------------------------------------- what the proxy hears

  /** The scan sends nothing and records what it takes. */
  lemma {:induction false} ScanLog(w: Wire, last: byte, secondLast: byte, limit: Option<nat>) returns (got: seq<byte>)
    ensures Scan(w, last, secondLast, limit).1.log == w.log + GotAll(got)
    ensures Scan(w, last, secondLast, limit).1.outbox == w.outbox
    decreases |w.inbox|
  {
    hide Read;
    ReadOne(w, limit);
    ReadLog(w, 1, limit);
    var r := Read(w, 1, limit);
    got := r.bytes;
    if r.Rc() > 0 && !(r.bytes[0] == LF && secondLast == r.bytes[0]) {
      var more := ScanLog(r.wire, r.bytes[0], last, limit);
      GotTwice(w.log, r.bytes, more);
      got := r.bytes + more;
    }
  }

  lemma AwaitStatusLog(w: Wire, limit: Option<nat>) returns (got: seq<byte>)
    ensures AwaitStatus(w, limit).wire.log == w.log + GotAll(got) && AwaitStatus(w, limit).wire.outbox == w.outbox
    ensures AwaitStatus(w, limit).ok ==> got != []
  {
    hide Read, Scan;
    ReadLog(w, STATUS_LENGTH, limit);
    var r := Read(w, STATUS_LENGTH, limit);
    got := r.bytes;
    if r.Rc() > 0 && r.bytes[9] == DIGIT_2 {
      var more := ScanLog(r.wire, 0, 0, limit);
      GotTwice(w.log, r.bytes, more);
      got := r.bytes + more;
    }
  }

  /** What the hop adds to the log: part of the request, all of it if nothing obstructs the sending, and
      then what it hears. */
  lemma TunnelLog(sock: nat, host: seq<byte>, port: int, w: Wire, limit: Option<nat>)
    returns (part: seq<byte>, got: seq<byte>)
    requires sock != 0 && 0 < port <= 0x7fffffff && host != [] && |host| <= 0x3fffffff
    ensures var t := Tunnel(sock, host, port, w, limit);
            && t.wire.log == w.log + SentAll(part) + GotAll(got)
            && (t.ok ==> got != []) && (w.outbox == [] ==> t.wire.outbox == [])
    ensures part <= ConnectRequest(host, port) && (w.outbox == [] ==> part == ConnectRequest(host, port))
  {
    hide Send, AwaitStatus, Scan, ConnectRequest;
    PrintedInFull(host, port);
    var request := Snprintf(|host| + 200, ConnectRequest(host, port));
    SendExact(w, request, limit);
    var s := Send(w, request, limit);
    part := request[..s.sent];
    got := [];
    GotNone(s.wire.log);
    if s.rc > 0 {
      got := AwaitStatusLog(s.wire, limit);
    }
  }

  /** Whatever the proxy answers and however the hop ends: what it sends is the beginning of a request,
      and if nothing obstructs the sending the whole of one, from which a proxy reads exactly the host
      and the port that the hop was called with. */
  lemma TunnelAsks(sock: nat, host: seq<byte>, port: int, w: Wire, limit: Option<nat>)
    returns (log: seq<Action>, message: seq<byte>)
    requires sock != 0 && 0 < port <= 0x7fffffff && host != [] && |host| <= 0x3fffffff && SPACE !in host
    ensures Tunnel(sock, host, port, w, limit).wire.log == w.log + log
    ensures ParseConnect(message) == Some((host, port)) && Sents(log) <= message
    ensures w.outbox == [] ==> Sents(log) == message && Tunnel(sock, host, port, w, limit).wire.outbox == []
  {
    hide Tunnel, ConnectRequest, ParseConnect;
    var part, got := TunnelLog(sock, host, port, w, limit);
    message := ConnectRequest(host, port);
    ConnectRoundTrip(host, port);
    log := SentAll(part) + GotAll(got);
    SaidAndHeard(part, got);
    assert w.log + SentAll(part) + GotAll(got) == w.log + log;
  }

  /** A hop that lacks a port, a host or a connection says which, and sends nothing. */
  lemma TunnelRefuses(sock: nat, host: seq<byte>, port: int, w: Wire, limit: Option<nat>)
    requires port <= 0 || host == [] || sock == 0
    ensures var t := Tunnel(sock, host, port, w, limit);
            && !t.ok && t.wire == w
            && (t.error == Some(PortNotSet) <==> port <= 0)
            && (t.error == Some(ServerNotSet) <==> port > 0 && host == [])
            && (t.error == Some(NotConnected) <==> port > 0 && host != [] && sock == 0)
  {
  }

  /** The outcome of the hop, by the bytes heard in it: each error has one place in the conversation. */
  predicate Diagnosis(ok: bool, error: Option<Error>, heard: seq<byte>) {
    if ok then error == None && |heard| > STATUS_LENGTH && heard[9] == DIGIT_2
    else
      error.Some? && match error.value
                     case RequestNotSent => heard == []
                     case StatusRejected => |heard| == STATUS_LENGTH && heard[9] != DIGIT_2
                     case HeadersIncomplete => |heard| >= STATUS_LENGTH && heard[9] == DIGIT_2
                     case e => TransferError(e) && |heard| < STATUS_LENGTH
  }

  lemma StatusDiagnosed(w: Wire, limit: Option<nat>) returns (got: seq<byte>)
    ensures var t := AwaitStatus(w, limit);
            t.wire.log == w.log + GotAll(got) && Diagnosis(t.ok, t.error, got)
  {
    hide Read, Scan;
    ReadLog(w, STATUS_LENGTH, limit);
    ReadReasons(w, STATUS_LENGTH, limit);
    var r := Read(w, STATUS_LENGTH, limit);
    got := r.bytes;
    if r.Rc() > 0 && r.bytes[9] == DIGIT_2 {
      var more := ScanLog(r.wire, 0, 0, limit);
      ScanFound(r.wire, limit);
      GotLength(r.wire.log, more);
      GotTwice(w.log, r.bytes, more);
      got := r.bytes + more;
    }
  }

  lemma GotLength(log: seq<Action>, got: seq<byte>)
    ensures |log + GotAll(got)| == |log| + |got|
  {
  }

  lemma ScanFound(w: Wire, limit: Option<nat>)
    ensures Scan(w, 0, 0, limit).0 ==> |Scan(w, 0, 0, limit).1.log| > |w.log|
  {
    hide Read;
    ReadOne(w, limit);
    var r := Read(w, 1, limit);
    if r.Rc() > 0 {
      var more := ScanLog(r.wire, r.bytes[0], 0, limit);
      GotLength(r.wire.log, more);
    }
  }

  lemma NotAsked()
    ensures Diagnosis(false, Some(RequestNotSent), [])
  {
  }

  /** However the hop ends and whatever obstructs it, its outcome and its error say how far it has come
      and why it went no further. */
  lemma TunnelDiagnosed(sock: nat, host: seq<byte>, port: int, w: Wire, limit: Option<nat>) returns (log: seq<Action>)
    requires sock != 0 && port > 0 && host != []
    ensures var t := Tunnel(sock, host, port, w, limit);
            t.wire.log == w.log + log && Diagnosis(t.ok, t.error, Gots(log))
  {
    hide Send, AwaitStatus, ConnectRequest, Gots, Sents, SentAll, GotAll, Snprintf, Diagnosis;
    NotAsked();
    var request := Snprintf(|host| + 200, ConnectRequest(host, port));
    SendExact(w, request, limit);
    var s := Send(w, request, limit);
    var got: seq<byte> := [];
    GotNone(s.wire.log);
    if s.rc > 0 {
      got := StatusDiagnosed(s.wire, limit);
    }
    log := SentAll(request[..s.sent]) + GotAll(got);
    SaidAndHeard(request[..s.sent], got);
    assert w.log + SentAll(request[..s.sent]) + GotAll(got) == w.log + log;
  }

  /** Where the version would begin in the part of a request, if the part has come so far. */
  lemma PartOfTarget(target: seq<byte>, k: nat)
    requires SPACE !in target && k < |target| + |VERSION|
    ensures var rest := (target + VERSION)[..k]; |rest[First(rest, SPACE)..]| < |VERSION|
  {
    var rest := (target + VERSION)[..k];
    if k > |target| {
      var tail := VERSION[..k - |target|];
      assert rest == target + tail;
      FirstIs(target, SPACE, tail);
    }
  }

  /** A proxy takes no part of a request for the whole. */
  lemma PartOfRequest(host: seq<byte>, port: nat, k: nat)
    requires SPACE !in host && k < |ConnectRequest(host, port)|
    ensures ParseConnect(ConnectRequest(host, port)[..k]) == None
  {
    hide First, Last, Decimal, Number, Digits;
    var m := ConnectRequest(host, port);
    var target := host + [COLON] + Decimal(port);
    assert m == VERB + (target + VERSION);
    if k >= |VERB| {
      assert m[..k][|VERB|..] == (target + VERSION)[..k - |VERB|];
      PartOfTarget(target, k - |VERB|);
    }
  }

  /** What a proxy has said after some input: its header section h, but not before it has read a whole
      request. */
  function Answers(h: seq<byte>, input: seq<byte>): seq<byte> {
    if ParseConnect(input).Some? then h else []
  }

  /** The client has at no moment received more than the proxy had said. */
  ghost predicate AnswersInTurn(h: seq<byte>, log: seq<Action>) {
    forall i :: 0 <= i <= |log| ==> Gots(log[..i]) <= Answers(h, Sents(log[..i]))
  }

  /** If the client reports success then the proxy, which answers only requests that it has read, has
      read exactly the client's host and port: under any fragmentation, and wherever the sending was
      cut short. */
  lemma {:induction false} TunnelAgreement(h: seq<byte>, sock: nat, host: seq<byte>, port: int, w: Wire,
        limit: Option<nat>, log: seq<Action>)
    requires 0 < port <= 0x7fffffff && |host| <= 0x3fffffff && SPACE !in host
    requires Tunnel(sock, host, port, w, limit).ok
    requires Tunnel(sock, host, port, w, limit).wire.log == w.log + log && AnswersInTurn(h, log)
    ensures ParseConnect(Sents(log)) == Some((host, port))
  {
    assert sock != 0 && host != [];
    hide Tunnel, ConnectRequest, ParseConnect, Answers;
    var part, got := TunnelLog(sock, host, port, w, limit);
    CancelEqual(w.log, log, SentAll(part), GotAll(got));
    SaidAndHeard(part, got);
    assert log == log[..|log|];
    AnsweredWhole(h, host, port, part, got);
    ConnectRoundTrip(host, port);
  }

  /** A proxy that has answered a request of which part has arrived has seen all of it. */
  lemma AnsweredWhole(h: seq<byte>, host: seq<byte>, port: nat, part: seq<byte>, got: seq<byte>)
    requires SPACE !in host && port <= 0x7fffffff
    requires part <= ConnectRequest(host, port) && got != [] && got <= Answers(h, part)
    ensures part == ConnectRequest(host, port)
  {
    hide ConnectRequest, ParseConnect;
    var k := |part|;
    assert part == ConnectRequest(host, port)[..k];
    if k < |ConnectRequest(host, port)| {
      PartOfRequest(host, port, k);
    }
  }

  // ---------------------------------------------------------------- how long it takes

  lemma {:induction false} ScanSpends(w: Wire, last: byte, secondLast: byte, limit: Option<nat>)
    ensures Spends(w, Scan(w, last, secondLast, limit).1, limit, 1)
    decreases |w.inbox|
  {
    hide Read;
    ReadOne(w, limit);
    ReadSpends(w, 1, limit);
    ReadLog(w, 1, limit);
    var r := Read(w, 1, limit);
    if r.Rc() > 0 && !(r.bytes[0] == LF && secondLast == r.bytes[0]) {
      ScanSpends(r.wire, r.bytes[0], last, limit);
      ByteSpends(w, r.wire, limit);
      SpendsThen(w, r.wire, Scan(w, last, secondLast, limit).1, limit, 0, 1);
    }
  }

  /** The hop waits at most one timeout for each byte in or out, and for three bytes that do not come
      or go: for the last byte of the request, of the status, or of the headers. */
  lemma TunnelSpends(sock: nat, host: seq<byte>, port: int, w: Wire, limit: Option<nat>)
    ensures Spends(w, Tunnel(sock, host, port, w, limit).wire, limit, 3)
  {
    hide Send, Read, Scan, ConnectRequest, Spends;
    if port > 0 && host != [] && sock != 0 {
      var request := Snprintf(|host| + 200, ConnectRequest(host, port));
      SendSpends(w, request, limit);
      var s := Send(w, request, limit);
      ReadSpends(s.wire, STATUS_LENGTH, limit);
      ReadLog(s.wire, STATUS_LENGTH, limit);
      var r := Read(s.wire, STATUS_LENGTH, limit);
      SpendsThen(w, s.wire, r.wire, limit, 1, 1);
      ScanSpends(r.wire, 0, 0, limit);
      SpendsThen(w, r.wire, Scan(r.wire, 0, 0, limit).1, limit, 2, 1);
      SpendsMore(w, s.wire, limit, 1, 3);
      SpendsMore(w, r.wire, limit, 2, 3);
    } else {
      NothingSpent(w, limit);
      SpendsMore(w, w, limit, 0, 3);
    }
  }
}
