/** The kernel's end of one connected descriptor, as the plain communication layer sees it.

    A peer is a script: what will arrive and after how long, and how many bytes each send() will
    take.  The theorems quantify over every script, so the script is the adversary.  Time is in
    microseconds. */
module Wire {
  type byte = b: int | 0 <= b < 256

  const CR: byte := 13
  const LF: byte := 10

  datatype Option<+T> = None | Some(value: T)

  /** The reasons the library reports through getError(), one constructor per message. */
  datatype Error =
    | SelectFailed | TimedOut | PeerTerminated | TransferFailed
    | NotBound | AlreadyBound | NotValidDescriptor | AlreadyFinished
    | NoComm | NothingToSecure | AlreadySecure
    | PortNotSet | ServerNotSet | NotConnected
    | VersionNotSent | BadVersion | MethodsRejected | CredentialsNotSent | CredentialsUnanswered | CredentialsRejected
    | InstructionsNotSent | ReplyUnread | Refused(code: byte) | UnknownReply
    | RequestNotSent | ReplyTooShort | StatusRejected | HeadersIncomplete
    | HandshakeFailed | ContextNotCreated | CertificatesNotLoaded | SessionNotCreated | NotEstablished
    | SocketNotCreated | NotResolved | ConnectTimedOut | Errno(errno: nat)

  /** What happens next on the receiving side.  An end of stream is permanent. */
  datatype Event =
    | Byte(after: nat, value: byte)
    | Eof(after: nat)
    | SelectFails(after: nat)
    | RecvFails(after: nat)

  /** How the kernel answers the next send(). */
  datatype Grant =
    | Accept(after: nat, room: nat)
    | Stuck(after: nat)
    | SendFails(after: nat)

  datatype Action = Sent(value: byte) | Got(value: byte)

  datatype Wire = Wire(inbox: seq<Event>, outbox: seq<Grant>, log: seq<Action>, waited: nat)

  /** setTimeout(0, 0) selects blocking operation. */
  function Limit(secs: nat, micros: nat): Option<nat> {
    if secs > 0 || micros > 0 then Some(secs * 1000000 + micros) else None
  }

  // ---------------------------------------------------------------- receiving

  datatype Readiness = Ready | Expired | Broken

  function Head(w: Wire): Event {
    if w.inbox == [] then Eof(0) else w.inbox[0]
  }

  /** select() for reading, waiting at most limit. */
  function AwaitReadable(w: Wire, limit: nat): (Readiness, Wire) {
    var e := Head(w);
    if e.after > limit then
      (Expired, w.(inbox := [e.(after := e.after - limit)] + w.inbox[1..], waited := w.waited + limit))
    else if e.SelectFails? then
      (Broken, w.(inbox := w.inbox[1..], waited := w.waited + e.after))
    else if w.inbox == [] then
      (Ready, w)
    else
      (Ready, w.(inbox := [e.(after := 0)] + w.inbox[1..], waited := w.waited + e.after))
  }

  datatype Received = Received(rc: int, value: byte, wire: Wire)

  /** recv() of one byte, blocking until something happens. */
  function Recv(w: Wire): Received {
    var e := Head(w);
    match e
    case Byte(after, v) =>
      Received(1, v, w.(inbox := w.inbox[1..], log := w.log + [Got(v)], waited := w.waited + after))
    case Eof(after) =>
      Received(0, 0, w.(inbox := if w.inbox == [] then [] else [Eof(0)] + w.inbox[1..], waited := w.waited + after))
    case _ =>
      Received(-1, 0, w.(inbox := w.inbox[1..], waited := w.waited + e.after))
  }

  datatype Fetched = Value(value: byte, wire: Wire) | Ended(wire: Wire) | Failed(error: Error, wire: Wire)

  /** One iteration of the reading loop: select() when a timeout is set, then recv(). */
  function Fetch(w: Wire, limit: Option<nat>): Fetched {
    var (ready, w') := if limit.Some? then AwaitReadable(w, limit.value) else (Ready, w);
    if ready.Broken? then Failed(SelectFailed, w')
    else if ready.Expired? then Failed(TimedOut, w')
    else
      var r := Recv(w');
      if r.rc > 0 then Value(r.value, r.wire)
      else if r.rc == 0 then Ended(r.wire)
      else Failed(TransferFailed, r.wire)
  }

  /** The event e delivers b within the time limit. */
  predicate Delivers(e: Event, b: byte, limit: Option<nat>) {
    e.Byte? && e.value == b && (limit.Some? ==> e.after <= limit.value)
  }

  predicate Prompt(es: seq<Event>, data: seq<byte>, limit: Option<nat>) {
    |es| == |data| && forall i :: 0 <= i < |es| ==> Delivers(es[i], data[i], limit)
  }

  /** Fetch hands over a byte exactly when the next event is a byte that comes in time, and then
      it takes that event and nothing else. */
  lemma FetchDelivers(w: Wire, limit: Option<nat>)
    ensures Fetch(w, limit).Value? ==> w.inbox != [] && Delivers(w.inbox[0], Fetch(w, limit).value, limit)
    ensures forall b :: w.inbox != [] && Delivers(w.inbox[0], b, limit) ==>
              Fetch(w, limit)
                == Value(b, w.(inbox := w.inbox[1..], log := w.log + [Got(b)], waited := w.waited + w.inbox[0].after))
  {
    if w.inbox != [] {
      var e := w.inbox[0];
      assert ([e.(after := 0)] + w.inbox[1..])[1..] == w.inbox[1..];
    }
  }

  /** Whatever happens, one fetch waits at most the limit, sends nothing and never grows the inbox. */
  lemma FetchBounds(w: Wire, limit: Option<nat>)
    ensures var w' := Fetch(w, limit).wire;
            && w'.outbox == w.outbox
            && |w'.inbox| <= |w.inbox|
            && w.waited <= w'.waited
            && (limit.Some? ==> w'.waited <= w.waited + limit.value)
            && w'.log == w.log + (if Fetch(w, limit).Value? then [Got(Fetch(w, limit).value)] else [])
  {
  }

  datatype Stop = Complete | PeerClosed | Failure(error: Error)

  datatype Reading = Reading(bytes: seq<byte>, stop: Stop, wire: Wire) {
    /** The return code of read(): the whole count, 0 at end of stream, -1 otherwise. */
    function Rc(): int {
      match stop
      case Complete => |bytes|
      case PeerClosed => 0
      case Failure(_) => -1
    }

    /** The error reported with anything but a complete read. */
    function Why(): Error {
      if stop.Failure? then stop.error else PeerTerminated
    }

    function Prepend(more: seq<byte>): Reading {
      Reading(more + bytes, stop, wire)
    }
  }

  function Read(w: Wire, n: int, limit: Option<nat>): Reading
    decreases n
  {
    if n <= 0 then Reading([], Complete, w)
    else
      match Fetch(w, limit)
      case Value(b, w') => Read(w', n - 1, limit).Prepend([b])
      case Ended(w') => Reading([], PeerClosed, w')
      case Failed(e, w') => Reading([], Failure(e), w')
  }

  /** One iteration of the loop, in front of what is left of the read. */
  lemma ReadStep(w: Wire, n: nat, limit: Option<nat>, done: seq<byte>)
    requires n > 0
    ensures match Fetch(w, limit)
            case Value(b, w') => Read(w, n, limit).Prepend(done) == Read(w', n - 1, limit).Prepend(done + [b])
            case Ended(w') => Read(w, n, limit).Prepend(done) == Reading(done, PeerClosed, w')
            case Failed(e, w') => Read(w, n, limit).Prepend(done) == Reading(done, Failure(e), w')
  {
    match Fetch(w, limit)
    case Value(b, w') => PrependTwice(Read(w', n - 1, limit), done, [b]);
    case Ended(_) => assert done + [] == done;
    case Failed(_, _) => assert done + [] == done;
  }

  lemma PrependTwice(r: Reading, a: seq<byte>, b: seq<byte>)
    ensures r.Prepend(b).Prepend(a) == r.Prepend(a + b)
  {
    assert a + (b + r.bytes) == a + b + r.bytes;
  }

  /** The position of the first b in s, or |s|. */
  function First(s: seq<byte>, b: byte): (i: nat)
    ensures i <= |s| && (i < |s| ==> s[i] == b) && forall j :: 0 <= j < i ==> s[j] != b
  {
    if s == [] || s[0] == b then 0
    else
      assert forall j :: 1 <= j < |s| ==> s[j] == s[1..][j - 1];
      1 + First(s[1..], b)
  }

  function GotAll(bytes: seq<byte>): seq<Action> {
    seq(|bytes|, i requires 0 <= i < |bytes| => Got(bytes[i]))
  }

  function SentAll(bytes: seq<byte>): seq<Action> {
    seq(|bytes|, i requires 0 <= i < |bytes| => Sent(bytes[i]))
  }

  lemma {:induction false} ReadLog(w: Wire, n: int, limit: Option<nat>)
    ensures var r := Read(w, n, limit);
            && r.wire.log == w.log + GotAll(r.bytes)
            && r.wire.outbox == w.outbox
            && (r.stop.Complete? <==> |r.bytes| == if n <= 0 then 0 else n)
            && |r.bytes| <= if n <= 0 then 0 else n
    decreases n
  {
    hide Fetch, GotAll;
    if n > 0 {
      FetchBounds(w, limit);
      var f := Fetch(w, limit);
      if f.Value? {
        ReadLog(f.wire, n - 1, limit);
        var r := Read(f.wire, n - 1, limit);
        GotStep(w.log, f.value, r.bytes);
      }
    }
    GotNone(w.log);
  }

  lemma GotStep(log: seq<Action>, b: byte, more: seq<byte>)
    ensures log + GotAll([b] + more) == log + [Got(b)] + GotAll(more)
  {
    assert GotAll([b] + more) == [Got(b)] + GotAll(more);
  }

  lemma GotNone(log: seq<Action>)
    ensures log + GotAll([]) == log
  {
  }

  /** A timed read of n bytes waits at most n times the timeout. */
  lemma {:induction false} ReadWait(w: Wire, n: nat, limit: Option<nat>)
    ensures var r := Read(w, n, limit);
            && w.waited <= r.wire.waited
            && |r.wire.inbox| <= |w.inbox|
            && (limit.Some? ==> r.wire.waited <= w.waited + n * limit.value)
    decreases n
  {
    if n > 0 {
      FetchBounds(w, limit);
      var f := Fetch(w, limit);
      if f.Value? {
        ReadWait(f.wire, n - 1, limit);
      }
      if limit.Some? {
        assert n * limit.value == limit.value + (n - 1) * limit.value;
        assert 0 <= (n - 1) * limit.value;
      }
    }
  }

  /** Prompt bytes at the head of the inbox are delivered exactly, and the read takes those and
      nothing behind them. */
  lemma {:induction false} ReadPrompt(w: Wire, es: seq<Event>, rest: seq<Event>, data: seq<byte>, limit: Option<nat>)
    requires w.inbox == es + rest && Prompt(es, data, limit)
    ensures var r := Read(w, |data|, limit);
            && r.bytes == data && r.stop == Complete && r.wire.inbox == rest
            && r.wire.outbox == w.outbox && r.wire.log == w.log + GotAll(data)
    decreases |data|
  {
    ReadLog(w, |data|, limit);
    if data == [] {
    } else {
      assert w.inbox[0] == es[0];
      FetchDelivers(w, limit);
      var f := Fetch(w, limit);
      assert f.wire.inbox == es[1..] + rest;
      ReadPrompt(f.wire, es[1..], rest, data[1..], limit);
    }
  }

  lemma PromptCons(inbox: seq<Event>, c: byte, t: seq<byte>, limit: Option<nat>)
    requires |t| + 1 <= |inbox| && Delivers(inbox[0], c, limit) && Prompt(inbox[1..][..|t|], t, limit)
    ensures Prompt(inbox[..|t| + 1], [c] + t, limit) && inbox[1..][|t|..] == inbox[|t| + 1..]
  {
    assert inbox[..|t| + 1] == [inbox[0]] + inbox[1..][..|t|];
  }

  lemma PromptConcat(inbox: seq<Event>, a: seq<byte>, b: seq<byte>, limit: Option<nat>)
    requires |a| <= |inbox| && |b| <= |inbox[|a|..]|
    requires Prompt(inbox[..|a|], a, limit) && Prompt(inbox[|a|..][..|b|], b, limit)
    ensures Prompt(inbox[..|a + b|], a + b, limit) && inbox[|a|..][|b|..] == inbox[|a + b|..]
  {
    assert inbox[..|a + b|] == inbox[..|a|] + inbox[|a|..][..|b|];
  }

  /** Conversely a complete read has taken exactly n prompt bytes. */
  lemma {:induction false} ReadTakes(w: Wire, n: nat, limit: Option<nat>)
    requires Read(w, n, limit).stop.Complete?
    ensures var r := Read(w, n, limit);
            && |r.bytes| == n <= |w.inbox| && Prompt(w.inbox[..n], r.bytes, limit) && r.wire.inbox == w.inbox[n..]
    decreases n
  {
    if n > 0 {
      FetchDelivers(w, limit);
      var f := Fetch(w, limit);
      ReadTakes(f.wire, n - 1, limit);
      PromptCons(w.inbox, f.value, Read(f.wire, n - 1, limit).bytes, limit);
    }
  }

  /** read() returns a positive count exactly when that many bytes stand at the head of the stream
      in time, and then the buffer holds precisely those. */
  lemma ReadExact(w: Wire, n: nat, limit: Option<nat>)
    requires n > 0
    ensures var r := Read(w, n, limit);
            && (r.Rc() > 0 <==> r.Rc() == n)
            && (r.Rc() == n <==> n <= |w.inbox| && exists data :: Prompt(w.inbox[..n], data, limit))
            && (r.Rc() == n ==> Prompt(w.inbox[..n], r.bytes, limit) && r.wire.inbox == w.inbox[n..])
  {
    ReadLog(w, n, limit);
    var r := Read(w, n, limit);
    if r.Rc() == n {
      ReadTakes(w, n, limit);
    }
    if n <= |w.inbox| {
      forall data | Prompt(w.inbox[..n], data, limit)
        ensures r.Rc() == n
      {
        assert w.inbox == w.inbox[..n] + w.inbox[n..];
        ReadPrompt(w, w.inbox[..n], w.inbox[n..], data, limit);
      }
    }
  }

  /** Reading a prompt piece off the front of a longer prompt script. */
  lemma ReadPiece(w: Wire, data: seq<byte>, es: seq<Event>, rest: seq<Event>, limit: Option<nat>, n: nat)
    requires n <= |data| && Prompt(es, data, limit) && w.inbox == es + rest
    ensures var r := Read(w, n, limit);
            && r.stop.Complete? && r.Rc() == n && r.bytes == data[..n]
            && r.wire.inbox == es[n..] + rest && Prompt(es[n..], data[n..], limit)
            && r.wire.outbox == w.outbox
  {
    assert w.inbox == es[..n] + (es[n..] + rest);
    assert Prompt(es[..n], data[..n], limit);
    ReadPrompt(w, es[..n], es[n..] + rest, data[..n], limit);
  }

  /** A single-byte read: what it takes, what it records and how long it waits. */
  lemma ReadOne(w: Wire, limit: Option<nat>)
    ensures var r := Read(w, 1, limit);
            && (r.Rc() > 0 ==> r.Rc() == |r.bytes| == 1 && w.inbox != []
                               && r.wire.inbox == w.inbox[1..] && |r.wire.log| == |w.log| + 1)
            && (r.Rc() > 0 ==> Delivers(w.inbox[0], r.bytes[0], limit))
            && (r.Rc() <= 0 ==> r.wire.log == w.log && |r.wire.inbox| <= |w.inbox|)
            && r.wire.outbox == w.outbox
            && w.waited <= r.wire.waited && (limit.Some? ==> r.wire.waited <= w.waited + limit.value)
  {
    ReadExact(w, 1, limit);
    ReadLog(w, 1, limit);
    ReadWait(w, 1, limit);
    var r := Read(w, 1, limit);
    if r.Rc() > 0 {
      assert w.inbox[..1][0] == w.inbox[0];
    } else {
      assert r.wire.log == w.log + [];
    }
  }

  // ---------------------------------------------------------------- sending

  function HeadGrant(w: Wire): Grant {
    if w.outbox == [] then Accept(0, 0x7fffffff) else w.outbox[0]
  }

  function Tail(w: Wire): seq<Grant> {
    if w.outbox == [] then [] else w.outbox[1..]
  }

  /** select() for writing, waiting at most limit. */
  function AwaitWritable(w: Wire, limit: nat): (Readiness, Wire) {
    var g := HeadGrant(w);
    if g.after > limit then
      (Expired, w.(outbox := [g.(after := g.after - limit)] + Tail(w), waited := w.waited + limit))
    else if g.Stuck? then
      (Broken, w.(outbox := Tail(w), waited := w.waited + g.after))
    else if w.outbox == [] then
      (Ready, w)
    else
      (Ready, w.(outbox := [g.(after := 0)] + Tail(w), waited := w.waited + g.after))
  }

  /** send(): accepts as many bytes as there is room for, possibly fewer than asked. */
  function Push(w: Wire, data: seq<byte>): (int, Wire) {
    var g := HeadGrant(w);
    var w' := w.(outbox := Tail(w), waited := w.waited + g.after);
    if g.Accept? then
      var k := if g.room <= |data| then g.room else |data|;
      (k, w'.(log := w.log + SentAll(data[..k])))
    else
      (-1, w')
  }

  /** rc is what send() returns; sent is how many bytes have really gone out. */
  datatype Sending = Sending(rc: int, sent: nat, error: Option<Error>, wire: Wire) {
    /** The same sending, with x bytes gone out before it. */
    function After(x: nat): Sending {
      Sending(if rc < 0 then -1 else rc + x, sent + x, error, wire)
    }
  }

  datatype Pushed = Pushed(rc: int, error: Option<Error>, wire: Wire)

  /** One iteration of the timed sending loop: select(), then send() of a single byte. */
  function PushByte(w: Wire, b: byte, limit: nat): Pushed {
    var (ready, w1) := AwaitWritable(w, limit);
    if ready.Broken? then Pushed(-1, Some(SelectFailed), w1)
    else if ready.Expired? then Pushed(0, Some(TimedOut), w1)
    else
      var (rc, w2) := Push(w1, [b]);
      if rc == 0 then Pushed(-1, Some(PeerTerminated), w2)
      else if rc < 0 then Pushed(-1, Some(TransferFailed), w2)
      else Pushed(1, None, w2)
  }

  /** The timed path; a timeout reports how much went out before it. */
  function SendTimed(w: Wire, data: seq<byte>, limit: nat): Sending
    decreases |data|
  {
    if data == [] then Sending(0, 0, None, w)
    else
      var p := PushByte(w, data[0], limit);
      if p.rc <= 0 then Sending(p.rc, 0, p.error, p.wire)
      else
        SendTimed(p.wire, data[1..], limit).After(1)
  }

  /** One iteration of the loop, x bytes into it. */
  lemma SendStep(w: Wire, data: seq<byte>, limit: nat, x: nat)
    requires data != []
    ensures var p := PushByte(w, data[0], limit);
            SendTimed(w, data, limit).After(x)
            == if p.rc <= 0 then Sending(if p.rc < 0 then -1 else x, x, p.error, p.wire)
               else SendTimed(p.wire, data[1..], limit).After(x + 1)
  {
    var p := PushByte(w, data[0], limit);
    PushByteExact(w, data[0], limit);
  }

  function Send(w: Wire, data: seq<byte>, limit: Option<nat>): Sending {
    if limit.Some? then SendTimed(w, data, limit.value)
    else
      var (rc, w') := Push(w, data);
      if rc == 0 then Sending(0, 0, Some(PeerTerminated), w')
      else if rc < 0 then Sending(-1, 0, Some(TransferFailed), w')
      else Sending(rc, rc, None, w')
  }

  lemma PushExact(w: Wire, data: seq<byte>)
    ensures var (rc, w') := Push(w, data);
            && -1 <= rc <= |data|
            && w'.log == w.log + SentAll(data[..if rc > 0 then rc else 0])
            && w'.inbox == w.inbox
            && (w.outbox == [] && |data| <= 0x7fffffff ==> rc == |data| && w'.outbox == [])
  {
    var (rc, w') := Push(w, data);
    if rc < 0 {
      assert SentAll(data[..0]) == [];
    }
  }

  lemma PushByteExact(w: Wire, b: byte, limit: nat)
    ensures var p := PushByte(w, b, limit);
            && -1 <= p.rc <= 1
            && p.wire.log == w.log + (if p.rc == 1 then [Sent(b)] else [])
            && p.wire.inbox == w.inbox
            && w.waited <= p.wire.waited <= w.waited + limit
            && (w.outbox == [] ==> p.rc == 1 && p.wire.outbox == [])
  {
    assert SentAll([b][..1]) == [Sent(b)] && SentAll([b][..0]) == [];
  }

  /** The log entries of a byte and what follows it. */
  lemma SentStep(log: seq<Action>, data: seq<byte>, k: nat)
    requires data != [] && k <= |data| - 1
    ensures log + SentAll(data[..k + 1]) == log + [Sent(data[0])] + SentAll(data[1..][..k])
  {
    assert data[..k + 1] == [data[0]] + data[1..][..k];
    assert SentAll(data[..k + 1]) == [Sent(data[0])] + SentAll(data[1..][..k]);
  }

  /** A non-negative result n means exactly data[..n] went out; an error may still have let a
      prefix through, and nothing but a prefix. */
  lemma {:induction false} SendTimedExact(w: Wire, data: seq<byte>, limit: nat)
    ensures var s := SendTimed(w, data, limit);
            && s.sent <= |data|
            && (s.rc >= 0 ==> s.rc == s.sent)
            && (s.rc < 0 ==> s.rc == -1)
            && s.wire.log == w.log + SentAll(data[..s.sent])
            && s.wire.inbox == w.inbox
            && (w.outbox == [] ==> s.rc == |data| && s.wire.outbox == [])
    decreases |data|
  {
    hide PushByte, SentAll;
    SentNone(w.log, data);
    if data != [] {
      PushByteExact(w, data[0], limit);
      var p := PushByte(w, data[0], limit);
      if p.rc > 0 {
        var next := SendTimed(p.wire, data[1..], limit);
        SendTimedExact(p.wire, data[1..], limit);
        SentStep(w.log, data, next.sent);
      }
    }
  }

  lemma SentNone(log: seq<Action>, data: seq<byte>)
    ensures log + SentAll(data[..0]) == log
  {
  }

  lemma OneMore(n: nat, limit: nat)
    ensures (n + 1) * limit == limit + n * limit && 0 <= n * limit
  {
  }

  /** A timed send of n bytes waits at most n times the timeout. */
  lemma {:induction false} SendTimedWait(w: Wire, data: seq<byte>, limit: nat)
    ensures w.waited <= SendTimed(w, data, limit).wire.waited <= w.waited + |data| * limit
    decreases |data|
  {
    if data != [] {
      PushByteExact(w, data[0], limit);
      var p := PushByte(w, data[0], limit);
      SendTimedWait(p.wire, data[1..], limit);
      OneMore(|data[1..]|, limit);
    }
  }

  lemma SendExact(w: Wire, data: seq<byte>, limit: Option<nat>)
    ensures var s := Send(w, data, limit);
            && s.sent <= |data|
            && (s.rc >= 0 ==> s.rc == s.sent)
            && (s.rc < 0 ==> s.rc == -1)
            && s.wire.log == w.log + SentAll(data[..s.sent])
            && s.wire.inbox == w.inbox
            && (limit.Some? ==> s.wire.waited <= w.waited + |data| * limit.value)
            && (w.outbox == [] && |data| <= 0x7fffffff ==> s.rc == |data| && s.wire.outbox == [])
  {
    if limit.Some? {
      SendTimedExact(w, data, limit.value);
      SendTimedWait(w, data, limit.value);
    } else {
      PushExact(w, data);
    }
  }

  // ---------------------------------------------------------------- what the peer saw

  function Sents(log: seq<Action>): seq<byte> {
    if log == [] then [] else (if log[0].Sent? then [log[0].value] else []) + Sents(log[1..])
  }

  function Gots(log: seq<Action>): seq<byte> {
    if log == [] then [] else (if log[0].Got? then [log[0].value] else []) + Gots(log[1..])
  }

  lemma {:induction false} LogConcat(a: seq<Action>, b: seq<Action>)
    ensures Sents(a + b) == Sents(a) + Sents(b)
    ensures Gots(a + b) == Gots(a) + Gots(b)
  {
    if a == [] {
      assert a + b == b;
    } else {
      assert (a + b)[0] == a[0] && (a + b)[1..] == a[1..] + b;
      LogConcat(a[1..], b);
      var sent: seq<byte> := if a[0].Sent? then [a[0].value] else [];
      var got: seq<byte> := if a[0].Got? then [a[0].value] else [];
      assert Sents(a + b) == sent + Sents(a[1..] + b);
      assert sent + (Sents(a[1..]) + Sents(b)) == sent + Sents(a[1..]) + Sents(b);
      assert Gots(a + b) == got + Gots(a[1..] + b);
      assert got + (Gots(a[1..]) + Gots(b)) == got + Gots(a[1..]) + Gots(b);
    }
  }

  lemma {:induction false} LogOfBytes(s: seq<byte>)
    ensures Sents(SentAll(s)) == s && Gots(SentAll(s)) == []
    ensures Gots(GotAll(s)) == s && Sents(GotAll(s)) == []
  {
    if s != [] {
      LogOfBytes(s[1..]);
      assert SentAll(s)[1..] == SentAll(s[1..]);
      assert GotAll(s)[1..] == GotAll(s[1..]);
    }
  }

  /** What the log pre, some sends and some receipts amount to. */
  lemma LogAfter(pre: seq<Action>, sent: seq<byte>, got: seq<byte>)
    ensures Sents(pre + SentAll(sent) + GotAll(got)) == Sents(pre) + sent
    ensures Gots(pre + SentAll(sent) + GotAll(got)) == Gots(pre) + got
  {
    ThenSent(pre, sent);
    ThenGot(pre + SentAll(sent), got);
  }

  lemma ThenSent(pre: seq<Action>, sent: seq<byte>)
    ensures Sents(pre + SentAll(sent)) == Sents(pre) + sent
    ensures Gots(pre + SentAll(sent)) == Gots(pre)
  {
    LogConcat(pre, SentAll(sent));
    LogOfBytes(sent);
    assert Gots(pre) + [] == Gots(pre);
  }

  lemma ThenGot(pre: seq<Action>, got: seq<byte>)
    ensures Sents(pre + GotAll(got)) == Sents(pre)
    ensures Gots(pre + GotAll(got)) == Gots(pre) + got
  {
    LogConcat(pre, GotAll(got));
    LogOfBytes(got);
    assert Sents(pre) + [] == Sents(pre);
  }

  lemma CancelPrefix(base: seq<Action>, now: seq<Action>, log: seq<Action>)
    requires base + now <= base + log
    ensures now <= log
  {
    assert now == (base + now)[|base|..] && log == (base + log)[|base|..];
  }

  lemma CancelEqual(base: seq<Action>, log: seq<Action>, now: seq<Action>, more: seq<Action>)
    requires base + log == base + now + more
    ensures log == now + more
  {
    assert log == (base + log)[|base|..];
    assert now + more == (base + now + more)[|base|..];
  }

  lemma GotTwice(log: seq<Action>, a: seq<byte>, b: seq<byte>)
    ensures log + GotAll(a) + GotAll(b) == log + GotAll(a + b)
  {
    assert GotAll(a + b) == GotAll(a) + GotAll(b);
  }

  lemma SaidAndHeard(sent: seq<byte>, got: seq<byte>)
    ensures Sents(SentAll(sent) + GotAll(got)) == sent && Gots(SentAll(sent) + GotAll(got)) == got
  {
    LogAfter([], sent, got);
    assert [] + SentAll(sent) + GotAll(got) == SentAll(sent) + GotAll(got) && [] + sent == sent && [] + got == got;
  }

  // ---------------------------------------------------------------- time

  /** The log has only grown, and the waiting was at most one timeout for each byte in or out and one
      more for each of so many calls, which is that of the byte that did not come or go. */
  ghost predicate Spends(w: Wire, w': Wire, limit: Option<nat>, calls: nat) {
    && w.log <= w'.log && w.waited <= w'.waited
    && (limit.Some? ==> w'.waited <= w.waited + (|w'.log| - |w.log| + calls) * limit.value)
  }

  lemma SpendsThen(w: Wire, w1: Wire, w2: Wire, limit: Option<nat>, n: nat, m: nat)
    requires Spends(w, w1, limit, n) && Spends(w1, w2, limit, m)
    ensures Spends(w, w2, limit, n + m)
  {
    if limit.Some? {
      var a, b := |w1.log| - |w.log| + n, |w2.log| - |w1.log| + m;
      assert (a + b) * limit.value == a * limit.value + b * limit.value;
    }
  }

  lemma NothingSpent(w: Wire, limit: Option<nat>)
    ensures Spends(w, w, limit, 0)
  {
  }

  lemma SpendsMore(w: Wire, w': Wire, limit: Option<nat>, n: nat, m: nat)
    requires Spends(w, w', limit, n) && n <= m
    ensures Spends(w, w', limit, m)
  {
    if limit.Some? {
      var bytes := |w'.log| - |w.log|;
      assert (bytes + m) * limit.value == (bytes + n) * limit.value + (m - n) * limit.value;
      assert 0 <= (m - n) * limit.value;
    }
  }

  lemma {:induction false} ReadSpends(w: Wire, n: int, limit: Option<nat>)
    ensures Spends(w, Read(w, n, limit).wire, limit, 1)
    decreases n
  {
    hide Fetch;
    if n <= 0 {
      CallSpends(w, w, limit);
    } else {
      FetchBounds(w, limit);
      var f := Fetch(w, limit);
      if f.Value? {
        ReadSpends(f.wire, n - 1, limit);
        ByteSpends(w, f.wire, limit);
        SpendsThen(w, f.wire, Read(f.wire, n - 1, limit).wire, limit, 0, 1);
      } else {
        CallSpends(w, f.wire, limit);
      }
    }
  }

  lemma CallSpends(w: Wire, w': Wire, limit: Option<nat>)
    requires w'.log == w.log && w.waited <= w'.waited && (limit.Some? ==> w'.waited <= w.waited + limit.value)
    ensures Spends(w, w', limit, 1)
  {
  }

  lemma ByteSpends(w: Wire, w': Wire, limit: Option<nat>)
    requires w.log <= w'.log && |w'.log| == |w.log| + 1
    requires w.waited <= w'.waited && (limit.Some? ==> w'.waited <= w.waited + limit.value)
    ensures Spends(w, w', limit, 0)
  {
  }

  lemma {:induction false} SendTimedSpends(w: Wire, data: seq<byte>, limit: nat)
    ensures Spends(w, SendTimed(w, data, limit).wire, Some(limit), 1)
    decreases |data|
  {
    hide PushByte;
    if data == [] {
      CallSpends(w, w, Some(limit));
    } else {
      PushByteExact(w, data[0], limit);
      var p := PushByte(w, data[0], limit);
      if p.rc > 0 {
        SendTimedSpends(p.wire, data[1..], limit);
        ByteSpends(w, p.wire, Some(limit));
        SpendsThen(w, p.wire, SendTimed(p.wire, data[1..], limit).wire, Some(limit), 0, 1);
      } else {
        CallSpends(w, p.wire, Some(limit));
      }
    }
  }

  lemma SendSpends(w: Wire, data: seq<byte>, limit: Option<nat>)
    ensures Spends(w, Send(w, data, limit).wire, limit, 1)
  {
    if limit.Some? {
      SendTimedSpends(w, data, limit.value);
    } else {
      PushExact(w, data);
    }
  }

  // ---------------------------------------------------------------- how calls fail

  /** The errors of reads and sends. */
  predicate TransferError(e: Error) {
    e in {SelectFailed, TimedOut, PeerTerminated, TransferFailed}
  }

  lemma {:induction false} ReadReasons(w: Wire, n: int, limit: Option<nat>)
    ensures TransferError(Read(w, n, limit).Why())
    decreases n
  {
    hide AwaitReadable, Recv;
    if n > 0 && Fetch(w, limit).Value? {
      ReadReasons(Fetch(w, limit).wire, n - 1, limit);
    }
  }

  /** The next event is no byte, or one that comes too late. */
  predicate NoByte(rest: seq<Event>, limit: Option<nat>) {
    var e := if rest == [] then Eof(0) else rest[0];
    !e.Byte? || (limit.Some? && e.after > limit.value)
  }

  /** One turn of the read loop that yields no byte: why. */
  lemma FetchFails(w: Wire, limit: Option<nat>)
    requires NoByte(w.inbox, limit)
    ensures var f := Fetch(w, limit);
            var e := if w.inbox == [] then Eof(0) else w.inbox[0];
            var late := limit.Some? && e.after > limit.value;
            && f.wire.log == w.log
            && (late ==> f == Failed(TimedOut, f.wire))
            && (!late && e.Eof? ==> f == Ended(f.wire))
            && (!late && e.RecvFails? ==> f == Failed(TransferFailed, f.wire))
            && (!late && e.SelectFails? ==> f == Failed(if limit.Some? then SelectFailed else TransferFailed, f.wire))
  {
  }

  /** A read that is cut short, behind any number of bytes: a late event is a timeout, the end of the
      stream gives 0 even behind some bytes, and each failing call its own error. */
  lemma {:induction false} ReadCut(w: Wire, n: nat, limit: Option<nat>, data: seq<byte>, es: seq<Event>,
        rest: seq<Event>)
    requires w.inbox == es + rest && Prompt(es, data, limit) && |data| < n && NoByte(rest, limit)
    ensures var r := Read(w, n, limit);
            var e := if rest == [] then Eof(0) else rest[0];
            var late := limit.Some? && e.after > limit.value;
            && r.bytes == data && r.wire.log == w.log + GotAll(data)
            && (late ==> r.Rc() == -1 && r.Why() == TimedOut)
            && (!late && e.Eof? ==> r.Rc() == 0 && r.Why() == PeerTerminated)
            && (!late && e.RecvFails? ==> r.Rc() == -1 && r.Why() == TransferFailed)
            && (!late && e.SelectFails? && limit.Some? ==> r.Rc() == -1 && r.Why() == SelectFailed)
    decreases n
  {
    hide Fetch, GotAll;
    ReadLog(w, n, limit);
    if data == [] {
      assert w.inbox == rest;
      FetchFails(w, limit);
    } else {
      assert w.inbox[0] == es[0];
      FetchDelivers(w, limit);
      var f := Fetch(w, limit);
      assert f.wire.inbox == es[1..] + rest;
      ReadCut(f.wire, n - 1, limit, data[1..], es[1..], rest);
    }
  }

  /** The kernel takes a byte in time. */
  predicate Takes(g: Grant, limit: nat) {
    g.Accept? && g.room > 0 && g.after <= limit
  }

  /** A timed send that is cut short: a late grant is a timeout, which reports the bytes that are out
      already; anything else that fails is an error. */
  lemma {:induction false} SendCut(w: Wire, data: seq<byte>, limit: nat, gs: seq<Grant>, g: Grant, more: seq<Grant>)
    requires w.outbox == gs + [g] + more && |gs| < |data|
    requires (forall i :: 0 <= i < |gs| ==> Takes(gs[i], limit)) && !Takes(g, limit)
    ensures var s := Send(w, data, Some(limit));
            && s.sent == |gs|
            && (g.after > limit ==> s.rc == |gs| && s.error == Some(TimedOut))
            && (g.after <= limit ==> s.rc == -1)
            && (g.after <= limit && g.Stuck? ==> s.error == Some(SelectFailed))
            && (g.after <= limit && g.SendFails? ==> s.error == Some(TransferFailed))
            && (g.after <= limit && g.Accept? ==> s.error == Some(PeerTerminated))
    decreases |data|
  {
    if gs == [] {
      assert w.outbox[0] == g;
    } else {
      assert w.outbox[0] == gs[0];
      var p := PushByte(w, data[0], limit);
      assert w.outbox[1..] == gs[1..] + [g] + more;
      assert ([gs[0].(after := 0)] + w.outbox[1..])[1..] == w.outbox[1..];
      assert p.rc == 1 && p.wire.outbox == gs[1..] + [g] + more;
      SendCut(p.wire, data[1..], limit, gs[1..], g, more);
    }
  }

  /** With enough room in time the whole of it goes out. */
  lemma {:induction false} SendWhole(w: Wire, data: seq<byte>, limit: nat, gs: seq<Grant>, more: seq<Grant>)
    requires w.outbox == gs + more && |gs| == |data| && forall i :: 0 <= i < |gs| ==> Takes(gs[i], limit)
    ensures var s := Send(w, data, Some(limit)); s.rc == s.sent == |data| && s.error == None && s.wire.outbox == more
    decreases |data|
  {
    if data != [] {
      assert w.outbox[0] == gs[0];
      var p := PushByte(w, data[0], limit);
      assert w.outbox[1..] == gs[1..] + more;
      assert ([gs[0].(after := 0)] + w.outbox[1..])[1..] == w.outbox[1..];
      assert p.rc == 1 && p.wire.outbox == gs[1..] + more;
      SendWhole(p.wire, data[1..], limit, gs[1..], more);
    }
  }

  /** Without a timeout there is one send(), and its result is what it took. */
  lemma SendAtOnce(w: Wire, data: seq<byte>, g: Grant, more: seq<Grant>)
    requires w.outbox == [g] + more && data != []
    ensures var s := Send(w, data, None);
            && (g.Accept? ==> s.rc == s.sent == (if g.room <= |data| then g.room else |data|))
            && (!g.Accept? ==> s.rc == -1 && s.sent == 0)
            && (s.error == if !g.Accept? then Some(TransferFailed)
                           else if g.room == 0 then Some(PeerTerminated)
                           else None)
            && s.wire.outbox == more
  {
  }
}
