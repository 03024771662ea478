/** The deadline loops over TLS: src/socket_comm_ssh.cpp.

    The peer, OpenSSL and the scheduler are a schedule: turn k says what the k-th SSL call of the
    connection answers and how time passes around it.  Time is in nanoseconds, the resolution of
    the steady clock.  Each turn takes at least one tick of it. */
module Tls {
  import opened Wire

  type pos = n: int | n >= 1 witness 1
  type chunk = s: seq<byte> | |s| >= 1 witness [0]

  /** Done carries the decrypted record of an SSL_read; for SSL_write its length bounds the count
      written, and for SSL_connect it means the handshake is complete. */
  datatype Answer = Done(record: chunk) | WantRead | WantWrite | ZeroReturn | UncleanEof | Fatal

  /** quiet: how long until the descriptor is ready; broken: select() fails instead;
      stall: how long the SSL call blocks inside the kernel if the descriptor is blocking. */
  datatype Turn = Turn(answer: Answer, quiet: nat, broken: bool, stall: nat, tick: pos)

  type Schedule = nat -> Turn

  /** turn: how many SSL calls have been answered; waited: time spent blocked in select() or in an
      SSL call; pending: decrypted bytes inside OpenSSL. */
  datatype Session = Session(turns: Schedule, turn: nat, now: nat, waited: nat, pending: seq<byte>)

  /** rc as returned; bytes: what a read put into the caller's buffer. */
  datatype Outcome = Outcome(rc: int, bytes: seq<byte>, reason: Option<Error>, session: Session)

  predicate Wants(a: Answer) {
    a.WantRead? || a.WantWrite?
  }

  /** remainingUntil(): whole microseconds left, and whether the deadline is still ahead. */
  function Remaining(now: nat, deadline: nat): Option<nat> {
    if deadline <= now then None else Some((deadline - now) / 1000)
  }

  /** select() with a timeval of tv microseconds. */
  function Await(s: Session, t: Turn, tv: nat): (Readiness, Session) {
    var wait := if t.quiet <= tv * 1000 then t.quiet else tv * 1000;
    var s' := s.(now := s.now + wait, waited := s.waited + wait);
    if t.broken then (Broken, s') else if t.quiet <= tv * 1000 then (Ready, s') else (Expired, s')
  }

  /** select() without a timeval. */
  function AwaitForever(s: Session, t: Turn): (Readiness, Session) {
    (if t.broken then Broken else Ready, s.(now := s.now + t.quiet, waited := s.waited + t.quiet))
  }

  /** The passage of time in one SSL call that OpenSSL cannot answer from its own buffers. */
  function Called(s: Session, nonblocking: bool): Session {
    var t := s.turns(s.turn);
    var stall := if nonblocking then 0 else t.stall;
    s.(turn := s.turn + 1, now := s.now + t.tick + stall, waited := s.waited + stall)
  }

  function Min(a: nat, b: nat): nat {
    if a <= b then a else b
  }

  /** How the caller wants to wait.  Without a timeout a loop ends only if the peer stops asking
      for more: settle is then the number of some SSL call that is answered outright. */
  datatype Patience = Until(deadline: nat) | Forever(ghost settle: nat)

  ghost predicate Ends(s: Session, p: Patience) {
    p.Forever? ==> s.turn <= p.settle && !Wants(s.turns(p.settle).answer)
  }

  ghost function Measure(s: Session, p: Patience): nat {
    match p
    case Until(deadline) => if s.now < deadline then deadline - s.now else 0
    case Forever(settle) => if s.turn <= settle then settle - s.turn + 1 else 0
  }

  // ---------------------------------------------------------------- SSL_read

  /** The wait in front of SSL_read: none if OpenSSL holds decrypted data or there is no timeout. */
  function BeforeRead(s: Session, p: Patience): (Option<Error>, Session) {
    if s.pending == [] && p.Until? then
      var left := Remaining(s.now, p.deadline);
      if left.None? then (Some(TimedOut), s)
      else
        var (ready, s') := Await(s, s.turns(s.turn), left.value);
        (if ready.Broken? then Some(SelectFailed) else if ready.Expired? then Some(TimedOut) else None, s')
    else (None, s)
  }

  /** SSL_read() of at most n bytes: the bytes delivered, or the answer that explains why none were. */
  function SslRead(s: Session, n: nat, nonblocking: bool): (seq<byte>, Answer, Session) {
    if s.pending != [] then
      var k := Min(n, |s.pending|);
      (s.pending[..k], Fatal, s.(pending := s.pending[k..]))
    else
      var a := s.turns(s.turn).answer;
      var s' := Called(s, nonblocking);
      if a.Done? then
        var k := Min(n, |a.record|);
        (a.record[..k], Fatal, s'.(pending := a.record[k..]))
      else ([], a, s')
  }

  /** After WANT_READ or WANT_WRITE without a timeout, wait for readability rather than spin. */
  function AfterWant(s: Session, p: Patience): (bool, Session) {
    if p.Until? then (true, s)
    else
      var (ready, s') := AwaitForever(s, s.turns(s.turn));
      (ready.Ready?, s')
  }

  ghost function ReadLoop(s: Session, n: nat, nonblocking: bool, p: Patience): Outcome
    requires Ends(s, p)
    decreases Measure(s, p)
  {
    var (stop, s1) := BeforeRead(s, p);
    if stop.Some? then Outcome(-1, [], stop, s1)
    else
      var (bytes, a, s2) := SslRead(s1, n, nonblocking);
      if |bytes| > 0 then Outcome(|bytes|, bytes, None, s2)
      else if Wants(a) then
        var (ready, s3) := AfterWant(s2, p);
        if ready then ReadLoop(s3, n, nonblocking, p) else Outcome(-1, [], Some(SelectFailed), s3)
      else if a.ZeroReturn? || a.UncleanEof? then Outcome(0, [], Some(PeerTerminated), s2)
      else Outcome(-1, [], Some(TransferFailed), s2)
  }

  // ---------------------------------------------------------------- SSL_write

  function BeforeWrite(s: Session, p: Patience): (Option<Error>, Session) {
    if p.Until? then
      var left := Remaining(s.now, p.deadline);
      if left.None? then (Some(TimedOut), s)
      else
        var (ready, s') := Await(s, s.turns(s.turn), left.value);
        (if ready.Broken? then Some(SelectFailed) else if ready.Expired? then Some(TimedOut) else None, s')
    else (None, s)
  }

  /** SSL_write() of n bytes: the count written, or the answer that explains why none were. */
  function SslWrite(s: Session, n: nat, nonblocking: bool): (nat, Answer, Session) {
    var a := s.turns(s.turn).answer;
    (if a.Done? then Min(n, |a.record|) else 0, if a.Done? then Fatal else a, Called(s, nonblocking))
  }

  ghost function WriteLoop(s: Session, n: nat, nonblocking: bool, p: Patience): Outcome
    requires Ends(s, p)
    decreases Measure(s, p)
  {
    var (stop, s1) := BeforeWrite(s, p);
    if stop.Some? then Outcome(-1, [], stop, s1)
    else
      var (count, a, s2) := SslWrite(s1, n, nonblocking);
      if count > 0 then Outcome(count, [], None, s2)
      else if Wants(a) then
        var (ready, s3) := AfterWant(s2, p);
        if ready then WriteLoop(s3, n, nonblocking, p) else Outcome(-1, [], Some(SelectFailed), s3)
      else if a.ZeroReturn? then Outcome(-1, [], Some(PeerTerminated), s2)
      else Outcome(-1, [], Some(TransferFailed), s2)
  }

  // ---------------------------------------------------------------- SSL_connect

  /** The handshake; rc 1 is success.  Without a timeout it is a single blocking call. */
  function HandshakeLoop(s: Session, nonblocking: bool, deadline: Option<nat>): Outcome
    decreases if deadline.Some? && s.now < deadline.value then deadline.value - s.now else 0
  {
    var a := s.turns(s.turn).answer;
    var s1 := Called(s, nonblocking);
    if a.Done? then Outcome(1, [], None, s1)
    else if deadline.None? || !Wants(a) then Outcome(-1, [], Some(HandshakeFailed), s1)
    else
      var left := Remaining(s1.now, deadline.value);
      if left.None? then Outcome(-1, [], Some(TimedOut), s1)
      else
        var (ready, s2) := Await(s1, s.turns(s.turn), left.value);
        if ready.Broken? then Outcome(-1, [], Some(SelectFailed), s2)
        else if ready.Expired? then Outcome(-1, [], Some(TimedOut), s2)
        else HandshakeLoop(s2, nonblocking, deadline)
  }

  // ---------------------------------------------------------------- the deadline

  /** What one timed call may do with the clock: it waits no longer than up to the deadline, a
      timeout is not reported a microsecond or more early, and apart from the time the last turn
      takes on the processor the call is over by the deadline. */
  ghost predicate Punctual(s: Session, o: Outcome, deadline: nat, slack: nat) {
    && s.waited <= o.session.waited
    && o.session.waited - s.waited <= o.session.now - s.now
    && s.turn <= o.session.turn && o.session.turns == s.turns
    && o.session.waited - s.waited <= (if s.now < deadline then deadline - s.now else 0)
    && (o.reason == Some(TimedOut) ==> deadline < o.session.now + 1000)
    && ((forall k :: s.turns(k).tick <= slack) && s.now <= deadline ==> o.session.now <= deadline + slack)
  }

  lemma AwaitPunctual(s: Session, t: Turn, deadline: nat)
    requires s.now < deadline
    ensures var (ready, s') := Await(s, t, Remaining(s.now, deadline).value);
            && s.now <= s'.now <= deadline
            && s'.waited - s.waited == s'.now - s.now
            && (ready.Expired? ==> deadline < s'.now + 1000)
  {
    var left := deadline - s.now;
    assert left == 1000 * (left / 1000) + left % 1000;
  }

  /** On a non-blocking descriptor every timed read is punctual, whatever the peer sends and
      however often OpenSSL asks for more. */
  lemma {:induction false} ReadPunctual(s: Session, n: nat, deadline: nat, slack: nat)
    ensures Punctual(s, ReadLoop(s, n, true, Until(deadline)), deadline, slack)
    decreases Measure(s, Until(deadline))
  {
    var p := Until(deadline);
    if s.now < deadline {
      AwaitPunctual(s, s.turns(s.turn), deadline);
    }
    var (stop, s1) := BeforeRead(s, p);
    if stop.None? {
      var (bytes, a, s2) := SslRead(s1, n, true);
      if |bytes| == 0 && Wants(a) {
        ReadPunctual(s2, n, deadline, slack);
      }
    }
  }

  lemma {:induction false} WritePunctual(s: Session, n: nat, deadline: nat, slack: nat)
    ensures Punctual(s, WriteLoop(s, n, true, Until(deadline)), deadline, slack)
    decreases Measure(s, Until(deadline))
  {
    var p := Until(deadline);
    if s.now < deadline {
      AwaitPunctual(s, s.turns(s.turn), deadline);
    }
    var (stop, s1) := BeforeWrite(s, p);
    if stop.None? {
      var (count, a, s2) := SslWrite(s1, n, true);
      if count == 0 && Wants(a) {
        WritePunctual(s2, n, deadline, slack);
      }
    }
  }

  lemma {:induction false} HandshakePunctual(s: Session, deadline: nat, slack: nat)
    ensures Punctual(s, HandshakeLoop(s, true, Some(deadline)), deadline, slack)
    decreases if s.now < deadline then deadline - s.now else 0
  {
    var a := s.turns(s.turn).answer;
    var s1 := Called(s, true);
    if Wants(a) && s1.now < deadline {
      AwaitPunctual(s1, s.turns(s.turn), deadline);
      var (ready, s2) := Await(s1, s.turns(s.turn), Remaining(s1.now, deadline).value);
      HandshakePunctual(s2, deadline, slack);
    }
  }

  /** The condition is needed.  Were the descriptor left blocking, SSL_read could overstay any
      deadline by any amount: select() sees the descriptor readable, OpenSSL consumes a record that
      carries no data, and the kernel blocks. */
  lemma BlockingReadOverstays(now: nat, deadline: nat, excess: nat) returns (s: Session)
    requires now < deadline
    ensures s.now == now
    ensures var o := ReadLoop(s, 1, false, Until(deadline));
            && o.session.waited - s.waited == excess
            && (excess > deadline - now ==> !Punctual(s, o, deadline, 1))
  {
    s := Session(k => Turn(Done([0]), 0, false, excess, 1), 0, now, 0, []);
    var (ready, s1) := Await(s, s.turns(0), Remaining(now, deadline).value);
    assert ready.Ready? && s1 == s;
    var (bytes, a, s2) := SslRead(s1, 1, false);
    assert bytes == [0];
  }

  // ---------------------------------------------------------------- the data

  /** The plaintext of the records received in turns [from, end). */
  function Arrived(turns: Schedule, from: nat, end: nat): seq<byte>
    requires from <= end
    decreases end - from
  {
    if from == end then []
    else (if turns(from).answer.Done? then turns(from).answer.record else []) + Arrived(turns, from + 1, end)
  }

  lemma SslReadConserves(s: Session, n: nat, nonblocking: bool)
    ensures var (bytes, a, s') := SslRead(s, n, nonblocking);
            && s.turn <= s'.turn <= s.turn + 1 && s'.turns == s.turns
            && s.pending + Arrived(s.turns, s.turn, s'.turn) == bytes + s'.pending
            && |bytes| <= n
            && (bytes == [] && Wants(a) ==> s.now < s'.now && a == s.turns(s.turn).answer)
            && (bytes == [] && Wants(a) ==> s.pending == s'.pending == [] && s'.turn == s.turn + 1)
            && (bytes == [] && Wants(a) ==> !s.turns(s.turn).answer.Done?)
  {
    var t := s.turns(s.turn).answer;
    assert Arrived(s.turns, s.turn, s.turn + 1) == if t.Done? then t.record else [];
  }

  /** A read returns a positive count with that many bytes, or a reason, never both; and 0 is the
      end of the stream. */
  lemma {:induction false} ReadReturns(s: Session, n: nat, nonblocking: bool, p: Patience)
    requires Ends(s, p)
    ensures var o := ReadLoop(s, n, nonblocking, p);
            && s.turn <= o.session.turn && o.session.turns == s.turns
            && |o.bytes| <= n
            && o.rc == (if o.bytes != [] then |o.bytes| else if o.reason == Some(PeerTerminated) then 0 else -1)
            && (o.bytes == [] <==> o.reason.Some?)
    decreases Measure(s, p)
  {
    hide SslRead, Arrived;
    var (stop, s1) := BeforeRead(s, p);
    if stop.None? {
      SslReadConserves(s1, n, nonblocking);
      var (bytes, a, s2) := SslRead(s1, n, nonblocking);
      if bytes == [] && Wants(a) {
        var (ready, s3) := AfterWant(s2, p);
        if ready {
          ReadReturns(s3, n, nonblocking, p);
        }
      }
    }
  }

  /** No decrypted byte is lost, repeated or reordered by a read: what the caller gets, followed by
      what OpenSSL keeps, is what OpenSSL held, followed by what arrived.  This holds for every exit. */
  lemma {:induction false} ReadConserves(s: Session, n: nat, nonblocking: bool, p: Patience)
    requires Ends(s, p)
    ensures var o := ReadLoop(s, n, nonblocking, p);
            && s.turn <= o.session.turn
            && s.pending + Arrived(s.turns, s.turn, o.session.turn) == o.bytes + o.session.pending
    decreases Measure(s, p)
  {
    hide SslRead;
    ReadReturns(s, n, nonblocking, p);
    var (stop, s1) := BeforeRead(s, p);
    if stop.None? {
      SslReadConserves(s1, n, nonblocking);
      var (bytes, a, s2) := SslRead(s1, n, nonblocking);
      if bytes == [] && Wants(a) {
        var (ready, s3) := AfterWant(s2, p);
        if ready {
          ReadConserves(s3, n, nonblocking, p);
          NothingArrived(s.turns, s.turn, ReadLoop(s3, n, nonblocking, p).session.turn);
        }
      }
    }
  }

  /** A turn that asks for more brings no data. */
  lemma NothingArrived(turns: Schedule, from: nat, end: nat)
    requires from < end && !turns(from).answer.Done?
    ensures Arrived(turns, from, end) == Arrived(turns, from + 1, end)
  {
  }

  /** The time until the descriptor is ready and the SSL call returns, over turns [from, end). */
  function Elapsed(turns: Schedule, from: nat, end: nat): nat
    requires from <= end
    decreases end - from
  {
    if from == end then 0 else turns(from).quiet + turns(from).tick + Elapsed(turns, from + 1, end)
  }

  /** A record that is ready at least a microsecond before the deadline is delivered, however many
      empty records, partial records or renegotiations come before it. */
  lemma {:induction false} ReadDelivers(s: Session, n: nat, deadline: nat, k: nat)
    requires s.pending == [] && n > 0 && s.turn <= k
    requires forall m :: s.turn <= m < k ==> Wants(s.turns(m).answer) && !s.turns(m).broken
    requires s.turns(k).answer.Done? && !s.turns(k).broken
    requires s.now + Elapsed(s.turns, s.turn, k) + s.turns(k).quiet + 1000 <= deadline
    ensures var o := ReadLoop(s, n, true, Until(deadline));
            var record := s.turns(k).answer.record;
            && o.rc == Min(n, |record|) && o.bytes == record[..o.rc] && o.session.pending == record[o.rc..]
    decreases k - s.turn
  {
    var p := Until(deadline);
    var t := s.turns(s.turn);
    var left := deadline - s.now;
    assert left == 1000 * (left / 1000) + left % 1000;
    var (stop, s1) := BeforeRead(s, p);
    assert stop.None?;
    if s.turn < k {
      assert Wants(t.answer);
      var (bytes, a, s2) := SslRead(s1, n, true);
      assert s2.now == s.now + t.quiet + t.tick;
      ReadDelivers(s2, n, deadline, k);
    }
  }

  ghost predicate OnlyWants(turns: Schedule, from: nat, end: nat) {
    forall k :: from <= k < end ==> Wants(turns(k).answer)
  }

  /** A write hands its data to OpenSSL once: it repeats the call only while OpenSSL asks for more,
      a positive result is what the one accepted call took, and after a failure none was accepted. */
  lemma {:induction false} WriteOnce(s: Session, n: nat, nonblocking: bool, p: Patience)
    requires Ends(s, p) && n > 0
    ensures var o := WriteLoop(s, n, nonblocking, p);
            var last := o.session.turn - 1;
            && s.turn <= o.session.turn && o.session.turns == s.turns
            && o.rc <= n && o.bytes == [] && (o.rc > 0 <==> o.reason.None?) && (o.rc <= 0 ==> o.rc == -1)
            && (o.rc > 0 ==> s.turn <= last && OnlyWants(s.turns, s.turn, last)
                             && s.turns(last).answer.Done? && o.rc == Min(n, |s.turns(last).answer.record|))
            && (o.rc < 0 ==> forall k :: s.turn <= k <= last ==> !s.turns(k).answer.Done?)
    decreases Measure(s, p)
  {
    var (stop, s1) := BeforeWrite(s, p);
    if stop.None? {
      var (count, a, s2) := SslWrite(s1, n, nonblocking);
      if count == 0 && Wants(a) {
        var (ready, s3) := AfterWant(s2, p);
        if ready {
          WriteOnce(s3, n, nonblocking, p);
        }
      }
    }
  }

  /** The handshake succeeds exactly when OpenSSL says so, having asked for nothing but patience. */
  lemma {:induction false} HandshakeDecided(s: Session, nonblocking: bool, deadline: Option<nat>)
    ensures var o := HandshakeLoop(s, nonblocking, deadline);
            var last := o.session.turn - 1;
            && s.turn <= last && o.session.turns == s.turns && o.session.pending == s.pending
            && OnlyWants(s.turns, s.turn, last)
            && (o.rc == 1 || o.rc == -1)
            && (o.rc == 1 <==> s.turns(last).answer.Done?)
            && (o.rc == 1 <==> o.reason.None?)
            && (deadline.None? ==> last == s.turn)
            && (o.reason == Some(HandshakeFailed) ==> !Wants(s.turns(last).answer) || deadline.None?)
    decreases if deadline.Some? && s.now < deadline.value then deadline.value - s.now else 0
  {
    var a := s.turns(s.turn).answer;
    var s1 := Called(s, nonblocking);
    if deadline.Some? && Wants(a) {
      var left := Remaining(s1.now, deadline.value);
      if left.Some? {
        var (ready, s2) := Await(s1, s.turns(s.turn), left.value);
        if ready.Ready? {
          HandshakeDecided(s2, nonblocking, deadline);
        }
      }
    }
  }

  /** A handshake that fails says that OpenSSL failed, that select() did, or that time ran out. */
  lemma {:induction false} HandshakeReasons(s: Session, nonblocking: bool, deadline: Option<nat>)
    ensures var o := HandshakeLoop(s, nonblocking, deadline);
            o.reason.Some? ==> o.reason.value in {HandshakeFailed, SelectFailed, TimedOut}
    decreases if deadline.Some? && s.now < deadline.value then deadline.value - s.now else 0
  {
    hide Await, Remaining;
    var s1 := Called(s, nonblocking);
    if deadline.Some? && Remaining(s1.now, deadline.value).Some? {
      RemainingAhead(s1.now, deadline.value);
      var (ready, s2) := Await(s1, s.turns(s.turn), Remaining(s1.now, deadline.value).value);
      AwaitPunctual(s1, s.turns(s.turn), deadline.value);
      HandshakeReasons(s2, nonblocking, deadline);
    }
  }

  lemma RemainingAhead(now: nat, deadline: nat)
    ensures Remaining(now, deadline).Some? <==> now < deadline
  {
  }

  // ---------------------------------------------------------------- what each answer comes to

  /** Up to turn k the peer only asks for more, the descriptor is fit to wait for, and the answer of turn
      k is there at least a microsecond before the deadline, if there is one. */
  ghost predicate Unhurried(s: Session, p: Patience, nonblocking: bool, k: nat) {
    && s.turn <= k && OnlyWants(s.turns, s.turn, k)
    && (forall m :: s.turn <= m <= k ==> !s.turns(m).broken)
    && (p.Until? ==> nonblocking && s.now + Elapsed(s.turns, s.turn, k) + s.turns(k).quiet + 1000 <= p.deadline)
  }

  lemma ElapsedStep(turns: Schedule, from: nat, end: nat)
    requires from < end
    ensures Elapsed(turns, from, end) == turns(from).quiet + turns(from).tick + Elapsed(turns, from + 1, end)
  {
  }

  lemma Whole(left: nat)
    ensures left - 1000 < 1000 * (left / 1000) <= left
  {
  }

  /** select() waits for a descriptor that is ready in time, and says so. */
  lemma AwaitReady(s: Session, t: Turn, deadline: nat)
    requires !t.broken && s.now + t.quiet + 1000 <= deadline
    ensures Remaining(s.now, deadline).Some?
    ensures Await(s, t, Remaining(s.now, deadline).value)
            == (Ready, s.(now := s.now + t.quiet, waited := s.waited + t.quiet))
  {
    Whole(deadline - s.now);
  }

  /** What a read comes to by the answer of turn k, however often the peer has asked for more before: a
      record delivers its first bytes, and the rest later; the peer's closing, clean or not, is the end
      of the stream; and anything else is an error. */
  lemma {:induction false} ReadAnswered(s: Session, n: nat, nonblocking: bool, p: Patience, k: nat)
    requires s.pending == [] && n > 0 && Ends(s, p) && Unhurried(s, p, nonblocking, k) && !Wants(s.turns(k).answer)
    ensures var o := ReadLoop(s, n, nonblocking, p);
            && o.session.turn == k + 1
            && match s.turns(k).answer
               case Done(record) =>
                 && o.rc == Min(n, |record|) && o.bytes == record[..o.rc] && o.reason == None
                 && o.session.pending == record[o.rc..]
               case ZeroReturn => o.rc == 0 && o.bytes == [] && o.reason == Some(PeerTerminated)
               case UncleanEof => o.rc == 0 && o.bytes == [] && o.reason == Some(PeerTerminated)
               case _ => o.rc == -1 && o.bytes == [] && o.reason == Some(TransferFailed)
    decreases k - s.turn
  {
    hide Await, Remaining, Elapsed;
    var t := s.turns(s.turn);
    if s.turn < k {
      ElapsedStep(s.turns, s.turn, k);
    }
    if p.Until? {
      AwaitReady(s, t, p.deadline);
    }
    var (stop, s1) := BeforeRead(s, p);
    assert stop.None?;
    if s.turn < k {
      var (bytes, a, s2) := SslRead(s1, n, nonblocking);
      var (ready, s3) := AfterWant(s2, p);
      assert ready;
      ReadAnswered(s3, n, nonblocking, p, k);
    }
  }

  /** The same for a write. */
  lemma {:induction false} WriteAnswered(s: Session, n: nat, nonblocking: bool, p: Patience, k: nat)
    requires n > 0 && Ends(s, p) && Unhurried(s, p, nonblocking, k) && !Wants(s.turns(k).answer)
    ensures var o := WriteLoop(s, n, nonblocking, p);
            && o.session.turn == k + 1
            && match s.turns(k).answer
               case Done(record) => o.rc == Min(n, |record|) && o.reason == None
               case ZeroReturn => o.rc == -1 && o.reason == Some(PeerTerminated)
               case _ => o.rc == -1 && o.reason == Some(TransferFailed)
    decreases k - s.turn
  {
    hide Await, Remaining, Elapsed;
    var t := s.turns(s.turn);
    if s.turn < k {
      ElapsedStep(s.turns, s.turn, k);
    }
    if p.Until? {
      AwaitReady(s, t, p.deadline);
    }
    var (stop, s1) := BeforeWrite(s, p);
    assert stop.None?;
    if s.turn < k {
      var (count, a, s2) := SslWrite(s1, n, nonblocking);
      var (ready, s3) := AfterWant(s2, p);
      assert ready;
      WriteAnswered(s3, n, nonblocking, p, k);
    }
  }

  /** And for the handshake: with a timeout it is as patient as these, without one it takes the first
      answer for the last. */
  lemma {:induction false} HandshakeAnswered(s: Session, nonblocking: bool, deadline: Option<nat>, k: nat)
    requires s.turn <= k && OnlyWants(s.turns, s.turn, k) && forall m :: s.turn <= m < k ==> !s.turns(m).broken
    requires if deadline.None? then k == s.turn
             else nonblocking && s.now + Elapsed(s.turns, s.turn, k) + 1000 <= deadline.value
                  && !Wants(s.turns(k).answer)
    ensures var o := HandshakeLoop(s, nonblocking, deadline);
            && o.session.turn == k + 1
            && (s.turns(k).answer.Done? ==> o.rc == 1 && o.reason == None)
            && (!s.turns(k).answer.Done? ==> o.rc == -1 && o.reason == Some(HandshakeFailed))
    decreases k - s.turn
  {
    hide Await, Remaining, Elapsed;
    if s.turn < k {
      ElapsedStep(s.turns, s.turn, k);
      var t := s.turns(s.turn);
      var s1 := Called(s, nonblocking);
      AwaitReady(s1, t, deadline.value);
      var (ready, s2) := Await(s1, t, Remaining(s1.now, deadline.value).value);
      HandshakeAnswered(s2, nonblocking, deadline, k);
    }
  }

  /** Up to turn k all goes well, but the wait for turn k takes longer than there is time. */
  ghost predicate Overdue(s: Session, deadline: nat, k: nat) {
    && s.turn <= k && OnlyWants(s.turns, s.turn, k)
    && (forall m :: s.turn <= m <= k ==> !s.turns(m).broken)
    && (k > s.turn ==> s.now + Elapsed(s.turns, s.turn, k) + 1000 <= deadline)
    && s.now + Elapsed(s.turns, s.turn, k) + s.turns(k).quiet > deadline
  }

  lemma AwaitOverdue(s: Session, t: Turn, deadline: nat)
    requires !t.broken && s.now + t.quiet > deadline
    ensures var left := Remaining(s.now, deadline); left.Some? ==> Await(s, t, left.value).0 == Expired
  {
    if s.now < deadline {
      Whole(deadline - s.now);
    }
  }

  /** A peer that keeps asking for more and then falls silent runs into the timeout, in a read and in a
      write. */
  lemma {:induction false} OverdueTimesOut(s: Session, n: nat, deadline: nat, k: nat)
    requires s.pending == [] && n > 0 && Overdue(s, deadline, k)
    ensures var o := ReadLoop(s, n, true, Until(deadline)); o.rc == -1 && o.reason == Some(TimedOut)
    ensures var o := WriteLoop(s, n, true, Until(deadline)); o.rc == -1 && o.reason == Some(TimedOut)
    decreases k - s.turn
  {
    hide Await, Remaining, Elapsed;
    var t := s.turns(s.turn);
    if s.turn < k {
      ElapsedStep(s.turns, s.turn, k);
      QuietElapsed(s.turns, s.turn, k);
      AwaitReady(s, t, deadline);
      var s2 := Called(s.(now := s.now + t.quiet, waited := s.waited + t.quiet), true);
      OverdueTimesOut(s2, n, deadline, k);
    } else {
      NoneElapsed(s.turns, k);
      AwaitOverdue(s, t, deadline);
    }
  }

  /** The same in the handshake. */
  lemma {:induction false} HandshakeTimesOut(s: Session, deadline: nat, k: nat)
    requires s.turn <= k && OnlyWants(s.turns, s.turn, k + 1) && forall m :: s.turn <= m <= k ==> !s.turns(m).broken
    requires k > s.turn ==> s.now + Elapsed(s.turns, s.turn, k) + 1000 <= deadline
    requires s.now + Elapsed(s.turns, s.turn, k) + s.turns(k).tick + s.turns(k).quiet > deadline
    ensures var o := HandshakeLoop(s, true, Some(deadline)); o.rc == -1 && o.reason == Some(TimedOut)
    decreases k - s.turn
  {
    hide Await, Remaining, Elapsed;
    var t := s.turns(s.turn);
    var s1 := Called(s, true);
    if s.turn < k {
      ElapsedStep(s.turns, s.turn, k);
      AwaitReady(s1, t, deadline);
      HandshakeTimesOut(s1.(now := s1.now + t.quiet, waited := s1.waited + t.quiet), deadline, k);
    } else {
      NoneElapsed(s.turns, k);
      AwaitOverdue(s1, t, deadline);
    }
  }

  lemma QuietElapsed(turns: Schedule, from: nat, end: nat)
    requires from < end
    ensures turns(from).quiet <= Elapsed(turns, from, end)
  {
  }

  lemma NoneElapsed(turns: Schedule, k: nat)
    ensures Elapsed(turns, k, k) == 0
  {
  }
}
