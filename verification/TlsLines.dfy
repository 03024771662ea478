/** readline() and reads() of src/socket_tcpclient.cpp, over TLS: what they make of the decrypted
    stream. */
module TlsLines {
  import opened Wire
  import opened Tls
  import opened Lines
  import Comm

  /** The session ends with SSL call number settle, by the peer's closing it or by an error.  Without
      such an end the library may read for ever: records without end and without a line end. */
  ghost predicate Closes(s: Session, settle: nat) {
    s.turn <= settle && !Wants(s.turns(settle).answer) && !s.turns(settle).answer.Done?
  }

  /** One byte by virtualread(). */
  ghost function ReadByte(s: Session, limit: Option<nat>, nonblocking: bool, settle: nat): Outcome
    requires Closes(s, settle)
  {
    ReadLoop(s, 1, nonblocking, Comm.Waiting(s, limit, settle))
  }

  /** A read that delivers bytes is over before the session is, and has got on; one that delivers none
      leaves nothing undelivered. */
  lemma {:induction false} ReadEndsBefore(s: Session, n: nat, nonblocking: bool, p: Patience, settle: nat)
    requires Closes(s, settle) && Ends(s, p) && n > 0
    ensures var o := ReadLoop(s, n, nonblocking, p);
            && s.turn <= o.session.turn <= settle + 1 && o.session.turns == s.turns
            && (o.bytes != [] ==> o.session.turn <= settle)
            && (o.bytes != [] && o.session.turn == s.turn ==> |o.session.pending| < |s.pending|)
            && (o.bytes == [] ==> o.session.pending == [])
    decreases Measure(s, p)
  {
    var (stop, s1) := BeforeRead(s, p);
    if stop.None? {
      var (bytes, a, s2) := SslRead(s1, n, nonblocking);
      if bytes == [] && Wants(a) {
        var (ready, s3) := AfterWant(s2, p);
        if ready {
          ReadEndsBefore(s3, n, nonblocking, p, settle);
        }
      }
    }
  }

  /** What OpenSSL held at s, and what has arrived since, up to s'. */
  function Stream(s: Session, s': Session): seq<byte> {
    s.pending + if s.turn <= s'.turn then Arrived(s.turns, s.turn, s'.turn) else []
  }

  /** One byte: either the next one of the decrypted stream, or none is left undelivered. */
  lemma ByteTaken(s: Session, limit: Option<nat>, nonblocking: bool, settle: nat)
    requires Closes(s, settle)
    ensures var o := ReadByte(s, limit, nonblocking, settle);
            && s.turn <= o.session.turn && o.session.turns == s.turns
            && (o.rc > 0 <==> o.bytes != []) && (o.rc > 0 ==> o.rc == |o.bytes| == 1)
            && (o.rc > 0 ==> Closes(o.session, settle))
            && (o.rc > 0 && o.session.turn == s.turn ==> |o.session.pending| < |s.pending|)
            && (o.rc <= 0 ==> o.session.pending == [])
            && (o.rc == 0 <==> o.reason == Some(PeerTerminated))
            && Stream(s, o.session) == o.bytes + o.session.pending
  {
    var p := Comm.Waiting(s, limit, settle);
    ReadEndsBefore(s, 1, nonblocking, p, settle);
    ReadReturns(s, 1, nonblocking, p);
    ReadConserves(s, 1, nonblocking, p);
  }

  /** text as in module Lines; stop says why the call ended. */
  datatype Taken = Taken(text: Option<seq<byte>>, stop: Stop, session: Session)

  /** What the end of the stream, or an error, makes of the bytes kept. */
  function Ended(o: Outcome, acc: seq<byte>): Taken {
    if o.rc == 0 then Taken(if acc == [] then None else Some(acc), PeerClosed, o.session)
    else Taken(None, Failure(if o.reason.Some? then o.reason.value else TransferFailed), o.session)
  }

  /** readline(), having kept acc of the line so far and last seen last. */
  ghost function TlsLine(s: Session, limit: Option<nat>, nonblocking: bool, settle: nat, acc: seq<byte>,
        last: byte): Taken
    requires Closes(s, settle)
    decreases settle + 1 - s.turn, |s.pending|
  {
    var o := ReadByte(s, limit, nonblocking, settle);
    ByteTaken(s, limit, nonblocking, settle);
    if o.rc > 0 then
      var c := o.bytes[0];
      if c == NUL || (c == LF && last == CR) then Taken(Some(Kept(acc, c)), Complete, o.session)
      else TlsLine(o.session, limit, nonblocking, settle, Kept(acc, c), c)
    else Ended(o, acc)
  }

  /** reads(), having kept acc. */
  ghost function TlsString(s: Session, limit: Option<nat>, nonblocking: bool, settle: nat, acc: seq<byte>): Taken
    requires Closes(s, settle)
    decreases settle + 1 - s.turn, |s.pending|
  {
    var o := ReadByte(s, limit, nonblocking, settle);
    ByteTaken(s, limit, nonblocking, settle);
    if o.rc > 0 then
      var c := o.bytes[0];
      if c == NUL then Taken(Some(acc + [c]), Complete, o.session)
      else TlsString(o.session, limit, nonblocking, settle, acc + [c])
    else Ended(o, acc)
  }

  lemma ArrivedSplit(turns: Schedule, from: nat, mid: nat, end: nat)
    requires from <= mid <= end
    ensures Arrived(turns, from, end) == Arrived(turns, from, mid) + Arrived(turns, mid, end)
    decreases mid - from
  {
    if from < mid {
      ArrivedSplit(turns, from + 1, mid, end);
    }
  }

  /** The stream from s to s2 is what was taken from it up to s1, and the stream from there. */
  lemma StreamSplit(s: Session, s1: Session, s2: Session, taken: seq<byte>)
    requires s.turn <= s1.turn <= s2.turn && s1.turns == s.turns && Stream(s, s1) == taken + s1.pending
    ensures Stream(s, s2) == taken + Stream(s1, s2)
  {
    ArrivedSplit(s.turns, s.turn, s1.turn, s2.turn);
    var a, b := Arrived(s.turns, s.turn, s1.turn), Arrived(s.turns, s1.turn, s2.turn);
    assert s.pending + (a + b) == (s.pending + a) + b == taken + (s1.pending + b);
  }

  /** What readline() takes from the decrypted stream is d, with nothing lost or reordered, whatever
      the schedule of records, retries, timeouts and failures.  A line that is complete is d without CR
      and LF, and d is one line; at the end of the stream d is the unended rest; and after an error d
      is lost. */
  lemma {:induction false} TlsLineSplits(s: Session, limit: Option<nat>, nonblocking: bool, settle: nat,
        acc: seq<byte>, last: byte) returns (d: seq<byte>)
    requires Closes(s, settle)
    ensures var l := TlsLine(s, limit, nonblocking, settle, acc, last);
            && s.turn <= l.session.turn && l.session.turns == s.turns
            && Stream(s, l.session) == d + l.session.pending
            && match l.stop
               case Complete => OneLine(last, d) && l.text == Some(acc + Strip(d)) && Closes(l.session, settle)
               case PeerClosed =>
                 && Unended(last, d) && l.session.pending == []
                 && l.text == if acc + Strip(d) == [] then None else Some(acc + Strip(d))
               case Failure(_) => Unended(last, d) && l.session.pending == [] && l.text == None
    ensures var l := TlsLine(s, limit, nonblocking, settle, acc, last);
            l.stop.Complete? && l.session.turn == s.turn ==> |l.session.pending| < |s.pending|
    decreases settle + 1 - s.turn, |s.pending|
  {
    hide ReadByte, Stream, Strip, Unended, OneLine, EndsAt;
    var o := ReadByte(s, limit, nonblocking, settle);
    ByteTaken(s, limit, nonblocking, settle);
    if o.rc > 0 {
      var c := o.bytes[0];
      var t: seq<byte> := [];
      if !(c == NUL || (c == LF && last == CR)) {
        t := TlsLineSplits(o.session, limit, nonblocking, settle, Kept(acc, c), c);
        var l := TlsLine(o.session, limit, nonblocking, settle, Kept(acc, c), c);
        StreamSplit(s, o.session, l.session, o.bytes);
        assert o.bytes + (t + l.session.pending) == [c] + t + l.session.pending;
      }
      d := [c] + t;
      LineGrows(acc, last, c, t);
      assert o.bytes == [c];
    } else {
      d := [];
      NoLine(acc, last);
    }
  }

  /** The bytes of a line, one more in front. */
  lemma LineGrows(acc: seq<byte>, last: byte, c: byte, t: seq<byte>)
    ensures var d := [c] + t;
            var ends := c == NUL || (c == LF && last == CR);
            && Kept(acc, c) + Strip(t) == acc + Strip(d)
            && (OneLine(last, d) <==> if ends then t == [] else OneLine(c, t))
            && (Unended(last, d) <==> !ends && Unended(c, t))
            && Kept(acc, c) + Strip([]) == Kept(acc, c)
  {
    var d := [c] + t;
    assert d[1..] == t;
    KeptStrip(acc, d);
    OneLineStep(last, d);
    UnendedStep(last, d);
  }

  lemma NoLine(acc: seq<byte>, last: byte)
    ensures Unended(last, []) && acc + Strip([]) == acc
  {
  }

  /** The same for reads(): it takes all up to the first NUL, or to the end. */
  lemma {:induction false} TlsStringSplits(s: Session, limit: Option<nat>, nonblocking: bool, settle: nat,
        acc: seq<byte>) returns (d: seq<byte>)
    requires Closes(s, settle)
    ensures var l := TlsString(s, limit, nonblocking, settle, acc);
            && s.turn <= l.session.turn && l.session.turns == s.turns
            && Stream(s, l.session) == d + l.session.pending
            && match l.stop
               case Complete => d != [] && d[|d| - 1] == NUL && NUL !in d[..|d| - 1] && l.text == Some(acc + d)
               case PeerClosed =>
                 NUL !in d && l.session.pending == [] && l.text == if acc + d == [] then None else Some(acc + d)
               case Failure(_) => NUL !in d && l.session.pending == [] && l.text == None
    decreases settle + 1 - s.turn, |s.pending|
  {
    hide ReadByte, Stream;
    var o := ReadByte(s, limit, nonblocking, settle);
    ByteTaken(s, limit, nonblocking, settle);
    if o.rc > 0 {
      var c := o.bytes[0];
      assert o.bytes == [c];
      if c == NUL {
        d := [c];
      } else {
        var t := TlsStringSplits(o.session, limit, nonblocking, settle, acc + [c]);
        var l := TlsString(o.session, limit, nonblocking, settle, acc + [c]);
        StreamSplit(s, o.session, l.session, o.bytes);
        d := [c] + t;
        assert o.bytes + (t + l.session.pending) == d + l.session.pending;
        StringGrows(acc, c, t);
      }
    } else {
      d := [];
      assert acc + d == acc;
    }
  }

  lemma StringGrows(acc: seq<byte>, c: byte, t: seq<byte>)
    ensures acc + [c] + t == acc + ([c] + t)
    ensures t != [] ==> ([c] + t)[..|t|] == [c] + t[..|t| - 1] && ([c] + t)[|t|] == t[|t| - 1]
  {
  }

  /** Over TLS too, readline() waits at most one timeout more than the number of bytes it takes, on a
      descriptor that could be made non-blocking. */
  lemma {:induction false} TlsLineCost(s: Session, micros: nat, settle: nat, acc: seq<byte>, last: byte)
    returns (d: seq<byte>)
    requires Closes(s, settle)
    ensures var l := TlsLine(s, Some(micros), true, settle, acc, last);
            && s.turn <= l.session.turn && l.session.turns == s.turns
            && Stream(s, l.session) == d + l.session.pending
            && s.waited <= l.session.waited <= s.waited + (|d| + 1) * (micros * 1000)
    decreases settle + 1 - s.turn, |s.pending|
  {
    hide ReadByte, Stream;
    var time := micros * 1000;
    var o := ReadByte(s, Some(micros), true, settle);
    ByteTaken(s, Some(micros), true, settle);
    ByteCost(s, micros, settle);
    OneMore(0, time);
    d := o.bytes;
    if o.rc > 0 {
      var c := o.bytes[0];
      OneMore(1, time);
      if !(c == NUL || (c == LF && last == CR)) {
        var more := TlsLineCost(o.session, micros, settle, Kept(acc, c), c);
        var l := TlsLine(o.session, Some(micros), true, settle, Kept(acc, c), c);
        StreamSplit(s, o.session, l.session, o.bytes);
        d := o.bytes + more;
        assert o.bytes + (more + l.session.pending) == d + l.session.pending;
        OneMore(|more| + 1, time);
      }
    }
  }

  lemma ByteCost(s: Session, micros: nat, settle: nat)
    requires Closes(s, settle)
    ensures var o := ReadByte(s, Some(micros), true, settle);
            s.waited <= o.session.waited <= s.waited + micros * 1000
  {
    hide ReadLoop;
    ReadPunctual(s, 1, s.now + micros * 1000, 0);
  }

  // ---------------------------------------------------------------- the documented loop

  datatype Drained = Drained(lines: seq<seq<byte>>, stop: Stop, session: Session)

  /** while((line = socket.readline()) != NULL), until the peer has closed the session. */
  ghost function TlsDrain(s: Session, limit: Option<nat>, nonblocking: bool, settle: nat): Drained
    requires Closes(s, settle)
    decreases settle + 1 - s.turn, |s.pending|
  {
    var l := TlsLine(s, limit, nonblocking, settle, [], NUL);
    TlsLineGoesOn(s, limit, nonblocking, settle);
    if l.stop.Complete? then
      var more := TlsDrain(l.session, limit, nonblocking, settle);
      Drained([l.text.value] + more.lines, more.stop, more.session)
    else Drained(if l.text.None? then [] else [l.text.value], l.stop, l.session)
  }

  lemma TlsLineGoesOn(s: Session, limit: Option<nat>, nonblocking: bool, settle: nat)
    requires Closes(s, settle)
    ensures var l := TlsLine(s, limit, nonblocking, settle, [], NUL);
            && s.turn <= l.session.turn
            && (l.stop.Complete? ==> l.text.Some? && Closes(l.session, settle))
            && (l.stop.Complete? && l.session.turn == s.turn ==> |l.session.pending| < |s.pending|)
  {
    var _ := TlsLineSplits(s, limit, nonblocking, settle, [], NUL);
  }

  /** The lines read from a TLS session up to its close are those that a plain connection would give
      that delivers the decrypted stream and then ends.  Records, retries and renegotiations leave no
      trace in them. */
  lemma {:induction false} TlsDrainIsPlain(s: Session, limit: Option<nat>, nonblocking: bool, settle: nat, w: Wire,
        plain: Option<nat>, es: seq<Event>, rest: seq<Event>)
    requires Closes(s, settle) && TlsDrain(s, limit, nonblocking, settle).stop.PeerClosed?
    requires Prompt(es, Stream(s, TlsDrain(s, limit, nonblocking, settle).session), plain)
    requires w.inbox == es + rest && AtEnd(rest, plain)
    ensures TlsDrain(s, limit, nonblocking, settle).lines == Drain(w, plain).0
    decreases settle + 1 - s.turn, |s.pending|
  {
    hide Stream, Drain, TlsLine, AtEnd, OneLine, Unended, Strip;
    var l := TlsLine(s, limit, nonblocking, settle, [], NUL);
    var d := TlsLineSplits(s, limit, nonblocking, settle, [], NUL);
    var t := TlsDrain(s, limit, nonblocking, settle);
    var stream := Stream(s, t.session);
    assert [] + Strip(d) == Strip(d);
    if l.stop.Complete? {
      DrainEnds(l.session, limit, nonblocking, settle);
      StreamSplit(s, l.session, t.session, d);
      assert stream[..|d|] == d && stream[|d|..] == Stream(l.session, t.session);
      var next := DrainLine(w, plain, stream, |d|, es, rest);
      TlsDrainIsPlain(l.session, limit, nonblocking, settle, next, plain, es[|d|..], rest);
    } else {
      assert stream == d;
      DrainTail(w, plain, stream, es, rest);
    }
  }

  /** The loop ends with the session or with an error, and then nothing is left undelivered. */
  lemma {:induction false} DrainEnds(s: Session, limit: Option<nat>, nonblocking: bool, settle: nat)
    requires Closes(s, settle)
    ensures var t := TlsDrain(s, limit, nonblocking, settle);
            !t.stop.Complete? && t.session.pending == [] && s.turn <= t.session.turn
    decreases settle + 1 - s.turn, |s.pending|
  {
    var _ := TlsLineSplits(s, limit, nonblocking, settle, [], NUL);
    var l := TlsLine(s, limit, nonblocking, settle, [], NUL);
    if l.stop.Complete? {
      DrainEnds(l.session, limit, nonblocking, settle);
    }
  }

  /** A plain connection that delivers these bytes at once, and ends. */
  function Plainly(data: seq<byte>): Wire {
    Wire(seq(|data|, i requires 0 <= i < |data| => Byte(0, data[i])), [], [], 0)
  }

  // ---------------------------------------------------------------- sessions that the peer closes

  /** The peer closes the session at turn settle, cleanly or not; before that it delivers records and
      asks for more; and whatever turn one waits from, the next record or the closing comes in time. */
  ghost predicate Closing(s: Session, limit: Option<nat>, nonblocking: bool, settle: nat) {
    && s.turn <= settle && (s.turns(settle).answer.ZeroReturn? || s.turns(settle).answer.UncleanEof?)
    && (forall m :: s.turn <= m < settle ==> s.turns(m).answer.Done? || Wants(s.turns(m).answer))
    && (forall m :: s.turn <= m <= settle ==> !s.turns(m).broken)
    && (limit.Some? ==> nonblocking && forall from, k ::
          s.turn <= from <= k <= settle && OnlyWants(s.turns, from, k) ==>
            Elapsed(s.turns, from, k) + s.turns(k).quiet + 1000 <= limit.value * 1000)
  }

  /** The next turn that is not a request for more. */
  lemma {:induction false} NextAnswer(turns: Schedule, from: nat, settle: nat) returns (k: nat)
    requires from <= settle && !Wants(turns(settle).answer)
    ensures from <= k <= settle && !Wants(turns(k).answer) && OnlyWants(turns, from, k)
    decreases settle - from
  {
    if Wants(turns(from).answer) {
      k := NextAnswer(turns, from + 1, settle);
    } else {
      k := from;
    }
  }

  /** A byte read from such a session is there, or the session has been closed. */
  lemma ByteOrClose(s: Session, limit: Option<nat>, nonblocking: bool, settle: nat)
    requires Closing(s, limit, nonblocking, settle)
    ensures Closes(s, settle)
    ensures var o := ReadByte(s, limit, nonblocking, settle);
            && (o.rc > 0 ==> Closing(o.session, limit, nonblocking, settle))
            && (o.rc <= 0 ==> o.rc == 0 && o.reason == Some(PeerTerminated) && o.session.turn == settle + 1)
  {
    hide ReadLoop, Elapsed, Arrived;
    ByteTaken(s, limit, nonblocking, settle);
    if s.pending == [] {
      var k := NextAnswer(s.turns, s.turn, settle);
      ReadAnswered(s, 1, nonblocking, Comm.Waiting(s, limit, settle), k);
    } else {
      HeldByte(s, limit, nonblocking, settle);
    }
  }

  /** Decrypted bytes that OpenSSL holds are delivered at once. */
  lemma HeldByte(s: Session, limit: Option<nat>, nonblocking: bool, settle: nat)
    requires Closes(s, settle) && s.pending != []
    ensures ReadByte(s, limit, nonblocking, settle) == Outcome(1, s.pending[..1], None, s.(pending := s.pending[1..]))
  {
  }

  /** readline() and reads() end with a line or a NUL, or with the closing; never with an error. */
  lemma {:induction false} LineOrClose(s: Session, limit: Option<nat>, nonblocking: bool, settle: nat, acc: seq<byte>,
        last: byte)
    requires Closing(s, limit, nonblocking, settle)
    ensures Closes(s, settle)
    ensures var l := TlsLine(s, limit, nonblocking, settle, acc, last);
            && (l.stop.Complete? ==> Closing(l.session, limit, nonblocking, settle))
            && (!l.stop.Complete? ==> l.stop.PeerClosed? && l.session.turn == settle + 1)
    decreases settle + 1 - s.turn, |s.pending|
  {
    hide ReadByte, Closing;
    ByteOrClose(s, limit, nonblocking, settle);
    ByteTaken(s, limit, nonblocking, settle);
    var o := ReadByte(s, limit, nonblocking, settle);
    if o.rc > 0 {
      var c := o.bytes[0];
      if !(c == NUL || (c == LF && last == CR)) {
        LineOrClose(o.session, limit, nonblocking, settle, Kept(acc, c), c);
      }
    }
  }

  lemma {:induction false} StringOrClose(s: Session, limit: Option<nat>, nonblocking: bool, settle: nat,
        acc: seq<byte>)
    requires Closing(s, limit, nonblocking, settle)
    ensures Closes(s, settle)
    ensures var l := TlsString(s, limit, nonblocking, settle, acc);
            && (l.stop.Complete? ==> l.session.turn <= settle)
            && (!l.stop.Complete? ==> l.stop.PeerClosed? && l.session.turn == settle + 1)
    decreases settle + 1 - s.turn, |s.pending|
  {
    hide ReadByte, Closing;
    ByteOrClose(s, limit, nonblocking, settle);
    ByteTaken(s, limit, nonblocking, settle);
    var o := ReadByte(s, limit, nonblocking, settle);
    if o.rc > 0 {
      ClosingTurn(o.session, limit, nonblocking, settle);
    }
    if o.rc > 0 && o.bytes[0] != NUL {
      StringOrClose(o.session, limit, nonblocking, settle, acc + [o.bytes[0]]);
    }
  }

  lemma ClosingTurn(s: Session, limit: Option<nat>, nonblocking: bool, settle: nat)
    requires Closing(s, limit, nonblocking, settle)
    ensures s.turn <= settle
  {
  }

  /** reads() returns the whole of what such a session carries, if and only if no NUL stands in it before
      its last byte. */
  lemma TlsStringIsWholeIff(s: Session, limit: Option<nat>, nonblocking: bool, settle: nat)
    requires Closing(s, limit, nonblocking, settle)
    ensures Closes(s, settle)
    ensures var all := Plaintext(s, settle);
            && (all == [] ==> TlsString(s, limit, nonblocking, settle, []).text == None)
            && (all != [] ==> (TlsString(s, limit, nonblocking, settle, []).text == Some(all)
                               <==> NUL !in all[..|all| - 1]))
  {
    StringOrClose(s, limit, nonblocking, settle, []);
    hide TlsString, Stream, Plaintext;
    var l := TlsString(s, limit, nonblocking, settle, []);
    var d := TlsStringSplits(s, limit, nonblocking, settle, []);
    var all := Plaintext(s, settle);
    assert [] + d == d;
    if l.stop.Complete? {
      var end := s.(turn := settle + 1);
      PlaintextIsStream(s, end, settle);
      StreamSplit(s, l.session, end, d);
      CutAt(d, all);
    } else {
      PlaintextIsStream(s, l.session, settle);
      assert d + [] == d;
    }
  }

  lemma CutAt(d: seq<byte>, all: seq<byte>)
    requires d != [] && d[|d| - 1] == NUL && NUL !in d[..|d| - 1] && d <= all
    ensures all != [] && (d == all <==> NUL !in all[..|all| - 1])
  {
    if |d| < |all| {
      assert all[..|all| - 1][|d| - 1] == NUL;
    }
  }

  lemma {:induction false} DrainsToClose(s: Session, limit: Option<nat>, nonblocking: bool, settle: nat)
    requires Closing(s, limit, nonblocking, settle)
    ensures Closes(s, settle)
    ensures var t := TlsDrain(s, limit, nonblocking, settle);
            t.stop.PeerClosed? && t.session.turn == settle + 1
    decreases settle + 1 - s.turn, |s.pending|
  {
    hide TlsLine, Closing;
    LineOrClose(s, limit, nonblocking, settle, [], NUL);
    TlsLineGoesOn(s, limit, nonblocking, settle);
    var l := TlsLine(s, limit, nonblocking, settle, [], NUL);
    if l.stop.Complete? {
      DrainsToClose(l.session, limit, nonblocking, settle);
    }
  }

  /** All that the peer has sent before it closes the session, decrypted. */
  function Plaintext(s: Session, settle: nat): seq<byte>
    requires s.turn <= settle
  {
    s.pending + Arrived(s.turns, s.turn, settle)
  }

  lemma PlaintextIsStream(s: Session, s': Session, settle: nat)
    requires s.turn <= settle && !s.turns(settle).answer.Done? && s'.turn == settle + 1
    ensures Stream(s, s') == Plaintext(s, settle)
  {
    ArrivedSplit(s.turns, s.turn, settle, settle + 1);
    assert Arrived(s.turns, settle, settle + 1) == [];
  }

  /** Over a session that the peer closes in time, the loop ends with the closing and has then seen every
      decrypted byte once and in order, but for CR and LF; and lines sent with CRLF, with a last one that
      may lack it, are the lines it sees. */
  lemma TlsLinesRoundTrip(s: Session, limit: Option<nat>, nonblocking: bool, settle: nat, lines: seq<seq<byte>>,
        tail: seq<byte>)
    requires Closing(s, limit, nonblocking, settle)
    ensures Closes(s, settle)
    ensures var t := TlsDrain(s, limit, nonblocking, settle);
            && t.stop.PeerClosed? && t.session.pending == []
            && Flatten(t.lines) == Strip(Plaintext(s, settle))
            && ((forall i :: 0 <= i < |lines| ==> Clean(lines[i])) && Clean(tail)
                && Plaintext(s, settle) == Joined(lines) + tail
                ==> t.lines == lines + (if tail == [] then [] else [tail]))
  {
    DrainsToClose(s, limit, nonblocking, settle);
    hide TlsDrain, Stream, Drain, Strip, Plaintext;
    var t := TlsDrain(s, limit, nonblocking, settle);
    var stream := Stream(s, t.session);
    PlaintextIsStream(s, t.session, settle);
    var w := Plainly(stream);
    assert w.inbox == w.inbox + [];
    TlsDrainIsPlain(s, limit, nonblocking, settle, w, None, w.inbox, []);
    DrainConserves(w, None, stream, w.inbox, []);
    if (forall i :: 0 <= i < |lines| ==> Clean(lines[i])) && Clean(tail) && stream == Joined(lines) + tail {
      LinesRoundTrip(w, None, lines, tail, w.inbox, []);
    }
    DrainEnds(s, limit, nonblocking, settle);
  }
}
