/** readline() and reads() of src/socket_tcpclient.cpp, over a plain connection. */
module Lines {
  import opened Wire

  const NUL: byte := 0

  /** text is the value of d_readbuffer that is returned, None the null pointer. */
  datatype Line = Line(text: Option<seq<byte>>, wire: Wire)

  predicate Terminator(c: byte) {
    c == LF || c == CR
  }

  function Kept(acc: seq<byte>, c: byte): seq<byte> {
    if Terminator(c) then acc else acc + [c]
  }

  /** readline(), having kept acc of the line so far and last seen last. */
  function ReadLine(w: Wire, limit: Option<nat>, acc: seq<byte>, last: byte): Line
    decreases |w.inbox|
  {
    var r := Read(w, 1, limit);
    ReadOne(w, limit);
    if r.Rc() > 0 then
      var c := r.bytes[0];
      if c == NUL || (c == LF && last == CR) then Line(Some(Kept(acc, c)), r.wire)
      else ReadLine(r.wire, limit, Kept(acc, c), c)
    else if r.Rc() == 0 && acc != [] then Line(Some(acc), r.wire)
    else Line(None, r.wire)
  }

  /** reads(), having kept acc. */
  function ReadString(w: Wire, limit: Option<nat>, acc: seq<byte>): Line
    decreases |w.inbox|
  {
    var r := Read(w, 1, limit);
    ReadOne(w, limit);
    if r.Rc() > 0 then
      var c := r.bytes[0];
      if c == NUL then Line(Some(acc + [c]), r.wire) else ReadString(r.wire, limit, acc + [c])
    else if r.Rc() == 0 && acc != [] then Line(Some(acc), r.wire)
    else Line(None, r.wire)
  }

  // ---------------------------------------------------------------- one line

  /** A line ends at position i of s, if last came before s: at NUL, or at LF behind CR. */
  predicate EndsAt(last: byte, s: seq<byte>, i: nat)
    requires i < |s|
  {
    s[i] == NUL || (s[i] == LF && (if i > 0 then s[i - 1] else last) == CR)
  }

  predicate Unended(last: byte, s: seq<byte>) {
    forall i :: 0 <= i < |s| ==> !EndsAt(last, s, i)
  }

  /** s is one line with its terminator. */
  predicate OneLine(last: byte, s: seq<byte>) {
    s != [] && EndsAt(last, s, |s| - 1) && Unended(last, s[..|s| - 1])
  }

  function Strip(s: seq<byte>): seq<byte> {
    if s == [] then [] else (if Terminator(s[0]) then [] else [s[0]]) + Strip(s[1..])
  }

  lemma UnendedStep(last: byte, s: seq<byte>)
    requires s != []
    ensures Unended(last, s) <==> !EndsAt(last, s, 0) && Unended(s[0], s[1..])
  {
    var t := s[1..];
    forall i | 0 <= i < |t|
      ensures EndsAt(s[0], t, i) <==> EndsAt(last, s, i + 1)
    {
    }
    if Unended(s[0], t) && !EndsAt(last, s, 0) {
      forall i | 0 <= i < |s|
        ensures !EndsAt(last, s, i)
      {
        assert i > 0 ==> !EndsAt(s[0], t, i - 1);
      }
    }
  }

  lemma OneLineStep(last: byte, s: seq<byte>)
    requires s != []
    ensures OneLine(last, s) <==> if EndsAt(last, s, 0) then |s| == 1 else OneLine(s[0], s[1..])
  {
    if |s| > 1 {
      var t := s[1..];
      var front := s[..|s| - 1];
      UnendedStep(last, front);
      assert front[1..] == t[..|t| - 1];
      assert EndsAt(last, s, |s| - 1) <==> EndsAt(s[0], t, |t| - 1);
      assert EndsAt(last, front, 0) <==> EndsAt(last, s, 0);
    }
  }

  lemma KeptStrip(acc: seq<byte>, s: seq<byte>)
    requires s != []
    ensures Kept(acc, s[0]) + Strip(s[1..]) == acc + Strip(s)
  {
    if Terminator(s[0]) {
      assert Strip(s) == [] + Strip(s[1..]) == Strip(s[1..]);
    } else {
      assert acc + ([s[0]] + Strip(s[1..])) == acc + [s[0]] + Strip(s[1..]);
    }
  }

  /** Prompt bytes that make up one line: readline() returns it without CR and LF, and has consumed
      exactly the line. */
  lemma {:induction false} LineTaken(w: Wire, limit: Option<nat>, acc: seq<byte>, last: byte, s: seq<byte>,
        es: seq<Event>, rest: seq<Event>)
    requires w.inbox == es + rest && Prompt(es, s, limit) && OneLine(last, s)
    ensures var l := ReadLine(w, limit, acc, last);
            l.text == Some(acc + Strip(s)) && l.wire.inbox == rest
    decreases |s|
  {
    TakeOne(w, limit, s, es, rest);
    OneLineStep(last, s);
    KeptStrip(acc, s);
    var r := Read(w, 1, limit);
    if EndsAt(last, s, 0) {
      assert Kept(acc, s[0]) + [] == Kept(acc, s[0]);
      assert es[1..] + rest == rest;
    } else {
      LineTaken(r.wire, limit, Kept(acc, s[0]), s[0], s[1..], es[1..], rest);
    }
  }

  lemma TakeOne(w: Wire, limit: Option<nat>, s: seq<byte>, es: seq<Event>, rest: seq<Event>)
    requires w.inbox == es + rest && Prompt(es, s, limit) && s != []
    ensures var r := Read(w, 1, limit);
            r.Rc() == 1 && r.bytes == [s[0]] && r.wire.inbox == es[1..] + rest && Prompt(es[1..], s[1..], limit)
  {
    assert w.inbox == es[..1] + (es[1..] + rest);
    ReadPrompt(w, es[..1], es[1..] + rest, [s[0]], limit);
  }

  /** The stream ends here, in time. */
  predicate AtEnd(tail: seq<Event>, limit: Option<nat>) {
    tail == [] || (tail[0].Eof? && (limit.Some? ==> tail[0].after <= limit.value))
  }

  lemma EndStays(w: Wire, limit: Option<nat>)
    requires AtEnd(w.inbox, limit)
    ensures var r := Read(w, 1, limit); r.Rc() == 0 && AtEnd(r.wire.inbox, limit) && |r.wire.inbox| == |w.inbox|
  {
  }

  /** Without a line end before the end of the stream, what is left is the last line, or nothing. */
  lemma {:induction false} TailTaken(w: Wire, limit: Option<nat>, acc: seq<byte>, last: byte, s: seq<byte>,
        es: seq<Event>, rest: seq<Event>)
    requires w.inbox == es + rest && Prompt(es, s, limit) && Unended(last, s) && AtEnd(rest, limit)
    ensures var l := ReadLine(w, limit, acc, last);
            && l.text == (if acc + Strip(s) == [] then None else Some(acc + Strip(s)))
            && AtEnd(l.wire.inbox, limit)
    decreases |s|
  {
    if s == [] {
      assert w.inbox == rest && acc + Strip(s) == acc;
      EndStays(w, limit);
    } else {
      KeptStrip(acc, s);
      TakeOne(w, limit, s, es, rest);
      UnendedStep(last, s);
      TailTaken(Read(w, 1, limit).wire, limit, Kept(acc, s[0]), s[0], s[1..], es[1..], rest);
    }
  }

  /** Whatever the peer does, a line that is returned has consumed something, and readline() waits
      at most once more than the number of bytes it consumes. */
  lemma {:induction false} LineCost(w: Wire, limit: Option<nat>, acc: seq<byte>, last: byte)
    ensures var l := ReadLine(w, limit, acc, last);
            && |w.log| <= |l.wire.log| && |l.wire.inbox| <= |w.inbox|
            && (l.text.Some? ==> acc != [] || |l.wire.inbox| < |w.inbox|)
            && (limit.Some? ==> l.wire.waited <= w.waited + (|l.wire.log| - |w.log| + 1) * limit.value)
    decreases |w.inbox|
  {
    ReadOne(w, limit);
    var r := Read(w, 1, limit);
    if limit.Some? {
      OneMore(0, limit.value);
      OneMore(1, limit.value);
    }
    if r.Rc() > 0 {
      var c := r.bytes[0];
      if !(c == NUL || (c == LF && last == CR)) {
        LineCost(r.wire, limit, Kept(acc, c), c);
        if limit.Some? {
          OneMore(|ReadLine(w, limit, acc, last).wire.log| - |w.log|, limit.value);
        }
      }
    }
  }

  /** A read or timeout error loses the line: readline() returns the null pointer, not a part of it. */
  lemma {:induction false} ErrorLosesLine(w: Wire, limit: Option<nat>, acc: seq<byte>, last: byte, s: seq<byte>,
        es: seq<Event>, rest: seq<Event>)
    requires w.inbox == es + rest && Prompt(es, s, limit) && Unended(last, s)
    requires Fetch(w.(inbox := rest), limit).Failed?
    ensures ReadLine(w, limit, acc, last).text == None
    decreases |s|
  {
    if s == [] {
      assert w.inbox == rest;
    } else {
      TakeOne(w, limit, s, es, rest);
      UnendedStep(last, s);
      var r := Read(w, 1, limit);
      assert Fetch(r.wire.(inbox := rest), limit).Failed?;
      ErrorLosesLine(r.wire, limit, Kept(acc, s[0]), s[0], s[1..], es[1..], rest);
    }
  }

  // ---------------------------------------------------------------- the documented loop

  /** while((line = socket.readline()) != NULL): the lines it sees, for any behaviour of the peer. */
  function Drain(w: Wire, limit: Option<nat>): (seq<seq<byte>>, Wire)
    decreases |w.inbox|
  {
    var l := ReadLine(w, limit, [], NUL);
    LineCost(w, limit, [], NUL);
    if l.text.None? then ([], l.wire)
    else
      var (lines, w') := Drain(l.wire, limit);
      ([l.text.value] + lines, w')
  }

  function Flatten(lines: seq<seq<byte>>): seq<byte> {
    if lines == [] then [] else lines[0] + Flatten(lines[1..])
  }

  /** Every stream starts with a line, or is an unended tail. */
  lemma {:induction false} FirstLine(last: byte, s: seq<byte>) returns (n: nat)
    ensures n <= |s|
    ensures if n == 0 then Unended(last, s) else OneLine(last, s[..n])
    decreases |s|
  {
    if s == [] {
      n := 0;
    } else if EndsAt(last, s, 0) {
      n := 1;
      OneLineStep(last, s[..1]);
    } else {
      UnendedStep(last, s);
      var m := FirstLine(s[0], s[1..]);
      if m == 0 {
        n := 0;
      } else {
        n := m + 1;
        OneLineStep(last, s[..n]);
        assert s[..n][1..] == s[1..][..m];
      }
    }
  }

  lemma StripFirst(c: byte, s: seq<byte>)
    ensures Strip([c] + s) == (if Terminator(c) then [] else [c]) + Strip(s)
  {
    assert ([c] + s)[1..] == s;
  }

  lemma {:induction false} StripConcat(a: seq<byte>, b: seq<byte>)
    ensures Strip(a + b) == Strip(a) + Strip(b)
  {
    if a == [] {
      assert a + b == b;
    } else {
      StripConcat(a[1..], b);
      StripAfterFirst(a[0], a[1..], b);
      assert [a[0]] + a[1..] == a;
    }
  }

  lemma StripAfterFirst(c: byte, t: seq<byte>, b: seq<byte>)
    requires Strip(t + b) == Strip(t) + Strip(b)
    ensures Strip([c] + t + b) == Strip([c] + t) + Strip(b)
  {
    StripFirst(c, t);
    StripFirst(c, t + b);
    hide Strip;
    assert [c] + (t + b) == [c] + t + b;
  }

  lemma {:induction false} StripShorter(s: seq<byte>)
    ensures |Strip(s)| <= |s|
  {
    if s != [] {
      StripShorter(s[1..]);
    }
  }

  lemma DrainStep(w: Wire, limit: Option<nat>, text: seq<byte>)
    requires ReadLine(w, limit, [], NUL).text == Some(text)
    ensures var next := ReadLine(w, limit, [], NUL).wire;
            Drain(w, limit) == ([text] + Drain(next, limit).0, Drain(next, limit).1)
    ensures Flatten(Drain(w, limit).0) == text + Flatten(Drain(ReadLine(w, limit, [], NUL).wire, limit).0)
  {
    var next := ReadLine(w, limit, [], NUL).wire;
    assert ([text] + Drain(next, limit).0)[1..] == Drain(next, limit).0;
  }

  lemma DrainTail(w: Wire, limit: Option<nat>, s: seq<byte>, es: seq<Event>, rest: seq<Event>)
    requires w.inbox == es + rest && Prompt(es, s, limit) && AtEnd(rest, limit) && Unended(NUL, s)
    ensures Drain(w, limit).0 == (if Strip(s) == [] then [] else [Strip(s)])
    ensures AtEnd(Drain(w, limit).1.inbox, limit)
  {
    TailTaken(w, limit, [], NUL, s, es, rest);
    assert [] + Strip(s) == Strip(s);
    if Strip(s) != [] {
      DrainStep(w, limit, Strip(s));
      AtEndDrained(ReadLine(w, limit, [], NUL).wire, limit);
    }
  }

  /** The loop takes the first line off a stream. */
  lemma {:induction false} DrainLine(w: Wire, limit: Option<nat>, s: seq<byte>, n: nat, es: seq<Event>,
        rest: seq<Event>) returns (next: Wire)
    requires w.inbox == es + rest && Prompt(es, s, limit) && n <= |s| && OneLine(NUL, s[..n])
    ensures next.inbox == es[n..] + rest && Prompt(es[n..], s[n..], limit)
    ensures Drain(w, limit) == ([Strip(s[..n])] + Drain(next, limit).0, Drain(next, limit).1)
    ensures Flatten(Drain(w, limit).0) == Strip(s[..n]) + Flatten(Drain(next, limit).0)
  {
    assert w.inbox == es[..n] + (es[n..] + rest);
    LineTaken(w, limit, [], NUL, s[..n], es[..n], es[n..] + rest);
    assert [] + Strip(s[..n]) == Strip(s[..n]);
    DrainStep(w, limit, Strip(s[..n]));
    next := ReadLine(w, limit, [], NUL).wire;
  }

  /** On a stream that ends without an error the loop sees every byte once and in order, but for CR
      and LF; it ends after at most as many lines as there are bytes, with the stream drained. */
  lemma {:induction false} DrainConserves(w: Wire, limit: Option<nat>, s: seq<byte>, es: seq<Event>, rest: seq<Event>)
    requires w.inbox == es + rest && Prompt(es, s, limit) && AtEnd(rest, limit)
    ensures Flatten(Drain(w, limit).0) == Strip(s)
    ensures |Drain(w, limit).0| <= |s| && AtEnd(Drain(w, limit).1.inbox, limit)
    decreases |s|
  {
    hide Drain, OneLine, Unended, EndsAt;
    var n := FirstLine(NUL, s);
    if n == 0 {
      DrainTail(w, limit, s, es, rest);
      StripShorter(s);
      assert Strip(s) != [] ==> Flatten([Strip(s)]) == Strip(s) + Flatten([]);
    } else {
      var next := DrainLine(w, limit, s, n, es, rest);
      DrainConserves(next, limit, s[n..], es[n..], rest);
      StripConcat(s[..n], s[n..]);
      assert s[..n] + s[n..] == s;
    }
  }

  /** At the end of the stream readline() and reads() return the null pointer, now and ever after. */
  lemma AtEndDrained(w: Wire, limit: Option<nat>)
    requires AtEnd(w.inbox, limit)
    ensures ReadLine(w, limit, [], NUL).text == None && AtEnd(ReadLine(w, limit, [], NUL).wire.inbox, limit)
    ensures Drain(w, limit).0 == [] && AtEnd(Drain(w, limit).1.inbox, limit)
    ensures ReadString(w, limit, []).text == None && AtEnd(ReadString(w, limit, []).wire.inbox, limit)
  {
    EndStays(w, limit);
  }

  // ---------------------------------------------------------------- the round trip

  predicate Clean(s: seq<byte>) {
    forall i :: 0 <= i < |s| ==> s[i] != CR && s[i] != LF && s[i] != NUL
  }

  function Joined(lines: seq<seq<byte>>): seq<byte> {
    if lines == [] then [] else lines[0] + [CR, LF] + Joined(lines[1..])
  }

  lemma {:induction false} StripClean(s: seq<byte>)
    requires Clean(s)
    ensures Strip(s) == s
  {
    if s != [] {
      StripClean(s[1..]);
    }
  }

  lemma CleanLine(t: seq<byte>)
    requires Clean(t)
    ensures OneLine(NUL, t + [CR, LF]) && Strip(t + [CR, LF]) == t && Unended(NUL, t)
  {
    StripClean(t);
    StripConcat(t, [CR, LF]);
    assert Strip([CR, LF]) == [] by {
      assert [CR, LF][1..] == [LF];
      assert Strip([LF]) == Strip([]);
    }
    var s := t + [CR, LF];
    assert s[..|s| - 1] == t + [CR];
  }

  /** Lines sent with CRLF, and a last one that may lack it, are what the loop sees: these lines, in
      this order, and then the null pointer. */
  lemma {:induction false} LinesRoundTrip(w: Wire, limit: Option<nat>, lines: seq<seq<byte>>, tail: seq<byte>,
        es: seq<Event>, rest: seq<Event>)
    requires (forall i :: 0 <= i < |lines| ==> Clean(lines[i])) && Clean(tail)
    requires w.inbox == es + rest && Prompt(es, Joined(lines) + tail, limit) && AtEnd(rest, limit)
    ensures Drain(w, limit).0 == lines + (if tail == [] then [] else [tail])
    ensures AtEnd(Drain(w, limit).1.inbox, limit)
    decreases |lines|
  {
    hide Drain, OneLine, Unended, Strip;
    var s := Joined(lines) + tail;
    if lines == [] {
      assert s == tail;
      CleanLine(tail);
      StripClean(tail);
      DrainTail(w, limit, tail, es, rest);
    } else {
      var first := lines[0] + [CR, LF];
      var n := |first|;
      assert s == first + (Joined(lines[1..]) + tail);
      assert s[..n] == first && s[n..] == Joined(lines[1..]) + tail;
      CleanLine(lines[0]);
      var next := DrainLine(w, limit, s, n, es, rest);
      LinesRoundTrip(next, limit, lines[1..], tail, es[n..], rest);
      assert lines == [lines[0]] + lines[1..];
    }
  }

  // ---------------------------------------------------------------- reads()

  /** reads() returns everything up to the first NUL, that included, or all that is left. */
  lemma {:induction false} StringTaken(w: Wire, limit: Option<nat>, acc: seq<byte>, s: seq<byte>, es: seq<Event>,
        rest: seq<Event>)
    requires w.inbox == es + rest && Prompt(es, s, limit) && s != []
    requires NUL !in s[..|s| - 1] && (s[|s| - 1] == NUL || AtEnd(rest, limit))
    ensures var l := ReadString(w, limit, acc);
            && l.text == Some(acc + s)
            && (s[|s| - 1] == NUL ==> l.wire.inbox == rest)
            && (s[|s| - 1] != NUL ==> AtEnd(l.wire.inbox, limit))
    decreases |s|
  {
    TakeOne(w, limit, s, es, rest);
    var r := Read(w, 1, limit);
    assert acc + [s[0]] + s[1..] == acc + s;
    if |s| == 1 {
      assert es[1..] + rest == rest;
      assert acc + s == acc + [s[0]];
      if s[0] != NUL {
        EndStays(r.wire, limit);
      }
    } else {
      assert s[0] == s[..|s| - 1][0];
      assert s[1..][..|s| - 2] == s[..|s| - 1][1..];
      StringTaken(r.wire, limit, acc + [s[0]], s[1..], es[1..], rest);
    }
  }

  /** The first NUL of a stream cuts it. */
  lemma StringCut(w: Wire, limit: Option<nat>, s: seq<byte>, n: nat, es: seq<Event>, rest: seq<Event>)
    requires w.inbox == es + rest && Prompt(es, s, limit) && n < |s| && s[n] == NUL && NUL !in s[..n]
    ensures ReadString(w, limit, []).text == Some(s[..n + 1])
    ensures ReadString(w, limit, []).wire.inbox == es[n + 1..] + rest
  {
    hide ReadString;
    var front := s[..n + 1];
    assert w.inbox == es[..n + 1] + (es[n + 1..] + rest);
    assert front[..n] == s[..n] && [] + front == front;
    StringTaken(w, limit, [], front, es[..n + 1], es[n + 1..] + rest);
  }

  lemma StringWhole(w: Wire, limit: Option<nat>, s: seq<byte>, es: seq<Event>, rest: seq<Event>)
    requires w.inbox == es + rest && Prompt(es, s, limit) && AtEnd(rest, limit) && s != []
    requires NUL !in s[..|s| - 1]
    ensures ReadString(w, limit, []).text == Some(s)
  {
    StringTaken(w, limit, [], s, es, rest);
    assert [] + s == s;
  }

  /** The documentation says that reads() reads until the peer closes the connection.  It returns the
      whole of a stream if and only if no NUL stands in it before its last byte. */
  lemma {:induction false} StringIsWholeIff(w: Wire, limit: Option<nat>, s: seq<byte>, es: seq<Event>, rest: seq<Event>)
    requires w.inbox == es + rest && Prompt(es, s, limit) && AtEnd(rest, limit) && s != []
    ensures ReadString(w, limit, []).text == Some(s) <==> NUL !in s[..|s| - 1]
  {
    hide ReadString, Prompt, First;
    if NUL in s[..|s| - 1] {
      var n := First(s, NUL);
      assert s[..n + 1] != s;
      StringCut(w, limit, s, n, es, rest);
    } else {
      StringWhole(w, limit, s, es, rest);
    }
  }

  /** One NUL in front of anything is enough: the rest is not read. */
  lemma NulCutsString(c: byte)
    ensures var w := Wire([Byte(0, NUL), Byte(0, c)], [], [], 0);
            ReadString(w, None, []) == Line(Some([NUL]), Wire([Byte(0, c)], [], [Got(NUL)], 0))
  {
    var w := Wire([Byte(0, NUL), Byte(0, c)], [], [], 0);
    FetchDelivers(w, None);
    assert w.inbox[1..] == [Byte(0, c)] && w.log + [Got(NUL)] == [Got(NUL)];
    assert Read(Fetch(w, None).wire, 0, None).bytes == [];
    assert Read(w, 1, None).bytes == [NUL];
    assert [] + [NUL] == [NUL];
  }
}
