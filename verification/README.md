# RudeSocket, verified in Dafny

RudeSocket is a C++ client socket library: it connects (with a timeout, through a chain of SOCKS5 and
HTTP proxies), upgrades connections to TLS, reads lines, and cleans up.  This project models its
connection protocol code and proves what that code keeps to over every behaviour of the peer, the
kernel and OpenSSL.

`dafny verify dfyconfig.toml` checks everything.

## How it is built

The outside world is data.  A `Wire` is a script of what a peer sends and when, and of how much each
`send()` takes; a `Session` is a schedule of OpenSSL's answers and of the time around them; `Os` is a
descriptor table with never-reused identities and a log of what happened to them; `Dial.World` says
how an attempt to connect to any host and port turns out.  The theorems quantify over all of them.

For every operation there is a function on these values, and an imperative method, in the form of the
C++ code - fields, buffers, loops, early returns - whose contract ties its result and the new state to
that function.  The theorems are lemmas about the functions, and they describe what an operation does
by its effects: the bytes on the wire as their receiver decodes them, the time spent, the descriptors
left open, the error by what was heard.

| file | models |
|---|---|
| `Wire.dfy` | `select`, `recv`, `send` on one descriptor, and the per-byte loops over them |
| `Tls.dfy` | the three deadline loops over TLS |
| `Comm.dfy` | the comm object, plain or TLS: bind, finish, send, read, `NonBlockingScope` |
| `Socks5.dfy`, `Socks5Agreement.dfy`, `Socks5Hop.dfy` | the SOCKS5 hop, its server, and the code over `d_buffer` |
| `HttpProxy.dfy`, `HttpProxyHop.dfy` | the HTTP CONNECT hop |
| `Os.dfy`, `Dial.dfy`, `DialHop.dfy` | descriptors and modes; the first connection, timed or not |
| `Chain.dfy`, `ChainAlignment.dfy`, `ChainSpeech.dfy`, `Connection.dfy` | the walk over the hops, what they hear and what they say, and the hop objects |
| `Lines.dfy`, `TlsLines.dfy` | `readline()`, `reads()` and the documented loop, in the clear and over TLS |
| `Lifecycle.dfy`, `LifecycleTheorems.dfy`, `Client.dfy` | whole runs of one socket, and the socket object |
| `ProxiedRuns.dfy` | runs through proxies, from the inserts to the destination's lines |

## Where the code and its documentation differ

The model follows the code.

- README.md:149-151 and src/socket.h:221-230 say that proxies are followed in the order of insertion.
  Each insert goes in front (src/rude_socketimpl.cpp:170-173), so the order is the reverse:
  `LifecycleTheorems.ProxiesDialledInReverse`, `Chain.InsertionOrderIff`, `Chain.TwoProxiesSwapped`.
- NEWS:65-69 says that a failed bind leaves the comm unbound.  It does exactly when the comm was
  unbound and was given no descriptor (src/socket_comm.cpp:118-125): `Comm.FailedBindUnboundIff`.  After a
  failed virtualbind it stays bound (src/socket_comm.cpp:127-135): `Comm.FailedBindsStayBound` has two
  such binds, and `Comm.BindFailsIff` says when bind fails at all.
- README.md:141 says that `reads()` reads until the peer closes; it also stops behind a NUL
  (src/socket_tcpclient.cpp:237-240).  It returns the whole stream exactly when no NUL stands before
  the last byte: `Lines.StringIsWholeIff`, with `Lines.NulCutsString` as an instance.
- A reply whose bound address is a domain name of 128 bytes or more is not skipped, because the length
  byte is a signed `char` (src/socket_connect_socks5.cpp:307-308): `Socks5.HandshakeAlignedIff` gives the exact
  condition and `Socks5.LongBoundNameMisaligns` an instance.
- src/socket_tcpclient.cpp:439-446 closes the descriptor of a failed upgrade under the comm object,
  so OpenSSL's shutdown comes too late: `LifecycleTheorems.LateShutdownIff` says exactly when, and
  `LifecycleTheorems.LateShutdownRun` is such a run.
- NEWS:18-20 says that the destructor releases the descriptor.  It releases the one that the socket
  holds; one that a connect over it has replaced (src/socket_connect_normal.cpp:346) stays open:
  `LifecycleTheorems.NoneOpenAfterDestroy` says exactly which runs leak, `LifecycleTheorems.ReconnectLeaks`
  is one.

## Model

| member | source | states |
|---|---|---|
| Wire.ReadExact | src/socket_comm_normal.cpp:186-272 | a read is positive exactly when all n bytes stand in the stream in time; then the buffer holds these and the stream goes on behind them |
| Wire.ReadPrompt | src/socket_comm_normal.cpp:197-271 | prompt bytes at the head of the stream are delivered exactly, whatever stands behind them |
| Wire.ReadTakes | src/socket_comm_normal.cpp:197-271 | conversely a complete read has consumed exactly n prompt bytes |
| Wire.ReadWait | src/socket_comm_normal.cpp:199-252 | a timed read of n bytes waits at most n times the timeout |
| Wire.FetchDelivers | src/socket_comm_normal.cpp:199-269 | one turn of the read loop yields a byte only if it is next and in time, and takes nothing else |
| Wire.SendTimedExact | src/socket_comm_normal.cpp:75-145 | a non-negative result n of a timed send means data[..n] went out; an error lets only a prefix through |
| Wire.SendTimedWait | src/socket_comm_normal.cpp:77-121 | a timed send waits at most its length times the timeout |
| Wire.SendExact | src/socket_comm_normal.cpp:65-164 | the same for both ways of sending, partial sends included |
| Wire.ReadCut | src/socket_comm_normal.cpp:199-269 | a read cut short behind any number of bytes: a late event is a timeout, the end of the stream gives 0, and each failing call its own error |
| Wire.SendCut | src/socket_comm_normal.cpp:75-145 | a timed send cut short: a late grant reports the bytes that are out already, anything else is an error, with its reason |
| Wire.SendWhole | src/socket_comm_normal.cpp:75-145 | a timed send for which there is room in time sends all |
| Wire.SendAtOnce | src/socket_comm_normal.cpp:146-163 | an untimed send makes one call and returns what it took |
| Comm.Comm.FetchOne | src/socket_comm_normal.cpp:199-269 | one turn of the read loop as code: result, error and stream |
| Comm.Comm.PlainRead | src/socket_comm_normal.cpp:186-272 | the read loop: return code, buffer contents, error and stream are those of the specification |
| Comm.Comm.PushOne | src/socket_comm_normal.cpp:79-143 | one turn of the timed send loop |
| Comm.Comm.PlainSend | src/socket_comm_normal.cpp:65-164 | virtualsend, timed and untimed |
| Tls.ReadPunctual | src/socket_comm_ssh.cpp:474-594 | a timed TLS read waits no longer than to its deadline, reports a timeout less than 1 microsecond early, and ends by the deadline plus one turn's processing |
| Tls.WritePunctual | src/socket_comm_ssh.cpp:226-321 | the same for a timed TLS send |
| Tls.HandshakePunctual | src/socket_comm_ssh.cpp:418-469 | the same for the handshake |
| Tls.AwaitPunctual | src/socket_comm_ssh.cpp:85-96 | select with the remaining whole microseconds stops at or before the deadline, and less than 1 microsecond before it |
| Tls.BlockingReadOverstays | src/socket_comm_ssh.cpp:98-109 | why the descriptor must be non-blocking: otherwise a read can overstay its deadline by any amount |
| Tls.ReadReturns | src/socket_comm_ssh.cpp:548-593 | a TLS read returns that many bytes or a reason, never both, and 0 only for the end of the stream |
| Tls.ReadConserves | src/socket_comm_ssh.cpp:500-593 | no decrypted byte is lost, repeated or reordered, on any exit of the loop |
| Tls.ReadDelivers | src/socket_comm_ssh.cpp:500-578 | a record ready a microsecond before the deadline is delivered, however many empty records and renegotiations precede it |
| Tls.WriteOnce | src/socket_comm_ssh.cpp:247-320 | data is handed to OpenSSL once; the call is repeated only while OpenSSL asks for more, and after an error nothing was accepted |
| Tls.HandshakeDecided | src/socket_comm_ssh.cpp:426-469 | the handshake succeeds exactly when OpenSSL says so after asking only for patience; without a timeout it is a single call |
| Tls.ReadAnswered | src/socket_comm_ssh.cpp:500-593 | after any number of requests for more, the answer decides a read: a record delivers its first bytes, the peer's closing (clean or not) is 0 and the end of the stream, anything else an error |
| Tls.WriteAnswered | src/socket_comm_ssh.cpp:247-320 | likewise a send: the count accepted, or which error |
| Tls.HandshakeAnswered | src/socket_comm_ssh.cpp:426-471 | likewise the handshake, which without a timeout takes the first answer for the last |
| Tls.OverdueTimesOut | src/socket_comm_ssh.cpp:243-284 | a peer that falls silent runs a read and a send into the timeout |
| Tls.HandshakeTimesOut | src/socket_comm_ssh.cpp:440-468 | and a handshake |
| Comm.TlsReadKeepsTimeout | src/socket_comm_ssh.cpp:482-546 | a timed read through NonBlockingScope keeps the configured timeout |
| Comm.TlsSendKeepsTimeout | src/socket_comm_ssh.cpp:234-284 | a timed send through NonBlockingScope keeps the configured timeout |
| Comm.ShakeKeepsTimeout | src/socket_comm_ssh.cpp:412-469 | a timed handshake through NonBlockingScope keeps the configured timeout |
| Comm.ScopeRestoresMode | src/socket_comm_ssh.cpp:110-165 | the mode is put back, except exactly when it was changed and the restoring call failed |
| Comm.BindFailsIff | src/socket_comm.cpp:107-137 | bind fails exactly when the comm is bound, there is no descriptor, or, for TLS, an OpenSSL object cannot be made or the handshake is not completed |
| Comm.FailedBindUnboundIff | src/socket_comm.cpp:107-137 | the documented "a failed bind leaves the comm unbound" holds if and only if it was unbound and got no descriptor; otherwise the comm is bound afterwards and finish works |
| Comm.FailedBindsStayBound | src/socket_comm.cpp:127-135 | two binds that fail and leave the comm bound: without a context, and with a refused handshake, which leaves both TLS objects |
| Comm.BindReports | src/socket_comm.cpp:107-137 | which error a failed bind reports, both ways |
| Comm.BindSession | src/socket_comm_ssh.cpp:346-472 | a completed handshake has taken the answers up to the one that completed it and no decrypted byte; without a handshake none is taken |
| Comm.CompletesByAnswer | src/socket_comm_ssh.cpp:412-471 | whether the handshake completes, by the first answer that is not a request for more |
| Comm.SendReports | src/socket_comm.cpp:159-170 | what send returns: in the clear the bytes that went out, through TLS the bytes accepted in the one answer that was not a request for more; and when it reports that there is no connection or no session |
| Comm.ReadReports | src/socket_comm.cpp:175-186 | what read returns, likewise, with the bytes delivered |
| Comm.TransfersKeepTimeout | src/socket_comm.cpp:159-186 | how long a send and a read can take with a timeout of so many seconds and microseconds |
| Comm.Comm.TlsReadTurn | src/socket_comm_ssh.cpp:500-593 | one turn of the TLS read loop, with the measure that makes the loop end |
| Comm.Comm.TlsReadLoop | src/socket_comm_ssh.cpp:500-593 | the TLS read loop computes the specified outcome and buffer |
| Comm.Comm.TlsReadCall | src/socket_comm_ssh.cpp:474-594 | virtualread over TLS, mode changes included |
| Comm.Comm.TlsWriteLoop | src/socket_comm_ssh.cpp:247-320 | the TLS send loop computes the specified outcome |
| Comm.Comm.TlsSendCall | src/socket_comm_ssh.cpp:226-321 | virtualsend over TLS, mode changes included |
| Comm.Comm.ShakeLoop | src/socket_comm_ssh.cpp:426-471 | the handshake loop computes the specified outcome |
| Comm.Comm.TlsBindCall | src/socket_comm_ssh.cpp:346-472 | virtualbind: which TLS objects exist after each failure, and the handshake |
| Comm.Comm.BindTo | src/socket_comm.cpp:107-137 | bind: refused when bound or without a descriptor, else bound and virtualbind |
| Comm.Comm.FinishUp | src/socket_comm.cpp:145-154 | finish: unbinds and frees each TLS object once |
| Comm.Comm.SendData | src/socket_comm.cpp:159-170 | send goes to the bound descriptor, in the clear or through TLS, and nowhere when unbound |
| Comm.Comm.ReadData | src/socket_comm.cpp:175-186 | read, likewise |
| Socks5.HandshakeAlignedIff | src/socket_connect_socks5.cpp:70-350 | against a prompt RFC 1928 server: success exactly if granted, else the server's reason; on success exactly the server's bytes are consumed if and only if the bound name is shorter than 128 bytes |
| Socks5.LongBoundNameMisaligns | src/socket_connect_socks5.cpp:305-309 | a granted session with a bound name of 128 bytes leaves bytes behind |
| Socks5.GreetingTurnedDown | src/socket_connect_socks5.cpp:149-163 | a bad version or refused methods end the handshake, with that error, after the greeting alone |
| Socks5.ReplyTakes | src/socket_connect_socks5.cpp:274-349 | how much of a reply is consumed for each address type, and the verdict |
| Socks5.HandshakeSpends | src/socket_connect_socks5.cpp:101-349 | the handshake waits at most one timeout for each byte in or out, and for nine that do not come or go |
| Socks5.HandshakeInTime | src/socket_connect_socks5.cpp:140-321 | against any peer, the bytes that success rests on stood at the head of the stream, each within the timeout; then the bound address is read past |
| Socks5.LateAnswerFails | src/socket_connect_socks5.cpp:102-147 | so an answer that comes late makes the hop fail |
| Socks5.HandshakeRefuses | src/socket_connect_socks5.cpp:75-97 | without a port, a host or a connection the hop says which is missing and sends nothing |
| Socks5Agreement.Agreement | src/socket_connect_socks5.cpp:112-349 | if the client reports success then any conforming server has decoded exactly its host and port and credentials and has granted the request, under any fragmentation, interleaving and partial send |
| Socks5Agreement.HandshakeExtends | src/socket_connect_socks5.cpp:112-349 | a successful handshake only adds to the log of sends and receipts |
| Socks5Agreement.SuccessWasSaid | src/socket_connect_socks5.cpp:140-321 | against any peer at all, success means that version 5, a method, status 0 and reply code 0 were received |
| Socks5Agreement.HandshakeSays | src/socket_connect_socks5.cpp:112-256 | whatever the server answers and however the handshake ends: what is sent decodes to the greeting, the hop's own credentials if and only if asked for, the host and the port if and only if let through, and nothing else |
| Socks5Agreement.HandshakeDiagnosed | src/socket_connect_socks5.cpp:126-349 | outcome and error of every handshake, by the bytes heard in it, whatever obstructs it |
| Socks5Agreement.AuthRoundTrip | src/socket_connect_socks5.cpp:173-187 | within 197 bytes of credentials the message fits d_buffer, an RFC 1929 decoder recovers both, and no part of the message decodes |
| Socks5Agreement.RequestRoundTrip | src/socket_connect_socks5.cpp:230-248 | within 193 bytes of host the request fits d_buffer and decodes to the host and the port modulo 65536, exact up to 65535; no part of it decodes |
| Socks5Agreement.AnsweredGreeting | src/socket_connect_socks5.cpp:126-163 | a server that has answered has seen the whole greeting, and chose one of the methods offered |
| Socks5Agreement.AnsweredAuth | src/socket_connect_socks5.cpp:192-221 | a server that has accepted credentials has seen all of them |
| Socks5Agreement.AnsweredRequest | src/socket_connect_socks5.cpp:251-321 | a server that has granted a request has seen all of it |
| Socks5Hop.BuildAuth | src/socket_connect_socks5.cpp:173-187 | the in-place builder writes the RFC 1929 message and stays inside the buffer |
| Socks5Hop.BuildRequest | src/socket_connect_socks5.cpp:230-248 | the in-place builder writes the RFC 1928 request and stays inside the buffer |
| Socks5Hop.SkipBoundAddress | src/socket_connect_socks5.cpp:301-314 | the unchecked reads past the bound address, stale length byte included |
| Socks5Hop.AwaitAnswer | src/socket_connect_socks5.cpp:274-349 | step 4 over the shared buffer, with the reply code saved before it is overwritten |
| Socks5Hop.SendInstructions | src/socket_connect_socks5.cpp:224-256 | step 3 |
| Socks5Hop.SendCredentials | src/socket_connect_socks5.cpp:168-222 | username/password authentication |
| Socks5Hop.SimpleConnect | src/socket_connect_socks5.cpp:70-350 | the whole hop, over a comm object of its own that it binds to the caller's descriptor, computes the specified result, error and streams |
| HttpProxy.TunnelAligned | src/socket_connect_proxy.cpp:69-203 | against a prompt header section: success exactly on a 2xx status, and then exactly the header section is consumed |
| HttpProxy.TunnelConsumes | src/socket_connect_proxy.cpp:125-202 | on any input, a successful hop has consumed the status and the bytes to the first LF at distance two from another |
| HttpProxy.ScanTakes | src/socket_connect_proxy.cpp:173-200 | the two-character-history loop stops at the first such LF |
| HttpProxy.ScanTook | src/socket_connect_proxy.cpp:173-200 | and only there |
| HttpProxy.StopIsBlankLine | src/socket_connect_proxy.cpp:173-195 | where every LF follows a CR, the loop's stop is the end of a CRLF CRLF: never early, never late |
| HttpProxy.HeaderSectionStops | src/socket_connect_proxy.cpp:173-195 | the first stop is the end of the header section, in both directions |
| HttpProxy.BareLineFeedsStopEarly | src/socket_connect_proxy.cpp:185-194 | with two bare LFs around one character behind any accepted status the hop reports success in the middle of the headers, and the rest of them is left in the stream |
| HttpProxy.BareBlankLineMissed | src/socket_connect_proxy.cpp:176-202 | a header section that ends with bare LFs is not recognised: the hop fails at the end of the stream |
| HttpProxy.ConnectRoundTrip | src/socket_connect_proxy.cpp:95-108 | the request is never truncated, and parsing it at the last colon gives back host and port |
| HttpProxy.TunnelAsks | src/socket_connect_proxy.cpp:95-123 | what the hop sends is the beginning of a message, and unless obstructed the whole of one, that parses to exactly the host and the port it was called with |
| HttpProxy.TunnelAgreement | src/socket_connect_proxy.cpp:95-202 | if the hop succeeds then a proxy that answers only whole requests has read exactly that host and port, under any fragmentation and partial send |
| HttpProxy.PartOfRequest | src/socket_connect_proxy.cpp:104-106 | no part of the request parses |
| HttpProxy.TunnelSpends | src/socket_connect_proxy.cpp:69-203 | the hop waits at most one timeout for each byte in or out, and for three that do not come or go |
| HttpProxy.TunnelDiagnosed | src/socket_connect_proxy.cpp:108-202 | outcome and error of the hop, by the bytes heard in it, whatever obstructs it |
| HttpProxy.TunnelRefuses | src/socket_connect_proxy.cpp:75-92 | without a port, a host or a connection the hop says which is missing and sends nothing |
| HttpProxy.PrintedInFull | src/socket_connect_proxy.cpp:104-106 | len + 200 characters hold the request for every int port |
| HttpProxyHop.ScanHeaders | src/socket_connect_proxy.cpp:176-200 | the loop with lastchar and seclastchar computes the specified scan |
| HttpProxyHop.SimpleConnect | src/socket_connect_proxy.cpp:69-203 | the whole hop, over a comm object of its own that it binds to the caller's descriptor, computes the specified result, error and streams |
| Dial.TimedRefinesPlain | src/socket_connect_normal.cpp:208-315 | when its helper calls work, the timed connect has the result and errno of the plain one, or reports the timeout, which it does exactly when the attempt outlasts it; the mode is restored |
| Dial.PendingNeverPublished | src/socket_connect_normal.cpp:193-315 | whatever fails, the in-progress code is never the published reason |
| Dial.TimeoutOnlyAddsTimeout | src/socket_connect_normal.cpp:324-438 | setting a timeout changes nothing about connecting but the distinct timeout error, exactly when the attempt is late; when the untimed connect succeeds, and with which error it fails |
| Dial.TimedConnectDecided | src/socket_connect_normal.cpp:208-315 | whatever fails: exactly when the timed connect succeeds and when it reports the timeout, and otherwise whose code it reports |
| Dial.AttemptDecides | src/socket_connect_normal.cpp:404-436 | the error of a connect, by the attempt and the time set |
| Dial.DialReports | src/socket_connect_normal.cpp:328-403 | which error is reported before it comes to connecting, both ways |
| Dial.TimeValWithinMillisecond | src/socket_connect_normal.cpp:247-248 | the timeval is normalised and less than a millisecond short; the connect is untimed exactly below one millisecond |
| Dial.DescriptorHandedOverOrClosed | src/socket_connect_normal.cpp:346-437 | the fresh descriptor is the caller's exactly on success, and otherwise closed once; descriptor 0 is lost |
| Dial.DialledIsBlocking | src/socket_connect_normal.cpp:302-312 | a descriptor handed over is in blocking mode, even if restoring the mode can fail |
| DialHop.SwitchMode | src/socket_connect_normal.cpp:103-117 | setNonBlocking and its effect on mode and errno |
| DialHop.ConnectTimeout | src/socket_connect_normal.cpp:208-315 | connecttimeout computes the specified result, errno and mode |
| DialHop.CloseSocket | src/socket_connect_normal.cpp:176-185 | closes without disturbing the pending error, whatever close() leaves in errno |
| DialHop.DialOut | src/socket_connect_normal.cpp:324-438 | simpleConnect of the normal hop |
| Chain.WalkFollowsPlan | src/socket_connect.cpp:117-139 | the hops are called in order, each to the next; all but the last called succeed and hand their line on; none is skipped, repeated or tried after a failure; the failing hop's error reaches the root unchanged |
| Chain.DialledInReverse | src/rude_socketimpl.cpp:162-241 | the plan for inserted proxies p1 ... pn is pn, ..., p1, destination |
| Chain.InsertionOrderIff | src/rude_socketimpl.cpp:162-241 | that is the order of insertion exactly for lists that read the same backwards |
| Chain.TwoProxiesSwapped | src/rude_socketimpl.cpp:205-222 | two proxies are dialled in the opposite order |
| ChainAlignment.HopAligned | src/socket_connect.cpp:117-139 | every kind of in-band hop consumes exactly its own answer |
| ChainAlignment.ChainAligned | src/socket_connect.cpp:117-139 | for chains of any length: success exactly if all far sides admit the client, and then the bytes consumed are exactly the concatenation of their answers |
| ChainSpeech.WalkSpeaks | src/socket_connect.cpp:117-139 | chains of any length, any answers, any outcome: every hop called tells its proxy the host and port of its own call, and its own credentials if asked for; normal hops and tunnels say nothing |
| ChainSpeech.WalkAgrees | src/socket_connect.cpp:117-139 | if connect succeeds then every proxy that answers only what it has read has read just that, under any fragmentation and partial send |
| ChainSpeech.WalkSpends | src/socket_connect.cpp:84-139 | a chain of n hops waits at most one timeout for each byte in or out, and for 9 n that do not come or go |
| ChainSpeech.WalkHears | src/socket_connect.cpp:117-139 | connect succeeds only if every proxy speaks within the timeout |
| Connection.Connect.ConnectTo | src/socket_connect.cpp:117-139 | the recursive connect over linked hop objects computes the specified walk and makes exactly its simpleConnect calls |
| Connection.Connect.SimpleConnect | src/socket_connect.h:82-88 | simpleConnect of each kind of hop, with setError; a hop that talks does so over the descriptor it was given |
| Connection.Connect.SetTimeout | src/socket_connect.cpp:84-92 | setTimeout reaches every hop and changes nothing else |
| Connection.Connect.SetChild | src/socket_connect.cpp:166-173 | setChild puts the given chain behind this hop, in place of the one it had |
| Lines.LineTaken | src/socket_tcpclient.cpp:270-319 | readline returns the bytes up to CRLF or NUL without CR and LF, and consumes exactly these |
| Lines.TailTaken | src/socket_tcpclient.cpp:295-311 | at the end of the stream the unterminated rest is the last line, or the null pointer if nothing is left |
| Lines.ErrorLosesLine | src/socket_tcpclient.cpp:312-317 | an error or timeout in a line yields the null pointer |
| Lines.LineCost | src/socket_tcpclient.cpp:270-319 | a returned line has consumed something, and readline waits at most (bytes consumed + 1) timeouts |
| Lines.DrainConserves | src/socket_tcpclient.cpp:295-311 | the documented loop drains a stream, sees each byte but CR and LF once and in order, and ends within as many lines as bytes |
| Lines.AtEndDrained | src/socket_tcpclient.cpp:306-309 | after the end, readline and reads return the null pointer for ever |
| Lines.LinesRoundTrip | src/socket_tcpclient.cpp:270-319 | clean lines joined by CRLF, and an unterminated last one, are read back exactly |
| Lines.StringTaken | src/socket_tcpclient.cpp:225-266 | reads returns everything up to the first NUL, that included, or to the end |
| Lines.StringIsWholeIff | src/socket_tcpclient.cpp:225-266 | reads returns the whole stream, as documented, if and only if no NUL stands in it before its last byte |
| Lines.NulCutsString | src/socket_tcpclient.cpp:237-240 | an instance: a NUL in front of anything, and the rest is not read |
| TlsLines.ReadEndsBefore | src/socket_comm_ssh.cpp:548-593 | a TLS read that delivers has got on and is over before the session is; one that does not leaves nothing undelivered |
| TlsLines.TlsLineSplits | src/socket_tcpclient.cpp:270-319 | over TLS, for every schedule: what readline takes from the decrypted stream is one line, or the unended rest at the close, or lost by an error; nothing else is lost, repeated or reordered |
| TlsLines.TlsStringSplits | src/socket_tcpclient.cpp:225-266 | the same for reads |
| TlsLines.TlsDrainIsPlain | src/socket_tcpclient.cpp:270-319 | the lines read from a TLS session up to its close are those that a plain connection with the decrypted stream gives |
| TlsLines.DrainsToClose | src/socket_tcpclient.cpp:295-311 | if the peer closes the session, records and closing in time, the loop ends with the closing |
| TlsLines.TlsStringIsWholeIff | src/socket_tcpclient.cpp:225-266 | reads returns the whole of such a session if and only if no NUL stands before its last byte |
| TlsLines.TlsLineCost | src/socket_tcpclient.cpp:270-319 | over TLS too readline waits at most (bytes taken + 1) timeouts |
| TlsLines.TlsLinesRoundTrip | src/socket_tcpclient.cpp:270-319 | so over every session that the peer closes in time the loop sees all decrypted bytes but CR and LF once and in order, and reads back lines sent with CRLF |
| Lifecycle.StepKeeps | src/socket_tcpclient.cpp:88-494 | every operation keeps the invariant: accounts of descriptors and TLS objects, ownership, and no plain comm on a descriptor that has seen a handshake |
| Lifecycle.RunKeeps | src/rude_socketimpl.cpp:114-159 | so does every run |
| Lifecycle.OneLayerPerDescriptor | src/socket_tcpclient.cpp:399-465 | in every run at most one handshake is attempted on a descriptor, and nothing is sent on it in the clear afterwards |
| Lifecycle.EachObjectFreedOnce | src/socket_comm_ssh.cpp:329-343 | in every run nothing is closed or freed twice, and destruction leaves no TLS object behind |
| Lifecycle.CloseReleases | src/socket_tcpclient.cpp:468-494 | close always releases the descriptor, reports failure exactly for an unbound comm, and may be repeated |
| Lifecycle.ConnectSucceedsIff | src/socket_tcpclient.cpp:357-384 | connect succeeds exactly with its walk, connectSSL exactly if moreover OpenSSL works and the handshake completes on the new descriptor; and what comm object each outcome leaves |
| Lifecycle.StartSslSucceedsIff | src/socket_tcpclient.cpp:399-465 | startSSL succeeds exactly over a plain connection if OpenSSL works and the handshake completes; what success, failure and refusal leave |
| Lifecycle.RefusesSslIff | src/socket_tcpclient.cpp:402-432 | which refusal startSSL reports, both ways |
| Lifecycle.SendIsLogged | src/socket_tcpclient.cpp:184-202 | the log that the invariants speak of misses no traffic of a send |
| Lifecycle.TailIsLogged | src/socket_connect.cpp:117-139 | nor any clear text of a walk |
| Lifecycle.ConnectKeeps | src/socket_tcpclient.cpp:357-384 | connect and connectSSL keep the invariant on every exit |
| Lifecycle.StartSslKeeps | src/socket_tcpclient.cpp:399-465 | startSSL keeps the invariant on every exit |
| Lifecycle.CloseKeeps | src/socket_tcpclient.cpp:468-494 | close keeps the invariant and leaves no descriptor |
| Lifecycle.DestroyKeeps | src/socket_tcpclient.cpp:88-114 | so does the destructor |
| LifecycleTheorems.DescriptorsConserved | src/socket_tcpclient.cpp:357-494 | in every run the open descriptors are the socket's own and those lost by connecting over it |
| LifecycleTheorems.NoneOpenAfterDestroy | src/socket_tcpclient.cpp:88-130 | after destruction none is open, if and only if no connect reached socket() over a live descriptor or got descriptor 0 |
| LifecycleTheorems.BlockingBetweenOperations | src/socket_comm_ssh.cpp:110-165 | between operations every open descriptor is blocking, in every run in which TLS mode restores work |
| LifecycleTheorems.LateShutdownIff | src/socket_tcpclient.cpp:437-456 | a TLS session is shut down on a closed descriptor exactly in the runs in which startSSL was called over a plain connection, OpenSSL was in order, and the peer did not complete the handshake |
| LifecycleTheorems.StepStale | src/socket_tcpclient.cpp:437-456 | which single operations lead there: such an upgrade and nothing else |
| LifecycleTheorems.LateShutdownRun | src/socket_tcpclient.cpp:437-456 | a legal run of connect and a refused startSSL that ends so |
| LifecycleTheorems.ReconnectLeaks | src/socket_connect_normal.cpp:346 | a legal run of two connects that leaves one descriptor open after destruction |
| LifecycleTheorems.HopsAreInserted | src/rude_socketimpl.cpp:162-241 | whatever else a run does, its chain is that of its inserts, reversed |
| LifecycleTheorems.SettingsLast | src/rude_socketimpl.cpp:94-112 | timeout and verification are those set last in a run |
| LifecycleTheorems.ConnectReports | src/rude_socketimpl.cpp:114-147 | connect and connectSSL in every legal run, by the settings made in it |
| LifecycleTheorems.StartSslReports | src/rude_socketimpl.cpp:150-159 | startSSL, likewise |
| LifecycleTheorems.FirstConnectionDecided | src/socket_connect_normal.cpp:404-436 | in every legal run the attempt on the last proxy inserted, or on the destination, decides: late beyond the timeout set, failed with its own error, or the walk goes on |
| LifecycleTheorems.ProxiesDialledInReverse | src/rude_socketimpl.cpp:114-241 | in every legal run that has inserted p1 ... pn, the simpleConnect calls of a connect are here to pn, ..., p1 to the destination, or a first part of these |
| ProxiedRuns.ProxiesReady | src/rude_socketimpl.cpp:114-241 | the chain that connect builds from conforming proxies meets the conditions of ChainAlignment.ChainAligned, with their answers in the order of dialling |
| ProxiedRuns.ConnectsThroughProxies | src/rude_socketimpl.cpp:114-147 | in every legal run, for a connect through the proxies inserted so far: if its walk succeeds then all admitted the client and the stream stands at the destination's first byte; if the client's messages get through it succeeds exactly if all admit it and the first connection is made; a plain connect then has succeeded, its comm bound to the new descriptor |
| ProxiedRuns.LinesThroughProxies | src/socket_tcpclient.cpp:270-319 | and the lines that the destination then sends are what readline and the documented loop return |
| ProxiedRuns.ProxiesAreTold | src/rude_socketimpl.cpp:162-241 | in every legal run a connect tells each proxy the one inserted before it, or the destination, and that proxy's own credentials if it asks; and nothing else |
| ProxiedRuns.ProxiesUnderstand | src/rude_socketimpl.cpp:162-241 | and if it succeeds, each proxy that answers only what it has read has read just that |
| ProxiedRuns.ProxiesKeepTimeout | src/rude_socketimpl.cpp:94-97 | how long a connect can wait for its proxies, by the seconds and microseconds last set |
| ProxiedRuns.SilentProxyFails | src/rude_socketimpl.cpp:94-97 | and that it succeeds only if each of them speaks within that time |
| ProxiedRuns.FirstLine | src/rude_socketimpl.cpp:114-124 | the same of the socket object: after connect, readline returns the destination's first line and has consumed exactly that |
| Client.Socket.Insert | src/rude_socketimpl.cpp:183-241 | an insert takes the step of the state machine |
| Client.Socket.Connect | src/rude_socketimpl.cpp:114-147 | connect and connectSSL take the specified step, make the simpleConnect calls of the walk, leave the stream where the walk leaves it and the TLS session where the handshake leaves it; a failing hop's or bind's error is the socket's error |
| Client.Socket.StartSsl | src/socket_tcpclient.cpp:399-465 | startSSL takes the specified step; which refusal or handshake error it reports; what becomes of the TLS session |
| Client.Socket.SetComm | src/socket_tcpclient.cpp:164-172 | setComm deletes, and so finishes, the old comm |
| Client.Socket.SetConnection | src/socket_tcpclient.cpp:153-161 | setConnection with the new normal hop in front and the timeout on every hop |
| Client.Socket.SetTimeout | src/socket_tcpclient.cpp:139-150 | the timeout reaches the comm and every hop of the connection |
| Client.Socket.SendBytes | src/socket_tcpclient.cpp:184-202 | send takes the specified step; its result, streams and error for every kind and state of the comm object, or none |
| Client.Socket.ReadBytes | src/socket_tcpclient.cpp:204-220 | read, likewise, with the buffer |
| Client.Socket.ReadLine | src/socket_tcpclient.cpp:270-319 | the readline loop over d_readbuffer and lastc computes the specified line in the clear and over TLS, and the null pointer otherwise |
| Client.Socket.ReadString | src/socket_tcpclient.cpp:225-266 | the reads loop computes the specified string in the clear and over TLS |
| Client.Socket.Close | src/socket_tcpclient.cpp:468-494 | close takes the specified step and reports the failure of finish |
| Client.Socket.CloseDescriptor | src/socket_tcpclient.cpp:117-130 | closes the descriptor once and forgets it |
| Client.Socket.Teardown | src/socket_tcpclient.cpp:88-114 | the destructor takes the specified step |

## Left out

- WinSock branches, SIGPIPE suppression, SNI and certificate checking inside OpenSSL: only whether the calls succeed is modelled.
- select() reporting success without the descriptor set (src/socket_comm_normal.cpp:123-127, src/socket_comm_normal.cpp:247-251): foreign contract.
- Which readiness the TLS loops ask select() for (wantread, wantwrite): a turn says only how long the wait takes.
- The wording of error messages: errors are an enumeration, and the formatted numbers in them are dropped.
- Negative timeouts, and int overflow of seconds times 1000: timeouts are non-negative and unbounded.
- Credentials and hosts that do not fit the SOCKS5 buffer (src/socket_connect_socks5.h:64): the methods require that they do, as the code assumes without a check; char is signed.
- The SOCKS4 hop: it always asks for port 80 and drops the user id (src/socket_connect_socks4.cpp:121-143), and its fixed reply adds nothing to the chain.
- Inserting proxies after a connect through proxies, and connecting twice through them: the facade then points at hops the client has deleted; `Legal` excludes both.
- Client.Socket.ReadLine: over TLS it takes the number of a turn at which the session ends as a ghost argument, because it may otherwise read for ever (records without end and without a line end); Client.Socket.ReadString likewise.
- sends(), which takes any positive count for success, and setMessage(), which does nothing.
- Comm.Comm.TlsReadCall: without a timeout the loop ends only if the peer stops asking for more, so termination there takes the number of such a turn as a ghost argument; Comm.Comm.TlsSendCall likewise.
- Client.Socket.SetComm: deleting is modelled as what the destructors do, not as the release of memory.
