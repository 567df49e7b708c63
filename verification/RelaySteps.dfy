/** One relayed TCP connection: the SOCKS5 handshake of src/n2t/tcpsession.cpp and the
    socket wrapper of src/n2t/socket.cpp, as a state machine over the callbacks that can
    happen (sections 3, 4 and 6 of RFC 1928). */
module RelaySteps {
  import opened Seq32

  datatype Status = HANDSHAKE | REQUEST | FORWARD | DESTROY

  const GREETING: seq<byte> := [5, 1, 0]
  const CHOICE: seq<byte> := [5, 0]
  const CONNECT: seq<byte> := [5, 1, 0]
  const REPLY_OK: seq<byte> := [5, 0, 0]
  const RECV_BUF: int := 8192

  /** armed, sent: a handler waits in the socket wrapper. reading, writing, connecting:
      an operation on the proxy socket is under way. toProxy and toClient collect what
      was handed to the proxy socket and accepted by tcp_write. The rest is history:
      what the client sent, what was read from the proxy while forwarding, how much of
      toClient was acknowledged and how many bytes tcp_write refused. */
  datatype State = State(
    status: Status, target: seq<byte>,
    armed: bool, recvBuf: seq<byte>, sent: bool, pendingLen: int, pcbFreed: bool,
    reading: bool, writing: bool, connecting: bool,
    toProxy: seq<byte>, toClient: seq<byte>,
    fromClient: seq<byte>, fromProxy: seq<byte>, acked: int, refused: nat)

  function Initial(target: seq<byte>): State
  {
    State(HANDSHAKE, target, false, [], false, 0, false, false, false, true, [], [], [], [], 0, 0)
  }

  datatype Event =
    | Connected(ok: bool)
    | ProxyWritten(ok: bool)
    | ProxyRead(ok: bool, data: seq<byte>, writeOk: bool)
    | ClientData(data: seq<byte>)
    | ClientEof
    | ClientSent(len: nat)
    | ClientErr

  /** When a callback can happen. lwIP reports as sent only what tcp_write accepted. */
  predicate Enabled(s: State, e: Event)
  {
    match e
    case Connected(_) => s.connecting
    case ProxyWritten(_) => s.writing
    case ProxyRead(_, data, _) => s.reading && 0 < |data| <= RECV_BUF
    case ClientSent(len) => s.status != DESTROY && 0 < len && s.acked + len <= |s.toClient|
    case ClientErr => s.status != DESTROY
    case _ => s.status != DESTROY && !s.pcbFreed
  }

  // ----- the operations the callbacks use ---------------------------------------------------

  /** destroy: every operation is cancelled. */
  function Destroy(s: State): (r: State)
    ensures r.target == s.target && (s.status == DESTROY ==> r.status == DESTROY)
  {
    s.(status := DESTROY, armed := false, sent := false, reading := false, writing := false, connecting := false)
  }

  function OutAsyncRead(s: State): State { s.(reading := true) }

  function OutAsyncWrite(s: State, data: seq<byte>): State { s.(writing := true, toProxy := s.toProxy + data) }

  /** in_async_read: bytes that came early are passed on at once. */
  function InAsyncRead(s: State): (r: State)
    ensures r.target == s.target && (s.status == DESTROY ==> r.status == DESTROY)
  {
    if s.pcbFreed then Destroy(s)
    else if s.recvBuf == [] then s.(armed := true)
    else InRecv(s.(recvBuf := []), s.recvBuf)
  }

  function InRecv(s: State, data: seq<byte>): (r: State)
    ensures r.target == s.target && (s.status == DESTROY ==> r.status == DESTROY)
  {
    if s.status == FORWARD then OutAsyncWrite(s, data) else s
  }

  /** in_async_write: the result of tcp_write is not looked at. */
  function InAsyncWrite(s: State, data: seq<byte>, writeOk: bool): (r: State)
    ensures r.target == s.target && (s.status == DESTROY ==> r.status == DESTROY)
  {
    if s.pcbFreed then Destroy(s)
    else
      s.(pendingLen := s.pendingLen + |data|, sent := true,
         toClient := if writeOk then s.toClient + data else s.toClient,
         refused := if writeOk then s.refused else s.refused + |data|)
  }

  /** out_recv */
  function OutRecv(s: State, data: seq<byte>, writeOk: bool): (r: State)
    ensures r.target == s.target && (s.status == DESTROY ==> r.status == DESTROY)
  {
    match s.status
    case HANDSHAKE =>
      if data != CHOICE then Destroy(s) else OutAsyncWrite(s.(status := REQUEST), CONNECT + s.target)
    case REQUEST =>
      if |data| <= 3 || data[..3] != REPLY_OK then Destroy(s)
      else OutAsyncRead(InAsyncRead(s.(status := FORWARD)))
    case FORWARD => InAsyncWrite(s.(fromProxy := s.fromProxy + data), data, writeOk)
    case DESTROY => s
  }

  /** out_sent */
  function OutSent(s: State): (r: State)
    ensures r.target == s.target && (s.status == DESTROY ==> r.status == DESTROY)
  {
    match s.status
    case HANDSHAKE => OutAsyncRead(s)
    case REQUEST => OutAsyncRead(s)
    case FORWARD => InAsyncRead(s)
    case DESTROY => s
  }

  function Step(s: State, e: Event): (r: State)
    ensures r.target == s.target && (s.status == DESTROY ==> r.status == DESTROY)
  {
    match e
    case Connected(ok) =>
      if ok then OutAsyncWrite(s.(connecting := false), GREETING) else Destroy(s)
    case ProxyWritten(ok) =>
      if ok then OutSent(s.(writing := false)) else Destroy(s)
    case ProxyRead(ok, data, writeOk) =>
      if ok then OutRecv(s.(reading := false), data, writeOk) else Destroy(s)
    case ClientData(data) =>
      var t := s.(fromClient := s.fromClient + data);
      if s.armed then InRecv(t.(armed := false), data) else t.(recvBuf := s.recvBuf + data)
    case ClientEof => s.(pcbFreed := true)
    case ClientSent(len) =>
      var t := s.(pendingLen := s.pendingLen - len, acked := s.acked + len);
      if t.pendingLen != 0 then t
      else if t.pcbFreed then Destroy(t)
      else if t.status == FORWARD then OutAsyncRead(t.(sent := false)) else t.(sent := false)
    case ClientErr => Destroy(s.(pcbFreed := true))
  }

  // ----- what every run keeps ------------------------------------------------------------------

  predicate One(a: bool, b: bool) { a != b }

  /** What has been sent to the proxy before the client's bytes. */
  function Preamble(s: State): seq<byte>
  {
    match s.status
    case HANDSHAKE => if s.connecting then [] else GREETING
    case _ => GREETING + CONNECT + s.target
  }

  /** While forwarding, each direction has exactly one operation pending: either the
      client's next bytes are awaited or a write to the proxy is under way, and either
      the proxy's next bytes are awaited or bytes are unacknowledged by the client. */
  predicate Forwarding(s: State)
  {
    && One(s.armed, s.writing) && One(s.reading, s.pendingLen > 0)
    && (s.sent <==> s.pendingLen > 0) && !s.connecting && (s.armed ==> s.recvBuf == [])
  }

  /** Before that, exactly one operation on the proxy socket is under way. */
  predicate Starting(s: State)
  {
    && !s.armed && !s.sent && s.pendingLen == 0 && s.toClient == s.fromProxy == [] && s.refused == 0
    && (if s.connecting then !s.reading && !s.writing && s.status == HANDSHAKE else One(s.reading, s.writing))
  }

  /** The bytes of both directions: what the client sent is what the proxy was given, in
      order, plus what waits; what was read from the proxy was handed to lwIP, in order,
      unless it was refused; pending_len counts what is not acknowledged. */
  ghost predicate Conserved(s: State)
  {
    Upstream(s) && Downstream(s)
  }

  ghost predicate Upstream(s: State)
  {
    exists n: nat {:trigger UpTo(s, n)} :: UpTo(s, n)
  }

  /** The first n of the client's bytes have gone to the proxy, the others wait. */
  predicate UpTo(s: State, n: nat)
  {
    n <= |s.fromClient| && s.toProxy == Preamble(s) + s.fromClient[..n] && s.recvBuf == s.fromClient[n..]
  }

  predicate Downstream(s: State)
  {
    && |s.fromProxy| == |s.toClient| + s.refused && (s.refused == 0 ==> s.toClient == s.fromProxy)
    && s.pendingLen == |s.toClient| + s.refused - s.acked && 0 <= s.acked <= |s.toClient|
  }

  ghost predicate Inv(s: State)
  {
    match s.status
    case FORWARD => Forwarding(s) && Conserved(s)
    case DESTROY => true
    case _ => Starting(s) && Conserved(s) && s.recvBuf == s.fromClient
  }

  lemma InitialInv(target: seq<byte>)
    ensures Inv(Initial(target))
  {
    var s := Initial(target);
    assert UpTo(s, 0);
  }

  /** The client's bytes given to the proxy so far. */
  lemma Forwarded(s: State) returns (n: nat)
    requires Upstream(s)
    ensures UpTo(s, n)
  {
    n :| UpTo(s, n);
  }

  /** Nothing is pending on the client's side: the state in which the relay turns to it. */
  ghost predicate TurnsToClient(s: State)
  {
    && s.status == FORWARD && !s.armed && !s.writing && !s.connecting && Conserved(s)
    && One(s.reading, s.pendingLen > 0) && (s.sent <==> s.pendingLen > 0)
  }

  lemma InAsyncReadKeeps(s: State)
    requires TurnsToClient(s)
    ensures Inv(InAsyncRead(s))
  {
    var n := Forwarded(s);
    if !s.pcbFreed {
      var t := InAsyncRead(s);
      InAsyncReadUpTo(s, n);
      hide UpTo, Preamble;
      assert UpTo(t, if s.recvBuf == [] then n else |s.fromClient|);
    }
  }

  /** What waited is given to the proxy, behind what it already has. */
  lemma InAsyncReadUpTo(s: State, n: nat)
    requires UpTo(s, n) && s.status == FORWARD && !s.pcbFreed
    ensures UpTo(InAsyncRead(s), if s.recvBuf == [] then n else |s.fromClient|)
  {
    var t := InAsyncRead(s);
    SamePreamble(s, t);
    Assoc(Preamble(s), s.fromClient[..n], s.fromClient[n..]);
    hide Preamble;
    assert s.fromClient[..n] + s.fromClient[n..] == s.fromClient[..|s.fromClient|];
  }

  lemma StepKeeps(s: State, e: Event)
    requires Inv(s) && Enabled(s, e)
    ensures Inv(Step(s, e))
  {
    if s.status == DESTROY {
      return;
    }
    hide Conserved;
    var n := Forwarded(s);
    match e
    case Connected(ok) => ConnectedKeeps(s, ok, n);
    case ProxyWritten(ok) => WrittenKeeps(s, ok, n);
    case ProxyRead(ok, data, writeOk) => ReadKeeps(s, ok, data, writeOk, n);
    case ClientData(data) => DataKeeps(s, data, n);
    case ClientSent(len) => SentKeeps(s, len, n);
    case ClientEof => EofKeeps(s, n);
    case ClientErr =>
  }

  lemma ConnectedKeeps(s: State, ok: bool, n: nat)
    requires Inv(s) && s.status != DESTROY && s.connecting
    requires UpTo(s, n)
    ensures Inv(Step(s, Connected(ok)))
  {
    assert s.fromClient[..n] == [];
    if ok {
      var t := Step(s, Connected(ok));
      assert t.toProxy == Preamble(t) + t.fromClient[..0];
      assert UpTo(t, 0);
    }
  }

  lemma WrittenKeeps(s: State, ok: bool, n: nat)
    requires Inv(s) && s.status != DESTROY && s.writing
    requires UpTo(s, n)
    ensures Inv(Step(s, ProxyWritten(ok)))
  {
    if ok {
      var t := s.(writing := false);
      if s.status == FORWARD {
        assert UpTo(t, n);
        InAsyncReadKeeps(t);
      } else {
        assert UpTo(OutAsyncRead(t), n);
      }
    }
  }

  lemma ReadKeeps(s: State, ok: bool, data: seq<byte>, writeOk: bool, n: nat)
    requires Inv(s) && s.status != DESTROY && s.reading && |data| > 0
    requires UpTo(s, n)
    ensures Inv(Step(s, ProxyRead(ok, data, writeOk)))
  {
    if ok {
      match s.status {
        case HANDSHAKE =>
          if data == CHOICE {
            SendRequest(s, n);
            hide Inv, UpTo, Preamble;
          }
        case REQUEST =>
          if |data| > 3 && data[..3] == REPLY_OK {
            StartForwarding(s, n);
            hide Inv, InAsyncRead, UpTo, Preamble;
          }
        case FORWARD =>
          PassOn(s, data, writeOk, n);
          hide Inv, InAsyncWrite, UpTo, Preamble;
      }
    }
  }

  /** While forwarding, what the proxy sent is handed to lwIP. */
  lemma PassOn(s: State, data: seq<byte>, writeOk: bool, n: nat)
    requires Inv(s) && s.status == FORWARD && s.reading && |data| > 0
    requires UpTo(s, n)
    ensures Inv(InAsyncWrite(s.(reading := false, fromProxy := s.fromProxy + data), data, writeOk))
  {
    hide UpTo, Preamble;
    if !s.pcbFreed {
      var t := InAsyncWrite(s.(reading := false, fromProxy := s.fromProxy + data), data, writeOk);
      SameUpTo(s, t, n);
    }
  }

  lemma SameUpTo(s: State, t: State, n: nat)
    requires UpTo(s, n) && t.status == s.status && t.target == s.target && t.connecting == s.connecting
    requires t.toProxy == s.toProxy && t.fromClient == s.fromClient && t.recvBuf == s.recvBuf
    ensures UpTo(t, n)
  {
    SamePreamble(s, t);
    hide Preamble;
  }

  /** The step into REQUEST: the request goes behind the greeting. */
  lemma SendRequest(s: State, n: nat)
    requires Inv(s) && s.status == HANDSHAKE && s.reading
    requires UpTo(s, n)
    ensures Inv(OutAsyncWrite(s.(reading := false, status := REQUEST), CONNECT + s.target))
  {
    var t := OutAsyncWrite(s.(reading := false, status := REQUEST), CONNECT + s.target);
    assert s.fromClient[..n] == [];
    assert t.toProxy == Preamble(t) + t.fromClient[..0];
    assert UpTo(t, 0);
  }

  /** The step into FORWARD: the client's early bytes go out first. */
  lemma StartForwarding(s: State, n: nat)
    requires Inv(s) && s.status == REQUEST && s.reading
    requires UpTo(s, n)
    ensures Inv(OutAsyncRead(InAsyncRead(s.(reading := false, status := FORWARD))))
  {
    var u := s.(status := FORWARD);
    if !s.pcbFreed {
      assert UpTo(u, n);
      InAsyncReadKeeps(u);
    }
  }

  lemma DataKeeps(s: State, data: seq<byte>, n: nat)
    requires Inv(s) && s.status != DESTROY
    requires UpTo(s, n)
    ensures Inv(Step(s, ClientData(data)))
  {
    DataUpTo(s, data, n);
    hide UpTo, Preamble;
    var m := if s.armed then |s.fromClient + data| else n;
    assert UpTo(Step(s, ClientData(data)), m);
  }

  lemma DataUpTo(s: State, data: seq<byte>, n: nat)
    requires UpTo(s, n) && (s.armed ==> s.status == FORWARD && s.recvBuf == [])
    ensures UpTo(Step(s, ClientData(data)), if s.armed then |s.fromClient + data| else n)
  {
    AppendSplit(s.fromClient, n, data);
    Assoc(Preamble(s), s.fromClient, data);
    hide Preamble;
    var t := Step(s, ClientData(data));
    assert Preamble(t) == Preamble(s) by { SamePreamble(s, t); }
  }

  lemma SamePreamble(s: State, t: State)
    requires t.status == s.status && t.target == s.target && t.connecting == s.connecting
    ensures Preamble(t) == Preamble(s)
  {
  }

  lemma Assoc(p: seq<byte>, a: seq<byte>, d: seq<byte>)
    ensures p + (a + d) == p + a + d
  {
  }

  lemma AppendSplit(a: seq<byte>, n: nat, d: seq<byte>)
    requires n <= |a|
    ensures (a + d)[..n] == a[..n] && (a + d)[n..] == a[n..] + d && (a + d)[..|a| + |d|] == a + d
            && (a + d)[|a| + |d|..] == []
    ensures n == |a| ==> a[..n] == a && a[n..] == []
  {
  }

  lemma SentKeeps(s: State, len: nat, n: nat)
    requires Inv(s) && s.status != DESTROY && 0 < len && s.acked + len <= |s.toClient|
    requires UpTo(s, n)
    ensures Inv(Step(s, ClientSent(len)))
  {
    var t := Step(s, ClientSent(len));
    assert t.status != DESTROY ==> UpTo(t, n);
  }

  lemma EofKeeps(s: State, n: nat)
    requires Inv(s) && s.status != DESTROY
    requires UpTo(s, n)
    ensures Inv(Step(s, ClientEof))
  {
    assert UpTo(Step(s, ClientEof), n);
  }

  // ----- runs ----------------------------------------------------------------------------------------

  ghost predicate Possible(s: State, es: seq<Event>)
    decreases |es|
  {
    es == [] || (Enabled(s, es[0]) && Possible(Step(s, es[0]), es[1..]))
  }

  function Run(s: State, es: seq<Event>): State
    decreases |es|
  {
    if es == [] then s else Run(Step(s, es[0]), es[1..])
  }

  lemma {:induction false} RunKeeps(s: State, es: seq<Event>)
    requires Inv(s) && Possible(s, es)
    ensures Inv(Run(s, es))
    decreases |es|
  {
    hide Inv, Step, Enabled;
    if es != [] {
      StepKeeps(s, es[0]);
      RunKeeps(Step(s, es[0]), es[1..]);
    }
  }

  /** Over every run up to DESTROY: the proxy has been given the greeting, the request
      and then the client's bytes in order, with nothing lost but what still waits, and
      nothing waits while the client's next bytes are awaited; if tcp_write refused
      nothing, lwIP has been given exactly what was read from the proxy; and each
      direction has exactly one operation pending. */
  lemma RelayDelivers(target: seq<byte>, es: seq<Event>)
    requires Possible(Initial(target), es) && Run(Initial(target), es).status == FORWARD
    ensures var s := Run(Initial(target), es);
            && s.toProxy + s.recvBuf == GREETING + CONNECT + target + s.fromClient
            && (s.armed ==> s.toProxy == GREETING + CONNECT + target + s.fromClient)
            && (s.refused == 0 ==> s.toClient == s.fromProxy)
            && One(s.armed, s.writing) && One(s.reading, s.acked < |s.toClient| + s.refused)
  {
    hide Run, Possible, Initial, Inv;
    InitialInv(target);
    InitialTarget(target);
    RunKeeps(Initial(target), es);
    TargetKept(Initial(target), es);
    WhileForwarding(Run(Initial(target), es));
  }

  lemma InitialTarget(target: seq<byte>)
    ensures Initial(target).target == target
  {
  }

  /** What the invariant says while forwarding. */
  lemma WhileForwarding(s: State)
    requires Inv(s) && s.status == FORWARD
    ensures s.toProxy + s.recvBuf == GREETING + CONNECT + s.target + s.fromClient
    ensures s.armed ==> s.toProxy == GREETING + CONNECT + s.target + s.fromClient
    ensures s.refused == 0 ==> s.toClient == s.fromProxy
    ensures One(s.armed, s.writing) && One(s.reading, s.acked < |s.toClient| + s.refused)
  {
    var n := Forwarded(s);
    assert s.fromClient[..n] + s.fromClient[n..] == s.fromClient;
    assert s.toProxy + s.recvBuf == Preamble(s) + (s.fromClient[..n] + s.fromClient[n..]);
    assert s.armed ==> s.toProxy + s.recvBuf == s.toProxy;
  }

  lemma {:induction false} TargetKept(s: State, es: seq<Event>)
    ensures Run(s, es).target == s.target
    decreases |es|
  {
    hide Step;
    if es != [] {
      TargetKept(Step(s, es[0]), es[1..]);
    }
  }

  /** If tcp_write ever refuses bytes, the relay never reads from the proxy again: the
      bytes stay counted in pending_len, which then cannot reach zero. */
  lemma {:induction false} RefusedStalls(s: State, es: seq<Event>)
    requires Inv(s) && s.status == FORWARD && s.refused > 0 && Possible(s, es)
    ensures var t := Run(s, es); t.status == DESTROY || (t.status == FORWARD && !t.reading && t.refused > 0)
    decreases |es|
  {
    if es != [] {
      StepKeeps(s, es[0]);
      StaysRefused(s, es[0]);
      if Step(s, es[0]).status == FORWARD {
        RefusedStalls(Step(s, es[0]), es[1..]);
      } else {
        StaysDestroyed(Step(s, es[0]), es[1..]);
      }
    }
  }

  lemma StaysRefused(s: State, e: Event)
    requires Inv(s) && s.status == FORWARD && s.refused > 0 && Enabled(s, e)
    ensures var t := Step(s, e); t.status == DESTROY || (t.status == FORWARD && t.refused > 0)
  {
  }

  lemma {:induction false} StaysDestroyed(s: State, es: seq<Event>)
    requires s.status == DESTROY
    ensures Run(s, es).status == DESTROY
    decreases |es|
  {
    if es != [] {
      StaysDestroyed(Step(s, es[0]), es[1..]);
    }
  }

  // ----- runs that forward ---------------------------------------------------------------------------

  lemma RunStep(s: State, e: Event, es: seq<Event>)
    requires Enabled(s, e) && Possible(Step(s, e), es)
    ensures Possible(s, [e] + es) && Run(s, [e] + es) == Run(Step(s, e), es)
  {
    hide Enabled, Step;
    assert ([e] + es)[1..] == es;
  }

  /** The callbacks of a handshake in which the client sends the byte x early. */
  function Handshake(x: byte): seq<Event>
  {
    [Connected(true), ClientData([x]), ProxyWritten(true), ProxyRead(true, CHOICE, true), ProxyWritten(true),
     ProxyRead(true, REPLY_OK + [1], true)]
  }

  /** The state after it. */
  function Opened(target: seq<byte>, x: byte): State
  {
    State(FORWARD, target, false, [], false, 0, false, true, true, false, GREETING + CONNECT + target + [x], [], [x],
      [], 0, 0)
  }

  /** The byte the client sends early is the first to follow the request, and then one
      operation is pending in each direction. */
  lemma EarlyByteForwarded(target: seq<byte>, x: byte, more: seq<Event>)
    requires Possible(Opened(target, x), more)
    ensures Possible(Initial(target), Handshake(x) + more)
            && Run(Initial(target), Handshake(x) + more) == Run(Opened(target, x), more)
  {
    var es := Handshake(x);
    var s0 := Initial(target);
    var s1 := s0.(connecting := false, writing := true, toProxy := GREETING);
    var s2 := s1.(recvBuf := [x], fromClient := [x]);
    var s3 := s2.(writing := false, reading := true);
    var s4 := s3.(status := REQUEST, reading := false, writing := true, toProxy := GREETING + CONNECT + target);
    var s5 := s4.(writing := false, reading := true);
    HandshakeSteps(target, x, s0, s1, s2, s3, s4, s5);
    hide Enabled, Step;
    RunStep(s5, es[5], more);
    RunStep(s4, es[4], [es[5]] + more);
    RunStep(s3, es[3], [es[4]] + ([es[5]] + more));
    RunStep(s2, es[2], [es[3]] + ([es[4]] + ([es[5]] + more)));
    RunStep(s1, es[1], [es[2]] + ([es[3]] + ([es[4]] + ([es[5]] + more))));
    RunStep(s0, es[0], [es[1]] + ([es[2]] + ([es[3]] + ([es[4]] + ([es[5]] + more)))));
    assert [es[0]] + ([es[1]] + ([es[2]] + ([es[3]] + ([es[4]] + ([es[5]] + more))))) == es + more;
  }

  lemma HandshakeSteps(target: seq<byte>, x: byte, s0: State, s1: State, s2: State, s3: State, s4: State, s5: State)
    requires s0 == Initial(target) && s1 == s0.(connecting := false, writing := true, toProxy := GREETING)
    requires s2 == s1.(recvBuf := [x], fromClient := [x]) && s3 == s2.(writing := false, reading := true)
    requires s4 == s3.(status := REQUEST, reading := false, writing := true, toProxy := GREETING + CONNECT + target)
    requires s5 == s4.(writing := false, reading := true)
    ensures var es := Handshake(x);
            && Enabled(s0, es[0]) && Step(s0, es[0]) == s1 && Enabled(s1, es[1]) && Step(s1, es[1]) == s2
            && Enabled(s2, es[2]) && Step(s2, es[2]) == s3 && Enabled(s3, es[3]) && Step(s3, es[3]) == s4
            && Enabled(s4, es[4]) && Step(s4, es[4]) == s5 && Enabled(s5, es[5]) && Step(s5, es[5]) == Opened(target, x)
  {
    assert [] + GREETING == GREETING && [] + [x] == [x];
    assert GREETING + (CONNECT + target) == GREETING + CONNECT + target;
    assert (REPLY_OK + [1])[..3] == REPLY_OK;
  }

  /** A run in which tcp_write refuses a byte: from then on the relay is stalled. */
  lemma RefusalReached(target: seq<byte>, x: byte, es: seq<Event>)
    requires Possible(Step(Opened(target, x), ProxyRead(true, [x], false)), es)
    ensures var run := Handshake(x) + ([ProxyRead(true, [x], false)] + es); var t := Run(Initial(target), run);
            && Possible(Initial(target), run)
            && (t.status == DESTROY || (t.status == FORWARD && !t.reading && t.refused > 0))
  {
    var s, e := Opened(target, x), ProxyRead(true, [x], false);
    RunStep(s, e, es);
    EarlyByteForwarded(target, x, [e] + es);
    OpenedInv(target, x);
    StepKeeps(s, e);
    assert Step(s, e).refused == 1 && Step(s, e).status == FORWARD;
    hide Step, Inv;
    RefusedStalls(Step(s, e), es);
  }

  lemma OpenedInv(target: seq<byte>, x: byte)
    ensures Inv(Opened(target, x))
  {
    assert UpTo(Opened(target, x), 1);
  }
}
