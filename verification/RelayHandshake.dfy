/** When a relayed connection may forward: over every run, only after the proxy has chosen
    no authentication and has accepted the request (sections 3 and 6 of RFC 1928), and
    never again after an error (src/n2t/tcpsession.cpp). */
module RelayHandshake {
  import opened Seq32
  import opened RelaySteps

  /** Version 5, method "no authentication required", and nothing behind. */
  predicate Chosen(e: Event)
  {
    e.ProxyRead? && e.ok && |e.data| == 2 && e.data[0] == 5 && e.data[1] == 0
  }

  /** Version 5, "succeeded", the reserved zero, and something behind. */
  predicate Accepted(e: Event)
  {
    e.ProxyRead? && e.ok && |e.data| > 3 && e.data[0] == 5 && e.data[1] == 0 && e.data[2] == 0
  }

  /** An operation on the proxy socket or the client's connection has failed. */
  predicate Failed(e: Event)
  {
    match e
    case Connected(ok) => !ok
    case ProxyWritten(ok) => !ok
    case ProxyRead(ok, _, _) => !ok
    case ClientErr => true
    case _ => false
  }

  /** The step turns to the client's side, where it finds the connection gone. */
  predicate FindsClosed(s: State, e: Event)
  {
    s.pcbFreed &&
    match e
    case ProxyRead(_, _, _) => s.status == FORWARD || s.status == REQUEST
    case ProxyWritten(_) => s.status == FORWARD
    case ClientSent(len) => s.pendingLen == len
    case _ => false
  }

  /** The proxy's answer is not the one the handshake needs. */
  predicate Refused(s: State, e: Event)
  {
    e.ProxyRead? && ((s.status == HANDSHAKE && !Chosen(e)) || (s.status == REQUEST && !Accepted(e)))
  }

  /** Nothing is pending after the end but a read that was started on the closed socket. */
  predicate Ended(s: State)
  {
    s.status == DESTROY ==> !s.armed && !s.sent && !s.writing && !s.connecting
  }

  /** Turning to the client's side ends the relay if the connection is gone, and leaves the
      status otherwise. */
  lemma ClientSide(s: State, data: seq<byte>, writeOk: bool)
    ensures if s.pcbFreed then InAsyncRead(s) == Destroy(s) else InAsyncRead(s).status == s.status
    ensures if s.pcbFreed then InAsyncWrite(s, data, writeOk) == Destroy(s)
            else InAsyncWrite(s, data, writeOk).status == s.status
    ensures InAsyncRead(s).pcbFreed == InAsyncWrite(s, data, writeOk).pcbFreed == s.pcbFreed
  {
  }

  lemma AnswerStatus(s: State, e: Event)
    requires e.ProxyRead? && e.ok
    ensures OutRecv(s, e.data, e.writeOk).status ==
            if s.status == HANDSHAKE && Chosen(e) then REQUEST
            else if s.status == REQUEST && Accepted(e) && !s.pcbFreed then FORWARD
            else if s.status == FORWARD && !s.pcbFreed then FORWARD
            else DESTROY
    ensures s.status == DESTROY ==> OutRecv(s, e.data, e.writeOk) == s
    ensures Ended(s) ==> Ended(OutRecv(s, e.data, e.writeOk))
    ensures OutRecv(s, e.data, e.writeOk).pcbFreed == s.pcbFreed
  {
    AnswerIs(e);
    ClientSide(s.(fromProxy := s.fromProxy + e.data), e.data, e.writeOk);
    ClientSide(s.(status := FORWARD), e.data, e.writeOk);
    hide InAsyncRead, InAsyncWrite, Chosen, Accepted;
  }

  lemma WrittenStatus(s: State)
    ensures OutSent(s).status == if s.status == FORWARD && s.pcbFreed then DESTROY else s.status
    ensures s.status == DESTROY ==> OutSent(s) == s
    ensures Ended(s) ==> Ended(OutSent(s))
    ensures OutSent(s).pcbFreed == s.pcbFreed
  {
    ClientSide(s, [], true);
    hide InAsyncRead;
  }

  lemma StepStatus(s: State, e: Event)
    ensures Step(s, e).status ==
            match e
            case Connected(ok) => if ok then s.status else DESTROY
            case ProxyWritten(ok) => if !ok || (s.status == FORWARD && s.pcbFreed) then DESTROY else s.status
            case ProxyRead(ok, _, _) =>
              if ok && s.status == HANDSHAKE && Chosen(e) then REQUEST
              else if ok && s.status == REQUEST && Accepted(e) && !s.pcbFreed then FORWARD
              else if ok && s.status == FORWARD && !s.pcbFreed then FORWARD
              else DESTROY
            case ClientSent(len) => if s.pendingLen == len && s.pcbFreed then DESTROY else s.status
            case ClientErr => DESTROY
            case _ => s.status
  {
    if e.ProxyRead? && e.ok {
      AnswerStatus(s.(reading := false), e);
    }
    WrittenStatus(s.(writing := false));
    hide OutRecv, OutSent, Chosen, Accepted;
  }

  /** Exactly which steps lead where. */
  lemma StatusIff(s: State, e: Event)
    ensures var t := Step(s, e);
            && (t.status == DESTROY <==> s.status == DESTROY || Failed(e) || Refused(s, e) || FindsClosed(s, e))
            && (t.status == REQUEST <==>
                  (s.status == HANDSHAKE && Chosen(e)) || (s.status == REQUEST && !e.ProxyRead? && t.status != DESTROY))
            && (t.status == FORWARD <==>
                  (s.status == REQUEST && Accepted(e) && !s.pcbFreed) || (s.status == FORWARD && t.status != DESTROY))
  {
    StepStatus(s, e);
    assert Chosen(e) || Accepted(e) ==> e.ProxyRead? && e.ok;
    hide Step, Chosen, Accepted;
  }

  /** The comparisons of out_recv, byte by byte. */
  lemma AnswerIs(e: Event)
    requires e.ProxyRead? && e.ok
    ensures e.data == CHOICE <==> Chosen(e)
    ensures |e.data| > 3 && e.data[..3] == REPLY_OK <==> Accepted(e)
  {
    if |e.data| > 3 {
      assert e.data[..3] == [e.data[0], e.data[1], e.data[2]];
    }
  }

  // ----- runs ----------------------------------------------------------------------------------

  lemma {:induction false} RunSplit(s: State, es: seq<Event>, i: nat)
    requires i < |es|
    ensures Run(s, es) == Run(Step(Run(s, es[..i]), es[i]), es[i + 1..])
    decreases i
  {
    hide Step;
    if i == 0 {
      assert es[..0] == [];
    } else {
      RunSplit(Step(s, es[0]), es[1..], i - 1);
      assert es[1..][..i - 1] == es[..i][1..] && es[1..][i..] == es[i + 1..];
    }
  }

  /** A run that has come from REQUEST to FORWARD has read an acceptance on the way. */
  lemma {:induction false} NeedsAcceptance(s: State, es: seq<Event>) returns (j: nat)
    requires s.status == REQUEST && Run(s, es).status == FORWARD
    ensures j < |es| && Accepted(es[j]) && Run(s, es[..j]).status == REQUEST
    decreases |es|
  {
    var t := Step(s, es[0]);
    StatusIff(s, es[0]);
    hide Step;
    if t.status == FORWARD {
      j := 0;
      assert es[..0] == [];
    } else {
      if t.status == DESTROY {
        StaysDestroyed(t, es[1..]);
      }
      j := NeedsAcceptance(t, es[1..]);
      assert es[1..][..j] == es[..j + 1][1..];
      j := j + 1;
    }
  }

  /** Forwarding needs both answers: over every run from the start, data is forwarded only
      if the proxy answered the greeting with the bytes 5 and 0 and, later, the request
      with more than three bytes that begin with 5, 0, 0. */
  lemma {:induction false} ForwardNeedsBoth(s: State, es: seq<Event>) returns (i: nat, j: nat)
    requires s.status == HANDSHAKE && Run(s, es).status == FORWARD
    ensures i < j < |es|
    ensures Chosen(es[i]) && Run(s, es[..i]).status == HANDSHAKE
    ensures Accepted(es[j]) && Run(s, es[..j]).status == REQUEST
    decreases |es|
  {
    var t := Step(s, es[0]);
    StatusIff(s, es[0]);
    hide Step;
    if t.status == DESTROY {
      StaysDestroyed(t, es[1..]);
    }
    if t.status == REQUEST {
      i := 0;
      j := NeedsAcceptance(t, es[1..]);
      assert es[..0] == [];
    } else {
      i, j := ForwardNeedsBoth(t, es[1..]);
      assert es[1..][..i] == es[..i + 1][1..];
      i := i + 1;
    }
    assert es[1..][..j] == es[..j + 1][1..];
    j := j + 1;
  }

  /** Every other answer and every failed operation, wherever in a run, ends the relay for
      good. */
  lemma OtherAnswersDestroy(target: seq<byte>, es: seq<Event>, i: nat)
    requires i < |es|
    requires Failed(es[i]) || Refused(Run(Initial(target), es[..i]), es[i])
    ensures Run(Initial(target), es).status == DESTROY
  {
    var s := Run(Initial(target), es[..i]);
    RunSplit(Initial(target), es, i);
    StatusIff(s, es[i]);
    hide Step;
    StaysDestroyed(Step(s, es[i]), es[i + 1..]);
  }

  /** The client's connection counts as gone exactly from the first end of its data or error
      on. */
  lemma {:induction false} FreedIff(s: State, es: seq<Event>)
    ensures Run(s, es).pcbFreed <==> s.pcbFreed || exists e :: e in es && (e.ClientEof? || e.ClientErr?)
    decreases |es|
  {
    if es != [] {
      StepFreed(s, es[0]);
      hide Step;
      FreedIff(Step(s, es[0]), es[1..]);
      assert es == [es[0]] + es[1..];
    }
  }

  lemma StepFreed(s: State, e: Event)
    ensures Step(s, e).pcbFreed <==> s.pcbFreed || e.ClientEof? || e.ClientErr?
  {
    if e.ProxyRead? && e.ok {
      AnswerStatus(s.(reading := false), e);
    }
    WrittenStatus(s.(writing := false));
    hide OutRecv, OutSent;
  }

  // ----- after the end ----------------------------------------------------------------------------

  lemma {:induction false} RunEnded(s: State, es: seq<Event>)
    requires Ended(s) && Possible(s, es)
    ensures Ended(Run(s, es))
    ensures s.status == DESTROY ==> Run(s, es).toProxy == s.toProxy && Run(s, es).toClient == s.toClient
    decreases |es|
  {
    if es != [] {
      StepEnded(s, es[0]);
      hide Step;
      RunEnded(Step(s, es[0]), es[1..]);
    }
  }

  lemma StepEnded(s: State, e: Event)
    requires Ended(s) && Enabled(s, e)
    ensures Ended(Step(s, e))
    ensures s.status == DESTROY ==>
              Step(s, e).status == DESTROY && Step(s, e).toProxy == s.toProxy && Step(s, e).toClient == s.toClient
  {
    if e.ProxyRead? && e.ok {
      AnswerStatus(s.(reading := false), e);
    }
    WrittenStatus(s.(writing := false));
    hide OutRecv, OutSent;
  }

  /** Over every run, once the relay is destroyed it gives nothing more to either side. */
  lemma DestroyedSilent(target: seq<byte>, es: seq<Event>, more: seq<Event>)
    requires Possible(Initial(target), es) && Run(Initial(target), es).status == DESTROY
    requires Possible(Run(Initial(target), es), more)
    ensures var s := Run(Initial(target), es); var t := Run(s, more);
            t.status == DESTROY && t.toProxy == s.toProxy && t.toClient == s.toClient
            && !t.armed && !t.sent && !t.writing && !t.connecting
  {
    RunEnded(Initial(target), es);
    RunEnded(Run(Initial(target), es), more);
    StaysDestroyed(Run(Initial(target), es), more);
  }
}
