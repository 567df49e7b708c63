/** Short runs that reach the states in which the send side goes wrong. */
module SendQueueExamples {
  import opened Seq32
  import opened SendQueue
  import opened SendQueueInv
  import opened SendQueueOps
  import opened SendQueueWrite
  import opened SendQueueRuns
  import opened SendQueueOrder
  import opened SendQueueStuck

  /** A run is its first step and the rest. */
  lemma RunCons(s: Snd, e: Event, es: seq<Event>)
    requires Safe(s, e) && SafeRun(Step(s, e), es)
    ensures SafeRun(s, [e] + es) && Run(s, [e] + es) == Run(Step(s, e), es)
  {
    hide Safe, Step;
    assert ([e] + es)[1..] == es;
  }

  lemma RunTwo(s: Snd, d: Event, e: Event)
    requires Safe(s, d) && Safe(Step(s, d), e)
    ensures SafeRun(s, [d, e]) && Run(s, [d, e]) == Step(Step(s, d), e)
  {
    hide Safe, Step;
    assert SafeRun(Step(Step(s, d), e), []);
    RunCons(Step(s, d), e, []);
    RunCons(s, d, [e]);
    assert [e] + [] == [e] && [d] + [e] == [d, e];
  }

  /** Two bytes are written and the connection is closed: the FIN goes onto the segment
      with the bytes. A split behind the first byte then leaves number 1 queued twice. */
  lemma SplitFinReached()
    ensures var s := Initial(0, TCP_MSS, 1000); var es := [DoWrite(Chunk([1, 2])), DoClose(2)];
            && SafeRun(s, es)
            && var t := Run(s, es); var u := Split(t, 1, 2).1;
               Inv(t, 0, [1, 2]) && Times(u.unacked, u.unsent, 1) >= 2
  {
    var s := Initial(0, TCP_MSS, 1000);
    var d, e := DoWrite(Chunk([1, 2])), DoClose(2);
    var q := Plain(0, [1, 2]);
    WriteFirst(s, [1, 2]);
    var s1 := s.(unsent := [q], lbb := 2, buf := s.buf - 2, queuelen := 1, oversize := 0);
    assert Step(s, d) == s1 && Safe(s, d);
    var s2 := s1.(unsent := [q.(fin := true)], open := false);
    assert Step(s1, e) == s2 && Safe(s1, e);
    RunTwo(s, d, e);
    SplitFinInv(s, d, e);
    SplitFinTwice(s2, 0, [1, 2], 1, 2);
  }

  lemma SplitFinInv(s: Snd, d: Event, e: Event)
    requires s == Initial(0, TCP_MSS, 1000) && d == DoWrite(Chunk([1, 2])) && Write(s, Chunk([1, 2])).0 == OK
    requires e.DoClose? && Safe(s, d) && Safe(Step(s, d), e)
    ensures Inv(Step(Step(s, d), e), 0, [1, 2])
  {
    hide Inv, Step, Safe, Write;
    InitialInv(0, TCP_MSS, 1000);
    StepKeeps(s, d, 0, []);
    SaneInv(s, 0, []);
    assert [] + [1, 2] == [1, 2] && [1, 2] + [] == [1, 2];
    StepKeeps(Step(s, d), e, 0, [1, 2]);
  }

  // ----- a split that blocks the queue -------------------------------------------------------

  /** The states of the run, with the segment q of eight bytes. */
  function Sending(q: Seg): Snd
  {
    Initial(0, TCP_MSS, 1000).(unsent := [q], lbb := 8, buf := TCP_SND_BUF - 8, queuelen := 1)
  }

  function Sent(q: Seg): Snd { Sending(q).(unsent := [], unacked := [q], nxt := 8) }

  function Waiting(q: Seg): Snd { Sending(q).(nxt := 8, lastack := 4) }

  lemma WriteStep(d: seq<byte>)
    requires |d| == 8
    ensures var e := DoWrite(Chunk(d));
            && Safe(Initial(0, TCP_MSS, 1000), e)
            && Step(Initial(0, TCP_MSS, 1000), e) == Sending(Plain(0, d))
  {
    WriteFirst(Initial(0, TCP_MSS, 1000), d);
    hide Write;
  }

  lemma SendStep(q: Seg)
    requires q.pos == 0 && q.End() == 8 && !q.fin
    ensures Step(Sending(q), DoOutput(1000, true, false, 1)) == Sent(q)
  {
    SendOne(Sending(q), q);
    hide Output;
  }

  lemma AckStep(q: Seg)
    requires q.pos == 0 && q.End() == 8
    ensures Step(Sent(q), DoAck(4)) == Sent(q).(lastack := 4)
  {
    var s := Sent(q);
    assert Acked(s.unacked, 4) == 0 && Acked(s.unsent, 4) == 0;
    hide Acked;
    assert s.unacked[0..] == s.unacked && s.unsent[0..] == s.unsent && Freed(s, 4) == [];
  }

  lemma TimeoutStep(q: Seg)
    ensures Step(Sent(q).(lastack := 4), DoTimeout(false)) == Waiting(q)
  {
    assert [q] + [] == [q];
  }

  function Blocking(d: seq<byte>): seq<Event>
  {
    [DoWrite(Chunk(d)), DoOutput(1000, true, false, 1), DoAck(4), DoTimeout(false)]
  }

  /** Eight bytes are sent, four are acknowledged, the timer expires and the window
      shrinks to two bytes: the split leaves a head that is acknowledged already, and
      without a further acknowledgement nothing is sent any more, whatever happens. */
  lemma SplitBlockReached(d: seq<byte>, more: seq<Event>)
    requires |d| == 8 && forall e :: e in more ==> NoNewAck(e)
    ensures var s, es := Initial(0, TCP_MSS, 1000), Blocking(d);
            && SafeRun(s, es)
            && var t := Run(s, es); var u := Split(t, 2, 2).1;
               t.unsent != [] && !InWindow(t, 2) && Stuck(u) && Stuck(Run(u, more))
  {
    var q := Plain(0, d);
    BlockingRun(d, q);
    hide Split, SafeRun, Run, Output, Step, Blocking;
    Overtaken(q);
    SplitUnblocksIff(Waiting(q), 2, 2);
    StuckForGood(Split(Waiting(q), 2, 2).1, more);
  }

  lemma Overtaken(q: Seg)
    requires q.pos == 0 && |q.data| == 8 && !q.fin
    ensures var t := Waiting(q);
            && t.unsent == [q] && t.lastack == 4 && t.mss == TCP_MSS && !InWindow(t, 2)
            && Split(t, 2, 2).1.unsent != []
  {
    hide Trim;
  }

  lemma BlockingRun(d: seq<byte>, q: Seg)
    requires |d| == 8 && q == Plain(0, d)
    ensures SafeRun(Initial(0, TCP_MSS, 1000), Blocking(d)) && Run(Initial(0, TCP_MSS, 1000), Blocking(d)) == Waiting(q)
  {
    WriteStep(d);
    SendStep(q);
    AckStep(q);
    TimeoutStep(q);
    var s, t := Initial(0, TCP_MSS, 1000), Sent(q).(lastack := 4);
    assert Safe(Sending(q), DoOutput(1000, true, false, 1)) && Safe(Sent(q), DoAck(4)) && Safe(t, DoTimeout(false));
    hide Step, Safe, Sending, Sent, Waiting;
    RunTwo(Sent(q), DoAck(4), DoTimeout(false));
    RunCons(Sending(q), DoOutput(1000, true, false, 1), [DoAck(4), DoTimeout(false)]);
    RunCons(s, DoWrite(Chunk(d)), [DoOutput(1000, true, false, 1)] + [DoAck(4), DoTimeout(false)]);
    assert [DoWrite(Chunk(d))] + ([DoOutput(1000, true, false, 1)] + [DoAck(4), DoTimeout(false)]) == Blocking(d);
  }
}
