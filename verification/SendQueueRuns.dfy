/** Runs of the sender: what holds after any sequence of writes, transmissions,
    timeouts, fast retransmissions, splits and acknowledgements. */
module SendQueueRuns {
  import opened Seq32
  import opened SendQueue
  import opened SendQueueInv
  import opened SendQueueOps
  import opened SendQueueWrite

  datatype Event =
    | DoWrite(a: Args)
    | DoClose(mem: nat)
    | DoOutput(wnd: nat, fast: bool, ackNow: bool, n: nat)
    | DoProbe(mem: nat)
    | DoTimeout(busy: bool)
    | DoFastRexmit(busy: bool)
    | DoSplit(split: nat, mem: nat)
    | DoAck(d: int)
    | DoWindow(wnd: nat)

  function Step(s: Snd, e: Event): Snd
  {
    match e
    case DoWrite(a) => if Sane(s) then Write(s, a).1 else s
    case DoClose(mem) => if s.open then SendFin(s, mem).1 else s
    case DoOutput(wnd, fast, ackNow, n) => Output(s, wnd, fast, ackNow, n).1
    case DoProbe(mem) => Probe(s, mem)
    case DoTimeout(busy) => RtoPrepare(s, busy)
    case DoFastRexmit(busy) => Rexmit(s, busy)
    case DoSplit(split, mem) => Split(s, split, mem).1
    case DoAck(d) => Ack(s, d).0
    case DoWindow(wnd) => Window(s, wnd)
  }

  /** The bytes the application has handed over in this step. */
  function Wrote(s: Snd, e: Event): seq<byte>
  {
    if e.DoWrite? && Sane(s) && Write(s, e.a).0 == OK then e.a.data else []
  }

  /** The bytes reported to the application as sent in this step. */
  function Reported(s: Snd, e: Event): nat
  {
    if e.DoAck? then Ack(s, e.d).1 else 0
  }

  /** What a caller can check beforehand: data or a FIN is only added to the last unsent
      segment if that is the newest, a segment with FIN is not split, and a split does not
      find memory for exactly one of its two allocations. */
  predicate Safe(s: Snd, e: Event)
  {
    match e
    case DoWrite(a) => s.open ==> TailNewest(s) || !Appends(s, a)
    case DoClose(_) => s.open ==> TailNewest(s)
    case DoSplit(split, mem) => Splits(s, split) ==> !s.unsent[0].fin && mem != 1
    case _ => true
  }

  lemma SameKeeps(s: Snd, t: Snd, o: int, w: seq<byte>)
    requires Inv(s, o, w) && t == s.(memerr := t.memerr, wndmax := t.wndmax)
    ensures Inv(t, o, w)
  {
  }

  lemma FailedWrite(s: Snd, a: Args, o: int, w: seq<byte>)
    requires Inv(s, o, w) && Sane(s) && Write(s, a).0 != OK
    ensures Inv(Write(s, a).1, o, w)
  {
    hide Inv, PlanTail, BuildRest;
    SameKeeps(s, s.(memerr := true), o, w);
  }

  lemma CloseKeeps(s: Snd, mem: nat, o: int, w: seq<byte>)
    requires Inv(s, o, w) && s.open && TailNewest(s)
    ensures Inv(SendFin(s, mem).1, o, w)
  {
    if SendFin(s, mem).0 == OK {
      FinIff(s, o, w, mem);
    } else {
      SameKeeps(s, s.(memerr := true), o, w);
    }
  }

  /** Every step keeps the invariant. */
  lemma StepKeeps(s: Snd, e: Event, o: int, w: seq<byte>)
    requires Inv(s, o, w) && Safe(s, e)
    ensures Inv(Step(s, e), o, w + Wrote(s, e))
  {
    SaneInv(s, o, w);
    hide Inv, Write, SendFin, Output, Probe, RtoPrepare, Rexmit, Split, Ack;
    assert w + [] == w;
    match e
    case DoWrite(a) =>
      if Write(s, a).0 == OK {
        WriteIff(s, a, o, w);
      } else {
        FailedWrite(s, a, o, w);
      }
    case DoClose(mem) =>
      if s.open {
        CloseKeeps(s, mem, o, w);
      }
    case DoOutput(wnd, fast, ackNow, n) => OutputKeeps(s, o, w, wnd, fast, ackNow, n);
    case DoProbe(mem) => ProbeKeeps(s, o, w, mem);
    case DoTimeout(busy) => RtoKeeps(s, o, w, busy);
    case DoFastRexmit(busy) => RexmitKeeps(s, o, w, busy);
    case DoSplit(split, mem) => SplitKeeps(s, o, w, split, mem);
    case DoAck(d) => AckKeeps(s, o, w, d);
    case DoWindow(wnd) => SameKeeps(s, Window(s, wnd), o, w);
  }

  /** A run in which every step is safe. */
  ghost predicate SafeRun(s: Snd, es: seq<Event>)
    decreases |es|
  {
    es == [] || (Safe(s, es[0]) && SafeRun(Step(s, es[0]), es[1..]))
  }

  function Run(s: Snd, es: seq<Event>): Snd
    decreases |es|
  {
    if es == [] then s else Run(Step(s, es[0]), es[1..])
  }

  function Written(s: Snd, es: seq<Event>): seq<byte>
    decreases |es|
  {
    if es == [] then [] else Wrote(s, es[0]) + Written(Step(s, es[0]), es[1..])
  }

  function AllReported(s: Snd, es: seq<Event>): nat
    decreases |es|
  {
    if es == [] then 0 else Reported(s, es[0]) + AllReported(Step(s, es[0]), es[1..])
  }

  /** Over every safe run, every sequence number from lastack on is queued exactly once,
      with the byte the application wrote there; the accounting stays exact. */
  lemma {:induction false} RunKeeps(s: Snd, es: seq<Event>, o: int, w: seq<byte>)
    requires Inv(s, o, w) && SafeRun(s, es)
    ensures Inv(Run(s, es), o, w + Written(s, es))
    decreases |es|
  {
    hide Inv, Step, Wrote, Safe;
    if es == [] {
      assert w + [] == w;
    } else {
      StepKeeps(s, es[0], o, w);
      RunKeeps(Step(s, es[0]), es[1..], o, w + Wrote(s, es[0]));
      assert w + Wrote(s, es[0]) + Written(Step(s, es[0]), es[1..])
          == w + (Wrote(s, es[0]) + Written(Step(s, es[0]), es[1..]));
    }
  }

  /** What the invariant says about each unacknowledged sequence number: one segment
      holds it, and that segment has the byte written for it, or is the FIN. */
  lemma HeldOnce(s: Snd, o: int, w: seq<byte>, x: int) returns (q: Seg)
    requires Inv(s, o, w) && s.lastack <= x < Final(s, o, w)
    ensures q in s.All() && q.pos <= x < q.End()
    ensures if x < o + |w| then x < q.Top() && q.data[x - q.pos] == w[x - o] else q.fin && x == q.Top()
    ensures Count(s.All(), x) == 1
  {
    CountConcat(s.unacked, s.unsent, x);
    assert Times(s.unacked, s.unsent, x) == 1;
    var i := Holder(s.All(), x);
    q := s.All()[i];
    assert q in s.unacked || q in s.unsent;
    assert Good(q, s.open, o, w);
  }

  // ----- conservation ----------------------------------------------------------------------------

  lemma StepBuf(s: Snd, e: Event)
    ensures Step(s, e).buf == s.buf - |Wrote(s, e)| + Reported(s, e)
  {
    hide Build, PlanTail, GrowLast, Acked, PutBefore;
    match e
    case DoOutput(wnd, fast, ackNow, n) => SendLoopBuf(s, wnd, fast, n);
    case _ =>
  }

  lemma {:induction false} SendLoopBuf(s: Snd, wnd: nat, fast: bool, n: nat)
    ensures SendLoop(s, wnd, fast, n).1.buf == s.buf
    decreases |s.unsent|
  {
    if s.unsent != [] && InWindow(s, wnd) && MaySend(s, fast) && n > 0 {
      SendLoopBuf(SendHead(s), wnd, fast, n - 1);
    }
  }

  lemma {:induction false} RunBuf(s: Snd, es: seq<Event>)
    ensures Run(s, es).buf == s.buf - |Written(s, es)| + AllReported(s, es)
    decreases |es|
  {
    hide Step, Wrote, Safe, Reported;
    if es != [] {
      StepBuf(s, es[0]);
      RunBuf(Step(s, es[0]), es[1..]);
    }
  }

  /** Bytes written are either reported as sent or still queued. */
  lemma RunConserves(s: Snd, es: seq<Event>, o: int, w: seq<byte>)
    requires Inv(s, o, w) && SafeRun(s, es)
    ensures var t := Run(s, es);
            && Bytes(s.All()) + |Written(s, es)| == Bytes(t.All()) + AllReported(s, es)
            && t.buf + Bytes(t.All()) == TCP_SND_BUF && t.queuelen == Bufs(t.All())
  {
    var t := Run(s, es);
    RunKeeps(s, es, o, w);
    RunBuf(s, es);
    SumsConcat(s.unacked, s.unsent);
    SumsConcat(t.unacked, t.unsent);
  }
}
