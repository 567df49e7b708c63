/** A split of a partly acknowledged segment can block the queue for good: its head then
    lies below lastack, and the unsigned window test takes it for one far ahead. */
module SendQueueStuck {
  import opened SendQueue
  import opened SendQueueWrite
  import opened SendQueueRuns

  /** Nothing is in flight, and the head of unsent is acknowledged already. */
  predicate Stuck(s: Snd)
  {
    s.unacked == [] && |s.unsent| >= 2 && s.unsent[0].Top() < s.lastack
  }

  /** The persist timer splits a head that the window wnd cannot take. The new head can be
      sent if and only if the acknowledged part of the segment is not longer than the
      window; otherwise no window lets it through and the queue is stuck. */
  lemma SplitUnblocksIff(s: Snd, wnd: nat, mem: nat)
    requires Splits(s, wnd) && mem >= 2 && s.unsent[0].pos <= s.lastack
    ensures var t := Split(s, wnd, mem).1;
            && (InWindow(t, wnd) <==> s.lastack <= s.unsent[0].pos + wnd)
            && (!InWindow(t, wnd) ==> forall v: nat, fast, n :: Output(t, v, fast, true, n) == (OK, t))
            && (!InWindow(t, wnd) && s.unacked == [] ==> Stuck(t))
  {
  }

  /** Only an acknowledgement of something sent before can move it again. */
  predicate NoNewAck(e: Event) { e.DoAck? ==> e.d <= 0 }

  lemma StepStuck(s: Snd, e: Event)
    requires Stuck(s) && NoNewAck(e)
    ensures Stuck(Step(s, e)) && Step(s, e).unsent[0].pos == s.unsent[0].pos
  {
    match e
    case DoWrite(a) =>
      if Sane(s) {
        WriteStuck(s, a);
      }
    case DoSplit(split, mem) => SplitStuck(s, split, mem);
    case _ =>
  }

  lemma WriteStuck(s: Snd, a: Args)
    requires Stuck(s) && Sane(s)
    ensures var t := Write(s, a).1; Stuck(t) && t.unsent[0] == s.unsent[0]
  {
    hide PlanTail, Build, GrowLast, TailFits, RomFits, MssLocal;
  }

  lemma SplitStuck(s: Snd, split: nat, mem: nat)
    requires Stuck(s)
    ensures var t := Split(s, split, mem).1; Stuck(t) && t.unsent[0].pos == s.unsent[0].pos
  {
    hide Trim;
  }

  /** Whatever is written, closed, timed out, probed or announced: the same segment stays
      in front, and nothing is sent. */
  lemma {:induction false} StuckForGood(s: Snd, es: seq<Event>)
    requires Stuck(s) && forall e :: e in es ==> NoNewAck(e)
    ensures var t := Run(s, es); Stuck(t) && t.unsent[0].pos == s.unsent[0].pos && t.lastack == s.lastack
    decreases |es|
  {
    if es != [] {
      assert es[0] in es;
      StepStuck(s, es[0]);
      SameLastack(s, es[0]);
      hide Stuck, Step;
      StuckForGood(Step(s, es[0]), es[1..]);
    }
  }

  lemma SameLastack(s: Snd, e: Event)
    requires Stuck(s) && NoNewAck(e)
    ensures Step(s, e).lastack == s.lastack
  {
    hide PlanTail, Build, GrowLast, TailFits, RomFits, MssLocal, Trim;
  }
}
