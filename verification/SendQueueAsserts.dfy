/** The assertions of tcp_write on the last unsent segment ("mss_local is too small",
    "inconsistent oversize vs. space", "ROM pbufs cannot be oversized"), and exactly when
    a connection can reach one. */
module SendQueueAsserts {
  import opened Seq32
  import opened SendQueue
  import opened SendQueueInv
  import opened SendQueueWrite
  import opened SendQueueRuns
  import opened SendQueueOrder
  import opened SendQueueExamples
  import opened SendQueueRoom

  ghost predicate Small(u: seq<Seg>, m: int)
  {
    forall q :: q in u ==> |q.data| <= m
  }

  /** The limit on segment sizes can only grow. */
  predicate Settled(s: Snd) { s.mss > 0 && (s.wndmax >= 2 || s.mss == 1) }

  /** Every queued segment, and the last one with its spare space, fits a segment. */
  ghost predicate Fitting(s: Snd)
  {
    && Settled(s) && (s.unsent == [] ==> s.oversize == 0)
    && Small(s.unacked, MssLocal(s)) && Small(s.unsent, MssLocal(s)) && TailFits(s)
  }

  lemma SmallParts(u: seq<Seg>, m: int, k: nat, h: Seg)
    requires Small(u, m) && k <= |u|
    ensures Small(u[..k], m) && Small(u[k..], m)
    ensures |h.data| <= m ==> Small(u[..k] + [h] + u[k..], m) && Small(u + [h], m)
  {
    forall q | q in u[..k] || q in u[k..] ensures q in u {
    }
  }

  // ----- tcp_write --------------------------------------------------------------------------

  /** The last of the new segments fits with its spare space. */
  predicate BuiltFits(b: Built, m: int)
  {
    b.queue != [] ==> |b.queue[|b.queue| - 1].data| + Max(b.oversize, 0) <= m
  }

  lemma {:induction false} BuildSmall(s: Snd, a: Args, m: int, off: nat, b: Built, mem: nat)
    requires off <= |a.data| && m > 0 && Build(s, a, m, off, b, mem).Some?
    requires Small(b.queue, m) && BuiltFits(b, m) && (!a.copy && off < |a.data| ==> b.oversize <= 0)
    ensures var r := Build(s, a, m, off, b, mem).value; Small(r.queue, m) && BuiltFits(r, m)
    ensures off == |a.data| ==> Build(s, a, m, off, b, mem).value == b
    ensures off < |a.data| ==> Build(s, a, m, off, b, mem).value.queue != []
    decreases |a.data| - off
  {
    if off < |a.data| {
      var q := NewSeg(s, a, m, off, b.queue == []);
      var c := Built(b.queue + [q], b.queuelen + |q.pieces|, if a.copy then q.room else b.oversize);
      NewSegFits(s, a, m, off, b);
      hide NewSeg, Small, BuiltFits;
      BuildSmall(s, a, m, off + |q.data|, c, mem - |q.pieces| - 1);
    }
  }

  lemma NewSegFits(s: Snd, a: Args, m: int, off: nat, b: Built)
    requires off < |a.data| && m > 0 && Small(b.queue, m) && (!a.copy ==> b.oversize <= 0)
    ensures var q := NewSeg(s, a, m, off, b.queue == []);
            var c := Built(b.queue + [q], b.queuelen + |q.pieces|, if a.copy then q.room else b.oversize);
            Small(c.queue, m) && BuiltFits(c, m)
  {
    var q := NewSeg(s, a, m, off, b.queue == []);
    assert |q.data| + Max(q.room, 0) <= m;
    hide NewSeg;
    SmallParts(b.queue, m, 0, q);
  }

  lemma GrownFits(s: Snd, a: Args, p: Plan)
    requires Sane(s) && TailFits(s) && PlanTail(s, a) == Some(p) && s.unsent != []
    ensures var g := GrowLast(s.unsent[|s.unsent| - 1], a, p);
            && |g.data| + Max(p.oversize, 0) <= MssLocal(s) && (p.Bytes() < |a.data| && !a.copy ==> p.oversize <= 0)
  {
  }

  lemma WriteFits(s: Snd, a: Args)
    requires Fitting(s) && Sane(s)
    ensures Fitting(Write(s, a).1) && (Tight(s) ==> Write(s, a).0 != Asserted)
  {
    if Tight(s) {
      TightRom(s, a);
    }
    hide Tight, RomFits;
    if Write(s, a).0 == OK {
      var p := PlanTail(s, a).value;
      var b := BuildRest(s, a, p).value;
      CommitFits(s, a, p, b);
    }
  }

  lemma CommitFits(s: Snd, a: Args, p: Plan, b: Built)
    requires Fitting(s) && Sane(s) && PlanTail(s, a) == Some(p) && BuildRest(s, a, p) == Some(b)
    ensures Fitting(Commit(s, a, p, b))
  {
    var m, v, t := MssLocal(s), Grown(s, a, p), Commit(s, a, p, b);
    GrownSmall(s, a, p);
    EmptyFits(s.queuelen + p.NewBufs(), p.oversize, m);
    SameLimit(s, t);
    hide Build, GrowLast, PlanTail, Grown, TailFits, MssLocal, Small, BuiltFits;
    BuildSmall(s, a, m, p.Bytes(), Built([], s.queuelen + p.NewBufs(), p.oversize), p.mem);
    JoinFits(s, v, p, b, m);
    TailFitsIs(t, b.queuelen);
  }

  lemma EmptyFits(queuelen: int, oversize: int, m: int)
    ensures Small([], m) && BuiltFits(Built([], queuelen, oversize), m)
  {
  }

  lemma SameLimit(s: Snd, t: Snd)
    requires t.mss == s.mss && t.wndmax == s.wndmax
    ensures MssLocal(t) == MssLocal(s) && (Settled(t) <==> Settled(s))
  {
  }

  lemma GrownSmall(s: Snd, a: Args, p: Plan)
    requires Fitting(s) && Sane(s) && PlanTail(s, a) == Some(p)
    ensures var v := Grown(s, a, p); var m := MssLocal(s);
            && Small(v, m) && BuiltFits(Built(v, 0, p.oversize), m) && (v == [] <==> s.unsent == [])
            && (v == [] ==> p.oversize == 0) && (p.Bytes() < |a.data| && !a.copy ==> p.oversize <= 0)
  {
    if s.unsent != [] {
      GrownFits(s, a, p);
      SmallParts(s.unsent, MssLocal(s), |s.unsent| - 1, s.unsent[|s.unsent| - 1]);
    }
  }

  lemma JoinFits(s: Snd, v: seq<Seg>, p: Plan, b: Built, m: int)
    requires Small(v, m) && Small(b.queue, m) && BuiltFits(b, m) && BuiltFits(Built(v, 0, p.oversize), m)
    requires b.queue == [] ==> b.oversize == p.oversize
    ensures Small(v + b.queue, m) && BuiltFits(Built(v + b.queue, b.queuelen, Max(b.oversize, 0)), m)
  {
  }

  lemma TailFitsIs(t: Snd, queuelen: int)
    ensures BuiltFits(Built(t.unsent, queuelen, t.oversize), MssLocal(t)) ==> TailFits(t)
  {
  }

  // ----- the other operations ------------------------------------------------------------------

  lemma MssLocalGrows(s: Snd, wnd: nat)
    requires Settled(s)
    ensures MssLocal(s) <= MssLocal(Window(s, wnd))
  {
  }

  /** An operation that moves segments around without making any larger. */
  lemma MovedFits(s: Snd, t: Snd)
    requires Fitting(s) && t.wndmax == s.wndmax && t.mss == s.mss
    requires Small(t.unacked, MssLocal(s)) && Small(t.unsent, MssLocal(s))
    requires t.oversize == 0 || (t.oversize == s.oversize && t.unsent != [] && s.unsent != []
             && |t.unsent[|t.unsent| - 1].data| <= |s.unsent[|s.unsent| - 1].data|)
    ensures Fitting(t)
  {
    if t.unsent != [] {
      assert t.unsent[|t.unsent| - 1] in t.unsent;
    }
  }

  lemma {:induction false} SendLoopFits(s: Snd, wnd: nat, fast: bool, n: nat)
    requires Small(s.unacked, MssLocal(s)) && Small(s.unsent, MssLocal(s)) && (s.unsent != [] ==> Fitting(s))
    requires Settled(s)
    ensures Fitting(SendLoop(s, wnd, fast, n).1)
    decreases |s.unsent|
  {
    hide SendHead, InWindow, Small, Fitting, MssLocal;
    EndFits(s, false);
    EndFits(s, true);
    if s.unsent != [] && InWindow(s, wnd) && MaySend(s, fast) && n > 0 {
      SendHeadFits(s);
      SendLoopFits(SendHead(s), wnd, fast, n - 1);
    }
  }

  lemma EndFits(s: Snd, memerr: bool)
    requires Small(s.unacked, MssLocal(s)) && Small(s.unsent, MssLocal(s)) && (s.unsent != [] ==> Fitting(s))
    requires Settled(s)
    ensures Fitting(s.(memerr := memerr, oversize := if s.unsent == [] then 0 else s.oversize))
    ensures s.unsent != [] ==> Fitting(s.(memerr := memerr))
  {
  }

  lemma SendHeadFits(s: Snd)
    requires Small(s.unacked, MssLocal(s)) && Small(s.unsent, MssLocal(s)) && s.unsent != [] && Fitting(s)
    ensures var t := SendHead(s);
            && Small(t.unacked, MssLocal(t)) && Small(t.unsent, MssLocal(t)) && (t.unsent != [] ==> Fitting(t))
            && t.wndmax == s.wndmax && t.mss == s.mss && |t.unsent| < |s.unsent|
  {
    var h := s.unsent[0];
    assert h in s.unsent;
    SmallParts(s.unacked, MssLocal(s), PlaceOf(s.unacked, h.pos), h);
    SmallParts(s.unsent, MssLocal(s), 1, h);
  }

  lemma RexmitFits(s: Snd, busy: bool)
    requires Fitting(s)
    ensures Fitting(Rexmit(s, busy))
  {
    if s.unacked != [] && !busy {
      var h, t := s.unacked[0], Rexmit(s, busy);
      assert h in s.unacked;
      SmallParts(s.unsent, MssLocal(s), PlaceOf(s.unsent, h.pos), h);
      SmallParts(s.unacked, MssLocal(s), 1, h);
      MovedFits(s, t);
    }
  }

  /** The assertion of tcp_split_unsent_seg holds too: no segment is larger than mss. */
  lemma SplitFits(s: Snd, split: nat, mem: nat)
    requires Fitting(s)
    ensures Fitting(Split(s, split, mem).1) && Split(s, split, mem).0 != Asserted
  {
    var t := Split(s, split, mem).1;
    assert s.unsent != [] ==> s.unsent[0] in s.unsent;
    if Splits(s, split) && mem >= 2 {
      assert s.unsent[0] in s.unsent;
      SmallParts(s.unsent, MssLocal(s), 1, s.unsent[0]);
      hide Trim;
      assert Small([t.unsent[0], t.unsent[1]] + s.unsent[1..], MssLocal(s));
      MovedFits(s, t);
    }
  }

  lemma AckFits(s: Snd, d: int)
    requires Fitting(s)
    ensures Fitting(Ack(s, d).0)
  {
    if 0 < d <= s.nxt - s.lastack {
      var i, j := Acked(s.unacked, s.lastack + d), Acked(s.unsent, s.lastack + d);
      if s.unacked != [] { SmallParts(s.unacked, MssLocal(s), i, s.unacked[0]); }
      if s.unsent != [] { SmallParts(s.unsent, MssLocal(s), j, s.unsent[0]); }
      hide Acked, Bytes, Bufs, Small, MssLocal, TailFits, Settled;
      MovedFits(s, Ack(s, d).0);
    }
  }

  lemma FinFits(s: Snd, mem: nat)
    requires Fitting(s)
    ensures Fitting(SendFin(s, mem).1)
  {
    var t := SendFin(s, mem).1;
    forall q | q in t.unsent ensures |q.data| <= MssLocal(s) {
      var i :| 0 <= i < |t.unsent| && t.unsent[i] == q;
      assert i < |s.unsent| ==> s.unsent[i] in s.unsent;
    }
  }

  lemma StepFits(s: Snd, e: Event)
    requires Fitting(s)
    ensures Fitting(Step(s, e))
  {
    hide Fitting, Write, SendFin, SendLoop, Rexmit, Split, Ack;
    match e
    case DoWrite(a) =>
      if Sane(s) {
        WriteFits(s, a);
      }
    case DoClose(mem) => FinFits(s, mem);
    case DoOutput(wnd, fast, ackNow, n) => OutputFits(s, wnd, fast, ackNow, n);
    case DoProbe(mem) => SameFits(s, Probe(s, mem));
    case DoTimeout(busy) => RtoFits(s, busy);
    case DoFastRexmit(busy) => RexmitFits(s, busy);
    case DoSplit(split, mem) => SplitFits(s, split, mem);
    case DoAck(d) => AckFits(s, d);
    case DoWindow(wnd) => WindowFits(s, wnd);
  }

  lemma OutputFits(s: Snd, wnd: nat, fast: bool, ackNow: bool, n: nat)
    requires Fitting(s)
    ensures Fitting(Output(s, wnd, fast, ackNow, n).1)
  {
    SendLoopFits(s, wnd, fast, n);
  }

  lemma SameFits(s: Snd, t: Snd)
    requires Fitting(s) && t == s.(nxt := t.nxt)
    ensures Fitting(t)
  {
  }

  lemma RtoFits(s: Snd, busy: bool)
    requires Fitting(s)
    ensures Fitting(RtoPrepare(s, busy))
  {
    var t := RtoPrepare(s, busy);
    if s.unacked != [] && !busy {
      assert Small(t.unsent, MssLocal(s));
      MovedFits(s, t);
    }
  }

  lemma WindowFits(s: Snd, wnd: nat)
    requires Fitting(s)
    ensures Fitting(Window(s, wnd))
  {
    MssLocalGrows(s, wnd);
  }

  /** From a state where everything fits, no run reaches a tcp_write that asserts. */
  lemma {:induction false} AssertionsHold(s: Snd, es: seq<Event>, a: Args)
    requires Fitting(s) && Tight(s)
    ensures var t := Run(s, es); Fitting(t) && Tight(t) && (Sane(t) ==> Write(t, a).0 != Asserted)
    decreases |es|
  {
    hide Step, Fitting, Tight;
    if es == [] {
      if Sane(s) {
        WriteFits(s, a);
      }
    } else {
      StepFits(s, es[0]);
      StepTight(s, es[0]);
      AssertionsHold(Step(s, es[0]), es[1..], a);
    }
  }

  lemma InitialFits(o: int, mss: int, wndmax: nat)
    requires mss > 0 && (wndmax >= 2 || mss == 1)
    ensures Fitting(Initial(o, mss, wndmax)) && Tight(Initial(o, mss, wndmax))
  {
  }

  /** Some run of the connection reaches a tcp_write that asserts. */
  ghost predicate CanAssert(s: Snd)
  {
    exists es, a :: AssertsAfter(s, es, a)
  }

  predicate AssertsAfter(s: Snd, es: seq<Event>, a: Args)
  {
    Sane(Run(s, es)) && Write(Run(s, es), a).0 == Asserted
  }

  /** The assertions of tcp_write can fire on a new connection if and only if the peer has
      announced a window below two bytes and segments of two bytes are allowed: two bytes
      are written, the window becomes two bytes, and one more byte is written. */
  lemma AssertionIff(o: int, mss: int, wndmax: nat)
    requires 0 < mss <= TCP_MSS
    ensures CanAssert(Initial(o, mss, wndmax)) <==> wndmax < 2 && mss >= 2
  {
    var s := Initial(o, mss, wndmax);
    if wndmax < 2 && mss >= 2 {
      AssertionFires(o, mss, wndmax);
    } else {
      InitialFits(o, mss, wndmax);
      forall es, a ensures !AssertsAfter(s, es, a) {
        AssertionsHold(s, es, a);
      }
    }
  }

  lemma AssertionFires(o: int, mss: int, wndmax: nat)
    requires 2 <= mss <= TCP_MSS && wndmax < 2
    ensures CanAssert(Initial(o, mss, wndmax))
  {
    var s := Initial(o, mss, wndmax);
    var d, e := DoWrite(Chunk([1, 2])), DoWindow(2);
    assert MssLocal(s) == mss;
    WriteFirst(s, [1, 2]);
    var t := s.(unsent := [Plain(o, [1, 2])], lbb := o + 2, buf := s.buf - 2, queuelen := 1, oversize := 0);
    assert Step(s, d) == t && Safe(s, d);
    var u := t.(wndmax := 2);
    assert Step(t, e) == u && Safe(t, e);
    hide Step, Safe, Write;
    RunTwo(s, d, e);
    AssertsHere(u, Chunk([3]));
    assert AssertsAfter(s, [d, e], Chunk([3]));
  }

  lemma AssertsHere(u: Snd, a: Args)
    requires u.open && u.wndmax == 2 && u.mss >= 2 && u.queuelen == 1 && |a.data| == 1 <= u.buf
    requires |u.unsent| == 1 && |u.unsent[0].data| == 2 && u.unsent[0].pieces != []
    ensures Sane(u) && Write(u, a).0 == Asserted
  {
    assert MssLocal(u) == 1 && !TailFits(u);
    assert TCP_SND_QUEUELEN == 32;
  }

  // ----- the pbuf that is freed twice -----------------------------------------------------------

  /** After the run a split with memory for its pbuf only would free that pbuf twice. */
  predicate FreesTwiceAfter(s: Snd, es: seq<Event>, split: nat)
  {
    Split(Run(s, es), split, 1).0 == FreedTwice
  }

  ghost predicate CanFreeTwice(s: Snd)
  {
    exists es, split :: SafeRun(s, es) && FreesTwiceAfter(s, es, split)
  }

  /** Every new connection that may use segments of two bytes can get there, and no other
      can, whatever the run. */
  lemma FreedTwiceIff(o: int, mss: int, wndmax: nat)
    requires 0 < mss <= TCP_MSS
    ensures CanFreeTwice(Initial(o, mss, wndmax)) <==> mss >= 2
    ensures mss < 2 ==> forall es, split :: !FreesTwiceAfter(Initial(o, mss, wndmax), es, split)
  {
    var s := Initial(o, mss, wndmax);
    if mss >= 2 {
      TwoBytesQueued(o, mss, wndmax);
    } else {
      InitialFits(o, mss, wndmax);
      forall es, split ensures !FreesTwiceAfter(s, es, split) {
        NothingToSplit(s, es, split);
      }
    }
  }

  lemma TwoBytesQueued(o: int, mss: int, wndmax: nat)
    requires 2 <= mss <= TCP_MSS
    ensures CanFreeTwice(Initial(o, mss, wndmax))
  {
    var s := Initial(o, mss, wndmax);
    var d, e := DoWindow(4), DoWrite(Chunk([1, 2]));
    var t := s.(wndmax := Max(wndmax, 4));
    assert Step(s, d) == t && Safe(s, d) && MssLocal(t) >= 2;
    WriteFirst(t, [1, 2]);
    var u := t.(unsent := [Plain(o, [1, 2])], lbb := o + 2, buf := t.buf - 2, queuelen := 1, oversize := 0);
    assert Step(t, e) == u && Safe(t, e);
    hide Step, Safe, Write;
    RunTwo(s, d, e);
    assert FreesTwiceAfter(s, [d, e], 1);
  }

  lemma {:induction false} NothingToSplit(s: Snd, es: seq<Event>, split: nat)
    requires Fitting(s) && s.mss == 1
    ensures !FreesTwiceAfter(s, es, split)
    decreases |es|
  {
    if es == [] {
      assert MssLocal(s) == 1;
      assert s.unsent != [] ==> s.unsent[0] in s.unsent;
    } else {
      StepFits(s, es[0]);
      SameMss(s, es[0]);
      hide Step, Fitting, Split;
      NothingToSplit(Step(s, es[0]), es[1..], split);
    }
  }

  lemma SameMss(s: Snd, e: Event)
    ensures Step(s, e).mss == s.mss
  {
    hide PlanTail, Build, Acked, PutBefore, Trim;
    match e
    case DoOutput(wnd, fast, ackNow, n) => SendLoopMss(s, wnd, fast, n);
    case _ =>
  }

  lemma {:induction false} SendLoopMss(s: Snd, wnd: nat, fast: bool, n: nat)
    ensures SendLoop(s, wnd, fast, n).1.mss == s.mss
    decreases |s.unsent|
  {
    if s.unsent != [] && InWindow(s, wnd) && MaySend(s, fast) && n > 0 {
      SendLoopMss(SendHead(s), wnd, fast, n - 1);
    }
  }
}
