/** unsent_oversize never claims space that the last unsent segment does not have, and a
    segment that references the application's memory has none: kept by every event,
    whatever the order of the queues. */
module SendQueueRoom {
  import opened SendQueue
  import opened SendQueueInv
  import opened SendQueueWrite
  import opened SendQueueRuns

  /** Referenced memory has no spare space behind it. */
  ghost predicate NoRomRoom(u: seq<Seg>)
  {
    forall q :: q in u ==> q.rom ==> q.room == 0
  }

  ghost predicate Tight(s: Snd) { NoRomRoom(s.unacked) && NoRomRoom(s.unsent) && TailRoom(s) }

  /** So a referenced buffer is only extended when nothing was copied before. */
  lemma TightRom(s: Snd, a: Args)
    requires Tight(s) && TailFits(s)
    ensures RomFits(s, a)
  {
    if s.unsent != [] {
      assert s.unsent[|s.unsent| - 1] in s.unsent;
    }
  }

  lemma Parts(u: seq<Seg>, k: nat, h: Seg)
    requires NoRomRoom(u) && k <= |u|
    ensures NoRomRoom(u[..k]) && NoRomRoom(u[k..])
    ensures (h.rom ==> h.room == 0) ==>
              NoRomRoom(u[..k] + [h] + u[k..]) && NoRomRoom(u + [h]) && NoRomRoom(u[..k] + [h])
  {
    forall q | q in u[..k] || q in u[k..] ensures q in u {
    }
  }

  lemma {:induction false} BuildTight(s: Snd, a: Args, m: int, off: nat, b: Built, mem: nat)
    requires off <= |a.data| && m > 0 && Build(s, a, m, off, b, mem).Some? && NoRomRoom(b.queue)
    ensures NoRomRoom(Build(s, a, m, off, b, mem).value.queue)
    decreases |a.data| - off
  {
    if off < |a.data| {
      var q := NewSeg(s, a, m, off, b.queue == []);
      var c := Built(b.queue + [q], b.queuelen + |q.pieces|, if a.copy then q.room else b.oversize);
      assert q.rom ==> q.room == 0;
      Parts(b.queue, 0, q);
      hide NewSeg, NoRomRoom;
      BuildTight(s, a, m, off + |q.data|, c, mem - |q.pieces| - 1);
    }
  }

  lemma WriteTight(s: Snd, a: Args)
    requires Tight(s) && Sane(s)
    ensures Tight(Write(s, a).1)
  {
    if Write(s, a).0 == OK {
      var p := PlanTail(s, a).value;
      var b := BuildRest(s, a, p).value;
      CommitRoom(s, a, p, b);
      GrownTight(s, a, p);
      BuildTight(s, a, MssLocal(s), p.Bytes(), Built([], s.queuelen + p.NewBufs(), p.oversize), p.mem);
      hide Build, PlanTail, Grown, TailRoom, MssLocal, TailFits, RomFits;
    } else {
      hide Build, PlanTail, Grown, NoRomRoom, MssLocal, TailFits, RomFits;
    }
  }

  lemma GrownTight(s: Snd, a: Args, p: Plan)
    requires Tight(s) && Sane(s) && PlanTail(s, a) == Some(p)
    ensures NoRomRoom(Grown(s, a, p))
  {
    if s.unsent != [] {
      var n := |s.unsent| - 1;
      assert s.unsent[n] in s.unsent;
      Parts(s.unsent, n, GrowLast(s.unsent[n], a, p));
    }
  }

  lemma {:induction false} SendLoopTight(s: Snd, wnd: nat, fast: bool, n: nat)
    requires NoRomRoom(s.unacked) && NoRomRoom(s.unsent) && (s.unsent != [] ==> TailRoom(s))
    ensures Tight(SendLoop(s, wnd, fast, n).1)
    decreases |s.unsent|
  {
    hide SendHead, InWindow, MaySend, NoRomRoom, TailRoom, Tight;
    EndTight(s, false);
    EndTight(s, true);
    if s.unsent != [] && InWindow(s, wnd) && MaySend(s, fast) && n > 0 {
      SendHeadTight(s);
      SendLoopTight(SendHead(s), wnd, fast, n - 1);
    }
  }

  lemma EndTight(s: Snd, memerr: bool)
    requires NoRomRoom(s.unacked) && NoRomRoom(s.unsent) && (s.unsent != [] ==> TailRoom(s))
    ensures Tight(s.(memerr := memerr, oversize := if s.unsent == [] then 0 else s.oversize))
    ensures s.unsent != [] ==> Tight(s.(memerr := memerr))
  {
  }

  lemma SendHeadTight(s: Snd)
    requires NoRomRoom(s.unacked) && NoRomRoom(s.unsent) && s.unsent != [] && TailRoom(s)
    ensures var t := SendHead(s);
            && NoRomRoom(t.unacked) && NoRomRoom(t.unsent) && (t.unsent != [] ==> TailRoom(t))
               && |t.unsent| < |s.unsent|
  {
    var h := s.unsent[0];
    assert h in s.unsent;
    Parts(s.unacked, PlaceOf(s.unacked, h.pos), h);
    Parts(s.unsent, 1, h);
  }

  lemma RexmitTight(s: Snd, busy: bool)
    requires Tight(s)
    ensures Tight(Rexmit(s, busy))
  {
    if s.unacked != [] && !busy {
      var h := s.unacked[0];
      assert h in s.unacked;
      Parts(s.unsent, PlaceOf(s.unsent, h.pos), h);
      Parts(s.unacked, 1, h);
      hide NoRomRoom;
    }
  }

  lemma SplitTight(s: Snd, split: nat, mem: nat)
    requires Tight(s)
    ensures Tight(Split(s, split, mem).1)
  {
    if Splits(s, split) && mem >= 2 {
      var t := Split(s, split, mem).1;
      Parts(s.unsent, 1, s.unsent[0]);
      hide Trim;
      assert NoRomRoom([t.unsent[0], t.unsent[1]] + s.unsent[1..]);
    }
  }

  lemma AckTight(s: Snd, d: int)
    requires Tight(s)
    ensures Tight(Ack(s, d).0)
  {
    if 0 < d <= s.nxt - s.lastack {
      var i, j := Acked(s.unacked, s.lastack + d), Acked(s.unsent, s.lastack + d);
      if s.unacked != [] { Parts(s.unacked, i, s.unacked[0]); }
      if s.unsent != [] { Parts(s.unsent, j, s.unsent[0]); }
      hide Acked, Bytes, Bufs, NoRomRoom;
    }
  }

  lemma FinTight(s: Snd, mem: nat)
    requires Tight(s)
    ensures Tight(SendFin(s, mem).1)
  {
    var t := SendFin(s, mem).1;
    forall q | q in t.unsent ensures q.rom ==> q.room == 0 {
      var i :| 0 <= i < |t.unsent| && t.unsent[i] == q;
      assert i < |s.unsent| ==> s.unsent[i] in s.unsent;
    }
  }

  lemma RtoTight(s: Snd, busy: bool)
    requires Tight(s)
    ensures Tight(RtoPrepare(s, busy))
  {
  }

  lemma OutputTight(s: Snd, wnd: nat, fast: bool, ackNow: bool, n: nat)
    requires Tight(s)
    ensures Tight(Output(s, wnd, fast, ackNow, n).1)
  {
    hide NoRomRoom, SendLoop;
    SendLoopTight(s, wnd, fast, n);
  }

  lemma SameTight(s: Snd, t: Snd)
    requires Tight(s) && t == s.(nxt := t.nxt, wndmax := t.wndmax)
    ensures Tight(t)
  {
  }

  lemma StepTight(s: Snd, e: Event)
    requires Tight(s)
    ensures Tight(Step(s, e))
  {
    hide Tight, Write, SendFin, Output, Rexmit, Split, Ack;
    match e
    case DoWrite(a) =>
      if Sane(s) {
        WriteTight(s, a);
      }
    case DoClose(mem) => FinTight(s, mem);
    case DoOutput(wnd, fast, ackNow, n) => OutputTight(s, wnd, fast, ackNow, n);
    case DoProbe(mem) => SameTight(s, Probe(s, mem));
    case DoTimeout(busy) => RtoTight(s, busy);
    case DoFastRexmit(busy) => RexmitTight(s, busy);
    case DoSplit(split, mem) => SplitTight(s, split, mem);
    case DoAck(d) => AckTight(s, d);
    case DoWindow(wnd) => SameTight(s, Window(s, wnd));
  }
}
