/** What a transmission and an acknowledgement do to the queues, in terms of positions:
    which segments may leave, which must, and which are freed. */
module SendQueueMoves {
  import opened Seq32
  import opened SendQueue
  import opened SendQueueInv
  import opened SendQueueOps
  import opened SendQueueWrite
  import opened SendQueueRuns

  // ----- tcp_output ------------------------------------------------------------------------

  /** The payload ends at or above lastack and inside the window. */
  predicate Inside(s: Snd, h: Seg, wnd: nat) { s.lastack <= h.pos + |h.data| <= s.lastack + wnd }

  /** The rule of Nagle for the last unsent segment (section 4.2.3.4 of RFC 1122), with its
      exceptions for a full buffer, a failed tcp_write or tcp_output and a queued FIN. */
  predicate NagleHolds(s: Snd, h: Seg, inFlight: bool, fast: bool)
  {
    && inFlight && !fast && |h.data| < s.mss
    && s.buf != 0 && s.queuelen < TCP_SND_QUEUELEN && !s.memerr && s.open
  }

  /** t is s after its first k unsent segments have been sent. */
  ghost predicate Sent(s: Snd, t: Snd, k: nat, wnd: nat, fast: bool)
  {
    && k <= |s.unsent| && t.unsent == s.unsent[k..]
    && multiset(t.unacked) == multiset(s.unacked) + multiset(s.unsent[..k])
    && (forall i :: 0 <= i < k ==> Inside(s, s.unsent[i], wnd) && s.unsent[i].End() <= t.nxt)
    && s.nxt <= t.nxt && (t.nxt > s.nxt ==> exists i :: 0 <= i < k && t.nxt == s.unsent[i].End())
    && (k == |s.unsent| > 0 ==> !NagleHolds(s, s.unsent[k - 1], s.unacked != [] || k > 1, fast))
  }

  /** The first segment of unsent has to wait: it ends outside the window, or Nagle holds
      it back. */
  predicate Waits(t: Snd, memerr: bool, wnd: nat, fast: bool)
    requires t.unsent != []
  {
    || !Inside(t, t.unsent[0], wnd)
    || (|t.unsent| == 1 && NagleHolds(t.(memerr := memerr), t.unsent[0], t.unacked != [], fast))
  }

  lemma PutUnackedSet(u: seq<Seg>, h: Seg)
    ensures multiset(PutUnacked(u, h)) == multiset(u) + multiset{h} && PutUnacked(u, h) != []
  {
    var k := PlaceOf(u, h.pos);
    assert u == u[..k] + u[k..];
    assert multiset(u) == multiset(u[..k]) + multiset(u[k..]);
  }

  lemma SentNone(s: Snd, t: Snd, wnd: nat, fast: bool)
    requires t == s.(memerr := t.memerr, oversize := t.oversize)
    ensures Sent(s, t, 0, wnd, fast)
  {
    assert s.unsent[..0] == [];
  }

  /** One segment more in front. */
  lemma SentCons(s: Snd, t: Snd, k: nat, wnd: nat, fast: bool)
    requires s.unsent != [] && InWindow(s, wnd) && MaySend(s, fast) && Sent(SendHead(s), t, k, wnd, fast)
    ensures Sent(s, t, k + 1, wnd, fast)
  {
    SentMoved(s, t, k, wnd, fast);
    SentNxt(s, t, k, wnd, fast);
    var u := s.unsent[1..];
    HeadSame(s);
    assert SendHead(s).unacked != [] by {
      PutUnackedSet(s.unacked, s.unsent[0]);
    }
    hide PutUnacked, SendHead;
    assert forall i :: 0 < i < k + 1 ==> s.unsent[i] == u[i - 1];
    forall i | 0 <= i < k + 1 ensures Inside(s, s.unsent[i], wnd) {
      assert i > 0 ==> Inside(SendHead(s), u[i - 1], wnd);
    }
    assert k > 0 ==> s.unsent[k] == u[k - 1];
  }

  lemma SentMoved(s: Snd, t: Snd, k: nat, wnd: nat, fast: bool)
    requires s.unsent != [] && Sent(SendHead(s), t, k, wnd, fast)
    ensures k + 1 <= |s.unsent| && t.unsent == s.unsent[k + 1..]
    ensures multiset(t.unacked) == multiset(s.unacked) + multiset(s.unsent[..k + 1])
  {
    var h, u := s.unsent[0], s.unsent[1..];
    PutUnackedSet(s.unacked, h);
    HeadSame(s);
    hide PutUnacked, Inside, NagleHolds;
    assert s.unsent[..k + 1] == [h] + u[..k];
    assert u[k..] == s.unsent[k + 1..];
  }

  lemma SentNxt(s: Snd, t: Snd, k: nat, wnd: nat, fast: bool)
    requires s.unsent != [] && Sent(SendHead(s), t, k, wnd, fast)
    ensures s.nxt <= t.nxt && forall i :: 0 <= i < k + 1 ==> s.unsent[i].End() <= t.nxt
    ensures t.nxt > s.nxt ==> exists i :: 0 <= i < k + 1 && t.nxt == s.unsent[i].End()
  {
    var v, u := SendHead(s), s.unsent[1..];
    assert v.nxt == Max(s.nxt, s.unsent[0].End()) && v.unsent == u;
    hide PutUnacked, SendHead, Inside, NagleHolds;
    forall i | 0 <= i < k + 1 ensures s.unsent[i].End() <= t.nxt {
      assert i > 0 ==> s.unsent[i] == u[i - 1];
    }
    if t.nxt > v.nxt {
      var i :| 0 <= i < k && t.nxt == v.unsent[i].End();
      assert t.nxt == s.unsent[i + 1].End();
    } else if t.nxt > s.nxt {
      assert t.nxt == s.unsent[0].End();
    }
  }

  lemma {:induction false} SendLoopSends(s: Snd, wnd: nat, fast: bool, n: nat) returns (k: nat)
    ensures var (err, t) := SendLoop(s, wnd, fast, n);
            && Sent(s, t, k, wnd, fast) && k <= n
            && t == s.(unsent := t.unsent, unacked := t.unacked, nxt := t.nxt, memerr := err == MEM,
                       oversize := if t.unsent == [] then 0 else s.oversize)
            && (err == OK || err == MEM)
            && (err == OK && t.unsent != [] ==> Waits(t, s.memerr, wnd, fast))
            && (err == MEM ==> k == n && t.unsent != [] && !Waits(t, s.memerr, wnd, fast))
    decreases |s.unsent|
  {
    hide Sent, SendHead;
    if s.unsent == [] || !InWindow(s, wnd) || !MaySend(s, fast) || n == 0 {
      k := 0;
      StopsHere(s, wnd, fast, n);
    } else {
      HeadSame(s);
      k := SendLoopSends(SendHead(s), wnd, fast, n - 1);
      SentCons(s, SendLoop(s, wnd, fast, n).1, k, wnd, fast);
      k := k + 1;
    }
  }

  lemma HeadSame(s: Snd)
    requires s.unsent != []
    ensures SendHead(s) == s.(unsent := s.unsent[1..], unacked := SendHead(s).unacked, nxt := SendHead(s).nxt)
  {
  }

  lemma StopsHere(s: Snd, wnd: nat, fast: bool, n: nat)
    requires s.unsent == [] || !InWindow(s, wnd) || !MaySend(s, fast) || n == 0
    ensures var (err, t) := SendLoop(s, wnd, fast, n);
            && Sent(s, t, 0, wnd, fast)
            && (err == OK && t.unsent != [] ==> Waits(t, s.memerr, wnd, fast))
            && (err == MEM ==> n == 0 && t.unsent != [] && !Waits(t, s.memerr, wnd, fast))
  {
    SentNone(s, SendLoop(s, wnd, fast, n).1, wnd, fast);
  }

  /** tcp_output takes segments from the front of unsent, each inside the window and none
      that Nagle holds back; it stops at the end, at a segment that has to wait, or when
      the driver fails. */
  lemma OutputSends(s: Snd, wnd: nat, fast: bool, ackNow: bool, n: nat) returns (k: nat)
    ensures var (err, t) := Output(s, wnd, fast, ackNow, n);
            && Sent(s, t, k, wnd, fast) && k <= n
            && (err == OK || err == MEM)
            && (err == OK && t.unsent != [] ==> Waits(t, s.memerr, wnd, fast))
            && (err == MEM ==> k == n && t.unsent != [] && !Waits(t, s.memerr, wnd, fast))
            && (err == MEM ==> t.memerr)
            && (err == OK && t.memerr ==> ackNow && t == s)
            && t == s.(unsent := t.unsent, unacked := t.unacked, nxt := t.nxt, memerr := t.memerr,
                       oversize := t.oversize)
  {
    hide Sent;
    if s.unsent == [] || !InWindow(s, wnd) {
      k := 0;
      SentNone(s, s, wnd, fast);
      SentNone(s, s.(memerr := false), wnd, fast);
    } else {
      k := SendLoopSends(s, wnd, fast, n);
    }
  }

  // ----- tcp_write and the FIN -----------------------------------------------------------------

  /** The segment cannot take one byte more: it is as long as the peer allows, or as half
      the largest window the peer ever announced. */
  predicate Full(s: Snd, q: Seg)
  {
    |q.data| >= s.mss || (s.wndmax >= 2 && 2 * (|q.data| + 1) > s.wndmax)
  }

  /** A segment that the peer's limits allow. */
  predicate Allowed(s: Snd, q: Seg)
  {
    |q.data| <= s.mss && (s.wndmax >= 2 ==> 2 * |q.data| <= s.wndmax)
  }

  lemma LimitIs(s: Snd, q: Seg)
    requires 0 < s.mss <= TCP_MSS
    ensures |q.data| <= MssLocal(s) <==> Allowed(s, q)
    ensures |q.data| == MssLocal(s) ==> Full(s, q)
  {
  }

  lemma TailFilled(s: Snd, a: Args)
    requires s.unsent != [] && s.unsent[|s.unsent| - 1].data != [] && TailFits(s) && PlanTail(s, a).Some?
    ensures var n := |s.unsent[|s.unsent| - 1].data|; n + PlanTail(s, a).value.Bytes() == Min(MssLocal(s), n + |a.data|)
  {
    hide MssLocal;
  }

  lemma StepWindow(s: Snd, e: Event)
    ensures Step(s, e).wndmax == if e.DoWindow? && e.wnd > s.wndmax then e.wnd else s.wndmax
  {
    hide GrowLast, Trim, SendLoop, PutBefore, PutUnacked, PlanTail, RomFits, TailFits, InWindow, MaySend, Acked;
    if e.DoOutput? {
      var _ := OutputSends(s, e.wnd, e.fast, e.ackNow, e.n);
    }
  }

  /** snd_wnd_max is the largest window announced so far, over every run. */
  lemma {:induction false} LargestWindow(s: Snd, es: seq<Event>)
    ensures var m := Run(s, es).wndmax;
            && m >= s.wndmax && (forall e :: e in es && e.DoWindow? ==> e.wnd <= m)
            && (m == s.wndmax || DoWindow(m) in es)
    decreases |es|
  {
    if es != [] {
      StepWindow(s, es[0]);
      hide Step;
      LargestWindow(Step(s, es[0]), es[1..]);
      assert es == [es[0]] + es[1..];
    }
  }

  /** How tcp_write cuts the data: the last unsent segment is filled before a new one is
      started, every segment in front of another new one is full, and none is longer than
      the peer allows; what was queued in front stays as it was. */
  lemma WriteCuts(s: Snd, a: Args, o: int, w: seq<byte>)
    requires Inv(s, o, w) && Sane(s) && Write(s, a).0 == OK
    ensures var t, n := Write(s, a).1, |s.unsent|;
            && n <= |t.unsent| && (a.data != [] ==> t.unsent != [])
            && (forall i :: n <= i < |t.unsent| ==> t.unsent[i].data != [] && Allowed(s, t.unsent[i]))
            && (forall i :: n <= i < |t.unsent| - 1 ==> Full(s, t.unsent[i]))
            && (forall i :: 0 <= i < n - 1 ==> t.unsent[i] == s.unsent[i])
            && (n > 0 ==>
                  var x, y := s.unsent[n - 1], t.unsent[n - 1];
                  && x.pos == y.pos && x.data <= y.data && Allowed(s, y)
                  && (|t.unsent| > n ==> Full(s, y)) && (|t.unsent| == n ==> y.data == x.data + a.data))
            && t.unacked == s.unacked && t.nxt == s.nxt && t.lastack == s.lastack
  {
    var p := PlanTail(s, a).value;
    var b := BuildRest(s, a, p).value;
    if s.unsent != [] {
      TailCut(s, a, p, o, w);
    }
    RestCut(s, a, p);
    RestBuilt(s, a, p);
    assert Write(s, a).1 == Commit(s, a, p, b) && p.Bytes() <= |a.data|;
    hide Inv, Write, PlanTail, BuildRest, GrowLast, Allowed, Full;
  }

  /** The last unsent segment after it has taken what it can. */
  lemma TailCut(s: Snd, a: Args, p: Plan, o: int, w: seq<byte>)
    requires Inv(s, o, w) && Sane(s) && s.open && s.unsent != [] && TailFits(s) && PlanTail(s, a) == Some(p)
    ensures var x := s.unsent[|s.unsent| - 1]; var y := GrowLast(x, a, p);
            && x.pos == y.pos && x.data <= y.data && Allowed(s, y)
            && (p.Bytes() < |a.data| ==> Full(s, y)) && (p.Bytes() == |a.data| ==> y.data == x.data + a.data)
  {
    var x := s.unsent[|s.unsent| - 1];
    assert Good(x, s.open, o, w);
    TailFilled(s, a);
    LimitIs(s, GrowLast(x, a, p));
    hide Core, TailRoom, PlanTail, MssLocal, Allowed, Full, TailFits;
    assert p.Bytes() == |a.data| ==> a.data[..p.Bytes()] == a.data;
  }

  /** The new segments. */
  lemma RestCut(s: Snd, a: Args, p: Plan)
    requires Sane(s) && s.mss <= TCP_MSS && p.Bytes() <= |a.data| && BuildRest(s, a, p).Some?
    ensures var u := BuildRest(s, a, p).value.queue;
            && (forall i :: 0 <= i < |u| ==> u[i].data != [] && Allowed(s, u[i]))
            && (forall i :: 0 <= i < |u| - 1 ==> Full(s, u[i]))
  {
    var u := BuildRest(s, a, p).value.queue;
    BuildSizes(s, a, MssLocal(s), p.Bytes(), Built([], s.queuelen + p.NewBufs(), p.oversize), p.mem);
    hide Build, MssLocal, Allowed, Full;
    forall i | 0 <= i < |u| ensures Allowed(s, u[i]) && (i < |u| - 1 ==> Full(s, u[i])) {
      LimitIs(s, u[i]);
    }
  }

  /** New segments are made if and only if data is left for them. */
  lemma RestBuilt(s: Snd, a: Args, p: Plan)
    requires Sane(s) && p.Bytes() <= |a.data| && BuildRest(s, a, p).Some?
    ensures BuildRest(s, a, p).value.queue == [] <==> p.Bytes() == |a.data|
  {
    BuildGrows(s, a, MssLocal(s), p.Bytes(), Built([], s.queuelen + p.NewBufs(), p.oversize), p.mem);
  }

  lemma {:induction false} BuildGrows(s: Snd, a: Args, m: int, off: nat, b: Built, mem: nat)
    requires off <= |a.data| && m > 0 && Build(s, a, m, off, b, mem).Some?
    ensures |Build(s, a, m, off, b, mem).value.queue| >= |b.queue| + if off < |a.data| then 1 else 0
    ensures off == |a.data| ==> Build(s, a, m, off, b, mem).value == b
    decreases |a.data| - off
  {
    if off < |a.data| {
      var q := NewSeg(s, a, m, off, b.queue == []);
      BuildGrows(s, a, m, off + |q.data|,
                 Built(b.queue + [q], b.queuelen + |q.pieces|, if a.copy then q.room else b.oversize),
                 mem - |q.pieces| - 1);
    }
  }

  /** tcp_send_fin fails exactly if it needs a new segment and there is no memory for it;
      otherwise the last segment of unsent carries the FIN. */
  lemma FinFails(s: Snd, o: int, w: seq<byte>, mem: nat)
    requires Inv(s, o, w) && s.open
    ensures var (err, t) := SendFin(s, mem);
            && (err == OK || err == MEM) && (err == MEM <==> s.unsent == [] && mem < 2)
            && (err == MEM ==> t == s.(memerr := true))
            && (err == OK ==>
                  && !t.open && t.unacked == s.unacked && t.nxt == s.nxt
                  && |t.unsent| == (if s.unsent == [] then 1 else |s.unsent|) && t.unsent[|t.unsent| - 1].fin)
  {
    assert s.unsent != [] ==> Good(s.unsent[|s.unsent| - 1], s.open, o, w);
  }

  // ----- retransmission and probes ----------------------------------------------------------

  /** After a timeout everything unacknowledged is sent again: if all queued segments end
      inside the window, Nagle is off and the driver takes them, none stays unsent, and
      what was in flight comes first. */
  lemma TimeoutResends(s: Snd, wnd: nat, ackNow: bool, n: nat)
    requires n >= |s.All()| && s.unacked != [] && forall h :: h in s.All() ==> Inside(s, h, wnd)
    ensures var p := RtoPrepare(s, false); var (err, t) := Output(p, wnd, true, ackNow, n);
            && err == OK && t.unsent == [] && multiset(t.unacked) == multiset(s.All())
            && s.unacked <= p.unsent
            && RtoPrepare(s, true) == s
  {
    var p := RtoPrepare(s, false);
    assert p.unsent == s.All() && p.unacked == [] && p.lastack == s.lastack;
    assert p.unsent[..|p.unsent|] == p.unsent && p.unsent[|p.unsent|..] == [];
    forall i | 0 <= i < |p.unsent| ensures Inside(p, p.unsent[i], wnd) {
      assert p.unsent[i] in s.All();
    }
    hide Output, RtoPrepare;
    var _ := OutputSends(p, wnd, true, ackNow, n);
  }

  /** A fast retransmission takes just the oldest segment in flight and puts it into
      unsent behind those that start below it and before one that does not. */
  lemma RexmitMoves(s: Snd) returns (k: nat)
    requires s.unacked != []
    ensures var t, h := Rexmit(s, false), s.unacked[0];
            && k <= |s.unsent| && t.unsent == s.unsent[..k] + [h] + s.unsent[k..]
            && (forall i :: 0 <= i < k ==> s.unsent[i].pos < h.pos) && (k < |s.unsent| ==> h.pos <= s.unsent[k].pos)
            && [h] + t.unacked == s.unacked
            && t == s.(unacked := t.unacked, unsent := t.unsent, oversize := if k == |s.unsent| then 0 else s.oversize)
    ensures Rexmit(s, true) == s
  {
    k := PlaceOf(s.unsent, s.unacked[0].pos);
  }

  /** The byte that a zero window probe carries can be acknowledged afterwards; only the
      highest number sent changes. */
  lemma ProbeAcknowledgeable(s: Snd, mem: nat)
    requires s.unsent != [] && s.lastack <= s.unsent[0].pos
    ensures var t, x := Probe(s, mem), s.unsent[0].pos;
            && (mem > 0 ==> Ack(t, x + 1 - s.lastack).0.lastack == x + 1)
            && t == s.(nxt := t.nxt) && (t.nxt == s.nxt || (mem > 0 && s.nxt < t.nxt == x + 1))
  {
    hide Acked, Bufs, Bytes;
  }

  // ----- acknowledgement ---------------------------------------------------------------------

  /** The first i unacked and the first j unsent segments, all of them acknowledged, are
      freed, and no segment left in front is acknowledged. */
  ghost predicate Frees(s: Snd, t: Snd, i: nat, j: nat)
  {
    && i <= |s.unacked| && j <= |s.unsent| && t.unacked == s.unacked[i..] && t.unsent == s.unsent[j..]
    && (forall x :: 0 <= x < i ==> s.unacked[x].End() <= t.lastack)
    && (forall x :: 0 <= x < j ==> s.unsent[x].End() <= t.lastack)
    && (forall q :: q in t.unacked ==> q.End() > t.lastack)
    && (t.unsent != [] ==> t.unsent[0].End() > t.lastack)
  }

  /** The bytes and pbufs of what is freed are given back; nothing else changes. */
  ghost predicate GivesBack(s: Snd, t: Snd, i: nat, j: nat, acked: nat)
    requires i <= |s.unacked| && j <= |s.unsent|
  {
    && acked == Bytes(s.unacked[..i]) + Bytes(s.unsent[..j])
    && t.queuelen == s.queuelen - Bufs(s.unacked[..i]) - Bufs(s.unsent[..j])
    && t == s.(lastack := t.lastack, unacked := t.unacked, unsent := t.unsent, buf := s.buf + acked,
               queuelen := t.queuelen, oversize := if t.unsent == [] then 0 else s.oversize)
  }

  lemma AllAlive(u: seq<Seg>, open: bool, o: int, w: seq<byte>, ack: int)
    requires Sorted(u) && Goods(u, open, o, w)
    ensures forall q :: q in u[Acked(u, ack)..] ==> q.End() > ack
  {
    var k := Acked(u, ack);
    forall i | k <= i < |u| ensures u[i].End() > ack {
      assert Good(u[i], open, o, w);
      assert i > k ==> Below(u[k], u[i]);
    }
  }

  /** An acknowledgement of something new moves lastack to it, frees what it acknowledges
      at the front of both queues and reports the bytes of that; any other one changes
      nothing. */
  lemma AckAdvances(s: Snd, o: int, w: seq<byte>, d: int) returns (i: nat, j: nat)
    requires Inv(s, o, w)
    ensures var (t, acked) := Ack(s, d);
            if 0 < d <= s.nxt - s.lastack then
              t.lastack == s.lastack + d && Frees(s, t, i, j) && GivesBack(s, t, i, j, acked)
            else t == s && acked == 0
  {
    i, j := Acked(s.unacked, s.lastack + d), Acked(s.unsent, s.lastack + d);
    AllAlive(s.unacked, s.open, o, w, s.lastack + d);
    hide Inv, Acked, Bytes, Bufs, Frees, GivesBack, Freed;
    if 0 < d <= s.nxt - s.lastack {
      AckFrees(s, d);
      AckSums(s, d);
    }
  }

  lemma AckFrees(s: Snd, d: int)
    requires 0 < d <= s.nxt - s.lastack
    requires forall q :: q in s.unacked[Acked(s.unacked, s.lastack + d)..] ==> q.End() > s.lastack + d
    ensures Frees(s, Ack(s, d).0, Acked(s.unacked, s.lastack + d), Acked(s.unsent, s.lastack + d))
  {
    hide Bytes, Bufs, Freed;
  }

  lemma AckSums(s: Snd, d: int)
    requires 0 < d <= s.nxt - s.lastack
    ensures var (t, acked) := Ack(s, d);
            GivesBack(s, t, Acked(s.unacked, s.lastack + d), Acked(s.unsent, s.lastack + d), acked)
  {
    hide Acked, Bytes, Bufs;
    SumsConcat(s.unacked[..Acked(s.unacked, s.lastack + d)], s.unsent[..Acked(s.unsent, s.lastack + d)]);
  }

  /** No head ends beyond the last number in use, and none in front of an acknowledgement
      that freed what it could. */
  lemma HeadsEnd(t: Snd, o: int, w: seq<byte>)
    requires Inv(t, o, w)
    ensures t.unacked != [] ==> t.unacked[0].End() <= Final(t, o, w)
    ensures t.unsent != [] ==> t.unsent[0].End() <= Final(t, o, w)
  {
    assert t.unacked != [] ==> Good(t.unacked[0], t.open, o, w);
    assert t.unsent != [] ==> Good(t.unsent[0], t.open, o, w);
  }

  lemma HeadAbove(u: seq<Seg>, p: int)
    requires forall q :: q in u ==> q.End() > p
    ensures u != [] ==> u[0].End() > p
  {
  }

  /** The acknowledgement of everything empties both queues, gives the whole buffer back
      and reports every queued byte. */
  lemma AckEmpties(s: Snd, o: int, w: seq<byte>)
    requires Inv(s, o, w) && s.lastack < Final(s, o, w) == s.nxt
    ensures var (t, acked) := Ack(s, Final(s, o, w) - s.lastack);
            && t.unacked == [] && t.unsent == [] && t.lastack == Final(s, o, w)
            && t.buf == TCP_SND_BUF && t.queuelen == 0
            && acked == Bytes(s.unacked) + Bytes(s.unsent)
  {
    var d := Final(s, o, w) - s.lastack;
    var t := Ack(s, d).0;
    hide Inv, Ack, GivesBack, Balanced, Frees, Bytes;
    InvBalanced(s, o, w);
    AckOpen(s, d);
    AckBalanced(s, d);
    AckKeeps(s, o, w, d);
    var i, j := AckAdvances(s, o, w, d);
    FreesAll(s, t, i, j, o, w);
    NothingQueued(t);
  }

  lemma InvBalanced(s: Snd, o: int, w: seq<byte>)
    requires Inv(s, o, w)
    ensures Balanced(s)
  {
  }

  lemma AckOpen(s: Snd, d: int)
    ensures Ack(s, d).0.open == s.open
  {
  }

  lemma FreesAll(s: Snd, t: Snd, i: nat, j: nat, o: int, w: seq<byte>)
    requires Frees(s, t, i, j) && Inv(t, o, w) && t.lastack == Final(t, o, w)
    ensures t.unacked == [] && t.unsent == []
  {
    HeadsEnd(t, o, w);
    HeadAbove(t.unacked, t.lastack);
    hide Inv;
  }

  lemma NothingQueued(t: Snd)
    requires Balanced(t) && t.unacked == [] && t.unsent == []
    ensures t.buf == TCP_SND_BUF && t.queuelen == 0 && Bytes(t.unacked) + Bytes(t.unsent) == 0
  {
  }

  // ----- whole transfers ------------------------------------------------------------------------

  /** When everything is acknowledged, nothing is queued. */
  predicate Settled(s: Snd, o: int, w: seq<byte>)
  {
    s.lastack == Final(s, o, w) ==> s.unacked == [] && s.unsent == []
  }

  lemma StepSettles(s: Snd, e: Event, o: int, w: seq<byte>)
    requires Inv(s, o, w) && Settled(s, o, w) && Safe(s, e)
    ensures Settled(Step(s, e), o, w + Wrote(s, e))
  {
    var t := Step(s, e);
    StepKeeps(s, e, o, w);
    if e.DoAck? {
      AckSettles(s, e.d, o, w);
    } else if t.lastack == Final(t, o, w + Wrote(s, e)) {
      hide Inv, Build, PlanTail, GrowLast;
      assert Final(s, o, w) >= s.lastack by {
        InvLastack(s, o, w);
      }
      QuietStep(s, e, o, w);
    }
  }

  /** Steps other than an acknowledgement leave lastack and do not lower the end. */
  lemma QuietStep(s: Snd, e: Event, o: int, w: seq<byte>)
    requires !e.DoAck? && Settled(s, o, w) && s.lastack <= Final(s, o, w)
    requires Step(s, e).lastack == Final(Step(s, e), o, w + Wrote(s, e))
    ensures Step(s, e).unacked == [] && Step(s, e).unsent == []
  {
    hide GrowLast, Trim, SendLoop, PutBefore, PutUnacked;
    match e
    case DoWrite(a) =>
      hide PlanTail, RomFits, TailFits;
    case DoOutput(wnd, fast, ackNow, n) =>
      hide InWindow, MaySend;
      var _ := OutputSends(s, wnd, fast, ackNow, n);
    case _ =>
  }

  lemma InvLastack(s: Snd, o: int, w: seq<byte>)
    requires Inv(s, o, w)
    ensures s.lastack <= s.nxt <= Final(s, o, w)
  {
  }

  lemma AckSettles(s: Snd, d: int, o: int, w: seq<byte>)
    requires Inv(s, o, w) && Settled(s, o, w)
    ensures Settled(Ack(s, d).0, o, w)
  {
    InvLastack(s, o, w);
    if 0 < d <= s.nxt - s.lastack && s.lastack + d == Final(s, o, w) {
      AckEmpties(s, o, w);
    }
  }

  lemma {:induction false} RunSettles(s: Snd, es: seq<Event>, o: int, w: seq<byte>)
    requires Inv(s, o, w) && Settled(s, o, w) && SafeRun(s, es)
    ensures Settled(Run(s, es), o, w + Written(s, es))
    decreases |es|
  {
    hide Inv, Step, Wrote, Safe, Settled;
    if es == [] {
      assert w + [] == w;
    } else {
      StepKeeps(s, es[0], o, w);
      StepSettles(s, es[0], o, w);
      RunSettles(Step(s, es[0]), es[1..], o, w + Wrote(s, es[0]));
      assert w + Wrote(s, es[0]) + Written(Step(s, es[0]), es[1..])
          == w + (Wrote(s, es[0]) + Written(Step(s, es[0]), es[1..]));
    }
  }

  /** A transfer that the peer has acknowledged to its end: over every safe run, every
      byte written has been reported as sent, and all buffer space is back. */
  lemma RunDrains(o: int, mss: int, wndmax: nat, es: seq<Event>)
    requires 0 < mss <= TCP_MSS && SafeRun(Initial(o, mss, wndmax), es)
    ensures var s := Initial(o, mss, wndmax); var t, w := Run(s, es), Written(s, es);
            t.lastack == Final(t, o, w) ==>
              && AllReported(s, es) == |w| && t.buf == TCP_SND_BUF && t.queuelen == 0
              && t.unacked == [] && t.unsent == []
  {
    var s := Initial(o, mss, wndmax);
    var t := Run(s, es);
    InitialInv(o, mss, wndmax);
    assert [] + Written(s, es) == Written(s, es);
    RunSettles(s, es, o, []);
    RunConserves(s, es, o, []);
    hide Run, Inv, SafeRun;
  }
}
