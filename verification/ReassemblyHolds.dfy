/** Exactly which positions a queued segment leaves in the out-of-order queue, and which the
    SACK list covers after it was cut (src/lwip/src/core/tcp_in.c). */
module ReassemblyHolds {
  import opened Seq32
  import opened Reassembly
  import opened ReassemblyQueue
  import opened ReassemblyRuns
  import opened ReassemblyStream
  import opened ReassemblySack

  lemma Rising(q: seq<Seg>)
    requires Ordered(q)
    ensures forall i, j :: 0 <= i < j < |q| ==> q[i].pos < q[j].pos
  {
    forall i, j | 0 <= i < j < |q| ensures q[i].pos < q[j].pos {
      assert Apart(q[i], q[j]);
    }
  }

  // ----- merging ---------------------------------------------------------------------------

  /** Merging s with the queue behind it loses no position, unless s carries a FIN: then it
      stands for all of it. */
  lemma MergeHolds(s: Seg, q: seq<Seg>, p: int)
    requires Ordered(q) && Fits(s, q)
    ensures Holds(Consed(Merge(s, q)), p) <==> In(p, s) || (!s.fin && Holds(q, p))
  {
    MergeFacts(s, q);
    if s.fin {
      assert [s] + [] == [s];
      OneHolds(s, p);
    } else {
      CoversHolds(s, q, Merge(s, q).0, Merge(s, q).1, p);
    }
  }

  lemma OneHolds(s: Seg, p: int)
    ensures Holds([s], p) <==> In(p, s)
  {
    assert In(p, s) ==> In(p, [s][0]);
  }

  lemma CoversHolds(s: Seg, q: seq<Seg>, t: Seg, rest: seq<Seg>, p: int)
    requires Ordered(q) && Fits(s, q) && Covers(s, q, t, rest)
    ensures Holds([t] + rest, p) <==> In(p, s) || Holds(q, p)
  {
    hide Ordered;
    if In(p, s) {
      CoveredFront(s, q, t, rest, p);
    }
    if Holds(q, p) {
      CoveredQueued(s, q, t, rest, p);
    }
    if Holds([t] + rest, p) {
      CoveredFrom(s, q, t, rest, p);
    }
  }

  lemma CoveredFront(s: Seg, q: seq<Seg>, t: Seg, rest: seq<Seg>, p: int)
    requires Covers(s, q, t, rest) && In(p, s)
    ensures Holds([t] + rest, p)
  {
    var m := [t] + rest;
    if p < t.End() {
      assert In(p, m[0]);
    } else {
      assert In(p, m[1]);
    }
  }

  lemma CoveredQueued(s: Seg, q: seq<Seg>, t: Seg, rest: seq<Seg>, p: int)
    requires Ordered(q) && Fits(s, q) && Covers(s, q, t, rest) && Holds(q, p)
    ensures Holds([t] + rest, p)
  {
    var n, m := |q| - |rest|, [t] + rest;
    var i :| 0 <= i < |q| && In(p, q[i]);
    Rising(q);
    hide Ordered;
    if i < n {
      assert s.pos <= q[0].pos <= q[i].pos && q[i].End() <= t.End();
      assert In(p, m[0]);
    } else {
      assert m[i - n + 1] == rest[i - n] == q[i];
    }
  }

  lemma CoveredFrom(s: Seg, q: seq<Seg>, t: Seg, rest: seq<Seg>, p: int)
    requires Covers(s, q, t, rest) && Holds([t] + rest, p)
    ensures In(p, s) || Holds(q, p)
  {
    assert In(p, t) ==> In(p, s);
    var m, n := [t] + rest, |q| - |rest|;
    var i :| 0 <= i < |m| && In(p, m[i]);
    assert rest == q[n..];
    hide Covers;
    if i == 0 {
      assert In(p, t);
    } else {
      assert m[i] == q[n..][i - 1] == q[n + i - 1];
      assert In(p, q[n + i - 1]);
    }
  }

  // ----- placing -----------------------------------------------------------------------------

  /** The segment is ignored: its start is queued already with as much behind it, or a FIN
      is queued below it. */
  predicate Ignored(q: seq<Seg>, s: Seg)
  {
    || (exists y :: y in q && y.pos == s.pos && |s.data| <= |y.data|)
    || (q != [] && q[|q| - 1].fin && q[|q| - 1].pos < s.pos)
  }

  /** Position p stays queued when s takes its place: it lies below s, or in a segment that
      starts no lower than s while s carries no FIN. */
  ghost predicate Stays(q: seq<Seg>, s: Seg, p: int)
  {
    exists i :: 0 <= i < |q| && In(p, q[i]) && (p < s.pos || (q[i].pos >= s.pos && !s.fin))
  }

  lemma ConcatHolds(a: seq<Seg>, b: seq<Seg>, p: int)
    ensures Holds(a + b, p) <==> Holds(a, p) || Holds(b, p)
  {
    var q := a + b;
    if Holds(b, p) {
      var i :| 0 <= i < |b| && In(p, b[i]);
      assert q[|a| + i] == b[i];
    }
    if Holds(a, p) {
      var i :| 0 <= i < |a| && In(p, a[i]);
      assert q[i] == a[i];
    }
  }

  lemma TrimLastHolds(q: seq<Seg>, e: int, p: int)
    requires Trimmed(q, TrimLast(q, e), e)
    ensures Holds(TrimLast(q, e), p) <==> Holds(q, p) && p < e
  {
    var t := TrimLast(q, e);
    if Holds(q, p) && p < e {
      var i :| 0 <= i < |q| && In(p, q[i]);
      assert In(p, t[i]);
    }
    if Holds(t, p) {
      var i :| 0 <= i < |t| && In(p, t[i]);
      assert In(p, q[i]);
    }
  }

  /** The first k segments start below s and end no higher than it, or only the last of
      them reaches further; the others start no lower. */
  lemma StaysParts(q: seq<Seg>, s: Seg, k: nat, p: int)
    requires k <= |q| && (forall i :: 0 <= i < k ==> q[i].pos < s.pos) && forall i :: k <= i < |q| ==> q[i].pos >= s.pos
    ensures Stays(q, s, p) <==> (Holds(q[..k], p) && p < s.pos) || (Holds(q[k..], p) && !s.fin)
  {
    if Holds(q[k..], p) && !s.fin {
      var i :| 0 <= i < |q[k..]| && In(p, q[k..][i]);
      assert In(p, q[k + i]);
    }
    if Holds(q[..k], p) && p < s.pos {
      var i :| 0 <= i < |q[..k]| && In(p, q[..k][i]);
      assert In(p, q[i]);
    }
    if Stays(q, s, p) {
      var i :| 0 <= i < |q| && In(p, q[i]) && (p < s.pos || (q[i].pos >= s.pos && !s.fin));
      assert if i < k then In(p, q[..k][i]) else In(p, q[k..][i - k]);
    }
  }

  /** From the place of p on, segments start at p at the earliest, and only the first can
      start there. */
  lemma FromPlace(q: seq<Seg>, p: int)
    requires Ordered(q)
    ensures var k := Below(q, p);
            && (forall i :: k <= i < |q| ==> q[i].pos >= p) && (forall i :: k < i < |q| ==> q[i].pos > p)
  {
    var k := Below(q, p);
    forall i | k < i < |q| ensures q[i].pos > p {
      assert Apart(q[k], q[i]);
    }
  }

  /** Which branch of the walk along the queue is taken. */
  lemma IgnoredIff(q: seq<Seg>, s: Seg)
    requires Ordered(q)
    ensures var k := Below(q, s.pos);
            && (forall i :: k <= i < |q| ==> q[i].pos >= s.pos)
            && (Ignored(q, s) <==>
                  if k < |q| then q[k].pos == s.pos && |s.data| <= |q[k].data| else k > 0 && q[k - 1].fin)
  {
    var k := Below(q, s.pos);
    FromPlace(q, s.pos);
    hide Ordered;
    if exists y :: y in q && y.pos == s.pos && |s.data| <= |y.data| {
      var y :| y in q && y.pos == s.pos && |s.data| <= |y.data|;
      var j :| 0 <= j < |q| && q[j] == y;
      assert j == k;
    } else if k < |q| {
      assert q[k] in q;
    }
  }

  /** What the queue holds after s has been put into it. */
  lemma PlaceHolds(q: seq<Seg>, s: Seg, edge: int, p: int)
    requires Ordered(q) && q != [] && s.Span() > 0 && s.pos < edge
    ensures if Ignored(q, s) then Place(q, s, edge) == q
            else Holds(Place(q, s, edge), p)
                 <==> (In(p, s) && (p < edge || exists y :: y in q && y.pos >= s.pos)) || Stays(q, s, p)
  {
    hide Ordered, Holds, Stays, TrimLast, Trimmed, Merge, Consed;
    var k := Below(q, s.pos);
    IgnoredIff(q, s);
    hide Ignored;
    if !Ignored(q, s) {
      StaysParts(q, s, k, p);
      OrderedSlice(q, 0, k);
      OrderedSlice(q, k, |q|);
      if k < |q| {
        BeforeApart(q, k);
        assert q[k] in q;
      } else {
        assert q[..k] == q && q[k..] == [];
      }
      TrimLastFacts(q[..k], s.pos);
      TrimLastHolds(q[..k], s.pos, p);
      PlacedHolds(q, s, edge, k, p);
    }
  }

  lemma PlacedHolds(q: seq<Seg>, s: Seg, edge: int, k: nat, p: int)
    requires Ordered(q) && q != [] && s.Span() > 0 && s.pos < edge && k == Below(q, s.pos) && !Ignored(q, s)
    requires Ignored(q, s) <==>
               if k < |q| then q[k].pos == s.pos && |s.data| <= |q[k].data| else k > 0 && q[k - 1].fin
    requires k < |q| ==> Ordered(q[k..]) && forall i :: 0 <= i < k ==> q[i].End() <= q[k].pos
    requires k == |q| ==> q[..k] == q && q[k..] == []
    requires Holds(TrimLast(q[..k], s.pos), p) <==> Holds(q[..k], p) && p < s.pos
    ensures Holds(Place(q, s, edge), p) <==>
              || (In(p, s) && (p < edge || k < |q|))
              || (Holds(q[..k], p) && p < s.pos) || (Holds(q[k..], p) && !s.fin)
  {
    if k == |q| {
      ConcatHolds(TrimLast(q, s.pos), [ClipTo(s, edge)], p);
      OneHolds(ClipTo(s, edge), p);
      assert In(p, ClipTo(s, edge)) <==> In(p, s) && p < edge;
    } else {
      MergeHolds(s, q[k..], p);
      ConcatHolds(TrimLast(q[..k], s.pos), Consed(Merge(s, q[k..])), p);
      ConcatHolds(q[..k], Consed(Merge(s, q[k..])), p);
      if q[k].pos == s.pos {
        FrontBelow(q, k, p);
      }
    }
  }

  lemma FrontBelow(q: seq<Seg>, k: nat, p: int)
    requires k < |q| && forall i :: 0 <= i < k ==> q[i].End() <= q[k].pos
    ensures Holds(q[..k], p) ==> p < q[k].pos
  {
  }

  // ----- honest streams -------------------------------------------------------------------------

  /** p lies behind s in a queued segment that starts below s. */
  ghost predicate CutOff(q: seq<Seg>, s: Seg, p: int)
  {
    exists i :: 0 <= i < |q| && !q[i].fin && q[i].pos < s.pos && s.End() <= p < q[i].End()
  }

  /** With segments cut from one stream: a segment that is queued adds its positions, and
      takes away just those behind its end that only a segment in front of it held. */
  lemma EnqueueHolds(r: Rcv, s: Seg, c: Conf, st: Stream, p: int)
    requires Inv(r) && Sound(r, st) && !r.closed
    requires r.nxt < s.pos < r.nxt + r.wnd && s.Span() > 0 && CutFrom(s, st) && s.Top() <= r.nxt + r.wnd
    ensures Holds(Enqueue(r, s, true, c.sackOn).q, p) <==> In(p, s) || (Holds(r.q, p) && !CutOff(r.q, s, p))
  {
    var q, edge := r.q, r.nxt + r.wnd;
    if q == [] {
      OneHolds(s, p);
    } else {
      PlaceHolds(q, s, edge, p);
      HonestStays(q, s, st, p);
      hide Place, SackAfter, Ordered, Ignored, Stays, CutOff;
    }
  }

  lemma HonestStays(q: seq<Seg>, s: Seg, st: Stream, p: int)
    requires Ordered(q) && q != [] && CutFrom(s, st) && forall x :: x in q ==> CutFrom(x, st)
    ensures if Ignored(q, s) then (In(p, s) ==> Holds(q, p)) && !CutOff(q, s, p)
            else In(p, s) || Stays(q, s, p) <==> In(p, s) || (Holds(q, p) && !CutOff(q, s, p))
  {
    if Ignored(q, s) {
      IgnoredKnown(q, s, st, p);
    } else {
      if Stays(q, s, p) {
        StaysWhole(q, s, p);
      }
      if Holds(q, p) && !CutOff(q, s, p) && !In(p, s) {
        WholeStays(q, s, st, p);
      }
    }
  }

  lemma IgnoredKnown(q: seq<Seg>, s: Seg, st: Stream, p: int)
    requires Ordered(q) && Ignored(q, s) && CutFrom(s, st) && forall x :: x in q ==> CutFrom(x, st)
    ensures (In(p, s) ==> Holds(q, p)) && !CutOff(q, s, p)
  {
    var j :| 0 <= j < |q| && ((q[j].pos == s.pos && |s.data| <= |q[j].data|) || (q[j].fin && q[j].pos < s.pos));
    assert q[j] in q;
    assert In(p, s) ==> In(p, q[j]);
    forall i | 0 <= i < |q| && !q[i].fin && q[i].pos < s.pos ensures q[i].End() <= s.pos {
      assert i < j ==> Apart(q[i], q[j]);
      assert j < i ==> Apart(q[j], q[i]);
    }
  }

  lemma StaysWhole(q: seq<Seg>, s: Seg, p: int)
    requires Ordered(q) && Stays(q, s, p)
    ensures Holds(q, p) && !CutOff(q, s, p)
  {
    var i :| 0 <= i < |q| && In(p, q[i]) && (p < s.pos || (q[i].pos >= s.pos && !s.fin));
    forall j | 0 <= j < |q| && q[j].pos < s.pos <= q[i].pos ensures q[j].End() <= p {
      assert j < i ==> Apart(q[j], q[i]);
      assert i < j ==> Apart(q[i], q[j]);
    }
  }

  lemma WholeStays(q: seq<Seg>, s: Seg, st: Stream, p: int)
    requires Ordered(q) && CutFrom(s, st) && (forall x :: x in q ==> CutFrom(x, st)) && !Ignored(q, s)
    requires Holds(q, p) && !CutOff(q, s, p) && !In(p, s)
    ensures Stays(q, s, p)
  {
    var i :| 0 <= i < |q| && In(p, q[i]);
    assert q[i] in q;
    if q[i].fin {
      assert i < |q| - 1 ==> Apart(q[i], q[|q| - 1]);
    }
  }

  /** A segment above rcv_nxt is queued and delivers nothing; one that could not be copied
      leaves the queue as it was. */
  lemma ArriveQueues(r: Rcv, s: Seg, copyOk: bool, c: Conf, st: Stream, p: int)
    requires Inv(r) && Sound(r, st) && !r.closed && Honest(r, Arrival(s, copyOk), st)
    requires r.nxt < s.pos && s.Span() > 0
    ensures var o := Arrive(r, s, copyOk, c.sackOn, c.mss);
            && o.Stepped? && o.r == r.(q := o.r.q, sacks := o.r.sacks)
            && if copyOk then Holds(o.r.q, p) <==> In(p, s) || (Holds(r.q, p) && !CutOff(r.q, s, p))
               else o.r.q == r.q
  {
    assert TrimHead(s, r.nxt) == s;
    hide CutFrom, Queued, SacksBounded, Place, SackAfter;
    if copyOk {
      EnqueueHolds(r, s, c, st, p);
    }
  }

  /** What was received before, or lies outside the window, changes nothing. */
  lemma OldIgnored(r: Rcv, seg: Seg, copyOk: bool, c: Conf)
    requires seg.Top() <= r.nxt || seg.pos >= r.nxt + r.wnd || r.closed
    ensures Arrive(r, seg, copyOk, c.sackOn, c.mss) == Stepped(r)
  {
    hide Accept, Enqueue;
  }

  /** Draining drops nothing above where it stops. */
  lemma {:induction false} DrainHolds(d: Drained, p: int)
    requires Ordered(d.rest) && (d.rest != [] ==> d.nxt <= d.rest[0].pos) && p >= Drain(d).nxt
    ensures Holds(Drain(d).rest, p) <==> Holds(d.rest, p)
    decreases |d.rest|
  {
    if d.rest != [] && d.rest[0].pos == d.nxt {
      var x := d.rest[0];
      var d1 := Drained(x.Top(), d.bytes + x.data, d.fin || x.fin, d.rest[1..]);
      OrderedSlice(d.rest, 1, |d.rest|);
      assert |d.rest| > 1 ==> Apart(x, d.rest[1]);
      DrainFacts(d1);
      DrainHolds(d1, p);
      assert d.rest == [x] + d.rest[1..];
      ConcatHolds([x], d.rest[1..], p);
      OneHolds(x, p);
    }
  }

  /** In-sequence data takes from the queue just what it delivers: every position from the
      new rcv_nxt on that was queued still is. */
  lemma AcceptHolds(r: Rcv, s: Seg, c: Conf, st: Stream, p: int)
    requires Inv(r) && Sound(r, st) && !r.closed && r.wnd > 0
    requires s.pos == r.nxt && s.Span() > 0 && CutFrom(s, st) && s.Top() <= r.nxt + r.wnd
    ensures var o := Accept(r, s, c.sackOn, c.mss);
            o.Stepped? && (Holds(o.r.q, p) <==> Holds(r.q, p) && p >= o.r.nxt)
  {
    var d, m := Delivery(r, s), Merge(s, r.q);
    AcceptSound(r, s, c, st);
    AcceptDelivers(r, s, c, st);
    DeliveryReaches(r, s);
    DeliveryQueued(r, s);
    assert r.q != [] ==> r.q[0] in r.q;
    MergeBounds(r, s);
    assert ClipTo(s, r.nxt + r.wnd) == s;
    if p >= d.nxt {
      var d0 := Drained(m.0.Top(), m.0.data, m.0.fin, m.1);
      DrainFacts(d0);
      DrainHolds(d0, p);
      MergeHolds(s, r.q, p);
      ConcatHolds([m.0], m.1, p);
      OneHolds(m.0, p);
      BelowEnd(r.q, st, p);
      assert d == Drain(d0) && Consed(m) == [m.0] + m.1;
      assert d.nxt >= m.0.Top() && !In(p, m.0) && !In(p, s);
      assert s.fin ==> m.1 == [] && p >= st.eof;
      hide Holds, Drain, Merge, CutFrom, Ordered;
      assert Holds(d.rest, p) <==> Holds(m.1, p);
      assert Holds(m.1, p) <==> Holds(r.q, p);
    } else {
      NoneBelow(d.rest, d.nxt, p);
    }
  }

  lemma NoneBelow(q: seq<Seg>, n: int, p: int)
    requires (forall x :: x in q ==> n < x.pos) && p < n
    ensures !Holds(q, p)
  {
    assert forall i :: 0 <= i < |q| ==> q[i] in q;
  }

  /** Nothing is queued from the end of the stream on. */
  lemma BelowEnd(q: seq<Seg>, st: Stream, p: int)
    requires forall x :: x in q ==> CutFrom(x, st)
    ensures Holds(q, p) ==> p < st.eof
  {
    assert forall i :: 0 <= i < |q| ==> q[i] in q;
  }

  /** On every stream of at least twenty bytes, a run from a new connection in which a
      queued byte is dropped again: ten bytes arrive out of sequence, and then three from
      the middle of them. */
  lemma QueuedTailDropped(st: Stream)
    requires 20 <= st.eof - st.org < TCP_WND
    ensures var a, b := Seg(st.org + 10, CutOut(st, st.org + 10, 10), false),
                        Seg(st.org + 12, CutOut(st, st.org + 12, 3), false);
            var c, e1, e2 := Conf(true, 1460), Arrival(a, true), Arrival(b, true);
            var o := Run(Fresh(st), [e1], c);
            && HonestRun(Fresh(st), [e1, e2], c, st) && o.Stepped? && Holds(o.r.q, st.org + 18)
            && var o2 := Run(Fresh(st), [e1, e2], c); o2.Stepped? && !Holds(o2.r.q, st.org + 18)
  {
    var c, r0 := Conf(true, 1460), Fresh(st);
    var a, b := Seg(st.org + 10, CutOut(st, st.org + 10, 10), false),
                Seg(st.org + 12, CutOut(st, st.org + 12, 3), false);
    var e1, e2 := Arrival(a, true), Arrival(b, true);
    Cuts(st, st.org + 10, 10, false);
    Cuts(st, st.org + 12, 3, false);
    Queues(r0, a, c, st);
    QueuedFirst(r0, a);
    var r1 := Enqueue(r0, a, true, true);
    FreshFits(st, a, c, e1);
    Queues(r1, b, c, st);
    EnqueueHolds(r1, b, c, st, st.org + 18);
    OneHolds(a, st.org + 18);
    assert CutOff(r1.q, b, st.org + 18) by {
      assert r1.q[0] == a;
    }
    hide Enqueue, Step, Honest, CutOut, CutOff, Holds;
    assert [e1, e2][1..] == [e2] && [e1][1..] == [] && [e2][1..] == [];
    var r2 := Enqueue(r1, b, true, true);
    assert Run(r1, [e2], c) == Stepped(r2) && HonestRun(r1, [e2], c, st);
    assert Run(r0, [e1], c) == Stepped(r1);
  }

  lemma FreshFits(st: Stream, a: Seg, c: Conf, e: Event)
    requires st.org < st.eof && e == Arrival(a, true) && Honest(Fresh(st), e, st)
    requires Step(Fresh(st), e, c) == Stepped(Enqueue(Fresh(st), a, true, true))
    ensures var r1 := Enqueue(Fresh(st), a, true, true); Inv(r1) && Sound(r1, st)
  {
    StepKeeps(Fresh(st), e, c);
    StepSound(Fresh(st), e, c, st);
  }

  // ----- the SACK list ------------------------------------------------------------------------------

  ghost predicate Reported(ss: seq<Range>, p: int) { exists e :: e in ss && e.left <= p < e.right }

  /** Cutting the list at p leaves just the positions from p on. */
  lemma {:induction false} RemoveLtReports(ss: seq<Range>, p: int, x: int)
    ensures Reported(RemoveLt(ss, p), x) <==> Reported(ss, x) && x >= p
  {
    if ss != [] {
      RemoveLtReports(ss[1..], p, x);
      var h, t := ss[0], RemoveLt(ss[1..], p);
      ReportedCons(h, ss[1..], x);
      ReportedCons(Cut(h, p), t, x);
      assert ss == [h] + ss[1..];
    }
  }

  lemma ReportedCons(h: Range, t: seq<Range>, x: int)
    ensures Reported([h] + t, x) <==> h.left <= x < h.right || Reported(t, x)
  {
    if Reported(t, x) {
      var e :| e in t && e.left <= x < e.right;
      assert e in [h] + t;
    }
    assert h in [h] + t;
  }

  /** After in-sequence data the list reports what it did, but nothing below the queue. */
  lemma AcceptReports(r: Rcv, s: Seg, c: Conf, x: int)
    requires c.sackOn && Accept(r, s, c.sackOn, c.mss).Stepped?
    ensures var r' := Accept(r, s, c.sackOn, c.mss).r;
            Reported(r'.sacks, x) <==> Reported(r.sacks, x) && r'.q != [] && x >= r'.q[0].pos
  {
    var r' := Accept(r, s, c.sackOn, c.mss).r;
    hide Merge, Drain, ClipTo, AnnWnd;
    if r'.q != [] {
      RemoveLtReports(r.sacks, r'.q[0].pos, x);
    }
  }

  /** Of the older entries, a new block keeps just those that do not touch it. */
  lemma {:induction false} KeepApartExactly(ss: seq<Range>, l: int, r: int, e: Range)
    ensures multiset(KeepApart(ss, l, r))[e] == if e.right <= l || r <= e.left then multiset(ss)[e] else 0
  {
    if ss != [] {
      KeepApartExactly(ss[1..], l, r, e);
      assert ss == [ss[0]] + ss[1..];
    }
  }

  /** A new block comes first, and while there is room for four, every older one that it
      does not touch stays. */
  lemma AddSackKeeps(ss: seq<Range>, l: int, r: int, e: Range)
    requires l < r
    ensures var t := AddSack(ss, l, r);
            && 0 < |t| <= 4 && t[0] == Range(l, r)
            && (|t| < 4 ==>
                  multiset(t[1..])[e] == if e.right <= l || r <= e.left then multiset(ss)[e] else 0)
  {
    var kept := KeepApart(ss, l, r);
    KeepApartExactly(ss, l, r, e);
    assert |kept| <= 3 ==> kept[..|kept|] == kept;
    assert AddSack(ss, l, r)[1..] == kept[..Clamp(MAX_SACK - 1, |kept|)];
  }
}
