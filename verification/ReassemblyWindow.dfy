/** Exactly when in-sequence data, merged with the queue, passes the right window edge,
    so that the assertion of tcp_receive on rcv_wnd fires
    (src/lwip/src/core/tcp_in.c:1578-1583). */
module ReassemblyWindow {
  import opened Seq32
  import opened Reassembly
  import opened ReassemblyQueue

  /** How far bytes up to e and the queue q join up without a gap. */
  function Reach(e: int, q: seq<Seg>): int
    decreases |q|
  {
    if q == [] || q[0].pos > e then e
    else if e >= q[0].End() then if q[0].fin then e + 1 else Reach(e, q[1..])
    else if q[0].fin then q[0].Top() else Reach(q[0].End(), q[1..])
  }

  /** Every queued segment starts at or below the end of what lies in front of it. */
  predicate Gapless(e: int, q: seq<Seg>)
    decreases |q|
  {
    q == [] || (q[0].pos <= e && Gapless(if e >= q[0].End() then e else q[0].End(), q[1..]))
  }

  /** The condition, on the segment and the queue as they are before the merge: the
      clipped segment ends at the edge and covers a queued FIN, or it joins up with the
      whole queue and the last queued segment passes the edge. */
  predicate Overruns(r: Rcv, s: Seg)
  {
    var edge := r.nxt + r.wnd;
    var e := ClipTo(s, edge).End();
    && !ClipTo(s, edge).fin && r.q != []
    && var last := r.q[|r.q| - 1];
       if e >= last.End() then last.fin && e == edge else Gapless(e, r.q) && last.Top() > edge
  }

  lemma OrderedTail(q: seq<Seg>)
    requires Ordered(q) && q != []
    ensures Ordered(q[1..]) && q[0].Span() > 0 && (q[0].fin ==> |q| == 1)
    ensures |q| > 1 ==> q[0].End() <= q[1].pos
  {
    OrderedSlice(q, 1, |q|);
    assert |q| > 1 ==> Apart(q[0], q[1]);
  }

  lemma {:induction false} DrainReach(d: Drained)
    requires Ordered(d.rest) && (d.rest != [] ==> d.rest[0].pos >= d.nxt)
    ensures Drain(d).nxt == Reach(d.nxt, d.rest)
    decreases |d.rest|
  {
    if d.rest != [] && d.rest[0].pos == d.nxt {
      OrderedTail(d.rest);
      DrainReach(Drained(d.rest[0].Top(), d.bytes + d.rest[0].data, d.fin || d.rest[0].fin, d.rest[1..]));
    }
  }

  /** Merging and draining reach just as far as the bytes join up. */
  lemma {:induction false} CoverReach(s: Seg, q: seq<Seg>)
    requires Ordered(q) && !s.fin && (q != [] ==> s.pos <= q[0].pos)
    ensures var (t, rest) := Cover(s, q); Drain(Drained(t.Top(), t.data, t.fin, rest)).nxt == Reach(s.End(), q)
    decreases |q|
  {
    var (t, rest) := Cover(s, q);
    if q != [] {
      OrderedTail(q);
      if s.Top() >= q[0].End() {
        if !q[0].fin {
          assert s.(fin := false) == s;
          CoverReach(s, q[1..]);
        }
      } else {
        DrainReach(Drained(t.Top(), t.data, t.fin, rest));
      }
    }
  }

  lemma {:induction false} ReachOver(e: int, q: seq<Seg>, edge: int)
    requires Ordered(q) && e <= edge && forall x :: x in q ==> x.pos < edge
    ensures Reach(e, q) > edge <==>
              q != [] && var last := q[|q| - 1];
              if e >= last.End() then last.fin && e == edge else Gapless(e, q) && last.Top() > edge
    decreases |q|
  {
    if q != [] {
      OrderedTail(q);
      LastBehind(q);
      assert q[0] in q && q[|q| - 1] in q;
      if |q| > 1 && q[0].pos <= e {
        assert q[1] in q;
        ReachOver(if e >= q[0].End() then e else q[0].End(), q[1..], edge);
      }
    }
  }

  lemma LastBehind(q: seq<Seg>)
    requires Ordered(q) && q != []
    ensures q[0].pos <= q[|q| - 1].pos && (|q| > 1 ==> q[0].End() <= q[1].pos <= q[|q| - 1].pos)
  {
    assert |q| > 1 ==> Apart(q[0], q[|q| - 1]) && Apart(q[0], q[1]);
    assert |q| > 2 ==> Apart(q[1], q[|q| - 1]);
  }

  /** The window assertion fires if and only if the segment and the queue overrun. */
  lemma AcceptOverruns(r: Rcv, s: Seg, sackOn: bool, mss: nat)
    requires Ordered(r.q) && s.pos == r.nxt && r.wnd >= 0
    requires forall x :: x in r.q ==> r.nxt < x.pos < r.nxt + r.wnd
    ensures Accept(r, s, sackOn, mss).Asserted? <==> Overruns(r, s)
  {
    var edge := r.nxt + r.wnd;
    var s0 := ClipTo(s, edge);
    assert r.q != [] ==> r.q[0] in r.q;
    if !s0.fin {
      CoverReach(s0, r.q);
      ReachOver(s0.End(), r.q, edge);
    }
  }

  /** Queued segments that end inside the window and carry no FIN never make it fire. */
  lemma NoOverrun(r: Rcv, s: Seg)
    requires forall x :: x in r.q ==> x.Top() <= r.nxt + r.wnd && !x.fin
    ensures !Overruns(r, s)
  {
    assert r.q != [] ==> r.q[|r.q| - 1] in r.q;
  }

  /** A run that reaches it: a segment that passes the window is queued whole, and then
      the two bytes in front of it arrive. */
  lemma OverrunReached(data: seq<byte>)
    requires |data| == TCP_WND
    ensures var r0 := Rcv(1, TCP_WND, TCP_WND, 1, [], [], [], false);
            var o := Arrive(r0, Seg(3, data, false), true, true, 1460);
            o.Stepped? && Arrive(o.r, Seg(1, [1, 2], false), true, true, 1460).Asserted?
  {
    var r0 := Rcv(1, TCP_WND, TCP_WND, 1, [], [], [], false);
    var x, s := Seg(3, data, false), Seg(1, [1, 2], false);
    var o := Arrive(r0, x, true, true, 1460);
    assert o.Stepped? && o.r.q == [x] && o.r.nxt == 1 && o.r.wnd == TCP_WND && !o.r.closed;
    assert Ordered([x]);
    assert ClipTo(s, 1 + TCP_WND) == s;
    assert Gapless(3, [x]);
    AcceptOverruns(o.r, s, true, 1460);
  }
}
