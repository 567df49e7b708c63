/** Whole runs of the receive side: what holds after any sequence of arrivals,
    reads by the application and outgoing announcements. */
module ReassemblyRuns {
  import opened Seq32
  import opened Reassembly
  import opened ReassemblyQueue
  import opened ReassemblyWindow

  datatype Conf = Conf(sackOn: bool, mss: nat)

  datatype Event =
    | Arrival(seg: Seg, copyOk: bool)  // a segment arrives; copyOk: tcp_seg_copy succeeds
    | Read(n: nat)                     // the application calls tcp_recved(n)
    | Announce                         // a segment carrying the window goes out

  function Step(r: Rcv, e: Event, c: Conf): Outcome
  {
    match e
    case Arrival(seg, copyOk) => Arrive(r, seg, copyOk, c.sackOn, c.mss)
    case Read(n) => Stepped(Recved(r, n, c.mss))
    case Announce => Stepped(AckSent(r))
  }

  function Run(r: Rcv, es: seq<Event>, c: Conf): Outcome
    decreases |es|
  {
    if es == [] then Stepped(r)
    else
      match Step(r, es[0], c)
      case Asserted => Asserted
      case Stepped(r1) => Run(r1, es[1..], c)
  }

  /** tcp_input drops a segment whose length and FIN do not fit in 16 bits. */
  predicate Sized(e: Event) { e.Arrival? ==> e.seg.Span() < 0x1_0000 }

  // ----- invariants --------------------------------------------------------------

  ghost predicate Queued(r: Rcv)
  {
    && Ordered(r.q)
    && (forall x :: x in r.q ==> r.nxt < x.pos < r.nxt + r.wnd && |x.data| < 0x1_0000)
  }

  /** Section 3.7 of RFC 793: the announced right edge is never taken back. */
  ghost predicate Windowed(r: Rcv)
  {
    && 0 <= r.wnd <= TCP_WND
    && 0 <= r.annWnd
    && r.annEdge <= r.nxt + r.annWnd <= r.nxt + r.wnd
  }

  ghost predicate SacksBounded(r: Rcv)
  {
    && |r.sacks| <= MAX_SACK
    && (r.q == [] ==> |r.sacks| <= 1)
    && (forall e :: e in r.sacks ==> r.nxt < e.left < e.right <= r.nxt + r.wnd + 0xffff)
  }

  ghost predicate Inv(r: Rcv) { Queued(r) && Windowed(r) && SacksBounded(r) }

  /** What no step takes back. */
  predicate Forward(r: Rcv, r': Rcv)
  {
    && r.nxt <= r'.nxt
    && r.nxt + r.wnd <= r'.nxt + r'.wnd
    && r.annEdge <= r'.annEdge
    && r.got <= r'.got
  }

  lemma {:induction false} RemoveLtMember(ss: seq<Range>, p: int, e: Range)
    requires e in RemoveLt(ss, p)
    ensures exists f :: f in ss && f.right > p && e == Cut(f, p)
  {
    if ss[0].right > p && e == Cut(ss[0], p) {
      assert ss[0] in ss;
    } else {
      RemoveLtMember(ss[1..], p, e);
      var f :| f in ss[1..] && f.right > p && e == Cut(f, p);
      assert f in ss;
    }
  }

  lemma KeepApartMember(ss: seq<Range>, l: int, r: int, e: Range)
    requires e in KeepApart(ss, l, r)
    ensures e in ss && (e.right <= l || r <= e.left)
  {
    if ss != [] && e in KeepApart(ss[1..], l, r) {
      KeepApartMember(ss[1..], l, r, e);
    }
  }

  lemma AddSackMember(ss: seq<Range>, l: int, r: int, e: Range)
    requires e in AddSack(ss, l, r)
    ensures (e == Range(l, r) && l < r) || (e in ss && (l < r ==> e.right <= l || r <= e.left))
  {
    if l < r && e != Range(l, r) {
      assert e in KeepApart(ss, l, r);
      KeepApartMember(ss, l, r, e);
    }
  }

  lemma {:induction false} RunRightBound(q: seq<Seg>, k: nat)
    requires k < |q|
    ensures exists j :: k <= j < |q| && RunRight(q, k) == q[j].End()
    decreases |q| - k
  {
    if k + 1 < |q| && q[k + 1].pos == q[k].End() {
      RunRightBound(q, k + 1);
    } else {
      assert RunRight(q, k) == q[k].End();
    }
  }

  lemma {:induction false} RunLeftBound(q: seq<Seg>, k: nat)
    requires k < |q|
    ensures exists j :: 0 <= j <= k && RunLeft(q, k) == q[j].pos
  {
    if k > 0 && q[k - 1].End() == q[k].pos {
      RunLeftBound(q, k - 1);
    } else {
      assert RunLeft(q, k) == q[k].pos;
    }
  }

  // ----- every step keeps the invariant --------------------------------------------

  lemma MergeBounds(r: Rcv, s: Seg)
    requires Queued(r) && s.pos == r.nxt && s.Span() > 0
    ensures var (t, rest) := Merge(s, r.q);
            && t.pos == r.nxt && t.Span() > 0
            && Ordered(rest) && Suffix(rest, r.q)
            && (rest != [] ==> t.Top() <= rest[0].pos)
            && t.data <= s.data
            && (t.fin ==> rest == [])
  {
    assert r.q != [] ==> r.q[0] in r.q;
    MergeFacts(s, r.q);
    MergeTail(s, r.q);
    MergeSuffix(s, r.q);
    assert Consed(Merge(s, r.q))[0] == Merge(s, r.q).0;
  }

  /** The parts of an accepted in-sequence segment. */
  function Delivery(r: Rcv, s: Seg): Drained
  {
    var (s1, q1) := Merge(ClipTo(s, r.nxt + r.wnd), r.q);
    Drain(Drained(s1.Top(), s1.data, s1.fin, q1))
  }

  lemma DeliveryFacts(r: Rcv, s: Seg)
    requires Queued(r) && s.pos == r.nxt && s.Span() > 0 && r.wnd > 0
    ensures Suffix(Delivery(r, s).rest, r.q)
    ensures Delivery(r, s).nxt > r.nxt
    ensures Delivery(r, s).rest != [] ==> Delivery(r, s).nxt < Delivery(r, s).rest[0].pos
  {
    var s0 := ClipTo(s, r.nxt + r.wnd);
    MergeBounds(r, s0);
    var m := Merge(s0, r.q);
    DrainFacts(Drained(m.0.Top(), m.0.data, m.0.fin, m.1));
    SuffixTrans(Delivery(r, s).rest, m.1, r.q);
  }

  lemma HeadIsLowest(q: seq<Seg>, p: int)
    requires Ordered(q) && (q != [] ==> p < q[0].pos)
    ensures forall x :: x in q ==> p < x.pos
  {
    forall x | x in q ensures p < x.pos {
      var i :| 0 <= i < |q| && q[i] == x;
      assert i > 0 ==> Apart(q[0], q[i]);
    }
  }

  lemma DeliveryQueued(r: Rcv, s: Seg)
    requires Queued(r) && s.pos == r.nxt && s.Span() > 0 && r.wnd > 0
    ensures var d := Delivery(r, s);
            && Ordered(d.rest)
            && (forall x :: x in d.rest ==> x in r.q && d.nxt < x.pos)
            && d.nxt > r.nxt
  {
    DeliveryFacts(r, s);
    SuffixOrdered(Delivery(r, s).rest, r.q);
    HeadIsLowest(Delivery(r, s).rest, Delivery(r, s).nxt);
  }

  lemma AnnWndKeeps(nxt: int, wnd: int, annEdge: int, mss: nat)
    requires 0 <= wnd && annEdge <= nxt + wnd
    ensures 0 <= AnnWnd(nxt, wnd, annEdge, mss) <= wnd
    ensures annEdge <= nxt + AnnWnd(nxt, wnd, annEdge, mss)
  {
  }

  /** In-sequence data keeps the invariant, or makes the window assertion fire, which it
      does exactly if segment and queue overrun the window. */
  lemma AcceptKeeps(r: Rcv, s: Seg, c: Conf)
    requires Inv(r) && s.pos == r.nxt && s.Span() > 0 && r.wnd > 0
    ensures var o := Accept(r, s, c.sackOn, c.mss);
            && (o.Asserted? <==> Overruns(r, s))
            && (o.Stepped? ==> Queued(o.r) && Windowed(o.r) && Forward(r, o.r) && Delivery(r, s).nxt <= r.nxt + r.wnd)
  {
    DeliveryQueued(r, s);
    AcceptOverruns(r, s, c.sackOn, c.mss);
    var d := Delivery(r, s);
    hide Overruns;
    if d.nxt <= r.nxt + r.wnd {
      AnnWndKeeps(d.nxt, r.nxt + r.wnd - d.nxt, r.annEdge, c.mss);
    }
  }

  lemma AcceptSacksBounded(r: Rcv, s: Seg, c: Conf)
    requires Inv(r) && s.pos == r.nxt && s.Span() > 0 && r.wnd > 0
    requires !c.sackOn ==> r.sacks == []
    ensures var o := Accept(r, s, c.sackOn, c.mss); o.Stepped? ==> SacksBounded(o.r)
  {
    DeliveryQueued(r, s);
    var o := Accept(r, s, c.sackOn, c.mss);
    if o.Stepped? {
      assert o.r.q != [] ==> o.r.q[0] in o.r.q;
      forall e | e in o.r.sacks ensures o.r.nxt < e.left < e.right <= o.r.nxt + o.r.wnd + 0xffff {
        RemoveLtMember(r.sacks, o.r.q[0].pos, e);
      }
    }
  }

  lemma PlaceBounds(r: Rcv, s: Seg)
    requires Queued(r) && r.nxt < s.pos < r.nxt + r.wnd && 0 < s.Span() < 0x1_0000
    ensures Queued(r.(q := Place(r.q, s, r.nxt + r.wnd)))
    ensures Place(r.q, s, r.nxt + r.wnd) != []
  {
    hide Place, Ordered;
    var q1 := Place(r.q, s, r.nxt + r.wnd);
    PlaceOrdered(r.q, s, r.nxt + r.wnd);
    PlaceNonEmpty(r.q, s, r.nxt + r.wnd);
    forall x | x in q1 ensures r.nxt < x.pos < r.nxt + r.wnd && |x.data| < 0x1_0000 {
      PlaceKept(r.q, s, r.nxt + r.wnd, x);
    }
  }

  lemma SackAfterBounded(r: Rcv, q1: seq<Seg>, p: int)
    requires Queued(r) && SacksBounded(r) && r.q != [] && Queued(r.(q := q1)) && q1 != []
    requires r.nxt < p < r.nxt + r.wnd
    ensures SacksBounded(r.(q := q1, sacks := SackAfter(r.sacks, r.q, q1, p)))
  {
    var ss := SackAfter(r.sacks, r.q, q1, p);
    var k := Below(r.q, p);
    assert r.q[0] in r.q;
    if k < |q1| {
      RunRightBound(q1, k);
      RunLeftBound(q1, k);
      var j :| k <= j < |q1| && RunRight(q1, k) == q1[j].End();
      var i :| 0 <= i <= k && RunLeft(q1, k) == q1[i].pos;
      assert q1[j] in q1 && q1[i] in q1;
      var l := if k == 0 then (if p < r.q[0].pos then p else r.q[0].pos) else RunLeft(q1, k);
      forall e | e in ss ensures r.nxt < e.left < e.right <= r.nxt + r.wnd + 0xffff {
        AddSackMember(r.sacks, l, RunRight(q1, k), e);
      }
    }
  }

  lemma SameQueued(r: Rcv, r': Rcv)
    requires Queued(r) && r'.q == r.q && r'.nxt == r.nxt && r'.wnd == r.wnd
    ensures Queued(r')
  {
  }

  lemma EnqueueFirstKeeps(r: Rcv, s: Seg, copyOk: bool, sackOn: bool)
    requires Queued(r) && SacksBounded(r) && r.q == []
    requires r.nxt < s.pos < r.nxt + r.wnd && 0 < s.Span() < 0x1_0000
    ensures Queued(Enqueue(r, s, copyOk, sackOn)) && SacksBounded(Enqueue(r, s, copyOk, sackOn))
  {
  }

  lemma EnqueueQueued(r: Rcv, s: Seg, copyOk: bool, sackOn: bool)
    requires Queued(r) && r.q != [] && r.nxt < s.pos < r.nxt + r.wnd && 0 < s.Span() < 0x1_0000
    ensures Queued(Enqueue(r, s, copyOk, sackOn))
  {
    hide Place, SackAfter, Queued;
    if copyOk {
      PlaceBounds(r, s);
      SameQueued(r.(q := Place(r.q, s, r.nxt + r.wnd)), Enqueue(r, s, copyOk, sackOn));
    } else {
      SameQueued(r, Enqueue(r, s, copyOk, sackOn));
    }
  }

  lemma EnqueueSacksBounded(r: Rcv, s: Seg, copyOk: bool, sackOn: bool)
    requires Queued(r) && SacksBounded(r) && r.q != []
    requires r.nxt < s.pos < r.nxt + r.wnd && 0 < s.Span() < 0x1_0000
    ensures SacksBounded(Enqueue(r, s, copyOk, sackOn))
  {
    hide Place, SackAfter, SacksBounded, Queued;
    if copyOk {
      PlaceBounds(r, s);
      SackedBounded(r, Place(r.q, s, r.nxt + r.wnd), s.pos, sackOn, Enqueue(r, s, true, sackOn));
    } else {
      assert r.(q := r.q) == r;
      SackedBounded(r, r.q, s.pos, sackOn, Enqueue(r, s, false, sackOn));
    }
  }

  lemma SackedBounded(r: Rcv, q1: seq<Seg>, p: int, sackOn: bool, r': Rcv)
    requires Queued(r) && SacksBounded(r) && r.q != [] && Queued(r.(q := q1)) && q1 != []
    requires r.nxt < p < r.nxt + r.wnd
    requires r' == r.(q := q1, sacks := if sackOn then SackAfter(r.sacks, r.q, q1, p) else r.sacks)
    ensures SacksBounded(r')
  {
    SackAfterBounded(r, q1, p);
  }

  lemma EnqueueKeeps(r: Rcv, s: Seg, copyOk: bool, c: Conf)
    requires Inv(r) && r.nxt < s.pos < r.nxt + r.wnd && 0 < s.Span() < 0x1_0000
    ensures Inv(Enqueue(r, s, copyOk, c.sackOn))
    ensures Forward(r, Enqueue(r, s, copyOk, c.sackOn))
  {
    if r.q == [] {
      EnqueueFirstKeeps(r, s, copyOk, c.sackOn);
    } else {
      EnqueueQueued(r, s, copyOk, c.sackOn);
      EnqueueSacksBounded(r, s, copyOk, c.sackOn);
    }
  }

  /** Arbitrary segments, malformed ones included, and failed copies. */
  lemma ArriveKeeps(r: Rcv, seg: Seg, copyOk: bool, c: Conf)
    requires Inv(r) && seg.Span() < 0x1_0000
    requires !c.sackOn ==> r.sacks == []
    ensures var o := Arrive(r, seg, copyOk, c.sackOn, c.mss);
            o.Stepped? ==> Inv(o.r) && Forward(r, o.r) && (!c.sackOn ==> o.r.sacks == [])
  {
    if seg.Span() > 0 && !r.closed {
      var s := TrimHead(seg, r.nxt);
      if r.nxt <= s.pos < r.nxt + r.wnd {
        if s.pos == r.nxt {
          AcceptKeeps(r, s, c);
          AcceptSacksBounded(r, s, c);
        } else {
          EnqueueKeeps(r, s, copyOk, c);
        }
      }
    }
  }

  lemma StepKeeps(r: Rcv, e: Event, c: Conf)
    requires Inv(r) && Sized(e) && (!c.sackOn ==> r.sacks == [])
    ensures var o := Step(r, e, c);
            o.Stepped? ==> Inv(o.r) && Forward(r, o.r) && (!c.sackOn ==> o.r.sacks == [])
  {
    match e
    case Arrival(seg, copyOk) => ArriveKeeps(r, seg, copyOk, c);
    case Read(n) => AnnWndKeeps(r.nxt, Min(r.wnd + n, TCP_WND), r.annEdge, c.mss);
    case Announce =>
  }

  /** The invariant and the one-way edges hold over every run. */
  lemma {:induction false} RunKeeps(r: Rcv, es: seq<Event>, c: Conf)
    requires Inv(r) && (!c.sackOn ==> r.sacks == [])
    requires forall e :: e in es ==> Sized(e)
    ensures var o := Run(r, es, c); o.Stepped? ==> Inv(o.r) && Forward(r, o.r)
    decreases |es|
  {
    if es != [] {
      StepKeeps(r, es[0], c);
      var o := Step(r, es[0], c);
      if o.Stepped? {
        RunKeeps(o.r, es[1..], c);
      }
    }
  }
}
