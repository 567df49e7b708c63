/** The application sees the sender's byte stream: over every run in which the
    segments are cut from one stream and end inside the window, in any order and
    with any overlap, duplication and allocation failure. */
module ReassemblyStream {
  import opened Seq32
  import opened Reassembly
  import opened ReassemblyQueue
  import opened ReassemblyRuns

  /** What the sender sends: a byte at each position from org up to eof, then FIN. */
  datatype Stream = Stream(org: int, eof: int, byteAt: int -> byte)

  ghost predicate Matches(bytes: seq<byte>, p: int, st: Stream)
  {
    forall i :: 0 <= i < |bytes| ==> bytes[i] == st.byteAt(p + i)
  }

  ghost predicate CutFrom(s: Seg, st: Stream)
  {
    Matches(s.data, s.pos, st) && s.End() <= st.eof && (s.fin ==> s.End() == st.eof)
  }

  /** Exactly the stream up to rcv_nxt has been passed up, in order and once each. */
  ghost predicate Sound(r: Rcv, st: Stream)
  {
    && r.nxt == st.org + |r.got| + (if r.closed then 1 else 0)
    && Matches(r.got, st.org, st)
    && (if r.closed then r.nxt == st.eof + 1 && r.q == [] else r.nxt <= st.eof)
    && (forall x :: x in r.q ==> CutFrom(x, st) && x.Top() <= r.nxt + r.wnd)
  }

  ghost predicate Honest(r: Rcv, e: Event, st: Stream)
  {
    Sized(e) && (e.Arrival? ==> CutFrom(e.seg, st) && e.seg.Top() <= r.nxt + r.wnd)
  }

  /** Every arrival of the run is honest at the moment it arrives. */
  ghost predicate HonestRun(r: Rcv, es: seq<Event>, c: Conf, st: Stream)
    decreases |es|
  {
    es != [] ==>
      && Honest(r, es[0], st)
      && (Step(r, es[0], c).Stepped? ==> HonestRun(Step(r, es[0], c).r, es[1..], c, st))
  }

  lemma MatchesConcat(a: seq<byte>, b: seq<byte>, p: int, st: Stream)
    requires Matches(a, p, st) && Matches(b, p + |a|, st)
    ensures Matches(a + b, p, st)
  {
    forall i | 0 <= i < |a + b| ensures (a + b)[i] == st.byteAt(p + i) {
      if i >= |a| {
        assert (a + b)[i] == b[i - |a|] == st.byteAt(p + |a| + (i - |a|));
      }
    }
  }

  lemma MatchesDrop(a: seq<byte>, n: nat, p: int, st: Stream)
    requires Matches(a, p, st) && n <= |a|
    ensures Matches(a[n..], p + n, st)
  {
    forall i | 0 <= i < |a[n..]| ensures a[n..][i] == st.byteAt(p + n + i) {
      assert a[n..][i] == a[n + i] == st.byteAt(p + (n + i));
    }
  }

  lemma KeptCut(x: Seg, q: seq<Seg>, s: Seg, st: Stream, edge: int)
    requires Kept(x, q, s)
    requires CutFrom(s, st) && s.Top() <= edge
    requires forall y :: y in q ==> CutFrom(y, st) && y.Top() <= edge
    ensures CutFrom(x, st) && x.Top() <= edge
  {
  }

  /** A delivery in progress that has passed up the stream from `from`. */
  ghost predicate Delivering(d: Drained, from: int, st: Stream, edge: int)
  {
    && Ordered(d.rest)
    && (d.rest != [] ==> d.nxt <= d.rest[0].pos && !d.fin)
    && Matches(d.bytes, from, st)
    && d.nxt == from + |d.bytes| + (if d.fin then 1 else 0)
    && (if d.fin then d.nxt == st.eof + 1 else d.nxt <= st.eof)
    && d.nxt <= edge
    && (forall x :: x in d.rest ==> CutFrom(x, st) && x.Top() <= edge)
  }

  lemma {:induction false} DrainDelivers(d: Drained, from: int, st: Stream, edge: int)
    requires Delivering(d, from, st, edge)
    ensures Delivering(Drain(d), from, st, edge)
    decreases |d.rest|
  {
    if d.rest != [] && d.rest[0].pos == d.nxt {
      var x := d.rest[0];
      var d1 := Drained(x.Top(), d.bytes + x.data, d.fin || x.fin, d.rest[1..]);
      assert x in d.rest;
      OrderedSlice(d.rest, 1, |d.rest|);
      if d1.rest != [] {
        assert Apart(x, d.rest[1]);
      }
      MatchesConcat(d.bytes, x.data, from, st);
      DrainDelivers(d1, from, st, edge);
    }
  }

  lemma AcceptDelivers(r: Rcv, s: Seg, c: Conf, st: Stream)
    requires Inv(r) && Sound(r, st) && !r.closed && r.wnd > 0
    requires s.pos == r.nxt && s.Span() > 0 && CutFrom(s, st) && s.Top() <= r.nxt + r.wnd
    ensures Delivering(Delivery(r, s), r.nxt, st, r.nxt + r.wnd)
  {
    var edge := r.nxt + r.wnd;
    MergeBounds(r, s);
    var (t, rest) := Merge(s, r.q);
    assert r.q != [] ==> r.q[0] in r.q;
    MergeKept(s, r.q, t);
    KeptCut(t, r.q, s, st, edge);
    SuffixOrdered(rest, r.q);
    DrainDelivers(Drained(t.Top(), t.data, t.fin, rest), r.nxt, st, edge);
  }

  lemma AcceptSound(r: Rcv, s: Seg, c: Conf, st: Stream)
    requires Inv(r) && Sound(r, st) && !r.closed && r.wnd > 0
    requires s.pos == r.nxt && s.Span() > 0 && CutFrom(s, st) && s.Top() <= r.nxt + r.wnd
    ensures var o := Accept(r, s, c.sackOn, c.mss); o.Stepped? && Sound(o.r, st)
  {
    AcceptDelivers(r, s, c, st);
    var d := Delivery(r, s);
    MatchesConcat(r.got, d.bytes, st.org, st);
  }

  lemma EnqueueSound(r: Rcv, s: Seg, copyOk: bool, c: Conf, st: Stream)
    requires Inv(r) && Sound(r, st) && !r.closed
    requires r.nxt < s.pos < r.nxt + r.wnd && s.Span() > 0 && CutFrom(s, st) && s.Top() <= r.nxt + r.wnd
    ensures Sound(Enqueue(r, s, copyOk, c.sackOn), st)
  {
    var edge := r.nxt + r.wnd;
    if r.q != [] && copyOk {
      forall x | x in Place(r.q, s, edge) ensures CutFrom(x, st) && x.Top() <= edge {
        PlaceKept(r.q, s, edge, x);
        KeptCut(x, r.q, s, st, edge);
      }
    }
  }

  lemma TrimHeadCut(seg: Seg, nxt: int, st: Stream)
    requires CutFrom(seg, st)
    ensures CutFrom(TrimHead(seg, nxt), st)
    ensures TrimHead(seg, nxt).Top() == seg.Top()
    ensures seg.Span() > 0 ==> TrimHead(seg, nxt).Span() > 0
  {
    if seg.pos < nxt < seg.Top() {
      MatchesDrop(seg.data, nxt - seg.pos, seg.pos, st);
    }
  }

  lemma StepSound(r: Rcv, e: Event, c: Conf, st: Stream)
    requires Inv(r) && Sound(r, st) && Honest(r, e, st)
    ensures var o := Step(r, e, c); o.Stepped? && Sound(o.r, st)
  {
    hide Accept, Enqueue, CutFrom, Queued, SacksBounded;
    if e.Arrival? && e.seg.Span() > 0 && !r.closed {
      var s := TrimHead(e.seg, r.nxt);
      TrimHeadCut(e.seg, r.nxt, st);
      if r.nxt <= s.pos < r.nxt + r.wnd {
        if s.pos == r.nxt {
          AcceptSound(r, s, c, st);
        } else {
          EnqueueSound(r, s, e.copyOk, c, st);
        }
      }
    }
  }

  /** Reassembly is correct over every run, and the window assertions never fire. */
  lemma {:induction false} RunDelivers(r: Rcv, es: seq<Event>, c: Conf, st: Stream)
    requires Inv(r) && Sound(r, st) && HonestRun(r, es, c, st)
    requires !c.sackOn ==> r.sacks == []
    ensures var o := Run(r, es, c); o.Stepped? && Inv(o.r) && Sound(o.r, st)
    decreases |es|
  {
    if es != [] {
      StepSound(r, es[0], c, st);
      StepKeeps(r, es[0], c);
      RunDelivers(Step(r, es[0], c).r, es[1..], c, st);
    }
  }

  lemma DrainReaches(d: Drained, p: int)
    requires Ordered(d.rest) && d.rest != [] && d.nxt == d.rest[0].pos && d.rest[0].End() >= p
    ensures Drain(d).nxt >= p
  {
    var x := d.rest[0];
    var d1 := Drained(x.Top(), d.bytes + x.data, d.fin || x.fin, d.rest[1..]);
    OrderedSlice(d.rest, 1, |d.rest|);
    if d1.rest != [] {
      assert Apart(x, d.rest[1]);
    }
    DrainFacts(d1);
  }

  lemma MergeReaches(s: Seg, q: seq<Seg>)
    requires Ordered(q) && Fits(s, q)
    ensures var (t, rest) := Merge(s, q);
            t.Top() >= s.Top() || (rest != [] && t.Top() == rest[0].pos && s.Top() <= rest[0].End())
  {
    MergeFacts(s, q);
  }

  lemma DeliveryReaches(r: Rcv, s: Seg)
    requires Queued(r) && s.pos == r.nxt && 0 < s.Span() <= r.wnd
    ensures Delivery(r, s).nxt >= s.Top()
  {
    assert r.q != [] ==> r.q[0] in r.q;
    MergeReaches(s, r.q);
    MergeBounds(r, s);
    var m := Merge(s, r.q);
    var d := Drained(m.0.Top(), m.0.data, m.0.fin, m.1);
    if d.nxt >= s.Top() {
      DrainFacts(d);
    } else {
      DrainReaches(d, s.Top());
    }
  }

  /** In-sequence bytes inside the window are never held back: an honest segment
      that starts at or below rcv_nxt moves rcv_nxt past its end, and whatever is
      still queued afterwards lies strictly above. */
  lemma InSequenceAdvances(r: Rcv, seg: Seg, copyOk: bool, c: Conf, st: Stream)
    requires Inv(r) && Sound(r, st) && !r.closed && Honest(r, Arrival(seg, copyOk), st)
    requires seg.pos <= r.nxt < seg.Top()
    ensures var o := Arrive(r, seg, copyOk, c.sackOn, c.mss);
            o.Stepped? && o.r.nxt >= seg.Top() && (forall x :: x in o.r.q ==> x.pos > o.r.nxt)
  {
    var s := TrimHead(seg, r.nxt);
    TrimHeadCut(seg, r.nxt, st);
    AcceptSound(r, s, c, st);
    DeliveryReaches(r, s);
    AcceptKeeps(r, s, c);
  }
}
