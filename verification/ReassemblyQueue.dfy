/** The shape of the out-of-order queue is kept by every step, for any segments
    whatsoever and any allocation failures. */
module ReassemblyQueue {
  import opened Seq32
  import opened Reassembly

  /** a may precede b in the queue: no FIN on a, no overlap. */
  predicate Apart(a: Seg, b: Seg) { !a.fin && a.End() <= b.pos }

  /** Strictly increasing, non-overlapping, FIN only at the end, nothing empty. */
  ghost predicate Ordered(q: seq<Seg>)
  {
    && (forall i :: 0 <= i < |q| ==> q[i].Span() > 0)
    && (forall i, j {:trigger Apart(q[i], q[j])} :: 0 <= i < j < |q| ==> Apart(q[i], q[j]))
  }

  lemma OrderedSlice(q: seq<Seg>, a: nat, b: nat)
    requires Ordered(q) && a <= b <= |q|
    ensures Ordered(q[a..b])
    ensures b == |q| ==> Ordered(q[a..])
    ensures a == 0 ==> Ordered(q[..b])
  {
    var t := q[a..b];
    forall i, j | 0 <= i < j < |t| ensures Apart(t[i], t[j]) {
      assert Apart(q[a + i], q[a + j]);
    }
    assert b == |q| ==> q[a..] == t;
    assert a == 0 ==> q[..b] == t;
  }

  lemma OrderedConcat(a: seq<Seg>, b: seq<Seg>)
    requires Ordered(a) && Ordered(b)
    requires b != [] ==> forall i :: 0 <= i < |a| ==> Apart(a[i], b[0])
    ensures Ordered(a + b)
  {
    var q := a + b;
    forall i, j | 0 <= i < j < |q| ensures Apart(q[i], q[j]) {
      if j < |a| {
        assert Apart(a[i], a[j]);
      } else if |a| <= i {
        assert Apart(b[i - |a|], b[j - |a|]);
      } else {
        assert Apart(a[i], b[0]);
        if j > |a| {
          assert Apart(b[0], b[j - |a|]);
        }
      }
    }
  }

  ghost predicate Suffix(a: seq<Seg>, q: seq<Seg>)
    decreases |q|
  {
    a == q || (q != [] && Suffix(a, q[1..]))
  }

  lemma {:induction false} SliceSuffix(q: seq<Seg>, n: nat)
    requires n <= |q|
    ensures Suffix(q[n..], q)
  {
    if n > 0 {
      assert q[n..] == q[1..][n - 1..];
      SliceSuffix(q[1..], n - 1);
    } else {
      assert q[0..] == q;
    }
  }

  lemma {:induction false} SuffixSlice(a: seq<Seg>, q: seq<Seg>)
    requires Suffix(a, q)
    ensures |a| <= |q| && a == q[|q| - |a|..]
    decreases |q|
  {
    if a != q {
      SuffixSlice(a, q[1..]);
      assert q[1..][|q| - 1 - |a|..] == q[|q| - |a|..];
    }
  }

  lemma {:induction false} SuffixTrans(a: seq<Seg>, b: seq<Seg>, q: seq<Seg>)
    requires Suffix(a, b) && Suffix(b, q)
    ensures Suffix(a, q)
    decreases |q|
  {
    if b != q {
      SuffixTrans(a, b, q[1..]);
    }
  }

  lemma {:induction false} SuffixOrdered(a: seq<Seg>, q: seq<Seg>)
    requires Suffix(a, q) && Ordered(q)
    ensures Ordered(a) && forall x :: x in a ==> x in q
  {
    SuffixSlice(a, q);
    OrderedSlice(q, |q| - |a|, |q|);
  }

  /** What covering the queue q by s leaves: t followed by rest. */
  ghost predicate Covers(s: Seg, q: seq<Seg>, t: Seg, rest: seq<Seg>)
  {
    && t.pos == s.pos
    && t.data <= s.data
    && |rest| <= |q|
    && rest == q[|q| - |rest|..]
    && (forall i :: 0 <= i < |q| - |rest| ==> q[i].End() <= t.End())
    && (t.data == s.data || (rest != [] && t.End() == rest[0].pos && s.End() < rest[0].End()))
    && (t.fin ==> rest == [] && (s.fin || (q != [] && q[|q| - 1].fin)))
    && (s.fin ==> t.fin)
  }

  /** One more covered segment in front changes nothing else. */
  lemma CoversCons(s: Seg, q: seq<Seg>, t: Seg, rest: seq<Seg>)
    requires Ordered(q) && q != [] && s.Top() >= q[0].End() && !s.fin
    requires Covers(s.(fin := q[0].fin), q[1..], t, rest)
    ensures Covers(s, q, t, rest)
  {
    var n := |q| - |rest|;
    assert rest == q[1..][n - 1..] == q[n..];
    assert |q| > 1 ==> Apart(q[0], q[|q| - 1]);
    forall i | 0 <= i < n ensures q[i].End() <= t.End() {
      if i > 0 {
        assert q[1..][i - 1] == q[i];
      } else if t.data != s.data {
        assert rest[0] == q[n] && Apart(q[0], q[n]);
      }
    }
  }

  /** s can stand in front of the queue q. */
  predicate Fits(s: Seg, q: seq<Seg>)
  {
    && s.Span() > 0
    && (q != [] ==> s.pos <= q[0].pos && (s.pos == q[0].pos ==> s.Top() >= q[0].End()))
  }

  lemma {:induction false} CoverFacts(s: Seg, q: seq<Seg>)
    requires Ordered(q) && Fits(s, q)
    requires s.fin ==> q == []
    ensures Ordered(Consed(Cover(s, q)))
    ensures Covers(s, q, Cover(s, q).0, Cover(s, q).1)
    decreases |q|
  {
    if q != [] && s.Top() >= q[0].End() {
      var s1 := s.(fin := q[0].fin);
      OrderedSlice(q, 1, |q|);
      if |q| > 1 {
        assert Apart(q[0], q[1]);
      }
      CoverFacts(s1, q[1..]);
      CoversCons(s, q, Cover(s1, q[1..]).0, Cover(s1, q[1..]).1);
    } else if q != [] && s.Top() > q[0].pos {
      OrderedConcat([TrimTo(s, q[0].pos)], q);
    } else {
      OrderedConcat([s], q);
    }
  }

  lemma MergeFacts(s: Seg, q: seq<Seg>)
    requires Ordered(q) && Fits(s, q)
    ensures Ordered(Consed(Merge(s, q)))
    ensures if s.fin then Merge(s, q) == (s, []) else Covers(s, q, Merge(s, q).0, Merge(s, q).1)
  {
    if !s.fin {
      CoverFacts(s, q);
    }
  }

  lemma MergeTail(s: Seg, q: seq<Seg>)
    requires Ordered(q) && Fits(s, q)
    ensures Ordered(Merge(s, q).1)
    ensures Merge(s, q).1 != [] ==> Merge(s, q).0.Top() <= Merge(s, q).1[0].pos
  {
    MergeFacts(s, q);
    var m := Consed(Merge(s, q));
    OrderedSlice(m, 1, |m|);
    assert m[1..] == Merge(s, q).1;
    if |m| > 1 {
      assert Apart(m[0], m[1]);
    }
  }

  lemma MergeSuffix(s: Seg, q: seq<Seg>)
    requires Ordered(q) && Fits(s, q)
    ensures Suffix(Merge(s, q).1, q)
  {
    MergeFacts(s, q);
    SliceSuffix(q, |q| - |Merge(s, q).1|);
  }

  /** A queued segment keeps its place when something at p is put behind it. */
  ghost predicate Trimmed(q: seq<Seg>, t: seq<Seg>, p: int)
  {
    && |t| == |q|
    && (forall i :: 0 <= i < |t| ==> !t[i].fin && t[i].End() <= p && t[i].pos == q[i].pos && t[i].data <= q[i].data)
    && (forall i :: 0 <= i < |q| - 1 ==> t[i] == q[i])
    && (q != [] ==> t[|t| - 1].End() == Min(q[|q| - 1].End(), p))
  }

  lemma TrimLastFacts(q: seq<Seg>, p: int)
    requires Ordered(q)
    requires forall i :: 0 <= i < |q| ==> q[i].pos < p
    requires q != [] ==> !q[|q| - 1].fin
    ensures Ordered(TrimLast(q, p)) && Trimmed(q, TrimLast(q, p), p)
  {
    if q != [] {
      var n := |q| - 1;
      forall i | 0 <= i < n ensures Apart(q[i], q[n]) {
      }
      OrderedSlice(q, 0, n);
      OrderedConcat(q[..n], [TrimTo(q[n], p)]);
    }
  }

  /** The queue with s put behind `front` and merged with `tail`. */
  lemma SpliceOrdered(front: seq<Seg>, s: Seg, tail: seq<Seg>)
    requires Ordered(front) && Ordered(tail) && Fits(s, tail)
    requires forall i :: 0 <= i < |front| ==> !front[i].fin && front[i].End() <= s.pos
    ensures Ordered(front + Consed(Merge(s, tail)))
  {
    MergeFacts(s, tail);
    OrderedConcat(front, Consed(Merge(s, tail)));
  }

  lemma BeforeApart(q: seq<Seg>, k: nat)
    requires Ordered(q) && k < |q|
    ensures forall i :: 0 <= i < k ==> !q[i].fin && q[i].End() <= q[k].pos
  {
    forall i | 0 <= i < k ensures Apart(q[i], q[k]) {
    }
  }

  lemma PlaceTailOrdered(q: seq<Seg>, s: Seg, edge: int)
    requires Ordered(q) && s.Span() > 0 && s.pos < edge
    requires q != [] && !q[|q| - 1].fin && forall i :: 0 <= i < |q| ==> q[i].pos < s.pos
    ensures Ordered(TrimLast(q, s.pos) + [ClipTo(s, edge)])
  {
    TrimLastFacts(q, s.pos);
    OrderedConcat(TrimLast(q, s.pos), [ClipTo(s, edge)]);
  }

  lemma PlaceInnerOrdered(q: seq<Seg>, s: Seg, k: nat)
    requires Ordered(q) && s.Span() > 0 && k <= |q|
    requires forall i :: 0 <= i < k ==> q[i].pos < s.pos
    requires k < |q| ==> s.pos < q[k].pos
    requires k == |q| ==> q == []
    ensures Ordered(TrimLast(q[..k], s.pos) + Consed(Merge(s, q[k..])))
  {
    OrderedSlice(q, 0, k);
    OrderedSlice(q, k, |q|);
    if k < |q| {
      BeforeApart(q, k);
    }
    TrimLastFacts(q[..k], s.pos);
    SpliceOrdered(TrimLast(q[..k], s.pos), s, q[k..]);
  }

  lemma PlaceSameOrdered(q: seq<Seg>, s: Seg, k: nat)
    requires Ordered(q) && k < |q| && q[k].pos == s.pos && |s.data| > |q[k].data|
    ensures Ordered(q[..k] + Consed(Merge(s, q[k..])))
  {
    OrderedSlice(q, 0, k);
    OrderedSlice(q, k, |q|);
    BeforeApart(q, k);
    SpliceOrdered(q[..k], s, q[k..]);
  }

  lemma PlaceOrdered(q: seq<Seg>, s: Seg, edge: int)
    requires Ordered(q) && s.Span() > 0 && s.pos < edge
    ensures Ordered(Place(q, s, edge))
  {
    var k := Below(q, s.pos);
    if k < |q| && q[k].pos == s.pos {
      if |s.data| > |q[k].data| {
        PlaceSameOrdered(q, s, k);
      }
    } else if k == |q| > 0 {
      if !q[k - 1].fin {
        PlaceTailOrdered(q, s, edge);
      }
    } else {
      PlaceInnerOrdered(q, s, k);
    }
  }

  lemma PlaceNonEmpty(q: seq<Seg>, s: Seg, edge: int)
    ensures Place(q, s, edge) != []
  {
  }

  // ----- where the queued bytes come from --------------------------------------

  /** x carries bytes of s or of a segment of q from the same position on, and its
      FIN, if any, is one that it reaches. */
  ghost predicate Kept(x: Seg, q: seq<Seg>, s: Seg)
  {
    || x in q
    || (x.pos == s.pos && x.data <= s.data && (x.fin ==> x == s || ReachesFin(x, q)))
    || (!x.fin && exists y :: y in q && x.pos == y.pos && x.data <= y.data)
  }

  ghost predicate ReachesFin(x: Seg, q: seq<Seg>)
  {
    exists y :: y in q && y.fin && y.End() <= x.End()
  }

  lemma MergeKept(s: Seg, q: seq<Seg>, x: Seg)
    requires Ordered(q) && Fits(s, q)
    requires x in Consed(Merge(s, q))
    ensures Kept(x, q, s)
  {
    MergeFacts(s, q);
    if !s.fin {
      var (t, rest) := Merge(s, q);
      if x == t {
        if t.fin {
          assert q[|q| - 1] in q;
        }
      } else {
        assert x in q[|q| - |rest|..];
      }
    }
  }

  lemma TrimLastKept(q: seq<Seg>, p: int, s: Seg, x: Seg)
    requires Trimmed(q, TrimLast(q, p), p)
    requires x in TrimLast(q, p)
    ensures Kept(x, q, s)
  {
    var t := TrimLast(q, p);
    var i :| 0 <= i < |t| && t[i] == x;
    assert q[i] in q;
  }

  lemma KeptMonotone(x: Seg, q: seq<Seg>, big: seq<Seg>, s: Seg)
    requires Kept(x, q, s) && forall y :: y in q ==> y in big
    ensures Kept(x, big, s)
  {
    if x.pos == s.pos && x.data <= s.data && x.fin && x != s && ReachesFin(x, q) {
      var y :| y in q && y.fin && y.End() <= x.End();
      assert y in big;
    }
    if exists y :: y in q && x.pos == y.pos && x.data <= y.data {
      var y :| y in q && x.pos == y.pos && x.data <= y.data;
      assert y in big;
    }
  }

  lemma AlreadyKept(x: Seg, q: seq<Seg>, s: Seg)
    ensures x in q ==> Kept(x, q, s)
    ensures forall edge :: x == ClipTo(s, edge) ==> Kept(x, q, s)
  {
  }

  lemma PlaceKept(q: seq<Seg>, s: Seg, edge: int, x: Seg)
    requires Ordered(q) && s.Span() > 0 && s.pos < edge
    requires x in Place(q, s, edge)
    ensures Kept(x, q, s)
  {
    hide Merge, Ordered, Kept, TrimLast, Consed;
    var k := Below(q, s.pos);
    AlreadyKept(x, q, s);
    OrderedSlice(q, 0, k);
    OrderedSlice(q, k, |q|);
    if k < |q| && q[k].pos == s.pos {
      if |s.data| > |q[k].data| && x !in q[..k] {
        MergeKept(s, q[k..], x);
        KeptMonotone(x, q[k..], q, s);
      }
    } else if k == |q| > 0 {
      if !q[k - 1].fin && x in TrimLast(q, s.pos) {
        TrimLastFacts(q, s.pos);
        TrimLastKept(q, s.pos, s, x);
      }
    } else if x in TrimLast(q[..k], s.pos) {
      if k < |q| {
        BeforeApart(q, k);
      }
      TrimLastFacts(q[..k], s.pos);
      TrimLastKept(q[..k], s.pos, s, x);
      KeptMonotone(x, q[..k], q, s);
    } else {
      MergeKept(s, q[k..], x);
      KeptMonotone(x, q[k..], q, s);
    }
  }

  // ----- delivery --------------------------------------------------------------

  /** Delivery takes a prefix of the queue and stops below the next segment. */
  lemma {:induction false} DrainFacts(d: Drained)
    requires Ordered(d.rest)
    requires d.rest != [] ==> d.nxt <= d.rest[0].pos
    ensures Suffix(Drain(d).rest, d.rest)
    ensures Drain(d).nxt >= d.nxt
    ensures Drain(d).rest != [] ==> Drain(d).nxt < Drain(d).rest[0].pos
    decreases |d.rest|
  {
    if d.rest != [] && d.rest[0].pos == d.nxt {
      var x := d.rest[0];
      OrderedSlice(d.rest, 1, |d.rest|);
      if |d.rest| > 1 {
        assert Apart(x, d.rest[1]);
      }
      DrainFacts(Drained(x.Top(), d.bytes + x.data, d.fin || x.fin, d.rest[1..]));
    }
  }
}
