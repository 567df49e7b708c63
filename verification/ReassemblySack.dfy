/** Soundness of the SACK list (section 4 of RFC 2018): with a sender that cuts its
    segments from one stream and no allocation failure, every byte reported as
    received is held in the out-of-order queue, blocks do not overlap, and the
    newest block comes first. */
module ReassemblySack {
  import opened Seq32
  import opened Reassembly
  import opened ReassemblyQueue
  import opened ReassemblyRuns
  import opened ReassemblyStream

  predicate In(p: int, x: Seg) { x.pos <= p < x.End() }

  ghost predicate Holds(q: seq<Seg>, p: int) { exists i :: 0 <= i < |q| && In(p, q[i]) }

  ghost predicate Starts(q: seq<Seg>, p: int) { exists i :: 0 <= i < |q| && q[i].pos == p }

  /** e starts with a queued segment and every byte of it is queued. */
  ghost predicate Held(q: seq<Seg>, e: Range)
  {
    && e.left < e.right
    && Starts(q, e.left)
    && (forall p :: e.left <= p < e.right ==> Holds(q, p))
  }

  predicate Disjoint(a: Range, b: Range) { a.right <= b.left || b.right <= a.left }

  ghost predicate PairwiseDisjoint(ss: seq<Range>)
  {
    forall i, j {:trigger Disjoint(ss[i], ss[j])} :: 0 <= i < j < |ss| ==> Disjoint(ss[i], ss[j])
  }

  ghost predicate SackSound(r: Rcv)
  {
    PairwiseDisjoint(r.sacks) && forall e :: e in r.sacks ==> Held(r.q, e)
  }

  // ----- contiguous runs -----------------------------------------------------------

  lemma {:induction false} RunRightHeld(q: seq<Seg>, k: nat, p: int)
    requires Ordered(q) && k < |q| && q[k].pos <= p < RunRight(q, k)
    ensures Holds(q, p)
    decreases |q| - k
  {
    if p < q[k].End() {
      assert In(p, q[k]);
    } else {
      RunRightHeld(q, k + 1, p);
    }
  }

  lemma {:induction false} RunLeftHeld(q: seq<Seg>, k: nat, p: int)
    requires k < |q| && RunLeft(q, k) <= p < q[k].pos
    ensures Holds(q, p)
  {
    if p >= q[k - 1].pos {
      assert In(p, q[k - 1]);
    } else {
      RunLeftHeld(q, k - 1, p);
    }
  }

  lemma {:induction false} RunLeftStarts(q: seq<Seg>, k: nat)
    requires k < |q|
    ensures Starts(q, RunLeft(q, k))
  {
    RunLeftBound(q, k);
    var j :| 0 <= j <= k && RunLeft(q, k) == q[j].pos;
  }

  lemma {:induction false} RunSpans(q: seq<Seg>, k: nat)
    requires k < |q|
    ensures RunLeft(q, k) <= q[k].pos && q[k].End() <= RunRight(q, k)
  {
    RunLeftBelow(q, k);
    RunRightAbove(q, k);
  }

  lemma {:induction false} RunLeftBelow(q: seq<Seg>, k: nat)
    requires k < |q|
    ensures RunLeft(q, k) <= q[k].pos
  {
    if k > 0 && q[k - 1].End() == q[k].pos {
      RunLeftBelow(q, k - 1);
    }
  }

  lemma {:induction false} RunRightAbove(q: seq<Seg>, k: nat)
    requires k < |q|
    ensures q[k].End() <= RunRight(q, k)
    decreases |q| - k
  {
    if k + 1 < |q| && q[k + 1].pos == q[k].End() {
      RunRightAbove(q, k + 1);
    }
  }

  lemma RunHeld(q: seq<Seg>, k: nat)
    requires Ordered(q) && k < |q| && RunLeft(q, k) < RunRight(q, k)
    ensures Held(q, Range(RunLeft(q, k), RunRight(q, k)))
  {
    RunLeftStarts(q, k);
    forall p | RunLeft(q, k) <= p < RunRight(q, k) ensures Holds(q, p) {
      if p < q[k].pos {
        RunLeftHeld(q, k, p);
      } else {
        RunRightHeld(q, k, p);
      }
    }
  }

  /** The reported block is the largest contiguous one: no queued byte touches it. */
  lemma {:induction false} RunRightMaximal(q: seq<Seg>, k: nat)
    requires Ordered(q) && k < |q|
    ensures !Holds(q, RunRight(q, k))
    decreases |q| - k
  {
    if k + 1 < |q| && q[k + 1].pos == q[k].End() {
      RunRightMaximal(q, k + 1);
    } else {
      var p := q[k].End();
      forall i | 0 <= i < |q| ensures !In(p, q[i]) {
        if i < k {
          assert Apart(q[i], q[k]);
        } else if i > k {
          assert Apart(q[k], q[k + 1]);
          if i > k + 1 {
            assert Apart(q[k + 1], q[i]);
          }
        }
      }
    }
  }

  lemma {:induction false} RunLeftMaximal(q: seq<Seg>, k: nat)
    requires Ordered(q) && k < |q|
    ensures !Holds(q, RunLeft(q, k) - 1)
  {
    if k > 0 && q[k - 1].End() == q[k].pos {
      RunLeftMaximal(q, k - 1);
    } else {
      var p := q[k].pos - 1;
      forall i | 0 <= i < |q| ensures !In(p, q[i]) {
        if i > k {
          assert Apart(q[k], q[i]);
        } else if i < k {
          assert Apart(q[k - 1], q[k]);
          if i < k - 1 {
            assert Apart(q[i], q[k - 1]);
          }
        }
      }
    }
  }

  // ----- what survives a queue insertion ---------------------------------------------

  /** q1 is q with segments k..m replaced by t, which starts at s.pos, and the
      segments before cut at s.pos. */
  ghost predicate Shape(q: seq<Seg>, q1: seq<Seg>, p: int, k: nat, m: nat, t: Seg)
  {
    && k <= m <= |q|
    && |q1| == k + 1 + (|q| - m)
    && q1[k] == t && t.pos == p
    && (forall i :: 0 <= i < k ==> q1[i].pos == q[i].pos < p && q1[i].End() == Min(q[i].End(), p))
    && (forall i :: k <= i < m ==> p <= q[i].pos && q[i].End() <= t.End())
    && (forall i :: m <= i < |q| ==> q1[k + 1 + (i - m)] == q[i])
  }

  lemma Survives(q: seq<Seg>, q1: seq<Seg>, p: int, k: nat, m: nat, t: Seg, e: Range, x: int)
    requires Ordered(q) && Shape(q, q1, p, k, m, t) && Held(q, e) && e.left <= x < e.right
    requires Disjoint(e, Range(t.pos, t.End())) || t.data == []
    requires t.data == [] && k > 0 ==> q[k - 1].End() <= p
    ensures Holds(q1, x)
  {
    assert Holds(q, x);
    var i :| 0 <= i < |q| && In(x, q[i]);
    if i >= m {
      assert In(x, q1[k + 1 + (i - m)]);
    } else if i < k {
      var j :| 0 <= j < |q| && q[j].pos == e.left;
      assert i < j ==> Apart(q[i], q[j]);
      assert j < i ==> Apart(q[j], q[i]);
      assert i < k - 1 ==> Apart(q[i], q[k - 1]);
      assert q1[i].pos == q[i].pos < p;
      assert x < p;
      assert In(x, q1[i]);
    }
  }

  lemma StartSurvives(q: seq<Seg>, q1: seq<Seg>, p: int, k: nat, m: nat, t: Seg, e: Range)
    requires Ordered(q) && Shape(q, q1, p, k, m, t) && Held(q, e)
    requires Disjoint(e, Range(t.pos, t.End())) || t.data == []
    ensures Starts(q1, e.left)
  {
    assert Holds(q, e.left);
    var i :| 0 <= i < |q| && In(e.left, q[i]);
    var j :| 0 <= j < |q| && q[j].pos == e.left;
    assert j < i ==> Apart(q[j], q[i]);
    assert i < j ==> Apart(q[i], q[j]);
    if j < k {
      assert q1[j].pos == e.left;
    } else {
      assert j >= m;
      assert q1[k + 1 + (j - m)].pos == e.left;
    }
  }

  lemma HeldSurvives(q: seq<Seg>, q1: seq<Seg>, p: int, k: nat, m: nat, t: Seg, e: Range)
    requires Ordered(q) && Shape(q, q1, p, k, m, t) && Held(q, e)
    requires Disjoint(e, Range(t.pos, t.End())) || t.data == []
    requires t.data == [] && k > 0 ==> q[k - 1].End() <= p
    ensures Held(q1, e)
  {
    StartSurvives(q, q1, p, k, m, t, e);
    forall x | e.left <= x < e.right ensures Holds(q1, x) {
      Survives(q, q1, p, k, m, t, e, x);
    }
  }

  /** Merging s with the tail of the queue drops only what s covers. */
  lemma MergeShape(tail: seq<Seg>, s: Seg, st: Stream) returns (n: nat)
    requires Ordered(tail) && Fits(s, tail) && CutFrom(s, st)
    requires forall x :: x in tail ==> CutFrom(x, st)
    ensures n <= |tail| && Merge(s, tail).1 == tail[n..]
    ensures Merge(s, tail).0.pos == s.pos
    ensures forall i :: 0 <= i < n ==> s.pos <= tail[i].pos && tail[i].End() <= Merge(s, tail).0.End()
    ensures Merge(s, tail).0.data == [] ==> s.pos == st.eof
  {
    MergeFacts(s, tail);
    var (t, rest) := Merge(s, tail);
    n := |tail| - |rest|;
    if s.fin {
      forall i | 0 <= i < n ensures tail[i].End() <= t.End() {
        assert tail[i] in tail;
      }
    }
    forall i | 0 <= i < n ensures s.pos <= tail[i].pos {
      if i > 0 {
        assert Apart(tail[0], tail[i]);
      }
    }
    if t.data == [] {
      assert Consed(Merge(s, tail))[0] == t;
      MergeKept(s, tail, t);
      if tail != [] {
        assert tail[|tail| - 1] in tail && tail[0] in tail;
      }
    }
  }

  lemma SpliceShape(q: seq<Seg>, front: seq<Seg>, s: Seg, k: nat, n: nat)
    requires k + n <= |q| && |front| == k
    requires forall i :: 0 <= i < k ==> front[i].pos == q[i].pos < s.pos && front[i].End() == Min(q[i].End(), s.pos)
    requires Merge(s, q[k..]).1 == q[k..][n..] && Merge(s, q[k..]).0.pos == s.pos
    requires forall i :: 0 <= i < n ==>
               s.pos <= q[k..][i].pos && q[k..][i].End() <= Merge(s, q[k..]).0.End()
    ensures Shape(q, front + Consed(Merge(s, q[k..])), s.pos, k, k + n, Merge(s, q[k..]).0)
  {
    var m := Merge(s, q[k..]);
    var q1 := front + Consed(m);
    assert forall i :: k <= i < k + n ==> q[i] == q[k..][i - k];
    forall i | k + n <= i < |q| ensures q1[k + 1 + (i - (k + n))] == q[i] {
      assert m.1[i - k - n] == q[k..][i - k] == q[i];
    }
  }

  lemma PlaceSameShape(q: seq<Seg>, s: Seg, k: nat, st: Stream) returns (m: nat, t: Seg)
    requires Ordered(q) && k < |q| && q[k].pos == s.pos && |s.data| > |q[k].data| && CutFrom(s, st)
    requires forall x :: x in q ==> CutFrom(x, st)
    requires forall i :: 0 <= i < k ==> q[i].pos < s.pos
    ensures Shape(q, q[..k] + Consed(Merge(s, q[k..])), s.pos, k, m, t)
    ensures t.data == [] ==> s.pos == st.eof
  {
    OrderedSlice(q, k, |q|);
    var n := MergeShape(q[k..], s, st);
    m, t := k + n, Merge(s, q[k..]).0;
    BeforeApart(q, k);
    SpliceShape(q, q[..k], s, k, n);
  }

  lemma PlaceInnerShape(q: seq<Seg>, s: Seg, k: nat, st: Stream) returns (m: nat, t: Seg)
    requires Ordered(q) && k < |q| && s.pos < q[k].pos && s.Span() > 0 && CutFrom(s, st)
    requires forall x :: x in q ==> CutFrom(x, st)
    requires forall i :: 0 <= i < k ==> q[i].pos < s.pos
    ensures Shape(q, TrimLast(q[..k], s.pos) + Consed(Merge(s, q[k..])), s.pos, k, m, t)
    ensures t.data == [] ==> s.pos == st.eof
  {
    OrderedSlice(q, k, |q|);
    var n := MergeShape(q[k..], s, st);
    m, t := k + n, Merge(s, q[k..]).0;
    InnerFrontShape(q, k, s.pos);
    SpliceShape(q, TrimLast(q[..k], s.pos), s, k, n);
  }

  lemma InnerFrontShape(q: seq<Seg>, k: nat, p: int)
    requires Ordered(q) && k < |q|
    requires forall i :: 0 <= i < k ==> q[i].pos < p
    ensures var f := TrimLast(q[..k], p);
            |f| == k && forall i :: 0 <= i < k ==> f[i].pos == q[i].pos < p && f[i].End() == Min(q[i].End(), p)
  {
    OrderedSlice(q, 0, k);
    BeforeApart(q, k);
    TrimLastFacts(q[..k], p);
    FrontShape(q, k, p);
  }

  /** Inserting an honest segment either leaves the queue alone or has this shape. */
  lemma PlaceShape(q: seq<Seg>, s: Seg, edge: int, st: Stream) returns (m: nat, t: Seg)
    requires Ordered(q) && q != [] && s.Span() > 0 && s.pos < edge && s.Top() <= edge && CutFrom(s, st)
    requires forall x :: x in q ==> CutFrom(x, st)
    ensures Place(q, s, edge) == q || Shape(q, Place(q, s, edge), s.pos, Below(q, s.pos), m, t)
    ensures Place(q, s, edge) == q ==>
              var k := Below(q, s.pos); if k < |q| then q[k].pos == s.pos else q[k - 1].fin
    ensures t.data == [] ==> s.pos == st.eof
  {
    var k := Below(q, s.pos);
    if k < |q| && q[k].pos == s.pos && |s.data| > |q[k].data| {
      m, t := PlaceSameShape(q, s, k, st);
    } else if k < |q| && q[k].pos > s.pos {
      m, t := PlaceInnerShape(q, s, k, st);
      assert Place(q, s, edge)[k] == t;
    } else {
      m, t := |q|, s;
      if k == |q| && !q[k - 1].fin {
        TrimLastFacts(q, s.pos);
        TailShape(q, s);
        assert |Place(q, s, edge)| == |q| + 1;
      }
    }
  }

  lemma FrontShape(q: seq<Seg>, k: nat, p: int)
    requires Ordered(q) && k <= |q|
    requires Trimmed(q[..k], TrimLast(q[..k], p), p)
    requires forall i :: 0 <= i < k ==> q[i].pos < p
    ensures var f := TrimLast(q[..k], p);
            |f| == k && forall i :: 0 <= i < k ==> f[i].pos == q[i].pos < p && f[i].End() == Min(q[i].End(), p)
  {
    var f := TrimLast(q[..k], p);
    forall i | 0 <= i < k ensures f[i].pos == q[i].pos < p && f[i].End() == Min(q[i].End(), p) {
      assert q[..k][i] == q[i];
      if i < k - 1 {
        assert Apart(q[i], q[k - 1]);
      }
    }
  }

  lemma TailShape(q: seq<Seg>, s: Seg)
    requires Ordered(q) && q != [] && Trimmed(q, TrimLast(q, s.pos), s.pos)
    requires forall i :: 0 <= i < |q| ==> q[i].pos < s.pos
    ensures Shape(q, TrimLast(q, s.pos) + [s], s.pos, |q|, |q|, s)
  {
    assert q[..|q|] == q;
    FrontShape(q, |q|, s.pos);
  }

  // ----- the SACK list after each step -------------------------------------------------

  lemma {:induction false} KeepApartDisjoint(ss: seq<Range>, l: int, r: int)
    requires PairwiseDisjoint(ss)
    ensures PairwiseDisjoint(KeepApart(ss, l, r))
    ensures forall e :: e in KeepApart(ss, l, r) ==> e in ss && Disjoint(e, Range(l, r))
  {
    if ss != [] {
      var tl := ss[1..];
      forall i, j | 0 <= i < j < |tl| ensures Disjoint(tl[i], tl[j]) {
        assert Disjoint(ss[i + 1], ss[j + 1]);
      }
      KeepApartDisjoint(tl, l, r);
      var t := KeepApart(tl, l, r);
      forall e | e in t ensures Disjoint(ss[0], e) {
        var j :| 0 <= j < |tl| && tl[j] == e;
        assert Disjoint(ss[0], ss[j + 1]);
      }
      ConsDisjoint(ss[0], t);
    }
  }

  lemma ConsDisjoint(h: Range, t: seq<Range>)
    requires PairwiseDisjoint(t) && forall e :: e in t ==> Disjoint(h, e)
    ensures PairwiseDisjoint([h] + t)
  {
    var u := [h] + t;
    forall i, j | 0 <= i < j < |u| ensures Disjoint(u[i], u[j]) {
      if i == 0 {
        assert u[j] == t[j - 1] && t[j - 1] in t;
      } else {
        assert Disjoint(t[i - 1], t[j - 1]);
      }
    }
  }

  lemma AddSackDisjoint(ss: seq<Range>, l: int, r: int)
    requires PairwiseDisjoint(ss)
    ensures PairwiseDisjoint(AddSack(ss, l, r))
  {
    if l < r {
      KeepApartDisjoint(ss, l, r);
      var kept := KeepApart(ss, l, r);
      var t := kept[..Clamp(MAX_SACK - 1, |kept|)];
      forall i, j | 0 <= i < j < |t| ensures Disjoint(t[i], t[j]) {
        assert Disjoint(kept[i], kept[j]);
      }
      forall e | e in t ensures Disjoint(Range(l, r), e) {
        assert e in kept;
      }
      ConsDisjoint(Range(l, r), t);
    }
  }

  lemma {:induction false} RemoveLtDisjoint(ss: seq<Range>, p: int)
    requires PairwiseDisjoint(ss)
    ensures PairwiseDisjoint(RemoveLt(ss, p))
  {
    if ss != [] {
      var tl := ss[1..];
      forall i, j | 0 <= i < j < |tl| ensures Disjoint(tl[i], tl[j]) {
        assert Disjoint(ss[i + 1], ss[j + 1]);
      }
      RemoveLtDisjoint(tl, p);
      var t := RemoveLt(tl, p);
      var h := Cut(ss[0], p);
      forall e | e in t ensures Disjoint(h, e) {
        RemoveLtMember(tl, p, e);
        var f :| f in tl && f.right > p && e == Cut(f, p);
        var j :| 0 <= j < |tl| && tl[j] == f;
        assert Disjoint(ss[0], ss[j + 1]);
      }
      ConsDisjoint(h, t);
    }
  }

  lemma FirstSackSound(r: Rcv, s: Seg)
    requires r.q == [] && s.Span() > 0
    ensures SackSound(Enqueue(r, s, true, true))
  {
    var r1 := Enqueue(r, s, true, true);
    if s.data != [] {
      assert r1.q[0] == s && Starts(r1.q, s.pos);
      forall p | s.pos <= p < s.End() ensures Holds(r1.q, p) {
        assert In(p, r1.q[0]);
      }
    }
  }

  /** The blocks after a queue insertion of the given shape. */
  lemma ShapedSackSound(q: seq<Seg>, q1: seq<Seg>, ss: seq<Range>, s: Seg, k: nat, m: nat, t: Seg)
    requires Ordered(q) && Ordered(q1) && k < |q1| && q1[k].pos == s.pos
    requires q1 == q || Shape(q, q1, s.pos, k, m, t)
    requires t.data == [] && k > 0 ==> q[k - 1].End() <= s.pos
    requires PairwiseDisjoint(ss) && forall e :: e in ss ==> Held(q, e)
    ensures var ss1 := AddSack(ss, RunLeft(q1, k), RunRight(q1, k));
            PairwiseDisjoint(ss1) && forall e :: e in ss1 ==> Held(q1, e)
  {
    hide Held, Ordered, PairwiseDisjoint;
    RunSpans(q1, k);
    var l, rt := RunLeft(q1, k), RunRight(q1, k);
    AddSackDisjoint(ss, l, rt);
    forall e | e in AddSack(ss, l, rt) ensures Held(q1, e) {
      AddSackMember(ss, l, rt, e);
      if e == Range(l, rt) && l < rt {
        RunHeld(q1, k);
      } else if q1 != q {
        HeldSurvives(q, q1, s.pos, k, m, t, e);
      }
    }
  }

  lemma EnqueueSackSound(r: Rcv, s: Seg, st: Stream)
    requires Inv(r) && Sound(r, st) && SackSound(r) && r.q != []
    requires r.nxt < s.pos < r.nxt + r.wnd && s.Span() > 0 && CutFrom(s, st) && s.Top() <= r.nxt + r.wnd
    ensures SackSound(Enqueue(r, s, true, true))
  {
    hide Place, SackAfter, Held, Ordered, PairwiseDisjoint;
    PlacedSackSound(r.q, r.sacks, s, r.nxt + r.wnd, st);
  }

  lemma PlacedSackSound(q: seq<Seg>, ss: seq<Range>, s: Seg, edge: int, st: Stream)
    requires Ordered(q) && q != [] && s.Span() > 0 && s.pos < edge && s.Top() <= edge && CutFrom(s, st)
    requires forall x :: x in q ==> CutFrom(x, st)
    requires PairwiseDisjoint(ss) && forall e :: e in ss ==> Held(q, e)
    ensures var q1 := Place(q, s, edge); var ss1 := SackAfter(ss, q, q1, s.pos);
            PairwiseDisjoint(ss1) && forall e :: e in ss1 ==> Held(q1, e)
  {
    hide Place, Held, Ordered, PairwiseDisjoint, RunRight, AddSack;
    var q1, k := Place(q, s, edge), Below(q, s.pos);
    PlaceOrdered(q, s, edge);
    var m, t := PlaceShape(q, s, edge, st);
    assert k > 0 ==> q[k - 1] in q;
    if k < |q1| {
      assert q1[k].pos == s.pos;
      assert t.data == [] && k > 0 ==> q[k - 1].End() <= s.pos;
      ShapedSackSound(q, q1, ss, s, k, m, t);
      hide Shape;
    }
  }

  lemma SuffixHeld(q: seq<Seg>, n: nat, f: Range)
    requires Ordered(q) && n < |q| && Held(q, f) && f.right > q[n].pos
    ensures Held(q[n..], Cut(f, q[n].pos))
  {
    var e := Cut(f, q[n].pos);
    var q1 := q[n..];
    if f.left < q[n].pos {
      assert q1[0].pos == e.left;
    } else {
      var j :| 0 <= j < |q| && q[j].pos == f.left;
      assert j < n ==> Apart(q[j], q[n]);
      assert q1[j - n].pos == e.left;
    }
    forall p | e.left <= p < e.right ensures Holds(q1, p) {
      assert Holds(q, p);
      var i :| 0 <= i < |q| && In(p, q[i]);
      assert i < n ==> Apart(q[i], q[n]);
      assert In(p, q1[i - n]);
    }
  }

  lemma AcceptSackSound(r: Rcv, s: Seg, c: Conf)
    requires Inv(r) && SackSound(r) && c.sackOn
    requires s.pos == r.nxt && s.Span() > 0 && r.wnd > 0
    ensures var o := Accept(r, s, c.sackOn, c.mss); o.Stepped? ==> SackSound(o.r)
  {
    hide Merge, Drain, AnnWnd, ClipTo, Held;
    var o := Accept(r, s, c.sackOn, c.mss);
    if o.Stepped? && o.r.q != [] {
      DeliveryFacts(r, s);
      SuffixSlice(o.r.q, r.q);
      var n := |r.q| - |o.r.q|;
      RemoveLtDisjoint(r.sacks, r.q[n].pos);
      forall e | e in o.r.sacks ensures Held(o.r.q, e) {
        RemoveLtMember(r.sacks, r.q[n].pos, e);
        var f :| f in r.sacks && f.right > r.q[n].pos && e == Cut(f, r.q[n].pos);
        SuffixHeld(r.q, n, f);
      }
    }
  }

  ghost predicate NoAllocFailure(es: seq<Event>)
  {
    forall e :: e in es && e.Arrival? ==> e.copyOk
  }

  lemma StepSackSound(r: Rcv, e: Event, c: Conf, st: Stream)
    requires Inv(r) && Sound(r, st) && SackSound(r) && Honest(r, e, st)
    requires c.sackOn && (e.Arrival? ==> e.copyOk)
    ensures Step(r, e, c).Stepped? && SackSound(Step(r, e, c).r)
  {
    StepSound(r, e, c, st);
    if e.Arrival? && e.seg.Span() > 0 && !r.closed {
      var s := TrimHead(e.seg, r.nxt);
      TrimHeadCut(e.seg, r.nxt, st);
      if r.nxt <= s.pos < r.nxt + r.wnd {
        if s.pos == r.nxt {
          AcceptSackSound(r, s, c);
        } else {
          if r.q == [] {
            FirstSackSound(r, s);
          } else {
            EnqueueSackSound(r, s, st);
          }
        }
      }
    }
  }

  /** Over every honest run without allocation failure, the SACK list is sound. */
  lemma {:induction false} RunSackSound(r: Rcv, es: seq<Event>, c: Conf, st: Stream)
    requires Inv(r) && Sound(r, st) && SackSound(r) && HonestRun(r, es, c, st)
    requires c.sackOn && NoAllocFailure(es)
    ensures var o := Run(r, es, c); o.Stepped? && SackSound(o.r) && |o.r.sacks| <= MAX_SACK
    decreases |es|
  {
    if es != [] {
      assert es[0] in es;
      StepSound(r, es[0], c, st);
      StepKeeps(r, es[0], c);
      StepSackSound(r, es[0], c, st);
      RunSackSound(Step(r, es[0], c).r, es[1..], c, st);
    }
  }

  /** A queued segment that hides in a longer one carrying the FIN is not reported. */
  predicate Swallowed(q: seq<Seg>, s: Seg)
  {
    q != [] && q[|q| - 1].fin && q[|q| - 1].pos < s.pos
  }

  /** e is the largest contiguous block of queued bytes around p. */
  ghost predicate LargestBlock(q: seq<Seg>, e: Range, p: int)
  {
    && e.left <= p < e.right
    && Held(q, e) && !Holds(q, e.left - 1) && !Holds(q, e.right)
  }

  lemma RunIsLargest(q: seq<Seg>, k: nat)
    requires Ordered(q) && k < |q| && q[k].data != []
    ensures RunLeft(q, k) < RunRight(q, k)
    ensures LargestBlock(q, Range(RunLeft(q, k), RunRight(q, k)), q[k].pos)
  {
    RunSpans(q, k);
    RunHeld(q, k);
    RunLeftMaximal(q, k);
    RunRightMaximal(q, k);
  }

  lemma PlacedBlock(q: seq<Seg>, ss: seq<Range>, s: Seg, edge: int, st: Stream)
    requires Ordered(q) && q != [] && s.pos < edge && s.data != [] && CutFrom(s, st) && s.Top() <= edge
    requires forall x :: x in q ==> CutFrom(x, st)
    requires !Swallowed(q, s)
    ensures var q1 := Place(q, s, edge); var ss1 := SackAfter(ss, q, q1, s.pos);
            ss1 != [] && LargestBlock(q1, ss1[0], s.pos)
  {
    var q1 := Place(q, s, edge);
    PlaceOrdered(q, s, edge);
    var k := Below(q, s.pos);
    var m, t := PlaceShape(q, s, edge, st);
    assert k < |q1| && q1[k].pos == s.pos;
    DataAt(q, q1, s, k, m, t, st);
    RunIsLargest(q1, k);
    assert SackAfter(ss, q, q1, s.pos) == AddSack(ss, RunLeft(q1, k), RunRight(q1, k));
  }

  lemma FirstBlock(s: Seg)
    requires s.data != []
    ensures LargestBlock([s], Range(s.pos, s.End()), s.pos)
  {
    RunIsLargest([s], 0);
  }

  lemma SwallowedIgnored(q: seq<Seg>, s: Seg, edge: int)
    requires Ordered(q) && Swallowed(q, s)
    ensures Below(q, s.pos) == |q| && Place(q, s, edge) == q
  {
    AllBelow(q, s.pos);
  }

  lemma AllBelow(q: seq<Seg>, p: int)
    requires Ordered(q) && q != [] && q[|q| - 1].pos < p
    ensures Below(q, p) == |q|
  {
    var k := Below(q, p);
    assert k < |q| - 1 ==> Apart(q[k], q[|q| - 1]);
  }

  /** The contiguous block at the end of the queue. */
  function LastBlock(q: seq<Seg>): Range
    requires q != []
  {
    Range(RunLeft(q, |q| - 1), q[|q| - 1].End())
  }

  /** The first entry reports the block around the segment that was queued. */
  ghost predicate NewestReported(r: Rcv, p: int)
  {
    r.sacks != [] && LargestBlock(r.q, r.sacks[0], p)
  }

  /** After queueing data, the first block is the largest contiguous block around the
      segment that was queued if and only if the segment does not lie behind the start
      of the queued segment that carries the FIN, or the first block reports the end of
      the queue already. */
  lemma NewestFirst(r: Rcv, s: Seg, st: Stream)
    requires Inv(r) && Sound(r, st)
    requires r.nxt < s.pos < r.nxt + r.wnd && s.data != [] && CutFrom(s, st) && s.Top() <= r.nxt + r.wnd
    ensures var r1 := Enqueue(r, s, true, true);
            && (NewestReported(r1, s.pos) <==>
                  !Swallowed(r.q, s) || (r.sacks != [] && r.sacks[0] == LastBlock(r.q)))
            && (Swallowed(r.q, s) ==> r1 == r)
  {
    if r.q == [] {
      FirstBlock(s);
    } else if Swallowed(r.q, s) {
      SwallowedIgnored(r.q, s, r.nxt + r.wnd);
      SwallowedBlock(r.q, s, st);
      hide LargestBlock, Swallowed;
    } else {
      PlacedBlock(r.q, r.sacks, s, r.nxt + r.wnd, st);
    }
  }

  /** The block around a swallowed segment is the one at the end of the queue. */
  lemma SwallowedBlock(q: seq<Seg>, s: Seg, st: Stream)
    requires Ordered(q) && Swallowed(q, s) && CutFrom(s, st) && s.data != [] && CutFrom(q[|q| - 1], st)
    ensures forall e :: LargestBlock(q, e, s.pos) <==> e == LastBlock(q)
  {
    var k := |q| - 1;
    RunIsLargest(q, k);
    assert LargestBlock(q, LastBlock(q), s.pos);
    forall e | LargestBlock(q, e, s.pos) ensures e == LastBlock(q) {
      BlockUnique(q, e, LastBlock(q), s.pos);
    }
  }

  lemma BlockUnique(q: seq<Seg>, e: Range, f: Range, p: int)
    requires LargestBlock(q, e, p) && LargestBlock(q, f, p)
    ensures e == f
  {
    hide Holds;
    assert e.left < f.left ==> Holds(q, f.left - 1);
    assert f.left < e.left ==> Holds(q, e.left - 1);
    assert e.right < f.right ==> Holds(q, e.right);
    assert f.right < e.right ==> Holds(q, f.right);
  }

  /** n bytes of the stream from p on. */
  function CutOut(st: Stream, p: int, n: nat): seq<byte> { seq<byte>(n, i => st.byteAt(p + i)) }

  /** A new connection on the stream. */
  function Fresh(st: Stream): Rcv { Rcv(st.org, TCP_WND, TCP_WND, st.org, [], [], [], false) }

  /** The last two bytes arrive with the FIN, then two bytes near the start, then the last
      byte once more. */
  function Overtaking(st: Stream): seq<Event>
  {
    [Arrival(Seg(st.eof - 2, CutOut(st, st.eof - 2, 2), true), true),
     Arrival(Seg(st.org + 4, CutOut(st, st.org + 4, 2), false), true)]
  }

  /** On every stream of at least eleven bytes that fits the window, a run from a new
      connection after which the newest segment is not in the first block. */
  lemma NewestMissed(st: Stream)
    requires 11 <= st.eof - st.org < TCP_WND
    ensures var c := Conf(true, 1460); var s := Seg(st.eof - 1, CutOut(st, st.eof - 1, 1), false);
            var es := Overtaking(st) + [Arrival(s, true)]; var o := Run(Fresh(st), es, c);
            && HonestRun(Fresh(st), es, c, st) && NoAllocFailure(es)
            && o.Stepped? && !NewestReported(o.r, s.pos)
  {
    var c := Conf(true, 1460);
    var a, b := Seg(st.eof - 2, CutOut(st, st.eof - 2, 2), true), Seg(st.org + 4, CutOut(st, st.org + 4, 2), false);
    var s := Seg(st.eof - 1, CutOut(st, st.eof - 1, 1), false);
    var r1 := Fresh(st).(q := [a], sacks := [Range(a.pos, a.End())]);
    var r2 := Fresh(st).(q := [b, a], sacks := [Range(b.pos, b.End()), Range(a.pos, a.End())]);
    Cuts(st, st.eof - 2, 2, true);
    Cuts(st, st.org + 4, 2, false);
    Cuts(st, st.eof - 1, 1, false);
    hide Enqueue, NewestReported, CutOut, CutFrom, Step, Honest, Run, HonestRun;
    Queues(Fresh(st), a, c, st);
    QueuedFirst(Fresh(st), a);
    PutInFront(a, b, r1);
    Queues(r1, b, c, st);
    KeptBehind(a, b, s, r2);
    Queues(r2, s, c, st);
    NotThere(r2, s.pos);
    ThreeSteps(Fresh(st), Arrival(a, true), r1, Arrival(b, true), r2, Arrival(s, true), r2, c, st);
  }

  lemma Cuts(st: Stream, p: int, n: nat, fin: bool)
    requires p + n <= st.eof && (fin ==> p + n == st.eof)
    ensures |CutOut(st, p, n)| == n && CutFrom(Seg(p, CutOut(st, p, n), fin), st)
  {
  }

  lemma Queues(r: Rcv, s: Seg, c: Conf, st: Stream)
    requires !r.closed && r.nxt < s.pos < r.nxt + r.wnd && 0 < |s.data| < 0xffff && c.sackOn
    requires CutFrom(s, st) && s.Top() <= r.nxt + r.wnd
    ensures Step(r, Arrival(s, true), c) == Stepped(Enqueue(r, s, true, true)) && Honest(r, Arrival(s, true), st)
  {
    hide Enqueue, CutFrom;
  }

  lemma QueuedFirst(r: Rcv, s: Seg)
    requires r.q == [] && s.data != []
    ensures Enqueue(r, s, true, true) == r.(q := [s], sacks := [Range(s.pos, s.End())])
  {
  }

  lemma NotThere(r: Rcv, p: int)
    requires r.sacks != [] && r.sacks[0].right <= p
    ensures !NewestReported(r, p)
  {
  }

  lemma PutInFront(a: Seg, b: Seg, r: Rcv)
    requires r.q == [a] && r.sacks == [Range(a.pos, a.End())] && b.End() < a.pos && b.data != [] && a.data != []
             && !b.fin
    ensures Enqueue(r, b, true, true) == r.(q := [b, a], sacks := [Range(b.pos, b.End()), Range(a.pos, a.End())])
  {
    assert Below([a], b.pos) == 0;
    assert Cover(b, [a]) == (b, [a]);
    assert [a][..0] == [] && [a][0..] == [a];
    assert Place([a], b, r.nxt + r.wnd) == [b, a];
    assert RunRight([b, a], 0) == b.End();
    assert KeepApart([Range(a.pos, a.End())], b.pos, b.End()) == [Range(a.pos, a.End())];
  }

  lemma KeptBehind(a: Seg, b: Seg, s: Seg, r: Rcv)
    requires r.q == [b, a] && a.fin && b.pos < a.pos < s.pos
    ensures Enqueue(r, s, true, true) == r
  {
    assert [b, a][1..] == [a] && [a][1..] == [];
    assert Below([a], s.pos) == 1 && Below([b, a], s.pos) == 2;
  }

  lemma ThreeSteps(r0: Rcv, e1: Event, r1: Rcv, e2: Event, r2: Rcv, e3: Event, r3: Rcv, c: Conf, st: Stream)
    requires Step(r0, e1, c) == Stepped(r1) && Step(r1, e2, c) == Stepped(r2) && Step(r2, e3, c) == Stepped(r3)
    requires Honest(r0, e1, st) && Honest(r1, e2, st) && Honest(r2, e3, st)
    ensures Run(r0, [e1, e2] + [e3], c) == Stepped(r3) && HonestRun(r0, [e1, e2] + [e3], c, st)
  {
    hide Step, Honest;
    var es := [e1, e2] + [e3];
    assert es[1..] == [e2, e3] && [e2, e3][1..] == [e3] && [e3][1..] == [];
    assert Run(r2, [e3], c) == Stepped(r3) && HonestRun(r2, [e3], c, st);
    assert Run(r1, [e2, e3], c) == Stepped(r3) && HonestRun(r1, [e2, e3], c, st);
  }

  lemma DataAt(q: seq<Seg>, q1: seq<Seg>, s: Seg, k: nat, m: nat, t: Seg, st: Stream)
    requires k < |q1| && q1[k].pos == s.pos && s.data != [] && CutFrom(s, st) && Ordered(q1)
    requires q1 == q || Shape(q, q1, s.pos, k, m, t)
    requires t.data == [] ==> s.pos == st.eof
    requires q1 == q ==> forall x :: x in q ==> CutFrom(x, st)
    ensures s.pos < q1[k].End()
  {
    if q1 == q {
      assert q1[k] in q;
    }
  }
}
