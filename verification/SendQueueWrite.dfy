/** tcp_write and tcp_send_fin: what they add to the send queues, and exactly when
    the queues still hold every sequence number once afterwards. */
module SendQueueWrite {
  import opened Seq32
  import opened SendQueue
  import opened SendQueueInv
  import opened SendQueueOps

  /** The last unsent segment is the newest one. */
  predicate TailNewest(s: Snd)
  {
    s.unsent != [] ==> s.unsent[|s.unsent| - 1].End() == s.lbb
  }

  // ----- phase 3: new segments ----------------------------------------------------------------

  function Within(x: int, lo: int, hi: int): nat { if lo <= x < hi then 1 else 0 }

  lemma {:induction false} BuildCount(s: Snd, a: Args, m: int, off: nat, b: Built, mem: nat, x: int)
    requires off <= |a.data| && m > 0 && Build(s, a, m, off, b, mem).Some?
    ensures var r := Build(s, a, m, off, b, mem).value;
            Count(r.queue, x) == Count(b.queue, x) + Within(x, s.lbb + off, s.lbb + |a.data|)
    decreases |a.data| - off
  {
    if off < |a.data| {
      var q := NewSeg(s, a, m, off, b.queue == []);
      CountConcat(b.queue, [q], x);
      One(q, x);
      BuildCount(s, a, m, off + |q.data|,
                 Built(b.queue + [q], b.queuelen + |q.pieces|, if a.copy then q.room else b.oversize),
                 mem - |q.pieces| - 1, x);
    }
  }

  lemma {:induction false} BuildSums(s: Snd, a: Args, m: int, off: nat, b: Built, mem: nat)
    requires off <= |a.data| && m > 0 && Build(s, a, m, off, b, mem).Some?
    ensures var r := Build(s, a, m, off, b, mem).value;
            && Bytes(r.queue) == Bytes(b.queue) + |a.data| - off
            && r.queuelen - b.queuelen == Bufs(r.queue) - Bufs(b.queue)
            && Fins(r.queue) == Fins(b.queue)
    decreases |a.data| - off
  {
    if off < |a.data| {
      var q := NewSeg(s, a, m, off, b.queue == []);
      SumsConcat(b.queue, [q]);
      One(q, 0);
      BuildSums(s, a, m, off + |q.data|,
                Built(b.queue + [q], b.queuelen + |q.pieces|, if a.copy then q.room else b.oversize),
                mem - |q.pieces| - 1);
    }
  }

  /** The new segments lie in order between lo and hi and hold what was written. */
  ghost predicate Laid(u: seq<Seg>, lo: int, hi: int, o: int, w: seq<byte>)
  {
    && Goods(u, true, o, w) && Sorted(u)
    && forall q :: q in u ==> lo <= q.pos && q.End() <= hi
  }

  lemma LaidMore(u: seq<Seg>, q: Seg, lo: int, hi: int, o: int, w: seq<byte>)
    requires Laid(u, lo, hi, o, w) && Good(q, true, o, w) && lo <= hi == q.pos
    ensures Laid(u + [q], lo, q.End(), o, w)
  {
    var v := u + [q];
    forall i, j | 0 <= i < j < |v| ensures Below(v[i], v[j]) {
      if j < |u| {
        assert Below(u[i], u[j]);
      } else {
        assert u[i] in u;
      }
    }
  }

  lemma NewSegGood(s: Snd, a: Args, m: int, off: nat, first: bool, o: int, w: seq<byte>)
    requires off < |a.data| && m > 0 && s.lbb == o + |w|
    ensures Good(NewSeg(s, a, m, off, first), true, o, w + a.data)
  {
    var q := NewSeg(s, a, m, off, first);
    var n: nat := |q.data|;
    assert Sum([n]) == n + Sum([n][1..]);
    assert Sum([0, n]) == 0 + Sum([0, n][1..]) && [0, n][1..] == [n];
  }

  lemma {:induction false} BuildLaid(s: Snd, a: Args, m: int, off: nat, b: Built, mem: nat, lo: int, o: int,
      w: seq<byte>)
    requires off <= |a.data| && m > 0 && Build(s, a, m, off, b, mem).Some?
    requires s.lbb == o + |w| && lo <= s.lbb + off && Laid(b.queue, lo, s.lbb + off, o, w + a.data)
    ensures Laid(Build(s, a, m, off, b, mem).value.queue, lo, s.lbb + |a.data|, o, w + a.data)
    decreases |a.data| - off
  {
    if off < |a.data| {
      var q := NewSeg(s, a, m, off, b.queue == []);
      NewSegGood(s, a, m, off, b.queue == [], o, w);
      hide Laid, Good;
      LaidMore(b.queue, q, lo, s.lbb + off, o, w + a.data);
      BuildLaid(s, a, m, off + |q.data|,
                Built(b.queue + [q], b.queuelen + |q.pieces|, if a.copy then q.room else b.oversize),
                mem - |q.pieces| - 1, lo, o, w);
    }
  }

  predicate LastHasRoom(u: seq<Seg>, room: int)
  {
    u != [] ==> room <= u[|u| - 1].room
  }

  lemma {:induction false} BuildRoom(s: Snd, a: Args, m: int, off: nat, b: Built, mem: nat)
    requires off <= |a.data| && m > 0 && Build(s, a, m, off, b, mem).Some?
    requires LastHasRoom(b.queue, b.oversize) && (!a.copy && off < |a.data| ==> b.oversize <= 0)
    ensures var r := Build(s, a, m, off, b, mem).value;
            && LastHasRoom(r.queue, r.oversize)
            && (off == |a.data| ==> r == b) && (off < |a.data| ==> r.queue != [])
    decreases |a.data| - off
  {
    if off < |a.data| {
      var q := NewSeg(s, a, m, off, b.queue == []);
      BuildRoom(s, a, m, off + |q.data|,
                Built(b.queue + [q], b.queuelen + |q.pieces|, if a.copy then q.room else b.oversize),
                mem - |q.pieces| - 1);
    }
  }

  /** Every new segment but the last has the largest size allowed. */
  lemma {:induction false} BuildSizes(s: Snd, a: Args, m: int, off: nat, b: Built, mem: nat)
    requires off <= |a.data| && m > 0 && Build(s, a, m, off, b, mem).Some?
    requires off < |a.data| ==> forall i :: 0 <= i < |b.queue| ==> |b.queue[i].data| == m
    requires off == |a.data| ==> Sized(b.queue, m)
    ensures Sized(Build(s, a, m, off, b, mem).value.queue, m)
    decreases |a.data| - off
  {
    if off < |a.data| {
      var q := NewSeg(s, a, m, off, b.queue == []);
      BuildSizes(s, a, m, off + |q.data|,
                 Built(b.queue + [q], b.queuelen + |q.pieces|, if a.copy then q.room else b.oversize),
                 mem - |q.pieces| - 1);
    }
  }

  predicate Sized(u: seq<Seg>, m: int)
  {
    forall i :: 0 <= i < |u| ==> 0 < |u[i].data| <= m && (i < |u| - 1 ==> |u[i].data| == m)
  }

  // ----- phases 1 and 2: the last unsent segment ------------------------------------------------

  lemma {:induction false} SumConcat(a: seq<nat>, b: seq<nat>)
    ensures Sum(a + b) == Sum(a) + Sum(b)
  {
    if a == [] {
      assert a + b == b;
    } else {
      assert (a + b)[1..] == a[1..] + b;
      SumConcat(a[1..], b);
    }
  }

  lemma GrowPieces(p: seq<nat>, k: nat, c: nat)
    requires p != [] && Filled(p)
    ensures var q := p[..|p| - 1] + [p[|p| - 1] + k];
            && Sum(q) == Sum(p) + k && Sum(q + [c]) == Sum(p) + k + c
            && Filled(q) && (c > 0 ==> Filled(q + [c]))
  {
    var n := |p| - 1;
    var q := p[..n] + [p[n] + k];
    assert p == p[..n] + [p[n]];
    SumConcat(p[..n], [p[n]]);
    SumConcat(p[..n], [p[n] + k]);
    SumConcat(q, [c]);
    SumOne(p[n]);
    SumOne(p[n] + k);
    SumOne(c);
  }

  lemma SumOne(n: nat)
    ensures Sum([n]) == n
  {
    assert [n][1..] == [];
  }

  /** What the application wrote before stays what the queue holds. */
  lemma GoodMore(q: Seg, o: int, w: seq<byte>, d: seq<byte>)
    requires Good(q, true, o, w)
    ensures Good(q, true, o, w + d)
  {
    assert (w + d)[q.pos - o..q.Top() - o] == w[q.pos - o..q.Top() - o];
  }

  lemma GrowGood(q: Seg, a: Args, p: Plan, o: int, w: seq<byte>)
    requires Good(q, true, o, w) && p.Bytes() <= |a.data| && (q.Top() == o + |w| || p.Bytes() == 0)
    ensures Good(GrowLast(q, a, p), true, o, w + a.data)
    ensures |GrowLast(q, a, p).pieces| == |q.pieces| + p.NewBufs()
  {
    var g := GrowLast(q, a, p);
    GrowPieces(q.pieces, if p.extend then p.Bytes() else p.used, p.cat);
    var n := |q.pieces| - 1;
    assert p.NewBufs() == 0 ==> g.pieces == q.pieces[..n] + [q.pieces[n] + (if p.extend then p.Bytes() else p.used)];
    GrowHolds(q, a.data, p.Bytes(), o, w);
  }

  lemma GrowHolds(q: Seg, d: seq<byte>, n: nat, o: int, w: seq<byte>)
    requires Holds(q, o, w) && n <= |d| && (q.Top() == o + |w| || n == 0)
    ensures (w + d)[q.pos - o..q.Top() + n - o] == q.data + d[..n]
  {
    assert n == 0 ==> q.data + d[..n] == q.data && (w + d)[q.pos - o..q.Top() + n - o] == w[q.pos - o..q.Top() - o];
    assert n > 0 ==> (w + d)[q.pos - o..q.Top() + n - o] == w[q.pos - o..] + d[..n];
  }

  /** The bytes that go into spare space fit it, and none is left over unless all the
      data is placed. */
  lemma PlanFits(s: Snd, a: Args)
    requires TailRoom(s) && TailFits(s) && PlanTail(s, a).Some?
    ensures var p := PlanTail(s, a).value;
            && p.oversize >= 0 && (s.unsent == [] ==> p == Plan(0, 0, false, 0, a.mem))
            && (s.unsent != [] ==>
                  var q := s.unsent[|s.unsent| - 1];
                  && p.used <= q.room && |q.data| + p.Bytes() <= MssLocal(s)
                  && (p.NewBufs() == 0 ==> p.oversize <= q.room - p.used)
                  && (p.NewBufs() == 1 && !a.copy ==> p.oversize == 0))
            && (p.Bytes() < |a.data| && !a.copy ==> p.oversize == 0)
  {
  }

  // ----- a successful tcp_write --------------------------------------------------------------------

  /** The state before a write that succeeds, with its plan. */
  ghost predicate Planned(s: Snd, a: Args, p: Plan, o: int, w: seq<byte>)
  {
    && Core(s, o, w) && s.open && Sane(s)
    && p.Bytes() <= |a.data| && (s.unsent == [] ==> p.Bytes() == 0 && p.NewBufs() == 0)
  }

  lemma LastSums(u: seq<Seg>, q: Seg, x: int)
    requires u != []
    ensures var v := u[..|u| - 1] + [q]; var l := u[|u| - 1];
            && Count(v, x) + In(l, x) == Count(u, x) + In(q, x)
            && Bytes(v) + |l.data| == Bytes(u) + |q.data| && Bufs(v) + |l.pieces| == Bufs(u) + |q.pieces|
            && Fins(v) + (if l.fin then 1 else 0) == Fins(u) + (if q.fin then 1 else 0)
  {
    var n := |u| - 1;
    Cut(u, n, x);
    assert u[n..] == [u[n]];
    One(u[n], x);
    One(q, x);
    CountConcat(u[..n], [q], x);
    SumsConcat(u[..n], [q]);
  }

  lemma GrownSums(s: Snd, a: Args, p: Plan, o: int, w: seq<byte>, x: int)
    requires Planned(s, a, p, o, w)
    ensures var v := Grown(s, a, p);
            && |v| == |s.unsent|
            && Bytes(v) == Bytes(s.unsent) + p.Bytes() && Bufs(v) == Bufs(s.unsent) + p.NewBufs()
               && Fins(v) == Fins(s.unsent)
            && (TailNewest(s) || p.Bytes() == 0 ==>
                  Count(v, x) == Count(s.unsent, x) + Within(x, s.lbb, s.lbb + p.Bytes()))
            && (s.unsent != [] ==>
                  var l := s.unsent[|s.unsent| - 1];
                  Count(v, x) == Count(s.unsent, x) + Within(x, l.End(), l.End() + p.Bytes()))
  {
    if s.unsent != [] {
      var l := s.unsent[|s.unsent| - 1];
      assert l in s.unsent && Good(l, s.open, o, w);
      GrownLast(l, a, p, x);
      hide Good, Core, GrowLast, In, Within, Count, Bytes, Bufs, Fins;
      LastSums(s.unsent, GrowLast(l, a, p), x);
    }
  }

  lemma GrownLast(l: Seg, a: Args, p: Plan, x: int)
    requires l.pieces != [] && p.Bytes() <= |a.data|
    ensures var g := GrowLast(l, a, p);
            && In(g, x) == In(l, x) + Within(x, l.End(), l.End() + p.Bytes()) && g.fin == l.fin
            && |g.data| == |l.data| + p.Bytes() && |g.pieces| == |l.pieces| + p.NewBufs()
  {
  }

  lemma CommitTimes(s: Snd, a: Args, p: Plan, b: Built, o: int, w: seq<byte>, x: int)
    requires Planned(s, a, p, o, w) && BuildRest(s, a, p) == Some(b) && (TailNewest(s) || p.Bytes() == 0)
    ensures Times(s.unacked, Grown(s, a, p) + b.queue, x)
            == Times(s.unacked, s.unsent, x) + Within(x, s.lbb, s.lbb + |a.data|)
  {
    hide Core, Grown, Build;
    var v := Grown(s, a, p);
    GrownSums(s, a, p, o, w, x);
    BuildCount(s, a, MssLocal(s), p.Bytes(), Built([], s.queuelen + p.NewBufs(), p.oversize), p.mem, x);
    CountConcat(v, b.queue, x);
  }

  lemma CommitOnce(s: Snd, a: Args, p: Plan, b: Built, o: int, w: seq<byte>)
    requires Planned(s, a, p, o, w) && BuildRest(s, a, p) == Some(b) && (TailNewest(s) || p.Bytes() == 0)
    ensures Once(s.unacked, Grown(s, a, p) + b.queue, s.lastack, o + |w| + |a.data|)
  {
    hide Grown, BuildRest, Count;
    var v := Grown(s, a, p) + b.queue;
    var hi := o + |w| + |a.data|;
    forall x ensures Times(s.unacked, v, x) <= 1 && (s.lastack <= x < hi ==> Times(s.unacked, v, x) == 1) {
      CommitTimes(s, a, p, b, o, w, x);
      if x >= s.lbb {
        NoneBeyond(s.unacked, s.open, o, w, x);
        NoneBeyond(s.unsent, s.open, o, w, x);
      }
      assert Times(s.unacked, s.unsent, x) <= 1;
    }
  }

  lemma CommitBalanced(s: Snd, a: Args, p: Plan, b: Built, o: int, w: seq<byte>)
    requires Planned(s, a, p, o, w) && BuildRest(s, a, p) == Some(b) && |a.data| <= s.buf
    ensures Balanced(Commit(s, a, p, b))
  {
    var v := Grown(s, a, p);
    GrownSums(s, a, p, o, w, 0);
    BuildSums(s, a, MssLocal(s), p.Bytes(), Built([], s.queuelen + p.NewBufs(), p.oversize), p.mem);
    SumsConcat(v, b.queue);
  }

  lemma GrownGoods(s: Snd, a: Args, p: Plan, o: int, w: seq<byte>)
    requires Planned(s, a, p, o, w) && (TailNewest(s) || p.Bytes() == 0)
    ensures Goods(s.unacked, true, o, w + a.data) && Goods(Grown(s, a, p), true, o, w + a.data)
    ensures forall q :: q in Grown(s, a, p) ==> q.End() <= s.lbb + p.Bytes()
  {
    forall q | q in s.unacked || q in s.unsent ensures Good(q, true, o, w + a.data) && q.End() <= s.lbb {
      assert Good(q, s.open, o, w);
      GoodMore(q, o, w, a.data);
    }
    if s.unsent != [] {
      var l := s.unsent[|s.unsent| - 1];
      assert l in s.unsent && Good(l, s.open, o, w);
      GrowGood(l, a, p, o, w);
      assert GrowLast(l, a, p).End() <= s.lbb + p.Bytes();
    }
  }

  lemma {:induction false} LaidClose(a: seq<Seg>, u: seq<Seg>, v: seq<Seg>, q: seq<Seg>, lastack: int, lo: int,
      hi: int, o: int, w: seq<byte>)
    requires Spread(a, u, lastack) && Laid(q, lo, hi, o, w) && lastack <= lo
    requires |v| == |u| && (forall i :: 0 <= i < |u| ==> v[i].pos == u[i].pos && (i < |u| - 1 ==> v[i] == u[i]))
    requires forall g :: g in a || g in v ==> g.End() <= lo
    ensures Spread(a, v + q, lastack)
  {
    var r := v + q;
    var n := |v|;
    forall i, j | 0 <= i < j < |r| ensures Close(r[i], r[j]) {
      if j < n {
        assert Close(u[i], u[j]);
      } else if i < n {
        assert r[i] in v && r[j] in q;
      } else {
        assert Below(q[i - n], q[j - n]);
        assert q[j - n] in q;
      }
    }
    forall j | 0 <= j < |r| ensures lastack <= r[j].pos + SPREAD && forall g :: g in a ==> Close(g, r[j]) {
      if j < n {
        assert u[j] in u;
        assert forall g :: g in a ==> Close(g, u[j]);
      } else {
        assert r[j] in q;
      }
    }
  }

  lemma CommitSpread(s: Snd, a: Args, p: Plan, b: Built, o: int, w: seq<byte>)
    requires Planned(s, a, p, o, w) && BuildRest(s, a, p) == Some(b) && (TailNewest(s) || p.Bytes() == 0)
    ensures Goods(Grown(s, a, p) + b.queue, true, o, w + a.data)
    ensures Spread(s.unacked, Grown(s, a, p) + b.queue, s.lastack)
  {
    hide Laid, Good, Spread, Build, Grown, Once, Sorted, Alive, Balanced;
    LaidNone(s.lbb + p.Bytes(), o, w + a.data);
    var lo, hi := s.lbb + p.Bytes(), s.lbb + |a.data|;
    GrownGoods(s, a, p, o, w);
    BuildLaid(s, a, MssLocal(s), p.Bytes(), Built([], s.queuelen + p.NewBufs(), p.oversize), p.mem, lo, o, w);
    LaidGoods(b.queue, lo, hi, o, w + a.data);
    forall g | g in s.unacked ensures g.End() <= lo {
      EndsInside(g, s, o, w);
    }
    GrownShape(s, a, p);
    LaidClose(s.unacked, s.unsent, Grown(s, a, p), b.queue, s.lastack, lo, hi, o, w + a.data);
  }

  lemma GrownShape(s: Snd, a: Args, p: Plan)
    requires Sane(s) && p.Bytes() <= |a.data|
    ensures var v := Grown(s, a, p); var u := s.unsent;
            |v| == |u| && forall i :: 0 <= i < |u| ==> v[i].pos == u[i].pos && (i < |u| - 1 ==> v[i] == u[i])
  {
  }

  lemma LaidNone(lo: int, o: int, w: seq<byte>)
    ensures Laid([], lo, lo, o, w)
  {
  }

  lemma LaidGoods(u: seq<Seg>, lo: int, hi: int, o: int, w: seq<byte>)
    requires Laid(u, lo, hi, o, w)
    ensures Goods(u, true, o, w)
  {
  }

  lemma EndsInside(g: Seg, s: Snd, o: int, w: seq<byte>)
    requires Core(s, o, w) && s.open && (g in s.unacked || g in s.unsent)
    ensures g.End() <= s.lbb
  {
    assert Good(g, s.open, o, w);
  }

  /** unsent_oversize describes the new tail. */
  lemma CommitRoom(s: Snd, a: Args, p: Plan, b: Built)
    requires Sane(s) && TailRoom(s) && TailFits(s) && PlanTail(s, a) == Some(p) && BuildRest(s, a, p) == Some(b)
    ensures TailRoom(Commit(s, a, p, b))
  {
    hide Build, Spare;
    PlanFits(s, a);
    BuildRoom(s, a, MssLocal(s), p.Bytes(), Built([], s.queuelen + p.NewBufs(), p.oversize), p.mem);
    hide Build, PlanTail;
    var t := Commit(s, a, p, b);
    if b.queue != [] {
      assert t.unsent[|t.unsent| - 1] == b.queue[|b.queue| - 1];
    }
  }

  /** tcp_write keeps the invariant if the last unsent segment is the newest, or if
      it adds nothing to that segment. */
  lemma WriteKeeps(s: Snd, a: Args, p: Plan, b: Built, o: int, w: seq<byte>)
    requires Inv(s, o, w) && s.open && Sane(s) && TailFits(s) && |a.data| <= s.buf
    requires PlanTail(s, a) == Some(p) && BuildRest(s, a, p) == Some(b) && (TailNewest(s) || p.Bytes() == 0)
    ensures Inv(Commit(s, a, p, b), o, w + a.data)
  {
    assert s.unsent == [] ==> p == Plan(0, 0, false, 0, a.mem);
    CommitOnce(s, a, p, b, o, w);
    CommitBalanced(s, a, p, b, o, w);
    CommitSpread(s, a, p, b, o, w);
    CommitRoom(s, a, p, b);
    GrownGoods(s, a, p, o, w);
    hide Once, Balanced, Goods, Spread, Sorted, Alive, TailRoom, PlanTail, Build, Grown;
  }

  // ----- exactly when a write keeps every number queued once ---------------------------------------

  /** tcp_write will put bytes into the last unsent segment. */
  predicate Appends(s: Snd, a: Args)
  {
    s.unsent != [] && a.data != [] && |s.unsent[|s.unsent| - 1].data| < MssLocal(s)
  }

  lemma AppendsIff(s: Snd, a: Args, p: Plan, o: int, w: seq<byte>)
    requires Inv(s, o, w) && s.open && TailFits(s) && PlanTail(s, a) == Some(p)
    ensures p.Bytes() > 0 <==> Appends(s, a)
  {
    if s.unsent != [] {
      var l := s.unsent[|s.unsent| - 1];
      assert l in s.unsent && Good(l, s.open, o, w);
    }
  }

  /** Bytes put into a segment that is not the newest are missing where they belong. */
  lemma ByteLost(s: Snd, a: Args, p: Plan, b: Built, o: int, w: seq<byte>)
    requires Planned(s, a, p, o, w) && BuildRest(s, a, p) == Some(b) && !TailNewest(s) && p.Bytes() > 0
    ensures Times(s.unacked, Grown(s, a, p) + b.queue, s.lbb + p.Bytes() - 1) == 0
  {
    var x := s.lbb + p.Bytes() - 1;
    var l := s.unsent[|s.unsent| - 1];
    EndsInside(l, s, o, w);
    GrownSums(s, a, p, o, w, x);
    BuildCount(s, a, MssLocal(s), p.Bytes(), Built([], s.queuelen + p.NewBufs(), p.oversize), p.mem, x);
    CountConcat(Grown(s, a, p), b.queue, x);
    NoneBeyond(s.unacked, s.open, o, w, x);
    NoneBeyond(s.unsent, s.open, o, w, x);
  }

  lemma SaneInv(s: Snd, o: int, w: seq<byte>)
    requires Inv(s, o, w)
    ensures Sane(s)
  {
    assert s.unsent != [] ==> Good(s.unsent[|s.unsent| - 1], s.open, o, w);
  }

  /** A successful tcp_write keeps the queues exact if and only if it starts a new
      segment or the last unsent segment is the newest. */
  lemma WriteIff(s: Snd, a: Args, o: int, w: seq<byte>)
    requires Inv(s, o, w) && Sane(s) && Write(s, a).0 == OK
    ensures s.open && (Inv(Write(s, a).1, o, w + a.data) <==> TailNewest(s) || !Appends(s, a))
  {
    var p := PlanTail(s, a).value;
    var b := BuildRest(s, a, p).value;
    AppendsIff(s, a, p, o, w);
    if TailNewest(s) || !Appends(s, a) {
      WriteKeeps(s, a, p, b, o, w);
    } else {
      ByteLost(s, a, p, b, o, w);
      var t := Write(s, a).1;
      assert Times(t.unacked, t.unsent, s.lbb + p.Bytes() - 1) == 0;
      assert !Once(t.unacked, t.unsent, t.lastack, Final(t, o, w + a.data));
    }
  }

  /** How many segments of at most m bytes n bytes become. */
  function Segments(n: nat, m: int): nat
    requires m > 0
  {
    if n == 0 then 0 else 1 + Segments(n - Min(n, m), m)
  }

  /** As few as hold n bytes. */
  lemma {:induction false} SegmentsFewest(n: nat, m: int)
    requires m > 0
    ensures (Segments(n, m) - 1) * m < n <= Segments(n, m) * m || n == Segments(n, m) == 0
  {
    if n > m {
      var k := Segments(n - m, m);
      SegmentsFewest(n - m, m);
      assert (k + 1) * m == k * m + m && (k - 1) * m == k * m - m;
    } else if n > 0 {
      assert Segments(0, m) == 0;
    }
  }

  /** The pbufs of one new segment: a copy, or a header and a reference. */
  function PerSegment(a: Args): nat { if a.copy then 1 else 2 }

  /** What phase 3 needs: memory for every segment and its pbufs, and room in the queue. */
  predicate EnoughFor(k: nat, a: Args, queuelen: int, mem: nat)
  {
    && k * (PerSegment(a) + 1) <= mem
    && (k > 0 ==> queuelen + k * PerSegment(a) <= Min(TCP_SND_QUEUELEN, TCP_SNDQUEUELEN_OVERFLOW))
  }

  lemma {:induction false} BuildIff(s: Snd, a: Args, m: int, off: nat, b: Built, mem: nat)
    requires off <= |a.data| && m > 0
    ensures Build(s, a, m, off, b, mem).Some? <==> EnoughFor(Segments(|a.data| - off, m), a, b.queuelen, mem)
    decreases |a.data| - off
  {
    if off < |a.data| {
      var q := NewSeg(s, a, m, off, b.queue == []);
      if mem > |q.pieces| {
        BuildIff(s, a, m, off + |q.data|,
                 Built(b.queue + [q], b.queuelen + |q.pieces|, if a.copy then q.room else b.oversize),
                 mem - |q.pieces| - 1);
      }
    } else {
      assert Segments(0, m) == 0;
    }
  }

  /** What the rest of tcp_write needs when phases 1 and 2 follow plan p. */
  predicate Affordable(s: Snd, a: Args, p: Plan)
    requires s.mss > 0 && p.Bytes() <= |a.data|
  {
    p.NewBufs() <= a.mem
    && EnoughFor(Segments(|a.data| - p.Bytes(), MssLocal(s)), a, s.queuelen + p.NewBufs(), a.mem - p.NewBufs())
  }

  /** All or nothing: tcp_write succeeds if and only if its checks do and the memory and
      the queue have room for exactly what the data needs; if it fails it changes only
      the flag. */
  lemma WriteAllOrNothing(s: Snd, a: Args)
    requires Sane(s)
    ensures var (err, t) := Write(s, a); var checked := WriteChecks(s, |a.data|) == OK;
            && (err == Asserted <==> checked && (!TailFits(s) || !RomFits(s, a)))
            && (err == OK <==>
                  checked && TailFits(s) && RomFits(s, a) && Affordable(s, a, PlanTail(s, a.(mem := a.mem + 1)).value))
            && (err == CONN <==> !s.open) && (err == OK || err == CONN || err == Asserted || err == MEM)
            && (err == CONN || err == Asserted ==> t == s) && (err == MEM ==> t == s.(memerr := true))
            && (err == OK ==> t.lbb == s.lbb + |a.data| && t.buf == s.buf - |a.data| && t.unacked == s.unacked)
  {
    PlanIff(s, a);
    assert MssLocal(s) > 0;
    hide PlanTail, Build, EnoughFor, TailFits, RomFits, MssLocal, Grown;
    if PlanTail(s, a).Some? {
      var p := PlanTail(s, a).value;
      BuildIff(s, a, MssLocal(s), p.Bytes(), Built([], s.queuelen + p.NewBufs(), p.oversize), p.mem);
    }
  }

  /** Phases 1 and 2 fail only if they need a pbuf and there is none. */
  lemma PlanIff(s: Snd, a: Args)
    ensures PlanTail(s, a.(mem := a.mem + 1)).Some?
    ensures var p := PlanTail(s, a.(mem := a.mem + 1)).value; var n := p.NewBufs();
            PlanTail(s, a) == if n <= a.mem then Some(p.(mem := a.mem - n)) else None
  {
    hide MssLocal;
  }

  // ----- the FIN ---------------------------------------------------------------------------------------

  lemma FinCount(s: Snd, o: int, w: seq<byte>, x: int)
    requires Core(s, o, w) && s.open && s.unsent != []
    ensures var l := s.unsent[|s.unsent| - 1]; var v := s.unsent[|s.unsent| - 1 := l.(fin := true)];
            && Count(v, x) == Count(s.unsent, x) + Within(x, l.End(), l.End() + 1)
            && Bytes(v) == Bytes(s.unsent) && Bufs(v) == Bufs(s.unsent) && Fins(v) == Fins(s.unsent) + 1
  {
    var n := |s.unsent| - 1;
    var l := s.unsent[n];
    assert l in s.unsent && Good(l, s.open, o, w);
    LastSums(s.unsent, l.(fin := true), x);
    assert s.unsent[n := l.(fin := true)] == s.unsent[..n] + [l.(fin := true)];
  }

  /** Closing leaves the data segments good. */
  lemma GoodClosed(q: Seg, o: int, w: seq<byte>)
    requires Good(q, true, o, w)
    ensures Good(q, false, o, w) && (q.Top() == o + |w| ==> Good(q.(fin := true), false, o, w))
  {
  }

  lemma OpenLast(s: Snd, o: int, w: seq<byte>)
    requires Core(s, o, w) && s.open && s.unsent != []
    ensures var l := s.unsent[|s.unsent| - 1]; !l.fin && (l.End() == s.lbb ==> Good(l.(fin := true), false, o, w))
  {
    var l := s.unsent[|s.unsent| - 1];
    assert l in s.unsent && Good(l, s.open, o, w);
  }

  lemma PiggybackKeeps(s: Snd, o: int, w: seq<byte>, mem: nat)
    requires Inv(s, o, w) && s.open && s.unsent != [] && TailNewest(s)
    ensures Inv(SendFin(s, mem).1, o, w)
  {
    hide Spread, Sorted, Alive, Once, Bytes, Bufs, Fins, Good;
    var n := |s.unsent| - 1;
    var l := s.unsent[n];
    OpenLast(s, o, w);
    var v := s.unsent[n := l.(fin := true)];
    PiggybackOnce(s, o, w, v);
    FinCount(s, o, w, 0);
    ClosedGoods(s, o, w, v, l.(fin := true));
    FinSpread(s.unacked, s.unsent, v, s.lastack);
  }

  lemma PiggybackOnce(s: Snd, o: int, w: seq<byte>, v: seq<Seg>)
    requires Core(s, o, w) && s.open && s.unsent != [] && TailNewest(s)
    requires v == s.unsent[|s.unsent| - 1 := s.unsent[|s.unsent| - 1].(fin := true)]
    ensures Once(s.unacked, v, s.lastack, s.lbb + 1)
  {
    forall x ensures Times(s.unacked, v, x) <= 1 && (s.lastack <= x < s.lbb + 1 ==> Times(s.unacked, v, x) == 1) {
      FinCount(s, o, w, x);
      if x >= s.lbb {
        NoneBeyond(s.unacked, s.open, o, w, x);
        NoneBeyond(s.unsent, s.open, o, w, x);
      }
      assert Times(s.unacked, s.unsent, x) <= 1;
    }
  }

  lemma FinSpread(a: seq<Seg>, u: seq<Seg>, v: seq<Seg>, lastack: int)
    requires Spread(a, u, lastack) && |v| == |u|
    requires forall i :: 0 <= i < |u| ==> v[i].pos == u[i].pos && (i < |u| - 1 ==> v[i] == u[i])
    ensures Spread(a, v, lastack)
  {
    forall i, j | 0 <= i < j < |v| ensures Close(v[i], v[j]) {
      assert Close(u[i], u[j]);
    }
    forall j | 0 <= j < |v| ensures lastack <= v[j].pos + SPREAD && forall g :: g in a ==> Close(g, v[j]) {
      assert u[j] in u;
      assert forall g :: g in a ==> Close(g, u[j]);
    }
  }

  lemma ClosedGoods(s: Snd, o: int, w: seq<byte>, v: seq<Seg>, l: Seg)
    requires Core(s, o, w) && s.open && Good(l, false, o, w) && forall q :: q in v ==> q in s.unsent || q == l
    ensures Goods(s.unacked, false, o, w) && Goods(v, false, o, w)
  {
    forall q | q in s.unacked || q in s.unsent ensures Good(q, false, o, w) {
      GoodClosed(q, o, w);
    }
  }

  lemma EnqueueFinKeeps(s: Snd, o: int, w: seq<byte>)
    requires Inv(s, o, w) && s.open && s.unsent == []
    ensures Inv(EnqueueFin(s, 2).1, o, w)
  {
    var q := Seg(s.lbb, [], true, [0], 0, false);
    assert w[|w|..|w|] == [];
    assert Sum([0]) == 0 + Sum([0][1..]);
    assert Good(q, false, o, w);
    forall x ensures Times(s.unacked, [q], x) == Times(s.unacked, [], x) + Within(x, s.lbb, s.lbb + 1)
      ensures Times(s.unacked, [], x) <= 1 && (x >= s.lbb ==> Times(s.unacked, [], x) == 0)
    {
      One(q, x);
      if x >= s.lbb {
        NoneBeyond(s.unacked, s.open, o, w, x);
      }
      assert Times(s.unacked, [], x) <= 1;
    }
    assert s.unsent + [q] == [q];
    One(q, 0);
    ClosedGoods(s, o, w, [q], q);
    forall g | g in s.unacked ensures Close(g, q) {
      EndsInside(g, s, o, w);
    }
  }

  /** tcp_send_fin keeps the queues exact if and only if the last unsent segment is the
      newest: otherwise the FIN takes a number in the middle of the stream. */
  lemma FinIff(s: Snd, o: int, w: seq<byte>, mem: nat)
    requires Inv(s, o, w) && s.open && SendFin(s, mem).0 == OK
    ensures Inv(SendFin(s, mem).1, o, w) <==> TailNewest(s)
  {
    if s.unsent == [] {
      EnqueueFinKeeps(s, o, w);
    } else {
      var l := s.unsent[|s.unsent| - 1];
      assert l in s.unsent && Good(l, s.open, o, w);
      if TailNewest(s) {
        PiggybackKeeps(s, o, w, mem);
      } else {
        FinLost(s, o, w, mem);
      }
    }
  }

  lemma FinLost(s: Snd, o: int, w: seq<byte>, mem: nat)
    requires Inv(s, o, w) && s.open && !TailNewest(s)
    ensures !Inv(SendFin(s, mem).1, o, w)
  {
    var t := SendFin(s, mem).1;
    var l := s.unsent[|s.unsent| - 1];
    assert l in s.unsent && Good(l, s.open, o, w);
    EndsInside(l, s, o, w);
    FinCount(s, o, w, s.lbb);
    NoneBeyond(s.unacked, s.open, o, w, s.lbb);
    NoneBeyond(s.unsent, s.open, o, w, s.lbb);
    assert Times(t.unacked, t.unsent, s.lbb) == 0;
  }
}
