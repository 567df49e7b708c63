/** Where the side condition on tcp_write and tcp_send_fin matters: it holds by itself
    as long as every fast retransmission is sent at once, and one that the driver
    refuses is enough to break it. */
module SendQueueOrder {
  import opened Seq32
  import opened SendQueue
  import opened SendQueueInv
  import opened SendQueueOps
  import opened SendQueueWrite
  import opened SendQueueRuns

  // ----- a run that loses a byte -----------------------------------------------------------

  function Chunk(d: seq<byte>): Args { Args(d, true, false, true, false, 10) }

  function Plain(pos: int, d: seq<byte>): Seg { Seg(pos, d, false, [|d|], 0, false) }

  function State(unacked: seq<Seg>, unsent: seq<Seg>, nxt: int, lbb: int, queuelen: int, memerr: bool): Snd
  {
    Snd(unacked, unsent, 0, nxt, lbb, TCP_SND_BUF - lbb, queuelen, 0, true, memerr, TCP_MSS, 1000)
  }

  /** Writing a chunk that fits one segment when nothing is unsent. */
  lemma WriteFirst(s: Snd, d: seq<byte>)
    requires s.unsent == [] && s.open && s.mss > 0 && 0 < |d| <= MssLocal(s) && |d| <= s.buf
    requires 0 <= s.queuelen < 10
    ensures Write(s, Chunk(d)) == (OK, s.(unsent := [Plain(s.lbb, d)], lbb := s.lbb + |d|, buf := s.buf - |d|,
                                          queuelen := s.queuelen + 1, oversize := 0))
  {
    BuildOne(s, d, MssLocal(s));
    hide Build, MssLocal;
    assert PlanTail(s, Chunk(d)) == Some(Plan(0, 0, false, 0, 10));
    assert Grown(s, Chunk(d), Plan(0, 0, false, 0, 10)) == [];
    var b := Built([Plain(s.lbb, d)], s.queuelen + 1, 0);
    assert BuildRest(s, Chunk(d), Plan(0, 0, false, 0, 10)) == Some(b);
    assert [] + b.queue == b.queue;
    assert TCP_SND_QUEUELEN == 32;
    assert WriteChecks(s, |d|) == OK;
  }

  lemma BuildOne(s: Snd, d: seq<byte>, m: int)
    requires 0 < |d| <= m && 0 <= s.queuelen < 10
    ensures Build(s, Chunk(d), m, 0, Built([], s.queuelen, 0), 10) == Some(Built([Plain(s.lbb, d)], s.queuelen + 1, 0))
  {
    var a := Chunk(d);
    assert d[0..|d|] == d;
    assert NewSeg(s, a, m, 0, true) == Plain(s.lbb, d);
    assert [] + [Plain(s.lbb, d)] == [Plain(s.lbb, d)];
    assert Build(s, a, m, |d|, Built([Plain(s.lbb, d)], s.queuelen + 1, 0), 8)
           == Some(Built([Plain(s.lbb, d)], s.queuelen + 1, 0));
  }

  lemma SendOne(s: Snd, q: Seg)
    requires s.unsent == [q] && InWindow(s, 1000) && s.nxt <= q.End()
             && (s.unacked == [] || q.pos >= s.unacked[|s.unacked| - 1].pos)
    requires s.oversize == 0
    ensures Output(s, 1000, true, false, 1)
         == (OK, s.(unsent := [], unacked := s.unacked + [q], nxt := q.End(), memerr := false))
  {
    assert SendHead(s) == s.(unsent := [], nxt := q.End(), unacked := s.unacked + [q]);
    assert SendLoop(SendHead(s), 1000, true, 0).1.unsent == [];
  }

  /** Two segments are sent, the first is fast-retransmitted but the driver refuses it,
      and the application writes one more byte: it lands in the first segment. Number 2
      is then queued twice and number 4, where the byte belongs, is not queued at all. */
  lemma FastRexmitLosesByte()
    ensures var A, B, C := Chunk([1, 2]), Chunk([3, 4]), Chunk([5]);
            var s0 := Initial(0, TCP_MSS, 1000);
            var s1 := Write(s0, A).1;
            var s2 := Output(s1, 1000, true, false, 1).1;
            Sane(s2) &&
            var s3 := Write(s2, B).1;
            var s4 := Output(s3, 1000, true, false, 1).1;
            var s5 := Rexmit(s4, false);
            var s6 := Output(s5, 1000, true, false, 0).1;
            Sane(s6) &&
            var (err, s7) := Write(s6, C);
            && Inv(s6, 0, [1, 2, 3, 4]) && err == OK
            && Times(s7.unacked, s7.unsent, 2) == 2 && Times(s7.unacked, s7.unsent, 4) == 0
  {
    var A, B, C := Chunk([1, 2]), Chunk([3, 4]), Chunk([5]);
    var a, b := Plain(0, [1, 2]), Plain(2, [3, 4]);
    var s0 := Initial(0, TCP_MSS, 1000);
    WriteFirst(s0, [1, 2]);
    var s1 := Write(s0, A).1;
    SendOne(s1, a);
    var s2 := Output(s1, 1000, true, false, 1).1;
    assert s2 == State([a], [], 2, 2, 1, false);
    WriteFirst(s2, [3, 4]);
    var s3 := Write(s2, B).1;
    SendOne(s3, b);
    var s4 := Output(s3, 1000, true, false, 1).1;
    assert s4 == State([a, b], [], 4, 4, 2, false);
    var s5 := Rexmit(s4, false);
    assert s5 == State([b], [a], 4, 4, 2, false);
    var s6 := Output(s5, 1000, true, false, 0).1;
    assert s6 == State([b], [a], 4, 4, 2, true);
    LastWrite(s6, a, b);
    Prefix(s0, s1, s2, s3, s4, s5, s6);
  }

  lemma LastWrite(s: Snd, a: Seg, b: Seg)
    requires a == Plain(0, [1, 2]) && b == Plain(2, [3, 4]) && s == State([b], [a], 4, 4, 2, true)
    ensures Sane(s)
    ensures var (err, t) := Write(s, Chunk([5]));
            err == OK && Times(t.unacked, t.unsent, 2) == 2 && Times(t.unacked, t.unsent, 4) == 0
  {
    var c := Chunk([5]);
    var p := Plan(0, 1, false, 0, 9);
    assert PlanTail(s, c) == Some(p);
    assert BuildRest(s, c, p) == Some(Built([], 3, 0));
    var g := GrowLast(a, c, p);
    assert g.data == [1, 2, 5];
    var t := Commit(s, c, p, Built([], 3, 0));
    assert t.unsent == [g];
    One(g, 2);
    One(b, 2);
    One(g, 4);
    One(b, 4);
  }

  /** Up to there the invariant holds. */
  lemma Prefix(s0: Snd, s1: Snd, s2: Snd, s3: Snd, s4: Snd, s5: Snd, s6: Snd)
    requires s0 == Initial(0, TCP_MSS, 1000) && s1 == Write(s0, Chunk([1, 2])).1 && Write(s0, Chunk([1, 2])).0 == OK
    requires s2 == Output(s1, 1000, true, false, 1).1 && s2.unsent == [] && s2.mss > 0
    requires s3 == Write(s2, Chunk([3, 4])).1 && Write(s2, Chunk([3, 4])).0 == OK
    requires s4 == Output(s3, 1000, true, false, 1).1 && s5 == Rexmit(s4, false)
             && s6 == Output(s5, 1000, true, false, 0).1
    ensures Inv(s6, 0, [1, 2, 3, 4])
  {
    hide Inv, Write, Output, Rexmit;
    InitialInv(0, TCP_MSS, 1000);
    WriteIff(s0, Chunk([1, 2]), 0, []);
    assert [] + [1, 2] == [1, 2];
    OutputKeeps(s1, 0, [1, 2], 1000, true, false, 1);
    WriteIff(s2, Chunk([3, 4]), 0, [1, 2]);
    assert [1, 2] + [3, 4] == [1, 2, 3, 4];
    OutputKeeps(s3, 0, [1, 2, 3, 4], 1000, true, false, 1);
    RexmitKeeps(s4, 0, [1, 2, 3, 4], false);
    OutputKeeps(s5, 0, [1, 2, 3, 4], 1000, true, false, 0);
  }

  // ----- the queues in order -----------------------------------

  /** The last segment, if any, is not acknowledged. */
  predicate LastLive(u: seq<Seg>, lastack: int)
  {
    u != [] ==> u[|u| - 1].End() > lastack
  }

  /** Both queues together are sorted. */
  ghost predicate InOrder(s: Snd)
  {
    Sorted(s.All()) && LastLive(s.All(), s.lastack)
  }

  lemma InOrderNewest(s: Snd, o: int, w: seq<byte>)
    requires Inv(s, o, w) && InOrder(s) && s.open
    ensures TailNewest(s)
  {
    var u := s.All();
    if s.unsent != [] {
      var l := s.unsent[|s.unsent| - 1];
      assert u[|u| - 1] == l && l in s.unsent;
      EndsInside(l, s, o, w);
      var x := s.lbb - 1;
      assert Times(s.unacked, s.unsent, x) == 1;
      CountConcat(s.unacked, s.unsent, x);
      var i := Holder(u, x);
      assert u[i] in s.unacked || u[i] in s.unsent;
      EndsInside(u[i], s, o, w);
      SortedLast(u, i);
    }
  }

  lemma SortedLast(u: seq<Seg>, i: nat)
    requires Sorted(u) && i < |u|
    ensures i == |u| - 1 || u[i].End() <= u[|u| - 1].pos
  {
    assert i < |u| - 1 ==> Below(u[i], u[|u| - 1]);
  }

  /** A longer sorted list. */
  lemma SortedConcat(a: seq<Seg>, b: seq<Seg>, mid: int)
    requires Sorted(a) && Sorted(b) && (forall q :: q in a ==> q.End() <= mid) && (forall q :: q in b ==> mid <= q.pos)
    ensures Sorted(a + b)
  {
    var c := a + b;
    forall i, j | 0 <= i < j < |c| ensures Below(c[i], c[j]) {
      if j < |a| {
        assert Below(a[i], a[j]);
      } else if i < |a| {
        assert c[i] in a && c[j] in b;
      } else {
        assert Below(b[i - |a|], b[j - |a|]);
      }
    }
  }

  /** Growing the last segment keeps the order. */
  lemma SortedGrow(u: seq<Seg>, v: seq<Seg>)
    requires Sorted(u) && |v| == |u|
    requires forall i :: 0 <= i < |u| ==> v[i].pos == u[i].pos && (i < |u| - 1 ==> v[i] == u[i])
    ensures Sorted(v)
  {
    forall i, j | 0 <= i < j < |v| ensures Below(v[i], v[j]) {
      assert Below(u[i], u[j]);
    }
  }

  lemma WriteInOrder(s: Snd, a: Args, p: Plan, b: Built, o: int, w: seq<byte>)
    requires Planned(s, a, p, o, w) && InOrder(s) && TailNewest(s) && BuildRest(s, a, p) == Some(b)
    ensures InOrder(Commit(s, a, p, b))
  {
    hide Grown, Build, Laid, Core, Sorted, Good, LastLive;
    var v, lo, hi := Grown(s, a, p), s.lbb + p.Bytes(), s.lbb + |a.data|;
    Opened(s, o, w);
    LaidNone(lo, o, w + a.data);
    BuildLaid(s, a, MssLocal(s), p.Bytes(), Built([], s.queuelen + p.NewBufs(), p.oversize), p.mem, lo, o, w);
    GrownInOrder(s, a, p, o, w, v);
    LaidInOrder(b.queue, lo, hi, o, w + a.data, s.lastack);
    SortedConcat(s.unacked + v, b.queue, lo);
    LastConcat(s.unacked + v, b.queue, s.lastack);
    assert Commit(s, a, p, b).All() == s.unacked + v + b.queue;
  }

  lemma LastConcat(a: seq<Seg>, b: seq<Seg>, lastack: int)
    requires LastLive(a, lastack) && LastLive(b, lastack)
    ensures LastLive(a + b, lastack)
  {
  }

  lemma Opened(s: Snd, o: int, w: seq<byte>)
    requires Core(s, o, w) && s.open
    ensures s.lbb == o + |w| && s.lastack <= s.lbb
  {
  }

  lemma LaidInOrder(u: seq<Seg>, lo: int, hi: int, o: int, w: seq<byte>, lastack: int)
    requires Laid(u, lo, hi, o, w) && lastack <= lo
    ensures Sorted(u) && LastLive(u, lastack) && forall q :: q in u ==> lo <= q.pos
  {
    if u != [] {
      var l := u[|u| - 1];
      assert l in u && Good(l, true, o, w);
    }
  }

  lemma GrownInOrder(s: Snd, a: Args, p: Plan, o: int, w: seq<byte>, v: seq<Seg>)
    requires Planned(s, a, p, o, w) && InOrder(s) && TailNewest(s) && v == Grown(s, a, p)
    ensures Sorted(s.unacked + v) && LastLive(s.unacked + v, s.lastack)
    ensures forall q :: q in s.unacked + v ==> q.End() <= s.lbb + p.Bytes()
  {
    GrownEnds(s, a, p, o, w, v);
    GrownShape(s, a, p);
    GrownLonger(s, a, p);
    hide Grown, Core, Planned, TailNewest;
    SortedGrow(s.All(), s.unacked + v);
    hide Sorted;
    if v != [] {
      assert (s.unacked + v)[|s.unacked + v| - 1] == v[|v| - 1] && s.All()[|s.All()| - 1] == s.unsent[|v| - 1];
    }
  }

  lemma GrownEnds(s: Snd, a: Args, p: Plan, o: int, w: seq<byte>, v: seq<Seg>)
    requires Planned(s, a, p, o, w) && TailNewest(s) && v == Grown(s, a, p)
    ensures forall q :: q in s.unacked + v ==> q.End() <= s.lbb + p.Bytes()
  {
    GrownGoods(s, a, p, o, w);
    hide Grown, Core, Good;
    forall q | q in s.unacked ensures q.End() <= s.lbb {
      EndsInside(q, s, o, w);
    }
  }

  lemma GrownLonger(s: Snd, a: Args, p: Plan)
    requires Sane(s) && p.Bytes() <= |a.data|
    ensures forall i :: 0 <= i < |s.unsent| ==> Grown(s, a, p)[i].End() >= s.unsent[i].End()
  {
  }

  lemma FinInOrder(s: Snd, o: int, w: seq<byte>, mem: nat)
    requires Inv(s, o, w) && s.open && InOrder(s)
    ensures InOrder(SendFin(s, mem).1)
  {
    var t := SendFin(s, mem).1;
    if s.unsent == [] {
      var q := Seg(s.lbb, [], true, [0], 0, false);
      forall g | g in s.All() ensures g.End() <= s.lbb {
        EndsInside(g, s, o, w);
      }
      SortedConcat(s.All(), [q], s.lbb);
      assert mem >= 2 ==> t.All() == s.All() + [q];
    } else {
      OpenLast(s, o, w);
      PiggybackInOrder(s, t);
    }
  }

  lemma PiggybackInOrder(s: Snd, t: Snd)
    requires s.unsent != [] && !s.unsent[|s.unsent| - 1].fin && InOrder(s)
    requires t == s.(unsent := s.unsent[|s.unsent| - 1 := s.unsent[|s.unsent| - 1].(fin := true)], open := false)
    ensures InOrder(t)
  {
    SortedGrow(s.All(), t.All());
    hide Sorted;
    var l := s.unsent[|s.unsent| - 1];
    assert t.All()[|t.All()| - 1] == l.(fin := true) && s.All()[|s.All()| - 1] == l;
  }

  lemma SendHeadInOrder(s: Snd)
    requires InOrder(s) && s.unsent != []
    ensures SendHead(s).All() == s.All()
  {
    var u, h := s.unacked, s.unsent[0];
    if u != [] {
      var n := |u| - 1;
      assert s.All()[n] == u[n] && s.All()[n + 1] == h;
      assert Below(s.All()[n], s.All()[n + 1]);
    }
  }

  lemma {:induction false} SendLoopInOrder(s: Snd, wnd: nat, fast: bool, n: nat)
    requires InOrder(s)
    ensures InOrder(SendLoop(s, wnd, fast, n).1)
    decreases |s.unsent|
  {
    if s.unsent != [] && InWindow(s, wnd) && MaySend(s, fast) && n > 0 {
      SendHeadInOrder(s);
      SendLoopInOrder(SendHead(s), wnd, fast, n - 1);
    }
  }

  lemma SortedWithout(u: seq<Seg>, i: nat, n: nat, j: nat)
    requires Sorted(u) && i <= n <= j <= |u|
    ensures Sorted(u[i..n] + u[j..])
  {
    var v := u[i..n] + u[j..];
    var k := n - i;
    assert forall x :: 0 <= x < |v| ==> v[x] == u[if x < k then x + i else x - k + j];
    forall x, y | 0 <= x < y < |v| ensures Below(v[x], v[y]) {
      assert Below(u[if x < k then x + i else x - k + j], u[if y < k then y + i else y - k + j]);
    }
  }

  lemma AckLive(u: seq<Seg>, ack: int)
    requires Sorted(u)
    ensures LastLive(u[Acked(u, ack)..], ack)
  {
    var k := Acked(u, ack);
    assert k < |u| - 1 ==> Below(u[k], u[|u| - 1]);
  }

  lemma AckInOrder(s: Snd, d: int)
    requires InOrder(s)
    ensures InOrder(Ack(s, d).0)
  {
    hide Acked, Sorted, LastLive, Bytes, Bufs;
    if 0 < d <= s.nxt - s.lastack {
      var ack := s.lastack + d;
      var i, j := Acked(s.unacked, ack), Acked(s.unsent, ack);
      AckBoth(s.unacked, s.unsent, ack, i, j);
      assert Ack(s, d).0.All() == s.unacked[i..] + s.unsent[j..];
    }
  }

  lemma SortedHalves(a: seq<Seg>, b: seq<Seg>)
    requires Sorted(a + b)
    ensures Sorted(a) && Sorted(b)
  {
    var u := a + b;
    forall x, y | 0 <= x < y < |a| ensures Below(a[x], a[y]) {
      assert Below(u[x], u[y]);
    }
    forall x, y | 0 <= x < y < |b| ensures Below(b[x], b[y]) {
      assert Below(u[x + |a|], u[y + |a|]);
    }
  }

  lemma AckBoth(a: seq<Seg>, b: seq<Seg>, ack: int, i: nat, j: nat)
    requires Sorted(a + b) && i == Acked(a, ack) && j == Acked(b, ack)
    ensures Sorted(a[i..] + b[j..]) && LastLive(a[i..] + b[j..], ack)
  {
    hide Sorted, Acked;
    var u, n := a + b, |a|;
    SortedHalves(a, b);
    SortedWithout(u, i, n, n + j);
    assert u[i..n] == a[i..] && u[n + j..] == b[j..];
    AckLive(a, ack);
    AckLive(b, ack);
  }

  lemma SplitInOrder(s: Snd, split: nat, mem: nat)
    requires InOrder(s) && Safe(s, DoSplit(split, mem))
    ensures InOrder(Split(s, split, mem).1)
  {
    var t := Split(s, split, mem).1;
    if Splits(s, split) && mem >= 2 {
      hide Trim;
      SplitSorted(s.All(), t.All(), |s.unacked|);
      assert |s.unsent| > 1 ==> t.All()[|t.All()| - 1] == s.All()[|s.All()| - 1];
    }
  }

  lemma SplitSorted(u: seq<Seg>, v: seq<Seg>, n: nat)
    requires Sorted(u) && n < |u| && |v| == |u| + 1 && (forall x :: 0 <= x < n ==> v[x] == u[x])
    requires forall x :: n + 2 <= x < |v| ==> v[x] == u[x - 1]
    requires v[n].pos == u[n].pos && Below(v[n], v[n + 1]) && v[n].End() <= u[n].End() == v[n + 1].End()
             && u[n].pos <= v[n + 1].pos
    ensures Sorted(v)
  {
    forall x, y | 0 <= x < y < |v| ensures Below(v[x], v[y]) {
      if y < n {
        assert Below(u[x], u[y]);
      } else if x < n && y <= n + 1 {
        assert Below(u[x], u[n]);
      } else if y > n + 1 {
        assert Below(u[if x < n then x else if x <= n + 1 then n else x - 1], u[y - 1]);
      }
    }
  }

  // ----- runs that retransmit at once ---------------------------------------------------------

  lemma StepInOrder(s: Snd, e: Event, o: int, w: seq<byte>)
    requires Inv(s, o, w) && InOrder(s) && !e.DoFastRexmit? && (e.DoSplit? ==> Safe(s, e))
    ensures Safe(s, e) && InOrder(Step(s, e))
  {
    SaneInv(s, o, w);
    if s.open {
      InOrderNewest(s, o, w);
    }
    hide Inv, InOrder, SendFin, Output, Ack, Split, Write;
    match e
    case DoWrite(a) => WroteInOrder(s, a, o, w);
    case DoClose(mem) =>
      if s.open {
        FinInOrder(s, o, w, mem);
      }
    case DoOutput(wnd, fast, ackNow, n) => OutputInOrder(s, wnd, fast, ackNow, n);
    case DoSplit(split, mem) => SplitInOrder(s, split, mem);
    case DoAck(d) => AckInOrder(s, d);
    case DoProbe(mem) => RestInOrder(s, Probe(s, mem));
    case DoTimeout(busy) => RestInOrder(s, RtoPrepare(s, busy));
    case DoWindow(wnd) => RestInOrder(s, Window(s, wnd));
  }

  /** Only the lists and lastack matter. */
  lemma RestInOrder(s: Snd, t: Snd)
    requires InOrder(s) && t.lastack == s.lastack
    requires t.unacked + t.unsent == s.unacked + s.unsent
    ensures InOrder(t)
  {
  }

  lemma OutputInOrder(s: Snd, wnd: nat, fast: bool, ackNow: bool, n: nat)
    requires InOrder(s)
    ensures InOrder(Output(s, wnd, fast, ackNow, n).1)
  {
    hide InOrder, SendLoop;
    RestInOrder(s, s.(memerr := false));
    SendLoopInOrder(s, wnd, fast, n);
  }

  lemma WroteInOrder(s: Snd, a: Args, o: int, w: seq<byte>)
    requires Inv(s, o, w) && Sane(s) && InOrder(s) && (s.open ==> TailNewest(s))
    ensures InOrder(Write(s, a).1)
  {
    hide Inv, InOrder, PlanTail, BuildRest, Commit;
    RestInOrder(s, s.(memerr := true));
    if Write(s, a).0 == OK {
      var p := PlanTail(s, a).value;
      PlannedWrite(s, a, o, w);
      WriteInOrder(s, a, p, BuildRest(s, a, p).value, o, w);
    }
  }

  lemma PlannedWrite(s: Snd, a: Args, o: int, w: seq<byte>)
    requires Inv(s, o, w) && Sane(s) && s.open && PlanTail(s, a).Some?
    ensures Planned(s, a, PlanTail(s, a).value, o, w)
  {
  }

  /** A fast retransmission followed by an output that sends at least the first segment. */
  predicate Prompt(s: Snd, es: seq<Event>)
  {
    && |es| >= 2 && es[0].DoFastRexmit? && es[1].DoOutput? && s.unacked != [] && !es[0].busy && es[1].n > 0
    && var t := Rexmit(s, false); t.unsent != [] && InWindow(t, es[1].wnd) && MaySend(t, es[1].fast)
  }

  /** Sending the retransmitted segment puts everything back where it was. */
  lemma SentAgain(s: Snd, o: int, w: seq<byte>)
    requires Inv(s, o, w) && InOrder(s) && s.unacked != []
    ensures var t := Rexmit(s, false);
            t.unsent != [] && SendHead(t) == s.(nxt := Max(s.nxt, s.unacked[0].End()), oversize := t.oversize)
  {
    var u, h := s.All(), s.unacked[0];
    assert Good(h, s.open, o, w);
    forall i | 0 < i < |u| ensures h.pos < u[i].pos {
      assert Below(u[0], u[i]);
    }
    forall q | q in s.unsent ensures h.pos < q.pos {
      var i :| 0 <= i < |s.unsent| && s.unsent[i] == q;
      assert u[|s.unacked| + i] == q;
    }
    forall i | 0 < i < |s.unacked| ensures h.pos < s.unacked[i].pos {
      assert u[i] == s.unacked[i];
    }
    FirstPlace(s.unsent, h);
    FirstPlace(s.unacked[1..], h);
  }

  lemma FirstPlace(q: seq<Seg>, h: Seg)
    requires forall x :: x in q ==> h.pos < x.pos
    ensures PlaceOf(q, h.pos) == 0 && PutBefore(q, h) == [h] + q && PutUnacked(q, h) == [h] + q
  {
    assert q != [] ==> q[0] in q && q[|q| - 1] in q;
    assert q[..0] + [h] + q[0..] == [h] + q;
  }

  /** A fast retransmission sent at once leaves the queues in order. */
  lemma PromptInOrder(s: Snd, es: seq<Event>, o: int, w: seq<byte>)
    requires Inv(s, o, w) && InOrder(s) && Prompt(s, es)
    ensures InOrder(Step(Step(s, es[0]), es[1]))
  {
    hide Rexmit, SendHead, SendLoop, Output, Inv, InOrder, InWindow, MaySend;
    var t, e := Rexmit(s, false), es[1];
    SentAgain(s, o, w);
    OutputSends(t, e.wnd, e.fast, e.ackNow, e.n);
    RestInOrder(s, SendHead(t));
    SendLoopInOrder(SendHead(t), e.wnd, e.fast, e.n - 1);
    assert Step(s, es[0]) == t && Step(t, e) == Output(t, e.wnd, e.fast, e.ackNow, e.n).1;
  }

  lemma OutputSends(t: Snd, wnd: nat, fast: bool, ackNow: bool, n: nat)
    requires t.unsent != [] && InWindow(t, wnd) && MaySend(t, fast) && n > 0
    ensures Output(t, wnd, fast, ackNow, n) == SendLoop(SendHead(t), wnd, fast, n - 1)
  {
  }

  /** Every fast retransmission is sent at once, and no segment with FIN is split. */
  ghost predicate Orderly(s: Snd, es: seq<Event>)
    decreases |es|
  {
    || es == []
    || (|es| >= 2 && Prompt(s, es) && Orderly(Step(Step(s, es[0]), es[1]), es[2..]))
    || (!es[0].DoFastRexmit? && (es[0].DoSplit? ==> Safe(s, es[0])) && Orderly(Step(s, es[0]), es[1..]))
  }

  /** Such runs are safe whatever is written and closed, so the queues stay exact. */
  lemma {:induction false} OrderlyIsSafe(s: Snd, es: seq<Event>, o: int, w: seq<byte>)
    requires Inv(s, o, w) && InOrder(s) && Orderly(s, es)
    ensures SafeRun(s, es) && InOrder(Run(s, es)) && Inv(Run(s, es), o, w + Written(s, es))
    decreases |es|
  {
    hide Inv, Step, InOrder, Wrote, Prompt;
    if es == [] {
      assert w + [] == w;
    } else if |es| >= 2 && Prompt(s, es) && Orderly(Step(Step(s, es[0]), es[1]), es[2..]) {
      PromptSteps(s, es, o, w);
      var t := Step(s, es[0]);
      assert es[1..][1..] == es[2..] && es[1..][0] == es[1];
      OrderlyIsSafe(Step(t, es[1]), es[2..], o, w);
      assert SafeRun(t, es[1..]) && Run(t, es[1..]) == Run(Step(t, es[1]), es[2..]);
      assert Written(t, es[1..]) == Written(Step(t, es[1]), es[2..]);
    } else {
      StepInOrder(s, es[0], o, w);
      StepKeeps(s, es[0], o, w);
      OrderlyIsSafe(Step(s, es[0]), es[1..], o, w + Wrote(s, es[0]));
      assert w + Wrote(s, es[0]) + Written(Step(s, es[0]), es[1..])
          == w + (Wrote(s, es[0]) + Written(Step(s, es[0]), es[1..]));
    }
  }

  lemma PromptSteps(s: Snd, es: seq<Event>, o: int, w: seq<byte>)
    requires Inv(s, o, w) && InOrder(s) && Prompt(s, es)
    ensures |es| >= 2 && Safe(s, es[0]) && Safe(Step(s, es[0]), es[1])
    ensures Wrote(s, es[0]) == [] && Wrote(Step(s, es[0]), es[1]) == []
    ensures var u := Step(Step(s, es[0]), es[1]); Inv(u, o, w) && InOrder(u)
  {
    PromptInOrder(s, es, o, w);
    hide Inv, Step, InOrder;
    StepKeeps(s, es[0], o, w);
    assert w + [] == w;
    StepKeeps(Step(s, es[0]), es[1], o, w);
  }
}
