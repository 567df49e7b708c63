/** Sending, retransmitting, splitting and acknowledging keep the invariant of the
    send queues. */
module SendQueueOps {
  import opened Seq32
  import opened SendQueue
  import opened SendQueueInv

  // ----- sorted insertion ----------------------------------------------------------------

  lemma SortedPut(u: seq<Seg>, k: nat, h: Seg)
    requires Sorted(u) && k <= |u|
    requires forall i :: 0 <= i < k ==> Below(u[i], h)
    requires forall i :: k <= i < |u| ==> Below(h, u[i])
    ensures Sorted(u[..k] + [h] + u[k..])
  {
    var r := u[..k] + [h] + u[k..];
    assert forall i :: 0 <= i < k ==> r[i] == u[i];
    assert forall i :: k < i < |r| ==> r[i] == u[i - 1];
    forall i, j | 0 <= i < j < |r| ensures Below(r[i], r[j]) {
      if i != k && j != k {
        assert Below(u[if i < k then i else i - 1], u[if j < k then j else j - 1]);
      }
    }
  }

  /** The segment just sent takes its place in the sorted list. */
  lemma PutUnackedSorted(s: Snd, o: int, w: seq<byte>)
    requires Core(s, o, w) && s.unsent != []
    ensures Sorted(PutUnacked(s.unacked, s.unsent[0]))
  {
    var u, h := s.unacked, s.unsent[0];
    assert Good(h, s.open, o, w);
    forall i | 0 <= i < |u| ensures if u[i].pos < h.pos then Below(u[i], h) else Below(h, u[i]) {
      assert Good(u[i], s.open, o, w);
      Disjoint(s, o, w, i, 0);
    }
    if u == [] || h.pos >= u[|u| - 1].pos {
      forall i | 0 <= i < |u| ensures Below(u[i], h) {
        assert i < |u| - 1 ==> Below(u[i], u[|u| - 1]);
      }
      SortedPut(u, |u|, h);
      assert u[..|u|] + [h] + u[|u|..] == u + [h];
    } else {
      var k := PlaceOf(u, h.pos);
      forall i | k <= i < |u| ensures Below(h, u[i]) {
        assert k < i ==> Below(u[k], u[i]);
      }
      SortedPut(u, k, h);
    }
  }

  lemma PutUnackedSums(u: seq<Seg>, h: Seg, x: int)
    ensures var r := PutUnacked(u, h);
            && Count(r, x) == Count(u, x) + In(h, x)
            && Bytes(r) == Bytes(u) + |h.data| && Bufs(r) == Bufs(u) + |h.pieces|
            && Fins(r) == Fins(u) + (if h.fin then 1 else 0)
            && forall q :: q in r <==> q in u || q == h
  {
    var k := if u == [] || h.pos >= u[|u| - 1].pos then |u| else PlaceOf(u, h.pos);
    PutSums(u, k, h, x);
    assert PutUnacked(u, h) == u[..k] + [h] + u[k..];
    assert u == u[..k] + u[k..];
  }

  // ----- tcp_output ------------------------------------------------------------------------

  lemma SendHeadKeeps(s: Snd, o: int, w: seq<byte>, wnd: nat)
    requires Core(s, o, w) && s.unsent != [] && InWindow(s, wnd)
    ensures Core(SendHead(s), o, w)
  {
    var t, h := SendHead(s), s.unsent[0];
    PutUnackedSorted(s, o, w);
    PutUnackedSums(s.unacked, h, 0);
    HeadSums(s.unsent, 0);
    forall x ensures Times(t.unacked, t.unsent, x) == Times(s.unacked, s.unsent, x) {
      PutUnackedSums(s.unacked, h, x);
    }
    assert Good(h, s.open, o, w);
    SendHeadSpread(s, o, w);
  }

  lemma SendHeadSpread(s: Snd, o: int, w: seq<byte>)
    requires Core(s, o, w) && s.unsent != []
    ensures Spread(SendHead(s).unacked, SendHead(s).unsent, s.lastack)
  {
    var t, h := SendHead(s), s.unsent[0];
    PutUnackedSums(s.unacked, h, 0);
    forall i, j | 0 <= i < j < |t.unsent| ensures Close(t.unsent[i], t.unsent[j]) {
      assert Close(s.unsent[i + 1], s.unsent[j + 1]);
    }
    forall g, q | g in t.unacked && q in t.unsent ensures Close(g, q) {
      if g == h {
        var j :| 0 <= j < |t.unsent| && t.unsent[j] == q;
        assert Close(s.unsent[0], s.unsent[j + 1]);
      }
    }
  }

  lemma {:induction false} SendLoopKeeps(s: Snd, o: int, w: seq<byte>, wnd: nat, fast: bool, n: nat)
    requires Core(s, o, w) && (s.unsent != [] ==> TailRoom(s))
    ensures Inv(SendLoop(s, wnd, fast, n).1, o, w)
    decreases |s.unsent|
  {
    hide Core;
    CoreSame(s, s.(memerr := true), o, w);
    CoreSame(s, s.(memerr := false, oversize := if s.unsent == [] then 0 else s.oversize), o, w);
    if s.unsent != [] && InWindow(s, wnd) && MaySend(s, fast) && n > 0 {
      SendHeadKeeps(s, o, w, wnd);
      SendLoopKeeps(SendHead(s), o, w, wnd, fast, n - 1);
    }
  }

  lemma OutputKeeps(s: Snd, o: int, w: seq<byte>, wnd: nat, fast: bool, ackNow: bool, n: nat)
    requires Inv(s, o, w)
    ensures Inv(Output(s, wnd, fast, ackNow, n).1, o, w)
  {
    hide Core;
    CoreSame(s, s.(memerr := false), o, w);
    SendLoopKeeps(s, o, w, wnd, fast, n);
  }

  lemma ProbeKeeps(s: Snd, o: int, w: seq<byte>, mem: nat)
    requires Inv(s, o, w)
    ensures Inv(Probe(s, mem), o, w)
  {
    assert s.unsent != [] ==> Good(s.unsent[0], s.open, o, w);
  }

  // ----- retransmission -----------------------------------------------------------------------

  lemma RtoKeeps(s: Snd, o: int, w: seq<byte>, busy: bool)
    requires Inv(s, o, w)
    ensures Inv(RtoPrepare(s, busy), o, w)
  {
    var t := RtoPrepare(s, busy);
    if s.unacked != [] && !busy {
      SumsConcat(s.unacked, s.unsent);
      RtoSpread(s, o, w);
      RtoOnce(s.unacked, s.unsent, s.lastack, Final(s, o, w));
      hide Good, Count, Spread, Once;
    }
  }

  lemma RtoOnce(a: seq<Seg>, u: seq<Seg>, lo: int, hi: int)
    requires Once(a, u, lo, hi)
    ensures Once([], a + u, lo, hi)
  {
    forall x ensures Times([], a + u, x) == Times(a, u, x) {
      CountConcat(a, u, x);
    }
  }

  /** An unacknowledged segment is close to everything in use. */
  lemma AliveClose(s: Snd, o: int, w: seq<byte>, h: Seg, g: Seg)
    requires Core(s, o, w) && h in s.unacked && (g in s.unacked || g in s.unsent)
    ensures Close(g, h) && s.lastack <= h.pos + SPREAD
  {
    Span(s, o, w);
    assert Good(g, s.open, o, w);
    var i :| 0 <= i < |s.unacked| && s.unacked[i] == h;
    Counted(s.unacked, i, 0);
  }

  lemma RtoSpread(s: Snd, o: int, w: seq<byte>)
    requires Core(s, o, w)
    ensures Spread([], s.unacked + s.unsent, s.lastack)
  {
    var a, u := s.unacked, s.unacked + s.unsent;
    forall i, j | 0 <= i < j < |u| ensures Close(u[i], u[j]) {
      if j < |a| {
        AliveClose(s, o, w, u[j], u[i]);
      } else if i < |a| {
        assert u[i] in a && u[j] in s.unsent;
      } else {
        assert Close(s.unsent[i - |a|], s.unsent[j - |a|]);
      }
    }
    forall h | h in u ensures s.lastack <= h.pos + SPREAD {
      if h in a {
        AliveClose(s, o, w, h, h);
      }
    }
  }

  lemma RexmitKeeps(s: Snd, o: int, w: seq<byte>, busy: bool)
    requires Inv(s, o, w)
    ensures Inv(Rexmit(s, busy), o, w)
  {
    var t := Rexmit(s, busy);
    if s.unacked != [] && !busy {
      var h := s.unacked[0];
      var k := PlaceOf(s.unsent, h.pos);
      forall x ensures Times(t.unacked, t.unsent, x) == Times(s.unacked, s.unsent, x) {
        PutSums(s.unsent, k, h, x);
        HeadSums(s.unacked, x);
      }
      PutSums(s.unsent, k, h, 0);
      HeadSums(s.unacked, 0);
      TailSorted(s.unacked);
      RexmitSpread(s, o, w);
      RexmitGoods(s, o, w);
    }
  }

  lemma RexmitGoods(s: Snd, o: int, w: seq<byte>)
    requires Core(s, o, w) && s.unacked != []
    ensures Goods(PutBefore(s.unsent, s.unacked[0]), s.open, o, w)
  {
    forall q | q in PutBefore(s.unsent, s.unacked[0]) ensures Good(q, s.open, o, w) {
      assert q in s.unsent || q == s.unacked[0];
    }
  }

  lemma TailSorted(u: seq<Seg>)
    requires Sorted(u) && u != []
    ensures Sorted(u[1..])
  {
    forall i, j | 0 <= i < j < |u| - 1 ensures Below(u[1..][i], u[1..][j]) {
      assert Below(u[i + 1], u[j + 1]);
    }
  }

  lemma RexmitSpread(s: Snd, o: int, w: seq<byte>)
    requires Core(s, o, w) && s.unacked != []
    ensures Spread(s.unacked[1..], PutBefore(s.unsent, s.unacked[0]), s.lastack)
  {
    var h := s.unacked[0];
    forall g | g in s.unacked || g in s.unsent ensures Close(g, h) && s.lastack <= h.pos + SPREAD {
      AliveClose(s, o, w, h, g);
    }
    SpreadPut(s.unacked, s.unacked[1..], s.unsent, PlaceOf(s.unsent, h.pos), h, s.lastack);
  }

  lemma SpreadPut(a: seq<Seg>, a': seq<Seg>, u: seq<Seg>, k: nat, h: Seg, lastack: int)
    requires Spread(a, u, lastack) && k <= |u| && h in a && (forall g :: g in a' ==> g in a)
    requires (forall g :: g in a || g in u ==> Close(g, h)) && lastack <= h.pos + SPREAD
    ensures Spread(a', u[..k] + [h] + u[k..], lastack)
  {
    var r := u[..k] + [h] + u[k..];
    assert forall i :: 0 <= i < k ==> r[i] == u[i];
    assert forall i :: k < i < |r| ==> r[i] == u[i - 1];
    forall i, j | 0 <= i < j < |r| ensures Close(r[i], r[j]) {
      if j == k {
        assert u[i] in u;
      } else if i == k {
        assert u[j - 1] in u;
      } else {
        assert Close(u[if i < k then i else i - 1], u[if j < k then j else j - 1]);
      }
    }
    forall q | q in r ensures q == h || q in u {
      var i :| 0 <= i < |r| && r[i] == q;
    }
  }

  // ----- acknowledgement --------------------------------------------------------------------------

  /** Freed segments hold nothing from ack on. */
  lemma AckedGone(q: seq<Seg>, ack: int, x: int)
    ensures Count(q[Acked(q, ack)..], x) <= Count(q, x)
    ensures x >= ack ==> Count(q[Acked(q, ack)..], x) == Count(q, x)
  {
    var k := Acked(q, ack);
    Cut(q, k, x);
    if x >= ack {
      Uncounted(q[..k], x);
    }
  }

  lemma AckOnce(a: seq<Seg>, b: seq<Seg>, lo: int, ack: int, hi: int)
    requires Once(a, b, lo, hi) && lo <= ack
    ensures Once(a[Acked(a, ack)..], b[Acked(b, ack)..], ack, hi)
  {
    var a', b' := a[Acked(a, ack)..], b[Acked(b, ack)..];
    forall x ensures Times(a', b', x) <= 1 && (ack <= x < hi ==> Times(a', b', x) == 1) {
      AckedGone(a, ack, x);
      AckedGone(b, ack, x);
      assert Times(a, b, x) <= 1;
    }
  }

  lemma AckKeeps(s: Snd, o: int, w: seq<byte>, d: int)
    requires Inv(s, o, w)
    ensures Inv(Ack(s, d).0, o, w)
  {
    hide Once, Balanced, Sorted, Alive, Spread, Goods, Bounds, Acked, Bytes, Bufs, TailRoom, Count;
    if 0 < d <= s.nxt - s.lastack {
      var ack := s.lastack + d;
      AckBalanced(s, d);
      AckOnce(s.unacked, s.unsent, s.lastack, ack, Final(s, o, w));
      AckSorted(s.unacked, ack);
      AckTail(s, d, Ack(s, d).0);
      AckNear(s, d, Ack(s, d).0);
      AckParts(s, o, w, d, Ack(s, d).0);
    }
  }

  lemma AckTail(s: Snd, d: int, t: Snd)
    requires TailRoom(s) && 0 < d <= s.nxt - s.lastack && t == Ack(s, d).0
    ensures TailRoom(t)
  {
    hide Acked, Bytes, Bufs;
  }

  lemma AckNear(s: Snd, d: int, t: Snd)
    requires Balanced(s) && Spread(s.unacked, s.unsent, s.lastack) && 0 < d <= s.nxt - s.lastack && t == Ack(s, d).0
    ensures Spread(t.unacked, t.unsent, t.lastack)
  {
    hide Spread, Acked, Bufs, Bytes, Fins;
    var ack := s.lastack + d;
    var k := Acked(s.unsent, ack);
    if k < |s.unsent| {
      Counted(s.unsent, k, 0);
    }
    AckSpread(s.unacked, s.unacked[Acked(s.unacked, ack)..], s.unsent, k, s.lastack, ack);
  }

  lemma AckParts(s: Snd, o: int, w: seq<byte>, d: int, t: Snd)
    requires Core(s, o, w) && 0 < d <= s.nxt - s.lastack && t == Ack(s, d).0
    requires Balanced(t) && Spread(t.unacked, t.unsent, t.lastack)
    requires var ack := s.lastack + d;
             && Once(s.unacked[Acked(s.unacked, ack)..], s.unsent[Acked(s.unsent, ack)..], ack, Final(s, o, w))
             && Sorted(s.unacked[Acked(s.unacked, ack)..]) && Alive(s.unacked[Acked(s.unacked, ack)..], ack)
    ensures Core(t, o, w)
  {
    hide Once, Balanced, Sorted, Alive, Spread, Good, Acked, Bytes, Bufs;
  }

  /** Bytes reported as sent are the bytes freed: the buffer accounting balances. */
  lemma AckBalanced(s: Snd, d: int)
    requires Balanced(s) && 0 < d <= s.nxt - s.lastack
    ensures var (t, acked) := Ack(s, d);
            && Balanced(t) && t.buf == s.buf + acked
            && acked == Bytes(s.unacked) + Bytes(s.unsent) - Bytes(t.unacked) - Bytes(t.unsent)
  {
    FreedSums(s, s.lastack + d);
    hide Acked, Bytes, Bufs, Fins, Freed;
  }

  /** What is freed and what stays add up. */
  lemma FreedSums(s: Snd, ack: int)
    ensures var f, a, u := Freed(s, ack), s.unacked[Acked(s.unacked, ack)..], s.unsent[Acked(s.unsent, ack)..];
            && Bytes(f) + Bytes(a) + Bytes(u) == Bytes(s.unacked) + Bytes(s.unsent)
            && Bufs(f) + Bufs(a) + Bufs(u) == Bufs(s.unacked) + Bufs(s.unsent)
            && Fins(f) + Fins(a) + Fins(u) == Fins(s.unacked) + Fins(s.unsent)
  {
    hide Acked, Bytes, Bufs, Fins, Count;
    var i, j := Acked(s.unacked, ack), Acked(s.unsent, ack);
    Cut(s.unacked, i, 0);
    Cut(s.unsent, j, 0);
    SumsConcat(s.unacked[..i], s.unsent[..j]);
  }

  lemma AckSorted(u: seq<Seg>, ack: int)
    requires Sorted(u)
    ensures Sorted(u[Acked(u, ack)..]) && Alive(u[Acked(u, ack)..], ack)
  {
    var k := Acked(u, ack);
    var v := u[k..];
    forall i, j | 0 <= i < j < |v| ensures Below(v[i], v[j]) {
      assert Below(u[i + k], u[j + k]);
    }
    forall i | 0 <= i < |v| ensures v[i].End() >= ack {
      assert i > 0 ==> Below(v[0], v[i]);
    }
  }

  /** No segment left behind by the ACK is far below it. */
  lemma AckSpread(a: seq<Seg>, a': seq<Seg>, u: seq<Seg>, k: nat, lastack: int, ack: int)
    requires Spread(a, u, lastack) && k <= |u| && (forall g :: g in a' ==> g in a)
    requires k < |u| ==> u[k].End() > ack && u[k].Len() <= SPREAD
    ensures Spread(a', u[k..], ack)
  {
    var v := u[k..];
    forall i, j | 0 <= i < j < |v| ensures Close(v[i], v[j]) {
      assert Close(u[i + k], u[j + k]);
    }
    forall j | 0 <= j < |v| ensures ack <= v[j].pos + SPREAD {
      assert j > 0 ==> Close(v[0], v[j]);
    }
  }

  // ----- tcp_split_unsent_seg -----------------------------------------------------------------------

  lemma {:induction false} TrimFacts(p: seq<nat>, n: nat)
    requires 0 < n <= Sum(p)
    ensures Trim(p, n) != [] && Sum(Trim(p, n)) == n
    ensures Filled(p) ==> Filled(Trim(p, n))
    ensures (forall i :: 0 <= i < |p| ==> p[i] > 0) ==> forall i :: 0 <= i < |Trim(p, n)| ==> Trim(p, n)[i] > 0
  {
    if n > p[0] {
      TrimFacts(p[1..], n - p[0]);
      assert ([p[0]] + Trim(p[1..], n - p[0]))[1..] == Trim(p[1..], n - p[0]);
    }
  }

  lemma SplitGood(q: Seg, split: nat, open: bool, o: int, w: seq<byte>)
    requires Good(q, open, o, w) && !q.fin && 0 < split < |q.data|
    ensures Good(q.(data := q.data[..split], pieces := Trim(q.pieces, split), room := 0), open, o, w)
    ensures Good(Seg(q.pos + split, q.data[split..], q.fin, [|q.data| - split], 0, false), open, o, w)
  {
    TrimFacts(q.pieces, split);
    var n: nat := |q.data| - split;
    assert Sum([n]) == n + Sum([n][1..]);
    assert q.data[..split] == w[q.pos - o..q.pos + split - o];
    assert q.data[split..] == w[q.pos + split - o..q.Top() - o];
  }

  /** Splitting a segment without FIN keeps every number queued exactly once. */
  lemma SplitKeeps(s: Snd, o: int, w: seq<byte>, split: nat, mem: nat)
    requires Inv(s, o, w) && (Splits(s, split) && mem >= 2 ==> !s.unsent[0].fin)
    ensures Inv(Split(s, split, mem).1, o, w)
  {
    hide Once, Sorted, Alive, Spread, Goods, Trim, Balanced;
    if Splits(s, split) && mem >= 2 {
      var t := Split(s, split, mem).1;
      var q, rest := s.unsent[0], s.unsent[1..];
      var a, b := t.unsent[0], t.unsent[1];
      SplitGoods(s, split, o, w, q, a, b, rest, t.unsent);
      SplitBalanced(s, t, q, a, b, rest);
      SplitOnce(s.unacked, s.unsent, t.unsent, q, a, b, rest, s.lastack, Final(s, o, w));
      SplitSpread(s.unacked, s.unsent, t.unsent, s.lastack, q, a, b, rest);
      assert Bounds(t, o, w) && TailRoom(t);
      hide Bounds, TailRoom;
    }
  }

  lemma SplitGoods(s: Snd, split: nat, o: int, w: seq<byte>, q: Seg, a: Seg, b: Seg, rest: seq<Seg>, v: seq<Seg>)
    requires Goods(s.unsent, s.open, o, w) && s.unsent == [q] + rest && v == [a, b] + rest && !q.fin
             && 0 < split < |q.data|
    requires a == q.(data := q.data[..split], pieces := Trim(q.pieces, split), room := 0)
    requires b == Seg(q.pos + split, q.data[split..], q.fin, [|q.data| - split], 0, false)
    ensures Goods(v, s.open, o, w)
  {
    assert q in s.unsent;
    SplitGood(q, split, s.open, o, w);
    hide Good, Trim;
    forall g | g in v ensures Good(g, s.open, o, w) {
      assert g == a || g == b || g in s.unsent;
    }
  }

  lemma SplitBalanced(s: Snd, t: Snd, q: Seg, a: Seg, b: Seg, rest: seq<Seg>)
    requires Balanced(s) && s.unsent == [q] + rest && t.unsent == [a, b] + rest && |a.data| + |b.data| == |q.data|
    requires !q.fin && !a.fin && !b.fin && t.unacked == s.unacked && t.buf == s.buf && t.open == s.open
    requires t.queuelen == s.queuelen - |q.pieces| + |a.pieces| + |b.pieces|
    ensures Balanced(t)
  {
    SplitSums(s.unacked, s.unsent, t.unsent, q, a, b, rest);
  }

  lemma SplitSums(c: seq<Seg>, u: seq<Seg>, v: seq<Seg>, q: Seg, a: Seg, b: Seg, rest: seq<Seg>)
    requires u == [q] + rest && v == [a, b] + rest && !q.fin && !a.fin && !b.fin && |a.data| + |b.data| == |q.data|
    ensures Bytes(v) == Bytes(u) && Fins(v) == Fins(u) && Bufs(v) == Bufs(u) - |q.pieces| + |a.pieces| + |b.pieces|
  {
    assert v[1..] == [b] + rest && ([b] + rest)[1..] == rest && u[1..] == rest;
    HeadSums(v, 0);
    HeadSums([b] + rest, 0);
    HeadSums(u, 0);
  }

  lemma SplitOnce(c: seq<Seg>, u: seq<Seg>, v: seq<Seg>, q: Seg, a: Seg, b: Seg, rest: seq<Seg>, lo: int, hi: int)
    requires Once(c, u, lo, hi) && u == [q] + rest && v == [a, b] + rest
    requires a.pos == q.pos && b.pos == a.End() && b.End() == q.End()
    ensures Once(c, v, lo, hi)
  {
    assert v[1..] == [b] + rest && ([b] + rest)[1..] == rest && u[1..] == rest;
    forall x ensures Times(c, v, x) == Times(c, u, x) {
      HeadSums(v, x);
      HeadSums([b] + rest, x);
      HeadSums(u, x);
    }
  }

  lemma SplitSpread(c: seq<Seg>, u: seq<Seg>, v: seq<Seg>, lastack: int, q: Seg, a: Seg, b: Seg, rest: seq<Seg>)
    requires Spread(c, u, lastack) && u == [q] + rest && v == [a, b] + rest
    requires a.pos == q.pos <= b.pos == a.End() && b.End() == q.End()
    ensures Spread(c, v, lastack)
  {
    assert forall i :: 2 <= i < |v| ==> v[i] == u[i - 1];
    forall i, j | 0 <= i < j < |v| ensures Close(v[i], v[j]) {
      assert j >= 2 ==> i >= 2 ==> Close(u[i - 1], u[j - 1]);
      assert j >= 2 ==> Close(u[0], u[j - 1]);
    }
    forall g, h | g in c && h in v ensures Close(g, h) {
      assert q in u && Close(g, q);
      assert h == a || h == b || h in u;
    }
    forall h | h in v ensures lastack <= h.pos + SPREAD {
      assert q in u;
      assert h == a || h == b || h in u;
    }
  }

  /** Splitting a segment with FIN leaves the FIN on both halves: the head then claims
      the first number of the rest. */
  lemma SplitFinTwice(s: Snd, o: int, w: seq<byte>, split: nat, mem: nat)
    requires Inv(s, o, w) && Splits(s, split) && s.unsent[0].fin && mem >= 2
    ensures var t := Split(s, split, mem).1;
            Times(t.unacked, t.unsent, s.unsent[0].pos + split) >= 2
  {
    var t := Split(s, split, mem).1;
    CountedTwice(t.unsent, 0, 1, s.unsent[0].pos + split);
  }
}
