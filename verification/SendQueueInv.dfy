/** The invariant of the send queues: which sequence numbers are queued, how often,
    and with which bytes; the accounting of buffer space and pbufs. */
module SendQueueInv {
  import opened Seq32
  import opened SendQueue

  // ----- counting --------------------------------------------------------------------------

  function In(q: Seg, x: int): nat { if q.pos <= x < q.End() then 1 else 0 }

  /** How many segments of q hold sequence number x. */
  ghost function Count(q: seq<Seg>, x: int): nat
  {
    if q == [] then 0 else In(q[0], x) + Count(q[1..], x)
  }

  ghost function Fins(q: seq<Seg>): nat
  {
    if q == [] then 0 else (if q[0].fin then 1 else 0) + Fins(q[1..])
  }

  ghost function Times(a: seq<Seg>, b: seq<Seg>, x: int): nat { Count(a, x) + Count(b, x) }

  lemma {:induction false} CountConcat(a: seq<Seg>, b: seq<Seg>, x: int)
    ensures Count(a + b, x) == Count(a, x) + Count(b, x)
  {
    if a == [] {
      assert a + b == b;
    } else {
      assert (a + b)[1..] == a[1..] + b;
      CountConcat(a[1..], b, x);
    }
  }

  lemma {:induction false} SumsConcat(a: seq<Seg>, b: seq<Seg>)
    ensures Bytes(a + b) == Bytes(a) + Bytes(b)
    ensures Bufs(a + b) == Bufs(a) + Bufs(b)
    ensures Fins(a + b) == Fins(a) + Fins(b)
  {
    if a == [] {
      assert a + b == b;
    } else {
      assert (a + b)[1..] == a[1..] + b;
      SumsConcat(a[1..], b);
    }
  }

  lemma One(q: Seg, x: int)
    ensures Count([q], x) == In(q, x) && Bytes([q]) == |q.data| && Bufs([q]) == |q.pieces|
    ensures Fins([q]) == if q.fin then 1 else 0
  {
    assert [q][1..] == [];
  }

  /** A queue is its first k segments and the rest. */
  lemma Cut(q: seq<Seg>, k: nat, x: int)
    requires k <= |q|
    ensures Count(q, x) == Count(q[..k], x) + Count(q[k..], x)
    ensures Bytes(q) == Bytes(q[..k]) + Bytes(q[k..]) && Bufs(q) == Bufs(q[..k]) + Bufs(q[k..])
    ensures Fins(q) == Fins(q[..k]) + Fins(q[k..])
  {
    assert q == q[..k] + q[k..];
    CountConcat(q[..k], q[k..], x);
    SumsConcat(q[..k], q[k..]);
  }

  /** Putting h anywhere into q adds what h holds. */
  lemma PutSums(q: seq<Seg>, k: nat, h: Seg, x: int)
    requires k <= |q|
    ensures var r := q[..k] + [h] + q[k..];
            && Count(r, x) == Count(q, x) + In(h, x)
            && Bytes(r) == Bytes(q) + |h.data| && Bufs(r) == Bufs(q) + |h.pieces|
            && Fins(r) == Fins(q) + if h.fin then 1 else 0
  {
    Cut(q, k, x);
    One(h, x);
    CountConcat(q[..k], [h], x);
    CountConcat(q[..k] + [h], q[k..], x);
    SumsConcat(q[..k], [h]);
    SumsConcat(q[..k] + [h], q[k..]);
  }

  lemma HeadSums(q: seq<Seg>, x: int)
    requires q != []
    ensures Count(q, x) == In(q[0], x) + Count(q[1..], x)
    ensures Bytes(q) == |q[0].data| + Bytes(q[1..]) && Bufs(q) == |q[0].pieces| + Bufs(q[1..])
    ensures Fins(q) == (if q[0].fin then 1 else 0) + Fins(q[1..])
  {
  }

  lemma {:induction false} Counted(q: seq<Seg>, i: nat, x: int)
    requires i < |q|
    ensures Count(q, x) >= In(q[i], x)
    ensures Bytes(q) >= |q[i].data| && (q[i].fin ==> Fins(q) >= 1)
  {
    if i > 0 {
      Counted(q[1..], i - 1, x);
    }
  }

  lemma {:induction false} CountedTwice(q: seq<Seg>, i: nat, j: nat, x: int)
    requires i < j < |q|
    ensures Count(q, x) >= In(q[i], x) + In(q[j], x)
  {
    if i > 0 {
      CountedTwice(q[1..], i - 1, j - 1, x);
    } else {
      Counted(q[1..], j - 1, x);
    }
  }

  /** Numbers outside every segment are not counted. */
  lemma {:induction false} Uncounted(q: seq<Seg>, x: int)
    requires forall g :: g in q ==> In(g, x) == 0
    ensures Count(q, x) == 0
  {
    if q != [] {
      Uncounted(q[1..], x);
    }
  }

  lemma {:induction false} Holder(q: seq<Seg>, x: int) returns (i: nat)
    requires Count(q, x) > 0
    ensures i < |q| && In(q[i], x) == 1
  {
    if In(q[0], x) == 1 {
      i := 0;
    } else {
      i := Holder(q[1..], x);
      i := i + 1;
    }
  }

  // ----- the invariant ---------------------------------------------------------------------------

  function Sum(pieces: seq<nat>): nat
  {
    if pieces == [] then 0 else pieces[0] + Sum(pieces[1..])
  }

  /** The segment holds the bytes the application wrote: w, starting at position o. */
  ghost predicate Holds(q: Seg, o: int, w: seq<byte>)
  {
    o <= q.pos && q.Top() <= o + |w| && q.data == w[q.pos - o..q.Top() - o]
  }

  /** Only the first pbuf, which holds the header, may be without payload. */
  predicate Filled(pieces: seq<nat>)
  {
    forall i :: 1 <= i < |pieces| ==> pieces[i] > 0
  }

  ghost predicate Good(q: Seg, open: bool, o: int, w: seq<byte>)
  {
    && Holds(q, o, w) && q.Len() > 0
    && q.pieces != [] && Sum(q.pieces) == |q.data| && Filled(q.pieces)
    && (q.fin ==> !open && q.Top() == o + |w|)
  }

  ghost predicate Goods(u: seq<Seg>, open: bool, o: int, w: seq<byte>)
  {
    forall q :: q in u ==> Good(q, open, o, w)
  }

  /** One past the last sequence number in use: the FIN takes one. */
  function Final(s: Snd, o: int, w: seq<byte>): int { o + |w| + if s.open then 0 else 1 }

  /** No number is queued twice, and every one from lo to hi is queued. */
  ghost predicate Once(a: seq<Seg>, b: seq<Seg>, lo: int, hi: int)
  {
    forall x {:trigger Times(a, b, x)} :: Times(a, b, x) <= 1 && (lo <= x < hi ==> Times(a, b, x) == 1)
  }

  ghost predicate Balanced(s: Snd)
  {
    && 0 <= s.buf && s.buf + Bytes(s.unacked) + Bytes(s.unsent) == TCP_SND_BUF
    && s.queuelen == Bufs(s.unacked) + Bufs(s.unsent)
    && Fins(s.unacked) + Fins(s.unsent) <= (if s.open then 0 else 1)
  }

  predicate Below(a: Seg, b: Seg) { a.End() <= b.pos }

  ghost predicate Sorted(u: seq<Seg>)
  {
    forall i, j {:trigger Below(u[i], u[j])} :: 0 <= i < j < |u| ==> Below(u[i], u[j])
  }

  /** No unacknowledged segment lies below lastack. */
  ghost predicate Alive(u: seq<Seg>, lastack: int)
  {
    forall q :: q in u ==> q.End() >= lastack
  }

  ghost predicate Bounds(s: Snd, o: int, w: seq<byte>)
  {
    && o <= s.lastack <= s.nxt <= Final(s, o, w)
    && 0 < s.mss <= TCP_MSS
    && s.lbb == o + |w| + (if s.open || s.lbb == o + |w| then 0 else 1)
  }

  /** unsent_oversize is space that the last unsent segment really has. */
  ghost predicate TailRoom(s: Snd)
  {
    s.oversize <= if s.unsent == [] then 0 else s.unsent[|s.unsent| - 1].room
  }

  const SPREAD: int := 0x1_0000

  predicate Close(a: Seg, b: Seg) { a.End() <= b.pos + SPREAD }

  /** A segment is never far behind those in front of it. This is what keeps the
      circular comparisons exact. */
  ghost predicate Spread(a: seq<Seg>, u: seq<Seg>, lastack: int)
  {
    && (forall i, j {:trigger Close(u[i], u[j])} :: 0 <= i < j < |u| ==> Close(u[i], u[j]))
    && (forall g, h {:trigger Close(g, h)} :: g in a && h in u ==> Close(g, h))
    && (forall h :: h in u ==> lastack <= h.pos + SPREAD)
  }

  /** The invariant, apart from the spare space in the last segment. */
  ghost predicate Core(s: Snd, o: int, w: seq<byte>)
  {
    && Goods(s.unacked, s.open, o, w) && Goods(s.unsent, s.open, o, w)
    && Once(s.unacked, s.unsent, s.lastack, Final(s, o, w))
    && Balanced(s) && Sorted(s.unacked) && Alive(s.unacked, s.lastack)
    && Bounds(s, o, w) && Spread(s.unacked, s.unsent, s.lastack)
  }

  ghost predicate Inv(s: Snd, o: int, w: seq<byte>)
  {
    Core(s, o, w) && TailRoom(s)
  }

  /** The flag and the spare space do not matter to the rest. */
  lemma CoreSame(s: Snd, t: Snd, o: int, w: seq<byte>)
    requires Core(s, o, w) && t == s.(memerr := t.memerr, oversize := t.oversize)
    ensures Core(t, o, w)
  {
  }

  /** A fresh established connection. */
  function Initial(o: int, mss: int, wndmax: nat): Snd
  {
    Snd([], [], o, o, o, TCP_SND_BUF, 0, 0, true, false, mss, wndmax)
  }

  lemma InitialInv(o: int, mss: int, wndmax: nat)
    requires 0 < mss <= TCP_MSS
    ensures Inv(Initial(o, mss, wndmax), o, [])
  {
  }

  // ----- consequences --------------------------------------------------------------------------------

  /** Nothing is queued from Final on. */
  lemma NoneBeyond(u: seq<Seg>, open: bool, o: int, w: seq<byte>, x: int)
    requires Goods(u, open, o, w) && x >= o + |w| + if open then 0 else 1
    ensures Count(u, x) == 0
  {
    Uncounted(u, x);
  }

  /** Two queued segments never share a number. */
  lemma Disjoint(s: Snd, o: int, w: seq<byte>, i: nat, j: nat)
    requires Core(s, o, w) && i < |s.unacked| && j < |s.unsent|
    ensures Below(s.unacked[i], s.unsent[j]) || Below(s.unsent[j], s.unacked[i])
  {
    var g, h := s.unacked[i], s.unsent[j];
    assert Good(g, s.open, o, w) && Good(h, s.open, o, w);
    var x := Max(g.pos, h.pos);
    Counted(s.unacked, i, x);
    Counted(s.unsent, j, x);
    assert Times(s.unacked, s.unsent, x) <= 1;
  }

  ghost function Area(u: seq<Seg>, lo: int, hi: int): nat
    decreases hi - lo
  {
    if lo >= hi then 0 else Count(u, lo) + Area(u, lo + 1, hi)
  }

  function Overlap(q: Seg, lo: int, hi: int): int { Max(0, Min(q.End(), hi) - Max(q.pos, lo)) }

  lemma {:induction false} AreaHead(u: seq<Seg>, lo: int, hi: int)
    requires u != []
    ensures Area(u, lo, hi) == Overlap(u[0], lo, hi) + Area(u[1..], lo, hi)
    decreases hi - lo
  {
    if lo < hi {
      AreaHead(u, lo + 1, hi);
    }
  }

  lemma {:induction false} AreaBound(u: seq<Seg>, lo: int, hi: int)
    ensures Area(u, lo, hi) <= Bytes(u) + Fins(u)
  {
    if u != [] {
      AreaHead(u, lo, hi);
      AreaBound(u[1..], lo, hi);
    } else {
      AreaNone(lo, hi);
    }
  }

  lemma {:induction false} AreaNone(lo: int, hi: int)
    ensures Area([], lo, hi) == 0
    decreases hi - lo
  {
    if lo < hi {
      AreaNone(lo + 1, hi);
    }
  }

  lemma {:induction false} AreaFull(a: seq<Seg>, b: seq<Seg>, lo: int, hi: int)
    requires lo <= hi && forall x {:trigger Times(a, b, x)} :: lo <= x < hi ==> Times(a, b, x) == 1
    ensures Area(a, lo, hi) + Area(b, lo, hi) == hi - lo
    decreases hi - lo
  {
    if lo < hi {
      assert Times(a, b, lo) == 1;
      AreaFull(a, b, lo + 1, hi);
    }
  }

  /** The unacknowledged stream fits the send buffer. */
  lemma Span(s: Snd, o: int, w: seq<byte>)
    requires Core(s, o, w)
    ensures Final(s, o, w) - s.lastack <= TCP_SND_BUF + 1
  {
    AreaFull(s.unacked, s.unsent, s.lastack, Final(s, o, w));
    AreaBound(s.unacked, s.lastack, Final(s, o, w));
    AreaBound(s.unsent, s.lastack, Final(s, o, w));
  }

  lemma {:induction false} PiecesBound(p: seq<nat>)
    requires forall i :: 0 <= i < |p| ==> p[i] > 0
    ensures |p| <= Sum(p)
  {
    if p != [] {
      PiecesBound(p[1..]);
    }
  }

  lemma {:induction false} BufsBound(u: seq<Seg>, open: bool, o: int, w: seq<byte>)
    requires Goods(u, open, o, w)
    ensures Bufs(u) <= 2 * (Bytes(u) + Fins(u))
  {
    if u != [] {
      assert Good(u[0], open, o, w);
      PiecesBound(u[0].pieces[1..]);
      BufsBound(u[1..], open, o, w);
    }
  }

  /** snd_queuelen never leaves its 16 bits. */
  lemma QueuelenFits(s: Snd, o: int, w: seq<byte>)
    requires Core(s, o, w)
    ensures 0 <= s.queuelen < 0x1_0000
    ensures s.queuelen == 0 <==> s.unacked == [] && s.unsent == []
  {
    BufsBound(s.unacked, s.open, o, w);
    BufsBound(s.unsent, s.open, o, w);
    assert s.unacked != [] ==> Good(s.unacked[0], s.open, o, w);
    assert s.unsent != [] ==> Good(s.unsent[0], s.open, o, w);
  }
}
