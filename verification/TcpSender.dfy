/** The send side as the code has it: a control block whose queues are changed step by
    step, and whose every decision about order is made on 32-bit sequence numbers with
    circular comparisons. The fields hold unbounded positions; the code only ever looks
    at their 32-bit values. Every method is proved to compute the corresponding function
    of `SendQueue` (src/lwip/src/core/tcp_out.c, and the ACK part of tcp_in.c). */
module TcpSender {
  import opened Seq32
  import opened SendQueue
  import opened SendQueueInv
  import opened SendQueueOps
  import opened SendQueueWrite
  import opened SendQueueRuns
  import opened TcpMemory

  /** The largest window that can be announced: 16 bits scaled by at most 14. */
  const MAX_WND: int := 0xffff * 0x4000

  // ----- the circular comparisons are exact ------------------------------------------------

  /** Every queued segment is close to lastack. */
  lemma Reach(s: Snd, o: int, w: seq<byte>, q: Seg)
    requires Core(s, o, w) && (q in s.unacked || q in s.unsent)
    ensures s.lastack - 2 * SPREAD <= q.pos <= q.Top() <= q.End() <= s.lastack + SPREAD
    ensures s.lastack <= s.nxt <= s.lastack + SPREAD
  {
    Span(s, o, w);
    assert Good(q, s.open, o, w);
    if q in s.unacked {
      AliveClose(s, o, w, q, q);
    }
  }

  /** The window test on the wire: an unsigned difference, so a segment below lastack is
      taken for one far beyond the window. */
  predicate FitsWindow(q: Seg, lastack: int, wnd: nat)
  {
    Add(Sub(Wire(q.pos), Wire(lastack)), |q.data|) <= wnd
  }

  lemma WindowTest(q: Seg, lastack: int, wnd: nat)
    requires lastack - 2 * SPREAD <= q.Top() <= lastack + SPREAD && wnd <= MAX_WND
    ensures FitsWindow(q, lastack, wnd) <==> lastack <= q.Top() <= lastack + wnd
  {
    var d := q.Top() - lastack;
    WireAdd(q.pos, Wire(lastack));
    WireAdd(q.pos - Wire(lastack), |q.data|);
    WireAdd(q.Top(), Wire(lastack));
    assert Add(Sub(Wire(q.pos), Wire(lastack)), |q.data|) == Sub(Wire(q.Top()), Wire(lastack));
    WireOrder(q.Top(), lastack);
  }

  // ----- list walks -----------------------------------------------------------------------------

  /** The insertion walk of tcp_output and tcp_rexmit. */
  method FindPlace(q: seq<Seg>, h: Seg) returns (k: nat)
    requires forall i :: 0 <= i < |q| ==> -TWO31 < q[i].pos - h.pos < TWO31
    ensures k == PlaceOf(q, h.pos)
  {
    k := 0;
    while k < |q| && SeqLt(Wire(q[k].pos), Wire(h.pos))
      invariant k <= |q| && PlaceOf(q, h.pos) == k + PlaceOf(q[k..], h.pos)
      decreases |q| - k
    {
      WireOrder(q[k].pos, h.pos);
      assert q[k..][1..] == q[k + 1..];
      k := k + 1;
    }
    if k < |q| {
      WireOrder(q[k].pos, h.pos);
    }
  }

  /** pbuf_realloc on the lengths of a chain. */
  method ReallocPieces(pieces: seq<nat>, n: nat) returns (r: seq<nat>)
    ensures r == Trim(pieces, n)
  {
    var rem := n;
    var k := 0;
    while k < |pieces| && rem > pieces[k]
      invariant k <= |pieces| && 0 <= rem && Trim(pieces, n) == pieces[..k] + Trim(pieces[k..], rem)
      decreases |pieces| - k
    {
      assert pieces[k..][1..] == pieces[k + 1..];
      assert pieces[..k] + [pieces[k]] == pieces[..k + 1];
      rem := rem - pieces[k];
      k := k + 1;
    }
    if k == |pieces| {
      return pieces;
    }
    r := pieces[..k] + [rem];
  }

  /** A segment just sent goes to the tail of unacked, or before the tail if it was
      sent again. */
  method PlaceSent(q: seq<Seg>, h: Seg) returns (r: seq<Seg>)
    requires forall i :: 0 <= i < |q| ==> -TWO31 < q[i].pos - h.pos < TWO31
    ensures r == PutUnacked(q, h)
  {
    if q == [] {
      return [h];
    }
    WireOrder(h.pos, q[|q| - 1].pos);
    if SeqLt(Wire(h.pos), Wire(q[|q| - 1].pos)) {
      var k := FindPlace(q, h);
      r := q[..k] + [h] + q[k..];
    } else {
      r := q + [h];
    }
  }

  /** tcp_free_acked_segments: the rest of the list, and the pbufs and bytes freed. */
  method FreeAcked(list: seq<Seg>, ackno: u32, ghost ack: int) returns (rest: seq<Seg>, bufs: nat, bytes: nat)
    requires ackno == Wire(ack) && forall i :: 0 <= i < |list| ==> -TWO31 < list[i].End() - ack < TWO31
    ensures var k := Acked(list, ack); rest == list[k..] && bufs == Bufs(list[..k]) && bytes == Bytes(list[..k])
  {
    hide Bufs, Bytes, SeqLeq, Add, Wire;
    rest, bufs, bytes := list, 0, 0;
    ghost var k := 0;
    FreedNone();
    while rest != [] && SeqLeq(Add(Wire(rest[0].pos), rest[0].Len()), ackno)
      invariant k <= |list| && rest == list[k..] && Acked(list, ack) == k + Acked(list[k..], ack)
      invariant bufs == Bufs(list[..k]) && bytes == Bytes(list[..k])
      decreases |rest|
    {
      AckedTest(rest[0], ack);
      assert rest[0] == list[k];
      FreedOne(list, k);
      bufs, bytes := bufs + |rest[0].pieces|, bytes + |rest[0].data|;
      rest := rest[1..];
      k := k + 1;
    }
    if rest != [] {
      AckedTest(rest[0], ack);
    }
  }

  lemma FreedNone()
    ensures Bufs([]) == Bytes([]) == 0
  {
  }

  lemma FreedOne(list: seq<Seg>, k: nat)
    requires k < |list|
    ensures list[k..][1..] == list[k + 1..]
    ensures Bufs(list[..k + 1]) == Bufs(list[..k]) + |list[k].pieces|
            && Bytes(list[..k + 1]) == Bytes(list[..k]) + |list[k].data|
  {
    assert list[..k + 1] == list[..k] + [list[k]];
    SumsConcat(list[..k], [list[k]]);
    One(list[k], 0);
  }

  lemma {:induction false} TrimShorter(pieces: seq<nat>, n: nat)
    ensures |Trim(pieces, n)| <= |pieces|
  {
    if pieces != [] && n > pieces[0] {
      TrimShorter(pieces[1..], n - pieces[0]);
    }
  }

  /** What is left of tcp_write behind its first checks. */
  lemma WriteIs(s: Snd, a: Args)
    requires Sane(s) && WriteChecks(s, |a.data|) == OK && TailFits(s)
    ensures PlanTail(s, a).None? ==> Write(s, a) == (MEM, s.(memerr := true))
    ensures PlanTail(s, a).Some? ==>
      var p := PlanTail(s, a).value;
      Write(s, a) == if p.extend && p.used > 0 then (Asserted, s)
                     else if BuildRest(s, a, p).None? then (MEM, s.(memerr := true))
                     else (OK, Commit(s, a, p, BuildRest(s, a, p).value))
  {
    hide PlanTail, BuildRest, Commit;
  }

  lemma CommitSizes(s: Snd, a: Args, p: Plan, b: Built)
    requires Sane(s) && p.Bytes() <= |a.data|
    ensures |Commit(s, a, p, b).unsent| == |s.unsent| + |b.queue| && Commit(s, a, p, b).queuelen == b.queuelen
  {
  }

  /** Phase 3 goes on from b as it would from the start. */
  ghost predicate Building(s: Snd, a: Args, m: int, off: nat, b: Built, mem: nat, p: Plan)
  {
    && Sane(s) && p.Bytes() <= |a.data| && m == MssLocal(s) && off <= |a.data|
    && Build(s, a, m, off, b, mem) == BuildRest(s, a, p)
  }

  lemma BuildingStarts(s: Snd, a: Args, p: Plan)
    requires Sane(s) && p.Bytes() <= |a.data|
    ensures MssLocal(s) > 0
    ensures Building(s, a, MssLocal(s), p.Bytes(), Built([], s.queuelen + p.NewBufs(), p.oversize), p.mem, p)
  {
  }

  lemma BuildingGoesOn(s: Snd, a: Args, m: int, off: nat, b: Built, mem: nat, p: Plan, q: Seg, ok: bool)
    requires Building(s, a, m, off, b, mem, p) && Sane(s) && p.Bytes() <= |a.data|
    requires off < |a.data| && m > 0 && q == NewSeg(s, a, m, off, b.queue == [])
    requires ok <==> mem > |q.pieces| && b.queuelen + |q.pieces| <= Min(TCP_SND_QUEUELEN, TCP_SNDQUEUELEN_OVERFLOW)
    ensures !ok ==> BuildRest(s, a, p) == None
    ensures ok ==>
      Building(s, a, m, off + |q.data|,
               Built(b.queue + [q], b.queuelen + |q.pieces|, if a.copy then q.room else b.oversize),
               mem - |q.pieces| - 1, p)
  {
    hide BuildRest, MssLocal;
  }

  lemma BuildingDone(s: Snd, a: Args, m: int, b: Built, mem: nat, p: Plan)
    requires Building(s, a, m, |a.data|, b, mem, p) && Sane(s) && p.Bytes() <= |a.data|
    ensures BuildRest(s, a, p) == Some(b)
  {
    hide BuildRest, MssLocal;
  }

  lemma AckedTest(q: Seg, ack: int)
    requires -TWO31 < q.End() - ack < TWO31
    ensures SeqLeq(Add(Wire(q.pos), q.Len()), Wire(ack)) <==> q.End() <= ack
  {
    WireAdd(q.pos, q.Len());
    WireOrder(q.End(), ack);
  }

  class Pcb {
    var unacked: seq<Seg>
    var unsent: seq<Seg>
    var lastack: int
    var snd_nxt: int
    var snd_lbb: int
    var snd_buf: int
    var snd_queuelen: int
    var unsent_oversize: nat
    var open: bool
    var memerr: bool
    var mss: int
    var snd_wnd_max: nat

    ghost function View(): Snd
      reads this
    {
      Snd(unacked, unsent, lastack, snd_nxt, snd_lbb, snd_buf, snd_queuelen, unsent_oversize, open, memerr, mss,
        snd_wnd_max)
    }

    /** The state in which a connection is established. */
    constructor (iss: u32, mss: int, wnd: nat)
      requires 0 < mss <= TCP_MSS
      ensures View() == Initial(iss, mss, wnd) && Inv(View(), iss, [])
    {
      unacked, unsent := [], [];
      lastack, snd_nxt, snd_lbb := iss, iss, iss;
      snd_buf, snd_queuelen, unsent_oversize := TCP_SND_BUF, 0, 0;
      open, memerr := true, false;
      this.mss, snd_wnd_max := mss, wnd;
      new;
      InitialInv(iss, mss, wnd);
    }

    // ----- tcp_write ---------------------------------------------------------------------------

    /** tcp_write: all changes are prepared in local variables and committed at the end.
        If it fails, everything it allocated is given back; if not, it has taken the pbufs
        that snd_queuelen counts and the new segments, and nothing else. */
    method TcpWrite(a: Args, pools: Pools) returns (err: Err)
      requires Sane(View()) && pools.Valid() && pools.budget == a.mem
      modifies this, pools
      ensures (err, View()) == Write(old(View()), a) && pools.Valid()
      ensures err != OK ==> pools.pbufs == old(pools.pbufs) && pools.segs == old(pools.segs)
      ensures err == OK ==> Grew(old(pools.pbufs), pools.pbufs, snd_queuelen - old(snd_queuelen))
      ensures err == OK ==> Grew(old(pools.segs), pools.segs, |unsent| - |old(unsent)|)
    {
      hide PlanTail, BuildRest, Commit, MssLocal, Pools.Valid, Grew;
      err := Checks(|a.data|);
      if err == CONN {
        return;
      }
      if err == MEM {
        memerr := true;
        return;
      }
      var m := SegmentLimit();
      if unsent != [] {
        var space := m - |unsent[|unsent| - 1].data|;
        if space < 0 || unsent_oversize > space {
          return Asserted;
        }
      }
      err := Transact(a, m, pools);
    }

    /** The three phases, and the commit or the error exit. */
    method Transact(a: Args, m: int, pools: Pools) returns (err: Err)
      requires Sane(View()) && pools.Valid() && pools.budget == a.mem
      requires m == MssLocal(View()) && TailFits(View()) && WriteChecks(View(), |a.data|) == OK
      modifies this, pools
      ensures (err, View()) == Write(old(View()), a) && pools.Valid()
      ensures err != OK ==> pools.pbufs == old(pools.pbufs) && pools.segs == old(pools.segs)
      ensures err == OK ==> Grew(old(pools.pbufs), pools.pbufs, snd_queuelen - old(snd_queuelen))
      ensures err == OK ==> Grew(old(pools.segs), pools.segs, |unsent| - |old(unsent)|)
    {
      WriteIs(View(), a);
      hide Write, PlanTail, BuildRest, Commit, MssLocal, TailFits, WriteChecks, Pools.Valid, Grew, Taken, BufIds,
        SegIds;
      ghost var bufs := pools.pbufs;
      var plan, concat := FillLast(a, m, pools);
      if plan.None? {
        memerr := true;
        return MEM;
      }
      if plan.value.extend && plan.value.used > 0 {
        TakenOnly(pools.pbufs, bufs);
        return Asserted;
      }
      err := Finish(a, m, plan.value, concat, pools, bufs);
    }

    /** Phase 3, and the commit or the error exit; bufs is what was in use before. */
    method Finish(a: Args, m: int, p: Plan, concat: seq<nat>, pools: Pools, ghost bufs: multiset<nat>)
      returns (err: Err)
      requires Sane(View()) && m == MssLocal(View()) && p.Bytes() <= |a.data| && pools.Valid() && pools.budget == p.mem
      requires Taken(pools.pbufs, bufs, concat) && |concat| == p.NewBufs()
      modifies this, pools
      ensures pools.Valid() && var r := BuildRest(old(View()), a, p);
        (err, View()) == if r.None? then (MEM, old(View()).(memerr := true))
          else (OK, Commit(old(View()), a, p, r.value))
      ensures err != OK ==> pools.pbufs == bufs && pools.segs == old(pools.segs)
      ensures err == OK ==> Grew(bufs, pools.pbufs, snd_queuelen - old(snd_queuelen))
      ensures err == OK ==> Grew(old(pools.segs), pools.segs, |unsent| - |old(unsent)|)
    {
      hide BuildRest, Commit, MssLocal, Pools.Valid, Grew, Taken, BufIds, SegIds;
      ghost var mid, segs := pools.pbufs, pools.segs;
      var built, queue := BuildQueue(a, m, p, pools);
      TakenMore(pools.pbufs, mid, bufs, concat, BufIds(queue));
      if built.None? {
        memerr := true;
        pools.GiveBack(concat, queue, bufs, segs);
        return MEM;
      }
      CommitSizes(View(), a, p, built.value);
      CommitWrite(a, p, built.value);
      GrewBy(pools.pbufs, bufs, concat + BufIds(queue));
      GrewBy(pools.segs, segs, SegIds(queue));
      err := OK;
    }

    /** tcp_write_checks */
    method Checks(len: nat) returns (err: Err)
      ensures err == WriteChecks(View(), len)
    {
      if !open {
        return CONN;
      }
      if len == 0 {
        return OK;
      }
      if len > snd_buf {
        return MEM;
      }
      if snd_queuelen >= Min(TCP_SND_QUEUELEN, TCP_SNDQUEUELEN_OVERFLOW + 1) {
        return MEM;
      }
      err := OK;
    }

    method SegmentLimit() returns (m: int)
      ensures m == MssLocal(View())
    {
      m := Min(mss, Min(0xffff, snd_wnd_max / 2));
      if m == 0 {
        m := mss;
      }
    }

    /** Phases 1 and 2: how much goes into the last unsent segment. */
    method FillLast(a: Args, m: int, pools: Pools) returns (plan: Option<Plan>, concat: seq<nat>)
      requires m == MssLocal(View()) && TailFits(View()) && pools.Valid() && pools.budget == a.mem
      modifies pools
      ensures plan == PlanTail(View(), a) && pools.Valid()
      ensures plan.None? ==> concat == []
      ensures plan.Some? ==> |concat| == plan.value.NewBufs() && pools.budget == plan.value.mem
      ensures Taken(pools.pbufs, old(pools.pbufs), concat) && pools.segs == old(pools.segs)
      ensures plan.None? ==> pools.pbufs == old(pools.pbufs)
    {
      hide MssLocal, Spare, Pools.Valid;
      concat := [];
      if unsent == [] {
        return Some(Plan(0, 0, false, 0, a.mem)), [];
      }
      var last := unsent[|unsent| - 1];
      var space := m - |last.data|;
      var oversize: int := unsent_oversize;
      var used: nat := 0;
      if oversize > 0 {
        used := Min(space, Min(oversize, |a.data|));
        oversize, space := oversize - used, space - used;
      }
      if used < |a.data| && space > 0 && |last.data| > 0 {
        var cat: nat := Min(space, |a.data| - used);
        if !a.copy && last.rom && a.adjacent {
          return Some(Plan(used, cat, true, oversize, a.mem)), [];
        }
        var p := pools.AllocPbuf();
        if p.None? {
          return None, [];
        }
        if a.copy {
          oversize := Spare(cat, space, a, true, true);
        }
        return Some(Plan(used, cat, false, oversize, a.mem - 1)), [p.value];
      }
      plan := Some(Plan(used, 0, false, oversize, a.mem));
    }

    /** Phase 3: the rest of the data becomes new segments. */
    method BuildQueue(a: Args, m: int, p: Plan, pools: Pools) returns (r: Option<Built>, made: seq<Made>)
      requires Sane(View()) && m == MssLocal(View()) && p.Bytes() <= |a.data| && pools.Valid() && pools.budget == p.mem
      modifies pools
      ensures r == BuildRest(View(), a, p) && pools.Valid()
      ensures Taken(pools.pbufs, old(pools.pbufs), BufIds(made)) && Taken(pools.segs, old(pools.segs), SegIds(made))
      ensures r.Some? ==> |made| == |r.value.queue| && snd_queuelen + p.NewBufs() + |BufIds(made)| == r.value.queuelen
    {
      BuildingStarts(View(), a, p);
      NoIds();
      TakenOnly(pools.pbufs, pools.pbufs);
      TakenOnly(pools.segs, pools.segs);
      hide NewSeg, BuildRest, Building, Pools.Valid, MssLocal, Taken, BufIds, SegIds;
      ghost var bufs, segs := pools.pbufs, pools.segs;
      var pos, b := p.Bytes(), Built([], snd_queuelen + p.NewBufs(), p.oversize);
      made := [];
      while pos < |a.data|
        invariant Underway(a, m, p, pools, pos, b, made, bufs, segs)
        decreases |a.data| - pos
      {
        var ok;
        ok, pos, b, made := NextSegment(a, m, p, pools, pos, b, made, bufs, segs);
        if !ok {
          return None, made;
        }
      }
      BuildingDone(View(), a, m, b, pools.budget, p);
      return Some(b), made;
    }

    /** Phase 3 has queued the segments of b, up to data offset pos, in the blocks of made. */
    ghost predicate Underway(a: Args, m: int, p: Plan, pools: Pools, pos: nat, b: Built, made: seq<Made>,
                             bufs: multiset<nat>, segs: multiset<nat>)
      reads this, pools
    {
      && pos <= |a.data| && pools.Valid() && Building(View(), a, m, pos, b, pools.budget, p)
      && Taken(pools.pbufs, bufs, BufIds(made)) && Taken(pools.segs, segs, SegIds(made))
      && |made| == |b.queue| && snd_queuelen + p.NewBufs() + |BufIds(made)| == b.queuelen
    }

    /** One round of phase 3. */
    method NextSegment(a: Args, m: int, p: Plan, pools: Pools, pos: nat, b: Built, made: seq<Made>,
                       ghost bufs: multiset<nat>, ghost segs: multiset<nat>)
      returns (ok: bool, pos1: nat, b1: Built, made1: seq<Made>)
      requires Sane(View()) && m == MssLocal(View()) > 0 && p.Bytes() <= |a.data|
      requires Underway(a, m, p, pools, pos, b, made, bufs, segs) && pos < |a.data|
      modifies pools
      ensures ok ==> Underway(a, m, p, pools, pos1, b1, made1, bufs, segs) && pos < pos1
      ensures !ok ==> BuildRest(View(), a, p) == None
      ensures pools.Valid() && Taken(pools.pbufs, bufs, BufIds(made1)) && Taken(pools.segs, segs, SegIds(made1))
    {
      hide NewSeg, BuildRest, Building, Pools.Valid, MssLocal, Taken, BufIds, SegIds;
      var seg := MakeSegment(a, m, pos, b.queue == []);
      var queuelen := b.queuelen + |seg.pieces|;
      ghost var mem := pools.budget;
      ok, made1 := pools.AddSegment(made, |seg.pieces|, queuelen > Min(TCP_SND_QUEUELEN, TCP_SNDQUEUELEN_OVERFLOW),
        bufs, segs);
      BuildingGoesOn(View(), a, m, pos, b, mem, p, seg, ok);
      b1 := Built(b.queue + [seg], queuelen, if a.copy then seg.room else b.oversize);
      pos1 := pos + |seg.data|;
    }

    /** One segment of at most m bytes, with its pbufs. */
    method MakeSegment(a: Args, m: int, pos: nat, first: bool) returns (seg: Seg)
      requires pos < |a.data| && m > 0
      ensures seg == NewSeg(View(), a, m, pos, first)
      ensures 1 <= |seg.pieces| <= 2 && 0 < |seg.data| <= |a.data| - pos
    {
      var seglen: nat := Min(|a.data| - pos, m);
      if a.copy {
        var room := Spare(seglen, m, a, first, unsent != [] || unacked != []);
        seg := Seg(snd_lbb + pos, a.data[pos..pos + seglen], false, [seglen], Max(room, 0), false);
      } else {
        seg := Seg(snd_lbb + pos, a.data[pos..pos + seglen], false, [0, seglen], 0, true);
      }
    }

    /** The commit: the last segment's new data, the new segments, and the counters. */
    method CommitWrite(a: Args, p: Plan, b: Built)
      requires Sane(View()) && p.Bytes() <= |a.data|
      modifies this
      ensures View() == Commit(old(View()), a, p, b)
    {
      if unsent != [] {
        var n := |unsent| - 1;
        unsent := unsent[..n] + [GrowLast(unsent[n], a, p)];
      }
      unsent := unsent + b.queue;
      unsent_oversize := Max(b.oversize, 0);
      snd_lbb := snd_lbb + |a.data|;
      snd_buf := snd_buf - |a.data|;
      snd_queuelen := b.queuelen;
    }

    /** tcp_send_fin */
    method TcpSendFin(pools: Pools, ghost o: int, ghost w: seq<byte>) returns (err: Err)
      requires Inv(View(), o, w) && open && pools.Valid()
      modifies this, pools
      ensures (err, View()) == SendFin(old(View()), old(pools.budget)) && pools.Valid()
      ensures Inv(View(), o, w) <==> err != OK || TailNewest(old(View()))
      ensures Grew(old(pools.pbufs), pools.pbufs, snd_queuelen - old(snd_queuelen))
      ensures Grew(old(pools.segs), pools.segs, |unsent| - |old(unsent)|)
    {
      FinOutcome(View(), o, w, pools.budget);
      hide Inv, Pools.Valid, Grew;
      if unsent != [] {
        var n := |unsent| - 1;
        if !unsent[n].fin {
          unsent := unsent[n := unsent[n].(fin := true)];
          open := false;
          GrewNone(pools.pbufs);
          GrewNone(pools.segs);
          return OK;
        }
      }
      err := EnqueueFlags(pools, o, w);
    }

    /** tcp_enqueue_flags for a FIN */
    method EnqueueFlags(pools: Pools, ghost o: int, ghost w: seq<byte>) returns (err: Err)
      requires pools.Valid()
      modifies this, pools
      ensures (err, View()) == EnqueueFin(old(View()), old(pools.budget)) && pools.Valid()
      ensures err == OK ==> unacked == old(unacked) && snd_lbb == old(snd_lbb) + 1
      ensures err == OK ==> unsent != [] && unsent[|unsent| - 1].fin
      ensures old(open) && old(unsent) == [] && Inv(old(View()), o, w) ==> Inv(View(), o, w)
      ensures Grew(old(pools.pbufs), pools.pbufs, snd_queuelen - old(snd_queuelen))
      ensures Grew(old(pools.segs), pools.segs, |unsent| - |old(unsent)|)
    {
      if open && unsent == [] && Inv(View(), o, w) {
        EnqueueKeeps(View(), o, w, pools.budget);
      }
      hide Inv, Pools.Valid, Grew;
      var ok := pools.AllocFlags();
      if !ok {
        memerr := true;
        return MEM;
      }
      AddFin();
      err := OK;
    }

    method AddFin()
      modifies this
      ensures (OK, View()) == EnqueueFin(old(View()), 2)
    {
      unsent := unsent + [Seg(snd_lbb, [], true, [0], 0, false)];
      unsent_oversize := 0;
      snd_lbb := snd_lbb + 1;
      open := false;
      snd_queuelen := snd_queuelen + 1;
    }

    /** tcp_split_unsent_seg. bufs are the pbufs of the head, left what else is in use.
        With memory for the remainder's pbuf but not for its segment, the error exit frees
        a pbuf that tcp_create_segment has freed: `again` names it. */
    method SplitUnsentSeg(split: nat, pools: Pools, bufs: seq<nat>, ghost left: multiset<nat>, ghost o: int,
        ghost w: seq<byte>)
      returns (err: Err, ghost again: Option<nat>)
      requires Inv(View(), o, w) && pools.Valid()
      requires unsent != [] ==> |bufs| == |unsent[0].pieces| && Taken(pools.pbufs, left, bufs)
      modifies this, pools
      ensures (err, View()) == Split(old(View()), split, old(pools.budget)) && pools.Valid()
      ensures Splits(old(View()), split) && old(pools.budget) >= 2 ==> !old(unsent)[0].fin ==> Inv(View(), o, w)
      ensures again.Some? <==> Splits(old(View()), split) && old(pools.budget) == 1
      ensures again.Some? <==> err == FreedTwice
      ensures again.Some? ==> again.value !in old(pools.pbufs) && again.value !in pools.pbufs
      ensures err != OK ==> pools.pbufs == old(pools.pbufs) && pools.segs == old(pools.segs)
      ensures err == OK ==> |pools.pbufs| - |old(pools.pbufs)| == snd_queuelen - old(snd_queuelen)
      ensures err == OK ==> Grew(old(pools.segs), pools.segs, |unsent| - |old(unsent)|)
    {
      if Splits(View(), split) && pools.budget >= 2 ==> !unsent[0].fin {
        SplitKeeps(View(), o, w, split, pools.budget);
      }
      hide Inv, Pools.Valid, Grew, Taken, Trim;
      GrewNone(pools.segs);
      again := None;
      if unsent == [] {
        return MEM, None;
      }
      if split == 0 {
        return VAL, None;
      }
      if |unsent[0].data| <= split {
        return OK, None;
      }
      if split > mss {
        return Asserted, None;
      }
      err, again := SplitWithMemory(split, pools, bufs, left);
    }

    /** The two allocations and the split, or the error exit. */
    method SplitWithMemory(split: nat, pools: Pools, bufs: seq<nat>, ghost left: multiset<nat>)
      returns (err: Err, ghost again: Option<nat>)
      requires Splits(View(), split) && pools.Valid() && |bufs| == |unsent[0].pieces| && Taken(pools.pbufs, left, bufs)
      modifies this, pools
      ensures pools.Valid() && View() == (if old(pools.budget) < 2 then old(View()) else Split(old(View()), split, 2).1)
      ensures err == if old(pools.budget) == 0 then MEM else if old(pools.budget) == 1 then FreedTwice else OK
      ensures again.Some? <==> err == FreedTwice
      ensures again.Some? ==> again.value !in old(pools.pbufs) && again.value !in pools.pbufs
      ensures err != OK ==> pools.pbufs == old(pools.pbufs) && pools.segs == old(pools.segs)
      ensures err == OK ==> |pools.pbufs| - |old(pools.pbufs)| == snd_queuelen - old(snd_queuelen)
      ensures err == OK ==> Grew(old(pools.segs), pools.segs, 1) && |unsent| == |old(unsent)| + 1
    {
      hide Pools.Valid, Grew, Taken, Split;
      again := None;
      var p := pools.AllocPbuf();
      if p.None? {
        return MEM, None;
      }
      ghost var segs := pools.segs;
      var seg := pools.CreateSegment([p.value], old(pools.pbufs));
      if seg.None? {
        again := p;
        return FreedTwice, again;
      }
      ghost var k := |Trim(unsent[0].pieces, split)|;
      TrimShorter(unsent[0].pieces, split);
      TakenCut(pools.pbufs, old(pools.pbufs), left, bufs, k, p.value);
      GrewBy(pools.segs, segs, [seg.value]);
      var cut := SplitHead(split);
      pools.FreePbufs(bufs[cut..], left + multiset(bufs[..cut]) + multiset{p.value});
      err := OK;
    }

    /** The split itself; the head keeps the first `kept` of its pbufs. */
    method SplitHead(split: nat) returns (kept: nat)
      requires Splits(View(), split)
      modifies this
      ensures (OK, View()) == Split(old(View()), split, 2)
      ensures kept == |Trim(old(unsent)[0].pieces, split)| && |unsent| == |old(unsent)| + 1
      ensures snd_queuelen == old(snd_queuelen) - |old(unsent)[0].pieces| + kept + 1
    {
      var useg := unsent[0];
      var remainder: nat := |useg.data| - split;
      var seg := Seg(useg.pos + split, useg.data[split..], useg.fin, [remainder], 0, false);
      snd_queuelen := snd_queuelen - |useg.pieces|;
      var pieces := ReallocPieces(useg.pieces, split);
      useg := useg.(data := useg.data[..split], pieces := pieces, room := 0);
      snd_queuelen := snd_queuelen + |useg.pieces| + |seg.pieces|;
      if |unsent| == 1 {
        unsent_oversize := 0;
      }
      kept := |pieces|;
      unsent := [useg, seg] + unsent[1..];
    }

    // ----- acknowledgement ------------------------------------------------------------------

    /** The ACK part of tcp_receive. */
    method AckReceived(ackno: u32, ghost o: int, ghost w: seq<byte>) returns (acked: nat)
      requires Inv(View(), o, w)
      modifies this
      ensures Inv(View(), o, w)
      ensures (View(), acked) == Ack(old(View()), S32(Sub(ackno, Wire(old(lastack)))))
    {
      hide Inv, Sub, S32, Wire, Ack;
      ghost var s := View();
      ghost var d := S32(Sub(ackno, Wire(lastack)));
      AckKeeps(s, o, w, d);
      var isNew := AcksNew(ackno, o, w, d);
      if !isNew {
        return 0;
      }
      NearAck(s, o, w, lastack + d);
      SameWire(ackno, lastack, d);
      acked := FreeQueues(ackno, lastack + S32(Sub(ackno, Wire(lastack))));
    }

    /** The ACK is above lastack and not above snd_nxt. */
    method AcksNew(ackno: u32, ghost o: int, ghost w: seq<byte>, ghost d: int) returns (yes: bool)
      requires Inv(View(), o, w) && d == S32(Sub(ackno, Wire(lastack)))
      ensures yes <==> 0 < d && lastack + d <= snd_nxt
      ensures !yes ==> Ack(View(), d) == (View(), 0)
    {
      AckDistance(View(), o, w, ackno, d);
      yes := !SeqLeq(ackno, Wire(lastack)) && SeqBetween(ackno, Add(Wire(lastack), 1), Wire(snd_nxt));
    }

    /** Freeing what ackno acknowledges in both queues; ack is the new lastack. */
    method FreeQueues(ackno: u32, ack: int) returns (acked: nat)
      requires ackno == Wire(ack) && lastack < ack <= snd_nxt
      requires forall i :: 0 <= i < |unacked| ==> -TWO31 < unacked[i].End() - ack < TWO31
      requires forall i :: 0 <= i < |unsent| ==> -TWO31 < unsent[i].End() - ack < TWO31
      modifies this
      ensures (View(), acked) == Ack(old(View()), ack - old(lastack))
    {
      hide Acked, Wire, Bytes, Bufs;
      var a, bufsA, bytesA := FreeAcked(unacked, ackno, ack);
      var u, bufsU, bytesU := FreeAcked(unsent, ackno, ack);
      FreedParts(View(), ack);
      lastack, unacked, unsent := ack, a, u;
      snd_queuelen, acked := snd_queuelen - bufsA - bufsU, bytesA + bytesU;
      if u == [] {
        unsent_oversize := 0;
      }
      snd_buf := snd_buf + acked;
    }

    // ----- transmission ---------------------------------------------------------------------------

    /** tcp_output. wnd is the smaller of the announced and the congestion window; the
        driver accepts n segments. */
    method TcpOutput(wnd: nat, fast: bool, ackNow: bool, n: nat, ghost o: int, ghost w: seq<byte>) returns (err: Err)
      requires Inv(View(), o, w) && wnd <= MAX_WND
      modifies this
      ensures Inv(View(), o, w)
      ensures (err, View()) == Output(old(View()), wnd, fast, ackNow, n)
    {
      ghost var s := View();
      OutputKeeps(s, o, w, wnd, fast, ackNow, n);
      var fits := HeadFits(wnd, o, w);
      hide Inv, Core;
      if !fits {
        if !ackNow {
          memerr := false;
        }
        return OK;
      }
      err := SendAll(wnd, fast, n, o, w);
    }

    /** There is a head and the window takes it. */
    method HeadFits(wnd: nat, ghost o: int, ghost w: seq<byte>) returns (yes: bool)
      requires Core(View(), o, w) && wnd <= MAX_WND
      ensures yes <==> unsent != [] && InWindow(View(), wnd)
    {
      if unsent == [] {
        return false;
      }
      Reach(View(), o, w, unsent[0]);
      WindowTest(unsent[0], lastack, wnd);
      yes := FitsWindow(unsent[0], lastack, wnd);
    }

    /** The sending loop. */
    method SendAll(wnd: nat, fast: bool, n0: nat, ghost o: int, ghost w: seq<byte>) returns (err: Err)
      requires Core(View(), o, w) && wnd <= MAX_WND
      modifies this
      ensures (err, View()) == SendLoop(old(View()), wnd, fast, n0)
    {
      hide Core, SendHead, InWindow;
      var n := n0;
      var more := HeadFits(wnd, o, w);
      while more && (unacked == [] || fast || |unsent| > 1 || |unsent[0].data| >= mss || snd_buf == 0
                     || snd_queuelen >= TCP_SND_QUEUELEN || memerr || !open)
        invariant Core(View(), o, w) && (more <==> unsent != [] && InWindow(View(), wnd))
        invariant SendLoop(View(), wnd, fast, n) == SendLoop(old(View()), wnd, fast, n0)
        decreases |unsent|
      {
        if n == 0 {
          memerr := true;
          return MEM;
        }
        SendFirst(wnd, o, w);
        n := n - 1;
        more := HeadFits(wnd, o, w);
      }
      if unsent == [] {
        unsent_oversize := 0;
      }
      memerr := false;
      err := OK;
    }

    /** One segment has been sent: it moves to its place on unacked. */
    method SendFirst(ghost wnd: nat, ghost o: int, ghost w: seq<byte>)
      requires Core(View(), o, w) && unsent != [] && InWindow(View(), wnd)
      modifies this
      ensures View() == SendHead(old(View())) && Core(View(), o, w)
      ensures |unsent| < |old(unsent)|
    {
      ghost var s := View();
      SendHeadKeeps(s, o, w, wnd);
      NearHead(s, o, w);
      hide Core;
      hide PutUnacked;
      var seg := unsent[0];
      if SeqLt(Wire(snd_nxt), Add(Wire(seg.pos), seg.Len())) {
        snd_nxt := seg.End();
      }
      var placed := PlaceSent(unacked, seg);
      unacked, unsent := placed, unsent[1..];
    }

    /** tcp_zero_window_probe */
    method ZeroWindowProbe(mem: nat, ghost o: int, ghost w: seq<byte>)
      requires Inv(View(), o, w)
      modifies this
      ensures View() == Probe(old(View()), mem) && Inv(View(), o, w)
    {
      ProbeKeeps(View(), o, w, mem);
      if unsent == [] || mem == 0 {
        return;
      }
      Reach(View(), o, w, unsent[0]);
      hide Inv, Wire;
      WireAdd(unsent[0].pos, 1);
      WireOrder(snd_nxt, unsent[0].pos + 1);
      if SeqLt(Wire(snd_nxt), Add(Wire(unsent[0].pos), 1)) {
        snd_nxt := unsent[0].pos + 1;
      }
    }

    // ----- retransmission -----------------------------------------------------------------------------

    /** tcp_rexmit_rto_prepare */
    method RexmitRtoPrepare(busy: bool, ghost o: int, ghost w: seq<byte>) returns (err: Err)
      requires Inv(View(), o, w)
      modifies this
      ensures View() == RtoPrepare(old(View()), busy) && Inv(View(), o, w)
      ensures err == OK <==> old(unacked) != [] && !busy
    {
      RtoKeeps(View(), o, w, busy);
      hide Inv;
      if unacked == [] || busy {
        return VAL;
      }
      unsent := unacked + unsent;
      unacked := [];
      err := OK;
    }

    /** tcp_rexmit */
    method TcpRexmit(busy: bool, ghost o: int, ghost w: seq<byte>) returns (err: Err)
      requires Inv(View(), o, w)
      modifies this
      ensures View() == Rexmit(old(View()), busy) && Inv(View(), o, w)
      ensures err == OK <==> old(unacked) != [] && !busy
    {
      hide Inv, PlaceOf;
      RexmitKeeps(View(), o, w, busy);
      if unacked == [] || busy {
        return VAL;
      }
      NearUnacked(View(), o, w);
      var seg := unacked[0];
      var k := FindPlace(unsent, seg);
      if k == |unsent| {
        unsent_oversize := 0;
      }
      unacked, unsent := unacked[1..], unsent[..k] + [seg] + unsent[k..];
      err := OK;
    }
  }

  /** The FIN keeps the queues exact unless it goes onto a segment that is not the newest. */
  lemma FinOutcome(s: Snd, o: int, w: seq<byte>, mem: nat)
    requires Inv(s, o, w) && s.open
    ensures var (err, t) := SendFin(s, mem); Inv(t, o, w) <==> err != OK || TailNewest(s)
  {
    if SendFin(s, mem).0 == OK {
      FinIff(s, o, w, mem);
    } else {
      SameKeeps(s, SendFin(s, mem).1, o, w);
    }
  }

  lemma EnqueueKeeps(s: Snd, o: int, w: seq<byte>, mem: nat)
    requires Inv(s, o, w) && s.open && s.unsent == []
    ensures Inv(EnqueueFin(s, mem).1, o, w)
  {
    hide Inv;
    if mem < 2 {
      SameKeeps(s, EnqueueFin(s, mem).1, o, w);
    } else {
      EnqueueFinKeeps(s, o, w);
    }
  }

  lemma FreedParts(s: Snd, ack: int)
    ensures var a, u := s.unacked[..Acked(s.unacked, ack)], s.unsent[..Acked(s.unsent, ack)];
            Bytes(Freed(s, ack)) == Bytes(a) + Bytes(u) && Bufs(Freed(s, ack)) == Bufs(a) + Bufs(u)
  {
    SumsConcat(s.unacked[..Acked(s.unacked, ack)], s.unsent[..Acked(s.unsent, ack)]);
  }

  /** The comparisons made when the head is sent are exact. */
  lemma NearHead(s: Snd, o: int, w: seq<byte>)
    requires Core(s, o, w) && s.unsent != []
    ensures var h := s.unsent[0];
            && (SeqLt(Wire(s.nxt), Add(Wire(h.pos), h.Len())) <==> s.nxt < h.End())
            && (forall i :: 0 <= i < |s.unacked| ==> -TWO31 < s.unacked[i].pos - h.pos < TWO31)
  {
    var h := s.unsent[0];
    Reach(s, o, w, h);
    WireAdd(h.pos, h.Len());
    WireOrder(s.nxt, h.End());
    forall q | q in s.unacked ensures -TWO31 < q.pos - h.pos < TWO31 {
      Reach(s, o, w, q);
    }
  }

  lemma NearUnacked(s: Snd, o: int, w: seq<byte>)
    requires Inv(s, o, w) && s.unacked != []
    ensures forall i :: 0 <= i < |s.unsent| ==> -TWO31 < s.unsent[i].pos - s.unacked[0].pos < TWO31
  {
    Reach(s, o, w, s.unacked[0]);
    forall q | q in s.unsent ensures -TWO31 < q.pos - s.unacked[0].pos < TWO31 {
      Reach(s, o, w, q);
    }
  }

  /** The tests on an ACK number are those of its distance from lastack. */
  lemma AckDistance(s: Snd, o: int, w: seq<byte>, ackno: u32, d: int)
    requires Inv(s, o, w) && d == S32(Sub(ackno, Wire(s.lastack)))
    ensures ackno == Wire(s.lastack + d)
    ensures SeqLeq(ackno, Wire(s.lastack)) <==> d <= 0
    ensures d > 0 ==> (SeqBetween(ackno, Add(Wire(s.lastack), 1), Wire(s.nxt)) <==> s.lastack + d <= s.nxt)
  {
    Span(s, o, w);
    SameWire(ackno, s.lastack, d);
    WireAdd(s.lastack, 1);
    WireOrder(s.lastack + d, s.lastack);
    if d > 0 {
      WireOrder(s.lastack + d, s.lastack + 1);
      WireOrder(s.lastack + d, s.nxt);
    }
  }

  lemma SameWire(a: u32, y: int, d: int)
    requires d == S32(Sub(a, Wire(y)))
    ensures a == Wire(y + d)
  {
    var q := y / TWO32;
    assert y == TWO32 * q + Wire(y);
    var k := (a - Wire(y)) / TWO32;
    assert a - Wire(y) == TWO32 * k + Sub(a, Wire(y));
    var j := if Sub(a, Wire(y)) < TWO31 then k else k + 1;
    assert a == Wire(y) + TWO32 * j + d;
    assert y + d == TWO32 * (q - j) + a;
    DivUnique(y + d, q - j, a);
  }

  lemma NearAck(s: Snd, o: int, w: seq<byte>, ack: int)
    requires Inv(s, o, w) && s.lastack <= ack <= s.nxt
    ensures forall i :: 0 <= i < |s.unacked| ==> -TWO31 < s.unacked[i].End() - ack < TWO31
    ensures forall i :: 0 <= i < |s.unsent| ==> -TWO31 < s.unsent[i].End() - ack < TWO31
  {
    forall q | q in s.unacked || q in s.unsent ensures -TWO31 < q.End() - ack < TWO31 {
      Reach(s, o, w, q);
    }
  }
}
