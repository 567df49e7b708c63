/** The memory tcp_write takes: pbufs and segments, and how they are given back when it
    fails (src/lwip/src/core/tcp_out.c, tcp_segs_free of tcp.c). */
module TcpMemory {
  import opened SendQueue

  /** A new segment: its struct tcp_seg and its pbufs. */
  datatype Made = Made(seg: nat, bufs: seq<nat>)

  function BufIds(q: seq<Made>): seq<nat>
  {
    if q == [] then [] else q[0].bufs + BufIds(q[1..])
  }

  function SegIds(q: seq<Made>): (r: seq<nat>)
    ensures |r| == |q|
  {
    if q == [] then [] else [q[0].seg] + SegIds(q[1..])
  }

  lemma NoIds()
    ensures BufIds([]) == [] && SegIds([]) == []
  {
  }

  lemma {:induction false} IdsSnoc(q: seq<Made>, x: Made)
    ensures BufIds(q + [x]) == BufIds(q) + x.bufs && SegIds(q + [x]) == SegIds(q) + [x.seg]
  {
    if q == [] {
      assert [x][1..] == [] && q + [x] == [x];
    } else {
      assert (q + [x])[1..] == q[1..] + [x];
      IdsSnoc(q[1..], x);
    }
  }

  /** Exactly the blocks of `before` and those in ids are in use. */
  ghost predicate Taken(now: multiset<nat>, before: multiset<nat>, ids: seq<nat>)
  {
    now == before + multiset(ids)
  }

  /** The memory pools. budget tells how many allocations will succeed; pbufs and segs
      are the blocks in use, and no block is used twice. */
  class Pools {
    var budget: nat
    var next: nat
    ghost var pbufs: multiset<nat>
    ghost var segs: multiset<nat>

    ghost predicate Valid()
      reads this
    {
      && (forall x {:trigger pbufs[x]} :: pbufs[x] <= (if x < next then 1 else 0))
      && (forall x {:trigger segs[x]} :: segs[x] <= (if x < next then 1 else 0))
    }

    /** pbuf_alloc of a single pbuf */
    method AllocPbuf() returns (p: Option<nat>)
      requires Valid()
      modifies this
      ensures Valid() && segs == old(segs) && (p.Some? <==> old(budget) > 0)
      ensures p.None? ==> pbufs == old(pbufs) && budget == 0
      ensures p.Some? ==> p.value !in old(pbufs) && Taken(pbufs, old(pbufs), [p.value]) && budget == old(budget) - 1
    {
      if budget == 0 {
        return None;
      }
      p := Some(next);
      assert next !in pbufs;
      pbufs := pbufs + multiset{next};
      next, budget := next + 1, budget - 1;
    }

    method AllocSeg() returns (s: Option<nat>)
      requires Valid()
      modifies this
      ensures Valid() && pbufs == old(pbufs) && (s.Some? <==> old(budget) > 0)
      ensures s.None? ==> segs == old(segs) && budget == 0
      ensures s.Some? ==> s.value !in old(segs) && Taken(segs, old(segs), [s.value]) && budget == old(budget) - 1
    {
      if budget == 0 {
        return None;
      }
      s := Some(next);
      assert next !in segs;
      segs := segs + multiset{next};
      next, budget := next + 1, budget - 1;
    }

    /** pbuf_free of a chain, which must be in use; left is what stays in use. */
    method FreePbufs(bufs: seq<nat>, ghost left: multiset<nat>)
      requires Valid() && Taken(pbufs, left, bufs)
      modifies this`pbufs
      ensures Valid() && pbufs == left
    {
      hide Valid, Taken;
      var i := 0;
      assert bufs[0..] == bufs;
      while i < |bufs|
        invariant i <= |bufs| && Valid() && Taken(pbufs, left, bufs[i..])
      {
        assert bufs[i..][1..] == bufs[i + 1..];
        TakenFirst(pbufs, left, bufs[i..]);
        FreePbuf(bufs[i], left + multiset(bufs[i + 1..]));
        TakenIs(pbufs, left, bufs[i + 1..]);
        i := i + 1;
      }
      assert bufs[|bufs|..] == [];
      TakenOnly(pbufs, left);
    }

    method FreePbuf(id: nat, ghost left: multiset<nat>)
      requires Valid() && Taken(pbufs, left, [id])
      modifies this`pbufs
      ensures Valid() && pbufs == left
    {
      pbufs := pbufs - multiset{id};
      assert forall x {:trigger pbufs[x]} :: pbufs[x] <= old(pbufs[x]);
    }

    method FreeSeg(id: nat, ghost left: multiset<nat>)
      requires Valid() && Taken(segs, left, [id])
      modifies this`segs
      ensures Valid() && segs == left
    {
      segs := segs - multiset{id};
      assert forall x {:trigger segs[x]} :: segs[x] <= old(segs[x]);
    }

    /** The pbufs of a segment: one for a copy, or one for the data and then one for the
        header in front of it. */
    method AllocChain(n: nat) returns (bufs: seq<nat>)
      requires Valid() && 1 <= n <= 2
      modifies this
      ensures Valid() && segs == old(segs) && |bufs| == (if old(budget) >= n then n else 0)
      ensures Taken(pbufs, old(pbufs), bufs) && (bufs != [] ==> budget == old(budget) - n)
    {
      hide Valid, Taken;
      TakenOnly(pbufs, pbufs);
      var data := AllocPbuf();
      if data.None? {
        return [];
      }
      if n == 1 {
        return [data.value];
      }
      ghost var mid := pbufs;
      var header := AllocPbuf();
      if header.None? {
        FreePbuf(data.value, old(pbufs));
        return [];
      }
      bufs := [header.value, data.value];
      TakenMore(pbufs, mid, old(pbufs), [data.value], [header.value]);
      assert [header.value] + [data.value] == bufs;
    }

    /** tcp_create_segment: without a segment the pbufs it was given are freed. */
    method CreateSegment(bufs: seq<nat>, ghost left: multiset<nat>) returns (seg: Option<nat>)
      requires Valid() && Taken(pbufs, left, bufs)
      modifies this
      ensures Valid() && (seg.Some? <==> old(budget) > 0)
      ensures seg.None? ==> pbufs == left && segs == old(segs)
      ensures seg.Some? ==> pbufs == old(pbufs) && Taken(segs, old(segs), [seg.value]) && budget == old(budget) - 1
    {
      hide Valid, Taken;
      seg := AllocSeg();
      if seg.None? {
        FreePbufs(bufs, left);
      }
    }

    /** The pbuf and the segment of tcp_enqueue_flags. */
    method AllocFlags() returns (ok: bool)
      requires Valid()
      modifies this
      ensures Valid() && (ok <==> old(budget) >= 2)
      ensures var n := if ok then 1 else 0; Grew(old(pbufs), pbufs, n) && Grew(old(segs), segs, n)
    {
      hide Valid, Taken, Grew;
      GrewNone(pbufs);
      GrewNone(segs);
      var p := AllocPbuf();
      if p.None? {
        return false;
      }
      var seg := CreateSegment([p.value], old(pbufs));
      if seg.None? {
        return false;
      }
      GrewBy(pbufs, old(pbufs), [p.value]);
      GrewBy(segs, old(segs), [seg.value]);
      ok := true;
    }

    /** The allocations for one segment in phase 3: n pbufs, then, unless the queue has
        become too long, the segment. Whatever is missing, the rest is given back. */
    method AllocSegment(n: nat, tooLong: bool) returns (made: Option<Made>)
      requires Valid() && 1 <= n <= 2
      modifies this
      ensures Valid() && (made.Some? <==> old(budget) > n && !tooLong)
      ensures made.None? ==> pbufs == old(pbufs) && segs == old(segs)
      ensures made.Some? ==> |made.value.bufs| == n && budget == old(budget) - n - 1
      ensures made.Some? ==> Taken(pbufs, old(pbufs), made.value.bufs) && Taken(segs, old(segs), [made.value.seg])
    {
      hide Valid, Taken;
      var bufs := AllocChain(n);
      if bufs == [] {
        TakenOnly(pbufs, old(pbufs));
        return None;
      }
      if tooLong {
        FreePbufs(bufs, old(pbufs));
        return None;
      }
      var seg := CreateSegment(bufs, old(pbufs));
      if seg.None? {
        return None;
      }
      made := Some(Made(seg.value, bufs));
    }

    /** One more segment for the queue made so far. */
    method AddSegment(made: seq<Made>, n: nat, tooLong: bool, ghost bufs: multiset<nat>, ghost segments: multiset<nat>)
      returns (ok: bool, more: seq<Made>)
      requires Valid() && 1 <= n <= 2 && Taken(pbufs, bufs, BufIds(made)) && Taken(segs, segments, SegIds(made))
      modifies this
      ensures Valid() && Taken(pbufs, bufs, BufIds(more)) && Taken(segs, segments, SegIds(more))
      ensures ok <==> old(budget) > n && !tooLong
      ensures ok ==> |more| == |made| + 1 && |BufIds(more)| == |BufIds(made)| + n && budget == old(budget) - n - 1
    {
      hide Valid, Taken, BufIds, SegIds;
      var got := AllocSegment(n, tooLong);
      if got.None? {
        return false, made;
      }
      ok, more := true, made + [got.value];
      IdsSnoc(made, got.value);
      TakenMore(pbufs, old(pbufs), bufs, BufIds(made), got.value.bufs);
      TakenMore(segs, old(segs), segments, SegIds(made), [got.value.seg]);
    }

    /** tcp_segs_free: every segment of the list with its pbufs. */
    method FreeSegs(q: seq<Made>, ghost bufsLeft: multiset<nat>, ghost segsLeft: multiset<nat>)
      requires Valid() && Taken(pbufs, bufsLeft, BufIds(q)) && Taken(segs, segsLeft, SegIds(q))
      modifies this`pbufs, this`segs
      ensures Valid() && pbufs == bufsLeft && segs == segsLeft
    {
      hide Valid, Taken;
      var rest := q;
      while rest != []
        invariant Valid() && Taken(pbufs, bufsLeft, BufIds(rest)) && Taken(segs, segsLeft, SegIds(rest))
        decreases |rest|
      {
        var seg, more := rest[0], rest[1..];
        TakenParts(pbufs, bufsLeft, seg.bufs, BufIds(more));
        FreePbufs(seg.bufs, bufsLeft + multiset(BufIds(more)));
        TakenIs(pbufs, bufsLeft, BufIds(more));
        TakenFirst(segs, segsLeft, SegIds(rest));
        FreeSeg(seg.seg, segsLeft + multiset(SegIds(more)));
        TakenIs(segs, segsLeft, SegIds(more));
        rest := more;
      }
      TakenOnly(pbufs, bufsLeft);
      TakenOnly(segs, segsLeft);
    }

    /** The error exit of tcp_write: the pbuf for the last segment and the new segments. */
    method GiveBack(concat: seq<nat>, queue: seq<Made>, ghost bufsLeft: multiset<nat>, ghost segsLeft: multiset<nat>)
      requires Valid() && Taken(pbufs, bufsLeft, concat + BufIds(queue)) && Taken(segs, segsLeft, SegIds(queue))
      modifies this`pbufs, this`segs
      ensures Valid() && pbufs == bufsLeft && segs == segsLeft
    {
      hide Valid, Taken;
      TakenParts(pbufs, bufsLeft, concat, BufIds(queue));
      FreePbufs(concat, bufsLeft + multiset(BufIds(queue)));
      TakenIs(pbufs, bufsLeft, BufIds(queue));
      FreeSegs(queue, bufsLeft, segsLeft);
    }
  }

  // ----- what is in use ----------------------------------------------------------------------

  lemma TakenIs(now: multiset<nat>, before: multiset<nat>, ids: seq<nat>)
    ensures now == before + multiset(ids) <==> Taken(now, before, ids)
  {
  }

  lemma TakenOnly(now: multiset<nat>, before: multiset<nat>)
    ensures Taken(now, before, []) <==> now == before
  {
  }

  lemma TakenFirst(now: multiset<nat>, before: multiset<nat>, ids: seq<nat>)
    requires Taken(now, before, ids) && ids != []
    ensures Taken(now, before + multiset(ids[1..]), [ids[0]])
  {
    assert ids == [ids[0]] + ids[1..];
  }

  lemma TakenParts(now: multiset<nat>, before: multiset<nat>, a: seq<nat>, b: seq<nat>)
    requires Taken(now, before, a + b)
    ensures Taken(now, before + multiset(b), a)
  {
  }

  lemma TakenMore(now: multiset<nat>, mid: multiset<nat>, before: multiset<nat>, a: seq<nat>, b: seq<nat>)
    requires Taken(mid, before, a) && Taken(now, mid, b)
    ensures Taken(now, before, a + b) && Taken(now, before, b + a)
  {
  }

  /** One more block and then all but the first k of ids. */
  lemma TakenCut(now: multiset<nat>, mid: multiset<nat>, left: multiset<nat>, ids: seq<nat>, k: nat, p: nat)
    requires Taken(mid, left, ids) && Taken(now, mid, [p]) && k <= |ids|
    ensures Taken(now, left + multiset(ids[..k]) + multiset{p}, ids[k..])
    ensures |left + multiset(ids[..k]) + multiset{p}| == |mid| - |ids| + k + 1
  {
    assert ids == ids[..k] + ids[k..];
  }

  /** now holds n blocks more than before, and all of those. */
  ghost predicate Grew(before: multiset<nat>, now: multiset<nat>, n: int)
  {
    before <= now && |now| == |before| + n
  }

  lemma GrewNone(before: multiset<nat>)
    ensures Grew(before, before, 0)
  {
  }

  lemma GrewBy(now: multiset<nat>, before: multiset<nat>, ids: seq<nat>)
    requires Taken(now, before, ids)
    ensures Grew(before, now, |ids|)
  {
    assert |multiset(ids)| == |ids|;
  }
}
