/** Reference counting of packet buffers: pbuf_ref, pbuf_free, pbuf_cat, pbuf_chain,
    pbuf_dechain, pbuf_realloc and pbuf_split_64k on one store of linked nodes
    (src/lwip/src/core/pbuf.c), and the delivery of received chains to the
    application (src/lwip/src/core/tcp_in.c, tcp.c). */
module PbufPool {
  import opened Seq32
  import opened PbufStore
  import opened PbufChains
  import opened PbufDelivery

  // ----- facts used by the methods ------------------------------------------------------------

  lemma RunLenIs(s: Store, c: seq<Id>, k: nat)
    requires Live(s, c) && k <= |c| && (forall i :: 0 <= i < k ==> s[c[i]].ref == 1) && (k < |c| ==> s[c[k]].ref != 1)
    ensures RunLen(s, c) == k
  {
  }

  /** Of the chain d, exactly the head run without other references is gone, the node
      behind it has one reference less, and the others are as before. */
  ghost predicate Released(s: Store, t: Store, d: seq<Id>)
    requires Live(s, d)
  {
    var run := RunLen(s, d);
    && (forall i :: 0 <= i < |d| ==> (d[i] in t <==> i >= run))
    && (forall i :: run < i < |d| ==> t[d[i]] == s[d[i]])
    && (run < |d| ==> s[d[run]].ref > 0 && t[d[run]] == s[d[run]].(ref := s[d[run]].ref - 1))
  }

  /** No node appears, and those outside c are as before. */
  ghost predicate Framed(s: Store, t: Store, c: seq<Id>)
  {
    t.Keys <= s.Keys && forall x :: x in s && x !in c ==> x in t && t[x] == s[x]
  }

  ghost predicate Positive(s: Store, d: seq<Id>)
    requires Live(s, d)
  {
    forall i :: 0 <= i < |d| ==> s[d[i]].ref > 0
  }

  lemma NotBefore(s: Store, rank: map<Id, nat>, c: seq<Id>, k: nat)
    requires Linked(s, rank) && IsChain(s, c) && k < |c|
    ensures c[k] !in Ids(c[..k])
  {
    forall i | 0 <= i < k ensures c[i] != c[k] {
      ChainFalls(s, rank, c, i, k);
    }
  }

  lemma AllPositive(s: Store, held: map<Id, nat>, x: Id, extra: nat, c: seq<Id>)
    requires Counted(s, held, x, extra) && IsChain(s, c)
    ensures Live(s, c) && forall i :: 0 <= i < |c| ==> s[c[i]].ref > 0
  {
    ChainLive(s, c);
    forall i | 0 <= i < |c| ensures s[c[i]].ref > 0 {
      assert Surplus(s, held, c[i]) == if c[i] == x then extra else 0;
    }
  }

  lemma AnyX(s: Store, held: map<Id, nat>, x: Id, y: Id)
    requires Counted(s, held, x, 0)
    ensures Counted(s, held, y, 0)
  {
    forall z | z in s ensures s[z].ref > 0 && Surplus(s, held, z) == 0 {
      assert Surplus(s, held, z) == if z == x then 0 else 0;
    }
  }

  lemma Shrunk(s: Store, c: seq<Id>, k: nat)
    requires k < |c| && c[k] in s
    ensures s - Ids(c[..k]) - {c[k]} == s - Ids(c[..k + 1])
  {
    assert Ids(c[..k + 1]) == Ids(c[..k]) + {c[k]};
  }

  class Pool {
    var nodes: Store
    ghost var held: map<Id, nat>   // references held outside the store
    ghost var rank: map<Id, nat>

    /** Every count is right: outside holders plus linking nodes. */
    ghost predicate Valid()
      reads this
    {
      Linked(nodes, rank) && Counted(nodes, held, 0, 0)
    }

    constructor ()
      ensures Valid() && nodes == map[]
    {
      nodes, held, rank := map[], map[], map[];
    }

    /** pbuf_alloc of one buffer, owned by the caller. */
    method Alloc(p: Id, data: seq<byte>)
      requires Valid() && p !in nodes && |data| < TWO16
      modifies this
      ensures Valid() && held == old(held)[p := 1]
      ensures nodes == old(nodes)[p := Node(data, |data|, 1, Null, false)]
    {
      AllocCounts(nodes, held, rank, p, Node(data, |data|, 1, Null, false));
      hide Counted, Linked;
      nodes := nodes[p := Node(data, |data|, 1, Null, false)];
      held := held[p := 1];
      rank := rank[p := 0];
    }

    /** pbuf_alloc from the pool: a chain of buffers of at most `first` and then `full`
        bytes, out of the buffers `free` that the pool still has; if they run out, what
        was allocated is released again. */
    method AllocPool(free: seq<Id>, length: u16, first: nat, full: nat) returns (r: Link, ghost c: seq<Id>)
      requires Valid() && AllApart(free) && (forall x :: x in free ==> x !in nodes)
      requires 0 < first < TWO16 && 0 < full < TWO16
      modifies this
      ensures Valid()
      ensures r.Null? <==> |free| < PoolCount(length, first, full)
      ensures r.Null? ==> nodes == old(nodes) && forall x :: Held(held, x) == Held(old(held), x)
      ensures r.To? ==>
                && |c| == PoolCount(length, first, full) && c == free[..|c|] && r == To(c[0])
                && held == old(held)[c[0] := 1] && (forall x :: x in c ==> x in nodes && nodes[x].ref == 1)
                && IsChain(nodes, c) && Live(nodes, c) && Totals(nodes, c) && |Bytes(nodes, c)| == length
                && nodes[c[0]].tot == length && nodes.Keys == old(nodes).Keys + Ids(c)
                && (forall x :: x in old(nodes) ==> nodes[x] == old(nodes)[x])
    {
      hide Grown, Counted, Linked, IsChain, AllApart, Totals;
      c := [];
      if free == [] {
        return Null, [];
      }
      ghost var s, held0 := nodes, held;
      NotHeld(s, held, free[0]);
      var p, n: nat := free[0], if length <= first then length else first;
      First(p, n, length);
      c := [p];
      var used := 1;
      var last, rem: nat := p, length - n;
      while rem > 0
        invariant Valid() && 0 < used == |c| <= |free| && c == free[..|c|] && last == c[|c| - 1] && p == c[0]
        invariant Grown(s, nodes, c, rem, length) && held == held0[p := 1] && rem < TWO16
        invariant |c| + Blocks(rem, full) == PoolCount(length, first, full)
        decreases rem
      {
        if used == |free| {
          Undo(p, s, c, rem, length);
          return Null, [];
        }
        var q, k := free[used], if rem <= full then rem else full;
        NextFree(free, used);
        Attach(last, q, k, rem, s, c, length);
        c, last, rem, used := c + [q], q, rem - k, used + 1;
      }
      GrownDone(s, nodes, c, length);
      r := To(p);
    }

    /** The first buffer, with the whole length in its tot_len. */
    method First(p: Id, n: nat, length: u16)
      requires Valid() && p !in nodes && n <= length
      modifies this
      ensures Valid() && Grown(old(nodes), nodes, [p], length - n, length) && held == old(held)[p := 1]
    {
      ghost var s := nodes;
      hide Counted, Linked, Grown;
      Alloc(p, Zeroes(n));
      SetTot(p, length);
      assert nodes == s[p := Node(Zeroes(n), length, 1, Null, false)];
      FirstGrown(s, p, n, length);
    }

    /** pbuf_init_alloced_pbuf gives the first buffer the whole length. */
    method SetTot(p: Id, tot: u16)
      requires Valid() && p in nodes
      modifies this`nodes
      ensures Valid() && nodes == old(nodes)[p := old(nodes)[p].(tot := tot)]
    {
      ghost var s := nodes;
      nodes := nodes[p := nodes[p].(tot := tot)];
      LinkedSame(s, nodes, rank);
      SameCounts(s, nodes, held);
    }

    /** The next buffer is linked behind the last one. */
    method Attach(last: Id, q: Id, k: nat, rem: u16, ghost s: Store, ghost c: seq<Id>, ghost length: nat)
      requires Valid() && Grown(s, nodes, c, rem, length) && c != [] && last == c[|c| - 1] && q !in s && q !in c
               && 0 < k <= rem
      modifies this`nodes, this`rank
      ensures Valid() && Grown(s, nodes, c + [q], rem - k, length)
    {
      ghost var t := nodes;
      GrownLast(s, t, c, rem, length, q);
      Attached(t, held, rank, last, q, Node(Zeroes(k), rem, 1, Null, false));
      GrownMore(s, t, c, rem, length, q, k);
      hide Grown, Counted, Linked;
      nodes := nodes[q := Node(Zeroes(k), rem, 1, Null, false)];
      nodes := nodes[last := nodes[last].(next := To(q))];
      rank := (map x | x in rank :: rank[x] + 1)[q := 0];
    }

    /** The pool is empty: what was allocated is freed. */
    method Undo(p: Id, ghost s: Store, ghost c: seq<Id>, ghost rem: nat, ghost length: nat)
      requires Valid() && Grown(s, nodes, c, rem, length) && c != [] && p == c[0] && Held(held, p) == 1
      modifies this
      ensures Valid() && nodes == s && held == old(held)[p := 0]
    {
      GrownDropped(s, nodes, c, rem, length);
      hide Grown, Dropped;
      var count := Free(p, c);
    }

    /** pbuf_ref: one more holder. The 8-bit count must not wrap. */
    method Ref(p: Id) returns (overflow: bool)
      requires Valid() && p in nodes
      modifies this
      ensures overflow <==> old(nodes)[p].ref == 255
      ensures overflow ==> nodes == old(nodes) && held == old(held)
      ensures !overflow ==>
                && nodes == old(nodes)[p := old(nodes)[p].(ref := old(nodes)[p].ref + 1)]
                && held == old(held)[p := Held(old(held), p) + 1]
      ensures Valid() && rank == old(rank)
    {
      if nodes[p].ref == 255 {
        return true;
      }
      RefCounts(nodes, held, rank, p);
      hide Counted, Linked;
      held := held[p := Held(held, p) + 1];
      nodes := nodes[p := nodes[p].(ref := nodes[p].ref + 1)];
      overflow := false;
    }

    /** pbuf_free: releases exactly the head run that nobody else refers to. The result
        is the 8-bit number of buffers released. */
    method Free(p: Id, ghost c: seq<Id>) returns (count: byte)
      requires Valid() && IsChain(nodes, c) && c[0] == p && Held(held, p) > 0
      modifies this
      ensures Live(old(nodes), c) && Positive(old(nodes), c)
      ensures nodes == Dropped(old(nodes), c) && count == RunLen(old(nodes), c) % 256
      ensures Valid() && held == old(held)[p := Held(old(held), p) - 1] && rank == old(rank)
    {
      AllPositive(nodes, held, 0, 0, c);
      ReleaseHold(nodes, held, p);
      hide Counted, Linked, IsChain, Dropped;
      held := held[p := Held(held, p) - 1];
      count := Drop(p, c);
      AnyX(nodes, held, p, 0);
    }

    /** The loop of pbuf_free, for a reference to p that is no longer counted. */
    method Drop(p: Id, ghost c: seq<Id>) returns (count: byte)
      requires Linked(nodes, rank) && Counted(nodes, held, p, 1) && IsChain(nodes, c) && c[0] == p
      modifies this`nodes
      ensures Live(old(nodes), c) && Positive(old(nodes), c)
      ensures nodes == Dropped(old(nodes), c) && count == RunLen(old(nodes), c) % 256
      ensures Linked(nodes, rank) && Counted(nodes, held, p, 0)
    {
      ghost var s := nodes;
      AllPositive(s, held, p, 1, c);
      assert Midway(s, nodes, held, rank, c, 0) by { assert s - Ids(c[..0]) == s; }
      hide Counted, Linked, IsChain, Dropped, Midway, RunLen;
      count := 0;
      var cur := To(p);
      ghost var k := 0;
      while cur.To?
        invariant k <= |c| && (cur.To? ==>
                    k < |c| && cur.id == c[k] && Midway(s, nodes, held, rank, c, k) && count == Low8(k))
        invariant cur.Null? ==> nodes == Dropped(s, c) && Linked(nodes, rank) && Counted(nodes, held, p, 0)
        invariant cur.Null? ==> count == Low8(RunLen(s, c))
        decreases cur.To?, |c| - k
      {
        DropStep(s, nodes, held, rank, c, k, p);
        var x := cur.id;
        if nodes[x].ref == 1 {
          cur := nodes[x].next;
          nodes := nodes - {x};
          count := Increment(count, k);
          k := k + 1;
        } else {
          nodes := nodes[x := nodes[x].(ref := nodes[x].ref - 1)];
          cur := Null;
        }
      }
    }

    /** The 8-bit count goes up by one. */
    method Increment(count: byte, ghost k: nat) returns (r: byte)
      requires count == Low8(k)
      ensures r == Low8(k + 1)
    {
      r := (count as int + 1) % 256;
    }

    // ----- joining --------------------------------------------------------------------------

    /** A walk to the last buffer. */
    method Last(p: Id, ghost c: seq<Id>) returns (l: Id)
      requires IsChain(nodes, c) && c[0] == p
      ensures l == c[|c| - 1] && l in nodes
    {
      ChainTail(nodes, c, 0);
      hide IsChain;
      l := p;
      ghost var k := 0;
      while nodes[l].next.To?
        invariant k < |c| && l == c[k] && l in nodes && nodes[l].next == if k + 1 < |c| then To(c[k + 1]) else Null
        decreases |c| - k
      {
        ChainTail(nodes, c, k + 1);
        l, k := nodes[l].next.id, k + 1;
      }
    }

    /** A walk that adds d to every tot_len. */
    method AddToAll(p: Id, d: int, ghost c: seq<Id>)
      requires Linked(nodes, rank) && IsChain(nodes, c) && c[0] == p
      modifies this`nodes
      ensures nodes == AddTot(old(nodes), c, d)
    {
      ghost var s := nodes;
      assert c != [];
      hide IsChain, Linked, AddTot, Bumped;
      var cur := To(p);
      ghost var k := 0;
      AddTotNone(s, d);
      while cur.To?
        invariant k <= |c| && cur == (if k < |c| then To(c[k]) else Null) && nodes == AddTot(s, c[..k], d)
        decreases |c| - k
      {
        ChainTail(s, c, k);
        NotEarlier(s, rank, c, k);
        AddTotOne(s, c, k, d);
        var x := cur.id;
        cur := nodes[x].next;
        nodes := nodes[x := Bumped(nodes[x], d)];
        k := k + 1;
      }
      assert c[..|c|] == c;
    }

    /** pbuf_cat: t is appended to h and the caller's reference to t goes to h. asserted:
        the assertion on the last buffer of h fails, which it never does if totals are right. */
    method Cat(h: Id, t: Id, ghost c: seq<Id>, ghost d: seq<Id>) returns (asserted: bool)
      requires Valid() && IsChain(nodes, c) && c[0] == h && IsChain(nodes, d) && d[0] == t
      requires Held(held, t) > 0 && c[|c| - 1] !in d
      modifies this
      ensures Valid() && nodes == Joined(old(nodes), c, t) && held == old(held)[t := Held(old(held), t) - 1]
      ensures IsChain(nodes, c + d) && Live(old(nodes), c)
      ensures asserted <==> old(nodes)[c[|c| - 1]].tot != |old(nodes)[c[|c| - 1]].data|
      ensures Totals(old(nodes), c) ==> !asserted
    {
      ghost var s := nodes;
      ChainLive(s, c);
      LastTotal(s, c);
      ChainTail(s, d, 0);
      TopOfChain(s, rank, d, t);
      JoinLinked(s, rank, c, d);
      JoinCounted(s, held, c, t);
      JoinedChain(s, c, d);
      hide Linked, Counted, IsChain, AddTot, Totals;
      var l := Last(h, c);
      asserted := nodes[l].tot != |nodes[l].data|;
      AddToAll(h, nodes[t].tot, c);
      nodes := nodes[l := nodes[l].(next := To(t))];
      held := held[t := Held(held, t) - 1];
      rank := Reranked(rank, d, rank[t] + 1);
    }

    /** pbuf_chain: as pbuf_cat, but the caller keeps its reference to t. */
    method Chain(h: Id, t: Id, ghost c: seq<Id>, ghost d: seq<Id>) returns (overflow: bool, asserted: bool)
      requires Valid() && IsChain(nodes, c) && c[0] == h && IsChain(nodes, d) && d[0] == t
      requires Held(held, t) > 0 && c[|c| - 1] !in d
      modifies this
      ensures Valid() && IsChain(nodes, c + d) && Live(old(nodes), c) && Live(old(nodes), d) && Live(nodes, c + d)
      ensures overflow <==> old(nodes)[t].ref == 255
      ensures Totals(old(nodes), c) ==> !asserted
      ensures Bytes(nodes, c + d) == Bytes(old(nodes), c) + Bytes(old(nodes), d)
      ensures Totals(old(nodes), c) && Totals(old(nodes), d) ==> Totals(nodes, c + d)
      ensures var j := Joined(old(nodes), c, t);
              && t in j && nodes == if overflow then j else j[t := j[t].(ref := j[t].ref + 1)]
      ensures !overflow ==> Held(held, t) == Held(old(held), t) && nodes[t].ref == old(nodes)[t].ref + 1
    {
      ChainTail(nodes, d, 0);
      JoinNext(nodes, c, t);
      CatContents(nodes, c, d);
      hide IsChain, Linked, Counted, Joined, Totals;
      asserted := Cat(h, t, c, d);
      ghost var s := nodes;
      overflow := Ref(t);
      ChainLive(s, c + d);
      ChainSame(s, nodes, c + d);
      BytesSame(s, nodes, c + d);
      if Totals(s, c + d) {
        TotalsSame(s, nodes, c + d);
      }
    }

    // ----- taking apart ---------------------------------------------------------------------------

    /** pbuf_dechain: p loses its successor. The result is NULL if buffers were released;
        since their number is an 8-bit count, it can also be a released buffer. asserted:
        the assertion on tot_len fails; with right totals that is so exactly if the chain
        of p was too long for its 16 bits. */
    method Dechain(p: Id, ghost c: seq<Id>) returns (r: Link, asserted: bool)
      requires Valid() && IsChain(nodes, c) && c[0] == p
      modifies this`nodes
      ensures Valid()
      ensures |c| == 1 ==> r == Null && nodes == old(nodes) && !asserted
      ensures |c| > 1 && Live(old(nodes), c) ==>
                && (asserted <==> old(nodes)[c[1]].tot != old(nodes)[p].tot - |old(nodes)[p].data|)
                && (Totals(old(nodes), c) ==>
                      (asserted <==> |old(nodes)[p].data| + old(nodes)[c[1]].tot >= TWO16))
      ensures |c| > 1 ==>
                && Live(old(nodes), c) && Framed(old(nodes), nodes, c) && p in nodes
                && nodes[p] == old(nodes)[p].(next := Null, tot := |old(nodes)[p].data| % TWO16)
                && r == (if RunLen(old(nodes), c[1..]) % 256 == 0 then To(c[1]) else Null)
                && Released(Unchained(old(nodes), p, c[1]), nodes, c[1..])
                && (Totals(old(nodes), c) ==> nodes[p].tot == |nodes[p].data| && Released(old(nodes), nodes, c[1..]))
    {
      ghost var s := nodes;
      ChainTail(s, c, 0);
      ChainLive(s, c);
      var q := nodes[p].next;
      if q.Null? {
        return Null, false;
      }
      Unchain(s, held, rank, c);
      WrappedIff(s, c);
      hide Linked, Counted, IsChain, Unchained, Released, Framed, Totals, Dropped;
      var rest: int := nodes[p].tot - |nodes[p].data|;
      asserted := nodes[q.id].tot != rest;
      nodes := nodes[q.id := nodes[q.id].(tot := rest % TWO16)];
      nodes := nodes[p := nodes[p].(next := Null, tot := |nodes[p].data| % TWO16)];
      assert nodes == Unchained(s, p, q.id);
      var gone := Drop(q.id, c[1..]);
      AnyX(nodes, held, q.id, 0);
      UnchainedDropped(s, rank, c);
      UnchainedTotals(s, rank, c, nodes);
      r := if gone > 0 then Null else q;
    }

    /** One buffer with one byte from the pool, put at the end of the chain at p. */
    method AppendSingle(p: Id, free: seq<Id>, i: nat, first: nat, full: nat)
      requires Valid() && 0 < first < TWO16 && 0 < full < TWO16
      requires 0 < i < |free| && p == free[0] && Singles(nodes, free, i)
      modifies this
      ensures Valid() && Singles(nodes, free, i + 1)
    {
      hide Linked, Counted, IsChain, Totals, Joined, AllApart;
      ghost var s := nodes;
      FreeTail(nodes, free, i);
      OneBuffer(first, full);
      var q;
      ghost var d;
      q, d := AllocPool(free[i..], 1, first, full);
      SinglesStay(s, nodes, free, i, d);
      ghost var u := nodes;
      var _ := Cat(p, q.id, free[..i], d);
      SinglesJoined(u, nodes, free, i, d);
    }

    /** A chain of 257 unshared buffers of the pool, dechained: 256 buffers are released,
        the 8-bit count is 0, and the result is one of them; no assertion fails. */
    method DechainDangles(free: seq<Id>, first: nat, full: nat) returns (p: Link, r: Link, asserted: bool)
      requires Valid() && AllApart(free) && (forall x :: x in free ==> x !in nodes) && |free| >= 257
      requires 0 < first < TWO16 && 0 < full < TWO16
      modifies this
      ensures Valid() && p.To? && p.id in nodes && r.To? && r.id in free && r.id !in nodes && !asserted
    {
      hide Linked, Counted, IsChain, Totals, Singles, AllApart;
      ghost var s, c := nodes, [];
      OneBuffer(first, full);
      p, c := AllocPool(free, 1, first, full);
      FirstSingle(s, nodes, free, c);
      var i := 1;
      while i < 257
        invariant 1 <= i <= 257 && Valid() && Singles(nodes, free, i) && p == To(free[0])
      {
        AppendSingle(free[0], free, i, first, full);
        i := i + 1;
      }
      SinglesUnshared(nodes, free, 257);
      r, asserted := Dechain(free[0], free[..257]);
    }

    /** pbuf_split_64k: cuts the chain where its length, summed in 16 bits, overflows. */
    method Split64k(p: Id, ghost c: seq<Id>) returns (rest: Link, ghost k: nat)
      requires Valid() && IsChain(nodes, c) && c[0] == p && Live(nodes, c) && Totals(nodes, c)
      modifies this`nodes, this`held
      ensures Valid() && 0 < k <= |c| && |Bytes(old(nodes), c[..k])| < TWO16
      ensures k == |c| ==> rest == Null && nodes == old(nodes) && held == old(held)
      ensures k < |c| ==>
                && rest == To(c[k]) && nodes == SplitAt(old(nodes), c, k)
                && held == old(held)[c[k] := Held(old(held), c[k]) + 1]
                && |Bytes(old(nodes), c[..k + 1])| >= TWO16
    {
      assert 0 < |c|;
      hide Linked, Counted, IsChain, Totals, SplitAt, Bytes;
      var last;
      last, rest, k := FirstOverflow(p, c);
      if rest.To? {
        CutRest(p, last, rest.id, c, k);
      }
    }

    /** The caller gets the rest of the chain as a reference of its own. */
    method CutRest(p: Id, last: Id, r: Id, ghost c: seq<Id>, ghost k: nat)
      requires Valid() && IsChain(nodes, c) && Live(nodes, c) && 0 < k < |c| && p == c[0] && last == c[k - 1]
               && r == c[k]
      modifies this`nodes, this`held
      ensures Valid() && nodes == SplitAt(old(nodes), c, k) && held == old(held)[r := Held(old(held), r) + 1]
    {
      hide Linked, Counted, IsChain, SplitAt;
      SplitCounted(nodes, held, rank, c, k);
      CutFront(p, last, r, c, k);
      held := held[r := Held(held, r) + 1];
    }

    /** The walk of pbuf_split_64k: the last buffer of the front part and the one behind it. */
    method FirstOverflow(p: Id, ghost c: seq<Id>) returns (i: Id, r: Link, ghost k: nat)
      requires IsChain(nodes, c) && c[0] == p && Live(nodes, c) && Totals(nodes, c)
      ensures 0 < k <= |c| && i == c[k - 1] && r == (if k < |c| then To(c[k]) else Null)
      ensures |Bytes(nodes, c[..k])| < TWO16
      ensures k < |c| ==> |Bytes(nodes, c[..k + 1])| >= TWO16
    {
      ChainTail(nodes, c, 0);
      assert c[..0] == [];
      hide IsChain, Totals;
      Short(nodes, c, 0);
      OneMore(nodes, c, 0);
      var front := |nodes[p].data|;
      i, r, k := p, nodes[p].next, 1;
      if 1 < |c| {
        Short(nodes, c, 1);
        OneMore(nodes, c, 1);
      }
      var fits := FitsBehind(front, r);
      while fits
        invariant 0 < k <= |c| && i == c[k - 1] && r == (if k < |c| then To(c[k]) else Null)
        invariant fits <==> k < |c| && front + |nodes[c[k]].data| < TWO16
        invariant front == |Bytes(nodes, c[..k])| < TWO16
        invariant k < |c| ==> |nodes[c[k]].data| < TWO16 && |Bytes(nodes, c[..k + 1])| == front + |nodes[c[k]].data|
        decreases |c| - k
      {
        ChainTail(nodes, c, k);
        front := front + |nodes[r.id].data|;
        i, r, k := r.id, nodes[r.id].next, k + 1;
        if k < |c| {
          Short(nodes, c, k);
          OneMore(nodes, c, k);
        }
        fits := FitsBehind(front, r);
      }
    }

    /** The 16-bit sum of front and the buffer at r does not wrap. */
    method FitsBehind(front: nat, r: Link) returns (fits: bool)
      requires front < TWO16 && (r.To? ==> r.id in nodes && |nodes[r.id].data| < TWO16)
      ensures fits <==> r.To? && front + |nodes[r.id].data| < TWO16
    {
      fits := r.To? && (front + |nodes[r.id].data|) % TWO16 >= front;
    }

    /** The updates of pbuf_split_64k. */
    method CutFront(p: Id, i: Id, r: Id, ghost c: seq<Id>, ghost k: nat)
      requires Linked(nodes, rank) && IsChain(nodes, c) && Live(nodes, c) && 0 < k < |c|
      requires p == c[0] && i == c[k - 1] && r == c[k]
      modifies this`nodes
      ensures nodes == SplitAt(old(nodes), c, k)
    {
      ghost var s := nodes;
      FrontCut(s, rank, c, k);
      hide IsChain, Linked, SplitAt;
      nodes := nodes[i := nodes[i].(next := Null)];
      var d: int := nodes[r].tot;
      AddToAll(p, -d, c[..k]);
      nodes := nodes[r := nodes[r].(fin := nodes[r].fin || nodes[p].fin)];
    }

    /** pbuf_realloc: the chain keeps its first newLen bytes; buffers behind them lose
        the reference of their predecessor. */
    method Realloc(p: Id, newLen: u16, ghost c: seq<Id>) returns (ghost k: nat)
      requires Valid() && IsChain(nodes, c) && c[0] == p && Live(nodes, c) && Totals(nodes, c)
      modifies this`nodes
      ensures Valid() && k < |c|
      ensures newLen >= old(nodes)[p].tot ==> nodes == old(nodes)
      ensures newLen < old(nodes)[p].tot ==>
                && IsChain(nodes, c[..k + 1]) && Live(nodes, c[..k + 1]) && Totals(nodes, c[..k + 1])
                && newLen <= |Bytes(old(nodes), c)| && Bytes(nodes, c[..k + 1]) == Bytes(old(nodes), c)[..newLen]
                && Framed(old(nodes), nodes, c) && Released(old(nodes), nodes, c[k + 1..])
                && (forall i :: 0 <= i < k ==> nodes[c[i]] == old(nodes)[c[i]].(tot := nodes[c[i]].tot))
                && nodes[c[k]] == old(nodes)[c[k]].(data := nodes[c[k]].data, tot := nodes[c[k]].tot, next := Null)
    {
      ghost var s := nodes;
      assert c != [];
      k := 0;
      if newLen >= nodes[p].tot {
        return;
      }
      ShrinkTotal(nodes[p].tot, |Bytes(s, c)|, newLen);
      hide Linked, Counted, IsChain, Totals, TotalIs, Truncated, Released, Framed, Dropped, RunLen;
      var next;
      next, k := Shorten(p, newLen, c);
      if next.To? {
        var gone := Drop(next.id, c[k + 1..]);
        AnyX(nodes, held, next.id, 0);
        TruncateDropped(s, rank, c, k, newLen);
      }
      TruncateFrame(s, nodes, rank, c, k, newLen);
    }

    /** pbuf_realloc up to the freeing: the chain is cut, next is what it lost. */
    method Shorten(p: Id, newLen: u16, ghost c: seq<Id>) returns (next: Link, ghost k: nat)
      requires Valid() && IsChain(nodes, c) && c[0] == p && Live(nodes, c) && Totals(nodes, c)
      requires newLen < nodes[p].tot && newLen < |Bytes(nodes, c)|
      modifies this`nodes
      ensures k < |c| && 0 <= newLen - |Bytes(old(nodes), c[..k])| <= |old(nodes)[c[k]].data|
      ensures nodes == Truncated(old(nodes), c, k, newLen) && next == if k + 1 < |c| then To(c[k + 1]) else Null
      ensures Linked(nodes, rank) && IsChain(nodes, c[..k + 1]) && Live(nodes, c) && Totals(nodes, c[..k + 1])
      ensures Bytes(nodes, c[..k + 1]) == Bytes(old(nodes), c)[..newLen]
      ensures if next.To? then Counted(nodes, held, next.id, 1) && IsChain(nodes, c[k + 1..])
              else Counted(nodes, held, 0, 0)
    {
      ghost var s := nodes;
      hide Linked, Counted, IsChain, Totals, TotalIs;
      var q, rem;
      q, rem, k := WalkBack(p, newLen, c);
      Truncate(s, held, rank, c, k, newLen, nodes[q].next);
      next := nodes[q].next;
      nodes := nodes[q := nodes[q].(data := nodes[q].data[..rem], tot := rem, next := Null)];
    }

    /** The walk of pbuf_realloc over the buffers that stay whole. */
    method WalkBack(p: Id, newLen: u16, ghost c: seq<Id>) returns (q: Id, rem: nat, ghost k: nat)
      requires Linked(nodes, rank) && IsChain(nodes, c) && c[0] == p && Live(nodes, c)
      requires newLen < nodes[p].tot && newLen < |Bytes(nodes, c)|
      modifies this`nodes
      ensures k < |c| && q == c[k] && nodes == AddTot(old(nodes), c[..k], newLen - old(nodes)[p].tot)
      ensures q in nodes && rem == newLen - |Bytes(old(nodes), c[..k])| <= |old(nodes)[c[k]].data| == |nodes[q].data|
    {
      ghost var s := nodes;
      var d: int := newLen - nodes[p].tot;
      assert c != [];
      hide IsChain, Linked, AddTot, Bumped;
      AddTotNone(s, d);
      assert c[..0] == [];
      q, rem, k := p, newLen, 0;
      while rem > |nodes[q].data|
        invariant k < |c| && q == c[k] && q in nodes && nodes == AddTot(s, c[..k], d)
        invariant rem == newLen - |Bytes(s, c[..k])| && nodes[q].data == s[q].data
        decreases |c| - k
      {
        ChainTail(s, c, k);
        NotEarlier(s, rank, c, k);
        AddTotOne(s, c, k, d);
        OneMore(s, c, k);
        NotLast(s, c, k, newLen);
        KeepsData(s, c[..k + 1], d);
        KeepsData(s, c[..k], d);
        var x := q;
        rem := rem - |nodes[x].data|;
        q := nodes[x].next.id;
        nodes := nodes[x := Bumped(nodes[x], d)];
        k := k + 1;
      }
      KeepsData(s, c[..k], d);
    }

    // ----- delivery ---------------------------------------------------------------------------------

    /** Joining a refused piece to what was cut off behind it. */
    method Rejoin(head: Id, rest: Link, ghost d: seq<Id>, ghost j: nat, ghost b: Store)
      requires Valid() && Linked(b, rank) && IsChain(b, d) && Live(b, d) && d[0] == head && 0 < j <= |d|
      requires j == |d| ==> rest == Null && nodes == b
      requires j < |d| ==> rest == To(d[j]) && nodes == SplitAt(b, d, j) && Held(held, d[j]) > 0
      modifies this
      ensures Valid()
      ensures nodes == if j < |d| then b[d[j] := b[d[j]].(fin := b[d[j]].fin || b[d[0]].fin)] else b
    {
      hide Linked, Counted, IsChain, SplitAt, Joined;
      if rest.To? {
        RejoinRestores(b, rank, d, j);
        RejoinReady(b, rank, d, j);
        var _ := Cat(head, rest.id, d[..j], d[j..]);
      }
    }

    /** The delivery loop of tcp_input and tcp_process_refused_data: the application takes
        the first n pieces and refuses the next one, which is then joined to the rest
        again and kept. heads and lens are what the application is shown, at[i] is the
        store when it is shown the i-th piece. */
    method Deliver(p: Id, n: nat, ghost c: seq<Id>)
      returns (heads: seq<Id>, lens: seq<u16>, refused: Link, ghost cuts: seq<nat>, ghost at: seq<Store>, ghost k: nat)
      requires Valid() && IsChain(nodes, c) && c[0] == p && Live(nodes, c) && Totals(nodes, c)
      modifies this
      ensures Valid() && |heads| <= n && k <= |c| && Pieces(old(nodes), c, heads, lens, cuts, at)
      ensures Shown(old(nodes), c, heads, lens, cuts, at, |heads|) == Bytes(old(nodes), c[..k])
      ensures Delivered(old(nodes), nodes, c, heads, lens, cuts, at, k)
      ensures refused == if k < |c| then To(c[k]) else Null
      ensures k < |c| ==> |heads| == n && Rest(old(nodes), nodes, c, k)
    {
      ghost var s := nodes;
      hide Linked, Counted, IsChain, Totals, SplitAt, Delivered, Pieces, Strangers, Handed, Rest;
      heads, lens, refused, cuts, at, k := Accepted(p, n, c);
      if refused.To? {
        ghost var b := nodes;
        Refuse(refused.id, s, c, k);
        HeldOn(s, b, nodes, c, heads, lens, cuts, at, k);
      }
      AllShown(s, nodes, c, heads, lens, cuts, at, k);
    }

    /** The pieces that are accepted. */
    method Accepted(p: Id, n: nat, ghost c: seq<Id>)
      returns (heads: seq<Id>, lens: seq<u16>, rest: Link, ghost cuts: seq<nat>, ghost at: seq<Store>, ghost k: nat)
      requires Valid() && IsChain(nodes, c) && c[0] == p && Live(nodes, c) && Totals(nodes, c)
      modifies this
      ensures Valid() && |heads| <= n && k <= |c| && Delivered(old(nodes), nodes, c, heads, lens, cuts, at, k)
      ensures rest == if k < |c| then To(c[k]) else Null
      ensures k < |c| ==> |heads| == n && Rest(old(nodes), nodes, c, k)
    {
      ghost var s := nodes;
      assert c != [];
      hide Linked, Counted, IsChain, Totals, SplitAt, Delivered, Pieces, Strangers, Handed, Rest;
      heads, lens, rest, cuts, at, k := [], [], To(p), [0], [], 0;
      FromStart(s, rank, c);
      while rest.To? && |heads| < n
        invariant |heads| <= n && Accepting(s, c, heads, lens, rest, cuts, at, k)
        decreases |c| - k
      {
        heads, lens, rest, cuts, at, k := AcceptOne(s, c, heads, lens, rest, cuts, at, k);
      }
    }

    /** The first k buffers of c have gone to the application, the others wait. */
    ghost predicate Accepting(s: Store, c: seq<Id>, heads: seq<Id>, lens: seq<u16>, rest: Link,
                              cuts: seq<nat>, at: seq<Store>, k: nat)
      requires Live(s, c)
      reads this
    {
      && Valid() && k <= |c| && Delivered(s, nodes, c, heads, lens, cuts, at, k)
      && rest == (if k < |c| then To(c[k]) else Null) && (k < |c| ==> Rest(s, nodes, c, k))
    }

    /** One more piece. */
    method AcceptOne(ghost s: Store, ghost c: seq<Id>, heads0: seq<Id>, lens0: seq<u16>, rest0: Link,
                     ghost cuts0: seq<nat>, ghost at0: seq<Store>, ghost k0: nat)
      returns (heads: seq<Id>, lens: seq<u16>, rest: Link, ghost cuts: seq<nat>, ghost at: seq<Store>, ghost k: nat)
      requires Live(s, c) && Accepting(s, c, heads0, lens0, rest0, cuts0, at0, k0) && rest0.To?
      modifies this
      ensures Accepting(s, c, heads, lens, rest, cuts, at, k) && |heads| == |heads0| + 1 && k > k0
    {
      hide Linked, Counted, IsChain, Totals, Delivered, Pieces, Strangers, Handed, Rest;
      ghost var b, j := nodes, 0;
      var head, len;
      head, len, rest, j := NextPiece(rest0.id, s, c, k0);
      PiecesMore(s, b, nodes, c, heads0, lens0, cuts0, at0, k0, len, j);
      heads, lens := heads0 + [head], lens0 + [len];
      cuts, at, k := cuts0 + [k0 + j], at0 + [nodes], k0 + j;
    }

    /** One piece is cut off and taken by the application: what it can read from the head
        on is exactly that piece. */
    method NextPiece(p: Id, ghost s: Store, ghost c: seq<Id>, ghost k: nat)
      returns (head: Id, len: u16, rest: Link, ghost j: nat)
      requires Valid() && Live(s, c) && k < |c| && Rest(s, nodes, c, k) && p == c[k]
      modifies this
      ensures Valid() && head == p && 0 < j <= |c| - k && Handed(s, nodes, c, k, k + j, head, len)
      ensures rest == if k + j < |c| then To(c[k + j]) else Null
      ensures k + j < |c| ==> Rest(s, nodes, c, k + j)
      ensures Strangers(old(nodes), nodes, c[k..])
    {
      hide Linked, Counted, IsChain, Totals, SplitAt;
      ghost var b := nodes;
      rest, j := Split64k(p, c[k..]);
      PieceOk(s, b, nodes, rank, c, k, j);
      head, len := p, nodes[p].tot;
    }

    /** One piece is cut off, refused, and joined to the rest again. */
    method Refuse(p: Id, ghost s: Store, ghost c: seq<Id>, ghost k: nat)
      requires Valid() && Live(s, c) && k < |c| && Rest(s, nodes, c, k) && p == c[k]
      modifies this
      ensures Valid() && Rest(s, nodes, c, k) && Strangers(old(nodes), nodes, c[k..])
    {
      hide Linked, Counted, IsChain, Totals, SplitAt;
      ghost var b := nodes;
      ghost var j;
      var rest;
      rest, j := Split64k(p, c[k..]);
      Rejoin(p, rest, c[k..], j, b);
      RestKept(s, b, nodes, c, k, j);
    }
  }

  lemma Short(s: Store, c: seq<Id>, k: nat)
    requires Live(s, c) && Totals(s, c) && k < |c|
    ensures |s[c[k]].data| < TWO16
  {
    TotalsTail(s, c, k);
  }

  lemma OneMore(s: Store, c: seq<Id>, k: nat)
    requires Live(s, c) && k < |c|
    ensures |Bytes(s, c[..k + 1])| == |Bytes(s, c[..k])| + |s[c[k]].data|
  {
    assert c[..k + 1] == c[..k] + [c[k]];
    BytesConcat(s, c[..k], [c[k]]);
    assert Bytes(s, [c[k]]) == s[c[k]].data + Bytes(s, [c[k]][1..]);
  }

  /** The first two updates of pbuf_split_64k leave a chain, and with the others make up
      the cut. */
  lemma FrontCut(s: Store, rank: map<Id, nat>, c: seq<Id>, k: nat)
    requires Linked(s, rank) && IsChain(s, c) && Live(s, c) && 0 < k < |c|
    ensures var v := s[c[k - 1] := s[c[k - 1]].(next := Null)]; var d: int := s[c[k]].tot;
            && Linked(v, rank) && IsChain(v, c[..k]) && c[k] in v && v[c[k]] == s[c[k]]
            && var u := AddTot(v, c[..k], -d);
               u[c[k] := u[c[k]].(fin := u[c[k]].fin || u[c[0]].fin)] == SplitAt(s, c, k)
  {
    SplitNext(s, rank, c, k);
    var l := c[k - 1];
    var v := s[l := s[l].(next := Null)];
    assert Cut(s, v, l);
    CutLinked(s, v, rank, l);
    forall i | 0 <= i < |c| && i != k - 1 ensures c[i] != l {
      if i < k - 1 {
        ChainFalls(s, rank, c, i, k - 1);
      } else {
        ChainFalls(s, rank, c, k - 1, i);
      }
    }
    CutChains(s, v, c, k);
    hide IsChain, Linked;
    BuildsCut(s, v, c, k);
  }

  lemma BuildsCut(s: Store, v: Store, c: seq<Id>, k: nat)
    requires IsChain(s, c) && 0 < k < |c| && Live(s, c) && c[k] !in c[..k]
             && v == s[c[k - 1] := s[c[k - 1]].(next := Null)]
    ensures var d: int := s[c[k]].tot; var u := AddTot(v, c[..k], -d);
            u[c[k] := u[c[k]].(fin := u[c[k]].fin || u[c[0]].fin)] == SplitAt(s, c, k)
  {
    hide IsChain;
    var l := c[k - 1];
    var d: int := s[c[k]].tot;
    var u := AddTot(v, c[..k], -d);
    var t := u[c[k] := u[c[k]].(fin := u[c[k]].fin || u[c[0]].fin)];
    assert t.Keys == s.Keys;
    assert l in c[..k] by { assert c[..k][k - 1] == l; }
    assert u[c[0]].fin == s[c[0]].fin;
    forall y | y in s ensures t[y] == CutNode(s, c, k, y) {
    }
    assert t == SplitAt(s, c, k);
  }

  lemma RejoinReady(b: Store, rank: map<Id, nat>, d: seq<Id>, j: nat)
    requires Linked(b, rank) && IsChain(b, d) && Live(b, d) && 0 < j < |d|
    ensures IsChain(SplitAt(b, d, j), d[..j]) && IsChain(SplitAt(b, d, j), d[j..])
    ensures d[..j][j - 1] !in d[j..]
  {
    FrontNodes(b, rank, d, j);
    CutChains(b, SplitAt(b, d, j), d, j);
    forall i | j <= i < |d| ensures d[i] != d[j - 1] {
      ChainFalls(b, rank, d, j - 1, i);
    }
  }

  /** The walk of pbuf_realloc does not run off the chain. */
  lemma NotLast(s: Store, c: seq<Id>, k: nat, m: nat)
    requires Live(s, c) && k < |c| && m < |Bytes(s, c)| && |Bytes(s, c[..k + 1])| < m
    ensures k + 1 < |c|
  {
    assert c[..|c|] == c;
  }

  lemma KeepsData(s: Store, c: seq<Id>, d: int)
    ensures forall x :: x in s ==> x in AddTot(s, c, d) && AddTot(s, c, d)[x].data == s[x].data
    ensures forall x :: x in s ==> AddTot(s, c, d)[x].next == s[x].next && AddTot(s, c, d)[x].ref == s[x].ref
  {
  }

  /** The store when pbuf_realloc has shortened the chain to m bytes, ending in c[k]. */
  ghost function Truncated(s: Store, c: seq<Id>, k: nat, m: nat): Store
    requires Live(s, c) && k < |c| && 0 <= m - |Bytes(s, c[..k])| <= |s[c[k]].data| && m < TWO16
  {
    var u := AddTot(s, c[..k], m - s[c[0]].tot);
    var rem := m - |Bytes(s, c[..k])|;
    u[c[k] := u[c[k]].(data := u[c[k]].data[..rem], tot := rem, next := Null)]
  }

  lemma TruncatedCut(s: Store, rank: map<Id, nat>, c: seq<Id>, k: nat, m: nat)
    requires Linked(s, rank) && IsChain(s, c) && Live(s, c) && k < |c|
    requires 0 <= m - |Bytes(s, c[..k])| <= |s[c[k]].data| && m < TWO16
    ensures var u := Truncated(s, c, k, m); var d: int := s[c[0]].tot - m; var rem := m - |Bytes(s, c[..k])|;
            && Cut(s, u, c[k]) && Live(u, c) && Framed(s, u, c)
            && (forall i :: 0 <= i < k ==> u[c[i]] == s[c[i]].(tot := u[c[i]].tot))
            && u[c[k]] == s[c[k]].(data := u[c[k]].data, tot := u[c[k]].tot, next := Null)
            && FrontBumped(s, u, c, k, d) && (forall i :: 0 <= i < k ==> u[c[i]].next == s[c[i]].next)
            && u[c[k]].data == s[c[k]].data[..rem] && u[c[k]].tot == rem && u[c[k]].next == Null
            && (forall i :: k < i < |c| ==> u[c[i]] == s[c[i]])
  {
    FrontPlaces(s, rank, c, k);
    hide Linked, IsChain;
  }

  lemma FrontPlaces(s: Store, rank: map<Id, nat>, c: seq<Id>, k: nat)
    requires Linked(s, rank) && IsChain(s, c) && k < |c|
    ensures c[k] !in c[..k]
    ensures forall i :: 0 <= i < |c| ==>
              (i < k ==> c[i] in c[..k]) && (i > k ==> c[i] !in c[..k]) && (i != k ==> c[i] != c[k])
  {
    hide Linked, IsChain;
    NotEarlier(s, rank, c, k);
    forall i | 0 <= i < |c| ensures (i < k ==> c[i] in c[..k]) && (i > k ==> c[i] !in c[..k])
      && (i != k ==> c[i] != c[k]) {
      if i < k {
        assert c[..k][i] == c[i];
        ChainFalls(s, rank, c, i, k);
      } else if i > k {
        NotEarlier(s, rank, c, i);
        assert c[..i][k] == c[k];
        assert forall x :: x in c[..k] ==> x in c[..i];
      }
    }
  }

  lemma Truncate(s: Store, held: map<Id, nat>, rank: map<Id, nat>, c: seq<Id>, k: nat, m: u16, next: Link)
    requires Linked(s, rank) && Counted(s, held, 0, 0) && IsChain(s, c) && Live(s, c) && Totals(s, c) && k < |c|
    requires 0 <= m - |Bytes(s, c[..k])| <= |s[c[k]].data| && m < s[c[0]].tot && next == s[c[k]].next
    ensures var u := Truncated(s, c, k, m);
            && Linked(u, rank) && IsChain(u, c[..k + 1]) && Live(u, c) && Totals(u, c[..k + 1])
            && m <= |Bytes(s, c)| && Bytes(u, c[..k + 1]) == Bytes(s, c)[..m]
            && next == (if k + 1 < |c| then To(c[k + 1]) else Null)
            && (next.To? ==> Counted(u, held, next.id, 1) && IsChain(u, c[k + 1..]))
            && (next.Null? ==> Counted(u, held, 0, 0))
  {
    var u := Truncated(s, c, k, m);
    ChainTail(s, c, k);
    TruncateContents(s, rank, c, k, m);
    TruncatedCut(s, rank, c, k, m);
    hide Truncated, Linkers, Totals, TotalIs;
    CutLinked(s, u, rank, c[k]);
    if next.To? {
      hide IsChain;
      CutCounted(s, u, held, c[k], c[k + 1]);
    } else {
      hide IsChain;
      SameCounts(s, u, held);
    }
  }

  lemma TruncateContents(s: Store, rank: map<Id, nat>, c: seq<Id>, k: nat, m: u16)
    requires Linked(s, rank) && IsChain(s, c) && Live(s, c) && Totals(s, c) && k < |c|
    requires 0 <= m - |Bytes(s, c[..k])| <= |s[c[k]].data| && m < s[c[0]].tot
    ensures var u := Truncated(s, c, k, m);
            && IsChain(u, c[..k + 1]) && Live(u, c) && Totals(u, c[..k + 1])
            && m <= |Bytes(s, c)| && Bytes(u, c[..k + 1]) == Bytes(s, c)[..m]
            && (k + 1 < |c| ==> IsChain(u, c[k + 1..]))
  {
    hide Linked, Truncated, FrontBumped, IsChain, Totals, TotalIs, Bytes;
    ChainHead(s, c);
    ShrinkTotal(s[c[0]].tot, |Bytes(s, c)|, m);
    TruncatedCut(s, rank, c, k, m);
    ChainTail(s, c, k);
    TruncatedFacts(s, Truncated(s, c, k, m), c, k, m);
  }

  lemma ChainHead(s: Store, c: seq<Id>)
    requires IsChain(s, c) && Live(s, c) && Totals(s, c)
    ensures c != [] && TotalIs(s[c[0]].tot, |Bytes(s, c)|)
  {
  }

  lemma TruncatedFacts(s: Store, u: Store, c: seq<Id>, k: nat, m: u16)
    requires IsChain(s, c) && Live(s, c) && Live(u, c) && Totals(s, c) && k < |c| && u[c[k]].next == Null
    requires forall i :: 0 <= i < |c| && i != k ==> u[c[i]].next == s[c[i]].next
    requires m < s[c[0]].tot && m <= |Bytes(s, c)| && TotalIs(s[c[0]].tot - m, |Bytes(s, c)| - m)
    requires FrontBumped(s, u, c, k, s[c[0]].tot - m)
    requires var rem := m - |Bytes(s, c[..k])|;
             0 <= rem <= |s[c[k]].data| && u[c[k]].data == s[c[k]].data[..rem] && u[c[k]].tot == rem
    ensures IsChain(u, c[..k + 1]) && (k + 1 < |c| ==> IsChain(u, c[k + 1..]))
    ensures Totals(u, c[..k + 1]) && Bytes(u, c[..k + 1]) == Bytes(s, c)[..m]
  {
    hide Totals, TotalIs, IsChain, Bytes, FrontBumped;
    TruncateChains(s, u, c, k);
    TruncTotals(s, u, c, k, s[c[0]].tot - m, m);
  }

  lemma TruncateChains(s: Store, u: Store, c: seq<Id>, k: nat)
    requires IsChain(s, c) && Live(s, c) && k < |c| && Live(u, c) && u[c[k]].next == Null
    requires forall i :: 0 <= i < |c| && i != k ==> u[c[i]].next == s[c[i]].next
    ensures IsChain(u, c[..k + 1]) && (k + 1 < |c| ==> IsChain(u, c[k + 1..]))
  {
    ChainTail(s, c, k);
    hide IsChain;
    if k + 1 < |c| {
      CutChains(s, u, c, k + 1);
    } else {
      ChainSame(s, u, c);
      assert c[..k + 1] == c;
    }
  }

  lemma SameCounts(s: Store, u: Store, held: map<Id, nat>)
    requires Counted(s, held, 0, 0) && u.Keys == s.Keys 
    requires forall y :: y in s ==> u[y].next == s[y].next && u[y].ref == s[y].ref
    ensures Counted(u, held, 0, 0)
  {
    hide Linkers;
    forall y | y in u ensures u[y].ref > 0 && Surplus(u, held, y) == 0 {
      assert Surplus(s, held, y) == 0;
      SameLinks(s, u, y);
    }
  }

  /** Dropping what was cut off leaves the shortened chain alone. */
  lemma TruncateDropped(s: Store, rank: map<Id, nat>, c: seq<Id>, k: nat, m: nat)
    requires Linked(s, rank) && IsChain(s, c) && Live(s, c) && k + 1 < |c|
    requires 0 <= m - |Bytes(s, c[..k])| <= |s[c[k]].data| && m < TWO16
    requires var u := Truncated(s, c, k, m);
             && Live(u, c) && IsChain(u, c[..k + 1]) && Totals(u, c[..k + 1])
             && Positive(u, c[k + 1..])
    ensures var u := Truncated(s, c, k, m); var t := Dropped(u, c[k + 1..]); var run := RunLen(s, c[k + 1..]);
            && IsChain(t, c[..k + 1]) && Live(t, c[..k + 1]) && Totals(t, c[..k + 1])
            && Bytes(t, c[..k + 1]) == Bytes(u, c[..k + 1])
            && Released(s, t, c[k + 1..]) && Framed(u, t, c[k + 1..])
  {
    var u, d := Truncated(s, c, k, m), c[k + 1..];
    hide Truncated, Linked, IsChain, Totals, Bytes, AllApart, Dropped, Released, Framed, FrontBumped, Cut, RunLen;
    TruncatedCut(s, rank, c, k, m);
    Distinct(s, rank, c);
    SameBehind(s, u, c, k + 1);
    DropBehind(u, c, k + 1);
    ReleasedSame(s, u, Dropped(u, d), d);
  }

  lemma SameBehind(s: Store, u: Store, c: seq<Id>, k: nat)
    requires k <= |c| && Live(s, c) && Live(u, c) && forall i :: k <= i < |c| ==> u[c[i]] == s[c[i]]
    ensures Live(s, c[k..]) && Live(u, c[k..]) && forall i :: 0 <= i < |c[k..]| ==> u[c[k..][i]] == s[c[k..][i]]
  {
    assert forall i :: 0 <= i < |c[k..]| ==> c[k..][i] == c[i + k];
  }

  lemma ReleasedSame(s: Store, u: Store, t: Store, d: seq<Id>)
    requires Live(s, d) && Live(u, d) && (forall i :: 0 <= i < |d| ==> u[d[i]] == s[d[i]]) && Released(u, t, d)
    ensures Released(s, t, d)
  {
    SameRun(s, u, d);
  }

  /** What pbuf_realloc leaves, seen from the store before. */
  lemma TruncateFrame(s: Store, t: Store, rank: map<Id, nat>, c: seq<Id>, k: nat, m: nat)
    requires Linked(s, rank) && IsChain(s, c) && Live(s, c) && k < |c|
    requires 0 <= m - |Bytes(s, c[..k])| <= |s[c[k]].data| && m < TWO16
    requires Framed(Truncated(s, c, k, m), t, c[k + 1..])
    ensures Framed(s, t, c) && Live(t, c[..k + 1])
    ensures forall i :: 0 <= i < k ==> t[c[i]] == s[c[i]].(tot := t[c[i]].tot)
    ensures t[c[k]] == s[c[k]].(data := t[c[k]].data, tot := t[c[k]].tot, next := Null)
  {
    hide Truncated, Linked, IsChain, Bytes;
    var u := Truncated(s, c, k, m);
    TruncatedCut(s, rank, c, k, m);
    Distinct(s, rank, c);
    SliceApart(c, k + 1);
    assert forall x :: x in c[k + 1..] ==> x in c;
    forall i | 0 <= i <= k ensures c[i] in t && t[c[i]] == u[c[i]] {
      assert c[i] !in c[k + 1..];
    }
  }

  lemma DropBehind(u: Store, c: seq<Id>, k: nat)
    requires k <= |c| && Live(u, c) && AllApart(c) && Positive(u, c[k..]) && IsChain(u, c[..k]) && Totals(u, c[..k])
    ensures var t := Dropped(u, c[k..]);
            && IsChain(t, c[..k]) && Live(t, c[..k]) && Totals(t, c[..k]) && Bytes(t, c[..k]) == Bytes(u, c[..k])
            && Released(u, t, c[k..]) && Framed(u, t, c[k..])
  {
    var a, d := c[..k], c[k..];
    SliceApart(c, k);
    DroppedKeys(u, d);
    hide Dropped, Released, RunLen, IsChain, Totals, Bytes, AllApart;
    assert forall i :: 0 <= i < |a| ==> a[i] == c[i];
    FrontSame(u, Dropped(u, d), a);
  }

  lemma SameRun(s: Store, u: Store, d: seq<Id>)
    requires Live(s, d) && Live(u, d) && forall i :: 0 <= i < |d| ==> u[d[i]].ref == s[d[i]].ref
    ensures RunLen(u, d) == RunLen(s, d)
  {
    RunLenIs(u, d, RunLen(s, d));
  }

  lemma FrontSame(u: Store, t: Store, a: seq<Id>)
    requires Live(u, a) && IsChain(u, a) && Totals(u, a) && forall i :: 0 <= i < |a| ==> a[i] in t && t[a[i]] == u[a[i]]
    ensures IsChain(t, a) && Live(t, a) && Totals(t, a) && Bytes(t, a) == Bytes(u, a)
  {
    ChainSame(u, t, a);
    BytesSame(u, t, a);
    TotalsSame(u, t, a);
  }

  ghost function Unchained(s: Store, p: Id, q: Id): Store
    requires p in s && q in s
  {
    var rest: int := s[p].tot - |s[p].data|;
    s[q := s[q].(tot := rest % TWO16)][p := s[p].(next := Null, tot := |s[p].data| % TWO16)]
  }

  lemma Unchain(s: Store, held: map<Id, nat>, rank: map<Id, nat>, c: seq<Id>)
    requires Linked(s, rank) && Counted(s, held, 0, 0) && IsChain(s, c) && |c| > 1
    ensures c[1] in s && c[0] != c[1]
    ensures var u := Unchained(s, c[0], c[1]);
            Linked(u, rank) && Counted(u, held, c[1], 1) && IsChain(u, c[1..])
  {
    ChainTail(s, c, 1);
    ChainFalls(s, rank, c, 0, 1);
    var u := Unchained(s, c[0], c[1]);
    assert Cut(s, u, c[0]);
    CutCounted(s, u, held, c[0], c[1]);
    CutLinked(s, u, rank, c[0]);
    ChainLive(s, c);
    forall i | 1 <= i < |c| ensures c[i] != c[0] {
      ChainFalls(s, rank, c, 0, i);
    }
    ChainSame(s, u, c[1..]);
  }

  /** What is left after the successor's reference is dropped. */
  lemma UnchainedDropped(s: Store, rank: map<Id, nat>, c: seq<Id>)
    requires Linked(s, rank) && IsChain(s, c) && |c| > 1 && Live(s, c)
    requires Live(Unchained(s, c[0], c[1]), c[1..]) && forall i :: 1 <= i < |c| ==> s[c[i]].ref > 0
    ensures var u := Unchained(s, c[0], c[1]); var run := RunLen(s, c[1..]);
            && (forall i :: 0 <= i < |c| - 1 ==> u[c[1..][i]].ref > 0) && RunLen(u, c[1..]) == run
            && var t := Dropped(u, c[1..]);
               && Framed(s, t, c) && c[0] in t && Released(u, t, c[1..])
               && t[c[0]] == s[c[0]].(next := Null, tot := |s[c[0]].data| % TWO16)
  {
    hide IsChain, Linked, Unchained, Released, Dropped, Framed, RunLen;
    var u, d := Unchained(s, c[0], c[1]), c[1..];
    UnchainedShape(s, rank, c);
    DroppedKeys(u, d);
    FramedOn(s, u, Dropped(u, d), c, d);
  }

  lemma UnchainedShape(s: Store, rank: map<Id, nat>, c: seq<Id>)
    requires Linked(s, rank) && IsChain(s, c) && |c| > 1 && Live(s, c)
    requires Live(Unchained(s, c[0], c[1]), c[1..]) && forall i :: 1 <= i < |c| ==> s[c[i]].ref > 0
    ensures var u, d := Unchained(s, c[0], c[1]), c[1..];
            && (forall i :: 0 <= i < |d| ==> u[d[i]].ref > 0) && RunLen(u, d) == RunLen(s, d) && AllApart(d)
            && Framed(s, u, c) && c[0] in u && c[0] !in d && (forall x :: x in d ==> x in c)
            && u[c[0]] == s[c[0]].(next := Null, tot := |s[c[0]].data| % TWO16)
  {
    var u, d := Unchained(s, c[0], c[1]), c[1..];
    Distinct(s, rank, c);
    SliceApart(c, 1);
    hide IsChain, Linked, AllApart;
    assert forall i :: 0 <= i < |d| ==> d[i] == c[i + 1];
    assert c[0] !in d && c[1] in c;
    SameRun(s, u, d);
  }

  lemma FramedOn(s: Store, u: Store, t: Store, c: seq<Id>, d: seq<Id>)
    requires Framed(s, u, c) && Framed(u, t, d) && forall x :: x in d ==> x in c
    ensures Framed(s, t, c) && forall x :: x in u && x !in d ==> x in t && t[x] == u[x]
  {
  }

  /** With right totals the successor's tot_len was right already. */
  lemma UnchainedTotals(s: Store, rank: map<Id, nat>, c: seq<Id>, t: Store)
    requires Linked(s, rank) && IsChain(s, c) && |c| > 1 && Live(s, c)
    requires Live(Unchained(s, c[0], c[1]), c[1..]) && Released(Unchained(s, c[0], c[1]), t, c[1..])
    ensures Totals(s, c) ==> |s[c[0]].data| % TWO16 == |s[c[0]].data| && Released(s, t, c[1..])
  {
    if Totals(s, c) {
      Distinct(s, rank, c);
      RightTotals(s, c, t);
    }
  }

  lemma RightTotals(s: Store, c: seq<Id>, t: Store)
    requires IsChain(s, c) && |c| > 1 && Live(s, c) && Totals(s, c) && AllApart(c)
    requires Live(Unchained(s, c[0], c[1]), c[1..]) && Released(Unchained(s, c[0], c[1]), t, c[1..])
    ensures |s[c[0]].data| < TWO16 && Released(s, t, c[1..])
  {
    var u, d := Unchained(s, c[0], c[1]), c[1..];
    var a, b: nat := |s[c[0]].data|, |Bytes(s, d)|;
    assert |Bytes(s, c)| == a + b && TotalIs(s[c[0]].tot, a + b) && TotalIs(s[c[1]].tot, b);
    ModRest(s[c[0]].tot, a, b);
    SliceApart(c, 1);
    assert forall i :: 0 <= i < |d| ==> d[i] == c[i + 1] && u[d[i]] == s[d[i]];
    SameRun(s, u, d);
  }

  lemma ModRest(tot: u16, a: nat, b: nat)
    requires TotalIs(tot, a + b) && a < TWO16
    ensures (tot as int - a) % TWO16 == b % TWO16
  {
    var q := (a + b) / TWO16;
    assert a + b == TWO16 * q + tot;
    ModAdd(tot as int - a, q);
  }

  lemma DroppedKeys(u: Store, d: seq<Id>)
    requires Live(u, d) && (forall i :: 0 <= i < |d| ==> u[d[i]].ref > 0) && AllApart(d)
    ensures Released(u, Dropped(u, d), d) && Framed(u, Dropped(u, d), d)
  {
    var run := RunLen(u, d);
    forall i | run <= i < |d| ensures d[i] !in Ids(d[..run]) {
    }
    forall i | 0 <= i < run ensures d[i] in Ids(d[..run]) {
      assert d[..run][i] == d[i];
    }
  }

  lemma JoinedChain(s: Store, c: seq<Id>, d: seq<Id>)
    requires IsChain(s, c) && IsChain(s, d) && c[|c| - 1] !in d
    ensures d[0] in s && IsChain(Joined(s, c, d[0]), c + d)
  {
    ChainLive(s, c);
    ChainLive(s, d);
    Apart(s, c, d);
    JoinNext(s, c, d[0]);
    var j := Joined(s, c, d[0]);
    hide Joined;
    ChainSame(s, j, d);
    forall i | 0 <= i < |c| - 1 ensures j[c[i]].next == s[c[i]].next {
      ChainTail(s, c, i);
      ChainTail(s, c, |c| - 1);
    }
    JoinChain(s, j, c, d);
  }

  // ----- allocating a chain -----------------------------------------------------------------

  function Zeroes(n: nat): (z: seq<byte>)
    ensures |z| == n
  {
    seq(n, _ => 0)
  }

  /** How many buffers hold rem bytes at `full` bytes each. */
  function Blocks(rem: int, full: nat): nat
    requires full > 0
    decreases if rem > 0 then rem else 0
  {
    if rem <= 0 then 0 else 1 + Blocks(rem - full, full)
  }

  function PoolCount(length: nat, first: nat, full: nat): nat
    requires full > 0
  {
    1 + Blocks(length - first, full)
  }

  /** Every tot_len counts the bytes that are there and the rem bytes still to come. */
  ghost predicate Promised(t: Store, c: seq<Id>, rem: nat)
    requires Live(t, c)
  {
    c == [] || (|t[c[0]].data| < TWO16 && t[c[0]].tot == |Bytes(t, c)| + rem && Promised(t, c[1..], rem))
  }

  /** t is s with a new chain c of unshared buffers, which lacks rem of length bytes. */
  ghost predicate Grown(s: Store, t: Store, c: seq<Id>, rem: nat, length: nat)
  {
    && t.Keys == s.Keys + Ids(c) && (forall x :: x in s ==> t[x] == s[x]) && (forall x :: x in c ==> x !in s)
    && Live(t, c) && (forall i :: 0 <= i < |c| ==> t[c[i]].ref == 1)
    && IsChain(t, c) && Promised(t, c, rem) && |Bytes(t, c)| + rem == length
  }

  lemma LastTotal(s: Store, c: seq<Id>)
    requires Live(s, c) && c != []
    ensures Totals(s, c) ==> s[c[|c| - 1]].tot == |s[c[|c| - 1]].data|
    decreases |c|
  {
    TotalsCons(s, c);
    if |c| > 1 {
      LastTotal(s, c[1..]);
    } else {
      assert c[1..] == [];
    }
  }

  /** Right totals add up without wrapping exactly if the chain fits 16 bits. */
  lemma WrappedIff(s: Store, c: seq<Id>)
    requires Live(s, c) && |c| > 1
    ensures Totals(s, c) ==>
              (s[c[1]].tot != s[c[0]].tot - |s[c[0]].data| <==> |s[c[0]].data| + s[c[1]].tot >= TWO16)
  {
    TotalsCons(s, c);
    TotalsCons(s, c[1..]);
    if Totals(s, c) {
      AddWrap(|s[c[0]].data|, |Bytes(s, c[1..])|);
    }
  }

  lemma AddWrap(a: nat, b: nat)
    requires a < TWO16
    ensures (a + b) % TWO16 == if a + b % TWO16 < TWO16 then a + b % TWO16 else a + b % TWO16 - TWO16
  {
  }

  // ----- chains of single buffers --------------------------------------------------------------

  /** The first i buffers of free are a chain of one byte each, without other references;
      the others are still free. */
  ghost predicate Singles(s: Store, free: seq<Id>, i: nat)
  {
    && 0 < i <= |free| && AllApart(free) && IsChain(s, free[..i]) && Live(s, free[..i]) && Totals(s, free[..i])
    && |Bytes(s, free[..i])| == i
    && (forall x :: x in free[..i] ==> x in s && s[x].ref == 1) && (forall x :: x in free[i..] ==> x !in s)
  }

  lemma OneBuffer(first: nat, full: nat)
    requires first > 0 && full > 0
    ensures PoolCount(1, first, full) == 1
  {
  }

  lemma FreeTail(s: Store, free: seq<Id>, i: nat)
    requires AllApart(free) && i < |free|
    ensures AllApart(free[i..]) && free[i..][..1] == [free[i]] && free[i..] != [] && free[i..][0] == free[i]
    ensures free[..i] + [free[i]] == free[..i + 1] && free[i] !in free[..i]
    ensures forall x :: x in free[i + 1..] ==> x in free[i..] && x != free[i]
  {
    assert forall k :: 0 <= k < |free[i..]| ==> free[i..][k] == free[i + k];
  }

  lemma FirstSingle(s: Store, t: Store, free: seq<Id>, c: seq<Id>)
    requires AllApart(free) && free != [] && (forall x :: x in free ==> x !in s) && c == free[..1]
    requires IsChain(t, c) && Live(t, c) && Totals(t, c) && |Bytes(t, c)| == 1
    requires (forall x :: x in c ==> x in t && t[x].ref == 1) && t.Keys == s.Keys + {c[0]}
    ensures Singles(t, free, 1)
  {
    FreeTail(s, free, 0);
    hide IsChain, Totals, AllApart;
    assert free[0..] == free;
  }

  /** Allocating the next buffer leaves the chain alone. */
  lemma SinglesStay(s: Store, t: Store, free: seq<Id>, i: nat, d: seq<Id>)
    requires Singles(s, free, i) && i < |free| && d == [free[i]] && t.Keys == s.Keys + Ids(d)
    requires forall x :: x in s ==> t[x] == s[x]
    ensures var c := free[..i];
            && IsChain(t, c) && Live(t, c) && Totals(t, c) && |Bytes(t, c)| == i
               && (forall x :: x in c ==> x in t && t[x].ref == 1)
    ensures forall x :: x in free[i + 1..] ==> x !in t
    ensures free[i] !in free[..i]
  {
    FreeTail(s, free, i);
    hide IsChain, Totals, AllApart;
    ChainSame(s, t, free[..i]);
    BytesSame(s, t, free[..i]);
    TotalsSame(s, t, free[..i]);
  }

  lemma SinglesJoined(s: Store, t: Store, free: seq<Id>, i: nat, d: seq<Id>)
    requires 0 < i < |free| && AllApart(free) && d == [free[i]]
    requires var c := free[..i];
             && IsChain(s, c) && Live(s, c) && Totals(s, c) && |Bytes(s, c)| == i
                && (forall x :: x in c ==> x in s && s[x].ref == 1)
    requires IsChain(s, d) && Live(s, d) && Totals(s, d) && |Bytes(s, d)| == 1 && s[free[i]].ref == 1
    requires free[i] !in free[..i] && (forall x :: x in free[i + 1..] ==> x !in s) && t == Joined(s, free[..i], free[i])
    requires IsChain(t, free[..i] + d)
    ensures Singles(t, free, i + 1)
  {
    var c := free[..i];
    FreeTail(s, free, i);
    CatContents(s, c, d);
    JoinNext(s, c, free[i]);
    hide IsChain, Totals, AllApart, Joined;
    assert c + d == free[..i + 1];
  }

  lemma SinglesUnshared(s: Store, free: seq<Id>, i: nat)
    requires Singles(s, free, i) && 1 < i < TWO16
    ensures var c := free[..i];
            && IsChain(s, c) && Live(s, c) && c[0] == free[0] && c[1] in free && Totals(s, c)
            && RunLen(s, c[1..]) == i - 1 && |s[c[0]].data| + s[c[1]].tot < TWO16
  {
    var c := free[..i];
    hide IsChain, AllApart;
    TotalsCons(s, c);
    TotalsCons(s, c[1..]);
    Unshared(s, c);
    TotalExact(s[c[1]].tot, |Bytes(s, c[1..])|);
  }

  lemma Unshared(s: Store, c: seq<Id>)
    requires c != [] && Live(s, c) && forall x :: x in c ==> x in s && s[x].ref == 1
    ensures RunLen(s, c[1..]) == |c| - 1
  {
    RunLenIs(s, c[1..], |c| - 1);
  }

  lemma FirstGrown(s: Store, p: Id, n: nat, length: u16)
    requires p !in s && n <= length
    ensures Grown(s, s[p := Node(Zeroes(n), length, 1, Null, false)], [p], length - n, length)
  {
    var t := s[p := Node(Zeroes(n), length, 1, Null, false)];
    assert [p][1..] == [] && Ids([p]) == {p};
    assert Bytes(t, [p]) == t[p].data + Bytes(t, [p][1..]);
    assert Promised(t, [p][1..], length - n);
  }

  lemma NextFree(free: seq<Id>, k: nat)
    requires AllApart(free) && k < |free|
    ensures free[k] !in free[..k] && free[k] in free && free[..k] + [free[k]] == free[..k + 1]
  {
  }

  lemma GrownLast(s: Store, t: Store, c: seq<Id>, rem: nat, length: nat, q: Id)
    requires Grown(s, t, c, rem, length) && q !in s && q !in c
    ensures c[|c| - 1] in t && t[c[|c| - 1]].next == Null && q !in t && q != c[|c| - 1]
  {
    ChainTail(t, c, |c| - 1);
  }

  /** A fresh buffer linked behind a last one is counted right. */
  lemma Attached(t: Store, held: map<Id, nat>, rank: map<Id, nat>, l: Id, q: Id, n: Node)
    requires Linked(t, rank) && Counted(t, held, 0, 0) && l in t && t[l].next == Null && q !in t && n.ref == 1
             && n.next == Null
    ensures var u := t[q := n][l := t[l].(next := To(q))];
            && Linked(u, (map x | x in rank :: rank[x] + 1)[q := 0]) && Counted(u, held, 0, 0)
  {
    var v := t[q := n];
    var u, r := v[l := t[l].(next := To(q))], (map x | x in rank :: rank[x] + 1)[q := 0];
    forall y | y in u ensures LinkOk(u, r, y) {
      assert y in t ==> LinkOk(t, rank, y);
    }
    NoneLinkOut(t, rank, q);
    hide Linkers, Linked;
    forall y | y in u ensures u[y].ref > 0 && Surplus(u, held, y) == 0 {
      assert y in t ==> Surplus(t, held, y) == 0;
      Added(t, q, n, y);
      Relinked(v, l, t[l].(next := To(q)), y);
    }
  }

  lemma GrownMore(s: Store, t: Store, c: seq<Id>, rem: u16, length: nat, q: Id, k: nat)
    requires Grown(s, t, c, rem, length) && c != [] && q !in s && q !in c && 0 < k <= rem && c[|c| - 1] in t
    ensures var l := c[|c| - 1];
            var u := t[q := Node(Zeroes(k), rem, 1, Null, false)][l := t[l].(next := To(q))];
            Grown(s, u, c + [q], rem - k, length)
  {
    var l := c[|c| - 1];
    var u := t[q := Node(Zeroes(k), rem, 1, Null, false)][l := t[l].(next := To(q))];
    assert l in c;
    assert forall i :: 0 <= i < |c| ==> c[i] in c;
    assert Ids(c + [q]) == Ids(c) + {q};
    LongerChain(t, u, c, q);
    LongerPromise(t, u, c, q, rem, k);
  }

  lemma {:induction false} LongerChain(t: Store, u: Store, c: seq<Id>, q: Id)
    requires IsChain(t, c) && Live(t, c) && Live(u, c) && q in u && u[q].next == Null && u[c[|c| - 1]].next == To(q)
    requires forall i :: 0 <= i < |c| && c[i] != c[|c| - 1] ==> u[c[i]].next == t[c[i]].next
    ensures IsChain(u, c + [q])
  {
    if |c| > 1 {
      assert (c + [q])[1..] == c[1..] + [q];
      if c[0] == c[|c| - 1] {
        ChainTail(t, c, |c| - 1);
        assert false;
      }
      LongerChain(t, u, c[1..], q);
    } else {
      assert (c + [q])[1..] == [q];
    }
  }

  lemma {:induction false} LongerPromise(t: Store, u: Store, c: seq<Id>, q: Id, rem: nat, k: nat)
    requires Live(t, c) && Live(u, c) && q in u && Promised(t, c, rem) && k <= rem < TWO16
    requires |u[q].data| == k && u[q].tot == rem
    requires forall i :: 0 <= i < |c| ==> u[c[i]].data == t[c[i]].data && u[c[i]].tot == t[c[i]].tot
    ensures Live(u, c + [q]) && Promised(u, c + [q], rem - k) && |Bytes(u, c + [q])| == |Bytes(t, c)| + k
  {
    if c == [] {
      assert c + [q] == [q] && [q][1..] == [];
      assert Bytes(u, [q]) == u[q].data + Bytes(u, [q][1..]);
    } else {
      assert (c + [q])[1..] == c[1..] + [q];
      LongerPromise(t, u, c[1..], q, rem, k);
    }
  }

  lemma {:induction false} PromiseKept(t: Store, c: seq<Id>)
    requires Live(t, c) && Promised(t, c, 0)
    ensures Totals(t, c)
  {
    if c != [] {
      PromiseKept(t, c[1..]);
    }
  }

  lemma GrownDone(s: Store, t: Store, c: seq<Id>, length: nat)
    requires Grown(s, t, c, 0, length) && c != []
    ensures IsChain(t, c) && Live(t, c) && Totals(t, c) && |Bytes(t, c)| == length && t[c[0]].tot == length
    ensures t.Keys == s.Keys + Ids(c) && forall x :: x in s ==> x in t && t[x] == s[x]
    ensures forall x :: x in c ==> x in t && t[x].ref == 1
  {
    PromiseKept(t, c);
    forall x | x in c ensures x in t && t[x].ref == 1 {
      var i :| 0 <= i < |c| && c[i] == x;
    }
  }

  lemma NotHeld(s: Store, held: map<Id, nat>, p: Id)
    requires Counted(s, held, 0, 0) && p !in s
    ensures Held(held, p) == 0
  {
  }

  /** Freeing the unshared chain gives the old store back. */
  lemma GrownDropped(s: Store, t: Store, c: seq<Id>, rem: nat, length: nat)
    requires Grown(s, t, c, rem, length)
    ensures IsChain(t, c) && Live(t, c) && Positive(t, c) && Dropped(t, c) == s
  {
    RunLenIs(t, c, |c|);
    assert c[..|c|] == c;
    assert t - Ids(c) == s;
  }

  function Low8(k: nat): byte { k % 256 }

  /** The loop of pbuf_free has released the first k nodes of the chain c of s. */
  ghost predicate Midway(s: Store, t: Store, held: map<Id, nat>, rank: map<Id, nat>, c: seq<Id>, k: nat)
  {
    && Linked(s, rank) && IsChain(s, c) && Live(s, c) && (forall i :: 0 <= i < |c| ==> s[c[i]].ref > 0)
    && k < |c| && (forall i :: 0 <= i < k ==> s[c[i]].ref == 1)
    && t == s - Ids(c[..k]) && Linked(t, rank) && Counted(t, held, c[k], 1)
  }

  /** One step of dropping references along the chain c of the store s. */
  lemma DropStep(s: Store, t: Store, held: map<Id, nat>, rank: map<Id, nat>, c: seq<Id>, k: nat, p: Id)
    requires Midway(s, t, held, rank, c, k)
    ensures k < |c| && Live(s, c) && Positive(s, c) && c[k] in t && t[c[k]].ref > 0
    ensures t[c[k]].next == if k + 1 < |c| then To(c[k + 1]) else Null
    ensures t[c[k]].ref == 1 && k + 1 < |c| ==> Midway(s, t - {c[k]}, held, rank, c, k + 1)
    ensures t[c[k]].ref == 1 && k + 1 == |c| ==>
              Linked(t - {c[k]}, rank) && Counted(t - {c[k]}, held, p, 0) && t - {c[k]} == Dropped(s, c)
                && RunLen(s, c) == k + 1
    ensures t[c[k]].ref != 1 ==>
              var t' := t[c[k] := t[c[k]].(ref := t[c[k]].ref - 1)];
              Linked(t', rank) && Counted(t', held, p, 0) && t' == Dropped(s, c) && RunLen(s, c) == k
  {
    NotBefore(s, rank, c, k);
    ChainTail(s, c, k);
    hide Counted, Linked, IsChain, Linkers, Dropped;
    var x := c[k];
    if t[x].ref == 1 {
      RemoveOne(t, held, rank, x);
      Shrunk(s, c, k);
      if k + 1 == |c| {
        RunEnds(s, c, k + 1);
        AnyX(t - {x}, held, x, p);
      }
    } else {
      DropOne(t, held, x);
      RunEnds(s, c, k);
      SameRank(t, x, rank);
      AnyX(t[x := t[x].(ref := t[x].ref - 1)], held, x, p);
    }
  }

  lemma AllocCounts(s: Store, held: map<Id, nat>, rank: map<Id, nat>, p: Id, n: Node)
    requires Linked(s, rank) && Counted(s, held, 0, 0) && p !in s && n.ref == 1 && n.next == Null
    ensures Linked(s[p := n], rank[p := 0]) && Counted(s[p := n], held[p := 1], 0, 0)
  {
    var t := s[p := n];
    forall y | y in t ensures LinkOk(t, rank[p := 0], y) {
      assert y in s ==> LinkOk(s, rank, y);
    }
    NoneLinkOut(s, rank, p);
    hide Linkers;
    forall y | y in t ensures t[y].ref > 0 && Surplus(t, held[p := 1], y) == 0 {
      Added(s, p, n, y);
      assert y in s ==> Surplus(s, held, y) == 0;
    }
  }

  lemma Added(s: Store, p: Id, n: Node, x: Id)
    requires p !in s && n.next == Null
    ensures Linkers(s[p := n], x) == Linkers(s, x)
  {
    assert Linking(s[p := n], x) == Linking(s, x);
  }

  lemma RefCounts(s: Store, held: map<Id, nat>, rank: map<Id, nat>, p: Id)
    requires Linked(s, rank) && Counted(s, held, 0, 0) && p in s && s[p].ref < 255
    ensures var t := s[p := s[p].(ref := s[p].ref + 1)];
            Linked(t, rank) && Counted(t, held[p := Held(held, p) + 1], 0, 0)
  {
    hide Linkers;
    var t := s[p := s[p].(ref := s[p].ref + 1)];
    LinkedSame(s, t, rank);
    forall y | y in t ensures t[y].ref > 0 && Surplus(t, held[p := Held(held, p) + 1], y) == 0 {
      SameLinks(s, t, y);
      assert Surplus(s, held, y) == 0;
    }
  }

  /** The caller's reference is about to be dropped. */
  lemma ReleaseHold(s: Store, held: map<Id, nat>, p: Id)
    requires Counted(s, held, 0, 0) && p in s && Held(held, p) > 0
    ensures Counted(s, held[p := Held(held, p) - 1], p, 1)
  {
    hide Linkers;
    forall y | y in s ensures s[y].ref > 0 && Surplus(s, held[p := Held(held, p) - 1], y) == if y == p then 1 else 0 {
      assert Surplus(s, held, y) == 0;
    }
  }

  lemma SameRank(s: Store, x: Id, rank: map<Id, nat>)
    requires Linked(s, rank) && x in s && s[x].ref > 0
    ensures Linked(s[x := s[x].(ref := s[x].ref - 1)], rank)
  {
    LinkedSame(s, s[x := s[x].(ref := s[x].ref - 1)], rank);
  }

  lemma LinkedSame(s: Store, t: Store, rank: map<Id, nat>)
    requires Linked(s, rank) && t.Keys == s.Keys && forall y :: y in s ==> t[y].next == s[y].next
    ensures Linked(t, rank)
  {
    forall y | y in t ensures LinkOk(t, rank, y) {
      assert LinkOk(s, rank, y);
    }
  }

  /** Where the run of released buffers ends. */
  lemma RunEnds(s: Store, c: seq<Id>, k: nat)
    requires Live(s, c) && (forall i :: 0 <= i < |c| ==> s[c[i]].ref > 0)
    requires k <= |c| && (forall i :: 0 <= i < k ==> s[c[i]].ref == 1) && (k < |c| ==> s[c[k]].ref != 1)
    ensures RunLen(s, c) == k
    ensures Dropped(s, c) == if k < |c| then (s - Ids(c[..k]))[c[k] := s[c[k]].(ref := s[c[k]].ref - 1)]
            else s - Ids(c[..k])
  {
    RunLenIs(s, c, k);
  }
}
