/** Joining and splitting chains of packet buffers: what happens to links, reference
    counts, contents and 16-bit total lengths. */
module PbufChains {
  import opened Seq32
  import opened PbufStore

  const TWO16: int := 0x1_0000

  lemma {:induction false} ChainUnique(s: Store, a: seq<Id>, b: seq<Id>)
    requires IsChain(s, a) && IsChain(s, b) && a[0] == b[0]
    ensures a == b
  {
    if |a| > 1 {
      ChainUnique(s, a[1..], b[1..]);
      assert a == [a[0]] + a[1..] && b == [b[0]] + b[1..];
    }
  }

  /** Chains that meet end in the same node. */
  lemma Meet(s: Store, c: seq<Id>, d: seq<Id>, i: nat, j: nat)
    requires IsChain(s, c) && IsChain(s, d) && i < |c| && j < |d| && c[i] == d[j]
    ensures c[|c| - 1] in d
  {
    ChainTail(s, c, i);
    ChainTail(s, d, j);
    ChainUnique(s, c[i..], d[j..]);
    var k := |c| - i - 1;
    assert c[i..][k] == c[|c| - 1] && d[j..][k] == d[j + k];
  }

  lemma Apart(s: Store, c: seq<Id>, d: seq<Id>)
    requires IsChain(s, c) && IsChain(s, d) && c[|c| - 1] !in d
    ensures forall x :: x in c ==> x !in d
  {
    forall i, j | 0 <= i < |c| && 0 <= j < |d| ensures c[i] != d[j] {
      if c[i] == d[j] {
        Meet(s, c, d, i, j);
        assert false;
      }
    }
  }

  // ----- adding to tot_len along a chain ----------------------------------------------------

  function Bumped(n: Node, d: int): Node { n.(tot := (n.tot + d) % TWO16) }

  /** The store with d added to the tot_len of the listed nodes. */
  ghost function AddTot(s: Store, c: seq<Id>, d: int): (t: Store)
    ensures t.Keys == s.Keys
    ensures forall x :: x in s ==> t[x] == if x in c then Bumped(s[x], d) else s[x]
  {
    map x | x in s :: if x in c then Bumped(s[x], d) else s[x]
  }

  lemma AddTotOne(s: Store, c: seq<Id>, k: nat, d: int)
    requires k < |c| && c[k] in s && c[k] !in c[..k]
    ensures var t := AddTot(s, c[..k], d); t[c[k] := Bumped(t[c[k]], d)] == AddTot(s, c[..k + 1], d)
  {
    assert c[..k + 1] == c[..k] + [c[k]];
  }

  lemma AddTotNone(s: Store, d: int)
    ensures AddTot(s, [], d) == s
  {
  }

  // ----- pbuf_cat ---------------------------------------------------------------------------

  /** The chain c with the chain at t behind it. */
  ghost function Joined(s: Store, c: seq<Id>, t: Id): Store
    requires IsChain(s, c) && t in s
  {
    var u := AddTot(s, c, s[t].tot);
    var l := c[|c| - 1];
    ChainLive(s, c);
    u[l := u[l].(next := To(t))]
  }

  ghost function Reranked(rank: map<Id, nat>, d: seq<Id>, up: nat): map<Id, nat>
  {
    map x | x in rank :: if x in d then rank[x] else rank[x] + up
  }

  lemma JoinNext(s: Store, c: seq<Id>, t: Id)
    requires IsChain(s, c) && t in s
    ensures var j := Joined(s, c, t);
            && j.Keys == s.Keys
            && forall y :: y in s ==>
                 && j[y].next == (if y == c[|c| - 1] then To(t) else s[y].next)
                 && j[y].data == s[y].data && j[y].ref == s[y].ref
  {
    ChainLive(s, c);
  }

  lemma JoinLinked(s: Store, rank: map<Id, nat>, c: seq<Id>, d: seq<Id>)
    requires Linked(s, rank) && IsChain(s, c) && IsChain(s, d) && c[|c| - 1] !in d && d[0] in rank
    ensures Linked(Joined(s, c, d[0]), Reranked(rank, d, rank[d[0]] + 1))
  {
    var j, r := Joined(s, c, d[0]), Reranked(rank, d, rank[d[0]] + 1);
    JoinNext(s, c, d[0]);
    hide IsChain, Joined, Linked, Reranked;
    forall y | y in j ensures LinkOk(j, r, y) {
      JoinLinkOk(s, j, rank, c, d, y);
    }
    AllLinked(j, r);
  }

  lemma AllLinked(s: Store, rank: map<Id, nat>)
    requires forall y {:trigger LinkOk(s, rank, y)} :: y in s ==> LinkOk(s, rank, y)
    ensures Linked(s, rank)
  {
  }

  lemma JoinLinkOk(s: Store, j: Store, rank: map<Id, nat>, c: seq<Id>, d: seq<Id>, y: Id)
    requires Linked(s, rank) && IsChain(s, d) && c != [] && c[|c| - 1] !in d && d[0] in rank
    requires y in s && j.Keys == s.Keys && j[y].next == if y == c[|c| - 1] then To(d[0]) else s[y].next
    ensures LinkOk(j, Reranked(rank, d, rank[d[0]] + 1), y)
  {
    assert LinkOk(s, rank, y);
    if y in d {
      NextInChain(s, d, y);
    } else if s[y].next.To? && s[y].next.id in d {
      TopOfChain(s, rank, d, s[y].next.id);
    }
    HeadInChain(s, d);
    hide Linked, IsChain;
  }

  lemma HeadInChain(s: Store, d: seq<Id>)
    requires IsChain(s, d)
    ensures d != [] && d[0] in d && d[0] in s
  {
  }

  lemma NextInChain(s: Store, d: seq<Id>, y: Id)
    requires IsChain(s, d) && y in d
    ensures y in s && (s[y].next.To? ==> s[y].next.id in d)
  {
    var i :| 0 <= i < |d| && d[i] == y;
    ChainTail(s, d, i);
  }

  /** No node of a chain ranks above its head. */
  lemma TopOfChain(s: Store, rank: map<Id, nat>, d: seq<Id>, x: Id)
    requires Linked(s, rank) && IsChain(s, d) && x in d
    ensures x in rank && d[0] in rank && rank[x] <= rank[d[0]]
  {
    assert LinkOk(s, rank, d[0]);
    var i :| 0 <= i < |d| && d[i] == x;
    if i > 0 {
      ChainFalls(s, rank, d, 0, i);
    }
  }

  lemma JoinCounted(s: Store, held: map<Id, nat>, c: seq<Id>, t: Id)
    requires Counted(s, held, 0, 0) && IsChain(s, c) && t in s && Held(held, t) > 0
    ensures Counted(Joined(s, c, t), held[t := Held(held, t) - 1], 0, 0)
  {
    ChainLive(s, c);
    ChainTail(s, c, |c| - 1);
    var u, l, h := AddTot(s, c, s[t].tot), c[|c| - 1], held[t := Held(held, t) - 1];
    var j := Joined(s, c, t);
    hide Linkers, IsChain;
    forall y | y in j ensures j[y].ref > 0 && Surplus(j, h, y) == 0 {
      assert Surplus(s, held, y) == 0;
      SameLinks(s, u, y);
      Relinked(u, l, u[l].(next := To(t)), y);
    }
  }

  lemma {:induction false} JoinChain(s: Store, j: Store, c: seq<Id>, d: seq<Id>)
    requires IsChain(s, c) && IsChain(s, d) && IsChain(j, d) && Live(s, c) && Live(j, c)
    requires j[c[|c| - 1]].next == To(d[0])
    requires forall i :: 0 <= i < |c| - 1 ==> j[c[i]].next == s[c[i]].next
    ensures IsChain(j, c + d)
  {
    if |c| > 1 {
      JoinChain(s, j, c[1..], d);
      assert (c + d)[1..] == c[1..] + d;
    } else {
      assert (c + d)[1..] == d;
    }
  }

  lemma {:induction false} JoinTotals(s: Store, j: Store, c: seq<Id>, d: seq<Id>, t: u16)
    requires Live(s, c) && Live(s, d) && Live(j, c) && Live(j, d) && Totals(s, c) && Totals(j, d)
    requires Bytes(j, d) == Bytes(s, d) && TotalIs(t, |Bytes(s, d)|)
    requires forall i :: 0 <= i < |c| ==> j[c[i]].data == s[c[i]].data && j[c[i]].tot == Bumped(s[c[i]], t).tot
    ensures Totals(j, c + d) && Bytes(j, c + d) == Bytes(s, c) + Bytes(s, d)
  {
    hide Bumped, TotalIs;
    BytesConcat(j, c, d);
    BytesSame(s, j, c);
    if c == [] {
      assert c + d == d;
    } else {
      assert (c + d)[1..] == c[1..] + d;
      JoinTotals(s, j, c[1..], d, t);
      BumpedTotal(s[c[0]], t, |Bytes(s, c)|, |Bytes(s, d)|);
    }
  }

  lemma BumpedTotal(n: Node, t: u16, a: nat, b: nat)
    requires TotalIs(n.tot, a) && TotalIs(t, b)
    ensures TotalIs(Bumped(n, t).tot, a + b)
  {
    ModSum(a, t, b);
  }

  lemma ModSum(a: int, t: int, b: int)
    requires t % TWO16 == b % TWO16
    ensures (a % TWO16 + t) % TWO16 == (a + b) % TWO16
  {
    var q, r, p := a / TWO16, t / TWO16, b / TWO16;
    assert a + b == a % TWO16 + t + TWO16 * (q + p - r);
    ModAdd(a % TWO16 + t, q + p - r);
  }

  lemma ModAdd(x: int, k: int)
    ensures (x + TWO16 * k) % TWO16 == x % TWO16
  {
    var y := x + TWO16 * k;
    var q := x / TWO16;
    assert y == TWO16 * (q + k) + x % TWO16;
    assert TWO16 * (y / TWO16 - (q + k)) == x % TWO16 - y % TWO16;
  }

  // ----- pbuf_split_64k -------------------------------------------------------------------------

  /** What a cut in front of c[k] does to node y. */
  ghost function CutNode(s: Store, c: seq<Id>, k: nat, y: Id): Node
    requires y in s && 0 < k < |c| && c[0] in s && c[k] in s
  {
    var d: int := s[c[k]].tot;
    var n := if y in c[..k] then Bumped(s[y], -d) else s[y];
    n.(next := if y == c[k - 1] then Null else n.next, fin := n.fin || (y == c[k] && s[c[0]].fin))
  }

  /** The store with the chain c cut before c[k]. */
  ghost function SplitAt(s: Store, c: seq<Id>, k: nat): Store
    requires IsChain(s, c) && 0 < k < |c|
  {
    ChainLive(s, c);
    map y | y in s :: CutNode(s, c, k, y)
  }

  lemma SplitNext(s: Store, rank: map<Id, nat>, c: seq<Id>, k: nat)
    requires Linked(s, rank) && IsChain(s, c) && 0 < k < |c|
    ensures Live(s, c) && c[k] !in c[..k] && s[c[k - 1]].next == To(c[k])
    ensures var t := SplitAt(s, c, k);
            t.Keys == s.Keys && forall y :: y in s ==> t[y] == CutNode(s, c, k, y)
  {
    ChainLive(s, c);
    NotEarlier(s, rank, c, k);
    ChainTail(s, c, k - 1);
  }

  /** t is s without the link from l. */
  ghost predicate Cut(s: Store, t: Store, l: Id)
  {
    t.Keys == s.Keys && forall y :: y in s ==> t[y].ref == s[y].ref && t[y].next == if y == l then Null else s[y].next
  }

  /** Cutting a link leaves a reference to its target over. */
  lemma CutCounted(s: Store, t: Store, held: map<Id, nat>, l: Id, r: Id)
    requires Counted(s, held, 0, 0) && l in s && r in s && s[l].next == To(r) && Cut(s, t, l)
    ensures Counted(t, held, r, 1)
    ensures Counted(t, held[r := Held(held, r) + 1], 0, 0)
  {
    hide Linkers;
    var h := held[r := Held(held, r) + 1];
    forall y | y in t ensures t[y].ref > 0 && Surplus(t, held, y) == (if y == r then 1 else 0)
      && Surplus(t, h, y) == 0 {
      assert Surplus(s, held, y) == 0;
      CutLinkers(s, t, l, y);
    }
  }

  lemma CutLinkers(s: Store, t: Store, l: Id, y: Id)
    requires l in s && Cut(s, t, l)
    ensures Linkers(t, y) == Linkers(s, y) - if s[l].next == To(y) then 1 else 0
  {
    assert Linking(t, y) == Linking(s, y) - {l};
    WithOrWithout(Linking(s, y), l);
  }

  lemma CutLinked(s: Store, t: Store, rank: map<Id, nat>, l: Id)
    requires Linked(s, rank) && Cut(s, t, l)
    ensures Linked(t, rank)
  {
    forall y | y in t ensures LinkOk(t, rank, y) {
      assert LinkOk(s, rank, y);
    }
  }

  /** The link to the rest becomes a reference of the caller. */
  lemma SplitCounted(s: Store, held: map<Id, nat>, rank: map<Id, nat>, c: seq<Id>, k: nat)
    requires Counted(s, held, 0, 0) && Linked(s, rank) && IsChain(s, c) && 0 < k < |c|
    ensures Linked(SplitAt(s, c, k), rank)
    ensures Counted(SplitAt(s, c, k), held[c[k] := Held(held, c[k]) + 1], 0, 0)
  {
    hide Linkers, IsChain, SplitAt, Linked, Counted, Cut;
    SplitIsCut(s, rank, c, k);
    CutCounted(s, SplitAt(s, c, k), held, c[k - 1], c[k]);
    CutLinked(s, SplitAt(s, c, k), rank, c[k - 1]);
  }

  lemma SplitIsCut(s: Store, rank: map<Id, nat>, c: seq<Id>, k: nat)
    requires Linked(s, rank) && IsChain(s, c) && 0 < k < |c|
    ensures c[k - 1] in s && c[k] in s && s[c[k - 1]].next == To(c[k]) && Cut(s, SplitAt(s, c, k), c[k - 1])
  {
    hide IsChain, Linked, SplitAt;
    SplitNext(s, rank, c, k);
  }

  /** Both parts of a cut chain are chains. */
  lemma {:induction false} CutChains(s: Store, t: Store, c: seq<Id>, k: nat)
    requires IsChain(s, c) && 0 < k < |c| && Live(s, c) && Live(t, c) && t[c[k - 1]].next == Null
    requires forall i :: 0 <= i < |c| && i != k - 1 ==> t[c[i]].next == s[c[i]].next
    ensures IsChain(t, c[..k]) && IsChain(t, c[k..])
  {
    if k > 1 {
      CutChains(s, t, c[1..], k - 1);
      assert c[1..][..k - 1] == c[..k][1..] && c[1..][k - 1..] == c[k..];
    } else {
      assert forall i :: 0 <= i < |c[1..]| ==> c[1..][i] == c[i + 1];
      ChainSame(s, t, c[1..]);
    }
  }

  lemma CutTotal(n: Node, d: u16, a: nat, b: nat)
    requires TotalIs(n.tot, a + b) && TotalIs(d, b)
    ensures var e: int := d; TotalIs(Bumped(n, -e).tot, a)
  {
    var e: int := d;
    var q, p := (a + b) / TWO16, b / TWO16;
    assert a + b == TWO16 * q + n.tot && b == TWO16 * p + e;
    assert n.tot - e == a + TWO16 * (p - q);
    ModAdd(a, p - q);
  }

  /** The first k nodes have lost d from their tot_len. */
  ghost predicate FrontBumped(s: Store, u: Store, c: seq<Id>, k: nat, d: int)
    requires k <= |c| && Live(s, c) && Live(u, c[..k])
  {
    forall i :: 0 <= i < k ==> c[i] in u && u[c[i]].data == s[c[i]].data && u[c[i]].tot == Bumped(s[c[i]], -d).tot
  }

  lemma FrontBumpedTail(s: Store, u: Store, c: seq<Id>, k: nat, d: int)
    requires 0 < k <= |c| && Live(s, c) && Live(u, c[..k]) && FrontBumped(s, u, c, k, d)
    ensures Live(s, c[1..]) && Live(u, c[1..][..k - 1]) && FrontBumped(s, u, c[1..], k - 1, d)
    ensures u[c[0]].data == s[c[0]].data && u[c[0]].tot == Bumped(s[c[0]], -d).tot
  {
    assert c[..k][0] == c[0];
    assert c[1..][..k - 1] == c[..k][1..];
    assert forall i :: 0 <= i < k - 1 ==> c[1..][i] == c[i + 1];
  }

  /** The tot_len fields of the front part no longer count the rest. */
  lemma {:induction false} FrontTotals(s: Store, t: Store, c: seq<Id>, k: nat, d: u16)
    requires Live(s, c) && Live(t, c) && k <= |c| && Totals(s, c) && TotalIs(d, |Bytes(s, c[k..])|)
    requires FrontBumped(s, t, c, k, d)
    ensures Totals(t, c[..k]) && Bytes(t, c[..k]) == Bytes(s, c[..k])
  {
    hide Bumped, TotalIs;
    BytesSame(s, t, c[..k]);
    if k > 0 {
      assert c[1..][k - 1..] == c[k..] && c[1..][..k - 1] == c[..k][1..];
      FrontBumpedTail(s, t, c, k, d);
      FrontTotals(s, t, c[1..], k - 1, d);
      assert c == c[..k] + c[k..];
      BytesConcat(s, c[..k], c[k..]);
      CutTotal(s[c[0]], d, |Bytes(s, c[..k])|, |Bytes(s, c[k..])|);
    }
  }

  lemma NotEarlier(s: Store, rank: map<Id, nat>, c: seq<Id>, k: nat)
    requires Linked(s, rank) && IsChain(s, c) && k < |c|
    ensures c[k] !in c[..k]
  {
    forall i | 0 <= i < k ensures c[i] != c[k] {
      ChainFalls(s, rank, c, i, k);
    }
  }

  // ----- what joining and splitting do to the contents ----------------------------------------------

  /** pbuf_cat appends the bytes, and the 16-bit totals stay right modulo 2^16 even if
      the joined chain is longer than 65535 bytes. */
  lemma CatContents(s: Store, c: seq<Id>, d: seq<Id>)
    requires IsChain(s, c) && IsChain(s, d) && c[|c| - 1] !in d
    ensures Live(s, c) && Live(s, d) && Live(Joined(s, c, d[0]), c + d)
    ensures Bytes(Joined(s, c, d[0]), c + d) == Bytes(s, c) + Bytes(s, d)
    ensures Totals(s, c) && Totals(s, d) ==> Totals(Joined(s, c, d[0]), c + d)
  {
    ChainLive(s, c);
    ChainLive(s, d);
    Apart(s, c, d);
    JoinNext(s, c, d[0]);
    var j := Joined(s, c, d[0]);
    assert forall i :: 0 <= i < |c| ==> j[c[i]].data == s[c[i]].data && j[c[i]].tot == Bumped(s[c[i]], s[d[0]].tot).tot;
    assert forall i :: 0 <= i < |d| ==> d[i] in d && j[d[i]] == s[d[i]];
    hide Joined, IsChain, Bumped;
    BytesSame(s, j, c);
    BytesSame(s, j, d);
    BytesConcat(j, c, d);
    if Totals(s, c) && Totals(s, d) {
      TotalsSame(s, j, d);
      JoinTotals(s, j, c, d, s[d[0]].tot);
    }
  }

  /** Cutting a chain whose front is short enough gives two well-formed chains with the
      same bytes, the front with its exact length. */
  lemma SplitContents(s: Store, rank: map<Id, nat>, c: seq<Id>, k: nat)
    requires Linked(s, rank) && IsChain(s, c) && 0 < k < |c| && Live(s, c) && Totals(s, c)
    ensures var t := SplitAt(s, c, k);
            && IsChain(t, c[..k]) && IsChain(t, c[k..]) && Live(t, c)
            && Bytes(t, c[..k]) == Bytes(s, c[..k]) && Bytes(t, c[k..]) == Bytes(s, c[k..])
            && Totals(t, c[..k]) && Totals(t, c[k..])
            && (|Bytes(s, c[..k])| < TWO16 ==> t[c[0]].tot == |Bytes(s, c[..k])|)
  {
    hide SplitAt, IsChain, Linked, TotalIs, Bumped;
    var t := SplitAt(s, c, k);
    FrontNodes(s, rank, c, k);
    CutChains(s, t, c, k);
    assert forall i :: 0 <= i < |c[k..]| ==> c[k..][i] == c[i + k];
    BytesSame(s, t, c[k..]);
    TotalsTail(s, c, k);
    TotalsSame(s, t, c[k..]);
    FrontTotals(s, t, c, k, s[c[k]].tot);
    TotalExact(t[c[0]].tot, |Bytes(s, c[..k])|);
  }

  lemma TotalExact(tot: int, n: nat)
    ensures TotalIs(tot, n) && n < TWO16 ==> tot == n
  {
  }

  lemma FrontNodes(s: Store, rank: map<Id, nat>, c: seq<Id>, k: nat)
    requires Linked(s, rank) && IsChain(s, c) && 0 < k < |c| && Live(s, c)
    ensures var t := SplitAt(s, c, k); var d: int := s[c[k]].tot;
            && Live(t, c) && t[c[k - 1]].next == Null
            && (forall i :: 0 <= i < |c| && i != k - 1 ==> t[c[i]].next == s[c[i]].next)
            && FrontBumped(s, t, c, k, d)
            && (forall i :: k <= i < |c| ==> t[c[i]].data == s[c[i]].data && t[c[i]].tot == s[c[i]].tot)
  {
    hide IsChain, Linked, SplitAt;
    SplitNext(s, rank, c, k);
    Places(s, rank, c, k);
  }

  /** A node of the chain lies in front of c[k] exactly if its place does. */
  lemma Places(s: Store, rank: map<Id, nat>, c: seq<Id>, k: nat)
    requires Linked(s, rank) && IsChain(s, c) && 0 < k < |c|
    ensures forall i :: 0 <= i < |c| ==> (i < k <==> c[i] in c[..k]) && (c[i] == c[k - 1] <==> i == k - 1)
  {
    hide IsChain, Linked;
    forall i | 0 <= i < |c| ensures (i < k <==> c[i] in c[..k]) && (c[i] == c[k - 1] <==> i == k - 1) {
      NotEarlier(s, rank, c, i);
      if i < k {
        assert c[..k][i] == c[i];
      } else {
        assert forall x :: x in c[..k] ==> x in c[..i];
      }
      if i < k - 1 {
        ChainFalls(s, rank, c, i, k - 1);
      } else if i > k - 1 {
        ChainFalls(s, rank, c, k - 1, i);
      }
    }
  }

  /** Joining the parts again restores every node, except that the rest keeps the FIN
      mark it inherited from the front. */
  lemma RejoinRestores(s: Store, rank: map<Id, nat>, c: seq<Id>, k: nat)
    requires Linked(s, rank) && IsChain(s, c) && 0 < k < |c| && Live(s, c)
    ensures IsChain(SplitAt(s, c, k), c[..k]) && c[k] in SplitAt(s, c, k)
    ensures Joined(SplitAt(s, c, k), c[..k], c[k]) == s[c[k] := s[c[k]].(fin := s[c[k]].fin || s[c[0]].fin)]
  {
    SplitNext(s, rank, c, k);
    FrontNodes(s, rank, c, k);
    var t := SplitAt(s, c, k);
    CutChains(s, t, c, k);
    var j := Joined(t, c[..k], c[k]);
    var e := s[c[k] := s[c[k]].(fin := s[c[k]].fin || s[c[0]].fin)];
    assert j.Keys == e.Keys;
    hide IsChain, Linked, SplitAt, Joined, Cut, CutNode, FrontBumped;
    forall y | y in s ensures j[y] == e[y] {
      RejoinNode(s, t, c, k, y);
    }
  }

  lemma RejoinNode(s: Store, t: Store, c: seq<Id>, k: nat, y: Id)
    requires 0 < k < |c| && IsChain(t, c[..k]) && Live(s, c) && c[k] !in c[..k] && s[c[k - 1]].next == To(c[k])
    requires t.Keys == s.Keys && y in s && t[y] == CutNode(s, c, k, y) && t[c[k]] == CutNode(s, c, k, c[k])
    ensures Joined(t, c[..k], c[k])[y] == if y == c[k] then s[y].(fin := s[y].fin || s[c[0]].fin) else s[y]
  {
    BumpedBack(s[y], s[c[k]].tot);
    ChainLive(t, c[..k]);
    hide IsChain;
    assert c[..k][k - 1] == c[k - 1];
    assert t[c[k]].tot == s[c[k]].tot;
    if y in c[..k] {
      assert y != c[k];
    }
  }

  lemma BumpedBack(n: Node, d: u16)
    ensures var e: int := d; Bumped(Bumped(n, -e), e) == n
  {
    var e: int := d;
    var a: int := n.tot - e;
    assert a % TWO16 == a || a % TWO16 == a + TWO16;
  }

  // ----- pbuf_realloc ---------------------------------------------------------------------------------

  /** Cutting the payload to m bytes: nodes before c[k] stay, c[k] is shortened. */
  lemma {:induction false} TruncTotals(s: Store, u: Store, c: seq<Id>, k: nat, d: u16, m: nat)
    requires k < |c| && Live(s, c) && Live(u, c[..k + 1]) && Totals(s, c) && m <= |Bytes(s, c)|
    requires TotalIs(d, |Bytes(s, c)| - m)
    requires FrontBumped(s, u, c, k, d)
    requires var rem := m - |Bytes(s, c[..k])|;
             0 <= rem <= |s[c[k]].data| && u[c[k]].data == s[c[k]].data[..rem] && u[c[k]].tot == rem
    ensures Totals(u, c[..k + 1]) && Bytes(u, c[..k + 1]) == Bytes(s, c)[..m]
  {
    var e := c[..k + 1];
    if k == 0 {
      assert e == [c[0]] && c[..0] == [];
      assert Bytes(s, c)[..m] == s[c[0]].data[..m];
      TruncOne(u, c[0]);
    } else {
      assert c[1..][..k - 1] == c[..k][1..] && c[1..][..k] == e[1..];
      FrontBumpedTail(s, u, c, k, d);
      TotalsCons(s, c);
      TotalsCons(u, e);
      TotalsCons(s, c[..k]);
      hide Bumped, TotalIs, Totals, Bytes, FrontBumped;
      TruncTotals(s, u, c[1..], k - 1, d, m - |s[c[0]].data|);
      CutTotal(s[c[0]], d, m, |Bytes(s, c)| - m);
      assert Bytes(s, c)[..m] == s[c[0]].data + Bytes(s, c[1..])[..m - |s[c[0]].data|];
    }
  }

  lemma TruncOne(u: Store, x: Id)
    requires x in u && u[x].tot == |u[x].data| < TWO16
    ensures Totals(u, [x]) && Bytes(u, [x]) == u[x].data
  {
    assert [x][1..] == [];
  }

  /** The number of bytes to drop, in 16 bits. */
  lemma ShrinkTotal(tot: u16, n: nat, m: nat)
    requires TotalIs(tot, n) && m < tot
    ensures m < n && TotalIs(tot - m, n - m)
  {
    var q := n / TWO16;
    assert n == TWO16 * q + tot;
    ModAdd(tot - m, q);
  }
}
