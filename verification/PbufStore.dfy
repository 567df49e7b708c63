/** Packet buffers as linked nodes with reference counts (src/lwip/src/core/pbuf.c):
    who refers to a node, and what a chain of nodes is. */
module PbufStore {
  import opened Seq32

  type Id = nat

  datatype Link = Null | To(id: Id)

  /** struct pbuf: payload, 16-bit total length, 8-bit reference count, successor, and
      PBUF_FLAG_TCP_FIN. */
  datatype Node = Node(data: seq<byte>, tot: u16, ref: byte, next: Link, fin: bool)

  type Store = map<Id, Node>

  // ----- who links to a node -------------------------------------------------------------

  /** The nodes whose successor is x. */
  ghost function Linking(s: Store, x: Id): set<Id>
  {
    set y | y in s && s[y].next == To(x)
  }

  ghost function Linkers(s: Store, x: Id): nat { |Linking(s, x)| }

  /** Outside holders of references. */
  ghost function Held(held: map<Id, nat>, x: Id): nat { if x in held then held[x] else 0 }

  /** Every live node is counted right, except that x has `extra` more: references that
      are about to be dropped. */
  ghost predicate Counted(s: Store, held: map<Id, nat>, x: Id, extra: nat)
  {
    && (forall y {:trigger Surplus(s, held, y)} :: y in s ==>
         s[y].ref > 0 && Surplus(s, held, y) == if y == x then extra else 0)
    && (forall y :: y in held && held[y] > 0 ==> y in s)
  }

  ghost function Surplus(s: Store, held: map<Id, nat>, y: Id): int
    requires y in s
  {
    s[y].ref - Held(held, y) - Linkers(s, y)
  }

  /** Links lead to live nodes and never in circles: rank falls along every link. */
  ghost predicate Linked(s: Store, rank: map<Id, nat>)
  {
    forall y {:trigger LinkOk(s, rank, y)} :: y in s ==> LinkOk(s, rank, y)
  }

  predicate LinkOk(s: Store, rank: map<Id, nat>, y: Id)
    requires y in s
  {
    y in rank && (s[y].next.To? ==> s[y].next.id in s && s[y].next.id in rank && rank[s[y].next.id] < rank[y])
  }

  /** Changing one node's successor moves its link. */
  lemma Relinked(s: Store, y: Id, n: Node, x: Id)
    requires y in s
    ensures Linkers(s[y := n], x)
         == Linkers(s, x) - (if s[y].next == To(x) then 1 else 0) + (if n.next == To(x) then 1 else 0)
  {
    var t := s[y := n];
    OthersLink(s, y, n, x);
    hide Linking;
    WithOrWithout(Linking(s, x), y);
    WithOrWithout(Linking(t, x), y);
  }

  lemma OthersLink(s: Store, y: Id, n: Node, x: Id)
    requires y in s
    ensures var t := s[y := n];
            && Linking(s, x) - {y} == Linking(t, x) - {y}
            && (y in Linking(s, x) <==> s[y].next == To(x)) && (y in Linking(t, x) <==> n.next == To(x))
  {
  }

  lemma WithOrWithout(a: set<Id>, y: Id)
    ensures |a| == |a - {y}| + if y in a then 1 else 0
  {
    if y in a {
      assert a == (a - {y}) + {y};
    } else {
      assert a == a - {y};
    }
  }

  /** Removing a node removes its link. */
  lemma Removed(s: Store, y: Id, x: Id)
    requires y in s
    ensures Linkers(s - {y}, x) == Linkers(s, x) - if s[y].next == To(x) then 1 else 0
  {
    assert Linking(s - {y}, x) == Linking(s, x) - {y};
    WithOrWithout(Linking(s, x), y);
  }

  /** A node whose successor stays the same keeps all counts. */
  lemma SameLinks(s: Store, t: Store, x: Id)
    requires s.Keys == t.Keys && forall y :: y in s ==> t[y].next == s[y].next
    ensures Linkers(t, x) == Linkers(s, x)
  {
    assert Linking(t, x) == Linking(s, x);
  }

  // ----- chains ----------------------------------------------------------------------------

  /** c lists the nodes from c[0] to the end of its chain. */
  ghost predicate IsChain(s: Store, c: seq<Id>)
  {
    && c != [] && c[0] in s
    && if |c| == 1 then s[c[0]].next == Null else s[c[0]].next == To(c[1]) && IsChain(s, c[1..])
  }

  lemma {:induction false} ChainOf(s: Store, rank: map<Id, nat>, p: Id) returns (c: seq<Id>)
    requires Linked(s, rank) && p in s
    ensures IsChain(s, c) && c[0] == p
    decreases if p in rank then rank[p] else 0
  {
    assert LinkOk(s, rank, p);
    if s[p].next.Null? {
      c := [p];
    } else {
      var d := ChainOf(s, rank, s[p].next.id);
      c := [p] + d;
      assert c[1..] == d;
    }
  }

  lemma {:induction false} ChainTail(s: Store, c: seq<Id>, k: nat)
    requires IsChain(s, c) && k < |c|
    ensures IsChain(s, c[k..]) && c[k] in s && s[c[k]].next == if k + 1 < |c| then To(c[k + 1]) else Null
  {
    if k > 0 {
      ChainTail(s, c[1..], k - 1);
      assert c[1..][k - 1..] == c[k..];
    }
  }

  lemma ChainLive(s: Store, c: seq<Id>)
    requires IsChain(s, c)
    ensures forall i :: 0 <= i < |c| ==> c[i] in s
  {
    forall i | 0 <= i < |c| ensures c[i] in s {
      ChainTail(s, c, i);
    }
  }

  /** A node occurs once in a chain. */
  lemma {:induction false} ChainFalls(s: Store, rank: map<Id, nat>, c: seq<Id>, i: nat, j: nat)
    requires Linked(s, rank) && IsChain(s, c) && i < j < |c|
    ensures c[i] in rank && c[j] in rank && rank[c[j]] < rank[c[i]] && c[i] != c[j]
    decreases j - i
  {
    ChainTail(s, c, i);
    assert LinkOk(s, rank, c[i]);
    if i + 1 < j {
      ChainFalls(s, rank, c, i + 1, j);
    }
  }

  /** A chain depends only on its nodes' successors. */
  lemma {:induction false} ChainSame(s: Store, t: Store, c: seq<Id>)
    requires IsChain(s, c) && forall i :: 0 <= i < |c| ==> c[i] in s && c[i] in t && t[c[i]].next == s[c[i]].next
    ensures IsChain(t, c)
  {
    if |c| > 1 {
      ChainSame(s, t, c[1..]);
    }
  }

  // ----- contents ----------------------------------------------------------------------------

  ghost predicate Live(s: Store, c: seq<Id>) { forall i :: 0 <= i < |c| ==> c[i] in s }

  ghost function Bytes(s: Store, c: seq<Id>): seq<byte>
    requires Live(s, c)
  {
    if c == [] then [] else s[c[0]].data + Bytes(s, c[1..])
  }

  /** The 16-bit tot_len of every node of the chain is the true length modulo 2^16. */
  ghost predicate Totals(s: Store, c: seq<Id>)
    requires Live(s, c)
  {
    c == [] || (|s[c[0]].data| < 0x1_0000 && TotalIs(s[c[0]].tot, |Bytes(s, c)|) && Totals(s, c[1..]))
  }

  predicate TotalIs(tot: int, len: nat) { tot == len % 0x1_0000 }

  lemma TotalsCons(s: Store, c: seq<Id>)
    requires Live(s, c) && c != []
    ensures Live(s, c[1..]) && Bytes(s, c) == s[c[0]].data + Bytes(s, c[1..])
    ensures Totals(s, c) <==> |s[c[0]].data| < 0x1_0000 && TotalIs(s[c[0]].tot, |Bytes(s, c)|) && Totals(s, c[1..])
  {
  }

  lemma {:induction false} BytesConcat(s: Store, a: seq<Id>, b: seq<Id>)
    requires Live(s, a) && Live(s, b)
    ensures Bytes(s, a + b) == Bytes(s, a) + Bytes(s, b)
  {
    if a == [] {
      assert a + b == b;
    } else {
      assert (a + b)[1..] == a[1..] + b;
      BytesConcat(s, a[1..], b);
    }
  }

  lemma {:induction false} BytesSame(s: Store, t: Store, c: seq<Id>)
    requires Live(s, c) && Live(t, c) && forall i :: 0 <= i < |c| ==> t[c[i]].data == s[c[i]].data
    ensures Bytes(t, c) == Bytes(s, c)
  {
    if c != [] {
      BytesSame(s, t, c[1..]);
    }
  }

  lemma {:induction false} TotalsSame(s: Store, t: Store, c: seq<Id>)
    requires Live(s, c) && Live(t, c) && Totals(s, c)
    requires forall i :: 0 <= i < |c| ==> t[c[i]].data == s[c[i]].data && t[c[i]].tot == s[c[i]].tot
    ensures Totals(t, c)
  {
    if c != [] {
      BytesSame(s, t, c);
      TotalsSame(s, t, c[1..]);
    }
  }

  lemma {:induction false} TotalsTail(s: Store, c: seq<Id>, k: nat)
    requires Live(s, c) && Totals(s, c) && k <= |c|
    ensures Totals(s, c[k..])
  {
    if k > 0 {
      TotalsTail(s, c[1..], k - 1);
      assert c[1..][k - 1..] == c[k..];
    } else {
      assert c[0..] == c;
    }
  }

  // ----- dropping a reference -------------------------------------------------------------------

  /** How many nodes at the head of the chain have no other reference. */
  ghost function RunLen(s: Store, c: seq<Id>): (k: nat)
    requires Live(s, c)
    ensures k <= |c| && (forall i :: 0 <= i < k ==> s[c[i]].ref == 1) && (k < |c| ==> s[c[k]].ref != 1)
  {
    if c == [] || s[c[0]].ref != 1 then 0 else 1 + RunLen(s, c[1..])
  }

  ghost function Ids(c: seq<Id>): set<Id> { set x | x in c }

  /** The store after a reference to c[0] is dropped: that run is released, and the
      first node behind it loses one reference. */
  ghost function Dropped(s: Store, c: seq<Id>): Store
    requires Live(s, c) && forall i :: 0 <= i < |c| ==> s[c[i]].ref > 0
  {
    var k := RunLen(s, c);
    if k < |c| then (s - Ids(c[..k]))[c[k] := s[c[k]].(ref := s[c[k]].ref - 1)] else s - Ids(c[..k])
  }

  lemma DropOne(s: Store, held: map<Id, nat>, x: Id)
    requires Counted(s, held, x, 1) && x in s && s[x].ref > 1
    ensures Counted(s[x := s[x].(ref := s[x].ref - 1)], held, x, 0)
  {
    hide Linkers;
    var t := s[x := s[x].(ref := s[x].ref - 1)];
    forall y | y in t ensures t[y].ref > 0 && Surplus(t, held, y) == 0 {
      SameLinks(s, t, y);
      assert Surplus(s, held, y) == if y == x then 1 else 0;
    }
  }

  lemma NobodyLinks(s: Store, x: Id)
    requires Linkers(s, x) == 0
    ensures forall y :: y in s ==> s[y].next != To(x)
  {
    assert Linking(s, x) == {};
    assert forall y :: y in s && s[y].next == To(x) ==> y in Linking(s, x);
  }

  /** Releasing the last reference to x drops a reference to its successor. */
  lemma RemoveOne(s: Store, held: map<Id, nat>, rank: map<Id, nat>, x: Id)
    requires Counted(s, held, x, 1) && Linked(s, rank) && x in s && s[x].ref == 1
    ensures Linked(s - {x}, rank)
    ensures s[x].next.To? ==> Counted(s - {x}, held, s[x].next.id, 1)
    ensures s[x].next.Null? ==> Counted(s - {x}, held, x, 0)
  {
    hide Linkers;
    assert Surplus(s, held, x) == 1;
    NobodyLinks(s, x);
    var t := s - {x};
    forall y | y in t ensures LinkOk(t, rank, y) {
      assert LinkOk(s, rank, y);
    }
    forall y | y in t ensures t[y].ref > 0 && Surplus(t, held, y) == if s[x].next == To(y) then 1 else 0 {
      Removed(s, x, y);
      assert Surplus(s, held, y) == 0;
    }
  }

  /** Nothing links to a node that is not there. */
  lemma NoneLinkOut(s: Store, rank: map<Id, nat>, p: Id)
    requires Linked(s, rank) && p !in s
    ensures Linkers(s, p) == 0
  {
    forall y | y in s ensures s[y].next != To(p) {
      assert LinkOk(s, rank, y);
    }
    assert Linking(s, p) == {};
  }
}
