/** Delivering a chain of received buffers in pieces of at most 65535 bytes: what the
    application can read behind each head it is given, and what is left
    (src/lwip/src/core/tcp_in.c, tcp.c). */
module PbufDelivery {
  import opened Seq32
  import opened PbufStore
  import opened PbufChains

  lemma Distinct(s: Store, rank: map<Id, nat>, c: seq<Id>)
    requires Linked(s, rank) && IsChain(s, c)
    ensures AllApart(c)
  {
    forall i, j | 0 <= i < j < |c| ensures c[i] != c[j] {
      ChainFalls(s, rank, c, i, j);
    }
  }

  predicate AllApart(c: seq<Id>)
  {
    forall i, j :: 0 <= i < j < |c| ==> c[i] != c[j]
  }

  lemma SliceApart(c: seq<Id>, k: nat)
    requires AllApart(c) && k <= |c|
    ensures AllApart(c[k..]) && forall i :: 0 <= i < k ==> c[i] !in c[k..]
  {
    assert forall i :: 0 <= i < |c[k..]| ==> c[k..][i] == c[i + k];
  }

  // ----- one piece ------------------------------------------------------------------------

  /** In the store t, head is the first buffer of a chain of its own, c[k..m], which
      holds the bytes it held in s; len and the tot_len of head are its exact length. */
  ghost predicate Handed(s: Store, t: Store, c: seq<Id>, k: nat, m: nat, head: Id, len: u16)
    requires Live(s, c)
  {
    && k < m <= |c| && head == c[k] && Live(t, c[k..m]) && IsChain(t, c[k..m]) && Totals(t, c[k..m])
    && Bytes(t, c[k..m]) == Bytes(s, c[k..m]) && len == t[head].tot == |Bytes(t, c[k..m])|
  }

  /** Nodes outside c are as before. */
  ghost predicate Strangers(s: Store, t: Store, c: seq<Id>)
  {
    t.Keys == s.Keys && forall x :: x in s && x !in c ==> t[x] == s[x]
  }

  /** What is still undelivered is untouched, apart from FIN marks. */
  ghost predicate Rest(s: Store, t: Store, c: seq<Id>, k: nat)
    requires k < |c| && Live(s, c)
  {
    && Live(t, c[k..]) && IsChain(t, c[k..]) && Totals(t, c[k..]) && Bytes(t, c[k..]) == Bytes(s, c[k..])
    && forall i :: k <= i < |c| ==> c[i] in t && t[c[i]] == s[c[i]].(fin := t[c[i]].fin)
  }

  /** Delivering a piece of j buffers hands over just that piece, and leaves the rest of
      the chain as it was. */
  lemma PieceOk(s: Store, b: Store, t: Store, rank: map<Id, nat>, c: seq<Id>, k: nat, j: nat)
    requires k < |c| && Live(s, c) && Rest(s, b, c, k) && Linked(b, rank) && 0 < j <= |c| - k
    requires |Bytes(b, c[k..][..j])| < TWO16
    requires if j < |c| - k then t == SplitAt(b, c[k..], j) else t == b
    ensures c[k] in t && Handed(s, t, c, k, k + j, c[k], t[c[k]].tot)
    ensures j < |c| - k ==> Rest(s, t, c, k + j)
    ensures Strangers(b, t, c[k..])
  {
    hide SplitAt, IsChain, Linked;
    var d := c[k..];
    assert c[k..k + j] == d[..j] && d[0] == c[k];
    assert forall i :: 0 <= i < |d| ==> d[i] == c[i + k];
    BytesSame(s, b, d[..j]);
    if j < |d| {
      SplitContents(b, rank, d, j);
      SplitRest(s, b, rank, c, k, j);
      SplitStrangers(b, rank, d, j);
    } else {
      assert d[..j] == d;
      TotalExact(b[d[0]].tot, |Bytes(b, d)|);
    }
  }

  lemma SplitStrangers(b: Store, rank: map<Id, nat>, d: seq<Id>, j: nat)
    requires Linked(b, rank) && IsChain(b, d) && 0 < j < |d| && Live(b, d)
    ensures Strangers(b, SplitAt(b, d, j), d)
  {
    SplitNext(b, rank, d, j);
    hide SplitAt, IsChain, Linked;
    forall x | x in b && x !in d ensures x !in d[..j] && x != d[j - 1] && x != d[j] {
    }
  }

  lemma SplitRest(s: Store, b: Store, rank: map<Id, nat>, c: seq<Id>, k: nat, j: nat)
    requires k < |c| && Live(s, c) && Rest(s, b, c, k) && Linked(b, rank) && 0 < j < |c| - k
    ensures Rest(s, SplitAt(b, c[k..], j), c, k + j)
  {
    hide SplitAt, IsChain, Linked, Totals;
    var d, t := c[k..], SplitAt(b, c[k..], j);
    assert forall i :: 0 <= i < |d| ==> d[i] == c[i + k];
    SplitContents(b, rank, d, j);
    FrontNodes(b, rank, d, j);
    SplitNext(b, rank, d, j);
    assert d[j..] == c[k + j..];
    BytesSame(s, b, d[j..]);
    forall i | k + j <= i < |c| ensures c[i] in t && t[c[i]] == s[c[i]].(fin := t[c[i]].fin) {
      assert d[i - k] == c[i];
      NotFront(b, rank, d, j, i - k);
    }
  }

  lemma NotFront(b: Store, rank: map<Id, nat>, d: seq<Id>, j: nat, i: nat)
    requires Linked(b, rank) && IsChain(b, d) && 0 < j <= i < |d|
    ensures d[i] !in d[..j] && d[i] != d[j - 1]
  {
    forall x | 0 <= x < j ensures d[x] != d[i] {
      ChainFalls(b, rank, d, x, i);
    }
  }

  /** A refused piece joined to the rest again. */
  lemma RestKept(s: Store, b: Store, t: Store, c: seq<Id>, k: nat, j: nat)
    requires k < |c| && Live(s, c) && Rest(s, b, c, k) && 0 < j <= |c| - k
    requires t == if j < |c| - k then b[c[k + j] := b[c[k + j]].(fin := b[c[k + j]].fin || b[c[k]].fin)] else b
    ensures Rest(s, t, c, k) && Strangers(b, t, c[k..])
  {
    var d := c[k..];
    assert forall i :: 0 <= i < |d| ==> d[i] == c[i + k];
    assert j < |d| ==> d[j] in d;
    ChainSame(b, t, d);
    BytesSame(b, t, d);
    TotalsSame(b, t, d);
  }

  // ----- all pieces ----------------------------------------------------------------------------

  /** The i-th piece: the stretch of the chain between two cuts, handed over in at[i]. */
  ghost predicate PieceAt(s: Store, c: seq<Id>, heads: seq<Id>, lens: seq<u16>, cuts: seq<nat>, at: seq<Store>, i: nat)
  {
    && i < |heads| == |lens| == |at| && |cuts| == |heads| + 1 && Live(s, c)
    && Handed(s, at[i], c, cuts[i], cuts[i + 1], heads[i], lens[i])
  }

  predicate Rising(cuts: seq<nat>)
  {
    forall i, j :: 0 <= i < j < |cuts| ==> cuts[i] < cuts[j]
  }

  ghost predicate Pieces(s: Store, c: seq<Id>, heads: seq<Id>, lens: seq<u16>, cuts: seq<nat>, at: seq<Store>)
  {
    && |heads| == |lens| == |at| && |cuts| == |heads| + 1 && cuts[0] == 0 && cuts[|heads|] <= |c| && Live(s, c)
       && Rising(cuts)
    && forall i {:trigger PieceAt(s, c, heads, lens, cuts, at, i)} :: 0 <= i < |heads| ==>
         PieceAt(s, c, heads, lens, cuts, at, i)
  }

  /** The buffers of the i-th piece have not been touched since they were handed over. */
  ghost predicate StillHeld(t: Store, c: seq<Id>, cuts: seq<nat>, at: seq<Store>, i: nat)
  {
    && i < |at| && |cuts| == |at| + 1 && cuts[i] <= cuts[i + 1] <= |c|
    && forall x :: x in c[cuts[i]..cuts[i + 1]] ==> x in t && x in at[i] && t[x] == at[i][x]
  }

  /** The state of the delivery loop: everything up to c[k] has been handed over. */
  ghost predicate Delivered(s: Store, t: Store, c: seq<Id>, heads: seq<Id>, lens: seq<u16>, cuts: seq<nat>,
      at: seq<Store>, k: nat)
  {
    && |cuts| == |heads| + 1 && cuts[|heads|] == k
    && Pieces(s, c, heads, lens, cuts, at) && Strangers(s, t, c) && AllApart(c)
    && forall i :: 0 <= i < |heads| ==> StillHeld(t, c, cuts, at, i)
  }

  lemma FromStart(s: Store, rank: map<Id, nat>, c: seq<Id>)
    requires Linked(s, rank) && IsChain(s, c) && Live(s, c) && Totals(s, c)
    ensures Rest(s, s, c, 0) && Delivered(s, s, c, [], [], [0], [], 0)
  {
    Distinct(s, rank, c);
    assert c[0..] == c;
  }

  /** Changes behind the last cut leave the pieces handed over alone. */
  lemma StaysHeld(b: Store, t: Store, c: seq<Id>, cuts: seq<nat>, at: seq<Store>, k: nat, i: nat)
    requires StillHeld(b, c, cuts, at, i) && cuts[i + 1] <= k <= |c| && AllApart(c) && Strangers(b, t, c[k..])
    ensures StillHeld(t, c, cuts, at, i)
  {
    SliceApart(c, k);
    forall x | x in c[cuts[i]..cuts[i + 1]] ensures x in t && x in at[i] && t[x] == at[i][x] {
      var m :| 0 <= m < cuts[i + 1] - cuts[i] && c[cuts[i]..cuts[i + 1]][m] == x;
      assert c[cuts[i] + m] !in c[k..];
    }
  }

  lemma HeldOn(s: Store, b: Store, t: Store, c: seq<Id>, heads: seq<Id>, lens: seq<u16>, cuts: seq<nat>,
      at: seq<Store>, k: nat)
    requires Delivered(s, b, c, heads, lens, cuts, at, k) && Strangers(b, t, c[k..])
    ensures Delivered(s, t, c, heads, lens, cuts, at, k)
  {
    hide AllApart, Handed, PieceAt, StillHeld;
    forall x | x in s && x !in c ensures x !in c[k..] {
    }
    forall i | 0 <= i < |heads| ensures StillHeld(t, c, cuts, at, i) {
      assert i + 1 < |heads| ==> cuts[i + 1] < cuts[|heads|];
      StaysHeld(b, t, c, cuts, at, k, i);
    }
  }

  lemma PiecesMore(s: Store, b: Store, t: Store, c: seq<Id>, heads: seq<Id>, lens: seq<u16>, cuts: seq<nat>,
      at: seq<Store>, k: nat, len: u16, j: nat)
    requires Delivered(s, b, c, heads, lens, cuts, at, k) && 0 < j && k + j <= |c|
    requires Handed(s, t, c, k, k + j, c[k], len) && Strangers(b, t, c[k..])
    ensures Delivered(s, t, c, heads + [c[k]], lens + [len], cuts + [k + j], at + [t], k + j)
  {
    hide Handed, Strangers, AllApart, PieceAt, StillHeld, Rising;
    HeldOn(s, b, t, c, heads, lens, cuts, at, k);
    NewPiece(s, t, c, heads, lens, cuts, at, len, j);
    hide Delivered;
    AllLonger(s, t, c, heads, lens, cuts, at, k, c[k], len, k + j);
  }

  /** Another piece does not change what is said of the earlier ones. */
  lemma AllLonger(s: Store, t: Store, c: seq<Id>, heads: seq<Id>, lens: seq<u16>, cuts: seq<nat>, at: seq<Store>,
      k: nat, head: Id, len: u16, m: nat)
    requires Delivered(s, t, c, heads, lens, cuts, at, k) && k < m <= |c|
    requires PieceAt(s, c, heads + [head], lens + [len], cuts + [m], at + [t], |heads|)
    requires StillHeld(t, c, cuts + [m], at + [t], |heads|)
    ensures Delivered(s, t, c, heads + [head], lens + [len], cuts + [m], at + [t], m)
  {
    hide Handed, Strangers, AllApart, PieceAt, StillHeld;
    var h, l, q, a := heads + [head], lens + [len], cuts + [m], at + [t];
    forall i | 0 <= i < |h| ensures PieceAt(s, c, h, l, q, a, i) && StillHeld(t, c, q, a, i) {
      if i < |heads| {
        assert PieceAt(s, c, heads, lens, cuts, at, i);
        PieceLonger(s, t, c, heads, lens, cuts, at, i, head, len, m);
      }
    }
    assert Rising(q);
  }

  lemma PieceLonger(s: Store, t: Store, c: seq<Id>, heads: seq<Id>, lens: seq<u16>, cuts: seq<nat>, at: seq<Store>,
                    i: nat, head: Id, len: u16, m: nat)
    requires PieceAt(s, c, heads, lens, cuts, at, i) && StillHeld(t, c, cuts, at, i)
    ensures PieceAt(s, c, heads + [head], lens + [len], cuts + [m], at + [t], i)
            && StillHeld(t, c, cuts + [m], at + [t], i)
  {
    hide Handed;
    assert (cuts + [m])[i] == cuts[i] && (cuts + [m])[i + 1] == cuts[i + 1] && (at + [t])[i] == at[i];
  }

  lemma NewPiece(s: Store, t: Store, c: seq<Id>, heads: seq<Id>, lens: seq<u16>, cuts: seq<nat>, at: seq<Store>,
      len: u16, j: nat)
    requires |heads| == |lens| == |at| && |cuts| == |heads| + 1 && Live(s, c) && 0 < j && cuts[|heads|] + j <= |c|
    requires Handed(s, t, c, cuts[|heads|], cuts[|heads|] + j, c[cuts[|heads|]], len)
    ensures var k := cuts[|heads|];
            && PieceAt(s, c, heads + [c[k]], lens + [len], cuts + [k + j], at + [t], |heads|)
            && StillHeld(t, c, cuts + [k + j], at + [t], |heads|)
  {
    var k, n := cuts[|heads|], |heads|;
    HandedLive(s, t, c, k, k + j, len);
    hide Handed;
    assert (cuts + [k + j])[n] == k && (cuts + [k + j])[n + 1] == k + j && (at + [t])[n] == t;
  }

  lemma HandedLive(s: Store, t: Store, c: seq<Id>, k: nat, m: nat, len: u16)
    requires k < |c| && Live(s, c) && Handed(s, t, c, k, m, c[k], len)
    ensures k < m <= |c| && forall x :: x in c[k..m] ==> x in t
  {
  }

  /** What the application can read behind the heads, each at the time it is given it. */
  ghost function Shown(s: Store, c: seq<Id>, heads: seq<Id>, lens: seq<u16>, cuts: seq<nat>, at: seq<Store>,
      n: nat): seq<byte>
    requires Pieces(s, c, heads, lens, cuts, at) && n <= |heads|
  {
    if n == 0 then []
    else
      assert PieceAt(s, c, heads, lens, cuts, at, n - 1);
      Shown(s, c, heads, lens, cuts, at, n - 1) + Bytes(at[n - 1], c[cuts[n - 1]..cuts[n]])
  }

  /** Whatever the application reads behind the heads it is given is, in order, exactly
      the received bytes up to where delivery stopped. */
  lemma {:induction false} ShownInOrder(s: Store, c: seq<Id>, heads: seq<Id>, lens: seq<u16>, cuts: seq<nat>,
      at: seq<Store>, n: nat)
    requires Pieces(s, c, heads, lens, cuts, at) && n <= |heads|
    ensures cuts[n] <= |c| && Shown(s, c, heads, lens, cuts, at, n) == Bytes(s, c[..cuts[n]])
  {
    if n > 0 {
      ShownInOrder(s, c, heads, lens, cuts, at, n - 1);
      assert PieceAt(s, c, heads, lens, cuts, at, n - 1);
      assert c[..cuts[n]] == c[..cuts[n - 1]] + c[cuts[n - 1]..cuts[n]];
      BytesConcat(s, c[..cuts[n - 1]], c[cuts[n - 1]..cuts[n]]);
    }
  }

  lemma AllShown(s: Store, t: Store, c: seq<Id>, heads: seq<Id>, lens: seq<u16>, cuts: seq<nat>, at: seq<Store>, k: nat)
    requires Delivered(s, t, c, heads, lens, cuts, at, k)
    ensures Pieces(s, c, heads, lens, cuts, at)
    ensures k <= |c| && Shown(s, c, heads, lens, cuts, at, |heads|) == Bytes(s, c[..k])
  {
    ShownInOrder(s, c, heads, lens, cuts, at, |heads|);
  }
}
