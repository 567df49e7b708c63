/** Reading and writing a chain of packet buffers as one flat sequence of bytes:
    pbuf_skip, pbuf_copy_partial, pbuf_take, pbuf_take_at, pbuf_copy, pbuf_memcmp and
    pbuf_memfind (src/lwip/src/core/pbuf.c). A chain is the list of its payloads. */
module PbufFlat {
  import opened Seq32

  datatype Err = OK | ERR_ARG | ERR_MEM | ERR_VAL

  type Chain = seq<array<byte>>

  // ----- flat contents ------------------------------------------------------------------------

  /** The payloads, one sequence per buffer. */
  ghost function Vals(c: Chain): (v: seq<seq<byte>>)
    reads set a | a in c
    ensures |v| == |c| && forall i :: 0 <= i < |c| ==> v[i] == c[i][..]
  {
    if c == [] then [] else [c[0][..]] + Vals(c[1..])
  }

  function Cat(v: seq<seq<byte>>): seq<byte>
  {
    if v == [] then [] else v[0] + Cat(v[1..])
  }

  ghost function Flat(c: Chain): seq<byte>
    reads set a | a in c
  {
    Cat(Vals(c))
  }

  lemma {:induction false} CatConcat(a: seq<seq<byte>>, b: seq<seq<byte>>)
    ensures Cat(a + b) == Cat(a) + Cat(b)
  {
    if a == [] {
      assert a + b == b;
    } else {
      assert (a + b)[1..] == a[1..] + b;
      CatConcat(a[1..], b);
    }
  }

  lemma CatOne(x: seq<byte>)
    ensures Cat([x]) == x
  {
    assert Cat([x]) == x + Cat([x][1..]);
  }

  lemma CatCut(v: seq<seq<byte>>, i: nat)
    requires i <= |v|
    ensures Cat(v) == Cat(v[..i]) + Cat(v[i..])
  {
    assert v == v[..i] + v[i..];
    CatConcat(v[..i], v[i..]);
  }

  /** A chain is the part in front of buffer i, that buffer, and the part behind it. */
  lemma CatAt(v: seq<seq<byte>>, i: nat)
    requires i < |v|
    ensures Cat(v) == Cat(v[..i]) + v[i] + Cat(v[i + 1..])
    ensures Cat(v[..i + 1]) == Cat(v[..i]) + v[i] && Cat(v[i..]) == v[i] + Cat(v[i + 1..])
  {
    CatSnoc(v, i);
    CatCons(v, i);
    CatCut(v, i);
    hide Cat;
    Assoc(Cat(v[..i]), v[i], Cat(v[i + 1..]));
  }

  lemma Assoc(a: seq<byte>, x: seq<byte>, b: seq<byte>)
    ensures a + (x + b) == a + x + b
  {
  }

  lemma CatCons(v: seq<seq<byte>>, i: nat)
    requires i < |v|
    ensures Cat(v[i..]) == v[i] + Cat(v[i + 1..])
  {
    assert v[i..][1..] == v[i + 1..];
  }

  lemma CatSnoc(v: seq<seq<byte>>, i: nat)
    requires i < |v|
    ensures Cat(v[..i + 1]) == Cat(v[..i]) + v[i]
  {
    assert v[..i + 1] == v[..i] + [v[i]];
    CatConcat(v[..i], [v[i]]);
    CatOne(v[i]);
  }

  /** No payload occurs twice. */
  predicate Apart(c: Chain)
  {
    forall i, j :: 0 <= i < j < |c| ==> c[i] != c[j]
  }

  /** tot_len of the buffer at i: the bytes from there on. */
  function TotLen(c: Chain, i: nat): nat
    requires i <= |c|
    decreases |c| - i
  {
    if i == |c| then 0 else c[i].Length + TotLen(c, i + 1)
  }

  /** The payloads of c are v. */
  ghost predicate Holds(c: Chain, v: seq<seq<byte>>)
    reads set a | a in c
  {
    |v| == |c| && forall i {:trigger v[i]} :: 0 <= i < |c| ==> v[i] == c[i][..]
  }

  lemma HoldsVals(c: Chain, v: seq<seq<byte>>)
    requires Holds(c, v)
    ensures v == Vals(c) && Cat(v) == Flat(c)
  {
    assert v == Vals(c);
  }

  lemma {:induction false} TotLenIs(c: Chain, i: nat, v: seq<seq<byte>>)
    requires i <= |c| && Holds(c, v)
    ensures TotLen(c, i) == |Cat(v[i..])|
    decreases |c| - i
  {
    if i < |c| {
      TotLenIs(c, i + 1, v);
      CatCons(v, i);
    }
  }

  // ----- reading ---------------------------------------------------------------------------------

  /** pbuf_skip: the buffer that holds the byte at offset, and where in it. */
  method Skip(c: Chain, offset: u16, ghost v: seq<seq<byte>>) returns (i: nat, off: u16)
    requires Holds(c, v)
    ensures i <= |c| && offset == |Cat(v[..i])| + off
    ensures i < |c| ==> off < c[i].Length
    ensures i < |c| <==> offset < |Cat(v)|
  {
    hide Cat, Vals;
    i, off := 0, offset;
    CatNone(v);
    while i < |c| && c[i].Length <= off
      invariant i <= |c| && offset == |Cat(v[..i])| + off
      decreases |c| - i
    {
      CatSnoc(v, i);
      off, i := off - c[i].Length, i + 1;
    }
    CatCut(v, i);
    if i < |c| {
      CatCons(v, i);
    } else {
      CatNone(v);
    }
  }

  /** len is a 16-bit field. */
  predicate Short(c: Chain)
  {
    forall i :: 0 <= i < |c| ==> c[i].Length < 0x1_0000
  }

  /** pbuf_copy_partial: as many of the len bytes from offset on as there are. */
  method CopyPartial(c: Chain, dst: array<byte>, len: u16, offset: u16) returns (copied: u16)
    requires dst !in c && Short(c) && len <= dst.Length
    modifies dst
    ensures Vals(c) == old(Vals(c))
    ensures copied == if offset >= |Flat(c)| then 0 else if len <= |Flat(c)| - offset then len else |Flat(c)| - offset
    ensures copied > 0 ==> offset + copied <= |Flat(c)| && dst[..copied] == Flat(c)[offset..offset + copied]
    ensures dst[copied..] == old(dst[copied..])
  {
    ghost var v := Vals(c);
    copied := CopyLoop(c, dst, len, offset, v);
    HoldsVals(c, v);
  }

  method CopyLoop(c: Chain, dst: array<byte>, len: u16, offset: u16, ghost v: seq<seq<byte>>) returns (copied: u16)
    requires dst !in c && Holds(c, v) && len <= dst.Length
    modifies dst
    ensures Holds(c, v)
    ensures copied == if offset >= |Cat(v)| then 0 else if len <= |Cat(v)| - offset then len else |Cat(v)| - offset
    ensures copied > 0 ==> offset + copied <= |Cat(v)| && dst[..copied] == Cat(v)[offset..offset + copied]
    ensures dst[copied..] == old(dst[copied..])
  {
    hide Cat, Vals;
    var left: nat, off: nat, n: nat, p := 0, offset, len, 0;
    CatNone(v);
    while n != 0 && p < |c|
      invariant p <= |c| && Holds(c, v) && left + n == len
      invariant Cursor(v, p, off, n, offset, left)
      invariant Copied(v, offset, dst[..left]) && dst[left..] == old(dst[left..])
      decreases |c| - p
    {
      if off != 0 && off >= c[p].Length {
        CatAt(v, p);
        off := off - c[p].Length;
      } else {
        var k := c[p].Length - off;
        if k > n {
          k := n;
        }
        ghost var d := dst[..left];
        Move(dst, left, c[p], off, k);
        assert dst[..left + k] == d + v[p][off..off + k];
        Moved(v, p, off, n, k, offset, d);
        left, n, off := left + k, n - k, 0;
      }
      p := p + 1;
    }
    CatCut(v, |v|);
    CatNone(v);
    copied := left;
  }

  lemma CatNone(v: seq<seq<byte>>)
    ensures Cat(v[..0]) == [] && Cat(v[|v|..]) == []
  {
  }

  /** Where the copying loop is: off bytes still to skip, or left bytes copied. */
  ghost predicate Cursor(v: seq<seq<byte>>, p: nat, off: nat, n: nat, offset: nat, left: nat)
    requires p <= |v|
  {
    if off > 0 then left == 0 && |Cat(v[..p])| + off == offset else n > 0 ==> |Cat(v[..p])| == offset + left
  }

  /** d is what the chain holds from offset on. */
  ghost predicate Copied(v: seq<seq<byte>>, offset: nat, d: seq<byte>)
  {
    d != [] ==> offset + |d| <= |Cat(v)| && d == Cat(v)[offset..offset + |d|]
  }

  /** The next k bytes of the chain. */
  lemma Moved(v: seq<seq<byte>>, p: nat, off: nat, n: nat, k: nat, offset: nat, d: seq<byte>)
    requires p < |v| && off + k <= |v[p]| && k <= n && (k == n || off + k == |v[p]|) && n > 0
    requires Cursor(v, p, off, n, offset, |d|) && Copied(v, offset, d)
    ensures Copied(v, offset, d + v[p][off..off + k]) && Cursor(v, p + 1, 0, n - k, offset, |d| + k)
  {
    CatAt(v, p);
    hide Cat;
    MovedSlice(Cat(v), Cat(v[..p]), v[p], Cat(v[p + 1..]), off, k, offset, d);
  }

  lemma MovedSlice(f: seq<byte>, a: seq<byte>, x: seq<byte>, b: seq<byte>, off: nat, k: nat, offset: nat, d: seq<byte>)
    requires f == a + x + b && off + k <= |x| && |a| + off == offset + |d|
    requires d != [] ==> offset + |d| <= |f| && d == f[offset..offset + |d|]
    ensures offset + |d| + k <= |f| && d + x[off..off + k] == f[offset..offset + |d| + k]
  {
    assert f[|a| + off..|a| + off + k] == x[off..off + k];
    assert f[offset..offset + |d| + k] == f[offset..offset + |d|] + f[offset + |d|..offset + |d| + k];
  }

  /** MEMCPY into dst at to. */
  method Move(dst: array<byte>, to: nat, src: array<byte>, from: nat, k: nat)
    requires dst != src && to + k <= dst.Length && from + k <= src.Length
    modifies dst
    ensures dst[..] == old(dst[..to]) + src[from..from + k] + old(dst[to + k..])
  {
    forall i | 0 <= i < k {
      dst[to + i] := src[from + i];
    }
  }

  // ----- writing ---------------------------------------------------------------------------------

  /** f with the bytes d from position at on. */
  function Overwritten(f: seq<byte>, at: nat, d: seq<byte>): seq<byte>
    requires at + |d| <= |f|
  {
    f[..at] + d + f[at + |d|..]
  }

  /** Changing one buffer changes that stretch of the flat contents. */
  lemma CatUpdate(v: seq<seq<byte>>, p: nat, o: nat, d: seq<byte>)
    requires p < |v| && o + |d| <= |v[p]|
    ensures var w := v[p := Overwritten(v[p], o, d)]; var at := |Cat(v[..p])| + o;
            && at + |d| <= |Cat(v)| && Cat(w) == Overwritten(Cat(v), at, d)
            && |Cat(w)| == |Cat(v)| && SameShape(v, w)
  {
    var x := Overwritten(v[p], o, d);
    var w := v[p := x];
    CatAt(v, p);
    CatAt(w, p);
    assert w[..p] == v[..p] && w[p + 1..] == v[p + 1..];
    hide Cat;
    InTheMiddle(Cat(v[..p]), v[p], Cat(v[p + 1..]), o, d);
  }

  lemma PrefixSame(v: seq<seq<byte>>, w: seq<seq<byte>>, i: nat)
    requires SameShape(v, w) && i <= |v|
    ensures |Cat(w[..i])| == |Cat(v[..i])|
  {
    SameLengths(w[..i], v[..i]);
  }

  lemma InTheMiddle(a: seq<byte>, x: seq<byte>, b: seq<byte>, o: nat, d: seq<byte>)
    requires o + |d| <= |x|
    ensures Overwritten(a + x + b, |a| + o, d) == a + Overwritten(x, o, d) + b
  {
  }

  lemma {:induction false} SameLengths(a: seq<seq<byte>>, b: seq<seq<byte>>)
    requires |a| == |b| && forall i :: 0 <= i < |a| ==> |a[i]| == |b[i]|
    ensures |Cat(a)| == |Cat(b)|
  {
    if a != [] {
      SameLengths(a[1..], b[1..]);
    }
  }

  /** Copying the bytes d into buffer p at o. */
  method Store(c: Chain, p: nat, o: nat, d: seq<byte>, ghost v: seq<seq<byte>>) returns (ghost w: seq<seq<byte>>)
    requires Apart(c) && Holds(c, v) && p < |c| && o + |d| <= c[p].Length
    modifies c[p]
    ensures o + |d| <= |v[p]| && w == v[p := Overwritten(v[p], o, d)] && Holds(c, w)
  {
    hide Cat, Vals;
    forall i | 0 <= i < |d| {
      c[p][o + i] := d[i];
    }
    w := v[p := Overwritten(v[p], o, d)];
    assert c[p][..] == w[p];
  }

  /** The two lists have buffers of the same lengths. */
  predicate SameShape(v: seq<seq<byte>>, w: seq<seq<byte>>)
  {
    |v| == |w| && forall i {:trigger |w[i]|} :: 0 <= i < |v| ==> |w[i]| == |v[i]|
  }

  /** pbuf_take: the first |data| bytes become data. */
  method Take(c: Chain, data: seq<byte>) returns (err: Err)
    requires Apart(c) && |data| < 0x1_0000
    modifies set a | a in c
    ensures err == if c == [] then ERR_ARG else if |data| <= |old(Flat(c))| then OK else ERR_MEM
    ensures Flat(c) == if err == OK then Overwritten(old(Flat(c)), 0, data) else old(Flat(c))
  {
    if c == [] {
      return ERR_ARG;
    }
    ghost var v := Vals(c);
    TotLenIs(c, 0, v);
    assert v[0..] == v && v[..0] == [];
    if TotLen(c, 0) < |data| {
      return ERR_MEM;
    }
    ghost var w := WriteFrom(c, 0, 0, data, v);
    HoldsVals(c, w);
    err := OK;
  }

  /** The copying loop of pbuf_take, for the buffers from p0 on; `at` bytes lie in front. */
  method WriteFrom(c: Chain, p0: nat, ghost at: nat, data: seq<byte>, ghost v: seq<seq<byte>>)
    returns (ghost w: seq<seq<byte>>)
    requires Apart(c) && Holds(c, v) && p0 <= |c| && at == |Cat(v[..p0])| && at + |data| <= |Cat(v)|
    modifies set a | a in c
    ensures Holds(c, w) && |Cat(w)| == |Cat(v)| && Cat(w) == Overwritten(Cat(v), at, data)
  {
    hide Cat, Vals, Overwritten;
    var p, copied: nat := p0, 0;
    w := v;
    NothingYet(Cat(v), at, data);
    while copied < |data|
      invariant p <= |c| && copied <= |data| && Holds(c, w) && |Cat(w)| == |Cat(v)|
      invariant Cat(w) == Overwritten(Cat(v), at, data[..copied])
      invariant copied < |data| ==> |Cat(w[..p])| == at + copied
      decreases |c| - p
    {
      WriteRoom(w, p, at + copied);
      var k := if |data| - copied > c[p].Length then c[p].Length else |data| - copied;
      ghost var u := w;
      w := Store(c, p, 0, data[copied..copied + k], u);
      Written(Cat(v), u, w, p, at, data, copied, k);
      copied, p := copied + k, p + 1;
    }
    assert data[..|data|] == data;
  }

  lemma NothingYet(f: seq<byte>, at: nat, data: seq<byte>)
    requires at <= |f|
    ensures f == Overwritten(f, at, data[..0])
  {
  }

  lemma WriteRoom(v: seq<seq<byte>>, p: nat, at: nat)
    requires p <= |v| && at == |Cat(v[..p])| < |Cat(v)|
    ensures p < |v|
  {
    assert v[..|v|] == v;
  }

  /** One step of the copying loop. */
  lemma Written(f: seq<byte>, u: seq<seq<byte>>, w: seq<seq<byte>>, p: nat, at: nat, data: seq<byte>, n: nat, k: nat)
    requires p < |u| && n + k <= |data| && k <= |u[p]| && (k == |u[p]| || n + k == |data|)
    requires at + |data| <= |f| == |Cat(u)| && Cat(u) == Overwritten(f, at, data[..n]) && |Cat(u[..p])| == at + n
    requires w == u[p := Overwritten(u[p], 0, data[n..n + k])]
    ensures |Cat(w)| == |f| && Cat(w) == Overwritten(f, at, data[..n + k])
    ensures n + k < |data| ==> |Cat(w[..p + 1])| == at + n + k
  {
    CatUpdate(u, p, 0, data[n..n + k]);
    CatAt(u, p);
    PrefixSame(u, w, p + 1);
    Extend(f, at, data, n, k);
  }

  lemma Extend(f: seq<byte>, at: nat, data: seq<byte>, n: nat, k: nat)
    requires n + k <= |data| && at + |data| <= |f|
    ensures Overwritten(Overwritten(f, at, data[..n]), at + n, data[n..n + k]) == Overwritten(f, at, data[..n + k])
  {
    assert data[..n] + data[n..n + k] == data[..n + k];
  }

  /** pbuf_take_at: the bytes from offset on become data, if offset lies inside and they fit. */
  method TakeAt(c: Chain, data: seq<byte>, offset: u16) returns (err: Err)
    requires Apart(c) && |data| < 0x1_0000
    modifies set a | a in c
    ensures err == if offset < |old(Flat(c))| && offset + |data| <= |old(Flat(c))| then OK else ERR_MEM
    ensures Flat(c) == if err == OK then Overwritten(old(Flat(c)), offset, data) else old(Flat(c))
  {
    ghost var v := Vals(c);
    ghost var w;
    err, w := PlaceAt(c, data, offset, v);
    HoldsVals(c, w);
  }

  method PlaceAt(c: Chain, data: seq<byte>, offset: u16, ghost v: seq<seq<byte>>)
    returns (err: Err, ghost w: seq<seq<byte>>)
    requires Apart(c) && Holds(c, v)
    modifies set a | a in c
    ensures Holds(c, w)
    ensures err == if offset < |Cat(v)| && offset + |data| <= |Cat(v)| then OK else ERR_MEM
    ensures Cat(w) == if err == OK then Overwritten(Cat(v), offset, data) else Cat(v)
  {
    hide Cat, Vals, Overwritten;
    var q, target := Skip(c, offset, v);
    w := v;
    if q == |c| {
      return ERR_MEM, v;
    }
    TotLenIs(c, q, v);
    CatCut(v, q);
    if TotLen(c, q) < target + |data| {
      return ERR_MEM, v;
    }
    w := WriteAcross(c, q, target, data, v);
    err := OK;
  }

  /** Writing data at position target of buffer q, and on into the buffers behind it. */
  method WriteAcross(c: Chain, q: nat, target: nat, data: seq<byte>, ghost v: seq<seq<byte>>)
    returns (ghost w: seq<seq<byte>>)
    requires Apart(c) && Holds(c, v) && q < |c| && target < c[q].Length && |Cat(v[..q])| + target + |data| <= |Cat(v)|
    modifies set a | a in c
    ensures Holds(c, w) && Cat(w) == Overwritten(Cat(v), |Cat(v[..q])| + target, data)
  {
    hide Cat, Vals, Overwritten;
    var first := if c[q].Length - target <= |data| then c[q].Length - target else |data|;
    ghost var u := Store(c, q, target, data[..first], v);
    AcrossFirst(v, u, q, target, data, first);
    if first < |data| {
      w := WriteFrom(c, q + 1, |Cat(v[..q])| + target + first, data[first..], u);
    } else {
      w := u;
    }
  }

  lemma AcrossFirst(v: seq<seq<byte>>, u: seq<seq<byte>>, q: nat, target: nat, data: seq<byte>, first: nat)
    requires q < |v| && target + first <= |v[q]| && first <= |data| && |Cat(v[..q])| + target + |data| <= |Cat(v)|
    requires u == v[q := Overwritten(v[q], target, data[..first])] && (first < |data| ==> target + first == |v[q]|)
    ensures var at := |Cat(v[..q])| + target;
            && |Cat(u)| == |Cat(v)| && (first < |data| ==> |Cat(u[..q + 1])| == at + first)
            && Overwritten(Cat(u), at + first, data[first..]) == Overwritten(Cat(v), at, data)
            && (first == |data| ==> Cat(u) == Overwritten(Cat(v), at, data))
  {
    CatUpdate(v, q, target, data[..first]);
    CatAt(v, q);
    PrefixSame(v, u, q + 1);
    var at := |Cat(v[..q])| + target;
    Extend(Cat(v), at, data, first, |data| - first);
    assert data[first..first + (|data| - first)] == data[first..] && data[..first + (|data| - first)] == data;
    assert first == |data| ==> data[..first] == data;
  }

  /** Writing at an offset and reading there again gives the same bytes. */
  method TakeThenCopy(c: Chain, data: seq<byte>, offset: u16, dst: array<byte>) returns (err: Err, n: u16)
    requires Apart(c) && Short(c) && dst !in c && |data| <= dst.Length && |data| < 0x1_0000
    modifies dst, set a | a in c
    ensures err == OK ==> n == |data| && dst[..n] == data
  {
    err := TakeAt(c, data, offset);
    n := 0;
    if err == OK {
      n := CopyPartial(c, dst, |data|, offset);
    }
  }

  // ----- pbuf_copy -------------------------------------------------------------------------------------

  predicate NoEmpty(c: Chain)
  {
    forall i :: 0 <= i < |c| ==> c[i].Length > 0
  }

  /** The tests of pbuf_copy against packet queues: the buffer at p claims to be the
      last of its packet but has a successor. */
  method IsQueue(c: Chain, p: nat) returns (yes: bool)
    requires p <= |c|
    ensures NoEmpty(c) ==> !yes
  {
    if p + 1 < |c| {
      assert TotLen(c, p) == c[p].Length + TotLen(c, p + 1);
      assert TotLen(c, p + 1) == c[p + 1].Length + TotLen(c, p + 2);
    }
    yes := p < |c| && c[p].Length == TotLen(c, p) && p + 1 < |c|;
  }

  /** pbuf_copy between chains of any shapes. */
  method Copy(to: Chain, from: Chain) returns (err: Err)
    requires Apart(to) && forall a :: a in to ==> a !in from
    modifies set a | a in to
    ensures Flat(from) == old(Flat(from)) && |Flat(to)| == |old(Flat(to))|
    ensures err == OK ==> |Flat(from)| <= |Flat(to)| && Flat(to) == Overwritten(old(Flat(to)), 0, Flat(from))
    ensures to == [] || from == [] || |Flat(to)| < |Flat(from)| ==> err == ERR_ARG && Flat(to) == old(Flat(to))
    ensures to != [] && from != [] && |Flat(from)| <= |Flat(to)| && NoEmpty(to) && NoEmpty(from) ==> err == OK
  {
    ghost var vt, vf := Vals(to), Vals(from);
    ghost var w;
    err, w := CopyChain(to, from, vt, vf);
    HoldsVals(to, w);
    HoldsVals(from, vf);
  }

  method CopyChain(to: Chain, from: Chain, ghost vt: seq<seq<byte>>, ghost vf: seq<seq<byte>>)
    returns (err: Err, ghost w: seq<seq<byte>>)
    requires Apart(to) && Holds(to, vt) && Holds(from, vf) && forall a :: a in to ==> a !in from
    modifies set a | a in to
    ensures Holds(from, vf) && Holds(to, w) && |Cat(w)| == |Cat(vt)|
    ensures err == OK ==> |Cat(vf)| <= |Cat(vt)| && Cat(w) == Overwritten(Cat(vt), 0, Cat(vf))
    ensures to == [] || from == [] || |Cat(vt)| < |Cat(vf)| ==> err == ERR_ARG && Cat(w) == Cat(vt)
    ensures to != [] && from != [] && |Cat(vf)| <= |Cat(vt)| && NoEmpty(to) && NoEmpty(from) ==> err == OK
  {
    hide Cat, Vals, Overwritten;
    w := vt;
    Totals(to, vt);
    Totals(from, vf);
    if to == [] || from == [] || TotLen(to, 0) < TotLen(from, 0) {
      return ERR_ARG, w;
    }
    var pt: nat, ot: nat, pf: nat, of: nat := 0, 0, 0, 0;
    ghost var n: nat := 0;
    CatNone(vt);
    CatNone(vf);
    NothingYet(Cat(vt), 0, Cat(vf));
    while pf < |from|
      invariant Holds(from, vf) && Holds(to, w) && Progress(Cat(vt), vf, w, n)
      invariant pf <= |from| && pt <= |to| && At(w, pt, ot, n) && At(vf, pf, of, n)
      invariant pf < |from| ==> pt < |to|
      decreases |from| - pf + |to| - pt
    {
      var len := if to[pt].Length - ot >= from[pf].Length - of then from[pf].Length - of else to[pt].Length - ot;
      ghost var u := w;
      w := Store(to, pt, ot, from[pf][of..of + len], u);
      CopyStep(Cat(vt), vf, u, w, pt, ot, pf, of, n, vf[pf][of..of + len]);
      ot, of, n := ot + len, of + len, n + len;
      if of >= from[pf].Length {
        of, pf := 0, pf + 1;
      }
      if ot == to[pt].Length {
        ot, pt := 0, pt + 1;
        if pt == |to| && pf < |from| {
          Full(w, vf, pf, of, n);
          return ERR_ARG, w;
        }
      }
      var qf := IsQueue(from, pf);
      if qf {
        return ERR_VAL, w;
      }
      var qt := IsQueue(to, pt);
      if qt {
        return ERR_VAL, w;
      }
    }
    CatCut(vf, |vf|);
    CatNone(vf);
    assert Cat(vf)[..n] == Cat(vf);
    err := OK;
  }

  lemma Totals(c: Chain, v: seq<seq<byte>>)
    requires Holds(c, v)
    ensures TotLen(c, 0) == |Cat(v)|
  {
    TotLenIs(c, 0, v);
    assert v[0..] == v;
  }

  /** Byte n of the chain is byte o of buffer p (or the end of that buffer). */
  ghost predicate At(v: seq<seq<byte>>, p: nat, o: nat, n: nat)
  {
    p <= |v| && |Cat(v[..p])| + o == n <= |Cat(v)| && if p < |v| then o <= |v[p]| else o == 0
  }

  /** n bytes have been copied from the chain vf over the bytes f; the target holds w. */
  ghost predicate Progress(f: seq<byte>, vf: seq<seq<byte>>, w: seq<seq<byte>>, n: nat)
  {
    n <= |Cat(vf)| <= |f| == |Cat(w)| && Cat(w) == Overwritten(f, 0, Cat(vf)[..n])
  }

  /** One step of the copy: len bytes of source buffer pf go into target buffer pt. */
  lemma CopyStep(f: seq<byte>, vf: seq<seq<byte>>, u: seq<seq<byte>>, w: seq<seq<byte>>,
                 pt: nat, ot: nat, pf: nat, of: nat, n: nat, d: seq<byte>)
    requires pt < |u| && pf < |vf| && At(u, pt, ot, n) && At(vf, pf, of, n) && Progress(f, vf, u, n)
    requires ot + |d| <= |u[pt]| && of + |d| <= |vf[pf]| && d == vf[pf][of..of + |d|]
    requires w == u[pt := Overwritten(u[pt], ot, d)]
    ensures Progress(f, vf, w, n + |d|) && At(w, pt, ot + |d|, n + |d|) && At(vf, pf, of + |d|, n + |d|)
    ensures of + |d| == |vf[pf]| ==> At(vf, pf + 1, 0, n + |d|)
    ensures ot + |d| == |w[pt]| ==> At(w, pt + 1, 0, n + |d|)
  {
    hide Cat, Overwritten, At, Progress;
    CopyProgress(f, vf, u, w, pt, ot, pf, of, n, d);
    Advance(vf, pf, of, n, |d|);
    AdvanceTarget(u, w, pt, ot, d, n);
  }

  lemma AdvanceTarget(u: seq<seq<byte>>, w: seq<seq<byte>>, p: nat, o: nat, d: seq<byte>, n: nat)
    requires p < |u| && At(u, p, o, n) && o + |d| <= |u[p]| && w == u[p := Overwritten(u[p], o, d)]
    ensures At(w, p, o + |d|, n + |d|) && (o + |d| == |w[p]| ==> At(w, p + 1, 0, n + |d|))
  {
    hide Cat;
    assert w[..p] == u[..p];
    CatUpdate(u, p, o, d);
    Advance(w, p, o, n, |d|);
  }

  lemma CopyProgress(f: seq<byte>, vf: seq<seq<byte>>, u: seq<seq<byte>>, w: seq<seq<byte>>,
                     pt: nat, ot: nat, pf: nat, of: nat, n: nat, d: seq<byte>)
    requires pt < |u| && pf < |vf| && At(u, pt, ot, n) && At(vf, pf, of, n) && Progress(f, vf, u, n)
    requires ot + |d| <= |u[pt]| && of + |d| <= |vf[pf]| && d == vf[pf][of..of + |d|]
    requires w == u[pt := Overwritten(u[pt], ot, d)]
    ensures Progress(f, vf, w, n + |d|)
  {
    hide Cat, Overwritten;
    SliceOf(vf, pf, of, |d|);
    CatUpdate(u, pt, ot, d);
    Extend(f, 0, Cat(vf), n, |d|);
  }

  lemma Advance(v: seq<seq<byte>>, p: nat, o: nat, n: nat, len: nat)
    requires p < |v| && At(v, p, o, n) && o + len <= |v[p]|
    ensures At(v, p, o + len, n + len) && (o + len == |v[p]| ==> At(v, p + 1, 0, n + len))
  {
    CatAt(v, p);
    hide Cat;
  }

  lemma SliceOf(v: seq<seq<byte>>, p: nat, o: nat, len: nat)
    requires p < |v| && o + len <= |v[p]|
    ensures var at := |Cat(v[..p])| + o; at + len <= |Cat(v)| && Cat(v)[at..at + len] == v[p][o..o + len]
  {
    CatAt(v, p);
    hide Cat;
  }

  /** A full target with source buffers left means that those are empty. */
  lemma Full(w: seq<seq<byte>>, vf: seq<seq<byte>>, pf: nat, of: nat, n: nat)
    requires At(w, |w|, 0, n) && At(vf, pf, of, n) && pf < |vf| && |Cat(vf)| <= |Cat(w)|
    ensures |vf[pf]| == of
  {
    CatCut(w, |w|);
    CatAt(vf, pf);
  }

  // ----- comparing and searching -----------------------------------------------------------------------

  lemma Behind(c: Chain, v: seq<seq<byte>>, q: nat)
    requires Holds(c, v) && q <= |c|
    ensures Holds(c[q..], v[q..])
  {
    assert forall i :: 0 <= i < |c[q..]| ==> c[q..][i] == c[i + q] && v[q..][i] == v[i + q];
  }

  /** pbuf_get_at */
  method GetAt(c: Chain, offset: u16, ghost v: seq<seq<byte>>) returns (b: byte)
    requires Holds(c, v)
    ensures b == if offset < |Cat(v)| then Cat(v)[offset] else 0
  {
    hide Cat, Vals;
    var q, at := Skip(c, offset, v);
    if q == |c| {
      return 0;
    }
    SliceOf(v, q, at, 1);
    assert Cat(v)[offset] == Cat(v)[offset..offset + 1][0];
    b := c[q][at];
  }

  /** The bytes f hold s at position at. */
  predicate MatchesAt(f: seq<byte>, at: nat, s: seq<byte>)
  {
    at + |s| <= |f| && f[at..at + |s|] == s
  }

  /** pbuf_memcmp: 0 for equal, 0xffff if the chain is too short, and otherwise one more
      than the number of leading bytes that agree. */
  method Memcmp(c: Chain, offset: u16, s2: seq<byte>) returns (r: u16)
    requires |Flat(c)| < 0x1_0000 && |s2| < 0x1_0000
    ensures |Flat(c)| < offset + |s2| ==> r == 0xffff
    ensures |Flat(c)| >= offset + |s2| ==>
              && (r == 0 <==> MatchesAt(Flat(c), offset, s2))
              && (r > 0 ==>
                    r <= |s2| && MatchesAt(Flat(c), offset, s2[..r - 1]) && Flat(c)[offset + r - 1] != s2[r - 1])
  {
    ghost var v := Vals(c);
    Totals(c, v);
    if TotLen(c, 0) < offset + |s2| {
      return 0xffff;
    }
    r := Compare(c, offset, s2, v);
  }

  method Compare(c: Chain, offset: u16, s2: seq<byte>, ghost v: seq<seq<byte>>) returns (r: u16)
    requires Holds(c, v) && offset + |s2| <= |Cat(v)| < 0x1_0000
    ensures r == 0 <==> MatchesAt(Cat(v), offset, s2)
    ensures r > 0 ==> r <= |s2| && MatchesAt(Cat(v), offset, s2[..r - 1]) && Cat(v)[offset + r - 1] != s2[r - 1]
  {
    hide Cat, Vals;
    var q, start := Skip(c, offset, v);
    Behind(c, v, q);
    CatCut(v, q);
    var i := 0;
    while i < |s2|
      invariant i <= |s2| && MatchesAt(Cat(v), offset, s2[..i])
    {
      var a := GetAt(c[q..], start + i, v[q..]);
      assert a == Cat(v)[offset + i];
      if a != s2[i] {
        return i + 1;   // at most 0xffff, so the code's minimum never binds
      }
      assert s2[..i + 1] == s2[..i] + [s2[i]];
      i := i + 1;
    }
    assert s2[..i] == s2;
    r := 0;
  }

  /** pbuf_memfind: the least position of mem from start on, or 0xffff. For chains of at
      most 0xfffe bytes the result is 0xffff exactly if mem does not occur. */
  method Memfind(c: Chain, mem: seq<byte>, start: u16) returns (r: u16)
    requires |Flat(c)| < 0x1_0000 && |mem| < 0x1_0000
    ensures r < 0xffff ==> start <= r && MatchesAt(Flat(c), r, mem)
    ensures forall k: nat :: start <= k < r ==> !MatchesAt(Flat(c), k, mem)
    ensures r == 0xffff && |Flat(c)| <= 0xfffe ==> forall k: nat :: start <= k ==> !MatchesAt(Flat(c), k, mem)
  {
    ghost var f := Flat(c);
    ghost var v := Vals(c);
    Totals(c, v);
    hide Cat, Vals, Flat, TotLen;
    var tot := TotLen(c, 0);
    if tot >= |mem| + start {
      var max := (tot - |mem|) % 0x1_0000;
      var i: int := start;
      while i <= max
        invariant start <= i <= max + 1 && forall k: nat :: start <= k < i ==> !MatchesAt(f, k, mem)
      {
        var plus := Memcmp(c, i, mem);
        if plus == 0 {
          return i;
        }
        i := i + 1;
      }
    }
    r := 0xffff;
  }
}
