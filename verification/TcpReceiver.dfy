/** The receive side as the code has it: 32-bit sequence numbers, circular
    comparisons, lists and the SACK array updated in place. Every method is proved
    to compute the corresponding function of `Reassembly` on the unbounded
    positions that the wire values stand for (src/lwip/src/core/tcp_in.c, tcp.c). */
module TcpReceiver {
  import opened Seq32
  import opened Reassembly
  import opened ReassemblyQueue
  import opened ReassemblyRuns

  /** struct tcp_seg on ooseq: header sequence number, payload, FIN flag. */
  datatype Segment = Segment(seqno: u32, data: seq<byte>, fin: bool)

  /** struct tcp_sack_range; valid when left != right. */
  datatype Sack = Sack(left: u32, right: u32)

  function TcpLen(s: Segment): nat { |s.data| + (if s.fin then 1 else 0) }

  function Lower(s: Seg): Segment { Segment(Wire(s.pos), s.data, s.fin) }

  ghost predicate Rep(q: seq<Segment>, v: seq<Seg>)
  {
    |q| == |v| && forall i :: 0 <= i < |q| ==> q[i] == Lower(v[i])
  }

  function LowerSack(e: Range): Sack { Sack(Wire(e.left), Wire(e.right)) }

  predicate IsSet(e: Sack) { e.left != e.right }

  /** The array holds the ranges ss as its valid prefix. */
  ghost predicate SackRep(a: array<Sack>, ss: seq<Range>)
    reads a
  {
    && a.Length == MAX_SACK && |ss| <= MAX_SACK
    && (forall i :: 0 <= i < |ss| ==> a[i] == LowerSack(ss[i]))
    && (forall i :: |ss| <= i < a.Length ==> !IsSet(a[i]))
  }

  lemma RepConcat(a: seq<Segment>, va: seq<Seg>, b: seq<Segment>, vb: seq<Seg>)
    requires Rep(a, va) && Rep(b, vb)
    ensures Rep(a + b, va + vb)
  {
  }

  /** Positions close enough to base for circular comparisons to be exact. */
  predicate Near(base: int, p: int) { base - 0x1000_0000 <= p <= base + 0x1000_0000 }

  ghost predicate NearAll(base: int, v: seq<Seg>)
  {
    forall i :: 0 <= i < |v| ==> Near(base, v[i].pos) && |v[i].data| < 0x1_0000
  }

  /** Comparing ends of segments on the wire is comparing them as positions. */
  lemma Compare(base: int, p: int, m: int, r: int, n: int)
    requires Near(base, p) && Near(base, r) && -1 <= m <= 0x1_0000 && -1 <= n <= 0x1_0000
    ensures SeqGeq(Add(Wire(p), m), Add(Wire(r), n)) <==> p + m >= r + n
    ensures SeqLeq(Add(Wire(p), m), Add(Wire(r), n)) <==> p + m <= r + n
    ensures SeqGt(Add(Wire(p), m), Add(Wire(r), n)) <==> p + m > r + n
    ensures SeqLt(Add(Wire(p), m), Add(Wire(r), n)) <==> p + m < r + n
    ensures Add(Wire(p), m) == Add(Wire(r), n) <==> p + m == r + n
    ensures p + m >= r + n ==> Sub(Add(Wire(p), m), Add(Wire(r), n)) == p + m - r - n
    ensures Add(Wire(p), 0) == Wire(p) && Add(Wire(r), 0) == Wire(r)
  {
    WireAdd(p, m);
    WireAdd(r, n);
    WireAdd(p, 0);
    WireAdd(r, 0);
    WireOrder(p + m, r + n);
  }

  // ----- merging with the queue ------------------------------------------------------

  /** One covered segment leaves the queue v and gives its FIN to s. */
  lemma CoverStep(s: Seg, v: seq<Seg>)
    requires Ordered(v) && v != [] && !s.fin && s.Top() >= v[0].End()
    ensures Cover(s, v) == Cover(s.(fin := v[0].fin), v[1..])
    ensures Ordered(v[1..]) && (v[0].fin ==> |v| == 1)
  {
    OrderedSlice(v, 1, |v|);
    assert |v| > 1 ==> Apart(v[0], v[1]);
  }

  /** What is left when the first segment of v reaches beyond s. */
  lemma CoverStops(s: Seg, v: seq<Seg>)
    requires !s.fin && v != [] && s.pos <= v[0].pos && s.Top() < v[0].End()
    ensures Cover(s, v) == (TrimTo(s, v[0].pos), v)
  {
    assert s.data[..|s.data|] == s.data;
  }

  /** If a segment reaches beyond seqno, it is cut there (pbuf_realloc). */
  method CutAtSeqno(x: Segment, seqno: u32, ghost base: int, ghost s: Seg, ghost p: int) returns (y: Segment)
    requires x == Lower(s) && seqno == Wire(p) && s.pos <= p
    requires Near(base, s.pos) && Near(base, p) && |s.data| < 0x1_0000
    ensures y == Lower(TrimTo(s, p))
  {
    y := x;
    Compare(base, s.pos, |s.data|, p, 0);
    if p < s.Top() {
      CutLength(base, s.pos, p);
    }
    hide Wire, SeqGt, Add, Sub;
    if SeqGt(Add(x.seqno, |x.data|), seqno) {
      y := x.(data := x.data[..Sub(seqno, x.seqno) % 0x1_0000]);
    }
  }

  /** The removal loop of tcp_oos_insert_segment. */
  method DropCovered(cseg0: Segment, next0: seq<Segment>, ghost base: int, ghost s0: Seg, ghost v0: seq<Seg>)
    returns (cseg: Segment, next: seq<Segment>, ghost s: Seg, ghost v: seq<Seg>)
    requires cseg0 == Lower(s0) && Rep(next0, v0) && Ordered(v0) && Fits(s0, v0) && !s0.fin
    requires Near(base, s0.pos) && |s0.data| < 0x1_0000 && NearAll(base, v0)
    ensures cseg == Lower(s) && Rep(next, v) && Ordered(v) && NearAll(base, v) && Fits(s, v)
    ensures s.pos == s0.pos && s.data == s0.data && (s.fin ==> v == [])
    ensures Cover(s, v) == Cover(s0, v0) && (v != [] ==> s.End() < v[0].End())
  {
    cseg, next, s, v := cseg0, next0, s0, v0;
    while next != [] && SeqGeq(Add(cseg.seqno, |cseg.data|), Add(next[0].seqno, |next[0].data|))
      invariant cseg == Lower(s) && Rep(next, v) && Ordered(v) && NearAll(base, v) && Fits(s, v)
      invariant s.pos == s0.pos && s.data == s0.data && (s.fin ==> v == [])
      invariant Cover(s, v) == Cover(s0, v0)
      decreases |next|
    {
      Compare(base, s.pos, |s.data|, v[0].pos, |v[0].data|);
      CoverStep(s, v);
      assert |v| > 1 ==> Apart(v[0], v[1]);
      if next[0].fin {
        cseg := cseg.(fin := true);
      }
      s := s.(fin := v[0].fin);
      next, v := next[1..], v[1..];
    }
    if next != [] {
      Compare(base, s.pos, |s.data|, v[0].pos, |v[0].data|);
    }
  }

  /** tcp_oos_insert_segment */
  method OosInsertSegment(cseg0: Segment, next0: seq<Segment>, ghost base: int, ghost s0: Seg, ghost v0: seq<Seg>)
    returns (out: seq<Segment>)
    requires cseg0 == Lower(s0) && Rep(next0, v0) && Ordered(v0) && Fits(s0, v0)
    requires Near(base, s0.pos) && |s0.data| < 0x1_0000 && NearAll(base, v0)
    ensures Rep(out, Consed(Merge(s0, v0)))
  {
    if cseg0.fin {
      return [cseg0];
    }
    ghost var s, v;
    var cseg, next;
    cseg, next, s, v := DropCovered(cseg0, next0, base, s0, v0);
    if next != [] {
      CoverStops(s, v);
      cseg := CutAtSeqno(cseg, next[0].seqno, base, s, v[0].pos);
    }
    out := [cseg] + next;
  }

  /** seqno lies strictly between the sequence numbers a and b. */
  method IsBetween(seqno: u32, a: u32, b: u32, ghost base: int, ghost p: int, ghost pa: int, ghost pb: int)
    returns (r: bool)
    requires seqno == Wire(p) && a == Wire(pa) && b == Wire(pb)
    requires Near(base, p) && Near(base, pa) && Near(base, pb)
    ensures r <==> pa < p < pb
  {
    Compare(base, p, 0, pa, 1);
    Compare(base, p, 0, pb, -1);
    r := SeqBetween(seqno, Add(a, 1), Add(b, -1));
  }

  /** Segment x ends exactly where seqno starts. */
  method EndsAt(x: Segment, seqno: u32, ghost base: int, ghost s: Seg, ghost p: int) returns (r: bool)
    requires x == Lower(s) && seqno == Wire(p) && Near(base, s.pos) && Near(base, p) && |s.data| < 0x1_0000
    ensures r <==> s.End() == p
  {
    Compare(base, s.pos, |s.data|, p, 0);
    r := Add(x.seqno, |x.data|) == seqno;
  }

  lemma EndTest(base: int, p: int, n: nat, e: int)
    requires Near(base, p) && Near(base, e) && n <= 0x1_0000
    ensures SeqGt(Add(Wire(p), n), Wire(e)) <==> p + n > e
  {
    Compare(base, p, n, e, 0);
  }

  lemma CutLength(base: int, p: int, e: int)
    requires Near(base, p) && Near(base, e) && 0 <= e - p < 0x1_0000
    ensures Sub(Wire(e), Wire(p)) % 0x1_0000 == e - p
  {
    Compare(base, e, 0, p, 0);
  }

  /** The end of a segment is cut at the window edge, taking its FIN with it. */
  method ClipTail(inseg: Segment, edge: u32, ghost base: int, ghost s: Seg, ghost e: int) returns (cseg: Segment)
    requires inseg == Lower(s) && edge == Wire(e) && Near(base, s.pos) && Near(base, e) && s.pos < e
    requires s.Span() < 0x1_0000
    ensures cseg == Lower(ClipTo(s, e))
  {
    EndTest(base, s.pos, s.Span(), e);
    if e < s.Top() {
      CutLength(base, s.pos, e);
    }
    hide Wire, SeqGt, Add, Sub;
    cseg := inseg;
    if SeqGt(Add(inseg.seqno, TcpLen(inseg)), edge) {
      cseg := cseg.(fin := false, data := cseg.data[..Sub(edge, inseg.seqno) % 0x1_0000]);
    }
  }

  // ----- the SACK array ----------------------------------------------------------------

  /** The front of the array holds exactly the ranges ss. */
  ghost predicate Packed(a: array<Sack>, ss: seq<Range>)
    reads a
  {
    |ss| <= a.Length && forall j :: 0 <= j < |ss| ==> a[j] == LowerSack(ss[j])
  }

  /** From entry i on, the array is as it was when it held ss. */
  ghost predicate Unread(a: array<Sack>, ss: seq<Range>, i: nat)
    reads a
  {
    && |ss| <= a.Length == MAX_SACK
    && (forall j :: i <= j < |ss| ==> a[j] == LowerSack(ss[j]))
    && (forall j :: |ss| <= j < MAX_SACK ==> !IsSet(a[j]))
  }

  ghost predicate NearSacks(base: int, ss: seq<Range>)
  {
    forall i :: 0 <= i < |ss| ==> Near(base, ss[i].left) && Near(base, ss[i].right) && ss[i].left < ss[i].right
  }

  lemma EntriesValid(base: int, ss: seq<Range>)
    requires NearSacks(base, ss)
    ensures forall i :: 0 <= i < |ss| ==> IsSet(LowerSack(ss[i]))
  {
    forall i | 0 <= i < |ss| ensures IsSet(LowerSack(ss[i])) {
      WireOrder(ss[i].left, ss[i].right);
    }
  }

  /** An entry does not overlap the block [left, right). */
  method IsApart(e: Sack, left: u32, right: u32, ghost base: int, ghost f: Range, ghost l: int, ghost r: int)
    returns (b: bool)
    requires e == LowerSack(f) && left == Wire(l) && right == Wire(r)
    requires Near(base, f.left) && Near(base, f.right) && Near(base, l) && Near(base, r)
    ensures b <==> f.right <= l || r <= f.left
  {
    WireOrder(f.right, l);
    WireOrder(r, f.left);
    b := SeqLeq(e.right, left) || SeqLeq(right, e.left);
  }

  lemma {:induction false} KeepApartSnoc(ss: seq<Range>, e: Range, l: int, r: int)
    ensures KeepApart(ss + [e], l, r) ==
            if e.right <= l || r <= e.left then KeepApart(ss, l, r) + [e] else KeepApart(ss, l, r)
  {
    if ss != [] {
      assert (ss + [e])[1..] == ss[1..] + [e];
      KeepApartSnoc(ss[1..], e, l, r);
    }
  }

  lemma {:induction false} RemoveLtSnoc(ss: seq<Range>, e: Range, p: int)
    ensures RemoveLt(ss + [e], p) == if e.right > p then RemoveLt(ss, p) + [Cut(e, p)] else RemoveLt(ss, p)
  {
    if ss != [] {
      assert (ss + [e])[1..] == ss[1..] + [e];
      RemoveLtSnoc(ss[1..], e, p);
    }
  }

  lemma TakeSnoc(ss: seq<Range>, i: nat)
    requires i < |ss|
    ensures ss[..i + 1] == ss[..i] + [ss[i]]
  {
  }

  /** The body of the compaction loop of tcp_add_sack. */
  method KeepApartAt(a: array<Sack>, i: nat, unused: nat, left: u32, right: u32,
                     ghost base: int, ghost ss: seq<Range>, ghost l: int, ghost r: int)
    returns (unused': nat)
    requires NearSacks(base, ss) && i < |ss| && Unread(a, ss, i)
    requires left == Wire(l) && right == Wire(r) && Near(base, l) && Near(base, r)
    requires Packed(a, KeepApart(ss[..i], l, r)) && unused == |KeepApart(ss[..i], l, r)|
    modifies a
    ensures Unread(a, ss, i + 1)
    ensures Packed(a, KeepApart(ss[..i + 1], l, r)) && unused' == |KeepApart(ss[..i + 1], l, r)|
  {
    TakeSnoc(ss, i);
    KeepApartSnoc(ss[..i], ss[i], l, r);
    var apart := IsApart(a[i], left, right, base, ss[i], l, r);
    unused' := unused;
    if apart {
      if unused != i {
        a[unused] := a[i];
      }
      unused' := unused + 1;
    }
  }

  /** The compaction loop of tcp_add_sack: keep the entries apart from [left, right). */
  method KeepApartEntries(a: array<Sack>, left: u32, right: u32, ghost base: int, ghost ss: seq<Range>, ghost l: int,
      ghost r: int)
    returns (unused: nat)
    requires SackRep(a, ss) && NearSacks(base, ss)
    requires left == Wire(l) && right == Wire(r) && Near(base, l) && Near(base, r)
    modifies a
    ensures a.Length == MAX_SACK && Packed(a, KeepApart(ss, l, r)) && unused == |KeepApart(ss, l, r)|
  {
    unused := 0;
    var i := 0;
    EntriesValid(base, ss);
    while i < MAX_SACK && IsSet(a[i])
      invariant i <= |ss| && Packed(a, KeepApart(ss[..i], l, r)) && unused == |KeepApart(ss[..i], l, r)|
      invariant Unread(a, ss, i)
    {
      unused := KeepApartAt(a, i, unused, left, right, base, ss, l, r);
      i := i + 1;
    }
    assert ss[..i] == ss;
  }

  /** tcp_add_sack */
  method AddSackEntry(a: array<Sack>, left: u32, right: u32, ghost base: int, ghost ss: seq<Range>, ghost l: int,
      ghost r: int)
    requires SackRep(a, ss) && NearSacks(base, ss)
    requires left == Wire(l) && right == Wire(r) && Near(base, l) && Near(base, r)
    modifies a
    ensures SackRep(a, AddSack(ss, l, r))
  {
    WireOrder(l, r);
    if !SeqLt(left, right) {
      return;
    }
    var unused := KeepApartEntries(a, left, right, base, ss, l, r);
    ghost var kept := KeepApart(ss, l, r);
    var i := MAX_SACK - 1;
    while i > 0
      invariant 0 <= i < MAX_SACK
      invariant forall j :: 0 <= j <= i && j < unused ==> a[j] == LowerSack(kept[j])
      invariant forall j :: i < j < MAX_SACK ==>
                  a[j] == if j - 1 < unused then LowerSack(kept[j - 1]) else Sack(0, 0)
    {
      if i - 1 >= unused {
        a[i] := Sack(0, 0);
      } else {
        a[i] := a[i - 1];
      }
      i := i - 1;
    }
    a[0] := Sack(left, right);
  }

  /** One step of tcp_remove_sacks_lt: keep the part of an entry above seqno. */
  method CutEntry(e: Sack, seqno: u32, ghost base: int, ghost f: Range, ghost p: int) returns (keep: bool, e': Sack)
    requires e == LowerSack(f) && seqno == Wire(p) && Near(base, f.left) && Near(base, f.right) && Near(base, p)
    ensures keep <==> f.right > p
    ensures keep ==> e' == LowerSack(Range(if f.left < p then p else f.left, f.right))
  {
    WireOrder(f.right, p);
    WireOrder(f.left, p);
    keep, e' := SeqGt(e.right, seqno), e;
    if SeqLt(e'.left, seqno) {
      e' := e'.(left := seqno);
    }
  }

  /** The body of the compaction loop of tcp_remove_sacks_lt. */
  method CutAt(a: array<Sack>, i: nat, unused: nat, seqno: u32, ghost base: int, ghost ss: seq<Range>, ghost p: int)
    returns (unused': nat)
    requires NearSacks(base, ss) && seqno == Wire(p) && Near(base, p) && i < |ss| && Unread(a, ss, i)
    requires Packed(a, RemoveLt(ss[..i], p)) && unused == |RemoveLt(ss[..i], p)|
    modifies a
    ensures Unread(a, ss, i + 1)
    ensures Packed(a, RemoveLt(ss[..i + 1], p)) && unused' == |RemoveLt(ss[..i + 1], p)|
  {
    TakeSnoc(ss, i);
    RemoveLtSnoc(ss[..i], ss[i], p);
    var keep, e := CutEntry(a[i], seqno, base, ss[i], p);
    unused' := unused;
    if keep {
      a[unused] := e;
      unused' := unused + 1;
    }
  }

  /** The compaction loop of tcp_remove_sacks_lt. */
  method CutEntries(a: array<Sack>, seqno: u32, ghost base: int, ghost ss: seq<Range>, ghost p: int)
    returns (unused: nat)
    requires SackRep(a, ss) && NearSacks(base, ss) && seqno == Wire(p) && Near(base, p)
    modifies a
    ensures a.Length == MAX_SACK && Packed(a, RemoveLt(ss, p)) && unused == |RemoveLt(ss, p)|
  {
    var i := 0;
    unused := 0;
    EntriesValid(base, ss);
    while i < MAX_SACK && IsSet(a[i])
      invariant i <= |ss| && Packed(a, RemoveLt(ss[..i], p)) && unused == |RemoveLt(ss[..i], p)|
      invariant Unread(a, ss, i)
    {
      unused := CutAt(a, i, unused, seqno, base, ss, p);
      i := i + 1;
    }
    assert ss[..i] == ss;
  }

  /** tcp_remove_sacks_lt */
  method RemoveSacksLt(a: array<Sack>, seqno: u32, ghost base: int, ghost ss: seq<Range>, ghost p: int)
    requires SackRep(a, ss) && NearSacks(base, ss) && seqno == Wire(p) && Near(base, p)
    modifies a
    ensures SackRep(a, RemoveLt(ss, p))
  {
    var unused := CutEntries(a, seqno, base, ss, p);
    ghost var kept := RemoveLt(ss, p);
    for i := unused to MAX_SACK
      invariant forall j :: 0 <= j < unused ==> a[j] == LowerSack(kept[j])
      invariant forall j :: unused <= j < i ==> a[j] == Sack(0, 0)
    {
      a[i] := Sack(0, 0);
    }
  }

  method ClearSacks(a: array<Sack>)
    requires a.Length == MAX_SACK
    modifies a
    ensures SackRep(a, [])
  {
    for i := 0 to MAX_SACK
      invariant forall j :: 0 <= j < i ==> a[j] == Sack(0, 0)
    {
      a[i] := Sack(0, 0);
    }
  }

  // ----- the connection ------------------------------------------------------------------

  lemma InvNear(r: Rcv)
    requires Inv(r)
    ensures NearAll(r.nxt, r.q) && NearSacks(r.nxt, r.sacks)
  {
    forall i | 0 <= i < |r.q| ensures Near(r.nxt, r.q[i].pos) && |r.q[i].data| < 0x1_0000 {
      assert r.q[i] in r.q;
    }
    forall i | 0 <= i < |r.sacks|
      ensures Near(r.nxt, r.sacks[i].left) && Near(r.nxt, r.sacks[i].right) && r.sacks[i].left < r.sacks[i].right
    {
      assert r.sacks[i] in r.sacks;
    }
  }

  /** The test of tcp_receive for data that starts before rcv_nxt and reaches it. */
  lemma BetweenHead(nxt: int, p: int, n: int)
    requires -TWO31 < p - nxt < TWO31 - 1 && 1 <= n < 0x1_0000
    ensures SeqBetween(Wire(nxt), Add(Wire(p), 1), Add(Wire(p), n - 1)) <==> p + 1 <= nxt <= p + n - 1
  {
    WireAdd(p, 1);
    WireAdd(p, n - 1);
    WireOrder(nxt, p + 1);
    if nxt >= p + 1 {
      WireOrder(nxt, p + n - 1);
    }
  }

  /** The window test of tcp_receive. */
  lemma BetweenWindow(nxt: int, p: int, w: int)
    requires -TWO31 <= p - nxt < TWO31 - 1 && 0 <= w <= TCP_WND
    ensures SeqBetween(Wire(p), Wire(nxt), Add(Wire(nxt), w - 1)) <==> nxt <= p < nxt + w
  {
    WireAdd(nxt, w - 1);
    WireOrder(p, nxt);
    if p >= nxt {
      WireOrder(p, nxt + w - 1);
    }
  }

  /** One round of the delivery loop on the unbounded positions. */
  lemma SameLength(q: seq<Segment>, v: seq<Seg>)
    requires Rep(q, v)
    ensures |q| == |v|
  {
  }

  /** The loop test on the wire is the test of Drain. */
  lemma DrainEnds(q: seq<Segment>, v: Rcv, base: int, nxt: u32, fin: bool)
    requires Rep(q, v.q) && NearAll(base, v.q) && base <= v.nxt <= base + TCP_WND && nxt == Wire(v.nxt)
    requires q == [] || q[0].seqno != nxt
    ensures var d := Drained(v.nxt, v.got, fin, v.q); Drain(d) == d
  {
    if q != [] {
      WireOrder(v.q[0].pos, v.nxt);
    }
  }

  lemma DrainStep(d: Drained)
    requires Ordered(d.rest) && d.rest != [] && d.rest[0].pos == d.nxt
    ensures var x := d.rest[0];
            && Drain(d) == Drain(Drained(x.Top(), d.bytes + x.data, d.fin || x.fin, d.rest[1..]))
            && Ordered(d.rest[1..]) && (|d.rest| > 1 ==> x.Top() <= d.rest[1].pos)
            && Drain(d).nxt >= x.Top() >= d.nxt
  {
    var x := d.rest[0];
    OrderedSlice(d.rest, 1, |d.rest|);
    assert |d.rest| > 1 ==> Apart(x, d.rest[1]);
    DrainFacts(Drained(x.Top(), d.bytes + x.data, d.fin || x.fin, d.rest[1..]));
  }

  /** Delivered bytes are appended: what was delivered before does not matter. */
  lemma {:induction false} DrainAppends(pre: seq<byte>, d: Drained)
    ensures Drain(d.(bytes := pre + d.bytes)) == Drain(d).(bytes := pre + Drain(d).bytes)
    decreases |d.rest|
  {
    if d.rest != [] && d.rest[0].pos == d.nxt {
      var x := d.rest[0];
      var d1 := Drained(x.Top(), d.bytes + x.data, d.fin || x.fin, d.rest[1..]);
      assert pre + d.bytes + x.data == pre + (d.bytes + x.data);
      DrainAppends(pre, d1);
    }
  }

  class Pcb {
    var rcvNxt: u32
    var rcvWnd: u32
    var rcvAnnWnd: u32
    var rcvAnnRightEdge: u32
    var ooseq: seq<Segment>
    const rcvSacks: array<Sack>
    var recvData: seq<byte>     // all data passed up so far
    var closeWait: bool         // state >= CLOSE_WAIT
    const mss: u16
    const sackOn: bool          // TF_SACK
    ghost var view: Rcv         // the same state over unbounded positions

    /** The fields are the wire form of the view. */
    ghost predicate Mirrors()
      reads this, rcvSacks
    {
      && rcvNxt == Wire(view.nxt)
      && rcvWnd == view.wnd
      && rcvAnnWnd == view.annWnd
      && rcvAnnRightEdge == Wire(view.annEdge)
      && Rep(ooseq, view.q)
      && SackRep(rcvSacks, view.sacks)
      && recvData == view.got
      && closeWait == view.closed
    }

    ghost predicate Valid()
      reads this, rcvSacks
    {
      Mirrors() && Inv(view) && (!sackOn ==> view.sacks == [])
    }

    /** A window announcement went out within the last 2^27 bytes. */
    ghost predicate Fresh()
      reads this
    {
      view.nxt - view.annEdge <= 0x0800_0000
    }

    /** The connection after the handshake: rcv_nxt follows the peer's SYN. */
    constructor (irs: u32, mss: u16, sackOn: bool)
      ensures Valid() && Fresh() && fresh(rcvSacks)
      ensures this.mss == mss && this.sackOn == sackOn
      ensures view == Rcv(irs + 1, TCP_WND, TCP_WND, irs + 1, [], [], [], false)
    {
      this.mss, this.sackOn := mss, sackOn;
      rcvNxt, rcvAnnRightEdge := Add(irs, 1), Add(irs, 1);
      rcvWnd, rcvAnnWnd := TCP_WND, TCP_WND;
      ooseq, recvData, closeWait := [], [], false;
      rcvSacks := new Sack[MAX_SACK](_ => Sack(0, 0));
      view := Rcv(irs + 1, TCP_WND, TCP_WND, irs + 1, [], [], [], false);
    }

    /** tcp_update_rcv_ann_wnd: the result is how much more window is now announceable. */
    method UpdateRcvAnnWnd() returns (inflation: u32)
      requires Mirrors() && 0 <= view.wnd <= TCP_WND && Near(view.nxt, view.annEdge)
      modifies this`rcvAnnWnd, this`view
      ensures Mirrors()
      ensures view == old(view).(annWnd := AnnWnd(view.nxt, view.wnd, view.annEdge, mss))
      ensures mss > 0 ==> view.wnd - view.annWnd < Min(TCP_WND / 2, mss)
      ensures || view.nxt + view.annWnd == view.annEdge
              || view.nxt + view.annWnd >= view.annEdge + Min(TCP_WND / 2, mss)
              || (view.annEdge < view.nxt && view.annWnd == 0)
      ensures inflation == if view.nxt + view.wnd >= view.annEdge + Min(TCP_WND / 2, mss)
                           then view.nxt + view.wnd - view.annEdge else 0
    {
      var newRightEdge := Add(rcvNxt, rcvWnd);
      Compare(view.nxt, view.nxt, view.wnd, view.annEdge, Min(TCP_WND / 2, mss));
      Compare(view.nxt, view.nxt, view.wnd, view.annEdge, 0);
      Compare(view.nxt, view.nxt, 0, view.annEdge, 0);
      Compare(view.nxt, view.annEdge, 0, view.nxt, 0);
      if SeqGeq(newRightEdge, Add(rcvAnnRightEdge, Min(TCP_WND / 2, mss))) {
        rcvAnnWnd := rcvWnd;
        inflation := Sub(newRightEdge, rcvAnnRightEdge);
      } else if SeqGt(rcvNxt, rcvAnnRightEdge) {
        rcvAnnWnd := 0;
        inflation := 0;
      } else {
        rcvAnnWnd := Sub(rcvAnnRightEdge, rcvNxt);
        inflation := 0;
      }
      view := view.(annWnd := AnnWnd(view.nxt, view.wnd, view.annEdge, mss));
    }

    /** tcp_recved */
    method TcpRecved(len: u16)
      requires Valid() && Fresh()
      modifies this`rcvWnd, this`rcvAnnWnd, this`view
      ensures Valid() && Fresh()
      ensures view == Recved(old(view), len, mss)
    {
      StepKeeps(view, Read(len), Conf(sackOn, mss));
      var wnd: u32 := (rcvWnd + len) % TWO32;
      if wnd > TCP_WND || wnd < rcvWnd {
        rcvWnd := TCP_WND;
      } else {
        rcvWnd := wnd;
      }
      view := view.(wnd := Min(view.wnd + len, TCP_WND));
      var _ := UpdateRcvAnnWnd();
    }

    /** A segment carrying the window goes out (tcp_output_alloc_header, tcp_output_segment). */
    method AnnounceWindow()
      requires Valid()
      modifies this`rcvAnnRightEdge, this`view
      ensures Valid() && Fresh()
      ensures view == AckSent(old(view))
    {
      WireAdd(view.nxt, view.annWnd);
      rcvAnnRightEdge := Add(rcvNxt, rcvAnnWnd);
      view := AckSent(view);
    }

    /** Merging in-sequence data with the queue (tcp_receive). */
    method MergeInSequence(inseg0: Segment, ghost s: Seg) returns (inseg: Segment, ghost t: Seg)
      requires Mirrors() && Inv(view)
      requires inseg0 == Lower(s) && s.pos == view.nxt && s.Span() > 0 && |s.data| < 0x1_0000
      modifies this`ooseq, this`view
      ensures Mirrors() && inseg == Lower(t)
      ensures (t, view.q) == Merge(s, old(view.q)) && view == old(view).(q := view.q)
    {
      inseg, t := inseg0, s;
      if ooseq != [] {
        assert view.q[0] in view.q;
        InvNear(view);
        var out := OosInsertSegment(inseg, ooseq, view.nxt, s, view.q);
        inseg, ooseq := out[0], out[1..];
        ghost var m := Merge(s, view.q);
        t, view := m.0, view.(q := m.1);
      }
    }

    /** Pass one segment up that starts at rcv_nxt and update both windows. */
    method DeliverSegment(cseg: Segment, ghost x: Seg) returns (asserted: bool)
      requires Mirrors() && cseg == Lower(x) && x.pos == view.nxt
      requires 0 <= view.wnd <= TCP_WND && -0x0f80_0000 <= view.annEdge - view.nxt <= TCP_WND
      modifies this`rcvNxt, this`rcvWnd, this`rcvAnnWnd, this`recvData, this`view
      ensures asserted <==> x.Top() > old(view.nxt + view.wnd)
      ensures !asserted ==>
                && Mirrors()
                && view == old(view).(nxt := x.Top(), wnd := view.wnd, got := old(view.got) + x.data,
                                      annWnd := AnnWnd(x.Top(), view.wnd, view.annEdge, mss))
                && view.nxt + view.wnd == old(view.nxt + view.wnd)
    {
      if rcvWnd < TcpLen(cseg) {
        return true;
      }
      WireAdd(view.nxt, x.Span());
      rcvNxt := Add(cseg.seqno, TcpLen(cseg));
      rcvWnd := rcvWnd - TcpLen(cseg);
      recvData := recvData + cseg.data;
      view := view.(nxt := x.Top(), wnd := view.wnd - x.Span(), got := view.got + x.data);
      var _ := UpdateRcvAnnWnd();
      asserted := false;
    }

    /** The delivery loop: queued segments that are now in sequence. */
    method DrainOoseq(gotFin0: bool, ghost d0: Drained) returns (asserted: bool, gotFin: bool)
      requires Mirrors() && Ordered(view.q) && NearAll(view.nxt, view.q)
      requires view.q != [] ==> view.nxt <= view.q[0].pos
      requires 0 <= view.wnd <= TCP_WND && -0x0f00_0000 <= view.annEdge - view.nxt <= TCP_WND
      requires view.annWnd == AnnWnd(view.nxt, view.wnd, view.annEdge, mss)
      requires d0 == Drained(view.nxt, view.got, gotFin0, view.q)
      modifies this`rcvNxt, this`rcvWnd, this`rcvAnnWnd, this`ooseq, this`recvData, this`view
      ensures asserted <==> Drain(d0).nxt > old(view.nxt + view.wnd)
      ensures !asserted ==>
                var d, wnd := Drain(d0), old(view.nxt + view.wnd) - Drain(d0).nxt;
                && Mirrors() && gotFin == d.fin
                && view == old(view).(nxt := d.nxt, wnd := wnd, q := d.rest, got := d.bytes,
                                      annWnd := AnnWnd(d.nxt, wnd, view.annEdge, mss))
    {
      hide Wire, AnnWnd, Ordered, Drain, NearAll, Rep;
      ghost var v0 := view;
      asserted, gotFin := false, gotFin0;
      while ooseq != [] && ooseq[0].seqno == rcvNxt
        invariant Mirrors() && Draining(v0, gotFin, d0)
        decreases |ooseq|
      {
        asserted, gotFin := DrainFirst(gotFin, v0, d0);
        if asserted {
          return;
        }
      }
      DrainEnds(ooseq, view, v0.nxt, rcvNxt, gotFin);
    }

    /** Draining the queue of v0 has come as far as the present view. */
    ghost predicate Draining(v0: Rcv, gotFin: bool, d0: Drained)
      reads this
    {
      && Ordered(view.q) && NearAll(v0.nxt, view.q) && (view.q != [] ==> view.nxt <= view.q[0].pos)
      && 0 <= view.wnd <= TCP_WND && v0.nxt <= view.nxt && view.nxt + view.wnd == v0.nxt + v0.wnd
      && view == v0.(nxt := view.nxt, wnd := view.wnd, q := view.q, got := view.got,
                     annWnd := AnnWnd(view.nxt, view.wnd, v0.annEdge, mss))
      && Drain(Drained(view.nxt, view.got, gotFin, view.q)) == Drain(d0)
    }

    /** One round of the delivery loop. */
    method DrainFirst(gotFin0: bool, ghost v0: Rcv, ghost d0: Drained) returns (asserted: bool, gotFin: bool)
      requires Mirrors() && Draining(v0, gotFin0, d0) && ooseq != [] && ooseq[0].seqno == rcvNxt
      requires v0.wnd <= TCP_WND && -0x0f00_0000 <= v0.annEdge - v0.nxt <= TCP_WND
      modifies this`rcvNxt, this`rcvWnd, this`rcvAnnWnd, this`ooseq, this`recvData, this`view
      ensures asserted ==> Drain(d0).nxt > v0.nxt + v0.wnd
      ensures !asserted ==> Mirrors() && Draining(v0, gotFin, d0) && |ooseq| < |old(ooseq)|
    {
      hide Wire, AnnWnd, Ordered, Drain;
      ghost var x, rest := view.q[0], view.q[1..];
      WireOrder(x.pos, view.nxt);
      DrainStep(Drained(view.nxt, view.got, gotFin0, view.q));
      var cseg := ooseq[0];
      asserted := DeliverSegment(cseg, x);
      gotFin := gotFin0 || cseg.fin;
      if !asserted {
        ooseq, view := ooseq[1..], view.(q := rest);
      }
    }

    /** After delivery: forget SACK entries below the queue, or all of them. */
    method MaintainSacks(ghost base: int)
      requires Mirrors() && sackOn && NearSacks(base, view.sacks) && NearAll(base, view.q)
      modifies rcvSacks, this`view
      ensures Mirrors()
      ensures view == old(view).(sacks := if view.q != [] then RemoveLt(old(view.sacks), view.q[0].pos) else [])
    {
      EntriesValid(base, view.sacks);
      if ooseq != [] {
        RemoveSacksLt(rcvSacks, ooseq[0].seqno, base, view.sacks, view.q[0].pos);
        view := view.(sacks := RemoveLt(view.sacks, view.q[0].pos));
      } else {
        if IsSet(rcvSacks[0]) {
          ClearSacks(rcvSacks);
        }
        view := view.(sacks := []);
      }
    }

    /** Clip a segment, and its FIN, to the receive window. */
    method ClipToWindow(inseg0: Segment, ghost s: Seg) returns (inseg: Segment)
      requires Mirrors() && inseg0 == Lower(s) && s.pos == view.nxt && 0 < view.wnd <= TCP_WND
      ensures inseg == Lower(ClipTo(s, view.nxt + view.wnd))
    {
      inseg := inseg0;
      if TcpLen(inseg) > rcvWnd {
        inseg := inseg.(fin := false, data := inseg.data[..rcvWnd]);
      }
    }

    /** Delivery of in-sequence data together with what the queue adds to it. */
    method DeliverInSequence(inseg0: Segment, ghost s: Seg) returns (asserted: bool, gotFin: bool)
      requires Mirrors() && Inv(view) && Fresh()
      requires inseg0 == Lower(s) && s.pos == view.nxt && 0 < s.Span() < 0x1_0000 && view.wnd > 0
      modifies this`rcvNxt, this`rcvWnd, this`rcvAnnWnd, this`ooseq, this`recvData, this`view
      ensures asserted <==> Delivery(old(view), s).nxt > old(view.nxt + view.wnd)
      ensures !asserted ==>
                var d, wnd := Delivery(old(view), s), old(view.nxt + view.wnd) - Delivery(old(view), s).nxt;
                && Mirrors() && gotFin == d.fin
                && view == old(view).(nxt := d.nxt, wnd := wnd, q := d.rest, got := old(view.got) + d.bytes,
                                      annWnd := AnnWnd(d.nxt, wnd, view.annEdge, mss))
    {
      hide Wire, Merge, Drain, AnnWnd, Rep, SackRep, Queued, SacksBounded;
      ghost var v0 := view;
      var inseg := ClipToWindow(inseg0, s);
      ghost var t;
      inseg, t := MergeInSequence(inseg, ClipTo(s, view.nxt + view.wnd));
      MergedParts(v0, s, t, view.q);
      gotFin := inseg.fin;
      asserted := DeliverSegment(inseg, t);
      if !asserted {
        asserted, gotFin := DrainOoseq(gotFin, Drained(t.Top(), v0.got + t.data, t.fin, view.q));
      }
    }

    /** In-sequence data, from arrival to the FIN correction of the window. */
    method AcceptInSequence(inseg: Segment, ghost s: Seg) returns (asserted: bool)
      requires Valid() && Fresh() && !view.closed
      requires inseg == Lower(s) && s.pos == view.nxt && 0 < s.Span() < 0x1_0000 && view.wnd > 0
      modifies this, rcvSacks
      ensures asserted <==> Accept(old(view), s, sackOn, mss).Asserted?
      ensures !asserted ==> Valid() && view == Accept(old(view), s, sackOn, mss).r
    {
      hide Wire, Merge, Drain, AnnWnd, RemoveLt, Queued, Windowed, SacksBounded, Rep, SackRep;
      ghost var v0 := view;
      AcceptKeeps(view, s, Conf(sackOn, mss));
      AcceptSacksBounded(view, s, Conf(sackOn, mss));
      InvNear(view);
      var gotFin;
      asserted, gotFin := DeliverInSequence(inseg, s);
      if asserted {
        return;
      }
      DeliveryFacts(v0, s);
      if sackOn {
        SuffixNear(v0, view.q, v0.nxt);
        MaintainSacks(v0.nxt);
      }
      if gotFin {
        closeWait := true;
        if rcvWnd != TCP_WND {
          rcvWnd := rcvWnd + 1;
        }
      }
      view := Accept(v0, s, sackOn, mss).r;
    }

    /** Queueing into an empty queue. */
    method QueueFirst(inseg: Segment, copyOk: bool, ghost s: Seg)
      requires Valid() && view.q == [] && inseg == Lower(s)
      requires view.nxt < s.pos < view.nxt + view.wnd && 0 < s.Span() < 0x1_0000
      modifies this`ooseq, this`view, rcvSacks
      ensures Valid() && view == Enqueue(old(view), s, copyOk, sackOn)
    {
      EnqueueKeeps(view, s, copyOk, Conf(sackOn, mss));
      hide Inv, Wire, Place;
      if copyOk {
        ooseq := [inseg];
      }
      if sackOn {
        WireAdd(s.pos, |s.data|);
        WireOrder(s.pos, s.End());
        rcvSacks[0] := Sack(inseg.seqno, Add(inseg.seqno, |inseg.data|));
      }
      view := Enqueue(view, s, copyOk, sackOn);
    }

    /** The walk along the queue: where the segment goes, and the left edge of the
        contiguous block in front of that place. */
    method FindPlace(seqno: u32, ghost p: int) returns (k: nat, sackbeg: u32)
      requires Mirrors() && Ordered(view.q) && NearAll(view.nxt, view.q) && view.q != []
      requires seqno == Wire(p) && Near(view.nxt, p)
      ensures k == Below(view.q, p)
      ensures sackbeg == Wire(if k == 0 then Min(p, view.q[0].pos) else RunLeft(view.q, k - 1))
    {
      hide Wire, SeqLt, SeqGt, Ordered, Below, RunLeft;
      RunLeftFirst(view.q);
      var next := 0;
      WireOrder(p, view.q[0].pos);
      sackbeg := if SeqLt(seqno, ooseq[0].seqno) then seqno else ooseq[0].seqno;
      while true
        invariant next < |ooseq|
        invariant forall i :: 0 <= i < next ==> view.q[i].pos < p
        invariant sackbeg == Wire(if next == 0 then Min(p, view.q[0].pos) else RunLeft(view.q, next - 1))
        decreases |ooseq| - next
      {
        ghost var y := view.q[next];
        WireOrder(p, y.pos);
        if seqno == ooseq[next].seqno {
          BelowIs(view.q, p, next);
          return next, sackbeg;
        }
        if next == 0 {
          if SeqLt(seqno, ooseq[next].seqno) {
            BelowIs(view.q, p, 0);
            return 0, sackbeg;
          }
        } else {
          var prev := ooseq[next - 1];
          ghost var x := view.q[next - 1];
          var between := IsBetween(seqno, prev.seqno, ooseq[next].seqno, view.nxt, p, x.pos, y.pos);
          if between {
            BelowIs(view.q, p, next);
            return next, sackbeg;
          }
          var adjacent := EndsAt(prev, ooseq[next].seqno, view.nxt, x, y.pos);
          if !adjacent {
            sackbeg := ooseq[next].seqno;
          }
          RunLeftNext(view.q, next);
        }
        if next + 1 == |ooseq| && SeqGt(seqno, ooseq[next].seqno) {
          BelowIs(view.q, p, next + 1);
          return next + 1, sackbeg;
        }
        next := next + 1;
      }
    }

    /** Appending behind the last queued segment, clipped to the window. */
    method AppendLast(inseg: Segment, ghost s: Seg)
      requires Valid() && view.q != [] && !view.q[|view.q| - 1].fin && inseg == Lower(s)
      requires view.nxt < s.pos < view.nxt + view.wnd && 0 < s.Span() < 0x1_0000
      requires Below(view.q, s.pos) == |view.q|
      modifies this`ooseq
      ensures Rep(ooseq, Place(view.q, s, view.nxt + view.wnd))
    {
      hide Wire, Merge, Ordered, ClipTo;
      InvNear(view);
      var n := |ooseq|;
      var front := FrontCutAt(inseg.seqno, n, s.pos);
      WireAdd(view.nxt, view.wnd);
      var cseg := ClipTail(inseg, Add(rcvNxt, rcvWnd), view.nxt, s, view.nxt + view.wnd);
      assert view.q[..n] == view.q;
      RepConcat(front, TrimLast(view.q, s.pos), [cseg], [ClipTo(s, view.nxt + view.wnd)]);
      ooseq := front + [cseg];
    }

    /** Replacing the queued segment with the same sequence number, if longer. */
    method ReplaceAt(inseg: Segment, k: nat, ghost s: Seg)
      requires Valid() && inseg == Lower(s)
      requires view.nxt < s.pos < view.nxt + view.wnd && 0 < s.Span() < 0x1_0000
      requires k == Below(view.q, s.pos) < |view.q| && view.q[k].pos == s.pos
      modifies this`ooseq
      ensures Rep(ooseq, Place(view.q, s, view.nxt + view.wnd))
    {
      hide Merge, Wire, Ordered;
      InvNear(view);
      OrderedSlice(view.q, k, |view.q|);
      if |inseg.data| > |ooseq[k].data| {
        var out := OosInsertSegment(inseg, ooseq[k..], view.nxt, s, view.q[k..]);
        RepConcat(ooseq[..k], view.q[..k], out, Consed(Merge(s, view.q[k..])));
        ooseq := ooseq[..k] + out;
      }
    }

    /** The first k queued segments, the last of them cut at seqno. */
    method FrontCutAt(seqno: u32, k: nat, ghost p: int) returns (front: seq<Segment>)
      requires Mirrors() && k <= |view.q| && seqno == Wire(p) && Near(view.nxt, p) && NearAll(view.nxt, view.q)
      requires forall i :: 0 <= i < k ==> view.q[i].pos < p
      ensures Rep(front, TrimLast(view.q[..k], p))
    {
      front := ooseq[..k];
      if k > 0 {
        var prev := CutAtSeqno(ooseq[k - 1], seqno, view.nxt, view.q[k - 1], p);
        front := ooseq[..k - 1] + [prev];
      }
    }

    /** Insertion between two queued segments or at the front. */
    method InsertBetween(inseg: Segment, k: nat, ghost s: Seg)
      requires Valid() && inseg == Lower(s)
      requires view.nxt < s.pos < view.nxt + view.wnd && 0 < s.Span() < 0x1_0000
      requires k == Below(view.q, s.pos) < |view.q| && view.q[k].pos > s.pos
      modifies this`ooseq
      ensures Rep(ooseq, Place(view.q, s, view.nxt + view.wnd))
    {
      hide Wire, Merge, Ordered;
      InvNear(view);
      OrderedSlice(view.q, k, |view.q|);
      var out := OosInsertSegment(inseg, ooseq[k..], view.nxt, s, view.q[k..]);
      var front := FrontCutAt(inseg.seqno, k, s.pos);
      RepConcat(front, TrimLast(view.q[..k], s.pos), out, Consed(Merge(s, view.q[k..])));
      ooseq := front + out;
    }

    /** The right edge of the contiguous block that starts at queue position k. */
    method FindSackEnd(k: nat) returns (sackend: u32)
      requires Mirrors() && NearAll(view.nxt, view.q) && k < |view.q|
      ensures sackend == Wire(RunRight(view.q, k))
    {
      var next := k;
      sackend := ooseq[k].seqno;
      while next < |ooseq| && sackend == ooseq[next].seqno
        invariant k <= next <= |ooseq|
        invariant if next == k then sackend == Wire(view.q[k].pos)
                  else sackend == Wire(view.q[next - 1].End()) && RunRight(view.q, next - 1) == RunRight(view.q, k)
      {
        ghost var x := view.q[next];
        if next > k {
          WireOrder(view.q[next - 1].End(), x.pos);
        }
        WireAdd(x.pos, |x.data|);
        sackend := Add(sackend, |ooseq[next].data|);
        next := next + 1;
      }
      if k < next < |ooseq| {
        WireOrder(view.q[next - 1].End(), view.q[next].pos);
      }
    }

    /** The left edge of the block around queue position k. */
    method BlockStart(k: nat, sackbeg0: u32, ghost q0: seq<Seg>, ghost p: int) returns (sackbeg: u32)
      requires Rep(ooseq, view.q) && NearAll(view.nxt, view.q) && k < |view.q| && q0 != [] && SameFront(q0, view.q, k)
      requires sackbeg0 == Wire(if k == 0 then Min(p, q0[0].pos) else RunLeft(q0, k - 1))
      ensures sackbeg == Wire(if k == 0 then Min(p, q0[0].pos) else RunLeft(view.q, k))
    {
      hide Wire, RunRight;
      sackbeg := sackbeg0;
      if k > 0 {
        SameRunLeft(q0, view.q, k, k - 1);
        var adjacent := EndsAt(ooseq[k - 1], ooseq[k].seqno, view.nxt, view.q[k - 1], view.q[k].pos);
        if !adjacent {
          sackbeg := ooseq[k].seqno;
        }
      }
    }

    /** Reporting the contiguous block around queue position k as the newest SACK. */
    method ReportSack(k: nat, sackbeg0: u32, ghost q0: seq<Seg>, ghost p: int)
      requires Mirrors() && Queued(view) && NearAll(view.nxt, view.q) && NearSacks(view.nxt, view.sacks)
      requires q0 != [] && k == Below(q0, p) && Near(view.nxt, p) && Near(view.nxt, q0[0].pos) && view.q != []
      requires 0 <= view.wnd <= TCP_WND
      requires sackbeg0 == Wire(if k == 0 then Min(p, q0[0].pos) else RunLeft(q0, k - 1))
      requires SameFront(q0, view.q, k)
      modifies rcvSacks, this`view
      ensures Mirrors()
      ensures view == old(view).(sacks := SackAfter(old(view.sacks), q0, view.q, p))
    {
      SameLength(ooseq, view.q);
      hide RunRight, RunLeft, Rep, SackRep, Wire, Queued, NearAll, NearSacks, SameFront, AddSack, Below;
      if k >= |ooseq| {
        return;
      }
      var sackbeg := BlockStart(k, sackbeg0, q0, p);
      var sackend := FindSackEnd(k);
      BlockNear(view, k);
      ReportBlock(sackbeg, sackend, if k == 0 then Min(p, q0[0].pos) else RunLeft(view.q, k), RunRight(view.q, k));
    }

    method ReportBlock(left: u32, right: u32, ghost l: int, ghost r: int)
      requires Mirrors() && NearSacks(view.nxt, view.sacks)
      requires left == Wire(l) && right == Wire(r) && Near(view.nxt, l) && Near(view.nxt, r)
      modifies rcvSacks, this`view
      ensures Mirrors() && view == old(view).(sacks := AddSack(old(view.sacks), l, r))
    {
      hide Rep, SackRep, Wire, NearSacks, AddSack;
      AddSackEntry(rcvSacks, left, right, view.nxt, view.sacks, l, r);
      view := view.(sacks := AddSack(view.sacks, l, r));
    }

    /** The queue part of queueing into a queue that is not empty. */
    method InsertOoseq(inseg: Segment, k: nat, ghost s: Seg)
      requires Valid() && view.q != [] && inseg == Lower(s) && k == Below(view.q, s.pos)
      requires view.nxt < s.pos < view.nxt + view.wnd && 0 < s.Span() < 0x1_0000
      modifies this`ooseq
      ensures Rep(ooseq, Place(view.q, s, view.nxt + view.wnd))
    {
      hide Merge, Ordered, Wire;
      if k == |ooseq| {
        if !ooseq[k - 1].fin {
          AppendLast(inseg, s);
        }
      } else {
        InvNear(view);
        WireOrder(s.pos, view.q[k].pos);
        if inseg.seqno == ooseq[k].seqno {
          ReplaceAt(inseg, k, s);
        } else {
          InsertBetween(inseg, k, s);
        }
      }
    }

    /** Insertion, unless the copy of the segment could not be allocated. */
    method InsertIfCopied(inseg: Segment, copyOk: bool, k: nat, ghost s: Seg)
      requires Valid() && view.q != [] && inseg == Lower(s) && k == Below(view.q, s.pos)
      requires view.nxt < s.pos < view.nxt + view.wnd && 0 < s.Span() < 0x1_0000
      modifies this`ooseq, this`view
      ensures Mirrors() && Queued(view) && view.q != []
      ensures view == old(view).(q := if copyOk then Place(old(view.q), s, view.nxt + view.wnd) else old(view.q))
      ensures SameFront(old(view.q), view.q, k)
    {
      hide Place, SameFront, Below, Rep;
      SameFrontSelf(view.q, k);
      if copyOk {
        PlaceFront(view.q, s, view.nxt + view.wnd);
        PlaceBounds(view, s);
        InsertOoseq(inseg, k, s);
        view := view.(q := Place(view.q, s, view.nxt + view.wnd));
      }
    }

    /** Out-of-sequence data when the queue is not empty. */
    method QueueMore(inseg: Segment, copyOk: bool, ghost s: Seg)
      requires Valid() && view.q != [] && inseg == Lower(s)
      requires view.nxt < s.pos < view.nxt + view.wnd && 0 < s.Span() < 0x1_0000
      modifies this`ooseq, this`view, rcvSacks
      ensures Mirrors() && view == Enqueue(old(view), s, copyOk, sackOn)
    {
      hide Place, SackAfter;
      InvNear(view);
      ghost var q0 := view.q;
      var k, sackbeg := FindPlace(inseg.seqno, s.pos);
      InsertIfCopied(inseg, copyOk, k, s);
      if sackOn {
        QueuedNear(view);
        ReportSack(k, sackbeg, q0, s.pos);
      }
    }

    /** Out-of-sequence data. */
    method QueueOutOfSequence(inseg: Segment, copyOk: bool, ghost s: Seg)
      requires Valid() && inseg == Lower(s)
      requires view.nxt < s.pos < view.nxt + view.wnd && 0 < s.Span() < 0x1_0000
      modifies this`ooseq, this`view, rcvSacks
      ensures Valid() && view == Enqueue(old(view), s, copyOk, sackOn)
    {
      EnqueueKeeps(view, s, copyOk, Conf(sackOn, mss));
      if ooseq == [] {
        QueueFirst(inseg, copyOk, s);
      } else {
        QueueMore(inseg, copyOk, s);
      }
    }

    /** The data half of tcp_receive for any segment that tcp_input lets through.
        The position `seg.pos` is the one its sequence number stands for: the
        representative nearest to rcv_nxt (two 32-bit values, exactly half the
        sequence space away, have no nearest one). */
    method TcpReceive(inseg0: Segment, copyOk: bool, ghost seg: Seg) returns (asserted: bool)
      requires Valid() && Fresh() && inseg0 == Lower(seg) && TcpLen(inseg0) < 0x1_0000
      requires -TWO31 < seg.pos - view.nxt < TWO31 - 1
      modifies this, rcvSacks
      ensures asserted <==> Arrive(old(view), seg, copyOk, sackOn, mss).Asserted?
      ensures !asserted ==> Valid() && view == Arrive(old(view), seg, copyOk, sackOn, mss).r
    {
      hide Wire, Accept, Enqueue, Queued, SacksBounded, Rep, SackRep;
      asserted := false;
      var tcplen := TcpLen(inseg0);
      if tcplen == 0 || closeWait {
        return;
      }
      var inseg := TrimFront(inseg0, seg);
      ghost var s := TrimHead(seg, view.nxt);
      BetweenWindow(view.nxt, s.pos, view.wnd);
      if SeqBetween(inseg.seqno, rcvNxt, Add(rcvNxt, rcvWnd - 1)) {
        WireOrder(view.nxt, s.pos);
        if rcvNxt == inseg.seqno {
          asserted := AcceptInSequence(inseg, s);
        } else {
          QueueOutOfSequence(inseg, copyOk, s);
        }
      }
    }

    /** Trimming the part of a segment that lies before rcv_nxt. */
    method TrimFront(inseg: Segment, ghost seg: Seg) returns (out: Segment)
      requires Mirrors() && inseg == Lower(seg) && 0 < TcpLen(inseg) < 0x1_0000
      requires -TWO31 < seg.pos - view.nxt < TWO31 - 1
      ensures out == Lower(TrimHead(seg, view.nxt))
    {
      out := inseg;
      BetweenHead(view.nxt, seg.pos, seg.Span());
      if SeqBetween(rcvNxt, Add(inseg.seqno, 1), Add(inseg.seqno, TcpLen(inseg) - 1)) {
        WireOrder(view.nxt, seg.pos);
        var off := Sub(rcvNxt, inseg.seqno);
        out := Segment(rcvNxt, inseg.data[off..], inseg.fin);
      }
    }
  }

  /** The first k segments start alike and all but the k-th end alike. */
  ghost predicate SameFront(q: seq<Seg>, q1: seq<Seg>, k: nat)
  {
    && k <= |q| && k <= |q1|
    && (forall i :: 0 <= i < k ==> q1[i].pos == q[i].pos)
    && (forall i :: 0 <= i < k - 1 ==> q1[i].End() == q[i].End())
  }

  lemma {:induction false} SameRunLeft(q: seq<Seg>, q1: seq<Seg>, k: nat, j: nat)
    requires SameFront(q, q1, k) && j < k
    ensures RunLeft(q1, j) == RunLeft(q, j)
  {
    if j > 0 && q[j - 1].End() == q[j].pos {
      SameRunLeft(q, q1, k, j - 1);
    }
  }

  lemma PlaceFront(q: seq<Seg>, s: Seg, edge: int)
    ensures SameFront(q, Place(q, s, edge), Below(q, s.pos))
  {
    hide Merge, Ordered, Consed, SameFront;
    var k := Below(q, s.pos);
    if k < |q| && q[k].pos == s.pos {
      KeptFront(q, k, q[k..]);
      KeptFront(q, k, Consed(Merge(s, q[k..])));
      assert q == q[..k] + q[k..];
    } else if k == |q| > 0 {
      TrimmedFront(q, k, s.pos, [ClipTo(s, edge)]);
      KeptFront(q, k, []);
      assert q == q[..k] == q[..k] + [];
    } else {
      TrimmedFront(q, k, s.pos, Consed(Merge(s, q[k..])));
    }
  }

  lemma SameFrontSelf(q: seq<Seg>, k: nat)
    requires k <= |q|
    ensures SameFront(q, q, k)
  {
  }

  lemma KeptFront(q: seq<Seg>, k: nat, w: seq<Seg>)
    requires k <= |q|
    ensures SameFront(q, q[..k] + w, k)
  {
  }

  lemma TrimmedFront(q: seq<Seg>, k: nat, p: int, w: seq<Seg>)
    requires k <= |q|
    ensures SameFront(q, TrimLast(q[..k], p) + w, k)
  {
    var v := TrimLast(q[..k], p);
    assert forall i :: 0 <= i < k ==> v[i].pos == q[i].pos && (i < k - 1 ==> v[i] == q[i]);
  }

  lemma QueuedNear(r: Rcv)
    requires Queued(r) && 0 <= r.wnd <= TCP_WND
    ensures NearAll(r.nxt, r.q)
  {
    forall i | 0 <= i < |r.q| ensures Near(r.nxt, r.q[i].pos) && |r.q[i].data| < 0x1_0000 {
      assert r.q[i] in r.q;
    }
  }

  lemma BlockNear(r: Rcv, k: nat)
    requires NearAll(r.nxt, r.q) && Queued(r) && 0 <= r.wnd <= TCP_WND && k < |r.q|
    ensures Near(r.nxt, RunLeft(r.q, k)) && Near(r.nxt, RunRight(r.q, k))
  {
    RunLeftBound(r.q, k);
    RunRightBound(r.q, k);
    var i :| 0 <= i <= k && RunLeft(r.q, k) == r.q[i].pos;
    var j :| k <= j < |r.q| && RunRight(r.q, k) == r.q[j].End();
    assert r.q[j] in r.q;
  }

  lemma SuffixNear(r: Rcv, q: seq<Seg>, p: int)
    requires Inv(r) && Suffix(q, r.q) && r.nxt <= p <= r.nxt + TCP_WND
    ensures NearAll(p, q)
  {
    SuffixOrdered(q, r.q);
    forall i | 0 <= i < |q| ensures Near(p, q[i].pos) && |q[i].data| < 0x1_0000 {
      assert q[i] in q;
    }
  }

  /** What merging the clipped segment leaves to deliver. */
  lemma MergedParts(r: Rcv, s: Seg, t: Seg, rest: seq<Seg>)
    requires Inv(r) && s.pos == r.nxt && s.Span() > 0 && r.wnd > 0
    requires (t, rest) == Merge(ClipTo(s, r.nxt + r.wnd), r.q)
    ensures t.pos == r.nxt && Ordered(rest) && (rest != [] ==> t.Top() <= rest[0].pos)
    ensures Drain(Drained(t.Top(), r.got + t.data, t.fin, rest))
            == Delivery(r, s).(bytes := r.got + Delivery(r, s).bytes)
    ensures Delivery(r, s).nxt >= t.Top()
    ensures t.Top() <= r.nxt + r.wnd ==> NearAll(t.Top(), rest)
  {
    var d := Drained(t.Top(), t.data, t.fin, rest);
    MergeBounds(r, ClipTo(s, r.nxt + r.wnd));
    DrainFacts(d);
    DrainAppends(r.got, d);
    if t.Top() <= r.nxt + r.wnd {
      SuffixNear(r, rest, t.Top());
    }
  }

  lemma RunLeftFirst(q: seq<Seg>)
    requires q != []
    ensures RunLeft(q, 0) == q[0].pos
  {
  }

  lemma RunLeftNext(q: seq<Seg>, k: nat)
    requires 0 < k < |q|
    ensures RunLeft(q, k) == if q[k - 1].End() == q[k].pos then RunLeft(q, k - 1) else q[k].pos
  {
  }

  lemma BelowIs(q: seq<Seg>, p: int, k: nat)
    requires k <= |q| && (forall i :: 0 <= i < k ==> q[i].pos < p) && (k < |q| ==> q[k].pos >= p)
    ensures Below(q, p) == k
  {
  }
}
