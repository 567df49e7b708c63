/** The receive side of one TCP connection over unbounded positions: reassembly,
    the SACK list and the announced window (src/lwip/src/core/tcp_in.c, tcp.c).
    `TcpReceiver` shows that the 32-bit code computes these functions. */
module Reassembly {
  import opened Seq32

  const TCP_WND: int := 4 * 1460
  const MAX_SACK: nat := 4

  /** A segment: first position, payload and FIN flag. */
  datatype Seg = Seg(pos: int, data: seq<byte>, fin: bool) {
    function End(): int { pos + |data| }

    /** TCP_TCPLEN: the sequence numbers a segment occupies. */
    function Span(): nat { |data| + (if fin then 1 else 0) }

    function Top(): int { pos + Span() }
  }

  datatype Range = Range(left: int, right: int)

  datatype Rcv = Rcv(
    nxt: int,            // rcv_nxt
    wnd: int,            // rcv_wnd
    annWnd: int,         // rcv_ann_wnd
    annEdge: int,        // rcv_ann_right_edge
    q: seq<Seg>,         // ooseq
    sacks: seq<Range>,   // the valid prefix of rcv_sacks
    got: seq<byte>,      // everything passed up so far
    closed: bool)        // a FIN was passed up (state >= CLOSE_WAIT)

  /** What one call does: a new state, or a failed LWIP_ASSERT on the window. */
  datatype Outcome = Stepped(r: Rcv) | Asserted

  // ----- trimming ------------------------------------------------------------

  function Clamp(n: int, hi: nat): (r: nat)
    ensures r <= hi
  {
    if n < 0 then 0 else if n > hi then hi else n
  }

  /** Cut the payload at position p (pbuf_realloc on the right edge). */
  function TrimTo(s: Seg, p: int): Seg
  {
    s.(data := s.data[..Clamp(p - s.pos, |s.data|)])
  }

  /** Cut a segment, and its FIN, to the right window edge. */
  function ClipTo(s: Seg, edge: int): Seg
  {
    if s.Top() > edge then TrimTo(s, edge).(fin := false) else s
  }

  /** Drop the part of a segment that was received before. */
  function TrimHead(s: Seg, nxt: int): Seg
  {
    if s.pos < nxt < s.Top() then Seg(nxt, s.data[Clamp(nxt - s.pos, |s.data|)..], s.fin) else s
  }

  // ----- the out-of-order queue ----------------------------------------------

  /** Segments of q that s covers are dropped, their FIN moves to s, and s is cut
      where the first remaining segment starts. */
  function Cover(s: Seg, q: seq<Seg>): (Seg, seq<Seg>)
    decreases |q|
  {
    if q != [] && s.Top() >= q[0].End() then Cover(s.(fin := s.fin || q[0].fin), q[1..])
    else if q != [] && s.Top() > q[0].pos then (TrimTo(s, q[0].pos), q)
    else (s, q)
  }

  /** A segment with FIN stands for everything behind it. */
  function Merge(s: Seg, q: seq<Seg>): (Seg, seq<Seg>)
  {
    if s.fin then (s, []) else Cover(s, q)
  }

  function Consed(m: (Seg, seq<Seg>)): seq<Seg> { [m.0] + m.1 }

  /** How many queued segments start below p. */
  function Below(q: seq<Seg>, p: int): (k: nat)
    ensures k <= |q|
    ensures forall i :: 0 <= i < k ==> q[i].pos < p
    ensures k < |q| ==> q[k].pos >= p
  {
    if q == [] || q[0].pos >= p then 0 else 1 + Below(q[1..], p)
  }

  function TrimLast(q: seq<Seg>, p: int): seq<Seg>
  {
    if q == [] then [] else q[..|q| - 1] + [TrimTo(q[|q| - 1], p)]
  }

  /** Where and how an out-of-sequence segment enters the queue. */
  function Place(q: seq<Seg>, s: Seg, edge: int): seq<Seg>
  {
    var k := Below(q, s.pos);
    if k < |q| && q[k].pos == s.pos then
      if |s.data| > |q[k].data| then q[..k] + Consed(Merge(s, q[k..])) else q
    else if k == |q| > 0 then
      if q[k - 1].fin then q else TrimLast(q, s.pos) + [ClipTo(s, edge)]
    else
      TrimLast(q[..k], s.pos) + Consed(Merge(s, q[k..]))
  }

  /** Segments that have become deliverable, taken off the front of the queue. */
  datatype Drained = Drained(nxt: int, bytes: seq<byte>, fin: bool, rest: seq<Seg>)

  function Drain(d: Drained): Drained
    decreases |d.rest|
  {
    if d.rest != [] && d.rest[0].pos == d.nxt then
      Drain(Drained(d.rest[0].Top(), d.bytes + d.rest[0].data, d.fin || d.rest[0].fin, d.rest[1..]))
    else d
  }

  // ----- SACK list -----------------------------------------------------------

  function KeepApart(ss: seq<Range>, l: int, r: int): (t: seq<Range>)
    ensures |t| <= |ss|
  {
    if ss == [] then []
    else if ss[0].right <= l || r <= ss[0].left then [ss[0]] + KeepApart(ss[1..], l, r)
    else KeepApart(ss[1..], l, r)
  }

  /** tcp_add_sack: the new block first, then the older ones it does not touch. */
  function AddSack(ss: seq<Range>, l: int, r: int): seq<Range>
  {
    if l >= r then ss
    else
      var kept := KeepApart(ss, l, r);
      [Range(l, r)] + kept[..Clamp(MAX_SACK - 1, |kept|)]
  }

  /** The part of a range above p. */
  function Cut(e: Range, p: int): Range { Range(if e.left < p then p else e.left, e.right) }

  /** tcp_remove_sacks_lt */
  function RemoveLt(ss: seq<Range>, p: int): (t: seq<Range>)
    ensures |t| <= |ss|
  {
    if ss == [] then []
    else if ss[0].right > p then [Cut(ss[0], p)] + RemoveLt(ss[1..], p)
    else RemoveLt(ss[1..], p)
  }

  /** The ends of the contiguous run of queued bytes around segment k. */
  function RunLeft(q: seq<Seg>, k: nat): int
    requires k < |q|
  {
    if k > 0 && q[k - 1].End() == q[k].pos then RunLeft(q, k - 1) else q[k].pos
  }

  function RunRight(q: seq<Seg>, k: nat): int
    requires k < |q|
    decreases |q| - k
  {
    if k + 1 < |q| && q[k + 1].pos == q[k].End() then RunRight(q, k + 1) else q[k].End()
  }

  /** The block reported after a segment at p met the queue q, which is now q1. */
  function SackAfter(ss: seq<Range>, q: seq<Seg>, q1: seq<Seg>, p: int): seq<Range>
    requires q != []
  {
    var k := Below(q, p);
    if k >= |q1| then ss
    else if k == 0 then AddSack(ss, if p < q[0].pos then p else q[0].pos, RunRight(q1, 0))
    else AddSack(ss, RunLeft(q1, k), RunRight(q1, k))
  }

  // ----- window --------------------------------------------------------------

  function Min(a: int, b: int): int { if a <= b then a else b }

  /** tcp_update_rcv_ann_wnd */
  function AnnWnd(nxt: int, wnd: int, annEdge: int, mss: nat): int
  {
    if nxt + wnd >= annEdge + Min(TCP_WND / 2, mss) then wnd
    else if nxt > annEdge then 0
    else annEdge - nxt
  }

  // ----- one call ------------------------------------------------------------

  /** In-sequence data: clip to the window, merge with the queue, deliver. */
  function Accept(r: Rcv, s: Seg, sackOn: bool, mss: nat): Outcome
  {
    var (s1, q1) := Merge(ClipTo(s, r.nxt + r.wnd), r.q);
    var d := Drain(Drained(s1.Top(), s1.data, s1.fin, q1));
    if d.nxt > r.nxt + r.wnd then Asserted
    else
      var wnd := r.nxt + r.wnd - d.nxt;
      Stepped(Rcv(
        d.nxt,
        if d.fin && wnd != TCP_WND then wnd + 1 else wnd,
        AnnWnd(d.nxt, wnd, r.annEdge, mss),
        r.annEdge,
        d.rest,
        if !sackOn then r.sacks else if d.rest != [] then RemoveLt(r.sacks, d.rest[0].pos) else [],
        r.got + d.bytes,
        d.fin))
  }

  /** Data above the next expected position: queue it and report a SACK block. */
  function Enqueue(r: Rcv, s: Seg, copyOk: bool, sackOn: bool): Rcv
  {
    if r.q == [] then
      r.(q := if copyOk then [s] else [],
         sacks := if !sackOn then r.sacks else if s.data == [] then [] else [Range(s.pos, s.End())])
    else
      var q1 := if copyOk then Place(r.q, s, r.nxt + r.wnd) else r.q;
      r.(q := q1, sacks := if sackOn then SackAfter(r.sacks, r.q, q1, s.pos) else r.sacks)
  }

  /** The data half of tcp_receive, with the FIN correction of tcp_input. */
  function Arrive(r: Rcv, seg: Seg, copyOk: bool, sackOn: bool, mss: nat): Outcome
  {
    if seg.Span() == 0 || r.closed then Stepped(r)
    else
      var s := TrimHead(seg, r.nxt);
      if !(r.nxt <= s.pos < r.nxt + r.wnd) then Stepped(r)
      else if s.pos == r.nxt then Accept(r, s, sackOn, mss)
      else Stepped(Enqueue(r, s, copyOk, sackOn))
  }

  /** tcp_recved: the application has consumed n bytes. */
  function Recved(r: Rcv, n: nat, mss: nat): Rcv
  {
    var wnd := Min(r.wnd + n, TCP_WND);
    r.(wnd := wnd, annWnd := AnnWnd(r.nxt, wnd, r.annEdge, mss))
  }

  /** Any outgoing segment announces the window. */
  function AckSent(r: Rcv): Rcv
  {
    r.(annEdge := r.nxt + r.annWnd)
  }
}
