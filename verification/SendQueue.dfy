/** The send side of an established TCP connection on unbounded sequence
    positions: the queues unsent and unacked and every operation that changes them
    (src/lwip/src/core/tcp_out.c, and the ACK part of tcp_in.c). */
module SendQueue {
  import opened Seq32

  const TCP_MSS: int := 1460
  const TCP_SND_BUF: int := 8 * TCP_MSS
  const TCP_SND_QUEUELEN: int := (4 * TCP_SND_BUF + (TCP_MSS - 1)) / TCP_MSS
  const TCP_SNDQUEUELEN_OVERFLOW: int := 0xffff - 3

  function Min(a: int, b: int): int { if a <= b then a else b }
  function Max(a: int, b: int): int { if a >= b then a else b }

  /** A queued segment. pieces are the payload lengths of its pbufs, room is the
      allocated but unused space behind the last one, rom tells that the last one
      references the application's memory. */
  datatype Seg = Seg(pos: int, data: seq<byte>, fin: bool, pieces: seq<nat>, room: nat, rom: bool) {
    /** TCP_TCPLEN */
    function Len(): nat { |data| + if fin then 1 else 0 }
    function Top(): int { pos + |data| }
    function End(): int { pos + Len() }
  }

  /** The sender's part of struct tcp_pcb. open: the state allows tcp_write; it is
      left when the FIN is queued, so !open also stands for TF_FIN. */
  datatype Snd = Snd(
    unacked: seq<Seg>, unsent: seq<Seg>,
    lastack: int, nxt: int, lbb: int,
    buf: int, queuelen: int, oversize: nat,
    open: bool, memerr: bool, mss: int, wndmax: nat)
  {
    function All(): seq<Seg> { unacked + unsent }
  }

  /** Asserted: an LWIP_ASSERT fails. FreedTwice: a pbuf is freed that is free already. */
  datatype Err = OK | MEM | CONN | VAL | Asserted | FreedTwice

  // ----- tcp_write ---------------------------------------------------------------------

  /** The arguments of tcp_write, TF_NODELAY, whether the data follows the last
      referenced data in memory, and how many allocations will succeed. */
  datatype Args = Args(data: seq<byte>, copy: bool, more: bool, nodelay: bool, adjacent: bool, mem: nat)

  /** The largest segment to build: half the largest window ever announced. */
  function MssLocal(s: Snd): int
  {
    var m := Min(s.mss, Min(0xffff, s.wndmax / 2));
    if m == 0 then s.mss else m
  }

  /** tcp_pbuf_prealloc: the space behind len bytes in the pbuf it allocates. */
  function Spare(len: int, max: int, a: Args, first: bool, busy: bool): int
  {
    if len < max && (a.more || (!a.nodelay && (!first || busy)))
    then Min(max, (len + TCP_MSS + 3) / 4 * 4) - len
    else 0
  }

  /** Phases 1 and 2: what goes into the last unsent segment. used bytes fill its spare
      space, cat bytes extend its last pbuf or go into a new one. */
  datatype Plan = Plan(used: nat, cat: nat, extend: bool, oversize: int, mem: nat) {
    function Bytes(): nat { used + cat }
    function NewBufs(): nat { if cat > 0 && !extend then 1 else 0 }
  }

  datatype Option<T> = None | Some(value: T)

  function PlanTail(s: Snd, a: Args): (r: Option<Plan>)
    ensures r.Some? ==> r.value.Bytes() <= |a.data|
  {
    if s.unsent == [] then Some(Plan(0, 0, false, 0, a.mem))
    else
      var last := s.unsent[|s.unsent| - 1];
      var space := MssLocal(s) - |last.data|;
      var used := if s.oversize > 0 && space > 0 then Min(space, Min(s.oversize, |a.data|)) else 0;
      var cat := if last.data != [] && space - used > 0 then Min(space - used, |a.data| - used) else 0;
      PlanCat(s, a, last, used, cat, space - used)
  }

  function PlanCat(s: Snd, a: Args, last: Seg, used: nat, cat: nat, space: int): (r: Option<Plan>)
    ensures r.Some? ==> r.value.used == used && r.value.cat == cat
  {
    if cat == 0 then Some(Plan(used, 0, false, s.oversize - used, a.mem))
    else if !a.copy && last.rom && a.adjacent then Some(Plan(used, cat, true, s.oversize - used, a.mem))
    else if a.mem == 0 then None
    else Some(Plan(used, cat, false, if a.copy then Spare(cat, space, a, true, true) else s.oversize - used, a.mem - 1))
  }

  /** Committing phases 1 and 2. */
  function GrowLast(q: Seg, a: Args, p: Plan): Seg
    requires q.pieces != [] && p.Bytes() <= |a.data|
  {
    var n := |q.pieces| - 1;
    var inLast := if p.extend then p.Bytes() else p.used;
    q.(data := q.data + a.data[..p.Bytes()],
       pieces := q.pieces[..n] + [q.pieces[n] + inLast] + (if p.NewBufs() == 1 then [p.cat] else []),
       room := if p.NewBufs() == 1 then (if a.copy then Max(p.oversize, 0) else 0) else Max(q.room - p.used, 0),
       rom := if p.NewBufs() == 1 then !a.copy else q.rom)
  }

  /** Phase 3: new segments for the data from off on. */
  datatype Built = Built(queue: seq<Seg>, queuelen: int, oversize: int)

  function NewSeg(s: Snd, a: Args, m: int, off: nat, first: bool): Seg
    requires off < |a.data| && m > 0
  {
    var len := Min(|a.data| - off, m);
    var room := if a.copy then Spare(len, m, a, first, s.unsent != [] || s.unacked != []) else 0;
    Seg(s.lbb + off, a.data[off..off + len], false, if a.copy then [len] else [0, len], Max(room, 0), !a.copy)
  }

  function Build(s: Snd, a: Args, m: int, off: nat, b: Built, mem: nat): Option<Built>
    requires off <= |a.data| && m > 0
    decreases |a.data| - off
  {
    if off == |a.data| then Some(b)
    else
      var q := NewSeg(s, a, m, off, b.queue == []);
      var queuelen := b.queuelen + |q.pieces|;
      if mem <= |q.pieces| || queuelen > Min(TCP_SND_QUEUELEN, TCP_SNDQUEUELEN_OVERFLOW) then None
      else Build(s, a, m, off + |q.data|, Built(b.queue + [q], queuelen, if a.copy then q.room else b.oversize),
        mem - |q.pieces| - 1)
  }

  /** tcp_write_checks */
  function WriteChecks(s: Snd, len: nat): Err
  {
    if !s.open then CONN
    else if len == 0 then OK
    else if len > s.buf || s.queuelen >= Min(TCP_SND_QUEUELEN, TCP_SNDQUEUELEN_OVERFLOW + 1) then MEM
    else OK
  }

  /** The assertions on the last unsent segment: it and its spare space fit a segment. */
  predicate TailFits(s: Snd)
  {
    s.unsent != [] ==>
      var space := MssLocal(s) - |s.unsent[|s.unsent| - 1].data|;
      space >= 0 && s.oversize <= space
  }

  /** The other assertion there: a referenced buffer that is extended has no spare space. */
  predicate RomFits(s: Snd, a: Args)
  {
    PlanTail(s, a).Some? && PlanTail(s, a).value.extend ==> PlanTail(s, a).value.used == 0
  }

  predicate Sane(s: Snd)
  {
    s.mss > 0 && (s.unsent == [] || s.unsent[|s.unsent| - 1].pieces != [])
  }

  /** The segments made of the data that does not go into the last unsent segment. */
  function BuildRest(s: Snd, a: Args, p: Plan): Option<Built>
    requires Sane(s) && p.Bytes() <= |a.data|
  {
    Build(s, a, MssLocal(s), p.Bytes(), Built([], s.queuelen + p.NewBufs(), p.oversize), p.mem)
  }

  /** unsent with its last segment grown. */
  function Grown(s: Snd, a: Args, p: Plan): seq<Seg>
    requires Sane(s) && p.Bytes() <= |a.data|
  {
    var n := |s.unsent| - 1;
    if s.unsent == [] then [] else s.unsent[..n] + [GrowLast(s.unsent[n], a, p)]
  }

  function Commit(s: Snd, a: Args, p: Plan, b: Built): Snd
    requires Sane(s) && p.Bytes() <= |a.data|
  {
    s.(unsent := Grown(s, a, p) + b.queue, oversize := Max(b.oversize, 0), lbb := s.lbb + |a.data|,
      buf := s.buf - |a.data|,
       queuelen := b.queuelen)
  }

  function Write(s: Snd, a: Args): (r: (Err, Snd))
    requires Sane(s)
  {
    var c := WriteChecks(s, |a.data|);
    if c == CONN then (CONN, s)
    else if c == MEM then (MEM, s.(memerr := true))
    else if !TailFits(s) || !RomFits(s, a) then (Asserted, s)
    else
      match PlanTail(s, a)
      case None => (MEM, s.(memerr := true))
      case Some(p) =>
        match BuildRest(s, a, p)
        case None => (MEM, s.(memerr := true))
        case Some(b) => (OK, Commit(s, a, p, b))
  }

  // ----- tcp_send_fin and tcp_enqueue_flags -----------------------------------------------

  function EnqueueFin(s: Snd, mem: nat): (Err, Snd)
  {
    if mem < 2 then (MEM, s.(memerr := true))
    else (OK, s.(unsent := s.unsent + [Seg(s.lbb, [], true, [0], 0, false)], oversize := 0, lbb := s.lbb + 1,
                 queuelen := s.queuelen + 1, open := false))
  }

  function SendFin(s: Snd, mem: nat): (Err, Snd)
  {
    var n := |s.unsent| - 1;
    if s.unsent != [] && !s.unsent[n].fin
    then (OK, s.(unsent := s.unsent[n := s.unsent[n].(fin := true)], open := false))
    else EnqueueFin(s, mem)
  }

  // ----- tcp_split_unsent_seg -----------------------------------------------------------------

  /** pbuf_realloc: the pbufs that remain when the payload is cut to n bytes. */
  function Trim(pieces: seq<nat>, n: nat): seq<nat>
  {
    if pieces == [] then []
    else if n <= pieces[0] then [n]
    else [pieces[0]] + Trim(pieces[1..], n - pieces[0])
  }

  /** The head is really split, if there is memory. */
  predicate Splits(s: Snd, split: nat)
  {
    s.unsent != [] && 0 < split < |s.unsent[0].data| && split <= s.mss
  }

  /** With memory for the pbuf but not for the segment, tcp_create_segment has freed the
      pbuf when the error exit frees it again. */
  function Split(s: Snd, split: nat, mem: nat): (Err, Snd)
  {
    if s.unsent == [] then (MEM, s)
    else if split == 0 then (VAL, s)
    else
      var q := s.unsent[0];
      if |q.data| <= split then (OK, s)
      else if split > s.mss then (Asserted, s)
      else if mem == 0 then (MEM, s)
      else if mem == 1 then (FreedTwice, s)
      else
        // The flags are written back with an OR, so the FIN stays on the head too.
        var head := q.(data := q.data[..split], pieces := Trim(q.pieces, split), room := 0);
        var rest := Seg(q.pos + split, q.data[split..], q.fin, [|q.data| - split], 0, false);
        (OK, s.(unsent := [head, rest] + s.unsent[1..],
                queuelen := s.queuelen - |q.pieces| + |head.pieces| + 1,
                oversize := if |s.unsent| == 1 then 0 else s.oversize))
  }

  // ----- tcp_output -----------------------------------------------------------------------------

  predicate InWindow(s: Snd, wnd: nat)
    requires s.unsent != []
  {
    s.lastack <= s.unsent[0].Top() <= s.lastack + wnd
  }

  /** tcp_do_output_nagle, TF_NAGLEMEMERR and TF_FIN; fast: TF_NODELAY or TF_INFR. */
  predicate MaySend(s: Snd, fast: bool)
    requires s.unsent != []
  {
    || s.unacked == [] || fast || |s.unsent| > 1 || |s.unsent[0].data| >= s.mss
    || s.buf == 0 || s.queuelen >= TCP_SND_QUEUELEN
    || s.memerr || !s.open
  }

  /** The first index whose segment does not start below pos. */
  function PlaceOf(q: seq<Seg>, pos: int): (k: nat)
    ensures k <= |q|
    ensures forall i :: 0 <= i < k ==> q[i].pos < pos
    ensures k < |q| ==> q[k].pos >= pos
  {
    if q == [] || q[0].pos >= pos then 0 else 1 + PlaceOf(q[1..], pos)
  }

  function PutBefore(q: seq<Seg>, h: Seg): seq<Seg>
  {
    var k := PlaceOf(q, h.pos);
    q[..k] + [h] + q[k..]
  }

  /** Where a segment goes that has just been sent. */
  function PutUnacked(q: seq<Seg>, h: Seg): seq<Seg>
  {
    if q == [] || h.pos >= q[|q| - 1].pos then q + [h] else PutBefore(q, h)
  }

  function SendHead(s: Snd): Snd
    requires s.unsent != []
  {
    var h := s.unsent[0];
    s.(unsent := s.unsent[1..], nxt := Max(s.nxt, h.End()), unacked := PutUnacked(s.unacked, h))
  }

  /** The sending loop; the driver accepts n segments and then fails. */
  function SendLoop(s: Snd, wnd: nat, fast: bool, n: nat): (Err, Snd)
    decreases |s.unsent|
  {
    if s.unsent == [] || !InWindow(s, wnd) || !MaySend(s, fast)
    then (OK, s.(memerr := false, oversize := if s.unsent == [] then 0 else s.oversize))
    else if n == 0 then (MEM, s.(memerr := true))
    else SendLoop(SendHead(s), wnd, fast, n - 1)
  }

  function Output(s: Snd, wnd: nat, fast: bool, ackNow: bool, n: nat): (Err, Snd)
  {
    if (s.unsent == [] || !InWindow(s, wnd)) && ackNow then (OK, s)
    else if s.unsent == [] || !InWindow(s, wnd) then (OK, s.(memerr := false))
    else SendLoop(s, wnd, fast, n)
  }

  /** tcp_zero_window_probe: the byte it sends may be acknowledged. */
  function Probe(s: Snd, mem: nat): Snd
  {
    if s.unsent == [] || mem == 0 then s else s.(nxt := Max(s.nxt, s.unsent[0].pos + 1))
  }

  // ----- retransmission ---------------------------------------------------------------------------

  /** tcp_rexmit_rto_prepare; busy: the driver still holds some unacknowledged segment. */
  function RtoPrepare(s: Snd, busy: bool): Snd
  {
    if s.unacked == [] || busy then s else s.(unsent := s.unacked + s.unsent, unacked := [])
  }

  /** tcp_rexmit; busy: the driver still holds the first unacknowledged segment. */
  function Rexmit(s: Snd, busy: bool): Snd
  {
    if s.unacked == [] || busy then s
    else
      var h := s.unacked[0];
      s.(unacked := s.unacked[1..], unsent := PutBefore(s.unsent, h),
         oversize := if PlaceOf(s.unsent, h.pos) == |s.unsent| then 0 else s.oversize)
  }

  // ----- acknowledgement ----------------------------------------------------------------------------

  /** tcp_free_acked_segments: how many segments at the front are acknowledged. */
  function Acked(q: seq<Seg>, ack: int): (k: nat)
    ensures k <= |q|
    ensures forall i :: 0 <= i < k ==> q[i].End() <= ack
    ensures k < |q| ==> q[k].End() > ack
  {
    if q == [] || q[0].End() > ack then 0 else 1 + Acked(q[1..], ack)
  }

  function Bytes(q: seq<Seg>): (n: nat)
  {
    if q == [] then 0 else |q[0].data| + Bytes(q[1..])
  }

  /** The pbufs of a queue. */
  function Bufs(q: seq<Seg>): (n: nat)
  {
    if q == [] then 0 else |q[0].pieces| + Bufs(q[1..])
  }

  /** What an ACK frees: a prefix of each queue. */
  function Freed(s: Snd, ack: int): seq<Seg>
  {
    s.unacked[..Acked(s.unacked, ack)] + s.unsent[..Acked(s.unsent, ack)]
  }

  /** An ACK d bytes above lastack, and the number of bytes it reports as sent. */
  function Ack(s: Snd, d: int): (Snd, nat)
  {
    var ack := s.lastack + d;
    if d <= 0 || ack > s.nxt then (s, 0)
    else
      var unsent := s.unsent[Acked(s.unsent, ack)..];
      var freed := Freed(s, ack);
      (s.(lastack := ack, unacked := s.unacked[Acked(s.unacked, ack)..], unsent := unsent,
          oversize := if unsent == [] then 0 else s.oversize,
          queuelen := s.queuelen - Bufs(freed), buf := s.buf + Bytes(freed)),
       Bytes(freed))
  }

  /** A window announcement. */
  function Window(s: Snd, wnd: nat): Snd
  {
    s.(wndmax := Max(s.wndmax, wnd))
  }
}
