/** When lwIP refuses what the relay read from the proxy: the read is only armed when
    everything written before is acknowledged, so the queues of the connection are empty
    (src/n2t/socket.cpp, src/lwip/src/core/tcp_out.c). */
module RelayWrite {
  import opened Seq32
  import opened SendQueue
  import opened SendQueueInv
  import opened SendQueueWrite
  import RelaySteps

  /** async_send hands lwIP a copy, with no more to follow in this call. */
  function Packet(data: seq<byte>, nodelay: bool, mem: nat): Args { Args(data, true, false, nodelay, false, mem) }

  /** On an idle connection a packet of at most one read is refused if and only if it needs
      more than 32 segments, or more memory than there is. */
  lemma IdleWriteIff(s: Snd, o: int, w: seq<byte>, data: seq<byte>, nodelay: bool, mem: nat)
    requires Inv(s, o, w) && s.open && s.mss > 0 && s.unacked == [] && s.unsent == []
    requires 0 < |data| <= RelaySteps.RECV_BUF
    ensures Write(s, Packet(data, nodelay, mem)).0 == OK <==>
              |data| <= 32 * MssLocal(s) && 2 * Segments(|data|, MssLocal(s)) <= mem
  {
    var a, m := Packet(data, nodelay, mem), MssLocal(s);
    Idle(s, o, w);
    Limit(s);
    FewSegments(|data|, m);
    CopyEnough(Segments(|data|, m), a, mem);
    hide Inv, Write, Segments, MssLocal, EnoughFor;
    EmptyWrite(s, a);
  }

  /** With empty queues tcp_write needs memory and room for the new segments, no more. */
  lemma EmptyWrite(s: Snd, a: Args)
    requires s.open && s.mss > 0 && s.buf == TCP_SND_BUF && s.queuelen == 0 && s.unsent == []
    requires |a.data| <= RelaySteps.RECV_BUF && MssLocal(s) > 0
    ensures Write(s, a).0 == OK <==> EnoughFor(Segments(|a.data|, MssLocal(s)), a, 0, a.mem)
  {
    IdleChecks(s, |a.data|);
    NothingToGrow(s, a);
    WriteAllOrNothing(s, a);
    var p := Plan(0, 0, false, 0, a.mem + 1);
    assert Affordable(s, a, p) <==> EnoughFor(Segments(|a.data|, MssLocal(s)), a, 0, a.mem) by {
      hide Write, Segments, MssLocal, EnoughFor;
    }
    hide Write, PlanTail, TailFits, RomFits, Affordable, EnoughFor, Segments, MssLocal, WriteChecks;
  }

  lemma Limit(s: Snd)
    requires s.mss > 0
    ensures MssLocal(s) > 0
  {
  }

  lemma IdleChecks(s: Snd, n: nat)
    requires s.open && s.buf == TCP_SND_BUF && s.queuelen == 0 && n <= RelaySteps.RECV_BUF
    ensures WriteChecks(s, n) == OK
  {
    assert TCP_SND_QUEUELEN == 32;
  }

  lemma CopyEnough(k: nat, a: Args, mem: nat)
    requires a.copy
    ensures EnoughFor(k, a, 0, mem) <==> 2 * k <= mem && k <= 32
  {
    assert TCP_SND_QUEUELEN == 32;
  }

  lemma FewSegments(n: nat, m: int)
    requires m > 0
    ensures Segments(n, m) <= 32 <==> n <= 32 * m
  {
    SegmentsFewest(n, m);
    if n > 0 {
      AtMost(Segments(n, m), m, n);
    }
  }

  lemma Idle(s: Snd, o: int, w: seq<byte>)
    requires Inv(s, o, w) && s.unacked == [] && s.unsent == []
    ensures s.buf == TCP_SND_BUF && s.queuelen == 0 && TCP_SND_QUEUELEN == 32
  {
  }

  lemma NothingToGrow(s: Snd, a: Args)
    requires s.unsent == []
    ensures TailFits(s) && RomFits(s, a) && PlanTail(s, a.(mem := a.mem + 1)) == Some(Plan(0, 0, false, 0, a.mem + 1))
  {
  }

  lemma AtMost(k: nat, m: int, n: nat)
    requires m > 0 && (k - 1) * m < n <= k * m
    ensures k <= 32 <==> n <= 32 * m
  {
    if k <= 32 {
      assert k * m <= 32 * m;
    } else {
      assert 32 * m <= (k - 1) * m;
    }
  }

  /** So segments of 256 bytes and memory for 32 of them always suffice. */
  lemma LargeEnough(s: Snd, o: int, w: seq<byte>, data: seq<byte>, nodelay: bool, mem: nat)
    requires Inv(s, o, w) && s.open && s.mss > 0 && s.unacked == [] && s.unsent == []
    requires 0 < |data| <= RelaySteps.RECV_BUF && MssLocal(s) >= 256 && mem >= 64
    ensures Write(s, Packet(data, nodelay, mem)).0 == OK
  {
    IdleWriteIff(s, o, w, data, nodelay, mem);
    var m := MssLocal(s);
    FewSegments(|data|, m);
    hide Inv, Write, Segments, MssLocal;
  }

  /** A peer with a window below 512 bytes makes the relay's write of a full read fail, and
      so stalls it, however much memory there is. */
  lemma SmallWindowRefuses(o: int, mss: int, wndmax: nat, data: seq<byte>, nodelay: bool, mem: nat)
    requires 0 < mss <= TCP_MSS && 2 <= wndmax < 512 && |data| == RelaySteps.RECV_BUF
    ensures Write(Initial(o, mss, wndmax), Packet(data, nodelay, mem)).0 != OK
  {
    InitialInv(o, mss, wndmax);
    IdleWriteIff(Initial(o, mss, wndmax), o, [], data, nodelay, mem);
    hide Write, Segments;
  }
}
