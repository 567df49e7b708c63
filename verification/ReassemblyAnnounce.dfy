/** The announced window over whole runs: it is never held back by a threshold or more,
    its right edge is not moved in small steps, and the space for bytes that the
    application has read comes back (tcp_update_rcv_ann_wnd and tcp_recved in
    src/lwip/src/core/tcp.c). */
module ReassemblyAnnounce {
  import opened Seq32
  import opened Reassembly
  import opened ReassemblyQueue
  import opened ReassemblyRuns
  import opened ReassemblyStream

  /** The least step of the right edge: half the window, or one segment if that is less. */
  function Threshold(mss: nat): nat { Min(TCP_WND / 2, mss) }

  function Slack(mss: nat): nat { if Threshold(mss) == 0 then 1 else Threshold(mss) }

  /** Less than a threshold of the window is hidden from the peer; a FIN leaves its own
      number hidden as well. */
  predicate Offered(r: Rcv, mss: nat)
  {
    r.wnd - r.annWnd < Slack(mss) + (if r.closed then 1 else 0)
  }

  /** The next announcement leaves the right edge or moves it by a threshold at least,
      unless data beyond the edge has arrived. */
  predicate EdgeSteps(r: Rcv, mss: nat)
  {
    || r.nxt + r.annWnd == r.annEdge
    || r.nxt + r.annWnd >= r.annEdge + Threshold(mss)
    || (r.annEdge < r.nxt && r.annWnd == 0)
  }

  lemma StepAnnounces(r: Rcv, e: Event, c: Conf)
    requires Offered(r, c.mss) && EdgeSteps(r, c.mss)
    ensures var o := Step(r, e, c); o.Stepped? ==> Offered(o.r, c.mss) && EdgeSteps(o.r, c.mss)
  {
    hide Merge, Drain, Place, SackAfter, RemoveLt, TrimHead;
    match e
    case Arrival(seg, copyOk) =>
    case Read(n) =>
    case Announce =>
  }

  /** Over every run, of any segments whatsoever. */
  lemma {:induction false} RunAnnounces(r: Rcv, es: seq<Event>, c: Conf)
    requires Offered(r, c.mss) && EdgeSteps(r, c.mss)
    ensures var o := Run(r, es, c); o.Stepped? ==> Offered(o.r, c.mss) && EdgeSteps(o.r, c.mss)
    decreases |es|
  {
    if es != [] {
      StepAnnounces(r, es[0], c);
      var o := Step(r, es[0], c);
      if o.Stepped? {
        RunAnnounces(o.r, es[1..], c);
      }
    }
  }

  /** After any run from a fresh connection: what an announcement does to the right edge,
      and the window it leaves unannounced. */
  lemma AnnounceMoves(org: int, es: seq<Event>, c: Conf)
    ensures var o := Run(Rcv(org, TCP_WND, TCP_WND, org, [], [], [], false), es, c);
            o.Stepped? ==>
              var r, r' := o.r, AckSent(o.r);
              && (r'.annEdge == r.annEdge || r'.annEdge >= r.annEdge + Threshold(c.mss)
                  <==> !(r.annEdge < r.nxt < r.annEdge + Threshold(c.mss) && r.annWnd == 0))
              && (!r.closed ==> r.nxt + r.wnd - r'.annEdge < Slack(c.mss))
  {
    RunAnnounces(Rcv(org, TCP_WND, TCP_WND, org, [], [], [], false), es, c);
  }

  // ----- peers that respect the announced edge --------------------------------------

  /** No arrival of the run passes the right edge announced last. */
  ghost predicate Courteous(r: Rcv, es: seq<Event>, c: Conf)
    decreases |es|
  {
    es != [] ==>
      && (es[0].Arrival? ==> es[0].seg.Top() <= r.annEdge)
      && (Step(r, es[0], c).Stepped? ==> Courteous(Step(r, es[0], c).r, es[1..], c))
  }

  ghost predicate Within(r: Rcv)
  {
    r.nxt <= r.annEdge && forall x :: x in r.q ==> x.Top() <= r.annEdge
  }

  /** The same queue seen with the announced window in place of the real one. */
  function Announced(r: Rcv): Rcv
  {
    r.(wnd := r.annEdge - r.nxt, annWnd := r.annEdge - r.nxt, sacks := [])
  }

  lemma AnnouncedSound(r: Rcv, st: Stream)
    requires Inv(r) && Sound(r, st) && Within(r)
    ensures Inv(Announced(r)) && Sound(Announced(r), st)
  {
    forall x | x in r.q ensures x.pos < r.annEdge {
      var i :| 0 <= i < |r.q| && r.q[i] == x;
    }
  }

  lemma AcceptWithin(r: Rcv, s: Seg, c: Conf, st: Stream)
    requires Inv(r) && Sound(r, st) && Within(r) && !r.closed
    requires s.pos == r.nxt && s.Span() > 0 && CutFrom(s, st) && s.Top() <= r.annEdge
    ensures var o := Accept(r, s, c.sackOn, c.mss); o.Stepped? ==> Within(o.r)
  {
    var a := Announced(r);
    AnnouncedSound(r, st);
    AcceptDelivers(a, s, c, st);
    assert ClipTo(s, r.nxt + r.wnd) == s == ClipTo(s, a.nxt + a.wnd);
  }

  lemma EnqueueWithin(r: Rcv, s: Seg, copyOk: bool, c: Conf, st: Stream)
    requires Inv(r) && Sound(r, st) && Within(r)
    requires r.nxt < s.pos < r.nxt + r.wnd && s.Span() > 0 && CutFrom(s, st) && s.Top() <= r.annEdge
    ensures Within(Enqueue(r, s, copyOk, c.sackOn))
  {
    var edge := r.nxt + r.wnd;
    if r.q != [] && copyOk {
      forall x | x in Place(r.q, s, edge) ensures x.Top() <= r.annEdge {
        PlaceKept(r.q, s, edge, x);
        KeptCut(x, r.q, s, st, r.annEdge);
      }
    }
  }

  lemma StepWithin(r: Rcv, e: Event, c: Conf, st: Stream)
    requires Inv(r) && Sound(r, st) && Within(r) && Honest(r, e, st)
    requires e.Arrival? ==> e.seg.Top() <= r.annEdge
    ensures var o := Step(r, e, c); o.Stepped? ==> Within(o.r)
  {
    hide Accept, Enqueue, CutFrom, Queued, SacksBounded;
    if e.Arrival? && e.seg.Span() > 0 && !r.closed {
      var s := TrimHead(e.seg, r.nxt);
      TrimHeadCut(e.seg, r.nxt, st);
      if r.nxt <= s.pos < r.nxt + r.wnd {
        if s.pos == r.nxt {
          AcceptWithin(r, s, c, st);
        } else {
          EnqueueWithin(r, s, e.copyOk, c, st);
        }
      }
    }
  }

  /** With an honest peer that respects the announced window, every announcement of every
      run leaves the right edge where it is or moves it by a threshold at least. */
  lemma {:induction false} CourteousSteps(r: Rcv, es: seq<Event>, c: Conf, st: Stream)
    requires Inv(r) && Sound(r, st) && HonestRun(r, es, c, st)
    requires !c.sackOn ==> r.sacks == []
    requires Offered(r, c.mss) && EdgeSteps(r, c.mss) && Within(r) && Courteous(r, es, c)
    ensures var o := Run(r, es, c);
            && o.Stepped?
            && (AckSent(o.r).annEdge == o.r.annEdge || AckSent(o.r).annEdge >= o.r.annEdge + Threshold(c.mss))
    decreases |es|
  {
    if es != [] {
      StepSound(r, es[0], c, st);
      StepKeeps(r, es[0], c);
      StepAnnounces(r, es[0], c);
      StepWithin(r, es[0], c, st);
      CourteousSteps(Step(r, es[0], c).r, es[1..], c, st);
    }
  }

  /** A run, for every 100 and 5840 bytes, in which a peer passes the announced edge and
      the next announcement moves it by 100 bytes, with segments of 1460. */
  lemma SmallStepReached(a: seq<byte>, b: seq<byte>)
    requires |a| == 100 && |b| == TCP_WND
    ensures var r0, c := Rcv(1, TCP_WND, TCP_WND, 1, [], [], [], false), Conf(true, 1460);
            var es := [Announce, Arrival(Seg(1, a, false), true), Read(100), Arrival(Seg(101, b, false), true)];
            var o := Run(r0, es, c);
            o.Stepped? && AckSent(o.r).annEdge == o.r.annEdge + 100
  {
    var r0, c := Rcv(1, TCP_WND, TCP_WND, 1, [], [], [], false), Conf(true, 1460);
    var x, y := Seg(1, a, false), Seg(101, b, false);
    var es := [Announce, Arrival(x, true), Read(100), Arrival(y, true)];
    var r1 := AckSent(r0);
    assert Step(r0, es[0], c) == Stepped(r1) && es[1..] == [es[1], es[2], es[3]];
    assert ClipTo(x, r1.nxt + r1.wnd) == x && Merge(x, []) == (x, []);
    var r2 := Rcv(101, TCP_WND - 100, TCP_WND - 100, TCP_WND + 1, [], [], [] + a, false);
    assert [] + a == a;
    assert Step(r1, es[1], c) == Stepped(r2) && es[1..][1..] == [es[2], es[3]];
    var r3 := r2.(wnd := TCP_WND);
    assert Step(r2, es[2], c) == Stepped(r3) && [es[2], es[3]][1..] == [es[3]];
    assert ClipTo(y, r3.nxt + r3.wnd) == y && Merge(y, []) == (y, []);
    var r4 := Rcv(TCP_WND + 101, 0, 0, TCP_WND + 1, [], [], a + b, false);
    assert Step(r3, es[3], c) == Stepped(r4) && [es[3]][1..] == [];
    assert Run(r3, [es[3]], c) == Stepped(r4);
    assert Run(r2, [es[2], es[3]], c) == Stepped(r4);
    assert Run(r1, [es[1], es[2], es[3]], c) == Stepped(r4);
  }

  // ----- space that comes back -------------------------------------------------------

  /** The bytes that the application has read after a run. */
  function HasRead(es: seq<Event>): nat
  {
    if es == [] then 0 else (if es[0].Read? then es[0].n else 0) + HasRead(es[1..])
  }

  /** The application never reads more than it was given and has not read yet. */
  ghost predicate ReadsFit(r: Rcv, unread: int, es: seq<Event>, c: Conf)
    decreases |es|
  {
    es != [] ==>
      var o := Step(r, es[0], c);
      && (es[0].Read? ==> es[0].n <= unread)
      && (o.Stepped? ==> ReadsFit(o.r, unread + |o.r.got| - |r.got| - HasRead([es[0]]), es[1..], c))
  }

  lemma {:induction false} DrainSpan(d: Drained)
    requires Ordered(d.rest) && (d.fin ==> d.rest == [])
    ensures var f := Drain(d);
            f.nxt - d.nxt == |f.bytes| - |d.bytes| + (if f.fin && !d.fin then 1 else 0) && (d.fin ==> f.fin)
    decreases |d.rest|
  {
    if d.rest != [] && d.rest[0].pos == d.nxt {
      var x := d.rest[0];
      OrderedSlice(d.rest, 1, |d.rest|);
      assert |d.rest| > 1 ==> Apart(x, d.rest[1]);
      DrainSpan(Drained(x.Top(), d.bytes + x.data, d.fin || x.fin, d.rest[1..]));
    }
  }

  lemma AcceptConserves(r: Rcv, s: Seg, c: Conf)
    requires Inv(r) && s.pos == r.nxt && s.Span() > 0 && r.wnd > 0
    ensures var o := Accept(r, s, c.sackOn, c.mss);
            o.Stepped? ==> o.r.wnd + |o.r.got| == r.wnd + |r.got|
  {
    var s0 := ClipTo(s, r.nxt + r.wnd);
    MergeBounds(r, s0);
    var m := Merge(s0, r.q);
    DrainSpan(Drained(m.0.Top(), m.0.data, m.0.fin, m.1));
    DrainFacts(Drained(m.0.Top(), m.0.data, m.0.fin, m.1));
  }

  lemma StepConserves(r: Rcv, e: Event, c: Conf)
    requires Inv(r) && r.wnd + (if e.Read? then e.n else 0) <= TCP_WND
    ensures var o := Step(r, e, c);
            o.Stepped? ==> o.r.wnd + |o.r.got| == r.wnd + |r.got| + (if e.Read? then e.n else 0)
  {
    hide Accept, Place, SackAfter, Queued, SacksBounded;
    if e.Arrival? {
      var s := TrimHead(e.seg, r.nxt);
      if e.seg.Span() > 0 && !r.closed && s.pos == r.nxt && r.wnd > 0 {
        AcceptConserves(r, s, c);
      }
    }
  }

  /** Over every run the window and the unread bytes make up the whole buffer: delivery
      takes from the window just what it passes up, and a read gives back all of it. */
  lemma {:induction false} RunConservesWindow(r: Rcv, unread: int, es: seq<Event>, c: Conf)
    requires Inv(r) && (!c.sackOn ==> r.sacks == []) && r.wnd + unread == TCP_WND
    requires (forall e :: e in es ==> Sized(e)) && ReadsFit(r, unread, es, c)
    ensures var o := Run(r, es, c);
            o.Stepped? ==> o.r.wnd + unread + (|o.r.got| - |r.got|) - HasRead(es) == TCP_WND
    decreases |es|
  {
    if es != [] {
      StepKeeps(r, es[0], c);
      StepConserves(r, es[0], c);
      assert HasRead([es[0]]) == if es[0].Read? then es[0].n else 0;
      var o := Step(r, es[0], c);
      if o.Stepped? {
        RunConservesWindow(o.r, unread + |o.r.got| - |r.got| - HasRead([es[0]]), es[1..], c);
      }
    }
  }

  /** An application that has read everything makes the whole window but less than one
      threshold available to the peer with the next announcement. */
  lemma ReadAllReopens(org: int, es: seq<Event>, c: Conf)
    requires forall e :: e in es ==> Sized(e)
    requires ReadsFit(Rcv(org, TCP_WND, TCP_WND, org, [], [], [], false), 0, es, c)
    ensures var o := Run(Rcv(org, TCP_WND, TCP_WND, org, [], [], [], false), es, c);
            o.Stepped? && !o.r.closed && |o.r.got| == HasRead(es) ==>
              AckSent(o.r).annEdge > o.r.nxt + TCP_WND - Slack(c.mss)
  {
    var r0 := Rcv(org, TCP_WND, TCP_WND, org, [], [], [], false);
    AnnounceMoves(org, es, c);
    RunConservesWindow(r0, 0, es, c);
  }
}
