/** The list of pending timeouts on an unbounded clock: insertion, expiry, and what one
    call of sys_check_timeouts does (src/lwip/src/core/timeouts.c). */
module TimerQueue {
  import opened Seq32

  /** What a timeout runs: a handler that runs once, lwip_cyclic_timer for one of the
      stack's timers, or tcpip_tcp_timer, which restarts itself while it is needed. */
  datatype Handler = OneShot(id: nat) | Cyclic(id: nat, interval: nat) | TcpTimer(interval: nat)

  /** A pending timeout. ticket tells in which order timeouts were added. */
  datatype Timer = Timer(time: int, h: Handler, ticket: nat)

  /** The list and the number of timeouts added so far. */
  datatype Queue = Queue(list: seq<Timer>, tickets: nat)

  /** a is due before b; equal times go first come, first served. */
  predicate Ahead(a: Timer, b: Timer)
  {
    a.time < b.time || (a.time == b.time && a.ticket < b.ticket)
  }

  ghost predicate Sorted(q: seq<Timer>)
  {
    forall i, j {:trigger Ahead(q[i], q[j])} :: 0 <= i < j < |q| ==> Ahead(q[i], q[j])
  }

  ghost predicate Valid(q: Queue)
  {
    Sorted(q.list) && (forall t :: t in q.list ==> t.ticket < q.tickets && Proper(t.h))
  }

  predicate Proper(h: Handler)
  {
    !h.OneShot? ==> h.interval > 0
  }

  /** Where sys_timeout_abs puts a timeout: before the first that is due later. */
  function PlaceOf(q: seq<Timer>, time: int): (k: nat)
    ensures k <= |q|
    ensures forall i :: 0 <= i < k ==> q[i].time <= time
    ensures k < |q| ==> time < q[k].time
  {
    if q == [] || time < q[0].time then 0 else 1 + PlaceOf(q[1..], time)
  }

  function Insert(q: Queue, time: int, h: Handler): Queue
  {
    var k := PlaceOf(q.list, time);
    Queue(q.list[..k] + [Timer(time, h, q.tickets)] + q.list[k..], q.tickets + 1)
  }

  /** The list stays in the order of due times, ties in the order of addition. */
  lemma InsertValid(q: Queue, time: int, h: Handler)
    requires Valid(q) && Proper(h)
    ensures Valid(Insert(q, time, h))
  {
    var k := PlaceOf(q.list, time);
    var t := Timer(time, h, q.tickets);
    var r := q.list[..k] + [t] + q.list[k..];
    assert forall i :: 0 <= i < k ==> r[i] == q.list[i];
    assert forall i :: k < i < |r| ==> r[i] == q.list[i - 1];
    forall i, j | 0 <= i < j < |r| ensures Ahead(r[i], r[j]) {
      if i == k {
        assert k < j - 1 ==> Ahead(q.list[k], q.list[j - 1]);
      } else if j == k {
        assert r[i] in q.list;
      } else {
        assert Ahead(q.list[if i < k then i else i - 1], q.list[if j < k then j else j - 1]);
      }
    }
    forall x | x in r ensures x == t || x in q.list {
      var i :| 0 <= i < |r| && r[i] == x;
    }
  }

  /** sys_untimeout: the first timeout with this handler goes. */
  function Find(q: seq<Timer>, h: Handler): (k: nat)
    ensures k <= |q|
    ensures forall i :: 0 <= i < k ==> q[i].h != h
    ensures k < |q| ==> q[k].h == h
  {
    if q == [] || q[0].h == h then 0 else 1 + Find(q[1..], h)
  }

  function Remove(q: Queue, h: Handler): Queue
  {
    var k := Find(q.list, h);
    if k < |q.list| then q.(list := q.list[..k] + q.list[k + 1..]) else q
  }

  lemma RemoveValid(q: Queue, h: Handler)
    requires Valid(q)
    ensures Valid(Remove(q, h))
  {
    var k := Find(q.list, h);
    if k < |q.list| {
      var r := q.list[..k] + q.list[k + 1..];
      assert forall i :: 0 <= i < |r| ==> r[i] == q.list[if i < k then i else i + 1];
      forall i, j | 0 <= i < j < |r| ensures Ahead(r[i], r[j]) {
        assert Ahead(q.list[if i < k then i else i + 1], q.list[if j < k then j else j + 1]);
      }
    }
  }

  /** sys_restart_timeouts: the first timeout becomes due now, the others as much later
      as before. */
  function Shifted(q: seq<Timer>, d: int): seq<Timer>
  {
    if q == [] then [] else [q[0].(time := q[0].time + d)] + Shifted(q[1..], d)
  }

  lemma {:induction false} ShiftedAt(q: seq<Timer>, d: int)
    ensures |Shifted(q, d)| == |q|
    ensures forall i :: 0 <= i < |q| ==> Shifted(q, d)[i] == q[i].(time := q[i].time + d)
  {
    if q != [] {
      ShiftedAt(q[1..], d);
    }
  }

  function Restart(q: Queue, now: int): Queue
  {
    if q.list == [] then q else q.(list := Shifted(q.list, now - q.list[0].time))
  }

  lemma RestartValid(q: Queue, now: int)
    requires Valid(q)
    ensures Valid(Restart(q, now))
  {
    if q.list != [] {
      var d := now - q.list[0].time;
      ShiftedAt(q.list, d);
      var r := Shifted(q.list, d);
      forall i, j | 0 <= i < j < |r| ensures Ahead(r[i], r[j]) {
        assert Ahead(q.list[i], q.list[j]);
      }
      forall x | x in r ensures x.ticket < q.tickets && Proper(x.h) {
        var i :| 0 <= i < |r| && r[i] == x;
        assert q.list[i] in q.list;
      }
    }
  }

  // ----- sys_check_timeouts ------------------------------------------------------------------

  /** What a handler does to the list: it asks for a timeout, where lead counts from the
      start of the handler to the time it is due and is not zero, and room tells whether
      there is memory for it; or it cancels one. */
  datatype Action = Arm(lead: nat, h: Handler, room: bool) | Cancel(h: Handler)
  type Deed = a: Action | a.Arm? ==> a.lead > 0 && Proper(a.h) witness Cancel(OneShot(0))

  /** The environment: how long the n-th handler of a call runs, what it does, whether the
      TCP timer is still needed after it, and whether there is memory for the restart. */
  datatype Env = Env(adv: nat -> nat, deeds: nat -> seq<Deed>, needed: nat -> bool, room: nat -> bool)

  /** One action of a handler that started at time `time`. */
  function Act(q: Queue, time: int, a: Deed): Queue
  {
    if a.Cancel? then Remove(q, a.h) else if a.room then Insert(q, time + a.lead, a.h) else q
  }

  function ActAll(q: Queue, time: int, deeds: seq<Deed>): Queue
    decreases |deeds|
  {
    if deeds == [] then q else ActAll(Act(q, time, deeds[0]), time, deeds[1..])
  }

  lemma ActValid(q: Queue, time: int, a: Deed)
    requires Valid(q)
    ensures Valid(Act(q, time, a))
  {
    hide Insert, Remove, Valid;
    if a.Cancel? {
      RemoveValid(q, a.h);
    } else {
      InsertValid(q, time + a.lead, a.h);
    }
  }

  lemma {:induction false} ActAllValid(q: Queue, time: int, deeds: seq<Deed>)
    requires Valid(q)
    ensures Valid(ActAll(q, time, deeds))
    decreases |deeds|
  {
    hide Act, Valid;
    if deeds != [] {
      ActValid(q, time, deeds[0]);
      ActAllValid(Act(q, time, deeds[0]), time, deeds[1..]);
    }
  }

  /** When a cyclic timer that was due at t.time is due again, if its handler ended at
      time `time`: an interval later, or an interval from now if that is over already. */
  function NextDue(t: Timer, time: int): int
    requires !t.h.OneShot?
  {
    if t.h.TcpTimer? || t.time + t.h.interval < time then time + t.h.interval else t.time + t.h.interval
  }

  /** The restart of t when its handler ends at time `time`. */
  function Rearm(q: Queue, t: Timer, time: int, needed: bool, room: bool): Queue
  {
    if t.h.OneShot? || (t.h.TcpTimer? && !needed) || !room then q else Insert(q, NextDue(t, time), t.h)
  }

  /** How often a timeout can still fire in a call that started at now. */
  function Weight(t: Timer, now: int): nat
  {
    if t.time > now then 0 else if t.time == now || t.h.OneShot? then 1 else 2
  }

  function Load(q: seq<Timer>, now: int): nat
  {
    if q == [] then 0 else Weight(q[0], now) + Load(q[1..], now)
  }

  lemma {:induction false} LoadConcat(a: seq<Timer>, b: seq<Timer>, now: int)
    ensures Load(a + b, now) == Load(a, now) + Load(b, now)
  {
    if a == [] {
      assert a + b == b;
    } else {
      assert (a + b)[1..] == a[1..] + b;
      LoadConcat(a[1..], b, now);
    }
  }

  lemma InsertLoad(q: Queue, time: int, h: Handler, now: int)
    ensures Load(Insert(q, time, h).list, now) == Load(q.list, now) + Weight(Timer(time, h, q.tickets), now)
  {
    var k := PlaceOf(q.list, time);
    var t := Timer(time, h, q.tickets);
    assert [t][1..] == [];
    LoadConcat(q.list[..k], [t], now);
    LoadConcat(q.list[..k] + [t], q.list[k..], now);
    LoadConcat(q.list[..k], q.list[k..], now);
    assert q.list == q.list[..k] + q.list[k..];
  }

  /** Rearming leaves less to do. */
  lemma RearmLoad(q: Queue, t: Timer, now: int, time: int, needed: bool, room: bool)
    requires Proper(t.h) && t.time <= now <= time
    ensures Load(Rearm(q, t, time, needed, room).list, now) < Load(q.list, now) + Weight(t, now)
  {
    hide Insert, Load;
    if !t.h.OneShot? {
      InsertLoad(q, NextDue(t, time), t.h, now);
    }
  }

  lemma RearmValid(q: Queue, t: Timer, time: int, needed: bool, room: bool)
    requires Valid(q) && Proper(t.h)
    ensures Valid(Rearm(q, t, time, needed, room))
  {
    hide Insert, Valid;
    if !t.h.OneShot? {
      InsertValid(q, NextDue(t, time), t.h);
    }
  }

  lemma TailValid(q: Queue)
    requires Valid(q) && q.list != []
    ensures Valid(q.(list := q.list[1..]))
  {
    var r := q.list[1..];
    forall i, j | 0 <= i < j < |r| ensures Ahead(r[i], r[j]) {
      assert Ahead(q.list[i + 1], q.list[j + 1]);
    }
  }

  lemma RemoveLoad(q: Queue, h: Handler, now: int)
    ensures Load(Remove(q, h).list, now) <= Load(q.list, now)
  {
    var k := Find(q.list, h);
    if k < |q.list| {
      LoadConcat(q.list[..k], q.list[k + 1..], now);
      LoadConcat(q.list[..k], q.list[k..], now);
      assert q.list == q.list[..k] + q.list[k..] && q.list[k..][1..] == q.list[k + 1..];
    }
  }

  /** What a handler asks for is not due in this call. */
  lemma {:induction false} ActAllLoad(q: Queue, now: int, time: int, deeds: seq<Deed>)
    requires now <= time
    ensures Load(ActAll(q, time, deeds).list, now) <= Load(q.list, now)
    decreases |deeds|
  {
    hide Insert, Remove, Load;
    if deeds != [] {
      var a := deeds[0];
      if a.Arm? {
        InsertLoad(q, time + a.lead, a.h, now);
      } else {
        RemoveLoad(q, a.h, now);
      }
      ActAllLoad(Act(q, time, a), now, time, deeds[1..]);
    }
  }

  /** The result of a call: the timeouts fired, the list, and the clock at the end. */
  datatype Result = Result(fired: seq<Timer>, q: Queue, time: int)

  predicate Due(q: Queue, now: int) { q.list != [] && q.list[0].time <= now }

  function End(time: int, n: nat, env: Env): int { time + env.adv(n) }

  /** The list without its first timeout, after what the handler did. */
  function Acted(q: Queue, time: int, n: nat, env: Env): Queue
    requires q.list != []
  {
    ActAll(q.(list := q.list[1..]), time, env.deeds(n))
  }

  /** The list after the first timeout has been taken off and its handler has run. */
  ghost function Next(q: Queue, now: int, time: int, n: nat, env: Env): (r: Queue)
    requires Valid(q) && Due(q, now) && now <= time
    ensures Valid(r) && Load(r.list, now) < Load(q.list, now)
  {
    TailValid(q);
    ActAllValid(q.(list := q.list[1..]), time, env.deeds(n));
    ActAllLoad(q.(list := q.list[1..]), now, time, env.deeds(n));
    var rest := Acted(q, time, n, env);
    RearmValid(rest, q.list[0], End(time, n, env), env.needed(n), env.room(n));
    RearmLoad(rest, q.list[0], now, End(time, n, env), env.needed(n), env.room(n));
    Rearm(rest, q.list[0], End(time, n, env), env.needed(n), env.room(n))
  }

  /** sys_check_timeouts from its n-th handler on, for a call that started at now. */
  ghost function Check(q: Queue, now: int, time: int, n: nat, env: Env): Result
    requires Valid(q) && now <= time
    decreases Load(q.list, now)
  {
    if !Due(q, now) then Result([], q, time)
    else
      var r := Check(Next(q, now, time, n, env), now, End(time, n, env), n + 1, env);
      Result([q.list[0]] + r.fired, r.q, r.time)
  }

  /** No pending timeout is due before `from`. */
  ghost predicate NotBefore(q: seq<Timer>, from: int)
  {
    forall t :: t in q ==> from <= t.time
  }

  lemma RearmNotBefore(q: Queue, t: Timer, time: int, needed: bool, room: bool)
    requires NotBefore(q.list, t.time) && Proper(t.h) && t.time <= time
    ensures NotBefore(Rearm(q, t, time, needed, room).list, t.time)
  {
    hide Insert, NotBefore;
    if !t.h.OneShot? {
      InsertNotBefore(q, NextDue(t, time), t.h, t.time);
    }
  }

  lemma InsertNotBefore(q: Queue, time: int, h: Handler, from: int)
    requires NotBefore(q.list, from) && from <= time
    ensures NotBefore(Insert(q, time, h).list, from)
  {
    var k := PlaceOf(q.list, time);
    forall t | t in Insert(q, time, h).list ensures from <= t.time {
      assert t in q.list || t == Timer(time, h, q.tickets);
    }
  }

  lemma {:induction false} ActAllNotBefore(q: Queue, time: int, deeds: seq<Deed>, from: int)
    requires NotBefore(q.list, from) && from <= time
    ensures NotBefore(ActAll(q, time, deeds).list, from)
    decreases |deeds|
  {
    hide Insert, Remove, NotBefore;
    if deeds != [] {
      var a := deeds[0];
      if a.Arm? {
        InsertNotBefore(q, time + a.lead, a.h, from);
      } else {
        RemoveNotBefore(q, a.h, from);
      }
      ActAllNotBefore(Act(q, time, a), time, deeds[1..], from);
    }
  }

  lemma RemoveNotBefore(q: Queue, h: Handler, from: int)
    requires NotBefore(q.list, from)
    ensures NotBefore(Remove(q, h).list, from)
  {
    var k := Find(q.list, h);
    assert forall t :: t in Remove(q, h).list ==> t in q.list;
  }

  lemma HeadProper(q: Queue)
    requires Valid(q) && q.list != []
    ensures Proper(q.list[0].h)
  {
    assert q.list[0] in q.list;
  }

  lemma HeadFirst(q: Queue)
    requires Valid(q) && q.list != []
    ensures NotBefore(q.list[1..], q.list[0].time) && NotBefore(q.list, q.list[0].time)
  {
    forall i | 0 < i < |q.list| ensures q.list[0].time <= q.list[i].time {
      assert Ahead(q.list[0], q.list[i]);
    }
  }

  /** Fired in the order of due times, none before `from` and none not due. */
  ghost predicate FiredInOrder(fired: seq<Timer>, from: int, now: int)
  {
    fired == [] || (from <= fired[0].time <= now && FiredInOrder(fired[1..], fired[0].time, now))
  }

  /** One call fires only timeouts that were due when it started, in the order of their
      due times, and leaves none of those behind. */
  lemma {:induction false} CheckInOrder(q: Queue, now: int, time: int, n: nat, env: Env, from: int)
    requires Valid(q) && now <= time && NotBefore(q.list, from)
    ensures var r := Check(q, now, time, n, env);
            && FiredInOrder(r.fired, from, now) && Valid(r.q) && now <= r.time
            && (r.q.list == [] || r.q.list[0].time > now)
    decreases Load(q.list, now)
  {
    hide Rearm, ActAll, Valid, NotBefore, Load;
    if Due(q, now) {
      var t, end := q.list[0], End(time, n, env);
      HeadProper(q);
      HeadFirst(q);
      FromHead(q.list, from);
      ActAllNotBefore(q.(list := q.list[1..]), time, env.deeds(n), t.time);
      RearmNotBefore(Acted(q, time, n, env), t, end, env.needed(n), env.room(n));
      CheckInOrder(Next(q, now, time, n, env), now, end, n + 1, env, t.time);
      var r := Check(Next(q, now, time, n, env), now, end, n + 1, env);
      assert ([t] + r.fired)[1..] == r.fired;
    }
  }

  lemma FromHead(q: seq<Timer>, from: int)
    requires q != [] && NotBefore(q, from)
    ensures from <= q[0].time
  {
  }

  // ----- how often a timer fires -----------------------------------------------------------------------

  function Times(q: seq<Timer>, h: Handler): nat
  {
    if q == [] then 0 else (if q[0].h == h then 1 else 0) + Times(q[1..], h)
  }

  lemma {:induction false} TimesConcat(a: seq<Timer>, b: seq<Timer>, h: Handler)
    ensures Times(a + b, h) == Times(a, h) + Times(b, h)
  {
    if a == [] {
      assert a + b == b;
    } else {
      assert (a + b)[1..] == a[1..] + b;
      TimesConcat(a[1..], b, h);
    }
  }

  lemma InsertTimes(q: Queue, time: int, g: Handler, h: Handler)
    ensures Times(Insert(q, time, g).list, h) == Times(q.list, h) + if g == h then 1 else 0
  {
    var k := PlaceOf(q.list, time);
    var t := Timer(time, g, q.tickets);
    assert [t][1..] == [];
    TimesConcat(q.list[..k], [t], h);
    TimesConcat(q.list[..k] + [t], q.list[k..], h);
    TimesConcat(q.list[..k], q.list[k..], h);
    assert q.list == q.list[..k] + q.list[k..];
  }

  /** How often the handlers from the n-th to the one before the m-th get a timeout for h. */
  function Requests(env: Env, n: nat, m: nat, h: Handler): nat
    decreases m - n
  {
    if n >= m then 0 else Asks(env.deeds(n), h) + Requests(env, n + 1, m, h)
  }

  function Asks(deeds: seq<Deed>, h: Handler): nat
    decreases |deeds|
  {
    if deeds == [] then 0
    else (if deeds[0].Arm? && deeds[0].room && deeds[0].h == h then 1 else 0) + Asks(deeds[1..], h)
  }

  /** How often they cancel one, or find no memory for a restart. */
  function Losses(env: Env, n: nat, m: nat, h: Handler): nat
    decreases m - n
  {
    if n >= m then 0
    else Cancels(env.deeds(n), h) + (if env.room(n) then 0 else 1) + Losses(env, n + 1, m, h)
  }

  function Cancels(deeds: seq<Deed>, h: Handler): nat
    decreases |deeds|
  {
    if deeds == [] then 0 else (if deeds[0] == Cancel(h) then 1 else 0) + Cancels(deeds[1..], h)
  }

  lemma RemoveTimes(q: Queue, g: Handler, h: Handler)
    ensures var n := Times(Remove(q, g).list, h);
            n <= Times(q.list, h) <= n + if g == h then 1 else 0
  {
    var k := Find(q.list, g);
    if k < |q.list| {
      TimesConcat(q.list[..k], q.list[k + 1..], h);
      TimesConcat(q.list[..k], q.list[k..], h);
      assert q.list == q.list[..k] + q.list[k..] && q.list[k..][1..] == q.list[k + 1..];
    }
  }

  lemma {:induction false} ActAllTimes(q: Queue, time: int, deeds: seq<Deed>, h: Handler)
    ensures var n := Times(ActAll(q, time, deeds).list, h);
            n <= Times(q.list, h) + Asks(deeds, h) <= n + Cancels(deeds, h)
    decreases |deeds|
  {
    hide Insert, Remove, Times;
    if deeds != [] {
      var a := deeds[0];
      if a.Arm? {
        InsertTimes(q, time + a.lead, a.h, h);
      } else {
        RemoveTimes(q, a.h, h);
      }
      ActAllTimes(Act(q, time, a), time, deeds[1..], h);
    }
  }

  /** No timeout is lost or invented: what is armed after a call is what was armed before
      and what the handlers that ran asked for, less the one-shots that fired, except as
      far as handlers cancel it or there is no memory to restart it. So a cyclic timer
      stays armed, whatever one call fires. */
  lemma {:induction false} NoneLost(q: Queue, now: int, time: int, n: nat, env: Env, h: Handler)
    requires Valid(q) && now <= time && !h.TcpTimer?
    ensures var r := Check(q, now, time, n, env); var m := n + |r.fired|;
            var once := if h.OneShot? then Times(r.fired, h) else 0;
            Times(r.q.list, h) + once <= Times(q.list, h) + Requests(env, n, m, h)
                                      <= Times(r.q.list, h) + once + Losses(env, n, m, h)
    decreases Load(q.list, now)
  {
    hide Valid, Rearm, Load, ActAll, Asks, Cancels;
    if Due(q, now) {
      var t, end := q.list[0], End(time, n, env);
      ActAllTimes(q.(list := q.list[1..]), time, env.deeds(n), h);
      RearmTimes(Acted(q, time, n, env), t, end, env.needed(n), env.room(n), h);
      NoneLost(Next(q, now, time, n, env), now, end, n + 1, env, h);
      var r := Check(Next(q, now, time, n, env), now, end, n + 1, env);
      assert ([t] + r.fired)[1..] == r.fired;
    }
  }

  lemma RearmTimes(q: Queue, t: Timer, time: int, needed: bool, room: bool, h: Handler)
    requires !h.TcpTimer?
    ensures Times(Rearm(q, t, time, needed, room).list, h) 
         == Times(q.list, h) + if t.h == h && h.Cyclic? && room then 1 else 0
  {
    hide Insert, Times;
    if !t.h.OneShot? {
      InsertTimes(q, NextDue(t, time), t.h, h);
    }
  }

  /** The weight of the timeouts with handler h. */
  function LoadOf(q: seq<Timer>, now: int, h: Handler): nat
  {
    if q == [] then 0 else (if q[0].h == h then Weight(q[0], now) else 0) + LoadOf(q[1..], now, h)
  }

  lemma {:induction false} LoadOfConcat(a: seq<Timer>, b: seq<Timer>, now: int, h: Handler)
    ensures LoadOf(a + b, now, h) == LoadOf(a, now, h) + LoadOf(b, now, h)
  {
    if a == [] {
      assert a + b == b;
    } else {
      assert (a + b)[1..] == a[1..] + b;
      LoadOfConcat(a[1..], b, now, h);
    }
  }

  lemma InsertLoadOf(q: Queue, time: int, g: Handler, now: int, h: Handler)
    ensures LoadOf(Insert(q, time, g).list, now, h)
         == LoadOf(q.list, now, h) + if g == h then Weight(Timer(time, g, q.tickets), now) else 0
  {
    var k := PlaceOf(q.list, time);
    var t := Timer(time, g, q.tickets);
    assert [t][1..] == [];
    LoadOfConcat(q.list[..k], [t], now, h);
    LoadOfConcat(q.list[..k] + [t], q.list[k..], now, h);
    LoadOfConcat(q.list[..k], q.list[k..], now, h);
    assert q.list == q.list[..k] + q.list[k..];
  }

  lemma RearmLoadOf(q: Queue, t: Timer, now: int, time: int, needed: bool, room: bool, h: Handler)
    requires Proper(t.h) && t.time <= now <= time
    ensures LoadOf(Rearm(q, t, time, needed, room).list, now, h) + (if t.h == h then 1 else 0)
         <= LoadOf(q.list, now, h) + if t.h == h then Weight(t, now) else 0
  {
    hide Insert, LoadOf;
    if !t.h.OneShot? {
      InsertLoadOf(q, NextDue(t, time), t.h, now, h);
    }
  }

  lemma RemoveLoadOf(q: Queue, g: Handler, now: int, h: Handler)
    ensures LoadOf(Remove(q, g).list, now, h) <= LoadOf(q.list, now, h)
  {
    hide Weight;
    var k := Find(q.list, g);
    if k < |q.list| {
      LoadOfConcat(q.list[..k], q.list[k + 1..], now, h);
      LoadOfConcat(q.list[..k], q.list[k..], now, h);
      assert q.list == q.list[..k] + q.list[k..] && q.list[k..][1..] == q.list[k + 1..];
    }
  }

  lemma {:induction false} ActAllLoadOf(q: Queue, now: int, time: int, deeds: seq<Deed>, h: Handler)
    requires now <= time
    ensures LoadOf(ActAll(q, time, deeds).list, now, h) <= LoadOf(q.list, now, h)
    decreases |deeds|
  {
    hide Insert, Remove, LoadOf;
    if deeds != [] {
      var a := deeds[0];
      if a.Arm? {
        InsertLoadOf(q, time + a.lead, a.h, now, h);
      } else {
        RemoveLoadOf(q, a.h, now, h);
      }
      ActAllLoadOf(Act(q, time, a), now, time, deeds[1..], h);
    }
  }

  lemma {:induction false} FiredWithinLoad(q: Queue, now: int, time: int, n: nat, env: Env, h: Handler)
    requires Valid(q) && now <= time
    ensures Times(Check(q, now, time, n, env).fired, h) <= LoadOf(q.list, now, h)
    decreases Load(q.list, now)
  {
    hide Valid, Rearm, Load, ActAll;
    if Due(q, now) {
      var t, end := q.list[0], End(time, n, env);
      HeadProper(q);
      ActAllLoadOf(q.(list := q.list[1..]), now, time, env.deeds(n), h);
      RearmLoadOf(Acted(q, time, n, env), t, now, end, env.needed(n), env.room(n), h);
      FiredWithinLoad(Next(q, now, time, n, env), now, end, n + 1, env, h);
      var r := Check(Next(q, now, time, n, env), now, end, n + 1, env);
      assert ([t] + r.fired)[1..] == r.fired;
    }
  }

  lemma {:induction false} LoadOfBound(q: seq<Timer>, now: int, h: Handler)
    ensures LoadOf(q, now, h) <= 2 * Times(q, h)
    ensures h.OneShot? ==> LoadOf(q, now, h) <= Times(q, h)
  {
    if q != [] {
      LoadOfBound(q[1..], now, h);
    }
  }

  /** One call fires each armed timer at most twice, and a one-shot at most once. */
  lemma FiresAtMostTwice(q: Queue, now: int, env: Env, h: Handler)
    requires Valid(q)
    ensures Times(Check(q, now, now, 0, env).fired, h) <= (if h.OneShot? then 1 else 2) * Times(q.list, h)
  {
    FiredWithinLoad(q, now, now, 0, env, h);
    LoadOfBound(q.list, now, h);
  }

  /** A cyclic timer is due a second time in the same call if and only if its next due
      time is exactly the start of the call and its handler ended at that time. */
  lemma SecondFiringIff(t: Timer, now: int, time: int)
    requires t.h.Cyclic? && t.h.interval > 0 && t.time <= now <= time
    ensures NextDue(t, time) <= now <==> t.time + t.h.interval == now && time == now
  {
  }

  /** A cyclic timer alone on the list fires twice in a call if and only if the call is
      exactly one interval late and the first firing took no time; otherwise once. */
  lemma FiresAlone(t: Timer, tickets: nat, now: int, env: Env)
    requires t.h.Cyclic? && t.h.interval > 0 && t.time <= now && t.ticket < tickets
    requires env.room(0) && env.deeds(0) == env.deeds(1) == []
    ensures Valid(Queue([t], tickets))
    ensures Times(Check(Queue([t], tickets), now, now, 0, env).fired, t.h)
         == if t.time + t.h.interval == now && env.adv(0) == 0 then 2 else 1
  {
    var q := Queue([t], tickets);
    var end := End(now, 0, env);
    var t1 := Timer(NextDue(t, end), t.h, tickets);
    AloneAgain(t, tickets, now, now, 0, env);
    SecondFiringIff(t, now, end);
    AloneValid(t1, tickets + 1);
    OneTime(t1);
    hide Next, Valid, Load, NextDue;
    var q1 := Queue([t1], tickets + 1);
    var r1 := Check(q1, now, end, 1, env);
    assert Check(q, now, now, 0, env).fired == [t] + r1.fired;
    assert ([t] + r1.fired)[1..] == r1.fired;
    if t1.time <= now {
      LastFiring(t1, tickets + 1, now, end, env);
    } else {
      assert r1.fired == [];
    }
  }

  lemma AloneValid(t: Timer, tickets: nat)
    requires Proper(t.h) && t.ticket < tickets
    ensures Valid(Queue([t], tickets))
  {
  }

  lemma OneTime(t: Timer)
    ensures Times([t], t.h) == 1 && Times([], t.h) == 0
  {
    assert [t][1..] == [];
  }

  /** The list after a lone cyclic timer has fired. */
  lemma AloneAgain(t: Timer, tickets: nat, now: int, time: int, n: nat, env: Env)
    requires t.h.Cyclic? && t.h.interval > 0 && t.time <= now <= time && t.ticket < tickets
    requires env.deeds(n) == []
    ensures Valid(Queue([t], tickets))
    ensures Next(Queue([t], tickets), now, time, n, env)
         == if env.room(n) then Queue([Timer(NextDue(t, End(time, n, env)), t.h, tickets)], tickets + 1)
           else Queue([], tickets)
  {
    assert [t][1..] == [];
    assert Valid(Queue([t], tickets));
  }

  lemma LastFiring(t: Timer, tickets: nat, now: int, time: int, env: Env)
    requires t.h.Cyclic? && t.h.interval > 0 && t.time == now <= time && t.ticket < tickets && env.deeds(1) == []
    ensures Valid(Queue([t], tickets)) && Check(Queue([t], tickets), now, time, 1, env).fired == [t]
  {
    AloneAgain(t, tickets, now, time, 1, env);
  }
}
