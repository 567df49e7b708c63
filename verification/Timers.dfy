/** The timeout list as the code has it: due times compared with wrap-around, the list
    changed in place. Every method is proved to compute the corresponding function of
    `TimerQueue` while pending times stay within a quarter of the 32-bit range of the
    clock (src/lwip/src/core/timeouts.c). Times are unbounded; the code only looks at
    their 32-bit values. */
module Timers {
  import opened Seq32
  import opened TimerQueue
  import opened TimerSpacing

  const MAX_TIMEOUT: int := 0x7fff_ffff
  const QUARTER: int := 0x4000_0000

  /** TIME_LESS_THAN */
  predicate TimeLessThan(t: u32, compareTo: u32) { Sub(t, compareTo) > MAX_TIMEOUT }

  lemma LessThanIs(a: int, b: int)
    requires -TWO31 <= a - b < TWO31
    ensures TimeLessThan(Wire(a), Wire(b)) <==> a < b
  {
    WireOrder(a, b);
  }

  /** Times around `now` that compare correctly with each other. */
  predicate NearNow(t: int, now: int) { now - QUARTER <= t < now + QUARTER }

  ghost predicate AllNear(q: seq<Timer>, now: int)
  {
    forall t :: t in q ==> NearNow(t.time, now)
  }

  /** Every restarting handler has an interval that fits. */
  ghost predicate Moderate(q: seq<Timer>)
  {
    forall t :: t in q ==> Paced(t.h)
  }

  predicate Paced(h: Handler) { h.OneShot? || h.interval <= 0x2000_0000 }

  /** So is every timeout that a handler asks for. */
  ghost predicate Modest(deeds: seq<Deed>)
  {
    forall a :: a in deeds && a.Arm? ==> a.lead <= 0x2000_0000 && Paced(a.h)
  }

  ghost predicate AllModest(env: Env)
  {
    forall n: nat :: Modest(env.deeds(n))
  }

  class Timeouts {
    var next_timeout: seq<Timer>
    var tickets: nat
    var current_timeout_due_time: int

    ghost function View(): Queue
      reads this
    {
      Queue(next_timeout, tickets)
    }

    constructor ()
      ensures Valid(View()) && next_timeout == []
    {
      next_timeout, tickets, current_timeout_due_time := [], 0, 0;
    }

    /** sys_timeout_abs; room tells whether memp_malloc succeeds. */
    method TimeoutAbs(time: int, h: Handler, room: bool, ghost now: int)
      requires AllNear(next_timeout, now) && NearNow(time, now)
      modifies this`next_timeout, this`tickets
      ensures View() == if room then Insert(old(View()), time, h) else old(View())
    {
      if !room {
        return;
      }
      var timeout := Timer(time, h, tickets);
      tickets := tickets + 1;
      if next_timeout == [] {
        next_timeout := [timeout];
        return;
      }
      var k := FindPlace(time, now);
      next_timeout := next_timeout[..k] + [timeout] + next_timeout[k..];
    }

    /** The walk of sys_timeout_abs. */
    method FindPlace(time: int, ghost now: int) returns (k: nat)
      requires AllNear(next_timeout, now) && NearNow(time, now)
      ensures k == PlaceOf(next_timeout, time)
    {
      var q := next_timeout;
      k := 0;
      while k < |q| && !TimeLessThan(Wire(time), Wire(q[k].time))
        invariant k <= |q| && PlaceOf(q, time) == k + PlaceOf(q[k..], time)
        decreases |q| - k
      {
        assert q[k] in q;
        LessThanIs(time, q[k].time);
        assert q[k..][1..] == q[k + 1..];
        k := k + 1;
      }
      if k < |q| {
        assert q[k] in q;
        LessThanIs(time, q[k].time);
      }
    }

    /** sys_timeout */
    method Timeout(now: int, msecs: nat, h: Handler, room: bool)
      requires Valid(View()) && Proper(h) && AllNear(next_timeout, now) && msecs < QUARTER
      modifies this`next_timeout, this`tickets
      ensures View() == (if room then Insert(old(View()), now + msecs, h) else old(View())) && Valid(View())
    {
      ghost var q := View();
      hide Insert, Valid, Sorted, AllNear, Proper, PlaceOf;
      InsertValid(q, now + msecs, h);
      TimeoutAbs(now + msecs, h, room, now);
      assert View() == if room then Insert(q, now + msecs, h) else q;
    }

    /** sys_untimeout */
    method Untimeout(h: Handler)
      requires Valid(View())
      modifies this`next_timeout
      ensures View() == Remove(old(View()), h) && Valid(View())
    {
      RemoveValid(View(), h);
      var q := next_timeout;
      var k := 0;
      while k < |q| && q[k].h != h
        invariant k <= |q| && Find(q, h) == k + Find(q[k..], h)
        decreases |q| - k
      {
        assert q[k..][1..] == q[k + 1..];
        k := k + 1;
      }
      if k < |q| {
        next_timeout := q[..k] + q[k + 1..];
      }
    }

    /** sys_restart_timeouts */
    method RestartTimeouts(now: int)
      requires Valid(View())
      modifies this`next_timeout
      ensures View() == Restart(old(View()), now) && Valid(View())
    {
      hide Valid, Moved, Shifted;
      RestartValid(View(), now);
      if next_timeout == [] {
        return;
      }
      var base := next_timeout[0].time;
      ghost var s := next_timeout;
      var k := 0;
      MovedNone(s, now - base);
      while k < |next_timeout|
        invariant k <= |next_timeout| == |s| && Moved(next_timeout, s, k, now - base)
      {
        MovedMore(next_timeout, s, k, now - base);
        next_timeout := next_timeout[k := next_timeout[k].(time := next_timeout[k].time - base + now)];
        k := k + 1;
      }
      MovedAll(next_timeout, s, now - base);
    }

    /** sys_timeouts_sleeptime: how long until the first timeout is due. */
    method SleepTime(now: int) returns (ms: u32)
      requires AllNear(next_timeout, now)
      ensures ms == if next_timeout == [] then 0xffff_ffff
                    else if next_timeout[0].time <= now then 0 else next_timeout[0].time - now
    {
      if next_timeout == [] {
        return 0xffff_ffff;
      }
      var t := next_timeout[0].time;
      assert next_timeout[0] in next_timeout;
      WireOrder(t, now);
      if TimeLessThan(Wire(t), Wire(now)) {
        return 0;
      }
      ms := Sub(Wire(t), Wire(now));
    }

    /** sys_check_timeouts, called at now. fired lists the timeouts whose handlers ran. */
    method CheckTimeouts(now: int, env: Env) returns (fired: seq<Timer>, time: int)
      requires Valid(View()) && AllNear(next_timeout, now) && Moderate(next_timeout)
      requires AllModest(env) && Check(View(), now, now, 0, env).time <= now + 0x1000_0000
      modifies this
      ensures Result(fired, View(), time) == Check(old(View()), now, now, 0, env) && Valid(View())
      ensures AllNear(next_timeout, now) && Moderate(next_timeout)
    {
      CheckStarts(View(), now, env);
      ClockAhead(View(), now, now, 0, env);
      hide Valid, Next, NearNow, Load, AllNear, Moderate, AllModest, Check, Prefixed, Due, End;
      fired, time := [], now;
      var n := 0;
      ghost var q0 := View();
      var due := FirstDue(now);
      while due
        invariant Checking(q0, now, fired, time, n, env) && (due <==> Due(View(), now))
        decreases Load(next_timeout, now)
      {
        fired, time, n := FireFirst(now, env, fired, time, n, q0);
        due := FirstDue(now);
      }
      CheckDone(fired, View(), now, time, n, env);
    }

    /** What is left to do, after the timeouts of `fired`, is what the rest of the call does. */
    ghost predicate Checking(q0: Queue, now: int, fired: seq<Timer>, time: int, n: nat, env: Env)
      requires Valid(q0)
      reads this
    {
      && Valid(View()) && AllNear(next_timeout, now) && Moderate(next_timeout) && now <= time
      && time <= Check(View(), now, time, n, env).time <= now + 0x1000_0000
      && Check(q0, now, now, 0, env) == Prefixed(fired, Check(View(), now, time, n, env))
    }

    /** One round of the loop. */
    method FireFirst(now: int, env: Env, fired: seq<Timer>, time: int, n: nat, ghost q0: Queue)
      returns (fired1: seq<Timer>, time1: int, n1: nat)
      requires Valid(q0) && Checking(q0, now, fired, time, n, env) && Due(View(), now) && AllModest(env)
      modifies this
      ensures Checking(q0, now, fired1, time1, n1, env) && Load(next_timeout, now) < old(Load(next_timeout, now))
    {
      hide Valid, Next, NearNow, Load, AllNear, Moderate, AllModest, Check, Prefixed;
      CheckGoesOn(fired, View(), now, time, n, env);
      ModestAt(env, n);
      var t := next_timeout[0];
      RunFirst(now, time, n, env);
      fired1, time1, n1 := fired + [t], time + env.adv(n), n + 1;
    }

    /** The first timeout is due. */
    method FirstDue(now: int) returns (due: bool)
      requires AllNear(next_timeout, now)
      ensures due <==> Due(View(), now)
    {
      if next_timeout == [] {
        return false;
      }
      assert next_timeout[0] in next_timeout;
      LessThanIs(now, next_timeout[0].time);
      due := !TimeLessThan(Wire(now), Wire(next_timeout[0].time));
    }

    /** Taking off the first timeout and running its handler. */
    method RunFirst(now: int, time: int, n: nat, env: Env)
      requires Valid(View()) && AllNear(next_timeout, now) && Moderate(next_timeout)
      requires Due(View(), now) && now <= time && End(time, n, env) <= now + 0x1000_0000 && Modest(env.deeds(n))
      modifies this
      ensures View() == Next(old(View()), now, time, n, env) && Valid(View())
      ensures AllNear(next_timeout, now) && Moderate(next_timeout)
    {
      ghost var q := View();
      var t := next_timeout[0];
      NextNear(q, now, time, n, env);
      hide Valid, Load, Insert, ActAll, Modest;
      next_timeout := next_timeout[1..];
      current_timeout_due_time := t.time;
      RunHandler(t.h, env.deeds(n), time, End(time, n, env), env.needed(n), env.room(n), now, t);
    }

    /** A handler from `time` on: what it does to the list, and the restart at `end` if it
        is run by lwip_cyclic_timer or is tcpip_tcp_timer. */
    method RunHandler(h: Handler, deeds: seq<Deed>, time: int, end: int, needed: bool, room: bool,
                      ghost now: int, ghost t: Timer)
      requires t.h == h && t.time == current_timeout_due_time && Valid(View())
      requires AllNear(next_timeout, now) && Paced(h) && Proper(h) && Modest(deeds)
      requires current_timeout_due_time <= now <= time <= end <= now + 0x1000_0000
               && NearNow(current_timeout_due_time, now)
      modifies this`next_timeout, this`tickets
      ensures View() == Rearm(ActAll(old(View()), time, deeds), t, end, needed, room)
      ensures Restarts(h, needed, room) ==> exists u :: u in next_timeout && u.h == h && DueAgain(t, end, u.time)
    {
      hide Insert, AllNear, ActAll, Modest, Valid;
      RunDeeds(deeds, time, now);
      if Restarts(h, needed, room) {
        RearmedAgain(View(), t, end, needed, room);
      }
      RestartTimer(h, end, needed, room, now, t);
    }

    /** The calls of sys_timeout and sys_untimeout in a handler. */
    method RunDeeds(deeds: seq<Deed>, time: int, ghost now: int)
      requires Valid(View()) && AllNear(next_timeout, now) && Modest(deeds) && now <= time <= now + 0x1000_0000
      modifies this`next_timeout, this`tickets
      ensures View() == ActAll(old(View()), time, deeds) && Valid(View()) && AllNear(next_timeout, now)
    {
      hide Insert, Remove, AllNear, Valid, Act;
      var i := 0;
      ghost var q := View();
      while i < |deeds|
        invariant i <= |deeds| && Valid(View()) && AllNear(next_timeout, now)
        invariant ActAll(View(), time, deeds[i..]) == ActAll(q, time, deeds)
      {
        assert deeds[i] in deeds && deeds[i..][1..] == deeds[i + 1..];
        RunDeed(deeds[i], time, now);
        i := i + 1;
      }
    }

    method RunDeed(a: Deed, time: int, ghost now: int)
      requires Valid(View()) && AllNear(next_timeout, now) && now <= time <= now + 0x1000_0000
      requires a.Arm? ==> a.lead <= 0x2000_0000
      modifies this`next_timeout, this`tickets
      ensures View() == Act(old(View()), time, a) && Valid(View()) && AllNear(next_timeout, now)
    {
      ActValid(View(), time, a);
      hide Insert, Remove, AllNear, Valid;
      if a.Cancel? {
        RemoveNear(View(), a.h, now);
        Untimeout(a.h);
      } else {
        InsertNear(View(), time + a.lead, a.h, now);
        TimeoutAbs(time + a.lead, a.h, a.room, now);
      }
    }

    /** The end of lwip_cyclic_timer or tcpip_tcp_timer. */
    method RestartTimer(h: Handler, end: int, needed: bool, room: bool, ghost now: int, ghost t: Timer)
      requires t.h == h && t.time == current_timeout_due_time
      requires AllNear(next_timeout, now) && Paced(h) && Proper(h)
      requires current_timeout_due_time <= now <= end <= now + 0x1000_0000 && NearNow(current_timeout_due_time, now)
      modifies this`next_timeout, this`tickets
      ensures View() == Rearm(old(View()), t, end, needed, room)
    {
      hide Insert, AllNear;
      match h
      case OneShot(_) =>
      case Cyclic(_, interval) =>
        var next := current_timeout_due_time + interval;
        LessThanIs(next, end);
        if TimeLessThan(Wire(next), Wire(end)) {
          TimeoutAbs(end + interval, h, room, now);
        } else {
          TimeoutAbs(next, h, room, now);
        }
      case TcpTimer(interval) =>
        if needed {
          TimeoutAbs(end + interval, h, room, now);
        }
    }
  }

  lemma RearmedAgain(q: Queue, t: Timer, end: int, needed: bool, room: bool)
    requires Restarts(t.h, needed, room)
    ensures exists u :: u in Rearm(q, t, end, needed, room).list && u.h == t.h && DueAgain(t, end, u.time)
  {
    hide Rearm;
    var u := RearmAdds(q, t, end, needed, room);
    assert u in multiset(Rearm(q, t, end, needed, room).list);
  }

  ghost function Prefixed(fired: seq<Timer>, r: Result): Result
  {
    Result(fired + r.fired, r.q, r.time)
  }

  /** The first k timeouts of s have been moved by d. */
  ghost predicate Moved(q: seq<Timer>, s: seq<Timer>, k: nat, d: int)
  {
    && k <= |q| == |s|
    && (forall i :: 0 <= i < k ==> q[i] == s[i].(time := s[i].time + d)) && (forall i :: k <= i < |s| ==> q[i] == s[i])
  }

  lemma MovedNone(s: seq<Timer>, d: int)
    ensures Moved(s, s, 0, d)
  {
  }

  lemma MovedMore(q: seq<Timer>, s: seq<Timer>, k: nat, d: int)
    requires Moved(q, s, k, d) && k < |q|
    ensures Moved(q[k := q[k].(time := q[k].time + d)], s, k + 1, d)
  {
  }

  lemma MovedAll(q: seq<Timer>, s: seq<Timer>, d: int)
    requires Moved(q, s, |q|, d)
    ensures q == Shifted(s, d)
  {
    ShiftedAt(s, d);
  }

  lemma ModestAt(env: Env, n: nat)
    requires AllModest(env)
    ensures Modest(env.deeds(n))
  {
  }

  lemma CheckStarts(q: Queue, now: int, env: Env)
    requires Valid(q)
    ensures Check(q, now, now, 0, env) == Prefixed([], Check(q, now, now, 0, env))
  {
  }

  lemma CheckGoesOn(fired: seq<Timer>, q: Queue, now: int, time: int, n: nat, env: Env)
    requires Valid(q) && Due(q, now) && now <= time
    ensures var r := Next(q, now, time, n, env); var end := End(time, n, env);
            && Prefixed(fired, Check(q, now, time, n, env))
               == Prefixed(fired + [q.list[0]], Check(r, now, end, n + 1, env))
            && end <= Check(r, now, end, n + 1, env).time == Check(q, now, time, n, env).time
  {
    hide Valid, Next, Load;
    ClockAhead(Next(q, now, time, n, env), now, End(time, n, env), n + 1, env);
    var r := Check(Next(q, now, time, n, env), now, End(time, n, env), n + 1, env);
    assert fired + [q.list[0]] + r.fired == fired + ([q.list[0]] + r.fired);
  }

  lemma CheckDone(fired: seq<Timer>, q: Queue, now: int, time: int, n: nat, env: Env)
    requires Valid(q) && !Due(q, now) && now <= time
    ensures Prefixed(fired, Check(q, now, time, n, env)) == Result(fired, q, time)
  {
    assert fired + [] == fired;
  }

  /** A call never turns back the clock. */
  lemma {:induction false} ClockAhead(q: Queue, now: int, time: int, n: nat, env: Env)
    requires Valid(q) && now <= time
    ensures time <= Check(q, now, time, n, env).time
    decreases Load(q.list, now)
  {
    hide Valid, Next, Load;
    if Due(q, now) {
      ClockAhead(Next(q, now, time, n, env), now, End(time, n, env), n + 1, env);
    }
  }

  /** What is left after one handler stays near the clock. */
  lemma NextNear(q: Queue, now: int, time: int, n: nat, env: Env)
    requires Valid(q) && AllNear(q.list, now) && Moderate(q.list) && Due(q, now)
    requires now <= time && End(time, n, env) <= now + 0x1000_0000 && Modest(env.deeds(n))
    ensures var r := Next(q, now, time, n, env); Valid(r) && AllNear(r.list, now) && Moderate(r.list)
    ensures var t := q.list[0]; Paced(t.h) && Proper(t.h) && NearNow(t.time, now) && AllNear(q.list[1..], now)
  {
    var t := q.list[0];
    assert t in q.list;
    HeadProper(q);
    hide Valid, Load;
    DeedsNear(q.(list := q.list[1..]), time, env.deeds(n), now);
    if !t.h.OneShot? {
      InsertNear(Acted(q, time, n, env), NextDue(t, End(time, n, env)), t.h, now);
    }
  }

  lemma {:induction false} DeedsNear(q: Queue, time: int, deeds: seq<Deed>, now: int)
    requires AllNear(q.list, now) && Moderate(q.list) && now <= time <= now + 0x1000_0000 && Modest(deeds)
    ensures AllNear(ActAll(q, time, deeds).list, now) && Moderate(ActAll(q, time, deeds).list)
    decreases |deeds|
  {
    hide Insert, Remove, AllNear, Moderate;
    if deeds != [] {
      var a := deeds[0];
      assert a in deeds;
      if a.Arm? {
        InsertNear(q, time + a.lead, a.h, now);
      } else {
        RemoveNear(q, a.h, now);
      }
      DeedsNear(Act(q, time, a), time, deeds[1..], now);
    }
  }

  lemma RemoveNear(q: Queue, h: Handler, now: int)
    requires AllNear(q.list, now)
    ensures AllNear(Remove(q, h).list, now) && (Moderate(q.list) ==> Moderate(Remove(q, h).list))
  {
    assert forall t :: t in Remove(q, h).list ==> t in q.list;
  }

  lemma InsertNear(q: Queue, time: int, h: Handler, now: int)
    requires AllNear(q.list, now) && NearNow(time, now)
    ensures AllNear(Insert(q, time, h).list, now)
    ensures Moderate(q.list) && Paced(h) ==> Moderate(Insert(q, time, h).list)
  {
    forall t | t in Insert(q, time, h).list ensures t in q.list || t == Timer(time, h, q.tickets) {
    }
  }
}
