/** When timers fire again: each restart adds just one timeout, an interval after the end
    of the handler or in step with the last due time, and over whole runs two firings of
    the TCP timer are an interval apart (src/lwip/src/core/timeouts.c). */
module TimerSpacing {
  import opened TimerQueue

  // ----- what insertion, removal and rebasing do to the list ----------------------------------

  /** Insertion adds the new timeout and nothing else. */
  lemma InsertAdds(q: Queue, time: int, h: Handler)
    ensures multiset(Insert(q, time, h).list) == multiset(q.list) + multiset{Timer(time, h, q.tickets)}
  {
    var k := PlaceOf(q.list, time);
    assert q.list == q.list[..k] + q.list[k..];
  }

  lemma {:induction false} TimesIn(q: seq<Timer>, h: Handler)
    ensures Times(q, h) > 0 <==> exists t :: t in q && t.h == h
  {
    if q != [] {
      TimesIn(q[1..], h);
      assert q == [q[0]] + q[1..];
    }
  }

  /** sys_untimeout takes away one timeout with the handler, the one that is due first, if
      there is one at all. */
  lemma RemoveTakesFirst(q: Queue, h: Handler) returns (x: Timer)
    requires Valid(q)
    ensures var r := Remove(q, h);
            if exists t :: t in q.list && t.h == h then
              && x in q.list && x.h == h && multiset(q.list) == multiset(r.list) + multiset{x}
              && (forall t :: t in q.list && t.h == h && t != x ==> Ahead(x, t))
              && r.tickets == q.tickets
            else r == q
  {
    var k := Find(q.list, h);
    x := Timer(0, h, 0);
    if k < |q.list| {
      x := q.list[k];
      assert q.list == q.list[..k] + [x] + q.list[k + 1..];
      forall t | t in q.list && t.h == h && t != x ensures Ahead(x, t) {
        var i :| 0 <= i < |q.list| && q.list[i] == t;
        assert k < i ==> Ahead(q.list[k], q.list[i]);
      }
    }
  }

  /** Rebasing makes the first timeout due now and keeps all distances between due times. */
  lemma RestartKeepsDistances(q: Queue, now: int)
    requires q.list != []
    ensures var r := Restart(q, now);
            && |r.list| == |q.list| && r.tickets == q.tickets && r.list[0].time == now
            && (forall i :: 0 <= i < |q.list| ==>
                  && r.list[i].time - r.list[0].time == q.list[i].time - q.list[0].time
                  && r.list[i].h == q.list[i].h && r.list[i].ticket == q.list[i].ticket)
  {
    ShiftedAt(q.list, now - q.list[0].time);
  }

  /** What a handler asks for is done, and nothing else: a timeout is added for the time
      asked for if there is memory, or the first one with the handler is taken away. */
  lemma ActExactly(q: Queue, time: int, a: Deed) returns (x: Timer)
    requires Valid(q)
    ensures var r := Act(q, time, a).list;
            match a
            case Arm(lead, h, room) =>
              if room then x.time == time + lead && x.h == h && multiset(r) == multiset(q.list) + multiset{x}
              else r == q.list
            case Cancel(h) =>
              if exists t :: t in q.list && t.h == h then
                && x in q.list && x.h == h && multiset(q.list) == multiset(r) + multiset{x}
                && (forall t :: t in q.list && t.h == h && t != x ==> Ahead(x, t))
              else r == q.list
  {
    hide Insert, Remove, Valid;
    match a
    case Arm(lead, h, room) =>
      x := Timer(time + lead, h, q.tickets);
      InsertAdds(q, time + lead, h);
    case Cancel(h) =>
      x := RemoveTakesFirst(q, h);
  }

  // ----- the restart ----------------------------------------------------------------------------

  /** The timeout t, whose handler has ended at `end`, is armed again for `due`. */
  predicate DueAgain(t: Timer, end: int, due: int)
    requires !t.h.OneShot?
  {
    if t.h.TcpTimer? || end - t.time > t.h.interval then due - end == t.h.interval
    else due - t.time == t.h.interval
  }

  /** The handler runs again: it is a cyclic timer, or the TCP timer while it is needed, and
      there is memory. */
  predicate Restarts(h: Handler, needed: bool, room: bool)
  {
    room && (h.Cyclic? || (h.TcpTimer? && needed))
  }

  lemma RearmAdds(q: Queue, t: Timer, end: int, needed: bool, room: bool) returns (u: Timer)
    ensures var r := Rearm(q, t, end, needed, room);
            if Restarts(t.h, needed, room) then
              multiset(r.list) == multiset(q.list) + multiset{u} && u.h == t.h && DueAgain(t, end, u.time)
            else r == q
  {
    u := t;
    hide Insert;
    if Restarts(t.h, needed, room) {
      u := Timer(NextDue(t, end), t.h, q.tickets);
      InsertAdds(q, NextDue(t, end), t.h);
    }
  }

  /** One firing: besides what its handler itself did, the list has the restarted timeout
      and nothing more. A TCP timer, and a cyclic timer that is late, is due an interval
      after the end of its handler; a cyclic timer that is in time, an interval after it
      was due. */
  lemma FiringRestarts(q: Queue, now: int, time: int, n: nat, env: Env) returns (u: Timer)
    requires Valid(q) && Due(q, now) && now <= time
    ensures var t, end, r := q.list[0], End(time, n, env), Next(q, now, time, n, env);
            if Restarts(t.h, env.needed(n), env.room(n)) then
              multiset(r.list) == multiset(Acted(q, time, n, env).list) + multiset{u}
              && u.h == t.h && DueAgain(t, end, u.time) && u.time > end - t.h.interval
            else r == Acted(q, time, n, env)
  {
    HeadProper(q);
    hide Valid, ActAll, Rearm;
    u := RearmAdds(Acted(q, time, n, env), q.list[0], End(time, n, env), env.needed(n), env.room(n));
  }

  // ----- runs ---------------------------------------------------------------------------------------

  datatype Firing = Firing(t: Timer, start: int, end: int)

  /** The firings of one call, with the times at which their handlers start and end. */
  ghost function Firings(q: Queue, now: int, time: int, n: nat, env: Env): (log: seq<Firing>)
    requires Valid(q) && now <= time
    decreases Load(q.list, now)
  {
    if !Due(q, now) then []
    else
      var end := End(time, n, env);
      [Firing(q.list[0], time, end)] + Firings(Next(q, now, time, n, env), now, end, n + 1, env)
  }

  /** The firings are those of the call, one behind the other, from its start to its end. */
  lemma {:induction false} FiringsAre(q: Queue, now: int, time: int, n: nat, env: Env)
    requires Valid(q) && now <= time
    ensures var log, r := Firings(q, now, time, n, env), Check(q, now, time, n, env);
            && |log| == |r.fired| && (forall i :: 0 <= i < |log| ==> log[i].t == r.fired[i])
            && (forall i :: 0 <= i < |log| ==>
                  && log[i].start == (if i == 0 then time else log[i - 1].end)
                  && log[i].start <= log[i].end)
            && r.time == if log == [] then time else log[|log| - 1].end
    decreases Load(q.list, now)
  {
    hide Valid, Next, Load;
    if Due(q, now) {
      FiringsAre(Next(q, now, time, n, env), now, End(time, n, env), n + 1, env);
    }
  }

  /** The stack is run by calls of sys_check_timeouts, and timeouts are armed and cancelled
      between them; `late` is the time that passes before. */
  datatype Move = Call(late: nat, env: Env) | Between(late: nat, deeds: seq<Deed>)

  /** tcp_timer_needed: the TCP timer is armed for an interval from now, and only while it
      is not armed. */
  ghost predicate Guarded(q: Queue, time: int, deeds: seq<Deed>, h: Handler)
    requires h.TcpTimer?
    decreases |deeds|
  {
    deeds == []
    || ((deeds[0].Arm? && deeds[0].h == h ==> deeds[0].lead == h.interval && Times(q.list, h) == 0)
        && Guarded(Act(q, time, deeds[0]), time, deeds[1..], h))
  }

  /** All handlers of a call arm the TCP timer only like that, and its own not at all. */
  ghost predicate GuardedCall(q: Queue, now: int, time: int, n: nat, env: Env, h: Handler)
    requires Valid(q) && now <= time && h.TcpTimer?
    decreases Load(q.list, now)
  {
    Due(q, now) ==>
      && Guarded(q.(list := q.list[1..]), time, env.deeds(n), h)
      && (q.list[0].h == h ==> Asks(env.deeds(n), h) == 0)
      && GuardedCall(Next(q, now, time, n, env), now, End(time, n, env), n + 1, env, h)
  }

  lemma CheckValid(q: Queue, now: int, env: Env)
    requires Valid(q)
    ensures var r := Check(q, now, now, 0, env); Valid(r.q) && now <= r.time
  {
    if q.list == [] {
      CheckInOrder(q, now, now, 0, env, now);
    } else {
      HeadFirst(q);
      CheckInOrder(q, now, now, 0, env, q.list[0].time);
    }
  }

  ghost function Made(q: Queue, clock: int, m: Move): (r: Result)
    requires Valid(q)
    ensures Valid(r.q) && clock <= r.time
  {
    match m
    case Call(late, env) =>
      CheckValid(q, clock + late, env);
      Check(q, clock + late, clock + late, 0, env)
    case Between(late, deeds) =>
      ActAllValid(q, clock + late, deeds);
      Result([], ActAll(q, clock + late, deeds), clock + late)
  }

  ghost function Log(q: Queue, clock: int, ms: seq<Move>): seq<Firing>
    requires Valid(q)
    decreases |ms|
  {
    if ms == [] then []
    else
      var r := Made(q, clock, ms[0]);
      (if ms[0].Call? then Firings(q, clock + ms[0].late, clock + ms[0].late, 0, ms[0].env) else [])
      + Log(r.q, r.time, ms[1..])
  }

  ghost predicate GuardedRun(q: Queue, clock: int, ms: seq<Move>, h: Handler)
    requires Valid(q) && h.TcpTimer?
    decreases |ms|
  {
    ms == [] ||
    (var r, now := Made(q, clock, ms[0]), clock + ms[0].late;
     && (match ms[0]
         case Call(_, env) => GuardedCall(q, now, now, 0, env, h)
         case Between(_, deeds) => Guarded(q, now, deeds, h))
     && GuardedRun(r.q, r.time, ms[1..], h))
  }

  /** Each firing of h starts an interval or more after the one before it has ended; the
      last one before the log ended at `last`. */
  ghost predicate Spaced(log: seq<Firing>, h: Handler, last: int)
    requires !h.OneShot?
    decreases |log|
  {
    log == [] ||
    (if log[0].t.h == h then log[0].start - last >= h.interval && Spaced(log[1..], h, log[0].end)
     else Spaced(log[1..], h, last))
  }

  /** h is armed once at most, and not for less than an interval from `last` on. */
  ghost predicate Rests(q: Queue, h: Handler, last: int)
    requires !h.OneShot?
  {
    Times(q.list, h) <= 1 && forall t :: t in q.list && t.h == h ==> t.time - last >= h.interval
  }

  /** The end of the last firing of h. */
  function LastEnd(log: seq<Firing>, h: Handler, last: int): int
    decreases |log|
  {
    if log == [] then last else LastEnd(log[1..], h, if log[0].t.h == h then log[0].end else last)
  }

  lemma InsertRests(q: Queue, time: int, g: Handler, h: Handler, last: int)
    requires !h.OneShot? && Rests(q, h, last)
    requires g == h ==> time - last >= h.interval && Times(q.list, h) == 0
    ensures Rests(Insert(q, time, g), h, last)
  {
    hide Times, Insert;
    InsertTimes(q, time, g, h);
    InsertAdds(q, time, g);
    InMore(q.list, Insert(q, time, g).list, Timer(time, g, q.tickets));
  }

  lemma ActRests(q: Queue, time: int, a: Deed, h: Handler, last: int)
    requires h.TcpTimer? && Rests(q, h, last) && last <= time
    requires a.Arm? && a.h == h ==> a.lead == h.interval && Times(q.list, h) == 0
    ensures Rests(Act(q, time, a), h, last)
  {
    hide Times, Insert;
    if a.Arm? {
      InsertRests(q, time + a.lead, a.h, h, last);
    } else {
      RemoveTimes(q, a.h, h);
      assert forall t :: t in Remove(q, a.h).list ==> t in q.list;
    }
  }

  lemma RearmRests(q: Queue, t: Timer, end: int, needed: bool, room: bool, h: Handler, last: int)
    requires h.TcpTimer? && Rests(q, h, last)
    requires t.h == h ==> last <= end && Times(q.list, h) == 0
    ensures Rests(Rearm(q, t, end, needed, room), h, last)
  {
    hide Times, Insert, Rests;
    if !t.h.OneShot? {
      InsertRests(q, NextDue(t, end), t.h, h, last);
    }
  }

  lemma InMore(q: seq<Timer>, r: seq<Timer>, u: Timer)
    requires multiset(r) == multiset(q) + multiset{u}
    ensures forall t :: t in r <==> t in q || t == u
  {
    forall t ensures t in r <==> t in q || t == u {
      assert t in r <==> t in multiset(r);
      assert t in q <==> t in multiset(q);
    }
  }

  lemma {:induction false} ActAllRests(q: Queue, time: int, deeds: seq<Deed>, h: Handler, last: int)
    requires h.TcpTimer? && Rests(q, h, last) && last <= time && Guarded(q, time, deeds, h)
    ensures Rests(ActAll(q, time, deeds), h, last)
    decreases |deeds|
  {
    hide Act, Rests, Times;
    if deeds != [] {
      ActRests(q, time, deeds[0], h, last);
      ActAllRests(Act(q, time, deeds[0]), time, deeds[1..], h, last);
    }
  }

  lemma TailRests(q: Queue, h: Handler, last: int)
    requires !h.OneShot? && Rests(q, h, last) && q.list != []
    ensures Rests(q.(list := q.list[1..]), h, last)
    ensures q.list[0].h == h ==> Times(q.list[1..], h) == 0 && q.list[0].time - last >= h.interval
  {
    assert q.list[0] in q.list;
  }

  /** With none of them armed, any time may count as the last firing. */
  lemma NoneRests(q: Queue, h: Handler, last: int)
    requires !h.OneShot? && Times(q.list, h) == 0
    ensures Rests(q, h, last)
  {
    TimesIn(q.list, h);
  }

  /** The list after one firing of the TCP timer itself. */
  lemma OwnRests(q: Queue, now: int, time: int, n: nat, env: Env, h: Handler, last: int)
    requires Valid(q) && Due(q, now) && now <= time && h.TcpTimer? && Rests(q, h, last) && q.list[0].h == h
    requires Asks(env.deeds(n), h) == 0
    ensures Rests(Next(q, now, time, n, env), h, End(time, n, env)) && q.list[0].time - last >= h.interval
  {
    var end, acted := End(time, n, env), Acted(q, time, n, env);
    TailRests(q, h, last);
    ActAllTimes(q.(list := q.list[1..]), time, env.deeds(n), h);
    NoneRests(acted, h, end);
    hide Valid, ActAll, Rearm, Rests, Times, Asks;
    RearmRests(acted, q.list[0], end, env.needed(n), env.room(n), h, end);
  }

  /** The list after a firing of another timer. */
  lemma OtherRests(q: Queue, now: int, time: int, n: nat, env: Env, h: Handler, last: int)
    requires Valid(q) && Due(q, now) && now <= time && last <= time && h.TcpTimer? && Rests(q, h, last)
    requires q.list[0].h != h && Guarded(q.(list := q.list[1..]), time, env.deeds(n), h)
    ensures Rests(Next(q, now, time, n, env), h, last)
  {
    TailRests(q, h, last);
    ActAllRests(q.(list := q.list[1..]), time, env.deeds(n), h, last);
    hide Valid, ActAll, Rearm, Rests, Times, Guarded;
    RearmRests(Acted(q, time, n, env), q.list[0], End(time, n, env), env.needed(n), env.room(n), h, last);
  }

  lemma {:induction false} CallSpaced(q: Queue, now: int, time: int, n: nat, env: Env, h: Handler, last: int)
    requires Valid(q) && now <= time && last <= time && h.TcpTimer? && Rests(q, h, last)
    requires GuardedCall(q, now, time, n, env, h)
    ensures var log := Firings(q, now, time, n, env);
            && Spaced(log, h, last)
            && Rests(Check(q, now, time, n, env).q, h, LastEnd(log, h, last))
            && LastEnd(log, h, last) <= Check(q, now, time, n, env).time
    decreases Load(q.list, now)
  {
    hide Valid, Next, Load, Rests, Guarded, Asks;
    if Due(q, now) {
      var t, end, r := q.list[0], End(time, n, env), Next(q, now, time, n, env);
      var last' := if t.h == h then end else last;
      if t.h == h {
        OwnRests(q, now, time, n, env, h, last);
      } else {
        OtherRests(q, now, time, n, env, h, last);
      }
      CallSpaced(r, now, end, n + 1, env, h, last');
      var log := Firings(r, now, end, n + 1, env);
      assert ([Firing(t, time, end)] + log)[1..] == log;
    }
  }

  lemma {:induction false} SpacedConcat(a: seq<Firing>, b: seq<Firing>, h: Handler, last: int)
    requires !h.OneShot? && Spaced(a, h, last) && Spaced(b, h, LastEnd(a, h, last))
    ensures Spaced(a + b, h, last)
    decreases |a|
  {
    if a == [] {
      assert a + b == b;
    } else {
      assert (a + b)[1..] == a[1..] + b;
      SpacedConcat(a[1..], b, h, if a[0].t.h == h then a[0].end else last);
    }
  }

  /** One handler runs after the other, the first not before `from`. */
  ghost predicate Ordered(log: seq<Firing>, from: int)
  {
    log == [] || (from <= log[0].start <= log[0].end && Ordered(log[1..], log[0].end))
  }

  lemma {:induction false} SpacedFrom(log: seq<Firing>, h: Handler, last: int, from: int, j: nat)
    requires !h.OneShot? && Spaced(log, h, last) && Ordered(log, from) && last <= from
    requires j < |log| && log[j].t.h == h
    ensures log[j].start - last >= h.interval
    decreases |log|
  {
    if j > 0 {
      SpacedFrom(log[1..], h, if log[0].t.h == h then log[0].end else last, log[0].end, j - 1);
    }
  }

  lemma {:induction false} SpacedPair(log: seq<Firing>, h: Handler, last: int, from: int, i: nat, j: nat)
    requires !h.OneShot? && Spaced(log, h, last) && Ordered(log, from) && last <= from
    requires i < j < |log| && log[i].t.h == log[j].t.h == h
    ensures log[j].start - log[i].end >= h.interval
    decreases |log|
  {
    if i == 0 {
      SpacedFrom(log[1..], h, log[0].end, log[0].end, j - 1);
    } else {
      SpacedPair(log[1..], h, if log[0].t.h == h then log[0].end else last, log[0].end, i - 1, j - 1);
    }
  }

  lemma {:induction false} FiringsOrdered(q: Queue, now: int, time: int, n: nat, env: Env, from: int)
    requires Valid(q) && now <= time && from <= time
    ensures Ordered(Firings(q, now, time, n, env), from)
    ensures LastOf(Firings(q, now, time, n, env), from) <= Check(q, now, time, n, env).time
    decreases Load(q.list, now)
  {
    hide Valid, Next, Load;
    if Due(q, now) {
      var end := End(time, n, env);
      FiringsOrdered(Next(q, now, time, n, env), now, end, n + 1, env, end);
      var log := Firings(Next(q, now, time, n, env), now, end, n + 1, env);
      assert ([Firing(q.list[0], time, end)] + log)[1..] == log;
    }
  }

  function LastOf(log: seq<Firing>, from: int): int { if log == [] then from else log[|log| - 1].end }

  lemma {:induction false} OrderedConcat(a: seq<Firing>, b: seq<Firing>, from: int)
    requires Ordered(a, from) && Ordered(b, LastOf(a, from))
    ensures Ordered(a + b, from)
  {
    if a == [] {
      assert a + b == b;
    } else {
      assert (a + b)[1..] == a[1..] + b;
      OrderedConcat(a[1..], b, a[0].end);
    }
  }

  lemma OrderedSooner(log: seq<Firing>, from: int, sooner: int)
    requires Ordered(log, from) && sooner <= from
    ensures Ordered(log, sooner)
  {
  }

  lemma {:induction false} LogOrdered(q: Queue, clock: int, ms: seq<Move>)
    requires Valid(q)
    ensures Ordered(Log(q, clock, ms), clock)
    decreases |ms|
  {
    hide Valid, Check, Firings, ActAll;
    if ms != [] {
      var r, now := Made(q, clock, ms[0]), clock + ms[0].late;
      LogOrdered(r.q, r.time, ms[1..]);
      var rest := Log(r.q, r.time, ms[1..]);
      match ms[0]
      case Call(_, env) =>
        FiringsOrdered(q, now, now, 0, env, clock);
        var log := Firings(q, now, now, 0, env);
        OrderedSooner(rest, r.time, LastOf(log, clock));
        OrderedConcat(log, rest, clock);
      case Between(_, deeds) =>
        OrderedSooner(rest, r.time, clock);
        assert [] + rest == rest;
    }
  }

  /** Over every run of calls, with whatever handlers do and however late the calls are, two
      firings of the TCP timer are at least one interval apart. */
  lemma {:induction false} RunSpaced(q: Queue, clock: int, ms: seq<Move>, h: Handler, last: int)
    requires Valid(q) && last <= clock && h.TcpTimer? && Rests(q, h, last) && GuardedRun(q, clock, ms, h)
    ensures Spaced(Log(q, clock, ms), h, last)
    decreases |ms|
  {
    hide Valid, Rests, Guarded, GuardedCall, Check, Firings, ActAll;
    if ms != [] {
      var r, now := Made(q, clock, ms[0]), clock + ms[0].late;
      match ms[0]
      case Call(_, env) =>
        CallSpaced(q, now, now, 0, env, h, last);
        var log := Firings(q, now, now, 0, env);
        RunSpaced(r.q, r.time, ms[1..], h, LastEnd(log, h, last));
        SpacedConcat(log, Log(r.q, r.time, ms[1..]), h, last);
      case Between(_, deeds) =>
        ActAllRests(q, now, deeds, h, last);
        RunSpaced(r.q, r.time, ms[1..], h, last);
        assert [] + Log(r.q, r.time, ms[1..]) == Log(r.q, r.time, ms[1..]);
    }
  }

  /** Any two firings of the TCP timer in a run that starts while it is not armed. */
  lemma TcpTimerSpaced(q: Queue, clock: int, ms: seq<Move>, h: Handler, i: nat, j: nat)
    requires Valid(q) && h.TcpTimer? && Times(q.list, h) == 0 && GuardedRun(q, clock, ms, h)
    requires var log := Log(q, clock, ms); i < j < |log| && log[i].t.h == log[j].t.h == h
    ensures var log := Log(q, clock, ms); log[j].start - log[i].end >= h.interval
  {
    NoneRests(q, h, clock);
    RunSpaced(q, clock, ms, h, clock);
    LogOrdered(q, clock, ms);
    SpacedPair(Log(q, clock, ms), h, clock, clock, i, j);
  }
}
