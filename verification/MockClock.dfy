/**
  The mock clock: moving the time forward runs all timers and tickers that become due, in
  chronological order. Callbacks do not touch the clock.
 */
module MockClock {

  /** A one-shot timer (period 0), or a ticker. */
  class Timer {
    var next: int
    const period: nat

    constructor (next: int, period: nat)
      ensures this.next == next && this.period == period
    {
      this.next, this.period := next, period;
    }
  }

  datatype Event = Event(timer: Timer, time: int)

  /** The times at which a timer has to fire up to and including `max`. */
  function Due(next: int, period: nat, max: int): (r: seq<int>)
    ensures r == [] <==> next > max
    decreases max - next
  {
    if next > max then [] else [next] + if period == 0 then [] else Due(next + period, period, max)
  }

  /** A ticker fires as often as its period fits, at equal distances. */
  lemma {:induction false} DueCount(next: int, period: nat, max: int, k: nat)
    requires period > 0
    ensures var n := |Due(next, period, max)|;
            && (if next > max then n == 0 else next + (n - 1) * period <= max < next + n * period)
            && (k < n ==> Due(next, period, max)[k] == next + k * period)
    decreases max - next
  {
    if next <= max {
      DueCount(next + period, period, max, if k == 0 then 0 else k - 1);
      var n := |Due(next, period, max)|;
      Distribute(n - 1, period);
      Distribute(k, period);
      assert n == 1 || n >= 2;
    }
  }

  lemma Distribute(k: int, p: nat)
    ensures (k + 1) * p == k * p + p && (k - 1) * p == k * p - p
  {
  }

  /** The times at which a timer fired. */
  function TimesOf(es: seq<Event>, t: Timer): seq<int> {
    if es == [] then []
    else
      var last := es[|es| - 1];
      TimesOf(es[..|es| - 1], t) + if last.timer == t then [last.time] else []
  }

  lemma TimesOfAppend(es: seq<Event>, e: Event, t: Timer)
    ensures TimesOf(es + [e], t) == TimesOf(es, t) + if e.timer == t then [e.time] else []
  {
    assert (es + [e])[..|es|] == es;
  }

  ghost predicate Ordered(es: seq<Event>) {
    forall i, j :: 0 <= i < j < |es| ==> es[i].time <= es[j].time
  }

  ghost predicate Distinct(ts: seq<Timer>) {
    forall i, j :: 0 <= i < j < |ts| ==> ts[i] != ts[j]
  }

  ghost function SetOf(ts: seq<Timer>): set<Timer> {
    set t | t in ts
  }

  ghost predicate Sorted(ts: seq<Timer>)
    reads ts
  {
    forall i, j :: 0 <= i < j < |ts| ==> ts[i].next <= ts[j].next
  }

  /** sort.Sort. What follows depends on this contract alone: among equal times any order may
      come out. */
  method Sort(ts: seq<Timer>) returns (r: seq<Timer>)
    requires Distinct(ts)
    ensures Distinct(r) && Sorted(r) && SetOf(r) == SetOf(ts)
  {
    if ts == [] {
      return ts;
    }
    var last := |ts| - 1;
    var rest := Sort(ts[..last]);
    assert SetOf(ts) == SetOf(ts[..last]) + {ts[last]};
    assert ts[last] !in SetOf(rest);
    assert ts[last] !in rest;
    hide Distinct, SetOf;
    var k := 0;
    while k < |rest| && rest[k].next < ts[last].next
      invariant 0 <= k <= |rest| && forall i :: 0 <= i < k ==> rest[i].next < ts[last].next
    {
      k := k + 1;
    }
    r := rest[..k] + [ts[last]] + rest[k..];
    Inserted(rest, k, ts[last]);
  }

  lemma Inserted(ts: seq<Timer>, k: nat, x: Timer)
    requires Distinct(ts) && x !in ts && k <= |ts|
    ensures var r := ts[..k] + [x] + ts[k..]; Distinct(r) && SetOf(r) == SetOf(ts) + {x}
  {
    assert forall t :: t in ts <==> t in ts[..k] || t in ts[k..];
  }

  class Mock {
    var now: int
    var timers: seq<Timer>
    /** All calls of Tick. */
    var log: seq<Event>

    ghost predicate Valid()
      reads this, timers
    {
      Distinct(timers) && forall t :: t in timers ==> t.next >= now
    }

    constructor ()
      ensures Valid() && timers == [] && log == [] && now == 0
    {
      now, timers, log := 0, [], [];
    }

    /** Timer and Ticker. */
    method NewTimer(d: nat, period: nat) returns (t: Timer)
      requires Valid() && (period > 0 ==> d == period)
      modifies this`timers
      ensures Valid() && fresh(t) && timers == old(timers) + [t] && t.next == now + d && t.period == period
    {
      t := new Timer(now + d, period);
      timers := timers + [t];
    }

    /** removeClockTimer. */
    method Remove(t: Timer)
      requires Distinct(timers)
      modifies this`timers
      ensures Distinct(timers) && SetOf(timers) == old(SetOf(timers)) - {t}
    {
      for i := 0 to |timers|
        invariant forall k :: 0 <= k < i ==> timers[k] != t
        invariant timers == old(timers)
      {
        if timers[i] == t {
          timers := timers[..i] + timers[i + 1..];
          break;
        }
      }
      timers := Sort(timers);
    }

    /** The tick of a timer or of a ticker. */
    method Tick(t: Timer)
      requires Distinct(timers) && t in timers
      modifies this`timers, this`log, t
      ensures Distinct(timers) && log == old(log) + [Event(t, now)]
      ensures SetOf(timers) == if t.period == 0 then old(SetOf(timers)) - {t} else old(SetOf(timers))
      ensures t.next == if t.period == 0 then old(t.next) else now + t.period
    {
      log := log + [Event(t, now)];
      if t.period == 0 {
        Remove(t);
      } else {
        t.next := now + t.period;
      }
    }

    /** runNextTimer: the earliest timer, if it is due. */
    method RunNextTimer(max: int) returns (ran: bool, ghost t: Timer?)
      requires Valid()
      modifies this, SetOf(timers)
      ensures Valid()
      ensures !ran ==>
        && log == old(log) && now == old(now) && SetOf(timers) == old(SetOf(timers))
        && (forall u :: u in old(timers) ==> u in timers && u.next == old(u.next) && u.next > max)
      ensures ran ==>
        && t != null && t in old(timers) && old(t.next) <= max
        && now == old(t.next) && log == old(log) + [Event(t, now)]
        && SetOf(timers) == (if t.period == 0 then old(SetOf(timers)) - {t} else old(SetOf(timers)))
        && (forall u :: u in old(timers) && u != t ==> u.next == old(u.next))
        && t.next == now + t.period
    {
      t := null;
      var sorted := Sort(timers);
      SameMembers(sorted, timers);
      timers := sorted;
      if |timers| == 0 {
        return false, null;
      }
      var first := timers[0];
      if first.next > max {
        return false, null;
      }
      now := first.next;
      ghost var before := timers;
      Tick(first);
      assert forall u :: u in timers ==> u in SetOf(timers);
      assert forall u :: u in SetOf(before) <==> u in before;
      return true, first;
    }

    /** While the clock moves to `max`: all timers are on their plans, and what has fired is in
        order and not later than now. */
    ghost predicate Running(all: seq<Timer>, start: map<Timer, int>, fired: seq<Event>, max: int, origin: int)
      reads this, timers, all
    {
      && Valid() && Distinct(all) && origin <= now
      && (forall u :: u in all ==> u in start)
      && (forall u :: u in timers ==> u in all)
      && (forall u :: u in all ==> OnPlan(TimesOf(fired, u), u in timers, u.next, u.period, start[u], max))
      && Ordered(fired)
      && (forall k :: 0 <= k < |fired| ==> fired[k].timer in all && origin <= fired[k].time <= now && fired[k].time <= max)
    }

    method RunStep(max: int, ghost all: seq<Timer>, ghost start: map<Timer, int>, ghost fired: seq<Event>, ghost origin: int,
                   ghost base: seq<Event>)
      returns (ran: bool, ghost fired': seq<Event>)
      requires Running(all, start, fired, max, origin) && log == base + fired
      modifies this, SetOf(timers)
      ensures Running(all, start, fired', max, origin) && log == base + fired'
      ensures |fired'| == |fired| + if ran then 1 else 0
      ensures !ran ==> NothingDue(max)
      ensures SetOf(timers) <= old(SetOf(timers))
    {
      hide OnPlan, TimesOf;
      ghost var before := timers;
      ghost var t;
      ran, t := RunNextTimer(max);
      fired' := fired;
      if !ran {
        SameMembers(before, timers);
        return;
      }
      fired' := fired + [Event(t, now)];
      assert base + fired + [Event(t, now)] == base + fired';
      forall u ensures u in timers <==> u in before && (u == t ==> t.period > 0) {
        assert u in timers <==> u in SetOf(timers);
        assert u in before <==> u in SetOf(before);
      }
      forall u | u in all ensures OnPlan(TimesOf(fired', u), u in timers, u.next, u.period, start[u], max) {
        TimesOfAppend(fired, Event(t, now), u);
        if u == t {
          FireStep(TimesOf(fired, u), now, u.period, start[u], max);
        } else {
          assert u.next == old(u.next) && TimesOf(fired', u) == TimesOf(fired, u);
        }
      }
    }

    lemma WithinPlan(all: seq<Timer>, start: map<Timer, int>, fired: seq<Event>, max: int, origin: int)
      requires Running(all, start, fired, max, origin)
      ensures |fired| <= TotalDue(all, start, max)
    {
      FiredBound(all, start, fired, max);
    }

    lemma AtStart(max: int)
      requires Valid()
      ensures Running(timers, Starts(), [], max, now)
    {
    }

    /** The loop of Add and Set: every timer fires exactly at the times it is due, in order, and
        nothing stays due. */
    method RunAll(max: int) returns (ghost fired: seq<Event>)
      requires Valid()
      modifies this, SetOf(timers)
      ensures Running(old(timers), old(Starts()), fired, max, old(now)) && log == old(log) + fired
      ensures NothingDue(max)
    {
      fired := [];
      ghost var all, start := timers, Starts();
      AtStart(max);
      hide Running, SetOf, Starts, TotalDue, NothingDue;
      ghost var bound := TotalDue(all, start, max);
      while true
        invariant Running(all, start, fired, max, old(now)) && log == old(log) + fired && |fired| <= bound
        invariant SetOf(timers) <= SetOf(all)
        decreases bound - |fired|
      {
        ghost var more;
        var ran;
        ran, more := RunStep(max, all, start, fired, old(now), old(log));
        WithinPlan(all, start, more, max, old(now));
        fired := more;
        if !ran {
          break;
        }
      }
    }

    ghost predicate NothingDue(max: int)
      reads this`timers, timers
    {
      forall u :: u in timers ==> u.next > max
    }

    ghost function Starts(): map<Timer, int>
      reads this, timers
    {
      map u | u in timers :: u.next
    }

    /**
      Set, and Add for the current time plus a duration: the clock ends at the target time. In
      between, each timer fires exactly at the times it is due, each one-shot timer that fired
      is removed and no other, all in non-decreasing order, and afterwards nothing is due.
     */
    method Set(t: int)
      requires Valid()
      modifies this, SetOf(timers)
      ensures Valid() && now == t
      ensures |log| >= |old(log)| && log[..|old(log)|] == old(log)
      ensures var fired := log[|old(log)|..];
        && Ordered(fired)
        && (forall k :: 0 <= k < |fired| ==> fired[k].timer in old(timers) && old(now) <= fired[k].time <= t)
        && (forall u :: u in old(timers) ==>
              && TimesOf(fired, u) == Due(old(u.next), u.period, t)
              && (u in timers <==> u.period > 0 || old(u.next) > t)
              && (u in timers ==> u.next == old(u.next) + |TimesOf(fired, u)| * u.period))
      ensures forall u :: u in timers ==> u in old(timers) && u.next > t
    {
      ghost var fired := RunAll(t);
      now := t;
      assert log[|old(log)|..] == fired;
    }

    /** Add: the same, for the current time plus a duration. */
    method Add(d: int)
      requires Valid()
      modifies this, SetOf(timers)
      ensures Valid() && now == old(now) + d
      ensures |log| >= |old(log)| && log[..|old(log)|] == old(log)
      ensures var fired := log[|old(log)|..];
        && Ordered(fired)
        && (forall k :: 0 <= k < |fired| ==> fired[k].timer in old(timers) && old(now) <= fired[k].time <= now)
        && (forall u :: u in old(timers) ==>
              && TimesOf(fired, u) == Due(old(u.next), u.period, now)
              && (u in timers <==> u.period > 0 || old(u.next) > now)
              && (u in timers ==> u.next == old(u.next) + |TimesOf(fired, u)| * u.period))
      ensures forall u :: u in timers ==> u in old(timers) && u.next > now
    {
      Set(now + d);
    }
  }

  /** Where a timer stands on the way to `max`: what it has fired and what it still has to fire
      make up its plan. */
  ghost predicate OnPlan(times: seq<int>, listed: bool, next: int, period: nat, start: int, max: int) {
    && times + (if listed then Due(next, period, max) else []) == Due(start, period, max)
    && (listed ==> next == start + |times| * period)
    && (period == 0 ==> (listed <==> times == []))
    && (period > 0 ==> listed)
  }

  lemma FireStep(times: seq<int>, next: int, period: nat, start: int, max: int)
    requires OnPlan(times, true, next, period, start, max) && next <= max
    ensures OnPlan(times + [next], period > 0, next + period, period, start, max)
  {
    var rest := if period == 0 then [] else Due(next + period, period, max);
    assert Due(next, period, max) == [next] + rest;
    hide Due;
    assert times + ([next] + rest) == times + [next] + rest;
    assert (|times| + 1) * period == |times| * period + period by {
      Distribute(|times|, period);
    }
  }

  // ---- Termination: no more than is due can fire ----

  ghost function SumTimes(ts: seq<Timer>, es: seq<Event>): nat {
    if ts == [] then 0 else SumTimes(ts[..|ts| - 1], es) + |TimesOf(es, ts[|ts| - 1])|
  }

  lemma {:induction false} SumTimesAppend(ts: seq<Timer>, es: seq<Event>, e: Event)
    requires Distinct(ts)
    ensures SumTimes(ts, es + [e]) == SumTimes(ts, es) + if e.timer in ts then 1 else 0
  {
    if ts != [] {
      var n := |ts| - 1;
      SumTimesAppend(ts[..n], es, e);
      TimesOfAppend(es, e, ts[n]);
    }
  }

  lemma {:induction false} SumTimesAll(ts: seq<Timer>, es: seq<Event>)
    requires Distinct(ts) && forall k :: 0 <= k < |es| ==> es[k].timer in ts
    ensures SumTimes(ts, es) == |es|
  {
    if es == [] {
      SumTimesNone(ts);
    } else {
      var n := |es| - 1;
      SumTimesAll(ts, es[..n]);
      SumTimesAppend(ts, es[..n], es[n]);
      assert es == es[..n] + [es[n]];
    }
  }

  lemma {:induction false} SumTimesNone(ts: seq<Timer>)
    ensures SumTimes(ts, []) == 0
  {
    if ts != [] {
      SumTimesNone(ts[..|ts| - 1]);
    }
  }

  lemma FiredBound(ts: seq<Timer>, start: map<Timer, int>, es: seq<Event>, max: int)
    requires Distinct(ts) && forall k :: 0 <= k < |es| ==> es[k].timer in ts
    requires forall u :: u in ts ==> u in start && |TimesOf(es, u)| <= |Due(start[u], u.period, max)|
    ensures |es| <= TotalDue(ts, start, max)
  {
    SumTimesAll(ts, es);
    SumWithin(ts, start, es, max);
  }

  lemma {:induction false} SumWithin(ts: seq<Timer>, start: map<Timer, int>, es: seq<Event>, max: int)
    requires forall u :: u in ts ==> u in start && |TimesOf(es, u)| <= |Due(start[u], u.period, max)|
    ensures SumTimes(ts, es) <= TotalDue(ts, start, max)
  {
    if ts != [] {
      SumWithin(ts[..|ts| - 1], start, es, max);
    }
  }

  lemma SameMembers(a: seq<Timer>, b: seq<Timer>)
    requires SetOf(a) == SetOf(b)
    ensures forall u :: u in a <==> u in b
  {
    forall u ensures u in a <==> u in b {
      assert u in a <==> u in SetOf(a);
    }
  }

  /** How often the timers have to fire in all. */
  ghost function TotalDue(ts: seq<Timer>, start: map<Timer, int>, max: int): nat
  {
    if ts == [] then 0
    else
      var last := ts[|ts| - 1];
      TotalDue(ts[..|ts| - 1], start, max) + if last in start then |Due(start[last], last.period, max)| else 0
  }
}
