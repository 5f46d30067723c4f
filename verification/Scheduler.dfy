/**
 The in-process scheduler loop (backend/app/scheduler.py). Scheduled agents are known by
 their position in SCHEDULED; time is real, on the monotonic clock. How long each run takes,
 and whether it raises, is given; sleeping takes exactly the heartbeat.
 */
module Scheduler {
  import opened Sets

  const HEARTBEAT: real := 30.0

  /** `_interval`: an agent's own cadence, but never faster than the configured floor. */
  function Interval(own: int, floor: int): (r: real)
    ensures own > 0 ==> r > 0.0
    ensures r >= own as real && r >= floor as real && (r == own as real || r == floor as real)
  {
    (if own >= floor then own else floor) as real
  }

  /** One run of one agent: when it was due, when it started, when it ended, and whether it raised. */
  datatype Tick = Tick(agent: nat, due: real, start: real, finish: real, raised: bool)

  /** What the outside world does: how long an agent's run in a given tick takes, and whether it raises. */
  datatype Course = Course(dur: (nat, nat) -> real, raises: (nat, nat) -> bool)

  datatype Loop = Loop(due: seq<real>, clock: real, log: seq<Tick>)

  // ------------------------------------------------------------ the loop, as a function

  /** Look at agent `i`, in tick `t` that woke at `now`. */
  function Visit(l: Loop, own: seq<int>, floor: int, now: real, course: Course, t: nat, i: nat): (r: Loop)
    requires |l.due| == |own| && i < |own|
    ensures |r.due| == |own|
  {
    if now < l.due[i] then l
    else
      var finish, raised := l.clock + course.dur(t, i), course.raises(t, i);
      Loop(if raised then l.due else l.due[i := finish + Interval(own[i], floor)],
           finish, l.log + [Tick(i, l.due[i], l.clock, finish, raised)])
  }

  /** Look at the first `n` agents in turn; a run that raises ends the tick. */
  function Visits(l: Loop, own: seq<int>, floor: int, now: real, course: Course, t: nat, n: nat): (r: (Loop, bool))
    requires |l.due| == |own| && n <= |own|
    ensures |r.0.due| == |own|
  {
    if n == 0 then (l, false)
    else
      var (before, stopped) := Visits(l, own, floor, now, course, t, n - 1);
      if stopped then (before, true)
      else (Visit(before, own, floor, now, course, t, n - 1), now >= before.due[n - 1] && course.raises(t, n - 1))
  }

  function Wake(l: Loop): Loop { l.(clock := l.clock + HEARTBEAT) }

  function OneTick(l: Loop, own: seq<int>, floor: int, course: Course, t: nat): (r: Loop)
    requires |l.due| == |own|
    ensures |r.due| == |own|
  {
    Visits(Wake(l), own, floor, l.clock + HEARTBEAT, course, t, |own|).0
  }

  function Begin(own: seq<int>, floor: int, began: real): (r: Loop)
    ensures |r.due| == |own| && forall i :: 0 <= i < |own| ==> r.due[i] == began + Interval(own[i], floor)
    ensures r.clock == began && r.log == []
  {
    Loop(seq(|own|, i requires 0 <= i < |own| => began + Interval(own[i], floor)), began, [])
  }

  /** The loop after `ticks` rounds. */
  function After(own: seq<int>, floor: int, began: real, course: Course, ticks: nat): (r: Loop)
    ensures |r.due| == |own|
  {
    if ticks == 0 then Begin(own, floor, began)
    else OneTick(After(own, floor, began, course, ticks - 1), own, floor, course, ticks - 1)
  }

  predicate AllPositive(own: seq<int>) { forall i :: 0 <= i < |own| ==> own[i] > 0 }

  /** No run takes longer than `maxRun`. */
  ghost predicate Takes(course: Course, maxRun: real) {
    maxRun >= 0.0 && forall t, i :: 0.0 <= course.dur(t, i) <= maxRun
  }

  ghost predicate NeverRaises(course: Course) { forall t, i :: !course.raises(t, i) }

  /** `ticks` rounds of the endless loop. */
  method RunForever(own: seq<int>, floor: int, began: real, course: Course, ticks: nat)
    returns (log: seq<Tick>, nextDue: seq<real>, clock: real)
    ensures Loop(nextDue, clock, log) == After(own, floor, began, course, ticks)
  {
    nextDue := seq(|own|, i requires 0 <= i < |own| => began + Interval(own[i], floor));
    clock, log := began, [];
    for t := 0 to ticks
      invariant Loop(nextDue, clock, log) == After(own, floor, began, course, t)
    {
      clock := clock + HEARTBEAT;
      log, nextDue, clock := RunDue(own, floor, course, t, log, nextDue, clock);
    }
  }

  /** The body of one tick: each agent in turn, until one raises. */
  method RunDue(own: seq<int>, floor: int, course: Course, t: nat, log0: seq<Tick>, due0: seq<real>, now: real)
    returns (log: seq<Tick>, nextDue: seq<real>, clock: real)
    requires |due0| == |own|
    ensures Loop(nextDue, clock, log) == Visits(Loop(due0, now, log0), own, floor, now, course, t, |own|).0
  {
    hide Interval;
    log, nextDue, clock := log0, due0, now;
    var i, raised := 0, false;
    while i < |own| && !raised
      invariant 0 <= i <= |own| == |nextDue|
      invariant (Loop(nextDue, clock, log), raised) == Visits(Loop(due0, now, log0), own, floor, now, course, t, i)
      decreases |own| - i, !raised
    {
      if now < nextDue[i] {
        i := i + 1;
        continue;
      }
      var start := clock;
      clock := clock + course.dur(t, i);
      raised := course.raises(t, i);
      log := log + [Tick(i, nextDue[i], start, clock, raised)];
      if !raised {
        // The next due time counts from the finish.
        nextDue := nextDue[i := clock + Interval(own[i], floor)];
      }
      i := i + 1;
    }
    StoppedStays(Loop(due0, now, log0), own, floor, now, course, t, i);
  }

  lemma {:induction false} StoppedStays(l: Loop, own: seq<int>, floor: int, now: real, course: Course, t: nat, i: nat)
    requires |l.due| == |own| && i <= |own|
    requires i == |own| || Visits(l, own, floor, now, course, t, i).1
    ensures Visits(l, own, floor, now, course, t, |own|).0 == Visits(l, own, floor, now, course, t, i).0
    decreases |own| - i
  {
    if i < |own| {
      StoppedStays(l, own, floor, now, course, t, i + 1);
    }
  }

  // ------------------------------------------------------------ counting the other agents

  function Times(k: nat, d: real): real { k as real * d }

  lemma TimesMonotone(j: nat, k: nat, d: real)
    requires j <= k && d >= 0.0
    ensures Times(j, d) <= Times(k, d)
  {
    assert (k - j) as real * d >= 0.0;
    assert k as real == j as real + (k - j) as real;
  }

  lemma TimesAdd(j: nat, k: nat, d: real)
    ensures Times(j + k, d) == Times(j, d) + Times(k, d)
    ensures Times(j + 1, d) == Times(j, d) + d
  {
    assert (j + k) as real == j as real + k as real;
    assert (j + 1) as real == j as real + 1.0;
  }

  ghost function Below(n: nat): (s: set<nat>)
    ensures forall i: nat :: i in s <==> i < n
    ensures |s| == n
  {
    if n == 0 then {} else Below(n - 1) + {n - 1}
  }

  ghost predicate AllBelow(s: set<nat>, n: nat) { forall a :: a in s ==> a < n }

  /** How many agents other than `i` can be in `a`, and in `a` and `b` together when they are disjoint. */
  lemma OthersFit(a: set<nat>, b: set<nat>, i: nat, n: nat)
    requires AllBelow(a, n) && AllBelow(b, n) && i < n && i !in a
    ensures |a| <= n - 1 && |b - {i}| <= n - 1
    ensures a !! b ==> |a| + |b - {i}| <= n - 1
  {
    assert |Below(n) - {i}| == n - 1;
    SubsetSize(a, Below(n) - {i});
    SubsetSize(b - {i}, Below(n) - {i});
    if a !! b {
      SubsetSize(a + (b - {i}), Below(n) - {i});
      assert |a + (b - {i})| == |a| + |b - {i}|;
    }
  }

  /** Every interval is long against a whole round of runs. */
  ghost predicate Unhurried(own: seq<int>, floor: int, maxRun: real) {
    forall i :: 0 <= i < |own| ==> Interval(own[i], floor) > HEARTBEAT + Times(|own| - 1, maxRun)
  }

  /** No backlog: an agent starts, whether or not that run raises, at least its interval after each
      of its earlier runs that did not raise; and it was scheduled off the latest of those (or off
      the start of the loop). */
  ghost predicate Spaced(log: seq<Tick>, own: seq<int>, floor: int, began: real) {
    && (forall k :: 0 <= k < |log| ==> log[k].agent < |own| && log[k].due <= log[k].start)
    && (forall j, k :: 0 <= j < k < |log| && log[j].agent == log[k].agent && !log[j].raised ==>
          log[k].due >= log[j].finish + Interval(own[log[j].agent], floor))
    && (forall k :: 0 <= k < |log| ==> Scheduled(log, k, log[k].agent, log[k].due, own, floor, began))
  }

  ghost predicate Scheduled(log: seq<Tick>, k: nat, agent: nat, due: real, own: seq<int>, floor: int, began: real)
    requires k <= |log| && agent < |own|
  {
    || due == began + Interval(own[agent], floor)
    || exists j :: 0 <= j < k && CameFrom(log[j], agent, due, own, floor)
  }

  ghost predicate CameFrom(t: Tick, agent: nat, due: real, own: seq<int>, floor: int)
    requires agent < |own|
  {
    t.agent == agent && !t.raised && due == t.finish + Interval(own[agent], floor)
  }

  /** Lateness: a heartbeat and two rounds of the other agents' runs, or one round when every
      interval is long against a round. */
  ghost predicate AllPunctual(log: seq<Tick>, own: seq<int>, floor: int, maxRun: real) {
    forall k :: 0 <= k < |log| && own != [] ==>
      && log[k].start < log[k].due + HEARTBEAT + Times(2 * (|own| - 1), maxRun)
      && (Unhurried(own, floor, maxRun) ==> log[k].start < log[k].due + HEARTBEAT + Times(|own| - 1, maxRun))
  }

  /** What is known between two ticks, at time `clock`, when no run has raised: `ran` are the
      agents that ran in the last one. */
  ghost predicate OnTime(due: seq<real>, clock: real, ran: set<nat>, maxRun: real) {
    && AllBelow(ran, |due|)
    && forall a :: 0 <= a < |due| ==> NotLate(due[a], clock, ran, a, maxRun)
  }

  /** The agents that ran account for any time past this one's due time. */
  ghost predicate NotLate(due: real, clock: real, ran: set<nat>, a: nat, maxRun: real) {
    clock < due + Times(|ran - {a}|, maxRun)
  }

  /** Since this agent finished, only others have run. */
  ghost predicate Refreshed(due: real, interval: real, clock: real, ran: set<nat>, a: nat, maxRun: real) {
    clock <= due - interval + Times(|ran - {a}|, maxRun)
  }

  /** The same inside a tick that woke at `now` and has looked at the first `i` agents. */
  ghost predicate MidTick(due: seq<real>, own: seq<int>, floor: int, now: real, clock: real, ran: set<nat>, i: nat, maxRun: real)
    requires |due| == |own|
  {
    && AllBelow(ran, i)
    && now <= clock <= now + Times(|ran|, maxRun)
    && (forall a :: 0 <= a < i && a < |due| && a !in ran ==> now < due[a])
    && (forall a :: 0 <= a < |due| && a in ran ==> Refreshed(due[a], Interval(own[a], floor), clock, ran, a, maxRun))
  }

  lemma TickStarts(due: seq<real>, own: seq<int>, floor: int, now: real, maxRun: real)
    requires |due| == |own|
    ensures MidTick(due, own, floor, now, now, {}, 0, maxRun)
  {
  }

  lemma AgentRuns(due: seq<real>, own: seq<int>, floor: int, now: real, clock: real, ran: set<nat>, i: nat,
                  maxRun: real, d: real)
    requires |due| == |own| && i < |due| && MidTick(due, own, floor, now, clock, ran, i, maxRun)
    requires 0.0 <= d <= maxRun
    ensures MidTick(due[i := clock + d + Interval(own[i], floor)], own, floor, now, clock + d, ran + {i}, i + 1, maxRun)
  {
    hide Times, Interval, Refreshed;
    var due' := due[i := clock + d + Interval(own[i], floor)];
    assert i !in ran && |ran + {i}| == |ran| + 1;
    TimesAdd(|ran|, 0, maxRun);
    forall a | 0 <= a < |due| && a in ran + {i}
      ensures Refreshed(due'[a], Interval(own[a], floor), clock + d, ran + {i}, a, maxRun)
    {
      if a == i {
        JustRan(clock + d, Interval(own[i], floor), ran + {i}, i, maxRun);
      } else {
        OneMoreRan(due[a], Interval(own[a], floor), clock, ran, a, i, maxRun, d);
      }
    }
  }

  lemma JustRan(finish: real, interval: real, ran: set<nat>, a: nat, maxRun: real)
    requires maxRun >= 0.0
    ensures Refreshed(finish + interval, interval, finish, ran, a, maxRun)
  {
    TimesMonotone(0, |ran - {a}|, maxRun);
  }

  lemma OneMoreRan(due: real, interval: real, clock: real, ran: set<nat>, a: nat, i: nat, maxRun: real, d: real)
    requires Refreshed(due, interval, clock, ran, a, maxRun) && a != i && i !in ran && 0.0 <= d <= maxRun
    ensures Refreshed(due, interval, clock + d, ran + {i}, a, maxRun)
  {
    var others := ran - {a};
    assert ran + {i} - {a} == others + {i};
    assert |others + {i}| == |others| + 1;
    TimesAdd(|others|, 0, maxRun);
    hide Times;
  }

  lemma AgentSkipped(due: seq<real>, own: seq<int>, floor: int, now: real, clock: real, ran: set<nat>, i: nat, maxRun: real)
    requires |due| == |own| && i < |due| && MidTick(due, own, floor, now, clock, ran, i, maxRun)
    requires now < due[i]
    ensures MidTick(due, own, floor, now, clock, ran, i + 1, maxRun)
  {
  }

  lemma TickEnds(due: seq<real>, own: seq<int>, floor: int, now: real, clock: real, ran: set<nat>, maxRun: real)
    requires |due| == |own| && MidTick(due, own, floor, now, clock, ran, |due|, maxRun) && maxRun >= 0.0
    requires forall i :: 0 <= i < |own| ==> own[i] > 0
    ensures OnTime(due, clock, ran, maxRun)
    ensures Unhurried(own, floor, maxRun) ==> forall a :: a in ran ==> a < |due| && clock + HEARTBEAT < due[a]
  {
    hide Times, Refreshed, NotLate, Interval;
    forall a | 0 <= a < |due|
      ensures NotLate(due[a], clock, ran, a, maxRun)
      ensures Unhurried(own, floor, maxRun) && a in ran ==> clock + HEARTBEAT < due[a]
    {
      if a !in ran {
        MissedThisTick(due[a], now, clock, ran, a, maxRun);
      } else {
        RanThisTick(due[a], Interval(own[a], floor), clock, ran, a, |due|, maxRun);
      }
    }
  }

  lemma MissedThisTick(due: real, now: real, clock: real, ran: set<nat>, a: nat, maxRun: real)
    requires a !in ran && now < due && clock <= now + Times(|ran|, maxRun)
    ensures NotLate(due, clock, ran, a, maxRun)
  {
    assert ran - {a} == ran;
  }

  lemma RanThisTick(due: real, interval: real, clock: real, ran: set<nat>, a: nat, n: nat, maxRun: real)
    requires Refreshed(due, interval, clock, ran, a, maxRun) && interval > 0.0 && maxRun >= 0.0
    requires AllBelow(ran, n) && a < n
    ensures NotLate(due, clock, ran, a, maxRun)
    ensures interval > HEARTBEAT + Times(n - 1, maxRun) ==> clock + HEARTBEAT < due
  {
    OthersFit(ran - {a}, ran, a, n);
    TimesMonotone(|ran - {a}|, n - 1, maxRun);
  }

  /** The heart of the lateness bound: the waiting time is made of the runs of other agents in
      the tick that just missed the due time, one heartbeat, and the runs ahead in this tick. */
  lemma StartBound(due: seq<real>, own: seq<int>, floor: int, slept: real, clock: real,
                   last: set<nat>, ran: set<nat>, i: nat, due0: seq<real>, maxRun: real)
    requires |due| == |own| == |due0| && i < |due| && due[i] == due0[i] && maxRun >= 0.0
    requires OnTime(due0, slept, last, maxRun)
    requires MidTick(due, own, floor, slept + HEARTBEAT, clock, ran, i, maxRun)
    ensures clock < due[i] + HEARTBEAT + Times(2 * (|own| - 1), maxRun)
    ensures last !! ran ==> clock < due[i] + HEARTBEAT + Times(|own| - 1, maxRun)
  {
    hide Times, Refreshed, Interval;
    assert NotLate(due0[i], slept, last, i, maxRun);
    OthersFit(ran, last, i, |own|);
    WaitAddsUp(due[i], slept, clock, last, ran, i, |own|, maxRun);
  }

  lemma WaitAddsUp(due: real, slept: real, clock: real, last: set<nat>, ran: set<nat>, i: nat, n: nat, maxRun: real)
    requires NotLate(due, slept, last, i, maxRun) && clock <= slept + HEARTBEAT + Times(|ran|, maxRun)
    requires 0 <= |ran| <= n - 1 && |last - {i}| <= n - 1 && maxRun >= 0.0
    ensures clock < due + HEARTBEAT + Times(2 * (n - 1), maxRun)
    ensures |ran| + |last - {i}| <= n - 1 ==> clock < due + HEARTBEAT + Times(n - 1, maxRun)
  {
    hide Times;
    var sum := |ran| + |last - {i}|;
    TimesAdd(|ran|, |last - {i}|, maxRun);
    TimesMonotone(sum, 2 * (n - 1), maxRun);
    if sum <= n - 1 {
      TimesMonotone(sum, n - 1, maxRun);
    }
  }

  // ------------------------------------------------------------ spacing, over every run

  lemma LogGrows(log: seq<Tick>, own: seq<int>, floor: int, began: real, t: Tick)
    requires Spaced(log, own, floor, began)
    requires t.agent < |own| && t.due <= t.start && Scheduled(log, |log|, t.agent, t.due, own, floor, began)
    requires forall j :: 0 <= j < |log| && log[j].agent == t.agent && !log[j].raised ==>
               t.due >= log[j].finish + Interval(own[t.agent], floor)
    ensures Spaced(log + [t], own, floor, began)
  {
    hide Interval;
    var l := log + [t];
    forall k | 0 <= k < |l|
      ensures Scheduled(l, k, l[k].agent, l[k].due, own, floor, began)
    {
      assert Scheduled(log, k, l[k].agent, l[k].due, own, floor, began);
      ScheduledStill(log, t, k, l[k].agent, l[k].due, own, floor, began);
    }
    hide Scheduled;
  }

  /** What a due time came from is still in a longer log. */
  lemma ScheduledStill(log: seq<Tick>, t: Tick, k: nat, agent: nat, due: real, own: seq<int>, floor: int, began: real)
    requires k <= |log| && agent < |own| && Scheduled(log, k, agent, due, own, floor, began)
    ensures Scheduled(log + [t], k, agent, due, own, floor, began)
    ensures Scheduled(log + [t], |log| + 1, agent, due, own, floor, began)
  {
    hide CameFrom;
    if due != began + Interval(own[agent], floor) {
      var j :| 0 <= j < k && CameFrom(log[j], agent, due, own, floor);
      assert (log + [t])[j] == log[j];
    }
  }

  /** Each next due time lies an interval past every finish of that agent, and comes from one of them. */
  ghost predicate DueOk(due: seq<real>, log: seq<Tick>, own: seq<int>, floor: int, began: real)
    requires |due| == |own|
  {
    && (forall j :: 0 <= j < |log| && !log[j].raised ==>
          log[j].agent < |own| && due[log[j].agent] >= log[j].finish + Interval(own[log[j].agent], floor))
    && forall a :: 0 <= a < |own| ==> Scheduled(log, |log|, a, due[a], own, floor, began)
  }

  lemma DueMoves(due: seq<real>, log: seq<Tick>, own: seq<int>, floor: int, began: real, t: Tick)
    requires |due| == |own| && DueOk(due, log, own, floor, began) && t.agent < |own|
    requires t.due == due[t.agent] && t.due <= t.start <= t.finish && Interval(own[t.agent], floor) >= 0.0
    ensures t.raised ==> DueOk(due, log + [t], own, floor, began)
    ensures !t.raised ==> DueOk(due[t.agent := t.finish + Interval(own[t.agent], floor)], log + [t], own, floor, began)
  {
    var l := log + [t];
    var due' := due[t.agent := t.finish + Interval(own[t.agent], floor)];
    hide Interval;
    assert l[|log|] == t;
    forall a | 0 <= a < |own|
      ensures Scheduled(l, |l|, a, due[a], own, floor, began)
      ensures !t.raised ==> Scheduled(l, |l|, a, due'[a], own, floor, began)
    {
      ScheduledStill(log, t, |log|, a, due[a], own, floor, began);
      assert !t.raised ==> CameFrom(l[|log|], t.agent, due'[t.agent], own, floor);
    }
    hide Scheduled;
  }

  /** What every state of the loop satisfies. */
  ghost predicate Orderly(l: Loop, own: seq<int>, floor: int, began: real)
    requires |l.due| == |own|
  {
    Spaced(l.log, own, floor, began) && DueOk(l.due, l.log, own, floor, began)
  }

  lemma RunLogged(l: Loop, own: seq<int>, floor: int, began: real, t: Tick)
    requires |l.due| == |own| && t.agent < |own| && Orderly(l, own, floor, began)
    requires t.due == l.due[t.agent] && t.due <= t.start <= t.finish && own[t.agent] > 0
    ensures Orderly(Loop(if t.raised then l.due else l.due[t.agent := t.finish + Interval(own[t.agent], floor)],
                         t.finish, l.log + [t]), own, floor, began)
  {
    LogGrows(l.log, own, floor, began, t);
    DueMoves(l.due, l.log, own, floor, began, t);
    hide Interval, Spaced, DueOk;
  }

  lemma {:induction false} VisitsAreOrderly(l: Loop, own: seq<int>, floor: int, began: real, course: Course, maxRun: real, t: nat, n: nat)
    requires |l.due| == |own| && n <= |own| && AllPositive(own) && Takes(course, maxRun) && Orderly(l, own, floor, began)
    ensures var r := Visits(l, own, floor, l.clock, course, t, n).0;
            Orderly(r, own, floor, began) && r.clock >= l.clock
  {
    hide Orderly, Interval;
    if n > 0 {
      VisitsAreOrderly(l, own, floor, began, course, maxRun, t, n - 1);
      var (before, stopped) := Visits(l, own, floor, l.clock, course, t, n - 1);
      if !stopped && l.clock >= before.due[n - 1] {
        var finish := before.clock + course.dur(t, n - 1);
        RunLogged(before, own, floor, began, Tick(n - 1, before.due[n - 1], before.clock, finish, course.raises(t, n - 1)));
      }
    }
  }

  /** In every run of the loop, raising runs included, starts are spaced. */
  lemma {:induction false} RunIsSpaced(own: seq<int>, floor: int, began: real, course: Course, maxRun: real, ticks: nat)
    requires AllPositive(own) && Takes(course, maxRun)
    ensures Orderly(After(own, floor, began, course, ticks), own, floor, began)
    ensures Spaced(After(own, floor, began, course, ticks).log, own, floor, began)
  {
    hide Spaced, DueOk;
    BeginIsOrderly(own, floor, began);
    if ticks > 0 {
      var l := After(own, floor, began, course, ticks - 1);
      RunIsSpaced(own, floor, began, course, maxRun, ticks - 1);
      assert Orderly(Wake(l), own, floor, began);
      hide Orderly, Visits;
      VisitsAreOrderly(Wake(l), own, floor, began, course, maxRun, ticks - 1, |own|);
    }
    OrderlyIsSpaced(After(own, floor, began, course, ticks), own, floor, began);
  }

  lemma BeginIsOrderly(own: seq<int>, floor: int, began: real)
    ensures Orderly(Begin(own, floor, began), own, floor, began)
  {
  }

  lemma OrderlyIsSpaced(l: Loop, own: seq<int>, floor: int, began: real)
    requires |l.due| == |own| && Orderly(l, own, floor, began)
    ensures Spaced(l.log, own, floor, began)
  {
  }

  /** A raise costs everyone a heartbeat: nothing starts sooner than that after it. */
  ghost predicate RaisesWait(log: seq<Tick>) {
    forall j, k :: 0 <= j < k < |log| && log[j].raised ==> log[k].start >= log[j].finish + HEARTBEAT
  }

  ghost predicate RaisesOver(l: Loop) {
    RaisesWait(l.log) && forall j :: 0 <= j < |l.log| && l.log[j].raised ==> l.log[j].finish + HEARTBEAT <= l.clock
  }

  lemma {:induction false} VisitsWait(l: Loop, own: seq<int>, floor: int, course: Course, maxRun: real, t: nat, n: nat)
    requires |l.due| == |own| && n <= |own| && Takes(course, maxRun)
    requires RaisesOver(l) && forall j :: 0 <= j < |l.log| ==> l.log[j].finish <= l.clock
    ensures var (r, stopped) := Visits(l, own, floor, l.clock, course, t, n);
            && RaisesWait(r.log) && (forall j :: 0 <= j < |r.log| ==> r.log[j].finish <= r.clock)
            && (!stopped ==> RaisesOver(r))
  {
    hide Interval;
    if n > 0 {
      VisitsWait(l, own, floor, course, maxRun, t, n - 1);
    }
  }

  /** A run that raises is not retried, and no other agent runs, until a heartbeat after it ended. */
  lemma {:induction false} RaiseCostsHeartbeat(own: seq<int>, floor: int, began: real, course: Course, maxRun: real, ticks: nat)
    requires Takes(course, maxRun)
    ensures var l := After(own, floor, began, course, ticks);
            RaisesWait(l.log) && forall j :: 0 <= j < |l.log| ==> l.log[j].finish <= l.clock
  {
    if ticks > 0 {
      RaiseCostsHeartbeat(own, floor, began, course, maxRun, ticks - 1);
      VisitsWait(Wake(After(own, floor, began, course, ticks - 1)), own, floor, course, maxRun, ticks - 1, |own|);
      hide Visits;
    }
  }

  // ------------------------------------------------------------ nothing goes unlogged

  /** How long the logged runs took together. */
  function Busy(log: seq<Tick>): real {
    if log == [] then 0.0 else Busy(log[..|log| - 1]) + (log[|log| - 1].finish - log[|log| - 1].start)
  }

  lemma BusyMore(log: seq<Tick>, t: Tick)
    ensures Busy(log + [t]) == Busy(log) + (t.finish - t.start)
  {
    assert (log + [t])[..|log|] == log;
  }

  lemma VisitTakesTime(l: Loop, own: seq<int>, floor: int, now: real, course: Course, t: nat, i: nat)
    requires |l.due| == |own| && i < |own|
    ensures var r := Visit(l, own, floor, now, course, t, i); r.clock - Busy(r.log) == l.clock - Busy(l.log)
  {
    hide Busy, Interval;
    BusyMore(l.log, Tick(i, l.due[i], l.clock, l.clock + course.dur(t, i), course.raises(t, i)));
  }

  lemma {:induction false} VisitsTakeTime(l: Loop, own: seq<int>, floor: int, now: real, course: Course, t: nat, n: nat)
    requires |l.due| == |own| && n <= |own|
    ensures var r := Visits(l, own, floor, now, course, t, n).0;
            r.clock - Busy(r.log) == l.clock - Busy(l.log)
  {
    hide Busy, Visit;
    if n > 0 {
      VisitsTakeTime(l, own, floor, now, course, t, n - 1);
      VisitTakesTime(Visits(l, own, floor, now, course, t, n - 1).0, own, floor, now, course, t, n - 1);
    }
  }

  /** The clock is made of heartbeats and logged runs: nothing runs without being logged. */
  lemma {:induction false} ClockAccounts(own: seq<int>, floor: int, began: real, course: Course, ticks: nat)
    ensures var l := After(own, floor, began, course, ticks);
            l.clock == began + Times(ticks, HEARTBEAT) + Busy(l.log)
  {
    if ticks == 0 {
      assert Times(0, HEARTBEAT) == 0.0;
    } else {
      ClockAccounts(own, floor, began, course, ticks - 1);
      var l := After(own, floor, began, course, ticks - 1);
      VisitsTakeTime(Wake(l), own, floor, l.clock + HEARTBEAT, course, ticks - 1, |own|);
      TimesAdd(ticks - 1, 0, HEARTBEAT);
      hide Visits, Busy, Times;
    }
  }

  /** An entry tells how long its agent's run in tick `t` took, and whether it raised. */
  predicate IsRunIn(e: Tick, course: Course, t: nat) {
    e.finish == e.start + course.dur(t, e.agent) && e.raised == course.raises(t, e.agent)
  }

  ghost predicate IsRun(e: Tick, course: Course, ticks: nat) {
    exists t: nat :: t < ticks && IsRunIn(e, course, t)
  }

  ghost predicate AllTrue(log: seq<Tick>, course: Course, ticks: nat) {
    forall k :: 0 <= k < |log| ==> IsRun(log[k], course, ticks)
  }

  lemma RunLater(e: Tick, course: Course, ticks: nat)
    requires IsRun(e, course, ticks)
    ensures IsRun(e, course, ticks + 1)
  {
    var t: nat :| t < ticks && IsRunIn(e, course, t);
    assert t < ticks + 1 && IsRunIn(e, course, t);
  }

  lemma TrueLater(log: seq<Tick>, course: Course, ticks: nat)
    requires AllTrue(log, course, ticks)
    ensures AllTrue(log, course, ticks + 1)
  {
    hide IsRun;
    forall k | 0 <= k < |log|
      ensures IsRun(log[k], course, ticks + 1)
    {
      RunLater(log[k], course, ticks);
    }
  }

  lemma OneMoreTrue(log: seq<Tick>, course: Course, t: nat, e: Tick)
    requires AllTrue(log, course, t + 1) && IsRunIn(e, course, t)
    ensures AllTrue(log + [e], course, t + 1)
  {
    assert IsRun(e, course, t + 1);
    hide IsRun;
  }

  lemma {:induction false} VisitsAreTrue(l: Loop, own: seq<int>, floor: int, now: real, course: Course, t: nat, n: nat)
    requires |l.due| == |own| && n <= |own| && AllTrue(l.log, course, t + 1)
    ensures AllTrue(Visits(l, own, floor, now, course, t, n).0.log, course, t + 1)
  {
    hide Interval, AllTrue;
    if n > 0 {
      VisitsAreTrue(l, own, floor, now, course, t, n - 1);
      var before := Visits(l, own, floor, now, course, t, n - 1).0;
      OneMoreTrue(before.log, course, t,
                  Tick(n - 1, before.due[n - 1], before.clock, before.clock + course.dur(t, n - 1), course.raises(t, n - 1)));
    }
  }

  /** Every entry of the log is what happened. */
  lemma {:induction false} LogIsTrue(own: seq<int>, floor: int, began: real, course: Course, ticks: nat)
    ensures AllTrue(After(own, floor, began, course, ticks).log, course, ticks)
  {
    if ticks > 0 {
      var l := After(own, floor, began, course, ticks - 1);
      LogIsTrue(own, floor, began, course, ticks - 1);
      TrueLater(l.log, course, ticks - 1);
      hide Visits, AllTrue;
      VisitsAreTrue(Wake(l), own, floor, l.clock + HEARTBEAT, course, ticks - 1, |own|);
    }
  }

  // ------------------------------------------------------------ lateness, over every run

  /** The agents among the first `n` that are due at `now`. */
  function DueNow(due: seq<real>, now: real, n: nat): set<nat> {
    set a: nat | a < n && a < |due| && now >= due[a]
  }

  /** Inside a tick that began as `l0`. */
  ghost predicate MidwayOk(l0: Loop, l: Loop, own: seq<int>, floor: int, n: nat, maxRun: real)
    requires |l0.due| == |l.due| == |own| && n <= |own|
  {
    && (forall a :: n <= a < |own| ==> l.due[a] == l0.due[a])
    && MidTick(l.due, own, floor, l0.clock + HEARTBEAT, l.clock, DueNow(l0.due, l0.clock + HEARTBEAT, n), n, maxRun)
    && AllPunctual(l.log, own, floor, maxRun)
  }

  lemma {:induction false} VisitsArePunctual(l0: Loop, last: set<nat>, own: seq<int>, floor: int, course: Course, maxRun: real, t: nat, n: nat)
    requires |l0.due| == |own| && n <= |own| && AllPositive(own) && Takes(course, maxRun) && NeverRaises(course)
    requires OnTime(l0.due, l0.clock, last, maxRun) && AllPunctual(l0.log, own, floor, maxRun)
    requires Unhurried(own, floor, maxRun) ==> forall a :: a in last ==> a < |own| && l0.clock + HEARTBEAT < l0.due[a]
    ensures var (r, stopped) := Visits(Wake(l0), own, floor, l0.clock + HEARTBEAT, course, t, n);
            !stopped && MidwayOk(l0, r, own, floor, n, maxRun)
  {
    hide MidTick, OnTime, Unhurried, AllPunctual, Times, Interval;
    var now := l0.clock + HEARTBEAT;
    if n == 0 {
      TickStarts(l0.due, own, floor, now, maxRun);
      assert DueNow(l0.due, now, 0) == {};
    } else {
      VisitsArePunctual(l0, last, own, floor, course, maxRun, t, n - 1);
      var before := Visits(Wake(l0), own, floor, now, course, t, n - 1).0;
      hide MidwayOk;
      if now < before.due[n - 1] {
        SkipMidway(l0, before, own, floor, n - 1, maxRun);
      } else {
        RunMidway(l0, last, before, own, floor, n - 1, maxRun, course.dur(t, n - 1));
      }
    }
  }

  lemma SkipMidway(l0: Loop, l: Loop, own: seq<int>, floor: int, i: nat, maxRun: real)
    requires |l0.due| == |l.due| == |own| && i < |own| && MidwayOk(l0, l, own, floor, i, maxRun)
    requires l0.clock + HEARTBEAT < l.due[i]
    ensures MidwayOk(l0, l, own, floor, i + 1, maxRun)
  {
    hide MidTick, AllPunctual;
    var now := l0.clock + HEARTBEAT;
    assert DueNow(l0.due, now, i + 1) == DueNow(l0.due, now, i);
    AgentSkipped(l.due, own, floor, now, l.clock, DueNow(l0.due, now, i), i, maxRun);
  }

  lemma RunMidway(l0: Loop, last: set<nat>, l: Loop, own: seq<int>, floor: int, i: nat, maxRun: real, d: real)
    requires |l0.due| == |l.due| == |own| && i < |own| && MidwayOk(l0, l, own, floor, i, maxRun)
    requires l0.clock + HEARTBEAT >= l.due[i] && 0.0 <= d <= maxRun && OnTime(l0.due, l0.clock, last, maxRun)
    requires Unhurried(own, floor, maxRun) ==> forall a :: a in last ==> a < |own| && l0.clock + HEARTBEAT < l0.due[a]
    ensures MidwayOk(l0, Loop(l.due[i := l.clock + d + Interval(own[i], floor)], l.clock + d,
                              l.log + [Tick(i, l.due[i], l.clock, l.clock + d, false)]), own, floor, i + 1, maxRun)
  {
    hide MidTick, OnTime, Unhurried, AllPunctual, Times, Interval;
    var now := l0.clock + HEARTBEAT;
    var ran := DueNow(l0.due, now, i);
    assert DueNow(l0.due, now, i + 1) == ran + {i};
    assert Unhurried(own, floor, maxRun) ==> last !! ran;
    StartBound(l.due, own, floor, l0.clock, l.clock, last, ran, i, l0.due, maxRun);
    AgentRuns(l.due, own, floor, now, l.clock, ran, i, maxRun, d);
    OneMorePunctual(l.log, own, floor, maxRun, Tick(i, l.due[i], l.clock, l.clock + d, false));
  }

  lemma OneMorePunctual(log: seq<Tick>, own: seq<int>, floor: int, maxRun: real, t: Tick)
    requires AllPunctual(log, own, floor, maxRun) && own != []
    requires t.start < t.due + HEARTBEAT + Times(2 * (|own| - 1), maxRun)
    requires Unhurried(own, floor, maxRun) ==> t.start < t.due + HEARTBEAT + Times(|own| - 1, maxRun)
    ensures AllPunctual(log + [t], own, floor, maxRun)
  {
    hide Times, Unhurried;
  }

  /** In every run without a raise each start is before due + heartbeat + two rounds of the other
      agents' runs, or one round when every interval is long against a round; and nobody is
      forgotten: after a tick, an agent that has not run is not yet that late. */
  lemma {:induction false} RunIsPunctual(own: seq<int>, floor: int, began: real, course: Course, maxRun: real, ticks: nat)
    returns (last: set<nat>)
    requires AllPositive(own) && Takes(course, maxRun) && NeverRaises(course)
    ensures var l := After(own, floor, began, course, ticks);
            && AllPunctual(l.log, own, floor, maxRun)
            && (forall a :: 0 <= a < |own| ==> l.clock < l.due[a] + Times(|own| - 1, maxRun))
            && OnTime(l.due, l.clock, last, maxRun)
            && (Unhurried(own, floor, maxRun) ==> forall a :: a in last ==> a < |own| && l.clock + HEARTBEAT < l.due[a])
  {
    hide MidTick, OnTime, Unhurried, AllPunctual, Times, Interval, NotLate;
    var l := After(own, floor, began, course, ticks);
    if ticks == 0 {
      last := {};
      LoopStarts(l.due, own, floor, began, maxRun);
    } else {
      var before := RunIsPunctual(own, floor, began, course, maxRun, ticks - 1);
      var l0 := After(own, floor, began, course, ticks - 1);
      VisitsArePunctual(l0, before, own, floor, course, maxRun, ticks - 1, |own|);
      last := DueNow(l0.due, l0.clock + HEARTBEAT, |own|);
      TickEnds(l.due, own, floor, l0.clock + HEARTBEAT, l.clock, last, maxRun);
    }
    NobodyForgotten(l.due, l.clock, last, maxRun);
  }

  lemma LoopStarts(due: seq<real>, own: seq<int>, floor: int, began: real, maxRun: real)
    requires |due| == |own| && AllPositive(own) && forall i :: 0 <= i < |own| ==> due[i] == began + Interval(own[i], floor)
    requires maxRun >= 0.0
    ensures OnTime(due, began, {}, maxRun) && AllPunctual([], own, floor, maxRun)
  {
    forall a: nat | a < |due|
      ensures NotLate(due[a], began, {}, a, maxRun)
    {
      TimesMonotone(0, |{} - {a}|, maxRun);
    }
  }

  lemma NobodyForgotten(due: seq<real>, clock: real, ran: set<nat>, maxRun: real)
    requires OnTime(due, clock, ran, maxRun) && maxRun >= 0.0
    ensures forall a :: 0 <= a < |due| ==> clock < due[a] + Times(|due| - 1, maxRun)
  {
    forall a | 0 <= a < |due|
      ensures clock < due[a] + Times(|due| - 1, maxRun)
    {
      assert NotLate(due[a], clock, ran, a, maxRun);
      OthersFit(ran - {a}, ran, a, |due|);
      TimesMonotone(|ran - {a}|, |due| - 1, maxRun);
    }
  }
}
