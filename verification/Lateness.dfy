/** How late the scheduler (backend/app/scheduler.py) can really be: the bounds on lateness cannot be
    improved, and when the heartbeat alone is one. */
module Lateness {
  import opened Scheduler

  // ------------------------------------------------------------ the bound cannot be improved

  /** Every agent but the last, `p` of them, asks to run every `every` seconds. */
  ghost predicate Crowded(own: seq<int>, p: nat, every: nat) {
    |own| == p + 1 && every > 0 && forall i :: 0 <= i < p ==> own[i] == every
  }

  /** In tick `t` each of them takes `d`. */
  ghost predicate AllTake(course: Course, t: nat, p: nat, d: real) {
    d >= 0.0 && forall i :: 0 <= i < p ==> course.dur(t, i) == d
  }

  /** They are all due by the next tick; the last agent is still due at `lastDue`. */
  ghost predicate Waiting(l: Loop, p: nat, lastDue: real, clock: real) {
    |l.due| == p + 1 && l.clock == clock && l.due[p] == lastDue && forall i :: 0 <= i < p ==> l.due[i] <= clock + HEARTBEAT
  }

  /** They all ran in the tick that woke at `woke`, and are due again an interval after their finish. */
  ghost predicate Rested(l: Loop, p: nat, every: nat, lastDue: real, woke: real, clock: real) {
    && |l.due| == p + 1 && l.clock == clock && l.due[p] == lastDue
    && forall i :: 0 <= i < p ==> woke + every as real <= l.due[i] <= clock + every as real
  }

  lemma {:induction false} CrowdRuns(l: Loop, own: seq<int>, every: nat, course: Course, t: nat, p: nat, d: real, lastDue: real, m: nat)
    requires Crowded(own, p, every) && NeverRaises(course) && AllTake(course, t, p, d) && m <= p
    requires |l.due| == p + 1 && l.due[p] == lastDue && forall i :: 0 <= i < p ==> l.due[i] <= l.clock
    ensures var (r, stopped) := Visits(l, own, 0, l.clock, course, t, m);
            && !stopped && r.clock == l.clock + Times(m, d) && r.due[p] == lastDue
            && (forall i :: 0 <= i < m ==> l.clock + every as real <= r.due[i] <= r.clock + every as real)
            && forall i :: m <= i < p ==> r.due[i] == l.due[i]
  {
    if m > 0 {
      CrowdRuns(l, own, every, course, t, p, d, lastDue, m - 1);
      TimesAdd(m - 1, 0, d);
      TimesMonotone(0, m - 1, d);
      hide Times;
    }
  }

  /** A tick the last agent just misses. */
  lemma TickMissed(l: Loop, own: seq<int>, every: nat, course: Course, t: nat, p: nat, d: real, lastDue: real, clock: real)
    requires Crowded(own, p, every) && NeverRaises(course) && AllTake(course, t, p, d)
    requires Waiting(l, p, lastDue, clock) && clock + HEARTBEAT < lastDue
    ensures Rested(OneTick(l, own, 0, course, t), p, every, lastDue, clock + HEARTBEAT, clock + HEARTBEAT + Times(p, d))
  {
    CrowdRuns(Wake(l), own, every, course, t, p, d, lastDue, p);
    hide Times;
  }

  /** The tick that catches it: everyone else runs first. */
  lemma TickCaught(l: Loop, own: seq<int>, every: nat, course: Course, t: nat, p: nat, d: real, lastDue: real, clock: real)
    requires Crowded(own, p, every) && NeverRaises(course) && AllTake(course, t, p, d)
    requires Waiting(l, p, lastDue, clock) && clock + HEARTBEAT >= lastDue
    ensures var log := OneTick(l, own, 0, course, t).log;
            log != [] && log[|log| - 1].due == lastDue && log[|log| - 1].start == clock + HEARTBEAT + Times(p, d)
  {
    CrowdRuns(Wake(l), own, every, course, t, p, d, lastDue, p);
    hide Times;
  }

  /** Runs take `e` in the first `k` ticks and `d` from then on. */
  function TwoPaces(k: nat, e: real, d: real): Course {
    Course((t: nat, i: nat) => if t < k then e else d, (t: nat, i: nat) => false)
  }

  lemma {:induction false} MissesAll(own: seq<int>, p: nat, k: nat, e: real, d: real, t: nat)
    requires Crowded(own, p, 1) && t <= k && e >= 0.0
    requires Times(k, HEARTBEAT + Times(p, e)) + HEARTBEAT < Interval(own[p], 0)
    ensures Waiting(After(own, 0, 0.0, TwoPaces(k, e, d), t), p, Interval(own[p], 0), Times(t, HEARTBEAT + Times(p, e)))
  {
    if t > 0 {
      MissesAll(own, p, k, e, d, t - 1);
      TimesMonotone(0, p, e);
      TimesMonotone(t - 1, k, HEARTBEAT + Times(p, e));
      TimesAdd(t - 1, 0, HEARTBEAT + Times(p, e));
      var course := TwoPaces(k, e, d);
      TickMissed(After(own, 0, 0.0, course, t - 1), own, 1, course, t - 1, p, e, Interval(own[p], 0), Times(t - 1, HEARTBEAT + Times(p, e)));
      hide Times;
    }
  }

  /** The last start in the log is this much later than it was due. */
  ghost predicate EndsLate(log: seq<Tick>, lateness: real) {
    log != [] && log[|log| - 1].start == log[|log| - 1].due + lateness
  }

  /** The last agent misses tick `k` by `margin`, then waits for two rounds of all the others. */
  lemma MissedByMargin(own: seq<int>, p: nat, k: nat, e: real, d: real, margin: real)
    requires Crowded(own, p, 1) && e >= 0.0 && d >= 0.0 && 0.0 < margin <= 1.0
    requires Interval(own[p], 0) == Times(k, HEARTBEAT + Times(p, e)) + HEARTBEAT + margin
    ensures EndsLate(After(own, 0, 0.0, TwoPaces(k, e, d), k + 2).log, HEARTBEAT + Times(2 * p, d) - margin)
  {
    var course, missed, due := TwoPaces(k, e, d), Times(k, HEARTBEAT + Times(p, e)), Interval(own[p], 0);
    MissesAll(own, p, k, e, d, k);
    TimesMonotone(0, p, d);
    TimesAdd(p, p, d);
    hide Times, Interval;
    TickMissed(After(own, 0, 0.0, course, k), own, 1, course, k, p, d, due, missed);
    TickCaught(After(own, 0, 0.0, course, k + 1), own, 1, course, k + 1, p, d, due, missed + HEARTBEAT + Times(p, d));
    hide OneTick, Waiting;
  }

  /** How many ticks, and what pace, use up a second less `margin`. */
  lemma PaceFor(p: nat, maxRun: real, margin: real) returns (k: nat, e: real)
    requires p >= 1 && maxRun > 0.0 && 0.0 < margin <= 1.0
    ensures 0.0 <= e <= maxRun && Times(p, e) <= 1.0 && Times(k, Times(p, e)) == 1.0 - margin
  {
    k := (1.0 / maxRun).Floor + 1;
    var ticks, agents := k as real, p as real;
    var each := (1.0 - margin) / ticks;
    e := each / agents;
    EnoughTicks(k, maxRun);
    Share(1.0 - margin, ticks, maxRun);
    Share(1.0 - margin, ticks, 1.0);
    assert each * (agents - 1.0) >= 0.0;
    Share(each, agents, each);
    assert Times(p, e) == each;
    assert Times(k, each) == each * ticks;
  }

  lemma Share(x: real, parts: real, bound: real)
    requires parts > 0.0 && 0.0 <= x <= bound * parts
    ensures 0.0 <= x / parts <= bound && x / parts * parts == x
  {
    var share := x / parts;
    assert share * parts == x;
    if share > bound {
      assert (share - bound) * parts > 0.0;
    }
  }

  lemma EnoughTicks(k: nat, maxRun: real)
    requires maxRun > 0.0 && k as real > 1.0 / maxRun
    ensures maxRun * k as real >= 1.0
  {
    assert 1.0 / maxRun * maxRun == 1.0;
    assert (k as real - 1.0 / maxRun) * maxRun >= 0.0;
  }

  lemma TimesSplit(k: nat, a: real, b: real)
    ensures Times(k, a + b) == Times(k, a) + Times(k, b)
  {
  }

  /** No smaller bound will do: with two agents or more, some run is late by the heartbeat and two
      rounds of the others' longest runs, less any margin. */
  lemma LatenessIsTight(n: nat, maxRun: real, margin: real) returns (own: seq<int>, course: Course, ticks: nat)
    requires n >= 2 && maxRun > 0.0 && 0.0 < margin <= 1.0
    ensures |own| == n && AllPositive(own) && Takes(course, maxRun) && NeverRaises(course)
    ensures EndsLate(After(own, 0, 0.0, course, ticks).log, HEARTBEAT + Times(2 * (n - 1), maxRun) - margin)
  {
    var p := n - 1;
    var k, e := PaceFor(p, maxRun, margin);
    own := seq(n, i => if i < p then 1 else 30 * (k + 1) + 1);
    course, ticks := TwoPaces(k, e, maxRun), k + 2;
    TimesSplit(k, HEARTBEAT, Times(p, e));
    assert Interval(own[p], 0) == Times(k, HEARTBEAT) + HEARTBEAT + 1.0;
    hide Times;
    MissedByMargin(own, p, k, e, maxRun, margin);
    hide After;
  }

  // ------------------------------------------------------------ long intervals

  lemma {:induction false} NobodyBefore(l: Loop, own: seq<int>, floor: int, course: Course, t: nat, n: nat)
    requires |l.due| == |own| && n <= |own| && forall i :: 0 <= i < n ==> l.clock < l.due[i]
    ensures Visits(l, own, floor, l.clock, course, t, n) == (l, false)
  {
    if n > 0 {
      NobodyBefore(l, own, floor, course, t, n - 1);
    }
  }

  /** `j` ticks in which nobody is due. */
  lemma {:induction false} NobodyDue(own: seq<int>, floor: int, course: Course, t: nat, j: nat)
    requires var l := After(own, floor, 0.0, course, t);
             forall i :: 0 <= i < |own| ==> l.clock + Times(j, HEARTBEAT) < l.due[i]
    ensures var l := After(own, floor, 0.0, course, t);
            After(own, floor, 0.0, course, t + j) == l.(clock := l.clock + Times(j, HEARTBEAT))
  {
    if j > 0 {
      TimesAdd(j - 1, 0, HEARTBEAT);
      hide Times;
      NobodyDue(own, floor, course, t, j - 1);
      var l := After(own, floor, 0.0, course, t + j - 1);
      NobodyBefore(Wake(l), own, floor, course, t + j - 1, |own|);
    }
  }

  /** The tick of the `r`-th round, when the others are due every `m` heartbeats. */
  function RoundTick(m: nat, r: nat): nat
    requires m > 0
  {
    if r == 0 then m - 1 else RoundTick(m, r - 1) + m
  }

  lemma {:induction false} RoundsRise(m: nat, r: nat, k: nat)
    requires m > 0 && r < k
    ensures RoundTick(m, r) < RoundTick(m, k)
    decreases k
  {
    if r < k - 1 {
      RoundsRise(m, r, k - 1);
    }
  }

  /** When the `r`-th round begins, if the `p` others take `e` in each earlier one. */
  function RoundStart(m: nat, p: nat, e: real, r: nat): real {
    Times(r, Times(m, HEARTBEAT) + Times(p, e)) + Times(m, HEARTBEAT)
  }

  lemma RoundStep(m: nat, p: nat, e: real, r: nat)
    requires e >= 0.0
    ensures RoundStart(m, p, e, r + 1) == RoundStart(m, p, e, r) + Times(p, e) + Times(m, HEARTBEAT)
  {
    TimesAdd(r, 0, Times(m, HEARTBEAT) + Times(p, e));
    hide Times;
  }

  lemma {:induction false} StartsRise(m: nat, p: nat, e: real, r: nat, k: nat)
    requires e >= 0.0 && r <= k
    ensures RoundStart(m, p, e, r) <= RoundStart(m, p, e, k)
    decreases k
  {
    if r < k {
      StartsRise(m, p, e, r, k - 1);
      RoundStep(m, p, e, k - 1);
      TimesMonotone(0, p, e);
      TimesMonotone(0, m, HEARTBEAT);
    }
    hide RoundStart;
  }

  /** The others run together every `m` heartbeats; before the `r`-th round all are due, and the
      last agent is not. */
  lemma {:induction false} RoundsPass(own: seq<int>, p: nat, m: nat, k: nat, e: real, d: real, r: nat)
    requires m > 0 && Crowded(own, p, 30 * m) && r <= k && e >= 0.0 && Times(p, e) < HEARTBEAT
    requires RoundStart(m, p, e, k) < Interval(own[p], 0)
    ensures Waiting(After(own, 0, 0.0, TwoPaces(RoundTick(m, k), e, d), RoundTick(m, r)), p, Interval(own[p], 0),
                    RoundStart(m, p, e, r) - HEARTBEAT)
  {
    hide TwoPaces, Waiting;
    StartsRise(m, p, e, r, k);
    if r == 0 {
      TimesMonotone(0, m, HEARTBEAT);
      FirstRound(own, p, m, e, TwoPaces(RoundTick(m, k), e, d));
    } else {
      RoundsPass(own, p, m, k, e, d, r - 1);
      RoundsRise(m, r - 1, k);
      hide RoundStart;
      NextRound(own, p, m, RoundTick(m, k), e, d, r - 1, RoundTick(m, r - 1));
    }
  }

  lemma NextRound(own: seq<int>, p: nat, m: nat, k: nat, e: real, d: real, r: nat, t: nat)
    requires m > 0 && Crowded(own, p, 30 * m) && t < k && e >= 0.0 && Times(p, e) < HEARTBEAT
    requires RoundStart(m, p, e, r + 1) < Interval(own[p], 0)
    requires Waiting(After(own, 0, 0.0, TwoPaces(k, e, d), t), p, Interval(own[p], 0), RoundStart(m, p, e, r) - HEARTBEAT)
    ensures Waiting(After(own, 0, 0.0, TwoPaces(k, e, d), t + m), p, Interval(own[p], 0), RoundStart(m, p, e, r + 1) - HEARTBEAT)
  {
    var course, lastDue, start := TwoPaces(k, e, d), Interval(own[p], 0), RoundStart(m, p, e, r);
    RoundStep(m, p, e, r);
    TimesMonotone(0, p, e);
    TimesMonotone(0, m, HEARTBEAT);
    assert AllTake(course, t, p, e) && NeverRaises(course);
    hide RoundStart, Times, Interval, Waiting, Rested, OneTick, TwoPaces;
    TickMissed(After(own, 0, 0.0, course, t), own, 30 * m, course, t, p, e, lastDue, start - HEARTBEAT);
    assert start - HEARTBEAT + HEARTBEAT == start;
    IdleRound(own, p, m, e, course, t + 1, lastDue, start);
  }

  lemma FirstRound(own: seq<int>, p: nat, m: nat, e: real, course: Course)
    requires m > 0 && Crowded(own, p, 30 * m) && Times(m, HEARTBEAT) < Interval(own[p], 0)
    ensures Waiting(After(own, 0, 0.0, course, m - 1), p, Interval(own[p], 0), RoundStart(m, p, e, 0) - HEARTBEAT)
  {
    TimesAdd(m - 1, 0, HEARTBEAT);
    assert Times(m, HEARTBEAT) == (30 * m) as real;
    assert Times(0, Times(m, HEARTBEAT) + Times(p, e)) == 0.0;
    hide Times;
    NobodyDue(own, 0, course, 0, m - 1);
  }

  /** After a round, the ticks up to the next one find nobody due. */
  lemma IdleRound(own: seq<int>, p: nat, m: nat, e: real, course: Course, t: nat, lastDue: real, start: real)
    requires m > 0 && Crowded(own, p, 30 * m) && 0.0 <= Times(p, e) < HEARTBEAT
    requires Rested(After(own, 0, 0.0, course, t), p, 30 * m, lastDue, start, start + Times(p, e))
    requires start + Times(p, e) + Times(m, HEARTBEAT) <= lastDue
    ensures Waiting(After(own, 0, 0.0, course, t + m - 1), p, lastDue, start + Times(p, e) + Times(m, HEARTBEAT) - HEARTBEAT)
  {
    TimesAdd(m - 1, 0, HEARTBEAT);
    assert Times(m, HEARTBEAT) == (30 * m) as real;
    hide Times;
    NobodyDue(own, 0, course, t, m - 1);
  }

  /** The last agent misses round `k` by `margin`; a heartbeat after that round nobody else is due. */
  lemma MissedRound(own: seq<int>, p: nat, m: nat, k: nat, e: real, d: real, margin: real)
    requires m > 0 && Crowded(own, p, 30 * m) && e >= 0.0 && d >= 0.0 && 0.0 < margin <= 1.0
    requires Times(p, e) < HEARTBEAT && HEARTBEAT + Times(p, d) < (30 * m) as real
    requires Interval(own[p], 0) == RoundStart(m, p, e, k) + margin
    ensures EndsLate(After(own, 0, 0.0, TwoPaces(RoundTick(m, k), e, d), RoundTick(m, k) + 2).log, HEARTBEAT + Times(p, d) - margin)
  {
    var course, t, start, due := TwoPaces(RoundTick(m, k), e, d), RoundTick(m, k), RoundStart(m, p, e, k), Interval(own[p], 0);
    RoundsPass(own, p, m, k, e, d, k);
    TimesMonotone(0, p, d);
    hide Times, Interval, RoundStart, RoundTick;
    TickMissed(After(own, 0, 0.0, course, t), own, 30 * m, course, t, p, d, due, start - HEARTBEAT);
    OnlyLastRuns(After(own, 0, 0.0, course, t + 1), own, p, m, course, t + 1, due, start, start + Times(p, d));
    hide OneTick, Rested, Waiting;
  }

  /** A tick in which only the last agent is due. */
  lemma OnlyLastRuns(l: Loop, own: seq<int>, p: nat, m: nat, course: Course, t: nat, lastDue: real, woke: real, clock: real)
    requires Crowded(own, p, 30 * m) && Rested(l, p, 30 * m, lastDue, woke, clock)
    requires lastDue <= clock + HEARTBEAT < woke + (30 * m) as real
    ensures var log := OneTick(l, own, 0, course, t).log;
            log != [] && log[|log| - 1].due == lastDue && log[|log| - 1].start == clock + HEARTBEAT
  {
    NobodyBefore(Wake(l), own, 0, course, t, p);
  }

  lemma {:induction false} TimesOfNat(k: nat, x: nat)
    ensures Times(k, x as real) == (k * x) as real
  {
    if k > 0 {
      TimesOfNat(k - 1, x);
      TimesAdd(k - 1, 0, x as real);
      assert k * x == (k - 1) * x + x;
      hide Times;
    }
  }

  /** Round `k` begins a second less `margin` past a whole number of heartbeats. */
  lemma LastInterval(m: nat, p: nat, k: nat, e: real, margin: real)
    requires Times(k, Times(p, e)) == 1.0 - margin
    ensures RoundStart(m, p, e, k) + margin == (k * (30 * m) + 30 * m + 1) as real
  {
    assert Times(m, HEARTBEAT) == (30 * m) as real;
    TimesSplit(k, Times(m, HEARTBEAT), Times(p, e));
    TimesOfNat(k, 30 * m);
    hide Times;
  }

  /** The one-round bound for long intervals cannot be improved either: however long the intervals are
      asked to be, some run is late by the heartbeat and a round of the others' longest runs, less any margin. */
  lemma UnhurriedIsTight(n: nat, maxRun: real, margin: real, least: nat)
    returns (own: seq<int>, course: Course, ticks: nat)
    requires n >= 2 && maxRun > 0.0 && 0.0 < margin <= 1.0
    ensures |own| == n && AllPositive(own) && (forall i :: 0 <= i < n ==> own[i] >= least)
    ensures Unhurried(own, 0, maxRun) && Takes(course, maxRun) && NeverRaises(course)
    ensures EndsLate(After(own, 0, 0.0, course, ticks).log, HEARTBEAT + Times(n - 1, maxRun) - margin)
  {
    var p := n - 1;
    var k, e := PaceFor(p, maxRun, margin);
    TimesMonotone(0, p, maxRun);
    var m := Times(p, maxRun).Floor + least + 2;
    own := seq(n, i => if i < p then 30 * m else k * (30 * m) + 30 * m + 1);
    course, ticks := TwoPaces(RoundTick(m, k), e, maxRun), RoundTick(m, k) + 2;
    LastInterval(m, p, k, e, margin);
    hide After, RoundTick, RoundStart, Times;
    MissedRound(own, p, m, k, e, maxRun, margin);
  }

  // ------------------------------------------------------------ when the heartbeat alone is a bound

  ghost predicate OnHeartbeat(log: seq<Tick>) {
    forall k :: 0 <= k < |log| ==> log[k].start < log[k].due + HEARTBEAT
  }

  /** Every run of every `n` agents, none running longer than `maxRun`, starts each within a heartbeat. */
  ghost predicate HeartbeatBounds(n: nat, maxRun: real) {
    forall own, floor, began, course, ticks ::
      |own| == n && AllPositive(own) && Takes(course, maxRun) && NeverRaises(course) ==>
        OnHeartbeat(After(own, floor, began, course, ticks).log)
  }

  /** The exact condition: the heartbeat alone bounds lateness if and only if there is a single
      agent or runs take no time. */
  lemma HeartbeatBoundsIff(n: nat, maxRun: real)
    requires maxRun >= 0.0
    ensures HeartbeatBounds(n, maxRun) <==> n <= 1 || maxRun == 0.0
  {
    if n <= 1 || maxRun == 0.0 {
      forall own: seq<int>, floor, began, course, ticks |
        |own| == n && AllPositive(own) && Takes(course, maxRun) && NeverRaises(course)
        ensures OnHeartbeat(After(own, floor, began, course, ticks).log)
      {
        var last := RunIsPunctual(own, floor, began, course, maxRun, ticks);
        RunIsSpaced(own, floor, began, course, maxRun, ticks);
        NoOthersNoWait(After(own, floor, began, course, ticks).log, own, floor, began, maxRun);
      }
    } else {
      var others := Times(2 * (n - 1), maxRun);
      TimesMonotone(1, 2 * (n - 1), maxRun);
      assert Times(1, maxRun) == maxRun;
      var own, course, ticks := LatenessIsTight(n, maxRun, if others < 1.0 then others else 1.0);
      hide Times;
      assert !OnHeartbeat(After(own, 0, 0.0, course, ticks).log);
    }
  }

  lemma NoTime(k: nat, d: real)
    requires k == 0 || d == 0.0
    ensures Times(k, d) == 0.0
  {
  }

  lemma NoOthersNoWait(log: seq<Tick>, own: seq<int>, floor: int, began: real, maxRun: real)
    requires AllPunctual(log, own, floor, maxRun) && Spaced(log, own, floor, began)
    requires |own| <= 1 || maxRun == 0.0
    ensures OnHeartbeat(log)
  {
    hide Scheduled, Interval, Unhurried, Times;
    forall k | 0 <= k < |log|
      ensures log[k].start < log[k].due + HEARTBEAT
    {
      assert log[k].agent < |own|;
      NoTime(2 * (|own| - 1), maxRun);
    }
  }

  // ------------------------------------------------------------ a plain case

  /** Two agents with five-minute intervals: the first runs for 31 seconds, so the second, due at
      300, starts at 331. */
  lemma SecondIsLate()
    ensures var course := Course((t: nat, i: nat) => 31.0, (t: nat, i: nat) => false);
            After([300, 300], 300, 0.0, course, 10).log
            == [Tick(0, 300.0, 300.0, 331.0, false), Tick(1, 300.0, 331.0, 362.0, false)]
  {
    var course := Course((t: nat, i: nat) => 31.0, (t: nat, i: nat) => false);
    var own := [300, 300];
    var l := After(own, 300, 0.0, course, 9);
    assert Times(9, HEARTBEAT) == 270.0;
    hide Times, Visits;
    NobodyDue(own, 300, course, 0, 9);
    assert l.due == [300.0, 300.0] && l.log == [] && l.clock == 270.0;
    BothDue(Wake(l), own, course);
    assert OneTick(l, own, 300, course, 9) == Visits(Wake(l), own, 300, 300.0, course, 9, 2).0;
    assert After(own, 300, 0.0, course, 10) == OneTick(l, own, 300, course, 9);
  }

  lemma BothDue(l: Loop, own: seq<int>, course: Course)
    requires own == [300, 300] && l.clock == 300.0 && l.due == [300.0, 300.0] && l.log == []
    requires course.dur(9, 0) == 31.0 == course.dur(9, 1) && NeverRaises(course)
    ensures Visits(l, own, 300, 300.0, course, 9, 2).0.log == [Tick(0, 300.0, 300.0, 331.0, false), Tick(1, 300.0, 331.0, 362.0, false)]
  {
    assert Visits(l, own, 300, 300.0, course, 9, 0) == (l, false);
    assert Visits(l, own, 300, 300.0, course, 9, 1).0.log == [Tick(0, 300.0, 300.0, 331.0, false)];
  }
}
