/**
 The rolling spend cap (backend/app/query.py, _spend_guard) and the audit rows it sums
 (backend/app/audit.py): requests are admitted, call the model, and log what it cost, with
 several of them between admission and logging at once.
 */
module Spend {

  const DAY: real := 24.0

  datatype Entry = Entry(at: real, cost: real)

  /** What was logged at or after `since`. */
  function Spent(log: seq<Entry>, since: real): real {
    if log == [] then 0.0
    else
      var last := log[|log| - 1];
      Spent(log[..|log| - 1], since) + (if last.at >= since then last.cost else 0.0)
  }

  /** What was logged in the trailing day ending at `t`. */
  function SpentInDay(log: seq<Entry>, t: real): real {
    if log == [] then 0.0
    else
      var last := log[|log| - 1];
      SpentInDay(log[..|log| - 1], t) + (if t - 24.0 <= last.at <= t then last.cost else 0.0)
  }

  ghost predicate CostsOk(log: seq<Entry>, now: real) {
    forall i :: 0 <= i < |log| ==> log[i].cost >= 0.0 && log[i].at <= now
  }

  lemma {:induction false} SpentShrinks(log: seq<Entry>, since: real, later: real, now: real)
    requires CostsOk(log, now) && since <= later
    ensures 0.0 <= Spent(log, later) <= Spent(log, since)
  {
    if log != [] {
      SpentShrinks(log[..|log| - 1], since, later, now);
    }
  }

  lemma {:induction false} DayIsPartOfSpent(log: seq<Entry>, t: real, now: real)
    requires CostsOk(log, now)
    ensures SpentInDay(log, t) <= Spent(log, t - DAY)
    ensures t >= now ==> SpentInDay(log, t) == Spent(log, t - DAY)
  {
    if log != [] {
      DayIsPartOfSpent(log[..|log| - 1], t, now);
    }
  }

  lemma SpentSnoc(log: seq<Entry>, e: Entry, since: real)
    ensures Spent(log + [e], since) == Spent(log, since) + (if e.at >= since then e.cost else 0.0)
    ensures SpentInDay(log + [e], since) == SpentInDay(log, since) + (if since - DAY <= e.at <= since then e.cost else 0.0)
  {
    assert (log + [e])[..|log|] == log;
  }

  // ------------------------------------------------------------ the code

  class AuditTrail {
    var log: seq<Entry>
    // What the provider billed and when the trail was last used, for stating what a call does.
    ghost var charged: seq<Entry>
    ghost var now: real

    /** The machine below, with no request in flight. */
    ghost function Idle(): State
      reads this
    {
      State(log, charged, {}, now)
    }

    /** True when the request may proceed. With the cap switched off it always may. */
    method SpendGuard(enabled: bool, cap: real, now: real) returns (ok: bool)
      ensures ok <==> !enabled || Spent(log, now - DAY) < cap
    {
      if !enabled {
        return true;
      }
      var spent := 0.0;
      for i := 0 to |log|
        invariant spent == Spent(log[..i], now - DAY)
      {
        assert log[..i + 1][..i] == log[..i];
        if log[i].at >= now - DAY {
          spent := spent + log[i].cost;
        }
      }
      assert log[..|log|] == log;
      return !(spent >= cap);
    }

    /** One question from start to finish: guard, model calls, audit row. A provider that fails to
        answer has still billed `cost` for the first call; a failed audit write is swallowed. */
    method HybridQuery(enabled: bool, cap: real, asked: real, done: real, cost: real, ending: Ending) returns (r: Reply)
      modifies this
      ensures var admitted := if enabled then Take(old(Idle()), Ask(0, asked), cap) else old(Idle()).(inFlight := {0}, now := asked);
              if 0 in admitted.inFlight then
                Idle() == Take(admitted, LastStep(ending, done, cost), cap) && r == (if ending == AnswerFails then BadGateway else Answered)
              else Idle() == admitted && r == CapReached
      ensures r == CapReached <==> enabled && Spent(old(log), asked - 24.0) >= cap
      ensures log == if r == Answered && ending == Audited then old(log) + [Entry(done, cost)] else old(log)
      ensures charged == if r == CapReached then old(charged) else old(charged) + [Entry(done, cost)]
      ensures r == BadGateway <==> r != CapReached && ending == AnswerFails
    {
      var ok := SpendGuard(enabled, cap, asked);
      now := asked;
      if !ok {
        return CapReached;
      }
      charged, now := charged + [Entry(done, cost)], done;
      if ending == AnswerFails {
        return BadGateway;
      }
      if ending != AuditFails {
        log := log + [Entry(done, cost)];
      }
      return Answered;
    }
  }

  datatype Ending = Audited | AuditFails | AnswerFails

  datatype Reply = Answered | CapReached | BadGateway

  function LastStep(ending: Ending, done: real, cost: real): Step {
    if ending == Audited then Log(0, done, cost) else LeaveUnlogged(0, done, cost)
  }

  // ------------------------------------------------------------ requests in flight

  /** `charged` is what the provider billed, whether or not a row was written for it. */
  datatype State = State(log: seq<Entry>, charged: seq<Entry>, inFlight: set<nat>, now: real)

  datatype Step =
    | Ask(id: nat, at: real)
    | Log(id: nat, at: real, cost: real)
    // The answer failed after a billable call, or the audit write did.
    | LeaveUnlogged(id: nat, at: real, cost: real)

  /** At most `k` requests in flight, each costing at most `c`. */
  predicate Enabled(s: State, step: Step, k: nat, c: real) {
    && step.at >= s.now
    && match step
       case Ask(id, _) => id !in s.inFlight && |s.inFlight| < k
       case Log(id, _, cost) => id in s.inFlight && 0.0 <= cost <= c
       case LeaveUnlogged(id, _, cost) => id in s.inFlight && 0.0 <= cost <= c
  }

  function Take(s: State, step: Step, cap: real): State {
    match step
    case Ask(id, at) =>
      if Spent(s.log, at - DAY) < cap then s.(inFlight := s.inFlight + {id}, now := at) else s.(now := at)
    case Log(id, at, cost) =>
      State(s.log + [Entry(at, cost)], s.charged + [Entry(at, cost)], s.inFlight - {id}, at)
    case LeaveUnlogged(id, at, cost) =>
      s.(charged := s.charged + [Entry(at, cost)], inFlight := s.inFlight - {id}, now := at)
  }

  const START := State([], [], {}, 0.0)

  function After(steps: seq<Step>, cap: real): State {
    if steps == [] then START else Take(After(steps[..|steps| - 1], cap), steps[|steps| - 1], cap)
  }

  /** An interleaving the system can produce. */
  predicate IsRun(steps: seq<Step>, cap: real, k: nat, c: real) {
    steps == []
    || (IsRun(steps[..|steps| - 1], cap, k, c)
        && Enabled(After(steps[..|steps| - 1], cap), steps[|steps| - 1], k, c))
  }

  lemma RunSnoc(steps: seq<Step>, last: Step, cap: real, k: nat, c: real)
    ensures IsRun(steps + [last], cap, k, c) <==> IsRun(steps, cap, k, c) && Enabled(After(steps, cap), last, k, c)
    ensures After(steps + [last], cap) == Take(After(steps, cap), last, cap)
  {
    assert (steps + [last])[..|steps|] == steps;
  }

  function Reserve(n: nat, c: real): real { n as real * c }

  lemma ReserveStep(n: nat, c: real)
    ensures Reserve(n + 1, c) == Reserve(n, c) + c
  {
    assert (n + 1) as real == n as real + 1.0;
  }

  lemma ReserveMonotone(m: nat, n: nat, c: real)
    requires m <= n && c >= 0.0
    ensures 0.0 <= Reserve(m, c) <= Reserve(n, c)
  {
    assert n as real - m as real >= 0.0;
    assert n as real * c - m as real * c == (n as real - m as real) * c;
  }

  /** The day's spend, plus the most the requests in flight can still add, stays below the bound. */
  ghost predicate Bounded(s: State, cap: real, k: nat, c: real) {
    && CostsOk(s.log, s.now)
    && ((s.log == [] && s.inFlight == {})
        || (cap > 0.0 && Spent(s.log, s.now - DAY) + Reserve(|s.inFlight|, c) < cap + Reserve(k, c)))
  }

  lemma StepStaysBounded(s: State, step: Step, cap: real, k: nat, c: real)
    requires Bounded(s, cap, k, c) && Enabled(s, step, k, c) && c >= 0.0
    ensures Bounded(Take(s, step, cap), cap, k, c)
  {
    SpentShrinks(s.log, s.now - DAY, step.at - DAY, s.now);
    match step
    case Ask(id, at) =>
      if Spent(s.log, at - DAY) < cap {
        assert |s.inFlight + {id}| == |s.inFlight| + 1;
        ReserveMonotone(|s.inFlight| + 1, k, c);
      }
    case Log(id, at, cost) =>
      SpentSnoc(s.log, Entry(at, cost), at - DAY);
      assert |s.inFlight - {id}| + 1 == |s.inFlight|;
      ReserveStep(|s.inFlight - {id}|, c);
    case LeaveUnlogged(id, at, cost) =>
      assert |s.inFlight - {id}| + 1 == |s.inFlight|;
      ReserveStep(|s.inFlight - {id}|, c);
  }

  lemma {:induction false} RunStaysBounded(steps: seq<Step>, cap: real, k: nat, c: real)
    requires IsRun(steps, cap, k, c) && c >= 0.0
    ensures Bounded(After(steps, cap), cap, k, c)
  {
    if steps != [] {
      RunStaysBounded(steps[..|steps| - 1], cap, k, c);
      StepStaysBounded(After(steps[..|steps| - 1], cap), steps[|steps| - 1], cap, k, c);
    }
  }

  /** The spend bound: in every interleaving, every trailing day of the log, whenever it ends,
      stays below the cap plus one worst-case cost per request that can be in flight. */
  lemma {:induction false} SpendBound(steps: seq<Step>, cap: real, k: nat, c: real, t: real)
    requires IsRun(steps, cap, k, c) && c >= 0.0 && cap > 0.0
    ensures SpentInDay(After(steps, cap).log, t) < cap + Reserve(k, c)
  {
    if steps == [] {
      ReserveMonotone(0, k, c);
    } else {
      var init, last := steps[..|steps| - 1], steps[|steps| - 1];
      SpendBound(init, cap, k, c, t);
      RunStaysBounded(steps, cap, k, c);
      DayGrows(After(init, cap), last, cap, t);
      if t >= last.at {
        BoundedDay(After(steps, cap), cap, k, c, t);
      }
    }
  }

  /** A day that has already ended is not changed by what is logged later. */
  lemma DayGrows(s: State, step: Step, cap: real, t: real)
    ensures t < step.at ==> SpentInDay(Take(s, step, cap).log, t) == SpentInDay(s.log, t)
    ensures Take(s, step, cap).now == step.at
  {
    if step.Log? {
      SpentSnoc(s.log, Entry(step.at, step.cost), t);
    }
  }

  lemma BoundedDay(s: State, cap: real, k: nat, c: real, t: real)
    requires Bounded(s, cap, k, c) && c >= 0.0 && cap > 0.0 && t >= s.now
    ensures SpentInDay(s.log, t) < cap + Reserve(k, c)
  {
    DayIsPartOfSpent(s.log, t, s.now);
    SpentShrinks(s.log, s.now - DAY, t - DAY, s.now);
    ReserveMonotone(0, |s.inFlight|, c);
    ReserveMonotone(0, k, c);
  }

  /** With a cap of zero or less nothing is ever admitted. */
  lemma {:induction false} ZeroCapAdmitsNothing(steps: seq<Step>, cap: real, k: nat, c: real)
    requires IsRun(steps, cap, k, c) && c >= 0.0 && cap <= 0.0
    ensures After(steps, cap).log == [] && After(steps, cap).inFlight == {} && After(steps, cap).charged == []
  {
    if steps != [] {
      ZeroCapAdmitsNothing(steps[..|steps| - 1], cap, k, c);
    }
  }

  /** The log is what the provider charged exactly when no request leaves without its row. */
  lemma {:induction false} LogIsCharge(steps: seq<Step>, cap: real)
    ensures |After(steps, cap).log| <= |After(steps, cap).charged|
    ensures After(steps, cap).log == After(steps, cap).charged
            <==> forall i :: 0 <= i < |steps| ==> !steps[i].LeaveUnlogged?
  {
    if steps != [] {
      var init, last := steps[..|steps| - 1], steps[|steps| - 1];
      LogIsCharge(init, cap);
      var s := After(init, cap);
      if last.Log? {
        var e := Entry(last.at, last.cost);
        assert (s.log + [e])[..|s.log|] == s.log && (s.charged + [e])[..|s.charged|] == s.charged;
      }
    }
  }

  // ------------------------------------------------------------ the bound cannot be improved

  /** `m` requests one after another, each costing `x`. */
  function OneByOne(m: nat, x: real): seq<Step> {
    if m == 0 then [] else OneByOne(m - 1, x) + [Ask(0, 0.0)] + [Log(0, 0.0, x)]
  }

  /** After `before`, the first `n` requests of a burst are asked. */
  function Asks(before: seq<Step>, n: nat): seq<Step> {
    if n == 0 then before else Asks(before, n - 1) + [Ask(n - 1, 0.0)]
  }

  /** After `before`, the first `n` requests of a burst are logged. */
  function Logs(before: seq<Step>, n: nat, c: real): seq<Step> {
    if n == 0 then before else Logs(before, n - 1, c) + [Log(n - 1, 0.0, c)]
  }

  /** The worst day: `m` requests one by one while there is room, then `k` at once. */
  function Burst(m: nat, x: real, k: nat, c: real): seq<Step> { Logs(Asks(OneByOne(m, x), k), k, c) }

  ghost function Ids(from: nat, upTo: nat): (s: set<nat>)
    ensures forall i: nat :: i in s <==> from <= i < upTo
    ensures from <= upTo ==> |s| == upTo - from
    decreases upTo
  {
    if from >= upTo then {} else Ids(from, upTo - 1) + {upTo - 1}
  }

  /** A run that has spent `spent`, all of it at time zero, with `ids` in flight. */
  ghost predicate Reaches(steps: seq<Step>, cap: real, k: nat, c: real, spent: real, ids: set<nat>) {
    var s := After(steps, cap);
    IsRun(steps, cap, k, c) && s.now == 0.0 && s.inFlight == ids && Spent(s.log, 0.0 - DAY) == spent && SpentInDay(s.log, 0.0) == spent
  }

  lemma AskMore(steps: seq<Step>, cap: real, k: nat, c: real, spent: real, ids: set<nat>, id: nat)
    requires Reaches(steps, cap, k, c, spent, ids) && id !in ids && |ids| < k && spent < cap
    ensures Reaches(steps + [Ask(id, 0.0)], cap, k, c, spent, ids + {id})
  {
    hide IsRun, After, SpentInDay;
    RunSnoc(steps, Ask(id, 0.0), cap, k, c);
  }

  lemma LogMore(steps: seq<Step>, cap: real, k: nat, c: real, spent: real, ids: set<nat>, id: nat, cost: real)
    requires Reaches(steps, cap, k, c, spent, ids) && id in ids && 0.0 <= cost <= c
    ensures Reaches(steps + [Log(id, 0.0, cost)], cap, k, c, spent + cost, ids - {id})
  {
    hide IsRun, After, Spent, SpentInDay;
    RunSnoc(steps, Log(id, 0.0, cost), cap, k, c);
    SpentSnoc(After(steps, cap).log, Entry(0.0, cost), 0.0 - DAY);
    SpentSnoc(After(steps, cap).log, Entry(0.0, cost), 0.0);
  }

  lemma {:induction false} OneByOneReaches(m: nat, x: real, cap: real, k: nat, c: real)
    requires k >= 1 && 0.0 <= x <= c && Reserve(m, x) < cap
    ensures Reaches(OneByOne(m, x), cap, k, c, Reserve(m, x), {})
  {
    hide Reaches;
    if m == 0 {
      ReserveZero(x);
      NothingReached(cap, k, c);
    } else {
      ReserveStep(m - 1, x);
      hide Reserve;
      OneByOneReaches(m - 1, x, cap, k, c);
      AskMore(OneByOne(m - 1, x), cap, k, c, Reserve(m - 1, x), {}, 0);
      LogMore(OneByOne(m - 1, x) + [Ask(0, 0.0)], cap, k, c, Reserve(m - 1, x), {} + {0}, 0, x);
      assert ({} + {0}) - {0} == {};
    }
  }

  lemma EmptyRun(cap: real, k: nat, c: real)
    ensures IsRun([], cap, k, c) && After([], cap) == START
  {
  }

  lemma NothingReached(cap: real, k: nat, c: real)
    ensures Reaches([], cap, k, c, 0.0, {})
  {
  }

  lemma {:induction false} AsksReach(before: seq<Step>, n: nat, cap: real, k: nat, c: real, spent: real)
    requires Reaches(before, cap, k, c, spent, {}) && n <= k && spent < cap
    ensures Reaches(Asks(before, n), cap, k, c, spent, Ids(0, n))
  {
    hide Reaches;
    if n == 0 {
      assert Ids(0, 0) == {};
    } else {
      AsksReach(before, n - 1, cap, k, c, spent);
      AskMore(Asks(before, n - 1), cap, k, c, spent, Ids(0, n - 1), n - 1);
      assert Ids(0, n - 1) + {n - 1} == Ids(0, n);
    }
  }

  lemma {:induction false} LogsReach(before: seq<Step>, n: nat, cap: real, k: nat, c: real, spent: real)
    requires Reaches(before, cap, k, c, spent, Ids(0, k)) && n <= k && c >= 0.0
    ensures Reaches(Logs(before, n, c), cap, k, c, spent + Reserve(n, c), Ids(n, k))
  {
    hide Reaches, Ids;
    if n == 0 {
      ReserveZero(c);
      assert spent + Reserve(0, c) == spent;
    } else {
      LogsReach(before, n - 1, cap, k, c, spent);
      IdsStep(n - 1, k);
      ReserveStep(n - 1, c);
      hide Reserve;
      var was, now := spent + Reserve(n - 1, c), spent + Reserve(n, c);
      assert was + c == now;
      LogMore(Logs(before, n - 1, c), cap, k, c, was, Ids(n - 1, k), n - 1, c);
    }
  }

  lemma IdsStep(n: nat, k: nat)
    requires n < k
    ensures n in Ids(n, k) && Ids(n, k) - {n} == Ids(n + 1, k)
  {
  }

  /** Whatever is below the cap can have been spent when `k` requests of the worst cost get in. */
  lemma OvershootHappens(m: nat, x: real, cap: real, k: nat, c: real)
    requires k >= 1 && 0.0 <= x <= c && Reserve(m, x) < cap
    ensures IsRun(Burst(m, x, k, c), cap, k, c)
    ensures SpentInDay(After(Burst(m, x, k, c), cap).log, 0.0) == Reserve(m, x) + Reserve(k, c)
  {
    hide Reserve;
    OneByOneReaches(m, x, cap, k, c);
    AsksReach(OneByOne(m, x), k, cap, k, c, Reserve(m, x));
    LogsReach(Asks(OneByOne(m, x), k), k, cap, k, c, Reserve(m, x));
  }

  /** As many requests of cost `x` as stay below the cap leave less than `x` of it, or just `x`. */
  lemma FillUpTo(cap: real, x: real) returns (m: nat)
    requires cap > 0.0 && x > 0.0
    ensures Reserve(m, x) < cap <= Reserve(m, x) + x
  {
    var q := cap / x;
    assert q * x == cap && q > 0.0;
    var f := q.Floor;
    m := if f as real == q then f - 1 else f;
    var r := m as real;
    assert r < q <= r + 1.0;
    Scaled(r, q, x, cap);
    assert Reserve(m, x) == r * x;
  }

  lemma Scaled(m: real, q: real, x: real, cap: real)
    requires m < q <= m + 1.0 && x > 0.0 && q * x == cap
    ensures m * x < cap <= m * x + x
  {
    assert (q - m) * x > 0.0;
    var gap := m + 1.0 - q;
    assert gap * x >= 0.0;
    assert gap * x == m * x + x - cap;
  }

  /** `cap + k*c` is the least bound there is: some run comes within any `margin` of it. */
  lemma BoundIsTight(cap: real, k: nat, c: real, margin: real) returns (steps: seq<Step>)
    requires cap > 0.0 && k >= 1 && c > 0.0 && margin > 0.0
    ensures IsRun(steps, cap, k, c)
    ensures cap + Reserve(k, c) - margin < SpentInDay(After(steps, cap).log, 0.0) < cap + Reserve(k, c)
  {
    hide Reserve, IsRun, After;
    var x := if c < margin / 2.0 then c else margin / 2.0;
    var m := FillUpTo(cap, x);
    OvershootHappens(m, x, cap, k, c);
    steps := Burst(m, x, k, c);
  }

  /** The exact condition: a positive cap is a ceiling on every day of every run if and only if
      requests cost nothing or none is let in at all. */
  lemma CeilingIff(cap: real, k: nat, c: real)
    requires cap > 0.0 && c >= 0.0
    ensures (forall steps, t :: IsRun(steps, cap, k, c) ==> SpentInDay(After(steps, cap).log, t) <= cap) <==> k == 0 || c == 0.0
  {
    if k == 0 || c == 0.0 {
      forall steps, t | IsRun(steps, cap, k, c)
        ensures SpentInDay(After(steps, cap).log, t) <= cap
      {
        SpendBound(steps, cap, k, c, t);
      }
    } else {
      assert Reserve(k, c) > 0.0;
      var steps := BoundIsTight(cap, k, c, Reserve(k, c));
      hide IsRun, After;
    }
  }

  function Lost(n: nat, c: real): seq<Step> {
    if n == 0 then [] else Lost(n - 1, c) + [Ask(0, 0.0)] + [LeaveUnlogged(0, 0.0, c)]
  }

  /** Unlogged cost is not capped at all: one request at a time can be charged any number of
      times while the log, and so the guard, sees nothing. */
  lemma {:induction false} UnloggedIsUncapped(n: nat, cap: real, c: real)
    requires cap > 0.0 && c >= 0.0
    ensures IsRun(Lost(n, c), cap, 1, c)
    ensures var s := After(Lost(n, c), cap);
            s.log == [] && s.inFlight == {} && s.now == 0.0 && SpentInDay(s.charged, 0.0) == Reserve(n, c)
  {
    hide IsRun, After, Reserve;
    if n == 0 {
      EmptyRun(cap, 1, c);
      assert Reserve(0, c) == 0.0 by { ReserveZero(c); }
    } else {
      UnloggedIsUncapped(n - 1, cap, c);
      var before := Lost(n - 1, c);
      RunSnoc(before, Ask(0, 0.0), cap, 1, c);
      RunSnoc(before + [Ask(0, 0.0)], LeaveUnlogged(0, 0.0, c), cap, 1, c);
      SpentSnoc(After(before, cap).charged, Entry(0.0, c), 0.0);
      ReserveStep(n - 1, c);
      assert ({} + {0}) - {0} == {};
    }
  }

  lemma ReserveZero(c: real)
    ensures Reserve(0, c) == 0.0
  {
  }
}
