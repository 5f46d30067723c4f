/** What follows for whole runs of webhook ingestion (backend/app/webhooks.py). */
module WebhookRuns {
  import opened Wrappers
  import opened Rounding
  import opened Selections
  import opened Bushels
  import opened Webhooks

  // ------------------------------------------------------------ what never changes back

  /** `later` is a state that may come after `s`, as far as rows are concerned. */
  ghost predicate Follows(s: State, later: State) {
    && (forall e :: e in s.events ==> e in later.events && EventFollows(s.events[e], later.events[e]))
    && (forall t :: t in s.deliveries ==> t in later.deliveries && DeliveryFollows(s.deliveries[t], later.deliveries[t]))
  }

  /** An event leaves `received` at most once, and keeps its key and payload. */
  ghost predicate EventFollows(before: Event, after: Event) {
    after.key == before.key && after.body == before.body && (before.status != Received ==> after.status == before.status)
  }

  /** A delivery changes only by becoming verified. */
  ghost predicate DeliveryFollows(before: Delivery, after: Delivery) {
    after.(verified := before.verified) == before && (before.verified ==> after.verified)
  }

  lemma StepFollows(env: Env, s: State, step: Step, seeded: set<Ticket>)
    requires Inv(s, seeded, env.catalog)
    ensures Follows(s, Take(env, s, step))
  {
    hide OneToOne, UniqueKeys, DecisionOk, Decide, TakeCommit;
    if step.worker in s.workers {
      assert WorkerOk(s.events, s.deliveries, s.workers[step.worker], env.catalog);
    }
    if step.Commit? {
      CommitFollows(s, step.worker, step.writes, seeded, env.catalog);
    }
  }

  lemma CommitFollows(s: State, w: nat, writes: bool, seeded: set<Ticket>, catalog: Catalog)
    requires Inv(s, seeded, catalog)
    ensures Follows(s, TakeCommit(s, w, writes))
  {
    hide OneToOne, UniqueKeys, DecisionOk;
    if w in s.workers {
      assert WorkerOk(s.events, s.deliveries, s.workers[w], catalog);
    }
  }

  lemma FollowsChain(a: State, b: State, c: State)
    requires Follows(a, b) && Follows(b, c)
    ensures Follows(a, c)
  {
    forall e | e in a.events
      ensures e in c.events && EventFollows(a.events[e], c.events[e])
    {
      assert EventFollows(a.events[e], b.events[e]) && EventFollows(b.events[e], c.events[e]);
    }
    forall t | t in a.deliveries
      ensures t in c.deliveries && DeliveryFollows(a.deliveries[t], c.deliveries[t])
    {
      assert DeliveryFollows(a.deliveries[t], b.deliveries[t]) && DeliveryFollows(b.deliveries[t], c.deliveries[t]);
    }
  }

  /** Over any run: rows are never lost, an event's outcome is final, and `verified` never goes
      back to false. */
  lemma {:induction false} OutcomesAreFinal(env: Env, s: State, steps: seq<Step>, seeded: set<Ticket>)
    requires Inv(s, seeded, env.catalog)
    ensures Follows(s, Run(env, s, steps))
  {
    hide Inv, Take, EventFollows, DeliveryFollows;
    if steps == [] {
      SelfFollows(s);
    } else {
      var init := steps[..|steps| - 1];
      OutcomesAreFinal(env, s, init, seeded);
      EveryRunKeeps(env, s, init, seeded);
      StepFollows(env, Run(env, s, init), steps[|steps| - 1], seeded);
      FollowsChain(s, Run(env, s, init), Run(env, s, steps));
    }
  }

  lemma SelfFollows(s: State)
    ensures Follows(s, s)
  {
    forall t | t in s.deliveries
      ensures DeliveryFollows(s.deliveries[t], s.deliveries[t])
    {
      var row := s.deliveries[t];
      assert row.(verified := row.verified) == row;
    }
  }

  // ------------------------------------------------------------ replays and lost workers

  /** Someone is handling this event. */
  ghost predicate Held(s: State, e: nat) {
    exists w :: w in s.workers && s.workers[w].event == e
  }

  lemma AbandonedStep(env: Env, s: State, step: Step, e: nat)
    requires e in s.events && !Held(s, e)
    ensures var s' := Take(env, s, step); e in s'.events && s'.events[e] == s.events[e] && !Held(s', e)
  {
    hide Decide, Seen;
  }

  /** Once no worker holds it, an event's row never changes again: if the handler died before
      finishing, the event stays `received` for good. A repeated request with the same digest
      does not take it up, so nothing in the code replays it. */
  lemma {:induction false} AbandonedForGood(env: Env, s: State, steps: seq<Step>, e: nat)
    requires e in s.events && !Held(s, e)
    ensures var s' := Run(env, s, steps); e in s'.events && s'.events[e] == s.events[e] && !Held(s', e)
  {
    hide Take, Held;
    if steps != [] {
      AbandonedForGood(env, s, steps[..|steps| - 1], e);
      AbandonedStep(env, Run(env, s, steps[..|steps| - 1]), steps[|steps| - 1], e);
    }
  }

  /** It happens: a worker that dies right after storing its event leaves it `received` in every
      continuation, replays of the same bytes included. */
  lemma CrashStrands(env: Env, deliveries: Deliveries, raw: Raw, steps: seq<Step>)
    requires env.parse(raw).Some?
    ensures var s := Run(env, Run(env, Fresh(deliveries), [Arrive(0, raw, 0), Crash(0)]), steps);
            0 in s.events && s.events[0].key == env.sha(raw) && s.events[0].status == Received
  {
    var s0 := Fresh(deliveries);
    RunSnoc(env, s0, [], Arrive(0, raw, 0));
    RunSnoc(env, s0, [Arrive(0, raw, 0)], Crash(0));
    assert [Arrive(0, raw, 0)] + [Crash(0)] == [Arrive(0, raw, 0), Crash(0)];
    AbandonedForGood(env, Run(env, s0, [Arrive(0, raw, 0), Crash(0)]), steps, 0);
  }

  /** Whatever happens next, this event's row is still there and still `received`. */
  ghost predicate StaysReceived(env: Env, s: State, e: nat) {
    forall steps :: IsReceived(Run(env, s, steps), e)
  }

  predicate IsReceived(s: State, e: nat) { e in s.events && s.events[e].status == Received }

  /** The worker has looked: it has something to commit, or a failure to record. */
  ghost predicate HasLooked(s: State, w: nat, e: nat) {
    && IsReceived(s, e) && w in s.workers && s.workers[w].event == e
    && (s.workers[w].Failing? || (s.workers[w].Decided? && s.workers[w].decision != Refuse))
  }

  lemma LookDecides(env: Env, s: State, w: nat)
    requires WorkersOk(s, env.catalog) && w in s.workers
    ensures HasLooked(TakeLook(env, s, w), w, s.workers[w].event)
  {
    hide Decide;
    assert WorkerOk(s.events, s.deliveries, s.workers[w], env.catalog);
  }

  lemma CommitOrFail(s: State, w: nat, e: nat)
    requires HasLooked(s, w, e)
    ensures !IsReceived(TakeMarkFailed(TakeCommit(s, w, true), w), e)
  {
  }

  /** A worker that holds an event can always finish it: look, commit, and mark it failed if that failed. */
  lemma HeldCanFinish(env: Env, s: State, w: nat, seeded: set<Ticket>)
    requires Inv(s, seeded, env.catalog) && w in s.workers
    ensures !IsReceived(Run(env, s, [Look(w), Commit(w, true), MarkFailed(w)]), s.workers[w].event)
  {
    ThreeSteps(env, s, Look(w), Commit(w, true), MarkFailed(w));
    LookDecides(env, s, w);
    CommitOrFail(TakeLook(env, s, w), w, s.workers[w].event);
    hide Run, Inv, HasLooked, TakeLook, TakeCommit, TakeMarkFailed;
  }

  lemma ThreeSteps(env: Env, s: State, a: Step, b: Step, c: Step)
    ensures Run(env, s, [a, b, c]) == Take(env, Take(env, Take(env, s, a), b), c)
  {
    RunSnoc(env, s, [], a);
    RunSnoc(env, s, [a], b);
    RunSnoc(env, s, [a, b], c);
    assert [a] + [b] == [a, b] && [a, b] + [c] == [a, b, c];
    hide Take, Run;
  }

  /** The exact condition: an event is `received` in every continuation if and only if no worker holds it now. */
  lemma StrandedIff(env: Env, s: State, e: nat, seeded: set<Ticket>)
    requires Inv(s, seeded, env.catalog) && IsReceived(s, e)
    ensures StaysReceived(env, s, e) <==> !Held(s, e)
  {
    hide Inv, Run;
    if Held(s, e) {
      var w :| w in s.workers && s.workers[w].event == e;
      HeldCanFinish(env, s, w, seeded);
    } else {
      forall steps
        ensures IsReceived(Run(env, s, steps), e)
      {
        AbandonedForGood(env, s, steps, e);
      }
    }
  }

  lemma SeenStep(env: Env, s: State, step: Step, key: DedupeKey)
    requires Seen(s.events, key)
    ensures Seen(Take(env, s, step).events, key)
  {
    hide Decide;
    var id :| id in s.events && s.events[id].key == key;
    var after := Take(env, s, step).events;
    assert id in after && after[id].key == key;
  }

  /** Once a body is stored, no later request with the same bytes changes anything, whatever has
      happened in between. */
  lemma {:induction false} ReplayIsNoOp(env: Env, s: State, steps: seq<Step>, w: nat, raw: Raw, id: nat)
    requires Seen(s.events, env.sha(raw))
    ensures var later := Run(env, s, steps);
            Seen(later.events, env.sha(raw)) && Take(env, later, Arrive(w, raw, id)) == later
  {
    if steps != [] {
      var init := steps[..|steps| - 1];
      ReplayIsNoOp(env, s, init, w, raw, id);
      SeenStep(env, Run(env, s, init), steps[|steps| - 1], env.sha(raw));
    }
  }

  /** With a collision-free digest, each body has at most one row, whatever the run. */
  lemma {:induction false} OneRowPerBody(env: Env, deliveries: Deliveries, steps: seq<Step>, i: nat, j: nat, raw: Raw)
    ensures var s := Run(env, Fresh(deliveries), steps);
            i in s.events && j in s.events && s.events[i].key == env.sha(raw) && s.events[j].key == env.sha(raw) ==> i == j
  {
    FreshKeeps(deliveries, env.catalog);
    EveryRunKeeps(env, Fresh(deliveries), steps, deliveries.Keys);
  }

  // ------------------------------------------------------------ exactly once

  function CreatedIds(s: State): set<nat> { set e | e in s.events && Created(s.events[e]) }

  /** Exactly once: after any run from an empty inbox, the deliveries beyond the seeded ones are
      as many as the processed recordings, each made from the payload of the one that has its ticket. */
  lemma ExactlyOnce(env: Env, deliveries: Deliveries, steps: seq<Step>)
    ensures var s := Run(env, Fresh(deliveries), steps);
            && |s.deliveries.Keys - deliveries.Keys| == |CreatedIds(s)|
            && forall t :: t in s.deliveries && t !in deliveries ==>
                 exists e :: e in CreatedIds(s) && MadeFrom(s.deliveries[t], t, s.events[e].body, env.catalog)
  {
    hide MadeFrom, Run, OneToOne;
    var s := Run(env, Fresh(deliveries), steps);
    FreshKeeps(deliveries, env.catalog);
    EveryRunKeeps(env, Fresh(deliveries), steps, deliveries.Keys);
    MatchUp(s, deliveries.Keys, env.catalog);
  }

  lemma MatchUp(s: State, seeded: set<Ticket>, catalog: Catalog)
    requires OneToOne(s.events, s.deliveries, seeded, catalog)
    ensures |s.deliveries.Keys - seeded| == |CreatedIds(s)|
    ensures forall t :: t in s.deliveries && t !in seeded ==>
              exists e :: e in CreatedIds(s) && MadeFrom(s.deliveries[t], t, s.events[e].body, catalog)
  {
    hide MadeFrom;
    forall t | t in s.deliveries && t !in seeded
      ensures exists e :: e in CreatedIds(s) && MadeFrom(s.deliveries[t], t, s.events[e].body, catalog)
    {
      var e :| e in s.events && Created(s.events[e]) && TicketOf(s.events[e]) == Some(t);
      assert CreatedOk(s.events[e], s.deliveries, seeded, catalog);
      assert e in CreatedIds(s);
    }
    forall e | e in CreatedIds(s)
      ensures s.events[e].body.data.value.ticket in s.deliveries.Keys - seeded
    {
      assert CreatedOk(s.events[e], s.deliveries, seeded, catalog);
    }
    EqualSizes(s.events, CreatedIds(s), s.deliveries.Keys - seeded);
  }

  /** Counting a one-to-one correspondence. */
  lemma {:induction false} EqualSizes(events: Events, es: set<nat>, ts: set<Ticket>)
    requires forall e :: e in es ==> e in events && Created(events[e]) && events[e].body.data.value.ticket in ts
    requires forall t :: t in ts ==> exists e :: e in es && TicketOf(events[e]) == Some(t)
    requires forall d, e :: d in es && e in es && d != e ==> DifferentTickets(events[d], events[e])
    ensures |es| == |ts|
    decreases |es|
  {
    if es == {} {
      assert ts == {};
    } else {
      var e :| e in es;
      var t := events[e].body.data.value.ticket;
      forall u | u in ts - {t}
        ensures exists d :: d in es - {e} && TicketOf(events[d]) == Some(u)
      {
        var d :| d in es && TicketOf(events[d]) == Some(u);
        assert d in es - {e};
      }
      forall d | d in es - {e}
        ensures events[d].body.data.value.ticket in ts - {t}
      {
        assert DifferentTickets(events[d], events[e]);
      }
      EqualSizes(events, es - {e}, ts - {t});
    }
  }

  /** Event `e` is a processed recording of ticket `t`, and the row holds what its payload says. */
  ghost predicate RecordedBy(e: Event, t: Ticket, row: Delivery, catalog: Catalog) {
    && e.body.kind == Recorded && e.status == Processed && e.body.data.Some?
    && e.body.data.value.ticket == t && RowTells(row, e.body.data.value, catalog)
  }

  lemma MadeRowTells(row: Delivery, t: Ticket, body: Body, catalog: Catalog)
    requires MadeFrom(row, t, body, catalog)
    ensures RowTells(row, body.data.value, catalog)
  {
    NewRowTells(catalog, body.data.value);
    hide NewRow;
  }

  /** Over every run: each delivery beyond the seeded ones holds, column by column, the payload of a
      processed recording of its ticket. */
  lemma EveryRowTells(env: Env, deliveries: Deliveries, steps: seq<Step>, t: Ticket)
    ensures var s := Run(env, Fresh(deliveries), steps);
            t in s.deliveries && t !in deliveries ==>
              exists e :: e in s.events && RecordedBy(s.events[e], t, s.deliveries[t], env.catalog)
  {
    hide MadeFrom, Run, OneToOne, RowTells;
    var s := Run(env, Fresh(deliveries), steps);
    ExactlyOnce(env, deliveries, steps);
    if t in s.deliveries && t !in deliveries {
      var e :| e in CreatedIds(s) && MadeFrom(s.deliveries[t], t, s.events[e].body, env.catalog);
      MadeRowTells(s.deliveries[t], t, s.events[e].body, env.catalog);
      MadeForTicket(s.deliveries[t], t, s.events[e].body, env.catalog);
      assert RecordedBy(s.events[e], t, s.deliveries[t], env.catalog);
    }
  }

  lemma MadeForTicket(row: Delivery, t: Ticket, body: Body, catalog: Catalog)
    requires MadeFrom(row, t, body, catalog)
    ensures body.data.Some? && body.data.value.ticket == t
  {
  }

  // ------------------------------------------------------------ verified by whom

  /** Event `e` is a processed verification of ticket `t`. */
  predicate VerifiedBy(e: Event, t: Ticket) {
    e.body.kind == Verified && e.status == Processed && TicketOf(e) == Some(t)
  }

  ghost predicate HasVerification(events: Events, t: Ticket) {
    exists e :: e in events && VerifiedBy(events[e], t)
  }

  /** A delivery is verified exactly if it was from the start or a verification of it was processed. */
  ghost predicate VerifiedOk(events: Events, deliveries: Deliveries, from: set<Ticket>) {
    && (forall t :: t in from || HasVerification(events, t) ==> t in deliveries)
    && forall t :: t in deliveries ==> (deliveries[t].verified <==> t in from || HasVerification(events, t))
  }

  lemma SameVerifications(before: Events, after: Events)
    requires forall e, t :: e in before && VerifiedBy(before[e], t) ==> e in after && after[e] == before[e]
    requires forall e, t :: e in after && VerifiedBy(after[e], t) ==> e in before && before[e] == after[e]
    ensures forall t :: HasVerification(before, t) <==> HasVerification(after, t)
  {
    hide VerifiedBy;
    forall t
      ensures HasVerification(before, t) <==> HasVerification(after, t)
    {
      if e :| e in before && VerifiedBy(before[e], t) {
        assert e in after;
      }
      if e :| e in after && VerifiedBy(after[e], t) {
        assert e in before;
      }
    }
  }

  lemma VerifyAdds(events: Events, e: nat, t: Ticket)
    requires e in events && events[e].status == Received && events[e].body.kind == Verified && TicketOf(events[e]) == Some(t)
    ensures forall u :: HasVerification(SetStatus(events, e, Processed), u) <==> u == t || HasVerification(events, u)
  {
    var after := SetStatus(events, e, Processed);
    assert VerifiedBy(after[e], t);
    forall u
      ensures HasVerification(after, u) <==> u == t || HasVerification(events, u)
    {
      if d :| d in events && VerifiedBy(events[d], u) {
        assert after[d] == events[d];
      }
      if d :| d in after && VerifiedBy(after[d], u) {
        assert d == e || events[d] == after[d];
      }
    }
  }

  lemma CommitVerifies(s: State, w: nat, writes: bool, seeded: set<Ticket>, from: set<Ticket>, catalog: Catalog)
    requires Inv(s, seeded, catalog) && VerifiedOk(s.events, s.deliveries, from)
    ensures var s' := TakeCommit(s, w, writes); VerifiedOk(s'.events, s'.deliveries, from)
  {
    hide MadeFrom, OneToOne, UniqueKeys;
    if w in s.workers && s.workers[w].Decided? {
      var Decided(e, decision) := s.workers[w];
      assert WorkerOk(s.events, s.deliveries, s.workers[w], catalog);
      hide WorkersOk, HasVerification;
      if decision.Verify? && writes && decision.ticket in s.deliveries {
        VerifyAdds(s.events, e, decision.ticket);
      } else {
        SameVerifications(s.events, TakeCommit(s, w, writes).events);
      }
    }
  }

  lemma StepVerifies(env: Env, s: State, step: Step, seeded: set<Ticket>, from: set<Ticket>)
    requires Inv(s, seeded, env.catalog) && VerifiedOk(s.events, s.deliveries, from)
    ensures var s' := Take(env, s, step); VerifiedOk(s'.events, s'.deliveries, from)
  {
    hide OneToOne, UniqueKeys, DecisionOk, Decide, TakeCommit, Seen;
    if step.Commit? {
      CommitVerifies(s, step.worker, step.writes, seeded, from, env.catalog);
    } else {
      if step.worker in s.workers {
        assert WorkerOk(s.events, s.deliveries, s.workers[step.worker], env.catalog);
      }
      SameVerifications(s.events, Take(env, s, step).events);
      hide HasVerification, WorkersOk;
    }
  }

  lemma {:induction false} RunVerifies(env: Env, deliveries: Deliveries, steps: seq<Step>, from: set<Ticket>)
    requires from == set t | t in deliveries && deliveries[t].verified
    ensures var s := Run(env, Fresh(deliveries), steps); VerifiedOk(s.events, s.deliveries, from)
  {
    hide Inv, Take, VerifiedBy;
    if steps != [] {
      var init := steps[..|steps| - 1];
      RunVerifies(env, deliveries, init, from);
      FreshKeeps(deliveries, env.catalog);
      EveryRunKeeps(env, Fresh(deliveries), init, deliveries.Keys);
      StepVerifies(env, Run(env, Fresh(deliveries), init), steps[|steps| - 1], deliveries.Keys, from);
      hide VerifiedOk, Fresh;
    }
  }

  /** Over every run, a delivery is verified if and only if it was at the start or some verification of
      its ticket was processed. */
  lemma VerifiedIff(env: Env, deliveries: Deliveries, steps: seq<Step>, t: Ticket)
    ensures var s := Run(env, Fresh(deliveries), steps);
            t in s.deliveries ==>
              (s.deliveries[t].verified <==>
               (t in deliveries && deliveries[t].verified)
               || exists e :: e in s.events && s.events[e].body.kind == Verified && s.events[e].status == Processed
                              && TicketOf(s.events[e]) == Some(t))
  {
    var s := Run(env, Fresh(deliveries), steps);
    var from := set u | u in deliveries && deliveries[u].verified;
    RunVerifies(env, deliveries, steps, from);
    hide Run;
    if HasVerification(s.events, t) {
      var e :| e in s.events && VerifiedBy(s.events[e], t);
      assert s.events[e].body.kind == Verified;
    }
    if e :| e in s.events && s.events[e].body.kind == Verified && s.events[e].status == Processed && TicketOf(s.events[e]) == Some(t) {
      assert VerifiedBy(s.events[e], t);
    }
  }

  // ------------------------------------------------------------ the loser of a race

  /** The worker has lost: its handler has raised, or the ticket it would insert is taken. */
  ghost predicate Lost(s: State, e: nat) {
    && e in s.events
    && s.events[e].body.kind == Recorded
    && (s.events[e].status == Received || s.events[e].status == Failed)
    && forall w :: w in s.workers && s.workers[w].event == e ==> LosingStage(s.deliveries, s.workers[w])
  }

  ghost predicate LosingStage(rows: Deliveries, stage: Stage) {
    stage.Failing? || (stage.Decided? && stage.decision.Insert? && stage.decision.ticket in rows)
  }

  lemma LoserCommit(s: State, w: nat, writes: bool, e: nat)
    requires Lost(s, e)
    ensures Lost(TakeCommit(s, w, writes), e)
  {
  }

  lemma LoserStep(env: Env, s: State, step: Step, e: nat)
    requires Lost(s, e)
    ensures Lost(Take(env, s, step), e)
  {
    match step
    case Commit(w, writes) =>
      LoserCommit(s, w, writes, e);
    case _ =>
      hide TakeCommit, Seen, Decide;
  }

  /** Of two workers about to insert one ticket, whichever commits second never processes its
      event: in every continuation it is `failed`, or still waiting to be marked so. */
  lemma {:induction false} LoserNeverSucceeds(env: Env, s: State, steps: seq<Step>, e: nat)
    requires Lost(s, e)
    ensures Lost(Run(env, s, steps), e)
  {
    hide Take, Lost;
    if steps != [] {
      var init := steps[..|steps| - 1];
      LoserNeverSucceeds(env, s, init, e);
      LoserStep(env, Run(env, s, init), steps[|steps| - 1], e);
    }
  }

  /** The moment one of them commits, the other has lost. */
  lemma WinnerMakesLoser(env: Env, s: State, v: nat, w: nat, seeded: set<Ticket>)
    requires Inv(s, seeded, env.catalog) && v != w && v in s.workers && w in s.workers
    requires s.workers[v].Decided? && s.workers[v].decision.Insert? && s.workers[w].Decided? && s.workers[w].decision.Insert?
    requires s.workers[v].decision.ticket == s.workers[w].decision.ticket
    ensures var s' := Take(env, s, Commit(v, true));
            s.workers[v].decision.ticket in s'.deliveries && Lost(s', s.workers[w].event)
  {
    hide OneToOne, UniqueKeys, MadeFrom;
    assert WorkerOk(s.events, s.deliveries, s.workers[v], env.catalog);
    assert WorkerOk(s.events, s.deliveries, s.workers[w], env.catalog);
  }

  /** Workers 0 and 1, each about to insert a delivery for the same new ticket. */
  ghost predicate Racing(s: State, t: Ticket) {
    && s.events.Keys == {0, 1} && s.workers.Keys == {0, 1} && t !in s.deliveries
    && AboutToInsert(s.workers[0], 0, t) && AboutToInsert(s.workers[1], 1, t)
  }

  predicate AboutToInsert(stage: Stage, e: nat, t: Ticket) {
    stage.Decided? && stage.event == e && stage.decision.Insert? && stage.decision.ticket == t
  }

  /** The race happens: two recordings of one new ticket that both look before either commits. One
      inserts the delivery; the other's event ends `failed`. */
  lemma BothRecord(env: Env, deliveries: Deliveries, raw1: Raw, raw2: Raw, t: Ticket)
    requires Records(env, deliveries, raw1, t) && Records(env, deliveries, raw2, t) && env.sha(raw1) != env.sha(raw2)
    requires t !in deliveries
    ensures var racing := Run(env, Fresh(deliveries), [Arrive(0, raw1, 0), Arrive(1, raw2, 1), Look(0), Look(1)]);
            var s := Run(env, racing, [Commit(0, true), Commit(1, true), MarkFailed(1)]);
            Racing(racing, t) && OneInserted(s, t) && s.deliveries.Keys == deliveries.Keys + {t}
  {
    var s0 := Fresh(deliveries);
    FourSteps(env, s0, Arrive(0, raw1, 0), Arrive(1, raw2, 1), Look(0), Look(1));
    var racing := Run(env, s0, [Arrive(0, raw1, 0), Arrive(1, raw2, 1), Look(0), Look(1)]);
    ThreeSteps(env, racing, Commit(0, true), Commit(1, true), MarkFailed(1));
    BothLookToRecord(env, deliveries, raw1, raw2, t);
    OneInserts(env, racing, t);
    hide Run, Take, Records, Racing, OneInserted;
  }

  lemma BothLookToRecord(env: Env, deliveries: Deliveries, raw1: Raw, raw2: Raw, t: Ticket)
    requires Records(env, deliveries, raw1, t) && Records(env, deliveries, raw2, t) && env.sha(raw1) != env.sha(raw2)
    requires t !in deliveries
    ensures var s := Take(env, Take(env, Take(env, Take(env, Fresh(deliveries), Arrive(0, raw1, 0)), Arrive(1, raw2, 1)), Look(0)), Look(1));
            Racing(s, t) && s.deliveries == deliveries
  {
    hide DecideRecorded, DecideVerified;
  }

  predicate OneInserted(s: State, t: Ticket) {
    IsProcessed(s, 0) && 1 in s.events && s.events[1].status == Failed && t in s.deliveries && s.workers == map[]
  }

  lemma OneInserts(env: Env, s: State, t: Ticket)
    requires Racing(s, t)
    ensures var s' := Take(env, Take(env, Take(env, s, Commit(0, true)), Commit(1, true)), MarkFailed(1));
            OneInserted(s', t) && s'.deliveries.Keys == s.deliveries.Keys + {t}
  {
  }

  /** A recording of ticket `t` that the handler would accept. */
  predicate Records(env: Env, deliveries: Deliveries, raw: Raw, t: Ticket) {
    var b := env.parse(raw);
    b.Some? && b.value.kind == Recorded
    && var d := DecideRecorded(env.catalog, deliveries, b.value.data); d.Insert? && d.ticket == t
  }

  // ------------------------------------------------------------ verifying twice

  /** A verification that has not looked yet, of a delivery already verified. */
  ghost predicate TooLate(s: State, e: nat, t: Ticket) {
    && e in s.events && s.events[e].body.kind == Verified && TicketOf(s.events[e]) == Some(t)
    && s.events[e].status != Processed
    && t in s.deliveries && s.deliveries[t].verified
    && forall w :: w in s.workers && s.workers[w].event == e && s.workers[w].Decided? ==> s.workers[w].decision == Ignore
  }

  lemma TooLateLook(env: Env, s: State, w: nat, e: nat, t: Ticket)
    requires TooLate(s, e, t)
    ensures TooLate(TakeLook(env, s, w), e, t)
  {
    hide DecideRecorded;
  }

  lemma TooLateCommit(s: State, w: nat, writes: bool, e: nat, t: Ticket)
    requires TooLate(s, e, t)
    ensures TooLate(TakeCommit(s, w, writes), e, t)
  {
  }

  lemma TooLateStep(env: Env, s: State, step: Step, e: nat, t: Ticket)
    requires TooLate(s, e, t)
    ensures TooLate(Take(env, s, step), e, t)
  {
    match step
    case Look(w) =>
      TooLateLook(env, s, w, e, t);
    case Commit(w, writes) =>
      TooLateCommit(s, w, writes, e, t);
    case _ =>
      hide TakeLook, TakeCommit, Seen;
  }

  /** A verification that looks after another has committed is never processed. */
  lemma {:induction false} LateVerifyIsIgnored(env: Env, s: State, steps: seq<Step>, e: nat, t: Ticket)
    requires TooLate(s, e, t)
    ensures TooLate(Run(env, s, steps), e, t)
  {
    hide Take, TooLate;
    if steps != [] {
      var init := steps[..|steps| - 1];
      LateVerifyIsIgnored(env, s, init, e, t);
      TooLateStep(env, Run(env, s, init), steps[|steps| - 1], e, t);
    }
  }

  ghost predicate CanBeProcessed(env: Env, s: State, e: nat) {
    exists steps :: IsProcessed(Run(env, s, steps), e)
  }

  predicate IsProcessed(s: State, e: nat) { e in s.events && s.events[e].status == Processed }

  /** A worker has looked, found the delivery unverified, and is about to verify it. */
  ghost predicate AboutToVerify(s: State, e: nat) {
    exists w :: w in s.workers && s.workers[w].Decided? && s.workers[w].event == e && s.workers[w].decision.Verify?
  }

  /** The exact condition: once a delivery is verified, another verification of it can still be
      processed if and only if its worker has looked already, while it was not. */
  lemma SecondVerifyIff(env: Env, s: State, e: nat, t: Ticket, seeded: set<Ticket>)
    requires Inv(s, seeded, env.catalog) && e in s.events && s.events[e].status != Processed
    requires s.events[e].body.kind == Verified && TicketOf(s.events[e]) == Some(t)
    requires t in s.deliveries && s.deliveries[t].verified
    ensures CanBeProcessed(env, s, e) <==> AboutToVerify(s, e)
  {
    hide Run;
    if AboutToVerify(s, e) {
      var w :| w in s.workers && s.workers[w].Decided? && s.workers[w].event == e && s.workers[w].decision.Verify?;
      RunSnoc(env, s, [], Commit(w, true));
      assert WorkerOk(s.events, s.deliveries, s.workers[w], env.catalog);
      assert IsProcessed(Run(env, s, [Commit(w, true)]), e);
    } else {
      HeldIsLate(env, s, e, t, seeded);
      forall steps
        ensures !IsProcessed(Run(env, s, steps), e)
      {
        LateVerifyIsIgnored(env, s, steps, e, t);
      }
    }
  }

  lemma HeldIsLate(env: Env, s: State, e: nat, t: Ticket, seeded: set<Ticket>)
    requires Inv(s, seeded, env.catalog) && e in s.events && s.events[e].status != Processed
    requires s.events[e].body.kind == Verified && TicketOf(s.events[e]) == Some(t)
    requires t in s.deliveries && s.deliveries[t].verified && !AboutToVerify(s, e)
    ensures TooLate(s, e, t)
  {
    hide OneToOne, UniqueKeys;
    forall w | w in s.workers && s.workers[w].event == e && s.workers[w].Decided?
      ensures s.workers[w].decision == Ignore
    {
      assert WorkerOk(s.events, s.deliveries, s.workers[w], env.catalog);
    }
  }

  /** But two that both look before either commits are both processed: unlike an insert, the
      update has no unique key to stop the second. */
  lemma BothVerify(env: Env, deliveries: Deliveries, raw1: Raw, raw2: Raw, t: Ticket)
    requires Verifies(env, raw1, t) && Verifies(env, raw2, t) && env.sha(raw1) != env.sha(raw2)
    requires t in deliveries && !deliveries[t].verified
    ensures var s := Run(env, Fresh(deliveries),
                         [Arrive(0, raw1, 0), Arrive(1, raw2, 1), Look(0), Look(1), Commit(0, true), Commit(1, true)]);
            0 in s.events && 1 in s.events && s.events[0].status == Processed && s.events[1].status == Processed
  {
    hide Run, Take;
    var s0 := Fresh(deliveries);
    FourSteps(env, s0, Arrive(0, raw1, 0), Arrive(1, raw2, 1), Look(0), Look(1));
    var four := [Arrive(0, raw1, 0), Arrive(1, raw2, 1), Look(0), Look(1)];
    RunSnoc(env, s0, four, Commit(0, true));
    RunSnoc(env, s0, four + [Commit(0, true)], Commit(1, true));
    assert four + [Commit(0, true)] + [Commit(1, true)]
        == [Arrive(0, raw1, 0), Arrive(1, raw2, 1), Look(0), Look(1), Commit(0, true), Commit(1, true)];
    BothLook(env, deliveries, raw1, raw2, t);
    BothCommit(env, Run(env, s0, four), t);
  }

  lemma BothLook(env: Env, deliveries: Deliveries, raw1: Raw, raw2: Raw, t: Ticket)
    requires Verifies(env, raw1, t) && Verifies(env, raw2, t) && env.sha(raw1) != env.sha(raw2)
    requires t in deliveries && !deliveries[t].verified
    ensures var s := Take(env, Take(env, Take(env, Take(env, Fresh(deliveries), Arrive(0, raw1, 0)), Arrive(1, raw2, 1)), Look(0)), Look(1));
            0 in s.events && 1 in s.events && t in s.deliveries
            && s.workers == map[0 := Decided(0, Verify(t)), 1 := Decided(1, Verify(t))]
  {
  }

  lemma BothCommit(env: Env, s: State, t: Ticket)
    requires 0 in s.events && 1 in s.events && t in s.deliveries
    requires s.workers == map[0 := Decided(0, Verify(t)), 1 := Decided(1, Verify(t))]
    ensures var s' := Take(env, Take(env, s, Commit(0, true)), Commit(1, true));
            0 in s'.events && 1 in s'.events && s'.events[0].status == Processed && s'.events[1].status == Processed
  {
  }

  predicate Verifies(env: Env, raw: Raw, t: Ticket) {
    var b := env.parse(raw);
    b.Some? && b.value.kind == Verified && b.value.data.Some? && b.value.data.value.ticket == t
  }

  lemma RunSnoc(env: Env, s: State, steps: seq<Step>, last: Step)
    ensures Run(env, s, []) == s && [] + [last] == [last]
    ensures Run(env, s, steps + [last]) == Take(env, Run(env, s, steps), last)
  {
    assert (steps + [last])[..|steps|] == steps;
  }

  // ------------------------------------------------------------ ingest agrees with audit

  /** The audit reads the same conversion factors as the handler did, and their column can hold them. */
  ghost predicate FactorsUnchanged(catalog: Catalog, factors: map<int, real>) {
    forall name :: name in catalog.commodities ==>
      var c := catalog.commodities[name]; c.id in factors && factors[c.id] == c.lbsPerBu && (c.lbsPerBu == 0.0 || IsFactor(c.lbsPerBu))
  }

  /** The audit flags the row exactly when the weights in the payload say it will. */
  ghost predicate AuditAgrees(row: Delivery, body: Body, catalog: Catalog, factors: map<int, real>) {
    && body.data.Some? && body.data.value.gross.Number? && body.data.value.tare.Number?
    && body.data.value.commodity in catalog.commodities
    && var d := body.data.value;
    IsSuspect(row.weights, factors, NET_BU_TOLERANCE)
    <==> WillBeFlagged(d.gross.value, d.tare.value, catalog.commodities[d.commodity].lbsPerBu)
  }

  lemma MadeRowsAgree(row: Delivery, t: Ticket, body: Body, catalog: Catalog, factors: map<int, real>)
    requires MadeFrom(row, t, body, catalog) && FactorsUnchanged(catalog, factors)
    ensures AuditAgrees(row, body, catalog, factors)
  {
    var d := body.data.value;
    var gross, tare, c := Positive(d.gross), Positive(d.tare), catalog.commodities[d.commodity];
    assert c.id in factors;
    var sent := Delivered(d.ticket.text, c.id, gross.value, tare.value, NetBushels(gross.value, tare.value, c.lbsPerBu));
    assert row.weights == Stored(sent);
    FlaggedIff(sent, factors);
  }

  /** Ingest agrees with audit, over every run: whether the consistency rule flags a delivery the
      webhook created is settled by the two weights in the payload it was made from. */
  lemma IngestAgreesWithAudit(env: Env, deliveries: Deliveries, steps: seq<Step>, factors: map<int, real>, t: Ticket)
    requires FactorsUnchanged(env.catalog, factors)
    ensures var s := Run(env, Fresh(deliveries), steps);
            t in s.deliveries && t !in deliveries ==>
              exists e :: e in CreatedIds(s) && MadeFrom(s.deliveries[t], t, s.events[e].body, env.catalog)
                          && AuditAgrees(s.deliveries[t], s.events[e].body, env.catalog, factors)
  {
    hide FactorsUnchanged, MadeFrom, AuditAgrees;
    var s := Run(env, Fresh(deliveries), steps);
    ExactlyOnce(env, deliveries, steps);
    if t in s.deliveries && t !in deliveries {
      var e :| e in CreatedIds(s) && MadeFrom(s.deliveries[t], t, s.events[e].body, env.catalog);
      MadeRowsAgree(s.deliveries[t], t, s.events[e].body, env.catalog, factors);
    }
  }

  /** The whole report, over every run: among any rows the rule is given, a delivery the webhook created
      is reported exactly when the weights in the payload it was made from say so. */
  lemma AuditReports(env: Env, deliveries: Deliveries, steps: seq<Step>, factors: map<int, real>,
                     ds: seq<Delivered>, alerts: seq<Finding>, at: seq<nat>, i: nat, t: Ticket)
    requires FactorsUnchanged(env.catalog, factors)
    requires Picks(ds, Suspect(factors, NET_BU_TOLERANCE), at) && AllTell(alerts, ds, factors, NET_BU_TOLERANCE, at)
    requires var s := Run(env, Fresh(deliveries), steps);
             t in s.deliveries && t !in deliveries && i < |ds| && ds[i] == s.deliveries[t].weights
    ensures var s := Run(env, Fresh(deliveries), steps);
            exists e :: e in s.events && RecordedBy(s.events[e], t, s.deliveries[t], env.catalog)
                        && var d := s.events[e].body.data.value;
                        (i in at <==> WillBeFlagged(d.gross.value, d.tare.value, env.catalog.commodities[d.commodity].lbsPerBu))
    ensures i in at ==> exists k :: 0 <= k < |alerts| && alerts[k].ticket == t.text
  {
    hide FactorsUnchanged, MadeFrom, Run, IsSuspect, WillBeFlagged, Tells;
    var s := Run(env, Fresh(deliveries), steps);
    IngestAgreesWithAudit(env, deliveries, steps, factors, t);
    var e :| e in CreatedIds(s) && MadeFrom(s.deliveries[t], t, s.events[e].body, env.catalog)
             && AuditAgrees(s.deliveries[t], s.events[e].body, env.catalog, factors);
    MadeRowTells(s.deliveries[t], t, s.events[e].body, env.catalog);
    MadeForTicket(s.deliveries[t], t, s.events[e].body, env.catalog);
    assert RecordedBy(s.events[e], t, s.deliveries[t], env.catalog);
    if i in at {
      var k :| 0 <= k < |at| && at[k] == i;
      assert Tells(alerts[k], ds[i], factors, NET_BU_TOLERANCE);
      TellsTicket(alerts[k], ds[i], factors, NET_BU_TOLERANCE);
    }
  }

  lemma TellsTicket(f: Finding, d: Delivered, lbsPerBu: map<int, real>, tolerance: real)
    requires IsSuspect(d, lbsPerBu, tolerance) && Tells(f, d, lbsPerBu, tolerance)
    ensures f.ticket == d.ticket
  {
  }

  // ------------------------------------------------------------ one request, start to finish

  datatype Response = Rejected | Duplicate(event: nat, status: EventStatus) | Handled(event: nat, status: EventStatus)

  /** The two tables, and a request handled without interruption. */
  class Inbox {
    var events: Events
    var deliveries: Deliveries

    /** `_record_delivery`: Err stands for a raised exception, after which nothing is written. */
    method RecordDelivery(catalog: Catalog, data: Option<Data>, writes: bool) returns (r: Result<EventStatus, string>)
      modifies this`deliveries
      ensures Outcome(DecideRecorded(catalog, old(deliveries), data), old(deliveries), writes, deliveries, r)
      ensures r == Ok(Processed) <==> writes && IsNew(data, old(deliveries)) && Acceptable(catalog, data.value)
      ensures r == Ok(Processed) ==>
                var t := data.value.ticket;
                && deliveries.Keys == old(deliveries).Keys + {t} && RowTells(deliveries[t], data.value, catalog) && !deliveries[t].verified
                && forall u :: u in old(deliveries) ==> deliveries[u] == old(deliveries)[u]
      ensures r == Ok(Ignored) <==> IsTaken(data, old(deliveries))
      ensures r != Ok(Processed) ==> deliveries == old(deliveries)
    {
      RecordingIff(catalog, deliveries, data);
      hide RowTells, Acceptable;
      if data == None {
        return Err("payload.data must be an object");
      }
      var d := data.value;
      if d.ticket.text == "" {
        return Err("data.ticket_number is required");
      }
      if d.ticket in deliveries {
        return Ok(Ignored);
      }
      if d.customer !in catalog.customers || d.commodity !in catalog.commodities || d.facility !in catalog.facilities {
        return Err("unknown name in payload");
      }
      var gross, tare := Positive(d.gross), Positive(d.tare);
      if gross == None || tare == None {
        return Err("a weight is missing or not a number");
      }
      if tare.value >= gross.value {
        return Err("tare_lbs must be less than gross_lbs");
      }
      var commodity, customer := catalog.commodities[d.commodity], catalog.customers[d.customer];
      if commodity.lbsPerBu == 0.0 {
        return Err("division by zero");
      }
      var net := NetBushels(gross.value, tare.value, commodity.lbsPerBu);
      var contract := if (customer, commodity.id) in catalog.openContracts then Some(catalog.openContracts[(customer, commodity.id)]) else None;
      var moisture := Moisture(d.moisture);
      if moisture == None || d.deliveredAt == Unreadable {
        return Err("moisture_pct or delivered_at is unreadable");
      }
      if !writes {
        return Err("flush failed");
      }
      deliveries := deliveries[d.ticket :=
        Delivery(Stored(Delivered(d.ticket.text, commodity.id, gross.value, tare.value, net)), customer, catalog.facilities[d.facility],
                 contract, d.truck, Numeric2(moisture.value), d.deliveredAt, false)];
      return Ok(Processed);
    }

    /** The handler that confirms a delivery: Err stands for a raised exception. */
    method VerifyDelivery(data: Option<Data>, writes: bool) returns (r: Result<EventStatus, string>)
      modifies this`deliveries
      ensures Outcome(DecideVerified(old(deliveries), data), old(deliveries), writes, deliveries, r)
      ensures r == Ok(Processed) <==>
                writes && data.Some? && data.value.ticket in old(deliveries) && !old(deliveries)[data.value.ticket].verified
      ensures r == Ok(Processed) ==>
                deliveries == old(deliveries)[data.value.ticket := old(deliveries)[data.value.ticket].(verified := true)]
      ensures r == Ok(Ignored) <==> data.Some? && data.value.ticket in old(deliveries) && old(deliveries)[data.value.ticket].verified
      ensures r != Ok(Processed) ==> deliveries == old(deliveries)
    {
      if data == None {
        return Err("payload.data must be an object");
      }
      var t := data.value.ticket;
      if t !in deliveries {
        return Err("no delivery with that ticket");
      }
      if deliveries[t].verified {
        return Ok(Ignored);
      }
      if !writes {
        return Err("flush failed");
      }
      deliveries := deliveries[t := deliveries[t].(verified := true)];
      return Ok(Processed);
    }

    method ReceiveDelivery(env: Env, raw: Raw, id: nat, writes: bool) returns (r: Response)
      requires id !in events
      modifies this
      ensures var s := Run(env, State(old(events), old(deliveries), map[]),
                           [Arrive(0, raw, id), Look(0), Commit(0, writes), MarkFailed(0)]);
              events == s.events && deliveries == s.deliveries
      ensures r.Rejected? <==> env.parse(raw) == None
      ensures r.Duplicate? ==> r.event in old(events) && old(events)[r.event].key == env.sha(raw)
                               && r.status == old(events)[r.event].status
      ensures r.Handled? ==>
                && r.event == id && r.status in {Processed, Ignored, Failed}
                && events == old(events)[id := Event(env.sha(raw), env.parse(raw).value, r.status)]
      ensures !r.Handled? ==> events == old(events) && deliveries == old(deliveries)
      ensures r.Handled? && env.parse(raw).value.kind == Recorded ==>
                var data := env.parse(raw).value.data;
                && (r.status == Processed <==> writes && IsNew(data, old(deliveries)) && Acceptable(env.catalog, data.value))
                && (r.status == Ignored <==> IsTaken(data, old(deliveries)))
    {
      hide RowTells, Acceptable, DecideRecorded, DecideVerified;
      ghost var s0 := State(events, deliveries, map[]);
      FourSteps(env, s0, Arrive(0, raw, id), Look(0), Commit(0, writes), MarkFailed(0));
      var body := env.parse(raw);
      if body == None {
        return Rejected;
      }
      if Seen(events, env.sha(raw)) {
        var prior :| prior in events && events[prior].key == env.sha(raw);
        return Duplicate(prior, events[prior].status);
      }
      events := events[id := Event(env.sha(raw), body.value, Received)];
      // The event is committed; the handler has its own transaction.
      var result;
      if body.value.kind == Recorded {
        result := RecordDelivery(env.catalog, body.value.data, writes);
      } else {
        result := VerifyDelivery(body.value.data, writes);
      }
      events := SetStatus(events, id, if result.Ok? then result.value else Failed);
      Uninterrupted(env, s0, raw, id, writes, deliveries, result);
      return Handled(id, events[id].status);
    }
  }

  /** What a handler's decision comes to once its transaction has ended. */
  ghost predicate Outcome(decision: Decision, before: Deliveries, writes: bool, after: Deliveries, r: Result<EventStatus, string>) {
    match decision
    case Refuse => after == before && r.Err?
    case Ignore => after == before && r == Ok(Ignored)
    case Insert(t, row) => if writes then after == before[t := row] && r == Ok(Processed) else after == before && r.Err?
    case Verify(t) =>
      t in before
      && if writes then after == before[t := before[t].(verified := true)] && r == Ok(Processed) else after == before && r.Err?
  }

  lemma FourSteps(env: Env, s: State, a: Step, b: Step, c: Step, d: Step)
    ensures Run(env, s, [a, b, c, d]) == Take(env, Take(env, Take(env, Take(env, s, a), b), c), d)
  {
    RunSnoc(env, s, [], a);
    RunSnoc(env, s, [a], b);
    RunSnoc(env, s, [a, b], c);
    RunSnoc(env, s, [a, b, c], d);
    assert [a, b, c] + [d] == [a, b, c, d] && [a, b] + [c] == [a, b, c] && [a] + [b] == [a, b];
    hide Take, Run;
  }

  /** A request that nothing interrupts takes the same four steps as the machine. */
  lemma Uninterrupted(env: Env, s: State, raw: Raw, id: nat, writes: bool, after: Deliveries, r: Result<EventStatus, string>)
    requires s.workers == map[] && id !in s.events && env.parse(raw).Some? && !Seen(s.events, env.sha(raw))
    requires Outcome(Decide(env.catalog, s.deliveries, env.parse(raw).value), s.deliveries, writes, after, r)
    ensures var e := Event(env.sha(raw), env.parse(raw).value, if r.Ok? then r.value else Failed);
            var s' := Take(env, Take(env, Take(env, Take(env, s, Arrive(0, raw, id)), Look(0)), Commit(0, writes)), MarkFailed(0));
            s'.events == s.events[id := e] && s'.deliveries == after
  {
    var body := env.parse(raw).value;
    DecisionsAreFresh(env.catalog, s.deliveries, body);
    hide Decide, Seen;
  }

  lemma DecisionsAreFresh(catalog: Catalog, deliveries: Deliveries, body: Body)
    ensures var d := Decide(catalog, deliveries, body);
            && (d.Insert? ==> d.ticket !in deliveries)
            && (d.Verify? ==> d.ticket in deliveries)
  {
  }
}
