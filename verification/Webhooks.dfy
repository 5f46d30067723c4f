/**
 Webhook ingestion (backend/app/webhooks.py) as the database sees it: each request is a few
 atomic steps, requests run on worker threads and interleave freely, and any of them may die
 between two steps. Unique keys on events and tickets come from backend/app/models.py.
 */
module Webhooks {
  import opened Wrappers
  import opened Rounding
  import opened Bushels

  // ------------------------------------------------------------ requests

  datatype Raw = Raw(bytes: string)
  datatype DedupeKey = DedupeKey(hex: string)
  datatype Ticket = Ticket(text: string)

  /** A JSON number field, as `_decimal` finds it. */
  datatype Field = Missing | NotANumber | Number(value: real)

  /** `delivered_at`: absent, unreadable, or a time. */
  datatype Moment = Unstated | Unreadable | At(time: int)

  datatype Data = Data(ticket: Ticket, customer: string, commodity: string, facility: string, truck: string,
                       gross: Field, tare: Field, moisture: Field, deliveredAt: Moment)

  datatype Kind = Recorded | Verified

  /** A supported event; `data` is None when it is not an object. */
  datatype Body = Body(kind: Kind, data: Option<Data>)

  datatype Commodity = Commodity(id: int, lbsPerBu: real)

  /** The reference rows a handler looks up by name. */
  datatype Catalog = Catalog(customers: map<string, int>, commodities: map<string, Commodity>, facilities: map<string, int>,
                             openContracts: map<(int, int), int>)

  /** `parse` is None for a request refused before anything is stored: bad signature, not a
      JSON object, or an unsupported event. `sha` is the digest of the signed bytes. */
  datatype Env = Env(sha: Raw -> DedupeKey, parse: Raw -> Option<Body>, catalog: Catalog)

  // ------------------------------------------------------------ rows

  datatype EventStatus = Received | Processed | Failed | Ignored

  datatype Event = Event(key: DedupeKey, body: Body, status: EventStatus)

  datatype Delivery = Delivery(weights: Delivered, customerId: int, facilityId: int, contractId: Option<int>,
                               truck: string, moisture: real, deliveredAt: Moment, verified: bool)

  type Events = map<nat, Event>
  type Deliveries = map<Ticket, Delivery>

  predicate Seen(events: Events, key: DedupeKey) {
    exists id :: id in events && events[id].key == key
  }

  // ------------------------------------------------------------ the handlers

  /** What a handler has made up its mind to do, from one look at the committed rows. */
  datatype Decision = Refuse | Ignore | Insert(ticket: Ticket, row: Delivery) | Verify(ticket: Ticket)

  function Positive(f: Field): Option<real> {
    if f.Number? && f.value >= 0.0 then Some(f.value) else None
  }

  function Moisture(f: Field): Option<real> {
    if f == Missing then Some(0.0) else Positive(f)
  }

  function DecideRecorded(catalog: Catalog, deliveries: Deliveries, data: Option<Data>): Decision {
    if data == None then Refuse
    else
      var d := data.value;
      if d.ticket.text == "" then Refuse
      else if d.ticket in deliveries then Ignore
      else if d.customer !in catalog.customers || d.commodity !in catalog.commodities || d.facility !in catalog.facilities then Refuse
      else
        var row := NewRow(catalog, d);
        if row.Some? then Insert(d.ticket, row.value) else Refuse
  }

  /** The row to insert, when every figure in the payload can be used. */
  function NewRow(catalog: Catalog, d: Data): Option<Delivery>
    requires d.customer in catalog.customers && d.commodity in catalog.commodities && d.facility in catalog.facilities
  {
    var gross, tare, moisture := Positive(d.gross), Positive(d.tare), Moisture(d.moisture);
    var commodity, customer := catalog.commodities[d.commodity], catalog.customers[d.customer];
    if gross == None || tare == None || tare.value >= gross.value || commodity.lbsPerBu == 0.0
       || moisture == None || d.deliveredAt == Unreadable then None
    else
      var net := NetBushels(gross.value, tare.value, commodity.lbsPerBu);
      Some(Delivery(
             Stored(Delivered(d.ticket.text, commodity.id, gross.value, tare.value, net)),
             customer, catalog.facilities[d.facility],
             if (customer, commodity.id) in catalog.openContracts then Some(catalog.openContracts[(customer, commodity.id)]) else None,
             d.truck, Numeric2(moisture.value), d.deliveredAt, false))
  }

  /** What the handler asks of a recording: every name is known, the weights are given, neither is
      negative and tare is below gross, and moisture and time can be read if they are there. */
  ghost predicate Acceptable(catalog: Catalog, d: Data) {
    && d.customer in catalog.customers && d.commodity in catalog.commodities && d.facility in catalog.facilities
    && d.gross.Number? && d.tare.Number? && 0.0 <= d.tare.value < d.gross.value
    && catalog.commodities[d.commodity].lbsPerBu != 0.0
    && (d.moisture == Missing || (d.moisture.Number? && d.moisture.value >= 0.0))
    && d.deliveredAt != Unreadable
  }

  /** The row holds what the payload says, column by column. */
  ghost predicate RowTells(row: Delivery, d: Data, catalog: Catalog) {
    && Acceptable(catalog, d)
    && RefersTo(row, catalog.customers[d.customer], catalog.facilities[d.facility], catalog.commodities[d.commodity].id, catalog)
    && Weighs(row, d, catalog.commodities[d.commodity].lbsPerBu)
    && row.weights.ticket == d.ticket.text && row.truck == d.truck && row.deliveredAt == d.deliveredAt
    && row.moisture == (if d.moisture == Missing then 0.0 else Numeric2(d.moisture.value))
  }

  ghost predicate RefersTo(row: Delivery, customer: int, facility: int, commodity: int, catalog: Catalog) {
    && row.customerId == customer && row.facilityId == facility && row.weights.commodityId == commodity
    && (row.contractId.Some? <==> (customer, commodity) in catalog.openContracts)
    && (row.contractId.Some? ==> row.contractId.value == catalog.openContracts[(customer, commodity)])
  }

  ghost predicate Weighs(row: Delivery, d: Data, lbs: real)
    requires d.gross.Number? && d.tare.Number? && lbs != 0.0
  {
    && row.weights.gross == Numeric2(d.gross.value) && row.weights.tare == Numeric2(d.tare.value)
    && row.weights.netBu == Numeric2(Cents((d.gross.value - d.tare.value) / lbs))
  }

  lemma ZeroStored()
    ensures Numeric2(0.0) == 0.0
  {
    FloorIs(0.5, 0);
  }

  /** There is a row to insert exactly when the payload is acceptable, and it holds what the payload says. */
  lemma NewRowTells(catalog: Catalog, d: Data)
    requires d.customer in catalog.customers && d.commodity in catalog.commodities && d.facility in catalog.facilities
    ensures NewRow(catalog, d).Some? <==> Acceptable(catalog, d)
    ensures NewRow(catalog, d).Some? ==> RowTells(NewRow(catalog, d).value, d, catalog) && !NewRow(catalog, d).value.verified
  {
    hide Numeric2, Cents;
    ZeroStored();
  }

  /** The recording has a ticket, and that is not taken yet, or is. */
  predicate IsNew(data: Option<Data>, deliveries: Deliveries) {
    data.Some? && data.value.ticket.text != "" && data.value.ticket !in deliveries
  }

  predicate IsTaken(data: Option<Data>, deliveries: Deliveries) {
    data.Some? && data.value.ticket.text != "" && data.value.ticket in deliveries
  }

  /** A recording leads to an insert if and only if its ticket is new and its payload acceptable. */
  lemma RecordingIff(catalog: Catalog, deliveries: Deliveries, data: Option<Data>)
    ensures DecideRecorded(catalog, deliveries, data).Insert? <==> IsNew(data, deliveries) && Acceptable(catalog, data.value)
    ensures var decision := DecideRecorded(catalog, deliveries, data);
            decision.Insert? ==>
              decision.ticket == data.value.ticket && RowTells(decision.row, data.value, catalog) && !decision.row.verified
    ensures DecideRecorded(catalog, deliveries, data) == Ignore <==> IsTaken(data, deliveries)
    ensures !DecideRecorded(catalog, deliveries, data).Verify?
  {
    if data.Some? {
      var d := data.value;
      if d.customer in catalog.customers && d.commodity in catalog.commodities && d.facility in catalog.facilities {
        NewRowTells(catalog, d);
      }
    }
    hide NewRow, RowTells;
  }

  function DecideVerified(deliveries: Deliveries, data: Option<Data>): Decision {
    if data == None || data.value.ticket !in deliveries then Refuse
    else if deliveries[data.value.ticket].verified then Ignore
    else Verify(data.value.ticket)
  }

  function Decide(catalog: Catalog, deliveries: Deliveries, body: Body): Decision {
    match body.kind
    case Recorded => DecideRecorded(catalog, deliveries, body.data)
    case Verified => DecideVerified(deliveries, body.data)
  }

  // ------------------------------------------------------------ interleaved workers

  /** Where a worker is: its event is committed; it has decided; or its handler raised and was rolled back. */
  datatype Stage = Inserted(event: nat) | Decided(event: nat, decision: Decision) | Failing(event: nat)

  datatype State = State(events: Events, deliveries: Deliveries, workers: map<nat, Stage>)

  datatype Step =
    | Arrive(worker: nat, raw: Raw, id: nat)
    | Look(worker: nat)
    // `writes` is false when the flush fails for any other reason than a taken ticket.
    | Commit(worker: nat, writes: bool)
    | MarkFailed(worker: nat)
    | Crash(worker: nat)

  function SetStatus(events: Events, id: nat, status: EventStatus): Events
    requires id in events
  {
    events[id := events[id].(status := status)]
  }

  function TakeArrive(env: Env, s: State, w: nat, raw: Raw, id: nat): State {
    var body := env.parse(raw);
    if w in s.workers || id in s.events || body == None || Seen(s.events, env.sha(raw)) then s
    else s.(events := s.events[id := Event(env.sha(raw), body.value, Received)], workers := s.workers[w := Inserted(id)])
  }

  function TakeLook(env: Env, s: State, w: nat): State {
    if w in s.workers && s.workers[w].Inserted? && s.workers[w].event in s.events then
      var e := s.workers[w].event;
      var decision := Decide(env.catalog, s.deliveries, s.events[e].body);
      s.(workers := s.workers[w := if decision == Refuse then Failing(e) else Decided(e, decision)])
    else s
  }

  /** The handler's transaction: its row change and the event's status commit together. */
  function TakeCommit(s: State, w: nat, writes: bool): State {
    if w in s.workers && s.workers[w].Decided? && s.workers[w].event in s.events then
      var Decided(e, decision) := s.workers[w];
      match decision
      case Refuse => s
      case Ignore => s.(events := SetStatus(s.events, e, Ignored), workers := s.workers - {w})
      case Insert(t, row) =>
        // The unique ticket lets only one insert through.
        if t in s.deliveries || !writes then s.(workers := s.workers[w := Failing(e)])
        else State(SetStatus(s.events, e, Processed), s.deliveries[t := row], s.workers - {w})
      case Verify(t) =>
        if t !in s.deliveries || !writes then s.(workers := s.workers[w := Failing(e)])
        else State(SetStatus(s.events, e, Processed), s.deliveries[t := s.deliveries[t].(verified := true)], s.workers - {w})
    else s
  }

  function TakeMarkFailed(s: State, w: nat): State {
    if w in s.workers && s.workers[w].Failing? && s.workers[w].event in s.events then
      s.(events := SetStatus(s.events, s.workers[w].event, Failed), workers := s.workers - {w})
    else s
  }

  function Take(env: Env, s: State, step: Step): State {
    match step
    case Arrive(w, raw, id) => TakeArrive(env, s, w, raw, id)
    case Look(w) => TakeLook(env, s, w)
    case Commit(w, writes) => TakeCommit(s, w, writes)
    case MarkFailed(w) => TakeMarkFailed(s, w)
    case Crash(w) => s.(workers := s.workers - {w})
  }

  /** Any sequence of steps is a run; a step that is not enabled does nothing. */
  function Run(env: Env, s: State, steps: seq<Step>): State {
    if steps == [] then s else Take(env, Run(env, s, steps[..|steps| - 1]), steps[|steps| - 1])
  }

  // ------------------------------------------------------------ what every run keeps

  function TicketOf(e: Event): Option<Ticket> {
    if e.body.data.Some? then Some(e.body.data.value.ticket) else None
  }

  predicate Created(e: Event) { e.body.kind == Recorded && e.status == Processed && e.body.data.Some? }

  /** One event row per dedupe key. */
  ghost predicate UniqueKeys(events: Events) {
    forall i, j :: i in events && j in events && i != j ==> events[i].key != events[j].key
  }

  /** Each worker holds an event that is still `received`, and no two hold the same one. */
  ghost predicate WorkersOk(s: State, catalog: Catalog) {
    && (forall w :: w in s.workers ==> WorkerOk(s.events, s.deliveries, s.workers[w], catalog))
    && forall v, w :: v in s.workers && w in s.workers && v != w ==> s.workers[v].event != s.workers[w].event
  }

  ghost predicate WorkerOk(events: Events, deliveries: Deliveries, stage: Stage, catalog: Catalog) {
    && stage.event in events && events[stage.event].status == Received
    && (stage.Decided? ==> DecisionOk(events[stage.event].body, deliveries, stage.decision, catalog))
  }

  ghost predicate DecisionOk(body: Body, deliveries: Deliveries, decision: Decision, catalog: Catalog) {
    match decision
    case Refuse => false
    case Ignore => true
    case Insert(t, row) => body.kind == Recorded && MadeFrom(row, t, body, catalog) && !row.verified
    case Verify(t) => body.kind == Verified && body.data.Some? && body.data.value.ticket == t && t in deliveries
  }

  /** `row` is what the payload says, weights and bushels included. */
  ghost predicate MadeFrom(row: Delivery, t: Ticket, body: Body, catalog: Catalog) {
    && body.data.Some? && body.data.value.ticket == t
    && var d := body.data.value;
    && d.customer in catalog.customers && d.commodity in catalog.commodities && d.facility in catalog.facilities
    && NewRow(catalog, d) == Some(row.(verified := false))
  }

  /** Deliveries beyond the seeded ones and processed `delivery.recorded` events match one to one by ticket. */
  ghost predicate OneToOne(events: Events, deliveries: Deliveries, seeded: set<Ticket>, catalog: Catalog) {
    && seeded <= deliveries.Keys
    && (forall e :: e in events && Created(events[e]) ==> CreatedOk(events[e], deliveries, seeded, catalog))
    && (forall t :: t in deliveries && t !in seeded ==> exists e :: e in events && Created(events[e]) && TicketOf(events[e]) == Some(t))
    && (forall d, e :: d in events && e in events && d != e ==> DifferentTickets(events[d], events[e]))
  }

  ghost predicate DifferentTickets(d: Event, e: Event) {
    Created(d) && Created(e) ==> TicketOf(d) != TicketOf(e)
  }

  ghost predicate CreatedOk(e: Event, deliveries: Deliveries, seeded: set<Ticket>, catalog: Catalog)
    requires e.body.data.Some?
  {
    var t := e.body.data.value.ticket;
    t in deliveries && t !in seeded && MadeFrom(deliveries[t], t, e.body, catalog)
  }

  ghost predicate Inv(s: State, seeded: set<Ticket>, catalog: Catalog) {
    UniqueKeys(s.events) && WorkersOk(s, catalog) && OneToOne(s.events, s.deliveries, seeded, catalog)
  }

  /** No event has arrived yet; some deliveries are already there. */
  function Fresh(deliveries: Deliveries): State { State(map[], deliveries, map[]) }

  lemma FreshKeeps(deliveries: Deliveries, catalog: Catalog)
    ensures Inv(Fresh(deliveries), deliveries.Keys, catalog)
  {
  }

  lemma ArriveKeeps(env: Env, s: State, w: nat, raw: Raw, id: nat, seeded: set<Ticket>)
    requires Inv(s, seeded, env.catalog)
    ensures Inv(TakeArrive(env, s, w, raw, id), seeded, env.catalog)
  {
    hide WorkersOk, UniqueKeys, OneToOne;
    var s' := TakeArrive(env, s, w, raw, id);
    if s' != s {
      var e := s'.events[id];
      NewEvent(s.events, id, e);
      SameCreated(s.events, s'.events, s.deliveries, seeded, env.catalog);
      WorkerJoins(s, w, id, e, env.catalog);
    }
  }

  lemma NewEvent(events: Events, id: nat, e: Event)
    requires UniqueKeys(events) && id !in events && !Seen(events, e.key)
    ensures UniqueKeys(events[id := e])
  {
  }

  lemma WorkerJoins(s: State, w: nat, id: nat, e: Event, catalog: Catalog)
    requires WorkersOk(s, catalog) && w !in s.workers && id !in s.events && e.status == Received
    ensures WorkersOk(State(s.events[id := e], s.deliveries, s.workers[w := Inserted(id)]), catalog)
  {
    hide DecisionOk;
    forall v | v in s.workers
      ensures WorkerOk(s.events[id := e], s.deliveries, s.workers[v], catalog) && s.workers[v].event != id
    {
      assert WorkerOk(s.events, s.deliveries, s.workers[v], catalog);
    }
  }

  /** Event rows may come and change freely as long as the created ones stay the same. */
  lemma SameCreated(before: Events, after: Events, deliveries: Deliveries, seeded: set<Ticket>, catalog: Catalog)
    requires OneToOne(before, deliveries, seeded, catalog)
    requires forall e :: e in before && Created(before[e]) ==> e in after && after[e] == before[e]
    requires forall e :: e in after && Created(after[e]) ==> e in before && before[e] == after[e]
    ensures OneToOne(after, deliveries, seeded, catalog)
  {
    hide MadeFrom;
    forall t | t in deliveries && t !in seeded
      ensures exists e :: e in after && Created(after[e]) && TicketOf(after[e]) == Some(t)
    {
      var e :| e in before && Created(before[e]) && TicketOf(before[e]) == Some(t);
      assert e in after;
    }
    forall d, e | d in after && e in after && d != e
      ensures DifferentTickets(after[d], after[e])
    {
      if Created(after[d]) && Created(after[e]) {
        assert DifferentTickets(before[d], before[e]);
      }
    }
  }

  lemma DecisionsAreOk(catalog: Catalog, deliveries: Deliveries, body: Body)
    ensures var d := Decide(catalog, deliveries, body); d != Refuse ==> DecisionOk(body, deliveries, d, catalog)
  {
    RecordingIff(catalog, deliveries, body.data);
    hide RowTells;
  }

  lemma LookKeeps(env: Env, s: State, w: nat, seeded: set<Ticket>)
    requires Inv(s, seeded, env.catalog)
    ensures Inv(TakeLook(env, s, w), seeded, env.catalog)
  {
    hide DecisionOk, MadeFrom, Decide, OneToOne;
    if w in s.workers && s.workers[w].Inserted? {
      assert WorkerOk(s.events, s.deliveries, s.workers[w], env.catalog);
      DecisionsAreOk(env.catalog, s.deliveries, s.events[s.workers[w].event].body);
    }
  }

  /** A finished event leaves every other worker as it was. */
  lemma WorkerLeaves(s: State, w: nat, status: EventStatus, deliveries: Deliveries, catalog: Catalog)
    requires WorkersOk(s, catalog) && w in s.workers
    requires forall t :: t in s.deliveries ==> t in deliveries
    ensures var e := s.workers[w].event;
            e in s.events && WorkersOk(State(SetStatus(s.events, e, status), deliveries, s.workers - {w}), catalog)
  {
    hide MadeFrom;
    assert WorkerOk(s.events, s.deliveries, s.workers[w], catalog);
    forall v | v in s.workers && v != w
      ensures WorkerOk(SetStatus(s.events, s.workers[w].event, status), deliveries, s.workers[v], catalog)
    {
      assert WorkerOk(s.events, s.deliveries, s.workers[v], catalog);
    }
  }

  lemma StatusKeepsKeys(events: Events, id: nat, status: EventStatus)
    requires UniqueKeys(events) && id in events
    ensures UniqueKeys(SetStatus(events, id, status))
  {
  }

  lemma CommitKeeps(s: State, w: nat, writes: bool, seeded: set<Ticket>, catalog: Catalog)
    requires Inv(s, seeded, catalog)
    ensures Inv(TakeCommit(s, w, writes), seeded, catalog)
  {
    hide MadeFrom, OneToOne, UniqueKeys;
    if w in s.workers && s.workers[w].Decided? {
      var Decided(e, decision) := s.workers[w];
      assert WorkerOk(s.events, s.deliveries, s.workers[w], catalog);
      match decision
      case Refuse =>
      case Ignore =>
        WorkerLeaves(s, w, Ignored, s.deliveries, catalog);
        StatusKeepsKeys(s.events, e, Ignored);
        NotCreated(s.events, e, Ignored, s.deliveries, seeded, catalog);
      case Insert(t, row) =>
        if t in s.deliveries || !writes {
          FailKeeps(s, w, catalog);
        } else {
          WorkerLeaves(s, w, Processed, s.deliveries[t := row], catalog);
          StatusKeepsKeys(s.events, e, Processed);
          InsertMatches(s.events, e, t, row, s.deliveries, seeded, catalog);
        }
      case Verify(t) =>
        if t !in s.deliveries || !writes {
          FailKeeps(s, w, catalog);
        } else {
          var verified := s.deliveries[t := s.deliveries[t].(verified := true)];
          WorkerLeaves(s, w, Processed, verified, catalog);
          StatusKeepsKeys(s.events, e, Processed);
          NotCreated(s.events, e, Processed, s.deliveries, seeded, catalog);
          VerifyMatches(SetStatus(s.events, e, Processed), t, s.deliveries, seeded, catalog);
        }
    }
  }

  lemma FailKeeps(s: State, w: nat, catalog: Catalog)
    requires WorkersOk(s, catalog) && w in s.workers
    ensures WorkersOk(s.(workers := s.workers[w := Failing(s.workers[w].event)]), catalog)
  {
    hide DecisionOk;
    assert WorkerOk(s.events, s.deliveries, s.workers[w], catalog);
  }

  lemma NotCreated(events: Events, e: nat, status: EventStatus, deliveries: Deliveries, seeded: set<Ticket>, catalog: Catalog)
    requires OneToOne(events, deliveries, seeded, catalog) && e in events && events[e].status == Received
    requires status != Processed || events[e].body.kind == Verified
    ensures OneToOne(SetStatus(events, e, status), deliveries, seeded, catalog)
  {
    SameCreated(events, SetStatus(events, e, status), deliveries, seeded, catalog);
  }

  /** The insert adds one delivery and one processed event, with the same, new, ticket. */
  lemma InsertMatches(events: Events, e: nat, t: Ticket, row: Delivery, deliveries: Deliveries, seeded: set<Ticket>, catalog: Catalog)
    requires OneToOne(events, deliveries, seeded, catalog) && e in events && events[e].status == Received
    requires events[e].body.kind == Recorded && MadeFrom(row, t, events[e].body, catalog) && t !in deliveries
    ensures OneToOne(SetStatus(events, e, Processed), deliveries[t := row], seeded, catalog)
  {
    var after, rows := SetStatus(events, e, Processed), deliveries[t := row];
    assert TicketOf(after[e]) == Some(t) && Created(after[e]);
    hide MadeFrom;
    forall d | d in after && Created(after[d])
      ensures CreatedOk(after[d], rows, seeded, catalog)
    {
      if d != e {
        assert CreatedOk(events[d], deliveries, seeded, catalog);
      }
    }
    NewTicketsCovered(events, e, t, row, deliveries, seeded, catalog);
    NewTicketDiffers(events, e, t, deliveries, seeded, catalog);
  }

  lemma NewTicketsCovered(events: Events, e: nat, t: Ticket, row: Delivery, deliveries: Deliveries, seeded: set<Ticket>, catalog: Catalog)
    requires OneToOne(events, deliveries, seeded, catalog) && e in events && events[e].status == Received
    requires events[e].body.kind == Recorded && TicketOf(events[e]) == Some(t)
    ensures var after := SetStatus(events, e, Processed);
            forall u :: u in deliveries[t := row] && u !in seeded ==>
              exists d :: d in after && Created(after[d]) && TicketOf(after[d]) == Some(u)
  {
    hide CreatedOk, DifferentTickets;
    var after := SetStatus(events, e, Processed);
    forall u | u in deliveries[t := row] && u !in seeded
      ensures exists d :: d in after && Created(after[d]) && TicketOf(after[d]) == Some(u)
    {
      if u == t {
        assert Created(after[e]) && TicketOf(after[e]) == Some(t);
      } else {
        var d :| d in events && Created(events[d]) && TicketOf(events[d]) == Some(u);
        assert after[d] == events[d];
      }
    }
  }

  lemma NewTicketDiffers(events: Events, e: nat, t: Ticket, deliveries: Deliveries, seeded: set<Ticket>, catalog: Catalog)
    requires OneToOne(events, deliveries, seeded, catalog) && e in events && t !in deliveries && TicketOf(events[e]) == Some(t)
    ensures var after := SetStatus(events, e, Processed);
            forall c, d :: c in after && d in after && c != d ==> DifferentTickets(after[c], after[d])
  {
    hide MadeFrom;
    var after := SetStatus(events, e, Processed);
    forall c, d | c in after && d in after && c != d
      ensures DifferentTickets(after[c], after[d])
    {
      if c == e || d == e {
        var other := if c == e then d else c;
        if Created(events[other]) {
          assert CreatedOk(events[other], deliveries, seeded, catalog);
        }
      } else {
        assert DifferentTickets(events[c], events[d]);
      }
    }
  }

  lemma VerifyMatches(events: Events, t: Ticket, deliveries: Deliveries, seeded: set<Ticket>, catalog: Catalog)
    requires OneToOne(events, deliveries, seeded, catalog) && t in deliveries
    ensures OneToOne(events, deliveries[t := deliveries[t].(verified := true)], seeded, catalog)
  {
    var rows := deliveries[t := deliveries[t].(verified := true)];
    forall d | d in events && Created(events[d])
      ensures CreatedOk(events[d], rows, seeded, catalog)
    {
      assert CreatedOk(events[d], deliveries, seeded, catalog);
      StillMadeFrom(deliveries[events[d].body.data.value.ticket], events[d].body.data.value.ticket, events[d].body, catalog);
    }
    hide CreatedOk, DifferentTickets;
  }

  lemma StillMadeFrom(row: Delivery, t: Ticket, body: Body, catalog: Catalog)
    requires MadeFrom(row, t, body, catalog)
    ensures MadeFrom(row.(verified := true), t, body, catalog)
  {
    assert row.(verified := true).(verified := false) == row.(verified := false);
  }

  lemma MarkFailedKeeps(s: State, w: nat, seeded: set<Ticket>, catalog: Catalog)
    requires Inv(s, seeded, catalog)
    ensures Inv(TakeMarkFailed(s, w), seeded, catalog)
  {
    hide MadeFrom, OneToOne, UniqueKeys, DecisionOk;
    if w in s.workers && s.workers[w].Failing? {
      assert WorkerOk(s.events, s.deliveries, s.workers[w], catalog);
      WorkerLeaves(s, w, Failed, s.deliveries, catalog);
      StatusKeepsKeys(s.events, s.workers[w].event, Failed);
      NotCreated(s.events, s.workers[w].event, Failed, s.deliveries, seeded, catalog);
    }
  }

  lemma CrashKeeps(s: State, w: nat, seeded: set<Ticket>, catalog: Catalog)
    requires Inv(s, seeded, catalog)
    ensures Inv(s.(workers := s.workers - {w}), seeded, catalog)
  {
    hide OneToOne, UniqueKeys, WorkerOk;
  }

  lemma StepKeeps(env: Env, s: State, step: Step, seeded: set<Ticket>)
    requires Inv(s, seeded, env.catalog)
    ensures Inv(Take(env, s, step), seeded, env.catalog)
  {
    hide Inv, TakeArrive, TakeLook, TakeCommit, TakeMarkFailed;
    match step
    case Arrive(w, raw, id) => ArriveKeeps(env, s, w, raw, id, seeded);
    case Look(w) => LookKeeps(env, s, w, seeded);
    case Commit(w, writes) => CommitKeeps(s, w, writes, seeded, env.catalog);
    case MarkFailed(w) => MarkFailedKeeps(s, w, seeded, env.catalog);
    case Crash(w) => CrashKeeps(s, w, seeded, env.catalog);
  }

  /** In every interleaving of requests, replays and crashes: one event row per body digest,
      at most one worker per event, and deliveries and processed recordings one to one. */
  lemma {:induction false} EveryRunKeeps(env: Env, s: State, steps: seq<Step>, seeded: set<Ticket>)
    requires Inv(s, seeded, env.catalog)
    ensures Inv(Run(env, s, steps), seeded, env.catalog)
  {
    hide Inv, Take;
    if steps != [] {
      EveryRunKeeps(env, s, steps[..|steps| - 1], seeded);
      StepKeeps(env, Run(env, s, steps[..|steps| - 1]), steps[|steps| - 1], seeded);
    }
  }
}
