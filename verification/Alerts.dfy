/**
 The life of risk alerts: a scan reconciles its findings with the stored rows
 (backend/app/agents.py, upsert_alerts), and people acknowledge or resolve them
 (backend/app/agentsapi.py). Rows are keyed by fingerprint, which is unique.
 */
module Alerts {
  import opened Wrappers

  datatype Status = Open | Acknowledged | Resolved

  datatype Details = Details(severity: string, title: string, confidence: real, evidence: string, recommendation: string)

  /** The digest that identifies an alert's condition. */
  datatype Fingerprint = Fingerprint(hex: string)

  datatype Finding = Finding(fingerprint: Fingerprint, kind: string, details: Details)

  datatype Row = Row(kind: string, details: Details, status: Status,
                     firstSeen: int, lastSeen: int, resolvedAt: Option<int>, acknowledgedBy: Option<int>)

  type Rows = map<Fingerprint, Row>

  datatype Counts = Counts(found: nat, created: nat, updated: nat, reopened: nat, autoResolved: nat)

  const FINANCE_ONLY_KINDS := ["duplicate_invoice", "contract_offmarket", "unhedged_position"]

  predicate IsFinanceOnly(kind: string) { kind in FINANCE_ONLY_KINDS }

  /** Three kinds of alert are for finance roles only. */
  predicate HiddenFrom(kind: string, finance: bool) {
    !finance && (kind == "duplicate_invoice" || kind == "contract_offmarket" || kind == "unhedged_position")
  }

  predicate IsLive(r: Row) { r.status != Resolved }

  function Live(rows: Rows): set<Fingerprint> { set fp | fp in rows && IsLive(rows[fp]) }

  /** The findings by fingerprint; of several with the same one, the last wins. */
  function ByFingerprint(found: seq<Finding>): map<Fingerprint, Finding> {
    if found == [] then map[]
    else
      var last := found[|found| - 1];
      ByFingerprint(found[..|found| - 1])[last.fingerprint := last]
  }

  lemma {:induction false} ByFingerprintKeys(found: seq<Finding>)
    ensures forall fp :: fp in ByFingerprint(found) <==> exists f :: f in found && f.fingerprint == fp
    ensures forall fp :: fp in ByFingerprint(found) ==> ByFingerprint(found)[fp] in found && ByFingerprint(found)[fp].fingerprint == fp
  {
    if found != [] {
      var init, last := found[..|found| - 1], found[|found| - 1];
      ByFingerprintKeys(init);
      assert found == init + [last];
      assert forall f :: f in found <==> f in init || f == last;
    }
  }

  // ------------------------------------------------------------ one scan, as a function

  /** What a reported fingerprint's row becomes. */
  function Refreshed(stored: Option<Row>, f: Finding, now: int): Row {
    match stored
    case None => Row(f.kind, f.details, Open, now, now, None, None)
    case Some(r) =>
      var r := r.(details := f.details, lastSeen := now);
      if r.status == Resolved then r.(status := Open, resolvedAt := None) else r
  }

  /** Is the fingerprint spared by a scan? A scan without findings spares the empty one instead. */
  predicate Excepted(fp: Fingerprint, byFp: map<Fingerprint, Finding>) {
    if byFp == map[] then fp == Fingerprint("") else fp in byFp
  }

  predicate GoneStale(fp: Fingerprint, r: Row, byFp: map<Fingerprint, Finding>) {
    IsLive(r) && !Excepted(fp, byFp)
  }

  function AfterScan(rows: Rows, byFp: map<Fingerprint, Finding>, now: int): (r: Rows)
    ensures r.Keys == rows.Keys + byFp.Keys
  {
    map fp | fp in rows.Keys + byFp.Keys ::
      if fp in byFp then Refreshed(if fp in rows then Some(rows[fp]) else None, byFp[fp], now)
      else if GoneStale(fp, rows[fp], byFp) then rows[fp].(status := Resolved, resolvedAt := Some(now))
      else rows[fp]
  }

  /** The rows once the findings `seen` have been recorded. */
  function AfterFound(rows: Rows, byFp: map<Fingerprint, Finding>, seen: set<Fingerprint>, now: int): Rows
    requires seen <= byFp.Keys
  {
    map fp | fp in rows.Keys + seen ::
      if fp in seen then Refreshed(if fp in rows then Some(rows[fp]) else None, byFp[fp], now) else rows[fp]
  }

  function AfterStale(rows: Rows, stale: set<Fingerprint>, now: int): Rows {
    map fp | fp in rows ::
      if fp in stale then rows[fp].(status := Resolved, resolvedAt := Some(now)) else rows[fp]
  }

  function StaleSet(rows: Rows, byFp: map<Fingerprint, Finding>): set<Fingerprint> {
    set fp | fp in rows && GoneStale(fp, rows[fp], byFp)
  }

  method Distinct(found: seq<Finding>) returns (byFp: map<Fingerprint, Finding>)
    ensures byFp == ByFingerprint(found)
  {
    byFp := map[];
    for i := 0 to |found|
      invariant byFp == ByFingerprint(found[..i])
    {
      assert found[..i + 1][..i] == found[..i];
      byFp := byFp[found[i].fingerprint := found[i]];
    }
    assert found[..|found|] == found;
  }

  // ------------------------------------------------------------ the table

  class AlertTable {
    var rows: Rows

    /** Reconcile a scan's findings with the stored alerts. */
    method UpsertAlerts(found: seq<Finding>, now: int) returns (c: Counts)
      modifies this
      ensures rows == AfterScan(old(rows), ByFingerprint(found), now)
      ensures IsScanned(old(rows), rows, found, now)
      ensures c == ScanCounts(old(rows), ByFingerprint(found), |found|)
    {
      ScanMeans(rows, found, now);
      hide GoneStale, Refreshed, ByFingerprint, IsScanned;
      var byFp := Distinct(found);
      var created, updated, reopened := RecordFound(byFp, now);
      // What is live but was not reported is over.
      StaleUntouched(old(rows), rows, byFp);
      var autoResolved := ResolveStale(byFp, now);
      return Counts(|found|, created, updated, reopened, autoResolved);
    }

    method RecordFound(byFp: map<Fingerprint, Finding>, now: int) returns (created: nat, updated: nat, reopened: nat)
      modifies this
      ensures rows == AfterFound(old(rows), byFp, byFp.Keys, now)
      ensures created == |Created(old(rows), byFp.Keys)|
      ensures updated == |Updated(old(rows), byFp.Keys)|
      ensures reopened == |Reopened(old(rows), byFp.Keys)|
    {
      hide Created, Updated, Reopened, AfterFound;
      var existing := map fp | fp in rows && fp in byFp :: rows[fp];
      created, updated, reopened := 0, 0, 0;
      var todo := byFp.Keys;
      CountNothing(rows, byFp, now);
      assert byFp.Keys - todo == {};
      while todo != {}
        invariant todo <= byFp.Keys && rows == AfterFound(old(rows), byFp, byFp.Keys - todo, now)
        invariant created == |Created(old(rows), byFp.Keys - todo)|
        invariant updated == |Updated(old(rows), byFp.Keys - todo)|
        invariant reopened == |Reopened(old(rows), byFp.Keys - todo)|
        decreases |todo|
      {
        var fp :| fp in todo;
        var f := byFp[fp];
        ghost var seen := byFp.Keys - todo;
        OneMoreCreated(old(rows), seen, fp);
        OneMoreReopened(old(rows), seen, fp);
        OneMoreUpdated(old(rows), seen, fp);
        OneMoreFound(old(rows), byFp, seen, fp, now);
        todo := todo - {fp};
        assert byFp.Keys - todo == seen + {fp};
        if fp !in existing {
          rows := rows[fp := Row(f.kind, f.details, Open, now, now, None, None)];
          created := created + 1;
        } else {
          var row := existing[fp].(details := f.details, lastSeen := now);
          if row.status == Resolved {
            row := row.(status := Open, resolvedAt := None);
            reopened := reopened + 1;
          } else {
            updated := updated + 1;
          }
          rows := rows[fp := row];
        }
      }
      assert byFp.Keys - todo == byFp.Keys;
    }

    method ResolveStale(byFp: map<Fingerprint, Finding>, now: int) returns (n: nat)
      modifies this
      ensures rows == AfterStale(old(rows), StaleSet(old(rows), byFp), now) && n == |StaleSet(old(rows), byFp)|
    {
      hide GoneStale;
      var stale := StaleSet(rows, byFp);
      var todo := stale;
      assert stale - todo == {};
      while todo != {}
        invariant todo <= stale && rows == AfterStale(old(rows), stale - todo, now)
        decreases |todo|
      {
        var fp :| fp in todo;
        rows := rows[fp := rows[fp].(status := Resolved, resolvedAt := Some(now))];
        todo := todo - {fp};
      }
      assert stale - todo == stale;
      return |stale|;
    }

    /** A person acknowledges an alert: 404 if absent or hidden from the role, 409 if resolved. */
    method Acknowledge(fp: Fingerprint, user: int, finance: bool) returns (code: int)
      modifies this
      ensures (rows, code) == AfterAcknowledge(old(rows), fp, user, finance)
      ensures code == 404 <==> fp !in old(rows) || HiddenFrom(old(rows)[fp].kind, finance)
      ensures code == 409 <==> fp in old(rows) && !HiddenFrom(old(rows)[fp].kind, finance) && old(rows)[fp].status == Resolved
      ensures code == 200 <==> fp in old(rows) && !HiddenFrom(old(rows)[fp].kind, finance) && old(rows)[fp].status != Resolved
      ensures code == 200 ==> rows == old(rows)[fp := old(rows)[fp].(status := Acknowledged, acknowledgedBy := Some(user))]
      ensures code != 200 ==> rows == old(rows)
    {
      if fp !in rows || (IsFinanceOnly(rows[fp].kind) && !finance) {
        return 404;
      }
      if rows[fp].status == Resolved {
        return 409;
      }
      rows := rows[fp := rows[fp].(status := Acknowledged, acknowledgedBy := Some(user))];
      return 200;
    }

    method Resolve(fp: Fingerprint, user: int, finance: bool, now: int) returns (code: int)
      modifies this
      ensures (rows, code) == AfterResolve(old(rows), fp, user, finance, now)
      ensures code == 404 <==> fp !in old(rows) || HiddenFrom(old(rows)[fp].kind, finance)
      ensures code == 200 <==> fp in old(rows) && !HiddenFrom(old(rows)[fp].kind, finance)
      ensures code == 200 ==>
                rows == old(rows)[fp := old(rows)[fp].(status := Resolved, resolvedAt := Some(now), acknowledgedBy := Some(user))]
      ensures code != 200 ==> rows == old(rows)
    {
      if fp !in rows || (IsFinanceOnly(rows[fp].kind) && !finance) {
        return 404;
      }
      rows := rows[fp := rows[fp].(status := Resolved, resolvedAt := Some(now), acknowledgedBy := Some(user))];
      return 200;
    }
  }

  predicate Visible(rows: Rows, fp: Fingerprint, finance: bool) {
    fp in rows && (IsFinanceOnly(rows[fp].kind) ==> finance)
  }

  function AfterAcknowledge(rows: Rows, fp: Fingerprint, user: int, finance: bool): (Rows, int) {
    if !Visible(rows, fp, finance) then (rows, 404)
    else if rows[fp].status == Resolved then (rows, 409)
    else (rows[fp := rows[fp].(status := Acknowledged, acknowledgedBy := Some(user))], 200)
  }

  function AfterResolve(rows: Rows, fp: Fingerprint, user: int, finance: bool, now: int): (Rows, int) {
    if !Visible(rows, fp, finance) then (rows, 404)
    else (rows[fp := rows[fp].(status := Resolved, resolvedAt := Some(now), acknowledgedBy := Some(user))], 200)
  }

  // ------------------------------------------------------------ one scan, row by row

  ghost predicate IsReported(found: seq<Finding>, fp: Fingerprint) {
    exists i :: 0 <= i < |found| && found[i].fingerprint == fp
  }

  /** The last finding of the scan with this fingerprint. */
  ghost predicate IsLastOf(found: seq<Finding>, fp: Fingerprint, f: Finding) {
    exists i :: 0 <= i < |found| && found[i] == f && f.fingerprint == fp
                && forall j :: i < j < |found| ==> found[j].fingerprint != fp
  }

  /** A reported alert's row: open if it is new or had been resolved, as it was otherwise, with the details
      of the last finding and the time of the scan. */
  ghost predicate IsReportedRow(before: Rows, fp: Fingerprint, f: Finding, now: int, r: Row) {
    && r.details == f.details && r.lastSeen == now
    && if fp !in before then
         r.status == Open && r.kind == f.kind && r.firstSeen == now && r.resolvedAt == None && r.acknowledgedBy == None
       else
         && r.kind == before[fp].kind && r.firstSeen == before[fp].firstSeen && r.acknowledgedBy == before[fp].acknowledgedBy
         && if before[fp].status == Resolved then r.status == Open && r.resolvedAt == None
            else r.status == before[fp].status && r.resolvedAt == before[fp].resolvedAt
  }

  /** A row the scan does not report: resolved at the time of the scan if it was live, unchanged otherwise. */
  ghost predicate IsUnreportedRow(found: seq<Finding>, fp: Fingerprint, was: Row, now: int, r: Row) {
    if was.status != Resolved && !(found == [] && fp == Fingerprint("")) then
      r == was.(status := Resolved, resolvedAt := Some(now))
    else r == was
  }

  ghost predicate IsScanned(before: Rows, after: Rows, found: seq<Finding>, now: int) {
    && (forall fp :: fp in after <==> fp in before || IsReported(found, fp))
    && (forall fp :: IsReported(found, fp) ==> exists f :: IsLastOf(found, fp, f) && IsReportedRow(before, fp, f, now, after[fp]))
    && (forall fp :: fp in before && !IsReported(found, fp) ==> IsUnreportedRow(found, fp, before[fp], now, after[fp]))
  }

  lemma {:induction false} LastWins(found: seq<Finding>, fp: Fingerprint)
    ensures fp in ByFingerprint(found) <==> IsReported(found, fp)
    ensures fp in ByFingerprint(found) ==> IsLastOf(found, fp, ByFingerprint(found)[fp])
  {
    if found != [] {
      var init, n := found[..|found| - 1], |found| - 1;
      LastWins(init, fp);
      if IsReported(init, fp) {
        var i :| 0 <= i < n && init[i].fingerprint == fp;
        assert found[i] == init[i];
      }
      if found[n].fingerprint != fp && fp in ByFingerprint(init) {
        var i :| 0 <= i < n && init[i] == ByFingerprint(init)[fp] && forall j :: i < j < n ==> init[j].fingerprint != fp;
        assert found[i] == init[i];
      }
    }
  }

  lemma ReportedRowOf(rows: Rows, byFp: map<Fingerprint, Finding>, fp: Fingerprint, now: int)
    requires fp in byFp
    ensures IsReportedRow(rows, fp, byFp[fp], now, AfterScan(rows, byFp, now)[fp])
  {
  }

  lemma UnreportedRowOf(rows: Rows, found: seq<Finding>, byFp: map<Fingerprint, Finding>, fp: Fingerprint, now: int)
    requires fp in rows && fp !in byFp && (byFp == map[] <==> found == [])
    ensures IsUnreportedRow(found, fp, rows[fp], now, AfterScan(rows, byFp, now)[fp])
  {
  }

  lemma NothingReported(found: seq<Finding>)
    ensures ByFingerprint(found) == map[] <==> found == []
  {
    if found != [] {
      assert found[|found| - 1].fingerprint in ByFingerprint(found);
    }
  }

  lemma ScanMeans(rows: Rows, found: seq<Finding>, now: int)
    ensures IsScanned(rows, AfterScan(rows, ByFingerprint(found), now), found, now)
  {
    var byFp := ByFingerprint(found);
    var after := AfterScan(rows, byFp, now);
    NothingReported(found);
    hide AfterScan, ByFingerprint, IsReported, IsLastOf, IsReportedRow, IsUnreportedRow;
    forall fp
      ensures fp in byFp <==> IsReported(found, fp)
      ensures fp in byFp ==> IsLastOf(found, fp, byFp[fp])
    {
      LastWins(found, fp);
    }
    forall fp | fp in byFp
      ensures IsReportedRow(rows, fp, byFp[fp], now, after[fp])
    {
      ReportedRowOf(rows, byFp, fp, now);
    }
    forall fp | fp in rows && fp !in byFp
      ensures IsUnreportedRow(found, fp, rows[fp], now, after[fp])
    {
      UnreportedRowOf(rows, found, byFp, fp, now);
    }
  }

  // ------------------------------------------------------------ counting

  function Created(rows: Rows, fps: set<Fingerprint>): set<Fingerprint> { set fp | fp in fps && fp !in rows }

  function Reopened(rows: Rows, fps: set<Fingerprint>): set<Fingerprint> { set fp | fp in fps && fp in rows && !IsLive(rows[fp]) }

  function Updated(rows: Rows, fps: set<Fingerprint>): set<Fingerprint> { set fp | fp in fps && fp in rows && IsLive(rows[fp]) }

  function ScanCounts(rows: Rows, byFp: map<Fingerprint, Finding>, found: nat): Counts {
    Counts(found, |Created(rows, byFp.Keys)|, |Updated(rows, byFp.Keys)|, |Reopened(rows, byFp.Keys)|, |StaleSet(rows, byFp)|)
  }

  lemma CountNothing(rows: Rows, byFp: map<Fingerprint, Finding>, now: int)
    ensures AfterFound(rows, byFp, {}, now) == rows
    ensures Created(rows, {}) == {} && Reopened(rows, {}) == {} && Updated(rows, {}) == {}
  {
  }

  lemma OneMoreCreated(rows: Rows, fps: set<Fingerprint>, fp: Fingerprint)
    requires fp !in fps
    ensures |Created(rows, fps + {fp})| == |Created(rows, fps)| + (if fp !in rows then 1 else 0)
  {
    assert Created(rows, fps + {fp}) == Created(rows, fps) + (if fp !in rows then {fp} else {});
  }

  lemma OneMoreFound(rows: Rows, byFp: map<Fingerprint, Finding>, seen: set<Fingerprint>, fp: Fingerprint, now: int)
    requires seen <= byFp.Keys && fp in byFp
    ensures AfterFound(rows, byFp, seen + {fp}, now)
            == AfterFound(rows, byFp, seen, now)[fp := Refreshed(if fp in rows then Some(rows[fp]) else None, byFp[fp], now)]
  {
  }

  lemma OneMoreReopened(rows: Rows, fps: set<Fingerprint>, fp: Fingerprint)
    requires fp !in fps
    ensures |Reopened(rows, fps + {fp})| == |Reopened(rows, fps)| + (if fp in rows && !IsLive(rows[fp]) then 1 else 0)
  {
    assert Reopened(rows, fps + {fp}) == Reopened(rows, fps) + (if fp in rows && !IsLive(rows[fp]) then {fp} else {});
  }

  lemma OneMoreUpdated(rows: Rows, fps: set<Fingerprint>, fp: Fingerprint)
    requires fp !in fps
    ensures |Updated(rows, fps + {fp})| == |Updated(rows, fps)| + (if fp in rows && IsLive(rows[fp]) then 1 else 0)
  {
    assert Updated(rows, fps + {fp}) == Updated(rows, fps) + (if fp in rows && IsLive(rows[fp]) then {fp} else {});
  }

  /** Recording the findings leaves the same rows stale, and the two passes make up the scan. */
  lemma StaleUntouched(rows: Rows, recorded: Rows, byFp: map<Fingerprint, Finding>)
    requires exists now :: recorded == AfterFound(rows, byFp, byFp.Keys, now)
    ensures StaleSet(recorded, byFp) == StaleSet(rows, byFp)
    ensures forall now :: recorded == AfterFound(rows, byFp, byFp.Keys, now) ==>
              AfterStale(recorded, StaleSet(rows, byFp), now) == AfterScan(rows, byFp, now)
  {
    assert forall fp :: fp in byFp ==> Excepted(fp, byFp);
    assert forall fp :: fp in rows && fp !in byFp ==> recorded[fp] == rows[fp];
  }

  /** Every distinct finding is counted once, and the live total moves by exactly what was
      created and reopened less what was auto-resolved. */
  lemma CountsBalance(rows: Rows, byFp: map<Fingerprint, Finding>, found: nat, now: int)
    ensures var c := ScanCounts(rows, byFp, found);
            && c.created + c.updated + c.reopened == |byFp|
            && |Live(AfterScan(rows, byFp, now))| == |Live(rows)| + c.created + c.reopened - c.autoResolved
  {
    FindingsSplit(rows, byFp);
    LiveMoves(rows, byFp, now);
  }

  /** What each count counts: new fingerprints, live ones seen again, resolved ones seen again, and live
      ones not reported. */
  lemma CountsMean(rows: Rows, found: seq<Finding>)
    ensures var c := ScanCounts(rows, ByFingerprint(found), |found|);
            var reported := set f | f in found :: f.fingerprint;
            && c.found == |found|
            && c.created == |reported - rows.Keys|
            && c.updated == |set fp | fp in reported && fp in rows && rows[fp].status != Resolved|
            && c.reopened == |set fp | fp in reported && fp in rows && rows[fp].status == Resolved|
            && c.autoResolved == |set fp | fp in rows && rows[fp].status != Resolved && fp !in reported
                                           && !(found == [] && fp == Fingerprint(""))|
  {
    var byFp, reported := ByFingerprint(found), set f | f in found :: f.fingerprint;
    ByFingerprintKeys(found);
    NothingReported(found);
    hide ByFingerprint;
    assert byFp.Keys == reported;
    assert Created(rows, byFp.Keys) == reported - rows.Keys;
    assert Updated(rows, byFp.Keys) == set fp | fp in reported && fp in rows && rows[fp].status != Resolved;
    assert Reopened(rows, byFp.Keys) == set fp | fp in reported && fp in rows && rows[fp].status == Resolved;
    assert StaleSet(rows, byFp) == set fp | fp in rows && rows[fp].status != Resolved && fp !in reported
                                           && !(found == [] && fp == Fingerprint(""));
  }

  lemma FindingsSplit(rows: Rows, byFp: map<Fingerprint, Finding>)
    ensures |Created(rows, byFp.Keys)| + |Updated(rows, byFp.Keys)| + |Reopened(rows, byFp.Keys)| == |byFp|
  {
    var cr, up, re := Created(rows, byFp.Keys), Updated(rows, byFp.Keys), Reopened(rows, byFp.Keys);
    forall fp
      ensures fp in byFp.Keys <==> fp in cr || fp in up || fp in re
      ensures !(fp in cr && fp in up) && !(fp in cr && fp in re) && !(fp in up && fp in re)
    {
    }
    hide Created, Updated, Reopened;
    ThreeParts(byFp.Keys, cr, up, re);
    assert |byFp| == |byFp.Keys|;
  }

  lemma ThreeParts(all: set<Fingerprint>, a: set<Fingerprint>, b: set<Fingerprint>, c: set<Fingerprint>)
    requires forall x :: x in all <==> x in a || x in b || x in c
    requires forall x :: !(x in a && x in b) && !(x in a && x in c) && !(x in b && x in c)
    ensures |a| + |b| + |c| == |all|
  {
    assert all == (a + b) + c;
    assert a !! b && (a + b) !! c;
    assert |a + b| == |a| + |b|;
  }

  lemma LiveMoves(rows: Rows, byFp: map<Fingerprint, Finding>, now: int)
    ensures |Live(AfterScan(rows, byFp, now))|
            == |Live(rows)| + |Created(rows, byFp.Keys)| + |Reopened(rows, byFp.Keys)| - |StaleSet(rows, byFp)|
  {
    var cr, re, stale := Created(rows, byFp.Keys), Reopened(rows, byFp.Keys), StaleSet(rows, byFp);
    var live, after := Live(rows), Live(AfterScan(rows, byFp, now));
    LiveAfter(rows, byFp, now);
    assert stale <= live && cr !! re && (live - stale) !! (cr + re);
    assert |(live - stale) + (cr + re)| == |live - stale| + |cr + re|;
    assert |cr + re| == |cr| + |re|;
    assert |live - stale| == |live| - |stale|;
  }

  lemma LiveAfter(rows: Rows, byFp: map<Fingerprint, Finding>, now: int)
    ensures Live(AfterScan(rows, byFp, now))
            == (Live(rows) - StaleSet(rows, byFp)) + (Created(rows, byFp.Keys) + Reopened(rows, byFp.Keys))
  {
    var after := AfterScan(rows, byFp, now);
    forall fp
      ensures fp in Live(after) <==>
              fp in (Live(rows) - StaleSet(rows, byFp)) + (Created(rows, byFp.Keys) + Reopened(rows, byFp.Keys))
    {
      if fp in byFp {
        assert Excepted(fp, byFp);
      }
    }
  }

  /** After a scan the live alerts are the reported ones and, if there were none, a live alert
      with the empty fingerprint, which no rule produces. */
  lemma LiveOrEmpty(rows: Rows, found: seq<Finding>, now: int)
    ensures Live(AfterScan(rows, ByFingerprint(found), now))
            == (set f | f in found :: f.fingerprint) + (if found == [] then Live(rows) * {Fingerprint("")} else {})
  {
    var after := AfterScan(rows, ByFingerprint(found), now);
    ScanMeans(rows, found, now);
    hide AfterScan, ByFingerprint, IsLastOf;
    forall fp
      ensures fp in Live(after) <==> IsReported(found, fp) || (found == [] && fp in Live(rows) * {Fingerprint("")})
    {
    }
    forall fp
      ensures IsReported(found, fp) <==> fp in set f | f in found :: f.fingerprint
    {
    }
  }

  /** Repeating a scan only updates: nothing is created, reopened or resolved, and
      no row changes but for the time it was last seen. */
  lemma RepeatOnlyUpdates(rows: Rows, byFp: map<Fingerprint, Finding>, found: nat, now: int, later: int)
    ensures var once := AfterScan(rows, byFp, now);
            var c := ScanCounts(once, byFp, found);
            && c.created == 0 && c.reopened == 0 && c.autoResolved == 0 && c.updated == |byFp|
            && AfterScan(once, byFp, later) == map fp | fp in once ::
                 if fp in byFp then once[fp].(lastSeen := later) else once[fp]
  {
    var once := AfterScan(rows, byFp, now);
    AllReportedLive(rows, byFp, now);
    assert Created(once, byFp.Keys) == {};
    assert Reopened(once, byFp.Keys) == {};
    assert Updated(once, byFp.Keys) == byFp.Keys;
    assert |byFp| == |byFp.Keys|;
    AgainSame(once, byFp, later);
  }

  lemma AllReportedLive(rows: Rows, byFp: map<Fingerprint, Finding>, now: int)
    ensures var once := AfterScan(rows, byFp, now);
            && (forall fp :: fp in byFp ==> fp in once && IsLive(once[fp]) && once[fp].details == byFp[fp].details)
            && StaleSet(once, byFp) == {}
  {
    var once := AfterScan(rows, byFp, now);
    forall fp | fp in once
      ensures !GoneStale(fp, once[fp], byFp)
    {
    }
  }

  lemma AgainSame(once: Rows, byFp: map<Fingerprint, Finding>, later: int)
    requires forall fp :: fp in byFp ==> fp in once && IsLive(once[fp]) && once[fp].details == byFp[fp].details
    requires StaleSet(once, byFp) == {}
    ensures AfterScan(once, byFp, later)
            == map fp | fp in once :: if fp in byFp then once[fp].(lastSeen := later) else once[fp]
  {
    hide GoneStale;
    var again := AfterScan(once, byFp, later);
    forall fp | fp in once && fp !in byFp
      ensures !GoneStale(fp, once[fp], byFp)
    {
      assert fp !in StaleSet(once, byFp);
    }
    assert again.Keys == once.Keys;
  }

  // ------------------------------------------------------------ whole runs

  datatype Action =
    | Scan(found: seq<Finding>, at: int)
    | Ack(fp: Fingerprint, user: int, finance: bool)
    | Close(fp: Fingerprint, user: int, finance: bool, at: int)

  function Act(rows: Rows, a: Action): Rows {
    match a
    case Scan(found, at) => AfterScan(rows, ByFingerprint(found), at)
    case Ack(fp, user, finance) => AfterAcknowledge(rows, fp, user, finance).0
    case Close(fp, user, finance, at) => AfterResolve(rows, fp, user, finance, at).0
  }

  function Run(rows: Rows, actions: seq<Action>): Rows {
    if actions == [] then rows else Act(Run(rows, actions[..|actions| - 1]), actions[|actions| - 1])
  }

  ghost predicate Consistent(rows: Rows) {
    forall fp :: fp in rows ==> (rows[fp].resolvedAt.Some? <==> rows[fp].status == Resolved)
  }

  /** In every run, `resolved_at` is set exactly on the resolved rows. */
  lemma {:induction false} ResolvedAtAgrees(rows: Rows, actions: seq<Action>)
    requires Consistent(rows)
    ensures Consistent(Run(rows, actions))
  {
    hide Consistent, Act;
    if actions != [] {
      ResolvedAtAgrees(rows, actions[..|actions| - 1]);
      ActIsConsistent(Run(rows, actions[..|actions| - 1]), actions[|actions| - 1]);
    }
  }

  lemma ActIsConsistent(rows: Rows, a: Action)
    requires Consistent(rows)
    ensures Consistent(Act(rows, a))
  {
    hide GoneStale, ByFingerprint;
  }

  /** In every run, rows are never deleted, and when an alert was first seen and what kind
      it is never change. */
  lemma {:induction false} OriginIsPermanent(rows: Rows, actions: seq<Action>, fp: Fingerprint)
    requires fp in rows
    ensures var r := Run(rows, actions);
            fp in r && r[fp].firstSeen == rows[fp].firstSeen && r[fp].kind == rows[fp].kind
  {
    if actions != [] {
      OriginIsPermanent(rows, actions[..|actions| - 1], fp);
    }
  }

  /** A step that ends an alert's acknowledgement, said of the step: a scan that does not report it, or a
      person who may see it and resolves it. */
  ghost predicate IsEnd(a: Action, fp: Fingerprint, kind: string) {
    match a
    case Scan(found, _) => !IsReported(found, fp) && !(found == [] && fp == Fingerprint(""))
    case Ack(_, _, _) => false
    case Close(target, _, finance, _) => target == fp && !HiddenFrom(kind, finance)
  }

  /** The step acknowledges the alert: it is there, live, and the person may see it. */
  ghost predicate IsAcknowledgement(rows: Rows, a: Action, fp: Fingerprint) {
    a.Ack? && a.fp == fp && fp in rows && rows[fp].status != Resolved && !HiddenFrom(rows[fp].kind, a.finance)
  }

  ghost predicate IsAcknowledged(rows: Rows, fp: Fingerprint) { fp in rows && rows[fp].status == Acknowledged }

  lemma StepAcknowledges(rows: Rows, a: Action, fp: Fingerprint)
    ensures IsAcknowledged(Act(rows, a), fp) <==>
            IsAcknowledgement(rows, a, fp) || (IsAcknowledged(rows, fp) && !IsEnd(a, fp, rows[fp].kind))
  {
    if a.Scan? {
      ScanMeans(rows, a.found, a.at);
      hide AfterScan, ByFingerprint, IsReported, IsLastOf;
    }
  }

  /** No step from `i` on ends the acknowledgement. */
  ghost predicate NoEndFrom(actions: seq<Action>, i: nat, fp: Fingerprint, kind: string) {
    forall j :: i <= j < |actions| ==> !IsEnd(actions[j], fp, kind)
  }

  /** Some step acknowledged the alert, and none after it ended that. */
  ghost predicate AcknowledgedSince(rows: Rows, actions: seq<Action>, fp: Fingerprint) {
    exists i :: 0 <= i < |actions| && Acknowledges(rows, actions, i, fp)
                && NoEndFrom(actions, i + 1, fp, Run(rows, actions[..i])[fp].kind)
  }

  ghost predicate Acknowledges(rows: Rows, actions: seq<Action>, i: nat, fp: Fingerprint)
    requires i < |actions|
  {
    IsAcknowledgement(Run(rows, actions[..i]), actions[i], fp)
  }

  /** Over any run an alert is acknowledged at the end if and only if some step acknowledged it, or it was
      at the start, and no step after that ended it. */
  lemma {:induction false} AcknowledgedIff(rows: Rows, actions: seq<Action>, fp: Fingerprint)
    ensures IsAcknowledged(Run(rows, actions), fp) <==>
            AcknowledgedSince(rows, actions, fp) || (IsAcknowledged(rows, fp) && NoEndFrom(actions, 0, fp, rows[fp].kind))
  {
    hide Act, IsEnd, IsAcknowledgement;
    if actions != [] {
      var n := |actions| - 1;
      var init := actions[..n];
      AcknowledgedIff(rows, init, fp);
      StepAcknowledges(Run(rows, init), actions[n], fp);
      SinceStep(rows, actions, fp);
      if fp in rows {
        OriginIsPermanent(rows, init, fp);
      }
      hide AcknowledgedSince;
      assert NoEndFrom(actions, 0, fp, if fp in rows then rows[fp].kind else "") <==>
             NoEndFrom(init, 0, fp, if fp in rows then rows[fp].kind else "") && !IsEnd(actions[n], fp, if fp in rows then rows[fp].kind else "");
    }
  }

  /** One more step acknowledges the alert, or leaves what went before if it does not end it. */
  lemma SinceStep(rows: Rows, actions: seq<Action>, fp: Fingerprint)
    requires actions != []
    ensures var n := |actions| - 1;
            var before := Run(rows, actions[..n]);
            && (IsAcknowledgement(before, actions[n], fp) ==> AcknowledgedSince(rows, actions, fp))
            && (AcknowledgedSince(rows, actions[..n], fp) ==> fp in before)
            && (AcknowledgedSince(rows, actions, fp) <==>
                IsAcknowledgement(before, actions[n], fp)
                || (AcknowledgedSince(rows, actions[..n], fp) && !IsEnd(actions[n], fp, before[fp].kind)))
  {
    var n := |actions| - 1;
    hide IsEnd, Run, Acknowledges;
    forall i | 0 <= i < n
      ensures SameEarlier(rows, actions, i, fp)
    {
      EarlierStep(rows, actions, i, fp);
    }
    LastAcknowledges(rows, actions, fp);
    SinceOrNow(rows, actions, fp);
  }

  /** A step before the last stands in the shorter run as it does in the longer. */
  ghost predicate SameEarlier(rows: Rows, actions: seq<Action>, i: nat, fp: Fingerprint)
    requires i < |actions| - 1
  {
    var init := actions[..|actions| - 1];
    && actions[..i] == init[..i] && (Acknowledges(rows, init, i, fp) <==> Acknowledges(rows, actions, i, fp))
    && (Acknowledges(rows, init, i, fp) ==>
          fp in Run(rows, init[..i]) && fp in Run(rows, init) && Run(rows, init)[fp].kind == Run(rows, init[..i])[fp].kind)
  }

  lemma EarlierStep(rows: Rows, actions: seq<Action>, i: nat, fp: Fingerprint)
    requires i < |actions| - 1
    ensures SameEarlier(rows, actions, i, fp)
  {
    var init := actions[..|actions| - 1];
    assert actions[..i] == init[..i];
    if Acknowledges(rows, init, i, fp) {
      hide Run;
      RunFrom(rows, init, i);
      OriginIsPermanent(Run(rows, init[..i]), init[i..], fp);
    }
  }

  lemma LastAcknowledges(rows: Rows, actions: seq<Action>, fp: Fingerprint)
    requires actions != []
    ensures var n := |actions| - 1;
            && (Acknowledges(rows, actions, n, fp) <==> IsAcknowledgement(Run(rows, actions[..n]), actions[n], fp))
            && (Acknowledges(rows, actions, n, fp) ==> fp in Run(rows, actions[..n]))
  {
    hide Run;
  }

  lemma SinceOrNow(rows: Rows, actions: seq<Action>, fp: Fingerprint)
    requires actions != [] && forall i :: 0 <= i < |actions| - 1 ==> SameEarlier(rows, actions, i, fp)
    requires Acknowledges(rows, actions, |actions| - 1, fp) ==> fp in Run(rows, actions[..|actions| - 1])
    ensures var n := |actions| - 1;
            var init := actions[..n];
            && (AcknowledgedSince(rows, init, fp) ==> fp in Run(rows, init))
            && (AcknowledgedSince(rows, actions, fp) <==>
                Acknowledges(rows, actions, n, fp)
                || (AcknowledgedSince(rows, init, fp) && !IsEnd(actions[n], fp, Run(rows, init)[fp].kind)))
  {
    hide IsEnd, Run, HiddenFrom;
    var n := |actions| - 1;
    var init := actions[..n];
    if i :| 0 <= i < n && Acknowledges(rows, init, i, fp) && NoEndFrom(init, i + 1, fp, Run(rows, init[..i])[fp].kind) {
      assert SameEarlier(rows, actions, i, fp);
      var kind := Run(rows, init)[fp].kind;
      assert NoEndFrom(actions, i + 1, fp, kind) <==> !IsEnd(actions[n], fp, kind);
    }
    if i :| 0 <= i < n && Acknowledges(rows, actions, i, fp) && NoEndFrom(actions, i + 1, fp, Run(rows, actions[..i])[fp].kind) {
      assert SameEarlier(rows, actions, i, fp);
      assert NoEndFrom(init, i + 1, fp, Run(rows, init[..i])[fp].kind);
      assert !IsEnd(actions[n], fp, Run(rows, init)[fp].kind);
    }
    if Acknowledges(rows, actions, n, fp) {
      assert NoEndFrom(actions, n + 1, fp, Run(rows, actions[..n])[fp].kind);
    }
  }

  /** A run is a run of its first steps, then of the rest. */
  lemma {:induction false} RunFrom(rows: Rows, actions: seq<Action>, i: nat)
    requires i <= |actions|
    ensures Run(rows, actions) == Run(Run(rows, actions[..i]), actions[i..])
    decreases |actions|
  {
    hide Act;
    if i == |actions| {
      assert actions[..i] == actions && actions[i..] == [];
    } else {
      var n := |actions| - 1;
      RunFrom(rows, actions[..n], i);
      assert actions[..n][..i] == actions[..i] && actions[i..][..|actions| - i - 1] == actions[..n][i..];
    }
  }

  /** The rules' fingerprints are 16-byte digests in hexadecimal. */
  predicate IsDigest(fp: Fingerprint) { |fp.hex| == 32 }

  predicate AllDigests(found: seq<Finding>) { forall f :: f in found ==> IsDigest(f.fingerprint) }

  predicate ScansDigests(actions: seq<Action>) {
    forall i :: 0 <= i < |actions| && actions[i].Scan? ==> AllDigests(actions[i].found)
  }

  lemma {:induction false} RowsAreDigests(actions: seq<Action>)
    requires ScansDigests(actions)
    ensures forall fp :: fp in Run(map[], actions) ==> IsDigest(fp)
  {
    if actions != [] {
      var init, last := actions[..|actions| - 1], actions[|actions| - 1];
      RowsAreDigests(init);
      if last.Scan? {
        assert AllDigests(last.found);
        ByFingerprintKeys(last.found);
      }
      hide Refreshed, GoneStale;
    }
  }

  /** In every run from an empty table, a scan leaves exactly the reported alerts live. */
  lemma LiveAreReported(actions: seq<Action>, found: seq<Finding>, now: int)
    requires ScansDigests(actions) && AllDigests(found)
    ensures Live(AfterScan(Run(map[], actions), ByFingerprint(found), now)) == set f | f in found :: f.fingerprint
  {
    var rows := Run(map[], actions);
    RowsAreDigests(actions);
    LiveOrEmpty(rows, found, now);
    assert Fingerprint("") !in rows by {
      assert !IsDigest(Fingerprint(""));
    }
    hide AfterScan, ByFingerprint;
    assert Live(rows) * {Fingerprint("")} == {};
  }

  /** Does this action end the life of the live alert `fp`? A scan that omits it, or a
      person who can see it and resolves it. */
  predicate Ends(a: Action, fp: Fingerprint, kind: string) {
    match a
    case Scan(found, _) => !Excepted(fp, ByFingerprint(found))
    case Ack(_, _, _) => false
    case Close(target, _, finance, _) => target == fp && (IsFinanceOnly(kind) ==> finance)
  }

  /** An acknowledgement is sticky: the alert is acknowledged after every step of a run
      exactly when no step omits it from a scan or resolves it. */
  lemma {:induction false} AcknowledgedSticks(rows: Rows, actions: seq<Action>, fp: Fingerprint)
    requires fp in rows && rows[fp].status == Acknowledged
    ensures (forall n :: 0 <= n <= |actions| ==> AcknowledgedAfter(rows, actions, n, fp))
            <==> (forall i :: 0 <= i < |actions| ==> !Ends(actions[i], fp, rows[fp].kind))
  {
    hide Ends;
    if actions == [] {
      assert actions[..0] == [];
    } else {
      var k := |actions| - 1;
      var init := actions[..k];
      AcknowledgedSticks(rows, init, fp);
      forall n | 0 <= n <= k
        ensures AcknowledgedAfter(rows, actions, n, fp) == AcknowledgedAfter(rows, init, n, fp)
      {
        assert actions[..n] == init[..n];
      }
      hide AcknowledgedAfter, Run;
      if AcknowledgedAfter(rows, actions, k, fp) {
        LastStep(rows, actions, fp);
      }
    }
  }

  predicate AcknowledgedAfter(rows: Rows, actions: seq<Action>, n: nat, fp: Fingerprint)
    requires n <= |actions|
  {
    var r := Run(rows, actions[..n]);
    fp in r && r[fp].status == Acknowledged
  }

  lemma LastStep(rows: Rows, actions: seq<Action>, fp: Fingerprint)
    requires fp in rows && actions != []
    requires AcknowledgedAfter(rows, actions, |actions| - 1, fp)
    ensures AcknowledgedAfter(rows, actions, |actions|, fp) <==> !Ends(actions[|actions| - 1], fp, rows[fp].kind)
  {
    var init := actions[..|actions| - 1];
    OriginIsPermanent(rows, init, fp);
    assert actions[..|actions|] == actions;
    StepKeepsAcknowledged(Run(rows, init), actions[|actions| - 1], fp);
  }

  lemma StepKeepsAcknowledged(rows: Rows, a: Action, fp: Fingerprint)
    requires fp in rows && rows[fp].status == Acknowledged
    ensures fp in Act(rows, a)
    ensures Act(rows, a)[fp].status == Acknowledged <==> !Ends(a, fp, rows[fp].kind)
  {
  }
}
