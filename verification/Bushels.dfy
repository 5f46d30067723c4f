/**
 Net bushels twice over: as the delivery webhook records them (backend/app/webhooks.py), and
 as the data-consistency rule recomputes them from the stored weights (backend/app/risk.py).
 */
module Bushels {
  import opened Rounding
  import opened Selections

  const NET_BU_TOLERANCE: real := 0.5

  /** The webhook's figure, from the weights as they were sent. */
  function NetBushels(gross: real, tare: real, lbsPerBu: real): real
    requires lbsPerBu != 0.0
  {
    Cents((gross - tare) / lbsPerBu)
  }

  /** A delivery row. */
  datatype Delivered = Delivered(ticket: string, commodityId: int, gross: real, tare: real, netBu: real)

  /** The row that reaches the table: two-place columns. */
  function Stored(d: Delivered): Delivered {
    d.(gross := Numeric2(d.gross), tare := Numeric2(d.tare), netBu := Numeric2(d.netBu))
  }

  datatype Problem = TareNotBelowGross | NetDisagrees(drift: real)

  datatype Finding = Finding(ticket: string, problem: Problem, high: bool)

  /** How far the recorded bushels are from what the weights come to. */
  function Drift(d: Delivered, lbs: real): real
    requires lbs != 0.0
  {
    Abs(Cents((d.gross - d.tare) / lbs) - d.netBu)
  }

  /** The weights are out of order, or they are not and the bushels disagree with them. */
  predicate IsSuspect(d: Delivered, lbsPerBu: map<int, real>, tolerance: real) {
    || d.tare >= d.gross
    || (d.commodityId in lbsPerBu && lbsPerBu[d.commodityId] > 0.0 && Drift(d, lbsPerBu[d.commodityId]) > tolerance)
  }

  function Suspect(lbsPerBu: map<int, real>, tolerance: real): Delivered -> bool {
    (d: Delivered) => IsSuspect(d, lbsPerBu, tolerance)
  }

  /** The alert names the ticket, says what is wrong with it, and how bad that is. */
  ghost predicate Tells(f: Finding, d: Delivered, lbsPerBu: map<int, real>, tolerance: real)
    requires IsSuspect(d, lbsPerBu, tolerance)
  {
    && f.ticket == d.ticket
    && if d.tare >= d.gross then f.problem == TareNotBelowGross && f.high
       else
         var drift := Drift(d, lbsPerBu[d.commodityId]);
         f.problem == NetDisagrees(drift) && (f.high <==> drift > 20.0 * tolerance)
  }

  /** One alert for each of the positions. */
  ghost predicate AllTell(alerts: seq<Finding>, ds: seq<Delivered>, lbsPerBu: map<int, real>, tolerance: real, at: seq<nat>) {
    && |alerts| == |at|
    && forall k :: 0 <= k < |at| ==>
         at[k] < |ds| && IsSuspect(ds[at[k]], lbsPerBu, tolerance) && Tells(alerts[k], ds[at[k]], lbsPerBu, tolerance)
  }

  method DataInconsistencies(ds: seq<Delivered>, lbsPerBu: map<int, real>, tolerance: real)
    returns (alerts: seq<Finding>, ghost at: seq<nat>)
    ensures Picks(ds, Suspect(lbsPerBu, tolerance), at) && AllTell(alerts, ds, lbsPerBu, tolerance, at)
  {
    hide Picks, Abs, Cents, AllTell;
    alerts, at := [], [];
    PicksNothing(Suspect(lbsPerBu, tolerance));
    NothingToTell(ds, lbsPerBu, tolerance);
    assert ds[..0] == [];
    for i := 0 to |ds|
      invariant Picks(ds[..i], Suspect(lbsPerBu, tolerance), at) && AllTell(alerts, ds, lbsPerBu, tolerance, at)
    {
      var d := ds[i];
      assert ds[..i + 1] == ds[..i] + [d];
      PicksNext(ds[..i], Suspect(lbsPerBu, tolerance), at, d);
      if d.tare >= d.gross {
        var f := Finding(d.ticket, TareNotBelowGross, true);
        OneMoreTells(alerts, ds, lbsPerBu, tolerance, at, i, f);
        alerts, at := alerts + [f], at + [i];
        continue;
      }
      if d.commodityId !in lbsPerBu || lbsPerBu[d.commodityId] <= 0.0 {
        continue;
      }
      var expected := Cents((d.gross - d.tare) / lbsPerBu[d.commodityId]);
      var drift := Abs(expected - d.netBu);
      if drift > tolerance {
        var f := Finding(d.ticket, NetDisagrees(drift), drift > tolerance * 20.0);
        OneMoreTells(alerts, ds, lbsPerBu, tolerance, at, i, f);
        alerts, at := alerts + [f], at + [i];
      }
    }
    assert ds[..|ds|] == ds;
  }

  lemma NothingToTell(ds: seq<Delivered>, lbsPerBu: map<int, real>, tolerance: real)
    ensures AllTell([], ds, lbsPerBu, tolerance, [])
  {
  }

  lemma OneMoreTells(alerts: seq<Finding>, ds: seq<Delivered>, lbsPerBu: map<int, real>, tolerance: real, at: seq<nat>, i: nat, f: Finding)
    requires i < |ds| && AllTell(alerts, ds, lbsPerBu, tolerance, at)
    requires IsSuspect(ds[i], lbsPerBu, tolerance) && Tells(f, ds[i], lbsPerBu, tolerance)
    ensures AllTell(alerts + [f], ds, lbsPerBu, tolerance, at + [i])
  {
    hide IsSuspect, Tells;
  }

  /** A row as the webhook makes it. */
  ghost predicate Ingested(d: Delivered, lbs: real) {
    lbs > 0.0 && 0.0 <= d.tare < d.gross && d.netBu == NetBushels(d.gross, d.tare, lbs)
  }

  lemma DivideMonotone(x: real, y: real, l: real)
    requires l > 0.0 && x <= y
    ensures x / l <= y / l
  {
    assert (y - x) / l >= 0.0;
    assert y / l - x / l == (y - x) / l;
  }

  lemma QuotientsClose(x: real, y: real, l: real)
    requires l > 0.0 && Abs(x - y) <= 0.01
    ensures Abs(x / l - y / l) <= 0.01 / l
  {
    assert x / l - y / l == (x - y) / l;
    DivideMonotone(x - y, 0.01, l);
    DivideMonotone(-0.01, x - y, l);
    assert (-0.01) / l == -(0.01 / l);
  }

  lemma CentsClose(x: real, y: real, q: real)
    requires Abs(x - y) <= q
    ensures Abs(Cents(x) - Cents(y)) <= q + 0.01
  {
    CentsError(x);
    CentsError(y);
    hide Cents;
  }

  lemma WeightsClose(d: Delivered)
    ensures Abs((Stored(d).gross - Stored(d).tare) - (d.gross - d.tare)) <= 0.01
  {
    NumericError(d.gross);
    NumericError(d.tare);
    hide Numeric2;
  }

  /** Rounding the weights in storage moves the recomputed bushels by at most 0.01/lbs + 0.01. */
  lemma DriftBound(d: Delivered, lbs: real)
    requires Ingested(d, lbs)
    ensures var s := Stored(d);
            Abs(NetBushels(s.gross, s.tare, lbs) - s.netBu) <= 0.01 / lbs + 0.01
  {
    hide Cents, Numeric2, Abs;
    var s := Stored(d);
    WeightsClose(d);
    QuotientsClose(s.gross - s.tare, d.gross - d.tare, lbs);
    CentsClose((s.gross - s.tare) / lbs, (d.gross - d.tare) / lbs, 0.01 / lbs);
    DivideMonotone(0.0, d.gross - d.tare, lbs);
    NumericOfCents((d.gross - d.tare) / lbs);
  }

  lemma SmallShare(lbs: real, least: real, share: real)
    requires lbs >= least > 0.0 && 0.01 <= share * least
    ensures 0.01 / lbs <= share
  {
    assert share > 0.0;
    assert 0.01 <= share * lbs;
    DivideMonotone(0.01, share * lbs, lbs);
    assert share * lbs / lbs == share;
  }

  /** From 0.02 lb per bushel up, that movement stays within the rule's tolerance. */
  lemma DriftTolerated(d: Delivered, lbs: real)
    requires Ingested(d, lbs) && lbs >= 0.02
    ensures var s := Stored(d);
            Abs(NetBushels(s.gross, s.tare, lbs) - s.netBu) <= NET_BU_TOLERANCE
  {
    hide Cents, Numeric2;
    var s := Stored(d);
    var x, y := (s.gross - s.tare) / lbs, (d.gross - d.tare) / lbs;
    WeightsClose(d);
    QuotientsClose(s.gross - s.tare, d.gross - d.tare, lbs);
    SmallShare(lbs, 0.02, 0.5);
    CentsWithinHalf(if x <= y then x else y, if x <= y then y else x);
    DivideMonotone(0.0, d.gross - d.tare, lbs);
    NumericOfCents(y);
  }

  /** The weights are one and the same in the table. */
  predicate WeightsMerge(gross: real, tare: real) { Numeric2(gross) <= Numeric2(tare) }

  /** Storing the weights moves their difference by more than 0.00505 lb. */
  predicate GapMoves(gross: real, tare: real) {
    Far(Numeric2(gross) - Numeric2(tare), gross - tare, 0.00505)
  }

  predicate Far(x: real, y: real, margin: real) { Abs(x - y) > margin }

  /** When an accepted delivery will be flagged. */
  predicate WillBeFlagged(gross: real, tare: real, lbs: real) {
    WeightsMerge(gross, tare) || (lbs < 0.02 && GapMoves(gross, tare))
  }

  /** A conversion factor a two-place column can hold. */
  predicate IsFactor(lbs: real) { lbs > 0.0 && Numeric2(lbs) == lbs }

  lemma FactorShape(lbs: real)
    requires IsFactor(lbs)
    ensures lbs == 0.01 || lbs >= 0.02
  {
    var n := NumericIsCents(lbs);
  }

  /** At 0.01 lb per bushel the recomputed figure is off by more than half a bushel exactly when the
      gap between the weights moved by more than 0.00505 lb. */
  lemma DriftAtHundredth(d: Delivered)
    requires Ingested(d, 0.01)
    ensures var s := Stored(d);
            Abs(NetBushels(s.gross, s.tare, 0.01) - s.netBu) > NET_BU_TOLERANCE <==> GapMoves(d.gross, d.tare)
  {
    hide HalfEven, Numeric2, Abs;
    var a := NumericIsCents(d.gross);
    var b := NumericIsCents(d.tare);
    var s := Stored(d);
    var gap := d.gross - d.tare;
    NumericOfCents(gap / 0.01);
    WholeAtHundredth(s.gross - s.tare, a - b);
    FarFromWhole(gap, a - b);
  }

  lemma WholeAtHundredth(x: real, n: int)
    requires x == n as real / 100.0
    ensures Cents(x / 0.01) == n as real
  {
    HalfEvenOfInt(n * 100);
    hide HalfEven;
    assert x / 0.01 * 100.0 == (n * 100) as real;
  }

  lemma FarFromWhole(gap: real, n: int)
    ensures Far(n as real, Cents(gap / 0.01), 0.5) <==> Far(n as real / 100.0, gap, 0.00505)
  {
    hide Cents, HalfEven, Far;
    var h := HalfEven(gap * 10000.0);
    AtHundredth(gap);
    CentsApart(n, h);
    HalfEvenFar(gap * 10000.0, n * 100);
    HundredthsApart(n, gap);
  }

  lemma AtHundredth(gap: real)
    ensures Cents(gap / 0.01) == HalfEven(gap * 10000.0) as real / 100.0
  {
    hide HalfEven;
    assert gap / 0.01 * 100.0 == gap * 10000.0;
  }

  lemma CentsApart(n: int, cents: int)
    ensures Far(n as real, cents as real / 100.0, 0.5) <==> Far((n * 100) as real, cents as real, 50.0)
  {
    ScaleUp(n as real - cents as real / 100.0, (n * 100) as real - cents as real, 100.0, 0.5);
    hide Abs;
  }

  lemma HundredthsApart(n: int, gap: real)
    ensures Far(n as real / 100.0, gap, 0.00505) <==> Far((n * 100) as real, gap * 10000.0, 50.5)
  {
    ScaleUp(n as real / 100.0 - gap, (n * 100) as real - gap * 10000.0, 10000.0, 0.00505);
    hide Abs;
  }

  lemma ScaleUp(x: real, y: real, scale: real, bound: real)
    requires scale > 0.0 && y == x * scale
    ensures Abs(x) > bound <==> Abs(y) > bound * scale
  {
    if x > bound {
      assert (x - bound) * scale > 0.0;
    } else {
      assert (bound - x) * scale >= 0.0;
    }
    if -x > bound {
      assert (-x - bound) * scale > 0.0;
    } else {
      assert (bound + x) * scale >= 0.0;
    }
  }

  /** A figure in cents is more than half a unit from a whole one exactly when it was more than 0.505 away. */
  lemma HalfEvenFar(z: real, n: int)
    requires n % 2 == 0
    ensures Far(n as real, HalfEven(z) as real, 50.0) <==> Far(n as real, z, 50.5)
  {
    FloorBetween(z);
    assert (n - HalfEven(z)) as real == n as real - HalfEven(z) as real;
    assert Far(n as real, HalfEven(z) as real, 50.0) <==> n - HalfEven(z) > 50 || n - HalfEven(z) < -50;
  }

  /**
   Ingest agrees with audit, exactly. For any factor the column can hold, unchanged since, a delivery
   the webhook accepted is flagged if and only if its weights became equal in storage or, at the
   smallest factor of all, their difference moved by more than 0.00505 lb.
   */
  lemma FlaggedIff(d: Delivered, lbsPerBu: map<int, real>)
    requires d.commodityId in lbsPerBu && IsFactor(lbsPerBu[d.commodityId])
    requires Ingested(d, lbsPerBu[d.commodityId])
    ensures IsSuspect(Stored(d), lbsPerBu, NET_BU_TOLERANCE) <==> WillBeFlagged(d.gross, d.tare, lbsPerBu[d.commodityId])
  {
    var lbs := lbsPerBu[d.commodityId];
    FactorShape(lbs);
    if lbs == 0.01 {
      DriftAtHundredth(d);
    } else {
      DriftTolerated(d, lbs);
    }
    hide NetBushels, Numeric2, Abs, GapMoves;
  }

  /** Every delivery accepted with this factor is flagged only if its weights merge. */
  ghost predicate OnlyMergingIsFlagged(lbs: real) {
    forall d: Delivered :: Ingested(d, lbs) ==>
      (IsSuspect(Stored(d), map[d.commodityId := lbs], NET_BU_TOLERANCE) <==> WeightsMerge(d.gross, d.tare))
  }

  /** Merging weights are the only cause if and only if the factor is not 0.01. */
  lemma OnlyMergingIff(lbs: real)
    requires IsFactor(lbs)
    ensures OnlyMergingIsFlagged(lbs) <==> lbs != 0.01
  {
    FactorShape(lbs);
    if lbs == 0.01 {
      HundredthIsFlagged();
      hide IsSuspect, Ingested, WeightsMerge;
      var d := Delivered("T-2", 1, 100.005, 100.0049, NetBushels(100.005, 100.0049, 0.01));
      assert Ingested(d, 0.01) && IsSuspect(Stored(d), map[d.commodityId := 0.01], NET_BU_TOLERANCE);
    } else {
      forall d: Delivered | Ingested(d, lbs)
        ensures IsSuspect(Stored(d), map[d.commodityId := lbs], NET_BU_TOLERANCE) <==> WeightsMerge(d.gross, d.tare)
      {
        FlaggedIff(d, map[d.commodityId := lbs]);
        hide IsSuspect, WeightsMerge;
      }
    }
  }

  /** At 0.01, weights a ten-thousandth apart are stored a hundredth apart: recorded as 0.01 bushels,
      recomputed as one, and flagged. */
  lemma HundredthIsFlagged()
    ensures var d := Delivered("T-2", 1, 100.005, 100.0049, NetBushels(100.005, 100.0049, 0.01));
            && Ingested(d, 0.01) && !WeightsMerge(d.gross, d.tare)
            && Stored(d).tare < Stored(d).gross && Drift(Stored(d), 0.01) == 0.99
            && IsSuspect(Stored(d), map[1 := 0.01], NET_BU_TOLERANCE)
  {
    FloorIs(100.005 * 100.0 + 0.5, 10001);
    FloorIs(100.0049 * 100.0 + 0.5, 10000);
    HalfEvenOfInt(1);
    HalfEvenOfInt(100);
    FloorIs(1.5, 1);
    hide HalfEven;
    assert (100.005 - 100.0049) / 0.01 * 100.0 == 1 as real;
    assert (100.01 - 100.0) / 0.01 * 100.0 == 100 as real;
  }

  /** A hundredth of a pound between gross and tare is enough never to be flagged, and with a
      real grain factor the figures agree to 0.02 bushels. */
  lemma NeverFlagged(d: Delivered, lbsPerBu: map<int, real>)
    requires d.commodityId in lbsPerBu && lbsPerBu[d.commodityId] >= 1.0
    requires Ingested(d, lbsPerBu[d.commodityId]) && d.gross - d.tare >= 0.01
    ensures !IsSuspect(Stored(d), lbsPerBu, NET_BU_TOLERANCE)
    ensures var s := Stored(d);
            Abs(NetBushels(s.gross, s.tare, lbsPerBu[d.commodityId]) - s.netBu) <= 0.02
  {
    var lbs := lbsPerBu[d.commodityId];
    NumericSeparates(d.tare, d.gross);
    DriftBound(d, lbs);
    SmallShare(lbs, 1.0, 0.01);
    hide NetBushels, Numeric2;
  }

  /** The gap is needed: weights three thousandths apart are accepted, stored equal, and flagged. */
  lemma CloseWeightsAreFlagged()
    ensures var d := Delivered("T-1", 1, 100.004, 100.001, NetBushels(100.004, 100.001, 56.0));
            && Ingested(d, 56.0)
            && Stored(d).tare >= Stored(d).gross && IsSuspect(Stored(d), map[1 := 56.0], NET_BU_TOLERANCE)
  {
    FloorIs(100.004 * 100.0 + 0.5, 10000);
    FloorIs(100.001 * 100.0 + 0.5, 10000);
  }
}
