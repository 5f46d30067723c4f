/** What the position report says (backend/app/market.py), read off its rows. */
module PositionReport {
  import opened Wrappers
  import opened Rounding
  import opened Sorting
  import opened Positions

  /** The first of the valued contracts of a commodity gives the position its name. */
  ghost predicate IsNamed(name: string, vs: seq<Valued>, id: int) {
    exists i :: 0 <= i < |vs| && vs[i].contract.commodityId == id && vs[i].contract.commodity == name
                && forall j :: 0 <= j < i ==> vs[j].contract.commodityId != id
  }

  /** Long when more is coming in than going out, short when less, flat when the same. */
  ghost predicate Faces(d: Direction, long: real, short: real) {
    (d == Long <==> long > short) && (d == Short <==> long < short) && (d == Flat <==> long == short)
  }

  /** Where the commodity's contracts stand. */
  function PlacesOf(vs: seq<Valued>, id: int): set<nat> { set i | 0 <= i < |vs| && vs[i].contract.commodityId == id }

  /** The position of a commodity: its name and price, the sums of its contracts, and how many they are. */
  ghost predicate IsPosition(p: Position, vs: seq<Valued>, prices: map<int, real>) {
    && IsNamed(p.commodity, vs, p.commodityId)
    && (p.market.Some? <==> p.commodityId in prices) && (p.market.Some? ==> p.market.value == prices[p.commodityId])
    && p.longBu == Cents(LongBu(vs, p.commodityId)) && p.shortBu == Cents(ShortBu(vs, p.commodityId))
    && p.netBu == Cents(LongBu(vs, p.commodityId) - ShortBu(vs, p.commodityId))
    && Faces(p.direction, LongBu(vs, p.commodityId), ShortBu(vs, p.commodityId))
    && p.unrealised == Cents(UnrealisedOf(vs, p.commodityId))
    && p.openContracts == |PlacesOf(vs, p.commodityId)|
  }

  lemma {:induction false} FirstName(vs: seq<Valued>, id: int)
    ensures id in Ids(vs) <==> exists i :: 0 <= i < |vs| && vs[i].contract.commodityId == id
    ensures id in Ids(vs) ==> IsNamed(NameOf(vs, id), vs, id)
  {
    if vs != [] {
      var init, last := vs[..|vs| - 1], vs[|vs| - 1];
      FirstName(init, id);
      assert vs == init + [last];
      if id in Ids(init) {
        var i :| 0 <= i < |init| && init[i].contract.commodityId == id && init[i].contract.commodity == NameOf(init, id)
                 && forall j :: 0 <= j < i ==> init[j].contract.commodityId != id;
        assert vs[i] == init[i];
      } else if last.contract.commodityId == id {
        assert vs[|vs| - 1] == last;
      }
    }
  }

  lemma OneMorePlace(init: seq<Valued>, v: Valued, id: int)
    ensures PlacesOf(init + [v], id) == PlacesOf(init, id) + (if v.contract.commodityId == id then {|init|} else {})
    ensures |init| !in PlacesOf(init, id)
  {
  }

  lemma {:induction false} CountIsSize(vs: seq<Valued>, id: int)
    ensures CountOf(vs, id) == |PlacesOf(vs, id)|
  {
    if vs == [] {
      assert PlacesOf(vs, id) == {};
    } else {
      var init, v := vs[..|vs| - 1], vs[|vs| - 1];
      CountIsSize(init, id);
      OneMorePlace(init, v, id);
      assert vs == init + [v];
      hide PlacesOf;
    }
  }

  lemma PositionMeans(vs: seq<Valued>, prices: map<int, real>, id: int)
    requires id in Ids(vs)
    ensures IsPosition(PositionOf(vs, id, prices), vs, prices)
  {
    FirstName(vs, id);
    CountIsSize(vs, id);
    hide Cents, IsNamed, LongBu, ShortBu, UnrealisedOf, CountOf, NameOf, Ids;
  }

  lemma {:induction false} UnsortedAt(vs: seq<Valued>, ids: seq<int>, prices: map<int, real>)
    ensures |Unsorted(vs, ids, prices)| == |ids|
    ensures forall i :: 0 <= i < |ids| ==> Unsorted(vs, ids, prices)[i] == PositionOf(vs, ids[i], prices)
  {
    hide PositionOf;
    if ids != [] {
      UnsortedAt(vs, ids[..|ids| - 1], prices);
    }
  }

  lemma BiggerIsTotal()
    ensures TotalPreorder(BiggerFirst)
  {
  }

  /** One position for each commodity that has a valued contract and no other, each as its contracts
      make it, the largest net position first. */
  ghost predicate IsReport(ps: seq<Position>, vs: seq<Valued>, prices: map<int, real>) {
    && (forall i :: 0 <= i < |ps| ==> IsPosition(ps[i], vs, prices))
    && (forall i, j :: 0 <= i < j < |ps| ==> ps[i].commodityId != ps[j].commodityId)
    && (forall i :: 0 <= i < |vs| ==> exists p :: p in ps && p.commodityId == vs[i].contract.commodityId)
    && (forall i, j :: 0 <= i < j < |ps| ==> Abs(ps[i].netBu) >= Abs(ps[j].netBu))
  }

  lemma RawIsDistinct(vs: seq<Valued>, prices: map<int, real>)
    ensures var raw := Unsorted(vs, Ids(vs), prices);
            && |raw| == |Ids(vs)| && (forall k :: 0 <= k < |raw| ==> raw[k] == PositionOf(vs, Ids(vs)[k], prices))
            && forall i, j :: 0 <= i < j < |raw| ==> raw[i] != raw[j]
  {
    var raw := Unsorted(vs, Ids(vs), prices);
    UnsortedAt(vs, Ids(vs), prices);
    IdsDistinct(vs);
    hide PositionOf, Ids, Unsorted;
    forall i, j | 0 <= i < j < |raw|
      ensures raw[i] != raw[j]
    {
      IdOf(vs, Ids(vs)[i], prices);
      IdOf(vs, Ids(vs)[j], prices);
    }
  }

  lemma ReportMeans(vs: seq<Valued>, prices: map<int, real>)
    ensures IsReport(Summary(vs, prices), vs, prices)
  {
    var ids, ps := Ids(vs), Summary(vs, prices);
    SummarySorted(vs, prices);
    RowsMean(vs, prices, ids, ps);
    AllCovered(vs, prices, ids, ps);
    hide IsPosition, Summary;
  }

  /** No position twice, the largest net position first. */
  ghost predicate Ordered(ps: seq<Position>) {
    && (forall i, j :: 0 <= i < j < |ps| ==> ps[i] != ps[j])
    && (forall i, j :: 0 <= i < j < |ps| ==> Abs(ps[i].netBu) >= Abs(ps[j].netBu))
  }

  /** The report is the positions, each once, in order. */
  lemma SummarySorted(vs: seq<Valued>, prices: map<int, real>)
    ensures var ids, ps := Ids(vs), Summary(vs, prices);
            && Ordered(ps)
            && (forall k :: 0 <= k < |ids| ==> PositionOf(vs, ids[k], prices) in ps)
            && forall p :: p in ps ==> exists k :: 0 <= k < |ids| && p == PositionOf(vs, ids[k], prices)
  {
    var ids, raw := Ids(vs), Unsorted(vs, Ids(vs), prices);
    RawIsDistinct(vs, prices);
    SortsPositions(raw);
    assert Summary(vs, prices) == StableSort(raw, BiggerFirst);
    hide PositionOf, Ids, Unsorted, StableSort, Summary, Ordered;
    forall k | 0 <= k < |ids|
      ensures PositionOf(vs, ids[k], prices) in raw
    {
      assert raw[k] == PositionOf(vs, ids[k], prices);
    }
    forall p | p in raw
      ensures exists k :: 0 <= k < |ids| && p == PositionOf(vs, ids[k], prices)
    {
      var k :| 0 <= k < |raw| && raw[k] == p;
    }
  }

  lemma SortsPositions(raw: seq<Position>)
    requires forall i, j :: 0 <= i < j < |raw| ==> raw[i] != raw[j]
    ensures var ps := StableSort(raw, BiggerFirst);
            Ordered(ps) && forall p :: p in ps <==> p in raw
  {
    BiggerIsTotal();
    SortIsSorted(raw, BiggerFirst);
    SortKeepsDistinct(raw, BiggerFirst);
    InSorted(raw);
    hide StableSort, TotalPreorder, Abs;
    var ps := StableSort(raw, BiggerFirst);
    forall i, j | 0 <= i < j < |ps|
      ensures Abs(ps[i].netBu) >= Abs(ps[j].netBu)
    {
      assert BiggerFirst(ps[i], ps[j]);
    }
  }

  lemma InSorted(raw: seq<Position>)
    ensures forall p :: p in StableSort(raw, BiggerFirst) <==> p in raw
  {
    hide StableSort, BiggerFirst;
    forall p
      ensures p in StableSort(raw, BiggerFirst) <==> p in raw
    {
      SortMembers(raw, BiggerFirst, p);
    }
  }

  lemma AllCovered(vs: seq<Valued>, prices: map<int, real>, ids: seq<int>, ps: seq<Position>)
    requires ids == Ids(vs) && forall k :: 0 <= k < |ids| ==> PositionOf(vs, ids[k], prices) in ps
    ensures forall i :: 0 <= i < |vs| ==> exists p :: p in ps && p.commodityId == vs[i].contract.commodityId
  {
    IdsDistinct(vs);
    hide PositionOf, Ids;
    forall i | 0 <= i < |vs|
      ensures exists p :: p in ps && p.commodityId == vs[i].contract.commodityId
    {
      var k :| 0 <= k < |ids| && ids[k] == vs[i].contract.commodityId;
      IdOf(vs, ids[k], prices);
    }
  }

  lemma IdOf(vs: seq<Valued>, id: int, prices: map<int, real>)
    ensures PositionOf(vs, id, prices).commodityId == id
  {
  }

  lemma RowsMean(vs: seq<Valued>, prices: map<int, real>, ids: seq<int>, ps: seq<Position>)
    requires ids == Ids(vs) && forall i, j :: 0 <= i < j < |ps| ==> ps[i] != ps[j]
    requires forall p :: p in ps ==> exists i :: 0 <= i < |ids| && p == PositionOf(vs, ids[i], prices)
    ensures forall i :: 0 <= i < |ps| ==> IsPosition(ps[i], vs, prices)
    ensures forall i, j :: 0 <= i < j < |ps| ==> ps[i].commodityId != ps[j].commodityId
  {
    hide PositionOf, IsPosition, Ids;
    forall i | 0 <= i < |ps|
      ensures IsPosition(ps[i], vs, prices) && ps[i] == PositionOf(vs, ps[i].commodityId, prices)
    {
      assert ps[i] in ps;
      var k :| 0 <= k < |ids| && ps[i] == PositionOf(vs, ids[k], prices);
      assert ids[k] in ids;
      PositionMeans(vs, prices, ids[k]);
      IdOf(vs, ids[k], prices);
    }
  }

  /** The report on a list of contracts, against the contracts themselves: each position is the exact
      one of its commodity up to rounding. */
  lemma ReportIsClose(cs: seq<Contract>, prices: map<int, real>)
    ensures var ps := Summary(Mark(cs, prices), prices);
            && IsReport(ps, Mark(cs, prices), prices)
            && forall i :: 0 <= i < |ps| ==> WithinRounding(ps[i], cs, prices, ps[i].commodityId)
  {
    var vs := Mark(cs, prices);
    var ps := Summary(vs, prices);
    ReportMeans(vs, prices);
    UnsortedAt(vs, Ids(vs), prices);
    hide PositionOf, WithinRounding, IsReport, Ids, Mark;
    forall i | 0 <= i < |ps|
      ensures WithinRounding(ps[i], cs, prices, ps[i].commodityId)
    {
      SortMembers(Unsorted(vs, Ids(vs), prices), BiggerFirst, ps[i]);
      var k :| 0 <= k < |Ids(vs)| && Unsorted(vs, Ids(vs), prices)[k] == ps[i];
      IdOf(vs, Ids(vs)[k], prices);
      RoundingBound(cs, prices, Ids(vs)[k]);
    }
  }
}
