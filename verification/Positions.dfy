/** Open contracts valued against the market, and the net position per commodity
    (backend/app/market.py). Arithmetic is over the reals with the code's rounding. */
module Positions {
  import opened Wrappers
  import opened Rounding
  import opened Sorting
  import opened Selections

  const PURCHASE := "farmer"

  datatype Contract = Contract(number: string, commodityId: int, commodity: string, side: string,
                               quantity: real, delivered: real, price: real)

  datatype Valued = Valued(contract: Contract, remaining: real, market: real, basis: real, unrealised: real)

  datatype Direction = Long | Short | Flat

  datatype Position = Position(commodityId: int, commodity: string, market: Option<real>,
                               longBu: real, shortBu: real, netBu: real, direction: Direction,
                               unrealised: real, openContracts: nat)

  predicate IsPurchase(c: Contract) { c.side == PURCHASE }

  /** To four places, ties to even. */
  function Round4(x: real): real { HalfEven(x * 10000.0) as real / 10000.0 }

  /** The nearest multiple of the fourth place, and of two equally near the even one. */
  lemma Round4Is(x: real) returns (n: int)
    ensures Round4(x) == n as real / 10000.0
    ensures Abs(x * 10000.0 - n as real) < 0.5 || (Abs(x * 10000.0 - n as real) == 0.5 && n % 2 == 0)
  {
    n := HalfEven(x * 10000.0);
    HalfEvenIff(x * 10000.0, n);
    hide HalfEven;
  }

  // ------------------------------------------------------------ exact values

  function Remaining(c: Contract): real {
    if c.quantity - c.delivered > 0.0 then c.quantity - c.delivered else 0.0
  }

  /** What the open balance is worth against the market, sign by side. */
  function Worth(c: Contract, market: real): real {
    (market - c.price) * Remaining(c) * (if IsPurchase(c) then 1.0 else -1.0)
  }

  // ------------------------------------------------------------ mark to market

  predicate IsOpen(c: Contract, prices: map<int, real>) {
    c.commodityId in prices && Remaining(c) != 0.0
  }

  function Value(c: Contract, market: real): Valued {
    Valued(c, Cents(Remaining(c)), Round4(market), Round4(market - c.price), Cents(Worth(c, market)))
  }

  function Mark(contracts: seq<Contract>, prices: map<int, real>): seq<Valued> {
    if contracts == [] then []
    else
      var c := contracts[|contracts| - 1];
      Mark(contracts[..|contracts| - 1], prices) + (if IsOpen(c, prices) then [Value(c, prices[c.commodityId])] else [])
  }

  /** There is a price for it, and something left to deliver. */
  predicate IsLive(c: Contract, prices: map<int, real>) { c.commodityId in prices && c.quantity > c.delivered }

  function LiveAt(prices: map<int, real>): Contract -> bool { (c: Contract) => IsLive(c, prices) }

  /** What a purchase is worth at the market less what it was contracted for; for a sale the reverse. */
  function Gain(c: Contract, market: real): real {
    var open := c.quantity - c.delivered;
    if c.side == "farmer" then open * market - open * c.price else open * c.price - open * market
  }

  /** The contract with its open balance, the market, the difference and the gain, rounded. */
  ghost predicate IsValued(v: Valued, c: Contract, prices: map<int, real>)
    requires c.commodityId in prices
  {
    var market := prices[c.commodityId];
    && v.contract == c
    && v.remaining == Cents(c.quantity - c.delivered)
    && v.market == Round4(market) && v.basis == Round4(market - c.price)
    && v.unrealised == Cents(Gain(c, market))
  }

  ghost predicate AllValued(vs: seq<Valued>, cs: seq<Contract>, prices: map<int, real>, at: seq<nat>) {
    && |vs| == |at|
    && forall k :: 0 <= k < |at| ==> at[k] < |cs| && IsLive(cs[at[k]], prices) && IsValued(vs[k], cs[at[k]], prices)
  }

  lemma WorthIsGain(c: Contract, prices: map<int, real>)
    ensures IsOpen(c, prices) <==> IsLive(c, prices)
    ensures IsLive(c, prices) ==>
              Remaining(c) == c.quantity - c.delivered && Worth(c, prices[c.commodityId]) == Gain(c, prices[c.commodityId])
              && IsValued(Value(c, prices[c.commodityId]), c, prices)
  {
    hide Cents, Round4;
    if IsLive(c, prices) {
      var open, market := c.quantity - c.delivered, prices[c.commodityId];
      assert (market - c.price) * open == open * market - open * c.price;
    }
  }

  /** A purchase gains exactly when the market is above its price, a sale exactly when it is below. */
  lemma GainSign(c: Contract, market: real)
    requires c.quantity > c.delivered
    ensures Gain(c, market) > 0.0 <==> (if c.side == "farmer" then market > c.price else market < c.price)
    ensures Gain(c, market) < 0.0 <==> (if c.side == "farmer" then market < c.price else market > c.price)
  {
    var open, diff := c.quantity - c.delivered, market - c.price;
    assert open * market - open * c.price == open * diff;
    if diff > 0.0 {
      assert open * diff > 0.0;
    } else if diff < 0.0 {
      assert open * -diff > 0.0;
    }
  }

  method MarkToMarket(contracts: seq<Contract>, prices: map<int, real>) returns (valued: seq<Valued>, ghost at: seq<nat>)
    ensures Picks(contracts, LiveAt(prices), at) && AllValued(valued, contracts, prices, at)
    ensures valued == Mark(contracts, prices)
  {
    hide Cents, Round4, Picks, AllValued;
    valued, at := [], [];
    PicksNothing(LiveAt(prices));
    NothingValued(contracts, prices);
    assert contracts[..0] == [];
    for i := 0 to |contracts|
      invariant Picks(contracts[..i], LiveAt(prices), at) && AllValued(valued, contracts, prices, at)
      invariant valued == Mark(contracts[..i], prices)
    {
      var c := contracts[i];
      assert contracts[..i + 1] == contracts[..i] + [c];
      PicksNext(contracts[..i], LiveAt(prices), at, c);
      WorthIsGain(c, prices);
      if c.commodityId !in prices {
        continue;
      }
      var market := prices[c.commodityId];
      var remaining := if c.quantity - c.delivered > 0.0 then c.quantity - c.delivered else 0.0;
      if remaining == 0.0 {
        continue;
      }
      var delta := market - c.price;
      var unrealised := delta * remaining * (if c.side == PURCHASE then 1.0 else -1.0);
      assert remaining == Remaining(c) && unrealised == Worth(c, market);
      var v := Valued(c, Cents(remaining), Round4(market), Round4(delta), Cents(unrealised));
      OneMoreValued(valued, contracts, prices, at, i, v);
      valued, at := valued + [v], at + [i];
    }
    assert contracts[..|contracts|] == contracts;
  }

  lemma NothingValued(cs: seq<Contract>, prices: map<int, real>)
    ensures AllValued([], cs, prices, [])
  {
  }

  lemma OneMoreValued(vs: seq<Valued>, cs: seq<Contract>, prices: map<int, real>, at: seq<nat>, i: nat, v: Valued)
    requires i < |cs| && AllValued(vs, cs, prices, at) && IsLive(cs[i], prices) && IsValued(v, cs[i], prices)
    ensures AllValued(vs + [v], cs, prices, at + [i])
  {
    hide IsLive, IsValued;
  }

  // ------------------------------------------------------------ totals per commodity

  function LongBu(vs: seq<Valued>, id: int): real {
    if vs == [] then 0.0
    else
      var v := vs[|vs| - 1];
      LongBu(vs[..|vs| - 1], id) + (if v.contract.commodityId == id && IsPurchase(v.contract) then v.remaining else 0.0)
  }

  function ShortBu(vs: seq<Valued>, id: int): real {
    if vs == [] then 0.0
    else
      var v := vs[|vs| - 1];
      ShortBu(vs[..|vs| - 1], id) + (if v.contract.commodityId == id && !IsPurchase(v.contract) then v.remaining else 0.0)
  }

  function UnrealisedOf(vs: seq<Valued>, id: int): real {
    if vs == [] then 0.0
    else
      var v := vs[|vs| - 1];
      UnrealisedOf(vs[..|vs| - 1], id) + (if v.contract.commodityId == id then v.unrealised else 0.0)
  }

  function CountOf(vs: seq<Valued>, id: int): nat {
    if vs == [] then 0
    else
      var v := vs[|vs| - 1];
      CountOf(vs[..|vs| - 1], id) + (if v.contract.commodityId == id then 1 else 0)
  }

  /** The commodities that occur, in order of first appearance. */
  function Ids(vs: seq<Valued>): seq<int> {
    if vs == [] then []
    else
      var rest := Ids(vs[..|vs| - 1]);
      var id := vs[|vs| - 1].contract.commodityId;
      if id in rest then rest else rest + [id]
  }

  /** The name under which a commodity first appears. */
  function NameOf(vs: seq<Valued>, id: int): string {
    if vs == [] then ""
    else
      var v := vs[|vs| - 1];
      if id in Ids(vs[..|vs| - 1]) then NameOf(vs[..|vs| - 1], id)
      else if v.contract.commodityId == id then v.contract.commodity
      else ""
  }

  datatype Totals = Totals(commodity: string, longBu: real, shortBu: real, unrealised: real, open: nat)

  function TotalsOf(vs: seq<Valued>, id: int): Totals {
    Totals(NameOf(vs, id), LongBu(vs, id), ShortBu(vs, id), UnrealisedOf(vs, id), CountOf(vs, id))
  }

  function DirectionOf(net: real): Direction { if net > 0.0 then Long else if net < 0.0 then Short else Flat }

  function PositionFrom(id: int, t: Totals, prices: map<int, real>): Position {
    var net := t.longBu - t.shortBu;
    Position(id, t.commodity, if id in prices then Some(prices[id]) else None,
             Cents(t.longBu), Cents(t.shortBu), Cents(net), DirectionOf(net), Cents(t.unrealised), t.open)
  }

  function PositionOf(vs: seq<Valued>, id: int, prices: map<int, real>): Position {
    PositionFrom(id, TotalsOf(vs, id), prices)
  }

  function Unsorted(vs: seq<Valued>, ids: seq<int>, prices: map<int, real>): seq<Position> {
    if ids == [] then [] else Unsorted(vs, ids[..|ids| - 1], prices) + [PositionOf(vs, ids[|ids| - 1], prices)]
  }

  /** The order of the report: the largest net position, long or short, first. */
  predicate BiggerFirst(a: Position, b: Position) { -Abs(a.netBu) <= -Abs(b.netBu) }

  function Summary(vs: seq<Valued>, prices: map<int, real>): seq<Position> {
    StableSort(Unsorted(vs, Ids(vs), prices), BiggerFirst)
  }

  /** `totals` holds what the contracts in `vs` add up to, under the commodities in `order`. */
  ghost predicate Accumulated(totals: map<int, Totals>, order: seq<int>, vs: seq<Valued>) {
    && order == Ids(vs)
    && (forall id :: id in totals <==> id in order)
    && forall id :: id in totals ==> totals[id] == TotalsOf(vs, id)
  }

  method Accumulate(valued: seq<Valued>) returns (byCommodity: map<int, Totals>, order: seq<int>)
    ensures Accumulated(byCommodity, order, valued)
  {
    hide TotalsOf, Ids;
    byCommodity, order := map[], [];
    NothingAccumulated();
    assert valued[..0] == [];
    for i := 0 to |valued|
      invariant Accumulated(byCommodity, order, valued[..i])
    {
      var v := valued[i];
      var id := v.contract.commodityId;
      AddContract(valued, i);
      if id !in byCommodity {
        byCommodity := byCommodity[id := Totals(v.contract.commodity, 0.0, 0.0, 0.0, 0)];
        order := order + [id];
      }
      var e := byCommodity[id];
      if v.contract.side == PURCHASE {
        e := e.(longBu := e.longBu + v.remaining);
      } else {
        e := e.(shortBu := e.shortBu + v.remaining);
      }
      byCommodity := byCommodity[id := e.(unrealised := e.unrealised + v.unrealised, open := e.open + 1)];
    }
    assert valued[..|valued|] == valued;
  }

  lemma InOrder(totals: map<int, Totals>, order: seq<int>, vs: seq<Valued>, i: nat)
    requires Accumulated(totals, order, vs) && i < |order|
    ensures order[i] in totals && totals[order[i]] == TotalsOf(vs, order[i])
  {
    var id := order[i];
    assert exists j :: 0 <= j < |order| && order[j] == id;
    assert id in order;
  }

  lemma NothingAccumulated()
    ensures Accumulated(map[], [], [])
  {
  }

  lemma AddContract(vs: seq<Valued>, i: nat)
    requires i < |vs|
    ensures var id := vs[i].contract.commodityId;
            && Ids(vs[..i + 1]) == (if id in Ids(vs[..i]) then Ids(vs[..i]) else Ids(vs[..i]) + [id])
            && TotalsOf(vs[..i + 1], id) == WithContract(
                 if id in Ids(vs[..i]) then TotalsOf(vs[..i], id) else Totals(vs[i].contract.commodity, 0.0, 0.0, 0.0, 0), vs[i])
            && forall other :: other != id && other in Ids(vs[..i]) ==> TotalsOf(vs[..i + 1], other) == TotalsOf(vs[..i], other)
  {
    assert vs[..i + 1][..i] == vs[..i];
    AbsentIsZero(vs[..i], vs[i].contract.commodityId);
  }

  function WithContract(t: Totals, v: Valued): Totals {
    t.(longBu := if IsPurchase(v.contract) then t.longBu + v.remaining else t.longBu,
       shortBu := if IsPurchase(v.contract) then t.shortBu else t.shortBu + v.remaining,
       unrealised := t.unrealised + v.unrealised, open := t.open + 1)
  }

  lemma {:induction false} AbsentIsZero(vs: seq<Valued>, id: int)
    ensures id !in Ids(vs) ==> LongBu(vs, id) == 0.0 && ShortBu(vs, id) == 0.0 && UnrealisedOf(vs, id) == 0.0 && CountOf(vs, id) == 0
    ensures id in Ids(vs) ==> CountOf(vs, id) > 0
  {
    if vs != [] {
      AbsentIsZero(vs[..|vs| - 1], id);
    }
  }

  method PositionSummary(valued: seq<Valued>, prices: map<int, real>) returns (summary: seq<Position>)
    ensures summary == Summary(valued, prices)
  {
    var byCommodity, order := Accumulate(valued);
    hide Cents, TotalsOf, Ids;
    var unsorted: seq<Position> := [];
    for i := 0 to |order|
      invariant unsorted == Unsorted(valued, order[..i], prices)
    {
      assert order[..i + 1][..i] == order[..i];
      var id: int := order[i];
      InOrder(byCommodity, order, valued, i);
      var e := byCommodity[id];
      var net := e.longBu - e.shortBu;
      unsorted := unsorted + [
        Position(id, e.commodity, if id in prices then Some(prices[id]) else None,
                 Cents(e.longBu), Cents(e.shortBu), Cents(net),
                 if net > 0.0 then Long else if net < 0.0 then Short else Flat, Cents(e.unrealised), e.open)];
    }
    assert order[..|order|] == order;
    return StableSort(unsorted, BiggerFirst);
  }

  // ------------------------------------------------------------ each contract once

  function TotalOpen(ps: seq<Position>): nat {
    if ps == [] then 0 else ps[0].openContracts + TotalOpen(ps[1..])
  }

  lemma {:induction false} TotalOpenAppend(a: seq<Position>, b: seq<Position>)
    ensures TotalOpen(a + b) == TotalOpen(a) + TotalOpen(b)
  {
    if a == [] {
      assert a + b == b;
    } else {
      TotalOpenAppend(a[1..], b);
      assert (a + b)[1..] == a[1..] + b;
    }
  }

  lemma {:induction false} InsertTotal(p: Position, ps: seq<Position>)
    ensures TotalOpen(Insert(p, ps, BiggerFirst)) == p.openContracts + TotalOpen(ps)
  {
    if ps != [] {
      if BiggerFirst(p, ps[0]) {
        assert ([p] + ps)[1..] == ps;
      } else {
        InsertTotal(p, ps[1..]);
        assert ([ps[0]] + Insert(p, ps[1..], BiggerFirst))[1..] == Insert(p, ps[1..], BiggerFirst);
      }
    }
  }

  lemma {:induction false} SortTotal(ps: seq<Position>)
    ensures TotalOpen(StableSort(ps, BiggerFirst)) == TotalOpen(ps)
  {
    if ps != [] {
      SortTotal(ps[1..]);
      InsertTotal(ps[0], StableSort(ps[1..], BiggerFirst));
    }
  }

  function SumCounts(vs: seq<Valued>, ids: seq<int>): nat {
    if ids == [] then 0 else SumCounts(vs, ids[..|ids| - 1]) + CountOf(vs, ids[|ids| - 1])
  }

  lemma {:induction false} UnsortedTotal(vs: seq<Valued>, ids: seq<int>, prices: map<int, real>)
    ensures TotalOpen(Unsorted(vs, ids, prices)) == SumCounts(vs, ids)
  {
    if ids != [] {
      UnsortedTotal(vs, ids[..|ids| - 1], prices);
      var p := PositionOf(vs, ids[|ids| - 1], prices);
      TotalOpenAppend(Unsorted(vs, ids[..|ids| - 1], prices), [p]);
      assert TotalOpen([p]) == p.openContracts + TotalOpen([p][1..]);
    }
  }

  /** One more contract adds one to the sum of the counts, wherever its commodity stands. */
  lemma {:induction false} SumCountsStep(vs: seq<Valued>, v: Valued, ids: seq<int>)
    requires forall i, j :: 0 <= i < j < |ids| ==> ids[i] != ids[j]
    ensures SumCounts(vs + [v], ids) == SumCounts(vs, ids) + (if v.contract.commodityId in ids then 1 else 0)
  {
    if ids != [] {
      var init, last := ids[..|ids| - 1], ids[|ids| - 1];
      SumCountsStep(vs, v, init);
      assert (vs + [v])[..|vs|] == vs;
      assert v.contract.commodityId in ids <==> v.contract.commodityId in init || v.contract.commodityId == last;
      assert v.contract.commodityId == last ==> v.contract.commodityId !in init;
    }
  }

  lemma {:induction false} IdsDistinct(vs: seq<Valued>)
    ensures forall i, j :: 0 <= i < j < |Ids(vs)| ==> Ids(vs)[i] != Ids(vs)[j]
    ensures forall i :: 0 <= i < |vs| ==> vs[i].contract.commodityId in Ids(vs)
  {
    if vs != [] {
      IdsDistinct(vs[..|vs| - 1]);
    }
  }

  lemma {:induction false} CountsSum(vs: seq<Valued>)
    ensures SumCounts(vs, Ids(vs)) == |vs|
  {
    hide Ids, SumCounts, CountOf;
    if vs == [] {
      NoCounts();
    } else {
      var init, v := vs[..|vs| - 1], vs[|vs| - 1];
      var id := v.contract.commodityId;
      assert vs == init + [v];
      CountsSum(init);
      IdsDistinct(init);
      LastIdSplits(init, v);
      SumCountsStep(init, v, Ids(init));
      if id !in Ids(init) {
        AbsentIsZero(init, id);
        CountSnoc(init, v);
        SumCountsSnoc(vs, Ids(init), id);
      }
    }
  }

  lemma NoCounts()
    ensures SumCounts([], Ids([])) == 0
  {
  }

  lemma CountSnoc(init: seq<Valued>, v: Valued)
    ensures CountOf(init + [v], v.contract.commodityId) == CountOf(init, v.contract.commodityId) + 1
  {
    assert (init + [v])[..|init|] == init;
  }

  lemma LastIdSplits(init: seq<Valued>, v: Valued)
    ensures var id := v.contract.commodityId;
            Ids(init + [v]) == if id in Ids(init) then Ids(init) else Ids(init) + [id]
  {
    assert (init + [v])[..|init|] == init;
  }

  lemma SumCountsSnoc(vs: seq<Valued>, ids: seq<int>, id: int)
    ensures SumCounts(vs, ids + [id]) == SumCounts(vs, ids) + CountOf(vs, id)
  {
    assert (ids + [id])[..|ids|] == ids;
  }

  /** Each valued contract is counted in exactly one position. */
  lemma EachContractOnce(vs: seq<Valued>, prices: map<int, real>)
    ensures TotalOpen(Summary(vs, prices)) == |vs|
  {
    SortTotal(Unsorted(vs, Ids(vs), prices));
    UnsortedTotal(vs, Ids(vs), prices);
    CountsSum(vs);
  }

  // ------------------------------------------------------------ rounding bound

  /** Bushels still to be taken in, and to be handed over, for one commodity; nothing rounded. */
  function ExactLong(cs: seq<Contract>, prices: map<int, real>, id: int): real {
    if cs == [] then 0.0
    else
      var c := cs[|cs| - 1];
      ExactLong(cs[..|cs| - 1], prices, id)
      + (if c.commodityId == id && IsLive(c, prices) && c.side == "farmer" then c.quantity - c.delivered else 0.0)
  }

  function ExactShort(cs: seq<Contract>, prices: map<int, real>, id: int): real {
    if cs == [] then 0.0
    else
      var c := cs[|cs| - 1];
      ExactShort(cs[..|cs| - 1], prices, id)
      + (if c.commodityId == id && IsLive(c, prices) && c.side != "farmer" then c.quantity - c.delivered else 0.0)
  }

  /** What they all gain at the market. */
  function ExactGain(cs: seq<Contract>, prices: map<int, real>, id: int): real {
    if cs == [] then 0.0
    else
      var c := cs[|cs| - 1];
      ExactGain(cs[..|cs| - 1], prices, id) + (if c.commodityId == id && IsLive(c, prices) then Gain(c, prices[id]) else 0.0)
  }

  function LiveCount(cs: seq<Contract>, prices: map<int, real>, id: int): nat {
    if cs == [] then 0
    else
      var c := cs[|cs| - 1];
      LiveCount(cs[..|cs| - 1], prices, id) + (if c.commodityId == id && IsLive(c, prices) then 1 else 0)
  }

  lemma MarkSnoc(cs: seq<Contract>, c: Contract, prices: map<int, real>)
    ensures Mark(cs + [c], prices)
            == if IsOpen(c, prices) then Mark(cs, prices) + [Value(c, prices[c.commodityId])] else Mark(cs, prices)
  {
    assert (cs + [c])[..|cs|] == cs;
  }

  lemma TotalsSnoc(vs: seq<Valued>, v: Valued, id: int)
    ensures var all := vs + [v];
            var mine := v.contract.commodityId == id;
            && LongBu(all, id) == LongBu(vs, id) + (if mine && IsPurchase(v.contract) then v.remaining else 0.0)
            && ShortBu(all, id) == ShortBu(vs, id) + (if mine && !IsPurchase(v.contract) then v.remaining else 0.0)
            && UnrealisedOf(all, id) == UnrealisedOf(vs, id) + (if mine then v.unrealised else 0.0)
            && CountOf(all, id) == CountOf(vs, id) + (if mine then 1 else 0)
  {
    hide IsPurchase;
    assert (vs + [v])[..|vs|] == vs;
  }

  lemma ExactSnoc(cs: seq<Contract>, c: Contract, prices: map<int, real>, id: int)
    requires IsLive(c, prices)
    ensures var all := cs + [c];
            var mine, open := c.commodityId == id, c.quantity - c.delivered;
            && ExactLong(all, prices, id) == ExactLong(cs, prices, id) + (if mine && c.side == "farmer" then open else 0.0)
            && ExactShort(all, prices, id) == ExactShort(cs, prices, id) + (if mine && c.side != "farmer" then open else 0.0)
            && ExactGain(all, prices, id) == ExactGain(cs, prices, id) + (if mine then Gain(c, prices[id]) else 0.0)
            && LiveCount(all, prices, id) == LiveCount(cs, prices, id) + (if mine then 1 else 0)
  {
    hide Gain;
    assert (cs + [c])[..|cs|] == cs;
  }

  /** Is one more contract one of the commodity's? */
  predicate Counts(c: Contract, prices: map<int, real>, id: int) { c.commodityId == id && IsLive(c, prices) }

  /** How one more contract moves the sums, rounded and exact. */
  lemma SumsMove(cs: seq<Contract>, c: Contract, prices: map<int, real>, id: int)
    ensures var vs, all := Mark(cs, prices), Mark(cs + [c], prices);
            var mine, buys := Counts(c, prices, id), c.side == "farmer";
            var open := c.quantity - c.delivered;
            && CountOf(all, id) == CountOf(vs, id) + (if mine then 1 else 0)
            && LiveCount(cs + [c], prices, id) == LiveCount(cs, prices, id) + (if mine then 1 else 0)
            && LongBu(all, id) == LongBu(vs, id) + (if mine && buys then Cents(open) else 0.0)
            && ExactLong(cs + [c], prices, id) == ExactLong(cs, prices, id) + (if mine && buys then open else 0.0)
            && ShortBu(all, id) == ShortBu(vs, id) + (if mine && !buys then Cents(open) else 0.0)
            && ExactShort(cs + [c], prices, id) == ExactShort(cs, prices, id) + (if mine && !buys then open else 0.0)
            && UnrealisedOf(all, id) == UnrealisedOf(vs, id) + (if mine then Cents(Gain(c, prices[id])) else 0.0)
            && ExactGain(cs + [c], prices, id) == ExactGain(cs, prices, id) + (if mine then Gain(c, prices[id]) else 0.0)
  {
    MarkSnoc(cs, c, prices);
    WorthIsGain(c, prices);
    if IsLive(c, prices) {
      TotalsSnoc(Mark(cs, prices), Value(c, prices[c.commodityId]), id);
      ExactSnoc(cs, c, prices, id);
    } else {
      assert (cs + [c])[..|cs|] == cs;
    }
    hide Cents, Worth, Remaining, Round4, Gain, Mark;
  }

  /** Half a cent apart for each of `n` contracts. */
  ghost predicate Near(x: real, y: real, n: nat) { Abs(x - y) <= 0.005 * n as real }

  lemma NearMore(x: real, y: real, n: nat, exact: real)
    requires Near(x, y, n)
    ensures Near(x + Cents(exact), y + exact, n + 1) && Near(x - Cents(exact), y - exact, n + 1) && Near(x, y, n + 1)
  {
    CentsError(exact);
    hide Cents;
  }

  lemma {:induction false} CountsAgree(cs: seq<Contract>, prices: map<int, real>, id: int)
    ensures CountOf(Mark(cs, prices), id) == LiveCount(cs, prices, id)
  {
    if cs != [] {
      var init, c := cs[..|cs| - 1], cs[|cs| - 1];
      CountsAgree(init, prices, id);
      SumsMove(init, c, prices, id);
      assert cs == init + [c];
      hide CountOf, LiveCount, Mark;
    }
  }

  /** Each rounded sum stays within half a cent a contract of the exact one. */
  lemma {:induction false} LongClose(cs: seq<Contract>, prices: map<int, real>, id: int)
    ensures Near(LongBu(Mark(cs, prices), id), ExactLong(cs, prices, id), LiveCount(cs, prices, id))
  {
    if cs != [] {
      var init, c := cs[..|cs| - 1], cs[|cs| - 1];
      LongClose(init, prices, id);
      SumsMove(init, c, prices, id);
      assert cs == init + [c];
      hide LongBu, ExactLong, LiveCount, Mark, Near, Cents, Counts, Gain;
      NearMore(LongBu(Mark(init, prices), id), ExactLong(init, prices, id), LiveCount(init, prices, id), c.quantity - c.delivered);
    }
  }

  lemma {:induction false} ShortClose(cs: seq<Contract>, prices: map<int, real>, id: int)
    ensures Near(ShortBu(Mark(cs, prices), id), ExactShort(cs, prices, id), LiveCount(cs, prices, id))
  {
    if cs != [] {
      var init, c := cs[..|cs| - 1], cs[|cs| - 1];
      ShortClose(init, prices, id);
      SumsMove(init, c, prices, id);
      assert cs == init + [c];
      hide ShortBu, ExactShort, LiveCount, Mark, Near, Cents, Counts, Gain;
      NearMore(ShortBu(Mark(init, prices), id), ExactShort(init, prices, id), LiveCount(init, prices, id), c.quantity - c.delivered);
    }
  }

  lemma {:induction false} NetClose(cs: seq<Contract>, prices: map<int, real>, id: int)
    ensures var vs := Mark(cs, prices);
            Near(LongBu(vs, id) - ShortBu(vs, id), ExactLong(cs, prices, id) - ExactShort(cs, prices, id), LiveCount(cs, prices, id))
  {
    if cs != [] {
      var init, c := cs[..|cs| - 1], cs[|cs| - 1];
      NetClose(init, prices, id);
      SumsMove(init, c, prices, id);
      assert cs == init + [c];
      var vs, open := Mark(init, prices), c.quantity - c.delivered;
      hide LongBu, ShortBu, ExactLong, ExactShort, LiveCount, Mark, Near, Cents, Counts, Gain;
      NearMore(LongBu(vs, id) - ShortBu(vs, id), ExactLong(init, prices, id) - ExactShort(init, prices, id), LiveCount(init, prices, id), open);
    }
  }

  lemma {:induction false} GainClose(cs: seq<Contract>, prices: map<int, real>, id: int)
    ensures Near(UnrealisedOf(Mark(cs, prices), id), ExactGain(cs, prices, id), LiveCount(cs, prices, id))
  {
    if cs != [] {
      var init, c := cs[..|cs| - 1], cs[|cs| - 1];
      GainClose(init, prices, id);
      SumsMove(init, c, prices, id);
      assert cs == init + [c];
      hide UnrealisedOf, ExactGain, LiveCount, Mark, Near, Cents, Gain;
      if Counts(c, prices, id) {
        NearMore(UnrealisedOf(Mark(init, prices), id), ExactGain(init, prices, id), LiveCount(init, prices, id), Gain(c, prices[id]));
      }
    }
  }

  /** A commodity's position against the exact sums: long, short, net and unrealised are off by at most
      half a cent for each contract and half a cent for the total. */
  ghost predicate WithinRounding(p: Position, cs: seq<Contract>, prices: map<int, real>, id: int) {
    var slack := 0.005 * (LiveCount(cs, prices, id) + 1) as real;
    && p.openContracts == LiveCount(cs, prices, id)
    && Abs(p.longBu - ExactLong(cs, prices, id)) <= slack
    && Abs(p.shortBu - ExactShort(cs, prices, id)) <= slack
    && Abs(p.netBu - (ExactLong(cs, prices, id) - ExactShort(cs, prices, id))) <= slack
    && Abs(p.unrealised - ExactGain(cs, prices, id)) <= slack
  }

  lemma RoundingBound(cs: seq<Contract>, prices: map<int, real>, id: int)
    ensures WithinRounding(PositionOf(Mark(cs, prices), id, prices), cs, prices, id)
  {
    var vs := Mark(cs, prices);
    CountsAgree(cs, prices, id);
    LongClose(cs, prices, id);
    ShortClose(cs, prices, id);
    NetClose(cs, prices, id);
    GainClose(cs, prices, id);
    CentsError(LongBu(vs, id));
    CentsError(ShortBu(vs, id));
    CentsError(LongBu(vs, id) - ShortBu(vs, id));
    CentsError(UnrealisedOf(vs, id));
    hide Cents, LongBu, ShortBu, UnrealisedOf, CountOf, ExactLong, ExactShort, ExactGain, LiveCount, Mark;
  }

  // ------------------------------------------------------------ swapping sides

  function Swap(c: Contract): Contract { c.(side := if IsPurchase(c) then "buyer" else PURCHASE) }

  function SwapAll(cs: seq<Contract>): seq<Contract> {
    if cs == [] then [] else SwapAll(cs[..|cs| - 1]) + [Swap(cs[|cs| - 1])]
  }

  function SwapValued(v: Valued): Valued { v.(contract := Swap(v.contract), unrealised := -v.unrealised) }

  function SwapValues(vs: seq<Valued>): seq<Valued> {
    if vs == [] then [] else SwapValues(vs[..|vs| - 1]) + [SwapValued(vs[|vs| - 1])]
  }

  function Opposite(d: Direction): Direction {
    match d
    case Long => Short
    case Short => Long
    case Flat => Flat
  }

  /** The same position seen from the other side of every contract. */
  function Mirror(p: Position): Position {
    p.(longBu := p.shortBu, shortBu := p.longBu, netBu := -p.netBu,
       direction := Opposite(p.direction), unrealised := -p.unrealised)
  }

  function MirrorAll(ps: seq<Position>): (r: seq<Position>)
    ensures |r| == |ps| && forall i :: 0 <= i < |ps| ==> r[i] == Mirror(ps[i])
  {
    seq(|ps|, i requires 0 <= i < |ps| => Mirror(ps[i]))
  }

  lemma SwapFlipsPurchase(c: Contract)
    ensures IsPurchase(Swap(c)) <==> !IsPurchase(c)
  {
    assert "buyer"[0] != PURCHASE[0];
  }

  lemma SwapValue(c: Contract, market: real)
    ensures Value(Swap(c), market) == SwapValued(Value(c, market))
  {
    CentsOdd(Worth(c, market));
    SwapWorth(c, market);
    hide Cents, Worth;
  }

  lemma SwapWorth(c: Contract, market: real)
    ensures Worth(Swap(c), market) == -Worth(c, market)
  {
    SwapFlipsPurchase(c);
    var product := (market - c.price) * Remaining(c);
    assert Remaining(Swap(c)) == Remaining(c);
    assert product * 1.0 == -(product * -1.0);
  }

  lemma {:induction false} SwapMark(cs: seq<Contract>, prices: map<int, real>)
    ensures Mark(SwapAll(cs), prices) == SwapValues(Mark(cs, prices))
  {
    if cs != [] {
      var init, c := cs[..|cs| - 1], cs[|cs| - 1];
      SwapMark(init, prices);
      hide Cents, Worth, Round4;
      var swapped := SwapAll(init) + [Swap(c)];
      assert SwapAll(cs) == swapped && swapped[..|swapped| - 1] == SwapAll(init);
      assert IsOpen(Swap(c), prices) <==> IsOpen(c, prices);
      if IsOpen(c, prices) {
        SwapValue(c, prices[c.commodityId]);
        var v := Value(c, prices[c.commodityId]);
        var before := Mark(init, prices);
        assert Mark(cs, prices) == before + [v] && (before + [v])[..|before|] == before;
        assert Mark(swapped, prices) == Mark(SwapAll(init), prices) + [SwapValued(v)];
      } else {
        assert Mark(cs, prices) == Mark(init, prices);
      }
    }
  }

  lemma {:induction false} SwapTotals(vs: seq<Valued>, id: int)
    ensures |SwapValues(vs)| == |vs| && Ids(SwapValues(vs)) == Ids(vs) && NameOf(SwapValues(vs), id) == NameOf(vs, id)
    ensures LongBu(SwapValues(vs), id) == ShortBu(vs, id) && ShortBu(SwapValues(vs), id) == LongBu(vs, id)
    ensures UnrealisedOf(SwapValues(vs), id) == -UnrealisedOf(vs, id) && CountOf(SwapValues(vs), id) == CountOf(vs, id)
  {
    if vs != [] {
      var init, v := vs[..|vs| - 1], vs[|vs| - 1];
      SwapTotals(init, id);
      SwapFlipsPurchase(v.contract);
      var swapped := SwapValues(vs);
      assert swapped[..|swapped| - 1] == SwapValues(init);
    }
  }

  lemma SwapPosition(vs: seq<Valued>, id: int, prices: map<int, real>)
    ensures PositionOf(SwapValues(vs), id, prices) == Mirror(PositionOf(vs, id, prices))
  {
    SwapTotals(vs, id);
    CentsOdd(LongBu(vs, id) - ShortBu(vs, id));
    CentsOdd(UnrealisedOf(vs, id));
    hide Cents, LongBu, ShortBu, UnrealisedOf, CountOf, NameOf, SwapValues;
    assert ShortBu(vs, id) - LongBu(vs, id) == -(LongBu(vs, id) - ShortBu(vs, id));
  }

  lemma MirrorAppend(a: seq<Position>, b: seq<Position>)
    ensures MirrorAll(a + b) == MirrorAll(a) + MirrorAll(b)
  {
    hide Mirror;
  }

  lemma MirrorHead(ps: seq<Position>)
    requires ps != []
    ensures MirrorAll(ps) == [Mirror(ps[0])] + MirrorAll(ps[1..]) && MirrorAll(ps)[1..] == MirrorAll(ps[1..])
  {
    hide Mirror;
  }

  lemma {:induction false} MirrorUnsorted(vs: seq<Valued>, ids: seq<int>, prices: map<int, real>)
    ensures Unsorted(SwapValues(vs), ids, prices) == MirrorAll(Unsorted(vs, ids, prices))
  {
    if ids != [] {
      var init, id := ids[..|ids| - 1], ids[|ids| - 1];
      MirrorUnsorted(vs, init, prices);
      SwapPosition(vs, id, prices);
      var p := PositionOf(vs, id, prices);
      MirrorAppend(Unsorted(vs, init, prices), [p]);
      assert MirrorAll([p]) == [Mirror(p)];
    }
  }

  lemma MirrorKeepsRank(a: Position, b: Position)
    ensures BiggerFirst(Mirror(a), Mirror(b)) <==> BiggerFirst(a, b)
  {
  }

  lemma {:induction false} MirrorInsert(p: Position, ps: seq<Position>)
    ensures Insert(Mirror(p), MirrorAll(ps), BiggerFirst) == MirrorAll(Insert(p, ps, BiggerFirst))
  {
    hide Mirror, BiggerFirst;
    if ps == [] {
      assert MirrorAll([p]) == [Mirror(p)];
    } else {
      MirrorKeepsRank(p, ps[0]);
      MirrorHead(ps);
      if BiggerFirst(p, ps[0]) {
        MirrorAppend([p], ps);
        assert MirrorAll([p]) == [Mirror(p)];
      } else {
        MirrorInsert(p, ps[1..]);
        MirrorAppend([ps[0]], Insert(p, ps[1..], BiggerFirst));
        assert MirrorAll([ps[0]]) == [Mirror(ps[0])];
      }
    }
  }

  lemma {:induction false} MirrorSort(ps: seq<Position>)
    ensures StableSort(MirrorAll(ps), BiggerFirst) == MirrorAll(StableSort(ps, BiggerFirst))
  {
    hide Mirror, BiggerFirst;
    if ps == [] {
      assert MirrorAll(ps) == [];
    } else {
      MirrorSort(ps[1..]);
      MirrorHead(ps);
      MirrorInsert(ps[0], StableSort(ps[1..], BiggerFirst));
    }
  }

  /** Taking the other side of every contract mirrors the whole report, in the same order. */
  lemma SwappingSidesMirrors(cs: seq<Contract>, prices: map<int, real>)
    ensures Summary(Mark(SwapAll(cs), prices), prices) == MirrorAll(Summary(Mark(cs, prices), prices))
  {
    var vs := Mark(cs, prices);
    SwapMark(cs, prices);
    SwapTotals(vs, 0);
    MirrorUnsorted(vs, Ids(vs), prices);
    MirrorSort(Unsorted(vs, Ids(vs), prices));
  }
}
