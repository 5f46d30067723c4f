/** The knowledge graph (backend/app/graph.py): nodes and edges assembled from table rows and
    their foreign keys. */
module Graph {
  import opened Wrappers
  import opened NodeIds
  import opened Walks

  const MAX_DEPTH := 3

  datatype Node = Node(id: string, kind: string, title: string, extra: map<string, string>)

  datatype Graph = Graph(nodes: map<string, Node>, edges: seq<Edge>)

  // ------------------------------------------------------------ building

  /** The node kinds, one per table. */
  datatype Kind = CustomerKind | CommodityKind | FacilityKind | BinKind | ContractKind | DeliveryKind | InvoiceKind

  function KindName(k: Kind): string {
    match k
    case CustomerKind => "customer"
    case CommodityKind => "commodity"
    case FacilityKind => "facility"
    case BinKind => "bin"
    case ContractKind => "contract"
    case DeliveryKind => "delivery"
    case InvoiceKind => "invoice"
  }

  function Id(k: Kind, pk: int): string { NodeId(KindName(k), pk) }

  /** The node ids of two rows agree only when it is the same row. */
  lemma IdsIdentifyRows(k1: Kind, p1: int, k2: Kind, p2: int)
    requires Id(k1, p1) == Id(k2, p2)
    ensures k1 == k2 && p1 == p2
  {
    KindNamesKnown(k1);
    KindNamesKnown(k2);
    IdsAreInjective(KindName(k1), p1, KindName(k2), p2);
  }

  lemma KindNamesKnown(k: Kind)
    ensures KindName(k) in NODE_KINDS
    ensures NODE_KINDS[KindRank(k)] == KindName(k)
  {
  }

  function KindRank(k: Kind): (i: nat)
    ensures i < |NODE_KINDS|
  {
    match k
    case CustomerKind => 0
    case CommodityKind => 1
    case FacilityKind => 2
    case BinKind => 3
    case ContractKind => 4
    case DeliveryKind => 5
    case InvoiceKind => 6
  }

  datatype Customer = Customer(id: int, name: string, kind: string)
  datatype Commodity = Commodity(id: int, name: string)
  datatype Facility = Facility(id: int, name: string, location: string)
  datatype Bin = Bin(id: int, name: string, facilityId: int, commodityId: Option<int>)
  datatype Contract = Contract(id: int, number: string, status: string, customerId: int, commodityId: int)
  datatype Delivery = Delivery(id: int, ticket: string, truckId: string,
                               contractId: Option<int>, customerId: int, facilityId: int)
  datatype Invoice = Invoice(id: int, number: string, status: string, contractId: Option<int>, customerId: int)

  datatype Tables = Tables(
    customers: seq<Customer>, commodities: seq<Commodity>, facilities: seq<Facility>, bins: seq<Bin>,
    contracts: seq<Contract>, deliveries: seq<Delivery>, invoices: seq<Invoice>)

  /** One table row, as the graph sees it. */
  datatype Entry = Entry(kind: Kind, pk: int, title: string, extra: map<string, string>)

  /** One foreign key: `dst` is None when the column is null. */
  datatype Link = Link(src: Kind, srcPk: int, relation: string, dst: Kind, dstPk: Option<int>)

  function CustomerEntry(r: Customer): Entry { Entry(CustomerKind, r.id, r.name, map["subtype" := r.kind]) }
  function CommodityEntry(r: Commodity): Entry { Entry(CommodityKind, r.id, r.name, map[]) }
  function FacilityEntry(r: Facility): Entry { Entry(FacilityKind, r.id, r.name, map["location" := r.location]) }
  function BinEntry(r: Bin): Entry { Entry(BinKind, r.id, r.name, map[]) }
  function ContractEntry(r: Contract): Entry { Entry(ContractKind, r.id, r.number, map["status" := r.status]) }
  function DeliveryEntry(r: Delivery): Entry { Entry(DeliveryKind, r.id, r.ticket, map["truck_id" := r.truckId]) }
  function InvoiceEntry(r: Invoice): Entry { Entry(InvoiceKind, r.id, r.number, map["status" := r.status]) }

  function BinLinks(r: Bin): seq<Link> {
    [Link(FacilityKind, r.facilityId, "HAS_BIN", BinKind, Some(r.id)),
     Link(BinKind, r.id, "STORES", CommodityKind, r.commodityId)]
  }

  function ContractLinks(r: Contract): seq<Link> {
    [Link(CustomerKind, r.customerId, "SIGNED", ContractKind, Some(r.id)),
     Link(ContractKind, r.id, "FOR_COMMODITY", CommodityKind, Some(r.commodityId))]
  }

  function DeliveryLinks(r: Delivery): seq<Link> {
    [Link(DeliveryKind, r.id, "FULFILLS", ContractKind, r.contractId),
     Link(DeliveryKind, r.id, "DELIVERED_BY", CustomerKind, Some(r.customerId)),
     Link(DeliveryKind, r.id, "RECEIVED_AT", FacilityKind, Some(r.facilityId))]
  }

  function InvoiceLinks(r: Invoice): seq<Link> {
    [Link(InvoiceKind, r.id, "BILLS", ContractKind, r.contractId),
     Link(InvoiceKind, r.id, "BILLED_TO", CustomerKind, Some(r.customerId))]
  }

  ghost function Map<A, B>(f: A -> B, s: seq<A>): (r: seq<B>)
    ensures |r| == |s| && forall i :: 0 <= i < |s| ==> r[i] == f(s[i])
  {
    seq(|s|, i requires 0 <= i < |s| => f(s[i]))
  }

  ghost function FlatMap<A, B>(f: A -> seq<B>, s: seq<A>): seq<B> {
    if s == [] then [] else FlatMap(f, s[..|s| - 1]) + f(s[|s| - 1])
  }

  /** Every row of every table. */
  ghost function Entries(t: Tables): seq<Entry> {
    Map(CustomerEntry, t.customers) + Map(CommodityEntry, t.commodities) + Map(FacilityEntry, t.facilities)
    + Map(BinEntry, t.bins) + Map(ContractEntry, t.contracts) + Map(DeliveryEntry, t.deliveries)
    + Map(InvoiceEntry, t.invoices)
  }

  /** Every foreign key the graph draws. */
  ghost function Links(t: Tables): seq<Link> {
    FlatMap(BinLinks, t.bins) + FlatMap(ContractLinks, t.contracts)
    + FlatMap(DeliveryLinks, t.deliveries) + FlatMap(InvoiceLinks, t.invoices)
  }

  ghost predicate HasRow(entries: seq<Entry>, kind: Kind, pk: int) {
    exists e :: e in entries && e.kind == kind && e.pk == pk
  }

  /** Not null, and both rows exist. Speaks of table rows only, not of node ids. */
  ghost predicate Holds(entries: seq<Entry>, l: Link) {
    l.dstPk.Some? && HasRow(entries, l.src, l.srcPk) && HasRow(entries, l.dst, l.dstPk.value)
  }

  function EdgeOf(l: Link): Edge
    requires l.dstPk.Some?
  {
    Edge(Id(l.src, l.srcPk), Id(l.dst, l.dstPk.value), l.relation)
  }

  /** One edge for each foreign key that holds, in order. */
  ghost function EdgesOf(entries: seq<Entry>, links: seq<Link>): seq<Edge> {
    if links == [] then []
    else
      var l := links[|links| - 1];
      EdgesOf(entries, links[..|links| - 1])
      + (if Holds(entries, l) then [EdgeOf(l)] else [])
  }

  function NodeOf(e: Entry): Node { Node(Id(e.kind, e.pk), KindName(e.kind), e.title, e.extra) }

  /** The node dictionary: a later row with the same id replaces an earlier one. */
  ghost function NodesOf(entries: seq<Entry>): map<string, Node> {
    if entries == [] then map[]
    else
      var n := NodeOf(entries[|entries| - 1]);
      NodesOf(entries[..|entries| - 1])[n.id := n]
  }

  lemma {:induction false} NodeKeys(entries: seq<Entry>, id: string)
    ensures id in NodesOf(entries) <==> exists e :: e in entries && NodeOf(e).id == id
    ensures id in NodesOf(entries) ==> exists e :: e in entries && NodeOf(e) == NodesOf(entries)[id]
    ensures id in NodesOf(entries) ==> NodesOf(entries)[id].id == id
  {
    if entries != [] {
      var init, last := entries[..|entries| - 1], entries[|entries| - 1];
      NodeKeys(init, id);
      assert entries == init + [last];
      assert last in entries;
      assert forall e :: e in entries <==> e in init || e == last;
      if NodeOf(last).id != id && id in NodesOf(init) {
        var e :| e in init && NodeOf(e) == NodesOf(init)[id];
        assert e in entries;
      }
    }
  }

  /** Looking an id up in the node dictionary is looking the row up in its table. */
  lemma NodeIsRow(entries: seq<Entry>, kind: Kind, pk: int)
    ensures Id(kind, pk) in NodesOf(entries) <==> HasRow(entries, kind, pk)
  {
    var id := Id(kind, pk);
    NodeKeys(entries, id);
    if id in NodesOf(entries) {
      var e :| e in entries && NodeOf(e).id == id;
      IdsIdentifyRows(e.kind, e.pk, kind, pk);
    }
    if HasRow(entries, kind, pk) {
      var e :| e in entries && e.kind == kind && e.pk == pk;
      assert NodeOf(e).id == id;
    }
  }

  ghost predicate DistinctKeys(entries: seq<Entry>) {
    forall i, j :: 0 <= i < j < |entries| ==>
      entries[i].kind != entries[j].kind || entries[i].pk != entries[j].pk
  }

  /** With primary keys distinct in each table, the graph has exactly one node per row. */
  lemma {:induction false} NodePerRow(entries: seq<Entry>)
    requires DistinctKeys(entries)
    ensures |NodesOf(entries)| == |entries|
    ensures forall e :: e in entries ==>
              NodeOf(e).id in NodesOf(entries) && NodesOf(entries)[NodeOf(e).id] == NodeOf(e)
  {
    if entries != [] {
      var init, last := entries[..|entries| - 1], entries[|entries| - 1];
      NodePerRow(init);
      NodeKeys(init, NodeOf(last).id);
      forall e | e in init
        ensures NodeOf(e).id != NodeOf(last).id
      {
        if NodeOf(e).id == NodeOf(last).id {
          IdsIdentifyRows(e.kind, e.pk, last.kind, last.pk);
        }
      }
    }
  }

  ghost predicate DistinctIn<T(!new)>(s: seq<T>, id: T -> int) {
    forall i, j :: 0 <= i < j < |s| ==> id(s[i]) != id(s[j])
  }

  /** Primary keys are distinct within each table. */
  ghost predicate KeyedTables(t: Tables) {
    && DistinctIn(t.customers, (r: Customer) => r.id) && DistinctIn(t.commodities, (r: Commodity) => r.id)
    && DistinctIn(t.facilities, (r: Facility) => r.id) && DistinctIn(t.bins, (r: Bin) => r.id)
    && DistinctIn(t.contracts, (r: Contract) => r.id) && DistinctIn(t.deliveries, (r: Delivery) => r.id)
    && DistinctIn(t.invoices, (r: Invoice) => r.id)
  }

  /** Distinct keys, from tables ranked below `rank`. */
  ghost predicate KeyedBelow(entries: seq<Entry>, rank: nat) {
    DistinctKeys(entries) && forall i :: 0 <= i < |entries| ==> KindRank(entries[i].kind) < rank
  }

  lemma OneMoreTable<T(!new)>(entries: seq<Entry>, rows: seq<T>, toEntry: T -> Entry, id: T -> int, rank: nat)
    requires KeyedBelow(entries, rank) && DistinctIn(rows, id)
    requires forall r: T :: toEntry(r).pk == id(r) && KindRank(toEntry(r).kind) == rank
    ensures KeyedBelow(entries + Map(toEntry, rows), rank + 1)
  {
    var more := Map(toEntry, rows);
    var all := entries + more;
    forall i, j | 0 <= i < j < |all|
      ensures all[i].kind != all[j].kind || all[i].pk != all[j].pk
    {
      if i >= |entries| {
        assert id(rows[i - |entries|]) != id(rows[j - |entries|]);
      } else if j >= |entries| {
        assert KindRank(entries[i].kind) < rank == KindRank(more[j - |entries|].kind);
      }
    }
  }

  /** The node count is the total of the rows. */
  lemma NodesAreRows(t: Tables)
    requires KeyedTables(t)
    ensures DistinctKeys(Entries(t))
    ensures |NodesOf(Entries(t))| == |t.customers| + |t.commodities| + |t.facilities| + |t.bins|
                                     + |t.contracts| + |t.deliveries| + |t.invoices|
  {
    var es: seq<Entry> := [];
    OneMoreTable(es, t.customers, CustomerEntry, (r: Customer) => r.id, 0);
    es := es + Map(CustomerEntry, t.customers);
    OneMoreTable(es, t.commodities, CommodityEntry, (r: Commodity) => r.id, 1);
    es := es + Map(CommodityEntry, t.commodities);
    OneMoreTable(es, t.facilities, FacilityEntry, (r: Facility) => r.id, 2);
    es := es + Map(FacilityEntry, t.facilities);
    OneMoreTable(es, t.bins, BinEntry, (r: Bin) => r.id, 3);
    es := es + Map(BinEntry, t.bins);
    OneMoreTable(es, t.contracts, ContractEntry, (r: Contract) => r.id, 4);
    es := es + Map(ContractEntry, t.contracts);
    OneMoreTable(es, t.deliveries, DeliveryEntry, (r: Delivery) => r.id, 5);
    es := es + Map(DeliveryEntry, t.deliveries);
    OneMoreTable(es, t.invoices, InvoiceEntry, (r: Invoice) => r.id, 6);
    es := es + Map(InvoiceEntry, t.invoices);
    assert [] + Map(CustomerEntry, t.customers) == Map(CustomerEntry, t.customers);
    assert es == Entries(t);
    NodePerRow(es);
  }

  /** An edge says which foreign key it stands for. */
  lemma EdgeIdentifiesLink(l1: Link, l2: Link)
    requires l1.dstPk.Some? && l2.dstPk.Some? && EdgeOf(l1) == EdgeOf(l2)
    ensures l1 == l2
  {
    IdsIdentifyRows(l1.src, l1.srcPk, l2.src, l2.srcPk);
    IdsIdentifyRows(l1.dst, l1.dstPk.value, l2.dst, l2.dstPk.value);
  }

  ghost predicate NoRepeats<T(!new)>(s: seq<T>) {
    forall i, j :: 0 <= i < j < |s| ==> s[i] != s[j]
  }

  /** The tables that hold foreign keys, numbered; the kinds a key joins say which one it is in. */
  function TableOf(l: Link): nat {
    if l.src == BinKind || l.dst == BinKind then 0
    else if l.src == CustomerKind || l.src == ContractKind then 1
    else if l.src == DeliveryKind then 2
    else 3
  }

  /** The row a key is in: at the far end for a bin's facility and a contract's customer. */
  function RowOf(l: Link): int {
    if (l.dst == BinKind || l.src == CustomerKind) && l.dstPk.Some? then l.dstPk.value else l.srcPk
  }

  /** What one row of table `k` contributes. */
  ghost predicate OwnLinks(ls: seq<Link>, k: nat, row: int) {
    NoRepeats(ls) && forall l :: l in ls ==> TableOf(l) == k && RowOf(l) == row
  }

  lemma RowLinks()
    ensures forall r :: OwnLinks(BinLinks(r), 0, r.id)
    ensures forall r :: OwnLinks(ContractLinks(r), 1, r.id)
    ensures forall r :: OwnLinks(DeliveryLinks(r), 2, r.id)
    ensures forall r :: OwnLinks(InvoiceLinks(r), 3, r.id)
  {
  }

  /** Links without repeats, from tables numbered below `k`. */
  ghost predicate DistinctBelow(links: seq<Link>, k: nat) {
    NoRepeats(links) && forall l :: l in links ==> TableOf(l) < k
  }

  lemma {:induction false} TableLinks<T(!new)>(rows: seq<T>, toLinks: T -> seq<Link>, id: T -> int, k: nat)
    requires DistinctIn(rows, id) && forall r: T :: OwnLinks(toLinks(r), k, id(r))
    ensures NoRepeats(FlatMap(toLinks, rows))
    ensures forall l :: l in FlatMap(toLinks, rows) ==> TableOf(l) == k && exists r :: r in rows && RowOf(l) == id(r)
  {
    hide TableOf, RowOf;
    if rows != [] {
      var init, last := rows[..|rows| - 1], rows[|rows| - 1];
      TableLinks(init, toLinks, id, k);
      assert rows == init + [last];
      assert OwnLinks(toLinks(last), k, id(last));
      forall r | r in init
        ensures id(r) != id(last)
      {
        var i :| 0 <= i < |init| && init[i] == r;
        assert id(rows[i]) != id(rows[|rows| - 1]);
      }
      JoinDistinct(FlatMap(toLinks, init), toLinks(last));
    }
  }

  lemma JoinDistinct<T(!new)>(a: seq<T>, b: seq<T>)
    requires NoRepeats(a) && NoRepeats(b) && forall x :: !(x in a && x in b)
    ensures NoRepeats(a + b)
  {
    var s := a + b;
    forall i, j | 0 <= i < j < |s|
      ensures s[i] != s[j]
    {
      if i < |a| <= j {
        assert s[i] in a && s[j] in b;
      }
    }
  }

  lemma MoreLinks<T(!new)>(links: seq<Link>, rows: seq<T>, toLinks: T -> seq<Link>, id: T -> int, k: nat)
    requires DistinctBelow(links, k) && DistinctIn(rows, id) && forall r: T :: OwnLinks(toLinks(r), k, id(r))
    ensures DistinctBelow(links + FlatMap(toLinks, rows), k + 1)
  {
    hide TableOf, RowOf;
    TableLinks(rows, toLinks, id, k);
    JoinDistinct(links, FlatMap(toLinks, rows));
  }

  /** No foreign key is listed twice. */
  lemma LinksAreDistinct(t: Tables)
    requires KeyedTables(t)
    ensures NoRepeats(Links(t))
  {
    RowLinks();
    hide OwnLinks, FlatMap;
    var ls: seq<Link> := [];
    MoreLinks(ls, t.bins, BinLinks, (r: Bin) => r.id, 0);
    ls := ls + FlatMap(BinLinks, t.bins);
    MoreLinks(ls, t.contracts, ContractLinks, (r: Contract) => r.id, 1);
    ls := ls + FlatMap(ContractLinks, t.contracts);
    MoreLinks(ls, t.deliveries, DeliveryLinks, (r: Delivery) => r.id, 2);
    ls := ls + FlatMap(DeliveryLinks, t.deliveries);
    MoreLinks(ls, t.invoices, InvoiceLinks, (r: Invoice) => r.id, 3);
    ls := ls + FlatMap(InvoiceLinks, t.invoices);
    assert [] + FlatMap(BinLinks, t.bins) == FlatMap(BinLinks, t.bins);
    assert ls == Links(t);
  }

  /** The key holds, and this is its edge. */
  ghost predicate Gives(entries: seq<Entry>, l: Link, e: Edge) { Holds(entries, l) && e == EdgeOf(l) }

  lemma LastGives(entries: seq<Entry>, links: seq<Link>, e: Edge)
    requires links != []
    ensures e in EdgesOf(entries, links) <==> e in EdgesOf(entries, links[..|links| - 1]) || Gives(entries, links[|links| - 1], e)
  {
    hide Id, HasRow;
  }

  lemma {:induction false} EdgesAreLinks(entries: seq<Entry>, links: seq<Link>, e: Edge)
    ensures e in EdgesOf(entries, links) <==> exists l :: l in links && Gives(entries, l, e)
  {
    hide Gives;
    if links != [] {
      var init, last := links[..|links| - 1], links[|links| - 1];
      EdgesAreLinks(entries, init, e);
      LastGives(entries, links, e);
      hide EdgesOf;
      assert links == init + [last];
      assert forall l :: l in links <==> l in init || l == last;
    }
  }

  /** A key that is not listed yet gives an edge that is not either. */
  lemma NewKeyNewEdge(entries: seq<Entry>, init: seq<Link>, last: Link)
    requires Holds(entries, last) && last !in init
    ensures EdgeOf(last) !in EdgesOf(entries, init)
  {
    var e := EdgeOf(last);
    EdgesAreLinks(entries, init, e);
    if l :| l in init && Gives(entries, l, e) {
      EdgeIdentifiesLink(l, last);
    }
  }

  lemma {:induction false} EdgesAreDistinct(entries: seq<Entry>, links: seq<Link>)
    requires NoRepeats(links)
    ensures NoRepeats(EdgesOf(entries, links))
  {
    if links != [] {
      var init, last := links[..|links| - 1], links[|links| - 1];
      EdgesAreDistinct(entries, init);
      if Holds(entries, last) {
        NewKeyNewEdge(entries, init, last);
        hide Id, HasRow;
        JoinDistinct(EdgesOf(entries, init), [EdgeOf(last)]);
      }
    }
  }

  /** The edges are in bijection with the foreign keys that hold: each gives one edge, no two give
      the same one, and no edge is listed twice. */
  lemma EdgesMatchKeys(t: Tables)
    requires KeyedTables(t)
    ensures var edges := EdgesOf(Entries(t), Links(t));
            && NoRepeats(edges)
            && (forall e :: e in edges <==> exists l :: l in Links(t) && Gives(Entries(t), l, e))
            && forall k, l, e :: Gives(Entries(t), k, e) && Gives(Entries(t), l, e) ==> k == l
  {
    hide EdgesOf, Links, Entries, NoRepeats;
    LinksAreDistinct(t);
    EdgesAreDistinct(Entries(t), Links(t));
    forall e
      ensures e in EdgesOf(Entries(t), Links(t)) <==> exists l :: l in Links(t) && Gives(Entries(t), l, e)
    {
      EdgesAreLinks(Entries(t), Links(t), e);
    }
    forall k, l, e | Gives(Entries(t), k, e) && Gives(Entries(t), l, e)
      ensures k == l
    {
      EdgeIdentifiesLink(k, l);
    }
  }

  method AddAll<T>(nodes: map<string, Node>, rows: seq<T>, toEntry: T -> Entry, ghost before: seq<Entry>)
    returns (r: map<string, Node>)
    requires nodes == NodesOf(before)
    ensures r == NodesOf(before + Map(toEntry, rows))
  {
    r := nodes;
    assert before + Map(toEntry, rows[..0]) == before;
    for i := 0 to |rows|
      invariant r == NodesOf(before + Map(toEntry, rows[..i]))
    {
      MapSnoc(toEntry, rows, i, before);
      NodesSnoc(before + Map(toEntry, rows[..i]), toEntry(rows[i]));
      var n := NodeOf(toEntry(rows[i]));
      r := r[n.id := n];
    }
    assert rows[..|rows|] == rows;
  }

  lemma MapSnoc<A, B>(f: A -> B, s: seq<A>, i: nat, before: seq<B>)
    requires i < |s|
    ensures before + Map(f, s[..i + 1]) == before + Map(f, s[..i]) + [f(s[i])]
  {
  }

  lemma NodesSnoc(entries: seq<Entry>, e: Entry)
    ensures NodesOf(entries + [e]) == NodesOf(entries)[NodeOf(e).id := NodeOf(e)]
  {
    assert (entries + [e])[..|entries|] == entries;
  }

  lemma EdgesSnoc(entries: seq<Entry>, links: seq<Link>, l: Link)
    ensures EdgesOf(entries, links + [l]) == EdgesOf(entries, links) + (if Holds(entries, l) then [EdgeOf(l)] else [])
  {
    assert (links + [l])[..|links|] == links;
  }

  method AddLink(nodes: map<string, Node>, edges: seq<Edge>, l: Link, ghost entries: seq<Entry>, ghost before: seq<Link>)
    returns (r: seq<Edge>)
    requires nodes == NodesOf(entries) && edges == EdgesOf(entries, before)
    ensures r == EdgesOf(entries, before + [l])
  {
    EdgesSnoc(entries, before, l);
    // A null key, or one whose row is gone, gives no edge.
    if l.dstPk == None {
      return edges;
    }
    NodeIsRow(entries, l.src, l.srcPk);
    NodeIsRow(entries, l.dst, l.dstPk.value);
    var a, b := Id(l.src, l.srcPk), Id(l.dst, l.dstPk.value);
    if a in nodes && b in nodes {
      return edges + [Edge(a, b, l.relation)];
    }
    return edges;
  }

  method AddLinks(nodes: map<string, Node>, edges: seq<Edge>, links: seq<Link>, ghost entries: seq<Entry>, ghost before: seq<Link>)
    returns (r: seq<Edge>)
    requires nodes == NodesOf(entries) && edges == EdgesOf(entries, before)
    ensures r == EdgesOf(entries, before + links)
  {
    hide EdgesOf, NodesOf;
    r := edges;
    assert before + links[..0] == before;
    for j := 0 to |links|
      invariant r == EdgesOf(entries, before + links[..j])
    {
      r := AddLink(nodes, r, links[j], entries, before + links[..j]);
      assert before + links[..j] + [links[j]] == before + links[..j + 1];
    }
    assert links[..|links|] == links;
  }

  method LinkAll<T>(nodes: map<string, Node>, edges: seq<Edge>, rows: seq<T>, toLinks: T -> seq<Link>,
                    ghost entries: seq<Entry>, ghost before: seq<Link>)
    returns (r: seq<Edge>)
    requires nodes == NodesOf(entries) && edges == EdgesOf(entries, before)
    ensures r == EdgesOf(entries, before + FlatMap(toLinks, rows))
  {
    r := edges;
    assert before + FlatMap(toLinks, rows[..0]) == before;
    for i := 0 to |rows|
      invariant r == EdgesOf(entries, before + FlatMap(toLinks, rows[..i]))
    {
      r := AddLinks(nodes, r, toLinks(rows[i]), entries, before + FlatMap(toLinks, rows[..i]));
      FlatMapSnoc(toLinks, rows, i, before);
    }
    assert rows[..|rows|] == rows;
  }

  lemma FlatMapSnoc<A, B>(f: A -> seq<B>, s: seq<A>, i: nat, before: seq<B>)
    requires i < |s|
    ensures before + FlatMap(f, s[..i + 1]) == before + FlatMap(f, s[..i]) + f(s[i])
  {
    assert s[..i + 1][..i] == s[..i];
  }

  method BuildNodes(t: Tables) returns (nodes: map<string, Node>)
    ensures nodes == NodesOf(Entries(t))
  {
    nodes := AddAll(map[], t.customers, CustomerEntry, []);
    ghost var done := [] + Map(CustomerEntry, t.customers);
    nodes := AddAll(nodes, t.commodities, CommodityEntry, done);
    done := done + Map(CommodityEntry, t.commodities);
    nodes := AddAll(nodes, t.facilities, FacilityEntry, done);
    done := done + Map(FacilityEntry, t.facilities);
    nodes := AddAll(nodes, t.bins, BinEntry, done);
    done := done + Map(BinEntry, t.bins);
    nodes := AddAll(nodes, t.contracts, ContractEntry, done);
    done := done + Map(ContractEntry, t.contracts);
    nodes := AddAll(nodes, t.deliveries, DeliveryEntry, done);
    done := done + Map(DeliveryEntry, t.deliveries);
    nodes := AddAll(nodes, t.invoices, InvoiceEntry, done);
    assert [] + Map(CustomerEntry, t.customers) == Map(CustomerEntry, t.customers);
  }

  lemma NoEdges(rows: seq<Entry>)
    ensures EdgesOf(rows, []) == []
  {
  }

  method BuildEdges(t: Tables, nodes: map<string, Node>, ghost rows: seq<Entry>) returns (edges: seq<Edge>)
    requires nodes == NodesOf(rows)
    ensures edges == EdgesOf(rows, Links(t))
  {
    hide FlatMap, EdgesOf, NodesOf;
    NoEdges(rows);
    edges := LinkAll(nodes, [], t.bins, BinLinks, rows, []);
    ghost var links := [] + FlatMap(BinLinks, t.bins);
    edges := LinkAll(nodes, edges, t.contracts, ContractLinks, rows, links);
    links := links + FlatMap(ContractLinks, t.contracts);
    edges := LinkAll(nodes, edges, t.deliveries, DeliveryLinks, rows, links);
    links := links + FlatMap(DeliveryLinks, t.deliveries);
    edges := LinkAll(nodes, edges, t.invoices, InvoiceLinks, rows, links);
    assert [] + FlatMap(BinLinks, t.bins) == FlatMap(BinLinks, t.bins);
  }

  /** The graph says what the tables say: a node for each row, an edge for each foreign
      key that is not null and not dangling. */
  method Build(t: Tables) returns (g: Graph)
    ensures g.nodes == NodesOf(Entries(t))
    ensures g.edges == EdgesOf(Entries(t), Links(t))
    ensures WellFormed(g)
    ensures KeyedTables(t) ==> NoRepeats(g.edges)
  {
    var nodes := BuildNodes(t);
    var edges := BuildEdges(t, nodes, Entries(t));
    EdgesEndAtNodes(Entries(t), Links(t));
    if KeyedTables(t) {
      EdgesMatchKeys(t);
    }
    return Graph(nodes, edges);
  }

  /** Every edge ends at nodes, and every node carries its own id. */
  ghost predicate WellFormed(g: Graph) {
    && (forall e :: e in g.edges ==> e.source in g.nodes && e.target in g.nodes)
    && (forall id :: id in g.nodes ==> g.nodes[id].id == id)
  }

  lemma {:induction false} EdgesEndAtNodes(entries: seq<Entry>, links: seq<Link>)
    ensures WellFormed(Graph(NodesOf(entries), EdgesOf(entries, links)))
  {
    forall id | id in NodesOf(entries)
      ensures NodesOf(entries)[id].id == id
    {
      NodeKeys(entries, id);
    }
    if links != [] {
      var l := links[|links| - 1];
      EdgesEndAtNodes(entries, links[..|links| - 1]);
      if Holds(entries, l) {
        NodeIsRow(entries, l.src, l.srcPk);
        NodeIsRow(entries, l.dst, l.dstPk.value);
      }
    }
  }
}
