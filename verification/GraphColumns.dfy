/** The built graph (backend/app/graph.py) read off the columns of the tables. */
module GraphColumns {
  import opened Wrappers
  import opened NodeIds
  import opened Walks
  import opened Graph

  // ------------------------------------------------------------ rows

  ghost predicate IsCustomer(t: Tables, pk: int) { exists r :: r in t.customers && r.id == pk }
  ghost predicate IsCommodity(t: Tables, pk: int) { exists r :: r in t.commodities && r.id == pk }
  ghost predicate IsFacility(t: Tables, pk: int) { exists r :: r in t.facilities && r.id == pk }
  ghost predicate IsBin(t: Tables, pk: int) { exists r :: r in t.bins && r.id == pk }
  ghost predicate IsContract(t: Tables, pk: int) { exists r :: r in t.contracts && r.id == pk }
  ghost predicate IsDelivery(t: Tables, pk: int) { exists r :: r in t.deliveries && r.id == pk }
  ghost predicate IsInvoice(t: Tables, pk: int) { exists r :: r in t.invoices && r.id == pk }

  lemma InMap<A(!new), B>(f: A -> B, s: seq<A>, b: B)
    ensures b in Map(f, s) <==> exists a :: a in s && b == f(a)
  {
    if a :| a in s && b == f(a) {
      var i :| 0 <= i < |s| && s[i] == a;
      assert Map(f, s)[i] == b;
    }
    if b in Map(f, s) {
      var i :| 0 <= i < |s| && Map(f, s)[i] == b;
      assert s[i] in s;
    }
  }

  ghost predicate IsEntry(t: Tables, e: Entry) {
    || (exists r :: r in t.customers && e == CustomerEntry(r))
    || (exists r :: r in t.commodities && e == CommodityEntry(r))
    || (exists r :: r in t.facilities && e == FacilityEntry(r))
    || (exists r :: r in t.bins && e == BinEntry(r))
    || (exists r :: r in t.contracts && e == ContractEntry(r))
    || (exists r :: r in t.deliveries && e == DeliveryEntry(r))
    || (exists r :: r in t.invoices && e == InvoiceEntry(r))
  }

  lemma EntryMembers(t: Tables, e: Entry)
    ensures e in Entries(t) <==> IsEntry(t, e)
  {
    hide Map;
    InMap(CustomerEntry, t.customers, e);
    InMap(CommodityEntry, t.commodities, e);
    InMap(FacilityEntry, t.facilities, e);
    InMap(BinEntry, t.bins, e);
    InMap(ContractEntry, t.contracts, e);
    InMap(DeliveryEntry, t.deliveries, e);
    InMap(InvoiceEntry, t.invoices, e);
  }

  lemma CustomerRows(t: Tables, pk: int)
    ensures HasRow(Entries(t), CustomerKind, pk) <==> IsCustomer(t, pk)
  {
    hide Entries;
    if HasRow(Entries(t), CustomerKind, pk) {
      var e :| e in Entries(t) && e.kind == CustomerKind && e.pk == pk;
      EntryMembers(t, e);
    }
    if r :| r in t.customers && r.id == pk {
      EntryMembers(t, CustomerEntry(r));
    }
  }

  lemma CommodityRows(t: Tables, pk: int)
    ensures HasRow(Entries(t), CommodityKind, pk) <==> IsCommodity(t, pk)
  {
    hide Entries;
    if HasRow(Entries(t), CommodityKind, pk) {
      var e :| e in Entries(t) && e.kind == CommodityKind && e.pk == pk;
      EntryMembers(t, e);
    }
    if r :| r in t.commodities && r.id == pk {
      EntryMembers(t, CommodityEntry(r));
    }
  }

  lemma FacilityRows(t: Tables, pk: int)
    ensures HasRow(Entries(t), FacilityKind, pk) <==> IsFacility(t, pk)
  {
    hide Entries;
    if HasRow(Entries(t), FacilityKind, pk) {
      var e :| e in Entries(t) && e.kind == FacilityKind && e.pk == pk;
      EntryMembers(t, e);
    }
    if r :| r in t.facilities && r.id == pk {
      EntryMembers(t, FacilityEntry(r));
    }
  }

  lemma BinRows(t: Tables, pk: int)
    ensures HasRow(Entries(t), BinKind, pk) <==> IsBin(t, pk)
  {
    hide Entries;
    if HasRow(Entries(t), BinKind, pk) {
      var e :| e in Entries(t) && e.kind == BinKind && e.pk == pk;
      EntryMembers(t, e);
    }
    if r :| r in t.bins && r.id == pk {
      EntryMembers(t, BinEntry(r));
    }
  }

  lemma ContractRows(t: Tables, pk: int)
    ensures HasRow(Entries(t), ContractKind, pk) <==> IsContract(t, pk)
  {
    hide Entries;
    if HasRow(Entries(t), ContractKind, pk) {
      var e :| e in Entries(t) && e.kind == ContractKind && e.pk == pk;
      EntryMembers(t, e);
    }
    if r :| r in t.contracts && r.id == pk {
      EntryMembers(t, ContractEntry(r));
    }
  }

  lemma DeliveryRows(t: Tables, pk: int)
    ensures HasRow(Entries(t), DeliveryKind, pk) <==> IsDelivery(t, pk)
  {
    hide Entries;
    if HasRow(Entries(t), DeliveryKind, pk) {
      var e :| e in Entries(t) && e.kind == DeliveryKind && e.pk == pk;
      EntryMembers(t, e);
    }
    if r :| r in t.deliveries && r.id == pk {
      EntryMembers(t, DeliveryEntry(r));
    }
  }

  lemma InvoiceRows(t: Tables, pk: int)
    ensures HasRow(Entries(t), InvoiceKind, pk) <==> IsInvoice(t, pk)
  {
    hide Entries;
    if HasRow(Entries(t), InvoiceKind, pk) {
      var e :| e in Entries(t) && e.kind == InvoiceKind && e.pk == pk;
      EntryMembers(t, e);
    }
    if r :| r in t.invoices && r.id == pk {
      EntryMembers(t, InvoiceEntry(r));
    }
  }

  // ------------------------------------------------------------ edges

  /** The edges a row of each table gives. */
  ghost predicate BinTells(t: Tables, r: Bin, e: Edge) {
    || (IsFacility(t, r.facilityId) && IsBin(t, r.id) && e == Edge(NodeId("facility", r.facilityId), NodeId("bin", r.id), "HAS_BIN"))
    || (r.commodityId.Some? && IsCommodity(t, r.commodityId.value) && IsBin(t, r.id)
        && e == Edge(NodeId("bin", r.id), NodeId("commodity", r.commodityId.value), "STORES"))
  }

  ghost predicate ContractTells(t: Tables, r: Contract, e: Edge) {
    && IsContract(t, r.id)
    && (|| (IsCustomer(t, r.customerId) && e == Edge(NodeId("customer", r.customerId), NodeId("contract", r.id), "SIGNED"))
        || (IsCommodity(t, r.commodityId) && e == Edge(NodeId("contract", r.id), NodeId("commodity", r.commodityId), "FOR_COMMODITY")))
  }

  ghost predicate DeliveryTells(t: Tables, r: Delivery, e: Edge) {
    && IsDelivery(t, r.id)
    && (|| (r.contractId.Some? && IsContract(t, r.contractId.value)
            && e == Edge(NodeId("delivery", r.id), NodeId("contract", r.contractId.value), "FULFILLS"))
        || (IsCustomer(t, r.customerId) && e == Edge(NodeId("delivery", r.id), NodeId("customer", r.customerId), "DELIVERED_BY"))
        || (IsFacility(t, r.facilityId) && e == Edge(NodeId("delivery", r.id), NodeId("facility", r.facilityId), "RECEIVED_AT")))
  }

  ghost predicate InvoiceTells(t: Tables, r: Invoice, e: Edge) {
    && IsInvoice(t, r.id)
    && (|| (r.contractId.Some? && IsContract(t, r.contractId.value)
            && e == Edge(NodeId("invoice", r.id), NodeId("contract", r.contractId.value), "BILLS"))
        || (IsCustomer(t, r.customerId) && e == Edge(NodeId("invoice", r.id), NodeId("customer", r.customerId), "BILLED_TO")))
  }

  /** Is there a row of this kind with this key? */
  ghost predicate IsRow(t: Tables, k: Kind, pk: int) {
    match k
    case CustomerKind => IsCustomer(t, pk)
    case CommodityKind => IsCommodity(t, pk)
    case FacilityKind => IsFacility(t, pk)
    case BinKind => IsBin(t, pk)
    case ContractKind => IsContract(t, pk)
    case DeliveryKind => IsDelivery(t, pk)
    case InvoiceKind => IsInvoice(t, pk)
  }

  lemma RowPresent(t: Tables, k: Kind, pk: int)
    ensures HasRow(Entries(t), k, pk) <==> IsRow(t, k, pk)
  {
    hide Entries, HasRow;
    match k
    case CustomerKind => CustomerRows(t, pk);
    case CommodityKind => CommodityRows(t, pk);
    case FacilityKind => FacilityRows(t, pk);
    case BinKind => BinRows(t, pk);
    case ContractKind => ContractRows(t, pk);
    case DeliveryKind => DeliveryRows(t, pk);
    case InvoiceKind => InvoiceRows(t, pk);
  }

  lemma LinkTells(t: Tables, l: Link, e: Edge)
    ensures Gives(Entries(t), l, e) <==>
            l.dstPk.Some? && IsRow(t, l.src, l.srcPk) && IsRow(t, l.dst, l.dstPk.value)
            && e == Edge(NodeId(KindName(l.src), l.srcPk), NodeId(KindName(l.dst), l.dstPk.value), l.relation)
  {
    RowPresent(t, l.src, l.srcPk);
    if l.dstPk.Some? {
      RowPresent(t, l.dst, l.dstPk.value);
    }
    hide Entries, HasRow, IsRow, NodeId;
  }

  lemma BinRow(t: Tables, r: Bin, e: Edge)
    ensures (exists l :: l in BinLinks(r) && Gives(Entries(t), l, e)) <==> BinTells(t, r, e)
  {
    var ls := BinLinks(r);
    LinkTells(t, ls[0], e);
    LinkTells(t, ls[1], e);
    hide Entries, Gives, NodeId, IsCustomer, IsCommodity, IsFacility, IsBin, IsContract, IsDelivery, IsInvoice;
    assert ls[0] in ls && ls[1] in ls && forall l :: l in ls ==> l == ls[0] || l == ls[1];
  }

  lemma ContractRow(t: Tables, r: Contract, e: Edge)
    ensures (exists l :: l in ContractLinks(r) && Gives(Entries(t), l, e)) <==> ContractTells(t, r, e)
  {
    var ls := ContractLinks(r);
    LinkTells(t, ls[0], e);
    LinkTells(t, ls[1], e);
    hide Entries, Gives, NodeId, IsCustomer, IsCommodity, IsFacility, IsBin, IsContract, IsDelivery, IsInvoice;
    assert ls[0] in ls && ls[1] in ls && forall l :: l in ls ==> l == ls[0] || l == ls[1];
  }

  lemma DeliveryRow(t: Tables, r: Delivery, e: Edge)
    ensures (exists l :: l in DeliveryLinks(r) && Gives(Entries(t), l, e)) <==> DeliveryTells(t, r, e)
  {
    var ls := DeliveryLinks(r);
    LinkTells(t, ls[0], e);
    LinkTells(t, ls[1], e);
    LinkTells(t, ls[2], e);
    hide Entries, Gives, NodeId, IsCustomer, IsCommodity, IsFacility, IsBin, IsContract, IsDelivery, IsInvoice;
    assert ls[0] in ls && ls[1] in ls && ls[2] in ls && forall l :: l in ls ==> l == ls[0] || l == ls[1] || l == ls[2];
  }

  lemma InvoiceRow(t: Tables, r: Invoice, e: Edge)
    ensures (exists l :: l in InvoiceLinks(r) && Gives(Entries(t), l, e)) <==> InvoiceTells(t, r, e)
  {
    var ls := InvoiceLinks(r);
    LinkTells(t, ls[0], e);
    LinkTells(t, ls[1], e);
    hide Entries, Gives, NodeId, IsCustomer, IsCommodity, IsFacility, IsBin, IsContract, IsDelivery, IsInvoice;
    assert ls[0] in ls && ls[1] in ls && forall l :: l in ls ==> l == ls[0] || l == ls[1];
  }

  /** Some row of the table gives the edge. */
  lemma {:induction false} TableEdges<T(!new)>(entries: seq<Entry>, rows: seq<T>, toLinks: T -> seq<Link>, tells: T -> bool, e: Edge)
    requires forall r :: r in rows ==> ((exists l :: l in toLinks(r) && Gives(entries, l, e)) <==> tells(r))
    ensures (exists l :: l in FlatMap(toLinks, rows) && Gives(entries, l, e)) <==> exists r :: r in rows && tells(r)
  {
    hide Gives;
    if rows != [] {
      var init, last := rows[..|rows| - 1], rows[|rows| - 1];
      assert rows == init + [last];
      assert forall r :: r in rows <==> r in init || r == last;
      TableEdges(entries, init, toLinks, tells, e);
      assert forall l :: l in FlatMap(toLinks, rows) <==> l in FlatMap(toLinks, init) || l in toLinks(last);
    }
  }

  /** The edges are exactly those the columns give: the nine foreign keys, each with its relation and direction. */
  ghost predicate IsTold(t: Tables, e: Edge) {
    || (exists r :: r in t.bins && BinTells(t, r, e)) || (exists r :: r in t.contracts && ContractTells(t, r, e))
    || (exists r :: r in t.deliveries && DeliveryTells(t, r, e)) || (exists r :: r in t.invoices && InvoiceTells(t, r, e))
  }

  lemma EdgesFromColumns(t: Tables, e: Edge)
    ensures e in EdgesOf(Entries(t), Links(t)) <==> IsTold(t, e)
  {
    EdgesAreLinks(Entries(t), Links(t), e);
    LinkOfSome(t, e);
    hide Entries, Links, Gives, BinTells, ContractTells, DeliveryTells, InvoiceTells, BinLinks, ContractLinks, DeliveryLinks, InvoiceLinks, FlatMap;
    forall r | r in t.bins ensures (exists l :: l in BinLinks(r) && Gives(Entries(t), l, e)) <==> BinTells(t, r, e) { BinRow(t, r, e); }
    forall r | r in t.contracts ensures (exists l :: l in ContractLinks(r) && Gives(Entries(t), l, e)) <==> ContractTells(t, r, e) { ContractRow(t, r, e); }
    forall r | r in t.deliveries ensures (exists l :: l in DeliveryLinks(r) && Gives(Entries(t), l, e)) <==> DeliveryTells(t, r, e) { DeliveryRow(t, r, e); }
    forall r | r in t.invoices ensures (exists l :: l in InvoiceLinks(r) && Gives(Entries(t), l, e)) <==> InvoiceTells(t, r, e) { InvoiceRow(t, r, e); }
    TableEdges(Entries(t), t.bins, BinLinks, (r: Bin) => BinTells(t, r, e), e);
    TableEdges(Entries(t), t.contracts, ContractLinks, (r: Contract) => ContractTells(t, r, e), e);
    TableEdges(Entries(t), t.deliveries, DeliveryLinks, (r: Delivery) => DeliveryTells(t, r, e), e);
    TableEdges(Entries(t), t.invoices, InvoiceLinks, (r: Invoice) => InvoiceTells(t, r, e), e);
  }

  lemma LinkOfSome(t: Tables, e: Edge)
    ensures (exists l :: l in Links(t) && Gives(Entries(t), l, e)) <==>
            || (exists l :: l in FlatMap(BinLinks, t.bins) && Gives(Entries(t), l, e))
            || (exists l :: l in FlatMap(ContractLinks, t.contracts) && Gives(Entries(t), l, e))
            || (exists l :: l in FlatMap(DeliveryLinks, t.deliveries) && Gives(Entries(t), l, e))
            || (exists l :: l in FlatMap(InvoiceLinks, t.invoices) && Gives(Entries(t), l, e))
  {
    hide Entries, Gives, FlatMap;
  }

  // ------------------------------------------------------------ nodes

  /** The node that stands for a row carries its id, kind, title and extra column. */
  ghost predicate PlacesTell(t: Tables, nodes: map<string, Node>) {
    && (forall r :: r in t.customers ==> Stands(nodes, "customer", r.id, r.name, map["subtype" := r.kind]))
    && (forall r :: r in t.commodities ==> Stands(nodes, "commodity", r.id, r.name, map[]))
    && (forall r :: r in t.facilities ==> Stands(nodes, "facility", r.id, r.name, map["location" := r.location]))
    && (forall r :: r in t.bins ==> Stands(nodes, "bin", r.id, r.name, map[]))
  }

  ghost predicate PapersTell(t: Tables, nodes: map<string, Node>) {
    && (forall r :: r in t.contracts ==> Stands(nodes, "contract", r.id, r.number, map["status" := r.status]))
    && (forall r :: r in t.deliveries ==> Stands(nodes, "delivery", r.id, r.ticket, map["truck_id" := r.truckId]))
    && (forall r :: r in t.invoices ==> Stands(nodes, "invoice", r.id, r.number, map["status" := r.status]))
  }

  ghost predicate Stands(nodes: map<string, Node>, kind: string, pk: int, title: string, extra: map<string, string>) {
    NodeId(kind, pk) in nodes && nodes[NodeId(kind, pk)] == Node(NodeId(kind, pk), kind, title, extra)
  }

  lemma EntryStands(t: Tables, e: Entry)
    requires KeyedTables(t) && IsEntry(t, e)
    ensures Stands(NodesOf(Entries(t)), KindName(e.kind), e.pk, e.title, e.extra)
  {
    EntryMembers(t, e);
    NodesAreRows(t);
    NodePerRow(Entries(t));
    hide Entries, NodesOf, NodeId, KindName;
  }

  lemma PlacesStand(t: Tables)
    requires KeyedTables(t)
    ensures PlacesTell(t, NodesOf(Entries(t)))
  {
    hide Entries, NodesOf, NodeId, Stands, KeyedTables;
    forall r: Customer | r in t.customers
      ensures Stands(NodesOf(Entries(t)), "customer", r.id, r.name, map["subtype" := r.kind])
    {
      EntryStands(t, CustomerEntry(r));
    }
    forall r: Commodity | r in t.commodities
      ensures Stands(NodesOf(Entries(t)), "commodity", r.id, r.name, map[])
    {
      EntryStands(t, CommodityEntry(r));
    }
    forall r: Facility | r in t.facilities
      ensures Stands(NodesOf(Entries(t)), "facility", r.id, r.name, map["location" := r.location])
    {
      EntryStands(t, FacilityEntry(r));
    }
    forall r: Bin | r in t.bins
      ensures Stands(NodesOf(Entries(t)), "bin", r.id, r.name, map[])
    {
      EntryStands(t, BinEntry(r));
    }
  }

  lemma PapersStand(t: Tables)
    requires KeyedTables(t)
    ensures PapersTell(t, NodesOf(Entries(t)))
  {
    hide Entries, NodesOf, NodeId, Stands, KeyedTables;
    forall r: Contract | r in t.contracts
      ensures Stands(NodesOf(Entries(t)), "contract", r.id, r.number, map["status" := r.status])
    {
      EntryStands(t, ContractEntry(r));
    }
    forall r: Delivery | r in t.deliveries
      ensures Stands(NodesOf(Entries(t)), "delivery", r.id, r.ticket, map["truck_id" := r.truckId])
    {
      EntryStands(t, DeliveryEntry(r));
    }
    forall r: Invoice | r in t.invoices
      ensures Stands(NodesOf(Entries(t)), "invoice", r.id, r.number, map["status" := r.status])
    {
      EntryStands(t, InvoiceEntry(r));
    }
  }

  /** With keys distinct in each table, every row has its node, and there are no more nodes than rows. */
  lemma NodesFromColumns(t: Tables)
    requires KeyedTables(t)
    ensures PlacesTell(t, NodesOf(Entries(t))) && PapersTell(t, NodesOf(Entries(t)))
    ensures |NodesOf(Entries(t))| == |t.customers| + |t.commodities| + |t.facilities| + |t.bins|
                                     + |t.contracts| + |t.deliveries| + |t.invoices|
  {
    NodesAreRows(t);
    PlacesStand(t);
    PapersStand(t);
    hide Entries, NodesOf, PlacesTell, PapersTell;
  }
}
