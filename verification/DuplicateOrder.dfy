/**
 When does the set of duplicate-invoice fingerprints depend on the order the invoices are
 read in? The code sorts by date alone, so ties keep their input order, and a tie with a
 third invoice close by makes the reported pairs change with that order.
 */
module DuplicateOrder {
  import opened Sorting
  import opened Duplicates

  /** Invoice numbers are unique in the table. */
  ghost predicate UniqueNumbers(invs: seq<Invoice>) {
    forall i, j :: 0 <= i < j < |invs| ==> invs[i].number != invs[j].number
  }

  /** `a` and `b` fall on the same day, and `c` within the window of it, all for one customer and amount. */
  predicate Clash(a: Invoice, b: Invoice, c: Invoice, window: int) {
    && a != b && b != c && a != c
    && a.customer == b.customer == c.customer && a.amount == b.amount == c.amount
    && a.issued == b.issued
    && -window <= c.issued - a.issued <= window
  }

  ghost predicate Clear(invs: seq<Invoice>, window: int) {
    forall a, b, c :: a in invs && b in invs && c in invs ==> !Clash(a, b, c, window)
  }

  /** The same invoices in some order. */
  ghost predicate Reorders(q: seq<Invoice>, p: seq<Invoice>) { multiset(q) == multiset(p) }

  lemma ReorderMembers(q: seq<Invoice>, p: seq<Invoice>)
    requires Reorders(q, p)
    ensures forall x :: x in q <==> x in p
  {
    assert forall x :: x in q <==> x in multiset(q);
    assert forall x :: x in p <==> x in multiset(p);
  }

  lemma SameNumberSameInvoice(invs: seq<Invoice>, a: Invoice, b: Invoice)
    requires UniqueNumbers(invs) && a in invs && b in invs && a.number == b.number
    ensures a == b
  {
    var i :| 0 <= i < |invs| && invs[i] == a;
    var j :| 0 <= j < |invs| && invs[j] == b;
  }

  lemma UniqueGroup(invs: seq<Invoice>, k: Key)
    requires UniqueNumbers(invs)
    ensures forall i, j :: 0 <= i < j < |Group(invs, k)| ==> Group(invs, k)[i] != Group(invs, k)[j]
  {
    var g := Group(invs, k);
    assert forall i, j :: 0 <= i < j < |invs| ==> invs[i] != invs[j];
    forall i, j | 0 <= i < j < |g|
      ensures g[i] != g[j]
    {
      if g[i] == g[j] {
        TwiceInMultiset(g, i, j);
        GroupFacts(invs, k);
        BucketMembers(invs, k, g[i]);
        DistinctOnce(invs, g[i]);
      }
    }
  }

  // ------------------------------------------------------------ without a clash

  /** A pair that no third invoice comes between, said without any order. */
  ghost predicate Isolated(invs: seq<Invoice>, window: int, a: Invoice, b: Invoice) {
    && a in invs && b in invs && a != b && KeyOf(a) == KeyOf(b)
    && 0 <= b.issued - a.issued <= window
    && forall c :: c in invs && c != a && c != b && KeyOf(c) == KeyOf(a) ==> !(a.issued <= c.issued <= b.issued)
  }

  lemma ReportedIsIsolated(invs: seq<Invoice>, window: int, p: Pair)
    requires UniqueNumbers(invs) && Clear(invs, window) && p in Reported(invs, window)
    ensures Isolated(invs, window, p.earlier, p.later)
  {
    var k := KeyOf(p.earlier);
    var g := Group(invs, k);
    ReportedIff(invs, window, p);
    ReportedAreDuplicates(invs, window, p);
    GroupFacts(invs, k);
    UniqueGroup(invs, k);
    var t :| 0 <= t && NeighboursAt(g, t, p, window);
    assert p.earlier in g && p.later in g;
    forall c | c in invs && c != p.earlier && c != p.later && KeyOf(c) == k
      ensures !(p.earlier.issued <= c.issued <= p.later.issued)
    {
      assert c in g;
      var u :| 0 <= u < |g| && g[u] == c;
      NothingBetween(g, t, u);
      assert !Clash(p.earlier, c, p.later, window) && !Clash(p.later, c, p.earlier, window);
    }
  }

  lemma NothingBetween(g: seq<Invoice>, t: nat, u: nat)
    requires Sorted(g, Earlier) && t + 1 < |g| && u < |g| && u != t && u != t + 1
    ensures g[t].issued <= g[u].issued <= g[t + 1].issued ==> g[u].issued == g[t].issued || g[u].issued == g[t + 1].issued
  {
    if u < t {
      assert Earlier(g[u], g[t]);
    } else {
      assert Earlier(g[t + 1], g[u]);
    }
  }

  lemma IsolatedIsReported(invs: seq<Invoice>, window: int, a: Invoice, b: Invoice)
    requires UniqueNumbers(invs) && Isolated(invs, window, a, b)
    ensures Pair(a, b) in Reported(invs, window) || Pair(b, a) in Reported(invs, window)
  {
    var g := Group(invs, KeyOf(a));
    GroupFacts(invs, KeyOf(a));
    UniqueGroup(invs, KeyOf(a));
    ReportedIff(invs, window, Pair(a, b));
    ReportedIff(invs, window, Pair(b, a));
    hide Group, Reported, UniqueNumbers, Sorted;
    var t := IsolatedInGroup(g, window, a, b);
  }

  /** In a sorted group, two with nothing between them stand side by side. */
  lemma IsolatedInGroup(g: seq<Invoice>, window: int, a: Invoice, b: Invoice) returns (t: nat)
    requires Sorted(g, Earlier) && forall i, j :: 0 <= i < j < |g| ==> g[i] != g[j]
    requires a in g && b in g && a != b && 0 <= b.issued - a.issued <= window
    requires forall c :: c in g && c != a && c != b ==> !(a.issued <= c.issued <= b.issued)
    ensures NeighboursAt(g, t, Pair(a, b), window) || NeighboursAt(g, t, Pair(b, a), window)
  {
    var x :| 0 <= x < |g| && g[x] == a;
    var y :| 0 <= y < |g| && g[y] == b;
    var hi := if x < y then y else x;
    t := if x < y then x else y;
    assert Earlier(g[t], g[hi]);
    SomethingBetween(g, t, hi);
  }

  lemma SomethingBetween(g: seq<Invoice>, lo: nat, hi: nat)
    requires Sorted(g, Earlier) && lo < hi < |g| && forall i, j :: 0 <= i < j < |g| ==> g[i] != g[j]
    ensures hi > lo + 1 ==> exists c :: c in g && c != g[lo] && c != g[hi] && g[lo].issued <= c.issued <= g[hi].issued
  {
    if hi > lo + 1 {
      assert g[lo + 1] in g && Earlier(g[lo], g[lo + 1]) && Earlier(g[lo + 1], g[hi]);
    }
  }

  lemma FingerprintsAreIsolated(invs: seq<Invoice>, window: int, fp: set<Number>)
    requires UniqueNumbers(invs) && Clear(invs, window)
    ensures fp in Fingerprints(invs, window) <==>
            exists a, b :: Isolated(invs, window, a, b) && fp == {a.number, b.number}
  {
    if fp in Fingerprints(invs, window) {
      var p :| p in Reported(invs, window) && fp == Fingerprint(p);
      ReportedIsIsolated(invs, window, p);
    }
    if a, b :| Isolated(invs, window, a, b) && fp == {a.number, b.number} {
      IsolatedIsReported(invs, window, a, b);
      assert {a.number, b.number} == {b.number, a.number};
      assert Fingerprint(Pair(a, b)) == fp && Fingerprint(Pair(b, a)) == fp;
    }
  }

  lemma ReorderedUnique(q: seq<Invoice>, p: seq<Invoice>)
    requires Reorders(q, p) && UniqueNumbers(p)
    ensures UniqueNumbers(q)
  {
    ReorderMembers(q, p);
    assert forall i, j :: 0 <= i < j < |p| ==> p[i] != p[j];
    forall i, j | 0 <= i < j < |q|
      ensures q[i].number != q[j].number
    {
      if q[i].number == q[j].number {
        assert q[i] in p && q[j] in p;
        SameNumberSameInvoice(p, q[i], q[j]);
        TwiceInMultiset(q, i, j);
        DistinctOnce(p, q[i]);
      }
    }
  }

  lemma IsolatedIgnoresOrder(q: seq<Invoice>, p: seq<Invoice>, window: int, a: Invoice, b: Invoice)
    requires Reorders(q, p)
    ensures Isolated(q, window, a, b) <==> Isolated(p, window, a, b)
  {
    ReorderMembers(q, p);
  }

  lemma ClearIgnoresOrder(p: seq<Invoice>, q: seq<Invoice>, window: int)
    requires UniqueNumbers(p) && Clear(p, window) && Reorders(q, p)
    ensures Fingerprints(q, window) == Fingerprints(p, window)
  {
    ReorderMembers(q, p);
    ReorderedUnique(q, p);
    assert Clear(q, window);
    forall fp
      ensures fp in Fingerprints(q, window) <==> fp in Fingerprints(p, window)
    {
      FingerprintsAreIsolated(p, window, fp);
      FingerprintsAreIsolated(q, window, fp);
      if a, b :| Isolated(p, window, a, b) && fp == {a.number, b.number} {
        IsolatedIgnoresOrder(q, p, window, a, b);
      }
      if a, b :| Isolated(q, window, a, b) && fp == {a.number, b.number} {
        IsolatedIgnoresOrder(q, p, window, a, b);
      }
    }
  }

  // ------------------------------------------------------------ with a clash

  /** The invoices outside one group. */
  function Others(invs: seq<Invoice>, k: Key): seq<Invoice> {
    if invs == [] then []
    else
      var rest, last := Others(invs[..|invs| - 1], k), invs[|invs| - 1];
      if KeyOf(last) == k then rest else rest + [last]
  }

  lemma {:induction false} OthersFacts(invs: seq<Invoice>, k: Key, x: Invoice)
    ensures multiset(Others(invs, k))[x] == if KeyOf(x) == k then 0 else multiset(invs)[x]
    ensures x in Others(invs, k) ==> KeyOf(x) != k
  {
    if invs != [] {
      var init, last := invs[..|invs| - 1], invs[|invs| - 1];
      OthersFacts(init, k, x);
      assert invs == init + [last];
    }
  }

  lemma {:induction false} BucketOfBlock(block: seq<Invoice>, others: seq<Invoice>, k: Key)
    requires forall x :: x in block ==> KeyOf(x) == k
    requires forall x :: x in others ==> KeyOf(x) != k
    ensures Bucket(block + others, k) == block
    decreases |block| + |others|
  {
    var all := block + others;
    if others != [] {
      assert all[..|all| - 1] == block + others[..|others| - 1];
      BucketOfBlock(block, others[..|others| - 1], k);
    } else if block != [] {
      assert all == block && all[..|all| - 1] == block[..|block| - 1] + [];
      BucketOfBlock(block[..|block| - 1], [], k);
      assert all[|all| - 1] in block;
      assert block[..|block| - 1] + [block[|block| - 1]] == block;
    }
  }

  /** The input that lists one group first, in a chosen date order, then everything else. */
  lemma GroupFirst(p: seq<Invoice>, k: Key, g: seq<Invoice>) returns (q: seq<Invoice>)
    requires multiset(g) == multiset(Group(p, k)) && Sorted(g, Earlier)
    ensures Reorders(q, p) && Group(q, k) == g
  {
    q := g + Others(p, k);
    GroupFacts(p, k);
    forall x
      ensures multiset(q)[x] == multiset(p)[x]
    {
      OthersFacts(p, k, x);
      BucketMembers(p, k, x);
    }
    forall x | x in g
      ensures KeyOf(x) == k
    {
      assert x in multiset(g) && x in multiset(Group(p, k));
      assert x in Group(p, k);
    }
    forall x | x in Others(p, k)
      ensures KeyOf(x) != k
    {
      OthersFacts(p, k, x);
    }
    BucketOfBlock(g, Others(p, k), k);
    SortOfSorted(g, Earlier);
  }

  /** Two invoices apart in the group are reported together only if they are side by side there. */
  lemma ReportedSides(q: seq<Invoice>, window: int, k: Key, x: nat, y: nat)
    requires UniqueNumbers(q) && x < y < |Group(q, k)|
    ensures var g := Group(q, k);
            {g[x].number, g[y].number} in Fingerprints(q, window) <==> y == x + 1 && g[y].issued - g[x].issued <= window
  {
    var g := Group(q, k);
    GroupFacts(q, k);
    UniqueGroup(q, k);
    assert g[x] in g && g[y] in g;
    var fp := {g[x].number, g[y].number};
    if fp in Fingerprints(q, window) {
      var p :| p in Reported(q, window) && fp == Fingerprint(p);
      ReportedAreDuplicates(q, window, p);
      TwoOf(q, p, g[x], g[y]);
      ReportedIff(q, window, p);
      var t :| 0 <= t && NeighboursAt(Group(q, KeyOf(p.earlier)), t, p, window);
      assert (t == x && t + 1 == y) || (t == y && t + 1 == x);
    }
    if y == x + 1 && g[y].issued - g[x].issued <= window {
      var p := Pair(g[x], g[y]);
      assert NeighboursAt(g, x, p, window);
      ReportedIff(q, window, p);
      assert Fingerprint(p) == fp;
    }
  }

  lemma TwoOf(q: seq<Invoice>, p: Pair, a: Invoice, b: Invoice)
    requires UniqueNumbers(q) && a in q && b in q && a != b
    requires multiset{p.earlier, p.later} <= multiset(q) && Fingerprint(p) == {a.number, b.number}
    ensures (p.earlier == a && p.later == b) || (p.earlier == b && p.later == a)
  {
    assert p.earlier in multiset{p.earlier, p.later} && p.later in multiset{p.earlier, p.later};
    assert p.earlier in q && p.later in q;
    assert p.earlier.number in {a.number, b.number} && p.later.number in {a.number, b.number};
    assert a.number in Fingerprint(p) && b.number in Fingerprint(p);
    if p.earlier.number == a.number {
      SameNumberSameInvoice(q, p.earlier, a);
      if p.later.number == b.number {
        SameNumberSameInvoice(q, p.later, b);
      } else {
        SameNumberSameInvoice(q, a, b);
      }
    } else {
      SameNumberSameInvoice(q, p.earlier, b);
      if p.later.number == a.number {
        SameNumberSameInvoice(q, p.later, a);
      } else {
        SameNumberSameInvoice(q, a, b);
      }
    }
  }

  /** Tied neighbours at `t`, with another neighbour of theirs within the window. */
  ghost predicate Wavers(g: seq<Invoice>, t: nat, window: int) {
    && t + 1 < |g| && g[t].issued == g[t + 1].issued
    && ((t + 2 < |g| && g[t + 2].issued - g[t + 1].issued <= window)
        || (t > 0 && g[t].issued - g[t - 1].issued <= window))
  }

  lemma ClashWavers(g: seq<Invoice>, window: int, x: nat, y: nat, z: nat) returns (t: nat)
    requires Sorted(g, Earlier) && x < y < |g| && z < |g| && z != x && z != y
    requires g[x].issued == g[y].issued && -window <= g[z].issued - g[x].issued <= window
    ensures Wavers(g, t, window)
  {
    t := x;
    if y > x + 1 {
      assert Earlier(g[x], g[x + 1]) && Earlier(g[x + 1], g[x + 2]);
      assert x + 2 == y || Earlier(g[x + 2], g[y]);
      assert x + 1 == y || Earlier(g[x + 1], g[y]);
    } else if z > y {
      assert z == y + 1 || Earlier(g[y + 1], g[z]);
    } else {
      assert z == x - 1 || Earlier(g[z], g[x - 1]);
    }
  }

  lemma SwapTied(g: seq<Invoice>, t: nat) returns (h: seq<Invoice>)
    requires Sorted(g, Earlier) && t + 1 < |g| && g[t].issued == g[t + 1].issued
    ensures h == g[t := g[t + 1]][t + 1 := g[t]]
    ensures multiset(h) == multiset(g) && Sorted(h, Earlier)
  {
    h := g[t := g[t + 1]][t + 1 := g[t]];
    assert g == g[..t] + [g[t], g[t + 1]] + g[t + 2..];
    assert h == g[..t] + [g[t + 1], g[t]] + g[t + 2..];
    forall i, j | 0 <= i < j < |h|
      ensures Earlier(h[i], h[j])
    {
      assert h[i].issued == g[i].issued && h[j].issued == g[j].issued;
      assert Earlier(g[i], g[j]);
    }
  }

  /** A clash gives two orders of the same invoices with different fingerprints. */
  lemma ClashShows(p: seq<Invoice>, window: int, a: Invoice, b: Invoice, c: Invoice)
    returns (q1: seq<Invoice>, q2: seq<Invoice>)
    requires UniqueNumbers(p) && a in p && b in p && c in p && Clash(a, b, c, window)
    ensures Reorders(q1, p) && Reorders(q2, p) && Fingerprints(q1, window) != Fingerprints(q2, window)
  {
    var k := KeyOf(a);
    var g := Group(p, k);
    GroupFacts(p, k);
    assert a in g && b in g && c in g;
    var x :| 0 <= x < |g| && g[x] == a;
    var y :| 0 <= y < |g| && g[y] == b;
    var z :| 0 <= z < |g| && g[z] == c;
    var t := ClashWavers(g, window, if x < y then x else y, if x < y then y else x, z);
    var h := SwapTied(g, t);
    q1 := GroupFirst(p, k, g);
    q2 := GroupFirst(p, k, h);
    ReorderedUnique(q1, p);
    ReorderedUnique(q2, p);
    SwapShows(q1, q2, window, k, t);
  }

  lemma SwapShows(q1: seq<Invoice>, q2: seq<Invoice>, window: int, k: Key, t: nat)
    requires UniqueNumbers(q1) && UniqueNumbers(q2)
    requires Sorted(Group(q1, k), Earlier) && Wavers(Group(q1, k), t, window)
    requires var g := Group(q1, k); Group(q2, k) == g[t := g[t + 1]][t + 1 := g[t]]
    ensures Fingerprints(q1, window) != Fingerprints(q2, window)
  {
    hide Group, Fingerprints, UniqueNumbers;
    var g, h := Group(q1, k), Group(q2, k);
    if t + 2 < |g| && g[t + 2].issued - g[t + 1].issued <= window {
      ReportedSides(q1, window, k, t, t + 2);
      ReportedSides(q2, window, k, t + 1, t + 2);
      assert h[t + 1] == g[t] && h[t + 2] == g[t + 2];
    } else {
      ReportedSides(q1, window, k, t - 1, t + 1);
      ReportedSides(q2, window, k, t - 1, t);
      assert h[t - 1] == g[t - 1] && h[t] == g[t + 1];
    }
  }

  /**
   The exact condition. With unique numbers, the fingerprints are the same for every order of
   the same invoices if and only if no two of one group fall on the same day with a third of
   the group within the window of that day.
   */
  lemma OrderIndependentIff(p: seq<Invoice>, window: int)
    requires UniqueNumbers(p)
    ensures (forall q :: Reorders(q, p) ==> Fingerprints(q, window) == Fingerprints(p, window)) <==> Clear(p, window)
  {
    if Clear(p, window) {
      forall q | Reorders(q, p)
        ensures Fingerprints(q, window) == Fingerprints(p, window)
      {
        ClearIgnoresOrder(p, q, window);
      }
    } else {
      var a, b, c :| a in p && b in p && c in p && Clash(a, b, c, window);
      var q1, q2 := ClashShows(p, window, a, b, c);
    }
  }

  /** Three invoices on one day are enough: some other order reports other pairs. */
  lemma TiedTriple()
    ensures var tied := [Invoice(Number("A"), 1, 100, 0), Invoice(Number("B"), 1, 100, 0), Invoice(Number("C"), 1, 100, 0)];
            exists q :: Reorders(q, tied) && Fingerprints(q, 30) != Fingerprints(tied, 30)
  {
    var a, b, c := Invoice(Number("A"), 1, 100, 0), Invoice(Number("B"), 1, 100, 0), Invoice(Number("C"), 1, 100, 0);
    assert "A"[0] != "B"[0] && "B"[0] != "C"[0] && "A"[0] != "C"[0];
    assert a in [a, b, c] && b in [a, b, c] && c in [a, b, c] && Clash(a, b, c, 30);
    OrderIndependentIff([a, b, c], 30);
  }
}
