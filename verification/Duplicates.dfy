/**
 Duplicate-invoice detection (backend/app/risk.py): invoices are bucketed by customer and
 amount, each bucket is sorted by date, and only neighbours are compared.
 */
module Duplicates {
  import opened Wrappers
  import opened Rounding
  import opened Sorting

  datatype Number = Number(text: string)

  /** Amounts are in cents and dates in days. */
  datatype Invoice = Invoice(number: Number, customer: int, amount: int, issued: int)

  datatype Key = Key(customer: int, amount: int)

  datatype Pair = Pair(earlier: Invoice, later: Invoice)

  /** The alert's identity: the two numbers, in either order. */
  function Fingerprint(p: Pair): set<Number> { {p.earlier.number, p.later.number} }

  datatype Alert = Alert(pair: Pair, high: bool, confidence: real)

  function KeyOf(i: Invoice): Key { Key(i.customer, i.amount) }

  predicate Earlier(a: Invoice, b: Invoice) { a.issued <= b.issued }

  // ------------------------------------------------------------ what the code computes

  /** The bucket keys, in order of first appearance. */
  function Keys(invs: seq<Invoice>): seq<Key> {
    if invs == [] then []
    else
      var rest, k := Keys(invs[..|invs| - 1]), KeyOf(invs[|invs| - 1]);
      if k in rest then rest else rest + [k]
  }

  function Bucket(invs: seq<Invoice>, k: Key): seq<Invoice> {
    if invs == [] then []
    else
      var rest, last := Bucket(invs[..|invs| - 1], k), invs[|invs| - 1];
      if KeyOf(last) == k then rest + [last] else rest
  }

  function Group(invs: seq<Invoice>, k: Key): seq<Invoice> { StableSort(Bucket(invs, k), Earlier) }

  /** Neighbours no more than `window` days apart. */
  function Neighbours(s: seq<Invoice>, window: int): seq<Pair> {
    if |s| < 2 then []
    else (if s[1].issued - s[0].issued <= window then [Pair(s[0], s[1])] else []) + Neighbours(s[1..], window)
  }

  function Over(invs: seq<Invoice>, ks: seq<Key>, window: int): seq<Pair> {
    if ks == [] then []
    else Over(invs, ks[..|ks| - 1], window) + Neighbours(Group(invs, ks[|ks| - 1]), window)
  }

  /** Every reported pair, in report order. */
  function Reported(invs: seq<Invoice>, window: int): seq<Pair> { Over(invs, Keys(invs), window) }

  function Fingerprints(invs: seq<Invoice>, window: int): set<set<Number>> {
    set p | p in Reported(invs, window) :: Fingerprint(p)
  }

  function AlertFor(p: Pair, window: int): Alert
    requires window != 0
  {
    var gap := p.later.issued - p.earlier.issued;
    Alert(p, gap <= 7, Cents(0.95 - 0.45 * (gap as real / window as real)))
  }

  ghost predicate AreAlerts(alerts: seq<Alert>, pairs: seq<Pair>, window: int) {
    && window != 0
    && |alerts| == |pairs|
    && forall i :: 0 <= i < |pairs| ==> alerts[i] == AlertFor(pairs[i], window)
  }

  // ------------------------------------------------------------ the loops

  method Buckets(invs: seq<Invoice>) returns (buckets: map<Key, seq<Invoice>>, order: seq<Key>)
    ensures order == Keys(invs)
    ensures forall k :: k in buckets <==> k in order
    ensures forall k :: k in buckets ==> buckets[k] == Bucket(invs, k)
  {
    buckets, order := map[], [];
    for i := 0 to |invs|
      invariant order == Keys(invs[..i])
      invariant forall k :: k in buckets <==> k in order
      invariant forall k :: k in buckets ==> buckets[k] == Bucket(invs[..i], k)
    {
      var k := KeyOf(invs[i]);
      assert invs[..i + 1][..i] == invs[..i];
      NoBucket(invs[..i], k);
      if k in buckets {
        buckets := buckets[k := buckets[k] + [invs[i]]];
      } else {
        buckets := buckets[k := [invs[i]]];
        order := order + [k];
      }
    }
    assert invs[..|invs|] == invs;
  }

  lemma {:induction false} NoBucket(invs: seq<Invoice>, k: Key)
    ensures k !in Keys(invs) <==> Bucket(invs, k) == []
  {
    if invs != [] {
      NoBucket(invs[..|invs| - 1], k);
    }
  }

  method Compare(group: seq<Invoice>, window: int) returns (pairs: seq<Pair>)
    ensures pairs == Neighbours(group, window)
  {
    pairs := [];
    var i := 0;
    while i + 1 < |group|
      invariant 0 <= i <= |group| && (group != [] ==> i < |group|)
      invariant pairs + Neighbours(group[i..], window) == Neighbours(group, window)
      decreases |group| - i
    {
      var earlier, later := group[i], group[i + 1];
      var rest := group[i..];
      assert rest[0] == earlier && rest[1] == later && rest[1..] == group[i + 1..];
      if !(later.issued - earlier.issued > window) {
        pairs := pairs + [Pair(earlier, later)];
      }
      i := i + 1;
    }
  }

  method DuplicatePairs(invs: seq<Invoice>, window: int) returns (pairs: seq<Pair>)
    ensures pairs == Reported(invs, window)
  {
    hide Bucket, Neighbours, Keys;
    var buckets, order := Buckets(invs);
    pairs := [];
    for i := 0 to |order|
      invariant pairs == Over(invs, order[..i], window)
    {
      assert order[..i + 1][..i] == order[..i];
      var k := order[i];
      assert k in order;
      if |buckets[k]| < 2 {
        ShortGroup(buckets[k], window);
        continue;
      }
      var group := StableSort(buckets[k], Earlier);
      var found := Compare(group, window);
      pairs := pairs + found;
    }
    assert order[..|order|] == order;
  }

  /** A zero window divides by zero as soon as there is a pair to report. */
  method DuplicateInvoices(invs: seq<Invoice>, window: int) returns (r: Result<seq<Alert>, string>)
    ensures r.Err? <==> window == 0 && Reported(invs, window) != []
    ensures r.Ok? && window != 0 ==> AreAlerts(r.value, Reported(invs, window), window)
    ensures r.Ok? && window == 0 ==> r.value == []
  {
    hide Reported;
    var pairs := DuplicatePairs(invs, window);
    if window == 0 && pairs != [] {
      return Err("division by zero");
    }
    var alerts: seq<Alert> := [];
    for i := 0 to |pairs|
      invariant |alerts| == i
      invariant forall j :: 0 <= j < i ==> window != 0 && alerts[j] == AlertFor(pairs[j], window)
    {
      alerts := alerts + [AlertFor(pairs[i], window)];
    }
    return Ok(alerts);
  }

  lemma ShortGroup(bucket: seq<Invoice>, window: int)
    requires |bucket| < 2
    ensures Neighbours(StableSort(bucket, Earlier), window) == []
  {
    SortIsPermutation(bucket, Earlier);
  }

  // ------------------------------------------------------------ membership

  /** `p` stands at positions `t` and `t + 1` of `s`, close enough to report. */
  ghost predicate NeighboursAt(s: seq<Invoice>, t: nat, p: Pair, window: int) {
    t + 1 < |s| && p == Pair(s[t], s[t + 1]) && s[t + 1].issued - s[t].issued <= window
  }

  lemma {:induction false} NeighbourMembers(s: seq<Invoice>, window: int, p: Pair)
    ensures p in Neighbours(s, window) <==> exists t :: 0 <= t && NeighboursAt(s, t, p, window)
  {
    if |s| >= 2 {
      NeighbourMembers(s[1..], window, p);
      if p in Neighbours(s, window) {
        if NeighboursAt(s, 0, p, window) {
        } else {
          var t :| 0 <= t && NeighboursAt(s[1..], t, p, window);
          assert NeighboursAt(s, t + 1, p, window);
        }
      }
      if t :| 0 <= t && NeighboursAt(s, t, p, window) {
        if t > 0 {
          assert NeighboursAt(s[1..], t - 1, p, window);
        }
      }
    }
  }

  lemma {:induction false} OverMembers(invs: seq<Invoice>, ks: seq<Key>, window: int, p: Pair)
    ensures p in Over(invs, ks, window) <==> exists k :: k in ks && p in Neighbours(Group(invs, k), window)
  {
    if ks != [] {
      var init, last := ks[..|ks| - 1], ks[|ks| - 1];
      OverMembers(invs, init, window, p);
      assert ks == init + [last];
      assert forall k :: k in ks <==> k in init || k == last;
    }
  }

  lemma {:induction false} BucketMembers(invs: seq<Invoice>, k: Key, x: Invoice)
    ensures multiset(Bucket(invs, k))[x] == if KeyOf(x) == k then multiset(invs)[x] else 0
    ensures x in Bucket(invs, k) <==> x in invs && KeyOf(x) == k
  {
    if invs != [] {
      var init, last := invs[..|invs| - 1], invs[|invs| - 1];
      BucketMembers(invs[..|invs| - 1], k, x);
      assert invs == init + [last];
    }
  }

  lemma GroupFacts(invs: seq<Invoice>, k: Key)
    ensures Sorted(Group(invs, k), Earlier)
    ensures multiset(Group(invs, k)) == multiset(Bucket(invs, k))
    ensures forall x :: x in Group(invs, k) <==> x in invs && KeyOf(x) == k
  {
    SortIsSorted(Bucket(invs, k), Earlier);
    SortIsPermutation(Bucket(invs, k), Earlier);
    forall x
      ensures x in Group(invs, k) <==> x in invs && KeyOf(x) == k
    {
      SortMembers(Bucket(invs, k), Earlier, x);
      BucketMembers(invs, k, x);
    }
  }

  /** A pair is reported exactly when it stands side by side in its own customer-and-amount group. */
  lemma ReportedIff(invs: seq<Invoice>, window: int, p: Pair)
    ensures p in Reported(invs, window) <==>
            exists t :: 0 <= t && NeighboursAt(Group(invs, KeyOf(p.earlier)), t, p, window)
  {
    var k := KeyOf(p.earlier);
    OverMembers(invs, Keys(invs), window, p);
    NeighbourMembers(Group(invs, k), window, p);
    GroupFacts(invs, k);
    if p in Reported(invs, window) {
      var k' :| k' in Keys(invs) && p in Neighbours(Group(invs, k'), window);
      NeighbourMembers(Group(invs, k'), window, p);
      var t :| 0 <= t && NeighboursAt(Group(invs, k'), t, p, window);
      GroupFacts(invs, k');
      assert p.earlier in Group(invs, k');
    }
    if t :| 0 <= t && NeighboursAt(Group(invs, k), t, p, window) {
      assert p.earlier in Group(invs, k);
      BucketMembers(invs, k, p.earlier);
      NoBucket(invs, k);
    }
  }

  // ------------------------------------------------------------ sound and complete

  /** Soundness: a reported pair is two different invoices of the same customer and amount,
      the later one issued at most `window` days after the earlier. */
  lemma ReportedAreDuplicates(invs: seq<Invoice>, window: int, p: Pair)
    requires p in Reported(invs, window)
    ensures p.earlier.customer == p.later.customer && p.earlier.amount == p.later.amount
    ensures 0 <= p.later.issued - p.earlier.issued <= window
    ensures multiset{p.earlier, p.later} <= multiset(invs)
  {
    var k := KeyOf(p.earlier);
    var g := Group(invs, k);
    ReportedIff(invs, window, p);
    GroupFacts(invs, k);
    var t :| 0 <= t && NeighboursAt(g, t, p, window);
    assert p.later in g && Earlier(g[t], g[t + 1]);
    SideBySide(g, t);
    BucketWithin(invs, k);
  }

  lemma SideBySide(g: seq<Invoice>, t: nat)
    requires t + 1 < |g|
    ensures multiset{g[t], g[t + 1]} <= multiset(g)
  {
    assert g == g[..t] + [g[t], g[t + 1]] + g[t + 2..];
  }

  lemma BucketWithin(invs: seq<Invoice>, k: Key)
    ensures multiset(Bucket(invs, k)) <= multiset(invs)
  {
    forall x
      ensures multiset(Bucket(invs, k))[x] <= multiset(invs)[x]
    {
      BucketMembers(invs, k, x);
    }
  }

  /** A chain of invoices, each reported as a pair with the next. */
  ghost predicate IsChain(invs: seq<Invoice>, window: int, path: seq<Invoice>) {
    && path != []
    && forall i :: 0 <= i < |path| - 1 ==> ReportedBeside(invs, window, path, i)
  }

  ghost predicate ReportedBeside(invs: seq<Invoice>, window: int, path: seq<Invoice>, i: nat)
    requires i + 1 < |path|
  {
    Pair(path[i], path[i + 1]) in Reported(invs, window)
  }

  /** Completeness: although only neighbours are compared, any two invoices of the same customer
      and amount within the window are joined by a chain of reported pairs. */
  lemma DuplicatesAreLinked(invs: seq<Invoice>, window: int, a: Invoice, b: Invoice) returns (path: seq<Invoice>)
    requires a in invs && b in invs && a.customer == b.customer && a.amount == b.amount
    requires 0 <= b.issued - a.issued <= window
    ensures IsChain(invs, window, path)
    ensures (path[0] == a && path[|path| - 1] == b) || (path[0] == b && path[|path| - 1] == a)
  {
    var g := Group(invs, KeyOf(a));
    GroupFacts(invs, KeyOf(a));
    assert a in g && b in g;
    var x :| 0 <= x < |g| && g[x] == a;
    var y :| 0 <= y < |g| && g[y] == b;
    var lo, hi := if x <= y then x else y, if x <= y then y else x;
    assert g[hi].issued - g[lo].issued <= window by {
      if y < x {
        assert Earlier(g[y], g[x]);
      }
    }
    path := Stretch(invs, KeyOf(a), lo, hi, window);
  }

  /** A stretch of a group no longer than the window is a chain. */
  lemma Stretch(invs: seq<Invoice>, k: Key, lo: nat, hi: nat, window: int) returns (path: seq<Invoice>)
    requires lo <= hi < |Group(invs, k)| && Group(invs, k)[hi].issued - Group(invs, k)[lo].issued <= window
    ensures path == Group(invs, k)[lo..hi + 1] && IsChain(invs, window, path)
  {
    var g := Group(invs, k);
    path := g[lo..hi + 1];
    GroupFacts(invs, k);
    forall i | 0 <= i < |path| - 1
      ensures ReportedBeside(invs, window, path, i)
    {
      var p := Pair(g[lo + i], g[lo + i + 1]);
      GapInside(g, lo, lo + i, hi, window);
      assert NeighboursAt(g, lo + i, p, window) && g[lo + i] in g;
      ReportedIff(invs, window, p);
    }
  }

  lemma GapInside(g: seq<Invoice>, lo: nat, i: nat, hi: nat, window: int)
    requires Sorted(g, Earlier) && lo <= i < hi < |g| && g[hi].issued - g[lo].issued <= window
    ensures g[i + 1].issued - g[i].issued <= window
  {
    assert lo == i || Earlier(g[lo], g[i]);
    assert i + 1 == hi || Earlier(g[i + 1], g[hi]);
  }

  /** A reported duplicate's confidence lies between 0.5, at the window's edge, and 0.95, on the same day. */
  lemma ConfidenceRange(p: Pair, window: int)
    requires window > 0 && 0 <= p.later.issued - p.earlier.issued <= window
    ensures 0.5 <= AlertFor(p, window).confidence <= 0.95
  {
    var share := (p.later.issued - p.earlier.issued) as real / window as real;
    assert 0.0 <= share <= 1.0;
    CentsMonotone(0.95 - 0.45 * share, 0.95);
    CentsMonotone(0.5, 0.95 - 0.45 * share);
    HalfEvenOfInt(95);
    HalfEvenOfInt(50);
    assert 0.95 * 100.0 == 95 as real && 0.5 * 100.0 == 50 as real;
  }

  /** What an alert says of its pair: high for at most a week apart, and a confidence within half a cent
      of the line from 0.95 on the same day down to 0.5 at the window's edge. */
  lemma AlertMeans(p: Pair, window: int)
    requires window > 0 && 0 <= p.later.issued - p.earlier.issued <= window
    ensures var a, gap := AlertFor(p, window), p.later.issued - p.earlier.issued;
            && a.pair == p && (a.high <==> gap <= 7)
            && Abs(a.confidence - (0.95 - 0.45 * (gap as real / window as real))) <= 0.005
            && (gap == 0 ==> a.confidence == 0.95) && (gap == window ==> a.confidence == 0.5)
  {
    var gap := p.later.issued - p.earlier.issued;
    CentsError(0.95 - 0.45 * (gap as real / window as real));
    HalfEvenOfInt(95);
    HalfEvenOfInt(50);
    assert 0.95 * 100.0 == 95 as real && 0.5 * 100.0 == 50 as real;
    WholeShare(window as real);
    assert gap == 0 ==> gap as real / window as real == 0.0;
    hide HalfEven, Abs;
  }

  lemma WholeShare(w: real)
    requires w > 0.0
    ensures w / w == 1.0
  {
  }

  /** The further apart, the less confident. */
  lemma ConfidenceFalls(p: Pair, q: Pair, window: int)
    requires window > 0 && p.later.issued - p.earlier.issued <= q.later.issued - q.earlier.issued
    ensures AlertFor(p, window).confidence >= AlertFor(q, window).confidence
  {
    var g, h, w := (p.later.issued - p.earlier.issued) as real, (q.later.issued - q.earlier.issued) as real, window as real;
    assert g / w <= h / w by {
      assert (h - g) / w >= 0.0;
      assert h / w - g / w == (h - g) / w;
    }
    CentsMonotone(0.95 - 0.45 * (h / w), 0.95 - 0.45 * (g / w));
    hide Cents;
  }

  lemma CentsMonotone(x: real, y: real)
    requires x <= y
    ensures Cents(x) <= Cents(y)
  {
    HalfEvenMonotone(x * 100.0, y * 100.0);
  }

  // ------------------------------------------------------------ no pair twice

  ghost predicate NoneTwice<T(!new)>(s: seq<T>) { forall i, j :: 0 <= i < j < |s| ==> s[i] != s[j] }

  lemma {:induction false} NeighboursOnce(s: seq<Invoice>, window: int)
    requires NoneTwice(s)
    ensures NoneTwice(Neighbours(s, window))
    ensures forall p :: p in Neighbours(s, window) ==> p.earlier in s
  {
    if |s| >= 2 {
      var rest := Neighbours(s[1..], window);
      NeighboursOnce(s[1..], window);
      assert s[0] !in s[1..];
      assert Pair(s[0], s[1]) !in rest;
    }
  }

  lemma JoinedOnce<T(!new)>(a: seq<T>, b: seq<T>)
    requires NoneTwice(a) && NoneTwice(b) && forall x :: !(x in a && x in b)
    ensures NoneTwice(a + b)
  {
    var s := a + b;
    forall i, j | 0 <= i < j < |s|
      ensures s[i] != s[j]
    {
      if i < |a| <= j {
        assert s[i] in a && s[j] in b;
      }
    }
  }

  lemma GroupOnce(invs: seq<Invoice>, k: Key)
    requires NoneTwice(invs)
    ensures NoneTwice(Group(invs, k))
  {
    var g := Group(invs, k);
    forall i, j | 0 <= i < j < |g|
      ensures g[i] != g[j]
    {
      if g[i] == g[j] {
        TwiceInMultiset(g, i, j);
        GroupFacts(invs, k);
        BucketMembers(invs, k, g[i]);
        DistinctOnce(invs, g[i]);
      }
    }
  }

  lemma {:induction false} OverOnce(invs: seq<Invoice>, ks: seq<Key>, window: int)
    requires NoneTwice(invs) && NoneTwice(ks)
    ensures NoneTwice(Over(invs, ks, window))
    ensures forall p :: p in Over(invs, ks, window) ==> KeyOf(p.earlier) in ks
  {
    hide Group, Neighbours, KeyOf;
    if ks != [] {
      var init, last := ks[..|ks| - 1], ks[|ks| - 1];
      OverOnce(invs, init, window);
      GroupOnce(invs, last);
      NeighboursOnce(Group(invs, last), window);
      GroupFacts(invs, last);
      JoinedOnce(Over(invs, init, window), Neighbours(Group(invs, last), window));
      assert ks == init + [last];
    }
  }

  /** When no invoice is listed twice, no pair is reported twice. */
  lemma ReportedOnce(invs: seq<Invoice>, window: int)
    requires NoneTwice(invs)
    ensures NoneTwice(Reported(invs, window))
  {
    KeysFacts(invs);
    OverOnce(invs, Keys(invs), window);
  }

  // ------------------------------------------------------------ the count ignores order

  function SumOf<T>(s: seq<T>, f: T -> int): int {
    if s == [] then 0 else f(s[0]) + SumOf(s[1..], f)
  }

  lemma {:induction false} SumSplit<T>(a: seq<T>, b: seq<T>, f: T -> int)
    ensures SumOf(a + b, f) == SumOf(a, f) + SumOf(b, f)
  {
    if a == [] {
      assert a + b == b;
    } else {
      SumSplit(a[1..], b, f);
      assert (a + b)[1..] == a[1..] + b;
    }
  }

  lemma SumWithout<T>(s: seq<T>, j: nat, f: T -> int)
    requires j < |s|
    ensures SumOf(s, f) == f(s[j]) + SumOf(s[..j] + s[j + 1..], f)
  {
    SumSplit(s[..j], s[j..], f);
    SumSplit(s[..j], s[j + 1..], f);
    assert s == s[..j] + s[j..];
    assert s[j..][1..] == s[j + 1..];
  }

  lemma MultisetWithout<T>(s: seq<T>, j: nat)
    requires j < |s|
    ensures multiset(s[..j] + s[j + 1..]) == multiset(s) - multiset{s[j]}
  {
    assert s == s[..j] + [s[j]] + s[j + 1..];
  }

  lemma {:induction false} SumIgnoresOrder<T>(a: seq<T>, b: seq<T>, f: T -> int)
    requires multiset(a) == multiset(b)
    ensures SumOf(a, f) == SumOf(b, f)
  {
    if a == [] {
      assert |multiset(b)| == 0;
    } else {
      hide SumOf;
      assert a[0] in multiset(b);
      var j :| 0 <= j < |b| && b[j] == a[0];
      var a', b' := a[..0] + a[1..], b[..j] + b[j + 1..];
      SumWithout(a, 0, f);
      SumWithout(b, j, f);
      MultisetWithout(a, 0);
      MultisetWithout(b, j);
      SumIgnoresOrder(a', b', f);
    }
  }

  function IssuedOn(d: int): Invoice -> int { (x: Invoice) => if x.issued == d then 1 else 0 }

  lemma {:induction false} IssuedCount(s: seq<Invoice>, d: int)
    ensures 0 <= SumOf(s, IssuedOn(d)) <= |s|
    ensures SumOf(s, IssuedOn(d)) > 0 <==> exists i :: 0 <= i < |s| && s[i].issued == d
  {
    if s != [] {
      IssuedCount(s[1..], d);
      if i :| 0 <= i < |s| && s[i].issued == d {
        assert i > 0 ==> s[1..][i - 1].issued == d;
      }
      if i :| 0 <= i < |s[1..]| && s[1..][i].issued == d {
        assert s[i + 1].issued == d;
      }
    }
  }

  ghost predicate SameDates(a: seq<Invoice>, b: seq<Invoice>) {
    |a| == |b| && forall i :: 0 <= i < |a| ==> a[i].issued == b[i].issued
  }

  /** The sorted dates of a group are settled by how many invoices each day has. */
  lemma {:induction false} SortedDatesAgree(a: seq<Invoice>, b: seq<Invoice>)
    requires Sorted(a, Earlier) && Sorted(b, Earlier) && |a| == |b|
    requires forall d :: SumOf(a, IssuedOn(d)) == SumOf(b, IssuedOn(d))
    ensures SameDates(a, b)
  {
    if a != [] {
      FirstDate(a, b);
      FirstDate(b, a);
      forall d
        ensures SumOf(a[1..], IssuedOn(d)) == SumOf(b[1..], IssuedOn(d))
      {
        assert SumOf(a, IssuedOn(d)) == SumOf(b, IssuedOn(d));
      }
      SortedTail(a);
      SortedTail(b);
      SortedDatesAgree(a[1..], b[1..]);
      forall i | 0 <= i < |a|
        ensures a[i].issued == b[i].issued
      {
        if i > 0 {
          assert a[i] == a[1..][i - 1] && b[i] == b[1..][i - 1];
        }
      }
    }
  }

  lemma SortedTail(a: seq<Invoice>)
    requires Sorted(a, Earlier) && a != []
    ensures Sorted(a[1..], Earlier)
  {
    forall i, j | 0 <= i < j < |a[1..]|
      ensures Earlier(a[1..][i], a[1..][j])
    {
      assert Earlier(a[i + 1], a[j + 1]);
    }
  }

  lemma FirstDate(a: seq<Invoice>, b: seq<Invoice>)
    requires a != [] && b != [] && Sorted(a, Earlier)
    requires forall d :: SumOf(a, IssuedOn(d)) == SumOf(b, IssuedOn(d))
    ensures a[0].issued <= b[0].issued
  {
    var d := b[0].issued;
    IssuedCount(b, d);
    assert SumOf(a, IssuedOn(d)) == SumOf(b, IssuedOn(d));
    IssuedCount(a, d);
    var i :| 0 <= i < |a| && a[i].issued == d;
    assert i == 0 || Earlier(a[0], a[i]);
  }

  lemma {:induction false} SameDatesSameCount(a: seq<Invoice>, b: seq<Invoice>, window: int)
    requires SameDates(a, b)
    ensures |Neighbours(a, window)| == |Neighbours(b, window)|
  {
    if |a| >= 2 {
      assert forall i :: 0 <= i < |a[1..]| ==> a[1..][i] == a[i + 1] && b[1..][i] == b[i + 1];
      SameDatesSameCount(a[1..], b[1..], window);
    }
  }

  lemma GroupCount(p: seq<Invoice>, q: seq<Invoice>, k: Key, window: int)
    requires multiset(p) == multiset(q)
    ensures |Neighbours(Group(p, k), window)| == |Neighbours(Group(q, k), window)|
  {
    SameBuckets(p, q, k);
    GroupFacts(p, k);
    GroupFacts(q, k);
    assert |multiset(Group(p, k))| == |multiset(Group(q, k))|;
    forall d
      ensures SumOf(Group(p, k), IssuedOn(d)) == SumOf(Group(q, k), IssuedOn(d))
    {
      SumIgnoresOrder(Group(p, k), Group(q, k), IssuedOn(d));
    }
    SortedDatesAgree(Group(p, k), Group(q, k));
    SameDatesSameCount(Group(p, k), Group(q, k), window);
  }

  lemma SameBuckets(p: seq<Invoice>, q: seq<Invoice>, k: Key)
    requires multiset(p) == multiset(q)
    ensures multiset(Bucket(p, k)) == multiset(Bucket(q, k))
  {
    forall x
      ensures multiset(Bucket(p, k))[x] == multiset(Bucket(q, k))[x]
    {
      BucketMembers(p, k, x);
      BucketMembers(q, k, x);
    }
  }

  lemma {:induction false} OverCount(p: seq<Invoice>, q: seq<Invoice>, ks: seq<Key>, window: int)
    requires multiset(p) == multiset(q)
    ensures |Over(p, ks, window)| == |Over(q, ks, window)|
  {
    if ks != [] {
      OverCount(p, q, ks[..|ks| - 1], window);
      GroupCount(p, q, ks[|ks| - 1], window);
    }
  }

  lemma {:induction false} KeysFacts(invs: seq<Invoice>)
    ensures forall i, j :: 0 <= i < j < |Keys(invs)| ==> Keys(invs)[i] != Keys(invs)[j]
    ensures forall k :: k in Keys(invs) <==> exists x :: x in invs && KeyOf(x) == k
  {
    if invs != [] {
      var init, last := invs[..|invs| - 1], invs[|invs| - 1];
      KeysFacts(init);
      assert invs == init + [last];
      assert forall x :: x in invs <==> x in init || x == last;
    }
  }

  function PairsAt(invs: seq<Invoice>, window: int): Key -> int {
    (k: Key) => |Neighbours(Group(invs, k), window)|
  }

  lemma {:induction false} OverIsSum(invs: seq<Invoice>, ks: seq<Key>, window: int)
    ensures |Over(invs, ks, window)| == SumOf(ks, PairsAt(invs, window))
  {
    if ks != [] {
      var init, last := ks[..|ks| - 1], ks[|ks| - 1];
      OverIsSum(invs, init, window);
      SumSplit(init, [last], PairsAt(invs, window));
      assert ks == init + [last];
      assert SumOf([last], PairsAt(invs, window)) == PairsAt(invs, window)(last) + SumOf([last][1..], PairsAt(invs, window));
    }
  }

  lemma DistinctSameMultiset(a: seq<Key>, b: seq<Key>)
    requires forall i, j :: 0 <= i < j < |a| ==> a[i] != a[j]
    requires forall i, j :: 0 <= i < j < |b| ==> b[i] != b[j]
    requires forall k :: k in a <==> k in b
    ensures multiset(a) == multiset(b)
  {
    forall k
      ensures multiset(a)[k] == multiset(b)[k]
    {
      DistinctOnce(a, k);
      DistinctOnce(b, k);
      assert k in multiset(a) <==> k in a;
      assert k in multiset(b) <==> k in b;
    }
  }

  /** How many alerts there are depends only on which invoices there are, not on their order. */
  lemma CountIgnoresOrder(p: seq<Invoice>, q: seq<Invoice>, window: int)
    requires multiset(p) == multiset(q)
    ensures |Reported(p, window)| == |Reported(q, window)|
  {
    KeysFacts(p);
    KeysFacts(q);
    assert forall x :: x in p <==> x in multiset(p);
    assert forall x :: x in q <==> x in multiset(q);
    DistinctSameMultiset(Keys(p), Keys(q));
    OverCount(p, q, Keys(p), window);
    OverIsSum(q, Keys(p), window);
    OverIsSum(q, Keys(q), window);
    SumIgnoresOrder(Keys(p), Keys(q), PairsAt(q, window));
  }
}
