/** The sliding-window limiter with its bounded key table (backend/app/ratelimit.py). */
module RateLimit {
  import opened Wrappers
  import opened Sorting
  import opened Window

  const MAX_KEYS := 10_000

  function Get(m: map<string, seq<real>>, k: string): seq<real> {
    if k in m then m[k] else []
  }

  function Find<V>(m: map<string, V>, k: string): Option<V> {
    if k in m then Some(m[k]) else None
  }

  /** The time of the key's latest hit. */
  function LastHit(hits: map<string, seq<real>>, k: string): real {
    var h := Get(hits, k);
    if h == [] then 0.0 else h[|h| - 1]
  }

  predicate IsStale(h: seq<real>, cutoff: real) {
    h == [] || h[|h| - 1] <= cutoff
  }

  /** The keys still in `m`, in order: what deleting from a dict leaves of its order. */
  function Restrict(keys: seq<string>, m: map<string, seq<real>>): seq<string> {
    if keys == [] then []
    else (if keys[0] in m then [keys[0]] else []) + Restrict(keys[1..], m)
  }

  ghost predicate Distinct(keys: seq<string>) {
    forall i, j :: 0 <= i < j < |keys| ==> keys[i] != keys[j]
  }

  lemma {:induction false} RestrictFacts(keys: seq<string>, m: map<string, seq<real>>)
    requires Distinct(keys)
    ensures Distinct(Restrict(keys, m))
    ensures forall x :: x in Restrict(keys, m) <==> x in keys && x in m
    ensures |Restrict(keys, m)| <= |keys|
    ensures (forall x :: x in keys ==> x in m) ==> Restrict(keys, m) == keys
    ensures (exists x :: x in keys && x !in m) ==> |Restrict(keys, m)| < |keys|
  {
    if keys != [] {
      RestrictFacts(keys[1..], m);
      assert forall x :: x in keys <==> x == keys[0] || x in keys[1..];
    }
  }

  lemma {:induction false} RestrictTwice(keys: seq<string>, m1: map<string, seq<real>>, m2: map<string, seq<real>>)
    requires forall k :: k in m2 ==> k in m1
    ensures Restrict(Restrict(keys, m1), m2) == Restrict(keys, m2)
  {
    if keys != [] {
      RestrictTwice(keys[1..], m1, m2);
      var rest := Restrict(keys[1..], m1);
      if keys[0] in m1 {
        assert ([keys[0]] + rest)[1..] == rest;
      } else {
        assert [] + rest == rest;
      }
    }
  }

  lemma {:induction false} RestrictOne(keys: seq<string>, m: map<string, seq<real>>, x: string)
    requires Distinct(keys) && x in keys && x !in m && forall k :: k in keys && k != x ==> k in m
    ensures |Restrict(keys, m)| == |keys| - 1
  {
    if keys[0] == x {
      RestrictFacts(keys[1..], m);
    } else {
      RestrictOne(keys[1..], m, x);
    }
  }

  /** Of two keys left, the one that came first still does. */
  lemma {:induction false} RestrictKeepsOrder(keys: seq<string>, m: map<string, seq<real>>, i: nat, j: nat)
    requires i < j < |Restrict(keys, m)|
    ensures exists a, b :: 0 <= a < b < |keys| && keys[a] == Restrict(keys, m)[i] && keys[b] == Restrict(keys, m)[j]
  {
    var r, rest := Restrict(keys, m), Restrict(keys[1..], m);
    if keys[0] !in m {
      RestrictKeepsOrder(keys[1..], m, i, j);
      var a, b :| 0 <= a < b < |keys[1..]| && keys[1..][a] == r[i] && keys[1..][b] == r[j];
      assert keys[a + 1] == r[i] && keys[b + 1] == r[j];
    } else if i > 0 {
      RestrictKeepsOrder(keys[1..], m, i - 1, j - 1);
      var a, b :| 0 <= a < b < |keys[1..]| && keys[1..][a] == rest[i - 1] && keys[1..][b] == rest[j - 1];
      assert keys[a + 1] == r[i] && keys[b + 1] == r[j];
    } else {
      RestrictStays(keys[1..], m, j - 1);
      var b :| 0 <= b < |keys[1..]| && keys[1..][b] == rest[j - 1];
      assert keys[0] == r[0] && keys[b + 1] == r[j];
    }
  }

  lemma {:induction false} RestrictStays(keys: seq<string>, m: map<string, seq<real>>, j: nat)
    requires j < |Restrict(keys, m)|
    ensures exists b :: 0 <= b < |keys| && keys[b] == Restrict(keys, m)[j]
  {
    if keys[0] in m && j == 0 {
      assert keys[0] == Restrict(keys, m)[0];
    } else {
      RestrictStays(keys[1..], m, if keys[0] in m then j - 1 else j);
      var b :| 0 <= b < |keys[1..]| && keys[1..][b] == Restrict(keys[1..], m)[if keys[0] in m then j - 1 else j];
      assert keys[b + 1] == Restrict(keys, m)[j];
    }
  }

  /** The table's shape: `keys` is the insertion order of `hits`. */
  ghost predicate TableOk(keys: seq<string>, hits: map<string, seq<real>>) {
    Distinct(keys) && forall k :: k in keys <==> k in hits
  }

  ghost predicate KeysOk(hits: map<string, seq<real>>, log: map<string, seq<real>>, lost: map<string, real>,
                         now: real, limit: nat, window: real) {
    forall k :: KeyOk(Get(hits, k), Get(log, k), Find(lost, k), now, limit, window)
  }

  /** The key evicted by force: least recently active, oldest in the table among equals. */
  function Victim(keys: seq<string>, hits: map<string, seq<real>>): string
    requires keys != []
  {
    var ordered := StableSort(keys, (a: string, b: string) => LastHit(hits, a) <= LastHit(hits, b));
    if ordered == [] then keys[0] else ordered[0]
  }

  lemma VictimIsLeastRecent(keys: seq<string>, hits: map<string, seq<real>>)
    requires keys != []
    ensures Victim(keys, hits) in keys
    ensures forall k :: k in keys ==> LastHit(hits, Victim(keys, hits)) <= LastHit(hits, k)
  {
    var leq := (a: string, b: string) => LastHit(hits, a) <= LastHit(hits, b);
    var ordered := StableSort(keys, leq);
    SortIsPermutation(keys, leq);
    SortIsSorted(keys, leq);
    SortMembers(keys, leq, ordered[0]);
    forall k | k in keys
      ensures LastHit(hits, ordered[0]) <= LastHit(hits, k)
    {
      SortMembers(keys, leq, k);
      var i :| 0 <= i < |ordered| && ordered[i] == k;
      assert i == 0 || leq(ordered[0], ordered[i]);
    }
  }

  /** The key just admitted was added last and has the latest hit, so it is never the victim,
      even when every other key was used at the same instant. */
  lemma NewcomerIsSafe(keys: seq<string>, hits: map<string, seq<real>>)
    requires |keys| >= 2 && Distinct(keys)
    requires forall k :: k in keys ==> LastHit(hits, k) <= LastHit(hits, keys[|keys| - 1])
    ensures Victim(keys, hits) != keys[|keys| - 1]
  {
    NewestIsNotFirst(keys, (a: string, b: string) => LastHit(hits, a) <= LastHit(hits, b));
  }

  class SlidingWindow {
    const limit: nat
    const window: real
    var keys: seq<string>
    var hits: map<string, seq<real>>
    // History, for stating the contract: every allowed call, the latest hit lost per key, the last call's time.
    ghost var log: map<string, seq<real>>
    ghost var lost: map<string, real>
    ghost var lastCall: real

    ghost predicate Valid()
      reads this
    {
      && limit >= 1 && window > 0.0
      && TableOk(keys, hits)
      && |keys| <= MAX_KEYS
      && NoneEmpty(hits)
      && KeysOk(hits, log, lost, lastCall, limit, window)
    }

    constructor (limit: nat, window: real)
      requires limit >= 1 && window > 0.0
      ensures Valid() && this.limit == limit && this.window == window
      ensures hits == map[] && log == map[] && lost == map[] && lastCall == 0.0
    {
      this.limit, this.window := limit, window;
      keys, hits := [], map[];
      log, lost, lastCall := map[], map[], 0.0;
    }

    /** Has a hit that may still be inside the window been dropped for this key? */
    ghost predicate Exact(key: string, now: real)
      reads this
    {
      key !in lost || lost[key] <= now - window
    }

    method Allow(key: string, now: real) returns (ok: bool)
      requires Valid() && now >= lastCall
      modifies this
      ensures Valid() && lastCall == now
      // The decision, by the deque ...
      ensures ok <==> Admits(Get(old(hits), key), limit, window, now)
      // ... and by the log of everything ever allowed.
      ensures old(Exact(key, now)) ==> (ok <==> CountAfter(Get(old(log), key), now - window) < limit)
      ensures !ok ==> CountAfter(Get(old(log), key), now - window) >= limit
      ensures log == if ok then old(log)[key := Get(old(log), key) + [now]] else old(log)
      // The table.
      ensures key in hits && hits[key] == Pruned(Get(old(hits), key), now - window) + (if ok then [now] else [])
      ensures Kept(old(hits)[key := hits[key]], hits)
      ensures keys == Restrict(if key in old(hits) then old(keys) else old(keys) + [key], hits)
      // A key that is still active is dropped only when the table and its newcomer are all active;
      // then one is, the least recently used, and its loss is recorded.
      ensures || (lost == old(lost) && OnlyStaleDropped(old(hits), hits, now - window))
              || (key !in old(hits) && |old(keys)| == MAX_KEYS
                  && OneForced(old(hits)[key := hits[key]], hits, old(lost), lost, key, now - window))
    {
      hide KeyOk, KeysOk, Pruned, CountAfter, Distinct, Restrict, IsStale, LastHit, OneForced;
      lastCall := now;
      AllTimePasses(hits, log, lost, old(lastCall), now, limit, window);
      KeyDecision(hits, log, lost, now, limit, window, key);
      var cutoff := now - window;
      Purge(key, cutoff);
      KeyPruned(old(hits), hits, log, lost, now, limit, window, key);
      PrunedOfNothing(cutoff);
      if |hits[key]| >= limit {
        RestrictFacts(keys, hits);
        return false;
      }
      ghost var purged := hits;
      Admit(key, now, cutoff);
      assert old(hits)[key := hits[key]] == purged[key := hits[key]];
      return true;
    }

    /** Append the hit; past the table's limit, evict. */
    method Admit(key: string, now: real, cutoff: real)
      requires TableOk(keys, hits) && key in hits && |hits[key]| < limit
      requires |keys| <= MAX_KEYS || (|keys| == MAX_KEYS + 1 && keys[MAX_KEYS] == key)
      requires forall k :: k in hits && k != key ==> hits[k] != []
      requires window > 0.0 && cutoff == now - window && KeysOk(hits, log, lost, now, limit, window)
      modifies this`keys, this`hits, this`log, this`lost
      ensures TableOk(keys, hits) && |keys| <= MAX_KEYS && NoneEmpty(hits)
      ensures KeysOk(hits, log, lost, now, limit, window)
      ensures log == old(log)[key := Get(old(log), key) + [now]]
      ensures key in hits && hits[key] == old(hits)[key] + [now]
      ensures Kept(old(hits)[key := hits[key]], hits) && keys == Restrict(old(keys), hits)
      ensures || (lost == old(lost) && OnlyStaleDropped(old(hits)[key := hits[key]], hits, cutoff))
              || (|old(keys)| == MAX_KEYS + 1
                  && OneForced(old(hits)[key := hits[key]], hits, old(lost), lost, key, cutoff))
    {
      hide KeyOk, KeysOk, Distinct, Restrict, IsStale, LastHit, OneForced;
      KeyAdmitted(hits, log, lost, now, limit, window, key);
      hits := hits[key := hits[key] + [now]];
      log := log[key := Get(log, key) + [now]];
      ghost var admitted := hits;
      RestrictFacts(keys, hits);
      if |keys| > MAX_KEYS {
        Evict(cutoff, key, now);
      }
      assert old(hits)[key := hits[key]] == admitted;
    }

    /** Look the key up, adding it if new, and pop what has expired. */
    method Purge(key: string, cutoff: real)
      requires TableOk(keys, hits)
      modifies this`keys, this`hits
      ensures hits == old(hits)[key := Pruned(Get(old(hits), key), cutoff)]
      ensures keys == if key in old(hits) then old(keys) else old(keys) + [key]
      ensures TableOk(keys, hits)
    {
      if key !in hits {
        hits := hits[key := []];
        keys := keys + [key];
      }
      while hits[key] != [] && hits[key][0] <= cutoff
        invariant key in hits && hits == old(hits)[key := hits[key]]
        invariant Pruned(hits[key], cutoff) == Pruned(Get(old(hits), key), cutoff)
        modifies this`hits
        decreases |hits[key]|
      {
        hits := hits[key := hits[key][1..]];
      }
    }

    /** `_evict`: drop stale keys, then by force whatever is still over the limit. */
    method Evict(cutoff: real, ghost key: string, ghost now: real)
      requires TableOk(keys, hits) && |keys| == MAX_KEYS + 1 && keys[MAX_KEYS] == key
      requires window > 0.0 && cutoff == now - window && LastHit(hits, key) == now
      requires NoneEmpty(hits) && KeysOk(hits, log, lost, now, limit, window)
      modifies this`keys, this`hits, this`lost
      ensures TableOk(keys, hits) && |keys| <= MAX_KEYS && key in hits
      ensures Kept(old(hits), hits) && keys == Restrict(old(keys), hits)
      ensures KeysOk(hits, log, lost, now, limit, window)
      ensures || (lost == old(lost) && OnlyStaleDropped(old(hits), hits, cutoff))
              || OneForced(old(hits), hits, old(lost), lost, key, cutoff)
    {
      hide KeysOk, KeyOk, LastHit, Restrict, Distinct, OnlyStaleDropped, OneForced;
      var stale := StaleKeys(keys, hits, cutoff);
      var ks, hs := DeleteAll(keys, hits, stale);
      DropStale(hits, hs, log, lost, now, limit, window);
      RestrictFacts(keys, hs);
      if |ks| > MAX_KEYS {
        assert ks == keys && hs == hits;
        ghost var v;
        ks, hs, v := DropLeastRecent(ks, hs, key, now, log, lost, limit, window);
        ForcedIs(hits, hs, lost, v, key, cutoff);
        lost := lost[v := LastHit(hits, v)];
      } else {
        StaleDropped(hits, hs, cutoff);
        NewestNotStale(hits, key, now, window);
      }
      keys, hits := ks, hs;
    }

    /** Whole seconds until the oldest recorded hit leaves the window. */
    method Retry(key: string, now: real) returns (s: nat)
      requires Valid() && now >= lastCall
      ensures s == RetryAfter(Get(hits, key), window, now)
      ensures forall t :: t >= now + s as real ==> Admits(Get(hits, key), limit, window, t)
    {
      s := RetryAfter(Get(hits, key), window, now);
      assert KeyOk(Get(hits, key), Get(log, key), Find(lost, key), lastCall, limit, window);
      HitsAscend(Get(hits, key), Get(log, key), Find(lost, key), lastCall, limit, window);
      forall t | t >= now + s as real
        ensures Admits(Get(hits, key), limit, window, t)
      {
        RetryIsEnough(Get(hits, key), limit, window, now, t);
      }
    }

    /** Forget a key's hits, or everyone's when no key is given; the history records them as lost. */
    method Reset(key: Option<string>)
      requires Valid()
      modifies this`keys, this`hits, this`lost
      ensures Valid()
      ensures key == None ==> hits == map[]
      ensures key.Some? ==> hits == old(hits) - {key.value} && keys == Restrict(old(keys), hits)
      ensures lost == old(lost) + map k | k in old(hits) && k !in hits :: LastHit(old(hits), k)
    {
      hide KeysOk, KeyOk, LastHit, Distinct, Restrict;
      var hs: map<string, seq<real>> := if key == None then map[] else hits - {key.value};
      RestrictFacts(keys, hs);
      ghost var gone := map k | k in hits && k !in hs :: LastHit(hits, k);
      ForgetMany(hits, hs, log, lost, gone, lastCall, limit, window);
      keys, hits := Restrict(keys, hs), hs;
      lost := lost + gone;
    }
  }

  /** The constructor's validation. */
  method MakeLimiter(limit: int, window: real) returns (r: Result<SlidingWindow, string>)
    ensures r.Err? <==> limit < 1 || window <= 0.0
    ensures r.Ok? ==> fresh(r.value) && r.value.Valid() && r.value.limit == limit && r.value.window == window
  {
    if limit < 1 || window <= 0.0 {
      return Err("limit must be >= 1 and window_seconds > 0");
    }
    var w := new SlidingWindow(limit, window);
    return Ok(w);
  }

  /** The promise over any history of calls: no half-open interval as long as the window holds more
      than `limit` allowed calls, from the key's last loss on, or anywhere if it has lost nothing. */
  lemma LimitHolds(w: SlidingWindow, key: string, after: real)
    requires w.Valid() && (key in w.lost ==> after >= w.lost[key])
    ensures CountBetween(Get(w.log, key), after, after + w.window) <= w.limit
  {
    assert KeyOk(Get(w.hits, key), Get(w.log, key), Find(w.lost, key), w.lastCall, w.limit, w.window);
    IntervalBound(Get(w.log, key), Find(w.lost, key), w.limit, w.window, after);
  }

  ghost predicate NoneEmpty(hits: map<string, seq<real>>) {
    forall k :: k in hits ==> hits[k] != []
  }

  ghost predicate Kept(h1: map<string, seq<real>>, h2: map<string, seq<real>>) {
    forall k :: k in h2 ==> k in h1 && h2[k] == h1[k]
  }

  /** Every key that is gone had no hit later than the cutoff. */
  ghost predicate OnlyStaleDropped(h1: map<string, seq<real>>, h2: map<string, seq<real>>, cutoff: real) {
    forall k :: k in h1 && k !in h2 ==> h1[k] == [] || h1[k][|h1[k]| - 1] <= cutoff
  }

  /** Every key had a hit later than the cutoff, and exactly one was dropped: not `key`, and one whose
      latest hit is nobody's later. */
  ghost predicate OneForced(h1: map<string, seq<real>>, h2: map<string, seq<real>>,
                            lost1: map<string, real>, lost2: map<string, real>, key: string, cutoff: real) {
    && (forall k :: k in h1 ==> h1[k] != [] && h1[k][|h1[k]| - 1] > cutoff)
    && exists v ::
         && v in h1 && v != key
         && Kept(h1, h2) && (forall k :: k in h2 <==> k in h1 && k != v)
         && lost2 == lost1[v := h1[v][|h1[v]| - 1]]
         && forall k :: k in h1 ==> h1[v][|h1[v]| - 1] <= h1[k][|h1[k]| - 1]
  }

  lemma StaleDropped(h1: map<string, seq<real>>, h2: map<string, seq<real>>, cutoff: real)
    requires forall k :: k in h1 && k !in h2 ==> IsStale(h1[k], cutoff)
    ensures OnlyStaleDropped(h1, h2, cutoff)
  {
  }

  lemma ForcedIs(h1: map<string, seq<real>>, h2: map<string, seq<real>>, lost: map<string, real>, v: string, key: string, cutoff: real)
    requires forall k :: k in h1 ==> !IsStale(h1[k], cutoff)
    requires v in h1 && v != key && Kept(h1, h2) && (forall k :: k in h2 <==> k in h1 && k != v)
    requires forall k :: k in h1 ==> LastHit(h1, v) <= LastHit(h1, k)
    ensures OneForced(h1, h2, lost, lost[v := LastHit(h1, v)], key, cutoff)
  {
    assert forall k :: k in h1 ==> h1[k] != [] && LastHit(h1, k) == h1[k][|h1[k]| - 1];
  }

  lemma NewestNotStale(hits: map<string, seq<real>>, key: string, now: real, window: real)
    requires key in hits && hits[key] != [] && LastHit(hits, key) == now && window > 0.0
    ensures !IsStale(hits[key], now - window)
  {
  }

  method DeleteAll(keys: seq<string>, hits: map<string, seq<real>>, doomed: seq<string>)
    returns (ks: seq<string>, hs: map<string, seq<real>>)
    requires TableOk(keys, hits)
    ensures Kept(hits, hs) && forall k :: k in hs <==> k in hits && k !in doomed
    ensures ks == Restrict(keys, hs) && TableOk(ks, hs)
  {
    ks, hs := keys, hits;
    RestrictFacts(keys, hits);
    for i := 0 to |doomed|
      invariant Kept(hits, hs) && forall k :: k in hs <==> k in hits && k !in doomed[..i]
      invariant ks == Restrict(keys, hs)
    {
      ghost var before := hs;
      assert doomed[..i + 1] == doomed[..i] + [doomed[i]];
      hs := hs - {doomed[i]};
      RestrictTwice(keys, before, hs);
      ks := Restrict(ks, hs);
    }
    assert doomed[..|doomed|] == doomed;
    RestrictFacts(keys, hs);
  }

  /** `v` is the key dropped; its hits are gone from the table. */
  method DropLeastRecent(keys: seq<string>, hits: map<string, seq<real>>, ghost key: string, ghost now: real,
                         ghost log: map<string, seq<real>>, ghost lost: map<string, real>, ghost limit: nat, ghost window: real)
    returns (ks: seq<string>, hs: map<string, seq<real>>, ghost v: string)
    requires TableOk(keys, hits) && |keys| == MAX_KEYS + 1 && keys[MAX_KEYS] == key
    requires NoneEmpty(hits) && LastHit(hits, key) == now
    requires KeysOk(hits, log, lost, now, limit, window)
    ensures TableOk(ks, hs) && |ks| == MAX_KEYS && ks == Restrict(keys, hs)
    ensures v in hits && v != key && (forall k :: k in hs <==> k in hits && k != v) && Kept(hits, hs)
    ensures forall k :: k in hits ==> LastHit(hits, v) <= LastHit(hits, k)
    ensures KeysOk(hs, log, lost[v := LastHit(hits, v)], now, limit, window)
  {
    hide KeysOk, LastHit, Restrict, Distinct;
    var doomed := LeastRecent(keys, hits, key, now, log, lost, limit, window);
    v := doomed[0];
    ks, hs := DeleteAll(keys, hits, doomed);
    DropVictim(hits, hs, v, log, lost, now, limit, window);
    RestrictOne(keys, hs, v);
  }

  /** The least recently active keys, as many as the table is over its limit. */
  method LeastRecent(keys: seq<string>, hits: map<string, seq<real>>, ghost key: string, ghost now: real,
                     ghost log: map<string, seq<real>>, ghost lost: map<string, real>, ghost limit: nat, ghost window: real)
    returns (doomed: seq<string>)
    requires TableOk(keys, hits) && |keys| == MAX_KEYS + 1 && keys[MAX_KEYS] == key
    requires NoneEmpty(hits) && LastHit(hits, key) == now
    requires KeysOk(hits, log, lost, now, limit, window)
    ensures |doomed| == 1 && doomed[0] in hits && doomed[0] != key
    ensures forall k :: k in hits ==> LastHit(hits, doomed[0]) <= LastHit(hits, k)
  {
    LastHitsPast(hits, log, lost, now, limit, window);
    hide KeysOk, LastHit;
    assert forall k :: k in keys ==> LastHit(hits, k) <= LastHit(hits, key);
    OverByOne(keys, hits);
    var ordered := StableSort(keys, (a: string, b: string) => LastHit(hits, a) <= LastHit(hits, b));
    doomed := ordered[..|keys| - MAX_KEYS];
  }

  /** With one key too many, the one to go is the least recently active, and not the newcomer. */
  lemma OverByOne(keys: seq<string>, hits: map<string, seq<real>>)
    requires |keys| == MAX_KEYS + 1 && Distinct(keys)
    requires forall k :: k in keys ==> LastHit(hits, k) <= LastHit(hits, keys[|keys| - 1])
    ensures var ordered := StableSort(keys, (a: string, b: string) => LastHit(hits, a) <= LastHit(hits, b));
            && |ordered| == MAX_KEYS + 1 && ordered[0] in keys && ordered[0] != keys[|keys| - 1]
            && forall k :: k in keys ==> LastHit(hits, ordered[0]) <= LastHit(hits, k)
  {
    hide LastHit, Distinct;
    SortIsPermutation(keys, (a: string, b: string) => LastHit(hits, a) <= LastHit(hits, b));
    VictimIsLeastRecent(keys, hits);
    NewcomerIsSafe(keys, hits);
  }

  method StaleKeys(keys: seq<string>, hits: map<string, seq<real>>, cutoff: real) returns (stale: seq<string>)
    requires forall k :: k in keys ==> k in hits
    ensures forall k :: k in stale <==> k in keys && IsStale(hits[k], cutoff)
  {
    stale := [];
    for i := 0 to |keys|
      invariant forall k :: k in stale <==> k in keys[..i] && IsStale(hits[k], cutoff)
    {
      assert keys[..i + 1] == keys[..i] + [keys[i]];
      if IsStale(hits[keys[i]], cutoff) {
        stale := stale + [keys[i]];
      }
    }
    assert keys[..|keys|] == keys;
  }

  lemma AllTimePasses(hits: map<string, seq<real>>, log: map<string, seq<real>>, lost: map<string, real>,
                      now: real, later: real, limit: nat, window: real)
    requires KeysOk(hits, log, lost, now, limit, window) && now <= later
    ensures KeysOk(hits, log, lost, later, limit, window)
  {
    hide KeyOk;
    forall k
      ensures KeyOk(Get(hits, k), Get(log, k), Find(lost, k), later, limit, window)
    {
      TimePasses(Get(hits, k), Get(log, k), Find(lost, k), now, later, limit, window);
    }
  }

  lemma LastHitsPast(hits: map<string, seq<real>>, log: map<string, seq<real>>, lost: map<string, real>,
                     now: real, limit: nat, window: real)
    requires KeysOk(hits, log, lost, now, limit, window) && NoneEmpty(hits)
    ensures forall k :: k in hits ==> LastHit(hits, k) <= now
  {
    forall k | k in hits
      ensures LastHit(hits, k) <= now
    {
      HitsAscend(Get(hits, k), Get(log, k), Find(lost, k), now, limit, window);
    }
  }

  lemma PrunedOfNothing(cutoff: real)
    ensures Pruned([], cutoff) == []
  {
  }

  lemma KeyDecision(hits: map<string, seq<real>>, log: map<string, seq<real>>, lost: map<string, real>,
                    now: real, limit: nat, window: real, key: string)
    requires KeysOk(hits, log, lost, now, limit, window)
    ensures var live := |Pruned(Get(hits, key), now - window)|;
            && live <= CountAfter(Get(log, key), now - window)
            && (key !in lost || lost[key] <= now - window ==> live == CountAfter(Get(log, key), now - window))
  {
    DequeCountsLog(Get(hits, key), Get(log, key), Find(lost, key), now, limit, window);
  }

  lemma OneKeyChanges(h1: map<string, seq<real>>, h2: map<string, seq<real>>,
                      log1: map<string, seq<real>>, log2: map<string, seq<real>>, lost: map<string, real>,
                      now: real, limit: nat, window: real, key: string)
    requires KeysOk(h1, log1, lost, now, limit, window)
    requires KeyOk(Get(h2, key), Get(log2, key), Find(lost, key), now, limit, window)
    requires forall k :: k != key ==> Get(h2, k) == Get(h1, k) && Get(log2, k) == Get(log1, k)
    ensures KeysOk(h2, log2, lost, now, limit, window)
  {
    hide KeyOk;
    forall k
      ensures KeyOk(Get(h2, k), Get(log2, k), Find(lost, k), now, limit, window)
    {
      if k != key {
        assert KeyOk(Get(h1, k), Get(log1, k), Find(lost, k), now, limit, window);
      }
    }
  }

  lemma KeyPruned(h1: map<string, seq<real>>, h2: map<string, seq<real>>, log: map<string, seq<real>>,
                  lost: map<string, real>, now: real, limit: nat, window: real, key: string)
    requires KeysOk(h1, log, lost, now, limit, window)
    requires h2 == h1[key := Pruned(Get(h1, key), now - window)]
    ensures KeysOk(h2, log, lost, now, limit, window)
  {
    PruneKeeps(Get(h1, key), Get(log, key), Find(lost, key), now, limit, window);
    OneKeyChanges(h1, h2, log, log, lost, now, limit, window, key);
  }

  lemma KeyAdmitted(hits: map<string, seq<real>>, log: map<string, seq<real>>, lost: map<string, real>,
                    now: real, limit: nat, window: real, key: string)
    requires KeysOk(hits, log, lost, now, limit, window) && window > 0.0
    requires key in hits && |hits[key]| < limit
    ensures LastHit(hits[key := hits[key] + [now]], key) == now
    ensures KeysOk(hits[key := hits[key] + [now]], log[key := Get(log, key) + [now]], lost, now, limit, window)
  {
    var h2, log2 := hits[key := hits[key] + [now]], log[key := Get(log, key) + [now]];
    AdmitKeeps(hits[key], Get(log, key), Find(lost, key), now, limit, window);
    OneKeyChanges(hits, h2, log, log2, lost, now, limit, window, key);
  }

  lemma DropStale(h1: map<string, seq<real>>, h2: map<string, seq<real>>, log: map<string, seq<real>>,
                  lost: map<string, real>, now: real, limit: nat, window: real)
    requires KeysOk(h1, log, lost, now, limit, window)
    requires forall k :: k in h2 ==> k in h1 && h2[k] == h1[k]
    requires forall k :: k in h1 && k !in h2 ==> IsStale(h1[k], now - window)
    ensures KeysOk(h2, log, lost, now, limit, window)
  {
    hide KeyOk;
    forall k
      ensures KeyOk(Get(h2, k), Get(log, k), Find(lost, k), now, limit, window)
    {
      assert KeyOk(Get(h1, k), Get(log, k), Find(lost, k), now, limit, window);
      if k in h1 && k !in h2 {
        StaleKeeps(h1[k], Get(log, k), Find(lost, k), now, limit, window);
      }
    }
  }

  lemma DropVictim(hits: map<string, seq<real>>, h2: map<string, seq<real>>, v: string, log: map<string, seq<real>>,
                   lost: map<string, real>, now: real, limit: nat, window: real)
    requires KeysOk(hits, log, lost, now, limit, window) && v in hits && hits[v] != []
    requires Kept(hits, h2) && forall k :: k in h2 <==> k in hits && k != v
    ensures KeysOk(h2, log, lost[v := LastHit(hits, v)], now, limit, window)
  {
    hide KeyOk;
    var lost' := lost[v := LastHit(hits, v)];
    forall k
      ensures KeyOk(Get(h2, k), Get(log, k), Find(lost', k), now, limit, window)
    {
      assert KeyOk(Get(hits, k), Get(log, k), Find(lost, k), now, limit, window);
      if k == v {
        LoseKeeps(hits[v], Get(log, v), Find(lost, v), now, limit, window);
      }
    }
  }

  lemma ForgetMany(h1: map<string, seq<real>>, h2: map<string, seq<real>>, log: map<string, seq<real>>,
                   lost: map<string, real>, gone: map<string, real>, now: real, limit: nat, window: real)
    requires KeysOk(h1, log, lost, now, limit, window) && NoneEmpty(h1) && Kept(h1, h2)
    requires forall k :: k in gone <==> k in h1 && k !in h2
    requires forall k :: k in gone ==> gone[k] == LastHit(h1, k)
    ensures KeysOk(h2, log, lost + gone, now, limit, window)
  {
    hide KeyOk;
    var lost2 := lost + gone;
    forall k
      ensures KeyOk(Get(h2, k), Get(log, k), Find(lost2, k), now, limit, window)
    {
      assert KeyOk(Get(h1, k), Get(log, k), Find(lost, k), now, limit, window);
      if k in h1 && k !in h2 {
        LoseKeeps(h1[k], Get(log, k), Find(lost, k), now, limit, window);
      }
    }
  }
}
