/**
 What the sliding-window limiter (backend/app/ratelimit.py) does to one key, as facts
 about two sequences of times: `hits`, the deque it keeps, and `log`, every call it ever
 allowed. `lost` is the latest hit it dropped while that hit might still have counted.
 */
module Window {
  import opened Wrappers

  ghost predicate Ascending(s: seq<real>) {
    forall i, j :: 0 <= i < j < |s| ==> s[i] <= s[j]
  }

  /** How many entries are later than `cutoff`: the reference notion of recent calls. */
  ghost function CountAfter(s: seq<real>, cutoff: real): nat {
    if s == [] then 0 else (if s[0] > cutoff then 1 else 0) + CountAfter(s[1..], cutoff)
  }

  /** What is left once entries up to `cutoff` have been popped from the front. */
  function Pruned(s: seq<real>, cutoff: real): seq<real> {
    if s != [] && s[0] <= cutoff then Pruned(s[1..], cutoff) else s
  }

  lemma {:induction false} PrunedIsSuffix(s: seq<real>, cutoff: real)
    requires Ascending(s)
    ensures var r := Pruned(s, cutoff);
            && |r| <= |s| && r == s[|s| - |r|..]
            && (forall i :: 0 <= i < |s| - |r| ==> s[i] <= cutoff)
            && (forall i :: |s| - |r| <= i < |s| ==> s[i] > cutoff)
  {
    if s != [] && s[0] <= cutoff {
      var t := s[1..];
      var r := Pruned(t, cutoff);
      PrunedIsSuffix(t, cutoff);
      assert forall i :: 0 < i < |s| ==> s[i] == t[i - 1];
    }
  }

  lemma {:induction false} CountAll(s: seq<real>, cutoff: real)
    requires forall i :: 0 <= i < |s| ==> s[i] > cutoff
    ensures CountAfter(s, cutoff) == |s|
  {
    if s != [] {
      CountAll(s[1..], cutoff);
    }
  }

  /** Only the part after the first `k` entries matters when those are all expired. */
  lemma {:induction false} CountSkips(s: seq<real>, k: nat, cutoff: real)
    requires k <= |s|
    ensures CountAfter(s, cutoff) >= CountAfter(s[k..], cutoff)
    ensures (forall i :: 0 <= i < k ==> s[i] <= cutoff) ==> CountAfter(s, cutoff) == CountAfter(s[k..], cutoff)
  {
    if k > 0 {
      CountSkips(s[1..], k - 1, cutoff);
      assert s[1..][k - 1..] == s[k..];
      assert forall i :: 0 <= i < k - 1 ==> s[1..][i] == s[i + 1];
    }
  }

  lemma PrunedCounts(s: seq<real>, cutoff: real)
    requires Ascending(s)
    ensures |Pruned(s, cutoff)| == CountAfter(s, cutoff)
  {
    var r := Pruned(s, cutoff);
    PrunedIsSuffix(s, cutoff);
    CountSkips(s, |s| - |r|, cutoff);
    CountAll(r, cutoff);
  }

  ghost predicate Excused(t: real, lost: Option<real>) {
    lost.Some? && t <= lost.value
  }

  /** Any `limit + 1` allowed calls in a row span at least a window, unless hits were lost meanwhile. */
  ghost predicate Spaced(log: seq<real>, lost: Option<real>, limit: nat, window: real) {
    forall i :: 0 <= i && i + limit < |log| && !Excused(log[i], lost) ==> log[i + limit] - log[i] >= window
  }

  /** The deque is the tail of the log; what was dropped has expired or was lost. */
  ghost predicate Tracks(hits: seq<real>, log: seq<real>, lost: Option<real>, now: real, window: real) {
    && |hits| <= |log|
    && hits == log[|log| - |hits|..]
    && forall i :: 0 <= i < |log| - |hits| ==> log[i] <= now - window || Excused(log[i], lost)
  }

  ghost predicate KeyOk(hits: seq<real>, log: seq<real>, lost: Option<real>, now: real, limit: nat, window: real) {
    && Ascending(log)
    && (forall i :: 0 <= i < |log| ==> log[i] <= now)
    && |hits| <= limit
    && Tracks(hits, log, lost, now, window)
    && Spaced(log, lost, limit, window)
  }

  lemma TimePasses(hits: seq<real>, log: seq<real>, lost: Option<real>, now: real, later: real, limit: nat, window: real)
    requires KeyOk(hits, log, lost, now, limit, window) && now <= later
    ensures KeyOk(hits, log, lost, later, limit, window)
  {
  }

  lemma HitsAscend(hits: seq<real>, log: seq<real>, lost: Option<real>, now: real, limit: nat, window: real)
    requires KeyOk(hits, log, lost, now, limit, window)
    ensures Ascending(hits) && forall i :: 0 <= i < |hits| ==> hits[i] <= now
  {
  }

  /** Popping expired hits loses nothing. */
  lemma PruneKeeps(hits: seq<real>, log: seq<real>, lost: Option<real>, now: real, limit: nat, window: real)
    requires KeyOk(hits, log, lost, now, limit, window)
    ensures KeyOk(Pruned(hits, now - window), log, lost, now, limit, window)
  {
    var r := Pruned(hits, now - window);
    HitsAscend(hits, log, lost, now, limit, window);
    PrunedIsSuffix(hits, now - window);
    var cut := |log| - |hits|;
    forall i | 0 <= i < |log| - |r|
      ensures log[i] <= now - window || Excused(log[i], lost)
    {
      if i >= cut {
        assert log[i] == hits[i - cut];
      }
    }
  }

  /** Dropping a key that has gone stale loses nothing either. */
  lemma StaleKeeps(hits: seq<real>, log: seq<real>, lost: Option<real>, now: real, limit: nat, window: real)
    requires KeyOk(hits, log, lost, now, limit, window)
    requires hits == [] || hits[|hits| - 1] <= now - window
    ensures KeyOk([], log, lost, now, limit, window)
  {
    HitsAscend(hits, log, lost, now, limit, window);
    var cut := |log| - |hits|;
    forall i | 0 <= i < |log|
      ensures log[i] <= now - window || Excused(log[i], lost)
    {
      if i >= cut {
        assert log[i] == hits[i - cut];
      }
    }
  }

  /** Dropping an active key is recorded in `lost`. */
  lemma LoseKeeps(hits: seq<real>, log: seq<real>, lost: Option<real>, now: real, limit: nat, window: real)
    requires KeyOk(hits, log, lost, now, limit, window) && hits != []
    ensures KeyOk([], log, Some(hits[|hits| - 1]), now, limit, window)
  {
    var last := hits[|hits| - 1];
    assert last == log[|log| - 1];
    assert forall i :: 0 <= i < |log| ==> log[i] <= last;
  }

  /** Admitting a call keeps the spacing: with a full complement of recorded hits it would be refused. */
  lemma AdmitKeeps(hits: seq<real>, log: seq<real>, lost: Option<real>, now: real, limit: nat, window: real)
    requires KeyOk(hits, log, lost, now, limit, window) && |hits| < limit && window > 0.0
    ensures KeyOk(hits + [now], log + [now], lost, now, limit, window)
  {
    var l := log + [now];
    forall i | 0 <= i && i + limit < |l| && !Excused(l[i], lost)
      ensures l[i + limit] - l[i] >= window
    {
      if i + limit < |log| {
        assert !Excused(log[i], lost);
        assert log[i + limit] - log[i] >= window;
      } else {
        assert i < |log| - |hits|;
        assert log[i] <= now - window;
      }
    }
    assert hits + [now] == l[|l| - |hits| - 1..];
  }

  /** Refinement: the deque length never exceeds the true count of recent calls, and equals
      it unless a hit that is still inside the window was lost. */
  lemma DequeCountsLog(hits: seq<real>, log: seq<real>, lost: Option<real>, now: real, limit: nat, window: real)
    requires KeyOk(hits, log, lost, now, limit, window)
    ensures |Pruned(hits, now - window)| <= CountAfter(log, now - window)
    ensures lost == None || lost.value <= now - window ==> |Pruned(hits, now - window)| == CountAfter(log, now - window)
  {
    HitsAscend(hits, log, lost, now, limit, window);
    PrunedCounts(hits, now - window);
    CountSkips(log, |log| - |hits|, now - window);
  }

  // ------------------------------------------------------------ the limit

  ghost function CountBetween(s: seq<real>, after: real, upTo: real): nat {
    if s == [] then 0 else (if after < s[0] <= upTo then 1 else 0) + CountBetween(s[1..], after, upTo)
  }

  lemma {:induction false} CountNone(s: seq<real>, after: real, upTo: real)
    requires forall i :: 0 <= i < |s| ==> s[i] > upTo
    ensures CountBetween(s, after, upTo) == 0
  {
    if s != [] {
      CountNone(s[1..], after, upTo);
    }
  }

  lemma {:induction false} CountAtMostLength(s: seq<real>, after: real, upTo: real)
    ensures CountBetween(s, after, upTo) <= |s|
  {
    if s != [] {
      CountAtMostLength(s[1..], after, upTo);
    }
  }

  lemma {:induction false} CountSplit(s: seq<real>, k: nat, after: real, upTo: real)
    requires k <= |s|
    ensures CountBetween(s, after, upTo) == CountBetween(s[..k], after, upTo) + CountBetween(s[k..], after, upTo)
  {
    if k == 0 {
      assert s[..0] == [] && s[0..] == s;
    } else {
      CountSplit(s[1..], k - 1, after, upTo);
      assert s[..k][1..] == s[1..][..k - 1] && s[k..] == s[1..][k - 1..];
    }
  }

  /** The promise of the limiter: from the last loss on, no half-open interval as long as the
      window holds more than `limit` allowed calls. */
  lemma {:induction false} IntervalBound(log: seq<real>, lost: Option<real>, limit: nat, window: real, after: real)
    requires Ascending(log) && Spaced(log, lost, limit, window) && (lost.Some? ==> after >= lost.value)
    ensures CountBetween(log, after, after + window) <= limit
  {
    if log != [] {
      if log[0] <= after {
        assert forall i :: 0 <= i < |log[1..]| ==> log[1..][i] == log[i + 1];
        TailSpaced(log, lost, limit, window);
        IntervalBound(log[1..], lost, limit, window, after);
      } else if |log| <= limit {
        CountAtMostLength(log, after, after + window);
      } else {
        assert !Excused(log[0], lost);
        assert log[0 + limit] - log[0] >= window;
        CountSplit(log, limit, after, after + window);
        CountAtMostLength(log[..limit], after, after + window);
        CountNone(log[limit..], after, after + window);
      }
    }
  }

  lemma TailSpaced(log: seq<real>, lost: Option<real>, limit: nat, window: real)
    requires log != [] && Ascending(log) && Spaced(log, lost, limit, window)
    ensures Ascending(log[1..]) && Spaced(log[1..], lost, limit, window)
  {
    var t := log[1..];
    forall i | 0 <= i && i + limit < |t| && !Excused(t[i], lost)
      ensures t[i + limit] - t[i] >= window
    {
      assert !Excused(log[i + 1], lost);
      assert log[i + 1 + limit] - log[i + 1] >= window;
    }
  }

  // ------------------------------------------------------------ retry-after

  /** `retry_after`: whole seconds until the oldest recorded hit leaves the window. */
  function RetryAfter(hits: seq<real>, window: real, now: real): nat {
    if hits == [] then 0
    else
      var remaining := hits[0] + window - now;
      if remaining > 0.0 then (if remaining.Floor + 1 > 1 then remaining.Floor + 1 else 1) else 0
  }

  /** Whether a call at `t` would be let through. */
  predicate Admits(hits: seq<real>, limit: nat, window: real, t: real) {
    |Pruned(hits, t - window)| < limit
  }

  /** Waiting as told always works, even if the deque still holds expired hits. */
  lemma RetryIsEnough(hits: seq<real>, limit: nat, window: real, now: real, t: real)
    requires Ascending(hits) && |hits| <= limit && limit >= 1
    requires t >= now + RetryAfter(hits, window, now) as real
    ensures Admits(hits, limit, window, t)
  {
    PrunedIsSuffix(hits, t - window);
    if hits != [] {
      var remaining := hits[0] + window - now;
      assert remaining < remaining.Floor as real + 1.0;
      assert hits[0] <= t - window;
    }
  }

  /** For a key that has just been refused, the moment it is let through again is exactly when
      its oldest hit expires, and the wait announced is the first whole number of seconds past it. */
  lemma RetryIsTight(hits: seq<real>, limit: nat, window: real, now: real, t: real)
    requires Ascending(hits) && |hits| == limit >= 1 && hits[0] > now - window && t >= now
    ensures Admits(hits, limit, window, t) <==> t >= hits[0] + window
    ensures var s := RetryAfter(hits, window, now) as real;
            s - 1.0 <= hits[0] + window - now < s
  {
    PrunedIsSuffix(hits, t - window);
  }
}
