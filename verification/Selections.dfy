/** Which elements of a sequence a loop keeps, by position. */
module Selections {

  /** `at` are the positions of exactly the elements to keep, in order. */
  ghost predicate Picks<T(!new)>(s: seq<T>, keep: T -> bool, at: seq<nat>) {
    && (forall a, b :: 0 <= a < b < |at| ==> at[a] < at[b])
    && (forall a :: 0 <= a < |at| ==> at[a] < |s| && keep(s[at[a]]))
    && (forall i :: 0 <= i < |s| && keep(s[i]) ==> i in at)
  }

  lemma PicksNothing<T(!new)>(keep: T -> bool)
    ensures Picks([], keep, [])
  {
  }

  lemma PicksNext<T(!new)>(s: seq<T>, keep: T -> bool, at: seq<nat>, x: T)
    requires Picks(s, keep, at)
    ensures Picks(s + [x], keep, if keep(x) then at + [|s|] else at)
  {
    var t := s + [x];
    var more := if keep(x) then at + [|s|] else at;
    forall i | 0 <= i < |t| && keep(t[i])
      ensures i in more
    {
      if i < |s| {
        assert i in at;
        var a :| 0 <= a < |at| && at[a] == i;
        assert more[a] == i;
      } else {
        assert more[|at|] == i;
      }
    }
  }
}
