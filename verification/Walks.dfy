/** Undirected walks over labelled edges, and shortest distance defined from them. */
module Walks {

  datatype Edge = Edge(source: string, target: string, relation: string)

  predicate Joins(e: Edge, u: string, v: string) {
    (e.source == u && e.target == v) || (e.source == v && e.target == u)
  }

  ghost predicate Adjacent(edges: seq<Edge>, u: string, v: string) {
    exists e :: e in edges && Joins(e, u, v)
  }

  ghost predicate IsWalk(edges: seq<Edge>, p: seq<string>) {
    && p != []
    && forall i :: 0 <= i < |p| - 1 ==> Adjacent(edges, p[i], p[i + 1])
  }

  ghost predicate IsWalkFromTo(edges: seq<Edge>, p: seq<string>, s: string, v: string, k: nat) {
    && IsWalk(edges, p)
    && |p| == k + 1
    && p[0] == s
    && p[k] == v
  }

  /** Some walk of exactly `k` edges leads from `s` to `v`. */
  ghost predicate Reaches(edges: seq<Edge>, s: string, v: string, k: nat) {
    exists p :: IsWalkFromTo(edges, p, s, v, k)
  }

  /** `k` is the length of a shortest walk from `s` to `v`. */
  ghost predicate IsDistance(edges: seq<Edge>, s: string, v: string, k: nat) {
    && Reaches(edges, s, v, k)
    && forall j :: 0 <= j < k ==> !Reaches(edges, s, v, j)
  }

  /** `hops` holds exactly the nodes at most `depth` away, each with its distance. */
  ghost predicate ExactHops(edges: seq<Edge>, s: string, depth: nat, hops: map<string, nat>) {
    && (forall v :: v in hops ==> hops[v] <= depth && IsDistance(edges, s, v, hops[v]))
    && (forall v, k :: 0 <= k <= depth && IsDistance(edges, s, v, k) ==> v in hops)
  }

  lemma ReachesSelf(edges: seq<Edge>, s: string)
    ensures Reaches(edges, s, s, 0)
  {
    assert IsWalkFromTo(edges, [s], s, s, 0);
  }

  lemma ExtendWalk(edges: seq<Edge>, s: string, u: string, v: string, k: nat)
    requires Reaches(edges, s, u, k) && Adjacent(edges, u, v)
    ensures Reaches(edges, s, v, k + 1)
  {
    var p :| IsWalkFromTo(edges, p, s, u, k);
    var q := p + [v];
    forall i | 0 <= i < |q| - 1
      ensures Adjacent(edges, q[i], q[i + 1])
    {
      if i < |p| - 1 {
        assert Adjacent(edges, p[i], p[i + 1]);
      }
    }
    assert IsWalkFromTo(edges, q, s, v, k + 1);
  }

  lemma LastStep(edges: seq<Edge>, s: string, v: string, k: nat) returns (u: string)
    requires k > 0 && Reaches(edges, s, v, k)
    ensures Reaches(edges, s, u, k - 1) && Adjacent(edges, u, v)
  {
    var p :| IsWalkFromTo(edges, p, s, v, k);
    u := p[k - 1];
    assert Adjacent(edges, p[k - 1], p[k - 1 + 1]);
    assert IsWalkFromTo(edges, p[..k], s, u, k - 1) by {
      forall i | 0 <= i < k - 1
        ensures Adjacent(edges, p[..k][i], p[..k][i + 1])
      {
        assert Adjacent(edges, p[i], p[i + 1]);
      }
    }
  }

  lemma ReverseWalk(edges: seq<Edge>, s: string, v: string, k: nat)
    requires Reaches(edges, s, v, k)
    ensures Reaches(edges, v, s, k)
  {
    var p :| IsWalkFromTo(edges, p, s, v, k);
    var q := seq(k + 1, i requires 0 <= i <= k => p[k - i]);
    forall i | 0 <= i < |q| - 1
      ensures Adjacent(edges, q[i], q[i + 1])
    {
      var j := k - i - 1;
      assert Adjacent(edges, p[j], p[j + 1]);
      var e :| e in edges && Joins(e, p[j], p[j + 1]);
      assert Joins(e, q[i], q[i + 1]);
    }
    assert IsWalkFromTo(edges, q, v, s, k);
  }

  /** Edges are followed both ways: an invoice is as far from its customer as the
      customer is from the invoice. */
  lemma DistanceIsSymmetric(edges: seq<Edge>, s: string, v: string, k: nat)
    requires IsDistance(edges, s, v, k)
    ensures IsDistance(edges, v, s, k)
  {
    ReverseWalk(edges, s, v, k);
    forall j | 0 <= j < k
      ensures !Reaches(edges, v, s, j)
    {
      if Reaches(edges, v, s, j) {
        ReverseWalk(edges, v, s, j);
      }
    }
  }

  lemma DistanceIsUnique(edges: seq<Edge>, s: string, v: string, j: nat, k: nat)
    requires IsDistance(edges, s, v, j) && IsDistance(edges, s, v, k)
    ensures j == k
  {
  }

  /** A smaller depth gives the part of the larger answer that lies within it, hops unchanged. */
  lemma DeeperExtends(edges: seq<Edge>, s: string, d1: nat, h1: map<string, nat>, d2: nat, h2: map<string, nat>)
    requires d1 <= d2 && ExactHops(edges, s, d1, h1) && ExactHops(edges, s, d2, h2)
    ensures forall v :: v in h1 <==> v in h2 && h2[v] <= d1
    ensures forall v :: v in h1 ==> h1[v] == h2[v]
  {
    forall v | v in h1
      ensures v in h2 && h2[v] == h1[v]
    {
      assert IsDistance(edges, s, v, h1[v]);
      DistanceIsUnique(edges, s, v, h1[v], h2[v]);
    }
    forall v | v in h2 && h2[v] <= d1
      ensures v in h1
    {
      assert IsDistance(edges, s, v, h2[v]);
    }
  }
}
