/** Walks, reachability and acyclicity in a directed graph whose edges are given by a relation. */
module Graph {

  type Edges = (nat, nat) -> bool

  ghost predicate IsWalk(e: Edges, p: seq<nat>) {
    |p| > 0 && forall i :: 0 <= i < |p| - 1 ==> e(p[i], p[i + 1])
  }

  ghost predicate IsWalkFromTo(e: Edges, p: seq<nat>, u: nat, v: nat) {
    IsWalk(e, p) && p[0] == u && p[|p| - 1] == v
  }

  /** There is a walk, possibly of no edges, from u to v. */
  ghost predicate Reaches(e: Edges, u: nat, v: nat) {
    exists p :: IsWalkFromTo(e, p, u, v)
  }

  /** There is a walk of at least one edge from u to v. */
  ghost predicate HasPath(e: Edges, u: nat, v: nat) {
    exists w :: e(u, w) && Reaches(e, w, v)
  }

  ghost predicate Acyclic(e: Edges) {
    forall v :: !HasPath(e, v, v)
  }

  ghost predicate SubGraph(e: Edges, f: Edges) {
    forall u, v :: e(u, v) ==> f(u, v)
  }

  lemma ReachesSelf(e: Edges, u: nat)
    ensures Reaches(e, u, u)
  {
    assert IsWalkFromTo(e, [u], u, u);
  }

  lemma ReachesTrans(e: Edges, u: nat, v: nat, w: nat)
    requires Reaches(e, u, v) && Reaches(e, v, w)
    ensures Reaches(e, u, w)
  {
    var p :| IsWalkFromTo(e, p, u, v);
    var q :| IsWalkFromTo(e, q, v, w);
    var r := p + q[1..];
    assert forall i :: 0 <= i < |r| - 1 ==> e(r[i], r[i + 1]) by {
      forall i | 0 <= i < |r| - 1
        ensures e(r[i], r[i + 1])
      {
        if i >= |p| - 1 {
          assert r[i] == q[i - |p| + 1] && r[i + 1] == q[i - |p| + 2];
        }
      }
    }
    assert IsWalkFromTo(e, r, u, w);
  }

  lemma EdgeReaches(e: Edges, u: nat, v: nat)
    requires e(u, v)
    ensures Reaches(e, u, v)
  {
    assert IsWalkFromTo(e, [u, v], u, v);
  }

  lemma EdgeThenReaches(e: Edges, u: nat, w: nat, v: nat)
    requires e(u, w) && Reaches(e, w, v)
    ensures HasPath(e, u, v)
  {
  }

  lemma PathReaches(e: Edges, u: nat, v: nat)
    requires HasPath(e, u, v)
    ensures Reaches(e, u, v)
  {
    var w :| e(u, w) && Reaches(e, w, v);
    EdgeReaches(e, u, w);
    ReachesTrans(e, u, w, v);
  }

  lemma ReachesSplit(e: Edges, u: nat, v: nat)
    requires Reaches(e, u, v)
    ensures u == v || HasPath(e, u, v)
  {
    var p :| IsWalkFromTo(e, p, u, v);
    if |p| > 1 {
      assert IsWalkFromTo(e, p[1..], p[1], v);
    }
  }

  /** A path may be extended on the left by a walk. */
  lemma ReachesThenPath(e: Edges, u: nat, v: nat, w: nat)
    requires Reaches(e, u, v) && HasPath(e, v, w)
    ensures HasPath(e, u, w)
  {
    ReachesSplit(e, u, v);
    if u != v {
      PathReaches(e, v, w);
      var x :| e(u, x) && Reaches(e, x, v);
      ReachesTrans(e, x, v, w);
    }
  }

  lemma ReachesMono(e: Edges, f: Edges, u: nat, v: nat)
    requires SubGraph(e, f) && Reaches(e, u, v)
    ensures Reaches(f, u, v)
  {
    var p :| IsWalkFromTo(e, p, u, v);
    assert IsWalkFromTo(f, p, u, v);
  }

  lemma HasPathMono(e: Edges, f: Edges, u: nat, v: nat)
    requires SubGraph(e, f) && HasPath(e, u, v)
    ensures HasPath(f, u, v)
  {
    var w :| e(u, w) && Reaches(e, w, v);
    ReachesMono(e, f, w, v);
  }

  lemma AcyclicAntiMono(e: Edges, f: Edges)
    requires SubGraph(e, f) && Acyclic(f)
    ensures Acyclic(e)
  {
    forall v
      ensures !HasPath(e, v, v)
    {
      if HasPath(e, v, v) {
        HasPathMono(e, f, v, v);
      }
    }
  }

  /** A set closed under the edges holds everything reachable from it. */
  lemma {:induction false} ClosedHoldsWalk(e: Edges, s: set<nat>, p: seq<nat>)
    requires IsWalk(e, p) && p[0] in s
    requires forall u, v :: u in s && e(u, v) ==> v in s
    ensures p[|p| - 1] in s
    decreases |p|
  {
    if |p| > 1 {
      ClosedHoldsWalk(e, s, p[1..]);
    }
  }

  /** A walk in f either avoids the new edge (a, b), or splits at its last use of it. */
  lemma {:induction false} WalkWithNewEdge(e: Edges, f: Edges, a: nat, b: nat, p: seq<nat>)
    requires forall u, v :: f(u, v) ==> e(u, v) || (u == a && v == b)
    requires IsWalk(f, p)
    ensures Reaches(e, p[0], p[|p| - 1]) || (Reaches(e, p[0], a) && Reaches(e, b, p[|p| - 1]))
    decreases |p|
  {
    if |p| == 1 {
      ReachesSelf(e, p[0]);
    } else {
      var q := p[1..];
      WalkWithNewEdge(e, f, a, b, q);
      assert f(p[0], p[1]);
      if e(p[0], p[1]) {
        EdgeReaches(e, p[0], p[1]);
        if Reaches(e, q[0], q[|q| - 1]) {
          ReachesTrans(e, p[0], p[1], p[|p| - 1]);
        } else {
          ReachesTrans(e, p[0], p[1], a);
        }
      } else {
        ReachesSelf(e, a);
        if Reaches(e, q[0], q[|q| - 1]) {
          assert Reaches(e, b, p[|p| - 1]);
        }
      }
    }
  }

  /** Adding the edge (a, b) keeps a graph acyclic when b does not reach a. */
  lemma AddEdgeAcyclic(e: Edges, f: Edges, a: nat, b: nat)
    requires Acyclic(e) && !Reaches(e, b, a)
    requires forall u, v :: f(u, v) ==> e(u, v) || (u == a && v == b)
    ensures Acyclic(f)
  {
    forall v
      ensures !HasPath(f, v, v)
    {
      if HasPath(f, v, v) {
        var w :| f(v, w) && Reaches(f, w, v);
        var p :| IsWalkFromTo(f, p, w, v);
        WalkWithNewEdge(e, f, a, b, p);
        if e(v, w) {
          if Reaches(e, w, v) {
            EdgeThenReaches(e, v, w, v);
          } else {
            EdgeReaches(e, v, w);
            ReachesTrans(e, v, w, a);
            ReachesTrans(e, b, v, a);
          }
        }
      }
    }
  }

  ghost predicate HasSuccessorIn(e: Edges, s: set<nat>, x: nat) {
    exists y :: y in s && e(x, y)
  }

  /** Follows `next` for n steps from u, staying inside s. */
  lemma {:induction false} LongWalk(e: Edges, next: map<nat, nat>, u: nat, n: nat) returns (p: seq<nat>)
    requires u in next && forall x :: x in next ==> next[x] in next && e(x, next[x])
    ensures IsWalk(e, p) && p[0] == u && |p| == n + 1 && forall i :: 0 <= i < |p| ==> p[i] in next
    decreases n
  {
    if n == 0 {
      p := [u];
    } else {
      var q := LongWalk(e, next, next[u], n - 1);
      p := [u] + q;
    }
  }

  function Elements(p: seq<nat>): set<nat> {
    set i | 0 <= i < |p| :: p[i]
  }

  lemma ElementsOfSnoc(p: seq<nat>, x: nat)
    ensures Elements(p + [x]) == Elements(p) + {x}
  {
    var q := p + [x];
    assert q[|p|] == x;
    forall y | y in Elements(p)
      ensures y in Elements(q)
    {
      var i :| 0 <= i < |p| && p[i] == y;
      assert q[i] == y;
    }
  }

  lemma {:induction false} DistinctSize(p: seq<nat>)
    requires forall i, j :: 0 <= i < j < |p| ==> p[i] != p[j]
    ensures |Elements(p)| == |p|
    decreases |p|
  {
    if p == [] {
      assert Elements(p) == {};
    } else {
      var n := |p| - 1;
      DistinctSize(p[..n]);
      assert Elements(p) == Elements(p[..n]) + {p[n]};
      assert p[n] !in Elements(p[..n]);
    }
  }

  lemma {:induction false} SubsetSize(a: set<nat>, b: set<nat>)
    requires a <= b
    ensures |a| <= |b|
    decreases |a|
  {
    if a != {} {
      var x :| x in a;
      SubsetSize(a - {x}, b - {x});
    }
  }

  /** A walk that visits a node twice holds a cycle. */
  lemma RepeatIsCycle(e: Edges, p: seq<nat>, i: nat, j: nat)
    requires IsWalk(e, p) && i < j < |p| && p[i] == p[j]
    ensures !Acyclic(e)
  {
    var q := p[i + 1..j + 1];
    assert IsWalkFromTo(e, q, p[i + 1], p[j]);
    assert e(p[i], p[i + 1]);
    assert HasPath(e, p[i], p[i]);
  }

  /** Pigeonhole: a finite set in which every node has a successor holds a cycle. */
  lemma CycleInside(e: Edges, s: set<nat>)
    requires s != {} && forall x {:trigger HasSuccessorIn(e, s, x)} :: x in s ==> HasSuccessorIn(e, s, x)
    ensures !Acyclic(e)
  {
    var next := map x | x in s :: Successor(e, s, x);
    var u :| u in s;
    var p := LongWalk(e, next, u, |s|);
    if forall i, j :: 0 <= i < j < |p| ==> p[i] != p[j] {
      DistinctSize(p);
      SubsetSize(Elements(p), s);
      assert false;
    }
    var i, j :| 0 <= i < j < |p| && p[i] == p[j];
    RepeatIsCycle(e, p, i, j);
  }

  ghost function Successor(e: Edges, s: set<nat>, x: nat): (y: nat)
    requires HasSuccessorIn(e, s, x)
    ensures y in s && e(x, y)
  {
    var y :| y in s && e(x, y);
    y
  }
}
