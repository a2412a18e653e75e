/** What the two searches over declared dependencies look for. */
module LoaderSearch {
  import opened Basics
  import opened Graph
  import opened LoaderState

  /** v has been expanded: its dependencies miss the target and are queued if they are defined. */
  ghost predicate Expanded(modules: map<Id, Module>, visited: set<Id>, to: Id, v: Id) {
    forall d :: DepEdges(modules)(v, d) ==> d != to && (d in modules ==> d in visited)
  }

  /** A set of expanded nodes has no walk to the target. */
  lemma {:induction false} ExpandedMisses(modules: map<Id, Module>, visited: set<Id>, to: Id, p: seq<nat>)
    requires forall v :: v in visited ==> Expanded(modules, visited, to, v)
    requires IsWalk(DepEdges(modules), p) && |p| >= 2 && p[0] in visited
    ensures p[|p| - 1] != to
    decreases |p|
  {
    assert DepEdges(modules)(p[0], p[1]);
    assert Expanded(modules, visited, to, p[0]);
    if |p| > 2 {
      assert DepEdges(modules)(p[1], p[2]);
      ExpandedMisses(modules, visited, to, p[1..]);
    }
  }

  lemma ExpandedHasNoPath(modules: map<Id, Module>, visited: set<Id>, from: Id, to: Id)
    requires forall v :: v in visited ==> Expanded(modules, visited, to, v)
    requires from in visited
    ensures !HasPath(DepEdges(modules), from, to)
  {
    var e := DepEdges(modules);
    if HasPath(e, from, to) {
      var w :| e(from, w) && Reaches(e, w, to);
      var p :| IsWalkFromTo(e, p, w, to);
      ExpandedMisses(modules, visited, to, [from] + p);
    }
  }

  /** The search state: queued nodes are reached, and nodes that left the queue, `current` apart, are expanded. */
  ghost predicate Searching(modules: map<Id, Module>, from: Id, to: Id, inQueue: set<Id>, queue: seq<Id>,
                            current: set<Id>) {
    && from in inQueue && inQueue <= modules.Keys
    && (forall v :: v in queue ==> v in inQueue)
    && (forall v :: v in inQueue ==> Reaches(DepEdges(modules), from, v))
    && (forall v :: v in inQueue && v !in queue && v !in current ==> Expanded(modules, inQueue, to, v))
  }

  lemma SearchStart(modules: map<Id, Module>, from: Id, to: Id)
    requires from in modules
    ensures Searching(modules, from, to, {from}, [from], {})
  {
    ReachesSelf(DepEdges(modules), from);
  }

  lemma SearchHit(modules: map<Id, Module>, from: Id, to: Id, v: Id)
    requires Reaches(DepEdges(modules), from, v) && DepEdges(modules)(v, to)
    ensures HasPath(DepEdges(modules), from, to)
  {
    var e := DepEdges(modules);
    ReachesSelf(e, to);
    EdgeThenReaches(e, v, to, to);
    ReachesThenPath(e, from, v, to);
  }

  lemma SearchPush(modules: map<Id, Module>, from: Id, to: Id, inQueue: set<Id>, queue: seq<Id>, v: Id, d: Id)
    requires Searching(modules, from, to, inQueue, queue, {v}) && v in inQueue
    requires DepEdges(modules)(v, d) && d in modules
    ensures Searching(modules, from, to, inQueue + {d}, queue + [d], {v})
  {
    EdgeReaches(DepEdges(modules), v, d);
    ReachesTrans(DepEdges(modules), from, v, d);
    forall x | x in inQueue && x !in queue && x != v
      ensures Expanded(modules, inQueue + {d}, to, x)
    {
      assert Expanded(modules, inQueue, to, x);
    }
  }

  lemma SearchNext(modules: map<Id, Module>, from: Id, to: Id, inQueue: set<Id>, queue: seq<Id>, v: Id)
    requires Searching(modules, from, to, inQueue, queue, {v})
    requires v in modules && modules[v].deps.Some? ==>
               forall j :: 0 <= j < |modules[v].deps.value| ==>
                 var d := modules[v].deps.value[j].Key(); d != to && (d in modules ==> d in inQueue)
    ensures Searching(modules, from, to, inQueue, queue, {})
  {
    assert Expanded(modules, inQueue, to, v);
  }

  /** A walk of exactly n edges starts here, or one of at most n edges leads to the target. */
  ghost predicate WalkWithin(e: Edges, from: Id, to: Id, n: nat) {
    exists p :: IsWalk(e, p) && p[0] == from && (|p| == n + 1 || (|p| <= n && p[|p| - 1] == to))
  }

  lemma WalkWithinHere(e: Edges, from: Id, to: Id, n: nat)
    requires from == to || n == 0
    ensures WalkWithin(e, from, to, n)
  {
    var p := [from];
    assert IsWalk(e, p) && p[0] == from && p[|p| - 1] == from;
  }

  lemma WalkWithinStep(e: Edges, from: Id, mid: Id, to: Id, n: nat)
    requires e(from, mid) && WalkWithin(e, mid, to, n)
    ensures WalkWithin(e, from, to, n + 1)
  {
    var p :| IsWalk(e, p) && p[0] == mid && (|p| == n + 1 || (|p| <= n && p[|p| - 1] == to));
    var q := [from] + p;
    assert IsWalk(e, q) && q[0] == from && q[|q| - 1] == p[|p| - 1];
  }

  lemma WalkWithinInverse(e: Edges, from: Id, to: Id, n: nat) returns (mid: Id)
    requires WalkWithin(e, from, to, n) && from != to && n > 0
    ensures e(from, mid) && WalkWithin(e, mid, to, n - 1)
  {
    var p :| IsWalk(e, p) && p[0] == from && (|p| == n + 1 || (|p| <= n && p[|p| - 1] == to));
    mid := p[1];
    var q := p[1..];
    assert IsWalk(e, q) && q[0] == mid && q[|q| - 1] == p[|p| - 1];
  }

  /** Wherever there is a path, a walk within any bound exists. */
  lemma PathIsWithin(e: Edges, from: Id, to: Id, n: nat)
    requires HasPath(e, from, to)
    ensures WalkWithin(e, from, to, n)
  {
    PathReaches(e, from, to);
    var p :| IsWalkFromTo(e, p, from, to);
    if |p| > n {
      var q := p[..n + 1];
      assert IsWalk(e, q) && q[0] == from && |q| == n + 1;
    }
  }

  /** The reverse of a walk, as the source builds it: the starting node comes last. */
  ghost predicate IsReverseWalk(e: Edges, p: seq<nat>) {
    |p| > 0 && forall i :: 0 <= i < |p| - 1 ==> e(p[i + 1], p[i])
  }

  // ---------- the search that spreads a load error ----------

  /** Every waiter of v has been seen. */
  ghost predicate Spread(inverse: map<Id, seq<Id>>, seen: set<Id>, v: Id) {
    v in inverse ==> forall x :: x in inverse[v] ==> x in seen
  }

  /** One of the first nodes told, up to the q-th, has x among its waiters. */
  ghost predicate ToldBy(inverse: map<Id, seq<Id>>, told: seq<Id>, q: int, x: Id) {
    exists p :: 0 <= p <= q && p < |told| && WaiterEdges(inverse)(told[p], x)
  }

  /** Nodes come in the order in which those they wait for are told, and the first is f. */
  ghost predicate InTurn(inverse: map<Id, seq<Id>>, f: Id, told: seq<Id>, queue: seq<Id>) {
    var all := told + queue;
    && all != [] && all[0] == f
    && (forall i :: 0 < i < |all| ==> ToldBy(inverse, told, |told| - 1, all[i]))
    && (forall i, j, q :: 0 < i < j < |all| && 0 <= q < |told| && WaiterEdges(inverse)(told[q], all[j]) ==>
          ToldBy(inverse, told, q, all[i]))
  }

  lemma TurnTaken(inverse: map<Id, seq<Id>>, f: Id, told: seq<Id>, queue: seq<Id>)
    requires InTurn(inverse, f, told, queue) && queue != []
    ensures InTurn(inverse, f, told + [queue[0]], queue[1..])
  {
    var all, more := told + queue, told + [queue[0]];
    assert more + queue[1..] == all;
    forall i | 0 < i < |all| ensures ToldBy(inverse, more, |told| - 1, all[i]) {
      StillToldBy(inverse, told, more, |told| - 1, all[i]);
    }
    forall i, j, q | 0 < i < j < |all| && 0 <= q < |more| && WaiterEdges(inverse)(more[q], all[j])
      ensures ToldBy(inverse, more, q, all[i])
    {
      if q < |told| {
        assert WaiterEdges(inverse)(told[q], all[j]);
        StillToldBy(inverse, told, more, q, all[i]);
      } else {
        StillToldBy(inverse, told, more, |told| - 1, all[i]);
      }
    }
  }

  lemma StillToldBy(inverse: map<Id, seq<Id>>, told: seq<Id>, more: seq<Id>, q: int, x: Id)
    requires told <= more && ToldBy(inverse, told, q, x)
    ensures ToldBy(inverse, more, q, x)
  {
    var p :| 0 <= p <= q && p < |told| && WaiterEdges(inverse)(told[p], x);
    assert WaiterEdges(inverse)(more[p], x);
  }

  /** A new waiter of the node told last takes its place at the end. */
  lemma TurnQueued(inverse: map<Id, seq<Id>>, f: Id, told: seq<Id>, queue: seq<Id>, x: Id)
    requires InTurn(inverse, f, told, queue) && told != [] && WaiterEdges(inverse)(told[|told| - 1], x)
    requires forall q :: 0 <= q < |told| - 1 ==> !WaiterEdges(inverse)(told[q], x)
    ensures InTurn(inverse, f, told, queue + [x])
  {
    var all, next := told + queue, told + (queue + [x]);
    assert next == all + [x];
    forall i | 0 < i < |next| ensures ToldBy(inverse, told, |told| - 1, next[i]) {
      assert i < |all| ==> next[i] == all[i];
    }
    forall i, j, q | 0 < i < j < |next| && 0 <= q < |told| && WaiterEdges(inverse)(told[q], next[j])
      ensures ToldBy(inverse, told, q, next[i])
    {
      assert next[i] == all[i];
      if j < |all| {
        assert next[j] == all[j];
      }
    }
  }

  /** An order that lists, once each and in turn, what the error of f reaches. */
  ghost predicate ReachedInTurn(inverse: map<Id, seq<Id>>, f: Id, order: seq<Id>) {
    && (forall i, j :: 0 <= i < j < |order| ==> order[i] != order[j])
    && (forall x :: x in order <==> Reaches(WaiterEdges(inverse), f, x))
    && InTurn(inverse, f, order, [])
  }

  lemma EarlierParent(inverse: map<Id, seq<Id>>, f: Id, order: seq<Id>, i: nat, j: nat, q: nat) returns (p: nat)
    requires InTurn(inverse, f, order, []) && 0 < i < j < |order| && q < |order|
    requires WaiterEdges(inverse)(order[q], order[j])
    ensures p <= q && WaiterEdges(inverse)(order[p], order[i])
  {
    assert order + [] == order;
    assert ToldBy(inverse, order, q, order[i]);
    p :| 0 <= p <= q && p < |order| && WaiterEdges(inverse)(order[p], order[i]);
  }

  lemma WalkButLast(e: Edges, f: Id, walk: seq<Id>, x: Id)
    requires IsWalkFromTo(e, walk, f, x) && f != x
    ensures |walk| > 1 && IsWalkFromTo(e, walk[..|walk| - 1], f, walk[|walk| - 2]) && e(walk[|walk| - 2], x)
  {
  }

  lemma WalkOneMore(e: Edges, f: Id, walk: seq<Id>, x: Id, y: Id)
    requires IsWalkFromTo(e, walk, f, x) && e(x, y)
    ensures IsWalkFromTo(e, walk + [y], f, y)
  {
  }

  /** Told in turn is told nearest first: what comes earlier is reached by a walk that is no longer. */
  lemma {:induction false} NearestFirst(inverse: map<Id, seq<Id>>, f: Id, order: seq<Id>, i: nat, j: nat, walk: seq<Id>)
    returns (shorter: seq<Id>)
    requires ReachedInTurn(inverse, f, order) && i <= j < |order|
    requires IsWalkFromTo(WaiterEdges(inverse), walk, f, order[j])
    ensures IsWalkFromTo(WaiterEdges(inverse), shorter, f, order[i]) && |shorter| <= |walk|
    decreases |walk|
  {
    var e := WaiterEdges(inverse);
    if i == j {
      return walk;
    }
    assert (order + [])[0] == f;
    if i == 0 {
      return [f];
    }
    WalkButLast(e, f, walk, order[j]);
    var before, y := walk[..|walk| - 1], walk[|walk| - 2];
    assert Reaches(e, f, y);
    var q :| 0 <= q < |order| && order[q] == y;
    var p := EarlierParent(inverse, f, order, i, j, q);
    var s := NearestFirst(inverse, f, order, p, q, before);
    WalkOneMore(e, f, s, order[p], order[i]);
    return s + [order[i]];
  }

  /** Nodes are seen once; those told already, `current` apart, have passed the error on. */
  ghost predicate PassingOn(inverse: map<Id, seq<Id>>, f: Id, seen: set<Id>, told: seq<Id>, queue: seq<Id>,
                            current: set<Id>) {
    && f in seen
    && (forall i, j :: 0 <= i < j < |told + queue| ==> (told + queue)[i] != (told + queue)[j])
    && (forall v :: v in seen <==> v in told + queue)
    && (forall v :: v in seen ==> Reaches(WaiterEdges(inverse), f, v))
    && (forall v :: v in told && v !in current ==> Spread(inverse, seen, v))
  }

  ghost predicate Spreading(inverse: map<Id, seq<Id>>, f: Id, seen: set<Id>, told: seq<Id>, queue: seq<Id>,
                            current: set<Id>) {
    PassingOn(inverse, f, seen, told, queue, current) && InTurn(inverse, f, told, queue)
  }

  lemma SpreadStart(inverse: map<Id, seq<Id>>, f: Id)
    ensures Spreading(inverse, f, {f}, [], [f], {})
  {
    ReachesSelf(WaiterEdges(inverse), f);
  }

  lemma SpreadTake(inverse: map<Id, seq<Id>>, f: Id, seen: set<Id>, told: seq<Id>, queue: seq<Id>)
    requires Spreading(inverse, f, seen, told, queue, {}) && queue != []
    ensures Spreading(inverse, f, seen, told + [queue[0]], queue[1..], {queue[0]}) && queue[0] !in told
  {
    PassTake(inverse, f, seen, told, queue);
    TurnTaken(inverse, f, told, queue);
  }

  lemma PassTake(inverse: map<Id, seq<Id>>, f: Id, seen: set<Id>, told: seq<Id>, queue: seq<Id>)
    requires PassingOn(inverse, f, seen, told, queue, {}) && queue != []
    ensures PassingOn(inverse, f, seen, told + [queue[0]], queue[1..], {queue[0]}) && queue[0] !in told
  {
    assert (told + queue)[|told|] == queue[0];
    assert forall i :: 0 <= i < |told| ==> (told + queue)[i] == told[i];
    assert told + [queue[0]] + queue[1..] == told + queue;
  }

  lemma SpreadPush(inverse: map<Id, seq<Id>>, f: Id, seen: set<Id>, told: seq<Id>, queue: seq<Id>, v: Id, x: Id)
    requires Spreading(inverse, f, seen, told, queue, {v}) && v in seen && x !in seen
    requires WaiterEdges(inverse)(v, x) && told != [] && told[|told| - 1] == v
    ensures Spreading(inverse, f, seen + {x}, told, queue + [x], {v})
  {
    PassPush(inverse, f, seen, told, queue, v, x);
    OnlyLastWaits(inverse, f, seen, told, queue, v, x);
    TurnQueued(inverse, f, told, queue, x);
  }

  lemma PassPush(inverse: map<Id, seq<Id>>, f: Id, seen: set<Id>, told: seq<Id>, queue: seq<Id>, v: Id, x: Id)
    requires PassingOn(inverse, f, seen, told, queue, {v}) && v in seen && x !in seen
    requires WaiterEdges(inverse)(v, x)
    ensures PassingOn(inverse, f, seen + {x}, told, queue + [x], {v})
  {
    assert told + (queue + [x]) == (told + queue) + [x];
    EdgeReaches(WaiterEdges(inverse), v, x);
    ReachesTrans(WaiterEdges(inverse), f, v, x);
    forall y | y in told && y != v
      ensures Spread(inverse, seen + {x}, y)
    {
      assert Spread(inverse, seen, y);
    }
  }

  lemma OnlyLastWaits(inverse: map<Id, seq<Id>>, f: Id, seen: set<Id>, told: seq<Id>, queue: seq<Id>, v: Id, x: Id)
    requires PassingOn(inverse, f, seen, told, queue, {v}) && x !in seen && told != [] && told[|told| - 1] == v
    ensures forall q :: 0 <= q < |told| - 1 ==> !WaiterEdges(inverse)(told[q], x)
  {
    forall q | 0 <= q < |told| - 1 ensures !WaiterEdges(inverse)(told[q], x) {
      assert (told + queue)[q] == told[q] && (told + queue)[|told| - 1] == v;
      assert Spread(inverse, seen, told[q]);
    }
  }

  lemma SpreadDone(inverse: map<Id, seq<Id>>, f: Id, seen: set<Id>, told: seq<Id>)
    requires Spreading(inverse, f, seen, told, [], {})
    ensures ReachedInTurn(inverse, f, told)
  {
    assert told + [] == told;
    var e := WaiterEdges(inverse);
    forall x | Reaches(e, f, x)
      ensures x in seen
    {
      var p :| IsWalkFromTo(e, p, f, x);
      forall u, v | u in seen && e(u, v)
        ensures v in seen
      {
        assert Spread(inverse, seen, u);
      }
      ClosedHoldsWalk(e, seen, p);
    }
  }
}
