/** The order in which a bundle emits modules, and the bundle itself. */
module Bundle {
  import opened Basics
  import opened Graph
  import opened Sums
  import opened Vlq
  import opened Mappings
  import opened SourceMaps
  import opened SourceMapBuilder

  type ModuleId = nat

  /** The modules of a loader: each with its dependencies, all of them loaded. */
  type Modules = map<ModuleId, seq<ModuleId>>

  ghost predicate Closed(modules: Modules) {
    forall m, d :: m in modules && d in modules[m] ==> d in modules
  }

  ghost function Deps(modules: Modules): Edges {
    (m: nat, d: nat) => m in modules && d in modules[m]
  }

  /** d was emitted before position i, or leads back to the module there. */
  ghost predicate Ordered(modules: Modules, emitted: seq<ModuleId>, i: nat)
    requires i < |emitted|
  {
    emitted[i] in modules &&
    forall d {:trigger d in modules[emitted[i]]} :: d in modules[emitted[i]] ==>
      d in emitted[..i] || HasPath(Deps(modules), d, emitted[i])
  }

  /** One of the dependencies up to the i-th leads to x. */
  ghost predicate EarlierLeads(modules: Modules, deps: seq<ModuleId>, i: nat, x: ModuleId) {
    exists k :: 0 <= k <= i && k < |deps| && Reaches(Deps(modules), deps[k], x)
  }

  /** Some module has a dependency that leads to x, and later in its list one that leads to m. */
  ghost predicate ComesEarlier(modules: Modules, root: ModuleId, x: ModuleId, m: ModuleId) {
    exists y, k, l :: y in modules && Reaches(Deps(modules), root, y) && LeadsFirst(modules, modules[y], k, l, x, m)
  }

  ghost predicate LeadsFirst(modules: Modules, deps: seq<ModuleId>, k: int, l: int, x: ModuleId, m: ModuleId) {
    0 <= k < l < |deps| && Reaches(Deps(modules), deps[k], x) && Reaches(Deps(modules), deps[l], m)
  }

  /**
   The dependencies of the module at p come in list order, but for one that an earlier dependency leads to, or that
   another module's list puts before this module.
   */
  ghost predicate Listed(modules: Modules, root: ModuleId, emitted: seq<ModuleId>, p: nat)
    requires p < |emitted|
  {
    && emitted[p] in modules
    && var deps := modules[emitted[p]];
       forall i, j, a, b {:trigger deps[i], deps[j], emitted[a], emitted[b]} ::
         0 <= i < j < |deps| && 0 <= b < a < p && emitted[a] == deps[i] && emitted[b] == deps[j] ==>
           EarlierLeads(modules, deps, i, deps[j]) || ComesEarlier(modules, root, deps[j], emitted[p])
  }

  lemma ListedKept(modules: Modules, root: ModuleId, emitted: seq<ModuleId>, more: seq<ModuleId>, p: nat)
    requires p < |emitted| && emitted <= more && Listed(modules, root, emitted, p)
    ensures Listed(modules, root, more, p)
  {
    assert forall b :: 0 <= b <= p ==> more[b] == emitted[b];
  }

  /** All that is emitted before m is visited comes earlier than m in some list. */
  ghost predicate AllEarlier(modules: Modules, root: ModuleId, emitted: seq<ModuleId>, m: ModuleId) {
    forall b {:trigger emitted[b]} :: 0 <= b < |emitted| ==> ComesEarlier(modules, root, emitted[b], m)
  }

  /** Between visits: visited modules are emitted or being visited, and emitted ones have all dependencies visited. */
  ghost predicate Visiting(modules: Modules, root: ModuleId, visited: set<ModuleId>, emitted: seq<ModuleId>,
                           open: set<ModuleId>)
  {
    && visited <= modules.Keys
    && (forall m :: m in visited <==> m in emitted || m in open)
    && (forall m :: m in open ==> m !in emitted)
    && Distinct(emitted)
    && (forall i {:trigger Ordered(modules, emitted, i)} :: 0 <= i < |emitted| ==> Ordered(modules, emitted, i))
    && (forall i {:trigger Listed(modules, root, emitted, i)} ::
          0 <= i < |emitted| ==> Listed(modules, root, emitted, i))
    && (forall m, d :: m in emitted && m in modules && d in modules[m] ==> d in visited)
  }

  /** The visits of the first dependencies: each emits, between two marks, what its dependency leads to. */
  ghost predicate Marked(modules: Modules, deps: seq<ModuleId>, emitted: seq<ModuleId>, marks: seq<nat>,
                         open: set<ModuleId>)
  {
    && 0 < |marks| <= |deps| + 1 && marks[|marks| - 1] == |emitted|
    && (forall k {:trigger marks[k]} :: 0 <= k < |marks| - 1 ==>
          VisitedBetween(modules, deps[k], emitted, marks[k], marks[k + 1], open))
  }

  ghost predicate VisitedBetween(modules: Modules, d: ModuleId, emitted: seq<ModuleId>, from: nat, to: nat,
                                 open: set<ModuleId>)
  {
    && from <= to <= |emitted|
    && (forall b {:trigger emitted[b]} :: from <= b < to ==> Reaches(Deps(modules), d, emitted[b]))
    && (d in emitted[..to] || d in open)
  }

  lemma MarkNext(modules: Modules, deps: seq<ModuleId>, emitted: seq<ModuleId>, marks: seq<nat>, open: set<ModuleId>,
                 more: seq<ModuleId>)
    requires Marked(modules, deps, emitted, marks, open) && |marks| <= |deps| && emitted <= more
    requires VisitedBetween(modules, deps[|marks| - 1], more, |emitted|, |more|, open)
    ensures Marked(modules, deps, more, marks + [|more|], open)
  {
    var next := marks + [|more|];
    forall k {:trigger next[k]} | 0 <= k < |next| - 1
      ensures VisitedBetween(modules, deps[k], more, next[k], next[k + 1], open)
    {
      if k < |marks| - 1 {
        assert VisitedBetween(modules, deps[k], emitted, marks[k], marks[k + 1], open);
        assert more[..marks[k + 1]] == emitted[..marks[k + 1]];
      }
    }
  }

  /** What is emitted up to the end of the i-th visit is reached from one of the dependencies up to it. */
  lemma {:induction false} BeforeMark(modules: Modules, deps: seq<ModuleId>, emitted: seq<ModuleId>, marks: seq<nat>,
                                      open: set<ModuleId>, i: nat, b: nat)
    requires Marked(modules, deps, emitted, marks, open) && i + 1 < |marks| && marks[0] <= b < marks[i + 1]
    ensures b < |emitted| && EarlierLeads(modules, deps, i, emitted[b])
    decreases i
  {
    assert VisitedBetween(modules, deps[i], emitted, marks[i], marks[i + 1], open);
    if b < marks[i] {
      BeforeMark(modules, deps, emitted, marks, open, i - 1, b);
      var k :| 0 <= k <= i - 1 && k < |deps| && Reaches(Deps(modules), deps[k], emitted[b]);
    }
  }

  lemma MarkedIsVisited(modules: Modules, root: ModuleId, visited: set<ModuleId>, deps: seq<ModuleId>,
                        emitted: seq<ModuleId>, marks: seq<nat>, open: set<ModuleId>)
    requires Marked(modules, deps, emitted, marks, open) && |marks| == |deps| + 1
    requires Visiting(modules, root, visited, emitted, open)
    ensures forall d :: d in deps ==> d in visited
  {
    forall d | d in deps ensures d in visited {
      var k :| 0 <= k < |deps| && deps[k] == d;
      assert VisitedBetween(modules, d, emitted, marks[k], marks[k + 1], open);
    }
  }

  lemma MarksGiveListOrder(modules: Modules, root: ModuleId, emitted: seq<ModuleId>, marks: seq<nat>,
                           open: set<ModuleId>, m: ModuleId)
    requires m in modules && Marked(modules, modules[m], emitted, marks, open) && |marks| == |modules[m]| + 1
    requires marks[0] <= |emitted| && Distinct(emitted) && forall x :: x in open ==> x !in emitted
    requires AllEarlier(modules, root, emitted[..marks[0]], m)
    ensures Listed(modules, root, emitted + [m], |emitted|)
  {
    var deps, next, p := modules[m], emitted + [m], |emitted|;
    forall i, j, a, b | 0 <= i < j < |deps| && 0 <= b < a < p && next[a] == deps[i] && next[b] == deps[j]
      ensures EarlierLeads(modules, deps, i, deps[j]) || ComesEarlier(modules, root, deps[j], m)
    {
      if b < marks[0] {
        assert emitted[..marks[0]][b] == deps[j];
      } else {
        InBlock(modules, deps, emitted, marks, open, i, a);
        BeforeMark(modules, deps, emitted, marks, open, i, b);
      }
    }
  }

  /** A dependency that is emitted is emitted by the end of its own visit. */
  lemma InBlock(modules: Modules, deps: seq<ModuleId>, emitted: seq<ModuleId>, marks: seq<nat>, open: set<ModuleId>,
                i: nat, a: nat)
    requires Marked(modules, deps, emitted, marks, open) && |marks| == |deps| + 1
    requires Distinct(emitted) && (forall x :: x in open ==> x !in emitted)
    requires i < |deps| && a < |emitted| && emitted[a] == deps[i]
    ensures a < marks[i + 1]
  {
    assert VisitedBetween(modules, deps[i], emitted, marks[i], marks[i + 1], open);
    var c :| 0 <= c < marks[i + 1] && emitted[c] == deps[i];
    assert c == a;
  }

  /** What was emitted before the visit of m and by the visits of its first dependencies comes before the next one. */
  lemma EarlierThanNext(modules: Modules, root: ModuleId, emitted: seq<ModuleId>, marks: seq<nat>,
                        open: set<ModuleId>, m: ModuleId)
    requires m in modules && Marked(modules, modules[m], emitted, marks, open) && |marks| <= |modules[m]|
    requires Reaches(Deps(modules), root, m)
    requires marks[0] <= |emitted| && AllEarlier(modules, root, emitted[..marks[0]], m)
    ensures AllEarlier(modules, root, emitted, modules[m][|marks| - 1])
  {
    var deps, i := modules[m], |marks| - 1;
    EdgeReaches(Deps(modules), m, deps[i]);
    ReachesSelf(Deps(modules), deps[i]);
    forall b | 0 <= b < |emitted| ensures ComesEarlier(modules, root, emitted[b], deps[i]) {
      if b < marks[0] {
        assert emitted[..marks[0]][b] == emitted[b];
        EarlierThrough(modules, root, emitted[b], m, deps[i]);
      } else {
        BeforeMark(modules, deps, emitted, marks, open, i - 1, b);
        var k :| 0 <= k <= i - 1 && k < |deps| && Reaches(Deps(modules), deps[k], emitted[b]);
        assert LeadsFirst(modules, modules[m], k, i, emitted[b], deps[i]);
      }
    }
  }

  lemma EarlierThrough(modules: Modules, root: ModuleId, x: ModuleId, m: ModuleId, d: ModuleId)
    requires ComesEarlier(modules, root, x, m) && Reaches(Deps(modules), m, d)
    ensures ComesEarlier(modules, root, x, d)
  {
    var y, k, l :| y in modules && Reaches(Deps(modules), root, y) && LeadsFirst(modules, modules[y], k, l, x, m);
    ReachesTrans(Deps(modules), modules[y][l], m, d);
    assert LeadsFirst(modules, modules[y], k, l, x, d);
  }

  lemma Emit(modules: Modules, root: ModuleId, visited: set<ModuleId>, emitted: seq<ModuleId>, open: set<ModuleId>,
             m: ModuleId)
    requires Visiting(modules, root, visited, emitted, open + {m}) && m in modules && m !in open
    requires forall d :: d in modules[m] ==> d in visited
    requires forall x :: x in open ==> Reaches(Deps(modules), x, m)
    requires Listed(modules, root, emitted + [m], |emitted|)
    ensures Visiting(modules, root, visited, emitted + [m], open)
  {
    var e := Deps(modules);
    var next := emitted + [m];
    forall i | 0 <= i < |next| ensures Listed(modules, root, next, i) {
      if i < |emitted| {
        ListedKept(modules, root, emitted, next, i);
      }
    }
    forall i | 0 <= i < |next| ensures Ordered(modules, next, i) {
      assert next[..i] == emitted[..i];
      if i < |emitted| {
        assert Ordered(modules, emitted, i);
      } else {
        assert emitted[..i] == emitted;
        forall d | d in modules[m] && d !in emitted ensures HasPath(e, d, m) {
          assert e(m, d);
          if d == m {
            ReachesSelf(e, m);
          } else {
            ReachesSplit(e, d, m);
          }
        }
      }
    }
  }

  /** Everything emitted after `before` is reached from m. */
  ghost predicate NewReached(modules: Modules, m: ModuleId, before: seq<ModuleId>, emitted: seq<ModuleId>) {
    forall b {:trigger emitted[b]} :: |before| <= b < |emitted| ==> Reaches(Deps(modules), m, emitted[b])
  }

  lemma DependencyReached(modules: Modules, m: ModuleId, d: ModuleId, open: set<ModuleId>)
    requires m in modules && d in modules[m] && forall x :: x in open ==> Reaches(Deps(modules), x, m)
    ensures Reaches(Deps(modules), m, d) && forall x :: x in open ==> Reaches(Deps(modules), x, d)
  {
    var e := Deps(modules);
    assert e(m, d);
    EdgeReaches(e, m, d);
    forall x | x in open ensures Reaches(e, x, d) { ReachesTrans(e, x, m, d); }
  }

  lemma NewThrough(modules: Modules, m: ModuleId, d: ModuleId, first: seq<ModuleId>, before: seq<ModuleId>,
                   emitted: seq<ModuleId>)
    requires Reaches(Deps(modules), m, d) && first <= before <= emitted
    requires NewReached(modules, m, first, before) && NewReached(modules, d, before, emitted)
    ensures NewReached(modules, m, first, emitted)
  {
    forall b {:trigger emitted[b]} | |first| <= b < |emitted| ensures Reaches(Deps(modules), m, emitted[b]) {
      if b < |before| {
        assert emitted[b] == before[b];
      } else {
        ReachesTrans(Deps(modules), m, d, emitted[b]);
      }
    }
  }

  lemma VisitMarked(modules: Modules, root: ModuleId, visited: set<ModuleId>, d: ModuleId, before: seq<ModuleId>,
                    emitted: seq<ModuleId>, open: set<ModuleId>)
    requires Visiting(modules, root, visited, emitted, open) && d in visited
    requires before <= emitted && NewReached(modules, d, before, emitted)
    ensures VisitedBetween(modules, d, emitted, |before|, |emitted|, open)
  {
    assert emitted[..|emitted|] == emitted;
  }

  class Bundler {
    const modules: Modules
    const root: ModuleId
    var visited: set<ModuleId>
    var emitted: seq<ModuleId>

    constructor (modules: Modules, root: ModuleId)
      ensures this.modules == modules && this.root == root && visited == {} && emitted == []
    {
      this.modules, this.root := modules, root;
      visited, emitted := {}, [];
    }

    /** Visits the dependencies of a module that has not been visited, then emits it. */
    method Visit(m: ModuleId, ghost open: set<ModuleId>)
      requires Closed(modules) && m in modules && Visiting(modules, root, visited, emitted, open)
      requires Reaches(Deps(modules), root, m) && AllEarlier(modules, root, emitted, m)
      requires forall x :: x in open ==> Reaches(Deps(modules), x, m)
      modifies this
      ensures Visiting(modules, root, visited, emitted, open)
      ensures old(visited) <= visited && m in visited && old(emitted) <= emitted
      ensures NewReached(modules, m, old(emitted), emitted)
      decreases modules.Keys - visited, 0
    {
      if m in visited {
        return;
      }
      visited := visited + {m};
      ReachesSelf(Deps(modules), m);
      ghost var marks := VisitDependencies(m, open + {m});
      assert emitted[..marks[0]] == old(emitted);
      MarksGiveListOrder(modules, root, emitted, marks, open + {m}, m);
      Emit(modules, root, visited, emitted, open, m);
      emitted := emitted + [m];
    }

    method VisitDependencies(m: ModuleId, ghost open: set<ModuleId>) returns (ghost marks: seq<nat>)
      requires Closed(modules) && m in modules && Visiting(modules, root, visited, emitted, open)
      requires Reaches(Deps(modules), root, m) && AllEarlier(modules, root, emitted, m)
      requires forall x :: x in open ==> Reaches(Deps(modules), x, m)
      modifies this
      ensures Visiting(modules, root, visited, emitted, open)
      ensures old(visited) <= visited && old(emitted) <= emitted && forall d :: d in modules[m] ==> d in visited
      ensures |marks| == |modules[m]| + 1 && marks[0] == |old(emitted)|
      ensures Marked(modules, modules[m], emitted, marks, open)
      ensures NewReached(modules, m, old(emitted), emitted)
      decreases modules.Keys - visited, 2
    {
      marks := [|emitted|];
      for i := 0 to |modules[m]|
        invariant Visiting(modules, root, visited, emitted, open) && old(visited) <= visited && old(emitted) <= emitted
        invariant |marks| == i + 1 && marks[0] == |old(emitted)| && Marked(modules, modules[m], emitted, marks, open)
        invariant NewReached(modules, m, old(emitted), emitted)
      {
        assert modules.Keys - visited <= modules.Keys - old(visited);
        marks := VisitNext(m, i, open, marks, old(emitted));
      }
      MarkedIsVisited(modules, root, visited, modules[m], emitted, marks, open);
    }

    method VisitNext(m: ModuleId, i: nat, ghost open: set<ModuleId>, ghost marks: seq<nat>, ghost first: seq<ModuleId>)
      returns (ghost next: seq<nat>)
      requires Closed(modules) && m in modules && i < |modules[m]| && Visiting(modules, root, visited, emitted, open)
      requires forall x :: x in open ==> Reaches(Deps(modules), x, m)
      requires |marks| == i + 1 && Marked(modules, modules[m], emitted, marks, open)
      requires first <= emitted && marks[0] == |first| && NewReached(modules, m, first, emitted)
      requires Reaches(Deps(modules), root, m) && AllEarlier(modules, root, first, m)
      modifies this
      ensures Visiting(modules, root, visited, emitted, open)
      ensures old(visited) <= visited
      ensures next == marks + [|emitted|] && Marked(modules, modules[m], emitted, next, open)
      ensures first <= emitted && NewReached(modules, m, first, emitted)
      decreases modules.Keys - visited, 1
    {
      var d := modules[m][i];
      DependencyReached(modules, m, d, open);
      ReachesTrans(Deps(modules), root, m, d);
      assert emitted[..marks[0]] == first;
      EarlierThanNext(modules, root, emitted, marks, open, m);
      Visit(d, open);
      NewThrough(modules, m, d, first, old(emitted), emitted);
      VisitMarked(modules, root, visited, d, old(emitted), emitted, open);
      MarkNext(modules, modules[m], old(emitted), marks, open, emitted);
      next := marks + [|emitted|];
    }
  }

  /**
   Every module reachable from the root is emitted exactly once, after each dependency that does not lead back to
   it.
   */
  method BundleOrder(modules: Modules, root: ModuleId) returns (order: seq<ModuleId>)
    requires Closed(modules) && root in modules
    ensures Distinct(order)
    ensures forall m :: m in order <==> Reaches(Deps(modules), root, m)
    ensures forall i {:trigger Ordered(modules, order, i)} :: 0 <= i < |order| ==> Ordered(modules, order, i)
    ensures forall i {:trigger Listed(modules, root, order, i)} :: 0 <= i < |order| ==> Listed(modules, root, order, i)
  {
    var bundler := new Bundler(modules, root);
    ReachesSelf(Deps(modules), root);
    bundler.Visit(root, {});
    order := bundler.emitted;
    EmittedIsReachable(modules, root, bundler.visited, order);
  }

  lemma EmittedIsReachable(modules: Modules, root: ModuleId, visited: set<ModuleId>, emitted: seq<ModuleId>)
    requires Closed(modules) && Visiting(modules, root, visited, emitted, {}) && root in visited
    ensures forall m :: Reaches(Deps(modules), root, m) ==> m in emitted
  {
    var e := Deps(modules);
    forall m | Reaches(e, root, m) ensures m in emitted {
      var p :| IsWalkFromTo(e, p, root, m);
      ClosedHoldsWalk(e, visited, p);
    }
  }

  /** Without cycles, every module comes after all of its dependencies. */
  lemma AcyclicIsDependenciesFirst(modules: Modules, order: seq<ModuleId>, i: nat, d: ModuleId)
    requires i < |order| && Ordered(modules, order, i) && Acyclic(Deps(modules)) && d in modules[order[i]]
    ensures d in order[..i]
  {
    var e := Deps(modules);
    assert e(order[i], d);
    if HasPath(e, d, order[i]) {
      PathReaches(e, d, order[i]);
      EdgeThenReaches(e, order[i], d, order[i]);
    }
  }

  /**
   Without cycles, the dependencies of the root come in list order: the earlier one first, unless it or one before it
   leads to the later one.
   */
  lemma RootListOrder(modules: Modules, root: ModuleId, order: seq<ModuleId>, p: nat, i: nat, j: nat, a: nat, b: nat)
    requires p < |order| && order[p] == root && Listed(modules, root, order, p) && Acyclic(Deps(modules))
    requires i < j < |modules[root]| && a < p && b < p
    requires order[a] == modules[root][i] && order[b] == modules[root][j]
    ensures a <= b || EarlierLeads(modules, modules[root], i, modules[root][j])
  {
    if b < a && ComesEarlier(modules, root, modules[root][j], root) {
      var e, x := Deps(modules), modules[root][j];
      var y, k, l :| y in modules && Reaches(e, root, y) && LeadsFirst(modules, modules[y], k, l, x, root);
      assert e(y, modules[y][l]);
      ReachesTrans(e, modules[y][l], root, y);
      EdgeThenReaches(e, y, modules[y][l], y);
    }
  }

  // ---------- the bundle ----------

  ghost predicate AllWellFormed(modules: Modules, sources: map<ModuleId, Source>) {
    modules.Keys <= sources.Keys && forall m :: m in modules ==> WellFormed(sources[m])
  }

  ghost function NameCounts(modules: Modules, sources: map<ModuleId, Source>): map<nat, nat>
    requires modules.Keys <= sources.Keys
  {
    map m | m in modules :: |sources[m].sources|
  }

  ghost predicate AllIn(order: seq<ModuleId>, keys: set<ModuleId>) {
    forall i :: 0 <= i < |order| ==> order[i] in keys
  }

  ghost function TotalOf(counts: map<nat, nat>, order: seq<ModuleId>): nat
    requires AllIn(order, counts.Keys)
  {
    if order == [] then 0 else TotalOf(counts, order[..|order| - 1]) + counts[order[|order| - 1]]
  }

  lemma {:induction false} TotalWithin(counts: map<nat, nat>, less: map<nat, nat>, order: seq<ModuleId>)
    requires AllIn(order, counts.Keys) && AllIn(order, less.Keys) && Distinct(order)
    requires forall m :: m in less && m in counts ==> less[m] == counts[m]
    ensures TotalOf(counts, order) <= Sum(less)
    decreases |order|
  {
    if order != [] {
      var n := |order| - 1;
      SumRemove(less, order[n]);
      TotalWithin(counts, less - {order[n]}, order[..n]);
    }
  }

  ghost function Contents(sources: map<ModuleId, Source>, order: seq<ModuleId>): seq<Byte>
    requires AllIn(order, sources.Keys)
  {
    if order == [] then [] else Contents(sources, order[..|order| - 1]) + sources[order[|order| - 1]].content
  }

  ghost function Meanings(sources: map<ModuleId, Source>, order: seq<ModuleId>): seq<seq<NamedMapping>>
    requires AllIn(order, sources.Keys) && forall i :: 0 <= i < |order| ==> WellFormed(sources[order[i]])
  {
    if order == [] then [] else Meanings(sources, order[..|order| - 1]) + SourceMeaning(sources[order[|order| - 1]])
  }

  /** There is room for the names of the next module. */
  lemma NamesFit(modules: Modules, sources: map<ModuleId, Source>, order: seq<ModuleId>, i: nat)
    requires AllWellFormed(modules, sources) && AllIn(order, modules.Keys) && Distinct(order) && i < |order|
    requires Sum(NameCounts(modules, sources)) <= LIMIT
    ensures var counts := NameCounts(modules, sources);
            && AllIn(order[..i], counts.Keys) && AllIn(order[..i + 1], counts.Keys)
            && TotalOf(counts, order[..i + 1]) == TotalOf(counts, order[..i]) + |sources[order[i]].sources| <= LIMIT
  {
    var counts := NameCounts(modules, sources);
    assert order[..i + 1][..i] == order[..i];
    TotalWithin(counts, counts, order[..i + 1]);
  }

  /** The builder has been given these modules. */
  ghost predicate Built(builder: SourceMapBuilder, modules: Modules, sources: map<ModuleId, Source>,
                        done: seq<ModuleId>)
    requires AllWellFormed(modules, sources) && AllIn(done, modules.Keys)
    reads builder, builder.outputBuffer, builder.mappings, builder.outputBuffer.buffer, builder.mappings.buffer
  {
    && builder.Valid() && builder.IsSound()
    && |builder.sources| <= TotalOf(NameCounts(modules, sources), done)
    && builder.outputBuffer.Contents() == Contents(sources, done)
    && Meaning(builder.mappings.Contents(), builder.sources) == Meanings(sources, done)
  }

  method AddNext(builder: SourceMapBuilder, modules: Modules, sources: map<ModuleId, Source>,
                 order: seq<ModuleId>, i: nat)
    requires AllWellFormed(modules, sources) && AllIn(order, modules.Keys) && Distinct(order) && i < |order|
    requires Sum(NameCounts(modules, sources)) <= LIMIT
    requires AllIn(order[..i], modules.Keys) && Built(builder, modules, sources, order[..i])
    modifies builder, builder.outputBuffer, builder.mappings, builder.outputBuffer.buffer, builder.mappings.buffer
    ensures AllIn(order[..i + 1], modules.Keys) && Built(builder, modules, sources, order[..i + 1])
    ensures builder.outputBuffer.buffer == old(builder.outputBuffer.buffer) || fresh(builder.outputBuffer.buffer)
    ensures builder.mappings.buffer == old(builder.mappings.buffer) || fresh(builder.mappings.buffer)
  {
    NamesFit(modules, sources, order, i);
    assert order[..i + 1][..i] == order[..i];
    builder.AddSource(sources[order[i]]);
  }

  method BuildInOrder(modules: Modules, sources: map<ModuleId, Source>, order: seq<ModuleId>)
    returns (builder: SourceMapBuilder)
    requires AllWellFormed(modules, sources) && AllIn(order, modules.Keys) && Distinct(order)
    requires Sum(NameCounts(modules, sources)) <= LIMIT
    ensures Built(builder, modules, sources, order)
    ensures fresh(builder) && fresh(builder.outputBuffer) && fresh(builder.mappings)
    ensures fresh(builder.outputBuffer.buffer) && fresh(builder.mappings.buffer)
  {
    builder := new SourceMapBuilder();
    for i := 0 to |order|
      invariant fresh(builder) && fresh(builder.outputBuffer) && fresh(builder.mappings)
      invariant fresh(builder.outputBuffer.buffer) && fresh(builder.mappings.buffer)
      invariant AllIn(order[..i], modules.Keys) && Built(builder, modules, sources, order[..i])
    {
      AddNext(builder, modules, sources, order, i);
    }
    assert order[..|order|] == order;
  }

  /** The map as it stands is put into a closing line. */
  method Finish(builder: SourceMapBuilder, closing: (seq<Byte>, seq<string>) -> seq<Byte>)
    returns (output: seq<Byte>, mappings: seq<Byte>, names: seq<string>)
    requires builder.Valid() && builder.IsSound()
    modifies builder.outputBuffer, builder.mappings, builder.outputBuffer.buffer, builder.mappings.buffer
    ensures output == old(builder.outputBuffer.Contents()) + closing(mappings, names) + [NEWLINE]
    ensures mappings == old(builder.mappings.Contents()) && names == old(builder.sources)
  {
    mappings, names := builder.ToSourceMap();
    builder.AddLine(closing(mappings, names));
    output := builder.ToContent();
  }

  /**
   The output is the contents in order and a closing line that carries the map. The map says of each line of the
   contents what that line's own map says. How the closing line is made of the map is a parameter.
   */
  method BundleWithDependencies(modules: Modules, sources: map<ModuleId, Source>, root: ModuleId,
                                closing: (seq<Byte>, seq<string>) -> seq<Byte>)
    returns (output: seq<Byte>, mappings: seq<Byte>, names: seq<string>, order: seq<ModuleId>)
    requires Closed(modules) && root in modules && AllWellFormed(modules, sources)
    requires Sum(NameCounts(modules, sources)) <= LIMIT
    ensures Distinct(order) && AllIn(order, modules.Keys) && forall m :: m in order <==> Reaches(Deps(modules), root, m)
    ensures forall i {:trigger Ordered(modules, order, i)} :: 0 <= i < |order| ==> Ordered(modules, order, i)
    ensures forall i {:trigger Listed(modules, root, order, i)} :: 0 <= i < |order| ==> Listed(modules, root, order, i)
    ensures output == Contents(sources, order) + closing(mappings, names) + [NEWLINE]
    ensures Lex(mappings).Some? && Meaning(mappings, names) == Meanings(sources, order)
    ensures |Meaning(mappings, names)| == CountNL(Contents(sources, order))
  {
    order := BundleOrder(modules, root);
    AllOrderedIn(modules, order);
    var builder := BuildInOrder(modules, sources, order);
    output, mappings, names := Finish(builder, closing);
  }

  lemma AllOrderedIn(modules: Modules, order: seq<ModuleId>)
    requires forall i {:trigger Ordered(modules, order, i)} :: 0 <= i < |order| ==> Ordered(modules, order, i)
    ensures AllIn(order, modules.Keys)
  {
    forall i | 0 <= i < |order| ensures order[i] in modules { assert Ordered(modules, order, i); }
  }
}
