/** What a call to the manager may change, and the loop over the dependencies of a new module. */
module LoaderCalls {
  import opened Basics
  import opened Graph
  import opened LoaderState
  import opened LoaderInvariant
  import opened LoaderSteps

  // ---------- what a cascade may change ----------

  /**
   What defining a module, and the cascade it sets off, may change: history grows, what is complete stays
   as it is but for its counter, errors arise only from a module's own factory, errorbacks are called only
   for modules that take an error over, and a wait ends only when the factory waited for has returned.
   */
  ghost predicate Extends(s: State, t: State) {
    && ExtendsBut(s, t)
    && ErrorsKept(s, t, {})
  }

  ghost predicate ExtendsBut(s: State, t: State) {
    && Grows(s, t)
    && s.known <= t.known && s.failed == t.failed
    && (forall x :: x in s.modules && s.modules[x].complete ==>
          t.modules[x] == s.modules[x].(count := t.modules[x].count))
    && (forall x :: x in s.modules && !t.modules[x].complete ==>
          t.modules[x] == s.modules[x].(count := t.modules[x].count))
    && WaitsKept(s, t)
    && ErrbacksKept(s, t)
  }

  /** Module d is done with its waiters: its factory has returned. */
  predicate Returned(t: State, d: Id) {
    d in t.modules && t.modules[d].complete && t.modules[d].deps.None?
  }

  ghost predicate WaitsKept(s: State, t: State) {
    forall d, x :: d in s.inverse && x in s.inverse[d] ==> Returned(t, d) || (d in t.inverse && x in t.inverse[d])
  }

  ghost predicate ErrorsKept(s: State, t: State, except: set<Id>)
    requires s.modules.Keys <= t.modules.Keys
  {
    forall x :: x in s.modules && x !in except && t.modules[x].error != s.modules[x].error ==>
      t.modules[x].error == Some(FactoryThrew(x))
  }

  /** How often the errorback of x has been called. */
  ghost function Errbacks(s: State, x: Id): nat {
    multiset(s.log)[Errback(x)]
  }

  /** Whether x has an errorback and has taken an error over. */
  ghost function TookOver(s: State, x: Id): nat {
    if x in s.modules && s.modules[x].deps.Some? && s.modules[x].error.Some? && s.modules[x].errback then 1 else 0
  }

  /** Every errorback call goes with a module that takes an error over, once. */
  ghost predicate ErrbacksKept(s: State, t: State) {
    forall x :: Errbacks(t, x) - TookOver(t, x) == Errbacks(s, x) - TookOver(s, x)
  }

  lemma ExtendsTrans(s: State, t: State, u: State)
    requires ExtendsBut(s, t) && ExtendsBut(t, u)
    ensures ExtendsBut(s, u)
    ensures Extends(s, t) && Extends(t, u) ==> Extends(s, u)
  {
    WaitsTrans(s, t, u);
    forall x ensures Errbacks(u, x) - TookOver(u, x) == Errbacks(s, x) - TookOver(s, x) {
      assert Errbacks(t, x) - TookOver(t, x) == Errbacks(s, x) - TookOver(s, x);
    }
  }

  lemma WaitsTrans(s: State, t: State, u: State)
    requires WaitsKept(s, t) && WaitsKept(t, u)
    requires forall x :: x in t.modules && t.modules[x].complete ==>
               x in u.modules && u.modules[x] == t.modules[x].(count := u.modules[x].count)
    ensures WaitsKept(s, u)
  {
  }

  lemma ExtendsInserted(s: State, def: Define, t: State)
    requires def.id !in s.modules && def.id !in s.declared
    requires ExtendsBut(Inserted(s, def), t) && ErrorsKept(Inserted(s, def), t, {def.id})
    ensures Extends(s, t)
  {
    forall x ensures Errbacks(t, x) - TookOver(t, x) == Errbacks(s, x) - TookOver(s, x) {
      assert Errbacks(t, x) - TookOver(t, x) == Errbacks(Inserted(s, def), x) - TookOver(Inserted(s, def), x);
    }
  }

  /** A factory that has started and, so far, only made its own definitions. */
  lemma ExtendsStarted(s: State, x: Id, u: State)
    requires x in s.modules && !s.modules[x].complete && s.modules[x].error.None? && Extends(Started(s, x), u)
    ensures Extends(s, u) && u.modules[x].complete
    ensures u.modules[x] == s.modules[x].(complete := true, count := u.modules[x].count)
  {
    var t := Started(s, x);
    assert WaitsKept(s, u) by {
      forall d, y | d in s.inverse && y in s.inverse[d]
        ensures Returned(u, d) || (d in u.inverse && y in u.inverse[d])
      {
        assert d in t.inverse && y in t.inverse[d];
      }
    }
    forall y ensures Errbacks(u, y) - TookOver(u, y) == Errbacks(s, y) - TookOver(s, y) {
      assert Errbacks(u, y) - TookOver(u, y) == Errbacks(t, y) - TookOver(t, y);
    }
  }

  lemma ExtendsFinished(s: State, x: Id, throws: bool)
    requires x in s.modules && s.modules[x].complete && s.modules[x].deps.Some? && s.modules[x].error.None?
    ensures var t := Finished(s, x, throws);
            && Grows(s, t) && s.known == t.known && s.failed == t.failed && WaitsKept(s, t) && ErrbacksKept(s, t)
            && ErrorsKept(s, t, {}) && (forall y :: y in s.modules && y != x ==> t.modules[y] == s.modules[y])
  {
  }

  /** A factory that has run and returned, or thrown to a manager that catches. */
  lemma ExtendsAcross(s: State, x: Id, u: State, throws: bool)
    requires x in s.modules && !s.modules[x].complete && s.modules[x].deps.Some? && s.modules[x].error.None?
    requires Extends(Started(s, x), u)
    ensures Extends(s, Finished(u, x, throws)) && u.modules[x].complete
    ensures Finished(u, x, throws).modules[x].complete
  {
    ExtendsStarted(s, x, u);
    ExtendsFinished(u, x, throws);
    var t := Finished(u, x, throws);
    assert WaitsKept(s, t) by {
      WaitsAcross(s, u, t, x);
    }
    forall y ensures Errbacks(t, y) - TookOver(t, y) == Errbacks(s, y) - TookOver(s, y) {
      assert Errbacks(u, y) - TookOver(u, y) == Errbacks(s, y) - TookOver(s, y);
      assert Errbacks(t, y) - TookOver(t, y) == Errbacks(u, y) - TookOver(u, y);
    }
  }

  lemma WaitsAcross(s: State, u: State, t: State, x: Id)
    requires WaitsKept(s, u) && WaitsKept(u, t) && x in u.modules && u.modules[x].deps.Some?
    requires forall y :: y in u.modules && y != x ==> y in t.modules && t.modules[y] == u.modules[y]
    ensures WaitsKept(s, t)
  {
  }

  // ---------- errors of dependencies ----------

  /** The error carried by a dependency that is complete. */
  function ErrorOf(modules: map<Id, Module>, dep: Dep): Option<Error> {
    if dep.Regular? && dep.id in modules && modules[dep.id].complete then modules[dep.id].error else None
  }

  /** The first dependency, from i on, that carries an error. */
  function ErrorIndex(modules: map<Id, Module>, deps: seq<Dep>, i: nat): (k: nat)
    requires i <= |deps|
    ensures i <= k <= |deps|
    ensures forall j :: i <= j < k ==> ErrorOf(modules, deps[j]).None?
    ensures k < |deps| ==> ErrorOf(modules, deps[k]).Some?
    decreases |deps| - i
  {
    if i == |deps| || ErrorOf(modules, deps[i]).Some? then i else ErrorIndex(modules, deps, i + 1)
  }

  /** The error that examining these dependencies runs into first, if any. */
  function FirstError(modules: map<Id, Module>, deps: seq<Dep>): Option<Error> {
    var k := ErrorIndex(modules, deps, 0);
    if k < |deps| then ErrorOf(modules, deps[k]) else None
  }

  lemma FirstErrorInsert(modules: map<Id, Module>, x: Id, m: Module, deps: seq<Dep>)
    requires x !in modules && !m.complete
    ensures FirstError(modules[x := m], deps) == FirstError(modules, deps)
  {
    var k, k' := ErrorIndex(modules, deps, 0), ErrorIndex(modules[x := m], deps, 0);
    assert forall j :: 0 <= j < |deps| ==> ErrorOf(modules[x := m], deps[j]) == ErrorOf(modules, deps[j]);
    assert k == k';
  }

  // ---------- examining dependencies ----------

  /** x has to wait for this dependency: it is regular, incomplete and not on a cycle with x. */
  ghost predicate Blocking(modules: map<Id, Module>, x: Id, dep: Dep) {
    && dep.Regular?
    && !(dep.id in modules && modules[dep.id].complete)
    && !HasPath(DepEdges(modules), dep.id, x)
  }

  /** One dependency without error is examined: x waits for it, or counts it as resolved. */
  ghost function ExaminedOne(s: State, x: Id, dep: Dep): (t: State)
    requires x in s.modules
    ensures x in t.modules
  {
    if Blocking(s.modules, x, dep) then Awaited(s, x, dep.id) else Decremented(s, x)
  }

  /** The first n dependencies are examined. */
  ghost function ExaminedUpTo(s: State, x: Id, deps: seq<Dep>, n: nat): (t: State)
    requires x in s.modules && n <= |deps|
    ensures x in t.modules
  {
    if n == 0 then s else ExaminedOne(ExaminedUpTo(s, x, deps, n - 1), x, deps[n - 1])
  }

  /** All dependencies are examined, up to the first that carries an error. */
  ghost function Examined(s: State, x: Id, deps: seq<Dep>): (t: State)
    requires x in s.modules
    ensures x in t.modules
  {
    var k := ErrorIndex(s.modules, deps, 0);
    var t := ExaminedUpTo(s, x, deps, k);
    if k < |deps| then Failed(t, x, ErrorOf(s.modules, deps[k]).value) else t
  }

  ghost predicate OnlyChanged(before: map<Id, Module>, after: map<Id, Module>, x: Id) {
    && after.Keys == before.Keys
    && forall y :: y in before && y != x ==> after[y] == before[y]
  }

  /** Nothing but waits and the counter of x changed. */
  ghost predicate OnlyCounted(s: State, t: State, x: Id) {
    && ExtendsBut(s, t) && t.declared == s.declared
    && OnlyChanged(s.modules, t.modules, x)
    && x in s.modules && t.modules[x] == s.modules[x].(count := t.modules[x].count)
  }

  lemma CountedTrans(s: State, t: State, u: State, x: Id)
    requires OnlyCounted(s, t, x) && OnlyCounted(t, u, x)
    ensures OnlyCounted(s, u, x)
  {
    ExtendsTrans(s, t, u);
  }

  lemma CountedOne(s: State, x: Id, dep: Dep)
    requires x in s.modules && !s.modules[x].complete
    ensures OnlyCounted(s, ExaminedOne(s, x, dep), x)
  {
    if Blocking(s.modules, x, dep) {
      ExtendsAwaited(s, x, dep.id);
    } else {
      ExtendsDecremented(s, x);
    }
  }

  lemma ExtendsAwaited(s: State, x: Id, d: Id)
    requires x in s.modules
    ensures Extends(s, Awaited(s, x, d))
  {
  }

  lemma ExtendsDecremented(s: State, x: Id)
    requires x in s.modules
    ensures Extends(s, Decremented(s, x))
  {
  }

  lemma ErrorOfKept(s: State, t: State, x: Id, dep: Dep)
    requires OnlyCounted(s, t, x) && !s.modules[x].complete
    ensures ErrorOf(t.modules, dep) == ErrorOf(s.modules, dep)
  {
  }

  lemma {:induction false} ExaminedIsCounted(s: State, x: Id, deps: seq<Dep>, n: nat)
    requires x in s.modules && !s.modules[x].complete && n <= |deps|
    ensures OnlyCounted(s, ExaminedUpTo(s, x, deps, n), x)
    decreases n
  {
    if n > 0 {
      var t := ExaminedUpTo(s, x, deps, n - 1);
      ExaminedIsCounted(s, x, deps, n - 1);
      CountedOne(t, x, deps[n - 1]);
      CountedTrans(s, t, ExaminedOne(t, x, deps[n - 1]), x);
    }
  }

  /** Examining a dependency without error keeps the counter equal to the waits and what is left to examine. */
  lemma ExamineOneKeeps(s: State, owed: multiset<Id>, active: set<Id>, x: Id, n: nat)
    requires Examining(s, owed, active, x, n) && n < |s.declared[x]| && ErrorOf(s.modules, s.declared[x][n]).None?
    ensures Examining(ExaminedOne(s, x, s.declared[x][n]), owed, active, x, n + 1)
  {
    var dep := s.declared[x][n];
    if Blocking(s.modules, x, dep) {
      AwaitKeeps(s, owed, active, x, n);
    } else {
      ResolvedIsSettled(s, owed, active, x, n, dep);
      ResolveKeeps(s, owed, active, x, n);
    }
  }

  lemma ExaminedErrors(s: State, x: Id, deps: seq<Dep>, n: nat, dep: Dep)
    requires x in s.modules && !s.modules[x].complete && n <= |deps|
    ensures var t := ExaminedUpTo(s, x, deps, n);
            t.declared == s.declared && ErrorOf(t.modules, dep) == ErrorOf(s.modules, dep)
  {
    ExaminedIsCounted(s, x, deps, n);
    ErrorOfKept(s, ExaminedUpTo(s, x, deps, n), x, dep);
  }

  lemma ExamineNext(u: State, t: State, owed: multiset<Id>, active: set<Id>, x: Id, dep: Dep, n: nat)
    requires n > 0 && Examining(u, owed, active, x, n - 1) && n <= |u.declared[x]| && u.declared[x][n - 1] == dep
    requires ErrorOf(u.modules, dep).None? && t == ExaminedOne(u, x, dep)
    ensures Examining(t, owed, active, x, n)
  {
    ExamineOneKeeps(u, owed, active, x, n - 1);
  }

  lemma {:induction false} ExamineKeeps(s: State, t: State, owed: multiset<Id>, active: set<Id>, x: Id,
                                        deps: seq<Dep>, n: nat)
    requires Examining(s, owed, active, x, 0) && s.declared[x] == deps && n <= |deps|
    requires forall j :: 0 <= j < n ==> ErrorOf(s.modules, deps[j]).None?
    requires t == ExaminedUpTo(s, x, deps, n)
    ensures Examining(t, owed, active, x, n)
    decreases n
  {
    if n > 0 {
      var u := ExaminedUpTo(s, x, deps, n - 1);
      ExaminedErrors(s, x, deps, n - 1, deps[n - 1]);
      ExamineKeeps(s, u, owed, active, x, deps, n - 1);
      ExamineNext(u, t, owed, active, x, deps[n - 1], n);
    }
  }

  lemma ResolvedIsSettled(s: State, owed: multiset<Id>, active: set<Id>, x: Id, n: nat, dep: Dep)
    requires Examining(s, owed, active, x, n)
    requires ErrorOf(s.modules, dep).None? && !Blocking(s.modules, x, dep)
    ensures dep.Regular? ==> Settled(s, x, dep.id)
  {
    if dep.Regular? {
      if dep.id in s.modules && s.modules[dep.id].complete {
        assert ShapeOk(s, active, dep.id);
      } else {
        CutIsSettled(s, owed, active, x, n, dep.id);
      }
    }
  }

  /** A dependency cut by the cycle check lies on a cycle of declared dependencies. */
  lemma CutIsSettled(s: State, owed: multiset<Id>, active: set<Id>, x: Id, n: nat, d: Id)
    requires Examining(s, owed, active, x, n)
    requires HasPath(DepEdges(s.modules), d, x)
    ensures Settled(s, x, d)
  {
    assert SubGraph(DepEdges(s.modules), DeclEdges(s.declared)) by {
      forall u, v | DepEdges(s.modules)(u, v)
        ensures DeclEdges(s.declared)(u, v)
      {
        assert ShapeOk(s, active, u);
      }
    }
    HasPathMono(DepEdges(s.modules), DeclEdges(s.declared), d, x);
  }

  /** What the module being examined looks like. */
  lemma NotComplete(s: State, owed: multiset<Id>, active: set<Id>, x: Id, n: nat)
    requires Examining(s, owed, active, x, n)
    ensures !s.modules[x].complete && s.modules[x].deps == Some(s.declared[x]) && s.modules[x].error == None
    ensures s.modules[x].callback.Some? && s.modules[x].count >= 0
  {
    assert ShapeOk(s, active, x);
    assert CountOk(s, owed[x := |s.declared[x]| - n], {x}, x);
  }

  lemma AllExamined(s: State, owed: multiset<Id>, active: set<Id>, x: Id)
    requires x in s.declared && Examining(s, owed, active, x, |s.declared[x]|)
    ensures Inv(s, owed, active, {x}) && (s.modules[x].count != 0 ==> Inv(s, owed, active, {}))
  {
    NotComplete(s, owed, active, x, |s.declared[x]|);
    ExaminedIsInv(s, owed, active, x);
    if s.modules[x].count != 0 {
      CompleteIsNotReady(s, owed, active, x);
    }
  }

  /** The error of a dependency is taken over; nobody else changes. */
  lemma ExtendsFailed(s: State, x: Id, err: Error)
    requires x in s.modules && !s.modules[x].complete && s.modules[x].error.None? && s.modules[x].deps.Some?
    ensures ExtendsBut(s, Failed(s, x, err))
  {
    var t := Failed(s, x, err);
    forall y ensures Errbacks(t, y) - TookOver(t, y) == Errbacks(s, y) - TookOver(s, y) {
    }
  }

  lemma ExaminedFails(s: State, t: State, owed: multiset<Id>, active: set<Id>, x: Id, n: nat, err: Error)
    requires OnlyCounted(s, t, x) && Examining(t, owed, active, x, n) && n < |t.declared[x]|
    requires ErrorOf(t.modules, t.declared[x][n]) == Some(err)
    ensures var u := Failed(t, x, err);
            && ExtendsBut(s, u) && OnlyChanged(s.modules, u.modules, x)
            && Inv(u, owed, active, {x}) && Inv(u, owed, active, {})
  {
    var u := Failed(t, x, err);
    NotComplete(t, owed, active, x, n);
    FailKeeps(t, owed, active, x, n, t.declared[x][n].id);
    ExtendsFailed(t, x, err);
    ExtendsTrans(s, t, u);
    MoreReady(u, owed, active, x);
  }

  /**
   A module whose dependencies have been examined has taken over the first error among them, or stands with
   every dependency settled; at zero it may run.
   */
  ghost predicate Stands(s: State, t: State, owed: multiset<Id>, active: set<Id>, x: Id, deps: seq<Dep>) {
    && x in s.modules && ExtendsBut(s, t) && OnlyChanged(s.modules, t.modules, x)
    && t.modules[x].error == FirstError(s.modules, deps)
    && t.modules[x] == s.modules[x].(count := t.modules[x].count, complete := t.modules[x].error.Some?,
                                     error := t.modules[x].error)
    && Inv(t, owed, active, {x})
    && (t.modules[x].complete || t.modules[x].count != 0 ==> Inv(t, owed, active, {}))
  }

  lemma ExaminedStands(s: State, owed: multiset<Id>, active: set<Id>, x: Id, deps: seq<Dep>)
    requires Examining(s, owed, active, x, 0) && s.declared[x] == deps
    ensures Stands(s, Examined(s, x, deps), owed, active, x, deps)
  {
    var k := ErrorIndex(s.modules, deps, 0);
    NotComplete(s, owed, active, x, 0);
    var t := ExaminedUpTo(s, x, deps, k);
    ExaminedIsCounted(s, x, deps, k);
    ExamineKeeps(s, t, owed, active, x, deps, k);
    if k < |deps| {
      ErrorOfKept(s, t, x, deps[k]);
      ExaminedFails(s, t, owed, active, x, k, ErrorOf(s.modules, deps[k]).value);
    } else {
      AllExamined(t, owed, active, x);
    }
  }

  lemma MoreReady(s: State, owed: multiset<Id>, active: set<Id>, x: Id)
    requires Inv(s, owed, active, {})
    ensures Inv(s, owed, active, {x})
  {
    forall y | y in s.modules
      ensures CountOk(s, owed, {x}, y)
    {
      assert CountOk(s, owed, {}, y);
    }
  }

  lemma {:induction false} ExaminedWork(s: State, x: Id, deps: seq<Dep>, n: nat)
    requires x in s.modules && n <= |deps|
    ensures Work(ExaminedUpTo(s, x, deps, n).modules) == Work(s.modules)
    decreases n
  {
    if n > 0 {
      ExaminedWork(s, x, deps, n - 1);
      var t := ExaminedUpTo(s, x, deps, n - 1);
      WorkUpdate(t.modules, x, t.modules[x].(count := t.modules[x].count - 1));
    }
  }

  // ---------- how a definition ends ----------

  function AsDefine(x: Id, m: Module): Define
    requires m.deps.Some? && m.callback.Some?
  {
    Define(x, m.deps.value, m.errback, m.callback.value)
  }

  /**
   A module ends up with the first error among its dependencies, and otherwise only with an error of its own.
   As long as its factory has not returned it is as it was defined.
   */
  ghost predicate Resolved(before: map<Id, Module>, def: Define, m: Module) {
    && (match FirstError(before, def.deps)
        case Some(err) => m.complete && m.deps.Some? && m.error == Some(err)
        case None => m.error.None? || m.error == Some(FactoryThrew(def.id)))
    && (m.deps.Some? ==> m.deps.value == def.deps && m.errback == def.errback && m.callback == Some(def.factory))
  }

  lemma ResolvedThenRan(s: State, t: State, u: State, x: Id)
    requires x in s.modules && s.modules[x].deps.Some? && s.modules[x].callback.Some?
    requires x in t.modules && x in u.modules && t.modules.Keys <= u.modules.Keys && ErrorsKept(t, u, {})
    requires t.modules[x].error == FirstError(s.modules, s.modules[x].deps.value) == None
    requires t.modules[x] == s.modules[x].(count := t.modules[x].count)
    requires u.modules[x].deps.Some? ==> u.modules[x] == t.modules[x].(complete := true, count := u.modules[x].count)
    ensures Resolved(s.modules, AsDefine(x, s.modules[x]), u.modules[x])
  {
  }

  /** What running the factory of x leaves of x: it has returned, with its error if it threw, or is stuck. */
  ghost predicate RanTo(s: State, x: Id, factory: Factory, catchError: bool, t: State, escaped: bool)
    requires x in s.modules
  {
    && x in t.modules
    && (!escaped ==>
          && t.modules[x].deps.None? && (factory.throws ==> catchError)
          && t.modules[x].error == if factory.throws then Some(FactoryThrew(x)) else None)
    && (t.modules[x].deps.Some? ==> t.modules[x] == s.modules[x].(complete := true, count := t.modules[x].count))
  }

  // ---------- exceptions that leave the manager ----------

  ghost predicate NoEscape(before: seq<Event>, after: seq<Event>) {
    forall x :: Escaped(x) in after ==> Escaped(x) in before
  }

  /** The last thing that happened is that the factory of a module threw, and its module is stuck. */
  ghost predicate EscapedFrom(t: State, before: set<Id>, active: set<Id>) {
    && before < active
    && t.log != [] && t.log[|t.log| - 1].Escaped?
    && var x := t.log[|t.log| - 1].id;
       x in active && x !in before
       && x in t.modules && t.modules[x].callback.Some? && t.modules[x].callback.value.throws
  }

  /** A factory that neither throws nor defines a module whose factory may. */
  ghost predicate Returns(f: Factory) {
    !f.throws && AllReturn(f.body)
  }

  ghost predicate AllReturn(ds: seq<Define>) {
    ds == [] || (Returns(ds[0].factory) && AllReturn(ds[1..]))
  }

  /** No factory that is still to run throws. */
  ghost predicate Quiet(modules: map<Id, Module>) {
    forall x :: x in modules && !modules[x].complete && modules[x].callback.Some? ==> Returns(modules[x].callback.value)
  }

  /** The manager at one moment, with the decrements under way and the factories that have not returned. */
  datatype Moment = Moment(s: State, owed: multiset<Id>, active: set<Id>)

  /**
   How a call ends: whether an exception escapes, whether the manager catches, whether the call brings no factory
   that throws.
   */
  datatype Ending = Ending(escaped: bool, catchError: bool, calm: bool)

  /**
   A cascade has run to its end, and nothing is under way that was not before; or an exception has escaped from
   it, and what it interrupted is left behind. The factories still to run have at most grown by `extra`.
   */
  ghost predicate Progress(a: Moment, b: Moment, e: Ending, extra: nat) {
    Extends(a.s, b.s) && Accounted(a, b, e, extra)
  }

  /** Progress in which module x may have taken an error over. */
  ghost predicate ProgressBut(a: Moment, b: Moment, e: Ending, extra: nat, x: Id) {
    ExtendsBut(a.s, b.s) && ErrorsKept(a.s, b.s, {x}) && Accounted(a, b, e, extra)
  }

  ghost predicate Accounted(a: Moment, b: Moment, e: Ending, extra: nat) {
    && a.owed <= b.owed
    && (!e.escaped ==> b.owed == a.owed && b.active == a.active && NoEscape(a.s.log, b.s.log))
    && (e.escaped ==> !e.catchError && EscapedFrom(b.s, a.active, b.active))
    && (e.calm && Quiet(a.s.modules) ==> !e.escaped && Quiet(b.s.modules))
    && Work(b.s.modules) <= Work(a.s.modules) + extra
  }

  lemma NoProgress(a: Moment, e: Ending, extra: nat)
    requires !e.escaped
    ensures Progress(a, a, e, extra)
  {
  }

  /** One definition after others. */
  lemma ProgressTrans(a: Moment, b: Moment, c: Moment, e: Ending, e': Ending, extra: nat, extra': nat)
    requires Progress(a, b, e, extra) && !e.escaped
    requires Progress(b, c, e', extra')
    ensures Progress(a, c, e'.(calm := e.calm && e'.calm), extra + extra')
  {
    ExtendsTrans(a.s, b.s, c.s);
  }

  lemma ProgressInserted(a: Moment, def: Define, c: Moment, e: Ending)
    requires def.id !in a.s.modules && def.id !in a.s.declared && e.calm
    requires ProgressBut(a.(s := Inserted(a.s, def)), c, e, 0, def.id)
    ensures Progress(a, c, e.(calm := Returns(def.factory)), Size(def.factory))
  {
    ExtendsInserted(a.s, def, c.s);
    WorkUpdate(a.s.modules, def.id, NewModule(def.deps, def.factory, def.errback));
  }

  lemma ProgressExamined(a: Moment, b: Moment, x: Id, e: Ending)
    requires b.owed == a.owed && b.active == a.active && NoEscape(a.s.log, b.s.log) && !e.escaped
    requires ExtendsBut(a.s, b.s) && OnlyChanged(a.s.modules, b.s.modules, x)
    requires Work(b.s.modules) <= Work(a.s.modules) && (Quiet(a.s.modules) ==> Quiet(b.s.modules))
    ensures ProgressBut(a, b, e, 0, x)
  {
  }

  lemma ProgressResolved(a: Moment, b: Moment, x: Id, c: Moment, e: Ending, e': Ending)
    requires ProgressBut(a, b, e, 0, x) && !e.escaped && e.calm && b.s.modules.Keys == a.s.modules.Keys
    requires Progress(b, c, e', 0)
    ensures ProgressBut(a, c, e', 0, x)
  {
    ExtendsTrans(a.s, b.s, c.s);
  }

  /** A waiter is counted down, and perhaps completed. */
  lemma ProgressCounted(a: Moment, y: Id, rest: multiset<Id>, c: Moment, e: Ending)
    requires y in a.s.modules && Progress(Moment(Decremented(a.s, y), rest, a.active), c, e, 0)
    ensures Progress(a.(owed := rest), c, e, 0)
  {
    ExtendsDecremented(a.s, y);
    ExtendsTrans(a.s, Decremented(a.s, y), c.s);
    WorkUpdate(a.s.modules, y, a.s.modules[y].(count := a.s.modules[y].count - 1));
  }

  lemma FirstOf(waiters: seq<Id>, i: nat, rest: multiset<Id>)
    requires i < |waiters|
    ensures rest + multiset(waiters[i..]) == rest + multiset(waiters[i + 1..]) + multiset{waiters[i]}
  {
    assert waiters[i..] == [waiters[i]] + waiters[i + 1..];
  }

  /** One more waiter is released: `before` and `after` are owed to those that are left. */
  lemma ProgressReleased(a: Moment, b: Moment, c: Moment, before: multiset<Id>, after: multiset<Id>, e: Ending,
                         e': Ending)
    requires Progress(a.(owed := before), b, e, 0) && !e.escaped && e.calm
    requires Progress(b.(owed := after), c, e', 0)
    ensures Progress(a.(owed := after), c, e', 0)
  {
    ExtendsTrans(a.s, b.s, c.s);
  }

  /** The release ends with the last waiter, or early by an exception. */
  lemma ProgressStopped(a: Moment, rest: multiset<Id>, waiters: seq<Id>, i: nat, c: Moment, e: Ending)
    requires i <= |waiters| && (!e.escaped ==> i == |waiters|)
    requires Progress(a.(owed := rest + multiset(waiters[i..])), c, e, 0)
    ensures Progress(a.(owed := rest), c, e, 0)
  {
    if i == |waiters| {
      assert waiters[i..] == [];
      assert rest + multiset(waiters[i..]) == rest;
    }
  }

  /** The factory of x has been started and has made its definitions, or an exception has escaped from one of them. */
  ghost predicate Inside(a: Moment, x: Id, factory: Factory, c: Moment, e: Ending) {
    && x in a.s.modules && x !in a.active
    && !a.s.modules[x].complete && a.s.modules[x].error.None? && a.s.modules[x].deps.Some?
    && a.s.modules[x].callback == Some(factory)
    && Progress(Moment(Started(a.s, x), a.owed, a.active + {x}), c, e.(calm := AllReturn(factory.body)),
                SizeAll(factory.body))
  }

  lemma InsideIsProgress(a: Moment, x: Id, factory: Factory, c: Moment, e: Ending)
    requires Inside(a, x, factory, c, e)
    ensures Extends(a.s, c.s) && Work(c.s.modules) < Work(a.s.modules)
    ensures c.s.modules[x] == a.s.modules[x].(complete := true, count := c.s.modules[x].count)
    ensures !e.escaped ==> c.owed == a.owed && c.active == a.active + {x} && NoEscape(a.s.log, c.s.log)
    ensures Quiet(a.s.modules) ==> Returns(factory) && Quiet(c.s.modules) && !e.escaped
  {
    ExtendsStarted(a.s, x, c.s);
    WorkUpdate(a.s.modules, x, a.s.modules[x].(complete := true));
  }

  lemma ProgressInside(a: Moment, x: Id, factory: Factory, c: Moment, e: Ending)
    requires Inside(a, x, factory, c, e) && e.escaped
    ensures Progress(a, c, e, 0)
  {
    InsideIsProgress(a, x, factory, c, e);
  }

  /** The factory of x has made its definitions and throws, and the manager does not catch. */
  lemma ProgressEscape(a: Moment, x: Id, factory: Factory, c: Moment, e: Ending)
    requires Inside(a, x, factory, c, e) && !e.escaped && !e.catchError && factory.throws
    ensures Progress(a, c.(s := Escaping(c.s, x)), e.(escaped := true), 0)
    ensures RanTo(a.s, x, factory, false, Escaping(c.s, x), true)
  {
    InsideIsProgress(a, x, factory, c, e);
    EscapeExtends(a.s, c.s, x);
  }

  /** The factory of x has returned, and its waiters have been released. */
  lemma ProgressAcross(a: Moment, x: Id, factory: Factory, u: Moment, e: Ending, c: Moment, e': Ending)
    requires Inside(a, x, factory, u, e) && !e.escaped && (factory.throws ==> e'.catchError)
    requires Progress(Moment(Finished(u.s, x, factory.throws), a.owed, a.active), c, e', 0)
    ensures Progress(a, c, e', 0)
  {
    InsideIsProgress(a, x, factory, u, e);
    ExtendsAcross(a.s, x, u.s, factory.throws);
    ExtendsTrans(a.s, Finished(u.s, x, factory.throws), c.s);
    WorkUpdate(u.s.modules, x, Outcome(u.s.modules[x], x, factory.throws));
  }

  lemma RanAcross(a: Moment, x: Id, factory: Factory, u: Moment, e: Ending, c: Moment, e': Ending)
    requires Inside(a, x, factory, u, e) && !e.escaped && (factory.throws ==> e'.catchError)
    requires Progress(Moment(Finished(u.s, x, factory.throws), a.owed, a.active), c, e', 0)
    ensures x in c.s.modules && c.s.modules[x].complete && RanTo(a.s, x, factory, e'.catchError, c.s, e'.escaped)
  {
    InsideIsProgress(a, x, factory, u, e);
  }

  lemma {:induction false} OneMore(body: seq<Define>, i: nat)
    requires i < |body|
    ensures SizeAll(body[..i + 1]) == SizeAll(body[..i]) + Size(body[i].factory)
    ensures SizeAll(body[..i + 1]) <= SizeAll(body)
    ensures AllReturn(body[..i + 1]) <==> AllReturn(body[..i]) && Returns(body[i].factory)
    ensures AllReturn(body) ==> AllReturn(body[..i + 1])
  {
    if i == 0 {
      assert body[..1] == [body[0]] && body[..1][1..] == [] && body[..0] == [];
    } else {
      OneMore(body[1..], i - 1);
      assert body[..i + 1][1..] == body[1..][..i] && body[..i][1..] == body[1..][..i - 1];
    }
  }

  /** The factory has made all its definitions, or stopped at one from which an exception escaped. */
  lemma ProgressThrough(a: Moment, c: Moment, body: seq<Define>, i: nat, escaped: bool, catchError: bool)
    requires i <= |body| && (!escaped ==> i == |body|)
    requires Progress(a, c, Ending(escaped, catchError, AllReturn(body[..i])), SizeAll(body[..i]))
    ensures Progress(a, c, Ending(escaped, catchError, AllReturn(body)), SizeAll(body))
  {
    assert body[..|body|] == body;
    if 0 < i {
      OneMore(body, i - 1);
    }
  }

  lemma EscapeExtends(s: State, u: State, x: Id)
    requires Extends(s, u)
    ensures Extends(s, Escaping(u, x))
  {
    var t := Escaping(u, x);
    forall y ensures Errbacks(t, y) - TookOver(t, y) == Errbacks(s, y) - TookOver(s, y) {
      assert Errbacks(u, y) - TookOver(u, y) == Errbacks(s, y) - TookOver(s, y);
    }
  }

  /** Examining requests scripts and counts down, and runs nothing. */
  lemma {:induction false} ExaminedIsQuiet(s: State, x: Id, deps: seq<Dep>, n: nat)
    requires x in s.modules && n <= |deps|
    ensures var t := ExaminedUpTo(s, x, deps, n); NoEscape(s.log, t.log) && (Quiet(s.modules) ==> Quiet(t.modules))
    decreases n
  {
    if n > 0 {
      ExaminedIsQuiet(s, x, deps, n - 1);
      var t := ExaminedUpTo(s, x, deps, n - 1);
      if Blocking(t.modules, x, deps[n - 1]) {
        AwaitedIsQuiet(t, x, deps[n - 1].id);
      } else {
        DecrementedIsQuiet(t, x);
      }
    }
  }

  lemma AwaitedIsQuiet(t: State, x: Id, d: Id)
    ensures NoEscape(t.log, Awaited(t, x, d).log) && Awaited(t, x, d).modules == t.modules
  {
  }

  lemma DecrementedIsQuiet(t: State, x: Id)
    requires x in t.modules
    ensures Quiet(t.modules) ==> Quiet(Decremented(t, x).modules)
  {
  }

  /** The loop goes on exactly as long as it has not come to the first error. */
  lemma AtIndex(s: State, x: Id, deps: seq<Dep>, i: nat)
    requires x in s.modules && !s.modules[x].complete && i <= ErrorIndex(s.modules, deps, 0)
    ensures var t := ExaminedUpTo(s, x, deps, i);
            && !t.modules[x].complete
            && (i < |deps| ==> ErrorOf(t.modules, deps[i]) == ErrorOf(s.modules, deps[i]))
            && (i < |deps| && ErrorOf(t.modules, deps[i]).None? <==> i < ErrorIndex(s.modules, deps, 0))
  {
    ExaminedIsCounted(s, x, deps, i);
    if i < |deps| {
      ErrorOfKept(s, ExaminedUpTo(s, x, deps, i), x, deps[i]);
    }
  }

  lemma ReadyShape(s: State, owed: multiset<Id>, active: set<Id>, x: Id)
    requires Inv(s, owed, active, {x}) && x in s.modules && !s.modules[x].complete
    ensures s.modules[x].deps.Some? && s.modules[x].callback.Some? && s.modules[x].error.None?
  {
    assert ShapeOk(s, active, x);
  }

  /** A module that could not fail in a cascade is complete exactly when its counter has come down to zero. */
  lemma CompleteAtZero(s: State, t: State, owed: multiset<Id>, active: set<Id>, y: Id)
    requires Inv(t, owed, active, {}) && Extends(s, t) && y in s.modules && s.modules[y].error.None?
    ensures t.modules[y].complete <==> t.modules[y].count == 0
  {
    assert ShapeOk(t, active, y) && CountOk(t, owed, {}, y) && OriginOk(t, y);
  }

  lemma AllCompleteAtZero(s: State, t: State, owed: multiset<Id>, active: set<Id>)
    requires Inv(t, owed, active, {}) && Extends(s, t)
    ensures forall y :: y in s.modules && s.modules[y].error.None? ==>
            (t.modules[y].complete <==> t.modules[y].count == 0)
  {
    forall y | y in s.modules && s.modules[y].error.None?
      ensures t.modules[y].complete <==> t.modules[y].count == 0
    {
      CompleteAtZero(s, t, owed, active, y);
    }
  }

  // ---------- telling modules of a failed load ----------

  lemma WaitersAreDefined(s: State, owed: multiset<Id>, active: set<Id>, f: Id)
    requires Inv(s, owed, active, {})
    ensures forall d, x :: d in s.inverse && x in s.inverse[d] ==> x in Stubbed(s, f).modules
  {
    forall d, x | d in s.inverse && x in s.inverse[d]
      ensures x in Stubbed(s, f).modules
    {
      assert WaitersOk(s, d);
    }
  }

  /** The state once the modules in `told` know of the failure of f. */
  function Told(u: State, f: Id, told: seq<Id>): State
    requires forall i :: 0 <= i < |told| ==> told[i] in u.modules
  {
    u.(modules := MarkAll(u.modules, Elements(told), LoadFailed(f)),
       failed := u.failed + {f},
       log := u.log + ErrEvents(u.modules, told))
  }

  lemma TellNone(u: State, f: Id)
    ensures Told(u, f, []) == u.(failed := u.failed + {f})
  {
    assert MarkAll(u.modules, Elements([]), LoadFailed(f)) == u.modules;
  }

  /** Telling one more module of the error. */
  lemma TellOne(u: State, f: Id, told: seq<Id>, x: Id)
    requires x in u.modules && x !in told
    requires forall i :: 0 <= i < |told| ==> told[i] in u.modules
    ensures Told(u, f, told + [x]) == Failed(Told(u, f, told), x, LoadFailed(f))
    ensures Told(u, f, told).modules[x] == u.modules[x]
    ensures ErrEvents(u.modules, told + [x]) == ErrEvents(u.modules, told) + ErrbackEvents(u.modules[x], x)
  {
    MarkOne(u.modules, told, x, LoadFailed(f));
    ErrEventsSnoc(u.modules, told, x);
    EventsAssociate(u.log, ErrEvents(u.modules, told), ErrbackEvents(u.modules[x], x));
  }

  lemma EventsAssociate(a: seq<Event>, b: seq<Event>, c: seq<Event>)
    ensures a + (b + c) == a + b + c
  {
  }

  lemma MoreTold(ids: set<Id>, told: seq<Id>, x: Id)
    requires x in ids && forall i :: 0 <= i < |told| ==> told[i] in ids
    ensures forall i :: 0 <= i < |told + [x]| ==> (told + [x])[i] in ids
  {
  }

  lemma ErrEventsSnoc(modules: map<Id, Module>, told: seq<Id>, x: Id)
    requires x in modules && forall i :: 0 <= i < |told| ==> told[i] in modules
    ensures ErrEvents(modules, told + [x]) == ErrEvents(modules, told) + ErrbackEvents(modules[x], x)
  {
    assert (told + [x])[..|told|] == told;
  }

  lemma MarkOne(modules: map<Id, Module>, told: seq<Id>, x: Id, err: Error)
    requires x in modules && x !in told
    ensures MarkAll(modules, Elements(told), err)[x] == modules[x]
    ensures MarkAll(modules, Elements(told + [x]), err)
         == MarkAll(modules, Elements(told), err)[x := Errored(modules[x], err)]
  {
    ElementsOfSnoc(told, x);
  }

  lemma TellAll(u: State, f: Id, told: seq<Id>)
    requires forall i :: 0 <= i < |told| ==> told[i] in u.modules
    ensures var t := Told(u, f, told);
            ErrorSpread(u, f, told, Elements(told))
            == if ErrEvents(u.modules, told) == [] then t.(log := t.log + [Reported(LoadFailed(f))]) else t
  {
    assert u.log + ErrEvents(u.modules, told) + [] == u.log + ErrEvents(u.modules, told);
  }

  lemma EmptyIsValid()
    ensures Valid(State(map[], {}, map[], map[], {}, []))
  {
    var e := WaitEdges(map[]);
    assert forall v :: !HasPath(e, v, v);
  }
}
