/** The AMD module manager, restricted to regular dependencies. */
module LoaderManager {
  import opened Basics
  import opened Graph
  import opened LoaderState
  import opened LoaderInvariant
  import opened LoaderSteps
  import opened LoaderSearch
  import opened LoaderCalls
  import opened LoaderCascade

  const CYCLE_DEPTH: nat := 50

  datatype AnonymousDefine = AnonymousDefine(deps: seq<Dep>, factory: Factory)

  ghost predicate LoadReturns(pending: Option<AnonymousDefine>) {
    pending.None? || Returns(pending.value.factory)
  }

  ghost function LoadSize(pending: Option<AnonymousDefine>): nat {
    if pending.None? then 0 else Size(pending.value.factory)
  }

  class ModuleManager {
    const catchError: bool
    var modules: map<Id, Module>
    var known: set<Id>
    var inverse: map<Id, seq<Id>>
    var hasDependencyCycle: bool
    var anonymousDefine: Option<AnonymousDefine>
    ghost var declared: map<Id, seq<Dep>>
    ghost var failed: set<Id>
    ghost var log: seq<Event>
    /** The decrements under way and the factories that have not returned; an exception leaves them behind. */
    ghost var owed: multiset<Id>
    ghost var active: set<Id>

    ghost function S(): State
      reads this
    {
      State(modules, known, inverse, declared, failed, log)
    }

    ghost function Now(): Moment
      reads this
    {
      Moment(S(), owed, active)
    }

    ghost predicate Stable()
      reads this
    {
      Inv(S(), owed, active, {})
    }

    constructor (catchError: bool)
      ensures this.catchError == catchError
      ensures S() == State(map[], {}, map[], map[], {}, []) && owed == multiset{} && active == {}
      ensures Stable() && anonymousDefine == None && !hasDependencyCycle
    {
      this.catchError := catchError;
      modules, known, inverse, declared, failed, log := map[], {}, map[], map[], {}, [];
      hasDependencyCycle, anonymousDefine, owed, active := false, None, multiset{}, {};
      new;
      EmptyIsValid();
    }

    /** Breadth-first search along the dependencies of defined modules. */
    method HasDependencyPath(from: Id, to: Id) returns (found: bool)
      ensures found <==> HasPath(DepEdges(modules), from, to)
    {
      if from !in modules {
        return false;
      }
      var inQueue: set<Id> := {from};
      var queue := [from];
      SearchStart(modules, from, to);
      while |queue| > 0
        invariant Searching(modules, from, to, inQueue, queue, {})
        decreases modules.Keys - inQueue, |queue|
      {
        var element := queue[0];
        queue := queue[1..];
        ghost var before, rest := inQueue, queue;
        if modules[element].deps.Some? {
          var deps := modules[element].deps.value;
          for i := 0 to |deps|
            invariant Searching(modules, from, to, inQueue, queue, {element}) && before <= inQueue
            invariant inQueue == before ==> queue == rest
            invariant forall j :: 0 <= j < i ==>
                      deps[j].Key() != to && (deps[j].Key() in modules ==> deps[j].Key() in inQueue)
          {
            var d := deps[i].Key();
            KeyIsEdge(modules, element, i);
            if d == to {
              SearchHit(modules, from, to, element);
              return true;
            }
            if d in modules && d !in inQueue {
              SearchPush(modules, from, to, inQueue, queue, element, d);
              inQueue := inQueue + {d};
              queue := queue + [d];
            }
          }
        }
        SearchNext(modules, from, to, inQueue, queue, element);
      }
      ExpandedHasNoPath(modules, inQueue, from, to);
      return false;
    }

    /** Depth-first search for the cycle to print; gives up, with what it has, at the depth bound. */
    method FindCyclePath(from: Id, to: Id, depth: nat) returns (path: Option<seq<Id>>)
      requires depth <= CYCLE_DEPTH
      ensures path.Some? <==> WalkWithin(DepEdges(modules), from, to, 50 - depth)
      ensures path.Some? ==>
                && IsReverseWalk(DepEdges(modules), path.value)
                && path.value[|path.value| - 1] == from
                && |path.value| <= 51 - depth && (path.value[0] == to || |path.value| == 51 - depth)
      decreases CYCLE_DEPTH - depth
    {
      ghost var e := DepEdges(modules);
      ghost var n := CYCLE_DEPTH - depth;
      if from == to || depth == CYCLE_DEPTH {
        WalkWithinHere(e, from, to, n);
        return Some([from]);
      }
      if from in modules && modules[from].deps.Some? {
        var deps := modules[from].deps.value;
        for i := 0 to |deps|
          invariant forall j :: 0 <= j < i ==> !WalkWithin(e, deps[j].Key(), to, n - 1)
        {
          var d := deps[i].Key();
          var rest := FindCyclePath(d, to, depth + 1);
          if rest.Some? {
            assert e(from, d);
            WalkWithinStep(e, from, d, to, n - 1);
            return Some(rest.value + [from]);
          }
        }
      }
      if WalkWithin(e, from, to, n) {
        var mid := WalkWithinInverse(e, from, to, n);
      }
      return None;
    }

    /** Creates the module unless its id is taken, and resolves it. */
    method DefineModule(def: Define) returns (escaped: bool)
      requires Stable()
      modifies this`modules, this`known, this`inverse, this`hasDependencyCycle, this`declared, this`log
      modifies this`owed, this`active
      ensures Stable()
      ensures Progress(old(Now()), Now(), Ending(escaped, catchError, Returns(def.factory)), Size(def.factory))
      ensures End(S(), escaped) == Definition(old(S()), def, catchError)
      ensures def.id in old(modules) ==> S() == old(S()) && !escaped && hasDependencyCycle == old(hasDependencyCycle)
      ensures def.id !in old(modules) ==>
                && def.id in declared && declared[def.id] == def.deps
                && def.id in modules && Resolved(old(modules), def, modules[def.id])
                && Settles(Examined(Inserted(old(S()), def), def.id, def.deps), def.id, def.factory, catchError,
                           S(), escaped)
      decreases Work(modules) + Size(def.factory), 2
    {
      ghost var a := Now();
      if def.id in modules {
        NoProgress(a, Ending(false, catchError, Returns(def.factory)), Size(def.factory));
        return false;
      }
      InsertKeeps(a.s, owed, active, def);
      FirstErrorInsert(modules, def.id, NewModule(def.deps, def.factory, def.errback), def.deps);
      Insert(def);
      escaped := Resolve(def.id);
      ProgressInserted(a, def, Now(), Ending(escaped, catchError, true));
    }

    method Insert(def: Define)
      requires def.id !in modules
      modifies this`modules, this`declared
      ensures S() == Inserted(old(S()), def)
      ensures Work(modules) == old(Work(modules)) + Size(def.factory)
    {
      WorkUpdate(modules, def.id, NewModule(def.deps, def.factory, def.errback));
      modules := modules[def.id := NewModule(def.deps, def.factory, def.errback)];
      declared := declared[def.id := def.deps];
    }

    /** Examines the dependencies of a module that has just been created, and runs it if none is left. */
    method Resolve(x: Id) returns (escaped: bool)
      requires Examining(S(), owed, active, x, 0) && modules[x].deps.Some? && modules[x].callback.Some?
      modifies this`modules, this`known, this`inverse, this`hasDependencyCycle, this`declared, this`log
      modifies this`owed, this`active
      ensures Stable() && ProgressBut(old(Now()), Now(), Ending(escaped, catchError, true), 0, x)
      ensures Resolved(old(modules), AsDefine(x, old(modules[x])), modules[x])
      ensures Settles(Examined(old(S()), x, old(declared[x])), x, old(modules[x].callback.value), catchError,
                      S(), escaped)
      decreases Work(modules), 1
    {
      ghost var a := Now();
      NotComplete(a.s, owed, active, x, 0);
      ExaminedStands(a.s, owed, active, x, declared[x]);
      ExamineAll(x);
      ghost var b := Now();
      ProgressExamined(a, b, x, Ending(false, catchError, true));
      escaped := false;
      if !modules[x].complete && modules[x].count == 0 {
        escaped := OnModuleComplete(x);
        ProgressResolved(a, b, x, Now(), Ending(false, catchError, true), Ending(escaped, catchError, true));
        ResolvedThenRan(a.s, b.s, S(), x);
      }
    }

    /** All dependencies are examined; the first that carries an error ends it. */
    method ExamineAll(x: Id)
      requires x in modules && !modules[x].complete && modules[x].deps.Some? && modules[x].callback.Some?
      modifies this`modules, this`inverse, this`known, this`log, this`hasDependencyCycle
      ensures S() == Examined(old(S()), x, old(modules[x].deps.value))
      ensures NoEscape(old(log), log) && (Quiet(old(modules)) ==> Quiet(modules))
      ensures Work(modules) <= old(Work(modules))
    {
      ghost var s := S();
      var deps := modules[x].deps.value;
      var i := ExamineUntilError(x, deps);
      AtIndex(s, x, deps, i);
      ExaminedIsQuiet(s, x, deps, i);
      ExaminedWork(s, x, deps, i);
      if i < |deps| {
        var _ := OnDependencyError(x, ErrorOf(modules, deps[i]).value);
      }
    }

    /** The loop over dependencies, left early when one of them carries an error. */
    method ExamineUntilError(x: Id, deps: seq<Dep>) returns (i: nat)
      requires x in modules && !modules[x].complete
      modifies this`modules, this`inverse, this`known, this`log, this`hasDependencyCycle
      ensures i == ErrorIndex(old(modules), deps, 0) && S() == ExaminedUpTo(old(S()), x, deps, i)
    {
      ghost var s := S();
      i := 0;
      AtIndex(s, x, deps, 0);
      while i < |deps| && ErrorOf(modules, deps[i]).None?
        invariant i <= ErrorIndex(s.modules, deps, 0) && S() == ExaminedUpTo(s, x, deps, i)
        invariant x in modules && !modules[x].complete
        invariant i < |deps| && ErrorOf(modules, deps[i]).None? <==> i < ErrorIndex(s.modules, deps, 0)
      {
        ExamineOne(x, deps[i]);
        i := i + 1;
        AtIndex(s, x, deps, i);
      }
    }

    /** One turn of the loop: wait for the dependency, or count it as resolved. */
    method ExamineOne(x: Id, dep: Dep)
      requires x in modules && !modules[x].complete
      modifies this`modules, this`inverse, this`known, this`log, this`hasDependencyCycle
      ensures S() == ExaminedOne(old(S()), x, dep)
    {
      var wait := MustWait(x, dep);
      if wait {
        Await(x, dep.id);
      } else {
        CountDown(x);
      }
    }

    /** Whether x must wait for a dependency without error: not if it is special, complete or on a cycle with x. */
    method MustWait(x: Id, dep: Dep) returns (wait: bool)
      modifies this`hasDependencyCycle
      ensures wait <==> Blocking(modules, x, dep)
      ensures hasDependencyCycle ==
                (old(hasDependencyCycle) || (dep.Regular? && !(dep.id in modules && modules[dep.id].complete) && !wait))
    {
      if !dep.Regular? || (dep.id in modules && modules[dep.id].complete) {
        return false;
      }
      var cyclic := CheckCycle(dep.id, x);
      return !cyclic;
    }

    /** Looks for a path back to x and, if there is one, for the cycle to warn about. */
    method CheckCycle(d: Id, x: Id) returns (cyclic: bool)
      modifies this`hasDependencyCycle
      ensures cyclic <==> HasPath(DepEdges(modules), d, x)
      ensures hasDependencyCycle == (old(hasDependencyCycle) || cyclic)
    {
      cyclic := HasDependencyPath(d, x);
      if cyclic {
        hasDependencyCycle := true;
        PathIsWithin(DepEdges(modules), d, x, CYCLE_DEPTH);
        var cyclePath := FindCyclePath(d, x, 0);
        assert cyclePath.Some?;
      }
    }

    /** Records x as waiting for d, and requests d. */
    method Await(x: Id, d: Id)
      modifies this`inverse, this`known, this`log
      ensures S() == Awaited(old(S()), x, d)
    {
      inverse := Push(inverse, d, x);
      LoadModule(d);
    }

    /** One unresolved dependency less. */
    method CountDown(x: Id)
      requires x in modules
      modifies this`modules
      ensures S() == Decremented(old(S()), x)
    {
      modules := modules[x := modules[x].(count := modules[x].count - 1)];
    }

    /** The module takes over an error and calls its errorback, if it has one. */
    method OnDependencyError(x: Id, err: Error) returns (notified: bool)
      requires x in modules
      modifies this`modules, this`log
      ensures S() == Failed(old(S()), x, err)
      ensures notified == old(modules)[x].errback
      ensures Work(modules) <= old(Work(modules)) && NoEscape(old(log), log)
    {
      WorkUpdate(modules, x, Errored(modules[x], err));
      notified := modules[x].errback;
      log := log + ErrbackEvents(modules[x], x);
      modules := modules[x := modules[x].(complete := true, error := Some(err))];
    }

    /** Requests the script of a module that is neither defined nor requested yet. */
    method LoadModule(d: Id)
      modifies this`known, this`log
      ensures S() == if d in old(modules) || d in old(known) then old(S()) else RequestedScript(old(S()), d)
    {
      if d in modules || d in known {
        return;
      }
      known := known + {d};
      log := log + [Requested(d)];
    }

    /**
     Runs the factory of a module with nothing left to wait for, then releases its waiters one by one. An
     exception that the manager does not catch leaves the module started, and its waiters waiting.
     */
    method OnModuleComplete(x: Id) returns (escaped: bool)
      requires Inv(S(), owed, active, {x}) && x in modules && modules[x].count == 0
      modifies this`modules, this`known, this`inverse, this`hasDependencyCycle, this`declared, this`log
      modifies this`owed, this`active
      ensures Stable() && Progress(old(Now()), Now(), Ending(escaped, catchError, true), 0)
      ensures End(S(), escaped) == Completion(old(S()), x, catchError)
      ensures modules[x].complete && (old(modules[x].complete) ==> S() == old(S()) && !escaped)
      ensures !old(modules[x].complete) ==>
                && old(modules[x].callback.Some?)
                && RanTo(old(S()), x, old(modules[x].callback.value), catchError, S(), escaped)
      decreases Work(modules), 0, 2
    {
      if modules[x].complete {
        CompleteIsNotReady(S(), owed, active, x);
        NoProgress(Now(), Ending(false, catchError, true), 0);
        return false;
      }
      ReadyShape(S(), owed, active, x);
      escaped := RunToEnd(x, modules[x].callback.value);
    }

    method RunToEnd(x: Id, factory: Factory) returns (escaped: bool)
      requires Inv(S(), owed, active, {x}) && x in modules && modules[x].count == 0 && !modules[x].complete
      requires modules[x].error.None? && modules[x].deps.Some? && modules[x].callback == Some(factory)
      modifies this`modules, this`known, this`inverse, this`hasDependencyCycle, this`declared, this`log
      modifies this`owed, this`active
      ensures Stable() && Progress(old(Now()), Now(), Ending(escaped, catchError, true), 0)
      ensures x in modules && modules[x].complete && RanTo(old(S()), x, factory, catchError, S(), escaped)
      ensures End(S(), escaped) == Completion(old(S()), x, catchError)
      decreases Work(modules), 0, 1
    {
      ghost var a := Now();
      escaped := RunInside(x, factory);
      InsideIsProgress(a, x, factory, Now(), Ending(escaped, catchError, true));
      if escaped {
        ProgressInside(a, x, factory, Now(), Ending(true, catchError, true));
      } else {
        escaped := EndFactory(x, factory, a);
      }
    }

    /** The factory has made its definitions: it throws, or returns. */
    method EndFactory(x: Id, factory: Factory, ghost a: Moment) returns (escaped: bool)
      requires Stable() && Inside(a, x, factory, Now(), Ending(false, catchError, true))
      requires End(S(), false) == Definitions(Started(a.s, x), factory.body, catchError)
      modifies this`modules, this`known, this`inverse, this`hasDependencyCycle, this`declared, this`log
      modifies this`owed, this`active
      ensures Stable() && Progress(a, Now(), Ending(escaped, catchError, true), 0)
      ensures x in modules && modules[x].complete && RanTo(a.s, x, factory, catchError, S(), escaped)
      ensures End(S(), escaped) == Completion(a.s, x, catchError)
      decreases Work(modules), 5
    {
      if factory.throws && !catchError {
        ProgressEscape(a, x, factory, Now(), Ending(false, catchError, true));
        Escape(x);
        return true;
      }
      escaped := ReturnFrom(x, factory, a);
    }

    method ReturnFrom(x: Id, factory: Factory, ghost a: Moment) returns (escaped: bool)
      requires Stable() && Inside(a, x, factory, Now(), Ending(false, catchError, true))
      requires factory.throws ==> catchError
      requires End(S(), false) == Definitions(Started(a.s, x), factory.body, catchError)
      modifies this`modules, this`known, this`inverse, this`hasDependencyCycle, this`declared, this`log
      modifies this`owed, this`active
      ensures Stable() && Progress(a, Now(), Ending(escaped, catchError, true), 0)
      ensures x in modules && modules[x].complete && RanTo(a.s, x, factory, catchError, S(), escaped)
      ensures End(S(), escaped) == Completion(a.s, x, catchError)
      decreases Work(modules), 4
    {
      ghost var u := Now();
      InsideIsProgress(a, x, factory, u, Ending(false, catchError, true));
      escaped := AfterFactory(x, factory.throws, a.active);
      ProgressAcross(a, x, factory, u, Ending(false, catchError, true), Now(), Ending(escaped, catchError, true));
      RanAcross(a, x, factory, u, Ending(false, catchError, true), Now(), Ending(escaped, catchError, true));
    }

    /** The factory starts and makes its definitions. */
    method RunInside(x: Id, factory: Factory) returns (escaped: bool)
      requires Inv(S(), owed, active, {x}) && x in modules && modules[x].count == 0 && !modules[x].complete
      requires modules[x].error.None? && modules[x].deps.Some? && modules[x].callback == Some(factory)
      modifies this`modules, this`known, this`inverse, this`hasDependencyCycle, this`declared, this`log
      modifies this`owed, this`active
      ensures Stable() && Inside(old(Now()), x, factory, Now(), Ending(escaped, catchError, true))
      ensures End(S(), escaped) == Definitions(Started(old(S()), x), factory.body, catchError)
      decreases Work(modules), 0, 0
    {
      StartKeeps(S(), owed, active, x);
      Begin(x);
      escaped := RunFactory(factory.body);
    }

    /** The exception of the factory of x is nobody's to catch. */
    method Escape(x: Id)
      requires Stable()
      modifies this`log
      ensures Stable() && S() == Escaping(old(S()), x)
    {
      EscapeKeeps(S(), owed, active, x);
      log := log + [Escaped(x)];
    }

    /** The factory is back: fetch and clear the waiters, and release them. */
    method AfterFactory(x: Id, throws: bool, ghost others: set<Id>) returns (escaped: bool)
      requires Stable() && active == others + {x} && x !in others
      requires x in modules && modules[x].complete && modules[x].error.None?
      modifies this`modules, this`known, this`inverse, this`hasDependencyCycle, this`declared, this`log
      modifies this`owed, this`active
      ensures Stable()
      ensures Progress(Moment(Finished(old(S()), x, throws), old(owed), others), Now(),
                       Ending(escaped, catchError, true), 0)
      ensures End(S(), escaped) == Releases(Finished(old(S()), x, throws), Waiters(old(inverse), x), catchError)
      decreases Work(modules), 3
    {
      FinishKeeps(S(), owed, others, x, throws);
      var inverseDeps := Waiters(inverse, x);
      Conclude(x, throws);
      assert active == others;
      escaped := Release(inverseDeps, old(owed));
    }

    method Begin(x: Id)
      requires x in modules && !modules[x].complete && modules[x].callback.Some?
      modifies this`modules, this`log, this`active
      ensures S() == Started(old(S()), x) && active == old(active) + {x}
      ensures Work(modules) == old(Work(modules)) - Size(old(modules[x].callback.value))
    {
      WorkUpdate(modules, x, modules[x].(complete := true));
      modules := modules[x := modules[x].(complete := true)];
      log := log + [Ran(x)];
      active := active + {x};
    }

    /** The factory's own `require` calls, in order, up to one from which an exception escapes. */
    method RunFactory(body: seq<Define>) returns (escaped: bool)
      requires Stable()
      modifies this`modules, this`known, this`inverse, this`hasDependencyCycle, this`declared, this`log
      modifies this`owed, this`active
      ensures Stable() && Progress(old(Now()), Now(), Ending(escaped, catchError, AllReturn(body)), SizeAll(body))
      ensures End(S(), escaped) == Definitions(old(S()), body, catchError)
      decreases Work(modules) + SizeAll(body), 4
    {
      ghost var a := Now();
      escaped := false;
      var i := 0;
      NoProgress(a, Ending(false, catchError, true), 0);
      while i < |body| && !escaped
        invariant i <= |body| && Stable()
        invariant Progress(a, Now(), Ending(escaped, catchError, AllReturn(body[..i])), SizeAll(body[..i]))
        invariant Definitions(a.s, body, catchError)
               == if escaped then End(S(), true) else Definitions(S(), body[i..], catchError)
        decreases |body| - i
      {
        OneMore(body, i);
        escaped := DefineNext(body[i], a, AllReturn(body[..i]), SizeAll(body[..i]));
        assert body[i..][0] == body[i] && body[i..][1..] == body[i + 1..];
        i := i + 1;
      }
      ProgressThrough(a, Now(), body, i, escaped, catchError);
    }

    method DefineNext(def: Define, ghost a: Moment, ghost calm: bool, ghost extra: nat) returns (escaped: bool)
      requires Stable() && Progress(a, Now(), Ending(false, catchError, calm), extra)
      modifies this`modules, this`known, this`inverse, this`hasDependencyCycle, this`declared, this`log
      modifies this`owed, this`active
      ensures Stable() && End(S(), escaped) == Definition(old(S()), def, catchError)
      ensures Progress(a, Now(), Ending(escaped, catchError, calm && Returns(def.factory)), extra + Size(def.factory))
      decreases Work(modules) + Size(def.factory), 3
    {
      ghost var b := Now();
      escaped := DefineModule(def);
      ProgressTrans(a, b, Now(), Ending(false, catchError, calm), Ending(escaped, catchError, Returns(def.factory)),
                    extra, Size(def.factory));
    }

    /** Records the outcome of the factory, clears what completion no longer needs and takes the list of waiters. */
    method Conclude(x: Id, throws: bool)
      requires x in modules && modules[x].complete
      modifies this`modules, this`log, this`inverse, this`owed, this`active
      ensures S() == Finished(old(S()), x, throws)
      ensures owed == old(owed) + multiset(Waiters(old(inverse), x)) && active == old(active) - {x}
      ensures Work(modules) == old(Work(modules))
    {
      WorkUpdate(modules, x, Outcome(modules[x], x, throws));
      owed, active := owed + multiset(Waiters(inverse, x)), active - {x};
      modules := modules[x := Outcome(modules[x], x, throws)];
      log := log + if throws then [Reported(FactoryThrew(x))] else [];
      inverse := inverse - {x};
    }

    /** Decrements the waiters one at a time, completing each that reaches zero. */
    method Release(waiters: seq<Id>, ghost rest: multiset<Id>) returns (escaped: bool)
      requires Stable() && owed == rest + multiset(waiters)
      modifies this`modules, this`known, this`inverse, this`hasDependencyCycle, this`declared, this`log
      modifies this`owed, this`active
      ensures Stable() && Progress(old(Now()).(owed := rest), Now(), Ending(escaped, catchError, true), 0)
      ensures End(S(), escaped) == Releases(old(S()), waiters, catchError)
      ensures forall y :: y in old(modules) && old(modules)[y].error.None? ==>
              (modules[y].complete <==> modules[y].count == 0)
      decreases Work(modules), 2, 2
    {
      ghost var a := Now();
      escaped := ReleaseAll(waiters, rest);
      AllCompleteAtZero(a.s, S(), owed, active);
    }

    method ReleaseAll(waiters: seq<Id>, ghost rest: multiset<Id>) returns (escaped: bool)
      requires Stable() && owed == rest + multiset(waiters)
      modifies this`modules, this`known, this`inverse, this`hasDependencyCycle, this`declared, this`log
      modifies this`owed, this`active
      ensures Stable() && Progress(old(Now()).(owed := rest), Now(), Ending(escaped, catchError, true), 0)
      ensures End(S(), escaped) == Releases(old(S()), waiters, catchError)
      decreases Work(modules), 2, 1
    {
      ghost var a := Now();
      escaped := false;
      var i := 0;
      assert waiters[0..] == waiters;
      NoProgress(a, Ending(false, catchError, true), 0);
      while i < |waiters| && !escaped
        invariant i <= |waiters| && Stable()
        invariant Progress(a.(owed := rest + multiset(waiters[i..])), Now(), Ending(escaped, catchError, true), 0)
        invariant ReleasedTo(a.s, waiters, i, catchError, S(), escaped)
        decreases |waiters| - i
      {
        FirstOf(waiters, i, rest);
        escaped := ReleaseNext(waiters, i, rest + multiset(waiters[i + 1..]), a);
        i := i + 1;
      }
      ProgressStopped(a, rest, waiters, i, Now(), Ending(escaped, catchError, true));
      ReleasedAll(a.s, waiters, i, catchError, S(), escaped);
    }

    method ReleaseNext(waiters: seq<Id>, i: nat, ghost rest: multiset<Id>, ghost a: Moment) returns (escaped: bool)
      requires i < |waiters| && ReleasedTo(a.s, waiters, i, catchError, S(), false)
      requires Stable() && Progress(a.(owed := rest + multiset{waiters[i]}), Now(), Ending(false, catchError, true), 0)
      modifies this`modules, this`known, this`inverse, this`hasDependencyCycle, this`declared, this`log
      modifies this`owed, this`active
      ensures Stable() && Progress(a.(owed := rest), Now(), Ending(escaped, catchError, true), 0)
      ensures ReleasedTo(a.s, waiters, i + 1, catchError, S(), escaped)
      decreases Work(modules), 2, 0
    {
      ghost var b := Now();
      escaped := ReleaseOne(waiters[i], rest);
      ProgressReleased(a, b, Now(), rest + multiset{waiters[i]}, rest, Ending(false, catchError, true),
                       Ending(escaped, catchError, true));
      ReleasedNext(a.s, waiters, i, catchError, b.s, End(S(), escaped));
    }

    method ReleaseOne(y: Id, ghost rest: multiset<Id>) returns (escaped: bool)
      requires Stable() && owed == rest + multiset{y}
      modifies this`modules, this`known, this`inverse, this`hasDependencyCycle, this`declared, this`log
      modifies this`owed, this`active
      ensures Stable() && Progress(old(Now()).(owed := rest), Now(), Ending(escaped, catchError, true), 0)
      ensures y in old(modules) && End(S(), escaped) == Settlement(Decremented(old(S()), y), y, catchError)
      decreases Work(modules), 1
    {
      ghost var a := Now();
      DecrementOwed(a.s, owed, rest, active, y);
      owed := rest;
      CountDown(y);
      ghost var b := Now();
      assert b == Moment(Decremented(a.s, y), rest, a.active);
      if modules[y].count != 0 {
        NoProgress(b, Ending(false, catchError, true), 0);
        ProgressCounted(a, y, rest, b, Ending(false, catchError, true));
        return false;
      }
      escaped := OnModuleComplete(y);
      ProgressCounted(a, y, rest, Now(), Ending(escaped, catchError, true));
    }

    /** The script of f did not load: everything that waits for f, directly or not, takes the error over. */
    method OnLoadError(f: Id) returns (ghost order: seq<Id>)
      requires Stable()
      modifies this`modules, this`declared, this`failed, this`log
      ensures Stable()
      ensures SpreadFrom(old(S()), f, order, Elements(order)) && ReachedInTurn(old(inverse), f, order)
      ensures S() == ErrorSpread(Stubbed(old(S()), f), f, order, Elements(order))
    {
      ghost var s := S();
      order := TellWaiters(f);
      ErrorSpreadKeeps(s, owed, active, f, order, Elements(order));
    }

    /** Tells the module and its waiters, and reports the error if none of them listens. */
    method TellWaiters(f: Id) returns (ghost order: seq<Id>)
      requires Stable()
      modifies this`modules, this`declared, this`failed, this`log
      ensures SpreadFrom(old(S()), f, order, Elements(order)) && ReachedInTurn(old(inverse), f, order)
      ensures S() == ErrorSpread(Stubbed(old(S()), f), f, order, Elements(order))
    {
      ghost var s := S();
      AddStub(f);
      var someoneNotified;
      WaitersAreDefined(s, owed, active, f);
      someoneNotified, order := SpreadError(f, Stubbed(s, f));
      assert forall x :: x in Elements(order) <==> x in order;
      if !someoneNotified {
        log := log + [Reported(LoadFailed(f))];
      }
      TellAll(Stubbed(s, f), f, order);
    }

    /** Walks the whole chain of inverse dependencies, telling each module on it once. */
    method SpreadError(f: Id, ghost u: State) returns (someoneNotified: bool, ghost order: seq<Id>)
      requires f in u.modules && S() == u.(failed := u.failed + {f})
      requires forall d, x :: d in u.inverse && x in u.inverse[d] ==> x in u.modules
      modifies this`modules, this`log
      ensures ReachedInTurn(u.inverse, f, order) && forall i :: 0 <= i < |order| ==> order[i] in u.modules
      ensures S() == Told(u, f, order) && someoneNotified == (ErrEvents(u.modules, order) != [])
    {
      order := [];
      var seen, queue := {f}, [f];
      someoneNotified := false;
      SpreadStart(u.inverse, f);
      TellNone(u, f);
      while queue != []
        invariant Spreading(u.inverse, f, seen, order, queue, {})
        invariant seen <= u.modules.Keys && forall i :: 0 <= i < |order| ==> order[i] in u.modules
        invariant S() == Told(u, f, order) && someoneNotified == (ErrEvents(u.modules, order) != [])
        decreases u.modules.Keys - seen, |queue|
      {
        someoneNotified, order, seen, queue := SpreadNext(f, u, someoneNotified, order, seen, queue);
      }
      SpreadDone(u.inverse, f, seen, order);
    }

    /** The next module in the queue is told, and its waiters are queued. */
    method SpreadNext(f: Id, ghost u: State, someone: bool, ghost told: seq<Id>, seen0: set<Id>, queue0: seq<Id>)
      returns (notified: bool, ghost order: seq<Id>, seen: set<Id>, queue: seq<Id>)
      requires forall d, x :: d in u.inverse && x in u.inverse[d] ==> x in u.modules
      requires queue0 != [] && Spreading(u.inverse, f, seen0, told, queue0, {})
      requires seen0 <= u.modules.Keys && forall i :: 0 <= i < |told| ==> told[i] in u.modules
      requires S() == Told(u, f, told) && someone == (ErrEvents(u.modules, told) != [])
      modifies this`modules, this`log
      ensures Spreading(u.inverse, f, seen, order, queue, {})
      ensures seen0 <= seen <= u.modules.Keys && (seen == seen0 ==> queue == queue0[1..])
      ensures forall i :: 0 <= i < |order| ==> order[i] in u.modules
      ensures S() == Told(u, f, order) && notified == (ErrEvents(u.modules, order) != [])
    {
      var element := queue0[0];
      SpreadTake(u.inverse, f, seen0, told, queue0);
      notified := TellElement(f, element, someone, u, told);
      order := told + [element];
      MoreTold(u.modules.Keys, told, element);
      seen, queue := QueueWaiters(f, element, seen0, queue0[1..], order, u.modules.Keys);
    }

    method TellElement(f: Id, x: Id, someone: bool, ghost u: State, ghost told: seq<Id>) returns (notified: bool)
      requires x in u.modules && x !in told && forall i :: 0 <= i < |told| ==> told[i] in u.modules
      requires S() == Told(u, f, told) && someone == (ErrEvents(u.modules, told) != [])
      modifies this`modules, this`log
      ensures S() == Told(u, f, told + [x]) && notified == (ErrEvents(u.modules, told + [x]) != [])
    {
      TellOne(u, f, told, x);
      notified := OnDependencyError(x, LoadFailed(f));
      notified := notified || someone;
    }

    /** A definition without a name waits for the script that made it to be reported as loaded. */
    method EnqueueDefineAnonymous(deps: seq<Dep>, factory: Factory) returns (ok: bool)
      modifies this`anonymousDefine
      ensures ok == old(anonymousDefine).None?
      ensures anonymousDefine == if ok then Some(AnonymousDefine(deps, factory)) else old(anonymousDefine)
    {
      ok := anonymousDefine.None?;
      if ok {
        anonymousDefine := Some(AnonymousDefine(deps, factory));
      }
    }

    /** A script has run: the definition it left without a name gets the name of the script. */
    method OnLoad(x: Id) returns (escaped: bool)
      requires Stable()
      modifies this
      ensures Stable() && anonymousDefine == None
      ensures Progress(old(Now()), Now(), Ending(escaped, catchError, LoadReturns(old(anonymousDefine))),
                       LoadSize(old(anonymousDefine)))
      ensures old(anonymousDefine).None? || x in old(modules) ==> S() == old(S()) && !escaped
      ensures old(anonymousDefine).Some? ==>
                var call := old(anonymousDefine).value;
                End(S(), escaped) == Definition(old(S()), Define(x, call.deps, false, call.factory), catchError)
      ensures old(anonymousDefine).Some? && x !in old(modules) ==>
                var call := old(anonymousDefine).value;
                && x in modules && Resolved(old(modules), Define(x, call.deps, false, call.factory), modules[x])
                && Settles(Examined(Inserted(old(S()), Define(x, call.deps, false, call.factory)), x, call.deps),
                           x, call.factory, catchError, S(), escaped)
    {
      var pending := anonymousDefine;
      anonymousDefine := None;
      if pending.None? {
        NoProgress(Now(), Ending(false, catchError, true), 0);
        return false;
      }
      escaped := DefineModule(Define(x, pending.value.deps, false, pending.value.factory));
    }

    /** A module that fails before it is defined gets an empty definition. */
    method AddStub(f: Id)
      modifies this`modules, this`declared, this`failed
      ensures S() == Stubbed(old(S()), f).(failed := old(failed) + {f})
    {
      failed := failed + {f};
      if f !in modules {
        modules := modules[f := NewModule([], Factory([], false), false)];
        declared := declared[f := []];
      }
    }

    /** Queues the waiters of one module that the search has not seen. */
    method QueueWaiters(f: Id, element: Id, seen0: set<Id>, queue0: seq<Id>, ghost told: seq<Id>, ghost all: set<Id>)
      returns (seen: set<Id>, queue: seq<Id>)
      requires Spreading(inverse, f, seen0, told, queue0, {element}) && element in seen0 && seen0 <= all
      requires told != [] && told[|told| - 1] == element
      requires forall x :: x in Waiters(inverse, element) ==> x in all
      ensures Spreading(inverse, f, seen, told, queue, {})
      ensures seen0 <= seen <= all && (seen == seen0 ==> queue == queue0)
    {
      seen, queue := seen0, queue0;
      var inverseDeps := Waiters(inverse, element);
      for i := 0 to |inverseDeps|
        invariant Spreading(inverse, f, seen, told, queue, {element})
        invariant seen0 <= seen <= all && (seen == seen0 ==> queue == queue0)
        invariant forall j :: 0 <= j < i ==> inverseDeps[j] in seen
      {
        var inverseDep := inverseDeps[i];
        if inverseDep !in seen {
          SpreadPush(inverse, f, seen, told, queue, element, inverseDep);
          queue := queue + [inverseDep];
          seen := seen + {inverseDep};
        }
      }
      assert Spread(inverse, seen, element);
    }
  }
}
