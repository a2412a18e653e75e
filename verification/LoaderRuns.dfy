/** Whole runs of the manager, and concrete ones that show what it does not promise. */
module LoaderRuns {
  import opened Basics
  import opened Graph
  import opened LoaderState
  import opened LoaderInvariant
  import opened LoaderSteps
  import opened LoaderSearch
  import opened LoaderCalls
  import opened LoaderCascade
  import opened LoaderManager
  import opened LoaderTheorems

  /** What the outside world may do to the manager. */
  datatype Step =
    | DefineCall(def: Define)
    | AnonymousCall(deps: seq<Dep>, factory: Factory)
    | ScriptLoaded(id: Id)
    | ScriptFailed(id: Id)

  /** The manager between steps: its state, and the definition that waits for its script. */
  datatype Point = Point(s: State, pending: Option<AnonymousDefine>)

  ghost function At(m: ModuleManager): Point
    reads m
  {
    Point(m.S(), m.anonymousDefine)
  }

  /** What a step does: a definition with its cascade, a definition kept for its script, or a failure passed on. */
  ghost predicate Took(a: Point, step: Step, b: Point, catchError: bool, escaped: bool) {
    match step
    case DefineCall(def) => b.pending == a.pending && End(b.s, escaped) == Definition(a.s, def, catchError)
    case AnonymousCall(deps, factory) =>
      !escaped && b == if a.pending.None? then a.(pending := Some(AnonymousDefine(deps, factory))) else a
    case ScriptLoaded(id) =>
      && b.pending.None?
      && End(b.s, escaped) ==
           (match a.pending
            case None => End(a.s, false)
            case Some(call) => Definition(a.s, Define(id, call.deps, false, call.factory), catchError))
    case ScriptFailed(id) => !escaped && b.pending == a.pending && FailurePassed(a.s, id, b.s)
  }

  ghost predicate FailurePassed(s: State, f: Id, t: State) {
    exists order :: PassedOn(s, f, order, t)
  }

  ghost predicate PassedOn(s: State, f: Id, order: seq<Id>, t: State) {
    && SpreadFrom(s, f, order, Elements(order)) && ReachedInTurn(s.inverse, f, order)
    && t == ErrorSpread(Stubbed(s, f), f, order, Elements(order))
  }

  /** The points between the steps of a run. */
  ghost predicate Traced(trace: seq<Point>, ends: seq<bool>, steps: seq<Step>, catchError: bool) {
    && |trace| == |steps| + 1 && |ends| == |steps|
    && forall i {:trigger steps[i]} :: 0 <= i < |steps| ==> Took(trace[i], steps[i], trace[i + 1], catchError, ends[i])
  }

  lemma TracedMore(trace: seq<Point>, ends: seq<bool>, steps: seq<Step>, i: nat, b: Point, catchError: bool, end: bool)
    requires i < |steps| && Traced(trace, ends, steps[..i], catchError) && Took(trace[i], steps[i], b, catchError, end)
    ensures Traced(trace + [b], ends + [end], steps[..i + 1], catchError)
  {
    var next, some := trace + [b], steps[..i + 1];
    forall k {:trigger some[k]} | 0 <= k < |some|
      ensures Took(next[k], some[k], next[k + 1], catchError, (ends + [end])[k])
    {
      assert k < i ==> some[k] == steps[..i][k];
    }
  }

  /** The step brings no factory that throws. */
  ghost predicate StepReturns(step: Step) {
    match step
    case DefineCall(def) => Returns(def.factory)
    case AnonymousCall(_, factory) => Returns(factory)
    case _ => true
  }

  function Fails(step: Step): nat {
    if step.ScriptFailed? then 1 else 0
  }

  function Failures(steps: seq<Step>): nat {
    if steps == [] then 0 else Failures(steps[..|steps| - 1]) + Fails(steps[|steps| - 1])
  }

  /** No factory that throws is waiting to run. */
  ghost predicate Harmless(m: ModuleManager)
    reads m
  {
    Quiet(m.modules) && LoadReturns(m.anonymousDefine)
  }

  /** Every errorback has been called at most `n` times more than for errors that its module took over. */
  ghost predicate ErrbacksWithin(s: State, t: State, n: nat) {
    && (forall x :: Errbacks(t, x) - TookOver(t, x) <= Errbacks(s, x) - TookOver(s, x) + n)
    && (n == 0 ==> ErrbacksKept(s, t))
  }

  lemma ErrbacksTrans(s: State, t: State, u: State, n: nat, k: nat)
    requires ErrbacksWithin(s, t, n) && ErrbacksWithin(t, u, k)
    ensures ErrbacksWithin(s, u, n + k)
  {
    forall x
      ensures Errbacks(u, x) - TookOver(u, x) <= Errbacks(s, x) - TookOver(s, x) + n + k
      ensures n + k == 0 ==> Errbacks(u, x) - TookOver(u, x) == Errbacks(s, x) - TookOver(s, x)
    {
      assert Errbacks(t, x) - TookOver(t, x) <= Errbacks(s, x) - TookOver(s, x) + n;
    }
  }

  /** One step of a run: what it keeps, however it ends. */
  ghost predicate Went(a: Moment, b: Moment, failures: nat) {
    && Later(a.s, b.s) && a.owed <= b.owed && a.active <= b.active
    && ErrbacksWithin(a.s, b.s, failures)
  }

  lemma WentTrans(a: Moment, b: Moment, c: Moment, n: nat, k: nat)
    requires Went(a, b, n) && Went(b, c, k)
    ensures Went(a, c, n + k)
  {
    LaterTrans(a.s, b.s, c.s);
    ErrbacksTrans(a.s, b.s, c.s, n, k);
  }

  lemma WentNowhere(a: Moment)
    ensures Went(a, a, 0)
  {
  }

  lemma ProgressWent(a: Moment, b: Moment, e: Ending, extra: nat)
    requires Progress(a, b, e, extra) && Explained(a.s, a.owed, a.active)
    ensures Went(a, b, 0) && Explained(b.s, b.owed, b.active)
    ensures e.escaped <==> b.active != a.active
    ensures e.catchError || (e.calm && Quiet(a.s.modules)) ==> !e.escaped
    ensures e.calm && Quiet(a.s.modules) ==> Quiet(b.s.modules)
  {
    ExtendsIsLater(a.s, b.s);
    ExplainedKept(a, b, e, extra);
  }

  lemma FailureWent(a: Moment, f: Id, order: seq<Id>, b: Moment)
    requires Inv(a.s, a.owed, a.active, {}) && SpreadFrom(a.s, f, order, Elements(order))
    requires b == a.(s := ErrorSpread(Stubbed(a.s, f), f, order, Elements(order)))
    ensures Went(a, b, 1)
  {
    SpreadIsLater(a.s, a.owed, a.active, f, order);
    forall x ensures Errbacks(b.s, x) - TookOver(b.s, x) <= Errbacks(a.s, x) - TookOver(a.s, x) + 1 {
      ErrbacksBound(a.s, f, order, x);
    }
  }

  lemma FailureExplained(a: Moment, f: Id, order: seq<Id>)
    requires SpreadFrom(a.s, f, order, Elements(order)) && Explained(a.s, a.owed, a.active)
    ensures Explained(ErrorSpread(Stubbed(a.s, f), f, order, Elements(order)), a.owed, a.active)
    ensures Quiet(a.s.modules) ==> Quiet(ErrorSpread(Stubbed(a.s, f), f, order, Elements(order)).modules)
  {
    var u := Stubbed(a.s, f);
    var t := ErrorSpread(u, f, order, Elements(order));
    ErrEventsAre(u.modules, order);
    assert Returns(Factory([], false));
    assert forall x :: Escaped(x) in t.log <==> Escaped(x) in a.s.log;
  }

  /** What a step promises: `n` scripts failed in it. */
  twostate predicate Steps(m: ModuleManager, n: nat, calm: bool, escaped: bool)
    reads m
  {
    && Inv(m.S(), m.owed, m.active, {}) && Explained(m.S(), m.owed, m.active)
    && Went(old(m.Now()), m.Now(), n)
    && (escaped <==> m.active != old(m.active)) && (m.catchError ==> !escaped)
    && (old(Harmless(m)) && calm ==> Harmless(m) && !escaped)
  }

  method MakeDefinition(m: ModuleManager, def: Define) returns (escaped: bool)
    requires m.Stable()
    modifies m
    ensures m.Stable() && Took(old(At(m)), DefineCall(def), At(m), m.catchError, escaped)
    ensures Progress(old(m.Now()), m.Now(), Ending(escaped, m.catchError, Returns(def.factory)), Size(def.factory))
  {
    escaped := m.DefineModule(def);
  }

  method TakeDefine(m: ModuleManager, def: Define) returns (escaped: bool)
    requires m.Stable() && Explained(m.S(), m.owed, m.active)
    modifies m
    ensures Steps(m, 0, Returns(def.factory), escaped)
    ensures Took(old(At(m)), DefineCall(def), At(m), m.catchError, escaped)
  {
    ghost var a := m.Now();
    escaped := MakeDefinition(m, def);
    ProgressWent(a, m.Now(), Ending(escaped, m.catchError, Returns(def.factory)), Size(def.factory));
  }

  method TakeLoaded(m: ModuleManager, id: Id) returns (escaped: bool)
    requires m.Stable() && Explained(m.S(), m.owed, m.active)
    modifies m
    ensures Steps(m, 0, true, escaped) && Took(old(At(m)), ScriptLoaded(id), At(m), m.catchError, escaped)
  {
    ghost var a, calm, extra := m.Now(), LoadReturns(m.anonymousDefine), LoadSize(m.anonymousDefine);
    escaped := m.OnLoad(id);
    ProgressWent(a, m.Now(), Ending(escaped, m.catchError, calm), extra);
  }

  method TakeFailed(m: ModuleManager, id: Id)
    requires m.Stable() && Explained(m.S(), m.owed, m.active)
    modifies m
    ensures Steps(m, 1, true, false) && Took(old(At(m)), ScriptFailed(id), At(m), m.catchError, false)
  {
    ghost var a := m.Now();
    ghost var order := m.OnLoadError(id);
    assert PassedOn(a.s, id, order, m.S());
    FailureWent(a, id, order, m.Now());
    FailureExplained(a, id, order);
  }

  method TakeStep(m: ModuleManager, step: Step) returns (escaped: bool)
    requires m.Stable() && Explained(m.S(), m.owed, m.active)
    modifies m
    ensures Steps(m, Fails(step), StepReturns(step), escaped) && Took(old(At(m)), step, At(m), m.catchError, escaped)
  {
    match step
    case DefineCall(def) =>
      escaped := TakeDefine(m, def);
    case AnonymousCall(deps, factory) =>
      WentNowhere(m.Now());
      var _ := m.EnqueueDefineAnonymous(deps, factory);
      escaped := false;
    case ScriptLoaded(id) =>
      escaped := TakeLoaded(m, id);
    case ScriptFailed(id) =>
      TakeFailed(m, id);
      escaped := false;
  }

  /**
   Any run from any state that calls have left. History and completions are final, waits end only when their
   targets return, and errorbacks are called once for an error taken over, and at most once more for each failed
   load. A manager that catches, or is given no factory that throws, leaves nothing behind.
   */
  method RunFrom(m: ModuleManager, steps: seq<Step>) returns (ghost trace: seq<Point>, ghost ends: seq<bool>)
    requires m.Stable() && Explained(m.S(), m.owed, m.active)
    modifies m
    ensures m.Stable() && Explained(m.S(), m.owed, m.active)
    ensures Traced(trace, ends, steps, m.catchError) && trace[0] == old(At(m)) && trace[|steps|] == At(m)
    ensures Went(old(m.Now()), m.Now(), Failures(steps))
    ensures m.catchError || (old(Harmless(m)) && forall i :: 0 <= i < |steps| ==> StepReturns(steps[i])) ==>
              m.active == old(m.active)
  {
    ghost var a := m.Now();
    trace, ends := [At(m)], [];
    WentNowhere(a);
    for i := 0 to |steps|
      invariant m.Stable() && Explained(m.S(), m.owed, m.active)
      invariant Went(a, m.Now(), Failures(steps[..i]))
      invariant Traced(trace, ends, steps[..i], m.catchError) && trace[0] == old(At(m)) && trace[i] == At(m)
      invariant m.catchError || (old(Harmless(m)) && forall i :: 0 <= i < |steps| ==> StepReturns(steps[i])) ==>
                  m.active == old(m.active) && (m.catchError || Harmless(m))
    {
      ghost var b := m.Now();
      var escaped := TakeStep(m, steps[i]);
      TracedMore(trace, ends, steps, i, At(m), m.catchError, escaped);
      trace, ends := trace + [At(m)], ends + [escaped];
      FailuresSnoc(steps, i);
      WentTrans(a, b, m.Now(), Failures(steps[..i]), Fails(steps[i]));
    }
    assert steps[..|steps|] == steps;
  }

  lemma FailuresSnoc(steps: seq<Step>, i: nat)
    requires i < |steps|
    ensures Failures(steps[..i + 1]) == Failures(steps[..i]) + Fails(steps[i])
  {
    assert steps[..i + 1][..i] == steps[..i];
  }

  /**
   Any run from a fresh manager. When no script failed, no factory threw, and every requested script has defined its
   module, every factory has run and returned, whatever cycles the dependencies have.
   */
  method Run(catchError: bool, steps: seq<Step>)
    returns (m: ModuleManager, ghost trace: seq<Point>, ghost ends: seq<bool>)
    ensures Traced(trace, ends, steps, catchError) && trace[0] == Point(EMPTY, None) && trace[|steps|] == At(m)
    ensures fresh(m) && m.catchError == catchError && m.Stable() && Explained(m.S(), m.owed, m.active)
    ensures forall x :: Errbacks(m.S(), x) <= 1 + Failures(steps)
    ensures catchError || (forall i :: 0 <= i < |steps| ==> StepReturns(steps[i])) ==> NothingEscaped(m.log)
    ensures NothingFailed(m.S()) && m.known <= m.modules.Keys ==>
              forall x :: x in m.modules ==> Returned(m.S(), x) && Ran(x) in m.log
  {
    m := new ModuleManager(catchError);
    ghost var a := m.Now();
    trace, ends := RunFrom(m, steps);
    ErrbacksOfRun(a.s, m.S(), Failures(steps));
    if NothingFailed(m.S()) && m.known <= m.modules.Keys {
      forall x | x in m.modules
        ensures Returned(m.S(), x) && Ran(x) in m.log
      {
        NoDeadlock(m.S(), m.owed, m.active, x);
      }
    }
  }

  lemma ErrbacksOfRun(s: State, t: State, n: nat)
    requires s.log == [] && s.modules == map[] && ErrbacksWithin(s, t, n)
    ensures forall x :: Errbacks(t, x) <= 1 + n
  {
    forall x ensures Errbacks(t, x) <= 1 + n {
      assert Errbacks(t, x) - TookOver(t, x) <= Errbacks(s, x) - TookOver(s, x) + n;
    }
  }

  // ---------- four runs ----------

  lemma NoPathFromUndefined(modules: map<Id, Module>, d: Id, x: Id)
    requires d !in modules
    ensures !HasPath(DepEdges(modules), d, x)
  {
  }

  /** A module with one dependency, on an undefined module, waits for it. */
  lemma WaitsForOne(s: State, def: Define, d: Id)
    requires def.deps == [Regular(d)] && d !in s.modules && d != def.id
    ensures Examined(Inserted(s, def), def.id, def.deps) == Awaited(Inserted(s, def), def.id, d)
  {
    var t := Inserted(s, def);
    NoPathFromUndefined(t.modules, d, def.id);
    assert ErrorOf(t.modules, def.deps[0]).None?;
    assert ErrorIndex(t.modules, def.deps, 0) == 1;
    assert ExaminedUpTo(t, def.id, def.deps, 0) == t;
  }

  lemma WaitsForTwo(s: State, def: Define, d: Id, c: Id)
    requires def.deps == [Regular(d), Regular(c)] && d !in s.modules && c !in s.modules && d != def.id && c != def.id
    ensures Examined(Inserted(s, def), def.id, def.deps) == Awaited(Awaited(Inserted(s, def), def.id, d), def.id, c)
  {
    var t := Inserted(s, def);
    NoPathFromUndefined(t.modules, d, def.id);
    NoPathFromUndefined(t.modules, c, def.id);
    assert ErrorOf(t.modules, def.deps[0]).None? && ErrorOf(t.modules, def.deps[1]).None?;
    assert ErrorIndex(t.modules, def.deps, 0) == 2;
    assert ExaminedUpTo(t, def.id, def.deps, 0) == t;
    assert ExaminedUpTo(t, def.id, def.deps, 1) == Awaited(t, def.id, d);
  }

  /** A module whose one dependency carries an error takes it over. */
  lemma FailsAtOne(s: State, def: Define, d: Id, err: Error)
    requires def.deps == [Regular(d)] && d in s.modules && d != def.id && ErrorOf(s.modules, Regular(d)) == Some(err)
    ensures Examined(Inserted(s, def), def.id, def.deps) == Failed(Inserted(s, def), def.id, err)
  {
    var t := Inserted(s, def);
    assert ErrorOf(t.modules, def.deps[0]) == Some(err);
    assert ErrorIndex(t.modules, def.deps, 0) == 0;
    assert ExaminedUpTo(t, def.id, def.deps, 0) == t;
  }

  /** Defines a module that stays where the examination of its dependencies leaves it. */
  method DefineUpTo(m: ModuleManager, def: Define, ghost t: State)
    requires m.Stable() && def.id !in m.modules && t == Examined(Inserted(m.S(), def), def.id, def.deps)
    requires t.modules[def.id].complete || t.modules[def.id].count != 0
    modifies m
    ensures m.Stable() && m.S() == t && m.anonymousDefine == old(m.anonymousDefine)
  {
    var escaped := m.DefineModule(def);
  }

  method DefineWaiting(m: ModuleManager, def: Define, d: Id)
    requires m.Stable() && def.id !in m.modules && def.deps == [Regular(d)] && d !in m.modules && d != def.id
    modifies m
    ensures m.Stable() && m.S() == Awaited(Inserted(old(m.S()), def), def.id, d)
    ensures m.anonymousDefine == old(m.anonymousDefine)
  {
    WaitsForOne(m.S(), def, d);
    DefineUpTo(m, def, Awaited(Inserted(m.S(), def), def.id, d));
  }

  method DefineFailing(m: ModuleManager, def: Define, d: Id, err: Error)
    requires m.Stable() && def.id !in m.modules && def.deps == [Regular(d)] && d != def.id
    requires ErrorOf(m.modules, Regular(d)) == Some(err)
    modifies m
    ensures m.Stable() && m.S() == Failed(Inserted(old(m.S()), def), def.id, err)
  {
    FailsAtOne(m.S(), def, d, err);
    DefineUpTo(m, def, Failed(Inserted(m.S(), def), def.id, err));
  }

  /** The script of x loads, with a definition that throws and that nobody catches. */
  method LoadThrowing(m: ModuleManager, x: Id)
    requires m.Stable() && !m.catchError && m.anonymousDefine.None? && x !in m.modules
    modifies m
    ensures m.Stable()
    ensures m.S() == Escaping(Started(Inserted(old(m.S()), Define(x, [], false, Factory([], true))), x), x)
  {
    var _ := m.EnqueueDefineAnonymous([], Factory([], true));
    ghost var t := Inserted(m.S(), Define(x, [], false, Factory([], true)));
    assert ErrorIndex(t.modules, [], 0) == 0 && ExaminedUpTo(t, x, [], 0) == t;
    ThrowsAtOnce(t, x);
    var escaped := m.OnLoad(x);
  }

  const EMPTY := State(map[], {}, map[], map[], {}, [])

  function Plain(x: Id, d: Id): Define {
    Define(x, [Regular(d)], false, Factory([], false))
  }

  lemma EscapeState()
    ensures var s := Awaited(Inserted(EMPTY, Plain(1, 2)), 1, 2);
            var t := Escaping(Started(Inserted(s, Define(2, [], false, Factory([], true))), 2), 2);
            && t.known == {2} <= t.modules.Keys && t.failed == {} && (forall err :: Reported(err) !in t.log)
            && WaitsOnBlocker(t, 1, 2)
  {
    var s := Awaited(Inserted(EMPTY, Plain(1, 2)), 1, 2);
    var t := Escaping(Started(Inserted(s, Define(2, [], false, Factory([], true))), 2), 2);
    assert t.inverse == map[2 := [] + [1]] && t.inverse[2] == [1];
    assert t.log == [] + [Requested(2)] + [Ran(2)] + [Escaped(2)];
  }

  /**
   With `catchError` off, as by default, a module may wait for good although no script failed, every requested
   script has defined its module, and nothing was reported: the factory that it waits for threw.
   */
  method EscapeStrandsWaiter() returns (m: ModuleManager)
    ensures fresh(m) && m.Stable() && !m.catchError
    ensures m.known == {2} <= m.modules.Keys && m.failed == {} && forall err :: Reported(err) !in m.log
    ensures WaitsOnBlocker(m.S(), 1, 2)
  {
    m := new ModuleManager(false);
    DefineWaiting(m, Plain(1, 2), 2);
    LoadThrowing(m, 2);
    EscapeState();
  }

  /**
   With `catchError` off, module 1 has an errorback and its factory throws. Then a script of that id is reported as
   failed, and the errorback is called as well.
   */
  method BothCallbacks() returns (m: ModuleManager)
    ensures fresh(m) && m.Stable() && Ran(1) in m.log && Errback(1) in m.log
  {
    m := new ModuleManager(false);
    var one := Define(1, [], true, Factory([], true));
    ghost var t := Inserted(EMPTY, one);
    assert ErrorIndex(t.modules, [], 0) == 0 && ExaminedUpTo(t, 1, [], 0) == t;
    ThrowsAtOnce(t, 1);
    var escaped := m.DefineModule(one);
    ghost var s := m.S();
    assert s == Escaping(Started(t, 1), 1);
    ghost var order := m.OnLoadError(1);
    SpreadReachesItself(s, 1, order);
  }

  lemma SpreadReachesItself(s: State, f: Id, order: seq<Id>)
    requires SpreadFrom(s, f, order, Elements(order)) && f in s.modules && s.modules[f].errback && Ran(f) in s.log
    ensures var t := ErrorSpread(Stubbed(s, f), f, order, Elements(order));
            Ran(f) in t.log && Errback(f) in t.log
  {
    ReachesSelf(WaiterEdges(s.inverse), f);
    ErrEventsAre(Stubbed(s, f).modules, order);
  }

  lemma TwoWaits()
    ensures var s := Inserted(EMPTY, Define(3, [Regular(4), Regular(5)], true, Factory([], false)));
            var t := Awaited(Awaited(s, 3, 4), 3, 5);
            && t.known == {4, 5} && t.modules == s.modules && Errbacks(t, 3) == 0
            && WaitEdges(t.inverse)(3, 4) && WaitEdges(t.inverse)(3, 5)
  {
    var s := Inserted(EMPTY, Define(3, [Regular(4), Regular(5)], true, Factory([], false)));
    var t := Awaited(Awaited(s, 3, 4), 3, 5);
    assert t.inverse == map[4 := [] + [3], 5 := [] + [3]] && t.inverse[4] == t.inverse[5] == [3];
    assert t.log == [] + [Requested(4)] + [Requested(5)];
  }

  /** Module 3 waits for 4 and for 5. Both scripts fail, and the errorback of 3 is called by each failure. */
  method ErrbackTwice() returns (m: ModuleManager)
    ensures fresh(m) && m.Stable() && Errbacks(m.S(), 3) == 2
  {
    m := new ModuleManager(false);
    var three := Define(3, [Regular(4), Regular(5)], true, Factory([], false));
    WaitsForTwo(EMPTY, three, 4, 5);
    DefineUpTo(m, three, Awaited(Awaited(Inserted(EMPTY, three), 3, 4), 3, 5));
    TwoWaits();
    assert m.known == {4, 5};
    ghost var s := m.S();
    ghost var order := m.OnLoadError(4);
    ghost var order' := m.OnLoadError(5);
    ErrbackRunsTwice(s, 4, 5, 3, order, order');
  }

  lemma TwoApart()
    ensures var s := Awaited(Inserted(EMPTY, Plain(6, 5)), 6, 5);
            var t := Awaited(Inserted(s, Plain(3, 4)), 3, 4);
            && t.known == {4, 5} && t.inverse == map[5 := [6], 4 := [3]] && t.modules.Keys == {3, 6}
            && !t.modules[3].complete && NothingEscaped(t.log)
  {
    var s := Awaited(Inserted(EMPTY, Plain(6, 5)), 6, 5);
    var t := Awaited(Inserted(s, Plain(3, 4)), 3, 4);
    assert s.inverse == map[5 := [] + [6]] && s.inverse[5] == [6];
    assert t.inverse == map[5 := [6], 4 := [] + [3]] && t.inverse[4] == [3];
    assert t.log == [] + [Requested(5)] + [Requested(4)];
  }

  /** When the script of f fails, f carries the error, and a module that waits for another one only is not touched. */
  lemma FailureLeaves(s: State, f: Id, order: seq<Id>, y: Id)
    requires SpreadFrom(s, f, order, Elements(order)) && y in s.modules && y != f
    requires forall d :: d in s.inverse && y in s.inverse[d] ==>
               d != f && forall c :: c in s.inverse ==> d !in s.inverse[c]
    ensures var t := ErrorSpread(Stubbed(s, f), f, order, Elements(order));
            && t.inverse == s.inverse && t.known == s.known && t.modules.Keys == s.modules.Keys + {f}
            && t.modules[f].complete && t.modules[f].error == Some(LoadFailed(f)) && t.modules[y] == s.modules[y]
            && (NothingEscaped(s.log) ==> NothingEscaped(t.log))
  {
    var e := WaiterEdges(s.inverse);
    ReachesSelf(e, f);
    if Reaches(e, f, y) {
      var d, c := LastSteps(e, f, y);
    }
    ErrEventsAre(Stubbed(s, f).modules, order);
  }

  /** The last two edges of a walk, as far as it has them. */
  lemma LastSteps(e: Edges, f: Id, y: Id) returns (d: Id, c: Id)
    requires Reaches(e, f, y) && f != y
    ensures e(d, y) && (d == f || e(c, d))
  {
    var p :| IsWalkFromTo(e, p, f, y);
    var n := |p| - 1;
    d := p[n - 1];
    c := if n >= 2 then p[n - 2] else f;
  }

  /**
   An error met while a module is resolved is not passed on. The script of 5, requested for 6, fails. Then 4 is
   defined, depends on 5, and takes the error over; 3, which waits for 4, stays incomplete.
   */
  method ResolveErrorStrandsWaiter() returns (m: ModuleManager)
    ensures fresh(m) && m.Stable() && NothingEscaped(m.log) && m.known == {4, 5} <= m.modules.Keys
    ensures m.modules[4].error == Some(LoadFailed(5)) && WaitsOnBlocker(m.S(), 3, 4)
  {
    m := TwoWaiting();
    assert 5 in m.known;
    FailScript(m, 5, 3);
    DefineFailing(m, Plain(4, 5), 5, LoadFailed(5));
  }

  method FailScript(m: ModuleManager, f: Id, y: Id)
    requires m.Stable() && f in m.known && y in m.modules && y != f && NothingEscaped(m.log)
    requires forall d :: d in m.inverse && y in m.inverse[d] ==>
               d != f && forall c :: c in m.inverse ==> d !in m.inverse[c]
    modifies m
    ensures m.Stable() && NothingEscaped(m.log)
    ensures m.inverse == old(m.inverse) && m.known == old(m.known) && m.modules.Keys == old(m.modules.Keys) + {f}
    ensures ErrorOf(m.modules, Regular(f)) == Some(LoadFailed(f)) && m.modules[y] == old(m.modules[y])
  {
    ghost var s := m.S();
    ghost var order := m.OnLoadError(f);
    FailureLeaves(s, f, order, y);
  }

  method TwoWaiting() returns (m: ModuleManager)
    ensures fresh(m) && m.Stable() && m.known == {4, 5} && m.inverse == map[5 := [6], 4 := [3]]
    ensures m.modules.Keys == {3, 6} && !m.modules[3].complete && NothingEscaped(m.log)
  {
    m := new ModuleManager(false);
    DefineWaiting(m, Plain(6, 5), 5);
    DefineWaiting(m, Plain(3, 4), 4);
    TwoApart();
  }
}
