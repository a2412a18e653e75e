/** What the manager promises in every state that its calls leave, exceptions included. */
module LoaderTheorems {
  import opened Basics
  import opened Graph
  import opened LoaderState
  import opened LoaderInvariant
  import opened LoaderSteps
  import opened LoaderCalls

  // ---------- what exceptions leave behind ----------

  ghost predicate NothingEscaped(log: seq<Event>) {
    forall x :: Escaped(x) !in log
  }

  /** A factory is stuck exactly if an exception has escaped, and decrements are missing only then. */
  ghost predicate Explained(s: State, owed: multiset<Id>, active: set<Id>) {
    && (active == {} <==> NothingEscaped(s.log))
    && (active == {} ==> owed == multiset{})
  }

  lemma ExplainedKept(a: Moment, b: Moment, e: Ending, extra: nat)
    requires Explained(a.s, a.owed, a.active) && Progress(a, b, e, extra)
    ensures Explained(b.s, b.owed, b.active)
  {
    if e.escaped {
      var n := |b.s.log| - 1;
      assert b.s.log[n] == Escaped(b.s.log[n].id);
    } else if !NothingEscaped(a.s.log) {
      var x :| Escaped(x) in a.s.log;
      assert Escaped(x) in b.s.log;
    }
  }

  /** Counters, waits and callbacks stand as they do without exceptions exactly when no exception has escaped. */
  lemma ValidExactly(s: State, owed: multiset<Id>, active: set<Id>)
    requires Inv(s, owed, active, {}) && Explained(s, owed, active)
    ensures Valid(s) <==> NothingEscaped(s.log)
  {
    if Valid(s) {
      NoneActive(s, owed, active);
    }
  }

  lemma NoneActive(s: State, owed: multiset<Id>, active: set<Id>)
    requires Inv(s, owed, active, {}) && Valid(s)
    ensures active == {}
  {
    forall x ensures x !in active {
      if x in s.modules {
        assert ShapeOk(s, active, x) && ShapeOk(s, {}, x);
      }
    }
  }

  /** A module that an interrupted release has left out never runs. */
  lemma AbandonedForGood(t: State, owed: multiset<Id>, active: set<Id>, x: Id)
    requires Inv(t, owed, active, {}) && x in owed
    ensures x in t.modules && Ran(x) !in t.log
  {
    assert ShapeOk(t, active, x) && CountOk(t, owed, {}, x);
  }

  // ---------- counters and factories ----------

  /** An incomplete module's counter is positive, and the number of waits recorded for it and of decrements left out. */
  lemma CounterIsWaits(s: State, owed: multiset<Id>, active: set<Id>, x: Id)
    requires Inv(s, owed, active, {}) && x in s.modules && !s.modules[x].complete
    ensures s.modules[x].count == AllWaits(s.inverse)[x] + owed[x] && s.modules[x].count >= 1
  {
    assert CountOk(s, owed, {}, x);
  }

  lemma {:induction false} OnceCount(log: seq<Event>, e: Event)
    requires OnceInLog(log) && (e.Ran? || e.Requested?)
    ensures multiset(log)[e] <= 1
    decreases |log|
  {
    if log != [] {
      var n := |log| - 1;
      assert log == log[..n] + [log[n]];
      OnceCount(log[..n], e);
      if log[n] == e {
        assert forall i :: 0 <= i < n ==> log[..n][i] != e;
        assert e !in log[..n];
      }
    }
  }

  /**
   Every factory runs at most once and every script is requested at most once. A module has called both its callbacks
   exactly if it has an errorback, its factory has not returned, and it carries an error: that of its own script, then
   reported as failed.
   */
  lemma CallbacksAreExclusive(s: State, owed: multiset<Id>, active: set<Id>, x: Id)
    requires Inv(s, owed, active, {})
    ensures multiset(s.log)[Ran(x)] <= 1 && multiset(s.log)[Requested(x)] <= 1
    ensures Ran(x) in s.log && Errback(x) in s.log <==> x in active && s.modules[x].error.Some? && s.modules[x].errback
    ensures Ran(x) in s.log && Errback(x) in s.log ==> x in s.failed
  {
    OnceCount(s.log, Ran(x));
    OnceCount(s.log, Requested(x));
    assert x in s.modules ==> ShapeOk(s, active, x);
  }

  /** When a factory ran, each regular dependency had run before it, or can reach it along declared dependencies. */
  lemma FactoryAfterDependencies(s: State, owed: multiset<Id>, active: set<Id>, i: nat, d: Id)
    requires Inv(s, owed, active, {}) && i < |s.log| && s.log[i].Ran?
    ensures s.log[i].id in s.declared
    ensures Regular(d) in s.declared[s.log[i].id] ==>
              (exists j :: 0 <= j < i && s.log[j] == Ran(d)) || HasPath(DeclEdges(s.declared), d, s.log[i].id)
  {
    assert RanOk(s, i);
    if Regular(d) in s.declared[s.log[i].id] && Ran(d) in s.log[..i] {
      var j :| 0 <= j < i && s.log[..i][j] == Ran(d);
      assert s.log[j] == Ran(d);
    }
  }

  // ---------- no deadlock ----------

  /** d will never release its waiters: it is not defined yet, took an error over, or its factory has not returned. */
  ghost predicate Blocks(s: State, d: Id) {
    d !in s.modules || (s.modules[d].complete && s.modules[d].deps.Some?)
  }

  ghost predicate WaitsOnBlocker(s: State, y: Id, d: Id) {
    y in s.modules && !s.modules[y].complete && WaitEdges(s.inverse)(y, d) && Blocks(s, d)
  }

  /** y cannot go on: it waits on a blocker, or a release has left it out. */
  ghost predicate HeldUp(s: State, owed: multiset<Id>, y: Id) {
    y in s.modules && !s.modules[y].complete && (y in owed || exists d :: WaitsOnBlocker(s, y, d))
  }

  /** The incomplete modules that x waits for, directly or not, x included. */
  ghost function Stuck(s: State, x: Id): set<Id> {
    set y | y in s.modules && !s.modules[y].complete && Reaches(WaitEdges(s.inverse), x, y)
  }

  lemma StuckHasNext(s: State, owed: multiset<Id>, active: set<Id>, x: Id, y: Id)
    requires Inv(s, owed, active, {}) && y in Stuck(s, x) && !HeldUp(s, owed, y)
    ensures HasSuccessorIn(WaitEdges(s.inverse), Stuck(s, x), y)
  {
    CounterIsWaits(s, owed, active, y);
    var d := AllWaitsFrom(s.inverse, y);
    assert !WaitsOnBlocker(s, y, d);
    assert WaitersOk(s, d);
    var e := WaitEdges(s.inverse);
    assert e(y, d);
    EdgeReaches(e, y, d);
    ReachesTrans(e, x, y, d);
  }

  /** Every incomplete module waits, through incomplete modules, on one that is held up. */
  lemma IncompleteIsHeldUp(s: State, owed: multiset<Id>, active: set<Id>, x: Id) returns (y: Id)
    requires Inv(s, owed, active, {}) && x in s.modules && !s.modules[x].complete
    ensures HeldUp(s, owed, y) && Reaches(WaitEdges(s.inverse), x, y)
  {
    var stuck := Stuck(s, x);
    ReachesSelf(WaitEdges(s.inverse), x);
    assert x in stuck;
    if forall y :: y in stuck ==> !HeldUp(s, owed, y) {
      forall y | y in stuck
        ensures HasSuccessorIn(WaitEdges(s.inverse), stuck, y)
      {
        StuckHasNext(s, owed, active, x, y);
      }
      CycleInside(WaitEdges(s.inverse), stuck);
    }
    y :| y in stuck && HeldUp(s, owed, y);
  }

  /**
   Every module is complete exactly when none is held up by an undefined, errored or stuck one or by a missing
   decrement.
   */
  lemma AllCompleteExactly(s: State, owed: multiset<Id>, active: set<Id>)
    requires Inv(s, owed, active, {})
    ensures (forall x :: x in s.modules ==> s.modules[x].complete) <==> (forall y :: !HeldUp(s, owed, y))
  {
    if x :| x in s.modules && !s.modules[x].complete {
      var y := IncompleteIsHeldUp(s, owed, active, x);
    }
  }

  ghost predicate NothingFailed(s: State) {
    s.failed == {} && NothingEscaped(s.log) && forall i :: 0 <= i < |s.log| ==> !s.log[i].Reported?
  }

  lemma NoErrors(s: State, owed: multiset<Id>, active: set<Id>, x: Id)
    requires Inv(s, owed, active, {}) && NothingFailed(s) && x in s.modules
    ensures s.modules[x].error.None?
  {
    assert OriginOk(s, x);
  }

  /**
   No deadlock, cycles or not: once every requested script has defined its module, no script failed, and no factory
   threw, every factory has run and returned.
   */
  lemma NoDeadlock(s: State, owed: multiset<Id>, active: set<Id>, x: Id)
    requires Inv(s, owed, active, {}) && Explained(s, owed, active)
    requires NothingFailed(s) && s.known <= s.modules.Keys && x in s.modules
    ensures Returned(s, x) && Ran(x) in s.log
  {
    NoErrors(s, owed, active, x);
    forall y
      ensures !HeldUp(s, owed, y)
    {
      forall d
        ensures !WaitsOnBlocker(s, y, d)
      {
        assert d in s.inverse ==> WaitersOk(s, d);
        if d in s.modules {
          NoErrors(s, owed, active, d);
          assert ShapeOk(s, active, d);
        }
      }
    }
    AllCompleteExactly(s, owed, active);
    assert ShapeOk(s, active, x);
  }

  // ---------- what later states keep ----------

  /**
   What every step of a run keeps: history grows, completions are final, and a wait ends only when its target
   returns.
   */
  ghost predicate Later(s: State, t: State) {
    && Grows(s, t) && WaitsKept(s, t)
    && (forall x :: x in s.modules && s.modules[x].complete ==>
          t.modules[x].complete && t.modules[x].deps == s.modules[x].deps)
  }

  lemma LaterTrans(s: State, t: State, u: State)
    requires Later(s, t) && Later(t, u)
    ensures Later(s, u)
  {
  }

  lemma ExtendsIsLater(s: State, t: State)
    requires Extends(s, t)
    ensures Later(s, t)
  {
  }

  lemma SpreadIsLater(s: State, owed: multiset<Id>, active: set<Id>, f: Id, order: seq<Id>)
    requires Inv(s, owed, active, {}) && SpreadFrom(s, f, order, Elements(order))
    ensures Later(s, ErrorSpread(Stubbed(s, f), f, order, Elements(order)))
  {
    ErrorSpreadLog(s, owed, active, f, order, Elements(order));
  }

  /**
   A module waiting for one that took an error over, or whose factory did not return, never runs in any later state.
   */
  lemma StrandedForGood(s: State, t: State, owed: multiset<Id>, active: set<Id>, x: Id, d: Id)
    requires Inv(t, owed, active, {}) && Later(s, t)
    requires WaitEdges(s.inverse)(x, d) && d in s.modules && s.modules[d].complete && s.modules[d].deps.Some?
    ensures Ran(x) !in t.log
  {
    AllWaitsHas(t.inverse, d, x);
    assert WaitersOk(t, d);
    assert ShapeOk(t, active, x) && CountOk(t, owed, {}, x);
  }

  // ---------- errorbacks ----------

  /**
   A failed load calls the errorback of a module once, if it has one and waits for the failed one, and else not at
   all.
   */
  lemma {:induction false} ErrEventsCount(modules: map<Id, Module>, order: seq<Id>, x: Id)
    requires forall i :: 0 <= i < |order| ==> order[i] in modules
    requires forall i, j :: 0 <= i < j < |order| ==> order[i] != order[j]
    ensures multiset(ErrEvents(modules, order))[Errback(x)] == if x in order && modules[x].errback then 1 else 0
    decreases |order|
  {
    if order != [] {
      var n := |order| - 1;
      ErrEventsCount(modules, order[..n], x);
      assert order == order[..n] + [order[n]];
    }
  }

  lemma ErrbackPerFailure(s: State, f: Id, order: seq<Id>, x: Id)
    requires SpreadFrom(s, f, order, Elements(order))
    ensures var t := ErrorSpread(Stubbed(s, f), f, order, Elements(order));
            Errbacks(t, x) == Errbacks(s, x)
              + if x in s.modules && Reaches(WaiterEdges(s.inverse), f, x) && s.modules[x].errback then 1 else 0
  {
    var u := Stubbed(s, f);
    ErrEventsCount(u.modules, order, x);
    assert x in order <==> x in Elements(order);
  }

  /**
   When the script of f fails, exactly f and what waits for it, directly or not, takes the error over; no other module,
   wait or request changes.
   */
  lemma FailureMarksExactly(s: State, f: Id, order: seq<Id>, x: Id)
    requires SpreadFrom(s, f, order, Elements(order))
    ensures var t, e := ErrorSpread(Stubbed(s, f), f, order, Elements(order)), WaiterEdges(s.inverse);
            && t.modules.Keys == s.modules.Keys + {f} && t.inverse == s.inverse && t.known == s.known
            && t.failed == s.failed + {f}
            && (Reaches(e, f, x) ==>
                  x in t.modules && t.modules[x].complete && t.modules[x].error == Some(LoadFailed(f)))
            && (x in s.modules && Reaches(e, f, x) ==>
                  t.modules[x] == s.modules[x].(complete := true, error := Some(LoadFailed(f))))
            && (x in s.modules && !Reaches(e, f, x) ==> t.modules[x] == s.modules[x])
  {
    ReachesSelf(WaiterEdges(s.inverse), f);
  }

  /**
   The failure calls the errorbacks of the modules that take the error over, and is reported exactly if none of them
   has one; nothing else is added to the log.
   */
  lemma FailureReports(s: State, f: Id, order: seq<Id>, x: Id)
    requires SpreadFrom(s, f, order, Elements(order))
    ensures var t, e := ErrorSpread(Stubbed(s, f), f, order, Elements(order)), WaiterEdges(s.inverse);
            && s.log <= t.log
            && var added := t.log[|s.log|..];
               && (Errback(x) in added <==> x in s.modules && Reaches(e, f, x) && s.modules[x].errback)
               && (forall v :: v in added ==> v.Errback? || v == Reported(LoadFailed(f)))
               && (Reported(LoadFailed(f)) in added <==> forall y {:trigger Errback(y)} :: Errback(y) !in added)
  {
    var u := Stubbed(s, f);
    var t := ErrorSpread(u, f, order, Elements(order));
    var events := ErrEvents(u.modules, order);
    var report := if events == [] then [Reported(LoadFailed(f))] else [];
    assert t.log == s.log + (events + report);
    assert t.log[|s.log|..] == events + report;
    Listeners(s, f, order);
    if events != [] {
      assert events[0] in events;
    }
  }

  /** The events of a failure are the errorbacks of the modules that it reaches and that have one. */
  lemma Listeners(s: State, f: Id, order: seq<Id>)
    requires SpreadFrom(s, f, order, Elements(order))
    ensures var events := ErrEvents(Stubbed(s, f).modules, order);
            && (forall v :: v in events ==> v.Errback?)
            && (forall y {:trigger Errback(y)} :: Errback(y) in events <==>
                  y in s.modules && Reaches(WaiterEdges(s.inverse), f, y) && s.modules[y].errback)
  {
    ErrEventsAre(Stubbed(s, f).modules, order);
    assert forall y :: y in order <==> y in Elements(order);
  }

  /** Beyond one call for an error that a module takes over, a failed load adds at most one call. */
  lemma ErrbacksBound(s: State, f: Id, order: seq<Id>, x: Id)
    requires SpreadFrom(s, f, order, Elements(order))
    ensures var t := ErrorSpread(Stubbed(s, f), f, order, Elements(order));
            Errbacks(t, x) - TookOver(t, x) <= Errbacks(s, x) - TookOver(s, x) + 1
  {
    ErrbackPerFailure(s, f, order, x);
  }

  /**
   An errorback may run more than once: a module that waits for f and for g, both undefined, has its errorback
   called by each of the two failures.
   */
  lemma ErrbackRunsTwice(s: State, f: Id, g: Id, x: Id, order: seq<Id>, order': seq<Id>)
    requires x in s.modules && s.modules[x].errback
    requires WaitEdges(s.inverse)(x, f) && WaitEdges(s.inverse)(x, g)
    requires SpreadFrom(s, f, order, Elements(order))
    requires SpreadFrom(ErrorSpread(Stubbed(s, f), f, order, Elements(order)), g, order', Elements(order'))
    ensures var t := ErrorSpread(Stubbed(s, f), f, order, Elements(order));
            var u := ErrorSpread(Stubbed(t, g), g, order', Elements(order'));
            Errbacks(u, x) == Errbacks(s, x) + 2
  {
    var t := ErrorSpread(Stubbed(s, f), f, order, Elements(order));
    EdgeReaches(WaiterEdges(s.inverse), f, x);
    EdgeReaches(WaiterEdges(t.inverse), g, x);
    ErrbackPerFailure(s, f, order, x);
    ErrbackPerFailure(t, g, order', x);
  }
}
