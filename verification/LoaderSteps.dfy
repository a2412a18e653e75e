/** The elementary updates of the module manager, each shown to keep the invariant. */
module LoaderSteps {
  import opened Basics
  import opened Graph
  import opened LoaderState
  import opened LoaderInvariant

  // ---------- the updates ----------

  function Decremented(s: State, x: Id): State
    requires x in s.modules
  {
    s.(modules := s.modules[x := s.modules[x].(count := s.modules[x].count - 1)])
  }

  function Waiting(s: State, x: Id, d: Id): State {
    s.(inverse := Push(s.inverse, d, x))
  }

  function RequestedScript(s: State, d: Id): State {
    s.(known := s.known + {d}, log := s.log + [Requested(d)])
  }

  function Errored(m: Module, err: Error): Module {
    m.(complete := true, error := Some(err))
  }

  function ErrbackEvents(m: Module, x: Id): seq<Event> {
    if m.errback then [Errback(x)] else []
  }

  function Failed(s: State, x: Id, err: Error): State
    requires x in s.modules
  {
    s.(modules := s.modules[x := Errored(s.modules[x], err)], log := s.log + ErrbackEvents(s.modules[x], x))
  }

  function Started(s: State, x: Id): State
    requires x in s.modules
  {
    s.(modules := s.modules[x := s.modules[x].(complete := true)], log := s.log + [Ran(x)])
  }

  function Outcome(m: Module, x: Id, throws: bool): Module {
    m.(deps := None, callback := None, errback := false, error := if throws then Some(FactoryThrew(x)) else m.error)
  }

  function Finished(s: State, x: Id, throws: bool): State
    requires x in s.modules
  {
    s.(modules := s.modules[x := Outcome(s.modules[x], x, throws)],
       inverse := s.inverse - {x},
       log := s.log + if throws then [Reported(FactoryThrew(x))] else [])
  }

  /** The exception of x leaves the manager. */
  function Escaping(s: State, x: Id): State {
    s.(log := s.log + [Escaped(x)])
  }

  function Inserted(s: State, def: Define): State {
    s.(modules := s.modules[def.id := NewModule(def.deps, def.factory, def.errback)],
       declared := s.declared[def.id := def.deps])
  }

  // ---------- history ----------

  ghost predicate Grows(s: State, t: State) {
    && s.modules.Keys <= t.modules.Keys
    && s.declared.Keys <= t.declared.Keys
    && (forall x :: x in s.declared ==> t.declared[x] == s.declared[x])
    && s.log <= t.log
    && s.failed <= t.failed
  }

  lemma DeclGrows(s: State, t: State)
    requires Grows(s, t)
    ensures SubGraph(DeclEdges(s.declared), DeclEdges(t.declared))
  {
  }

  lemma RanOkKept(s: State, t: State, i: nat)
    requires Grows(s, t) && i < |s.log| && s.log[i].Ran? && RanOk(s, i)
    ensures RanOk(t, i)
  {
    assert t.log[i] == s.log[i] && t.log[..i] == s.log[..i];
    DeclGrows(s, t);
    var x := s.log[i].id;
    forall d {:trigger Regular(d)} | Regular(d) in t.declared[x]
      ensures Ran(d) in t.log[..i] || HasPath(DeclEdges(t.declared), d, x)
    {
      if Ran(d) !in s.log[..i] {
        HasPathMono(DeclEdges(s.declared), DeclEdges(t.declared), d, x);
      }
    }
  }

  lemma LogKept(s: State, t: State)
    requires LogOk(s) && Grows(s, t)
    ensures forall i {:trigger s.log[i]} :: 0 <= i < |s.log| && s.log[i].Ran? ==> RanOk(t, i)
  {
    forall i | 0 <= i < |s.log| && s.log[i].Ran?
      ensures RanOk(t, i)
    {
      RanOkKept(s, t, i);
    }
  }

  lemma JustKept(s: State, t: State, x: Id)
    requires Grows(s, t) && x in s.modules && JustOk(s, x)
    requires t.modules[x].complete || !s.modules[x].complete
    requires forall d :: d in s.inverse && x in s.inverse[d] ==>
             Ran(d) in t.log || (d in t.inverse && x in t.inverse[d])
    ensures JustOk(t, x)
  {
    DeclGrows(s, t);
    if !t.modules[x].complete {
      forall d {:trigger Settled(t, x, d)} | Regular(d) in t.declared[x]
        ensures Settled(t, x, d)
      {
        assert Settled(s, x, d);
        if HasPath(DeclEdges(s.declared), d, x) {
          HasPathMono(DeclEdges(s.declared), DeclEdges(t.declared), d, x);
        }
      }
    }
  }

  lemma AllJustKept(s: State, t: State)
    requires Grows(s, t)
    requires forall x {:trigger JustOk(s, x)} :: x in s.modules ==> JustOk(s, x)
    requires forall x :: x in s.modules ==> t.modules[x].complete || !s.modules[x].complete
    requires forall d, x :: d in s.inverse && x in s.inverse[d] ==>
             Ran(d) in t.log || (d in t.inverse && x in t.inverse[d])
    ensures forall x {:trigger JustOk(t, x)} :: x in s.modules ==> JustOk(t, x)
  {
    forall x | x in s.modules
      ensures JustOk(t, x)
    {
      JustKept(s, t, x);
    }
  }

  lemma OriginKept(s: State, t: State, x: Id)
    requires Grows(s, t) && x in s.modules && OriginOk(s, x) && t.modules[x].error == s.modules[x].error
    ensures OriginOk(t, x)
  {
    DeclGrows(s, t);
    if s.modules[x].error.Some? {
      ReachesMono(DeclEdges(s.declared), DeclEdges(t.declared), x, s.modules[x].error.value.id);
    }
  }

  lemma OriginsKept(s: State, t: State)
    requires Grows(s, t) && Origins(s)
    requires forall x :: x in s.modules ==> t.modules[x].error == s.modules[x].error
    requires forall x :: x in t.modules && x !in s.modules ==> t.modules[x].error.None?
    ensures Origins(t)
  {
    forall x | x in t.modules
      ensures OriginOk(t, x)
    {
      if x in s.modules {
        OriginKept(s, t, x);
      }
    }
  }

  // ---------- decrement ----------

  lemma DecrementModules(s: State, owed: multiset<Id>, active: set<Id>, ready: set<Id>, x: Id)
    requires Core(s, owed, active, ready) && x in owed
    ensures s.modules[x].count >= 1
    ensures var t := Decremented(s, x);
            forall y :: y in t.modules ==>
              && ShapeOk(t, active, y) && CountOk(t, owed - multiset{x}, ready + {x}, y)
              && (s.modules[x].count > 1 ==> CountOk(t, owed - multiset{x}, ready, y))
  {
    var t := Decremented(s, x);
    assert ShapeOk(s, active, x) && CountOk(s, owed, ready, x);
    forall y | y in t.modules
      ensures ShapeOk(t, active, y) && CountOk(t, owed - multiset{x}, ready + {x}, y)
      ensures s.modules[x].count > 1 ==> CountOk(t, owed - multiset{x}, ready, y)
    {
      assert ShapeOk(s, active, y) && CountOk(s, owed, ready, y);
    }
  }

  lemma DecrementKeepsCore(s: State, owed: multiset<Id>, active: set<Id>, ready: set<Id>, x: Id)
    requires Core(s, owed, active, ready) && x in owed
    ensures s.modules[x].count >= 1
    ensures Core(Decremented(s, x), owed - multiset{x}, active, ready + {x})
    ensures s.modules[x].count > 1 ==> Core(Decremented(s, x), owed - multiset{x}, active, ready)
  {
    var t := Decremented(s, x);
    DecrementModules(s, owed, active, ready, x);
    QuietLog(s, t, []);
    WaitersKept(s, t);
  }

  lemma DecrementKeeps(s: State, owed: multiset<Id>, active: set<Id>, x: Id)
    requires Inv(s, owed, active, {}) && x in owed
    ensures s.modules[x].count >= 1
    ensures Inv(Decremented(s, x), owed - multiset{x}, active, {x})
    ensures s.modules[x].count > 1 ==> Inv(Decremented(s, x), owed - multiset{x}, active, {})
  {
    DecrementKeepsCore(s, owed, active, {}, x);
    AllJustKept(s, Decremented(s, x));
    OriginsKept(s, Decremented(s, x));
    assert {} + {x} == {x};
  }

  lemma DecrementOwed(s: State, owed: multiset<Id>, rest: multiset<Id>, active: set<Id>, x: Id)
    requires Inv(s, owed, active, {}) && owed == rest + multiset{x}
    ensures x in s.modules && s.modules[x].count >= 1 && Work(Decremented(s, x).modules) == Work(s.modules)
    ensures Inv(Decremented(s, x), rest, active, {x})
    ensures s.modules[x].count > 1 ==> Inv(Decremented(s, x), rest, active, {})
  {
    assert owed - multiset{x} == rest;
    DecrementKeeps(s, owed, active, x);
    WorkUpdate(s.modules, x, s.modules[x].(count := s.modules[x].count - 1));
  }

  /** A module that stands at zero because it is complete needs no completing. */
  lemma CompleteIsNotReady(s: State, owed: multiset<Id>, active: set<Id>, x: Id)
    requires Inv(s, owed, active, {x}) && x in s.modules
    requires s.modules[x].complete || s.modules[x].count >= 1
    ensures Inv(s, owed, active, {})
  {
    forall y | y in s.modules
      ensures CountOk(s, owed, {}, y)
    {
      assert CountOk(s, owed, {x}, y);
    }
  }

  // ---------- completing a module ----------

  lemma StartLog(s: State, owed: multiset<Id>, active: set<Id>, x: Id)
    requires Inv(s, owed, active, {x}) && x in s.modules && !s.modules[x].complete && s.modules[x].count == 0
    ensures LogOk(Started(s, x))
  {
    var t := Started(s, x);
    assert ShapeOk(s, active, x) && CountOk(s, owed, {x}, x) && JustOk(s, x);
    LogKept(s, t);
    var n := |s.log|;
    assert t.log[..n] == s.log;
    forall d {:trigger Regular(d)} | Regular(d) in t.declared[x]
      ensures Ran(d) in t.log[..n] || HasPath(DeclEdges(t.declared), d, x)
    {
      assert Settled(s, x, d);
      if d in s.inverse && x in s.inverse[d] {
        AllWaitsHas(s.inverse, d, x);
      }
    }
    assert RanOk(t, n);
    assert forall i :: 0 <= i < |t.log| && t.log[i].Ran? ==> RanOk(t, i) by {
      assert forall i :: 0 <= i < n ==> t.log[i] == s.log[i];
    }
  }

  lemma StartKeeps(s: State, owed: multiset<Id>, active: set<Id>, x: Id)
    requires Inv(s, owed, active, {x}) && x in s.modules && !s.modules[x].complete && s.modules[x].count == 0
    ensures x !in active
    ensures Inv(Started(s, x), owed, active + {x}, {})
  {
    var t := Started(s, x);
    StartLog(s, owed, active, x);
    StartModules(s, owed, active, x);
    WaitersKept(s, t);
    StartHistory(s, x);
  }

  lemma StartHistory(s: State, x: Id)
    requires x in s.modules && Origins(s)
    requires forall y {:trigger JustOk(s, y)} :: y in s.modules ==> JustOk(s, y)
    ensures var t := Started(s, x); Origins(t) && forall y {:trigger JustOk(t, y)} :: y in t.modules ==> JustOk(t, y)
  {
    AllJustKept(s, Started(s, x));
    OriginsKept(s, Started(s, x));
  }

  lemma StartModules(s: State, owed: multiset<Id>, active: set<Id>, x: Id)
    requires Core(s, owed, active, {x}) && x in s.modules && !s.modules[x].complete && s.modules[x].count == 0
    ensures x !in active
    ensures var t := Started(s, x);
            forall y :: y in t.modules ==> ShapeOk(t, active + {x}, y) && CountOk(t, owed, {}, y)
  {
    var t := Started(s, x);
    assert ShapeOk(s, active, x);
    forall y | y in t.modules
      ensures ShapeOk(t, active + {x}, y) && CountOk(t, owed, {}, y)
    {
      assert ShapeOk(s, active, y) && CountOk(s, owed, {x}, y);
    }
  }

  lemma FinishWaits(s: State, x: Id)
    requires Acyclic(WaitEdges(s.inverse))
    ensures Acyclic(WaitEdges(s.inverse - {x}))
    ensures AllWaits(s.inverse) == multiset(Waiters(s.inverse, x)) + AllWaits(s.inverse - {x})
  {
    AllWaitsDrop(s.inverse, x);
    AcyclicAntiMono(WaitEdges(s.inverse - {x}), WaitEdges(s.inverse));
  }

  lemma FinishModules(s: State, owed: multiset<Id>, active: set<Id>, x: Id, throws: bool)
    requires Inv(s, owed, active + {x}, {}) && x in s.modules && x !in active && s.modules[x].error.None?
    ensures var t := Finished(s, x, throws);
            forall y :: y in t.modules ==>
              ShapeOk(t, active, y) && CountOk(t, owed + multiset(Waiters(s.inverse, x)), {}, y)
  {
    var t := Finished(s, x, throws);
    var list := Waiters(s.inverse, x);
    FinishWaits(s, x);
    forall y | y in t.modules
      ensures ShapeOk(t, active, y) && CountOk(t, owed + multiset(list), {}, y)
    {
      assert ShapeOk(s, active + {x}, y) && CountOk(s, owed, {}, y);
    }
  }

  lemma FinishWaiters(s: State, owed: multiset<Id>, active: set<Id>, x: Id, throws: bool)
    requires Inv(s, owed, active + {x}, {}) && x in s.modules && x !in active && s.modules[x].error.None?
    ensures var t := Finished(s, x, throws); forall d :: d in t.inverse ==> WaitersOk(t, d)
    ensures forall y :: y in Waiters(s.inverse, x) ==> y in s.modules
  {
    var t := Finished(s, x, throws);
    assert ShapeOk(s, active + {x}, x) && CountOk(s, owed, {}, x);
    assert x in s.inverse ==> WaitersOk(s, x);
    forall d | d in t.inverse
      ensures WaitersOk(t, d)
    {
      assert WaitersOk(s, d);
      if x in s.inverse[d] {
        AllWaitsHas(s.inverse, d, x);
      }
    }
  }

  /** Appending reports, escapes and errorback calls of known modules keeps the log in order. */
  lemma QuietLog(s: State, t: State, extra: seq<Event>)
    requires LogOk(s) && Grows(s, t) && t.log == s.log + extra && t.known == s.known
    requires forall i :: 0 <= i < |extra| ==>
             extra[i].Reported? || extra[i].Escaped? || (extra[i].Errback? && extra[i].id in t.modules)
    ensures LogOk(t)
    ensures forall x :: Ran(x) in t.log <==> Ran(x) in s.log
  {
    LogKept(s, t);
    assert forall i :: 0 <= i < |s.log| ==> t.log[i] == s.log[i];
    assert forall i :: |s.log| <= i < |t.log| ==> t.log[i] == extra[i - |s.log|];
  }

  lemma FinishJust(s: State, owed: multiset<Id>, active: set<Id>, x: Id, throws: bool)
    requires Inv(s, owed, active + {x}, {}) && x in s.modules && x !in active && s.modules[x].error.None?
    ensures var t := Finished(s, x, throws); forall y :: y in t.modules ==> JustOk(t, y)
  {
    var t := Finished(s, x, throws);
    assert ShapeOk(s, active + {x}, x);
    forall y | y in t.modules
      ensures JustOk(t, y)
    {
      assert JustOk(s, y);
      JustKept(s, t, y);
    }
  }

  lemma FinishOrigins(s: State, owed: multiset<Id>, active: set<Id>, x: Id, throws: bool)
    requires Inv(s, owed, active + {x}, {}) && x in s.modules
    ensures Origins(Finished(s, x, throws))
  {
    var t := Finished(s, x, throws);
    assert ShapeOk(s, active + {x}, x);
    forall y | y in t.modules
      ensures OriginOk(t, y)
    {
      if y == x && throws {
        ReachesSelf(DeclEdges(t.declared), x);
      } else {
        OriginKept(s, t, y);
      }
    }
  }

  lemma FinishKeeps(s: State, owed: multiset<Id>, active: set<Id>, x: Id, throws: bool)
    requires Inv(s, owed, active + {x}, {}) && x in s.modules && x !in active && s.modules[x].error.None?
    ensures Inv(Finished(s, x, throws), owed + multiset(Waiters(s.inverse, x)), active, {})
  {
    var t := Finished(s, x, throws);
    FinishWaits(s, x);
    FinishModules(s, owed, active, x, throws);
    FinishWaiters(s, owed, active, x, throws);
    FinishJust(s, owed, active, x, throws);
    FinishOrigins(s, owed, active, x, throws);
    QuietLog(s, t, if throws then [Reported(FactoryThrew(x))] else []);
  }

  /** Whatever the exception interrupts stays as it is. */
  lemma EscapeKeeps(s: State, owed: multiset<Id>, active: set<Id>, x: Id)
    requires Inv(s, owed, active, {})
    ensures Inv(Escaping(s, x), owed, active, {})
  {
    var t := Escaping(s, x);
    QuietLog(s, t, [Escaped(x)]);
    EscapeModules(s, owed, active, x);
    WaitersKept(s, t);
    AllJustKept(s, t);
    OriginsKept(s, t);
  }

  lemma EscapeModules(s: State, owed: multiset<Id>, active: set<Id>, x: Id)
    requires Core(s, owed, active, {})
    ensures var t := Escaping(s, x);
            forall y :: y in t.modules ==> ShapeOk(t, active, y) && CountOk(t, owed, {}, y)
  {
    var t := Escaping(s, x);
    forall y | y in t.modules
      ensures ShapeOk(t, active, y) && CountOk(t, owed, {}, y)
    {
      assert ShapeOk(s, active, y) && CountOk(s, owed, {}, y);
    }
  }

  // ---------- defining a module and examining its dependencies ----------

  /** The first n dependencies of x are settled. */
  ghost predicate SettledUpTo(s: State, x: Id, n: nat) {
    && x in s.declared && n <= |s.declared[x]|
    && forall i :: 0 <= i < n && s.declared[x][i].Regular? ==> Settled(s, x, s.declared[x][i].id)
  }

  /** Module x has examined its first n dependencies; all else is as between steps. */
  ghost predicate Examining(s: State, owed: multiset<Id>, active: set<Id>, x: Id, n: nat) {
    && x in s.modules && x in s.declared && n <= |s.declared[x]|
    && x !in owed
    && !s.modules[x].complete
    && Core(s, owed[x := |s.declared[x]| - n], active, {x})
    && (forall y {:trigger JustOk(s, y)} :: y in s.modules && y != x ==> JustOk(s, y))
    && SettledUpTo(s, x, n)
    && Origins(s)
  }

  /** An undefined module has not run and waits for nothing. */
  lemma UndefinedIsFresh(s: State, owed: multiset<Id>, active: set<Id>, x: Id)
    requires Core(s, owed, active, {}) && x !in s.modules
    ensures AllWaits(s.inverse)[x] == 0 && Ran(x) !in s.log && Errback(x) !in s.log
  {
    forall d | d in s.inverse
      ensures x !in s.inverse[d]
    {
      assert WaitersOk(s, d);
    }
    if x in AllWaits(s.inverse) {
      var d := AllWaitsFrom(s.inverse, x);
    }
    forall i | 0 <= i < |s.log| && s.log[i].Ran?
      ensures s.log[i].id in s.modules
    {
      assert RanOk(s, i);
    }
  }

  lemma InsertModules(s: State, owed: multiset<Id>, active: set<Id>, def: Define)
    requires Core(s, owed, active, {}) && def.id !in s.modules
    ensures var t := Inserted(s, def);
            forall y :: y in t.modules ==>
              ShapeOk(t, active, y) && CountOk(t, owed[def.id := |def.deps|], {def.id}, y)
  {
    var x := def.id;
    var t := Inserted(s, def);
    UndefinedIsFresh(s, owed, active, x);
    forall y | y in t.modules
      ensures ShapeOk(t, active, y) && CountOk(t, owed[x := |def.deps|], {x}, y)
    {
      if y != x {
        assert ShapeOk(s, active, y) && CountOk(s, owed, {}, y);
      }
    }
  }

  lemma WaitersKept(s: State, t: State)
    requires forall d {:trigger WaitersOk(s, d)} :: d in s.inverse ==> WaitersOk(s, d)
    requires t.inverse == s.inverse && s.known <= t.known && s.modules.Keys <= t.modules.Keys
    requires forall x :: x in s.modules ==> t.modules[x].deps == s.modules[x].deps
    requires forall x :: x in t.modules && x !in s.modules ==> t.modules[x].deps.Some?
    ensures forall d {:trigger WaitersOk(t, d)} :: d in t.inverse ==> WaitersOk(t, d)
  {
    forall d | d in t.inverse
      ensures WaitersOk(t, d)
    {
      assert WaitersOk(s, d);
    }
  }

  lemma InsertQuiet(s: State, def: Define)
    requires s.declared.Keys == s.modules.Keys && def.id !in s.modules && LogOk(s)
    requires forall d {:trigger WaitersOk(s, d)} :: d in s.inverse ==> WaitersOk(s, d)
    ensures var t := Inserted(s, def);
            LogOk(t) && forall d {:trigger WaitersOk(t, d)} :: d in t.inverse ==> WaitersOk(t, d)
  {
    var t := Inserted(s, def);
    WaitersKept(s, t);
    QuietLog(s, t, []);
  }

  lemma InsertCore(s: State, owed: multiset<Id>, active: set<Id>, def: Define)
    requires Core(s, owed, active, {}) && def.id !in s.modules
    ensures Core(Inserted(s, def), owed[def.id := |def.deps|], active, {def.id})
  {
    InsertModules(s, owed, active, def);
    InsertQuiet(s, def);
  }

  lemma InsertKeeps(s: State, owed: multiset<Id>, active: set<Id>, def: Define)
    requires Inv(s, owed, active, {}) && def.id !in s.modules
    ensures Examining(Inserted(s, def), owed, active, def.id, 0)
  {
    InsertCore(s, owed, active, def);
    AllJustKept(s, Inserted(s, def));
    OriginsKept(s, Inserted(s, def));
  }

  /** All dependencies examined: the module stands like any other, but may be at zero. */
  lemma ExaminedIsInv(s: State, owed: multiset<Id>, active: set<Id>, x: Id)
    requires x in s.declared && Examining(s, owed, active, x, |s.declared[x]|)
    ensures Inv(s, owed, active, {x})
  {
    assert owed[x := 0] == owed;
    forall d {:trigger Settled(s, x, d)} | Regular(d) in s.declared[x]
      ensures Settled(s, x, d)
    {
      var i :| 0 <= i < |s.declared[x]| && s.declared[x][i] == Regular(d);
    }
    assert JustOk(s, x);
  }

  /** Examining a dependency that is special, has run, or is cut. */
  lemma ResolveKeeps(s: State, owed: multiset<Id>, active: set<Id>, x: Id, n: nat)
    requires Examining(s, owed, active, x, n) && n < |s.declared[x]|
    requires s.declared[x][n].Regular? ==> Settled(s, x, s.declared[x][n].id)
    ensures s.modules[x].count >= 1
    ensures Examining(Decremented(s, x), owed, active, x, n + 1)
  {
    var t := Decremented(s, x);
    var left := |s.declared[x]| - n;
    DecrementKeepsCore(s, owed[x := left], active, {x}, x);
    assert owed[x := left] - multiset{x} == owed[x := left - 1];
    assert {x} + {x} == {x};
    OriginsKept(s, t);
    forall y | y in t.modules && y != x
      ensures JustOk(t, y)
    {
      assert JustOk(s, y);
      JustKept(s, t, y);
    }
    assert SettledUpTo(t, x, n + 1) by {
      forall i | 0 <= i < n + 1 && t.declared[x][i].Regular?
        ensures Settled(t, x, t.declared[x][i].id)
      {
        assert Settled(s, x, s.declared[x][i].id);
      }
    }
  }

  /** Waiting for d is safe when the cycle check found no path from d back to x. */
  lemma WaitAcyclic(s: State, active: set<Id>, x: Id, d: Id)
    requires Acyclic(WaitEdges(s.inverse)) && x in s.modules
    requires s.modules[x].deps.Some? && Regular(d) in s.modules[x].deps.value
    requires forall c {:trigger WaitersOk(s, c)} :: c in s.inverse ==> WaitersOk(s, c)
    requires !HasPath(DepEdges(s.modules), d, x)
    ensures Acyclic(WaitEdges(Push(s.inverse, d, x)))
  {
    var e := WaitEdges(s.inverse);
    var deps := DepEdges(s.modules);
    assert SubGraph(e, deps) by {
      forall u, v | e(u, v)
        ensures deps(u, v)
      {
        assert WaitersOk(s, v);
      }
    }
    if Reaches(e, d, x) {
      ReachesMono(e, deps, d, x);
      ReachesSplit(deps, d, x);
      EdgeReachesPath(deps, x, d);
    }
    AddEdgeAcyclic(e, WaitEdges(Push(s.inverse, d, x)), x, d);
  }

  lemma EdgeReachesPath(e: Edges, u: nat, v: nat)
    requires e(u, v)
    ensures HasPath(e, u, v)
  {
    ReachesSelf(e, v);
  }

  /** x waits for d, and the script of d is requested if it is neither defined nor known. */
  function Awaited(s: State, x: Id, d: Id): State {
    var t := Waiting(s, x, d);
    if d in s.modules || d in s.known then t else RequestedScript(t, d)
  }

  lemma RequestLog(s: State, t: State, d: Id)
    requires LogOk(s) && d !in s.known && Grows(s, t)
    requires t.log == s.log + [Requested(d)] && t.known == s.known + {d}
    ensures LogOk(t)
  {
    LogKept(s, t);
    var n := |s.log|;
    assert forall i :: 0 <= i < n ==> t.log[i] == s.log[i];
    assert forall e :: e in t.log <==> e in s.log || e == Requested(d);
  }

  lemma AwaitModules(s: State, owed: multiset<Id>, active: set<Id>, x: Id, d: Id, left: nat)
    requires Core(s, owed[x := left], active, {x}) && x in s.modules && left > 0
    ensures var t := Awaited(s, x, d);
            forall y :: y in t.modules ==> ShapeOk(t, active, y) && CountOk(t, owed[x := left - 1], {x}, y)
  {
    var t := Awaited(s, x, d);
    AwaitLog(s, x, d);
    AllWaitsPush(s.inverse, d, x);
    forall y | y in t.modules
      ensures ShapeOk(t, active, y) && CountOk(t, owed[x := left - 1], {x}, y)
    {
      assert ShapeOk(s, active, y) && CountOk(s, owed[x := left], {x}, y);
    }
  }

  lemma AwaitWaiters(s: State, x: Id, d: Id)
    requires x in s.modules && s.modules[x].deps.Some? && Regular(d) in s.modules[x].deps.value
    requires d in s.modules ==> s.modules[d].deps.Some?
    requires forall c {:trigger WaitersOk(s, c)} :: c in s.inverse ==> WaitersOk(s, c)
    ensures var t := Awaited(s, x, d); forall c {:trigger WaitersOk(t, c)} :: c in t.inverse ==> WaitersOk(t, c)
  {
    var t := Awaited(s, x, d);
    forall c | c in t.inverse
      ensures WaitersOk(t, c)
    {
      assert c in s.inverse ==> WaitersOk(s, c);
    }
  }

  lemma AwaitCore(s: State, owed: multiset<Id>, active: set<Id>, x: Id, d: Id, left: nat)
    requires Core(s, owed[x := left], active, {x}) && x in s.modules && left > 0
    requires !s.modules[x].complete && Regular(d) in s.declared[x]
    requires d in s.modules ==> !s.modules[d].complete
    requires !HasPath(DepEdges(s.modules), d, x)
    ensures Core(Awaited(s, x, d), owed[x := left - 1], active, {x})
  {
    var t := Awaited(s, x, d);
    AwaitLog(s, x, d);
    assert ShapeOk(s, active, x);
    assert d in s.modules ==> ShapeOk(s, active, d);
    WaitAcyclic(s, active, x, d);
    AwaitModules(s, owed, active, x, d, left);
    AwaitWaiters(s, x, d);
  }

  lemma AwaitLog(s: State, x: Id, d: Id)
    requires LogOk(s)
    ensures LogOk(Awaited(s, x, d))
    ensures forall y :: Ran(y) in Awaited(s, x, d).log <==> Ran(y) in s.log
    ensures forall y :: Errback(y) in Awaited(s, x, d).log <==> Errback(y) in s.log
  {
    if d !in s.modules && d !in s.known {
      RequestLog(s, Awaited(s, x, d), d);
    } else {
      LogKept(s, Awaited(s, x, d));
    }
  }

  lemma AwaitKeeps(s: State, owed: multiset<Id>, active: set<Id>, x: Id, n: nat)
    requires Examining(s, owed, active, x, n) && n < |s.declared[x]| && s.declared[x][n].Regular?
    requires var d := s.declared[x][n].id;
             (d in s.modules ==> !s.modules[d].complete) && !HasPath(DepEdges(s.modules), d, x)
    ensures Examining(Awaited(s, x, s.declared[x][n].id), owed, active, x, n + 1)
  {
    var d := s.declared[x][n].id;
    var t := Awaited(s, x, d);
    AwaitCore(s, owed, active, x, d, |s.declared[x]| - n);
    OriginsKept(s, t);
    AwaitJust(s, x, d);
    AwaitSettled(s, x, n);
  }

  lemma AwaitJust(s: State, x: Id, d: Id)
    requires s.declared.Keys == s.modules.Keys && x in s.modules
    requires forall y {:trigger JustOk(s, y)} :: y in s.modules && y != x ==> JustOk(s, y)
    ensures var t := Awaited(s, x, d);
            forall y {:trigger JustOk(t, y)} :: y in t.modules && y != x ==> JustOk(t, y)
  {
    var t := Awaited(s, x, d);
    forall y | y in t.modules && y != x
      ensures JustOk(t, y)
    {
      assert JustOk(s, y);
      JustKept(s, t, y);
    }
  }

  lemma AwaitSettled(s: State, x: Id, n: nat)
    requires SettledUpTo(s, x, n) && n < |s.declared[x]| && s.declared[x][n].Regular?
    ensures SettledUpTo(Awaited(s, x, s.declared[x][n].id), x, n + 1)
  {
    var t := Awaited(s, x, s.declared[x][n].id);
    forall i | 0 <= i < n + 1 && t.declared[x][i].Regular?
      ensures Settled(t, x, t.declared[x][i].id)
    {
      if i < n {
        assert Settled(s, x, s.declared[x][i].id);
      }
    }
  }

  /** A dependency with an error: the module takes the error over and stops examining. */
  lemma FailKeeps(s: State, owed: multiset<Id>, active: set<Id>, x: Id, n: nat, d: Id)
    requires Examining(s, owed, active, x, n)
    requires Regular(d) in s.declared[x] && d in s.modules && s.modules[d].error.Some?
    ensures Inv(Failed(s, x, s.modules[d].error.value), owed, active, {})
  {
    var err := s.modules[d].error.value;
    var t := Failed(s, x, err);
    assert ShapeOk(s, active, x);
    QuietLog(s, t, ErrbackEvents(s.modules[x], x));
    FailModules(s, owed, active, x, |s.declared[x]| - n, err);
    WaitersKept(s, t);
    FailOrigins(s, x, d);
    forall y | y in t.modules
      ensures JustOk(t, y)
    {
      if y != x {
        assert JustOk(s, y);
        JustKept(s, t, y);
      }
    }
  }

  lemma FailOrigins(s: State, x: Id, d: Id)
    requires Origins(s) && x in s.modules && x in s.declared
    requires Regular(d) in s.declared[x] && d in s.modules && s.modules[d].error.Some?
    ensures Origins(Failed(s, x, s.modules[d].error.value))
  {
    var err := s.modules[d].error.value;
    var t := Failed(s, x, err);
    forall y | y in t.modules
      ensures OriginOk(t, y)
    {
      assert OriginOk(s, d);
      if y == x {
        EdgeReaches(DeclEdges(s.declared), x, d);
        ReachesTrans(DeclEdges(s.declared), x, d, err.id);
      } else {
        OriginKept(s, t, y);
      }
    }
  }

  lemma FailModules(s: State, owed: multiset<Id>, active: set<Id>, x: Id, left: nat, err: Error)
    requires Core(s, owed[x := left], active, {x}) && x in s.modules && x !in owed
    requires !s.modules[x].complete
    ensures var t := Failed(s, x, err);
            forall y :: y in t.modules ==> ShapeOk(t, active, y) && CountOk(t, owed, {}, y)
  {
    var t := Failed(s, x, err);
    assert ShapeOk(s, active, x);
    QuietLog(s, t, ErrbackEvents(s.modules[x], x));
    forall y | y in t.modules
      ensures ShapeOk(t, active, y) && CountOk(t, owed, {}, y)
    {
      assert ShapeOk(s, active, y) && CountOk(s, owed[x := left], {x}, y);
    }
  }

  // ---------- a script that failed to load ----------

  function Stubbed(s: State, f: Id): State {
    if f in s.modules then s else Inserted(s, Define(f, [], false, Factory([], false)))
  }

  function MarkAll(modules: map<Id, Module>, marked: set<Id>, err: Error): map<Id, Module> {
    map x | x in modules :: if x in marked then Errored(modules[x], err) else modules[x]
  }

  function ErrEvents(modules: map<Id, Module>, order: seq<Id>): seq<Event>
    requires forall i :: 0 <= i < |order| ==> order[i] in modules
  {
    if order == [] then []
    else
      ErrEvents(modules, order[..|order| - 1])
      + ErrbackEvents(modules[order[|order| - 1]], order[|order| - 1])
  }

  lemma {:induction false} ErrEventsAre(modules: map<Id, Module>, order: seq<Id>)
    requires forall i :: 0 <= i < |order| ==> order[i] in modules
    ensures forall e :: e in ErrEvents(modules, order) <==> e.Errback? && e.id in order && modules[e.id].errback
    decreases |order|
  {
    if order != [] {
      var n := |order| - 1;
      ErrEventsAre(modules, order[..n]);
      assert order == order[..n] + [order[n]];
    }
  }

  /** The modules in `order` are told that f failed; the error is reported when none of them listens. */
  function ErrorSpread(s: State, f: Id, order: seq<Id>, marked: set<Id>): State
    requires forall i :: 0 <= i < |order| ==> order[i] in s.modules
  {
    var events := ErrEvents(s.modules, order);
    s.(modules := MarkAll(s.modules, marked, LoadFailed(f)),
       failed := s.failed + {f},
       log := s.log + events + if events == [] then [Reported(LoadFailed(f))] else [])
  }

  /** `marked` holds what waits for f, directly or not, and `order` lists it without repetition. */
  ghost predicate SpreadFrom(s: State, f: Id, order: seq<Id>, marked: set<Id>) {
    && (forall i, j :: 0 <= i < j < |order| ==> order[i] != order[j])
    && (forall x :: x in order <==> x in marked)
    && marked <= Stubbed(s, f).modules.Keys
    && (forall x :: x in marked <==> Reaches(WaiterEdges(s.inverse), f, x))
  }

  lemma ErrorSpreadLog(s: State, owed: multiset<Id>, active: set<Id>, f: Id, order: seq<Id>, marked: set<Id>)
    requires Inv(s, owed, active, {}) && SpreadFrom(s, f, order, marked)
    ensures var t := ErrorSpread(Stubbed(s, f), f, order, marked);
            && LogOk(t) && Grows(s, t)
            && (forall x :: Ran(x) in t.log <==> Ran(x) in s.log)
            && (forall x {:trigger Errback(x)} :: Errback(x) in t.log <==>
                 Errback(x) in s.log || (x in order && Stubbed(s, f).modules[x].errback))
  {
    var u := Stubbed(s, f);
    var t := ErrorSpread(u, f, order, marked);
    var events := ErrEvents(u.modules, order);
    var extra := events + if events == [] then [Reported(LoadFailed(f))] else [];
    ErrEventsAre(u.modules, order);
    assert t.log == s.log + extra;
    QuietLog(s, t, extra);
  }

  /** A module that waits for nothing is told of the failure of no other module. */
  lemma StuckIsNotMarked(s: State, owed: multiset<Id>, active: set<Id>, f: Id, y: Id)
    requires Inv(s, owed, active, {}) && y in active && Reaches(WaiterEdges(s.inverse), f, y)
    ensures y == f
  {
    assert ShapeOk(s, active, y) && CountOk(s, owed, {}, y);
    var p :| IsWalkFromTo(WaiterEdges(s.inverse), p, f, y);
    if |p| > 1 {
      var n := |p| - 1;
      assert WaiterEdges(s.inverse)(p[n - 1], p[n]);
      AllWaitsHas(s.inverse, p[n - 1], y);
    }
  }

  lemma ErrorSpreadModules(s: State, owed: multiset<Id>, active: set<Id>, f: Id, order: seq<Id>, marked: set<Id>)
    requires Inv(s, owed, active, {}) && SpreadFrom(s, f, order, marked) && f in marked
    ensures var t := ErrorSpread(Stubbed(s, f), f, order, marked);
            forall y :: y in t.modules ==> ShapeOk(t, active, y) && CountOk(t, owed, {}, y)
  {
    var t := ErrorSpread(Stubbed(s, f), f, order, marked);
    ErrorSpreadLog(s, owed, active, f, order, marked);
    if f !in s.modules {
      UndefinedIsFresh(s, owed, active, f);
    }
    forall y | y in t.modules
      ensures ShapeOk(t, active, y) && CountOk(t, owed, {}, y)
    {
      assert y in s.modules ==> ShapeOk(s, active, y) && CountOk(s, owed, {}, y);
      if y in active && y in marked {
        StuckIsNotMarked(s, owed, active, f, y);
      }
    }
  }

  lemma ErrorSpreadJust(s: State, owed: multiset<Id>, active: set<Id>, f: Id, order: seq<Id>, marked: set<Id>)
    requires Inv(s, owed, active, {}) && SpreadFrom(s, f, order, marked) && f in marked
    ensures var t := ErrorSpread(Stubbed(s, f), f, order, marked);
            forall y {:trigger JustOk(t, y)} :: y in t.modules ==> JustOk(t, y)
  {
    var t := ErrorSpread(Stubbed(s, f), f, order, marked);
    ErrorSpreadLog(s, owed, active, f, order, marked);
    forall y | y in t.modules
      ensures JustOk(t, y)
    {
      if y in s.modules {
        assert JustOk(s, y);
        JustKept(s, t, y);
      }
    }
  }

  /** Whatever waits for f, directly or not, declares dependencies that lead to f. */
  lemma {:induction false} WaiterDeclares(s: State, owed: multiset<Id>, active: set<Id>, p: seq<nat>)
    requires Inv(s, owed, active, {}) && IsWalk(WaiterEdges(s.inverse), p)
    ensures Reaches(DeclEdges(s.declared), p[|p| - 1], p[0])
    decreases |p|
  {
    var n := |p| - 1;
    if n == 0 {
      ReachesSelf(DeclEdges(s.declared), p[0]);
    } else {
      WaiterDeclares(s, owed, active, p[..n]);
      assert WaiterEdges(s.inverse)(p[n - 1], p[n]);
      assert WaitersOk(s, p[n - 1]) && ShapeOk(s, active, p[n]);
      EdgeReaches(DeclEdges(s.declared), p[n], p[n - 1]);
      ReachesTrans(DeclEdges(s.declared), p[n], p[n - 1], p[0]);
    }
  }

  lemma ErrorSpreadOrigins(s: State, owed: multiset<Id>, active: set<Id>, f: Id, order: seq<Id>, marked: set<Id>)
    requires Inv(s, owed, active, {}) && SpreadFrom(s, f, order, marked) && f in marked
    ensures Origins(ErrorSpread(Stubbed(s, f), f, order, marked))
  {
    var t := ErrorSpread(Stubbed(s, f), f, order, marked);
    ErrorSpreadLog(s, owed, active, f, order, marked);
    DeclGrows(s, t);
    forall y | y in t.modules
      ensures OriginOk(t, y)
    {
      if y in marked {
        var p :| IsWalkFromTo(WaiterEdges(s.inverse), p, f, y);
        WaiterDeclares(s, owed, active, p);
        ReachesMono(DeclEdges(s.declared), DeclEdges(t.declared), y, f);
      } else {
        OriginKept(s, t, y);
      }
    }
  }

  lemma ErrorSpreadCore(s: State, owed: multiset<Id>, active: set<Id>, f: Id, order: seq<Id>, marked: set<Id>)
    requires Inv(s, owed, active, {}) && SpreadFrom(s, f, order, marked) && f in marked
    ensures Core(ErrorSpread(Stubbed(s, f), f, order, marked), owed, active, {})
  {
    ErrorSpreadModules(s, owed, active, f, order, marked);
    ErrorSpreadLog(s, owed, active, f, order, marked);
    ErrorSpreadWaiters(s, f, order, marked);
  }

  lemma ErrorSpreadWaiters(s: State, f: Id, order: seq<Id>, marked: set<Id>)
    requires forall d {:trigger WaitersOk(s, d)} :: d in s.inverse ==> WaitersOk(s, d)
    requires forall i :: 0 <= i < |order| ==> order[i] in Stubbed(s, f).modules
    ensures var t := ErrorSpread(Stubbed(s, f), f, order, marked);
            && t.inverse == s.inverse && (s.declared.Keys == s.modules.Keys ==> t.declared.Keys == t.modules.Keys)
            && forall d {:trigger WaitersOk(t, d)} :: d in t.inverse ==> WaitersOk(t, d)
  {
    WaitersKept(s, ErrorSpread(Stubbed(s, f), f, order, marked));
  }

  lemma ErrorSpreadKeeps(s: State, owed: multiset<Id>, active: set<Id>, f: Id, order: seq<Id>, marked: set<Id>)
    requires Inv(s, owed, active, {}) && SpreadFrom(s, f, order, marked)
    ensures Inv(ErrorSpread(Stubbed(s, f), f, order, marked), owed, active, {})
  {
    ReachesSelf(WaiterEdges(s.inverse), f);
    ErrorSpreadCore(s, owed, active, f, order, marked);
    ErrorSpreadJust(s, owed, active, f, order, marked);
    ErrorSpreadOrigins(s, owed, active, f, order, marked);
  }
}
