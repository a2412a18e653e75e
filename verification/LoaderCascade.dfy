/**
 What a call to the manager does, step by step and in order: definitions made by a running factory, its return or its
 exception, and the release of the modules that wait for it, each of which may run in turn.
 */
module LoaderCascade {
  import opened Basics
  import opened LoaderState
  import opened LoaderSteps
  import opened LoaderCalls

  /** Where a cascade ends, and whether an exception leaves it there. */
  datatype End = End(s: State, escaped: bool)

  ghost predicate CanRun(s: State, x: Id) {
    x in s.modules && !s.modules[x].complete && s.modules[x].callback.Some?
  }

  /** A definition, unless its id is taken: its dependencies are examined, and it runs if none is left. */
  ghost function Definition(s: State, def: Define, catchError: bool): (r: End)
    ensures s.modules.Keys <= r.s.modules.Keys && Work(r.s.modules) <= Work(s.modules) + Size(def.factory)
    decreases Work(s.modules) + Size(def.factory), 3, 0
  {
    if def.id in s.modules then End(s, false)
    else
      InsertedWork(s, def);
      Settlement(Examined(Inserted(s, def), def.id, def.deps), def.id, catchError)
  }

  ghost function Settlement(s: State, x: Id, catchError: bool): (r: End)
    ensures s.modules.Keys <= r.s.modules.Keys && Work(r.s.modules) <= Work(s.modules)
    decreases Work(s.modules), 2, 0
  {
    if CanRun(s, x) && s.modules[x].count == 0 then Completion(s, x, catchError) else End(s, false)
  }

  /** The factory of x starts and makes its definitions; then it throws, or returns and releases the waiters of x. */
  ghost function Completion(s: State, x: Id, catchError: bool): (r: End)
    ensures s.modules.Keys <= r.s.modules.Keys && Work(r.s.modules) <= Work(s.modules)
    decreases Work(s.modules), 1, 0
  {
    if !CanRun(s, x) then End(s, false)
    else
      var factory := s.modules[x].callback.value;
      StartedWork(s, x);
      var u := Definitions(Started(s, x), factory.body, catchError);
      if u.escaped then u
      else if factory.throws && !catchError then End(Escaping(u.s, x), true)
      else
        FinishedWork(u.s, x, factory.throws);
        Releases(Finished(u.s, x, factory.throws), Waiters(u.s.inverse, x), catchError)
  }

  /** Definitions made one after another, up to one from which an exception escapes. */
  ghost function Definitions(s: State, body: seq<Define>, catchError: bool): (r: End)
    ensures s.modules.Keys <= r.s.modules.Keys && Work(r.s.modules) <= Work(s.modules) + SizeAll(body)
    decreases Work(s.modules) + SizeAll(body), 4, |body|
  {
    if body == [] then End(s, false)
    else
      var t := Definition(s, body[0], catchError);
      if t.escaped then t else Definitions(t.s, body[1..], catchError)
  }

  /** Waiters counted down one after another, each completed when it comes to zero, up to an exception. */
  ghost function Releases(s: State, waiters: seq<Id>, catchError: bool): (r: End)
    ensures s.modules.Keys <= r.s.modules.Keys && Work(r.s.modules) <= Work(s.modules)
    decreases Work(s.modules), 3, |waiters|
  {
    if waiters == [] || waiters[0] !in s.modules then End(s, false)
    else
      DecrementedWork(s, waiters[0]);
      var t := Settlement(Decremented(s, waiters[0]), waiters[0], catchError);
      if t.escaped then t else Releases(t.s, waiters[1..], catchError)
  }

  /** The release has come to the i-th waiter, or an exception has ended it. */
  ghost predicate ReleasedTo(s: State, waiters: seq<Id>, i: nat, catchError: bool, t: State, escaped: bool)
    requires i <= |waiters|
  {
    Releases(s, waiters, catchError) == if escaped then End(t, true) else Releases(t, waiters[i..], catchError)
  }

  lemma ReleasedNext(s: State, waiters: seq<Id>, i: nat, catchError: bool, t: State, u: End)
    requires i < |waiters| && ReleasedTo(s, waiters, i, catchError, t, false)
    requires waiters[i] in t.modules && u == Settlement(Decremented(t, waiters[i]), waiters[i], catchError)
    ensures ReleasedTo(s, waiters, i + 1, catchError, u.s, u.escaped)
  {
    assert waiters[i..][0] == waiters[i] && waiters[i..][1..] == waiters[i + 1..];
  }

  lemma ReleasedAll(s: State, waiters: seq<Id>, i: nat, catchError: bool, t: State, escaped: bool)
    requires i <= |waiters| && (!escaped ==> i == |waiters|) && ReleasedTo(s, waiters, i, catchError, t, escaped)
    ensures End(t, escaped) == Releases(s, waiters, catchError)
  {
  }

  /** Where a definition leads once its dependencies are examined: it stays there, or its factory runs. */
  ghost predicate Settles(s: State, x: Id, factory: Factory, catchError: bool, t: State, escaped: bool)
    requires x in s.modules
  {
    && End(t, escaped) == Settlement(s, x, catchError)
    && if s.modules[x].complete || s.modules[x].count != 0 then t == s && !escaped
       else RanTo(s, x, factory, catchError, t, escaped)
  }

  /** A factory that makes no definitions and throws, and nobody catches. */
  lemma ThrowsAtOnce(s: State, x: Id)
    requires CanRun(s, x) && s.modules[x].count == 0 && s.modules[x].callback.value == Factory([], true)
    ensures Settlement(s, x, false) == End(Escaping(Started(s, x), x), true)
  {
    assert Definitions(Started(s, x), [], false) == End(Started(s, x), false);
  }

  lemma InsertedWork(s: State, def: Define)
    requires def.id !in s.modules
    ensures var t := Examined(Inserted(s, def), def.id, def.deps);
            s.modules.Keys <= t.modules.Keys && Work(t.modules) <= Work(s.modules) + Size(def.factory)
  {
    var x, deps, u := def.id, def.deps, Inserted(s, def);
    WorkUpdate(s.modules, x, NewModule(deps, def.factory, def.errback));
    var k := ErrorIndex(u.modules, deps, 0);
    ExaminedWork(u, x, deps, k);
    ExaminedIsCounted(u, x, deps, k);
    var t := ExaminedUpTo(u, x, deps, k);
    if k < |deps| {
      WorkUpdate(t.modules, x, Errored(t.modules[x], ErrorOf(u.modules, deps[k]).value));
    }
  }

  lemma StartedWork(s: State, x: Id)
    requires CanRun(s, x)
    ensures Work(Started(s, x).modules) + Size(s.modules[x].callback.value) == Work(s.modules)
  {
    WorkUpdate(s.modules, x, s.modules[x].(complete := true));
  }

  lemma FinishedWork(s: State, x: Id, throws: bool)
    requires x in s.modules
    ensures Work(Finished(s, x, throws).modules) <= Work(s.modules)
  {
    WorkUpdate(s.modules, x, Outcome(s.modules[x], x, throws));
  }

  lemma DecrementedWork(s: State, x: Id)
    requires x in s.modules
    ensures Work(Decremented(s, x).modules) == Work(s.modules)
  {
    WorkUpdate(s.modules, x, s.modules[x].(count := s.modules[x].count - 1));
  }

  // ---------- the order of a cascade ----------

  /** One definition: nothing happens if its id is taken; else it stays where its dependencies leave it, or runs. */
  ghost predicate DefinesOne(s: State, def: Define, catchError: bool, t: State, escaped: bool) {
    if def.id in s.modules then t == s && !escaped
    else
      var m := Module(Some(def.deps), Some(def.factory), def.errback, None, |def.deps|, false);
      var u := s.(modules := s.modules[def.id := m], declared := s.declared[def.id := def.deps]);
      var e := Examined(u, def.id, def.deps);
      if e.modules[def.id].complete || e.modules[def.id].count != 0 then t == e && !escaped
      else e.modules[def.id].callback == Some(def.factory) && End(t, escaped) == Completion(e, def.id, catchError)
  }

  /** One waiter: its counter goes down by one, and it runs exactly if it is incomplete and the counter is then zero. */
  ghost predicate ReleasesOne(s: State, y: Id, catchError: bool, t: State, escaped: bool) {
    && y in s.modules
    && var m := s.modules[y].(count := s.modules[y].count - 1);
       var u := s.(modules := s.modules[y := m]);
       if m.complete || m.callback.None? || m.count != 0 then t == u && !escaped
       else End(t, escaped) == Completion(u, y, catchError)
  }

  /** The states between the definitions of a list, up to its end or to a definition from which an exception escapes. */
  ghost predicate DefinesInOrder(ss: seq<State>, body: seq<Define>, catchError: bool, escaped: bool) {
    && 0 < |ss| <= |body| + 1 && (!escaped ==> |ss| == |body| + 1) && (escaped ==> |ss| > 1)
    && forall j :: 0 <= j < |ss| - 1 ==>
         DefinesOne(ss[j], body[j], catchError, ss[j + 1], escaped && j == |ss| - 2)
  }

  /** The states between the releases of a list of waiters. */
  ghost predicate ReleasesInOrder(ss: seq<State>, waiters: seq<Id>, catchError: bool, escaped: bool) {
    && 0 < |ss| <= |waiters| + 1 && (!escaped ==> |ss| == |waiters| + 1) && (escaped ==> |ss| > 1)
    && forall j :: 0 <= j < |ss| - 1 ==>
         ReleasesOne(ss[j], waiters[j], catchError, ss[j + 1], escaped && j == |ss| - 2)
  }

  lemma DefinitionIsOne(s: State, def: Define, catchError: bool)
    ensures var r := Definition(s, def, catchError); DefinesOne(s, def, catchError, r.s, r.escaped)
  {
    if def.id !in s.modules {
      var u := Inserted(s, def);
      ExaminedIsCounted(u, def.id, def.deps, ErrorIndex(u.modules, def.deps, 0));
    }
  }

  lemma DefinesFirst(s: State, body: seq<Define>, rest: seq<State>, catchError: bool, escaped: bool)
    requires body != [] && rest != [] && DefinesOne(s, body[0], catchError, rest[0], false)
    requires DefinesInOrder(rest, body[1..], catchError, escaped)
    ensures DefinesInOrder([s] + rest, body, catchError, escaped)
  {
    var ss := [s] + rest;
    forall j | 0 <= j < |ss| - 1
      ensures DefinesOne(ss[j], body[j], catchError, ss[j + 1], escaped && j == |ss| - 2)
    {
      if j > 0 {
        assert ss[j] == rest[j - 1] && ss[j + 1] == rest[j] && body[j] == body[1..][j - 1];
      }
    }
  }

  lemma {:induction false} DefinitionsAre(s: State, body: seq<Define>, catchError: bool) returns (ss: seq<State>)
    ensures var r := Definitions(s, body, catchError);
            ss != [] && ss[0] == s && ss[|ss| - 1] == r.s && DefinesInOrder(ss, body, catchError, r.escaped)
    decreases |body|
  {
    if body == [] {
      return [s];
    }
    DefinitionIsOne(s, body[0], catchError);
    var t := Definition(s, body[0], catchError);
    if t.escaped {
      return [s, t.s];
    }
    var rest := DefinitionsAre(t.s, body[1..], catchError);
    DefinesFirst(s, body, rest, catchError, Definitions(t.s, body[1..], catchError).escaped);
    return [s] + rest;
  }

  lemma ReleasesFirst(s: State, waiters: seq<Id>, rest: seq<State>, catchError: bool, escaped: bool)
    requires waiters != [] && rest != [] && ReleasesOne(s, waiters[0], catchError, rest[0], false)
    requires ReleasesInOrder(rest, waiters[1..], catchError, escaped)
    ensures ReleasesInOrder([s] + rest, waiters, catchError, escaped)
  {
    var ss := [s] + rest;
    forall j | 0 <= j < |ss| - 1
      ensures ReleasesOne(ss[j], waiters[j], catchError, ss[j + 1], escaped && j == |ss| - 2)
    {
      if j > 0 {
        assert ss[j] == rest[j - 1] && ss[j + 1] == rest[j] && waiters[j] == waiters[1..][j - 1];
      }
    }
  }

  lemma ReleaseIsOne(s: State, y: Id, catchError: bool)
    requires y in s.modules
    ensures var r := Settlement(Decremented(s, y), y, catchError); ReleasesOne(s, y, catchError, r.s, r.escaped)
  {
  }

  lemma {:induction false} ReleasesAre(s: State, waiters: seq<Id>, catchError: bool) returns (ss: seq<State>)
    requires forall y :: y in waiters ==> y in s.modules
    ensures var r := Releases(s, waiters, catchError);
            ss != [] && ss[0] == s && ss[|ss| - 1] == r.s && ReleasesInOrder(ss, waiters, catchError, r.escaped)
    decreases |waiters|
  {
    if waiters == [] {
      return [s];
    }
    ReleaseIsOne(s, waiters[0], catchError);
    var t := Settlement(Decremented(s, waiters[0]), waiters[0], catchError);
    if t.escaped {
      return [s, t.s];
    }
    var rest := ReleasesAre(t.s, waiters[1..], catchError);
    ReleasesFirst(s, waiters, rest, catchError, Releases(t.s, waiters[1..], catchError).escaped);
    return [s] + rest;
  }

  /**
   A factory that runs: it is marked complete and logged, and makes its definitions in order. Then its exception
   leaves the manager, or its outcome is recorded and reported, its list of waiters is taken, and the waiters are
   released in order.
   */
  lemma CascadeInOrder(s: State, x: Id, catchError: bool) returns (ds: seq<State>, ws: seq<State>, stopped: bool)
    requires CanRun(s, x)
    ensures var m, r := s.modules[x], Completion(s, x, catchError);
            var body, throws := m.callback.value.body, m.callback.value.throws;
            && DefinesInOrder(ds, body, catchError, stopped)
            && ds[0] == s.(modules := s.modules[x := m.(complete := true)], log := s.log + [Ran(x)])
            && var u := ds[|ds| - 1];
               if stopped then r == End(u, true)
               else if throws && !catchError then r == End(u.(log := u.log + [Escaped(x)]), true)
               else
                 && x in u.modules && ws != [] && r.s == ws[|ws| - 1]
                 && ((forall y :: y in Waiters(u.inverse, x) ==> y in u.modules) ==>
                       ReleasesInOrder(ws, Waiters(u.inverse, x), catchError, r.escaped))
                 && var error := if throws then Some(FactoryThrew(x)) else u.modules[x].error;
                    var done := Module(None, None, false, error, u.modules[x].count, u.modules[x].complete);
                    ws[0] == u.(modules := u.modules[x := done], inverse := u.inverse - {x},
                                log := if throws then u.log + [Reported(FactoryThrew(x))] else u.log)
  {
    var factory := s.modules[x].callback.value;
    ds := DefinitionsAre(Started(s, x), factory.body, catchError);
    var u := Definitions(Started(s, x), factory.body, catchError);
    stopped := u.escaped;
    if u.escaped || (factory.throws && !catchError) {
      ws := [];
    } else {
      var v := Finished(u.s, x, factory.throws);
      if forall y :: y in Waiters(u.s.inverse, x) ==> y in u.s.modules {
        ws := ReleasesAre(v, Waiters(u.s.inverse, x), catchError);
      } else {
        ws := [v, Completion(s, x, catchError).s];
      }
    }
  }
}
