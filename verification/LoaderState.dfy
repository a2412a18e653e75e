/** The data held by the AMD module manager, and sums over it. */
module LoaderState {
  import opened Basics
  import opened Graph

  type Id = nat

  /** A normalised regular dependency; the first three are the shared special objects with ids 0, 1 and 2. */
  datatype Dep = Exports | ModuleObject | Require | Regular(id: Id) {
    function Key(): Id {
      match this
      case Exports => 0
      case ModuleObject => 1
      case Require => 2
      case Regular(id) => id
    }
  }

  /** What a factory does when it runs: further `require`/`define` calls, then it returns or throws. */
  datatype Factory = Factory(body: seq<Define>, throws: bool)

  datatype Define = Define(id: Id, deps: seq<Dep>, errback: bool, factory: Factory)

  datatype Error = LoadFailed(id: Id) | FactoryThrew(id: Id)

  datatype Module = Module(
    deps: Option<seq<Dep>>,
    callback: Option<Factory>,
    errback: bool,
    error: Option<Error>,
    count: int,
    complete: bool)

  function NewModule(deps: seq<Dep>, factory: Factory, errback: bool): Module {
    Module(Some(deps), Some(factory), errback, None, |deps|, false)
  }

  /**
   What the outside world sees: factories and errorbacks invoked, errors reported, scripts requested, and
   exceptions that leave the manager because it does not catch what factories throw.
   */
  datatype Event = Ran(id: Id) | Errback(id: Id) | Reported(error: Error) | Requested(id: Id) | Escaped(id: Id)

  /** A snapshot of the manager; `declared`, `failed` and `log` are history. */
  datatype State = State(
    modules: map<Id, Module>,
    known: set<Id>,
    inverse: map<Id, seq<Id>>,
    declared: map<Id, seq<Dep>>,
    failed: set<Id>,
    log: seq<Event>)

  /** d is named among these dependencies: by itself, or as one of the three special objects. */
  ghost predicate Mentions(deps: seq<Dep>, d: Id) {
    Regular(d) in deps || (d == 0 && Exports in deps) || (d == 1 && ModuleObject in deps) || (d == 2 && Require in deps)
  }

  /** The ids that the searches read off are exactly those named. */
  lemma KeysAreMentioned(deps: seq<Dep>, d: Id)
    ensures Mentions(deps, d) <==> exists i :: 0 <= i < |deps| && deps[i].Key() == d
  {
    if Mentions(deps, d) {
      var special := if d == 0 then Exports else if d == 1 then ModuleObject else Require;
      var dep := if Regular(d) in deps then Regular(d) else special;
      var i :| 0 <= i < |deps| && deps[i] == dep;
      assert deps[i].Key() == d;
    }
    if i :| 0 <= i < |deps| && deps[i].Key() == d {
      assert deps[i] in deps;
    }
  }

  /** The edges that the cycle check searches. */
  ghost function DepEdges(modules: map<Id, Module>): Edges {
    (x: nat, d: nat) => x in modules && modules[x].deps.Some? && Mentions(modules[x].deps.value, d)
  }

  lemma KeyIsEdge(modules: map<Id, Module>, x: Id, i: nat)
    requires x in modules && modules[x].deps.Some? && i < |modules[x].deps.value|
    ensures DepEdges(modules)(x, modules[x].deps.value[i].Key())
  {
    assert modules[x].deps.value[i] in modules[x].deps.value;
  }

  /** Every dependency ever declared. */
  ghost function DeclEdges(declared: map<Id, seq<Dep>>): Edges {
    (x: nat, d: nat) => x in declared && Mentions(declared[x], d)
  }

  /** The waits-for graph: x waits for d. */
  ghost function WaitEdges(inverse: map<Id, seq<Id>>): Edges {
    (x: nat, d: nat) => d in inverse && x in inverse[d]
  }

  /** The same lists read the other way, as the error search follows them. */
  ghost function WaiterEdges(inverse: map<Id, seq<Id>>): Edges {
    (d: nat, x: nat) => d in inverse && x in inverse[d]
  }

  function Waiters(inverse: map<Id, seq<Id>>, d: Id): seq<Id> {
    if d in inverse then inverse[d] else []
  }

  function Push(inverse: map<Id, seq<Id>>, d: Id, x: Id): map<Id, seq<Id>> {
    inverse[d := Waiters(inverse, d) + [x]]
  }

  // ---------- all recorded waits, with multiplicity ----------

  ghost function AllWaits(inverse: map<Id, seq<Id>>): multiset<Id>
    decreases |inverse|
  {
    if inverse == map[] then multiset{}
    else
      var d :| d in inverse;
      multiset(inverse[d]) + AllWaits(inverse - {d})
  }

  lemma {:induction false} AllWaitsRemove(inverse: map<Id, seq<Id>>, d: Id)
    requires d in inverse
    ensures AllWaits(inverse) == multiset(inverse[d]) + AllWaits(inverse - {d})
    decreases |inverse|
  {
    var c :| c in inverse && AllWaits(inverse) == multiset(inverse[c]) + AllWaits(inverse - {c});
    if c != d {
      AllWaitsRemove(inverse - {c}, d);
      AllWaitsRemove(inverse - {d}, c);
      assert inverse - {c} - {d} == inverse - {d} - {c};
    }
  }

  lemma AllWaitsDrop(inverse: map<Id, seq<Id>>, d: Id)
    ensures AllWaits(inverse) == multiset(Waiters(inverse, d)) + AllWaits(inverse - {d})
  {
    if d in inverse {
      AllWaitsRemove(inverse, d);
    } else {
      assert inverse - {d} == inverse;
    }
  }

  lemma AllWaitsPush(inverse: map<Id, seq<Id>>, d: Id, x: Id)
    ensures AllWaits(Push(inverse, d, x)) == AllWaits(inverse) + multiset{x}
  {
    AllWaitsDrop(inverse, d);
    AllWaitsRemove(Push(inverse, d, x), d);
    assert Push(inverse, d, x) - {d} == inverse - {d};
  }

  lemma AllWaitsHas(inverse: map<Id, seq<Id>>, d: Id, x: Id)
    requires d in inverse && x in inverse[d]
    ensures AllWaits(inverse)[x] >= 1
  {
    AllWaitsRemove(inverse, d);
    assert x in multiset(inverse[d]);
  }

  lemma {:induction false} AllWaitsFrom(inverse: map<Id, seq<Id>>, x: Id) returns (d: Id)
    requires x in AllWaits(inverse)
    ensures d in inverse && x in inverse[d]
    decreases |inverse|
  {
    var c :| c in inverse && AllWaits(inverse) == multiset(inverse[c]) + AllWaits(inverse - {c});
    if x in inverse[c] {
      d := c;
    } else {
      d := AllWaitsFrom(inverse - {c}, x);
    }
  }

  // ---------- the work left in factories that have not run ----------

  ghost function Size(f: Factory): nat {
    1 + SizeAll(f.body)
  }

  ghost function SizeAll(ds: seq<Define>): nat {
    if ds == [] then 0 else Size(ds[0].factory) + SizeAll(ds[1..])
  }

  ghost function Weight(m: Module): nat {
    if m.complete || m.callback.None? then 0 else Size(m.callback.value)
  }

  ghost function Work(modules: map<Id, Module>): nat
    decreases |modules|
  {
    if modules == map[] then 0
    else
      var x :| x in modules;
      Weight(modules[x]) + Work(modules - {x})
  }

  lemma {:induction false} WorkRemove(modules: map<Id, Module>, x: Id)
    requires x in modules
    ensures Work(modules) == Weight(modules[x]) + Work(modules - {x})
    decreases |modules|
  {
    var y :| y in modules && Work(modules) == Weight(modules[y]) + Work(modules - {y});
    if x != y {
      WorkRemove(modules - {y}, x);
      WorkRemove(modules - {x}, y);
      assert modules - {y} - {x} == modules - {x} - {y};
    }
  }

  lemma WorkUpdate(modules: map<Id, Module>, x: Id, m: Module)
    ensures Work(modules[x := m]) == Work(modules) - (if x in modules then Weight(modules[x]) else 0) + Weight(m)
  {
    WorkRemove(modules[x := m], x);
    assert modules[x := m] - {x} == modules - {x};
    if x in modules {
      WorkRemove(modules, x);
    } else {
      assert modules - {x} == modules;
    }
  }
}
