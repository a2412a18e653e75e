/**
 The invariant of the module manager, kept by each of its elementary updates.

 `owed` counts, with multiplicity, the decrements that are still to come from outside the
 inverse-dependency lists: dependencies a module has not yet examined, and entries of a list
 that is being drained. `active` holds the modules whose factories have started and not returned,
 and `ready` the modules allowed to stand at zero before they are completed. An exception that
 leaves the manager keeps what it interrupts in `owed` and `active` for good.
 */
module LoaderInvariant {
  import opened Basics
  import opened Graph
  import opened LoaderState

  /** The state of one module is coherent with itself and with the history. */
  ghost predicate ShapeOk(s: State, active: set<Id>, x: Id)
    requires x in s.modules
  {
    var m := s.modules[x];
    && x in s.declared
    && (m.deps.Some? ==> m.deps.value == s.declared[x])
    && (!m.complete ==> m.deps.Some? && m.error.None? && m.callback.Some?)
    && (m.deps.None? ==> m.complete && m.count == 0 && !m.errback && x !in active)
    && (x in active ==> m.complete && m.deps.Some? && m.count == 0 && (m.error.Some? ==> x in s.failed))
    && (m.complete && m.deps.Some? && x !in active ==> m.error.Some?)
    && (Ran(x) in s.log <==> m.deps.None? || x in active)
    && (Errback(x) in s.log <==> m.complete && m.deps.Some? && m.error.Some? && m.errback)
  }

  /** The counter of one module covers the decrements still to come, exactly so while it is incomplete. */
  ghost predicate CountOk(s: State, owed: multiset<Id>, ready: set<Id>, x: Id)
    requires x in s.modules
  {
    var m := s.modules[x];
    && m.count >= AllWaits(s.inverse)[x] + owed[x]
    && (!m.complete ==> m.count == AllWaits(s.inverse)[x] + owed[x] && (m.count >= 1 || x in ready))
  }

  /** The list of modules waiting for d names modules that really depend on d, and d has yet to run. */
  ghost predicate WaitersOk(s: State, d: Id)
    requires d in s.inverse
  {
    && (forall x :: x in s.inverse[d] ==>
          x in s.modules && s.modules[x].deps.Some? && Regular(d) in s.modules[x].deps.value)
    && (s.inverse[d] != [] ==> d in s.modules || d in s.known)
    && (d in s.modules && s.modules[d].deps.None? ==> s.inverse[d] == [])
  }

  /** d has run, x waits for d, or there is a declared dependency path from d back to x. */
  ghost predicate Settled(s: State, x: Id, d: Id) {
    || Ran(d) in s.log
    || (d in s.inverse && x in s.inverse[d])
    || HasPath(DeclEdges(s.declared), d, x)
  }

  ghost predicate JustOk(s: State, x: Id)
    requires x in s.modules
  {
    && x in s.declared
    && (!s.modules[x].complete ==>
          forall d {:trigger Settled(s, x, d)} :: Regular(d) in s.declared[x] ==> Settled(s, x, d))
  }

  /** At position i of the log a factory ran whose dependencies had run before it, or lie on a cycle with it. */
  ghost predicate RanOk(s: State, i: nat)
    requires i < |s.log| && s.log[i].Ran?
  {
    var x := s.log[i].id;
    && x in s.modules && x in s.declared
    && forall d {:trigger Regular(d)} :: Regular(d) in s.declared[x] ==>
         Ran(d) in s.log[..i] || HasPath(DeclEdges(s.declared), d, x)
  }

  ghost predicate OnceInLog(log: seq<Event>) {
    forall i, j :: 0 <= i < j < |log| && (log[i].Ran? || log[i].Requested?) ==> log[i] != log[j]
  }

  ghost predicate LogOk(s: State) {
    && OnceInLog(s.log)
    && (forall i {:trigger s.log[i]} :: 0 <= i < |s.log| && s.log[i].Ran? ==> RanOk(s, i))
    && (forall x {:trigger Errback(x)} :: Errback(x) in s.log ==> x in s.modules)
    && (forall x {:trigger Requested(x)} :: Requested(x) in s.log <==> x in s.known)
  }

  /** Everything except the justification of each module's wait. */
  ghost predicate Core(s: State, owed: multiset<Id>, active: set<Id>, ready: set<Id>) {
    && s.declared.Keys == s.modules.Keys
    && (forall x :: x in owed ==> x in s.modules)
    && active <= s.modules.Keys
    && (forall x {:trigger ShapeOk(s, active, x)} :: x in s.modules ==> ShapeOk(s, active, x))
    && (forall x {:trigger CountOk(s, owed, ready, x)} :: x in s.modules ==> CountOk(s, owed, ready, x))
    && (forall d {:trigger WaitersOk(s, d)} :: d in s.inverse ==> WaitersOk(s, d))
    && LogOk(s)
    && Acyclic(WaitEdges(s.inverse))
  }

  /** An error leads, along declared dependencies, to a factory that threw or a script that failed to load. */
  ghost predicate OriginOk(s: State, x: Id)
    requires x in s.modules
  {
    s.modules[x].error.Some? ==>
      var err := s.modules[x].error.value;
      && Reaches(DeclEdges(s.declared), x, err.id)
      && (err.FactoryThrew? ==> Ran(err.id) in s.log && Reported(err) in s.log)
      && (err.LoadFailed? ==> err.id in s.failed)
  }

  ghost predicate Origins(s: State) {
    forall x {:trigger OriginOk(s, x)} :: x in s.modules ==> OriginOk(s, x)
  }

  ghost predicate Inv(s: State, owed: multiset<Id>, active: set<Id>, ready: set<Id>) {
    && Core(s, owed, active, ready)
    && (forall x {:trigger JustOk(s, x)} :: x in s.modules ==> JustOk(s, x))
    && Origins(s)
  }

  /** The invariant between steps, as long as no exception has left the manager. */
  ghost predicate Valid(s: State) {
    Inv(s, multiset{}, {}, {})
  }
}
