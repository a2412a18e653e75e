/** Ownership of write halves and conservation of bytes, kept by every step of the stream table. */
module StreamsInvariant {
  import opened Basics
  import opened Streams

  // ---------- ownership ----------

  /** The write half of a stream that is in the table. */
  predicate Live(s: State, h: Half) {
    h in s.history && s.history[h].id in s.table && CurrentHalf(s, s.history[h].id) == h
  }

  ghost predicate RecOk(s: State, id: StreamId)
    requires id in s.table
  {
    var rec, h := s.table[id], CurrentHalf(s, id);
    && id in s.current && h in s.history && s.history[h].id == id
    && (rec.write.Some? ==> rec.write.value == h && rec.q == [] && !rec.ended && id !in s.running)
    && (rec.write.None? ==> id in s.running)
    && (rec.ended ==> s.history[h].endReceived)
    && (s.history[h].closeAsked ==> rec.ended || HasRemover(s, id))
  }

  ghost predicate RunningOk(s: State, id: StreamId)
    requires id in s.running
  {
    var t := s.running[id];
    && id in s.table && s.table[id].write.None?
    && t in s.tasks && s.tasks[t].Writer? && s.tasks[t].id == id && s.tasks[t].half == CurrentHalf(s, id)
  }

  ghost predicate TaskOk(s: State, t: TaskId)
    requires t in s.tasks
  {
    && t < s.nextTask
    && match s.tasks[t]
       case Writer(id, _, _) => id in s.running && s.running[id] == t
       case Closer(half) => half in s.history && !Live(s, half) && half !in s.shut
       case Remover(id) =>
         id in s.table ==> CurrentHalf(s, id) in s.history && s.history[CurrentHalf(s, id)].endReceived
  }

  ghost predicate HasCloser(s: State, half: Half) {
    exists t :: t in s.tasks && s.tasks[t] == Closer(half)
  }

  /** The stream of a write half is in the table, or the half is with a closer or shut down. */
  ghost predicate StreamOk(s: State, h: Half)
    requires h in s.history
  {
    var y := s.history[h];
    && h in s.wire && h in s.fate
    && (Live(s, h) || h in s.shut || HasCloser(s, h))
    && (!y.endReceived ==> Live(s, h) && y.received == y.accepted)
    && y.received <= y.accepted
  }

  ghost predicate ShutOk(s: State) {
    && (forall i, j :: 0 <= i < j < |s.shut| ==> s.shut[i] != s.shut[j])
    && (forall h :: h in s.shut ==> h in s.history && !Live(s, h))
  }

  ghost predicate OneCloser(s: State) {
    forall t, u :: t in s.tasks && u in s.tasks && s.tasks[t].Closer? && s.tasks[t] == s.tasks[u] ==> t == u
  }

  /** Write halves are numbered, and each that was handed out has its history. */
  ghost predicate Numbered(s: State) {
    && (forall h: Half :: h in s.history <==> h < s.nextHalf)
    && (forall id :: id in s.current ==> s.current[id] < s.nextHalf && s.history[s.current[id]].id == id)
  }

  ghost predicate Owned(s: State) {
    && Numbered(s)
    && (forall id {:trigger RecOk(s, id)} :: id in s.table ==> RecOk(s, id))
    && (forall id {:trigger RunningOk(s, id)} :: id in s.running ==> RunningOk(s, id))
    && (forall t {:trigger TaskOk(s, t)} :: t in s.tasks ==> TaskOk(s, t))
    && (forall h {:trigger StreamOk(s, h)} :: h in s.history ==> StreamOk(s, h))
    && ShutOk(s)
    && OneCloser(s)
  }

  // ---------- conservation ----------

  function InFlight(s: State, h: Half): seq<Segment>
    requires h in s.history
  {
    var id := s.history[h].id;
    if Live(s, h) && id in s.running && s.running[id] in s.tasks && s.tasks[s.running[id]].Writer?
    then s.tasks[s.running[id]].batch else []
  }

  function Queue(s: State, h: Half): seq<Segment>
    requires h in s.history
  {
    if Live(s, h) then s.table[s.history[h].id].q else []
  }

  function Wire(s: State, h: Half): Segment {
    if h in s.wire then s.wire[h] else []
  }

  function Fate(s: State, h: Half): seq<Piece> {
    if h in s.fate then s.fate[h] else []
  }

  function AllOf(pieces: seq<Piece>): Segment {
    if pieces == [] then [] else pieces[0].bytes + AllOf(pieces[1..])
  }

  function SentOf(pieces: seq<Piece>): Segment {
    if pieces == [] then [] else (if pieces[0].Sent? then pieces[0].bytes else []) + SentOf(pieces[1..])
  }

  function LostOf(pieces: seq<Piece>): Segment {
    if pieces == [] then [] else (if pieces[0].Sent? then [] else pieces[0].bytes) + LostOf(pieces[1..])
  }

  /** The bytes of a write half that no write has put on the wire and none will. */
  function Lost(s: State, h: Half): Segment {
    LostOf(Fate(s, h))
  }

  /**
   The accepted bytes are, in order, the pieces written or lost, the batch and the queue; the wire is the pieces
   written.
   */
  ghost predicate Conserved(s: State, h: Half)
    requires h in s.history
  {
    && Flat(s.history[h].accepted) == AllOf(Fate(s, h)) + (Flat(InFlight(s, h)) + Flat(Queue(s, h)))
    && Wire(s, h) == SentOf(Fate(s, h))
  }

  ghost predicate AllConserved(s: State) {
    forall h {:trigger Conserved(s, h)} :: h in s.history ==> Conserved(s, h)
  }

  ghost predicate Inv(s: State) {
    Owned(s) && AllConserved(s)
  }

  /** What a step leaves alone keeps its balance. */
  lemma ConservedFrame(s: State, t: State, h: Half)
    requires h in s.history && Conserved(s, h) && h in t.history
    requires t.history[h].accepted == s.history[h].accepted
    requires InFlight(t, h) == InFlight(s, h) && Queue(t, h) == Queue(s, h)
    requires Wire(t, h) == Wire(s, h) && Fate(t, h) == Fate(s, h)
    ensures Conserved(t, h)
  {
  }

  lemma StartInv()
    ensures Inv(START)
  {
  }

  // ---------- a step about one stream leaves the others alone ----------

  /** The task concerns the records under id, or is to close the write half g. */
  ghost predicate About(task: Task, id: StreamId, g: Half) {
    match task
    case Writer(x, _, _) => x == id
    case Closer(h) => h == g
    case Remover(x) => x == id
  }

  ghost predicate SameEntry(s: State, t: State, x: StreamId) {
    && (x in t.table <==> x in s.table) && (x in s.table ==> t.table[x] == s.table[x])
    && (x in t.running <==> x in s.running) && (x in s.running ==> t.running[x] == s.running[x])
  }

  ghost predicate SameHalf(s: State, t: State, h: Half) {
    && (h in t.history <==> h in s.history) && (h in s.history ==> t.history[h] == s.history[h])
    && (h in t.shut <==> h in s.shut) && Wire(t, h) == Wire(s, h) && Fate(t, h) == Fate(s, h)
  }

  /** Ids other than id, write halves other than g, and tasks other than u, are as they were. */
  ghost predicate Frame(s: State, t: State, id: StreamId, g: Half, u: TaskId) {
    && (forall x {:trigger SameEntry(s, t, x)} :: x != id ==> SameEntry(s, t, x))
    && (forall h {:trigger SameHalf(s, t, h)} :: h != g ==> SameHalf(s, t, h))
    && (forall v :: v != u ==> (v in t.tasks <==> v in s.tasks) && (v in s.tasks ==> t.tasks[v] == s.tasks[v]))
    && FrameHere(s, t, id, g, u)
  }

  ghost predicate FrameHere(s: State, t: State, id: StreamId, g: Half, u: TaskId) {
    && (u in s.tasks ==> About(s.tasks[u], id, g))
    && (u in t.tasks ==> About(t.tasks[u], id, g))
    && t.current == s.current && t.nextHalf == s.nextHalf && s.nextTask <= t.nextTask
    && (g in t.history <==> g in s.history)
    && (g in s.history ==> s.history[g].id == id && t.history[g].id == id)
    && (CurrentHalf(s, id) == g || (SameEntry(s, t, id) && u in s.tasks && s.tasks[u] == Closer(g)))
    && s.wire.Keys <= t.wire.Keys && s.fate.Keys <= t.fate.Keys
  }

  /** A frame stated by taking the entries of id, g and u out. */
  lemma FrameByDifference(s: State, t: State, id: StreamId, g: Half, u: TaskId)
    requires t.table - {id} == s.table - {id} && t.running - {id} == s.running - {id}
    requires t.history - {g} == s.history - {g} && t.tasks - {u} == s.tasks - {u}
    requires t.wire - {g} == s.wire - {g} && t.fate - {g} == s.fate - {g}
    requires t.shut == s.shut || t.shut == s.shut + [g]
    requires FrameHere(s, t, id, g, u)
    ensures Frame(s, t, id, g, u)
  {
    forall x | x != id ensures SameEntry(s, t, x) {
      SameElsewhere(s.table, t.table, id, x);
      SameElsewhere(s.running, t.running, id, x);
    }
    forall h | h != g ensures SameHalf(s, t, h) {
      SameElsewhere(s.history, t.history, g, h);
      SameElsewhere(s.wire, t.wire, g, h);
      SameElsewhere(s.fate, t.fate, g, h);
    }
    forall v | v != u ensures (v in t.tasks <==> v in s.tasks) && (v in s.tasks ==> t.tasks[v] == s.tasks[v]) {
      SameElsewhere(s.tasks, t.tasks, u, v);
    }
  }

  lemma SameElsewhere<T>(m: map<nat, T>, n: map<nat, T>, k: nat, x: nat)
    requires n - {k} == m - {k} && x != k
    ensures (x in n <==> x in m) && (x in m ==> n[x] == m[x])
  {
    assert x in n - {k} <==> x in m - {k};
    assert x in m ==> (m - {k})[x] == m[x] && (n - {k})[x] == n[x];
  }

  lemma ElsewhereLive(s: State, t: State, id: StreamId, g: Half, u: TaskId, h: Half)
    requires Frame(s, t, id, g, u) && h != g
    ensures Live(t, h) <==> Live(s, h)
    ensures Live(s, h) ==> SameEntry(s, t, s.history[h].id)
  {
    assert SameHalf(s, t, h);
    if h in s.history && s.history[h].id != id {
      assert SameEntry(s, t, s.history[h].id);
    }
  }

  lemma ElsewhereRec(s: State, t: State, id: StreamId, g: Half, u: TaskId, x: StreamId)
    requires Owned(s) && Frame(s, t, id, g, u) && x != id && x in t.table
    ensures RecOk(t, x)
  {
    assert SameEntry(s, t, x);
    assert RecOk(s, x);
    assert SameHalf(s, t, CurrentHalf(s, x));
    if HasRemover(s, x) {
      var v :| v in s.tasks && s.tasks[v] == Remover(x);
      assert t.tasks[v] == Remover(x);
    }
  }

  lemma ElsewhereRunning(s: State, t: State, id: StreamId, g: Half, u: TaskId, x: StreamId)
    requires Owned(s) && Frame(s, t, id, g, u) && x != id && x in t.running
    ensures RunningOk(t, x)
  {
    assert SameEntry(s, t, x);
    assert RunningOk(s, x);
  }

  lemma ElsewhereTask(s: State, t: State, id: StreamId, g: Half, u: TaskId, v: TaskId)
    requires Owned(s) && Frame(s, t, id, g, u) && v != u && v in t.tasks && !About(t.tasks[v], id, g)
    ensures TaskOk(t, v)
  {
    assert TaskOk(s, v);
    match s.tasks[v]
    case Writer(x, _, _) => assert SameEntry(s, t, x);
    case Closer(h) => ElsewhereLive(s, t, id, g, u, h); assert SameHalf(s, t, h);
    case Remover(x) =>
      assert SameEntry(s, t, x);
      if x in s.table {
        assert RecOk(s, x);
        assert SameHalf(s, t, CurrentHalf(s, x));
      }
  }

  lemma ElsewhereStream(s: State, t: State, id: StreamId, g: Half, u: TaskId, h: Half)
    requires Owned(s) && Frame(s, t, id, g, u) && h != g && h in t.history
    ensures StreamOk(t, h)
  {
    assert SameHalf(s, t, h);
    assert StreamOk(s, h);
    ElsewhereLive(s, t, id, g, u, h);
    if HasCloser(s, h) {
      var v :| v in s.tasks && s.tasks[v] == Closer(h);
      assert t.tasks[v] == Closer(h);
    }
  }

  lemma ElsewhereConserved(s: State, t: State, id: StreamId, g: Half, u: TaskId, h: Half)
    requires Owned(s) && Frame(s, t, id, g, u) && h != g && h in t.history && h in s.history && Conserved(s, h)
    ensures Conserved(t, h)
  {
    var x := s.history[h].id;
    assert SameHalf(s, t, h);
    ElsewhereLive(s, t, id, g, u, h);
    assert x in s.running ==> RunningOk(s, x);
    ElsewhereInFlight(s, t, id, g, u, h);
    ConservedFrame(s, t, h);
  }

  lemma ElsewhereInFlight(s: State, t: State, id: StreamId, g: Half, u: TaskId, h: Half)
    requires Owned(s) && Frame(s, t, id, g, u) && h != g && h in t.history && h in s.history
    ensures InFlight(t, h) == InFlight(s, h) && Queue(t, h) == Queue(s, h)
  {
    assert SameHalf(s, t, h);
    ElsewhereLive(s, t, id, g, u, h);
    var x := s.history[h].id;
    if Live(s, h) && x in s.running {
      assert RunningOk(s, x);
      assert SameEntry(s, t, x);
    }
  }

  /** What a step owes to the id, the write half and the task it is about. */
  ghost predicate Here(s: State, t: State, id: StreamId, g: Half, u: TaskId) {
    && (id in t.table ==> RecOk(t, id))
    && (id in t.running ==> RunningOk(t, id))
    && (forall v {:trigger TaskOk(t, v)} :: v in t.tasks && About(t.tasks[v], id, g) ==> TaskOk(t, v))
    && (g in t.history ==> StreamOk(t, g))
    && (u in t.tasks && t.tasks[u].Closer? ==> forall v :: v in s.tasks && v != u ==> s.tasks[v] != t.tasks[u])
    && ShutOk(t)
  }

  lemma StreamsByFrame(s: State, t: State, id: StreamId, g: Half, u: TaskId)
    requires Owned(s) && Frame(s, t, id, g, u) && Here(s, t, id, g, u)
    ensures forall x {:trigger RecOk(t, x)} :: x in t.table ==> RecOk(t, x)
    ensures forall x {:trigger RunningOk(t, x)} :: x in t.running ==> RunningOk(t, x)
    ensures forall h {:trigger StreamOk(t, h)} :: h in t.history ==> StreamOk(t, h)
  {
    forall x | x in t.table ensures RecOk(t, x) { if x != id { ElsewhereRec(s, t, id, g, u, x); } }
    forall x | x in t.running ensures RunningOk(t, x) { if x != id { ElsewhereRunning(s, t, id, g, u, x); } }
    forall h | h in t.history ensures StreamOk(t, h) { if h != g { ElsewhereStream(s, t, id, g, u, h); } }
  }

  lemma TasksByFrame(s: State, t: State, id: StreamId, g: Half, u: TaskId)
    requires Owned(s) && Frame(s, t, id, g, u) && Here(s, t, id, g, u)
    ensures forall v {:trigger TaskOk(t, v)} :: v in t.tasks ==> TaskOk(t, v)
    ensures OneCloser(t)
  {
    forall v | v in t.tasks ensures TaskOk(t, v) {
      if !About(t.tasks[v], id, g) { ElsewhereTask(s, t, id, g, u, v); }
    }
    forall v, w | v in t.tasks && w in t.tasks && t.tasks[v].Closer? && t.tasks[v] == t.tasks[w] ensures v == w {
    }
  }

  lemma NumbersByFrame(s: State, t: State, id: StreamId, g: Half, u: TaskId)
    requires Owned(s) && Frame(s, t, id, g, u)
    ensures Numbered(t)
  {
    forall h: Half ensures h in t.history <==> h < t.nextHalf { assert h != g ==> SameHalf(s, t, h); }
    forall x | x in t.current ensures t.history[t.current[x]].id == x {
      assert t.current[x] != g ==> SameHalf(s, t, t.current[x]);
    }
  }

  lemma OwnedByFrame(s: State, t: State, id: StreamId, g: Half, u: TaskId)
    requires Owned(s) && Frame(s, t, id, g, u) && Here(s, t, id, g, u)
    ensures Owned(t)
  {
    NumbersByFrame(s, t, id, g, u);
    StreamsByFrame(s, t, id, g, u);
    TasksByFrame(s, t, id, g, u);
  }

  lemma ConservedByFrame(s: State, t: State, id: StreamId, g: Half, u: TaskId)
    requires Inv(s) && Frame(s, t, id, g, u)
    requires g in t.history ==> Conserved(t, g)
    ensures AllConserved(t)
  {
    forall h | h in t.history ensures Conserved(t, h) {
      if h != g {
        assert SameHalf(s, t, h);
        assert Conserved(s, h);
        ElsewhereConserved(s, t, id, g, u, h);
      }
    }
  }

  /** The next task number is unused. */
  lemma NextTaskFree(s: State)
    requires Owned(s)
    ensures s.nextTask !in s.tasks
  {
    assert s.nextTask in s.tasks ==> TaskOk(s, s.nextTask);
  }
}
