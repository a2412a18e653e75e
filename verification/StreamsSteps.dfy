/** Every step of the stream table keeps ownership and conservation. */
module StreamsSteps {
  import opened Basics
  import opened Streams
  import opened StreamsInvariant
  import opened StreamsPlaces

  // ---------- insert ----------

  lemma InsertTasks(s: State, id: StreamId)
    requires Owned(s) && id !in s.table
    ensures var t := Inserted(s, id);
            && (forall x {:trigger RecOk(t, x)} :: x in t.table ==> RecOk(t, x))
            && (forall x {:trigger RunningOk(t, x)} :: x in t.running ==> RunningOk(t, x))
            && (forall u {:trigger TaskOk(t, u)} :: u in t.tasks ==> TaskOk(t, u))
  {
    var t := Inserted(s, id);
    assert id in s.running ==> RunningOk(s, id);
    forall x | x in t.table ensures RecOk(t, x) {
      if x != id {
        assert RecOk(s, x);
        assert HasRemover(s, x) ==> HasRemover(t, x);
      }
    }
    forall x | x in t.running ensures RunningOk(t, x) { assert RunningOk(s, x) && RecOk(s, x); }
    forall u | u in t.tasks ensures TaskOk(t, u) {
      assert TaskOk(s, u);
      if s.tasks[u].Remover? && s.tasks[u].id in s.table { assert RecOk(s, s.tasks[u].id); }
    }
  }

  lemma InsertOwned(s: State, id: StreamId)
    requires Owned(s) && id !in s.table
    ensures Owned(Inserted(s, id))
  {
    var t := Inserted(s, id);
    InsertTasks(s, id);
    forall h | h in t.history ensures StreamOk(t, h) { if h != s.nextHalf { InsertStream(s, id, h); } }
    forall h | h in t.shut ensures h in t.history && !Live(t, h) { InsertLive(s, id, h); }
  }

  lemma InsertStream(s: State, id: StreamId, h: Half)
    requires Owned(s) && id !in s.table && h in s.history
    ensures StreamOk(Inserted(s, id), h)
  {
    assert StreamOk(s, h);
    InsertLive(s, id, h);
    if HasCloser(s, h) {
      assert HasCloser(Inserted(s, id), h);
    }
  }

  lemma InsertLive(s: State, id: StreamId, h: Half)
    requires Owned(s) && id !in s.table && h in s.history
    ensures Live(Inserted(s, id), h) <==> Live(s, h)
  {
    assert Live(s, h) ==> RecOk(s, s.history[h].id);
  }

  lemma InsertConserved(s: State, id: StreamId)
    requires Inv(s) && id !in s.table
    ensures AllConserved(Inserted(s, id))
  {
    var t := Inserted(s, id);
    assert id in s.running ==> RunningOk(s, id);
    forall h | h in t.history ensures Conserved(t, h) {
      if h != s.nextHalf {
        assert StreamOk(s, h) && Conserved(s, h);
        InsertLive(s, id, h);
        ConservedFrame(s, t, h);
      }
    }
  }

  /**
   Registering a stream keeps ownership and conservation exactly when no stream is in the table under its id, whether
   or not the id was used before; and exactly then every write half is still in one place.
   */
  lemma InsertExactly(s: State, id: StreamId)
    requires Inv(s)
    ensures Inv(Inserted(s, id)) <==> id !in s.table
    ensures Placed(Inserted(s, id)) <==> id !in s.table
  {
    if id in s.table {
      OverwriteBreaks(s, id);
      if Inv(Inserted(s, id)) {
        OwnedIsPlaced(Inserted(s, id));
      }
    } else {
      InsertOwned(s, id);
      InsertConserved(s, id);
      OwnedIsPlaced(Inserted(s, id));
    }
  }

  // ---------- data ----------

  lemma DataFrame(s: State, id: StreamId, segment: Segment)
    requires Owned(s) && s.nextTask !in s.tasks && id in s.table
    ensures Frame(s, Written(s, id, segment), id, CurrentHalf(s, id), s.nextTask)
  {
    assert RecOk(s, id);
    DataDifference(s, id, segment);
    FrameByDifference(s, Written(s, id, segment), id, CurrentHalf(s, id), s.nextTask);
  }

  lemma DataDifference(s: State, id: StreamId, segment: Segment)
    requires s.nextTask !in s.tasks && id in s.table
    ensures var t := Written(s, id, segment);
            && t.table - {id} == s.table - {id} && t.running - {id} == s.running - {id}
            && t.history - {CurrentHalf(s, id)} == s.history - {CurrentHalf(s, id)}
            && t.tasks - {s.nextTask} == s.tasks - {s.nextTask}
  {
    QueuedDifference(s, id, segment);
  }

  lemma QueuedDifference(s: State, id: StreamId, segment: Segment)
    requires id in s.table
    ensures var t := Queued(s, id, segment);
            && t.table - {id} == s.table - {id}
            && t.history - {CurrentHalf(s, id)} == s.history - {CurrentHalf(s, id)}
  {
  }

  lemma DataHere(s: State, id: StreamId, segment: Segment)
    requires Owned(s) && id in s.table
    ensures Here(s, Written(s, id, segment), id, CurrentHalf(s, id), s.nextTask)
  {
    var t := Written(s, id, segment);
    NextTaskFree(s);
    assert RecOk(s, id) && StreamOk(s, CurrentHalf(s, id));
    assert id in s.running ==> RunningOk(s, id);
    if HasRemover(s, id) {
      var v :| v in s.tasks && s.tasks[v] == Remover(id);
      assert t.tasks[v] == Remover(id);
    }
    forall v | v in t.tasks && About(t.tasks[v], id, CurrentHalf(s, id)) ensures TaskOk(t, v) {
      assert v in s.tasks ==> TaskOk(s, v);
    }
    forall h | h in t.shut ensures !Live(t, h) { DataLive(s, id, segment, h); }
  }

  lemma DataLive(s: State, id: StreamId, segment: Segment, h: Half)
    requires id in s.table
    ensures Live(Written(s, id, segment), h) <==> Live(s, h)
  {
    QueuedLive(s, id, segment, h);
  }

  lemma QueuedLive(s: State, id: StreamId, segment: Segment, h: Half)
    requires id in s.table
    ensures Live(Queued(s, id, segment), h) <==> Live(s, h)
  {
  }

  lemma DataConserved(s: State, id: StreamId, segment: Segment)
    requires id in s.table && RecOk(s, id) && CurrentHalf(s, id) in s.history && Conserved(s, CurrentHalf(s, id))
    requires s.nextTask !in s.tasks && (id in s.running ==> RunningOk(s, id))
    ensures Conserved(Written(s, id, segment), CurrentHalf(s, id))
  {
    var t := Written(s, id, segment);
    var h := CurrentHalf(s, id);
    var accepted, q, out := s.history[h].accepted, s.table[id].q, Flat(InFlight(s, h));
    assert InFlight(t, h) == InFlight(s, h);
    assert Queue(t, h) == q + [segment] && t.history[h].accepted == accepted + [segment];
    FlatSnoc(accepted, segment);
    FlatSnoc(q, segment);
    AppendBoth(AllOf(Fate(s, h)), out, Flat(q), segment);
  }

  lemma FlatSnoc(q: seq<Segment>, segment: Segment)
    ensures Flat(q + [segment]) == Flat(q) + segment
  {
    FlatConcat(q, [segment]);
    FlatOne(segment);
  }

  lemma AppendBoth(a: Segment, b: Segment, c: Segment, d: Segment)
    ensures a + (b + (c + d)) == a + (b + c) + d
  {
  }

  lemma DataKeeps(s: State, id: StreamId, segment: Segment)
    requires Inv(s)
    ensures Inv(Written(s, id, segment))
  {
    if id in s.table {
      var t, h := Written(s, id, segment), CurrentHalf(s, id);
      NextTaskFree(s);
      assert RecOk(s, id) && Conserved(s, h);
      assert id in s.running ==> RunningOk(s, id);
      DataFrame(s, id, segment);
      DataHere(s, id, segment);
      DataConserved(s, id, segment);
      OwnedByFrame(s, t, id, h, s.nextTask);
      ConservedByFrame(s, t, id, h, s.nextTask);
    }
  }

  // ---------- end of stream ----------

  lemma EndFrame(s: State, id: StreamId)
    requires Owned(s) && s.nextTask !in s.tasks
    ensures Frame(s, EndSeen(s, id), id, CurrentHalf(s, id), s.nextTask)
  {
    FrameByDifference(s, EndSeen(s, id), id, CurrentHalf(s, id), s.nextTask);
  }

  lemma EndLive(s: State, id: StreamId)
    ensures forall h :: Live(EndSeen(s, id), h) <==> Live(s, h)
  {
  }

  lemma EndHere(s: State, id: StreamId)
    requires Owned(s)
    ensures Here(s, EndSeen(s, id), id, CurrentHalf(s, id), s.nextTask)
  {
    var t := EndSeen(s, id);
    NextTaskFree(s);
    EndLive(s, id);
    assert t.tasks[s.nextTask] == Remover(id);
    assert id in s.table ==> RecOk(s, id);
    assert id in s.running ==> RunningOk(s, id);
    if CurrentHalf(s, id) in s.history {
      EndStream(s, id);
    }
    EndTasks(s, id);
  }

  lemma EndTasks(s: State, id: StreamId)
    requires Owned(s)
    ensures var t := EndSeen(s, id);
            forall v {:trigger TaskOk(t, v)} ::
              v in t.tasks && About(t.tasks[v], id, CurrentHalf(s, id)) ==> TaskOk(t, v)
  {
    var t := EndSeen(s, id);
    assert id in s.table ==> RecOk(s, id);
    EndLive(s, id);
    forall v | v in t.tasks && About(t.tasks[v], id, CurrentHalf(s, id)) ensures TaskOk(t, v) {
      if v == s.nextTask {
        assert t.tasks[v] == Remover(id);
      } else {
        assert TaskOk(s, v);
      }
    }
  }

  lemma EndStream(s: State, id: StreamId)
    requires Owned(s) && CurrentHalf(s, id) in s.history && s.nextTask !in s.tasks
    ensures StreamOk(EndSeen(s, id), CurrentHalf(s, id))
  {
    var h := CurrentHalf(s, id);
    assert StreamOk(s, h);
    EndLive(s, id);
    if HasCloser(s, h) {
      var v :| v in s.tasks && s.tasks[v] == Closer(h);
      assert EndSeen(s, id).tasks[v] == s.tasks[v];
    }
  }

  lemma EndKeeps(s: State, id: StreamId)
    requires Inv(s)
    ensures Inv(EndSeen(s, id))
  {
    var t, h := EndSeen(s, id), CurrentHalf(s, id);
    NextTaskFree(s);
    EndFrame(s, id);
    EndHere(s, id);
    OwnedByFrame(s, t, id, h, s.nextTask);
    if h in s.history {
      assert Conserved(s, h);
      assert id in s.running ==> RunningOk(s, id);
      EndLive(s, id);
      ConservedFrame(s, t, h);
    }
    ConservedByFrame(s, t, id, h, s.nextTask);
  }

  // ---------- the locked part of remove ----------

  lemma RemoveFrame(s: State, t: TaskId, id: StreamId)
    requires Owned(s) && t in s.tasks && s.tasks[t] == Remover(id)
    ensures Frame(s, Removed(s, t, id), id, CurrentHalf(s, id), t)
  {
    assert id in s.table ==> RecOk(s, id);
    FrameByDifference(s, Removed(s, t, id), id, CurrentHalf(s, id), t);
  }

  lemma RemoveLive(s: State, t: TaskId, id: StreamId, h: Half)
    requires Owned(s)
    ensures Live(Removed(s, t, id), h) <==> Live(s, h) && (s.history[h].id == id ==> s.table[id].write.None?)
  {
    if id !in s.table {
    } else if s.table[id].write.Some? {
    } else {
    }
  }

  lemma RemoveTasks(s: State, t: TaskId, id: StreamId)
    requires Owned(s) && t in s.tasks && s.tasks[t] == Remover(id)
    ensures var n := Removed(s, t, id);
            && (forall v {:trigger TaskOk(n, v)} ::
                  v in n.tasks && About(n.tasks[v], id, CurrentHalf(s, id)) ==> TaskOk(n, v))
            && (t in n.tasks && n.tasks[t].Closer? ==> forall v :: v in s.tasks && v != t ==> s.tasks[v] != n.tasks[t])
  {
    var n, h := Removed(s, t, id), CurrentHalf(s, id);
    assert id in s.table ==> RecOk(s, id);
    RemoveLive(s, t, id, h);
    forall v | v in s.tasks ensures v in n.tasks && About(n.tasks[v], id, h) ==> TaskOk(n, v) {
      assert TaskOk(s, v);
    }
    forall v | v in s.tasks && v != t && t in n.tasks && n.tasks[t].Closer? ensures s.tasks[v] != n.tasks[t] {
      assert TaskOk(s, v);
    }
  }

  lemma RemoveHere(s: State, t: TaskId, id: StreamId)
    requires Owned(s) && t in s.tasks && s.tasks[t] == Remover(id)
    ensures Here(s, Removed(s, t, id), id, CurrentHalf(s, id), t)
  {
    RemoveTasks(s, t, id);
    RemoveRecord(s, t, id);
    if CurrentHalf(s, id) in s.history {
      RemoveStream(s, t, id);
    }
  }

  lemma RemoveRecord(s: State, t: TaskId, id: StreamId)
    requires Owned(s) && t in s.tasks && s.tasks[t] == Remover(id)
    ensures var n := Removed(s, t, id);
            (id in n.table ==> RecOk(n, id)) && (id in n.running ==> RunningOk(n, id)) && ShutOk(n)
  {
    assert TaskOk(s, t);
    assert id in s.running ==> RunningOk(s, id);
    forall h | h in s.shut ensures !Live(Removed(s, t, id), h) { RemoveLive(s, t, id, h); }
    if id !in s.table {
    } else {
      assert RecOk(s, id);
      if s.table[id].write.Some? {
      } else {
      }
    }
  }

  lemma RemoveStream(s: State, t: TaskId, id: StreamId)
    requires Owned(s) && t in s.tasks && s.tasks[t] == Remover(id) && CurrentHalf(s, id) in s.history
    ensures StreamOk(Removed(s, t, id), CurrentHalf(s, id))
  {
    var n, h := Removed(s, t, id), CurrentHalf(s, id);
    assert TaskOk(s, t) && StreamOk(s, h);
    RemoveLive(s, t, id, h);
    assert id in s.table ==> RecOk(s, id);
    if id in s.table {
      assert s.table[id].write.Some? ==> n.tasks[t] == Closer(h);
    } else if HasCloser(s, h) {
      var v :| v in s.tasks && s.tasks[v] == Closer(h);
      assert n.tasks[v] == s.tasks[v];
    }
  }

  lemma RemoveOwned(s: State, t: TaskId, id: StreamId)
    requires Owned(s) && t in s.tasks && s.tasks[t] == Remover(id)
    ensures Frame(s, Removed(s, t, id), id, CurrentHalf(s, id), t) && Owned(Removed(s, t, id))
  {
    RemoveFrame(s, t, id);
    RemoveHere(s, t, id);
    OwnedByFrame(s, Removed(s, t, id), id, CurrentHalf(s, id), t);
  }

  lemma RemoveKeeps(s: State, t: TaskId, id: StreamId)
    requires Inv(s) && t in s.tasks && s.tasks[t] == Remover(id)
    ensures Inv(Removed(s, t, id))
  {
    RemoveOwned(s, t, id);
    if CurrentHalf(s, id) in s.history {
      assert Conserved(s, CurrentHalf(s, id));
      RemoveConserved(s, t, id);
    }
    ConservedByFrame(s, Removed(s, t, id), id, CurrentHalf(s, id), t);
  }

  lemma RemoveConserved(s: State, t: TaskId, id: StreamId)
    requires Owned(s) && t in s.tasks && s.tasks[t] == Remover(id)
    requires CurrentHalf(s, id) in s.history && Conserved(s, CurrentHalf(s, id))
    ensures Conserved(Removed(s, t, id), CurrentHalf(s, id))
  {
    var h := CurrentHalf(s, id);
    assert (id in s.table ==> RecOk(s, id)) && (id in s.running ==> RunningOk(s, id));
    RemoveLive(s, t, id, h);
    ConservedFrame(s, Removed(s, t, id), h);
  }

  // ---------- the locked part of the write loop ----------

  lemma LockFrame(s: State, t: TaskId)
    requires Owned(s) && t in s.tasks && s.tasks[t].Writer?
    ensures Frame(s, LockTurn(s, t, s.tasks[t].id, s.tasks[t].half), s.tasks[t].id, s.tasks[t].half, t)
  {
    WriterFacts(s, t);
    FrameByDifference(s, LockTurn(s, t, s.tasks[t].id, s.tasks[t].half), s.tasks[t].id, s.tasks[t].half, t);
  }

  lemma LockTasks(s: State, t: TaskId)
    requires Owned(s) && t in s.tasks && s.tasks[t].Writer?
    ensures var id, half := s.tasks[t].id, s.tasks[t].half;
            var n := LockTurn(s, t, id, half);
            && (forall v {:trigger TaskOk(n, v)} :: v in n.tasks && About(n.tasks[v], id, half) ==> TaskOk(n, v))
            && (t in n.tasks && n.tasks[t].Closer? ==> forall v :: v in s.tasks && v != t ==> s.tasks[v] != n.tasks[t])
  {
    var id, half := s.tasks[t].id, s.tasks[t].half;
    var n := LockTurn(s, t, id, half);
    WriterFacts(s, t);
    forall v | v in n.tasks && About(n.tasks[v], id, half) ensures TaskOk(n, v) {
      assert TaskOk(s, v);
    }
  }

  lemma LockHere(s: State, t: TaskId)
    requires Owned(s) && t in s.tasks && s.tasks[t].Writer?
    ensures Here(s, LockTurn(s, t, s.tasks[t].id, s.tasks[t].half), s.tasks[t].id, s.tasks[t].half, t)
  {
    var id, half := s.tasks[t].id, s.tasks[t].half;
    var n := LockTurn(s, t, id, half);
    WriterFacts(s, t);
    LockTasks(s, t);
    if HasRemover(s, id) {
      var v :| v in s.tasks && s.tasks[v] == Remover(id);
      assert n.tasks[v] == Remover(id);
    }
    if id !in n.table {
      assert n.tasks[t] == Closer(half);
    }
  }

  lemma LockConserved(s: State, t: TaskId)
    requires Owned(s) && t in s.tasks && s.tasks[t].Writer? && s.tasks[t].batch == []
    requires s.tasks[t].half in s.history && Conserved(s, s.tasks[t].half)
    ensures Conserved(LockTurn(s, t, s.tasks[t].id, s.tasks[t].half), s.tasks[t].half)
  {
    var id, half := s.tasks[t].id, s.tasks[t].half;
    var n := LockTurn(s, t, id, half);
    WriterFacts(s, t);
    var q := s.table[id].q;
    assert [] + Flat(q) == Flat(q) == Flat(q) + [];
    assert Flat(InFlight(n, half)) + Flat(Queue(n, half)) == Flat(InFlight(s, half)) + Flat(Queue(s, half));
  }

  lemma LockKeeps(s: State, t: TaskId)
    requires Inv(s) && t in s.tasks && s.tasks[t].Writer? && s.tasks[t].batch == []
    ensures Inv(LockTurn(s, t, s.tasks[t].id, s.tasks[t].half))
  {
    var id, half := s.tasks[t].id, s.tasks[t].half;
    var n := LockTurn(s, t, id, half);
    WriterFacts(s, t);
    assert Conserved(s, half);
    LockFrame(s, t);
    LockHere(s, t);
    LockConserved(s, t);
    OwnedByFrame(s, n, id, half, t);
    ConservedByFrame(s, n, id, half, t);
  }

  // ---------- writes ----------

  lemma Prepend(a: Segment, b: Segment, c: Segment)
    ensures a + (b + c) == a + b + c
  {
  }

  lemma {:induction false} AllConcat(a: seq<Piece>, b: seq<Piece>)
    ensures AllOf(a + b) == AllOf(a) + AllOf(b)
    decreases |a|
  {
    if a == [] {
      assert a + b == b;
    } else {
      AllConcat(a[1..], b);
      assert (a + b)[1..] == a[1..] + b;
      Prepend(a[0].bytes, AllOf(a[1..]), AllOf(b));
    }
  }

  lemma {:induction false} SentConcat(a: seq<Piece>, b: seq<Piece>)
    ensures SentOf(a + b) == SentOf(a) + SentOf(b)
    decreases |a|
  {
    if a == [] {
      assert a + b == b;
    } else {
      SentConcat(a[1..], b);
      assert (a + b)[1..] == a[1..] + b;
      Prepend(if a[0].Sent? then a[0].bytes else [], SentOf(a[1..]), SentOf(b));
    }
  }

  lemma PiecesConcat(a: seq<Piece>, b: seq<Piece>)
    ensures AllOf(a + b) == AllOf(a) + AllOf(b) && SentOf(a + b) == SentOf(a) + SentOf(b)
  {
    AllConcat(a, b);
    SentConcat(a, b);
  }

  lemma OnePiece(p: Piece)
    ensures AllOf([p]) == p.bytes && SentOf([p]) == if p.Sent? then p.bytes else []
  {
    assert [p][1..] == [];
  }

  lemma TwoPieces(p: Piece, q: Piece)
    requires p.Sent? && q.Dropped?
    ensures AllOf([p, q]) == p.bytes + q.bytes && SentOf([p, q]) == p.bytes
  {
    OnePiece(p);
    OnePiece(q);
    PiecesConcat([p], [q]);
    assert [p] + [q] == [p, q];
  }

  /** The writer t moves on to another batch: bytes go to the wire, and the pieces tell what became of the batch. */
  function Moved(s: State, t: TaskId, bytes: Segment, pieces: seq<Piece>, batch: seq<Segment>): State
    requires t in s.tasks && s.tasks[t].Writer?
  {
    Become(s.(wire := Append(s.wire, s.tasks[t].half, bytes), fate := Append(s.fate, s.tasks[t].half, pieces)),
           t, s.tasks[t].(batch := batch))
  }

  lemma MoveOwned(s: State, t: TaskId, bytes: Segment, pieces: seq<Piece>, batch: seq<Segment>)
    requires Owned(s) && t in s.tasks && s.tasks[t].Writer?
    ensures Frame(s, Moved(s, t, bytes, pieces, batch), s.tasks[t].id, s.tasks[t].half, t)
    ensures Owned(Moved(s, t, bytes, pieces, batch))
  {
    var id, half := s.tasks[t].id, s.tasks[t].half;
    var n := Moved(s, t, bytes, pieces, batch);
    WriterFacts(s, t);
    if HasRemover(s, id) {
      var v :| v in s.tasks && s.tasks[v] == Remover(id);
      assert n.tasks[v] == Remover(id);
    }
    forall v | v in n.tasks && About(n.tasks[v], id, half) ensures TaskOk(n, v) {
      assert TaskOk(s, v);
    }
    FrameByDifference(s, n, id, half, t);
    OwnedByFrame(s, n, id, half, t);
  }

  lemma MoveKeeps(s: State, t: TaskId, bytes: Segment, pieces: seq<Piece>, batch: seq<Segment>)
    requires Inv(s) && t in s.tasks && s.tasks[t].Writer?
    requires Flat(s.tasks[t].batch) == AllOf(pieces) + Flat(batch) && SentOf(pieces) == bytes
    ensures Inv(Moved(s, t, bytes, pieces, batch))
  {
    var n := Moved(s, t, bytes, pieces, batch);
    WriterFacts(s, t);
    assert Conserved(s, s.tasks[t].half);
    MoveConserved(s, t, bytes, pieces, batch);
    MoveOwned(s, t, bytes, pieces, batch);
    ConservedByFrame(s, n, s.tasks[t].id, s.tasks[t].half, t);
  }

  lemma Regroup(a: Segment, b: Segment, c: Segment, d: Segment)
    ensures a + ((b + c) + d) == (a + b) + (c + d)
  {
  }

  lemma MoveConserved(s: State, t: TaskId, bytes: Segment, pieces: seq<Piece>, batch: seq<Segment>)
    requires t in s.tasks && s.tasks[t].Writer? && s.tasks[t].id in s.running && s.running[s.tasks[t].id] == t
    requires Live(s, s.tasks[t].half) && s.history[s.tasks[t].half].id == s.tasks[t].id && Conserved(s, s.tasks[t].half)
    requires Flat(s.tasks[t].batch) == AllOf(pieces) + Flat(batch) && SentOf(pieces) == bytes
    ensures Conserved(Moved(s, t, bytes, pieces, batch), s.tasks[t].half)
  {
    var half := s.tasks[t].half;
    var n := Moved(s, t, bytes, pieces, batch);
    assert InFlight(s, half) == s.tasks[t].batch && InFlight(n, half) == batch && Queue(n, half) == Queue(s, half);
    PiecesConcat(Fate(s, half), pieces);
    Regroup(AllOf(Fate(s, half)), AllOf(pieces), Flat(batch), Flat(Queue(s, half)));
    assert Fate(n, half) == Fate(s, half) + pieces && Wire(n, half) == Wire(s, half) + bytes;
  }

  lemma WriteKeeps(s: State, t: TaskId)
    requires Inv(s) && t in s.tasks && s.tasks[t].Writer? && s.tasks[t].batch != []
    ensures Inv(WriteTurn(s, t, s.tasks[t]))
  {
    var w := s.tasks[t];
    OnePiece(Sent(w.batch[0]));
    MoveKeeps(s, t, w.batch[0], [Sent(w.batch[0])], w.batch[1..]);
  }

  lemma FailKeeps(s: State, t: TaskId, n: nat)
    requires Inv(s) && CanFail(s, t, n)
    ensures Inv(FailTurn(s, t, s.tasks[t], n))
  {
    var w := s.tasks[t];
    var rest := Flat(w.batch[1..]);
    var sent, dropped := w.batch[0][..n], w.batch[0][n..] + rest;
    TwoPieces(Sent(sent), Dropped(dropped));
    assert w.batch[0] + rest == sent + dropped + [];
    MoveKeeps(s, t, sent, [Sent(sent), Dropped(dropped)], []);
  }

  // ---------- shutdown ----------

  lemma ShutKeeps(s: State, t: TaskId)
    requires Inv(s) && t in s.tasks && s.tasks[t].Closer?
    ensures Inv(Shut(s, t, s.tasks[t].half))
  {
    var half := s.tasks[t].half;
    var n := Shut(s, t, half);
    assert TaskOk(s, t) && Conserved(s, half);
    var id := s.history[half].id;
    FrameByDifference(s, n, id, half, t);
    ShutHere(s, t, id);
    OwnedByFrame(s, n, id, half, t);
    ConservedFrame(s, n, half);
    ConservedByFrame(s, n, id, half, t);
  }

  lemma ShutHere(s: State, t: TaskId, id: StreamId)
    requires Owned(s) && t in s.tasks && s.tasks[t].Closer?
    requires s.tasks[t].half in s.history && s.history[s.tasks[t].half].id == id
    ensures Here(s, Shut(s, t, s.tasks[t].half), id, s.tasks[t].half, t)
  {
    var half := s.tasks[t].half;
    var n := Shut(s, t, half);
    assert TaskOk(s, t) && StreamOk(s, half);
    ShutRecord(s, t, id);
    forall v | v in n.tasks && About(n.tasks[v], id, half) ensures TaskOk(n, v) {
      assert TaskOk(s, v);
    }
  }

  lemma ShutRecord(s: State, t: TaskId, id: StreamId)
    requires Owned(s) && t in s.tasks && s.tasks[t].Closer?
    ensures var n := Shut(s, t, s.tasks[t].half);
            (id in n.table ==> RecOk(n, id)) && (id in n.running ==> RunningOk(n, id))
  {
    var n := Shut(s, t, s.tasks[t].half);
    assert id in s.table ==> RecOk(s, id);
    assert id in s.running ==> RunningOk(s, id);
    if HasRemover(s, id) {
      var v :| v in s.tasks && s.tasks[v] == Remover(id);
      assert n.tasks[v] == Remover(id);
    }
  }

  // ---------- all steps ----------

  lemma TurnKeeps(s: State, t: TaskId)
    requires Inv(s) && t in s.tasks
    ensures Inv(RunTask(s, t))
  {
    match s.tasks[t]
    case Remover(id) => RemoveKeeps(s, t, id);
    case Closer(half) => ShutKeeps(s, t);
    case Writer(id, half, batch) => if batch == [] { LockKeeps(s, t); } else { WriteKeeps(s, t); }
  }

  /** A step keeps ownership and conservation, and every write half in one place, exactly if it overwrites no stream. */
  lemma StepKeeps(s: State, e: Event)
    requires Inv(s) && Enabled(s, e)
    ensures Inv(Step(s, e)) <==> !Overwrites(s, e)
    ensures Placed(Step(s, e)) <==> !Overwrites(s, e)
  {
    match e
    case Insert(id) => InsertExactly(s, id);
    case Data(id, segment) => DataKeeps(s, id, segment); OwnedIsPlaced(Step(s, e));
    case Ended(id) => EndKeeps(s, id); OwnedIsPlaced(Step(s, e));
    case WriteFails(t, n) => FailKeeps(s, t, n); OwnedIsPlaced(Step(s, e));
    case Run(t) => TurnKeeps(s, t); OwnedIsPlaced(Step(s, e));
  }
}
