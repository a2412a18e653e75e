/** Where the write halves are: each in exactly one place, told from the table, the tasks and the shut halves alone. */
module StreamsPlaces {
  import opened Basics
  import opened Streams
  import opened StreamsInvariant

  datatype Place = InRecord(id: StreamId) | WithTask(t: TaskId) | ShutDown(i: nat)

  ghost predicate At(s: State, h: Half, p: Place) {
    match p
    case InRecord(id) => id in s.table && s.table[id].write == Some(h)
    case WithTask(t) => t in s.tasks && !s.tasks[t].Remover? && s.tasks[t].half == h
    case ShutDown(i) => i < |s.shut| && s.shut[i] == h
  }

  ghost predicate OnePlace(s: State, h: Half) {
    && (exists p :: At(s, h, p))
    && (forall p, q :: At(s, h, p) && At(s, h, q) ==> p == q)
  }

  ghost predicate WriterHasRecord(s: State, t: TaskId)
    requires t in s.tasks
  {
    s.tasks[t].Writer? ==> s.tasks[t].id in s.table && s.table[s.tasks[t].id].write.None?
  }

  /** Every write half is in one place, and every writer finds a record that waits for its half. */
  ghost predicate Placed(s: State) {
    && (forall h: Half {:trigger OnePlace(s, h)} :: h < s.nextHalf ==> OnePlace(s, h))
    && (forall t {:trigger WriterHasRecord(s, t)} :: t in s.tasks ==> WriterHasRecord(s, t))
  }

  /** A writer's stream: its record exists, has no write half, and no one else acts for it. */
  lemma WriterFacts(s: State, t: TaskId)
    requires Owned(s) && t in s.tasks && s.tasks[t].Writer?
    ensures var w := s.tasks[t];
            && w.id in s.table && s.table[w.id].write.None? && w.id in s.running && s.running[w.id] == t
            && RecOk(s, w.id) && RunningOk(s, w.id)
            && w.half == CurrentHalf(s, w.id) && w.half in s.history && s.history[w.half].id == w.id
            && StreamOk(s, w.half) && Live(s, w.half) && w.half !in s.shut
            && (forall v {:trigger s.tasks[v]} ::
                  v in s.tasks && v != t && About(s.tasks[v], w.id, w.half) ==> s.tasks[v] == Remover(w.id))
  {
    var w := s.tasks[t];
    assert TaskOk(s, t);
    assert RunningOk(s, w.id) && RecOk(s, w.id);
    assert StreamOk(s, w.half);
    forall v {:trigger s.tasks[v]} | v in s.tasks && v != t && About(s.tasks[v], w.id, w.half)
      ensures s.tasks[v] == Remover(w.id)
    {
      assert TaskOk(s, v);
    }
  }

  lemma RecordPlace(s: State, h: Half, id: StreamId)
    requires Owned(s) && At(s, h, InRecord(id))
    ensures Live(s, h) && s.history[h].id == id && id !in s.running
  {
    assert RecOk(s, id);
  }

  lemma WriterPlace(s: State, h: Half, t: TaskId)
    requires Owned(s) && At(s, h, WithTask(t)) && s.tasks[t].Writer?
    ensures Live(s, h) && s.history[h].id in s.running && s.running[s.history[h].id] == t
  {
    WriterFacts(s, t);
  }

  lemma CloserPlace(s: State, h: Half, t: TaskId)
    requires Owned(s) && At(s, h, WithTask(t)) && s.tasks[t].Closer?
    ensures !Live(s, h) && h !in s.shut
  {
    assert TaskOk(s, t);
  }

  lemma SamePlace(s: State, h: Half, p: Place, q: Place)
    requires Owned(s) && At(s, h, p) && At(s, h, q)
    ensures p == q
  {
    PlaceMeans(s, h, p);
    PlaceMeans(s, h, q);
  }

  lemma PlaceMeans(s: State, h: Half, p: Place)
    requires Owned(s) && At(s, h, p)
    ensures match p
            case InRecord(id) => Live(s, h) && s.history[h].id == id && id !in s.running
            case WithTask(t) =>
              if s.tasks[t].Writer? then Live(s, h) && s.history[h].id in s.running && s.running[s.history[h].id] == t
              else !Live(s, h) && h !in s.shut && s.tasks[t] == Closer(h)
            case ShutDown(_) => !Live(s, h) && h in s.shut
  {
    match p
    case InRecord(id) => RecordPlace(s, h, id);
    case WithTask(t) => if s.tasks[t].Writer? { WriterPlace(s, h, t); } else { CloserPlace(s, h, t); }
    case ShutDown(_) =>
  }

  lemma FindPlace(s: State, h: Half) returns (p: Place)
    requires Owned(s) && h < s.nextHalf
    ensures At(s, h, p)
  {
    assert StreamOk(s, h);
    if Live(s, h) {
      var id := s.history[h].id;
      assert RecOk(s, id);
      if id in s.running {
        assert RunningOk(s, id);
        p := WithTask(s.running[id]);
      } else {
        p := InRecord(id);
      }
    } else if h in s.shut {
      var i :| 0 <= i < |s.shut| && s.shut[i] == h;
      p := ShutDown(i);
    } else {
      var t :| t in s.tasks && s.tasks[t] == Closer(h);
      p := WithTask(t);
    }
  }

  /** A write half is in exactly one place: in the record of its own stream, with one task, or shut down. */
  lemma OneOwner(s: State, h: Half)
    requires Owned(s) && h < s.nextHalf
    ensures OnePlace(s, h)
    ensures forall id :: At(s, h, InRecord(id)) ==> h in s.history && s.history[h].id == id
  {
    var p := FindPlace(s, h);
    assert At(s, h, p);
    forall q, r | At(s, h, q) && At(s, h, r) ensures q == r {
      SamePlace(s, h, q, r);
    }
    forall id | At(s, h, InRecord(id)) ensures h in s.history && s.history[h].id == id {
      RecordPlace(s, h, id);
    }
  }

  lemma OwnedIsPlaced(s: State)
    requires Owned(s)
    ensures Placed(s)
  {
    forall h: Half | h < s.nextHalf ensures OnePlace(s, h) { OneOwner(s, h); }
    forall t | t in s.tasks ensures WriterHasRecord(s, t) { if s.tasks[t].Writer? { WriterFacts(s, t); } }
  }

  /** An idle half whose record is overwritten is nowhere. */
  lemma OverwrittenIsNowhere(s: State, id: StreamId, h: Half)
    requires Owned(s) && At(s, h, InRecord(id))
    ensures h < s.nextHalf && forall p :: !At(Inserted(s, id), h, p)
  {
    var t := Inserted(s, id);
    RecordPlace(s, h, id);
    forall p ensures !At(t, h, p) {
      if At(t, h, p) {
        assert At(s, h, p);
        SamePlace(s, h, p, InRecord(id));
      }
    }
  }

  /** Inserting over a stream in the table leaves a half in no place, or a writer whose record holds another half. */
  lemma OverwriteBreaks(s: State, id: StreamId)
    requires Owned(s) && id in s.table
    ensures !Placed(Inserted(s, id))
  {
    var t := Inserted(s, id);
    assert RecOk(s, id);
    if s.table[id].write.Some? {
      var h := s.table[id].write.value;
      OverwrittenIsNowhere(s, id, h);
      assert !OnePlace(t, h);
    } else {
      assert RunningOk(s, id);
      assert !WriterHasRecord(t, s.running[id]);
    }
  }
}
