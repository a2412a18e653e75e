/** What the stream table promises over every interleaving. */
module StreamsTheorems {
  import opened Basics
  import opened Sums
  import opened Streams
  import opened StreamsInvariant
  import opened StreamsPlaces
  import opened StreamsSteps

  /** In every state of the run, every write half is in one place. */
  ghost predicate PlacedThroughout(s: State, events: seq<Event>)
    requires IsRun(s, events)
    decreases |events|
  {
    Placed(s) && (events != [] ==> PlacedThroughout(Step(s, events[0]), events[1..]))
  }

  lemma {:induction false} RunKeepsFrom(s: State, events: seq<Event>)
    requires Inv(s) && IsRun(s, events)
    ensures NeverOverwrites(s, events) ==> Inv(After(s, events))
    ensures PlacedThroughout(s, events) <==> NeverOverwrites(s, events)
    decreases |events|
  {
    OwnedIsPlaced(s);
    if events != [] {
      StepKeeps(s, events[0]);
      if !Overwrites(s, events[0]) {
        RunKeepsFrom(Step(s, events[0]), events[1..]);
      }
    }
  }

  /**
   Over every run: as long as no stream is inserted over one in the table, every state is well owned and conserves
   bytes, ids that come round again included; and only such runs keep every write half in one place throughout.
   */
  lemma RunKeeps(events: seq<Event>)
    requires IsRun(START, events)
    ensures NeverOverwrites(START, events) ==> Inv(After(START, events))
    ensures PlacedThroughout(START, events) <==> NeverOverwrites(START, events)
  {
    StartInv();
    RunKeepsFrom(START, events);
  }

  // ---------- ids ----------

  function InsertedIds(events: seq<Event>): seq<StreamId> {
    if events == [] then []
    else (if events[0].Insert? then [events[0].id] else []) + InsertedIds(events[1..])
  }

  lemma StepKeepsCurrent(s: State, e: Event)
    requires Enabled(s, e)
    ensures Step(s, e).current == if e.Insert? then s.current[e.id := s.nextHalf] else s.current
  {
    match e
    case Insert(_) =>
    case Data(_, _) =>
    case Ended(_) =>
    case WriteFails(_, _) =>
    case Run(t) => TurnKeepsHistory(s, t);
  }

  lemma {:induction false} NewIdsFrom(s: State, events: seq<Event>)
    requires Inv(s) && IsRun(s, events) && Distinct(InsertedIds(events))
    requires forall id :: id in InsertedIds(events) ==> id !in s.current
    ensures NeverOverwrites(s, events)
    decreases |events|
  {
    if events != [] {
      var e, rest := events[0], InsertedIds(events[1..]);
      TableIsCurrent(s);
      assert e.Insert? ==> InsertedIds(events)[0] == e.id;
      assert InsertedIds(events)[|InsertedIds(events)| - |rest|..] == rest;
      StepKeeps(s, e);
      StepKeepsCurrent(s, e);
      NewIdsFrom(Step(s, e), events[1..]);
    }
  }

  lemma TableIsCurrent(s: State)
    requires Owned(s)
    ensures s.table.Keys <= s.current.Keys
  {
    forall id | id in s.table ensures id in s.current { assert RecOk(s, id); }
  }

  const ID_LIMIT: nat := 0x1_0000_0000

  /** The id given out by the n-th call of the wrapping counter. */
  function MessageId(n: nat): nat {
    n % ID_LIMIT
  }

  /** Ids repeat exactly at multiples of the counter's range, so fewer than 2^32 calls give distinct ids. */
  lemma MessageIdsRepeatExactly(m: nat, n: nat)
    requires m <= n
    ensures MessageId(m) == MessageId(n) <==> (n - m) % 0x1_0000_0000 == 0
    ensures m < n < m + 0x1_0000_0000 ==> MessageId(m) != MessageId(n)
  {
  }

  /** Streams whose ids come from different calls of the counter, all within its range, never overwrite each other. */
  lemma CountedIdsNeverOverwrite(events: seq<Event>, draws: seq<nat>, first: nat)
    requires IsRun(START, events) && Distinct(draws)
    requires InsertedIds(events) == seq(|draws|, i requires 0 <= i < |draws| => MessageId(draws[i]))
    requires forall i :: 0 <= i < |draws| ==> first <= draws[i] < first + ID_LIMIT
    ensures NeverOverwrites(START, events)
  {
    var ids := InsertedIds(events);
    forall i, j | 0 <= i < j < |ids| ensures ids[i] != ids[j] {
      assert draws[i] != draws[j];
      if draws[i] < draws[j] {
        MessageIdsRepeatExactly(draws[i], draws[j]);
      } else {
        MessageIdsRepeatExactly(draws[j], draws[i]);
      }
    }
    StartInv();
    NewIdsFrom(START, events);
  }

  // ---------- a run in which a write half is lost ----------

  /**
   A stream inserted over one whose writer is under way: the old writer puts its own half back over the new one, which
   is then in no place.
   */
  lemma OverwriteRun() returns (events: seq<Event>)
    ensures IsRun(START, events)
    ensures var s := After(START, events);
            && s.tasks == map[] && s.shut == [] && s.nextHalf == 2
            && At(s, 0, InRecord(0)) && forall p :: !At(s, 1, p)
  {
    var s1 := Inserted(START, 0);
    var s2 := Written(s1, 0, []);
    assert s2.tasks == map[0 := Writer(0, 0, [])];
    var s3 := Inserted(s2, 0);
    var s4 := LockTurn(s3, 0, 0, 0);
    assert s4.table == map[0 := StreamRec(Some(0), [], false)] && s4.tasks == map[];
    RunCons(s3, Run(0), []);
    RunCons(s2, Insert(0), [Run(0)]);
    RunCons(s1, Data(0, []), [Insert(0), Run(0)]);
    RunCons(START, Insert(0), [Data(0, []), Insert(0), Run(0)]);
    events := [Insert(0)] + ([Data(0, [])] + ([Insert(0)] + [Run(0)]));
  }

  // ---------- records and writers ----------

  ghost predicate WithWriter(s: State, half: Half) {
    exists t :: t in s.tasks && s.tasks[t].Writer? && s.tasks[t].half == half
  }

  /** A stored write half has an empty queue, an ended record has a running writer, and a writer finds its record. */
  lemma RecordsAndWriters(s: State, t: TaskId, id: StreamId)
    requires Inv(s)
    ensures t in s.tasks && s.tasks[t].Writer? ==> s.tasks[t].id in s.table
    ensures id in s.table && s.table[id].write.Some? ==> s.table[id].q == []
    ensures id in s.table && s.table[id].ended ==> WithWriter(s, CurrentHalf(s, id))
  {
    if t in s.tasks && s.tasks[t].Writer? {
      WriterFacts(s, t);
    }
    if id in s.table {
      assert RecOk(s, id);
      if s.table[id].ended {
        assert RunningOk(s, id);
      }
    }
  }

  /** No write half is shut down twice. */
  lemma ShutOnce(s: State, i: nat, j: nat)
    requires Inv(s) && i < j < |s.shut|
    ensures s.shut[i] != s.shut[j]
  {
    assert ShutOk(s);
  }

  // ---------- delivery ----------

  /**
   The bytes accepted are, in order, those written and those lost, the batch and the queue; the wire is those
   written.
   */
  lemma DeliveryInOrder(s: State, h: Half)
    requires Inv(s) && h in s.history
    ensures Flat(s.history[h].accepted) == AllOf(Fate(s, h)) + (Flat(InFlight(s, h)) + Flat(Queue(s, h)))
    ensures Wire(s, h) == SentOf(Fate(s, h))
  {
    assert Conserved(s, h);
  }

  lemma {:induction false} PieceLengths(pieces: seq<Piece>)
    ensures |AllOf(pieces)| == |SentOf(pieces)| + |LostOf(pieces)|
    ensures LostOf(pieces) == [] ==> AllOf(pieces) == SentOf(pieces)
    decreases |pieces|
  {
    if pieces != [] {
      PieceLengths(pieces[1..]);
    }
  }

  /** Written, in-flight and queued bytes are the accepted ones in order exactly when no byte of the stream is lost. */
  lemma DeliveryExactly(s: State, h: Half)
    requires Inv(s) && h in s.history
    ensures Lost(s, h) == [] <==>
              Flat(s.history[h].accepted) == Wire(s, h) + (Flat(InFlight(s, h)) + Flat(Queue(s, h)))
  {
    assert Conserved(s, h);
    PieceLengths(Fate(s, h));
  }

  /** No byte was written after one was lost. */
  predicate NoneAfterLoss(pieces: seq<Piece>) {
    pieces == []
    || (if pieces[0].Dropped? && pieces[0].bytes != [] then SentOf(pieces[1..]) == [] else NoneAfterLoss(pieces[1..]))
  }

  /** The positions, among all bytes of the pieces counted on from `from`, of the bytes written. */
  function SentAt(pieces: seq<Piece>, from: nat): seq<nat> {
    if pieces == [] then []
    else
      var n := |pieces[0].bytes|;
      (if pieces[0].Sent? then Places(from, n) else []) + SentAt(pieces[1..], from + n)
  }

  function Places(from: nat, n: nat): seq<nat> {
    seq(n, i => from + i)
  }

  /** The positions written rise, and the bytes at them are the bytes written. */
  lemma {:induction false} SentAtMeans(pieces: seq<Piece>, from: nat)
    ensures var at := SentAt(pieces, from);
            && |at| == |SentOf(pieces)|
            && (forall i :: 0 <= i < |at| ==> from <= at[i] < from + |AllOf(pieces)|)
            && (forall i :: 0 <= i < |at| ==> AllOf(pieces)[at[i] - from] == SentOf(pieces)[i])
            && (forall i, j :: 0 <= i < j < |at| ==> at[i] < at[j])
    decreases |pieces|
  {
    if pieces != [] {
      SentAtMeans(pieces[1..], from + |pieces[0].bytes|);
    }
  }

  lemma {:induction false} SentAtCounts(pieces: seq<Piece>, from: nat)
    ensures |SentAt(pieces, from)| == |SentOf(pieces)|
    ensures forall i :: 0 <= i < |SentAt(pieces, from)| ==> from <= SentAt(pieces, from)[i]
  {
    SentAtMeans(pieces, from);
  }

  /** Without gaps, from `from` on. */
  ghost predicate Consecutive(at: seq<nat>, from: nat) {
    forall i :: 0 <= i < |at| ==> at[i] == from + i
  }

  /** The positions written are the first ones exactly when no byte was written after one was lost. */
  lemma {:induction false} FirstPlacesExactly(pieces: seq<Piece>, from: nat)
    ensures Consecutive(SentAt(pieces, from), from) <==> NoneAfterLoss(pieces)
    decreases |pieces|
  {
    if pieces != [] {
      var n, tail := |pieces[0].bytes|, pieces[1..];
      SentAtCounts(tail, from + n);
      FirstPlacesExactly(tail, from + n);
      if pieces[0].Sent? {
        AfterSent(from, n, SentAt(tail, from + n));
      } else {
        assert SentAt(pieces, from) == SentAt(tail, from + n);
        AfterLoss(from, n, SentAt(tail, from + n));
      }
    }
  }

  lemma AfterSent(from: nat, n: nat, at: seq<nat>)
    ensures Consecutive(Places(from, n) + at, from) <==> Consecutive(at, from + n)
  {
    var all := Places(from, n) + at;
    assert forall i :: 0 <= i < |at| ==> all[n + i] == at[i];
  }

  lemma AfterLoss(from: nat, n: nat, at: seq<nat>)
    requires forall i :: 0 <= i < |at| ==> from + n <= at[i]
    ensures n > 0 ==> (Consecutive(at, from) <==> at == [])
  {
    assert at != [] ==> from + n <= at[0];
  }

  /** The delivered bytes are, in rising order, the accepted bytes at the positions that writes came to. */
  lemma DeliveredIsSubsequence(s: State, h: Half)
    requires Inv(s) && h in s.history
    ensures var at, accepted := SentAt(Fate(s, h), 0), Flat(s.history[h].accepted);
            && |at| == |Wire(s, h)|
            && (forall i :: 0 <= i < |at| ==> at[i] < |accepted| && accepted[at[i]] == Wire(s, h)[i])
            && (forall i, j :: 0 <= i < j < |at| ==> at[i] < at[j])
  {
    assert Conserved(s, h);
    SentAtMeans(Fate(s, h), 0);
  }

  lemma FirstPlacesMean(at: seq<nat>, bytes: Segment, all: Segment)
    requires |at| == |bytes| && forall i :: 0 <= i < |at| ==> at[i] < |all| && all[at[i]] == bytes[i]
    ensures Consecutive(at, 0) ==> bytes <= all
    ensures Distinct(all) && bytes <= all ==> Consecutive(at, 0)
  {
    if Consecutive(at, 0) {
      assert at != [] ==> at[|at| - 1] < |all|;
      assert bytes == all[..|at|];
    }
    if Distinct(all) && bytes <= all {
      forall i | 0 <= i < |at| ensures at[i] == i {
        assert all[at[i]] == bytes[i] == all[i];
      }
    }
  }

  /**
   For every stream: the bytes delivered are the first of those accepted, each from its own position, exactly when no
   write follows a loss. Where all bytes differ, so that each tells its position, comparing the bytes says the same.
   */
  lemma PrefixOfAcceptedExactly(s: State, h: Half)
    requires Inv(s) && h in s.history
    ensures Consecutive(SentAt(Fate(s, h), 0), 0) <==> NoneAfterLoss(Fate(s, h))
    ensures Distinct(Flat(s.history[h].accepted)) ==>
              (Wire(s, h) <= Flat(s.history[h].accepted) <==> NoneAfterLoss(Fate(s, h)))
  {
    assert Conserved(s, h);
    FirstPlacesExactly(Fate(s, h), 0);
    DeliveredIsSubsequence(s, h);
    FirstPlacesMean(SentAt(Fate(s, h), 0), Wire(s, h), Flat(s.history[h].accepted));
  }

  /** As long as no write follows a loss, the bytes delivered are a prefix of the bytes accepted. */
  lemma DeliveredIsPrefix(s: State, h: Half)
    requires Inv(s) && h in s.history && NoneAfterLoss(Fate(s, h))
    ensures Wire(s, h) <= Flat(s.history[h].accepted)
  {
    PrefixOfAcceptedExactly(s, h);
    DeliveredIsSubsequence(s, h);
    FirstPlacesMean(SentAt(Fate(s, h), 0), Wire(s, h), Flat(s.history[h].accepted));
  }

  /** A failed write loses the rest of its segment and of its batch; nothing, if that is empty. */
  lemma FailureLoses(s: State, t: TaskId, n: nat)
    requires CanFail(s, t, n)
    ensures var w := s.tasks[t];
            Lost(FailTurn(s, t, w, n), w.half) == Lost(s, w.half) + (w.batch[0][n..] + Flat(w.batch[1..]))
  {
    var w := s.tasks[t];
    var sent, dropped := Sent(w.batch[0][..n]), Dropped(w.batch[0][n..] + Flat(w.batch[1..]));
    LostConcat(Fate(s, w.half), [sent, dropped]);
    assert [sent, dropped][1..] == [dropped] && [dropped][1..] == [];
    assert LostOf([dropped]) == dropped.bytes;
    assert Fate(FailTurn(s, t, w, n), w.half) == Fate(s, w.half) + [sent, dropped];
  }

  lemma {:induction false} LostConcat(a: seq<Piece>, b: seq<Piece>)
    ensures LostOf(a + b) == LostOf(a) + LostOf(b)
    decreases |a|
  {
    if a == [] {
      assert a + b == b;
    } else {
      LostConcat(a[1..], b);
      assert (a + b)[1..] == a[1..] + b && (a + b)[0] == a[0];
      Prepend(if a[0].Sent? then [] else a[0].bytes, LostOf(a[1..]), LostOf(b));
    }
  }

  // ---------- a run in which the peer sees a gap ----------

  /** A writer is under way for stream 0: what is on the wire, in the batch and in the queue. */
  ghost predicate Writing(s: State, wire: Segment, batch: seq<Segment>, q: seq<Segment>, accepted: seq<Segment>) {
    && 0 in s.table && s.table[0] == StreamRec(None, q, false)
    && 0 in s.tasks && s.tasks[0] == Writer(0, 0, batch)
    && 0 in s.wire && s.wire[0] == wire
    && 0 in s.current && s.current[0] == 0 && 0 in s.history && s.history[0].accepted == accepted
  }

  lemma GapBegins()
    ensures Writing(Written(Inserted(START, 0), 0, [1, 2]), [], [], [[1, 2]], [[1, 2]])
  {
    var s := Inserted(START, 0);
    assert s.table[0] == StreamRec(Some(0), [], false) && s.nextTask == 0;
    assert [] + [[1, 2]] == [[1, 2]];
  }

  lemma TakeBatch(s: State, wire: Segment, q: seq<Segment>, accepted: seq<Segment>)
    requires Writing(s, wire, [], q, accepted) && q != []
    ensures Writing(RunTask(s, 0), wire, q, [], accepted)
  {
  }

  lemma WriteOne(s: State, wire: Segment, segment: Segment, q: seq<Segment>, accepted: seq<Segment>)
    requires Writing(s, wire, [segment], q, accepted)
    ensures Writing(RunTask(s, 0), wire + segment, [], q, accepted)
  {
    assert [segment][1..] == [];
  }

  lemma FailOne(s: State, wire: Segment, segment: Segment, n: nat, q: seq<Segment>, accepted: seq<Segment>)
    requires Writing(s, wire, [segment], q, accepted) && n <= |segment|
    ensures CanFail(s, 0, n) && Writing(FailTurn(s, 0, s.tasks[0], n), wire + segment[..n], [], q, accepted)
  {
  }

  lemma Accepts(s: State, wire: Segment, batch: seq<Segment>, q: seq<Segment>, accepted: seq<Segment>, segment: Segment)
    requires Writing(s, wire, batch, q, accepted)
    ensures Writing(Written(s, 0, segment), wire, batch, q + [segment], accepted + [segment])
  {
  }

  /**
   A write that fails after the first of two bytes, then more data, which is written: the peer receives the first and
   the third byte, and these are no prefix of what was accepted.
   */
  lemma GapRun() returns (events: seq<Event>)
    ensures IsRun(START, events)
    ensures var s := After(START, events);
            && 0 in s.history && s.history[0].accepted == [[1, 2], [3]]
            && Wire(s, 0) == [1, 3] && !(Wire(s, 0) <= Flat(s.history[0].accepted))
  {
    var s1 := Inserted(START, 0);
    var s2 := Written(s1, 0, [1, 2]);
    var s3, s4 := GapFails(s2);
    var s5 := Written(s4, 0, [3]);
    var s6, s7 := GapGoesOn(s4);
    GapIsNoPrefix();
    events := GapEvents(s1, s2, s3, s4, s5, s6, s7);
  }

  lemma GapFails(s2: State) returns (s3: State, s4: State)
    requires s2 == Written(Inserted(START, 0), 0, [1, 2])
    ensures 0 in s2.tasks && s3 == RunTask(s2, 0) && CanFail(s3, 0, 1) && s4 == FailTurn(s3, 0, s3.tasks[0], 1)
    ensures Writing(s4, [1], [], [], [[1, 2]])
  {
    GapBegins();
    TakeBatch(s2, [], [[1, 2]], [[1, 2]]);
    s3 := RunTask(s2, 0);
    FailOne(s3, [], [1, 2], 1, [], [[1, 2]]);
    s4 := FailTurn(s3, 0, s3.tasks[0], 1);
    assert [] + [1, 2][..1] == [1];
  }

  lemma GapGoesOn(s4: State) returns (s6: State, s7: State)
    requires Writing(s4, [1], [], [], [[1, 2]])
    ensures var s5 := Written(s4, 0, [3]);
            0 in s5.tasks && s6 == RunTask(s5, 0) && 0 in s6.tasks && s7 == RunTask(s6, 0)
    ensures Writing(s7, [1, 3], [], [], [[1, 2], [3]])
  {
    Accepts(s4, [1], [], [], [[1, 2]], [3]);
    var s5 := Written(s4, 0, [3]);
    assert [] + [[3]] == [[3]] && [[1, 2]] + [[3]] == [[1, 2], [3]];
    TakeBatch(s5, [1], [[3]], [[1, 2], [3]]);
    s6 := RunTask(s5, 0);
    WriteOne(s6, [1], [3], [], [[1, 2], [3]]);
    s7 := RunTask(s6, 0);
    assert [1] + [3] == [1, 3];
  }

  lemma GapIsNoPrefix()
    ensures Flat([[1, 2], [3]]) == [1, 2, 3] && !([1, 3] <= [1, 2, 3])
  {
    assert [[1, 2], [3]][1..] == [[3]] && [[3]][1..] == [];
    assert [1, 3][1] != [1, 2, 3][1];
  }

  lemma GapEvents(s1: State, s2: State, s3: State, s4: State, s5: State, s6: State, s7: State)
    returns (events: seq<Event>)
    requires s1 == Inserted(START, 0) && s2 == Written(s1, 0, [1, 2]) && 0 in s2.tasks && s3 == RunTask(s2, 0)
    requires CanFail(s3, 0, 1) && s4 == FailTurn(s3, 0, s3.tasks[0], 1) && s5 == Written(s4, 0, [3])
    requires 0 in s5.tasks && s6 == RunTask(s5, 0) && 0 in s6.tasks && s7 == RunTask(s6, 0)
    ensures IsRun(START, events) && After(START, events) == s7
  {
    events := [];
    RunCons(s6, Run(0), events);
    events := [Run(0)] + events;
    RunCons(s5, Run(0), events);
    events := [Run(0)] + events;
    RunCons(s4, Data(0, [3]), events);
    events := [Data(0, [3])] + events;
    RunCons(s3, WriteFails(0, 1), events);
    events := [WriteFails(0, 1)] + events;
    RunCons(s2, Run(0), events);
    events := [Run(0)] + events;
    RunCons(s1, Data(0, [1, 2]), events);
    events := [Data(0, [1, 2])] + events;
    RunCons(START, Insert(0), events);
    events := [Insert(0)] + events;
  }

  lemma {:induction false} FlatPrefix(a: seq<Segment>, b: seq<Segment>)
    requires a <= b
    ensures Flat(a) <= Flat(b)
  {
    assert b == a + b[|a|..];
    FlatConcat(a, b[|a|..]);
  }

  /** A shut stream has written all it accepted, and in particular all that was received before its end. */
  lemma ShutMeansDelivered(s: State, h: Half)
    requires Inv(s) && h in s.shut && Lost(s, h) == []
    ensures h in s.history && Wire(s, h) == Flat(s.history[h].accepted)
    ensures Flat(s.history[h].received) <= Wire(s, h)
  {
    assert StreamOk(s, h) && Conserved(s, h);
    PieceLengths(Fate(s, h));
    FlatPrefix(s.history[h].received, s.history[h].accepted);
  }

  /** Until an end is received for it, everything received for an inserted stream is accepted. */
  lemma ReceivedIsAccepted(s: State, h: Half, segment: Segment)
    requires Inv(s) && h in s.history && !s.history[h].endReceived
    ensures var t := Written(s, s.history[h].id, segment);
            h in t.history && t.history[h].accepted == s.history[h].accepted + [segment]
  {
    assert StreamOk(s, h);
  }

  // ---------- progress ----------

  function Weight(t: Task): nat {
    match t
    case Writer(_, _, batch) => 2 + |batch|
    case Closer(_) => 1
    case Remover(_) => 2
  }

  ghost function Queued(table: map<StreamId, StreamRec>): map<nat, nat> {
    map id | id in table :: 2 * |table[id].q|
  }

  ghost function Weights(tasks: map<TaskId, Task>): map<nat, nat> {
    map t | t in tasks :: Weight(tasks[t])
  }

  ghost function Pending(s: State): nat {
    Sum(Queued(s.table)) + Sum(Weights(s.tasks))
  }

  lemma TableUpdate(table: map<StreamId, StreamRec>, id: StreamId, rec: StreamRec)
    requires id in table
    ensures Sum(Queued(table[id := rec])) == Sum(Queued(table)) - 2 * |table[id].q| + 2 * |rec.q|
  {
    SumUpdate(Queued(table), id, 2 * |rec.q|);
    assert Queued(table[id := rec]) == Queued(table)[id := 2 * |rec.q|];
  }

  lemma TableRemove(table: map<StreamId, StreamRec>, id: StreamId)
    requires id in table
    ensures Sum(Queued(table - {id})) == Sum(Queued(table)) - 2 * |table[id].q|
  {
    SumRemove(Queued(table), id);
    assert Queued(table - {id}) == Queued(table) - {id};
  }

  lemma TaskUpdate(tasks: map<TaskId, Task>, t: TaskId, task: Task)
    requires t in tasks
    ensures Sum(Weights(tasks[t := task])) == Sum(Weights(tasks)) - Weight(tasks[t]) + Weight(task)
  {
    SumUpdate(Weights(tasks), t, Weight(task));
    assert Weights(tasks[t := task]) == Weights(tasks)[t := Weight(task)];
  }

  lemma TaskRemove(tasks: map<TaskId, Task>, t: TaskId)
    requires t in tasks
    ensures Sum(Weights(tasks - {t})) == Sum(Weights(tasks)) - Weight(tasks[t])
  {
    SumRemove(Weights(tasks), t);
    assert Weights(tasks - {t}) == Weights(tasks) - {t};
  }

  lemma RemoverProgress(s: State, t: TaskId, id: StreamId)
    requires t in s.tasks && s.tasks[t] == Remover(id)
    ensures Pending(Removed(s, t, id)) < Pending(s)
  {
    if id !in s.table {
      TaskRemove(s.tasks, t);
    } else if s.table[id].write.Some? {
      TaskUpdate(s.tasks, t, Closer(s.table[id].write.value));
      TableRemove(s.table, id);
    } else {
      TaskRemove(s.tasks, t);
      TableUpdate(s.table, id, s.table[id].(ended := true));
    }
  }

  lemma LockProgress(s: State, t: TaskId, id: StreamId, half: Half)
    requires t in s.tasks && s.tasks[t] == Writer(id, half, [])
    ensures Pending(LockTurn(s, t, id, half)) < Pending(s)
  {
    if id !in s.table {
      TaskUpdate(s.tasks, t, Closer(half));
    } else if s.table[id].q != [] {
      TaskUpdate(s.tasks, t, Writer(id, half, s.table[id].q));
      TableUpdate(s.table, id, s.table[id].(q := []));
    } else if s.table[id].ended {
      TaskUpdate(s.tasks, t, Closer(half));
      TableRemove(s.table, id);
    } else {
      TaskRemove(s.tasks, t);
      TableUpdate(s.table, id, s.table[id].(write := Some(half)));
    }
  }

  /** Every turn of a task, failing or not, leaves less to do. */
  lemma TurnsMakeProgress(s: State, t: TaskId)
    requires t in s.tasks
    ensures Pending(RunTask(s, t)) < Pending(s)
    ensures forall n :: CanFail(s, t, n) ==> Pending(FailTurn(s, t, s.tasks[t], n)) < Pending(s)
  {
    match s.tasks[t]
    case Remover(id) => RemoverProgress(s, t, id);
    case Closer(half) => TaskRemove(s.tasks, t);
    case Writer(id, half, batch) =>
      if batch == [] {
        LockProgress(s, t, id, half);
      } else {
        TaskUpdate(s.tasks, t, Writer(id, half, batch[1..]));
        TaskUpdate(s.tasks, t, Writer(id, half, []));
      }
  }

  lemma RunCons(s: State, e: Event, rest: seq<Event>)
    requires Enabled(s, e) && IsRun(Step(s, e), rest)
    ensures IsRun(s, [e] + rest) && After(s, [e] + rest) == After(Step(s, e), rest)
  {
    assert ([e] + rest)[1..] == rest;
  }

  /** Left alone, all tasks come to rest. */
  lemma {:induction false} Drain(s: State) returns (events: seq<Event>)
    requires Inv(s)
    ensures IsRun(s, events) && After(s, events).tasks == map[] && After(s, events).history == s.history
    decreases Pending(s)
  {
    if s.tasks == map[] {
      events := [];
    } else {
      var t :| t in s.tasks;
      TurnsMakeProgress(s, t);
      TurnKeeps(s, t);
      TurnKeepsHistory(s, t);
      var rest := Drain(RunTask(s, t));
      RunCons(s, Run(t), rest);
      events := [Run(t)] + rest;
    }
  }

  lemma TurnKeepsHistory(s: State, t: TaskId)
    requires t in s.tasks
    ensures RunTask(s, t).history == s.history && RunTask(s, t).current == s.current
  {
    match s.tasks[t]
    case Remover(id) => RemoveKeepsHistory(s, t, id);
    case Closer(half) =>
    case Writer(id, half, batch) =>
      if batch == [] {
        LockKeepsHistory(s, t, id, half);
      }
  }

  lemma RemoveKeepsHistory(s: State, t: TaskId, id: StreamId)
    ensures Removed(s, t, id).history == s.history && Removed(s, t, id).current == s.current
  {
    if id !in s.table {
    } else if s.table[id].write.Some? {
    } else {
    }
  }

  lemma LockKeepsHistory(s: State, t: TaskId, id: StreamId, half: Half)
    ensures LockTurn(s, t, id, half).history == s.history && LockTurn(s, t, id, half).current == s.current
  {
    if id !in s.table {
    } else if s.table[id].q != [] {
    } else if s.table[id].ended {
    } else {
    }
  }

  /**
   At rest, every stream without loss has written all it accepted. A stream in the table has its write half back, one
   out of it is shut down, and a stream whose end was received after its start is out of it.
   */
  lemma RestMeansDelivered(s: State, h: Half)
    requires Inv(s) && s.tasks == map[] && h in s.history
    ensures Lost(s, h) == [] ==> Wire(s, h) == Flat(s.history[h].accepted)
    ensures if Live(s, h) then s.table[s.history[h].id].write == Some(h) else h in s.shut
    ensures s.history[h].closeAsked ==> !Live(s, h)
    ensures !s.history[h].endReceived ==> Live(s, h)
  {
    var id := s.history[h].id;
    assert StreamOk(s, h) && Conserved(s, h);
    assert id in s.running ==> RunningOk(s, id);
    assert id in s.table ==> RecOk(s, id);
    PieceLengths(Fate(s, h));
  }
}
