/**
 The stream table of the RPC dispatcher as a state machine. Every region that holds the lock, every awaited
 write and every shutdown is one step, and steps of different tasks interleave arbitrarily.
 */
module Streams {
  import opened Basics

  type StreamId = nat
  type Half = nat
  type TaskId = nat
  type Segment = seq<Byte>

  datatype StreamRec = StreamRec(write: Option<Half>, q: seq<Segment>, ended: bool)

  /**
   A spawned task: a write loop with its write half and current batch, a shutdown to do, or a `stream_ended` to
   handle.
   */
  datatype Task =
    | Writer(id: StreamId, half: Half, batch: seq<Segment>)
    | Closer(half: Half)
    | Remover(id: StreamId)

  /** What became of accepted bytes, in the order in which a writer came to them. */
  datatype Piece = Sent(bytes: Segment) | Dropped(bytes: Segment)

  /**
   What happened to the stream of a write half since it was inserted. An end counts as received from the start if one
   for the same id is still being handled then.
   */
  datatype History = History(
    id: StreamId,
    accepted: seq<Segment>,
    received: seq<Segment>,
    endReceived: bool,
    closeAsked: bool)

  /** `history`, `current`, `running` and `fate` only observe; `current` is the half last inserted under an id. */
  datatype State = State(
    table: map<StreamId, StreamRec>,
    tasks: map<TaskId, Task>,
    nextTask: TaskId,
    nextHalf: Half,
    wire: map<Half, Segment>,
    shut: seq<Half>,
    history: map<Half, History>,
    current: map<StreamId, Half>,
    running: map<StreamId, TaskId>,
    fate: map<Half, seq<Piece>>)

  const START := State(map[], map[], 0, 0, map[], [], map[], map[], map[], map[])

  function Flat(q: seq<Segment>): Segment {
    if q == [] then [] else q[0] + Flat(q[1..])
  }

  lemma {:induction false} FlatConcat(a: seq<Segment>, b: seq<Segment>)
    ensures Flat(a + b) == Flat(a) + Flat(b)
    decreases |a|
  {
    if a == [] {
      assert a + b == b;
    } else {
      FlatConcat(a[1..], b);
      assert (a + b)[1..] == a[1..] + b;
    }
  }

  lemma FlatOne(seg: Segment)
    ensures Flat([seg]) == seg
  {
    assert [seg][1..] == [];
  }

  // ---------- the steps ----------

  datatype Event =
    | Insert(id: StreamId)
    | Data(id: StreamId, segment: Segment)
    | Ended(id: StreamId)
    | Run(task: TaskId)
    | WriteFails(task: TaskId, written: nat)

  function Spawn(s: State, t: Task): State {
    s.(tasks := s.tasks[s.nextTask := t], nextTask := s.nextTask + 1)
  }

  predicate HasRemover(s: State, id: StreamId) {
    exists t :: t in s.tasks && s.tasks[t] == Remover(id)
  }

  function CurrentHalf(s: State, id: StreamId): Half {
    if id in s.current then s.current[id] else s.nextHalf
  }

  /** A stream is registered with a new write half; an old record under the same id is overwritten. */
  function Inserted(s: State, id: StreamId): State {
    var h := s.nextHalf;
    s.(table := s.table[id := StreamRec(Some(h), [], false)],
       nextHalf := h + 1,
       wire := s.wire[h := []],
       fate := s.fate[h := []],
       current := s.current[id := h],
       history := s.history[h := History(id, [], [], HasRemover(s, id), false)])
  }

  /** A segment is queued, and a write loop is started if the write half is idle. */
  function Written(s: State, id: StreamId, segment: Segment): State {
    if id !in s.table then s
    else
      var write := s.table[id].write;
      var t := Queued(s, id, segment);
      if write.Some? then Spawn(t, Writer(id, write.value, [])).(running := s.running[id := s.nextTask]) else t
  }

  function Queued(s: State, id: StreamId, segment: Segment): State
    requires id in s.table
  {
    s.(table := s.table[id := StreamRec(None, s.table[id].q + [segment], s.table[id].ended)],
       history := Accept(s.history, CurrentHalf(s, id), segment))
  }

  function Accept(history: map<Half, History>, half: Half, segment: Segment): map<Half, History> {
    if half !in history then history
    else
      var h := history[half];
      history[half := h.(accepted := h.accepted + [segment],
                         received := if h.endReceived then h.received else h.received + [segment])]
  }

  function EndSeen(s: State, id: StreamId): State {
    Spawn(s, Remover(id)).(history := MarkEnded(s.history, CurrentHalf(s, id)))
  }

  function MarkEnded(history: map<Half, History>, half: Half): map<Half, History> {
    if half in history then history[half := history[half].(endReceived := true, closeAsked := true)] else history
  }

  function Done(s: State, t: TaskId): State {
    s.(tasks := s.tasks - {t})
  }

  function Become(s: State, t: TaskId, task: Task): State {
    s.(tasks := s.tasks[t := task])
  }

  /** The locked part of `remove`. */
  function Removed(s: State, t: TaskId, id: StreamId): State {
    if id !in s.table then Done(s, t)
    else
      var rec := s.table[id];
      if rec.write.Some? then
        Become(s.(table := s.table - {id}), t, Closer(rec.write.value))
      else
        Done(s.(table := s.table[id := rec.(ended := true)]), t)
  }

  /** The locked part of the write loop: close, hand the write half back, or take the queue as the next batch. */
  function LockTurn(s: State, t: TaskId, id: StreamId, half: Half): State {
    if id !in s.table then Become(s, t, Closer(half)).(running := s.running - {id})
    else
      var rec := s.table[id];
      if rec.q != [] then
        Become(s.(table := s.table[id := rec.(q := [])]), t, Writer(id, half, rec.q))
      else if rec.ended then
        Become(s.(table := s.table - {id}, running := s.running - {id}), t, Closer(half))
      else
        Done(s.(table := s.table[id := rec.(write := Some(half))], running := s.running - {id}), t)
  }

  function Append<T>(m: map<Half, seq<T>>, h: Half, more: seq<T>): map<Half, seq<T>> {
    m[h := (if h in m then m[h] else []) + more]
  }

  /** One segment of the batch goes out. */
  function WriteTurn(s: State, t: TaskId, w: Task): State
    requires w.Writer? && w.batch != []
  {
    Become(s.(wire := Append(s.wire, w.half, w.batch[0]), fate := Append(s.fate, w.half, [Sent(w.batch[0])])),
           t, w.(batch := w.batch[1..]))
  }

  /** A write fails after some bytes: the rest of the batch is dropped, and the loop goes on. */
  function FailTurn(s: State, t: TaskId, w: Task, n: nat): State
    requires w.Writer? && w.batch != [] && n <= |w.batch[0]|
  {
    Become(s.(wire := Append(s.wire, w.half, w.batch[0][..n]),
              fate := Append(s.fate, w.half, [Sent(w.batch[0][..n]), Dropped(w.batch[0][n..] + Flat(w.batch[1..]))])),
           t, w.(batch := []))
  }

  function Shut(s: State, t: TaskId, half: Half): State {
    Done(s.(shut := s.shut + [half]), t)
  }

  function RunTask(s: State, t: TaskId): State
    requires t in s.tasks
  {
    match s.tasks[t]
    case Remover(id) => Removed(s, t, id)
    case Closer(half) => Shut(s, t, half)
    case Writer(id, half, batch) => if batch == [] then LockTurn(s, t, id, half) else WriteTurn(s, t, s.tasks[t])
  }

  predicate CanFail(s: State, t: TaskId, n: nat) {
    t in s.tasks && s.tasks[t].Writer? && s.tasks[t].batch != [] && n <= |s.tasks[t].batch[0]|
  }

  /** The event can happen. Nothing keeps a stream from being inserted under an id that is in the table. */
  predicate Enabled(s: State, e: Event) {
    match e
    case Insert(_) => true
    case Data(_, _) => true
    case Ended(_) => true
    case Run(t) => t in s.tasks
    case WriteFails(t, n) => CanFail(s, t, n)
  }

  function Step(s: State, e: Event): State
    requires Enabled(s, e)
  {
    match e
    case Insert(id) => Inserted(s, id)
    case Data(id, segment) => Written(s, id, segment)
    case Ended(id) => EndSeen(s, id)
    case Run(t) => RunTask(s, t)
    case WriteFails(t, n) => FailTurn(s, t, s.tasks[t], n)
  }

  /** The event inserts a stream over one that is still in the table. */
  predicate Overwrites(s: State, e: Event) {
    e.Insert? && e.id in s.table
  }

  predicate IsRun(s: State, events: seq<Event>)
    decreases |events|
  {
    events == [] || (Enabled(s, events[0]) && IsRun(Step(s, events[0]), events[1..]))
  }

  function After(s: State, events: seq<Event>): State
    requires IsRun(s, events)
    decreases |events|
  {
    if events == [] then s else After(Step(s, events[0]), events[1..])
  }

  predicate NeverOverwrites(s: State, events: seq<Event>)
    requires IsRun(s, events)
    decreases |events|
  {
    events == [] || (!Overwrites(s, events[0]) && NeverOverwrites(Step(s, events[0]), events[1..]))
  }
}
