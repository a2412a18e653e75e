/** The stream table as the dispatcher holds it: one object, updated in place, one method for each atomic region. */
module StreamTable {
  import opened Basics
  import opened Streams
  import opened StreamsInvariant
  import opened StreamsPlaces
  import opened StreamsSteps

  class StreamTable {
    var table: map<StreamId, StreamRec>
    var tasks: map<TaskId, Task>
    var nextTask: TaskId
    var nextHalf: Half
    var wire: map<Half, Segment>
    var shut: seq<Half>
    ghost var history: map<Half, History>
    ghost var current: map<StreamId, Half>
    ghost var running: map<StreamId, TaskId>
    ghost var fate: map<Half, seq<Piece>>

    ghost function S(): State
      reads this
    {
      State(table, tasks, nextTask, nextHalf, wire, shut, history, current, running, fate)
    }

    constructor ()
      ensures S() == START && Inv(S())
    {
      table, tasks, nextTask, nextHalf, wire, shut := map[], map[], 0, 0, map[], [];
      history, current, running, fate := map[], map[], map[], map[];
      new;
      StartInv();
    }

    /** `Streams::insert`: a record under the same id is overwritten. */
    method Insert(id: StreamId)
      requires Inv(S())
      modifies this
      ensures S() == Step(old(S()), Event.Insert(id)) && tasks == old(tasks) && shut == old(shut)
      ensures table == old(table)[id := StreamRec(Some(old(nextHalf)), [], false)] && nextHalf == old(nextHalf) + 1
      ensures (Inv(S()) <==> id !in old(table)) && (Placed(S()) <==> id !in old(table))
    {
      InsertExactly(S(), id);
      var half := nextHalf;
      table := table[id := StreamRec(Some(half), [], false)];
      nextHalf := half + 1;
      wire := wire[half := []];
      fate := fate[half := []];
      history := history[half := History(id, [], [], HasRemover(old(S()), id), false)];
      current := current[id := half];
    }

    /** `Streams::write`: queue the buffer and, if the write half is at hand, start a write loop with it. */
    method Write(id: StreamId, buf: Segment)
      requires Inv(S())
      modifies this
      ensures S() == Step(old(S()), Data(id, buf)) && Inv(S()) && wire == old(wire) && shut == old(shut)
      ensures id !in old(table) ==> S() == old(S())
      ensures id in old(table) ==>
                var rec := old(table)[id];
                && table == old(table)[id := StreamRec(None, rec.q + [buf], rec.ended)]
                && tasks == match rec.write
                            case None => old(tasks)
                            case Some(half) => old(tasks)[old(nextTask) := Writer(id, half, [])]
    {
      ghost var s := S();
      if id in table {
        Enqueue(id, buf);
      }
      StepKeeps(s, Data(id, buf));
    }

    method Enqueue(id: StreamId, buf: Segment)
      requires id in table
      modifies this
      ensures S() == Written(old(S()), id, buf)
    {
      var rec := table[id];
      var taken := rec.write;
      table := table[id := rec.(q := rec.q + [buf], write := None)];
      history := Accept(history, CurrentHalf(S(), id), buf);
      if taken.Some? {
        running := running[id := nextTask];
        tasks := tasks[nextTask := Writer(id, taken.value, [])];
        nextTask := nextTask + 1;
      }
    }

    /** A `stream_ended` message: its handler is spawned and removes the stream later. */
    method StreamEnded(id: StreamId)
      requires Inv(S())
      modifies this
      ensures S() == Step(old(S()), Ended(id)) && Inv(S())
      ensures tasks == old(tasks)[old(nextTask) := Remover(id)]
      ensures table == old(table) && wire == old(wire) && shut == old(shut)
    {
      StepKeeps(S(), Ended(id));
      history := MarkEnded(history, CurrentHalf(S(), id));
      tasks := tasks[nextTask := Remover(id)];
      nextTask := nextTask + 1;
    }

    /** `Streams::remove`, up to the shutdown outside the lock. */
    method Remove(t: TaskId)
      requires Inv(S()) && t in tasks && tasks[t].Remover?
      modifies this
      ensures S() == Step(old(S()), Run(t)) && Inv(S()) && wire == old(wire) && shut == old(shut)
      ensures var id := old(tasks)[t].id;
              if id !in old(table) then table == old(table) && tasks == old(tasks) - {t}
              else match old(table)[id].write
                   case Some(half) => table == old(table) - {id} && tasks == old(tasks)[t := Closer(half)]
                   case None =>
                     table == old(table)[id := old(table)[id].(ended := true)] && tasks == old(tasks) - {t}
    {
      StepKeeps(S(), Run(t));
      var id := tasks[t].id;
      if id in table {
        if table[id].write.Some? {
          var w := table[id].write.value;
          table := table - {id};
          tasks := tasks[t := Closer(w)];
          return;
        }
        table := table[id := table[id].(ended := true)];
      }
      tasks := tasks - {t};
    }

    /** One turn of the write loop under the lock. */
    method WriteLoopTurn(t: TaskId)
      requires Inv(S()) && t in tasks && tasks[t].Writer? && tasks[t].batch == []
      modifies this
      ensures S() == Step(old(S()), Run(t)) && Inv(S()) && wire == old(wire) && shut == old(shut)
      ensures var id, half := old(tasks)[t].id, old(tasks)[t].half;
              && id in old(table)
              && var rec := old(table)[id];
                 if rec.q != [] then
                   table == old(table)[id := rec.(q := [])] && tasks == old(tasks)[t := Writer(id, half, rec.q)]
                 else if rec.ended then table == old(table) - {id} && tasks == old(tasks)[t := Closer(half)]
                 else table == old(table)[id := rec.(write := Some(half))] && tasks == old(tasks) - {t}
    {
      StepKeeps(S(), Run(t));
      WriterFacts(S(), t);
      var id, w := tasks[t].id, tasks[t].half;
      var rec := table[id];
      if rec.q == [] {
        running := running - {id};
        if rec.ended {
          table := table - {id};
          tasks := tasks[t := Closer(w)];
        } else {
          table := table[id := rec.(write := Some(w))];
          tasks := tasks - {t};
        }
        return;
      }
      table := table[id := rec.(q := [])];
      tasks := tasks[t := Writer(id, w, rec.q)];
    }

    /** One awaited `write_all` that succeeds. */
    method WriteItem(t: TaskId)
      requires Inv(S()) && t in tasks && tasks[t].Writer? && tasks[t].batch != []
      modifies this
      ensures S() == Step(old(S()), Run(t)) && Inv(S()) && table == old(table) && shut == old(shut)
      ensures var w := old(tasks)[t];
              && w.half in old(wire) && wire == old(wire)[w.half := old(wire)[w.half] + w.batch[0]]
              && tasks == old(tasks)[t := w.(batch := w.batch[1..])]
    {
      StepKeeps(S(), Run(t));
      WriterFacts(S(), t);
      var w := tasks[t];
      wire := Append(wire, w.half, w.batch[0]);
      fate := Append(fate, w.half, [Sent(w.batch[0])]);
      tasks := tasks[t := w.(batch := w.batch[1..])];
    }

    /** One awaited `write_all` that fails after n bytes: the inner loop is left, and the drained batch with it. */
    method FailItem(t: TaskId, n: nat)
      requires Inv(S()) && CanFail(S(), t, n)
      modifies this
      ensures S() == Step(old(S()), WriteFails(t, n)) && Inv(S()) && table == old(table) && shut == old(shut)
      ensures var w := old(tasks)[t];
              && w.half in old(wire) && wire == old(wire)[w.half := old(wire)[w.half] + w.batch[0][..n]]
              && tasks == old(tasks)[t := w.(batch := [])]
    {
      StepKeeps(S(), WriteFails(t, n));
      WriterFacts(S(), t);
      var w := tasks[t];
      wire := Append(wire, w.half, w.batch[0][..n]);
      fate := Append(fate, w.half, [Sent(w.batch[0][..n]), Dropped(w.batch[0][n..] + Flat(w.batch[1..]))]);
      tasks := tasks[t := w.(batch := [])];
    }

    method Shutdown(t: TaskId)
      requires Inv(S()) && t in tasks && tasks[t].Closer?
      modifies this
      ensures S() == Step(old(S()), Run(t)) && Inv(S()) && table == old(table) && wire == old(wire)
      ensures shut == old(shut) + [old(tasks)[t].half] && tasks == old(tasks) - {t}
    {
      StepKeeps(S(), Run(t));
      shut := shut + [tasks[t].half];
      tasks := tasks - {t};
    }
  }
}
