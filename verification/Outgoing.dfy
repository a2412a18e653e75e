/**
 What a duplex call sends: the message that its streams have started, the data read from each of them, their ends,
 and the call's own response, all through one channel. Every awaited read and send is one step.
 */
module Outgoing {
  import opened Basics

  type StreamId = nat
  type RequestId = nat
  type Segment = seq<Byte>

  datatype Message =
    | StreamsStarted(request: RequestId, ids: seq<StreamId>)
    | StreamData(id: StreamId, segment: Segment)
    | StreamEnded(id: StreamId)
    | Response(request: RequestId)
    | Other

  /** Where the reading of a stream stands. */
  datatype Reader = Reading | Sending(segment: Segment) | Ending

  /** `read` and `ended` observe: the bytes read from each stream, and the streams whose end was read. */
  datatype State = State(
    channel: seq<Message>,
    closed: bool,
    readers: map<StreamId, Reader>,
    responders: multiset<RequestId>,
    read: map<StreamId, Segment>,
    ended: set<StreamId>)

  const START := State([], false, map[], multiset{}, map[], {})

  datatype Event =
    | Register(request: RequestId, ids: seq<StreamId>)
    | Read(id: StreamId, segment: Segment)
    | ReadEnd(id: StreamId)
    | Send(id: StreamId)
    | Respond(request: RequestId)
    | SendOther
    | Close

  function Sent(s: State, m: Message): State {
    if s.closed then s else s.(channel := s.channel + [m])
  }

  /** The map with every one of these streams set to a value. */
  function SetAll<V>(m: map<StreamId, V>, ids: seq<StreamId>, v: V): map<StreamId, V> {
    if ids == [] then m else SetAll(m, ids[..|ids| - 1], v)[ids[|ids| - 1] := v]
  }

  predicate Enabled(s: State, e: Event) {
    match e
    case Register(_, ids) =>
      (forall id :: id in ids ==> id !in s.read) && forall i, j :: 0 <= i < j < |ids| ==> ids[i] != ids[j]
    case Read(id, segment) => id in s.readers && s.readers[id].Reading? && segment != []
    case ReadEnd(id) => id in s.readers && s.readers[id].Reading?
    case Send(id) => id in s.readers && !s.readers[id].Reading?
    case Respond(request) => request in s.responders
    case SendOther => true
    case Close => true
  }

  /** A failed send ends its sender. */
  function Step(s: State, e: Event): State
    requires Enabled(s, e)
  {
    match e
    case Register(request, ids) =>
      var t := Sent(s, StreamsStarted(request, ids)).(responders := s.responders + multiset{request});
      if s.closed then t
      else t.(readers := SetAll(s.readers, ids, Reading), read := SetAll(s.read, ids, []))
    case Read(id, segment) =>
      s.(readers := s.readers[id := Sending(segment)], read := Append(s.read, id, segment))
    case ReadEnd(id) => s.(readers := s.readers[id := Ending], ended := s.ended + {id})
    case Send(id) =>
      (match s.readers[id]
       case Sending(segment) =>
         Sent(s, StreamData(id, segment)).(readers := if s.closed then s.readers - {id} else s.readers[id := Reading])
       case _ => Sent(s, StreamEnded(id)).(readers := s.readers - {id}))
    case Respond(request) => Sent(s, Response(request)).(responders := s.responders - multiset{request})
    case SendOther => Sent(s, Other)
    case Close => s.(closed := true)
  }

  function Append(read: map<StreamId, Segment>, id: StreamId, bytes: Segment): map<StreamId, Segment> {
    read[id := (if id in read then read[id] else []) + bytes]
  }

  // ---------- what the channel says about one stream ----------

  datatype Phase = Unheard | Open | Over | Broken

  /** Started, then data, then the end, and nothing after it. */
  function Next(p: Phase, m: Message, id: StreamId): Phase {
    match m
    case StreamsStarted(_, ids) => if id !in ids then p else if p.Unheard? then Open else Broken
    case StreamData(x, _) => if x != id then p else if p.Open? then Open else Broken
    case StreamEnded(x) => if x != id then p else if p.Open? then Over else Broken
    case _ => p
  }

  predicate Concerns(m: Message, id: StreamId) {
    match m
    case StreamsStarted(_, ids) => id in ids
    case StreamData(x, _) => x == id
    case StreamEnded(x) => x == id
    case _ => false
  }

  function PhaseOf(channel: seq<Message>, id: StreamId): Phase {
    if channel == [] then Unheard else Next(PhaseOf(channel[..|channel| - 1], id), channel[|channel| - 1], id)
  }

  /** The data sent for a stream. */
  function DataOf(channel: seq<Message>, id: StreamId): Segment {
    if channel == [] then []
    else
      var m := channel[|channel| - 1];
      DataOf(channel[..|channel| - 1], id) + if m.StreamData? && m.id == id then m.segment else []
  }

  lemma Snoc(channel: seq<Message>, m: Message, id: StreamId)
    ensures PhaseOf(channel + [m], id) == Next(PhaseOf(channel, id), m, id)
    ensures DataOf(channel + [m], id) == DataOf(channel, id) + if m.StreamData? && m.id == id then m.segment else []
  {
    assert (channel + [m])[..|channel|] == channel;
  }

  // ---------- the invariant ----------

  function Pending(s: State, id: StreamId): Segment {
    if id in s.readers && s.readers[id].Sending? then s.readers[id].segment else []
  }

  /**
   A stream with a reader is open, all its bytes are sent or about to be, and its end is not; without, it may be
   over.
   */
  ghost predicate StreamOk(s: State, id: StreamId) {
    var p := PhaseOf(s.channel, id);
    if id !in s.read then id !in s.readers && id !in s.ended && p == Unheard && DataOf(s.channel, id) == []
    else if id in s.readers then
      && p == Open && (s.readers[id].Ending? <==> id in s.ended)
      && DataOf(s.channel, id) + Pending(s, id) == s.read[id]
    else
      && p in {Open, Over} && DataOf(s.channel, id) <= s.read[id]
      && (p == Over ==> id in s.ended && DataOf(s.channel, id) == s.read[id])
      && (!s.closed ==> p == Over)
  }

  function Count(channel: seq<Message>, request: RequestId, response: bool): nat {
    if channel == [] then 0
    else
      var m := channel[|channel| - 1];
      Count(channel[..|channel| - 1], request, response)
      + if (if response then m.Response? else m.StreamsStarted?) && m.request == request then 1 else 0
  }

  lemma CountSnoc(channel: seq<Message>, m: Message, request: RequestId, response: bool)
    ensures Count(channel + [m], request, response) == Count(channel, request, response)
              + if (if response then m.Response? else m.StreamsStarted?) && m.request == request then 1 else 0
  {
    assert (channel + [m])[..|channel|] == channel;
  }

  /** A call has answered at most as often as it has said that its streams started. */
  ghost predicate CallOk(s: State, request: RequestId) {
    && Count(s.channel, request, true) <= Count(s.channel, request, false)
    && (!s.closed ==> Count(s.channel, request, true) + s.responders[request] == Count(s.channel, request, false))
  }

  ghost predicate Inv(s: State) {
    && (forall id {:trigger StreamOk(s, id)} :: StreamOk(s, id))
    && (forall r {:trigger CallOk(s, r)} :: CallOk(s, r))
  }

  lemma StartInv()
    ensures Inv(START)
  {
  }

  lemma RegisterStream(s: State, e: Event, id: StreamId)
    requires e.Register? && Enabled(s, e) && StreamOk(s, id)
    ensures StreamOk(Step(s, e), id)
  {
    var t := Step(s, e);
    if !s.closed {
      Snoc(s.channel, StreamsStarted(e.request, e.ids), id);
      SetAllIs(s.readers, e.ids, Reading, id);
      SetAllIs(s.read, e.ids, [], id);
      assert t.channel == s.channel + [StreamsStarted(e.request, e.ids)];
      assert DataOf(t.channel, id) == DataOf(s.channel, id) + [] == DataOf(s.channel, id);
    }
  }

  lemma {:induction false} SetAllIs<V>(m: map<StreamId, V>, ids: seq<StreamId>, v: V, id: StreamId)
    ensures var r := SetAll(m, ids, v);
            && (id in ids ==> id in r && r[id] == v)
            && (id !in ids ==> (id in r <==> id in m) && (id in r ==> r[id] == m[id]))
    decreases |ids|
  {
    if ids != [] {
      var n := |ids| - 1;
      SetAllIs(m, ids[..n], v, id);
      assert ids == ids[..n] + [ids[n]];
    }
  }

  lemma ReadStream(s: State, e: Event, id: StreamId)
    requires (e.Read? || e.ReadEnd?) && Enabled(s, e) && StreamOk(s, id)
    ensures StreamOk(Step(s, e), id)
  {
    if id == e.id && e.Read? && id in s.read {
      var sent := DataOf(s.channel, id);
      assert sent + [] == sent;
    }
  }

  /** A message about other streams, and nothing else of this stream changes. */
  lemma QuietStream(s: State, t: State, m: Message, id: StreamId)
    requires StreamOk(s, id) && !Concerns(m, id)
    requires (t.read, t.ended, t.closed) == (s.read, s.ended, s.closed)
    requires (id in t.readers <==> id in s.readers) && (id in t.readers ==> t.readers[id] == s.readers[id])
    requires t.channel == s.channel || t.channel == s.channel + [m]
    ensures StreamOk(t, id)
  {
    Snoc(s.channel, m, id);
    assert DataOf(s.channel, id) + [] == DataOf(s.channel, id);
  }

  lemma SendData(s: State, id: StreamId, segment: Segment)
    requires id in s.readers && s.readers[id] == Sending(segment) && StreamOk(s, id)
    ensures StreamOk(Step(s, Send(id)), id)
  {
    var sent := DataOf(s.channel, id);
    Snoc(s.channel, StreamData(id, segment), id);
    assert sent <= sent + segment;
    assert sent + segment + [] == sent + segment;
  }

  lemma SendEnd(s: State, id: StreamId)
    requires id in s.readers && s.readers[id].Ending? && StreamOk(s, id)
    ensures StreamOk(Step(s, Send(id)), id)
  {
    var sent := DataOf(s.channel, id);
    Snoc(s.channel, StreamEnded(id), id);
    assert sent + [] == sent;
  }

  lemma SendStream(s: State, e: Event, id: StreamId)
    requires e.Send? && Enabled(s, e) && StreamOk(s, id)
    ensures StreamOk(Step(s, e), id)
  {
    if id != e.id {
      var m := if s.readers[e.id].Sending? then StreamData(e.id, s.readers[e.id].segment) else StreamEnded(e.id);
      QuietStream(s, Step(s, e), m, id);
    } else if s.readers[id].Sending? {
      SendData(s, id, s.readers[id].segment);
    } else {
      SendEnd(s, id);
    }
  }

  lemma StepStream(s: State, e: Event, id: StreamId)
    requires Enabled(s, e) && StreamOk(s, id)
    ensures StreamOk(Step(s, e), id)
  {
    match e
    case Register(_, _) => RegisterStream(s, e, id);
    case Read(_, _) => ReadStream(s, e, id);
    case ReadEnd(_) => ReadStream(s, e, id);
    case Send(_) => SendStream(s, e, id);
    case Respond(request) => QuietStream(s, Step(s, e), Response(request), id);
    case SendOther => QuietStream(s, Step(s, e), Other, id);
    case Close =>
  }

  /** A message sent, and the answers still owed to the call changed with it. */
  lemma SentCall(s: State, t: State, m: Message, request: RequestId)
    requires CallOk(s, request) && t.closed == s.closed && t.channel == Sent(s, m).channel
    requires t.responders[request] + (if m == Response(request) then 1 else 0)
          == s.responders[request] + (if m.StreamsStarted? && m.request == request then 1 else 0)
    ensures CallOk(t, request)
  {
    CountSnoc(s.channel, m, request, true);
    CountSnoc(s.channel, m, request, false);
  }

  lemma StepCall(s: State, e: Event, request: RequestId)
    requires CallOk(s, request) && Enabled(s, e)
    ensures CallOk(Step(s, e), request)
  {
    match e
    case Register(r, ids) => SentCall(s, Step(s, e), StreamsStarted(r, ids), request);
    case Send(id) =>
      var reader := s.readers[id];
      SentCall(s, Step(s, e), if reader.Sending? then StreamData(id, reader.segment) else StreamEnded(id), request);
    case Respond(r) => SentCall(s, Step(s, e), Response(r), request);
    case SendOther => SentCall(s, Step(s, e), Other, request);
    case Read(_, _) =>
    case ReadEnd(_) =>
    case Close =>
  }

  lemma StepKeeps(s: State, e: Event)
    requires Inv(s) && Enabled(s, e)
    ensures Inv(Step(s, e)) && s.channel <= Step(s, e).channel
  {
    forall id ensures StreamOk(Step(s, e), id) { assert StreamOk(s, id); StepStream(s, e, id); }
    forall r ensures CallOk(Step(s, e), r) { assert CallOk(s, r); StepCall(s, e, r); }
  }

  // ---------- whole runs ----------

  predicate IsRun(s: State, events: seq<Event>)
    decreases |events|
  {
    events == [] || (Enabled(s, events[0]) && IsRun(Step(s, events[0]), events[1..]))
  }

  function After(s: State, events: seq<Event>): State
    requires IsRun(s, events)
    decreases |events|
  {
    if events == [] then s else After(Step(s, events[0]), events[1..])
  }

  lemma {:induction false} RunKeeps(s: State, events: seq<Event>)
    requires Inv(s) && IsRun(s, events)
    ensures Inv(After(s, events)) && s.channel <= After(s, events).channel
    decreases |events|
  {
    if events != [] {
      StepKeeps(s, events[0]);
      RunKeeps(Step(s, events[0]), events[1..]);
    }
  }

  lemma {:induction false} PhaseOfPrefix(channel: seq<Message>, n: nat, id: StreamId)
    requires n <= |channel|
    ensures PhaseOf(channel[..n], id) == Broken ==> PhaseOf(channel, id) == Broken
    ensures PhaseOf(channel[..n], id) == Over ==> PhaseOf(channel, id) in {Over, Broken}
    ensures PhaseOf(channel, id) == Unheard ==> PhaseOf(channel[..n], id) == Unheard
    decreases |channel|
  {
    if n < |channel| {
      var last := |channel| - 1;
      PhaseOfPrefix(channel[..last], n, id);
      assert channel[..last][..n] == channel[..n];
    } else {
      assert channel[..n] == channel;
    }
  }

  ghost predicate StartedBefore(channel: seq<Message>, id: StreamId, k: nat) {
    exists i :: 0 <= i < k && i < |channel| && channel[i].StreamsStarted? && id in channel[i].ids
  }

  lemma {:induction false} OpenWasStarted(channel: seq<Message>, id: StreamId)
    requires PhaseOf(channel, id) in {Open, Over}
    ensures StartedBefore(channel, id, |channel|)
    decreases |channel|
  {
    var last := |channel| - 1;
    if channel[last].StreamsStarted? && id in channel[last].ids {
    } else {
      OpenWasStarted(channel[..last], id);
      var i :| 0 <= i < last && channel[..last][i].StreamsStarted? && id in channel[..last][i].ids;
      assert channel[i].StreamsStarted? && id in channel[i].ids;
    }
  }

  lemma PhaseAt(channel: seq<Message>, id: StreamId, k: nat)
    requires k < |channel| && PhaseOf(channel, id) != Broken
    ensures PhaseOf(channel[..k + 1], id) == Next(PhaseOf(channel[..k], id), channel[k], id) != Broken
  {
    assert channel[..k + 1][..k] == channel[..k];
    PhaseOfPrefix(channel, k + 1, id);
  }

  lemma DataAfterStart(channel: seq<Message>, id: StreamId, k: nat)
    requires k < |channel| && PhaseOf(channel, id) != Broken
    requires channel[k] == StreamEnded(id) || (channel[k].StreamData? && channel[k].id == id)
    ensures StartedBefore(channel, id, k)
  {
    PhaseAt(channel, id, k);
    OpenWasStarted(channel[..k], id);
    var i :| 0 <= i < k && channel[..k][i].StreamsStarted? && id in channel[..k][i].ids;
    assert channel[i].StreamsStarted? && id in channel[i].ids;
  }

  lemma NothingAfterEnd(channel: seq<Message>, id: StreamId, k: nat, j: nat)
    requires k < j < |channel| && PhaseOf(channel, id) != Broken && channel[k] == StreamEnded(id)
    ensures !Concerns(channel[j], id)
  {
    PhaseAt(channel, id, k);
    PhaseAt(channel, id, j);
    assert channel[..j][..k + 1] == channel[..k + 1];
    PhaseOfPrefix(channel[..j], k + 1, id);
  }

  /** In any run, the data and end of a stream come after its start, and nothing of it comes after its end. */
  lemma StreamOrder(events: seq<Event>, id: StreamId, k: nat)
    requires IsRun(START, events) && k < |After(START, events).channel|
    ensures var channel := After(START, events).channel;
            var m := channel[k];
            && ((m.StreamData? || m.StreamEnded?) && m.id == id ==> StartedBefore(channel, id, k))
            && (m == StreamEnded(id) ==> forall j :: k < j < |channel| ==> !Concerns(channel[j], id))
  {
    StartInv();
    RunKeeps(START, events);
    var s := After(START, events);
    assert StreamOk(s, id);
    var m := s.channel[k];
    if (m.StreamData? || m.StreamEnded?) && m.id == id {
      DataAfterStart(s.channel, id, k);
    }
    if m == StreamEnded(id) {
      forall j | k < j < |s.channel| ensures !Concerns(s.channel[j], id) {
        NothingAfterEnd(s.channel, id, k, j);
      }
    }
  }

  /**
   In any run, the data sent for a stream is what was read, but for a segment about to be sent; and all of it once
   its end is sent.
   */
  lemma StreamContents(events: seq<Event>, id: StreamId)
    requires IsRun(START, events) && id in After(START, events).read
    ensures var s := After(START, events);
            && DataOf(s.channel, id) <= s.read[id]
            && (PhaseOf(s.channel, id) == Over ==> DataOf(s.channel, id) == s.read[id] && id in s.ended)
            && (!s.closed ==> DataOf(s.channel, id) + Pending(s, id) == s.read[id])
  {
    StartInv();
    RunKeeps(START, events);
    var s := After(START, events);
    assert StreamOk(s, id);
    assert DataOf(s.channel, id) + [] == DataOf(s.channel, id);
  }

  /** Up to every place in the channel, a call has answered at most as often as it has said that its streams started. */
  ghost predicate StartedFirst(channel: seq<Message>, request: RequestId) {
    forall k {:trigger channel[..k]} :: 0 <= k <= |channel| ==>
      Count(channel[..k], request, true) <= Count(channel[..k], request, false)
  }

  lemma StepAppends(s: State, e: Event) returns (more: seq<Message>)
    requires Enabled(s, e)
    ensures |more| <= 1 && Step(s, e).channel == s.channel + more
  {
    more := Step(s, e).channel[|s.channel|..];
  }

  lemma StartedFirstSnoc(channel: seq<Message>, more: seq<Message>, request: RequestId)
    requires StartedFirst(channel, request) && |more| <= 1
    requires Count(channel + more, request, true) <= Count(channel + more, request, false)
    ensures StartedFirst(channel + more, request)
  {
    var all := channel + more;
    forall k {:trigger all[..k]} | 0 <= k <= |all|
      ensures Count(all[..k], request, true) <= Count(all[..k], request, false)
    {
      if k <= |channel| {
        assert all[..k] == channel[..k];
      } else {
        assert all[..k] == all;
      }
    }
  }

  lemma {:induction false} RunStartsFirst(s: State, events: seq<Event>, request: RequestId)
    requires Inv(s) && IsRun(s, events) && StartedFirst(s.channel, request)
    ensures StartedFirst(After(s, events).channel, request)
    decreases |events|
  {
    if events != [] {
      var t := Step(s, events[0]);
      var more := StepAppends(s, events[0]);
      StepKeeps(s, events[0]);
      assert CallOk(t, request);
      StartedFirstSnoc(s.channel, more, request);
      RunStartsFirst(t, events[1..], request);
    }
  }

  /** In any run, up to every place in the channel, no response of a duplex call precedes its streams' start. */
  lemma ResponseAfterStarted(events: seq<Event>, request: RequestId, k: nat)
    requires IsRun(START, events) && k <= |After(START, events).channel|
    ensures var sent := After(START, events).channel[..k];
            Count(sent, request, true) <= Count(sent, request, false)
  {
    StartInv();
    assert StartedFirst([], request);
    RunStartsFirst(START, events, request);
  }

  // ---------- the sending side as an object ----------

  class Sender {
    var channel: seq<Message>
    var closed: bool
    var readers: map<StreamId, Reader>
    var responders: multiset<RequestId>
    ghost var read: map<StreamId, Segment>
    ghost var ended: set<StreamId>

    ghost function S(): State
      reads this
    {
      State(channel, closed, readers, responders, read, ended)
    }

    constructor ()
      ensures S() == START && Inv(S())
    {
      channel, closed, readers, responders, read, ended := [], false, map[], multiset{}, map[], {};
      new;
      StartInv();
    }

    /** `register_stream`, with an answer now owed to the call. */
    method RegisterStream(request: RequestId, ids: seq<StreamId>)
      requires Inv(S()) && Enabled(S(), Register(request, ids))
      modifies this
      ensures S() == Step(old(S()), Register(request, ids)) && Inv(S())
      ensures channel == old(channel) + if closed then [] else [StreamsStarted(request, ids)]
      ensures forall id :: id in ids && !closed ==> id in readers && readers[id] == Reading
      ensures closed ==> readers == old(readers)
    {
      ghost var s := S();
      StepKeeps(s, Register(request, ids));
      forall id | id in ids
        ensures id in SetAll(readers, ids, Reading) && SetAll(readers, ids, Reading)[id] == Reading
      {
        SetAllIs(readers, ids, Reading, id);
      }
      responders := responders + multiset{request};
      if !closed {
        channel := channel + [StreamsStarted(request, ids)];
        SpawnReaders(ids);
      }
    }

    method SpawnReaders(ids: seq<StreamId>)
      modifies this`readers, this`read
      ensures readers == SetAll(old(readers), ids, Reading) && read == SetAll(old(read), ids, [])
    {
      for i := 0 to |ids|
        invariant readers == SetAll(old(readers), ids[..i], Reading)
        invariant read == SetAll(old(read), ids[..i], [])
      {
        assert ids[..i + 1][..i] == ids[..i];
        readers := readers[ids[i] := Reading];
        read := read[ids[i] := []];
      }
      assert ids[..|ids|] == ids;
    }

    /** The rest of a reader's turn: what it read, or its end, is sent. */
    method SendNext(id: StreamId)
      requires Inv(S()) && Enabled(S(), Send(id))
      modifies this
      ensures S() == Step(old(S()), Send(id)) && Inv(S())
      ensures var reader := old(readers)[id];
              && channel == old(channel) + (if closed then []
                                            else if reader.Sending? then [StreamData(id, reader.segment)]
                                            else [StreamEnded(id)])
              && readers == if reader.Sending? && !closed then old(readers)[id := Reading] else old(readers) - {id}
    {
      StepKeeps(S(), Send(id));
      if readers[id].Sending? {
        if closed {
          readers := readers - {id};
        } else {
          channel := channel + [StreamData(id, readers[id].segment)];
          readers := readers[id := Reading];
        }
      } else {
        if !closed {
          channel := channel + [StreamEnded(id)];
        }
        readers := readers - {id};
      }
    }
  }
}
