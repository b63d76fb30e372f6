/** One accepted IPC connection: the response loop and the event task share one locked writer. */
module IpcServer {
  import opened Basics
  import opened Framing

  /** A whole frame as it was written. */
  datatype Entry = Entry(isEvent: bool, payload: Bytes)

  datatype ServerState = ServerState(
    sink: SinkState,
    events: seq<Bytes>,        // pushed by handlers, not yet taken by the event task
    eventTask: bool,
    responseLoop: bool)

  datatype Act =
    | Push(event: Bytes)
    | EventTurn
    | ResponseTurn(response: Bytes)
    | EndLoop                       // read error, malformed request or closed stream
    | Abort(taken: nat)             // the event task is cancelled, perhaps inside a write

  function Next(s: ServerState, a: Act): ServerState {
    match a
    case Push(e) => if s.eventTask then s.(events := s.events + [e]) else s
    case EventTurn =>
      if s.eventTask && s.events != [] then
        s.(sink := AfterWrite(s.sink, s.events[0]), events := s.events[1..],
           eventTask := WriteResult(s.sink, s.events[0]).Ok?)
      else s
    case ResponseTurn(r) =>
      if s.responseLoop then
        s.(sink := AfterWrite(s.sink, r), responseLoop := WriteResult(s.sink, r).Ok?)
      else s
    case EndLoop => s.(responseLoop := false)
    case Abort(taken) =>
      if s.responseLoop || !s.eventTask then s
      else if s.events != [] && |s.events[0]| <= MAX_IPC_FRAME_BYTES && taken < |Frame(s.events[0])| then
        s.(sink := Accept(s.sink, Frame(s.events[0])[..taken]), eventTask := false)
      else s.(eventTask := false)
  }

  class ServerConnection {
    const writer: ByteSink
    var events: seq<Bytes>
    var eventTask: bool
    var responseLoop: bool

    constructor (writer: ByteSink)
      ensures this.writer == writer && State() == ServerState(writer.State(), [], true, true)
    {
      this.writer := writer;
      events, eventTask, responseLoop := [], true, true;
    }

    ghost function State(): ServerState
      reads this, writer
    {
      ServerState(writer.State(), events, eventTask, responseLoop)
    }

    method SendEvent(e: Bytes)
      modifies this
      ensures State() == Next(old(State()), Push(e))
    {
      if eventTask {
        events := events + [e];
      }
    }

    /** One turn of the event task, holding the writer lock for the whole frame. */
    method WriteEvent()
      modifies this, writer
      ensures State() == Next(old(State()), EventTurn)
    {
      if eventTask && events != [] {
        var e := events[0];
        events := events[1..];
        var r := WriteFrame(writer, e);
        eventTask := r.Ok?;
      }
    }

    /** The end of one turn of the response loop. */
    method WriteResponse(response: Bytes)
      modifies this, writer
      ensures State() == Next(old(State()), ResponseTurn(response))
    {
      if responseLoop {
        var r := WriteFrame(writer, response);
        responseLoop := r.Ok?;
      }
    }
  }

  // --------------------------------------------------------------------------------- whole runs

  /** The server beside logs of what was pushed, answered and written whole. */
  datatype Traced = Traced(server: ServerState, log: seq<Entry>, pushed: seq<Bytes>, answered: seq<Bytes>)

  function Log(t: Traced, isEvent: bool, payload: Bytes): seq<Entry> {
    if WriteResult(t.server.sink, payload).Ok? then t.log + [Entry(isEvent, payload)] else t.log
  }

  function Step(t: Traced, a: Act): Traced {
    var s, s' := t.server, Next(t.server, a);
    match a
    case Push(e) => if s.eventTask then t.(server := s', pushed := t.pushed + [e]) else t
    case EventTurn =>
      if s.eventTask && s.events != [] then t.(server := s', log := Log(t, true, s.events[0])) else t
    case ResponseTurn(r) =>
      if s.responseLoop then t.(server := s', log := Log(t, false, r), answered := t.answered + [r]) else t
    case EndLoop => t.(server := s')
    case Abort(_) => t.(server := s')
  }

  function Start(room: nat): Traced {
    Traced(ServerState(SinkState([], room), [], true, true), [], [], [])
  }

  function Run(room: nat, acts: seq<Act>): Traced {
    if acts == [] then Start(room) else Step(Run(room, acts[..|acts| - 1]), acts[|acts| - 1])
  }

  function Payloads(log: seq<Entry>): (r: seq<Bytes>)
    ensures |r| == |log|
    ensures forall i :: 0 <= i < |log| ==> r[i] == log[i].payload
  {
    if log == [] then [] else Payloads(log[..|log| - 1]) + [log[|log| - 1].payload]
  }

  function Only(log: seq<Entry>, isEvent: bool): seq<Bytes> {
    if log == [] then []
    else
      var before, last := Only(log[..|log| - 1], isEvent), log[|log| - 1];
      if last.isEvent == isEvent then before + [last.payload] else before
  }

  /** Serialized JSON is never empty. */
  ghost predicate NonEmpty(a: Act) {
    match a
    case Push(e) => e != []
    case ResponseTurn(r) => r != []
    case _ => true
  }

  ghost predicate Tail(t: Traced, tail: Bytes) {
    && t.server.sink.written == Frames(Payloads(t.log)) + tail
    && Partial(tail)
    && (tail != [] ==> t.server.sink.room == 0 || !(t.server.eventTask || t.server.responseLoop))
  }

  ghost predicate StreamInv(t: Traced) {
    && AllFit(Payloads(t.log))
    && exists tail :: Tail(t, tail)
  }

  ghost predicate OrderInv(t: Traced) {
    && (forall i :: 0 <= i < |t.server.events| ==> t.server.events[i] != [])
    && (t.server.eventTask ==> Only(t.log, true) + t.server.events == t.pushed)
    && Only(t.log, true) <= t.pushed
    && (t.server.responseLoop ==> Only(t.log, false) == t.answered)
    && Only(t.log, false) <= t.answered
  }

  lemma {:induction false} AppendEntry(log: seq<Entry>, e: Entry)
    ensures Payloads(log + [e]) == Payloads(log) + [e.payload]
    ensures Only(log + [e], e.isEvent) == Only(log, e.isEvent) + [e.payload]
    ensures Only(log + [e], !e.isEvent) == Only(log, !e.isEvent)
  {
    assert (log + [e])[..|log|] == log;
  }

  lemma {:induction false} TornFrame(p: Bytes, n: nat)
    requires Fits(p) && n < |Frame(p)|
    ensures Partial(Frame(p)[..n])
  {
    hide Frame, Fits;
    var part := Frame(p)[..n];
    assert |part| == n;
    assert PartOf(part, p);
  }

  lemma {:induction false} AllFitAppend(payloads: seq<Bytes>, p: Bytes)
    requires AllFit(payloads) && Fits(p)
    ensures AllFit(payloads + [p])
  {}

  /** One frame written under the lock, by whichever task, keeps the shape of the stream. */
  lemma {:induction false} WriteKeepsTail(sink: SinkState, payloads: seq<Bytes>, tail: Bytes, p: Bytes)
    returns (tail': Bytes)
    requires sink.written == Frames(payloads) + tail && Partial(tail) && Fits(p)
    requires tail != [] ==> sink.room == 0
    ensures Partial(tail')
    ensures |Frame(p)| <= sink.room ==>
              tail' == [] && Accept(sink, Frame(p)).written == Frames(payloads + [p]) + tail'
    ensures |Frame(p)| > sink.room ==>
              Accept(sink, Frame(p)) == SinkState(Frames(payloads) + tail', 0)
  {
    FramesAppend(payloads, p);
    EmptyIsPartial();
    assert |Frame(p)| > 0;
    hide Frames, Frame, Partial, Fits;
    tail' := tail;
    if |Frame(p)| <= sink.room {
      assert Frames(payloads) + [] == Frames(payloads);
    } else if tail == [] {
      TornFrame(p, sink.room);
      tail' := Frame(p)[..sink.room];
    }
  }

  lemma {:induction false} WriteKeepsStream(t: Traced, isEvent: bool, p: Bytes, t': Traced)
    requires StreamInv(t) && p != [] && (t.server.eventTask || t.server.responseLoop)
    requires t'.log == Log(t, isEvent, p) && t'.server.sink == AfterWrite(t.server.sink, p)
    ensures StreamInv(t')
  {
    var tail :| Tail(t, tail);
    var s := t.server.sink;
    EmptyIsPartial();
    hide Partial, AllFit, Frames, Frame, Payloads;
    if |p| > MAX_IPC_FRAME_BYTES {
      assert Tail(t', tail);
    } else {
      var tail' := WriteKeepsTail(s, Payloads(t.log), tail, p);
      AppendEntry(t.log, Entry(isEvent, p));
      AllFitAppend(Payloads(t.log), p);
      assert Tail(t', tail');
    }
  }

  lemma {:induction false} AbortKeepsStream(t: Traced, taken: nat)
    requires StreamInv(t) && OrderInv(t)
    ensures StreamInv(Step(t, Abort(taken)))
  {
    hide Frames, Frame, Payloads, AllFit, Partial;
    var t', s := Step(t, Abort(taken)), t.server;
    var tail :| Tail(t, tail);
    if t'.server.sink != s.sink && tail == [] {
      var n := if taken <= s.sink.room then taken else s.sink.room;
      var tail' := Frame(s.events[0])[..n];
      TornFrame(s.events[0], n);
      assert Frame(s.events[0])[..taken][..n] == tail';
      assert Tail(t', tail');
    } else {
      assert t'.server.sink.written == s.sink.written + [];
      assert Tail(t', tail);
    }
  }

  lemma {:induction false} StepKeepsStream(t: Traced, a: Act)
    requires StreamInv(t) && OrderInv(t) && NonEmpty(a)
    ensures StreamInv(Step(t, a))
  {
    hide Payloads, AllFit, Partial, Frames;
    var t', s := Step(t, a), t.server;
    match a
    case Push(_) =>
      var tail :| Tail(t, tail);
      assert Tail(t', tail);
    case EventTurn =>
      if s.eventTask && s.events != [] {
        WriteKeepsStream(t, true, s.events[0], t');
      }
    case ResponseTurn(r) =>
      if s.responseLoop {
        WriteKeepsStream(t, false, r, t');
      }
    case EndLoop =>
      var tail :| Tail(t, tail);
      assert Tail(t', tail);
    case Abort(taken) =>
      AbortKeepsStream(t, taken);
  }

  lemma {:induction false} StepKeepsOrder(t: Traced, a: Act)
    requires OrderInv(t) && NonEmpty(a)
    ensures OrderInv(Step(t, a))
  {
    hide Only, Frame, Accept;
    var s := t.server;
    match a
    case Push(e) =>
      assert s.eventTask ==> Only(t.log, true) + (s.events + [e]) == t.pushed + [e];
    case EventTurn =>
      if s.eventTask && s.events != [] {
        AppendEntry(t.log, Entry(true, s.events[0]));
        assert Only(t.log, true) + [s.events[0]] + s.events[1..] == t.pushed;
      }
    case ResponseTurn(r) =>
      AppendEntry(t.log, Entry(false, r));
    case EndLoop =>
    case Abort(_) =>
  }

  lemma {:induction false} RunKeepsInv(room: nat, acts: seq<Act>)
    requires forall i :: 0 <= i < |acts| ==> NonEmpty(acts[i])
    ensures StreamInv(Run(room, acts)) && OrderInv(Run(room, acts))
  {
    if acts == [] {
      EmptyIsPartial();
      assert Tail(Start(room), []);
    } else {
      RunKeepsInv(room, acts[..|acts| - 1]);
      StepKeepsStream(Run(room, acts[..|acts| - 1]), acts[|acts| - 1]);
      StepKeepsOrder(Run(room, acts[..|acts| - 1]), acts[|acts| - 1]);
    }
  }

  /** In every run the bytes that got through are whole frames and at most one torn frame at the
      end, so a client reads back exactly the frames that were written, in order; a client that has
      seen only some of the bytes reads a prefix of them. Events keep the order in which they were
      pushed, responses the order in which they were made. */
  lemma {:induction false} StreamIntegrity(room: nat, acts: seq<Act>, k: nat)
    requires forall i :: 0 <= i < |acts| ==> NonEmpty(acts[i])
    requires k <= |Run(room, acts).server.sink.written|
    ensures var t := Run(room, acts);
            && ReadAll(t.server.sink.written) == Payloads(t.log)
            && ReadAll(t.server.sink.written[..k]) <= Payloads(t.log)
            && Only(t.log, true) <= t.pushed
            && Only(t.log, false) <= t.answered
  {
    RunKeepsInv(room, acts);
    var t := Run(room, acts);
    var tail :| Tail(t, tail);
    ReadBack(Payloads(t.log), tail);
    PrefixReadsPrefix(Payloads(t.log), tail, k);
  }

  // ------------------------------------------------------------- nothing is lost unless something breaks

  /** What the handlers pushed, in order, and what the loop answered. */
  function Pushes(acts: seq<Act>): seq<Bytes> {
    if acts == [] then []
    else
      var before, a := Pushes(acts[..|acts| - 1]), acts[|acts| - 1];
      if a.Push? then before + [a.event] else before
  }

  function Responses(acts: seq<Act>): seq<Bytes> {
    if acts == [] then []
    else
      var before, a := Responses(acts[..|acts| - 1]), acts[|acts| - 1];
      if a.ResponseTurn? then before + [a.response] else before
  }

  /** Neither loop is ended from outside, and every payload fits into a frame. */
  predicate Ordinary(a: Act) {
    match a
    case Push(e) => |e| <= MAX_IPC_FRAME_BYTES
    case EventTurn => true
    case ResponseTurn(r) => |r| <= MAX_IPC_FRAME_BYTES
    case EndLoop => false
    case Abort(_) => false
  }

  function Cost(acts: seq<Act>): nat {
    if acts == [] then 0
    else
      var before, a := Cost(acts[..|acts| - 1]), acts[|acts| - 1];
      if a.Push? then before + |Frame(a.event)| else if a.ResponseTurn? then before + |Frame(a.response)| else before
  }

  function Queued(events: seq<Bytes>): nat {
    if events == [] then 0 else |Frame(events[0])| + Queued(events[1..])
  }

  lemma {:induction false} QueuedAppend(events: seq<Bytes>, e: Bytes)
    ensures Queued(events + [e]) == Queued(events) + |Frame(e)|
  {
    hide Frame;
    if events == [] {
      assert events + [e] == [e];
    } else {
      assert (events + [e])[1..] == events[1..] + [e];
      QueuedAppend(events[1..], e);
    }
  }

  ghost predicate Unbroken(t: Traced, room: nat, acts: seq<Act>) {
    var s := t.server;
    && s.eventTask && s.responseLoop
    && s.sink.room + Cost(acts) == room + Queued(s.events)
    && (forall i :: 0 <= i < |s.events| ==> |s.events[i]| <= MAX_IPC_FRAME_BYTES)
    && t.pushed == Pushes(acts) && t.answered == Responses(acts)
    && Only(t.log, true) + s.events == t.pushed
    && Only(t.log, false) == t.answered
  }

  /** A frame that there is room for is written whole. */
  lemma {:induction false} WriteFits(sink: SinkState, p: Bytes)
    requires |p| <= MAX_IPC_FRAME_BYTES && |Frame(p)| <= sink.room
    ensures WriteResult(sink, p) == Ok(()) && AfterWrite(sink, p) == SinkState(sink.written + Frame(p), sink.room - |Frame(p)|)
  {
    hide Frame;
  }

  lemma {:induction false} PushUnbroken(t: Traced, room: nat, before: seq<Act>, a: Act)
    requires Unbroken(t, room, before) && Ordinary(a) && a.Push?
    ensures Unbroken(Step(t, a), room, before + [a])
  {
    hide Frame, Only, Cost, Pushes, Responses, Queued;
    CostOf(before, a);
    QueuedAppend(t.server.events, a.event);
    assert Only(t.log, true) + (t.server.events + [a.event]) == t.pushed + [a.event];
  }

  lemma {:induction false} EventUnbroken(t: Traced, room: nat, before: seq<Act>, a: Act)
    requires Unbroken(t, room, before) && a.EventTurn? && Cost(before) <= room
    ensures Unbroken(Step(t, a), room, before + [a])
  {
    hide Frame, Only, Cost, Pushes, Responses;
    CostOf(before, a);
    var events := t.server.events;
    if events != [] {
      assert Queued(events) == |Frame(events[0])| + Queued(events[1..]);
      WriteFits(t.server.sink, events[0]);
      hide Queued, AfterWrite, WriteResult;
      AppendEntry(t.log, Entry(true, events[0]));
      assert Only(t.log, true) + [events[0]] + events[1..] == t.pushed;
    }
  }

  lemma {:induction false} ResponseUnbroken(t: Traced, room: nat, before: seq<Act>, a: Act)
    requires Unbroken(t, room, before) && Ordinary(a) && a.ResponseTurn? && Cost(before + [a]) <= room
    ensures Unbroken(Step(t, a), room, before + [a])
  {
    hide Frame, Only, Cost, Pushes, Responses, Queued;
    CostOf(before, a);
    WriteFits(t.server.sink, a.response);
    hide AfterWrite, WriteResult;
    AppendEntry(t.log, Entry(false, a.response));
  }

  lemma {:induction false} UnbrokenStep(t: Traced, room: nat, before: seq<Act>, a: Act)
    requires Unbroken(t, room, before) && Ordinary(a) && Cost(before + [a]) <= room
    ensures Unbroken(Step(t, a), room, before + [a])
  {
    CostOf(before, a);
    hide Unbroken, Step, Cost, Frame, Pushes, Responses;
    match a
    case Push(_) => PushUnbroken(t, room, before, a);
    case EventTurn => EventUnbroken(t, room, before, a);
    case ResponseTurn(_) => ResponseUnbroken(t, room, before, a);
  }

  lemma {:induction false} CostOf(before: seq<Act>, a: Act)
    ensures Cost(before + [a]) == Cost(before) +
              (if a.Push? then |Frame(a.event)| else if a.ResponseTurn? then |Frame(a.response)| else 0)
    ensures Pushes(before + [a]) == Pushes(before) + (if a.Push? then [a.event] else [])
    ensures Responses(before + [a]) == Responses(before) + (if a.ResponseTurn? then [a.response] else [])
  {
    hide Frame;
    assert (before + [a])[..|before|] == before;
  }

  /** While the connection takes all bytes and neither loop is ended: every response made has been
      written, and every event pushed has been written or waits in the queue, in order. */
  lemma {:induction false} NothingLost(room: nat, acts: seq<Act>)
    requires forall i :: 0 <= i < |acts| ==> Ordinary(acts[i])
    requires Cost(acts) <= room
    ensures Unbroken(Run(room, acts), room, acts)
  {
    hide Frame;
    if acts != [] {
      var before, a := acts[..|acts| - 1], acts[|acts| - 1];
      CostOf(before, a);
      assert before + [a] == acts;
      NothingLost(room, before);
      hide Step, Unbroken;
      UnbrokenStep(Run(room, before), room, before, a);
    }
  }

  /** A turn of the event task writes the oldest event pushed, if there is room for its frame. */
  lemma {:induction false} EventTurnWrites(t: Traced)
    requires t.server.eventTask && t.server.events != []
    requires |t.server.events[0]| <= MAX_IPC_FRAME_BYTES && |Frame(t.server.events[0])| <= t.server.sink.room
    ensures var t' := Step(t, EventTurn);
            && t'.server.events == t.server.events[1..] && t'.log == t.log + [Entry(true, t.server.events[0])]
            && t'.server.sink.written == t.server.sink.written + Frame(t.server.events[0])
  {
    WriteFits(t.server.sink, t.server.events[0]);
    hide Frame, AfterWrite, WriteResult;
  }
}
