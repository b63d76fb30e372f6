/** Both ends of an IPC connection together: what the server's two tasks write is what the client's
    reader parses, frame by frame, as the bytes arrive. JSON is any function from payloads to frames. */
module IpcPath {
  import opened Basics
  import opened Framing
  import IpcServer
  import IpcClient

  type Parse = Bytes -> IpcClient.ServerFrame

  /** `consumed` counts the bytes that the client's reader has taken off the stream, `frames` the frames
      it has made of them. */
  datatype Path = Path(server: IpcServer.Traced, client: IpcClient.ClientState, consumed: nat, frames: nat)

  datatype Act =
    | AtServer(a: IpcServer.Act)
    | AtClient(b: IpcClient.Act)    // anything but a frame handed to the reader
    | ReadNext(arrived: nat)        // the reader tries for a frame with this many bytes arrived in all

  function Written(w: Path): Bytes {
    w.server.server.sink.written
  }

  function Next(parse: Parse, w: Path, a: Act): Path {
    match a
    case AtServer(a) => w.(server := IpcServer.Step(w.server, a))
    case AtClient(b) => if b.Receive? then w else w.(client := IpcClient.Next(w.client, b))
    case ReadNext(arrived) =>
      if !w.client.reading || !(w.consumed <= arrived <= |Written(w)|) then w
      else
        var (r, rest) := ReadOne(Written(w)[w.consumed..arrived]);
        if r.Err? || |rest| > arrived then w
        else w.(client := IpcClient.Next(w.client, IpcClient.Receive(parse(r.value))), consumed := arrived - |rest|, frames := w.frames + 1)
  }

  function Start(room: nat): Path {
    Path(IpcServer.Start(room), IpcClient.INITIAL, 0, 0)
  }

  function Run(parse: Parse, room: nat, acts: seq<Act>): Path {
    if acts == [] then Start(room) else Next(parse, Run(parse, room, acts[..|acts| - 1]), acts[|acts| - 1])
  }

  /** The events among some payloads. */
  function Events(parse: Parse, payloads: seq<Bytes>): seq<string> {
    if payloads == [] then []
    else
      var before, last := Events(parse, payloads[..|payloads| - 1]), parse(payloads[|payloads| - 1]);
      if last.IsEvent? then before + [last.event] else before
  }

  ghost predicate NonEmpty(a: Act) {
    a.AtServer? ==> IpcServer.NonEmpty(a.a)
  }

  // ----------------------------------------------------------------------- frame by frame

  lemma {:induction false} FramesSplit(payloads: seq<Bytes>, n: nat)
    requires n <= |payloads|
    ensures Frames(payloads) == Frames(payloads[..n]) + Frames(payloads[n..])
  {
    hide Frame;
    if n == |payloads| {
      assert payloads[..n] == payloads;
      assert Frames(payloads[n..]) == [];
    } else {
      var last := |payloads| - 1;
      assert payloads == payloads[..last] + [payloads[last]];
      FramesSplit(payloads[..last], n);
      FramesAppend(payloads[..last], payloads[last]);
      FramesAppend(payloads[..last][n..], payloads[last]);
      assert payloads[..last][..n] == payloads[..n];
      assert payloads[..last][n..] + [payloads[last]] == payloads[n..];
    }
  }

  lemma {:induction false} FirstFrameReads(payloads: seq<Bytes>, tail: Bytes)
    requires AllFit(payloads) && payloads != []
    ensures var stream := Frames(payloads) + tail; ReadOne(stream[..|stream|]).0.Ok?
  {
    hide Frame, ReadOne;
    var stream := Frames(payloads) + tail;
    ReadOneFrame(payloads[0], Frames(payloads[1..]) + tail);
    assert stream[..|stream|] == Frame(payloads[0]) + (Frames(payloads[1..]) + tail);
  }

  /** Behind `n` whole frames a read gives the next payload, or an error while it has not all arrived. */
  lemma {:induction false} ReadsNextFrame(payloads: seq<Bytes>, tail: Bytes, n: nat, arrived: nat)
    requires AllFit(payloads) && Partial(tail) && n <= |payloads|
    requires |Frames(payloads[..n])| <= arrived <= |Frames(payloads) + tail|
    ensures var (r, rest) := ReadOne((Frames(payloads) + tail)[|Frames(payloads[..n])|..arrived]);
            && (r.Ok? ==> n < |payloads| && r.value == payloads[n] && |rest| <= arrived
                          && arrived - |rest| == |Frames(payloads[..n + 1])|)
            && (arrived == |Frames(payloads) + tail| ==> (r.Ok? <==> n < |payloads|))
  {
    hide Frame, ReadOne, Partial;
    var from, left := |Frames(payloads[..n])|, payloads[n..];
    FramesSplit(payloads, n);
    var stream := Frames(left) + tail;
    assert (Frames(payloads) + tail)[from..arrived] == stream[..arrived - from];
    assert AllFit(left);
    var m, tail' := CutStream(left, tail, arrived - from);
    if m == 0 {
      assert stream[..arrived - from] == tail';
      PartialGivesNothing(tail');
      if arrived == from + |stream| && n < |payloads| {
        FirstFrameReads(left, tail);
      }
    } else {
      var more := Frames(left[..m][1..]) + tail';
      assert stream[..arrived - from] == Frame(left[0]) + more;
      ReadOneFrame(left[0], more);
      FramesAppend(payloads[..n], payloads[n]);
      assert payloads[..n + 1] == payloads[..n] + [payloads[n]];
    }
  }

  // ------------------------------------------------------------------------------ the invariant

  /** The reader has taken as many frames as it counts off those that were written whole. */
  ghost predicate Took(parse: Parse, w: Path) {
    var payloads, n := IpcServer.Payloads(w.server.log), w.frames;
    && n <= |payloads|
    && w.consumed == |Frames(payloads[..n])|
    && w.client.events == Events(parse, payloads[..n])
    && forall c :: c in w.client.answered ==>
         exists i :: 0 <= i < n && parse(payloads[i]) == IpcClient.IsResponse(w.client.answered[c])
  }

  ghost predicate PathInv(parse: Parse, w: Path) {
    && IpcServer.StreamInv(w.server) && IpcServer.OrderInv(w.server)
    && Took(parse, w) && IpcClient.Inv(w.client)
  }

  lemma {:induction false} LogGrows(t: IpcServer.Traced, a: IpcServer.Act)
    ensures IpcServer.Payloads(t.log) <= IpcServer.Payloads(IpcServer.Step(t, a).log)
  {
    hide WriteResult, IpcServer.Next;
    var log' := IpcServer.Step(t, a).log;
    if log' != t.log {
      assert log'[..|log'| - 1] == t.log;
    }
  }

  lemma {:induction false} ServerKeepsPath(parse: Parse, w: Path, a: IpcServer.Act)
    requires PathInv(parse, w) && IpcServer.NonEmpty(a)
    ensures PathInv(parse, Next(parse, w, AtServer(a)))
  {
    hide IpcServer.Step, IpcServer.StreamInv, IpcServer.OrderInv, Frames, Events;
    IpcServer.StepKeepsStream(w.server, a);
    IpcServer.StepKeepsOrder(w.server, a);
    LogGrows(w.server, a);
    var n := w.frames;
    var before, after := IpcServer.Payloads(w.server.log), IpcServer.Payloads(IpcServer.Step(w.server, a).log);
    assert after[..n] == before[..n];
  }

  lemma {:induction false} ClientKeepsPath(parse: Parse, w: Path, b: IpcClient.Act)
    requires PathInv(parse, w)
    ensures PathInv(parse, Next(parse, w, AtClient(b)))
  {
    hide IpcServer.StreamInv, IpcServer.OrderInv, Frames, Events;
    var n := w.frames;
    if !b.Receive? { IpcClient.NextKeepsInv(w.client, b); }
    hide IpcClient.Inv;
  }

  /** What a frame does to a client that still reads. */
  lemma {:induction false} Receives(s: IpcClient.ClientState, frame: IpcClient.ServerFrame)
    requires s.reading
    ensures var s' := IpcClient.Next(s, IpcClient.Receive(frame));
            && s'.events == (if frame.IsEvent? then s.events + [frame.event] else s.events)
            && forall c :: c in s'.answered ==>
                 (c in s.answered && s'.answered[c] == s.answered[c]) || frame == IpcClient.IsResponse(s'.answered[c])
  {}

  lemma {:induction false} TakesNext(parse: Parse, w: Path, w': Path)
    requires Took(parse, w) && w.frames < |w.server.log| && w.client.reading && w'.server == w.server
    requires w'.frames == w.frames + 1 && w'.consumed == |Frames(IpcServer.Payloads(w.server.log)[..w'.frames])|
    requires w'.client == IpcClient.Next(w.client, IpcClient.Receive(parse(IpcServer.Payloads(w.server.log)[w.frames])))
    ensures Took(parse, w')
  {
    var payloads, n := IpcServer.Payloads(w.server.log), w.frames;
    Receives(w.client, parse(payloads[n]));
    assert payloads[..n + 1][..n] == payloads[..n];
    hide IpcClient.Next, Frames;
  }

  /** What a read that gives a frame does. */
  lemma {:induction false} ReadStep(parse: Parse, w: Path, arrived: nat)
    requires Next(parse, w, ReadNext(arrived)) != w
    ensures var w' := Next(parse, w, ReadNext(arrived));
            && w.client.reading && w'.server == w.server && w'.frames == w.frames + 1 && w.consumed <= arrived <= |Written(w)|
            && var (r, rest) := ReadOne(Written(w)[w.consumed..arrived]);
               && r.Ok? && |rest| <= arrived && w'.consumed == arrived - |rest|
               && w'.client == IpcClient.Next(w.client, IpcClient.Receive(parse(r.value)))
  {
    hide IpcClient.Next;
  }

  /** The frame that a read gives is the next one that was written whole. */
  lemma {:induction false} ReadGives(parse: Parse, w: Path, arrived: nat)
    requires PathInv(parse, w) && Next(parse, w, ReadNext(arrived)) != w
    ensures var w' := Next(parse, w, ReadNext(arrived));
            && w.client.reading && w.frames < |w.server.log| && w'.frames == w.frames + 1 && w'.server == w.server
            && w'.consumed == |Frames(IpcServer.Payloads(w.server.log)[..w'.frames])|
            && w'.client == IpcClient.Next(w.client, IpcClient.Receive(parse(w.server.log[w.frames].payload)))
  {
    ReadStep(parse, w, arrived);
    hide Next, IpcServer.OrderInv, IpcClient.Inv, Frames, ReadOne, IpcClient.Next, Events;
    var payloads := IpcServer.Payloads(w.server.log);
    var tail :| IpcServer.Tail(w.server, tail);
    ReadsNextFrame(payloads, tail, w.frames, arrived);
  }

  lemma {:induction false} ReadKeepsPath(parse: Parse, w: Path, arrived: nat)
    requires PathInv(parse, w)
    ensures PathInv(parse, Next(parse, w, ReadNext(arrived)))
  {
    var w' := Next(parse, w, ReadNext(arrived));
    if w' != w {
      hide Next, IpcServer.OrderInv, IpcServer.StreamInv, IpcClient.Inv, Frames, IpcClient.Next, Events, Took;
      ReadGives(parse, w, arrived);
      var payload := w.server.log[w.frames].payload;
      IpcClient.NextKeepsInv(w.client, IpcClient.Receive(parse(payload)));
      assert IpcServer.Payloads(w.server.log)[w.frames] == payload;
      TakesNext(parse, w, w');
    }
  }

  lemma {:induction false} RunKeepsPath(parse: Parse, room: nat, acts: seq<Act>)
    requires forall i :: 0 <= i < |acts| ==> NonEmpty(acts[i])
    ensures PathInv(parse, Run(parse, room, acts))
  {
    if acts == [] {
      IpcServer.RunKeepsInv(room, []);
      IpcClient.RunKeepsInv([]);
      assert Took(parse, Start(room));
    } else {
      hide PathInv, Next;
      var before, a := acts[..|acts| - 1], acts[|acts| - 1];
      RunKeepsPath(parse, room, before);
      assert NonEmpty(a);
      match a
      case AtServer(s) => ServerKeepsPath(parse, Run(parse, room, before), s);
      case AtClient(b) => ClientKeepsPath(parse, Run(parse, room, before), b);
      case ReadNext(arrived) => ReadKeepsPath(parse, Run(parse, room, before), arrived);
    }
  }

  // ------------------------------------------------------------------------------- what it means

  /** Events and responses are told apart: pushed payloads parse as events, answers do not. */
  ghost predicate ToldApart(parse: Parse, t: IpcServer.Traced) {
    && (forall e :: e in t.pushed ==> parse(e).IsEvent?)
    && (forall r :: r in t.answered ==> !parse(r).IsEvent?)
  }

  lemma {:induction false} OnlyMember(log: seq<IpcServer.Entry>, e: IpcServer.Entry)
    requires e in log
    ensures e.payload in IpcServer.Only(log, e.isEvent)
  {
    var before, last := log[..|log| - 1], log[|log| - 1];
    assert log == before + [last];
    if e in before { OnlyMember(before, e); }
  }

  lemma {:induction false} EventsOfLog(parse: Parse, log: seq<IpcServer.Entry>)
    requires forall e :: e in log ==> (e.isEvent <==> parse(e.payload).IsEvent?)
    ensures Events(parse, IpcServer.Payloads(log)) == Events(parse, IpcServer.Only(log, true))
  {
    if log != [] {
      var before, last := log[..|log| - 1], log[|log| - 1];
      assert log == before + [last];
      EventsOfLog(parse, before);
      IpcServer.AppendEntry(before, last);
      var payloads := IpcServer.Payloads(log);
      assert payloads[..|payloads| - 1] == IpcServer.Payloads(before);
      if last.isEvent {
        var only := IpcServer.Only(log, true);
        assert only[..|only| - 1] == IpcServer.Only(before, true);
      }
    }
  }

  lemma {:induction false} EventsPrefix(parse: Parse, a: seq<Bytes>, b: seq<Bytes>)
    requires a <= b
    ensures Events(parse, a) <= Events(parse, b)
  {
    if a != b {
      var shorter := b[..|b| - 1];
      assert a <= shorter;
      EventsPrefix(parse, a, shorter);
    } else {
      assert Events(parse, a) == Events(parse, b);
    }
  }

  lemma {:induction false} LogToldApart(parse: Parse, t: IpcServer.Traced)
    requires IpcServer.OrderInv(t) && ToldApart(parse, t)
    ensures forall e :: e in t.log ==> (e.isEvent <==> parse(e.payload).IsEvent?)
  {
    forall e | e in t.log ensures e.isEvent <==> parse(e.payload).IsEvent? {
      OnlyMember(t.log, e);
      var only := IpcServer.Only(t.log, e.isEvent);
      var k :| 0 <= k < |only| && only[k] == e.payload;
      if e.isEvent { assert t.pushed[k] == e.payload; } else { assert t.answered[k] == e.payload; }
    }
  }

  /** In every interleaving of both ends, with the bytes arriving in any pieces and the connection
      breaking anywhere: the events the client has been given are a prefix of those pushed at the
      server, in the order in which they were pushed; and a reader that has nothing left to read has
      been given every event whose frame was written whole. */
  lemma {:induction false} EventsArriveAsPushed(parse: Parse, room: nat, acts: seq<Act>)
    requires forall i :: 0 <= i < |acts| ==> NonEmpty(acts[i])
    requires ToldApart(parse, Run(parse, room, acts).server)
    ensures var w := Run(parse, room, acts);
            && w.client.events <= Events(parse, w.server.pushed)
            && (w.consumed <= |Written(w)| && ReadOne(Written(w)[w.consumed..]).0.Err? ==>
                  w.client.events == Events(parse, IpcServer.Only(w.server.log, true)))
  {
    RunKeepsPath(parse, room, acts);
    hide Run;
    EventsAsPushed(parse, Run(parse, room, acts));
  }

  lemma {:induction false} EventsAsPushed(parse: Parse, w: Path)
    requires PathInv(parse, w) && ToldApart(parse, w.server)
    ensures w.client.events <= Events(parse, w.server.pushed)
    ensures w.consumed <= |Written(w)| && ReadOne(Written(w)[w.consumed..]).0.Err? ==>
              w.client.events == Events(parse, IpcServer.Only(w.server.log, true))
  {
    hide Events, ReadOne, Frames;
    var n := w.frames;
    var log, payloads := w.server.log, IpcServer.Payloads(w.server.log);
    LogToldApart(parse, w.server);
    EventsOfLog(parse, log);
    EventsPrefix(parse, payloads[..n], payloads);
    EventsPrefix(parse, IpcServer.Only(log, true), w.server.pushed);
    if w.consumed <= |Written(w)| && ReadOne(Written(w)[w.consumed..]).0.Err? {
      var tail :| IpcServer.Tail(w.server, tail);
      hide IpcServer.Payloads, IpcServer.Only, ToldApart;
      ReadsNextFrame(payloads, tail, n, |Written(w)|);
      assert Written(w)[w.consumed..|Written(w)|] == Written(w)[w.consumed..];
      assert payloads[..|payloads|] == payloads;
    }
  }

  lemma {:induction false} PayloadOf(log: seq<IpcServer.Entry>, i: nat)
    requires i < |log|
    ensures IpcServer.Payloads(log)[i] == log[i].payload && log[i] in log
  {}

  /** Every answer a call gets is a response that the server made. */
  lemma {:induction false} AnswersWereMade(parse: Parse, room: nat, acts: seq<Act>, c: nat)
    requires forall i :: 0 <= i < |acts| ==> NonEmpty(acts[i])
    requires ToldApart(parse, Run(parse, room, acts).server)
    requires c in Run(parse, room, acts).client.answered
    ensures var w := Run(parse, room, acts);
            exists r :: r in w.server.answered && parse(r) == IpcClient.IsResponse(w.client.answered[c])
  {
    RunKeepsPath(parse, room, acts);
    hide Run;
    AnswerWasMade(parse, Run(parse, room, acts), c);
  }

  lemma {:induction false} AnswerWasMade(parse: Parse, w: Path, c: nat)
    requires PathInv(parse, w) && ToldApart(parse, w.server) && c in w.client.answered
    ensures exists r :: r in w.server.answered && parse(r) == IpcClient.IsResponse(w.client.answered[c])
  {
    hide Events, Frames, IpcServer.StreamInv;
    var n := w.frames;
    var log, payloads := w.server.log, IpcServer.Payloads(w.server.log);
    var i :| 0 <= i < n && parse(payloads[i]) == IpcClient.IsResponse(w.client.answered[c]);
    LogToldApart(parse, w.server);
    PayloadOf(log, i);
    OnlyMember(log, log[i]);
    var only := IpcServer.Only(log, false);
    hide IpcServer.Only, IpcServer.Payloads, ToldApart;
    var k :| 0 <= k < |only| && only[k] == log[i].payload;
    assert w.server.answered[k] == log[i].payload;
  }

  // ------------------------------------------------------------------ no response is left behind

  ghost predicate RespondsTo(parse: Parse, payload: Bytes, id: Uuid) {
    parse(payload).IsResponse? && parse(payload).response.id == id
  }

  /** Call `c` has been taken by the writer loop, and if it still waits under `id`, no frame read from the
      `first`-th on was a response with that id. */
  ghost predicate StillUnanswered(parse: Parse, w: Path, id: Uuid, c: nat, first: nat) {
    && c < |w.client.issued| && c !in w.client.queue
    && (id in w.client.pending && w.client.pending[id] == c ==>
          forall j :: first <= j < w.frames && j < |w.server.log| ==> !RespondsTo(parse, w.server.log[j].payload, id))
  }

  lemma {:induction false} ClientMoves(s: IpcClient.ClientState, b: IpcClient.Act, id: Uuid, c: nat)
    requires c < |s.issued| && c !in s.queue
    ensures var s' := IpcClient.Next(s, b);
            && c < |s'.issued| && c !in s'.queue
            && (id in s'.pending && s'.pending[id] == c ==> id in s.pending && s.pending[id] == c && !IpcClient.Clears(s, b, id))
  {
    IpcClient.PendingAfter(s, b, id, c);
    if s.queue != [] { assert s.queue == [s.queue[0]] + s.queue[1..]; }
    hide IpcClient.Clears, IpcClient.Stopped, IpcClient.Register;
    ClientQueue(s, b);
  }

  lemma {:induction false} ClientQueue(s: IpcClient.ClientState, b: IpcClient.Act)
    ensures var s' := IpcClient.Next(s, b);
            && |s'.issued| >= |s.issued|
            && forall c :: c in s'.queue ==> c in s.queue || c == |s.issued|
  {
    if s.queue != [] { assert s.queue == [s.queue[0]] + s.queue[1..]; }
  }

  lemma {:induction false} LogKeepsEntries(t: IpcServer.Traced, a: IpcServer.Act)
    ensures |IpcServer.Step(t, a).log| >= |t.log|
    ensures forall j :: 0 <= j < |t.log| ==> IpcServer.Step(t, a).log[j] == t.log[j]
  {
    hide WriteResult, IpcServer.Next;
  }

  lemma {:induction false} NextKeepsUnanswered(parse: Parse, w: Path, a: Act, id: Uuid, c: nat, first: nat)
    requires PathInv(parse, w) && StillUnanswered(parse, w, id, c, first)
    ensures StillUnanswered(parse, Next(parse, w, a), id, c, first)
  {
    hide IpcServer.StreamInv, IpcServer.OrderInv, IpcClient.Inv, IpcClient.Next, Frames, Events, IpcServer.Step, ReadOne;
    match a
    case AtServer(s) =>
      assert w.frames <= |w.server.log|;
      LogKeepsEntries(w.server, s);
    case AtClient(b) =>
      if !b.Receive? { ClientMoves(w.client, b, id, c); }
    case ReadNext(arrived) =>
      if Next(parse, w, a) != w {
        ReadGives(parse, w, arrived);
        var b := IpcClient.Receive(parse(w.server.log[w.frames].payload));
        ClientMoves(w.client, b, id, c);
        assert RespondsTo(parse, w.server.log[w.frames].payload, id) ==> IpcClient.Clears(w.client, b, id);
      }
  }

  lemma {:induction false} UnansweredSince(parse: Parse, room: nat, acts: seq<Act>, i: nat, id: Uuid, c: nat)
    requires forall k :: 0 <= k < |acts| ==> NonEmpty(acts[k])
    requires i < |acts| && acts[i].AtClient? && !acts[i].b.Receive?
    requires IpcClient.Registers(Run(parse, room, acts[..i]).client, acts[i].b, id, c)
    ensures StillUnanswered(parse, Run(parse, room, acts), id, c, |Run(parse, room, acts[..i]).server.log|)
  {
    hide Next, PathInv, StillUnanswered, IpcClient.Registers;
    var before, n := acts[..|acts| - 1], |acts| - 1;
    RunKeepsPath(parse, room, before);
    if i == n {
      assert acts[n] == AtClient(acts[n].b);
      RegisteredNow(parse, Run(parse, room, before), acts[n].b, id, c);
    } else {
      assert before[..i] == acts[..i];
      UnansweredSince(parse, room, before, i, id, c);
      NextKeepsUnanswered(parse, Run(parse, room, before), acts[n], id, c, |Run(parse, room, acts[..i]).server.log|);
    }
  }

  lemma {:induction false} RegisteredNow(parse: Parse, w: Path, b: IpcClient.Act, id: Uuid, c: nat)
    requires PathInv(parse, w) && !b.Receive? && IpcClient.Registers(w.client, b, id, c)
    ensures StillUnanswered(parse, Next(parse, w, AtClient(b)), id, c, |w.server.log|)
  {
    hide IpcServer.StreamInv, IpcServer.OrderInv, Frames, Events, IpcClient.Places;
    assert w.frames <= |w.server.log|;
  }

  /** A reader with nothing left to read has left no call waiting whose response was written whole after
      the call was registered: such a call is answered, or was disconnected. */
  lemma {:induction false} NoResponseLeftBehind(parse: Parse, room: nat, acts: seq<Act>, i: nat, id: Uuid, c: nat, j: nat)
    requires forall k :: 0 <= k < |acts| ==> NonEmpty(acts[k])
    requires i < |acts| && acts[i].AtClient? && !acts[i].b.Receive?
    requires IpcClient.Registers(Run(parse, room, acts[..i]).client, acts[i].b, id, c)
    requires var w := Run(parse, room, acts);
             && w.consumed <= |Written(w)| && ReadOne(Written(w)[w.consumed..]).0.Err?
             && |Run(parse, room, acts[..i]).server.log| <= j < |w.server.log| && RespondsTo(parse, w.server.log[j].payload, id)
    ensures var s := Run(parse, room, acts).client;
            && !(id in s.pending && s.pending[id] == c)
            && (c in s.answered || c in s.disconnected)
  {
    UnansweredSince(parse, room, acts, i, id, c);
    RunKeepsPath(parse, room, acts);
    hide Run;
    var w := Run(parse, room, acts);
    AllFramesTaken(parse, w);
    SameIdAlways(parse, room, acts, i, c);
    WaitsNowhere(w.client, id, c);
  }

  lemma {:induction false} AllFramesTaken(parse: Parse, w: Path)
    requires PathInv(parse, w) && w.consumed <= |Written(w)| && ReadOne(Written(w)[w.consumed..]).0.Err?
    ensures w.frames == |w.server.log|
  {
    hide IpcServer.OrderInv, IpcClient.Inv, Frames, ReadOne, Events;
    var payloads := IpcServer.Payloads(w.server.log);
    var tail :| IpcServer.Tail(w.server, tail);
    ReadsNextFrame(payloads, tail, w.frames, |Written(w)|);
    assert Written(w)[w.consumed..|Written(w)|] == Written(w)[w.consumed..];
  }

  /** A call that is neither queued nor waiting under its own id has been answered or disconnected. */
  lemma {:induction false} WaitsNowhere(s: IpcClient.ClientState, id: Uuid, c: nat)
    requires IpcClient.Inv(s) && c < |s.issued| && s.issued[c] == id && c !in s.queue
    requires !(id in s.pending && s.pending[id] == c)
    ensures c in s.answered || c in s.disconnected
  {
    assert IpcClient.InOnePlace(s, c);
    assert !IpcClient.Queued(s, c);
    assert !IpcClient.Pending(s, c);
  }

  lemma {:induction false} IdsStay(parse: Parse, w: Path, a: Act, c: nat)
    requires c < |w.client.issued|
    ensures var s' := Next(parse, w, a).client; c < |s'.issued| && s'.issued[c] == w.client.issued[c]
  {
    hide ReadOne, IpcServer.Step;
  }

  lemma {:induction false} SameIdAlways(parse: Parse, room: nat, acts: seq<Act>, i: nat, c: nat)
    requires i <= |acts| && c < |Run(parse, room, acts[..i]).client.issued|
    ensures var s, s' := Run(parse, room, acts[..i]).client, Run(parse, room, acts).client;
            c < |s'.issued| && s'.issued[c] == s.issued[c]
  {
    if i == |acts| {
      assert acts[..i] == acts;
    } else {
      hide Next;
      var before := acts[..|acts| - 1];
      assert before[..i] == acts[..i];
      SameIdAlways(parse, room, before, i, c);
      IdsStay(parse, Run(parse, room, before), acts[|acts| - 1], c);
    }
  }

  /** A client that reads gets on: with all bytes arrived it takes the next frame that was written whole,
      if there is one. */
  lemma {:induction false} ReadGetsOn(parse: Parse, room: nat, acts: seq<Act>)
    requires forall i :: 0 <= i < |acts| ==> NonEmpty(acts[i])
    requires var w := Run(parse, room, acts); w.client.reading && w.frames < |w.server.log|
    ensures var w := Run(parse, room, acts); Next(parse, w, ReadNext(|Written(w)|)).frames == w.frames + 1
  {
    RunKeepsPath(parse, room, acts);
    hide Run;
    ReadGetsOnAt(parse, Run(parse, room, acts));
  }

  lemma {:induction false} ReadGetsOnAt(parse: Parse, w: Path)
    requires PathInv(parse, w) && w.client.reading && w.frames < |w.server.log|
    ensures Next(parse, w, ReadNext(|Written(w)|)).frames == w.frames + 1
  {
    hide IpcServer.OrderInv, IpcClient.Inv, IpcClient.Next, Frames, ReadOne, Events;
    var payloads := IpcServer.Payloads(w.server.log);
    var tail :| IpcServer.Tail(w.server, tail);
    ConsumedInRange(payloads, tail, w.frames);
    ReadsNextFrame(payloads, tail, w.frames, |Written(w)|);
  }

  lemma {:induction false} ConsumedInRange(payloads: seq<Bytes>, tail: Bytes, n: nat)
    requires n <= |payloads|
    ensures |Frames(payloads[..n])| <= |Frames(payloads) + tail|
  {
    FramesSplit(payloads, n);
    hide Frames;
  }
}
