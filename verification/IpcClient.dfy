/** The client end of an IPC connection: a writer loop that registers and sends queued calls, and a
    reader loop that hands each response to the call registered under its id. */
module IpcClient {
  import opened Basics

  datatype Response = Response(id: Uuid, payload: string)

  datatype ServerFrame = IsResponse(response: Response) | IsEvent(event: string) | Malformed

  /** A call is named by its number in order of issue. */
  datatype ClientState = ClientState(
    issued: seq<Uuid>,               // the request id of each call
    queue: seq<nat>,                 // sent to the writer loop, not yet taken by it
    pending: map<Uuid, nat>,
    answered: map<nat, Response>,
    disconnected: set<nat>,
    events: seq<string>,             // delivered to the event channel
    writing: bool,
    reading: bool)

  datatype Act =
    | Call(id: Uuid)
    | WriteNext(ok: bool)
    | Receive(frame: ServerFrame)
    | ReadFails
    | Close                          // every client handle is gone and the queue is drained

  /** The writer loop ends: the reader is aborted and every sender still held is dropped. */
  function Stopped(s: ClientState): ClientState {
    s.(queue := [], pending := map[], writing := false, reading := false,
       disconnected := s.disconnected + (set c | c in s.queue) + s.pending.Values)
  }

  function Register(s: ClientState, c: nat): ClientState
    requires c < |s.issued|
  {
    var id := s.issued[c];
    s.(pending := s.pending[id := c],
       disconnected := if id in s.pending then s.disconnected + {s.pending[id]} else s.disconnected)
  }

  function Next(s: ClientState, a: Act): ClientState {
    match a
    case Call(id) =>
      var c := |s.issued|;
      if s.writing then s.(issued := s.issued + [id], queue := s.queue + [c])
      else s.(issued := s.issued + [id], disconnected := s.disconnected + {c})
    case WriteNext(ok) =>
      if s.writing && s.queue != [] && s.queue[0] < |s.issued| then
        var s' := Register(s.(queue := s.queue[1..]), s.queue[0]);
        if ok then s' else Stopped(s')
      else s
    case Receive(frame) =>
      if !s.reading then s
      else
        (match frame
         case IsResponse(r) =>
           if r.id in s.pending then s.(pending := s.pending - {r.id}, answered := s.answered[s.pending[r.id] := r]) else s
         case IsEvent(e) => s.(events := s.events + [e])
         case Malformed => s)
    case ReadFails => s.(reading := false)
    case Close => if s.queue == [] then Stopped(s) else s
  }

  const INITIAL: ClientState := ClientState([], [], map[], map[], {}, [], true, true)

  function Run(acts: seq<Act>): ClientState {
    if acts == [] then INITIAL else Next(Run(acts[..|acts| - 1]), acts[|acts| - 1])
  }

  class IpcClientTasks {
    var issued: seq<Uuid>
    var queue: seq<nat>
    var pending: map<Uuid, nat>
    var answered: map<nat, Response>
    var disconnected: set<nat>
    var events: seq<string>
    var writing: bool
    var reading: bool

    constructor ()
      ensures State() == INITIAL
    {
      issued, queue, pending, answered, disconnected, events := [], [], map[], map[], {}, [];
      writing, reading := true, true;
    }

    ghost function State(): ClientState
      reads this
    {
      ClientState(issued, queue, pending, answered, disconnected, events, writing, reading)
    }

    method Issue(id: Uuid)
      modifies this
      ensures State() == Next(old(State()), Call(id))
    {
      var c := |issued|;
      issued := issued + [id];
      if writing {
        queue := queue + [c];
      } else {
        disconnected := disconnected + {c};
      }
    }

    /** One turn of the writer loop; `ok` is whether the stream took the frame. */
    method WriteTurn(ok: bool)
      modifies this
      ensures State() == Next(old(State()), WriteNext(ok))
    {
      if !writing || queue == [] || queue[0] >= |issued| {
        return;
      }
      var c := queue[0];
      queue := queue[1..];
      var id := issued[c];
      if id in pending {
        disconnected := disconnected + {pending[id]};
      }
      pending := pending[id := c];
      if !ok {
        writing, reading := false, false;
        disconnected := disconnected + (set q | q in queue) + pending.Values;
        queue, pending := [], map[];
      }
    }

    /** One turn of the reader loop. */
    method ReadTurn(frame: ServerFrame)
      modifies this
      ensures State() == Next(old(State()), Receive(frame))
    {
      if !reading {
        return;
      }
      match frame {
        case IsResponse(r) =>
          if r.id in pending {
            answered := answered[pending[r.id] := r];
            pending := pending - {r.id};
          }
        case IsEvent(e) =>
          events := events + [e];
        case Malformed =>
      }
    }
  }

  // ---------------------------------------------------------------------------------- invariants

  ghost predicate Queued(s: ClientState, c: nat) { c in s.queue }

  ghost predicate Pending(s: ClientState, c: nat) { exists id :: id in s.pending && s.pending[id] == c }

  /** `c` is in exactly one of the four places. */
  ghost predicate InOnePlace(s: ClientState, c: nat) {
    && (Queued(s, c) || Pending(s, c) || c in s.answered || c in s.disconnected)
    && !(Queued(s, c) && Pending(s, c))
    && !(Queued(s, c) && c in s.answered)
    && !(Queued(s, c) && c in s.disconnected)
    && !(Pending(s, c) && c in s.answered)
    && !(Pending(s, c) && c in s.disconnected)
    && !(c in s.answered && c in s.disconnected)
  }

  ghost predicate Places(s: ClientState) {
    forall c: nat :: if c < |s.issued| then InOnePlace(s, c)
                     else !Queued(s, c) && !Pending(s, c) && c !in s.answered && c !in s.disconnected
  }

  ghost predicate OwnIds(s: ClientState) {
    && (forall id :: id in s.pending ==> s.pending[id] < |s.issued| && s.issued[s.pending[id]] == id)
    && (forall c :: c in s.answered ==> c < |s.issued| && s.answered[c].id == s.issued[c])
    && (forall i, j :: 0 <= i < j < |s.queue| ==> s.queue[i] != s.queue[j])
    && (!s.writing ==> s.queue == [] && s.pending == map[])
  }

  ghost predicate Inv(s: ClientState) {
    Places(s) && OwnIds(s)
  }

  lemma {:induction false} StoppedKeepsInv(s: ClientState)
    requires Inv(s)
    ensures Inv(Stopped(s))
  {
    var s' := Stopped(s);
    forall c: nat ensures if c < |s'.issued| then InOnePlace(s', c)
                          else !Queued(s', c) && !Pending(s', c) && c !in s'.answered && c !in s'.disconnected
    {
      assert c in s'.disconnected <==> c in s.disconnected || Queued(s, c) || Pending(s, c);
    }
  }

  lemma {:induction false} RegisterKeepsInv(s: ClientState)
    requires Inv(s) && s.writing && s.queue != [] && s.queue[0] < |s.issued|
    ensures Inv(Register(s.(queue := s.queue[1..]), s.queue[0]))
  {
    var q := s.queue[0];
    var s' := Register(s.(queue := s.queue[1..]), q);
    var id := s.issued[q];
    assert s.queue == [q] + s.queue[1..];
    forall c: nat ensures if c < |s'.issued| then InOnePlace(s', c)
                          else !Queued(s', c) && !Pending(s', c) && c !in s'.answered && c !in s'.disconnected
    {
      assert Queued(s, c) <==> c == q || Queued(s', c);
      assert q !in s.queue[1..];
      if c == q {
        assert s'.pending[id] == c;
        assert Pending(s', c);
      } else if Pending(s, c) {
        var other :| other in s.pending && s.pending[other] == c;
        assert other != id ==> s'.pending[other] == c;
      }
    }
  }

  lemma {:induction false} AnswerKeepsInv(s: ClientState, r: Response)
    requires Inv(s) && r.id in s.pending
    ensures Inv(s.(pending := s.pending - {r.id}, answered := s.answered[s.pending[r.id] := r]))
  {
    var a := s.pending[r.id];
    var s' := s.(pending := s.pending - {r.id}, answered := s.answered[a := r]);
    assert Pending(s, a);
    forall c: nat ensures if c < |s'.issued| then InOnePlace(s', c)
                          else !Queued(s', c) && !Pending(s', c) && c !in s'.answered && c !in s'.disconnected
    {
      if c != a && Pending(s, c) {
        var other :| other in s.pending && s.pending[other] == c;
        assert other in s'.pending && s'.pending[other] == c;
      }
    }
  }

  lemma {:induction false} CallKeepsInv(s: ClientState, id: Uuid)
    requires Inv(s)
    ensures Inv(Next(s, Call(id)))
  {
    var s' := Next(s, Call(id));
    forall c: nat ensures if c < |s'.issued| then InOnePlace(s', c)
                          else !Queued(s', c) && !Pending(s', c) && c !in s'.answered && c !in s'.disconnected
    {
      assert Pending(s', c) <==> Pending(s, c);
      assert Queued(s', c) <==> Queued(s, c) || (s.writing && c == |s.issued|);
      assert c < |s.issued| ==> InOnePlace(s, c);
    }
    forall i | 0 <= i < |s.queue| ensures s.queue[i] < |s.issued| {
      assert Queued(s, s.queue[i]);
    }
  }

  lemma {:induction false} NextKeepsInv(s: ClientState, a: Act)
    requires Inv(s)
    ensures Inv(Next(s, a))
  {
    hide Places, OwnIds;
    match a
    case Call(id) => CallKeepsInv(s, id);
    case WriteNext(ok) =>
      if s.writing && s.queue != [] && s.queue[0] < |s.issued| {
        RegisterKeepsInv(s);
        if !ok { StoppedKeepsInv(Register(s.(queue := s.queue[1..]), s.queue[0])); }
      }
    case Receive(frame) =>
      if s.reading && frame.IsResponse? && frame.response.id in s.pending {
        AnswerKeepsInv(s, frame.response);
      } else {
        SameCallsKeepInv(s, Next(s, a));
      }
    case ReadFails => SameCallsKeepInv(s, Next(s, a));
    case Close => if s.queue == [] { StoppedKeepsInv(s); }
  }

  lemma {:induction false} SameCallsKeepInv(s: ClientState, s': ClientState)
    requires Inv(s) && s'.(events := s.events, reading := s.reading) == s
    ensures Inv(s')
  {
    forall c: nat ensures Pending(s', c) <==> Pending(s, c) {}
  }

  lemma {:induction false} RunKeepsInv(acts: seq<Act>)
    ensures Inv(Run(acts))
  {
    if acts == [] {
      assert forall c :: !Pending(INITIAL, c);
    } else {
      RunKeepsInv(acts[..|acts| - 1]);
      NextKeepsInv(Run(acts[..|acts| - 1]), acts[|acts| - 1]);
    }
  }

  // ------------------------------------------------------------------------------- what it means

  /** In every run each issued call is in exactly one of queued, pending, answered, disconnected, an
      answer carries the id of its own request, and a registered call sits under its own id. No
      freshness of ids is needed: a repeated id disconnects the call it displaces. */
  lemma {:induction false} CallsArePartitioned(acts: seq<Act>)
    ensures var s := Run(acts);
            && (forall c: nat :: c < |s.issued| ==> InOnePlace(s, c))
            && (forall c :: c in s.answered ==> c < |s.issued| && s.answered[c].id == s.issued[c])
            && (forall id :: id in s.pending ==> s.pending[id] < |s.issued| && s.issued[s.pending[id]] == id)
  {
    RunKeepsInv(acts);
  }

  lemma {:induction false} AnswersStay(s: ClientState, a: Act, c: nat)
    requires Inv(s)
    ensures c in s.answered ==> c in Next(s, a).answered && Next(s, a).answered[c] == s.answered[c]
    ensures c in s.disconnected ==> c in Next(s, a).disconnected
  {
    if a.Receive? && a.frame.IsResponse? && a.frame.response.id in s.pending && c in s.answered {
      assert Pending(s, s.pending[a.frame.response.id]);
      assert InOnePlace(s, c);
    }
  }

  /** A call is settled once: whatever happens later, an answer is never replaced or withdrawn, and a
      disconnected call is never answered. */
  lemma {:induction false} SettledOnce(before: seq<Act>, after: seq<Act>, c: nat)
    ensures var s, s' := Run(before), Run(before + after);
            && (c in s.answered ==> c in s'.answered && s'.answered[c] == s.answered[c])
            && (c in s.disconnected ==> c in s'.disconnected && c !in s'.answered)
  {
    RunKeepsInv(before + after);
    if after == [] {
      assert before + after == before;
    } else {
      var init, last := before + after[..|after| - 1], after[|after| - 1];
      assert before + after == init + [last];
      assert (init + [last])[..|init|] == init;
      SettledOnce(before, after[..|after| - 1], c);
      RunKeepsInv(init);
      AnswersStay(Run(init), last, c);
    }
    var s' := Run(before + after);
    if c in s'.disconnected { assert InOnePlace(s', c); }
  }

  // --------------------------------------------------------- exactly when a call is where it is

  /** This step is a turn of the writer loop that takes call `c`. */
  predicate Takes(s: ClientState, a: Act, c: nat) {
    a.WriteNext? && s.writing && s.queue != [] && s.queue[0] == c && c < |s.issued|
  }

  /** It registers `c` under `id` and its frame is written. */
  predicate Registers(s: ClientState, a: Act, id: Uuid, c: nat) {
    Takes(s, a, c) && s.issued[c] == id && a.ok
  }

  /** This step hands `r` to the call that is registered under its id. */
  predicate Answers(s: ClientState, a: Act, c: nat, r: Response) {
    a == Receive(IsResponse(r)) && s.reading && r.id in s.pending && s.pending[r.id] == c
  }

  /** This step ends the writer loop, and with it everything that waits. */
  predicate Stops(s: ClientState, a: Act) {
    || (a.WriteNext? && !a.ok && s.writing && s.queue != [] && s.queue[0] < |s.issued|)
    || (a.Close? && s.queue == [])
  }

  /** This step takes away whatever is registered under `id`: a response with that id is read, another
      call is registered under it, or everything stops. */
  predicate Clears(s: ClientState, a: Act, id: Uuid) {
    || (a.Receive? && a.frame.IsResponse? && a.frame.response.id == id && s.reading)
    || (exists c: nat :: c < |s.issued| && Registers(s, a, id, c))
    || Stops(s, a)
  }

  lemma {:induction false} PendingAfter(s: ClientState, a: Act, id: Uuid, c: nat)
    ensures var s' := Next(s, a);
            id in s'.pending && s'.pending[id] == c <==>
              Registers(s, a, id, c) || (id in s.pending && s.pending[id] == c && !Clears(s, a, id))
  {
    if a.WriteNext? && s.writing && s.queue != [] && s.queue[0] < |s.issued| && a.ok && s.issued[s.queue[0]] == id {
      assert Registers(s, a, id, s.queue[0]);
    }
  }

  lemma {:induction false} AnsweredAfter(s: ClientState, a: Act, c: nat, r: Response)
    requires Inv(s)
    ensures var s' := Next(s, a);
            c in s'.answered && s'.answered[c] == r <==> Answers(s, a, c, r) || (c in s.answered && s.answered[c] == r)
  {
    AnswersStay(s, a, c);
    if a.Receive? && s.reading && a.frame.IsResponse? && a.frame.response.id in s.pending {
      assert Pending(s, s.pending[a.frame.response.id]);
      assert c in s.answered ==> InOnePlace(s, c);
    }
    hide Places, OwnIds;
  }

  ghost predicate AnsweredAt(acts: seq<Act>, i: nat, c: nat, r: Response) {
    i < |acts| && Answers(Run(acts[..i]), acts[i], c, r)
  }

  /** In every run a call has the answer `r` exactly when the reader, at some step, read `r` while that
      call was the one registered under its id. */
  lemma {:induction false} AnsweredIff(acts: seq<Act>, c: nat, r: Response)
    ensures c in Run(acts).answered && Run(acts).answered[c] == r <==> exists i: nat :: AnsweredAt(acts, i, c, r)
  {
    hide Next, Inv, Answers;
    if acts != [] {
      var before, n := acts[..|acts| - 1], |acts| - 1;
      AnsweredIff(before, c, r);
      RunKeepsInv(before);
      AnsweredAfter(Run(before), acts[n], c, r);
      assert acts[..n] == before;
      forall i: nat | i < n ensures AnsweredAt(acts, i, c, r) <==> AnsweredAt(before, i, c, r) {
        assert acts[..i] == before[..i];
      }
      if i: nat :| AnsweredAt(before, i, c, r) { assert AnsweredAt(acts, i, c, r); }
      if AnsweredAt(acts, n, c, r) {}
    }
  }

  ghost predicate RegisteredAt(acts: seq<Act>, i: nat, id: Uuid, c: nat) {
    i < |acts| && Registers(Run(acts[..i]), acts[i], id, c)
  }

  ghost predicate ClearedAt(acts: seq<Act>, i: nat, id: Uuid) {
    i < |acts| && Clears(Run(acts[..i]), acts[i], id)
  }

  /** Nothing after step `i` took away what is registered under `id`. */
  ghost predicate UnclearedAfter(acts: seq<Act>, i: nat, id: Uuid) {
    forall j: nat :: i < j < |acts| ==> !ClearedAt(acts, j, id)
  }

  lemma {:induction false} UnclearedStep(acts: seq<Act>, i: nat, id: Uuid, c: nat)
    requires i < |acts| - 1
    ensures var before := acts[..|acts| - 1];
            && (RegisteredAt(acts, i, id, c) <==> RegisteredAt(before, i, id, c))
            && (UnclearedAfter(acts, i, id) <==> UnclearedAfter(before, i, id) && !ClearedAt(acts, |acts| - 1, id))
  {
    hide Run, Clears, Registers;
    var before := acts[..|acts| - 1];
    forall j: nat | j < |before| ensures acts[..j] == before[..j] {}
    forall j: nat | j < |before| ensures ClearedAt(acts, j, id) <==> ClearedAt(before, j, id) {}
    hide ClearedAt;
    if UnclearedAfter(acts, i, id) {
      forall j: nat | i < j < |before| ensures !ClearedAt(before, j, id) { assert !ClearedAt(acts, j, id); }
    }
  }

  /** In every run call `c` waits under `id` exactly when some turn of the writer loop registered it there
      and nothing has cleared that id since. */
  lemma {:induction false} PendingIff(acts: seq<Act>, id: Uuid, c: nat)
    ensures id in Run(acts).pending && Run(acts).pending[id] == c <==>
            exists i: nat :: RegisteredAt(acts, i, id, c) && UnclearedAfter(acts, i, id)
  {
    hide Next, Clears, Registers;
    if acts != [] {
      var before, n := acts[..|acts| - 1], |acts| - 1;
      PendingIff(before, id, c);
      PendingAfter(Run(before), acts[n], id, c);
      assert acts[..n] == before;
      assert UnclearedAfter(acts, n, id);
      hide UnclearedAfter, Run;
      if i: nat :| RegisteredAt(acts, i, id, c) && UnclearedAfter(acts, i, id) {
        if i < n { UnclearedStep(acts, i, id, c); }
      }
      if i: nat :| RegisteredAt(before, i, id, c) && UnclearedAfter(before, i, id) { UnclearedStep(acts, i, id, c); }
    }
  }

  /** The queue is every call issued from the `taken`-th on, in order. */
  ghost predicate QueueFrom(s: ClientState, taken: nat) {
    && |s.queue| == |s.issued| - taken
    && forall i :: 0 <= i < |s.queue| ==> s.queue[i] == taken + i
  }

  predicate TakesNext(s: ClientState, a: Act) {
    a.WriteNext? && s.writing && s.queue != []
  }

  /** How many calls the writer loop has taken. */
  function TakenSoFar(acts: seq<Act>): nat {
    if acts == [] then 0
    else TakenSoFar(acts[..|acts| - 1]) + if TakesNext(Run(acts[..|acts| - 1]), acts[|acts| - 1]) then 1 else 0
  }

  lemma {:induction false} QueueStep(s: ClientState, a: Act, taken: nat)
    requires s.writing && QueueFrom(s, taken) && Next(s, a).writing
    ensures QueueFrom(Next(s, a), taken + if TakesNext(s, a) then 1 else 0)
  {}

  lemma {:induction false} NeverRestarts(s: ClientState, a: Act)
    ensures Next(s, a).writing ==> s.writing
  {}

  /** Calls are taken in the order in which they were issued, and none is passed over: while the writer
      loop runs, the queue is every call issued and not taken. */
  lemma {:induction false} QueueIs(acts: seq<Act>)
    requires Run(acts).writing
    ensures QueueFrom(Run(acts), TakenSoFar(acts))
  {
    if acts != [] {
      var before, a := acts[..|acts| - 1], acts[|acts| - 1];
      hide Next, QueueFrom, TakesNext;
      NeverRestarts(Run(before), a);
      QueueIs(before);
      QueueStep(Run(before), a, TakenSoFar(before));
    }
  }

  /** Both loops run until a read or a write fails or the client is closed. */
  lemma {:induction false} UpUnlessBroken(acts: seq<Act>)
    requires forall i :: 0 <= i < |acts| ==> acts[i] != ReadFails && acts[i] != Close && acts[i] != WriteNext(false)
    ensures Run(acts).reading && Run(acts).writing
  {
    if acts != [] { UpUnlessBroken(acts[..|acts| - 1]); }
  }

  /** The ids of the calls made, in order. */
  function CallsMade(acts: seq<Act>): seq<Uuid> {
    if acts == [] then []
    else
      var before, a := CallsMade(acts[..|acts| - 1]), acts[|acts| - 1];
      if a.Call? then before + [a.id] else before
  }

  /** Every call made is issued, under its own id, in order. */
  lemma {:induction false} IssuedAsMade(acts: seq<Act>)
    ensures Run(acts).issued == CallsMade(acts)
  {
    if acts != [] { IssuedAsMade(acts[..|acts| - 1]); }
  }
}
