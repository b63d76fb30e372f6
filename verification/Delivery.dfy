/** Text delivery between daemons that all run the same code: resolve the recipient, record, write,
    check trust, record at the receiver, acknowledge, mark sent. Each message has its own stream. Losses, timeouts,
    repeated deliveries and changes of trust may happen at any point. */
module Delivery {
  import opened Basics
  import opened Conversation
  import opened ConversationRuns
  import Network

  datatype SenderPhase = Resolved | Recorded | AwaitingAck | AckReceived | GaveUp | MarkedSent | MarkedFailed

  datatype Stream = Stream(
    from: string, to: string, id: Uuid, text: string,
    sender: SenderPhase,
    authorized: Option<string>,   // the sender's alias at the receiver, once the trust check passed
    acked: bool)

  datatype Node = Node(history: Traced, trusted: map<string, string>)

  datatype World = World(nodes: map<string, Node>, streams: seq<Stream>)

  datatype Act =
    | Resolve(from: string, to: string, id: Uuid, text: string)
    | Record(k: nat, now: int)
    | Write(k: nat, ok: bool)
    | CheckTrust(k: nat)
    | Accept(k: nat, sentAt: int, now: int)
    | Acknowledge(k: nat)
    | GiveUp(k: nat)
    | Settle(k: nat)
    | Trust(node: string, peer: string, alias: string)
    | Distrust(node: string, peer: string)
    | ChangeLimit(node: string, limit: nat)

  function NodeOf(w: World, n: string): Node {
    if n in w.nodes then w.nodes[n] else Node(Start(DEDUP_CACHE_CAPACITY, DEFAULT_HISTORY_LIMIT), map[])
  }

  function History(w: World, n: string): Traced {
    NodeOf(w, n).history
  }

  function StoreAt(w: World, n: string, op: StoreOp): World {
    w.(nodes := w.nodes[n := NodeOf(w, n).(history := Step(History(w, n), op))])
  }

  function SetStream(w: World, k: nat, s: Stream): World
    requires k < |w.streams|
  {
    w.(streams := w.streams[k := s])
  }

  /** The id is a new version-4 UUID: this sender has not used it on another stream. */
  predicate FreshId(w: World, from: string, id: Uuid) {
    forall k :: 0 <= k < |w.streams| && w.streams[k].from == from ==> w.streams[k].id != id
  }

  function Next(w: World, a: Act): World {
    match a
    case Resolve(from, to, id, text) =>
      if to in NodeOf(w, from).trusted && text != "" && Network.ValidateTextLen(text).Ok? && FreshId(w, from, id) then
        w.(streams := w.streams + [Stream(from, to, id, text, Resolved, None, false)])
      else w
    case Record(k, now) =>
      if k < |w.streams| && w.streams[k].sender == Resolved then
        var s := w.streams[k];
        SetStream(StoreAt(w, s.from, RecordOutgoing(s.to, s.id, s.text, Sending, now)), k, s.(sender := Recorded))
      else w
    case Write(k, ok) =>
      if k < |w.streams| && w.streams[k].sender == Recorded then
        SetStream(w, k, w.streams[k].(sender := if ok then AwaitingAck else GaveUp))
      else w
    case CheckTrust(k) =>
      if k < |w.streams| && w.streams[k].sender !in {Resolved, Recorded}
         && w.streams[k].from in NodeOf(w, w.streams[k].to).trusted
         && Network.ValidateTextLen(w.streams[k].text).Ok? then
        SetStream(w, k, w.streams[k].(authorized := Some(NodeOf(w, w.streams[k].to).trusted[w.streams[k].from])))
      else w
    case Accept(k, sentAt, now) =>
      if k < |w.streams| && w.streams[k].authorized.Some? then
        var s := w.streams[k];
        var w' := StoreAt(w, s.to, RecordIncoming(s.from, s.authorized.value, s.id, sentAt, now, s.text));
        SetStream(w', k, s.(acked := true))
      else w
    case Acknowledge(k) =>
      if k < |w.streams| && w.streams[k].sender == AwaitingAck && w.streams[k].acked then
        SetStream(w, k, w.streams[k].(sender := AckReceived))
      else w
    case GiveUp(k) =>
      if k < |w.streams| && w.streams[k].sender in {Recorded, AwaitingAck} then
        SetStream(w, k, w.streams[k].(sender := GaveUp))
      else w
    case Settle(k) =>
      if k < |w.streams| && w.streams[k].sender in {AckReceived, GaveUp} then
        var s := w.streams[k];
        var good := s.sender == AckReceived;
        SetStream(StoreAt(w, s.from, UpdateStatus(s.to, s.id, if good then Sent else Failed)), k,
                  s.(sender := if good then MarkedSent else MarkedFailed))
      else w
    case Trust(n, p, alias) => w.(nodes := w.nodes[n := NodeOf(w, n).(trusted := NodeOf(w, n).trusted[p := alias])])
    case Distrust(n, p) => w.(nodes := w.nodes[n := NodeOf(w, n).(trusted := NodeOf(w, n).trusted - {p})])
    case ChangeLimit(n, limit) => StoreAt(w, n, SetLimit(limit))
  }

  const EMPTY: World := World(map[], [])

  function Run(acts: seq<Act>): World {
    if acts == [] then EMPTY else Next(Run(acts[..|acts| - 1]), acts[|acts| - 1])
  }

  // -------------------------------------------------------------------------------- invariants

  ghost predicate Matches(s: Stream, from: string, to: string, id: Uuid, text: string) {
    s.from == from && s.to == to && s.id == id && s.text == text
  }

  ghost predicate DistinctStreams(ss: seq<Stream>) {
    forall j, k :: 0 <= j < k < |ss| && ss[j].from == ss[k].from ==> ss[j].id != ss[k].id
  }

  /** Everything `n` accepted was sent to it, with that text, on some stream. */
  ghost predicate AcceptedWereSent(t: Traced, n: string, ss: seq<Stream>) {
    forall i :: 0 <= i < |t.accepted| ==> WasSent(ss, t.accepted[i].peerId, n, t.accepted[i].id, t.accepted[i].text)
  }

  ghost predicate WasSent(ss: seq<Stream>, from: string, to: string, id: Uuid, text: string) {
    exists k :: 0 <= k < |ss| && Matches(ss[k], from, to, id, text)
  }

  ghost predicate Holds(t: Traced, from: string, id: Uuid, text: string) {
    exists i :: 0 <= i < |t.accepted| && t.accepted[i].peerId == from && t.accepted[i].id == id && t.accepted[i].text == text
  }

  /** A stream whose message was acknowledged has been recorded by its receiver. */
  ghost predicate Honest(s: Stream, receiver: Traced) {
    s.acked || s.sender in {AckReceived, MarkedSent} ==> Holds(receiver, s.from, s.id, s.text)
  }

  ghost predicate EntryInv(e: StoredMessage, n: string, p: string, ss: seq<Stream>) {
    && WasSent(ss, n, p, e.id, e.text)
    && (e.status == Sent ==>
          exists k :: 0 <= k < |ss| && Matches(ss[k], n, p, e.id, e.text) && ss[k].sender == MarkedSent)
  }

  ghost predicate OutgoingInv(t: Traced, n: string, p: string, ss: seq<Stream>) {
    forall i :: 0 <= i < |Retained(t, p)| && Retained(t, p)[i].direction == Outgoing ==>
      EntryInv(Retained(t, p)[i], n, p, ss)
  }

  ghost predicate NodeInv(t: Traced, n: string, ss: seq<Stream>) {
    && Inv(t)
    && AcceptedWereSent(t, n, ss)
    && forall p :: OutgoingInv(t, n, p, ss)
  }

  ghost predicate WorldInv(w: World) {
    && DistinctStreams(w.streams)
    && (forall k :: 0 <= k < |w.streams| ==> Honest(w.streams[k], History(w, w.streams[k].to)))
    && (forall n :: NodeInv(History(w, n), n, w.streams))
  }

  /** Streams only gain steps: `to`-be-kept facts about a stream survive. */
  ghost predicate Extends(ss: seq<Stream>, ss': seq<Stream>) {
    && |ss| <= |ss'|
    && forall k :: 0 <= k < |ss| ==>
         && Matches(ss'[k], ss[k].from, ss[k].to, ss[k].id, ss[k].text)
         && (ss[k].sender == MarkedSent ==> ss'[k].sender == MarkedSent)
  }

  lemma {:induction false} WasSentExtends(ss: seq<Stream>, ss': seq<Stream>, from: string, to: string, id: Uuid, text: string)
    requires Extends(ss, ss') && WasSent(ss, from, to, id, text)
    ensures WasSent(ss', from, to, id, text)
  {
    var k :| 0 <= k < |ss| && Matches(ss[k], from, to, id, text);
    assert Matches(ss'[k], from, to, id, text);
  }

  lemma {:induction false} EntryExtends(e: StoredMessage, n: string, p: string, ss: seq<Stream>, ss': seq<Stream>)
    requires Extends(ss, ss') && EntryInv(e, n, p, ss)
    ensures EntryInv(e, n, p, ss')
  {
    WasSentExtends(ss, ss', n, p, e.id, e.text);
    if e.status == Sent {
      var k :| 0 <= k < |ss| && Matches(ss[k], n, p, e.id, e.text) && ss[k].sender == MarkedSent;
      assert Matches(ss'[k], n, p, e.id, e.text) && ss'[k].sender == MarkedSent;
    }
  }

  /** One sender uses an id on one stream only. */
  lemma {:induction false} SameStream(ss: seq<Stream>, k: nat, to: string, text: string)
    requires DistinctStreams(ss) && k < |ss|
    requires WasSent(ss, ss[k].from, to, ss[k].id, text)
    ensures ss[k].to == to && ss[k].text == text
  {
    var j :| 0 <= j < |ss| && Matches(ss[j], ss[k].from, to, ss[k].id, text);
    assert j == k;
  }

  lemma {:induction false} HoldsAfterStep(t: Traced, op: StoreOp, from: string, id: Uuid, text: string)
    requires Holds(t, from, id, text)
    ensures Holds(Step(t, op), from, id, text)
  {
    var i :| 0 <= i < |t.accepted| && t.accepted[i].peerId == from && t.accepted[i].id == id && t.accepted[i].text == text;
    assert t.accepted <= Step(t, op).accepted;
    assert Step(t, op).accepted[i] == t.accepted[i];
  }

  // -------------------------------------------------- how one node's own operation keeps its part

  lemma {:induction false} OutgoingAfterSend(t: Traced, n: string, p: string, op: StoreOp, ss: seq<Stream>)
    requires op.RecordOutgoing? && op.status == Sending
    requires OutgoingInv(t, n, p, ss)
    requires p == op.peerId ==> WasSent(ss, n, p, op.id, op.text)
    ensures OutgoingInv(Step(t, op), n, p, ss)
  {
    var t' := Step(t, op);
    if p == op.peerId {
      var all := Retained(t, p) + [OutgoingMessage(op)];
      assert Retained(t', p) == LastN(all, t.store.limit);
      forall i | 0 <= i < |Retained(t', p)| && Retained(t', p)[i].direction == Outgoing
        ensures EntryInv(Retained(t', p)[i], n, p, ss)
      {
        assert Retained(t', p)[i] == all[|all| - |Retained(t', p)| + i];
      }
    } else {
      assert Retained(t', p) == Retained(t, p);
    }
  }

  lemma {:induction false} OutgoingAfterRecord(t: Traced, n: string, p: string, op: StoreOp, ss: seq<Stream>)
    requires op.RecordIncoming? || op.SetLimit?
    requires OutgoingInv(t, n, p, ss)
    ensures OutgoingInv(Step(t, op), n, p, ss)
  {
    var t' := Step(t, op);
    if op.RecordIncoming? && p == op.peerId && (op.peerId, op.id) !in t.store.cache.seen {
      var all := Retained(t, p) + [IncomingMessage(t.store, op)];
      assert Retained(t', p) == LastN(all, t.store.limit);
      forall i | 0 <= i < |Retained(t', p)| && Retained(t', p)[i].direction == Outgoing
        ensures EntryInv(Retained(t', p)[i], n, p, ss)
      {
        assert Retained(t', p)[i] == all[|all| - |Retained(t', p)| + i];
      }
    } else {
      assert Retained(t', p) == Retained(t, p);
    }
  }

  lemma {:induction false} OutgoingAfterSettle(t: Traced, n: string, p: string, k: nat, status: MessageStatus, ss: seq<Stream>)
    requires OutgoingInv(t, n, p, ss) && DistinctStreams(ss)
    requires k < |ss| && ss[k].from == n
    requires status == Failed || (status == Sent && ss[k].sender == MarkedSent)
    ensures OutgoingInv(Step(t, UpdateStatus(ss[k].to, ss[k].id, status)), n, p, ss)
  {
    var op := UpdateStatus(ss[k].to, ss[k].id, status);
    var t' := Step(t, op);
    if p == ss[k].to && p in t.store.conversations {
      var ms := Retained(t, p);
      assert Retained(t', p) == SetStatus(ms, ss[k].id, status);
      var hit := IndexOfId(ms, ss[k].id);
      forall i | 0 <= i < |ms| && Retained(t', p)[i].direction == Outgoing
        ensures EntryInv(Retained(t', p)[i], n, p, ss)
      {
        assert EntryInv(ms[i], n, p, ss);
        if i == hit {
          SameStream(ss, k, p, ms[i].text);
          assert Matches(ss[k], n, p, ms[i].id, ms[i].text);
        }
      }
    } else {
      assert Retained(t', p) == Retained(t, p);
    }
  }

  lemma {:induction false} OtherOpsAcceptNothing(t: Traced, n: string, op: StoreOp, ss: seq<Stream>)
    requires AcceptedWereSent(t, n, ss) && !op.RecordIncoming?
    ensures AcceptedWereSent(Step(t, op), n, ss)
  {}

  lemma {:induction false} AcceptRecords(t: Traced, n: string, k: nat, sentAt: int, now: int, ss: seq<Stream>, alias: string)
    requires Inv(t) && AcceptedWereSent(t, n, ss) && DistinctStreams(ss)
    requires k < |ss| && ss[k].to == n
    ensures var t' := Step(t, RecordIncoming(ss[k].from, alias, ss[k].id, sentAt, now, ss[k].text));
            Holds(t', ss[k].from, ss[k].id, ss[k].text) && AcceptedWereSent(t', n, ss)
  {
    hide AcceptedInv, PeerInv, AppendPush;
    var op := RecordIncoming(ss[k].from, alias, ss[k].id, sentAt, now, ss[k].text);
    var t' := Step(t, op);
    var key := (ss[k].from, ss[k].id);
    if key in t.store.cache.seen {
      assert key in Keys(t.accepted);
      var i :| 0 <= i < |Keys(t.accepted)| && Keys(t.accepted)[i] == key;
      SameStream(ss, k, n, t.accepted[i].text);
      assert t'.accepted[i].text == ss[k].text;
    } else {
      assert t'.accepted[|t.accepted|] == IncomingMessage(t.store, op);
      assert Matches(ss[k], ss[k].from, n, ss[k].id, ss[k].text);
    }
  }

  // ---------------------------------------------------------------------------- steps of the world

  lemma {:induction false} NodeExtends(t: Traced, n: string, ss: seq<Stream>, ss': seq<Stream>)
    requires NodeInv(t, n, ss) && Extends(ss, ss')
    ensures NodeInv(t, n, ss')
  {
    forall i | 0 <= i < |t.accepted|
      ensures WasSent(ss', t.accepted[i].peerId, n, t.accepted[i].id, t.accepted[i].text)
    {
      WasSentExtends(ss, ss', t.accepted[i].peerId, n, t.accepted[i].id, t.accepted[i].text);
    }
    forall p ensures OutgoingInv(t, n, p, ss') {
      assert OutgoingInv(t, n, p, ss);
      forall i | 0 <= i < |Retained(t, p)| && Retained(t, p)[i].direction == Outgoing
        ensures EntryInv(Retained(t, p)[i], n, p, ss')
      {
        EntryExtends(Retained(t, p)[i], n, p, ss, ss');
      }
    }
  }

  /** At most one node changed, by store operation `op`; streams only advanced. */
  lemma {:induction false} Advance(w: World, w': World, n0: string, op: StoreOp)
    requires WorldInv(w) && Extends(w.streams, w'.streams) && DistinctStreams(w'.streams)
    requires forall n :: n != n0 ==> History(w', n) == History(w, n)
    requires History(w', n0) == History(w, n0) || History(w', n0) == Step(History(w, n0), op)
    requires NodeInv(History(w', n0), n0, w'.streams)
    requires forall k :: 0 <= k < |w'.streams| ==>
               || Honest(w'.streams[k], History(w', w'.streams[k].to))
               || (k < |w.streams| && (Honest(w.streams[k], History(w, w.streams[k].to))
                                       ==> Honest(w'.streams[k], History(w, w'.streams[k].to))))
    ensures WorldInv(w')
  {
    forall n ensures NodeInv(History(w', n), n, w'.streams) {
      if n != n0 { NodeExtends(History(w, n), n, w.streams, w'.streams); }
    }
    forall k | 0 <= k < |w'.streams| ensures Honest(w'.streams[k], History(w', w'.streams[k].to)) {
      var s := w'.streams[k];
      if !Honest(s, History(w', s.to)) && s.to == n0 && Holds(History(w, n0), s.from, s.id, s.text) {
        HoldsAfterStep(History(w, n0), op, s.from, s.id, s.text);
      }
    }
  }

  /** A step that only touches a stream, and does not newly acknowledge or mark it. */
  lemma {:induction false} StreamStep(w: World, k: nat, s: Stream)
    requires WorldInv(w) && k < |w.streams|
    requires Matches(s, w.streams[k].from, w.streams[k].to, w.streams[k].id, w.streams[k].text)
    requires w.streams[k].sender == MarkedSent ==> s.sender == MarkedSent
    requires s.acked || s.sender in {AckReceived, MarkedSent} ==>
               w.streams[k].acked || w.streams[k].sender in {AckReceived, MarkedSent}
    ensures WorldInv(SetStream(w, k, s))
  {
    hide Inv, OutgoingInv, AcceptedWereSent;
    var n := s.to;
    NodeExtends(History(w, n), n, w.streams, SetStream(w, k, s).streams);
    Advance(w, SetStream(w, k, s), n, SetLimit(0));
  }

  lemma {:induction false} ResolveStep(w: World, a: Act)
    requires WorldInv(w) && a.Resolve? && Next(w, a) != w
    ensures WorldInv(Next(w, a))
  {
    hide Inv, OutgoingInv, AcceptedWereSent;
    var w' := Next(w, a);
    assert w'.streams[..|w.streams|] == w.streams;
    assert Extends(w.streams, w'.streams);
    NodeExtends(History(w, a.from), a.from, w.streams, w'.streams);
    Advance(w, w', a.from, SetLimit(0));
  }

  lemma {:induction false} RecordStep(w: World, a: Act)
    requires WorldInv(w) && a.Record? && Next(w, a) != w
    ensures WorldInv(Next(w, a))
  {
    hide Inv, OutgoingInv, AcceptedWereSent;
    var w', s := Next(w, a), w.streams[a.k];
    var op, t := RecordOutgoing(s.to, s.id, s.text, Sending, a.now), History(w, s.from);
    NodeExtends(t, s.from, w.streams, w'.streams);
    assert Matches(w'.streams[a.k], s.from, s.to, s.id, s.text);
    StepKeepsInv(t, op);
    forall p ensures OutgoingInv(Step(t, op), s.from, p, w'.streams) {
      OutgoingAfterSend(t, s.from, p, op, w'.streams);
    }
    OtherOpsAcceptNothing(t, s.from, op, w'.streams);
    assert NodeInv(Step(t, op), s.from, w'.streams);
    Advance(w, w', s.from, op);
  }

  lemma {:induction false} AcceptStep(w: World, a: Act)
    requires WorldInv(w) && a.Accept? && Next(w, a) != w
    ensures WorldInv(Next(w, a))
  {
    hide Inv, OutgoingInv, AcceptedWereSent;
    var w', s := Next(w, a), w.streams[a.k];
    var op, t := RecordIncoming(s.from, s.authorized.value, s.id, a.sentAt, a.now, s.text), History(w, s.to);
    NodeExtends(t, s.to, w.streams, w'.streams);
    AcceptRecords(t, s.to, a.k, a.sentAt, a.now, w'.streams, s.authorized.value);
    StepKeepsInv(t, op);
    forall p ensures OutgoingInv(Step(t, op), s.to, p, w'.streams) {
      OutgoingAfterRecord(t, s.to, p, op, w'.streams);
    }
    assert NodeInv(Step(t, op), s.to, w'.streams);
    Advance(w, w', s.to, op);
  }

  lemma {:induction false} SettleStep(w: World, a: Act)
    requires WorldInv(w) && a.Settle? && Next(w, a) != w
    ensures WorldInv(Next(w, a))
  {
    hide Inv, OutgoingInv, AcceptedWereSent;
    var w', s := Next(w, a), w.streams[a.k];
    var status := if s.sender == AckReceived then Sent else Failed;
    var op, t := UpdateStatus(s.to, s.id, status), History(w, s.from);
    NodeExtends(t, s.from, w.streams, w'.streams);
    StepKeepsInv(t, op);
    forall p ensures OutgoingInv(Step(t, op), s.from, p, w'.streams) {
      OutgoingAfterSettle(t, s.from, p, a.k, status, w'.streams);
    }
    OtherOpsAcceptNothing(t, s.from, op, w'.streams);
    assert NodeInv(Step(t, op), s.from, w'.streams);
    Advance(w, w', s.from, op);
  }

  lemma {:induction false} LimitStep(w: World, n: string, limit: nat)
    requires WorldInv(w)
    ensures WorldInv(StoreAt(w, n, SetLimit(limit)))
  {
    hide Inv, OutgoingInv, AcceptedWereSent;
    var op, t := SetLimit(limit), History(w, n);
    StepKeepsInv(t, op);
    forall p ensures OutgoingInv(Step(t, op), n, p, w.streams) {
      OutgoingAfterRecord(t, n, p, op, w.streams);
    }
    OtherOpsAcceptNothing(t, n, op, w.streams);
    assert NodeInv(Step(t, op), n, w.streams);
    Advance(w, StoreAt(w, n, op), n, op);
  }

  lemma {:induction false} SameHistories(w: World, w': World)
    requires WorldInv(w) && w'.streams == w.streams && forall n :: History(w', n) == History(w, n)
    ensures WorldInv(w')
  {
    forall n ensures NodeInv(History(w', n), n, w'.streams) {
      assert NodeInv(History(w, n), n, w.streams);
    }
  }

  lemma {:induction false} NextKeepsInv(w: World, a: Act)
    requires WorldInv(w)
    ensures WorldInv(Next(w, a))
  {
    hide WorldInv, StoreAt, Inv, Step;
    if Next(w, a) != w {
      match a
      case Resolve(_, _, _, _) => ResolveStep(w, a);
      case Record(_, _) => RecordStep(w, a);
      case Write(k, ok) => StreamStep(w, k, Next(w, a).streams[k]);
      case CheckTrust(k) => StreamStep(w, k, Next(w, a).streams[k]);
      case Accept(_, _, _) => AcceptStep(w, a);
      case Acknowledge(k) => StreamStep(w, k, Next(w, a).streams[k]);
      case GiveUp(k) => StreamStep(w, k, Next(w, a).streams[k]);
      case Settle(_) => SettleStep(w, a);
      case Trust(_, _, _) => SameHistories(w, Next(w, a));
      case Distrust(_, _) => SameHistories(w, Next(w, a));
      case ChangeLimit(n, limit) => LimitStep(w, n, limit);
    }
  }

  lemma {:induction false} RunKeepsInv(acts: seq<Act>)
    ensures WorldInv(Run(acts))
  {
    if acts == [] {
      forall n ensures Inv(History(EMPTY, n)) { ReachableInv(DEDUP_CACHE_CAPACITY, DEFAULT_HISTORY_LIMIT, []); }
    } else {
      RunKeepsInv(acts[..|acts| - 1]);
      NextKeepsInv(Run(acts[..|acts| - 1]), acts[|acts| - 1]);
    }
  }

  // ------------------------------------------------------------------------------- what it means

  /** In every run, a message that its sender still keeps and shows as Sent is in the receiver's
      accepted log, under the sender's identity and with exactly the text that was sent. */
  lemma {:induction false} SentMeansAccepted(acts: seq<Act>, n: string, p: string, i: nat)
    requires i < |Retained(History(Run(acts), n), p)|
    requires var e := Retained(History(Run(acts), n), p)[i]; e.direction == Outgoing && e.status == Sent
    ensures var e := Retained(History(Run(acts), n), p)[i];
            Holds(History(Run(acts), p), n, e.id, e.text)
  {
    RunKeepsInv(acts);
    var w := Run(acts);
    var e := Retained(History(w, n), p)[i];
    assert NodeInv(History(w, n), n, w.streams);
    assert OutgoingInv(History(w, n), n, p, w.streams);
    assert EntryInv(e, n, p, w.streams);
    var k :| 0 <= k < |w.streams| && Matches(w.streams[k], n, p, e.id, e.text) && w.streams[k].sender == MarkedSent;
  }

  /** However often a text is delivered, the receiver accepts it again only after more than 10,000
      other acceptances. */
  lemma {:induction false} RedeliveryIsAcceptedOnce(acts: seq<Act>, p: string)
    ensures FarApart(Keys(History(Run(acts), p).accepted), DEDUP_CACHE_CAPACITY)
  {
    var ops := HistoryIsRun(acts, p);
    RepeatsAreFarApart(DEDUP_CACHE_CAPACITY, DEFAULT_HISTORY_LIMIT, ops);
  }

  /** The store operation that one step performs at node `p`, if it performs one there. */
  lemma {:induction false} OperationAt(w: World, a: Act, p: string) returns (op: Option<StoreOp>)
    ensures History(Next(w, a), p) == if op.None? then History(w, p) else Step(History(w, p), op.value)
  {
    hide Step;
    op := None;
    if Next(w, a) != w {
      match a
      case Record(k, now) =>
        var s := w.streams[k];
        if p == s.from { op := Some(RecordOutgoing(s.to, s.id, s.text, Sending, now)); }
      case Accept(k, sentAt, now) =>
        var s := w.streams[k];
        if p == s.to { op := Some(RecordIncoming(s.from, s.authorized.value, s.id, sentAt, now, s.text)); }
      case Settle(k) =>
        var s := w.streams[k];
        if p == s.from { op := Some(UpdateStatus(s.to, s.id, if s.sender == AckReceived then Sent else Failed)); }
      case ChangeLimit(n, limit) =>
        if p == n { op := Some(SetLimit(limit)); }
      case _ =>
    }
  }

  /** The store operations that a run performs at one node. */
  lemma {:induction false} HistoryIsRun(acts: seq<Act>, p: string) returns (ops: seq<StoreOp>)
    ensures History(Run(acts), p) == ConversationRuns.Run(Start(DEDUP_CACHE_CAPACITY, DEFAULT_HISTORY_LIMIT), ops)
  {
    hide Step, Next;
    if acts == [] {
      ops := [];
    } else {
      ops := HistoryIsRun(acts[..|acts| - 1], p);
      var op := OperationAt(Run(acts[..|acts| - 1]), acts[|acts| - 1], p);
      if op.Some? {
        ops := ops + [op.value];
        assert ops[..|ops| - 1] + [op.value] == ops;
      }
    }
  }

  // ------------------------------------------------------------------------------ what does happen

  /** With nothing lost between two nodes that trust each other, a text under a new id is recorded by the
      receiver as it was sent, under the sender's alias there, and marked as sent. */
  lemma {:induction false} UndisturbedDelivery(w: World, from: string, to: string, id: Uuid, text: string, now: int, sentAt: int,
                                               arrived: int)
    requires from != to && to in NodeOf(w, from).trusted && from in NodeOf(w, to).trusted
    requires text != "" && Network.ValidateTextLen(text).Ok? && FreshId(w, from, id)
    ensures var k := |w.streams|;
            var w1 := Next(w, Resolve(from, to, id, text));
            var w2 := Next(w1, Record(k, now));
            var w3 := Next(w2, Write(k, true));
            var w4 := Next(w3, CheckTrust(k));
            var w5 := Next(w4, Accept(k, sentAt, arrived));
            var w6 := Next(w5, Acknowledge(k));
            var w7 := Next(w6, Settle(k));
            && History(w7, to) == Step(History(w, to), RecordIncoming(from, NodeOf(w, to).trusted[from], id, sentAt, arrived, text))
            && History(w7, from) == Step(Step(History(w, from), RecordOutgoing(to, id, text, Sending, now)), UpdateStatus(to, id, Sent))
  {
    hide Step, FreshId, Network.ValidateTextLen;
  }

  /** When the sender gives up instead, at whatever point after writing, the message is marked as failed. */
  lemma {:induction false} GivingUpFails(w: World, k: nat)
    requires k < |w.streams| && w.streams[k].sender in {Recorded, AwaitingAck}
    ensures var s := w.streams[k];
            var w' := Next(Next(w, GiveUp(k)), Settle(k));
            && History(w', s.from) == Step(History(w, s.from), UpdateStatus(s.to, s.id, Failed))
            && w'.streams[k].sender == MarkedFailed
  {
    hide Step;
  }

  /** Trust, its end and a new limit take effect at once and at that node only. */
  lemma {:induction false} SettingsTakeEffect(w: World, n: string, p: string, alias: string, limit: nat, m: string)
    ensures p in NodeOf(Next(w, Trust(n, p, alias)), n).trusted && NodeOf(Next(w, Trust(n, p, alias)), n).trusted[p] == alias
    ensures p !in NodeOf(Next(w, Distrust(n, p)), n).trusted
    ensures History(Next(w, ChangeLimit(n, limit)), n).store.limit == limit
    ensures m != n ==> NodeOf(Next(w, Trust(n, p, alias)), m) == NodeOf(w, m) && NodeOf(Next(w, Distrust(n, p)), m) == NodeOf(w, m)
                       && NodeOf(Next(w, ChangeLimit(n, limit)), m) == NodeOf(w, m)
  {}
}
