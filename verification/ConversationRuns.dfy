/** Whole runs of the conversation store against logs that are never trimmed: what the bounded
    cache, the bounded histories and the two indexes still say about everything that happened. */
module ConversationRuns {
  import opened Basics
  import opened Conversation

  /** A message as it was appended, with the history limit then in force. */
  datatype Push = Push(message: StoredMessage, limit: nat)

  datatype Traced = Traced(store: StoreState, accepted: seq<StoredMessage>, pushes: map<string, seq<Push>>)

  function PushesOf(t: Traced, p: string): seq<Push> {
    if p in t.pushes then t.pushes[p] else []
  }

  function Retained(t: Traced, p: string): seq<StoredMessage> {
    ConversationOf(t.store, p).messages
  }

  function KeyOf(m: StoredMessage): Key {
    (m.peerId, m.id)
  }

  function Keys(ms: seq<StoredMessage>): (r: seq<Key>)
    ensures |r| == |ms|
  {
    seq(|ms|, i requires 0 <= i < |ms| => KeyOf(ms[i]))
  }

  function AppendPush(t: Traced, m: StoredMessage): map<string, seq<Push>> {
    t.pushes[m.peerId := PushesOf(t, m.peerId) + [Push(m, t.store.limit)]]
  }

  function Step(t: Traced, op: StoreOp): Traced {
    var store := Apply(t.store, op);
    match op
    case RecordIncoming(p, _, id, _, _, _) =>
      if (p, id) in t.store.cache.seen then t.(store := store)
      else
        var m := IncomingMessage(t.store, op);
        Traced(store, t.accepted + [m], AppendPush(t, m))
    case RecordOutgoing(_, _, _, _, _) => t.(store := store, pushes := AppendPush(t, OutgoingMessage(op)))
    case UpdateStatus(_, _, _) => t.(store := store)
    case SetLimit(_) => t.(store := store)
  }

  function Start(capacity: nat, limit: nat): Traced {
    Traced(Fresh(capacity, limit), [], map[])
  }

  function Run(t: Traced, ops: seq<StoreOp>): Traced {
    if ops == [] then t else Step(Run(t, ops[..|ops| - 1]), ops[|ops| - 1])
  }

  // -------------------------------------------------------------------------------- invariants

  ghost predicate NoRepeats<T(!new)>(s: seq<T>) {
    forall i, j :: 0 <= i < j < |s| ==> s[i] != s[j]
  }

  /** The cache holds exactly the last `capacity` accepted keys, each once. */
  ghost predicate CacheInv(c: CacheState, accepted: seq<Key>) {
    && c.order == LastN(accepted, c.capacity)
    && NoRepeats(c.order)
    && (forall k :: k in c.seen <==> k in c.order)
  }

  /** Where the retained history starts in the full log of a peer. */
  function WindowStart(log: seq<Push>): (r: nat)
    ensures r <= |log|
  {
    if log == [] then 0 else Max(WindowStart(log[..|log| - 1]), |log| - log[|log| - 1].limit)
  }

  ghost predicate SameButStatus(a: StoredMessage, b: StoredMessage) {
    a.(status := b.status) == b
  }

  ghost predicate Window(ms: seq<StoredMessage>, log: seq<Push>) {
    && |ms| == |log| - WindowStart(log)
    && forall i :: 0 <= i < |ms| ==> SameButStatus(ms[i], log[WindowStart(log) + i].message)
  }

  /** Index just past the last incoming entry, 0 when there is none. */
  function AfterLastIncoming(log: seq<Push>): (r: nat)
    ensures r <= |log|
    ensures r > 0 ==> log[r - 1].message.direction == Incoming
    ensures forall i :: r <= i < |log| ==> log[i].message.direction == Outgoing
  {
    if log == [] then 0
    else
      var before := log[..|log| - 1];
      assert forall i :: 0 <= i < |before| ==> log[i] == before[i];
      match log[|log| - 1].message.direction
      case Incoming => |log|
      case Outgoing => AfterLastIncoming(before)
  }

  function LastIncomingId(log: seq<Push>): Option<Uuid> {
    var i := AfterLastIncoming(log);
    if i == 0 then None else Some(log[i - 1].message.id)
  }

  ghost predicate LogInv(log: seq<Push>, p: string, accepted: seq<StoredMessage>) {
    && (forall i :: 0 <= i < |log| ==> log[i].message.peerId == p)
    && (forall i :: 0 <= i < |log| && log[i].message.direction == Incoming ==>
          && log[i].message.receiveSequence.Some?
          && log[i].message.receiveSequence.value < |accepted|
          && log[i].message == accepted[log[i].message.receiveSequence.value])
    && (forall i :: 0 <= i < |log| && log[i].message.direction == Outgoing ==> log[i].message.receiveSequence.None?)
    && (forall i, j :: 0 <= i < j < |log| && log[i].message.direction == Incoming && log[j].message.direction == Incoming
          ==> log[i].message.receiveSequence.value < log[j].message.receiveSequence.value)
  }

  ghost predicate PeerInv(c: Conversation, log: seq<Push>, p: string, accepted: seq<StoredMessage>) {
    && Window(c.messages, log)
    && c.latestIncoming == LastIncomingId(log)
    && LogInv(log, p, accepted)
  }

  ghost predicate Logged(t: Traced, m: StoredMessage) {
    exists j :: 0 <= j < |PushesOf(t, m.peerId)| && PushesOf(t, m.peerId)[j].message == m
  }

  ghost predicate AcceptedInv(t: Traced) {
    && t.store.nextSequence == |t.accepted|
    && (forall i :: 0 <= i < |t.accepted| ==>
          && t.accepted[i].receiveSequence == Some(i)
          && t.accepted[i].direction == Incoming
          && Logged(t, t.accepted[i]))
    && t.store.latestGlobal ==
         (if t.accepted == [] then None else Some(KeyOf(t.accepted[|t.accepted| - 1])))
  }

  ghost predicate Inv(t: Traced) {
    && CacheInv(t.store.cache, Keys(t.accepted))
    && AcceptedInv(t)
    && forall p :: PeerInv(ConversationOf(t.store, p), PushesOf(t, p), p, t.accepted)
  }

  // ------------------------------------------------------------------------- one step preserves

  lemma {:induction false} DropFirst(order: seq<Key>, x: Key)
    requires NoRepeats(order) && order != []
    ensures x in order[1..] <==> x in order && x != order[0]
    ensures NoRepeats(order[1..])
  {
    if x in order[1..] {
      var i :| 0 <= i < |order[1..]| && order[1..][i] == x;
      assert order[i + 1] == x;
    }
    assert order == [order[0]] + order[1..];
  }

  lemma {:induction false} CacheInsertKeepsLastN(c: CacheState, accepted: seq<Key>, k: Key)
    requires CacheInv(c, accepted)
    requires k !in c.seen
    ensures CacheInv(CacheInsert(c, k), accepted + [k])
  {
    var order := c.order + [k];
    assert NoRepeats(order);
    assert forall x :: x in order <==> x in c.seen + {k};
    if |order| > c.capacity {
      assert order[1..] == LastN(accepted + [k], c.capacity);
      forall x ensures x in order[1..] <==> x in order && x != order[0] {
        DropFirst(order, x);
      }
    } else {
      assert order == LastN(accepted + [k], c.capacity);
    }
  }

  lemma {:induction false} SameAsItself(m: StoredMessage)
    ensures SameButStatus(m, m)
  {}

  lemma {:induction false} PushMovesWindowStart(log: seq<Push>, push: Push)
    ensures WindowStart(log + [push]) == Max(WindowStart(log), |log| + 1 - push.limit)
  {
    assert (log + [push])[..|log|] == log;
  }

  lemma {:induction false} PushKeepsWindow(ms: seq<StoredMessage>, log: seq<Push>, m: StoredMessage, limit: nat)
    requires Window(ms, log)
    ensures Window(LastN(ms + [m], limit), log + [Push(m, limit)])
  {
    PushMovesWindowStart(log, Push(m, limit));
    hide WindowStart, SameButStatus;
    var kept, log', all := LastN(ms + [m], limit), log + [Push(m, limit)], ms + [m];
    var start, start' := WindowStart(log), WindowStart(log');
    assert |kept| == |log'| - start';
    forall i | 0 <= i < |kept| ensures SameButStatus(kept[i], log'[start' + i].message) {
      var j := start' - start + i;
      assert kept[i] == all[j];
      if j < |ms| {
        assert SameButStatus(ms[j], log[start + j].message);
      } else {
        SameAsItself(m);
      }
    }
  }

  lemma {:induction false} PushLastIncoming(log: seq<Push>, push: Push)
    ensures LastIncomingId(log + [push]) ==
            if push.message.direction == Incoming then Some(push.message.id) else LastIncomingId(log)
  {
    assert (log + [push])[..|log|] == log;
  }

  lemma {:induction false} PushKeepsPeer(c: Conversation, log: seq<Push>, p: string, accepted: seq<StoredMessage>,
                      m: StoredMessage, limit: nat, accepted': seq<StoredMessage>)
    requires PeerInv(c, log, p, accepted)
    requires m.peerId == p
    requires m.direction == Outgoing ==> m.receiveSequence.None? && accepted' == accepted
    requires m.direction == Incoming ==> m.receiveSequence == Some(|accepted|) && accepted' == accepted + [m]
    ensures PeerInv(Conversation(LastN(c.messages + [m], limit),
                                 if m.direction == Incoming then Some(m.id) else c.latestIncoming),
                    log + [Push(m, limit)], p, accepted')
  {
    PushKeepsWindow(c.messages, log, m, limit);
    PushLastIncoming(log, Push(m, limit));
  }

  lemma {:induction false} SameMessagesKeepPeer(ms: seq<StoredMessage>, log: seq<Push>, id: Uuid, status: MessageStatus)
    requires Window(ms, log)
    ensures Window(SetStatus(ms, id, status), log)
  {
    var i := IndexOfId(ms, id);
    if i < |ms| {
      assert SameButStatus(ms[i], log[WindowStart(log) + i].message);
    }
  }

  lemma {:induction false} MoreAcceptedKeepsLog(log: seq<Push>, p: string, accepted: seq<StoredMessage>, m: StoredMessage)
    requires LogInv(log, p, accepted)
    ensures LogInv(log, p, accepted + [m])
  {}

  lemma {:induction false} StepKeepsPeer(t: Traced, op: StoreOp, p: string)
    requires PeerInv(ConversationOf(t.store, p), PushesOf(t, p), p, t.accepted)
    requires t.store.nextSequence == |t.accepted|
    ensures var t' := Step(t, op);
            PeerInv(ConversationOf(t'.store, p), PushesOf(t', p), p, t'.accepted)
  {
    var c, log, t' := ConversationOf(t.store, p), PushesOf(t, p), Step(t, op);
    match op
    case RecordIncoming(q, _, id, _, _, _) =>
      if (q, id) !in t.store.cache.seen {
        var m := IncomingMessage(t.store, op);
        if p == q {
          PushKeepsPeer(c, log, p, t.accepted, m, t.store.limit, t'.accepted);
          assert PushesOf(t', p) == log + [Push(m, t.store.limit)];
          assert ConversationOf(t'.store, p) == Conversation(LastN(c.messages + [m], t.store.limit), Some(m.id));
        } else {
          MoreAcceptedKeepsLog(log, p, t.accepted, m);
          assert PushesOf(t', p) == log && ConversationOf(t'.store, p) == c;
        }
      }
    case RecordOutgoing(q, _, _, _, _) =>
      if p == q {
        var m := OutgoingMessage(op);
        PushKeepsPeer(c, log, p, t.accepted, m, t.store.limit, t.accepted);
        assert PushesOf(t', p) == log + [Push(m, t.store.limit)];
        assert ConversationOf(t'.store, p) == Conversation(LastN(c.messages + [m], t.store.limit), c.latestIncoming);
      } else {
        assert PushesOf(t', p) == log && ConversationOf(t'.store, p) == c;
      }
    case UpdateStatus(q, id, status) =>
      assert PushesOf(t', p) == log;
      if p == q && p in t.store.conversations {
        SameMessagesKeepPeer(c.messages, log, id, status);
        assert ConversationOf(t'.store, p) == c.(messages := SetStatus(c.messages, id, status));
      } else {
        assert ConversationOf(t'.store, p) == c;
      }
    case SetLimit(_) =>
      assert PushesOf(t', p) == log && ConversationOf(t'.store, p) == c;
  }

  lemma {:induction false} StepKeepsLogged(t: Traced, op: StoreOp, m: StoredMessage)
    requires Logged(t, m)
    ensures Logged(Step(t, op), m)
  {
    var log, log' := PushesOf(t, m.peerId), PushesOf(Step(t, op), m.peerId);
    var j :| 0 <= j < |log| && log[j].message == m;
    assert log <= log';
    assert log'[j].message == m;
  }

  lemma {:induction false} NewIsLogged(t: Traced, op: StoreOp)
    requires op.RecordIncoming? && (op.peerId, op.id) !in t.store.cache.seen
    ensures Logged(Step(t, op), IncomingMessage(t.store, op))
  {
    hide Apply;
    var m := IncomingMessage(t.store, op);
    assert PushesOf(Step(t, op), m.peerId)[|PushesOf(t, m.peerId)|].message == m;
  }

  lemma {:induction false} StepKeepsAccepted(t: Traced, op: StoreOp)
    requires AcceptedInv(t)
    ensures AcceptedInv(Step(t, op))
  {
    hide Logged, LastN, CacheInsert, AppendPush, SetStatus;
    var t' := Step(t, op);
    forall i | 0 <= i < |t.accepted| ensures Logged(t', t.accepted[i]) {
      StepKeepsLogged(t, op, t.accepted[i]);
    }
    if t'.accepted != t.accepted {
      NewIsLogged(t, op);
    }
  }

  lemma {:induction false} StepKeepsCache(t: Traced, op: StoreOp)
    requires CacheInv(t.store.cache, Keys(t.accepted))
    ensures CacheInv(Step(t, op).store.cache, Keys(Step(t, op).accepted))
  {
    if op.RecordIncoming? && (op.peerId, op.id) !in t.store.cache.seen {
      var m := IncomingMessage(t.store, op);
      CacheInsertKeepsLastN(t.store.cache, Keys(t.accepted), KeyOf(m));
      assert Keys(t.accepted + [m]) == Keys(t.accepted) + [KeyOf(m)];
    }
  }

  lemma {:induction false} StepKeepsInv(t: Traced, op: StoreOp)
    requires Inv(t)
    ensures Inv(Step(t, op))
  {
    StepKeepsCache(t, op);
    StepKeepsAccepted(t, op);
    var t' := Step(t, op);
    forall p ensures PeerInv(ConversationOf(t'.store, p), PushesOf(t', p), p, t'.accepted) {
      StepKeepsPeer(t, op, p);
    }
  }

  lemma {:induction false} RunKeepsInv(t: Traced, ops: seq<StoreOp>)
    requires Inv(t)
    ensures Inv(Run(t, ops))
  {
    if ops != [] {
      RunKeepsInv(t, ops[..|ops| - 1]);
      StepKeepsInv(Run(t, ops[..|ops| - 1]), ops[|ops| - 1]);
    }
  }

  lemma {:induction false} ReachableInv(capacity: nat, limit: nat, ops: seq<StoreOp>)
    ensures Inv(Run(Start(capacity, limit), ops))
  {
    assert Inv(Start(capacity, limit));
    RunKeepsInv(Start(capacity, limit), ops);
  }

  lemma {:induction false} CapacityIsConstant(t: Traced, ops: seq<StoreOp>)
    ensures Run(t, ops).store.cache.capacity == t.store.cache.capacity
  {
    if ops != [] {
      CapacityIsConstant(t, ops[..|ops| - 1]);
    }
  }

  // ------------------------------------------------------------------------------ dedup cache

  /** A key is remembered exactly while it is among the last `capacity` accepted ones. */
  ghost predicate RemembersLast(c: CacheState, accepted: seq<Key>, capacity: nat) {
    && (forall k :: k in c.seen <==> k in LastN(accepted, capacity))
    && NoRepeats(c.order) && |c.order| <= capacity
    && c.seen == set k | k in c.order
  }

  lemma {:induction false} DedupRemembersLastAccepted(capacity: nat, limit: nat, ops: seq<StoreOp>)
    ensures var t := Run(Start(capacity, limit), ops);
            RemembersLast(t.store.cache, Keys(t.accepted), capacity)
  {
    ReachableInv(capacity, limit, ops);
    CapacityIsConstant(Start(capacity, limit), ops);
    hide Run, AcceptedInv, PeerInv;
  }

  ghost predicate FarApart(keys: seq<Key>, capacity: nat) {
    forall i, j :: 0 <= i < j < |keys| && keys[i] == keys[j] ==> j - i > capacity
  }

  lemma {:induction false} NewKeyKeepsFarApart(c: CacheState, keys: seq<Key>, k: Key)
    requires CacheInv(c, keys) && FarApart(keys, c.capacity) && k !in c.seen
    ensures FarApart(keys + [k], c.capacity)
  {
    forall i | 0 <= i < |keys| && |keys| - i <= c.capacity ensures keys[i] != k {
      assert c.order[|c.order| - (|keys| - i)] == keys[i];
    }
  }

  lemma {:induction false} StepKeepsFarApart(t: Traced, op: StoreOp)
    requires CacheInv(t.store.cache, Keys(t.accepted))
    requires FarApart(Keys(t.accepted), t.store.cache.capacity)
    ensures FarApart(Keys(Step(t, op).accepted), t.store.cache.capacity)
  {
    if op.RecordIncoming? && (op.peerId, op.id) !in t.store.cache.seen {
      var m := IncomingMessage(t.store, op);
      NewKeyKeepsFarApart(t.store.cache, Keys(t.accepted), KeyOf(m));
      assert Keys(t.accepted + [m]) == Keys(t.accepted) + [KeyOf(m)];
    }
  }

  /** Two acceptances of the same key are more than `capacity` acceptances apart. */
  lemma {:induction false} RepeatsAreFarApart(capacity: nat, limit: nat, ops: seq<StoreOp>)
    ensures FarApart(Keys(Run(Start(capacity, limit), ops).accepted), capacity)
  {
    if ops != [] {
      RepeatsAreFarApart(capacity, limit, ops[..|ops| - 1]);
      ReachableInv(capacity, limit, ops[..|ops| - 1]);
      CapacityIsConstant(Start(capacity, limit), ops[..|ops| - 1]);
      StepKeepsFarApart(Run(Start(capacity, limit), ops[..|ops| - 1]), ops[|ops| - 1]);
    }
  }

  // ------------------------------------------------------------------------------ history window

  /** The window start is the largest `k - limit at push k` over the pushes so far, or 0. */
  lemma {:induction false} WindowStartIsMaximum(log: seq<Push>)
    ensures forall k :: 0 <= k < |log| ==> WindowStart(log) >= k + 1 - log[k].limit
    ensures WindowStart(log) == 0 || exists k :: 0 <= k < |log| && WindowStart(log) == k + 1 - log[k].limit
  {
    if log != [] {
      var shorter := log[..|log| - 1];
      WindowStartIsMaximum(shorter);
      forall k | 0 <= k < |log| ensures WindowStart(log) >= k + 1 - log[k].limit {
        if k < |shorter| { assert shorter[k] == log[k]; }
      }
      if WindowStart(log) != 0 && WindowStart(log) == WindowStart(shorter) {
        var k :| 0 <= k < |shorter| && WindowStart(shorter) == k + 1 - shorter[k].limit;
        assert log[k] == shorter[k];
      }
    }
  }

  /** The retained history is the full log from the window start on, up to statuses. */
  lemma {:induction false} HistoryIsWindowOfLog(capacity: nat, limit: nat, ops: seq<StoreOp>, p: string)
    ensures var t := Run(Start(capacity, limit), ops);
            Window(Retained(t, p), PushesOf(t, p))
  {
    ReachableInv(capacity, limit, ops);
    var t := Run(Start(capacity, limit), ops);
    assert PeerInv(ConversationOf(t.store, p), PushesOf(t, p), p, t.accepted);
  }

  ghost predicate DistinctIds(log: seq<Push>) {
    forall i, j :: 0 <= i < j < |log| ==> log[i].message.id != log[j].message.id
  }

  /** The entry that a look-up of the id of entry `a` finds. */
  ghost predicate Stands(log: seq<Push>, i: nat, a: nat)
    requires i < |log| && a < |log|
  {
    && WindowStart(log) <= i && log[i].message.id == log[a].message.id
    && forall j :: WindowStart(log) <= j < i ==> log[j].message.id != log[a].message.id
  }

  /** Looking up the id of entry `a` gives the first retained entry with that id. */
  lemma {:induction false} LookUp(ms: seq<StoredMessage>, log: seq<Push>, a: nat)
    requires Window(ms, log) && a < |log|
    ensures var start, k := WindowStart(log), IndexOfId(ms, log[a].message.id);
            && (k < |ms| ==> log[start + k].message.id == log[a].message.id)
            && (forall i :: start <= i < |log| && i < start + k ==> log[i].message.id != log[a].message.id)
            && (k == |ms| <==> forall i :: start <= i < |log| ==> log[i].message.id != log[a].message.id)
            && (start <= a && k == a - start <==> Stands(log, a, a))
  {
    var start, k := WindowStart(log), IndexOfId(ms, log[a].message.id);
    forall i | 0 <= i < |ms| ensures ms[i].id == log[start + i].message.id {
      assert SameButStatus(ms[i], log[start + i].message);
    }
    forall i | start <= i < |log| && i < start + k ensures log[i].message.id != log[a].message.id {
      assert ms[i - start].id != log[a].message.id;
    }
  }

  lemma {:induction false} StandsIff(ms: seq<StoredMessage>, log: seq<Push>, i: nat, a: nat)
    requires Window(ms, log) && i < |log| && a < |log|
    ensures Stands(log, i, a) <==> WindowStart(log) <= i && IndexOfId(ms, log[a].message.id) == i - WindowStart(log)
  {
    hide WindowStart;
    LookUp(ms, log, a);
  }

  /** No retained entry before entry `a`, and none at all if `a` is gone, has the id of `a`. */
  ghost predicate IdUnambiguous(log: seq<Push>, a: nat)
    requires a < |log|
  {
    forall i :: WindowStart(log) <= i < |log| && log[i].message.id == log[a].message.id ==> WindowStart(log) <= a <= i
  }

  lemma {:induction false} UnambiguousLookUp(ms: seq<StoredMessage>, log: seq<Push>, a: nat)
    requires Window(ms, log) && a < |log|
    ensures var start, k := WindowStart(log), IndexOfId(ms, log[a].message.id);
            IdUnambiguous(log, a) <==> if start <= a then k == a - start else k == |ms|
  {
    hide WindowStart;
    LookUp(ms, log, a);
    var start, k := WindowStart(log), IndexOfId(ms, log[a].message.id);
    if k < |ms| { assert log[start + k].message.id == log[a].message.id; }
  }

  /** Exactly the meant entry, number `a` of the log, has got the status, if it is still retained. */
  ghost predicate OnlyUpdated(ms: seq<StoredMessage>, ms': seq<StoredMessage>, start: nat, a: nat, status: MessageStatus) {
    && |ms'| == |ms|
    && forall i :: 0 <= i < |ms| ==> ms'[i] == if start + i == a then ms[i].(status := status) else ms[i]
  }

  /** The update has nothing to do: what it finds and what it is meant for have the status already. */
  ghost predicate NothingToUpdate(ms: seq<StoredMessage>, log: seq<Push>, a: nat, status: MessageStatus)
    requires a < |log| && |ms| == |log| - WindowStart(log)
  {
    && (forall i: nat :: i < |log| && Stands(log, i, a) ==> ms[i - WindowStart(log)].status == status)
    && (WindowStart(log) <= a ==> ms[a - WindowStart(log)].status == status)
  }

  lemma {:induction false} UpdateAt(ms: seq<StoredMessage>, start: nat, a: nat, k: nat, status: MessageStatus)
    requires k <= |ms| && a < start + |ms|
    ensures OnlyUpdated(ms, if k < |ms| then ms[k := ms[k].(status := status)] else ms, start, a, status) <==>
              || (if start <= a then k == a - start else k == |ms|)
              || ((k < |ms| ==> ms[k].status == status) && (start <= a ==> ms[a - start].status == status))
  {
    var ms' := if k < |ms| then ms[k := ms[k].(status := status)] else ms;
    if OnlyUpdated(ms, ms', start, a, status) && start + k != a {
      if k < |ms| { assert ms'[k] == ms[k]; }
      if start <= a { assert ms'[a - start] == ms[a - start].(status := status); }
    }
  }

  lemma {:induction false} UpdateInWindow(ms: seq<StoredMessage>, log: seq<Push>, a: nat, status: MessageStatus)
    requires Window(ms, log) && a < |log|
    ensures OnlyUpdated(ms, SetStatus(ms, log[a].message.id, status), WindowStart(log), a, status) <==>
              IdUnambiguous(log, a) || NothingToUpdate(ms, log, a, status)
  {
    hide WindowStart, IdUnambiguous, OnlyUpdated, SameButStatus;
    var start, k := WindowStart(log), IndexOfId(ms, log[a].message.id);
    UnambiguousLookUp(ms, log, a);
    UpdateAt(ms, start, a, k, status);
    forall i: nat | i < |log| ensures Stands(log, i, a) <==> start <= i && k == i - start {
      StandsIff(ms, log, i, a);
    }
    hide Stands, IndexOfId;
    if k < |ms| { assert Stands(log, start + k, a); }
  }

  /** In every run, a status update meant for any entry ever logged, retained or evicted since, changes
      that entry if it is retained and nothing else exactly when no other retained entry stands in for
      it, or there is nothing to change. Other peers and both indexes are never touched. */
  lemma {:induction false} UpdateReachesEntryIff(capacity: nat, limit: nat, ops: seq<StoreOp>, p: string, a: nat,
                                                 status: MessageStatus)
    requires a < |PushesOf(Run(Start(capacity, limit), ops), p)|
    ensures var t := Run(Start(capacity, limit), ops);
            var log, ms := PushesOf(t, p), Retained(t, p);
            var t' := Step(t, UpdateStatus(p, log[a].message.id, status));
            && |ms| == |log| - WindowStart(log)
            && (OnlyUpdated(ms, Retained(t', p), WindowStart(log), a, status) <==>
                IdUnambiguous(log, a) || NothingToUpdate(ms, log, a, status))
            && (forall q :: q != p ==> ConversationOf(t'.store, q) == ConversationOf(t.store, q))
            && ConversationOf(t'.store, p).latestIncoming == ConversationOf(t.store, p).latestIncoming
            && t'.store.(conversations := t.store.conversations) == t.store
  {
    hide *;
    HistoryIsWindowOfLog(capacity, limit, ops, p);
    var t := Run(Start(capacity, limit), ops);
    UpdateFrame(t, p, PushesOf(t, p)[a].message.id, status);
    WindowLength(Retained(t, p), PushesOf(t, p));
    UpdateInWindow(Retained(t, p), PushesOf(t, p), a, status);
  }

  lemma {:induction false} WindowLength(ms: seq<StoredMessage>, log: seq<Push>)
    requires Window(ms, log)
    ensures |ms| == |log| - WindowStart(log)
  {}

  lemma {:induction false} UpdateFrame(t: Traced, p: string, id: Uuid, status: MessageStatus)
    ensures var t' := Step(t, UpdateStatus(p, id, status));
            && Retained(t', p) == SetStatus(Retained(t, p), id, status)
            && (forall q :: q != p ==> ConversationOf(t'.store, q) == ConversationOf(t.store, q))
            && ConversationOf(t'.store, p).latestIncoming == ConversationOf(t.store, p).latestIncoming
            && t'.store.(conversations := t.store.conversations) == t.store
  {}

  /** It does miss: the message is evicted before its status arrives, its peer has reused the id, and
      the incoming message is marked as sent. */
  lemma {:induction false} UpdateMarksIncoming(p: string, id: Uuid, mine: string, theirs: string)
    ensures var ops := [RecordOutgoing(p, id, mine, Sending, 0), RecordIncoming(p, p, id, 0, 0, theirs)];
            var t := Run(Start(DEDUP_CACHE_CAPACITY, 1), ops);
            var ms := Retained(Step(t, UpdateStatus(p, id, Sent)), p);
            |ms| == 1 && ms[0].direction == Incoming && ms[0].text == theirs && ms[0].status == Sent
  {
    var first, second := RecordOutgoing(p, id, mine, Sending, 0), RecordIncoming(p, p, id, 0, 0, theirs);
    var s0 := Start(DEDUP_CACHE_CAPACITY, 1);
    assert [first, second][..1] == [first] && [first][..0] == [];
    var s1 := Step(s0, first);
    assert Run(s0, [first]) == s1;
    assert Retained(s1, p) == [OutgoingMessage(first)];
    var s2 := Step(s1, second);
    assert Run(s0, [first, second]) == s2;
    assert Retained(s2, p) == [IncomingMessage(s1.store, second)];
    assert IndexOfId(Retained(s2, p), id) == 0;
  }

  // ------------------------------------------------------------------------------ latest incoming

  /** `r` is the incoming message of `ms` with the greatest receive sequence, if there is one. */
  ghost predicate IsLatestIncoming(ms: seq<StoredMessage>, r: Option<StoredMessage>) {
    && (r.None? <==> forall i :: 0 <= i < |ms| ==> ms[i].direction == Outgoing)
    && (r.Some? ==>
          && r.value in ms && r.value.direction == Incoming && r.value.receiveSequence.Some?
          && forall i :: 0 <= i < |ms| && ms[i].direction == Incoming ==>
               ms[i].receiveSequence.Some? && ms[i].receiveSequence.value <= r.value.receiveSequence.value)
  }

  lemma {:induction false} WindowDirections(ms: seq<StoredMessage>, log: seq<Push>)
    requires Window(ms, log)
    ensures forall i :: 0 <= i < |ms| ==>
              && ms[i].direction == log[WindowStart(log) + i].message.direction
              && ms[i].receiveSequence == log[WindowStart(log) + i].message.receiveSequence
  {
    forall i | 0 <= i < |ms| ensures SameButStatus(ms[i], log[WindowStart(log) + i].message) {}
  }

  /** Retained messages and their log entries agree on what the index is about. */
  ghost predicate Tracks(ms: seq<StoredMessage>, log: seq<Push>, start: nat, a: nat) {
    && |ms| == |log| - start && a < |log|
    && (forall i :: 0 <= i < |ms| ==>
          && ms[i].direction == log[start + i].message.direction
          && ms[i].receiveSequence == log[start + i].message.receiveSequence
          && (ms[i].direction == Incoming ==> ms[i].receiveSequence.Some?))
    && log[a].message.direction == Incoming && log[a].message.receiveSequence.Some?
    && (forall i :: a < i < |log| ==> log[i].message.direction == Outgoing)
    && (forall i :: 0 <= i < a && log[i].message.direction == Incoming ==>
          && log[i].message.receiveSequence.Some?
          && log[i].message.receiveSequence.value < log[a].message.receiveSequence.value)
  }

  lemma {:induction false} LatestIsEntry(ms: seq<StoredMessage>, log: seq<Push>, start: nat, a: nat, k: nat)
    requires start <= |log| && Tracks(ms, log, start, a) && k <= |ms|
    ensures IsLatestIncoming(ms, if k < |ms| then Some(ms[k]) else None) <==>
              if start <= a then k == a - start else k == |ms|
  {
    if start <= a {
      assert ms[a - start].direction == Incoming;
      if k < |ms| && ms[k].direction == Incoming && k != a - start {
        assert start + k < a;
      }
    }
  }

  lemma {:induction false} LatestInPeer(c: Conversation, log: seq<Push>, p: string, accepted: seq<StoredMessage>)
    requires PeerInv(c, log, p, accepted)
    ensures var after := AfterLastIncoming(log);
            IsLatestIncoming(c.messages, Answer(c)) <==> after == 0 || IdUnambiguous(log, after - 1)
  {
    hide AfterLastIncoming, WindowStart;
    var start, after := WindowStart(log), AfterLastIncoming(log);
    WindowDirections(c.messages, log);
    if after > 0 {
      assert Tracks(c.messages, log, start, after - 1) by { hide IsLatestIncoming, IdUnambiguous, Answer; }
      hide LogInv, Tracks, SameButStatus;
      UnambiguousLookUp(c.messages, log, after - 1);
      LatestIsEntry(c.messages, log, start, after - 1, IndexOfId(c.messages, log[after - 1].message.id));
      hide IsLatestIncoming, IdUnambiguous;
    }
  }

  /** After any run, whatever ids peers choose: the per-peer answer is the retained incoming message
      received last, and None if there is none, exactly when no incoming message was ever appended or
      no other retained entry stands in for the last one: none before it has its id, and none at all
      has it once it is gone. */
  lemma {:induction false} LatestIncomingIff(capacity: nat, limit: nat, ops: seq<StoreOp>, p: string)
    ensures var t := Run(Start(capacity, limit), ops);
            var log := PushesOf(t, p);
            IsLatestIncoming(Retained(t, p), LatestIncomingFor(t.store, p)) <==>
              AfterLastIncoming(log) == 0 || IdUnambiguous(log, AfterLastIncoming(log) - 1)
  {
    hide *;
    ReachableInv(capacity, limit, ops);
    var t := Run(Start(capacity, limit), ops);
    InvAtPeer(t, p);
    LatestInPeer(ConversationOf(t.store, p), PushesOf(t, p), p, t.accepted);
  }

  lemma {:induction false} InvAtPeer(t: Traced, p: string)
    requires Inv(t)
    ensures PeerInv(ConversationOf(t.store, p), PushesOf(t, p), p, t.accepted)
    ensures Answer(ConversationOf(t.store, p)) == LatestIncomingFor(t.store, p)
    ensures ConversationOf(t.store, p).messages == Retained(t, p)
  {
    hide CacheInv, AcceptedInv, PeerInv, Answer;
  }

  lemma {:induction false} OutgoingInPeer(c: Conversation, log: seq<Push>, p: string, accepted: seq<StoredMessage>)
    requires PeerInv(c, log, p, accepted)
    ensures Answer(c).Some? && Answer(c).value.direction == Outgoing <==>
              AfterLastIncoming(log) > 0 &&
              exists i: nat :: i < |log| && Stands(log, i, AfterLastIncoming(log) - 1) && log[i].message.direction == Outgoing
  {
    hide AfterLastIncoming, WindowStart, SameButStatus, Stands, LogInv;
    WindowDirections(c.messages, log);
    if AfterLastIncoming(log) > 0 {
      var a, start := AfterLastIncoming(log) - 1, WindowStart(log);
      var k := IndexOfId(c.messages, log[a].message.id);
      forall i: nat | i < |log| ensures Stands(log, i, a) <==> start <= i && k == i - start {
        StandsIff(c.messages, log, i, a);
      }
      if k < |c.messages| { assert Stands(log, start + k, a); }
    }
  }

  /** Exactly when the promise never to answer with an outgoing message is broken: when the first
      retained entry with the id of the last incoming message is an outgoing one. */
  lemma {:induction false} OutgoingAnswerIff(capacity: nat, limit: nat, ops: seq<StoreOp>, p: string)
    ensures var t := Run(Start(capacity, limit), ops);
            var log, r := PushesOf(t, p), LatestIncomingFor(t.store, p);
            r.Some? && r.value.direction == Outgoing <==>
              AfterLastIncoming(log) > 0 &&
              exists i: nat :: i < |log| && Stands(log, i, AfterLastIncoming(log) - 1) && log[i].message.direction == Outgoing
  {
    hide *;
    ReachableInv(capacity, limit, ops);
    var t := Run(Start(capacity, limit), ops);
    InvAtPeer(t, p);
    OutgoingInPeer(ConversationOf(t.store, p), PushesOf(t, p), p, t.accepted);
  }

  /** With distinct ids no entry is ever stood in for, so every answer and every update is right. */
  lemma {:induction false} DistinctIdsSuffice(log: seq<Push>, a: nat)
    requires DistinctIds(log) && a < |log|
    ensures IdUnambiguous(log, a)
  {
    hide WindowStart;
  }

  /** `m` is still in its peer's retained history (its status aside). */
  ghost predicate StillRetained(t: Traced, m: StoredMessage) {
    exists i :: 0 <= i < |Retained(t, m.peerId)| && SameButStatus(Retained(t, m.peerId)[i], m)
  }

  lemma {:induction false} LastAcceptedIsLastIncoming(t: Traced)
    requires Inv(t) && t.accepted != []
    ensures var m := t.accepted[|t.accepted| - 1];
            var log := PushesOf(t, m.peerId);
            AfterLastIncoming(log) > 0 && log[AfterLastIncoming(log) - 1].message == m
  {
    hide CacheInv, AfterLastIncoming, WindowStart, Window, LastIncomingId;
    var m := t.accepted[|t.accepted| - 1];
    var log := PushesOf(t, m.peerId);
    assert PeerInv(ConversationOf(t.store, m.peerId), log, m.peerId, t.accepted);
    assert Logged(t, m);
    var j :| 0 <= j < |log| && log[j].message == m;
    var last := AfterLastIncoming(log) - 1;
    assert j <= last;
    assert log[last].message.receiveSequence.value < |t.accepted|;
  }

  /** No message retained under `p` was received after the last accepted one. */
  ghost predicate NothingLater(t: Traced, p: string) {
    forall i :: 0 <= i < |Retained(t, p)| && Retained(t, p)[i].direction == Incoming ==>
      && Retained(t, p)[i].receiveSequence.Some?
      && Retained(t, p)[i].receiveSequence.value <= |t.accepted| - 1
  }

  lemma {:induction false} NothingRetainedIsLater(t: Traced, p: string)
    requires PeerInv(ConversationOf(t.store, p), PushesOf(t, p), p, t.accepted)
    ensures NothingLater(t, p)
  {
    WindowDirections(Retained(t, p), PushesOf(t, p));
  }

  /** The answer of the global index, given the last accepted message. */
  ghost predicate GlobalSpec(t: Traced, r: Option<StoredMessage>) {
    && (r.None? <==> t.accepted == [] || !StillRetained(t, t.accepted[|t.accepted| - 1]))
    && (r.Some? ==> SameButStatus(r.value, t.accepted[|t.accepted| - 1]))
    && (r.Some? ==> r.value.receiveSequence == Some(|t.accepted| - 1) && forall p :: NothingLater(t, p))
  }

  lemma {:induction false} StillRetainedIff(t: Traced, m: StoredMessage, a: nat)
    requires PeerInv(ConversationOf(t.store, m.peerId), PushesOf(t, m.peerId), m.peerId, t.accepted)
    requires a < |PushesOf(t, m.peerId)| && PushesOf(t, m.peerId)[a].message == m && m.direction == Incoming
    ensures StillRetained(t, m) <==> WindowStart(PushesOf(t, m.peerId)) <= a
  {
    hide WindowStart, AfterLastIncoming;
    var log, ms, start := PushesOf(t, m.peerId), Retained(t, m.peerId), WindowStart(PushesOf(t, m.peerId));
    if start <= a { assert SameButStatus(ms[a - start], log[start + (a - start)].message); }
    if j :| 0 <= j < |ms| && SameButStatus(ms[j], m) {
      assert SameButStatus(ms[j], log[start + j].message);
      assert start + j == a;
    }
  }

  lemma {:induction false} GlobalLooksUp(t: Traced)
    requires Inv(t) && t.accepted != []
    ensures var m := t.accepted[|t.accepted| - 1];
            && LatestIncomingGlobal(t.store) == FindById(Retained(t, m.peerId), m.id)
            && m.direction == Incoming
            && PeerInv(ConversationOf(t.store, m.peerId), PushesOf(t, m.peerId), m.peerId, t.accepted)
  {
    hide CacheInv, PeerInv, Logged;
  }

  /** The arithmetic of looking entry `a` up at index `k` of a window that begins at `start`. */
  lemma {:induction false} AnswerFits(ms: seq<StoredMessage>, start: nat, a: nat, k: nat, m: StoredMessage, still: bool)
    requires k <= |ms| && (still <==> start <= a)
    requires k < |ms| ==> (SameButStatus(ms[k], m) <==> start + k == a)
    ensures var r := if k < |ms| then Some(ms[k]) else None;
            (r.None? <==> !still) && (r.Some? ==> SameButStatus(r.value, m)) <==>
            if start <= a then k < |ms| && k == a - start else k == |ms|
  {
    hide SameButStatus;
  }

  lemma {:induction false} GlobalAnswer(t: Traced)
    requires Inv(t) && t.accepted != []
    ensures var m := t.accepted[|t.accepted| - 1];
            var log, r := PushesOf(t, m.peerId), LatestIncomingGlobal(t.store);
            && AfterLastIncoming(log) > 0 && log[AfterLastIncoming(log) - 1].message == m
            && ((r.None? <==> !StillRetained(t, m)) && (r.Some? ==> SameButStatus(r.value, m)) <==>
                IdUnambiguous(log, AfterLastIncoming(log) - 1))
  {
    hide Inv, AfterLastIncoming, WindowStart, StillRetained, IdUnambiguous, SameButStatus, LogInv, LastIncomingId;
    var m := t.accepted[|t.accepted| - 1];
    var log, ms := PushesOf(t, m.peerId), Retained(t, m.peerId);
    GlobalLooksUp(t);
    LastAcceptedIsLastIncoming(t);
    var a, start, k := AfterLastIncoming(log) - 1, WindowStart(log), IndexOfId(ms, m.id);
    StillRetainedIff(t, m, a);
    UnambiguousLookUp(ms, log, a);
    if k < |ms| { RetainedIsEntry(t, m.peerId, k, a); }
    assert |ms| == |log| - start;
    hide Window, PeerInv;
    AnswerFits(ms, start, a, k, m, StillRetained(t, m));
  }

  lemma {:induction false} RetainedIsEntry(t: Traced, p: string, k: nat, a: nat)
    requires Inv(t) && k < |Retained(t, p)|
    requires a < |PushesOf(t, p)| && PushesOf(t, p)[a].message.direction == Incoming
    ensures SameButStatus(Retained(t, p)[k], PushesOf(t, p)[a].message) <==> WindowStart(PushesOf(t, p)) + k == a
  {
    hide WindowStart, CacheInv, AcceptedInv, LogInv;
    PeerWindow(t, p);
    var log := PushesOf(t, p);
    var i := WindowStart(log) + k;
    assert SameButStatus(Retained(t, p)[k], log[i].message);
    SequencesDiffer(t, p, i, a);
  }

  lemma {:induction false} PeerWindow(t: Traced, p: string)
    requires Inv(t)
    ensures Window(Retained(t, p), PushesOf(t, p)) && LogInv(PushesOf(t, p), p, t.accepted)
  {
    assert PeerInv(ConversationOf(t.store, p), PushesOf(t, p), p, t.accepted);
  }

  /** An incoming log entry is told from every other by its sequence number. */
  lemma {:induction false} SequencesDiffer(t: Traced, p: string, i: nat, a: nat)
    requires Inv(t) && i < |PushesOf(t, p)| && a < |PushesOf(t, p)| && PushesOf(t, p)[a].message.direction == Incoming
    ensures PushesOf(t, p)[i].message.receiveSequence == PushesOf(t, p)[a].message.receiveSequence <==> i == a
  {
    hide CacheInv, AcceptedInv, Window;
    PeerWindow(t, p);
  }

  /** After any run, whatever ids peers choose: the global answer is the last accepted message, which
      has the greatest receive sequence retained anywhere, and None when it is gone or never was,
      exactly when nothing was accepted or no other retained entry of its peer stands in for it. */
  lemma {:induction false} LatestGlobalIff(capacity: nat, limit: nat, ops: seq<StoreOp>)
    ensures var t := Run(Start(capacity, limit), ops);
            GlobalSpec(t, LatestIncomingGlobal(t.store)) <==>
              t.accepted == [] ||
              var log := PushesOf(t, t.accepted[|t.accepted| - 1].peerId);
              AfterLastIncoming(log) > 0 && IdUnambiguous(log, AfterLastIncoming(log) - 1)
  {
    hide *;
    ReachableInv(capacity, limit, ops);
    LatestGlobalAt(Run(Start(capacity, limit), ops));
  }

  lemma {:induction false} LatestGlobalAt(t: Traced)
    requires Inv(t)
    ensures GlobalSpec(t, LatestIncomingGlobal(t.store)) <==>
              t.accepted == [] ||
              var log := PushesOf(t, t.accepted[|t.accepted| - 1].peerId);
              AfterLastIncoming(log) > 0 && IdUnambiguous(log, AfterLastIncoming(log) - 1)
  {
    hide CacheInv, PeerInv, IdUnambiguous, Logged, AfterLastIncoming, StillRetained;
    if t.accepted != [] {
      GlobalAnswer(t);
    }
    forall p ensures NothingLater(t, p) {
      InvAtPeer(t, p);
      NothingRetainedIsLater(t, p);
    }
  }

  /** The global answer is the per-peer answer of the peer whose message was accepted last; so it is an
      outgoing message exactly when that one is. */
  lemma {:induction false} GlobalIsPeerAnswer(capacity: nat, limit: nat, ops: seq<StoreOp>)
    ensures var t := Run(Start(capacity, limit), ops);
            LatestIncomingGlobal(t.store) ==
            if t.accepted == [] then None else LatestIncomingFor(t.store, t.accepted[|t.accepted| - 1].peerId)
  {
    hide *;
    ReachableInv(capacity, limit, ops);
    GlobalIsPeerAnswerAt(Run(Start(capacity, limit), ops));
  }

  lemma {:induction false} GlobalIsPeerAnswerAt(t: Traced)
    requires Inv(t)
    ensures LatestIncomingGlobal(t.store) ==
            if t.accepted == [] then None else LatestIncomingFor(t.store, t.accepted[|t.accepted| - 1].peerId)
  {
    if t.accepted == [] {
      hide CacheInv, PeerInv;
    } else {
      hide *;
      var m := t.accepted[|t.accepted| - 1];
      GlobalLooksUp(t);
      InvAtPeer(t, m.peerId);
      LastAcceptedIsLastIncoming(t);
      AnswerById(ConversationOf(t.store, m.peerId), PushesOf(t, m.peerId), m.peerId, t.accepted);
    }
  }

  lemma {:induction false} AnswerById(c: Conversation, log: seq<Push>, p: string, accepted: seq<StoredMessage>)
    requires PeerInv(c, log, p, accepted) && AfterLastIncoming(log) > 0
    ensures Answer(c) == FindById(c.messages, log[AfterLastIncoming(log) - 1].message.id)
  {
    hide AfterLastIncoming, Window, LogInv, FindById;
  }

  // ---------------------------------------------------- what happens when an id is used twice

  function IdsOf(ms: seq<StoredMessage>): set<Uuid> {
    set i | 0 <= i < |ms| :: ms[i].id
  }

  lemma {:induction false} FoundLastIff(ms: seq<StoredMessage>, m: StoredMessage, limit: nat)
    requires m !in ms
    ensures FindById(LastN(ms + [m], limit), m.id) == Some(m) <==>
            limit > 0 && m.id !in IdsOf(LastN(ms, limit - 1))
  {
    if limit > 0 {
      var older, kept := LastN(ms, limit - 1), LastN(ms + [m], limit);
      assert kept == older + [m];
      var i := IndexOfId(kept, m.id);
      if i < |older| {
        assert kept[i] == older[i] && older[i] in ms;
      } else {
        assert kept[|older|].id == m.id;
        forall j | 0 <= j < |older| ensures older[j].id != m.id {
          assert kept[j] == older[j];
        }
        assert m.id !in IdsOf(older);
      }
    }
  }

  lemma {:induction false} NewMessageInPeer(t: Traced, op: StoreOp)
    requires op.RecordIncoming? && (op.peerId, op.id) !in t.store.cache.seen
    requires PeerInv(ConversationOf(t.store, op.peerId), PushesOf(t, op.peerId), op.peerId, t.accepted)
    requires t.store.nextSequence == |t.accepted|
    ensures LatestIncomingFor(Apply(t.store, op), op.peerId) == Some(IncomingMessage(t.store, op))
            <==> t.store.limit > 0 && op.id !in IdsOf(LastN(Retained(t, op.peerId), t.store.limit - 1))
  {
    var m, p := IncomingMessage(t.store, op), op.peerId;
    NothingRetainedIsLater(t, p);
    hide PeerInv;
    assert m !in Retained(t, p);
    FoundLastIff(Retained(t, p), m, t.store.limit);
    assert ConversationOf(Apply(t.store, op), p) == Conversation(LastN(Retained(t, p) + [m], t.store.limit), Some(m.id));
  }

  /** A newly accepted message becomes the answer exactly when no older entry that survives the
      push carries its id (and the limit lets it be kept at all). */
  lemma {:induction false} NewMessageIsLatestIff(capacity: nat, limit: nat, ops: seq<StoreOp>, op: StoreOp)
    requires op.RecordIncoming?
    requires (op.peerId, op.id) !in Run(Start(capacity, limit), ops).store.cache.seen
    ensures var t := Run(Start(capacity, limit), ops);
            LatestIncomingFor(Apply(t.store, op), op.peerId) == Some(IncomingMessage(t.store, op))
            <==> t.store.limit > 0 && op.id !in IdsOf(LastN(Retained(t, op.peerId), t.store.limit - 1))
  {
    ReachableInv(capacity, limit, ops);
    hide Run, CacheInv, Logged;
    NewMessageInPeer(Run(Start(capacity, limit), ops), op);
  }

  /** The store does answer with an outgoing message when a peer reuses the id of a message that
      was sent to it: two steps from an empty store suffice. */
  lemma {:induction false} ReusedIdReturnsOutgoing(p: string, id: Uuid, mine: string, theirs: string)
    ensures var ops := [RecordOutgoing(p, id, mine, Sent, 0), RecordIncoming(p, p, id, 0, 0, theirs)];
            var r := LatestIncomingFor(Run(Start(DEDUP_CACHE_CAPACITY, 100), ops).store, p);
            r.Some? && r.value.direction == Outgoing && r.value.text == mine
  {
    var first := RecordOutgoing(p, id, mine, Sent, 0);
    var second := RecordIncoming(p, p, id, 0, 0, theirs);
    var s0 := Start(DEDUP_CACHE_CAPACITY, 100);
    assert [first, second][..1] == [first] && [first][..0] == [];
    var s1 := Step(s0, first);
    assert Run(s0, [first]) == s1;
    assert Retained(s1, p) == [OutgoingMessage(first)];
    var s2 := Step(s1, second);
    assert Run(s0, [first, second]) == s2;
    assert Retained(s2, p) == [OutgoingMessage(first), IncomingMessage(s1.store, second)];
    assert IndexOfId(Retained(s2, p), id) == 0;
  }

  // ------------------------------------------------------------------------ what is recorded

  /** An accepted message is logged with everything it came with, the next sequence number and the time
      of its receipt, and is the newest entry of its history unless the limit is zero. */
  lemma {:induction false} RecordedAsReceived(t: Traced, op: StoreOp)
    requires op.RecordIncoming? && (op.peerId, op.id) !in t.store.cache.seen
    ensures var t' := Step(t, op);
            && |t'.accepted| == |t.accepted| + 1 && t'.store.nextSequence == t.store.nextSequence + 1
            && var m := t'.accepted[|t.accepted|];
               && m.id == op.id && m.peerId == op.peerId && m.senderLabel == op.sender && m.text == op.text
               && m.sentAt == op.sentAt && m.receivedAt == op.receivedAt
               && m.direction == Incoming && m.status == Received && m.receiveSequence == Some(t.store.nextSequence)
               && (t.store.limit > 0 ==> var ms := Retained(t', op.peerId); ms != [] && ms[|ms| - 1] == m)
  {
    hide CacheInsert, AppendPush;
  }

  /** An outgoing message is logged under "You", with one clock reading for both times. */
  lemma {:induction false} RecordedAsSent(t: Traced, op: StoreOp)
    requires op.RecordOutgoing?
    ensures var log := PushesOf(Step(t, op), op.peerId);
            && |log| == |PushesOf(t, op.peerId)| + 1
            && var m := log[|log| - 1].message;
               && m.id == op.id && m.peerId == op.peerId && m.senderLabel == "You" && m.text == op.text
               && m.sentAt == op.now && m.receivedAt == op.now
               && m.direction == Outgoing && m.status == op.status && m.receiveSequence == None
               && (t.store.limit > 0 ==> var ms := Retained(Step(t, op), op.peerId); ms != [] && ms[|ms| - 1] == m)
  {}

  /** A new limit holds from the next push on; changing it touches nothing else. */
  lemma {:induction false} LimitTakesHold(t: Traced, limit: nat, op: StoreOp)
    requires op.RecordOutgoing?
    ensures var t' := Step(t, SetLimit(limit));
            && t'.store == t.store.(limit := limit) && t'.accepted == t.accepted && t'.pushes == t.pushes
            && Retained(Step(t', op), op.peerId) == LastN(Retained(t, op.peerId) + [OutgoingMessage(op)], limit)
  {}
}
