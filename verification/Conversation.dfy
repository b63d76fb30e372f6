/** The in-memory conversation store: bounded dedup cache, bounded per-peer history and the
    two "latest incoming" indexes, each a mutable class proved against functions on values. */
module Conversation {
  import opened Basics

  const DEDUP_CACHE_CAPACITY: nat := 10_000

  /** `history.limit_per_peer` of a default configuration. */
  const DEFAULT_HISTORY_LIMIT: nat := 100

  datatype Direction = Incoming | Outgoing

  datatype MessageStatus = Sending | Sent | Received | Failed

  datatype StoredMessage = StoredMessage(
    id: Uuid,
    peerId: string,
    direction: Direction,
    senderLabel: string,
    text: string,
    sentAt: int,
    receivedAt: int,
    receiveSequence: Option<nat>,
    status: MessageStatus)

  datatype Conversation = Conversation(messages: seq<StoredMessage>, latestIncoming: Option<Uuid>)

  datatype RecordOutcome = Accepted | Duplicate

  /** A dedup key: the authenticated sender and the message id it chose. */
  type Key = (string, Uuid)

  datatype CacheState = CacheState(order: seq<Key>, seen: set<Key>, capacity: nat)

  datatype StoreState = StoreState(
    conversations: map<string, Conversation>,
    latestGlobal: Option<Key>,
    cache: CacheState,
    nextSequence: nat,
    limit: nat)

  /** One call that changes the store; clock readings are arguments. */
  datatype StoreOp =
    | RecordIncoming(peerId: string, sender: string, id: Uuid, sentAt: int, receivedAt: int, text: string)
    | RecordOutgoing(peerId: string, id: Uuid, text: string, status: MessageStatus, now: int)
    | UpdateStatus(peerId: string, id: Uuid, status: MessageStatus)
    | SetLimit(limit: nat)

  // ------------------------------------------------------------------ specification functions

  function LastN<T>(s: seq<T>, n: nat): seq<T> {
    if |s| <= n then s else s[|s| - n..]
  }

  function CacheInsert(c: CacheState, k: Key): CacheState {
    if k in c.seen then c
    else
      var order := c.order + [k];
      if |order| > c.capacity then
        c.(order := order[1..], seen := c.seen + {k} - {order[0]})
      else
        c.(order := order, seen := c.seen + {k})
  }

  function ConversationOf(s: StoreState, p: string): Conversation {
    if p in s.conversations then s.conversations[p] else Conversation([], None)
  }

  function IndexOfId(ms: seq<StoredMessage>, id: Uuid): (i: nat)
    ensures i <= |ms|
    ensures i < |ms| ==> ms[i].id == id
    ensures forall j :: 0 <= j < i ==> ms[j].id != id
  {
    if ms == [] then 0 else if ms[0].id == id then 0 else 1 + IndexOfId(ms[1..], id)
  }

  function FindById(ms: seq<StoredMessage>, id: Uuid): Option<StoredMessage> {
    var i := IndexOfId(ms, id);
    if i < |ms| then Some(ms[i]) else None
  }

  function IncomingMessage(s: StoreState, op: StoreOp): StoredMessage
    requires op.RecordIncoming?
  {
    StoredMessage(op.id, op.peerId, Incoming, op.sender, op.text, op.sentAt, op.receivedAt,
                  Some(s.nextSequence), Received)
  }

  function OutgoingMessage(op: StoreOp): StoredMessage
    requires op.RecordOutgoing?
  {
    StoredMessage(op.id, op.peerId, Outgoing, "You", op.text, op.now, op.now, None, op.status)
  }

  function SetStatus(ms: seq<StoredMessage>, id: Uuid, status: MessageStatus): (r: seq<StoredMessage>)
    ensures |r| == |ms|
  {
    var i := IndexOfId(ms, id);
    if i < |ms| then ms[i := ms[i].(status := status)] else ms
  }

  function Apply(s: StoreState, op: StoreOp): StoreState {
    match op
    case RecordIncoming(p, _, id, _, _, _) =>
      if (p, id) in s.cache.seen then s
      else
        var ms := LastN(ConversationOf(s, p).messages + [IncomingMessage(s, op)], s.limit);
        StoreState(s.conversations[p := Conversation(ms, Some(id))], Some((p, id)),
                   CacheInsert(s.cache, (p, id)), s.nextSequence + 1, s.limit)
    case RecordOutgoing(p, _, _, _, _) =>
      var c := ConversationOf(s, p);
      s.(conversations := s.conversations[p := c.(messages := LastN(c.messages + [OutgoingMessage(op)], s.limit))])
    case UpdateStatus(p, id, status) =>
      if p in s.conversations then
        var c := s.conversations[p];
        s.(conversations := s.conversations[p := c.(messages := SetStatus(c.messages, id, status))])
      else s
    case SetLimit(n) => s.(limit := n)
  }

  /** What the index of one conversation answers with. */
  function Answer(c: Conversation): Option<StoredMessage> {
    if c.latestIncoming.None? then None else FindById(c.messages, c.latestIncoming.value)
  }

  function LatestIncomingFor(s: StoreState, p: string): Option<StoredMessage> {
    Answer(ConversationOf(s, p))
  }

  function LatestIncomingGlobal(s: StoreState): Option<StoredMessage> {
    if s.latestGlobal.None? then None
    else FindById(ConversationOf(s, s.latestGlobal.value.0).messages, s.latestGlobal.value.1)
  }

  function Fresh(capacity: nat, limit: nat): StoreState {
    StoreState(map[], None, CacheState([], {}, capacity), 0, limit)
  }

  // --------------------------------------------------------------------------------- classes

  class BoundedDedupCache {
    var order: seq<Key>
    var seen: set<Key>
    const capacity: nat

    constructor (capacity: nat)
      ensures State() == CacheState([], {}, capacity)
    {
      order, seen := [], {};
      this.capacity := capacity;
    }

    ghost function State(): CacheState
      reads this
    {
      CacheState(order, seen, capacity)
    }

    method Contains(peerId: string, id: Uuid) returns (r: bool)
      ensures r <==> (peerId, id) in seen
    {
      r := (peerId, id) in seen;
    }

    method Insert(peerId: string, id: Uuid)
      modifies this
      ensures State() == CacheInsert(old(State()), (peerId, id))
    {
      var key := (peerId, id);
      if key in seen {
        return;
      }
      seen := seen + {key};
      order := order + [key];
      if |order| > capacity {
        var oldest := order[0];
        order := order[1..];
        seen := seen - {oldest};
      }
    }
  }

  /** Appends, then pops from the front until the limit holds. */
  method PushBounded(messages: seq<StoredMessage>, message: StoredMessage, limit: nat)
    returns (r: seq<StoredMessage>)
    ensures r == LastN(messages + [message], limit)
  {
    r := messages + [message];
    ghost var all := r;
    ghost var popped := 0;
    while |r| > limit
      invariant 0 <= popped <= |all|
      invariant r == all[popped..]
      invariant popped > 0 ==> |r| >= limit
    {
      r := r[1..];
      popped := popped + 1;
    }
  }

  class ConversationStore {
    var conversations: map<string, Conversation>
    var latestGlobal: Option<Key>
    const dedup: BoundedDedupCache
    var nextSequence: nat
    var limit: nat

    constructor (limit: nat)
      ensures fresh(dedup)
      ensures State() == Fresh(DEDUP_CACHE_CAPACITY, limit)
    {
      conversations, latestGlobal := map[], None;
      dedup := new BoundedDedupCache(DEDUP_CACHE_CAPACITY);
      nextSequence, this.limit := 0, limit;
    }

    ghost function State(): StoreState
      reads this, dedup
    {
      StoreState(conversations, latestGlobal, dedup.State(), nextSequence, limit)
    }

    method Record(peerId: string, sender: string, id: Uuid, sentAt: int, receivedAt: int, text: string)
      returns (outcome: RecordOutcome)
      modifies this, dedup
      ensures State() == Apply(old(State()), StoreOp.RecordIncoming(peerId, sender, id, sentAt, receivedAt, text))
      ensures outcome == Duplicate <==> (peerId, id) in old(dedup.seen)
    {
      var known := dedup.Contains(peerId, id);
      if known {
        return Duplicate;
      }
      dedup.Insert(peerId, id);
      var sequence := nextSequence;
      nextSequence := nextSequence + 1;
      var message := StoredMessage(id, peerId, Incoming, sender, text, sentAt, receivedAt, Some(sequence), Received);
      var before := if peerId in conversations then conversations[peerId] else Conversation([], None);
      var kept := PushBounded(before.messages, message, limit);
      conversations := conversations[peerId := Conversation(kept, Some(id))];
      latestGlobal := Some((peerId, id));
      return Accepted;
    }

    method Log(peerId: string, id: Uuid, text: string, status: MessageStatus, now: int)
      returns (message: StoredMessage)
      modifies this
      ensures State() == Apply(old(State()), StoreOp.RecordOutgoing(peerId, id, text, status, now))
      ensures message.direction == Outgoing && message.id == id && message.text == text && message.senderLabel == "You"
              && message.peerId == peerId && message.status == status && message.receiveSequence.None?
              && message.sentAt == now && message.receivedAt == now
    {
      message := StoredMessage(id, peerId, Outgoing, "You", text, now, now, None, status);
      var before := if peerId in conversations then conversations[peerId] else Conversation([], None);
      var kept := PushBounded(before.messages, message, limit);
      conversations := conversations[peerId := before.(messages := kept)];
    }

    method UpdateOutgoingStatus(peerId: string, id: Uuid, status: MessageStatus)
      modifies this
      ensures State() == Apply(old(State()), StoreOp.UpdateStatus(peerId, id, status))
    {
      if peerId in conversations {
        var c := conversations[peerId];
        var i := IndexOfId(c.messages, id);
        if i < |c.messages| {
          conversations := conversations[peerId := c.(messages := c.messages[i := c.messages[i].(status := status)])];
        }
      }
    }

    method LatestFor(peerId: string) returns (m: Option<StoredMessage>)
      ensures m == LatestIncomingFor(State(), peerId)
    {
      if peerId !in conversations || conversations[peerId].latestIncoming.None? {
        return None;
      }
      m := FindById(conversations[peerId].messages, conversations[peerId].latestIncoming.value);
    }

    method LatestOverall() returns (m: Option<StoredMessage>)
      ensures m == LatestIncomingGlobal(State())
    {
      if latestGlobal.None? || latestGlobal.value.0 !in conversations {
        return None;
      }
      m := FindById(conversations[latestGlobal.value.0].messages, latestGlobal.value.1);
    }

    method SetHistoryLimit(limit: nat)
      modifies this
      ensures State() == Apply(old(State()), StoreOp.SetLimit(limit))
    {
      this.limit := limit;
    }
  }
}
