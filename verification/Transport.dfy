/** The accept path with its tie-break, the handler of an incoming stream, and the send path, locked
    section by locked section. What dialing and the streams do is an argument of the call. */
module Transport {
  import opened Basics
  import opened Network
  import opened Peers
  import opened AppState
  import opened Connection
  import Conversation
  import Postcard
  import Protocol
  import Utf8

  /** What the handler of an incoming text decides. */
  datatype Verdict = Unauthorized | TooLong(actual: nat) | ToRecord(alias: string)

  /** What became of opening a stream, writing and waiting for the answer. */
  datatype StreamOutcome = StreamOutcome(streamOpen: bool, written: bool, reply: Option<NetworkBody>)

  datatype ExchangeError = ConnectFailed | NotExchanged | RejectedBy(message: string)

  datatype SendFailure = EmptyText | TextTooLong | NoPeer(error: PeerError) | Undelivered(reason: ExchangeError)

  function Judge(peers: seq<TrustedPeer>, remoteId: string, text: string): Verdict {
    var i := FindEndpoint(peers, remoteId);
    if i == |peers| then Unauthorized
    else
      var valid := ValidateTextLen(text);
      if valid.Err? then TooLong(valid.error.actual) else ToRecord(peers[i].alias)
  }

  function Enveloped(requestId: Uuid, body: NetworkBody): Envelope {
    Envelope(Protocol.NETWORK_PROTOCOL_VERSION, requestId, body)
  }

  function TooLongMessage(actual: nat): string {
    "text payload of " + Decimal(actual) + " bytes exceeds the " + Decimal(MAX_TEXT_BYTES) + "-byte limit"
  }

  function Reply(v: Verdict, messageId: Uuid): NetworkBody {
    match v
    case Unauthorized => Error("unauthorized", "endpoint is not a trusted peer")
    case TooLong(actual) => Error("limit_exceeded", TooLongMessage(actual))
    case ToRecord(_) => Ack(messageId, true, None)
  }

  function AfterText(store: Conversation.StoreState, v: Verdict, from: string, payload: NetworkBody, now: int): Conversation.StoreState
    requires payload.Text?
  {
    if v.ToRecord? then
      Conversation.Apply(store, Conversation.RecordIncoming(from, v.alias, payload.messageId, payload.sentAt, now, payload.text))
    else store
  }

  /** What an answer that does not acknowledge is reported as. */
  function RejectionMessage(reply: NetworkBody): string {
    match reply
    case Ack(_, _, error) => if error.Some? then error.value else "rejected"
    case Error(_, message) => message
    case _ => "unexpected response"
  }

  predicate Acknowledges(reply: Option<NetworkBody>) {
    reply.Some? && reply.value.Ack? && reply.value.acknowledged
  }

  /** Who a text goes to, or why it goes to no one. */
  function Recipient(peers: seq<TrustedPeer>, identifier: string, text: string): Result<string, SendFailure> {
    if text == "" then Err(EmptyText)
    else if ValidateTextLen(text).Err? then Err(TextTooLong)
    else
      var peer := PeerOf(peers, identifier);
      if peer.Err? then Err(NoPeer(peer.error)) else Ok(peer.value.endpointId)
  }

  function AfterInbound(r: Registry, closed: set<Conn>, myId: string, remoteId: string, c: Conn): Registry {
    if KeepInbound(r, closed, myId, remoteId) then MarkedOnline(r, remoteId, c) else r
  }

  /** The registry once the send path has a connection, dialed if none was cached. */
  function Connected(r: Registry, closed: set<Conn>, id: string, dialed: Option<Conn>): Registry {
    if Cached(r, closed, id).None? && dialed.Some? then MarkedOnline(r, id, dialed.value) else r
  }

  /** The daemon's two ends of a text, over its shared state. Each of the methods that name a section
      holds the lock once; what may happen between two of them is the subject of Daemon and TrustRuns. */
  class Transport {
    const myId: string
    const state: SharedState

    constructor (myId: string, state: SharedState)
      ensures this.myId == myId && this.state == state
    {
      this.myId, this.state := myId, state;
    }

    // ---- accepting a connection

    /** First section of an accept: the trust check. */
    method IsTrusted(remoteId: string) returns (trusted: bool)
      ensures trusted <==> Trusts(state.book.peers, remoteId)
    {
      var i := FindEndpoint(state.book.peers, remoteId);
      trusted := i < |state.book.peers|;
      if trusted { assert EndpointIds(state.book.peers)[i] == remoteId; }
    }

    /** Second section, for an endpoint that was found trusted: registers the connection, or not when
        the tie-break is against it and it is closed as a duplicate. Trust is not looked at again. */
    method RegisterInbound(remoteId: string, c: Conn, closed: set<Conn>) returns (kept: bool)
      modifies state.registry
      ensures kept <==> KeepInbound(old(state.registry.peers), closed, myId, remoteId)
      ensures state.registry.peers == AfterInbound(old(state.registry.peers), closed, myId, remoteId, c)
    {
      kept := state.registry.ShouldKeepInbound(myId, remoteId, closed);
      if kept {
        state.registry.MarkOnline(remoteId, c);
      }
    }

    /** Both sections with nothing in between. Strangers are kept too: they may be about to pair. */
    method Accept(remoteId: string, c: Conn, closed: set<Conn>) returns (kept: bool)
      modifies state.registry
      ensures kept <==> !Trusts(state.book.peers, remoteId) || KeepInbound(old(state.registry.peers), closed, myId, remoteId)
      ensures state.registry.peers ==
                if Trusts(state.book.peers, remoteId) then AfterInbound(old(state.registry.peers), closed, myId, remoteId, c)
                else old(state.registry.peers)
    {
      kept := true;
      var trusted := IsTrusted(remoteId);
      if trusted {
        kept := RegisterInbound(remoteId, c, closed);
      }
    }

    // ---- answering a stream

    /** First section of an incoming text, and the length check that needs no lock. */
    method CheckSender(remoteId: string, text: string) returns (v: Verdict)
      ensures v == Judge(state.book.peers, remoteId, text)
    {
      var i := FindEndpoint(state.book.peers, remoteId);
      if i == |state.book.peers| {
        return Unauthorized;
      }
      var alias := state.book.peers[i].alias;
      var valid := ValidateTextLen(text);
      if valid.Err? {
        return TooLong(valid.error.actual);
      }
      return ToRecord(alias);
    }

    /** Second section of an incoming text that was let in: a duplicate is acknowledged like the rest. */
    method RecordText(remoteId: string, alias: string, payload: NetworkBody, now: int)
      requires payload.Text?
      modifies state.conversations, state.conversations.dedup
      ensures state.conversations.State() ==
                AfterText(old(state.conversations.State()), ToRecord(alias), remoteId, payload, now)
    {
      var _ := state.conversations.Record(remoteId, alias, payload.messageId, payload.sentAt, now, payload.text);
    }

    /** Both sections with nothing in between, and the answer. */
    method HandleText(remoteId: string, payload: NetworkBody, now: int) returns (reply: NetworkBody)
      requires payload.Text?
      modifies state.conversations, state.conversations.dedup
      ensures reply == Reply(Judge(state.book.peers, remoteId, payload.text), payload.messageId)
      ensures state.conversations.State() ==
                AfterText(old(state.conversations.State()), Judge(state.book.peers, remoteId, payload.text), remoteId, payload, now)
    {
      var v := CheckSender(remoteId, payload.text);
      if v.ToRecord? {
        RecordText(remoteId, v.alias, payload, now);
      }
      reply := Reply(v, payload.messageId);
    }

    /** Reads the opening envelope of a stream and answers it; None where nothing is answered here: a
        stream that gives no envelope, and a pairing request, which pairing takes over. */
    method HandleIncomingStream(remoteId: string, stream: Bytes, now: int) returns (reply: Option<Envelope>)
      modifies state.conversations, state.conversations.dedup
      ensures var read := ReadEnvelope(stream);
              match read
              case Err(_) => reply.None?
              case Ok((e, _)) =>
                && (reply.None? <==> e.body.PairRequest?)
                && (reply.Some? ==> reply.value.requestId == e.requestId)
                && (e.body.Text? ==> reply == Some(Enveloped(e.requestId, Reply(Judge(state.book.peers, remoteId, e.body.text), e.body.messageId))))
                && (e.body.Ping? ==> reply.value.body == Pong)
                && (!e.body.Text? && !e.body.Ping? && !e.body.PairRequest? ==>
                      reply.value.body.Error? && reply.value.body.code == "unexpected_message")
      ensures state.conversations.State() ==
                if ReadEnvelope(stream).Ok? && ReadEnvelope(stream).value.0.body.Text? then
                  var body := ReadEnvelope(stream).value.0.body;
                  AfterText(old(state.conversations.State()), Judge(state.book.peers, remoteId, body.text), remoteId, body, now)
                else old(state.conversations.State())
    {
      var read := ReadEnvelope(stream);
      match read {
        case Err(_) => return None;
        case Ok((e, rest)) =>
          match e.body {
            case Text(_, _, _, _) =>
              var body := HandleText(remoteId, e.body, now);
              return Some(Enveloped(e.requestId, body));
            case Ping => return Some(Enveloped(e.requestId, Pong));
            case PairRequest(_, _, _, _, _) => return None;
            case _ => return Some(Enveloped(e.requestId, Error("unexpected_message", "unexpected opening message")));
          }
      }
    }

    // ---- sending a text

    /** The checks of the command and its first section, which resolves the recipient. */
    method BeginSend(identifier: string, text: string) returns (r: Result<string, SendFailure>)
      ensures r == Recipient(state.book.peers, identifier, text)
    {
      if text == "" {
        return Err(EmptyText);
      }
      var valid := ValidateTextLen(text);
      if valid.Err? {
        return Err(TextTooLong);
      }
      var peer := PeerOf(state.book.peers, identifier);
      if peer.Err? {
        return Err(NoPeer(peer.error));
      }
      return Ok(peer.value.endpointId);
    }

    /** The section that logs the attempt. */
    method LogSend(to: string, id: Uuid, text: string, now: int)
      modifies state.conversations
      ensures state.conversations.State() ==
                Conversation.Apply(old(state.conversations.State()), Conversation.RecordOutgoing(to, id, text, Conversation.Sending, now))
    {
      var _ := state.conversations.Log(to, id, text, Conversation.Sending, now);
    }

    /** The section that looks for an open connection. */
    method LookUp(to: string, closed: set<Conn>) returns (c: Option<Conn>)
      ensures c == Cached(state.registry.peers, closed, to)
    {
      c := state.registry.CachedConnection(to, closed);
    }

    /** The section after a successful dial. */
    method RegisterDial(to: string, c: Conn)
      modifies state.registry
      ensures state.registry.peers == MarkedOnline(old(state.registry.peers), to, c)
    {
      state.registry.MarkOnline(to, c);
    }

    /** Opening a stream, writing and waiting for the answer need no lock. */
    method Exchange(text: string, id: Uuid, requestId: Uuid, sentAt: Postcard.Int64, x: StreamOutcome)
      returns (r: Result<(), ExchangeError>, wire: Bytes)
      ensures var e := Enveloped(requestId, Text(id, myId, sentAt, text));
              && (r.Ok? <==> x.streamOpen && Framed(e).Ok? && x.written && Acknowledges(x.reply))
              && (r == Err(ConnectFailed) <==> !x.streamOpen)
              && (r == Err(NotExchanged) <==> x.streamOpen && (Framed(e).Err? || !x.written || x.reply.None?))
              && (r.Err? && r.error.RejectedBy? ==> x.reply.Some? && r.error.message == RejectionMessage(x.reply.value))
              && (x.streamOpen && Framed(e).Ok? && x.written ==> ReadEnvelope(wire) == Ok((e, [])))
    {
      wire := [];
      if !x.streamOpen {
        return Err(ConnectFailed), wire;
      }
      var e := Enveloped(requestId, Text(id, myId, sentAt, text));
      var framed := EncodeFramed(e);
      if framed.Err? || !x.written {
        return Err(NotExchanged), wire;
      }
      wire := framed.value;
      FrameRoundTrip(e, []);
      assert wire + [] == wire;
      if x.reply.None? {
        return Err(NotExchanged), wire;
      }
      match x.reply.value {
        case Ack(_, accepted, error) =>
          if accepted {
            return Ok(()), wire;
          }
          return Err(RejectedBy(if error.Some? then error.value else "rejected")), wire;
        case Error(_, message) => return Err(RejectedBy(message)), wire;
        case _ => return Err(RejectedBy("unexpected response")), wire;
      }
    }

    /** The section after a failed attempt. */
    method GoOffline(to: string)
      modifies state.registry
      ensures state.registry.peers == MarkedOffline(old(state.registry.peers), to)
    {
      state.registry.MarkOffline(to);
    }

    /** The last section: the message is sent or failed. */
    method SettleSend(to: string, id: Uuid, acknowledged: bool)
      modifies state.conversations
      ensures state.conversations.State() ==
                Conversation.Apply(old(state.conversations.State()),
                  Conversation.UpdateStatus(to, id, if acknowledged then Conversation.Sent else Conversation.Failed))
    {
      state.conversations.UpdateOutgoingStatus(to, id, if acknowledged then Conversation.Sent else Conversation.Failed);
    }

    /** All sections of a send with nothing in between. */
    method SendText(identifier: string, text: string, id: Uuid, requestId: Uuid, sentAt: Postcard.Int64, now: int,
                    closed: set<Conn>, dialed: Option<Conn>, x: StreamOutcome)
      returns (r: Result<(), SendFailure>, wire: Bytes)
      modifies state.conversations, state.registry
      ensures var recipient := Recipient(old(state.book.peers), identifier, text);
              recipient.Err? ==>
                && r == Err(recipient.error) && wire == []
                && state.conversations.State() == old(state.conversations.State())
                && state.registry.peers == old(state.registry.peers)
      ensures Recipient(old(state.book.peers), identifier, text).Ok? ==>
                var to := Recipient(old(state.book.peers), identifier, text).value;
                var e := Enveloped(requestId, Text(id, myId, sentAt, text));
                var online := Connected(old(state.registry.peers), closed, to, dialed);
                && (r.Ok? <==> (Cached(old(state.registry.peers), closed, to).Some? || dialed.Some?)
                               && x.streamOpen && Framed(e).Ok? && x.written && Acknowledges(x.reply))
                && (r.Err? ==> r.error.Undelivered?)
                && (r.Ok? ==> ReadEnvelope(wire) == Ok((e, [])))
                && state.registry.peers == (if r.Ok? then online else MarkedOffline(online, to))
                && state.conversations.State() ==
                     Conversation.Apply(
                       Conversation.Apply(old(state.conversations.State()),
                                          Conversation.RecordOutgoing(to, id, text, Conversation.Sending, now)),
                       Conversation.UpdateStatus(to, id, if r.Ok? then Conversation.Sent else Conversation.Failed))
    {
      wire := [];
      var recipient := BeginSend(identifier, text);
      if recipient.Err? {
        return Err(recipient.error), wire;
      }
      var to := recipient.value;
      LogSend(to, id, text, now);
      var cached := LookUp(to, closed);
      var sent: Result<(), ExchangeError> := Err(ConnectFailed);
      if cached.None? && dialed.Some? {
        RegisterDial(to, dialed.value);
      }
      if cached.Some? || dialed.Some? {
        sent, wire := Exchange(text, id, requestId, sentAt, x);
      }
      if sent.Err? {
        GoOffline(to);
      }
      SettleSend(to, id, sent.Ok?);
      r := if sent.Ok? then Ok(()) else Err(Undelivered(sent.error));
    }
  }

  // ------------------------------------------------------------------------- the two ends together

  lemma {:induction false} JudgeAuthorizes(peers: seq<TrustedPeer>, remoteId: string, text: string)
    ensures Judge(peers, remoteId, text) == Unauthorized <==> !Trusts(peers, remoteId)
  {
    hide ValidateTextLen;
    var i := FindEndpoint(peers, remoteId);
    if i < |peers| {
      assert EndpointIds(peers)[i] == remoteId;
    }
  }

  /** With nothing lost on the way, a valid text reaches its receiver unchanged, and the answer that
      the sender reads back acknowledges it exactly when the receiver trusts the sender. */
  lemma {:induction false} AcknowledgedIffTrusted(peers: seq<TrustedPeer>, myId: string, id: Uuid, requestId: Uuid,
                                                  sentAt: Postcard.Int64, text: string)
    requires |myId| == 64 && ValidateTextLen(text).Ok?
    ensures var e := Enveloped(requestId, Text(id, myId, sentAt, text));
            var answer := Enveloped(requestId, Reply(Judge(peers, myId, text), id));
            && Framed(e).Ok? && ReadEnvelope(Framed(e).value) == Ok((e, []))
            && Framed(answer).Ok? && ReadEnvelope(Framed(answer).value) == Ok((answer, []))
            && (Acknowledges(Some(answer.body)) <==> Trusts(peers, myId))
  {
    var e := Enveloped(requestId, Text(id, myId, sentAt, text));
    var answer := Enveloped(requestId, Reply(Judge(peers, myId, text), id));
    hide ValidateTextLen, Framed, ReadEnvelope, Trusts, FindEndpoint;
    ValidTextAlwaysFits(e);
    JudgeAuthorizes(peers, myId, text);
    assert Framed(answer).Ok? by { AnswersFit(answer); }
    FrameRoundTrip(e, []);
    FrameRoundTrip(answer, []);
    assert Framed(e).value + [] == Framed(e).value && Framed(answer).value + [] == Framed(answer).value;
  }

  lemma {:induction false} AnswersFit(answer: Envelope)
    requires answer.version == Protocol.NETWORK_PROTOCOL_VERSION
    requires answer.body.Ack? ==> answer.body.ackError.None?
    requires answer.body.Error? ==> |answer.body.code| <= 100 && |answer.body.message| <= 100
    requires answer.body.Ack? || answer.body.Error?
    ensures Framed(answer).Ok?
  {
    hide Postcard.PutVarint;
    EnvelopeLength(answer, []);
    Postcard.PrefixLength(answer.version);
    if answer.body.Error? {
      TextSize(answer.body.code);
      TextSize(answer.body.message);
    }
  }

  // ------------------------------------------------------------------------------- who and what

  /** A text goes to an endpoint exactly when the text is not empty and not too long and the recipient
      string names a record of that endpoint. */
  lemma {:induction false} RecipientIsNamed(peers: seq<TrustedPeer>, recipient: string, text: string, e: string)
    ensures Recipient(peers, recipient, text) == Ok(e) <==>
              text != "" && ValidateTextLen(text).Ok? && NamesEndpoint(peers, recipient, e)
  {
    CommandReachesIff(peers, recipient, e);
    hide ValidateTextLen, PeerOf, NamesEndpoint;
  }

  /** The refusals come in this order, each exactly when its reason holds and none before it does. */
  lemma {:induction false} RecipientRefusals(peers: seq<TrustedPeer>, recipient: string, text: string)
    ensures Recipient(peers, recipient, text) == Err(EmptyText) <==> text == ""
    ensures Recipient(peers, recipient, text) == Err(TextTooLong) <==> text != "" && ValidateTextLen(text).Err?
    ensures Recipient(peers, recipient, text) == Err(NoPeer(PeerNotFound)) <==>
              text != "" && ValidateTextLen(text).Ok?
              && forall p :: p in peers ==> !SameIgnoringCase(p.alias, recipient) && !(recipient <= p.endpointId)
    ensures (exists ms :: Recipient(peers, recipient, text) == Err(NoPeer(PeerAmbiguous(ms)))) <==>
              && text != "" && ValidateTextLen(text).Ok?
              && (exists p :: p in peers && (SameIgnoringCase(p.alias, recipient) || recipient <= p.endpointId))
              && forall k: nat :: !Names(peers, recipient, k)
  {
    CommandFindsNamed(peers, recipient);
    hide ValidateTextLen, PeerOf, Names, SameIgnoringCase;
    if PeerOf(peers, recipient).Err? && PeerOf(peers, recipient) != Err(PeerNotFound) {
      var ms := PeerOf(peers, recipient).error.candidates;
      assert PeerOf(peers, recipient) == Err(PeerAmbiguous(ms));
    }
  }

  /** With distinct aliases, a valid text for an alias, in any casing, goes to the peer that bears it. */
  lemma {:induction false} TextGoesToAlias(peers: seq<TrustedPeer>, k: nat, recipient: string, text: string)
    requires AliasesDistinct(peers) && k < |peers| && SameIgnoringCase(recipient, peers[k].alias)
    requires text != "" && ValidateTextLen(text).Ok?
    ensures Recipient(peers, recipient, text) == Ok(peers[k].endpointId)
  {
    EveryPeerResolvesByAlias(peers, k, recipient);
    hide Resolve, ValidateTextLen, AliasesDistinct, SameIgnoringCase;
  }

  ghost predicate FirstRecord(peers: seq<TrustedPeer>, e: string, alias: string) {
    exists k: nat ::
      && k < |peers| && peers[k].endpointId == e && peers[k].alias == alias
      && forall i :: 0 <= i < k ==> peers[i].endpointId != e
  }

  /** A text is let in under the alias of the sender's first record, and refused as too long with its
      length in bytes; the answers name the message or the reason. */
  lemma {:induction false} JudgeMeans(peers: seq<TrustedPeer>, remoteId: string, text: string, alias: string, id: Uuid)
    ensures Judge(peers, remoteId, text) == ToRecord(alias) <==> ValidateTextLen(text).Ok? && FirstRecord(peers, remoteId, alias)
    ensures Judge(peers, remoteId, text) == TooLong(|Utf8.Encode(text)|) <==>
              Trusts(peers, remoteId) && |Utf8.Encode(text)| > 5_242_880
    ensures Reply(ToRecord(alias), id) == Ack(id, true, None)
    ensures Reply(Unauthorized, id).Error? && Reply(Unauthorized, id).code == "unauthorized"
    ensures forall n :: Reply(TooLong(n), id).Error? && Reply(TooLong(n), id).code == "limit_exceeded"
  {
    hide Utf8.Encode, Trusts;
    JudgeAuthorizes(peers, remoteId, text);
    var i := FindEndpoint(peers, remoteId);
    if i < |peers| { assert peers[i].endpointId == remoteId; }
  }
}
