/** One daemon over a whole run: invites, interleaved pairing sessions, trusted peers, inbound
    connections, incoming and outgoing texts. Every locked section is a step of its own, so anything
    else may happen between any two of them. */
module Daemon {
  import opened Basics
  import opened Peers
  import opened AppState
  import PairingSession
  import opened Conversation
  import ConversationRuns
  import Connection
  import Transport
  import VerificationString

  /** A session this daemon takes part in, with both of its sides and both streams. */
  datatype Link = Link(ours: PairingSession.Role, terms: PairingSession.Terms, session: PairingSession.Session)

  /** How far the handler of an incoming text has come. */
  datatype Stage = Arrived | Authorised(alias: string) | Handled

  datatype Text = Text(from: string, id: Uuid, text: string, sentAt: int, stage: Stage)

  datatype InboundStage = Unchecked | FoundTrusted | Over

  datatype Inbound = Inbound(remote: string, conn: Connection.Conn, stage: InboundStage)

  /** How far a send has come; `Lost` is a failed dial or exchange, `Offlined` after the peer was
      marked offline for it. */
  datatype SendStage = Resolved | Logged | Dialing | Connected | Delivered | Lost | Offlined | Settled

  datatype Send = Send(to: string, id: Uuid, text: string, stage: SendStage)

  datatype World = World(
    myId: string,
    app: State,
    sessions: map<Uuid, Link>,
    history: ConversationRuns.Traced,
    texts: seq<Text>,
    registry: Connection.Registry,
    closed: set<Connection.Conn>,
    inbounds: seq<Inbound>,
    sends: seq<Send>)

  datatype Act =
    | CreateInvite(secret: Bytes32, expiresAt: int, ticketText: string)
    | CancelInvites
    | OpenSession(id: Uuid, ours: PairingSession.Role, terms: PairingSession.Terms)
    | Pair(id: Uuid, step: PairingSession.Act, now: int, stamp: string, uuid: string)
    | Rename(identifier: string, alias: string)
    | Unpair(identifier: string)
    | ResetConfig
    | TextArrives(from: string, msgId: Uuid, text: string, sentAt: int)
    | CheckTrust(k: nat)
    | Record(k: nat, now: int)
    | InboundArrives(remote: string, serial: nat)
    | CheckInbound(k: nat)
    | RegisterInbound(k: nat)
    | BreakConnection(c: Connection.Conn)
    | BeginSend(recipient: string, sendId: Uuid, sendText: string)
    | AdvanceSend(k: nat, ok: bool, now: int, serial: nat)   // its next section or its dial or exchange
    | ChangeLimit(limit: nat)

  function Mine(l: Link): PairingSession.Side {
    PairingSession.SideOf(l.session, l.ours)
  }

  function PeerId(l: Link): string {
    if l.ours.Inviter? then l.terms.joinerId else l.terms.inviterId
  }

  function PeerRecord(l: Link, stamp: string): TrustedPeer {
    if l.ours.Inviter? then TrustedPeer(l.terms.joinerId, "", l.terms.joinerName, l.terms.joinerDevice, stamp)
    else TrustedPeer(l.terms.inviterId, "", l.terms.inviterName, l.terms.inviterDevice, stamp)
  }

  /** The secret of the request this inviter is about to read, if one is waiting. */
  function Requested(l: Link): (secret: Option<Bytes32>)
    ensures secret.Some? ==> l.ours.Inviter?
  {
    var head := PairingSession.Head(l.session.toInviter);
    if l.ours.Inviter? && l.session.inviter.phase.Idle? && head.Some? && head.value.PairRequest?
    then Some(head.value.inviteSecret) else None
  }

  /** The session step as it happens here: whether a request is admitted is up to the invites. */
  function Actual(w: World, l: Link, step: PairingSession.Act, now: int): PairingSession.Act {
    var secret := Requested(l);
    if step.Admit? && secret.Some? then
      var refusal := RefusalOf(w.app.invites, secret.value, now);
      PairingSession.Admit(refusal.None?, if refusal.None? then "" else refusal.value, step.delivered)
    else step
  }

  function Advanced(w: World, l: Link, step: PairingSession.Act, now: int): Link {
    l.(session := PairingSession.Next(l.terms, l.session, Actual(w, l, step, now)))
  }

  function Opened(s: State, id: Uuid, before: Link, after: Link): State {
    var entry := Mine(after).entry;
    if Mine(before).entry.None? && entry.Some? then AfterOpening(s, id, entry.value) else s
  }

  /** What a session step does to the shared state of this daemon. */
  function Effect(s: State, id: Uuid, l: Link, l': Link, step: PairingSession.Act, now: int, stamp: string, uuid: string): State {
    match step
    case Admit(_, _, _) =>
      var secret := Requested(l);
      if secret.Some? then AfterRequest(s, secret.value, now) else s
    case Enter(_) => Opened(s, id, l, l')
    case ReadDecision(_) => Opened(s, id, l, l')
    case Answer(r, _) => if r == l.ours then AfterAnswer(s, id) else s
    case Finish(r) =>
      if r == l.ours && Mine(l).phase.Settled? then
        AfterFinish(s, id, PeerRecord(l, stamp), if l.ours.Inviter? then Some(l.terms.secret) else None,
                    Mine(l).phase.outcome, uuid)
      else s
    case _ => s
  }

  /** The trust check and the length check, on the peers of this moment; a refusal ends the stream. */
  function Checked(peers: seq<TrustedPeer>, t: Text): Stage {
    var v := Transport.Judge(peers, t.from, t.text);
    if v.ToRecord? then Authorised(v.alias) else Handled
  }

  function Next(w: World, a: Act): World {
    match a
    case CreateInvite(secret, expiresAt, ticketText) =>
      w.(app := w.app.(invites := w.app.invites + [Invite(secret, expiresAt, ticketText, 0)]))
    case CancelInvites => w.(app := w.app.(invites := []))
    case OpenSession(id, ours, terms) =>
      if id in w.sessions then w
      else w.(sessions := w.sessions[id := Link(ours, terms, PairingSession.Start())])
    case Pair(id, step, now, stamp, uuid) =>
      if id !in w.sessions then w
      else
        var l := w.sessions[id];
        var l' := Advanced(w, l, step, now);
        w.(sessions := w.sessions[id := l'], app := Effect(w.app, id, l, l', step, now, stamp, uuid))
    case Rename(identifier, alias) => w.(app := AfterRenamePeer(w.app, identifier, alias))
    case Unpair(identifier) =>
      var closing := UnpairCloses(w.registry, w.app.peers, identifier);
      w.(app := AfterUnpair(w.app, identifier),
         registry := AfterUnpairRegistry(w.registry, w.app.peers, identifier),
         closed := if closing.Some? then w.closed + {closing.value} else w.closed)
    case ResetConfig => w.(history := ConversationRuns.Step(w.history, SetLimit(DEFAULT_HISTORY_LIMIT)))
    case TextArrives(from, id, text, sentAt) => w.(texts := w.texts + [Text(from, id, text, sentAt, Arrived)])
    case CheckTrust(k) =>
      if k < |w.texts| && w.texts[k].stage.Arrived? then w.(texts := w.texts[k := w.texts[k].(stage := Checked(w.app.peers, w.texts[k]))])
      else w
    case Record(k, now) =>
      if k < |w.texts| && w.texts[k].stage.Authorised? then
        var t := w.texts[k];
        w.(history := ConversationRuns.Step(w.history, RecordIncoming(t.from, t.stage.alias, t.id, t.sentAt, now, t.text)),
           texts := w.texts[k := t.(stage := Handled)])
      else w
    case InboundArrives(remote, serial) =>
      w.(inbounds := w.inbounds + [Inbound(remote, Connection.Conn(serial, remote), Unchecked)])
    case CheckInbound(k) =>
      if k < |w.inbounds| && w.inbounds[k].stage.Unchecked? then
        w.(inbounds := w.inbounds[k := w.inbounds[k].(stage := if Trusts(w.app.peers, w.inbounds[k].remote) then FoundTrusted else Over)])
      else w
    case RegisterInbound(k) =>
      if k < |w.inbounds| && w.inbounds[k].stage.FoundTrusted? then
        var i := w.inbounds[k];
        w.(inbounds := w.inbounds[k := i.(stage := Over)],
           registry := Transport.AfterInbound(w.registry, w.closed, w.myId, i.remote, i.conn),
           closed := if Connection.KeepInbound(w.registry, w.closed, w.myId, i.remote) then w.closed else w.closed + {i.conn})
      else w
    case BreakConnection(c) => w.(closed := w.closed + {c})
    case BeginSend(recipient, id, text) =>
      var to := Transport.Recipient(w.app.peers, recipient, text);
      if to.Ok? then w.(sends := w.sends + [Send(to.value, id, text, Resolved)]) else w
    case AdvanceSend(k, ok, now, serial) => if k < |w.sends| then Advance(w, k, ok, now, serial) else w
    case ChangeLimit(limit) => w.(history := ConversationRuns.Step(w.history, SetLimit(limit)))
  }

  predicate SameSend(a: Send, b: Send) {
    a.(stage := b.stage) == b
  }

  function AtStage(sends: seq<Send>, k: nat, stage: SendStage): seq<Send>
    requires k < |sends|
  {
    sends[k := sends[k].(stage := stage)]
  }

  /** The next thing that happens to a send; `ok` is how its dial or its exchange went. */
  function Advance(w: World, k: nat, ok: bool, now: int, serial: nat): (w': World)
    requires k < |w.sends|
    ensures w'.app == w.app && w'.sessions == w.sessions && w'.texts == w.texts && w'.inbounds == w.inbounds
    ensures w'.history.accepted == w.history.accepted
    ensures |w'.sends| == |w.sends| && forall j :: 0 <= j < |w.sends| ==> SameSend(w'.sends[j], w.sends[j])
  {
    var d := w.sends[k];
    match d.stage
    case Resolved =>
      w.(sends := AtStage(w.sends, k, Logged), history := ConversationRuns.Step(w.history, RecordOutgoing(d.to, d.id, d.text, Sending, now)))
    case Logged => w.(sends := AtStage(w.sends, k, if Connection.Cached(w.registry, w.closed, d.to).Some? then Connected else Dialing))
    case Dialing =>
      if ok then
        w.(sends := AtStage(w.sends, k, Connected), registry := Connection.MarkedOnline(w.registry, d.to, Connection.Conn(serial, w.myId)))
      else w.(sends := AtStage(w.sends, k, Lost))
    case Connected => w.(sends := AtStage(w.sends, k, if ok then Delivered else Lost))
    case Lost => w.(sends := AtStage(w.sends, k, Offlined), registry := Connection.MarkedOffline(w.registry, d.to))
    case Delivered => w.(sends := AtStage(w.sends, k, Settled), history := ConversationRuns.Step(w.history, UpdateStatus(d.to, d.id, Sent)))
    case Offlined => w.(sends := AtStage(w.sends, k, Settled), history := ConversationRuns.Step(w.history, UpdateStatus(d.to, d.id, Failed)))
    case Settled => w
  }

  function Start(myId: string, trusted: seq<TrustedPeer>, limit: nat): World {
    World(myId, State([], map[], trusted), map[], ConversationRuns.Start(DEDUP_CACHE_CAPACITY, limit), [], map[], {}, [], [])
  }

  function Run(w0: World, acts: seq<Act>): World {
    if acts == [] then w0 else Next(Run(w0, acts[..|acts| - 1]), acts[|acts| - 1])
  }

  // ------------------------------------------------------------------- sessions inside the daemon

  ghost predicate LinksInv(sessions: map<Uuid, Link>) {
    forall id :: id in sessions ==> PairingSession.Inv(sessions[id].terms, sessions[id].session)
  }

  /** The pending map holds exactly our entries of the sessions. */
  ghost predicate Mirrors(w: World, id: Uuid) {
    if id in w.sessions && Mine(w.sessions[id]).entry.Some?
    then id in w.app.pending && w.app.pending[id] == Mine(w.sessions[id]).entry.value
    else id !in w.app.pending
  }

  ghost predicate SessionInv(w: World) {
    LinksInv(w.sessions) && forall id: Uuid :: Mirrors(w, id)
  }

  /** How one session step changes the entry and the shown string of one side. */
  lemma {:induction false} EntryChanges(t: PairingSession.Terms, s: PairingSession.Session, a: PairingSession.Act, r: PairingSession.Role)
    requires PairingSession.Inv(t, s)
    ensures var side, side' := PairingSession.SideOf(s, r), PairingSession.SideOf(PairingSession.Next(t, s, a), r);
            && (side.shown.Some? ==> side'.shown == side.shown)
            && (if (a.Enter? && r.Inviter?) || (a.ReadDecision? && r.Joiner?) then
                  side'.entry == side.entry || (side.entry.None? && side'.entry.Some?)
                else if a.Answer? && a.role == r then
                  side'.entry == if side.entry.None? then None else Some(side.entry.value.(answerable := false))
                else if a.Finish? && a.role == r && side.phase.Settled? then side'.entry.None?
                else side'.entry == side.entry)
  {
    hide VerificationString.Derive;
  }

  lemma {:induction false} PairKeepsLinks(w: World, a: Act)
    requires LinksInv(w.sessions) && a.Pair? && a.id in w.sessions
    ensures LinksInv(Next(w, a).sessions)
  {
    hide PairingSession.Next, PairingSession.Inv, Effect, Requested;
    var l := w.sessions[a.id];
    PairingSession.NextKeepsInv(l.terms, l.session, Actual(w, l, a.step, a.now));
  }

  lemma {:induction false} PairKeepsMirror(w: World, a: Act)
    requires SessionInv(w) && a.Pair? && a.id in w.sessions
    ensures forall id: Uuid :: Mirrors(Next(w, a), id)
  {
    hide PairingSession.Next, PairingSession.Inv, RefusalOf, Requested, AfterRequest, AfterAdd;
    var l, w' := w.sessions[a.id], Next(w, a);
    EntryChanges(l.terms, l.session, Actual(w, l, a.step, a.now), l.ours);
    assert Mirrors(w, a.id);
    RequestKeepsPending(w, a.id, a.now);
    forall id: Uuid ensures Mirrors(w', id) {
      assert Mirrors(w, id);
      if id != a.id { assert id in w'.app.pending <==> id in w.app.pending; }
    }
  }

  lemma {:induction false} RequestKeepsPending(w: World, id: Uuid, now: int)
    requires id in w.sessions
    ensures forall secret :: AfterRequest(w.app, secret, now).pending == w.app.pending
                             && AfterRequest(w.app, secret, now).peers == w.app.peers
  {}

  lemma {:induction false} OtherActsKeepSessions(w: World, a: Act)
    requires !a.Pair? && !a.OpenSession?
    ensures Next(w, a).sessions == w.sessions && Next(w, a).app.pending == w.app.pending
  {
    hide PeerOf, AfterRename, Without, Trusts, Checked, Advance, Transport.Recipient, Transport.AfterInbound, ConversationRuns.Step;
  }

  lemma {:induction false} SameSessions(w: World, w': World)
    requires SessionInv(w) && w'.sessions == w.sessions && w'.app.pending == w.app.pending
    ensures SessionInv(w')
  {
    hide PairingSession.Inv;
    forall id: Uuid ensures Mirrors(w', id) { assert Mirrors(w, id); }
  }

  lemma {:induction false} OpenKeepsSessionInv(w: World, a: Act)
    requires SessionInv(w) && a.OpenSession? && a.id !in w.sessions
    ensures SessionInv(Next(w, a))
  {
    hide PairingSession.Inv;
    var w' := Next(w, a);
    assert PairingSession.Run(a.terms, []) == PairingSession.Start();
    PairingSession.RunKeepsInv(a.terms, []);
    forall id: Uuid ensures Mirrors(w', id) { assert Mirrors(w, id); }
  }

  lemma {:induction false} NextKeepsSessionInv(w: World, a: Act)
    requires SessionInv(w)
    ensures SessionInv(Next(w, a))
  {
    hide Mirrors, LinksInv, Effect, Advanced;
    if (a.Pair? && a.id !in w.sessions) || (a.OpenSession? && a.id in w.sessions) {
      assert Next(w, a) == w;
    } else if a.Pair? {
      PairKeepsLinks(w, a);
      PairKeepsMirror(w, a);
    } else if a.OpenSession? {
      OpenKeepsSessionInv(w, a);
    } else {
      OtherActsKeepSessions(w, a);
      SameSessions(w, Next(w, a));
    }
  }

  lemma {:induction false} RunKeepsSessionInv(myId: string, trusted: seq<TrustedPeer>, limit: nat, acts: seq<Act>)
    ensures SessionInv(Run(Start(myId, trusted, limit), acts))
  {
    hide Next, ConversationRuns.Start;
    if acts != [] {
      RunKeepsSessionInv(myId, trusted, limit, acts[..|acts| - 1]);
      NextKeepsSessionInv(Run(Start(myId, trusted, limit), acts[..|acts| - 1]), acts[|acts| - 1]);
    }
  }

  /** In every run the pending map is exactly our entries of the open sessions: it answers one-shot
      for one-shot, holds the peer and the string that was shown, and finished sessions leave nothing. */
  lemma {:induction false} PendingMirrorsSessions(myId: string, trusted: seq<TrustedPeer>, limit: nat, acts: seq<Act>, id: Uuid)
    ensures var w := Run(Start(myId, trusted, limit), acts);
            && (id in w.app.pending ==>
                  && id in w.sessions && Mine(w.sessions[id]).entry == Some(w.app.pending[id])
                  && !Mine(w.sessions[id]).phase.Finished?
                  && w.app.pending[id].peerEndpointId == PeerId(w.sessions[id])
                  && Mine(w.sessions[id]).shown == Some(w.app.pending[id].verification))
            && (id in w.sessions && Mine(w.sessions[id]).entry.Some? ==> id in w.app.pending)
  {
    hide *;
    RunKeepsSessionInv(myId, trusted, limit, acts);
    MirrorsSession(Run(Start(myId, trusted, limit), acts), id);
  }

  lemma {:induction false} MirrorsSession(w: World, id: Uuid)
    requires SessionInv(w)
    ensures id in w.app.pending ==>
              && id in w.sessions && Mine(w.sessions[id]).entry == Some(w.app.pending[id])
              && !Mine(w.sessions[id]).phase.Finished?
              && w.app.pending[id].peerEndpointId == PeerId(w.sessions[id])
              && Mine(w.sessions[id]).shown == Some(w.app.pending[id].verification)
    ensures id in w.sessions && Mine(w.sessions[id]).entry.Some? ==> id in w.app.pending
  {
    hide PairingSession.Agreed, PairingSession.WroteInv, PairingSession.ReadInv, PairingSession.DecisionInv, PairingSession.Opening;
    assert Mirrors(w, id);
  }

  /** A session of this daemon ended by this step. */
  predicate Finishes(w: World, a: Act) {
    && a.Pair? && a.id in w.sessions && a.step.Finish? && a.step.role == w.sessions[a.id].ours
    && Mine(w.sessions[a.id]).phase.Settled?
  }
}
