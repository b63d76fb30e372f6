/** What each task of a daemon comes to when nothing else happens between its sections: the steps of
    Daemon, taken in turn, do what the methods of Transport do in one go. */
module Undisturbed {
  import opened Basics
  import opened Peers
  import opened AppState
  import opened Daemon
  import opened Conversation
  import opened TrustRuns
  import Connection
  import ConversationRuns
  import PairingSession
  import Network
  import Transport

  /** A text that arrives, is checked and recorded is recorded exactly when the sender is trusted and the
      text not too long, as it arrived and under the sender's alias; nothing else changes. */
  lemma {:induction false} IncomingText(w: World, from: string, id: Uuid, text: string, sentAt: int, now: int)
    ensures var k := |w.texts|;
            var w' := Next(Next(Next(w, TextArrives(from, id, text, sentAt)), CheckTrust(k)), Record(k, now));
            var v := Transport.Judge(w.app.peers, from, text);
            w' == w.(texts := w.texts + [Text(from, id, text, sentAt, Handled)],
                     history := if v.ToRecord? then
                                  ConversationRuns.Step(w.history, RecordIncoming(from, v.alias, id, sentAt, now, text))
                                else w.history)
  {
    hide Transport.Judge, ConversationRuns.Step;
    var k := |w.texts|;
    var w1 := Next(w, TextArrives(from, id, text, sentAt));
    var w2 := Next(w1, CheckTrust(k));
    assert w2.texts == w.texts + [Text(from, id, text, sentAt, Checked(w.app.peers, w1.texts[k]))];
  }

  /** An inbound connection that arrives, is checked and registered ends as `Transport.Accept` has it, and
      is closed exactly when its endpoint is trusted and the tie-break is against it. */
  lemma {:induction false} InboundConnection(w: World, remote: string, serial: nat)
    ensures var k, c := |w.inbounds|, Connection.Conn(serial, remote);
            var w' := Next(Next(Next(w, InboundArrives(remote, serial)), CheckInbound(k)), RegisterInbound(k));
            && w'.registry == (if Trusts(w.app.peers, remote) then Transport.AfterInbound(w.registry, w.closed, w.myId, remote, c)
                               else w.registry)
            && w'.closed == (if Trusts(w.app.peers, remote) && !Connection.KeepInbound(w.registry, w.closed, w.myId, remote)
                             then w.closed + {c} else w.closed)
            && w'.app == w.app && w'.history == w.history
  {
    hide Trusts, Transport.AfterInbound, Connection.KeepInbound;
    var w1 := Next(w, InboundArrives(remote, serial));
    var w2 := Next(w1, CheckInbound(|w.inbounds|));
    assert w2 == w1.(inbounds := w2.inbounds);
  }

  /** Advances send `k` through its sections; `dialed` and `acked` are how its dial and exchange go. */
  function Sent(w: World, k: nat, now: int, serial: nat, dialed: bool, acked: bool): World
    requires k < |w.sends|
  {
    var w1 := Advance(w, k, true, now, serial);
    var w2 := Advance(w1, k, true, now, serial);
    var w3 := Advance(w2, k, if w2.sends[k].stage.Dialing? then dialed else acked, now, serial);
    var w4 := Advance(w3, k, acked, now, serial);
    var w5 := Advance(w4, k, acked, now, serial);
    Advance(w5, k, acked, now, serial)
  }

  /** A send that has its connection: exchange, then the clean-up. */
  lemma {:induction false} FromConnected(w: World, k: nat, now: int, serial: nat, acked: bool)
    requires k < |w.sends| && w.sends[k].stage.Connected?
    ensures var d := w.sends[k];
            var w1 := Advance(w, k, acked, now, serial);
            var w2 := Advance(w1, k, acked, now, serial);
            var w3 := Advance(w2, k, acked, now, serial);
            && w3 == w.(sends := w.sends[k := d.(stage := Settled)],
                        registry := if acked then w.registry else Connection.MarkedOffline(w.registry, d.to),
                        history := ConversationRuns.Step(w.history, UpdateStatus(d.to, d.id, if acked then MessageStatus.Sent else Failed)))
            && Advance(w3, k, acked, now, serial) == w3
  {
    hide ConversationRuns.Step, Connection.MarkedOffline;
    var d := w.sends[k];
    var w1 := Advance(w, k, acked, now, serial);
    assert w1 == w.(sends := w.sends[k := d.(stage := if acked then Delivered else Lost)]);
  }

  /** A send whose dial failed: only the clean-up. */
  lemma {:induction false} FromLost(w: World, k: nat, now: int, serial: nat, acked: bool)
    requires k < |w.sends| && w.sends[k].stage.Lost?
    ensures var d := w.sends[k];
            var w1 := Advance(w, k, acked, now, serial);
            var w2 := Advance(w1, k, acked, now, serial);
            && w2 == w.(sends := w.sends[k := d.(stage := Settled)],
                        registry := Connection.MarkedOffline(w.registry, d.to),
                        history := ConversationRuns.Step(w.history, UpdateStatus(d.to, d.id, Failed)))
            && Advance(w2, k, acked, now, serial) == w2
  {
    hide ConversationRuns.Step, Connection.MarkedOffline;
  }

  /** A send that has just begun: the text is logged, then an open connection is looked for. */
  lemma {:induction false} FromResolved(w: World, k: nat, now: int, serial: nat)
    requires k < |w.sends| && w.sends[k].stage.Resolved?
    ensures var d := w.sends[k];
            Advance(Advance(w, k, true, now, serial), k, true, now, serial) ==
            w.(sends := w.sends[k := d.(stage := if Connection.Cached(w.registry, w.closed, d.to).Some? then Connected else Dialing)],
               history := ConversationRuns.Step(w.history, RecordOutgoing(d.to, d.id, d.text, Sending, now)))
  {
    hide ConversationRuns.Step, Connection.Cached;
  }

  lemma {:induction false} SentFrom(w: World, k: nat, now: int, serial: nat, dialed: bool, acked: bool)
    requires k < |w.sends| && w.sends[k].stage.Resolved?
    ensures var d, w' := w.sends[k], Sent(w, k, now, serial, dialed, acked);
            var online := Transport.Connected(w.registry, w.closed, d.to, if dialed then Some(Connection.Conn(serial, w.myId)) else None);
            var good := acked && (dialed || Connection.Cached(w.registry, w.closed, d.to).Some?);
            w' == w.(sends := w.sends[k := d.(stage := Settled)],
                     registry := if good then online else Connection.MarkedOffline(online, d.to),
                     history := ConversationRuns.Step(
                       ConversationRuns.Step(w.history, RecordOutgoing(d.to, d.id, d.text, Sending, now)),
                       UpdateStatus(d.to, d.id, if good then MessageStatus.Sent else Failed)))
  {
    var d := w.sends[k];
    FromResolved(w, k, now, serial);
    var w2 := Advance(Advance(w, k, true, now, serial), k, true, now, serial);
    if Connection.Cached(w.registry, w.closed, d.to).Some? {
      FromConnected(w2, k, now, serial, acked);
    } else {
      var w3 := Advance(w2, k, dialed, now, serial);
      DialStep(w2, k, now, serial, dialed);
      if dialed { FromConnected(w3, k, now, serial, acked); } else { FromLost(w3, k, now, serial, acked); }
    }
    hide Advance, ConversationRuns.Step, Connection.Cached, Connection.MarkedOnline, Connection.MarkedOffline;
  }

  lemma {:induction false} DialStep(w: World, k: nat, now: int, serial: nat, dialed: bool)
    requires k < |w.sends| && w.sends[k].stage.Dialing?
    ensures var d := w.sends[k];
            Advance(w, k, dialed, now, serial) ==
            w.(sends := w.sends[k := d.(stage := if dialed then Connected else Lost)],
               registry := if dialed then Connection.MarkedOnline(w.registry, d.to, Connection.Conn(serial, w.myId)) else w.registry)
  {}

  /** A send that begins with a recipient ends as `Transport.SendText` has it: the text is logged to the
      endpoint that was named and ends sent exactly when there was a connection, cached or dialed, and
      the exchange was acknowledged, else failed and the peer offline. */
  lemma {:induction false} OutgoingText(w: World, recipient: string, id: Uuid, text: string, to: string, now: int, serial: nat,
                                        dialed: bool, acked: bool)
    requires Transport.Recipient(w.app.peers, recipient, text) == Ok(to)
    ensures var w' := Sent(Next(w, BeginSend(recipient, id, text)), |w.sends|, now, serial, dialed, acked);
            var online := Transport.Connected(w.registry, w.closed, to, if dialed then Some(Connection.Conn(serial, w.myId)) else None);
            var good := acked && (dialed || Connection.Cached(w.registry, w.closed, to).Some?);
            w' == w.(sends := w.sends + [Send(to, id, text, Settled)],
                     registry := if good then online else Connection.MarkedOffline(online, to),
                     history := ConversationRuns.Step(
                       ConversationRuns.Step(w.history, RecordOutgoing(to, id, text, Sending, now)),
                       UpdateStatus(to, id, if good then MessageStatus.Sent else Failed)))
  {
    var k := |w.sends|;
    var w0 := w.(sends := w.sends + [Send(to, id, text, Resolved)]);
    assert Next(w, BeginSend(recipient, id, text)) == w0;
    hide Next, Sent, Transport.Recipient, Transport.Connected, ConversationRuns.Step, Connection.Cached, Connection.MarkedOffline;
    SentFrom(w0, k, now, serial, dialed, acked);
    assert w0.sends[k := Send(to, id, text, Settled)] == w.sends + [Send(to, id, text, Settled)];
  }

  /** The peer that a confirmed session adds: the other side's endpoint id, and the names it sent. */
  lemma {:induction false} GrantedPeer(w: World, a: Act)
    requires Grants(w, a, PeerOfStep(w, a))
    ensures var l, peers := w.sessions[a.id], Next(w, a).app.peers;
            && |peers| == |w.app.peers| + 1 && peers[..|w.app.peers|] == w.app.peers
            && var p := peers[|w.app.peers|];
               && p.pairedAt == a.stamp
               && (l.ours.Inviter? ==> p.endpointId == l.terms.joinerId && p.displayName == l.terms.joinerName
                                       && p.deviceName == l.terms.joinerDevice)
               && (l.ours.Joiner? ==> p.endpointId == l.terms.inviterId && p.displayName == l.terms.inviterName
                                      && p.deviceName == l.terms.inviterDevice)
               && p.alias == AliasFor(w.app.peers, p.displayName, a.uuid)
  {
    PeersAfter(w, a);
    hide Next, AliasFor, Grants;
  }

  /** Resetting the configuration restores the history limit of one hundred and leaves the rest alone. */
  lemma {:induction false} ResetKeepsAllButLimit(w: World)
    ensures var w' := Next(w, ResetConfig);
            && w'.app == w.app && w'.registry == w.registry && w'.sessions == w.sessions
            && w'.history.store == w.history.store.(limit := 100) && w'.history.accepted == w.history.accepted
  {}
}
