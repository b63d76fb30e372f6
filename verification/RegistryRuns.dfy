/** The connection registry over whole runs of a daemon. Checking trust and registering a connection are
    separate locked steps, for inbound connections and for dials alike. */
module RegistryRuns {
  import opened Basics
  import opened Peers
  import opened AppState
  import opened Daemon
  import opened TrustRuns
  import Connection
  import ConversationRuns
  import Network
  import Transport

  ghost predicate Holds(w: World, e: string) {
    Connection.EntryOf(w.registry, e).connection.Some?
  }

  /** This step enters a connection with `e`: a kept inbound one, or one that was dialed. */
  predicate Registers(w: World, a: Act, e: string) {
    || (a.RegisterInbound? && a.k < |w.inbounds| && w.inbounds[a.k].stage.FoundTrusted? && w.inbounds[a.k].remote == e
        && Connection.KeepInbound(w.registry, w.closed, w.myId, e))
    || (a.AdvanceSend? && a.ok && a.k < |w.sends| && w.sends[a.k].stage.Dialing? && w.sends[a.k].to == e)
  }

  /** This step takes the connection with `e` out: `e` is unpaired, or goes offline after a failure. */
  predicate Forgets(w: World, a: Act, e: string) {
    || Revokes(w, a, e)
    || (a.AdvanceSend? && a.k < |w.sends| && w.sends[a.k].stage.Lost? && w.sends[a.k].to == e)
  }

  ghost predicate RegisteredAt(w0: World, acts: seq<Act>, r: nat, e: string) {
    r < |acts| && Registers(Run(w0, acts[..r]), acts[r], e)
  }

  ghost predicate ForgottenAt(w0: World, acts: seq<Act>, j: nat, e: string) {
    j < |acts| && Forgets(Run(w0, acts[..j]), acts[j], e)
  }

  lemma {:induction false} AdvanceHolds(w: World, a: Act, e: string)
    requires a.AdvanceSend? && a.k < |w.sends|
    ensures Holds(Advance(w, a.k, a.ok, a.now, a.serial), e) <==> Registers(w, a, e) || (Holds(w, e) && !Forgets(w, a, e))
  {
    hide ConversationRuns.Step, Connection.Cached;
  }

  lemma {:induction false} HoldsAfter(w: World, a: Act, e: string)
    ensures Holds(Next(w, a), e) <==> Registers(w, a, e) || (Holds(w, e) && !Forgets(w, a, e))
  {
    hide Advance, Effect, Advanced, PeerOf, AfterRename, Without, Trusts, Checked, ConversationRuns.Step, Transport.Recipient,
         Connection.KeepInbound;
    if a.AdvanceSend? && a.k < |w.sends| {
      AdvanceHolds(w, a, e);
    }
  }

  // ------------------------------------------------------------------- registered means was trusted

  /** Step `c` was the trust check of inbound connection `k`, and found `e` trusted. */
  ghost predicate InboundChecked(w0: World, acts: seq<Act>, c: nat, k: nat, e: string) {
    && c < |acts| && acts[c] == CheckInbound(k)
    && k < |Run(w0, acts[..c]).inbounds| && Run(w0, acts[..c]).inbounds[k].remote == e
    && Trusts(Run(w0, acts[..c]).app.peers, e)
  }

  /** Step `c` began send `k`, which is `d`: it resolved the recipient string to a trusted peer. */
  ghost predicate SendBegun(w0: World, acts: seq<Act>, c: nat, k: nat, d: Send) {
    && c < |acts| && acts[c].BeginSend? && |Run(w0, acts[..c]).sends| == k && acts[c].sendId == d.id && acts[c].sendText == d.text
    && Transport.Recipient(Run(w0, acts[..c]).app.peers, acts[c].recipient, acts[c].sendText) == Ok(d.to)
    && Trusts(Run(w0, acts[..c]).app.peers, d.to)
  }

  ghost predicate WasInboundChecked(w0: World, acts: seq<Act>, k: nat, e: string) {
    exists c: nat :: InboundChecked(w0, acts, c, k, e)
  }

  ghost predicate WasSendBegun(w0: World, acts: seq<Act>, k: nat, d: Send) {
    exists c: nat :: SendBegun(w0, acts, c, k, d)
  }

  ghost predicate TasksInv(w0: World, acts: seq<Act>, w: World) {
    && (forall k :: 0 <= k < |w.inbounds| && w.inbounds[k].stage.FoundTrusted? ==> WasInboundChecked(w0, acts, k, w.inbounds[k].remote))
    && (forall k :: 0 <= k < |w.sends| ==> WasSendBegun(w0, acts, k, w.sends[k]))
  }

  lemma {:induction false} InboundCheckedGrows(w0: World, acts: seq<Act>, k: nat, e: string)
    requires acts != [] && WasInboundChecked(w0, acts[..|acts| - 1], k, e)
    ensures WasInboundChecked(w0, acts, k, e)
  {
    hide Run, Trusts;
    var before := acts[..|acts| - 1];
    var c: nat :| InboundChecked(w0, before, c, k, e);
    assert before[..c] == acts[..c];
    assert InboundChecked(w0, acts, c, k, e);
  }

  lemma {:induction false} SendBegunGrows(w0: World, acts: seq<Act>, k: nat, d: Send, d': Send)
    requires acts != [] && WasSendBegun(w0, acts[..|acts| - 1], k, d) && SameSend(d', d)
    ensures WasSendBegun(w0, acts, k, d')
  {
    hide Run, Trusts, Transport.Recipient;
    var before := acts[..|acts| - 1];
    var c: nat :| SendBegun(w0, before, c, k, d);
    assert before[..c] == acts[..c];
    assert SendBegun(w0, acts, c, k, d');
  }

  /** What a step does to the inbound connections and the sends. */
  lemma {:induction false} TasksAfter(w: World, a: Act)
    ensures var w' := Next(w, a);
            && |w.inbounds| <= |w'.inbounds| && |w.sends| <= |w'.sends| <= |w.sends| + 1
            && (forall k :: 0 <= k < |w'.inbounds| && w'.inbounds[k].stage.FoundTrusted? ==>
                  && k < |w.inbounds| && w'.inbounds[k].remote == w.inbounds[k].remote
                  && (w.inbounds[k].stage.FoundTrusted? || (a == CheckInbound(k) && Trusts(w.app.peers, w.inbounds[k].remote))))
            && (forall k :: 0 <= k < |w.sends| ==> SameSend(w'.sends[k], w.sends[k]))
            && (|w'.sends| > |w.sends| ==>
                  && a.BeginSend? && Transport.Recipient(w.app.peers, a.recipient, a.sendText) == Ok(w'.sends[|w.sends|].to)
                  && w'.sends[|w.sends|].id == a.sendId && w'.sends[|w.sends|].text == a.sendText)
  {
    hide Advance, Effect, Advanced, PeerOf, AfterRename, Without, Trusts, Checked, ConversationRuns.Step, Transport.Recipient,
         Transport.AfterInbound, Connection.KeepInbound;
  }

  lemma {:induction false} RecipientIsTrusted(peers: seq<TrustedPeer>, recipient: string, text: string)
    requires Transport.Recipient(peers, recipient, text).Ok?
    ensures Trusts(peers, Transport.Recipient(peers, recipient, text).value)
  {
    hide PeerOf, Trusts, Network.ValidateTextLen;
    PeerOfIsTrusted(peers, recipient);
  }

  lemma {:induction false} FoundTrustedWasChecked(w0: World, acts: seq<Act>, k: nat)
    requires acts != [] && TasksInv(w0, acts[..|acts| - 1], Run(w0, acts[..|acts| - 1]))
    requires k < |Run(w0, acts).inbounds| && Run(w0, acts).inbounds[k].stage.FoundTrusted?
    ensures WasInboundChecked(w0, acts, k, Run(w0, acts).inbounds[k].remote)
  {
    var before, a, n := acts[..|acts| - 1], acts[|acts| - 1], |acts| - 1;
    var w, w' := Run(w0, before), Run(w0, acts);
    hide Next, Trusts, Transport.Recipient, WasInboundChecked, WasSendBegun;
    assert w' == Next(w, a) && acts[..n] == before;
    hide Run;
    TasksAfter(w, a);
    if w.inbounds[k].stage.FoundTrusted? {
      InboundCheckedGrows(w0, acts, k, w.inbounds[k].remote);
    } else {
      CheckedNow(w0, acts, n, k, w'.inbounds[k].remote);
    }
  }

  lemma {:induction false} SendsWereBegun(w0: World, acts: seq<Act>, k: nat)
    requires acts != [] && TasksInv(w0, acts[..|acts| - 1], Run(w0, acts[..|acts| - 1]))
    requires k < |Run(w0, acts).sends|
    ensures WasSendBegun(w0, acts, k, Run(w0, acts).sends[k])
  {
    var before, a, n := acts[..|acts| - 1], acts[|acts| - 1], |acts| - 1;
    var w, w' := Run(w0, before), Run(w0, acts);
    hide Next, Trusts, Transport.Recipient, WasInboundChecked, WasSendBegun;
    assert w' == Next(w, a) && acts[..n] == before;
    hide Run;
    TasksAfter(w, a);
    if k < |w.sends| {
      SendBegunGrows(w0, acts, k, w.sends[k], w'.sends[k]);
    } else {
      RecipientIsTrusted(w.app.peers, a.recipient, a.sendText);
      BegunNow(w0, acts, n, k, w'.sends[k]);
    }
  }

  lemma {:induction false} CheckedNow(w0: World, acts: seq<Act>, c: nat, k: nat, e: string)
    requires InboundChecked(w0, acts, c, k, e)
    ensures WasInboundChecked(w0, acts, k, e)
  {
    hide InboundChecked;
  }

  lemma {:induction false} BegunNow(w0: World, acts: seq<Act>, c: nat, k: nat, d: Send)
    requires SendBegun(w0, acts, c, k, d)
    ensures WasSendBegun(w0, acts, k, d)
  {
    hide SendBegun;
  }

  lemma {:induction false} RunKeepsTasks(myId: string, trusted: seq<TrustedPeer>, limit: nat, acts: seq<Act>)
    ensures TasksInv(Start(myId, trusted, limit), acts, Run(Start(myId, trusted, limit), acts))
  {
    if acts != [] {
      hide Next, WasInboundChecked, WasSendBegun;
      var w0 := Start(myId, trusted, limit);
      RunKeepsTasks(myId, trusted, limit, acts[..|acts| - 1]);
      hide Run, TasksInv;
      var w := Run(w0, acts);
      assert TasksInv(w0, acts, w) by {
        forall k | 0 <= k < |w.inbounds| && w.inbounds[k].stage.FoundTrusted?
          ensures WasInboundChecked(w0, acts, k, w.inbounds[k].remote)
        {
          FoundTrustedWasChecked(w0, acts, k);
        }
        forall k | 0 <= k < |w.sends| ensures WasSendBegun(w0, acts, k, w.sends[k]) {
          SendsWereBegun(w0, acts, k);
        }
        TasksInvIf(w0, acts, w);
      }
    }
  }

  lemma {:induction false} TasksInvIf(w0: World, acts: seq<Act>, w: World)
    requires forall k :: 0 <= k < |w.inbounds| && w.inbounds[k].stage.FoundTrusted? ==> WasInboundChecked(w0, acts, k, w.inbounds[k].remote)
    requires forall k :: 0 <= k < |w.sends| ==> WasSendBegun(w0, acts, k, w.sends[k])
    ensures TasksInv(w0, acts, w)
  {
    hide WasInboundChecked, WasSendBegun;
  }

  /** Step `c` let step `r` register a connection with `e`: the trust check of that very inbound, or the
      resolution of the recipient of that very send. */
  ghost predicate Vouches(w0: World, acts: seq<Act>, c: nat, r: nat, e: string) {
    && c < r < |acts|
    && ((acts[r].RegisterInbound? && InboundChecked(w0, acts, c, acts[r].k, e))
        || (acts[r].AdvanceSend? && exists d :: SendBegun(w0, acts, c, acts[r].k, d) && d.to == e))
  }

  /** In every run, whatever is registered was let in by an earlier step that found its endpoint trusted. */
  lemma {:induction false} RegisteredWasTrusted(myId: string, trusted: seq<TrustedPeer>, limit: nat, acts: seq<Act>, r: nat, e: string)
    requires RegisteredAt(Start(myId, trusted, limit), acts, r, e)
    ensures exists c: nat :: Vouches(Start(myId, trusted, limit), acts, c, r, e)
                             && Trusts(Run(Start(myId, trusted, limit), acts[..c]).app.peers, e)
  {
    hide Run, Trusts, Transport.Recipient;
    var w0, before := Start(myId, trusted, limit), acts[..r];
    RunKeepsTasks(myId, trusted, limit, before);
    if acts[r].RegisterInbound? {
      var c: nat :| InboundChecked(w0, before, c, acts[r].k, e);
      assert before[..c] == acts[..c];
      assert Vouches(w0, acts, c, r, e);
    } else {
      var d := Run(w0, before).sends[acts[r].k];
      var c: nat :| SendBegun(w0, before, c, acts[r].k, d);
      assert before[..c] == acts[..c];
      assert SendBegun(w0, acts, c, acts[r].k, d);
      assert Vouches(w0, acts, c, r, e);
    }
  }

  /** When it is still trusted as it is registered: exactly when no step since the check unpaired it, or
      a later session granted it again with no unpair after that. */
  lemma {:induction false} RegisteredStillTrustedIff(w0: World, acts: seq<Act>, c: nat, r: nat, e: string)
    requires Vouches(w0, acts, c, r, e)
    ensures Trusts(Run(w0, acts[..r]).app.peers, e) <==>
              || KeptAfter(w0, acts[..r], c, e)
              || exists g: nat :: c < g < r && GrantedAt(w0, acts[..r], g, e) && KeptAfter(w0, acts[..r], g, e)
  {
    hide Run, Trusts, Transport.Recipient;
    StillTrustedIff(w0, acts, c, r, e);
  }

  // ------------------------------------------------------------------------- strangers registered

  /** A connection with an endpoint that is not trusted is in the registry. */
  ghost predicate Stranger(w: World, e: string) {
    Holds(w, e) && !Trusts(w.app.peers, e)
  }

  lemma {:induction false} StrangerAfter(w: World, a: Act, e: string)
    ensures Stranger(Next(w, a), e) <==>
              if Registers(w, a, e) then !Trusts(w.app.peers, e)
              else Stranger(w, e) && !Grants(w, a, e) && !Forgets(w, a, e)
  {
    hide Next, Trusts, Holds;
    HoldsAfter(w, a, e);
    TrustAfter(w, a, e);
  }

  /** Nothing since step `r` granted `e` trust or took its connection out. */
  ghost predicate QuietAfter(w0: World, acts: seq<Act>, r: nat, e: string) {
    forall j: nat :: r < j < |acts| ==> !GrantedAt(w0, acts, j, e) && !ForgottenAt(w0, acts, j, e)
  }

  ghost predicate StrangerSince(w0: World, acts: seq<Act>, e: string) {
    exists r: nat :: RegisteredAt(w0, acts, r, e) && !Trusts(Run(w0, acts[..r]).app.peers, e) && QuietAfter(w0, acts, r, e)
  }

  lemma {:induction false} QuietStep(w0: World, acts: seq<Act>, r: nat, e: string)
    requires r < |acts| - 1
    ensures var before, n := acts[..|acts| - 1], |acts| - 1;
            && (RegisteredAt(w0, acts, r, e) <==> RegisteredAt(w0, before, r, e)) && before[..r] == acts[..r]
            && (QuietAfter(w0, acts, r, e) <==>
                QuietAfter(w0, before, r, e) && !GrantedAt(w0, acts, n, e) && !ForgottenAt(w0, acts, n, e))
  {
    hide Run, Grants, Forgets, Registers;
    var before := acts[..|acts| - 1];
    forall j: nat | j < |before|
      ensures GrantedAt(w0, acts, j, e) <==> GrantedAt(w0, before, j, e)
      ensures ForgottenAt(w0, acts, j, e) <==> ForgottenAt(w0, before, j, e)
      ensures before[..j] == acts[..j]
    {
      assert before[..j] == acts[..j];
    }
    assert RegisteredAt(w0, acts, r, e) <==> RegisteredAt(w0, before, r, e);
    hide GrantedAt, ForgottenAt, RegisteredAt;
    if QuietAfter(w0, acts, r, e) {
      forall j: nat | r < j < |before| ensures !GrantedAt(w0, before, j, e) && !ForgottenAt(w0, before, j, e) {
        assert !GrantedAt(w0, acts, j, e);
      }
    }
  }

  lemma {:induction false} StrangerSinceStep(w0: World, acts: seq<Act>, e: string)
    requires acts != []
    ensures var before, n := acts[..|acts| - 1], |acts| - 1;
            StrangerSince(w0, acts, e) <==>
              || (RegisteredAt(w0, acts, n, e) && !Trusts(Run(w0, before).app.peers, e))
              || (StrangerSince(w0, before, e) && !GrantedAt(w0, acts, n, e) && !ForgottenAt(w0, acts, n, e))
  {
    var before, n := acts[..|acts| - 1], |acts| - 1;
    assert acts[..n] == before;
    assert QuietAfter(w0, acts, n, e);
    hide Run, Trusts, QuietAfter, RegisteredAt, GrantedAt, ForgottenAt;
    if StrangerSince(w0, acts, e) {
      var r: nat :| RegisteredAt(w0, acts, r, e) && !Trusts(Run(w0, acts[..r]).app.peers, e) && QuietAfter(w0, acts, r, e);
      if r < n { QuietStep(w0, acts, r, e); }
    }
    if StrangerSince(w0, before, e) && !GrantedAt(w0, acts, n, e) && !ForgottenAt(w0, acts, n, e) {
      var r: nat :| RegisteredAt(w0, before, r, e) && !Trusts(Run(w0, before[..r]).app.peers, e) && QuietAfter(w0, before, r, e);
      assert r < n by { RegisteredInRange(w0, before, r, e); }
      QuietStep(w0, acts, r, e);
    }
  }

  lemma {:induction false} RegisteredInRange(w0: World, acts: seq<Act>, r: nat, e: string)
    requires RegisteredAt(w0, acts, r, e)
    ensures r < |acts|
  {
    hide Run, Registers;
  }

  /** In every run the registry holds a connection with an untrusted endpoint exactly when some step
      registered one while it was untrusted, and nothing since then granted it trust, unpaired it or
      put it offline. */
  lemma {:induction false} StrangerIff(w0: World, acts: seq<Act>, e: string)
    requires !Holds(w0, e)
    ensures Stranger(Run(w0, acts), e) <==> StrangerSince(w0, acts, e)
  {
    if acts != [] {
      hide Next, Trusts, Holds, Stranger, StrangerSince, Registers, Grants, Forgets;
      var before, n := acts[..|acts| - 1], |acts| - 1;
      assert acts[..n] == before;
      StrangerIff(w0, before, e);
      StrangerAfter(Run(w0, before), acts[n], e);
      StrangerSinceStep(w0, acts, e);
      StrangersAreUntrusted(Run(w0, before), e);
    }
  }

  lemma {:induction false} StrangersAreUntrusted(w: World, e: string)
    ensures Stranger(w, e) ==> !Trusts(w.app.peers, e)
  {}

  lemma {:induction false} InboundFoundTrusted(p: TrustedPeer, myId: string, serial: nat)
    requires p.endpointId == "e"
    ensures var w0 := Start(myId, [p], 100);
            Run(w0, [InboundArrives("e", serial), CheckInbound(0)]) ==
            w0.(inbounds := [Inbound("e", Connection.Conn(serial, "e"), FoundTrusted)])
  {
    hide Effect, Advanced, Advance;
    var w0, acts := Start(myId, [p], 100), [InboundArrives("e", serial), CheckInbound(0)];
    assert acts[..1] == [acts[0]] && acts[..1][..0] == [];
    assert EndpointIds([p]) == ["e"];
    assert Run(w0, acts[..1]) == w0.(inbounds := [Inbound("e", Connection.Conn(serial, "e"), Unchecked)]);
  }

  /** It does happen: the endpoint is unpaired between the check and the registration, and an open
      connection with it ends up registered. */
  lemma {:induction false} StrangerRegistered(p: TrustedPeer, myId: string, serial: nat)
    requires p.endpointId == "e" && p.alias == "a"
    ensures var w := Run(Start(myId, [p], 100), [InboundArrives("e", serial), CheckInbound(0), Unpair("a"), RegisterInbound(0)]);
            Stranger(w, "e") && Connection.Cached(w.registry, w.closed, "e") == Some(Connection.Conn(serial, "e"))
  {
    hide Fold, Effect, Advanced, Advance;
    var w0 := Start(myId, [p], 100);
    var acts := [InboundArrives("e", serial), CheckInbound(0), Unpair("a"), RegisterInbound(0)];
    InboundFoundTrusted(p, myId, serial);
    assert acts[..2] == [acts[0], acts[1]] && acts[..3][..2] == acts[..2];
    var w2 := Run(w0, acts[..2]);
    assert FindAlias([p], "a") == 0;
    assert Run(w0, acts[..3]) == w2.(app := State([], map[], []));
  }

  // --------------------------------------------------------------------------- whom a send goes to

  /** In every run each send is of the text and under the id it was begun with, and goes to the endpoint
      that its recipient string named, among the peers of the moment at which it began. */
  lemma {:induction false} SendGoesWhereNamed(myId: string, trusted: seq<TrustedPeer>, limit: nat, acts: seq<Act>, k: nat)
    requires k < |Run(Start(myId, trusted, limit), acts).sends|
    ensures var w0, d := Start(myId, trusted, limit), Run(Start(myId, trusted, limit), acts).sends[k];
            exists c: nat ::
              && c < |acts| && acts[c].BeginSend? && |Run(w0, acts[..c]).sends| == k
              && acts[c].sendId == d.id && acts[c].sendText == d.text && d.text != ""
              && NamesEndpoint(Run(w0, acts[..c]).app.peers, acts[c].recipient, d.to)
  {
    hide Run, Trusts, Transport.Recipient, NamesEndpoint;
    RunKeepsTasks(myId, trusted, limit, acts);
    var w0, d := Start(myId, trusted, limit), Run(Start(myId, trusted, limit), acts).sends[k];
    var c: nat :| SendBegun(w0, acts, c, k, d);
    Transport.RecipientIsNamed(Run(w0, acts[..c]).app.peers, acts[c].recipient, acts[c].sendText, d.to);
  }

  // ------------------------------------------------------------------------ which connection, and its end

  /** What is registered is the connection that was accepted, or the one that was just dialed from here. */
  lemma {:induction false} RegistersWhich(w: World, a: Act, e: string)
    requires Registers(w, a, e)
    ensures Connection.EntryOf(Next(w, a).registry, e) ==
            Connection.Runtime(Connection.Online,
              Some(if a.RegisterInbound? then w.inbounds[a.k].conn else Connection.Conn(a.serial, w.myId)))
  {
    hide ConversationRuns.Step, Effect, Advanced, Connection.KeepInbound;
  }

  /** An inbound connection of a trusted endpoint that loses the tie-break is closed and not registered. */
  lemma {:induction false} LoserIsClosed(w: World, k: nat)
    requires k < |w.inbounds| && w.inbounds[k].stage.FoundTrusted?
    requires !Connection.KeepInbound(w.registry, w.closed, w.myId, w.inbounds[k].remote)
    ensures w.inbounds[k].conn in Next(w, RegisterInbound(k)).closed && Next(w, RegisterInbound(k)).registry == w.registry
  {}

  /** Closed connections stay closed. */
  lemma {:induction false} ClosedAfter(w: World, a: Act)
    ensures w.closed <= Next(w, a).closed
  {
    hide Effect, Advanced, PeerOf, AfterRename, Without, Trusts, Checked, ConversationRuns.Step, Transport.Recipient,
         Transport.AfterInbound, Connection.KeepInbound, Connection.Cached;
  }

  lemma {:induction false} ClosedForGood(w0: World, acts: seq<Act>, more: seq<Act>)
    ensures Run(w0, acts).closed <= Run(w0, acts + more).closed
  {
    if more == [] {
      assert acts + more == acts;
    } else {
      hide Next;
      var before := more[..|more| - 1];
      assert (acts + more)[..|acts + more| - 1] == acts + before;
      ClosedForGood(w0, acts, before);
      ClosedAfter(Run(w0, acts + before), more[|more| - 1]);
    }
  }

  /** Unpairing an endpoint closes the connection that is registered with it at that step, and after it
      that connection is never open again, registered or not. */
  lemma {:induction false} UnpairClosesForGood(w0: World, acts: seq<Act>, identifier: string, e: string, c: Connection.Conn, more: seq<Act>)
    requires NamesEndpoint(Run(w0, acts).app.peers, identifier, e)
    requires Connection.EntryOf(Run(w0, acts).registry, e).connection == Some(c)
    ensures !Holds(Run(w0, acts + [Unpair(identifier)]), e)
    ensures var w := Run(w0, acts + [Unpair(identifier)] + more);
            c in w.closed && forall id :: Connection.Cached(w.registry, w.closed, id) != Some(c)
  {
    var w := Run(w0, acts);
    assert (acts + [Unpair(identifier)])[..|acts|] == acts;
    UnpairClosesNamed(w.registry, w.app.peers, identifier, e);
    hide AfterUnpairRegistry, UnpairCloses, NamesEndpoint, AfterUnpair;
    assert Run(w0, acts + [Unpair(identifier)]) == Next(w, Unpair(identifier));
    ClosedForGood(w0, acts + [Unpair(identifier)], more);
  }

  /** A connection that breaks is closed; a new limit is set. */
  lemma {:induction false} BreakAndLimit(w: World, c: Connection.Conn, limit: nat, id: string)
    ensures Connection.Cached(Next(w, BreakConnection(c)).registry, Next(w, BreakConnection(c)).closed, id) != Some(c)
    ensures Next(w, ChangeLimit(limit)).history.store.limit == limit
  {}
}
