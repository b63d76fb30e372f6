/** Trust over whole runs of a daemon: where it comes from, what it lets in, and what it does to aliases. */
module TrustRuns {
  import opened Basics
  import opened Peers
  import opened AppState
  import opened Daemon
  import opened Conversation
  import PairingSession
  import ConversationRuns
  import Network
  import Transport

  /** This step ends a session of ours that both sides confirmed, with peer `e`. */
  predicate Grants(w: World, a: Act, e: string) {
    Finishes(w, a) && Mine(w.sessions[a.id]).phase.outcome == Ok(true) && PeerId(w.sessions[a.id]) == e
  }

  /** This step unpairs `e`. */
  predicate Revokes(w: World, a: Act, e: string) {
    a.Unpair? && PeerOf(w.app.peers, a.identifier).Ok? && PeerOf(w.app.peers, a.identifier).value.endpointId == e
  }

  /** The only steps that change the list of trusted endpoint ids: a confirmed session appends its
      peer, an unpair removes every record of one endpoint. Rename and reset keep the list as it is. */
  lemma {:induction false} EndpointIdsAfter(w: World, a: Act)
    ensures var ids, ids' := EndpointIds(w.app.peers), EndpointIds(Next(w, a).app.peers);
            if Finishes(w, a) && Mine(w.sessions[a.id]).phase.outcome == Ok(true) then ids' == ids + [PeerId(w.sessions[a.id])]
            else if a.Unpair? && PeerOf(w.app.peers, a.identifier).Ok? then
              ids' == EndpointIds(Without(w.app.peers, PeerOf(w.app.peers, a.identifier).value.endpointId))
            else ids' == ids
  {
    hide Advance, PairingSession.Next, Requested, RefusalOf, Unspent, AliasFor, PeerOf, ConversationRuns.Step, Network.ValidateTextLen, Trusts;
    if a.Rename? {
      RenameKeepsEndpointIds(w.app, a.identifier, a.alias);
    }
  }

  lemma {:induction false} TrustAfter(w: World, a: Act, e: string)
    ensures Trusts(Next(w, a).app.peers, e) <==> Grants(w, a, e) || (Trusts(w.app.peers, e) && !Revokes(w, a, e))
  {
    hide Next, PeerOf, Without;
    EndpointIdsAfter(w, a);
    if a.Unpair? && PeerOf(w.app.peers, a.identifier).Ok? {
      TrustsAfterUnpair(w.app.peers, PeerOf(w.app.peers, a.identifier).value.endpointId, e);
    }
  }

  ghost predicate GrantedAt(w0: World, acts: seq<Act>, i: nat, e: string) {
    i < |acts| && Grants(Run(w0, acts[..i]), acts[i], e)
  }

  ghost predicate RevokedAt(w0: World, acts: seq<Act>, i: nat, e: string) {
    i < |acts| && Revokes(Run(w0, acts[..i]), acts[i], e)
  }

  /** No step after the i-th unpairs `e`. */
  ghost predicate KeptAfter(w0: World, acts: seq<Act>, i: int, e: string) {
    forall j: nat :: i < j < |acts| ==> !RevokedAt(w0, acts, j, e)
  }

  lemma {:induction false} EventsOfPrefix(w0: World, acts: seq<Act>, j: nat, e: string)
    requires j < |acts| - 1
    ensures GrantedAt(w0, acts, j, e) <==> GrantedAt(w0, acts[..|acts| - 1], j, e)
    ensures RevokedAt(w0, acts, j, e) <==> RevokedAt(w0, acts[..|acts| - 1], j, e)
  {
    assert acts[..j] == acts[..|acts| - 1][..j];
  }

  lemma {:induction false} KeptAfterStep(w0: World, acts: seq<Act>, i: int, e: string)
    requires -1 <= i < |acts| - 1
    ensures KeptAfter(w0, acts, i, e) <==>
              KeptAfter(w0, acts[..|acts| - 1], i, e) && !RevokedAt(w0, acts, |acts| - 1, e)
  {
    hide GrantedAt, RevokedAt;
    var before := acts[..|acts| - 1];
    forall j: nat | j < |before| ensures RevokedAt(w0, acts, j, e) <==> RevokedAt(w0, before, j, e) {
      EventsOfPrefix(w0, acts, j, e);
    }
    if KeptAfter(w0, acts, i, e) {
      forall j: nat | i < j < |before| ensures !RevokedAt(w0, before, j, e) {
        assert !RevokedAt(w0, acts, j, e);
      }
    }
  }

  lemma {:induction false} NothingAfterLast(w0: World, acts: seq<Act>, e: string)
    ensures KeptAfter(w0, acts, |acts| - 1, e)
  {}

  /** `e` was trusted before step `c`, or granted since, and not unpaired after that. */
  ghost predicate WarrantedSince(w0: World, acts: seq<Act>, c: nat, e: string)
    requires c <= |acts|
  {
    || (Trusts(Run(w0, acts[..c]).app.peers, e) && KeptAfter(w0, acts, c - 1, e))
    || GrantedSince(w0, acts, c, e)
  }

  ghost predicate GrantedSince(w0: World, acts: seq<Act>, c: nat, e: string) {
    exists i: nat :: c <= i < |acts| && GrantedAt(w0, acts, i, e) && KeptAfter(w0, acts, i, e)
  }

  lemma {:induction false} GrantedSinceStep(w0: World, acts: seq<Act>, c: nat, e: string)
    requires c < |acts|
    ensures GrantedSince(w0, acts, c, e) <==>
              || GrantedAt(w0, acts, |acts| - 1, e)
              || (GrantedSince(w0, acts[..|acts| - 1], c, e) && !RevokedAt(w0, acts, |acts| - 1, e))
  {
    hide KeptAfter, GrantedAt, RevokedAt;
    var before, n := acts[..|acts| - 1], |acts| - 1;
    NothingAfterLast(w0, acts, e);
    if i: nat :| c <= i < n && GrantedAt(w0, acts, i, e) && KeptAfter(w0, acts, i, e) {
      KeptAfterStep(w0, acts, i, e);
      EventsOfPrefix(w0, acts, i, e);
    }
    if i: nat :| c <= i < n && GrantedAt(w0, before, i, e) && KeptAfter(w0, before, i, e) {
      KeptAfterStep(w0, acts, i, e);
      EventsOfPrefix(w0, acts, i, e);
    }
  }

  /** Counting from any step of any run: an endpoint is trusted exactly when it was trusted there or a
      both-confirmed session with it has ended since, and it was not unpaired after that. */
  lemma {:induction false} TrustedSinceIff(w0: World, acts: seq<Act>, c: nat, e: string)
    requires c <= |acts|
    ensures Trusts(Run(w0, acts).app.peers, e) <==> WarrantedSince(w0, acts, c, e)
    decreases |acts|
  {
    hide Next, Trusts, Grants, Revokes;
    if c == |acts| {
      assert acts[..c] == acts;
      NothingAfterLast(w0, acts, e);
    } else {
      var before, n := acts[..|acts| - 1], |acts| - 1;
      TrustedSinceIff(w0, before, c, e);
      assert before[..c] == acts[..c];
      TrustAfter(Run(w0, before), acts[n], e);
      hide KeptAfter, GrantedSince;
      GrantedSinceStep(w0, acts, c, e);
      if c < n {
        KeptAfterStep(w0, acts, c - 1, e);
      } else {
        assert KeptAfter(w0, acts, c - 1, e) <==> !RevokedAt(w0, acts, n, e) by { KeptAtLast(w0, acts, e); }
        assert KeptAfter(w0, before, c - 1, e) by { NothingAfterLast(w0, before, e); }
      }
    }
  }

  lemma {:induction false} KeptAtLast(w0: World, acts: seq<Act>, e: string)
    requires acts != []
    ensures KeptAfter(w0, acts, |acts| - 2, e) <==> !RevokedAt(w0, acts, |acts| - 1, e)
  {
    hide RevokedAt;
  }

  /** In every run an endpoint is trusted exactly when it was loaded with the configuration or a
      both-confirmed session with it ended, and it was not unpaired since. */
  lemma {:induction false} TrustedIff(w0: World, acts: seq<Act>, e: string)
    ensures Trusts(Run(w0, acts).app.peers, e) <==>
              || (Trusts(w0.app.peers, e) && KeptAfter(w0, acts, -1, e))
              || exists i: nat :: i < |acts| && GrantedAt(w0, acts, i, e) && KeptAfter(w0, acts, i, e)
  {
    TrustedSinceIff(w0, acts, 0, e);
    hide Next, Trusts, KeptAfter, GrantedAt;
    assert acts[..0] == [];
    assert GrantedSince(w0, acts, 0, e) <==> exists i: nat :: i < |acts| && GrantedAt(w0, acts, i, e) && KeptAfter(w0, acts, i, e);
  }

  /** After a moment at which `e` was trusted, when it is still trusted later: exactly when no step since
      unpaired it, or a later session granted it again with no unpair after that. */
  lemma {:induction false} StillTrustedIff(w0: World, acts: seq<Act>, c: nat, r: nat, e: string)
    requires c < r <= |acts| && Trusts(Run(w0, acts[..c]).app.peers, e)
    requires !GrantedAt(w0, acts, c, e) && !RevokedAt(w0, acts, c, e)
    ensures Trusts(Run(w0, acts[..r]).app.peers, e) <==>
              || KeptAfter(w0, acts[..r], c, e)
              || exists g: nat :: c < g < r && GrantedAt(w0, acts[..r], g, e) && KeptAfter(w0, acts[..r], g, e)
  {
    hide Trusts, Run, Grants, Revokes;
    var until := acts[..r];
    assert until[..c] == acts[..c];
    TrustedSinceIff(w0, until, c, e);
    assert !GrantedAt(w0, until, c, e) && !RevokedAt(w0, until, c, e);
    hide GrantedAt, RevokedAt;
  }

  /** Behind every grant both humans answered yes, to the same verification string. */
  lemma {:induction false} GrantNeedsBothYes(myId: string, trusted: seq<TrustedPeer>, limit: nat, acts: seq<Act>, i: nat, e: string)
    requires GrantedAt(Start(myId, trusted, limit), acts, i, e)
    ensures var w := Run(Start(myId, trusted, limit), acts[..i]);
            && acts[i].Pair? && acts[i].id in w.sessions
            && var s := w.sessions[acts[i].id].session;
               && s.inviter.answer == Some(true) && s.joiner.answer == Some(true)
               && s.inviter.shown.Some? && s.inviter.shown == s.joiner.shown
  {
    hide Run, PairingSession.Inv, Mirrors;
    RunKeepsSessionInv(myId, trusted, limit, acts[..i]);
    var l := Run(Start(myId, trusted, limit), acts[..i]).sessions[acts[i].id];
    PairingSession.CommitNeedsBothYes(l.terms, l.session, l.ours);
  }

  // ------------------------------------------------------------------------------ incoming texts

  ghost predicate KnownAs(w: World, e: string, alias: string) {
    exists j: nat :: j < |w.app.peers| && w.app.peers[j].endpointId == e && w.app.peers[j].alias == alias
  }

  predicate SameText(a: Text, b: Text) {
    a.(stage := b.stage) == b
  }

  /** Step `c` was the trust check of text `k`: the text, `t`, had arrived, and its sender was a trusted
      peer under this alias at that very moment. */
  ghost predicate CheckedAt(w0: World, acts: seq<Act>, c: nat, k: nat, t: Text, alias: string) {
    && c < |acts| && acts[c] == CheckTrust(k)
    && k < |Run(w0, acts[..c]).texts| && SameText(Run(w0, acts[..c]).texts[k], t)
    && KnownAs(Run(w0, acts[..c]), t.from, alias)
  }

  ghost predicate WasChecked(w0: World, acts: seq<Act>, k: nat, t: Text, alias: string) {
    exists c: nat :: CheckedAt(w0, acts, c, k, t, alias)
  }

  /** `m` was recorded by step `r`, for text `k`, which step `c` had checked before. */
  ghost predicate RecordedAt(w0: World, acts: seq<Act>, m: StoredMessage, c: nat, r: nat, k: nat) {
    && c < r < |acts| && acts[r].Record? && acts[r].k == k
    && exists t :: CheckedAt(w0, acts, c, k, t, m.senderLabel) && t.from == m.peerId && t.id == m.id && t.text == m.text
  }

  ghost predicate WasRecorded(w0: World, acts: seq<Act>, m: StoredMessage) {
    exists c: nat, r: nat, k: nat :: RecordedAt(w0, acts, m, c, r, k)
  }

  ghost predicate TextsInv(w0: World, acts: seq<Act>, w: World) {
    && (forall k :: 0 <= k < |w.texts| && w.texts[k].stage.Authorised? ==>
          WasChecked(w0, acts, k, w.texts[k], w.texts[k].stage.alias))
    && (forall i :: 0 <= i < |w.history.accepted| ==> WasRecorded(w0, acts, w.history.accepted[i]))
  }

  lemma {:induction false} CheckedGrows(w0: World, acts: seq<Act>, c: nat, k: nat, t: Text, t': Text, alias: string)
    requires acts != [] && CheckedAt(w0, acts[..|acts| - 1], c, k, t, alias) && SameText(t, t')
    ensures CheckedAt(w0, acts, c, k, t', alias)
  {
    hide Run;
    assert acts[..|acts| - 1][..c] == acts[..c];
  }

  lemma {:induction false} RecordedGrows(w0: World, acts: seq<Act>, m: StoredMessage)
    requires acts != [] && WasRecorded(w0, acts[..|acts| - 1], m)
    ensures WasRecorded(w0, acts, m)
  {
    hide CheckedAt;
    var before := acts[..|acts| - 1];
    var c: nat, r: nat, k: nat :| RecordedAt(w0, before, m, c, r, k);
    var t :| CheckedAt(w0, before, c, k, t, m.senderLabel) && t.from == m.peerId && t.id == m.id && t.text == m.text;
    CheckedGrows(w0, acts, c, k, t, t, m.senderLabel);
    assert RecordedAt(w0, acts, m, c, r, k);
  }

  /** What a step does to the texts: they keep their contents, and one is newly authorised only by its
      own check, on the peers of that moment. */
  lemma {:induction false} TextsAfter(w: World, a: Act)
    ensures var w' := Next(w, a);
            && |w.texts| <= |w'.texts| <= |w.texts| + 1
            && (forall k :: 0 <= k < |w.texts| ==> SameText(w.texts[k], w'.texts[k]))
            && (forall k :: 0 <= k < |w'.texts| && w'.texts[k].stage.Authorised? ==>
                  && k < |w.texts|
                  && (w'.texts[k] == w.texts[k]
                      || (a == CheckTrust(k) && KnownAs(w, w.texts[k].from, w'.texts[k].stage.alias))))
  {
    hide Advance, Effect, Advanced, ConversationRuns.Step, Network.ValidateTextLen, AfterRenamePeer, AfterUnpair;
  }

  lemma {:induction false} AcceptedAfter(w: World, a: Act)
    ensures var log, log' := w.history.accepted, Next(w, a).history.accepted;
            || log' == log
            || (a.Record? && a.k < |w.texts| && w.texts[a.k].stage.Authorised? && |log'| == |log| + 1 && log'[..|log|] == log
                && log'[|log|].peerId == w.texts[a.k].from && log'[|log|].senderLabel == w.texts[a.k].stage.alias
                && log'[|log|].id == w.texts[a.k].id && log'[|log|].text == w.texts[a.k].text)
  {
    hide Advance, Effect, Advanced, Apply, Checked, AfterRenamePeer, AfterUnpair, AfterUnpairRegistry, UnpairCloses, Transport.Recipient,
         Transport.AfterInbound, Trusts, ConversationRuns.AppendPush;
  }

  lemma {:induction false} AuthorisedWasChecked(w0: World, acts: seq<Act>, k: nat)
    requires acts != [] && TextsInv(w0, acts[..|acts| - 1], Run(w0, acts[..|acts| - 1]))
    requires k < |Run(w0, acts).texts| && Run(w0, acts).texts[k].stage.Authorised?
    ensures WasChecked(w0, acts, k, Run(w0, acts).texts[k], Run(w0, acts).texts[k].stage.alias)
  {
    var before, a := acts[..|acts| - 1], acts[|acts| - 1];
    var w, w' := Run(w0, before), Run(w0, acts);
    hide Next, KnownAs;
    assert w' == Next(w, a);
    TextsAfter(w, a);
    hide Run;
    if w'.texts[k] == w.texts[k] {
      var c: nat :| CheckedAt(w0, before, c, k, w.texts[k], w.texts[k].stage.alias);
      CheckedGrows(w0, acts, c, k, w.texts[k], w'.texts[k], w.texts[k].stage.alias);
    } else {
      assert CheckedAt(w0, acts, |before|, k, w'.texts[k], w'.texts[k].stage.alias);
    }
  }

  lemma {:induction false} NewlyRecorded(w0: World, acts: seq<Act>, m: StoredMessage)
    requires acts != [] && TextsInv(w0, acts[..|acts| - 1], Run(w0, acts[..|acts| - 1]))
    requires var w, a := Run(w0, acts[..|acts| - 1]), acts[|acts| - 1];
             && a.Record? && a.k < |w.texts| && w.texts[a.k].stage.Authorised?
             && m.peerId == w.texts[a.k].from && m.senderLabel == w.texts[a.k].stage.alias
             && m.id == w.texts[a.k].id && m.text == w.texts[a.k].text
    ensures WasRecorded(w0, acts, m)
  {
    hide Run, CheckedAt;
    var before, a := acts[..|acts| - 1], acts[|acts| - 1];
    var t := Run(w0, before).texts[a.k];
    var c: nat :| CheckedAt(w0, before, c, a.k, t, t.stage.alias);
    assert c < |before| by { CheckedInTime(w0, before, c, a.k, t, t.stage.alias); }
    CheckedGrows(w0, acts, c, a.k, t, t, t.stage.alias);
    assert RecordedAt(w0, acts, m, c, |before|, a.k);
  }

  lemma {:induction false} CheckedInTime(w0: World, acts: seq<Act>, c: nat, k: nat, t: Text, alias: string)
    requires CheckedAt(w0, acts, c, k, t, alias)
    ensures c < |acts| && Trusts(Run(w0, acts[..c]).app.peers, t.from)
  {
    hide Run;
    var peers := Run(w0, acts[..c]).app.peers;
    var j: nat :| j < |peers| && peers[j].endpointId == t.from && peers[j].alias == alias;
    assert EndpointIds(peers)[j] == t.from;
  }

  lemma {:induction false} RunKeepsTextsInv(myId: string, trusted: seq<TrustedPeer>, limit: nat, acts: seq<Act>)
    ensures TextsInv(Start(myId, trusted, limit), acts, Run(Start(myId, trusted, limit), acts))
  {
    if acts != [] {
      hide Next, WasChecked, WasRecorded;
      var w0, before, a := Start(myId, trusted, limit), acts[..|acts| - 1], acts[|acts| - 1];
      RunKeepsTextsInv(myId, trusted, limit, before);
      var w, w' := Run(w0, before), Run(w0, acts);
      AcceptedAfter(w, a);
      forall k | 0 <= k < |w'.texts| && w'.texts[k].stage.Authorised?
        ensures WasChecked(w0, acts, k, w'.texts[k], w'.texts[k].stage.alias)
      {
        AuthorisedWasChecked(w0, acts, k);
      }
      forall i | 0 <= i < |w'.history.accepted| ensures WasRecorded(w0, acts, w'.history.accepted[i]) {
        if i < |w.history.accepted| {
          assert w'.history.accepted[i] == w.history.accepted[i];
          RecordedGrows(w0, acts, w.history.accepted[i]);
        } else {
          NewlyRecorded(w0, acts, w'.history.accepted[i]);
        }
      }
    }
  }

  /** A text is authorised, and a message recorded, only after a check of that very text, made after
      it arrived, that found its sender trusted, under the alias it is then labelled with. */
  lemma {:induction false} RecordedWasTrusted(myId: string, trusted: seq<TrustedPeer>, limit: nat, acts: seq<Act>)
    ensures var w0, w := Start(myId, trusted, limit), Run(Start(myId, trusted, limit), acts);
            && (forall k :: 0 <= k < |w.texts| && w.texts[k].stage.Authorised? ==>
                  WasChecked(w0, acts, k, w.texts[k], w.texts[k].stage.alias))
            && (forall i :: 0 <= i < |w.history.accepted| ==> WasRecorded(w0, acts, w.history.accepted[i]))
  {
    hide Run, WasChecked, WasRecorded;
    RunKeepsTextsInv(myId, trusted, limit, acts);
  }

  /** When the sender of a recorded text is still trusted as it is recorded: exactly when no step since
      the check unpaired it, or a later session granted it again with no unpair after that. */
  lemma {:induction false} RecordedStillTrustedIff(w0: World, acts: seq<Act>, c: nat, r: nat, k: nat, t: Text, alias: string)
    requires CheckedAt(w0, acts, c, k, t, alias) && c < r <= |acts|
    ensures Trusts(Run(w0, acts[..r]).app.peers, t.from) <==>
              || KeptAfter(w0, acts[..r], c, t.from)
              || exists g: nat :: c < g < r && GrantedAt(w0, acts[..r], g, t.from) && KeptAfter(w0, acts[..r], g, t.from)
  {
    hide Run, Trusts, KnownAs;
    CheckedInTime(w0, acts, c, k, t, alias);
    StillTrustedIff(w0, acts, c, r, t.from);
  }

  /** Revocation holds: if `e` is untrusted at some state and no later session grants it again, every
      message ever recorded from it was checked before that state. */
  lemma {:induction false} RevocationHolds(myId: string, trusted: seq<TrustedPeer>, limit: nat, acts: seq<Act>, j: nat, i: nat)
    requires var w := Run(Start(myId, trusted, limit), acts);
             && j <= |acts| && i < |w.history.accepted|
             && !Trusts(Run(Start(myId, trusted, limit), acts[..j]).app.peers, w.history.accepted[i].peerId)
             && forall g: nat :: j <= g ==> !GrantedAt(Start(myId, trusted, limit), acts, g, w.history.accepted[i].peerId)
    ensures var m := Run(Start(myId, trusted, limit), acts).history.accepted[i];
            exists c: nat, r: nat, k: nat :: c < j && RecordedAt(Start(myId, trusted, limit), acts, m, c, r, k)
  {
    hide Run, Trusts, CheckedAt, GrantedAt;
    var w0, m := Start(myId, trusted, limit), Run(Start(myId, trusted, limit), acts).history.accepted[i];
    RecordedWasTrusted(myId, trusted, limit, acts);
    var c: nat, r: nat, k: nat :| RecordedAt(w0, acts, m, c, r, k);
    var t :| CheckedAt(w0, acts, c, k, t, m.senderLabel) && t.from == m.peerId && t.id == m.id && t.text == m.text;
    CheckedInTime(w0, acts, c, k, t, m.senderLabel);
    if c >= j {
      StaysUntrusted(w0, acts, j, c, m.peerId);
    }
  }

  lemma {:induction false} StaysUntrusted(w0: World, acts: seq<Act>, j: nat, c: nat, e: string)
    requires j <= c <= |acts| && !Trusts(Run(w0, acts[..j]).app.peers, e)
    requires forall g: nat :: j <= g ==> !GrantedAt(w0, acts, g, e)
    ensures !Trusts(Run(w0, acts[..c]).app.peers, e)
  {
    hide Trusts, Next, Grants, KeptAfter;
    var until := acts[..c];
    assert until[..j] == acts[..j];
    forall g: nat | j <= g ensures !GrantedAt(w0, until, g, e) {
      if g < c {
        assert until[..g] == acts[..g];
        assert !GrantedAt(w0, acts, g, e);
      }
    }
    TrustedSinceIff(w0, until, j, e);
  }

  lemma {:induction false} ArrivedAndChecked(p: TrustedPeer, id: Uuid, text: string)
    requires p.endpointId == "e" && Network.ValidateTextLen(text).Ok?
    ensures var w0 := Start("me", [p], 100);
            Run(w0, [TextArrives("e", id, text, 0), CheckTrust(0)]) == w0.(texts := [Text("e", id, text, 0, Authorised(p.alias))])
  {
    hide Network.ValidateTextLen, Effect, Advanced;
    var w0, acts := Start("me", [p], 100), [TextArrives("e", id, text, 0), CheckTrust(0)];
    var w1 := w0.(texts := [Text("e", id, text, 0, Arrived)]);
    assert acts[..1] == [acts[0]] && acts[..1][..0] == [];
    assert Run(w0, acts[..1]) == w1;
    assert FindEndpoint([p], "e") == 0;
  }

  /** It does happen: the sender is unpaired between check and recording, and its message is recorded. */
  lemma {:induction false} RecordedAfterUnpair(p: TrustedPeer, id: Uuid, text: string)
    requires p.endpointId == "e" && p.alias == "a" && Network.ValidateTextLen(text).Ok?
    ensures var w := Run(Start("me", [p], 100), [TextArrives("e", id, text, 0), CheckTrust(0), Unpair("a"), Record(0, 0)]);
            !Trusts(w.app.peers, "e") && |w.history.accepted| == 1 && w.history.accepted[0].peerId == "e"
  {
    hide Network.ValidateTextLen, Fold, ConversationRuns.AppendPush, CacheInsert, Effect, Advanced;
    var w0, acts := Start("me", [p], 100), [TextArrives("e", id, text, 0), CheckTrust(0), Unpair("a"), Record(0, 0)];
    ArrivedAndChecked(p, id, text);
    assert acts[..2] == [acts[0], acts[1]] && acts[..3][..2] == acts[..2];
    var w2 := Run(w0, acts[..2]);
    assert FindAlias([p], "a") == 0;
    assert Run(w0, acts[..3]) == w2.(app := State([], map[], []));
  }

  // ------------------------------------------------------------------------ aliases over a run

  /** Past 998 peers the UUID of the fallback alias is new. */
  predicate FreshFallback(w: World, a: Act) {
    Grants(w, a, PeerOfStep(w, a)) ==>
      || |w.app.peers| <= 998
      || !Taken(w.app.peers, Base(PeerRecord(w.sessions[a.id], a.stamp).displayName) + "-" + a.uuid)
  }

  function PeerOfStep(w: World, a: Act): string {
    if a.Pair? && a.id in w.sessions then PeerId(w.sessions[a.id]) else ""
  }

  /** A rename of `endpointId` would leave no two records with the new alias: no later record of that
      endpoint bears it. */
  predicate NoLaterClash(peers: seq<TrustedPeer>, endpointId: string, alias: string) {
    forall j :: FindEndpoint(peers, endpointId) < j < |peers| && peers[j].endpointId == endpointId ==>
      !SameIgnoringCase(peers[j].alias, alias)
  }

  /** Unless this step is an accepted rename whose new alias a later record of that endpoint bears. */
  predicate CleanRename(w: World, a: Act) {
    a.Rename? && PeerOf(w.app.peers, a.identifier).Ok? ==>
      var e := PeerOf(w.app.peers, a.identifier).value.endpointId;
      var renamed := RenameResult(w.app.peers, e, a.alias);
      renamed.Ok? ==> NoLaterClash(w.app.peers, e, renamed.value)
  }

  lemma {:induction false} RenameStepIff(peers: seq<TrustedPeer>, endpointId: string, alias: string)
    requires AliasesDistinct(peers) && Trusts(peers, endpointId)
    ensures AliasesDistinct(AfterRename(peers, endpointId, alias)) <==>
              (RenameResult(peers, endpointId, alias).Ok? ==>
                 NoLaterClash(peers, endpointId, RenameResult(peers, endpointId, alias).value))
  {
    hide SameIgnoringCase, ValidateAlias, AliasesDistinct;
    var k :| 0 <= k < |peers| && EndpointIds(peers)[k] == endpointId;
    if RenameResult(peers, endpointId, alias).Ok? {
      RenameKeepsAliasesDistinctIff(peers, endpointId, alias);
    }
  }

  /** What a step does to the list of peers. */
  lemma {:induction false} PeersAfter(w: World, a: Act)
    ensures Next(w, a).app.peers ==
            if Grants(w, a, PeerOfStep(w, a)) then
              var p := PeerRecord(w.sessions[a.id], a.stamp);
              AfterAdd(w.app.peers, p.endpointId, p.displayName, p.deviceName, p.pairedAt, a.uuid)
            else if a.Rename? then AfterRenamePeer(w.app, a.identifier, a.alias).peers
            else if a.Unpair? then AfterUnpair(w.app, a.identifier).peers
            else w.app.peers
  {
    hide Advance, PairingSession.Next, Requested, RefusalOf, Unspent, AfterAdd, AfterRenamePeer, AfterUnpair, ConversationRuns.Step,
         Checked, Trusts, AfterUnpairRegistry, UnpairCloses, Transport.Recipient, Transport.AfterInbound;
  }

  /** From distinct aliases one step leads to distinct aliases exactly when it is a clean rename or no
      rename at all. */
  lemma {:induction false} AliasesAfterIff(w: World, a: Act)
    requires AliasesDistinct(w.app.peers) && FreshFallback(w, a)
    ensures AliasesDistinct(Next(w, a).app.peers) <==> CleanRename(w, a)
  {
    hide Next, PeerOf, AliasesDistinct, AfterAdd, AfterRename, Without, NoLaterClash, RenameResult, Taken, Base;
    PeersAfter(w, a);
    if Grants(w, a, PeerOfStep(w, a)) {
      var p := PeerRecord(w.sessions[a.id], a.stamp);
      AddKeepsAliasesDistinct(w.app.peers, p.endpointId, p.displayName, p.deviceName, p.pairedAt, a.uuid);
    } else if a.Rename? && PeerOf(w.app.peers, a.identifier).Ok? {
      PeerOfIsTrusted(w.app.peers, a.identifier);
      RenameStepIff(w.app.peers, PeerOf(w.app.peers, a.identifier).value.endpointId, a.alias);
    } else if a.Unpair? && PeerOf(w.app.peers, a.identifier).Ok? {
      RemoveKeepsAliasesDistinct(w.app.peers, PeerOf(w.app.peers, a.identifier).value.endpointId);
    }
  }

  lemma {:induction false} PeerOfIsTrusted(peers: seq<TrustedPeer>, identifier: string)
    requires PeerOf(peers, identifier).Ok?
    ensures Trusts(peers, PeerOf(peers, identifier).value.endpointId)
  {
    var p := PeerOf(peers, identifier).value;
    WithPrefixMembers(peers, identifier);
    assert p in peers;
    var j :| 0 <= j < |peers| && peers[j] == p;
    assert EndpointIds(peers)[j] == p.endpointId;
  }

  lemma {:induction false} WithPrefixMembers(peers: seq<TrustedPeer>, identifier: string)
    ensures forall p :: p in WithPrefix(peers, identifier) ==> p in peers
  {
    if peers != [] { WithPrefixMembers(peers[1..], identifier); }
  }

  ghost predicate DistinctAt(w0: World, acts: seq<Act>, i: nat)
    requires i <= |acts|
  {
    AliasesDistinct(Run(w0, acts[..i]).app.peers)
  }

  lemma {:induction false} StepOfRun(w0: World, acts: seq<Act>, i: nat)
    requires i < |acts|
    ensures Run(w0, acts[..i + 1]) == Next(Run(w0, acts[..i]), acts[i])
  {
    hide Next;
    assert acts[..i + 1][..i] == acts[..i];
  }

  lemma {:induction false} DistinctUpTo(w0: World, acts: seq<Act>, i: nat)
    requires AliasesDistinct(w0.app.peers) && i <= |acts|
    requires forall j: nat :: j < |acts| ==> FreshFallback(Run(w0, acts[..j]), acts[j])
    requires forall j: nat :: j < |acts| ==> CleanRename(Run(w0, acts[..j]), acts[j])
    ensures DistinctAt(w0, acts, i)
  {
    hide Next, AliasesDistinct, FreshFallback, CleanRename;
    if i == 0 {
      assert acts[..0] == [];
    } else {
      DistinctUpTo(w0, acts, i - 1);
      StepOfRun(w0, acts, i - 1);
      AliasesAfterIff(Run(w0, acts[..i - 1]), acts[i - 1]);
    }
  }

  /** Over any run, re-pairings included: aliases are pairwise distinct at every state exactly when every
      accepted rename finds no later record of its endpoint that bears the new alias. */
  lemma {:induction false} AliasesDistinctIff(w0: World, acts: seq<Act>)
    requires AliasesDistinct(w0.app.peers)
    requires forall j: nat :: j < |acts| ==> FreshFallback(Run(w0, acts[..j]), acts[j])
    ensures (forall i: nat :: i <= |acts| ==> DistinctAt(w0, acts, i)) <==>
            (forall j: nat :: j < |acts| ==> CleanRename(Run(w0, acts[..j]), acts[j]))
  {
    hide Run, Next, AliasesDistinct, FreshFallback, CleanRename;
    if forall i: nat :: i <= |acts| ==> DistinctAt(w0, acts, i) {
      forall j: nat | j < |acts| ensures CleanRename(Run(w0, acts[..j]), acts[j]) {
        assert DistinctAt(w0, acts, j) && DistinctAt(w0, acts, j + 1);
        StepOfRun(w0, acts, j);
        AliasesAfterIff(Run(w0, acts[..j]), acts[j]);
      }
    } else if forall j: nat :: j < |acts| ==> CleanRename(Run(w0, acts[..j]), acts[j]) {
      forall i: nat | i <= |acts| ensures DistinctAt(w0, acts, i) {
        DistinctUpTo(w0, acts, i);
      }
    }
  }

  /** Wherever aliases are distinct, every trusted peer is found by its alias in any casing. */
  lemma {:induction false} DistinctMeansUsable(peers: seq<TrustedPeer>)
    requires AliasesDistinct(peers)
    ensures forall p, identifier :: p in peers && SameIgnoringCase(identifier, p.alias) ==> PeerOf(peers, identifier) == Ok(p)
  {
    hide AliasesDistinct, SameIgnoringCase, Resolve;
    forall p, identifier | p in peers && SameIgnoringCase(identifier, p.alias)
      ensures PeerOf(peers, identifier) == Ok(p)
    {
      var j: nat :| j < |peers| && peers[j] == p;
      EveryPeerResolvesByAlias(peers, j, identifier);
    }
  }

  // ------------------------------------------------ in particular when no endpoint is paired twice

  /** A both-confirmed session ends with a peer that is not already trusted. */
  predicate CleanGrant(w: World, a: Act) {
    FreshFallback(w, a) && (Grants(w, a, PeerOfStep(w, a)) ==> !Trusts(w.app.peers, PeerOfStep(w, a)))
  }

  lemma {:induction false} NextKeepsEndpointsDistinct(w: World, a: Act)
    requires EndpointsDistinct(w.app.peers) && CleanGrant(w, a)
    ensures EndpointsDistinct(Next(w, a).app.peers)
  {
    hide Next, PeerOf, AliasFor, Without, FreshFallback;
    PeersAfter(w, a);
    if Grants(w, a, PeerOfStep(w, a)) {
      forall i | 0 <= i < |w.app.peers| ensures w.app.peers[i].endpointId != PeerOfStep(w, a) {
        assert EndpointIds(w.app.peers)[i] == w.app.peers[i].endpointId;
      }
    } else if a.Rename? {
      hide AfterRenamePeer, EndpointsDistinct;
      RenameKeepsEndpointIds(w.app, a.identifier, a.alias);
      SameIdsDistinct(w.app.peers, AfterRenamePeer(w.app, a.identifier, a.alias).peers);
    } else if a.Unpair? && PeerOf(w.app.peers, a.identifier).Ok? {
      RemoveKeepsEndpointsDistinct(w.app.peers, PeerOf(w.app.peers, a.identifier).value.endpointId);
    }
  }

  lemma {:induction false} SameIdsDistinct(ps: seq<TrustedPeer>, qs: seq<TrustedPeer>)
    requires EndpointsDistinct(ps) && EndpointIds(qs) == EndpointIds(ps)
    ensures EndpointsDistinct(qs)
  {
    forall i, j | 0 <= i < j < |qs| ensures qs[i].endpointId != qs[j].endpointId {
      assert EndpointIds(qs)[i] == ps[i].endpointId && EndpointIds(qs)[j] == ps[j].endpointId;
    }
  }

  lemma {:induction false} DistinctEndpointsRenameCleanly(w: World, a: Act)
    requires EndpointsDistinct(w.app.peers)
    ensures CleanRename(w, a)
  {
    hide SameIgnoringCase, RenameResult;
    if a.Rename? && PeerOf(w.app.peers, a.identifier).Ok? {
      PeerOfIsTrusted(w.app.peers, a.identifier);
      hide PeerOf;
    }
  }

  lemma {:induction false} EndpointsStayDistinct(w0: World, acts: seq<Act>, i: nat)
    requires EndpointsDistinct(w0.app.peers) && i <= |acts|
    requires forall j: nat :: j < |acts| ==> CleanGrant(Run(w0, acts[..j]), acts[j])
    ensures EndpointsDistinct(Run(w0, acts[..i]).app.peers)
  {
    hide Next, EndpointsDistinct, CleanGrant;
    if i == 0 {
      assert acts[..0] == [];
    } else {
      EndpointsStayDistinct(w0, acts, i - 1);
      StepOfRun(w0, acts, i - 1);
      NextKeepsEndpointsDistinct(Run(w0, acts[..i - 1]), acts[i - 1]);
    }
  }

  /** In a run that never pairs anew with an endpoint it still trusts, aliases stay pairwise distinct
      whatever is renamed, so every trusted peer is found by its alias in any casing. */
  lemma {:induction false} AliasesStayUsable(w0: World, acts: seq<Act>)
    requires AliasesDistinct(w0.app.peers) && EndpointsDistinct(w0.app.peers)
    requires forall i: nat :: i < |acts| ==> CleanGrant(Run(w0, acts[..i]), acts[i])
    ensures var peers := Run(w0, acts).app.peers;
            && AliasesDistinct(peers) && EndpointsDistinct(peers)
            && forall p, identifier :: p in peers && SameIgnoringCase(identifier, p.alias) ==> PeerOf(peers, identifier) == Ok(p)
  {
    hide Run, AliasesDistinct, EndpointsDistinct, CleanRename, FreshFallback, PeerOf, SameIgnoringCase;
    forall j: nat | j < |acts| ensures CleanRename(Run(w0, acts[..j]), acts[j]) {
      EndpointsStayDistinct(w0, acts, j);
      DistinctEndpointsRenameCleanly(Run(w0, acts[..j]), acts[j]);
    }
    AliasesDistinctIff(w0, acts);
    EndpointsStayDistinct(w0, acts, |acts|);
    assert acts[..|acts|] == acts;
    assert DistinctAt(w0, acts, |acts|);
    DistinctMeansUsable(Run(w0, acts).app.peers);
  }
}
