/** Invites over whole runs of a daemon: how many sessions a secret lets in, and when it stops. */
module InviteRuns {
  import opened Basics
  import opened Peers
  import opened AppState
  import opened Daemon
  import PairingSession
  import ConversationRuns
  import Network
  import Transport
  import VerificationString

  /** The sessions this daemon let in, as inviter, on a secret. */
  ghost function AdmittedOn(w: World, secret: Bytes32): set<Uuid> {
    set id | id in w.sessions && InvitedOn(w.sessions[id], secret) && WasAdmitted(w.sessions[id])
  }

  /** Those of them whose pending entry has been inserted. */
  ghost function EnteredOn(w: World, secret: Bytes32): set<Uuid> {
    set id | id in w.sessions && InvitedOn(w.sessions[id], secret) && w.sessions[id].session.inviter.shown.Some?
  }

  predicate InvitedOn(l: Link, secret: Bytes32) {
    l.ours.Inviter? && l.terms.secret == secret
  }

  predicate WasAdmitted(l: Link) {
    l.session.inviter.phase.Counted? || l.session.inviter.shown.Some?
  }

  /** One of them has been paired, rejected or failed. */
  ghost predicate FinishedOn(w: World, secret: Bytes32) {
    exists id :: id in AdmittedOn(w, secret) && w.sessions[id].session.inviter.phase.Finished?
  }

  function Created(acts: seq<Act>, secret: Bytes32): nat {
    if acts == [] then 0
    else
      var a := acts[|acts| - 1];
      Created(acts[..|acts| - 1], secret) + (if a.CreateInvite? && a.secret == secret then 1 else 0)
  }

  ghost predicate InviteInv(w: World, secret: Bytes32, created: nat) {
    var on, sessions := On(w.app.invites, secret), AdmittedOn(w, secret);
    && |on| <= created
    && |sessions| <= MAX_PAIRING_ATTEMPTS_PER_INVITE
    && (created == 0 ==> sessions == {})
    && (on != [] ==> on[0].attempts == |sessions| && !FinishedOn(w, secret))
  }

  /** What one step can do to the inviter side of a session. */
  lemma {:induction false} InviterChanges(l: Link, a: PairingSession.Act)
    requires PairingSession.Inv(l.terms, l.session) && l.ours.Inviter?
    ensures var side, side' := l.session.inviter, PairingSession.Next(l.terms, l.session, a).inviter;
            var l' := l.(session := PairingSession.Next(l.terms, l.session, a));
            && (Requested(l).Some? ==> Requested(l).value == l.terms.secret && !WasAdmitted(l))
            && (WasAdmitted(l') <==> WasAdmitted(l) || (a.Admit? && a.admitted && Requested(l).Some?))
            && (side.shown.Some? ==> side'.shown.Some?)
            && (!WasAdmitted(l) && WasAdmitted(l') ==> !side'.phase.Finished?)
            && (side'.phase.Finished? ==>
                  side.phase.Finished? || (a.Finish? && a.role.Inviter? && side.phase.Settled?))
  {
    hide VerificationString.Derive;
  }

  /** A request was let in by this step. */
  predicate Admits(w: World, a: Act) {
    && a.Pair? && a.id in w.sessions && a.step.Admit? && Requested(w.sessions[a.id]).Some?
    && RefusalOf(w.app.invites, Requested(w.sessions[a.id]).value, a.now).None?
  }

  lemma {:induction false} AdmittedOnAfter(w: World, a: Act, secret: Bytes32)
    requires LinksInv(w.sessions)
    ensures AdmittedOn(Next(w, a), secret) ==
              if Admits(w, a) && w.sessions[a.id].terms.secret == secret then AdmittedOn(w, secret) + {a.id}
              else AdmittedOn(w, secret)
    ensures Admits(w, a) ==> a.id !in AdmittedOn(w, secret) && Requested(w.sessions[a.id]) == Some(w.sessions[a.id].terms.secret)
    ensures FinishedOn(Next(w, a), secret) ==>
              FinishedOn(w, secret) || (Finishes(w, a) && w.sessions[a.id].ours.Inviter? && w.sessions[a.id].terms.secret == secret)
  {
    hide PairingSession.Next, PairingSession.Inv, Effect, Requested, RefusalOf;
    if a.Pair? && a.id in w.sessions {
      var l := w.sessions[a.id];
      if l.ours.Inviter? {
        InviterChanges(l, Actual(w, l, a.step, a.now));
      }
    } else if !a.Pair? && !a.OpenSession? {
      OtherActsKeepSessions(w, a);
    }
  }

  /** What one step does to the invites that carry `secret`. */
  lemma {:induction false} InvitesAfter(w: World, a: Act, secret: Bytes32)
    ensures var on, on' := On(w.app.invites, secret), On(Next(w, a).app.invites, secret);
            if Admits(w, a) && Requested(w.sessions[a.id]) == Some(secret) then
              && on != [] && on[0].attempts < MAX_PAIRING_ATTEMPTS_PER_INVITE
              && on' == [on[0].(attempts := on[0].attempts + 1)] + on[1..]
            else if a.CreateInvite? && a.secret == secret then on' == on + [Invite(secret, a.expiresAt, a.ticketText, 0)]
            else if a.CancelInvites? || (Finishes(w, a) && w.sessions[a.id].ours.Inviter? && w.sessions[a.id].terms.secret == secret)
            then on' == []
            else on' == on
  {
    if a.CreateInvite? {
      hide On;
      OnAppend(w.app.invites, Invite(a.secret, a.expiresAt, a.ticketText, 0), secret);
    } else if a.CancelInvites? {
      OnMemberless(secret);
    } else if a.Pair? {
      hide Next;
      PairInvites(w, a, secret);
    } else {
      hide Next, On;
      OtherActsKeepInvites(w, a);
    }
  }

  lemma {:induction false} OtherActsKeepInvites(w: World, a: Act)
    requires !a.Pair? && !a.CreateInvite? && !a.CancelInvites?
    ensures Next(w, a).app.invites == w.app.invites
  {
    hide Advance, AfterRename, Without, Resolve, ConversationRuns.Step, Transport.Judge, Transport.Recipient, Transport.AfterInbound, Trusts;
  }

  lemma {:induction false} PairInvites(w: World, a: Act, secret: Bytes32)
    requires a.Pair?
    ensures var on, on' := On(w.app.invites, secret), On(Next(w, a).app.invites, secret);
            if Admits(w, a) && Requested(w.sessions[a.id]) == Some(secret) then
              && on != [] && on[0].attempts < MAX_PAIRING_ATTEMPTS_PER_INVITE
              && on' == [on[0].(attempts := on[0].attempts + 1)] + on[1..]
            else if Finishes(w, a) && w.sessions[a.id].ours.Inviter? && w.sessions[a.id].terms.secret == secret then on' == []
            else on' == on
  {
    hide PairingSession.Next, Requested, AfterAdd, On;
    if Admits(w, a) {
      var asked := Requested(w.sessions[a.id]).value;
      var i := FindInvite(w.app.invites, asked);
      OnFinds(w.app.invites, asked);
      OnUpdate(w.app.invites, i, w.app.invites[i].(attempts := w.app.invites[i].attempts + 1), secret);
    } else if Finishes(w, a) && w.sessions[a.id].ours.Inviter? {
      OnUnspent(w.app.invites, w.sessions[a.id].terms.secret, secret);
    }
  }

  lemma {:induction false} OnMemberless(secret: Bytes32)
    ensures On([], secret) == []
  {}

  lemma {:induction false} NextKeepsInviteInv(w: World, a: Act, secret: Bytes32, created: nat)
    requires SessionInv(w) && InviteInv(w, secret, created)
    requires a.CreateInvite? && a.secret == secret ==> created == 0
    requires created <= 1
    ensures InviteInv(Next(w, a), secret, created + if a.CreateInvite? && a.secret == secret then 1 else 0)
  {
    hide Next, On, Requested, AdmittedOn, LinksInv, Mirrors, RefusalOf, Mine;
    AdmittedOnAfter(w, a, secret);
    InvitesAfter(w, a, secret);
    assert SessionInv(w) ==> LinksInv(w.sessions);
  }

  lemma {:induction false} RunKeepsInviteInv(myId: string, trusted: seq<TrustedPeer>, limit: nat, acts: seq<Act>, secret: Bytes32)
    requires Created(acts, secret) <= 1
    ensures InviteInv(Run(Start(myId, trusted, limit), acts), secret, Created(acts, secret))
  {
    hide Next, ConversationRuns.Start, SessionInv;
    if acts == [] {
      OnMemberless(secret);
    } else {
      var before := acts[..|acts| - 1];
      RunKeepsInviteInv(myId, trusted, limit, before, secret);
      RunKeepsSessionInv(myId, trusted, limit, before);
      hide InviteInv;
      NextKeepsInviteInv(Run(Start(myId, trusted, limit), before), acts[|acts| - 1], secret, Created(before, secret));
    }
  }

  lemma {:induction false} EnteredWereAdmitted(w: World, secret: Bytes32)
    ensures EnteredOn(w, secret) <= AdmittedOn(w, secret)
  {}

  /** With distinct secrets, the sessions let in on an invite are exactly its attempts counter while it
      is active, at every moment, and never more than twenty; without an invite there are none. */
  lemma {:induction false} AttemptsCountSessions(myId: string, trusted: seq<TrustedPeer>, limit: nat, acts: seq<Act>, secret: Bytes32)
    requires Created(acts, secret) <= 1
    ensures var w := Run(Start(myId, trusted, limit), acts);
            && |AdmittedOn(w, secret)| <= MAX_PAIRING_ATTEMPTS_PER_INVITE
            && (AdmittedOn(w, secret) != {} ==> Created(acts, secret) == 1)
            && EnteredOn(w, secret) <= AdmittedOn(w, secret)
            && (forall inv :: inv in w.app.invites && inv.secret == secret ==> inv.attempts == |AdmittedOn(w, secret)|)
  {
    var w := Run(Start(myId, trusted, limit), acts);
    assert EnteredOn(w, secret) <= AdmittedOn(w, secret) by { EnteredWereAdmitted(w, secret); }
    hide Run, On, AdmittedOn, ConversationRuns.Start;
    RunKeepsInviteInv(myId, trusted, limit, acts, secret);
    forall inv | inv in w.app.invites && inv.secret == secret ensures inv.attempts == |AdmittedOn(w, secret)| {
      OnMember(w.app.invites, secret, inv);
    }
  }

  /** A request is let in exactly when an active invite carries its secret, has not expired, and
      fewer than twenty sessions were let in on it; the refusals are told apart by the count. */
  lemma {:induction false} AdmittedIff(myId: string, trusted: seq<TrustedPeer>, limit: nat, acts: seq<Act>, secret: Bytes32, now: int)
    requires Created(acts, secret) <= 1
    ensures var w := Run(Start(myId, trusted, limit), acts);
            RefusalOf(w.app.invites, secret, now).None? <==>
              && |AdmittedOn(w, secret)| < MAX_PAIRING_ATTEMPTS_PER_INVITE
              && exists inv :: inv in w.app.invites && inv.secret == secret && now < inv.expiresAt
    ensures var w := Run(Start(myId, trusted, limit), acts);
            RefusalOf(w.app.invites, secret, now) == Some("too_many_attempts") <==>
              && |AdmittedOn(w, secret)| == MAX_PAIRING_ATTEMPTS_PER_INVITE
              && exists inv :: inv in w.app.invites && inv.secret == secret && now < inv.expiresAt
  {
    hide Run, On, AdmittedOn, ConversationRuns.Start;
    RunKeepsInviteInv(myId, trusted, limit, acts, secret);
    var w := Run(Start(myId, trusted, limit), acts);
    OnFinds(w.app.invites, secret);
    forall inv | inv in w.app.invites && inv.secret == secret
      ensures inv == w.app.invites[FindInvite(w.app.invites, secret)]
    {
      OnMember(w.app.invites, secret, inv);
    }
  }

  lemma {:induction false} SpentStaysSpent(myId: string, trusted: seq<TrustedPeer>, limit: nat, acts: seq<Act>, more: seq<Act>, secret: Bytes32)
    requires On(Run(Start(myId, trusted, limit), acts).app.invites, secret) == []
    requires Created(acts + more, secret) == Created(acts, secret)
    ensures var w, w' := Run(Start(myId, trusted, limit), acts), Run(Start(myId, trusted, limit), acts + more);
            On(w'.app.invites, secret) == [] && AdmittedOn(w', secret) == AdmittedOn(w, secret)
  {
    hide Next, On, AdmittedOn, SessionInv, ConversationRuns.Start, Requested;
    if more == [] {
      assert acts + more == acts;
    } else {
      var before, last := more[..|more| - 1], more[|more| - 1];
      assert (acts + more)[..|acts + more| - 1] == acts + before;
      CreatedGrows(acts, before, secret);
      SpentStaysSpent(myId, trusted, limit, acts, before, secret);
      var w := Run(Start(myId, trusted, limit), acts + before);
      RunKeepsSessionInv(myId, trusted, limit, acts + before);
      assert LinksInv(w.sessions) by { LinksOf(w); }
      AdmittedOnAfter(w, last, secret);
      InvitesAfter(w, last, secret);
    }
  }

  lemma {:induction false} LinksOf(w: World)
    requires SessionInv(w)
    ensures LinksInv(w.sessions)
  {}

  lemma {:induction false} CreatedGrows(acts: seq<Act>, more: seq<Act>, secret: Bytes32)
    ensures Created(acts, secret) <= Created(acts + more, secret)
  {
    if more == [] {
      assert acts + more == acts;
    } else {
      assert (acts + more)[..|acts + more| - 1] == acts + more[..|more| - 1];
      CreatedGrows(acts, more[..|more| - 1], secret);
    }
  }

  /** Once a session of an invite is paired, rejected or failed, or the invites are cancelled, no
      later request with that secret is ever let in. A session that was let in before may still have
      its pending entry inserted, or still have it; no other session ever has one. */
  lemma {:induction false} SpentForGood(myId: string, trusted: seq<TrustedPeer>, limit: nat, acts: seq<Act>, more: seq<Act>, secret: Bytes32, now: int)
    requires Created(acts + more, secret) <= 1
    requires FinishedOn(Run(Start(myId, trusted, limit), acts), secret)
             || (Created(acts, secret) == 1 && acts[|acts| - 1].CancelInvites?)
    ensures var w, w' := Run(Start(myId, trusted, limit), acts), Run(Start(myId, trusted, limit), acts + more);
            && RefusalOf(w'.app.invites, secret, now) == Some("invalid_or_expired_invite")
            && AdmittedOn(w', secret) == AdmittedOn(w, secret)
            && EnteredOn(w', secret) <= AdmittedOn(w, secret)
  {
    var w := Run(Start(myId, trusted, limit), acts);
    EnteredWereAdmitted(Run(Start(myId, trusted, limit), acts + more), secret);
    hide AdmittedOn, EnteredOn, ConversationRuns.Start, Next;
    CreatedGrows(acts, more, secret);
    RunKeepsInviteInv(myId, trusted, limit, acts, secret);
    if !FinishedOn(w, secret) {
      InvitesAfter(Run(Start(myId, trusted, limit), acts[..|acts| - 1]), acts[|acts| - 1], secret);
    }
    assert On(w.app.invites, secret) == [];
    hide Run;
    SpentStaysSpent(myId, trusted, limit, acts, more, secret);
    OnFinds(Run(Start(myId, trusted, limit), acts + more).app.invites, secret);
  }

  /** The pending entries of our inviter sessions are those of sessions that were entered. */
  lemma {:induction false} PendingWereEntered(myId: string, trusted: seq<TrustedPeer>, limit: nat, acts: seq<Act>, id: Uuid)
    requires id in Run(Start(myId, trusted, limit), acts).app.pending
    ensures var w := Run(Start(myId, trusted, limit), acts);
            id in w.sessions && (w.sessions[id].ours.Inviter? ==> id in EnteredOn(w, w.sessions[id].terms.secret))
  {
    hide Run;
    PendingMirrorsSessions(myId, trusted, limit, acts, id);
  }

  /** A request on this session has been counted and its entry not been inserted. */
  predicate IsCounted(w: World, id: Uuid) {
    id in w.sessions && w.sessions[id].ours.Inviter? && w.sessions[id].session.inviter.phase.Counted?
  }

  lemma {:induction false} CountedEnters(w: World, id: Uuid, nonce: Bytes32, now: int, stamp: string, uuid: string)
    requires SessionInv(w) && IsCounted(w, id)
    ensures var w' := Next(w, Pair(id, PairingSession.Enter(nonce), now, stamp, uuid));
            && id !in w.app.pending && w'.app.invites == w.app.invites
            && Answerable(w'.app, id) && id in EnteredOn(w', w.sessions[id].terms.secret)
  {
    hide VerificationString.Derive, PairingSession.Agreed, PairingSession.WroteInv, PairingSession.ReadInv, PairingSession.DecisionInv;
    assert Mirrors(w, id);
  }

  lemma {:induction false} CountedStays(w: World, a: Act, id: Uuid)
    requires IsCounted(w, id) && !(a.Pair? && a.id == id)
    ensures IsCounted(Next(w, a), id) && Next(w, a).sessions[id] == w.sessions[id]
  {
    hide Effect, Advanced;
    if !a.Pair? && !a.OpenSession? {
      hide Next;
      OtherActsKeepSessions(w, a);
    }
  }

  /** Between the two locked sections anything may happen: whatever step comes in between, the pending
      entry of a counted request still appears afterwards. */
  lemma {:induction false} CountedEntersAnyway(w: World, a: Act, id: Uuid, nonce: Bytes32, now: int, stamp: string, uuid: string)
    requires SessionInv(w) && IsCounted(w, id) && !(a.Pair? && a.id == id)
    ensures var w1 := Next(w, a);
            var w2 := Next(w1, Pair(id, PairingSession.Enter(nonce), now, stamp, uuid));
            && id !in w1.app.pending && w2.app.invites == w1.app.invites
            && Answerable(w2.app, id) && id in EnteredOn(w2, w.sessions[id].terms.secret)
  {
    hide Next, SessionInv, EnteredOn, IsCounted, Answerable;
    NextKeepsSessionInv(w, a);
    CountedStays(w, a, id);
    CountedEnters(Next(w, a), id, nonce, now, stamp, uuid);
  }

  /** In particular after a cancel. */
  lemma {:induction false} CountedEntersAfterCancel(w: World, id: Uuid, nonce: Bytes32, now: int, stamp: string, uuid: string)
    requires SessionInv(w) && IsCounted(w, id)
    ensures var w1 := Next(w, CancelInvites);
            var w2 := Next(w1, Pair(id, PairingSession.Enter(nonce), now, stamp, uuid));
            && id !in w.app.pending && w1.app.invites == [] && w2.app.invites == []
            && Answerable(w2.app, id) && id in EnteredOn(w2, w.sessions[id].terms.secret)
  {
    assert Next(w, CancelInvites) == w.(app := w.app.(invites := []));
    hide Next, SessionInv, EnteredOn, IsCounted, Answerable;
    CountedEntersAnyway(w, CancelInvites, id, nonce, now, stamp, uuid);
  }

  /** And after another session on the same invite has finished and spent it. */
  lemma {:induction false} CountedEntersAfterFinish(w: World, id: Uuid, other: Uuid, nonce: Bytes32, now: int, stamp: string, uuid: string)
    requires SessionInv(w) && IsCounted(w, id) && other in w.sessions
    requires w.sessions[other].ours.Inviter? && w.sessions[other].session.inviter.phase.Settled?
    requires w.sessions[other].terms.secret == w.sessions[id].terms.secret
    ensures var secret := w.sessions[id].terms.secret;
            var w1 := Next(w, Pair(other, PairingSession.Finish(PairingSession.Inviter), now, stamp, uuid));
            var w2 := Next(w1, Pair(id, PairingSession.Enter(nonce), now, stamp, uuid));
            && On(w1.app.invites, secret) == [] && On(w2.app.invites, secret) == []
            && Answerable(w2.app, id) && id in EnteredOn(w2, secret)
  {
    hide Next, SessionInv, EnteredOn, Answerable, On, Requested, RefusalOf;
    var a := Pair(other, PairingSession.Finish(PairingSession.Inviter), now, stamp, uuid);
    InvitesAfter(w, a, w.sessions[id].terms.secret);
    CountedEntersAnyway(w, a, id, nonce, now, stamp, uuid);
  }

  ghost predicate Reachable(w0: World, w: World) {
    exists acts :: Run(w0, acts) == w
  }

  lemma {:induction false} ReachNext(w0: World, w: World, a: Act) returns (w': World)
    requires Reachable(w0, w)
    ensures w' == Next(w, a) && Reachable(w0, w')
  {
    hide Next;
    var acts :| Run(w0, acts) == w;
    assert (acts + [a])[..|acts|] == acts;
    w' := Next(w, a);
    assert Run(w0, acts + [a]) == w';
  }

  lemma {:induction false} CountedIsPossible(myId: string, trusted: seq<TrustedPeer>, limit: nat, id: Uuid, t: PairingSession.Terms, n: Bytes32)
    ensures exists w :: Reachable(Start(myId, trusted, limit), w) && IsCounted(w, id)
  {
    var w0 := Start(myId, trusted, limit);
    assert Run(w0, []) == w0;
    hide VerificationString.Derive, Reachable, ConversationRuns.Start;
    var w := ReachNext(w0, w0, CreateInvite(t.secret, 1, ""));
    w := ReachNext(w0, w, OpenSession(id, PairingSession.Inviter, t));
    w := ReachNext(w0, w, Pair(id, PairingSession.SendRequest(n, true, true), 0, "", ""));
    assert Requested(w.sessions[id]) == Some(t.secret);
    assert w.app.invites == [Invite(t.secret, 1, "", 0)] && FindInvite(w.app.invites, t.secret) == 0;
    w := ReachNext(w0, w, Pair(id, PairingSession.Admit(true, "", true), 0, "", ""));
  }

  /** A request that is turned away is told why, in the words of the invites. */
  lemma {:induction false} RefusedIsTold(w: World, a: Act, reason: string)
    requires a.Pair? && a.id in w.sessions && a.step.Admit? && a.step.delivered
    requires Requested(w.sessions[a.id]).Some? && RefusalOf(w.app.invites, Requested(w.sessions[a.id]).value, a.now) == Some(reason)
    ensures var s, s' := w.sessions[a.id].session, Next(w, a).sessions[a.id].session;
            && s'.inviter.phase.Left? && Next(w, a).app == w.app
            && s'.toJoiner.sent == s.toJoiner.sent + [PairingSession.Refusal(reason)]
  {
    hide VerificationString.Derive, RefusalOf, PairingSession.Refusal;
  }
}
