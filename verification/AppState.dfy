/** The state the daemon keeps behind one lock, and what each locked section of pairing, invite and
    peer handling does to it. */
module AppState {
  import opened Basics
  import Connection
  import Conversation
  import opened Peers
  import opened PairingSession

  const MAX_PAIRING_ATTEMPTS_PER_INVITE: nat := 20

  datatype Invite = Invite(secret: Bytes32, expiresAt: int, ticketText: string, attempts: nat)

  datatype State = State(invites: seq<Invite>, pending: map<Uuid, Entry>, peers: seq<TrustedPeer>)

  datatype PeerError =
    | PeerNotFound
    | PeerAmbiguous(candidates: seq<TrustedPeer>)
    | BadAlias(error: AliasError)
    | SaveFailed                             // reported after the change was made in memory

  // ------------------------------------------------------------------ specification functions

  function FindInvite(invites: seq<Invite>, secret: Bytes32): (i: nat)
    ensures i <= |invites|
    ensures i < |invites| ==> invites[i].secret == secret
    ensures forall j :: 0 <= j < i ==> invites[j].secret != secret
  {
    if invites == [] || invites[0].secret == secret then 0 else 1 + FindInvite(invites[1..], secret)
  }

  /** Why a request with this secret is turned away, None when it is let in. */
  function RefusalOf(invites: seq<Invite>, secret: Bytes32, now: int): Option<string> {
    var i := FindInvite(invites, secret);
    if i == |invites| || now >= invites[i].expiresAt then Some("invalid_or_expired_invite")
    else if invites[i].attempts >= MAX_PAIRING_ATTEMPTS_PER_INVITE then Some("too_many_attempts")
    else None
  }

  function AfterRequest(s: State, secret: Bytes32, now: int): State {
    if RefusalOf(s.invites, secret, now).Some? then s
    else
      var i := FindInvite(s.invites, secret);
      s.(invites := s.invites[i := s.invites[i].(attempts := s.invites[i].attempts + 1)])
  }

  /** The invites left once those with this secret are gone. */
  function Unspent(invites: seq<Invite>, secret: Bytes32): (r: seq<Invite>)
    ensures |r| <= |invites|
  {
    if invites == [] then []
    else if invites[0].secret == secret then Unspent(invites[1..], secret)
    else [invites[0]] + Unspent(invites[1..], secret)
  }

  function AfterOpening(s: State, id: Uuid, entry: Entry): State {
    s.(pending := s.pending[id := entry])
  }

  predicate Answerable(s: State, id: Uuid) {
    id in s.pending && s.pending[id].answerable
  }

  function AfterAnswer(s: State, id: Uuid): State {
    if Answerable(s, id) then s.(pending := s.pending[id := s.pending[id].(answerable := false)]) else s
  }

  function AfterFinish(s: State, id: Uuid, peer: TrustedPeer, secret: Option<Bytes32>,
                       outcome: Result<bool, ()>, uuid: string): State {
    State(
      if secret.Some? then Unspent(s.invites, secret.value) else s.invites,
      s.pending - {id},
      if outcome == Ok(true) then
        AfterAdd(s.peers, peer.endpointId, peer.displayName, peer.deviceName, peer.pairedAt, uuid)
      else s.peers)
  }

  function PeerOf(peers: seq<TrustedPeer>, identifier: string): Result<TrustedPeer, PeerError> {
    match Resolve(peers, identifier)
    case Found(p) => Ok(p)
    case NotFound => Err(PeerNotFound)
    case Ambiguous(matches) => Err(PeerAmbiguous(matches))
  }

  function AfterRenamePeer(s: State, identifier: string, alias: string): State {
    var peer := PeerOf(s.peers, identifier);
    if peer.Err? then s else s.(peers := AfterRename(s.peers, peer.value.endpointId, alias))
  }

  function AfterUnpair(s: State, identifier: string): State {
    var peer := PeerOf(s.peers, identifier);
    if peer.Err? then s else s.(peers := Without(s.peers, peer.value.endpointId))
  }

  function AfterUnpairRegistry(r: Connection.Registry, peers: seq<TrustedPeer>, identifier: string): Connection.Registry {
    var peer := PeerOf(peers, identifier);
    if peer.Err? then r else r - {peer.value.endpointId}
  }

  /** The connection that unpairing closes. */
  function UnpairCloses(r: Connection.Registry, peers: seq<TrustedPeer>, identifier: string): Option<Connection.Conn> {
    var peer := PeerOf(peers, identifier);
    if peer.Err? then None else Connection.EntryOf(r, peer.value.endpointId).connection
  }

  class SharedState {
    var invites: seq<Invite>
    var pending: map<Uuid, Entry>
    const book: PeerBook
    const conversations: Conversation.ConversationStore
    const registry: Connection.ConnectionRegistry

    constructor (trusted: seq<TrustedPeer>, historyLimit: nat)
      ensures fresh(book) && fresh(conversations) && fresh(conversations.dedup) && fresh(registry)
      ensures registry.peers == map[]
      ensures Value() == State([], map[], trusted)
      ensures conversations.State() == Conversation.Fresh(Conversation.DEDUP_CACHE_CAPACITY, historyLimit)
    {
      invites, pending := [], map[];
      book := new PeerBook(trusted);
      conversations := new Conversation.ConversationStore(historyLimit);
      registry := new Connection.ConnectionRegistry();
    }

    ghost function Value(): State
      reads this, book
    {
      State(invites, pending, book.peers)
    }

    /** Finds, validates and counts in one locked step. */
    method AdmitRequest(secret: Bytes32, now: int) returns (refusal: Option<string>)
      modifies this`invites
      ensures refusal == RefusalOf(old(invites), secret, now)
      ensures Value() == AfterRequest(old(Value()), secret, now)
    {
      var i := FindInvite(invites, secret);
      if i == |invites| {
        return Some("invalid_or_expired_invite");
      }
      if now >= invites[i].expiresAt {
        return Some("invalid_or_expired_invite");
      }
      if invites[i].attempts >= MAX_PAIRING_ATTEMPTS_PER_INVITE {
        return Some("too_many_attempts");
      }
      invites := invites[i := invites[i].(attempts := invites[i].attempts + 1)];
      return None;
    }

    method OpenPairing(id: Uuid, peerEndpointId: string, verification: string)
      modifies this`pending
      ensures Value() == AfterOpening(old(Value()), id, Entry(peerEndpointId, verification, true))
    {
      pending := pending[id := Entry(peerEndpointId, verification, true)];
    }

    /** Takes the one-shot sender; `false` is the "no such pending pairing" error. */
    method ResolveDecision(id: Uuid) returns (taken: bool)
      modifies this`pending
      ensures taken <==> Answerable(old(Value()), id)
      ensures Value() == AfterAnswer(old(Value()), id)
    {
      taken := id in pending && pending[id].answerable;
      if taken {
        pending := pending[id := pending[id].(answerable := false)];
      }
    }

    method FinishPairing(id: Uuid, peer: TrustedPeer, secret: Option<Bytes32>, outcome: Result<bool, ()>, uuid: string)
      returns (status: Status)
      modifies this, book
      ensures Value() == AfterFinish(old(Value()), id, peer, secret, outcome, uuid)
      ensures status == StatusFor(outcome)
    {
      pending := pending - {id};
      if secret.Some? {
        invites := Unspent(invites, secret.value);
      }
      match outcome {
        case Ok(confirmed) =>
          if confirmed {
            var _ := book.Add(peer.endpointId, peer.displayName, peer.deviceName, peer.pairedAt, uuid);
            return Paired;
          }
          return Rejected;
        case Err(_) =>
          return Failed;
      }
    }

    method CreateInvite(secret: Bytes32, expiresAt: int, ticketText: string)
      modifies this`invites
      ensures Value() == old(Value()).(invites := old(invites) + [Invite(secret, expiresAt, ticketText, 0)])
    {
      invites := invites + [Invite(secret, expiresAt, ticketText, 0)];
    }

    method CancelInvites()
      modifies this`invites
      ensures Value() == old(Value()).(invites := [])
    {
      invites := [];
    }

    /** `saved` is whether the configuration could be written; the alias has changed either way. */
    method RenamePeer(identifier: string, alias: string, saved: bool) returns (r: Result<string, PeerError>)
      modifies book
      ensures Value() == AfterRenamePeer(old(Value()), identifier, alias)
      ensures var peer := PeerOf(old(book.peers), identifier);
              if peer.Err? then r == Err(peer.error)
              else
                var renamed := RenameResult(old(book.peers), peer.value.endpointId, alias);
                r == if renamed.Err? then Err(BadAlias(renamed.error)) else if saved then Ok(renamed.value) else Err(SaveFailed)
    {
      var peer := PeerOf(book.peers, identifier);
      if peer.Err? {
        return Err(peer.error);
      }
      var renamed := book.Rename(peer.value.endpointId, alias);
      if renamed.Err? {
        return Err(BadAlias(renamed.error));
      }
      r := if saved then Ok(renamed.value) else Err(SaveFailed);
    }

    /** Closes and forgets the connection, then removes every record; both have happened even when the
        configuration cannot be written. */
    method UnpairPeer(identifier: string, saved: bool)
      returns (r: Result<string, PeerError>, closing: Option<Connection.Conn>)
      modifies book, registry
      ensures Value() == AfterUnpair(old(Value()), identifier)
      ensures registry.peers == AfterUnpairRegistry(old(registry.peers), old(book.peers), identifier)
      ensures closing == UnpairCloses(old(registry.peers), old(book.peers), identifier)
      ensures var peer := PeerOf(old(book.peers), identifier);
              r == if peer.Err? then Err(peer.error) else if saved then Ok(peer.value.endpointId) else Err(SaveFailed)
    {
      var peer := PeerOf(book.peers, identifier);
      if peer.Err? {
        return Err(peer.error), None;
      }
      closing := registry.CloseAndForget(peer.value.endpointId);
      var _ := book.Remove(peer.value.endpointId);
      r := if saved then Ok(peer.value.endpointId) else Err(SaveFailed);
    }

    /** Everything in the configuration goes back to its default except the trusted peers, whether or
        not it can be written. */
    method ResetConfig(saved: bool) returns (ok: bool)
      modifies conversations
      ensures Value() == old(Value()) && ok == saved
      ensures conversations.State() ==
                Conversation.Apply(old(conversations.State()), Conversation.SetLimit(Conversation.DEFAULT_HISTORY_LIMIT))
    {
      conversations.SetHistoryLimit(Conversation.DEFAULT_HISTORY_LIMIT);
      ok := saved;
    }
  }

  // -------------------------------------------------------------------- the invites of one secret

  /** The active invites that carry this secret. */
  function On(invites: seq<Invite>, secret: Bytes32): seq<Invite> {
    if invites == [] then []
    else (if invites[0].secret == secret then [invites[0]] else []) + On(invites[1..], secret)
  }

  lemma {:induction false} OnFinds(invites: seq<Invite>, secret: Bytes32)
    ensures FindInvite(invites, secret) < |invites| <==> On(invites, secret) != []
    ensures On(invites, secret) != [] ==> On(invites, secret)[0] == invites[FindInvite(invites, secret)]
  {
    if invites != [] { OnFinds(invites[1..], secret); }
  }

  lemma {:induction false} OnMember(invites: seq<Invite>, secret: Bytes32, inv: Invite)
    ensures inv in On(invites, secret) <==> inv in invites && inv.secret == secret
  {
    if invites != [] { OnMember(invites[1..], secret, inv); }
  }

  lemma {:induction false} OnAppend(invites: seq<Invite>, inv: Invite, secret: Bytes32)
    ensures On(invites + [inv], secret) == On(invites, secret) + (if inv.secret == secret then [inv] else [])
  {
    if invites == [] {
      assert invites + [inv] == [inv];
    } else {
      var all := invites + [inv];
      assert all[0] == invites[0] && all[1..] == invites[1..] + [inv];
      OnAppend(invites[1..], inv, secret);
      var first := if invites[0].secret == secret then [invites[0]] else [];
      var rest, last := On(invites[1..], secret), if inv.secret == secret then [inv] else [];
      assert On(all, secret) == first + (rest + last);
      assert first + (rest + last) == (first + rest) + last;
    }
  }

  lemma {:induction false} OnUnspent(invites: seq<Invite>, spent: Bytes32, secret: Bytes32)
    ensures On(Unspent(invites, spent), secret) == if spent == secret then [] else On(invites, secret)
  {
    if invites != [] {
      OnUnspent(invites[1..], spent, secret);
      if invites[0].secret != spent {
        var rest := Unspent(invites[1..], spent);
        assert ([invites[0]] + rest)[1..] == rest;
      }
    }
  }

  lemma {:induction false} OnUpdateOther(invites: seq<Invite>, i: nat, inv: Invite, secret: Bytes32)
    requires i < |invites| && inv.secret == invites[i].secret && inv.secret != secret
    ensures On(invites[i := inv], secret) == On(invites, secret)
  {
    var after := invites[i := inv];
    if i > 0 {
      assert after[0] == invites[0] && after[1..] == invites[1..][i - 1 := inv];
      OnUpdateOther(invites[1..], i - 1, inv, secret);
    } else {
      assert after[0] == inv && after[1..] == invites[1..];
    }
  }

  lemma {:induction false} OnUpdateFirst(invites: seq<Invite>, inv: Invite)
    requires FindInvite(invites, inv.secret) < |invites|
    ensures |On(invites, inv.secret)| > 0
    ensures On(invites[FindInvite(invites, inv.secret) := inv], inv.secret) == [inv] + On(invites, inv.secret)[1..]
  {
    var i, secret := FindInvite(invites, inv.secret), inv.secret;
    var after, rest := invites[i := inv], On(invites[1..], secret);
    if i > 0 {
      assert after[0] == invites[0] && after[1..] == invites[1..][i - 1 := inv];
      OnUpdateFirst(invites[1..], inv);
      assert On(invites, secret) == rest && On(after, secret) == On(after[1..], secret);
    } else {
      assert after[0] == inv && after[1..] == invites[1..];
      assert On(invites, secret) == [invites[0]] + rest && On(after, secret) == [inv] + rest;
    }
  }

  lemma {:induction false} OnUpdate(invites: seq<Invite>, i: nat, inv: Invite, secret: Bytes32)
    requires i < |invites| && inv.secret == invites[i].secret
    requires inv.secret == secret ==> i == FindInvite(invites, secret)
    ensures On(invites, secret) == [] ==> inv.secret != secret
    ensures On(invites[i := inv], secret) ==
              if inv.secret == secret then [inv] + On(invites, secret)[1..] else On(invites, secret)
  {
    hide On, FindInvite;
    if inv.secret == secret { OnUpdateFirst(invites, inv); } else { OnUpdateOther(invites, i, inv, secret); }
  }

  // ---------------------------------------------------------------------- the list of endpoint ids

  function EndpointIds(peers: seq<TrustedPeer>): (r: seq<string>)
    ensures |r| == |peers|
    ensures forall i :: 0 <= i < |peers| ==> r[i] == peers[i].endpointId
  {
    seq(|peers|, i requires 0 <= i < |peers| => peers[i].endpointId)
  }

  predicate Trusts(peers: seq<TrustedPeer>, endpointId: string) {
    endpointId in EndpointIds(peers)
  }

  lemma {:induction false} TrustsAfterUnpair(peers: seq<TrustedPeer>, gone: string, e: string)
    ensures Trusts(Without(peers, gone), e) <==> Trusts(peers, e) && e != gone
  {
    if peers != [] {
      TrustsAfterUnpair(peers[1..], gone, e);
      var rest := Without(peers[1..], gone);
      assert EndpointIds(peers) == [peers[0].endpointId] + EndpointIds(peers[1..]);
      assert EndpointIds([peers[0]] + rest) == [peers[0].endpointId] + EndpointIds(rest);
    }
  }

  lemma {:induction false} RenameKeepsEndpointIds(s: State, identifier: string, alias: string)
    ensures EndpointIds(AfterRenamePeer(s, identifier, alias).peers) == EndpointIds(s.peers)
  {
    hide Resolve, ValidateAlias, SameIgnoringCase;
    var peer := PeerOf(s.peers, identifier);
    if peer.Ok? {
      var after := AfterRename(s.peers, peer.value.endpointId, alias);
      forall i | 0 <= i < |s.peers| ensures after[i].endpointId == s.peers[i].endpointId {
        RenameKeepsTheRest(s.peers, peer.value.endpointId, alias, i);
      }
    }
  }

  // ------------------------------------------------------------------- commands reach who they name

  /** A command finds the peer that its identifier names, and fails exactly when it names none: not
      found when nothing matches, ambiguous when several endpoint ids begin with it. */
  lemma {:induction false} CommandFindsNamed(peers: seq<TrustedPeer>, identifier: string)
    ensures forall k: nat :: Names(peers, identifier, k) ==> PeerOf(peers, identifier) == Ok(peers[k])
    ensures PeerOf(peers, identifier).Ok? <==> exists k: nat :: Names(peers, identifier, k)
    ensures PeerOf(peers, identifier) == Err(PeerNotFound) <==>
              forall p :: p in peers ==> !SameIgnoringCase(p.alias, identifier) && !(identifier <= p.endpointId)
    ensures PeerOf(peers, identifier).Err? && PeerOf(peers, identifier) != Err(PeerNotFound) ==>
              PeerOf(peers, identifier).error.PeerAmbiguous? && |PeerOf(peers, identifier).error.candidates| >= 2
  {
    hide SameIgnoringCase, Starts;
    ResolveFindsNamed(peers, identifier);
    NotFoundIff(peers, identifier);
    hide Names, Resolve;
  }

  /** The identifier names a record of this endpoint. */
  ghost predicate NamesEndpoint(peers: seq<TrustedPeer>, identifier: string, e: string) {
    exists k: nat :: k < |peers| && Names(peers, identifier, k) && peers[k].endpointId == e
  }

  lemma {:induction false} CommandReachesIff(peers: seq<TrustedPeer>, identifier: string, e: string)
    ensures PeerOf(peers, identifier).Ok? && PeerOf(peers, identifier).value.endpointId == e <==> NamesEndpoint(peers, identifier, e)
  {
    CommandFindsNamed(peers, identifier);
    hide PeerOf;
    forall k: nat | Names(peers, identifier, k) ensures k < |peers| {}
    hide Names;
  }

  /** Unpairing closes the connection that is registered with the endpoint it names. */
  lemma {:induction false} UnpairClosesNamed(r: Connection.Registry, peers: seq<TrustedPeer>, identifier: string, e: string)
    requires NamesEndpoint(peers, identifier, e)
    ensures UnpairCloses(r, peers, identifier) == Connection.EntryOf(r, e).connection
    ensures e !in AfterUnpairRegistry(r, peers, identifier)
  {
    CommandReachesIff(peers, identifier, e);
    hide PeerOf, NamesEndpoint;
  }

  lemma {:induction false} NotFoundIff(peers: seq<TrustedPeer>, identifier: string)
    ensures Resolve(peers, identifier).NotFound? <==>
              forall p :: p in peers ==> !SameIgnoringCase(p.alias, identifier) && !(identifier <= p.endpointId)
    ensures Resolve(peers, identifier).Ambiguous? ==> |Resolve(peers, identifier).matches| >= 2
  {
    hide SameIgnoringCase;
    var k := FindAlias(peers, identifier);
    if k == |peers| {
      PrefixDecides(peers, identifier);
      hide Resolve;
      if forall i :: 0 <= i < |peers| ==> !Starts(peers, i, identifier) {
        forall p | p in peers ensures !SameIgnoringCase(p.alias, identifier) && !(identifier <= p.endpointId) {
          var i :| 0 <= i < |peers| && peers[i] == p;
          assert !Starts(peers, i, identifier);
        }
      }
      if forall p :: p in peers ==> !SameIgnoringCase(p.alias, identifier) && !(identifier <= p.endpointId) {
        forall i | 0 <= i < |peers| ensures !Starts(peers, i, identifier) { assert peers[i] in peers; }
      }
    } else {
      assert peers[k] in peers && SameIgnoringCase(peers[k].alias, identifier);
    }
  }

  /** Unpairing by an identifier removes every record of the endpoint it names, and that endpoint only. */
  lemma {:induction false} UnpairRemovesNamed(s: State, identifier: string, k: nat, p: TrustedPeer)
    requires Names(s.peers, identifier, k)
    ensures p in AfterUnpair(s, identifier).peers <==> p in s.peers && p.endpointId != s.peers[k].endpointId
  {
    CommandFindsNamed(s.peers, identifier);
    RemainingAreOld(s.peers, s.peers[k].endpointId, p);
    hide Names, PeerOf, Without;
  }

  /** Renaming by an identifier gives the new alias to the first record of the endpoint it names, when it
      is accepted, and changes nothing else. */
  lemma {:induction false} RenameReachesNamed(s: State, identifier: string, k: nat, alias: string, i: nat)
    requires Names(s.peers, identifier, k) && i < |s.peers|
    ensures var after, r := AfterRenamePeer(s, identifier, alias).peers, RenameResult(s.peers, s.peers[k].endpointId, alias);
            && |after| == |s.peers|
            && after[i] == (if r.Ok? && s.peers[i].endpointId == s.peers[k].endpointId
                               && (forall j :: 0 <= j < i ==> s.peers[j].endpointId != s.peers[k].endpointId)
                            then s.peers[i].(alias := r.value) else s.peers[i])
  {
    CommandFindsNamed(s.peers, identifier);
    RenameKeepsTheRest(s.peers, s.peers[k].endpointId, alias, i);
    hide Names, PeerOf, RenameResult;
  }

  /** Finishing adds the peer exactly as the session knew it, behind the others. */
  lemma {:induction false} FinishAddsPeer(s: State, id: Uuid, peer: TrustedPeer, secret: Option<Bytes32>, outcome: Result<bool, ()>, uuid: string)
    ensures var after := AfterFinish(s, id, peer, secret, outcome, uuid).peers;
            if outcome == Ok(true) then
              && |after| == |s.peers| + 1 && after[..|s.peers|] == s.peers
              && after[|s.peers|] == peer.(alias := AliasFor(s.peers, peer.displayName, uuid))
            else after == s.peers
  {
    hide AliasFor;
  }

  /** A pairing can be answered once: from its opening until its first answer, whatever becomes of others. */
  lemma {:induction false} OneAnswerOnly(s: State, id: Uuid, other: Uuid, peer: string, verification: string)
    ensures Answerable(AfterOpening(s, id, Entry(peer, verification, true)), id)
    ensures !Answerable(AfterAnswer(s, id), id)
    ensures other != id ==> (Answerable(AfterAnswer(s, id), other) <==> Answerable(s, other))
    ensures id !in s.pending ==> !Answerable(s, id)
  {}
}
