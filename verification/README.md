# Verification of the LCP daemon

LCP is a clipboard messenger made of a daemon (`lanclipd`) and a command-line client. This project
models the parts of the daemon that hold state or define a format, and proves what they keep over
every run. `dafny verify dfyconfig.toml` checks all of it.

## How it is laid out

| module | what it models |
|---|---|
| Basics, Protocol, Order, Utf8, BigEndian | shared types, protocol errors, string order, UTF-8, fixed-width integers |
| Base64Url, Postcard | base64url without padding (sections 3.2, 3.5 and 5 of RFC 4648) and the Postcard wire format: LEB128 varints, zigzag, counted strings, option and enum tags |
| Ticket, Network | pairing tickets; envelopes with all eight bodies, their frames and limits |
| Framing, IpcServer, IpcClient, IpcPath | local IPC: frames on a stream that may break, the two writers of a server connection, the reader and writer loops of a client, and both ends joined by the bytes between them |
| Conversation, ConversationRuns | the conversation store and its dedup cache as classes; whole runs against logs that are never trimmed |
| Delivery, Transport | text delivery between daemons as a step system; the accept, incoming-stream and send paths as methods, one for each locked section |
| Peers | alias rules, the fresh-alias generator, the resolver, the list of trusted peers |
| Connection | the connection registry and the tie-break for simultaneous dials |
| VerificationString, PairingSession | the human-checkable string; one two-party pairing session as a step system |
| AppState, Daemon | the state behind the daemon's lock as a class; one daemon as a step system, with any number of sessions, connections and texts interleaved section by section |
| InviteRuns, TrustRuns, RegistryRuns | whole runs of a daemon: invite accounting; where trust comes from and what it lets in; which connections are registered and closed, and whom a send goes to |
| Undisturbed | what each task of a daemon comes to when nothing happens between its sections |

Every concurrent part has the same shape. A step function `Next` takes a state and an action to a
state; whatever the program does not decide (clock readings, new ids and nonces, which task moves
next, whether a write or read succeeds, whether a timeout strikes, what a human answers) is in the
action, and an action that cannot happen changes nothing. `Run` folds `Next` over a list of actions,
so a lemma about `Run` is about every interleaving. Where the program updates an object in place
there is a class, and each method's postcondition equates its new abstract state with the step
function that the lemmas are about.

BLAKE3 is any function from byte strings to 32 bytes. New ids are assumed new only where a claim needs it: a
message id is new among those of its sender (`Delivery.FreshId`), and an invite secret is created at
most once (a `requires` on `InviteRuns.Created`).

## Where code and documentation differ, or a natural claim is false

The model follows the code.

- `validate_text_len` says it rejects empty text (crates/lcp-protocol/src/network.rs:154) and does not;
  only the send command refuses it (`Network.EmptyTextPasses`).
- docs/protocol.md:21 lists the envelope bodies without `PairConfirm`, and docs/protocol.md:66 calls
  the verification string a keyed hash; the code hashes without a key.
- docs/protocol.md:9 promises one agreed connection after simultaneous dials. The registries agree exactly
  when the arrival of the last dial the lower id entered is the last event at the higher id
  (`Connection.DialsAgreeIff`); a higher id that enters its own dial after that overwrites the shared one
  (`Connection.CrossingDialsCanDisagree`).
- `latest_incoming_for` promises the latest incoming message and never an outgoing one. It keeps the
  first promise exactly when no other retained entry stands in for the last incoming message
  (`ConversationRuns.LatestIncomingIff`, for any ids), and breaks the second exactly when the first
  retained entry with its id is outgoing (`ConversationRuns.OutgoingAnswerIff`); two steps are enough
  (`ConversationRuns.ReusedIdReturnsOutgoing`).
- A status update is meant for one message and reaches the first retained entry with its id. A message
  evicted before its status arrives, whose peer has reused the id, has the status put on the incoming
  message instead (`ConversationRuns.UpdateMarksIncoming`); `ConversationRuns.UpdateReachesEntryIff` says
  exactly when an update is right, for every message ever logged.
- A rename can break alias uniqueness when an endpoint was paired twice
  (`Peers.RepairedEndpointBreaksRename`, with the exact condition for one rename in `Peers.RenameKeepsAliasesDistinctIff` and for
  whole runs in `TrustRuns.AliasesDistinctIff`).
- An invite can be created whose ticket every joiner refuses as too large: a display name of 6140
  letters does it (`Ticket.OversizeTicket`), and `Ticket.RoundTripIff` has the exact bound.
- An inviter leaves its pending entry behind exactly when the write of its decision was reported as
  failed (`PairingSession.OrphanedIff`), which can happen (`PairingSession.OrphanIsPossible`), and then
  for ever (`PairingSession.OrphansStay`).
- Cancelling the invites, or finishing a session, does not stop a request that was counted before: its
  pending entry may still be inserted afterwards (`InviteRuns.CountedEntersAfterCancel`,
  `InviteRuns.CountedEntersAfterFinish`).
- A message can be recorded after its sender was unpaired (`TrustRuns.RecordedAfterUnpair`), exactly
  when the unpairing fell between the trust check and the recording and no session granted trust again
  (`TrustRuns.RecordedStillTrustedIff`).
- In the same way an open connection with an untrusted endpoint can be registered
  (`RegistryRuns.StrangerRegistered`); `RegistryRuns.StrangerIff` says exactly when one is.
- One side can end paired while the other ends failed (`PairingSession.OneSidedCommitIsPossible`),
  exactly when the other's own confirmation or its read did not go through
  (`PairingSession.OtherSidePairedIff`).
- The Postcard reader ignores trailing bytes and accepts varints that are not the shortest
  (`Network.OtherSpellings`, `Ticket.TrailingBytesIgnored`). A value's own encoding is its only spelling
  of that length (`Network.DecodedEnvelopesReencode`, `Ticket.DecodedTicketsReencode`), and its only
  spelling at all exactly when it fills the limit to the last byte (`Network.OneSpellingIff`,
  `Ticket.OneSpellingIff`).
- A failed save of the configuration is reported as an error after the rename or the unpairing has
  happened in memory (`AppState.SharedState.RenamePeer`, `AppState.SharedState.UnpairPeer`).

## Model

| member | source | states |
|---|---|---|
| PairingSession.TrustNeedsBothYes | crates/lcp-core/src/pairing.rs:380-413 | in every run of a session, a side trusts the other only if both humans answered yes, and both were shown the same string |
| PairingSession.NeverPairedAgainstRejected | crates/lcp-core/src/pairing.rs:433-479 | in no run is one side paired and the other rejected or gone before the exchange |
| PairingSession.OtherSidePairedIff | crates/lcp-core/src/pairing.rs:391-413 | beside a paired side, the other side once finished is paired exactly when its own confirmation was written and its read succeeded, and failed otherwise |
| PairingSession.OneSidedCommitIsPossible | crates/lcp-core/src/pairing.rs:397-413 | both outcomes are reachable: both paired, and one paired against one failed |
| PairingSession.VerificationStringsAgree | crates/lcp-core/src/pairing.rs:190-213 | in every run both pending entries carry one string, derived from the ids, the secret and the two nonces of this session |
| PairingSession.EntriesAreCleanedUp | crates/lcp-core/src/pairing.rs:225-248 | a finished session has no pending entry; of the sessions that stopped before, only an inviter whose decision was not written keeps one |
| PairingSession.OrphanedIff | crates/lcp-core/src/pairing.rs:225-235 | in every run an entry is orphaned exactly when the write of the decision was reported as failed |
| PairingSession.OrphansStay | crates/lcp-core/src/pairing.rs:225-248 | an orphaned entry stays through every later step |
| PairingSession.OrphanIsPossible | crates/lcp-core/src/pairing.rs:225-235 | a run that orphans an entry, whether or not the bytes got through |
| PairingSession.AnswersAreFinal | crates/lcp-core/src/pairing.rs:123-133 | no later step changes a human answer, the decision made of it, or the outcome and trust of a finished session |
| PairingSession.RunKeepsInv | crates/lcp-core/src/pairing.rs:137-413 | the inductive invariant: what each side has written and read in each phase, what its decision rests on, and when it has an entry |
| PairingSession.FinishReports | crates/lcp-core/src/pairing.rs:449-477 | a yes is reported as paired, a no as rejected, a failure as failed, and only a yes adds trust |
| PairingSession.OpeningMessagesSay | crates/lcp-core/src/pairing.rs:164-173 | every field of the request, the acceptance and the refusal |
| PairingSession.RunConfirmationExchange | crates/lcp-core/src/pairing.rs:380-413 | the result is yes exactly on our own yes, a written confirmation and a confirmation read in time; an error exactly when the write failed or nothing was read after our yes; no otherwise |
| PairingSession.ExchangeIsThreeSteps | crates/lcp-core/src/pairing.rs:380-413 | waiting, writing and reading as three steps of the session, from any state, settle on a result with that meaning |
| VerificationString.DeriveIsSymmetric | crates/lcp-core/src/pairing.rs:36-72 | the string is unchanged by swapping the ids, the nonces, or both |
| VerificationString.HashInputBinds | crates/lcp-core/src/pairing.rs:57-63 | with ids of one length, the hashed bytes are equal exactly when the unordered pair of ids, the secret and the unordered pair of nonces are |
| VerificationString.DeriveShape | crates/lcp-core/src/pairing.rs:67-71 | every string splits at its dashes into three words of the list and exactly four digits |
| VerificationString.StringReadsDigest | crates/lcp-core/src/pairing.rs:64-71 | the three words are those at the first three bytes of the digest modulo 64, and the decimal number is the next two bytes, most significant first, modulo 10000 |
| VerificationString.SameStringIff | crates/lcp-core/src/pairing.rs:39-72 | two sessions show the same string exactly when their digests agree on just that |
| VerificationString.WordsDiffer | crates/lcp-core/src/pairing.rs:26-34 | no word stands twice in the list |
| VerificationString.Anchors | crates/lcp-core/src/pairing.rs:26-34 | some places of the list, and leading zeros |
| VerificationString.HashInputOrder | crates/lcp-core/src/pairing.rs:46-63 | context, smaller id, larger id, secret, smaller nonce, larger nonce, in this order |
| Order.Trichotomy | crates/lcp-core/src/pairing.rs:46-50 | of two ids exactly one is smaller unless they are equal, in the order of their code points |
| Order.LessIff | crates/lcp-core/src/pairing.rs:46-50 | smaller means a proper prefix, or the smaller code point at the first difference |
| AppState.SharedState.AdmitRequest | crates/lcp-core/src/pairing.rs:147-162 | finds, validates and counts in one step: the refusal, or one more attempt on the first invite with that secret |
| AppState.SharedState.OpenPairing | crates/lcp-core/src/pairing.rs:199-213 | the entry is stored under the new id, answerable |
| AppState.SharedState.ResolveDecision | crates/lanclipd/src/main.rs:89-107 | succeeds exactly when the entry exists and was not answered, and takes the one-shot sender |
| AppState.OneAnswerOnly | crates/lcp-core/src/pairing.rs:123-133 | a pairing can be answered from its opening until its first answer and not again |
| AppState.SharedState.FinishPairing | crates/lcp-core/src/pairing.rs:433-479 | removes the entry and, for an inviter, every invite with the secret; adds the peer only on a yes from both |
| AppState.SharedState.CreateInvite | crates/lanclipd/src/main.rs:366-375 | appends an invite with no attempts |
| AppState.SharedState.CancelInvites | crates/lanclipd/src/main.rs:383-387 | drops every invite and nothing else |
| AppState.SharedState.RenamePeer | crates/lanclipd/src/main.rs:273-323 | resolves, then renames that endpoint; an unknown peer or refused alias changes nothing, a failed save is reported after the change |
| AppState.SharedState.UnpairPeer | crates/lanclipd/src/main.rs:419-451 | resolves, closes and forgets the connection, removes every record of that endpoint; an unknown peer changes nothing, a failed save is reported after the change |
| AppState.UnpairClosesNamed | crates/lanclipd/src/main.rs:436-441 | unpairing closes the connection registered with the endpoint that the identifier names |
| AppState.CommandReachesIff | crates/lanclipd/src/main.rs:22-43 | a command reaches an endpoint exactly when its identifier names a record of it |
| AppState.CommandFindsNamed | crates/lanclipd/src/main.rs:22-43 | which record is found, and exactly when the answer is not found or ambiguous |
| AppState.UnpairRemovesNamed | crates/lanclipd/src/main.rs:419-441 | unpairing removes every record of the endpoint it names and no other |
| AppState.RenameReachesNamed | crates/lanclipd/src/main.rs:287-309 | renaming changes the alias of the first record of the endpoint it names and nothing else |
| AppState.FinishAddsPeer | crates/lcp-core/src/pairing.rs:449-457 | on a yes from both, the peer is added as the session knew it, else the list is unchanged |
| AppState.SharedState.ResetConfig | crates/lanclipd/src/main.rs:227-235 | leaves peers, invites and pending entries alone and restores the default history limit |
| AppState.OnUnspent | crates/lcp-core/src/pairing.rs:444-448 | spending one secret removes all of its invites and none of another secret |
| InviteRuns.AttemptsCountSessions | crates/lcp-core/src/pairing.rs:147-162 | in every run with distinct secrets, at every moment, the sessions let in on an active invite equal its attempts counter and never exceed twenty, and those entered are among them |
| InviteRuns.AdmittedIff | crates/lcp-core/src/pairing.rs:149-161 | a request is let in exactly when an active, unexpired invite carries its secret and fewer than twenty sessions were let in on it; it is refused for too many exactly at twenty |
| InviteRuns.SpentForGood | crates/lcp-core/src/pairing.rs:442-448 | after any session of an invite has finished, or after a cancel, every later request with that secret is refused, no session is let in, and entries are only those of sessions let in before |
| InviteRuns.CountedEntersAfterCancel | crates/lcp-core/src/pairing.rs:147-203 | in any state with a counted request, a cancel does not stop its entry from being inserted afterwards |
| InviteRuns.CountedEntersAfterFinish | crates/lcp-core/src/pairing.rs:442-448 | nor does another session on the same invite that finishes and spends it |
| InviteRuns.CountedEntersAnyway | crates/lcp-core/src/pairing.rs:147-203 | nor does any other step |
| InviteRuns.CountedIsPossible | crates/lcp-core/src/pairing.rs:147-162 | such a state is reachable |
| InviteRuns.PendingWereEntered | crates/lcp-core/src/pairing.rs:199-213 | the pending entries of an inviter are those of sessions that were let in and entered |
| InviteRuns.RefusedIsTold | crates/lcp-core/src/pairing.rs:163-179 | a refused request is answered with the reason and changes nothing else |
| Daemon.PendingMirrorsSessions | crates/lcp-core/src/pairing.rs:199-213 | in every run the pending map is exactly the open entries of the daemon's sessions, with the right peer and string |
| TrustRuns.TrustedIff | crates/lcp-core/src/pairing.rs:449-457 | in every run an endpoint is trusted exactly when it was loaded or granted by a confirmed session, and not unpaired since |
| TrustRuns.TrustedSinceIff | crates/lcp-core/src/pairing.rs:449-457 | the same counted from any step of the run |
| TrustRuns.GrantNeedsBothYes | crates/lcp-core/src/pairing.rs:377-413 | behind every grant in a daemon's run, both humans answered yes to the same string |
| Undisturbed.GrantedPeer | crates/lcp-core/src/pairing.rs:237-247 | the record a confirmed session adds has the other side's endpoint id and the names that side sent |
| TrustRuns.EndpointIdsAfter | crates/lanclipd/src/main.rs:227-323 | only a confirmed session (which appends one id) and an unpair (which removes one id) change the list of trusted endpoint ids; rename and reset keep it |
| TrustRuns.RecordedWasTrusted | crates/lcp-core/src/transport.rs:222-268 | in every run a text is authorised, and a message recorded, only after a check of that very text, made after it arrived, that found its sender trusted under the alias it is labelled with |
| TrustRuns.RecordedStillTrustedIff | crates/lcp-core/src/transport.rs:222-268 | the sender is still trusted at the recording exactly when no step since the check unpaired it, or a later session granted it again with no unpair after that |
| TrustRuns.RevocationHolds | crates/lanclipd/src/main.rs:436-441 | if an endpoint is untrusted at some state and never granted again, every message ever recorded from it was checked before that state |
| TrustRuns.RecordedAfterUnpair | crates/lcp-core/src/transport.rs:222-268 | a run that records a message of an endpoint unpaired after the trust check |
| TrustRuns.AliasesDistinctIff | crates/lcp-core/src/peers.rs:94-135 | over every run, re-pairings included, aliases are distinct at every state exactly when every accepted rename finds no later record of its endpoint that bears the new alias |
| TrustRuns.DistinctMeansUsable | crates/lcp-core/src/peers.rs:40-58 | wherever aliases are distinct, every trusted peer is found by its alias in any casing |
| TrustRuns.AliasesStayUsable | crates/lcp-core/src/peers.rs:94-135 | in particular, in every run that never pairs again with an endpoint still trusted, aliases stay distinct whatever is renamed and every peer is found by its alias in any casing |
| RegistryRuns.RegisteredWasTrusted | crates/lcp-core/src/transport.rs:130-161 | in every run whatever connection is registered, inbound or dialed, was let in by an earlier step, for that very connection or send, that found its endpoint trusted |
| RegistryRuns.RegisteredStillTrustedIff | crates/lcp-core/src/transport.rs:133-152 | the endpoint is still trusted at the registration exactly when no step since that check unpaired it, or a later session granted it again with no unpair after that |
| RegistryRuns.StrangerIff | crates/lcp-core/src/transport.rs:133-161 | in every run the registry holds a connection with an untrusted endpoint exactly when one was registered while it was untrusted and nothing since granted it, unpaired it or put it offline |
| RegistryRuns.StrangerRegistered | crates/lcp-core/src/transport.rs:133-152 | a run that leaves an open connection with an untrusted endpoint registered |
| RegistryRuns.UnpairClosesForGood | crates/lanclipd/src/main.rs:436-441 | in every run the connection registered with an endpoint when it is unpaired is closed and never open again |
| RegistryRuns.SendGoesWhereNamed | crates/lanclipd/src/main.rs:490-545 | in every run each send is of the text and id it was begun with and goes to the endpoint its recipient string named at that moment |
| RegistryRuns.RegistersWhich | crates/lcp-core/src/transport.rs:144-152 | what is registered is the accepted connection, or the one just dialed |
| RegistryRuns.LoserIsClosed | crates/lcp-core/src/transport.rs:153-159 | an inbound that loses the tie-break is closed and not registered |
| Undisturbed.IncomingText | crates/lcp-core/src/transport.rs:215-294 | with nothing in between, a text is recorded exactly when its sender is trusted and it is not too long, as it arrived |
| Undisturbed.InboundConnection | crates/lcp-core/src/transport.rs:130-161 | with nothing in between, an inbound ends registered, closed or merely kept, as one accept does |
| Undisturbed.OutgoingText | crates/lanclipd/src/main.rs:452-595 | with nothing in between, the message is logged to the named endpoint and ends sent exactly when there was a connection and it was acknowledged, else failed with the peer offline |
| Undisturbed.ResetKeepsAllButLimit | crates/lanclipd/src/main.rs:227-235 | a reset restores the limit of one hundred and changes nothing else |
| Conversation.BoundedDedupCache.Insert | crates/lcp-core/src/conversation.rs:81-92 | a new key is appended and the oldest falls out past the capacity; a known key changes nothing |
| Conversation.PushBounded | crates/lcp-core/src/conversation.rs:248-253 | the loop keeps exactly the last `limit` messages |
| Conversation.ConversationStore.Record | crates/lcp-core/src/conversation.rs:117-155 | the whole new state of accepting a message, and that a known key is a duplicate |
| Conversation.ConversationStore.Log | crates/lcp-core/src/conversation.rs:157-183 | an outgoing message is appended without a sequence number, and neither index moves |
| Conversation.ConversationStore.UpdateOutgoingStatus | crates/lcp-core/src/conversation.rs:185-200 | the first entry with the id gets the status |
| Conversation.ConversationStore.LatestFor | crates/lcp-core/src/conversation.rs:203-207 | reads the per-peer index |
| Conversation.ConversationStore.LatestOverall | crates/lcp-core/src/conversation.rs:211-218 | reads the global index |
| ConversationRuns.DedupRemembersLastAccepted | crates/lcp-core/src/conversation.rs:77-92 | in every run a key is remembered exactly while it is among the last `capacity` accepted; the queue has no repeats and equals the set |
| ConversationRuns.RepeatsAreFarApart | crates/lcp-core/src/conversation.rs:126-132 | two acceptances of one key are more than `capacity` acceptances apart |
| ConversationRuns.WindowStartIsMaximum | crates/lcp-core/src/conversation.rs:243-253 | the window starts at the maximum over past pushes k of k minus the limit then in force, or 0 |
| ConversationRuns.HistoryIsWindowOfLog | crates/lcp-core/src/conversation.rs:146-152 | in every run, under changing limits, the retained history is the append log from that start on, up to statuses |
| ConversationRuns.UpdateReachesEntryIff | crates/lcp-core/src/conversation.rs:185-200 | in every run, for any ids and any entry ever logged, retained or evicted, an update changes the meant entry if it is retained and nothing else, exactly when no other retained entry stands in for it or there is nothing to change; other peers and both indexes are never touched |
| ConversationRuns.UpdateMarksIncoming | crates/lcp-core/src/conversation.rs:185-200 | a run in which an incoming message is marked as sent |
| ConversationRuns.DistinctIdsSuffice | crates/lcp-core/src/conversation.rs:185-218 | with distinct ids nothing ever stands in for an entry, so that condition always holds |
| ConversationRuns.LatestIncomingIff | crates/lcp-core/src/conversation.rs:203-207 | in every run, for any ids, the answer is the retained incoming message with the greatest sequence, and None exactly when none is retained, if and only if no other retained entry stands in for the last incoming one |
| ConversationRuns.OutgoingAnswerIff | crates/lcp-core/src/conversation.rs:202-207 | in every run the answer is an outgoing message exactly when the first retained entry with the id of the last incoming one is outgoing |
| ConversationRuns.LatestGlobalIff | crates/lcp-core/src/conversation.rs:211-218 | in every run, for any ids, the answer has the greatest sequence retained for any peer, and None exactly when nothing was accepted or the last accepted message is gone, under exactly the same condition |
| ConversationRuns.GlobalIsPeerAnswer | crates/lcp-core/src/conversation.rs:209-218 | in every run the global answer is the per-peer answer of the peer whose message was accepted last, so it is outgoing exactly when that one is |
| ConversationRuns.NewMessageIsLatestIff | crates/lcp-core/src/conversation.rs:126-154 | at the moment of its acceptance a new message is the answer exactly when it is kept and no surviving older entry has its id |
| ConversationRuns.ReusedIdReturnsOutgoing | crates/lcp-core/src/conversation.rs:203-207 | two steps after which the answer is an outgoing message |
| ConversationRuns.RecordedAsReceived | crates/lcp-core/src/conversation.rs:134-153 | every field of an accepted message, and that it is the newest of its history |
| ConversationRuns.RecordedAsSent | crates/lcp-core/src/conversation.rs:164-182 | every field of an outgoing message |
| ConversationRuns.LimitTakesHold | crates/lcp-core/src/conversation.rs:243-253 | a new limit holds from the next push on and touches nothing else |
| Delivery.SentMeansAccepted | crates/lcp-core/src/transport.rs:376-404 | in every run, with losses, timeouts and redelivery, a message shown as sent is in the receiver's accepted log under the sender's id with exactly the sent text |
| Delivery.RedeliveryIsAcceptedOnce | crates/lcp-core/src/transport.rs:259-282 | no receiver accepts one (sender, id) twice within 10,000 acceptances |
| Delivery.RunKeepsInv | crates/lcp-core/src/transport.rs:215-294 | the invariant: distinct streams, acknowledged texts are held by their receiver, accepted and outgoing entries were sent |
| Delivery.UndisturbedDelivery | crates/lcp-core/src/transport.rs:215-294 | with nothing lost between nodes that trust each other, a text is recorded as it was sent and marked as sent |
| Delivery.GivingUpFails | crates/lanclipd/src/main.rs:571-595 | a sender that gives up marks its message as failed |
| Transport.Transport.IsTrusted | crates/lcp-core/src/transport.rs:133-143 | the first section of an accept: the trust check |
| Transport.Transport.RegisterInbound | crates/lcp-core/src/transport.rs:144-161 | the second section: registered, or closed when the tie-break is against it, without looking at trust again |
| Transport.Transport.CheckSender | crates/lcp-core/src/transport.rs:222-257 | the first section of an incoming text and its length check: unauthorized, too long, or the label to record it under |
| Transport.Transport.RecordText | crates/lcp-core/src/transport.rs:259-282 | the second section: recorded under that label unless it is a duplicate |
| Transport.Transport.BeginSend | crates/lanclipd/src/main.rs:453-508 | the checks of the send command and the resolution of its recipient, with the reason of every refusal |
| Transport.RecipientIsNamed | crates/lanclipd/src/main.rs:466-508 | a text goes to an endpoint exactly when it is not empty, not too long, and its recipient string names a record of that endpoint |
| Transport.TextGoesToAlias | crates/lanclipd/src/main.rs:493-508 | with distinct aliases, in any casing, to the peer that bears the alias |
| Transport.RecipientRefusals | crates/lanclipd/src/main.rs:464-508 | each refusal exactly when its reason holds and none before it does |
| Transport.JudgeMeans | crates/lcp-core/src/transport.rs:222-291 | the label a text is recorded under, the length it is refused with, and what each answer says |
| Transport.Transport.Exchange | crates/lcp-core/src/transport.rs:370-405 | exactly when a text counts as acknowledged, which failure is reported otherwise and with which message, and that whatever was written decodes to the text |
| Transport.AcknowledgedIffTrusted | crates/lcp-core/src/transport.rs:222-294 | with nothing lost, the frame decodes to the sent text and the answer's frame acknowledges it exactly when the receiver trusts the sender |
| Ticket.DecodeOfEncode | crates/lcp-protocol/src/ticket.rs:48-76 | what decoding makes of every encoded ticket: size first, then version, else the ticket itself |
| Ticket.RoundTripIff | crates/lcp-protocol/src/ticket.rs:48-76 | a version-1 ticket survives exactly up to 6140 bytes of contents, and is "too large" exactly beyond |
| Ticket.TextLength | crates/lcp-protocol/src/ticket.rs:48-60 | the length of the text, and the 8192-byte cap as a bound on the contents |
| Ticket.ShortFieldsSurvive | crates/lcp-protocol/src/ticket.rs:18-27 | fields of together at most 6091 bytes always survive |
| Ticket.LongFieldsAreRefused | crates/lcp-protocol/src/ticket.rs:48-60 | fields of together at least 6140 bytes make a ticket that is refused as too large |
| Ticket.OversizeTicket | crates/lcp-protocol/src/ticket.rs:48-60 | a display name of 6140 letters is such a case |
| Ticket.DecodedTicketsReencode | crates/lcp-protocol/src/ticket.rs:57-76 | whatever text decodes, its ticket encodes to a text no longer that decodes to the same ticket and is the only spelling of its length |
| Ticket.TrailingBytesIgnored | crates/lcp-protocol/src/ticket.rs:67-68 | contents followed by further bytes, as long as they fit, decode to the same ticket |
| Ticket.OneSpellingIff | crates/lcp-protocol/src/ticket.rs:57-76 | a ticket has a single spelling exactly when its contents take all of 6140 bytes |
| Ticket.Refusals | crates/lcp-protocol/src/ticket.rs:57-66 | too long, no prefix and no Base64 each exactly when |
| Ticket.Layout | crates/lcp-protocol/src/ticket.rs:20-28 | the place of every field |
| Base64Url.RoundTrip | crates/lcp-protocol/src/ticket.rs:51 | decoding undoes encoding, for all bytes |
| Base64Url.Canonical | crates/lcp-protocol/src/ticket.rs:64-66 | only encodings are accepted: no padding, no stray trailing bits, one text for each byte string |
| Base64Url.SameBits | crates/lcp-protocol/src/ticket.rs:51 | sextets carry the bits of the bytes in order, filled up with zeros |
| Base64Url.TestVectors | crates/lcp-protocol/src/ticket.rs:51 | test vectors of section 10 of RFC 4648 and of the two URL-safe symbols |
| Utf8.RoundTrip | crates/lcp-protocol/src/network.rs:154-165 | UTF-8 decoding undoes encoding |
| Utf8.Canonical | crates/lcp-protocol/src/network.rs:154-165 | whatever decodes is the encoding of what it decodes to |
| Utf8.CharLengths | crates/lcp-protocol/src/network.rs:154-165 | the length of every character, and the examples of section 7 of RFC 3629 |
| Postcard.VarintRoundTrip | crates/lcp-protocol/src/network.rs:97-99 | every number in range is read back, whatever follows it |
| Postcard.VarintShortest | crates/lcp-protocol/src/network.rs:124-125 | an accepted varint is never shorter than the written one, and as long only when it is the same |
| Postcard.VarintMeans | crates/lcp-protocol/src/network.rs:97-99 | the groups of seven bits spell the number, least significant first |
| Postcard.ZigZagOrder | crates/lcp-protocol/src/ticket.rs:25 | zigzag numbers the integers by magnitude, the negative one first |
| Postcard.Layouts | crates/lcp-protocol/src/network.rs:38-51 | flags, option tags and strings byte by byte |
| Postcard.I64RoundTrip | crates/lcp-protocol/src/ticket.rs:25 | zigzag and varint are undone for all of i64 |
| Postcard.OptionalStringRoundTrip | crates/lcp-protocol/src/network.rs:47-51 | option tags and counted strings are read back |
| Network.EncodeFramed | crates/lcp-protocol/src/network.rs:97-110 | fills the buffer with the big-endian length and the contents, or reports the size |
| Network.FrameRoundTrip | crates/lcp-protocol/src/network.rs:97-152 | framing succeeds exactly up to 6 MiB; the prefix announces exactly the rest, the body decodes to the envelope, and a reader takes off just that frame |
| Network.DecodeContents | crates/lcp-protocol/src/network.rs:114-133 | decoding the contents of any envelope, all eight bodies, gives it back or names its wrong version |
| Network.PartialFramesGiveNothing | crates/lcp-core/src/transport.rs:100-110 | no proper prefix of a frame yields an envelope |
| Network.ValidTextAlwaysFits | crates/lcp-protocol/src/network.rs:156-165 | every text that passes the check, from a sender with a 64-character id, can be framed |
| Network.DecodedEnvelopesReencode | crates/lcp-protocol/src/network.rs:112-133 | whatever bytes decode, the envelope can be framed in no more bytes and is read back, and its own contents are the only spelling of their length |
| Network.OtherSpellings | crates/lcp-protocol/src/network.rs:124-125 | trailing bytes and a version in two bytes spell the same envelope |
| Network.OneSpellingIff | crates/lcp-protocol/src/network.rs:114-133 | an envelope has a single spelling exactly when it fills a frame to the last byte |
| Network.EmptyTextPasses | crates/lcp-protocol/src/network.rs:154-165 | an empty text passes the length check |
| Network.TextLimit | crates/lcp-protocol/src/network.rs:9-10 | 5242880 ASCII characters pass and one more is refused with its length |
| Network.LengthPrefixRefusals | crates/lcp-protocol/src/network.rs:138-152 | a header is refused exactly when it is all zeros or greater than that of the limit |
| Network.TextAndAckLayout | crates/lcp-protocol/src/network.rs:26-51 | tags and fields of texts and acknowledgements byte by byte |
| Network.PairRequestLayout | crates/lcp-protocol/src/network.rs:54-61 | the same of a request |
| Network.PairDecisionLayout | crates/lcp-protocol/src/network.rs:66-73 | the same of a decision |
| Network.ShortLayouts | crates/lcp-protocol/src/network.rs:19-36 | the same of the other bodies and of the envelope |
| Network.StreamRefusals | crates/lcp-core/src/transport.rs:100-110 | a header of zeros is refused whatever follows; a stream that ends early gives nothing |
| BigEndian.RoundTrip | crates/lcp-protocol/src/network.rs:107 | a length that fits its bytes is read back |
| BigEndian.OrderOfBytes | crates/lcp-protocol/src/network.rs:107 | numbers are ordered as their bytes are, the first byte first |
| Framing.WriteFrame | crates/lcp-ipc/src/framing.rs:16-31 | the bytes that get through, and when the write succeeds |
| Framing.ReadFrame | crates/lcp-ipc/src/framing.rs:33-46 | the payload or error, and what is left of the stream |
| Framing.ReadBack | crates/lcp-ipc/src/framing.rs:16-46 | repeated reads of whole frames and one torn frame return exactly the payloads |
| Framing.PrefixReadsPrefix | crates/lcp-ipc/src/framing.rs:33-46 | any byte prefix reads as a prefix of the payloads |
| Framing.ReadRefusals | crates/lcp-ipc/src/framing.rs:33-46 | each way a read fails exactly when, and that an oversized body is not read |
| IpcServer.ServerConnection.WriteEvent | crates/lcp-ipc/src/server.rs:37-47 | one turn of the event task |
| IpcServer.ServerConnection.WriteResponse | crates/lcp-ipc/src/server.rs:69-80 | one turn of the response loop |
| IpcServer.StreamIntegrity | crates/lcp-ipc/src/server.rs:37-81 | in every interleaving of events and responses, with a break anywhere, a client reads exactly the frames written whole, in order, and a prefix of them from any part of the bytes |
| IpcServer.NothingLost | crates/lcp-ipc/src/server.rs:37-80 | while nothing breaks, every response made is written and every event pushed is written or queued, in order |
| IpcServer.EventTurnWrites | crates/lcp-ipc/src/server.rs:37-46 | a turn of the event task writes the oldest event pushed |
| IpcClient.IpcClientTasks.ReadTurn | crates/lcp-ipc/src/client.rs:71-93 | one turn of the reader loop |
| IpcClient.IpcClientTasks.WriteTurn | crates/lcp-ipc/src/client.rs:95-104 | one turn of the writer loop, and what its end drops |
| IpcClient.CallsArePartitioned | crates/lcp-ipc/src/client.rs:39-105 | in every run each call is in exactly one of queued, pending, answered, disconnected, and an answer carries its own id |
| IpcClient.SettledOnce | crates/lcp-ipc/src/client.rs:78-82 | an answer is never replaced and a disconnected call never answered |
| IpcClient.AnsweredIff | crates/lcp-ipc/src/client.rs:78-82 | in every run a call has an answer exactly when the reader read it while that call was the one registered under its id |
| IpcClient.PendingIff | crates/lcp-ipc/src/client.rs:78-104 | in every run a call waits exactly when a turn of the writer registered it and nothing has cleared its id since |
| IpcClient.QueueIs | crates/lcp-ipc/src/client.rs:95-103 | calls are taken in the order of issue and none is passed over |
| IpcClient.IssuedAsMade | crates/lcp-ipc/src/client.rs:39-51 | every call made is issued under its own id, in order |
| IpcClient.UpUnlessBroken | crates/lcp-ipc/src/client.rs:71-104 | both loops run until a read or a write fails or the client is closed |
| IpcPath.EventsArriveAsPushed | crates/lcp-ipc/src/client.rs:71-93 | in every interleaving of both ends, the events the client was given are a prefix of those pushed at the server, in that order, and all that were written whole once its reader has nothing left to read |
| IpcPath.AnswersWereMade | crates/lcp-ipc/src/client.rs:77-82 | every answer a call gets is a response the server made |
| IpcPath.NoResponseLeftBehind | crates/lcp-ipc/src/client.rs:71-104 | a reader with nothing left to read has left no call waiting whose response was written whole after the call was registered |
| IpcPath.ReadGetsOn | crates/lcp-ipc/src/client.rs:71-77 | a client that reads takes the next frame that was written whole |
| IpcPath.ReadsNextFrame | crates/lcp-ipc/src/framing.rs:33-46 | behind n whole frames a read gives the next payload, or an error exactly while it has not all arrived |
| Peers.UniqueAlias | crates/lcp-core/src/peers.rs:75-92 | the loop returns the first free candidate, or the fallback |
| Peers.FreshAlias | crates/lcp-core/src/peers.rs:75-92 | with at most 998 peers: the first candidate no peer uses in any casing, one of the first n+1 of n peers, of 1 to 32 characters, never the fallback |
| Peers.TakenCandidatesNeedPeers | crates/lcp-core/src/peers.rs:85-90 | the pigeonhole: k taken candidates need k peers |
| Peers.PeerBook.Add | crates/lcp-core/src/peers.rs:94-110 | appends the peer under the fresh alias |
| Peers.PeerBook.Rename | crates/lcp-core/src/peers.rs:112-128 | validates, checks for a clash, and changes the first record of the endpoint |
| Peers.PeerBook.Remove | crates/lcp-core/src/peers.rs:131-135 | removes every record of the endpoint and says whether there was one |
| Peers.AddKeepsAliasesDistinct | crates/lcp-core/src/peers.rs:94-110 | adding keeps aliases distinct under ASCII case folding |
| Peers.RemoveKeepsAliasesDistinct | crates/lcp-core/src/peers.rs:131-135 | so does removing |
| Peers.RemainingAreOld | crates/lcp-core/src/peers.rs:131-135 | removal leaves exactly the other endpoints' records, each as often as before |
| Peers.RenameKeepsAliasesDistinctIff | crates/lcp-core/src/peers.rs:112-128 | a rename keeps aliases distinct exactly when no later record of that endpoint bears the new alias |
| Peers.RepairedEndpointBreaksRename | crates/lcp-core/src/peers.rs:117-127 | two records of one endpoint on which an accepted rename makes an alias ambiguous |
| Peers.EveryPeerResolvesByAlias | crates/lcp-core/src/peers.rs:55-58 | with distinct aliases every peer is found by its alias in any casing |
| Peers.ResolutionIsOrderFree | crates/lcp-core/src/peers.rs:55-68 | with distinct aliases the outcome does not depend on the order of the list |
| Peers.FirstAliasWins | crates/lcp-core/src/peers.rs:55-58 | the first record whose alias matches is found, whatever else matches |
| Peers.PrefixDecides | crates/lcp-core/src/peers.rs:59-67 | without an alias match: the one record whose endpoint id begins with the identifier, not found when there is none, ambiguous between exactly those when there are several |
| Peers.ResolveFindsNamed | crates/lcp-core/src/peers.rs:55-68 | both together, for every list |
| Peers.AliasAcceptedIff | crates/lcp-core/src/peers.rs:28-38 | accepted exactly as what stands between whitespace, of 1 to 32 characters and without control characters |
| Peers.AliasRefusedIff | crates/lcp-core/src/peers.rs:28-38 | each refusal exactly when |
| Peers.CasingMeans | crates/lcp-core/src/peers.rs:40-45 | matching means the same letters up to the case of ASCII letters |
| Peers.BaseMeans | crates/lcp-core/src/peers.rs:76-81 | "Peer" for a blank name, else the first 28 characters between the whitespace |
| Peers.CandidateMeans | crates/lcp-core/src/peers.rs:85-86 | the base, then the base with a dash and the decimal number |
| Peers.FallbackIff | crates/lcp-core/src/peers.rs:85-91 | the UUID form only when all numbered forms are taken |
| Peers.RenameAcceptedIff | crates/lcp-core/src/peers.rs:117-123 | accepted exactly when the alias is and no other endpoint bears it |
| Peers.AddedRecord | crates/lcp-core/src/peers.rs:101-109 | the new record's particulars, behind the unchanged others |
| Connection.ConnectionRegistry.ShouldKeepInbound | crates/lcp-core/src/connection.rs:97-102 | exactly when an inbound connection is kept |
| Connection.KeepInboundIff | crates/lcp-core/src/connection.rs:97-102 | kept exactly when nothing open is registered with the remote id or it is the lower one |
| Connection.DisruptionsAreFelt | crates/lcp-core/src/connection.rs:60-92 | what a break, a failed send and an unpairing do to the slot and its connection |
| Connection.ConnectionRegistry.CloseAndForget | crates/lcp-core/src/connection.rs:77-83 | the entry goes and its connection is the one to close |
| Connection.TieBreakFavoursLowerDialer | crates/lcp-core/src/connection.rs:97-102 | over any run of dials, breaks, failures and unpairings, the tie-break closes only dials of the higher id and an inbound displaces an open connection only there |
| Connection.DialsAgreeIff | crates/lcp-core/src/transport.rs:144-161 | over any number of dials in any order, the lower id ends on the last dial it entered, still open, and the registries agree exactly when the arrival of that dial is the last event at the higher id |
| Connection.CrossingDialsAgreeIff | crates/lcp-core/src/transport.rs:144-161 | in every order of two crossing dials the lower id ends on its own open dial, and the registries agree exactly when the higher id entered its dial before the other arrived |
| Connection.CrossingDialsCanDisagree | crates/lcp-core/src/transport.rs:352-367 | an order that leaves the lower id on its own dial and the higher id with nothing open |

## Left out

- TrustRuns.TrustedIff: the peer of a session runs this same code, so what a peer that speaks the protocol differently could send is not covered; the config file and later loads are not modelled, and a failed save only shows in the result of the call.
- Transport.Transport.Accept: the sections of an accept with nothing in between; what happens when something does is in RegistryRuns.
- Transport.Transport.HandleText: the sections of an incoming text with nothing in between; the interleavings are in TrustRuns.
- Transport.Transport.HandleIncomingStream: runs the sections of a text with nothing in between, and leaves open the debug text of an unexpected-message error.
- Transport.Transport.SendText: the sections of a send with nothing in between; the interleavings are the steps of Daemon and Delivery. An endpoint id that does not parse as a public key, and the broadcasts to subscribers, are not modelled.
- Transport.Transport.Exchange: timeouts and errors of one operation are reported alike, without their text.
- ConversationRuns.NewMessageIsLatestIff: speaks of the moment of acceptance only; LatestIncomingIff speaks of every state.
- Delivery.SentMeansAccepted: speaks of messages still retained by the sender; all daemons run this code and start with the default history limit, and whom a daemon trusts is a map that may change in any way at any time; Daemon and TrustRuns say how it does.
- Framing.ReadBack: a stream that fails takes no further bytes, and flush errors are the same as write errors.
- IpcClient.SettledOnce: a call cancelled by its caller, and whether a waiting call is ever settled after the daemon hangs up, are not covered.
- VerificationString.HashInputBinds: endpoint ids of different lengths, which do not occur.
- Connection.TieBreakFavoursLowerDialer: the connection path (direct or relay) and the `Connecting` status carry no decision and are dropped.
- Conversation.ConversationStore.Record: the receive sequence does not wrap at 2^64.
- History listings, sorted views and status queries: reads without a decision of their own.
- TTL clamping, ticket and invite clocks beyond one comparison, config get and set, diagnostics.
- JSON payloads of IPC frames: any function from payloads to frames that tells events from responses.
- Iroh endpoints, dialing and QUIC, BLAKE3, the random generator, the keyring, constant-time comparison (plain equality here).
- Reconnect backoff and offline retry: described in docs/protocol.md:47-49, not implemented by the code.
- The command-line client, clipboard, autostart, logging, Unix sockets and named pipes.
