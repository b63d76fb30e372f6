/** One pairing session between an inviter and a joiner, step by step: request, decision, two human
    answers, two confirmations, two commits. Any write may fail (perhaps after the bytes got
    through), any read may fail or time out, and the humans may answer at any moment or never. */
module PairingSession {
  import opened Basics
  import opened Network
  import opened VerificationString

  datatype Role = Inviter | Joiner

  datatype Status = Paired | Rejected | Failed

  datatype Phase =
    | Idle
    | AwaitingDecision                       // joiner: request written
    | Counted(request: NetworkBody)          // inviter: attempt counted, entry not yet inserted
    | Admitted                               // inviter: entry inserted, decision not yet written
    | AwaitingHuman
    | Decided(local: bool)                   // the wait for the human is over
    | AwaitingPeer                           // our own yes is written
    | Settled(outcome: Result<bool, ()>)
    | Finished(status: Status)
    | Left                                   // returned before the final clean-up

  /** An entry of the pending-pairings map; `answerable` while its one-shot sender is still there. */
  datatype Entry = Entry(peerEndpointId: string, verification: string, answerable: bool)

  datatype Side = Side(
    phase: Phase,
    entry: Option<Entry>,
    answer: Option<bool>,                    // what the human answered
    local: Option<bool>,                     // what the exchange made of it
    nonce: Bytes32,
    shown: Option<string>,                   // the verification string the entry was given
    trusts: bool)

  /** A stream direction: everything written to it and how much of it has been read. */
  datatype Pipe = Pipe(sent: seq<NetworkBody>, taken: nat)

  datatype Session = Session(inviter: Side, joiner: Side, toInviter: Pipe, toJoiner: Pipe)

  /** What is fixed before the session starts. */
  datatype Terms = Terms(
    inviterId: string, joinerId: string, secret: Bytes32, hash: Hash,
    inviterName: string, inviterDevice: string, joinerName: string, joinerDevice: string)

  datatype Act =
    | SendRequest(nonce: Bytes32, ok: bool, delivered: bool)
    | Admit(admitted: bool, refusal: string, delivered: bool)
    | Enter(nonce: Bytes32)
    | SendDecision(ok: bool, delivered: bool)
    | ReadDecision(ok: bool)
    | Answer(role: Role, yes: bool)
    | HumanWait(role: Role, timedOut: bool)
    | SendConfirm(role: Role, ok: bool, delivered: bool)
    | ReadConfirm(role: Role, ok: bool)
    | Finish(role: Role)

  function NoNonce(): Bytes32 {
    seq(32, i => 0)
  }

  function FreshSide(): Side {
    Side(Idle, None, None, None, NoNonce(), None, false)
  }

  function Start(): Session {
    Session(FreshSide(), FreshSide(), Pipe([], 0), Pipe([], 0))
  }

  function Other(r: Role): Role {
    if r == Inviter then Joiner else Inviter
  }

  function SideOf(s: Session, r: Role): Side {
    if r == Inviter then s.inviter else s.joiner
  }

  function Inbox(s: Session, r: Role): Pipe {
    if r == Inviter then s.toInviter else s.toJoiner
  }

  function SetSide(s: Session, r: Role, side: Side): Session {
    if r == Inviter then s.(inviter := side) else s.(joiner := side)
  }

  function Write(s: Session, r: Role, body: NetworkBody): Session {
    if r == Inviter then s.(toJoiner := s.toJoiner.(sent := s.toJoiner.sent + [body]))
    else s.(toInviter := s.toInviter.(sent := s.toInviter.sent + [body]))
  }

  function Take(s: Session, r: Role): Session {
    if r == Inviter then s.(toInviter := s.toInviter.(taken := s.toInviter.taken + 1))
    else s.(toJoiner := s.toJoiner.(taken := s.toJoiner.taken + 1))
  }

  function Head(p: Pipe): Option<NetworkBody> {
    if p.taken < |p.sent| then Some(p.sent[p.taken]) else None
  }

  function Request(t: Terms, nonce: Bytes32): NetworkBody {
    PairRequest(t.secret, t.joinerId, t.joinerName, t.joinerDevice, nonce)
  }

  function Acceptance(t: Terms, nonce: Bytes32): NetworkBody {
    PairDecision(true, nonce, t.inviterName, t.inviterDevice, None)
  }

  function Refusal(reason: string): NetworkBody {
    PairDecision(false, NoNonce(), "", "", Some(reason))
  }

  function StatusFor(outcome: Result<bool, ()>): Status {
    match outcome
    case Ok(true) => Paired
    case Ok(false) => Rejected
    case Err(_) => Failed
  }

  function Entered(side: Side, peer: string, verification: string, phase: Phase): Side {
    side.(phase := phase, entry := Some(Entry(peer, verification, true)), shown := Some(verification))
  }

  function Next(t: Terms, s: Session, a: Act): Session {
    match a
    case SendRequest(nonce, ok, delivered) =>
      if s.joiner.phase != Idle then s
      else
        var s' := SetSide(s, Joiner, s.joiner.(phase := if ok then AwaitingDecision else Left, nonce := nonce));
        if ok || delivered then Write(s', Joiner, Request(t, nonce)) else s'
    case Admit(admitted, reason, delivered) =>
      var head := Head(s.toInviter);
      if s.inviter.phase != Idle || head.None? || !head.value.PairRequest? then s
      else
        var s' := SetSide(Take(s, Inviter), Inviter, s.inviter.(phase := if admitted then Counted(head.value) else Left));
        if !admitted && delivered then Write(s', Inviter, Refusal(reason)) else s'
    case Enter(nonce) =>
      if !s.inviter.phase.Counted? || !s.inviter.phase.request.PairRequest? then s
      else
        var req := s.inviter.phase.request;
        SetSide(s, Inviter, Entered(s.inviter.(nonce := nonce), t.joinerId,
          Derive(t.hash, t.inviterId, t.joinerId, req.inviteSecret, nonce, req.joinerNonce), Admitted))
    case SendDecision(ok, delivered) =>
      if s.inviter.phase != Admitted then s
      else
        var s' := SetSide(s, Inviter, s.inviter.(phase := if ok then AwaitingHuman else Left));
        if ok || delivered then Write(s', Inviter, Acceptance(t, s.inviter.nonce)) else s'
    case ReadDecision(ok) =>
      if s.joiner.phase != AwaitingDecision then s
      else
        var head := Head(s.toJoiner);
        if !ok then SetSide(s, Joiner, s.joiner.(phase := Left))
        else if head.None? then s
        else
          var s' := Take(s, Joiner);
          if head.value.PairDecision? && head.value.accepted then
            SetSide(s', Joiner, Entered(s.joiner, t.inviterId,
              Derive(t.hash, t.joinerId, t.inviterId, t.secret, s.joiner.nonce, head.value.inviterNonce), AwaitingHuman))
          else SetSide(s', Joiner, s.joiner.(phase := Left))
    case Answer(r, yes) =>
      var side := SideOf(s, r);
      if side.entry.Some? && side.entry.value.answerable then
        SetSide(s, r, side.(entry := Some(side.entry.value.(answerable := false)), answer := Some(yes)))
      else s
    case HumanWait(r, timedOut) =>
      var side := SideOf(s, r);
      if side.phase != AwaitingHuman || (!timedOut && side.answer.None?) then s
      else
        var local := !timedOut && side.answer == Some(true);
        SetSide(s, r, side.(phase := Decided(local), local := Some(local)))
    case SendConfirm(r, ok, delivered) =>
      var side := SideOf(s, r);
      if !side.phase.Decided? then s
      else
        var l := side.phase.local;
        var s' := SetSide(s, r, side.(phase := if !ok then Settled(Err(())) else if l then AwaitingPeer else Settled(Ok(false))));
        if ok || delivered then Write(s', r, PairConfirm(l)) else s'
    case ReadConfirm(r, ok) =>
      var side := SideOf(s, r);
      if side.phase != AwaitingPeer then s
      else
        var head := Head(Inbox(s, r));
        if !ok then SetSide(s, r, side.(phase := Settled(Err(()))))
        else if head.None? then s
        else SetSide(Take(s, r), r, side.(phase := Settled(Ok(head.value.PairConfirm? && head.value.confirmed))))
    case Finish(r) =>
      var side := SideOf(s, r);
      if !side.phase.Settled? then s
      else SetSide(s, r, side.(phase := Finished(StatusFor(side.phase.outcome)), entry := None,
                               trusts := side.phase.outcome == Ok(true)))
  }

  function Run(t: Terms, acts: seq<Act>): Session {
    if acts == [] then Start() else Next(t, Run(t, acts[..|acts| - 1]), acts[|acts| - 1])
  }

  // ------------------------------------------------------------ the exchange as one side runs it

  /** What a result of the exchange means: `answer` is the human's, if it came in time, `written`
      whether our confirmation could be written, `reply` what was read in time. */
  ghost predicate ExchangeMeans(answer: Option<bool>, written: bool, reply: Option<NetworkBody>, r: Result<bool, ()>) {
    && (r == Ok(true) <==> answer == Some(true) && written && reply == Some(PairConfirm(true)))
    && (r.Err? <==> !written || (answer == Some(true) && reply.None?))
  }

  method RunConfirmationExchange(answer: Option<bool>, written: bool, reply: Option<NetworkBody>) returns (r: Result<bool, ()>)
    ensures ExchangeMeans(answer, written, reply, r)
  {
    var localConfirmed := answer.Some? && answer.value;
    if !written {
      return Err(());
    }
    if !localConfirmed {
      return Ok(false);
    }
    if reply.None? {
      return Err(());
    }
    match reply.value {
      case PairConfirm(confirmed) => return Ok(confirmed);
      case _ => return Ok(false);
    }
  }

  /** The three steps of the exchange, taken in turn from any state, settle on a result with exactly
      that meaning; only a read that succeeds needs something to be there. */
  lemma {:induction false} ExchangeIsThreeSteps(t: Terms, s: Session, r: Role, timedOut: bool, written: bool,
                                                delivered: bool, read: bool)
    requires SideOf(s, r).phase == AwaitingHuman && (timedOut || SideOf(s, r).answer.Some?)
    requires read ==> Head(Inbox(s, r)).Some?
    ensures var s1 := Next(t, s, HumanWait(r, timedOut));
            var s2 := Next(t, s1, SendConfirm(r, written, delivered));
            var s3 := Next(t, s2, ReadConfirm(r, read));
            && SideOf(s3, r).phase.Settled?
            && ExchangeMeans(if timedOut then None else SideOf(s, r).answer, written,
                             if read then Head(Inbox(s, r)) else None, SideOf(s3, r).phase.outcome)
  {
    hide Derive;
  }

  // ---------------------------------------------------------------------------------- invariants

  /** Before the exchange of confirmations a side has written at most its opening message. */
  predicate Early(p: Phase) {
    p.AwaitingDecision? || p.AwaitingHuman? || p.Decided?
  }

  predicate Undecided(p: Phase) {
    p.Idle? || p.AwaitingDecision? || p.Counted? || p.Admitted? || p.AwaitingHuman? || p.Left?
  }

  predicate InExchange(p: Phase) {
    p.AwaitingHuman? || p.Decided? || p.AwaitingPeer?
  }

  ghost predicate Opening(t: Terms, s: Session, r: Role, body: NetworkBody) {
    if r == Joiner then body.PairRequest? && body.inviteSecret == t.secret && body.joinerNonce == s.joiner.nonce
    else
      && body.PairDecision?
      && (if body.accepted then body.inviterNonce == s.inviter.nonce && s.inviter.shown.Some?
          else s.inviter.phase.Left? && s.inviter.shown.None?)
  }

  /** What `r` has written so far. */
  ghost predicate WroteInv(t: Terms, s: Session, r: Role) {
    var side, sent := SideOf(s, r), Inbox(s, Other(r)).sent;
    && |sent| <= 2
    && (|sent| >= 1 ==> Opening(t, s, r, sent[0]))
    && (|sent| == 2 ==> sent[1].PairConfirm? && side.local == Some(sent[1].confirmed))
    && (side.phase.Idle? || side.phase.Counted? || side.phase.Admitted? ==> |sent| == 0)
    && (Early(side.phase) ==> |sent| == 1)
    && (side.phase.AwaitingPeer? ==> |sent| == 2)
    && (side.phase.Left? ==> |sent| <= 1)
  }

  /** How much `r` has read so far. */
  ghost predicate ReadInv(s: Session, r: Role) {
    var side, p := SideOf(s, r), Inbox(s, r);
    && p.taken <= |p.sent|
    && (side.phase.Idle? || side.phase.AwaitingDecision? ==> p.taken == 0)
    && (InExchange(side.phase) || side.phase.Counted? || side.phase.Admitted? ==> p.taken == 1)
  }

  ghost predicate DecisionInv(s: Session, r: Role) {
    var side, other := SideOf(s, r), SideOf(s, Other(r));
    && (side.local == Some(true) ==> side.answer == Some(true))
    && (side.phase.Decided? ==> side.local == Some(side.phase.local))
    && (side.phase.AwaitingPeer? ==> side.local == Some(true))
    && (Undecided(side.phase) ==> side.local == None)
    && (side.phase == Settled(Ok(true)) || side.phase == Finished(Paired) ==> side.local == Some(true) && other.local == Some(true))
    && (side.phase == Settled(Ok(false)) || side.phase == Finished(Rejected) ==> side.local == Some(false) || other.local == Some(false))
    && (side.trusts <==> side.phase == Finished(Paired))
  }

  function Agreed(t: Terms, s: Session): string {
    Derive(t.hash, t.inviterId, t.joinerId, t.secret, s.inviter.nonce, s.joiner.nonce)
  }

  ghost predicate EntryInv(t: Terms, s: Session, r: Role) {
    var side := SideOf(s, r);
    && (side.shown.Some? ==> side.shown.value == Agreed(t, s))
    && (side.entry.Some? ==> side.shown == Some(side.entry.value.verification)
                             && side.entry.value.peerEndpointId == (if r == Inviter then t.joinerId else t.inviterId))
    && (side.phase.Idle? || side.phase.AwaitingDecision? || side.phase.Counted? ==> side.shown.None?)
    && (side.entry.Some? <==> side.phase.Admitted? || InExchange(side.phase) || side.phase.Settled?
                              || (side.phase.Left? && side.shown.Some?))
    && (r == Joiner && side.phase.Left? ==> side.shown.None?)
    && (r == Joiner && side.shown.Some? ==> s.inviter.shown.Some?)
    && (r == Inviter && (side.shown.Some? || side.phase.Counted?) ==> s.joiner.phase != Idle)
    && (side.phase.Counted? ==> r == Inviter && Opening(t, s, Joiner, side.phase.request))
    && (side.phase.AwaitingDecision? ==> r == Joiner)
    && (side.phase.Admitted? ==> r == Inviter)
    && (side.answer.Some? ==> side.shown.Some? && (side.entry.Some? ==> !side.entry.value.answerable))
  }

  ghost predicate RoleInv(t: Terms, s: Session, r: Role) {
    WroteInv(t, s, r) && ReadInv(s, r) && DecisionInv(s, r) && EntryInv(t, s, r)
  }

  ghost predicate Inv(t: Terms, s: Session) {
    RoleInv(t, s, Inviter) && RoleInv(t, s, Joiner)
  }

  lemma {:induction false} SendRequestKeepsInv(t: Terms, s: Session, a: Act)
    requires Inv(t, s) && a.SendRequest?
    ensures Inv(t, Next(t, s, a))
  {
    hide Derive;
  }

  lemma {:induction false} AdmitKeepsRole(t: Terms, s: Session, a: Act, r: Role)
    requires Inv(t, s) && a.Admit?
    ensures RoleInv(t, Next(t, s, a), r)
  {
    hide Derive;
  }

  /** The inviter derives the string from exactly what the joiner sent. */
  lemma {:induction false} EnteredString(t: Terms, s: Session, a: Act)
    requires a.Enter? && s.inviter.phase.Counted? && Opening(t, s, Joiner, s.inviter.phase.request)
    ensures var s' := Next(t, s, a);
            s' == s.(inviter := Entered(s.inviter.(nonce := a.nonce), t.joinerId, Agreed(t, s'), Admitted))
  {
    hide Derive;
  }

  lemma {:induction false} EnterKeepsRole(t: Terms, s: Session, a: Act, r: Role)
    requires Inv(t, s) && a.Enter?
    ensures RoleInv(t, Next(t, s, a), r)
  {
    hide Derive, Agreed;
    if s.inviter.phase.Counted? {
      EnteredString(t, s, a);
      hide Next;
    }
  }

  lemma {:induction false} SendDecisionKeepsInv(t: Terms, s: Session, a: Act)
    requires Inv(t, s) && a.SendDecision?
    ensures Inv(t, Next(t, s, a))
  {
    hide Derive;
  }

  lemma {:induction false} ReadDecisionKeepsInv(t: Terms, s: Session, a: Act)
    requires Inv(t, s) && a.ReadDecision?
    ensures Inv(t, Next(t, s, a))
  {
    hide Derive;
    DeriveIsSymmetric(t.hash, t.inviterId, t.joinerId, t.secret, s.inviter.nonce, s.joiner.nonce);
  }

  lemma {:induction false} AnswerKeepsPipes(t: Terms, s: Session, a: Act, r: Role)
    requires Inv(t, s) && a.Answer?
    ensures WroteInv(t, Next(t, s, a), r) && ReadInv(Next(t, s, a), r)
  {
    hide Derive, DecisionInv;
  }

  lemma {:induction false} AnswerKeepsSides(t: Terms, s: Session, a: Act, r: Role)
    requires Inv(t, s) && a.Answer?
    ensures DecisionInv(Next(t, s, a), r) && EntryInv(t, Next(t, s, a), r)
  {
    hide Derive, WroteInv, ReadInv;
  }

  lemma {:induction false} AnswerKeepsRole(t: Terms, s: Session, a: Act, r: Role)
    requires Inv(t, s) && a.Answer?
    ensures RoleInv(t, Next(t, s, a), r)
  {
    hide Inv, Next, WroteInv, ReadInv, DecisionInv, EntryInv;
    AnswerKeepsPipes(t, s, a, r);
    AnswerKeepsSides(t, s, a, r);
  }

  lemma {:induction false} HumanWaitKeepsInv(t: Terms, s: Session, a: Act)
    requires Inv(t, s) && a.HumanWait?
    ensures Inv(t, Next(t, s, a))
  {
    hide Derive, Request, Acceptance;
  }

  lemma {:induction false} SendConfirmKeepsPipes(t: Terms, s: Session, a: Act, r: Role)
    requires Inv(t, s) && a.SendConfirm?
    ensures WroteInv(t, Next(t, s, a), r) && ReadInv(Next(t, s, a), r)
  {
    hide Derive;
  }

  lemma {:induction false} SendConfirmKeepsSides(t: Terms, s: Session, a: Act, r: Role)
    requires Inv(t, s) && a.SendConfirm?
    ensures DecisionInv(Next(t, s, a), r) && EntryInv(t, Next(t, s, a), r)
  {
    hide Derive, WroteInv, ReadInv;
  }

  lemma {:induction false} SendConfirmKeepsRole(t: Terms, s: Session, a: Act, r: Role)
    requires Inv(t, s) && a.SendConfirm?
    ensures RoleInv(t, Next(t, s, a), r)
  {
    hide Inv, Next, WroteInv, ReadInv, DecisionInv, EntryInv;
    SendConfirmKeepsPipes(t, s, a, r);
    SendConfirmKeepsSides(t, s, a, r);
  }

  lemma {:induction false} ReadConfirmKeepsPipes(t: Terms, s: Session, a: Act, r: Role)
    requires Inv(t, s) && a.ReadConfirm?
    ensures WroteInv(t, Next(t, s, a), r) && ReadInv(Next(t, s, a), r)
  {
    hide Derive, DecisionInv;
  }

  lemma {:induction false} ReadConfirmKeepsSides(t: Terms, s: Session, a: Act, r: Role)
    requires Inv(t, s) && a.ReadConfirm?
    ensures DecisionInv(Next(t, s, a), r) && EntryInv(t, Next(t, s, a), r)
  {
    hide Derive;
  }

  lemma {:induction false} ReadConfirmKeepsRole(t: Terms, s: Session, a: Act, r: Role)
    requires Inv(t, s) && a.ReadConfirm?
    ensures RoleInv(t, Next(t, s, a), r)
  {
    hide Inv, Next, WroteInv, ReadInv, DecisionInv, EntryInv;
    ReadConfirmKeepsPipes(t, s, a, r);
    ReadConfirmKeepsSides(t, s, a, r);
  }

  lemma {:induction false} FinishKeepsPipes(t: Terms, s: Session, a: Act, r: Role)
    requires Inv(t, s) && a.Finish?
    ensures WroteInv(t, Next(t, s, a), r) && ReadInv(Next(t, s, a), r)
  {
    hide Derive, DecisionInv;
  }

  lemma {:induction false} FinishKeepsSides(t: Terms, s: Session, a: Act, r: Role)
    requires Inv(t, s) && a.Finish?
    ensures DecisionInv(Next(t, s, a), r) && EntryInv(t, Next(t, s, a), r)
  {
    hide Derive, WroteInv, ReadInv;
  }

  lemma {:induction false} FinishKeepsRole(t: Terms, s: Session, a: Act, r: Role)
    requires Inv(t, s) && a.Finish?
    ensures RoleInv(t, Next(t, s, a), r)
  {
    hide Inv, Next, WroteInv, ReadInv, DecisionInv, EntryInv;
    FinishKeepsPipes(t, s, a, r);
    FinishKeepsSides(t, s, a, r);
  }

  lemma {:induction false} NextKeepsInv(t: Terms, s: Session, a: Act)
    requires Inv(t, s)
    ensures Inv(t, Next(t, s, a))
  {
    hide RoleInv, Next;
    match a
    case SendRequest(_, _, _) => SendRequestKeepsInv(t, s, a);
    case Admit(_, _, _) => AdmitKeepsRole(t, s, a, Inviter); AdmitKeepsRole(t, s, a, Joiner);
    case Enter(_) => EnterKeepsRole(t, s, a, Inviter); EnterKeepsRole(t, s, a, Joiner);
    case SendDecision(_, _) => SendDecisionKeepsInv(t, s, a);
    case ReadDecision(_) => ReadDecisionKeepsInv(t, s, a);
    case Answer(_, _) => AnswerKeepsRole(t, s, a, Inviter); AnswerKeepsRole(t, s, a, Joiner);
    case HumanWait(_, _) => HumanWaitKeepsInv(t, s, a);
    case SendConfirm(_, _, _) => SendConfirmKeepsRole(t, s, a, Inviter); SendConfirmKeepsRole(t, s, a, Joiner);
    case ReadConfirm(_, _) => ReadConfirmKeepsRole(t, s, a, Inviter); ReadConfirmKeepsRole(t, s, a, Joiner);
    case Finish(_) => FinishKeepsRole(t, s, a, Inviter); FinishKeepsRole(t, s, a, Joiner);
  }

  lemma {:induction false} RunKeepsInv(t: Terms, acts: seq<Act>)
    ensures Inv(t, Run(t, acts))
  {
    if acts != [] {
      RunKeepsInv(t, acts[..|acts| - 1]);
      hide Inv, Next;
      NextKeepsInv(t, Run(t, acts[..|acts| - 1]), acts[|acts| - 1]);
    }
  }

  // ------------------------------------------------------------------------------- what it means

  lemma {:induction false} CommitNeedsBothYes(t: Terms, s: Session, r: Role)
    requires Inv(t, s)
    requires SideOf(s, r).phase == Settled(Ok(true)) || SideOf(s, r).phase == Finished(Paired)
    ensures s.inviter.answer == Some(true) && s.joiner.answer == Some(true)
    ensures s.inviter.shown.Some? && s.inviter.shown == s.joiner.shown
  {
    hide WroteInv, ReadInv, Agreed;
  }

  /** In every run a side trusts the other only if both humans answered yes, to the same string. */
  lemma {:induction false} TrustNeedsBothYes(t: Terms, acts: seq<Act>, r: Role)
    ensures var s := Run(t, acts);
            SideOf(s, r).trusts ==>
              && s.inviter.answer == Some(true) && s.joiner.answer == Some(true)
              && s.inviter.shown.Some? && s.inviter.shown == s.joiner.shown
  {
    RunKeepsInv(t, acts);
    hide Run, WroteInv, ReadInv, EntryInv;
    if SideOf(Run(t, acts), r).trusts { CommitNeedsBothYes(t, Run(t, acts), r); }
  }

  /** No run ends with one side paired and the other rejected: beside a paired side the other is
      paired too, failed, or has not finished. */
  lemma {:induction false} NeverPairedAgainstRejected(t: Terms, acts: seq<Act>, r: Role)
    ensures var s := Run(t, acts);
            SideOf(s, r).phase == Finished(Paired) ==>
              && SideOf(s, Other(r)).phase != Finished(Rejected)
              && SideOf(s, Other(r)).phase != Left
  {
    RunKeepsInv(t, acts);
    hide Run, WroteInv, ReadInv, EntryInv;
  }

  predicate WritesConfirm(s: Session, a: Act, r: Role) {
    a.SendConfirm? && a.role == r && a.ok && SideOf(s, r).phase.Decided?
  }

  predicate ReadsConfirm(s: Session, a: Act, r: Role) {
    a == ReadConfirm(r, true) && SideOf(s, r).phase.AwaitingPeer? && Head(Inbox(s, r)).Some?
  }

  /** At some step of the run `r` wrote its confirmation, and the write was reported as done. */
  predicate ConfirmWritten(t: Terms, acts: seq<Act>, r: Role) {
    exists i :: 0 <= i < |acts| && WritesConfirm(Run(t, acts[..i]), acts[i], r)
  }

  /** At some step of the run `r` read the other side's answer in time. */
  predicate ConfirmRead(t: Terms, acts: seq<Act>, r: Role) {
    exists i :: 0 <= i < |acts| && ReadsConfirm(Run(t, acts[..i]), acts[i], r)
  }

  /** What the phase of a side tells about its own write and read. */
  ghost predicate ExchangeInv(side: Side, wrote: bool, read: bool) {
    && (Undecided(side.phase) || side.phase.Decided? ==> !wrote && !read)
    && (side.phase.AwaitingPeer? ==> wrote && !read)
    && (side.phase == Settled(Ok(true)) || side.phase == Finished(Paired) ==> wrote && read)
    && ((side.phase.Settled? && side.phase.outcome.Err?) || side.phase == Finished(Failed) ==> !(wrote && read))
  }

  lemma {:induction false} NextKeepsExchangeInv(t: Terms, s: Session, a: Act, r: Role, wrote: bool, read: bool)
    requires ExchangeInv(SideOf(s, r), wrote, read)
    ensures ExchangeInv(SideOf(Next(t, s, a), r), wrote || WritesConfirm(s, a, r), read || ReadsConfirm(s, a, r))
  {
    hide Derive;
  }

  lemma {:induction false} LastConfirm(t: Terms, acts: seq<Act>, r: Role)
    requires acts != []
    ensures var before, a := acts[..|acts| - 1], acts[|acts| - 1];
            && (ConfirmWritten(t, acts, r) <==> ConfirmWritten(t, before, r) || WritesConfirm(Run(t, before), a, r))
            && (ConfirmRead(t, acts, r) <==> ConfirmRead(t, before, r) || ReadsConfirm(Run(t, before), a, r))
  {
    hide Run, WritesConfirm, ReadsConfirm;
    var before := acts[..|acts| - 1];
    forall i | 0 <= i < |acts| ensures acts[..i] == before[..i] {}
    assert before[..|before|] == before;
    if i :| 0 <= i < |before| && WritesConfirm(Run(t, before[..i]), before[i], r) {
      assert WritesConfirm(Run(t, acts[..i]), acts[i], r);
    }
    if i :| 0 <= i < |before| && ReadsConfirm(Run(t, before[..i]), before[i], r) {
      assert ReadsConfirm(Run(t, acts[..i]), acts[i], r);
    }
    if WritesConfirm(Run(t, before), acts[|before|], r) { assert acts[..|before|] == before; }
    if ReadsConfirm(Run(t, before), acts[|before|], r) { assert acts[..|before|] == before; }
  }

  lemma {:induction false} RunKeepsExchangeInv(t: Terms, acts: seq<Act>, r: Role)
    ensures ExchangeInv(SideOf(Run(t, acts), r), ConfirmWritten(t, acts, r), ConfirmRead(t, acts, r))
  {
    if acts != [] {
      hide Next, ExchangeInv, ConfirmWritten, ConfirmRead, WritesConfirm, ReadsConfirm;
      var before := acts[..|acts| - 1];
      RunKeepsExchangeInv(t, before, r);
      LastConfirm(t, acts, r);
      NextKeepsExchangeInv(t, Run(t, before), acts[|acts| - 1], r, ConfirmWritten(t, before, r), ConfirmRead(t, before, r));
    }
  }

  /** Exactly when a commit is one-sided: beside a paired side, the other side once finished is paired
      if both its own confirmation was written and its read succeeded, and failed otherwise. */
  lemma {:induction false} OtherSidePairedIff(t: Terms, acts: seq<Act>, r: Role)
    requires SideOf(Run(t, acts), r).phase == Finished(Paired)
    requires SideOf(Run(t, acts), Other(r)).phase.Finished?
    ensures SideOf(Run(t, acts), Other(r)).phase ==
            Finished(if ConfirmWritten(t, acts, Other(r)) && ConfirmRead(t, acts, Other(r)) then Paired else Failed)
  {
    hide Run, ConfirmWritten, ConfirmRead;
    RunKeepsExchangeInv(t, acts, Other(r));
    NeverPairedAgainstRejected(t, acts, r);
    match SideOf(Run(t, acts), Other(r)).phase.status
    case Paired =>
    case Rejected =>
    case Failed =>
  }

  /** Both humans are shown the same string, and it is the one derived from the ids, the secret and
      the two nonces of this session. */
  lemma {:induction false} VerificationStringsAgree(t: Terms, acts: seq<Act>)
    ensures var s := Run(t, acts);
            && (s.inviter.entry.Some? && s.joiner.entry.Some? ==>
                  s.inviter.entry.value.verification == s.joiner.entry.value.verification)
            && (s.inviter.shown.Some? ==> s.inviter.shown.value == Agreed(t, s))
            && (s.joiner.shown.Some? ==> s.joiner.shown.value == Agreed(t, s))
  {
    RunKeepsInv(t, acts);
    hide Run, WroteInv, ReadInv, DecisionInv, Agreed;
  }

  /** Once a session has reached the exchange of confirmations and ended, its pending entry is gone.
      The only entry ever left behind is that of an inviter whose decision could not be written. */
  lemma {:induction false} EntriesAreCleanedUp(t: Terms, acts: seq<Act>, r: Role)
    ensures var side := SideOf(Run(t, acts), r);
            && (side.phase.Finished? ==> side.entry.None?)
            && (side.phase.Left? ==> (side.entry.Some? <==> r == Inviter && side.shown.Some?))
  {
    RunKeepsInv(t, acts);
    hide Run, WroteInv, ReadInv, DecisionInv, Agreed;
  }

  /** An orphaned entry: the inviter has left and its entry is still in the map. */
  ghost predicate Orphaned(s: Session, entry: Entry) {
    && s.inviter.phase.Left? && s.inviter.entry.Some?
    && s.inviter.entry.value.peerEndpointId == entry.peerEndpointId
    && s.inviter.entry.value.verification == entry.verification
  }

  lemma {:induction false} OrphanStays(t: Terms, s: Session, a: Act, entry: Entry)
    requires Orphaned(s, entry)
    ensures Orphaned(Next(t, s, a), entry)
  {
    hide Derive;
  }

  /** An orphaned entry stays whatever happens: a late answer takes its one-shot sender, nothing
      takes the entry away. */
  lemma {:induction false} OrphansStay(t: Terms, acts: seq<Act>, more: seq<Act>, entry: Entry)
    requires Orphaned(Run(t, acts), entry)
    ensures Orphaned(Run(t, acts + more), entry)
  {
    if more == [] {
      assert acts + more == acts;
    } else {
      assert (acts + more)[..|acts + more| - 1] == acts + more[..|more| - 1];
      assert Run(t, acts + more) == Next(t, Run(t, acts + more[..|more| - 1]), more[|more| - 1]);
      OrphansStay(t, acts, more[..|more| - 1], entry);
      hide Run, Next;
      OrphanStays(t, Run(t, acts + more[..|more| - 1]), more[|more| - 1], entry);
    }
  }

  /** The write of the decision is reported as failed. */
  predicate LosesDecision(s: Session, a: Act) {
    a.SendDecision? && !a.ok && s.inviter.phase.Admitted?
  }

  ghost predicate DecisionLost(t: Terms, acts: seq<Act>) {
    exists i :: 0 <= i < |acts| && LosesDecision(Run(t, acts[..i]), acts[i])
  }

  lemma {:induction false} LastDecision(t: Terms, acts: seq<Act>)
    requires acts != []
    ensures var before := acts[..|acts| - 1];
            DecisionLost(t, acts) <==> DecisionLost(t, before) || LosesDecision(Run(t, before), acts[|acts| - 1])
  {
    hide Run, LosesDecision;
    var before := acts[..|acts| - 1];
    forall i | 0 <= i < |acts| ensures acts[..i] == before[..i] {}
    assert before[..|before|] == before && acts[..|before|] == before;
    if i :| 0 <= i < |before| && LosesDecision(Run(t, before[..i]), before[i]) {
      assert LosesDecision(Run(t, acts[..i]), acts[i]);
    }
  }

  lemma {:induction false} OrphanStep(t: Terms, s: Session, a: Act)
    requires Inv(t, s)
    ensures var s' := Next(t, s, a);
            s'.inviter.phase.Left? && s'.inviter.entry.Some? <==>
            (s.inviter.phase.Left? && s.inviter.entry.Some?) || LosesDecision(s, a)
  {
    hide Derive, Agreed, WroteInv, ReadInv, DecisionInv;
  }

  /** An entry is orphaned exactly when the write of the decision was reported as failed. */
  lemma {:induction false} OrphanedIff(t: Terms, acts: seq<Act>)
    ensures var s := Run(t, acts);
            s.inviter.phase.Left? && s.inviter.entry.Some? <==> DecisionLost(t, acts)
  {
    if acts != [] {
      hide Next, Inv, DecisionLost, LosesDecision;
      var before := acts[..|acts| - 1];
      OrphanedIff(t, before);
      RunKeepsInv(t, before);
      LastDecision(t, acts);
      OrphanStep(t, Run(t, before), acts[|acts| - 1]);
    }
  }

  /** It happens: the decision cannot be written, or its writing is reported as failed. */
  lemma {:induction false} OrphanIsPossible(t: Terms, n: Bytes32, m: Bytes32, delivered: bool)
    ensures exists s, entry :: Reachable(t, s) && Orphaned(s, entry)
  {
    var s := RequestEntered(t, n, m);
    hide Reachable, Request, Acceptance;
    s := ReachNext(t, s, SendDecision(false, delivered));
    assert Orphaned(s, s.inviter.entry.value);
  }

  /** The one-shot answer: taken once, and kept for ever after. */
  lemma {:induction false} NextKeepsAnswers(t: Terms, s: Session, a: Act, r: Role)
    requires Inv(t, s)
    ensures var side, side' := SideOf(s, r), SideOf(Next(t, s, a), r);
            && (side.answer.Some? ==> side'.answer == side.answer)
            && (side.local.Some? ==> side'.local == side.local)
            && (side.phase.Finished? ==> side'.phase == side.phase && side'.trusts == side.trusts)
  {
    hide Derive, Agreed, WroteInv, ReadInv;
  }

  lemma {:induction false} AnswersAreFinal(t: Terms, acts: seq<Act>, a: Act, r: Role)
    ensures var side, side' := SideOf(Run(t, acts), r), SideOf(Run(t, acts + [a]), r);
            && (side.answer.Some? ==> side'.answer == side.answer)
            && (side.local.Some? ==> side'.local == side.local)
            && (side.phase.Finished? ==> side'.phase == side.phase && side'.trusts == side.trusts)
  {
    assert (acts + [a])[..|acts|] == acts;
    hide Inv, Next, Derive;
    RunKeepsInv(t, acts);
    NextKeepsAnswers(t, Run(t, acts), a, r);
  }

  // ----------------------------------------------------------------------- what can really happen

  ghost predicate Reachable(t: Terms, s: Session) {
    exists acts :: Run(t, acts) == s
  }

  lemma {:induction false} ReachNext(t: Terms, s: Session, a: Act) returns (s': Session)
    requires Reachable(t, s)
    ensures s' == Next(t, s, a) && Reachable(t, s')
  {
    hide Next;
    var acts :| Run(t, acts) == s;
    assert (acts + [a])[..|acts|] == acts;
    s' := Next(t, s, a);
    assert Run(t, acts + [a]) == s';
  }

  /** Requested, counted and entered: the inviter is about to write its decision. */
  lemma {:induction false} RequestEntered(t: Terms, n: Bytes32, m: Bytes32) returns (s: Session)
    ensures Reachable(t, s) && s.inviter.phase == Admitted && s.joiner.phase == AwaitingDecision
    ensures s.inviter.entry.Some? && s.inviter.entry.value.answerable && s.inviter.nonce == m && s.inviter.shown.Some?
    ensures s.toInviter == Pipe([Request(t, n)], 1) && s.toJoiner == Pipe([], 0)
  {
    hide Derive;
    assert Run(t, []) == Start();
    s := ReachNext(t, Start(), SendRequest(n, true, true));
    s := ReachNext(t, s, Admit(true, "", true));
    s := ReachNext(t, s, Enter(m));
  }

  /** Decided without a failure: both humans are being asked. */
  lemma {:induction false} BothAreAsked(t: Terms, n: Bytes32, m: Bytes32) returns (s: Session)
    ensures Reachable(t, s) && s.inviter.phase == AwaitingHuman && s.joiner.phase == AwaitingHuman
    ensures s.inviter.entry.Some? && s.inviter.entry.value.answerable
    ensures s.joiner.entry.Some? && s.joiner.entry.value.answerable
    ensures s.toInviter == Pipe([Request(t, n)], 1) && s.toJoiner == Pipe([Acceptance(t, m)], 1)
  {
    hide Derive;
    s := RequestEntered(t, n, m);
    hide Reachable, Request;
    s := ReachNext(t, s, SendDecision(true, true));
    s := ReachNext(t, s, ReadDecision(true));
  }

  /** Both say yes and both confirmations are written. */
  lemma {:induction false} BothConfirm(t: Terms, n: Bytes32, m: Bytes32) returns (s: Session)
    ensures Reachable(t, s) && s.inviter.phase == AwaitingPeer && s.joiner.phase == AwaitingPeer
    ensures s.toInviter == Pipe([Request(t, n), PairConfirm(true)], 1)
    ensures s.toJoiner == Pipe([Acceptance(t, m), PairConfirm(true)], 1)
  {
    s := BothAreAsked(t, n, m);
    hide Reachable, Request, Acceptance;
    s := ReachNext(t, s, Answer(Inviter, true));
    s := ReachNext(t, s, Answer(Joiner, true));
    s := ReachNext(t, s, HumanWait(Inviter, false));
    s := ReachNext(t, s, HumanWait(Joiner, false));
    s := ReachNext(t, s, SendConfirm(Inviter, true, true));
    s := ReachNext(t, s, SendConfirm(Joiner, true, true));
  }

  /** Both outcomes happen: without a failure both sides commit, and when the joiner never gets the
      inviter's confirmation only the inviter does, against a failed joiner. */
  lemma {:induction false} OneSidedCommitIsPossible(t: Terms, n: Bytes32, m: Bytes32, received: bool)
    ensures exists s :: Reachable(t, s) && s.inviter.phase == Finished(Paired)
                        && s.joiner.phase == Finished(if received then Paired else Failed)
  {
    var s := BothConfirm(t, n, m);
    hide Reachable, Request, Acceptance;
    s := ReachNext(t, s, ReadConfirm(Inviter, true));
    s := ReachNext(t, s, ReadConfirm(Joiner, received));
    s := ReachNext(t, s, Finish(Inviter));
    s := ReachNext(t, s, Finish(Joiner));
  }

  /** What the opening messages carry, field by field. */
  lemma {:induction false} OpeningMessagesSay(t: Terms, nonce: Bytes32, reason: string)
    ensures var m := Request(t, nonce);
            && m.PairRequest? && m.inviteSecret == t.secret && m.joinerEndpointId == t.joinerId && m.joinerNonce == nonce
            && m.joinerDisplayName == t.joinerName && m.joinerDeviceName == t.joinerDevice
    ensures var m := Acceptance(t, nonce);
            && m.PairDecision? && m.accepted && m.inviterNonce == nonce && m.errorCode == None
            && m.inviterDisplayName == t.inviterName && m.inviterDeviceName == t.inviterDevice
    ensures var m := Refusal(reason);
            && m.PairDecision? && !m.accepted && m.errorCode == Some(reason)
            && m.inviterNonce == seq(32, _ => 0) && m.inviterDisplayName == "" && m.inviterDeviceName == ""
  {}

  /** What is reported of each result: a yes as paired, a no as rejected, a failure as failed. */
  lemma {:induction false} FinishReports(t: Terms, s: Session, r: Role)
    requires SideOf(s, r).phase.Settled?
    ensures var outcome, side := SideOf(s, r).phase.outcome, SideOf(Next(t, s, Finish(r)), r);
            && (side.phase == Finished(Paired) <==> outcome == Ok(true))
            && (side.phase == Finished(Rejected) <==> outcome == Ok(false))
            && (side.phase == Finished(Failed) <==> outcome.Err?)
            && (side.trusts <==> outcome == Ok(true))
  {
    hide Derive;
  }
}
