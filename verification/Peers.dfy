/** Trusted peers: alias rules, the fresh-alias generator and the identifier resolver. */
module Peers {
  import opened Basics

  datatype TrustedPeer = TrustedPeer(
    endpointId: string, alias: string, displayName: string, deviceName: string, pairedAt: string)

  datatype AliasError = InvalidLength | ContainsControlChars | DuplicateAlias(alias: string)

  datatype Resolved = Found(peer: TrustedPeer) | NotFound | Ambiguous(matches: seq<TrustedPeer>)

  // -------------------------------------------------------------------------------------- strings

  /** The Unicode `White_Space` property. */
  predicate IsWhitespace(c: char) {
    var n := c as int;
    0x09 <= n <= 0x0D || n == 0x20 || n == 0x85 || n == 0xA0 || n == 0x1680 || 0x2000 <= n <= 0x200A
    || n == 0x2028 || n == 0x2029 || n == 0x202F || n == 0x205F || n == 0x3000
  }

  /** General category `Cc`. */
  predicate IsControl(c: char) {
    c as int < 0x20 || 0x7F <= c as int < 0xA0
  }

  function TrimStart(s: string): (r: string)
    ensures r == [] || !IsWhitespace(r[0])
    ensures |r| <= |s|
  {
    if s != [] && IsWhitespace(s[0]) then TrimStart(s[1..]) else s
  }

  function TrimEnd(s: string): (r: string)
    ensures r <= s
    ensures r == [] || !IsWhitespace(r[|r| - 1])
  {
    if s != [] && IsWhitespace(s[|s| - 1]) then TrimEnd(s[..|s| - 1]) else s
  }

  function Trim(s: string): string {
    TrimEnd(TrimStart(s))
  }

  function FoldChar(c: char): char {
    if 'A' <= c <= 'Z' then (c as int + 32) as char else c
  }

  function Fold(s: string): (r: string)
    ensures |r| == |s|
    ensures forall i :: 0 <= i < |s| ==> r[i] == FoldChar(s[i])
  {
    seq(|s|, i requires 0 <= i < |s| => FoldChar(s[i]))
  }

  predicate SameIgnoringCase(a: string, b: string) {
    Fold(a) == Fold(b)
  }

  function Decimal(n: nat): (s: string)
    ensures s != []
    ensures forall i :: 0 <= i < |s| ==> '0' <= s[i] <= '9'
  {
    if n < 10 then [('0' as int + n) as char] else Decimal(n / 10) + [('0' as int + n % 10) as char]
  }

  // ------------------------------------------------------------------------------------ the rules

  function ValidateAlias(candidate: string): Result<string, AliasError> {
    var trimmed := Trim(candidate);
    if !(1 <= |trimmed| <= 32) then Err(InvalidLength)
    else if exists i :: 0 <= i < |trimmed| && IsControl(trimmed[i]) then Err(ContainsControlChars)
    else Ok(trimmed)
  }

  function FindAlias(peers: seq<TrustedPeer>, alias: string): (i: nat)
    ensures i <= |peers|
    ensures i < |peers| ==> SameIgnoringCase(peers[i].alias, alias)
    ensures forall j :: 0 <= j < i ==> !SameIgnoringCase(peers[j].alias, alias)
  {
    if peers == [] || SameIgnoringCase(peers[0].alias, alias) then 0 else 1 + FindAlias(peers[1..], alias)
  }

  predicate Taken(peers: seq<TrustedPeer>, alias: string) {
    FindAlias(peers, alias) < |peers|
  }

  function Base(displayName: string): (base: string)
    ensures 1 <= |base| <= 28
  {
    var trimmed := Trim(displayName);
    if trimmed == [] then "Peer" else if |trimmed| <= 28 then trimmed else trimmed[..28]
  }

  function Candidate(base: string, n: nat): string {
    if n <= 1 then base else base + "-" + Decimal(n)
  }

  /** The first free candidate from the n-th on, 1000 when all up to the 999th are taken. */
  function FirstFree(peers: seq<TrustedPeer>, base: string, n: nat): (m: nat)
    requires n <= 1000
    ensures n <= m <= 1000
    ensures forall k :: n <= k < m ==> Taken(peers, Candidate(base, k))
    ensures m < 1000 ==> !Taken(peers, Candidate(base, m))
    decreases 1000 - n
  {
    if n == 1000 || !Taken(peers, Candidate(base, n)) then n else FirstFree(peers, base, n + 1)
  }

  function AliasFor(peers: seq<TrustedPeer>, displayName: string, uuid: string): string {
    var base := Base(displayName);
    var n := FirstFree(peers, base, 1);
    if n < 1000 then Candidate(base, n) else base + "-" + uuid
  }

  method UniqueAlias(peers: seq<TrustedPeer>, displayName: string, uuid: string) returns (alias: string)
    ensures alias == AliasFor(peers, displayName, uuid)
  {
    var base := Base(displayName);
    if !Taken(peers, base) {
      return base;
    }
    var n := 2;
    while n < 1000
      invariant 2 <= n <= 1000
      invariant FirstFree(peers, base, 1) == FirstFree(peers, base, n)
    {
      var candidate := base + "-" + Decimal(n);
      if !Taken(peers, candidate) {
        return candidate;
      }
      n := n + 1;
    }
    return base + "-" + uuid;
  }

  function Without(peers: seq<TrustedPeer>, endpointId: string): (r: seq<TrustedPeer>)
    ensures |r| <= |peers|
  {
    if peers == [] then []
    else if peers[0].endpointId == endpointId then Without(peers[1..], endpointId)
    else [peers[0]] + Without(peers[1..], endpointId)
  }

  function FindEndpoint(peers: seq<TrustedPeer>, endpointId: string): (i: nat)
    ensures i <= |peers|
    ensures i < |peers| ==> peers[i].endpointId == endpointId
    ensures forall j :: 0 <= j < i ==> peers[j].endpointId != endpointId
  {
    if peers == [] || peers[0].endpointId == endpointId then 0 else 1 + FindEndpoint(peers[1..], endpointId)
  }

  predicate UsedByAnother(peers: seq<TrustedPeer>, endpointId: string, alias: string) {
    exists i :: 0 <= i < |peers| && peers[i].endpointId != endpointId && SameIgnoringCase(peers[i].alias, alias)
  }

  function SetAlias(peers: seq<TrustedPeer>, endpointId: string, alias: string): (r: seq<TrustedPeer>)
    ensures |r| == |peers|
  {
    var i := FindEndpoint(peers, endpointId);
    if i < |peers| then peers[i := peers[i].(alias := alias)] else peers
  }

  function RenameResult(peers: seq<TrustedPeer>, endpointId: string, newAlias: string): Result<string, AliasError> {
    var valid := ValidateAlias(newAlias);
    if valid.Err? then valid
    else if UsedByAnother(peers, endpointId, valid.value) then Err(DuplicateAlias(valid.value))
    else valid
  }

  function AfterRename(peers: seq<TrustedPeer>, endpointId: string, newAlias: string): (r: seq<TrustedPeer>)
    ensures |r| == |peers|
  {
    var result := RenameResult(peers, endpointId, newAlias);
    if result.Ok? then SetAlias(peers, endpointId, result.value) else peers
  }

  function AfterAdd(peers: seq<TrustedPeer>, endpointId: string, displayName: string, deviceName: string,
                    pairedAt: string, uuid: string): seq<TrustedPeer> {
    peers + [TrustedPeer(endpointId, AliasFor(peers, displayName, uuid), displayName, deviceName, pairedAt)]
  }

  function WithPrefix(peers: seq<TrustedPeer>, identifier: string): (r: seq<TrustedPeer>)
  {
    if peers == [] then []
    else if identifier <= peers[0].endpointId then [peers[0]] + WithPrefix(peers[1..], identifier)
    else WithPrefix(peers[1..], identifier)
  }

  function Resolve(peers: seq<TrustedPeer>, identifier: string): Resolved {
    var i := FindAlias(peers, identifier);
    if i < |peers| then Found(peers[i])
    else
      var matches := WithPrefix(peers, identifier);
      if |matches| == 0 then NotFound else if |matches| == 1 then Found(matches[0]) else Ambiguous(matches)
  }

  /** The trusted-peer vector of the configuration. */
  class PeerBook {
    var peers: seq<TrustedPeer>

    constructor (peers: seq<TrustedPeer>)
      ensures this.peers == peers
    {
      this.peers := peers;
    }

    method Add(endpointId: string, displayName: string, deviceName: string, pairedAt: string, uuid: string)
      returns (alias: string)
      modifies this
      ensures alias == AliasFor(old(peers), displayName, uuid)
      ensures peers == AfterAdd(old(peers), endpointId, displayName, deviceName, pairedAt, uuid)
    {
      alias := UniqueAlias(peers, displayName, uuid);
      peers := peers + [TrustedPeer(endpointId, alias, displayName, deviceName, pairedAt)];
    }

    method Rename(endpointId: string, newAlias: string) returns (r: Result<string, AliasError>)
      modifies this
      ensures r == RenameResult(old(peers), endpointId, newAlias)
      ensures peers == AfterRename(old(peers), endpointId, newAlias)
    {
      var valid := ValidateAlias(newAlias);
      if valid.Err? {
        return valid;
      }
      if UsedByAnother(peers, endpointId, valid.value) {
        return Err(DuplicateAlias(valid.value));
      }
      var i := FindEndpoint(peers, endpointId);
      if i < |peers| {
        peers := peers[i := peers[i].(alias := valid.value)];
      }
      return valid;
    }

    method Remove(endpointId: string) returns (removed: bool)
      modifies this
      ensures peers == Without(old(peers), endpointId)
      ensures removed <==> exists i :: 0 <= i < |old(peers)| && old(peers)[i].endpointId == endpointId
    {
      var before := |peers|;
      RemovedIff(peers, endpointId);
      peers := Without(peers, endpointId);
      removed := |peers| != before;
    }
  }

  // --------------------------------------------------------------------------- the fresh alias

  lemma {:induction false} DecimalInjective(a: nat, b: nat)
    requires Decimal(a) == Decimal(b)
    ensures a == b
  {
    var s, t := Decimal(a), Decimal(b);
    assert |s| == 1 <==> a < 10;
    assert |t| == 1 <==> b < 10;
    if a >= 10 && b >= 10 {
      assert s[..|s| - 1] == Decimal(a / 10) && t[..|t| - 1] == Decimal(b / 10);
      DecimalInjective(a / 10, b / 10);
      assert s[|s| - 1] == t[|t| - 1];
    }
  }

  lemma {:induction false} CandidatesDiffer(base: string, m: nat, n: nat)
    requires 1 <= m < n
    ensures !SameIgnoringCase(Candidate(base, m), Candidate(base, n))
  {
    var b := Fold(base);
    FoldSuffix(base, n);
    if m == 1 {
      assert |Candidate(base, n)| > |base|;
    } else {
      FoldSuffix(base, m);
      if b + "-" + Decimal(m) == b + "-" + Decimal(n) {
        assert (b + "-" + Decimal(m))[|b| + 1..] == Decimal(m);
        assert (b + "-" + Decimal(n))[|b| + 1..] == Decimal(n);
        DecimalInjective(m, n);
      }
    }
  }

  lemma {:induction false} FoldSuffix(base: string, n: nat)
    requires n > 1
    ensures Fold(Candidate(base, n)) == Fold(base) + "-" + Decimal(n)
  {
    var c, r := Candidate(base, n), Fold(base) + "-" + Decimal(n);
    forall i | 0 <= i < |c| ensures Fold(c)[i] == r[i] {
      if i > |base| { assert c[i] == Decimal(n)[i - |base| - 1]; }
    }
  }

  function FoldedAliases(peers: seq<TrustedPeer>): (r: set<string>)
    ensures forall i :: 0 <= i < |peers| ==> Fold(peers[i].alias) in r
    ensures |r| <= |peers|
  {
    if peers == [] then {} else {Fold(peers[0].alias)} + FoldedAliases(peers[1..])
  }

  function FoldedCandidates(base: string, k: nat): set<string> {
    if k == 0 then {} else FoldedCandidates(base, k - 1) + {Fold(Candidate(base, k))}
  }

  lemma {:induction false} CandidateCount(base: string, k: nat)
    ensures |FoldedCandidates(base, k)| == k
    ensures forall s :: s in FoldedCandidates(base, k) ==> exists n :: 1 <= n <= k && s == Fold(Candidate(base, n))
  {
    hide Fold, Candidate;
    if k > 0 {
      CandidateCount(base, k - 1);
      forall n | 1 <= n <= k - 1 ensures Fold(Candidate(base, n)) != Fold(Candidate(base, k)) {
        CandidatesDiffer(base, n, k);
      }
    }
  }

  /** Pigeonhole: as many taken candidates need as many peers. */
  lemma {:induction false} TakenCandidatesNeedPeers(peers: seq<TrustedPeer>, base: string, k: nat)
    requires forall n :: 1 <= n <= k ==> Taken(peers, Candidate(base, n))
    ensures k <= |peers|
  {
    CandidateCount(base, k);
    var names, used := FoldedCandidates(base, k), FoldedAliases(peers);
    forall s | s in names ensures s in used {
      var n :| 1 <= n <= k && s == Fold(Candidate(base, n));
      assert Taken(peers, Candidate(base, n));
    }
    SubsetSize(names, used);
  }

  lemma {:induction false} SubsetSize<T>(a: set<T>, b: set<T>)
    requires a <= b
    ensures |a| <= |b|
  {
    assert b == a + (b - a);
  }

  /** With at most 998 peers the result is the first candidate that no peer uses in any casing, one
      of the first |peers| + 1, and has 1 to 32 characters; the UUID fallback is never reached. */
  lemma {:induction false} FreshAlias(peers: seq<TrustedPeer>, displayName: string, uuid: string)
    requires |peers| <= 998
    ensures var base, alias := Base(displayName), AliasFor(peers, displayName, uuid);
            var n := FirstFree(peers, base, 1);
            && 1 <= n <= |peers| + 1 && alias == Candidate(base, n)
            && (forall k :: 1 <= k < n ==> Taken(peers, Candidate(base, k)))
            && (forall i :: 0 <= i < |peers| ==> !SameIgnoringCase(peers[i].alias, alias))
            && 1 <= |alias| <= 32
  {
    var base := Base(displayName);
    var n := FirstFree(peers, base, 1);
    TakenCandidatesNeedPeers(peers, base, n - 1);
    DecimalLength(n);
  }

  lemma {:induction false} DecimalLength(n: nat)
    ensures n < 1000 ==> |Decimal(n)| <= 3
  {
    assert n < 1000 ==> n / 10 < 100 && n / 10 / 10 < 10;
    if 100 <= n < 1000 {
      assert |Decimal(n / 10 / 10)| == 1;
      assert |Decimal(n / 10)| == 2;
    } else if 10 <= n < 100 {
      assert |Decimal(n / 10)| == 1;
    }
  }

  // ---------------------------------------------------------------------- the alias invariant

  ghost predicate AliasesDistinct(peers: seq<TrustedPeer>) {
    forall i, j :: 0 <= i < j < |peers| ==> !SameIgnoringCase(peers[i].alias, peers[j].alias)
  }

  ghost predicate EndpointsDistinct(peers: seq<TrustedPeer>) {
    forall i, j :: 0 <= i < j < |peers| ==> peers[i].endpointId != peers[j].endpointId
  }

  /** Adding keeps aliases distinct; only past 998 peers does that lean on the UUID being new. */
  lemma {:induction false} AddKeepsAliasesDistinct(peers: seq<TrustedPeer>, endpointId: string, displayName: string,
                                                   deviceName: string, pairedAt: string, uuid: string)
    requires AliasesDistinct(peers)
    requires |peers| <= 998 || !Taken(peers, Base(displayName) + "-" + uuid)
    ensures AliasesDistinct(AfterAdd(peers, endpointId, displayName, deviceName, pairedAt, uuid))
  {
    hide Base, Candidate, Fold;
    var alias := AliasFor(peers, displayName, uuid);
    if |peers| <= 998 { FreshAlias(peers, displayName, uuid); }
    assert !Taken(peers, alias);
  }

  lemma {:induction false} RemoveKeepsAliasesDistinct(peers: seq<TrustedPeer>, endpointId: string)
    requires AliasesDistinct(peers)
    ensures AliasesDistinct(Without(peers, endpointId))
  {
    hide SameIgnoringCase;
    if peers != [] {
      RemoveKeepsAliasesDistinct(peers[1..], endpointId);
      var rest := Without(peers[1..], endpointId);
      forall i | 0 <= i < |rest| ensures !SameIgnoringCase(peers[0].alias, rest[i].alias) {
        RemainingAreOld(peers[1..], endpointId, rest[i]);
      }
    }
  }

  lemma {:induction false} RemoveKeepsEndpointsDistinct(peers: seq<TrustedPeer>, endpointId: string)
    requires EndpointsDistinct(peers)
    ensures EndpointsDistinct(Without(peers, endpointId))
  {
    if peers != [] {
      RemoveKeepsEndpointsDistinct(peers[1..], endpointId);
      var rest := Without(peers[1..], endpointId);
      forall i | 0 <= i < |rest| ensures peers[0].endpointId != rest[i].endpointId {
        RemainingAreOld(peers[1..], endpointId, rest[i]);
      }
    }
  }

  /** Removal leaves exactly the records of other endpoints, each as often as before. */
  lemma {:induction false} RemainingAreOld(peers: seq<TrustedPeer>, endpointId: string, p: TrustedPeer)
    ensures multiset(Without(peers, endpointId))[p] == if p.endpointId == endpointId then 0 else multiset(peers)[p]
    ensures p in Without(peers, endpointId) <==> p in peers && p.endpointId != endpointId
  {
    if peers != [] {
      RemainingAreOld(peers[1..], endpointId, p);
      assert peers == [peers[0]] + peers[1..];
    }
  }

  lemma {:induction false} RemovedIff(peers: seq<TrustedPeer>, endpointId: string)
    ensures |Without(peers, endpointId)| != |peers| <==>
            exists i :: 0 <= i < |peers| && peers[i].endpointId == endpointId
  {
    if peers != [] {
      RemovedIff(peers[1..], endpointId);
      if i :| 0 <= i < |peers| && peers[i].endpointId == endpointId {
        if i > 0 { assert peers[1..][i - 1].endpointId == endpointId; }
      }
      if i :| 0 <= i < |peers[1..]| && peers[1..][i].endpointId == endpointId {
        assert peers[i + 1].endpointId == endpointId;
      }
    }
  }

  /** A successful rename keeps aliases distinct exactly when no second record of the same endpoint
      bears the new alias. */
  lemma {:induction false} RenameKeepsAliasesDistinctIff(peers: seq<TrustedPeer>, endpointId: string, newAlias: string)
    requires AliasesDistinct(peers)
    requires RenameResult(peers, endpointId, newAlias).Ok?
    requires FindEndpoint(peers, endpointId) < |peers|
    ensures AliasesDistinct(AfterRename(peers, endpointId, newAlias)) <==>
            forall j :: FindEndpoint(peers, endpointId) < j < |peers| && peers[j].endpointId == endpointId ==>
              !SameIgnoringCase(peers[j].alias, ValidateAlias(newAlias).value)
  {
    hide Fold, ValidateAlias;
    var i, alias := FindEndpoint(peers, endpointId), ValidateAlias(newAlias).value;
    var after := AfterRename(peers, endpointId, newAlias);
    assert after == peers[i := peers[i].(alias := alias)];
    forall j | 0 <= j < |peers| && peers[j].endpointId != endpointId
      ensures !SameIgnoringCase(peers[j].alias, alias)
    {}
    if AliasesDistinct(after) {
      forall j | i < j < |peers| ensures !SameIgnoringCase(peers[j].alias, alias) {
        assert !SameIgnoringCase(after[i].alias, after[j].alias);
      }
    }
  }

  lemma {:induction false} RenameKeepsAliasesDistinct(peers: seq<TrustedPeer>, endpointId: string, newAlias: string)
    requires AliasesDistinct(peers) && EndpointsDistinct(peers)
    ensures AliasesDistinct(AfterRename(peers, endpointId, newAlias))
  {
    hide Fold, ValidateAlias, SameIgnoringCase;
    if RenameResult(peers, endpointId, newAlias).Ok? && FindEndpoint(peers, endpointId) < |peers| {
      RenameKeepsAliasesDistinctIff(peers, endpointId, newAlias);
    }
  }

  /** Pairing twice with one endpoint leaves two records; renaming the first to the alias of the
      second is then accepted and makes the alias ambiguous. */
  lemma {:induction false} RepairedEndpointBreaksRename(e: string)
    ensures var peers := [TrustedPeer(e, "a", "a", "d", "t"), TrustedPeer(e, "b", "b", "d", "t")];
            && AliasesDistinct(peers)
            && RenameResult(peers, e, "b").Ok?
            && !AliasesDistinct(AfterRename(peers, e, "b"))
  {
    var peers := [TrustedPeer(e, "a", "a", "d", "t"), TrustedPeer(e, "b", "b", "d", "t")];
    assert Fold("a")[0] == 'a' && Fold("b")[0] == 'b';
    assert Trim("b") == "b";
    assert ValidateAlias("b") == Ok("b");
    assert FindEndpoint(peers, e) == 0;
    assert AfterRename(peers, e, "b")[0].alias == AfterRename(peers, e, "b")[1].alias;
  }

  /** Renaming never touches anything but one alias. */
  lemma {:induction false} RenameKeepsTheRest(peers: seq<TrustedPeer>, endpointId: string, newAlias: string, i: nat)
    requires i < |peers|
    ensures var after := AfterRename(peers, endpointId, newAlias);
            && after[i].(alias := peers[i].alias) == peers[i]
            && (i != FindEndpoint(peers, endpointId) ==> after[i] == peers[i])
            && (i == FindEndpoint(peers, endpointId) && RenameResult(peers, endpointId, newAlias).Ok? ==>
                  after[i].alias == RenameResult(peers, endpointId, newAlias).value)
  {}

  // ------------------------------------------------------------------------------- the resolver

  /** Under distinct aliases every peer is found by its alias in any ASCII casing. */
  lemma {:induction false} EveryPeerResolvesByAlias(peers: seq<TrustedPeer>, i: nat, identifier: string)
    requires AliasesDistinct(peers) && i < |peers|
    requires SameIgnoringCase(identifier, peers[i].alias)
    ensures Resolve(peers, identifier) == Found(peers[i])
  {
    hide Fold;
    var k := FindAlias(peers, identifier);
    assert SameIgnoringCase(peers[k].alias, peers[i].alias);
  }

  lemma {:induction false} PrefixMatches(peers: seq<TrustedPeer>, identifier: string, p: TrustedPeer)
    ensures multiset(WithPrefix(peers, identifier))[p] == if identifier <= p.endpointId then multiset(peers)[p] else 0
  {
    if peers != [] {
      PrefixMatches(peers[1..], identifier, p);
      assert peers == [peers[0]] + peers[1..];
    }
  }

  ghost predicate SameOutcome(a: Resolved, b: Resolved) {
    match (a, b)
    case (Found(p), Found(q)) => p == q
    case (NotFound, NotFound) => true
    case (Ambiguous(ps), Ambiguous(qs)) => multiset(ps) == multiset(qs)
    case _ => false
  }

  lemma {:induction false} SameElements<T>(ps: seq<T>, qs: seq<T>, x: T)
    requires multiset(ps) == multiset(qs)
    ensures x in ps <==> x in qs
  {
    assert x in ps <==> x in multiset(ps);
    assert x in qs <==> x in multiset(qs);
  }

  lemma {:induction false} MatchMoves(ps: seq<TrustedPeer>, qs: seq<TrustedPeer>, identifier: string)
    requires multiset(ps) == multiset(qs) && Taken(ps, identifier)
    ensures Taken(qs, identifier)
  {
    hide Fold;
    var p := ps[FindAlias(ps, identifier)];
    SameElements(ps, qs, p);
    var k :| 0 <= k < |qs| && qs[k] == p;
    assert SameIgnoringCase(qs[k].alias, identifier);
  }

  lemma {:induction false} AliasMatchIsOrderFree(ps: seq<TrustedPeer>, qs: seq<TrustedPeer>, identifier: string)
    requires AliasesDistinct(ps) && multiset(ps) == multiset(qs)
    requires Taken(ps, identifier) && Taken(qs, identifier)
    ensures ps[FindAlias(ps, identifier)] == qs[FindAlias(qs, identifier)]
  {
    hide Fold;
    var i, q := FindAlias(ps, identifier), qs[FindAlias(qs, identifier)];
    SameElements(ps, qs, q);
    var k :| 0 <= k < |ps| && ps[k] == q;
    assert SameIgnoringCase(ps[i].alias, ps[k].alias);
    assert i <= k;
  }

  lemma {:induction false} SameMultiset<T(!new)>(a: multiset<T>, b: multiset<T>)
    requires forall x :: a[x] == b[x]
    ensures a == b
  {}

  lemma {:induction false} SameLength<T>(ps: seq<T>, qs: seq<T>)
    requires multiset(ps) == multiset(qs)
    ensures |ps| == |qs|
  {
    assert |multiset(ps)| == |ps| && |multiset(qs)| == |qs|;
  }

  lemma {:induction false} SamePrefixMatches(ps: seq<TrustedPeer>, qs: seq<TrustedPeer>, identifier: string)
    requires multiset(ps) == multiset(qs)
    ensures var ms, ns := WithPrefix(ps, identifier), WithPrefix(qs, identifier);
            && multiset(ms) == multiset(ns)
            && |ms| == |ns|
            && (|ms| == 1 ==> ms[0] == ns[0])
  {
    hide WithPrefix;
    var ms, ns := WithPrefix(ps, identifier), WithPrefix(qs, identifier);
    forall p ensures multiset(ms)[p] == multiset(ns)[p] {
      PrefixMatches(ps, identifier, p);
      PrefixMatches(qs, identifier, p);
    }
    SameMultiset(multiset(ms), multiset(ns));
    SameLength(ms, ns);
    if |ms| == 1 { SameElements(ms, ns, ms[0]); }
  }

  /** What an identifier resolves to does not depend on the order of the peer list. */
  lemma {:induction false} ResolutionIsOrderFree(ps: seq<TrustedPeer>, qs: seq<TrustedPeer>, identifier: string)
    requires AliasesDistinct(ps) && multiset(ps) == multiset(qs)
    ensures SameOutcome(Resolve(ps, identifier), Resolve(qs, identifier))
  {
    hide SameIgnoringCase;
    if Taken(ps, identifier) {
      MatchMoves(ps, qs, identifier);
      AliasMatchIsOrderFree(ps, qs, identifier);
    } else if Taken(qs, identifier) {
      MatchMoves(qs, ps, identifier);
    } else {
      SamePrefixMatches(ps, qs, identifier);
    }
  }

  /** The first peer whose alias matches is found, whatever else matches. */
  lemma {:induction false} FirstAliasWins(peers: seq<TrustedPeer>, k: nat, identifier: string)
    requires k < |peers| && SameIgnoringCase(peers[k].alias, identifier)
    requires forall i :: 0 <= i < k ==> !SameIgnoringCase(peers[i].alias, identifier)
    ensures Resolve(peers, identifier) == Found(peers[k])
  {
    hide SameIgnoringCase;
  }

  ghost predicate Starts(peers: seq<TrustedPeer>, k: int, identifier: string)
    requires 0 <= k < |peers|
  {
    identifier <= peers[k].endpointId
  }

  ghost predicate OnlyStart(peers: seq<TrustedPeer>, k: nat, identifier: string) {
    && k < |peers| && Starts(peers, k, identifier)
    && forall i :: 0 <= i < |peers| && i != k ==> !Starts(peers, i, identifier)
  }

  lemma {:induction false} PrefixCounts(peers: seq<TrustedPeer>, identifier: string)
    ensures var ms := WithPrefix(peers, identifier);
            && (ms == [] <==> forall i :: 0 <= i < |peers| ==> !Starts(peers, i, identifier))
            && (forall k: nat :: OnlyStart(peers, k, identifier) ==> ms == [peers[k]])
            && (|ms| == 1 ==> exists k: nat :: OnlyStart(peers, k, identifier))
  {
    if peers != [] {
      var rest := peers[1..];
      PrefixCounts(rest, identifier);
      forall i | 0 <= i < |rest| ensures Starts(rest, i, identifier) <==> Starts(peers, i + 1, identifier) {}
      forall i | 1 <= i < |peers| ensures Starts(peers, i, identifier) <==> Starts(rest, i - 1, identifier) {}
      var ms, tail := WithPrefix(peers, identifier), WithPrefix(rest, identifier);
      hide WithPrefix, Starts;
      if Starts(peers, 0, identifier) {
        assert ms == [peers[0]] + tail by { FirstStarts(peers, identifier); }
        if tail == [] { assert OnlyStart(peers, 0, identifier); }
        forall k: nat | OnlyStart(peers, k, identifier) ensures ms == [peers[k]] {
          assert k == 0;
        }
      } else {
        assert ms == tail by { FirstStarts(peers, identifier); }
        forall k: nat | OnlyStart(peers, k, identifier) ensures ms == [peers[k]] {
          assert OnlyStart(rest, k - 1, identifier);
        }
        if |ms| == 1 {
          var k: nat :| OnlyStart(rest, k, identifier);
          assert OnlyStart(peers, k + 1, identifier);
        }
      }
    }
  }

  lemma {:induction false} FirstStarts(peers: seq<TrustedPeer>, identifier: string)
    requires peers != []
    ensures WithPrefix(peers, identifier) ==
            (if Starts(peers, 0, identifier) then [peers[0]] else []) + WithPrefix(peers[1..], identifier)
  {}

  /** Without an alias match, an identifier finds the one peer whose endpoint id it begins, fails when
      there is none, and is ambiguous between exactly those peers when there are several. */
  lemma {:induction false} PrefixDecides(peers: seq<TrustedPeer>, identifier: string)
    requires forall i :: 0 <= i < |peers| ==> !SameIgnoringCase(peers[i].alias, identifier)
    ensures var r := Resolve(peers, identifier);
            && (forall k: nat :: OnlyStart(peers, k, identifier) ==> r == Found(peers[k]))
            && (r.Found? ==> exists k: nat :: OnlyStart(peers, k, identifier))
            && (r.NotFound? <==> forall i :: 0 <= i < |peers| ==> !Starts(peers, i, identifier))
            && (r.Ambiguous? ==> |r.matches| >= 2 && forall p ::
                  multiset(r.matches)[p] == if identifier <= p.endpointId then multiset(peers)[p] else 0)
  {
    PrefixCounts(peers, identifier);
    forall p ensures multiset(WithPrefix(peers, identifier))[p] == if identifier <= p.endpointId then multiset(peers)[p] else 0 {
      PrefixMatches(peers, identifier, p);
    }
    hide SameIgnoringCase, Starts, WithPrefix;
  }

  // ---------------------------------------------------------------------- what the rules accept

  ghost predicate Blank(s: string) {
    forall i :: 0 <= i < |s| ==> IsWhitespace(s[i])
  }

  /** `a` is `s` without the whitespace at both ends. */
  ghost predicate Trimmed(s: string, pre: string, a: string, post: string) {
    && s == pre + a + post && Blank(pre) && Blank(post)
    && (a == "" || (!IsWhitespace(a[0]) && !IsWhitespace(a[|a| - 1])))
  }

  lemma {:induction false} TrimStartMeans(s: string) returns (pre: string)
    ensures s == pre + TrimStart(s) && Blank(pre)
  {
    hide IsWhitespace;
    if s != [] && IsWhitespace(s[0]) {
      pre := TrimStartMeans(s[1..]);
      pre := [s[0]] + pre;
    } else {
      pre := "";
    }
  }

  lemma {:induction false} TrimEndMeans(s: string) returns (post: string)
    ensures s == TrimEnd(s) + post && Blank(post)
  {
    hide IsWhitespace;
    if s != [] && IsWhitespace(s[|s| - 1]) {
      post := TrimEndMeans(s[..|s| - 1]);
      post := post + [s[|s| - 1]];
    } else {
      post := "";
    }
  }

  lemma {:induction false} TrimMeans(s: string) returns (pre: string, post: string)
    ensures Trimmed(s, pre, Trim(s), post)
  {
    pre := TrimStartMeans(s);
    post := TrimEndMeans(TrimStart(s));
    hide IsWhitespace;
  }

  lemma {:induction false} TrimStartOf(pre: string, rest: string)
    requires Blank(pre) && (rest == "" || !IsWhitespace(rest[0]))
    ensures TrimStart(pre + rest) == rest
  {
    hide IsWhitespace;
    if pre == "" {
      assert pre + rest == rest;
    } else {
      assert (pre + rest)[1..] == pre[1..] + rest;
      TrimStartOf(pre[1..], rest);
    }
  }

  lemma {:induction false} TrimEndOf(a: string, post: string)
    requires Blank(post) && (a == "" || !IsWhitespace(a[|a| - 1]))
    ensures TrimEnd(a + post) == a
  {
    hide IsWhitespace;
    if post == "" {
      assert a + post == a;
    } else {
      assert (a + post)[..|a + post| - 1] == a + post[..|post| - 1];
      TrimEndOf(a, post[..|post| - 1]);
    }
  }

  lemma {:induction false} TrimIs(s: string, pre: string, a: string, post: string)
    requires Trimmed(s, pre, a, post)
    ensures Trim(s) == a
  {
    hide IsWhitespace;
    if a == "" {
      assert Blank(pre + post) && s == pre + post + "";
      TrimStartOf(pre + post, "");
    } else {
      assert s == pre + (a + post);
      TrimStartOf(pre, a + post);
      TrimEndOf(a, post);
    }
  }

  ghost predicate HasControl(a: string) {
    exists i :: 0 <= i < |a| && IsControl(a[i])
  }

  /** An alias is accepted as `a` exactly when the input is `a` between whitespace, `a` does not begin or
      end with any, has 1 to 32 characters, and contains no control character. */
  lemma {:induction false} AliasAcceptedIff(candidate: string, a: string)
    ensures ValidateAlias(candidate) == Ok(a) <==>
              1 <= |a| <= 32 && !HasControl(a) && exists pre, post :: Trimmed(candidate, pre, a, post)
  {
    hide IsWhitespace, IsControl;
    if ValidateAlias(candidate) == Ok(a) {
      var pre, post := TrimMeans(candidate);
      assert Trimmed(candidate, pre, a, post);
    }
    if pre, post :| Trimmed(candidate, pre, a, post) {
      TrimIs(candidate, pre, a, post);
    }
  }

  /** It is refused for its length exactly when what is left has none or more than 32 characters. */
  lemma {:induction false} AliasRefusedIff(candidate: string, pre: string, a: string, post: string)
    requires Trimmed(candidate, pre, a, post)
    ensures ValidateAlias(candidate) == Err(InvalidLength) <==> a == "" || |a| > 32
    ensures ValidateAlias(candidate) == Err(ContainsControlChars) <==> 1 <= |a| <= 32 && HasControl(a)
  {
    TrimIs(candidate, pre, a, post);
    hide IsWhitespace, IsControl, Trim;
  }

  /** The base of a fresh alias: "Peer" for a blank name, else the first 28 characters of what is left
      of the name without the whitespace around it. */
  lemma {:induction false} BaseMeans(displayName: string, pre: string, a: string, post: string)
    requires Trimmed(displayName, pre, a, post)
    ensures a == "" ==> Base(displayName) == "Peer"
    ensures 1 <= |a| <= 28 ==> Base(displayName) == a
    ensures |a| > 28 ==> Base(displayName) <= a && |Base(displayName)| == 28
  {
    TrimIs(displayName, pre, a, post);
    hide IsWhitespace, Trim;
  }

  /** Some characters of each kind, and some that are not. */
  lemma {:induction false} CharacterKinds()
    ensures IsWhitespace(' ') && IsWhitespace('\t') && IsWhitespace('\n') && IsWhitespace('\U{A0}') && IsWhitespace('\U{3000}')
    ensures !IsWhitespace('a') && !IsWhitespace('-') && !IsWhitespace('\U{200B}') && !IsWhitespace('\U{1F}')
    ensures IsControl('\n') && IsControl('\U{7F}') && IsControl('\U{9F}')
    ensures !IsControl(' ') && !IsControl('\U{A0}') && !IsControl('\U{AD}')
  {}

  /** The same letter, or the upper and the lower case of one ASCII letter. */
  ghost predicate SameLetter(c: char, d: char) {
    c == d || ('A' <= c <= 'Z' && d as int == c as int + 32) || ('A' <= d <= 'Z' && c as int == d as int + 32)
  }

  lemma {:induction false} CasingMeans(a: string, b: string)
    ensures SameIgnoringCase(a, b) <==> |a| == |b| && forall i :: 0 <= i < |a| ==> SameLetter(a[i], b[i])
  {
    if SameIgnoringCase(a, b) {
      forall i | 0 <= i < |a| ensures SameLetter(a[i], b[i]) { assert Fold(a)[i] == Fold(b)[i]; }
    }
  }

  /** Decimal numerals spell their number and do not begin with a zero. */
  lemma {:induction false} DecimalMeans(n: nat)
    ensures Numeral(Decimal(n)) == n && (n > 0 ==> Decimal(n)[0] != '0')
  {
    var d := Decimal(n);
    if n < 10 {
      assert d[..0] == "";
    } else {
      DecimalMeans(n / 10);
      assert d[..|d| - 1] == Decimal(n / 10);
    }
  }

  /** The candidates: the base itself, then the base with "-2", "-3" and so on. */
  lemma {:induction false} CandidateMeans(base: string, n: nat)
    ensures n == 1 ==> Candidate(base, n) == base
    ensures n >= 2 ==> var c := Candidate(base, n);
                       |c| > |base| + 1 && c[..|base|] == base && c[|base|] == '-' && Numeral(c[|base| + 1..]) == n
                       && c[|base| + 1] != '0'
  {
    if n >= 2 {
      DecimalMeans(n);
      assert Candidate(base, n)[|base| + 1..] == Decimal(n);
    }
  }

  /** A rename is accepted exactly when the alias is and no other endpoint bears it in any casing. */
  lemma {:induction false} RenameAcceptedIff(peers: seq<TrustedPeer>, endpointId: string, newAlias: string, a: string)
    ensures RenameResult(peers, endpointId, newAlias) == Ok(a) <==>
              ValidateAlias(newAlias) == Ok(a) &&
              forall p :: p in peers && p.endpointId != endpointId ==> !SameIgnoringCase(p.alias, a)
    ensures RenameResult(peers, endpointId, newAlias) == Err(DuplicateAlias(a)) <==>
              ValidateAlias(newAlias) == Ok(a) &&
              exists p :: p in peers && p.endpointId != endpointId && SameIgnoringCase(p.alias, a)
  {
    assert ValidateAlias(newAlias) != Err(DuplicateAlias(a));
    hide SameIgnoringCase, ValidateAlias;
    if p :| p in peers && p.endpointId != endpointId && SameIgnoringCase(p.alias, a) {
      var k :| 0 <= k < |peers| && peers[k] == p;
    }
  }

  /** Adding leaves the old records as they are and puts one with these particulars behind them. */
  lemma {:induction false} AddedRecord(peers: seq<TrustedPeer>, endpointId: string, displayName: string, deviceName: string,
                                       pairedAt: string, uuid: string)
    ensures var after := AfterAdd(peers, endpointId, displayName, deviceName, pairedAt, uuid);
            && |after| == |peers| + 1 && after[..|peers|] == peers
            && var p := after[|peers|];
               p.endpointId == endpointId && p.displayName == displayName && p.deviceName == deviceName && p.pairedAt == pairedAt
  {}

  /** The identifier names record `k`: it is the first whose alias matches, or none matches and it is the
      only one whose endpoint id begins with it. */
  ghost predicate Names(peers: seq<TrustedPeer>, identifier: string, k: nat) {
    && k < |peers|
    && (if exists i :: 0 <= i < |peers| && SameIgnoringCase(peers[i].alias, identifier)
        then SameIgnoringCase(peers[k].alias, identifier) && forall i :: 0 <= i < k ==> !SameIgnoringCase(peers[i].alias, identifier)
        else OnlyStart(peers, k, identifier))
  }

  /** Resolving finds a record exactly when the identifier names one, and it is that one. */
  lemma {:induction false} ResolveFindsNamed(peers: seq<TrustedPeer>, identifier: string)
    ensures var r := Resolve(peers, identifier);
            && (forall k: nat :: Names(peers, identifier, k) ==> r == Found(peers[k]))
            && (r.Found? ==> exists k: nat :: Names(peers, identifier, k))
  {
    var k := FindAlias(peers, identifier);
    if k < |peers| {
      hide SameIgnoringCase;
      assert SameIgnoringCase(peers[k].alias, identifier);
      assert Names(peers, identifier, k);
      forall j: nat | Names(peers, identifier, j) ensures j == k {}
    } else {
      hide SameIgnoringCase, Starts, OnlyStart;
      PrefixDecides(peers, identifier);
      forall j: nat ensures Names(peers, identifier, j) <==> j < |peers| && OnlyStart(peers, j, identifier) {}
      forall j: nat | OnlyStart(peers, j, identifier) ensures j < |peers| { OnlyStartIsThere(peers, j, identifier); }
    }
  }

  lemma {:induction false} OnlyStartIsThere(peers: seq<TrustedPeer>, k: nat, identifier: string)
    requires OnlyStart(peers, k, identifier)
    ensures k < |peers|
  {}

  /** Only when the base and all its numbered forms up to 999 are taken, the alias ends in the UUID. */
  lemma {:induction false} FallbackIff(peers: seq<TrustedPeer>, displayName: string, uuid: string)
    ensures (forall n :: 1 <= n < 1000 ==> Taken(peers, Candidate(Base(displayName), n))) ==>
              AliasFor(peers, displayName, uuid) == Base(displayName) + "-" + uuid
    ensures (exists n :: 1 <= n < 1000 && !Taken(peers, Candidate(Base(displayName), n))) ==>
              exists n :: 1 <= n < 1000 && AliasFor(peers, displayName, uuid) == Candidate(Base(displayName), n)
  {
    hide Taken, Base, Candidate;
  }
}
