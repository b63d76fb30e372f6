/** The connection registry and the tie-break for simultaneous dials. */
module Connection {
  import opened Basics
  import opened Order

  /** A connection is known by its dialer and a serial number; whether it is open is kept apart. */
  datatype Conn = Conn(serial: nat, dialer: string)

  datatype PeerStatus = Online | Offline | Unknown

  datatype Runtime = Runtime(status: PeerStatus, connection: Option<Conn>)

  type Registry = map<string, Runtime>

  function EntryOf(r: Registry, id: string): Runtime {
    if id in r then r[id] else Runtime(Unknown, None)
  }

  function Cached(r: Registry, closed: set<Conn>, id: string): Option<Conn> {
    var c := EntryOf(r, id).connection;
    if c.Some? && c.value !in closed then c else None
  }

  predicate KeepInbound(r: Registry, closed: set<Conn>, me: string, remote: string) {
    Cached(r, closed, remote).None? || Less(remote, me)
  }

  function MarkedOnline(r: Registry, id: string, c: Conn): Registry {
    r[id := Runtime(Online, Some(c))]
  }

  function MarkedOffline(r: Registry, id: string): Registry {
    r[id := Runtime(Offline, None)]
  }

  class ConnectionRegistry {
    var peers: Registry

    constructor ()
      ensures peers == map[]
    {
      peers := map[];
    }

    method CachedConnection(id: string, closed: set<Conn>) returns (c: Option<Conn>)
      ensures c == Cached(peers, closed, id)
    {
      if id !in peers || peers[id].connection.None? || peers[id].connection.value in closed {
        return None;
      }
      return peers[id].connection;
    }

    method ShouldKeepInbound(me: string, remote: string, closed: set<Conn>) returns (keep: bool)
      ensures keep <==> KeepInbound(peers, closed, me, remote)
    {
      var cached := CachedConnection(remote, closed);
      keep := if cached.None? then true else Less(remote, me);
    }

    method MarkOnline(id: string, c: Conn)
      modifies this
      ensures peers == MarkedOnline(old(peers), id, c)
    {
      peers := peers[id := Runtime(Online, Some(c))];
    }

    method MarkOffline(id: string)
      modifies this
      ensures peers == MarkedOffline(old(peers), id)
    {
      peers := peers[id := Runtime(Offline, None)];
    }

    /** The connection to close, if one was registered. */
    method CloseAndForget(id: string) returns (c: Option<Conn>)
      modifies this
      ensures peers == old(peers) - {id}
      ensures c == EntryOf(old(peers), id).connection
    {
      c := if id in peers then peers[id].connection else None;
      peers := peers - {id};
    }
  }

  // ------------------------------------------------------------------------- two daemons, any run

  datatype World = World(
    low: Registry, high: Registry,
    closed: set<Conn>,
    tieClosed: set<Conn>,                     // closed by a tie-break
    displaced: set<(string, Conn)>)           // at whom, and which open connection an inbound replaced

  datatype Act =
    | RegisterDial(atLow: bool, serial: nat)  // the dialer enters its own new connection
    | AcceptInbound(atLow: bool, serial: nat) // the other side's dial arrives
    | Break(c: Conn)                          // lost for any other reason
    | SendFailed(atLow: bool)
    | Unpair(atLow: bool)

  function RegistryOf(w: World, atLow: bool): Registry {
    if atLow then w.low else w.high
  }

  function SetRegistry(w: World, atLow: bool, r: Registry): World {
    if atLow then w.(low := r) else w.(high := r)
  }

  function Next(w: World, lowId: string, highId: string, a: Act): World {
    match a
    case RegisterDial(atLow, serial) =>
      var (me, remote) := if atLow then (lowId, highId) else (highId, lowId);
      SetRegistry(w, atLow, MarkedOnline(RegistryOf(w, atLow), remote, Conn(serial, me)))
    case AcceptInbound(atLow, serial) =>
      var (me, remote) := if atLow then (lowId, highId) else (highId, lowId);
      var r, c := RegistryOf(w, atLow), Conn(serial, remote);
      var cached := Cached(r, w.closed, remote);
      if KeepInbound(r, w.closed, me, remote) then
        SetRegistry(w, atLow, MarkedOnline(r, remote, c))
        .(displaced := if cached.Some? && cached.value != c then w.displaced + {(me, cached.value)} else w.displaced)
      else
        w.(closed := w.closed + {c}, tieClosed := w.tieClosed + {c})
    case Break(c) => w.(closed := w.closed + {c})
    case SendFailed(atLow) =>
      SetRegistry(w, atLow, MarkedOffline(RegistryOf(w, atLow), if atLow then highId else lowId))
    case Unpair(atLow) =>
      var remote := if atLow then highId else lowId;
      var r := RegistryOf(w, atLow);
      var c := EntryOf(r, remote).connection;
      SetRegistry(w, atLow, r - {remote}).(closed := if c.Some? then w.closed + {c.value} else w.closed)
  }

  const EMPTY: World := World(map[], map[], {}, {}, {})

  function Run(lowId: string, highId: string, acts: seq<Act>): World {
    if acts == [] then EMPTY
    else Next(Run(lowId, highId, acts[..|acts| - 1]), lowId, highId, acts[|acts| - 1])
  }

  /** Over any number of dials, breaks, failed sends and unpairings, the tie-break only ever closes
      connections dialed by the higher id, and an inbound takes the place of an open connection only
      at the higher id. */
  lemma {:induction false} TieBreakFavoursLowerDialer(lowId: string, highId: string, acts: seq<Act>)
    requires Less(lowId, highId)
    ensures var w := Run(lowId, highId, acts);
            && (forall c :: c in w.tieClosed ==> c.dialer == highId)
            && (forall d :: d in w.displaced ==> d.0 == highId)
  {
    Trichotomy(lowId, highId);
    if acts != [] {
      TieBreakFavoursLowerDialer(lowId, highId, acts[..|acts| - 1]);
    }
  }

  // -------------------------------------------------------------------- both sides keep dialing

  /** Nothing but dials entered and dials arriving. */
  predicate IsDialing(a: Act) {
    a.RegisterDial? || a.AcceptInbound?
  }

  /** The serial of the last dial that the lower id entered. */
  function LastLowDial(order: seq<Act>): Option<nat> {
    if order == [] then None
    else
      var last := order[|order| - 1];
      if last.RegisterDial? && last.atLow then Some(last.serial) else LastLowDial(order[..|order| - 1])
  }

  /** The last event at the higher id. */
  function LastAtHigh(order: seq<Act>): Option<Act> {
    if order == [] then None
    else
      var last := order[|order| - 1];
      if IsDialing(last) && !last.atLow then Some(last) else LastAtHigh(order[..|order| - 1])
  }

  /** The connection that an event at the higher id leaves in its registry. */
  function HighConn(lowId: string, highId: string, a: Act): Conn
    requires IsDialing(a)
  {
    if a.RegisterDial? then Conn(a.serial, highId) else Conn(a.serial, lowId)
  }

  ghost predicate Dialed(w: World, lowId: string, highId: string, order: seq<Act>) {
    && (forall c :: c in w.closed ==> c.dialer == highId)
    && (LastLowDial(order).Some? ==>
          EntryOf(w.low, highId).connection == Some(Conn(LastLowDial(order).value, lowId)))
    && (match LastAtHigh(order)
        case None => EntryOf(w.high, lowId).connection == None
        case Some(last) => IsDialing(last) && EntryOf(w.high, lowId).connection == Some(HighConn(lowId, highId, last)))
  }

  lemma {:induction false} DialingState(lowId: string, highId: string, order: seq<Act>)
    requires Less(lowId, highId) && forall i :: 0 <= i < |order| ==> IsDialing(order[i])
    ensures Dialed(Run(lowId, highId, order), lowId, highId, order)
  {
    Trichotomy(lowId, highId);
    if order != [] {
      hide Less;
      DialingState(lowId, highId, order[..|order| - 1]);
    }
  }

  /** However often both sides dial, in whatever order dials are entered and arrive: once the lower id
      has entered one, it ends on the last one it entered, still open. The registries agree exactly when
      the arrival of that very dial is the last event at the higher id. */
  lemma {:induction false} DialsAgreeIff(lowId: string, highId: string, order: seq<Act>)
    requires Less(lowId, highId) && forall i :: 0 <= i < |order| ==> IsDialing(order[i])
    requires LastLowDial(order).Some?
    ensures var w := Run(lowId, highId, order);
            var shared := Conn(LastLowDial(order).value, lowId);
            && Cached(w.low, w.closed, highId) == Some(shared)
            && (Cached(w.high, w.closed, lowId) == Some(shared) <==>
                LastAtHigh(order) == Some(AcceptInbound(false, shared.serial)))
  {
    Trichotomy(lowId, highId);
    DialingState(lowId, highId, order);
    LastAtHighIsThere(order);
    hide Less, Run;
  }

  lemma {:induction false} LastAtHighIsThere(order: seq<Act>)
    ensures LastAtHigh(order).Some? ==> IsDialing(LastAtHigh(order).value) && !LastAtHigh(order).value.atLow
  {
    if order != [] { LastAtHighIsThere(order[..|order| - 1]); }
  }

  // -------------------------------------------------------------------- one dial on each side

  /** The two dials of a simultaneous attempt: the lower id's and the higher id's. */
  const LOW_DIAL: nat := 0
  const HIGH_DIAL: nat := 1

  /** The four things that happen when both sides dial at once, in some order. */
  ghost predicate CrossingDials(order: seq<Act>) {
    && |order| == 4
    && (forall i :: 0 <= i < |order| ==> order[i] in {
          RegisterDial(true, LOW_DIAL), RegisterDial(false, HIGH_DIAL),
          AcceptInbound(true, HIGH_DIAL), AcceptInbound(false, LOW_DIAL)})
    && (forall i, j :: 0 <= i < j < |order| ==> order[i] != order[j])
  }

  /** When both sides dial at once, the lower id always ends on its own dial, still open. The registries
      agree exactly when the higher id entered its own dial before the other side's dial arrived;
      entering it afterwards overwrites the shared one. */
  lemma {:induction false} CrossingDialsAgreeIff(lowId: string, highId: string, order: seq<Act>)
    requires Less(lowId, highId) && CrossingDials(order)
    ensures var w := Run(lowId, highId, order);
            var shared := Conn(LOW_DIAL, lowId);
            && Cached(w.low, w.closed, highId) == Some(shared)
            && (Cached(w.high, w.closed, lowId) == Some(shared) <==>
                exists i, j :: 0 <= i < j < 4 && order[i] == RegisterDial(false, HIGH_DIAL) && order[j] == AcceptInbound(false, LOW_DIAL))
  {
    CrossingEnds(order);
    hide Less, Run, CrossingDials, LastLowDial, LastAtHigh;
    DialsAgreeIff(lowId, highId, order);
  }

  lemma {:induction false} CrossingEnds(order: seq<Act>)
    requires CrossingDials(order)
    ensures forall i :: 0 <= i < 4 ==> IsDialing(order[i])
    ensures LastLowDial(order) == Some(LOW_DIAL)
    ensures LastAtHigh(order) == Some(AcceptInbound(false, LOW_DIAL)) <==>
            exists i, j :: 0 <= i < j < 4 && order[i] == RegisterDial(false, HIGH_DIAL) && order[j] == AcceptInbound(false, LOW_DIAL)
  {
    assert order[0] != order[1] && order[0] != order[2] && order[0] != order[3];
    assert order[1] != order[2] && order[1] != order[3] && order[2] != order[3];
    var o3, o2, o1 := order[..3], order[..2], order[..1];
    assert o3[..2] == o2 && o2[..1] == o1 && o1[..0] == [];
    var dial := RegisterDial(true, LOW_DIAL);
    assert dial == order[0] || dial == order[1] || dial == order[2] || dial == order[3];
    assert LastLowDial(o1) == (if order[0] == dial then Some(LOW_DIAL) else None);
    assert LastLowDial(o2) == (if order[1] == dial then Some(LOW_DIAL) else LastLowDial(o1));
    assert LastLowDial(o3) == (if order[2] == dial then Some(LOW_DIAL) else LastLowDial(o2));
    assert LastAtHigh(o1) == (if order[0].atLow then None else Some(order[0]));
    assert LastAtHigh(o2) == (if order[1].atLow then LastAtHigh(o1) else Some(order[1]));
    assert LastAtHigh(o3) == (if order[2].atLow then LastAtHigh(o2) else Some(order[2]));
  }

  /** The disagreeing order does end apart: the lower id on its own dial, the higher id with nothing open. */
  lemma {:induction false} CrossingDialsCanDisagree(lowId: string, highId: string)
    requires Less(lowId, highId)
    ensures var order := [RegisterDial(true, LOW_DIAL), AcceptInbound(false, LOW_DIAL),
                          RegisterDial(false, HIGH_DIAL), AcceptInbound(true, HIGH_DIAL)];
            var w := Run(lowId, highId, order);
            CrossingDials(order) && Cached(w.low, w.closed, highId) == Some(Conn(LOW_DIAL, lowId))
            && Cached(w.high, w.closed, lowId) == None
  {
    Trichotomy(lowId, highId);
    hide Less;
    var order := [RegisterDial(true, LOW_DIAL), AcceptInbound(false, LOW_DIAL),
                  RegisterDial(false, HIGH_DIAL), AcceptInbound(true, HIGH_DIAL)];
    var low, high := Conn(LOW_DIAL, lowId), Conn(HIGH_DIAL, highId);
    assert order[..3][..2] == order[..2] && order[..2][..1] == order[..1] && order[..1][..0] == [];
    var w1 := Run(lowId, highId, order[..1]);
    assert order[..1] == [order[0]] && order[..2][1] == order[1] && order[..3][2] == order[2];
    assert Run(lowId, highId, order[..1][..0]) == EMPTY && w1 == Next(EMPTY, lowId, highId, order[0]);
    assert w1.low == map[highId := Runtime(Online, Some(low))] && w1.closed == {};
    var w2 := Run(lowId, highId, order[..2]);
    assert w2.low == w1.low && w2.high == map[lowId := Runtime(Online, Some(low))] && w2.closed == {};
    var w3 := Run(lowId, highId, order[..3]);
    assert w3.low == w1.low && w3.high == map[lowId := Runtime(Online, Some(high))] && w3.closed == {};
  }

  /** An inbound connection is kept exactly when nothing open is registered with the remote id, or the
      remote id is the lower one. */
  lemma {:induction false} KeepInboundIff(r: Registry, closed: set<Conn>, me: string, remote: string)
    ensures KeepInbound(r, closed, me, remote) <==>
              (forall c :: remote in r && r[remote].connection == Some(c) ==> c in closed) || Less(remote, me)
  {
    hide Less;
  }

  /** A broken connection counts as none; a failed send and an unpairing empty the slot, and an unpairing
      closes what was in it. */
  lemma {:induction false} DisruptionsAreFelt(w: World, lowId: string, highId: string, atLow: bool, c: Conn, id: string)
    ensures var w' := Next(w, lowId, highId, Break(c));
            Cached(RegistryOf(w', atLow), w'.closed, id) != Some(c)
    ensures var remote, w' := if atLow then highId else lowId, Next(w, lowId, highId, SendFailed(atLow));
            EntryOf(RegistryOf(w', atLow), remote) == Runtime(Offline, None)
    ensures var remote, w' := if atLow then highId else lowId, Next(w, lowId, highId, Unpair(atLow));
            && remote !in RegistryOf(w', atLow)
            && (EntryOf(RegistryOf(w, atLow), remote).connection == Some(c) ==> c in w'.closed)
  {}
}
