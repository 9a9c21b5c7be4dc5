/**
 The pool of client connections (internal/connpool/pool.go) as a state machine with one step
 per critical section of the pool's lock.

 The users of the pool, and what its connections report about themselves, are the environment:
 a step takes the statuses it saw, and the iteration over a Go map is any order.
 */
module ConnPool {
  import opened Wrappers

  const MAX_SEARCH_STEPS := 4

  /** Pointers are compared by identity only. */
  type ConnId = nat
  type CallId = nat

  datatype Status = Status(closed: bool, available: bool)

  /** What Conn.Status reports during one critical section. */
  type Statuses = ConnId -> Status

  /** idleShare(n) is the ratio's share of n busy connections, whatever floating point makes of it. */
  datatype Opts = Opts(maxConn: int, maxStream: int, idleShare: nat -> int)

  function MaxStream(o: Opts): (r: int)
    ensures r >= 1
  {
    if o.maxStream > 0 then o.maxStream else 1
  }

  function Max(a: int, b: int): int {
    if a < b then b else a
  }

  /** How many idle connections may stay beside so many busy ones. */
  function MaxIdleAllowed(o: Opts, busy: nat): (r: int)
    ensures r >= 1
  {
    Max(o.idleShare(busy), 1)
  }

  /** dialingCall: conn and failed (err != nil) are set once, when the outcome is delivered. */
  datatype Call = Call(streamQueue: int, conn: Option<ConnId>, failed: bool) {
    predicate Pending() {
      conn.None? && !failed
    }
  }

  /** The fields of Pool, and of every dialing call it has ever made. */
  datatype State = State(
    closed: bool,
    dialingCalls: set<CallId>,
    lastDialCall: Option<CallId>,
    calls: map<CallId, Call>,
    busyConns: map<ConnId, int>,
    idleConns: map<ConnId, int>)
  {
    function Pooled(): set<ConnId> {
      busyConns.Keys + idleConns.Keys
    }

    /** Everything that counts towards MaxConn. */
    function Size(): nat {
      |dialingCalls| + |busyConns.Keys| + |idleConns.Keys|
    }
  }

  const NEW_POOL := State(false, {}, None, map[], map[], map[])

  // ---------------------------------------------------------------------------------
  // Steps
  // ---------------------------------------------------------------------------------

  /** What pickBusyConnLocked came across: closed connections, which it drops, and live ones. */
  datatype Scan = Scan(dead: set<ConnId>, seen: set<ConnId>)

  datatype Got =
    | PickedBusy(conn: ConnId)
    | PickedIdle(conn: ConnId)
    | Joined(call: CallId)
    | Dialing(call: CallId)
    | NoConn
    | PoolClosed

  datatype Event =
    | Get(scan: Scan, idleDead: set<ConnId>, got: Got)
    | Wake(call: CallId, cancelled: bool)
    | Release(conn: ConnId, evicted: set<ConnId>)
    | MarkDead(conn: ConnId)
    | DialDone(call: CallId, dialed: Option<ConnId>)
    | Close

  predicate Eligible(o: Opts, busy: map<ConnId, int>, st: Statuses, c: ConnId)
    requires c in busy
  {
    !st(c).closed && st(c).available && busy[c] < MaxStream(o)
  }

  /** The search may end before it saw everything: it counts five live connections. */
  predicate Exhausted(busy: map<ConnId, int>, scan: Scan) {
    scan.dead + scan.seen == busy.Keys || |scan.seen| == MAX_SEARCH_STEPS + 1
  }

  ghost predicate Scanned(busy: map<ConnId, int>, st: Statuses, scan: Scan) {
    && scan.dead <= busy.Keys && (forall c <- scan.dead :: st(c).closed)
    && scan.seen <= busy.Keys && (forall c <- scan.seen :: !st(c).closed)
    && |scan.seen| <= MAX_SEARCH_STEPS + 1
  }

  /** The most loaded of the connections that can take one more stream. */
  predicate Best(o: Opts, busy: map<ConnId, int>, st: Statuses, seen: set<ConnId>, r: Option<ConnId>)
    requires seen <= busy.Keys
  {
    match r
    case None =>
      forall c <- seen :: !Eligible(o, busy, st, c)
    case Some(c) =>
      && c in seen && Eligible(o, busy, st, c)
      && forall d <- seen :: Eligible(o, busy, st, d) ==> busy[d] <= busy[c]
  }

  /** pickBusyConnLocked: it also stops at a connection that has room for exactly one stream. */
  ghost predicate Picks(o: Opts, busy: map<ConnId, int>, st: Statuses, scan: Scan, r: Option<ConnId>) {
    && Scanned(busy, st, scan) && Best(o, busy, st, scan.seen, r)
    && (Exhausted(busy, scan) || (r.Some? && busy[r.value] == MaxStream(o) - 1))
  }

  /** The idle loop drops the closed connections it meets and takes the first available one. */
  ghost predicate PicksIdle(idle: map<ConnId, int>, st: Statuses, dead: set<ConnId>, r: Option<ConnId>) {
    && dead <= idle.Keys && (forall c <- dead :: st(c).closed)
    && match r
       case None => forall c <- idle.Keys :: if st(c).closed then c in dead else !st(c).available
       case Some(c) => c in idle && !st(c).closed && st(c).available
  }

  /** Only the queue of one call changes. */
  function Requeued(calls: map<CallId, Call>, d: CallId, delta: int): map<CallId, Call>
    requires d in calls
  {
    calls[d := calls[d].(streamQueue := calls[d].streamQueue + delta)]
  }

  /** No connection could be picked: wait for the latest dial, or start one. */
  predicate QueueNext(o: Opts, s: State, s': State, got: Got) {
    match got
    case Joined(d) =>
      CanJoin(o, s) && s.lastDialCall == Some(d) && s' == s.(calls := Requeued(s.calls, d, 1))
    case Dialing(d) =>
      && !CanJoin(o, s) && HasRoom(o, s) && d !in s.calls
      && s' == s.(calls := s.calls[d := Call(1, None, false)], lastDialCall := Some(d),
                  dialingCalls := s.dialingCalls + {d})
    case NoConn => !CanJoin(o, s) && !HasRoom(o, s) && s' == s
    case _ => false
  }

  ghost predicate GetNext(o: Opts, st: Statuses, s: State, s': State, scan: Scan, idleDead: set<ConnId>, got: Got) {
    if s.closed then s' == s && got == PoolClosed
    else
      var busy := s.busyConns - scan.dead;
      var idle := s.idleConns - idleDead;
      match got
      case PickedBusy(c) =>
        && Picks(o, s.busyConns, st, scan, Some(c))
        && s' == s.(busyConns := busy[c := s.busyConns[c] + 1])
      case PickedIdle(c) =>
        && Picks(o, s.busyConns, st, scan, None) && PicksIdle(s.idleConns, st, idleDead, Some(c))
        && s' == s.(busyConns := busy[c := s.idleConns[c] + 1], idleConns := idle - {c})
      case _ =>
        && Picks(o, s.busyConns, st, scan, None) && PicksIdle(s.idleConns, st, idleDead, None)
        && QueueNext(o, s.(busyConns := busy, idleConns := idle), s', got)
  }

  predicate CanJoin(o: Opts, s: State) {
    && s.lastDialCall.Some? && s.lastDialCall.value in s.calls
    && s.calls[s.lastDialCall.value].streamQueue < MaxStream(o)
  }

  predicate HasRoom(o: Opts, s: State) {
    o.maxConn <= 0 || s.Size() < o.maxConn
  }

  /** waitConn: the outcome that was delivered, or none when the caller gave up before it was. */
  function WakeNext(s: State, d: CallId): State
    requires d in s.calls
  {
    var call := s.calls[d];
    if call.Pending() then s.(calls := Requeued(s.calls, d, -1)) else s
  }

  /** The connection has no stream left. */
  function Idled(s: State, c: ConnId): State {
    s.(busyConns := s.busyConns - {c}, idleConns := s.idleConns[c := 0])
  }

  /** As many idle connections as are too many are removed and closed, c only if all others were. */
  predicate Evicts(o: Opts, s: State, s': State, c: ConnId, evicted: set<ConnId>) {
    && evicted <= s.idleConns.Keys && |evicted| == Max(|s.idleConns.Keys| - MaxIdleAllowed(o, |s.busyConns.Keys|), 0)
    && (c in evicted ==> evicted == s.idleConns.Keys)
    && s' == s.(idleConns := s.idleConns - evicted)
  }

  ghost predicate ReleaseNext(o: Opts, st: Statuses, s: State, s': State, c: ConnId, evicted: set<ConnId>) {
    if c !in s.busyConns then s' == s && evicted == {}
    else if st(c).closed then s' == s.(busyConns := s.busyConns - {c}) && evicted == {}
    else if s.busyConns[c] != 1 then
      s' == s.(busyConns := s.busyConns[c := s.busyConns[c] - 1]) && evicted == {}
    else Evicts(o, Idled(s, c), s', c, evicted)
  }

  /** The outcome of one call is set. */
  function Delivered(calls: map<CallId, Call>, d: CallId, dialed: Option<ConnId>): map<CallId, Call>
    requires d in calls
  {
    calls[d := calls[d].(conn := dialed, failed := dialed.None?)]
  }

  function ForgetCall(last: Option<CallId>, d: CallId): Option<CallId> {
    if last == Some(d) then None else last
  }

  function DialDoneNext(s: State, d: CallId, dialed: Option<ConnId>): State
    requires d in s.calls
  {
    if s.closed || s.calls[d].failed then s
    else
      var s1 := s.(calls := Delivered(s.calls, d, dialed), lastDialCall := ForgetCall(s.lastDialCall, d),
                   dialingCalls := s.dialingCalls - {d});
      match dialed
      case None => s1
      case Some(c) =>
        if s.calls[d].streamQueue == 0 then s1.(idleConns := s.idleConns[c := 0])
        else s1.(busyConns := s.busyConns[c := s.calls[d].streamQueue])
  }

  function MarkDeadNext(s: State, c: ConnId): State {
    s.(busyConns := s.busyConns - {c}, idleConns := s.idleConns - {c})
  }

  /** cancelDial */
  function Cancelled(call: Call): Call {
    if call.Pending() then call.(failed := true) else call
  }

  function CancelAll(calls: map<CallId, Call>, dialingCalls: set<CallId>): map<CallId, Call> {
    map d <- calls :: if d in dialingCalls then Cancelled(calls[d]) else calls[d]
  }

  function CloseNext(s: State): State {
    if s.closed then s else s.(closed := true, calls := CancelAll(s.calls, s.dialingCalls))
  }

  ghost predicate PoolNext(o: Opts, st: Statuses, s: State, s': State, e: Event) {
    match e
    case Get(scan, idleDead, got) => GetNext(o, st, s, s', scan, idleDead, got)
    case Wake(d, cancelled) => d in s.calls && (cancelled || !s.calls[d].Pending()) && s' == WakeNext(s, d)
    case Release(c, evicted) => ReleaseNext(o, st, s, s', c, evicted)
    case MarkDead(c) => s' == MarkDeadNext(s, c)
    case DialDone(d, conn) => d in s.calls && s' == DialDoneNext(s, d, conn)
    case Close => s' == CloseNext(s)
  }

  // ---------------------------------------------------------------------------------
  // The pool and its users
  // ---------------------------------------------------------------------------------

  /**
   Besides the pool: who waits for which call, which dials are running, who holds which
   connection, and which call every connection ever pooled came from.
   */
  datatype World = World(
    pool: State,
    waiting: multiset<CallId>,
    dialers: set<CallId>,
    holders: multiset<ConnId>,
    origin: map<ConnId, CallId>)

  const NEW_WORLD := World(NEW_POOL, multiset{}, {}, multiset{}, map[])

  /** One Release for a successful Get, one end for a dial, and a new connection from each. */
  predicate Allowed(w: World, e: Event) {
    match e
    case Wake(d, _) => d in w.waiting
    case Release(c, _) => c in w.holders
    case DialDone(d, conn) => d in w.dialers && (conn.Some? ==> conn.value !in w.origin)
    case _ => true
  }

  function GetUsers(w: World, s': State, got: Got): World {
    match got
    case PickedBusy(c) => w.(pool := s', holders := w.holders + multiset{c})
    case PickedIdle(c) => w.(pool := s', holders := w.holders + multiset{c})
    case Joined(d) => w.(pool := s', waiting := w.waiting + multiset{d})
    case Dialing(d) => w.(pool := s', waiting := w.waiting + multiset{d}, dialers := w.dialers + {d})
    case _ => w.(pool := s')
  }

  function WakeUsers(w: World, s': State, d: CallId): World
    requires d in w.pool.calls
  {
    match w.pool.calls[d].conn
    case None => w.(pool := s', waiting := w.waiting - multiset{d})
    case Some(c) => w.(pool := s', waiting := w.waiting - multiset{d}, holders := w.holders + multiset{c})
  }

  function DialDoneUsers(w: World, s': State, d: CallId, dialed: Option<ConnId>): World {
    if dialed.None? || w.pool.closed then w.(pool := s', dialers := w.dialers - {d})
    else w.(pool := s', dialers := w.dialers - {d}, origin := w.origin[dialed.value := d])
  }

  ghost predicate Next(o: Opts, st: Statuses, w: World, w': World, e: Event) {
    && Allowed(w, e) && PoolNext(o, st, w.pool, w'.pool, e)
    && w' == match e
             case Get(_, _, got) => GetUsers(w, w'.pool, got)
             case Wake(d, _) => WakeUsers(w, w'.pool, d)
             case Release(c, _) => w.(pool := w'.pool, holders := w.holders - multiset{c})
             case DialDone(d, dialed) => DialDoneUsers(w, w'.pool, d, dialed)
             case MarkDead(_) => w.(pool := w'.pool)
             case Close => w.(pool := w'.pool)
  }

  datatype Step = Step(e: Event, st: Statuses)

  /** A run of the pool among all its users, from a new pool. */
  ghost predicate Run(o: Opts, ws: seq<World>, steps: seq<Step>) {
    && |ws| == |steps| + 1 && ws[0] == NEW_WORLD
    && forall i | 0 <= i < |steps| :: Next(o, steps[i].st, ws[i], ws[i + 1], steps[i].e)
  }

  // ---------------------------------------------------------------------------------
  // Invariant
  // ---------------------------------------------------------------------------------

  /** The calls that are being dialed are the ones whose outcome is still open. */
  predicate DialsInv(closed: bool, dialingCalls: set<CallId>, lastDialCall: Option<CallId>, calls: map<CallId, Call>, dialers: set<CallId>) {
    && dialingCalls <= calls.Keys && dialers <= calls.Keys
    && (lastDialCall.Some? ==> lastDialCall.value in dialingCalls)
    && (!closed ==> dialingCalls == dialers)
    && (forall d <- calls :: calls[d].Pending() <==> !closed && d in dialingCalls)
  }

  /** The queue of a call counts those who wait for it. */
  predicate QueuesInv(o: Opts, calls: map<CallId, Call>, waiting: multiset<CallId>) {
    && (forall d <- waiting :: d in calls)
    && (forall d <- calls :: calls[d].Pending() ==> calls[d].streamQueue == waiting[d] <= MaxStream(o))
  }

  /** Every connection comes from one call. */
  predicate OriginInv(calls: map<CallId, Call>, origin: map<ConnId, CallId>) {
    && (forall c <- origin :: origin[c] in calls && calls[origin[c]].conn == Some(c))
    && (forall d <- calls :: calls[d].conn.Some? ==> calls[d].conn.value in origin && origin[calls[d].conn.value] == d)
  }

  /** Who holds a connection got it from the pool. */
  predicate HeldInv(holders: multiset<ConnId>, origin: map<ConnId, CallId>) {
    forall c <- holders :: c in origin
  }

  /** The streams that are really owed to a connection: its holders, and who is about to be one. */
  function StreamsOf(holders: multiset<ConnId>, waiting: multiset<CallId>, origin: map<ConnId, CallId>, c: ConnId): nat
    requires c in origin
  {
    holders[c] + waiting[origin[c]]
  }

  function Streams(w: World, c: ConnId): nat
    requires c in w.origin
  {
    StreamsOf(w.holders, w.waiting, w.origin, c)
  }

  /** Every pooled connection counts exactly the streams that are owed to it. */
  predicate Conserved(o: Opts, busy: map<ConnId, int>, idle: map<ConnId, int>,
                      holders: multiset<ConnId>, waiting: multiset<CallId>, origin: map<ConnId, CallId>) {
    && busy.Keys <= origin.Keys && idle.Keys <= origin.Keys && busy.Keys !! idle.Keys
    && (forall c <- busy :: 1 <= busy[c] == StreamsOf(holders, waiting, origin, c) <= MaxStream(o))
    && (forall c <- idle :: 0 == idle[c] == StreamsOf(holders, waiting, origin, c))
  }

  predicate Bounded(o: Opts, dialingCalls: set<CallId>, busy: map<ConnId, int>, idle: map<ConnId, int>) {
    o.maxConn > 0 ==> |dialingCalls| + |busy.Keys| + |idle.Keys| <= o.maxConn
  }

  predicate Inv(o: Opts, w: World) {
    && DialsInv(w.pool.closed, w.pool.dialingCalls, w.pool.lastDialCall, w.pool.calls, w.dialers)
    && QueuesInv(o, w.pool.calls, w.waiting)
    && OriginInv(w.pool.calls, w.origin)
    && HeldInv(w.holders, w.origin)
    && Conserved(o, w.pool.busyConns, w.pool.idleConns, w.holders, w.waiting, w.origin)
    && Bounded(o, w.pool.dialingCalls, w.pool.busyConns, w.pool.idleConns)
  }

  // Connections that move

  lemma Subset(a: set<nat>, b: set<nat>)
    requires a <= b
    ensures |a| <= |b|
  {
    assert b == a + (b - a);
  }

  lemma KeysWithout(m: map<ConnId, int>, s: set<ConnId>)
    ensures (m - s).Keys == m.Keys - s && |(m - s).Keys| <= |m.Keys|
  {
    assert (m - s).Keys == m.Keys - s;
    Subset(m.Keys - s, m.Keys);
  }

  lemma KeysWith(m: map<ConnId, int>, c: ConnId, n: int)
    ensures m[c := n].Keys == m.Keys + {c} && |m[c := n].Keys| == |m.Keys| + if c in m then 0 else 1
  {
    assert m[c := n].Keys == m.Keys + {c};
    if c in m {
      assert m.Keys + {c} == m.Keys;
    }
  }

  lemma KeysLess(m: map<ConnId, int>, c: ConnId)
    requires c in m
    ensures |(m - {c}).Keys| == |m.Keys| - 1
  {
    assert (m - {c}).Keys == m.Keys - {c};
  }

  function Without(s: State, busy: set<ConnId>, idle: set<ConnId>): State {
    s.(busyConns := s.busyConns - busy, idleConns := s.idleConns - idle)
  }

  /** A step that only moves connections, and changes who holds them. */
  lemma MoveKeepsInv(o: Opts, w: World, w': World)
    requires Inv(o, w) && w'.waiting == w.waiting && w'.dialers == w.dialers && w'.origin == w.origin
    requires w'.pool == w.pool.(busyConns := w'.pool.busyConns, idleConns := w'.pool.idleConns)
    requires HeldInv(w'.holders, w.origin)
    requires Conserved(o, w'.pool.busyConns, w'.pool.idleConns, w'.holders, w.waiting, w.origin)
    requires Bounded(o, w.pool.dialingCalls, w'.pool.busyConns, w'.pool.idleConns)
    ensures Inv(o, w')
  {
    hide DialsInv, QueuesInv, OriginInv, HeldInv, Conserved, Bounded;
  }

  lemma DropConserves(o: Opts, busy: map<ConnId, int>, idle: map<ConnId, int>, holders: multiset<ConnId>,
                      waiting: multiset<CallId>, origin: map<ConnId, CallId>, b: set<ConnId>, i: set<ConnId>)
    requires Conserved(o, busy, idle, holders, waiting, origin)
    ensures Conserved(o, busy - b, idle - i, holders, waiting, origin)
  {
    hide StreamsOf;
    KeysWithout(busy, b);
    KeysWithout(idle, i);
  }

  lemma DropFits(o: Opts, dialingCalls: set<CallId>, busy: map<ConnId, int>, idle: map<ConnId, int>, b: set<ConnId>, i: set<ConnId>)
    requires Bounded(o, dialingCalls, busy, idle)
    ensures Bounded(o, dialingCalls, busy - b, idle - i)
  {
    KeysWithout(busy, b);
    KeysWithout(idle, i);
  }

  /** Connections may leave at any time. */
  lemma DropKeepsInv(o: Opts, w: World, busy: set<ConnId>, idle: set<ConnId>)
    requires Inv(o, w)
    ensures Inv(o, w.(pool := Without(w.pool, busy, idle)))
  {
    hide DialsInv, QueuesInv, OriginInv, HeldInv, Conserved, Bounded;
    DropConserves(o, w.pool.busyConns, w.pool.idleConns, w.holders, w.waiting, w.origin, busy, idle);
    DropFits(o, w.pool.dialingCalls, w.pool.busyConns, w.pool.idleConns, busy, idle);
    MoveKeepsInv(o, w, w.(pool := Without(w.pool, busy, idle)));
  }

  lemma HoldersGrow(holders: multiset<ConnId>, origin: map<ConnId, CallId>, c: ConnId)
    requires HeldInv(holders, origin) && c in origin
    ensures HeldInv(holders + multiset{c}, origin)
  {
  }

  lemma HoldersShrink(holders: multiset<ConnId>, origin: map<ConnId, CallId>, c: ConnId)
    requires HeldInv(holders, origin)
    ensures HeldInv(holders - multiset{c}, origin)
  {
  }

  lemma PooledHasOrigin(o: Opts, w: World)
    requires Inv(o, w)
    ensures w.pool.Pooled() <= w.origin.Keys
  {
    hide DialsInv, QueuesInv, OriginInv, HeldInv, Bounded, StreamsOf;
  }

  lemma TakeBusyConserves(o: Opts, busy: map<ConnId, int>, idle: map<ConnId, int>, holders: multiset<ConnId>,
                          waiting: multiset<CallId>, origin: map<ConnId, CallId>, c: ConnId)
    requires Conserved(o, busy, idle, holders, waiting, origin) && c in busy && busy[c] < MaxStream(o)
    ensures Conserved(o, busy[c := busy[c] + 1], idle, holders + multiset{c}, waiting, origin)
  {
    assert busy[c := busy[c] + 1].Keys == busy.Keys;
  }

  /** A busy connection may count any number of streams. */
  lemma CountFits(o: Opts, dialingCalls: set<CallId>, busy: map<ConnId, int>, idle: map<ConnId, int>, c: ConnId, n: int)
    requires Bounded(o, dialingCalls, busy, idle) && c in busy
    ensures Bounded(o, dialingCalls, busy[c := n], idle)
  {
    KeysWith(busy, c, n);
  }

  lemma TakeBusyKeepsInv(o: Opts, w: World, c: ConnId)
    requires Inv(o, w) && c in w.pool.busyConns && w.pool.busyConns[c] < MaxStream(o)
    ensures Inv(o, w.(
      pool := w.pool.(busyConns := w.pool.busyConns[c := w.pool.busyConns[c] + 1]),
      holders := w.holders + multiset{c}))
  {
    hide DialsInv, QueuesInv, OriginInv, HeldInv, Conserved, Bounded;
    var s := w.pool;
    PooledHasOrigin(o, w);
    HoldersGrow(w.holders, w.origin, c);
    TakeBusyConserves(o, s.busyConns, s.idleConns, w.holders, w.waiting, w.origin, c);
    CountFits(o, s.dialingCalls, s.busyConns, s.idleConns, c, s.busyConns[c] + 1);
    MoveKeepsInv(o, w, w.(pool := s.(busyConns := s.busyConns[c := s.busyConns[c] + 1]), holders := w.holders + multiset{c}));
  }

  lemma TakeIdleConserves(o: Opts, busy: map<ConnId, int>, idle: map<ConnId, int>, holders: multiset<ConnId>,
                          waiting: multiset<CallId>, origin: map<ConnId, CallId>, c: ConnId)
    requires Conserved(o, busy, idle, holders, waiting, origin) && c in idle
    ensures c !in busy && Conserved(o, busy[c := idle[c] + 1], idle - {c}, holders + multiset{c}, waiting, origin)
  {
    assert busy[c := idle[c] + 1].Keys == busy.Keys + {c};
    assert (idle - {c}).Keys == idle.Keys - {c};
  }

  lemma TakeIdleFits(o: Opts, dialingCalls: set<CallId>, busy: map<ConnId, int>, idle: map<ConnId, int>, c: ConnId, n: int)
    requires Bounded(o, dialingCalls, busy, idle) && c in idle && c !in busy
    ensures Bounded(o, dialingCalls, busy[c := n], idle - {c})
  {
    KeysWith(busy, c, n);
    KeysLess(idle, c);
  }

  lemma TakeIdleKeepsInv(o: Opts, w: World, c: ConnId)
    requires Inv(o, w) && c in w.pool.idleConns
    ensures Inv(o, w.(
      pool := w.pool.(busyConns := w.pool.busyConns[c := w.pool.idleConns[c] + 1], idleConns := w.pool.idleConns - {c}),
      holders := w.holders + multiset{c}))
  {
    hide DialsInv, QueuesInv, OriginInv, HeldInv, Conserved, Bounded;
    var s := w.pool;
    var n := s.idleConns[c] + 1;
    PooledHasOrigin(o, w);
    HoldersGrow(w.holders, w.origin, c);
    TakeIdleConserves(o, s.busyConns, s.idleConns, w.holders, w.waiting, w.origin, c);
    TakeIdleFits(o, s.dialingCalls, s.busyConns, s.idleConns, c, n);
    MoveKeepsInv(o, w, w.(pool := s.(busyConns := s.busyConns[c := n], idleConns := s.idleConns - {c}), holders := w.holders + multiset{c}));
  }

  // Calls

  lemma RequeueKeepsCalls(closed: bool, dialingCalls: set<CallId>, last: Option<CallId>, calls: map<CallId, Call>,
                          dialers: set<CallId>, origin: map<ConnId, CallId>, d: CallId, delta: int)
    requires d in calls && DialsInv(closed, dialingCalls, last, calls, dialers) && OriginInv(calls, origin)
    ensures DialsInv(closed, dialingCalls, last, Requeued(calls, d, delta), dialers)
    ensures OriginInv(Requeued(calls, d, delta), origin)
  {
    assert Requeued(calls, d, delta).Keys == calls.Keys;
  }

  lemma JoinKeepsQueues(o: Opts, calls: map<CallId, Call>, waiting: multiset<CallId>, d: CallId)
    requires QueuesInv(o, calls, waiting) && d in calls && calls[d].Pending() && calls[d].streamQueue < MaxStream(o)
    ensures QueuesInv(o, Requeued(calls, d, 1), waiting + multiset{d})
  {
  }

  /** No connection comes from this call. */
  predicate Barren(origin: map<ConnId, CallId>, d: CallId) {
    forall c <- origin :: origin[c] != d
  }

  lemma OpenIsBarren(calls: map<CallId, Call>, origin: map<ConnId, CallId>, d: CallId)
    requires OriginInv(calls, origin) && (d in calls ==> calls[d].conn.None?)
    ensures Barren(origin, d)
  {
  }

  /** Who waits for such a call matters to no connection. */
  lemma BarrenConserves(o: Opts, busy: map<ConnId, int>, idle: map<ConnId, int>, holders: multiset<ConnId>,
                        waiting: multiset<CallId>, origin: map<ConnId, CallId>, d: CallId)
    requires Conserved(o, busy, idle, holders, waiting, origin) && Barren(origin, d)
    ensures Conserved(o, busy, idle, holders, waiting + multiset{d}, origin)
    ensures Conserved(o, busy, idle, holders, waiting - multiset{d}, origin)
  {
  }

  lemma JoinKeepsInv(o: Opts, w: World, d: CallId)
    requires Inv(o, w) && !w.pool.closed && CanJoin(o, w.pool) && w.pool.lastDialCall == Some(d)
    ensures Inv(o, w.(pool := w.pool.(calls := Requeued(w.pool.calls, d, 1)), waiting := w.waiting + multiset{d}))
  {
    var s := w.pool;
    assert s.calls[d].Pending() by {
      hide QueuesInv, OriginInv, HeldInv, Conserved, Bounded;
    }
    hide DialsInv, QueuesInv, OriginInv, HeldInv, Conserved, Bounded;
    OpenIsBarren(s.calls, w.origin, d);
    RequeueKeepsCalls(s.closed, s.dialingCalls, s.lastDialCall, s.calls, w.dialers, w.origin, d, 1);
    JoinKeepsQueues(o, s.calls, w.waiting, d);
    BarrenConserves(o, s.busyConns, s.idleConns, w.holders, w.waiting, w.origin, d);
  }

  /** A call that nobody has seen yet. */
  lemma NewCall(o: Opts, dialingCalls: set<CallId>, last: Option<CallId>, calls: map<CallId, Call>, dialers: set<CallId>,
                waiting: multiset<CallId>, origin: map<ConnId, CallId>, d: CallId)
    requires DialsInv(false, dialingCalls, last, calls, dialers) && d !in calls
    requires QueuesInv(o, calls, waiting) && OriginInv(calls, origin)
    ensures var calls' := calls[d := Call(1, None, false)];
      && DialsInv(false, dialingCalls + {d}, Some(d), calls', dialers + {d})
      && QueuesInv(o, calls', waiting + multiset{d})
      && OriginInv(calls', origin)
    ensures d !in dialingCalls
  {
    assert calls[d := Call(1, None, false)].Keys == calls.Keys + {d};
    assert waiting[d] == 0;
  }

  lemma DialKeepsInv(o: Opts, w: World, d: CallId)
    requires Inv(o, w) && !w.pool.closed && HasRoom(o, w.pool) && d !in w.pool.calls
    ensures Inv(o, w.(
      pool := w.pool.(calls := w.pool.calls[d := Call(1, None, false)], lastDialCall := Some(d),
                      dialingCalls := w.pool.dialingCalls + {d}),
      waiting := w.waiting + multiset{d}, dialers := w.dialers + {d}))
  {
    hide DialsInv, QueuesInv, OriginInv, HeldInv, Conserved;
    var s := w.pool;
    NewCall(o, s.dialingCalls, s.lastDialCall, s.calls, w.dialers, w.waiting, w.origin, d);
    OpenIsBarren(s.calls, w.origin, d);
    BarrenConserves(o, s.busyConns, s.idleConns, w.holders, w.waiting, w.origin, d);
  }

  lemma PickedIsLive(o: Opts, busy: map<ConnId, int>, st: Statuses, scan: Scan, c: ConnId)
    requires Picks(o, busy, st, scan, Some(c))
    ensures c in busy - scan.dead && busy[c] < MaxStream(o)
  {
  }

  lemma GetKeepsInv(o: Opts, st: Statuses, w: World, s': State, scan: Scan, idleDead: set<ConnId>, got: Got)
    requires Inv(o, w) && GetNext(o, st, w.pool, s', scan, idleDead, got)
    ensures Inv(o, GetUsers(w, s', got))
  {
    hide Inv, Picks, MaxStream, HasRoom, Requeued;
    if !w.pool.closed {
      var w1 := w.(pool := Without(w.pool, scan.dead, {}));
      var w2 := w.(pool := Without(w.pool, scan.dead, idleDead));
      match got
      case PickedBusy(c) =>
        DropKeepsInv(o, w, scan.dead, {});
        assert w1.pool == w.pool.(busyConns := w.pool.busyConns - scan.dead);
        PickedIsLive(o, w.pool.busyConns, st, scan, c);
        TakeBusyKeepsInv(o, w1, c);
      case PickedIdle(c) =>
        DropKeepsInv(o, w, scan.dead, idleDead);
        TakeIdleKeepsInv(o, w2, c);
      case Joined(d) =>
        DropKeepsInv(o, w, scan.dead, idleDead);
        JoinKeepsInv(o, w2, d);
      case Dialing(d) =>
        DropKeepsInv(o, w, scan.dead, idleDead);
        DialKeepsInv(o, w2, d);
      case _ =>
        DropKeepsInv(o, w, scan.dead, idleDead);
    }
  }

  /** Who is woken by a connection turns from a waiter into a holder of it. */
  lemma WakeConserves(o: Opts, busy: map<ConnId, int>, idle: map<ConnId, int>, holders: multiset<ConnId>,
                      waiting: multiset<CallId>, calls: map<CallId, Call>, origin: map<ConnId, CallId>, d: CallId, c: ConnId)
    requires Conserved(o, busy, idle, holders, waiting, origin) && OriginInv(calls, origin)
    requires d in waiting && d in calls && calls[d].conn == Some(c)
    ensures c in origin && Conserved(o, busy, idle, holders + multiset{c}, waiting - multiset{d}, origin)
  {
    var holders', waiting' := holders + multiset{c}, waiting - multiset{d};
    forall x | x in origin
      ensures StreamsOf(holders', waiting', origin, x) == StreamsOf(holders, waiting, origin, x)
    {
      WakeStreams(holders, waiting, calls, origin, d, c, x);
    }
    hide StreamsOf, OriginInv;
  }

  lemma WakeStreams(holders: multiset<ConnId>, waiting: multiset<CallId>, calls: map<CallId, Call>,
                    origin: map<ConnId, CallId>, d: CallId, c: ConnId, x: ConnId)
    requires OriginInv(calls, origin) && d in waiting && d in calls && calls[d].conn == Some(c) && x in origin
    ensures StreamsOf(holders + multiset{c}, waiting - multiset{d}, origin, x) == StreamsOf(holders, waiting, origin, x)
  {
    assert origin[x] == d <==> x == c;
  }

  lemma WakeKeepsQueues(o: Opts, calls: map<CallId, Call>, waiting: multiset<CallId>, d: CallId)
    requires QueuesInv(o, calls, waiting) && d in waiting
    ensures QueuesInv(o, if calls[d].Pending() then Requeued(calls, d, -1) else calls, waiting - multiset{d})
  {
  }

  lemma WakeKeepsInv(o: Opts, w: World, d: CallId)
    requires Inv(o, w) && d in w.waiting && d in w.pool.calls
    ensures Inv(o, WakeUsers(w, WakeNext(w.pool, d), d))
  {
    hide DialsInv, QueuesInv, OriginInv, HeldInv, Conserved, Bounded;
    var s := w.pool;
    RequeueKeepsCalls(s.closed, s.dialingCalls, s.lastDialCall, s.calls, w.dialers, w.origin, d, -1);
    WakeKeepsQueues(o, s.calls, w.waiting, d);
    match s.calls[d].conn
    case None =>
      OpenIsBarren(s.calls, w.origin, d);
      BarrenConserves(o, s.busyConns, s.idleConns, w.holders, w.waiting, w.origin, d);
    case Some(c) =>
      WakeConserves(o, s.busyConns, s.idleConns, w.holders, w.waiting, s.calls, w.origin, d, c);
      HoldersGrow(w.holders, w.origin, c);
  }

  // Releases

  lemma LateReleaseConserves(o: Opts, busy: map<ConnId, int>, idle: map<ConnId, int>, holders: multiset<ConnId>,
                             waiting: multiset<CallId>, origin: map<ConnId, CallId>, c: ConnId)
    requires Conserved(o, busy, idle, holders, waiting, origin) && c in holders && c !in busy
    ensures Conserved(o, busy, idle, holders - multiset{c}, waiting, origin)
  {
  }

  /** A release for a connection that has left the pool. */
  lemma LateReleaseKeepsInv(o: Opts, w: World, c: ConnId)
    requires Inv(o, w) && c in w.holders && c !in w.pool.busyConns
    ensures Inv(o, w.(holders := w.holders - multiset{c}))
  {
    hide DialsInv, QueuesInv, OriginInv, HeldInv, Conserved, Bounded;
    HoldersShrink(w.holders, w.origin, c);
    LateReleaseConserves(o, w.pool.busyConns, w.pool.idleConns, w.holders, w.waiting, w.origin, c);
    MoveKeepsInv(o, w, w.(holders := w.holders - multiset{c}));
  }

  lemma UseLessConserves(o: Opts, busy: map<ConnId, int>, idle: map<ConnId, int>, holders: multiset<ConnId>,
                         waiting: multiset<CallId>, origin: map<ConnId, CallId>, c: ConnId)
    requires Conserved(o, busy, idle, holders, waiting, origin) && c in holders && c in busy && busy[c] != 1
    ensures Conserved(o, busy[c := busy[c] - 1], idle, holders - multiset{c}, waiting, origin)
  {
    assert busy[c := busy[c] - 1].Keys == busy.Keys;
  }

  lemma UseLessKeepsInv(o: Opts, w: World, c: ConnId)
    requires Inv(o, w) && c in w.holders && c in w.pool.busyConns && w.pool.busyConns[c] != 1
    ensures Inv(o, w.(pool := w.pool.(busyConns := w.pool.busyConns[c := w.pool.busyConns[c] - 1]),
                      holders := w.holders - multiset{c}))
  {
    hide DialsInv, QueuesInv, OriginInv, HeldInv, Conserved, Bounded;
    var s := w.pool;
    HoldersShrink(w.holders, w.origin, c);
    UseLessConserves(o, s.busyConns, s.idleConns, w.holders, w.waiting, w.origin, c);
    CountFits(o, s.dialingCalls, s.busyConns, s.idleConns, c, s.busyConns[c] - 1);
    MoveKeepsInv(o, w, w.(pool := s.(busyConns := s.busyConns[c := s.busyConns[c] - 1]), holders := w.holders - multiset{c}));
  }

  lemma IdleConserves(o: Opts, busy: map<ConnId, int>, idle: map<ConnId, int>, holders: multiset<ConnId>,
                      waiting: multiset<CallId>, origin: map<ConnId, CallId>, c: ConnId)
    requires Conserved(o, busy, idle, holders, waiting, origin) && c in holders && c in busy && busy[c] == 1
    ensures c !in idle && Conserved(o, busy - {c}, idle[c := 0], holders - multiset{c}, waiting, origin)
  {
    assert (busy - {c}).Keys == busy.Keys - {c};
    assert idle[c := 0].Keys == idle.Keys + {c};
  }

  lemma IdleFits(o: Opts, dialingCalls: set<CallId>, busy: map<ConnId, int>, idle: map<ConnId, int>, c: ConnId)
    requires Bounded(o, dialingCalls, busy, idle) && c in busy && c !in idle
    ensures Bounded(o, dialingCalls, busy - {c}, idle[c := 0])
  {
    KeysLess(busy, c);
    KeysWith(idle, c, 0);
  }

  lemma IdleKeepsInv(o: Opts, w: World, c: ConnId)
    requires Inv(o, w) && c in w.holders && c in w.pool.busyConns && w.pool.busyConns[c] == 1
    ensures Inv(o, w.(pool := Idled(w.pool, c), holders := w.holders - multiset{c}))
  {
    hide DialsInv, QueuesInv, OriginInv, HeldInv, Conserved, Bounded;
    var s := w.pool;
    HoldersShrink(w.holders, w.origin, c);
    IdleConserves(o, s.busyConns, s.idleConns, w.holders, w.waiting, w.origin, c);
    IdleFits(o, s.dialingCalls, s.busyConns, s.idleConns, c);
    MoveKeepsInv(o, w, w.(pool := Idled(s, c), holders := w.holders - multiset{c}));
  }

  /** The last stream ends: the connection becomes idle, and others may be evicted. */
  lemma LastReleaseKeepsInv(o: Opts, w: World, s': State, c: ConnId, evicted: set<ConnId>)
    requires Inv(o, w) && c in w.holders && c in w.pool.busyConns && w.pool.busyConns[c] == 1
    requires Evicts(o, Idled(w.pool, c), s', c, evicted)
    ensures Inv(o, w.(pool := s', holders := w.holders - multiset{c}))
  {
    hide Inv, MaxIdleAllowed, Idled, Max;
    IdleKeepsInv(o, w, c);
    var s1 := Idled(w.pool, c);
    DropKeepsInv(o, w.(pool := s1, holders := w.holders - multiset{c}), {}, evicted);
    assert s1.busyConns - {} == s1.busyConns;
  }

  /** A closed connection leaves the pool, whoever still holds it. */
  lemma ClosedReleaseKeepsInv(o: Opts, w: World, c: ConnId)
    requires Inv(o, w) && c in w.holders
    ensures Inv(o, w.(pool := w.pool.(busyConns := w.pool.busyConns - {c}), holders := w.holders - multiset{c}))
  {
    hide Inv;
    DropKeepsInv(o, w, {c}, {});
    assert w.pool.idleConns - {} == w.pool.idleConns;
    LateReleaseKeepsInv(o, w.(pool := Without(w.pool, {c}, {})), c);
  }

  lemma ReleaseKeepsInv(o: Opts, st: Statuses, w: World, s': State, c: ConnId, evicted: set<ConnId>)
    requires Inv(o, w) && c in w.holders && ReleaseNext(o, st, w.pool, s', c, evicted)
    ensures Inv(o, w.(pool := s', holders := w.holders - multiset{c}))
  {
    hide Inv, Evicts, Idled;
    var s := w.pool;
    if c !in s.busyConns {
      LateReleaseKeepsInv(o, w, c);
    } else if st(c).closed {
      ClosedReleaseKeepsInv(o, w, c);
    } else if s.busyConns[c] != 1 {
      UseLessKeepsInv(o, w, c);
    } else {
      LastReleaseKeepsInv(o, w, s', c, evicted);
    }
  }

  // Dials that end

  lemma DeliverKeepsDials(dialingCalls: set<CallId>, last: Option<CallId>, calls: map<CallId, Call>,
                          dialers: set<CallId>, d: CallId, dialed: Option<ConnId>)
    requires DialsInv(false, dialingCalls, last, calls, dialers) && d in dialingCalls
    ensures DialsInv(false, dialingCalls - {d}, ForgetCall(last, d), Delivered(calls, d, dialed), dialers - {d})
  {
    assert Delivered(calls, d, dialed).Keys == calls.Keys;
  }

  lemma DeliverKeepsQueues(o: Opts, calls: map<CallId, Call>, waiting: multiset<CallId>, d: CallId, dialed: Option<ConnId>)
    requires QueuesInv(o, calls, waiting) && d in calls
    ensures QueuesInv(o, Delivered(calls, d, dialed), waiting)
  {
    assert !Delivered(calls, d, dialed)[d].Pending();
  }

  lemma DeliverKeepsOrigin(calls: map<CallId, Call>, origin: map<ConnId, CallId>, d: CallId, dialed: Option<ConnId>)
    requires OriginInv(calls, origin) && d in calls && calls[d].Pending() && (dialed.Some? ==> dialed.value !in origin)
    ensures OriginInv(Delivered(calls, d, dialed), if dialed.Some? then origin[dialed.value := d] else origin)
  {
  }

  /** A connection that is new to everybody has the streams that were queued for it. */
  lemma NewOrigin(o: Opts, busy: map<ConnId, int>, idle: map<ConnId, int>, holders: multiset<ConnId>,
                  waiting: multiset<CallId>, origin: map<ConnId, CallId>, d: CallId, c: ConnId)
    requires Conserved(o, busy, idle, holders, waiting, origin) && c !in origin && HeldInv(holders, origin)
    ensures Conserved(o, busy, idle, holders, waiting, origin[c := d]) && HeldInv(holders, origin[c := d])
    ensures StreamsOf(holders, waiting, origin[c := d], c) == waiting[d] && c !in busy && c !in idle
  {
    assert c !in holders;
    assert origin[c := d].Keys == origin.Keys + {c};
  }

  lemma JoinsIdle(o: Opts, busy: map<ConnId, int>, idle: map<ConnId, int>, holders: multiset<ConnId>,
                  waiting: multiset<CallId>, origin: map<ConnId, CallId>, c: ConnId)
    requires Conserved(o, busy, idle, holders, waiting, origin) && c in origin && c !in busy
    requires StreamsOf(holders, waiting, origin, c) == 0
    ensures Conserved(o, busy, idle[c := 0], holders, waiting, origin)
  {
    hide StreamsOf;
    assert idle[c := 0].Keys == idle.Keys + {c};
  }

  lemma JoinsBusy(o: Opts, busy: map<ConnId, int>, idle: map<ConnId, int>, holders: multiset<ConnId>,
                  waiting: multiset<CallId>, origin: map<ConnId, CallId>, c: ConnId, n: int)
    requires Conserved(o, busy, idle, holders, waiting, origin) && c in origin && c !in idle
    requires 1 <= n == StreamsOf(holders, waiting, origin, c) <= MaxStream(o)
    ensures Conserved(o, busy[c := n], idle, holders, waiting, origin)
  {
    hide StreamsOf;
    assert busy[c := n].Keys == busy.Keys + {c};
  }

  lemma DeliverKeepsConserved(o: Opts, w: World, d: CallId, c: ConnId)
    requires Conserved(o, w.pool.busyConns, w.pool.idleConns, w.holders, w.waiting, w.origin)
    requires HeldInv(w.holders, w.origin) && !w.pool.closed && d in w.pool.calls && w.pool.calls[d].Pending()
    requires w.pool.calls[d].streamQueue == w.waiting[d] <= MaxStream(o) && c !in w.origin
    ensures var w' := DialDoneUsers(w, DialDoneNext(w.pool, d, Some(c)), d, Some(c));
      && Conserved(o, w'.pool.busyConns, w'.pool.idleConns, w'.holders, w'.waiting, w'.origin)
      && HeldInv(w'.holders, w'.origin)
  {
    hide Conserved, HeldInv, StreamsOf, Delivered, ForgetCall;
    var s, origin := w.pool, w.origin[c := d];
    NewOrigin(o, s.busyConns, s.idleConns, w.holders, w.waiting, w.origin, d, c);
    if w.waiting[d] == 0 {
      JoinsIdle(o, s.busyConns, s.idleConns, w.holders, w.waiting, origin, c);
    } else {
      JoinsBusy(o, s.busyConns, s.idleConns, w.holders, w.waiting, origin, c, w.waiting[d]);
    }
  }

  lemma DeliverFits(o: Opts, s: State, d: CallId, dialed: Option<ConnId>)
    requires Bounded(o, s.dialingCalls, s.busyConns, s.idleConns)
    requires d in s.dialingCalls && d in s.calls && !s.closed && !s.calls[d].failed
    ensures var s' := DialDoneNext(s, d, dialed); Bounded(o, s'.dialingCalls, s'.busyConns, s'.idleConns)
  {
    hide Delivered, ForgetCall;
    assert |s.dialingCalls - {d}| == |s.dialingCalls| - 1;
    if dialed.Some? {
      KeysWith(s.idleConns, dialed.value, 0);
      KeysWith(s.busyConns, dialed.value, s.calls[d].streamQueue);
    }
  }

  lemma DialerIsPending(o: Opts, w: World, d: CallId)
    requires Inv(o, w) && d in w.dialers && !w.pool.closed
    ensures d in w.pool.dialingCalls && d in w.pool.calls && w.pool.calls[d].Pending()
    ensures w.pool.calls[d].streamQueue == w.waiting[d] <= MaxStream(o)
  {
    hide OriginInv, HeldInv, Conserved, Bounded;
  }

  /** A dial that ends after Close: its connection never joins. */
  lemma LateDialKeepsInv(o: Opts, w: World, d: CallId, dialed: Option<ConnId>)
    requires Inv(o, w) && w.pool.closed && d in w.pool.calls
    ensures Inv(o, DialDoneUsers(w, DialDoneNext(w.pool, d, dialed), d, dialed))
  {
    hide QueuesInv, OriginInv, HeldInv, Conserved, Bounded;
  }

  lemma DialDoneKeepsInv(o: Opts, w: World, d: CallId, dialed: Option<ConnId>)
    requires Inv(o, w) && d in w.dialers && d in w.pool.calls && (dialed.Some? ==> dialed.value !in w.origin)
    ensures Inv(o, DialDoneUsers(w, DialDoneNext(w.pool, d, dialed), d, dialed))
  {
    hide DialsInv, QueuesInv, OriginInv, HeldInv, Conserved, Bounded, Delivered, ForgetCall;
    var s := w.pool;
    if s.closed {
      LateDialKeepsInv(o, w, d, dialed);
    } else {
      DialerIsPending(o, w, d);
      DeliverKeepsDials(s.dialingCalls, s.lastDialCall, s.calls, w.dialers, d, dialed);
      DeliverKeepsQueues(o, s.calls, w.waiting, d, dialed);
      DeliverKeepsOrigin(s.calls, w.origin, d, dialed);
      DeliverFits(o, s, d, dialed);
      if dialed.Some? {
        DeliverKeepsConserved(o, w, d, dialed.value);
      }
    }
  }

  lemma CancelKeepsCalls(o: Opts, s: State, waiting: multiset<CallId>, dialers: set<CallId>, origin: map<ConnId, CallId>)
    requires DialsInv(false, s.dialingCalls, s.lastDialCall, s.calls, dialers)
    requires QueuesInv(o, s.calls, waiting) && OriginInv(s.calls, origin)
    ensures var calls := CancelAll(s.calls, s.dialingCalls);
      && DialsInv(true, s.dialingCalls, s.lastDialCall, calls, dialers)
      && QueuesInv(o, calls, waiting) && OriginInv(calls, origin)
  {
    assert CancelAll(s.calls, s.dialingCalls).Keys == s.calls.Keys;
  }

  lemma CloseKeepsInv(o: Opts, w: World)
    requires Inv(o, w)
    ensures Inv(o, w.(pool := CloseNext(w.pool)))
  {
    hide DialsInv, QueuesInv, OriginInv, HeldInv, Conserved, Bounded, CancelAll;
    if !w.pool.closed {
      CancelKeepsCalls(o, w.pool, w.waiting, w.dialers, w.origin);
    }
  }

  /** Every critical section keeps the invariant. */
  lemma NextKeepsInv(o: Opts, st: Statuses, w: World, w': World, e: Event)
    requires Inv(o, w) && Next(o, st, w, w', e)
    ensures Inv(o, w')
  {
    assert (forall d <- w.waiting :: d in w.pool.calls) && w.dialers <= w.pool.calls.Keys by {
      hide OriginInv, HeldInv, Conserved, Bounded;
    }
    hide Inv, GetNext, ReleaseNext, DialDoneNext, WakeNext, GetUsers, WakeUsers, DialDoneUsers;
    match e
    case Get(scan, idleDead, got) => GetKeepsInv(o, st, w, w'.pool, scan, idleDead, got);
    case Wake(d, _) => WakeKeepsInv(o, w, d);
    case Release(c, evicted) => ReleaseKeepsInv(o, st, w, w'.pool, c, evicted);
    case MarkDead(c) => DropKeepsInv(o, w, {c}, {c});
    case DialDone(d, dialed) => DialDoneKeepsInv(o, w, d, dialed);
    case Close => CloseKeepsInv(o, w);
  }

  // ---------------------------------------------------------------------------------
  // Whole runs
  // ---------------------------------------------------------------------------------

  lemma {:induction false} RunKeepsInv(o: Opts, ws: seq<World>, steps: seq<Step>, i: nat)
    requires Run(o, ws, steps) && i < |ws|
    ensures Inv(o, ws[i])
  {
    if i > 0 {
      RunKeepsInv(o, ws, steps, i - 1);
      hide Inv, Next;
      NextKeepsInv(o, steps[i - 1].st, ws[i - 1], ws[i], steps[i - 1].e);
    }
  }

  /**
   Conservation: at every moment of every run, what a pooled connection counts as its streams
   are its holders and those who are about to hold it; it is busy exactly when there are any.
   */
  lemma StreamsAreConserved(o: Opts, ws: seq<World>, steps: seq<Step>, i: nat, c: ConnId)
    requires Run(o, ws, steps) && i < |ws|
    ensures var s := ws[i].pool;
      && (c in s.busyConns ==> c !in s.idleConns && c in ws[i].origin && 1 <= s.busyConns[c] == Streams(ws[i], c) <= MaxStream(o))
      && (c in s.idleConns ==> c in ws[i].origin && 0 == s.idleConns[c] == Streams(ws[i], c))
  {
    RunKeepsInv(o, ws, steps, i);
  }

  /** When everybody is done, nothing is busy. */
  lemma QuietPoolIsIdle(o: Opts, ws: seq<World>, steps: seq<Step>, i: nat)
    requires Run(o, ws, steps) && i < |ws|
    requires ws[i].holders == multiset{} && ws[i].waiting == multiset{}
    ensures ws[i].pool.busyConns.Keys == {}
  {
    RunKeepsInv(o, ws, steps, i);
    assert forall c <- ws[i].origin :: Streams(ws[i], c) == 0;
  }

  /** MaxConn counts the dials that are still running, and is never exceeded. */
  lemma MaxConnHolds(o: Opts, ws: seq<World>, steps: seq<Step>, i: nat)
    requires Run(o, ws, steps) && i < |ws| && o.maxConn > 0
    ensures ws[i].pool.Size() <= o.maxConn
  {
    RunKeepsInv(o, ws, steps, i);
  }

  /** While the pool is open, callers only ever queue on a call that is still being dialed. */
  lemma LastCallIsOpen(o: Opts, ws: seq<World>, steps: seq<Step>, i: nat)
    requires Run(o, ws, steps) && i < |ws| && !ws[i].pool.closed && ws[i].pool.lastDialCall.Some?
    ensures var d := ws[i].pool.lastDialCall.value;
      d in ws[i].dialers && d in ws[i].pool.calls && ws[i].pool.calls[d].Pending()
  {
    RunKeepsInv(o, ws, steps, i);
  }

  lemma GetAddsNone(o: Opts, st: Statuses, s: State, s': State, scan: Scan, idleDead: set<ConnId>, got: Got)
    requires GetNext(o, st, s, s', scan, idleDead, got)
    ensures s'.Pooled() <= s.Pooled()
  {
    hide Exhausted, Eligible, CanJoin, HasRoom;
  }

  lemma IdledKeys(s: State, c: ConnId)
    ensures Idled(s, c).idleConns.Keys == s.idleConns.Keys + {c}
    ensures Idled(s, c).busyConns.Keys == s.busyConns.Keys - {c}
  {
  }

  lemma EvictsKeys(o: Opts, s: State, s': State, c: ConnId, evicted: set<ConnId>)
    requires Evicts(o, s, s', c, evicted)
    ensures s'.idleConns.Keys == s.idleConns.Keys - evicted && s'.busyConns == s.busyConns
  {
    hide MaxIdleAllowed, Max;
  }

  lemma ReleaseAddsNone(o: Opts, st: Statuses, s: State, s': State, c: ConnId, evicted: set<ConnId>)
    requires ReleaseNext(o, st, s, s', c, evicted)
    ensures s'.Pooled() <= s.Pooled()
  {
    hide Idled, Evicts;
    if c in s.busyConns && !st(c).closed && s.busyConns[c] == 1 {
      IdledKeys(s, c);
      EvictsKeys(o, Idled(s, c), s', c, evicted);
    }
  }

  /** Only a finished dial brings a connection into the pool, a new one, and only while it is open. */
  lemma PooledAfter(o: Opts, st: Statuses, w: World, w': World, e: Event, c: ConnId)
    requires Next(o, st, w, w', e) && c in w'.pool.Pooled()
    ensures c in w.pool.Pooled() || (c !in w.origin && e.DialDone? && e.dialed == Some(c) && !w.pool.closed)
  {
    hide GetNext, ReleaseNext, WakeUsers, GetUsers, DialDoneUsers;
    match e
    case Get(scan, idleDead, got) => GetAddsNone(o, st, w.pool, w'.pool, scan, idleDead, got);
    case Release(x, evicted) => ReleaseAddsNone(o, st, w.pool, w'.pool, x, evicted);
    case _ =>
  }

  /** What came from a dial is remembered, and Close is for ever. */
  lemma Monotone(o: Opts, st: Statuses, w: World, w': World, e: Event)
    requires Inv(o, w) && Next(o, st, w, w', e)
    ensures w.origin.Keys <= w'.origin.Keys && (w.pool.closed ==> w'.pool.closed)
  {
    hide Picks, PicksIdle, CanJoin, HasRoom, Conserved, QueuesInv, OriginInv, MaxIdleAllowed;
  }

  lemma {:induction false} MonotoneRun(o: Opts, ws: seq<World>, steps: seq<Step>, i: nat, j: nat)
    requires Run(o, ws, steps) && i <= j < |ws|
    ensures ws[i].origin.Keys <= ws[j].origin.Keys && (ws[i].pool.closed ==> ws[j].pool.closed)
    decreases j
  {
    hide Inv, Next;
    if i < j {
      MonotoneRun(o, ws, steps, i, j - 1);
      RunKeepsInv(o, ws, steps, j - 1);
      Monotone(o, steps[j - 1].st, ws[j - 1], ws[j], steps[j - 1].e);
    }
  }

  /** A connection that was taken out of the pool never comes back. */
  lemma {:induction false} NoReentry(o: Opts, ws: seq<World>, steps: seq<Step>, i: nat, j: nat, k: nat, c: ConnId)
    requires Run(o, ws, steps) && i <= j <= k < |ws|
    requires c in ws[i].pool.Pooled() && c !in ws[j].pool.Pooled()
    ensures c !in ws[k].pool.Pooled()
    decreases k
  {
    hide Next, Inv;
    if j < k {
      NoReentry(o, ws, steps, i, j, k - 1, c);
      RunKeepsInv(o, ws, steps, i);
      PooledHasOrigin(o, ws[i]);
      MonotoneRun(o, ws, steps, i, k - 1);
      if c in ws[k].pool.Pooled() {
        PooledAfter(o, steps[k - 1].st, ws[k - 1], ws[k], steps[k - 1].e, c);
      }
    }
  }

  /** After Close nothing is added, whatever dials still end. */
  lemma {:induction false} CloseIsFinal(o: Opts, ws: seq<World>, steps: seq<Step>, i: nat, j: nat)
    requires Run(o, ws, steps) && i <= j < |ws| && ws[i].pool.closed
    ensures ws[j].pool.closed && ws[j].pool.Pooled() <= ws[i].pool.Pooled()
    decreases j
  {
    hide Next;
    MonotoneRun(o, ws, steps, i, j);
    if i < j {
      CloseIsFinal(o, ws, steps, i, j - 1);
      forall c | c in ws[j].pool.Pooled()
        ensures c in ws[i].pool.Pooled()
      {
        PooledAfter(o, steps[j - 1].st, ws[j - 1], ws[j], steps[j - 1].e, c);
      }
    }
  }

  /** Evicting down to a limit of at least one spares the one that is evicted last. */
  lemma EvictionSpares(idle: set<ConnId>, evicted: set<ConnId>, c: ConnId, allowed: int)
    requires evicted <= idle && c in idle && allowed >= 1 && |evicted| == Max(|idle| - allowed, 0)
    requires c in evicted ==> evicted == idle
    ensures c !in evicted && |idle - evicted| + |evicted| == |idle| && |idle - evicted| <= allowed
  {
    assert idle == (idle - evicted) + evicted;
  }

  /**
   A Release that makes its connection idle leaves no more idle connections than the busy ones
   allow, but at least this one: it is never itself among the evicted.
   */
  lemma ReleaseKeepsItsOwn(o: Opts, st: Statuses, s: State, s': State, c: ConnId, evicted: set<ConnId>)
    requires ReleaseNext(o, st, s, s', c, evicted)
    ensures c in s.busyConns && c !in s.idleConns && !st(c).closed && s.busyConns[c] == 1 ==>
      && c in s'.idleConns && c !in s'.busyConns
      && |s'.idleConns.Keys| <= MaxIdleAllowed(o, |s'.busyConns.Keys|)
      && evicted <= s.idleConns.Keys && |s'.idleConns.Keys| + |evicted| == |s.idleConns.Keys| + 1
  {
    hide MaxIdleAllowed, Idled;
    if c in s.busyConns && c !in s.idleConns && !st(c).closed && s.busyConns[c] == 1 {
      var s1 := Idled(s, c);
      IdledKeys(s, c);
      EvictionSpares(s1.idleConns.Keys, evicted, c, MaxIdleAllowed(o, |s1.busyConns.Keys|));
      EvictsKeys(o, s1, s', c, evicted);
    }
  }

  /** As many as wanted can be chosen from a set. */
  lemma {:induction false} Choose(s: set<ConnId>, n: nat) returns (t: set<ConnId>)
    requires n <= |s|
    ensures t <= s && |t| == n
  {
    t := {};
    if n > 0 {
      var c :| c in s;
      t := Choose(s - {c}, n - 1);
      t := t + {c};
    }
  }

  /** No order of the search passes over a connection that could serve. */
  ghost predicate NeverMisses(o: Opts, busy: map<ConnId, int>, st: Statuses) {
    forall scan | Picks(o, busy, st, scan, None) :: forall c <- busy.Keys :: !Eligible(o, busy, st, c)
  }

  /** The live busy connections that cannot serve. */
  ghost function Full(o: Opts, busy: map<ConnId, int>, st: Statuses): set<ConnId> {
    set c <- busy.Keys | !st(c).closed && !Eligible(o, busy, st, c)
  }

  lemma FewFullNeverMiss(o: Opts, busy: map<ConnId, int>, st: Statuses, scan: Scan, c: ConnId)
    requires Picks(o, busy, st, scan, None) && |Full(o, busy, st)| <= MAX_SEARCH_STEPS && c in busy
    ensures !Eligible(o, busy, st, c)
  {
    Subset(scan.seen, Full(o, busy, st));
  }

  /**
   The search gives up after five live connections. Whether it may then pass over one that could
   serve depends on the full ones alone: four of them never hide it, and with five some order does.
   */
  lemma SearchMisses(o: Opts, busy: map<ConnId, int>, st: Statuses)
    ensures NeverMisses(o, busy, st) <==>
      (forall c <- busy.Keys :: !Eligible(o, busy, st, c)) || |Full(o, busy, st)| <= MAX_SEARCH_STEPS
  {
    if |Full(o, busy, st)| <= MAX_SEARCH_STEPS {
      forall scan, c | Picks(o, busy, st, scan, None) && c in busy
        ensures !Eligible(o, busy, st, c)
      {
        FewFullNeverMiss(o, busy, st, scan, c);
      }
    } else if c :| c in busy && Eligible(o, busy, st, c) {
      var seen := Choose(Full(o, busy, st), MAX_SEARCH_STEPS + 1);
      assert Picks(o, busy, st, Scan({}, seen), None);
    }
  }
}
