/**
 The pipelined connection (internal/upstream/transport/pipeline_conn.go): the allocation of query
 ids and the routing of responses, as one step per critical section among any number of
 exchanges, one reader, and whoever closes the connection.
 */
module PipelineConn {
  import opened Wrappers
  import opened WireBytes

  const MAX_QID := 65535

  /** An exchange is known by the channel it made for its response. */
  type Exchange = nat

  datatype Resp = Resp(id: uint16, payload: bytes)

  datatype ConnStatus = ConnStatus(closed: bool, available: bool)

  /** The fields of pipelineConn. */
  datatype Conn = Conn(closed: bool, nextQid: int, reserved: int, queue: map<int, Exchange>)

  const NEW_CONN := Conn(false, 0, 0, map[])

  // ---------------------------------------------------------------------------------
  // Critical sections
  // ---------------------------------------------------------------------------------

  function Status(c: Conn): ConnStatus {
    ConnStatus(c.closed, c.nextQid + c.reserved <= MAX_QID)
  }

  function Reserved(c: Conn): Conn {
    if c.nextQid + c.reserved < MAX_QID then c.(reserved := c.reserved + 1) else c
  }

  /** addQueueC fails when the ids are used up. */
  predicate EndOfLife(c: Conn) {
    c.nextQid > MAX_QID
  }

  function Added(c: Conn, ex: Exchange): Conn {
    var c1 := if c.reserved > 0 then c.(reserved := c.reserved - 1) else c;
    if EndOfLife(c) then c1 else c1.(nextQid := c.nextQid + 1, queue := c.queue[c.nextQid := ex])
  }

  function Deleted(c: Conn, qid: int): Conn {
    c.(queue := c.queue - {qid})
  }

  /** deleteQueueC closes the connection, later, when this was its last exchange. */
  predicate ClosesAfter(c: Conn) {
    EndOfLife(c) && |c.queue| == 0
  }

  function Fetched(c: Conn, id: uint16): Option<Exchange> {
    if id as int in c.queue then Some(c.queue[id as int]) else None
  }

  // ---------------------------------------------------------------------------------
  // The connection and its users
  // ---------------------------------------------------------------------------------

  /**
   Besides the connection: which exchange each id was ever given to, the exchanges that hold an
   id and those that began at all, the response and channel the reader has in its hands, the
   channels' buffers, what exchanges received, and the closes that deleteQueueC still owes.
   */
  datatype World = World(
    conn: Conn,
    owner: map<int, Exchange>,
    live: map<Exchange, int>,
    begun: set<Exchange>,
    reader: Option<(Resp, Option<Exchange>)>,
    buffer: map<Exchange, Resp>,
    received: map<Exchange, Resp>,
    owedCloses: nat)

  const NEW_WORLD := World(NEW_CONN, map[], map[], {}, None, map[], map[], 0)

  datatype Event =
    | Reserve
    | Begin(ex: Exchange)
    | Receive(ex: Exchange)
    | End(ex: Exchange)
    | Read(r: Resp)
    | Send
    | CloseEol
    | Close

  predicate Enabled(w: World, e: Event) {
    match e
    case Begin(ex) => ex !in w.begun
    case Receive(ex) => ex in w.live && ex in w.buffer
    case End(ex) => ex in w.live
    case Read(_) => w.reader.None?
    case Send => w.reader.Some?
    case CloseEol => w.owedCloses > 0
    case _ => true
  }

  /** The send of the reader: the buffer holds one response, and a second one is dropped. */
  function Offered(buffer: map<Exchange, Resp>, r: Resp, ch: Option<Exchange>): map<Exchange, Resp> {
    if ch.Some? && ch.value !in buffer then buffer[ch.value := r] else buffer
  }

  function BeginStep(w: World, ex: Exchange): World {
    var qid := w.conn.nextQid;
    var w1 := w.(conn := Added(w.conn, ex), begun := w.begun + {ex});
    if EndOfLife(w.conn) then w1 else w1.(owner := w.owner[qid := ex], live := w.live[ex := qid])
  }

  function EndStep(w: World, ex: Exchange): World
    requires ex in w.live
  {
    var c := Deleted(w.conn, w.live[ex]);
    w.(conn := c, live := w.live - {ex}, owedCloses := w.owedCloses + if ClosesAfter(c) then 1 else 0)
  }

  function Next(w: World, e: Event): World
    requires Enabled(w, e)
  {
    match e
    case Reserve => w.(conn := Reserved(w.conn))
    case Begin(ex) => BeginStep(w, ex)
    case Receive(ex) => w.(buffer := w.buffer - {ex}, received := w.received[ex := w.buffer[ex]])
    case End(ex) => EndStep(w, ex)
    case Read(r) => w.(reader := Some((r, Fetched(w.conn, r.id))))
    case Send => w.(reader := None, buffer := Offered(w.buffer, w.reader.value.0, w.reader.value.1))
    case CloseEol => w.(conn := w.conn.(closed := true), owedCloses := w.owedCloses - 1)
    case Close => w.(conn := w.conn.(closed := true))
  }

  ghost predicate Run(ws: seq<World>, es: seq<Event>) {
    && |ws| == |es| + 1 && ws[0] == NEW_WORLD
    && forall i | 0 <= i < |es| :: Enabled(ws[i], es[i]) && ws[i + 1] == Next(ws[i], es[i])
  }

  // ---------------------------------------------------------------------------------
  // Invariant
  // ---------------------------------------------------------------------------------

  predicate IdsInv(c: Conn) {
    && 0 <= c.nextQid && 0 <= c.reserved && c.nextQid + c.reserved <= MAX_QID + 1
    && forall q <- c.queue :: 0 <= q < c.nextQid
  }

  /** An id has one owner for ever, and the queue leads to the owners that are still there. */
  predicate OwnerInv(w: World) {
    && (forall q <- w.owner :: 0 <= q < w.conn.nextQid && w.owner[q] in w.begun)
    && (forall q <- w.conn.queue :: q in w.owner && w.conn.queue[q] == w.owner[q] && w.owner[q] in w.live && w.live[w.owner[q]] == q)
    && (forall ex <- w.live :: w.live[ex] in w.conn.queue && w.conn.queue[w.live[ex]] == ex && ex in w.begun)
  }

  /** A response is for the exchange that was given its id. */
  predicate Owns(owner: map<int, Exchange>, r: Resp, ex: Exchange) {
    r.id as int in owner && owner[r.id as int] == ex
  }

  predicate RoutingInv(w: World) {
    && (w.reader.Some? && w.reader.value.1.Some? ==> Owns(w.owner, w.reader.value.0, w.reader.value.1.value))
    && (forall ex <- w.buffer :: Owns(w.owner, w.buffer[ex], ex))
    && (forall ex <- w.received :: Owns(w.owner, w.received[ex], ex))
  }

  /** A connection that is used up closes, when and only when its last exchange has ended. */
  predicate EolInv(w: World) {
    && (w.owedCloses > 0 ==> EndOfLife(w.conn) && w.conn.queue == map[])
    && (EndOfLife(w.conn) && w.conn.queue == map[] ==> w.owedCloses > 0 || w.conn.closed)
  }

  predicate Inv(w: World) {
    IdsInv(w.conn) && OwnerInv(w) && RoutingInv(w) && EolInv(w)
  }

  lemma RoutingKept(w: World, w': World)
    requires RoutingInv(w) && w'.reader == w.reader && w'.buffer == w.buffer && w'.received == w.received
    requires forall q <- w.owner :: q in w'.owner && w'.owner[q] == w.owner[q]
    ensures RoutingInv(w')
  {
  }

  lemma BeginKeepsOwners(w: World, ex: Exchange)
    requires IdsInv(w.conn) && OwnerInv(w) && ex !in w.begun
    ensures OwnerInv(BeginStep(w, ex))
  {
    if !EndOfLife(w.conn) {
      assert w.conn.nextQid !in w.owner && w.conn.nextQid !in w.conn.queue && ex !in w.live;
    }
  }

  lemma BeginKeepsEol(w: World, ex: Exchange)
    requires EolInv(w)
    ensures EolInv(BeginStep(w, ex))
  {
    if !EndOfLife(w.conn) {
      assert w.conn.nextQid in BeginStep(w, ex).conn.queue;
    }
  }

  lemma BeginKeepsInv(w: World, ex: Exchange)
    requires Inv(w) && ex !in w.begun
    ensures Inv(BeginStep(w, ex))
  {
    BeginKeepsOwners(w, ex);
    BeginKeepsEol(w, ex);
    hide RoutingInv, EolInv;
    RoutingKept(w, BeginStep(w, ex));
    hide OwnerInv;
  }

  lemma EndKeepsInv(w: World, ex: Exchange)
    requires Inv(w) && ex in w.live
    ensures Inv(EndStep(w, ex))
  {
  }

  lemma NextKeepsInv(w: World, e: Event)
    requires Inv(w) && Enabled(w, e)
    ensures Inv(Next(w, e))
  {
    hide BeginStep, EndStep;
    match e
    case Begin(ex) => BeginKeepsInv(w, ex);
    case End(ex) => EndKeepsInv(w, ex);
    case _ =>
  }

  lemma {:induction false} RunKeepsInv(ws: seq<World>, es: seq<Event>, i: nat)
    requires Run(ws, es) && i < |ws|
    ensures Inv(ws[i])
  {
    if i > 0 {
      RunKeepsInv(ws, es, i - 1);
      hide Inv, Next;
      NextKeepsInv(ws[i - 1], es[i - 1]);
    }
  }

  // ---------------------------------------------------------------------------------
  // Whole runs
  // ---------------------------------------------------------------------------------

  lemma NextGrows(w: World, e: Event)
    requires Inv(w) && Enabled(w, e)
    ensures w.conn.nextQid <= Next(w, e).conn.nextQid
    ensures forall q <- w.owner :: q in Next(w, e).owner && Next(w, e).owner[q] == w.owner[q]
    ensures EndOfLife(w.conn) && w.conn.queue == map[] ==> Next(w, e).conn.queue == map[]
  {
    hide RoutingInv, EolInv;
  }

  lemma {:induction false} RunGrows(ws: seq<World>, es: seq<Event>, i: nat, j: nat)
    requires Run(ws, es) && i <= j < |ws|
    ensures ws[i].conn.nextQid <= ws[j].conn.nextQid
    ensures forall q <- ws[i].owner :: q in ws[j].owner && ws[j].owner[q] == ws[i].owner[q]
    ensures EndOfLife(ws[i].conn) && ws[i].conn.queue == map[] ==> ws[j].conn.queue == map[]
    decreases j
  {
    if i < j {
      RunGrows(ws, es, i, j - 1);
      RunKeepsInv(ws, es, j - 1);
      hide Inv, Next;
      NextGrows(ws[j - 1], es[j - 1]);
    }
  }

  lemma QueueIsLive(w: World)
    requires OwnerInv(w)
    ensures w.live == map[] <==> w.conn.queue == map[]
  {
    assert forall ex <- w.live :: w.live[ex] in w.conn.queue.Keys;
    assert forall q <- w.conn.queue :: w.owner[q] in w.live.Keys;
    if q :| q in w.conn.queue {
      assert w.owner[q] in w.live;
    } else if ex :| ex in w.live {
      assert w.live[ex] in w.conn.queue;
    }
  }

  lemma IdsStayInRange(ws: seq<World>, es: seq<Event>, i: nat)
    requires Run(ws, es) && i < |ws|
    ensures var c := ws[i].conn;
      && 0 <= c.nextQid && 0 <= c.reserved && c.nextQid + c.reserved <= 65536
      && forall q <- c.queue :: 0 <= q < c.nextQid
  {
    RunKeepsInv(ws, es, i);
  }

  /** No id is given out twice in the life of a connection. */
  lemma IdsAreNotReused(ws: seq<World>, es: seq<Event>, i: nat, j: nat)
    requires Run(ws, es) && i < j < |es| && es[i].Begin? && es[j].Begin?
    requires !EndOfLife(ws[i].conn) && !EndOfLife(ws[j].conn)
    ensures es[i].ex in ws[i + 1].live && es[j].ex in ws[j + 1].live
    ensures ws[i + 1].live[es[i].ex] < ws[j + 1].live[es[j].ex]
  {
    RunGrows(ws, es, i + 1, j);
  }

  /**
   A response that reaches an exchange, its buffer or its hands, carries the id that was given
   to this exchange, and at no time of the run was or is that id anybody else's.
   */
  lemma ResponsesReachTheirOwner(ws: seq<World>, es: seq<Event>, i: nat, j: nat, ex: Exchange, r: Resp)
    requires Run(ws, es) && i < |ws| && j < |ws|
    requires (ex in ws[i].buffer && ws[i].buffer[ex] == r) || (ex in ws[i].received && ws[i].received[ex] == r)
    ensures Owns(ws[i].owner, r, ex)
    ensures r.id as int in ws[j].owner ==> ws[j].owner[r.id as int] == ex
    ensures r.id as int in ws[j].conn.queue ==> ws[j].conn.queue[r.id as int] == ex
  {
    RunKeepsInv(ws, es, i);
    RunKeepsInv(ws, es, j);
    if i <= j {
      RunGrows(ws, es, i, j);
    } else {
      RunGrows(ws, es, j, i);
    }
  }

  /** The close of a used-up connection cuts off nobody: not then, and not before it happens. */
  lemma EolCloseIsClean(ws: seq<World>, es: seq<Event>, i: nat)
    requires Run(ws, es) && i < |es| && es[i] == CloseEol
    ensures EndOfLife(ws[i].conn) && ws[i].conn.queue == map[] && ws[i].live == map[]
  {
    RunKeepsInv(ws, es, i);
    QueueIsLive(ws[i]);
  }

  /** A used-up connection without exchanges is closed, or about to be. */
  lemma UsedUpConnectionsClose(ws: seq<World>, es: seq<Event>, i: nat)
    requires Run(ws, es) && i < |ws| && EndOfLife(ws[i].conn) && ws[i].live == map[]
    ensures ws[i].conn.closed || ws[i].owedCloses > 0
  {
    RunKeepsInv(ws, es, i);
    QueueIsLive(ws[i]);
  }

  /** What Status promises: the next exchange gets an id. */
  lemma AvailableHasId(c: Conn)
    requires IdsInv(c) && Status(c).available
    ensures !EndOfLife(c)
  {
  }

  /** Exchanges that begin one after the other, with nothing in between, all get ids. */
  predicate GetIds(c: Conn, exs: seq<Exchange>)
    decreases |exs|
  {
    exs == [] || (!EndOfLife(c) && GetIds(Added(c, exs[0]), exs[1..]))
  }

  lemma {:induction false} GetIdsWhile(c: Conn, exs: seq<Exchange>)
    requires IdsInv(c)
    ensures GetIds(c, exs) <==> c.nextQid + |exs| <= MAX_QID + 1
    decreases |exs|
  {
    if exs != [] && !EndOfLife(c) {
      GetIdsWhile(Added(c, exs[0]), exs[1..]);
    }
  }

  /** Two callers are told in turn that the connection is available: both are right unless this is the last id. */
  lemma TwoPromises(c: Conn, a: Exchange, b: Exchange)
    requires IdsInv(c) && Status(c).available && Status(Reserved(c)).available
    ensures GetIds(Reserved(Reserved(c)), [a, b]) <==> c.nextQid < MAX_QID
  {
    GetIdsWhile(Reserved(Reserved(c)), [a, b]);
  }

  function Count(es: seq<Event>, i: nat, p: Event -> bool): nat
    requires i <= |es|
  {
    if i == 0 then 0 else Count(es, i - 1, p) + if p(es[i - 1]) then 1 else 0
  }

  /** How often the connection was promised to somebody, and how often somebody came for it. */
  function Promised(es: seq<Event>, i: nat): nat
    requires i <= |es|
  {
    Count(es, i, (e: Event) => e.Reserve?)
  }

  function Redeemed(es: seq<Event>, i: nat): nat
    requires i <= |es|
  {
    Count(es, i, (e: Event) => e.Begin?)
  }

  /** A run in which every exchange begins with a promise of its own. */
  ghost predicate PromisedRun(ws: seq<World>, es: seq<Event>) {
    && Run(ws, es)
    && forall i | 0 <= i < |es| && es[i].Begin? :: Redeemed(es, i) < Promised(es, i)
  }

  /** Until Reserve stops counting, the reserved ids are the open promises; ids are given out one by one. */
  predicate PromiseInv(c: Conn, promised: nat, redeemed: nat) {
    && c.reserved <= promised - redeemed
    && (c.nextQid + c.reserved < MAX_QID ==> c.reserved == promised - redeemed)
    && c.nextQid == if redeemed <= MAX_QID then redeemed else MAX_QID + 1
  }

  lemma PromiseStep(w: World, e: Event, promised: nat, redeemed: nat)
    requires IdsInv(w.conn) && Enabled(w, e) && PromiseInv(w.conn, promised, redeemed)
    requires e.Begin? ==> redeemed < promised
    ensures PromiseInv(Next(w, e).conn, promised + if e.Reserve? then 1 else 0, redeemed + if e.Begin? then 1 else 0)
  {
  }

  lemma {:induction false} RunKeepsPromiseInv(ws: seq<World>, es: seq<Event>, i: nat)
    requires PromisedRun(ws, es) && i < |ws|
    ensures PromiseInv(ws[i].conn, Promised(es, i), Redeemed(es, i))
  {
    if i > 0 {
      RunKeepsPromiseInv(ws, es, i - 1);
      RunKeepsInv(ws, es, i - 1);
      hide Next;
      PromiseStep(ws[i - 1], es[i - 1], Promised(es, i - 1), Redeemed(es, i - 1));
    }
  }

  /** Every exchange that has begun got an id. */
  predicate AllServed(ws: seq<World>, es: seq<Event>, i: nat)
    requires i <= |es| < |ws|
  {
    forall j | 0 <= j < i && es[j].Begin? :: !EndOfLife(ws[j].conn)
  }

  lemma {:induction false} AllServedWhile(ws: seq<World>, es: seq<Event>, i: nat)
    requires PromisedRun(ws, es) && i < |ws|
    ensures AllServed(ws, es, i) <==> Redeemed(es, i) <= MAX_QID + 1
  {
    if i > 0 {
      AllServedWhile(ws, es, i - 1);
      RunKeepsPromiseInv(ws, es, i - 1);
      assert AllServed(ws, es, i) <==>
        AllServed(ws, es, i - 1) && (es[i - 1].Begin? ==> !EndOfLife(ws[i - 1].conn));
    }
  }

  /**
   All the exchanges that were promised an id and have not begun get one exactly when so many ids
   are left, and the connection kept, and can still keep, every promise of its life exactly when
   it made at most 65536.
   */
  lemma PromisesAreKept(ws: seq<World>, es: seq<Event>, i: nat, exs: seq<Exchange>)
    requires PromisedRun(ws, es) && i < |ws|
    requires |exs| == Promised(es, i) - Redeemed(es, i)
    ensures GetIds(ws[i].conn, exs) <==> ws[i].conn.nextQid + |exs| <= MAX_QID + 1
    ensures AllServed(ws, es, i) && GetIds(ws[i].conn, exs) <==> Promised(es, i) <= MAX_QID + 1
    ensures ws[i].conn.nextQid + ws[i].conn.reserved < MAX_QID ==> GetIds(ws[i].conn, exs)
  {
    RunKeepsInv(ws, es, i);
    RunKeepsPromiseInv(ws, es, i);
    AllServedWhile(ws, es, i);
    GetIdsWhile(ws[i].conn, exs);
  }

  lemma {:induction false} CountExtends(es: seq<Event>, e: Event, i: nat, p: Event -> bool)
    requires i <= |es|
    ensures Count(es + [e], i, p) == Count(es, i, p)
  {
    if i > 0 {
      CountExtends(es, e, i - 1, p);
    }
  }

  lemma Extend(ws: seq<World>, es: seq<Event>, e: Event) returns (ws': seq<World>, es': seq<Event>)
    requires PromisedRun(ws, es) && Enabled(ws[|es|], e)
    requires e.Begin? ==> Redeemed(es, |es|) < Promised(es, |es|)
    ensures es' == es + [e] && ws' == ws + [Next(ws[|es|], e)] && PromisedRun(ws', es')
    ensures Promised(es', |es'|) == Promised(es, |es|) + if e.Reserve? then 1 else 0
    ensures Redeemed(es', |es'|) == Redeemed(es, |es|) + if e.Begin? then 1 else 0
    ensures forall i | 0 <= i <= |es| :: Promised(es', i) == Promised(es, i) && Redeemed(es', i) == Redeemed(es, i)
  {
    hide Next, Enabled;
    es', ws' := es + [e], ws + [Next(ws[|es|], e)];
    forall i | 0 <= i <= |es|
      ensures Promised(es', i) == Promised(es, i) && Redeemed(es', i) == Redeemed(es, i)
    {
      CountExtends(es, e, i, (e: Event) => e.Reserve?);
      CountExtends(es, e, i, (e: Event) => e.Begin?);
    }
  }

  /** Reserve alone never makes a connection unavailable: it may promise any number of ids. */
  lemma {:induction false} EndlessPromises(n: nat) returns (ws: seq<World>, es: seq<Event>)
    ensures PromisedRun(ws, es) && Promised(es, |es|) == n && Redeemed(es, |es|) == 0
    ensures forall i | 0 <= i < |ws| :: Status(ws[i].conn).available
  {
    if n == 0 {
      ws, es := [NEW_WORLD], [];
    } else {
      ws, es := EndlessPromises(n - 1);
      ws, es := Extend(ws, es, Reserve);
    }
  }

  /** A connection that served n exchanges, each from its promise to its end. */
  lemma {:induction false} Serve(n: nat) returns (ws: seq<World>, es: seq<Event>)
    requires n <= MAX_QID
    ensures PromisedRun(ws, es) && Promised(es, |es|) == Redeemed(es, |es|) == n
    ensures ws[|es|].conn == Conn(false, n, 0, map[]) && (forall ex <- ws[|es|].begun :: ex < n)
  {
    if n == 0 {
      ws, es := [NEW_WORLD], [];
    } else {
      ws, es := Serve(n - 1);
      var ex: Exchange := n - 1;
      ws, es := Extend(ws, es, Reserve);
      ws, es := Extend(ws, es, Begin(ex));
      ws, es := Extend(ws, es, End(ex));
    }
  }

  /** A run at whose end the last id is promised twice: both were told that there is one, and the second gets none. */
  lemma LastIdIsPromisedTwice() returns (ws: seq<World>, es: seq<Event>, a: Exchange, b: Exchange)
    ensures PromisedRun(ws, es) && |es| >= 4 && es[|es| - 4..] == [Reserve, Reserve, Begin(a), Begin(b)]
    ensures var i := |es| - 4;
      && ws[i].conn == Conn(false, MAX_QID, 0, map[]) && Promised(es, i) == Redeemed(es, i)
      && Status(ws[i].conn).available && Status(ws[i + 1].conn).available
      && a in ws[i + 3].live && b !in ws[i + 4].live && EndOfLife(ws[i + 3].conn)
  {
    a, b := MAX_QID, MAX_QID + 1;
    ws, es := Serve(MAX_QID);
    RunKeepsInv(ws, es, |es|);
    ws, es := Extend(ws, es, Reserve);
    ws, es := Extend(ws, es, Reserve);
    ws, es := Extend(ws, es, Begin(a));
    ws, es := Extend(ws, es, Begin(b));
  }

  // ---------------------------------------------------------------------------------
  // The methods
  // ---------------------------------------------------------------------------------

  class PipelineConnection {
    var closed: bool
    var nextQid: int
    var reserved: int
    var queue: map<int, Exchange>

    ghost function Snap(): Conn
      reads this
    {
      Conn(closed, nextQid, reserved, queue)
    }

    constructor ()
      ensures Snap() == NEW_CONN && IdsInv(Snap())
    {
      closed, nextQid, reserved, queue := false, 0, 0, map[];
    }

    /** An available connection has an id for whoever comes next; in any other all are used or reserved. */
    method ReportStatus() returns (s: ConnStatus)
      requires IdsInv(Snap())
      ensures s == Status(Snap())
      ensures s.available ==> forall ex :: GetIds(Snap(), [ex])
      ensures !s.available ==> nextQid + reserved == 65536
    {
      s := ConnStatus(closed, nextQid + reserved <= MAX_QID);
      if s.available {
        forall ex
          ensures GetIds(Snap(), [ex])
        {
          GetIdsWhile(Snap(), [ex]);
        }
      }
    }

    /** What is reserved is there, and reserving takes the connection from nobody else. */
    method Reserve()
      requires IdsInv(Snap())
      modifies this`reserved
      ensures Snap() == Reserved(old(Snap())) && IdsInv(Snap())
      ensures Status(Snap()) == Status(old(Snap()))
      ensures forall exs: seq<Exchange> | |exs| == reserved :: GetIds(Snap(), exs)
    {
      if nextQid + reserved < MAX_QID {
        reserved := reserved + 1;
      }
      forall exs: seq<Exchange> | |exs| == reserved
        ensures GetIds(Snap(), exs)
      {
        GetIdsWhile(Snap(), exs);
      }
    }

    /** addQueueC: no id at the end of life. */
    method AddQueueC(respChan: Exchange) returns (qid: Option<uint16>)
      requires IdsInv(Snap())
      modifies this`reserved, this`nextQid, this`queue
      ensures Snap() == Added(old(Snap()), respChan) && IdsInv(Snap())
      ensures match qid
        case None => EndOfLife(old(Snap()))
        case Some(q) => !EndOfLife(old(Snap())) && q as int == old(nextQid)
    {
      if reserved > 0 {
        reserved := reserved - 1;
      }
      if nextQid > MAX_QID {
        return None;
      }
      var q := nextQid as uint16;
      nextQid := nextQid + 1;
      queue := queue[q as int := respChan];
      return Some(q);
    }

    /**
     deleteQueueC up to its unlock: closeWithErr follows when eol is true. For the exchange that
     holds the id, whoever else there is, that is when it was the last one of a used-up connection.
     */
    method DeleteQueueC(qid: uint16) returns (eol: bool)
      requires IdsInv(Snap())
      modifies this`queue
      ensures Snap() == Deleted(old(Snap()), qid as int) && IdsInv(Snap())
      ensures eol <==> EndOfLife(Snap()) && queue == map[]
      ensures forall w, ex | Inv(w) && w.conn == old(Snap()) && ex in w.live && w.live[ex] == qid as int ::
        && Inv(EndStep(w, ex)) && EndStep(w, ex).conn == Snap()
        && (eol <==> EndOfLife(Snap()) && EndStep(w, ex).live == map[])
    {
      queue := queue - {qid as int};
      eol := nextQid > MAX_QID && |queue| == 0;
      forall w, ex | Inv(w) && w.conn == old(Snap()) && ex in w.live && w.live[ex] == qid as int
        ensures Inv(EndStep(w, ex)) && (EndStep(w, ex).live == map[] <==> queue == map[])
      {
        EndKeepsInv(w, ex);
        QueueIsLive(EndStep(w, ex));
      }
    }

    /** The one exchange that holds the id, whoever else there is. */
    method GetQueueC(qid: uint16) returns (ch: Option<Exchange>)
      ensures ch == Fetched(Snap(), qid)
      ensures forall w, ex | OwnerInv(w) && w.conn == Snap() ::
        ch == Some(ex) <==> ex in w.live && w.live[ex] == qid as int
    {
      ch := if qid as int in queue then Some(queue[qid as int]) else None;
    }

    /** closeWithErr: whether this call is the one that closes the socket. */
    method CloseWithErr() returns (first: bool)
      modifies this`closed
      ensures Snap() == old(Snap()).(closed := true) && first == !old(closed)
    {
      first := !closed;
      closed := true;
    }
  }
}
