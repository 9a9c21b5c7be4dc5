/**
 The methods of the pool (internal/connpool/pool.go), one per critical section, each proved to
 take exactly the step that the state machine of ConnPool allows.
 */
module ConnPoolMethods {
  import opened Wrappers
  import opened ConnPool

  function Better(o: Opts, busy: map<ConnId, int>, st: Statuses, r: Option<ConnId>, c: ConnId): Option<ConnId>
    requires c in busy && (r.Some? ==> r.value in busy)
  {
    if st(c).available && busy[c] < MaxStream(o) && (r.None? || busy[c] > busy[r.value]) then Some(c) else r
  }

  /** A search through the busy connections that has the rest still before it. */
  ghost predicate Scanning(busy: map<ConnId, int>, st: Statuses, scan: Scan, rest: set<ConnId>) {
    && Scanned(busy, st, scan) && rest <= busy.Keys
    && (forall c <- busy.Keys :: c in rest || c in scan.dead || c in scan.seen)
    && (forall c <- rest :: c !in scan.dead && c !in scan.seen)
  }

  lemma BestOfNone(o: Opts, busy: map<ConnId, int>, st: Statuses)
    ensures Scanning(busy, st, Scan({}, {}), busy.Keys) && busy - {} == busy && Best(o, busy, st, {}, None)
  {
  }

  lemma DeadStep(busy: map<ConnId, int>, st: Statuses, scan: Scan, rest: set<ConnId>, c: ConnId)
    requires Scanning(busy, st, scan, rest) && c in rest && st(c).closed
    ensures Scanning(busy, st, scan.(dead := scan.dead + {c}), rest - {c})
    ensures busy - (scan.dead + {c}) == busy - scan.dead - {c}
    ensures c in busy && c !in scan.seen && c !in scan.dead
  {
  }

  lemma SeenStep(busy: map<ConnId, int>, st: Statuses, scan: Scan, rest: set<ConnId>, c: ConnId)
    requires Scanning(busy, st, scan, rest) && |scan.seen| <= MAX_SEARCH_STEPS
    requires c in rest && !st(c).closed
    ensures Scanning(busy, st, scan.(seen := scan.seen + {c}), rest - {c}) && |scan.seen + {c}| == |scan.seen| + 1
    ensures c in busy && c !in scan.dead
  {
  }

  lemma BetterStep(o: Opts, busy: map<ConnId, int>, st: Statuses, seen: set<ConnId>, r: Option<ConnId>, c: ConnId)
    requires seen <= busy.Keys && c in busy && !st(c).closed && Best(o, busy, st, seen, r)
    ensures Best(o, busy, st, seen + {c}, Better(o, busy, st, r, c))
  {
  }

  lemma ScanEnds(busy: map<ConnId, int>, st: Statuses, scan: Scan, rest: set<ConnId>)
    requires Scanning(busy, st, scan, rest) && (rest == {} || |scan.seen| == MAX_SEARCH_STEPS + 1)
    ensures Scanned(busy, st, scan) && Exhausted(busy, scan)
  {
  }

  /** All but conn and what is still ahead was evicted, and is to be closed. */
  ghost predicate Evicting(idle: map<ConnId, int>, now: map<ConnId, int>, todo: set<ConnId>,
                           evicted: set<ConnId>, closing: seq<ConnId>, conn: ConnId) {
    && evicted !! todo && conn !in evicted && evicted + todo + {conn} == idle.Keys
    && now == idle - evicted && multiset(closing) == multiset(evicted)
  }

  lemma EvictingStart(idle: map<ConnId, int>, conn: ConnId)
    requires conn in idle
    ensures Evicting(idle, idle, idle.Keys, {}, [], conn)
  {
  }

  lemma EvictingMeans(idle: map<ConnId, int>, now: map<ConnId, int>, todo: set<ConnId>,
                      evicted: set<ConnId>, closing: seq<ConnId>, conn: ConnId)
    requires Evicting(idle, now, todo, evicted, closing, conn)
    ensures evicted <= idle.Keys - {conn} && now == idle - evicted && multiset(closing) == multiset(evicted)
  {
  }

  lemma EvictingStep(idle: map<ConnId, int>, now: map<ConnId, int>, todo: set<ConnId>,
                     evicted: set<ConnId>, closing: seq<ConnId>, conn: ConnId, c: ConnId)
    requires Evicting(idle, now, todo, evicted, closing, conn) && c in todo
    ensures c == conn ==> Evicting(idle, now, todo - {c}, evicted, closing, conn)
    ensures c != conn ==> Evicting(idle, now - {c}, todo - {c}, evicted + {c}, closing + [c], conn)
    ensures |evicted + {c}| == |evicted| + 1
  {
    assert now - {c} == idle - (evicted + {c});
    assert evicted + {c} + (todo - {c}) == evicted + todo;
  }

  lemma EvictingEnds(idle: map<ConnId, int>, now: map<ConnId, int>, evicted: set<ConnId>, closing: seq<ConnId>, conn: ConnId)
    requires Evicting(idle, now, {}, evicted, closing, conn)
    ensures |evicted| == |idle.Keys| - 1
  {
    assert evicted + {} + {conn} == evicted + {conn};
  }

  /** All idle connections but what is still ahead were of no use. */
  ghost predicate PickingIdle(idle: map<ConnId, int>, st: Statuses, todo: set<ConnId>, dead: set<ConnId>) {
    && todo <= idle.Keys && dead <= idle.Keys - todo && (forall c <- dead :: st(c).closed)
    && forall c <- idle.Keys - todo :: if st(c).closed then c in dead else !st(c).available
  }

  lemma PickingIdleStart(idle: map<ConnId, int>, st: Statuses)
    ensures PickingIdle(idle, st, idle.Keys, {}) && idle - {} == idle
  {
  }

  lemma PickingIdleStep(idle: map<ConnId, int>, st: Statuses, todo: set<ConnId>, dead: set<ConnId>, c: ConnId)
    requires PickingIdle(idle, st, todo, dead) && c in todo
    ensures c in idle && c !in dead
    ensures st(c).closed ==> PickingIdle(idle, st, todo - {c}, dead + {c}) && idle - (dead + {c}) == idle - dead - {c}
    ensures !st(c).closed && !st(c).available ==> PickingIdle(idle, st, todo - {c}, dead)
    ensures !st(c).closed && st(c).available ==> PicksIdle(idle, st, dead, Some(c))
  {
  }

  lemma PickingIdleEnds(idle: map<ConnId, int>, st: Statuses, dead: set<ConnId>)
    requires PickingIdle(idle, st, {}, dead)
    ensures PicksIdle(idle, st, dead, None)
  {
  }

  class Pool {
    const opts: Opts
    var closed: bool
    var dialingCalls: set<CallId>
    var lastDialCall: Option<CallId>
    var calls: map<CallId, Call>
    var busyConns: map<ConnId, int>
    var idleConns: map<ConnId, int>

    ghost function Snap(): State
      reads this
    {
      State(closed, dialingCalls, lastDialCall, calls, busyConns, idleConns)
    }

    /** No dangling pointer to a call. */
    ghost predicate Valid()
      reads this
    {
      dialingCalls <= calls.Keys && (lastDialCall.Some? ==> lastDialCall.value in calls)
    }

    constructor (opts: Opts)
      ensures Valid() && Snap() == NEW_POOL && this.opts == opts
    {
      this.opts := opts;
      closed, dialingCalls, lastDialCall := false, {}, None;
      calls, busyConns, idleConns := map[], map[], map[];
    }

    /** The search of pickBusyConnLocked: st is what the connections report meanwhile. */
    method SearchBusy(st: Statuses) returns (r: Option<ConnId>, ghost scan: Scan)
      modifies this`busyConns
      ensures Picks(opts, old(busyConns), st, scan, r)
      ensures busyConns == old(busyConns) - scan.dead && (r.Some? ==> r.value in busyConns)
    {
      hide Best, Eligible, Scanned, Exhausted, Scanning;
      ghost var busy := busyConns;
      var searchSteps := 0;
      var todo := busyConns.Keys;
      r, scan := None, Scan({}, {});
      BestOfNone(opts, busy, st);
      while todo != {}
        invariant Scanning(busy, st, scan, todo) && |scan.seen| == searchSteps <= MAX_SEARCH_STEPS + 1
        invariant busyConns == busy - scan.dead && scan.seen <= busy.Keys
        invariant r.Some? ==> r.value in scan.seen && r.value !in scan.dead
        invariant Best(opts, busy, st, scan.seen, r)
        decreases |todo|
      {
        var c :| c in todo;
        if st(c).closed {
          DeadStep(busy, st, scan, todo, c);
          todo := todo - {c};
          busyConns := busyConns - {c};
          scan := scan.(dead := scan.dead + {c});
        } else {
          if searchSteps > MAX_SEARCH_STEPS {
            ScanEnds(busy, st, scan, todo);
            return;
          }
          searchSteps := searchSteps + 1;
          SeenStep(busy, st, scan, todo, c);
          BetterStep(opts, busy, st, scan.seen, r, c);
          todo := todo - {c};
          scan := scan.(seen := scan.seen + {c});
          if st(c).available && busyConns[c] < MaxStream(opts) && (r.None? || busyConns[c] > busyConns[r.value]) {
            r := Some(c);
            if busyConns[c] == MaxStream(opts) - 1 {
              return;
            }
          }
        }
      }
      ScanEnds(busy, st, scan, todo);
    }

    /** pickBusyConnLocked */
    method PickBusyConn(st: Statuses) returns (r: Option<ConnId>, ghost scan: Scan)
      modifies this`busyConns
      ensures Picks(opts, old(busyConns), st, scan, r)
      ensures match r
        case None => busyConns == old(busyConns) - scan.dead
        case Some(c) => busyConns == (old(busyConns) - scan.dead)[c := old(busyConns)[c] + 1]
    {
      r, scan := SearchBusy(st);
      if r.Some? {
        busyConns := busyConns[r.value := busyConns[r.value] + 1];
      }
    }

    /** The idle loop of Get. */
    method PickIdleConn(st: Statuses) returns (r: Option<ConnId>, ghost dead: set<ConnId>)
      modifies this`busyConns, this`idleConns
      ensures PicksIdle(old(idleConns), st, dead, r)
      ensures match r
        case None => busyConns == old(busyConns) && idleConns == old(idleConns) - dead
        case Some(c) =>
          busyConns == old(busyConns)[c := old(idleConns)[c] + 1] && idleConns == old(idleConns) - dead - {c}
    {
      hide PicksIdle, PickingIdle;
      ghost var idle := idleConns;
      var todo := idleConns.Keys;
      dead := {};
      PickingIdleStart(idle, st);
      while todo != {}
        invariant busyConns == old(busyConns) && idleConns == idle - dead
        invariant PickingIdle(idle, st, todo, dead)
        decreases |todo|
      {
        var c :| c in todo;
        PickingIdleStep(idle, st, todo, dead, c);
        todo := todo - {c};
        if st(c).closed {
          idleConns := idleConns - {c};
          dead := dead + {c};
        } else if st(c).available {
          var curStream := idleConns[c] + 1;
          idleConns := idleConns - {c};
          busyConns := busyConns[c := curStream];
          return Some(c), dead;
        }
      }
      PickingIdleEnds(idle, st, dead);
      r := None;
    }

    /** The critical section of Get: dc is the call that it would dial. */
    method Get(st: Statuses, dc: CallId) returns (got: Got, ghost scan: Scan, ghost idleDead: set<ConnId>)
      requires Valid() && dc !in calls
      modifies this
      ensures Valid() && GetNext(opts, st, old(Snap()), Snap(), scan, idleDead, got)
    {
      hide Picks, PicksIdle, QueueNext;
      scan, idleDead := Scan({}, {}), {};
      if closed {
        return PoolClosed, scan, idleDead;
      }
      var r;
      r, scan := PickBusyConn(st);
      if r.Some? {
        return PickedBusy(r.value), scan, idleDead;
      }
      r, idleDead := PickIdleConn(st);
      if r.Some? {
        return PickedIdle(r.value), scan, idleDead;
      }
      got := JoinOrDial(dc);
    }

    /** The end of Get's critical section. */
    method JoinOrDial(dc: CallId) returns (got: Got)
      requires Valid() && dc !in calls
      modifies this`calls, this`lastDialCall, this`dialingCalls
      ensures Valid() && QueueNext(opts, old(Snap()), Snap(), got)
    {
      if lastDialCall.Some? {
        var last := lastDialCall.value;
        if calls[last].streamQueue < MaxStream(opts) {
          calls := Requeued(calls, last, 1);
          return Joined(last);
        }
      }
      if opts.maxConn <= 0 || |dialingCalls| + |busyConns| + |idleConns| < opts.maxConn {
        calls := calls[dc := Call(1, None, false)];
        lastDialCall := Some(dc);
        dialingCalls := dialingCalls + {dc};
        return Dialing(dc);
      }
      got := NoConn;
    }

    /** waitConn, once its caller gave up or the outcome was delivered. */
    method WaitConn(dc: CallId, cancelled: bool) returns (r: Option<ConnId>)
      requires Valid() && dc in calls && (cancelled || !calls[dc].Pending())
      modifies this`calls
      ensures Valid() && Snap() == WakeNext(old(Snap()), dc)
      ensures r == old(calls)[dc].conn
    {
      if calls[dc].conn.Some? || calls[dc].failed {
        return calls[dc].conn;
      }
      calls := Requeued(calls, dc, -1);
      r := None;
    }

    /** Release: closing are the connections it closes once the lock is given back. */
    method Release(conn: ConnId, st: Statuses) returns (closing: seq<ConnId>, ghost evicted: set<ConnId>)
      requires Valid()
      modifies this`busyConns, this`idleConns
      ensures Valid() && ReleaseNext(opts, st, old(Snap()), Snap(), conn, evicted)
      ensures multiset(closing) == multiset(evicted)
    {
      hide Evicts;
      closing, evicted := [], {};
      if conn !in busyConns {
        return;
      }
      if st(conn).closed {
        busyConns := busyConns - {conn};
        return;
      }
      busyConns := busyConns[conn := busyConns[conn] - 1];
      if busyConns[conn] == 0 {
        busyConns := busyConns - {conn};
        idleConns := idleConns[conn := 0];
        assert busyConns == old(busyConns) - {conn};
        closing, evicted := EvictIdle(conn);
      }
    }

    /** Release, once its connection is idle. */
    method EvictIdle(conn: ConnId) returns (closing: seq<ConnId>, ghost evicted: set<ConnId>)
      requires conn in idleConns
      modifies this`idleConns
      ensures Evicts(opts, old(Snap()), Snap(), conn, evicted)
      ensures multiset(closing) == multiset(evicted)
    {
      hide MaxIdleAllowed;
      var maxIdleAllowed := MaxIdleAllowed(opts, |busyConns|);
      var rm := |idleConns| - maxIdleAllowed;
      closing, evicted := Evict(conn, rm);
    }

    /** The eviction loop of Release. Another connection is always left to be closed. */
    method Evict(conn: ConnId, rm: int) returns (closing: seq<ConnId>, ghost evicted: set<ConnId>)
      requires conn in idleConns && rm < |idleConns.Keys|
      modifies this`idleConns
      ensures evicted <= old(idleConns).Keys - {conn} && |evicted| == Max(rm, 0)
      ensures idleConns == old(idleConns) - evicted && multiset(closing) == multiset(evicted)
    {
      hide Evicting;
      ghost var idle := idleConns;
      closing, evicted := [], {};
      var left := rm;
      if left <= 0 {
        return;
      }
      var todo := idleConns.Keys;
      EvictingStart(idle, conn);
      while todo != {}
        invariant Evicting(idle, idleConns, todo, evicted, closing, conn)
        invariant |evicted| == rm - left && left > 0
        decreases |todo|
      {
        var c :| c in todo;
        EvictingStep(idle, idleConns, todo, evicted, closing, conn, c);
        todo := todo - {c};
        if c == conn {
          continue;
        }
        idleConns := idleConns - {c};
        closing := closing + [c];
        evicted := evicted + {c};
        left := left - 1;
        if left <= 0 {
          EvictingMeans(idle, idleConns, todo, evicted, closing, conn);
          return;
        }
      }
      EvictingEnds(idle, idleConns, evicted, closing, conn);
      assert false;
    }

    method MarkDead(conn: ConnId)
      requires Valid()
      modifies this`busyConns, this`idleConns
      ensures Valid() && Snap() == MarkDeadNext(old(Snap()), conn)
    {
      idleConns := idleConns - {conn};
      busyConns := busyConns - {conn};
    }

    /** The end of dial: the connection that is to be closed at once, if any. */
    method DialDone(dc: CallId, c: Option<ConnId>) returns (closing: Option<ConnId>)
      requires Valid() && dc in calls
      modifies this
      ensures Valid() && Snap() == DialDoneNext(old(Snap()), dc, c)
      ensures closing == if old(closed) || old(calls)[dc].failed then c else None
    {
      if closed || calls[dc].failed {
        return c;
      }
      calls := Delivered(calls, dc, c);
      if lastDialCall == Some(dc) {
        lastDialCall := None;
      }
      dialingCalls := dialingCalls - {dc};
      if c.Some? {
        var curStream := calls[dc].streamQueue;
        if curStream == 0 {
          idleConns := idleConns[c.value := curStream];
        } else {
          busyConns := busyConns[c.value := curStream];
        }
      }
      closing := None;
    }

    /** Close: closing are the connections it closes once the lock is given back. */
    method Close() returns (closing: seq<ConnId>)
      requires Valid()
      modifies this`closed, this`calls
      ensures Valid() && Snap() == CloseNext(old(Snap()))
      ensures multiset(closing) ==
        if old(closed) then multiset{} else multiset(old(busyConns).Keys) + multiset(old(idleConns).Keys)
    {
      closing := [];
      if closed {
        return;
      }
      closed := true;
      ghost var before := calls;
      var todo := dialingCalls;
      while todo != {}
        invariant closed && todo <= dialingCalls && calls.Keys == before.Keys
        invariant forall d <- before :: calls[d] == if d in dialingCalls - todo then Cancelled(before[d]) else before[d]
        decreases |todo|
      {
        var dc :| dc in todo;
        todo := todo - {dc};
        calls := calls[dc := Cancelled(calls[dc])];
      }
      assert calls == CancelAll(before, dialingCalls);
      var busy := ListOf(busyConns.Keys);
      var idle := ListOf(idleConns.Keys);
      closing := busy + idle;
    }
  }

  /** The elements of a set in some order. */
  method ListOf(s: set<ConnId>) returns (l: seq<ConnId>)
    ensures multiset(l) == multiset(s)
  {
    var todo := s;
    l := [];
    while todo != {}
      invariant todo <= s && multiset(l) == multiset(s - todo)
      decreases |todo|
    {
      var c :| c in todo;
      assert s - (todo - {c}) == (s - todo) + {c};
      todo := todo - {c};
      l := l + [c];
    }
    assert s - {} == s;
  }
}
