/**
 Health checks and index rebuilds running side by side (app/router/upstream.go and
 app/router/upstream_lb.go): results change the status of upstreams at any time, every change
 owes a rebuild, and a rebuild asks one backend after the other while more results come in.
 */
module HealthSampler {
  import opened Wrappers
  import opened UpstreamHealth
  import opened LoadBalancer

  /** One load balancer: its backends, and the failure threshold of every upstream. */
  datatype Config = Config(e: seq<Backend>, maxFails: seq<int>)

  predicate Sound(c: Config) {
    Weighted(c.e) && forall b <- c.e :: b.upstream < |c.maxFails|
  }

  /**
   The histories of the upstreams; for every upstream the hcRebuildLbsIdx that are still to build
   this balancer's index; the answers that a build under idxM has so far; what was published, and
   the answers it was built from.
   */
  datatype World = World(
    logs: seq<seq<bool>>,
    owed: seq<nat>,
    building: Option<seq<bool>>,
    view: seq<bool>,
    sampler: Sampler)

  datatype Event =
    | Result(upstream: nat, ok: bool)
    | StartBuild(upstream: nat)
    | Ask
    | Publish(sampler: Sampler)

  /** What HcOffline answers for upstream u. */
  predicate Offline(c: Config, w: World, u: nat)
    requires u < |c.maxFails| && u < |w.logs|
  {
    c.maxFails[u] > 0 && After(c.maxFails[u], w.logs[u]).offline
  }

  predicate Shape(c: Config, w: World) {
    && |w.logs| == |w.owed| == |c.maxFails|
    && (w.building.Some? ==> |w.building.value| <= |c.e|)
  }

  /**
   The first build, by initLoadBalancerBackends, begins. Its upstreams may have served other
   balancers for long, and may already owe rebuilds to this one.
   */
  predicate Init(c: Config, w: World) {
    Shape(c, w) && w.building == Some([])
  }

  /** Results are only counted while the health check is on. */
  ghost predicate Enabled(c: Config, w: World, e: Event)
    requires Shape(c, w)
  {
    match e
    case Result(u, _) => u < |w.logs| && c.maxFails[u] > 0
    case StartBuild(u) => u < |w.owed| && w.owed[u] > 0 && w.building.None?
    case Ask => w.building.Some? && |w.building.value| < |c.e|
    case Publish(s) => w.building.Some? && |w.building.value| == |c.e| && Indexes(s, Online(c.e, w.building.value))
  }

  function ResultStep(c: Config, w: World, u: nat, ok: bool): World
    requires u < |w.logs| == |w.owed| == |c.maxFails|
  {
    var w1 := w.(logs := w.logs[u := w.logs[u] + [ok]]);
    if Offline(c, w1, u) != Offline(c, w, u) then w1.(owed := w.owed[u := w.owed[u] + 1]) else w1
  }

  function Next(c: Config, w: World, e: Event): World
    requires Sound(c) && Shape(c, w) && Enabled(c, w, e)
  {
    match e
    case Result(u, ok) => ResultStep(c, w, u, ok)
    case StartBuild(u) => w.(owed := w.owed[u := w.owed[u] - 1], building := Some([]))
    case Ask =>
      var i := |w.building.value|;
      assert c.e[i] in c.e;
      w.(building := Some(w.building.value + [Offline(c, w, c.e[i].upstream)]))
    case Publish(s) => w.(building := None, view := w.building.value, sampler := s)
  }

  ghost predicate Run(c: Config, ws: seq<World>, es: seq<Event>) {
    && Sound(c) && |ws| == |es| + 1 && Init(c, ws[0])
    && forall i | 0 <= i < |es| ::
         Shape(c, ws[i]) && Enabled(c, ws[i], es[i]) && ws[i + 1] == Next(c, ws[i], es[i])
  }

  /** Every answer that is out of date has a rebuild owed by its upstream. */
  predicate CatchesUp(c: Config, w: World, answers: seq<bool>)
    requires Sound(c) && Shape(c, w) && |answers| <= |c.e|
  {
    forall i | 0 <= i < |answers| ::
      assert c.e[i] in c.e;
      answers[i] != Offline(c, w, c.e[i].upstream) ==> w.owed[c.e[i].upstream] > 0
  }

  /** The answers that are published, or will be. */
  ghost predicate Inv(c: Config, w: World)
    requires Sound(c)
  {
    && Shape(c, w)
    && match w.building
       case Some(answers) => CatchesUp(c, w, answers)
       case None => |w.view| == |c.e| && CatchesUp(c, w, w.view) && Indexes(w.sampler, Online(c.e, w.view))
  }

  lemma ResultCatchesUp(c: Config, w: World, u: nat, ok: bool, answers: seq<bool>)
    requires Sound(c) && Shape(c, w) && u < |w.logs| && |answers| <= |c.e| && CatchesUp(c, w, answers)
    ensures Shape(c, ResultStep(c, w, u, ok)) && CatchesUp(c, ResultStep(c, w, u, ok), answers)
  {
    hide After;
  }

  lemma NextKeepsInv(c: Config, w: World, e: Event)
    requires Sound(c) && Inv(c, w) && Enabled(c, w, e)
    ensures Inv(c, Next(c, w, e))
  {
    hide After, Indexes;
    match e
    case Result(u, ok) =>
      ResultCatchesUp(c, w, u, ok, if w.building.Some? then w.building.value else w.view);
    case _ =>
  }

  lemma {:induction false} RunKeepsInv(c: Config, ws: seq<World>, es: seq<Event>, i: nat)
    requires Run(c, ws, es) && i < |ws|
    ensures Inv(c, ws[i])
  {
    if i > 0 {
      RunKeepsInv(c, ws, es, i - 1);
      hide Inv, Next;
      NextKeepsInv(c, ws[i - 1], es[i - 1]);
    }
  }

  /** No rebuild is running or owed. */
  predicate Quiet(w: World) {
    w.building.None? && forall u | 0 <= u < |w.owed| :: w.owed[u] == 0
  }

  /** The statuses of the backends at this moment. */
  function Statuses(c: Config, w: World): (r: seq<bool>)
    requires Sound(c) && Shape(c, w)
    ensures |r| == |c.e|
  {
    seq(|c.e|, i requires 0 <= i < |c.e| => assert c.e[i] in c.e; Offline(c, w, c.e[i].upstream))
  }

  /**
   The published sampler catches up: whenever no rebuild is owed or running, it indexes exactly
   the backends whose upstream is online, in order.
   */
  lemma QuietSamplerIsCurrent(c: Config, ws: seq<World>, es: seq<Event>, i: nat)
    requires Run(c, ws, es) && i < |ws| && Quiet(ws[i])
    ensures Shape(c, ws[i]) && Indexes(ws[i].sampler, Online(c.e, Statuses(c, ws[i])))
  {
    RunKeepsInv(c, ws, es, i);
    hide Run, Indexes, Offline;
    forall k | 0 <= k < |c.e|
      ensures ws[i].view[k] == Statuses(c, ws[i])[k]
    {
      assert c.e[k] in c.e;
    }
    assert ws[i].view == Statuses(c, ws[i]);
  }

  /**
   So what is chosen then, for any number, is a backend whose upstream has not just failed as
   often as its threshold; and nothing is chosen only if there is no such backend.
   */
  lemma QuietChoiceIsOnline(c: Config, ws: seq<World>, es: seq<Event>, i: nat, n: int, r: Option<Backend>)
    requires Run(c, ws, es) && i < |ws| && Quiet(ws[i]) && Chosen(ws[i].sampler.bs, n, r)
    ensures |ws[i].logs| == |c.maxFails|
    ensures match r
      case None => forall b <- c.e :: Failing(c, ws[i], b.upstream)
      case Some(b) => b in c.e && !Failing(c, ws[i], b.upstream)
  {
    QuietSamplerIsCurrent(c, ws, es, i);
    var w := ws[i];
    hide Run, After, Chosen;
    forall b | b in c.e
      ensures b in w.sampler.bs <==> !Failing(c, w, b.upstream)
    {
      OnlineMembers(c.e, Statuses(c, w), b);
      OfflineIsFailing(c, w, b.upstream);
      if k :| 0 <= k < |c.e| && c.e[k] == b {
        assert Statuses(c, w)[k] == Offline(c, w, b.upstream);
      }
    }
    ChosenIsIndexed(w.sampler.bs, n, r);
  }

  predicate Failing(c: Config, w: World, u: nat) {
    u < |w.logs| == |c.maxFails| && c.maxFails[u] > 0 && TrailingFails(w.logs[u]) >= c.maxFails[u]
  }

  lemma OfflineIsFailing(c: Config, w: World, u: nat)
    requires u < |w.logs| == |c.maxFails|
    ensures Offline(c, w, u) <==> Failing(c, w, u)
  {
    if c.maxFails[u] > 0 {
      HealthIsHistory(c.maxFails[u], w.logs[u]);
    }
  }

  lemma ChosenIsIndexed(bs: seq<Backend>, n: int, r: Option<Backend>)
    requires Chosen(bs, n, r)
    ensures r.None? <==> bs == []
    ensures r.Some? ==> r.value in bs
  {
  }

  /** A published answer that is out of date never goes without an owed rebuild. */
  lemma StaleAnswersAreOwed(c: Config, ws: seq<World>, es: seq<Event>, i: nat, k: nat)
    requires Run(c, ws, es) && i < |ws| && ws[i].building.None? && k < |c.e|
    ensures |ws[i].view| == |c.e| && Shape(c, ws[i]) && c.e[k].upstream < |c.maxFails|
    ensures ws[i].view[k] != Offline(c, ws[i], c.e[k].upstream) ==> ws[i].owed[c.e[k].upstream] > 0
  {
    RunKeepsInv(c, ws, es, i);
    assert c.e[k] in c.e;
  }
}
