/**
 The passive health check of an upstream (app/router/upstream.go): a state that is updated at
 every result, and what it says about the whole history of results.
 */
module UpstreamHealth {
  import opened Wrappers

  /** A ping loop, and the context that cancels it, are known by the result that started them. */
  type PingLoop = nat

  /** The fields of UpstreamWrapper under hcLock, and the loops whose context is not canceled. */
  datatype Health = Health(continuousErr: int, offline: bool, cancelPingLoop: Option<PingLoop>, loops: set<PingLoop>)

  const HEALTHY := Health(0, false, None, {})

  /** hcFailed: at the threshold the upstream goes offline and a ping loop starts. */
  function Failed(maxFails: int, h: Health, ping: PingLoop): Health {
    var h1 := h.(continuousErr := h.continuousErr + 1);
    if !h.offline && h1.continuousErr >= maxFails
    then h1.(offline := true, cancelPingLoop := Some(ping), loops := h.loops + {ping})
    else h1
  }

  /** hcSucceed: of a query or of a ping. */
  function Succeeded(h: Health): Health {
    Health(0, false, None, if h.cancelPingLoop.Some? then h.loops - {h.cancelPingLoop.value} else h.loops)
  }

  /** Results in the order in which they took hcLock: true is a success. */
  function After(maxFails: int, log: seq<bool>): Health {
    if log == [] then HEALTHY
    else
      var h := After(maxFails, log[..|log| - 1]);
      if log[|log| - 1] then Succeeded(h) else Failed(maxFails, h, |log| - 1)
  }

  /** How many failures the history ends with. */
  function TrailingFails(log: seq<bool>): nat {
    if log == [] || log[|log| - 1] then 0 else 1 + TrailingFails(log[..|log| - 1])
  }

  /**
   An upstream is offline exactly when its last results were at least maxFails failures. A ping
   loop can be canceled exactly then, and no other loop is left uncanceled: it is the one that
   the failure reaching the threshold started.
   */
  lemma {:induction false} HealthIsHistory(maxFails: int, log: seq<bool>)
    requires maxFails > 0
    ensures var h := After(maxFails, log);
      var fails := TrailingFails(log);
      && h.continuousErr == fails
      && (h.offline <==> fails >= maxFails)
      && h.cancelPingLoop == (if h.offline then Some(|log| - fails + maxFails - 1) else None)
      && h.loops == (if h.offline then {|log| - fails + maxFails - 1} else {})
  {
    if log != [] {
      HealthIsHistory(maxFails, log[..|log| - 1]);
    }
  }

  class Upstream {
    const maxFails: int
    var continuousErr: int
    var offline: bool
    var cancelPingLoop: Option<PingLoop>
    var loops: set<PingLoop>
    ghost var log: seq<bool>

    ghost predicate Valid()
      reads this
    {
      Health(continuousErr, offline, cancelPingLoop, loops) == After(maxFails, log)
    }

    constructor (maxFails: int)
      ensures Valid() && log == [] && this.maxFails == maxFails
    {
      this.maxFails := maxFails;
      continuousErr, offline, cancelPingLoop, loops := 0, false, None, {};
      log := [];
    }

    method HcOffline() returns (r: bool)
      requires Valid()
      ensures r == (maxFails > 0 && TrailingFails(log) >= maxFails)
    {
      if maxFails <= 0 {
        return false;
      }
      HealthIsHistory(maxFails, log);
      r := offline;
    }

    /** hcSucceed up to its unlock: hcRebuildLbsIdx follows when rebuild is true. */
    method HcSucceed() returns (rebuild: bool)
      requires Valid()
      modifies this
      ensures Valid() && log == old(log) + [true]
      ensures rebuild == (old(offline) != offline)
    {
      continuousErr := 0;
      rebuild := offline;
      offline := false;
      if cancelPingLoop.Some? {
        loops := loops - {cancelPingLoop.value};
        cancelPingLoop := None;
      }
      log := log + [true];
      assert log[..|log| - 1] == old(log);
    }

    /** hcFailed up to its unlock: hcRebuildLbsIdx and the new ping loop follow when rebuild is true. */
    method HcFailed(ping: PingLoop) returns (rebuild: bool)
      requires Valid() && ping == |log|
      modifies this
      ensures Valid() && log == old(log) + [false]
      ensures rebuild == (old(offline) != offline)
    {
      continuousErr := continuousErr + 1;
      rebuild := false;
      if !offline && continuousErr >= maxFails {
        offline := true;
        cancelPingLoop := Some(ping);
        loops := loops + {ping};
        rebuild := true;
      }
      log := log + [false];
      assert log[..|log| - 1] == old(log);
    }
  }
}
