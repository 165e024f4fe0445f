/**
 * The service-discovery component (src/ports/service-discovery.ts): the last
 * status each server announced, and when it was heard from, pruned by a
 * periodic health check.
 */
module ServiceDiscovery {
  import opened Wrappers
  import opened Js

  class ServiceDiscoveryComponent {
    /** `clusterStatus`: server name to its reported status. Keys are
     *  JavaScript values compared by value; `Map` compares object and array
     *  keys by identity instead. */
    var clusterStatus: map<Value, Value>
    /** `lastStatusUpdate`: server name to the time its status arrived. */
    var lastStatusUpdate: map<Value, int>

    /** Both maps always describe the same servers. */
    ghost predicate Valid()
      reads this
    {
      clusterStatus.Keys == lastStatusUpdate.Keys
    }

    constructor ()
      ensures Valid() && clusterStatus == map[] && lastStatusUpdate == map[]
    {
      clusterStatus := map[];
      lastStatusUpdate := map[];
    }

    /**
     * One message of the `service.discovery` subscription
     * (service-discovery.ts:36-44). `decoded` is the JSON decoding of its
     * payload, `None` when decoding fails; reading `serverName` or `status`
     * off `null` throws too. Any throw is caught and changes nothing.
     */
    method OnDiscoveryMessage(decoded: Option<Value>, now: int)
      requires Valid()
      modifies this
      ensures Valid()
      ensures match DiscoveredServer(decoded)
        case None => clusterStatus == old(clusterStatus) && lastStatusUpdate == old(lastStatusUpdate)
        case Some(entry) =>
          clusterStatus == old(clusterStatus)[entry.0 := entry.1]
          && lastStatusUpdate == old(lastStatusUpdate)[entry.0 := now]
    {
      if decoded.None? {
        return;
      }
      var name := Get(decoded.value, "serverName");
      if name.None? {
        return;
      }
      var status := Get(decoded.value, "status");
      clusterStatus := clusterStatus[name.value := status.value];
      lastStatusUpdate := lastStatusUpdate[name.value := now];
    }

    /**
     * The health check run every `interval` milliseconds
     * (service-discovery.ts:50-58): every server last heard from before
     * `now - interval` is forgotten, and no other.
     */
    method HealthCheck(now: int, interval: int)
      requires Valid()
      modifies this
      ensures Valid()
      ensures lastStatusUpdate == map k | k in old(lastStatusUpdate) && !Stale(old(lastStatusUpdate)[k], now, interval) :: old(lastStatusUpdate)[k]
      ensures clusterStatus == map k | k in old(clusterStatus) && !Stale(old(lastStatusUpdate)[k], now, interval) :: old(clusterStatus)[k]
    {
      var todo := lastStatusUpdate.Keys;
      ghost var done: set<Value> := {};
      while todo != {}
        invariant Valid()
        invariant todo + done == old(lastStatusUpdate).Keys && todo !! done
        invariant lastStatusUpdate == map k | k in old(lastStatusUpdate) && !(k in done && Stale(old(lastStatusUpdate)[k], now, interval)) :: old(lastStatusUpdate)[k]
        invariant clusterStatus == map k | k in old(clusterStatus) && !(k in done && Stale(old(lastStatusUpdate)[k], now, interval)) :: old(clusterStatus)[k]
        decreases todo
      {
        var serverName :| serverName in todo;
        var lastUpdate := lastStatusUpdate[serverName];
        var unhealthy := lastUpdate < now - interval;
        if unhealthy {
          clusterStatus := clusterStatus - {serverName};
          lastStatusUpdate := lastStatusUpdate - {serverName};
        }
        todo := todo - {serverName};
        done := done + {serverName};
      }
    }

    /** `getClusterStatus` (service-discovery.ts:61-63): every entry of the
     *  status table. */
    method GetClusterStatus() returns (r: map<Value, Value>)
      ensures r == clusterStatus
    {
      r := clusterStatus;
    }
  }

  /** The server name and status a decoded message announces; `None` when
   *  reading them throws. */
  function DiscoveredServer(decoded: Option<Value>): (r: Option<(Value, Value)>)
    ensures r.None? <==> decoded.None? || decoded.value.Undefined? || decoded.value.Null?
    ensures decoded.Some? && decoded.value.Obj? ==>
      var f := decoded.value.fields;
      r == Some((if "serverName" in f then f["serverName"] else Undefined, if "status" in f then f["status"] else Undefined))
  {
    if decoded.None? then None
    else
      match (Get(decoded.value, "serverName"), Get(decoded.value, "status"))
      case (Some(n), Some(s)) => Some((n, s))
      case _ => None
  }

  /** A server is unhealthy when its last update is older than the interval. */
  predicate Stale(lastUpdate: int, now: int, interval: int) {
    lastUpdate < now - interval
  }

  /** A second sweep at the same time removes nothing more. */
  lemma HealthCheckIdempotent(last: map<Value, int>, now: int, interval: int)
    ensures var once := map k | k in last && !Stale(last[k], now, interval) :: last[k];
            (map k | k in once && !Stale(once[k], now, interval) :: once[k]) == once
  {
  }
}
