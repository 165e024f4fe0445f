/**
 * The `/about` handler of src/controllers/handlers/about-handler.ts: the
 * health of the content, lambdas and comms services as reported by the
 * lambdas' `/health`, replaced for comms under protocol `v3` by whether
 * the cluster status lists `archipelago`, and their conjunction as the
 * overall flag and the HTTP status.
 */
module About {
  import opened Wrappers
  import opened Js
  import AdaptersStatus
  import AdaptersRealm
  import CatalystNames

  /** The `About` body. `comms` is an object because under `v3` it takes
   *  the fields of the archipelago status; `healthy` is the value the
   *  `&&` chain evaluates to. */
  datatype About = About(
    healthy: Value,
    commsProtocol: string,
    realmName: Option<string>,
    contentHealthy: bool,
    comms: map<string, Value>,
    lambdasHealthy: bool,
    bffHealthy: bool,
    bffCommitHash: Option<string>)

  const OK := 200
  const ServiceUnavailable := 503

  /** The own enumerable fields `...v` copies into an object literal. */
  function Spread(v: Value): map<string, Value> {
    if v.Obj? then v.fields else map[]
  }

  /** The comms object under `v3` (about-handler.ts:79-91): healthy when
   *  the cluster status holds a truthy `archipelago` entry, whose own
   *  fields are copied over and so may replace `healthy`. */
  function V3Comms(clusterStatus: map<Value, Value>): (r: map<string, Value>)
    ensures "healthy" in r
    ensures var a := Str("archipelago");
      !(a in clusterStatus && Truthy(clusterStatus[a])) ==> r == map["healthy" := Bool(false)]
    ensures var a := Str("archipelago");
      a in clusterStatus && Truthy(clusterStatus[a]) ==>
        (forall k :: k in r <==> k == "healthy" || k in Spread(clusterStatus[a]))
        && r["healthy"] == (if "healthy" in Spread(clusterStatus[a]) then Spread(clusterStatus[a])["healthy"] else Bool(true))
  {
    var a := Str("archipelago");
    if a in clusterStatus && Truthy(clusterStatus[a]) then map["healthy" := Bool(true)] + Spread(clusterStatus[a])
    else map["healthy" := Bool(false)]
  }

  /** The realm name `aboutHandler` reports, as `getName` picks it with the
   *  protocol as the lighthouse name, given the name `held` before: the name
   *  held, else a non-empty protocol, else the first candidate no catalyst
   *  reports, and the held name when every candidate is taken. */
  ghost predicate ReportedRealmName(commsProtocol: string, held: Option<string>, realmNames: Option<string>,
                                    domains: seq<string>, fetchJson: string -> Option<Value>, name: Option<string>)
  {
    && (CatalystNames.Named(held) ==> name == held)
    && (!CatalystNames.Named(held) && commsProtocol != "" ==> name == Some(commsProtocol))
    && (!CatalystNames.Named(held) && commsProtocol == "" ==>
          var cands := CatalystNames.Options(realmNames, AdaptersRealm.DefaultNames);
          var free := CatalystNames.FirstFree(cands, CatalystNames.ExistingNames(domains, d => AdaptersRealm.CatalystName(d, fetchJson)));
          (free.Some? ==> name == Some(cands[free.value])) && (free.None? ==> name == held))
  }

  /** The realm name `aboutHandler` reports (about-handler.ts:39): the realm
   *  is asked with the protocol as the lighthouse name, and a non-empty
   *  protocol is adopted when no name is held. */
  method AboutRealmName(commsProtocol: string, realm: AdaptersRealm.Realm, realmNames: Option<string>,
                        domains: seq<string>, writeOk: bool, fetchJson: string -> Option<Value>)
    returns (name: Option<string>)
    modifies realm
    ensures ReportedRealmName(commsProtocol, old(realm.pickedName), realmNames, domains, fetchJson, name)
    ensures !CatalystNames.Named(old(realm.pickedName)) && commsProtocol != "" ==> realm.pickedName == Some(commsProtocol)
  {
    name := realm.GetName(Some(commsProtocol), realmNames, domains, fetchJson, writeOk);
  }

  /** `aboutHandler` (about-handler.ts:25-99). The realm is asked for its
   *  name with `COMMS_PROTOCOL` as the lighthouse name; `fetchJson` answers
   *  both the lambdas and the catalysts the realm consults; `clusterStatus`
   *  is what service discovery reports. */
  method AboutHandler(commsProtocol: string, lambdasUrl: string, commitHash: Option<string>,
                      realm: AdaptersRealm.Realm, realmNames: Option<string>, domains: seq<string>,
                      writeOk: bool, fetchJson: string -> Option<Value>, clusterStatus: map<Value, Value>)
    returns (status: int, body: About)
    modifies realm
    ensures body.bffHealthy && body.commsProtocol == commsProtocol && body.bffCommitHash == commitHash
    // the realm is asked with the protocol as its lighthouse name
    ensures ReportedRealmName(commsProtocol, old(realm.pickedName), realmNames, domains, fetchJson, body.realmName)
    ensures !CatalystNames.Named(old(realm.pickedName)) && commsProtocol != "" ==> realm.pickedName == Some(commsProtocol)
    // the content and lambdas flags are the `/health` report, all false when it fails
    ensures var h := AdaptersStatus.LambdasHealth(fetchJson(lambdasUrl + "/health"));
      body.contentHealthy == (h.Some? && h.value.content) && body.lambdasHealthy == (h.Some? && h.value.lambdas)
    // comms is the lambdas' report, except under v3
    ensures var h := AdaptersStatus.LambdasHealth(fetchJson(lambdasUrl + "/health"));
      commsProtocol != "v3" ==> body.comms == map["healthy" := Bool(h.Some? && h.value.comms)]
    ensures commsProtocol == "v3" ==> body.comms == V3Comms(clusterStatus)
    // overall health is the conjunction, and decides the status code
    ensures "healthy" in body.comms
    ensures Truthy(body.healthy) <==> body.contentHealthy && body.lambdasHealthy && Truthy(body.comms["healthy"])
    ensures status == (if Truthy(body.healthy) then OK else ServiceUnavailable)
  {
    var realmName := AboutRealmName(commsProtocol, realm, realmNames, domains, writeOk, fetchJson);
    body := About(Bool(false), commsProtocol, realmName, false, map["healthy" := Bool(false)], false, true, commitHash);
    var data := fetchJson(lambdasUrl + "/health");
    var health := AdaptersStatus.LambdasHealth(data);
    if health.Some? {
      body := body.(contentHealthy := health.value.content);
      body := body.(lambdasHealthy := health.value.lambdas);
      body := body.(comms := map["healthy" := Bool(health.value.comms)]);
    }
    if commsProtocol == "v3" {
      body := body.(comms := V3Comms(clusterStatus));
    }
    body := body.(healthy := And(And(Bool(body.contentHealthy), Bool(body.lambdasHealthy)), body.comms["healthy"]));
    status := if Truthy(body.healthy) then OK else ServiceUnavailable;
  }
}
