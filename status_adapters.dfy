/**
 * The status component of src/adapters/status.ts: the lambdas `/health`
 * report, and the lambdas, content and lighthouse status records, each
 * cached for five minutes and carrying the URL it was read from.
 * `lambdasUrl` and `contentUrl` are the serialised forms of the configured
 * URLs; `fetchJson` is the decoded body at a URL, `None` when the request
 * or the JSON decoding fails.
 */
module AdaptersStatus {
  import opened Wrappers
  import opened Js
  import opened StatusCache

  /** `HealthStatus`: one flag per service reported by the lambdas. */
  datatype HealthStatus = HealthStatus(content: bool, lambdas: bool, comms: bool)

  datatype Status =
    | ServiceStatus(time: int, version: Value, commitHash: Value, publicUrl: string)
    | LighthouseStatus(time: int, realmName: Value, version: Value, commitHash: Value,
                       usersCount: Value, publicUrl: string)

  function TimeOf(s: Status): int { s.time }

  const Healthy: Value := Str("Healthy")

  /** A `/health` field reads as healthy only when it is exactly the string
   *  `"Healthy"`. */
  predicate ReportsHealthy(data: Value, field: string) {
    data.Obj? && field in data.fields && data.fields[field] == Healthy
  }

  /** The mapping of a lambdas `/health` body (adapters/status.ts:52-57):
   *  `None` when the fetch failed or reading a field throws. */
  function LambdasHealth(data: Option<Value>): (r: Option<HealthStatus>)
    ensures r.None? <==> data.None? || data.value.Undefined? || data.value.Null?
    ensures r.Some? ==> (r.value.content <==> ReportsHealthy(data.value, "content"))
    ensures r.Some? ==> (r.value.lambdas <==> ReportsHealthy(data.value, "lambda"))
    ensures r.Some? ==> (r.value.comms <==> ReportsHealthy(data.value, "comms"))
  {
    if data.None? then None
    else
      match (Get(data.value, "content"), Get(data.value, "lambda"), Get(data.value, "comms"))
      case (Some(content), Some(lambda), Some(comms)) =>
        Some(HealthStatus(content == Healthy, lambda == Healthy, comms == Healthy))
      case _ => None
  }

  /** The record built from a catalyst `/status` body: the version is the
   *  body's `catalystVersion` (adapters/status.ts:75-80, 99-104). */
  function ServiceStatusOf(data: Option<Value>, publicUrl: string, now: int): (r: Option<Status>)
    ensures r.Some? <==> data.Some? && !data.value.Undefined? && !data.value.Null?
    ensures r.Some? ==> r.value == ServiceStatus(now, Get(data.value, "catalystVersion").value,
                                                 Get(data.value, "commitHash").value, publicUrl)
  {
    if data.None? then None
    else
      match (Get(data.value, "catalystVersion"), Get(data.value, "commitHash"))
      case (Some(version), Some(commitHash)) => Some(ServiceStatus(now, version, commitHash, publicUrl))
      case _ => None
  }

  /** The lighthouse record (adapters/status.ts:122-132): the URL is read
   *  from the configuration inside the `try`, so a missing `LIGHTHOUSE_URL`
   *  is a failure like a failed fetch; `commitHash` is read from `env`. */
  function LighthouseStatusOf(lighthouseUrl: Option<string>, fetchJson: FetchJson, now: int): (r: Option<Status>)
    ensures lighthouseUrl.None? ==> r.None?
    ensures lighthouseUrl.Some? ==>
      (r.Some? <==> var data := fetchJson(lighthouseUrl.value + "/status");
                    data.Some? && GetPath(data.value, ["env", "commitHash"]).Some?)
    ensures r.Some? ==>
      var data := fetchJson(lighthouseUrl.value + "/status").value;
      r.value == LighthouseStatus(now, Get(data, "name").value, Get(data, "version").value,
                                  GetPath(data, ["env", "commitHash"]).value,
                                  Get(data, "usersCount").value, lighthouseUrl.value)
  {
    if lighthouseUrl.None? then None
    else
      var url := lighthouseUrl.value;
      var data := fetchJson(url + "/status");
      if data.None? then None
      else
        match (Get(data.value, "name"), Get(data.value, "version"),
               GetPath(data.value, ["env", "commitHash"]), Get(data.value, "usersCount"))
        case (Some(name), Some(version), Some(commitHash), Some(usersCount)) =>
          Some(LighthouseStatus(now, name, version, commitHash, usersCount, url))
        case _ => None
  }

  /** Every record a getter hands out carries the URL of the service it
   *  describes: a refresh stamps it, and a cache hit returns what an earlier
   *  refresh stamped. */
  lemma ServedRecordCarriesUrl(cache: Option<Status>, data: Option<Value>, url: string, now: int)
    requires cache.Some? ==> cache.value.publicUrl == url
    ensures var o := Lookup(cache, TimeOf, ServiceStatusOf(data, url, now), now);
      (o.answer.Some? ==> o.answer.value.publicUrl == url) && (o.kept.Some? ==> o.kept.value.publicUrl == url)
    ensures var o := Lookup(cache, TimeOf, ServiceStatusOf(data, url, now), now);
      o.answer.Some? && o.answer != cache ==> o.answer.value.time == now
  {
  }

  class StatusComponent {
    const lambdasUrl: string
    const contentUrl: string
    var lastLambdasStatus: Option<Status>
    var lastContentStatus: Option<Status>
    var lastLighthouseStatus: Option<Status>

    /** `createStatusComponent`: nothing is cached yet. */
    constructor (lambdasUrl: string, contentUrl: string)
      ensures this.lambdasUrl == lambdasUrl && this.contentUrl == contentUrl
      ensures lastLambdasStatus == None && lastContentStatus == None && lastLighthouseStatus == None
    {
      this.lambdasUrl := lambdasUrl;
      this.contentUrl := contentUrl;
      lastLambdasStatus := None;
      lastContentStatus := None;
      lastLighthouseStatus := None;
    }

    /** `getLambdasHealth` (adapters/status.ts:50-64): never cached. */
    method GetLambdasHealth(fetchJson: FetchJson) returns (r: Option<HealthStatus>)
      ensures r == LambdasHealth(fetchJson(lambdasUrl + "/health"))
    {
      var data := fetchJson(lambdasUrl + "/health");
      r := LambdasHealth(data);
    }

    /** `getLambdasStatus` (adapters/status.ts:67-88). */
    method GetLambdasStatus(fetchJson: FetchJson, now: int) returns (r: Option<Status>)
      modifies this
      ensures Lookup(old(lastLambdasStatus), TimeOf, ServiceStatusOf(fetchJson(lambdasUrl + "/status"), lambdasUrl, now), now)
              == Outcome(r, lastLambdasStatus)
      ensures lastContentStatus == old(lastContentStatus) && lastLighthouseStatus == old(lastLighthouseStatus)
    {
      if lastLambdasStatus.Some? && now - lastLambdasStatus.value.time < StatusExpirationTimeMs {
        return lastLambdasStatus;
      }
      var data := fetchJson(lambdasUrl + "/status");
      var status := ServiceStatusOf(data, lambdasUrl, now);
      if status.None? {
        return None;
      }
      lastLambdasStatus := status;
      return lastLambdasStatus;
    }

    /** `getContentStatus` (adapters/status.ts:91-112). */
    method GetContentStatus(fetchJson: FetchJson, now: int) returns (r: Option<Status>)
      modifies this
      ensures Lookup(old(lastContentStatus), TimeOf, ServiceStatusOf(fetchJson(contentUrl + "/status"), contentUrl, now), now)
              == Outcome(r, lastContentStatus)
      ensures lastLambdasStatus == old(lastLambdasStatus) && lastLighthouseStatus == old(lastLighthouseStatus)
    {
      if lastContentStatus.Some? && now - lastContentStatus.value.time < StatusExpirationTimeMs {
        return lastContentStatus;
      }
      var data := fetchJson(contentUrl + "/status");
      var status := ServiceStatusOf(data, contentUrl, now);
      if status.None? {
        return None;
      }
      lastContentStatus := status;
      return lastContentStatus;
    }

    /** `getLighthouseStatus` (adapters/status.ts:116-140); `lighthouseUrl`
     *  is the configuration's `LIGHTHOUSE_URL`, if set. */
    method GetLighthouseStatus(lighthouseUrl: Option<string>, fetchJson: FetchJson, now: int) returns (r: Option<Status>)
      modifies this
      ensures Lookup(old(lastLighthouseStatus), TimeOf, LighthouseStatusOf(lighthouseUrl, fetchJson, now), now)
              == Outcome(r, lastLighthouseStatus)
      ensures lastLambdasStatus == old(lastLambdasStatus) && lastContentStatus == old(lastContentStatus)
    {
      if lastLighthouseStatus.Some? && now - lastLighthouseStatus.value.time < StatusExpirationTimeMs {
        return lastLighthouseStatus;
      }
      if lighthouseUrl.None? {
        return None;
      }
      var status := LighthouseStatusOf(lighthouseUrl, fetchJson, now);
      if status.None? {
        return None;
      }
      lastLighthouseStatus := status;
      return lastLighthouseStatus;
    }
  }
}
