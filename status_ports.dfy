/**
 * The status component of src/ports/status.ts: the last status of the
 * lambdas, content and lighthouse services, each cached for five minutes.
 * `fetchJson` is a parameter: the decoded body at a URL, `None` when the
 * request or the JSON decoding fails.
 */
module PortsStatus {
  import opened Wrappers
  import opened Js
  import opened StatusCache

  /** `ServiceStatus`, and `LighthouseStatus`, which adds `realmName`.
   *  Fields copied from a response keep whatever value it held. */
  datatype Status =
    | ServiceStatus(time: int, version: Value, commitHash: Value)
    | LighthouseStatus(time: int, realmName: Value, version: Value, commitHash: Value)

  function TimeOf(s: Status): int { s.time }

  /** The record built from a `/status` body (ports/status.ts:49-53): `None`
   *  when reading a field throws. */
  function ServiceStatusOf(data: Option<Value>, now: int): (r: Option<Status>)
    ensures r.Some? <==> data.Some? && !data.value.Undefined? && !data.value.Null?
    ensures r.Some? ==> r.value == ServiceStatus(now, Get(data.value, "version").value, Get(data.value, "commitHash").value)
  {
    if data.None? then None
    else
      match (Get(data.value, "version"), Get(data.value, "commitHash"))
      case (Some(version), Some(commitHash)) => Some(ServiceStatus(now, version, commitHash))
      case _ => None
  }

  /** The record built from the lighthouse's `/status` body
   *  (ports/status.ts:98-103): `realmName` is the body's `name`, and
   *  `commitHash` is read from `env`, so a body without `env` throws. */
  function LighthouseStatusOf(data: Option<Value>, now: int): (r: Option<Status>)
    ensures r.Some? <==> data.Some? && GetPath(data.value, ["env", "commitHash"]).Some?
    ensures r.Some? ==>
      r.value == LighthouseStatus(now, Get(data.value, "name").value, Get(data.value, "version").value,
                                  GetPath(data.value, ["env", "commitHash"]).value)
  {
    if data.None? then None
    else
      match (Get(data.value, "name"), Get(data.value, "version"), GetPath(data.value, ["env", "commitHash"]))
      case (Some(name), Some(version), Some(commitHash)) => Some(LighthouseStatus(now, name, version, commitHash))
      case _ => None
  }

  /** A lighthouse body gives a record exactly when it is an object whose
   *  `env` is neither `null` nor `undefined`. */
  lemma LighthouseNeedsEnv(data: Value, now: int)
    ensures LighthouseStatusOf(Some(data), now).Some? <==>
      data.Obj? && "env" in data.fields && !data.fields["env"].Undefined? && !data.fields["env"].Null?
  {
    if data.Obj? {
      assert GetPath(data, ["env", "commitHash"]) == match Get(data, "env") case None => None case Some(w) => GetPath(w, ["commitHash"]);
    } else if !data.Undefined? && !data.Null? {
      assert Get(data, "env") == Some(Undefined);
      assert GetPath(data, ["env", "commitHash"]) == GetPath(Undefined, ["commitHash"]);
    }
  }

  class StatusComponent {
    const lambdasUrl: string
    const contentUrl: string
    const lighthouseUrl: string
    var lastLambdasStatus: Option<Status>
    var lastContentStatus: Option<Status>
    var lastLighthouseStatus: Option<Status>

    /** `createStatusComponent`: the three URLs come from the configuration
     *  and nothing is cached yet. */
    constructor (lambdasUrl: string, contentUrl: string, lighthouseUrl: string)
      ensures this.lambdasUrl == lambdasUrl && this.contentUrl == contentUrl && this.lighthouseUrl == lighthouseUrl
      ensures lastLambdasStatus == None && lastContentStatus == None && lastLighthouseStatus == None
    {
      this.lambdasUrl := lambdasUrl;
      this.contentUrl := contentUrl;
      this.lighthouseUrl := lighthouseUrl;
      lastLambdasStatus := None;
      lastContentStatus := None;
      lastLighthouseStatus := None;
    }

    /** `getLambdasStatus` (ports/status.ts:41-61). */
    method GetLambdasStatus(fetchJson: FetchJson, now: int) returns (r: Option<Status>)
      modifies this
      ensures Lookup(old(lastLambdasStatus), TimeOf, ServiceStatusOf(fetchJson(lambdasUrl + "/status"), now), now)
              == Outcome(r, lastLambdasStatus)
      ensures lastContentStatus == old(lastContentStatus) && lastLighthouseStatus == old(lastLighthouseStatus)
    {
      if lastLambdasStatus.Some? && now - lastLambdasStatus.value.time < StatusExpirationTimeMs {
        return lastLambdasStatus;
      }
      var data := fetchJson(lambdasUrl + "/status");
      var status := ServiceStatusOf(data, now);
      if status.None? {
        return None;
      }
      lastLambdasStatus := status;
      return lastLambdasStatus;
    }

    /** `getContentStatus` (ports/status.ts:65-85). */
    method GetContentStatus(fetchJson: FetchJson, now: int) returns (r: Option<Status>)
      modifies this
      ensures Lookup(old(lastContentStatus), TimeOf, ServiceStatusOf(fetchJson(contentUrl + "/status"), now), now)
              == Outcome(r, lastContentStatus)
      ensures lastLambdasStatus == old(lastLambdasStatus) && lastLighthouseStatus == old(lastLighthouseStatus)
    {
      if lastContentStatus.Some? && now - lastContentStatus.value.time < StatusExpirationTimeMs {
        return lastContentStatus;
      }
      var data := fetchJson(contentUrl + "/status");
      var status := ServiceStatusOf(data, now);
      if status.None? {
        return None;
      }
      lastContentStatus := status;
      return lastContentStatus;
    }

    /** `getLighthouseStatus` (ports/status.ts:90-111). */
    method GetLighthouseStatus(fetchJson: FetchJson, now: int) returns (r: Option<Status>)
      modifies this
      ensures Lookup(old(lastLighthouseStatus), TimeOf, LighthouseStatusOf(fetchJson(lighthouseUrl + "/status"), now), now)
              == Outcome(r, lastLighthouseStatus)
      ensures lastLambdasStatus == old(lastLambdasStatus) && lastContentStatus == old(lastContentStatus)
    {
      if lastLighthouseStatus.Some? && now - lastLighthouseStatus.value.time < StatusExpirationTimeMs {
        return lastLighthouseStatus;
      }
      var data := fetchJson(lighthouseUrl + "/status");
      var status := LighthouseStatusOf(data, now);
      if status.None? {
        return None;
      }
      lastLighthouseStatus := status;
      return lastLighthouseStatus;
    }
  }
}
