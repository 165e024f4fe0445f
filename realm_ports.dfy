/**
 * The realm component of src/ports/realm.ts: the name this node announces.
 * A name read from the `.catalyst-name` file wins; then the local
 * lighthouse's name; otherwise the first candidate that no catalyst of the
 * DAO reports, asking each catalyst's `/about` and falling back to its
 * `/comms/status`. The file's contents are the field `file`; whether a
 * write succeeds, the catalysts' registered domains and the fetched bodies
 * are inputs.
 */
module PortsRealm {
  import opened Wrappers
  import opened Js
  import opened CatalystNames

  const DefaultNames: seq<string> := [
    "zeus", "poseidon", "athena", "hera", "hephaestus", "aphrodite", "hades", "hermes",
    "artemis", "thor", "loki", "odin", "freyja", "fenrir", "heimdallr", "baldr"
  ]

  /** What a catalyst's `/comms/status` body names it: its `name` field, or
   *  `None` when the fetch failed or the body is `null`. */
  function CommsStatusName(data: Option<Value>): (r: Option<Value>)
    ensures r.Some? <==> data.Some? && !data.value.Undefined? && !data.value.Null?
    ensures r.Some? ==> r.value == GetPath(data.value, ["name"]).value
  {
    if data.None? then None else Get(data.value, "name")
  }

  /** `resolveCatalystName` (ports/realm.ts:68-104). */
  function CatalystName(domain: string, fetchJson: FetchJson): (r: Value)
    // a plain-http catalyst reports nothing
    ensures NormalizeDomain(domain).None? ==> r == Undefined
    // `/about`'s `configurations.realmName`, when the body and its `configurations` are truthy
    ensures NormalizeDomain(domain).Some? ==>
      var about := fetchJson(NormalizeDomain(domain).value + "/about");
      about.Some? && Truthy(about.value) && Truthy(GetPath(about.value, ["configurations"]).value) ==>
        r == GetPath(about.value, ["configurations", "realmName"]).value
    // otherwise `/comms/status`'s `name`, or nothing when that fails too
    ensures NormalizeDomain(domain).Some? ==>
      var baseUrl := NormalizeDomain(domain).value;
      var about := fetchJson(baseUrl + "/about");
      var comms := fetchJson(baseUrl + "/comms/status");
      !(about.Some? && Truthy(about.value) && Truthy(GetPath(about.value, ["configurations"]).value)) ==>
        r == if comms.Some? && !comms.value.Undefined? && !comms.value.Null?
             then GetPath(comms.value, ["name"]).value else Undefined
  {
    match NormalizeDomain(domain)
    case None => Undefined
    case Some(baseUrl) =>
      match AboutName(fetchJson(baseUrl + "/about"))
      case Some(name) => name
      case None =>
        match CommsStatusName(fetchJson(baseUrl + "/comms/status"))
        case Some(name) => name
        case None => Undefined
  }

  /** Once `/about` names a catalyst, its `/comms/status` is not consulted:
   *  two fetchers that agree on `/about` give the same name. */
  lemma AboutTakesPrecedence(domain: string, f: FetchJson, g: FetchJson)
    requires NormalizeDomain(domain).Some?
    requires var about := NormalizeDomain(domain).value + "/about"; f(about) == g(about) && AboutName(f(about)).Some?
    ensures CatalystName(domain, f) == CatalystName(domain, g)
  {
  }

  class Realm {
    var pickedName: Option<string>
    /** The contents of `.catalyst-name`; `None` when there is no such file. */
    var file: Option<string>

    /** `createRealmComponent` reads the file once; a failed read leaves
     *  no name picked. */
    constructor (file: Option<string>)
      ensures pickedName == file && this.file == file
    {
      pickedName := file;
      this.file := file;
    }

    /** `storeName`: a failed write is only logged. */
    method StoreName(name: string, writeOk: bool)
      modifies this
      ensures file == (if writeOk then Some(name) else old(file))
      ensures pickedName == old(pickedName)
    {
      if writeOk {
        file := Some(name);
      }
    }

    /** `getName` (ports/realm.ts:106-140). */
    method GetName(lighthouseName: Option<string>, realmNames: Option<string>, domains: seq<string>,
                   fetchJson: FetchJson, writeOk: bool) returns (r: Option<string>)
      modifies this
      // a stored name is returned and nothing else is consulted
      ensures Named(old(pickedName)) ==>
        r == old(pickedName) && pickedName == old(pickedName) && file == old(file)
      // otherwise the lighthouse's name is adopted and stored
      ensures !Named(old(pickedName)) && Named(lighthouseName) ==>
        r == lighthouseName && pickedName == r && file == (if writeOk then r else old(file))
      // otherwise the first candidate that no catalyst reports is picked and stored
      ensures !Named(old(pickedName)) && !Named(lighthouseName) ==>
        var cands := Options(realmNames, DefaultNames);
        var free := FirstFree(cands, ExistingNames(domains, d => CatalystName(d, fetchJson)));
        (free.Some? ==> r == Some(cands[free.value]) && pickedName == r && file == (if writeOk then r else old(file)))
        && (free.None? ==> r == old(pickedName) && pickedName == old(pickedName) && file == old(file))
      // a non-empty name, once returned, is what every later call returns
      ensures Named(r) ==> pickedName == r
    {
      if Named(pickedName) {
        return pickedName;
      }
      if Named(lighthouseName) {
        pickedName := lighthouseName;
        StoreName(pickedName.value, writeOk);
        return pickedName;
      }
      var possibleNames := Options(realmNames, DefaultNames);
      var existingNames := CollectNames(domains, d => CatalystName(d, fetchJson));
      r := PickCandidate(possibleNames, existingNames, writeOk);
    }

    /** The candidate loop of `getName` (ports/realm.ts:127-139): the first
     *  candidate not taken is picked and stored; when all are taken the
     *  old value of `pickedName` is returned. */
    method PickCandidate(cands: seq<string>, existing: set<Value>, writeOk: bool) returns (r: Option<string>)
      modifies this
      ensures var free := FirstFree(cands, existing);
        (free.Some? ==> r == Some(cands[free.value]) && pickedName == r && file == (if writeOk then r else old(file)))
        && (free.None? ==> r == old(pickedName) && pickedName == old(pickedName) && file == old(file))
    {
      var j := 0;
      while j < |cands|
        invariant 0 <= j <= |cands|
        invariant forall k :: 0 <= k < j ==> Taken(cands[k], existing)
        invariant pickedName == old(pickedName) && file == old(file)
      {
        if !Taken(cands[j], existing) {
          FirstFreeIs(cands, existing, j);
          pickedName := Some(cands[j]);
          StoreName(cands[j], writeOk);
          return pickedName;
        }
        j := j + 1;
      }
      return pickedName;
    }
  }
}
