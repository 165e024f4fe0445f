/**
 * The realm-name rules shared by src/ports/realm.ts and
 * src/adapters/realm.ts: the candidate names, the normalisation of a
 * catalyst's registered domain, the name a catalyst reports in `/about`,
 * and the choice of the first candidate no catalyst uses.
 */
module CatalystNames {
  import opened Wrappers
  import opened Js

  /** A `string | undefined` that JavaScript treats as true. */
  predicate Named(name: Option<string>) {
    name.Some? && name.value != ""
  }

  /** `getOptions`: `REALM_NAMES` split on commas when it is set and not
   *  empty, the component's default list otherwise. */
  function Options(realmNames: Option<string>, defaults: seq<string>): (r: seq<string>)
    ensures realmNames.None? || realmNames.value == "" ==> r == defaults
    ensures realmNames.Some? && realmNames.value != "" ==>
      |r| >= 1 && (forall i :: 0 <= i < |r| ==> ',' !in r[i]) && Join(r, ',') == realmNames.value
  {
    if realmNames.None? || realmNames.value == "" then defaults
    else
      JoinSplit(realmNames.value, ',');
      Split(realmNames.value, ',')
  }

  /** Two configured lists give the same candidates only when they are the
   *  same string. */
  lemma OptionsInjective(a: string, b: string, defaults: seq<string>)
    requires a != "" && b != ""
    ensures Options(Some(a), defaults) == Options(Some(b), defaults) ==> a == b
  {
    if Options(Some(a), defaults) == Options(Some(b), defaults) {
      SplitInjective(a, b, ',');
    }
  }

  const HttpPrefix := "http://"
  const HttpsPrefix := "https://"

  /** The base URL of a catalyst (ports/realm.ts:72-81, adapters/realm.ts:59-68):
   *  the domain is trimmed, a plain-`http://` domain is skipped, and
   *  `https://` is prefixed unless already there. */
  function NormalizeDomain(domain: string): (r: Option<string>)
    ensures r.None? <==> StartsWith(Trim(domain), HttpPrefix)
    ensures r.Some? ==> StartsWith(r.value, HttpsPrefix) && !StartsWith(r.value, HttpPrefix)
    ensures r.Some? && StartsWith(Trim(domain), HttpsPrefix) ==> r.value == Trim(domain)
    ensures r.Some? && !StartsWith(Trim(domain), HttpsPrefix) ==> r.value == HttpsPrefix + Trim(domain)
  {
    var baseUrl := Trim(domain);
    if StartsWith(baseUrl, HttpPrefix) then None
    else if StartsWith(baseUrl, HttpsPrefix) then
      HttpsIsNotHttp(baseUrl);
      Some(baseUrl)
    else
      HttpsIsNotHttp(HttpsPrefix + baseUrl);
      Some(HttpsPrefix + baseUrl)
  }

  /** The two prefixes part at their fifth character. */
  lemma HttpsIsNotHttp(s: string)
    requires StartsWith(s, HttpsPrefix)
    ensures !StartsWith(s, HttpPrefix)
  {
    assert s[4] == HttpsPrefix[4] == 's';
  }

  /** A string without whitespace at either end is its own trim. */
  lemma TrimUntrimmed(s: string)
    requires Unpadded(s)
    ensures Trim(s) == s
  {
    assert TrimEnd(s) == s;
    assert TrimStart(s) == s;
  }

  /** Normalising a normalised base URL changes nothing. */
  lemma NormalizeIdempotent(domain: string)
    requires NormalizeDomain(domain).Some?
    ensures NormalizeDomain(NormalizeDomain(domain).value) == NormalizeDomain(domain)
  {
    var u := NormalizeDomain(domain).value;
    NormalizedUntrimmed(domain);
    TrimUntrimmed(u);
    HttpsIsNotHttp(u);
    assert Trim(u) == u && StartsWith(u, HttpsPrefix);
  }

  /** A normalised base URL has no whitespace at either end. */
  lemma NormalizedUntrimmed(domain: string)
    requires NormalizeDomain(domain).Some?
    ensures Unpadded(NormalizeDomain(domain).value)
  {
    var t := Trim(domain);
    assert Unpadded(t);
    if StartsWith(t, HttpsPrefix) {
      assert NormalizeDomain(domain).value == t;
    } else {
      assert NormalizeDomain(domain).value == HttpsPrefix + t;
      PrefixedUntrimmed(t);
    }
  }

  /** Prefixing `https://` to a string without trailing whitespace gives one
   *  without whitespace at either end. */
  lemma PrefixedUntrimmed(t: string)
    requires Unpadded(t)
    ensures Unpadded(HttpsPrefix + t)
  {
    var u := HttpsPrefix + t;
    assert u[0] == 'h';
    if t == [] {
      assert u[|u| - 1] == '/';
    } else {
      assert u[|u| - 1] == t[|t| - 1];
    }
  }

  /** What a catalyst's `/about` body names it (realm.ts:84-89 in ports,
   *  71-76 in adapters): `configurations.realmName` when both the body
   *  and its `configurations` are truthy; `None` when the fetch failed or
   *  the guard is false, so the caller moves on. */
  function AboutName(data: Option<Value>): (r: Option<Value>)
    ensures r.Some? <==> data.Some? && Truthy(data.value) && Truthy(GetPath(data.value, ["configurations"]).value)
    ensures r.Some? ==> r.value == GetPath(data.value, ["configurations", "realmName"]).value
  {
    if data.None? || !Truthy(data.value) then None
    else
      var configurations := Get(data.value, "configurations").value;
      if !Truthy(configurations) then None
      else Get(configurations, "realmName")
  }

  /** The set of names the catalysts report, `existingNames`. */
  function ExistingNames(domains: seq<string>, nameOf: string -> Value): set<Value>
  {
    set i | 0 <= i < |domains| :: nameOf(domains[i])
  }

  /** Whether `name` is among the reported names (`existingNames.has`). */
  predicate Taken(name: string, existing: set<Value>) {
    Str(name) in existing
  }

  /** The index of the first candidate no catalyst reports, if any. */
  function FirstFree(cands: seq<string>, existing: set<Value>): (r: Option<nat>)
    ensures r.Some? ==> r.value < |cands| && !Taken(cands[r.value], existing)
    ensures r.Some? ==> forall k :: 0 <= k < r.value ==> Taken(cands[k], existing)
    ensures r.None? ==> forall k :: 0 <= k < |cands| ==> Taken(cands[k], existing)
  {
    if cands == [] then None
    else if !Taken(cands[0], existing) then Some(0)
    else match FirstFree(cands[1..], existing)
      case None => None
      case Some(k) => Some(k + 1)
  }

  /** The first free candidate is determined by the two properties
   *  above: a free candidate after only taken ones is it. */
  lemma FirstFreeIs(cands: seq<string>, existing: set<Value>, i: nat)
    requires i < |cands| && !Taken(cands[i], existing)
    requires forall k :: 0 <= k < i ==> Taken(cands[k], existing)
    ensures FirstFree(cands, existing) == Some(i)
  {
  }

  /** The names the catalysts report, asked one domain after the other
   *  (realm.ts:120-125 in ports, 98-103 in adapters). */
  method CollectNames(domains: seq<string>, nameOf: string -> Value) returns (existing: set<Value>)
    ensures existing == ExistingNames(domains, nameOf)
  {
    existing := {};
    var i := 0;
    while i < |domains|
      invariant 0 <= i <= |domains|
      invariant existing == set k | 0 <= k < i :: nameOf(domains[k])
    {
      existing := existing + {nameOf(domains[i])};
      i := i + 1;
    }
  }
}
