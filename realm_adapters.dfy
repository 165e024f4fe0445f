/**
 * The realm component of src/adapters/realm.ts. It follows the same order
 * as the one in src/ports/realm.ts (stored name, then lighthouse name, then
 * the first free candidate), with its own default names, a name file under
 * `STORAGE_LOCATION`, and catalysts asked only through `/about`.
 */
module AdaptersRealm {
  import opened Wrappers
  import opened Js
  import opened CatalystNames
  import PortsRealm

  const DefaultNames: seq<string> := ["zeus", "poseidon", "hera", "aphrodite", "hades", "hermes", "thor", "freyja", "fenrir"]

  const CatalystNameConfigFile := ".catalyst-name"

  /** A segment `path.join` keeps as it is: not empty, not `.`, and
   *  without a separator. */
  predicate PlainSegment(s: string) {
    s != "" && s != "." && '/' !in s
  }

  /** The path segments `path.join` keeps: empty and `.` segments vanish,
   *  every other one stays, in order. */
  function Kept(segments: seq<string>): (r: seq<string>)
    ensures |r| <= |segments|
    ensures forall i :: 0 <= i < |r| ==> r[i] != "" && r[i] != "." && r[i] in segments
  {
    if segments == [] then []
    else
      var rest := Kept(segments[1..]);
      if segments[0] == "" || segments[0] == "." then rest else [segments[0]] + rest
  }

  /** A single segment is dropped exactly when it is empty or `.`. */
  lemma KeptOne(s: string)
    ensures Kept([s]) == if s == "" || s == "." then [] else [s]
  {
    assert [s][1..] == [];
  }

  /** Segments that are neither empty nor `.` are all kept. */
  lemma {:induction false} KeptPlain(segments: seq<string>)
    requires forall i :: 0 <= i < |segments| ==> segments[i] != "" && segments[i] != "."
    ensures Kept(segments) == segments
  {
    if segments != [] {
      KeptPlain(segments[1..]);
    }
  }

  /** Segments are kept or dropped one by one, independently of their
   *  neighbours. */
  lemma {:induction false} KeptConcat(a: seq<string>, b: seq<string>)
    ensures Kept(a + b) == Kept(a) + Kept(b)
  {
    if a == [] {
      assert a + b == b;
    } else {
      var ab := a + b;
      assert ab[0] == a[0] && ab[1..] == a[1..] + b;
      KeptConcat(a[1..], b);
      if a[0] == "" || a[0] == "." {
        assert Kept(ab) == Kept(a[1..] + b) && Kept(a) == Kept(a[1..]);
      } else {
        assert Kept(ab) == [a[0]] + Kept(a[1..] + b) && Kept(a) == [a[0]] + Kept(a[1..]);
      }
    }
  }

  /** `path.join(dir, name)` for a file name that is one plain segment: the
   *  directory's segments without empty and `.` ones, then the name; an
   *  absolute directory keeps its leading `/`. */
  function PathJoin(dir: string, name: string): (r: string)
    requires PlainSegment(name)
    ensures |r| >= |name| && r[|r| - |name|..] == name
    ensures Kept(Split(dir, '/')) == [] ==> r == (if dir != [] && dir[0] == '/' then "/" else "") + name
  {
    var parts := Kept(Split(dir, '/')) + [name];
    JoinEndsWith(parts, '/');
    (if dir != [] && dir[0] == '/' then "/" else "") + Join(parts, '/')
  }

  /** A join ends with its last part. */
  lemma {:induction false} JoinEndsWith(parts: seq<string>, sep: char)
    requires |parts| >= 1
    ensures var j := Join(parts, sep); var l := parts[|parts| - 1];
      |j| >= |l| && j[|j| - |l|..] == l
  {
    if |parts| > 1 {
      JoinEndsWith(parts[1..], sep);
    }
  }

  /** A directory written as plain segments joined by `/`. */
  predicate PlainDir(segs: seq<string>) {
    |segs| >= 1 && forall i :: 0 <= i < |segs| ==> PlainSegment(segs[i])
  }

  /** Such a directory is not empty and does not start with `/`. */
  lemma {:induction false} PlainDirRelative(segs: seq<string>)
    requires PlainDir(segs)
    ensures Join(segs, '/') != [] && Join(segs, '/')[0] != '/'
  {
    JoinStartsWith(segs, '/');
    assert Join(segs, '/')[0] == segs[0][0];
  }

  /** A relative directory made of plain segments is joined with the name
   *  by a single `/`. */
  lemma {:induction false} PathJoinRelative(segs: seq<string>, name: string)
    requires PlainDir(segs) && PlainSegment(name)
    ensures PathJoin(Join(segs, '/'), name) == Join(segs, '/') + "/" + name
  {
    SplitJoin(segs, '/');
    KeptPlain(segs);
    JoinSnoc(segs, '/', name);
    PlainDirRelative(segs);
  }

  /** So is an absolute one, which keeps its leading `/`. */
  lemma {:induction false} PathJoinAbsolute(segs: seq<string>, name: string)
    requires PlainDir(segs) && PlainSegment(name)
    ensures PathJoin("/" + Join(segs, '/'), name) == "/" + Join(segs, '/') + "/" + name
  {
    var dir := Join(segs, '/');
    SplitJoin(segs, '/');
    SplitAfterPiece("", '/', dir);
    assert "" + ['/'] + dir == "/" + dir;
    KeptPlain(segs);
    assert ([""] + segs)[1..] == segs;
    assert Kept(Split("/" + dir, '/')) == segs;
    JoinSnoc(segs, '/', name);
  }

  /** The join depends only on the kept segments and the leading `/`. */
  lemma {:induction false} PathJoinSameKept(dir: string, dir': string, name: string)
    requires PlainSegment(name)
    requires Kept(Split(dir, '/')) == Kept(Split(dir', '/'))
    requires (dir != [] && dir[0] == '/') == (dir' != [] && dir'[0] == '/')
    ensures PathJoin(dir, name) == PathJoin(dir', name)
  {
  }

  /** One trailing `/` on the directory is dropped. */
  lemma {:induction false} PathJoinTrailing(segs: seq<string>, name: string)
    requires PlainDir(segs) && PlainSegment(name)
    ensures PathJoin(Join(segs, '/') + "/", name) == Join(segs, '/') + "/" + name
  {
    var dir := Join(segs, '/');
    JoinSnoc(segs, '/', "");
    assert dir + ['/'] + "" == dir + "/";
    SplitJoin(segs + [""], '/');
    SplitJoin(segs, '/');
    KeptConcat(segs, [""]);
    assert Kept(Split(dir + "/", '/')) == Kept(Split(dir, '/'));
    PlainDirRelative(segs);
    PathJoinSameKept(dir + "/", dir, name);
    PathJoinRelative(segs, name);
  }

  /** The name file (adapters/realm.ts:29-30): `STORAGE_LOCATION`, or
   *  `./` when it is unset or empty, joined with `.catalyst-name`. Without
   *  `STORAGE_LOCATION` it is `.catalyst-name` in the working directory, as
   *  in src/ports/realm.ts. */
  function ConfigFile(storageLocation: Option<string>): (r: string)
    ensures |r| >= |CatalystNameConfigFile| && r[|r| - |CatalystNameConfigFile|..] == CatalystNameConfigFile
    ensures storageLocation.None? || storageLocation.value == "" ==> r == CatalystNameConfigFile
  {
    if storageLocation.None? || storageLocation.value == "" then
      var pieces := [".", ""];
      assert Join(pieces, '/') == "./";
      SplitJoin(pieces, '/');
      assert Kept(Split("./", '/')) == [];
      PathJoin("./", CatalystNameConfigFile)
    else
      PathJoin(storageLocation.value, CatalystNameConfigFile)
  }

  /** A set storage location is joined with the name file as it is. */
  lemma {:induction false} ConfigFileAt(dir: string)
    requires dir != ""
    ensures ConfigFile(Some(dir)) == PathJoin(dir, CatalystNameConfigFile)
  {
  }

  /** A storage location made of plain segments, with or without one
   *  trailing `/`, holds the name file directly below it. */
  lemma {:induction false} ConfigFileBelow(segs: seq<string>)
    requires PlainDir(segs)
    ensures ConfigFile(Some(Join(segs, '/'))) == Join(segs, '/') + "/" + CatalystNameConfigFile
    ensures ConfigFile(Some("/" + Join(segs, '/'))) == "/" + Join(segs, '/') + "/" + CatalystNameConfigFile
    ensures ConfigFile(Some(Join(segs, '/') + "/")) == Join(segs, '/') + "/" + CatalystNameConfigFile
  {
    var dir := Join(segs, '/');
    PlainDirRelative(segs);
    ConfigFileAt(dir);
    ConfigFileAt("/" + dir);
    ConfigFileAt(dir + "/");
    PathJoinRelative(segs, CatalystNameConfigFile);
    PathJoinAbsolute(segs, CatalystNameConfigFile);
    PathJoinTrailing(segs, CatalystNameConfigFile);
  }

  /** A storage location that is one directory below the root, such as
   *  `STORAGE_LOCATION=/data`, holds the name file `/data/.catalyst-name`. */
  lemma {:induction false} ConfigFileAbsoluteSegment(d: string)
    requires PlainSegment(d)
    ensures ConfigFile(Some("/" + d)) == "/" + d + "/" + CatalystNameConfigFile
  {
    assert Join([d], '/') == d;
    ConfigFileBelow([d]);
  }

  /** `resolveCatalystName` (adapters/realm.ts:55-82): only `/about` is
   *  asked, and a catalyst whose `/about` does not name it reports
   *  nothing. */
  function CatalystName(domain: string, fetchJson: FetchJson): (r: Value)
    ensures NormalizeDomain(domain).None? ==> r == Undefined
    ensures NormalizeDomain(domain).Some? ==>
      var about := fetchJson(NormalizeDomain(domain).value + "/about");
      r == if about.Some? && Truthy(about.value) && Truthy(GetPath(about.value, ["configurations"]).value)
           then GetPath(about.value, ["configurations", "realmName"]).value else Undefined
  {
    match NormalizeDomain(domain)
    case None => Undefined
    case Some(baseUrl) =>
      match AboutName(fetchJson(baseUrl + "/about"))
      case Some(name) => name
      case None => Undefined
  }

  /** Where `/about` names a catalyst, both components agree on its name;
   *  they differ only where src/ports/realm.ts falls back to
   *  `/comms/status`. */
  lemma AgreesWithPortsWhenAboutNames(domain: string, fetchJson: FetchJson)
    requires NormalizeDomain(domain).Some?
    requires AboutName(fetchJson(NormalizeDomain(domain).value + "/about")).Some?
    ensures CatalystName(domain, fetchJson) == PortsRealm.CatalystName(domain, fetchJson)
  {
  }

  class Realm {
    const configFile: string
    var pickedName: Option<string>
    /** The contents of the name file; `None` when there is no such file. */
    var file: Option<string>

    /** `createRealmComponent`: the name file is located once and read
     *  once; a failed read leaves no name picked. */
    constructor (storageLocation: Option<string>, file: Option<string>)
      ensures configFile == ConfigFile(storageLocation)
      ensures pickedName == file && this.file == file
    {
      configFile := ConfigFile(storageLocation);
      pickedName := file;
      this.file := file;
    }

    /** `storeName`: a failed write is only logged. */
    method StoreName(name: string, writeOk: bool)
      modifies this
      ensures file == (if writeOk then Some(name) else old(file))
      ensures pickedName == old(pickedName)
    {
      if writeOk {
        file := Some(name);
      }
    }

    /** `getName` (adapters/realm.ts:84-118). */
    method GetName(lighthouseName: Option<string>, realmNames: Option<string>, domains: seq<string>,
                   fetchJson: FetchJson, writeOk: bool) returns (r: Option<string>)
      modifies this
      ensures Named(old(pickedName)) ==>
        r == old(pickedName) && pickedName == old(pickedName) && file == old(file)
      ensures !Named(old(pickedName)) && Named(lighthouseName) ==>
        r == lighthouseName && pickedName == r && file == (if writeOk then r else old(file))
      ensures !Named(old(pickedName)) && !Named(lighthouseName) ==>
        var cands := Options(realmNames, DefaultNames);
        var free := FirstFree(cands, ExistingNames(domains, d => CatalystName(d, fetchJson)));
        (free.Some? ==> r == Some(cands[free.value]) && pickedName == r && file == (if writeOk then r else old(file)))
        && (free.None? ==> r == old(pickedName) && pickedName == old(pickedName) && file == old(file))
      ensures Named(r) ==> pickedName == r
    {
      if Named(pickedName) {
        return pickedName;
      }
      if Named(lighthouseName) {
        pickedName := lighthouseName;
        StoreName(pickedName.value, writeOk);
        return pickedName;
      }
      var possibleNames := Options(realmNames, DefaultNames);
      var existingNames := CollectNames(domains, d => CatalystName(d, fetchJson));
      r := PickCandidate(possibleNames, existingNames, writeOk);
    }

    /** The candidate loop of `getName` (adapters/realm.ts:105-117). */
    method PickCandidate(cands: seq<string>, existing: set<Value>, writeOk: bool) returns (r: Option<string>)
      modifies this
      ensures var free := FirstFree(cands, existing);
        (free.Some? ==> r == Some(cands[free.value]) && pickedName == r && file == (if writeOk then r else old(file)))
        && (free.None? ==> r == old(pickedName) && pickedName == old(pickedName) && file == old(file))
    {
      var j := 0;
      while j < |cands|
        invariant 0 <= j <= |cands|
        invariant forall k :: 0 <= k < j ==> Taken(cands[k], existing)
        invariant pickedName == old(pickedName) && file == old(file)
      {
        if !Taken(cands[j], existing) {
          FirstFreeIs(cands, existing, j);
          pickedName := Some(cands[j]);
          StoreName(cands[j], writeOk);
          return pickedName;
        }
        j := j + 1;
      }
      return pickedName;
    }
  }
}
