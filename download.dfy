/**
 * What `downloadProjectPlugin` and `downloadAGlobalPlugin`
 * (PackageManager.js:484-556, 548-622) record after a download.
 *
 * The package's metadata document is chosen by version, flattened into an
 * install list, and one download is requested per listed package.  Every
 * manifest fetched is then mixed with what was requested and normalised,
 * and the records are filed under the package's own name.  The registry
 * answer, the outcome of the downloads and the manifest files on disk are
 * parameters.
 */
module Download {
  import opened JsValue
  import opened StatusStore
  import opened DeepMerge
  import Catalog
  import InstallList
  import Cnpm

  // ---------------------------------------------------------------------
  // Choosing the version

  /** PackageManager.js:493: `pkg.versions[version] || pkg.versions[pkg['dist-tags'].latest]`. */
  function ChooseVersion(doc: Json, version: Json): (r: Result<Json>)
    ensures r.Ok? ==>
              && !doc.Undefined? && !doc.Null?
              && var vs := Get(doc, "versions");
                 var latest := Member(Get(doc, "dist-tags"), "latest");
                 || (Truthy(r.value) && Member(vs, ToKey(version)) == Ok(r.value))
                 || (latest.Ok? && Member(vs, ToKey(latest.value)) == Ok(r.value))
    ensures doc.Undefined? || doc.Null? ==> r.Err?
  {
    var versions :- Member(doc, "versions");
    var wanted :- Member(versions, ToKey(version));
    if Truthy(wanted) then Ok(wanted)
    else
      var latest :- Member(Get(doc, "dist-tags"), "latest");
      Member(versions, ToKey(latest))
  }

  /** The requested version wins when the document has it; otherwise the one the `latest` tag names. */
  lemma ChooseVersionPrefersRequested(doc: Json, version: Json)
    requires doc.Obj? && "versions" in doc.fields && doc.fields["versions"].Obj?
    ensures var vs := doc.fields["versions"];
      && (ToKey(version) in vs.fields && Truthy(vs.fields[ToKey(version)]) ==>
            ChooseVersion(doc, version) == Ok(vs.fields[ToKey(version)]))
      && (!(ToKey(version) in vs.fields && Truthy(vs.fields[ToKey(version)])) &&
          "dist-tags" in doc.fields && doc.fields["dist-tags"].Obj? ==>
            ChooseVersion(doc, version) == Member(vs, ToKey(Get(doc.fields["dist-tags"], "latest"))))
  {
  }

  // ---------------------------------------------------------------------
  // The download requests

  /**
   * The nested `for...in` loops of PackageManager.js:496-506 (`tax` =
   * `Project`) and 571-579 (`tax` = `Plugin`), collecting the requests in
   * the order they are queued.
   */
  method CollectRequests(list: Json, tax: string) returns (dl: seq<InstallList.Request>)
    requires list.Obj?
    ensures dl == InstallList.Requests(list, tax)
  {
    dl := [];
    var groups := Get(list, tax);
    if !Truthy(groups) {
      return;
    }
    var owners := ForInKeys(groups);
    var i := 0;
    while i < |owners|
      invariant 0 <= i <= |owners|
      invariant dl == InstallList.OwnerRequests(tax, groups, owners[..i])
    {
      InstallList.OwnerRequestsNext(tax, groups, owners, i);
      var group := Get(groups, owners[i]);
      var more: seq<InstallList.Request> := [];
      if !group.Undefined? && !group.Null? {
        more := CollectItems(tax, owners[i], group);
      }
      dl := dl + more;
      i := i + 1;
    }
    assert owners[..i] == owners;
  }

  /** The inner `for (let item in group)` loop of one owner. */
  method CollectItems(tax: string, owner: string, group: Json) returns (dl: seq<InstallList.Request>)
    requires !group.Undefined? && !group.Null?
    ensures dl == InstallList.GroupRequests(tax, owner, group)
  {
    dl := [];
    var items := ForInKeys(group);
    var j := 0;
    while j < |items|
      invariant 0 <= j <= |items|
      invariant dl == InstallList.ItemRequests(tax, owner, group, items[..j])
    {
      InstallList.ItemRequestsNext(tax, owner, group, items, j);
      var version := Get(group, items[j]);
      dl := dl + [InstallList.Request(InstallList.SubDir(tax, owner, items[j], version), items[j], version)];
      j := j + 1;
    }
    assert items[..j] == items;
  }

  // ---------------------------------------------------------------------
  // What the downloads resolve with

  /** What `install` resolves with (util/install.js:60-64): the name, the version and the directory it ran in. */
  datatype Item = Item(name: string, version: Json, path: string)

  /**
   * `downloadAPackage(subDir, name, version)` once its download succeeded
   * (DownloadManager.js:47-70): a relative directory is placed under the
   * download directory, a missing version is `'latest'`, and an empty
   * name queues nothing and gives `undefined`.
   */
  function ItemOf(downloadDir: string, q: InstallList.Request): (r: Option<Item>)
    ensures r.Some? <==> q.name != ""
    ensures r.Some? ==> r.value.name == q.name && !r.value.version.Undefined?
    ensures r.Some? && !q.version.Undefined? ==> r.value.version == q.version
  {
    if q.name == "" then None else Some(Item(q.name, RequestedVersion(q), downloadDir + "/" + q.subDir))
  }

  /** The version a download asks for: `version = 'latest'` stands in for a missing one. */
  function RequestedVersion(q: InstallList.Request): (r: Json)
    ensures !r.Undefined?
    ensures r == q.version || (q.version.Undefined? && r == Str("latest"))
  {
    if q.version.Undefined? then Str("latest") else q.version
  }

  /** The results of `Promise.all(dl)` read in order; an `undefined` one makes `dlItem.name` throw. */
  function Items(downloadDir: string, qs: seq<InstallList.Request>): (r: Result<seq<Item>>)
    ensures r.Ok? <==> forall i :: 0 <= i < |qs| ==> qs[i].name != ""
    ensures r.Ok? ==> |r.value| == |qs|
    ensures r.Ok? ==> forall i :: 0 <= i < |qs| ==> r.value[i] == Item(qs[i].name, RequestedVersion(qs[i]), downloadDir + "/" + qs[i].subDir)
  {
    if qs == [] then Ok([])
    else
      var prev :- Items(downloadDir, qs[..|qs| - 1]);
      match ItemOf(downloadDir, qs[|qs| - 1])
      case None => Err("TypeError: Cannot read property 'name' of undefined")
      case Some(it) => Ok(prev + [it])
  }

  /** `join(dlItem.path, 'node_modules/<name>/package.json')`: where the downloaded manifest lies. */
  function ManifestPath(it: Item): string
  {
    it.path + "/node_modules/" + it.name + "/package.json"
  }

  /** `{version, path}` kept for one download (PackageManager.js:516-519). */
  function Entry(it: Item): (r: Json)
    ensures r.Obj? && r.fields.Keys == {"version", "path"}
    ensures r.fields["version"] == it.version && r.fields["path"] == Str(ManifestPath(it))
  {
    Obj(["version", "path"], map["version" := it.version, "path" := Str(ManifestPath(it))])
  }

  /** The `reduce` of PackageManager.js:514-521 (and 588-595): an entry per downloaded name. */
  function NameAndVersion(items: seq<Item>): (r: Json)
    ensures r.Obj?
    ensures forall k :: k in r.fields ==>
              r.fields[k].Obj? && r.fields[k].keys == ["version", "path"] && r.fields[k].fields.Keys == {"version", "path"}
  {
    if items == [] then EmptyObj
    else Put(NameAndVersion(items[..|items| - 1]), items[|items| - 1].name, Entry(items[|items| - 1]))
  }

  /** The names are exactly the downloaded ones. */
  lemma {:induction false} NameAndVersionKeys(items: seq<Item>)
    ensures NameAndVersion(items).fields.Keys == set i | 0 <= i < |items| :: items[i].name
  {
    if items != [] {
      var init := items[..|items| - 1];
      NameAndVersionKeys(init);
      assert forall i :: 0 <= i < |init| ==> init[i] == items[i];
      var s := set i | 0 <= i < |items| :: items[i].name;
      var s' := set i | 0 <= i < |init| :: items[i].name;
      assert s == s' + {items[|items| - 1].name};
    }
  }

  /** A download's entry is kept unless a later download has the same name. */
  lemma {:induction false} NameAndVersionLastWins(items: seq<Item>, i: int)
    requires 0 <= i < |items|
    requires forall j :: i < j < |items| ==> items[j].name != items[i].name
    ensures items[i].name in NameAndVersion(items).fields
    ensures NameAndVersion(items).fields[items[i].name] == Entry(items[i])
  {
    var init := items[..|items| - 1];
    if i < |items| - 1 {
      assert forall j :: i < j < |init| ==> init[j] == items[j];
      NameAndVersionLastWins(init, i);
    }
  }

  /**
   * `readJson` of every downloaded manifest (PackageManager.js:522-529),
   * from the parsed manifest files `files`; a missing or unreadable file
   * rejects.
   */
  function ReadManifests(items: seq<Item>, files: map<string, Json>): (r: Result<seq<Json>>)
    ensures r.Ok? <==> forall i :: 0 <= i < |items| ==> ManifestPath(items[i]) in files
    ensures r.Ok? ==> |r.value| == |items|
    ensures r.Ok? ==> forall i :: 0 <= i < |items| ==> r.value[i] == files[ManifestPath(items[i])]
  {
    if items == [] then Ok([])
    else
      var prev :- ReadManifests(items[..|items| - 1], files);
      var path := ManifestPath(items[|items| - 1]);
      if path in files then Ok(prev + [files[path]])
      else Err("Error: ENOENT: no such file or directory, open '" + path + "'")
  }

  // ---------------------------------------------------------------------
  // Object.assign

  /** `Object.assign(target, src)` over the first `|keys|` own enumerable keys of `src`. */
  function AssignKeys(target: Json, src: Json, keys: seq<string>): (r: Json)
    requires target.Obj? && !src.Undefined? && !src.Null?
    ensures r.Obj?
  {
    if keys == [] then target
    else Put(AssignKeys(target, src, keys[..|keys| - 1]), keys[|keys| - 1], Get(src, keys[|keys| - 1]))
  }

  /** `Object.assign(target, src)`: a `null` or `undefined` source is skipped. */
  function Assign(target: Json, src: Json): (r: Json)
    requires target.Obj?
    ensures r.Obj?
  {
    if src.Undefined? || src.Null? then target else AssignKeys(target, src, ForInKeys(src))
  }

  /** `Object.assign(target, ...srcs)`: the sources are copied from left to right. */
  function AssignAll(target: Json, srcs: seq<Json>): (r: Json)
    requires target.Obj?
    ensures r.Obj?
  {
    if srcs == [] then target else Assign(AssignAll(target, srcs[..|srcs| - 1]), srcs[|srcs| - 1])
  }

  lemma AssignAllSnoc(target: Json, srcs: seq<Json>, src: Json)
    requires target.Obj?
    ensures AssignAll(target, srcs + [src]) == Assign(AssignAll(target, srcs), src)
  {
    assert (srcs + [src])[..|srcs|] == srcs;
  }

  /** Each key copied holds its source value; every other key of the target keeps its value. */
  lemma {:induction false} AssignKeysFields(target: Json, src: Json, keys: seq<string>)
    requires target.Obj? && !src.Undefined? && !src.Null?
    ensures var r := AssignKeys(target, src, keys);
      && r.fields.Keys == target.fields.Keys + (set i | 0 <= i < |keys| :: keys[i])
      && (forall k :: k in keys ==> r.fields[k] == Get(src, k))
      && (forall k :: k in target.fields && k !in keys ==> r.fields[k] == target.fields[k])
  {
    if keys != [] {
      var init := keys[..|keys| - 1];
      AssignKeysFields(target, src, init);
      assert forall k :: k in keys <==> k in init || k == keys[|keys| - 1];
      var s := set i | 0 <= i < |keys| :: keys[i];
      var s' := set i | 0 <= i < |init| :: init[i];
      assert s == s' + {keys[|keys| - 1]} by {
        forall k | k in s ensures k in s' + {keys[|keys| - 1]} {
          var i :| 0 <= i < |keys| && keys[i] == k;
          if i < |init| { assert init[i] == k; }
        }
      }
    }
  }

  /** Assigning an object copies its members over the target's, and keeps the target's others. */
  lemma AssignObject(target: Json, src: Json)
    requires target.Obj? && src.Obj? && forall k :: k in src.fields <==> k in src.keys
    ensures var r := Assign(target, src);
      && r.fields.Keys == target.fields.Keys + src.fields.Keys
      && (forall k :: k in src.fields ==> r.fields[k] == src.fields[k])
      && (forall k :: k in target.fields && k !in src.fields ==> r.fields[k] == target.fields[k])
  {
    AssignKeysFields(target, src, src.keys);
    assert (set i | 0 <= i < |src.keys| :: src.keys[i]) == src.fields.Keys by {
      forall k | k in src.fields ensures k in (set i | 0 <= i < |src.keys| :: src.keys[i]) {
        var i :| 0 <= i < |src.keys| && src.keys[i] == k;
      }
    }
  }

  /** `AssignObject` for one key. */
  lemma AssignObjectAt(target: Json, src: Json, k: string)
    requires target.Obj? && src.Obj? && forall k :: k in src.fields <==> k in src.keys
    requires k in target.fields || k in src.fields
    ensures k in Assign(target, src).fields
    ensures Assign(target, src).fields[k] == if k in src.fields then src.fields[k] else target.fields[k]
  {
    AssignObject(target, src);
  }

  /** `AssignObject` for the key set only. */
  lemma AssignObjectKeys(target: Json, src: Json)
    requires target.Obj? && src.Obj? && forall k :: k in src.fields <==> k in src.keys
    ensures Assign(target, src).fields.Keys == target.fields.Keys + src.fields.Keys
  {
    AssignObject(target, src);
  }

  // ---------------------------------------------------------------------
  // The records written

  /** The members added to every downloaded manifest (PackageManager.js:533-535 and 607-609). */
  function Extras(version: Json, installing: bool): (r: Json)
    ensures r.Obj? && r.fields.Keys == (if installing then {"aversion", "enable", "status"} else {"aversion", "enable"})
    ensures forall k :: k in r.fields <==> k in r.keys
    ensures r.fields["aversion"] == version && r.fields["enable"] == Bool(true)
    ensures installing ==> r.fields["status"] == Str("installing")
  {
    if installing then
      Obj(["aversion", "enable", "status"], map["aversion" := version, "enable" := Bool(true), "status" := Str("installing")])
    else Obj(["aversion", "enable"], map["aversion" := version, "enable" := Bool(true)])
  }

  /**
   * `Object.assign({}, apkg, {aversion: apkg.version, enable: true[, status: 'installing']},
   * dlNameAndVersionObj[apkg.name])`, once `apkg.version` could be read.
   */
  function Mix(apkg: Json, nv: Json, installing: bool): (r: Json)
    requires !apkg.Undefined? && !apkg.Null? && nv.Obj?
    ensures r.Obj?
  {
    AssignAll(EmptyObj, [apkg, Extras(Get(apkg, "version"), installing), Get(nv, ToKey(Get(apkg, "name")))])
  }

  /**
   * The `reduce` of PackageManager.js:531-540 (and 605-614) over the
   * manifests; reading `version` of a `null` manifest throws.
   */
  function MixAll(manifests: seq<Json>, nv: Json, installing: bool): (r: Result<seq<Json>>)
    requires nv.Obj?
    ensures r.Ok? <==> forall i :: 0 <= i < |manifests| ==> !manifests[i].Undefined? && !manifests[i].Null?
    ensures r.Ok? ==> |r.value| == |manifests|
  {
    if manifests == [] then Ok([])
    else
      var init := manifests[..|manifests| - 1];
      assert forall i :: 0 <= i < |init| ==> init[i] == manifests[i];
      var prev :- MixAll(init, nv, installing);
      var m :- MixOne(manifests[|manifests| - 1], nv, installing);
      Ok(prev + [m])
  }

  /** Each record of the `reduce` is its manifest mixed. */
  lemma {:induction false} MixAllAt(manifests: seq<Json>, nv: Json, installing: bool, i: int)
    requires nv.Obj? && MixAll(manifests, nv, installing).Ok? && 0 <= i < |manifests|
    ensures !manifests[i].Undefined? && !manifests[i].Null?
    ensures MixAll(manifests, nv, installing).value[i] == Mix(manifests[i], nv, installing)
  {
    var init := manifests[..|manifests| - 1];
    var prev := MixAll(init, nv, installing);
    assert prev.Ok?;
    if i < |init| {
      MixAllAt(init, nv, installing, i);
      assert init[i] == manifests[i];
    }
  }

  /** One step of that `reduce`: `apkg.version` is read before the record is mixed. */
  function MixOne(apkg: Json, nv: Json, installing: bool): (r: Result<Json>)
    requires nv.Obj?
    ensures r.Ok? <==> !apkg.Undefined? && !apkg.Null?
    ensures r.Ok? ==> r.value == Mix(apkg, nv, installing)
  {
    var version :- Member(apkg, "version");
    Ok(Mix(apkg, nv, installing))
  }

  /** A JSON object: its key list and its members agree, as a parsed manifest's do. */
  ghost predicate Manifest(v: Json)
  {
    v.Obj? && forall k :: k in v.fields <==> k in v.keys
  }

  /**
   * A downloaded manifest's mixed record: `aversion` is the manifest's own
   * version, `enable` is true, a plugin's `status` is `installing`, and
   * when its name was downloaded the record's `version` and `path` are the
   * requested version and the downloaded manifest's path.
   */
  lemma MixFields(apkg: Json, items: seq<Item>, installing: bool, i: int)
    requires Manifest(apkg) && 0 <= i < |items|
    requires items[i].name == ToKey(Get(apkg, "name"))
    requires forall j :: i < j < |items| ==> items[j].name != items[i].name
    ensures var m := Mix(apkg, NameAndVersion(items), installing);
      && "aversion" in m.fields && m.fields["aversion"] == Get(apkg, "version")
      && "enable" in m.fields && m.fields["enable"] == Bool(true)
      && (installing ==> "status" in m.fields && m.fields["status"] == Str("installing"))
      && "version" in m.fields && m.fields["version"] == items[i].version
      && "path" in m.fields && m.fields["path"] == Str(ManifestPath(items[i]))
  {
    NameAndVersionLastWins(items, i);
    MixWithEntry(apkg, NameAndVersion(items), installing, items[i]);
  }

  lemma MixWithEntry(apkg: Json, nv: Json, installing: bool, it: Item)
    requires Manifest(apkg) && nv.Obj? && Get(nv, ToKey(Get(apkg, "name"))) == Entry(it)
    ensures var m := Mix(apkg, nv, installing);
      && "aversion" in m.fields && m.fields["aversion"] == Get(apkg, "version")
      && "enable" in m.fields && m.fields["enable"] == Bool(true)
      && (installing ==> "status" in m.fields && m.fields["status"] == Str("installing"))
      && "version" in m.fields && m.fields["version"] == it.version
      && "path" in m.fields && m.fields["path"] == Str(ManifestPath(it))
  {
    var e := Entry(it);
    var x := Extras(Get(apkg, "version"), installing);
    assert Manifest(e);
    AssignThreeAt(apkg, x, e, "aversion");
    AssignThreeAt(apkg, x, e, "enable");
    if installing {
      AssignThreeAt(apkg, x, e, "status");
    }
    AssignThreeAt(apkg, x, e, "version");
    AssignThreeAt(apkg, x, e, "path");
  }

  /** `Object.assign({}, a, x, e)` at one key: the last source holding the key wins. */
  lemma AssignThreeAt(a: Json, x: Json, e: Json, k: string)
    requires Manifest(a) && Manifest(x) && (e.Undefined? || Manifest(e))
    requires k in a.fields || k in x.fields || (e.Obj? && k in e.fields)
    ensures var m := AssignAll(EmptyObj, [a, x, e]);
      k in m.fields &&
      m.fields[k] == if e.Obj? && k in e.fields then e.fields[k] else if k in x.fields then x.fields[k] else a.fields[k]
  {
    assert [] + [a] == [a] && [a] + [x] == [a, x] && [a, x] + [e] == [a, x, e];
    AssignAllSnoc(EmptyObj, [], a);
    AssignAllSnoc(EmptyObj, [a], x);
    AssignAllSnoc(EmptyObj, [a, x], e);
    var a1 := Assign(EmptyObj, a);
    var b := Assign(a1, x);
    AssignObject(EmptyObj, a);
    AssignObject(a1, x);
    if e.Obj? {
      AssignObject(b, e);
    }
  }

  /** Every other member of the manifest is kept as it was. */
  lemma MixKeepsManifest(apkg: Json, items: seq<Item>, installing: bool, k: string)
    requires Manifest(apkg) && k in apkg.fields
    requires k != "aversion" && k != "enable" && k != "status" && k != "version" && k != "path"
    ensures var m := Mix(apkg, NameAndVersion(items), installing);
      k in m.fields && m.fields[k] == apkg.fields[k]
  {
    var nv := NameAndVersion(items);
    var e := Get(nv, ToKey(Get(apkg, "name")));
    var x := Extras(Get(apkg, "version"), installing);
    NameAndVersionEntry(items, ToKey(Get(apkg, "name")));
    assert k !in x.fields;
    AssignThreeAt(apkg, x, e, k);
  }

  /** What `dlNameAndVersionObj[name]` reads: nothing, or an entry holding only `version` and `path`. */
  lemma NameAndVersionEntry(items: seq<Item>, name: string)
    ensures var e := Get(NameAndVersion(items), name);
      e.Undefined? || (Manifest(e) && e.fields.Keys == {"version", "path"})
  {
    var nv := NameAndVersion(items);
    if name in nv.fields {
      var e := nv.fields[name];
      assert forall k :: k in e.fields <==> k in e.keys;
    }
  }

  /**
   * The records of one download batch (PackageManager.js:508-544 and
   * 588-615): the downloads' results, their manifests read back and mixed
   * with what the download knew, normalised and keyed by name.
   */
  function Records(qs: seq<InstallList.Request>, downloadDir: string, files: map<string, Json>,
                   installing: bool): (r: Result<Json>)
    ensures r.Ok? ==> r.value.Obj?
  {
    var items :- Items(downloadDir, qs);
    var manifests :- ReadManifests(items, files);
    var mixes :- MixAll(manifests, NameAndVersion(items), installing);
    Catalog.NormalizePackagesInfo(Arr(mixes), false)
  }

  /**
   * The object a download writes (`dlLocalInfo`, PackageManager.js:507-545
   * and 581-619) for the chosen manifest `pkg`: `{}` when nothing is listed
   * for `tax`, an error when a download (`failure`) or a manifest read
   * fails, else `{tax: {pkg.name: records}}`.  A plugin's records carry
   * `status: 'installing'`, a project's do not.  `fixed` chooses the
   * install list with PackageManager.js:470 as written or as intended.
   */
  function LocalInfo(tax: string, pkg: Json, fixed: bool, downloadDir: string, failure: Option<string>,
                     files: map<string, Json>): (r: Result<Json>)
    ensures r.Ok? ==> r.value.Obj?
  {
    var list :- InstallList.InstallListOf(pkg, fixed);
    var qs := InstallList.Requests(list, tax);
    if qs == [] then Ok(EmptyObj)
    else if failure.Some? then Err(failure.value)
    else
      var pname :- Member(pkg, "name");
      var records :- Records(qs, downloadDir, files, tax == "Plugin");
      Ok(Single(tax, Single(ToKey(pname), records)))
  }

  /**
   * Nothing is written for a taxonomy with no requests; otherwise a failed
   * download fails the call, and a successful one files the batch's records
   * under the taxonomy and the package's name.
   */
  lemma LocalInfoShape(tax: string, pkg: Json, fixed: bool, downloadDir: string, failure: Option<string>, files: map<string, Json>)
    requires LocalInfo(tax, pkg, fixed, downloadDir, failure, files).Ok?
    ensures InstallList.InstallListOf(pkg, fixed).Ok?
    ensures var qs := InstallList.Requests(InstallList.InstallListOf(pkg, fixed).value, tax);
      var local := LocalInfo(tax, pkg, fixed, downloadDir, failure, files).value;
      && (qs == [] ==> local == EmptyObj)
      && (qs != [] ==> failure.None? && !pkg.Undefined? && !pkg.Null? &&
                       Records(qs, downloadDir, files, tax == "Plugin").Ok? &&
                       At(local, [tax, ToKey(Get(pkg, "name"))]) == Some(Records(qs, downloadDir, files, tax == "Plugin").value))
  {
    var qs := InstallList.Requests(InstallList.InstallListOf(pkg, fixed).value, tax);
    if qs != [] {
      var recs := Records(qs, downloadDir, files, tax == "Plugin").value;
      var key := ToKey(Get(pkg, "name"));
      assert LocalInfo(tax, pkg, fixed, downloadDir, failure, files) == Ok(Single(tax, Single(key, recs)));
      FiledUnder(tax, key, recs);
    }
  }

  /** `{tax: {key: v}}` holds `v` at `[tax, key]`. */
  lemma FiledUnder(tax: string, key: string, v: Json)
    ensures At(Single(tax, Single(key, v)), [tax, key]) == Some(v)
  {
    assert [tax, key] == [tax] + [key] && [key] == [key] + [];
    AtCons(Single(tax, Single(key, v)), tax, [key]);
    AtCons(Single(key, v), key, []);
  }

  /** Where the manifest of a request is found once downloaded. */
  function DownloadedManifestPath(downloadDir: string, q: InstallList.Request): string
  {
    downloadDir + "/" + q.subDir + "/node_modules/" + q.name + "/package.json"
  }

  /** Every downloaded manifest is a parsed object whose `name` is the name it was requested under. */
  ghost predicate SelfNamed(qs: seq<InstallList.Request>, downloadDir: string, files: map<string, Json>)
  {
    forall j :: 0 <= j < |qs| ==>
      var p := DownloadedManifestPath(downloadDir, qs[j]);
      p in files && Manifest(files[p]) && "name" in files[p].fields && ToKey(files[p].fields["name"]) == qs[j].name
  }

  /** Each manifest is a parsed object whose `name` is the name its item was downloaded under. */
  ghost predicate NamedAs(items: seq<Item>, manifests: seq<Json>)
  {
    |manifests| == |items| &&
    forall j :: 0 <= j < |items| ==>
      Manifest(manifests[j]) && "name" in manifests[j].fields && ToKey(manifests[j].fields["name"]) == items[j].name
  }

  /** The files a batch reads are its downloads' manifests, so self-named files make self-named manifests. */
  lemma ReadManifestsNamed(qs: seq<InstallList.Request>, downloadDir: string, files: map<string, Json>)
    requires Items(downloadDir, qs).Ok? && ReadManifests(Items(downloadDir, qs).value, files).Ok?
    requires SelfNamed(qs, downloadDir, files)
    ensures NamedAs(Items(downloadDir, qs).value, ReadManifests(Items(downloadDir, qs).value, files).value)
    ensures forall j :: 0 <= j < |qs| ==>
              ReadManifests(Items(downloadDir, qs).value, files).value[j] == files[DownloadedManifestPath(downloadDir, qs[j])]
  {
    var items := Items(downloadDir, qs).value;
    forall j | 0 <= j < |qs| ensures ManifestPath(items[j]) == DownloadedManifestPath(downloadDir, qs[j]) {
      assert items[j] == Item(qs[j].name, RequestedVersion(qs[j]), downloadDir + "/" + qs[j].subDir);
    }
  }

  /** Each mixed record is normalised under the name its manifest was downloaded under. */
  lemma MixesKeyed(items: seq<Item>, manifests: seq<Json>, mixes: seq<Json>, installing: bool)
    requires NamedAs(items, manifests)
    requires MixAll(manifests, NameAndVersion(items), installing) == Ok(mixes)
    ensures forall j :: 0 <= j < |mixes| && Catalog.NormalizeOne(mixes[j], false).Ok? ==>
                        Catalog.NormalizeOne(mixes[j], false).value.0 == items[j].name
  {
    forall j | 0 <= j < |mixes| && Catalog.NormalizeOne(mixes[j], false).Ok?
      ensures Catalog.NormalizeOne(mixes[j], false).value.0 == items[j].name
    {
      MixAllAt(manifests, NameAndVersion(items), installing, j);
      MixKey(manifests[j], items, installing);
    }
  }

  /** A mixed record is normalised under its manifest's name. */
  lemma MixKey(apkg: Json, items: seq<Item>, installing: bool)
    requires Manifest(apkg) && "name" in apkg.fields
    ensures var m := Mix(apkg, NameAndVersion(items), installing);
      Catalog.NormalizeOne(m, false).Ok? ==> Catalog.NormalizeOne(m, false).value.0 == ToKey(apkg.fields["name"])
  {
    MixKeepsManifest(apkg, items, installing, "name");
  }

  /** The record normalised from an object: the members the download set come through. */
  lemma RecordOfMixed(m: Json)
    requires Catalog.RecordOfManifest(m).Ok? && m.Obj?
    requires "aversion" in m.fields && "enable" in m.fields && m.fields["enable"] == Bool(true)
    requires "version" in m.fields && "path" in m.fields && "name" in m.fields
    ensures var rec := Catalog.RecordOfManifest(m).value;
      && Get(rec, "name") == m.fields["name"]
      && Get(rec, "version") == m.fields["version"]
      && Get(rec, "path") == m.fields["path"]
      && Get(rec, "aversion") == OrElse(m.fields["aversion"], Str(""))
      && Get(rec, "enable") == Bool(true)
      && ("status" in m.fields && m.fields["status"] == Str("installing") ==> Get(rec, "status") == Str("installing"))
  {
    Catalog.RecordOfManifestFields(m);
    Catalog.RecordOfManifestPath(m);
  }

  /**
   * The record normalised from a downloaded manifest's mix: its name, the
   * requested version, the manifest path, the manifest's own version as
   * `aversion`, `enable` set and, while installing, status `installing`.
   */
  lemma MixRecordFields(apkg: Json, items: seq<Item>, installing: bool, i: int)
    requires Manifest(apkg) && "name" in apkg.fields && 0 <= i < |items|
    requires items[i].name == ToKey(apkg.fields["name"])
    requires forall j :: i < j < |items| ==> items[j].name != items[i].name
    requires Catalog.RecordOfManifest(Mix(apkg, NameAndVersion(items), installing)).Ok?
    ensures var rec := Catalog.RecordOfManifest(Mix(apkg, NameAndVersion(items), installing)).value;
      && Get(rec, "name") == apkg.fields["name"]
      && Get(rec, "version") == items[i].version
      && Get(rec, "path") == Str(ManifestPath(items[i]))
      && Get(rec, "aversion") == OrElse(Get(apkg, "version"), Str(""))
      && Get(rec, "enable") == Bool(true)
      && (installing ==> Get(rec, "status") == Str("installing"))
  {
    var m := Mix(apkg, NameAndVersion(items), installing);
    MixFields(apkg, items, installing, i);
    MixKeepsManifest(apkg, items, installing, "name");
    RecordOfMixed(m);
  }

  /** Records keyed by their downloads' names: the last download of a name has its record filed under it. */
  lemma MixedRecord(items: seq<Item>, mixes: seq<Json>, recs: Json, i: int)
    requires |mixes| == |items| && 0 <= i < |items|
    requires forall j :: 0 <= j < |mixes| && Catalog.NormalizeOne(mixes[j], false).Ok? ==>
                        Catalog.NormalizeOne(mixes[j], false).value.0 == items[j].name
    requires forall j :: i < j < |items| ==> items[j].name != items[i].name
    requires Catalog.NormalizeAll(mixes, false) == Ok(recs)
    ensures items[i].name in recs.fields
    ensures Catalog.RecordOfManifest(mixes[i]).Ok?
    ensures recs.fields[items[i].name] == Catalog.RecordOfManifest(mixes[i]).value
  {
    Catalog.NormalizeAllOk(mixes, false);
    Catalog.NormalizeAllLastWins(mixes, false, i);
  }

  /**
   * The record of a download requested at `version` whose manifest `apkg`
   * lies at `path`: the requested version, that path, the manifest's own
   * version as `aversion`, `enable` set and, while installing, status
   * `installing`.
   */
  predicate AsDownloaded(rec: Json, version: Json, path: string, apkg: Json, installing: bool)
  {
    && !apkg.Undefined? && !apkg.Null?
    && rec.Obj?
    && Get(rec, "version") == version
    && Get(rec, "path") == Str(path)
    && Get(rec, "aversion") == OrElse(Get(apkg, "version"), Str(""))
    && Get(rec, "enable") == Bool(true)
    && (installing ==> Get(rec, "status") == Str("installing"))
  }

  /**
   * A downloaded package's record as filed (PackageManager.js:508-544): under
   * its requested name, with the requested version, the downloaded manifest's
   * path, the manifest's own version as `aversion`, `enable` set, and, for a
   * plugin, status `installing`.
   */
  lemma DownloadedRecord(qs: seq<InstallList.Request>, downloadDir: string, files: map<string, Json>,
                         installing: bool, i: int)
    requires Records(qs, downloadDir, files, installing).Ok? && 0 <= i < |qs|
    requires SelfNamed(qs, downloadDir, files)
    requires forall j :: i < j < |qs| ==> qs[j].name != qs[i].name
    ensures var recs := Records(qs, downloadDir, files, installing).value;
      var p := DownloadedManifestPath(downloadDir, qs[i]);
      qs[i].name in recs.fields && p in files &&
      AsDownloaded(recs.fields[qs[i].name], RequestedVersion(qs[i]), p, files[p], installing)
  {
    var items := Items(downloadDir, qs).value;
    var manifests := ReadManifests(items, files).value;
    ReadManifestsNamed(qs, downloadDir, files);
    ItemRequested(downloadDir, qs, i);
    var mixes := MixAll(manifests, NameAndVersion(items), installing).value;
    BatchRecord(items, manifests, mixes, Records(qs, downloadDir, files, installing).value, installing, i);
  }

  /** Item `i` is request `i` downloaded, and a name requested only once is downloaded only once. */
  lemma ItemRequested(downloadDir: string, qs: seq<InstallList.Request>, i: int)
    requires Items(downloadDir, qs).Ok? && 0 <= i < |qs|
    requires forall j :: i < j < |qs| ==> qs[j].name != qs[i].name
    ensures var items := Items(downloadDir, qs).value;
      && items[i].name == qs[i].name && items[i].version == RequestedVersion(qs[i])
      && ManifestPath(items[i]) == DownloadedManifestPath(downloadDir, qs[i])
      && forall j :: i < j < |items| ==> items[j].name != items[i].name
  {
  }

  /** `DownloadedRecord` over the batch's items, manifests and mixes. */
  lemma BatchRecord(items: seq<Item>, manifests: seq<Json>, mixes: seq<Json>, recs: Json, installing: bool, i: int)
    requires NamedAs(items, manifests) && 0 <= i < |items|
    requires forall j :: i < j < |items| ==> items[j].name != items[i].name
    requires MixAll(manifests, NameAndVersion(items), installing) == Ok(mixes)
    requires Catalog.NormalizePackagesInfo(Arr(mixes), false) == Ok(recs)
    ensures items[i].name in recs.fields
    ensures AsDownloaded(recs.fields[items[i].name], items[i].version, ManifestPath(items[i]), manifests[i], installing)
  {
    MixesKeyed(items, manifests, mixes, installing);
    MixAllAt(manifests, NameAndVersion(items), installing, i);
    MixedRecord(items, mixes, recs, i);
    MixRecordFields(manifests[i], items, installing, i);
  }

  // ---------------------------------------------------------------------
  // The calls over the status file

  /**
   * What a call asks to write (PackageManager.js:490-545 and 564-619): for
   * a non-empty string name, the registry document `fetch` returns for it,
   * the version chosen, and the downloads' records; `{}` otherwise.
   */
  function Wanted(tax: string, fixed: bool, isAli: bool, fetch: string -> Result<Json>, name: Json, version: Json,
                  downloadDir: string, failure: Option<string>, files: map<string, Json>): (r: Result<Json>)
    ensures r.Ok? ==> r.value.Obj?
    ensures !(name.Str? && name.s != "") ==> r == Ok(EmptyObj)
  {
    if name.Str? && name.s != "" then
      var pkg :- Chosen(isAli, fetch, name.s, version);
      LocalInfo(tax, pkg, fixed, downloadDir, failure, files)
    else Ok(EmptyObj)
  }

  /** PackageManager.js:491-493 (and 566-568): the registry document fetched for `name`, and the version chosen from it. */
  function Chosen(isAli: bool, fetch: string -> Result<Json>, name: string, version: Json): Result<Json>
  {
    var doc :- fetch(Cnpm.GetNamedPackageInfoUrl(isAli, name));
    ChooseVersion(doc, version)
  }

  /**
   * The end of `downloadProjectPlugin` (PackageManager.js:547-555), given
   * what the call asks to write, `w`: a non-empty object is merged into the
   * status file, and the file is read back; anything thrown on the way is
   * caught into `[err, null]`.
   */
  function WriteProject(d: Disk, file: string, now: nat, w: Result<Json>): (s: Step<Reply>)
    requires DiskOk(d) && (w.Ok? ==> w.value.Obj?)
    ensures s.out.Ok? && DiskOk(s.disk) && AsidesKept(d, s.disk)
    ensures w.Err? ==> s.disk == d && s.out.value == Reply(Some(w.error), Null)
    ensures s.out.value.err.None? ==> s.disk.file == Holds(s.out.value.value) && Read(d, file, now).out.Ok?
    ensures w.Ok? && IsEmptyObj(w.value) ==> s.disk.file == Read(d, file, now).disk.file
    ensures w.Ok? && !IsEmptyObj(w.value) && s.out.value.err.None? ==>
              s.out.value.value == Serialize(Merge(Read(d, file, now).out.value, w.value))
  {
    match w
    case Err(e) => Step(d, Ok(Reply(Some(e), Null)))
    case Ok(local) =>
      if IsEmptyObj(local) then ReadBack(d, file, now)
      else
        var u := Update(d, file, now, local, false);
        if u.out.Err? then Step(u.disk, Ok(Reply(Some(u.out.error), Null)))
        else
          ReadBack(u.disk, file, now)
  }

  /** `downloadProjectPlugin(name = '', version = 'latest')` (PackageManager.js:484-556). */
  function DownloadProjectPlugin(d: Disk, file: string, now: nat, fixed: bool, isAli: bool, fetch: string -> Result<Json>,
                                 name: Json, version: Json, downloadDir: string, failure: Option<string>,
                                 files: map<string, Json>): (s: Step<Reply>)
    requires DiskOk(d)
    ensures s.out.Ok? && DiskOk(s.disk) && AsidesKept(d, s.disk)
    ensures !(Default(name, Str("")).Str? && Default(name, Str("")).s != "") ==>
              s.disk.file == Read(d, file, now).disk.file &&
              (s.out.value.err.None? <==> Read(d, file, now).out.Ok?)
  {
    WriteProject(d, file, now, Wanted("Project", fixed, isAli, fetch, Default(name, Str("")), Default(version, Str("latest")),
                                      downloadDir, failure, files))
  }

  /** `[null, readStatusJSON()]`, or `[err, null]` when the read throws. */
  function ReadBack(d: Disk, file: string, now: nat): (s: Step<Reply>)
    requires DiskOk(d)
    ensures s.out.Ok? && DiskOk(s.disk) && AsidesKept(d, s.disk) && s.disk == Read(d, file, now).disk
    ensures s.out.value.err.None? <==> Read(d, file, now).out.Ok?
    ensures s.out.value.err.None? ==> s.out.value.value == Read(d, file, now).out.value
    ensures s.out.value.err.None? ==> s.disk.file == Holds(s.out.value.value)
  {
    var r := Read(d, file, now);
    match r.out
    case Err(e) => Step(r.disk, Ok(Reply(Some(e), Null)))
    case Ok(tree) => Step(r.disk, Ok(Reply(None, tree)))
  }

  /** What `downloadAGlobalPlugin` resolves with: the usual pair, or the merged tree alone (PackageManager.js:622). */
  datatype Answer = Pair(reply: Reply) | Bare(tree: Json)

  /**
   * The end of `downloadAGlobalPlugin` (PackageManager.js:621-629): as for
   * a project, except that once records were written the call returns what
   * `updateStatusJSON` returned, not a pair.
   */
  function WriteGlobalPlugin(d: Disk, file: string, now: nat, w: Result<Json>): (s: Step<Answer>)
    requires DiskOk(d) && (w.Ok? ==> w.value.Obj?)
    ensures s.out.Ok? && DiskOk(s.disk) && AsidesKept(d, s.disk)
    ensures w.Err? ==> s.disk == d && s.out.value == Pair(Reply(Some(w.error), Null))
    ensures s.out.value.Bare? ==>
              && w.Ok? && !IsEmptyObj(w.value) && Read(d, file, now).out.Ok?
              && s.out.value.tree == Merge(Read(d, file, now).out.value, w.value)
              && s.disk.file == Holds(Serialize(s.out.value.tree))
    ensures s.out.value.Pair? && s.out.value.reply.err.None? ==>
              w.Ok? && IsEmptyObj(w.value) && s.disk.file == Holds(s.out.value.reply.value)
  {
    match w
    case Err(e) => Step(d, Ok(Pair(Reply(Some(e), Null))))
    case Ok(local) =>
      if IsEmptyObj(local) then
        var r := ReadBack(d, file, now);
        Step(r.disk, Ok(Pair(r.out.value)))
      else
        var u := Update(d, file, now, local, false);
        if u.out.Err? then Step(u.disk, Ok(Pair(Reply(Some(u.out.error), Null))))
        else Step(u.disk, Ok(Bare(u.out.value)))
  }

  /** `downloadAGlobalPlugin(name = '', version = 'latest')` (PackageManager.js:558-630). */
  function DownloadAGlobalPlugin(d: Disk, file: string, now: nat, fixed: bool, isAli: bool, fetch: string -> Result<Json>,
                                 name: Json, version: Json, downloadDir: string, failure: Option<string>,
                                 files: map<string, Json>): (s: Step<Answer>)
    requires DiskOk(d)
    ensures s.out.Ok? && DiskOk(s.disk) && AsidesKept(d, s.disk)
    ensures s.out.value.Bare? ==> Default(name, Str("")).Str? && Default(name, Str("")).s != ""
    ensures !(Default(name, Str("")).Str? && Default(name, Str("")).s != "") ==>
              s.out.value.Pair? && s.disk.file == Read(d, file, now).disk.file &&
              (s.out.value.reply.err.None? <==> Read(d, file, now).out.Ok?)
  {
    WriteGlobalPlugin(d, file, now, Wanted("Plugin", fixed, isAli, fetch, Default(name, Str("")), Default(version, Str("latest")),
                                           downloadDir, failure, files))
  }

  // ---------------------------------------------------------------------
  // What a successful download leaves in the status file

  /**
   * The batch's records as filed by a call, `{tax: {owner: records}}`, hold
   * request `i`'s record at `tax.owner.<requested name>`, with the manifest
   * path, `enable` set, the requested version and, for a plugin, status
   * `installing`.
   */
  lemma RecordInLocal(tax: string, owner: string, qs: seq<InstallList.Request>, recs: Json,
                      downloadDir: string, files: map<string, Json>, i: int)
    requires Records(qs, downloadDir, files, tax == "Plugin") == Ok(recs) && 0 <= i < |qs|
    requires SelfNamed(qs, downloadDir, files) && forall j :: i < j < |qs| ==> qs[j].name != qs[i].name
    ensures var local := Single(tax, Single(owner, recs));
      var at := [tax, owner, qs[i].name];
      && At(local, at + ["path"]) == Some(Str(DownloadedManifestPath(downloadDir, qs[i])))
      && At(local, at + ["enable"]) == Some(Bool(true))
      && At(local, at + ["version"]) == Some(RequestedVersion(qs[i]))
      && (tax == "Plugin" ==> At(local, at + ["status"]) == Some(Str("installing")))
  {
    DownloadedRecord(qs, downloadDir, files, tax == "Plugin", i);
    var n := qs[i].name;
    FiledAt(tax, owner, recs, n, "path");
    FiledAt(tax, owner, recs, n, "enable");
    FiledAt(tax, owner, recs, n, "version");
    if tax == "Plugin" {
      FiledAt(tax, owner, recs, n, "status");
    }
  }

  /** A member of a record in `{tax: {owner: recs}}`, found along its key path. */
  lemma FiledAt(tax: string, owner: string, recs: Json, n: string, f: string)
    requires recs.Obj? && n in recs.fields && recs.fields[n].Obj? && !Get(recs.fields[n], f).Undefined?
    ensures At(Single(tax, Single(owner, recs)), [tax, owner, n] + [f]) == Some(Get(recs.fields[n], f))
  {
    var inner := Single(owner, recs);
    var rec := recs.fields[n];
    assert [tax, owner, n] + [f] == [tax] + [owner, n, f] && [owner, n, f] == [owner] + [n, f] && [n, f] == [n] + [f];
    AtCons(Single(tax, inner), tax, [owner, n, f]);
    AtCons(inner, owner, [n, f]);
    AtCons(recs, n, [f]);
    assert [f] == [f] + [];
    AtCons(rec, f, []);
  }

  /**
   * Merged into any stored tree, those members of a download's record that
   * are plain values win, and writing the tree out keeps them.
   */
  lemma RecordsMerged(stored: Json, tax: string, owner: string, qs: seq<InstallList.Request>, recs: Json,
                      downloadDir: string, files: map<string, Json>, i: int)
    requires Records(qs, downloadDir, files, tax == "Plugin") == Ok(recs) && 0 <= i < |qs|
    requires SelfNamed(qs, downloadDir, files) && forall j :: i < j < |qs| ==> qs[j].name != qs[i].name
    ensures var m := Merge(stored, Single(tax, Single(owner, recs)));
      var at := [tax, owner, qs[i].name];
      && At(m, at + ["path"]) == Some(Str(DownloadedManifestPath(downloadDir, qs[i])))
      && At(m, at + ["enable"]) == Some(Bool(true))
      && (IsLeaf(RequestedVersion(qs[i])) ==> At(m, at + ["version"]) == Some(RequestedVersion(qs[i])))
      && (tax == "Plugin" ==> At(m, at + ["status"]) == Some(Str("installing")))
      && (!m.Undefined? ==>
            && At(Serialize(m), at + ["path"]) == Some(Str(DownloadedManifestPath(downloadDir, qs[i])))
            && At(Serialize(m), at + ["enable"]) == Some(Bool(true))
            && (IsLeaf(RequestedVersion(qs[i])) ==> At(Serialize(m), at + ["version"]) == Some(RequestedVersion(qs[i])))
            && (tax == "Plugin" ==> At(Serialize(m), at + ["status"]) == Some(Str("installing"))))
  {
    var local := Single(tax, Single(owner, recs));
    RecordInLocal(tax, owner, qs, recs, downloadDir, files, i);
    var at := [tax, owner, qs[i].name];
    RecordMerged(stored, local, at, Str(DownloadedManifestPath(downloadDir, qs[i])), RequestedVersion(qs[i]), tax == "Plugin");
  }

  /** The members of one record in `local` that are plain values, merged into `stored` and written out. */
  lemma RecordMerged(stored: Json, local: Json, at: seq<string>, path: Json, version: Json, plugin: bool)
    requires At(local, at + ["path"]) == Some(path) && IsLeaf(path)
    requires At(local, at + ["enable"]) == Some(Bool(true))
    requires !version.Undefined? ==> At(local, at + ["version"]) == Some(version)
    requires plugin ==> At(local, at + ["status"]) == Some(Str("installing"))
    ensures var m := Merge(stored, local);
      && At(m, at + ["path"]) == Some(path)
      && At(m, at + ["enable"]) == Some(Bool(true))
      && (IsLeaf(version) ==> At(m, at + ["version"]) == Some(version))
      && (plugin ==> At(m, at + ["status"]) == Some(Str("installing")))
      && (!m.Undefined? ==>
            && At(Serialize(m), at + ["path"]) == Some(path)
            && At(Serialize(m), at + ["enable"]) == Some(Bool(true))
            && (IsLeaf(version) ==> At(Serialize(m), at + ["version"]) == Some(version))
            && (plugin ==> At(Serialize(m), at + ["status"]) == Some(Str("installing"))))
  {
    LeafMerged(stored, local, at + ["path"]);
    LeafMerged(stored, local, at + ["enable"]);
    if IsLeaf(version) {
      LeafMerged(stored, local, at + ["version"]);
    }
    if plugin {
      LeafMerged(stored, local, at + ["status"]);
    }
  }

  /** A leaf of the merged-in object wins, and survives being written out. */
  lemma LeafMerged(stored: Json, local: Json, p: seq<string>)
    requires At(local, p).Some? && IsLeaf(At(local, p).value)
    ensures At(Merge(stored, local), p) == At(local, p)
    ensures !Merge(stored, local).Undefined? ==> At(Serialize(Merge(stored, local)), p) == At(local, p)
  {
    MergeDataLeafWins(stored, local, p);
    if !Merge(stored, local).Undefined? {
      SerializeKeepsLeaf(Merge(stored, local), p);
    }
  }
}
