/**
 * The catalog side of the extension market (PackageManager.js): how a
 * manifest is classified, how registry documents become the flat records
 * the market shows, how those records are grouped into the two taxonomies
 * `Project` and `Plugin`, and the whitelist filter applied to the keyword
 * listing.
 */
module Catalog {
  import opened JsValue
  import opened DeepMerge
  import Cnpm

  // ---------------------------------------------------------------------
  // Package type

  /** `pkg && pkg.cygnus`: the manifest declares an IDE extension. */
  predicate HasCygnus(pkg: Json)
  {
    Truthy(pkg) && Truthy(Get(pkg, "cygnus"))
  }

  /** `pkg.cygnus.isProject` is truthy as well. */
  predicate IsProjectManifest(pkg: Json)
  {
    HasCygnus(pkg) && Truthy(Get(Get(pkg, "cygnus"), "isProject"))
  }

  /**
   * PackageManager.js:38-49: 0 for a project extension, 1 for a plain
   * plugin, 2 for an ordinary npm module.
   */
  function GetPackageType(pkg: Json): (t: int)
    ensures t in {0, 1, 2}
    ensures t == 0 <==> IsProjectManifest(pkg)
    ensures t == 1 <==> HasCygnus(pkg) && !IsProjectManifest(pkg)
    ensures t == 2 <==> !HasCygnus(pkg)
  {
    var t := 2;
    if Truthy(pkg) && Truthy(Get(pkg, "cygnus")) then
      if Truthy(Get(Get(pkg, "cygnus"), "isProject")) then 0 else 1
    else t
  }

  // ---------------------------------------------------------------------
  // One record

  /** The text shown when a package has no readme. */
  const NoReadme: string := "\U{7A7A}\U{7A7A}\U{5982}\U{4E5F}"

  /** The members of a record, in the order the market writes them. */
  const RecordKeys: seq<string> :=
    ["type", "status", "enable", "name", "cname", "link", "path", "iconForSearch",
     "version", "aversion", "latestVersion", "description", "author", "ideDeps",
     "disableUninstall", "dependencies", "readme"]

  function KeyStrings(ks: seq<string>): (r: seq<Json>)
    ensures |r| == |ks| && forall i :: 0 <= i < |ks| ==> r[i] == Str(ks[i])
  {
    seq(|ks|, i requires 0 <= i < |ks| => Str(ks[i]))
  }

  /**
   * PackageManager.js:173-175: the manifest of the version the
   * `latest` tag names, extended with the list of all published versions
   * and the tags themselves.
   */
  function LatestManifest(doc: Json): (r: Result<Json>)
  {
    var versions :- Member(doc, "versions");
    var tags := Get(doc, "dist-tags");
    var latest :- Member(tags, "latest");
    var pkg :- Member(versions, ToKey(latest));
    var pkg1 :- SetProp(pkg, "versionsList", Arr(KeyStrings(ForInKeys(versions))));
    Ok(Put(pkg1, "dist-tags", tags))
  }

  /** The manifest a record is built from (PackageManager.js:171-178). */
  function Manifest(p: Json, rawMode: bool): Result<Json>
  {
    if rawMode then LatestManifest(p) else Ok(p)
  }

  /**
   * PackageManager.js:180-186: for an object, its `name`, else its `email`,
   * else `''`; a non-empty string is the author itself; anything else gives `''`.
   */
  function AuthorOf(author: Json): (r: Json)
    ensures author.Obj? ==>
              r == (if "name" in author.fields && Truthy(author.fields["name"]) then author.fields["name"]
                    else if "email" in author.fields && Truthy(author.fields["email"]) then author.fields["email"]
                    else Str(""))
    ensures author.Str? ==> r == author
    ensures !author.Obj? && !author.Arr? && !author.Str? ==> r == Str("")
  {
    if Truthy(author) && (author.Obj? || author.Arr?) then
      OrElse(Get(author, "name"), OrElse(Get(author, "email"), Str("")))
    else if Truthy(author) && author.Str? then author
    else Str("")
  }

  /** The members read from `pkg.cygnus` for an extension (PackageManager.js:187-196). */
  datatype Extra = Extra(cname: Json, iconForSearch: Json, ideDeps: Json, disableUninstall: Json)

  const NoExtra: Extra := Extra(Str(""), Str(""), Arr([]), Bool(false))

  /**
   * PackageManager.js:192-195: the display name is `cygnus.cname`, else
   * `cygnus.description.cname`, else `cygnus.description.name`, else `''`;
   * `description` must be an object-like value.
   */
  function CygnusExtra(cyg: Json): (r: Result<Extra>)
    requires Truthy(cyg)
    ensures var desc := Get(cyg, "description");
            r.Ok? <==> !desc.Undefined? && !desc.Null?
    ensures r.Ok? ==>
              var desc := Get(cyg, "description");
              r.value.cname ==
                (if Truthy(Get(cyg, "cname")) then Get(cyg, "cname")
                 else if Truthy(Get(desc, "cname")) then Get(desc, "cname")
                 else if Truthy(Get(desc, "name")) then Get(desc, "name")
                 else Str(""))
    ensures r.Ok? ==> r.value.ideDeps == OrElse(Get(cyg, "plugins"), Arr([]))
  {
    var cname :-
      if Truthy(Get(cyg, "cname")) then Ok(Get(cyg, "cname"))
      else
        var c2 :- GetIn(cyg, ["description", "cname"]);
        if Truthy(c2) then Ok(c2)
        else
          var c3 :- GetIn(cyg, ["description", "name"]);
          Ok(OrElse(c3, Str("")));
    var icon :- GetIn(cyg, ["description", "iconForSearch"]);
    Ok(Extra(cname, OrElse(icon, Str("")), OrElse(Get(cyg, "plugins"), Arr([])),
             OrElse(Get(cyg, "disableUninstall"), Bool(false))))
  }

  /** A record's members, by name (PackageManager.js:199-217); `pkgType` is the member `type`. */
  datatype Record = Record(
    pkgType: Json, status: Json, enable: Json, name: Json, cname: Json, link: Json, path: Json,
    iconForSearch: Json, version: Json, aversion: Json, latestVersion: Json, description: Json,
    author: Json, ideDeps: Json, disableUninstall: Json, dependencies: Json, readme: Json)

  /** The object a record is written as, its members in the order of `RecordKeys`. */
  function RecordJson(r: Record): (j: Json)
    ensures j.Obj? && j.keys == RecordKeys
  {
    Obj(RecordKeys, map[
      "type" := r.pkgType,
      "status" := r.status,
      "enable" := r.enable,
      "name" := r.name,
      "cname" := r.cname,
      "link" := r.link,
      "path" := r.path,
      "iconForSearch" := r.iconForSearch,
      "version" := r.version,
      "aversion" := r.aversion,
      "latestVersion" := r.latestVersion,
      "description" := r.description,
      "author" := r.author,
      "ideDeps" := r.ideDeps,
      "disableUninstall" := r.disableUninstall,
      "dependencies" := r.dependencies,
      "readme" := r.readme])
  }

  /** The record object of PackageManager.js:199-217. */
  function RecordOf(pkg: Json, t: int, x: Extra, link: Json, author: Json): (r: Json)
    requires !pkg.Undefined? && !pkg.Null?
    ensures r.Obj? && r.keys == RecordKeys
  {
    RecordJson(RecordFrom(pkg, t, x, link, author))
  }

  /** The members PackageManager.js:199-217 gives a record. */
  function RecordFrom(pkg: Json, t: int, x: Extra, link: Json, author: Json): Record
    requires !pkg.Undefined? && !pkg.Null?
  {
    Record(
      Num(t), OrElse(Get(pkg, "status"), Str("")), Bool(true), Get(pkg, "name"), x.cname, link,
      Get(pkg, "path"), x.iconForSearch, Get(pkg, "version"), OrElse(Get(pkg, "aversion"), Str("")),
      OrElse(Get(pkg, "latestVersion"), Str("")), OrElse(Get(pkg, "description"), Str("")), author,
      x.ideDeps, x.disableUninstall, Get(pkg, "dependencies"), OrElse(Get(pkg, "readme"), Str(NoReadme)))
  }

  /** The leading members of a record, as built. */
  lemma RecordOfFields(pkg: Json, t: int, x: Extra, link: Json, author: Json)
    requires !pkg.Undefined? && !pkg.Null?
    ensures var r := RecordOf(pkg, t, x, link, author);
            "type" in r.fields && r.fields["type"] == Num(t) &&
            "status" in r.fields &&
            r.fields["status"] == OrElse(Get(pkg, "status"), Str("")) &&
            "enable" in r.fields && r.fields["enable"] == Bool(true)
  {
    RecordJsonLeading(RecordFrom(pkg, t, x, link, author));
  }

  /** The leading members of any written record. */
  lemma RecordJsonLeading(rec: Record)
    ensures var m := RecordJson(rec).fields;
            "type" in m && m["type"] == rec.pkgType &&
            "status" in m && m["status"] == rec.status &&
            "enable" in m && m["enable"] == rec.enable
  {
  }

  /** The name members of a record, as built. */
  lemma RecordOfNames(pkg: Json, t: int, x: Extra, link: Json, author: Json)
    requires !pkg.Undefined? && !pkg.Null?
    ensures var r := RecordOf(pkg, t, x, link, author);
            r.fields["name"] == Get(pkg, "name") &&
            r.fields["cname"] == x.cname
  {
  }

  /** The trailing members of a record, as built. */
  lemma RecordOfLaterFields(pkg: Json, t: int, x: Extra, link: Json, author: Json)
    requires !pkg.Undefined? && !pkg.Null?
    ensures var r := RecordOf(pkg, t, x, link, author);
            r.fields["version"] == Get(pkg, "version") &&
            r.fields["aversion"] == OrElse(Get(pkg, "aversion"), Str("")) &&
            r.fields["latestVersion"] == OrElse(Get(pkg, "latestVersion"), Str("")) &&
            r.fields["author"] == author &&
            r.fields["readme"] == OrElse(Get(pkg, "readme"), Str(NoReadme))
  {
  }

  /** The record PackageManager.js:179-217 builds from one manifest. */
  function RecordOfManifest(pkg: Json): (r: Result<Json>)
    ensures r.Ok? ==> r.value.Obj? && r.value.keys == RecordKeys
    ensures r.Ok? ==> HasCygnus(pkg)
  {
    var t := GetPackageType(pkg);
    var author :- Member(pkg, "author");
    var x :- if t != 2 then CygnusExtra(Get(pkg, "cygnus")) else Ok(NoExtra);
    LinkOfFalsy(Get(pkg, "cygnus"));
    var link :- GetIn(Get(pkg, "cygnus"), ["description", "link"]);
    Ok(RecordOf(pkg, t, x, OrElse(link, Str("")), AuthorOf(author)))
  }

  /** `cygnus.description.link` throws when `cygnus` is falsy: `description` is then undefined or unreadable. */
  lemma LinkOfFalsy(cyg: Json)
    ensures !Truthy(cyg) ==> GetIn(cyg, ["description", "link"]).Err?
  {
    if !Truthy(cyg) {
      var path := ["description", "link"];
      assert path[1..] == ["link"];
      assert ["link"][1..] == [];
    }
  }

  /** PackageManager.js:218-223: a raw-mode record also carries the version list and the tags. */
  function WithVersions(rec: Json, pkg: Json): (r: Json)
    requires rec.Obj? && !pkg.Undefined? && !pkg.Null?
    ensures r.Obj?
  {
    Put(Put(rec, "versionsList", Get(pkg, "versionsList")), "dist-tags", Get(pkg, "dist-tags"))
  }

  /**
   * One step of `normalizePackagesInfo` (PackageManager.js:170-228): the
   * key the record is stored under and the record.
   */
  function NormalizeOne(p: Json, rawMode: bool): (r: Result<(string, Json)>)
    ensures r.Ok? ==> r.value.1.Obj?
  {
    var pkg :- Manifest(p, rawMode);
    var rec :- RecordOfManifest(pkg);
    Ok((ToKey(Get(pkg, "name")), if rawMode then WithVersions(rec, pkg) else rec))
  }

  /** The manifests `normalizePackagesInfo` walks: `[]` for none, a lone value wrapped. */
  function Manifests(info: Json): seq<Json>
  {
    if info.Undefined? then [] else if info.Arr? then info.items else [info]
  }

  /** The `reduce` of PackageManager.js:170-229 over the manifests `ps`. */
  function NormalizeAll(ps: seq<Json>, rawMode: bool): (r: Result<Json>)
    ensures r.Ok? ==> r.value.Obj?
  {
    IndexBy(ps, p => NormalizeOne(p, rawMode))
  }

  /** PackageManager.js:166-230 `normalizePackagesInfo`. */
  function NormalizePackagesInfo(info: Json, rawMode: bool): (r: Result<Json>)
    ensures r.Ok? <==> forall i :: 0 <= i < |Manifests(info)| ==> NormalizeOne(Manifests(info)[i], rawMode).Ok?
    ensures r.Ok? ==> r.value.Obj?
    ensures r.Ok? ==>
              r.value.fields.Keys == (set i | 0 <= i < |Manifests(info)| :: NormalizeOne(Manifests(info)[i], rawMode).value.0)
  {
    NormalizeAllOk(Manifests(info), rawMode);
    if NormalizeAll(Manifests(info), rawMode).Ok? then
      IndexByKeys(Manifests(info), p => NormalizeOne(p, rawMode));
      NormalizeAll(Manifests(info), rawMode)
    else NormalizeAll(Manifests(info), rawMode)
  }

  // ---------------------------------------------------------------------
  // Properties of a record

  /** A record that is built is `RecordOf` over the manifest's type, extras, link and author. */
  lemma RecordOfManifestParts(pkg: Json) returns (t: int, x: Extra, link: Json, author: Json)
    requires RecordOfManifest(pkg).Ok?
    ensures !pkg.Undefined? && !pkg.Null?
    ensures t == GetPackageType(pkg) && author == AuthorOf(Get(pkg, "author"))
    ensures t != 2 ==> CygnusExtra(Get(pkg, "cygnus")) == Ok(x)
    ensures RecordOfManifest(pkg).value == RecordOf(pkg, t, x, link, author)
  {
    t := GetPackageType(pkg);
    x := if t != 2 then CygnusExtra(Get(pkg, "cygnus")).value else NoExtra;
    link := OrElse(GetIn(Get(pkg, "cygnus"), ["description", "link"]).value, Str(""));
    author := AuthorOf(Get(pkg, "author"));
  }

  /** A record holds exactly the members its key list names, its `path` the manifest's own. */
  lemma RecordOfMembers(pkg: Json, t: int, x: Extra, link: Json, author: Json)
    requires !pkg.Undefined? && !pkg.Null?
    ensures var r := RecordOf(pkg, t, x, link, author);
            r.fields.Keys == set k | k in RecordKeys &&
            r.fields["path"] == Get(pkg, "path")
  {
  }

  /**
   * A record's members against the manifest it was built from: the type is
   * the manifest's package type, `enable` is always true, `aversion`,
   * `latestVersion` and `status` default to the empty string, the readme to
   * the placeholder text, and name and version are copied.
   */
  lemma RecordOfManifestFields(pkg: Json)
    requires RecordOfManifest(pkg).Ok?
    ensures var rec := RecordOfManifest(pkg).value;
            !pkg.Undefined? && !pkg.Null? &&
            rec.keys == RecordKeys &&
            rec.fields["type"] == Num(GetPackageType(pkg)) &&
            rec.fields["enable"] == Bool(true) &&
            rec.fields["aversion"] == (if Truthy(Get(pkg, "aversion")) then Get(pkg, "aversion") else Str("")) &&
            rec.fields["latestVersion"] == (if Truthy(Get(pkg, "latestVersion")) then Get(pkg, "latestVersion") else Str("")) &&
            rec.fields["status"] == (if Truthy(Get(pkg, "status")) then Get(pkg, "status") else Str("")) &&
            rec.fields["readme"] == (if Truthy(Get(pkg, "readme")) then Get(pkg, "readme") else Str(NoReadme)) &&
            rec.fields["name"] == Get(pkg, "name") &&
            rec.fields["version"] == Get(pkg, "version")
  {
    var t, x, link, author := RecordOfManifestParts(pkg);
    RecordOfFields(pkg, t, x, link, author);
    RecordOfNames(pkg, t, x, link, author);
    RecordOfLaterFields(pkg, t, x, link, author);
  }

  /** The record has every member its key list names, and its `path` is the manifest's own. */
  lemma RecordOfManifestPath(pkg: Json)
    requires RecordOfManifest(pkg).Ok?
    ensures !pkg.Undefined? && !pkg.Null?
    ensures var rec := RecordOfManifest(pkg).value;
            rec.fields.Keys == set k | k in RecordKeys
    ensures var rec := RecordOfManifest(pkg).value;
            "path" in rec.fields && rec.fields["path"] == Get(pkg, "path")
  {
    var t, x, link, author := RecordOfManifestParts(pkg);
    RecordOfMembers(pkg, t, x, link, author);
  }

  /** The author and, for an extension, the display name come from the manifest. */
  lemma RecordOfManifestAuthorAndName(pkg: Json)
    requires RecordOfManifest(pkg).Ok?
    ensures !pkg.Undefined? && !pkg.Null?
    ensures RecordOfManifest(pkg).value.fields["author"] == AuthorOf(Get(pkg, "author"))
    ensures HasCygnus(pkg) ==>
              CygnusExtra(Get(pkg, "cygnus")).Ok? &&
              RecordOfManifest(pkg).value.fields["cname"] == CygnusExtra(Get(pkg, "cygnus")).value.cname
  {
    var t, x, link, author := RecordOfManifestParts(pkg);
    RecordOfNames(pkg, t, x, link, author);
    RecordOfLaterFields(pkg, t, x, link, author);
  }

  /**
   * A manifest that declares no extension (type 2) never yields a record:
   * PackageManager.js:197 reads `pkg.cygnus.description` for every type.
   */
  lemma PlainModuleIsRejected(pkg: Json)
    requires GetPackageType(pkg) == 2
    ensures RecordOfManifest(pkg).Err?
  {
  }

  /** The manifest of the latest version, with the version list and the tags added. */
  lemma LatestManifestShape(doc: Json)
    requires LatestManifest(doc).Ok?
    ensures var versions := Get(doc, "versions");
            var tags := Get(doc, "dist-tags");
            !versions.Undefined? && !versions.Null? && !tags.Undefined? && !tags.Null? &&
            var pkg := Get(versions, ToKey(Get(tags, "latest")));
            pkg.Obj? &&
            LatestManifest(doc).value ==
              Put(Put(pkg, "versionsList", Arr(KeyStrings(ForInKeys(versions)))), "dist-tags", tags)
  {
  }

  /**
   * In raw mode the record describes the version `dist-tags.latest` names,
   * lists every published version in the registry's order, and carries the tags.
   */
  lemma RawRecordIsLatest(doc: Json)
    requires NormalizeOne(doc, true).Ok?
    ensures var versions := Get(doc, "versions");
            var tags := Get(doc, "dist-tags");
            var rec := NormalizeOne(doc, true).value.1;
            !versions.Undefined? && !versions.Null? && !tags.Undefined? && !tags.Null? &&
            var pkg := Get(versions, ToKey(Get(tags, "latest")));
            pkg.Obj? &&
            rec.fields["version"] == Get(pkg, "version") &&
            rec.fields["name"] == Get(pkg, "name") &&
            rec.fields["versionsList"] == Arr(KeyStrings(ForInKeys(versions))) &&
            rec.fields["dist-tags"] == tags
  {
    LatestManifestShape(doc);
    var m := LatestManifest(doc).value;
    var rec0 := RecordOfManifest(m).value;
    assert NormalizeOne(doc, true).value.1 == WithVersions(rec0, m);
    RecordOfManifestFields(m);
  }

  // ---------------------------------------------------------------------
  // Indexing records by key: the `reduce` with `Object.assign` (PackageManager.js:170-229)

  /** Folds the entries `f` gives for `ps` into one object, later keys overwriting earlier ones. */
  function IndexBy(ps: seq<Json>, f: Json -> Result<(string, Json)>): (r: Result<Json>)
    ensures r.Ok? ==> r.value.Obj?
  {
    if ps == [] then Ok(EmptyObj)
    else
      var prev :- IndexBy(ps[..|ps| - 1], f);
      var entry :- f(ps[|ps| - 1]);
      Ok(Put(prev, entry.0, entry.1))
  }

  /** The whole fold succeeds exactly when every element yields an entry. */
  lemma {:induction false} IndexByOk(ps: seq<Json>, f: Json -> Result<(string, Json)>)
    ensures IndexBy(ps, f).Ok? <==> forall i :: 0 <= i < |ps| ==> f(ps[i]).Ok?
  {
    if ps != [] {
      var ps' := ps[..|ps| - 1];
      IndexByOk(ps', f);
      assert forall i :: 0 <= i < |ps'| ==> ps'[i] == ps[i];
    }
  }

  /** The keys of the result are the keys of the entries, and nothing else. */
  lemma {:induction false} IndexByKeys(ps: seq<Json>, f: Json -> Result<(string, Json)>)
    requires forall i :: 0 <= i < |ps| ==> f(ps[i]).Ok?
    ensures IndexBy(ps, f).Ok?
    ensures IndexBy(ps, f).value.fields.Keys == set i | 0 <= i < |ps| :: f(ps[i]).value.0
  {
    IndexByOk(ps, f);
    if ps != [] {
      var ps' := ps[..|ps| - 1];
      assert forall i :: 0 <= i < |ps'| ==> ps'[i] == ps[i];
      IndexByKeys(ps', f);
      var s' := set i | 0 <= i < |ps'| :: f(ps'[i]).value.0;
      var s := set i | 0 <= i < |ps| :: f(ps[i]).value.0;
      assert s == s' + {f(ps[|ps| - 1]).value.0};
    }
  }

  /** An entry is the one the result holds under its key unless a later entry has the same key. */
  lemma {:induction false} IndexByLastWins(ps: seq<Json>, f: Json -> Result<(string, Json)>, i: int)
    requires 0 <= i < |ps| && forall j :: 0 <= j < |ps| ==> f(ps[j]).Ok?
    requires forall j :: i < j < |ps| ==> f(ps[j]).value.0 != f(ps[i]).value.0
    ensures IndexBy(ps, f).Ok?
    ensures var (k, v) := f(ps[i]).value;
            k in IndexBy(ps, f).value.fields && IndexBy(ps, f).value.fields[k] == v
  {
    IndexByOk(ps, f);
    var ps' := ps[..|ps| - 1];
    assert forall j :: 0 <= j < |ps'| ==> ps'[j] == ps[j];
    IndexByOk(ps', f);
    if i < |ps| - 1 {
      IndexByLastWins(ps', f, i);
    }
  }

  /** The fold never lists a key twice, and lists exactly the keys it holds. */
  lemma {:induction false} IndexByDistinct(ps: seq<Json>, f: Json -> Result<(string, Json)>)
    requires IndexBy(ps, f).Ok?
    ensures var r := IndexBy(ps, f).value;
            NoDuplicates(r.keys) && forall k :: k in r.fields <==> k in r.keys
  {
    if ps != [] {
      var prev := IndexBy(ps[..|ps| - 1], f).value;
      IndexByDistinct(ps[..|ps| - 1], f);
      var k := f(ps[|ps| - 1]).value.0;
      if k !in prev.fields {
        var ks := prev.keys + [k];
        assert forall i :: 0 <= i < |prev.keys| ==> ks[i] == prev.keys[i];
      }
    }
  }

  /** The catalog is built exactly when every manifest yields a record. */
  lemma NormalizeAllOk(ps: seq<Json>, rawMode: bool)
    ensures NormalizeAll(ps, rawMode).Ok? <==>
            forall i :: 0 <= i < |ps| ==> NormalizeOne(ps[i], rawMode).Ok?
  {
    IndexByOk(ps, p => NormalizeOne(p, rawMode));
  }

  /**
   * The catalog's keys are the names of the manifests, and a manifest's
   * record is the one stored under its name unless a later manifest has the
   * same name.
   */
  lemma NormalizeAllKeyedByName(ps: seq<Json>, rawMode: bool, i: int)
    requires NormalizeAll(ps, rawMode).Ok? && 0 <= i < |ps|
    ensures forall j :: 0 <= j < |ps| ==> NormalizeOne(ps[j], rawMode).Ok?
    ensures NormalizeAll(ps, rawMode).value.fields.Keys ==
            set j | 0 <= j < |ps| :: NormalizeOne(ps[j], rawMode).value.0
    ensures (forall j :: i < j < |ps| ==>
               NormalizeOne(ps[j], rawMode).value.0 != NormalizeOne(ps[i], rawMode).value.0) ==>
            NormalizeAll(ps, rawMode).value.fields[NormalizeOne(ps[i], rawMode).value.0] ==
            NormalizeOne(ps[i], rawMode).value.1
  {
    var f := p => NormalizeOne(p, rawMode);
    IndexByOk(ps, f);
    IndexByKeys(ps, f);
    if forall j :: i < j < |ps| ==> f(ps[j]).value.0 != f(ps[i]).value.0 {
      IndexByLastWins(ps, f, i);
    }
  }

  /** A manifest's record is the one stored under its name when no later manifest has that name. */
  lemma NormalizeAllLastWins(ps: seq<Json>, rawMode: bool, i: int)
    requires 0 <= i < |ps| && forall j :: 0 <= j < |ps| ==> NormalizeOne(ps[j], rawMode).Ok?
    requires forall j :: i < j < |ps| ==> NormalizeOne(ps[j], rawMode).value.0 != NormalizeOne(ps[i], rawMode).value.0
    ensures NormalizeAll(ps, rawMode).Ok?
    ensures NormalizeOne(ps[i], rawMode).value.0 in NormalizeAll(ps, rawMode).value.fields
    ensures NormalizeAll(ps, rawMode).value.fields[NormalizeOne(ps[i], rawMode).value.0] == NormalizeOne(ps[i], rawMode).value.1
  {
    IndexByLastWins(ps, p => NormalizeOne(p, rawMode), i);
  }

  /** A record is stored under its own name. */
  lemma NormalizeOneNamed(p: Json, rawMode: bool)
    requires NormalizeOne(p, rawMode).Ok?
    ensures var (k, rec) := NormalizeOne(p, rawMode).value;
            "name" in rec.fields && ToKey(rec.fields["name"]) == k
  {
    var pkg := Manifest(p, rawMode).value;
    var t, x, link, author := RecordOfManifestParts(pkg);
    RecordOfNames(pkg, t, x, link, author);
    var rec := RecordOfManifest(pkg).value;
    assert NormalizeOne(p, rawMode) == Ok((ToKey(Get(pkg, "name")), if rawMode then WithVersions(rec, pkg) else rec));
  }

  /** Every record of a catalog is an object stored under its own name, and its key list is its member set. */
  lemma {:induction false} NormalizeAllNamed(ps: seq<Json>, rawMode: bool)
    requires NormalizeAll(ps, rawMode).Ok?
    ensures var r := NormalizeAll(ps, rawMode).value;
            (forall k :: k in r.fields <==> k in r.keys) &&
            forall k :: k in r.fields ==> r.fields[k].Obj? && "name" in r.fields[k].fields && ToKey(r.fields[k].fields["name"]) == k
  {
    if ps != [] {
      var ps' := ps[..|ps| - 1];
      assert NormalizeAll(ps', rawMode).Ok?;
      NormalizeAllNamed(ps', rawMode);
      NormalizeOneNamed(ps[|ps| - 1], rawMode);
    }
  }

  // ---------------------------------------------------------------------
  // Grouping by taxonomy (PackageManager.js:132-156)

  /** `pkg.type === n`. */
  predicate TypeIs(rec: Json, n: int)
  {
    rec.Obj? && "type" in rec.fields && rec.fields["type"] == Num(n)
  }

  /** The taxonomy a record of type 0 or 1 is filed under. */
  function Taxonomy(rec: Json): string
  {
    if TypeIs(rec, 0) then "Project" else "Plugin"
  }

  /** The object one record contributes to the grouped catalog. */
  function GroupEntry(k: string, rec: Json): (r: Result<Json>)
  {
    var t :- Member(rec, "type");
    Ok(if StrictEq(t, Num(0)) then Single("Project", Single(k, Single(k, rec)))
       else if StrictEq(t, Num(1)) then Single("Plugin", Single(k, Single(k, rec)))
       else EmptyObj)
  }

  /** The `reduce` of PackageManager.js:132-156 over the keys `ks` of `all`. */
  function GroupAll(all: Json, ks: seq<string>): (r: Result<Json>)
    requires all.Obj?
    ensures r.Ok? ==> r.value.Obj? && r.value.fields.Keys <= {"Project", "Plugin"}
    ensures r.Err? <==> exists k :: k in ks && (Get(all, k).Undefined? || Get(all, k).Null?)
  {
    if ks == [] then Ok(EmptyObj)
    else
      var prev :- GroupAll(all, ks[..|ks| - 1]);
      var k := ks[|ks| - 1];
      var entry :- GroupEntry(k, Get(all, k));
      Ok(Merge(prev, entry))
  }

  /** Merging a one-member object under a present key merges into the member there. */
  lemma MergeSingleAt(o: Json, k: string, x: Json)
    requires o.Obj? && k in o.fields
    ensures Merge(o, Single(k, x)) == Put(o, k, Merge(o.fields[k], x))
  {
    var m := Merge(o, Single(k, x));
    assert NewKeys([k], map[k := x], o.fields) == [];
    assert m.keys == o.keys;
    assert m.fields == o.fields[k := Merge(o.fields[k], x)];
  }

  /** Merging a one-member object under a new key adds the member last. */
  lemma MergeSingleNew(o: Json, k: string, x: Json)
    requires o.Obj? && k !in o.fields
    ensures Merge(o, Single(k, x)) == Put(o, k, x)
  {
    var m := Merge(o, Single(k, x));
    assert NewKeys([k], map[k := x], o.fields) == [k];
    assert m.keys == o.keys + [k];
    assert m.fields == o.fields[k := x];
  }

  /** Merging a one-record entry whose key is new files the record under it. */
  lemma MergeFreshEntry(prev: Json, tax: string, k: string, v: Json)
    requires prev.Obj?
    requires tax in prev.fields ==> prev.fields[tax].Obj? && k !in prev.fields[tax].fields
    ensures var group := if tax in prev.fields then prev.fields[tax] else EmptyObj;
            Merge(prev, Single(tax, Single(k, v))) == Put(prev, tax, Put(group, k, v))
  {
    if tax in prev.fields {
      MergeSingleAt(prev, tax, Single(k, v));
      MergeSingleNew(prev.fields[tax], k, v);
    } else {
      MergeSingleNew(prev, tax, Single(k, v));
      assert Put(EmptyObj, k, v) == Single(k, v);
    }
  }

  predicate NoDuplicates(ks: seq<string>)
  {
    forall i, j :: 0 <= i < j < |ks| ==> ks[i] != ks[j]
  }

  /**
   * The grouped catalog for keys `ks`: every record of type 0 sits alone at
   * `Project[k][k]`, every record of type 1 alone at `Plugin[k][k]`, and
   * records of any other type are not filed at all.
   */
  predicate Grouped(g: Json, all: Json, ks: seq<string>)
    requires all.Obj?
  {
    Filed(g) && OnlyFiled(g, all, ks) && AllFiled(g, all, ks)
  }

  /** Two taxonomies at most, each an object. */
  predicate Filed(g: Json)
  {
    g.Obj? && g.fields.Keys <= {"Project", "Plugin"} &&
    (forall tax | tax in g.fields :: g.fields[tax].Obj?)
  }

  /** Whatever is filed is a record of `ks` whose type matches its taxonomy. */
  predicate OnlyFiled(g: Json, all: Json, ks: seq<string>)
    requires Filed(g) && all.Obj?
  {
    forall tax, k | tax in g.fields && k in g.fields[tax].fields ::
      k in ks && k in all.fields && TypeIs(all.fields[k], if tax == "Project" then 0 else 1)
  }

  /** Every record of `ks` of type 0 or 1 is filed alone under its own name. */
  predicate AllFiled(g: Json, all: Json, ks: seq<string>)
    requires Filed(g) && all.Obj?
  {
    forall k | k in ks && k in all.fields && (TypeIs(all.fields[k], 0) || TypeIs(all.fields[k], 1)) ::
      var tax := Taxonomy(all.fields[k]);
      tax in g.fields && k in g.fields[tax].fields &&
      g.fields[tax].fields[k] == Single(k, all.fields[k])
  }

  /**
   * Grouping distinct keys of the normalized catalog files each record of
   * type 0 or 1 under its own name in its taxonomy and drops the others.
   */
  lemma {:induction false} GroupAllFiles(all: Json, ks: seq<string>)
    requires all.Obj? && NoDuplicates(ks)
    requires forall k | k in ks :: k in all.fields && all.fields[k].Obj?
    ensures GroupAll(all, ks).Ok? && Grouped(GroupAll(all, ks).value, all, ks)
  {
    if ks == [] {
      return;
    }
    var ks' := ks[..|ks| - 1];
    var k := ks[|ks| - 1];
    assert ks == ks' + [k];
    assert forall i :: 0 <= i < |ks'| ==> ks'[i] == ks[i];
    assert k !in ks';
    GroupAllFiles(all, ks');
    GroupAllStep(GroupAll(all, ks').value, all, ks', k);
  }

  /** One more key of the `reduce`: its record is filed, or skipped when of another type. */
  lemma GroupAllStep(prev: Json, all: Json, ks: seq<string>, k: string)
    requires all.Obj? && k in all.fields && all.fields[k].Obj? && k !in ks
    requires Grouped(prev, all, ks)
    ensures GroupEntry(k, all.fields[k]).Ok?
    ensures Grouped(Merge(prev, GroupEntry(k, all.fields[k]).value), all, ks + [k])
  {
    var rec := all.fields[k];
    var entry := GroupEntry(k, rec).value;
    if TypeIs(rec, 0) || TypeIs(rec, 1) {
      var tax := Taxonomy(rec);
      assert tax in prev.fields ==> k !in prev.fields[tax].fields;
      MergeFiles(prev, k, rec);
      GroupStepFiles(prev, all, ks, k);
    } else {
      assert entry == EmptyObj;
      MergeEmpty(prev);
      GroupStepSkips(prev, all, ks, k);
    }
  }

  /** The entry of a record of type 0 or 1 merges in as the record filed under its key. */
  lemma MergeFiles(prev: Json, k: string, rec: Json)
    requires Filed(prev) && (TypeIs(rec, 0) || TypeIs(rec, 1))
    requires var tax := Taxonomy(rec); tax in prev.fields ==> k !in prev.fields[tax].fields
    ensures GroupEntry(k, rec).Ok? && Merge(prev, GroupEntry(k, rec).value) == FileUnder(prev, k, rec)
  {
    var tax := Taxonomy(rec);
    assert GroupEntry(k, rec).value == Single(tax, Single(k, Single(k, rec)));
    MergeFreshEntry(prev, tax, k, Single(k, rec));
  }

  /** `rec` filed alone under `k` in its taxonomy. */
  function FileUnder(prev: Json, k: string, rec: Json): (g: Json)
    requires Filed(prev)
    ensures g.Obj?
  {
    var tax := Taxonomy(rec);
    var group := if tax in prev.fields then prev.fields[tax] else EmptyObj;
    Put(prev, tax, Put(group, k, Single(k, rec)))
  }

  /** Filing a record of type 0 or 1 under a new key keeps the catalog grouped. */
  lemma GroupStepFiles(prev: Json, all: Json, ks: seq<string>, k: string)
    requires all.Obj? && k in all.fields && k !in ks
    requires TypeIs(all.fields[k], 0) || TypeIs(all.fields[k], 1)
    requires Grouped(prev, all, ks)
    ensures Grouped(FileUnder(prev, k, all.fields[k]), all, ks + [k])
  {
    GroupStepOnlyFiled(prev, all, ks, k);
    GroupStepAllFiled(prev, all, ks, k);
  }

  /** What is filed after the step is what was filed before, and the new record. */
  lemma GroupStepOnlyFiled(prev: Json, all: Json, ks: seq<string>, k: string)
    requires all.Obj? && k in all.fields && k !in ks
    requires TypeIs(all.fields[k], 0) || TypeIs(all.fields[k], 1)
    requires Filed(prev) && OnlyFiled(prev, all, ks)
    ensures Filed(FileUnder(prev, k, all.fields[k]))
    ensures OnlyFiled(FileUnder(prev, k, all.fields[k]), all, ks + [k])
  {
    var g := FileUnder(prev, k, all.fields[k]);
    FileUnderFiled(prev, k, all.fields[k]);
    forall t, x | t in g.fields && x in g.fields[t].fields
      ensures x in ks + [k] && x in all.fields && TypeIs(all.fields[x], if t == "Project" then 0 else 1)
    {
      FiledAfterStep(prev, all, ks, k, t, x);
    }
  }

  /** One member of the catalog after a step: the new record, or one filed before. */
  lemma FiledAfterStep(prev: Json, all: Json, ks: seq<string>, k: string, t: string, x: string)
    requires all.Obj? && k in all.fields && k !in ks
    requires TypeIs(all.fields[k], 0) || TypeIs(all.fields[k], 1)
    requires Filed(prev) && OnlyFiled(prev, all, ks)
    requires var g := FileUnder(prev, k, all.fields[k]);
             t in g.fields && g.fields[t].Obj? && x in g.fields[t].fields
    ensures x in ks + [k] && x in all.fields && TypeIs(all.fields[x], if t == "Project" then 0 else 1)
  {
    var rec := all.fields[k];
    var tax := Taxonomy(rec);
    var group := if tax in prev.fields then prev.fields[tax] else EmptyObj;
    FileUnderFiled(prev, k, rec);
    if t == tax {
      assert FileUnder(prev, k, rec).fields[t].fields == group.fields[k := Single(k, rec)];
      if x != k {
        assert x in prev.fields[t].fields;
      }
    } else {
      assert x in prev.fields[t].fields;
    }
  }

  /** Filing keeps at most the two taxonomies, each an object, and changes only the record's own. */
  lemma FileUnderFiled(prev: Json, k: string, rec: Json)
    requires Filed(prev)
    ensures var tax := Taxonomy(rec);
            var group := if tax in prev.fields then prev.fields[tax] else EmptyObj;
            var g := FileUnder(prev, k, rec);
            Filed(g) && g.fields == prev.fields[tax := Put(group, k, Single(k, rec))]
  {
  }

  /** Whatever was filed stays filed, and the new record is filed alone under its key. */
  lemma GroupStepAllFiled(prev: Json, all: Json, ks: seq<string>, k: string)
    requires all.Obj? && k in all.fields && k !in ks
    requires TypeIs(all.fields[k], 0) || TypeIs(all.fields[k], 1)
    requires Grouped(prev, all, ks)
    ensures Filed(FileUnder(prev, k, all.fields[k]))
    ensures AllFiled(FileUnder(prev, k, all.fields[k]), all, ks + [k])
  {
    var rec := all.fields[k];
    var tax := Taxonomy(rec);
    var group := if tax in prev.fields then prev.fields[tax] else EmptyObj;
    var g := FileUnder(prev, k, rec);
    assert g.fields == prev.fields[tax := Put(group, k, Single(k, rec))];
    assert Filed(g);
    forall x | x in ks + [k] && x in all.fields && (TypeIs(all.fields[x], 0) || TypeIs(all.fields[x], 1))
      ensures var t := Taxonomy(all.fields[x]);
              t in g.fields && x in g.fields[t].fields && g.fields[t].fields[x] == Single(x, all.fields[x])
    {
      if x != k {
        assert x in ks;
        var t := Taxonomy(all.fields[x]);
        assert t in prev.fields && x in prev.fields[t].fields;
      }
    }
  }

  /** A record of another type is not filed. */
  lemma GroupStepSkips(prev: Json, all: Json, ks: seq<string>, k: string)
    requires all.Obj? && k in all.fields
    requires !TypeIs(all.fields[k], 0) && !TypeIs(all.fields[k], 1)
    requires Grouped(prev, all, ks)
    ensures Grouped(prev, all, ks + [k])
  {
    var ks1 := ks + [k];
    assert forall x | x in ks :: x in ks1;
    assert forall x | x in ks1 :: x in ks || x == k;
  }

  // ---------------------------------------------------------------------
  // The whitelist (PackageManager.js:75-83, 112-126)

  /** lodash's `property('name')`: `undefined` for `null` and `undefined`. */
  function NameOf(e: Json): Json
  {
    if e.Undefined? || e.Null? then Undefined else Get(e, "name")
  }

  /** `map(whiteList, 'name')`. */
  function WhiteNames(whiteList: Json): (r: seq<Json>)
    ensures |r| == |Elements(whiteList)|
  {
    var es := Elements(whiteList);
    seq(|es|, i requires 0 <= i < |es| => NameOf(es[i]))
  }

  /** `list.indexOf(n) > -1`. */
  predicate Listed(n: Json, names: seq<Json>)
  {
    exists j :: 0 <= j < |names| && StrictEq(names[j], n)
  }

  /** `packages.filter(pkg => list.indexOf(pkg.name) > -1)`. */
  function KeepListed(pkgs: seq<Json>, names: seq<Json>): (r: Result<seq<Json>>)
    ensures r.Ok? <==> forall i :: 0 <= i < |pkgs| ==> !pkgs[i].Undefined? && !pkgs[i].Null?
    ensures r.Ok? ==> forall x :: x in r.value <==> x in pkgs && Listed(Get(x, "name"), names)
    ensures r.Ok? ==> |r.value| <= |pkgs|
  {
    if pkgs == [] then Ok([])
    else
      var prev :- KeepListed(pkgs[..|pkgs| - 1], names);
      var p := pkgs[|pkgs| - 1];
      var n :- Member(p, "name");
      assert forall x :: x in pkgs <==> x in pkgs[..|pkgs| - 1] || x == p;
      Ok(if Listed(n, names) then prev + [p] else prev)
  }

  /** The filter keeps the listing's order: filtering a concatenation concatenates. */
  lemma {:induction false} KeepListedAppend(a: seq<Json>, b: seq<Json>, names: seq<Json>)
    requires KeepListed(a + b, names).Ok?
    ensures KeepListed(a, names).Ok? && KeepListed(b, names).Ok?
    ensures KeepListed(a + b, names).value == KeepListed(a, names).value + KeepListed(b, names).value
    decreases |b|
  {
    assert forall i :: 0 <= i < |a| ==> (a + b)[i] == a[i];
    assert forall i :: 0 <= i < |b| ==> (a + b)[|a| + i] == b[i];
    if b != [] {
      var b' := b[..|b| - 1];
      assert (a + b)[..|a + b| - 1] == a + b';
      KeepListedAppend(a, b', names);
    } else {
      assert a + b == a;
    }
  }

  /** The filter applied by the market: none when the whitelist is empty. */
  function WhiteListFilter(packageList: Json, whiteList: Json): (r: Result<Json>)
    requires !whiteList.Undefined? && !whiteList.Null?
    ensures !Truthy(Get(whiteList, "length")) ==> r == Ok(packageList)
    ensures Truthy(Get(whiteList, "length")) && !packageList.Arr? ==> r.Err?
  {
    if Truthy(Get(whiteList, "length")) then
      if packageList.Arr? then
        var kept :- KeepListed(packageList.items, WhiteNames(whiteList));
        Ok(Arr(kept))
      else Err("TypeError: packages.filter is not a function")
    else Ok(packageList)
  }

  /** A package is kept by a non-empty whitelist exactly when its name is listed. */
  lemma WhiteListKeepsListed(packageList: Json, whiteList: Json, p: Json)
    requires !whiteList.Undefined? && !whiteList.Null?
    requires Truthy(Get(whiteList, "length"))
    requires WhiteListFilter(packageList, whiteList).Ok?
    ensures p in WhiteListFilter(packageList, whiteList).value.items <==>
            p in packageList.items && Listed(Get(p, "name"), WhiteNames(whiteList))
  {
  }

  // ---------------------------------------------------------------------
  // The detail search (PackageManager.js:98-164)

  /** What the detail search ends with: nothing to list, the grouped catalog, or an error. */
  datatype Detail = NoPackages | Found(packagers: Json) | Failed(error: string)

  /** The package list of a keyword listing: `response.packages || []`. */
  function PackageList(response: Json): Result<Json>
  {
    var packages :- Member(response, "packages");
    Ok(OrElse(packages, Arr([])))
  }

  /** `filterPackageList[i]['name']` for every listed package, in order. */
  function ListedNames(list: seq<Json>): (r: Result<seq<Json>>)
    ensures r.Ok? ==> |r.value| == |list|
  {
    if list == [] then Ok([])
    else
      var prev :- ListedNames(list[..|list| - 1]);
      var n :- Member(list[|list| - 1], "name");
      Ok(prev + [n])
  }

  /**
   * The metadata documents of the named packages; when a request fails the
   * first failure in list order is reported.
   */
  function FetchAll(isAli: bool, names: seq<Json>, fetch: string -> Result<Json>): (r: Result<seq<Json>>)
    ensures r.Ok? ==> |r.value| == |names|
    ensures r.Ok? ==> forall i :: 0 <= i < |names| ==>
              fetch(Cnpm.GetNamedPackageInfoUrl(isAli, ToKey(names[i]))) == Ok(r.value[i])
  {
    if names == [] then Ok([])
    else
      var prev :- FetchAll(isAli, names[..|names| - 1], fetch);
      var doc :- fetch(Cnpm.GetNamedPackageInfoUrl(isAli, ToKey(names[|names| - 1])));
      assert forall i :: 0 <= i < |names| - 1 ==> names[..|names| - 1][i] == names[i];
      Ok(prev + [doc])
  }

  /** The grouped catalog built from fetched metadata documents (PackageManager.js:130-156). */
  function CatalogOf(docs: seq<Json>): Result<Json>
  {
    var all :- NormalizeAll(docs, true);
    GroupAll(all, all.keys)
  }

  /**
   * The detail search once the network is known: fetch the keyword listing,
   * filter it by the whitelist unless `ignoreWhiteList`, fetch each listed
   * package's metadata and group the records.
   */
  function DetailSearch(isAli: bool, prefix: string, fetch: string -> Result<Json>,
                        ignoreWhiteList: bool, whiteList: Result<Json>): (r: Detail)
    ensures r.Found? ==> r.packagers.Obj?
    ensures r == NoPackages <==>
              && fetch(Cnpm.GetSearchUrl(isAli, prefix)).Ok?
              && PackageList(fetch(Cnpm.GetSearchUrl(isAli, prefix)).value).Ok?
              && !Truthy(Get(PackageList(fetch(Cnpm.GetSearchUrl(isAli, prefix)).value).value, "length"))
  {
    match fetch(Cnpm.GetSearchUrl(isAli, prefix))
    case Err(e) => Failed(e)
    case Ok(response) =>
      match PackageList(response)
      case Err(e) => Failed(e)
      case Ok(list) =>
        if !Truthy(Get(list, "length")) then NoPackages
        else
          var filtered :=
            if ignoreWhiteList then Ok(list)
            else match whiteList
              case Err(e) => Err(e)
              case Ok(wl) =>
                if wl.Undefined? || wl.Null? then Err("TypeError: Cannot read property 'length' of " + ToKey(wl))
                else WhiteListFilter(list, wl);
          match filtered
          case Err(e) => Failed(e)
          case Ok(fl) =>
            match ListedNames(Elements(fl))
            case Err(e) => Failed(e)
            case Ok(names) =>
              match FetchAll(isAli, names, fetch)
              case Err(e) => Failed(e)
              case Ok(docs) =>
                match CatalogOf(docs)
                case Err(e) => Failed(e)
                case Ok(g) => Found(g)
  }

  /** The listing a detail search goes on with: the whole list, or what a usable whitelist keeps of it. */
  predicate FilteredBy(list: Json, ignoreWhiteList: bool, whiteList: Result<Json>, fl: Json)
  {
    if ignoreWhiteList then fl == list
    else whiteList.Ok? && !whiteList.value.Undefined? && !whiteList.value.Null? &&
         WhiteListFilter(list, whiteList.value) == Ok(fl)
  }

  /**
   * Once the listing is non-empty, filtered, and every listed package's
   * metadata fetched as `docs`, the search finds a catalog exactly when
   * every document yields a record; the catalog is then keyed by the
   * records' names and files each record of type 0 or 1 alone at
   * `<taxonomy>.<name>.<name>`, and no other.
   */
  lemma DetailSearchFiles(isAli: bool, prefix: string, fetch: string -> Result<Json>, ignoreWhiteList: bool,
                          whiteList: Result<Json>, list: Json, fl: Json, docs: seq<Json>)
    requires fetch(Cnpm.GetSearchUrl(isAli, prefix)).Ok?
    requires PackageList(fetch(Cnpm.GetSearchUrl(isAli, prefix)).value) == Ok(list) && Truthy(Get(list, "length"))
    requires FilteredBy(list, ignoreWhiteList, whiteList, fl)
    requires ListedNames(Elements(fl)).Ok? && FetchAll(isAli, ListedNames(Elements(fl)).value, fetch) == Ok(docs)
    ensures DetailSearch(isAli, prefix, fetch, ignoreWhiteList, whiteList).Found? <==>
            forall i :: 0 <= i < |docs| ==> NormalizeOne(docs[i], true).Ok?
    ensures DetailSearch(isAli, prefix, fetch, ignoreWhiteList, whiteList).Found? ==>
            var all := NormalizeAll(docs, true).value;
            && all.fields.Keys == (set i | 0 <= i < |docs| :: NormalizeOne(docs[i], true).value.0)
            && Grouped(DetailSearch(isAli, prefix, fetch, ignoreWhiteList, whiteList).packagers, all, all.keys)
  {
    NormalizeAllOk(docs, true);
    if NormalizeAll(docs, true).Ok? {
      var all := NormalizeAll(docs, true).value;
      IndexByKeys(docs, p => NormalizeOne(p, true));
      IndexByDistinct(docs, p => NormalizeOne(p, true));
      NormalizeAllNamed(docs, true);
      GroupAllFiles(all, all.keys);
      assert CatalogOf(docs) == GroupAll(all, all.keys);
    }
  }

  /**
   * A whitelist whose `length` is falsy filters nothing: the search then
   * finds what it finds with the whitelist switched off.
   */
  lemma EmptyWhiteListFiltersNothing(isAli: bool, prefix: string, fetch: string -> Result<Json>,
                                     whiteList: Json, other: Result<Json>)
    requires !whiteList.Undefined? && !whiteList.Null? && !Truthy(Get(whiteList, "length"))
    ensures DetailSearch(isAli, prefix, fetch, false, Ok(whiteList)) ==
            DetailSearch(isAli, prefix, fetch, true, other)
  {
  }

}
