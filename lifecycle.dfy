/**
 * The calls of PackageManager.js that remove or seed whole extensions:
 * `unInstallAPackage` (lines 727-760), `reset` (762-775) and
 * `installBuildinProjectPackages` (778-803).
 *
 * Removing a directory (`rimraf`) is not modelled on a file system: the
 * directory a call asks to remove is part of its result, and whether the
 * removal succeeded is a parameter.
 */
module Lifecycle {
  import opened JsValue
  import opened DeepMerge
  import opened StatusStore
  import Catalog

  // ---------------------------------------------------------------------
  // Which directory is removed

  /**
   * `join(getDownloadDir(), tax, name)` (PackageManager.js:729, 734, 745):
   * `getDownloadDir` is called without the manager's suffix, so the
   * directory is always under the default namespace.
   */
  function RemovedDirAsWritten(home: string, suffix: string, tax: string, name: string): (r: string)
    ensures r == RemovedDir(home, "UNIVERSAL", tax, name)
  {
    DownloadDir(home, "UNIVERSAL") + "/" + tax + "/" + name
  }

  /** The directory the downloads of `name` went to: under the manager's own namespace. */
  function RemovedDir(home: string, suffix: string, tax: string, name: string): (r: string)
    ensures DownloadDir(home, suffix) + "/" <= r
  {
    DownloadDir(home, suffix) + "/" + tax + "/" + name
  }

  /** Where a download of `name` under owner `owner` lands (DownloadManager.js:47-51). */
  function DownloadedTo(home: string, suffix: string, tax: string, owner: string, name: string, version: string): string
  {
    DownloadDir(home, suffix) + "/" + tax + "/" + owner + "/" + name + "@" + version
  }

  /** Every download made for an owner lies inside the directory the corrected uninstall removes. */
  lemma RemovedDirHoldsDownloads(home: string, suffix: string, tax: string, owner: string, name: string, version: string)
    ensures var dir := RemovedDir(home, suffix, tax, owner) + "/";
      dir <= DownloadedTo(home, suffix, tax, owner, name, version)
  {
    var dir := RemovedDir(home, suffix, tax, owner) + "/";
    assert DownloadedTo(home, suffix, tax, owner, name, version) == dir + (name + "@" + version);
  }

  /**
   * As written, a manager whose namespace is not the default one removes a
   * directory under `.ANT_IDE_STUFF_UNIVERSAL` while what it downloaded lies
   * under its own `.ANT_IDE_STUFF_<suffix>`: the removal misses every
   * download of every owner.
   */
  lemma RemovedDirAsWrittenMissesDownloads(home: string, suffix: string, tax: string, owner: string, name: string,
                                           version: string)
    requires suffix != "UNIVERSAL" && '/' !in suffix
    ensures !(RemovedDirAsWritten(home, suffix, tax, owner) + "/" <= DownloadedTo(home, suffix, tax, owner, name, version))
  {
    assert RemovedDirAsWritten(home, suffix, tax, owner) + "/" == DownloadDir(home, "UNIVERSAL") + "/" + (tax + "/" + owner + "/");
    assert DownloadedTo(home, suffix, tax, owner, name, version) ==
           DownloadDir(home, suffix) + "/" + (tax + "/" + owner + "/" + name + "@" + version);
    NamespacesApart(home, suffix, tax + "/" + owner + "/", tax + "/" + owner + "/" + name + "@" + version);
  }

  /**
   * Nothing under the default namespace's directory lies under the
   * directory of another namespace whose name holds no `/`: the two paths
   * part at the suffix.
   */
  lemma NamespacesApart(home: string, suffix: string, x: string, y: string)
    requires suffix != "UNIVERSAL" && '/' !in suffix
    ensures !(DownloadDir(home, "UNIVERSAL") + "/" + x <= DownloadDir(home, suffix) + "/" + y)
  {
    var pre := home + "/.ANT_IDE_STUFF_";
    var a := DownloadDir(home, "UNIVERSAL") + "/" + x;
    var b := DownloadDir(home, suffix) + "/" + y;
    assert a == pre + "UNIVERSAL" + "/" + x;
    assert b == pre + suffix + "/" + y;
    var n := |pre|;
    var k: int;
    if |suffix| < 9 {
      k := n + |suffix|;
      assert a[k] == "UNIVERSAL"[|suffix|] && b[k] == '/';
    } else if |suffix| == 9 {
      var m :| 0 <= m < 9 && suffix[m] != "UNIVERSAL"[m];
      k := n + m;
      assert a[k] == "UNIVERSAL"[m] && b[k] == suffix[m];
    } else {
      k := n + 9;
      assert a[k] == '/' && b[k] == suffix[9];
    }
    assert k < |a| && k < |b| && a[k] != b[k];
  }

  // ---------------------------------------------------------------------
  // unInstallAPackage

  /** How the returned promise settles. */
  datatype Settled = Resolved(reply: Reply) | Rejected(reply: Reply)

  /** What `unInstallAPackage` settles with, and the directory it asks `rimraf` to remove. */
  datatype Uninstalled = Uninstalled(settled: Settled, removes: Option<string>)

  /**
   * The checks of PackageManager.js:732-754: a type-0 call with a
   * non-empty string name removes a truthy `Project[name]`, a type-1 call
   * a truthy `Plugin[name]`; reading through a missing taxonomy throws.
   * The result is the taxonomy to remove from, if any.
   */
  function UninstallTarget(tree: Json, name: Json, typ: Json): (r: Result<Option<string>>)
    requires tree.Obj?
    ensures r == Ok(Some("Project")) <==>
              StrictEq(typ, Num(0)) && name.Str? && name.s != "" && !Get(tree, "Project").Undefined? &&
              !Get(tree, "Project").Null? && Truthy(Get(Get(tree, "Project"), name.s))
    ensures r == Ok(Some("Plugin")) <==>
              StrictEq(typ, Num(1)) && name.Str? && name.s != "" && !Get(tree, "Plugin").Undefined? &&
              !Get(tree, "Plugin").Null? && Truthy(Get(Get(tree, "Plugin"), name.s))
    ensures r.Err? <==>
              name.Str? && name.s != "" &&
              ((StrictEq(typ, Num(0)) && (Get(tree, "Project").Undefined? || Get(tree, "Project").Null?)) ||
               (StrictEq(typ, Num(1)) && (Get(tree, "Plugin").Undefined? || Get(tree, "Plugin").Null?)))
  {
    if StrictEq(typ, Num(0)) && name.Str? && name.s != "" then
      var rec :- Member(Get(tree, "Project"), name.s);
      Ok(if Truthy(rec) then Some("Project") else None)
    else if StrictEq(typ, Num(1)) && name.Str? && name.s != "" then
      var rec :- Member(Get(tree, "Plugin"), name.s);
      Ok(if Truthy(rec) then Some("Plugin") else None)
    else Ok(None)
  }

  /**
   * `unInstallAPackage({name = '', type = 0})` over the status file `d`.
   * The first read throws out of the call.  A failed check rejects with
   * `[err, {}]`.  Otherwise the promise resolves at once with the tree as
   * read, before the removal finishes; once `rimraf` succeeds
   * (`removed`) the extension's entry is deleted from the file, and when it
   * fails the file is left alone (the later rejection of a settled promise
   * has no effect).  The directory removed is the one the downloads went to,
   * `RemovedDir`, not the default namespace's of line 729.
   */
  function Uninstall(d: Disk, file: string, now: nat, home: string, suffix: string, name: Json, typ: Json,
                     removed: bool): (s: Step<Uninstalled>)
    requires DiskOk(d)
    ensures DiskOk(s.disk) && AsidesKept(d, s.disk)
    ensures s.out.Err? <==> Read(d, file, now).out.Err?
    ensures s.out.Err? ==> s.disk == d
    ensures s.out.Ok? ==>
      var tree := Read(d, file, now).out.value;
      var target := UninstallTarget(tree, Default(name, Str("")), Default(typ, Num(0)));
      && (target.Err? ==> s.out.value == Uninstalled(Rejected(Reply(Some(target.error), EmptyObj)), None) &&
                          s.disk == Read(d, file, now).disk)
      && (target.Ok? ==> s.out.value.settled == Resolved(Reply(None, tree)))
      && (target.Ok? && target.value.None? ==> s.out.value.removes.None? && s.disk == Read(d, file, now).disk)
      && (target.Ok? && target.value.Some? ==>
            s.out.value.removes == Some(RemovedDir(home, suffix, target.value.value, Default(name, Str("")).s)))
      && (target.Ok? && target.value.Some? && !removed ==> s.disk == Read(d, file, now).disk)
  {
    var r := Read(d, file, now);
    match r.out
    case Err(e) => Step(r.disk, Err(e))
    case Ok(tree) =>
      var n := Default(name, Str(""));
      match UninstallTarget(tree, n, Default(typ, Num(0)))
      case Err(e) => Step(r.disk, Ok(Uninstalled(Rejected(Reply(Some(e), EmptyObj)), None)))
      case Ok(None) =>
        ReadHeals(d, file, now, now);
        Step(r.disk, Ok(Uninstalled(Resolved(Reply(None, tree)), None)))
      case Ok(Some(tax)) =>
        ReadHeals(d, file, now, now);
        var dir := RemovedDir(home, suffix, tax, n.s);
        var after := if removed then Delete(r.disk, file, now, n, Default(typ, Num(0))).disk else r.disk;
        Step(after, Ok(Uninstalled(Resolved(Reply(None, tree)), Some(dir))))
  }

  /**
   * A successful uninstall of a stored project takes `Project[name]` out of
   * the file and leaves the other projects and the other top-level entries
   * as they were, while the call itself answers with the tree as it was.
   */
  lemma UninstallDeletesProject(d: Disk, file: string, now: nat, home: string, suffix: string, name: string)
    requires DiskOk(d) && Read(d, file, now).out.Ok? && name != ""
    requires var tree := Read(d, file, now).out.value;
      "Project" in tree.fields && tree.fields["Project"].Obj? && name in tree.fields["Project"].fields &&
      Truthy(tree.fields["Project"].fields[name])
    ensures var tree := Read(d, file, now).out.value;
      var s := Uninstall(d, file, now, home, suffix, Str(name), Num(0), true);
      && s.out == Ok(Uninstalled(Resolved(Reply(None, tree)), Some(RemovedDir(home, suffix, "Project", name))))
      && s.disk.file.Holds?
      && var after := s.disk.file.tree;
         && "Project" in after.fields && after.fields["Project"].Obj?
         && after.fields["Project"].fields == tree.fields["Project"].fields - {name}
         && forall k :: k in tree.fields && k != "Project" ==> k in after.fields && after.fields[k] == tree.fields[k]
  {
    var tree := Read(d, file, now).out.value;
    var rd := Read(d, file, now).disk;
    ReadHeals(d, file, now, now);
    assert Read(rd, file, now) == Step(rd, Ok(tree));
    var t1 := DeleteRoot(tree, "Project", name).value;
    assert Delete(rd, file, now, Str(name), Num(0)).disk.file == Holds(Serialize(t1));
    SerializePlain(t1);
  }

  /** A plugin is removed from `Plugin` in the same way. */
  lemma UninstallDeletesPlugin(d: Disk, file: string, now: nat, home: string, suffix: string, name: string)
    requires DiskOk(d) && Read(d, file, now).out.Ok? && name != ""
    requires var tree := Read(d, file, now).out.value;
      "Plugin" in tree.fields && tree.fields["Plugin"].Obj? && name in tree.fields["Plugin"].fields &&
      Truthy(tree.fields["Plugin"].fields[name])
    ensures var tree := Read(d, file, now).out.value;
      var s := Uninstall(d, file, now, home, suffix, Str(name), Num(1), true);
      && s.out == Ok(Uninstalled(Resolved(Reply(None, tree)), Some(RemovedDir(home, suffix, "Plugin", name))))
      && s.disk.file.Holds?
      && var after := s.disk.file.tree;
         && "Plugin" in after.fields && after.fields["Plugin"].Obj?
         && after.fields["Plugin"].fields == tree.fields["Plugin"].fields - {name}
         && forall k :: k in tree.fields && k != "Plugin" ==> k in after.fields && after.fields[k] == tree.fields[k]
  {
    var tree := Read(d, file, now).out.value;
    var rd := Read(d, file, now).disk;
    ReadHeals(d, file, now, now);
    assert Read(rd, file, now) == Step(rd, Ok(tree));
    var t1 := DeleteRoot(tree, "Plugin", name).value;
    assert Delete(rd, file, now, Str(name), Num(1)).disk.file == Holds(Serialize(t1));
    SerializePlain(t1);
  }

  // ---------------------------------------------------------------------
  // reset

  /**
   * What `reset` asks to remove as written (PackageManager.js:763-767), in
   * order: `getDownloadDir()` is called without the manager's suffix, so
   * the two taxonomy directories are the default namespace's.
   */
  function ResetRemovesAsWritten(home: string): (r: seq<string>)
    ensures |r| == 2 && forall i :: 0 <= i < 2 ==> DownloadDir(home, "UNIVERSAL") + "/" <= r[i]
  {
    [DownloadDir(home, "UNIVERSAL") + "/Plugin", DownloadDir(home, "UNIVERSAL") + "/Project"]
  }

  /** As written, `reset` on a manager of another namespace removes a directory holding none of its downloads. */
  lemma ResetAsWrittenMissesDownloads(home: string, suffix: string, tax: string, owner: string, name: string,
                                      version: string)
    requires suffix != "UNIVERSAL" && '/' !in suffix
    ensures forall i :: 0 <= i < 2 ==>
              !(ResetRemovesAsWritten(home)[i] + "/" <= DownloadedTo(home, suffix, tax, owner, name, version))
  {
    var to := DownloadedTo(home, suffix, tax, owner, name, version);
    assert to == DownloadDir(home, suffix) + "/" + (tax + "/" + owner + "/" + name + "@" + version);
    assert ResetRemovesAsWritten(home)[0] + "/" == DownloadDir(home, "UNIVERSAL") + "/" + "Plugin/";
    assert ResetRemovesAsWritten(home)[1] + "/" == DownloadDir(home, "UNIVERSAL") + "/" + "Project/";
    NamespacesApart(home, suffix, "Plugin/", tax + "/" + owner + "/" + name + "@" + version);
    NamespacesApart(home, suffix, "Project/", tax + "/" + owner + "/" + name + "@" + version);
  }

  /**
   * What `reset` is evidently meant to remove (PackageManager.js:766-767),
   * in order: the two taxonomy directories of the manager's own namespace,
   * where its downloads went.
   */
  function ResetRemoves(home: string, suffix: string): (r: seq<string>)
    ensures |r| == 2 && forall i :: 0 <= i < 2 ==> DownloadDir(home, suffix) + "/" <= r[i]
  {
    [DownloadDir(home, suffix) + "/Plugin", DownloadDir(home, suffix) + "/Project"]
  }

  /** Every download of either taxonomy lies inside a directory `reset` removes. */
  lemma ResetRemovesEveryDownload(home: string, suffix: string, tax: string, owner: string, name: string, version: string)
    requires tax == "Plugin" || tax == "Project"
    ensures exists i :: 0 <= i < 2 && ResetRemoves(home, suffix)[i] + "/" <= DownloadedTo(home, suffix, tax, owner, name, version)
  {
    var i := if tax == "Plugin" then 0 else 1;
    var dir := ResetRemoves(home, suffix)[i] + "/";
    assert DownloadedTo(home, suffix, tax, owner, name, version) == dir + (owner + "/" + name + "@" + version);
  }

  /**
   * `reset()` (PackageManager.js:762-775): both extension directories are
   * removed and the file is reset to `{}`; the first failure stops the
   * rest.  The answer is `[null, 0]` whatever happened, since the error pair
   * is overwritten on line 772.  `pluginErr` and `projectErr` are the
   * failures of the two removals.
   */
  function Reset(d: Disk, file: string, now: nat, pluginErr: Option<string>, projectErr: Option<string>): (s: Step<Reply>)
    requires DiskOk(d)
    ensures s.out == Ok(Reply(None, Num(0)))
    ensures DiskOk(s.disk) && AsidesKept(d, s.disk)
    ensures pluginErr.Some? || projectErr.Some? ==> s.disk == d
    ensures pluginErr.None? && projectErr.None? && Read(d, file, now).out.Ok? ==> s.disk.file == Holds(EmptyObj)
    ensures Read(d, file, now).out.Err? ==> s.disk == d
  {
    if pluginErr.Some? || projectErr.Some? then Step(d, Ok(Reply(None, Num(0))))
    else
      var u := Update(d, file, now, EmptyObj, true);
      assert Serialize(EmptyObj) == EmptyObj;
      Step(u.disk, Ok(Reply(None, Num(0))))
  }

  // ---------------------------------------------------------------------
  // installBuildinProjectPackages

  /** PackageManager.js:786-787: a seeded record is `installed`, at the version it ships. */
  function MarkInstalled(rec: Json): (r: Json)
    requires rec.Obj?
    ensures r.Obj? && r.fields.Keys == rec.fields.Keys + {"status", "aversion"}
    ensures r.fields["status"] == Str("installed") && r.fields["aversion"] == Get(rec, "version")
    ensures forall k :: k in rec.fields && k != "status" && k != "aversion" ==> r.fields[k] == rec.fields[k]
  {
    Put(Put(rec, "status", Str("installed")), "aversion", Get(rec, "version"))
  }

  /**
   * The `reduce` of PackageManager.js:784-795 over the catalog keys `keys`:
   * each record, marked installed, filed as `{name: {name: record}}`.
   * `Object.assign({}, prev, x)` copies `prev` and then the one key of `x`,
   * which is `Put`.
   */
  function Seeded(packages: Json, keys: seq<string>): (r: Json)
    requires packages.Obj? && forall i :: 0 <= i < |keys| ==> keys[i] in packages.fields && packages.fields[keys[i]].Obj?
    ensures r.Obj?
  {
    if keys == [] then EmptyObj
    else
      var rec := MarkInstalled(packages.fields[keys[|keys| - 1]]);
      var n := ToKey(Get(rec, "name"));
      Put(Seeded(packages, keys[..|keys| - 1]), n, Single(n, rec))
  }

  /**
   * What `installBuildinProjectPackages(packagesInfo = [])` writes: `None`
   * when the catalog is empty, else `{Project: seeded}`.  A manifest the
   * catalog cannot be built from throws.
   */
  function BuildinData(packagesInfo: Json): (r: Result<Option<Json>>)
    ensures r.Ok? && r.value.Some? ==> r.value.value.Obj?
  {
    var packages :- Catalog.NormalizePackagesInfo(packagesInfo, false);
    Catalog.NormalizeAllNamed(Catalog.Manifests(packagesInfo), false);
    if packages.keys == [] then Ok(None)
    else Ok(Some(Single("Project", Seeded(packages, packages.keys))))
  }

  /** The whole call: the data is merged into the status file when there is any; it returns nothing. */
  function InstallBuildin(d: Disk, file: string, now: nat, packagesInfo: Json): (s: Step<Json>)
    requires DiskOk(d)
    ensures DiskOk(s.disk) && AsidesKept(d, s.disk)
    ensures BuildinData(packagesInfo).Err? ==> s.disk == d && s.out.Err?
    ensures BuildinData(packagesInfo) == Ok(None) ==> s == Step(d, Ok(Undefined))
    ensures BuildinData(packagesInfo).Ok? && BuildinData(packagesInfo).value.Some? ==>
              (s.out.Ok? <==> Read(d, file, now).out.Ok?) &&
              (s.out.Ok? ==> s.out.value == Undefined &&
                             s.disk == Update(d, file, now, BuildinData(packagesInfo).value.value, false).disk)
  {
    match BuildinData(packagesInfo)
    case Err(e) => Step(d, Err(e))
    case Ok(None) => Step(d, Ok(Undefined))
    case Ok(Some(data)) =>
      var u := Update(d, file, now, data, false);
      match u.out
      case Err(e) => Step(u.disk, Err(e))
      case Ok(_) => Step(u.disk, Ok(Undefined))
  }

  /**
   * Every catalog record is seeded at `Project.<name>.<name>`, marked
   * installed with its own version as `aversion`, and nothing else is
   * seeded.
   */
  lemma {:induction false} SeededFiles(packages: Json, keys: seq<string>)
    requires Named(packages) && forall i :: 0 <= i < |keys| ==> keys[i] in packages.fields
    ensures var r := Seeded(packages, keys);
      && (forall k :: k in r.fields <==> k in keys)
      && forall k :: k in keys ==> r.fields[k] == Single(k, MarkInstalled(packages.fields[k]))
  {
    if keys != [] {
      var init := keys[..|keys| - 1];
      assert forall i :: 0 <= i < |init| ==> init[i] == keys[i];
      SeededFiles(packages, init);
      var last := keys[|keys| - 1];
      SeededLast(packages, keys);
      var r, r0 := Seeded(packages, keys), Seeded(packages, init);
      MembersOfSnoc(keys);
      forall k | k in keys ensures r.fields[k] == Single(k, MarkInstalled(packages.fields[k])) {
        if k != last {
          assert k in init && r.fields[k] == r0.fields[k];
        }
      }
    }
  }

  /** The last key's record is filed under that key, which is its own name. */
  lemma SeededLast(packages: Json, keys: seq<string>)
    requires Named(packages) && keys != [] && forall i :: 0 <= i < |keys| ==> keys[i] in packages.fields
    ensures var last := keys[|keys| - 1];
      Seeded(packages, keys).fields ==
      Seeded(packages, keys[..|keys| - 1]).fields[last := Single(last, MarkInstalled(packages.fields[last]))]
  {
    var last := keys[|keys| - 1];
    assert last in packages.fields;
    var p := packages.fields[last];
    assert p.Obj? && "name" in p.fields && ToKey(p.fields["name"]) == last;
    var rec := MarkInstalled(p);
    assert Get(rec, "name") == p.fields["name"];
  }

  /** A catalog as built: its key list is its member set, and each record is an object stored under its own name. */
  ghost predicate Named(packages: Json)
  {
    && packages.Obj?
    && (forall k :: k in packages.fields <==> k in packages.keys)
    && forall k :: k in packages.fields ==>
         packages.fields[k].Obj? && "name" in packages.fields[k].fields && ToKey(packages.fields[k].fields["name"]) == k
  }

  /** The catalog built from the seeded manifests is `Named`. */
  lemma BuildinCatalogNamed(packagesInfo: Json)
    requires Catalog.NormalizePackagesInfo(packagesInfo, false).Ok?
    ensures Named(Catalog.NormalizePackagesInfo(packagesInfo, false).value)
  {
    Catalog.NormalizeAllNamed(Catalog.Manifests(packagesInfo), false);
  }

  /**
   * Seeding files each built-in project record at `Project.<name>.<name>`,
   * marked installed at its own version, and files nothing else under
   * `Project`.
   */
  lemma SeededProject(packages: Json)
    requires Named(packages)
    ensures var project := Seeded(packages, packages.keys);
      && (forall k :: k in project.fields <==> k in packages.fields)
      && forall k :: k in packages.fields ==>
           At(project, [k, k, "status"]) == Some(Str("installed")) &&
           At(project, [k, k, "aversion"]) == Some(Get(packages.fields[k], "version"))
  {
    SeededFiles(packages, packages.keys);
    var project := Seeded(packages, packages.keys);
    forall k | k in packages.fields
      ensures At(project, [k, k, "status"]) == Some(Str("installed"))
      ensures At(project, [k, k, "aversion"]) == Some(Get(packages.fields[k], "version"))
    {
      var rec := MarkInstalled(packages.fields[k]);
      SeededAt(project, k, rec, "status");
      SeededAt(project, k, rec, "aversion");
    }
  }

  /** A member of a record filed as `{k: {k: rec}}`, found along its key path. */
  lemma SeededAt(project: Json, k: string, rec: Json, f: string)
    requires project.Obj? && k in project.fields && project.fields[k] == Single(k, rec) && rec.Obj? && f in rec.fields
    ensures At(project, [k, k, f]) == Some(rec.fields[f])
  {
    assert [k, k, f] == [k] + [k, f] && [k, f] == [k] + [f] && [f] == [f] + [];
    AtCons(project, k, [k, f]);
    AtCons(Single(k, rec), k, [f]);
    AtCons(rec, f, []);
  }
}
