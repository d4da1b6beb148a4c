/**
 * The `PackageManager` class (PackageManager.js:32-804): the market's entry
 * points over one status store.  The manager keeps the grouped catalog of
 * its last detail search (`packagers`) and whether it runs inside the
 * Alibaba network (`isAli`, probed once); every other piece of state lives
 * in the status file behind its `StatusJSONManager`.
 *
 * The loops of `getInstalledObj` and of `doFinalValidatedSearch` are the
 * methods at the top of this module, each proved to compute the function of
 * the `Installed` or `Reconcile` module that states what the loop does.  Each
 * call of the class is proved to leave the status file, and to answer, as
 * the function of its own module over the file as found says.
 *
 * Where the source is wrong (see the `Installed`, `InstallList` and
 * `Lifecycle` modules), the class runs the corrected behaviour: dropped
 * groups are skipped, the type test is `[0, 1].indexOf(type)`, a plugin's
 * install list files the plugin under `Plugin[name][name]`, and removals
 * address the manager's own namespace.
 */
module Market {
  import opened JsValue
  import opened StatusStore
  import Cnpm
  import Semver
  import Catalog
  import Installed
  import InstallList
  import Reconcile
  import Parent
  import Patch
  import Download
  import Lifecycle

  // ---------------------------------------------------------------------
  // getInstalledObj's walk, in place (PackageManager.js:244-264)

  /** The children `cs` of group `parent` (PackageManager.js:251-260). */
  method WalkChildren(tax: Json, parent: string, cs: seq<string>, skip: bool) returns (r: Result<Json>)
    ensures r == Installed.ChildSteps(tax, parent, cs, skip)
  {
    var cur := tax;
    var i := 0;
    while i < |cs|
      invariant 0 <= i <= |cs|
      invariant Installed.ChildSteps(tax, parent, cs[..i], skip) == Ok(cur)
    {
      Installed.ChildStepsNext(tax, parent, cs, i, skip);
      var next := Installed.ChildStep(cur, parent, cs[i], skip);
      if next.Err? {
        return next;
      }
      cur := next.value;
      i := i + 1;
    }
    assert cs[..i] == cs;
    r := Ok(cur);
  }

  /** One group `parent` of a taxonomy (PackageManager.js:249-261). */
  method VisitParent(tax: Json, parent: string, skip: bool) returns (r: Result<Json>)
    ensures r == Installed.ParentStep(tax, parent, skip)
  {
    var g := Member(tax, parent);
    if g.Err? {
      return Err(g.error);
    }
    var cs := ObjectKeys(g.value);
    if cs.Err? {
      return Err(cs.error);
    }
    r := WalkChildren(tax, parent, cs.value, skip);
  }

  /** The groups `ps` of one taxonomy (PackageManager.js:248-262). */
  method WalkParents(tax: Json, ps: seq<string>, skip: bool) returns (r: Result<Json>)
    ensures r == Installed.ParentSteps(tax, ps, skip)
  {
    var cur := tax;
    var i := 0;
    while i < |ps|
      invariant 0 <= i <= |ps|
      invariant Installed.ParentSteps(tax, ps[..i], skip) == Ok(cur)
    {
      Installed.ParentStepsNext(tax, ps, i, skip);
      var next := VisitParent(cur, ps[i], skip);
      if next.Err? {
        return next;
      }
      cur := next.value;
      i := i + 1;
    }
    assert ps[..i] == ps;
    r := Ok(cur);
  }

  /** One taxonomy `t` of the tree (PackageManager.js:245-263). */
  method VisitType(tree: Json, t: string, skip: bool) returns (r: Result<Json>)
    ensures r == Installed.TypeStep(tree, t, skip)
  {
    var tax := Member(tree, t);
    if tax.Err? {
      return Err(tax.error);
    }
    var ps := ObjectKeys(tax.value);
    if ps.Err? {
      return Err(ps.error);
    }
    var walked := WalkParents(tax.value, ps.value, skip);
    if walked.Err? {
      return walked;
    }
    r := WriteBack(tree, t, walked.value);
  }

  /** The taxonomies `ts` of the tree (PackageManager.js:244-264). */
  method WalkTypes(tree: Json, ts: seq<string>, skip: bool) returns (r: Result<Json>)
    ensures r == Installed.TypeSteps(tree, ts, skip)
  {
    var cur := tree;
    var i := 0;
    while i < |ts|
      invariant 0 <= i <= |ts|
      invariant Installed.TypeSteps(tree, ts[..i], skip) == Ok(cur)
    {
      Installed.TypeStepsNext(tree, ts, i, skip);
      var next := VisitType(cur, ts[i], skip);
      if next.Err? {
        return next;
      }
      cur := next.value;
      i := i + 1;
    }
    assert ts[..i] == ts;
    r := Ok(cur);
  }

  // ---------------------------------------------------------------------
  // doFinalValidatedSearch's reduces (PackageManager.js:285-439)

  /** The search's node-semver calls: `satisfies` as given, `gt` as modelled by `Semver.Gt`. */
  function Semvers(sat: Reconcile.Satisfies): Reconcile.SemverCalls
  {
    Reconcile.SemverCalls(sat, Semver.Gt)
  }

  /** The inner `reduce` over the items of group `owner` (PackageManager.js:296-362, 371-425). */
  method RebuildGroup(loop: Reconcile.Loop, owner: string, g: Json, items: seq<string>, c: Reconcile.Copies,
                      sv: Reconcile.SemverCalls) returns (r: Result<(Json, Reconcile.Copies)>)
    requires !g.Undefined? && !g.Null?
    ensures r == Reconcile.GroupSteps(loop, owner, g, items, c, sv)
  {
    var out := EmptyObj;
    var cur := c;
    var j := 0;
    while j < |items|
      invariant 0 <= j <= |items|
      invariant out.Obj? && Reconcile.GroupSteps(loop, owner, g, items[..j], c, sv) == Ok((out, cur))
    {
      Reconcile.GroupStepsNext(loop, owner, g, items, j, c, sv);
      var next := Reconcile.ItemStep(loop, owner, items[j], Get(g, items[j]), cur, sv);
      if next.Err? {
        return Err(next.error);
      }
      out := Put(out, items[j], next.value.0);
      cur := next.value.1;
      j := j + 1;
    }
    assert items[..j] == items;
    r := Ok((out, cur));
  }

  /** One owner's group, filed into the accumulator `prev` (PackageManager.js:295-366, 370-429). */
  method RebuildOwner(loop: Reconcile.Loop, obj: Json, owner: string, prev: (Json, Reconcile.Copies),
                      sv: Reconcile.SemverCalls) returns (r: Result<(Json, Reconcile.Copies)>)
    requires !obj.Undefined? && !obj.Null? && prev.0.Obj?
    ensures r == Reconcile.OwnerStep(loop, obj, owner, prev, sv)
  {
    var g := Get(obj, owner);
    var items := ObjectKeys(g);
    if items.Err? {
      return Err(items.error);
    }
    var group := RebuildGroup(loop, owner, g, items.value, prev.1, sv);
    if group.Err? {
      return Err(group.error);
    }
    r := Ok((Put(prev.0, owner, group.value.0), group.value.1));
  }

  /** The outer `reduce` over the owners of one taxonomy (PackageManager.js:294-367, 369-430). */
  method RebuildOwners(loop: Reconcile.Loop, obj: Json, owners: seq<string>, c: Reconcile.Copies,
                       sv: Reconcile.SemverCalls) returns (r: Result<(Json, Reconcile.Copies)>)
    requires !obj.Undefined? && !obj.Null?
    ensures r == Reconcile.OwnerSteps(loop, obj, owners, c, sv)
  {
    var out := EmptyObj;
    var cur := c;
    var i := 0;
    while i < |owners|
      invariant 0 <= i <= |owners|
      invariant out.Obj? && Reconcile.OwnerSteps(loop, obj, owners[..i], c, sv) == Ok((out, cur))
    {
      Reconcile.OwnerStepsNext(loop, obj, owners, i, c, sv);
      var group := RebuildOwner(loop, obj, owners[i], (out, cur), sv);
      if group.Err? {
        return group;
      }
      out := group.value.0;
      cur := group.value.1;
      i := i + 1;
    }
    assert owners[..i] == owners;
    r := Ok((out, cur));
  }

  /** The body of the search's `try` once the installed view is known (PackageManager.js:282-439). */
  method ComputeViews(p: Json, installed: Json, sv: Reconcile.SemverCalls) returns (r: Result<Reconcile.Views>)
    ensures r == Reconcile.Reconcile(p, installed, sv)
  {
    if IsEmptyObj(installed) {
      return Ok(Reconcile.Views(p, p, installed));
    }
    var projectsObj := OrElse(Get(installed, "Project"), EmptyObj);
    var pluginsObj := OrElse(Get(installed, "Plugin"), EmptyObj);
    var projects := ObjectKeys(projectsObj).value;
    var plugins := ObjectKeys(pluginsObj).value;
    var pr := RebuildOwners(Reconcile.ProjectLoop, projectsObj, projects, Reconcile.Copies(p, p), sv);
    if pr.Err? {
      return Err(pr.error);
    }
    var installed1 := SetProp(installed, "Project", pr.value.0);
    if installed1.Err? {
      return Err(installed1.error);
    }
    var pl := RebuildOwners(Reconcile.PluginLoop, pluginsObj, plugins, pr.value.1, sv);
    if pl.Err? {
      return Err(pl.error);
    }
    r := Ok(Reconcile.Views(pl.value.1.packages, pl.value.1.backup, Put(installed1.value, "Plugin", pl.value.0)));
  }

  // ---------------------------------------------------------------------
  // The calls over the status file, as functions

  /** `getInstalledObj(name, type)` over the status file, corrected: the read, the walk and the lookup. */
  function InstalledObj(d: Disk, file: string, now: nat, name: Json, typ: Json): (s: Step<Json>)
    requires DiskOk(d)
    ensures s.disk == Read(d, file, now).disk
    ensures Read(d, file, now).out.Err? ==> s.out.Err?
  {
    var r := Read(d, file, now);
    match r.out
    case Err(e) => Step(r.disk, Err(e))
    case Ok(tree) => Step(r.disk, Installed.GetInstalledObjIntended(tree, name, typ))
  }

  /** The `finalObj` the search answers with. */
  function FinalObj(v: Reconcile.Views): (r: Json)
    ensures r.Obj? && |r.keys| == 3
    ensures Get(r, "finalValidatedAllPackages") == v.all
    ensures Get(r, "finalValidatedUnInstallPackages") == v.uninstalled
    ensures Get(r, "finalValidatedInstalledPackages") == v.installed
  {
    Obj(["finalValidatedAllPackages", "finalValidatedUnInstallPackages", "finalValidatedInstalledPackages"],
        map["finalValidatedAllPackages" := v.all,
            "finalValidatedUnInstallPackages" := v.uninstalled,
            "finalValidatedInstalledPackages" := v.installed])
  }

  /**
   * `doFinalValidatedSearch` once the catalog `p` is known
   * (PackageManager.js:275-449): the installed view is read and reconciled
   * with the catalog; anything thrown on the way is caught, and the catch
   * answers with the error, two empty catalog views and the installed view
   * read again (which throws out of the call when it fails again).
   */
  function FinalSearch(d: Disk, file: string, now: nat, p: Json, sat: Reconcile.Satisfies): (s: Step<Reply>)
    requires DiskOk(d)
    ensures s.out.Ok? ==> s.out.value.value.Obj?
    ensures s.out.Ok? && s.out.value.err.Some? ==>
              Get(s.out.value.value, "finalValidatedAllPackages") == EmptyObj &&
              Get(s.out.value.value, "finalValidatedUnInstallPackages") == EmptyObj
  {
    var first := InstalledObj(d, file, now, Undefined, Undefined);
    var views := if first.out.Err? then Err(first.out.error) else Reconcile.Reconcile(p, first.out.value, Semvers(sat));
    match views
    case Ok(v) => Step(first.disk, Ok(Reply(None, FinalObj(v))))
    case Err(e) =>
      var again := InstalledObj(first.disk, file, now, Undefined, Undefined);
      match again.out
      case Err(e2) => Step(again.disk, Err(e2))
      case Ok(t) => Step(again.disk, Ok(Reply(Some(e), FinalObj(Reconcile.Views(EmptyObj, EmptyObj, t)))))
  }

  /**
   * Over a stored tree the search never throws and reconciles the catalog
   * with the tree's clean form: a successful reconciliation is answered
   * with its three views, a failed one with its error, empty catalog views
   * and the clean tree.  The file is only ever healed by the read.
   */
  lemma FinalSearchReconcilesCleanTree(d: Disk, file: string, now: nat, p: Json, sat: Reconcile.Satisfies)
    requires DiskOk(d) && Read(d, file, now).out.Ok? && Installed.TreeShape(Read(d, file, now).out.value)
    ensures var clean := Installed.CleanTree(Read(d, file, now).out.value);
            var s := FinalSearch(d, file, now, p, sat);
            var v := Reconcile.Reconcile(p, clean, Semvers(sat));
            && s.disk == Read(d, file, now).disk
            && (v.Ok? ==> s.out == Ok(Reply(None, FinalObj(v.value))))
            && (v.Err? ==> s.out == Ok(Reply(Some(v.error), FinalObj(Reconcile.Views(EmptyObj, EmptyObj, clean)))))
  {
    var tree := Read(d, file, now).out.value;
    Installed.GetInstalledObjIntendedTotal(tree, Undefined, Undefined);
    ReadHeals(d, file, now, now);
  }

  /** With nothing stored the search answers with the catalog, unannotated, as both catalog views. */
  lemma FinalSearchWithoutInstalls(d: Disk, file: string, now: nat, p: Json, sat: Reconcile.Satisfies)
    requires DiskOk(d) && Read(d, file, now).out.Ok? && IsEmptyObj(Read(d, file, now).out.value)
    ensures FinalSearch(d, file, now, p, sat).out == Ok(Reply(None, FinalObj(Reconcile.Views(p, p, Read(d, file, now).out.value))))
  {
    var tree := Read(d, file, now).out.value;
    assert Installed.FilterInstalling(tree, true) == Ok(tree);
  }

  /**
   * A successful search over a stored tree and a catalog keeps the catalog
   * view's rule fields and key sets, and the installed view holds every
   * installed record annotated from the catalog alone.
   */
  lemma FinalSearchMarksNewest(d: Disk, file: string, now: nat, p: Json, sat: Reconcile.Satisfies)
    requires DiskOk(d) && Read(d, file, now).out.Ok? && Installed.TreeShape(Read(d, file, now).out.value)
    requires Reconcile.CatalogShape(p)
    ensures var clean := Installed.CleanTree(Read(d, file, now).out.value);
            var s := FinalSearch(d, file, now, p, sat);
            s.out.Ok? && s.out.value.err.None? && !IsEmptyObj(clean) ==>
              var all := Get(s.out.value.value, "finalValidatedAllPackages");
              var inst := Get(s.out.value.value, "finalValidatedInstalledPackages");
              var projectsObj := OrElse(Get(clean, "Project"), EmptyObj);
              var pluginsObj := OrElse(Get(clean, "Plugin"), EmptyObj);
              Reconcile.SameCatalog(p, all) && inst.Obj? && "Project" in inst.fields && "Plugin" in inst.fields &&
              !projectsObj.Undefined? && !projectsObj.Null? && !pluginsObj.Undefined? && !pluginsObj.Null? &&
              Reconcile.RebuiltOwners(Reconcile.ProjectLoop, projectsObj, ObjectKeys(projectsObj).value, inst.fields["Project"], p, Semvers(sat)) &&
              Reconcile.RebuiltOwners(Reconcile.PluginLoop, pluginsObj, ObjectKeys(pluginsObj).value, inst.fields["Plugin"], p, Semvers(sat))
  {
    var clean := Installed.CleanTree(Read(d, file, now).out.value);
    FinalSearchReconcilesCleanTree(d, file, now, p, sat);
    Reconcile.ReconcileMarksNewest(p, clean, Semvers(sat));
  }

  /**
   * A successful search over a stored tree answers, as its uninstalled
   * view, the catalog with every installed root's group and every other
   * installed record removed.
   */
  lemma FinalSearchUninstalled(d: Disk, file: string, now: nat, p: Json, sat: Reconcile.Satisfies)
    requires DiskOk(d) && Read(d, file, now).out.Ok? && Installed.TreeShape(Read(d, file, now).out.value)
    requires Reconcile.CatalogShape(p)
    ensures var clean := Installed.CleanTree(Read(d, file, now).out.value);
            var s := FinalSearch(d, file, now, p, sat);
            s.out.Ok? && s.out.value.err.None? && !IsEmptyObj(clean) ==>
              var projectsObj := OrElse(Get(clean, "Project"), EmptyObj);
              var pluginsObj := OrElse(Get(clean, "Plugin"), EmptyObj);
              !projectsObj.Undefined? && !projectsObj.Null? && !pluginsObj.Undefined? && !pluginsObj.Null? &&
              Reconcile.Uninstalled(p, Get(s.out.value.value, "finalValidatedUnInstallPackages"),
                                    Reconcile.OwnerRemovals(Reconcile.ProjectLoop, projectsObj, ForInKeys(projectsObj)) +
                                    Reconcile.OwnerRemovals(Reconcile.PluginLoop, pluginsObj, ForInKeys(pluginsObj)))
  {
    var clean := Installed.CleanTree(Read(d, file, now).out.value);
    FinalSearchReconcilesCleanTree(d, file, now, p, sat);
    Reconcile.ReconcileUninstalled(p, clean, Semvers(sat));
  }

  // ---------------------------------------------------------------------
  // doNameAndDescriptionSearch (PackageManager.js:65-96)

  /**
   * The keyword listing's packages, filtered by the whitelist unless
   * `ignoreWhiteList`.  A failed request or whitelist, and a missing
   * listing, fail the search.
   */
  function NameSearch(isAli: bool, prefix: string, fetch: string -> Result<Json>,
                      ignoreWhiteList: bool, whiteList: Result<Json>): (r: Result<Json>)
    ensures var response := fetch(Cnpm.GetSearchUrl(isAli, prefix));
            response.Err? ==> r == Err(response.error)
    ensures var response := fetch(Cnpm.GetSearchUrl(isAli, prefix));
            response.Ok? && !ignoreWhiteList && whiteList.Err? ==> r == Err(whiteList.error)
    ensures var response := fetch(Cnpm.GetSearchUrl(isAli, prefix));
            response.Ok? && ignoreWhiteList ==> r == Member(response.value, "packages")
  {
    var response :- fetch(Cnpm.GetSearchUrl(isAli, prefix));
    if ignoreWhiteList then Member(response, "packages")
    else
      var wl :- whiteList;
      if wl.Undefined? || wl.Null? then Err("TypeError: Cannot read property 'length' of " + ToKey(wl))
      else if Truthy(Get(wl, "length")) then
        var packages :- Member(response, "packages");
        Catalog.WhiteListFilter(packages, wl)
      else Member(response, "packages")
  }

  /** `[null, value]` or `[err, null]`. */
  function ReplyOf(r: Result<Json>): (reply: Reply)
    ensures reply.err.None? <==> r.Ok?
    ensures r.Ok? ==> reply.value == r.value
    ensures r.Err? ==> reply == Reply(Some(r.error), Null)
  {
    match r
    case Ok(v) => Reply(None, v)
    case Err(e) => Reply(Some(e), Null)
  }

  /** An empty whitelist filters nothing: the search answers as if the whitelist were ignored. */
  lemma NameSearchEmptyWhiteList(isAli: bool, prefix: string, fetch: string -> Result<Json>, whiteList: Json,
                                 other: Result<Json>)
    requires !whiteList.Undefined? && !whiteList.Null? && !Truthy(Get(whiteList, "length"))
    ensures NameSearch(isAli, prefix, fetch, false, Ok(whiteList)) == NameSearch(isAli, prefix, fetch, true, other)
  {
  }

  /**
   * With a non-empty whitelist, a package is answered exactly when the
   * listing holds it and its name is on the whitelist, in listing order.
   */
  lemma NameSearchKeepsListed(isAli: bool, prefix: string, fetch: string -> Result<Json>, whiteList: Json, p: Json)
    requires !whiteList.Undefined? && !whiteList.Null? && Truthy(Get(whiteList, "length"))
    requires NameSearch(isAli, prefix, fetch, false, Ok(whiteList)).Ok?
    ensures var response := fetch(Cnpm.GetSearchUrl(isAli, prefix)).value;
            var packages := Member(response, "packages").value;
            var r := NameSearch(isAli, prefix, fetch, false, Ok(whiteList)).value;
            packages.Arr? && r.Arr? &&
            (p in r.items <==> p in packages.items && Catalog.Listed(Get(p, "name"), Catalog.WhiteNames(whiteList))) &&
            r.items == Catalog.KeepListed(packages.items, Catalog.WhiteNames(whiteList)).value
  {
    var response := fetch(Cnpm.GetSearchUrl(isAli, prefix)).value;
    var packages := Member(response, "packages").value;
    Catalog.WhiteListKeepsListed(packages, whiteList, p);
  }

  // ---------------------------------------------------------------------
  // Static calls on the store class (PackageManager.js:239, 548, 637, ...)

  /**
   * `StatusJSONManager.readStatusJSON()` as written: the call is made on the
   * class, whose methods are all instance methods (StatusJSONManager.js:16,
   * 35, 48).  The property read gives `undefined`, and calling it throws
   * before the file is looked at.
   */
  function StaticReadAsWritten(d: Disk): (s: Step<Json>)
    ensures s.disk == d && s.out.Err?
  {
    Step(d, Err("TypeError: StatusJSONManager.readStatusJSON is not a function"))
  }

  /** `getParent(path)` as written (PackageManager.js:632-668), reading the store through the class. */
  function GetParentAsWritten(d: Disk, path: string): (s: Step<Reply>)
    ensures s.disk == d
    ensures !Parent.IsAbsolute(path) ==> s.out == Ok(Reply(Some("Error: path should be absolute"), Str("")))
  {
    if !Parent.IsAbsolute(path) then Step(d, Ok(Reply(Some("Error: path should be absolute"), Str(""))))
    else
      var read := StaticReadAsWritten(d);
      match read.out
      case Err(e) => Step(read.disk, Err(e))
      case Ok(tree) => Step(read.disk, Parent.GetParentOf(tree, path))
  }

  /** As written, `getParent` of any absolute path throws, whatever the status file holds, and touches nothing. */
  lemma GetParentAsWrittenThrows(d: Disk, path: string)
    requires Parent.IsAbsolute(path)
    ensures GetParentAsWritten(d, path).out.Err?
    ensures GetParentAsWritten(d, path).disk == d
  {
  }

  /**
   * Through the manager's own store instance (PackageManager.js:62), the
   * same call on a namespace with no valid status file (absent, or corrupt
   * with its aside name free) heals the file and answers `[null, null]`.
   */
  lemma GetParentThroughStore(d: Disk, file: string, path: string, now: nat)
    requires DiskOk(d) && !d.file.Holds? && AsidePath(file, now) !in d.asides
    ensures var s := Read(d, file, now);
            s.out == Ok(EmptyObj) && s.disk.file == Holds(EmptyObj) &&
            Parent.GetParentOf(s.out.value, path) == Ok(Reply(None, Null))
  {
    assert IsEmptyObj(EmptyObj);
  }

  /** What the detail search answers: `[]` when nothing is listed, else the usual pair. */
  function DetailAnswer(d: Catalog.Detail): (r: Download.Answer)
    ensures d.NoPackages? <==> r == Download.Bare(Arr([]))
    ensures d.Found? ==> r == Download.Pair(Reply(None, d.packagers))
    ensures d.Failed? ==> r == Download.Pair(Reply(Some(d.error), Null))
  {
    match d
    case NoPackages => Download.Bare(Arr([]))
    case Found(g) => Download.Pair(Reply(None, g))
    case Failed(e) => Download.Pair(Reply(Some(e), Null))
  }

  // ---------------------------------------------------------------------
  // The manager

  class PackageManager {
    const home: string
    const prefix: string
    const suffix: string
    const store: StatusJSONManager
    /** The grouped catalog of the last successful detail search, `null` before. */
    var packagers: Json
    /** Whether the manager runs inside the Alibaba network; `None` until probed. */
    var isAli: Option<bool>

    ghost predicate Valid()
      reads this, store
    {
      store.Valid() && store.path == InfoJsonPath(home, suffix) && store.suffix == suffix
    }

    /**
     * PackageManager.js:50-63: the prefix defaults to `cygnus-ide`, the
     * suffix to `UNIVERSAL`, and the store is the one of the suffix's
     * namespace under `home`, over the disk as found.
     */
    constructor (home: string, prefix: Option<string>, suffix: Option<string>, found: Disk)
      requires DiskOk(found)
      ensures Valid() && fresh(store)
      ensures this.home == home
      ensures this.prefix == (if prefix.Some? then prefix.value else "cygnus-ide")
      ensures this.suffix == (if suffix.Some? then suffix.value else "UNIVERSAL")
      ensures packagers == Null && isAli.None? && store.DiskNow() == found
    {
      this.home := home;
      this.prefix := if prefix.Some? then prefix.value else "cygnus-ide";
      var s := if suffix.Some? then suffix.value else "UNIVERSAL";
      this.suffix := s;
      packagers := Null;
      isAli := None;
      store := new StatusJSONManager(home, s, found);
    }

    /** `if (this.isAli === undefined) this.isAli = await isAliEnv()`, with the probe's answer `probe`. */
    method ProbeNetwork(probe: bool)
      requires Valid()
      modifies this
      ensures Valid() && isAli.Some?
      ensures isAli == (if old(isAli).None? then Some(probe) else old(isAli))
      ensures packagers == old(packagers)
    {
      if isAli.None? {
        isAli := Some(probe);
      }
    }

    /** `doNameAndDescriptionSearch()` (PackageManager.js:65-96). */
    method DoNameAndDescriptionSearch(probe: bool, fetch: string -> Result<Json>, ignoreWhiteList: bool,
                                      whiteList: Result<Json>) returns (r: Reply)
      requires Valid()
      modifies this
      ensures Valid() && isAli == (if old(isAli).None? then Some(probe) else old(isAli))
      ensures packagers == old(packagers)
      ensures r == ReplyOf(NameSearch(isAli.value, prefix, fetch, ignoreWhiteList, whiteList))
    {
      ProbeNetwork(probe);
      var response := fetch(Cnpm.GetSearchUrl(isAli.value, prefix));
      if response.Err? {
        return Reply(Some(response.error), Null);
      }
      var packages: Result<Json>;
      if !ignoreWhiteList {
        if whiteList.Err? {
          return Reply(Some(whiteList.error), Null);
        }
        var wl := whiteList.value;
        if wl.Undefined? || wl.Null? {
          return Reply(Some("TypeError: Cannot read property 'length' of " + ToKey(wl)), Null);
        }
        if Truthy(Get(wl, "length")) {
          var listed := Member(response.value, "packages");
          if listed.Err? {
            return Reply(Some(listed.error), Null);
          }
          packages := Catalog.WhiteListFilter(listed.value, wl);
        } else {
          packages := Member(response.value, "packages");
        }
      } else {
        packages := Member(response.value, "packages");
      }
      r := ReplyOf(packages);
    }

    /**
     * `doAllPackagesDetailSearch()` (PackageManager.js:98-164): a found
     * catalog becomes the manager's `packagers`; otherwise they stay.
     */
    method DoAllPackagesDetailSearch(probe: bool, fetch: string -> Result<Json>, ignoreWhiteList: bool,
                                     whiteList: Result<Json>) returns (r: Download.Answer)
      requires Valid()
      modifies this
      ensures Valid() && isAli == (if old(isAli).None? then Some(probe) else old(isAli))
      ensures var d := Catalog.DetailSearch(isAli.value, prefix, fetch, ignoreWhiteList, whiteList);
              r == DetailAnswer(d) && packagers == (if d.Found? then d.packagers else old(packagers))
    {
      ProbeNetwork(probe);
      var d := Catalog.DetailSearch(isAli.value, prefix, fetch, ignoreWhiteList, whiteList);
      if d.Found? {
        packagers := d.packagers;
      }
      r := DetailAnswer(d);
    }

    /** `getInstalledObj(name, type)`, corrected (PackageManager.js:238-273). */
    method GetInstalledObj(name: Json, typ: Json, now: nat) returns (r: Result<Json>)
      requires Valid()
      modifies store
      ensures Valid()
      ensures Step(store.DiskNow(), r) == InstalledObj(old(store.DiskNow()), store.path, now, name, typ)
    {
      var tree := store.ReadStatusJSON(now);
      if tree.Err? {
        return Err(tree.error);
      }
      var walked := WalkTypes(tree.value, ForInKeys(tree.value), true);
      if walked.Err? {
        return walked;
      }
      r := Installed.LookupIntended(walked.value, name, typ);
    }

    /**
     * `doFinalValidatedSearch()` (PackageManager.js:275-449): the catalog
     * is searched for first when there is none yet; the catalog itself is
     * never changed by the search, which works on copies.
     */
    method DoFinalValidatedSearch(probe: bool, fetch: string -> Result<Json>, ignoreWhiteList: bool,
                                  whiteList: Result<Json>, sat: Reconcile.Satisfies, now: nat) returns (r: Result<Reply>)
      requires Valid()
      modifies this, store
      ensures Valid()
      ensures Truthy(old(packagers)) ==> packagers == old(packagers) && isAli == old(isAli)
      ensures !Truthy(old(packagers)) ==>
                isAli == (if old(isAli).None? then Some(probe) else old(isAli)) &&
                var d := Catalog.DetailSearch(isAli.value, prefix, fetch, ignoreWhiteList, whiteList);
                packagers == (if d.Found? then d.packagers else old(packagers))
      ensures Step(store.DiskNow(), r) == FinalSearch(old(store.DiskNow()), store.path, now, packagers, sat)
    {
      if !Truthy(packagers) {
        var _ := DoAllPackagesDetailSearch(probe, fetch, ignoreWhiteList, whiteList);
      }
      var p := packagers;
      var installed := GetInstalledObj(Undefined, Undefined, now);
      var views: Result<Reconcile.Views>;
      if installed.Err? {
        views := Err(installed.error);
      } else {
        views := ComputeViews(p, installed.value, Semvers(sat));
      }
      if views.Ok? {
        return Ok(Reply(None, FinalObj(views.value)));
      }
      var again := GetInstalledObj(Undefined, Undefined, now);
      if again.Err? {
        return Err(again.error);
      }
      r := Ok(Reply(Some(views.error), FinalObj(Reconcile.Views(EmptyObj, EmptyObj, again.value))));
    }

    /**
     * `getParent(path)` (PackageManager.js:632-668): a relative path is
     * answered with an error at once; otherwise the status file is read
     * (a failed read throws out of the call) and searched.
     */
    method GetParent(path: string, now: nat) returns (r: Result<Reply>)
      requires Valid()
      modifies store
      ensures Valid()
      ensures !Parent.IsAbsolute(path) ==>
                r == Ok(Reply(Some("Error: path should be absolute"), Str(""))) && store.DiskNow() == old(store.DiskNow())
      ensures Parent.IsAbsolute(path) ==>
                var s := Read(old(store.DiskNow()), store.path, now);
                store.DiskNow() == s.disk &&
                r == (if s.out.Err? then Err(s.out.error) else Parent.GetParentOf(s.out.value, path))
    {
      if !Parent.IsAbsolute(path) {
        return Ok(Reply(Some("Error: path should be absolute"), Str("")));
      }
      var statusJSON := store.ReadStatusJSON(now);
      if statusJSON.Err? {
        return Err(statusJSON.error);
      }
      var tree := statusJSON.value;
      var parent := Null;
      if !IsEmptyObj(tree) {
        var projectsObj := OrElse(Get(tree, "Project"), EmptyObj);
        var pluginsObj := OrElse(Get(tree, "Plugin"), EmptyObj);
        var projects := ObjectKeys(projectsObj);
        if projects.Err? {
          return Err(projects.error);
        }
        var plugins := ObjectKeys(pluginsObj);
        if plugins.Err? {
          return Err(plugins.error);
        }
        var found := Parent.SearchGroups(projectsObj, projects.value, path, Null);
        if found.Err? {
          return Err(found.error);
        }
        parent := found.value;
        if !Truthy(parent) {
          found := Parent.SearchGroups(pluginsObj, plugins.value, path, parent);
          if found.Err? {
            return Err(found.error);
          }
          parent := found.value;
        }
      }
      r := Ok(Reply(None, parent));
    }

    /** `setStatusOrEnableOfNamedPakcage({parent, name, type, status, enable})` (PackageManager.js:670-724). */
    method SetStatusOrEnableOfNamedPackage(parent: Json, name: Json, typ: Json, status: Json, enable: Json, now: nat)
      returns (r: Result<Reply>)
      requires Valid()
      modifies store
      ensures Valid()
      ensures Step(store.DiskNow(), r) ==
              Patch.SetStatusOrEnable(old(store.DiskNow()), store.path, now, parent, name, typ, status, enable)
    {
      Patch.SetStatusOrEnableReads(store.DiskNow(), store.path, now, parent, name, typ, status, enable);
      var oldJSON := store.ReadStatusJSON(now);
      if oldJSON.Err? {
        return Err(oldJSON.error);
      }
      r := PatchStored(oldJSON.value, parent, name, typ, status, enable, now);
    }

    /** The patch once the file is known to hold `tree` (PackageManager.js:673-723). */
    method PatchStored(tree: Json, parent: Json, name: Json, typ: Json, status: Json, enable: Json, now: nat)
      returns (r: Result<Reply>)
      requires Valid() && store.DiskNow().file == Holds(tree)
      modifies store
      ensures Valid()
      ensures Step(store.DiskNow(), r) ==
              Patch.PatchStored(old(store.DiskNow()), store.path, now, tree, parent, name, typ, status, enable)
    {
      var target := Patch.Target(tree, Default(parent, Null), Default(name, Str("")), Default(typ, Num(0)));
      if target.Err? {
        return Ok(Reply(Some(target.error), EmptyObj));
      }
      Patch.PatchStoredMerges(store.DiskNow(), store.path, now, tree, parent, name, typ, status, enable);
      var obj := Patch.PatchObject(target.value, Default(status, Str("")), Default(enable, Str("")));
      var updated := store.UpdateStatusJSON(obj, false, now);
      r := Ok(Reply(None, updated.value));
    }

    /**
     * What a download call asks to write (PackageManager.js:490-545 and
     * 564-616), with the install list built by its loops and the requests
     * collected by theirs.
     */
    method Wanted(tax: string, fetch: string -> Result<Json>, name: Json, version: Json, failure: Option<string>,
                  files: map<string, Json>) returns (w: Result<Json>)
      requires isAli.Some?
      ensures w == Download.Wanted(tax, true, isAli.value, fetch, name, version, DownloadDir(home, suffix), failure, files)
    {
      if !(name.Str? && name.s != "") {
        return Ok(EmptyObj);
      }
      var pkg := Chosen(fetch, name.s, version);
      if pkg.Err? {
        return Err(pkg.error);
      }
      w := LocalInfo(tax, pkg.value, failure, files);
    }

    /** The manifest of the version a download call installs, from the registry document `fetch` returns. */
    method Chosen(fetch: string -> Result<Json>, name: string, version: Json) returns (pkg: Result<Json>)
      requires isAli.Some?
      ensures pkg == Download.Chosen(isAli.value, fetch, name, version)
    {
      var doc := fetch(Cnpm.GetNamedPackageInfoUrl(isAli.value, name));
      if doc.Err? {
        return Err(doc.error);
      }
      pkg := Download.ChooseVersion(doc.value, version);
    }

    /** What a download call asks to write for the chosen manifest `pkg` (`dlLocalInfo`). */
    method LocalInfo(tax: string, pkg: Json, failure: Option<string>, files: map<string, Json>) returns (w: Result<Json>)
      ensures w == Download.LocalInfo(tax, pkg, true, DownloadDir(home, suffix), failure, files)
    {
      var list := InstallList.GetInstallListObj(pkg, true);
      if list.Err? {
        return Err(list.error);
      }
      var qs := Download.CollectRequests(list.value, tax);
      if qs == [] {
        return Ok(EmptyObj);
      }
      if failure.Some? {
        return Err(failure.value);
      }
      var pname := Member(pkg, "name");
      if pname.Err? {
        return Err(pname.error);
      }
      var records := Download.Records(qs, DownloadDir(home, suffix), files, tax == "Plugin");
      if records.Err? {
        return Err(records.error);
      }
      w := Ok(Single(tax, Single(ToKey(pname.value), records.value)));
    }

    /**
     * `downloadProjectPlugin(name, version)` (PackageManager.js:484-556):
     * `failure` is the first download that fails and `files` the manifests
     * the downloads leave, by path.
     */
    method DownloadProjectPlugin(probe: bool, fetch: string -> Result<Json>, name: Json, version: Json,
                                 failure: Option<string>, files: map<string, Json>, now: nat) returns (r: Reply)
      requires Valid()
      modifies this, store
      ensures Valid() && isAli == (if old(isAli).None? then Some(probe) else old(isAli))
      ensures packagers == old(packagers)
      ensures Step(store.DiskNow(), Ok(r)) ==
              Download.DownloadProjectPlugin(old(store.DiskNow()), store.path, now, true, isAli.value, fetch,
                                             name, version, DownloadDir(home, suffix), failure, files)
    {
      ProbeNetwork(probe);
      var w := Wanted("Project", fetch, Default(name, Str("")), Default(version, Str("latest")), failure, files);
      r := WriteProject(w, now);
    }

    /** The end of `downloadProjectPlugin` (PackageManager.js:547-555) once the call knows what to write, `w`. */
    method WriteProject(w: Result<Json>, now: nat) returns (r: Reply)
      requires Valid() && (w.Ok? ==> w.value.Obj?)
      modifies store
      ensures Valid()
      ensures Step(store.DiskNow(), Ok(r)) == Download.WriteProject(old(store.DiskNow()), store.path, now, w)
    {
      if w.Err? {
        return Reply(Some(w.error), Null);
      }
      if !IsEmptyObj(w.value) {
        var updated := store.UpdateStatusJSON(w.value, false, now);
        if updated.Err? {
          return Reply(Some(updated.error), Null);
        }
      }
      var tree := store.ReadStatusJSON(now);
      r := ReplyOf(tree);
    }

    /**
     * `downloadAGlobalPlugin(name, version)` (PackageManager.js:558-630):
     * once records were written the call answers with the merged tree alone.
     */
    method DownloadAGlobalPlugin(probe: bool, fetch: string -> Result<Json>, name: Json, version: Json,
                                 failure: Option<string>, files: map<string, Json>, now: nat) returns (r: Download.Answer)
      requires Valid()
      modifies this, store
      ensures Valid() && isAli == (if old(isAli).None? then Some(probe) else old(isAli))
      ensures packagers == old(packagers)
      ensures Step(store.DiskNow(), Ok(r)) ==
              Download.DownloadAGlobalPlugin(old(store.DiskNow()), store.path, now, true, isAli.value, fetch,
                                             name, version, DownloadDir(home, suffix), failure, files)
    {
      ProbeNetwork(probe);
      var w := Wanted("Plugin", fetch, Default(name, Str("")), Default(version, Str("latest")), failure, files);
      r := WriteGlobalPlugin(w, now);
    }

    /** The end of `downloadAGlobalPlugin` (PackageManager.js:621-629) once the call knows what to write, `w`. */
    method WriteGlobalPlugin(w: Result<Json>, now: nat) returns (r: Download.Answer)
      requires Valid() && (w.Ok? ==> w.value.Obj?)
      modifies store
      ensures Valid()
      ensures Step(store.DiskNow(), Ok(r)) == Download.WriteGlobalPlugin(old(store.DiskNow()), store.path, now, w)
    {
      if w.Err? {
        return Download.Pair(Reply(Some(w.error), Null));
      }
      if !IsEmptyObj(w.value) {
        var updated := store.UpdateStatusJSON(w.value, false, now);
        if updated.Err? {
          return Download.Pair(Reply(Some(updated.error), Null));
        }
        return Download.Bare(updated.value);
      }
      var tree := store.ReadStatusJSON(now);
      r := Download.Pair(ReplyOf(tree));
    }

    /**
     * `unInstallAPackage({name, type})` (PackageManager.js:727-760):
     * `removed` is whether `rimraf` succeeds; the entry is deleted only then.
     */
    method UnInstallAPackage(name: Json, typ: Json, removed: bool, now: nat) returns (r: Result<Lifecycle.Uninstalled>)
      requires Valid()
      modifies store
      ensures Valid()
      ensures Step(store.DiskNow(), r) ==
              Lifecycle.Uninstall(old(store.DiskNow()), store.path, now, home, suffix, name, typ, removed)
    {
      var oldJSON := store.ReadStatusJSON(now);
      if oldJSON.Err? {
        return Err(oldJSON.error);
      }
      var n := Default(name, Str(""));
      var t := Default(typ, Num(0));
      var target := Lifecycle.UninstallTarget(oldJSON.value, n, t);
      if target.Err? {
        return Ok(Lifecycle.Uninstalled(Lifecycle.Rejected(Reply(Some(target.error), EmptyObj)), None));
      }
      var dir: Option<string> := None;
      if target.value.Some? {
        dir := Some(Lifecycle.RemovedDir(home, suffix, target.value.value, n.s));
      }
      var tree := store.ReadStatusJSON(now);
      if target.value.Some? && removed {
        var _ := store.DeleteAGlobalExtensionFromStatusJSON(n, t, now);
      }
      r := Ok(Lifecycle.Uninstalled(Lifecycle.Resolved(Reply(None, tree.value)), dir));
    }

    /**
     * `reset()` (PackageManager.js:762-775): `pluginErr` and `projectErr`
     * are the failures of the two removals; `attempted` lists the
     * directories the call asks to remove, in order.
     */
    method Reset(pluginErr: Option<string>, projectErr: Option<string>, now: nat) returns (r: Reply, attempted: seq<string>)
      requires Valid()
      modifies store
      ensures Valid()
      ensures Step(store.DiskNow(), Ok(r)) == Lifecycle.Reset(old(store.DiskNow()), store.path, now, pluginErr, projectErr)
      ensures attempted == Lifecycle.ResetRemoves(home, suffix)[..if pluginErr.Some? then 1 else 2]
    {
      var dirs := Lifecycle.ResetRemoves(home, suffix);
      attempted := [dirs[0]];
      if pluginErr.None? {
        attempted := attempted + [dirs[1]];
        if projectErr.None? {
          var _ := store.UpdateStatusJSON(EmptyObj, true, now);
        }
      }
      r := Reply(None, Num(0));
    }

    /** `installBuildinProjectPackages(packagesInfo)` (PackageManager.js:778-803). */
    method InstallBuildinProjectPackages(packagesInfo: Json, now: nat) returns (r: Result<Json>)
      requires Valid()
      modifies store
      ensures Valid()
      ensures Step(store.DiskNow(), r) ==
              Lifecycle.InstallBuildin(old(store.DiskNow()), store.path, now, Default(packagesInfo, Arr([])))
    {
      var data := Lifecycle.BuildinData(Default(packagesInfo, Arr([])));
      if data.Err? {
        return Err(data.error);
      }
      if data.value.None? {
        return Ok(Undefined);
      }
      var updated := store.UpdateStatusJSON(data.value.value, false, now);
      if updated.Err? {
        return Err(updated.error);
      }
      r := Ok(Undefined);
    }
  }
}
