/**
 * The install list (PackageManager.js:451-482, `getInstallListObj`): the
 * nested object `{Project: {owner: {name: version}}, Plugin: {...}}` naming
 * every package a download has to fetch, built by repeated `lodash.set`
 * calls on dotted paths; and the download requests the two download
 * operations derive from it (PackageManager.js:496-506, 571-579).
 *
 * Line 470 files a plugin as `Plugin.<name>`, a bare version string, where
 * the plugin download expects the group `Plugin.<name>.<name>`.  The flag
 * `fixed` chooses between the line as written (`false`) and the intended
 * group (`true`).
 */
module InstallList {
  import opened JsValue
  import opened DeepMerge
  import Catalog
  import Semver

  // ---------------------------------------------------------------------
  // `lodash.set` on dotted paths

  /** The keys `lodash.set` follows for the path string `s`: the pieces between its dots. */
  function PathOf(s: string): (r: seq<string>)
    ensures |r| >= 1
  {
    Semver.SplitOn(s, '.')
  }

  /**
   * `lodash.set(o, path, v)`: an object on the way is kept, anything else on
   * the way is replaced by a fresh object, and the last key receives `v`.
   * Unlike lodash, an array on the way is replaced too, and a missing step
   * followed by an index-like key becomes an object, not an array.
   */
  function SetPath(o: Json, path: seq<string>, v: Json): (r: Json)
    requires o.Obj? && |path| > 0
    ensures r.Obj? && r.fields.Keys == o.fields.Keys + {path[0]}
    ensures path[0] in o.fields ==> r.keys == o.keys
    ensures At(r, path) == Some(v)
    ensures forall k :: k in o.fields && k != path[0] ==> r.fields[k] == o.fields[k]
    decreases |path|
  {
    if |path| == 1 then Put(o, path[0], v)
    else
      var child := if path[0] in o.fields && o.fields[path[0]].Obj? then o.fields[path[0]] else EmptyObj;
      Put(o, path[0], SetPath(child, path[1..], v))
  }

  lemma SetPathEmpty(k: string, v: Json)
    ensures SetPath(EmptyObj, [k], v) == Single(k, v)
  {
    assert [] + [k] == [k];
  }

  /** A `set` leaves every path that parts from its own where it was. */
  lemma {:induction false} SetPathElsewhere(o: Json, path: seq<string>, v: Json, p: seq<string>)
    requires o.Obj? && |path| > 0 && Diverge(p, path)
    ensures At(SetPath(o, path, v), p) == At(o, p)
    decreases |path|
  {
    var r := SetPath(o, path, v);
    if p[0] == path[0] {
      var child := if path[0] in o.fields && o.fields[path[0]].Obj? then o.fields[path[0]] else EmptyObj;
      assert |path| > 1;
      SetPathElsewhere(child, path[1..], v, p[1..]);
      if !(path[0] in o.fields && o.fields[path[0]].Obj?) {
        EmptyDiverges(path[1..], v, p[1..]);
      }
    }
  }

  /** Along a replaced non-object nothing was reachable before, and only the new path is reachable after. */
  lemma EmptyDiverges(path: seq<string>, v: Json, p: seq<string>)
    requires |path| > 0 && Diverge(p, path)
    ensures At(SetPath(EmptyObj, path, v), p) == None
    decreases |path|
  {
    if p[0] == path[0] {
      EmptyDiverges(path[1..], v, p[1..]);
    }
  }

  lemma {:induction false} DivergeExtend(p: seq<string>, q: seq<string>, x: seq<string>)
    requires Diverge(p, q)
    ensures Diverge(p, q + x)
    decreases |p|
  {
    assert (q + x)[0] == q[0];
    if p[0] == q[0] {
      assert (q + x)[1..] == q[1..] + x;
      DivergeExtend(p[1..], q[1..], x);
    }
  }

  /** The dotted path `a.b.rest` of two dot-free keys. */
  lemma PathOfDotted(a: string, b: string, rest: string)
    requires '.' !in a && '.' !in b
    ensures PathOf(a + "." + b + "." + rest) == [a, b] + PathOf(rest)
  {
    assert a + "." + b + "." + rest == a + ['.'] + (b + ['.'] + rest);
    Semver.SplitOnAfterPiece(a, b + ['.'] + rest, '.');
    Semver.SplitOnAfterPiece(b, rest, '.');
  }

  /** `Project.<owner>.<rest>` with a dot-free owner. */
  lemma PathOfProject(owner: string, rest: string)
    requires '.' !in owner
    ensures PathOf("Project." + owner + "." + rest) == ["Project", owner] + PathOf(rest)
  {
    assert "Project." + owner + "." + rest == "Project" + "." + owner + "." + rest;
    PathOfDotted("Project", owner, rest);
  }

  /** The plugin paths of PackageManager.js:470, as written and as intended, for a dot-free name. */
  lemma PathOfPlugin(n: string)
    requires '.' !in n
    ensures PathOf("Plugin." + n) == ["Plugin", n]
    ensures PathOf("Plugin." + n + "." + n) == ["Plugin", n, n]
  {
    assert "Plugin." + n == "Plugin" + "." + n;
    PathOfPair("Plugin", n);
    assert "Plugin." + n + "." + n == "Plugin" + "." + n + "." + n;
    PathOfDotted("Plugin", n, n);
    PathOfKey(n);
    assert ["Plugin", n] + [n] == ["Plugin", n, n];
  }

  lemma PathOfKey(a: string)
    requires '.' !in a
    ensures PathOf(a) == [a]
  {
    Semver.SplitOnNoSeparator(a, '.');
  }

  lemma PathOfPair(a: string, b: string)
    requires '.' !in a && '.' !in b
    ensures PathOf(a + "." + b) == [a, b]
  {
    assert a + "." + b == a + ['.'] + b;
    Semver.SplitOnAfterPiece(a, b, '.');
    Semver.SplitOnNoSeparator(b, '.');
  }

  // ---------------------------------------------------------------------
  // The install list

  /** `Array.isArray(pkgs) ? pkgs : [pkgs]`, with the default `[]` for a missing argument. */
  function Analysed(pkgs: Json): seq<Json>
  {
    if pkgs.Undefined? then [] else if pkgs.Arr? then pkgs.items else [pkgs]
  }

  /** `pkg.cygnus && pkg.cygnus.plugins || []`, on an extension manifest. */
  function PluginsOf(pkg: Json): (r: seq<Json>)
    requires Catalog.HasCygnus(pkg)
  {
    Elements(OrElse(Get(Get(pkg, "cygnus"), "plugins"), Arr([])))
  }

  /** The name of a manifest as it appears inside a path template. */
  function NameOf(pkg: Json): string
    requires !pkg.Undefined? && !pkg.Null?
  {
    ToKey(Get(pkg, "name"))
  }

  /**
   * The path the manifest's own version is set at: `Project.<n>.<n>` for a
   * project (PackageManager.js:460), `Plugin.<n>` for a plugin as written at
   * PackageManager.js:470, `Plugin.<n>.<n>` when `fixed`.
   */
  function RootPath(t: int, n: string, fixed: bool): (r: string)
    ensures (if t == 0 then "Project." else "Plugin.") <= r
    ensures |n| <= |r| && r[|r| - |n|..] == n
  {
    if t == 0 then "Project." + n + "." + n
    else if fixed then "Plugin." + n + "." + n
    else "Plugin." + n
  }

  /** The keys of `RootPath` for a dot-free name. */
  function RootKeys(t: int, n: string, fixed: bool): seq<string>
  {
    if t == 0 then ["Project", n, n] else if fixed then ["Plugin", n, n] else ["Plugin", n]
  }

  lemma RootPathKeys(t: int, n: string, fixed: bool)
    requires '.' !in n
    ensures PathOf(RootPath(t, n, fixed)) == RootKeys(t, n, fixed)
  {
    if t == 0 {
      PathOfProject(n, n);
      PathOfKey(n);
      assert ["Project", n] + [n] == ["Project", n, n];
    } else {
      PathOfPlugin(n);
    }
  }

  /**
   * The set calls of PackageManager.js:462-466 (and 471-475), for the first
   * `|ps|` plugins: they throw exactly when a declared plugin is `null` or
   * `undefined`.
   */
  function AddPlugins(acc: Json, owner: string, ps: seq<Json>): (r: Result<Json>)
    requires acc.Obj?
    ensures r.Ok? ==> r.value.Obj?
    ensures r.Err? <==> Undefined in ps || Null in ps
    decreases |ps|
  {
    if ps == [] then Ok(acc)
    else
      assert ps == ps[..|ps| - 1] + [ps[|ps| - 1]];
      var acc' :- AddPlugins(acc, owner, ps[..|ps| - 1]);
      AddPlugin(acc', owner, ps[|ps| - 1])
  }

  /** One iteration of the loops at PackageManager.js:464-466 and 473-475: file plugin `p` under its name. */
  function AddPlugin(acc: Json, owner: string, p: Json): (r: Result<Json>)
    requires acc.Obj?
    ensures r.Ok? ==> r.value.Obj?
    ensures r.Err? <==> p.Undefined? || p.Null?
  {
    var name :- Member(p, "name");
    Ok(SetPath(acc, PathOf("Project." + owner + "." + ToKey(name)), Get(p, "version")))
  }

  /** One iteration of the loop at PackageManager.js:455-478. */
  function AddPackage(acc: Json, pkg: Json, fixed: bool): (r: Result<Json>)
    requires acc.Obj?
    ensures r.Ok? ==> r.value.Obj?
    ensures Catalog.GetPackageType(pkg) == 2 ==> r == Ok(acc)
    ensures r.Err? <==> BadPlugins(pkg)
  {
    var t := Catalog.GetPackageType(pkg);
    if t == 2 then Ok(acc)
    else
      var n := NameOf(pkg);
      AddPlugins(SetPath(acc, PathOf(RootPath(t, n, fixed)), Get(pkg, "version")), n, PluginsOf(pkg))
  }

  /**
   * The loop at PackageManager.js:455-478 over the first `|pkgs|` manifests:
   * it throws exactly when an extension among them declares a `null` or
   * `undefined` plugin.
   */
  function AddPackages(acc: Json, pkgs: seq<Json>, fixed: bool): (r: Result<Json>)
    requires acc.Obj?
    ensures r.Ok? ==> r.value.Obj?
    ensures r.Err? <==> exists i :: 0 <= i < |pkgs| && BadPlugins(pkgs[i])
    decreases |pkgs|
  {
    if pkgs == [] then Ok(acc)
    else
      var init, last := pkgs[..|pkgs| - 1], pkgs[|pkgs| - 1];
      match AddPackages(acc, init, fixed)
      case Err(e) =>
        assert exists i :: 0 <= i < |pkgs| && BadPlugins(pkgs[i]) by {
          var i :| 0 <= i < |init| && BadPlugins(init[i]);
          assert init[i] == pkgs[i];
        }
        Err(e)
      case Ok(acc') =>
        assert (exists i :: 0 <= i < |pkgs| && BadPlugins(pkgs[i])) <==> BadPlugins(last) by {
          forall i | 0 <= i < |init| ensures !BadPlugins(pkgs[i]) {
            assert init[i] == pkgs[i];
          }
        }
        AddPackage(acc', last, fixed)
  }

  /** An extension manifest whose plugin list holds `null` or `undefined`. */
  predicate BadPlugins(pkg: Json)
  {
    Catalog.HasCygnus(pkg) && (Undefined in PluginsOf(pkg) || Null in PluginsOf(pkg))
  }

  /** What `getInstallListObj(pkgs)` returns or throws. */
  function InstallListOf(pkgs: Json, fixed: bool): (r: Result<Json>)
    ensures r.Ok? ==> r.value.Obj?
  {
    AddPackages(EmptyObj, Analysed(pkgs), fixed)
  }

  /** An error in the first `j` plugins is the error of the whole walk. */
  lemma {:induction false} AddPluginsErrSticks(acc: Json, owner: string, ps: seq<Json>, j: nat)
    requires acc.Obj? && j <= |ps| && AddPlugins(acc, owner, ps[..j]).Err?
    ensures AddPlugins(acc, owner, ps) == AddPlugins(acc, owner, ps[..j])
    decreases |ps|
  {
    if j < |ps| {
      var q := ps[..|ps| - 1];
      assert q[..j] == ps[..j];
      AddPluginsErrSticks(acc, owner, q, j);
    } else {
      assert ps[..j] == ps;
    }
  }

  /** The plugin walk one entry further: the entry extends it, or its failure is the walk's outcome. */
  lemma AddPluginsNext(acc: Json, owner: string, ps: seq<Json>, j: nat)
    requires acc.Obj? && j < |ps| && AddPlugins(acc, owner, ps[..j]).Ok?
    ensures var next := AddPlugin(AddPlugins(acc, owner, ps[..j]).value, owner, ps[j]);
            (next.Err? ==> AddPlugins(acc, owner, ps) == next) &&
            (next.Ok? ==> AddPlugins(acc, owner, ps[..j + 1]) == next)
  {
    assert ps[..j + 1][..j] == ps[..j];
    if AddPlugin(AddPlugins(acc, owner, ps[..j]).value, owner, ps[j]).Err? {
      AddPluginsErrSticks(acc, owner, ps, j + 1);
    }
  }

  /** The manifest walk one package further: the package extends it, or its failure is the walk's outcome. */
  lemma AddPackagesNext(acc: Json, pkgs: seq<Json>, i: nat, fixed: bool)
    requires acc.Obj? && i < |pkgs| && AddPackages(acc, pkgs[..i], fixed).Ok?
    ensures var next := AddPackage(AddPackages(acc, pkgs[..i], fixed).value, pkgs[i], fixed);
            (next.Err? ==> AddPackages(acc, pkgs, fixed) == next) &&
            (next.Ok? ==> AddPackages(acc, pkgs[..i + 1], fixed) == next)
  {
    assert pkgs[..i + 1][..i] == pkgs[..i];
    if AddPackage(AddPackages(acc, pkgs[..i], fixed).value, pkgs[i], fixed).Err? {
      AddPackagesErrSticks(acc, pkgs, i + 1, fixed);
    }
  }

  lemma {:induction false} AddPackagesErrSticks(acc: Json, pkgs: seq<Json>, i: nat, fixed: bool)
    requires acc.Obj? && i <= |pkgs| && AddPackages(acc, pkgs[..i], fixed).Err?
    ensures AddPackages(acc, pkgs, fixed) == AddPackages(acc, pkgs[..i], fixed)
    decreases |pkgs|
  {
    if i < |pkgs| {
      var q := pkgs[..|pkgs| - 1];
      assert q[..i] == pkgs[..i];
      AddPackagesErrSticks(acc, q, i, fixed);
    } else {
      assert pkgs[..i] == pkgs;
    }
  }

  /**
   * `getInstallListObj` (PackageManager.js:451-482): the two nested loops
   * calling `set`, proved to build the install list.
   */
  method GetInstallListObj(pkgs: Json, fixed: bool) returns (r: Result<Json>)
    ensures r == InstallListOf(pkgs, fixed)
  {
    var needToAnalyse := Analysed(pkgs);
    var installList := EmptyObj;
    var i := 0;
    while i < |needToAnalyse|
      invariant 0 <= i <= |needToAnalyse|
      invariant installList.Obj?
      invariant AddPackages(EmptyObj, needToAnalyse[..i], fixed) == Ok(installList)
    {
      var pkg := needToAnalyse[i];
      AddPackagesNext(EmptyObj, needToAnalyse, i, fixed);
      var t := Catalog.GetPackageType(pkg);
      if t == 0 || t == 1 {
        var n := NameOf(pkg);
        var start := SetPath(installList, PathOf(RootPath(t, n, fixed)), Get(pkg, "version"));
        var added := AddPluginEntries(start, n, PluginsOf(pkg));
        if added.Err? {
          return added;
        }
        installList := added.value;
      }
      i := i + 1;
    }
    assert needToAnalyse[..i] == needToAnalyse;
    r := Ok(installList);
  }

  /** The inner loops of PackageManager.js:462-466 and 471-475 over one manifest's plugins. */
  method AddPluginEntries(start: Json, n: string, plugins: seq<Json>) returns (r: Result<Json>)
    requires start.Obj?
    ensures r == AddPlugins(start, n, plugins)
  {
    var installList := start;
    var j := 0;
    while j < |plugins|
      invariant 0 <= j <= |plugins|
      invariant installList.Obj?
      invariant AddPlugins(start, n, plugins[..j]) == Ok(installList)
    {
      AddPluginsNext(start, n, plugins, j);
      var name := Member(plugins[j], "name");
      var version := Member(plugins[j], "version");
      if name.Err? || version.Err? {
        return AddPlugins(start, n, plugins);
      }
      installList := SetPath(installList, PathOf("Project." + n + "." + ToKey(name.value)), version.value);
      j := j + 1;
    }
    assert plugins[..j] == plugins;
    r := Ok(installList);
  }

  // ---------------------------------------------------------------------
  // What the install list holds

  /** The key a plugin entry is filed under: `plugins[i].name` in a path template. */
  function PluginKey(p: Json): string
    requires !p.Undefined? && !p.Null?
  {
    ToKey(Get(p, "name"))
  }

  /** An entry of a plugin list can be read. */
  predicate Readable(ps: seq<Json>)
  {
    forall j :: 0 <= j < |ps| ==> !ps[j].Undefined? && !ps[j].Null?
  }

  /** The version the last entry named `q` declares, if any entry is named `q`. */
  function LastVersion(ps: seq<Json>, q: string): Option<Json>
    requires Readable(ps)
    decreases |ps|
  {
    if ps == [] then None
    else if PluginKey(ps[|ps| - 1]) == q then Some(Get(ps[|ps| - 1], "version"))
    else LastVersion(ps[..|ps| - 1], q)
  }

  /** A plugin walk fails exactly when an entry is `null` or `undefined`. */
  lemma {:induction false} AddPluginsOk(acc: Json, owner: string, ps: seq<Json>)
    requires acc.Obj?
    ensures AddPlugins(acc, owner, ps).Ok? <==> Readable(ps)
    decreases |ps|
  {
    if ps != [] {
      var q := ps[..|ps| - 1];
      AddPluginsOk(acc, owner, q);
      ReadableSnoc(ps);
      if AddPlugins(acc, owner, q).Ok? {
        AddPluginOk(AddPlugins(acc, owner, q).value, owner, ps[|ps| - 1]);
      }
    }
  }

  lemma AddPluginOk(acc: Json, owner: string, p: Json)
    requires acc.Obj?
    ensures AddPlugin(acc, owner, p).Ok? <==> !p.Undefined? && !p.Null?
  {
  }

  lemma ReadableSnoc(ps: seq<Json>)
    requires ps != []
    ensures Readable(ps) <==> Readable(ps[..|ps| - 1]) && !ps[|ps| - 1].Undefined? && !ps[|ps| - 1].Null?
  {
    var q := ps[..|ps| - 1];
    if Readable(q) && !ps[|ps| - 1].Undefined? && !ps[|ps| - 1].Null? {
      forall j | 0 <= j < |ps| ensures !ps[j].Undefined? && !ps[j].Null? {
        if j < |q| { assert ps[j] == q[j]; }
      }
    }
  }

  /** One plugin entry with a dot-free name sets `Project.<owner>.<name>`. */
  lemma AddPluginsStep(acc: Json, owner: string, ps: seq<Json>)
    requires acc.Obj? && '.' !in owner && |ps| > 0 && Readable(ps)
    requires '.' !in PluginKey(ps[|ps| - 1])
    ensures AddPlugins(acc, owner, ps[..|ps| - 1]).Ok?
    ensures AddPlugins(acc, owner, ps) ==
            Ok(SetPath(AddPlugins(acc, owner, ps[..|ps| - 1]).value,
                       ["Project", owner, PluginKey(ps[|ps| - 1])], Get(ps[|ps| - 1], "version")))
  {
    var init := ps[..|ps| - 1];
    var p := ps[|ps| - 1];
    AddPluginsOk(acc, owner, init);
    var key := PluginKey(p);
    PathOfProject(owner, key);
    PathOfKey(key);
    assert ["Project", owner] + [key] == ["Project", owner, key];
    assert !p.Undefined? && !p.Null?;
    assert Member(p, "name") == Ok(Get(p, "name"));
  }

  /**
   * Under `Project.<owner>`, each dot-free plugin name ends up holding the
   * version of the last entry with that name; every name no entry uses keeps
   * what it held.
   */
  lemma {:induction false} AddPluginsLands(acc: Json, owner: string, ps: seq<Json>, q: string)
    requires acc.Obj? && '.' !in owner && Readable(ps)
    requires forall j :: 0 <= j < |ps| ==> '.' !in PluginKey(ps[j])
    ensures AddPlugins(acc, owner, ps).Ok?
    ensures At(AddPlugins(acc, owner, ps).value, ["Project", owner, q]) ==
            if LastVersion(ps, q).Some? then LastVersion(ps, q) else At(acc, ["Project", owner, q])
    decreases |ps|
  {
    AddPluginsOk(acc, owner, ps);
    if ps != [] {
      var init := ps[..|ps| - 1];
      var p := ps[|ps| - 1];
      AddPluginsLands(acc, owner, init, q);
      var prev := AddPlugins(acc, owner, init).value;
      var key := PluginKey(p);
      var path := ["Project", owner, key];
      AddPluginsStep(acc, owner, ps);
      if key != q {
        assert LastVersion(ps, q) == LastVersion(init, q);
        SetPathElsewhere(prev, path, Get(p, "version"), ["Project", owner, q]);
      } else {
        assert LastVersion(ps, q) == Some(Get(p, "version"));
      }
    }
  }

  /** Setting at `Project.<owner>.<anything>` leaves every path that parts from `[Project, owner]`. */
  lemma {:induction false} AddPluginsElsewhere(acc: Json, owner: string, ps: seq<Json>, p: seq<string>)
    requires acc.Obj? && '.' !in owner && AddPlugins(acc, owner, ps).Ok?
    requires Diverge(p, ["Project", owner])
    ensures At(AddPlugins(acc, owner, ps).value, p) == At(acc, p)
    decreases |ps|
  {
    if ps != [] {
      var init := ps[..|ps| - 1];
      AddPluginsElsewhere(acc, owner, init, p);
      var prev := AddPlugins(acc, owner, init).value;
      var key := PluginKey(ps[|ps| - 1]);
      PathOfProject(owner, key);
      DivergeExtend(p, ["Project", owner], PathOf(key));
      SetPathElsewhere(prev, PathOf("Project." + owner + "." + key), Get(ps[|ps| - 1], "version"), p);
    }
  }

  /**
   * A project manifest (PackageManager.js:459-468) files its own version at
   * `Project.<n>.<n>` and each plugin's at `Project.<n>.<plugin>`; a plugin
   * of the same name as the project overrides the project's own version.
   */
  lemma ProjectManifestFiled(acc: Json, pkg: Json, fixed: bool, q: string)
    requires acc.Obj? && Catalog.GetPackageType(pkg) == 0
    requires '.' !in NameOf(pkg) && Readable(PluginsOf(pkg))
    requires forall j :: 0 <= j < |PluginsOf(pkg)| ==> '.' !in PluginKey(PluginsOf(pkg)[j])
    ensures var ps := PluginsOf(pkg);
            var n := NameOf(pkg);
            var r := AddPackage(acc, pkg, fixed);
            r.Ok? &&
            At(r.value, ["Project", n, q]) ==
              if LastVersion(ps, q).Some? then LastVersion(ps, q)
              else if q == n then Some(Get(pkg, "version"))
              else At(acc, ["Project", n, q])
  {
    var n := NameOf(pkg);
    RootPathKeys(0, n, fixed);
    var start := SetPath(acc, ["Project", n, n], Get(pkg, "version"));
    AddPluginsLands(start, n, PluginsOf(pkg), q);
    if q != n {
      SetPathElsewhere(acc, ["Project", n, n], Get(pkg, "version"), ["Project", n, q]);
    }
  }

  /**
   * A plugin manifest (PackageManager.js:469-477) files its own version
   * under `Plugin`: as a bare value at `Plugin.<n>` as written, as the
   * group member `Plugin.<n>.<n>` when fixed; its plugins go under
   * `Project.<n>` as for a project.
   */
  lemma PluginManifestFiled(acc: Json, pkg: Json, fixed: bool)
    requires acc.Obj? && Catalog.GetPackageType(pkg) == 1
    requires '.' !in NameOf(pkg) && AddPackage(acc, pkg, fixed).Ok?
    ensures var n := NameOf(pkg);
            var r := AddPackage(acc, pkg, fixed).value;
            At(r, if fixed then ["Plugin", n, n] else ["Plugin", n]) == Some(Get(pkg, "version"))
  {
    var n := NameOf(pkg);
    var path := RootKeys(1, n, fixed);
    RootPathKeys(1, n, fixed);
    var start := SetPath(acc, path, Get(pkg, "version"));
    AddPluginsElsewhere(start, n, PluginsOf(pkg), path);
  }

  /**
   * A manifest touches nothing outside `Project.<n>` and (for a plugin)
   * `Plugin.<n>`; an ordinary npm module touches nothing at all.
   */
  lemma AddPackageElsewhere(acc: Json, pkg: Json, fixed: bool, p: seq<string>)
    requires acc.Obj? && AddPackage(acc, pkg, fixed).Ok?
    requires Catalog.GetPackageType(pkg) != 2 ==>
               '.' !in NameOf(pkg) && Diverge(p, ["Project", NameOf(pkg)]) && Diverge(p, ["Plugin", NameOf(pkg)])
    ensures At(AddPackage(acc, pkg, fixed).value, p) == At(acc, p)
  {
    var t := Catalog.GetPackageType(pkg);
    if t != 2 {
      var n := NameOf(pkg);
      var path := RootKeys(t, n, fixed);
      RootPathKeys(t, n, fixed);
      if t == 0 {
        DivergeExtend(p, ["Project", n], [n]);
        assert ["Project", n] + [n] == path;
      } else if fixed {
        DivergeExtend(p, ["Plugin", n], [n]);
        assert ["Plugin", n] + [n] == path;
      }
      SetPathElsewhere(acc, path, Get(pkg, "version"), p);
      AddPluginsElsewhere(SetPath(acc, path, Get(pkg, "version")), n, PluginsOf(pkg), p);
    }
  }

  // ---------------------------------------------------------------------
  // The download requests derived from the install list

  /** `downloadAPackage(subDir, name, version)`: one package to fetch and where to put it. */
  datatype Request = Request(subDir: string, name: string, version: Json)

  /** `${tax}${sep}${owner}${sep}${name}@${version}` with the POSIX separator. */
  function SubDir(tax: string, owner: string, name: string, version: Json): string
  {
    tax + "/" + owner + "/" + name + "@" + ToKey(version)
  }

  /** The inner `for (let item in group)` loop over the keys `items`. */
  function ItemRequests(tax: string, owner: string, group: Json, items: seq<string>): (r: seq<Request>)
    requires !group.Undefined? && !group.Null?
    ensures |r| == |items|
    ensures forall i :: 0 <= i < |items| ==>
              r[i] == Request(SubDir(tax, owner, items[i], Get(group, items[i])), items[i], Get(group, items[i]))
    decreases |items|
  {
    if items == [] then []
    else
      var prev := ItemRequests(tax, owner, group, items[..|items| - 1]);
      var name := items[|items| - 1];
      var version := Get(group, name);
      prev + [Request(SubDir(tax, owner, name, version), name, version)]
  }

  /** The requests of one group: `for...in` over `null` or `undefined` visits nothing. */
  function GroupRequests(tax: string, owner: string, group: Json): seq<Request>
  {
    if group.Undefined? || group.Null? then [] else ItemRequests(tax, owner, group, ForInKeys(group))
  }

  /** The outer `for (const owner in list[tax])` loop over the keys `owners`. */
  function OwnerRequests(tax: string, groups: Json, owners: seq<string>): seq<Request>
    requires !groups.Undefined? && !groups.Null?
    decreases |owners|
  {
    if owners == [] then []
    else
      OwnerRequests(tax, groups, owners[..|owners| - 1]) +
      GroupRequests(tax, owners[|owners| - 1], Get(groups, owners[|owners| - 1]))
  }

  /** The inner loop one key further. */
  lemma ItemRequestsNext(tax: string, owner: string, group: Json, items: seq<string>, j: nat)
    requires !group.Undefined? && !group.Null? && j < |items|
    ensures ItemRequests(tax, owner, group, items[..j + 1]) ==
            ItemRequests(tax, owner, group, items[..j]) + [Request(SubDir(tax, owner, items[j], Get(group, items[j])), items[j], Get(group, items[j]))]
  {
    assert items[..j + 1][..j] == items[..j];
  }

  /** The outer loop one owner further. */
  lemma OwnerRequestsNext(tax: string, groups: Json, owners: seq<string>, i: nat)
    requires !groups.Undefined? && !groups.Null? && i < |owners|
    ensures OwnerRequests(tax, groups, owners[..i + 1]) ==
            OwnerRequests(tax, groups, owners[..i]) + GroupRequests(tax, owners[i], Get(groups, owners[i]))
  {
    assert owners[..i + 1][..i] == owners[..i];
  }

  /**
   * PackageManager.js:496-506 (`tax` = `Project`) and 571-579 (`tax` =
   * `Plugin`): nothing when `list[tax]` is falsy.
   */
  function Requests(list: Json, tax: string): seq<Request>
    requires list.Obj?
  {
    var groups := Get(list, tax);
    if Truthy(groups) then OwnerRequests(tax, groups, ForInKeys(groups)) else []
  }

  /** The `Plugin` member of a single plugin manifest's install list, as written and when fixed. */
  lemma PluginListed(pkg: Json, fixed: bool)
    requires Catalog.GetPackageType(pkg) == 1 && '.' !in NameOf(pkg)
    requires AddPackage(EmptyObj, pkg, fixed).Ok?
    ensures var n := NameOf(pkg);
            var v := Get(pkg, "version");
            var list := AddPackage(EmptyObj, pkg, fixed).value;
            "Plugin" in list.fields &&
            list.fields["Plugin"] == if fixed then Single(n, Single(n, v)) else Single(n, v)
  {
    var n := NameOf(pkg);
    var v := Get(pkg, "version");
    RootPathKeys(1, n, fixed);
    var path := RootKeys(1, n, fixed);
    var start := SetPath(EmptyObj, path, v);
    SetPathEmpty(n, v);
    if fixed {
      SetPathEmpty(n, Single(n, v));
      assert path[1..] == [n, n];
      assert [n, n][1..] == [n];
      assert SetPath(EmptyObj, [n, n], v) == Single(n, Single(n, v));
    }
    AddPluginsElsewhere(start, n, PluginsOf(pkg), ["Plugin"]);
  }

  /** A list whose `tax` member names one owner asks for that owner's group and nothing else. */
  lemma RequestsOfSingle(list: Json, tax: string, owner: string, group: Json)
    requires list.Obj? && tax in list.fields && list.fields[tax] == Single(owner, group)
    ensures Requests(list, tax) == GroupRequests(tax, owner, group)
  {
    var groups := Single(owner, group);
    assert Get(list, tax) == groups;
    assert ForInKeys(groups) == [owner];
    assert OwnerRequests(tax, groups, [owner]) ==
           OwnerRequests(tax, groups, []) + GroupRequests(tax, owner, Get(groups, owner));
  }

  /** `for...in` over a string visits its indices, and reading one gives that character. */
  lemma StringRequests(tax: string, owner: string, s: string)
    ensures var rs := GroupRequests(tax, owner, Str(s));
            |rs| == |s| &&
            forall i :: 0 <= i < |s| ==> rs[i].name == NatToString(i) && rs[i].version == Str([s[i]])
  {
    forall i | 0 <= i < |s| ensures Get(Str(s), NatToString(i)) == Str([s[i]]) {
      ParseIndexOfNatToString(i);
    }
  }

  /**
   * As written, a plugin download (PackageManager.js:570-580) walks the
   * characters of the version string filed at line 470: one request per
   * character, named by its index and asking for the character as version.
   */
  lemma PluginRequestsAsWritten(pkg: Json)
    requires Catalog.GetPackageType(pkg) == 1 && '.' !in NameOf(pkg)
    requires Get(pkg, "version").Str? && AddPackage(EmptyObj, pkg, false).Ok?
    ensures var s := Get(pkg, "version").s;
            var rs := Requests(AddPackage(EmptyObj, pkg, false).value, "Plugin");
            |rs| == |s| &&
            forall i :: 0 <= i < |s| ==> rs[i].name == NatToString(i) && rs[i].version == Str([s[i]])
  {
    var n := NameOf(pkg);
    var v := Get(pkg, "version");
    PluginListed(pkg, false);
    RequestsOfSingle(AddPackage(EmptyObj, pkg, false).value, "Plugin", n, v);
    StringRequests("Plugin", n, v.s);
  }

  /**
   * With line 470 filing `Plugin.<n>.<n>`, a plugin download asks for
   * exactly the plugin itself, at the version it declares.
   */
  lemma PluginRequestsFixed(pkg: Json)
    requires Catalog.GetPackageType(pkg) == 1 && '.' !in NameOf(pkg)
    requires AddPackage(EmptyObj, pkg, true).Ok?
    ensures var n := NameOf(pkg);
            var v := Get(pkg, "version");
            Requests(AddPackage(EmptyObj, pkg, true).value, "Plugin") ==
              [Request(SubDir("Plugin", n, n, v), n, v)]
  {
    var n := NameOf(pkg);
    var v := Get(pkg, "version");
    PluginListed(pkg, true);
    RequestsOfSingle(AddPackage(EmptyObj, pkg, true).value, "Plugin", n, Single(n, v));
    assert ForInKeys(Single(n, v)) == [n];
    assert ItemRequests("Plugin", n, Single(n, v), [n]) ==
           ItemRequests("Plugin", n, Single(n, v), []) + [Request(SubDir("Plugin", n, n, v), n, v)];
  }
}
