/**
 * `getParent(path)` (PackageManager.js:632-668): which installed group a
 * file or directory belongs to.  Every record under `Project` is tried
 * first, every record under `Plugin` only when no project group matched; a
 * record matches when its `path` is the given path or that path's
 * directory, and among matching groups the last one in key order wins.
 */
module Parent {
  import opened JsValue

  // ---------------------------------------------------------------------
  // POSIX paths

  /** `path-is-absolute` on POSIX: the path starts with `/`. */
  predicate IsAbsolute(path: string)
    ensures IsAbsolute(path) <==> "/" <= path
  {
    |path| > 0 && path[0] == '/'
  }

  /** The largest index `i` with `1 <= i < hi` and `path[i] != '/'`, or -1. */
  function LastNonSlash(path: string, hi: int): (r: int)
    requires hi <= |path|
    ensures r == -1 || (1 <= r < hi && path[r] != '/')
    ensures forall i :: 1 <= i < hi && r < i ==> path[i] == '/'
    decreases hi
  {
    if hi <= 1 then -1 else if path[hi - 1] != '/' then hi - 1 else LastNonSlash(path, hi - 1)
  }

  /** The largest index `i` with `1 <= i < hi` and `path[i] == '/'`, or -1. */
  function LastSlash(path: string, hi: int): (r: int)
    requires hi <= |path|
    ensures r == -1 || (1 <= r < hi && path[r] == '/')
    ensures forall i :: 1 <= i < hi && r < i ==> path[i] != '/'
    decreases hi
  {
    if hi <= 1 then -1 else if path[hi - 1] == '/' then hi - 1 else LastSlash(path, hi - 1)
  }

  /**
   * `path.posix.dirname`: everything before the last separator that is
   * followed by a name (trailing separators ignored); `/` or `.` when there
   * is none, and `//` for a path that starts with two separators and has no
   * other.
   */
  function Dirname(path: string): string
  {
    if |path| == 0 then "."
    else
      var hasRoot := path[0] == '/';
      var j := LastNonSlash(path, |path|);
      var end := if j == -1 then -1 else LastSlash(path, j);
      if end == -1 then (if hasRoot then "/" else ".")
      else if hasRoot && end == 1 then "//"
      else path[..end]
  }

  /** A directory is `.` or a prefix of the path, never empty, and absolute exactly when the path is. */
  lemma DirnameShape(path: string)
    ensures var r := Dirname(path);
            (r == "." || r <= path) && |r| > 0 && (r[0] == '/' <==> IsAbsolute(path))
  {
  }

  /** The directory of `dir/name` is `dir`, for a name without separators and a directory not ending in one. */
  lemma DirnameOfChild(dir: string, name: string)
    requires |dir| > 0 && dir[|dir| - 1] != '/'
    requires |name| > 0 && '/' !in name
    ensures Dirname(dir + "/" + name) == dir
  {
    var path := dir + "/" + name;
    assert path[|path| - 1] == name[|name| - 1];
    assert path[|path| - 1] in name;
    var j := LastNonSlash(path, |path|);
    assert j == |path| - 1;
    var end := LastSlash(path, j);
    assert path[|dir|] == '/';
    forall i | |dir| < i < j ensures path[i] != '/' {
      assert path[i] == name[i - |dir| - 1];
      assert path[i] in name;
    }
    assert end == |dir|;
    assert path[..end] == dir;
    assert path[0] == dir[0];
  }

  /** `path.dirname(v)`, which throws on anything but a string. */
  function DirnameOf(v: Json): (r: Result<string>)
    ensures r.Ok? <==> v.Str?
    ensures v.Str? ==> r == Ok(Dirname(v.s))
  {
    if v.Str? then Ok(Dirname(v.s))
    else Err("TypeError [ERR_INVALID_ARG_TYPE]: The \"path\" argument must be of type string")
  }

  // ---------------------------------------------------------------------
  // The search

  /**
   * The inner `forEach` over the first `|items|` records of `group`:
   * `found` becomes `owner` at each record whose `path` is `path` or whose
   * directory is.
   */
  function ItemMatches(owner: string, group: Json, items: seq<string>, path: string, found: Json): (r: Result<Json>)
    ensures r.Ok? ==> r.value == found || r.value == Str(owner)
    requires !group.Undefined? && !group.Null?
    decreases |items|
  {
    if items == [] then Ok(found)
    else
      var before :- ItemMatches(owner, group, items[..|items| - 1], path, found);
      RecordStep(owner, Get(group, items[|items| - 1]), path, before)
  }

  /** The body of the inner `forEach` for the record `childObj`. */
  function RecordStep(owner: string, childObj: Json, path: string, before: Json): (r: Result<Json>)
    ensures r.Ok? ==> r.value == before || r.value == Str(owner)
  {
    var childPath :- Member(childObj, "path");
    if StrictEq(childPath, Str(path)) then Ok(Str(owner))
    else
      var dir :- DirnameOf(childPath);
      Ok(if dir == path then Str(owner) else before)
  }

  /** The outer `forEach` over the first `|owners|` groups of `groups`. */
  function OwnerMatches(groups: Json, owners: seq<string>, path: string, found: Json): (r: Result<Json>)
    ensures r.Ok? ==> r.value == found || (r.value.Str? && r.value.s in owners)
    requires !groups.Undefined? && !groups.Null?
    decreases |owners|
  {
    if owners == [] then Ok(found)
    else
      var before :- OwnerMatches(groups, owners[..|owners| - 1], path, found);
      var owner := owners[|owners| - 1];
      GroupStep(owner, Get(groups, owner), path, before)
  }

  /** The body of the outer `forEach` for the group `group` of `owner`. */
  function GroupStep(owner: string, group: Json, path: string, before: Json): (r: Result<Json>)
    ensures r.Ok? ==> r.value == before || r.value == Str(owner)
  {
    var items :- ObjectKeys(group);
    ItemMatches(owner, group, items, path, before)
  }

  /** The group names under taxonomy `tax`, `[]` when it is missing. */
  function GroupNames(tree: Json, tax: string): seq<string>
  {
    if tree.Undefined? || tree.Null? then []
    else match ObjectKeys(OrElse(Get(tree, tax), EmptyObj))
      case Ok(ks) => ks
      case Err(_) => []
  }

  /**
   * PackageManager.js:638-665 over a tree already read: `null` for an empty
   * tree; otherwise `null` or the name of a project or plugin group.
   */
  function Search(tree: Json, path: string): (r: Result<Json>)
    ensures IsEmptyObj(tree) ==> r == Ok(Null)
    ensures r.Ok? ==>
              r.value.Null? ||
              (r.value.Str? && (r.value.s in GroupNames(tree, "Project") || r.value.s in GroupNames(tree, "Plugin")))
  {
    if IsEmptyObj(tree) then Ok(Null)
    else
      var projectsObj := OrElse(Get(tree, "Project"), EmptyObj);
      var pluginsObj := OrElse(Get(tree, "Plugin"), EmptyObj);
      var projects :- ObjectKeys(projectsObj);
      var plugins :- ObjectKeys(pluginsObj);
      var parent :- OwnerMatches(projectsObj, projects, path, Null);
      if Truthy(parent) then Ok(parent)
      else OwnerMatches(pluginsObj, plugins, path, parent)
  }

  /** The inner `forEach` of PackageManager.js:646-651 (and 657-662), reassigning `parent` at every match. */
  method SearchItems(owner: string, group: Json, items: seq<string>, path: string, before: Json) returns (r: Result<Json>)
    requires !group.Undefined? && !group.Null?
    ensures r == ItemMatches(owner, group, items, path, before)
  {
    var parent := before;
    var j := 0;
    while j < |items|
      invariant 0 <= j <= |items|
      invariant ItemMatches(owner, group, items[..j], path, before) == Ok(parent)
    {
      ItemMatchesSnoc(owner, group, items, j, path, before);
      var next := RecordStep(owner, Get(group, items[j]), path, parent);
      if next.Err? {
        return next;
      }
      parent := next.value;
      j := j + 1;
    }
    assert items[..j] == items;
    r := Ok(parent);
  }

  /** The outer `forEach` one group further: the group's step extends the search, or its failure is the search's outcome. */
  lemma OwnerMatchesSnoc(groups: Json, owners: seq<string>, i: nat, path: string, found: Json)
    requires !groups.Undefined? && !groups.Null? && i < |owners|
    requires OwnerMatches(groups, owners[..i], path, found).Ok?
    ensures var next := GroupStep(owners[i], Get(groups, owners[i]), path, OwnerMatches(groups, owners[..i], path, found).value);
            (next.Err? ==> OwnerMatches(groups, owners, path, found) == next) &&
            (next.Ok? ==> OwnerMatches(groups, owners[..i + 1], path, found) == next)
  {
    assert owners[..i + 1][..i] == owners[..i];
    if GroupStep(owners[i], Get(groups, owners[i]), path, OwnerMatches(groups, owners[..i], path, found).value).Err? {
      OwnerMatchesErrSticks(groups, owners, i + 1, path, found);
    }
  }

  /** The inner `forEach` one record further: the record's step extends the search, or its failure is the search's outcome. */
  lemma ItemMatchesSnoc(owner: string, group: Json, items: seq<string>, j: nat, path: string, before: Json)
    requires !group.Undefined? && !group.Null? && j < |items|
    requires ItemMatches(owner, group, items[..j], path, before).Ok?
    ensures var next := RecordStep(owner, Get(group, items[j]), path, ItemMatches(owner, group, items[..j], path, before).value);
            (next.Err? ==> ItemMatches(owner, group, items, path, before) == next) &&
            (next.Ok? ==> ItemMatches(owner, group, items[..j + 1], path, before) == next)
  {
    assert items[..j + 1][..j] == items[..j];
    if RecordStep(owner, Get(group, items[j]), path, ItemMatches(owner, group, items[..j], path, before).value).Err? {
      ItemMatchesErrSticks(owner, group, items, j + 1, path, before);
    }
  }

  /** The body of the outer `forEach` of PackageManager.js:644-652 for one group. */
  method SearchGroup(owner: string, group: Json, path: string, before: Json) returns (r: Result<Json>)
    ensures r == GroupStep(owner, group, path, before)
  {
    var keys := ObjectKeys(group);
    if keys.Err? {
      return Err(keys.error);
    }
    r := SearchItems(owner, group, keys.value, path, before);
  }

  /** The outer `forEach` of PackageManager.js:644-652 (and 655-663), carrying `parent` from group to group. */
  method SearchGroups(groups: Json, owners: seq<string>, path: string, found: Json) returns (r: Result<Json>)
    requires !groups.Undefined? && !groups.Null?
    ensures r == OwnerMatches(groups, owners, path, found)
  {
    var parent := found;
    var i := 0;
    while i < |owners|
      invariant 0 <= i <= |owners|
      invariant OwnerMatches(groups, owners[..i], path, found) == Ok(parent)
    {
      OwnerMatchesSnoc(groups, owners, i, path, found);
      var next := SearchGroup(owners[i], Get(groups, owners[i]), path, parent);
      if next.Err? {
        return next;
      }
      parent := next.value;
      i := i + 1;
    }
    assert owners[..i] == owners;
    r := Ok(parent);
  }

  lemma {:induction false} ItemMatchesErrSticks(owner: string, group: Json, items: seq<string>, j: nat, path: string, found: Json)
    requires !group.Undefined? && !group.Null?
    requires j <= |items| && ItemMatches(owner, group, items[..j], path, found).Err?
    ensures ItemMatches(owner, group, items, path, found) == ItemMatches(owner, group, items[..j], path, found)
    decreases |items|
  {
    if j < |items| {
      var init := items[..|items| - 1];
      assert init[..j] == items[..j];
      ItemMatchesErrSticks(owner, group, init, j, path, found);
    } else {
      assert items[..j] == items;
    }
  }

  lemma {:induction false} OwnerMatchesErrSticks(groups: Json, owners: seq<string>, i: nat, path: string, found: Json)
    requires !groups.Undefined? && !groups.Null?
    requires i <= |owners| && OwnerMatches(groups, owners[..i], path, found).Err?
    ensures OwnerMatches(groups, owners, path, found) == OwnerMatches(groups, owners[..i], path, found)
    decreases |owners|
  {
    if i < |owners| {
      var init := owners[..|owners| - 1];
      assert init[..i] == owners[..i];
      OwnerMatchesErrSticks(groups, init, i, path, found);
    } else {
      assert owners[..i] == owners;
    }
  }

  // ---------------------------------------------------------------------
  // What the search finds

  /** A record whose `path` can be compared: an object-like value with a string path. */
  predicate RecordReadable(rec: Json)
  {
    !rec.Undefined? && !rec.Null? && Get(rec, "path").Str?
  }

  /** A record lies at `path`: its own path is `path`, or its directory is. */
  predicate Matches(rec: Json, path: string)
    requires RecordReadable(rec)
  {
    Get(rec, "path").s == path || Dirname(Get(rec, "path").s) == path
  }

  predicate ItemsReadable(group: Json, items: seq<string>)
    requires !group.Undefined? && !group.Null?
  {
    forall i :: 0 <= i < |items| ==> RecordReadable(Get(group, items[i]))
  }

  /** A group whose records can all be compared. */
  predicate GroupReadable(group: Json)
  {
    !group.Undefined? && !group.Null? && ItemsReadable(group, ObjectKeys(group).value)
  }

  /** Some record among `items` lies at `path`. */
  predicate SomeMatch(group: Json, items: seq<string>, path: string)
    requires !group.Undefined? && !group.Null? && ItemsReadable(group, items)
  {
    exists i :: 0 <= i < |items| && Matches(Get(group, items[i]), path)
  }

  predicate OwnersReadable(groups: Json, owners: seq<string>)
    requires !groups.Undefined? && !groups.Null?
  {
    forall i :: 0 <= i < |owners| ==> GroupReadable(Get(groups, owners[i]))
  }

  /** The last of `owners` whose group holds a record lying at `path`. */
  function LastMatch(groups: Json, owners: seq<string>, path: string): Option<string>
    requires !groups.Undefined? && !groups.Null? && OwnersReadable(groups, owners)
    decreases |owners|
  {
    if owners == [] then None
    else
      var group := Get(groups, owners[|owners| - 1]);
      if SomeMatch(group, ObjectKeys(group).value, path) then Some(owners[|owners| - 1])
      else LastMatch(groups, owners[..|owners| - 1], path)
  }

  /** One record: an error exactly when it cannot be compared, the owner when it lies at `path`. */
  lemma ItemStep(owner: string, group: Json, items: seq<string>, path: string, found: Json)
    requires !group.Undefined? && !group.Null? && |items| > 0
    requires ItemMatches(owner, group, items[..|items| - 1], path, found).Ok?
    ensures var rec := Get(group, items[|items| - 1]);
            var before := ItemMatches(owner, group, items[..|items| - 1], path, found).value;
            (ItemMatches(owner, group, items, path, found).Ok? <==> RecordReadable(rec)) &&
            (RecordReadable(rec) ==>
               ItemMatches(owner, group, items, path, found) ==
                 Ok(if Matches(rec, path) then Str(owner) else before))
  {
  }

  /** Within a group: the owner when some record matches, the earlier finding otherwise; an error exactly on an unreadable record. */
  lemma {:induction false} ItemMatchesFinds(owner: string, group: Json, items: seq<string>, path: string, found: Json)
    requires !group.Undefined? && !group.Null?
    ensures ItemMatches(owner, group, items, path, found).Ok? <==> ItemsReadable(group, items)
    ensures ItemsReadable(group, items) ==>
              ItemMatches(owner, group, items, path, found) ==
                Ok(if SomeMatch(group, items, path) then Str(owner) else found)
    decreases |items|
  {
    if items != [] {
      var init := items[..|items| - 1];
      var k := items[|items| - 1];
      ItemMatchesFinds(owner, group, init, path, found);
      ReadableStep(group, items);
      if ItemMatches(owner, group, init, path, found).Ok? {
        ItemStep(owner, group, items, path, found);
      }
      if ItemsReadable(group, items) {
        SomeMatchStep(group, items, path);
      }
    }
  }

  lemma ReadableStep(group: Json, items: seq<string>)
    requires !group.Undefined? && !group.Null? && |items| > 0
    ensures ItemsReadable(group, items) <==>
            ItemsReadable(group, items[..|items| - 1]) && RecordReadable(Get(group, items[|items| - 1]))
  {
    var init := items[..|items| - 1];
    assert forall i :: 0 <= i < |init| ==> init[i] == items[i];
  }

  lemma SomeMatchStep(group: Json, items: seq<string>, path: string)
    requires !group.Undefined? && !group.Null? && |items| > 0 && ItemsReadable(group, items)
    ensures ItemsReadable(group, items[..|items| - 1])
    ensures SomeMatch(group, items, path) <==>
            SomeMatch(group, items[..|items| - 1], path) || Matches(Get(group, items[|items| - 1]), path)
  {
    var init := items[..|items| - 1];
    var last := |items| - 1;
    forall i | 0 <= i < |init| ensures Get(group, init[i]) == Get(group, items[i]) {
      assert init[i] == items[i];
    }
    if SomeMatch(group, items, path) && !Matches(Get(group, items[last]), path) {
      var i :| 0 <= i < |items| && Matches(Get(group, items[i]), path);
      assert i < |init| && Matches(Get(group, init[i]), path);
    }
    if SomeMatch(group, init, path) {
      var i :| 0 <= i < |init| && Matches(Get(group, init[i]), path);
      assert Matches(Get(group, items[i]), path);
    }
  }

  /** One group: an error exactly when it is `null` or `undefined` or a record of it cannot be compared. */
  lemma OwnerStep(groups: Json, owners: seq<string>, path: string, found: Json)
    requires !groups.Undefined? && !groups.Null? && |owners| > 0
    requires OwnerMatches(groups, owners[..|owners| - 1], path, found).Ok?
    ensures var owner := owners[|owners| - 1];
            var group := Get(groups, owner);
            var before := OwnerMatches(groups, owners[..|owners| - 1], path, found).value;
            (group.Undefined? || group.Null? ==> OwnerMatches(groups, owners, path, found).Err?) &&
            (!group.Undefined? && !group.Null? ==>
               OwnerMatches(groups, owners, path, found) == ItemMatches(owner, group, ObjectKeys(group).value, path, before))
  {
  }

  lemma OwnersReadableStep(groups: Json, owners: seq<string>)
    requires !groups.Undefined? && !groups.Null? && |owners| > 0
    ensures OwnersReadable(groups, owners) <==>
            OwnersReadable(groups, owners[..|owners| - 1]) && GroupReadable(Get(groups, owners[|owners| - 1]))
  {
    var init := owners[..|owners| - 1];
    assert forall i :: 0 <= i < |init| ==> init[i] == owners[i];
  }

  /** Across groups: the last matching owner, or the earlier finding; an error exactly on an unreadable group. */
  lemma {:induction false} OwnerMatchesFinds(groups: Json, owners: seq<string>, path: string, found: Json)
    requires !groups.Undefined? && !groups.Null?
    ensures OwnerMatches(groups, owners, path, found).Ok? <==> OwnersReadable(groups, owners)
    ensures OwnersReadable(groups, owners) ==>
              OwnerMatches(groups, owners, path, found) ==
                Ok(if LastMatch(groups, owners, path).Some? then Str(LastMatch(groups, owners, path).value) else found)
    decreases |owners|
  {
    if owners != [] {
      var init := owners[..|owners| - 1];
      var owner := owners[|owners| - 1];
      var group := Get(groups, owner);
      OwnerMatchesFinds(groups, init, path, found);
      OwnersReadableStep(groups, owners);
      var before := OwnerMatches(groups, init, path, found);
      if before.Ok? {
        OwnerStep(groups, owners, path, found);
        if !group.Undefined? && !group.Null? {
          ItemMatchesFinds(owner, group, ObjectKeys(group).value, path, before.value);
        }
      }
    }
  }

  /** The project groups' finding, `null` when none matched. */
  function ProjectFinding(projectsObj: Json, path: string): Json
    requires !projectsObj.Undefined? && !projectsObj.Null?
    requires OwnersReadable(projectsObj, ObjectKeys(projectsObj).value)
  {
    var m := LastMatch(projectsObj, ObjectKeys(projectsObj).value, path);
    if m.Some? then Str(m.value) else Null
  }

  /**
   * With every record readable, `getParent` reports the last project group
   * holding a record at `path`; only when there is none (or its name is
   * empty, hence falsy) does it report the last such plugin group; `null`
   * when no group matches or the tree is empty.
   */
  lemma SearchFinds(tree: Json, path: string)
    requires tree.Obj? && !IsEmptyObj(tree)
    requires var projectsObj := OrElse(Get(tree, "Project"), EmptyObj);
             var pluginsObj := OrElse(Get(tree, "Plugin"), EmptyObj);
             OwnersReadable(projectsObj, ObjectKeys(projectsObj).value) &&
             OwnersReadable(pluginsObj, ObjectKeys(pluginsObj).value)
    ensures var projectsObj := OrElse(Get(tree, "Project"), EmptyObj);
            var pluginsObj := OrElse(Get(tree, "Plugin"), EmptyObj);
            var p := ProjectFinding(projectsObj, path);
            var m := LastMatch(pluginsObj, ObjectKeys(pluginsObj).value, path);
            Search(tree, path) == Ok(if Truthy(p) then p else if m.Some? then Str(m.value) else p)
  {
    var projectsObj := OrElse(Get(tree, "Project"), EmptyObj);
    var pluginsObj := OrElse(Get(tree, "Plugin"), EmptyObj);
    OwnerMatchesFinds(projectsObj, ObjectKeys(projectsObj).value, path, Null);
    var p := ProjectFinding(projectsObj, path);
    OwnerMatchesFinds(pluginsObj, ObjectKeys(pluginsObj).value, path, p);
  }

  /** A search fails exactly when some project or plugin record cannot be compared. */
  lemma SearchFails(tree: Json, path: string)
    requires tree.Obj? && !IsEmptyObj(tree)
    ensures var projectsObj := OrElse(Get(tree, "Project"), EmptyObj);
            var pluginsObj := OrElse(Get(tree, "Plugin"), EmptyObj);
            var projectsOk := OwnersReadable(projectsObj, ObjectKeys(projectsObj).value);
            Search(tree, path).Err? <==>
              !projectsOk ||
              (!Truthy(ProjectFinding(projectsObj, path)) && !OwnersReadable(pluginsObj, ObjectKeys(pluginsObj).value))
  {
    var projectsObj := OrElse(Get(tree, "Project"), EmptyObj);
    var pluginsObj := OrElse(Get(tree, "Plugin"), EmptyObj);
    OwnerMatchesFinds(projectsObj, ObjectKeys(projectsObj).value, path, Null);
    if OwnersReadable(projectsObj, ObjectKeys(projectsObj).value) {
      OwnerMatchesFinds(pluginsObj, ObjectKeys(pluginsObj).value, path, ProjectFinding(projectsObj, path));
    }
  }

  /**
   * A record's directory finds its group: a record filed at `dir/name`
   * (the manifest path a download stores, PackageManager.js:518 and 592) is found
   * both by its own path and by `dir`.
   */
  lemma ManifestDirMatches(rec: Json, dir: string, name: string)
    requires RecordReadable(rec) && Get(rec, "path").s == dir + "/" + name
    requires |dir| > 0 && dir[|dir| - 1] != '/' && |name| > 0 && '/' !in name
    ensures Matches(rec, dir + "/" + name) && Matches(rec, dir)
  {
    DirnameOfChild(dir, name);
  }

  /**
   * `getParent(path)` over the tree the store returned: no error slot, and
   * the parent is `null` or the name of an installed group; an empty tree
   * answers `null`.
   */
  function GetParentOf(tree: Json, path: string): (r: Result<Reply>)
    ensures IsEmptyObj(tree) ==> r == Ok(Reply(None, Null))
    ensures r.Ok? ==> r.value.err.None?
    ensures r.Ok? ==>
              r.value.value.Null? ||
              (r.value.value.Str? &&
               (r.value.value.s in GroupNames(tree, "Project") || r.value.value.s in GroupNames(tree, "Plugin")))
    ensures r.Err? <==> Search(tree, path).Err?
  {
    var parent :- Search(tree, path);
    Ok(Reply(None, parent))
  }
}
