/**
 * The persisted install-state store (StatusJSONManager.js): one JSON file,
 * `DOWNLOADED_PACKAGES_INFO.json` under the namespace's download root,
 * holding the tree `{Project: {parent: {child: record}}, Plugin: {...}}`.
 *
 * The file is modelled as a value (`FileState`) together with the copies of
 * corrupt files that a read moved aside.  The timestamp that names such a
 * copy is a parameter.  Each operation is specified by a function from the
 * disk before to the disk after and the value returned; the class methods
 * perform the same steps one by one and are proved equal to those functions.
 */
module StatusStore {
  import opened JsValue
  import opened DeepMerge

  /** The backing file: missing, present but not parseable, or holding a JSON tree. */
  datatype FileState = Absent | Unparseable(text: string) | Holds(tree: Json)

  /** The backing file and the corrupt copies moved aside, by path. */
  datatype Disk = Disk(file: FileState, asides: map<string, string>)

  /** What an operation leaves on disk and what it returns or throws. */
  datatype Step<+T> = Step(disk: Disk, out: Result<T>)

  /** A stored tree: a JSON object. */
  predicate IsTree(v: Json)
  {
    v.Obj? && Plain(v)
  }

  predicate DiskOk(d: Disk)
  {
    d.file.Holds? ==> IsTree(d.file.tree)
  }

  /** path.js:32-39 `getDownloadDir`: `<home>/.ANT_IDE_STUFF_<suffix>`. */
  function DownloadDir(home: string, suffix: string): string
  {
    home + "/.ANT_IDE_STUFF_" + suffix
  }

  /** path.js:45-49: `<home>/.ANT_IDE_STUFF_<suffix>/DOWNLOADED_PACKAGES_INFO.json`. */
  function InfoJsonPath(home: string, suffix: string): string
  {
    DownloadDir(home, suffix) + "/DOWNLOADED_PACKAGES_INFO.json"
  }

  /** Where a corrupt file is moved: `<path>.<milliseconds>`. */
  function AsidePath(path: string, now: nat): string
  {
    path + "." + NatToString(now)
  }

  /** Asides are only ever added, never changed or removed. */
  predicate AsidesKept(before: Disk, after: Disk)
  {
    forall p :: p in before.asides ==> p in after.asides && after.asides[p] == before.asides[p]
  }

  lemma SerializeTree(v: Json)
    requires v.Obj?
    ensures IsTree(Serialize(v))
  {
    SerializeIsPlain(v);
  }

  /**
   * `readStatusJSON` (StatusJSONManager.js:16-33), with the move of a
   * corrupt file done by a move that fails when its destination exists.
   */
  function Read(d: Disk, path: string, now: nat): (s: Step<Json>)
    requires DiskOk(d)
    ensures DiskOk(s.disk) && AsidesKept(d, s.disk)
    ensures s.out.Ok? ==> IsTree(s.out.value) && s.disk.file == Holds(s.out.value)
    ensures s.out.Err? <==> d.file.Unparseable? && AsidePath(path, now) in d.asides
    ensures s.out.Err? ==> s.disk == d
    ensures d.file.Holds? ==> s == Step(d, Ok(d.file.tree))
    ensures !d.file.Holds? && s.out.Ok? ==> s.out.value == EmptyObj
    ensures d.file.Absent? ==> s.disk.asides == d.asides
    ensures d.file.Unparseable? && s.out.Ok? ==>
      s.disk.asides == d.asides[AsidePath(path, now) := d.file.text]
  {
    match d.file
    case Absent => Step(Disk(Holds(EmptyObj), d.asides), Ok(EmptyObj))
    case Unparseable(text) =>
      var dest := AsidePath(path, now);
      if dest in d.asides then Step(d, Err("Error: dest already exists."))
      else Step(Disk(Holds(EmptyObj), d.asides[dest := text]), Ok(EmptyObj))
    case Holds(tree) => Step(d, Ok(tree))
  }

  /** A read never reports a parse error: it fails only when the aside name is taken. */
  lemma ReadNeverFailsOnFreshAside(d: Disk, path: string, now: nat)
    requires DiskOk(d) && AsidePath(path, now) !in d.asides
    ensures Read(d, path, now).out.Ok?
  {
  }

  /** Once read, the file is healed: reading again returns the same tree and writes nothing. */
  lemma ReadHeals(d: Disk, path: string, now: nat, later: nat)
    requires DiskOk(d) && Read(d, path, now).out.Ok?
    ensures Read(Read(d, path, now).disk, path, later) == Step(Read(d, path, now).disk, Read(d, path, now).out)
  {
  }

  /** `updateStatusJSON(data, reset)` (StatusJSONManager.js:35-46). */
  function Update(d: Disk, path: string, now: nat, data: Json, reset: bool): (s: Step<Json>)
    requires DiskOk(d) && data.Obj?
    ensures DiskOk(s.disk) && AsidesKept(d, s.disk)
    ensures s.out.Err? <==> Read(d, path, now).out.Err?
    ensures s.out.Err? ==> s.disk == d
    ensures s.out.Ok? ==> s.out.value.Obj? && s.disk.file == Holds(Serialize(s.out.value))
    ensures s.out.Ok? && reset ==> s.out.value == data
    ensures s.out.Ok? && !reset ==> s.out.value == Merge(Read(d, path, now).out.value, data)
  {
    var r := Read(d, path, now);
    match r.out
    case Err(e) => Step(r.disk, Err(e))
    case Ok(oldJSON) =>
      var newJSON := if !reset then Merge(oldJSON, data) else data;
      assert newJSON.Obj?;
      SerializeTree(newJSON);
      Step(Disk(Holds(Serialize(newJSON)), r.disk.asides), Ok(newJSON))
  }

  /** When the data is plain JSON, the tree returned is exactly the tree a later read returns. */
  lemma UpdateReturnsWhatIsWritten(d: Disk, path: string, now: nat, data: Json, reset: bool, later: nat)
    requires DiskOk(d) && IsTree(data) && Update(d, path, now, data, reset).out.Ok?
    ensures Read(Update(d, path, now, data, reset).disk, path, later).out ==
            Update(d, path, now, data, reset).out
  {
    var s := Update(d, path, now, data, reset);
    if reset {
      SerializePlain(data);
    } else {
      MergePlain(Read(d, path, now).out.value, data);
      SerializePlain(s.out.value);
    }
  }

  /** Merging plain data twice leaves the file as merging it once does. */
  lemma UpdateTwiceIsUpdateOnce(d: Disk, path: string, now: nat, data: Json, later: nat)
    requires DiskOk(d) && IsTree(data) && Update(d, path, now, data, false).out.Ok?
    ensures Update(Update(d, path, now, data, false).disk, path, later, data, false).disk.file ==
            Update(d, path, now, data, false).disk.file
  {
    var s := Update(d, path, now, data, false);
    var stored := Read(d, path, now).out.value;
    MergePlain(stored, data);
    SerializePlain(s.out.value);
    MergeIdempotent(stored, data);
  }

  /** A top-level key the data does not mention keeps its stored value on disk. */
  lemma UpdateKeepsUnmentionedKey(d: Disk, path: string, now: nat, data: Json, k: string)
    requires DiskOk(d) && data.Obj? && d.file.Holds?
    requires k in d.file.tree.fields && k !in data.fields
    ensures var f := Update(d, path, now, data, false).disk.file;
            f.Holds? && k in f.tree.fields && f.tree.fields[k] == d.file.tree.fields[k]
  {
    var t := d.file.tree;
    MergeKeepsAbsentKey(t, data, k);
    SerializePlain(t.fields[k]);
  }

  /** A reset discards whatever was stored: the file then holds exactly the data. */
  lemma ResetDiscardsStored(d: Disk, path: string, now: nat, data: Json)
    requires DiskOk(d) && IsTree(data) && Update(d, path, now, data, true).out.Ok?
    ensures Update(d, path, now, data, true).disk.file == Holds(data)
  {
    SerializePlain(data);
  }

  /**
   * `delete tree[taxonomy][name]`: it throws when `tree[taxonomy]` is missing
   * or null, or when `name` is a property of it that cannot be deleted.
   */
  function DeleteRoot(tree: Json, taxonomy: string, name: string): (r: Result<Json>)
    requires tree.Obj?
    ensures r.Err? <==> taxonomy !in tree.fields || DeleteThrows(tree.fields[taxonomy], name)
    ensures r.Ok? ==> r.value.Obj? && r.value.keys == tree.keys
    ensures r.Ok? ==> forall k :: k in tree.fields && k != taxonomy ==> k in r.value.fields && r.value.fields[k] == tree.fields[k]
    ensures r.Ok? ==> taxonomy in r.value.fields
    ensures r.Ok? && tree.fields[taxonomy].Obj? ==>
      var g := r.value.fields[taxonomy];
      g.Obj? && g.fields == tree.fields[taxonomy].fields - {name} &&
      g.keys == RemoveKey(tree.fields[taxonomy].keys, name)
    ensures r.Ok? && tree.fields[taxonomy].Arr? ==>
      var g := r.value.fields[taxonomy];
      var old_ := tree.fields[taxonomy].items;
      g.Arr? && |g.items| == |old_| &&
      forall i :: 0 <= i < |old_| ==> g.items[i] == (if ParseIndex(name) == Some(i) then Undefined else old_[i])
    ensures r.Ok? && !tree.fields[taxonomy].Obj? && !tree.fields[taxonomy].Arr? ==> r.value == tree
    ensures r.Ok? && IsTree(tree) && !tree.fields[taxonomy].Arr? ==> IsTree(r.value)
  {
    var group := if taxonomy in tree.fields then tree.fields[taxonomy] else Undefined;
    var group' :- DeleteProp(group, name);
    assert IsTree(tree) && !group.Arr? ==> Plain(group') by {
      if IsTree(tree) && group.Obj? {
        assert Plain(group);
        assert group' == Obj(RemoveKey(group.keys, name), group.fields - {name});
        var ks := RemoveKey(group.keys, name);
        forall i | 0 <= i < |ks| ensures ks[i] in group'.fields {
          assert ks[i] in ks;
        }
      }
    }
    Ok(Obj(tree.keys, tree.fields[taxonomy := group']))
  }

  /**
   * `deleteAGlobalExtensionFromStatusJSON(name, type)` (StatusJSONManager.js:48-60):
   * it writes the serialisation of the tree it returns.
   */
  function Delete(d: Disk, path: string, now: nat, name: Json, typ: Json): (s: Step<Json>)
    requires DiskOk(d)
    ensures DiskOk(s.disk) && AsidesKept(d, s.disk)
    ensures s.out.Ok? ==> s.out.value.Obj? && s.disk.file == Holds(Serialize(s.out.value))
  {
    var r := Read(d, path, now);
    match r.out
    case Err(e) => Step(r.disk, Err(e))
    case Ok(tree) =>
      var afterProject :=
        if StrictEq(typ, Num(0)) then DeleteRoot(tree, "Project", ToKey(name)) else Ok(tree);
      match afterProject
      case Err(e) => Step(r.disk, Err(e))
      case Ok(t1) =>
        var afterPlugin :=
          if StrictEq(typ, Num(1)) then DeleteRoot(t1, "Plugin", ToKey(name)) else Ok(t1);
        match afterPlugin
        case Err(e) => Step(r.disk, Err(e))
        case Ok(t2) =>
          SerializeTree(t2);
          Step(Disk(Holds(Serialize(t2)), r.disk.asides), Ok(t2))
  }

  /** Type 0 removes `Project[name]` and nothing else; a missing `Project` is an error. */
  lemma DeleteProjectRoot(d: Disk, path: string, now: nat, name: string)
    requires DiskOk(d) && Read(d, path, now).out.Ok?
    ensures var tree := Read(d, path, now).out.value;
            var s := Delete(d, path, now, Str(name), Num(0));
            (s.out.Err? <==> "Project" !in tree.fields || DeleteThrows(tree.fields["Project"], name)) &&
            (s.out.Ok? ==> s.out == DeleteRoot(tree, "Project", name))
  {
  }

  /** Type 1 removes `Plugin[name]` and nothing else; a missing `Plugin` is an error. */
  lemma DeletePluginRoot(d: Disk, path: string, now: nat, name: string)
    requires DiskOk(d) && Read(d, path, now).out.Ok?
    ensures var tree := Read(d, path, now).out.value;
            var s := Delete(d, path, now, Str(name), Num(1));
            (s.out.Err? <==> "Plugin" !in tree.fields || DeleteThrows(tree.fields["Plugin"], name)) &&
            (s.out.Ok? ==> s.out == DeleteRoot(tree, "Plugin", name))
  {
  }

  /** Any other type rewrites the tree unchanged. */
  lemma DeleteOtherTypeRewrites(d: Disk, path: string, now: nat, name: Json, typ: Json)
    requires DiskOk(d) && Read(d, path, now).out.Ok?
    requires !StrictEq(typ, Num(0)) && !StrictEq(typ, Num(1))
    ensures Delete(d, path, now, name, typ) == Read(d, path, now)
  {
    SerializePlain(Read(d, path, now).out.value);
  }

  /**
   * When `Project` is an array, deleting the entry at index i succeeds: the
   * array keeps its length, the file holds `null` in that slot, and the
   * rest of the tree is written back as it was.
   */
  lemma DeleteArrayEntryWritesNull(d: Disk, path: string, now: nat, i: nat)
    requires DiskOk(d) && Read(d, path, now).out.Ok?
    requires var tree := Read(d, path, now).out.value;
      "Project" in tree.fields && tree.fields["Project"].Arr? && i < |tree.fields["Project"].items|
    ensures var tree := Read(d, path, now).out.value;
      var s := Delete(d, path, now, Str(NatToString(i)), Num(0));
      && s.out.Ok? && s.disk.file.Holds?
      && var after := s.disk.file.tree;
         && after.keys == tree.keys
         && after.fields == tree.fields["Project" := Arr(tree.fields["Project"].items[i := Null])]
  {
    var tree := Read(d, path, now).out.value;
    assert Plain(tree);
    DeleteArrayEntrySerializes(tree, i);
    DeleteProjectRoot(d, path, now, NatToString(i));
    var s := Delete(d, path, now, Str(NatToString(i)), Num(0));
    assert s.out == DeleteRoot(tree, "Project", NatToString(i));
  }

  /** Deleting entry i of a plain tree's `Project` array, then writing it, leaves `null` there. */
  lemma DeleteArrayEntrySerializes(tree: Json, i: nat)
    requires tree.Obj? && Plain(tree)
    requires "Project" in tree.fields && tree.fields["Project"].Arr? && i < |tree.fields["Project"].items|
    ensures var r := DeleteRoot(tree, "Project", NatToString(i));
            r.Ok? && Serialize(r.value) == Obj(tree.keys, tree.fields["Project" := Arr(tree.fields["Project"].items[i := Null])])
  {
    var items := tree.fields["Project"].items;
    assert Plain(tree.fields["Project"]);
    DeleteElementWritesNull(items, i);
    ParseIndexOfNatToString(i);
    var hole := Arr(items[i := Undefined]);
    assert DeleteProp(Arr(items), NatToString(i)) == Ok(hole);
    var t1 := DeleteRoot(tree, "Project", NatToString(i)).value;
    assert t1 == Obj(tree.keys, tree.fields["Project" := hole]);
    var w := Serialize(t1);
    forall k | k in tree.fields
      ensures t1.fields[k] != Undefined && Serialize(t1.fields[k]) == tree.fields["Project" := Arr(items[i := Null])][k]
    {
      if k != "Project" {
        assert Plain(tree.fields[k]);
        SerializePlain(tree.fields[k]);
      }
    }
    assert w.fields == tree.fields["Project" := Arr(items[i := Null])];
    assert KeepDefined(tree.keys, t1.fields) == tree.keys by {
      KeepDefinedOfPlain(tree.keys, t1.fields);
    }
  }

  /**
   * `readStatusJSON` AS WRITTEN: StatusJSONManager.js:3 takes `moveSync` from
   * Node's `fs`, which has no such function, so the recovery branch throws
   * a TypeError before anything is moved or written.
   */
  function ReadAsWritten(d: Disk, path: string): (s: Step<Json>)
    requires DiskOk(d)
  {
    match d.file
    case Absent => Step(Disk(Holds(EmptyObj), d.asides), Ok(EmptyObj))
    case Unparseable(_) => Step(d, Err("TypeError: moveSync is not a function"))
    case Holds(tree) => Step(d, Ok(tree))
  }

  /** As written, a corrupt file is never healed: every read throws and leaves it in place. */
  lemma CorruptFileStaysCorruptAsWritten(text: string, path: string, now: nat)
    ensures ReadAsWritten(Disk(Unparseable(text), map[]), path).out.Err?
    ensures ReadAsWritten(Disk(Unparseable(text), map[]), path).disk.file == Unparseable(text)
    ensures Read(Disk(Unparseable(text), map[]), path, now) ==
            Step(Disk(Holds(EmptyObj), map[AsidePath(path, now) := text]), Ok(EmptyObj))
  {
  }

  /** The store object: the backing file of one namespace and the copies moved aside. */
  class StatusJSONManager {
    const suffix: string
    const path: string
    var file: FileState
    var asides: map<string, string>

    ghost predicate Valid()
      reads this
    {
      DiskOk(Disk(file, asides))
    }

    function DiskNow(): Disk
      reads this
    {
      Disk(file, asides)
    }

    /** StatusJSONManager.js:12-15, over the disk as found. */
    constructor (home: string, suffix: string, found: Disk)
      requires DiskOk(found)
      ensures Valid()
      ensures this.suffix == suffix && path == InfoJsonPath(home, suffix) && DiskNow() == found
    {
      this.suffix := suffix;
      path := InfoJsonPath(home, suffix);
      file := found.file;
      asides := found.asides;
    }

    method ReadStatusJSON(now: nat) returns (r: Result<Json>)
      requires Valid()
      modifies this
      ensures Valid()
      ensures Step(DiskNow(), r) == Read(old(DiskNow()), path, now)
    {
      match file
      case Absent =>
        file := Holds(EmptyObj);
        r := Ok(EmptyObj);
      case Unparseable(text) =>
        var dest := AsidePath(path, now);
        if dest in asides {
          r := Err("Error: dest already exists.");
        } else {
          asides := asides[dest := text];
          file := Holds(EmptyObj);
          r := Ok(EmptyObj);
        }
      case Holds(tree) =>
        r := Ok(tree);
    }

    method UpdateStatusJSON(data: Json, reset: bool, now: nat) returns (r: Result<Json>)
      requires Valid() && data.Obj?
      modifies this
      ensures Valid()
      ensures Step(DiskNow(), r) == Update(old(DiskNow()), path, now, data, reset)
    {
      var oldJSON :- ReadStatusJSON(now);
      var newJSON := data;
      if !reset {
        newJSON := Merge(oldJSON, data);
      }
      SerializeTree(newJSON);
      file := Holds(Serialize(newJSON));
      r := Ok(newJSON);
    }

    method DeleteAGlobalExtensionFromStatusJSON(name: Json, typ: Json, now: nat) returns (r: Result<Json>)
      requires Valid()
      modifies this
      ensures Valid()
      ensures Step(DiskNow(), r) == Delete(old(DiskNow()), path, now, name, typ)
    {
      var oldJSON :- ReadStatusJSON(now);
      if StrictEq(typ, Num(0)) {
        oldJSON :- DeleteRoot(oldJSON, "Project", ToKey(name));
      }
      if StrictEq(typ, Num(1)) {
        oldJSON :- DeleteRoot(oldJSON, "Plugin", ToKey(name));
      }
      SerializeTree(oldJSON);
      file := Holds(Serialize(oldJSON));
      r := Ok(oldJSON);
    }
  }
}
