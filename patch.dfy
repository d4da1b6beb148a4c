/**
 * `setStatusOrEnableOfNamedPakcage` (PackageManager.js:670-724): a stored
 * record's `status`, and its `enable` flag when a boolean is given, are
 * patched by deep-merging a one-record object into the status file.
 *
 * The record is looked up first; a lookup through a missing taxonomy or
 * group throws and is caught into the pair `[err, {}]`.
 */
module Patch {
  import opened JsValue
  import opened DeepMerge
  import opened StatusStore

  /** `tree[taxonomy][group][name]`, which throws when the taxonomy or the group is missing. */
  function Record(tree: Json, taxonomy: string, group: string, name: string): (r: Result<Json>)
    requires tree.Obj?
    ensures r.Err? <==> Get(tree, taxonomy).Undefined? || Get(tree, taxonomy).Null? ||
                        Member(Get(tree, taxonomy), group).value.Undefined? ||
                        Member(Get(tree, taxonomy), group).value.Null?
  {
    var records :- Member(Get(tree, taxonomy), group);
    Member(records, name)
  }

  /** A record stored along objects is what the lookup reads. */
  lemma RecordIsStored(tree: Json, taxonomy: string, group: string, name: string)
    requires tree.Obj? && At(tree, [taxonomy, group, name]).Some?
    ensures Record(tree, taxonomy, group, name) == Ok(At(tree, [taxonomy, group, name]).value)
  {
    assert [taxonomy, group, name][1..] == [group, name] && [group, name][1..] == [name];
    var groups := tree.fields[taxonomy];
    assert At(tree, [taxonomy, group, name]) == At(groups, [group, name]);
    var records := groups.fields[group];
    assert At(groups, [group, name]) == At(records, [name]);
    assert At(records, [name]) == Some(records.fields[name]);
  }

  /**
   * The key path of the record to patch (PackageManager.js:674-718), `None`
   * when no branch applies or the record is falsy.
   */
  function Target(tree: Json, parent: Json, name: Json, typ: Json): (r: Result<Option<seq<string>>>)
    requires tree.Obj?
    ensures !StrictEq(typ, Num(0)) && !StrictEq(typ, Num(1)) ==> r == Ok(None)
    ensures r.Ok? && r.value.Some? ==>
              var path := r.value.value;
              && |path| == 3 && name.Str? && path[2] == name.s
              && (path[0] == "Project" || path[0] == "Plugin")
              && Record(tree, path[0], path[1], path[2]).Ok? && Truthy(Record(tree, path[0], path[1], path[2]).value)
    ensures r.Ok? && r.value.Some? && r.value.value[0] == "Plugin" ==> StrictEq(typ, Num(1)) && !Truthy(parent)
  {
    if StrictEq(typ, Num(0)) then
      if name.Str? && name.s != "" then
        var rec :- Record(tree, "Project", name.s, name.s);
        Ok(if Truthy(rec) then Some(["Project", name.s, name.s]) else None)
      else Ok(None)
    else if StrictEq(typ, Num(1)) then
      if Truthy(parent) && parent.Str? && name.Str? then
        var rec :- Record(tree, "Project", parent.s, name.s);
        Ok(if Truthy(rec) then Some(["Project", parent.s, name.s]) else None)
      else if !Truthy(parent) && name.Str? then
        var rec :- Record(tree, "Plugin", name.s, name.s);
        Ok(if Truthy(rec) then Some(["Plugin", name.s, name.s]) else None)
      else Ok(None)
    else Ok(None)
  }

  /** The record literal `{status}`, with `enable` added when it is a boolean. */
  function Fields(status: Json, enable: Json): (r: Json)
    ensures r.Obj? && "status" in r.fields && r.fields["status"] == status
    ensures "enable" in r.fields <==> enable.Bool?
    ensures enable.Bool? ==> r.fields["enable"] == enable
    ensures forall k :: k in r.fields ==> k == "status" || k == "enable"
  {
    if enable.Bool? then Obj(["status", "enable"], map["status" := status, "enable" := enable])
    else Single("status", status)
  }

  /** The object handed to `updateStatusJSON`: the patch, or `{}` when no record was chosen. */
  function PatchObject(target: Option<seq<string>>, status: Json, enable: Json): (r: Json)
    ensures r.Obj?
    ensures target.None? ==> r == EmptyObj
    ensures target.Some? ==> At(r, target.value) == Some(Fields(status, enable))
  {
    match target
    case None => EmptyObj
    case Some(path) => if path == [] then Fields(status, enable) else Nest(path, Fields(status, enable))
  }

  /**
   * The whole call over the status file `d`: the read at line 672 throws out
   * of the call, a failed lookup is caught into `[err, {}]`, and otherwise
   * the patch (maybe `{}`) is merged into the file and the merged tree
   * returned as `[null, tree]`.
   */
  function SetStatusOrEnable(d: Disk, file: string, now: nat, parent: Json, name: Json, typ: Json,
                             status: Json, enable: Json): (s: Step<Reply>)
    requires DiskOk(d)
    ensures DiskOk(s.disk) && AsidesKept(d, s.disk)
    ensures s.out.Err? <==> Read(d, file, now).out.Err?
    ensures s.out.Ok? && s.out.value.err.Some? ==>
              s.disk == Read(d, file, now).disk && s.out.value.value == EmptyObj
    ensures s.out.Ok? && s.out.value.err.None? ==>
              s.out.value.value.Obj? && s.disk.file == Holds(Serialize(s.out.value.value))
  {
    var read := Read(d, file, now);
    match read.out
    case Err(e) => Step(read.disk, Err(e))
    case Ok(tree) => PatchStored(read.disk, file, now, tree, parent, name, typ, status, enable)
  }

  /** The call is the read followed, when the read succeeds, by the patch of the tree read. */
  lemma SetStatusOrEnableReads(d: Disk, file: string, now: nat, parent: Json, name: Json, typ: Json,
                               status: Json, enable: Json)
    requires DiskOk(d)
    ensures var read := Read(d, file, now);
            SetStatusOrEnable(d, file, now, parent, name, typ, status, enable) ==
              if read.out.Err? then Step(read.disk, Err(read.out.error))
              else PatchStored(read.disk, file, now, read.out.value, parent, name, typ, status, enable)
  {
  }

  /** The call once the file is known to hold `tree`: the lookup, then the merge. */
  function PatchStored(d: Disk, file: string, now: nat, tree: Json, parent: Json, name: Json, typ: Json,
                       status: Json, enable: Json): (s: Step<Reply>)
    requires DiskOk(d) && d.file == Holds(tree)
    ensures DiskOk(s.disk) && AsidesKept(d, s.disk) && s.out.Ok?
    ensures s.out.value.err.Some? ==> s.disk == d && s.out.value.value == EmptyObj
    ensures s.out.value.err.None? ==>
              s.out.value.value.Obj? && s.disk.file == Holds(Serialize(s.out.value.value))
  {
    match Target(tree, Default(parent, Null), Default(name, Str("")), Default(typ, Num(0)))
    case Err(e) => Step(d, Ok(Reply(Some(e), EmptyObj)))
    case Ok(target) =>
      var obj := PatchObject(target, Default(status, Str("")), Default(enable, Str("")));
      var upd := Update(d, file, now, obj, false);
      Step(upd.disk, Ok(Reply(None, upd.out.value)))
  }

  /** With a record chosen (or none), the file gets the merge of the patch and the call answers with the merged tree. */
  lemma PatchStoredMerges(d: Disk, file: string, now: nat, tree: Json, parent: Json, name: Json, typ: Json,
                          status: Json, enable: Json)
    requires DiskOk(d) && d.file == Holds(tree)
    requires Target(tree, Default(parent, Null), Default(name, Str("")), Default(typ, Num(0))).Ok?
    ensures var target := Target(tree, Default(parent, Null), Default(name, Str("")), Default(typ, Num(0))).value;
            var upd := Update(d, file, now, PatchObject(target, Default(status, Str("")), Default(enable, Str(""))), false);
            upd.out.Ok? && PatchStored(d, file, now, tree, parent, name, typ, status, enable) == Step(upd.disk, Ok(Reply(None, upd.out.value)))
  {
  }

  // ---------------------------------------------------------------------
  // Which record is patched

  /** A record is only ever chosen when it is stored and truthy, and only in the places the call names. */
  lemma TargetIsStoredRecord(tree: Json, parent: Json, name: Json, typ: Json, path: seq<string>)
    requires tree.Obj? && Target(tree, parent, name, typ) == Ok(Some(path))
    ensures |path| == 3 && name.Str? && path[2] == name.s
    ensures Record(tree, path[0], path[1], path[2]).Ok? && Truthy(Record(tree, path[0], path[1], path[2]).value)
    ensures StrictEq(typ, Num(0)) ==> path == ["Project", name.s, name.s] && name.s != ""
    ensures StrictEq(typ, Num(1)) && Truthy(parent) ==> parent.Str? && path == ["Project", parent.s, name.s]
    ensures StrictEq(typ, Num(1)) && !Truthy(parent) ==> path == ["Plugin", name.s, name.s]
    ensures StrictEq(typ, Num(0)) || StrictEq(typ, Num(1))
  {
  }

  /** A stored truthy project record named by a type-0 call is chosen. */
  lemma TargetFindsProject(tree: Json, parent: Json, n: string)
    requires tree.Obj? && n != ""
    requires At(tree, ["Project", n, n]).Some? && Truthy(At(tree, ["Project", n, n]).value)
    ensures Target(tree, parent, Str(n), Num(0)) == Ok(Some(["Project", n, n]))
  {
    RecordIsStored(tree, "Project", n, n);
  }

  /** A stored truthy record of a project's plugin named by a type-1 call with that parent is chosen. */
  lemma TargetFindsProjectPlugin(tree: Json, p: string, n: string)
    requires tree.Obj? && p != ""
    requires At(tree, ["Project", p, n]).Some? && Truthy(At(tree, ["Project", p, n]).value)
    ensures Target(tree, Str(p), Str(n), Num(1)) == Ok(Some(["Project", p, n]))
  {
    RecordIsStored(tree, "Project", p, n);
  }

  /** A stored truthy plugin record named by a type-1 call without parent is chosen. */
  lemma TargetFindsPlugin(tree: Json, parent: Json, n: string)
    requires tree.Obj? && !Truthy(parent)
    requires At(tree, ["Plugin", n, n]).Some? && Truthy(At(tree, ["Plugin", n, n]).value)
    ensures Target(tree, parent, Str(n), Num(1)) == Ok(Some(["Plugin", n, n]))
  {
    RecordIsStored(tree, "Plugin", n, n);
  }

  // ---------------------------------------------------------------------
  // What the patch changes

  /**
   * Merging the patch of an object record at `path` writes `status` (and a
   * boolean `enable`) there and leaves every other stored value in place:
   * those on paths parting from the record's, and the record's other fields.
   */
  lemma {:induction false} PatchWritesOnlyRecord(tree: Json, path: seq<string>, status: Json, enable: Json)
    requires At(tree, path).Some? && At(tree, path).value.Obj?
    ensures var m := Merge(tree, PatchObject(Some(path), status, enable));
      && (IsLeaf(status) ==> At(m, path + ["status"]) == Some(status))
      && (enable.Bool? ==> At(m, path + ["enable"]) == Some(enable))
      && (forall q :: Diverge(q, path) ==> At(m, q) == At(tree, q))
      && (forall k, rest :: k != "status" && k != "enable" ==> At(m, path + [k] + rest) == At(tree, path + [k] + rest))
  {
    var leaf := Fields(status, enable);
    var obj := PatchObject(Some(path), status, enable);
    var m := Merge(tree, obj);
    AtAppend(obj, path, ["status"]);
    if IsLeaf(status) {
      MergeDataLeafWins(tree, obj, path + ["status"]);
    }
    AtAppend(obj, path, ["enable"]);
    if enable.Bool? {
      MergeDataLeafWins(tree, obj, path + ["enable"]);
    }
    if path == [] {
      assert obj == leaf;
      forall k, rest | k != "status" && k != "enable" ensures At(m, path + [k] + rest) == At(tree, path + [k] + rest) {
        assert path + [k] + rest == [k] + rest;
        MergeKeepsUntouched(tree, obj, [k] + rest);
      }
    } else {
      forall q | Diverge(q, path) ensures At(m, q) == At(tree, q) {
        NestUntouched(tree, path, leaf, q);
        MergeKeepsUntouched(tree, obj, q);
      }
      forall k, rest | k != "status" && k != "enable" ensures At(m, path + [k] + rest) == At(tree, path + [k] + rest) {
        NestUntouchedBelow(tree, path, leaf, k, rest);
        MergeKeepsUntouched(tree, obj, path + [k] + rest);
      }
    }
  }

  /** When no record is chosen the `{}` patch leaves the stored tree as it was, and returns it. */
  lemma NoTargetKeepsTree(d: Disk, file: string, now: nat, parent: Json, name: Json, typ: Json, status: Json, enable: Json)
    requires DiskOk(d) && Read(d, file, now).out.Ok?
    requires Target(Read(d, file, now).out.value, Default(parent, Null), Default(name, Str("")), Default(typ, Num(0))) == Ok(None)
    ensures var s := SetStatusOrEnable(d, file, now, parent, name, typ, status, enable);
      s.out == Ok(Reply(None, Read(d, file, now).out.value)) && s.disk.file == Read(d, file, now).disk.file
  {
    var tree := Read(d, file, now).out.value;
    MergeEmpty(tree);
    SerializePlain(tree);
  }

  /** A chosen object record comes back patched and nothing else in the tree moves. */
  lemma SetStatusOrEnablePatchesRecord(d: Disk, file: string, now: nat, parent: Json, name: Json, typ: Json,
                                       status: Json, enable: Json, path: seq<string>)
    requires DiskOk(d) && Read(d, file, now).out.Ok?
    requires var tree := Read(d, file, now).out.value;
      Target(tree, Default(parent, Null), Default(name, Str("")), Default(typ, Num(0))) == Ok(Some(path)) &&
      At(tree, path).Some? && At(tree, path).value.Obj?
    ensures var tree := Read(d, file, now).out.value;
      var s := SetStatusOrEnable(d, file, now, parent, name, typ, status, enable);
      var st := Default(status, Str(""));
      s.out.Ok? && s.out.value.err.None? &&
      (IsLeaf(st) ==> At(s.out.value.value, path + ["status"]) == Some(st)) &&
      (enable.Bool? ==> At(s.out.value.value, path + ["enable"]) == Some(enable)) &&
      (forall q :: Diverge(q, path) ==> At(s.out.value.value, q) == At(tree, q)) &&
      (forall k, rest :: k != "status" && k != "enable" ==>
         At(s.out.value.value, path + [k] + rest) == At(tree, path + [k] + rest))
  {
    var tree := Read(d, file, now).out.value;
    PatchWritesOnlyRecord(tree, path, Default(status, Str("")), Default(enable, Str("")));
  }
}
