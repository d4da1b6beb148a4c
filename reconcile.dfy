/**
 * Staleness reconciliation (PackageManager.js:275-449
 * `doFinalValidatedSearch`): every installed record is compared with its
 * catalog entry, records with a newer release are annotated `outdate` in
 * both the installed view and the catalog view, and installed packages are
 * removed from a second catalog copy, the uninstalled view.
 *
 * The catalog `p` is deep-copied twice; copies are values here, so the
 * catalog itself can never change.  `semver.satisfies` is the parameter
 * `sv`: node-semver's range grammar is not part of this model.
 */
module Reconcile {
  import opened JsValue
  import Catalog

  /** `semver.satisfies(version, range)`. */
  type Satisfies = (Json, Json) -> bool

  /**
   * The two node-semver calls the search makes: `semver.satisfies` and
   * `semver.gt`.  The search passes `Semver.Gt` as `gt`; nothing proved
   * here depends on which comparison it is.
   */
  datatype SemverCalls = SemverCalls(satisfies: Satisfies, gt: (Json, Json) -> Result<bool>)

  /** The catalog copy being annotated and the copy installed packages are deleted from. */
  datatype Copies = Copies(packages: Json, backup: Json)

  /** The three views the search returns. */
  datatype Views = Views(all: Json, uninstalled: Json, installed: Json)

  // ---------------------------------------------------------------------
  // Annotating a record

  /** A record marked out of date, with `v` as its newest acceptable release. */
  function Annotate(rec: Json, v: Json): (r: Json)
    requires rec.Obj?
    ensures r.Obj? && r.fields == rec.fields["status" := Str("outdate")]["latestVersion" := v]
  {
    Put(Put(rec, "status", Str("outdate")), "latestVersion", v)
  }

  /** `after` is `pkg` and `packages` with both copies of the record at `at` annotated with `v`. */
  predicate Marked(pkg: Json, packages: Json, at: seq<string>, v: Json, after: (Json, Json))
    requires pkg.Obj?
  {
    after.0 == Annotate(pkg, v) &&
    GetIn(packages, at).Ok? && GetIn(packages, at).value.Obj? &&
    GetIn(after.1, at) == Ok(Annotate(GetIn(packages, at).value, v))
  }

  /**
   * PackageManager.js:317-320 and the like: `pkg.status`, `pkg.latestVersion`
   * and the same two fields of the catalog record at `at`.
   */
  function Mark(pkg: Json, packages: Json, at: seq<string>, v: Json): (r: Result<(Json, Json)>)
    requires pkg.Obj?
    ensures r.Ok? ==> Marked(pkg, packages, at, v, r.value)
  {
    var p1 :- SetIn(packages, at + ["status"], Str("outdate"));
    var p2 :- SetIn(p1, at + ["latestVersion"], v);
    SetInField(packages, at, "status", Str("outdate"));
    SetInField(p1, at, "latestVersion", v);
    Ok((Annotate(pkg, v), p2))
  }

  /** On a filed record, marking succeeds and changes the catalog at `at` only. */
  lemma MarkReplaces(pkg: Json, q: Json, at: seq<string>, v: Json)
    requires pkg.Obj? && Files(q, at) && RecordAt(q, at).Obj?
    ensures Mark(pkg, q, at, v) == Ok((Annotate(pkg, v), ReplaceRecord(q, at, Annotate(RecordAt(q, at), v))))
  {
    var rec := RecordAt(q, at);
    var rec1 := Put(rec, "status", Str("outdate"));
    SetRecordField(q, at, "status", Str("outdate"));
    var q1 := ReplaceRecord(q, at, rec1);
    SetRecordField(q1, at, "latestVersion", v);
    ReplaceTwice(q, at, rec1, Annotate(rec, v));
  }

  // ---------------------------------------------------------------------
  // The three rules

  /**
   * PackageManager.js:316-321, 388-393: the record is out of date exactly
   * when the `latest` tag is newer than the installed `aversion`.
   */
  function LatestRule(pkg: Json, packages: Json, at: seq<string>, distTags: Json, aversion: Json, sv: SemverCalls): (r: Result<(Json, Json)>)
    requires pkg.Obj?
    ensures r.Ok? ==> Member(distTags, "latest").Ok? && sv.gt(Member(distTags, "latest").value, aversion).Ok?
    ensures r.Ok? ==> var latest := Member(distTags, "latest").value;
                      if sv.gt(latest, aversion).value then Marked(pkg, packages, at, latest, r.value)
                      else r.value == (pkg, packages)
  {
    var latest :- Member(distTags, "latest");
    var newer :- sv.gt(latest, aversion);
    if newer then Mark(pkg, packages, at, latest) else Ok((pkg, packages))
  }

  /**
   * PackageManager.js:336-343, 398-406: when `dist-tags` has an entry named
   * by the record's `version` and it is newer than `aversion`, the record is
   * marked with it.
   */
  function TagRule(pkg: Json, packages: Json, at: seq<string>, distTags: Json, version: Json, aversion: Json, sv: SemverCalls): (r: Result<(Json, Json)>)
    requires pkg.Obj?
    ensures r.Ok? ==> r.value.0.Obj?
    ensures r.Ok? ==> Member(distTags, ToKey(version)).Ok?
    ensures r.Ok? ==> var tag := Member(distTags, ToKey(version)).value;
                      if Truthy(tag) && sv.gt(tag, aversion) == Ok(true) then Marked(pkg, packages, at, tag, r.value)
                      else r.value == (pkg, packages)
    ensures r.Ok? && Truthy(Member(distTags, ToKey(version)).value) ==>
              sv.gt(Member(distTags, ToKey(version)).value, aversion).Ok?
  {
    var tag :- Member(distTags, ToKey(version));
    if Truthy(tag) then
      var newer :- sv.gt(tag, aversion);
      if newer then Mark(pkg, packages, at, tag) else Ok((pkg, packages))
    else Ok((pkg, packages))
  }

  /** `semver.satisfies(ver, version) && semver.gt(ver, aversion)` found `ver` acceptable. */
  predicate Hit(sv: SemverCalls, ver: Json, version: Json, aversion: Json)
  {
    sv.satisfies(ver, version) && sv.gt(ver, aversion) == Ok(true)
  }

  /** `ver` was looked at and passed over. */
  predicate Miss(sv: SemverCalls, ver: Json, version: Json, aversion: Json)
  {
    !sv.satisfies(ver, version) || sv.gt(ver, aversion) == Ok(false)
  }

  /**
   * The callback of `versionsList.some` (PackageManager.js:347-356,
   * 409-418): the index of the first acceptable release, `None` when every
   * release is passed over, or the error `semver.gt` throws on the first
   * satisfying entry that is not a version.
   */
  function FirstMatch(vs: seq<Json>, version: Json, aversion: Json, sv: SemverCalls): (r: Result<Option<nat>>)
    ensures r.Ok? && r.value.Some? ==> r.value.value < |vs|
    ensures r.Ok? && r.value.Some? ==>
              sv.satisfies(vs[r.value.value], version) && sv.gt(vs[r.value.value], aversion) == Ok(true)
  {
    if vs == [] then Ok(None)
    else if !sv.satisfies(vs[0], version) then Later(FirstMatch(vs[1..], version, aversion, sv))
    else
      var newer :- sv.gt(vs[0], aversion);
      if newer then Ok(Some(0)) else Later(FirstMatch(vs[1..], version, aversion, sv))
  }

  /** A search result over `vs[1..]` read as one over `vs`. */
  function Later(r: Result<Option<nat>>): Result<Option<nat>>
  {
    if r.Ok? && r.value.Some? then Ok(Some(r.value.value + 1)) else r
  }

  /**
   * `FirstMatch` finds the first acceptable release: every earlier one was
   * passed over; it finds none only when every release is passed over; and it
   * fails only on a satisfying entry, reached before any hit, that is not a
   * version.
   */
  lemma {:induction false} FirstMatchIsFirst(vs: seq<Json>, version: Json, aversion: Json, sv: SemverCalls)
    ensures var r := FirstMatch(vs, version, aversion, sv);
            (r.Ok? && r.value.Some? ==>
               r.value.value < |vs| && Hit(sv, vs[r.value.value], version, aversion) &&
               forall j | 0 <= j < r.value.value :: Miss(sv, vs[j], version, aversion)) &&
            (r.Ok? && r.value.None? ==> forall j | 0 <= j < |vs| :: Miss(sv, vs[j], version, aversion)) &&
            (r.Err? ==> exists i | 0 <= i < |vs| ::
               sv.satisfies(vs[i], version) && sv.gt(vs[i], aversion).Err? &&
               forall j | 0 <= j < i :: Miss(sv, vs[j], version, aversion))
  {
    if vs == [] {
      return;
    }
    FirstMatchIsFirst(vs[1..], version, aversion, sv);
    var r := FirstMatch(vs, version, aversion, sv);
    var rest := FirstMatch(vs[1..], version, aversion, sv);
    if sv.satisfies(vs[0], version) && sv.gt(vs[0], aversion).Err? {
      assert r.Err?;
    } else if Hit(sv, vs[0], version, aversion) {
      assert r == Ok(Some(0));
    } else {
      assert Miss(sv, vs[0], version, aversion);
      assert r == Later(rest);
      if rest.Err? {
        var i :| 0 <= i < |vs[1..]| && sv.satisfies(vs[1..][i], version) && sv.gt(vs[1..][i], aversion).Err? &&
                 forall j | 0 <= j < i :: Miss(sv, vs[1..][j], version, aversion);
        assert forall j | 0 <= j < i + 1 :: Miss(sv, vs[j], version, aversion) by {
          forall j | 0 <= j < i + 1 ensures Miss(sv, vs[j], version, aversion) {
            if j > 0 { assert vs[j] == vs[1..][j - 1]; }
          }
        }
        assert vs[i + 1] == vs[1..][i];
      } else if rest.value.Some? {
        var k := rest.value.value;
        forall j | 0 <= j < k + 1 ensures Miss(sv, vs[j], version, aversion) {
          if j > 0 { assert vs[j] == vs[1..][j - 1]; }
        }
      } else {
        forall j | 0 <= j < |vs| ensures Miss(sv, vs[j], version, aversion) {
          if j > 0 { assert vs[j] == vs[1..][j - 1]; }
        }
      }
    }
  }

  /**
   * PackageManager.js:345-356, 408-419: the first acceptable release in
   * `versionsList` order marks the record, whatever later releases hold.
   */
  function ScanRule(pkg: Json, packages: Json, at: seq<string>, versionsList: Json, version: Json, aversion: Json, sv: SemverCalls): (r: Result<(Json, Json)>)
    requires pkg.Obj?
    ensures r.Ok? ==> r.value.0.Obj?
    ensures r.Ok? ==> versionsList.Arr? && FirstMatch(versionsList.items, version, aversion, sv).Ok?
    ensures r.Ok? ==> match FirstMatch(versionsList.items, version, aversion, sv).value
                      case None => r.value == (pkg, packages)
                      case Some(i) => Marked(pkg, packages, at, versionsList.items[i], r.value)
  {
    match versionsList
    case Arr(items) =>
      var found :- FirstMatch(items, version, aversion, sv);
      (match found
       case None => Ok((pkg, packages))
       case Some(i) => Mark(pkg, packages, at, items[i]))
    case Undefined => Err("TypeError: Cannot read property 'some' of undefined")
    case Null => Err("TypeError: Cannot read property 'some' of null")
    case _ => Err("TypeError: versionsList.some is not a function")
  }

  /** Type-1 records under a group root: the tag rule, then the range scan. */
  function TagThenScan(pkg: Json, packages: Json, at: seq<string>, rec: Json, version: Json, aversion: Json, sv: SemverCalls): (r: Result<(Json, Json)>)
    requires pkg.Obj? && !rec.Undefined? && !rec.Null?
  {
    var distTags := Get(rec, "dist-tags");
    var versionsList := Get(rec, "versionsList");
    var tagged :- TagRule(pkg, packages, at, distTags, version, aversion, sv);
    ScanRule(tagged.0, tagged.1, at, versionsList, version, aversion, sv)
  }

  /** Marking twice leaves the second release. */
  lemma AnnotateTwice(rec: Json, a: Json, b: Json)
    requires rec.Obj?
    ensures Annotate(Annotate(rec, a), b) == Annotate(rec, b)
  {
  }

  // ---------------------------------------------------------------------
  // What a record is marked with, stated directly

  /** Which of the two rules a record follows. */
  datatype Rule = LatestTag | TagThenRange

  /**
   * The release record `pkg` is marked with against catalog record `rec`,
   * `None` when it stays as stored: for `LatestTag`, the `latest` tag when
   * it is newer than `aversion`; for `TagThenRange`, the first acceptable
   * entry of `versionsList`, else the tag named by `version` when it is
   * newer than `aversion`.
   */
  function NewestRelease(rule: Rule, rec: Json, version: Json, aversion: Json, sv: SemverCalls): (r: Result<Option<Json>>)
    requires !rec.Undefined? && !rec.Null?
    ensures r.Ok? && r.value.Some? ==> sv.gt(r.value.value, aversion) == Ok(true)
    ensures rule == LatestTag && r.Ok? && r.value.Some? ==> Member(Get(rec, "dist-tags"), "latest") == Ok(r.value.value)
    ensures rule == TagThenRange && r.Ok? && r.value.Some? ==>
              || (Get(rec, "versionsList").Arr? && r.value.value in Get(rec, "versionsList").items &&
                  sv.satisfies(r.value.value, version))
              || Member(Get(rec, "dist-tags"), ToKey(version)) == Ok(r.value.value)
  {
    var distTags := Get(rec, "dist-tags");
    match rule
    case LatestTag =>
      var latest :- Member(distTags, "latest");
      var newer :- sv.gt(latest, aversion);
      Ok(if newer then Some(latest) else None)
    case TagThenRange =>
      var tagged :- TagRelease(distTags, version, aversion, sv);
      var versionsList := Get(rec, "versionsList");
      if !versionsList.Arr? then Err("TypeError: versionsList.some is not a function")
      else
        var found :- FirstMatch(versionsList.items, version, aversion, sv);
        Ok(if found.Some? then Some(versionsList.items[found.value]) else tagged)
  }

  /** The tag named by `version`, when it is newer than `aversion`. */
  function TagRelease(distTags: Json, version: Json, aversion: Json, sv: SemverCalls): (r: Result<Option<Json>>)
    ensures r.Ok? && r.value.Some? ==>
              sv.gt(r.value.value, aversion) == Ok(true) && Member(distTags, ToKey(version)) == Ok(r.value.value)
  {
    var tag :- Member(distTags, ToKey(version));
    var newer :- if Truthy(tag) then sv.gt(tag, aversion) else Ok(false);
    Ok(if newer then Some(tag) else None)
  }

  /** A record after the rules: marked with the release, or unchanged. */
  function Outcome(rec: Json, release: Option<Json>): Json
    requires rec.Obj?
  {
    match release
    case None => rec
    case Some(v) => Annotate(rec, v)
  }

  /** The rules applied to one record, as the loops do. */
  function ApplyRule(rule: Rule, pkg: Json, packages: Json, at: seq<string>, rec: Json, version: Json, aversion: Json, sv: SemverCalls): Result<(Json, Json)>
    requires pkg.Obj? && !rec.Undefined? && !rec.Null?
  {
    match rule
    case LatestTag => LatestRule(pkg, packages, at, Get(rec, "dist-tags"), aversion, sv)
    case TagThenRange => TagThenScan(pkg, packages, at, rec, version, aversion, sv)
  }

  /**
   * The loops' rules agree with `NewestRelease`: the installed record and
   * its catalog copy at `at` come out marked with the same release, or both
   * unchanged, nothing else in the catalog changes, and the rules fail
   * exactly when `NewestRelease` does.
   */
  lemma ApplyRuleMarksNewest(rule: Rule, pkg: Json, packages: Json, at: seq<string>, version: Json, aversion: Json, sv: SemverCalls)
    requires pkg.Obj? && Files(packages, at) && RecordAt(packages, at).Obj?
    ensures var rec := RecordAt(packages, at);
            var r := ApplyRule(rule, pkg, packages, at, rec, version, aversion, sv);
            var n := NewestRelease(rule, rec, version, aversion, sv);
            (r.Ok? <==> n.Ok?) &&
            (r.Ok? ==> r.value == (Outcome(pkg, n.value), ReplaceRecord(packages, at, Outcome(rec, n.value))))
  {
    match rule
    case LatestTag =>
      LatestMarksNewest(pkg, packages, at, version, aversion, sv);
    case TagThenRange =>
      RangeMarksNewest(pkg, packages, at, version, aversion, sv);
  }

  lemma LatestMarksNewest(pkg: Json, packages: Json, at: seq<string>, version: Json, aversion: Json, sv: SemverCalls)
    requires pkg.Obj? && Files(packages, at) && RecordAt(packages, at).Obj?
    ensures var rec := RecordAt(packages, at);
            var r := LatestRule(pkg, packages, at, Get(rec, "dist-tags"), aversion, sv);
            var n := NewestRelease(LatestTag, rec, version, aversion, sv);
            (r.Ok? <==> n.Ok?) &&
            (r.Ok? ==> r.value == (Outcome(pkg, n.value), ReplaceRecord(packages, at, Outcome(rec, n.value))))
  {
    var rec := RecordAt(packages, at);
    var latest := Member(Get(rec, "dist-tags"), "latest");
    var r := LatestRule(pkg, packages, at, Get(rec, "dist-tags"), aversion, sv);
    if latest.Err? || sv.gt(latest.value, aversion).Err? {
      assert r.Err?;
    } else if sv.gt(latest.value, aversion).value {
      MarkReplaces(pkg, packages, at, latest.value);
      assert r == Mark(pkg, packages, at, latest.value);
    } else {
      ReplaceSame(packages, at);
      assert r == Ok((pkg, packages));
    }
  }

  lemma RangeMarksNewest(pkg: Json, packages: Json, at: seq<string>, version: Json, aversion: Json, sv: SemverCalls)
    requires pkg.Obj? && Files(packages, at) && RecordAt(packages, at).Obj?
    ensures var rec := RecordAt(packages, at);
            var r := TagThenScan(pkg, packages, at, rec, version, aversion, sv);
            var n := NewestRelease(TagThenRange, rec, version, aversion, sv);
            (r.Ok? <==> n.Ok?) &&
            (r.Ok? ==> r.value == (Outcome(pkg, n.value), ReplaceRecord(packages, at, Outcome(rec, n.value))))
  {
    var rec := RecordAt(packages, at);
    var distTags := Get(rec, "dist-tags");
    TagStep(pkg, packages, at, distTags, version, aversion, sv);
    var t := TagRelease(distTags, version, aversion, sv);
    if t.Err? {
      return;
    }
    var tagged := TagRule(pkg, packages, at, distTags, version, aversion, sv).value;
    var versionsList := Get(rec, "versionsList");
    ScanStep(tagged.0, tagged.1, at, pkg, packages, t.value, versionsList, version, aversion, sv);
    assert TagThenScan(pkg, packages, at, rec, version, aversion, sv) ==
           ScanRule(tagged.0, tagged.1, at, versionsList, version, aversion, sv);
  }

  /** The tag rule leaves both copies as `TagRelease` says, or fails with it. */
  lemma TagStep(pkg: Json, packages: Json, at: seq<string>, distTags: Json, version: Json, aversion: Json, sv: SemverCalls)
    requires pkg.Obj? && Files(packages, at) && RecordAt(packages, at).Obj?
    ensures var r := TagRule(pkg, packages, at, distTags, version, aversion, sv);
            var t := TagRelease(distTags, version, aversion, sv);
            (r.Ok? <==> t.Ok?) &&
            (r.Ok? ==> r.value == (Outcome(pkg, t.value), ReplaceRecord(packages, at, Outcome(RecordAt(packages, at), t.value))))
  {
    var tag := Member(distTags, ToKey(version));
    if tag.Ok? && Truthy(tag.value) && sv.gt(tag.value, aversion) == Ok(true) {
      MarkReplaces(pkg, packages, at, tag.value);
    } else {
      ReplaceSame(packages, at);
    }
  }

  /** The range scan after the tag rule has left `tagOutcome`. */
  lemma ScanStep(pkg1: Json, packages1: Json, at: seq<string>, pkg: Json, packages: Json, tagOutcome: Option<Json>,
                 versionsList: Json, version: Json, aversion: Json, sv: SemverCalls)
    requires pkg.Obj? && Files(packages, at) && RecordAt(packages, at).Obj? && pkg1 == Outcome(pkg, tagOutcome)
    requires packages1 == ReplaceRecord(packages, at, Outcome(RecordAt(packages, at), tagOutcome))
    ensures var r := ScanRule(pkg1, packages1, at, versionsList, version, aversion, sv);
            r.Ok? ==> (versionsList.Arr? && FirstMatch(versionsList.items, version, aversion, sv).Ok? &&
                       var found := FirstMatch(versionsList.items, version, aversion, sv).value;
                       var n := if found.Some? then Some(versionsList.items[found.value]) else tagOutcome;
                       r.value == (Outcome(pkg, n), ReplaceRecord(packages, at, Outcome(RecordAt(packages, at), n))))
    ensures versionsList.Arr? && FirstMatch(versionsList.items, version, aversion, sv).Ok? ==>
              ScanRule(pkg1, packages1, at, versionsList, version, aversion, sv).Ok?
  {
    var rec := RecordAt(packages, at);
    if versionsList.Arr? {
      var m := FirstMatch(versionsList.items, version, aversion, sv);
      if m.Ok? && m.value.Some? {
        var v := versionsList.items[m.value.value];
        MarkReplaces(pkg1, packages1, at, v);
        ReplaceTwice(packages, at, Outcome(rec, tagOutcome), Annotate(Outcome(rec, tagOutcome), v));
        if tagOutcome.Some? {
          AnnotateTwice(pkg, tagOutcome.value, v);
          AnnotateTwice(rec, tagOutcome.value, v);
        }
      }
    }
  }

  // ---------------------------------------------------------------------
  // One installed record

  /** A record with a numeric `type` is an object. */
  lemma TypedIsObject(pkg: Json, typ: Json)
    requires Member(pkg, "type") == Ok(typ) && typ.Num?
    ensures pkg.Obj?
  {
    assert ParseIndex("type").None? by { assert !IsDigit("type"[0]); }
  }

  /**
   * PackageManager.js:297-361: record `pkg` of project `project`.  Type 0
   * and type 1 records are removed from the uninstalled view, given the
   * installed `path` in the catalog view, and marked; type 0 follows the
   * latest tag and its catalog entry is under `Project`; type 1 follows the
   * tag-then-range rule and its catalog entry is looked up under `Plugin`.
   * Records of any other type pass through unchanged.
   */
  function ProjectItem(project: string, pkg: Json, c: Copies, sv: SemverCalls): (r: Result<(Json, Copies)>)
    ensures pkg.Undefined? || pkg.Null? ==> r.Err?
    ensures r.Ok? && !pkg.Undefined? && !pkg.Null? &&
            !(StrictEq(Get(pkg, "type"), Num(0)) || StrictEq(Get(pkg, "type"), Num(1))) ==>
              r.value == (pkg, c)
    ensures r.Ok? && !pkg.Undefined? && !pkg.Null? &&
            (StrictEq(Get(pkg, "type"), Num(0)) || StrictEq(Get(pkg, "type"), Num(1))) ==>
              var name := Get(pkg, "name");
              DeleteIn(c.backup, if StrictEq(Str(project), name) then ["Project", project]
                                 else ["Project", project, ToKey(name)]) == Ok(r.value.1.backup)
  {
    var typ :- Member(pkg, "type");
    var version := Get(pkg, "version");
    var aversion := Get(pkg, "aversion");
    if !(StrictEq(typ, Num(0)) || StrictEq(typ, Num(1))) then Ok((pkg, c))
    else
      TypedIsObject(pkg, typ);
      var name := Get(pkg, "name");
      var key := ToKey(name);
      var backup :- if StrictEq(Str(project), name) then DeleteIn(c.backup, ["Project", project])
                    else DeleteIn(c.backup, ["Project", project, key]);
      var at := [if StrictEq(typ, Num(0)) then "Project" else "Plugin", project, key];
      var packages :- SetIn(c.packages, at + ["path"], OrElse(Get(pkg, "path"), Str("")));
      SetInField(c.packages, at, "path", OrElse(Get(pkg, "path"), Str("")));
      var rec := GetIn(packages, at).value;
      var marked :- ApplyRule(if StrictEq(typ, Num(0)) then LatestTag else TagThenRange,
                              pkg, packages, at, rec, version, aversion, sv);
      Ok((marked.0, Copies(marked.1, backup)))
  }

  /**
   * PackageManager.js:372-424: record `pkg` filed as `item` of plugin
   * `plugin`.  Every record is removed from the uninstalled view and must
   * have a catalog entry under `Plugin`; a type-1 root follows the latest
   * tag, a type-1 child the tag-then-range rule.
   */
  function PluginItem(plugin: string, item: string, pkg: Json, c: Copies, sv: SemverCalls): (r: Result<(Json, Copies)>)
    ensures pkg.Undefined? || pkg.Null? ==> r.Err?
    ensures r.Ok? && !pkg.Undefined? && !pkg.Null? ==>
              var name := Get(pkg, "name");
              var rec := GetIn(c.packages, ["Plugin", plugin, ToKey(name)]);
              rec.Ok? && !rec.value.Undefined? && !rec.value.Null? &&
              DeleteIn(c.backup, if StrictEq(Str(plugin), name) then ["Plugin", plugin]
                                 else ["Plugin", plugin, ToKey(name)]) == Ok(r.value.1.backup)
    ensures r.Ok? && !pkg.Undefined? && !pkg.Null? && !StrictEq(Get(pkg, "type"), Num(1)) ==>
              r.value.0 == pkg && r.value.1.packages == c.packages
  {
    var name :- Member(pkg, "name");
    var key := ToKey(name);
    var backup :- if StrictEq(Str(plugin), name) then DeleteIn(c.backup, ["Plugin", plugin])
                  else DeleteIn(c.backup, ["Plugin", plugin, key]);
    var typ := Get(pkg, "type");
    var version := Get(pkg, "version");
    var aversion := Get(pkg, "aversion");
    var at := ["Plugin", plugin, key];
    var rec :- GetIn(c.packages, at);
    var versionsList :- Member(rec, "versionsList");
    if StrictEq(typ, Num(1)) then
      TypedIsObject(pkg, typ);
      var marked :- ApplyRule(if plugin == item then LatestTag else TagThenRange,
                              pkg, c.packages, at, rec, version, aversion, sv);
      Ok((marked.0, Copies(marked.1, backup)))
    else Ok((pkg, Copies(c.packages, backup)))
  }

  // ---------------------------------------------------------------------
  // The two loops

  /** Which taxonomy of the installed tree a loop walks. */
  datatype Loop = ProjectLoop | PluginLoop

  function ItemStep(loop: Loop, owner: string, item: string, pkg: Json, c: Copies, sv: SemverCalls): Result<(Json, Copies)>
  {
    match loop
    case ProjectLoop => ProjectItem(owner, pkg, c, sv)
    case PluginLoop => PluginItem(owner, item, pkg, c, sv)
  }

  /** The inner `reduce` (PackageManager.js:296-362, 371-425): group `g` of `owner`, its first `items` rebuilt. */
  function GroupSteps(loop: Loop, owner: string, g: Json, items: seq<string>, c: Copies, sv: SemverCalls): (r: Result<(Json, Copies)>)
    requires !g.Undefined? && !g.Null?
    ensures r.Ok? ==> r.value.0.Obj?
  {
    if items == [] then Ok((EmptyObj, c))
    else
      var prev :- GroupSteps(loop, owner, g, items[..|items| - 1], c, sv);
      var item := items[|items| - 1];
      var next :- ItemStep(loop, owner, item, Get(g, item), prev.1, sv);
      Ok((Put(prev.0, item, next.0), next.1))
  }

  /** The outer `reduce` (PackageManager.js:294-367, 369-430): the first `owners` of taxonomy object `obj`. */
  function OwnerSteps(loop: Loop, obj: Json, owners: seq<string>, c: Copies, sv: SemverCalls): (r: Result<(Json, Copies)>)
    requires !obj.Undefined? && !obj.Null?
    ensures r.Ok? ==> r.value.0.Obj?
  {
    if owners == [] then Ok((EmptyObj, c))
    else
      var prev :- OwnerSteps(loop, obj, owners[..|owners| - 1], c, sv);
      OwnerStep(loop, obj, owners[|owners| - 1], prev, sv)
  }

  /** One turn of the outer `reduce`: `owner`'s group rebuilt and filed into the accumulator `prev`. */
  function OwnerStep(loop: Loop, obj: Json, owner: string, prev: (Json, Copies), sv: SemverCalls): (r: Result<(Json, Copies)>)
    requires !obj.Undefined? && !obj.Null? && prev.0.Obj?
    ensures r.Ok? ==> r.value.0.Obj?
  {
    var g := Get(obj, owner);
    var items :- ObjectKeys(g);
    var group :- GroupSteps(loop, owner, g, items, prev.1, sv);
    Ok((Put(prev.0, owner, group.0), group.1))
  }

  /** The inner `reduce` one item further: the item's step extends the group, or its failure is the group's outcome. */
  lemma GroupStepsNext(loop: Loop, owner: string, g: Json, items: seq<string>, j: nat, c: Copies, sv: SemverCalls)
    requires !g.Undefined? && !g.Null? && j < |items| && GroupSteps(loop, owner, g, items[..j], c, sv).Ok?
    ensures var prev := GroupSteps(loop, owner, g, items[..j], c, sv).value;
            var next := ItemStep(loop, owner, items[j], Get(g, items[j]), prev.1, sv);
            (next.Err? ==> GroupSteps(loop, owner, g, items, c, sv) == Err(next.error)) &&
            (next.Ok? ==> GroupSteps(loop, owner, g, items[..j + 1], c, sv) == Ok((Put(prev.0, items[j], next.value.0), next.value.1)))
  {
    assert items[..j + 1][..j] == items[..j];
    var prev := GroupSteps(loop, owner, g, items[..j], c, sv).value;
    if ItemStep(loop, owner, items[j], Get(g, items[j]), prev.1, sv).Err? {
      GroupStepsErr(loop, owner, g, items, j + 1, c, sv);
    }
  }

  /** The outer `reduce` one owner further: the owner's step extends the taxonomy, or its failure is the taxonomy's outcome. */
  lemma OwnerStepsNext(loop: Loop, obj: Json, owners: seq<string>, i: nat, c: Copies, sv: SemverCalls)
    requires !obj.Undefined? && !obj.Null? && i < |owners| && OwnerSteps(loop, obj, owners[..i], c, sv).Ok?
    ensures var next := OwnerStep(loop, obj, owners[i], OwnerSteps(loop, obj, owners[..i], c, sv).value, sv);
            (next.Err? ==> OwnerSteps(loop, obj, owners, c, sv) == next) &&
            (next.Ok? ==> OwnerSteps(loop, obj, owners[..i + 1], c, sv) == next)
  {
    assert owners[..i + 1][..i] == owners[..i];
    if OwnerStep(loop, obj, owners[i], OwnerSteps(loop, obj, owners[..i], c, sv).value, sv).Err? {
      OwnerStepsErr(loop, obj, owners, i + 1, c, sv);
    }
  }

  /** A failure part-way through a group's items is the group's outcome. */
  lemma {:induction false} GroupStepsErr(loop: Loop, owner: string, g: Json, items: seq<string>, j: nat, c: Copies, sv: SemverCalls)
    requires !g.Undefined? && !g.Null?
    requires j <= |items| && GroupSteps(loop, owner, g, items[..j], c, sv).Err?
    ensures GroupSteps(loop, owner, g, items, c, sv) == GroupSteps(loop, owner, g, items[..j], c, sv)
    decreases |items|
  {
    if j < |items| {
      assert items[..|items| - 1][..j] == items[..j];
      GroupStepsErr(loop, owner, g, items[..|items| - 1], j, c, sv);
    } else {
      assert items[..j] == items;
    }
  }

  /** A failure part-way through a taxonomy's owners is the taxonomy's outcome. */
  lemma {:induction false} OwnerStepsErr(loop: Loop, obj: Json, owners: seq<string>, i: nat, c: Copies, sv: SemverCalls)
    requires !obj.Undefined? && !obj.Null?
    requires i <= |owners| && OwnerSteps(loop, obj, owners[..i], c, sv).Err?
    ensures OwnerSteps(loop, obj, owners, c, sv) == OwnerSteps(loop, obj, owners[..i], c, sv)
    decreases |owners|
  {
    if i < |owners| {
      assert owners[..|owners| - 1][..i] == owners[..i];
      OwnerStepsErr(loop, obj, owners[..|owners| - 1], i, c, sv);
    } else {
      assert owners[..i] == owners;
    }
  }

  /**
   * PackageManager.js:285-439: the three views from catalog `p` and the
   * installed view `installed`, or the error that sends the search to its
   * `catch`.
   */
  function Reconcile(p: Json, installed: Json, sv: SemverCalls): (r: Result<Views>)
    ensures IsEmptyObj(installed) ==> r == Ok(Views(p, p, installed))
  {
    if IsEmptyObj(installed) then Ok(Views(p, p, installed))
    else
      var projectsObj := OrElse(Get(installed, "Project"), EmptyObj);
      var pluginsObj := OrElse(Get(installed, "Plugin"), EmptyObj);
      var projects := ObjectKeys(projectsObj).value;
      var plugins := ObjectKeys(pluginsObj).value;
      var pr :- OwnerSteps(ProjectLoop, projectsObj, projects, Copies(p, p), sv);
      var installed1 :- SetProp(installed, "Project", pr.0);
      var pl :- OwnerSteps(PluginLoop, pluginsObj, plugins, pr.1, sv);
      var installed2 := Put(installed1, "Plugin", pl.0);
      Ok(Views(pl.1.packages, pl.1.backup, installed2))
  }

  // ---------------------------------------------------------------------
  // The catalog view keeps what the rules read

  /** A catalog: an object of taxonomies, each an object of groups, each an object of records. */
  predicate CatalogShape(p: Json)
  {
    p.Obj? &&
    forall t | t in p.fields :: p.fields[t].Obj? &&
      forall g | g in p.fields[t].fields :: p.fields[t].fields[g].Obj? &&
        forall k | k in p.fields[t].fields[g].fields :: p.fields[t].fields[g].fields[k].Obj?
  }

  /** What the rules read from a catalog record. */
  predicate SameRuleFields(a: Json, b: Json)
    requires a.Obj? && b.Obj?
  {
    Get(a, "dist-tags") == Get(b, "dist-tags") && Get(a, "versionsList") == Get(b, "versionsList")
  }

  /** Two groups file the same records, with the same fields the rules read. */
  predicate SameGroup(pg: Json, qg: Json)
  {
    pg.Obj? && qg.Obj? && pg.fields.Keys == qg.fields.Keys &&
    forall k | k in pg.fields :: pg.fields[k].Obj? && qg.fields[k].Obj? && SameRuleFields(pg.fields[k], qg.fields[k])
  }

  /** Two taxonomies hold the same groups, each the same. */
  predicate SameTaxonomy(pt: Json, qt: Json)
  {
    pt.Obj? && qt.Obj? && pt.fields.Keys == qt.fields.Keys &&
    forall g | g in pt.fields :: SameGroup(pt.fields[g], qt.fields[g])
  }

  /** `q` files the same records as catalog `p`, with the same fields the rules read. */
  predicate SameCatalog(p: Json, q: Json)
  {
    p.Obj? && q.Obj? && p.fields.Keys == q.fields.Keys &&
    forall t | t in p.fields :: SameTaxonomy(p.fields[t], q.fields[t])
  }

  /** Every catalog is the same as itself, and what is the same as a catalog is one. */
  lemma SameCatalogShape(p: Json, q: Json)
    ensures CatalogShape(p) ==> SameCatalog(p, p)
    ensures SameCatalog(p, q) ==> CatalogShape(p) && CatalogShape(q)
  {
    if CatalogShape(p) {
      forall t | t in p.fields
        ensures SameTaxonomy(p.fields[t], p.fields[t])
      {
        forall g | g in p.fields[t].fields
          ensures SameGroup(p.fields[t].fields[g], p.fields[t].fields[g])
        {
        }
      }
    }
    if SameCatalog(p, q) {
      forall t | t in q.fields
        ensures q.fields[t].Obj? &&
          forall g | g in q.fields[t].fields :: q.fields[t].fields[g].Obj? &&
            forall k | k in q.fields[t].fields[g].fields :: q.fields[t].fields[g].fields[k].Obj?
      {
        assert SameTaxonomy(p.fields[t], q.fields[t]);
        forall g | g in q.fields[t].fields
          ensures q.fields[t].fields[g].Obj? &&
            forall k | k in q.fields[t].fields[g].fields :: q.fields[t].fields[g].fields[k].Obj?
        {
          assert SameGroup(p.fields[t].fields[g], q.fields[t].fields[g]);
        }
      }
      forall t | t in p.fields
        ensures p.fields[t].Obj? &&
          forall g | g in p.fields[t].fields :: p.fields[t].fields[g].Obj? &&
            forall k | k in p.fields[t].fields[g].fields :: p.fields[t].fields[g].fields[k].Obj?
      {
        assert SameTaxonomy(p.fields[t], q.fields[t]);
        forall g | g in p.fields[t].fields
          ensures p.fields[t].fields[g].Obj? &&
            forall k | k in p.fields[t].fields[g].fields :: p.fields[t].fields[g].fields[k].Obj?
        {
          assert SameGroup(p.fields[t].fields[g], q.fields[t].fields[g]);
        }
      }
    }
  }

  /** The record at `at` of a catalog, when it files one. */
  predicate Files(q: Json, at: seq<string>)
  {
    |at| == 3 && q.Obj? && at[0] in q.fields && q.fields[at[0]].Obj? &&
    at[1] in q.fields[at[0]].fields && q.fields[at[0]].fields[at[1]].Obj? &&
    at[2] in q.fields[at[0]].fields[at[1]].fields
  }

  /** In a catalog, a path reaches a record object exactly when the catalog files it. */
  lemma CatalogPath(q: Json, at: seq<string>)
    requires CatalogShape(q) && |at| == 3
    ensures (GetIn(q, at).Ok? && GetIn(q, at).value.Obj?) <==> Files(q, at)
    ensures Files(q, at) <==> ObjectsAlong(q, at)
    ensures Files(q, at) ==> GetIn(q, at) == Ok(q.fields[at[0]].fields[at[1]].fields[at[2]])
    ensures GetIn(q, at).Ok? ==> Files(q, at) || GetIn(q, at).value.Undefined?
  {
    var a, b, c := at[0], at[1], at[2];
    assert at[1..] == [b, c] && [b, c][1..] == [c] && [c][1..] == [];
    assert GetIn(q, at) == (var x := Member(q, a).value; GetIn(x, [b, c]));
    if a !in q.fields {
      assert GetIn(Undefined, [b, c]).Err?;
      return;
    }
    var qt := q.fields[a];
    assert GetIn(qt, [b, c]) == (var x := Member(qt, b).value; GetIn(x, [c]));
    if b !in qt.fields {
      assert GetIn(Undefined, [c]).Err?;
      return;
    }
    var qg := qt.fields[b];
    assert GetIn(qg, [c]) == Ok(Member(qg, c).value);
    assert ObjectsAlong(q, at) == ObjectsAlong(qt, [b, c]);
    assert ObjectsAlong(qt, [b, c]) == ObjectsAlong(qg, [c]);
    if c in qg.fields {
      assert ObjectsAlong(qg, [c]) == ObjectsAlong(qg.fields[c], []);
    }
  }

  /** The record a catalog files at `at`. */
  function RecordAt(q: Json, at: seq<string>): Json
    requires Files(q, at)
  {
    q.fields[at[0]].fields[at[1]].fields[at[2]]
  }

  /** Catalog `q` with its record at `at` replaced by `rec`. */
  function ReplaceRecord(q: Json, at: seq<string>, rec: Json): (r: Json)
    requires Files(q, at)
    ensures Files(r, at) && RecordAt(r, at) == rec
  {
    var qt := q.fields[at[0]];
    var qg := qt.fields[at[1]];
    Put(q, at[0], Put(qt, at[1], Put(qg, at[2], rec)))
  }

  /** A second replacement at the same place overrides the first. */
  lemma ReplaceTwice(q: Json, at: seq<string>, a: Json, b: Json)
    requires Files(q, at)
    ensures ReplaceRecord(ReplaceRecord(q, at, a), at, b) == ReplaceRecord(q, at, b)
  {
    var qt := q.fields[at[0]];
    var qg := qt.fields[at[1]];
    var ga, gb := Put(qg, at[2], a), Put(qg, at[2], b);
    var ta, tb := Put(qt, at[1], ga), Put(qt, at[1], gb);
    assert qg.fields[at[2] := a][at[2] := b] == qg.fields[at[2] := b];
    assert qt.fields[at[1] := ga][at[1] := gb] == qt.fields[at[1] := gb];
    assert q.fields[at[0] := ta][at[0] := tb] == q.fields[at[0] := tb];
  }

  /** Replacing a record by itself changes nothing. */
  lemma ReplaceSame(q: Json, at: seq<string>)
    requires Files(q, at)
    ensures ReplaceRecord(q, at, RecordAt(q, at)) == q
  {
    var qt := q.fields[at[0]];
    var qg := qt.fields[at[1]];
    assert qg.fields[at[2] := qg.fields[at[2]]] == qg.fields;
    assert qt.fields[at[1] := qg] == qt.fields;
    assert q.fields[at[0] := qt] == q.fields;
  }

  /** Replacing a filed record by one with the same rule fields keeps a group the same. */
  lemma ReplaceInGroup(pg: Json, qg: Json, k: string, rec: Json)
    requires SameGroup(pg, qg) && k in qg.fields && rec.Obj? && SameRuleFields(qg.fields[k], rec)
    ensures SameGroup(pg, Put(qg, k, rec))
  {
    var qg' := Put(qg, k, rec);
    forall j | j in pg.fields
      ensures pg.fields[j].Obj? && qg'.fields[j].Obj? && SameRuleFields(pg.fields[j], qg'.fields[j])
    {
      if j != k {
        assert qg'.fields[j] == qg.fields[j];
      }
    }
  }

  /** Replacing a group by a same one keeps a taxonomy the same. */
  lemma ReplaceInTaxonomy(pt: Json, qt: Json, g: string, qg: Json)
    requires SameTaxonomy(pt, qt) && g in qt.fields && SameGroup(pt.fields[g], qg)
    ensures SameTaxonomy(pt, Put(qt, g, qg))
  {
    var qt' := Put(qt, g, qg);
    forall h | h in pt.fields
      ensures SameGroup(pt.fields[h], qt'.fields[h])
    {
      if h != g {
        assert qt'.fields[h] == qt.fields[h];
      }
    }
  }

  /** Replacing a taxonomy by a same one keeps the catalog the same. */
  lemma ReplaceInCatalog(p: Json, q: Json, t: string, qt: Json)
    requires SameCatalog(p, q) && t in q.fields && SameTaxonomy(p.fields[t], qt)
    ensures SameCatalog(p, Put(q, t, qt))
  {
    var q' := Put(q, t, qt);
    forall u | u in p.fields
      ensures SameTaxonomy(p.fields[u], q'.fields[u])
    {
      if u != t {
        assert q'.fields[u] == q.fields[u];
      }
    }
  }

  /** Replacing a record by one with the same rule fields keeps the catalog the same. */
  lemma ReplaceKeepsCatalog(p: Json, q: Json, at: seq<string>, rec: Json)
    requires SameCatalog(p, q) && Files(q, at) && rec.Obj?
    requires SameRuleFields(q.fields[at[0]].fields[at[1]].fields[at[2]], rec)
    ensures SameCatalog(p, ReplaceRecord(q, at, rec)) && Files(ReplaceRecord(q, at, rec), at)
    ensures var q' := ReplaceRecord(q, at, rec);
            q'.fields[at[0]].fields[at[1]].fields[at[2]] == rec
  {
    var pt, qt := p.fields[at[0]], q.fields[at[0]];
    var pg, qg := pt.fields[at[1]], qt.fields[at[1]];
    assert SameTaxonomy(pt, qt);
    assert SameGroup(pg, qg);
    ReplaceInGroup(pg, qg, at[2], rec);
    ReplaceInTaxonomy(pt, qt, at[1], Put(qg, at[2], rec));
    ReplaceInCatalog(p, q, at[0], Put(qt, at[1], Put(qg, at[2], rec)));
  }

  /** Writing field `f` of a filed record, spelled out. */
  lemma SetRecordField(q: Json, at: seq<string>, f: string, v: Json)
    requires Files(q, at) && RecordAt(q, at).Obj?
    ensures SetIn(q, at + [f], v) == Ok(ReplaceRecord(q, at, Put(RecordAt(q, at), f, v)))
  {
    var qt := q.fields[at[0]];
    var qg := qt.fields[at[1]];
    var rec := qg.fields[at[2]];
    var path := at + [f];
    assert path[1..] == [at[1], at[2], f] && path[1..][1..] == [at[2], f] && path[1..][1..][1..] == [f];
    assert SetIn(qg, [at[2], f], v) == WriteBack(qg, at[2], Put(rec, f, v));
    WriteBackPut(qg, at[2], Put(rec, f, v));
    WriteBackPut(qt, at[1], Put(qg, at[2], Put(rec, f, v)));
    WriteBackPut(q, at[0], Put(qt, at[1], Put(qg, at[2], Put(rec, f, v))));
  }

  /** A field write into a catalog succeeds only at a record it files. */
  lemma SetFieldNeedsRecord(q: Json, at: seq<string>, f: string, v: Json)
    requires CatalogShape(q) && |at| == 3
    ensures SetIn(q, at + [f], v).Ok? ==> Files(q, at)
  {
    if SetIn(q, at + [f], v).Ok? {
      SetInField(q, at, f, v);
      CatalogPath(q, at);
    }
  }

  /** Writing a field the rules do not read into a filed record keeps the catalog the same. */
  lemma SetOtherFiledField(p: Json, q: Json, at: seq<string>, f: string, v: Json)
    requires SameCatalog(p, q) && Files(q, at) && f != "dist-tags" && f != "versionsList"
    ensures SetIn(q, at + [f], v).Ok?
    ensures SameCatalog(p, SetIn(q, at + [f], v).value) && Files(SetIn(q, at + [f], v).value, at)
  {
    SameCatalogFiles(p, q, at);
    var rec := RecordAt(q, at);
    SetRecordField(q, at, f, v);
    PutKeepsRuleFields(rec, f, v);
    ReplaceKeepsCatalog(p, q, at, Put(rec, f, v));
  }

  /** Writing a field the rules do not read keeps a record's rule fields. */
  lemma PutKeepsRuleFields(rec: Json, f: string, v: Json)
    requires rec.Obj? && f != "dist-tags" && f != "versionsList"
    ensures Put(rec, f, v).Obj? && SameRuleFields(rec, Put(rec, f, v))
  {
  }

  /** Writing a field the rules do not read keeps the catalog the same. */
  lemma SetOtherField(p: Json, q: Json, at: seq<string>, f: string, v: Json)
    requires SameCatalog(p, q) && |at| == 3 && f != "dist-tags" && f != "versionsList"
    ensures SetIn(q, at + [f], v).Ok? <==> Files(q, at)
    ensures SetIn(q, at + [f], v).Ok? ==> SameCatalog(p, SetIn(q, at + [f], v).value) && Files(SetIn(q, at + [f], v).value, at)
  {
    SameCatalogShape(p, q);
    SetFieldNeedsRecord(q, at, f, v);
    if Files(q, at) {
      SetOtherFiledField(p, q, at, f, v);
    }
  }

  /** Catalogs that are the same file the same records, with the same rule fields. */
  lemma SameCatalogFiles(p: Json, q: Json, at: seq<string>)
    requires SameCatalog(p, q) && |at| == 3
    ensures Files(p, at) <==> Files(q, at)
    ensures Files(q, at) ==> RecordAt(p, at).Obj? && RecordAt(q, at).Obj? && SameRuleFields(RecordAt(p, at), RecordAt(q, at))
  {
    if at[0] in p.fields {
      assert SameTaxonomy(p.fields[at[0]], q.fields[at[0]]);
      if at[1] in p.fields[at[0]].fields {
        assert SameGroup(p.fields[at[0]].fields[at[1]], q.fields[at[0]].fields[at[1]]);
      }
    }
  }

  /** Marking writes only fields the rules do not read. */
  lemma OutcomeKeepsRuleFields(rec: Json, n: Option<Json>)
    requires rec.Obj?
    ensures Outcome(rec, n).Obj? && SameRuleFields(rec, Outcome(rec, n))
  {
  }

  /** `NewestRelease` reads only the rule fields of a record. */
  lemma NewestReadsRuleFields(rule: Rule, a: Json, b: Json, version: Json, aversion: Json, sv: SemverCalls)
    requires a.Obj? && b.Obj? && SameRuleFields(a, b)
    ensures NewestRelease(rule, a, version, aversion, sv) == NewestRelease(rule, b, version, aversion, sv)
  {
  }

  /**
   * On a catalog the same as `p`, the rules mark the installed record with
   * the newest release of `p`'s record at `at`, fail exactly when that
   * fails, and leave a catalog the same as `p`.
   */
  lemma RuleStepExpected(rule: Rule, pkg: Json, p: Json, packages: Json, at: seq<string>, version: Json, aversion: Json, sv: SemverCalls)
    requires SameCatalog(p, packages) && Files(packages, at) && pkg.Obj?
    ensures Files(p, at) && RecordAt(p, at).Obj?
    ensures var r := ApplyRule(rule, pkg, packages, at, RecordAt(packages, at), version, aversion, sv);
            var n := NewestRelease(rule, RecordAt(p, at), version, aversion, sv);
            (r.Ok? <==> n.Ok?) && (r.Ok? ==> r.value.0 == Outcome(pkg, n.value) && SameCatalog(p, r.value.1))
  {
    SameCatalogFiles(p, packages, at);
    var rec := RecordAt(packages, at);
    NewestReadsRuleFields(rule, RecordAt(p, at), rec, version, aversion, sv);
    ApplyRuleMarksNewest(rule, pkg, packages, at, version, aversion, sv);
    var n := NewestRelease(rule, rec, version, aversion, sv);
    if n.Ok? {
      OutcomeKeepsRuleFields(rec, n.value);
      ReplaceKeepsCatalog(p, packages, at, Outcome(rec, n.value));
    }
  }

  // ---------------------------------------------------------------------
  // The installed view, stated from the catalog alone

  /** The rule installed record `pkg` of `loop` follows; `None` when the loop passes it through unmarked. */
  function RuleOf(loop: Loop, owner: string, item: string, pkg: Json): Option<Rule>
    requires !pkg.Undefined? && !pkg.Null?
  {
    var typ := Get(pkg, "type");
    match loop
    case ProjectLoop =>
      if StrictEq(typ, Num(0)) then Some(LatestTag)
      else if StrictEq(typ, Num(1)) then Some(TagThenRange)
      else None
    case PluginLoop =>
      if StrictEq(typ, Num(1)) then Some(if owner == item then LatestTag else TagThenRange)
      else None
  }

  /** Where the catalog files the record installed record `pkg` of `loop` is checked against. */
  function CatalogAt(loop: Loop, owner: string, pkg: Json): seq<string>
    requires !pkg.Undefined? && !pkg.Null?
  {
    var key := ToKey(Get(pkg, "name"));
    match loop
    case ProjectLoop => [if StrictEq(Get(pkg, "type"), Num(0)) then "Project" else "Plugin", owner, key]
    case PluginLoop => ["Plugin", owner, key]
  }

  /** A record that follows a rule has a numeric `type`, so it is an object. */
  lemma RuleNeedsObject(loop: Loop, owner: string, item: string, pkg: Json)
    requires !pkg.Undefined? && !pkg.Null? && RuleOf(loop, owner, item, pkg).Some?
    ensures pkg.Obj?
  {
    TypedIsObject(pkg, Get(pkg, "type"));
  }

  /**
   * What the loops make of installed record `pkg`, from catalog `p` alone:
   * a record that follows a rule comes out marked with the newest release
   * of the catalog's record for it, every other record as it is.
   */
  function Expected(loop: Loop, owner: string, item: string, pkg: Json, p: Json, sv: SemverCalls): (r: Result<Json>)
    requires CatalogShape(p)
    ensures r.Err? ==> pkg.Undefined? || pkg.Null? || RuleOf(loop, owner, item, pkg).Some?
    ensures !pkg.Undefined? && !pkg.Null? && RuleOf(loop, owner, item, pkg).None? ==> r == Ok(pkg)
    ensures r.Ok? && r.value != pkg ==>
              && !pkg.Undefined? && !pkg.Null?
              && RuleOf(loop, owner, item, pkg).Some? && pkg.Obj? && Files(p, CatalogAt(loop, owner, pkg))
              && var n := NewestRelease(RuleOf(loop, owner, item, pkg).value, RecordAt(p, CatalogAt(loop, owner, pkg)),
                                        Get(pkg, "version"), Get(pkg, "aversion"), sv);
                 n.Ok? && n.value.Some? && r.value == Annotate(pkg, n.value.value)
  {
    if pkg.Undefined? || pkg.Null? then Err("TypeError: Cannot read property 'type' of " + (if pkg.Null? then "null" else "undefined"))
    else
      match RuleOf(loop, owner, item, pkg)
      case None => Ok(pkg)
      case Some(rule) =>
        var at := CatalogAt(loop, owner, pkg);
        if !Files(p, at) then Err("TypeError: Cannot set property of undefined")
        else
          RuleNeedsObject(loop, owner, item, pkg);
          var n :- NewestRelease(rule, RecordAt(p, at), Get(pkg, "version"), Get(pkg, "aversion"), sv);
          Ok(Outcome(pkg, n))
  }

  /**
   * A project record that follows a rule and goes through had its `path`
   * written into the catalog record at `at`, and the rules then ran there.
   */
  lemma ProjectItemRuns(owner: string, pkg: Json, c: Copies, sv: SemverCalls)
    requires !pkg.Undefined? && !pkg.Null? && RuleOf(ProjectLoop, owner, owner, pkg).Some?
    requires ProjectItem(owner, pkg, c, sv).Ok?
    ensures pkg.Obj?
    ensures var at := CatalogAt(ProjectLoop, owner, pkg);
            var q := SetIn(c.packages, at + ["path"], OrElse(Get(pkg, "path"), Str("")));
            var r := ProjectItem(owner, pkg, c, sv).value;
            q.Ok? && GetIn(q.value, at).Ok? && GetIn(q.value, at).value.Obj? &&
            var a := ApplyRule(RuleOf(ProjectLoop, owner, owner, pkg).value, pkg, q.value, at, GetIn(q.value, at).value,
                               Get(pkg, "version"), Get(pkg, "aversion"), sv);
            a.Ok? && r.0 == a.value.0 && r.1.packages == a.value.1
  {
    TypedIsObject(pkg, Get(pkg, "type"));
    SetInField(c.packages, CatalogAt(ProjectLoop, owner, pkg), "path", OrElse(Get(pkg, "path"), Str("")));
  }

  /** A record of a project group comes out as `Expected` says, and the catalog stays the same as `p`. */
  lemma ProjectItemExpected(owner: string, item: string, pkg: Json, c: Copies, p: Json, sv: SemverCalls)
    requires CatalogShape(p) && SameCatalog(p, c.packages)
    ensures var r := ProjectItem(owner, pkg, c, sv);
            r.Ok? ==> Expected(ProjectLoop, owner, item, pkg, p, sv) == Ok(r.value.0) && SameCatalog(p, r.value.1.packages)
  {
    var r := ProjectItem(owner, pkg, c, sv);
    if r.Err? {
      return;
    }
    assert Member(pkg, "type").Ok?;
    if RuleOf(ProjectLoop, owner, owner, pkg).None? {
      return;
    }
    ProjectItemRuns(owner, pkg, c, sv);
    var at := CatalogAt(ProjectLoop, owner, pkg);
    var path := OrElse(Get(pkg, "path"), Str(""));
    var packages := SetIn(c.packages, at + ["path"], path).value;
    SameCatalogShape(p, c.packages);
    SetFieldNeedsRecord(c.packages, at, "path", path);
    SetOtherFiledField(p, c.packages, at, "path", path);
    SameCatalogShape(p, packages);
    CatalogPath(packages, at);
    RuleStepExpected(RuleOf(ProjectLoop, owner, owner, pkg).value, pkg, p, packages, at, Get(pkg, "version"), Get(pkg, "aversion"), sv);
  }

  /** A type-1 record of a plugin group that goes through is a filed record the rules ran on. */
  lemma PluginItemRuns(owner: string, item: string, pkg: Json, c: Copies, sv: SemverCalls)
    requires CatalogShape(c.packages) && !pkg.Undefined? && !pkg.Null? && StrictEq(Get(pkg, "type"), Num(1))
    requires PluginItem(owner, item, pkg, c, sv).Ok?
    ensures pkg.Obj? && Files(c.packages, CatalogAt(PluginLoop, owner, pkg))
    ensures var at := CatalogAt(PluginLoop, owner, pkg);
            var rule := if owner == item then LatestTag else TagThenRange;
            var a := ApplyRule(rule, pkg, c.packages, at, RecordAt(c.packages, at), Get(pkg, "version"), Get(pkg, "aversion"), sv);
            a.Ok? && PluginItem(owner, item, pkg, c, sv).value.0 == a.value.0 &&
            PluginItem(owner, item, pkg, c, sv).value.1.packages == a.value.1
  {
    TypedIsObject(pkg, Get(pkg, "type"));
    var at := CatalogAt(PluginLoop, owner, pkg);
    CatalogPath(c.packages, at);
  }

  /** A record of a plugin group comes out as `Expected` says, and the catalog stays the same as `p`. */
  lemma PluginItemExpected(owner: string, item: string, pkg: Json, c: Copies, p: Json, sv: SemverCalls)
    requires CatalogShape(p) && SameCatalog(p, c.packages)
    ensures var r := PluginItem(owner, item, pkg, c, sv);
            r.Ok? ==> Expected(PluginLoop, owner, item, pkg, p, sv) == Ok(r.value.0) && SameCatalog(p, r.value.1.packages)
  {
    var r := PluginItem(owner, item, pkg, c, sv);
    if r.Err? {
      return;
    }
    assert Member(pkg, "name").Ok?;
    if !StrictEq(Get(pkg, "type"), Num(1)) {
      assert RuleOf(PluginLoop, owner, item, pkg).None?;
      return;
    }
    SameCatalogShape(p, c.packages);
    PluginItemRuns(owner, item, pkg, c, sv);
    var at := CatalogAt(PluginLoop, owner, pkg);
    var rule := if owner == item then LatestTag else TagThenRange;
    RuleStepExpected(rule, pkg, p, c.packages, at, Get(pkg, "version"), Get(pkg, "aversion"), sv);
  }

  /**
   * Every record catalog `p` files sits in a group of its own name, as the
   * grouped detail search builds it (`Project[k][k]`, `Plugin[k][k]`).
   */
  ghost predicate SelfFiled(p: Json)
  {
    forall at | Files(p, at) :: at[2] == at[1]
  }

  /** Installed record `pkg` of `loop` is looked up in the catalog under its own group's name. */
  predicate OwnFile(loop: Loop, owner: string, item: string, pkg: Json)
    requires !pkg.Undefined? && !pkg.Null?
  {
    match loop
    case ProjectLoop => RuleOf(loop, owner, item, pkg).Some? ==> ToKey(Get(pkg, "name")) == owner
    case PluginLoop => ToKey(Get(pkg, "name")) == owner
  }

  /** A catalog the same as a self-filed one is self-filed. */
  lemma SameSelfFiled(p: Json, q: Json, at: seq<string>)
    requires SameCatalog(p, q) && SelfFiled(p) && Files(q, at)
    ensures at[2] == at[1]
  {
    SameCatalogFiles(p, q, at);
  }

  /** On a self-filed catalog, a record of a project group gets through only when it is filed under its group's name. */
  lemma ProjectItemOwnFile(owner: string, item: string, pkg: Json, c: Copies, p: Json, sv: SemverCalls)
    requires SameCatalog(p, c.packages) && SelfFiled(p)
    ensures ProjectItem(owner, pkg, c, sv).Ok? ==> !pkg.Undefined? && !pkg.Null? && OwnFile(ProjectLoop, owner, item, pkg)
  {
    var typ := Member(pkg, "type");
    if typ.Err? || !(StrictEq(typ.value, Num(0)) || StrictEq(typ.value, Num(1))) || ProjectItem(owner, pkg, c, sv).Err? {
      return;
    }
    var at := CatalogAt(ProjectLoop, owner, pkg);
    SameCatalogShape(p, c.packages);
    SetFieldNeedsRecord(c.packages, at, "path", OrElse(Get(pkg, "path"), Str("")));
    SameSelfFiled(p, c.packages, at);
  }

  /** On a self-filed catalog, a record of a plugin group gets through only when it is filed under its group's name. */
  lemma PluginItemOwnFile(owner: string, item: string, pkg: Json, c: Copies, p: Json, sv: SemverCalls)
    requires SameCatalog(p, c.packages) && SelfFiled(p)
    ensures PluginItem(owner, item, pkg, c, sv).Ok? ==> !pkg.Undefined? && !pkg.Null? && OwnFile(PluginLoop, owner, item, pkg)
  {
    if PluginItem(owner, item, pkg, c, sv).Err? {
      return;
    }
    var at := CatalogAt(PluginLoop, owner, pkg);
    var rec := GetIn(c.packages, at);
    assert rec.Ok? && Member(rec.value, "versionsList").Ok?;
    SameCatalogShape(p, c.packages);
    CatalogPath(c.packages, at);
    SameSelfFiled(p, c.packages, at);
  }

  /** A record of either loop comes out as `Expected` says, and the catalog stays the same as `p`. */
  lemma ItemExpected(loop: Loop, owner: string, item: string, pkg: Json, c: Copies, p: Json, sv: SemverCalls)
    requires CatalogShape(p) && SameCatalog(p, c.packages)
    ensures var r := ItemStep(loop, owner, item, pkg, c, sv);
            r.Ok? ==> Expected(loop, owner, item, pkg, p, sv) == Ok(r.value.0) && SameCatalog(p, r.value.1.packages)
  {
    match loop
    case ProjectLoop => ProjectItemExpected(owner, item, pkg, c, p, sv);
    case PluginLoop => PluginItemExpected(owner, item, pkg, c, p, sv);
  }

  /** On a self-filed catalog, a record of either loop gets through only when it is filed under its group's name. */
  lemma ItemOwnFile(loop: Loop, owner: string, item: string, pkg: Json, c: Copies, p: Json, sv: SemverCalls)
    requires SameCatalog(p, c.packages) && SelfFiled(p)
    ensures ItemStep(loop, owner, item, pkg, c, sv).Ok? ==> !pkg.Undefined? && !pkg.Null? && OwnFile(loop, owner, item, pkg)
  {
    match loop
    case ProjectLoop => ProjectItemOwnFile(owner, item, pkg, c, p, sv);
    case PluginLoop => PluginItemOwnFile(owner, item, pkg, c, p, sv);
  }

  /** `out` is group `g` of `owner` rebuilt: one entry per item of `items`, each as `Expected` says. */
  ghost predicate Rebuilt(loop: Loop, owner: string, g: Json, items: seq<string>, out: Json, p: Json, sv: SemverCalls)
    requires CatalogShape(p) && !g.Undefined? && !g.Null?
  {
    out.Obj? && (forall i :: i in out.fields <==> i in items) &&
    forall i | i in items :: Expected(loop, owner, i, Get(g, i), p, sv) == Ok(out.fields[i])
  }

  /** Every item of `items` of group `g` of `owner` is filed under the group's name. */
  ghost predicate AllOwnFiled(loop: Loop, owner: string, g: Json, items: seq<string>)
    requires !g.Undefined? && !g.Null?
  {
    forall i | i in items :: !Get(g, i).Undefined? && !Get(g, i).Null? && OwnFile(loop, owner, i, Get(g, i))
  }

  /** The inner `reduce` rebuilds the group as `Expected` says and keeps the catalog the same as `p`. */
  lemma {:induction false} GroupStepsExpected(loop: Loop, owner: string, g: Json, items: seq<string>, c: Copies, p: Json, sv: SemverCalls)
    requires CatalogShape(p) && SameCatalog(p, c.packages) && !g.Undefined? && !g.Null?
    ensures var r := GroupSteps(loop, owner, g, items, c, sv);
            r.Ok? ==> Rebuilt(loop, owner, g, items, r.value.0, p, sv) && SameCatalog(p, r.value.1.packages)
  {
    var r := GroupSteps(loop, owner, g, items, c, sv);
    if items == [] || r.Err? {
      return;
    }
    var init, item := items[..|items| - 1], items[|items| - 1];
    GroupStepsExpected(loop, owner, g, init, c, p, sv);
    var prev := GroupSteps(loop, owner, g, init, c, sv).value;
    ItemExpected(loop, owner, item, Get(g, item), prev.1, p, sv);
    var next := ItemStep(loop, owner, item, Get(g, item), prev.1, sv).value;
    assert r.value == (Put(prev.0, item, next.0), next.1);
    MembersOfSnoc(items);
  }

  /** `out` is taxonomy object `obj` rebuilt: one rebuilt group per owner of `owners`. */
  ghost predicate RebuiltOwners(loop: Loop, obj: Json, owners: seq<string>, out: Json, p: Json, sv: SemverCalls)
    requires CatalogShape(p) && !obj.Undefined? && !obj.Null?
  {
    out.Obj? && (forall o :: o in out.fields <==> o in owners) &&
    forall o | o in owners :: !Get(obj, o).Undefined? && !Get(obj, o).Null? &&
      Rebuilt(loop, o, Get(obj, o), ObjectKeys(Get(obj, o)).value, out.fields[o], p, sv)
  }

  /** The outer `reduce` rebuilds every group as `Expected` says and keeps the catalog the same as `p`. */
  lemma {:induction false} OwnerStepsExpected(loop: Loop, obj: Json, owners: seq<string>, c: Copies, p: Json, sv: SemverCalls)
    requires CatalogShape(p) && SameCatalog(p, c.packages) && !obj.Undefined? && !obj.Null?
    ensures var r := OwnerSteps(loop, obj, owners, c, sv);
            r.Ok? ==> RebuiltOwners(loop, obj, owners, r.value.0, p, sv) && SameCatalog(p, r.value.1.packages)
  {
    var r := OwnerSteps(loop, obj, owners, c, sv);
    if owners == [] || r.Err? {
      return;
    }
    var init, owner := owners[..|owners| - 1], owners[|owners| - 1];
    OwnerStepsExpected(loop, obj, init, c, p, sv);
    var prev := OwnerSteps(loop, obj, init, c, sv).value;
    OwnerStepExpected(loop, obj, owner, prev, p, sv);
    RebuiltOwnersSnoc(loop, obj, owners, prev.0, r.value.0, p, sv);
  }

  /** One owner's group is rebuilt as `Expected` says and filed into the accumulator. */
  lemma OwnerStepExpected(loop: Loop, obj: Json, owner: string, prev: (Json, Copies), p: Json, sv: SemverCalls)
    requires CatalogShape(p) && SameCatalog(p, prev.1.packages) && !obj.Undefined? && !obj.Null? && prev.0.Obj?
    ensures var r := OwnerStep(loop, obj, owner, prev, sv);
            var g := Get(obj, owner);
            r.Ok? ==> !g.Undefined? && !g.Null? && owner in r.value.0.fields &&
                      r.value.0.fields == prev.0.fields[owner := r.value.0.fields[owner]] &&
                      Rebuilt(loop, owner, g, ObjectKeys(g).value, r.value.0.fields[owner], p, sv) &&
                      SameCatalog(p, r.value.1.packages)
  {
    var g := Get(obj, owner);
    if OwnerStep(loop, obj, owner, prev, sv).Ok? {
      GroupStepsExpected(loop, owner, g, ObjectKeys(g).value, prev.1, p, sv);
    }
  }

  /** Filing one more rebuilt group keeps the taxonomy rebuilt. */
  lemma RebuiltOwnersSnoc(loop: Loop, obj: Json, owners: seq<string>, before: Json, out: Json, p: Json, sv: SemverCalls)
    requires CatalogShape(p) && !obj.Undefined? && !obj.Null? && owners != []
    requires RebuiltOwners(loop, obj, owners[..|owners| - 1], before, p, sv)
    requires var o := owners[|owners| - 1];
             var g := Get(obj, o);
             !g.Undefined? && !g.Null? && out.Obj? && o in out.fields &&
             out.fields == before.fields[o := out.fields[o]] &&
             Rebuilt(loop, o, g, ObjectKeys(g).value, out.fields[o], p, sv)
    ensures RebuiltOwners(loop, obj, owners, out, p, sv)
  {
    MembersOfSnoc(owners);
  }

  /** On a self-filed catalog, the inner `reduce` gets through only when every item is filed under the group's name. */
  lemma {:induction false} GroupStepsOwnFiled(loop: Loop, owner: string, g: Json, items: seq<string>, c: Copies, p: Json, sv: SemverCalls)
    requires CatalogShape(p) && SameCatalog(p, c.packages) && SelfFiled(p) && !g.Undefined? && !g.Null?
    ensures GroupSteps(loop, owner, g, items, c, sv).Ok? ==> AllOwnFiled(loop, owner, g, items)
  {
    var r := GroupSteps(loop, owner, g, items, c, sv);
    if items == [] || r.Err? {
      return;
    }
    var init, item := items[..|items| - 1], items[|items| - 1];
    GroupStepsOwnFiled(loop, owner, g, init, c, p, sv);
    GroupStepsExpected(loop, owner, g, init, c, p, sv);
    var prev := GroupSteps(loop, owner, g, init, c, sv).value;
    ItemOwnFile(loop, owner, item, Get(g, item), prev.1, p, sv);
    MembersOfSnoc(items);
  }

  /** On a self-filed catalog, the outer `reduce` gets through only when every item of every group is filed under its group's name. */
  lemma {:induction false} OwnerStepsOwnFiled(loop: Loop, obj: Json, owners: seq<string>, c: Copies, p: Json, sv: SemverCalls)
    requires CatalogShape(p) && SameCatalog(p, c.packages) && SelfFiled(p) && !obj.Undefined? && !obj.Null?
    ensures OwnerSteps(loop, obj, owners, c, sv).Ok? ==>
              forall o | o in owners :: !Get(obj, o).Undefined? && !Get(obj, o).Null? &&
                AllOwnFiled(loop, o, Get(obj, o), ObjectKeys(Get(obj, o)).value)
  {
    var r := OwnerSteps(loop, obj, owners, c, sv);
    if owners == [] || r.Err? {
      return;
    }
    var init, owner := owners[..|owners| - 1], owners[|owners| - 1];
    OwnerStepsOwnFiled(loop, obj, init, c, p, sv);
    OwnerStepsExpected(loop, obj, init, c, p, sv);
    var prev := OwnerSteps(loop, obj, init, c, sv).value;
    var g := Get(obj, owner);
    GroupStepsOwnFiled(loop, owner, g, ObjectKeys(g).value, prev.1, p, sv);
    MembersOfSnoc(owners);
  }

  /**
   * The search's installed view, from the catalog alone: when the
   * reconciliation succeeds on a non-empty installed view, every group under
   * `Project` and `Plugin` is rebuilt with each record as `Expected` says,
   * every other top-level entry is kept, and the catalog view still files
   * the same records with the same rule fields as `p`.
   */
  lemma ReconcileMarksNewest(p: Json, installed: Json, sv: SemverCalls)
    requires CatalogShape(p)
    ensures var r := Reconcile(p, installed, sv);
            r.Ok? && !IsEmptyObj(installed) ==>
              installed.Obj? && SameCatalog(p, r.value.all) && r.value.installed.Obj? &&
              (forall k :: k in r.value.installed.fields <==> k in installed.fields || k == "Project" || k == "Plugin") &&
              (forall k | k in installed.fields && k != "Project" && k != "Plugin" :: r.value.installed.fields[k] == installed.fields[k]) &&
              var projectsObj := OrElse(Get(installed, "Project"), EmptyObj);
              var pluginsObj := OrElse(Get(installed, "Plugin"), EmptyObj);
              !projectsObj.Undefined? && !projectsObj.Null? && !pluginsObj.Undefined? && !pluginsObj.Null? &&
              RebuiltOwners(ProjectLoop, projectsObj, ObjectKeys(projectsObj).value, r.value.installed.fields["Project"], p, sv) &&
              RebuiltOwners(PluginLoop, pluginsObj, ObjectKeys(pluginsObj).value, r.value.installed.fields["Plugin"], p, sv)
  {
    var r := Reconcile(p, installed, sv);
    if r.Err? || IsEmptyObj(installed) {
      return;
    }
    ReconcileOk(p, installed, sv);
    ReconcileOk(p, installed, sv);
    var projectsObj := OrElse(Get(installed, "Project"), EmptyObj);
    var pluginsObj := OrElse(Get(installed, "Plugin"), EmptyObj);
    SameCatalogShape(p, p);
    var pr := OwnerSteps(ProjectLoop, projectsObj, ObjectKeys(projectsObj).value, Copies(p, p), sv);
    OwnerStepsExpected(ProjectLoop, projectsObj, ObjectKeys(projectsObj).value, Copies(p, p), p, sv);
    OwnerStepsExpected(PluginLoop, pluginsObj, ObjectKeys(pluginsObj).value, pr.value.1, p, sv);
  }

  /** A successful reconciliation of a non-empty installed view, step by step. */
  lemma ReconcileOk(p: Json, installed: Json, sv: SemverCalls)
    requires Reconcile(p, installed, sv).Ok? && !IsEmptyObj(installed)
    ensures installed.Obj?
    ensures var projectsObj := OrElse(Get(installed, "Project"), EmptyObj);
            var pluginsObj := OrElse(Get(installed, "Plugin"), EmptyObj);
            !projectsObj.Undefined? && !projectsObj.Null? && !pluginsObj.Undefined? && !pluginsObj.Null? &&
            var pr := OwnerSteps(ProjectLoop, projectsObj, ObjectKeys(projectsObj).value, Copies(p, p), sv);
            pr.Ok? &&
            var pl := OwnerSteps(PluginLoop, pluginsObj, ObjectKeys(pluginsObj).value, pr.value.1, sv);
            pl.Ok? &&
            Reconcile(p, installed, sv).value ==
              Views(pl.value.1.packages, pl.value.1.backup, Put(Put(installed, "Project", pr.value.0), "Plugin", pl.value.0))
  {
    var projectsObj := OrElse(Get(installed, "Project"), EmptyObj);
    var pluginsObj := OrElse(Get(installed, "Plugin"), EmptyObj);
    var pr := OwnerSteps(ProjectLoop, projectsObj, ObjectKeys(projectsObj).value, Copies(p, p), sv);
    assert pr.Ok? && SetProp(installed, "Project", pr.value.0).Ok?;
    var installed1 := Put(installed, "Project", pr.value.0);
    var pl := OwnerSteps(PluginLoop, pluginsObj, ObjectKeys(pluginsObj).value, pr.value.1, sv);
    assert pl.Ok?;
    assert Reconcile(p, installed, sv) == Ok(Views(pl.value.1.packages, pl.value.1.backup, Put(installed1, "Plugin", pl.value.0)));
  }

  /** The grouped detail-search catalog is a catalog, and a self-filed one. */
  lemma GroupedIsSelfFiled(g: Json, all: Json, ks: seq<string>)
    requires all.Obj? && Catalog.Grouped(g, all, ks)
    ensures CatalogShape(g) && SelfFiled(g)
  {
    forall t | t in g.fields
      ensures g.fields[t].Obj? &&
        forall k | k in g.fields[t].fields :: g.fields[t].fields[k].Obj? &&
          forall j | j in g.fields[t].fields[k].fields :: g.fields[t].fields[k].fields[j].Obj?
    {
      forall k | k in g.fields[t].fields
        ensures g.fields[t].fields[k] == Single(k, all.fields[k]) && all.fields[k].Obj?
      {
        assert Catalog.Taxonomy(all.fields[k]) == t;
      }
    }
    forall at | Files(g, at)
      ensures at[2] == at[1]
    {
      assert Catalog.Taxonomy(all.fields[at[1]]) == at[0];
    }
  }

  /**
   * On a self-filed catalog, the search gets through a non-empty installed
   * view only when every installed `Plugin` record, and every installed
   * `Project` record of type 0 or 1, sits in the group of its own name.
   */
  lemma ReconcileNeedsOwnFiled(p: Json, installed: Json, sv: SemverCalls)
    requires CatalogShape(p) && SelfFiled(p)
    ensures Reconcile(p, installed, sv).Ok? && !IsEmptyObj(installed) ==>
              var projectsObj := OrElse(Get(installed, "Project"), EmptyObj);
              var pluginsObj := OrElse(Get(installed, "Plugin"), EmptyObj);
              !projectsObj.Undefined? && !projectsObj.Null? && !pluginsObj.Undefined? && !pluginsObj.Null? &&
              (forall o | o in ObjectKeys(projectsObj).value :: !Get(projectsObj, o).Undefined? && !Get(projectsObj, o).Null? &&
                 AllOwnFiled(ProjectLoop, o, Get(projectsObj, o), ObjectKeys(Get(projectsObj, o)).value)) &&
              (forall o | o in ObjectKeys(pluginsObj).value :: !Get(pluginsObj, o).Undefined? && !Get(pluginsObj, o).Null? &&
                 AllOwnFiled(PluginLoop, o, Get(pluginsObj, o), ObjectKeys(Get(pluginsObj, o)).value))
  {
    var r := Reconcile(p, installed, sv);
    if r.Err? || IsEmptyObj(installed) {
      return;
    }
    ReconcileOk(p, installed, sv);
    var projectsObj := OrElse(Get(installed, "Project"), EmptyObj);
    var pluginsObj := OrElse(Get(installed, "Plugin"), EmptyObj);
    SameCatalogShape(p, p);
    var pr := OwnerSteps(ProjectLoop, projectsObj, ObjectKeys(projectsObj).value, Copies(p, p), sv);
    OwnerStepsOwnFiled(ProjectLoop, projectsObj, ObjectKeys(projectsObj).value, Copies(p, p), p, sv);
    OwnerStepsExpected(ProjectLoop, projectsObj, ObjectKeys(projectsObj).value, Copies(p, p), p, sv);
    OwnerStepsOwnFiled(PluginLoop, pluginsObj, ObjectKeys(pluginsObj).value, pr.value.1, p, sv);
  }

  /**
   * With the catalog the detail search builds, an installed plugin group
   * holding a record under another name than the group's, such as a
   * child plugin, always sends the search to its `catch`.
   */
  lemma InstalledChildFailsSearch(g: Json, all: Json, ks: seq<string>, installed: Json, sv: SemverCalls,
                                  plugin: string, item: string)
    requires all.Obj? && Catalog.Grouped(g, all, ks)
    requires installed.Obj? && "Plugin" in installed.keys && "Plugin" in installed.fields
    requires var plugins := installed.fields["Plugin"];
             plugins.Obj? && plugin in plugins.keys && plugin in plugins.fields &&
             var group := plugins.fields[plugin];
             group.Obj? && item in group.keys && item in group.fields && group.fields[item].Obj? &&
             ToKey(Get(group.fields[item], "name")) != plugin
    ensures Reconcile(g, installed, sv).Err?
  {
    GroupedIsSelfFiled(g, all, ks);
    ReconcileNeedsOwnFiled(g, installed, sv);
  }

  /**
   * With the catalog the detail search builds, an installed project group
   * holding a type-1 record under another name than the project's, such as
   * one of the project's plugins, always sends the search to its `catch`.
   */
  lemma InstalledProjectPluginFailsSearch(g: Json, all: Json, ks: seq<string>, installed: Json, sv: SemverCalls,
                                          project: string, item: string)
    requires all.Obj? && Catalog.Grouped(g, all, ks)
    requires installed.Obj? && "Project" in installed.keys && "Project" in installed.fields
    requires var projects := installed.fields["Project"];
             projects.Obj? && project in projects.keys && project in projects.fields &&
             var group := projects.fields[project];
             group.Obj? && item in group.keys && item in group.fields && group.fields[item].Obj? &&
             Get(group.fields[item], "type") == Num(1) && ToKey(Get(group.fields[item], "name")) != project
    ensures Reconcile(g, installed, sv).Err?
  {
    GroupedIsSelfFiled(g, all, ks);
    ReconcileNeedsOwnFiled(g, installed, sv);
  }

  // ---------------------------------------------------------------------
  // The uninstalled view

  /**
   * The catalog entry installed record `pkg` of `loop` removes from the
   * uninstalled view (PackageManager.js:307-311, 326-330, 375-379): the
   * whole group when the record is named like its group, else the record
   * alone; `None` for a record of a project group whose type is neither 0
   * nor 1.
   */
  function Removes(loop: Loop, owner: string, pkg: Json): (r: Option<seq<string>>)
    requires !pkg.Undefined? && !pkg.Null?
    ensures r.Some? ==> (|r.value| == 2 || |r.value| == 3) && r.value[1] == owner &&
                        r.value[0] == (if loop == ProjectLoop then "Project" else "Plugin")
  {
    var name := Get(pkg, "name");
    var typ := Get(pkg, "type");
    var tax := if loop == ProjectLoop then "Project" else "Plugin";
    if loop == ProjectLoop && !(StrictEq(typ, Num(0)) || StrictEq(typ, Num(1))) then None
    else if StrictEq(Str(owner), name) then Some([tax, owner])
    else Some([tax, owner, ToKey(name)])
  }

  /** A record's step deletes from the uninstalled view exactly what `Removes` names. */
  lemma ItemRemoves(loop: Loop, owner: string, item: string, pkg: Json, c: Copies, sv: SemverCalls)
    requires ItemStep(loop, owner, item, pkg, c, sv).Ok?
    ensures !pkg.Undefined? && !pkg.Null?
    ensures var b := ItemStep(loop, owner, item, pkg, c, sv).value.1.backup;
            match Removes(loop, owner, pkg)
            case None => b == c.backup
            case Some(path) => DeleteIn(c.backup, path) == Ok(b)
  {
  }

  /** A group of the uninstalled view: group `pg` of the catalog without the records `paths` name. */
  ghost predicate UninstalledGroup(t: string, g: string, pg: Json, bg: Json, paths: seq<seq<string>>)
  {
    pg.Obj? && bg.Obj? &&
    (forall k :: k in bg.fields <==> k in pg.fields && [t, g, k] !in paths) &&
    forall k | k in bg.fields :: bg.fields[k] == pg.fields[k]
  }

  /** A taxonomy of the uninstalled view: taxonomy `pt` of the catalog without the groups and records `paths` name. */
  ghost predicate UninstalledTaxonomy(t: string, pt: Json, bt: Json, paths: seq<seq<string>>)
  {
    pt.Obj? && bt.Obj? &&
    (forall g :: g in bt.fields <==> g in pt.fields && [t, g] !in paths) &&
    forall g | g in bt.fields :: UninstalledGroup(t, g, pt.fields[g], bt.fields[g], paths)
  }

  /**
   * `b` is catalog `p` with every entry `paths` names removed: a two-step
   * path removes a whole group, a three-step path one record; nothing else
   * is removed and no record changes.
   */
  ghost predicate Uninstalled(p: Json, b: Json, paths: seq<seq<string>>)
  {
    p.Obj? && b.Obj? && b.fields.Keys == p.fields.Keys &&
    forall t | t in p.fields :: UninstalledTaxonomy(t, p.fields[t], b.fields[t], paths)
  }

  /** The untouched copy of a catalog is its uninstalled view with nothing removed. */
  lemma UninstalledStart(p: Json)
    requires CatalogShape(p)
    ensures Uninstalled(p, p, [])
  {
    forall t | t in p.fields
      ensures UninstalledTaxonomy(t, p.fields[t], p.fields[t], [])
    {
      forall g | g in p.fields[t].fields
        ensures UninstalledGroup(t, g, p.fields[t].fields[g], p.fields[t].fields[g], [])
      {
      }
    }
  }

  /** A path outside group `g` of taxonomy `t` does not change what the group keeps. */
  lemma UninstalledGroupOther(t: string, g: string, pg: Json, bg: Json, paths: seq<seq<string>>, path: seq<string>)
    requires UninstalledGroup(t, g, pg, bg, paths)
    requires |path| != 3 || path[0] != t || path[1] != g
    ensures UninstalledGroup(t, g, pg, bg, paths + [path])
  {
    forall k
      ensures k in bg.fields <==> k in pg.fields && [t, g, k] !in paths + [path]
    {
      assert [t, g, k] in paths + [path] <==> [t, g, k] in paths || [t, g, k] == path;
    }
  }

  /** A path outside taxonomy `t` does not change what the taxonomy keeps. */
  lemma UninstalledTaxonomyOther(t: string, pt: Json, bt: Json, paths: seq<seq<string>>, path: seq<string>)
    requires UninstalledTaxonomy(t, pt, bt, paths)
    requires |path| > 0 && path[0] != t
    ensures UninstalledTaxonomy(t, pt, bt, paths + [path])
  {
    forall g
      ensures g in bt.fields <==> g in pt.fields && [t, g] !in paths + [path]
    {
      assert [t, g] in paths + [path] <==> [t, g] in paths || [t, g] == path;
    }
    forall g | g in bt.fields
      ensures UninstalledGroup(t, g, pt.fields[g], bt.fields[g], paths + [path])
    {
      UninstalledGroupOther(t, g, pt.fields[g], bt.fields[g], paths, path);
    }
  }

  /** Removing a whole group `g` of taxonomy `t`. */
  lemma RemoveGroupStep(t: string, pt: Json, bt: Json, paths: seq<seq<string>>, g: string)
    requires UninstalledTaxonomy(t, pt, bt, paths)
    ensures UninstalledTaxonomy(t, pt, Obj(RemoveKey(bt.keys, g), bt.fields - {g}), paths + [[t, g]])
  {
    var bt' := Obj(RemoveKey(bt.keys, g), bt.fields - {g});
    var path := [t, g];
    forall h
      ensures h in bt'.fields <==> h in pt.fields && [t, h] !in paths + [path]
    {
      assert [t, h] in paths + [path] <==> [t, h] in paths || h == g;
    }
    forall h | h in bt'.fields
      ensures UninstalledGroup(t, h, pt.fields[h], bt'.fields[h], paths + [path])
    {
      UninstalledGroupOther(t, h, pt.fields[h], bt.fields[h], paths, path);
    }
  }

  /** Removing record `k` of group `g` of taxonomy `t`. */
  lemma RemoveRecordStep(t: string, pt: Json, bt: Json, paths: seq<seq<string>>, g: string, k: string)
    requires UninstalledTaxonomy(t, pt, bt, paths) && g in bt.fields
    ensures var bg := bt.fields[g];
            UninstalledTaxonomy(t, pt, Put(bt, g, Obj(RemoveKey(bg.keys, k), bg.fields - {k})), paths + [[t, g, k]])
  {
    var bg := bt.fields[g];
    var bg' := Obj(RemoveKey(bg.keys, k), bg.fields - {k});
    var bt' := Put(bt, g, bg');
    var path := [t, g, k];
    forall h
      ensures h in bt'.fields <==> h in pt.fields && [t, h] !in paths + [path]
    {
      assert [t, h] in paths + [path] <==> [t, h] in paths;
    }
    forall h | h in bt'.fields
      ensures UninstalledGroup(t, h, pt.fields[h], bt'.fields[h], paths + [path])
    {
      if h == g {
        forall j
          ensures j in bg'.fields <==> j in pt.fields[g].fields && [t, g, j] !in paths + [path]
        {
          assert [t, g, j] in paths + [path] <==> [t, g, j] in paths || j == k;
        }
      } else {
        UninstalledGroupOther(t, h, pt.fields[h], bt.fields[h], paths, path);
      }
    }
  }

  /** Taxonomy `t` of the uninstalled view replaced by `bt`, which keeps what `paths + [path]` allows. */
  lemma UninstalledReplace(p: Json, b: Json, paths: seq<seq<string>>, path: seq<string>, bt: Json)
    requires Uninstalled(p, b, paths) && |path| > 0 && path[0] in b.fields
    requires UninstalledTaxonomy(path[0], p.fields[path[0]], bt, paths + [path])
    ensures Uninstalled(p, Put(b, path[0], bt), paths + [path])
  {
    var b' := Put(b, path[0], bt);
    forall t | t in p.fields
      ensures UninstalledTaxonomy(t, p.fields[t], b'.fields[t], paths + [path])
    {
      if t != path[0] {
        UninstalledTaxonomyOther(t, p.fields[t], b.fields[t], paths, path);
      }
    }
  }

  /** A deletion that succeeds went through containers that exist. */
  lemma DeletePathExists(b: Json, path: seq<string>)
    requires b.Obj? && (|path| == 2 || |path| == 3)
    ensures DeleteIn(b, path).Ok? ==> path[0] in b.fields
    ensures DeleteIn(b, path).Ok? && |path| == 3 && path[0] in b.fields && b.fields[path[0]].Obj? ==>
              path[1] in b.fields[path[0]].fields
  {
    assert path[1..][1..] == path[2..];
    if path[0] !in b.fields {
      assert Member(b, path[0]) == Ok(Undefined);
      assert DeleteIn(Undefined, path[1..]).Err?;
    } else if |path| == 3 && b.fields[path[0]].Obj? && path[1] !in b.fields[path[0]].fields {
      assert Member(b.fields[path[0]], path[1]) == Ok(Undefined);
      assert DeleteIn(b.fields[path[0]], path[1..]).Err?;
    }
  }

  /**
   * A deletion from the uninstalled view that succeeds removes exactly the
   * group or record its path names.
   */
  lemma DeleteStep(p: Json, b: Json, paths: seq<seq<string>>, path: seq<string>)
    requires Uninstalled(p, b, paths) && (|path| == 2 || |path| == 3) && DeleteIn(b, path).Ok?
    ensures Uninstalled(p, DeleteIn(b, path).value, paths + [path])
  {
    var t := path[0];
    DeletePathExists(b, path);
    var bt := b.fields[t];
    assert UninstalledTaxonomy(t, p.fields[t], bt, paths);
    var g := path[1];
    if |path| == 2 {
      assert path == [t, g] && path[1..] == [g];
      var bt' := Obj(RemoveKey(bt.keys, g), bt.fields - {g});
      assert DeleteIn(bt, [g]) == Ok(bt');
      WriteBackPut(b, t, bt');
      RemoveGroupStep(t, p.fields[t], bt, paths, g);
      UninstalledReplace(p, b, paths, path, bt');
    } else {
      var k := path[2];
      assert path == [t, g, k] && path[1..] == [g, k] && path[2..] == [k];
      var bg := bt.fields[g];
      var bg' := Obj(RemoveKey(bg.keys, k), bg.fields - {k});
      assert DeleteIn(bg, [k]) == Ok(bg');
      WriteBackPut(bt, g, bg');
      WriteBackPut(b, t, Put(bt, g, bg'));
      RemoveRecordStep(t, p.fields[t], bt, paths, g, k);
      UninstalledReplace(p, b, paths, path, Put(bt, g, bg'));
    }
  }

  /** What the first `items` of group `g` of `owner` remove from the uninstalled view, in order. */
  function GroupRemovals(loop: Loop, owner: string, g: Json, items: seq<string>): (r: seq<seq<string>>)
    requires !g.Undefined? && !g.Null?
    ensures forall i | 0 <= i < |r| :: |r[i]| == 2 || |r[i]| == 3
  {
    if items == [] then []
    else
      var pkg := Get(g, items[|items| - 1]);
      var last := if pkg.Undefined? || pkg.Null? then None else Removes(loop, owner, pkg);
      GroupRemovals(loop, owner, g, items[..|items| - 1]) + (if last.Some? then [last.value] else [])
  }

  /** What the groups of the first `owners` of taxonomy object `obj` remove, in order. */
  function OwnerRemovals(loop: Loop, obj: Json, owners: seq<string>): (r: seq<seq<string>>)
    requires !obj.Undefined? && !obj.Null?
    ensures forall i | 0 <= i < |r| :: |r[i]| == 2 || |r[i]| == 3
  {
    if owners == [] then []
    else
      var g := Get(obj, owners[|owners| - 1]);
      OwnerRemovals(loop, obj, owners[..|owners| - 1]) +
      (if g.Undefined? || g.Null? then [] else GroupRemovals(loop, owners[|owners| - 1], g, ForInKeys(g)))
  }

  /** The `delete` statements of the loops, `paths` deleted from `b` one after another. */
  function DeleteAll(b: Json, paths: seq<seq<string>>): Result<Json>
    requires forall i | 0 <= i < |paths| :: paths[i] != []
  {
    if paths == [] then Ok(b)
    else
      var b' :- DeleteAll(b, paths[..|paths| - 1]);
      DeleteIn(b', paths[|paths| - 1])
  }

  /** Deleting `xs + ys` is deleting `xs`, then `ys`. */
  lemma {:induction false} DeleteAllAppend(b: Json, xs: seq<seq<string>>, ys: seq<seq<string>>)
    requires forall i | 0 <= i < |xs| :: xs[i] != []
    requires forall i | 0 <= i < |ys| :: ys[i] != []
    requires DeleteAll(b, xs).Ok?
    ensures DeleteAll(b, xs + ys) == DeleteAll(DeleteAll(b, xs).value, ys)
    decreases |ys|
  {
    if ys == [] {
      assert xs + ys == xs;
    } else {
      DeleteAllAppend(b, xs, ys[..|ys| - 1]);
      assert (xs + ys)[..|xs + ys| - 1] == xs + ys[..|ys| - 1];
      assert (xs + ys)[|xs + ys| - 1] == ys[|ys| - 1];
    }
  }

  /** Deleting one more path after `xs`. */
  lemma DeleteAllSnoc(b: Json, xs: seq<seq<string>>, path: seq<string>)
    requires path != [] && forall i | 0 <= i < |xs| :: xs[i] != []
    ensures DeleteAll(b, xs + [path]) == (if DeleteAll(b, xs).Err? then DeleteAll(b, xs) else DeleteIn(DeleteAll(b, xs).value, path))
  {
    assert (xs + [path])[..|xs + [path]| - 1] == xs;
  }

  /** Appending a non-empty sequence is appending its front, then its last element. */
  lemma AppendSnoc<T>(xs: seq<T>, ys: seq<T>)
    requires ys != []
    ensures xs + ys == (xs + ys[..|ys| - 1]) + [ys[|ys| - 1]]
  {
  }

  /**
   * Ordered deletions that succeed keep the uninstalled view exact: every
   * group or record a path names is removed and nothing else changes.
   */
  lemma {:induction false} DeleteAllUninstalled(p: Json, b: Json, paths: seq<seq<string>>, more: seq<seq<string>>)
    requires forall i | 0 <= i < |more| :: |more[i]| == 2 || |more[i]| == 3
    requires Uninstalled(p, b, paths) && DeleteAll(b, more).Ok?
    ensures Uninstalled(p, DeleteAll(b, more).value, paths + more)
    decreases |more|
  {
    if more == [] {
      assert paths + more == paths;
    } else {
      var init, last := more[..|more| - 1], more[|more| - 1];
      assert forall i | 0 <= i < |init| :: init[i] == more[i];
      DeleteAllUninstalled(p, b, paths, init);
      DeleteStep(p, DeleteAll(b, init).value, paths + init, last);
      AppendSnoc(paths, more);
    }
  }

  /** The inner `reduce` deletes from the uninstalled view exactly what its records name, in order. */
  lemma {:induction false} GroupStepsDeletes(loop: Loop, owner: string, g: Json, items: seq<string>, c: Copies, sv: SemverCalls)
    requires !g.Undefined? && !g.Null?
    ensures var r := GroupSteps(loop, owner, g, items, c, sv);
            r.Ok? ==> DeleteAll(c.backup, GroupRemovals(loop, owner, g, items)) == Ok(r.value.1.backup)
  {
    var r := GroupSteps(loop, owner, g, items, c, sv);
    if items == [] || r.Err? {
      return;
    }
    var init, item := items[..|items| - 1], items[|items| - 1];
    GroupStepsDeletes(loop, owner, g, init, c, sv);
    var prev := GroupSteps(loop, owner, g, init, c, sv).value;
    var pkg := Get(g, item);
    ItemRemoves(loop, owner, item, pkg, prev.1, sv);
    var xs := GroupRemovals(loop, owner, g, init);
    match Removes(loop, owner, pkg)
    case None =>
      assert GroupRemovals(loop, owner, g, items) == xs + [];
      assert xs + [] == xs;
    case Some(path) =>
      assert GroupRemovals(loop, owner, g, items) == xs + [path];
      DeleteAllSnoc(c.backup, xs, path);
  }

  /** One owner's group deletes what its records name. */
  lemma OwnerStepDeletes(loop: Loop, obj: Json, owner: string, prev: (Json, Copies), sv: SemverCalls)
    requires !obj.Undefined? && !obj.Null? && prev.0.Obj?
    ensures var r := OwnerStep(loop, obj, owner, prev, sv);
            var g := Get(obj, owner);
            r.Ok? ==> !g.Undefined? && !g.Null? &&
                      DeleteAll(prev.1.backup, GroupRemovals(loop, owner, g, ForInKeys(g))) == Ok(r.value.1.backup)
  {
    var g := Get(obj, owner);
    if OwnerStep(loop, obj, owner, prev, sv).Ok? {
      GroupStepsDeletes(loop, owner, g, ForInKeys(g), prev.1, sv);
    }
  }

  /** The outer `reduce` deletes from the uninstalled view exactly what the records of its groups name, in order. */
  lemma {:induction false} OwnerStepsDeletes(loop: Loop, obj: Json, owners: seq<string>, c: Copies, sv: SemverCalls)
    requires !obj.Undefined? && !obj.Null?
    ensures var r := OwnerSteps(loop, obj, owners, c, sv);
            r.Ok? ==> DeleteAll(c.backup, OwnerRemovals(loop, obj, owners)) == Ok(r.value.1.backup)
  {
    var r := OwnerSteps(loop, obj, owners, c, sv);
    if owners == [] || r.Err? {
      return;
    }
    var init, owner := owners[..|owners| - 1], owners[|owners| - 1];
    OwnerStepsDeletes(loop, obj, init, c, sv);
    var prev := OwnerSteps(loop, obj, init, c, sv).value;
    OwnerStepDeletes(loop, obj, owner, prev, sv);
    OwnerRemovalsSnoc(loop, obj, owners, c.backup, prev.1.backup, r.value.1.backup);
  }

  /** Deleting what one more owner's group names, after what the owners before it name. */
  lemma OwnerRemovalsSnoc(loop: Loop, obj: Json, owners: seq<string>, b: Json, mid: Json, out: Json)
    requires !obj.Undefined? && !obj.Null? && owners != []
    requires DeleteAll(b, OwnerRemovals(loop, obj, owners[..|owners| - 1])) == Ok(mid)
    requires var g := Get(obj, owners[|owners| - 1]);
             !g.Undefined? && !g.Null? && DeleteAll(mid, GroupRemovals(loop, owners[|owners| - 1], g, ForInKeys(g))) == Ok(out)
    ensures DeleteAll(b, OwnerRemovals(loop, obj, owners)) == Ok(out)
  {
    var g := Get(obj, owners[|owners| - 1]);
    DeleteAllAppend(b, OwnerRemovals(loop, obj, owners[..|owners| - 1]), GroupRemovals(loop, owners[|owners| - 1], g, ForInKeys(g)));
  }

  /** The two loops' deletions, in order: the project loop's, then the plugin loop's. */
  lemma ReconcileDeletes(p: Json, installed: Json, sv: SemverCalls)
    ensures var r := Reconcile(p, installed, sv);
            r.Ok? && !IsEmptyObj(installed) ==>
              var projectsObj := OrElse(Get(installed, "Project"), EmptyObj);
              var pluginsObj := OrElse(Get(installed, "Plugin"), EmptyObj);
              !projectsObj.Undefined? && !projectsObj.Null? && !pluginsObj.Undefined? && !pluginsObj.Null? &&
              var between := DeleteAll(p, OwnerRemovals(ProjectLoop, projectsObj, ForInKeys(projectsObj)));
              between.Ok? &&
              DeleteAll(between.value, OwnerRemovals(PluginLoop, pluginsObj, ForInKeys(pluginsObj))) == Ok(r.value.uninstalled)
  {
    var r := Reconcile(p, installed, sv);
    if r.Err? || IsEmptyObj(installed) {
      return;
    }
    var projectsObj := OrElse(Get(installed, "Project"), EmptyObj);
    var pluginsObj := OrElse(Get(installed, "Plugin"), EmptyObj);
    var pr := OwnerSteps(ProjectLoop, projectsObj, ObjectKeys(projectsObj).value, Copies(p, p), sv);
    OwnerStepsDeletes(ProjectLoop, projectsObj, ObjectKeys(projectsObj).value, Copies(p, p), sv);
    OwnerStepsDeletes(PluginLoop, pluginsObj, ObjectKeys(pluginsObj).value, pr.value.1, sv);
  }

  /** Two runs of deletions from the catalog, read as one. */
  lemma DeletionsUninstalled(p: Json, xs: seq<seq<string>>, ys: seq<seq<string>>, b: Json)
    requires CatalogShape(p)
    requires forall i | 0 <= i < |xs| :: |xs[i]| == 2 || |xs[i]| == 3
    requires forall i | 0 <= i < |ys| :: |ys[i]| == 2 || |ys[i]| == 3
    requires DeleteAll(p, xs).Ok? && DeleteAll(DeleteAll(p, xs).value, ys) == Ok(b)
    ensures forall i | 0 <= i < |xs + ys| :: |(xs + ys)[i]| == 2 || |(xs + ys)[i]| == 3
    ensures DeleteAll(p, xs + ys) == Ok(b) && Uninstalled(p, b, xs + ys)
  {
    DeleteAllAppend(p, xs, ys);
    UninstalledStart(p);
    DeleteAllUninstalled(p, p, [], xs + ys);
    assert [] + (xs + ys) == xs + ys;
  }

  /**
   * The search's uninstalled view (PackageManager.js:287, 307-311, 326-330,
   * 375-379, 433): when the reconciliation succeeds on a non-empty installed
   * view, it is the catalog with the group of every installed root and every
   * installed child removed, as `Removes` names them, and nothing else
   * removed or changed.
   */
  lemma ReconcileUninstalled(p: Json, installed: Json, sv: SemverCalls)
    requires CatalogShape(p)
    ensures var r := Reconcile(p, installed, sv);
            r.Ok? && !IsEmptyObj(installed) ==>
              var projectsObj := OrElse(Get(installed, "Project"), EmptyObj);
              var pluginsObj := OrElse(Get(installed, "Plugin"), EmptyObj);
              !projectsObj.Undefined? && !projectsObj.Null? && !pluginsObj.Undefined? && !pluginsObj.Null? &&
              var removed := OwnerRemovals(ProjectLoop, projectsObj, ForInKeys(projectsObj)) +
                             OwnerRemovals(PluginLoop, pluginsObj, ForInKeys(pluginsObj));
              DeleteAll(p, removed) == Ok(r.value.uninstalled) && Uninstalled(p, r.value.uninstalled, removed)
  {
    var r := Reconcile(p, installed, sv);
    if r.Err? || IsEmptyObj(installed) {
      return;
    }
    ReconcileDeletes(p, installed, sv);
    var projectsObj := OrElse(Get(installed, "Project"), EmptyObj);
    var pluginsObj := OrElse(Get(installed, "Plugin"), EmptyObj);
    DeletionsUninstalled(p, OwnerRemovals(ProjectLoop, projectsObj, ForInKeys(projectsObj)),
                         OwnerRemovals(PluginLoop, pluginsObj, ForInKeys(pluginsObj)), r.value.uninstalled);
  }
}
