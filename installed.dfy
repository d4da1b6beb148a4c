/**
 * The installed view (PackageManager.js:238-273 `getInstalledObj`): the
 * stored tree `taxonomy -> parent -> child -> record` with every record
 * whose status is `installing` dropped.  A root record (`parent === child`)
 * takes its whole group with it; any other record removes only itself.
 * After a group is dropped the walk goes on reading its remaining children,
 * which is a TypeError unless the root was the group's last child.
 */
module Installed {
  import opened JsValue

  /** `p.status === 'installing'` on a record. */
  predicate Installing(p: Json)
  {
    p.Obj? && "status" in p.fields && p.fields["status"] == Str("installing")
  }

  // ---------------------------------------------------------------------
  // The walk, step by step

  /**
   * PackageManager.js:252-258: one child of group `parent` in taxonomy
   * object `tax`.  With `skip`, a child whose group is already gone is
   * passed over instead of being read from `undefined`.
   */
  function ChildStep(tax: Json, parent: string, child: string, skip: bool): Result<Json>
  {
    var g :- Member(tax, parent);
    if skip && g.Undefined? then Ok(tax) else
    var p :- Member(g, child);
    var status :- Member(p, "status");
    if StrictEq(status, Str("installing")) then
      if parent == child then DeleteProp(tax, parent)
      else WriteBack(tax, parent, DeleteProp(g, child).value)
    else Ok(tax)
  }

  /** PackageManager.js:251-260: the children `cs` of group `parent`, in order. */
  function ChildSteps(tax: Json, parent: string, cs: seq<string>, skip: bool): Result<Json>
  {
    if cs == [] then Ok(tax)
    else
      var prev :- ChildSteps(tax, parent, cs[..|cs| - 1], skip);
      ChildStep(prev, parent, cs[|cs| - 1], skip)
  }

  /** PackageManager.js:248-262: the groups `ps` of one taxonomy, in order. */
  function ParentSteps(tax: Json, ps: seq<string>, skip: bool): Result<Json>
  {
    if ps == [] then Ok(tax)
    else
      var prev :- ParentSteps(tax, ps[..|ps| - 1], skip);
      ParentStep(prev, ps[|ps| - 1], skip)
  }

  /** PackageManager.js:249-261: one group `parent` of a taxonomy, its children in key order. */
  function ParentStep(tax: Json, parent: string, skip: bool): Result<Json>
  {
    var g :- Member(tax, parent);
    var cs :- ObjectKeys(g);
    ChildSteps(tax, parent, cs, skip)
  }

  /** PackageManager.js:244-264: the taxonomies `ts` of the tree, in order. */
  function TypeSteps(tree: Json, ts: seq<string>, skip: bool): (r: Result<Json>)
    ensures tree.Obj? && r.Ok? ==> r.value.Obj? && r.value.keys == tree.keys
  {
    if ts == [] then Ok(tree)
    else
      var prev :- TypeSteps(tree, ts[..|ts| - 1], skip);
      TypeStep(prev, ts[|ts| - 1], skip)
  }

  /** PackageManager.js:245-263: one taxonomy `t` of the tree, its groups in key order. */
  function TypeStep(tree: Json, t: string, skip: bool): (r: Result<Json>)
    ensures tree.Obj? && r.Ok? ==> r.value.Obj? && r.value.keys == tree.keys
  {
    var tax :- Member(tree, t);
    var ps :- ObjectKeys(tax);
    var tax' :- ParentSteps(tax, ps, skip);
    WriteBack(tree, t, tax')
  }

  /** The tree with every `installing` record dropped (PackageManager.js:239-265). */
  function FilterInstalling(tree: Json, skip: bool): (r: Result<Json>)
    ensures tree.Obj? && r.Ok? ==> r.value.Obj? && r.value.keys == tree.keys
  {
    TypeSteps(tree, ForInKeys(tree), skip)
  }

  /** A failure part-way through the walk is the walk's outcome. */
  lemma {:induction false} ChildStepsErr(tax: Json, parent: string, cs: seq<string>, i: nat, skip: bool)
    requires i <= |cs| && ChildSteps(tax, parent, cs[..i], skip).Err?
    ensures ChildSteps(tax, parent, cs, skip) == ChildSteps(tax, parent, cs[..i], skip)
    decreases |cs|
  {
    if i < |cs| {
      assert cs[..|cs| - 1][..i] == cs[..i];
      ChildStepsErr(tax, parent, cs[..|cs| - 1], i, skip);
    } else {
      assert cs[..i] == cs;
    }
  }

  lemma {:induction false} ParentStepsErr(tax: Json, ps: seq<string>, i: nat, skip: bool)
    requires i <= |ps| && ParentSteps(tax, ps[..i], skip).Err?
    ensures ParentSteps(tax, ps, skip) == ParentSteps(tax, ps[..i], skip)
    decreases |ps|
  {
    if i < |ps| {
      assert ps[..|ps| - 1][..i] == ps[..i];
      ParentStepsErr(tax, ps[..|ps| - 1], i, skip);
    } else {
      assert ps[..i] == ps;
    }
  }

  lemma {:induction false} TypeStepsErr(tree: Json, ts: seq<string>, i: nat, skip: bool)
    requires i <= |ts| && TypeSteps(tree, ts[..i], skip).Err?
    ensures TypeSteps(tree, ts, skip) == TypeSteps(tree, ts[..i], skip)
    decreases |ts|
  {
    if i < |ts| {
      assert ts[..|ts| - 1][..i] == ts[..i];
      TypeStepsErr(tree, ts[..|ts| - 1], i, skip);
    } else {
      assert ts[..i] == ts;
    }
  }

  /** The walk over a group one child further: the child's step extends it, or its failure is the walk's outcome. */
  lemma ChildStepsNext(tax: Json, parent: string, cs: seq<string>, i: nat, skip: bool)
    requires i < |cs| && ChildSteps(tax, parent, cs[..i], skip).Ok?
    ensures var next := ChildStep(ChildSteps(tax, parent, cs[..i], skip).value, parent, cs[i], skip);
            (next.Err? ==> ChildSteps(tax, parent, cs, skip) == next) &&
            (next.Ok? ==> ChildSteps(tax, parent, cs[..i + 1], skip) == next)
  {
    assert cs[..i + 1][..i] == cs[..i];
    if ChildStep(ChildSteps(tax, parent, cs[..i], skip).value, parent, cs[i], skip).Err? {
      ChildStepsErr(tax, parent, cs, i + 1, skip);
    }
  }

  /** The walk over a taxonomy one group further. */
  lemma ParentStepsNext(tax: Json, ps: seq<string>, i: nat, skip: bool)
    requires i < |ps| && ParentSteps(tax, ps[..i], skip).Ok?
    ensures var next := ParentStep(ParentSteps(tax, ps[..i], skip).value, ps[i], skip);
            (next.Err? ==> ParentSteps(tax, ps, skip) == next) &&
            (next.Ok? ==> ParentSteps(tax, ps[..i + 1], skip) == next)
  {
    assert ps[..i + 1][..i] == ps[..i];
    if ParentStep(ParentSteps(tax, ps[..i], skip).value, ps[i], skip).Err? {
      ParentStepsErr(tax, ps, i + 1, skip);
    }
  }

  /** The walk over the tree one taxonomy further. */
  lemma TypeStepsNext(tree: Json, ts: seq<string>, i: nat, skip: bool)
    requires i < |ts| && TypeSteps(tree, ts[..i], skip).Ok?
    ensures var next := TypeStep(TypeSteps(tree, ts[..i], skip).value, ts[i], skip);
            (next.Err? ==> TypeSteps(tree, ts, skip) == next) &&
            (next.Ok? ==> TypeSteps(tree, ts[..i + 1], skip) == next)
  {
    assert ts[..i + 1][..i] == ts[..i];
    if TypeStep(TypeSteps(tree, ts[..i], skip).value, ts[i], skip).Err? {
      TypeStepsErr(tree, ts, i + 1, skip);
    }
  }

  // ---------------------------------------------------------------------
  // What the walk computes, stated directly

  predicate NoDuplicates(ks: seq<string>)
  {
    forall i, j :: 0 <= i < j < |ks| ==> ks[i] != ks[j]
  }

  /** An object whose key list names each of its members exactly once. */
  predicate WellKeyed(o: Json)
  {
    o.Obj? && NoDuplicates(o.keys) &&
    (forall k | k in o.fields :: k in o.keys) &&
    (forall i | 0 <= i < |o.keys| :: o.keys[i] in o.fields)
  }

  /** A group: a well-keyed object of records. */
  predicate GroupShape(g: Json)
  {
    WellKeyed(g) && forall c | c in g.fields :: g.fields[c].Obj?
  }

  /** A taxonomy: a well-keyed object of groups. */
  predicate TaxonomyShape(tax: Json)
  {
    WellKeyed(tax) && forall p | p in tax.fields :: GroupShape(tax.fields[p])
  }

  /** The tree the market keeps: a well-keyed object of taxonomies. */
  predicate TreeShape(tree: Json)
  {
    WellKeyed(tree) && forall t | t in tree.fields :: TaxonomyShape(tree.fields[t])
  }

  /** The keys of `keys` outside `drop`, in order. */
  function KeepOnly(keys: seq<string>, drop: set<string>): (r: seq<string>)
    ensures forall k :: k in r <==> k in keys && k !in drop
  {
    if keys == [] then []
    else if keys[0] in drop then KeepOnly(keys[1..], drop)
    else [keys[0]] + KeepOnly(keys[1..], drop)
  }

  /** Object `o` without the members `drop`, the order of the rest kept. */
  function Without(o: Json, drop: set<string>): (r: Json)
    requires o.Obj?
    ensures r.Obj? && r.fields == o.fields - drop
  {
    Obj(KeepOnly(o.keys, drop), o.fields - drop)
  }

  /** The members of group `g` among `cs` that are installing. */
  function InstallingAmong(g: Json, cs: seq<string>): set<string>
    requires g.Obj?
  {
    set c | c in cs && c in g.fields && Installing(g.fields[c])
  }

  /** The group's root record (`child === parent`) is installing. */
  predicate RootInstalling(g: Json, parent: string)
  {
    g.Obj? && parent in g.fields && Installing(g.fields[parent])
  }

  /** The group with its installing records removed. */
  function Survivors(g: Json): (r: Json)
    requires g.Obj?
    ensures r.Obj? && forall c :: c in r.fields <==> c in g.fields && !Installing(g.fields[c])
  {
    Without(g, set c | c in g.fields && Installing(g.fields[c]))
  }

  lemma {:induction false} KeepOnlyRemoveKey(keys: seq<string>, drop: set<string>, k: string)
    ensures RemoveKey(KeepOnly(keys, drop), k) == KeepOnly(keys, drop + {k})
  {
    if keys != [] {
      KeepOnlyRemoveKey(keys[1..], drop, k);
    }
  }

  lemma {:induction false} KeepOnlyNothing(keys: seq<string>)
    ensures KeepOnly(keys, {}) == keys
  {
    if keys != [] {
      KeepOnlyNothing(keys[1..]);
    }
  }

  lemma KeepOnlyNoDuplicates(keys: seq<string>, drop: set<string>)
    requires NoDuplicates(keys)
    ensures NoDuplicates(KeepOnly(keys, drop))
  {
    if keys != [] {
      KeepOnlyNoDuplicates(keys[1..], drop);
      assert keys[0] !in keys[1..];
    }
  }

  /**
   * What walking the first children `cs` of group `parent` gives: while the
   * root has not been reached, the group minus its installing children so
   * far; the root installing removes the whole group, and any child read
   * after that fails.
   */
  function GroupAfter(tax: Json, parent: string, cs: seq<string>, skip: bool): Result<Json>
    requires tax.Obj? && parent in tax.fields && tax.fields[parent].Obj?
  {
    var g := tax.fields[parent];
    if parent in cs && RootInstalling(g, parent) then
      if skip || cs[|cs| - 1] == parent then Ok(Obj(RemoveKey(tax.keys, parent), tax.fields - {parent}))
      else Err("TypeError: Cannot read property '" + cs[|cs| - 1] + "' of undefined")
    else Ok(Put(tax, parent, Without(g, InstallingAmong(g, cs))))
  }

  /** The walk over a group's children computes `GroupAfter`. */
  lemma {:induction false} ChildStepsComputesGroupAfter(tax: Json, parent: string, cs: seq<string>, skip: bool)
    requires tax.Obj? && parent in tax.fields && GroupShape(tax.fields[parent])
    requires NoDuplicates(cs) && forall c | c in cs :: c in tax.fields[parent].fields
    ensures ChildSteps(tax, parent, cs, skip).Err? <==> GroupAfter(tax, parent, cs, skip).Err?
    ensures ChildSteps(tax, parent, cs, skip).Ok? ==> ChildSteps(tax, parent, cs, skip) == GroupAfter(tax, parent, cs, skip)
  {
    var g := tax.fields[parent];
    if cs == [] {
      KeepOnlyNothing(g.keys);
      assert InstallingAmong(g, []) == {};
      assert Without(g, {}) == g;
      assert Put(tax, parent, g) == tax;
      return;
    }
    var cs' := cs[..|cs| - 1];
    var c := cs[|cs| - 1];
    assert cs == cs' + [c];
    assert forall i :: 0 <= i < |cs'| ==> cs'[i] == cs[i];
    assert c !in cs';
    ChildStepsComputesGroupAfter(tax, parent, cs', skip);
    var prev := ChildSteps(tax, parent, cs', skip);
    if prev.Err? {
      assert parent in cs' && RootInstalling(g, parent);
      return;
    }
    assert ChildSteps(tax, parent, cs, skip) == ChildStep(prev.value, parent, c, skip);
    GroupAfterStep(tax, parent, cs', c, skip);
  }

  /** One more child: `GroupAfter` advances as the walk's step does. */
  lemma GroupAfterStep(tax: Json, parent: string, cs: seq<string>, c: string, skip: bool)
    requires tax.Obj? && parent in tax.fields && GroupShape(tax.fields[parent])
    requires c !in cs && c in tax.fields[parent].fields
    requires GroupAfter(tax, parent, cs, skip).Ok?
    ensures var r := ChildStep(GroupAfter(tax, parent, cs, skip).value, parent, c, skip);
            (r.Err? <==> GroupAfter(tax, parent, cs + [c], skip).Err?) &&
            (r.Ok? ==> r == GroupAfter(tax, parent, cs + [c], skip))
  {
    var g := tax.fields[parent];
    var cs1 := cs + [c];
    assert forall x :: x in cs1 <==> x in cs || x == c;
    var tax1 := GroupAfter(tax, parent, cs, skip).value;
    if parent in cs && RootInstalling(g, parent) {
      assert Member(tax1, parent) == Ok(Undefined);
    } else if Installing(g.fields[c]) {
      if c == parent {
        RootStep(tax, parent, cs, skip);
      } else {
        DropStep(tax, parent, cs, c, skip);
      }
    } else {
      assert InstallingAmong(g, cs1) == InstallingAmong(g, cs);
      var g1 := Without(g, InstallingAmong(g, cs));
      assert Member(tax1, parent) == Ok(g1);
      assert Member(g1, c) == Ok(g.fields[c]);
      assert ChildStep(tax1, parent, c, skip) == Ok(tax1);
    }
  }

  /** The installing root removes its whole group. */
  lemma RootStep(tax: Json, parent: string, cs: seq<string>, skip: bool)
    requires tax.Obj? && parent in tax.fields && GroupShape(tax.fields[parent])
    requires parent !in cs && RootInstalling(tax.fields[parent], parent)
    ensures GroupAfter(tax, parent, cs, skip).Ok?
    ensures ChildStep(GroupAfter(tax, parent, cs, skip).value, parent, parent, skip) ==
            GroupAfter(tax, parent, cs + [parent], skip)
  {
    var g := tax.fields[parent];
    var g1 := Without(g, InstallingAmong(g, cs));
    var tax1 := Put(tax, parent, g1);
    assert GroupAfter(tax, parent, cs, skip) == Ok(tax1);
    InstallingRootStep(tax1, parent, skip);
    assert tax1.keys == tax.keys && tax1.fields - {parent} == tax.fields - {parent};
    var cs1 := cs + [parent];
    assert parent in cs1 && cs1[|cs1| - 1] == parent;
  }

  /** The step for an installing root deletes its group. */
  lemma InstallingRootStep(tax: Json, parent: string, skip: bool)
    requires tax.Obj? && parent in tax.fields && RootInstalling(tax.fields[parent], parent)
    ensures ChildStep(tax, parent, parent, skip) == Ok(Obj(RemoveKey(tax.keys, parent), tax.fields - {parent}))
  {
    var p := tax.fields[parent].fields[parent];
    assert Member(p, "status") == Ok(Str("installing"));
  }

  lemma DeleteFromWithout(g: Json, drop: set<string>, c: string)
    requires g.Obj?
    ensures DeleteProp(Without(g, drop), c) == Ok(Without(g, drop + {c}))
  {
    var g1 := Without(g, drop);
    KeepOnlyRemoveKey(g.keys, drop, c);
    assert g1.fields - {c} == g.fields - (drop + {c});
  }

  /** The step for an installing child other than the root deletes it from its group and writes the group back. */
  lemma InstallingChildStep(tax: Json, parent: string, c: string, skip: bool)
    requires tax.Obj? && parent in tax.fields && tax.fields[parent].Obj? && c != parent
    requires c in tax.fields[parent].fields && Installing(tax.fields[parent].fields[c])
    ensures DeleteProp(tax.fields[parent], c).Ok?
    ensures ChildStep(tax, parent, c, skip) == WriteBack(tax, parent, DeleteProp(tax.fields[parent], c).value)
  {
    var p := tax.fields[parent].fields[c];
    assert Member(p, "status") == Ok(Str("installing"));
  }

  /** One more child visited: the installing ones gain it exactly when it is installing. */
  lemma InstallingAmongSnoc(g: Json, cs: seq<string>, c: string)
    requires g.Obj? && c in g.fields
    ensures InstallingAmong(g, cs + [c]) ==
            if Installing(g.fields[c]) then InstallingAmong(g, cs) + {c} else InstallingAmong(g, cs)
  {
    assert forall x :: x in cs + [c] <==> x in cs || x == c;
  }

  /** The step for an installing child `c` of a group already thinned by `drop` thins it by `c` too. */
  lemma ThinStep(tax: Json, parent: string, drop: set<string>, c: string, skip: bool)
    requires tax.Obj? && parent in tax.fields && tax.fields[parent].Obj?
    requires c != parent && c !in drop && c in tax.fields[parent].fields && Installing(tax.fields[parent].fields[c])
    ensures var g := tax.fields[parent];
            ChildStep(Put(tax, parent, Without(g, drop)), parent, c, skip) == Ok(Put(tax, parent, Without(g, drop + {c})))
  {
    var g := tax.fields[parent];
    var g1 := Without(g, drop);
    var g2 := Without(g, drop + {c});
    var tax1 := Put(tax, parent, g1);
    assert tax1.fields[parent] == g1 && tax1.keys == tax.keys;
    assert g1.fields[c] == g.fields[c];
    InstallingChildStep(tax1, parent, c, skip);
    DeleteFromWithout(g, drop, c);
    WriteBackPut(tax1, parent, g2);
    assert tax.fields[parent := g1][parent := g2] == tax.fields[parent := g2];
    assert Put(tax1, parent, g2) == Put(tax, parent, g2);
  }

  /** An installing child other than the root removes only itself. */
  lemma DropStep(tax: Json, parent: string, cs: seq<string>, c: string, skip: bool)
    requires tax.Obj? && parent in tax.fields && GroupShape(tax.fields[parent])
    requires c !in cs && c != parent && c in tax.fields[parent].fields && Installing(tax.fields[parent].fields[c])
    requires !(parent in cs && RootInstalling(tax.fields[parent], parent))
    ensures GroupAfter(tax, parent, cs, skip).Ok?
    ensures ChildStep(GroupAfter(tax, parent, cs, skip).value, parent, c, skip) ==
            GroupAfter(tax, parent, cs + [c], skip)
  {
    var g := tax.fields[parent];
    var drop := InstallingAmong(g, cs);
    InstallingAmongSnoc(g, cs, c);
    assert c !in drop;
    ThinStep(tax, parent, drop, c, skip);
    assert !(parent in cs + [c] && RootInstalling(g, parent));
  }

  /**
   * One group walked in full: a group whose root is not installing loses
   * exactly its installing children; a group whose root is installing is
   * removed when the root is its last child, and the walk fails otherwise.
   */
  lemma GroupWalk(tax: Json, parent: string, skip: bool)
    requires tax.Obj? && parent in tax.fields && GroupShape(tax.fields[parent])
    ensures var g := tax.fields[parent];
            var r := ChildSteps(tax, parent, g.keys, skip);
            (!RootInstalling(g, parent) ==> r == Ok(Put(tax, parent, Survivors(g)))) &&
            (RootInstalling(g, parent) && (skip || g.keys[|g.keys| - 1] == parent) ==>
               r == Ok(Obj(RemoveKey(tax.keys, parent), tax.fields - {parent}))) &&
            (RootInstalling(g, parent) && !skip && g.keys[|g.keys| - 1] != parent ==> r.Err?)
  {
    var g := tax.fields[parent];
    ChildStepsComputesGroupAfter(tax, parent, g.keys, skip);
    assert InstallingAmong(g, g.keys) == set c | c in g.fields && Installing(g.fields[c]);
  }

  /**
   * The walk over a whole taxonomy: every group whose root is not
   * installing keeps its place minus its installing children, every group
   * whose root is installing is removed, and the walk fails exactly when some
   * installing root is not its group's last child.
   */
  predicate GroupOk(g: Json, parent: string, skip: bool)
    requires g.Obj?
  {
    RootInstalling(g, parent) ==> skip || (|g.keys| > 0 && g.keys[|g.keys| - 1] == parent)
  }

  /** The groups among `ps` whose root is installing. */
  function RootsAmong(tax: Json, ps: seq<string>): set<string>
    requires tax.Obj?
  {
    set p | p in ps && p in tax.fields && RootInstalling(tax.fields[p], p)
  }

  /** The taxonomy after walking its first groups `ps`. */
  predicate TaxonomyAfter(tax0: Json, ps: seq<string>, tax: Json)
    requires TaxonomyShape(tax0)
  {
    tax.Obj? &&
    tax.keys == KeepOnly(tax0.keys, RootsAmong(tax0, ps)) &&
    (forall p :: p in tax.fields ==> p in tax0.fields) &&
    (forall p | p in tax0.fields && p !in ps :: p in tax.fields && tax.fields[p] == tax0.fields[p]) &&
    (forall p | p in tax0.fields && p in ps ::
       var g := tax0.fields[p];
       if RootInstalling(g, p) then p !in tax.fields
       else p in tax.fields && tax.fields[p] == Survivors(g))
  }

  lemma {:induction false} ParentStepsWalk(tax0: Json, ps: seq<string>, skip: bool)
    requires TaxonomyShape(tax0) && NoDuplicates(ps) && forall p | p in ps :: p in tax0.fields
    ensures ParentSteps(tax0, ps, skip).Ok? <==> forall p | p in ps :: GroupOk(tax0.fields[p], p, skip)
    ensures ParentSteps(tax0, ps, skip).Ok? ==> TaxonomyAfter(tax0, ps, ParentSteps(tax0, ps, skip).value)
  {
    if ps == [] {
      KeepOnlyNothing(tax0.keys);
      assert RootsAmong(tax0, ps) == {};
      return;
    }
    var ps' := ps[..|ps| - 1];
    var parent := ps[|ps| - 1];
    assert ps == ps' + [parent];
    assert forall i :: 0 <= i < |ps'| ==> ps'[i] == ps[i];
    assert forall x :: x in ps <==> x in ps' || x == parent;
    ParentStepsWalk(tax0, ps', skip);
    var prev := ParentSteps(tax0, ps', skip);
    if prev.Err? {
      return;
    }
    var tax := prev.value;
    var g := tax0.fields[parent];
    ParentStepWalk(tax0, ps', parent, tax, skip);
    assert Member(tax, parent) == Ok(g);
    assert ObjectKeys(g) == Ok(g.keys);
    assert ParentSteps(tax0, ps, skip) == ChildSteps(tax, parent, g.keys, skip);
  }

  /** One more group of the taxonomy walked. */
  lemma ParentStepWalk(tax0: Json, ps: seq<string>, parent: string, tax: Json, skip: bool)
    requires TaxonomyShape(tax0) && parent in tax0.fields && parent !in ps
    requires TaxonomyAfter(tax0, ps, tax)
    ensures parent in tax.fields && tax.fields[parent] == tax0.fields[parent]
    ensures var g := tax0.fields[parent];
            var r := ChildSteps(tax, parent, g.keys, skip);
            (r.Ok? <==> GroupOk(g, parent, skip)) &&
            (r.Ok? ==> TaxonomyAfter(tax0, ps + [parent], r.value))
  {
    var g := tax0.fields[parent];
    GroupWalk(tax, parent, skip);
    if RootInstalling(g, parent) {
      if skip || g.keys[|g.keys| - 1] == parent {
        DropGroupStep(tax0, ps, parent, tax);
      }
    } else {
      KeepGroupStep(tax0, ps, parent, tax);
    }
  }

  lemma DropGroupStep(tax0: Json, ps: seq<string>, parent: string, tax: Json)
    requires TaxonomyShape(tax0) && parent in tax0.fields && parent !in ps
    requires TaxonomyAfter(tax0, ps, tax) && RootInstalling(tax0.fields[parent], parent)
    ensures TaxonomyAfter(tax0, ps + [parent], Obj(RemoveKey(tax.keys, parent), tax.fields - {parent}))
  {
    var ps1 := ps + [parent];
    var after := Obj(RemoveKey(tax.keys, parent), tax.fields - {parent});
    RootsAmongSnoc(tax0, ps, parent);
    KeepOnlyRemoveKey(tax0.keys, RootsAmong(tax0, ps), parent);
    forall p | p in tax0.fields && p in ps1
      ensures var g := tax0.fields[p];
              if RootInstalling(g, p) then p !in after.fields
              else p in after.fields && after.fields[p] == Survivors(g)
    {
      if p != parent {
        assert p in ps;
      }
    }
  }

  lemma KeepGroupStep(tax0: Json, ps: seq<string>, parent: string, tax: Json)
    requires TaxonomyShape(tax0) && parent in tax0.fields && parent !in ps
    requires TaxonomyAfter(tax0, ps, tax) && !RootInstalling(tax0.fields[parent], parent)
    ensures parent in tax.fields
    ensures TaxonomyAfter(tax0, ps + [parent], Put(tax, parent, Survivors(tax0.fields[parent])))
  {
    RootsAmongSnoc(tax0, ps, parent);
  }

  lemma RootsAmongSnoc(tax0: Json, ps: seq<string>, parent: string)
    requires tax0.Obj? && parent in tax0.fields
    ensures RootsAmong(tax0, ps + [parent]) ==
            if RootInstalling(tax0.fields[parent], parent) then RootsAmong(tax0, ps) + {parent} else RootsAmong(tax0, ps)
  {
    assert forall x :: x in ps + [parent] <==> x in ps || x == parent;
  }

  /** The taxonomy's walk in closed form. */
  function CleanTaxonomy(tax: Json): (r: Json)
    requires TaxonomyShape(tax)
  {
    Obj(KeepOnly(tax.keys, RootsAmong(tax, tax.keys)),
        map p | p in tax.fields && !RootInstalling(tax.fields[p], p) :: Survivors(tax.fields[p]))
  }

  /** Every group of the taxonomy passes the walk. */
  predicate TaxonomyOk(tax: Json, skip: bool)
    requires TaxonomyShape(tax)
  {
    forall p | p in tax.fields :: GroupOk(tax.fields[p], p, skip)
  }

  /** Walking a whole taxonomy yields its closed form, or fails on some group. */
  lemma TaxonomyWalk(tax: Json, skip: bool)
    requires TaxonomyShape(tax)
    ensures ParentSteps(tax, tax.keys, skip).Ok? <==> TaxonomyOk(tax, skip)
    ensures ParentSteps(tax, tax.keys, skip).Ok? ==> ParentSteps(tax, tax.keys, skip).value == CleanTaxonomy(tax)
  {
    ParentStepsWalk(tax, tax.keys, skip);
    if ParentSteps(tax, tax.keys, skip).Ok? {
      var r := ParentSteps(tax, tax.keys, skip).value;
      var c := CleanTaxonomy(tax);
      assert r.fields == c.fields;
    }
  }

  /** The tree after walking its first taxonomies `ts`. */
  predicate TreeAfter(tree0: Json, ts: seq<string>, tree: Json)
    requires TreeShape(tree0)
  {
    tree.Obj? && tree.keys == tree0.keys && tree.fields.Keys == tree0.fields.Keys &&
    (forall t | t in tree0.fields && t !in ts :: tree.fields[t] == tree0.fields[t]) &&
    (forall t | t in tree0.fields && t in ts :: tree.fields[t] == CleanTaxonomy(tree0.fields[t]))
  }

  /** Every group of the tree passes the walk. */
  predicate TreeOk(tree: Json, skip: bool)
    requires TreeShape(tree)
  {
    forall t | t in tree.fields :: TaxonomyOk(tree.fields[t], skip)
  }

  lemma {:induction false} TypeStepsWalk(tree0: Json, ts: seq<string>, skip: bool)
    requires TreeShape(tree0) && NoDuplicates(ts) && forall t | t in ts :: t in tree0.fields
    ensures TypeSteps(tree0, ts, skip).Ok? <==> forall t | t in ts :: TaxonomyOk(tree0.fields[t], skip)
    ensures TypeSteps(tree0, ts, skip).Ok? ==> TreeAfter(tree0, ts, TypeSteps(tree0, ts, skip).value)
  {
    if ts == [] {
      return;
    }
    var ts' := ts[..|ts| - 1];
    var t := ts[|ts| - 1];
    assert forall i :: 0 <= i < |ts'| ==> ts'[i] == ts[i];
    assert t !in ts';
    assert forall x :: x in ts <==> x in ts' || x == t;
    TypeStepsWalk(tree0, ts', skip);
    var prev := TypeSteps(tree0, ts', skip);
    if prev.Err? {
      return;
    }
    var tree := prev.value;
    var tax := tree0.fields[t];
    assert Member(tree, t) == Ok(tax);
    assert ObjectKeys(tax) == Ok(tax.keys);
    TaxonomyWalk(tax, skip);
    var r := ParentSteps(tax, tax.keys, skip);
    if r.Ok? {
      WriteBackPut(tree, t, r.value);
      assert TypeSteps(tree0, ts, skip) == Ok(Put(tree, t, r.value));
    } else {
      assert TypeSteps(tree0, ts, skip) == r;
    }
  }

  /** The tree's walk in closed form. */
  function CleanTree(tree: Json): (r: Json)
    requires TreeShape(tree)
  {
    Obj(tree.keys, map t | t in tree.fields :: CleanTaxonomy(tree.fields[t]))
  }

  /**
   * `getInstalledObj`'s walk over a stored tree succeeds exactly when every
   * installing root is the last child of its group, and then yields the
   * tree's closed form.
   */
  lemma FilterInstallingComputesCleanTree(tree: Json, skip: bool)
    requires TreeShape(tree)
    ensures FilterInstalling(tree, skip).Ok? <==> TreeOk(tree, skip)
    ensures FilterInstalling(tree, skip).Ok? ==> FilterInstalling(tree, skip).value == CleanTree(tree)
  {
    assert ForInKeys(tree) == tree.keys;
    TypeStepsWalk(tree, tree.keys, skip);
    if FilterInstalling(tree, skip).Ok? {
      var r := FilterInstalling(tree, skip).value;
      assert r.fields == CleanTree(tree).fields;
    }
  }

  /**
   * What survives the walk: no installing record; a group whose root is
   * installing is gone as a whole; in every other group each installing
   * record is gone and every other record is kept unchanged.
   */
  lemma FilterInstallingKeepsTheRest(tree: Json, t: string, p: string, c: string, skip: bool)
    requires TreeShape(tree) && FilterInstalling(tree, skip).Ok?
    requires t in tree.fields && p in tree.fields[t].fields
    ensures var r := FilterInstalling(tree, skip).value;
            var g := tree.fields[t].fields[p];
            r.Obj? && t in r.fields && r.fields[t].Obj? &&
            (RootInstalling(g, p) ==> p !in r.fields[t].fields) &&
            (!RootInstalling(g, p) ==>
               p in r.fields[t].fields && r.fields[t].fields[p].Obj? &&
               (c in r.fields[t].fields[p].fields <==> c in g.fields && !Installing(g.fields[c])) &&
               (c in r.fields[t].fields[p].fields ==> r.fields[t].fields[p].fields[c] == g.fields[c]))
  {
    FilterInstallingComputesCleanTree(tree, skip);
  }

  /** A tree without installing records comes back unchanged. */
  lemma FilterInstallingIdentity(tree: Json, skip: bool)
    requires TreeShape(tree)
    requires forall t, p, c | t in tree.fields && p in tree.fields[t].fields && c in tree.fields[t].fields[p].fields ::
               !Installing(tree.fields[t].fields[p].fields[c])
    ensures FilterInstalling(tree, skip) == Ok(tree)
  {
    FilterInstallingComputesCleanTree(tree, skip);
    forall t | t in tree.fields ensures CleanTaxonomy(tree.fields[t]) == tree.fields[t] {
      CleanTaxonomyIdentity(tree.fields[t], skip);
    }
    assert CleanTree(tree).fields == tree.fields;
    assert CleanTree(tree) == tree;
  }

  /** A tree with one group whose installing root `A` is followed by the child `B`. */
  function RootBeforeChildTree(): Json
  {
    var child := Obj(["status"], map["status" := Str("installed")]);
    var root := Obj(["status"], map["status" := Str("installing")]);
    Obj(["Project"], map["Project" := Obj(["A"], map["A" := Obj(["A", "B"], map["A" := root, "B" := child])])])
  }

  /**
   * As written, a group whose installing root is not its last child makes
   * the whole walk fail: the next child is read from the deleted group.
   */
  lemma RootBeforeChildFails()
    ensures TreeShape(RootBeforeChildTree()) && FilterInstalling(RootBeforeChildTree(), false).Err?
  {
    var tree := RootBeforeChildTree();
    var group := tree.fields["Project"].fields["A"];
    assert RootInstalling(group, "A");
    assert !GroupOk(group, "A", false);
    FilterInstallingComputesCleanTree(tree, false);
    assert !TreeOk(tree, false);
  }

  /** With dropped groups skipped, the same tree loses the group as a whole. */
  lemma RootBeforeChildSkipped()
    ensures TreeShape(RootBeforeChildTree())
    ensures FilterInstalling(RootBeforeChildTree(), true) == Ok(Obj(["Project"], map["Project" := Obj([], map[])]))
  {
    var tree := RootBeforeChildTree();
    RootBeforeChildTaxonomy();
    FilterInstallingComputesCleanTree(tree, true);
    assert CleanTree(tree).fields == map["Project" := Obj([], map[])];
  }

  lemma RootBeforeChildTaxonomy()
    ensures var tax := RootBeforeChildTree().fields["Project"];
            TaxonomyShape(tax) && CleanTaxonomy(tax) == Obj([], map[])
  {
    var tax := RootBeforeChildTree().fields["Project"];
    assert RootInstalling(tax.fields["A"], "A");
    assert RootsAmong(tax, tax.keys) == {"A"};
    assert KeepOnly(tax.keys, {"A"}) == [];
    assert CleanTaxonomy(tax).fields == map[];
  }

  /**
   * With dropped groups skipped, the walk never fails on a stored tree and
   * always yields its closed form.
   */
  lemma FilterInstallingFixedTotal(tree: Json)
    requires TreeShape(tree)
    ensures FilterInstalling(tree, true) == Ok(CleanTree(tree))
  {
    FilterInstallingComputesCleanTree(tree, true);
  }

  lemma CleanTaxonomyIdentity(tax: Json, skip: bool)
    requires TaxonomyShape(tax)
    requires forall p, c | p in tax.fields && c in tax.fields[p].fields :: !Installing(tax.fields[p].fields[c])
    ensures TaxonomyOk(tax, skip) && CleanTaxonomy(tax) == tax
  {
    assert RootsAmong(tax, tax.keys) == {};
    KeepOnlyNothing(tax.keys);
    forall p | p in tax.fields ensures Survivors(tax.fields[p]) == tax.fields[p] {
      SurvivorsIdentity(tax.fields[p]);
    }
    assert CleanTaxonomy(tax).fields == tax.fields;
  }

  lemma SurvivorsIdentity(g: Json)
    requires GroupShape(g)
    requires forall c | c in g.fields :: !Installing(g.fields[c])
    ensures Survivors(g) == g
  {
    assert (set c | c in g.fields && Installing(g.fields[c])) == {};
    KeepOnlyNothing(g.keys);
    assert Survivors(g).fields == g.fields;
  }

  // ---------------------------------------------------------------------
  // The lookup after the walk (PackageManager.js:267-272)

  /** `s` holds `sub` somewhere. */
  predicate Contains(s: string, sub: string)
    decreases |s|
  {
    (|sub| <= |s| && s[..|sub|] == sub) || (|s| > 0 && Contains(s[1..], sub))
  }

  /**
   * `type.indexOf([0, 1]) > -1`: a string searches for the text "0,1"; an
   * array searches for a fresh array and never finds it; any other value has
   * no `indexOf`.
   */
  function IndexOfZeroOne(typ: Json): (r: Result<bool>)
    ensures r.Ok? <==> typ.Str? || typ.Arr?
    ensures typ.Arr? ==> r == Ok(false)
    ensures typ.Str? ==> r == Ok(Contains(typ.s, "0,1"))
  {
    match typ
    case Str(s) => Ok(Contains(s, "0,1"))
    case Arr(_) => Ok(false)
    case Undefined => Err("TypeError: Cannot read property 'indexOf' of undefined")
    case Null => Err("TypeError: Cannot read property 'indexOf' of null")
    case _ => Err("TypeError: type.indexOf is not a function")
  }

  /**
   * PackageManager.js:267-272 as written: the named entry, or the whole
   * tree.  Without a name the tree comes back; with a name and a numeric
   * type the call throws; and whatever it reads, it never reads `Project`.
   */
  function Lookup(tree: Json, name: Json, typ: Json): (r: Result<Json>)
    ensures !(Truthy(name) && name.Str?) ==> r == Ok(tree)
    ensures Truthy(name) && name.Str? && typ.Num? ==> r.Err?
    ensures r.Ok? ==> r == Ok(tree) || (name.Str? && r == GetIn(tree, ["Plugin", name.s]))
  {
    if Truthy(name) && name.Str? then
      var found :- IndexOfZeroOne(typ);
      if found then
        var taxonomy := if StrictEq(typ, Num(0)) then "Project" else "Plugin";
        GetIn(tree, [taxonomy, name.s])
      else Ok(tree)
    else Ok(tree)
  }

  /**
   * `getInstalledObj(name, type)` as written: a failed walk is the call's
   * failure, and without a name the walked tree itself comes back.
   */
  function GetInstalledObj(tree: Json, name: Json, typ: Json): (r: Result<Json>)
    ensures FilterInstalling(tree, false).Err? ==> r == Err(FilterInstalling(tree, false).error)
    ensures !(Truthy(name) && name.Str?) ==> r == FilterInstalling(tree, false)
  {
    var walked :- FilterInstalling(tree, false);
    Lookup(walked, name, typ)
  }

  /**
   * The documented call `getInstalledObj(name, 0)` or `(name, 1)` with a
   * non-empty name always fails: a number has no `indexOf`.
   */
  lemma NumericTypeFails(tree: Json, name: string, n: int)
    requires name != [] && FilterInstalling(tree, false).Ok?
    ensures GetInstalledObj(tree, Str(name), Num(n)).Err?
  {
  }

  /** Called without a name, as every caller does, the walked tree itself comes back. */
  lemma UnnamedLookupIsTheTree(tree: Json, typ: Json)
    requires TreeShape(tree)
    ensures GetInstalledObj(tree, Undefined, typ) == FilterInstalling(tree, false)
    ensures TreeOk(tree, false) ==> GetInstalledObj(tree, Undefined, typ) == Ok(CleanTree(tree))
  {
    FilterInstallingComputesCleanTree(tree, false);
  }

  /**
   * The lookup evidently intended: `[0, 1].indexOf(type) > -1`.  Without a
   * name, or with a type other than 0 and 1, the tree comes back; type 0
   * reads `Project[name]` and type 1 reads `Plugin[name]`.
   */
  function LookupIntended(tree: Json, name: Json, typ: Json): (r: Result<Json>)
    ensures !(Truthy(name) && name.Str? && (typ == Num(0) || typ == Num(1))) ==> r == Ok(tree)
    ensures Truthy(name) && name.Str? && (typ == Num(0) || typ == Num(1)) && tree.Obj? ==>
              var t := if typ == Num(0) then "Project" else "Plugin";
              t in tree.fields && tree.fields[t].Obj? ==>
                r == Ok(if name.s in tree.fields[t].fields then tree.fields[t].fields[name.s] else Undefined)
  {
    if Truthy(name) && name.Str? && (typ == Num(0) || typ == Num(1)) then
      var t := if typ == Num(0) then "Project" else "Plugin";
      assert [t, name.s][1..] == [name.s] && [name.s][1..] == [];
      assert tree.Obj? && t in tree.fields && tree.fields[t].Obj? ==>
               GetIn(tree, [t, name.s]) == GetIn(tree.fields[t], [name.s]) &&
               GetIn(tree.fields[t], [name.s]) == GetIn(Member(tree.fields[t], name.s).value, []);
      GetIn(tree, [t, name.s])
    else Ok(tree)
  }

  /** `getInstalledObj(name, type)` with both corrections: dropped groups are skipped and the type test is the intended one. */
  function GetInstalledObjIntended(tree: Json, name: Json, typ: Json): (r: Result<Json>)
    ensures FilterInstalling(tree, true).Err? ==> r == Err(FilterInstalling(tree, true).error)
    ensures !(Truthy(name) && name.Str?) ==> r == FilterInstalling(tree, true)
  {
    var walked :- FilterInstalling(tree, true);
    LookupIntended(walked, name, typ)
  }

  /** The intended lookup on a tree of objects: the whole tree without a name, otherwise the named group. */
  lemma LookupIntendedCases(tree: Json, name: Json, typ: Json)
    requires tree.Obj? && forall t | t in tree.fields :: tree.fields[t].Obj?
    ensures !(Truthy(name) && name.Str?) ==> LookupIntended(tree, name, typ) == Ok(tree)
    ensures Truthy(name) && name.Str? && (typ == Num(0) || typ == Num(1)) ==>
              var t := if typ == Num(0) then "Project" else "Plugin";
              (t in tree.fields <==> LookupIntended(tree, name, typ).Ok?) &&
              (t in tree.fields ==>
                 LookupIntended(tree, name, typ) ==
                   Ok(if name.s in tree.fields[t].fields then tree.fields[t].fields[name.s] else Undefined))
  {
    if Truthy(name) && name.Str? && (typ == Num(0) || typ == Num(1)) {
      var t := if typ == Num(0) then "Project" else "Plugin";
      var path := [t, name.s];
      assert path[0] == t && path[1..] == [name.s];
      if t in tree.fields {
        var c := tree.fields[t];
        assert GetIn(tree, path) == GetIn(c, [name.s]);
        assert [name.s][1..] == [];
        assert GetIn(c, [name.s]) == GetIn(Member(c, name.s).value, []);
        assert LookupIntended(tree, name, typ) == GetIn(tree, path);
      } else {
        assert GetIn(tree, path) == GetIn(Undefined, [name.s]);
      }
    }
  }

  /**
   * Corrected, the call never fails on a stored tree: without a name it
   * yields the tree's closed form, and with name `n` and type 0 or 1 it
   * yields `n`'s group of the matching taxonomy in that closed form,
   * failing only when that taxonomy is absent.
   */
  lemma GetInstalledObjIntendedTotal(tree: Json, name: Json, typ: Json)
    requires TreeShape(tree)
    ensures !(Truthy(name) && name.Str?) ==> GetInstalledObjIntended(tree, name, typ) == Ok(CleanTree(tree))
    ensures Truthy(name) && name.Str? && (typ == Num(0) || typ == Num(1)) ==>
              var t := if typ == Num(0) then "Project" else "Plugin";
              var clean := CleanTree(tree);
              (t in clean.fields <==> GetInstalledObjIntended(tree, name, typ).Ok?) &&
              (t in clean.fields ==>
                 GetInstalledObjIntended(tree, name, typ) ==
                   Ok(if name.s in clean.fields[t].fields then clean.fields[t].fields[name.s] else Undefined))
  {
    FilterInstallingFixedTotal(tree);
    var clean := CleanTree(tree);
    assert forall t | t in clean.fields :: clean.fields[t] == CleanTaxonomy(tree.fields[t]);
    LookupIntendedCases(clean, name, typ);
  }
}
