/**
 * The deep merge the state store uses to fold new data into the stored tree
 * (`lodash.merge`, StatusJSONManager.js:39), restricted to JSON-shaped
 * values:
 *  - two objects merge key by key; the stored keys keep their order and the
 *    new keys are appended in the order the data lists them;
 *  - two arrays merge index by index (they are not concatenated, and a
 *    shorter new array leaves the stored tail in place);
 *  - an `undefined` member of the data leaves a stored value in place;
 *  - anything else in the data replaces the stored value.
 * The last rule departs from lodash where an object meets a stored array
 * (lodash copies the object's keys onto the array) and where an array
 * meets a stored array-like object; those two cases are not modelled.
 */
module DeepMerge {
  import opened JsValue

  /** The keys of the data that the stored object lacks, in the data's order. */
  function NewKeys(srcKeys: seq<string>, src: map<string, Json>, dst: map<string, Json>): (r: seq<string>)
    ensures forall i :: 0 <= i < |r| ==> r[i] in src && r[i] !in dst
    ensures forall k :: k in srcKeys && k in src && k !in dst ==> k in r
  {
    if srcKeys == [] then []
    else if srcKeys[0] in src && srcKeys[0] !in dst then [srcKeys[0]] + NewKeys(srcKeys[1..], src, dst)
    else NewKeys(srcKeys[1..], src, dst)
  }

  function Max(a: nat, b: nat): nat { if a < b then b else a }

  /**
   * `merge(dst, src)`: the value `dst` becomes once `src` is merged into it.
   * Merging two objects yields an object whose key set is the union and
   * which lists the stored keys first, in their order; two arrays merge
   * into one as long as the longer; an `undefined` source leaves `dst`,
   * and a plain value replaces it.
   */
  function Merge(dst: Json, src: Json): (r: Json)
    ensures src.Undefined? ==> r == dst
    ensures IsLeaf(src) ==> r == src
    ensures dst.Obj? && src.Obj? ==>
              r.Obj? && r.fields.Keys == dst.fields.Keys + src.fields.Keys && |dst.keys| <= |r.keys| && r.keys[..|dst.keys|] == dst.keys
    ensures dst.Arr? && src.Arr? ==> r.Arr? && |r.items| == Max(|dst.items|, |src.items|)
    decreases src
  {
    match src
    case Undefined => dst
    case Obj(sk, sf) =>
      if dst.Obj? then
        Obj(dst.keys + NewKeys(sk, sf, dst.fields),
            map k | k in dst.fields.Keys + sf.Keys ::
              if k in sf && k in dst.fields then Merge(dst.fields[k], sf[k])
              else if k in sf then sf[k]
              else dst.fields[k])
      else src
    case Arr(si) =>
      if dst.Arr? then
        Arr(seq(Max(|dst.items|, |si|), i requires 0 <= i < Max(|dst.items|, |si|) =>
          if i < |si| && i < |dst.items| then Merge(dst.items[i], si[i])
          else if i < |si| then si[i]
          else dst.items[i]))
      else src
    case _ => src
  }

  /** A key the data does not mention keeps its stored value. */
  lemma MergeKeepsAbsentKey(dst: Json, src: Json, k: string)
    requires dst.Obj? && src.Obj? && k in dst.fields && k !in src.fields
    ensures Merge(dst, src).fields[k] == dst.fields[k]
  {
  }

  /** Merging the empty object changes nothing. */
  lemma MergeEmpty(dst: Json)
    requires dst.Obj?
    ensures Merge(dst, EmptyObj) == dst
  {
    var r := Merge(dst, EmptyObj);
    assert r.keys == dst.keys;
    assert r.fields == dst.fields;
  }

  /** Merging a value into itself gives it back. */
  lemma {:induction false} MergeSelf(x: Json)
    ensures Merge(x, x) == x
  {
    match x
    case Obj(keys, f) =>
      NewKeysOfCovered(keys, f, f);
      forall k | k in f ensures Merge(f[k], f[k]) == f[k] {
        MergeSelf(f[k]);
      }
      assert Merge(x, x).fields == f;
    case Arr(items) =>
      forall i | 0 <= i < |items| ensures Merge(items[i], items[i]) == items[i] {
        MergeSelf(items[i]);
      }
      assert Merge(x, x).items == items;
    case _ =>
  }

  lemma {:induction false} NewKeysOfCovered(srcKeys: seq<string>, src: map<string, Json>, dst: map<string, Json>)
    requires src.Keys <= dst.Keys
    ensures NewKeys(srcKeys, src, dst) == []
  {
    if srcKeys != [] {
      NewKeysOfCovered(srcKeys[1..], src, dst);
    }
  }

  /** Merging the same data twice gives what merging it once gives. */
  lemma {:induction false} MergeIdempotent(dst: Json, src: Json)
    ensures Merge(Merge(dst, src), src) == Merge(dst, src)
    decreases src
  {
    var m := Merge(dst, src);
    match src
    case Undefined =>
    case Obj(sk, sf) =>
      if dst.Obj? {
        NewKeysOfCovered(sk, sf, m.fields);
        forall k | k in m.fields ensures Merge(m, src).fields[k] == m.fields[k] {
          if k in sf {
            if k in dst.fields {
              MergeIdempotent(dst.fields[k], sf[k]);
            } else {
              MergeSelf(sf[k]);
            }
          }
        }
        assert Merge(m, src).fields == m.fields;
      } else {
        MergeSelf(src);
      }
    case Arr(si) =>
      if dst.Arr? {
        forall i | 0 <= i < |m.items| ensures Merge(m, src).items[i] == m.items[i] {
          if i < |si| {
            if i < |dst.items| {
              MergeIdempotent(dst.items[i], si[i]);
            } else {
              MergeSelf(si[i]);
            }
          }
        }
        assert Merge(m, src).items == m.items;
      } else {
        MergeSelf(src);
      }
    case _ =>
  }

  /** The value reached by following object keys `path` from `v`. */
  function At(v: Json, path: seq<string>): Option<Json>
  {
    if path == [] then Some(v)
    else if v.Obj? && path[0] in v.fields then At(v.fields[path[0]], path[1..])
    else None
  }

  /** Two key paths that part ways: at some position both have a key and the keys differ. */
  predicate Diverge(p: seq<string>, q: seq<string>)
    decreases |p|
  {
    |p| > 0 && |q| > 0 && (p[0] != q[0] || Diverge(p[1..], q[1..]))
  }

  /** `{p0: {p1: … {pn: leaf}}}`: the object literal holding `leaf` at `path`. */
  function Nest(path: seq<string>, leaf: Json): (r: Json)
    ensures At(r, path) == Some(leaf)
    ensures |path| > 0 ==> r.Obj? && r.keys == [path[0]]
    decreases |path|
  {
    if path == [] then leaf else Single(path[0], Nest(path[1..], leaf))
  }

  /** Following `p` and then `q` is following `p + q`. */
  lemma {:induction false} AtAppend(v: Json, p: seq<string>, q: seq<string>)
    ensures At(v, p + q) == if At(v, p).Some? then At(At(v, p).value, q) else None
    decreases |p|
  {
    if p != [] {
      assert (p + q)[0] == p[0] && (p + q)[1..] == p[1..] + q;
      if v.Obj? && p[0] in v.fields {
        AtAppend(v.fields[p[0]], p[1..], q);
      }
    } else {
      assert p + q == q;
    }
  }

  /** A nested literal leaves alone every path that parts from its own, where the tree holds that path. */
  lemma {:induction false} NestUntouched(dst: Json, path: seq<string>, leaf: Json, q: seq<string>)
    requires At(dst, path).Some? && Diverge(q, path)
    ensures Untouched(dst, Nest(path, leaf), q)
    decreases |path|
  {
    if q[0] == path[0] {
      NestUntouched(dst.fields[path[0]], path[1..], leaf, q[1..]);
    }
  }

  /** Below its own path, a nested literal leaves alone every key its leaf object lacks. */
  lemma {:induction false} NestUntouchedBelow(dst: Json, path: seq<string>, leaf: Json, k: string, rest: seq<string>)
    requires At(dst, path).Some? && At(dst, path).value.Obj? && leaf.Obj? && k !in leaf.fields
    ensures Untouched(dst, Nest(path, leaf), path + [k] + rest)
    decreases |path|
  {
    var q := path + [k] + rest;
    if path != [] {
      assert q[0] == path[0] && q[1..] == path[1..] + [k] + rest;
      NestUntouchedBelow(dst.fields[path[0]], path[1..], leaf, k, rest);
    } else {
      assert q[0] == k;
    }
  }

  /** A scalar that is neither `undefined`, an array nor an object. */
  predicate IsLeaf(v: Json)
  {
    !v.Undefined? && !v.Arr? && !v.Obj?
  }

  /** Every scalar the data holds ends up at the same place in the result. */
  lemma {:induction false} MergeDataLeafWins(dst: Json, src: Json, path: seq<string>)
    requires At(src, path).Some? && IsLeaf(At(src, path).value)
    ensures At(Merge(dst, src), path) == At(src, path)
    decreases path
  {
    if path != [] {
      var k := path[0];
      if dst.Obj? && k in dst.fields {
        MergeDataLeafWins(dst.fields[k], src.fields[k], path[1..]);
      }
    }
  }

  /**
   * `path` leads through objects of the data until it leaves the data, and
   * the stored tree has objects at the same places.
   */
  predicate Untouched(dst: Json, src: Json, path: seq<string>)
    decreases path
  {
    |path| > 0 && dst.Obj? && src.Obj? &&
    (path[0] !in src.fields ||
     (path[0] in dst.fields && Untouched(dst.fields[path[0]], src.fields[path[0]], path[1..])))
  }

  /** A stored value the data does not reach keeps its place and value. */
  lemma {:induction false} MergeKeepsUntouched(dst: Json, src: Json, path: seq<string>)
    requires Untouched(dst, src, path)
    ensures At(Merge(dst, src), path) == At(dst, path)
    decreases path
  {
    var k := path[0];
    if k in src.fields {
      MergeKeepsUntouched(dst.fields[k], src.fields[k], path[1..]);
    }
  }

  /** One step down a path. */
  lemma AtCons(v: Json, k: string, rest: seq<string>)
    requires v.Obj? && k in v.fields
    ensures At(v, [k] + rest) == At(v.fields[k], rest)
  {
    assert ([k] + rest)[1..] == rest;
  }

  /** Writing a tree out keeps every leaf other than `undefined` where it was. */
  lemma {:induction false} SerializeKeepsLeaf(v: Json, path: seq<string>)
    requires !v.Undefined? && At(v, path).Some? && IsLeaf(At(v, path).value)
    ensures At(Serialize(v), path) == At(v, path)
    decreases |path|
  {
    if path != [] {
      var c := v.fields[path[0]];
      assert !c.Undefined? by {
        if path[1..] == [] { assert At(c, path[1..]) == Some(c); }
      }
      assert Serialize(v).fields[path[0]] == Serialize(c);
      SerializeKeepsLeaf(c, path[1..]);
    } else {
      assert Serialize(v) == v;
    }
  }

  /** Merging JSON into JSON gives JSON (no `undefined` appears). */
  lemma {:induction false} MergePlain(dst: Json, src: Json)
    requires Plain(dst) && Plain(src)
    ensures Plain(Merge(dst, src))
    decreases src
  {
    match src
    case Obj(sk, sf) =>
      if dst.Obj? {
        var m := Merge(dst, src);
        forall k | k in m.fields ensures Plain(m.fields[k]) {
          if k in sf && k in dst.fields {
            MergePlain(dst.fields[k], sf[k]);
          }
        }
      }
    case Arr(si) =>
      if dst.Arr? {
        var m := Merge(dst, src);
        forall i | 0 <= i < |m.items| ensures Plain(m.items[i]) {
          if i < |si| && i < |dst.items| {
            MergePlain(dst.items[i], si[i]);
          }
        }
      }
    case _ =>
  }
}
