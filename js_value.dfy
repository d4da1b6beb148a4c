/**
 * JavaScript values as the extension market handles them: the JSON it reads
 * from the registry and from its state file, plus `undefined`, which the
 * in-memory objects it builds may hold and which JSON serialisation drops.
 *
 * Objects keep their key order (`keys`), because the market iterates
 * `Object.keys(...)` and the order decides which version is found first
 * and which parent is reported.  Property reads, writes and deletes follow
 * strict-mode JavaScript on own properties: touching a property of `null`
 * or `undefined` is a TypeError, modelled as `Err`.  Numbers are integers,
 * nothing is inherited from `Object.prototype`, and writes are modelled on
 * objects only.
 */
module JsValue {

  datatype Option<+T> = None | Some(value: T)

  /** An outcome that is either a value or a thrown error (its message). */
  datatype Result<+T> = Ok(value: T) | Err(error: string) {
    predicate IsFailure() { Err? }
    function PropagateFailure<U>(): Result<U>
      requires Err?
    {
      Err(error)
    }
    function Extract(): T
      requires Ok?
    {
      value
    }
  }

  /** The `[err, value]` pair the market's operations answer with; `err` is `null` or a message. */
  datatype Reply = Reply(err: Option<string>, value: Json)

  datatype Json =
    | Undefined
    | Null
    | Bool(b: bool)
    | Num(n: int)
    | Str(s: string)
    | Arr(items: seq<Json>)
    | Obj(keys: seq<string>, fields: map<string, Json>)

  const EmptyObj: Json := Obj([], map[])

  /** A one-member object `{k: v}`. */
  function Single(k: string, v: Json): (r: Json)
    ensures r.Obj? && r.keys == [k] && r.fields == map[k := v]
  {
    Obj([k], map[k := v])
  }

  // ---------------------------------------------------------------------
  // Truthiness, `||`, `===`

  predicate Truthy(v: Json)
  {
    match v
    case Undefined => false
    case Null => false
    case Bool(b) => b
    case Num(n) => n != 0
    case Str(s) => s != ""
    case _ => true
  }

  /** `v || d`: the first operand when it is truthy, the second otherwise. */
  function OrElse(v: Json, d: Json): (r: Json)
    ensures Truthy(v) ==> r == v
    ensures !Truthy(v) ==> r == d
  {
    if Truthy(v) then v else d
  }

  /** A destructuring default (`{name = ''}`, `version = 'latest'`): the default replaces `undefined` only. */
  function Default(v: Json, d: Json): (r: Json)
    ensures !v.Undefined? ==> r == v
    ensures v.Undefined? ==> r == d
  {
    if v.Undefined? then d else v
  }

  /**
   * `a === b`.  Primitives compare by value; arrays and objects compare by
   * reference, and the values compared here are always separately built, so
   * two of them are never identical.
   */
  predicate StrictEq(a: Json, b: Json)
  {
    match (a, b)
    case (Undefined, Undefined) => true
    case (Null, Null) => true
    case (Bool(x), Bool(y)) => x == y
    case (Num(x), Num(y)) => x == y
    case (Str(x), Str(y)) => x == y
    case _ => false
  }

  lemma StrictEqIsValueEqualityOnPrimitives(a: Json, b: Json)
    requires !a.Arr? && !a.Obj?
    ensures StrictEq(a, b) <==> a == b
  {
  }

  // ---------------------------------------------------------------------
  // Decimal strings and array indices

  function DigitChar(d: nat): char
    requires d < 10
  {
    "0123456789"[d]
  }

  predicate IsDigit(c: char) { '0' <= c <= '9' }

  function NatToString(n: nat): (r: string)
    ensures |r| > 0
    ensures forall i :: 0 <= i < |r| ==> IsDigit(r[i])
    ensures n > 0 ==> r[0] != '0'
    ensures n == 0 ==> r == "0"
  {
    if n < 10 then [DigitChar(n)] else NatToString(n / 10) + [DigitChar(n % 10)]
  }

  function DigitValue(c: char): nat
    requires IsDigit(c)
  {
    (c as int) - ('0' as int)
  }

  function DigitsValue(s: string): nat
    requires forall i :: 0 <= i < |s| ==> IsDigit(s[i])
  {
    if s == [] then 0 else DigitsValue(s[..|s| - 1]) * 10 + DigitValue(s[|s| - 1])
  }

  /**
   * The array index a property key denotes: a non-empty run of decimal
   * digits without a leading zero (or "0" itself).
   */
  function ParseIndex(k: string): Option<nat>
  {
    if k == "" || (|k| > 1 && k[0] == '0') then None
    else if forall i :: 0 <= i < |k| ==> IsDigit(k[i]) then Some(DigitsValue(k))
    else None
  }

  lemma {:induction false} DigitsValueOfNatToString(n: nat)
    ensures DigitsValue(NatToString(n)) == n
  {
    if n >= 10 {
      var s := NatToString(n);
      assert s[..|s| - 1] == NatToString(n / 10);
      DigitsValueOfNatToString(n / 10);
    }
  }

  /** Writing an index and reading it back gives the index. */
  lemma ParseIndexOfNatToString(n: nat)
    ensures ParseIndex(NatToString(n)) == Some(n)
  {
    DigitsValueOfNatToString(n);
  }

  function IntToString(n: int): string
  {
    if n < 0 then "-" + NatToString(-n) else NatToString(n)
  }

  /** The keys `"0" .. "n-1"` that `Object.keys` gives for an array or string. */
  function Indices(n: nat): (r: seq<string>)
    ensures |r| == n
    ensures forall i :: 0 <= i < n ==> r[i] == NatToString(i)
  {
    seq(n, i requires 0 <= i < n => NatToString(i))
  }

  // ---------------------------------------------------------------------
  // Property keys: `o[v]` looks up the string form of `v`

  function JoinComma(parts: seq<string>): string
  {
    if parts == [] then ""
    else if |parts| == 1 then parts[0]
    else parts[0] + "," + JoinComma(parts[1..])
  }

  /** JavaScript's ToString, as used for a computed property key or in a template literal. */
  function ToKey(v: Json): string
  {
    match v
    case Undefined => "undefined"
    case Null => "null"
    case Bool(b) => if b then "true" else "false"
    case Num(n) => IntToString(n)
    case Str(s) => s
    case Arr(items) =>
      JoinComma(seq(|items|, i requires 0 <= i < |items| =>
        if items[i].Undefined? || items[i].Null? then "" else ToKey(items[i])))
    case Obj(_, _) => "[object Object]"
  }

  // ---------------------------------------------------------------------
  // Reading, writing and deleting properties

  /** `base[k]`, reading own properties only. */
  function Member(base: Json, k: string): (r: Result<Json>)
    ensures r.Err? <==> base.Undefined? || base.Null?
    ensures base.Obj? && k in base.fields ==> r == Ok(base.fields[k])
    ensures base.Obj? && k !in base.fields ==> r == Ok(Undefined)
  {
    match base
    case Undefined => Err("TypeError: Cannot read property '" + k + "' of undefined")
    case Null => Err("TypeError: Cannot read property '" + k + "' of null")
    case Obj(_, f) => Ok(if k in f then f[k] else Undefined)
    case Arr(items) =>
      if k == "length" then Ok(Num(|items|))
      else (match ParseIndex(k)
            case Some(i) => Ok(if i < |items| then items[i] else Undefined)
            case None => Ok(Undefined))
    case Str(s) =>
      if k == "length" then Ok(Num(|s|))
      else (match ParseIndex(k)
            case Some(i) => Ok(if i < |s| then Str([s[i]]) else Undefined)
            case None => Ok(Undefined))
    case _ => Ok(Undefined)
  }

  /** `Object.keys(v)`. */
  function ObjectKeys(v: Json): (r: Result<seq<string>>)
    ensures r.Err? <==> v.Undefined? || v.Null?
    ensures v.Obj? ==> r == Ok(v.keys)
  {
    match v
    case Undefined => Err("TypeError: Cannot convert undefined or null to object")
    case Null => Err("TypeError: Cannot convert undefined or null to object")
    case Obj(keys, _) => Ok(keys)
    case Arr(items) => Ok(Indices(|items|))
    case Str(s) => Ok(Indices(|s|))
    case _ => Ok([])
  }

  /** The keys a `for (k in v)` loop visits; `null` and `undefined` give none. */
  function ForInKeys(v: Json): seq<string>
  {
    match ObjectKeys(v)
    case Ok(ks) => ks
    case Err(_) => []
  }

  /** PackageManager.js:23-30 `isEmptyObj`: no own enumerable key. */
  predicate IsEmptyObj(v: Json)
    ensures IsEmptyObj(v) <==> (v.Obj? ==> v.keys == []) && (v.Arr? ==> v.items == []) && (v.Str? ==> v.s == [])
  {
    ForInKeys(v) == []
  }

  function RemoveKey(keys: seq<string>, k: string): (r: seq<string>)
    ensures forall x :: x in r <==> x in keys && x != k
    ensures |r| <= |keys|
  {
    if keys == [] then []
    else if keys[0] == k then RemoveKey(keys[1..], k)
    else [keys[0]] + RemoveKey(keys[1..], k)
  }

  /** Strict-mode `base[k] = v`; the write is modelled on objects only. */
  function SetProp(base: Json, k: string, v: Json): (r: Result<Json>)
    ensures r.Ok? <==> base.Obj?
    ensures base.Obj? ==> r.value.Obj? && r.value.fields == base.fields[k := v]
    ensures base.Obj? && k in base.fields ==> r.value.keys == base.keys
    ensures base.Obj? && k !in base.fields ==> r.value.keys == base.keys + [k]
  {
    match base
    case Obj(keys, f) => Ok(Obj(if k in f then keys else keys + [k], f[k := v]))
    case Undefined => Err("TypeError: Cannot set property '" + k + "' of undefined")
    case Null => Err("TypeError: Cannot set property '" + k + "' of null")
    case _ => Err("TypeError: Cannot create property '" + k + "' on a non-object")
  }

  /** `v[k]` on a value known to be neither `null` nor `undefined`. */
  function Get(v: Json, k: string): Json
    requires !v.Undefined? && !v.Null?
  {
    Member(v, k).value
  }

  /** `o[k] = v` on an object: an existing key keeps its place, a new one goes last. */
  function Put(o: Json, k: string, v: Json): (r: Json)
    requires o.Obj?
    ensures r.Obj? && r.fields == o.fields[k := v]
    ensures SetProp(o, k, v) == Ok(r)
  {
    Obj(if k in o.fields then o.keys else o.keys + [k], o.fields[k := v])
  }

  /** The members of a non-empty sequence are those of its front and its last element. */
  lemma MembersOfSnoc<T>(s: seq<T>)
    requires s != []
    ensures forall x :: x in s <==> x in s[..|s| - 1] || x == s[|s| - 1]
  {
    assert s == s[..|s| - 1] + [s[|s| - 1]];
  }

  /**
   * Whether strict-mode `delete base[k]` throws: on `null` and `undefined`,
   * and on the non-configurable properties of arrays and strings (their
   * `length`, and each character of a string).
   */
  predicate DeleteThrows(base: Json, k: string)
  {
    base.Undefined? || base.Null? ||
    ((base.Arr? || base.Str?) && k == "length") ||
    (base.Str? && ParseIndex(k).Some? && ParseIndex(k).value < |base.s|)
  }

  /**
   * Strict-mode `delete base[k]`.  An object loses the key; an array keeps
   * its length and the slot becomes a hole, which reads as `undefined` and
   * is written by JSON as `null`; other values have no own property to lose.
   */
  function DeleteProp(base: Json, k: string): (r: Result<Json>)
    ensures r.Err? <==> DeleteThrows(base, k)
    ensures base.Obj? ==> r == Ok(Obj(RemoveKey(base.keys, k), base.fields - {k}))
    ensures base.Arr? && r.Ok? ==>
      r.value.Arr? && |r.value.items| == |base.items| &&
      forall i :: 0 <= i < |base.items| ==>
        r.value.items[i] == (if ParseIndex(k) == Some(i) then Undefined else base.items[i])
    ensures r.Ok? && !base.Obj? && !base.Arr? ==> r.value == base
  {
    match base
    case Obj(keys, f) => Ok(Obj(RemoveKey(keys, k), f - {k}))
    case Undefined => Err("TypeError: Cannot convert undefined or null to object")
    case Null => Err("TypeError: Cannot convert undefined or null to object")
    case Arr(items) =>
      if k == "length" then Err("TypeError: Cannot delete property 'length' of [object Array]")
      else (match ParseIndex(k)
            case Some(i) => Ok(if i < |items| then Arr(items[i := Undefined]) else base)
            case None => Ok(base))
    case Str(s) =>
      if k == "length" || (ParseIndex(k).Some? && ParseIndex(k).value < |s|) then
        Err("TypeError: Cannot delete property '" + k + "' of [object String]")
      else Ok(base)
    case _ => Ok(base)
  }

  /** Deleting an element of an array leaves a hole that JSON writes as `null`, keeping the rest. */
  lemma DeleteElementWritesNull(items: seq<Json>, i: nat)
    requires i < |items| && forall j :: 0 <= j < |items| ==> Plain(items[j])
    ensures DeleteProp(Arr(items), NatToString(i)).Ok?
    ensures var w := Serialize(DeleteProp(Arr(items), NatToString(i)).value);
      w == Arr(items[i := Null])
  {
    ParseIndexOfNatToString(i);
    var a := DeleteProp(Arr(items), NatToString(i)).value;
    assert a == Arr(items[i := Undefined]);
    forall j | 0 <= j < |items| ensures SerializeSlot(a.items[j]) == items[i := Null][j] {
      if j != i { SerializePlain(items[j]); }
    }
  }

  /** `root[p0][p1]...`. */
  function GetIn(root: Json, path: seq<string>): Result<Json>
    decreases |path|
  {
    if path == [] then Ok(root)
    else
      var child :- Member(root, path[0]);
      GetIn(child, path[1..])
  }

  /** Puts a changed child back under `k` (no write when nothing changed). */
  function WriteBack(root: Json, k: string, child: Json): Result<Json>
  {
    if Member(root, k) == Ok(child) then Ok(root) else SetProp(root, k, child)
  }

  /** `root[p0]...[pn] = v`: every container on the way must already exist. */
  function SetIn(root: Json, path: seq<string>, v: Json): Result<Json>
    requires |path| > 0
    decreases |path|
  {
    if |path| == 1 then SetProp(root, path[0], v)
    else
      var child :- Member(root, path[0]);
      var child' :- SetIn(child, path[1..], v);
      WriteBack(root, path[0], child')
  }

  /** `delete root[p0]...[pn]`. */
  function DeleteIn(root: Json, path: seq<string>): Result<Json>
    requires |path| > 0
    decreases |path|
  {
    if |path| == 1 then DeleteProp(root, path[0])
    else
      var child :- Member(root, path[0]);
      var child' :- DeleteIn(child, path[1..]);
      WriteBack(root, path[0], child')
  }

  /** Every container on `path` from `root` exists and is an object. */
  predicate ObjectsAlong(root: Json, path: seq<string>)
    decreases |path|
  {
    root.Obj? && (path == [] || (path[0] in root.fields && ObjectsAlong(root.fields[path[0]], path[1..])))
  }

  /**
   * `root[p0]...[pn][k] = v` succeeding means `root[p0]...[pn]` was an
   * object, and afterwards it is that object with `k` set to `v`.
   */
  lemma {:induction false} SetInField(root: Json, path: seq<string>, k: string, v: Json)
    requires SetIn(root, path + [k], v).Ok?
    ensures GetIn(root, path).Ok? && GetIn(root, path).value.Obj?
    ensures GetIn(SetIn(root, path + [k], v).value, path) == Ok(Put(GetIn(root, path).value, k, v))
    decreases |path|
  {
    if path == [] {
      assert SetIn(root, [k], v) == SetProp(root, k, v);
      return;
    }
    assert (path + [k])[1..] == path[1..] + [k];
    var child := Member(root, path[0]).value;
    SetInField(child, path[1..], k, v);
    var child' := SetIn(child, path[1..] + [k], v).value;
    var r := SetIn(root, path + [k], v).value;
    assert Member(r, path[0]) == Ok(child');
  }

  /** Along a path of objects the write always succeeds, and the path stays one of objects. */
  lemma {:induction false} SetInAlong(root: Json, path: seq<string>, k: string, v: Json)
    requires ObjectsAlong(root, path)
    ensures SetIn(root, path + [k], v).Ok? && ObjectsAlong(SetIn(root, path + [k], v).value, path)
    decreases |path|
  {
    if path == [] {
      assert SetIn(root, [k], v) == SetProp(root, k, v);
      return;
    }
    assert (path + [k])[1..] == path[1..] + [k];
    var child := root.fields[path[0]];
    SetInAlong(child, path[1..], k, v);
    var child' := SetIn(child, path[1..] + [k], v).value;
    WriteBackPut(root, path[0], child');
  }

  /**
   * `delete root[p0]...[pn][k]` succeeding means `root[p0]...[pn]` was
   * neither `undefined` nor `null`, and afterwards an object there has lost `k`.
   */
  lemma {:induction false} DeleteInField(root: Json, path: seq<string>, k: string)
    requires DeleteIn(root, path + [k]).Ok?
    ensures GetIn(root, path).Ok? && !GetIn(root, path).value.Undefined? && !GetIn(root, path).value.Null?
    ensures GetIn(DeleteIn(root, path + [k]).value, path) == DeleteProp(GetIn(root, path).value, k)
    decreases |path|
  {
    if path == [] {
      assert DeleteIn(root, [k]) == DeleteProp(root, k);
      return;
    }
    assert (path + [k])[1..] == path[1..] + [k];
    var child := Member(root, path[0]).value;
    DeleteInField(child, path[1..], k);
    var child' := DeleteIn(child, path[1..] + [k]).value;
    var r := DeleteIn(root, path + [k]).value;
    assert Member(r, path[0]) == Ok(child');
  }

  /** Writing back into an object is a plain `Put`. */
  lemma WriteBackPut(root: Json, k: string, child: Json)
    requires root.Obj? && k in root.fields
    ensures WriteBack(root, k, child) == Ok(Put(root, k, child))
  {
    if root.fields[k] == child {
      assert root.fields[k := child] == root.fields;
    }
  }

  /**
   * The elements a `for (i = 0; i < v.length; i++)` loop visits, for an
   * array, a string or an object carrying a numeric `length`.
   */
  function Elements(v: Json): (r: seq<Json>)
    ensures v.Arr? ==> r == v.items
  {
    match v
    case Arr(items) => items
    case Str(s) => seq(|s|, i requires 0 <= i < |s| => Str([s[i]]))
    case Obj(_, f) =>
      if "length" in f && f["length"].Num? && f["length"].n > 0 then
        seq(f["length"].n, i requires 0 <= i < f["length"].n =>
          if NatToString(i) in f then f[NatToString(i)] else Undefined)
      else []
    case _ => []
  }

  // ---------------------------------------------------------------------
  // JSON serialisation: what `outputJsonSync` writes and `readJsonSync` gives back

  /** A value JSON can carry: no `undefined`, and every listed key present. */
  predicate Plain(v: Json)
  {
    match v
    case Undefined => false
    case Arr(items) => forall i :: 0 <= i < |items| ==> Plain(items[i])
    case Obj(keys, f) =>
      (forall i :: 0 <= i < |keys| ==> keys[i] in f) &&
      (forall k :: k in f ==> Plain(f[k]))
    case _ => true
  }

  function KeepDefined(keys: seq<string>, f: map<string, Json>): (r: seq<string>)
    ensures forall i :: 0 <= i < |r| ==> r[i] in f && f[r[i]] != Undefined
  {
    if keys == [] then []
    else if keys[0] in f && f[keys[0]] != Undefined then [keys[0]] + KeepDefined(keys[1..], f)
    else KeepDefined(keys[1..], f)
  }

  /**
   * `JSON.parse(JSON.stringify(v))` for the values modelled here: object
   * members holding `undefined` are dropped, array slots holding it become `null`.
   */
  function Serialize(v: Json): Json
    requires !v.Undefined?
    decreases v, 1
  {
    match v
    case Arr(items) =>
      Arr(seq(|items|, i requires 0 <= i < |items| => SerializeSlot(items[i])))
    case Obj(keys, f) =>
      Obj(KeepDefined(keys, f), map k | k in f && f[k] != Undefined :: Serialize(f[k]))
    case _ => v
  }

  /** An array slot: `undefined` is written as `null`. */
  function SerializeSlot(v: Json): Json
    decreases v, 2
  {
    if v.Undefined? then Null else Serialize(v)
  }

  /** What is written is always plain JSON. */
  lemma {:induction false} SerializeIsPlain(v: Json)
    requires !v.Undefined?
    ensures Plain(Serialize(v))
  {
    match v
    case Arr(items) =>
      forall i | 0 <= i < |items| ensures Plain(SerializeSlot(items[i])) {
        if !items[i].Undefined? { SerializeIsPlain(items[i]); }
      }
    case Obj(keys, f) =>
      forall k | k in f && f[k] != Undefined ensures Plain(Serialize(f[k])) {
        SerializeIsPlain(f[k]);
      }
    case _ =>
  }

  lemma {:induction false} KeepDefinedOfPlain(keys: seq<string>, f: map<string, Json>)
    requires forall i :: 0 <= i < |keys| ==> keys[i] in f && f[keys[i]] != Undefined
    ensures KeepDefined(keys, f) == keys
  {
    if keys != [] {
      KeepDefinedOfPlain(keys[1..], f);
    }
  }

  /** Serialising a plain value gives it back unchanged. */
  lemma {:induction false} SerializePlain(v: Json)
    requires Plain(v)
    ensures Serialize(v) == v
  {
    match v
    case Arr(items) =>
      forall i | 0 <= i < |items| ensures SerializeSlot(items[i]) == items[i] {
        SerializePlain(items[i]);
      }
    case Obj(keys, f) =>
      KeepDefinedOfPlain(keys, f);
      forall k | k in f ensures Serialize(f[k]) == f[k] {
        SerializePlain(f[k]);
      }
    case _ =>
  }
}
