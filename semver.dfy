/**
 * Version precedence as `semver.gt` decides it: strict parsing of a
 * Semantic Versioning 2.0.0 string (an optional leading `v`, surrounding
 * white space ignored, no leading zeros, numeric parts at most
 * 2^53 - 1, the whole string at most 256 characters) and the precedence
 * order of section 11 of Semantic Versioning 2.0.0, build metadata ignored.
 * A value that is not a string or does not parse makes `gt` throw.
 */
module Semver {
  import opened JsValue

  const MaxLength: nat := 256
  const MaxSafeInteger: nat := 9007199254740991

  /** A pre-release identifier: all digits, or containing a letter or hyphen. */
  datatype Ident = Numeric(n: nat) | Alpha(s: string)

  /** A parsed version; build metadata plays no part in precedence and is dropped. */
  datatype Version = Version(major: nat, minor: nat, patch: nat, pre: seq<Ident>)

  // ---------------------------------------------------------------------
  // Parsing

  /** The characters `String.prototype.trim` removes. */
  predicate IsJsSpace(c: char)
  {
    c == ' ' || c == '\t' || c == '\n' || c == '\r' || c == '\U{000B}' || c == '\U{000C}' ||
    c == '\U{00A0}' || c == '\U{1680}' || ('\U{2000}' <= c <= '\U{200A}') ||
    c == '\U{2028}' || c == '\U{2029}' || c == '\U{202F}' || c == '\U{205F}' ||
    c == '\U{3000}' || c == '\U{FEFF}'
  }

  function TrimStart(s: string): (r: string)
    ensures |r| <= |s|
    ensures r == [] || !IsJsSpace(r[0])
  {
    if |s| > 0 && IsJsSpace(s[0]) then TrimStart(s[1..]) else s
  }

  function TrimEnd(s: string): (r: string)
    ensures |r| <= |s|
    ensures r == [] || !IsJsSpace(r[|r| - 1])
  {
    if |s| > 0 && IsJsSpace(s[|s| - 1]) then TrimEnd(s[..|s| - 1]) else s
  }

  function Trim(s: string): string
  {
    TrimEnd(TrimStart(s))
  }

  /** `s` up to the first `c`, and what follows that `c` if there is one. */
  function SplitFirst(s: string, c: char): (r: (string, Option<string>))
    ensures c !in r.0
    ensures r.1.None? ==> r.0 == s
    ensures r.1.Some? ==> s == r.0 + [c] + r.1.value
  {
    if |s| == 0 then ("", None)
    else if s[0] == c then ("", Some(s[1..]))
    else
      var (a, b) := SplitFirst(s[1..], c);
      ([s[0]] + a, b)
  }

  /** `s.split(c)`. */
  function SplitOn(s: string, c: char): (r: seq<string>)
    ensures |r| >= 1
    ensures forall i :: 0 <= i < |r| ==> c !in r[i]
  {
    if |s| == 0 then [""]
    else
      var rest := SplitOn(s[1..], c);
      if s[0] == c then [""] + rest else [[s[0]] + rest[0]] + rest[1..]
  }

  predicate IsLetter(c: char) { 'a' <= c <= 'z' || 'A' <= c <= 'Z' }

  predicate IsIdentChar(c: char) { IsDigit(c) || IsLetter(c) || c == '-' }

  predicate AllDigits(s: string) { forall i :: 0 <= i < |s| ==> IsDigit(s[i]) }

  /** `0|[1-9]\d*` */
  predicate IsNumericIdent(s: string)
  {
    |s| > 0 && AllDigits(s) && (s[0] != '0' || |s| == 1)
  }

  /** `\d*[a-zA-Z-][a-zA-Z0-9-]*` */
  predicate IsAlphaIdent(s: string)
  {
    |s| > 0 && (forall i :: 0 <= i < |s| ==> IsIdentChar(s[i])) && !AllDigits(s)
  }

  /** `[0-9A-Za-z-]+` */
  predicate IsBuildIdent(s: string)
  {
    |s| > 0 && forall i :: 0 <= i < |s| ==> IsIdentChar(s[i])
  }

  function ParseIdent(s: string): (r: Option<Ident>)
    ensures r.Some? <==> IsNumericIdent(s) || IsAlphaIdent(s)
  {
    if IsNumericIdent(s) then Some(Numeric(DigitsValue(s)))
    else if IsAlphaIdent(s) then Some(Alpha(s))
    else None
  }

  function ParseIdents(ids: seq<string>): (r: Option<seq<Ident>>)
    ensures r.Some? ==> |r.value| == |ids|
  {
    if ids == [] then Some([])
    else
      match ParseIdent(ids[0])
      case None => None
      case Some(x) =>
        match ParseIdents(ids[1..])
        case None => None
        case Some(xs) => Some([x] + xs)
  }

  /** A major, minor or patch number, at most 2^53 - 1. */
  function ParseMain(s: string): (r: Option<nat>)
    ensures r.Some? ==> r.value <= MaxSafeInteger
  {
    if IsNumericIdent(s) && DigitsValue(s) <= MaxSafeInteger then Some(DigitsValue(s)) else None
  }

  /** `major.minor.patch`, each part a number at most 2^53 - 1. */
  function ParseMainTriple(main: string): Option<(nat, nat, nat)>
  {
    var parts := SplitOn(main, '.');
    if |parts| != 3 then None
    else
      match (ParseMain(parts[0]), ParseMain(parts[1]), ParseMain(parts[2]))
      case (Some(major), Some(minor), Some(patch)) => Some((major, minor, patch))
      case _ => None
  }

  /** The version part before any `+`: the main triple, then `-` and the pre-release. */
  function ParseHead(head: string): Option<Version>
  {
    var (main, pre) := SplitFirst(head, '-');
    match ParseMainTriple(main)
    case None => None
    case Some((major, minor, patch)) =>
      if pre.None? then Some(Version(major, minor, patch, []))
      else
        match ParseIdents(SplitOn(pre.value, '.'))
        case None => None
        case Some(ids) => Some(Version(major, minor, patch, ids))
  }

  predicate ValidBuild(build: string)
  {
    forall i :: 0 <= i < |SplitOn(build, '.')| ==> IsBuildIdent(SplitOn(build, '.')[i])
  }

  /** A trimmed string without its `v`: the head, then `+` and build metadata. */
  function ParseBody(u: string): Option<Version>
  {
    var (head, build) := SplitFirst(u, '+');
    if build.Some? && !ValidBuild(build.value) then None else ParseHead(head)
  }

  /** The version `new SemVer(s)` builds, or None where it throws. */
  function Parse(s: string): Option<Version>
  {
    if |s| > MaxLength then None
    else
      var t := Trim(s);
      ParseBody(if |t| > 0 && t[0] == 'v' then t[1..] else t)
  }

  // ---------------------------------------------------------------------
  // Precedence

  function Cmp(a: int, b: int): int
  {
    if a < b then -1 else if a > b then 1 else 0
  }

  /** JavaScript's `<` on strings: lexicographic by character. */
  function CompareStrings(a: string, b: string): (r: int)
    ensures r == 0 <==> a == b
  {
    if |a| == 0 && |b| == 0 then 0
    else if |a| == 0 then -1
    else if |b| == 0 then 1
    else if a[0] != b[0] then Cmp(a[0] as int, b[0] as int)
    else
      var r := CompareStrings(a[1..], b[1..]);
      assert r == 0 ==> a == [a[0]] + a[1..] == [b[0]] + b[1..] == b;
      r
  }

  /** Numeric identifiers by value, below alphanumeric ones, which compare as strings. */
  function CompareIdents(a: Ident, b: Ident): int
  {
    match (a, b)
    case (Numeric(x), Numeric(y)) => Cmp(x, y)
    case (Numeric(_), Alpha(_)) => -1
    case (Alpha(_), Numeric(_)) => 1
    case (Alpha(x), Alpha(y)) => CompareStrings(x, y)
  }

  /** Identifier by identifier; a list that runs out first is smaller. */
  function ComparePreLists(a: seq<Ident>, b: seq<Ident>): int
  {
    if |a| == 0 && |b| == 0 then 0
    else if |b| == 0 then 1
    else if |a| == 0 then -1
    else if a[0] == b[0] then ComparePreLists(a[1..], b[1..])
    else CompareIdents(a[0], b[0])
  }

  /** A version without pre-release ranks above one with it. */
  function ComparePre(a: seq<Ident>, b: seq<Ident>): int
  {
    if |a| > 0 && |b| == 0 then -1
    else if |a| == 0 && |b| > 0 then 1
    else ComparePreLists(a, b)
  }

  /** `SemVer.prototype.compare`: major, minor, patch, then pre-release. */
  function Compare(a: Version, b: Version): int
  {
    if a.major != b.major then Cmp(a.major, b.major)
    else if a.minor != b.minor then Cmp(a.minor, b.minor)
    else if a.patch != b.patch then Cmp(a.patch, b.patch)
    else ComparePre(a.pre, b.pre)
  }

  /** The version a JavaScript value denotes, or the TypeError `new SemVer` throws. */
  function AsVersion(v: Json): (r: Result<Version>)
    ensures r.Ok? <==> v.Str? && Parse(v.s).Some?
    ensures r.Ok? ==> r.value == Parse(v.s).value
  {
    match v
    case Str(s) =>
      (match Parse(s)
       case Some(x) => Ok(x)
       case None => Err("TypeError: Invalid Version: " + s))
    case _ => Err("TypeError: Invalid Version: " + ToKey(v))
  }

  predicate IsVersion(v: Json)
  {
    AsVersion(v).Ok?
  }

  /** `semver.gt(a, b)`: `b` precedes `a`; throws on anything that is not a valid version. */
  function Gt(a: Json, b: Json): (r: Result<bool>)
    ensures r.Ok? <==> IsVersion(a) && IsVersion(b)
    ensures r.Ok? ==> (r.value <==> Compare(AsVersion(b).value, AsVersion(a).value) < 0)
  {
    var x :- AsVersion(a);
    var y :- AsVersion(b);
    CompareAntisymmetric(x, y);
    Ok(Compare(x, y) > 0)
  }

  // ---------------------------------------------------------------------
  // Precedence is a strict total order

  lemma {:induction false} CompareStringsAntisymmetric(a: string, b: string)
    ensures CompareStrings(a, b) == -CompareStrings(b, a)
  {
    if |a| > 0 && |b| > 0 && a[0] == b[0] {
      CompareStringsAntisymmetric(a[1..], b[1..]);
    }
  }

  lemma {:induction false} CompareStringsTransitive(a: string, b: string, c: string)
    requires CompareStrings(a, b) > 0 && CompareStrings(b, c) > 0
    ensures CompareStrings(a, c) > 0
  {
    if |a| > 0 && |b| > 0 && |c| > 0 && a[0] == b[0] && b[0] == c[0] {
      CompareStringsTransitive(a[1..], b[1..], c[1..]);
    }
  }

  lemma CompareIdentsAntisymmetric(a: Ident, b: Ident)
    ensures CompareIdents(a, b) == -CompareIdents(b, a)
    ensures CompareIdents(a, b) == 0 <==> a == b
  {
    if a.Alpha? && b.Alpha? {
      CompareStringsAntisymmetric(a.s, b.s);
    }
  }

  lemma CompareIdentsTransitive(a: Ident, b: Ident, c: Ident)
    requires CompareIdents(a, b) > 0 && CompareIdents(b, c) > 0
    ensures CompareIdents(a, c) > 0
  {
    if a.Alpha? && b.Alpha? && c.Alpha? {
      CompareStringsTransitive(a.s, b.s, c.s);
    }
  }

  lemma {:induction false} ComparePreListsAntisymmetric(a: seq<Ident>, b: seq<Ident>)
    ensures ComparePreLists(a, b) == -ComparePreLists(b, a)
    ensures ComparePreLists(a, b) == 0 <==> a == b
  {
    if |a| > 0 && |b| > 0 {
      if a[0] == b[0] {
        ComparePreListsAntisymmetric(a[1..], b[1..]);
        if ComparePreLists(a, b) == 0 {
          assert a == [a[0]] + a[1..] && b == [b[0]] + b[1..];
        }
      } else {
        CompareIdentsAntisymmetric(a[0], b[0]);
      }
    }
  }

  lemma {:induction false} ComparePreListsTransitive(a: seq<Ident>, b: seq<Ident>, c: seq<Ident>)
    requires ComparePreLists(a, b) > 0 && ComparePreLists(b, c) > 0
    ensures ComparePreLists(a, c) > 0
  {
    if |c| > 0 {
      if a[0] == b[0] && b[0] == c[0] {
        ComparePreListsTransitive(a[1..], b[1..], c[1..]);
      } else if a[0] == b[0] {
        assert ComparePreLists(a, c) == CompareIdents(b[0], c[0]);
      } else if b[0] == c[0] {
        assert ComparePreLists(a, c) == CompareIdents(a[0], b[0]);
      } else {
        CompareIdentsTransitive(a[0], b[0], c[0]);
        CompareIdentsAntisymmetric(a[0], c[0]);
      }
    }
  }

  /** Swapping the arguments negates the comparison; only equal versions compare equal. */
  lemma CompareAntisymmetric(a: Version, b: Version)
    ensures Compare(a, b) == -Compare(b, a)
    ensures Compare(a, b) == 0 <==> a == b
  {
    ComparePreListsAntisymmetric(a.pre, b.pre);
  }

  lemma CompareTransitive(a: Version, b: Version, c: Version)
    requires Compare(a, b) > 0 && Compare(b, c) > 0
    ensures Compare(a, c) > 0
  {
    if a.major == c.major && a.minor == c.minor && a.patch == c.patch {
      assert a.major == b.major && a.minor == b.minor && a.patch == b.patch;
      if |a.pre| > 0 && |b.pre| > 0 && |c.pre| > 0 {
        ComparePreListsTransitive(a.pre, b.pre, c.pre);
      }
    }
  }

  /** `gt` is a strict order on valid versions: irreflexive, asymmetric and transitive. */
  lemma GtIsStrictOrder(a: Json, b: Json, c: Json)
    requires IsVersion(a) && IsVersion(b) && IsVersion(c)
    ensures Gt(a, a) == Ok(false)
    ensures Gt(a, b) == Ok(true) ==> Gt(b, a) == Ok(false)
    ensures Gt(a, b) == Ok(true) && Gt(b, c) == Ok(true) ==> Gt(a, c) == Ok(true)
  {
    var x, y, z := AsVersion(a).value, AsVersion(b).value, AsVersion(c).value;
    CompareAntisymmetric(x, x);
    CompareAntisymmetric(x, y);
    if Compare(x, y) > 0 && Compare(y, z) > 0 {
      CompareTransitive(x, y, z);
    }
  }

  /** `gt` totally orders valid versions up to build metadata. */
  lemma GtTotal(a: Json, b: Json)
    requires IsVersion(a) && IsVersion(b) && AsVersion(a) != AsVersion(b)
    ensures Gt(a, b) == Ok(true) || Gt(b, a) == Ok(true)
  {
    CompareAntisymmetric(AsVersion(a).value, AsVersion(b).value);
  }

  /** The precedence chain given as the example in section 11 of Semantic Versioning 2.0.0. */
  lemma Section11Example()
    ensures var chain := [
              Version(1, 0, 0, [Alpha("alpha")]),
              Version(1, 0, 0, [Alpha("alpha"), Numeric(1)]),
              Version(1, 0, 0, [Alpha("alpha"), Alpha("beta")]),
              Version(1, 0, 0, [Alpha("beta")]),
              Version(1, 0, 0, [Alpha("beta"), Numeric(2)]),
              Version(1, 0, 0, [Alpha("beta"), Numeric(11)]),
              Version(1, 0, 0, [Alpha("rc"), Numeric(1)]),
              Version(1, 0, 0, [])];
            forall i :: 0 <= i < |chain| - 1 ==> Compare(chain[i + 1], chain[i]) > 0
  {
  }

  // ---------------------------------------------------------------------
  // Formatting and parsing are inverse

  function IdentToString(x: Ident): string
  {
    match x
    case Numeric(n) => NatToString(n)
    case Alpha(s) => s
  }

  /** `parts.join(sep)` */
  function Join(parts: seq<string>, sep: char): string
  {
    if |parts| == 0 then ""
    else if |parts| == 1 then parts[0]
    else parts[0] + [sep] + Join(parts[1..], sep)
  }

  function IdentStrings(ids: seq<Ident>): (r: seq<string>)
    ensures |r| == |ids|
    ensures forall i :: 0 <= i < |ids| ==> r[i] == IdentToString(ids[i])
  {
    seq(|ids|, i requires 0 <= i < |ids| => IdentToString(ids[i]))
  }

  /** `SemVer.prototype.format`: `major.minor.patch`, then `-` and the pre-release if any. */
  function Format(v: Version): string
  {
    NatToString(v.major) + "." + NatToString(v.minor) + "." + NatToString(v.patch) +
    (if v.pre == [] then "" else "-" + Join(IdentStrings(v.pre), '.'))
  }

  /** A version `new SemVer` can produce: in range, with well-formed identifiers. */
  predicate WellFormed(v: Version)
  {
    v.major <= MaxSafeInteger && v.minor <= MaxSafeInteger && v.patch <= MaxSafeInteger &&
    (forall i :: 0 <= i < |v.pre| ==> v.pre[i].Alpha? ==> IsAlphaIdent(v.pre[i].s)) &&
    |Format(v)| <= MaxLength
  }

  lemma {:induction false} SplitOnNoSeparator(x: string, c: char)
    requires c !in x
    ensures SplitOn(x, c) == [x]
  {
    if |x| > 0 {
      assert x[0] in x;
      SplitOnNoSeparator(x[1..], c);
      assert [x[0]] + x[1..] == x;
    }
  }

  lemma {:induction false} SplitOnAfterPiece(x: string, y: string, c: char)
    requires c !in x
    ensures SplitOn(x + [c] + y, c) == [x] + SplitOn(y, c)
  {
    if |x| > 0 {
      assert (x + [c] + y)[1..] == x[1..] + [c] + y;
      assert x[0] in x;
      SplitOnAfterPiece(x[1..], y, c);
      assert [x[0]] + x[1..] == x;
    } else {
      assert (x + [c] + y)[1..] == y;
    }
  }

  /** Splitting a join on a separator no part contains gives the parts back. */
  lemma {:induction false} SplitOnJoin(parts: seq<string>, c: char)
    requires |parts| >= 1
    requires forall i :: 0 <= i < |parts| ==> c !in parts[i]
    ensures SplitOn(Join(parts, c), c) == parts
  {
    if |parts| == 1 {
      SplitOnNoSeparator(parts[0], c);
    } else {
      SplitOnJoin(parts[1..], c);
      SplitOnAfterPiece(parts[0], Join(parts[1..], c), c);
    }
  }

  lemma {:induction false} SplitFirstAt(x: string, y: string, c: char)
    requires c !in x
    ensures SplitFirst(x + [c] + y, c) == (x, Some(y))
  {
    if |x| > 0 {
      assert (x + [c] + y)[1..] == x[1..] + [c] + y;
      assert x[0] in x;
      SplitFirstAt(x[1..], y, c);
      assert [x[0]] + x[1..] == x;
    } else {
      assert (x + [c] + y)[1..] == y;
    }
  }

  lemma {:induction false} JoinAvoids(parts: seq<string>, sep: char, c: char)
    requires c != sep
    requires forall i :: 0 <= i < |parts| ==> c !in parts[i]
    ensures c !in Join(parts, sep)
  {
    if |parts| > 1 {
      JoinAvoids(parts[1..], sep, c);
    }
  }

  lemma {:induction false} ParseIdentsOfStrings(ids: seq<Ident>)
    requires forall i :: 0 <= i < |ids| ==> ids[i].Alpha? ==> IsAlphaIdent(ids[i].s)
    ensures ParseIdents(IdentStrings(ids)) == Some(ids)
  {
    if |ids| > 0 {
      var strs := IdentStrings(ids);
      assert strs[1..] == IdentStrings(ids[1..]);
      ParseIdentsOfStrings(ids[1..]);
      if ids[0].Numeric? {
        DigitsValueOfNatToString(ids[0].n);
        assert IsNumericIdent(NatToString(ids[0].n));
      }
      assert ParseIdent(strs[0]) == Some(ids[0]);
      assert ids == [ids[0]] + ids[1..];
    }
  }

  lemma IdentCharsAvoid(s: string, c: char)
    requires forall i :: 0 <= i < |s| ==> IsIdentChar(s[i])
    requires !IsIdentChar(c)
    ensures c !in s
  {
    assert forall i :: 0 <= i < |s| ==> s[i] != c;
  }

  lemma DigitsAvoid(s: string, c: char)
    requires AllDigits(s) && !IsDigit(c)
    ensures c !in s
  {
    assert forall i :: 0 <= i < |s| ==> s[i] != c;
  }

  lemma IdentStringsAvoid(ids: seq<Ident>, c: char)
    requires forall i :: 0 <= i < |ids| ==> ids[i].Alpha? ==> IsAlphaIdent(ids[i].s)
    requires !IsIdentChar(c)
    ensures forall i :: 0 <= i < |ids| ==> c !in IdentStrings(ids)[i]
  {
    forall i | 0 <= i < |ids| ensures c !in IdentStrings(ids)[i] {
      IdentCharsAvoid(IdentStrings(ids)[i], c);
    }
  }

  function FormatMain(v: Version): string
  {
    NatToString(v.major) + "." + NatToString(v.minor) + "." + NatToString(v.patch)
  }

  lemma FormatMainParses(v: Version)
    requires WellFormed(v)
    ensures ParseMainTriple(FormatMain(v)) == Some((v.major, v.minor, v.patch))
    ensures '-' !in FormatMain(v) && '+' !in FormatMain(v)
    ensures |FormatMain(v)| > 0 && IsDigit(FormatMain(v)[0]) && IsDigit(FormatMain(v)[|FormatMain(v)| - 1])
  {
    var ma, mi, pa := NatToString(v.major), NatToString(v.minor), NatToString(v.patch);
    var main := FormatMain(v);
    DigitsValueOfNatToString(v.major);
    DigitsValueOfNatToString(v.minor);
    DigitsValueOfNatToString(v.patch);
    DigitsAvoid(ma, '.');
    DigitsAvoid(mi, '.');
    DigitsAvoid(pa, '.');
    DigitsAvoid(ma, '-');
    DigitsAvoid(mi, '-');
    DigitsAvoid(pa, '-');
    DigitsAvoid(ma, '+');
    DigitsAvoid(mi, '+');
    DigitsAvoid(pa, '+');
    assert [ma, mi, pa][1..] == [mi, pa];
    assert [mi, pa][1..] == [pa];
    assert Join([mi, pa], '.') == mi + ['.'] + pa;
    assert Join([ma, mi, pa], '.') == ma + ['.'] + (mi + ['.'] + pa);
    assert Join([ma, mi, pa], '.') == main;
    SplitOnJoin([ma, mi, pa], '.');
    assert main[0] == ma[0];
    assert main[|main| - 1] == pa[|pa| - 1];
  }

  lemma FormatHeadParses(v: Version)
    requires WellFormed(v)
    ensures ParseHead(Format(v)) == Some(v)
    ensures '+' !in Format(v)
    ensures IsDigit(Format(v)[0]) && IsIdentChar(Format(v)[|Format(v)| - 1])
  {
    var main := FormatMain(v);
    FormatMainParses(v);
    if v.pre == [] {
      assert Format(v) == main;
      assert SplitFirst(main, '-') == (main, None);
    } else {
      var tail := Join(IdentStrings(v.pre), '.');
      assert Format(v) == main + ['-'] + tail;
      IdentStringsAvoid(v.pre, '.');
      IdentStringsAvoid(v.pre, '+');
      JoinAvoids(IdentStrings(v.pre), '.', '+');
      SplitOnJoin(IdentStrings(v.pre), '.');
      ParseIdentsOfStrings(v.pre);
      SplitFirstAt(main, tail, '-');
      LastIsIdentChar(v.pre);
    }
  }

  /** Parsing a formatted version gives the version back. */
  lemma ParseFormat(v: Version)
    requires WellFormed(v)
    ensures Parse(Format(v)) == Some(v)
  {
    var s := Format(v);
    FormatHeadParses(v);
    NoSpaceAtEnds(s);
    assert Trim(s) == s;
    assert s[0] != 'v';
    assert SplitFirst(s, '+') == (s, None);
    assert ParseBody(s) == ParseHead(s);
  }

  lemma NoSpaceAtEnds(s: string)
    requires |s| > 0 && IsDigit(s[0]) && IsIdentChar(s[|s| - 1])
    ensures Trim(s) == s
  {
    assert !IsJsSpace(s[0]);
    assert TrimStart(s) == s;
    assert !IsJsSpace(s[|s| - 1]);
  }

  lemma LastIsIdentChar(ids: seq<Ident>)
    requires |ids| > 0
    requires forall i :: 0 <= i < |ids| ==> ids[i].Alpha? ==> IsAlphaIdent(ids[i].s)
    ensures var t := Join(IdentStrings(ids), '.'); |t| > 0 && IsIdentChar(t[|t| - 1])
  {
    if |ids| > 1 {
      assert IdentStrings(ids)[1..] == IdentStrings(ids[1..]);
      LastIsIdentChar(ids[1..]);
    }
  }

  /** `gt` on formatted versions is exactly precedence. */
  lemma GtOfFormat(a: Version, b: Version)
    requires WellFormed(a) && WellFormed(b)
    ensures Gt(Str(Format(a)), Str(Format(b))) == Ok(Compare(a, b) > 0)
  {
    ParseFormat(a);
    ParseFormat(b);
  }

  /** The empty string and a two-part version are refused. */
  lemma ParseRefuses()
    ensures Parse("").None?
    ensures Gt(Str(""), Str("1.0.0")).Err?
    ensures Gt(Num(1), Str("1.0.0")).Err?
  {
    assert Trim("") == "";
    assert SplitOn("", '.') == [""];
  }
}
