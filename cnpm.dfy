/**
 * Registry URL selection (cnpm.js): the `isAli` flag chooses between the
 * Alibaba-internal npm mirror and the public Taobao mirror, for the
 * registry root, for keyword-browse pages and for per-package metadata.
 */
module Cnpm {
  import opened JsValue

  const RegistryAli: string := "http://registry.npm.alibaba-inc.com"
  const RegistryOutAli: string := "https://registry.npm.taobao.org"
  const SearchByKeywordsAli: string := "http://web.npm.alibaba-inc.com/browse/keyword/"
  const SearchByKeywordsOutAli: string := "https://npm.taobao.org/browse/keyword/"

  predicate StartsWith(s: string, prefix: string)
  {
    |prefix| <= |s| && s[..|prefix|] == prefix
  }

  /** A URL of the web: `http://…` or `https://…`. */
  predicate IsWebUrl(s: string)
  {
    StartsWith(s, "http://") || StartsWith(s, "https://")
  }

  /** cnpm.js:22-29: the registry of the network the caller is on. */
  function GetRegistry(isAli: bool): (r: string)
    ensures IsWebUrl(r)
    ensures StartsWith(r, "https://") <==> !isAli
  {
    if isAli then
      PrefixesDisjoint(RegistryAli, "http://", "https://");
      RegistryAli
    else RegistryOutAli
  }

  /** The keyword-browse prefix of each network. */
  function SearchPrefix(isAli: bool): string
  {
    if isAli then SearchByKeywordsAli else SearchByKeywordsOutAli
  }

  /** cnpm.js:37-44: the keyword-browse page for `keyword`. */
  function GetSearchUrl(isAli: bool, keyword: string): (r: string)
    ensures IsWebUrl(r)
    ensures StartsWith(r, SearchPrefix(isAli)) && r[|SearchPrefix(isAli)|..] == keyword
  {
    if isAli then
      assert forall i :: 0 <= i < 7 ==> SearchByKeywordsAli[i] == "http://"[i];
      assert SearchByKeywordsAli[..7] == "http://";
      StartsWithAppend(SearchByKeywordsAli, keyword, "http://");
      SearchByKeywordsAli + keyword
    else
      assert SearchByKeywordsOutAli[..8] == "https://";
      StartsWithAppend(SearchByKeywordsOutAli, keyword, "https://");
      SearchByKeywordsOutAli + keyword
  }

  /** cnpm.js:52-62: the metadata document of package `packageName`. */
  function GetNamedPackageInfoUrl(isAli: bool, packageName: string): (r: string)
    ensures IsWebUrl(r)
    ensures r == GetRegistry(isAli) + "/" + packageName
  {
    var registry := if isAli then RegistryAli else RegistryOutAli;
    registry + "/" + packageName
  }

  /** Recovers the network and keyword from a keyword-browse URL. */
  function ParseSearchUrl(url: string): Option<(bool, string)>
  {
    if StartsWith(url, SearchByKeywordsAli) then Some((true, url[|SearchByKeywordsAli|..]))
    else if StartsWith(url, SearchByKeywordsOutAli) then Some((false, url[|SearchByKeywordsOutAli|..]))
    else None
  }

  /** Recovers the network and package name from a metadata URL. */
  function ParseNamedPackageInfoUrl(url: string): Option<(bool, string)>
  {
    if StartsWith(url, RegistryAli + "/") then Some((true, url[|RegistryAli| + 1..]))
    else if StartsWith(url, RegistryOutAli + "/") then Some((false, url[|RegistryOutAli| + 1..]))
    else None
  }

  lemma StartsWithAppend(s: string, t: string, prefix: string)
    requires StartsWith(s, prefix)
    ensures StartsWith(s + t, prefix)
  {
    assert (s + t)[..|prefix|] == s[..|prefix|];
  }

  /** The two networks' prefixes differ in their fifth character. */
  lemma PrefixesDisjoint(url: string, p: string, q: string)
    requires |p| > 4 && |q| > 4 && p[4] != q[4]
    requires StartsWith(url, p)
    ensures !StartsWith(url, q)
  {
    assert url[4] == url[..|p|][4] == p[4];
  }

  /** A keyword-browse URL determines the network and the keyword it was built from. */
  lemma SearchUrlRoundTrip(isAli: bool, keyword: string)
    ensures ParseSearchUrl(GetSearchUrl(isAli, keyword)) == Some((isAli, keyword))
  {
    var url := GetSearchUrl(isAli, keyword);
    if !isAli {
      PrefixesDisjoint(url, SearchByKeywordsOutAli, SearchByKeywordsAli);
    }
  }

  /** A metadata URL determines the network and the package name it was built from. */
  lemma NamedPackageInfoUrlRoundTrip(isAli: bool, packageName: string)
    ensures ParseNamedPackageInfoUrl(GetNamedPackageInfoUrl(isAli, packageName)) == Some((isAli, packageName))
  {
    var url := GetNamedPackageInfoUrl(isAli, packageName);
    if isAli {
      assert url == (RegistryAli + "/") + packageName;
      assert StartsWith(url, RegistryAli + "/");
    } else {
      assert url == (RegistryOutAli + "/") + packageName;
      PrefixesDisjoint(url, RegistryOutAli + "/", RegistryAli + "/");
    }
  }

  /** Different networks or keywords never share a keyword-browse URL. */
  lemma SearchUrlInjective(a: bool, k: string, b: bool, l: string)
    requires GetSearchUrl(a, k) == GetSearchUrl(b, l)
    ensures a == b && k == l
  {
    SearchUrlRoundTrip(a, k);
    SearchUrlRoundTrip(b, l);
  }
}
