# Extension market of the Cygnus IDE, modelled in Dafny

This project models the core of the extension market of the Cygnus IDE
(`cygnus-extension-market` and the registry helpers of `cygnus-util`).

**The market.** The market lists IDE extensions published on an npm
registry (the Alibaba-internal registry, or the taobao mirror outside it). An extension is
either a *project* (type 0) or a *plugin* (type 1), and a project
declares the plugins it needs. The market downloads an extension and its
plugins, and keeps its install state in one JSON status file per
namespace, `DOWNLOADED_PACKAGES_INFO.json`. The file is organised as
`Project.<project>.<package>` and `Plugin.<plugin>.<package>`.

**The three parts modelled.**

- **`StatusJSONManager`**
  - Modelled as a Dafny class, `StatusStore.StatusJSONManager`, whose state is the file.
  - Its methods are proved against pure functions: `Read`, `Update` and `Delete`.
- **`PackageManager`**
  - Modelled as the class `Market.PackageManager`, together with one module per concern:
    - `Catalog`: the registry search and record normalisation;
    - `Installed`: `getInstalledObj`;
    - `Reconcile`: `doFinalValidatedSearch`;
    - `InstallList`: `getInstallListObj`;
    - `Download`: the two download calls;
    - `Parent`: `getParent`;
    - `Patch`: `setStatusOrEnableOfNamedPakcage`;
    - `Lifecycle`: uninstall, reset and built-in seeding.
  - The loops of `getInstalledObj`, `doFinalValidatedSearch`, `getInstallListObj`, `getParent` and the download calls are Dafny `while` loops. Each is proved to compute a fold function, and the properties are proved about those folds.
  - The `reduce` and `filter` chains that only build a value are recursive functions.
- **`cnpm.js`**
  - Modelled as pure functions, `Cnpm`.

**Supporting modules.**

- `JsValue` is a JavaScript value with integer numbers, ordered object keys, `undefined`, property access that throws on `null`/`undefined`, and `JSON` serialisation.
- `DeepMerge` is `lodash.merge`.
- `Semver` is `semver.gt` by Semantic Versioning 2.0.0, section 11.

**Effects and errors.**

- Each of these is a parameter:
  - the file system state, `Disk`;
  - the network (`fetch`, the `isAli` probe);
  - the clock (`now`);
  - the results of `rimraf` and of the download installer.
- A thrown exception is the `Err` case of a `Result`.

**Where the model departs from the code.**

- **`isAli` probe.** The source's `isAliEnv()` is a network probe; its answer is the parameter `probe`.
- **Static calls to the status store.**
  - What the code does: `PackageManager` calls `readStatusJSON` and `updateStatusJSON` on the `StatusJSONManager` class itself, as if they were static methods (for example PackageManager.js:239, 548, 637). As written, every such call would throw.
  - How it is modelled: these calls go through the manager's own store instance, which the constructor builds at PackageManager.js:62. That instance is evidently the intended receiver. The as-written call is exhibited for `getParent` under "## Findings".
- **Where the code decides.** Where the code and its documentation disagree, the model follows the code. Examples:
  - `reset` always answers `[null, 0]`, because the error pair is overwritten at PackageManager.js:772;
  - `downloadAGlobalPlugin` answers a bare tree once it has written (PackageManager.js:622);
  - the grouped catalog files each package under its own name only (PackageManager.js:132-156), so an installed record filed under another name, such as a child plugin, makes `doFinalValidatedSearch` throw. Its `catch` then answers the error (`Reconcile.InstalledChildFailsSearch`).
- **Source defects.** Where the code is evidently wrong, the defect is exhibited and the corrected behaviour is the one the class runs; see "## Findings".

## Model

| member | source | states |
|---|---|---|
| `Cnpm.GetRegistry` | packages/cygnus-util/lib/cnpm.js:22-29 | A web URL: the Alibaba-internal registry (plain http) inside the Alibaba network, the taobao mirror (https) outside it. |
| `Cnpm.GetSearchUrl` | packages/cygnus-util/lib/cnpm.js:37-44 | A web URL made of the network's keyword-browse prefix with the keyword after it, unchanged. |
| `Cnpm.GetNamedPackageInfoUrl` | packages/cygnus-util/lib/cnpm.js:52-62 | The network's registry, a `/`, then the package name. |
| `Cnpm.PrefixesDisjoint` | packages/cygnus-util/lib/cnpm.js:22-29 | The two networks' URL prefixes are distinct, so no URL can start with both. |
| `Cnpm.SearchUrlRoundTrip` | packages/cygnus-util/lib/cnpm.js:37-44 | Parsing a browse URL gives back the network and the keyword it was built from. |
| `Cnpm.NamedPackageInfoUrlRoundTrip` | packages/cygnus-util/lib/cnpm.js:52-62 | Parsing a metadata URL gives back the network and the package name. |
| `Cnpm.SearchUrlInjective` | packages/cygnus-util/lib/cnpm.js:37-44 | Different (network, keyword) pairs never share a browse URL. |
| `JsValue.OrElse` | packages/cygnus-extension-market/lib/PackageManager.js:182 | `v \|\| d` yields `v` exactly when `v` is truthy, and `d` otherwise. |
| `JsValue.Default` | packages/cygnus-extension-market/lib/PackageManager.js:484 | A destructuring default replaces `undefined` only; `null` and every other value are kept. |
| `JsValue.StrictEqIsValueEqualityOnPrimitives` | packages/cygnus-extension-market/lib/PackageManager.js:674 | On primitives, `===` is value equality. |
| `JsValue.Member` | packages/cygnus-extension-market/lib/PackageManager.js:675 | Reading a property throws exactly on `null` or `undefined`; on an object it yields the own member, or `undefined` when the object has no own member of that name. Properties inherited from `Object.prototype` are not modelled; see Left out. |
| `JsValue.ObjectKeys` | packages/cygnus-extension-market/lib/PackageManager.js:641 | `Object.keys` throws exactly on `null`/`undefined`, and on an object gives its key list, kept in insertion order. JavaScript lists integer-like keys first; see Left out. |
| `JsValue.IsEmptyObj` | packages/cygnus-extension-market/lib/PackageManager.js:23-30 | `isEmptyObj` holds exactly when `for...in` finds no key: an object without keys, an empty array or string, or any other primitive, `null` and `undefined` included. |
| `JsValue.SetProp` | packages/cygnus-extension-market/lib/PackageManager.js:686 | The modelled write succeeds exactly on an object, and then the key holds the new value. An existing key keeps its place and a new key goes last in the key list. Writes to an array, which JavaScript accepts, and the ordering of integer-like keys are not modelled; see Left out. |
| `JsValue.DeleteProp` | packages/cygnus-extension-market/lib/StatusJSONManager.js:51 | Strict-mode `delete` throws exactly on `null`/`undefined`, on an array's or string's `length` and on a string's characters. On an object it removes the key from both members and order. On an array it keeps the length and leaves a hole at the index the key names, keeping every other element. On anything else it changes nothing. |
| `JsValue.DeleteElementWritesNull` | packages/cygnus-extension-market/lib/StatusJSONManager.js:51-57 | Deleting an element of a plain array succeeds, and writing the array out gives it back with `null` in that slot. |
| `JsValue.SetInField` | packages/cygnus-extension-market/lib/PackageManager.js:317-320 | A successful assignment through a path means the path led to an object. Afterwards that object holds the new value and nothing else along the path changed. |
| `JsValue.SetInAlong` | packages/cygnus-extension-market/lib/PackageManager.js:317-320 | Along a path of objects an assignment never throws, and the path stays a path of objects. |
| `JsValue.DeleteInField` | packages/cygnus-extension-market/lib/PackageManager.js:308-310 | A successful `delete a.b.c` means `a.b` was neither `null` nor `undefined`, and afterwards it is `a.b` without `c`. |
| `JsValue.Indices` | packages/cygnus-extension-market/lib/PackageManager.js:499 | `for...in` over an array or string of length n visits exactly the keys "0" .. "n-1", in order. |
| `JsValue.ParseIndexOfNatToString` | packages/cygnus-extension-market/lib/PackageManager.js:499 | Reading back an index key gives the index. |
| `JsValue.Elements` | packages/cygnus-extension-market/lib/PackageManager.js:127 | An indexed `for` loop over an array visits exactly its items. |
| `JsValue.SerializeIsPlain` | packages/cygnus-extension-market/lib/StatusJSONManager.js:43 | What `outputJsonSync` writes is always plain JSON, with no `undefined` left. |
| `JsValue.SerializePlain` | packages/cygnus-extension-market/lib/StatusJSONManager.js:43 | Serialising a value that is already plain JSON gives it back unchanged. |
| `DeepMerge.Merge` | packages/cygnus-extension-market/lib/StatusJSONManager.js:39 | An `undefined` source leaves the stored value and a plain value replaces it. Two objects merge into an object whose key set is the union, listing the stored keys first in their order. Two arrays merge into an array as long as the longer. |
| `DeepMerge.MergeKeepsAbsentKey` | packages/cygnus-extension-market/lib/StatusJSONManager.js:39 | A key the data does not mention keeps its stored value. |
| `DeepMerge.MergeEmpty` | packages/cygnus-extension-market/lib/StatusJSONManager.js:39 | Merging `{}` changes nothing. |
| `DeepMerge.MergeSelf` | packages/cygnus-extension-market/lib/StatusJSONManager.js:39 | Merging a value into itself gives it back. |
| `DeepMerge.MergeIdempotent` | packages/cygnus-extension-market/lib/StatusJSONManager.js:39 | Merging the same data twice gives what merging it once gives. |
| `DeepMerge.Nest` | packages/cygnus-extension-market/lib/PackageManager.js:136-142 | A nested object literal holds its leaf at its own path. |
| `DeepMerge.AtAppend` | packages/cygnus-extension-market/lib/StatusJSONManager.js:39 | Following path p and then path q is following p + q. |
| `DeepMerge.NestUntouched` | packages/cygnus-extension-market/lib/PackageManager.js:136-142 | A nested literal does not reach any stored path that parts from its own. |
| `DeepMerge.MergeDataLeafWins` | packages/cygnus-extension-market/lib/StatusJSONManager.js:39 | Every scalar in the data ends up at the same path in the merge result. |
| `DeepMerge.MergeKeepsUntouched` | packages/cygnus-extension-market/lib/StatusJSONManager.js:39 | A stored value that the data does not reach keeps its path and value. |
| `DeepMerge.SerializeKeepsLeaf` | packages/cygnus-extension-market/lib/StatusJSONManager.js:43 | Writing a tree out keeps every defined leaf where it was. |
| `DeepMerge.MergePlain` | packages/cygnus-extension-market/lib/StatusJSONManager.js:39 | Merging JSON into JSON yields JSON. |
| `StatusStore.Read` | packages/cygnus-extension-market/lib/StatusJSONManager.js:16-33 | Reading a file that holds a tree returns that tree and changes nothing. A missing file becomes `{}`. A corrupt file is moved aside under `<path>.<now>` and replaced by `{}`; the read fails exactly when that aside name is taken. Files moved aside are never touched again. |
| `StatusStore.ReadNeverFailsOnFreshAside` | packages/cygnus-extension-market/lib/StatusJSONManager.js:23-29 | A read with a fresh aside name always succeeds. |
| `StatusStore.ReadHeals` | packages/cygnus-extension-market/lib/StatusJSONManager.js:16-33 | After one successful read, reading again returns the same tree and writes nothing. |
| `StatusStore.Update` | packages/cygnus-extension-market/lib/StatusJSONManager.js:35-46 | An update fails exactly when its read fails, and then nothing changes. Otherwise it returns the merge of the stored tree and the data (or the data itself on reset) and writes its serialisation. |
| `StatusStore.UpdateReturnsWhatIsWritten` | packages/cygnus-extension-market/lib/StatusJSONManager.js:35-46 | For plain data, the tree an update returns is exactly what the next read returns. |
| `StatusStore.UpdateTwiceIsUpdateOnce` | packages/cygnus-extension-market/lib/StatusJSONManager.js:35-46 | Repeating an update with the same data leaves the file as one update does. |
| `StatusStore.UpdateKeepsUnmentionedKey` | packages/cygnus-extension-market/lib/StatusJSONManager.js:39 | A top-level entry the data does not mention keeps its stored value on disk. |
| `StatusStore.ResetDiscardsStored` | packages/cygnus-extension-market/lib/StatusJSONManager.js:41 | After a reset the file holds exactly the data. |
| `StatusStore.DeleteRoot` | packages/cygnus-extension-market/lib/StatusJSONManager.js:50-55 | `delete tree[tax][name]` fails exactly when `tree[tax]` is missing or null, or when `name` is an undeletable property of it. Otherwise an object group loses only that member, an array group keeps its length with a hole at that index, and every other entry is kept. |
| `StatusStore.Delete` | packages/cygnus-extension-market/lib/StatusJSONManager.js:48-60 | A successful deletion writes exactly the serialisation of the tree it returns, and files moved aside are kept. |
| `StatusStore.DeleteArrayEntryWritesNull` | packages/cygnus-extension-market/lib/StatusJSONManager.js:48-60 | When `Project` is an array, deleting `Project[i]` succeeds and the file then holds `null` at index i, with every other entry as it was. |
| `StatusStore.DeleteArrayEntrySerializes` | packages/cygnus-extension-market/lib/StatusJSONManager.js:50-57 | On any plain tree, `delete tree.Project[i]` of an array entry succeeds, and writing the result leaves `null` in that slot and every other member unchanged. |
| `StatusStore.DeleteProjectRoot` | packages/cygnus-extension-market/lib/StatusJSONManager.js:50-52 | Type 0 removes `Project[name]` and fails exactly when `Project` is missing or null, or `name` is an undeletable property of it. |
| `StatusStore.DeletePluginRoot` | packages/cygnus-extension-market/lib/StatusJSONManager.js:53-55 | Type 1 removes `Plugin[name]` and fails exactly when `Plugin` is missing or null, or `name` is an undeletable property of it. |
| `StatusStore.DeleteOtherTypeRewrites` | packages/cygnus-extension-market/lib/StatusJSONManager.js:48-60 | Any other type rewrites the file unchanged. |
| `StatusStore.CorruptFileStaysCorruptAsWritten` | packages/cygnus-extension-market/lib/StatusJSONManager.js:3 | As written, a corrupt file makes every read throw and stays corrupt. With a working move, the file is healed to `{}` and the old text is kept aside. |
| `StatusStore.StatusJSONManager.constructor` | packages/cygnus-extension-market/lib/StatusJSONManager.js:12-15 | The store remembers its suffix; its file is `<home>/.ANT_IDE_STUFF_<suffix>/DOWNLOADED_PACKAGES_INFO.json`. |
| `StatusStore.StatusJSONManager.ReadStatusJSON` | packages/cygnus-extension-market/lib/StatusJSONManager.js:16-33 | The in-place read leaves the store, and returns, exactly what `Read` gives. |
| `StatusStore.StatusJSONManager.UpdateStatusJSON` | packages/cygnus-extension-market/lib/StatusJSONManager.js:35-46 | The in-place update leaves the store, and returns, exactly what `Update` gives. |
| `StatusStore.StatusJSONManager.DeleteAGlobalExtensionFromStatusJSON` | packages/cygnus-extension-market/lib/StatusJSONManager.js:48-60 | The in-place deletion leaves the store, and returns, exactly what `Delete` gives. |
| `Semver.ParseMain` | packages/cygnus-extension-market/lib/PackageManager.js:316 | A major, minor or patch number is accepted only up to 2^53 - 1. |
| `Semver.AsVersion` | packages/cygnus-extension-market/lib/PackageManager.js:316 | A value is a version exactly when it is a string that parses; the version is what it parses to. |
| `Semver.Gt` | packages/cygnus-extension-market/lib/PackageManager.js:316 | `semver.gt(a, b)` throws unless both are valid versions; otherwise it holds exactly when b has lower precedence than a. |
| `Semver.CompareAntisymmetric` | packages/cygnus-extension-market/lib/PackageManager.js:316 | Swapping the operands negates the precedence comparison; only equal versions compare equal. |
| `Semver.CompareTransitive` | packages/cygnus-extension-market/lib/PackageManager.js:316 | Precedence is transitive. |
| `Semver.GtIsStrictOrder` | packages/cygnus-extension-market/lib/PackageManager.js:316 | `gt` is irreflexive, asymmetric and transitive. |
| `Semver.GtTotal` | packages/cygnus-extension-market/lib/PackageManager.js:316 | Two distinct valid versions (ignoring build metadata) are ordered one way or the other. |
| `Semver.Section11Example` | packages/cygnus-extension-market/lib/PackageManager.js:345-346 | The chain 1.0.0-alpha < … < 1.0.0 from section 11 of Semantic Versioning 2.0.0 holds for `gt`. |
| `Semver.ParseFormat` | packages/cygnus-extension-market/lib/PackageManager.js:316 | Parsing a formatted version gives the version back. |
| `Semver.GtOfFormat` | packages/cygnus-extension-market/lib/PackageManager.js:316 | On formatted versions, `gt` is exactly precedence. |
| `Semver.ParseRefuses` | packages/cygnus-extension-market/lib/PackageManager.js:316 | The empty string and `1.2` are not versions, so `gt` throws on them. |
| `Catalog.GetPackageType` | packages/cygnus-extension-market/lib/PackageManager.js:38-49 | 0 exactly for a manifest whose `cygnus.isProject` is truthy, 1 for any other truthy `cygnus`, and 2 when `cygnus` is missing. |
| `Catalog.AuthorOf` | packages/cygnus-extension-market/lib/PackageManager.js:180-186 | An object author gives its `name`, else its `email`, else `''`. A string author is itself. Anything else gives `''`. |
| `Catalog.CygnusExtra` | packages/cygnus-extension-market/lib/PackageManager.js:191-196 | The display name is `cname`, else `description.cname`, else `description.name`, else `''`. The dependencies are `plugins`, else `[]`. It throws when `description` is missing. |
| `Catalog.RecordJson` | packages/cygnus-extension-market/lib/PackageManager.js:199-217 | A record is written with exactly the members of the record literal, in its order. |
| `Catalog.RecordOf` | packages/cygnus-extension-market/lib/PackageManager.js:199-217 | A built record has exactly the keys of the record literal, in order. |
| `Catalog.RecordOfMembers` | packages/cygnus-extension-market/lib/PackageManager.js:199-217 | A record holds exactly the members its key list names, and its `path` is the manifest's own. |
| `Catalog.RecordOfManifestParts` | packages/cygnus-extension-market/lib/PackageManager.js:179-217 | A record that is built comes from the manifest's type, extras, link and author, as the source computes each. |
| `Catalog.RecordOfManifestFields` | packages/cygnus-extension-market/lib/PackageManager.js:199-217 | Field by field: the type is the manifest's type and `enable` is true. `status`, `aversion`, `latestVersion` and `readme` are the manifest's when truthy, else `''` (the placeholder text for `readme`). `name` and `version` are the manifest's. |
| `Catalog.RecordOfManifestPath` | packages/cygnus-extension-market/lib/PackageManager.js:206 | A record's `path` is its manifest's `path`. |
| `Catalog.RecordOfManifestAuthorAndName` | packages/cygnus-extension-market/lib/PackageManager.js:180-196 | The author comes from the manifest, and so does an extension's display name. |
| `Catalog.PlainModuleIsRejected` | packages/cygnus-extension-market/lib/PackageManager.js:197 | A manifest without `cygnus` never yields a record: reading `cygnus.description` throws. |
| `Catalog.RecordOfManifest` | packages/cygnus-extension-market/lib/PackageManager.js:179-217 | A record is built only from a manifest that declares `cygnus`, and it is an object with exactly the record literal's members in their order; `RecordOfManifestFields` gives their values. |
| `Catalog.WithVersions` | packages/cygnus-extension-market/lib/PackageManager.js:218-223 | A raw-mode record is an object that also carries the version list and the tags. |
| `Catalog.LatestManifestShape` | packages/cygnus-extension-market/lib/PackageManager.js:172-175 | In raw mode the manifest used is the one `dist-tags.latest` names, with the version list and the tags added. |
| `Catalog.RawRecordIsLatest` | packages/cygnus-extension-market/lib/PackageManager.js:172-175 | A raw-mode record describes the latest version, lists every published version in registry order, and carries the tags. |
| `Catalog.NormalizeOne` | packages/cygnus-extension-market/lib/PackageManager.js:170-228 | One step of `normalizePackagesInfo`: a key and an object record. |
| `Catalog.IndexByOk` | packages/cygnus-extension-market/lib/PackageManager.js:170-229 | The fold succeeds exactly when every element yields an entry. |
| `Catalog.IndexByKeys` | packages/cygnus-extension-market/lib/PackageManager.js:224-226 | The keys of the result are exactly the keys of the entries. |
| `Catalog.IndexByLastWins` | packages/cygnus-extension-market/lib/PackageManager.js:224-226 | An entry is what the result holds under its key unless a later entry has the same key. |
| `Catalog.NormalizeAllOk` | packages/cygnus-extension-market/lib/PackageManager.js:170-229 | The catalog is built exactly when every manifest yields a record. |
| `Catalog.NormalizeAllKeyedByName` | packages/cygnus-extension-market/lib/PackageManager.js:224-226 | The catalog's keys are exactly the manifests' names. A manifest's record is stored under its name unless a later manifest has the same name. |
| `Catalog.NormalizePackagesInfo` | packages/cygnus-extension-market/lib/PackageManager.js:166-230 | `normalizePackagesInfo` succeeds exactly when every manifest it walks (none for `undefined`, a lone value wrapped) yields a record, and then gives an object keyed by exactly the records' names. |
| `Catalog.IndexByDistinct` | packages/cygnus-extension-market/lib/PackageManager.js:170-229 | The `reduce` never lists a key twice, and lists exactly the keys it holds. |
| `Catalog.NormalizeAllLastWins` | packages/cygnus-extension-market/lib/PackageManager.js:224-226 | With no later manifest of the same name, a manifest's record is the one stored under its name. |
| `Catalog.NormalizeOneNamed` | packages/cygnus-extension-market/lib/PackageManager.js:203-226 | A record is stored under its own `name`. |
| `Catalog.NormalizeAllNamed` | packages/cygnus-extension-market/lib/PackageManager.js:170-229 | Every record of a catalog is an object stored under its own name, and its key list matches its member set. |
| `Catalog.MergeFreshEntry` | packages/cygnus-extension-market/lib/PackageManager.js:153 | Merging a one-record entry under a new key files the record there. |
| `Catalog.GroupAllFiles` | packages/cygnus-extension-market/lib/PackageManager.js:132-156 | For distinct keys, each record of type 0 is filed at `Project.<name>.<name>` and each of type 1 at `Plugin.<name>.<name>`. Records of any other type are dropped, and nothing else is filed. |
| `Catalog.GroupAll` | packages/cygnus-extension-market/lib/PackageManager.js:132-156 | The grouping `reduce` throws exactly when some key's record is `null`/`undefined`, and otherwise yields an object with no taxonomy but `Project` and `Plugin`. |
| `Catalog.GroupAllStep` | packages/cygnus-extension-market/lib/PackageManager.js:132-156 | Each key of the `reduce` either files its record or, for another type, is skipped. |
| `Catalog.GroupStepOnlyFiled` | packages/cygnus-extension-market/lib/PackageManager.js:153 | After a step, what is filed is what was filed before plus the new record. |
| `Catalog.GroupStepAllFiled` | packages/cygnus-extension-market/lib/PackageManager.js:153 | Whatever was filed stays filed, and the new record is filed alone under its key. |
| `Catalog.GroupStepSkips` | packages/cygnus-extension-market/lib/PackageManager.js:134-153 | A record of another type leaves the grouping unchanged. |
| `Catalog.WhiteNames` | packages/cygnus-extension-market/lib/PackageManager.js:76 | `map(whiteList, 'name')` has one name per whitelist entry. |
| `Catalog.KeepListed` | packages/cygnus-extension-market/lib/PackageManager.js:78-83 | The filter throws exactly on a `null`/`undefined` package. It keeps exactly the packages whose name is listed, never more than it was given. |
| `Catalog.KeepListedAppend` | packages/cygnus-extension-market/lib/PackageManager.js:78-83 | The filter keeps listing order: filtering a concatenation concatenates the filtered parts. |
| `Catalog.WhiteListFilter` | packages/cygnus-extension-market/lib/PackageManager.js:110-126 | An empty whitelist filters nothing; a non-empty one throws on a listing that is not an array. |
| `Catalog.WhiteListKeepsListed` | packages/cygnus-extension-market/lib/PackageManager.js:112-120 | With a non-empty whitelist, a package is kept exactly when the listing holds it and its name is whitelisted. |
| `Catalog.ListedNames` | packages/cygnus-extension-market/lib/PackageManager.js:127-129 | One name per listed package. |
| `Catalog.FetchAll` | packages/cygnus-extension-market/lib/PackageManager.js:127-130 | One metadata document per listed name, each fetched from that name's metadata URL. |
| `Catalog.DetailSearch` | packages/cygnus-extension-market/lib/PackageManager.js:98-164 | A detail search that finds packages yields a catalog object. It ends with no packages exactly when the listing is fetched and read and its `length` is falsy. |
| `Catalog.DetailSearchFiles` | packages/cygnus-extension-market/lib/PackageManager.js:98-164 | Once the listing is non-empty and filtered (whole, or what a usable whitelist keeps) and every listed package's metadata is fetched, the search finds a catalog exactly when every document yields a record. The catalog is then keyed by the records' names, and files each record of type 0 or 1 alone at `<taxonomy>.<name>.<name>` and nothing else. |
| `Catalog.EmptyWhiteListFiltersNothing` | packages/cygnus-extension-market/lib/PackageManager.js:110-126 | A whitelist whose `length` is falsy gives the same search as ignoring the whitelist. |
| `InstallList.PathOf` | packages/cygnus-extension-market/lib/PackageManager.js:460 | The key path `lodash.set` follows for a dotted path string is never empty. |
| `InstallList.PathOfDotted` | packages/cygnus-extension-market/lib/PackageManager.js:460 | `a.b.rest` with dot-free `a` and `b` is the keys `a`, `b`, then those of `rest`. |
| `InstallList.PathOfPlugin` | packages/cygnus-extension-market/lib/PackageManager.js:470 | For a dot-free name, `Plugin.<n>` is two keys and `Plugin.<n>.<n>` is three. |
| `InstallList.SetPath` | packages/cygnus-extension-market/lib/PackageManager.js:460 | After `lodash.set`, the path holds the value and every other top-level entry is unchanged. A present first key keeps the key order. |
| `InstallList.SetPathElsewhere` | packages/cygnus-extension-market/lib/PackageManager.js:460 | A `set` leaves every path that parts from its own where it was. |
| `InstallList.AddPluginsOk` | packages/cygnus-extension-market/lib/PackageManager.js:462-466 | The plugin loop throws exactly when a plugin entry is `null` or `undefined`. |
| `InstallList.AddPluginOk` | packages/cygnus-extension-market/lib/PackageManager.js:465 | One plugin entry is filed exactly when it can be read. |
| `InstallList.AddPluginsStep` | packages/cygnus-extension-market/lib/PackageManager.js:465 | One dot-free plugin entry sets `Project.<owner>.<name>` to its version. |
| `InstallList.AddPluginsLands` | packages/cygnus-extension-market/lib/PackageManager.js:462-466 | Under `Project.<owner>`, each dot-free plugin name holds the version of its last entry. A name no entry uses keeps what it had. |
| `InstallList.AddPluginsElsewhere` | packages/cygnus-extension-market/lib/PackageManager.js:462-466 | The plugin loop touches nothing outside `Project.<owner>`. |
| `InstallList.ProjectManifestFiled` | packages/cygnus-extension-market/lib/PackageManager.js:458-468 | A project manifest files its own version at `Project.<n>.<n>` and each plugin's version at `Project.<n>.<plugin>`. |
| `InstallList.PluginManifestFiled` | packages/cygnus-extension-market/lib/PackageManager.js:469-477 | A plugin manifest files its own version under `Plugin`: as a bare value at `Plugin.<n>` as written, and at `Plugin.<n>.<n>` when corrected. Its plugins go under `Project.<n>`. |
| `InstallList.AddPackageElsewhere` | packages/cygnus-extension-market/lib/PackageManager.js:455-478 | A manifest touches nothing outside `Project.<n>` and, for a plugin, `Plugin.<n>`. An ordinary npm module touches nothing. |
| `InstallList.GetInstallListObj` | packages/cygnus-extension-market/lib/PackageManager.js:451-482 | The two nested `for` loops calling `set` build exactly the install list that `InstallListOf` defines. |
| `InstallList.InstallListOf` | packages/cygnus-extension-market/lib/PackageManager.js:451-482 | `getInstallListObj` yields an object when it does not throw. What it files is stated by the lemmas on `AddPackages` above. |
| `InstallList.RootPath` | packages/cygnus-extension-market/lib/PackageManager.js:460-470 | The `set` path of a manifest's own version starts with `Project.` for a project and `Plugin.` for a plugin, and ends with the manifest's name; `RootPathKeys` splits it into `Project.n.n`, `Plugin.n` as written, or `Plugin.n.n` corrected. |
| `InstallList.AddPlugins` | packages/cygnus-extension-market/lib/PackageManager.js:462-466 | The plugin `set` calls build an object, and throw exactly when a declared plugin is `null` or `undefined`. |
| `InstallList.AddPackages` | packages/cygnus-extension-market/lib/PackageManager.js:455-478 | The manifest loop builds an object, and throws exactly when some extension manifest declares a `null` or `undefined` plugin; ordinary modules add nothing. |
| `InstallList.AddPlugin` | packages/cygnus-extension-market/lib/PackageManager.js:464-466 | One plugin `set` call throws exactly when the declared plugin is `null` or `undefined`. |
| `InstallList.AddPackage` | packages/cygnus-extension-market/lib/PackageManager.js:455-478 | An ordinary module (type 2) adds nothing; an extension throws exactly when it declares a `null` or `undefined` plugin. |
| `InstallList.AddPluginEntries` | packages/cygnus-extension-market/lib/PackageManager.js:462-466 | The inner loop over one manifest's plugins computes exactly the plugin fold. |
| `InstallList.ItemRequests` | packages/cygnus-extension-market/lib/PackageManager.js:499-504 | One download request per key of a group, in `for...in` order, each asking for that key at the version stored under it in `<tax>/<owner>/<name>@<version>`. |
| `InstallList.PluginListed` | packages/cygnus-extension-market/lib/PackageManager.js:470 | A single plugin manifest's `Plugin` member: the bare version as written, `{<n>: version}` when corrected. |
| `InstallList.StringRequests` | packages/cygnus-extension-market/lib/PackageManager.js:573-575 | `for...in` over a string visits its indices, and reading an index gives that character. |
| `InstallList.PluginRequestsAsWritten` | packages/cygnus-extension-market/lib/PackageManager.js:570-580 | As written, a plugin download walks the characters of the version string and requests packages named `0`, `1`, … at single-character versions. |
| `InstallList.PluginRequestsFixed` | packages/cygnus-extension-market/lib/PackageManager.js:570-580 | With `Plugin.<n>.<n>` filed, a plugin download requests exactly the plugin itself at its declared version. |
| `Installed.ChildStepsComputesGroupAfter` | packages/cygnus-extension-market/lib/PackageManager.js:251-260 | The walk over a group's children computes the group's closed form, `GroupAfter`. |
| `Installed.GroupAfterStep` | packages/cygnus-extension-market/lib/PackageManager.js:252-258 | One more child advances the closed form as the walk's step does. |
| `Installed.RootStep` | packages/cygnus-extension-market/lib/PackageManager.js:254-255 | An installing root removes its whole group. |
| `Installed.DropStep` | packages/cygnus-extension-market/lib/PackageManager.js:256-257 | An installing child other than the root removes only itself. |
| `Installed.GroupWalk` | packages/cygnus-extension-market/lib/PackageManager.js:249-261 | A group whose root is not installing loses exactly its installing children. A group whose root is installing is removed once the root is the last child; otherwise the walk fails. |
| `Installed.TaxonomyWalk` | packages/cygnus-extension-market/lib/PackageManager.js:248-262 | Walking a whole taxonomy yields its closed form, or fails on some group. |
| `Installed.FilterInstallingComputesCleanTree` | packages/cygnus-extension-market/lib/PackageManager.js:239-265 | On a stored tree, the walk succeeds exactly when every installing root is the last child of its group, and then yields the clean tree. |
| `Installed.FilterInstalling` | packages/cygnus-extension-market/lib/PackageManager.js:239-265 | The walk over an object succeeds only with an object that lists the same taxonomies in the same order. |
| `Installed.FilterInstallingKeepsTheRest` | packages/cygnus-extension-market/lib/PackageManager.js:239-265 | After the walk: no installing record is left; a group with an installing root is gone; every other record is kept with its value and order. |
| `Installed.FilterInstallingIdentity` | packages/cygnus-extension-market/lib/PackageManager.js:239-265 | A tree without installing records comes back unchanged. |
| `Installed.RootBeforeChildFails` | packages/cygnus-extension-market/lib/PackageManager.js:254-257 | As written, a group whose installing root precedes another child makes the whole call throw. |
| `Installed.RootBeforeChildSkipped` | packages/cygnus-extension-market/lib/PackageManager.js:254-257 | With removed groups skipped, the same tree loses that group as a whole. |
| `Installed.FilterInstallingFixedTotal` | packages/cygnus-extension-market/lib/PackageManager.js:239-265 | With removed groups skipped, the walk never fails on a stored tree and always yields the clean tree. |
| `Installed.IndexOfZeroOne` | packages/cygnus-extension-market/lib/PackageManager.js:267 | `type.indexOf([0, 1])` finds a match only for a string containing "0,1". It never matches for an array, and throws for a number or any other value without `indexOf`. |
| `Installed.NumericTypeFails` | packages/cygnus-extension-market/lib/PackageManager.js:267 | The documented call with type 0 or 1 and a non-empty name always throws. |
| `Installed.Lookup` | packages/cygnus-extension-market/lib/PackageManager.js:267-272 | As written: without a name the tree itself comes back; a name with a numeric type throws; and a lookup that reads a taxonomy reads `Plugin[name]`, never `Project`. |
| `Installed.GetInstalledObj` | packages/cygnus-extension-market/lib/PackageManager.js:238-273 | As written: a failed walk is the call's failure, and without a name the walked tree comes back (`UnnamedLookupIsTheTree` gives its closed form). |
| `Installed.UnnamedLookupIsTheTree` | packages/cygnus-extension-market/lib/PackageManager.js:267-272 | Called without a name, as every caller does, the walked tree itself comes back. |
| `Installed.LookupIntendedCases` | packages/cygnus-extension-market/lib/PackageManager.js:267-272 | On a tree of objects, the intended lookup yields the whole tree without a name, and otherwise the named group. |
| `Installed.LookupIntended` | packages/cygnus-extension-market/lib/PackageManager.js:267-272 | Corrected test: without a name, or with a type other than 0 and 1, the tree comes back; type 0 reads `Project[name]` and type 1 reads `Plugin[name]`, `undefined` when absent. |
| `Installed.GetInstalledObjIntended` | packages/cygnus-extension-market/lib/PackageManager.js:238-273 | Corrected call: a failed walk is the failure, and without a name the corrected walk's tree comes back; `GetInstalledObjIntendedTotal` shows it never fails on a stored tree. |
| `Installed.GetInstalledObjIntendedTotal` | packages/cygnus-extension-market/lib/PackageManager.js:238-273 | Corrected, the call never fails on a stored tree: without a name it yields the clean tree, and with a name and type 0 or 1 it yields that group of the clean tree. |
| `Parent.DirnameOfChild` | packages/cygnus-extension-market/lib/PackageManager.js:648 | The directory of `dir/name` is `dir`, for a name without `/` and a directory not ending in one. |
| `Parent.DirnameOf` | packages/cygnus-extension-market/lib/PackageManager.js:648 | `path.dirname` throws exactly on a non-string, and otherwise is POSIX `dirname`. |
| `Parent.DirnameShape` | packages/cygnus-extension-market/lib/PackageManager.js:648 | POSIX `dirname` gives `.` or a prefix of the path, never the empty string, and starts with `/` exactly when the path does. |
| `Parent.SearchItems` | packages/cygnus-extension-market/lib/PackageManager.js:646-651 | The inner `forEach` loop computes exactly the item fold: `parent` becomes the owner at every record at `path` or in directory `path`. |
| `Parent.SearchGroup` | packages/cygnus-extension-market/lib/PackageManager.js:644-652 | One group's body of the outer loop computes exactly its group step. |
| `Parent.SearchGroups` | packages/cygnus-extension-market/lib/PackageManager.js:644-652 | The outer `forEach` loop computes exactly the owner fold. |
| `Parent.ItemStep` | packages/cygnus-extension-market/lib/PackageManager.js:647-650 | One record throws exactly when its `path` cannot be compared, and names the owner when it lies at `path`. |
| `Parent.ItemMatchesFinds` | packages/cygnus-extension-market/lib/PackageManager.js:646-651 | Within a group, the search finds the owner when some record matches, and the earlier finding otherwise. It throws exactly on an unreadable record. |
| `Parent.OwnerStep` | packages/cygnus-extension-market/lib/PackageManager.js:645-651 | One group throws exactly when it is `null`/`undefined` or one of its records cannot be compared. |
| `Parent.OwnerMatchesFinds` | packages/cygnus-extension-market/lib/PackageManager.js:644-652 | Across groups, the search finds the last matching owner, or else the earlier finding. It throws exactly on an unreadable group. |
| `Parent.SearchFinds` | packages/cygnus-extension-market/lib/PackageManager.js:638-667 | With every record readable, `getParent` names the last project group holding a record at `path`. Only when there is none does it name the last such plugin group, and `null` when nothing matches. |
| `Parent.SearchFails` | packages/cygnus-extension-market/lib/PackageManager.js:638-665 | The search throws exactly when a project record cannot be compared, or when no project matched and a plugin record cannot be compared. |
| `Parent.Search` | packages/cygnus-extension-market/lib/PackageManager.js:638-667 | An empty tree gives `null`. Otherwise a search that does not throw gives `null` or the name of a project or plugin group. |
| `Parent.ManifestDirMatches` | packages/cygnus-extension-market/lib/PackageManager.js:518 | A record stored at `dir/name` is found both by its own path and by `dir`. |
| `Parent.IsAbsolute` | packages/cygnus-extension-market/lib/PackageManager.js:633 | `path-is-absolute` on POSIX: a path is absolute exactly when it begins with `/`. |
| `Parent.GetParentOf` | packages/cygnus-extension-market/lib/PackageManager.js:638-667 | The answer has no error; the parent is `null` or the name of a `Project` or `Plugin` group; an empty tree answers `null`; it throws exactly when the search does. |
| `Patch.Record` | packages/cygnus-extension-market/lib/PackageManager.js:675 | `tree[tax][group][name]` throws exactly when the taxonomy or the group is missing or null. |
| `Patch.RecordIsStored` | packages/cygnus-extension-market/lib/PackageManager.js:675 | A record stored along objects is what the lookup reads. |
| `Patch.Fields` | packages/cygnus-extension-market/lib/PackageManager.js:676-687 | The patch literal holds `status`, and `enable` exactly when `enable` is a boolean, and nothing else. |
| `Patch.PatchObject` | packages/cygnus-extension-market/lib/PackageManager.js:671-717 | The patch holds the fields at the chosen record's path, and is `{}` when no record is chosen. |
| `Patch.TargetIsStoredRecord` | packages/cygnus-extension-market/lib/PackageManager.js:674-718 | A record is chosen only when it is stored and truthy, and only at `Project.<n>.<n>` (type 0), `Project.<parent>.<n>` (type 1 with a parent) or `Plugin.<n>.<n>` (type 1 without). |
| `Patch.Target` | packages/cygnus-extension-market/lib/PackageManager.js:674-718 | A call of a type other than 0 or 1 chooses nothing. A chosen path has three keys, ends with the given name, starts with `Project` or `Plugin`, and leads to a stored truthy record. `Plugin` is chosen only by a type-1 call without a truthy parent. |
| `Patch.TargetFindsProject` | packages/cygnus-extension-market/lib/PackageManager.js:674-689 | A stored truthy project record named by a type-0 call is chosen. |
| `Patch.TargetFindsProjectPlugin` | packages/cygnus-extension-market/lib/PackageManager.js:691-703 | A stored truthy project plugin record, named with its parent by a type-1 call, is chosen. |
| `Patch.TargetFindsPlugin` | packages/cygnus-extension-market/lib/PackageManager.js:704-716 | A stored truthy plugin record named by a type-1 call without a parent is chosen. |
| `Patch.SetStatusOrEnable` | packages/cygnus-extension-market/lib/PackageManager.js:670-724 | The call throws exactly when the read at line 672 throws. A caught lookup error answers `[err, {}]` and writes nothing. Otherwise the answer is the merged tree, which is what the file holds. |
| `Patch.SetStatusOrEnableReads` | packages/cygnus-extension-market/lib/PackageManager.js:670-724 | The call is the read followed, when the read succeeds, by the patch of the tree read. |
| `Patch.PatchStored` | packages/cygnus-extension-market/lib/PackageManager.js:673-723 | On a file known to hold the tree, a caught error writes nothing and answers `{}`. A success answers the merge of the patch, which is what the file then holds. |
| `Patch.PatchStoredMerges` | packages/cygnus-extension-market/lib/PackageManager.js:723 | With a record chosen or none, the file gets the merge of the patch and the call answers with the merged tree. |
| `Patch.PatchWritesOnlyRecord` | packages/cygnus-extension-market/lib/PackageManager.js:723 | Merging the patch writes `status` (and a boolean `enable`) at the record and leaves every other stored value in place. |
| `Patch.NoTargetKeepsTree` | packages/cygnus-extension-market/lib/PackageManager.js:723 | When no record is chosen, the `{}` patch leaves the stored tree as it was and returns it. |
| `Patch.SetStatusOrEnablePatchesRecord` | packages/cygnus-extension-market/lib/PackageManager.js:670-724 | A chosen object record comes back patched, and nothing else in the tree moves. |
| `Download.ChooseVersionPrefersRequested` | packages/cygnus-extension-market/lib/PackageManager.js:493 | The requested version's manifest is chosen when the document has one that is truthy; otherwise the one the `latest` tag names. |
| `Download.ChooseVersion` | packages/cygnus-extension-market/lib/PackageManager.js:493 | A chosen manifest is the requested version's, when that is truthy, or the one the `latest` tag names. A missing document throws. |
| `Download.ItemOf` | packages/cygnus-extension-market/lib/DownloadManager.js:47-70 | A download is queued exactly when the name is non-empty. Its version is the requested one, or `'latest'` when none was given, never `undefined`. |
| `Download.RequestedVersion` | packages/cygnus-extension-market/lib/DownloadManager.js:47 | The version asked for is the given one, or `'latest'` when it is missing. |
| `Download.CollectRequests` | packages/cygnus-extension-market/lib/PackageManager.js:496-506 | The nested `for...in` loops collect exactly the requests of the install list's taxonomy, owner by owner and key by key. |
| `Download.CollectItems` | packages/cygnus-extension-market/lib/PackageManager.js:499-504 | The inner loop collects exactly one owner's requests. |
| `Download.Items` | packages/cygnus-extension-market/lib/PackageManager.js:503-508 | The downloads succeed exactly when every request has a non-empty name. Item i is request i, at its version or `'latest'` when it names none, placed under the download directory. |
| `Download.Entry` | packages/cygnus-extension-market/lib/PackageManager.js:516-519 | The entry kept for a download holds exactly its `version` and the path of its manifest. |
| `Download.NameAndVersion` | packages/cygnus-extension-market/lib/PackageManager.js:514-521 | Every entry of `dlNameAndVersionObj` is an object holding exactly `version` and `path`. |
| `Download.NameAndVersionKeys` | packages/cygnus-extension-market/lib/PackageManager.js:514-521 | The keys are exactly the downloaded names. |
| `Download.NameAndVersionLastWins` | packages/cygnus-extension-market/lib/PackageManager.js:514-521 | A download whose name no later download repeats has its own entry under its name. |
| `Download.ReadManifests` | packages/cygnus-extension-market/lib/PackageManager.js:522-529 | Reading succeeds exactly when every download's manifest file exists. Manifest i is that file's content. |
| `Download.AssignKeysFields` | packages/cygnus-extension-market/lib/PackageManager.js:532-536 | `Object.assign` gives each copied key its source value, and every other key of the target keeps its value. |
| `Download.AssignObject` | packages/cygnus-extension-market/lib/PackageManager.js:532-536 | Assigning an object copies its members over the target's and keeps the target's other members. |
| `Download.Extras` | packages/cygnus-extension-market/lib/PackageManager.js:533-535 | The added members are `aversion` (the manifest's version) and `enable: true`, plus `status: 'installing'` for a plugin download. |
| `Download.MixAll` | packages/cygnus-extension-market/lib/PackageManager.js:531-540 | The `reduce` throws exactly on a `null`/`undefined` manifest, and otherwise yields one record per manifest. |
| `Download.MixOne` | packages/cygnus-extension-market/lib/PackageManager.js:532-537 | One step succeeds exactly on a readable manifest, and yields its mix. |
| `Download.MixAllAt` | packages/cygnus-extension-market/lib/PackageManager.js:531-540 | Record i of the `reduce` is manifest i mixed. |
| `Download.MixFields` | packages/cygnus-extension-market/lib/PackageManager.js:532-536 | A mixed record has the manifest's own version as `aversion` and `enable: true`, and a plugin's has status `installing`. When its name was downloaded, its `version` and `path` come from that download. |
| `Download.AssignThreeAt` | packages/cygnus-extension-market/lib/PackageManager.js:532-536 | In `Object.assign({}, a, x, e)`, the last source holding a key wins. |
| `Download.MixKeepsManifest` | packages/cygnus-extension-market/lib/PackageManager.js:532-536 | Every other member of the manifest is kept as it was. |
| `Download.NameAndVersionEntry` | packages/cygnus-extension-market/lib/PackageManager.js:536 | What `dlNameAndVersionObj[name]` reads is nothing, or an entry holding only `version` and `path`. |
| `Download.LocalInfoShape` | packages/cygnus-extension-market/lib/PackageManager.js:507-545 | Nothing is written when the taxonomy has no requests. Otherwise a failed download or unreadable manifest fails the call, and a success files the batch's records under `<tax>.<pkg.name>`. |
| `Download.MixRecordFields` | packages/cygnus-extension-market/lib/PackageManager.js:531-542 | The record normalised from a downloaded manifest's mix has its name, the requested version, the manifest path, `enable` and the manifest's version as `aversion`. |
| `Download.DownloadedRecord` | packages/cygnus-extension-market/lib/PackageManager.js:508-544 | A downloaded package's record is filed under its requested name, with the requested version (`'latest'` when none was given), the manifest path and `enable`. Its `aversion` is the manifest's own version and, for a plugin, its status is `installing`. |
| `Download.ItemRequested` | packages/cygnus-extension-market/lib/PackageManager.js:503-508 | Item i is request i downloaded, at its version or `'latest'`, and a name requested once is downloaded once. |
| `Download.RecordInLocal` | packages/cygnus-extension-market/lib/PackageManager.js:509-544 | What the call writes, `{tax: {owner: records}}`, holds request i's record at `<tax>.<owner>.<name>` with the manifest path, `enable`, the requested version (`'latest'` when none was given) and, for a plugin, status `installing`. |
| `Download.RecordsMerged` | packages/cygnus-extension-market/lib/PackageManager.js:547-548 | Merged into any stored tree and written out, the plain members of a download's record are what the file then holds. |
| `Download.LeafMerged` | packages/cygnus-extension-market/lib/StatusJSONManager.js:39-43 | A leaf of the merged-in object wins, and survives being written out. |
| `Download.Wanted` | packages/cygnus-extension-market/lib/PackageManager.js:490-545 | A call with an empty or non-string name writes `{}`; otherwise what it writes is an object. |
| `Download.WriteProject` | packages/cygnus-extension-market/lib/PackageManager.js:547-555 | A failure answers `[err, null]` and writes nothing. Given `{}`, the file stays as the read left it. Otherwise a success leaves the file holding the serialised merge of the stored tree and the write, and answers it. |
| `Download.DownloadProjectPlugin` | packages/cygnus-extension-market/lib/PackageManager.js:484-556 | The call always resolves, keeps the aside copies and leaves a tree on disk. Without a non-empty name it only reads the file (healing a corrupt one) and answers `[null, tree]` exactly when that read succeeds. |
| `Download.ReadBack` | packages/cygnus-extension-market/lib/PackageManager.js:550 | `[null, tree]` exactly when the read succeeds, with the tree the file then holds; `[err, null]` otherwise. |
| `Download.WriteGlobalPlugin` | packages/cygnus-extension-market/lib/PackageManager.js:621-629 | Like a project download, except that once records are merged, the merged tree is answered bare (not as a pair), and the file holds its serialisation. |
| `Download.DownloadAGlobalPlugin` | packages/cygnus-extension-market/lib/PackageManager.js:558-630 | The call always resolves and keeps the aside copies. Only a call with a non-empty name can answer with the merged tree alone. Without one it answers a pair, only reads the file, and succeeds exactly when that read does. |
| `Reconcile.Annotate` | packages/cygnus-extension-market/lib/PackageManager.js:317-318 | A record marked out of date has status `outdate` and the release as `latestVersion`; everything else is kept. |
| `Reconcile.Mark` | packages/cygnus-extension-market/lib/PackageManager.js:317-320 | The installed record and the catalog record at its place are both marked, or the write throws. |
| `Reconcile.MarkReplaces` | packages/cygnus-extension-market/lib/PackageManager.js:319-320 | On a filed record, marking succeeds and changes the catalog only at that record. |
| `Reconcile.LatestRule` | packages/cygnus-extension-market/lib/PackageManager.js:316-321 | A project or root plugin is out of date exactly when its `latest` tag is newer than the installed version. `semver.gt` throwing fails the rule. |
| `Reconcile.TagRule` | packages/cygnus-extension-market/lib/PackageManager.js:336-343 | A truthy tag named by the record's `version` that is newer than the installed version marks the record. |
| `Reconcile.FirstMatch` | packages/cygnus-extension-market/lib/PackageManager.js:345-356 | The `some` scan yields the index of the first release that satisfies the range and is newer. An error comes from the first release whose semver call throws. |
| `Reconcile.FirstMatchIsFirst` | packages/cygnus-extension-market/lib/PackageManager.js:345-356 | Every release before the match was passed over. No match means every release was passed over, and the match itself is acceptable. |
| `Reconcile.TagRelease` | packages/cygnus-extension-market/lib/PackageManager.js:336-343 | A release taken from a tag is the one the tag names, and is newer than the installed version. |
| `Reconcile.NewestRelease` | packages/cygnus-extension-market/lib/PackageManager.js:305-424 | Any release a record is marked with is newer than the installed version. Under the `latest` rule it is the `latest` tag. Under the other rule it is a listed release satisfying the requested range, or the tag the requested version names. |
| `Reconcile.Expected` | packages/cygnus-extension-market/lib/PackageManager.js:305-424 | A record of no rule comes out as it is. A record that comes out changed follows a rule and is marked with the newest release of its catalog record. Only a missing record or one that follows a rule can throw. |
| `Reconcile.ScanRule` | packages/cygnus-extension-market/lib/PackageManager.js:345-356 | The first acceptable release in `versionsList` order marks the record, whatever later releases hold. |
| `Reconcile.AnnotateTwice` | packages/cygnus-extension-market/lib/PackageManager.js:338-350 | Marking twice leaves the second release. |
| `Reconcile.ApplyRuleMarksNewest` | packages/cygnus-extension-market/lib/PackageManager.js:316-356 | The rules mark the installed record and its catalog copy with the same release, the one `NewestRelease` names, or both stay unmarked. |
| `Reconcile.GroupSteps` | packages/cygnus-extension-market/lib/PackageManager.js:296-362 | The inner `reduce` rebuilds a group as an object. |
| `Reconcile.OwnerSteps` | packages/cygnus-extension-market/lib/PackageManager.js:294-367 | The outer `reduce` rebuilds a taxonomy as an object. |
| `Reconcile.RuleStepExpected` | packages/cygnus-extension-market/lib/PackageManager.js:313-356 | On a catalog that matches the original, the rules mark the installed record with the newest release the original catalog offers. They fail exactly when that computation fails, and keep the catalog matching. |
| `Reconcile.ItemExpected` | packages/cygnus-extension-market/lib/PackageManager.js:297-361 | A record of either loop comes out as `Expected` computes from the original catalog alone, and the catalog keeps its rule fields. |
| `Reconcile.ItemOwnFile` | packages/cygnus-extension-market/lib/PackageManager.js:296-425 | On a catalog that files each record under its own name, an installed record gets through only when it is filed under its group's name. |
| `Reconcile.GroupStepsExpected` | packages/cygnus-extension-market/lib/PackageManager.js:296-362 | The inner `reduce` rebuilds the group as `Expected` says, and keeps the catalog matching the original. |
| `Reconcile.OwnerStepsExpected` | packages/cygnus-extension-market/lib/PackageManager.js:294-367 | The outer `reduce` rebuilds every group as `Expected` says, and keeps the catalog matching the original. |
| `Reconcile.Reconcile` | packages/cygnus-extension-market/lib/PackageManager.js:285-439 | The three views, or the error that sends the search to its `catch`. |
| `Reconcile.ReconcileMarksNewest` | packages/cygnus-extension-market/lib/PackageManager.js:285-439 | On success with installs: the catalog view keeps its rule fields and key sets, and every installed record is annotated from the original catalog alone. |
| `Reconcile.ReconcileNeedsOwnFiled` | packages/cygnus-extension-market/lib/PackageManager.js:294-430 | On the catalog the detail search builds, the search succeeds on installs only when every installed record is filed under its group's name. |
| `Reconcile.InstalledChildFailsSearch` | packages/cygnus-extension-market/lib/PackageManager.js:384 | An installed plugin group holding a record under another name, such as a child plugin, makes the search throw. |
| `Reconcile.InstalledProjectPluginFailsSearch` | packages/cygnus-extension-market/lib/PackageManager.js:332 | An installed project group holding a type-1 record under another name makes the search throw. |
| `Reconcile.Removes` | packages/cygnus-extension-market/lib/PackageManager.js:305-311 | What an installed record removes from the uninstalled view: its whole group when it is the group's root, else its own entry. |
| `Reconcile.DeleteStep` | packages/cygnus-extension-market/lib/PackageManager.js:308-310 | A successful deletion removes exactly the group or record its path names. |
| `Reconcile.DeleteAllUninstalled` | packages/cygnus-extension-market/lib/PackageManager.js:287-379 | Ordered deletions that succeed remove every group or record they name and change nothing else. |
| `Reconcile.GroupStepsDeletes` | packages/cygnus-extension-market/lib/PackageManager.js:296-362 | The inner `reduce` deletes exactly what its records name, in order. |
| `Reconcile.OwnerStepsDeletes` | packages/cygnus-extension-market/lib/PackageManager.js:294-367 | The outer `reduce` deletes exactly what the records of its groups name, in order. |
| `Reconcile.ReconcileDeletes` | packages/cygnus-extension-market/lib/PackageManager.js:294-430 | The deletions are the project loop's, then the plugin loop's. |
| `Reconcile.ReconcileUninstalled` | packages/cygnus-extension-market/lib/PackageManager.js:287 | On success, the uninstalled view is the catalog without every installed root's group and every other installed record. |
| `Download.Records` | packages/cygnus-extension-market/lib/PackageManager.js:508-544 | One batch's records: the writes the batch was meant to make, as an object. Its content is what `DownloadedRecord` states. |
| `Download.LocalInfo` | packages/cygnus-extension-market/lib/PackageManager.js:507-545 | What a download writes, as an object. Its cases are what `LocalInfoShape` states. |
| `Download.Mix` | packages/cygnus-extension-market/lib/PackageManager.js:532-536 | The `Object.assign` of a manifest with its extras and its download entry is an object. Its members are what `MixFields` and `MixKeepsManifest` state. |
| `Download.MixWithEntry` | packages/cygnus-extension-market/lib/PackageManager.js:532-536 | With a download entry for its name, the mix carries the downloaded version and manifest path, plus `aversion`, `enable` and the plugin status. |
| `Reconcile.ReplaceRecord` | packages/cygnus-extension-market/lib/PackageManager.js:313 | After a replacement the catalog still files the place, and holds the new record there. |
| `Reconcile.ReplaceTwice` | packages/cygnus-extension-market/lib/PackageManager.js:317-320 | A second write at the same place overrides the first. |
| `Reconcile.ReplaceSame` | packages/cygnus-extension-market/lib/PackageManager.js:313 | Writing a record back unchanged leaves the catalog as it was. |
| `Reconcile.ReplaceKeepsCatalog` | packages/cygnus-extension-market/lib/PackageManager.js:313-320 | Writing `path`, `status` or `latestVersion` keeps the catalog's rule fields and key sets. |
| `Reconcile.CatalogPath` | packages/cygnus-extension-market/lib/PackageManager.js:313-315 | In a catalog, `packages.<tax>.<owner>.<name>` reads a record object exactly when the catalog files one there. A read that neither throws nor finds a record gives `undefined`. |
| `Reconcile.SameCatalogShape` | packages/cygnus-extension-market/lib/PackageManager.js:285-287 | The catalog matches itself, and only catalogs match. |
| `Reconcile.LatestMarksNewest` | packages/cygnus-extension-market/lib/PackageManager.js:316-321 | The `latest` rule fails exactly when `NewestRelease` does. Otherwise it marks both copies with what `NewestRelease` names. |
| `Reconcile.TagStep` | packages/cygnus-extension-market/lib/PackageManager.js:336-343 | The tag rule fails exactly when `TagRelease` does. Otherwise it marks both copies with the release `TagRelease` names. |
| `Reconcile.ScanStep` | packages/cygnus-extension-market/lib/PackageManager.js:345-356 | After the tag rule, a successful scan leaves the first acceptable release, or the tag's release when none is acceptable. The scan succeeds whenever the first-match search does. |
| `Reconcile.RangeMarksNewest` | packages/cygnus-extension-market/lib/PackageManager.js:336-356 | The tag rule followed by the scan fails exactly when `NewestRelease` does. Otherwise it marks both copies with what `NewestRelease` names. |
| `Reconcile.ProjectItemExpected` | packages/cygnus-extension-market/lib/PackageManager.js:297-361 | A record of the project loop comes out as `Expected` says, and the catalog keeps matching. |
| `Reconcile.PluginItemExpected` | packages/cygnus-extension-market/lib/PackageManager.js:372-424 | A record of the plugin loop comes out as `Expected` says, and the catalog keeps matching. |
| `Reconcile.ProjectItem` | packages/cygnus-extension-market/lib/PackageManager.js:297-361 | A `null` or `undefined` record throws; a record of a type other than 0 and 1 passes through with both copies unchanged; a type 0 or 1 root removes its project's whole group from the uninstalled view, and a child removes only itself. |
| `Reconcile.PluginItem` | packages/cygnus-extension-market/lib/PackageManager.js:372-424 | A `null` or `undefined` record throws; a record that goes through has a catalog entry under `Plugin`, and its group (root) or itself (child) is removed from the uninstalled view; a record not of type 1 is neither marked nor changes the catalog. |
| `Reconcile.OwnerStep` | packages/cygnus-extension-market/lib/PackageManager.js:364-366 | A turn of the outer `reduce` yields an object. |
| `Reconcile.OwnerStepExpected` | packages/cygnus-extension-market/lib/PackageManager.js:294-367 | One turn files the owner's rebuilt group into the accumulator and keeps every other key. The group is rebuilt as `Expected` says. |
| `Reconcile.ReconcileOk` | packages/cygnus-extension-market/lib/PackageManager.js:289-434 | A successful search with installs ran both outer `reduce`s to completion. Its views are the catalog copy, the pruned copy, and the installed tree with `Project` and `Plugin` replaced. |
| `Reconcile.GroupedIsSelfFiled` | packages/cygnus-extension-market/lib/PackageManager.js:132-156 | The detail search's grouping makes a catalog that files every record under its own name. |
| `Reconcile.ItemRemoves` | packages/cygnus-extension-market/lib/PackageManager.js:305-311 | A record's step deletes from the uninstalled copy exactly what `Removes` names, and nothing when it names nothing. |
| `Reconcile.GroupRemovals` | packages/cygnus-extension-market/lib/PackageManager.js:296-362 | The deletions of one group's records, each naming a group or a record. |
| `Reconcile.OwnerRemovals` | packages/cygnus-extension-market/lib/PackageManager.js:294-367 | The deletions of a taxonomy's groups, each naming a group or a record. |
| `Lifecycle.RemovedDirHoldsDownloads` | packages/cygnus-extension-market/lib/PackageManager.js:729-746 | The corrected uninstall removes a directory that holds every version of the package downloaded under the manager's namespace. |
| `Lifecycle.RemovedDirAsWrittenMissesDownloads` | packages/cygnus-extension-market/lib/PackageManager.js:729 | As written, for every suffix other than `UNIVERSAL` that holds no `/`, the directory removed holds none of the manager's downloads of the package. |
| `Lifecycle.NamespacesApart` | packages/cygnus-util/lib/path.js:32-39 | No path under the default namespace's directory lies under the directory of another namespace whose name holds no `/`. |
| `Lifecycle.RemovedDir` | packages/cygnus-extension-market/lib/PackageManager.js:729 | The corrected directory to remove lies inside the manager's own namespace. |
| `Lifecycle.RemovedDirAsWritten` | packages/cygnus-extension-market/lib/PackageManager.js:729 | As written, the directory removed is the corrected one of the default namespace `UNIVERSAL`, whatever the manager's suffix. |
| `Lifecycle.UninstallTarget` | packages/cygnus-extension-market/lib/PackageManager.js:733-754 | The `Project` group is targeted exactly when `type === 0` and a non-empty string name is truthy under `Project`; likewise `Plugin` for `type === 1`. The call throws exactly when the taxonomy it reads is missing. |
| `Lifecycle.Uninstall` | packages/cygnus-extension-market/lib/PackageManager.js:727-760 | A failed read throws and changes nothing. A throwing target check rejects with `[err, {}]`. Otherwise the call resolves `[null, tree]` with the tree read, and the removal, when there is one, targets the package's download directory. Without a removal, or when rimraf fails, the file is as the read left it. |
| `Lifecycle.UninstallDeletesProject` | packages/cygnus-extension-market/lib/PackageManager.js:733-742 | Uninstalling an installed project resolves with the tree read, and its removal targets the project's directory. Afterwards the file's `Project` holds every group but that one, and every other taxonomy as before. |
| `Lifecycle.UninstallDeletesPlugin` | packages/cygnus-extension-market/lib/PackageManager.js:744-753 | The same for an installed plugin and `Plugin`. |
| `Lifecycle.ResetRemovesEveryDownload` | packages/cygnus-extension-market/lib/PackageManager.js:766-767 | With the suffix passed at line 763 (the corrected behaviour, see Findings), the two directories reset removes hold every download of either taxonomy between them. |
| `Lifecycle.ResetRemovesAsWritten` | packages/cygnus-extension-market/lib/PackageManager.js:763-767 | As written, the two directories reset removes lie in the default namespace. |
| `Lifecycle.ResetAsWrittenMissesDownloads` | packages/cygnus-extension-market/lib/PackageManager.js:763 | As written, for every suffix other than `UNIVERSAL` that holds no `/`, neither directory reset removes holds any of the manager's downloads. |
| `Lifecycle.ResetRemoves` | packages/cygnus-extension-market/lib/PackageManager.js:766-767 | The corrected two directories both lie inside the manager's own namespace. |
| `Lifecycle.Reset` | packages/cygnus-extension-market/lib/PackageManager.js:762-775 | Reset always answers `[null, 0]`. A failed removal or read leaves the file as it was; otherwise the file then holds `{}`. |
| `Lifecycle.MarkInstalled` | packages/cygnus-extension-market/lib/PackageManager.js:785-787 | A seeded record has status `installed`, its own `version` as `aversion`, and every other member as before. |
| `Lifecycle.Seeded` | packages/cygnus-extension-market/lib/PackageManager.js:784-795 | The `reduce` yields an object. |
| `Lifecycle.SeededFiles` | packages/cygnus-extension-market/lib/PackageManager.js:784-795 | The seeded object has exactly the catalog's names as keys, each holding `{name: record}` with the record marked installed. |
| `Lifecycle.SeededLast` | packages/cygnus-extension-market/lib/PackageManager.js:788-792 | One turn of the `reduce` files the next record and keeps the rest. |
| `Lifecycle.BuildinCatalogNamed` | packages/cygnus-extension-market/lib/PackageManager.js:781 | The normalised built-in catalog files every record under its own name. |
| `Lifecycle.SeededProject` | packages/cygnus-extension-market/lib/PackageManager.js:784-799 | Every built-in package is seeded at `Project.<name>.<name>` with status `installed` and its version as `aversion`. |
| `Lifecycle.SeededAt` | packages/cygnus-extension-market/lib/PackageManager.js:788-792 | A member of a record seeded as `{name: {name: record}}` is found along its path. |
| `Lifecycle.BuildinData` | packages/cygnus-extension-market/lib/PackageManager.js:778-800 | The tree to merge in, when there is one, is an object. |
| `Lifecycle.InstallBuildin` | packages/cygnus-extension-market/lib/PackageManager.js:778-803 | A throwing normalisation changes nothing. An empty catalog writes nothing. Otherwise the call succeeds exactly when the read does, and then leaves the file as merging the seeded `{Project: ...}` into it does. |
| `Market.WalkChildren` | packages/cygnus-extension-market/lib/PackageManager.js:251-260 | The innermost `forEach` computes exactly what `ChildSteps` states for the group's children. |
| `Market.VisitParent` | packages/cygnus-extension-market/lib/PackageManager.js:249-261 | One parent's visit computes exactly what `ParentStep` states. |
| `Market.WalkParents` | packages/cygnus-extension-market/lib/PackageManager.js:248-262 | The middle `forEach` computes exactly what `ParentSteps` states. |
| `Market.VisitType` | packages/cygnus-extension-market/lib/PackageManager.js:245-263 | One taxonomy's visit computes exactly what `TypeStep` states. |
| `Market.WalkTypes` | packages/cygnus-extension-market/lib/PackageManager.js:244-264 | The outer `forEach` computes exactly what `TypeSteps` states, and so the tree without installing records. |
| `Market.RebuildGroup` | packages/cygnus-extension-market/lib/PackageManager.js:296-362 | The inner `reduce` computes exactly what `GroupSteps` states. |
| `Market.RebuildOwner` | packages/cygnus-extension-market/lib/PackageManager.js:295-366 | One turn of the outer `reduce` computes exactly what `OwnerStep` states. |
| `Market.RebuildOwners` | packages/cygnus-extension-market/lib/PackageManager.js:294-367 | The outer `reduce` computes exactly what `OwnerSteps` states. |
| `Market.ComputeViews` | packages/cygnus-extension-market/lib/PackageManager.js:285-439 | The search's `try` body computes exactly the views, or the error, that `Reconcile` states. |
| `Market.InstalledObj` | packages/cygnus-extension-market/lib/PackageManager.js:238-273 | `getInstalledObj` over the file throws when the read does, and leaves the file as the read left it. |
| `Market.FinalObj` | packages/cygnus-extension-market/lib/PackageManager.js:276-280 | `finalObj` has exactly its three views. |
| `Market.FinalSearch` | packages/cygnus-extension-market/lib/PackageManager.js:275-449 | The search answers an object. A caught error answers two empty catalog views. |
| `Market.FinalSearchReconcilesCleanTree` | packages/cygnus-extension-market/lib/PackageManager.js:275-449 | Over a readable file the search never throws, and only the read touches the file. Success answers the reconciled views of the clean tree; a caught error answers the error, empty catalog views and the clean tree. |
| `Market.FinalSearchWithoutInstalls` | packages/cygnus-extension-market/lib/PackageManager.js:435-439 | Without installs, the search answers the catalog twice and the empty installed tree. |
| `Market.FinalSearchMarksNewest` | packages/cygnus-extension-market/lib/PackageManager.js:294-434 | On success with installs, the catalog view keeps the catalog's rule fields. Both installed taxonomies are rebuilt from the catalog as `Expected` says. |
| `Market.FinalSearchUninstalled` | packages/cygnus-extension-market/lib/PackageManager.js:287-433 | On success with installs, the uninstalled view is the catalog with every removal the installed records name applied, in loop order. |
| `Market.ReplyOf` | packages/cygnus-extension-market/lib/PackageManager.js:84-92 | `[null, value]` exactly when the search succeeded, else `[err, null]`. |
| `Market.NameSearchEmptyWhiteList` | packages/cygnus-extension-market/lib/PackageManager.js:73-90 | An empty whitelist filters nothing: the search answers as if the whitelist were ignored. |
| `Market.NameSearchKeepsListed` | packages/cygnus-extension-market/lib/PackageManager.js:75-84 | With a non-empty whitelist, a package is answered exactly when it is in the listing and its name is listed, and in listing order. |
| `Market.NameSearch` | packages/cygnus-extension-market/lib/PackageManager.js:65-96 | A failed listing request fails the search; a failed whitelist fetch fails it when the whitelist is used; with the whitelist ignored the listing's packages come back unfiltered. |
| `Market.StaticReadAsWritten` | packages/cygnus-extension-market/lib/PackageManager.js:637 | As written, `StatusJSONManager.readStatusJSON()` on the class throws and leaves the file alone. |
| `Market.GetParentAsWritten` | packages/cygnus-extension-market/lib/PackageManager.js:632-668 | As written, the file is never touched, and a relative path answers `[Error('path should be absolute'), '']`. |
| `Market.GetParentAsWrittenThrows` | packages/cygnus-extension-market/lib/PackageManager.js:632-637 | As written, `getParent` of every absolute path throws, whatever the status file holds. |
| `Market.GetParentThroughStore` | packages/cygnus-extension-market/lib/PackageManager.js:62 | Through the manager's own store instance, the same call on a namespace with no valid status file heals the file and answers `[null, null]`. |
| `Market.DetailAnswer` | packages/cygnus-extension-market/lib/PackageManager.js:98-164 | `[]` exactly when nothing is listed, `[null, packagers]` on success and `[err, null]` on a failure. |
| `Market.PackageManager.constructor` | packages/cygnus-extension-market/lib/PackageManager.js:50-63 | The prefix defaults to `cygnus-ide` and the suffix to `UNIVERSAL`. `packagers` starts `null`, the network is not yet probed, and the store is fresh over the disk as found. |
| `Market.PackageManager.ProbeNetwork` | packages/cygnus-extension-market/lib/PackageManager.js:68-70 | The network is probed only while `isAli` is undefined, and the catalog is untouched. |
| `Market.PackageManager.DoNameAndDescriptionSearch` | packages/cygnus-extension-market/lib/PackageManager.js:65-96 | Probes the network once, then answers the name search's `[null, packages]` or `[err, null]`. |
| `Market.PackageManager.DoAllPackagesDetailSearch` | packages/cygnus-extension-market/lib/PackageManager.js:98-164 | Probes the network once, answers as `DetailAnswer` says, and keeps the grouped catalog in `packagers` only when it was found. |
| `Market.PackageManager.GetInstalledObj` | packages/cygnus-extension-market/lib/PackageManager.js:238-273 | Answers, and leaves the file, as the corrected `InstalledObj` says. |
| `Market.PackageManager.DoFinalValidatedSearch` | packages/cygnus-extension-market/lib/PackageManager.js:275-449 | Runs the detail search only when `packagers` is falsy, then answers and leaves the file as `FinalSearch` says over the catalog then held. |
| `Market.PackageManager.GetParent` | packages/cygnus-extension-market/lib/PackageManager.js:632-668 | A relative path answers `['Error: path should be absolute', '']` and touches nothing. Otherwise the file is read, and the answer is that of the last-matching owner search over the tree. |
| `Market.PackageManager.SetStatusOrEnableOfNamedPackage` | packages/cygnus-extension-market/lib/PackageManager.js:670-724 | Answers, and leaves the file, as `Patch.SetStatusOrEnable` says. |
| `Market.PackageManager.PatchStored` | packages/cygnus-extension-market/lib/PackageManager.js:673-723 | Over a stored tree, answers and leaves the file as `Patch.PatchStored` says. |
| `Market.PackageManager.Wanted` | packages/cygnus-extension-market/lib/PackageManager.js:490-545 | The write a project download prepares, computed with the manager's download directory. |
| `Market.PackageManager.Chosen` | packages/cygnus-extension-market/lib/PackageManager.js:490-493 | The manifest chosen from the registry's document. |
| `Market.PackageManager.LocalInfo` | packages/cygnus-extension-market/lib/PackageManager.js:507-545 | The records a download batch writes, in the manager's download directory. |
| `Market.PackageManager.DownloadProjectPlugin` | packages/cygnus-extension-market/lib/PackageManager.js:484-556 | Probes the network once, keeps `packagers`, and answers and leaves the file as `Download.DownloadProjectPlugin` says. |
| `Market.PackageManager.WriteProject` | packages/cygnus-extension-market/lib/PackageManager.js:547-555 | Answers, and leaves the file, as `Download.WriteProject` says. |
| `Market.PackageManager.DownloadAGlobalPlugin` | packages/cygnus-extension-market/lib/PackageManager.js:558-630 | Probes the network once, keeps `packagers`, and answers and leaves the file as `Download.DownloadAGlobalPlugin` says. |
| `Market.PackageManager.WriteGlobalPlugin` | packages/cygnus-extension-market/lib/PackageManager.js:621-629 | Answers, and leaves the file, as `Download.WriteGlobalPlugin` says. |
| `Market.PackageManager.UnInstallAPackage` | packages/cygnus-extension-market/lib/PackageManager.js:727-760 | Settles, and leaves the file, as the corrected `Lifecycle.Uninstall` says. |
| `Market.PackageManager.Reset` | packages/cygnus-extension-market/lib/PackageManager.js:762-775 | Answers and leaves the file as `Lifecycle.Reset` says. The removals it attempts are the corrected directories of the manager's own namespace (see Findings): the plugin directory, then the project directory unless the first failed. |
| `Market.PackageManager.InstallBuildinProjectPackages` | packages/cygnus-extension-market/lib/PackageManager.js:778-803 | Leaves the file, and throws, as `Lifecycle.InstallBuildin` says, with a missing argument read as `[]`. |

## Left out

- The network is not modelled. `isAliEnv` and `doRequest` (`cygnus-util/lib/network.js`) and `doWhiteRequest` are outside this model. Their answers are the parameters `probe`, `fetch` and `whiteList`.
- `getWhiteList` (packages/cygnus-util/lib/cnpm.js:69-71) is not modelled: it calls a `doRequest` that `cnpm.js` never defines. The whitelist's answer is the parameter `whiteList`.
- `process.env.IGNORE_WhiteList` is the parameter `ignoreWhiteList`.
- `semver.satisfies` is not modelled: node-semver's range grammar is not part of this model. It is the parameter `sat`, and the reconciliation lemmas hold for any `satisfies` and any `gt`.
- `Semver.Gt` models node-semver's strict parsing, which `semver.gt` uses when it is called without options, as it is here. The loose mode and the coercion of version objects are not modelled: a value that is not a version string makes the comparison throw.
- Downloads are not modelled. `DownloadManager` and its `p-queue` serialisation (packages/cygnus-extension-market/lib/DownloadManager.js:47-70), `Downloader.js`, `install.js` and `cygnus-util/lib/download.js` are outside this model. A batch's outcome is the parameter `failure`, and the manifests it leaves on disk are the parameter `files`.
- Concurrency is not modelled. The `Promise.all` fan-out at packages/cygnus-extension-market/lib/PackageManager.js:127-130 is a sequence of requests in order, and `await` is sequential evaluation.
- `rimraf` is not modelled: the outcome of a removal is a parameter (`removed`, `pluginErr`, `projectErr`). The directories removed are returned rather than deleted.
- `Lifecycle.Uninstall`: the asynchronous `reject` after the promise has resolved (packages/cygnus-extension-market/lib/PackageManager.js:737, 748) is not modelled, since a settled promise ignores it; the call settles with the resolution.
- `JsValue.ObjectKeys`: an object's key list is its insertion order. JavaScript lists integer-like keys first, in ascending order, so for a tree with such names the order of `getParent`'s search (packages/cygnus-extension-market/lib/PackageManager.js:641-663) and of the install walk (packages/cygnus-extension-market/lib/PackageManager.js:244-264) is not modelled exactly.
- `JsValue.SetProp`: a new key goes last in the key list, whereas JavaScript places a new integer-like key among the integer-like keys in ascending order.
- `JsValue.SetProp`: writes are modelled on objects only. A write to an array, which JavaScript accepts (an element write, a `length` write or a named property that JSON drops), is an error in the model. So a status tree or catalog whose taxonomy or owner entry is an array makes the record updates of `doFinalValidatedSearch` (packages/cygnus-extension-market/lib/PackageManager.js:317-320) fail where the source goes on.
- `JsValue.Json`: numbers are integers. Fractional and exponent numbers, their `String` text, `NaN` and `Infinity` are not modelled.
- `JsValue.Member`/`JsValue.SetProp`: properties inherited from `Object.prototype` are not modelled. A key such as `constructor` or `toString` that an object does not hold reads as `undefined`, whereas JavaScript reads the inherited function, which is truthy. For example, `unInstallAPackage({name: 'constructor', type: 0})` (packages/cygnus-extension-market/lib/PackageManager.js:734) removes nothing in the model, whereas the source goes on to remove and delete. `distTags[version]` in `Reconcile.TagRule` has the same gap. Writing the key `__proto__` is an ordinary write in the model.
- `JsValue.DeleteProp`: a hole left by `delete` is an `undefined` slot. Reading it and writing it out as JSON agree with JavaScript, but `Object.keys` and `for...in` in the model list its index, whereas JavaScript skips it.
- `DeepMerge.Merge`: new keys are appended in the data's order, with the same departure for integer-like keys. An object merged into a stored array replaces it, whereas `lodash.merge` copies the object's keys onto the array; an array merged into an array-like object is not modelled either.
- `InstallList.SetPath`: an array on the way is replaced by a fresh object, whereas `lodash.set` keeps it; a missing step followed by an index-like key becomes an object, not an array.
- The clock is the parameter `now`; the aside copy of a corrupt file is named `<path>.<now>`.
- The file system is the record `Disk`: the status file (absent, unparseable, or holding a tree) and the aside copies. Other files, directory creation (`outputJsonSync`'s `mkdirp`) and write failures are not modelled.
- The status file is assumed to hold a JSON object when it parses. A file holding a bare JSON array or scalar is not modelled.
- `path.js` (`getDownloadDir`, packages/cygnus-util/lib/path.js:32-39, and `getDownloadInfoJSONPath`, packages/cygnus-util/lib/path.js:47-51) is modelled only as the paths it builds from the home directory and the suffix. The home directory is a parameter, and `mkdirp` is not modelled.
- Logging is not modelled.
- Aliasing between `cloneDeep` copies is not modelled: each copy is a separate value, which is what `cloneDeep` guarantees.
- `this.whiteListUrl` and `this.downloadManager` are not modelled as fields of `Market.PackageManager`, since both only serve calls into code outside this model.
- `Market.PackageManager.DoFinalValidatedSearch`: when it runs the detail search, the answer of that search is dropped (as the source drops it). Only the catalog it keeps is stated.

## Findings

| source | as written | input that shows it | evidently intended | confidence | as-written member | corrected member |
|---|---|---|---|---|---|---|
| packages/cygnus-extension-market/lib/PackageManager.js:637 | `readStatusJSON` is called on the `StatusJSONManager` class, whose methods are all instance methods. The property is `undefined`, so the call throws a `TypeError`; the same holds for every call made on the class, `updateStatusJSON` and `deleteAGlobalExtensionFromStatusJSON` included (lines 239, 548, 550, 622, 624, 672, 723, 728, 739, 750, 755, 768 and 801). | `getParent('/a')` with no status file | `this.statusJSONManager.readStatusJSON()`, the instance built at PackageManager.js:62 | high, not executed | `Market.GetParentAsWrittenThrows` | `Market.GetParentThroughStore` |
| packages/cygnus-extension-market/lib/StatusJSONManager.js:3 | `moveSync` is taken from Node's `fs`, which has none. Reading an unparseable file calls `undefined` and throws a `TypeError`, so the file stays corrupt. | an unparseable status file | move the corrupt file aside as `fs-extra`'s `moveSync` does, write `{}` and answer `{}` | high, not executed | `StatusStore.CorruptFileStaysCorruptAsWritten` | `StatusStore.Read` |
| packages/cygnus-extension-market/lib/PackageManager.js:470 | The plugin branch sets `Plugin[name]` to the bare version string. Flattening then reads the string's characters as its members. | a plugin manifest `{name: 'p', version: '1.0', cygnus: {}}` requests the packages `0`, `1`, `2` at versions `1`, `.`, `0` | `Plugin[name][name] = version`, as for a project | medium, not executed | `InstallList.PluginRequestsAsWritten` | `InstallList.PluginRequestsFixed` |
| packages/cygnus-extension-market/lib/PackageManager.js:252-258 | When an installing root is not the last key of its group, its group is deleted and the next child reads `undefined.status`, which throws. | `{Project: {a: {a: {status: 'installing'}, b: {}}}}` | skip the rest of a group once it is deleted | high, not executed | `Installed.RootBeforeChildFails` | `Installed.FilterInstallingFixedTotal` |
| packages/cygnus-extension-market/lib/PackageManager.js:267 | `type.indexOf([0, 1])` throws on a number, so no lookup by name and type can succeed. | `getInstalledObj('a', 0)` | `[0, 1].indexOf(type) > -1` | high, not executed | `Installed.NumericTypeFails` | `Installed.GetInstalledObjIntendedTotal` |
| packages/cygnus-extension-market/lib/PackageManager.js:729 | `getDownloadDir()` is called without the manager's suffix, so the uninstall removes a directory in the wrong namespace. | home `/h`, any suffix other than `UNIVERSAL` without `/` (say `X`), project `a` | `getDownloadDir(this.suffix)`, the directory downloads go to | medium, not executed | `Lifecycle.RemovedDirAsWrittenMissesDownloads` | `Lifecycle.RemovedDirHoldsDownloads` |
| packages/cygnus-extension-market/lib/PackageManager.js:763 | `reset` also calls `getDownloadDir()` without the manager's suffix, so it empties the default namespace's directories instead of its own. | home `/h`, suffix `X`, a plugin downloaded under `/h/.ANT_IDE_STUFF_X/Plugin` | `getDownloadDir(this.suffix)` | medium, not executed | `Lifecycle.ResetAsWrittenMissesDownloads` | `Lifecycle.ResetRemovesEveryDownload` |
