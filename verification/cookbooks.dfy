/** The cookbook data model: the manifest the server stores and returns
    (`Cookbook`), the shape this client sends back (`CookbookPut`), the
    conversion between them, and the construction of one manifest item from a
    local file. */
module Cookbooks {
  import opened Results
  import FilePaths

  /** A JSON value kept opaque: the metadata's `attributes` and `groupings` maps
      hold whatever a cookbook author wrote there. The values are opaque: no
      property depends on them, so a number is only a token standing for it. */
  datatype Json =
    | JNull
    | JBool(b: bool)
    | JNumber(literal: string)
    | JString(s: string)
    | JArray(elements: seq<Json>)
    | JObject(members: map<string, Json>)

  /** One file of a cookbook as the server describes it: where to fetch it
      (`url`), where it lives inside the cookbook (`path`), its file name, its
      MD5 checksum in hex, and its specificity (e.g. "default" for templates). */
  datatype CookbookItem = CookbookItem(url: string, path: string, name: string, checksum: string, specificity: string)

  /** The same file as sent when publishing: there is no download URL yet. */
  datatype CookbookItemPut = CookbookItemPut(path: string, name: string, checksum: string, specificity: string)

  /** The metadata block. The received and the sent forms of the source declare
      the same fields with the same JSON names, so one type serves both. The
      relation maps carry their JSON names. */
  datatype CookbookMeta = CookbookMeta(
    name: string,
    version: string,
    description: string,
    longDescription: string,
    maintainer: string,
    maintainerEmail: string,
    license: string,
    platforms: map<string, string>,
    dependencies: map<string, string>,
    recommendations: map<string, string>,
    suggestions: map<string, string>,
    conflicting: map<string, string>,
    providing: map<string, string>,
    replacing: map<string, string>,
    attributes: map<string, Json>,
    groupings: map<string, Json>,
    recipes: map<string, string>)

  /** The nine groups a cookbook's files are filed under. */
  datatype Category = Files | Templates | Attributes | Recipes | Definitions | Libraries | Providers | Resources | RootFiles

  /** A cookbook version's manifest, generic in the item type: `Cookbook` holds
      server items, `CookbookPut` holds items without URLs. */
  datatype Manifest<Item> = Manifest(
    cookbookName: string,
    name: string,
    version: string,
    chefType: string,
    frozen: bool,
    jsonClass: string,
    files: seq<Item>,
    templates: seq<Item>,
    attributes: seq<Item>,
    recipes: seq<Item>,
    definitions: seq<Item>,
    libraries: seq<Item>,
    providers: seq<Item>,
    resources: seq<Item>,
    rootFiles: seq<Item>,
    metadata: CookbookMeta)

  type Cookbook = Manifest<CookbookItem>
  type CookbookPut = Manifest<CookbookItemPut>

  /** The items a manifest files under one category. */
  function Items<I>(m: Manifest<I>, c: Category): seq<I>
  {
    match c
    case Files => m.files
    case Templates => m.templates
    case Attributes => m.attributes
    case Recipes => m.recipes
    case Definitions => m.definitions
    case Libraries => m.libraries
    case Providers => m.providers
    case Resources => m.resources
    case RootFiles => m.rootFiles
  }

  /** Everything but the items: the fields a conversion of items must keep. */
  predicate SameHeader<I, J>(m: Manifest<I>, n: Manifest<J>)
  {
    && m.cookbookName == n.cookbookName && m.name == n.name && m.version == n.version
    && m.chefType == n.chefType && m.frozen == n.frozen && m.jsonClass == n.jsonClass
    && m.metadata == n.metadata
  }

  function MapSeq<A, B>(s: seq<A>, f: A -> B): (r: seq<B>)
    ensures |r| == |s|
    ensures forall k :: 0 <= k < |s| ==> r[k] == f(s[k])
  {
    seq(|s|, k requires 0 <= k < |s| => f(s[k]))
  }

  /** Applies `f` to every item of every category. */
  function MapItems<I, J>(m: Manifest<I>, f: I -> J): (r: Manifest<J>)
    ensures SameHeader(m, r)
    ensures forall c :: |Items(r, c)| == |Items(m, c)|
    ensures forall c, k :: 0 <= k < |Items(m, c)| ==> Items(r, c)[k] == f(Items(m, c)[k])
  {
    Manifest(m.cookbookName, m.name, m.version, m.chefType, m.frozen, m.jsonClass,
      MapSeq(m.files, f), MapSeq(m.templates, f), MapSeq(m.attributes, f), MapSeq(m.recipes, f),
      MapSeq(m.definitions, f), MapSeq(m.libraries, f), MapSeq(m.providers, f),
      MapSeq(m.resources, f), MapSeq(m.rootFiles, f), m.metadata)
  }

  /** Two manifests with the same header and, category by category, the same
      number of items are equal when their items are. */
  lemma ManifestExtensionality<I>(m: Manifest<I>, n: Manifest<I>)
    requires SameHeader(m, n)
    requires forall c :: Items(m, c) == Items(n, c)
    ensures m == n
  {
    assert Items(m, Files) == Items(n, Files);
    assert Items(m, Templates) == Items(n, Templates);
    assert Items(m, Attributes) == Items(n, Attributes);
    assert Items(m, Recipes) == Items(n, Recipes);
    assert Items(m, Definitions) == Items(n, Definitions);
    assert Items(m, Libraries) == Items(n, Libraries);
    assert Items(m, Providers) == Items(n, Providers);
    assert Items(m, Resources) == Items(n, Resources);
    assert Items(m, RootFiles) == Items(n, RootFiles);
  }

  function ToItemPut(i: CookbookItem): CookbookItemPut
  {
    CookbookItemPut(i.path, i.name, i.checksum, i.specificity)
  }

  /** An item that keeps every field of `i` except the URL. */
  predicate KeepsAllButUrl(i: CookbookItem, p: CookbookItemPut)
  {
    p.path == i.path && p.name == i.name && p.checksum == i.checksum && p.specificity == i.specificity
  }

  /** `Cookbook.ToCookbookPut`: a JSON encode of the manifest decoded into the
      URL-less shape. Its net effect is to keep every top-level and metadata
      field, keep every category's items in order, and drop each item's URL. */
  function ToCookbookPut(c: Cookbook): (r: CookbookPut)
    ensures SameHeader(c, r)
    ensures forall cat :: |Items(r, cat)| == |Items(c, cat)|
    ensures forall cat, k :: 0 <= k < |Items(c, cat)| ==> KeepsAllButUrl(Items(c, cat)[k], Items(r, cat)[k])
  {
    MapItems(c, ToItemPut)
  }

  function FromItemPut(p: CookbookItemPut): CookbookItem
  {
    CookbookItem("", p.path, p.name, p.checksum, p.specificity)
  }

  /** A server-shaped manifest for a URL-less one: every URL empty. */
  function FromCookbookPut(p: CookbookPut): (r: Cookbook)
    ensures SameHeader(p, r)
    ensures forall cat :: |Items(r, cat)| == |Items(p, cat)|
    ensures forall cat, k :: 0 <= k < |Items(p, cat)| ==> Items(r, cat)[k].url == ""
  {
    MapItems(p, FromItemPut)
  }

  /** Nothing but URLs is lost: projecting a manifest rebuilt from a projection
      gives that projection back. */
  lemma ToCookbookPutFromCookbookPut(p: CookbookPut)
    ensures ToCookbookPut(FromCookbookPut(p)) == p
  {
    var r := ToCookbookPut(FromCookbookPut(p));
    forall cat ensures Items(r, cat) == Items(p, cat) {
      assert |Items(r, cat)| == |Items(p, cat)|;
    }
    ManifestExtensionality(r, p);
  }

  /** Two server items that differ at most in their URL. */
  predicate SameButUrl(i: CookbookItem, j: CookbookItem)
  {
    i.path == j.path && i.name == j.name && i.checksum == j.checksum && i.specificity == j.specificity
  }

  /** Two manifests that differ at most in their items' URLs. */
  predicate SameButUrls(c: Cookbook, d: Cookbook)
  {
    && SameHeader(c, d)
    && (forall cat :: |Items(c, cat)| == |Items(d, cat)|)
    && (forall cat, k :: 0 <= k < |Items(c, cat)| && k < |Items(d, cat)| ==> SameButUrl(Items(c, cat)[k], Items(d, cat)[k]))
  }

  /** Two manifests project to the same `CookbookPut` exactly when they agree
      on everything but item URLs. */
  lemma ToCookbookPutForgetsOnlyUrls(c: Cookbook, d: Cookbook)
    ensures ToCookbookPut(c) == ToCookbookPut(d) <==> SameButUrls(c, d)
  {
    var pc, pd := ToCookbookPut(c), ToCookbookPut(d);
    if pc == pd {
      forall cat, k | 0 <= k < |Items(c, cat)| && k < |Items(d, cat)|
        ensures SameButUrl(Items(c, cat)[k], Items(d, cat)[k])
      {
        assert Items(pc, cat)[k] == Items(pd, cat)[k];
      }
    }
    if SameButUrls(c, d) {
      forall cat ensures Items(pc, cat) == Items(pd, cat) {
        assert |Items(pc, cat)| == |Items(pd, cat)|;
        forall k | 0 <= k < |Items(pc, cat)| ensures Items(pc, cat)[k] == Items(pd, cat)[k] {
          assert SameButUrl(Items(c, cat)[k], Items(d, cat)[k]);
        }
      }
      ManifestExtensionality(pc, pd);
    }
  }

  /** `ComputeCookbookItemFromFile`: the checksum is copied and the name is the
      file's base name; the path is the file's path relative to `basePath` when
      one is given and the file's path unchanged otherwise. A failing `Rel`
      leaves the path empty and hands its error back. URL and specificity stay
      empty. */
  function ComputeCookbookItemFromFile(filePath: string, checksum: string, basePath: string): (r: (CookbookItem, Option<Error>))
    ensures r.0.checksum == checksum && r.0.name == FilePaths.Base(filePath)
    ensures r.0.url == "" && r.0.specificity == ""
    ensures basePath == "" ==> r.0.path == filePath && r.1 == None
    ensures basePath != "" ==> match FilePaths.Rel(basePath, filePath)
      case Success(rel) => r.0.path == rel && r.1 == None
      case Failure(e) => r.0.path == "" && r.1 == Some(e)
  {
    var item := CookbookItem("", "", FilePaths.Base(filePath), checksum, "");
    if basePath != "" then
      match FilePaths.Rel(basePath, filePath)
      case Failure(e) => (item, Some(e))
      case Success(rel) => (item.(path := rel), None)
    else (item.(path := filePath), None)
  }

  /** The item's path, put back under `basePath`, names the file it came from:
      the recorded path is a faithful relative address. */
  lemma ItemPathResolvesToFile(filePath: string, checksum: string, basePath: string)
    requires basePath != "" && filePath != basePath
    requires ComputeCookbookItemFromFile(filePath, checksum, basePath).1 == None
    ensures FilePaths.Join(basePath, ComputeCookbookItemFromFile(filePath, checksum, basePath).0.path) == filePath
  {
    FilePaths.JoinRel(basePath, filePath);
  }

  /** A file below `basePath` is always accepted and recorded at the path it
      was joined from. */
  lemma ItemOfJoinedPath(basePath: string, rel: string, checksum: string)
    requires basePath != "" && rel != ""
    ensures ComputeCookbookItemFromFile(FilePaths.Join(basePath, rel), checksum, basePath) ==
      (CookbookItem("", rel, FilePaths.Base(FilePaths.Join(basePath, rel)), checksum, ""), None)
  {
    FilePaths.RelJoin(basePath, rel);
  }
}
