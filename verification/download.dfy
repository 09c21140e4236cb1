/** `CookbookService.Download` and `DownloadCookbookItems` as effect traces: the
    manifest GET, then for every item the directory creation and the file
    download, category by category. */
module Download {
  import opened Results
  import opened Cookbooks
  import Requests
  import FilePaths

  /** A call that leaves the process: the manifest request, a `MkdirAll`, or a
      file download. */
  datatype Effect =
    | GetManifest(call: Requests.Call)
    | MakeDir(path: string)
    | Fetch(url: string, target: string)

  /** The collaborators' answers: the decoded manifest with the request's
      error, directory creation, and the download of a URL to a local file. */
  datatype Env = Env(
    get: Requests.Call -> (Cookbook, Option<Error>),
    mkdirAll: string -> Option<Error>,
    download: (string, string) -> Option<Error>)

  datatype Step = Step(trace: seq<Effect>, err: Option<Error>)

  /** Where an item lands: its recorded path below the destination. */
  function TargetPath(destination: string, item: CookbookItem): string
  {
    FilePaths.Join(destination, item.path)
  }

  /** The two calls made for one item, in order. */
  function ItemEffects(destination: string, item: CookbookItem): seq<Effect>
  {
    [MakeDir(FilePaths.Dir(TargetPath(destination, item))), Fetch(item.url, TargetPath(destination, item))]
  }

  /** Both calls for an item succeed. */
  predicate Fetched(destination: string, item: CookbookItem, env: Env)
  {
    env.mkdirAll(FilePaths.Dir(TargetPath(destination, item))).None? && env.download(item.url, TargetPath(destination, item)).None?
  }

  /** The error a failing item returns: `MkdirAll`'s if it failed, else the
      download's. */
  function FailureOf(destination: string, item: CookbookItem, env: Env): Error
    requires !Fetched(destination, item, env)
  {
    match env.mkdirAll(FilePaths.Dir(TargetPath(destination, item)))
    case Some(e) => e
    case None => env.download(item.url, TargetPath(destination, item)).value
  }

  /** What a failing item leaves behind: the directory attempt, and the
      download attempt when the directory was made. */
  function Attempt(destination: string, item: CookbookItem, env: Env): seq<Effect>
  {
    if env.mkdirAll(FilePaths.Dir(TargetPath(destination, item))).Some? then [MakeDir(FilePaths.Dir(TargetPath(destination, item)))]
    else ItemEffects(destination, item)
  }

  /** The reference plan for a list of items: two calls per item, the
      directory of its target first, then the download into the target. */
  function Plan(destination: string, items: seq<CookbookItem>): (t: seq<Effect>)
    ensures |t| == 2 * |items|
    decreases |items|
  {
    if |items| == 0 then [] else ItemEffects(destination, items[0]) + Plan(destination, items[1..])
  }

  predicate AllFetched(destination: string, items: seq<CookbookItem>, env: Env)
  {
    forall k :: 0 <= k < |items| ==> Fetched(destination, items[k], env)
  }

  /** The loop stopped at item `k`: every earlier item was fetched, item `k`
      failed, and its error is returned after the plan of the earlier items and
      the failing item's attempt. */
  predicate StopsAt(destination: string, items: seq<CookbookItem>, k: int, env: Env, s: Step)
  {
    && 0 <= k < |items|
    && AllFetched(destination, items[..k], env)
    && !Fetched(destination, items[k], env)
    && s.err == Some(FailureOf(destination, items[k], env))
    && s.trace == Plan(destination, items[..k]) + Attempt(destination, items[k], env)
  }

  predicate LoopOutcome(destination: string, items: seq<CookbookItem>, env: Env, s: Step)
  {
    && (s.err.None? <==> AllFetched(destination, items, env))
    && (s.err.None? ==> s.trace == Plan(destination, items))
    && (s.err.Some? ==> exists k :: 0 <= k < |items| && StopsAt(destination, items, k, env, s))
  }

  /** `DownloadCookbookItems`: for each item in order, create the directory of
      its target and download its URL into the target; the first error ends
      the loop and is returned. */
  function DownloadCookbookItems(items: seq<CookbookItem>, destination: string, env: Env): Step
    decreases |items|
  {
    if |items| == 0 then Step([], None)
    else
      var item := items[0];
      var target := TargetPath(destination, item);
      var mkdir := MakeDir(FilePaths.Dir(target));
      match env.mkdirAll(FilePaths.Dir(target))
      case Some(e) => Step([mkdir], Some(e))
      case None =>
        var fetch := Fetch(item.url, target);
        match env.download(item.url, target)
        case Some(e) => Step([mkdir, fetch], Some(e))
        case None =>
          var rest := DownloadCookbookItems(items[1..], destination, env);
          Step([mkdir, fetch] + rest.trace, rest.err)
  }

  /** The item loop follows the plan until the first item that fails, and
      returns nil exactly when every item was fetched. */
  lemma {:induction false} DownloadCookbookItemsOutcome(items: seq<CookbookItem>, destination: string, env: Env)
    ensures LoopOutcome(destination, items, env, DownloadCookbookItems(items, destination, env))
    decreases |items|
  {
    if |items| > 0 {
      var item, rest := items[0], items[1..];
      var s := DownloadCookbookItems(rest, destination, env);
      DownloadCookbookItemsOutcome(rest, destination, env);
      assert items == [item] + rest;
      if !Fetched(destination, item, env) {
        FirstFails(destination, item, rest, env);
      } else if s.err.None? {
        FirstFetchedRestDone(destination, item, rest, env, s);
      } else {
        FirstFetchedRestStops(destination, item, rest, env, s);
      }
    }
  }

  lemma FirstFetchedRestDone(destination: string, item: CookbookItem, rest: seq<CookbookItem>, env: Env, s: Step)
    requires Fetched(destination, item, env) && LoopOutcome(destination, rest, env, s) && s.err.None?
    ensures LoopOutcome(destination, [item] + rest, env, Step(ItemEffects(destination, item) + s.trace, s.err))
  {
    var items := [item] + rest;
    assert items[1..] == rest;
    assert AllFetched(destination, items, env) by {
      forall k | 0 <= k < |items| ensures Fetched(destination, items[k], env) {
        if k > 0 { assert items[k] == rest[k - 1]; }
      }
    }
  }

  lemma FirstFetchedRestStops(destination: string, item: CookbookItem, rest: seq<CookbookItem>, env: Env, s: Step)
    requires Fetched(destination, item, env) && LoopOutcome(destination, rest, env, s) && s.err.Some?
    ensures LoopOutcome(destination, [item] + rest, env, Step(ItemEffects(destination, item) + s.trace, s.err))
  {
    var items := [item] + rest;
    var k :| 0 <= k < |rest| && StopsAt(destination, rest, k, env, s);
    StopsLater(destination, item, rest, k, env, s);
    assert items[k + 1] == rest[k];
  }

  lemma FirstFails(destination: string, item: CookbookItem, rest: seq<CookbookItem>, env: Env)
    requires !Fetched(destination, item, env)
    ensures LoopOutcome(destination, [item] + rest, env,
      Step(Attempt(destination, item, env), Some(FailureOf(destination, item, env))))
  {
    var items := [item] + rest;
    assert items[..0] == [] && items[0] == item;
    assert StopsAt(destination, items, 0, env, Step(Attempt(destination, item, env), Some(FailureOf(destination, item, env))));
  }

  lemma StopsLater(destination: string, item: CookbookItem, rest: seq<CookbookItem>, k: int, env: Env, s: Step)
    requires Fetched(destination, item, env) && StopsAt(destination, rest, k, env, s)
    ensures StopsAt(destination, [item] + rest, k + 1, env, Step(ItemEffects(destination, item) + s.trace, s.err))
  {
    PrefixFetched(destination, item, rest, k, env);
    PlanPrefix(destination, item, rest, k);
    var items := [item] + rest;
    assert items[k + 1] == rest[k];
    var head, done, last := ItemEffects(destination, item), Plan(destination, rest[..k]), Attempt(destination, rest[k], env);
    assert head + (done + last) == (head + done) + last;
  }

  lemma PrefixFetched(destination: string, item: CookbookItem, rest: seq<CookbookItem>, k: int, env: Env)
    requires Fetched(destination, item, env) && 0 <= k < |rest| && AllFetched(destination, rest[..k], env)
    ensures AllFetched(destination, ([item] + rest)[..k + 1], env)
  {
    var done := ([item] + rest)[..k + 1];
    forall i | 0 <= i < |done| ensures Fetched(destination, done[i], env) {
      if i > 0 { assert done[i] == rest[..k][i - 1]; }
    }
  }

  lemma PlanPrefix(destination: string, item: CookbookItem, rest: seq<CookbookItem>, k: int)
    requires 0 <= k < |rest|
    ensures Plan(destination, ([item] + rest)[..k + 1]) == ItemEffects(destination, item) + Plan(destination, rest[..k])
  {
    assert ([item] + rest)[..k + 1] == [item] + rest[..k];
    PlanCons(destination, item, rest[..k]);
  }

  lemma PlanCons(destination: string, item: CookbookItem, rest: seq<CookbookItem>)
    ensures Plan(destination, [item] + rest) == ItemEffects(destination, item) + Plan(destination, rest)
  {
    assert ([item] + rest)[1..] == rest;
  }

  /** The categories in the order `Download` fetches them. */
  const DownloadOrder: seq<Category> := seq(9, OrderAt)

  lemma DownloadOrderLists()
    ensures DownloadOrder == [Attributes, Recipes, Providers, Definitions, Libraries, Files, Templates, RootFiles, Resources]
  {
  }

  /** The category `Download` fetches `i`-th. */
  function OrderAt(i: int): Category
  {
    if i == 0 then Attributes
    else if i == 1 then Recipes
    else if i == 2 then Providers
    else if i == 3 then Definitions
    else if i == 4 then Libraries
    else if i == 5 then Files
    else if i == 6 then Templates
    else if i == 7 then RootFiles
    else Resources
  }

  /** The directory a cookbook is downloaded into: `<destination>/<name>-<version>`. */
  function BaseDir(name: string, version: string, destination: string): string
  {
    FilePaths.Join(destination, name + "-" + version)
  }

  /** The items of the given categories, category by category. */
  function ItemsInOrder(m: Cookbook, categories: seq<Category>): seq<CookbookItem>
    decreases |categories|
  {
    if |categories| == 0 then [] else Items(m, categories[0]) + ItemsInOrder(m, categories[1..])
  }

  /** The trace of the item loop over each category's items. */
  function LoopTraces(m: Cookbook, basedir: string, env: Env): Category -> seq<Effect>
  {
    c => DownloadCookbookItems(Items(m, c), basedir, env).trace
  }

  /** The traces of the given categories, concatenated in order. */
  function CategoryTraces(traces: Category -> seq<Effect>, categories: seq<Category>): seq<Effect>
    decreases |categories|
  {
    if |categories| == 0 then [] else traces(categories[0]) + CategoryTraces(traces, categories[1..])
  }

  /** `CookbookService.Download`: GET the manifest of the version, then run the
      item loop below `<destination>/<name>-<version>` for each category in
      `DownloadOrder`, ignoring the loops' errors; only the GET's error is
      returned. The items come from whatever was decoded, so a failed GET
      downloads nothing only when nothing was decoded. */
  function Download(name: string, version: string, destination: string, env: Env): Step
  {
    var call := Requests.CallOf(Requests.Download(name, version));
    var (data, err) := env.get(call);
    Step([GetManifest(call)] + CategoryTraces(LoopTraces(data, BaseDir(name, version, destination), env), DownloadOrder), err)
  }

  /** The traces of consecutive category lists concatenate. */
  lemma {:induction false} CategoryTracesAppend(traces: Category -> seq<Effect>, a: seq<Category>, b: seq<Category>)
    ensures CategoryTraces(traces, a + b) == CategoryTraces(traces, a) + CategoryTraces(traces, b)
    decreases |a|
  {
    if |a| == 0 {
      assert a + b == b;
    } else {
      assert (a + b)[0] == a[0];
      assert (a + b)[1..] == a[1..] + b;
      CategoryTracesAppend(traces, a[1..], b);
    }
  }

  /** `Download` returns the manifest GET's error and nothing else: what the
      directory creations and downloads answer never changes it. */
  lemma DownloadReturnsGetError(name: string, version: string, destination: string, env: Env, env': Env)
    requires env'.get == env.get
    ensures var call := Requests.CallOf(Requests.Download(name, version));
      && call == Requests.Call(Requests.GET, Requests.VersionPath(name, version))
      && Download(name, version, destination, env).err == env.get(call).1
      && Download(name, version, destination, env).err == Requests.ReportedError(Requests.Download(name, version), env.get(call).1)
      && Download(name, version, destination, env').err == Download(name, version, destination, env).err
      && Download(name, version, destination, env).trace[0] == GetManifest(call)
  {
  }

  /** Each category's loop runs whatever the loops before it returned: the
      trace is the GET, the earlier categories' traces, this category's loop,
      then the later ones'. */
  lemma DownloadVisitsEveryCategory(name: string, version: string, destination: string, env: Env, j: int)
    requires 0 <= j < |DownloadOrder|
    ensures var call := Requests.CallOf(Requests.Download(name, version));
      var traces := LoopTraces(env.get(call).0, BaseDir(name, version, destination), env);
      Download(name, version, destination, env).trace ==
        [GetManifest(call)] + (CategoryTraces(traces, DownloadOrder[..j])
        + DownloadCookbookItems(Items(env.get(call).0, DownloadOrder[j]), BaseDir(name, version, destination), env).trace
        + CategoryTraces(traces, DownloadOrder[j + 1..]))
  {
    var call := Requests.CallOf(Requests.Download(name, version));
    CategoryTracesAt(LoopTraces(env.get(call).0, BaseDir(name, version, destination), env), DownloadOrder, j);
  }

  /** The concatenated traces split around any one category. */
  lemma CategoryTracesAt(traces: Category -> seq<Effect>, categories: seq<Category>, j: int)
    requires 0 <= j < |categories|
    ensures CategoryTraces(traces, categories) ==
      CategoryTraces(traces, categories[..j]) + traces(categories[j]) + CategoryTraces(traces, categories[j + 1..])
  {
    var o := categories;
    assert o == o[..j] + o[j..];
    CategoryTracesAppend(traces, o[..j], o[j..]);
    assert o[j..][0] == o[j] && o[j..][1..] == o[j + 1..];
  }

  /** The plan of a concatenation is the concatenation of the plans. */
  lemma {:induction false} PlanAppend(destination: string, a: seq<CookbookItem>, b: seq<CookbookItem>)
    ensures Plan(destination, a + b) == Plan(destination, a) + Plan(destination, b)
    decreases |a|
  {
    if |a| == 0 {
      assert a + b == b;
    } else {
      assert (a + b)[0] == a[0];
      assert (a + b)[1..] == a[1..] + b;
      PlanAppend(destination, a[1..], b);
    }
  }

  /** When every item can be fetched, the category loops together carry out
      the plan of all items in category order. */
  lemma {:induction false} CategoryTracesFollowPlan(m: Cookbook, basedir: string, env: Env, categories: seq<Category>)
    requires AllFetched(basedir, ItemsInOrder(m, categories), env)
    ensures CategoryTraces(LoopTraces(m, basedir, env), categories) == Plan(basedir, ItemsInOrder(m, categories))
    decreases |categories|
  {
    if |categories| > 0 {
      var first, rest := Items(m, categories[0]), ItemsInOrder(m, categories[1..]);
      forall k | 0 <= k < |first| ensures Fetched(basedir, first[k], env) {
        assert first[k] == (first + rest)[k];
      }
      forall k | 0 <= k < |rest| ensures Fetched(basedir, rest[k], env) {
        assert rest[k] == (first + rest)[|first| + k];
      }
      DownloadCookbookItemsOutcome(first, basedir, env);
      CategoryTracesFollowPlan(m, basedir, env, categories[1..]);
      PlanAppend(basedir, first, rest);
    }
  }

  /** With every directory creation and download succeeding, `Download` makes
      the manifest GET and then, for each item in category order, creates the
      directory of `<basedir>/<path>` and downloads the item's URL into it. */
  lemma DownloadFollowsPlan(name: string, version: string, destination: string, env: Env)
    requires var call := Requests.CallOf(Requests.Download(name, version));
      AllFetched(BaseDir(name, version, destination), ItemsInOrder(env.get(call).0, DownloadOrder), env)
    ensures var call := Requests.CallOf(Requests.Download(name, version));
      Download(name, version, destination, env).trace ==
        [GetManifest(call)] + Plan(BaseDir(name, version, destination), ItemsInOrder(env.get(call).0, DownloadOrder))
  {
    var call := Requests.CallOf(Requests.Download(name, version));
    CategoryTracesFollowPlan(env.get(call).0, BaseDir(name, version, destination), env, DownloadOrder);
  }

  /** The directory `Download` creates for an item is the parent of the file it
      then writes: joining it with the file's name gives the target back. */
  lemma MakeDirIsParent(destination: string, item: CookbookItem)
    requires destination != "" && item.path != "" && item.path[|item.path| - 1] != FilePaths.Separator
    ensures var target := TargetPath(destination, item);
      FilePaths.Join(FilePaths.Dir(target), FilePaths.LastElement(target)) == target
  {
    var target := TargetPath(destination, item);
    assert target[|destination|] == FilePaths.Separator;
    assert target[|target| - 1] == item.path[|item.path| - 1];
    FilePaths.LastElementAfter(target, |destination|);
    FilePaths.JoinDirLast(target);
  }

  /** A downloaded file, hashed back from below the cookbook's directory, is
      recorded at the path it was downloaded from, with its checksum: the
      download layout is the one an upload of that directory reads. */
  lemma DownloadedFileReindexes(basedir: string, item: CookbookItem)
    requires basedir != "" && item.path != ""
    ensures ComputeCookbookItemFromFile(TargetPath(basedir, item), item.checksum, basedir) ==
      (CookbookItem("", item.path, FilePaths.Base(TargetPath(basedir, item)), item.checksum, ""), None)
  {
    ItemOfJoinedPath(basedir, item.path, item.checksum);
  }
}
