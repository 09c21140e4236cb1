/** The requests the cookbook service sends to the server's `cookbooks`
    endpoint: the `num_versions` query string, the path each operation builds,
    and which operations hand the transport's error back to their caller. */
module Requests {
  import opened Results

  datatype HttpMethod = GET | PUT | DELETE | POST

  /** A request as the transport receives it: a method and a server-relative path. */
  datatype Call = Call(verb: HttpMethod, path: string)

  const Endpoint: string := "cookbooks"
  const NumVersionsParam: string := "?num_versions="

  /** The effective `num_versions` value: "0" means every version, and the empty
      string means the parameter is left off. */
  function NumVersionsValue(numVersions: string): (r: Option<string>)
    ensures r.Some? <==> numVersions != ""
    ensures r.Some? ==> r.value != "" && r.value != "0"
    ensures numVersions == "0" ==> r == Some("all")
    ensures numVersions != "" && numVersions != "0" ==> r == Some(numVersions)
  {
    if numVersions == "" then None
    else if numVersions == "0" then Some("all")
    else Some(numVersions)
  }

  /** `versionParams`: appends `?num_versions=<n>` to `path`, rewriting "0" to
      "all", and leaves `path` alone when no count is given. */
  function VersionParams(path: string, numVersions: string): (r: string)
    ensures numVersions == "" ==> r == path
    ensures numVersions != "" ==> r == path + NumVersionsParam + NumVersionsValue(numVersions).value
  {
    var n := if numVersions == "0" then "all" else numVersions;
    if |n| > 0 then path + NumVersionsParam + n else path
  }

  /** Splits `s` at the first occurrence of `c`: the text before it, and the text
      after it if `c` occurs at all. */
  function SplitAtFirst(s: string, c: char): (r: (string, Option<string>))
    ensures c !in r.0
    decreases |s|
  {
    if |s| == 0 then ("", None)
    else if s[0] == c then ("", Some(s[1..]))
    else
      var rest := SplitAtFirst(s[1..], c);
      ([s[0]] + rest.0, rest.1)
  }

  lemma {:induction false} SplitAtFirstNone(a: string, c: char)
    requires c !in a
    ensures SplitAtFirst(a, c) == (a, None)
    decreases |a|
  {
    if |a| > 0 {
      SplitAtFirstNone(a[1..], c);
      assert a == [a[0]] + a[1..];
    }
  }

  lemma {:induction false} SplitAtFirstJoin(a: string, c: char, b: string)
    requires c !in a
    ensures SplitAtFirst(a + [c] + b, c) == (a, Some(b))
    decreases |a|
  {
    if |a| > 0 {
      assert (a + [c] + b)[1..] == a[1..] + [c] + b;
      SplitAtFirstJoin(a[1..], c, b);
      assert a == [a[0]] + a[1..];
    } else {
      assert a + [c] + b == [c] + b;
    }
  }

  /** Reads a request path back: the path proper and the `num_versions` value,
      if the query string carries one. */
  function ParseQuery(p: string): (r: (string, Option<string>))
  {
    var (path, query) := SplitAtFirst(p, '?');
    match query
    case None => (path, None)
    case Some(q) =>
      var key := NumVersionsParam[1..];
      if |q| >= |key| && q[..|key|] == key then (path, Some(q[|key|..])) else (path, None)
  }

  /** The query string `versionParams` builds says what was asked: reading it
      back gives the original path and the effective version count. */
  lemma VersionParamsRoundTrip(path: string, numVersions: string)
    requires '?' !in path
    ensures ParseQuery(VersionParams(path, numVersions)) == (path, NumVersionsValue(numVersions))
  {
    var key := NumVersionsParam[1..];
    if numVersions == "" {
      SplitAtFirstNone(path, '?');
    } else {
      var n := NumVersionsValue(numVersions).value;
      assert VersionParams(path, numVersions) == path + ['?'] + (key + n);
      SplitAtFirstJoin(path, '?', key + n);
      assert (key + n)[..|key|] == key && (key + n)[|key|..] == n;
    }
  }

  /** The cookbook operations of the service, with their arguments. */
  datatype Operation =
    | Get(name: string)
    | GetAvailableVersions(name: string, numVersions: string)
    | GetVersion(name: string, version: string)
    | ListAvailableVersions(numVersions: string)
    | List
    | Delete(name: string, version: string)
    | Put(name: string, version: string)
    | Download(name: string, version: string)

  function CookbookPath(name: string): string
  {
    Endpoint + "/" + name
  }

  function VersionPath(name: string, version: string): string
  {
    Endpoint + "/" + name + "/" + version
  }

  /** The request each operation sends, as the source builds it. `Delete`
      builds the unversioned path: its version argument is never read. */
  function CallOf(op: Operation): (r: Call)
    ensures op.List? ==> r == Call(GET, Endpoint)
    ensures op.Delete? ==> r.verb == DELETE
    ensures op.Put? ==> r.verb == PUT
    ensures !op.Delete? && !op.Put? ==> r.verb == GET
  {
    match op
    case Get(name) => Call(GET, CookbookPath(name))
    case GetAvailableVersions(name, n) => Call(GET, VersionParams(CookbookPath(name), n))
    case GetVersion(name, version) => Call(GET, VersionPath(name, version))
    case ListAvailableVersions(n) => Call(GET, VersionParams(Endpoint, n))
    case List => Call(GET, VersionParams(Endpoint, ""))
    case Delete(name, version) => Call(DELETE, CookbookPath(name))
    case Put(name, version) => Call(PUT, VersionPath(name, version))
    case Download(name, version) => Call(GET, VersionPath(name, version))
  }

  /** What the caller is told when the transport answers with `transportError`:
      `GetVersion` drops it and reports success, every other operation hands it
      back unchanged. */
  function ReportedError(op: Operation, transportError: Option<Error>): (r: Option<Error>)
    ensures op.GetVersion? ==> r == None
    ensures !op.GetVersion? ==> r == transportError
  {
    if op.GetVersion? then None else transportError
  }

  /** A path under the endpoint, read back as the cookbook name it addresses
      and, when there is one more element, the version. */
  datatype Target = Target(name: string, version: Option<string>)

  function ParseCookbookPath(p: string): (r: Option<Target>)
  {
    var prefix := Endpoint + "/";
    if |p| >= |prefix| && p[..|prefix|] == prefix then
      var (name, version) := SplitAtFirst(p[|prefix|..], '/');
      Some(Target(name, version))
    else None
  }

  predicate IsElement(s: string) {
    '/' !in s && '?' !in s
  }

  /** Getting, publishing and downloading a version all address exactly that
      cookbook version. */
  lemma VersionPathAddressesVersion(name: string, version: string)
    requires IsElement(name)
    ensures ParseCookbookPath(CallOf(GetVersion(name, version)).path) == Some(Target(name, Some(version)))
    ensures CallOf(Put(name, version)).path == CallOf(GetVersion(name, version)).path
    ensures CallOf(Download(name, version)).path == CallOf(GetVersion(name, version)).path
  {
    var p := VersionPath(name, version);
    assert p[..10] == "cookbooks/";
    assert p[10..] == name + ['/'] + version;
    SplitAtFirstJoin(name, '/', version);
  }

  /** As written, `Delete` addresses the whole cookbook: the path carries no
      version, and two deletes of different versions send the same request. */
  lemma DeleteIgnoresVersion(name: string, v1: string, v2: string)
    requires IsElement(name)
    ensures ParseCookbookPath(CallOf(Delete(name, v1)).path) == Some(Target(name, None))
    ensures CallOf(Delete(name, v1)) == CallOf(Delete(name, v2))
  {
    var p := CookbookPath(name);
    assert p[..10] == "cookbooks/" && p[10..] == name;
    SplitAtFirstNone(name, '/');
  }

  /** The delete the method's name and comment describe: scoped to one version. */
  function DeleteVersionCall(name: string, version: string): (r: Call)
    ensures r.verb == DELETE
    ensures r.path == CallOf(GetVersion(name, version)).path
  {
    Call(DELETE, VersionPath(name, version))
  }

  /** The scoped delete addresses exactly the requested version, so deletes of
      different versions are different requests. */
  lemma DeleteVersionAddressesVersion(name: string, v1: string, v2: string)
    requires IsElement(name)
    ensures ParseCookbookPath(DeleteVersionCall(name, v1).path) == Some(Target(name, Some(v1)))
    ensures v1 != v2 ==> DeleteVersionCall(name, v1) != DeleteVersionCall(name, v2)
  {
    VersionPathAddressesVersion(name, v1);
    VersionPathAddressesVersion(name, v2);
  }
}
