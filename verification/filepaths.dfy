/** Slash-separated paths, a simplified reading of Go's `path/filepath` on a Unix
    host: `Join`, `Base`, `Dir` and `Rel` without the lexical clean-up (`.`/`..`
    elimination, doubled slashes) the library also performs. */
module FilePaths {
  import opened Results

  const Separator: char := '/'

  /** `filepath.Join(a, b)`: empty elements are ignored, otherwise one separator
      is put between the two. */
  function Join(a: string, b: string): (r: string)
    ensures a == "" ==> r == b
    ensures b == "" ==> r == a
    ensures a != "" && b != "" ==> |r| == |a| + 1 + |b| && r[..|a|] == a && r[|a|] == Separator && r[|a| + 1..] == b
  {
    if a == "" then b else if b == "" then a else a + [Separator] + b
  }

  /** The position of the last separator of `p`, or -1 when it has none. */
  function LastSeparator(p: string): (k: int)
    ensures -1 <= k < |p|
    ensures k >= 0 ==> p[k] == Separator
    ensures forall j :: k < j < |p| ==> p[j] != Separator
    decreases |p|
  {
    if |p| == 0 then -1
    else if p[|p| - 1] == Separator then |p| - 1
    else LastSeparator(p[..|p| - 1])
  }

  /** The text after the last separator of `p` (all of `p` when it has none). */
  function LastElement(p: string): (r: string)
    ensures Separator !in r
    ensures |r| <= |p| && r == p[|p| - |r|..]
    ensures |r| < |p| ==> p[|p| - |r| - 1] == Separator
  {
    p[LastSeparator(p) + 1..]
  }

  /** `p` without its trailing separators. */
  function TrimTrailingSeparators(p: string): (r: string)
    ensures |r| <= |p| && r == p[..|r|]
    ensures r == "" || r[|r| - 1] != Separator
    ensures forall i :: |r| <= i < |p| ==> p[i] == Separator
    decreases |p|
  {
    if |p| > 0 && p[|p| - 1] == Separator then TrimTrailingSeparators(p[..|p| - 1]) else p
  }

  /** `filepath.Base(p)`: "." for the empty path, "/" for a path made only of
      separators, otherwise the last element after trailing separators are
      dropped. */
  function Base(p: string): (r: string)
    ensures p == "" ==> r == "."
    ensures r != ""
    ensures Separator in r ==> r == [Separator]
  {
    if p == "" then "."
    else
      var t := TrimTrailingSeparators(p);
      if t == "" then [Separator] else LastElement(t)
  }

  /** `filepath.Dir(p)`: everything before the last separator; "." when there is
      none, "/" when it is the first character. */
  function Dir(p: string): (r: string)
    ensures r != ""
  {
    var last := LastElement(p);
    if |last| == |p| then "."
    else if |last| + 1 == |p| then [Separator]
    else p[..|p| - |last| - 1]
  }

  /** `filepath.Rel(base, target)` for a target inside `base`: "." for `base`
      itself, the remainder after `base` and a separator for a descendant, and an
      error for every other target. */
  function Rel(base: string, target: string): (r: Result<string>)
  {
    if target == base then Success(".")
    else if |target| > |base| + 1 && target[..|base|] == base && target[|base|] == Separator then
      Success(target[|base| + 1..])
    else Failure(Error("Rel: can't make " + target + " relative to " + base))
  }

  /** `Rel` answers with a path that `Join` takes back to the target. */
  lemma JoinRel(base: string, target: string)
    requires base != "" && target != base && Rel(base, target).Success?
    ensures Join(base, Rel(base, target).value) == target
  {
    var r := Rel(base, target).value;
    assert target == target[..|base|] + [target[|base|]] + target[|base| + 1..];
  }

  /** `Rel` inverts `Join` below a non-empty base. */
  lemma RelJoin(base: string, rel: string)
    requires base != "" && rel != ""
    ensures Rel(base, Join(base, rel)) == Success(rel)
  {
  }

  /** `Dir` is the parent of the last element: joining them gives the path back,
      for a path whose last element is not at the root and which does not end
      in a separator. */
  lemma JoinDirLast(p: string)
    requires LastElement(p) != "" && |LastElement(p)| + 1 < |p|
    ensures Join(Dir(p), LastElement(p)) == p
  {
    var last := LastElement(p);
    var k := |p| - |last| - 1;
    assert p == p[..k] + [p[k]] + p[k + 1..];
  }

  /** The last element starts after every separator of the path. */
  lemma LastElementAfter(p: string, k: int)
    requires 0 <= k < |p| && p[k] == Separator
    ensures |LastElement(p)| < |p| - k
  {
    assert LastSeparator(p) >= k;
  }
}
