/** `CookbookService.Upload` and `CookbookService.Put` as effect traces. Every
    call into the file system or the transport is a field of `Env`, so each
    run is determined by the environment's answers; the trace records the
    calls made to the server client, with their arguments, in order. */
module Upload {
  import opened Results
  import Checksums
  import Cookbooks
  import Requests
  import FilePaths
  import Base64

  datatype Header = Header(key: string, value: string)

  /** One file PUT to the sandbox: the upload URL, the local file whose bytes
      form the body, and the request headers in the order they are set. */
  datatype FileUpload = FileUpload(url: string, bodyFile: string, headers: seq<Header>)

  /** The server's answer for one checksum: whether it wants the bytes, and where. */
  datatype SandboxItem = SandboxItem(url: string, upload: bool)
  datatype SandboxEntry = SandboxEntry(checksumId: string, item: SandboxItem)

  /** The sandbox-creation response: its identifier and its checksum entries, in
      the order the response map happens to be iterated. */
  datatype SandboxResponse = SandboxResponse(id: string, entries: seq<SandboxEntry>)

  /** A call made to the server client, with its arguments. */
  datatype Effect =
    | SandboxPost(checksums: seq<string>)
    | FilePut(request: FileUpload)
    | SandboxCommit(id: string)
    | ManifestPut(call: Requests.Call, manifest: Cookbooks.CookbookPut)

  /** The collaborators' answers: the files the walk finds under a root, the
      digest of each file, the sandbox creation, the building and sending of each
      file PUT, the commit, the manifest's JSON encoding and its PUT. */
  datatype Env = Env(
    walk: string -> seq<string>,
    md5: string -> Checksums.Md5Outcome,
    post: seq<string> -> Result<SandboxResponse>,
    newRequest: string -> Option<Error>,
    send: FileUpload -> Option<Error>,
    commit: string -> Option<Error>,
    encode: Cookbooks.CookbookPut -> Option<Error>,
    transport: (Requests.Call, Cookbooks.CookbookPut) -> Option<Error>)

  /** How a run ends: a return with Go's error value, or process exit. */
  datatype Ending = Returned(err: Option<Error>) | Exited(code: int)

  datatype Run = Run(trace: seq<Effect>, ending: Ending)

  /** A phase that returns an error instead of exiting. */
  datatype Step = Step(trace: seq<Effect>, err: Option<Error>)

  const ContentType: Header := Header("content-type", "application/x-binary")
  const Accept: Header := Header("accept", "application/json")

  /** The three headers of a file PUT, the middle one carrying the checksum. */
  function UploadHeaders(checksumId: string): seq<Header>
  {
    [ContentType, Header("content-md5", Checksums.ContentMd5(checksumId)), Accept]
  }

  /** The file whose bytes are sent for a checksum: the index's file, or the
      empty path when the index has none (a Go map's zero value). */
  function BodyFile(fileChecksums: map<string, string>, checksumId: string): string
  {
    if checksumId in fileChecksums then fileChecksums[checksumId] else ""
  }

  function UploadRequest(e: SandboxEntry, fileChecksums: map<string, string>): FileUpload
  {
    FileUpload(e.item.url, BodyFile(fileChecksums, e.checksumId), UploadHeaders(e.checksumId))
  }

  /** The entries the server asks for, in response order. */
  function Flagged(entries: seq<SandboxEntry>): (r: seq<SandboxEntry>)
    ensures |r| <= |entries|
    decreases |entries|
  {
    if |entries| == 0 then []
    else if entries[0].item.upload then [entries[0]] + Flagged(entries[1..])
    else Flagged(entries[1..])
  }

  /** An entry is selected exactly when the server listed it and flagged it for
      upload. */
  lemma {:induction false} FlaggedMembers(entries: seq<SandboxEntry>, e: SandboxEntry)
    ensures e in Flagged(entries) <==> e in entries && e.item.upload
    decreases |entries|
  {
    if |entries| > 0 {
      FlaggedMembers(entries[1..], e);
      assert entries == [entries[0]] + entries[1..];
    }
  }

  /** The PUTs for a sequence of entries, one each, in order. */
  function Puts(es: seq<SandboxEntry>, fileChecksums: map<string, string>): (t: seq<Effect>)
    ensures |t| == |es|
    ensures forall k :: 0 <= k < |es| ==> t[k] == FilePut(UploadRequest(es[k], fileChecksums))
  {
    seq(|es|, k requires 0 <= k < |es| => FilePut(UploadRequest(es[k], fileChecksums)))
  }

  /** Building and sending an entry's PUT both succeed. */
  predicate Succeeds(e: SandboxEntry, fileChecksums: map<string, string>, env: Env)
  {
    env.newRequest(e.item.url).None? && env.send(UploadRequest(e, fileChecksums)).None?
  }

  /** The error a failing entry returns: `NewRequest`'s if it failed, else `Do`'s. */
  function FailureOf(e: SandboxEntry, fileChecksums: map<string, string>, env: Env): Error
    requires !Succeeds(e, fileChecksums, env)
  {
    match env.newRequest(e.item.url)
    case Some(err) => err
    case None => env.send(UploadRequest(e, fileChecksums)).value
  }

  /** What a failing entry leaves on the wire: nothing if the request could not
      be built, the PUT itself if sending it failed. */
  function Attempt(e: SandboxEntry, fileChecksums: map<string, string>, env: Env): seq<Effect>
  {
    if env.newRequest(e.item.url).Some? then [] else [FilePut(UploadRequest(e, fileChecksums))]
  }

  predicate AllSucceed(es: seq<SandboxEntry>, fileChecksums: map<string, string>, env: Env)
  {
    forall k :: 0 <= k < |es| ==> Succeeds(es[k], fileChecksums, env)
  }

  /** The loop stopped at the `k`-th flagged entry: all before it went through,
      it failed, its error is returned and the trace holds the earlier PUTs and
      whatever the failing one put on the wire. */
  predicate StopsAt(f: seq<SandboxEntry>, k: int, fileChecksums: map<string, string>, env: Env, s: Step)
  {
    && 0 <= k < |f|
    && AllSucceed(f[..k], fileChecksums, env)
    && !Succeeds(f[k], fileChecksums, env)
    && s.err == Some(FailureOf(f[k], fileChecksums, env))
    && s.trace == Puts(f[..k], fileChecksums) + Attempt(f[k], fileChecksums, env)
  }

  /** The contract of the upload loop over the flagged entries `f`. */
  predicate LoopOutcome(f: seq<SandboxEntry>, fileChecksums: map<string, string>, env: Env, s: Step)
  {
    && (s.err.None? <==> AllSucceed(f, fileChecksums, env))
    && (s.err.None? ==> s.trace == Puts(f, fileChecksums))
    && (s.err.Some? ==> exists k :: 0 <= k < |f| && StopsAt(f, k, fileChecksums, env, s))
  }

  /** The upload loop of `Upload`: entries not flagged are skipped without a
      request; each flagged entry is PUT to its URL with its file and the three
      headers; the first entry whose request cannot be built or sent ends the
      loop with that error. */
  function PutMissing(entries: seq<SandboxEntry>, fileChecksums: map<string, string>, env: Env): Step
    decreases |entries|
  {
    if |entries| == 0 then Step([], None)
    else
      var e := entries[0];
      if !e.item.upload then PutMissing(entries[1..], fileChecksums, env)
      else
        var req := UploadRequest(e, fileChecksums);
        match env.newRequest(e.item.url)
        case Some(err) => Step([], Some(err))
        case None =>
          match env.send(req)
          case Some(err) => Step([FilePut(req)], Some(err))
          case None =>
            var rest := PutMissing(entries[1..], fileChecksums, env);
            Step([FilePut(req)] + rest.trace, rest.err)
  }

  /** The loop PUTs the flagged entries in order until the first that fails;
      it returns nil exactly when every flagged entry went through. */
  lemma {:induction false} PutMissingOutcome(entries: seq<SandboxEntry>, fileChecksums: map<string, string>, env: Env)
    ensures LoopOutcome(Flagged(entries), fileChecksums, env, PutMissing(entries, fileChecksums, env))
    decreases |entries|
  {
    if |entries| > 0 {
      var e := entries[0];
      var ft := Flagged(entries[1..]);
      PutMissingOutcome(entries[1..], fileChecksums, env);
      if e.item.upload {
        var rest := PutMissing(entries[1..], fileChecksums, env);
        if !Succeeds(e, fileChecksums, env) {
          FirstFails(e, ft, fileChecksums, env);
        } else if rest.err.None? {
          FirstSucceedsRestDone(e, ft, fileChecksums, env, rest);
        } else {
          FirstSucceedsRestStops(e, ft, fileChecksums, env, rest);
        }
      }
    }
  }

  /** A failing first flagged entry stops the loop at position 0. */
  lemma FirstFails(e: SandboxEntry, ft: seq<SandboxEntry>, fileChecksums: map<string, string>, env: Env)
    requires !Succeeds(e, fileChecksums, env)
    ensures LoopOutcome([e] + ft, fileChecksums, env,
      Step(Attempt(e, fileChecksums, env), Some(FailureOf(e, fileChecksums, env))))
  {
    var f := [e] + ft;
    assert f[..0] == [] && f[0] == e;
    assert StopsAt(f, 0, fileChecksums, env, Step(Attempt(e, fileChecksums, env), Some(FailureOf(e, fileChecksums, env))));
  }

  /** A succeeding first entry followed by a loop that completes. */
  lemma FirstSucceedsRestDone(e: SandboxEntry, ft: seq<SandboxEntry>, fileChecksums: map<string, string>, env: Env, rest: Step)
    requires Succeeds(e, fileChecksums, env)
    requires LoopOutcome(ft, fileChecksums, env, rest) && rest.err.None?
    ensures LoopOutcome([e] + ft, fileChecksums, env, Step([FilePut(UploadRequest(e, fileChecksums))] + rest.trace, rest.err))
  {
    var f := [e] + ft;
    PutsCons(e, ft, fileChecksums);
    assert AllSucceed(f, fileChecksums, env) by {
      forall k | 0 <= k < |f| ensures Succeeds(f[k], fileChecksums, env) {
        if k > 0 { assert f[k] == ft[k - 1]; }
      }
    }
  }

  /** A succeeding first entry followed by a loop that stops at `k` stops at `k + 1`. */
  lemma FirstSucceedsRestStops(e: SandboxEntry, ft: seq<SandboxEntry>, fileChecksums: map<string, string>, env: Env, rest: Step)
    requires Succeeds(e, fileChecksums, env)
    requires LoopOutcome(ft, fileChecksums, env, rest) && rest.err.Some?
    ensures LoopOutcome([e] + ft, fileChecksums, env, Step([FilePut(UploadRequest(e, fileChecksums))] + rest.trace, rest.err))
  {
    var k :| 0 <= k < |ft| && StopsAt(ft, k, fileChecksums, env, rest);
    StopsLater(e, ft, k, fileChecksums, env, rest);
  }

  lemma StopsLater(e: SandboxEntry, ft: seq<SandboxEntry>, k: int, fileChecksums: map<string, string>, env: Env, rest: Step)
    requires Succeeds(e, fileChecksums, env) && StopsAt(ft, k, fileChecksums, env, rest)
    ensures StopsAt([e] + ft, k + 1, fileChecksums, env, Step([FilePut(UploadRequest(e, fileChecksums))] + rest.trace, rest.err))
  {
    var f := [e] + ft;
    assert f[..k + 1] == [e] + ft[..k];
    PutsCons(e, ft[..k], fileChecksums);
    assert f[k + 1] == ft[k];
  }

  lemma PutsCons(e: SandboxEntry, es: seq<SandboxEntry>, fileChecksums: map<string, string>)
    ensures Puts([e] + es, fileChecksums) == [FilePut(UploadRequest(e, fileChecksums))] + Puts(es, fileChecksums)
  {
  }

  /** `CookbookService.Put`: encode the manifest as JSON (an encoding error
      returns before any request) and PUT it to `cookbooks/<name>/<version>`,
      returning the transport's error. */
  function Publish(name: string, version: string, cookbook: Cookbooks.CookbookPut, env: Env): (s: Step)
    ensures env.encode(cookbook).Some? ==> s == Step([], env.encode(cookbook))
    ensures env.encode(cookbook).None? ==>
      s.trace == [ManifestPut(Requests.Call(Requests.PUT, Requests.VersionPath(name, version)), cookbook)]
    ensures s.err.None? <==> env.encode(cookbook).None? && env.transport(Requests.CallOf(Requests.Put(name, version)), cookbook).None?
    ensures env.encode(cookbook).None? ==> s.err == env.transport(Requests.CallOf(Requests.Put(name, version)), cookbook)
    ensures env.encode(cookbook).None? ==>
      s.err == Requests.ReportedError(Requests.Put(name, version), env.transport(Requests.CallOf(Requests.Put(name, version)), cookbook))
  {
    var call := Requests.CallOf(Requests.Put(name, version));
    match env.encode(cookbook)
    case Some(e) => Step([], Some(e))
    case None => Step([ManifestPut(call, cookbook)], env.transport(call, cookbook))
  }

  /** `CookbookService.Upload`: hash every walked file (the first failure is
      returned), post the checksum list (failure exits), PUT each requested file
      (the first failure is returned), commit the sandbox (failure exits), then
      publish the manifest and return nil whatever publishing answered. */
  function Upload(name: string, version: string, source: string, manifest: Cookbooks.CookbookPut, env: Env): Run
  {
    var files := env.walk(FilePaths.Join(source, name));
    match Checksums.IndexChecksums(files, env.md5)
    case Failure(e) => Run([], Returned(Some(e)))
    case Success(index) =>
      var post := SandboxPost(index.checksums);
      match env.post(index.checksums)
      case Failure(_) => Run([post], Exited(1))
      case Success(resp) =>
        var puts := PutMissing(resp.entries, index.fileChecksums, env);
        if puts.err.Some? then Run([post] + puts.trace, Returned(puts.err))
        else
          var commit := SandboxCommit(resp.id);
          if env.commit(resp.id).Some? then Run([post] + puts.trace + [commit], Exited(1))
          else
            var publish := Publish(name, version, manifest, env);
            Run([post] + puts.trace + [commit] + publish.trace, Returned(None))
  }

  /** Every run issues its requests in protocol order, and every exit is
      `os.Exit(1)`. */
  lemma UploadPhaseOrdered(name: string, version: string, source: string, manifest: Cookbooks.CookbookPut, env: Env)
    ensures var run := Upload(name, version, source, manifest, env);
      PhaseOrdered(run.trace) && (run.ending.Exited? ==> run.ending.code == 1)
  {
    var files := env.walk(FilePaths.Join(source, name));
    match Checksums.IndexChecksums(files, env.md5) {
      case Failure(e) =>
      case Success(index) =>
        var post := SandboxPost(index.checksums);
        match env.post(index.checksums) {
          case Failure(_) =>
            Ordered(post, [], []);
            assert [post] + [] + [] == [post];
          case Success(resp) =>
            var puts := PutMissing(resp.entries, index.fileChecksums, env);
            PutMissingOnlyPuts(resp.entries, index.fileChecksums, env);
            var commit := SandboxCommit(resp.id);
            if puts.err.Some? {
              Ordered(post, puts.trace, []);
              assert [post] + puts.trace + [] == [post] + puts.trace;
            } else if env.commit(resp.id).Some? {
              Ordered(post, puts.trace, [commit]);
            } else {
              var closing := Publish(name, version, manifest, env).trace;
              assert Closing([commit] + closing);
              Ordered(post, puts.trace, [commit] + closing);
              assert [post] + puts.trace + [commit] + closing == [post] + puts.trace + ([commit] + closing);
            }
        }
    }
  }

  /** The files `Upload` hashes: those the walk finds under `<source>/<name>`. */
  function Walked(name: string, source: string, env: Env): seq<string>
  {
    env.walk(FilePaths.Join(source, name))
  }

  /** A file that cannot be hashed stops the upload before any request, and the
      error returned is that of the first such file in walk order. */
  lemma UploadStopsOnUnreadableFile(name: string, version: string, source: string, manifest: Cookbooks.CookbookPut, env: Env, i: int, e: Error)
    requires Checksums.FailsFirstAt(Walked(name, source, env), env.md5, i, e)
    ensures Upload(name, version, source, manifest, env) == Run([], Returned(Some(e)))
  {
    Checksums.FirstFailureReturned(Walked(name, source, env), env.md5, i, e);
  }

  /** When every file can be hashed, the first request is the sandbox post of
      every file's checksum in walk order, and a failed post exits with status 1
      right after it. */
  lemma UploadPostsEveryChecksum(name: string, version: string, source: string, manifest: Cookbooks.CookbookPut, env: Env)
    requires Checksums.AllSummed(Walked(name, source, env), env.md5)
    ensures var run := Upload(name, version, source, manifest, env);
      && |run.trace| > 0
      && run.trace[0].SandboxPost?
      && Checksums.ListsChecksums(run.trace[0].checksums, Walked(name, source, env), env.md5)
      && (env.post(run.trace[0].checksums).Failure? ==> run == Run([run.trace[0]], Exited(1)))
  {
    var files := Walked(name, source, env);
    Checksums.IndexChecksumsSuccessIff(files, env.md5);
    Checksums.IndexChecksumsSucceeds(files, env.md5);
    PostComesFirst(name, version, source, manifest, env, Checksums.IndexChecksums(files, env.md5).value);
  }

  lemma PostComesFirst(name: string, version: string, source: string, manifest: Cookbooks.CookbookPut, env: Env, index: Checksums.ChecksumIndex)
    requires Checksums.IndexChecksums(Walked(name, source, env), env.md5) == Success(index)
    ensures var run := Upload(name, version, source, manifest, env);
      && |run.trace| > 0 && run.trace[0] == SandboxPost(index.checksums)
      && (env.post(index.checksums).Failure? ==> run == Run([SandboxPost(index.checksums)], Exited(1)))
  {
    var run := Upload(name, version, source, manifest, env);
    if env.post(index.checksums).Success? {
      assert run.trace == [SandboxPost(index.checksums)] + run.trace[1..];
    }
  }

  /** After a successful post, the flagged entries are PUT in response order;
      the first failure returns its error; if all go through the sandbox is
      committed, a failed commit exits with status 1, and otherwise the
      manifest is published and the upload returns nil whatever publishing
      answered. */
  lemma UploadTransfers(name: string, version: string, source: string, manifest: Cookbooks.CookbookPut, env: Env,
                        index: Checksums.ChecksumIndex, resp: SandboxResponse)
    requires Checksums.IndexChecksums(Walked(name, source, env), env.md5) == Success(index)
    requires env.post(index.checksums) == Success(resp)
    ensures var run := Upload(name, version, source, manifest, env);
      var f, fc, post, commit := Flagged(resp.entries), index.fileChecksums, SandboxPost(index.checksums), SandboxCommit(resp.id);
      && (!AllSucceed(f, fc, env) ==>
            exists k :: 0 <= k < |f| && AllSucceed(f[..k], fc, env) && !Succeeds(f[k], fc, env)
              && run == Run([post] + Puts(f[..k], fc) + Attempt(f[k], fc, env), Returned(Some(FailureOf(f[k], fc, env)))))
      && (AllSucceed(f, fc, env) && env.commit(resp.id).Some? ==>
            run == Run([post] + Puts(f, fc) + [commit], Exited(1)))
      && (AllSucceed(f, fc, env) && env.commit(resp.id).None? ==>
            run == Run([post] + Puts(f, fc) + [commit] + Publish(name, version, manifest, env).trace, Returned(None)))
  {
    var f, fc := Flagged(resp.entries), index.fileChecksums;
    var puts := PutMissing(resp.entries, fc, env);
    PutMissingOutcome(resp.entries, fc, env);
    if !AllSucceed(f, fc, env) {
      var k :| 0 <= k < |f| && StopsAt(f, k, fc, env, puts);
      assert Upload(name, version, source, manifest, env)
          == Run([SandboxPost(index.checksums)] + Puts(f[..k], fc) + Attempt(f[k], fc, env), Returned(Some(FailureOf(f[k], fc, env))));
    }
  }

  /** The `content-md5` header of a requested file's PUT is the base64 form of
      the digest of the very file sent as its body, whenever the server asked
      for a checksum the upload listed. */
  lemma RequestHeaderMatchesBody(e: SandboxEntry, index: Checksums.ChecksumIndex, files: seq<string>, md5: string -> Checksums.Md5Outcome)
    requires Checksums.Indexes(index, files, md5) && e.checksumId in index.fileChecksums
    ensures var req := UploadRequest(e, index.fileChecksums);
      && req.bodyFile in files
      && md5(req.bodyFile).Summed?
      && req.headers[1].key == "content-md5"
      && Base64.Decode(req.headers[1].value) == Some(md5(req.bodyFile).sum)
  {
    var body := index.fileChecksums[e.checksumId];
    Checksums.IndexedFileHasChecksum(index, files, md5, e.checksumId);
    Checksums.ContentMd5OfChecksum(md5(body).sum);
  }

  lemma PutMissingOnlyPuts(entries: seq<SandboxEntry>, fileChecksums: map<string, string>, env: Env)
    ensures OnlyFilePuts(PutMissing(entries, fileChecksums, env).trace)
  {
    var s := PutMissing(entries, fileChecksums, env);
    var f := Flagged(entries);
    PutMissingOutcome(entries, fileChecksums, env);
    if s.err.Some? {
      var k :| 0 <= k < |f| && StopsAt(f, k, fileChecksums, env, s);
    }
  }

  predicate OnlyFilePuts(t: seq<Effect>)
  {
    forall k :: 0 <= k < |t| ==> t[k].FilePut?
  }

  lemma Ordered(post: Effect, puts: seq<Effect>, closing: seq<Effect>)
    requires post.SandboxPost? && OnlyFilePuts(puts) && Closing(closing)
    ensures PhaseOrdered([post] + puts + closing)
  {
    var t := [post] + puts + closing;
    assert t[1 + |puts|..] == closing;
    assert PhaseWitness(t, 1 + |puts|);
  }

  /** The upload's requests in protocol order: the sandbox post first, then only
      file PUTs, then possibly the commit, and the manifest PUT only right after
      the commit. */
  predicate PhaseOrdered(t: seq<Effect>)
  {
    |t| == 0 || exists n :: 1 <= n <= |t| && PhaseWitness(t, n)
  }

  predicate PhaseWitness(t: seq<Effect>, n: int)
  {
    && 1 <= n <= |t|
    && t[0].SandboxPost?
    && (forall k :: 1 <= k < n ==> t[k].FilePut?)
    && Closing(t[n..])
  }

  predicate Closing(c: seq<Effect>)
  {
    || c == []
    || (c[0].SandboxCommit? && (|c| == 1 || (|c| == 2 && c[1].ManifestPut?)))
  }
}
