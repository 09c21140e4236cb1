# Cookbook service client: request building, checksum upload and download plan

This project models the cookbook service of a Chef server API client (`cookbook.go`). It covers these parts:

- **Requests.** The `num_versions` query string, and the request path and method each operation sends to the `cookbooks` endpoint. This includes the `Delete` path, which never reads its version argument.
- **Checksums.** `ComputeMd5`'s lowercase-hex output, and the checksum index `Upload` builds from the walked files. The index is an ordered checksum list that keeps duplicates, plus a checksum→file map in which the last file wins.
- **Header encoding.** The `content-md5` header each uploaded file carries: `hex.DecodeString` of the checksum identifier, re-encoded as standard padded base64 (sections 4 and 8 of RFC 4648; the header is the one RFC 1864 defines). Hex and base64 are each modelled with their decoder, and the two round trips are proved.
- **Upload.** The upload protocol as a trace of the calls it makes to the server client: the sandbox POST, one PUT per entry the server flags, the sandbox commit, and the manifest PUT. The model keeps the source's fail-fast returns, its `os.Exit(1)` on POST and commit failures, and its nil return after publishing.
- **Manifest items.** `ComputeCookbookItemFromFile`, and the `ToCookbookPut` projection. That projection is a JSON round trip whose net effect is to drop each item's URL.
- **Download.** The `Download` plan: one manifest GET, then, for nine categories in a fixed order, a directory creation and a file download per item below `<destination>/<name>-<version>`.

Every call that leaves the process is a function-valued field of an `Env` record. That covers the directory walk, the MD5 digest of a file, sandbox creation, building and sending a request, the commit, the manifest's JSON encoding, the transport, `MkdirAll` and the file download. A run is therefore a pure function of what the environment answers. The order in which Go iterates the sandbox response map is given as the order of a sequence of entries.

Modules, one file each:

- `Results`: the error, option and result types.
- `Bytes`: the byte type.
- `Hex`: `%x` and `hex.DecodeString`.
- `Base64`: the padded standard alphabet with a strict decoder.
- `FilePaths`: `Join`, `Base`, `Dir` and `Rel` on `/`-separated paths.
- `Cookbooks`: the data model, `ToCookbookPut` and `ComputeCookbookItemFromFile`.
- `Requests`: query strings, request paths, and which operations hand errors back.
- `Checksums`: `ComputeMd5`, the checksum index and the `content-md5` value.
- `Upload`: the upload trace and `Put`.
- `Download`: the download trace.

## Model

| member | source | states |
|---|---|---|
| Requests.NumVersionsValue | cookbook.go:185-192 | A `num_versions` parameter is present exactly when the argument is non-empty. "0" is sent as "all", and every other non-empty count is sent as given. The value sent is never empty and never "0". |
| Requests.VersionParams | cookbook.go:185-195 | With no count the path comes back unchanged. Otherwise the result is the path, then `?num_versions=`, then the effective count. |
| Requests.VersionParamsRoundTrip | cookbook.go:185-195 | For a path without a query, splitting the result at its first `?` gives back the path and the effective count, or no count when none was given. |
| Requests.CallOf | cookbook.go:199-240 | `List` sends a GET for exactly `cookbooks`. `Delete` sends DELETE, `Put` sends PUT, and every other operation sends GET. |
| Requests.ReportedError | cookbook.go:216-220 | The reference for which operations report the transport's error. `GetVersion` reports success whatever the transport answered, and every other operation hands the error back unchanged. `Upload.Publish` and `Download.DownloadReturnsGetError` prove that `Put` and `Download` follow it. |
| Requests.VersionPathAddressesVersion | cookbook.go:216-220 | The `GetVersion` path reads back as exactly the requested cookbook name and version. `Put` (cookbook.go:393) and `Download` (cookbook.go:244) address the same path. |
| Requests.DeleteIgnoresVersion | cookbook.go:236-240 | As written, `Delete` addresses the cookbook without a version. Two calls that differ only in the version send the identical request. |
| Requests.DeleteVersionCall | cookbook.go:236-240 | Corrected `Delete`: a DELETE to the path `GetVersion` uses for that version. |
| Requests.DeleteVersionAddressesVersion | cookbook.go:236-240 | The corrected delete addresses the requested version, and different versions give different requests. |
| Hex.Encode | cookbook.go:386 | `%x` writes two lowercase hex digits per byte. |
| Hex.DecodeString | cookbook.go:319 | Decoding succeeds exactly on even-length strings of hex digits, in either case, and then yields half as many bytes. Otherwise it yields fewer. |
| Hex.DecodedPairs | cookbook.go:319 | Each decoded byte is the value of the digit pair at its position, high digit first. Both digits are valid hex in either case. |
| Hex.DecodeStopsAtBadPair | cookbook.go:319 | A failed decode stops right after the decoded prefix, at a lone trailing digit or at a pair holding a non-hex character. This is what a malformed checksum identifier contributes to the `content-md5` header. |
| Hex.DecodeEncode | cookbook.go:319 | Decoding what `%x` wrote gives back the bytes, with no error. |
| Hex.EncodeDecode | cookbook.go:319 | Every even-length lowercase hex string is the `%x` form of its decoded bytes. |
| Hex.EncodeInjective | cookbook.go:386 | Different byte strings never print to the same hex text. |
| Base64.Encode | cookbook.go:320 | Padded standard base64 uses four characters per started group of three bytes. |
| Base64.DecodeEncode | cookbook.go:320 | The strict decoder inverts the encoder on every byte string. |
| Base64.EncodeDecode | cookbook.go:320 | Every string the strict decoder accepts is the encoding of what it decodes to, so the encoding is a bijection onto the accepted strings. |
| Base64.NoPadding | cookbook.go:320 | A length that is a multiple of three is encoded without padding. |
| Base64.DoublePadding | cookbook.go:320 | A length of 1 modulo 3 ends the encoding in "==". |
| Base64.SinglePadding | cookbook.go:320 | A length of 2 modulo 3 ends the encoding in exactly one "=". |
| Checksums.ComputeMd5 | cookbook.go:373-387 | A readable file gives a 32-character checksum and no error. An unreadable one gives the empty string together with the read error. |
| Checksums.ComputeMd5Decodes | cookbook.go:386 | The checksum text is lowercase hex, and hex-decoding it gives back the 16 digest bytes with no error. |
| Checksums.ChecksumTextIsDigest | cookbook.go:373-387 | Two files have the same checksum text exactly when their digests are equal. |
| Checksums.AddFileIndexes | cookbook.go:303-304 | One loop iteration keeps the index invariant: it appends the checksum, and the map entry points to the newest file. |
| Checksums.IndexChecksumsSucceeds | cookbook.go:295-305 | A successful index lists one checksum per walked file, in walk order with duplicates kept. It maps each listed checksum to the last walked file that has it. |
| Checksums.IndexChecksumsSuccessIff | cookbook.go:297-305 | Indexing succeeds exactly when every walked file can be hashed. |
| Checksums.IndexChecksumsFails | cookbook.go:297-302 | A failed index reports the error of a file that could not be hashed when every file before it could. |
| Checksums.FirstFailureReturned | cookbook.go:297-302 | The error returned is that of the first unreadable file in walk order. |
| Checksums.IndexedFileHasChecksum | cookbook.go:303 | Every file in the map is one of the walked files, can be hashed, and has the checksum it is filed under. |
| Checksums.IndexKeys | cookbook.go:295-305 | The map's keys are exactly the listed checksums, and there are never more keys than walked files. |
| Checksums.ContentMd5Decodes | cookbook.go:319-320 | Base64-decoding the header gives exactly the hex-decoded bytes of the checksum identifier. Its length is four characters per started group of three of those bytes. |
| Checksums.ContentMd5OfChecksum | cookbook.go:319-320 | For a checksum `ComputeMd5` wrote, the header is 24 characters ending in "==", and it decodes to the 16 digest bytes. |
| Cookbooks.ToCookbookPut | cookbook.go:164-180 | Every top-level and metadata field is kept. Every category keeps its length and order. Every item keeps path, name, checksum and specificity. |
| Cookbooks.ToCookbookPutFromCookbookPut | cookbook.go:164-180 | The projection is onto: every upload manifest is the projection of a cookbook. |
| Cookbooks.ToCookbookPutForgetsOnlyUrls | cookbook.go:164-180 | Two cookbooks project to the same upload manifest exactly when they differ at most in item URLs. |
| Cookbooks.ComputeCookbookItemFromFile | cookbook.go:355-370 | The checksum is copied and the name is the base name. The path is relative to `basePath` when one is given and unchanged otherwise. A failing `Rel` leaves the path empty and returns its error. URL and specificity are empty. |
| Cookbooks.ItemPathResolvesToFile | cookbook.go:358-364 | When the item is built without error, its path joined back under `basePath` names the file it was computed from. |
| Cookbooks.ItemOfJoinedPath | cookbook.go:355-370 | A file below `basePath` is always accepted and recorded at the relative path it was joined from. |
| FilePaths.JoinRel | cookbook.go:359 | `Rel` answers with a path that `Join` takes back to the target. |
| FilePaths.RelJoin | cookbook.go:359 | `Rel` takes a joined path back to the relative part. |
| Upload.FlaggedMembers | cookbook.go:314-315 | An entry is PUT-eligible exactly when the response lists it and flags it for upload. |
| Upload.PutMissingOutcome | cookbook.go:314-339 | The loop PUTs the flagged entries in response order until the first failure. It returns nil exactly when every flagged entry went through, and otherwise the first failure's error, with the trace ending at that entry. |
| Upload.RequestHeaderMatchesBody | cookbook.go:316-330 | For every checksum the upload listed, the PUT's body is a walked, hashable file, and its `content-md5` header decodes to that file's own digest. |
| Upload.Publish | cookbook.go:392-409 | A manifest that cannot be encoded sends nothing and returns the encoding error. Otherwise one PUT goes to the version's path, and the transport's error is returned as `ReportedError` prescribes for `Put`. The error is absent exactly when both encoding and transport succeed. |
| Upload.UploadPhaseOrdered | cookbook.go:308-351 | Every run sends the sandbox POST first, then only file PUTs, then at most the commit followed by the manifest PUT. Every exit has status 1. |
| Upload.UploadStopsOnUnreadableFile | cookbook.go:295-305 | An unreadable file ends the upload before any request, returning the first such file's error. |
| Upload.UploadPostsEveryChecksum | cookbook.go:308-312 | When every file can be hashed, the first request posts one checksum per walked file in walk order. A failed post exits with status 1 right after it. |
| Upload.UploadTransfers | cookbook.go:314-351 | After a successful post there are three outcomes. A failed PUT returns its error, after only the earlier PUTs. A failed commit exits with status 1 after all PUTs. Otherwise the manifest is published after the commit, and the upload returns nil whatever publishing answered. |
| Download.DownloadCookbookItemsOutcome | cookbook.go:268-280 | For each item in order, the loop creates the parent directory of `<destination>/<path>` and downloads the item's URL there. It stops at the first failure and returns that error. It returns nil exactly when every item went through. |
| Download.DownloadOrderLists | cookbook.go:256-264 | Categories are visited in the order Attributes, Recipes, Providers, Definitions, Libraries, Files, Templates, RootFiles, Resources. |
| Download.DownloadReturnsGetError | cookbook.go:243-266 | `Download` first GETs the version's manifest. It returns that GET's error, as `ReportedError` prescribes for `Download`. The directory and download answers never change it. |
| Download.DownloadVisitsEveryCategory | cookbook.go:256-264 | Each category's loop runs whatever the earlier loops returned: the trace is the GET, the earlier categories, this category, then the later ones. |
| Download.DownloadFollowsPlan | cookbook.go:243-280 | When every directory creation and download succeeds, the trace is the GET followed by, for each item in category order, its directory creation and its download below `<destination>/<name>-<version>`. |
| Download.MakeDirIsParent | cookbook.go:270-274 | The directory created for an item is the parent of the file then written: joining it with the file's name gives the target back. |
| Download.DownloadedFileReindexes | cookbook.go:355-370 | A file downloaded by `Download` (cookbook.go:274), hashed back from below the cookbook directory, is recorded at the path it was downloaded to, with its checksum. |

## Left out

- The MD5 digest itself and the chunked reading through `io.Copy` (cookbook.go:381-386). A file's digest is an environment answer: 16 bytes, or a read error.
- `filepath.Walk` (cookbook.go:288-293). The walked file list is an environment answer. The panic on a nil `FileInfo` and the walk's own error are not modelled. The source overwrites that error before reading it.
- `os.Open` and `Close` in the upload loop (cookbook.go:316-333). This covers the shadowed open error, the deferred double close and the file-handle lifetime. The PUT names the file whose bytes it sends, and sending is one environment answer.
- The HTTP transport, request signing and JSON decoding of responses. `Get`, `GetAvailableVersions`, `ListAvailableVersions` and `List` are modelled only by the request they send and the error they return; their result decoding is left out.
- The JSON encoding inside `ToCookbookPut` (cookbook.go:165-175). It is modelled as the field projection it amounts to, and attribute, grouping and metadata values are opaque. Marshal and unmarshal errors are only printed. A failed marshal therefore makes `ToCookbookPut` return the zero `CookbookPut`, and the model does not have this path.
- The `String()` methods, all logging, and the commented-out directory check in `Download` (cookbook.go:250-254).
- Go's map iteration order (cookbook.go:314). The response entries are given as a sequence in whichever order the map is iterated.
- FilePaths: `Join`, `Base`, `Dir` and `Rel` omit `filepath.Clean` (no `.`/`..` elimination or doubled-slash collapsing). `Rel` succeeds only for `base` itself or a descendant; Go can also answer with `..` paths, and those are not modelled.
- Header keys are kept as written. Go's canonicalisation of `content-md5` to `Content-Md5` is library behaviour.
- Values that `json.Marshal` rejects, such as a NaN or infinite float or a non-JSON value in `Attributes` or `Groupings`. Neither the `Json` type nor the model's strings can hold them, so `ToCookbookPut`'s zero-value result for them (cookbook.go:165-179) is not modelled.
- Invalid UTF-8 in strings, such as an item path built from a file name. `json.Marshal` rewrites it to U+FFFD, so `ToCookbookPut` changes such a string. Dafny strings hold characters, not bytes, so the model keeps every string unchanged.
- The distinction between nil and empty slices and maps in Go, which affects only the JSON encoding.
- `Sandboxes.Post` is called with every walked file's checksum, duplicates included (cookbook.go:308). The trace records that call and its argument. What the sandbox client then sends over HTTP is not modelled.
- The errors the model reproduces but does not report: `Put`'s error is discarded, so `Upload` returns nil after publishing (cookbook.go:349-351). POST and commit failures end the process with status 1 instead of returning an error. Per-category `Download` errors are discarded (cookbook.go:256-264).
- Upload.Upload: carries no contract of its own. Its behaviour is stated by `UploadPhaseOrdered`, `UploadStopsOnUnreadableFile`, `UploadPostsEveryChecksum` and `UploadTransfers`, which together cover every path.

## Findings

| source | as written | input that shows it | evidently intended | confidence | as-written member | corrected member |
|---|---|---|---|---|---|---|
| cookbook.go:236-240 | `Delete(name, version)` builds the path `cookbooks/<name>` and never reads `version`, so it addresses the whole cookbook rather than one version | `Delete("apache2", "1.0.0")` and `Delete("apache2", "2.0.0")` both send DELETE `cookbooks/apache2` | DELETE `cookbooks/<name>/<version>`, the path `GetVersion` and `Put` use, as the method's comment ("removes a version") says | high (not executed) | Requests.DeleteIgnoresVersion | Requests.DeleteVersionAddressesVersion |
