/** Checksums of the files being uploaded: `ComputeMd5`'s hex rendering, the
    index the upload builds from the walked file list, and the `content-md5`
    header derived from a checksum identifier. The MD5 function itself is not
    modelled: a file's digest (or the error reading it) is given. */
module Checksums {
  import opened Bytes
  import opened Results
  import Hex
  import Base64

  /** An MD5 digest: sixteen bytes (section 3.5 of RFC 1321). */
  type Md5Sum = s: seq<byte> | |s| == 16 witness seq(16, _ => 0)

  /** What hashing one file yields: its digest, or the error from opening or
      reading it. */
  datatype Md5Outcome = Summed(sum: Md5Sum) | ReadFailed(err: Error)

  /** `ComputeMd5`'s two results. */
  datatype Md5Text = Md5Text(hex: string, err: Option<Error>)

  /** `ComputeMd5`: the digest as 32 lower-case hex digits and no error, or the
      empty string with the error. The hex text decodes back to the digest. */
  function ComputeMd5(o: Md5Outcome): (r: Md5Text)
    ensures o.Summed? ==> r.err == None && |r.hex| == 32
    ensures o.ReadFailed? ==> r == Md5Text("", Some(o.err))
  {
    match o
    case Summed(sum) => Md5Text(Hex.Encode(sum), None)
    case ReadFailed(e) => Md5Text(Hex.Encode([]), Some(e))
  }

  /** The checksum text is lower-case hex that decodes, without error, back to
      the digest. */
  lemma ComputeMd5Decodes(sum: Md5Sum)
    ensures Hex.IsLowerHex(ComputeMd5(Summed(sum)).hex)
    ensures Hex.DecodeString(ComputeMd5(Summed(sum)).hex) == Hex.Decoded(sum, true)
  {
    Hex.DecodeEncode(sum);
  }

  /** Identical contents give identical checksum text, and different digests
      give different text: the hex checksum is a faithful dedup key. */
  lemma ChecksumTextIsDigest(a: Md5Sum, b: Md5Sum)
    ensures ComputeMd5(Summed(a)).hex == ComputeMd5(Summed(b)).hex <==> a == b
  {
    if ComputeMd5(Summed(a)).hex == ComputeMd5(Summed(b)).hex {
      Hex.EncodeInjective(a, b);
    }
  }

  /** The two structures `Upload` builds while hashing: `fileChecksums` maps a
      checksum to a file with that content, and `checksums` lists every file's
      checksum in walk order. */
  datatype ChecksumIndex = ChecksumIndex(fileChecksums: map<string, string>, checksums: seq<string>)

  predicate AllSummed(files: seq<string>, md5: string -> Md5Outcome)
  {
    SummedBefore(files, md5, |files|)
  }

  /** The first `n` files can all be hashed. */
  predicate SummedBefore(files: seq<string>, md5: string -> Md5Outcome, n: int)
    requires n <= |files|
  {
    forall i :: 0 <= i < n ==> md5(files[i]).Summed?
  }

  /** The position of the last occurrence of `d` in `cs`, or -1 if there is none. */
  function LastIndexOf(cs: seq<string>, d: string): (i: int)
    ensures -1 <= i < |cs|
    ensures i == -1 <==> d !in cs
    ensures i >= 0 ==> cs[i] == d && forall j :: i < j < |cs| ==> cs[j] != d
    decreases |cs|
  {
    if |cs| == 0 then -1
    else if cs[|cs| - 1] == d then |cs| - 1
    else LastIndexOf(cs[..|cs| - 1], d)
  }

  lemma LastIndexOfAppend(cs: seq<string>, h: string, d: string)
    ensures LastIndexOf(cs + [h], d) == if d == h then |cs| else LastIndexOf(cs, d)
  {
    assert (cs + [h])[..|cs|] == cs;
  }

  /** `ix` is the index of `files`: one checksum per file, in order, duplicates
      kept; the map's keys are exactly the checksums that occur; and each key
      points at the last file carrying it. */
  predicate Indexes(ix: ChecksumIndex, files: seq<string>, md5: string -> Md5Outcome)
  {
    ListsChecksums(ix.checksums, files, md5) && KeysListed(ix) && MapsToLast(ix, files)
  }

  /** `cs` holds, in order, the checksum text of every file. */
  predicate ListsChecksums(cs: seq<string>, files: seq<string>, md5: string -> Md5Outcome)
  {
    && AllSummed(files, md5)
    && |cs| == |files|
    && (forall i :: 0 <= i < |files| ==> cs[i] == ComputeMd5(md5(files[i])).hex)
  }

  /** Every listed checksum is a key of the map. */
  predicate KeysListed(ix: ChecksumIndex)
  {
    forall i :: 0 <= i < |ix.checksums| ==> ix.checksums[i] in ix.fileChecksums
  }

  /** Every key of the map is listed, and maps to the file at its last position. */
  predicate MapsToLast(ix: ChecksumIndex, files: seq<string>)
  {
    forall d :: d in ix.fileChecksums ==>
      0 <= LastIndexOf(ix.checksums, d) < |files| && ix.fileChecksums[d] == files[LastIndexOf(ix.checksums, d)]
  }

  /** The index grows by one file: its checksum is appended and it becomes the
      map's entry for that checksum. */
  function AddFile(ix: ChecksumIndex, file: string, checksum: string): ChecksumIndex
  {
    ChecksumIndex(ix.fileChecksums[checksum := file], ix.checksums + [checksum])
  }

  /** The checksum text of the last file of `files`. */
  function LastChecksum(files: seq<string>, md5: string -> Md5Outcome): string
    requires |files| > 0
  {
    ComputeMd5(md5(files[|files| - 1])).hex
  }

  /** Hashing one more file extends the index of the files before it to the
      index of all of them. */
  lemma AddFileIndexes(ix: ChecksumIndex, files: seq<string>, md5: string -> Md5Outcome)
    requires |files| > 0
    requires Indexes(ix, files[..|files| - 1], md5) && md5(files[|files| - 1]).Summed?
    ensures Indexes(AddFile(ix, files[|files| - 1], LastChecksum(files, md5)), files, md5)
  {
    var n := |files| - 1;
    AddFileLists(ix.checksums, files, md5);
    AddFileKeys(ix, files[n], LastChecksum(files, md5));
    AddFileLast(ix, files, LastChecksum(files, md5));
  }

  lemma AddFileLists(cs: seq<string>, files: seq<string>, md5: string -> Md5Outcome)
    requires |files| > 0
    requires ListsChecksums(cs, files[..|files| - 1], md5) && md5(files[|files| - 1]).Summed?
    ensures ListsChecksums(cs + [LastChecksum(files, md5)], files, md5)
  {
    var n := |files| - 1;
    forall i | 0 <= i < n ensures files[i] == files[..n][i] { }
  }

  lemma AddFileKeys(ix: ChecksumIndex, file: string, checksum: string)
    requires KeysListed(ix)
    ensures KeysListed(AddFile(ix, file, checksum))
  {
    var ix' := AddFile(ix, file, checksum);
    forall i | 0 <= i < |ix'.checksums| ensures ix'.checksums[i] in ix'.fileChecksums {
      if i < |ix.checksums| {
        assert ix'.checksums[i] == ix.checksums[i];
      }
    }
  }

  lemma AddFileLast(ix: ChecksumIndex, files: seq<string>, checksum: string)
    requires |files| > 0 && |ix.checksums| == |files| - 1
    requires MapsToLast(ix, files[..|files| - 1])
    ensures MapsToLast(AddFile(ix, files[|files| - 1], checksum), files)
  {
    var n := |files| - 1;
    var ix' := AddFile(ix, files[n], checksum);
    forall d | d in ix'.fileChecksums
      ensures 0 <= LastIndexOf(ix'.checksums, d) < |files| && ix'.fileChecksums[d] == files[LastIndexOf(ix'.checksums, d)]
    {
      LastIndexOfAppend(ix.checksums, checksum, d);
      if d != checksum {
        assert files[LastIndexOf(ix.checksums, d)] == files[..n][LastIndexOf(ix.checksums, d)];
      }
    }
  }

  /** The hashing loop of `Upload`: files are hashed in walk order, the first
      failure ends the loop with that file's error, and otherwise each file's
      checksum is appended to the list and becomes that checksum's map entry. */
  function IndexChecksums(files: seq<string>, md5: string -> Md5Outcome): Result<ChecksumIndex>
    decreases |files|
  {
    if |files| == 0 then Success(ChecksumIndex(map[], []))
    else
      var n := |files| - 1;
      match IndexChecksums(files[..n], md5)
      case Failure(e) => Failure(e)
      case Success(ix) =>
        var m := ComputeMd5(md5(files[n]));
        if m.err.Some? then Failure(m.err.value)
        else Success(AddFile(ix, files[n], m.hex))
  }

  /** Hashing stops at file `i` with error `e`: every earlier file could be
      hashed and file `i` could not. */
  predicate FailsFirstAt(files: seq<string>, md5: string -> Md5Outcome, i: int, e: Error)
  {
    0 <= i < |files| && SummedBefore(files, md5, i) && md5(files[i]) == ReadFailed(e)
  }

  /** A successful hashing loop returns the index of the files: one checksum
      per file in walk order, duplicates kept, each checksum mapped to the last
      file carrying it. */
  lemma {:induction false} IndexChecksumsSucceeds(files: seq<string>, md5: string -> Md5Outcome)
    ensures IndexChecksums(files, md5).Success? ==> Indexes(IndexChecksums(files, md5).value, files, md5)
    decreases |files|
  {
    if |files| > 0 {
      var n := |files| - 1;
      var init := files[..n];
      var r0 := IndexChecksums(init, md5);
      if r0.Success? && md5(files[n]).Summed? {
        IndexChecksumsSucceeds(init, md5);
        AddFileIndexes(r0.value, files, md5);
      }
    }
  }

  /** A failing hashing loop returns the error of the first file that could not
      be hashed. */
  lemma {:induction false} IndexChecksumsFails(files: seq<string>, md5: string -> Md5Outcome)
    ensures IndexChecksums(files, md5).Failure? ==>
      exists i :: FailsFirstAt(files, md5, i, IndexChecksums(files, md5).error)
    decreases |files|
  {
    if |files| > 0 {
      var n := |files| - 1;
      var init := files[..n];
      var r0 := IndexChecksums(init, md5);
      if r0.Failure? {
        IndexChecksumsFails(init, md5);
        FailureExtends(init, files, md5, r0.error);
      } else if md5(files[n]).ReadFailed? {
        IndexChecksumsSucceeds(init, md5);
        forall i | 0 <= i < n ensures md5(files[i]).Summed? {
          assert files[i] == init[i];
        }
        assert FailsFirstAt(files, md5, n, md5(files[n]).err);
      }
    }
  }

  /** Hashing succeeds exactly when every walked file can be hashed. */
  lemma {:induction false} IndexChecksumsSuccessIff(files: seq<string>, md5: string -> Md5Outcome)
    ensures IndexChecksums(files, md5).Success? <==> AllSummed(files, md5)
    decreases |files|
  {
    IndexChecksumsSucceeds(files, md5);
    if |files| > 0 && AllSummed(files, md5) {
      var n := |files| - 1;
      var init := files[..n];
      forall i | 0 <= i < n ensures md5(init[i]).Summed? {
        assert init[i] == files[i];
      }
      IndexChecksumsSuccessIff(init, md5);
    }
  }

  /** The loop returns the error of the first unreadable file, whichever it is. */
  lemma {:induction false} FirstFailureReturned(files: seq<string>, md5: string -> Md5Outcome, i: int, e: Error)
    requires FailsFirstAt(files, md5, i, e)
    ensures IndexChecksums(files, md5) == Failure(e)
    decreases |files|
  {
    var n := |files| - 1;
    var init := files[..n];
    if i < n {
      assert init[i] == files[i];
      assert SummedBefore(init, md5, i) by {
        forall j | 0 <= j < i ensures md5(init[j]).Summed? {
          assert init[j] == files[j];
        }
      }
      FirstFailureReturned(init, md5, i, e);
    } else {
      forall j | 0 <= j < n ensures md5(init[j]).Summed? {
        assert init[j] == files[j];
      }
      IndexChecksumsSuccessIff(init, md5);
    }
  }

  /** The file the index holds for a checksum is one of the files, and its
      content has that checksum. */
  lemma IndexedFileHasChecksum(ix: ChecksumIndex, files: seq<string>, md5: string -> Md5Outcome, d: string)
    requires Indexes(ix, files, md5) && d in ix.fileChecksums
    ensures ix.fileChecksums[d] in files
    ensures md5(ix.fileChecksums[d]).Summed? && ComputeMd5(md5(ix.fileChecksums[d])).hex == d
  {
    var i := LastIndexOf(ix.checksums, d);
    assert ix.fileChecksums[d] == files[i];
  }

  /** A first failure among a prefix of the files is the first failure of all. */
  lemma FailureExtends(init: seq<string>, files: seq<string>, md5: string -> Md5Outcome, e: Error)
    requires init <= files
    requires exists i :: FailsFirstAt(init, md5, i, e)
    ensures exists i :: FailsFirstAt(files, md5, i, e)
  {
    var i :| FailsFirstAt(init, md5, i, e);
    assert files[i] == init[i];
    assert FailsFirstAt(files, md5, i, e);
  }

  /** The map holds one entry per distinct checksum: its keys are exactly the
      checksums in the list, so it never has more entries than there are files. */
  lemma IndexKeys(ix: ChecksumIndex, files: seq<string>, md5: string -> Md5Outcome)
    requires Indexes(ix, files, md5)
    ensures ix.fileChecksums.Keys == set i | 0 <= i < |files| :: ix.checksums[i]
    ensures |ix.fileChecksums| <= |files|
  {
    var keys := set i | 0 <= i < |files| :: ix.checksums[i];
    forall d | d in ix.fileChecksums ensures d in keys {
      var i := LastIndexOf(ix.checksums, d);
      assert ix.checksums[i] == d;
    }
    assert ix.fileChecksums.Keys == keys;
    CardinalityOfImage(ix.checksums);
  }

  lemma {:induction false} CardinalityOfImage(cs: seq<string>)
    ensures |set i | 0 <= i < |cs| :: cs[i]| <= |cs|
    decreases |cs|
  {
    if |cs| > 0 {
      var n := |cs| - 1;
      var init := cs[..n];
      CardinalityOfImage(init);
      var all := set i | 0 <= i < |cs| :: cs[i];
      var front := set i | 0 <= i < n :: init[i];
      assert all == front + {cs[n]} by {
        forall d | d in all ensures d in front + {cs[n]} {
          var i :| 0 <= i < |cs| && cs[i] == d;
          if i < n { assert init[i] == d; }
        }
        forall d | d in front ensures d in all {
          var i :| 0 <= i < n && init[i] == d;
          assert cs[i] == d;
        }
      }
    }
  }

  /** `hex.DecodeString` on a checksum identifier, re-encoded as padded base64:
      the `content-md5` header (RFC 1864) sent with each uploaded file. A
      malformed identifier contributes only the bytes decoded before the first
      bad digit. */
  function ContentMd5(checksumId: string): string
  {
    Base64.Encode(Hex.DecodeString(checksumId).bytes)
  }

  /** The header is the base64 form of the identifier's hex-decoded bytes:
      decoding it gives exactly those bytes, and it has four characters per
      started group of three bytes. */
  lemma ContentMd5Decodes(checksumId: string)
    ensures Base64.Decode(ContentMd5(checksumId)) == Some(Hex.DecodeString(checksumId).bytes)
    ensures |ContentMd5(checksumId)| == 4 * ((|Hex.DecodeString(checksumId).bytes| + 2) / 3)
  {
    Base64.DecodeEncode(Hex.DecodeString(checksumId).bytes);
  }

  /** For a checksum `ComputeMd5` wrote, the header is 24 characters ending in
      "==", and decoding it gives back exactly the 16 digest bytes. */
  lemma ContentMd5OfChecksum(sum: Md5Sum)
    ensures var h := ContentMd5(ComputeMd5(Summed(sum)).hex);
      && |h| == 24
      && h[22] == Base64.Pad && h[23] == Base64.Pad
      && Base64.Decode(h) == Some(sum)
  {
    Hex.DecodeEncode(sum);
    ContentMd5Decodes(ComputeMd5(Summed(sum)).hex);
    Base64.DoublePadding(sum);
  }
}
