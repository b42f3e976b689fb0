/** The file-system helpers of the cache (src/fs.rs): the key codec that
    flattens an object key into a file name under the cache directory, the
    loop that saves a byte stream to a file, and the table that turns a
    sniffed MIME string into a content type. */
module Fs {
  import opened Types

  /** A file inside the cache directory: `PathBuf::from(dir)` with one
      component pushed onto it. */
  datatype CachePath = CachePath(dir: string, name: string)

  /** The disk, as far as the cache sees it: the files it can open and their bytes. */
  type FileSystem = map<CachePath, Bytes>

  /** Outcomes of the I/O calls the request handlers make that the model
      does not decide from the file system alone. A call listed here
      succeeds exactly when its flag (or, per chunk, its predicate) holds,
      together with the file system conditions named where it is used. */
  datatype Io = Io(
    readOk: bool,            // opening / reading an existing cached file
    metadataOk: bool,        // reading a cached file's metadata
    createOk: bool,          // creating the destination file
    writeOk: nat -> bool,    // writing chunk i to the destination file
    sendOk: nat -> bool,     // sending chunk i to the client
    removeOk: bool,          // deleting an evicted entry's file
    rereadOk: bool)          // reading the freshly saved file back

  /** `s.replace(from, to)` for one-character patterns: every `from` becomes `to`. */
  function Replace(s: string, from: char, to: char): (r: string)
    ensures |r| == |s|
    ensures forall i :: 0 <= i < |s| ==> r[i] == (if s[i] == from then to else s[i])
  {
    if s == [] then [] else [if s[0] == from then to else s[0]] + Replace(s[1..], from, to)
  }

  /** The cache file of an object key: every `/` of the key becomes `_`,
      and the result is one component directly below the cache directory. */
  function GenerateFilePath(dir: string, key: string): (p: CachePath)
    ensures p.dir == dir
    ensures |p.name| == |key| && '/' !in p.name
    ensures forall i :: 0 <= i < |key| && key[i] != '/' ==> p.name[i] == key[i]
    ensures forall i :: 0 <= i < |key| && key[i] == '/' ==> p.name[i] == '_'
  {
    CachePath(dir, Replace(key, '/', '_'))
  }

  /** The object key a cache file name stands for: every `_` becomes `/`. */
  function GenerateKeyFromFilename(filename: string): (key: string)
    ensures |key| == |filename| && '_' !in key
    ensures forall i :: 0 <= i < |filename| && filename[i] != '_' ==> key[i] == filename[i]
    ensures forall i :: 0 <= i < |filename| && filename[i] == '_' ==> key[i] == '/'
  {
    Replace(filename, '_', '/')
  }

  /** Replacing `to` back by `from` undoes the replacement whenever `to`
      was absent from the input. */
  lemma {:induction false} ReplaceUndone(s: string, from: char, to: char)
    requires to !in s
    ensures Replace(Replace(s, from, to), to, from) == s
  {
    if s != [] {
      ReplaceUndone(s[1..], from, to);
    }
  }

  /** A second replacement changes nothing: the pattern no longer occurs. */
  lemma {:induction false} ReplaceIdempotent(s: string, from: char, to: char)
    ensures Replace(Replace(s, from, to), from, to) == Replace(s, from, to)
  {
    if s != [] {
      ReplaceIdempotent(s[1..], from, to);
    }
  }

  /** Decoding the file name of a key with no `_` gives the key back. */
  lemma KeyRoundTrip(dir: string, key: string)
    requires '_' !in key
    ensures GenerateKeyFromFilename(GenerateFilePath(dir, key).name) == key
  {
    ReplaceUndone(key, '/', '_');
  }

  /** Encoding the key of a file name with no `/` gives the file name back. */
  lemma FilenameRoundTrip(dir: string, filename: string)
    requires '/' !in filename
    ensures GenerateFilePath(dir, GenerateKeyFromFilename(filename)) == CachePath(dir, filename)
  {
    ReplaceUndone(filename, '_', '/');
  }

  /** Encoding an encoded name again, or decoding a decoded key again, is a no-op. */
  lemma CodecIdempotent(dir: string, key: string, filename: string)
    ensures GenerateFilePath(dir, GenerateFilePath(dir, key).name) == GenerateFilePath(dir, key)
    ensures GenerateKeyFromFilename(GenerateKeyFromFilename(filename)) == GenerateKeyFromFilename(filename)
  {
    ReplaceIdempotent(key, '/', '_');
    ReplaceIdempotent(filename, '_', '/');
  }

  /** Characters the encoding cannot tell apart. */
  predicate SameAfterEncoding(a: char, b: char)
  {
    a == b || ((a == '/' || a == '_') && (b == '/' || b == '_'))
  }

  /** Two keys share a cache file exactly when they have the same length and
      differ only by swapping `/` and `_`. */
  lemma SameFileIff(dir: string, k1: string, k2: string)
    ensures GenerateFilePath(dir, k1) == GenerateFilePath(dir, k2)
        <==> |k1| == |k2| && forall i :: 0 <= i < |k1| ==> SameAfterEncoding(k1[i], k2[i])
  {
    var n1, n2 := GenerateFilePath(dir, k1).name, GenerateFilePath(dir, k2).name;
    if |k1| == |k2| && forall i :: 0 <= i < |k1| ==> SameAfterEncoding(k1[i], k2[i]) {
      assert forall i :: 0 <= i < |n1| ==> n1[i] == n2[i];
    }
    if n1 == n2 {
      forall i | 0 <= i < |k1|
        ensures SameAfterEncoding(k1[i], k2[i])
      {
        assert n1[i] == n2[i];
      }
    }
  }

  /** The encoding is not injective: "a/b" and "a_b" share one file, whose
      name decodes to "a/b". */
  lemma EncodingNotInjective(dir: string)
    ensures "a/b" != "a_b"
    ensures GenerateFilePath(dir, "a/b") == GenerateFilePath(dir, "a_b") == CachePath(dir, "a_b")
    ensures GenerateKeyFromFilename(GenerateFilePath(dir, "a_b").name) == "a/b"
  {
    var p := GenerateFilePath(dir, "a/b");
    assert p.name[0] == 'a' && p.name[1] == '_' && p.name[2] == 'b';
    var q := GenerateFilePath(dir, "a_b");
    assert q.name[0] == 'a' && q.name[1] == '_' && q.name[2] == 'b';
    var k := GenerateKeyFromFilename("a_b");
    assert k[0] == 'a' && k[1] == '/' && k[2] == 'b';
  }

  /** The MIME strings the sniffing table recognises. */
  const KnownMimes: seq<string> :=
    ["image/jpeg", "image/png", "image/webp", "image/tiff", "video/mp4", "video/mpeg", "image/gif"]

  /** The MIME string of one of the seven table entries. */
  function MimeOf(ct: ContentType): Option<string>
  {
    match ct
    case Jpeg => Some("image/jpeg")
    case Png => Some("image/png")
    case Webp => Some("image/webp")
    case Tiff => Some("image/tiff")
    case Mp4 => Some("video/mp4")
    case Mpeg => Some("video/mpeg")
    case Gif => Some("image/gif")
    case _ => None
  }

  /** The content type of a cached file from the MIME string sniffed from
      its leading bytes (`None` when nothing was recognised). */
  function DetermineContentType(inferred: Option<string>): (ct: ContentType)
    ensures ct == Binary <==> inferred.None? || inferred.value !in KnownMimes
    ensures ct != Binary ==> MimeOf(ct) == inferred
    ensures !ct.Other?
  {
    match inferred
    case None => Binary
    case Some(mime) =>
      if mime == "image/jpeg" then Jpeg
      else if mime == "image/png" then Png
      else if mime == "image/webp" then Webp
      else if mime == "image/tiff" then Tiff
      else if mime == "video/mp4" then Mp4
      else if mime == "video/mpeg" then Mpeg
      else if mime == "image/gif" then Gif
      else Binary
  }

  /** Every table entry is reached from its own MIME string. */
  lemma DetermineContentTypeInverts(ct: ContentType)
    requires MimeOf(ct).Some?
    ensures DetermineContentType(MimeOf(ct)) == ct
  {
  }

  /** Chunk `i` was read and its write succeeded. */
  predicate Stored(chunks: seq<ChunkRead>, ok: nat -> bool, i: nat)
    requires i < |chunks|
  {
    chunks[i].Data? && ok(i)
  }

  /** The index of the first chunk that fails, reading or writing, at or
      after `from`; the length of the stream when none does. */
  function FirstFailureFrom(chunks: seq<ChunkRead>, ok: nat -> bool, from: nat): (n: nat)
    requires from <= |chunks|
    ensures from <= n <= |chunks|
    ensures forall j :: from <= j < n ==> Stored(chunks, ok, j)
    ensures n < |chunks| ==> !Stored(chunks, ok, n)
    decreases |chunks| - from
  {
    if from == |chunks| || !Stored(chunks, ok, from) then from
    else FirstFailureFrom(chunks, ok, from + 1)
  }

  /** The index of the first chunk whose read or write fails. */
  function FirstFailure(chunks: seq<ChunkRead>, ok: nat -> bool): (n: nat)
    ensures n <= |chunks|
    ensures forall j :: 0 <= j < n ==> Stored(chunks, ok, j)
    ensures n < |chunks| ==> !Stored(chunks, ok, n)
  {
    FirstFailureFrom(chunks, ok, 0)
  }

  /** The first failure is the only index with those two properties. */
  lemma FirstFailureUnique(chunks: seq<ChunkRead>, ok: nat -> bool, n: nat)
    requires n <= |chunks|
    requires forall j :: 0 <= j < n ==> Stored(chunks, ok, j)
    requires n < |chunks| ==> !Stored(chunks, ok, n)
    ensures FirstFailure(chunks, ok) == n
  {
  }

  /** What `save_stream_to_disk` returns and leaves on disk: the file is
      created empty, then each chunk is appended until the first read or
      write error. */
  function SaveStream(fs: FileSystem, path: CachePath, createOk: bool,
                      chunks: seq<ChunkRead>, writeOk: nat -> bool): (r: (Outcome, FileSystem))
    ensures !createOk ==> r == (Err, fs)
    ensures createOk ==> r.1.Keys == fs.Keys + {path}
    ensures createOk ==> forall p :: p in fs && p != path ==> r.1[p] == fs[p]
    ensures createOk ==> (r.0 == Ok <==> forall j :: 0 <= j < |chunks| ==> Stored(chunks, writeOk, j))
    ensures createOk && r.0 == Ok ==> r.1[path] == Concat(chunks)
  {
    if !createOk then (Err, fs)
    else
      var n := FirstFailure(chunks, writeOk);
      assert n == |chunks| ==> chunks[..n] == chunks;
      (if n == |chunks| then Ok else Err, fs[path := Concat(chunks[..n])])
  }

  /** At the first failing chunk the save returns an error, and the file
      holds exactly the chunks before it. */
  lemma SaveStopsAtFirstError(fs: FileSystem, path: CachePath, chunks: seq<ChunkRead>,
                              writeOk: nat -> bool, j: nat)
    requires j < |chunks| && !Stored(chunks, writeOk, j)
    requires forall i :: 0 <= i < j ==> Stored(chunks, writeOk, i)
    ensures SaveStream(fs, path, true, chunks, writeOk) == (Err, fs[path := Concat(chunks[..j])])
  {
    FirstFailureUnique(chunks, writeOk, j);
  }

  /** `save_stream_to_disk`: create the file, then append chunk after chunk,
      returning at the first read or write error. */
  method SaveStreamToDisk(fs: FileSystem, path: CachePath, createOk: bool,
                          chunks: seq<ChunkRead>, writeOk: nat -> bool)
    returns (res: Outcome, fs': FileSystem)
    ensures (res, fs') == SaveStream(fs, path, createOk, chunks, writeOk)
  {
    if !createOk {
      return Err, fs;
    }
    fs' := fs[path := []];
    var i := 0;
    while i < |chunks|
      invariant i <= |chunks|
      invariant forall j :: 0 <= j < i ==> Stored(chunks, writeOk, j)
      invariant fs' == fs[path := Concat(chunks[..i])]
    {
      var chunk := chunks[i];
      if chunk.ReadError? || !writeOk(i) {
        FirstFailureUnique(chunks, writeOk, i);
        return Err, fs';
      }
      ConcatSnoc(chunks, i);
      fs' := fs'[path := fs'[path] + chunk.bytes];
      i := i + 1;
    }
    FirstFailureUnique(chunks, writeOk, i);
    assert chunks[..i] == chunks;
    res := Ok;
  }

  /** `remove_file`: deletes an existing file unless the I/O layer refuses. */
  function RemoveFile(fs: FileSystem, path: CachePath, ok: bool): (r: (FileSystem, Outcome))
    ensures r.1 == Ok <==> ok && path in fs
    ensures r.1 == Ok ==> path !in r.0 && forall p :: p != path ==> (p in r.0 <==> p in fs)
    ensures forall p :: p in r.0 ==> p in fs && r.0[p] == fs[p]
    ensures r.1 == Err ==> r.0 == fs
  {
    if ok && path in fs then (fs - {path}, Ok) else (fs, Err)
  }
}
