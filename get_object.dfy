/** The streaming request handler of src/routes/get_object.rs: a cached key
    whose file opens is streamed from disk; otherwise the object is fetched,
    and a loop writes each chunk to the new cache file and then forwards it
    to the client, while the key is registered in the cache. */
module GetObject {
  import opened Types
  import opened Fs
  import opened Lru
  import App

  /** Chunk `i` may be forwarded: its write and its send both succeed. */
  function WrittenAndSent(writeOk: nat -> bool, sendOk: nat -> bool): nat -> bool
  {
    (i: nat) => writeOk(i) && sendOk(i)
  }

  /** How many chunks the tee loop forwards to the client: those before
      the first read error, write error or failed send. */
  function SentCount(chunks: seq<ChunkRead>, writeOk: nat -> bool, sendOk: nat -> bool): (n: nat)
    ensures n <= |chunks|
  {
    FirstFailure(chunks, WrittenAndSent(writeOk, sendOk))
  }

  /** How many chunks the tee loop writes to the file: the forwarded ones,
      plus the one whose send failed after its write succeeded. */
  function WrittenCount(chunks: seq<ChunkRead>, writeOk: nat -> bool, sendOk: nat -> bool): (n: nat)
    ensures SentCount(chunks, writeOk, sendOk) <= n <= SentCount(chunks, writeOk, sendOk) + 1
    ensures n <= |chunks|
  {
    var s := SentCount(chunks, writeOk, sendOk);
    if s < |chunks| && Stored(chunks, writeOk, s) then s + 1 else s
  }

  /** Write-then-send ordering: every forwarded chunk was written first; the
      written chunks are the sent ones plus at most one more, that one being
      a chunk whose send failed; and the loop stops at the first failure. */
  lemma TeeOrdering(chunks: seq<ChunkRead>, writeOk: nat -> bool, sendOk: nat -> bool)
    ensures var s := SentCount(chunks, writeOk, sendOk);
      var w := WrittenCount(chunks, writeOk, sendOk);
      && s <= w <= s + 1 && w <= |chunks|
      && (forall j :: 0 <= j < w ==> Stored(chunks, writeOk, j))
      && (forall j :: 0 <= j < s ==> sendOk(j))
      && (w == s + 1 ==> !sendOk(s))
      && (w == s && s < |chunks| ==> !Stored(chunks, writeOk, s))
  {
    var ok := WrittenAndSent(writeOk, sendOk);
    var s := SentCount(chunks, writeOk, sendOk);
    forall j | 0 <= j < s
      ensures Stored(chunks, writeOk, j) && sendOk(j)
    {
      assert Stored(chunks, ok, j);
    }
    if s < |chunks| {
      assert !Stored(chunks, ok, s);
    }
  }

  /** The bytes the client receives are a prefix of the cached file: the
      file holds them followed by at most the one chunk whose send failed. */
  lemma SentIsPrefixOfWritten(chunks: seq<ChunkRead>, writeOk: nat -> bool, sendOk: nat -> bool)
    ensures var s := SentCount(chunks, writeOk, sendOk);
      var w := WrittenCount(chunks, writeOk, sendOk);
      Concat(chunks[..w]) == Flatten(Payloads(chunks[..s])) + (if w == s then [] else DataOf(chunks[s]))
  {
    var s := SentCount(chunks, writeOk, sendOk);
    var w := WrittenCount(chunks, writeOk, sendOk);
    if w != s {
      ConcatSnoc(chunks, s);
    }
  }

  /** When every read, write and send succeeds, the file and the client
      both get the whole object. */
  lemma TeeComplete(chunks: seq<ChunkRead>, writeOk: nat -> bool, sendOk: nat -> bool)
    requires forall j :: 0 <= j < |chunks| ==> Stored(chunks, writeOk, j) && sendOk(j)
    ensures SentCount(chunks, writeOk, sendOk) == WrittenCount(chunks, writeOk, sendOk) == |chunks|
  {
    var ok := WrittenAndSent(writeOk, sendOk);
    forall j | 0 <= j < |chunks|
      ensures Stored(chunks, ok, j)
    {
      assert Stored(chunks, writeOk, j) && sendOk(j);
    }
    FirstFailureUnique(chunks, ok, |chunks|);
  }

  /** A client that goes away at chunk `j` truncates the cached file: it
      holds chunks 0..j and nothing after, although the stream had more. */
  lemma DisconnectTruncatesFile(chunks: seq<ChunkRead>, writeOk: nat -> bool, sendOk: nat -> bool, j: nat)
    requires j < |chunks|
    requires forall i :: 0 <= i < j ==> Stored(chunks, writeOk, i) && sendOk(i)
    requires Stored(chunks, writeOk, j) && !sendOk(j)
    ensures SentCount(chunks, writeOk, sendOk) == j
    ensures WrittenCount(chunks, writeOk, sendOk) == j + 1
  {
    var ok := WrittenAndSent(writeOk, sendOk);
    forall i | 0 <= i < j
      ensures Stored(chunks, ok, i)
    {
      assert Stored(chunks, writeOk, i) && sendOk(i);
    }
    assert !Stored(chunks, ok, j);
    FirstFailureUnique(chunks, ok, j);
  }

  /** The spawned loop, run to completion: read a chunk, stop on a read
      error; write it, stop on a write error; send it, stop when the client
      is gone. Returns what reached the file and what reached the client. */
  method TeeLoop(chunks: seq<ChunkRead>, writeOk: nat -> bool, sendOk: nat -> bool)
    returns (written: Bytes, sent: seq<Bytes>)
    ensures written == Concat(chunks[..WrittenCount(chunks, writeOk, sendOk)])
    ensures sent == Payloads(chunks[..SentCount(chunks, writeOk, sendOk)])
  {
    ghost var ok := WrittenAndSent(writeOk, sendOk);
    written, sent := [], [];
    var i := 0;
    while i < |chunks|
      invariant i <= |chunks|
      invariant forall j :: 0 <= j < i ==> Stored(chunks, ok, j)
      invariant written == Concat(chunks[..i])
      invariant sent == Payloads(chunks[..i])
    {
      var chunk := chunks[i];
      if chunk.ReadError? || !writeOk(i) {
        FirstFailureUnique(chunks, ok, i);
        return;
      }
      ConcatSnoc(chunks, i);
      written := written + chunk.bytes;
      if !sendOk(i) {
        FirstFailureUnique(chunks, ok, i);
        return;
      }
      assert Payloads(chunks[..i + 1]) == Payloads(chunks[..i]) + [chunk.bytes];
      sent := sent + [chunk.bytes];
      i := i + 1;
    }
    FirstFailureUnique(chunks, ok, i);
  }

  /** The streamed reply: content type, the `Content-Length` it announces,
      and the bytes the client is sent. */
  datatype Reply = Streamed(contentType: ContentType, size: nat, body: Bytes) | Failure(status: Status) | Panicked

  datatype Handled = Handled(cache: Cache, fs: FileSystem, reply: Reply, fetched: bool)

  /** Whether `File::open` of a cached entry's path succeeds. */
  predicate Opens(fs: FileSystem, path: CachePath, io: Io)
  {
    io.readOk && path in fs
  }

  /** What `index` does for a request path (`None` when the path is not
      valid UTF-8). */
  function IndexEffect(c: Cache, fs: FileSystem, dir: string, raw: Option<string>, s3: S3Result, io: Io): (h: Handled)
    ensures h.reply == Failure(BadRequest) <==> raw.None?
    ensures h.cache.cap == c.cap
    ensures !h.fetched ==> h.fs == fs && h.cache.entries == c.entries
    ensures h.fetched ==> raw.Some? && h.reply != Failure(BadRequest)
  {
    match raw
    case None => Handled(c, fs, Failure(BadRequest), false)
    case Some(requested) =>
      var key := App.NormaliseKey(requested);
      var (c1, hit) := CacheGet(c, key);
      if hit.Some? && Opens(fs, hit.value.path, io) then
        if io.metadataOk then
          Handled(c1, fs, Streamed(hit.value.contentType, |fs[hit.value.path]|, fs[hit.value.path]), false)
        else Handled(c1, fs, Failure(InternalServerError), false)
      else MissEffect(c1, fs, dir, key, s3, io)
  }

  /** The fetch path of `index` for `key`, after the lookup: ask the object
      store, create the file, run the tee loop (taken to run to completion
      before the key is registered) and register the key. */
  function MissEffect(c: Cache, fs: FileSystem, dir: string, key: Key, s3: S3Result, io: Io): (h: Handled)
    ensures h.fetched && h.cache.cap == c.cap
    ensures h.reply == Failure(NotFound) <==> s3.S3Error?
    ensures h.reply.Failure? ==> h.fs == fs && h.cache == c
    ensures h.reply.Streamed? ==>
              && s3.Fetched? && h.reply.size == s3.contentLength && h.reply.contentType == s3.contentType
              && key in h.cache.entries && h.cache.entries[key] == Entry(GenerateFilePath(dir, key), s3.contentType)
  {
    match s3
    case S3Error => Handled(c, fs, Failure(NotFound), true)
    case Fetched(chunks, contentType, contentLength) =>
      var path := GenerateFilePath(dir, key);
      if !io.createOk then Handled(c, fs, Failure(InternalServerError), true)
      else
        var w := WrittenCount(chunks, io.writeOk, io.sendOk);
        var s := SentCount(chunks, io.writeOk, io.sendOk);
        var fs1 := fs[path := Concat(chunks[..w])];
        var (c2, fs2, added) := App.AddToCacheEffect(c, fs1, key, Entry(path, contentType), io.removeOk);
        if added == Err then Handled(c2, fs2, Panicked, true)
        else Handled(c2, fs2, Streamed(contentType, contentLength, Flatten(Payloads(chunks[..s]))), true)
  }

  /** A path that is not UTF-8 is a bad request, and nothing changes. */
  lemma IndexBadRequest(c: Cache, fs: FileSystem, dir: string, s3: S3Result, io: Io)
    ensures IndexEffect(c, fs, dir, None, s3, io) == Handled(c, fs, Failure(BadRequest), false)
  {
  }

  /** A hit whose file opens is served from disk with the entry's content
      type and the file's length, without asking the object store and
      without inserting anything; the key becomes the most recently used. A
      failed metadata read on such a hit is an internal error instead. */
  lemma IndexHit(c: Cache, fs: FileSystem, dir: string, requested: string, s3: S3Result, io: Io)
    requires Invariant(c)
    requires App.NormaliseKey(requested) in c.entries
    requires Opens(fs, c.entries[App.NormaliseKey(requested)].path, io)
    ensures var key := App.NormaliseKey(requested);
      var e := c.entries[key];
      var h := IndexEffect(c, fs, dir, Some(requested), s3, io);
      && !h.fetched && h.fs == fs
      && h.cache.entries == c.entries && Mru(h.cache) == key
      && (io.metadataOk ==> h.reply == Streamed(e.contentType, |fs[e.path]|, fs[e.path]))
      && (!io.metadataOk ==> h.reply == Failure(InternalServerError))
  {
    var key := App.NormaliseKey(requested);
    GetSpec(c, key);
    var e := c.entries[key];
    var c1 := CacheGet(c, key).0;
    assert IndexEffect(c, fs, dir, Some(requested), s3, io)
        == if io.metadataOk then Handled(c1, fs, Streamed(e.contentType, |fs[e.path]|, fs[e.path]), false)
           else Handled(c1, fs, Failure(InternalServerError), false);
  }

  /** The object store is asked exactly when the request is a UTF-8 path
      and its key is not cached or its file does not open. */
  lemma IndexFetchesIff(c: Cache, fs: FileSystem, dir: string, requested: string, s3: S3Result, io: Io)
    ensures var key := App.NormaliseKey(requested);
      var fetched := IndexEffect(c, fs, dir, Some(requested), s3, io).fetched;
      fetched <==> !(key in c.entries && Opens(fs, c.entries[key].path, io))
  {
  }

  /** An object store failure yields NotFound; the disk is untouched and no
      entry is added or changed: the cache is what the lookup left. */
  lemma IndexStoreFailure(c: Cache, fs: FileSystem, dir: string, requested: string, io: Io)
    requires Invariant(c)
    requires var key := App.NormaliseKey(requested);
      !(key in c.entries && Opens(fs, c.entries[key].path, io))
    ensures var h := IndexEffect(c, fs, dir, Some(requested), S3Error, io);
      && h.reply == Failure(NotFound) && h.fs == fs && h.cache.entries == c.entries
      && h.cache == CacheGet(c, App.NormaliseKey(requested)).0
  {
    GetSpec(c, App.NormaliseKey(requested));
  }

  /** Failing to create the destination file yields an internal error with
      no cache entry added and the disk untouched; the cache is what the
      lookup left. */
  lemma IndexCreateFailure(c: Cache, fs: FileSystem, dir: string, requested: string, s3: S3Result, io: Io)
    requires Invariant(c) && s3.Fetched? && !io.createOk
    requires var key := App.NormaliseKey(requested);
      !(key in c.entries && Opens(fs, c.entries[key].path, io))
    ensures var h := IndexEffect(c, fs, dir, Some(requested), s3, io);
      && h.reply == Failure(InternalServerError) && h.fs == fs && h.cache.entries == c.entries
      && h.cache == CacheGet(c, App.NormaliseKey(requested)).0
  {
    GetSpec(c, App.NormaliseKey(requested));
  }

  /** Once the object store answered and the file was created, the key is
      registered with its file whatever became of the stream (a read error,
      a write error or a client gone): unless evicting a full cache's LRU
      file failed, the key maps to the new file as the most recently used
      entry and the reply announces the object store's declared length.
      The file holds the chunks the loop wrote, unless the eviction deleted
      it because the evicted entry had the same file name. */
  lemma IndexRegistersUnconditionally(c: Cache, fs: FileSystem, dir: string, requested: string, s3: S3Result, io: Io)
    requires Invariant(c) && s3.Fetched? && io.createOk
    requires var key := App.NormaliseKey(requested);
      !(key in c.entries && Opens(fs, c.entries[key].path, io))
    ensures var key := App.NormaliseKey(requested);
      var path := GenerateFilePath(dir, key);
      var h := IndexEffect(c, fs, dir, Some(requested), s3, io);
      && h.fetched && Invariant(h.cache)
      && (h.reply != Panicked ==>
            && key in h.cache.entries && h.cache.entries[key] == Entry(path, s3.contentType)
            && h.cache.order != [] && Mru(h.cache) == key
            && h.reply.Streamed? && h.reply.contentType == s3.contentType
            && h.reply.size == s3.contentLength
            && h.reply.body == Flatten(Payloads(s3.chunks[..SentCount(s3.chunks, io.writeOk, io.sendOk)])))
      && (path in h.fs ==> h.fs[path] == Concat(s3.chunks[..WrittenCount(s3.chunks, io.writeOk, io.sendOk)]))
  {
    var key := App.NormaliseKey(requested);
    GetSpec(c, key);
    var c1 := CacheGet(c, key).0;
    var path := GenerateFilePath(dir, key);
    var fs1 := fs[path := Concat(s3.chunks[..WrittenCount(s3.chunks, io.writeOk, io.sendOk)])];
    App.AddOnSuccess(c1, fs1, key, Entry(path, s3.contentType), io.removeOk);
  }

  /** A stream that fails after a first chunk still leaves a cache entry:
      with room in the cache, the key maps to a file holding only that
      chunk, and the client got only that chunk. */
  lemma PartialStreamIsCached(c: Cache, fs: FileSystem, dir: string, requested: string,
                              first: Bytes, ct: ContentType, len: nat, io: Io)
    requires Invariant(c) && Size(c) < c.cap
    requires App.NormaliseKey(requested) !in c.entries
    requires io.createOk && io.writeOk(0) && io.sendOk(0)
    ensures var key := App.NormaliseKey(requested);
      var path := GenerateFilePath(dir, key);
      var h := IndexEffect(c, fs, dir, Some(requested), Fetched([Data(first), ReadError], ct, len), io);
      && h.cache.entries == c.entries[key := Entry(path, ct)]
      && h.fs == fs[path := first]
      && h.reply == Streamed(ct, len, first)
  {
    var key := App.NormaliseKey(requested);
    var chunks := [Data(first), ReadError];
    ReadErrorAfterFirstChunk(chunks, io);
    ConcatSnoc(chunks, 0);
    assert Flatten([first]) == first by {
      assert [first][..0] == [];
    }
    App.AddBelowCapacity(c, fs[GenerateFilePath(dir, key) := first], key,
                         Entry(GenerateFilePath(dir, key), ct), io.removeOk);
  }

  lemma ReadErrorAfterFirstChunk(chunks: seq<ChunkRead>, io: Io)
    requires |chunks| == 2 && chunks[0].Data? && chunks[1] == ReadError
    requires io.writeOk(0) && io.sendOk(0)
    ensures SentCount(chunks, io.writeOk, io.sendOk) == 1
    ensures WrittenCount(chunks, io.writeOk, io.sendOk) == 1
    ensures Payloads(chunks[..1]) == [chunks[0].bytes]
  {
    var ok := WrittenAndSent(io.writeOk, io.sendOk);
    assert Stored(chunks, ok, 0);
    FirstFailureUnique(chunks, ok, 1);
  }

  /** Fetch-then-hit: after a miss whose stream, writes and sends all
      succeed, and whose eviction (if any) does not hit the new file, the
      next request for the key is served from the cache with the whole
      object and without another fetch. */
  lemma FetchThenHit(c: Cache, fs: FileSystem, dir: string, requested: string, s3: S3Result, io: Io,
                     s3Again: S3Result, ioAgain: Io)
    requires Invariant(c) && s3.Fetched? && io.createOk && io.removeOk
    requires App.NormaliseKey(requested) !in c.entries
    requires forall j :: 0 <= j < |s3.chunks| ==> Stored(s3.chunks, io.writeOk, j) && io.sendOk(j)
    requires forall k :: k in c.entries ==> c.entries[k].path in fs
    requires forall k :: k in c.entries ==> c.entries[k].path != GenerateFilePath(dir, App.NormaliseKey(requested))
    requires ioAgain.readOk && ioAgain.metadataOk
    ensures var h := IndexEffect(c, fs, dir, Some(requested), s3, io);
      var again := IndexEffect(h.cache, h.fs, dir, Some(requested), s3Again, ioAgain);
      && h.fetched && !again.fetched
      && again.reply == Streamed(s3.contentType, |Concat(s3.chunks)|, Concat(s3.chunks))
  {
    var key := App.NormaliseKey(requested);
    var path := GenerateFilePath(dir, key);
    TeeComplete(s3.chunks, io.writeOk, io.sendOk);
    assert s3.chunks[..|s3.chunks|] == s3.chunks;
    var fs1 := fs[path := Concat(s3.chunks)];
    var e := Entry(path, s3.contentType);
    var h := IndexEffect(c, fs, dir, Some(requested), s3, io);
    if Size(c) == c.cap {
      App.AddAtCapacity(c, fs1, key, e, io.removeOk);
      assert c.order[0] in c.entries;
    } else {
      App.AddBelowCapacity(c, fs1, key, e, io.removeOk);
    }
    assert h.cache.entries[key] == e && path in h.fs && h.fs[path] == Concat(s3.chunks);
    App.AddKeepsInvariant(c, fs1, key, e, io.removeOk);
    IndexHit(h.cache, h.fs, dir, requested, s3Again, ioAgain);
  }

  /** Two keys can share a file (as "a/b" and "a_b" do): fetching one into
      a full cache of capacity one that holds the other evicts the other
      and deletes the file just written for the fetched key, which stays
      registered pointing at a file that no longer exists, so the next
      request for it fetches again. */
  lemma CollidingEvictionDeletesFreshFile(fs: FileSystem, dir: string, requested: string, other: Key,
                                          ct: ContentType, s3: S3Result, io: Io, s3Again: S3Result, ioAgain: Io)
    requires s3.Fetched? && io.createOk && io.removeOk
    requires var key := App.NormaliseKey(requested);
      key != other && GenerateFilePath(dir, key) == GenerateFilePath(dir, other)
    ensures var key := App.NormaliseKey(requested);
      var path := GenerateFilePath(dir, key);
      var c := Cache([other], map[other := Entry(path, ct)], 1);
      var h := IndexEffect(c, fs, dir, Some(requested), s3, io);
      var again := IndexEffect(h.cache, h.fs, dir, Some(requested), s3Again, ioAgain);
      && h.reply.Streamed?
      && h.cache.entries == map[key := Entry(path, s3.contentType)]
      && path !in h.fs
      && again.fetched
  {
    var key := App.NormaliseKey(requested);
    var path := GenerateFilePath(dir, key);
    var c := Cache([other], map[other := Entry(path, ct)], 1);
    var w := WrittenCount(s3.chunks, io.writeOk, io.sendOk);
    var fs1 := fs[path := Concat(s3.chunks[..w])];
    var e := Entry(path, s3.contentType);
    assert CacheGet(c, key) == (c, None);
    var (c2, fs2, added) := App.AddToCacheEffect(c, fs1, key, e, io.removeOk);
    assert CachePopLru(c).0 == Cache([], map[], 1);
    assert c2 == Cache([key], map[key := e], 1);
    assert fs2 == fs1 - {path} && added == Ok;
    assert IndexEffect(c, fs, dir, Some(requested), s3, io) == MissEffect(c, fs, dir, key, s3, io);
    assert !Opens(fs2, path, ioAgain);
  }

  /** "a/b" and "a_b" are such a pair. */
  lemma CollidingKeysExist(dir: string)
    ensures App.NormaliseKey("a/b") == "a/b" != "a_b"
    ensures GenerateFilePath(dir, "a/b") == GenerateFilePath(dir, "a_b")
  {
    EncodingNotInjective(dir);
    App.NormaliseKeyFixed("a/b");
  }

  /** `index` in src/routes/get_object.rs, for a state whose cache is `state.cache`. */
  method Index(state: App.AppState, dir: string, raw: Option<string>, fs: FileSystem, s3: S3Result, io: Io)
    returns (reply: Reply, fs': FileSystem, fetched: bool)
    requires state.Valid()
    modifies state.cache
    ensures state.Valid()
    ensures Handled(state.cache.View(), fs', reply, fetched)
         == IndexEffect(old(state.cache.View()), fs, dir, raw, s3, io)
  {
    if raw.None? {
      return Failure(BadRequest), fs, false;
    }
    var key := App.NormaliseKey(raw.value);
    var hit := state.cache.Get(key);
    if hit.Some? && io.readOk && hit.value.path in fs {
      if !io.metadataOk {
        return Failure(InternalServerError), fs, false;
      }
      var size := |fs[hit.value.path]|;
      return Streamed(hit.value.contentType, size, fs[hit.value.path]), fs, false;
    }
    reply, fs', fetched := Fetch(state, dir, key, fs, s3, io);
  }

  /** The fetch path of `index`: the object store call, the file creation,
      the tee loop and the registration in the cache. */
  method Fetch(state: App.AppState, dir: string, key: Key, fs: FileSystem, s3: S3Result, io: Io)
    returns (reply: Reply, fs': FileSystem, fetched: bool)
    requires state.Valid()
    modifies state.cache
    ensures state.Valid()
    ensures Handled(state.cache.View(), fs', reply, fetched)
         == MissEffect(old(state.cache.View()), fs, dir, key, s3, io)
  {
    fs', fetched := fs, true;
    if s3.S3Error? {
      return Failure(NotFound), fs', fetched;
    }
    var path := GenerateFilePath(dir, key);
    if !io.createOk {
      return Failure(InternalServerError), fs', fetched;
    }
    fs' := fs'[path := []];
    var written, sent := TeeLoop(s3.chunks, io.writeOk, io.sendOk);
    assert fs'[path := written] == fs[path := written];
    fs' := fs'[path := written];
    var added;
    added, fs' := state.AddToCache(key, path, s3.contentType, fs', io.removeOk);
    if added == Err {
      return Panicked, fs', fetched;
    }
    reply := Streamed(s3.contentType, s3.contentLength, Flatten(sent));
  }
}
