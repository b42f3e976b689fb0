/** The server state and the whole-body request handler of src/main.rs:
    `AppState::add_to_cache`, which evicts the least recently used entry
    and deletes its file when the cache is full before inserting, and
    `index`, which serves a cached file or fetches the object, saves it and
    registers it. */
module App {
  import opened Types
  import opened Fs
  import opened Lru

  /** The key a request path stands for: every `\` becomes `/`. */
  function NormaliseKey(key: string): (r: string)
    ensures |r| == |key| && '\\' !in r
    ensures forall i :: 0 <= i < |key| && key[i] != '\\' ==> r[i] == key[i]
    ensures forall i :: 0 <= i < |key| && key[i] == '\\' ==> r[i] == '/'
  {
    Replace(key, '\\', '/')
  }

  /** A key without `\` is its own normal form. */
  lemma NormaliseKeyFixed(key: string)
    requires '\\' !in key
    ensures NormaliseKey(key) == key
  {
  }

  /** What `add_to_cache(key, e.path, e.contentType)` leaves behind: the
      cache, the disk and the outcome. When the cache is full, whether or
      not `key` is already present, the LRU entry is popped and its file
      removed; a failed removal returns at once, before the `put`. */
  function AddToCacheEffect(c: Cache, fs: FileSystem, key: Key, e: Entry, removeOk: bool)
    : (r: (Cache, FileSystem, Outcome))
    ensures r.0.cap == c.cap
    ensures r.2 == Ok ==> key in r.0.entries && r.0.entries[key] == e
    ensures r.2 == Err ==> r.1 == fs && Size(c) == c.cap
    ensures forall p :: p in r.1 ==> p in fs && r.1[p] == fs[p]
    ensures r.1 != fs ==> Size(c) == c.cap && c.order != [] && c.order[0] in c.entries
                          && r.1 == fs - {c.entries[c.order[0]].path}
  {
    if Size(c) == c.cap then
      var (c1, popped) := CachePopLru(c);
      if popped.Some? then
        var (fs1, removed) := RemoveFile(fs, popped.value.1.path, removeOk);
        if removed == Err then (c1, fs1, Err)
        else (CachePut(c1, key, e).0, fs1, Ok)
      else (CachePut(c1, key, e).0, fs, Ok)
    else (CachePut(c, key, e).0, fs, Ok)
  }

  /** Whether deleting the file of the LRU entry succeeds. */
  predicate VictimRemovable(c: Cache, fs: FileSystem, removeOk: bool)
    requires c.order != [] && c.order[0] in c.entries
  {
    removeOk && c.entries[c.order[0]].path in fs
  }

  /** `add_to_cache` keeps the capacity bound (and the rest of the cache's
      invariant), whether it succeeds or fails. */
  lemma AddKeepsInvariant(c: Cache, fs: FileSystem, key: Key, e: Entry, removeOk: bool)
    requires Invariant(c)
    ensures Invariant(AddToCacheEffect(c, fs, key, e, removeOk).0)
    ensures Size(AddToCacheEffect(c, fs, key, e, removeOk).0) <= c.cap
  {
    if Size(c) == c.cap {
      PopLruSpec(c);
      PutSpec(CachePopLru(c).0, key, e);
    } else {
      PutSpec(c, key, e);
    }
  }

  /** Below capacity nothing is evicted and no file is touched: the key maps
      to the new entry, is the most recently used, and every other entry
      keeps its value. */
  lemma AddBelowCapacity(c: Cache, fs: FileSystem, key: Key, e: Entry, removeOk: bool)
    requires Invariant(c) && Size(c) < c.cap
    ensures var (c', fs', res) := AddToCacheEffect(c, fs, key, e, removeOk);
      && res == Ok && fs' == fs
      && c'.entries == c.entries[key := e]
      && Mru(c') == key
  {
    PutSpec(c, key, e);
  }

  /** At capacity the victim is the least recently used key; `remove_file`
      is applied to exactly its path. If that succeeds the victim is gone
      and the key maps to the new entry as the most recently used; if it
      fails the call returns `Err`, the victim stays removed and nothing is
      inserted. */
  lemma AddAtCapacity(c: Cache, fs: FileSystem, key: Key, e: Entry, removeOk: bool)
    requires Invariant(c) && Size(c) == c.cap
    ensures c.order != [] && c.order[0] in c.entries
    ensures var (c', fs', res) := AddToCacheEffect(c, fs, key, e, removeOk);
      var victim := c.order[0];
      var victimPath := c.entries[victim].path;
      && (res == Ok <==> VictimRemovable(c, fs, removeOk))
      && (res == Ok ==>
            && fs' == fs - {victimPath}
            && c'.entries == (c.entries - {victim})[key := e]
            && Mru(c') == key)
      && (res == Err ==>
            && fs' == fs
            && c'.order == c.order[1..]
            && c'.entries == c.entries - {victim})
  {
    PopLruSpec(c);
    var c1 := CachePopLru(c).0;
    PutSpec(c1, key, e);
  }

  /** On success the key maps to the new entry and is the most recently
      used; in every case the invariant, and with it the capacity bound, holds. */
  lemma AddOnSuccess(c: Cache, fs: FileSystem, key: Key, e: Entry, removeOk: bool)
    requires Invariant(c)
    ensures var (c', fs', res) := AddToCacheEffect(c, fs, key, e, removeOk);
      && Invariant(c')
      && (res == Ok ==> key in c'.entries && c'.entries[key] == e && c'.order != [] && Mru(c') == key)
  {
    AddKeepsInvariant(c, fs, key, e, removeOk);
    if Size(c) == c.cap {
      AddAtCapacity(c, fs, key, e, removeOk);
    } else {
      AddBelowCapacity(c, fs, key, e, removeOk);
    }
  }

  /** The eviction check looks only at the length: re-inserting a key that
      is cached, but is not the LRU one, into a full cache still evicts the
      LRU entry, and the cache ends one below capacity. */
  lemma ReinsertIntoFullCacheShrinks(c: Cache, fs: FileSystem, key: Key, e: Entry, removeOk: bool)
    requires Invariant(c) && Size(c) == c.cap
    requires key in c.entries && key != c.order[0]
    requires VictimRemovable(c, fs, removeOk)
    ensures var (c', fs', res) := AddToCacheEffect(c, fs, key, e, removeOk);
      && res == Ok
      && c.order[0] !in c'.entries
      && Size(c') == c.cap - 1
  {
    PopLruSpec(c);
    var c1 := CachePopLru(c).0;
    assert key in c1.entries;
    PutSpec(c1, key, e);
  }

  /** A failed removal loses the new entry: a key that was not cached (or
      was itself the victim) is absent afterwards. */
  lemma FailedRemovalDropsNewEntry(c: Cache, fs: FileSystem, key: Key, e: Entry, removeOk: bool)
    requires Invariant(c) && Size(c) == c.cap
    requires !VictimRemovable(c, fs, removeOk)
    requires key !in c.entries || key == c.order[0]
    ensures var (c', fs', res) := AddToCacheEffect(c, fs, key, e, removeOk);
      res == Err && key !in c'.entries && Size(c') == c.cap - 1
  {
    PopLruSpec(c);
  }

  /** Capacity one: inserting `k2` after `k1` evicts `k1` and deletes its
      file, while `k2`'s file stays. */
  lemma CapacityOneEviction(fs: FileSystem, k1: Key, e1: Entry, k2: Key, e2: Entry)
    requires k1 != k2 && e1.path != e2.path
    requires e1.path in fs && e2.path in fs
    ensures var (c1, fs1, r1) := AddToCacheEffect(Cache([], map[], 1), fs, k1, e1, true);
      var (c2, fs2, r2) := AddToCacheEffect(c1, fs1, k2, e2, true);
      && r1 == Ok && r2 == Ok
      && c2.entries == map[k2 := e2]
      && e1.path !in fs2 && e2.path in fs2
  {
    var (c1, fs1, r1) := AddToCacheEffect(Cache([], map[], 1), fs, k1, e1, true);
    assert c1 == Cache([k1], map[k1 := e1], 1);
  }

  /** The whole-body reply of `index`. */
  datatype Reply = Body(contentType: ContentType, data: Bytes) | Failure(status: Status) | Panicked

  /** The state a request leaves behind, its reply, and whether the object
      store was asked. */
  datatype Handled = Handled(cache: Cache, fs: FileSystem, reply: Reply, fetched: bool)

  /** What `index` does for a request path (`None` when the path is not
      valid UTF-8), given the object store's answer and the I/O outcomes. */
  function IndexEffect(c: Cache, fs: FileSystem, dir: string, raw: Option<string>, s3: S3Result, io: Io): (h: Handled)
    ensures h.reply == Failure(BadRequest) <==> raw.None?
    ensures h.cache.cap == c.cap
    ensures !h.fetched ==> h.fs == fs && h.cache.entries == c.entries
    ensures h.fetched ==> raw.Some? && h.reply != Failure(BadRequest)
    ensures h.reply == Failure(NotFound) ==> h.fetched && s3.S3Error?
  {
    match raw
    case None => Handled(c, fs, Failure(BadRequest), false)
    case Some(requested) =>
      var key := NormaliseKey(requested);
      var (c1, hit) := CacheGet(c, key);
      if hit.Some? && io.readOk && hit.value.path in fs then
        Handled(c1, fs, Body(hit.value.contentType, fs[hit.value.path]), false)
      else
        match s3
        case S3Error => Handled(c1, fs, Failure(NotFound), true)
        case Fetched(chunks, contentType, _) =>
          var path := GenerateFilePath(dir, key);
          var (saved, fs1) := SaveStream(fs, path, io.createOk, chunks, io.writeOk);
          if saved == Err then Handled(c1, fs1, Failure(InternalServerError), true)
          else
            var (c2, fs2, added) := AddToCacheEffect(c1, fs1, key, Entry(path, contentType), io.removeOk);
            if added == Err then Handled(c2, fs2, Panicked, true)
            else if io.rereadOk && path in fs2 then Handled(c2, fs2, Body(contentType, fs2[path]), true)
            else Handled(c2, fs2, Panicked, true)
  }

  /** A path that is not UTF-8 is a bad request, and nothing changes. */
  lemma IndexBadRequest(c: Cache, fs: FileSystem, dir: string, s3: S3Result, io: Io)
    ensures IndexEffect(c, fs, dir, None, s3, io) == Handled(c, fs, Failure(BadRequest), false)
  {
  }

  /** A cached key whose file can be read is served from disk with the
      entry's content type, without asking the object store, and becomes
      the most recently used key; no entry and no file changes. */
  lemma IndexHit(c: Cache, fs: FileSystem, dir: string, requested: string, s3: S3Result, io: Io)
    requires Invariant(c)
    requires NormaliseKey(requested) in c.entries
    requires io.readOk && c.entries[NormaliseKey(requested)].path in fs
    ensures var key := NormaliseKey(requested);
      var e := c.entries[key];
      var h := IndexEffect(c, fs, dir, Some(requested), s3, io);
      && h.reply == Body(e.contentType, fs[e.path])
      && !h.fetched && h.fs == fs
      && h.cache.entries == c.entries && Mru(h.cache) == key
  {
    GetSpec(c, NormaliseKey(requested));
  }

  /** A request is answered without the object store exactly when it is a
      bad request or a readable hit: a cached key whose file cannot be
      read falls through to the fetch. */
  lemma IndexFetchesIff(c: Cache, fs: FileSystem, dir: string, requested: string, s3: S3Result, io: Io)
    ensures var key := NormaliseKey(requested);
      var fetched := IndexEffect(c, fs, dir, Some(requested), s3, io).fetched;
      fetched <==> !(key in c.entries && io.readOk && c.entries[key].path in fs)
  {
  }

  /** When the object store fails the reply is NotFound; the disk is
      untouched and no entry is added or changed: the cache is what the
      lookup left, with its recency update. */
  lemma IndexStoreFailure(c: Cache, fs: FileSystem, dir: string, requested: string, io: Io)
    requires Invariant(c)
    requires var key := NormaliseKey(requested);
      !(key in c.entries && io.readOk && c.entries[key].path in fs)
    ensures var h := IndexEffect(c, fs, dir, Some(requested), S3Error, io);
      && h.reply == Failure(NotFound) && h.fs == fs && h.cache.entries == c.entries
      && h.cache == CacheGet(c, NormaliseKey(requested)).0
  {
    GetSpec(c, NormaliseKey(requested));
  }

  /** When saving the stream fails the reply is InternalServerError and no
      entry is added or changed (the cache is what the lookup left), though
      the partly written file stays on disk. */
  lemma IndexSaveFailure(c: Cache, fs: FileSystem, dir: string, requested: string, s3: S3Result, io: Io)
    requires Invariant(c) && s3.Fetched?
    requires var key := NormaliseKey(requested);
      !(key in c.entries && io.readOk && c.entries[key].path in fs)
    requires SaveStream(fs, GenerateFilePath(dir, NormaliseKey(requested)), io.createOk, s3.chunks, io.writeOk).0 == Err
    ensures var h := IndexEffect(c, fs, dir, Some(requested), s3, io);
      && h.reply == Failure(InternalServerError)
      && h.cache.entries == c.entries
      && h.cache == CacheGet(c, NormaliseKey(requested)).0
      && h.fs == SaveStream(fs, GenerateFilePath(dir, NormaliseKey(requested)), io.createOk, s3.chunks, io.writeOk).1
  {
    GetSpec(c, NormaliseKey(requested));
  }

  /** After a complete save, the key is registered with its file and the
      object store's content type as the most recently used entry, unless
      evicting a full cache's LRU file failed (then the handler panics). */
  lemma IndexSaveRegisters(c: Cache, fs: FileSystem, dir: string, requested: string, s3: S3Result, io: Io)
    requires Invariant(c) && s3.Fetched?
    requires var key := NormaliseKey(requested);
      !(key in c.entries && io.readOk && c.entries[key].path in fs)
    requires SaveStream(fs, GenerateFilePath(dir, NormaliseKey(requested)), io.createOk, s3.chunks, io.writeOk).0 == Ok
    ensures var key := NormaliseKey(requested);
      var h := IndexEffect(c, fs, dir, Some(requested), s3, io);
      && Invariant(h.cache)
      && (h.reply != Panicked ==>
            && key in h.cache.entries && h.cache.entries[key] == Entry(GenerateFilePath(dir, key), s3.contentType)
            && h.cache.order != [] && Mru(h.cache) == key
            && h.reply == Body(s3.contentType, Concat(s3.chunks)))
  {
    var key := NormaliseKey(requested);
    GetSpec(c, key);
    var c1 := CacheGet(c, key).0;
    var path := GenerateFilePath(dir, key);
    var fs1 := SaveStream(fs, path, io.createOk, s3.chunks, io.writeOk).1;
    AddOnSuccess(c1, fs1, key, Entry(path, s3.contentType), io.removeOk);
  }

  /** Capacity one, the key cached but its file unreadable: the fetch saves
      the object, eviction pops the key itself and deletes the file just
      written (both share the key's path), the key is registered again, and
      re-reading the saved file then panics. */
  lemma IndexSelfEviction(fs: FileSystem, dir: string, requested: string, ct: ContentType,
                          s3: S3Result, io: Io)
    requires s3.Fetched? && io.createOk && io.removeOk && !io.readOk
    requires forall j :: 0 <= j < |s3.chunks| ==> Stored(s3.chunks, io.writeOk, j)
    ensures var key := NormaliseKey(requested);
      var path := GenerateFilePath(dir, key);
      var c := Cache([key], map[key := Entry(path, ct)], 1);
      var h := IndexEffect(c, fs, dir, Some(requested), s3, io);
      && h.reply == Panicked
      && path !in h.fs
      && h.cache.entries == map[key := Entry(path, s3.contentType)]
  {
    var key := NormaliseKey(requested);
    var path := GenerateFilePath(dir, key);
    var c := Cache([key], map[key := Entry(path, ct)], 1);
    assert Touch([key], key) == [key];
    assert CacheGet(c, key).0 == c;
  }

  /** The server state: the LRU index behind its mutex. */
  class AppState {
    const cache: LruCache

    ghost predicate Valid()
      reads this, cache
    {
      cache.Valid()
    }

    /** The state `main` builds, for a capacity of at least one. */
    constructor (capacity: nat)
      requires 1 <= capacity
      ensures Valid() && fresh(cache)
      ensures cache.View() == Cache([], map[], capacity)
    {
      cache := new LruCache(capacity);
    }

    /** `add_to_cache`: evict when full (deleting the victim's file, and
        returning early if that fails), then `put`. */
    method AddToCache(key: Key, path: CachePath, contentType: ContentType, fs: FileSystem, removeOk: bool)
      returns (res: Outcome, fs': FileSystem)
      requires Valid()
      modifies cache
      ensures Valid()
      ensures (cache.View(), fs', res) == AddToCacheEffect(old(cache.View()), fs, key, Entry(path, contentType), removeOk)
    {
      fs' := fs;
      var len := cache.Len();
      if len == cache.cap {
        var popped := cache.PopLru();
        if popped.Some? {
          var (_, evicted) := popped.value;
          var (fs1, removed) := RemoveFile(fs, evicted.path, removeOk);
          fs' := fs1;
          if removed == Err {
            return Err, fs';
          }
        }
      }
      var _ := cache.Put(key, Entry(path, contentType));
      res := Ok;
    }

    /** `index` in src/main.rs. */
    method Index(dir: string, raw: Option<string>, fs: FileSystem, s3: S3Result, io: Io)
      returns (reply: Reply, fs': FileSystem, fetched: bool)
      requires Valid()
      modifies cache
      ensures Valid()
      ensures Handled(cache.View(), fs', reply, fetched) == IndexEffect(old(cache.View()), fs, dir, raw, s3, io)
    {
      fs', fetched := fs, false;
      if raw.None? {
        return Failure(BadRequest), fs', fetched;
      }
      var key := NormaliseKey(raw.value);
      var hit := cache.Get(key);
      if hit.Some? && io.readOk && hit.value.path in fs {
        return Body(hit.value.contentType, fs[hit.value.path]), fs', fetched;
      }
      fetched := true;
      if s3.S3Error? {
        return Failure(NotFound), fs', fetched;
      }
      var path := GenerateFilePath(dir, key);
      var saved;
      saved, fs' := SaveStreamToDisk(fs, path, io.createOk, s3.chunks, io.writeOk);
      if saved == Err {
        return Failure(InternalServerError), fs', fetched;
      }
      var added;
      added, fs' := AddToCache(key, path, s3.contentType, fs', io.removeOk);
      if added == Err {
        return Panicked, fs', fetched;
      }
      if io.rereadOk && path in fs' {
        reply := Body(s3.contentType, fs'[path]);
      } else {
        reply := Panicked;
      }
    }
  }
}
