# rust-s3-cdn: a Dafny model of the read-through disk cache

The server answers `GET /<key>` from a directory of cached files and falls
back to an S3 bucket. It keeps an in-memory `lru::LruCache` that maps each
key to a cached file path and a content type. This project models the core
of that server and proves properties of the model:

- **`Fs`** (`fs.dfy`, src/fs.rs):
  - the key codec. An object key becomes a file name by turning every `/`
    into `_`. A file name becomes a key by turning every `_` into `/`.
  - `save_stream_to_disk`: create the file, then append chunks until the
    first read or write error.
  - the table that maps a sniffed MIME string to a content type.
- **`Lru`** (`lru.dfy`): the observable behaviour of `lru::LruCache`.
  - The state is a recency order over distinct keys, least recently used
    first, plus the map from key to entry.
  - The operations are `get` (promotes the key), `put` (updates or inserts
    the key as MRU, evicting the LRU key when a new key meets a full cache),
    `pop_lru` and `len`.
  - `LruCache` is a class whose methods update that state in place.
- **`App`** (`main.dfy`, src/main.rs):
  - `AppState::add_to_cache`. When `len == cap` it pops the LRU entry and
    deletes that entry's file. A failed deletion returns early, before the
    `put`. Otherwise it `put`s the new entry.
  - the whole-body `index` handler: normalise `\` to `/`, look up the key,
    serve the file if it can be read, otherwise fetch, save, register, and
    read the file back.
- **`GetObject`** (`get_object.dfy`, src/routes/get_object.rs): the
  streaming `index` handler.
  - A hit whose file opens is served with the file's size.
  - Otherwise the object is fetched and the destination file is created.
  - The spawned loop writes each chunk to the file and only then sends it
    to the client. It stops at the first read error, write error or failed
    send.
  - The key is registered whatever became of the stream.
- **`Types`** (`types.dfy`): bytes, chunk reads, outcomes, statuses, content
  types and the object store's answer.

Each operation is written twice. A pure function over values (`CacheGet`,
`AddToCacheEffect`, `IndexEffect`, ...) carries the lemmas. The class
methods and loops that mirror the source are proved equal to that function.

These inputs are passed in as parameters:

- the disk: a map from `CachePath` (the cache directory plus one file name)
  to bytes.
- the object store's answer (`S3Result`): the chunk stream, the content
  type and the declared length, or an error.
- the outcomes of individual I/O calls (`Io`): reading, metadata, creating,
  per-chunk writing and sending, deleting, reading back.
- the cache directory and the capacity, which the source reads from
  `CACHE_DIR` and `CACHE_CAPACITY`.

### Behaviour of the code worth knowing

- Eviction fires whenever `len == cap`, even when the key is already
  cached. Re-inserting a cached key into a full cache can therefore shrink
  it to `cap - 1` (`App.ReinsertIntoFullCacheShrinks`).
- A failed deletion of the evicted file makes `add_to_cache` return `Err`
  before the `put`. The popped entry stays removed and the new key is not
  inserted (`App.FailedRemovalDropsNewEntry`). Both handlers call `.expect`
  on that result, so the request panics. The model shows this as a
  `Panicked` reply.
- The streaming handler registers the key as soon as the file is created,
  not after the stream completes. A stream that fails part-way leaves a
  registered, truncated file (`GetObject.PartialStreamIsCached`). A client
  disconnect stops the disk writes too (`GetObject.DisconnectTruncatesFile`).
- Nothing rebuilds the cache from the directory at start-up, and every
  lookup goes through `get`, which promotes the key.
  `generate_key_from_filename` is modelled, but nothing in src/main.rs or
  src/routes/get_object.rs calls it.
- The encoding is not injective. `a/b` and `a_b` share a file
  (`Fs.EncodingNotInjective`, `Fs.SameFileIff`). So an eviction can delete
  the file just written for a different key
  (`GetObject.CollidingEvictionDeletesFreshFile`, `GetObject.CollidingKeysExist`).
- With capacity one, a cached key whose file cannot be read evicts itself.
  Its fresh file is deleted and the read-back in src/main.rs then panics
  (`App.IndexSelfEviction`).

## Model

| member | source | states |
|---|---|---|
| `Fs.Replace` | src/fs.rs:23 | one-character `replace`: same length, every occurrence of the pattern becomes the replacement, every other character is kept |
| `Fs.GenerateFilePath` | src/fs.rs:22-27 | the path is the cache directory with one name pushed onto it (a file directly in it for a non-empty key); its name has the key's length and no `/`; `/` became `_` and all other characters are kept |
| `Fs.GenerateKeyFromFilename` | src/fs.rs:31-33 | the key has the name's length and no `_`; `_` became `/` and all other characters are kept |
| `Fs.ReplaceUndone` | src/fs.rs:23 | replacing back undoes a replacement when the replacement character was absent from the input |
| `Fs.ReplaceIdempotent` | src/fs.rs:32 | replacing twice equals replacing once |
| `Fs.KeyRoundTrip` | src/fs.rs:22-33 | decoding the file name of a key with no `_` gives the key back |
| `Fs.FilenameRoundTrip` | src/fs.rs:22-33 | encoding the key of a file name with no `/` gives that file name back, in the cache directory |
| `Fs.CodecIdempotent` | src/fs.rs:22-33 | encoding an encoded name, or decoding a decoded key, changes nothing |
| `Fs.SameFileIff` | src/fs.rs:23 | two keys map to the same file iff they have equal length and differ only by swapping `/` and `_` |
| `Fs.EncodingNotInjective` | src/fs.rs:22-33 | `a/b` and `a_b` are different keys with the same file `a_b`, which decodes to `a/b` |
| `Fs.DetermineContentType` | src/fs.rs:43-56 | the result is `Binary` iff nothing was inferred or the MIME string is not one of the seven; otherwise it is the entry whose MIME string was inferred |
| `Fs.DetermineContentTypeInverts` | src/fs.rs:44-51 | each of the seven entries is the result for its own MIME string |
| `Fs.FirstFailureFrom` | src/fs.rs:14-17 | from a start index: every chunk before the result was read and written; the chunk at the result (if any) failed |
| `Fs.FirstFailure` | src/fs.rs:14-17 | the index of the first chunk whose read or write fails, or the stream length |
| `Fs.FirstFailureUnique` | src/fs.rs:14-17 | the first failure is the only index with those two properties |
| `Fs.SaveStream` | src/fs.rs:11-20 | create failure: `Err` and the disk unchanged; otherwise only that file is (re)created; the result is `Ok` iff every chunk was read and written, and then the file holds all chunks in order |
| `Fs.SaveStopsAtFirstError` | src/fs.rs:14-17 | at the first failing chunk the result is `Err` and the file holds exactly the chunks before it |
| `Fs.SaveStreamToDisk` | src/fs.rs:11-20 | the loop's result and disk equal those of `SaveStream` |
| `Fs.RemoveFile` | src/main.rs:31 | `remove_file` succeeds iff the file exists and the call is allowed to; success deletes exactly that file; no file's bytes change; failure leaves the disk unchanged |
| `Lru.Remove` | src/main.rs:55 | removing a key from the recency order: exactly that key goes, distinctness is kept, the length drops by one if the key was present, and a different front key stays in front |
| `Lru.RemoveAt` | src/main.rs:55 | removing a key that occurs once at position `i` cuts out exactly position `i`: all other keys keep their relative order |
| `Lru.Touch` | src/main.rs:55 | an access puts the key at the MRU end, keeps the set of keys (plus the key), and keeps a different LRU key in front |
| `Lru.CacheGet` | src/main.rs:55 | `get` changes no entry and no capacity; it returns `Some` iff the key is present, and then the key's entry, with the key now MRU |
| `Lru.CachePut` | src/main.rs:35 | `put` maps the key to the new value as MRU, keeps the capacity, and returns `Some` iff the key was present, holding the old value |
| `Lru.CachePopLru` | src/main.rs:30 | `pop_lru` returns the front key and its entry and leaves `order[1..]` without that key, or returns `None` and changes nothing |
| `Lru.GetSpec` | src/main.rs:55 | `get` keeps the invariant; a hit returns the entry, changes no entry, and moves the key from its position to the MRU end with all other keys in their order; a miss changes nothing |
| `Lru.PutSpec` | src/main.rs:35 | `put` keeps the invariant and makes the key MRU with the new value. An update returns the old value, keeps the length, and moves the key to the MRU end with the others in order. A new key is appended to a non-full cache, or to a full one after exactly the LRU key is evicted (`order[1..] + [k]`) |
| `Lru.LeastRecentlyUsedStays` | src/main.rs:29-35 | a `get` of any other key, or a `put` of another key that evicts nothing, keeps the same key least recently used, so it stays the next eviction victim |
| `Lru.PopLruSpec` | src/main.rs:30 | `pop_lru` keeps the invariant; on a non-empty cache it removes and returns exactly the LRU key and its entry |
| `Lru.LruCache.constructor` | src/main.rs:100 | a new cache is empty with the given capacity (at least one) and satisfies the invariant |
| `Lru.LruCache.Len` | src/main.rs:29 | `len()` is the number of keys |
| `Lru.LruCache.Get` | src/main.rs:55 | the in-place `get` leaves the state `CacheGet` describes and returns its entry |
| `Lru.LruCache.Put` | src/main.rs:35 | the in-place `put` leaves the state `CachePut` describes |
| `Lru.LruCache.PopLru` | src/main.rs:30 | the in-place `pop_lru` leaves the state `CachePopLru` describes |
| `App.NormaliseKey` | src/main.rs:50 | the key has the path's length and no `\`; `\` became `/` and all other characters are kept |
| `App.NormaliseKeyFixed` | src/main.rs:50 | a path without `\` is used as the key unchanged |
| `App.AddToCacheEffect` | src/main.rs:21-37 | `add_to_cache` keeps the capacity. On `Ok` the key maps to the new entry. On `Err` the disk is unchanged and the cache was full. The only file it can delete is the LRU entry's, and only when the cache is full. No file's bytes change |
| `App.AddKeepsInvariant` | src/main.rs:29-35 | after `add_to_cache`, successful or not, `len <= cap` and the cache invariant hold |
| `App.AddBelowCapacity` | src/main.rs:29-35 | below capacity: `Ok`, the disk is unchanged, the entries are the old ones with the key set to the new entry, and the key is MRU |
| `App.AddAtCapacity` | src/main.rs:29-35 | at capacity the victim is the LRU key. Success (iff its file can be deleted): exactly that file is gone, the victim is gone, and the key maps to the new entry as MRU. Failure: `Err`, the disk is unchanged, and the cache is the popped one without the `put` |
| `App.AddOnSuccess` | src/main.rs:35 | on `Ok` the key maps to `(file_path, content_type)` and is MRU |
| `App.ReinsertIntoFullCacheShrinks` | src/main.rs:29-35 | re-inserting a cached key that is not the LRU key into a full cache evicts the LRU key and leaves `cap - 1` entries |
| `App.FailedRemovalDropsNewEntry` | src/main.rs:31-35 | when the victim's file cannot be deleted the result is `Err`, the new key (if it was new or was the victim) is absent, and `cap - 1` entries remain |
| `App.CapacityOneEviction` | src/main.rs:29-35 | with capacity one, adding `k1` then `k2` leaves only `k2`; `k1`'s file is deleted and `k2`'s stays |
| `App.IndexEffect` | src/main.rs:41-83 | the reply is BadRequest iff the path is not UTF-8; the capacity is kept; a request answered without the object store changes no file and no entry; NotFound comes only from a failed fetch |
| `App.IndexBadRequest` | src/main.rs:45-48 | a path that is not UTF-8 gives BadRequest and changes nothing |
| `App.IndexHit` | src/main.rs:54-58 | a cached key whose file can be read is answered with that file's bytes and the entry's content type. There is no fetch, the disk is unchanged, the entries are unchanged, and the key becomes MRU |
| `App.IndexFetchesIff` | src/main.rs:55-63 | the object store is asked iff the key is not cached or its file cannot be read |
| `App.IndexStoreFailure` | src/main.rs:81 | an object store failure gives NotFound with the disk and the entries unchanged; the cache is what the promoting lookup left |
| `App.IndexSaveFailure` | src/main.rs:68-71 | a failed save gives InternalServerError with no entry added or changed (the cache is what the promoting lookup left); the disk is what the save left |
| `App.IndexSaveRegisters` | src/main.rs:65-79 | after a complete save the invariant holds. Unless the handler panics, the key maps to its file and the store's content type as MRU, and the reply is the whole object |
| `App.IndexSelfEviction` | src/main.rs:74-78 | capacity one, the key cached but unreadable: the saved file is deleted by the eviction, the key is registered again, and the read-back panics |
| `App.AppState.constructor` | src/main.rs:99-102 | the state holds a fresh, empty cache of the given capacity |
| `App.AppState.AddToCache` | src/main.rs:21-37 | the in-place `add_to_cache` leaves the cache and disk, and returns the outcome, that `AddToCacheEffect` describes |
| `App.AppState.Index` | src/main.rs:41-83 | the handler's reply, disk, cache and fetch flag are those of `IndexEffect` |
| `GetObject.SentCount` | src/routes/get_object.rs:100-120 | the number of chunks the loop sends, at most the stream's length; `TeeOrdering` states which chunks these are |
| `GetObject.WrittenCount` | src/routes/get_object.rs:100-120 | the number of chunks the loop writes: the sent ones or one more, at most the stream's length; `TeeOrdering` states which chunks these are |
| `GetObject.TeeOrdering` | src/routes/get_object.rs:100-120 | every sent chunk was read and written first. At most one more chunk is written than sent, and that one's send failed. The loop stops at the first read or write error |
| `GetObject.SentIsPrefixOfWritten` | src/routes/get_object.rs:108-119 | the file holds the bytes sent to the client, followed by at most the one chunk whose send failed |
| `GetObject.TeeComplete` | src/routes/get_object.rs:100-120 | when every read, write and send succeeds, every chunk is written and sent |
| `GetObject.DisconnectTruncatesFile` | src/routes/get_object.rs:116-119 | a failed send at chunk `j` stops the loop: chunks `0..j` are written, chunks `0..j-1` are sent, and nothing after is written |
| `GetObject.TeeLoop` | src/routes/get_object.rs:99-125 | the loop's file bytes and sent chunks are the first `WrittenCount` and `SentCount` chunks |
| `GetObject.IndexEffect` | src/routes/get_object.rs:36-148 | the reply is BadRequest iff the path is not UTF-8; the capacity is kept; a request answered without the object store changes no file and no entry |
| `GetObject.MissEffect` | src/routes/get_object.rs:79-147 | the store is always asked. NotFound happens iff the fetch fails. Every failure leaves the cache and the disk as they were. A streamed reply has the store's length and content type, and the key is registered to its file |
| `GetObject.IndexBadRequest` | src/routes/get_object.rs:40-46 | a path that is not UTF-8 gives BadRequest and changes nothing |
| `GetObject.IndexHit` | src/routes/get_object.rs:53-74 | a hit whose file opens has no fetch, no insertion and an unchanged disk, and the key becomes MRU. The reply streams the file with the entry's content type and the file's on-disk length, or is InternalServerError when the metadata read fails |
| `GetObject.IndexFetchesIff` | src/routes/get_object.rs:53-80 | the object store is asked iff the key is not cached or its file does not open |
| `GetObject.IndexStoreFailure` | src/routes/get_object.rs:143-146 | an object store failure gives NotFound with the disk and the entries unchanged; the cache is what the promoting lookup left |
| `GetObject.IndexCreateFailure` | src/routes/get_object.rs:85-91 | a failed file creation gives InternalServerError with no entry added and the disk unchanged; the cache is what the promoting lookup left |
| `GetObject.IndexRegistersUnconditionally` | src/routes/get_object.rs:99-141 | once the store answered and the file was created, the invariant holds. Unless the handler panics, the key maps to its file as MRU whatever the stream did, and the reply announces the store's declared length and carries the chunks sent. If the file survived the eviction, it holds the chunks written |
| `GetObject.PartialStreamIsCached` | src/routes/get_object.rs:99-131 | a stream of one chunk then a read error leaves the key registered to a file holding only that chunk |
| `GetObject.FetchThenHit` | src/routes/get_object.rs:53-141 | after a fully successful miss that evicts no file of the same name, the next request for the key is a hit with the whole object and no fetch |
| `GetObject.CollidingEvictionDeletesFreshFile` | src/routes/get_object.rs:82-131 | for two different keys with the same file, in a full capacity-one cache holding one of them, fetching the other deletes the file just written. The fetched key stays registered to the missing file, so the next request fetches again |
| `GetObject.CollidingKeysExist` | src/fs.rs:22-27 | `a/b` (its own normal form) and `a_b` are such a pair |
| `GetObject.Index` | src/routes/get_object.rs:36-148 | the handler's reply, disk, cache and fetch flag are those of `IndexEffect` |
| `GetObject.Fetch` | src/routes/get_object.rs:79-146 | the fetch path's reply, disk, cache and fetch flag are those of `MissEffect` |

## Left out

- Concurrency: `tokio::spawn`, the `mpsc` channel and its capacity of 100, and the `Mutex`. Each cache operation is atomic, and the lock being held across file I/O is not modelled.
- GetObject.Fetch: the spawned tee loop is run to completion before `add_to_cache`. In the source they race, and the response stream is consumed later.
- Fs.SaveStream: `save_stream_to_disk` writes through `tokio::fs::File` and drops it without `flush` (src/fs.rs:12-19). That file hands each write to a background thread and reports its failure only at the next call, never for the last chunk, and the read-back at src/main.rs:78 can run before the last write has landed. The model ties `writeOk(i)` to chunk `i`'s own write and treats the file as complete when the call returns, so "the file holds all chunks" (`Fs.SaveStream`) and "the reply is the whole object" (`App.IndexSaveRegisters`) hold only under that idealisation.
- `BufWriter` buffering and `shutdown` (src/routes/get_object.rs:92, 122-124): the model treats each successful `write_all` as having reached the file, so a failed final flush is not modelled.
- A failing `write_all` is modelled as writing nothing of that chunk. A partial write is not modelled.
- Panics from `.expect` are modelled as a `Panicked` reply. What rocket does with a panicking handler is not modelled.
- src/s3.rs is an oracle (`S3Result`). `get_file_from_s3` in src/s3.rs returns `(ByteStream, ContentType)` (src/s3.rs:9), but src/routes/get_object.rs:81 destructures a triple with `content_length`, so the oracle carries a declared length, which src/main.rs ignores. The bucket name is not a parameter: it is folded into the oracle.
- src/routes/head_object.rs is not part of this model. It imports `crate::fs::is_key_cached` (src/routes/head_object.rs:1), which src/fs.rs does not define.
- The rocket `Responder` and header building (src/routes/get_object.rs:21-32), the route macros, and `main()` startup (src/main.rs:85-111) are not modelled. The cache directory (`CACHE_DIR`) and the capacity (`CACHE_CAPACITY`) become parameters, and `S3_BUCKET_NAME` is folded into the object store's answer. The request-time `.expect` panics on an unset `CACHE_DIR` or `S3_BUCKET_NAME` (src/fs.rs:24, src/main.rs:62, src/routes/get_object.rs:79) are not modelled. The capacity is at least one, as `NonZeroUsize` requires.
- Magic-byte sniffing (`infer` and the 10-byte read, src/fs.rs:37-43) is an input (`Option<string>`). Only the MIME table is modelled.
- `lru` crate internals: only its observable `get`/`put`/`pop_lru`/`len` behaviour is modelled.
- Fs.GenerateFilePath: for the empty key (a request to `/`), `PathBuf::push("")` gives the cache directory itself (src/fs.rs:25-26), on which `File::create` always fails. The model treats `CachePath(dir, "")` as an ordinary file that `createOk` may allow, so this case is covered only by the free oracle.
- Paths are a pair (directory, file name), not an OS path string. Opening or reading succeeds when the file is in the map and the oracle allows it. `remove_file` succeeds when the file is in the map and the oracle allows it.
- Content types parsed from the store's header are `Other(mime)`. `Other("image/jpeg")` is not identified with `Jpeg`.
- `m.len() as usize` is modelled without truncation, as on 64-bit targets.
- Debug prints and `eprintln!` logging are not modelled.
