/** Values shared by the cache's components: bytes, chunk reads from a
    stream, outcomes of file operations, HTTP statuses and media types. */
module Types {

  datatype Option<+T> = None | Some(value: T)

  newtype Byte = x: int | 0 <= x < 256

  type Bytes = seq<Byte>

  /** One item of an object's byte stream: a chunk of data, or a read error. */
  datatype ChunkRead = Data(bytes: Bytes) | ReadError

  /** `Result<(), io::Error>` with the error's payload dropped. */
  datatype Outcome = Ok | Err

  /** The HTTP statuses the request handlers return on their error paths. */
  datatype Status = BadRequest | NotFound | InternalServerError

  /** rocket's `ContentType`: the seven constants the sniffing table names,
      `Binary` (application/octet-stream), and any other media type that
      the object store's `Content-Type` header parses to. */
  datatype ContentType = Jpeg | Png | Webp | Tiff | Mp4 | Mpeg | Gif | Binary | Other(mime: string)

  /** What the object store answers to a `get_object` for a key: the body
      as a stream of chunk reads, the content type of the response (already
      defaulted to `Binary` when absent or unparseable) and its declared
      content length; or a failure of the request. */
  datatype S3Result = Fetched(chunks: seq<ChunkRead>, contentType: ContentType, contentLength: nat) | S3Error

  /** The payload of a chunk; a read error carries none. */
  function DataOf(c: ChunkRead): Bytes
  {
    if c.Data? then c.bytes else []
  }

  /** The payloads of the chunks, in stream order. */
  function Payloads(cs: seq<ChunkRead>): (r: seq<Bytes>)
    ensures |r| == |cs|
    ensures forall i :: 0 <= i < |cs| ==> r[i] == DataOf(cs[i])
  {
    seq(|cs|, i requires 0 <= i < |cs| => DataOf(cs[i]))
  }

  /** The bytes of several chunks laid end to end. */
  function Flatten(bs: seq<Bytes>): Bytes
  {
    if bs == [] then [] else Flatten(bs[..|bs| - 1]) + bs[|bs| - 1]
  }

  /** The bytes a file holds after the payloads of `cs` were appended to it, in order. */
  function Concat(cs: seq<ChunkRead>): Bytes
  {
    Flatten(Payloads(cs))
  }

  lemma {:induction false} FlattenAppend(xs: seq<Bytes>, ys: seq<Bytes>)
    ensures Flatten(xs + ys) == Flatten(xs) + Flatten(ys)
    decreases |ys|
  {
    if ys == [] {
      assert xs + ys == xs;
    } else {
      var last := ys[|ys| - 1];
      var init := ys[..|ys| - 1];
      assert (xs + ys)[..|xs + ys| - 1] == xs + init;
      FlattenAppend(xs, init);
      assert Flatten(xs + ys) == Flatten(xs + init) + last;
      assert Flatten(ys) == Flatten(init) + last;
    }
  }

  /** Taking one more chunk appends exactly that chunk's payload. */
  lemma ConcatSnoc(cs: seq<ChunkRead>, i: nat)
    requires i < |cs|
    ensures Concat(cs[..i + 1]) == Concat(cs[..i]) + DataOf(cs[i])
  {
    assert Payloads(cs[..i + 1]) == Payloads(cs[..i]) + [DataOf(cs[i])];
    FlattenAppend(Payloads(cs[..i]), [DataOf(cs[i])]);
    assert Flatten([DataOf(cs[i])]) == DataOf(cs[i]) by {
      assert [DataOf(cs[i])][..0] == [];
    }
  }
}
