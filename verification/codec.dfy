/**
 Staging one file as chunks and reading the chunks back: the compressed
 stream of `processPatchFile` (patchcreation.go), `processBaseFile` (base.go)
 and `add` (patch.go) is cut by `Split`, chunk `i` is stored under
 `ChunkName(hash, i)`, and `write` (restore.go) fetches `AdditionalChunks + 1`
 of them in order and concatenates them.
 */
module Codec {
  import opened Wrappers
  import opened Types
  import opened Chunking
  import opened Storage

  /** The entry for one file together with the chunks to stage for it. */
  datatype Staged = Staged(entry: Entry, chunks: seq<Bytes>)

  /**
   The zlib stream of `content`: after `Flush` in patchcreation.go and base.go,
   or with nothing flushed in patch.go's `add`.
   */
  function Compress(prims: Primitives, flushed: bool, content: Bytes): Bytes {
    if flushed then prims.deflateFlushed(content) else prims.deflateUnflushed(content)
  }

  /**
   Staging one file: the digest of the raw bytes, the compressed stream cut
   into `len / size + 1` chunks, and, when `limited`, the 1024-chunk ceiling.
   A chunk size that is not positive is an error (Go divides by it).
   */
  function StageFile(prims: Primitives, size: int, limited: bool, flushed: bool, path: Path, content: Bytes): (r: Result<Staged, Error>)
    ensures size <= 0 ==> r == Err(InvalidChunkSize(size))
    ensures size > 0 ==>
              (r.Err? <==> limited && |Compress(prims, flushed, content)| / size + 1 > MaxChunks)
    ensures r.Err? && size > 0 ==> r.error == TooManyChunks(path)
    ensures r.Ok? ==> r.value.entry.fileName == path && r.value.entry.hash == prims.sha256Hex(content)
    ensures r.Ok? ==> |r.value.chunks| == r.value.entry.additionalChunks + 1
    ensures r.Ok? ==> limited ==> |r.value.chunks| <= MaxChunks
    ensures r.Ok? ==> Concat(r.value.chunks) == Compress(prims, flushed, content)
    ensures r.Ok? ==> forall i :: 0 <= i < |r.value.chunks| ==> |r.value.chunks[i]| <= size
  {
    var compressed := Compress(prims, flushed, content);
    if size <= 0 then Err(InvalidChunkSize(size))
    else
      var count := ChunkCount(|compressed|, size);
      if limited && count > MaxChunks then Err(TooManyChunks(path))
      else
        var chunks := Split(compressed, size);
        assert |chunks[|chunks| - 1]| == |compressed| % size < size;
        Ok(Staged(Entry(path, prims.sha256Hex(content), count - 1), chunks))
  }

  /** The names chunks `0 .. count - 1` of `hash` are stored under. */
  function NameSet(hash: Hash, count: nat): set<string> {
    set i | 0 <= i < count :: ChunkName(hash, i)
  }

  /** No name occurs twice. */
  predicate Distinct(names: seq<string>) {
    forall i, j :: 0 <= i < j < |names| ==> names[i] != names[j]
  }

  /** Writing each value under its name, in order; with distinct names order does not matter. */
  function WriteAll(store: Store, names: seq<string>, values: seq<Bytes>): (r: Store)
    requires |names| == |values| && Distinct(names)
    ensures forall k :: k in r <==> k in store || k in names
    ensures forall i :: 0 <= i < |names| ==> r[names[i]] == values[i]
    ensures forall k :: k in store && k !in names ==> r[k] == store[k]
    decreases |names|
  {
    if |names| == 0 then store
    else
      var rest := WriteAll(store[names[0] := values[0]], names[1..], values[1..]);
      assert forall k :: k in names <==> k == names[0] || k in names[1..];
      assert forall i :: 0 < i < |names| ==> names[i] == names[1..][i - 1] && values[i] == values[1..][i - 1];
      assert names[0] !in names[1..];
      rest
  }

  /** `os.WriteFile` of every chunk under its name, in index order. */
  function WriteChunks(store: Store, hash: Hash, chunks: seq<Bytes>): (r: Store)
    ensures forall k :: k in r <==> k in store || k in NameSet(hash, |chunks|)
    ensures forall i :: 0 <= i < |chunks| ==> ChunkName(hash, i) in r && r[ChunkName(hash, i)] == chunks[i]
    ensures forall k :: k in store && k !in NameSet(hash, |chunks|) ==> r[k] == store[k]
  {
    var names := ChunkNames(hash, |chunks|);
    forall i, j | 0 <= i < j < |names|
      ensures names[i] != names[j]
    {
      if names[i] == names[j] {
        ChunkNameInjective(hash, i, j);
      }
    }
    assert forall k :: k in names <==> k in NameSet(hash, |chunks|);
    WriteAll(store, names, chunks)
  }

  /**
   The download loop of `write`: chunks `0 .. count - 1` of `hash`, fetched in
   order and appended; the first missing one is a not-found error.
   */
  function FetchChunks(store: Store, hash: Hash, count: nat): (r: Result<Bytes, Error>)
    ensures r.Ok? <==> forall i :: 0 <= i < count ==> ChunkName(hash, i) in store
    ensures r.Ok? ==> r.value == Concat(Pieces(store, hash, count))
    ensures r.Err? ==> exists j :: 0 <= j < count && r.error == NotFound(ChunkName(hash, j))
                                  && ChunkName(hash, j) !in store
                                  && forall i :: 0 <= i < j ==> ChunkName(hash, i) in store
  {
    if count == 0 then Ok([])
    else
      var prefix :- FetchChunks(store, hash, count - 1);
      var name := ChunkName(hash, count - 1);
      if name !in store then Err(NotFound(name))
      else
        assert Pieces(store, hash, count) == Pieces(store, hash, count - 1) + [store[name]];
        ConcatAppend(Pieces(store, hash, count - 1), store[name]);
        Ok(prefix + store[name])
  }

  /** The stored chunks of `hash`, in index order. */
  function Pieces(store: Store, hash: Hash, count: nat): (ps: seq<Bytes>)
    requires forall i :: 0 <= i < count ==> ChunkName(hash, i) in store
    ensures |ps| == count && forall i :: 0 <= i < count ==> ps[i] == store[ChunkName(hash, i)]
  {
    seq(count, i requires 0 <= i < count => store[ChunkName(hash, i)])
  }

  /** The fetch of `hash` reads only the chunk names of `hash`. */
  lemma {:induction false} FetchUnaffected(s1: Store, s2: Store, hash: Hash, count: nat)
    requires forall k :: 0 <= k < count ==> (ChunkName(hash, k) in s1 <==> ChunkName(hash, k) in s2)
    requires forall k :: 0 <= k < count && ChunkName(hash, k) in s1 ==> s1[ChunkName(hash, k)] == s2[ChunkName(hash, k)]
    ensures FetchChunks(s1, hash, count) == FetchChunks(s2, hash, count)
  {
    if count > 0 {
      FetchUnaffected(s1, s2, hash, count - 1);
    }
  }

  /** Writing the chunks of one digest leaves the fetch of another digest of the same length as it was. */
  lemma FetchOther(store: Store, hash: Hash, chunks: seq<Bytes>, other: Hash, count: nat)
    requires |other| == |hash| && other != hash
    ensures FetchChunks(WriteChunks(store, hash, chunks), other, count) == FetchChunks(store, other, count)
  {
    forall k | 0 <= k < count
      ensures ChunkName(other, k) !in NameSet(hash, |chunks|)
    {
      forall m | 0 <= m < |chunks|
        ensures ChunkName(other, k) != ChunkName(hash, m)
      {
        ChunkNamesApart(other, hash, k, m);
      }
    }
    FetchUnaffected(store, WriteChunks(store, hash, chunks), other, count);
  }

  /** How a file is staged does not depend on its path, except for the entry's name. */
  lemma StageFileRenamed(prims: Primitives, size: int, limited: bool, flushed: bool, p: Path, q: Path, content: Bytes)
    requires StageFile(prims, size, limited, flushed, p, content).Ok?
    ensures StageFile(prims, size, limited, flushed, q, content).Ok?
    ensures StageFile(prims, size, limited, flushed, q, content).value.chunks == StageFile(prims, size, limited, flushed, p, content).value.chunks
    ensures StageFile(prims, size, limited, flushed, q, content).value.entry
            == StageFile(prims, size, limited, flushed, p, content).value.entry.(fileName := q)
  {
  }

  /** Fetching what was written gives back the concatenation of the chunks. */
  lemma FetchWritten(store: Store, hash: Hash, chunks: seq<Bytes>)
    ensures FetchChunks(WriteChunks(store, hash, chunks), hash, |chunks|) == Ok(Concat(chunks))
  {
    var w := WriteChunks(store, hash, chunks);
    assert Pieces(w, hash, |chunks|) == chunks;
  }

  /**
   A staged file comes back intact: its chunks, fetched by the entry's digest
   and chunk count, reassemble the compressed stream, which inflates to the
   original bytes, whose digest is the one in the entry.
   */
  lemma StagedRoundTrip(prims: Primitives, size: int, limited: bool, path: Path, content: Bytes, store: Store)
    requires Sound(prims)
    requires StageFile(prims, size, limited, true, path, content).Ok?
    ensures var st := StageFile(prims, size, limited, true, path, content).value;
            var fetched := FetchChunks(WriteChunks(store, st.entry.hash, st.chunks), st.entry.hash, st.entry.additionalChunks + 1);
            && fetched == Ok(prims.deflateFlushed(content))
            && prims.inflate(fetched.value) == Inflated(content, true)
            && prims.sha256Hex(prims.inflate(fetched.value).output) == st.entry.hash
  {
    var st := StageFile(prims, size, limited, true, path, content).value;
    FetchWritten(store, st.entry.hash, st.chunks);
  }
}
