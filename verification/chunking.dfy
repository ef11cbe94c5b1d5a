/**
 Chunking arithmetic and chunk naming: a compressed stream is cut into
 consecutive blocks of `size` bytes, `len / size + 1` of them, and chunk `i`
 of content with digest `H` is stored as `H` (i = 0) or `H_i` (i >= 1).
 */
module Chunking {
  import opened Wrappers
  import opened Types
  import opened Decimal

  /** More chunks than this is the "too many chunks" error. */
  const MaxChunks: nat := 1024

  /** `numChunks := (len / chunkSize) + 1`. */
  function ChunkCount(len: nat, size: nat): nat
    requires size > 0
  {
    len / size + 1
  }

  /** Name of chunk `i`: `hash`, then `hash_1`, `hash_2`, ... */
  function ChunkName(hash: Hash, i: nat): string {
    if i == 0 then hash else hash + "_" + NatToString(i)
  }

  /** Reads the chunk index back out of a chunk name of `hash`. */
  function ChunkIndex(hash: Hash, name: string): Option<nat> {
    if name == hash then Some(0)
    else if |name| > |hash| + 1 && name[..|hash|] == hash && name[|hash|] == '_'
            && (forall k :: |hash| + 1 <= k < |name| ==> IsDigit(name[k]))
    then Some(ParseDigits(name[|hash| + 1..]))
    else None
  }

  lemma ChunkIndexOfName(hash: Hash, i: nat)
    ensures ChunkIndex(hash, ChunkName(hash, i)) == Some(i)
  {
    if i > 0 {
      var digits := NatToString(i);
      var name := hash + "_" + digits;
      assert |name| == |hash| + 1 + |digits|;
      assert name[..|hash|] == hash;
      assert name[|hash|] == '_';
      assert name[|hash| + 1..] == digits;
      ParseNatToString(i);
    }
  }

  /** Distinct chunk indices of one digest never share a name. */
  lemma ChunkNameInjective(hash: Hash, i: nat, j: nat)
    requires ChunkName(hash, i) == ChunkName(hash, j)
    ensures i == j
  {
    ChunkIndexOfName(hash, i);
    ChunkIndexOfName(hash, j);
  }

  /** Chunks of two different digests of equal length never share a name. */
  lemma ChunkNamesApart(h1: Hash, h2: Hash, i: nat, j: nat)
    requires |h1| == |h2| && h1 != h2
    ensures ChunkName(h1, i) != ChunkName(h2, j)
  {
    if i > 0 && j > 0 {
      assert ChunkName(h1, i)[..|h1|] == h1;
      assert ChunkName(h2, j)[..|h2|] == h2;
    }
  }

  /** The names of the `count` chunks of `hash`, in fetch order. */
  function ChunkNames(hash: Hash, count: nat): (names: seq<string>)
    ensures |names| == count
    ensures forall i :: 0 <= i < count ==> names[i] == ChunkName(hash, i)
  {
    seq(count, i requires 0 <= i => ChunkName(hash, i))
  }

  function Concat(chunks: seq<Bytes>): Bytes {
    if |chunks| == 0 then [] else chunks[0] + Concat(chunks[1..])
  }

  lemma ConcatAppend(chunks: seq<Bytes>, last: Bytes)
    ensures Concat(chunks + [last]) == Concat(chunks) + last
  {
    if |chunks| > 0 {
      assert (chunks + [last])[1..] == chunks[1..] + [last];
    }
  }

  lemma MulAtLeast(a: int, size: int)
    requires a >= 1 && size > 0
    ensures a * size >= size
  {
    assert a * size == (a - 1) * size + size;
  }

  /** Euclidean division is determined by quotient and remainder. */
  lemma DivUnique(n: int, size: int, q: int, r: int)
    requires size > 0 && 0 <= r < size && n == q * size + r
    ensures n / size == q && n % size == r
  {
    var q0, r0 := n / size, n % size;
    assert (q - q0) * size == r0 - r;
    if q > q0 {
      MulAtLeast(q - q0, size);
    } else if q < q0 {
      MulAtLeast(q0 - q, size);
    }
  }

  lemma DivStep(n: nat, size: nat)
    requires size > 0 && n >= size
    ensures (n - size) / size == n / size - 1
    ensures (n - size) % size == n % size
  {
    var q, r := n / size, n % size;
    assert n - size == (q - 1) * size + r;
    DivUnique(n - size, size, q - 1, r);
  }

  /**
   The blocks `bytes.Buffer.Next(size)` hands out when called `len / size + 1`
   times: full blocks of `size` bytes, then the remainder, which is empty when
   `size` divides `len`.
   */
  function Split(data: Bytes, size: nat): (chunks: seq<Bytes>)
    requires size > 0
    ensures |chunks| == ChunkCount(|data|, size)
    ensures Concat(chunks) == data
    ensures forall i :: 0 <= i < |chunks| - 1 ==> |chunks[i]| == size
    ensures |chunks[|chunks| - 1]| == |data| % size
    decreases |data|
  {
    if |data| < size then [data]
    else
      var rest := Split(data[size..], size);
      DivStep(|data|, size);
      assert ([data[..size]] + rest)[1..] == rest;
      [data[..size]] + rest
  }

  /** An empty stream is still one (empty) chunk. */
  lemma SplitEmpty(size: nat)
    requires size > 0
    ensures Split([], size) == [[]]
  {
  }

  /** A stream of exactly `n` blocks gives `n + 1` chunks, the last one empty. */
  lemma SplitExactMultiple(data: Bytes, size: nat, n: nat)
    requires size > 0 && |data| == n * size
    ensures |Split(data, size)| == n + 1
    ensures Split(data, size)[n] == []
  {
    DivUnique(|data|, size, n, 0);
  }
}
