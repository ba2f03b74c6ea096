/** Encrypted files as chunks, and ranges read from them. Encryption is left out: a chunk
    blob either yields bytes or an error. */
module Chunks {
  import opened Trees
  import opened Layers
  import opened Merkle

  const CHUNK_SIZE := 65536
  const MAX_INT64 := 0x7FFF_FFFF_FFFF_FFFF

  /** The sum of two `int64` values as Go computes it. */
  function Add64(a: int, b: int): int
  {
    if a + b > MAX_INT64 then a + b - 0x1_0000_0000_0000_0000
    else if a + b < -MAX_INT64 - 1 then a + b + 0x1_0000_0000_0000_0000
    else a + b
  }

  predicate IsInt64(x: int)
  {
    -MAX_INT64 - 1 <= x <= MAX_INT64
  }

  /** `encryptedLazyChunkEntry`, the part that describes the plaintext. */
  datatype Chunk = Chunk(index: nat, offset: int, size: int, digest: string)

  /** `encryptedLazyFileEntry`. */
  datatype FileEntry = FileEntry(size: int, digest: string, root: string, chunks: seq<Chunk>)

  function Piece(data: Bytes, c: Chunk): Bytes
    requires 0 <= c.offset <= c.offset + c.size <= |data|
  {
    data[c.offset..c.offset + c.size]
  }

  /** Where chunk `i` begins; the end of the data after the last one. */
  function Start(data: Bytes, i: nat): nat
  {
    if i * CHUNK_SIZE < |data| then i * CHUNK_SIZE else |data|
  }

  /** The description of chunk `i` of `data`. */
  predicate IsChunkOf(h: Hash, c: Chunk, data: Bytes, i: nat)
  {
    && c.index == i && c.offset == Start(data, i) && c.size == Start(data, i + 1) - Start(data, i)
    && c.digest == h(data[Start(data, i)..Start(data, i + 1)])
  }

  /** The chunks cut the data into consecutive pieces, all but the last of full size, with
      one empty chunk for empty data. */
  predicate Partitions(h: Hash, chunks: seq<Chunk>, data: Bytes)
  {
    && |chunks| > 0 && (|chunks| - 1) * CHUNK_SIZE <= |data| <= |chunks| * CHUNK_SIZE
    && (|chunks| > 1 ==> (|chunks| - 1) * CHUNK_SIZE < |data|)
    && forall i :: 0 <= i < |chunks| ==> IsChunkOf(h, chunks[i], data, i)
  }

  function Digests(chunks: seq<Chunk>): (r: seq<string>)
    ensures |r| == |chunks| && forall i :: 0 <= i < |r| ==> r[i] == chunks[i].digest
  {
    seq(|chunks|, i requires 0 <= i < |chunks| => chunks[i].digest)
  }

  /** What `createEncryptedLazyIndex` records for a file. */
  predicate IsEntryOf(h: Hash, e: FileEntry, data: Bytes)
  {
    && e.size == |data| && |data| <= MAX_INT64 && e.digest == h(data)
    && Partitions(h, e.chunks, data) && e.root == Root(h, Digests(e.chunks))
  }

  lemma NextChunk(h: Hash, data: Bytes, index: nat, offset: int, end: int)
    requires offset == index * CHUNK_SIZE <= |data|
    requires end == if offset + CHUNK_SIZE > |data| then |data| else offset + CHUNK_SIZE
    ensures IsChunkOf(h, Chunk(index, offset, end - offset, h(data[offset..end])), data, index)
  {
    assert offset == Start(data, index) && end == Start(data, index + 1);
  }

  /** `createEncryptedLazyChunks`. */
  method CreateChunks(h: Hash, data: Bytes) returns (chunks: seq<Chunk>, root: string)
    ensures Partitions(h, chunks, data) && root == Root(h, Digests(chunks))
  {
    hide Digests, Root, IsChunkOf;
    chunks := [];
    var chunkDigests: seq<string> := [];
    var offset, index := 0, 0;
    while offset < |data| || (|data| == 0 && index == 0)
      invariant 0 <= index == |chunks| == |chunkDigests| && offset == index * CHUNK_SIZE <= |data|
      invariant offset == |data| ==> |data| == 0
      invariant forall i :: 0 <= i < index ==> IsChunkOf(h, chunks[i], data, i) && chunkDigests[i] == chunks[i].digest
      decreases |data| + 1 - offset
    {
      var end := if offset + CHUNK_SIZE > |data| then |data| else offset + CHUNK_SIZE;
      NextChunk(h, data, index, offset, end);
      var chunkDigest := h(data[offset..end]);
      chunkDigests := chunkDigests + [chunkDigest];
      chunks := chunks + [Chunk(index, offset, end - offset, chunkDigest)];
      if end == |data| {
        break;
      }
      offset := end;
      index := index + 1;
    }
    assert chunkDigests == Digests(chunks);
    root := MerkleRoot(h, chunkDigests);
  }

  function Joined(data: Bytes, n: nat): Bytes
  {
    if n == 0 then "" else Joined(data, n - 1) + data[Start(data, n - 1)..Start(data, n)]
  }

  /** Consecutive pieces: put together they are the data. */
  lemma {:induction false} PiecesJoin(h: Hash, chunks: seq<Chunk>, data: Bytes, n: nat)
    requires Partitions(h, chunks, data) && n <= |chunks|
    ensures Joined(data, n) == data[..Start(data, n)]
    ensures n == |chunks| ==> Joined(data, n) == data
  {
    if n > 0 {
      PiecesJoin(h, chunks, data, n - 1);
    }
  }

  // ----- reading

  /** The blob of a chunk, fetched and decrypted, before its bytes are checked. */
  type Fetch = nat -> Outcome<Bytes>

  /** `readEncryptedLazyChunk` accepts these bytes. */
  predicate Accepts(h: Hash, c: Chunk, got: Outcome<Bytes>)
  {
    got.Ok? && h(got.value) == c.digest && |got.value| == c.size
  }

  ghost predicate CollisionFree(h: Hash)
  {
    forall x, y :: h(x) == h(y) ==> x == y
  }

  function Min(a: int, b: int): int { if a < b then a else b }
  function Max(a: int, b: int): int { if a > b then a else b }

  /** Chunk `i` has bytes of the range. */
  predicate Overlaps(c: Chunk, offset: int, length: int)
  {
    c.offset + c.size > offset && c.offset < offset + length
  }

  /** The bytes from `lo` up to `hi`, none if they are out of order. */
  function Part(data: Bytes, lo: int, hi: int): Bytes
  {
    if 0 <= lo < hi <= |data| then data[lo..hi] else ""
  }

  lemma PartJoins(data: Bytes, lo: int, end: int, a: int, b: int)
    requires 0 <= lo && end <= |data| && 0 <= a <= b <= |data|
    ensures Part(data, lo, Min(end, a)) + Part(data, Max(lo, a), Min(end, b)) == Part(data, lo, Min(end, b))
  {
    if lo < Min(end, a) {
      assert data[lo..Min(end, b)] == data[lo..Min(end, a)] + data[Min(end, a)..Min(end, b)];
    }
  }

  lemma PartOfPiece(data: Bytes, a: int, b: int, i: int, j: int)
    requires 0 <= a <= b <= |data| && 0 <= i <= j <= b - a
    ensures data[a..b][i..j] == Part(data, a + i, a + j)
  {
    if i < j {
      var p := data[a..b];
      forall k | 0 <= k < j - i ensures p[i..j][k] == data[a + i..a + j][k] {
        assert p[i..j][k] == p[i + k] == data[a + (i + k)];
      }
      assert p[i..j] == data[a + i..a + j];
    } else {
      assert |data[a..b][i..j]| == 0;
    }
  }

  /** The part of the range that one overlapping chunk holds. */
  method ReadOverlap(h: Hash, chunk: Chunk, ghost data: Bytes, offset: int, end: int, got: Outcome<Bytes>)
    returns (r: Outcome<Bytes>)
    requires 0 <= offset < end <= |data| <= MAX_INT64 && 0 <= chunk.offset <= chunk.offset + chunk.size <= |data|
    requires chunk.digest == h(Piece(data, chunk))
    requires chunk.offset + chunk.size > offset && chunk.offset < end
    ensures r.Ok? <==> Accepts(h, chunk, got)
    ensures r.Ok? && CollisionFree(h) ==>
              r.value == Part(data, Max(offset, chunk.offset), Min(end, chunk.offset + chunk.size))
  {
    if !Accepts(h, chunk, got) {
      return Fail;
    }
    var plaintext := got.value;
    var chunkStart, chunkEnd := chunk.offset, Add64(chunk.offset, chunk.size);
    var startInChunk := if offset > chunkStart then offset - chunkStart else 0;
    var endInChunk := if end < chunkEnd then end - chunkStart else |plaintext|;
    if startInChunk < 0 || endInChunk < startInChunk || endInChunk > |plaintext| {
      assert false;
    }
    r := Ok(plaintext[startInChunk..endInChunk]);
    PartOfPiece(data, chunkStart, chunkEnd, startInChunk, endInChunk);
  }

  lemma ChunkBounds(h: Hash, e: FileEntry, data: Bytes, i: nat)
    requires IsEntryOf(h, e, data) && i < |e.chunks|
    ensures var c := e.chunks[i];
            && 0 <= c.offset == Start(data, i) <= c.offset + c.size == Start(data, i + 1) <= |data|
            && c.digest == h(Piece(data, c)) && c.digest == Digests(e.chunks)[i]
            && (|e.chunks| > 1 ==> c.offset < |data| && c.size > 0)
    ensures Start(data, 0) == 0 && Start(data, |e.chunks|) == |data|
  {
    hide Root;
  }

  /** Every chunk of the first `n` that the range needs is accepted. */
  predicate NeededAccepted(h: Hash, chunks: seq<Chunk>, offset: int, length: int, fetch: Fetch, n: nat)
  {
    forall i :: 0 <= i < n && i < |chunks| && Overlaps(chunks[i], offset, length) ==> Accepts(h, chunks[i], fetch(i))
  }

  lemma NoPart(data: Bytes, lo: int, hi: int)
    ensures lo >= hi ==> Part(data, lo, hi) == ""
    ensures Part(data, lo, Min(hi, 0)) == ""
  {
  }

  /** One round of the loop: the chunk is skipped, or read and its share appended. */
  method ReadNext(h: Hash, e: FileEntry, ghost data: Bytes, offset: int, length: int, fetch: Fetch, i: nat, out: Bytes)
    returns (r: Outcome<Bytes>)
    requires IsEntryOf(h, e, data) && 0 <= offset && 0 < length && offset + length <= |data| && i < |e.chunks|
    ensures r.Ok? <==> (Overlaps(e.chunks[i], offset, length) ==> Accepts(h, e.chunks[i], fetch(i)))
    ensures r.Ok? && CollisionFree(h) && out == Part(data, offset, Min(offset + length, Start(data, i))) ==>
              r.value == Part(data, offset, Min(offset + length, Start(data, i + 1)))
  {
    var end := Add64(offset, length);
    var chunk := e.chunks[i];
    assert |data| <= MAX_INT64;
    ChunkBounds(h, e, data, i);
    PartJoins(data, offset, end, Start(data, i), Start(data, i + 1));
    hide IsEntryOf, Start, Part, Accepts, Digests, CollisionFree;
    if Add64(chunk.offset, chunk.size) <= offset || chunk.offset >= end {
      NoPart(data, Max(offset, chunk.offset), Min(end, chunk.offset + chunk.size));
      return Ok(out);
    }
    r := ReadOverlap(h, chunk, data, offset, end, fetch(i));
    if r.Ok? {
      r := Ok(out + r.value);
    }
  }

  lemma DigestsUpTo(chunks: seq<Chunk>, i: nat)
    requires i <= |chunks|
    ensures i == 0 ==> Digests(chunks)[..i] == []
    ensures i < |chunks| ==> Digests(chunks)[..i + 1] == Digests(chunks)[..i] + [chunks[i].digest]
    ensures i == |chunks| ==> Digests(chunks)[..i] == Digests(chunks)
  {
  }

  lemma NeededUpTo(h: Hash, chunks: seq<Chunk>, offset: int, length: int, fetch: Fetch, i: nat)
    requires i <= |chunks|
    ensures i == 0 ==> NeededAccepted(h, chunks, offset, length, fetch, i)
    ensures i < |chunks| ==>
              (NeededAccepted(h, chunks, offset, length, fetch, i + 1) <==>
               NeededAccepted(h, chunks, offset, length, fetch, i) &&
               (Overlaps(chunks[i], offset, length) ==> Accepts(h, chunks[i], fetch(i))))
    ensures i < |chunks| && NeededAccepted(h, chunks, offset, length, fetch, |chunks|) ==>
              NeededAccepted(h, chunks, offset, length, fetch, i + 1)
  {
    hide Accepts, Overlaps;
  }

  /** `readEncryptedLazyChunks` on an entry written for `data`, for a range inside it. It
      succeeds exactly if every chunk it needs is accepted, and then the bytes are the range;
      no sum leaves `int64`. */
  method ReadChunks(h: Hash, e: FileEntry, ghost data: Bytes, offset: int, length: int, fetch: Fetch)
    returns (r: Outcome<Bytes>)
    requires IsEntryOf(h, e, data) && 0 <= offset && 0 <= length && (length > 0 ==> offset + length <= |data|)
    ensures r.Ok? <==> (length == 0 || NeededAccepted(h, e.chunks, offset, length, fetch, |e.chunks|))
    ensures r.Ok? && CollisionFree(h) ==> r.value == Part(data, offset, offset + length)
  {
    if length == 0 {
      return Ok("");
    }
    assert |e.chunks| > 0 && e.root == Root(h, Digests(e.chunks));
    ChunkBounds(h, e, data, 0);
    NoPart(data, offset, offset + length);
    DigestsUpTo(e.chunks, 0);
    NeededUpTo(h, e.chunks, offset, length, fetch, 0);
    hide IsEntryOf, Start, Part, Accepts, Overlaps, CollisionFree, Root, NeededAccepted, Digests;
    var out: Bytes := "";
    var chunkDigests: seq<string> := [];
    for i := 0 to |e.chunks|
      invariant chunkDigests == Digests(e.chunks)[..i]
      invariant NeededAccepted(h, e.chunks, offset, length, fetch, i)
      invariant CollisionFree(h) ==> out == Part(data, offset, Min(offset + length, Start(data, i)))
    {
      DigestsUpTo(e.chunks, i);
      NeededUpTo(h, e.chunks, offset, length, fetch, i);
      chunkDigests := chunkDigests + [e.chunks[i].digest];
      var next := ReadNext(h, e, data, offset, length, fetch, i, out);
      if next.Fail? {
        return Fail;
      }
      out := next.value;
    }
    DigestsUpTo(e.chunks, |e.chunks|);
    if offset == 0 && length == e.size && e.root != "" {
      var got := MerkleRoot(h, chunkDigests);
      if got != e.root {
        assert false;
      }
    }
    return Ok(out);
  }

  /** The range of `data`, cut off at its end. */
  function Clamped(data: Bytes, offset: nat, length: nat): Bytes
  {
    data[Min(offset, |data|)..Min(offset + length, |data|)]
  }

  /** The chunk branch of `readEncryptedLazyFileRange`, for every `int64` offset and length. */
  method ReadRange(h: Hash, e: FileEntry, ghost data: Bytes, offset: int, length: int, fetch: Fetch)
    returns (r: Outcome<Bytes>)
    requires IsEntryOf(h, e, data) && IsInt64(offset) && IsInt64(length)
    ensures offset < 0 || length < 0 ==> r.Fail?
    ensures offset >= 0 && length >= 0 && CollisionFree(h) && r.Ok? ==> r.value == Clamped(data, offset, length)
    ensures offset >= 0 && length >= 0 ==>
              (r.Ok? <==> (offset >= |data| || length == 0 ||
                           NeededAccepted(h, e.chunks, offset, length, fetch, |e.chunks|)))
  {
    if offset < 0 || length < 0 {
      return Fail;
    }
    var available := e.size - offset;
    if available < 0 {
      available := 0;
    }
    var clamped := if length > available then available else length;
    r := ReadChunks(h, e, data, offset, clamped, fetch);
    hide Accepts, Root, Digests;
    forall i | 0 <= i < |e.chunks| && clamped > 0
      ensures Overlaps(e.chunks[i], offset, clamped) <==> Overlaps(e.chunks[i], offset, length)
    {
      ChunkBounds(h, e, data, i);
    }
  }

  /** `readEncryptedLazyFile`: a file of several chunks comes from them, any other from its
      one whole blob. */
  method ReadFile(h: Hash, e: FileEntry, ghost data: Bytes, whole: Outcome<Bytes>, fetch: Fetch)
    returns (r: Outcome<Bytes>)
    requires IsEntryOf(h, e, data)
    ensures r.Ok? && CollisionFree(h) ==> r.value == data
    ensures r.Ok? <==> if |e.chunks| > 1 then forall i :: 0 <= i < |e.chunks| ==> Accepts(h, e.chunks[i], fetch(i))
                       else whole.Ok? && h(whole.value) == e.digest && (e.size > 0 ==> |whole.value| == e.size)
  {
    if |e.chunks| > 1 {
      r := ReadChunks(h, e, data, 0, e.size, fetch);
      hide Accepts, Root, Digests;
      forall i | 0 <= i < |e.chunks| ensures Overlaps(e.chunks[i], 0, e.size) {
        ChunkBounds(h, e, data, i);
      }
      ChunkBounds(h, e, data, 0);
      return;
    }
    if whole.Fail? || h(whole.value) != e.digest || (e.size > 0 && |whole.value| != e.size) {
      return Fail;
    }
    return whole;
  }

  /** Whenever the whole file of several chunks reads, every range of it reads, as the slice
      of the whole cut off at its end. */
  method ReadBoth(h: Hash, e: FileEntry, ghost data: Bytes, whole: Outcome<Bytes>, offset: int, length: int,
                  fetch: Fetch)
    returns (file: Outcome<Bytes>, range: Outcome<Bytes>)
    requires IsEntryOf(h, e, data) && 0 <= offset <= MAX_INT64 && 0 <= length <= MAX_INT64
    ensures file.Ok? && |e.chunks| > 1 ==> range.Ok?
    ensures file.Ok? && range.Ok? && CollisionFree(h) ==> range.value == Clamped(file.value, offset, length)
  {
    file := ReadFile(h, e, data, whole, fetch);
    range := ReadRange(h, e, data, offset, length, fetch);
  }

  /** `sliceRange`, used without chunks, adds before it compares: for a range that starts
      inside the data it panics exactly when the sum leaves `int64`. `Fail` is the panic. */
  method SliceRange(data: Bytes, offset: int, length: int) returns (r: Outcome<Bytes>)
    requires 0 <= offset <= MAX_INT64 && 0 <= length <= MAX_INT64
    ensures r.Ok? <==> offset >= |data| || length == 0 || offset + length <= MAX_INT64
    ensures r.Ok? ==> r.value == Clamped(data, offset, length)
  {
    if offset >= |data| || length == 0 {
      return Ok("");
    }
    var end := Add64(offset, length);
    if end > |data| {
      end := |data|;
    }
    if end < offset {
      return Fail;
    }
    return Ok(data[offset..end]);
  }
}
