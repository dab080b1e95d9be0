/** How the driver cuts a large file into chunks (drivers/notion/driver.go):
    the two size constants, the chunk count, and the bounds of each chunk. */
module Layout {
  import opened Records

  const GiB: int := 1024 * 1024 * 1024

  /** Size of every chunk but the last: 4.5 GiB, a margin under the
      backend's 5 GiB per-object limit. */
  const MaxChunkSize: int := 9 * GiB / 2

  /** Files strictly larger than this are uploaded in chunks. */
  const ChunkThreshold: int := 5 * GiB

  /** The half-open byte interval `[start, end)`. */
  datatype Span = Span(start: int, end: int) {
    function Size(): int {
      end - start
    }
  }

  /** Number of chunks of a file of `fileSize` bytes, by the round-up
      division the driver uses. */
  function ChunkCount(fileSize: nat): (count: nat)
    ensures fileSize == 0 ==> count == 0
    ensures fileSize > 0 ==> (count - 1) * MaxChunkSize < fileSize <= count * MaxChunkSize
  {
    (fileSize + MaxChunkSize - 1) / MaxChunkSize
  }

  /** The bounds of chunk `i`: it starts at `i` whole chunks and stops at
      the next multiple of the chunk size or at the end of the file. */
  function ChunkSpan(i: nat, fileSize: nat): Span {
    var start := i * MaxChunkSize;
    Span(start, Min(start + MaxChunkSize, fileSize))
  }

  /** The bounds of every chunk, in chunk order. */
  function Plan(fileSize: nat): seq<Span> {
    seq(ChunkCount(fileSize), i requires 0 <= i => ChunkSpan(i, fileSize))
  }

  /** `spans` cut `[0, size)` into non-empty, adjacent pieces, in order. */
  ghost predicate Tiles(spans: seq<Span>, size: int) {
    && |spans| > 0
    && spans[0].start == 0
    && spans[|spans| - 1].end == size
    && (forall i :: 0 <= i < |spans| - 1 ==> spans[i].end == spans[i + 1].start)
    && (forall i :: 0 <= i < |spans| ==> spans[i].start < spans[i].end)
  }

  /** A tiling in which every piece is at most `MaxChunkSize` long and only
      the last may be shorter. */
  ghost predicate IsPartition(spans: seq<Span>, size: int) {
    && Tiles(spans, size)
    && (forall i :: 0 <= i < |spans| ==> spans[i].Size() <= MaxChunkSize)
    && (forall i :: 0 <= i < |spans| - 1 ==> spans[i].Size() == MaxChunkSize)
  }

  /** The planned chunks of a non-empty file partition it. */
  lemma PlanIsPartition(fileSize: nat)
    requires fileSize > 0
    ensures IsPartition(Plan(fileSize), fileSize)
  {
    var p := Plan(fileSize);
    var count := ChunkCount(fileSize);
    forall i | 0 <= i < count
      ensures p[i].start < p[i].end
      ensures p[i].Size() <= MaxChunkSize
    {
      ChunkStartBelowSize(i, fileSize);
    }
    forall i | 0 <= i < count - 1
      ensures p[i].end == p[i + 1].start
      ensures p[i].Size() == MaxChunkSize
    {
      MulMonotone(i + 1, count - 1);
      assert p[i + 1].start == (i + 1) * MaxChunkSize;
    }
    assert p[count - 1].end == fileSize by {
      assert (count - 1) * MaxChunkSize + MaxChunkSize == count * MaxChunkSize;
    }
  }

  lemma MulMonotone(a: nat, b: nat)
    requires a <= b
    ensures a * MaxChunkSize <= b * MaxChunkSize
  {
  }

  /** Every planned chunk starts before the end of the file. */
  lemma ChunkStartBelowSize(i: nat, fileSize: nat)
    requires i < ChunkCount(fileSize)
    ensures i * MaxChunkSize < fileSize
  {
    MulMonotone(i, ChunkCount(fileSize) - 1);
  }

  /** A planned chunk lies inside the file and is not empty; every chunk
      but the last is a full chunk. */
  lemma ChunkSpanBounds(i: nat, fileSize: nat)
    ensures i < ChunkCount(fileSize) ==>
      && 0 <= ChunkSpan(i, fileSize).start < ChunkSpan(i, fileSize).end <= fileSize
      && ChunkSpan(i, fileSize).Size() <= MaxChunkSize
    ensures i + 1 < ChunkCount(fileSize) ==> ChunkSpan(i, fileSize).Size() == MaxChunkSize
  {
    if i < ChunkCount(fileSize) {
      ChunkStartBelowSize(i, fileSize);
    }
    if i + 1 < ChunkCount(fileSize) {
      ChunkStartBelowSize(i + 1, fileSize);
    }
  }

  /** Every file above the threshold is cut into at least two chunks, and a
      file of exactly the threshold size would be too (it is never chunked
      because the threshold test is strict). */
  lemma ChunkedFileHasSeveralChunks(fileSize: nat)
    requires fileSize >= ChunkThreshold
    ensures ChunkCount(fileSize) >= 2
  {
  }

  /** A file of 10^10 bytes is cut into two full chunks and a 336 323 584-byte tail. */
  lemma TenGigabytePlan()
    ensures Plan(10_000_000_000) == [Span(0, 4831838208), Span(4831838208, 9663676416), Span(9663676416, 10_000_000_000)]
  {
    assert ChunkCount(10_000_000_000) == 3;
  }
}
