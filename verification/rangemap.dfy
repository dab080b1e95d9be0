/** Mapping a byte range of a chunked file onto its chunks
    (drivers/notion/types.go, `RangeRead` and the start of `Read`): which
    chunks a range touches, which part of each chunk it needs, and the fact
    that reading those parts in order gives back exactly the range. */
module RangeMap {
  import opened Records
  import opened Layout

  /** The bounds recorded in a chunk row. */
  function SpanOf(c: FileChunk): Span {
    Span(c.startOffset, c.endOffset)
  }

  function Spans(chunks: seq<FileChunk>): (r: seq<Span>)
    ensures |r| == |chunks|
    ensures forall i :: 0 <= i < |chunks| ==> r[i] == SpanOf(chunks[i])
  {
    if |chunks| == 0 then [] else [SpanOf(chunks[0])] + Spans(chunks[1..])
  }

  predicate InSpan(x: int, lo: int, hi: int) {
    lo <= x < hi
  }

  /** Chunk `c` shares at least one position with `[start, end)`, when that
      range is non-empty. */
  predicate Overlaps(c: FileChunk, start: int, end: int) {
    c.startOffset < end && c.endOffset > start
  }

  /** The chunks that overlap `[start, end)`, in their input order. */
  function Select(chunks: seq<FileChunk>, start: int, end: int): seq<FileChunk> {
    if |chunks| == 0 then []
    else
      var tail := Select(chunks[1..], start, end);
      if Overlaps(chunks[0], start, end) then [chunks[0]] + tail else tail
  }

  /** The selection keeps exactly the overlapping chunks. */
  lemma {:induction false} SelectKeepsOverlapping(chunks: seq<FileChunk>, start: int, end: int)
    ensures forall c :: c in Select(chunks, start, end) <==> c in chunks && Overlaps(c, start, end)
  {
    if |chunks| > 0 {
      SelectKeepsOverlapping(chunks[1..], start, end);
      assert forall c :: c in chunks <==> c == chunks[0] || c in chunks[1..];
    }
  }

  /** The selection keeps the stored chunks stored. */
  lemma SelectKeepsStored(chunks: seq<FileChunk>, objects: string -> seq<byte>, data: seq<byte>, start: int, end: int)
    requires Stores(chunks, objects, data)
    ensures Stores(Select(chunks, start, end), objects, data)
  {
    var r := Select(chunks, start, end);
    SelectKeepsOverlapping(chunks, start, end);
    forall i | 0 <= i < |r|
      ensures 0 <= r[i].startOffset <= r[i].endOffset <= |data|
      ensures objects(r[i].notionPageId) == data[r[i].startOffset..r[i].endOffset]
    {
      assert r[i] in chunks;
    }
  }

  /** Every selected chunk overlaps the range. */
  lemma SelectedOverlap(chunks: seq<FileChunk>, start: int, end: int)
    ensures var r := Select(chunks, start, end);
      forall i :: 0 <= i < |r| ==> Overlaps(r[i], start, end)
  {
    var r := Select(chunks, start, end);
    SelectKeepsOverlapping(chunks, start, end);
    forall i | 0 <= i < |r| ensures Overlaps(r[i], start, end) {
      assert r[i] in r;
    }
  }

  /** The positions of `[start, end)` that fall in chunk `c`, relative to the
      start of the chunk. For a chunk that overlaps the range, they are a
      non-empty part of the chunk whose absolute positions are exactly the
      common positions of the chunk and the range. */
  function SubRange(c: FileChunk, start: int, end: int): (r: Span)
    ensures Overlaps(c, start, end) && start < end && c.startOffset < c.endOffset ==>
      0 <= r.start < r.end <= c.endOffset - c.startOffset
    ensures forall x :: InSpan(x, c.startOffset + r.start, c.startOffset + r.end) <==>
      InSpan(x, start, end) && InSpan(x, c.startOffset, c.endOffset)
  {
    Span(Max(start, c.startOffset) - c.startOffset, Min(end, c.endOffset) - c.startOffset)
  }

  /** Adjacent chunks: each ends where the next begins, and none is empty. */
  ghost predicate Contiguous(chunks: seq<FileChunk>) {
    && (forall i :: 0 <= i < |chunks| - 1 ==> chunks[i].endOffset == chunks[i + 1].startOffset)
    && (forall i :: 0 <= i < |chunks| ==> chunks[i].startOffset < chunks[i].endOffset)
  }

  /** Every chunk's bytes are stored, as they are in the file `data`, in
      the object of its page. */
  ghost predicate Stores(chunks: seq<FileChunk>, objects: string -> seq<byte>, data: seq<byte>) {
    forall i :: 0 <= i < |chunks| ==>
      && 0 <= chunks[i].startOffset <= chunks[i].endOffset <= |data|
      && objects(chunks[i].notionPageId) == data[chunks[i].startOffset..chunks[i].endOffset]
  }

  /** `s[lo..hi]`, or nothing when those are not bounds of a slice of `s`. */
  function Slice(s: seq<byte>, lo: int, hi: int): (r: seq<byte>)
    ensures 0 <= lo <= hi <= |s| ==> r == s[lo..hi]
    ensures !(0 <= lo <= hi <= |s|) ==> r == []
  {
    if 0 <= lo <= hi <= |s| then s[lo..hi] else []
  }

  /** What reading each chunk's sub-range from its object, in order, yields. */
  function Assemble(chunks: seq<FileChunk>, objects: string -> seq<byte>, start: int, end: int): seq<byte> {
    if |chunks| == 0 then []
    else
      var sub := SubRange(chunks[0], start, end);
      Slice(objects(chunks[0].notionPageId), sub.start, sub.end) + Assemble(chunks[1..], objects, start, end)
  }

  /** The sub-range of a chunk read from its stored object is the matching
      part of the file. */
  lemma SubRangeOfObject(x: FileChunk, obj: seq<byte>, data: seq<byte>, start: int, end: int)
    requires 0 <= x.startOffset <= x.endOffset <= |data|
    requires obj == data[x.startOffset..x.endOffset]
    ensures Slice(obj, SubRange(x, start, end).start, SubRange(x, start, end).end)
         == Slice(data, Max(start, x.startOffset), Min(end, x.endOffset))
  {
    var sub := SubRange(x, start, end);
    if 0 <= sub.start <= sub.end <= |obj| {
      assert obj[sub.start..sub.end] == data[x.startOffset + sub.start..x.startOffset + sub.end];
    }
  }

  lemma SliceConcat(data: seq<byte>, lo: int, mid: int, hi: int)
    requires lo <= mid <= hi && (lo < mid || mid < hi)
    requires 0 <= lo && hi <= |data|
    ensures Slice(data, lo, hi) == Slice(data, lo, mid) + Slice(data, mid, hi)
  {
    assert data[lo..hi] == data[lo..mid] + data[mid..hi];
  }

  lemma {:induction false} AssembleSelected(chunks: seq<FileChunk>, objects: string -> seq<byte>, data: seq<byte>, start: int, end: int)
    requires |chunks| > 0 && Contiguous(chunks) && Stores(chunks, objects, data)
    requires start <= end
    ensures Assemble(Select(chunks, start, end), objects, start, end)
         == Slice(data, Max(start, chunks[0].startOffset), Min(end, chunks[|chunks| - 1].endOffset))
  {
    var x := chunks[0];
    var tail := chunks[1..];
    AssembleFirst(chunks, objects, data, start, end);
    if |tail| == 0 {
      assert Select(tail, start, end) == [];
    } else {
      assert Contiguous(tail) && Stores(tail, objects, data) by {
        assert forall i :: 0 <= i < |tail| ==> tail[i] == chunks[i + 1];
      }
      AssembleSelected(tail, objects, data, start, end);
      var last := chunks[|chunks| - 1].endOffset;
      assert tail[0].startOffset == x.endOffset;
      assert x.endOffset < last by {
        ContiguousOrdered(chunks, 0, |chunks| - 1);
      }
      JoinParts(data, start, end, x.startOffset, x.endOffset, last);
    }
  }

  /** One step of `Assemble` over a selection: the first chunk's part, if it
      is selected, then the rest. */
  lemma AssembleFirst(chunks: seq<FileChunk>, objects: string -> seq<byte>, data: seq<byte>, start: int, end: int)
    requires |chunks| > 0 && Stores(chunks, objects, data)
    ensures var x := chunks[0];
      Assemble(Select(chunks, start, end), objects, start, end)
      == (if Overlaps(x, start, end) then Slice(data, Max(start, x.startOffset), Min(end, x.endOffset)) else [])
         + Assemble(Select(chunks[1..], start, end), objects, start, end)
  {
    var x := chunks[0];
    SubRangeOfObject(x, objects(x.notionPageId), data, start, end);
  }

  /** The bytes of `[start, end)` within `[s, m)` followed by those within
      `[m, e)` are those within `[s, e)`. */
  lemma JoinParts(data: seq<byte>, start: int, end: int, s: int, m: int, e: int)
    requires 0 <= s < m < e <= |data| && start <= end
    ensures (if s < end && m > start then Slice(data, Max(start, s), Min(end, m)) else [])
              + Slice(data, Max(start, m), Min(end, e))
         == Slice(data, Max(start, s), Min(end, e))
  {
    if start < m && m < end {
      SliceConcat(data, Max(start, s), m, Min(end, e));
    }
  }

  /** In adjacent chunks, a later chunk starts no earlier than an earlier one ends. */
  lemma {:induction false} ContiguousOrdered(chunks: seq<FileChunk>, i: nat, j: nat)
    requires Contiguous(chunks) && i <= j < |chunks|
    ensures chunks[i].endOffset <= chunks[j].endOffset
    ensures i < j ==> chunks[i].endOffset <= chunks[j].startOffset
    decreases j - i
  {
    if i < j {
      ContiguousOrdered(chunks, i + 1, j);
    }
  }

  /** Over chunks that tile a file, reading the sub-range of each selected
      chunk from its object, in order, reconstructs exactly the requested
      bytes of the file. */
  lemma ReassemblyIsExact(chunks: seq<FileChunk>, objects: string -> seq<byte>, data: seq<byte>, start: int, end: int)
    requires Tiles(Spans(chunks), |data|) && Stores(chunks, objects, data)
    requires 0 <= start <= end <= |data|
    ensures Assemble(Select(chunks, start, end), objects, start, end) == data[start..end]
  {
    TiledChunks(chunks, |data|);
    AssembleSelected(chunks, objects, data, start, end);
  }

  /** Chunks whose bounds tile `[0, size)` are adjacent, the first starts
      at 0 and the last ends at `size`. */
  lemma TiledChunks(chunks: seq<FileChunk>, size: int)
    ensures Tiles(Spans(chunks), size) ==>
      && |chunks| > 0 && Contiguous(chunks)
      && chunks[0].startOffset == 0 && chunks[|chunks| - 1].endOffset == size
  {
    if Tiles(Spans(chunks), size) {
      var sp := Spans(chunks);
      assert sp[0] == SpanOf(chunks[0]);
      assert sp[|sp| - 1] == SpanOf(chunks[|chunks| - 1]);
    }
  }


  /** Some chunk of a run of adjacent chunks holds each position the run spans. */
  lemma {:induction false} ChunkHolding(chunks: seq<FileChunk>, x: int) returns (i: nat)
    requires |chunks| > 0 && Contiguous(chunks)
    requires chunks[0].startOffset <= x < chunks[|chunks| - 1].endOffset
    ensures i < |chunks| && chunks[i].startOffset <= x < chunks[i].endOffset
  {
    if x < chunks[0].endOffset {
      i := 0;
    } else {
      var tail := chunks[1..];
      assert Contiguous(tail) by {
        assert forall k :: 0 <= k < |tail| ==> tail[k] == chunks[k + 1];
      }
      var k := ChunkHolding(tail, x);
      i := k + 1;
    }
  }

  /** Over chunks that tile a file, every non-empty range inside the file
      selects at least one chunk. */
  lemma NonEmptyRangeSelectsChunks(chunks: seq<FileChunk>, size: int, start: int, end: int)
    requires Tiles(Spans(chunks), size)
    requires 0 <= start < end <= size
    ensures |Select(chunks, start, end)| > 0
  {
    TiledChunks(chunks, size);
    var i := ChunkHolding(chunks, start);
    SelectKeepsOverlapping(chunks, start, end);
    assert chunks[i] in chunks && Overlaps(chunks[i], start, end);
  }

  /** Chunks lying wholly at or after `end` are never selected. */
  lemma {:induction false} NothingBeyond(chunks: seq<FileChunk>, start: int, end: int)
    requires |chunks| > 0 && Contiguous(chunks) && chunks[0].startOffset >= end
    ensures Select(chunks, start, end) == []
  {
    var tail := chunks[1..];
    if |tail| > 0 {
      assert Contiguous(tail) by {
        assert forall i :: 0 <= i < |tail| ==> tail[i] == chunks[i + 1];
      }
      NothingBeyond(tail, start, end);
    }
  }

  /** `r` is a non-empty run of adjacent chunks that begins with `first` or
      at or before `start`, and reaches `end`. */
  ghost predicate RunThrough(r: seq<FileChunk>, first: FileChunk, start: int, end: int) {
    && |r| > 0 && Contiguous(r)
    && (r[0] == first || r[0].startOffset <= start)
    && r[|r| - 1].endOffset >= end
  }

  /** The chunks a non-empty range selects from a run of adjacent chunks
      reaching past its end are themselves adjacent, and the last of them
      reaches the end of the range. The first is the run's first chunk or
      starts at or before the range does. */
  lemma {:induction false} SelectedRun(chunks: seq<FileChunk>, start: int, end: int)
    requires |chunks| > 0 && Contiguous(chunks) && start < end
    requires chunks[0].startOffset < end <= chunks[|chunks| - 1].endOffset
    ensures RunThrough(Select(chunks, start, end), chunks[0], start, end)
  {
    if chunks[0].endOffset >= end {
      SelectedOnlyFirst(chunks, start, end);
    } else {
      TailContiguous(chunks);
      SelectedRun(chunks[1..], start, end);
      if chunks[0].endOffset <= start {
        SkipFirst(chunks, start, end);
      } else {
        KeepFirst(chunks, start, end);
      }
    }
  }

  /** Dropping the first of several adjacent chunks leaves adjacent chunks,
      the first of which starts where the dropped one ended. */
  lemma TailContiguous(chunks: seq<FileChunk>)
    requires |chunks| > 1 && Contiguous(chunks)
    ensures Contiguous(chunks[1..])
    ensures chunks[1..][0] == chunks[1] && chunks[1].startOffset == chunks[0].endOffset
    ensures chunks[1..][|chunks| - 2] == chunks[|chunks| - 1]
  {
    var tail := chunks[1..];
    assert forall i :: 0 <= i < |tail| ==> tail[i] == chunks[i + 1];
  }

  /** A first chunk that reaches the end of the range is all the range selects. */
  lemma SelectedOnlyFirst(chunks: seq<FileChunk>, start: int, end: int)
    requires |chunks| > 0 && Contiguous(chunks) && start < end
    requires chunks[0].startOffset < end <= chunks[0].endOffset
    ensures Select(chunks, start, end) == [chunks[0]]
    ensures RunThrough(Select(chunks, start, end), chunks[0], start, end)
  {
    if |chunks| > 1 {
      TailContiguous(chunks);
      NothingBeyond(chunks[1..], start, end);
    }
  }

  /** A first chunk that ends before the range is not selected. */
  lemma SkipFirst(chunks: seq<FileChunk>, start: int, end: int)
    requires |chunks| > 1 && chunks[0].endOffset <= start
    requires chunks[1].startOffset == chunks[0].endOffset
    requires RunThrough(Select(chunks[1..], start, end), chunks[1], start, end)
    ensures RunThrough(Select(chunks, start, end), chunks[0], start, end)
  {
    assert Select(chunks, start, end) == Select(chunks[1..], start, end);
  }

  /** A first chunk that overlaps the range but ends inside it heads the
      selection, and the next chunk follows it. */
  lemma KeepFirst(chunks: seq<FileChunk>, start: int, end: int)
    requires |chunks| > 1 && Contiguous(chunks)
    requires chunks[0].startOffset < end && start < chunks[0].endOffset < end
    requires chunks[1].startOffset == chunks[0].endOffset && chunks[1..][0] == chunks[1]
    requires RunThrough(Select(chunks[1..], start, end), chunks[1], start, end)
    ensures RunThrough(Select(chunks, start, end), chunks[0], start, end)
  {
    var tail := chunks[1..];
    var rt := Select(tail, start, end);
    assert rt[0] == tail[0] by {
      assert Overlaps(tail[0], start, end);
      assert rt == [tail[0]] + Select(tail[1..], start, end);
    }
    assert Select(chunks, start, end) == [chunks[0]] + rt;
    ConsContiguous(chunks[0], rt);
  }

  lemma ConsContiguous(x: FileChunk, run: seq<FileChunk>)
    requires |run| > 0 && Contiguous(run)
    requires x.startOffset < x.endOffset == run[0].startOffset
    ensures Contiguous([x] + run)
  {
    var r := [x] + run;
    assert forall i :: 1 <= i < |r| ==> r[i] == run[i - 1];
  }

  /** Over chunks that tile a file, a non-empty range inside the file selects
      a non-empty run of adjacent chunks that starts at or before the range
      and ends at or after it. */
  lemma SelectionCoversRange(chunks: seq<FileChunk>, size: int, start: int, end: int)
    requires Tiles(Spans(chunks), size)
    requires 0 <= start < end <= size
    ensures var r := Select(chunks, start, end);
      && |r| > 0 && Contiguous(r)
      && r[0].startOffset <= start && r[|r| - 1].endOffset >= end
  {
    TiledChunks(chunks, size);
    SelectedRun(chunks, start, end);
  }
}
