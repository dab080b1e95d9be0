/** Opening a byte range of a chunked file (drivers/notion/types.go,
    `ChunkedRangeReadCloser.RangeRead`): the bounds checks, the request end
    clamped to the file, the chunks the range needs, and the reader that
    serves them. */
module Download {
  import opened Results
  import opened Records
  import opened Layout
  import opened RangeMap
  import opened Reader
  import opened ReaderProofs

  /** A chunked file as the link hands it out: its chunk rows and its size. */
  datatype RangeReadCloser = RangeReadCloser(chunks: seq<FileChunk>, fileSize: int)

  /** An HTTP range request: `length == -1` asks for the rest of the file. */
  datatype HttpRange = HttpRange(start: int, length: int)

  datatype RangeError =
    | InvalidStart(start: int)
    | StartBeyondSize(start: int, size: int)
    | NoChunksForRange(start: int, last: int, size: int, total: int)

  /** The end of the request: the asked length from `start` (the rest of
      the file for length -1), but never past the end of the file. */
  function RequestEnd(fileSize: int, r: HttpRange): int {
    var length := if r.length == -1 then fileSize - r.start else r.length;
    if r.start + length > fileSize then fileSize else r.start + length
  }

  /** `RangeRead`: a reader positioned at the first chunk the range needs,
      or the error the code returns. */
  function RangeRead(c: RangeReadCloser, r: HttpRange): (res: Result<State, RangeError>)
    ensures r.start < 0 <==> res == Failure(InvalidStart(r.start))
    ensures 0 <= r.start && c.fileSize <= r.start <==> res == Failure(StartBeyondSize(r.start, c.fileSize))
    ensures res.Success? ==>
      && 0 <= r.start < c.fileSize
      && res.value == Init(res.value.chunks, r.start, RequestEnd(c.fileSize, r))
      && res.value.requestEnd <= c.fileSize
      && (r.length == -1 ==> res.value.requestEnd == c.fileSize)
      && (0 <= r.length && r.start + r.length <= c.fileSize ==> res.value.requestEnd == r.start + r.length)
      && |res.value.chunks| > 0
    ensures res.Failure? && res.error.NoChunksForRange? ==>
      && 0 <= r.start < c.fileSize
      && res.error == NoChunksForRange(r.start, RequestEnd(c.fileSize, r) - 1, c.fileSize, |c.chunks|)
  {
    if r.start < 0 then Failure(InvalidStart(r.start))
    else if r.start >= c.fileSize then Failure(StartBeyondSize(r.start, c.fileSize))
    else
      var end := RequestEnd(c.fileSize, r);
      var needed := Select(c.chunks, r.start, end);
      if |needed| == 0 then
        Failure(NoChunksForRange(r.start, end - 1, c.fileSize, |c.chunks|))
      else Success(Init(needed, r.start, end))
  }

  /** The bound of Go's `int64`: its values are `[-Int64Limit, Int64Limit)`. */
  const Int64Limit: int := 0x8000_0000_0000_0000

  predicate IsInt64(x: int) {
    -Int64Limit <= x < Int64Limit
  }

  /** Go's `int64` addition: the sum wrapped into the `int64` range. */
  function AddInt64(a: int, b: int): (r: int)
    ensures IsInt64(r)
    ensures IsInt64(a + b) ==> r == a + b
    ensures a + b >= Int64Limit && a + b < 3 * Int64Limit ==> r == a + b - 2 * Int64Limit
  {
    (a + b + Int64Limit) % (2 * Int64Limit) - Int64Limit
  }

  /** `RangeRead` as the code computes it, in `int64`: the sum
      `Start + Length` wraps, and so does the `requestEnd - 1` of the error. */
  function RangeReadInt64(c: RangeReadCloser, r: HttpRange): Result<State, RangeError> {
    if r.start < 0 then Failure(InvalidStart(r.start))
    else if r.start >= c.fileSize then Failure(StartBeyondSize(r.start, c.fileSize))
    else
      var length := if r.length == -1 then c.fileSize - r.start else r.length;
      var sum := AddInt64(r.start, length);
      var end := if sum > c.fileSize then c.fileSize else sum;
      var needed := Select(c.chunks, r.start, end);
      if |needed| == 0 then
        Failure(NoChunksForRange(r.start, AddInt64(end, -1), c.fileSize, |c.chunks|))
      else Success(Init(needed, r.start, end))
  }

  /** On `int64` values, the code computes what `RangeRead` does unless the
      asked length reaches past the largest `int64` from the start (or the
      error's `requestEnd - 1` wraps below the smallest). */
  lemma RangeReadInt64Agrees(c: RangeReadCloser, r: HttpRange)
    requires IsInt64(c.fileSize) && IsInt64(r.start) && IsInt64(r.length)
    requires r.length == -1 || -Int64Limit < r.start + r.length < Int64Limit
    ensures RangeReadInt64(c, r) == RangeRead(c, r)
  {
  }

  /** A length that reaches past the largest `int64` makes the sum wrap
      below zero, so the clamp to the file is skipped and no chunk row of
      the file overlaps the range: the code reports that no chunk was
      found, where the clamped range would have been read. */
  lemma OverflowingRangeFindsNoChunks(c: RangeReadCloser, r: HttpRange)
    requires IsInt64(c.fileSize) && IsInt64(r.length)
    requires 0 <= r.start < c.fileSize && r.start + r.length >= Int64Limit
    requires forall i :: 0 <= i < |c.chunks| ==> c.chunks[i].startOffset >= 0
    ensures var end := r.start + r.length - 2 * Int64Limit;
      RangeReadInt64(c, r) == Failure(NoChunksForRange(r.start, AddInt64(end, -1), c.fileSize, |c.chunks|))
    ensures RequestEnd(c.fileSize, r) == c.fileSize
  {
    var end := r.start + r.length - 2 * Int64Limit;
    assert end < 0;
    NothingOverlapsBelowZero(c.chunks, r.start, end);
  }

  /** Chunks that start at or after 0 never overlap a range ending below 0. */
  lemma {:induction false} NothingOverlapsBelowZero(chunks: seq<FileChunk>, start: int, end: int)
    requires end < 0
    requires forall i :: 0 <= i < |chunks| ==> chunks[i].startOffset >= 0
    ensures Select(chunks, start, end) == []
  {
    if |chunks| > 0 {
      NothingOverlapsBelowZero(chunks[1..], start, end);
    }
  }

  /** The smallest such request: from byte 1 for the largest `int64`
      length. The sum wraps to the smallest `int64`, and the error's last
      byte wraps back to the largest. */
  lemma OverflowExample(c: RangeReadCloser)
    requires 1 < c.fileSize < Int64Limit
    requires forall i :: 0 <= i < |c.chunks| ==> c.chunks[i].startOffset >= 0
    ensures RangeReadInt64(c, HttpRange(1, Int64Limit - 1))
         == Failure(NoChunksForRange(1, Int64Limit - 1, c.fileSize, |c.chunks|))
  {
    OverflowingRangeFindsNoChunks(c, HttpRange(1, Int64Limit - 1));
  }

  /** A range read keeps exactly the chunks that overlap the range, in
      their stored order, and fails for want of chunks exactly when none
      does. */
  lemma RangeReadSelects(c: RangeReadCloser, r: HttpRange)
    requires 0 <= r.start < c.fileSize
    ensures var end := RequestEnd(c.fileSize, r);
      && (RangeRead(c, r).Success? ==>
            && RangeRead(c, r).value.chunks == Select(c.chunks, r.start, end)
            && (forall x :: x in RangeRead(c, r).value.chunks <==> x in c.chunks && Overlaps(x, r.start, end)))
      && (RangeRead(c, r).Failure? <==> forall x :: x in c.chunks ==> !Overlaps(x, r.start, end))
  {
    var end := RequestEnd(c.fileSize, r);
    SelectKeepsOverlapping(c.chunks, r.start, end);
    var needed := Select(c.chunks, r.start, end);
    if |needed| > 0 {
      assert needed[0] in needed;
    }
  }

  /** The chunk rows of a file that was uploaded in chunks cut `[0, size)`
      into adjacent, non-empty pieces, each stored in its page. */
  ghost predicate WellStored(c: RangeReadCloser, objects: string -> seq<byte>, data: seq<byte>) {
    && |data| == c.fileSize
    && Tiles(Spans(c.chunks), c.fileSize)
    && Stores(c.chunks, objects, data)
  }

  /** Over a well-stored file, a range that starts inside the file and asks
      for the rest of it or for a positive length always opens, and the
      reader it returns serves exactly that range and has cut no chunk
      short. */
  lemma RangeReadServes(c: RangeReadCloser, r: HttpRange, objects: string -> seq<byte>, data: seq<byte>)
    requires WellStored(c, objects, data)
    requires 0 <= r.start < c.fileSize && (r.length == -1 || r.length > 0)
    ensures RangeRead(c, r).Success?
    ensures Serves(RangeRead(c, r).value, objects, data) && Fresh(RangeRead(c, r).value)
  {
    var s := RangeReadReader(c, r, objects, data);
  }

  /** The reader a range read opens over a well-stored file: positioned at
      the start of the range, with the chunks the range needs. */
  lemma RangeReadReader(c: RangeReadCloser, r: HttpRange, objects: string -> seq<byte>, data: seq<byte>)
    returns (s: State)
    requires WellStored(c, objects, data)
    requires 0 <= r.start < c.fileSize && (r.length == -1 || r.length > 0)
    ensures RangeRead(c, r) == Success(s)
    ensures Serves(s, objects, data) && Fresh(s)
    ensures Pos(s) == s.requestStart == r.start && s.requestEnd == RequestEnd(c.fileSize, r)
  {
    var end := RequestEnd(c.fileSize, r);
    SelectionCoversRange(c.chunks, c.fileSize, r.start, end);
    var needed := Select(c.chunks, r.start, end);
    SelectKeepsStored(c.chunks, objects, data, r.start, end);
    SelectedOverlap(c.chunks, r.start, end);
    s := Init(needed, r.start, end);
    assert Grounded(s, objects, data);
  }

  /** Over a well-stored file, only a range of no bytes can find no chunks:
      a range asking for the rest of the file or for a positive length that
      starts inside the file never does. */
  lemma NoChunksOnlyForEmptyRanges(c: RangeReadCloser, r: HttpRange, objects: string -> seq<byte>, data: seq<byte>)
    requires WellStored(c, objects, data)
    requires RangeRead(c, r).Failure? && RangeRead(c, r).error.NoChunksForRange?
    ensures r.length != -1 && r.length <= 0
  {
    if r.length == -1 || r.length > 0 {
      RangeReadServes(c, r, objects, data);
    }
  }

  /** Whatever the remote side does, the corrected reader a range read
      returns over a well-stored file delivers only the bytes of the file
      the range asked for, in order, without gap or repetition; and once
      it reports the end of data it has delivered all of them. */
  lemma RangeReadDeliversRequest(c: RangeReadCloser, r: HttpRange, calls: seq<Call>,
                                 objects: string -> seq<byte>, data: seq<byte>)
    returns (s: State)
    requires WellStored(c, objects, data)
    requires 0 <= r.start < c.fileSize && (r.length == -1 || r.length > 0)
    ensures RangeRead(c, r) == Success(s)
    ensures var out := Run(s, calls, objects, Resuming).1;
      out == data[r.start..r.start + |out|] && r.start + |out| <= RequestEnd(c.fileSize, r)
    ensures var run := Run(s, calls, objects, Resuming);
      Exhausted(run.0) ==> run.1 == data[r.start..RequestEnd(c.fileSize, r)]
  {
    s := RangeReadReader(c, r, objects, data);
    ResumingRunBytes(s, calls, objects, data);
  }

  /** On a run in which no body breaks and no server answers 200, the
      reader as written delivers the same: the bytes of the range, in order,
      each once, and all of them by the end of data. */
  lemma RangeReadCleanRun(c: RangeReadCloser, r: HttpRange, calls: seq<Call>,
                          objects: string -> seq<byte>, data: seq<byte>)
    returns (s: State)
    requires WellStored(c, objects, data)
    requires 0 <= r.start < c.fileSize && (r.length == -1 || r.length > 0)
    requires AllClean(calls)
    ensures RangeRead(c, r) == Success(s)
    ensures var out := Run(s, calls, objects, AsWritten).1;
      out == data[r.start..r.start + |out|] && r.start + |out| <= RequestEnd(c.fileSize, r)
    ensures var run := Run(s, calls, objects, AsWritten);
      Exhausted(run.0) ==> run.1 == data[r.start..RequestEnd(c.fileSize, r)]
  {
    s := RangeReadReader(c, r, objects, data);
    CleanRunBytes(s, calls, objects, data);
  }
}
