/** Storing a file and handing out a link to it (drivers/notion/driver.go,
    `Put`, `putSingleFile`, `putChunkedFile` and `Link`). The database, the
    page-creating and uploading calls and the cancellation of the request
    are what the outside world answers; they are the fields of `UploadEnv`
    and of the arguments of `Link`, so every property below holds whatever
    they answer. */
module Driver {
  import opened Results
  import opened Records
  import opened Layout
  import opened Decimal
  import opened Paths
  import opened RangeMap
  import opened Download

  /** What the outside world answers during one upload. */
  datatype UploadEnv = UploadEnv(
    cached: bool,                               // caching the stream in a temporary file succeeds
    fileId: int,                                // the id the database gives the new `File` row
    fileRowCreated: bool,                       // inserting the `File` row succeeds
    canceled: nat -> bool,                      // the request is cancelled before chunk `i` starts
    createPage: string -> Option<string>,       // the page created under a name, if any
    upload: (string, Span) -> Option<string>,   // the SHA1 of the bytes `span` uploaded to a page, if the upload succeeds
    chunkRowsCreated: bool)                     // the batch insert of the chunk rows succeeds

  datatype PutError =
    | CacheFailed
    | FileRowFailed
    | Canceled(index: nat)
    | ChunkPageFailed(index: nat)
    | ChunkUploadFailed(index: nat)
    | ChunkRowsFailed
    | PageFailed
    | UploadFailed

  /** The rows an upload leaves in the database. */
  datatype Saved = Saved(file: Option<FileRecord>, chunks: seq<FileChunk>)

  /** What `Put` returns, and the rows it leaves behind either way. */
  datatype PutOutcome = PutOutcome(result: Result<FileRecord, PutError>, saved: Saved)

  /** The name of the page that holds chunk `i` of `name`. */
  function ChunkName(name: string, i: nat): string {
    name + ".chunk" + NatToString(i)
  }

  /** Different chunks of a file get different page names: the name of a
      chunk page determines the chunk. */
  lemma ChunkNamesDistinct(name: string, i: nat, j: nat)
    ensures ChunkName(name, i) == ChunkName(name, j) <==> i == j
  {
    if ChunkName(name, i) == ChunkName(name, j) {
      assert ChunkName(name, i)[|name| + 6..] == NatToString(i);
      assert ChunkName(name, j)[|name| + 6..] == NatToString(j);
      NatToStringInjective(i, j);
    }
  }

  /** The row of chunk `i` of a file of `fileSize` bytes, stored in `page`.
      A row of a planned chunk lies inside the file, is not empty, records
      its own size, and is a full chunk unless it is the last one. */
  function ChunkRow(fileId: int, i: nat, fileSize: nat, page: string, hash: string): (c: FileChunk)
    ensures c.fileId == fileId && c.chunkIndex == i && c.notionPageId == page && c.sha1 == hash
    ensures SpanOf(c) == ChunkSpan(i, fileSize)
    ensures c.chunkSize == c.endOffset - c.startOffset
    ensures i < ChunkCount(fileSize) ==>
      && 0 <= c.startOffset < c.endOffset <= fileSize
      && 0 < c.chunkSize <= MaxChunkSize
    ensures i + 1 < ChunkCount(fileSize) ==> c.chunkSize == MaxChunkSize
  {
    ChunkSpanBounds(i, fileSize);
    var span := ChunkSpan(i, fileSize);
    FileChunk(fileId, i, span.Size(), span.start, span.end, page, hash)
  }

  /** The upload loop of `putChunkedFile` from chunk `i` on: for each chunk,
      stop if the request was cancelled, create its page, upload its bytes,
      and collect its row. The first failure ends the loop. */
  function UploadChunks(env: UploadEnv, name: string, fileSize: nat, i: nat): (r: Result<seq<FileChunk>, PutError>)
    decreases ChunkCount(fileSize) - i
    ensures r.Success? ==> i <= ChunkCount(fileSize) ==> |r.value| == ChunkCount(fileSize) - i
    ensures r.Success? ==> forall k :: 0 <= k < |r.value| ==>
      && r.value[k].fileId == env.fileId
      && r.value[k].chunkIndex == i + k
      && SpanOf(r.value[k]) == ChunkSpan(i + k, fileSize)
      && r.value[k].chunkSize == r.value[k].endOffset - r.value[k].startOffset
      && 0 < r.value[k].chunkSize <= MaxChunkSize
      && !env.canceled(i + k)
      && env.createPage(ChunkName(name, i + k)) == Some(r.value[k].notionPageId)
      && env.upload(r.value[k].notionPageId, SpanOf(r.value[k])) == Some(r.value[k].sha1)
    ensures r.Failure? ==> r.error.Canceled? || r.error.ChunkPageFailed? || r.error.ChunkUploadFailed?
    ensures r.Failure? ==> i <= r.error.index < ChunkCount(fileSize)
    ensures r.Failure? && r.error.Canceled? ==> env.canceled(r.error.index)
    ensures r.Failure? && r.error.ChunkPageFailed? ==> env.createPage(ChunkName(name, r.error.index)).None?
    ensures r.Failure? && r.error.ChunkUploadFailed? ==>
      exists page :: env.createPage(ChunkName(name, r.error.index)) == Some(page)
        && env.upload(page, ChunkSpan(r.error.index, fileSize)).None?
  {
    if i >= ChunkCount(fileSize) then Success([])
    else if env.canceled(i) then Failure(Canceled(i))
    else match env.createPage(ChunkName(name, i))
      case None => Failure(ChunkPageFailed(i))
      case Some(page) =>
        match env.upload(page, ChunkSpan(i, fileSize))
        case None => Failure(ChunkUploadFailed(i))
        case Some(hash) =>
          match UploadChunks(env, name, fileSize, i + 1)
          case Failure(e) => Failure(e)
          case Success(rest) => Success([ChunkRow(env.fileId, i, fileSize, page, hash)] + rest)
  }

  /** What the database holds for chunk `k` of the upload of `name`: its
      index, the file's id, a non-empty size of at most one chunk that
      matches its bounds, the page created under the chunk's name, and the
      hash the upload of its bytes to that page returned. */
  predicate ChunkSaved(env: UploadEnv, name: string, k: nat, c: FileChunk) {
    && c.chunkIndex == k && c.fileId == env.fileId
    && c.chunkSize == c.endOffset - c.startOffset && 0 < c.chunkSize <= MaxChunkSize
    && env.createPage(ChunkName(name, k)) == Some(c.notionPageId)
    && env.upload(c.notionPageId, SpanOf(c)) == Some(c.sha1)
  }

  /** `putChunkedFile`: cache the stream, create the `File` row, upload every
      chunk, then insert all chunk rows in one batch. */
  function PutChunked(env: UploadEnv, name: string, fileSize: nat, dirId: int): (out: PutOutcome)
    ensures out.result.Success? ==>
      && out.result.value == FileRecord(name, fileSize, "", "", dirId, true, MaxChunkSize)
      && out.saved.file == Some(out.result.value)
      && Spans(out.saved.chunks) == Plan(fileSize)
      && forall k :: 0 <= k < |out.saved.chunks| ==> ChunkSaved(env, name, k, out.saved.chunks[k])
    ensures out.result.Failure? ==> out.saved.chunks == []
    // A failure keeps the `File` row exactly when it had been created.
    ensures out.result.Failure? ==> (out.saved.file.Some? <==> env.cached && env.fileRowCreated)
    ensures out.result.Failure? && out.saved.file.Some? ==> out.saved.file.value.isChunked
  {
    if !env.cached then PutOutcome(Failure(CacheFailed), Saved(None, []))
    else
      var f := FileRecord(name, fileSize, "", "", dirId, true, MaxChunkSize);
      if !env.fileRowCreated then PutOutcome(Failure(FileRowFailed), Saved(None, []))
      else match UploadChunks(env, name, fileSize, 0)
        case Failure(e) => PutOutcome(Failure(e), Saved(Some(f), []))
        case Success(chunks) =>
          if !env.chunkRowsCreated then PutOutcome(Failure(ChunkRowsFailed), Saved(Some(f), []))
          else
            assert Spans(chunks) == Plan(fileSize);
            PutOutcome(Success(f), Saved(Some(f), chunks))
  }

  /** `putSingleFile`: create the page, upload the whole file to it, then
      insert the `File` row. */
  function PutSingle(env: UploadEnv, name: string, fileSize: nat, dirId: int): (out: PutOutcome)
    ensures out.saved.chunks == []
    ensures out.result.Success? ==>
      && out.result.value.name == name && out.result.value.size == fileSize
      && out.result.value.directoryId == dirId
      && !out.result.value.isChunked && out.result.value.chunkSize == 0
      && env.createPage(name) == Some(out.result.value.notionPageId)
      && env.upload(out.result.value.notionPageId, Span(0, fileSize)) == Some(out.result.value.sha1)
      && out.saved.file == Some(out.result.value)
    ensures out.result.Failure? ==> out.saved.file.None?
  {
    match env.createPage(name)
    case None => PutOutcome(Failure(PageFailed), Saved(None, []))
    case Some(page) =>
      match env.upload(page, Span(0, fileSize))
      case None => PutOutcome(Failure(UploadFailed), Saved(None, []))
      case Some(hash) =>
        var f := FileRecord(name, fileSize, hash, page, dirId, false, 0);
        if !env.fileRowCreated then PutOutcome(Failure(FileRowFailed), Saved(None, []))
        else PutOutcome(Success(f), Saved(Some(f), []))
  }

  /** `Put` of a new file: its base name, and the chunked path exactly when
      it is larger than the threshold. */
  function Put(env: UploadEnv, path: string, fileSize: nat, dirId: int): (out: PutOutcome)
    // The stored record describes the upload, and says how it was stored.
    ensures out.result.Success? ==>
      && out.result.value.name == Base(path)
      && out.result.value.size == fileSize
      && out.result.value.directoryId == dirId
      && (out.result.value.isChunked <==> fileSize > ChunkThreshold)
      && out.result.value.chunkSize == (if fileSize > ChunkThreshold then MaxChunkSize else 0)
      && out.saved.file == Some(out.result.value)
    // A chunked upload saves one row per planned chunk, in chunk order.
    ensures out.result.Success? && fileSize > ChunkThreshold ==>
      && Spans(out.saved.chunks) == Plan(fileSize)
      && |out.saved.chunks| == ChunkCount(fileSize) >= 2
      && forall k :: 0 <= k < |out.saved.chunks| ==> ChunkSaved(env, Base(path), k, out.saved.chunks[k])
    // A single upload saves no chunk rows.
    ensures fileSize <= ChunkThreshold ==> out.saved.chunks == []
    // A failed upload saves no chunk rows; only the chunked path can leave
    // its `File` row behind.
    ensures out.result.Failure? ==> out.saved.chunks == []
    ensures out.result.Failure? && out.saved.file.Some? ==>
      fileSize > ChunkThreshold && out.saved.file.value.isChunked
  {
    var name := Base(path);
    if fileSize > ChunkThreshold then
      ChunkedFileHasSeveralChunks(fileSize);
      PutChunked(env, name, fileSize, dirId)
    else PutSingle(env, name, fileSize, dirId)
  }

  /** The chunk rows of a successful chunked upload partition the file:
      they start at 0, end at the size, follow one another, and all but the
      last are a full chunk long. */
  lemma ChunkRowsPartitionFile(env: UploadEnv, path: string, fileSize: nat, dirId: int)
    requires fileSize > ChunkThreshold
    requires Put(env, path, fileSize, dirId).result.Success?
    ensures IsPartition(Spans(Put(env, path, fileSize, dirId).saved.chunks), fileSize)
  {
    PlanIsPartition(fileSize);
  }

  /** The uploading calls keep what they are given: a page to which an
      upload of the bytes `span` of `data` succeeded holds those bytes.
      This describes the oracle as a whole, not one call: it accepts one
      span per page, or spans whose bytes coincide. A chunked `Put` meets
      that, since its chunks go to pages created under distinct names
      (`ChunkNamesDistinct`). */
  ghost predicate Faithful(env: UploadEnv, objects: string -> seq<byte>, data: seq<byte>) {
    forall page: string, span: Span ::
      env.upload(page, span).Some? && 0 <= span.start <= span.end <= |data| ==>
        objects(page) == data[span.start..span.end]
  }

  datatype LinkError = FileLookupFailed | ChunkQueryFailed | NoChunks | PropertyFailed | NoFileInProperty

  /** What a link hands out: a range reader over the chunks, or the URL of
      the single page. */
  datatype FileLink = Ranged(reader: RangeReadCloser) | Url(url: string)

  /** `Link`: the `File` row (`None` when the lookup fails); for a chunked
      file, the chunk rows of the file in chunk order (`None` when the query
      fails); for a single file, the URLs of the files of its page (`None`
      when that call fails). */
  function Link(file: Option<FileRecord>, chunks: Option<seq<FileChunk>>, urls: Option<seq<string>>): (r: Result<FileLink, LinkError>)
    ensures file.None? <==> r == Failure(FileLookupFailed)
    // A range reader is built only for a chunked file, over its chunk rows,
    // and never over an empty list of them.
    ensures r.Success? && r.value.Ranged? <==>
      file.Some? && file.value.isChunked && chunks.Some? && chunks.value != []
    ensures r.Success? && r.value.Ranged? ==>
      r.value.reader == RangeReadCloser(chunks.value, file.value.size) && |r.value.reader.chunks| > 0
    ensures file.Some? && file.value.isChunked ==>
      (r == Failure(ChunkQueryFailed) <==> chunks.None?) && (r == Failure(NoChunks) <==> chunks == Some([]))
    // A single file links to the first file of its page.
    ensures r.Success? && r.value.Url? <==>
      file.Some? && !file.value.isChunked && urls.Some? && urls.value != []
    ensures r.Success? && r.value.Url? ==> r.value.url == urls.value[0]
    ensures file.Some? && !file.value.isChunked ==>
      (r == Failure(PropertyFailed) <==> urls.None?) && (r == Failure(NoFileInProperty) <==> urls == Some([]))
  {
    match file
    case None => Failure(FileLookupFailed)
    case Some(f) =>
      if f.isChunked then
        match chunks
        case None => Failure(ChunkQueryFailed)
        case Some(cs) => if cs == [] then Failure(NoChunks) else Success(Ranged(RangeReadCloser(cs, f.size)))
      else
        match urls
        case None => Failure(PropertyFailed)
        case Some(us) => if us == [] then Failure(NoFileInProperty) else Success(Url(us[0]))
  }

  /** A chunked file stored by `Put` through faithful uploading calls can be
      read back: its link is a range reader whose chunks tile the file and
      whose pages hold the file's bytes. */
  lemma PutThenLink(env: UploadEnv, path: string, data: seq<byte>, dirId: int, objects: string -> seq<byte>)
    requires |data| > ChunkThreshold
    requires Faithful(env, objects, data)
    requires Put(env, path, |data|, dirId).result.Success?
    ensures var saved := Put(env, path, |data|, dirId).saved;
      var l := Link(saved.file, Some(saved.chunks), None);
      l.Success? && l.value.Ranged? && WellStored(l.value.reader, objects, data)
  {
    var fileSize := |data|;
    var saved := Put(env, path, fileSize, dirId).saved;
    ChunkRowsPartitionFile(env, path, fileSize, dirId);
    assert UploadChunks(env, Base(path), fileSize, 0) == Success(saved.chunks);
    UploadedChunksStored(env, Base(path), data, saved.chunks, objects);
  }

  /** Through faithful uploading calls, each page the upload loop filled
      holds the bytes of its chunk. */
  lemma UploadedChunksStored(env: UploadEnv, name: string, data: seq<byte>, cs: seq<FileChunk>, objects: string -> seq<byte>)
    requires Faithful(env, objects, data)
    requires UploadChunks(env, name, |data|, 0) == Success(cs)
    requires Tiles(Spans(cs), |data|)
    ensures Stores(cs, objects, data)
  {
    forall i | 0 <= i < |cs|
      ensures 0 <= cs[i].startOffset <= cs[i].endOffset <= |data|
      ensures objects(cs[i].notionPageId) == data[cs[i].startOffset..cs[i].endOffset]
    {
      assert Spans(cs)[i] == SpanOf(cs[i]);
      TileWithinFile(Spans(cs), |data|, i);
      assert env.upload(cs[i].notionPageId, SpanOf(cs[i])).Some?;
    }
  }

  /** Every piece of a tiling lies inside the tiled range. */
  lemma {:induction false} TileWithinFile(spans: seq<Span>, size: int, i: nat)
    requires Tiles(spans, size) && i < |spans|
    ensures 0 <= spans[i].start < spans[i].end <= size
    decreases |spans| - i
  {
    if i + 1 < |spans| {
      TileWithinFile(spans, size, i + 1);
      assert spans[i].end == spans[i + 1].start;
    }
    TileStartsAfterZero(spans, size, i);
  }

  lemma {:induction false} TileStartsAfterZero(spans: seq<Span>, size: int, i: nat)
    requires Tiles(spans, size) && i < |spans|
    ensures 0 <= spans[i].start
  {
    if i > 0 {
      TileStartsAfterZero(spans, size, i - 1);
      assert spans[i - 1].end == spans[i].start;
    }
  }
}
