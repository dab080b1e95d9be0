# Notion chunked storage, modelled in Dafny

This project models the chunking core of the Notion storage driver in
`drivers/notion`. That core has five parts:

- **Uploads.** `Put` stores a file either as one Notion page or, when the
  file is larger than 5 GiB, as a run of 4.5 GiB chunk pages. It records
  one `FileChunk` row per chunk.
- **Links.** `Link` hands out either a byte-range reader over those chunks
  or the URL of the single page.
- **Range mapping.** `ChunkedRangeReadCloser.RangeRead` checks a requested
  byte range and picks the chunks that overlap it.
- **Cross-chunk reading.** `ChunkedReader.Read` opens the chunks one at a
  time and hands out their bytes as one stream. Each opening makes at most
  three resolve-and-open attempts. The request carries an HTTP `Range`
  header as defined in section 2.1 of RFC 7233.
- **Helpers.** The content type of an upload, extension stripping, and the
  Content-Length of the multipart POST to S3.

Everything is pure: datatypes and total functions.

**The remote side is an oracle.** The remote side covers page creation,
uploads, page-property lookups, the HTTP responses and the bytes a
response body yields on each read. It becomes arguments of the model:

- `UploadEnv` for an upload;
- a sequence of `Attempt`s and a `Signal` for each `Read` call;
- a function from page ids to stored bytes.

The properties hold for every answer these arguments can give, within
what the model fixes about them:

- a 206 response carries exactly the bytes its `Range` header selects from
  the chunk's object (section 4.1 of RFC 7233), and a 200 response carries
  the whole object;
- a read from a body with no bytes left reports the body's end (`io.EOF`),
  unless the body breaks;
- the stored objects do not change during a read;
- the end-to-end theorems assume uploads that store the bytes they are
  given (`Driver.Faithful`) and chunk rows that tile the file.

The code checks none of these; "## Left out" says what falls outside.

**Sizes.** Sizes are unbounded integers. Strings are `seq<char>`. Go's
`len` of a string is its UTF-8 byte count (`Multipart.ByteLen`).

**The reader under two policies.** The reader is modelled as written
(`Policy.AsWritten`) and as corrected (`Policy.Resuming`). The two
differences are the two findings below:

- `Download.RangeReadDeliversRequest` proves that the corrected reader
  always delivers a prefix of exactly the requested bytes. Once it reports
  the end of data, it has delivered all of them.
- `ReaderProofs.CleanRunDeliversRequest` proves that the reader as written
  behaves identically on every run in which no response body breaks and no
  server answers 200.

**Constants as the code has them:**

- **Chunk size.** Chunks are 4.5 GiB (4 831 838 208 bytes).
  `Layout.TenGigabytePlan` gives the layout of a 10¹⁰-byte file.
- **Threshold.** Only files strictly larger than 5 GiB are chunked.
- **Retry delays.** The code sleeps only after a failure that is not the
  last one, so the delays between attempts are 1 s and then 2 s.

## Model

| member | source | states |
|---|---|---|
| Layout.ChunkCount | drivers/notion/driver.go:496 | The round-up division gives the least count of 4.5 GiB chunks that covers the file: the count minus one chunks fall short of the size, and the count covers it. An empty file has no chunks. |
| Layout.PlanIsPartition | drivers/notion/driver.go:519-529 | For a non-empty file, the planned bounds start at 0, each ends where the next starts, and the last ends at the file size. Every chunk is non-empty and at most `MaxChunkSize` long, and only the last may be shorter. |
| Layout.ChunkedFileHasSeveralChunks | drivers/notion/driver.go:21-26 | Any file of at least 5 GiB has at least two chunks, so every chunked upload has several. |
| Layout.ChunkSpanBounds | drivers/notion/driver.go:519-529 | A planned chunk lies inside the file and is non-empty. Every chunk but the last is exactly `MaxChunkSize` long. |
| Layout.TenGigabytePlan | drivers/notion/driver.go:519-529 | A 10¹⁰-byte file is cut into two full 4.5 GiB chunks and a 336 323 584-byte tail. |
| Driver.ChunkNamesDistinct | drivers/notion/driver.go:531-533 | Two chunk page titles `<name>.chunk<i>` of one file are equal iff their indices are, so no two chunks of an upload ask for pages with the same title. |
| Driver.ChunkRow | drivers/notion/driver.go:524-567 | The row for chunk `i` has index `i`, the file's id, the page and the hash. Its size is end − start. For a planned chunk (`i` below the chunk count) the row lies inside the file, `0 ≤ start < end ≤ size`, and its size is between 1 and `MaxChunkSize`. Every chunk but the last is exactly `MaxChunkSize` long. |
| Driver.UploadChunks | drivers/notion/driver.go:517-569 | On success, one row per remaining chunk, in index order. Each row has its index, the file's id, the planned bounds, and size = end − start. Each row records the page created under that chunk's title and the hash its upload returned. On failure, the first chunk index at which the request was cancelled, page creation failed, or the upload failed. |
| Driver.PutChunked | drivers/notion/driver.go:494-583 | On success, a chunked `File` record with chunk size `MaxChunkSize`, plus chunk rows whose bounds are the plan. Row `k` has index `k`, the file's id, and a size of end − start between 1 and `MaxChunkSize`. It records the page created under the title `<name>.chunk<k>` and the hash the upload of its bytes to that page returned. On any failure no chunk row is saved. The `File` row stays behind exactly when it had been created before the failure. |
| Driver.PutSingle | drivers/notion/driver.go:456-491 | On success, an unchunked record with chunk size 0, for the page created under the file name and the hash its upload returned. A failure saves nothing. |
| Driver.Put | drivers/notion/driver.go:444-453 | The record is named after `filepath.Base` of the path. It is chunked iff the size exceeds 5 GiB (strictly), and its chunk size follows the same rule. A chunked upload saves `ChunkCount ≥ 2` rows in chunk order, each with the index, size, page and hash facts stated for `PutChunked`. A failure saves no chunk rows, and only the chunked path can leave a `File` row. |
| Driver.ChunkRowsPartitionFile | drivers/notion/driver.go:517-574 | The chunk rows a successful chunked `Put` saves partition the file. |
| Driver.UploadedChunksStored | drivers/notion/driver.go:538-553 | When each upload stores the section of the file it was given, every saved chunk's page holds exactly its bytes of the file. |
| Driver.Link | drivers/notion/driver.go:133-168 | A failed `File` lookup is an error. A range reader is built iff the file is chunked and its chunk query returned a non-empty list, and the reader is over that list. A failed chunk query and an empty chunk list are distinct errors. An unchunked file links to the first file of its page property. |
| Driver.PutThenLink | drivers/notion/driver.go:140-156 | After a successful chunked upload, `Link` on the saved rows yields a range reader whose chunks tile the file and hold its bytes. |
| Download.RangeRead | drivers/notion/types.go:303-344 | The end is computed without `int64` wrap-around (see the findings). Errors: `Start < 0` exactly for the invalid-start error, and `Start ≥ size` exactly for the beyond-size error. On success the reader starts at chunk 0 with nothing read, and its request end is the clamped end. A length of −1 means the rest of the file. Any length that fits is kept. The selected list is non-empty. The no-chunks error carries the range and the counts. |
| Download.RangeReadInt64Agrees | drivers/notion/types.go:303-344 | On `int64` inputs whose sum `Start + Length` stays strictly inside the `int64` range, the code's `int64` computation returns exactly what `RangeRead` returns. A length of −1 always qualifies. |
| Download.OverflowingRangeFindsNoChunks | drivers/notion/types.go:316-335 | When `Start + Length` passes the largest `int64`, the sum wraps below zero and the clamp is skipped. No chunk row starting at or after 0 overlaps, so the code returns the no-chunks error with the wrapped end. `RangeRead` clamps the same request to the file size. |
| Download.OverflowExample | drivers/notion/types.go:316-335 | `Start = 1` with `Length = 2⁶³ − 1` gives the no-chunks error. Its last byte wraps around to 2⁶³ − 1. |
| Download.RangeReadSelects | drivers/notion/types.go:323-335 | For a valid start, the reader's chunks are exactly the overlapping input chunks, in input order. The call fails iff no chunk overlaps. |
| Download.RangeReadReader | drivers/notion/types.go:337-343 | Over stored chunks that tile the file, a valid request of positive or −1 length yields a reader that serves the request from its first byte. |
| Download.RangeReadServes | drivers/notion/types.go:337-343 | Over stored chunks that tile the file, a valid request of positive or −1 length always gets a reader, and that reader serves the request. |
| Download.NoChunksOnlyForEmptyRanges | drivers/notion/types.go:332-335 | Over chunks that tile the file, the no-chunks error only arises for a length that is neither −1 nor positive. |
| Download.RangeReadDeliversRequest | drivers/notion/types.go:303-439 | For every sequence of reads and every oracle answer, the corrected reader hands out a prefix of the requested bytes of the file, and never more than requested. Once the reader is at end of data, the output is the whole of `data[start..end]`: either every requested byte arrives or the reader is not done. |
| Download.RangeReadCleanRun | drivers/notion/types.go:358-439 | The reader as written does the same, including the completeness at end of data, on every run in which no body breaks and no server answers 200. |
| RangeMap.SelectKeepsOverlapping | drivers/notion/types.go:324-330 | The selection holds exactly the chunks that overlap `[start, end)`. |
| RangeMap.SubRange | drivers/notion/types.go:372-373 | For an overlapping chunk, the sub-range is a non-empty part of the chunk. Its absolute positions are exactly the positions the chunk and the range share. |
| RangeMap.AssembleSelected | drivers/notion/types.go:369-373 | Over adjacent stored chunks, reading each selected chunk's sub-range in order yields the file bytes of the range clipped to the chunks. |
| RangeMap.ReassemblyIsExact | drivers/notion/types.go:324-373 | Over chunks that tile the file, concatenating the selected sub-ranges in order is exactly `data[start..end]`. |
| RangeMap.NonEmptyRangeSelectsChunks | drivers/notion/types.go:332 | Over chunks that tile the file, a non-empty range inside the file selects at least one chunk. |
| RangeMap.SelectedRun | drivers/notion/types.go:324-330 | Over adjacent chunks reaching the end of the range, the selection is a non-empty run of adjacent chunks that starts at or before the range and ends at or after it. |
| RangeMap.SelectionCoversRange | drivers/notion/types.go:324-330 | Over chunks that tile the file, the selection for a non-empty range is a run of adjacent chunks from the one holding `start` to the one holding `end − 1`. |
| Records.Max | drivers/notion/types.go:485-490 | The result is one of the arguments and no smaller than either. |
| Records.Min | drivers/notion/types.go:492-497 | The result is one of the arguments and no larger than either. |
| ByteRange.ChunkRange | drivers/notion/types.go:454-459 | A positive length asks for exactly `length` bytes from `offset` of any object long enough. Any other length asks for the rest of the object. |
| ByteRange.RenderParse | drivers/notion/types.go:455-459 | The header text `bytes=a-b` or `bytes=a-` determines the range: parsing it gives the range back. |
| Decimal.ParseNatToString | drivers/notion/types.go:456 | Parsing the `%d` rendering of a number gives the number back. |
| Decimal.NatToStringInjective | drivers/notion/driver.go:532 | Different numbers render differently. |
| Reader.Open | drivers/notion/types.go:375-405 | At most three attempts are made, and the delays before retries are 1, 2, … seconds, one per failed non-final attempt. Only a lookup failure, a request failure or an unaccepted status is retried. A page with no files fails at once. An accepted status (206 or 200) succeeds at once. The third failure reports three attempts. |
| Reader.Read | drivers/notion/types.go:358-439 | Reads never change the chunk list or the request, and they add the delivered count to `totalRead`. They never deliver more than the buffer, or than is still owed. An exhausted reader returns end-of-data and changes nothing. End-of-data leaves the reader exhausted. A transfer error drops the body and keeps the chunk. A failed opening changes nothing. Only end of body advances to the next chunk. Every opening is of the current chunk, within the attempt bound. |
| Reader.ReadBody | drivers/notion/types.go:411-436 | The bytes delivered are a prefix of what the body still holds, cut to the buffer and to what is owed. An open body keeps the rest. A body that ends advances to the next chunk, and only after handing out all it held. |
| Reader.ReadAfterClose | drivers/notion/types.go:412-446 | `Close` closes the open body but, as in the code, the reader keeps it. The next read that is still owed bytes fails with nothing delivered, exactly as a body that breaks at once. That read drops the body and keeps the chunk, so no body is open after it. Closing an idle reader changes nothing, and an exhausted reader still reports end of data. |
| ReaderProofs.Run | drivers/notion/types.go:412-418 | Over any sequence of reads, `totalRead` grows by exactly what was delivered and never passes the requested length. An exhausted reader delivers nothing. |
| ReaderProofs.ExhaustedStaysExhausted | drivers/notion/types.go:359-367 | Once exhausted, every further sequence of reads delivers nothing and changes no state. |
| ReaderProofs.RequestsAreClosedRanges | drivers/notion/types.go:455-456 | Every range a serving reader asks for is a closed `first-last` range with `first ≤ last`. |
| ReaderProofs.ReadOpenFails | drivers/notion/types.go:378-405 | When every attempt of an opening fails, the read delivers nothing and leaves the reader as it was, so the next read opens the same chunk. |
| ReaderProofs.OpenedBodyIsOwedBytes | drivers/notion/types.go:448-482 | For a 206 response, or under the corrected policy, the opened body is exactly the bytes of the file the request still needs from this chunk. |
| ReaderProofs.BodyStep | drivers/notion/types.go:411-436 | Reading from a body that holds the owed bytes keeps the reader serving, and delivers the next bytes of the file. |
| ReaderProofs.ResumingStep | drivers/notion/types.go:358-439 | One corrected read from a serving reader keeps it serving and delivers exactly the file bytes from the old position to the new one. |
| ReaderProofs.ResumingRunDeliversRequest | drivers/notion/types.go:358-439 | Over any sequence of corrected reads, the reader keeps serving and the concatenated output is the file between the start and end positions. |
| ReaderProofs.ServedWhenExhausted | drivers/notion/types.go:359-428 | A serving reader is at end of data iff it has delivered the whole request. |
| ReaderProofs.ResumingEndIsComplete | drivers/notion/types.go:421-429 | When a corrected read reports end of data, the reader has delivered up to the end of the request, and this read delivered all the bytes that were still owed. |
| ReaderProofs.ResumingRunBytes | drivers/notion/types.go:412-418 | The corrected reader's output is the file from the current position on, and never longer than what is owed. Once the reader is at end of data, the output is everything that was owed. |
| ReaderProofs.PoliciesAgree | drivers/notion/types.go:369-409 | On a fresh opening where no server answers 200, the reader as written and the corrected reader do the same thing. |
| ReaderProofs.CleanStepAgrees | drivers/notion/types.go:358-439 | On a clean call from a reader that has cut no chunk short, the two policies agree and no chunk is cut short afterwards. |
| ReaderProofs.CleanRunDeliversRequest | drivers/notion/types.go:358-439 | On a run of clean calls, the reader as written equals the corrected one, so it delivers exactly the file bytes between its positions. |
| ReaderProofs.CleanRunBytes | drivers/notion/types.go:412-418 | On clean runs, the reader as written delivers a prefix of the owed bytes and never more. Once it is at end of data, it has delivered all of them. |
| ReaderProofs.OpenOnce | drivers/notion/types.go:403-404 | An accepted response on the first attempt opens the chunk after one attempt with no delay. |
| ReaderProofs.RetryScenario | drivers/notion/types.go:378-405 | Two lookup failures then a 206 open the chunk on the third attempt after delays of 1 s and 2 s. Three failures end with the three-attempt error and the same delays. |
| ReaderProofs.RetryRedeliversBytes | drivers/notion/types.go:431-435 | As written, a body that breaks after two bytes makes the next read deliver those two bytes again. The corrected reader delivers the file. |
| ReaderProofs.FullResponseMisplacesBytes | drivers/notion/types.go:476-480 | As written, a 200 answer to a range starting at offset 2 delivers the object's first bytes. The corrected reader delivers bytes 2 and 3. |
| Mime.GetContentType | drivers/notion/util.go:146-186 | The lookup is total, its result is non-empty, and it is one of the listed types. |
| Mime.LookupAgreesWithTable | drivers/notion/util.go:146-186 | The type is what the extension table lists for the lower-cased extension, and the default for any other extension or none. |
| Mime.VideoEntries | drivers/notion/util.go:149-150 | `.mp4`, `.m4v`, `.mov` and `.mkv` are `video/mp4`. |
| Mime.AudioEntries | drivers/notion/util.go:151-152 | `.mp3`, `.wav` and `.ogg` are `audio/mpeg`. |
| Mime.ImageEntries | drivers/notion/util.go:153-158 | `.jpg` and `.jpeg` are `image/jpeg`, `.png` is `image/png` and `.gif` is `image/gif`. |
| Mime.DocumentEntries | drivers/notion/util.go:159-162 | `.pdf` is `application/pdf`; `.doc` and `.docx` are `application/msword`. |
| Mime.OfficeEntries | drivers/notion/util.go:163-166 | `.xls` and `.xlsx` are `application/vnd.ms-excel`; `.ppt` and `.pptx` are `application/vnd.ms-powerpoint`. |
| Mime.ArchiveEntries | drivers/notion/util.go:167-170 | `.zip` and `.rar` map to their archive types. |
| Mime.TextEntries | drivers/notion/util.go:171-176 | `.txt` is `text/plain` and `.css` is `text/css`. |
| Mime.WebEntries | drivers/notion/util.go:173-174 | `.html` and `.htm` are `text/html`. |
| Mime.CodeEntries | drivers/notion/util.go:177-182 | `.js`, `.json` and `.xml` map to their application types. |
| Mime.UnlistedExtensions | drivers/notion/util.go:183-184 | An extension outside the table maps to `application/octet-stream`. |
| Mime.CaseInsensitive | drivers/notion/util.go:147 | Names that differ only in letter case get the same type. |
| Mime.SameLowerExt | drivers/notion/util.go:147 | Names that differ only in letter case have extensions that lower-case to the same string. |
| Mime.ContentTypeExamples | drivers/notion/util.go:147-150 | `movie.MKV` is `video/mp4`; `dir.d/file` has no extension and gets the default. |
| Paths.Ext | drivers/notion/util.go:147 | The extension is a suffix of the path that is empty or starts with '.', and contains no separator. |
| Paths.ExtSpec | drivers/notion/util.go:147 | The extension starts at the '.' followed by neither '.' nor '/', and is empty when there is none. |
| Paths.Base | drivers/notion/util.go:135 | The base name is the last element of the path. If the path has a non-separator character, the result is separator-free. It is a suffix of the path without its trailing separators, and it starts at the beginning or just after a separator. The result is "/" iff the path is non-empty and all separators, and "." for the empty path. |
| Paths.BaseIdempotent | drivers/notion/util.go:135 | Taking the base of a base changes nothing. |
| Paths.TrimSuffix | drivers/notion/util.go:194 | When `s` ends with the suffix, the result plus the suffix is `s`; otherwise the result is `s`. |
| Paths.StripExtensionRoundTrip | drivers/notion/util.go:135 | The stripped upload name followed by the extension of the base name is the base name. |
| Multipart.ByteLenConcat | drivers/notion/util.go:262 | The byte length of a concatenation is the sum of the byte lengths. |
| Multipart.AsciiByteLen | drivers/notion/util.go:267-269 | An ASCII string has one byte per character. |
| Multipart.FieldLengthSplit | drivers/notion/util.go:266-271 | Each form field costs 45 framing bytes plus its name and value. |
| Multipart.FieldsLengthSplit | drivers/notion/util.go:265-281 | The eleven fields cost 11 × 45 framing bytes, plus 129 bytes of names, plus the values. |
| Multipart.FileHeaderSplit | drivers/notion/util.go:283-286 | The file part header is 76 literal bytes plus the base name and the content type. |
| Multipart.BoundarySplit | drivers/notion/util.go:259-262 | The two boundary lines are 12 bytes plus twice the boundary. |
| Multipart.ContentLengthClosedForm | drivers/notion/util.go:258-289 | The declared Content-Length is the file size plus 712 fixed bytes, twice the boundary, the base name, all field values and the content type once more. It is therefore at least the file size. |

## Left out

- Database work through gorm is not modelled: `Init`, `List`, `MakeDir`, `Move`, `Rename`, `Copy`, `Remove`, and the inserts and queries themselves. Their outcomes are the booleans and optional rows the model takes as arguments.
- Driver.Put: does not model the lookup of an existing file with the same name in the directory. That lookup returns the old row without uploading, and it is a database query.
- Driver.Put: the directory id comes in as an integer. The `strconv.Atoi` of the id string, whose error is ignored, is not modelled.
- Driver.Link: the chunk query's `ORDER BY chunk_index` is taken to return rows in index order. `Link` models the returned list, whatever order it is in.
- Driver.Link: for an unchunked file whose page property lists no file, the code indexes `Files[0]` and panics. The model returns the `NoFileInProperty` error instead.
- The Notion and S3 calls are oracles: `CreateDatabasePage`, `UploadFile`, `UploadAndUpdateFilePut`, `UpdateFileStatus`, `GetPageProperty`, `setCommonHeaders`, and the `client.Do` of `createChunkReader` and `UploadToS3`. The request headers other than `Range`, and the 30-minute client timeout, are not modelled.
- The goroutine and pipe that stream the multipart body to S3 are concurrency and are not modelled. The model states only the Content-Length formula. Whether `mime/multipart` emits exactly that many bytes cannot be decided from the driver's code.
- The upload progress callback is not modelled, because its percentage is floating point.
- Reader.Open: does not sleep; it records the delays it would sleep (1 s, then 2 s).
- SHA1 hashing, temporary-file caching and file-system stats (`CalculateFileSHA1`, `GetFileSize`, `IsDir`) are not modelled. Hashes are the strings the upload oracle returns, and caching is one boolean of `UploadEnv`.
- The trivial getters and stub methods of `ChunkFileStream` are not modelled, nor is the section reader that feeds each chunk upload. The upload oracle receives the chunk's span instead.
- drivers/notion/meta.go holds configuration and registration only, and is not part of this model.
- Layout.ChunkCount: sizes are unbounded integers, so int64 overflow of `fileSize + MaxChunkSize - 1` for sizes within 4.5 GiB of 2⁶³ is not modelled.
- Mime.Lower: lower-cases only ASCII letters, U+0130 and U+212A. These are the only characters whose lower case is ASCII. Every other character matches no listed extension before or after lowering, so the lookup's result is unaffected.
- Reader.Read: `currentOffset` is assigned as the code assigns it, but nothing reads it.
- Reader.ResponseBody: the model fixes what a response body holds. A 206 body is the selection of the requested range from the chunk's object, and a 200 body is the whole object. The code never checks `Content-Range` (types.go:476-482), so a server that answers 206 with a different range has its bytes passed on. That case is outside the model. So are bodies that disagree with the stored object, empty bodies that do not report their end, and objects that change during a read.
- Reader.Close: the error returned by the body's `Close` is not modelled. `Close` is not one of the calls of `ReaderProofs.Run`, so the run theorems cover reads only. `ReaderProofs.Fresh` excludes a closed body, and `Serves` is unaffected by one.
- The source's compile-time inconsistencies (differing package names and argument counts of `NewNotionService` and `CreateDatabasePage`) are ignored; the model follows the evident logic.

## Findings

| source | as written | input that shows it | evidently intended | confidence | as-written member | corrected member |
|---|---|---|---|---|---|---|
| drivers/notion/types.go:372-373, 431-435 | After a non-EOF error the body is dropped but `currentChunk` is kept. The next `Read` re-opens the chunk from `chunkStart`, which is computed from `requestStart`, not from the bytes already delivered. Bytes handed out before the error are handed out again. | One 4-byte chunk holding 10 11 12 13, request of the whole file. The first read gets 2 bytes and then the body fails; the second read completes. The caller receives 10 11 10 11. | Re-open from `requestStart + totalRead`. The code sets `currentOffset` at line 408 but never uses it. | not executed | ReaderProofs.RetryRedeliversBytes | ReaderProofs.ResumingRunDeliversRequest |
| drivers/notion/types.go:316-321, 332-334 | `requestEnd := Start + Length` is `int64` arithmetic. A length that reaches past the largest `int64` wraps the sum below zero, so the clamp `requestEnd > fileSize` is skipped. No chunk overlaps a range ending below 0, and the call fails. | `Start = 1`, `Length = 2⁶³ − 1`, on any file of more than one byte. The sum wraps to −2⁶³, and the call returns "no chunks found for range 1-9223372036854775807". | Clamp the range to the file, as the comment at line 316 says, and read `[Start, fileSize)`. | not executed; needs a client-supplied length near the `int64` maximum | Download.OverflowingRangeFindsNoChunks | Download.RangeReadServes |
| drivers/notion/types.go:476-480 | A 200 response is accepted as success for any range. Its body is the whole object, so for a sub-range that does not start at 0 the reader delivers the object's first bytes in place of the requested ones. | The same chunk, request of bytes 2-3, server answers 200. The caller receives 10 11 instead of 12 13. | Treat 200 as the whole object and deliver only the requested part of it. | not executed | ReaderProofs.FullResponseMisplacesBytes | ReaderProofs.ResumingRunDeliversRequest |
