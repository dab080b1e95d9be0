/** The persistent records of the Notion storage driver (drivers/notion/types.go)
    restricted to the fields the chunking logic reads or writes, plus the
    `max`/`min` helpers of the same file. Database-managed columns (ids of the
    rows themselves, soft-delete flags, timestamps) are not modelled. */
module Records {

  /** One octet of file content. */
  type byte = x: int | 0 <= x < 256

  /** A `FileChunk` row: the `chunkIndex`-th slice `[startOffset, endOffset)`
      of file `fileId`, stored as the file property of Notion page `notionPageId`. */
  datatype FileChunk = FileChunk(
    fileId: int,
    chunkIndex: int,
    chunkSize: int,
    startOffset: int,
    endOffset: int,
    notionPageId: string,
    sha1: string)

  /** A `File` row. A chunked file keeps its bytes in `FileChunk` rows; a
      single file keeps them in the page `notionPageId`. */
  datatype FileRecord = FileRecord(
    name: string,
    size: int,
    sha1: string,
    notionPageId: string,
    directoryId: int,
    isChunked: bool,
    chunkSize: int)

  function Max(a: int, b: int): (r: int)
    ensures r >= a && r >= b
    ensures r == a || r == b
  {
    if a > b then a else b
  }

  function Min(a: int, b: int): (r: int)
    ensures r <= a && r <= b
    ensures r == a || r == b
  {
    if a < b then a else b
  }
}
