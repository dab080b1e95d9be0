/** The content type the driver declares for an upload
    (drivers/notion/util.go, `GetContentType`): the file's extension,
    lower-cased, looked up in a fixed list, with a default for everything
    else. */
module Mime {
  import opened Paths

  /** `unicode.ToLower` on the characters whose lower case is ASCII (the
      ASCII capitals, U+0130 and U+212A). Every other character is left as
      it is: its lower case is not ASCII either, so it matches none of the
      listed extensions before or after lowering. */
  function LowerChar(c: char): char {
    if 'A' <= c <= 'Z' then (c as int + 32) as char
    else if c == '\U{0130}' then 'i'
    else if c == '\U{212A}' then 'k'
    else c
  }

  /** `strings.ToLower`, character by character. */
  function Lower(s: string): (r: string)
    ensures |r| == |s|
    ensures forall i :: 0 <= i < |s| ==> r[i] == LowerChar(s[i])
  {
    seq(|s|, i requires 0 <= i < |s| => LowerChar(s[i]))
  }

  const DefaultType: string := "application/octet-stream"

  /** Every type the lookup can answer. */
  function ContentTypes(): set<string> {
    {"video/mp4", "audio/mpeg", "image/jpeg", "image/png", "image/gif", "application/pdf",
     "application/msword", "application/vnd.ms-excel", "application/vnd.ms-powerpoint",
     "application/zip", "application/x-rar-compressed", "text/plain", "text/html", "text/css",
     "application/javascript", "application/json", "application/xml", DefaultType}
  }

  /** `GetContentType`: the type listed for the lower-cased extension. */
  function GetContentType(filename: string): (t: string)
    ensures t in ContentTypes()
    ensures |t| > 0
  {
    ExtType(Lower(Ext(filename)))
  }

  /** The switch of `GetContentType`: the case that lists `ext`, or the default. */
  function ExtType(ext: string): string {
    if ext in {".mp4", ".m4v", ".mov", ".mkv"} then "video/mp4"
    else if ext in {".mp3", ".wav", ".ogg"} then "audio/mpeg"
    else if ext in {".jpg", ".jpeg"} then "image/jpeg"
    else if ext == ".png" then "image/png"
    else if ext == ".gif" then "image/gif"
    else if ext == ".pdf" then "application/pdf"
    else if ext in {".doc", ".docx"} then "application/msword"
    else if ext in {".xls", ".xlsx"} then "application/vnd.ms-excel"
    else if ext in {".ppt", ".pptx"} then "application/vnd.ms-powerpoint"
    else if ext == ".zip" then "application/zip"
    else if ext == ".rar" then "application/x-rar-compressed"
    else if ext == ".txt" then "text/plain"
    else if ext in {".html", ".htm"} then "text/html"
    else if ext == ".css" then "text/css"
    else if ext == ".js" then "application/javascript"
    else if ext == ".json" then "application/json"
    else if ext == ".xml" then "application/xml"
    else DefaultType
  }

  /** The same list written as a table from extension to type. */
  const Table: map<string, string> := map[
    ".mp4" := "video/mp4", ".m4v" := "video/mp4", ".mov" := "video/mp4", ".mkv" := "video/mp4",
    ".mp3" := "audio/mpeg", ".wav" := "audio/mpeg", ".ogg" := "audio/mpeg",
    ".jpg" := "image/jpeg", ".jpeg" := "image/jpeg",
    ".png" := "image/png",
    ".gif" := "image/gif",
    ".pdf" := "application/pdf",
    ".doc" := "application/msword", ".docx" := "application/msword",
    ".xls" := "application/vnd.ms-excel", ".xlsx" := "application/vnd.ms-excel",
    ".ppt" := "application/vnd.ms-powerpoint", ".pptx" := "application/vnd.ms-powerpoint",
    ".zip" := "application/zip",
    ".rar" := "application/x-rar-compressed",
    ".txt" := "text/plain",
    ".html" := "text/html", ".htm" := "text/html",
    ".css" := "text/css",
    ".js" := "application/javascript",
    ".json" := "application/json",
    ".xml" := "application/xml"]

  /** The lookup answers what the table lists for the lower-cased
      extension, and the default for an extension the table does not list
      (including no extension at all). */
  lemma LookupAgreesWithTable(filename: string)
    ensures var ext := Lower(Ext(filename));
      GetContentType(filename) == if ext in Table then Table[ext] else DefaultType
  {
    var ext := Lower(Ext(filename));
    if ext in Table {
      ListedExtensions(ext);
    } else {
      UnlistedExtensions(ext);
    }
  }

  lemma ListedExtensions(ext: string)
    requires ext in Table
    ensures ExtType(ext) == Table[ext]
  {
    VideoEntries();
    AudioEntries();
    ImageEntries();
    DocumentEntries();
    OfficeEntries();
    ArchiveEntries();
    TextEntries();
    WebEntries();
    CodeEntries();
  }

  /** The video extensions. */
  lemma VideoEntries()
    ensures ExtType(".mp4") == "video/mp4"
    ensures ExtType(".m4v") == "video/mp4"
    ensures ExtType(".mov") == "video/mp4"
    ensures ExtType(".mkv") == "video/mp4"
  {
  }

  /** The audio extensions. */
  lemma AudioEntries()
    ensures ExtType(".mp3") == "audio/mpeg"
    ensures ExtType(".wav") == "audio/mpeg"
    ensures ExtType(".ogg") == "audio/mpeg"
  {
  }

  /** The image extensions. */
  lemma ImageEntries()
    ensures ExtType(".jpg") == "image/jpeg"
    ensures ExtType(".jpeg") == "image/jpeg"
    ensures ExtType(".png") == "image/png"
    ensures ExtType(".gif") == "image/gif"
  {
  }

  /** The PDF and word-processor extensions. */
  lemma DocumentEntries()
    ensures ExtType(".pdf") == "application/pdf"
    ensures ExtType(".doc") == "application/msword"
    ensures ExtType(".docx") == "application/msword"
  {
  }

  /** The spreadsheet and presentation extensions. */
  lemma OfficeEntries()
    ensures ExtType(".xls") == "application/vnd.ms-excel"
    ensures ExtType(".xlsx") == "application/vnd.ms-excel"
    ensures ExtType(".ppt") == "application/vnd.ms-powerpoint"
    ensures ExtType(".pptx") == "application/vnd.ms-powerpoint"
  {
  }

  /** The archive extensions. */
  lemma ArchiveEntries()
    ensures ExtType(".zip") == "application/zip"
    ensures ExtType(".rar") == "application/x-rar-compressed"
  {
  }

  /** The plain-text and style extensions. */
  lemma TextEntries()
    ensures ExtType(".txt") == "text/plain"
    ensures ExtType(".css") == "text/css"
  {
  }

  /** The markup extensions. */
  lemma WebEntries()
    ensures ExtType(".html") == "text/html"
    ensures ExtType(".htm") == "text/html"
  {
  }

  /** The script and data extensions. */
  lemma CodeEntries()
    ensures ExtType(".js") == "application/javascript"
    ensures ExtType(".json") == "application/json"
    ensures ExtType(".xml") == "application/xml"
  {
  }

  lemma UnlistedExtensions(ext: string)
    requires ext !in Table
    ensures ExtType(ext) == DefaultType
  {
  }

  /** Two strings that differ at most in the case of their letters. */
  predicate SameUpToCase(a: string, b: string) {
    |a| == |b| && forall i :: 0 <= i < |a| ==> LowerChar(a[i]) == LowerChar(b[i])
  }

  /** Names that differ only in letter case get the same type. */
  lemma CaseInsensitive(a: string, b: string)
    requires SameUpToCase(a, b)
    ensures GetContentType(a) == GetContentType(b)
  {
    SameLowerExt(a, b);
  }

  /** Lower-casing cannot make or unmake a '.' or a separator, so names
      that differ only in case have their extension at the same place, and
      the extensions differ only in case. */
  lemma SameLowerExt(a: string, b: string)
    requires SameUpToCase(a, b)
    ensures Lower(Ext(a)) == Lower(Ext(b))
  {
    SameExtStarts(a, b);
    ExtSpec(a);
    ExtSpec(b);
    if k :| ExtStart(a, k) {
      SameLowerSuffix(a, b, k);
    }
  }

  /** The extension of a name starts where the extension of the same name
      in another case starts. */
  lemma SameExtStarts(a: string, b: string)
    requires SameUpToCase(a, b)
    ensures forall k :: ExtStart(a, k) <==> ExtStart(b, k)
  {
    assert forall i :: 0 <= i < |a| ==> (a[i] == '.' <==> b[i] == '.') && (a[i] == Separator <==> b[i] == Separator) by {
      forall i | 0 <= i < |a|
        ensures (a[i] == '.' <==> b[i] == '.') && (a[i] == Separator <==> b[i] == Separator)
      {
        assert LowerChar(a[i]) == LowerChar(b[i]);
      }
    }
  }

  /** Suffixes of two names that differ only in case lower to the same string. */
  lemma SameLowerSuffix(a: string, b: string, k: int)
    requires SameUpToCase(a, b) && 0 <= k <= |a|
    ensures Lower(a[k..]) == Lower(b[k..])
  {
    assert forall i :: 0 <= i < |a| - k ==> a[k..][i] == a[k + i] && b[k..][i] == b[k + i];
  }

  /** An upper-case extension is recognised; a dot inside a directory name
      is not an extension. */
  lemma ContentTypeExamples()
    ensures GetContentType("movie.MKV") == "video/mp4"
    ensures GetContentType("dir.d/file") == DefaultType
  {
    ExtExample();
    assert Lower(".MKV") == ".mkv";
    NoExtExample();
  }
}
