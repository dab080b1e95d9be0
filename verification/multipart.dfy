/** The Content-Length the driver declares for its multipart POST of a file
    to S3 (drivers/notion/util.go, `UploadToS3`): the boundary lines, the
    eleven form fields in the order the code adds them, the header of the
    file part, and the file itself, each counted in bytes as Go's `len`
    counts a string's UTF-8 encoding. */
module Multipart {
  import opened Paths

  /** Bytes in the UTF-8 encoding of `c`. */
  function Utf8Width(c: char): nat {
    if c as int < 0x80 then 1
    else if c as int < 0x800 then 2
    else if c as int < 0x10000 then 3
    else 4
  }

  /** Go's `len` of a string: the bytes of its UTF-8 encoding. */
  function ByteLen(s: string): nat {
    PrefixBytes(s, |s|)
  }

  /** The bytes of the first `n` characters of `s`. */
  function PrefixBytes(s: string, n: nat): nat
    requires n <= |s|
  {
    if n == 0 then 0 else PrefixBytes(s, n - 1) + Utf8Width(s[n - 1])
  }

  /** A prefix counts the same inside a longer string. */
  lemma {:induction false} PrefixBytesExtend(a: string, b: string, n: nat)
    requires n <= |a|
    ensures PrefixBytes(a + b, n) == PrefixBytes(a, n)
  {
    if n > 0 {
      PrefixBytesExtend(a, b, n - 1);
    }
  }

  /** Past the first string, the count goes on over the second. */
  lemma {:induction false} PrefixBytesAppend(a: string, b: string, k: nat)
    requires k <= |b|
    ensures PrefixBytes(a + b, |a| + k) == ByteLen(a) + PrefixBytes(b, k)
  {
    if k == 0 {
      PrefixBytesExtend(a, b, |a|);
    } else {
      PrefixBytesAppend(a, b, k - 1);
    }
  }

  lemma ByteLenConcat(a: string, b: string)
    ensures ByteLen(a + b) == ByteLen(a) + ByteLen(b)
  {
    PrefixBytesAppend(a, b, |b|);
  }

  predicate Ascii(s: string) {
    forall i :: 0 <= i < |s| ==> s[i] as int < 0x80
  }

  /** An ASCII string has one byte per character. */
  lemma AsciiByteLen(s: string)
    requires Ascii(s)
    ensures ByteLen(s) == |s|
  {
    AsciiPrefix(s, |s|);
  }

  lemma {:induction false} AsciiPrefix(s: string, n: nat)
    requires Ascii(s) && n <= |s|
    ensures PrefixBytes(s, n) == n
  {
    if n > 0 {
      AsciiPrefix(s, n - 1);
    }
  }

  /** The form fields the upload-URL call returns. */
  datatype UploadFields = UploadFields(
    contentType: string,
    storageClass: string,
    tagging: string,
    bucket: string,
    algorithm: string,
    credential: string,
    date: string,
    securityToken: string,
    key: string,
    policy: string,
    signature: string)

  datatype Field = Field(name: string, value: string)

  /** The fields in the order the code counts (and writes) them. */
  function Fields(f: UploadFields): (r: seq<Field>)
    ensures |r| == 11
  {
    [Field("Content-Type", f.contentType), Field("x-amz-storage-class", f.storageClass),
     Field("tagging", f.tagging), Field("bucket", f.bucket), Field("X-Amz-Algorithm", f.algorithm),
     Field("X-Amz-Credential", f.credential), Field("X-Amz-Date", f.date),
     Field("X-Amz-Security-Token", f.securityToken), Field("key", f.key), Field("Policy", f.policy),
     Field("X-Amz-Signature", f.signature)]
  }

  const FieldHeader: string := "Content-Disposition: form-data; name=\""
  const FieldFooter: string := "\"\r\n\r\n"
  const FieldEnd: string := "\r\n"

  /** The bytes the code counts for one field. */
  function FieldLength(x: Field): nat {
    ByteLen(FieldHeader + x.name + FieldFooter + x.value + FieldEnd)
  }

  function FieldsLength(fields: seq<Field>): nat {
    if fields == [] then 0 else FieldLength(fields[0]) + FieldsLength(fields[1..])
  }

  /** The header of the file part, for the file's base name and content
      type. Its opening text is the field header followed by the field name
      `file` and the `filename` parameter. */
  const FilePrefix: string := FieldHeader + "file\"; filename=\""

  function FileHeader(base: string, contentType: string): string {
    FilePrefix + base + "\"\r\n"
      + "Content-Type: " + contentType + "\r\n\r\n"
  }

  /** The Content-Length the code declares. */
  function ContentLength(boundary: string, f: UploadFields, path: string, fileSize: nat): nat {
    var boundaryLength := ByteLen("--" + boundary + "\r\n") + ByteLen("\r\n--" + boundary + "--\r\n");
    boundaryLength + FieldsLength(Fields(f)) + ByteLen(FileHeader(Base(path), f.contentType)) + fileSize
  }

  /** The bytes of the field values alone. */
  function ValuesLength(f: UploadFields): nat {
    ByteLen(f.contentType) + ByteLen(f.storageClass) + ByteLen(f.tagging) + ByteLen(f.bucket)
      + ByteLen(f.algorithm) + ByteLen(f.credential) + ByteLen(f.date) + ByteLen(f.securityToken)
      + ByteLen(f.key) + ByteLen(f.policy) + ByteLen(f.signature)
  }

  /** The framing the code counts around a field: 45 bytes of literal
      text besides the name and the value. */
  lemma FieldLengthSplit(x: Field)
    ensures FieldLength(x) == 45 + ByteLen(x.name) + ByteLen(x.value)
  {
    ByteLenConcat(FieldHeader, x.name);
    ByteLenConcat(FieldHeader + x.name, FieldFooter);
    ByteLenConcat(FieldHeader + x.name + FieldFooter, x.value);
    ByteLenConcat(FieldHeader + x.name + FieldFooter + x.value, FieldEnd);
    AsciiByteLen(FieldHeader);
    AsciiByteLen(FieldFooter);
    AsciiByteLen(FieldEnd);
  }

  // Each field name is ASCII, one byte per character. Each name is checked
  // in a lemma of its own, which keeps every proof obligation small:
  // checking all eleven names in one proof, or inside `FieldNamesLength`,
  // makes that proof too large for the solver on some random seeds.

  lemma ContentTypeNameBytes()
    ensures ByteLen("Content-Type") == 12
  {
    AsciiByteLen("Content-Type");
  }

  lemma StorageClassNameBytes()
    ensures ByteLen("x-amz-storage-class") == 19
  {
    AsciiByteLen("x-amz-storage-class");
  }

  lemma TaggingNameBytes()
    ensures ByteLen("tagging") == 7
  {
    AsciiByteLen("tagging");
  }

  lemma BucketNameBytes()
    ensures ByteLen("bucket") == 6
  {
    AsciiByteLen("bucket");
  }

  lemma AlgorithmNameBytes()
    ensures ByteLen("X-Amz-Algorithm") == 15
  {
    AsciiByteLen("X-Amz-Algorithm");
  }

  lemma CredentialNameBytes()
    ensures ByteLen("X-Amz-Credential") == 16
  {
    AsciiByteLen("X-Amz-Credential");
  }

  lemma DateNameBytes()
    ensures ByteLen("X-Amz-Date") == 10
  {
    AsciiByteLen("X-Amz-Date");
  }

  lemma SecurityTokenNameBytes()
    ensures ByteLen("X-Amz-Security-Token") == 20
  {
    AsciiByteLen("X-Amz-Security-Token");
  }

  lemma KeyNameBytes()
    ensures ByteLen("key") == 3
  {
    AsciiByteLen("key");
  }

  lemma PolicyNameBytes()
    ensures ByteLen("Policy") == 6
  {
    AsciiByteLen("Policy");
  }

  lemma SignatureNameBytes()
    ensures ByteLen("X-Amz-Signature") == 15
  {
    AsciiByteLen("X-Amz-Signature");
  }

  /** Bytes of the names of `fs`. */
  function NamesLength(fs: seq<Field>): nat {
    if fs == [] then 0 else ByteLen(fs[0].name) + NamesLength(fs[1..])
  }

  /** Bytes of the values of `fs`. */
  function ValueBytes(fs: seq<Field>): nat {
    if fs == [] then 0 else ByteLen(fs[0].value) + ValueBytes(fs[1..])
  }

  /** Every field costs 45 bytes of framing besides its name and value. */
  lemma {:induction false} FieldsLengthSum(fs: seq<Field>)
    ensures FieldsLength(fs) == 45 * |fs| + NamesLength(fs) + ValueBytes(fs)
  {
    if fs != [] {
      FieldLengthSplit(fs[0]);
      FieldsLengthSum(fs[1..]);
    }
  }

  /** The eleven names the code writes take 129 bytes. */
  lemma FieldNamesLength(f: UploadFields)
    ensures NamesLength(Fields(f)) == 129
  {
    ElevenNames(Fields(f));
    ContentTypeNameBytes();
    StorageClassNameBytes();
    TaggingNameBytes();
    BucketNameBytes();
    AlgorithmNameBytes();
    CredentialNameBytes();
    DateNameBytes();
    SecurityTokenNameBytes();
    KeyNameBytes();
    PolicyNameBytes();
    SignatureNameBytes();
  }

  lemma ElevenNames(fs: seq<Field>)
    requires |fs| == 11
    ensures NamesLength(fs) == ByteLen(fs[0].name) + ByteLen(fs[1].name) + ByteLen(fs[2].name) + ByteLen(fs[3].name) + ByteLen(fs[4].name) + ByteLen(fs[5].name) + ByteLen(fs[6].name) + ByteLen(fs[7].name) + ByteLen(fs[8].name) + ByteLen(fs[9].name) + ByteLen(fs[10].name)
  {
    assert fs[11..] == [];
    assert NamesLength(fs[10..]) == ByteLen(fs[10].name) + NamesLength(fs[11..]);
    assert NamesLength(fs[9..]) == ByteLen(fs[9].name) + NamesLength(fs[10..]);
    assert NamesLength(fs[8..]) == ByteLen(fs[8].name) + NamesLength(fs[9..]);
    assert NamesLength(fs[7..]) == ByteLen(fs[7].name) + NamesLength(fs[8..]);
    assert NamesLength(fs[6..]) == ByteLen(fs[6].name) + NamesLength(fs[7..]);
    assert NamesLength(fs[5..]) == ByteLen(fs[5].name) + NamesLength(fs[6..]);
    assert NamesLength(fs[4..]) == ByteLen(fs[4].name) + NamesLength(fs[5..]);
    assert NamesLength(fs[3..]) == ByteLen(fs[3].name) + NamesLength(fs[4..]);
    assert NamesLength(fs[2..]) == ByteLen(fs[2].name) + NamesLength(fs[3..]);
    assert NamesLength(fs[1..]) == ByteLen(fs[1].name) + NamesLength(fs[2..]);
    assert NamesLength(fs) == ByteLen(fs[0].name) + NamesLength(fs[1..]);
  }

  /** The field values are the eleven values the call returned. */
  lemma FieldValuesLength(f: UploadFields)
    ensures ValueBytes(Fields(f)) == ValuesLength(f)
  {
    ElevenValues(Fields(f));
  }

  lemma ElevenValues(fs: seq<Field>)
    requires |fs| == 11
    ensures ValueBytes(fs) == ByteLen(fs[0].value) + ByteLen(fs[1].value) + ByteLen(fs[2].value) + ByteLen(fs[3].value) + ByteLen(fs[4].value) + ByteLen(fs[5].value) + ByteLen(fs[6].value) + ByteLen(fs[7].value) + ByteLen(fs[8].value) + ByteLen(fs[9].value) + ByteLen(fs[10].value)
  {
    assert fs[11..] == [];
    assert ValueBytes(fs[10..]) == ByteLen(fs[10].value) + ValueBytes(fs[11..]);
    assert ValueBytes(fs[9..]) == ByteLen(fs[9].value) + ValueBytes(fs[10..]);
    assert ValueBytes(fs[8..]) == ByteLen(fs[8].value) + ValueBytes(fs[9..]);
    assert ValueBytes(fs[7..]) == ByteLen(fs[7].value) + ValueBytes(fs[8..]);
    assert ValueBytes(fs[6..]) == ByteLen(fs[6].value) + ValueBytes(fs[7..]);
    assert ValueBytes(fs[5..]) == ByteLen(fs[5].value) + ValueBytes(fs[6..]);
    assert ValueBytes(fs[4..]) == ByteLen(fs[4].value) + ValueBytes(fs[5..]);
    assert ValueBytes(fs[3..]) == ByteLen(fs[3].value) + ValueBytes(fs[4..]);
    assert ValueBytes(fs[2..]) == ByteLen(fs[2].value) + ValueBytes(fs[3..]);
    assert ValueBytes(fs[1..]) == ByteLen(fs[1].value) + ValueBytes(fs[2..]);
    assert ValueBytes(fs) == ByteLen(fs[0].value) + ValueBytes(fs[1..]);
  }

  /** The eleven fields: 45 bytes of framing each, 129 bytes of names, and the values. */
  lemma FieldsLengthSplit(f: UploadFields)
    ensures FieldsLength(Fields(f)) == 11 * 45 + 129 + ValuesLength(f)
  {
    FieldsLengthSum(Fields(f));
    FieldNamesLength(f);
    FieldValuesLength(f);
  }

  /** The file part's header: 76 bytes of literal text, the base name and
      the content type. */
  lemma FileHeaderSplit(base: string, contentType: string)
    ensures ByteLen(FileHeader(base, contentType)) == 76 + ByteLen(base) + ByteLen(contentType)
  {
    ByteLenConcat(FieldHeader, "file\"; filename=\"");
    ByteLenConcat(FilePrefix, base);
    ByteLenConcat(FilePrefix + base, "\"\r\n");
    ByteLenConcat(FilePrefix + base + "\"\r\n", "Content-Type: ");
    ByteLenConcat(FilePrefix + base + "\"\r\n" + "Content-Type: ", contentType);
    ByteLenConcat(FilePrefix + base + "\"\r\n" + "Content-Type: " + contentType, "\r\n\r\n");
    AsciiByteLen(FieldHeader);
    AsciiByteLen("file\"; filename=\"");
    AsciiByteLen("\"\r\n");
    AsciiByteLen("Content-Type: ");
    AsciiByteLen("\r\n\r\n");
  }

  /** The two boundary lines: 12 bytes of dashes and line ends and the boundary twice. */
  lemma BoundarySplit(boundary: string)
    ensures ByteLen("--" + boundary + "\r\n") + ByteLen("\r\n--" + boundary + "--\r\n") == 12 + 2 * ByteLen(boundary)
  {
    ByteLenConcat("--", boundary);
    ByteLenConcat("--" + boundary, "\r\n");
    ByteLenConcat("\r\n--", boundary);
    ByteLenConcat("\r\n--" + boundary, "--\r\n");
    AsciiByteLen("--");
    AsciiByteLen("\r\n");
    AsciiByteLen("\r\n--");
    AsciiByteLen("--\r\n");
  }

  /** The declared length in closed form: the file, 712 bytes of fixed
      framing, the boundary twice, the base name, every field value, and
      the content type once more in the file part's header. In particular
      it is never less than the file. */
  lemma ContentLengthClosedForm(boundary: string, f: UploadFields, path: string, fileSize: nat)
    ensures ContentLength(boundary, f, path, fileSize)
         == fileSize + 712 + 2 * ByteLen(boundary) + ByteLen(Base(path)) + ValuesLength(f) + ByteLen(f.contentType)
    ensures ContentLength(boundary, f, path, fileSize) >= fileSize + 712
  {
    BoundarySplit(boundary);
    FieldsLengthSplit(f);
    FileHeaderSplit(Base(path), f.contentType);
  }
}
