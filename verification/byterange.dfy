/** The HTTP byte-range request the chunk reader sends
    (drivers/notion/types.go, `createChunkReader`): one byte-range-spec of
    section 2.1 of RFC 7233, its text form, what it selects from a
    representation, and which response statuses the reader accepts. */
module ByteRange {
  import opened Results
  import opened Decimal

  /** A single byte-range-spec: `first-last` (both inclusive) or `first-`. */
  datatype RangeSpec = Closed(first: nat, last: nat) | From(first: nat)

  /** The half-open interval `[lo, hi)` of a representation that a range selects. */
  datatype Selected = Selected(lo: nat, hi: nat)

  /** Section 2.1 of RFC 7233: the bytes `h` selects from a representation
      of `size` bytes. A closed range whose last position precedes its first
      is invalid; a range that starts at or past the end is unsatisfiable;
      a last position past the end is cut to the end. */
  function Selection(h: RangeSpec, size: nat): Option<Selected> {
    match h
    case Closed(a, b) =>
      if b < a || a >= size then None
      else Some(Selected(a, if b + 1 < size then b + 1 else size))
    case From(a) =>
      if a >= size then None else Some(Selected(a, size))
  }

  /** The range asked for `length` bytes starting `offset` bytes into a
      chunk object. A positive length asks for exactly those bytes; any
      other length falls back to the open-ended form, which asks for the
      whole rest of the object. */
  function ChunkRange(offset: nat, length: int): (h: RangeSpec)
    ensures length > 0 ==> forall size: nat {:trigger Selection(h, size)} ::
      offset + length <= size ==> Selection(h, size) == Some(Selected(offset, offset + length))
    ensures length <= 0 ==> forall size: nat {:trigger Selection(h, size)} ::
      offset < size ==> Selection(h, size) == Some(Selected(offset, size))
  {
    if length > 0 then Closed(offset, offset + length - 1) else From(offset)
  }

  /** The text of the `Range` header. */
  function Render(h: RangeSpec): string {
    match h
    case Closed(a, b) => "bytes=" + NatToString(a) + "-" + NatToString(b)
    case From(a) => "bytes=" + NatToString(a) + "-"
  }

  /** Position of the first `c` in `s`. */
  function IndexOf(s: string, c: char): (r: Option<nat>)
    ensures r.Some? ==> r.value < |s| && s[r.value] == c && c !in s[..r.value]
    ensures r.None? ==> c !in s
  {
    if |s| == 0 then None
    else if s[0] == c then Some(0)
    else match IndexOf(s[1..], c)
      case None => None
      case Some(k) => assert s[..k + 1] == [s[0]] + s[1..][..k]; Some(k + 1)
  }

  /** Reads back a header rendered by `Render`. */
  function Parse(s: string): Option<RangeSpec> {
    if |s| < 6 || s[..6] != "bytes=" then None
    else
      var body := s[6..];
      match IndexOf(body, '-')
      case None => None
      case Some(k) =>
        var first := ParseNat(body[..k]);
        var rest := body[k + 1..];
        if first.None? then None
        else if rest == [] then Some(From(first.value))
        else match ParseNat(rest)
          case None => None
          case Some(last) => Some(Closed(first.value, last))
  }

  lemma DashAfterDigits(digits: string, tail: string)
    requires AllDigits(digits)
    ensures IndexOf(digits + "-" + tail, '-') == Some(|digits|)
  {
    var s := digits + "-" + tail;
    assert s[|digits|] == '-';
    assert forall i :: 0 <= i < |digits| ==> s[i] == digits[i] && IsDigit(s[i]);
    var r := IndexOf(s, '-');
    assert r.Some?;
    assert forall j :: |digits| < j <= |s| ==> s[..j][|digits|] == '-';
  }

  /** The header text determines the range: parsing what was rendered
      gives the range back. */
  lemma RenderParse(h: RangeSpec)
    ensures Parse(Render(h)) == Some(h)
  {
    var a := NatToString(h.first);
    var tail := if h.Closed? then NatToString(h.last) else "";
    assert Render(h) == "bytes=" + (a + "-" + tail);
    HeaderParts(a, tail);
    ParseNatToString(h.first);
    if h.Closed? {
      ParseNatToString(h.last);
    }
  }

  /** How `Parse` takes apart a header whose first number is all digits:
      the prefix, the number before the first '-', and what follows it. */
  lemma HeaderParts(a: string, tail: string)
    requires AllDigits(a)
    ensures var s := "bytes=" + (a + "-" + tail);
      && |s| >= 6 && s[..6] == "bytes=" && s[6..] == a + "-" + tail
      && IndexOf(s[6..], '-') == Some(|a|)
      && s[6..][..|a|] == a && s[6..][|a| + 1..] == tail
  {
    var s := "bytes=" + (a + "-" + tail);
    assert s[..6] == "bytes=";
    assert s[6..] == a + "-" + tail;
    DashAfterDigits(a, tail);
    assert (a + "-" + tail)[..|a|] == a;
    assert (a + "-" + tail)[|a| + 1..] == tail;
  }

  /** The statuses `createChunkReader` treats as success: 206 Partial
      Content and 200 OK; every other status fails the attempt. */
  predicate Accepted(status: int) {
    status == 206 || status == 200
  }
}
