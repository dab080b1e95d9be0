/** The cross-chunk reader (drivers/notion/types.go, `ChunkedReader`): a
    cursor over the chunks a range selected that opens one chunk at a time,
    with at most three resolve-and-open attempts, and hands the bytes of the
    open chunk to the caller until the requested length has been delivered.

    The remote side is an oracle supplied with each call: `Attempt`s say
    what each resolve-and-open attempt met, `Signal` says how the open
    response body answers the read, and `objects` gives the bytes stored
    under each chunk page. The properties below hold for every sequence of
    attempts and signals. What a body holds is not up to the oracle: a 206
    body is the requested part of the chunk's object (section 4.1 of
    RFC 7233), a 200 body is the whole object, and `objects` stays fixed
    during a read. The code checks none of this.

    `Policy` selects the code as written or the corrected reader of the
    README's findings: `Resuming` re-opens a chunk from the first byte not
    yet delivered (moving to the next chunk when none of this one is still
    owed) and trims a full-content (200) response to the range it asked
    for. */
module Reader {
  import opened Results
  import opened Records
  import opened ByteRange
  import opened RangeMap

  /** Resolve-and-open attempts per chunk opening. */
  const MaxRetries: nat := 3

  /** What one resolve-and-open attempt met. */
  datatype Attempt =
    | ResolveFailed          // the page property lookup failed
    | NoFiles                // the page property lists no file
    | RequestFailed          // the GET could not be built or sent
    | Responded(status: int) // the server answered with this status

  /** Attempts that are tried again (while attempts remain). */
  predicate Retryable(a: Attempt) {
    a.ResolveFailed? || a.RequestFailed? || (a.Responded? && !Accepted(a.status))
  }

  /** The `i`-th attempt; an oracle that has no more answers fails to resolve. */
  function AttemptAt(attempts: seq<Attempt>, i: nat): Attempt {
    if i < |attempts| then attempts[i] else ResolveFailed
  }

  datatype OpenError =
    | ResolveExhausted(chunk: nat, tries: nat)
    | OpenExhausted(chunk: nat, tries: nat)
    | NoFileInChunk(chunk: nat)

  /** The result of the retry loop: the accepted status, or the error; how
      many attempts it made; how many seconds it slept between them. */
  datatype Opening = Opening(result: Result<int, OpenError>, tries: nat, delays: seq<nat>)

  /** The retry loop from attempt `retry` on. It stops at the first attempt
      that is not retryable or at the third attempt, and sleeps `retry + 1`
      seconds after each failed attempt but the last. */
  function Open(attempts: seq<Attempt>, chunk: nat, retry: nat): (o: Opening)
    requires retry < MaxRetries
    ensures retry < o.tries <= MaxRetries
    ensures |o.delays| == o.tries - 1 - retry
    ensures forall j :: 0 <= j < |o.delays| ==> o.delays[j] == retry + j + 1
    ensures forall j :: retry <= j < o.tries - 1 ==> Retryable(AttemptAt(attempts, j))
    ensures o.tries < MaxRetries ==> !Retryable(AttemptAt(attempts, o.tries - 1))
    ensures var last := AttemptAt(attempts, o.tries - 1);
      && (o.result.Success? <==> last.Responded? && Accepted(last.status))
      && (o.result.Success? ==> o.result.value == last.status)
      && (last.NoFiles? ==> o.result == Failure(NoFileInChunk(chunk)))
      && (last.ResolveFailed? ==> o.result == Failure(ResolveExhausted(chunk, MaxRetries)))
      && (last.RequestFailed? || (last.Responded? && !Accepted(last.status)) ==>
            o.result == Failure(OpenExhausted(chunk, MaxRetries)))
    decreases MaxRetries - retry
  {
    var final := retry == MaxRetries - 1;
    match AttemptAt(attempts, retry)
    case NoFiles => Opening(Failure(NoFileInChunk(chunk)), retry + 1, [])
    case ResolveFailed =>
      if final then Opening(Failure(ResolveExhausted(chunk, retry + 1)), retry + 1, [])
      else Later(attempts, chunk, retry)
    case RequestFailed =>
      if final then Opening(Failure(OpenExhausted(chunk, retry + 1)), retry + 1, [])
      else Later(attempts, chunk, retry)
    case Responded(status) =>
      if Accepted(status) then Opening(Success(status), retry + 1, [])
      else if final then Opening(Failure(OpenExhausted(chunk, retry + 1)), retry + 1, [])
      else Later(attempts, chunk, retry)
  }

  /** Sleep `retry + 1` seconds, then try again. */
  function Later(attempts: seq<Attempt>, chunk: nat, retry: nat): Opening
    requires retry < MaxRetries - 1
    decreases MaxRetries - retry, 0
  {
    var o := Open(attempts, chunk, retry + 1);
    o.(delays := [retry + 1] + o.delays)
  }

  datatype Policy = AsWritten | Resuming

  /** How the open response body answers one read: it yields up to `n`
      bytes (never more than the buffer holds or than it has left) and then
      reports nothing more, or reports its end — always once it has nothing
      left, and together with its last bytes when `eager` — or fails. */
  datatype Signal = Deliver(n: nat, eager: bool) | Break(n: nat) {
    function Count(): nat {
      match this
      case Deliver(n, _) => n
      case Break(n) => n
    }
  }

  /** The reader's fields. `current` holds the bytes the open response body
      has still to yield, `None` when no body is open; `bodyClosed` says
      that `Close` has closed that body while the reader still holds it.
      `currentOffset` is set to the sub-range start when a chunk is opening
      and is never read. */
  datatype State = State(
    chunks: seq<FileChunk>,
    requestStart: int,
    requestEnd: int,
    currentChunk: nat,
    current: Option<seq<byte>>,
    currentOffset: int,
    totalRead: int,
    bodyClosed: bool)
  {
    function Requested(): int {
      requestEnd - requestStart
    }
  }

  /** The reader a successful range request starts with. */
  function Init(chunks: seq<FileChunk>, requestStart: int, requestEnd: int): State {
    State(chunks, requestStart, requestEnd, 0, None, 0, 0, false)
  }

  datatype ReadError = OpenFailed(error: OpenError) | TransferFailed

  /** What `Read` returns besides the bytes: nil, `io.EOF`, or an error. */
  datatype Outcome = Continue | EndOfData | Failed(error: ReadError)

  /** An opening performed during a read: the chunk, the range asked for,
      the attempts made and the delays slept. */
  datatype OpenRecord = OpenRecord(chunk: nat, range: RangeSpec, tries: nat, delays: seq<nat>)

  datatype Step = Step(next: State, data: seq<byte>, outcome: Outcome, opening: Option<OpenRecord>)

  /** Every further read ends the stream at once. */
  predicate Exhausted(s: State) {
    s.totalRead >= s.Requested() || (s.current.None? && s.currentChunk >= |s.chunks|)
  }

  /** Where in chunk `c` an opening starts. */
  function OpenOffset(s: State, c: FileChunk, policy: Policy): nat {
    match policy
    case AsWritten => Max(s.requestStart, c.startOffset) - c.startOffset
    case Resuming => Max(s.requestStart + s.totalRead, c.startOffset) - c.startOffset
  }

  /** Where in chunk `c` the request stops. */
  function OpenEnd(s: State, c: FileChunk): int {
    Min(s.requestEnd, c.endOffset) - c.startOffset
  }

  /** The body of the response to a request for `range` of the chunk object `stored`. A 206
      response carries what the range selects; a 200 response carries the
      whole object, which the corrected reader trims to the range. */
  function ResponseBody(stored: seq<byte>, status: int, range: RangeSpec, policy: Policy): seq<byte> {
    if status == 200 && policy == AsWritten then stored
    else match Selection(range, |stored|)
      case Some(sel) => stored[sel.lo..sel.hi]
      case None => []
  }

  /** One `Read(p)` with a buffer of `bufLen` bytes. */
  function Read(s: State, bufLen: nat, objects: string -> seq<byte>, attempts: seq<Attempt>,
                signal: Signal, policy: Policy): (st: Step)
    ensures st.next.chunks == s.chunks
    ensures st.next.requestStart == s.requestStart && st.next.requestEnd == s.requestEnd
    ensures st.next.totalRead == s.totalRead + |st.data|
    ensures |st.data| <= bufLen
    ensures s.totalRead < s.Requested() ==> st.next.totalRead <= s.Requested()
    ensures Exhausted(s) ==> st == Step(s, [], EndOfData, None)
    ensures st.outcome == EndOfData ==> Exhausted(st.next)
    ensures st.outcome == Failed(TransferFailed) ==>
      st.next.current.None? && st.next.currentChunk == s.currentChunk
    ensures st.outcome.Failed? && st.outcome.error.OpenFailed? ==>
      st.next == s && st.data == [] && st.opening.Some?
    ensures st.next.currentChunk != s.currentChunk ==>
      st.next.currentChunk == s.currentChunk + 1 && st.next.current.None?
    ensures st.outcome == Continue && st.next.current.None? ==>
      st.next.currentChunk == s.currentChunk + 1 && !Exhausted(st.next)
    ensures st.opening.Some? ==>
      && s.current.None? && st.opening.value.chunk == s.currentChunk
      && 0 < st.opening.value.tries <= MaxRetries
      && |st.opening.value.delays| == st.opening.value.tries - 1
      && (forall j :: 0 <= j < |st.opening.value.delays| ==> st.opening.value.delays[j] == j + 1)
    ensures s.current.Some? ==> st.opening.None?
    ensures st.next.bodyClosed ==> s.bodyClosed
  {
    if Exhausted(s) then Step(s, [], EndOfData, None)
    else if s.current.Some? && s.bodyClosed then
      // reading a closed body fails; the reader drops it
      Step(s.(current := None, bodyClosed := false), [], Failed(TransferFailed), None)
    else if s.current.Some? then ReadBody(s, s.current.value, bufLen, signal, None)
    else
      var c := s.chunks[s.currentChunk];
      var offset := OpenOffset(s, c, policy);
      var length := OpenEnd(s, c) - offset;
      if policy == Resuming && length <= 0 then
        // nothing of this chunk is still owed: move on without a request
        var s2 := s.(currentChunk := s.currentChunk + 1);
        Step(s2, [], if s2.currentChunk < |s2.chunks| then Continue else EndOfData, None)
      else
      var range := ChunkRange(offset, length);
      var o := Open(attempts, s.currentChunk, 0);
      var record := Some(OpenRecord(s.currentChunk, range, o.tries, o.delays));
      match o.result
      case Failure(e) => Step(s, [], Failed(OpenFailed(e)), record)
      case Success(status) =>
        var body := ResponseBody(objects(c.notionPageId), status, range, policy);
        ReadBody(s.(currentOffset := offset), body, bufLen, signal, record)
  }

  /** Reads from the open body `rest`, after truncating the buffer to the
      bytes still owed to the caller. */
  function ReadBody(s: State, rest: seq<byte>, bufLen: nat, signal: Signal, opening: Option<OpenRecord>): (st: Step)
    requires s.totalRead < s.Requested()
    ensures |st.data| <= bufLen && |st.data| <= s.Requested() - s.totalRead
    ensures |st.data| <= |rest| && st.data == rest[..|st.data|]
    ensures st.next.chunks == s.chunks
    ensures st.next.requestStart == s.requestStart && st.next.requestEnd == s.requestEnd
    ensures st.next.totalRead == s.totalRead + |st.data|
    ensures st.opening == opening
    ensures st.outcome.Failed? ==>
      st.outcome == Failed(TransferFailed) && st.next.current.None? && st.next.currentChunk == s.currentChunk
    ensures st.next.currentChunk != s.currentChunk ==>
      st.next.currentChunk == s.currentChunk + 1 && st.next.current.None? && |st.data| == |rest|
    ensures st.next.current.Some? ==>
      st.next.currentChunk == s.currentChunk && st.next.current.value == rest[|st.data|..]
    ensures st.outcome == EndOfData ==> Exhausted(st.next)
    ensures st.outcome == Continue && st.next.current.None? ==>
      st.next.currentChunk == s.currentChunk + 1 && !Exhausted(st.next)
  {
    var remaining := s.Requested() - s.totalRead;
    var room := if bufLen > remaining then remaining else bufLen;
    var k := Min(Min(signal.Count(), room), |rest|);
    var got := rest[..k];
    var s1 := s.(totalRead := s.totalRead + k);
    match signal
    case Break(_) => Step(s1.(current := None), got, Failed(TransferFailed), opening)
    case Deliver(_, eager) =>
      if |rest| == 0 || (k == |rest| && eager) then
        var s2 := s1.(current := None, currentChunk := s.currentChunk + 1);
        var more := s2.totalRead < s2.Requested() && s2.currentChunk < |s2.chunks|;
        Step(s2, got, if more then Continue else EndOfData, opening)
      else Step(s1.(current := Some(rest[k..])), got, Continue, opening)
  }

  /** `Close`: the open response body, if any, is closed, but the reader
      keeps it as its current body. */
  function Close(s: State): State {
    if s.current.Some? then s.(bodyClosed := true) else s
  }

  /** What a read after `Close` does. On an idle reader `Close` changes
      nothing. With a body open, the next read that is still owed bytes
      reaches the closed body and fails with nothing delivered, exactly as
      a body that breaks at once does, and it drops the body, so the read
      after it opens the chunk again. */
  lemma ReadAfterClose(s: State, bufLen: nat, objects: string -> seq<byte>, attempts: seq<Attempt>,
                       signal: Signal, policy: Policy)
    requires !s.bodyClosed
    ensures s.current.None? ==> Close(s) == s
    ensures s.current.Some? && !Exhausted(s) ==>
      var st := Read(Close(s), bufLen, objects, attempts, signal, policy);
      && st == Read(s, bufLen, objects, attempts, Break(0), policy)
      && st == Step(s.(current := None), [], Failed(TransferFailed), None)
    ensures Exhausted(s) ==> Read(Close(s), bufLen, objects, attempts, signal, policy).outcome == EndOfData
  {
  }
}
