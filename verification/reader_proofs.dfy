/** What the cross-chunk reader delivers over a whole sequence of reads:
    the length bound, idempotent end of data, the bytes of the corrected
    reader, the bytes of the reader as written on runs without failures,
    and the two runs that show where the reader as written goes wrong. */
module ReaderProofs {
  import opened Results
  import opened Records
  import opened ByteRange
  import opened RangeMap
  import opened Reader

  /** One call of `Read`: the caller's buffer size and the oracle's answers. */
  datatype Call = Call(bufLen: nat, attempts: seq<Attempt>, signal: Signal)

  /** A sequence of reads: the final reader and every byte delivered, in order. */
  function Run(s: State, calls: seq<Call>, objects: string -> seq<byte>, policy: Policy): (r: (State, seq<byte>))
    ensures r.0.totalRead == s.totalRead + |r.1|
    ensures r.0.chunks == s.chunks
    ensures r.0.requestStart == s.requestStart && r.0.requestEnd == s.requestEnd
    ensures s.totalRead <= s.Requested() ==> r.0.totalRead <= s.Requested()
    ensures Exhausted(s) ==> r == (s, [])
    decreases |calls|
  {
    if |calls| == 0 then (s, [])
    else
      var st := Read(s, calls[0].bufLen, objects, calls[0].attempts, calls[0].signal, policy);
      var rest := Run(st.next, calls[1..], objects, policy);
      (rest.0, st.data + rest.1)
  }

  /** Position in the file of the next byte to deliver. */
  function Pos(s: State): int {
    s.requestStart + s.totalRead
  }

  /** Where the request stops within the current chunk. */
  function ChunkStop(s: State): int
    requires s.currentChunk < |s.chunks|
  {
    Min(s.requestEnd, s.chunks[s.currentChunk].endOffset)
  }

  /** The facts about a reader that no read changes: a request inside the
      file, served by a run of adjacent chunks that all overlap it, start
      at or before it and end at or after it, each stored in its object. */
  ghost predicate Grounded(s: State, objects: string -> seq<byte>, data: seq<byte>) {
    && 0 <= s.requestStart <= s.requestEnd <= |data|
    && |s.chunks| > 0 && Contiguous(s.chunks) && Stores(s.chunks, objects, data)
    && s.chunks[0].startOffset <= s.requestStart
    && s.chunks[|s.chunks| - 1].endOffset >= s.requestEnd
    && (forall i :: 0 <= i < |s.chunks| ==> Overlaps(s.chunks[i], s.requestStart, s.requestEnd))
  }

  /** The reader is serving the request from the file `data`: it has
      delivered no more than requested; while bytes are owed, the current
      chunk holds the next one (or ends just before it), and an open body
      holds exactly the bytes of the file the request still needs from
      this chunk. */
  ghost predicate Serves(s: State, objects: string -> seq<byte>, data: seq<byte>) {
    && Grounded(s, objects, data)
    && 0 <= s.totalRead <= s.Requested()
    && (s.totalRead < s.Requested() && s.current.None? ==>
          s.currentChunk < |s.chunks|
          && s.chunks[s.currentChunk].startOffset <= Pos(s) <= s.chunks[s.currentChunk].endOffset)
    && (s.current.Some? ==>
          s.currentChunk < |s.chunks|
          && s.chunks[s.currentChunk].startOffset <= Pos(s) <= ChunkStop(s)
          && s.current.value == data[Pos(s)..ChunkStop(s)])
  }

  /** No chunk has been cut short: no body was closed under the reader,
      and with no body open and bytes owed, the next byte is where the
      current chunk's part of the request begins. */
  ghost predicate Fresh(s: State) {
    && !s.bodyClosed
    && (s.current.None? && s.totalRead < s.Requested() && s.currentChunk < |s.chunks| ==>
          Pos(s) == Max(s.requestStart, s.chunks[s.currentChunk].startOffset))
  }

  /** A reader with no body open serves the request when the next owed
      byte lies in the current chunk or at its end. */
  lemma ServesIdle(n: State, objects: string -> seq<byte>, data: seq<byte>)
    requires Grounded(n, objects, data) && n.current.None?
    requires 0 <= n.totalRead <= n.Requested()
    requires n.totalRead < n.Requested() ==>
      n.currentChunk < |n.chunks|
      && n.chunks[n.currentChunk].startOffset <= Pos(n) <= n.chunks[n.currentChunk].endOffset
    ensures Serves(n, objects, data)
  {
  }

  /** A reader whose open body holds the owed bytes of the current chunk
      serves the request. */
  lemma ServesOpen(n: State, objects: string -> seq<byte>, data: seq<byte>)
    requires Grounded(n, objects, data) && n.current.Some?
    requires 0 <= n.totalRead <= n.Requested() && n.currentChunk < |n.chunks|
    requires n.chunks[n.currentChunk].startOffset <= Pos(n) <= ChunkStop(n)
    requires n.current.value == data[Pos(n)..ChunkStop(n)]
    ensures Serves(n, objects, data)
  {
  }

  /** Reading leaves the request and its chunks alone, so a reader stays
      grounded. */
  lemma GroundedKept(s: State, n: State, objects: string -> seq<byte>, data: seq<byte>)
    requires Grounded(s, objects, data)
    requires n.chunks == s.chunks && n.requestStart == s.requestStart && n.requestEnd == s.requestEnd
    ensures Grounded(n, objects, data)
  {
  }

  /** After `k` more bytes of the owed body `rest`, the body still open
      holds the bytes the chunk still owes. */
  lemma BodyKeptOpen(s: State, n: State, rest: seq<byte>, k: nat, objects: string -> seq<byte>, data: seq<byte>)
    requires Grounded(n, objects, data) && n.current.Some?
    requires n.chunks == s.chunks && n.requestEnd == s.requestEnd && n.requestStart == s.requestStart
    requires n.currentChunk == s.currentChunk < |s.chunks| && n.totalRead == s.totalRead + k
    requires 0 <= s.totalRead && n.totalRead <= n.Requested()
    requires s.chunks[s.currentChunk].startOffset <= Pos(s) && Pos(s) + k <= ChunkStop(s)
    requires rest == data[Pos(s)..ChunkStop(s)] && n.current.value == rest[k..]
    ensures Serves(n, objects, data)
  {
    SliceTail(data, Pos(s), ChunkStop(s), k);
    ServesOpen(n, objects, data);
  }

  /** Reading from a body that holds the owed bytes of the current chunk
      delivers the next bytes of the file and keeps the reader serving; a
      reader that moves on to the next chunk has delivered everything this
      chunk owed. */
  lemma BodyStep(s: State, rest: seq<byte>, bufLen: nat, signal: Signal, opening: Option<OpenRecord>,
                 objects: string -> seq<byte>, data: seq<byte>)
    requires Grounded(s, objects, data)
    requires 0 <= s.totalRead < s.Requested() && s.currentChunk < |s.chunks|
    requires s.chunks[s.currentChunk].startOffset <= Pos(s) <= ChunkStop(s)
    requires rest == data[Pos(s)..ChunkStop(s)]
    ensures var st := ReadBody(s, rest, bufLen, signal, opening);
      Serves(st.next, objects, data) && st.data == data[Pos(s)..Pos(st.next)]
    ensures var st := ReadBody(s, rest, bufLen, signal, opening);
      st.next.currentChunk != s.currentChunk ==> Pos(st.next) == ChunkStop(s)
  {
    var st := ReadBody(s, rest, bufLen, signal, opening);
    var n := st.next;
    var k := |st.data|;
    var cur := s.currentChunk;
    assert Pos(n) == Pos(s) + k <= ChunkStop(s);
    assert st.data == data[Pos(s)..Pos(n)] by {
      assert st.data == rest[..k];
    }
    GroundedKept(s, n, objects, data);
    if n.current.Some? {
      BodyKeptOpen(s, n, rest, k, objects, data);
    } else if n.currentChunk == cur {
      ServesIdle(n, objects, data);
    } else {
      if n.totalRead < n.Requested() {
        NextChunk(s, objects, data);
      }
      ServesIdle(n, objects, data);
    }
  }

  /** A request that goes on past the current chunk's part goes on into the
      next chunk, which starts where the current one ends. */
  lemma NextChunk(s: State, objects: string -> seq<byte>, data: seq<byte>)
    requires Grounded(s, objects, data) && s.currentChunk < |s.chunks|
    requires ChunkStop(s) < s.requestEnd
    ensures s.currentChunk + 1 < |s.chunks|
    ensures ChunkStop(s) == s.chunks[s.currentChunk].endOffset == s.chunks[s.currentChunk + 1].startOffset
  {
  }

  /** The corrected reader keeps serving the request whatever the remote
      side does, and every byte it hands out is the next byte of the
      requested range. */
  lemma ResumingStep(s: State, bufLen: nat, attempts: seq<Attempt>, signal: Signal,
                     objects: string -> seq<byte>, data: seq<byte>)
    requires Serves(s, objects, data)
    ensures var st := Read(s, bufLen, objects, attempts, signal, Resuming);
      Serves(st.next, objects, data) && st.data == data[Pos(s)..Pos(st.next)]
    ensures var st := Read(s, bufLen, objects, attempts, signal, Resuming);
      st.next.currentChunk != s.currentChunk ==> s.currentChunk < |s.chunks| && Pos(st.next) == ChunkStop(s)
  {
    if Exhausted(s) {
    } else if s.current.Some? && s.bodyClosed {
      ServesIdle(s.(current := None, bodyClosed := false), objects, data);
    } else if s.current.Some? {
      BodyStep(s, s.current.value, bufLen, signal, None, objects, data);
    } else {
      ResumingIdleStep(s, bufLen, attempts, signal, objects, data);
    }
  }

  /** `ResumingStep` for a reader with no body open and bytes still owed. */
  lemma ResumingIdleStep(s: State, bufLen: nat, attempts: seq<Attempt>, signal: Signal,
                         objects: string -> seq<byte>, data: seq<byte>)
    requires Serves(s, objects, data) && !Exhausted(s) && s.current.None?
    ensures var st := Read(s, bufLen, objects, attempts, signal, Resuming);
      Serves(st.next, objects, data) && st.data == data[Pos(s)..Pos(st.next)]
    ensures var st := Read(s, bufLen, objects, attempts, signal, Resuming);
      st.next.currentChunk != s.currentChunk ==> Pos(st.next) == ChunkStop(s)
  {
    var c := s.chunks[s.currentChunk];
    if OpenEnd(s, c) - OpenOffset(s, c, Resuming) <= 0 {
      ResumingSkip(s, bufLen, attempts, signal, objects, data);
    } else {
      ResumingOpen(s, bufLen, attempts, signal, objects, data);
    }
  }

  /** The owed bytes have reached the end of the current chunk: the
      corrected reader moves to the next chunk, which starts there. */
  lemma ResumingSkip(s: State, bufLen: nat, attempts: seq<Attempt>, signal: Signal,
                     objects: string -> seq<byte>, data: seq<byte>)
    requires Serves(s, objects, data) && !Exhausted(s) && s.current.None?
    requires var c := s.chunks[s.currentChunk]; OpenEnd(s, c) - OpenOffset(s, c, Resuming) <= 0
    ensures var st := Read(s, bufLen, objects, attempts, signal, Resuming);
      Serves(st.next, objects, data) && st.data == data[Pos(s)..Pos(st.next)]
    ensures var st := Read(s, bufLen, objects, attempts, signal, Resuming);
      st.next.currentChunk != s.currentChunk ==> Pos(st.next) == ChunkStop(s)
  {
    var st := Read(s, bufLen, objects, attempts, signal, Resuming);
    var cur := s.currentChunk;
    var c := s.chunks[cur];
    assert st.next == s.(currentChunk := cur + 1) && st.data == [];
    assert Pos(s) == c.endOffset;
    assert cur + 1 < |s.chunks| && c.endOffset == s.chunks[cur + 1].startOffset;
    ServesIdle(st.next, objects, data);
  }

  /** The corrected reader opens the current chunk from the next owed byte. */
  lemma ResumingOpen(s: State, bufLen: nat, attempts: seq<Attempt>, signal: Signal,
                     objects: string -> seq<byte>, data: seq<byte>)
    requires Serves(s, objects, data) && !Exhausted(s) && s.current.None?
    requires var c := s.chunks[s.currentChunk]; OpenEnd(s, c) - OpenOffset(s, c, Resuming) > 0
    ensures var st := Read(s, bufLen, objects, attempts, signal, Resuming);
      Serves(st.next, objects, data) && st.data == data[Pos(s)..Pos(st.next)]
    ensures var st := Read(s, bufLen, objects, attempts, signal, Resuming);
      st.next.currentChunk != s.currentChunk ==> Pos(st.next) == ChunkStop(s)
  {
    var o := Open(attempts, s.currentChunk, 0);
    if o.result.Success? {
      var c := s.chunks[s.currentChunk];
      var offset := OpenOffset(s, c, Resuming);
      var range := ChunkRange(offset, OpenEnd(s, c) - offset);
      var body := ResponseBody(objects(c.notionPageId), o.result.value, range, Resuming);
      var record := Some(OpenRecord(s.currentChunk, range, o.tries, o.delays));
      var st := ReadBody(s.(currentOffset := offset), body, bufLen, signal, record);
      ReadOpens(s, bufLen, objects, attempts, signal, Resuming, offset, range, o, body, st);
      ResumingOpened(s, bufLen, offset, o.result.value, body, record, signal, objects, data, st);
    } else {
      ReadOpenFails(s, bufLen, objects, attempts, signal, Resuming);
    }
  }

  /** Reading from the response to a corrected opening delivers the next
      owed bytes and keeps the reader serving. */
  lemma ResumingOpened(s: State, bufLen: nat, offset: nat, status: int, body: seq<byte>, record: Option<OpenRecord>,
                       signal: Signal, objects: string -> seq<byte>, data: seq<byte>, st: Step)
    requires Serves(s, objects, data) && !Exhausted(s) && s.current.None?
    requires offset == OpenOffset(s, s.chunks[s.currentChunk], Resuming)
    requires OpenEnd(s, s.chunks[s.currentChunk]) - offset > 0
    requires var c := s.chunks[s.currentChunk];
      body == ResponseBody(objects(c.notionPageId), status, ChunkRange(offset, OpenEnd(s, c) - offset), Resuming)
    requires st == ReadBody(s.(currentOffset := offset), body, bufLen, signal, record)
    ensures Serves(st.next, objects, data) && st.data == data[Pos(s)..Pos(st.next)]
    ensures st.next.currentChunk != s.currentChunk ==> Pos(st.next) == ChunkStop(s)
  {
    ResumingOffset(s, objects, data);
    OpenedBodyIsOwedBytes(s, objects, data, status, Resuming);
    var s' := s.(currentOffset := offset);
    assert Pos(s') == Pos(s) && ChunkStop(s') == ChunkStop(s);
    BodyStep(s', body, bufLen, signal, record, objects, data);
  }

  /** The corrected reader opens the current chunk at the next owed byte,
      which lies before the end of the chunk's part of the request. */
  lemma ResumingOffset(s: State, objects: string -> seq<byte>, data: seq<byte>)
    requires Serves(s, objects, data) && !Exhausted(s) && s.current.None?
    requires var c := s.chunks[s.currentChunk]; OpenEnd(s, c) - OpenOffset(s, c, Resuming) > 0
    ensures OpenOffset(s, s.chunks[s.currentChunk], Resuming) == Pos(s) - s.chunks[s.currentChunk].startOffset
    ensures Pos(s) < ChunkStop(s)
  {
  }

  /** With no body open and a request to send, a read whose opening
      fails changes nothing and delivers nothing. */
  lemma ReadOpenFails(s: State, bufLen: nat, objects: string -> seq<byte>, attempts: seq<Attempt>,
                      signal: Signal, policy: Policy)
    requires !Exhausted(s) && s.current.None?
    requires var c := s.chunks[s.currentChunk]; !(policy == Resuming && OpenEnd(s, c) - OpenOffset(s, c, policy) <= 0)
    requires Open(attempts, s.currentChunk, 0).result.Failure?
    ensures Read(s, bufLen, objects, attempts, signal, policy).next == s
    ensures Read(s, bufLen, objects, attempts, signal, policy).data == []
  {
  }

  /** With no body open and a request to send, a read whose opening
      succeeds reads from the response body. */
  lemma ReadOpens(s: State, bufLen: nat, objects: string -> seq<byte>, attempts: seq<Attempt>,
                  signal: Signal, policy: Policy, offset: nat, range: RangeSpec, o: Opening, body: seq<byte>, st: Step)
    requires !Exhausted(s) && s.current.None?
    requires offset == OpenOffset(s, s.chunks[s.currentChunk], policy)
    requires !(policy == Resuming && OpenEnd(s, s.chunks[s.currentChunk]) - offset <= 0)
    requires range == ChunkRange(offset, OpenEnd(s, s.chunks[s.currentChunk]) - offset)
    requires o == Open(attempts, s.currentChunk, 0) && o.result.Success?
    requires body == ResponseBody(objects(s.chunks[s.currentChunk].notionPageId), o.result.value, range, policy)
    requires st == ReadBody(s.(currentOffset := offset), body, bufLen, signal, Some(OpenRecord(s.currentChunk, range, o.tries, o.delays)))
    ensures Read(s, bufLen, objects, attempts, signal, policy) == st
  {
  }

  /** An opening that starts at the next owed byte asks for a closed range
      that selects exactly the bytes still owed from the chunk. */
  lemma OwedRange(s: State, objects: string -> seq<byte>, data: seq<byte>, policy: Policy)
    requires Serves(s, objects, data) && s.current.None? && s.totalRead < s.Requested()
    requires OpenOffset(s, s.chunks[s.currentChunk], policy) == Pos(s) - s.chunks[s.currentChunk].startOffset
    requires Pos(s) < ChunkStop(s)
    ensures var c := s.chunks[s.currentChunk];
      var offset := Pos(s) - c.startOffset;
      var range := ChunkRange(offset, OpenEnd(s, c) - offset);
      && range == Closed(offset, ChunkStop(s) - c.startOffset - 1)
      && Selection(range, c.endOffset - c.startOffset) == Some(Selected(offset, ChunkStop(s) - c.startOffset))
  {
  }

  /** Any response to that opening that the corrected reader accepts — and
      a 206 response to the reader as written — carries exactly the bytes
      still owed from the chunk. */
  lemma OpenedBodyIsOwedBytes(s: State, objects: string -> seq<byte>, data: seq<byte>, status: int, policy: Policy)
    requires Serves(s, objects, data) && s.current.None? && s.totalRead < s.Requested()
    requires OpenOffset(s, s.chunks[s.currentChunk], policy) == Pos(s) - s.chunks[s.currentChunk].startOffset
    requires Pos(s) < ChunkStop(s)
    requires policy == Resuming || status != 200
    ensures var c := s.chunks[s.currentChunk];
      var offset := Pos(s) - c.startOffset;
      ResponseBody(objects(c.notionPageId), status, ChunkRange(offset, OpenEnd(s, c) - offset), policy)
        == data[Pos(s)..ChunkStop(s)]
  {
    var c := s.chunks[s.currentChunk];
    var obj := objects(c.notionPageId);
    assert obj == data[c.startOffset..c.endOffset];
    var offset := Pos(s) - c.startOffset;
    var stop := ChunkStop(s) - c.startOffset;
    OwedRange(s, objects, data, policy);
    assert 0 <= offset < stop <= |obj|;
    assert obj[offset..stop] == data[Pos(s)..ChunkStop(s)] by {
      forall j | 0 <= j < stop - offset
        ensures obj[offset..stop][j] == data[Pos(s)..ChunkStop(s)][j]
      {
        assert obj[offset + j] == data[c.startOffset + offset + j];
      }
    }
  }

  /** Whatever the remote side does — failed lookups, refused requests,
      bodies that break mid-chunk, servers that ignore the range — the
      corrected reader only ever delivers the requested bytes of the file,
      in order, without gap or repetition. */
  lemma {:induction false} ResumingRunDeliversRequest(s: State, calls: seq<Call>, objects: string -> seq<byte>, data: seq<byte>)
    requires Serves(s, objects, data)
    ensures var r := Run(s, calls, objects, Resuming);
      Serves(r.0, objects, data) && r.1 == data[Pos(s)..Pos(r.0)]
    decreases |calls|
  {
    if |calls| > 0 {
      var c0 := calls[0];
      var st := Read(s, c0.bufLen, objects, c0.attempts, c0.signal, Resuming);
      ResumingStep(s, c0.bufLen, c0.attempts, c0.signal, objects, data);
      ResumingRunDeliversRequest(st.next, calls[1..], objects, data);
      var r1 := Run(st.next, calls[1..], objects, Resuming);
      assert Run(s, calls, objects, Resuming) == (r1.0, st.data + r1.1);
      JoinSlices(data, Pos(s), Pos(st.next), Pos(r1.0));
    }
  }

  /** A serving reader reaches the end of data only once it has delivered
      everything the request asked for. */
  lemma ServedWhenExhausted(s: State, objects: string -> seq<byte>, data: seq<byte>)
    requires Serves(s, objects, data)
    ensures Exhausted(s) <==> Pos(s) == s.requestEnd
  {
  }

  /** The end of data is never early: when a read of the corrected reader
      reports it, the reader has delivered the whole request, and this read
      delivered the rest of it. */
  lemma ResumingEndIsComplete(s: State, bufLen: nat, attempts: seq<Attempt>, signal: Signal,
                              objects: string -> seq<byte>, data: seq<byte>)
    requires Serves(s, objects, data)
    ensures var st := Read(s, bufLen, objects, attempts, signal, Resuming);
      st.outcome == EndOfData ==> Pos(st.next) == s.requestEnd && st.data == data[Pos(s)..s.requestEnd]
  {
    var st := Read(s, bufLen, objects, attempts, signal, Resuming);
    ResumingStep(s, bufLen, attempts, signal, objects, data);
    ServedWhenExhausted(st.next, objects, data);
  }

  /** The bytes a run of the corrected reader delivers are the next bytes
      of the request, never more than it asked for; once the reader has
      reached the end of data they are all of the bytes still owed. */
  lemma ResumingRunBytes(s: State, calls: seq<Call>, objects: string -> seq<byte>, data: seq<byte>)
    requires Serves(s, objects, data)
    ensures var out := Run(s, calls, objects, Resuming).1;
      out == data[Pos(s)..Pos(s) + |out|] && s.totalRead + |out| <= s.Requested()
    ensures var r := Run(s, calls, objects, Resuming);
      Exhausted(r.0) ==> r.1 == data[Pos(s)..s.requestEnd]
  {
    var r := Run(s, calls, objects, Resuming);
    assert s.totalRead + |r.1| <= s.Requested();
    ResumingRunDeliversRequest(s, calls, objects, data);
    ServedWhenExhausted(r.0, objects, data);
  }

  /** Dropping the first `k` bytes of a slice slices further along. */
  lemma SliceTail(data: seq<byte>, i: int, j: int, k: int)
    requires 0 <= i <= j <= |data| && 0 <= k <= j - i
    ensures data[i..j][k..] == data[i + k..j]
  {
  }

  /** Adjacent slices join. */
  lemma JoinSlices(data: seq<byte>, i: int, j: int, k: int)
    requires 0 <= i <= j <= k <= |data|
    ensures data[i..k] == data[i..j] + data[j..k]
  {
  }

  /** A call in which no body breaks and no server answers 200. */
  predicate Clean(call: Call) {
    && call.signal.Deliver?
    && forall j :: 0 <= j < |call.attempts| ==> call.attempts[j] != Responded(200)
  }

  /** Every call of the run is clean. */
  predicate AllClean(calls: seq<Call>) {
    |calls| == 0 || (Clean(calls[0]) && AllClean(calls[1..]))
  }

  /** On a clean call from a reader that has cut no chunk short, the reader
      as written does exactly what the corrected reader does, and cuts no
      chunk short either. */
  lemma CleanStepAgrees(s: State, call: Call, objects: string -> seq<byte>, data: seq<byte>)
    requires Serves(s, objects, data) && Fresh(s) && Clean(call)
    ensures Read(s, call.bufLen, objects, call.attempts, call.signal, AsWritten)
         == Read(s, call.bufLen, objects, call.attempts, call.signal, Resuming)
    ensures Fresh(Read(s, call.bufLen, objects, call.attempts, call.signal, AsWritten).next)
  {
    if !Exhausted(s) && s.current.None? {
      var c := s.chunks[s.currentChunk];
      assert OpenOffset(s, c, AsWritten) == OpenOffset(s, c, Resuming) < OpenEnd(s, c);
      PoliciesAgree(s, call.bufLen, objects, call.attempts, call.signal);
    }
    CleanStepFresh(s, call, objects, data);
  }

  /** When both readers would open the current chunk at the same offset,
      and no attempt is answered with 200, they read the same. */
  lemma PoliciesAgree(s: State, bufLen: nat, objects: string -> seq<byte>, attempts: seq<Attempt>, signal: Signal)
    requires !Exhausted(s) && s.current.None?
    requires var c := s.chunks[s.currentChunk];
      OpenOffset(s, c, AsWritten) == OpenOffset(s, c, Resuming) < OpenEnd(s, c)
    requires forall j :: 0 <= j < |attempts| ==> attempts[j] != Responded(200)
    ensures Read(s, bufLen, objects, attempts, signal, AsWritten) == Read(s, bufLen, objects, attempts, signal, Resuming)
  {
    var o := Open(attempts, s.currentChunk, 0);
    if o.result.Success? {
      var last := AttemptAt(attempts, o.tries - 1);
      assert last == Responded(o.result.value);
      assert o.result.value != 200 by {
        if o.tries - 1 < |attempts| {
          assert attempts[o.tries - 1] != Responded(200);
        }
      }
    }
  }

  /** A clean read by the corrected reader from a reader that has cut no
      chunk short cuts none either. */
  lemma CleanStepFresh(s: State, call: Call, objects: string -> seq<byte>, data: seq<byte>)
    requires Serves(s, objects, data) && Fresh(s) && Clean(call)
    ensures Fresh(Read(s, call.bufLen, objects, call.attempts, call.signal, Resuming).next)
  {
    var n := Read(s, call.bufLen, objects, call.attempts, call.signal, Resuming).next;
    ResumingStep(s, call.bufLen, call.attempts, call.signal, objects, data);
    if n.current.None? && n.totalRead < n.Requested() && n.currentChunk < |n.chunks| && n.currentChunk != s.currentChunk {
      NextChunk(s, objects, data);
    }
  }

  /** On runs without broken bodies or 200 answers, the reader as written
      delivers exactly what the corrected reader delivers — the requested
      bytes, in order, each once. */
  lemma {:induction false} CleanRunDeliversRequest(s: State, calls: seq<Call>, objects: string -> seq<byte>, data: seq<byte>)
    requires Serves(s, objects, data) && Fresh(s)
    requires AllClean(calls)
    ensures Run(s, calls, objects, AsWritten) == Run(s, calls, objects, Resuming)
    ensures var r := Run(s, calls, objects, AsWritten);
      r.1 == data[Pos(s)..Pos(r.0)]
    decreases |calls|
  {
    ResumingRunDeliversRequest(s, calls, objects, data);
    if |calls| > 0 {
      var c0 := calls[0];
      CleanStepAgrees(s, c0, objects, data);
      var st := Read(s, c0.bufLen, objects, c0.attempts, c0.signal, Resuming);
      ResumingStep(s, c0.bufLen, c0.attempts, c0.signal, objects, data);
      CleanRunDeliversRequest(st.next, calls[1..], objects, data);
      assert Run(s, calls, objects, AsWritten) == (Run(st.next, calls[1..], objects, AsWritten).0,
                                                    st.data + Run(st.next, calls[1..], objects, AsWritten).1);
    }
  }

  /** The bytes a clean run of the reader as written delivers are the next
      bytes of the request, never more than it asked for; once the reader
      has reached the end of data they are all of the bytes still owed. */
  lemma CleanRunBytes(s: State, calls: seq<Call>, objects: string -> seq<byte>, data: seq<byte>)
    requires Serves(s, objects, data) && Fresh(s) && AllClean(calls)
    ensures var out := Run(s, calls, objects, AsWritten).1;
      out == data[Pos(s)..Pos(s) + |out|] && s.totalRead + |out| <= s.Requested()
    ensures var r := Run(s, calls, objects, AsWritten);
      Exhausted(r.0) ==> r.1 == data[Pos(s)..s.requestEnd]
  {
    CleanRunDeliversRequest(s, calls, objects, data);
    ResumingRunBytes(s, calls, objects, data);
  }

  /** Once a reader has reached the end of data, every further sequence of
      reads delivers nothing and leaves it as it is. */
  lemma ExhaustedStaysExhausted(s: State, calls: seq<Call>, objects: string -> seq<byte>, policy: Policy)
    requires Exhausted(s)
    ensures Run(s, calls, objects, policy) == (s, [])
  {
  }

  /** Whenever a serving reader that has cut no chunk short (or the
      corrected reader) sends a request, the Range header is a closed range
      of at least one byte, never the open-ended form. */
  lemma RequestsAreClosedRanges(s: State, bufLen: nat, attempts: seq<Attempt>, signal: Signal,
                                objects: string -> seq<byte>, data: seq<byte>, policy: Policy)
    requires Serves(s, objects, data)
    requires policy == Resuming || Fresh(s)
    ensures var st := Read(s, bufLen, objects, attempts, signal, policy);
      st.opening.Some? ==>
        st.opening.value.range.Closed? && st.opening.value.range.first <= st.opening.value.range.last
  {
    if !Exhausted(s) && s.current.None? {
      var c := s.chunks[s.currentChunk];
      var offset := OpenOffset(s, c, policy);
      assert policy == AsWritten ==> offset == Pos(s) - c.startOffset;
      assert policy == AsWritten ==> Pos(s) < ChunkStop(s);
    }
  }

  /** A four-byte file kept in one chunk on page `page`. */
  function SmallFile(): seq<byte> {
    [10, 11, 12, 13]
  }

  function SmallChunks(page: string): seq<FileChunk> {
    [FileChunk(1, 0, 4, 0, 4, page, "")]
  }

  /** Every page holds the whole small file. */
  function SmallObjects(page: string): seq<byte> {
    SmallFile()
  }

  /** A reader over the small file serves any request inside it: the
      corrected reader's guarantee covers both examples below. */
  lemma SmallServes(page: string, start: int, end: int)
    requires 0 <= start < end <= 4
    ensures Serves(Init(SmallChunks(page), start, end), SmallObjects, SmallFile())
  {
  }

  /** The opening the examples make: one attempt, answered with `status`. */
  lemma OpenOnce(status: int)
    requires Accepted(status)
    ensures Open([Responded(status)], 0, 0) == Opening(Success(status), 1, [])
  {
  }

  /** A body breaks after two bytes; the next read re-opens the chunk. The
      reader as written asks again for the range it started with and hands
      the first two bytes out a second time; the corrected reader asks for
      the two bytes still owed. */
  lemma RetryRedeliversBytes(page: string)
    ensures var s := Init(SmallChunks(page), 0, 4);
      var calls := [Call(4, [Responded(206)], Break(2)), Call(4, [Responded(206)], Deliver(4, true))];
      && Run(s, calls, SmallObjects, AsWritten).1 == [10, 11, 10, 11]
      && Run(s, calls, SmallObjects, Resuming).1 == SmallFile()
  {
    var s := Init(SmallChunks(page), 0, 4);
    var broken := BrokenAfterTwo(page, AsWritten);
    assert broken == BrokenAfterTwo(page, Resuming);
    RereadAsWritten(page);
    RereadResuming(page);
    var c1 := Call(4, [Responded(206)], Break(2));
    var c2 := Call(4, [Responded(206)], Deliver(4, true));
    RunTwo(s, c1, c2, SmallObjects, AsWritten);
    RunTwo(s, c1, c2, SmallObjects, Resuming);
  }

  /** Two reads in a row deliver what the first delivers, then what the second does. */
  lemma RunTwo(s: State, c1: Call, c2: Call, objects: string -> seq<byte>, policy: Policy)
    ensures var first := Read(s, c1.bufLen, objects, c1.attempts, c1.signal, policy);
      var second := Read(first.next, c2.bufLen, objects, c2.attempts, c2.signal, policy);
      Run(s, [c1, c2], objects, policy).1 == first.data + second.data
  {
    var first := Read(s, c1.bufLen, objects, c1.attempts, c1.signal, policy);
    var second := Read(first.next, c2.bufLen, objects, c2.attempts, c2.signal, policy);
    assert [c1, c2][0] == c1 && [c1, c2][1..] == [c2];
    assert [c2][0] == c2 && [c2][1..] == [];
    assert Run(second.next, [], objects, policy).1 == [];
    assert Run(first.next, [c2], objects, policy).1 == second.data + [];
  }

  /** The first read of the retry example: two bytes, then the body breaks. */
  function BrokenAfterTwo(page: string, policy: Policy): (next: State)
    ensures next == State(SmallChunks(page), 0, 4, 0, None, 0, 2, false)
    ensures var st := Read(Init(SmallChunks(page), 0, 4), 4, SmallObjects, [Responded(206)], Break(2), policy);
      st.next == next && st.data == [10, 11]
  {
    OpenOnce(206);
    Read(Init(SmallChunks(page), 0, 4), 4, SmallObjects, [Responded(206)], Break(2), policy).next
  }

  lemma RereadAsWritten(page: string)
    ensures Read(State(SmallChunks(page), 0, 4, 0, None, 0, 2, false), 4, SmallObjects, [Responded(206)], Deliver(4, true), AsWritten).data
      == [10, 11]
  {
    OpenOnce(206);
  }

  lemma RereadResuming(page: string)
    ensures Read(State(SmallChunks(page), 0, 4, 0, None, 0, 2, false), 4, SmallObjects, [Responded(206)], Deliver(4, true), Resuming).data
      == [12, 13]
  {
    var s := State(SmallChunks(page), 0, 4, 0, None, 0, 2, false);
    OpenOnce(206);
    var body := ResponseBody(SmallFile(), 206, Closed(2, 3), Resuming);
    assert body == [12, 13];
    var record := Some(OpenRecord(0, Closed(2, 3), 1, []));
    var st := ReadBody(s.(currentOffset := 2), body, 4, Deliver(4, true), record);
    ReadBodyDrains(s.(currentOffset := 2), body, 4, 4, true, record);
    ReadOpens(s, 4, SmallObjects, [Responded(206)], Deliver(4, true), Resuming, 2, Closed(2, 3),
              Open([Responded(206)], 0, 0), body, st);
  }

  /** A read that can take the whole open body takes it. */
  lemma ReadBodyDrains(s: State, rest: seq<byte>, bufLen: nat, n: nat, eager: bool, opening: Option<OpenRecord>)
    requires s.totalRead < s.Requested()
    requires |rest| <= n && |rest| <= bufLen && |rest| <= s.Requested() - s.totalRead
    ensures ReadBody(s, rest, bufLen, Deliver(n, eager), opening).data == rest
  {
  }

  /** A server that ignores the Range header answers 200 with the whole
      chunk. The reader as written accepts it and hands out the chunk's
      first bytes in place of the requested ones; the corrected reader
      trims the body to the range it asked for. */
  lemma FullResponseMisplacesBytes(page: string)
    ensures var s := Init(SmallChunks(page), 2, 4);
      && Read(s, 2, SmallObjects, [Responded(200)], Deliver(2, true), AsWritten).data == [10, 11]
      && Read(s, 2, SmallObjects, [Responded(200)], Deliver(2, true), Resuming).data == SmallFile()[2..4]
  {
    FullResponseAsWritten(page);
    FullResponseResuming(page);
  }

  lemma FullResponseAsWritten(page: string)
    ensures Read(Init(SmallChunks(page), 2, 4), 2, SmallObjects, [Responded(200)], Deliver(2, true), AsWritten).data == [10, 11]
  {
    var s := Init(SmallChunks(page), 2, 4);
    OpenOnce(200);
    var record := Some(OpenRecord(0, Closed(2, 3), 1, []));
    var whole := ReadBody(s.(currentOffset := 2), SmallFile(), 2, Deliver(2, true), record);
    assert whole.data == SmallFile()[..2];
    ReadOpens(s, 2, SmallObjects, [Responded(200)], Deliver(2, true), AsWritten, 2, Closed(2, 3),
              Open([Responded(200)], 0, 0), SmallFile(), whole);
  }

  lemma FullResponseResuming(page: string)
    ensures Read(Init(SmallChunks(page), 2, 4), 2, SmallObjects, [Responded(200)], Deliver(2, true), Resuming).data == [12, 13]
  {
    var s := Init(SmallChunks(page), 2, 4);
    OpenOnce(200);
    var record := Some(OpenRecord(0, Closed(2, 3), 1, []));
    var body := ResponseBody(SmallFile(), 200, Closed(2, 3), Resuming);
    assert body == [12, 13];
    var trimmed := ReadBody(s.(currentOffset := 2), body, 2, Deliver(2, true), record);
    ReadBodyDrains(s.(currentOffset := 2), body, 2, 2, true, record);
    ReadOpens(s, 2, SmallObjects, [Responded(200)], Deliver(2, true), Resuming, 2, Closed(2, 3),
              Open([Responded(200)], 0, 0), body, trimmed);
  }

  /** Two failed page lookups, then a 206: the opening sleeps one and then
      two seconds and succeeds on the third attempt. A lookup failure on
      the third attempt ends the opening with an error naming the chunk
      and the three attempts. */
  lemma RetryScenario()
    ensures Open([ResolveFailed, ResolveFailed, Responded(206)], 0, 0) == Opening(Success(206), 3, [1, 2])
    ensures Open([ResolveFailed, RequestFailed, ResolveFailed], 0, 0)
         == Opening(Failure(ResolveExhausted(0, 3)), 3, [1, 2])
  {
    var a := [ResolveFailed, ResolveFailed, Responded(206)];
    assert Open(a, 0, 2) == Opening(Success(206), 3, []);
    assert Open(a, 0, 1) == Opening(Success(206), 3, [2]);
    var b := [ResolveFailed, RequestFailed, ResolveFailed];
    assert Open(b, 0, 2) == Opening(Failure(ResolveExhausted(0, 3)), 3, []);
    assert Open(b, 0, 1) == Opening(Failure(ResolveExhausted(0, 3)), 3, [2]);
  }
}
