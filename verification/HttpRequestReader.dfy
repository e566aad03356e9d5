/** The read side of an HTTP connection: a request is put together from reads of any size.

    What a header block says (its Content-Length, zero when absent or unreadable, and
    whether it asks for the event stream) and the bytes a request is answered with are a
    parameter: the theorems hold for every way of reading headers and every set of routes. */
module HttpRequestReader {
  import opened Bytes

  const LIMIT := 65536
  const TERMINATOR: seq<byte> := [13, 10, 13, 10]

  /** What the connection needs from a header block, and the answer to a header block and body:
      a response, or the head of the event stream. */
  datatype Service = Service(contentLength: seq<byte> -> nat, wantsEvents: seq<byte> -> bool,
                             answer: (seq<byte>, seq<byte>) -> seq<byte>)

  datatype State = ReadingRequest | WritingResponse | StreamingSse | Closed

  datatype Reader = Reader(state: State, inBuf: seq<byte>, headersComplete: bool,
                           head: seq<byte>, expected: nat, body: seq<byte>, processed: nat,
                           outBuf: seq<byte>, outWritten: nat)

  const FRESH := Reader(ReadingRequest, [], false, [], 0, [], 0, [], 0)

  /** Position of the first blank line, or the length when there is none. */
  function FindTerminator(s: seq<byte>): (pos: nat)
    ensures pos <= |s|
    ensures pos < |s| ==> pos + 4 <= |s|
  {
    if |s| < 4 then |s|
    else if s[..4] == TERMINATOR then 0
    else 1 + FindTerminator(s[1..])
  }

  predicate HasTerminator(s: seq<byte>) {
    FindTerminator(s) < |s|
  }

  // --------------------------------------------------------------- the reader

  /** One read; an empty one is the end of the connection. */
  function Read(sv: Service, r: Reader, chunk: seq<byte>): Reader
  {
    if chunk == [] || r.state.StreamingSse? then r.(state := Closed)
    else if !r.state.ReadingRequest? then r
    else
      var buf := r.inBuf + chunk;
      if r.headersComplete then ReadBody(sv, r.(inBuf := buf))
      else
        var pos := FindTerminator(buf);
        if pos == |buf| then
          if |buf| > LIMIT then r.(inBuf := buf, state := Closed) else r.(inBuf := buf)
        else if pos == 0 then r.(inBuf := buf, state := Closed)
        else
          ReadBody(sv, r.(headersComplete := true, head := buf[..pos],
                          expected := sv.contentLength(buf[..pos]), inBuf := buf[pos + 4..]))
  }

  /** The answer replaces whatever was in the output buffer. */
  function Process(sv: Service, r: Reader): Reader {
    r.(processed := r.processed + 1, outBuf := sv.answer(r.head, r.body), outWritten := 0,
       state := if sv.wantsEvents(r.head) then StreamingSse else WritingResponse)
  }

  function ReadBody(sv: Service, r: Reader): Reader {
    if |r.inBuf| < r.expected then r
    else
      Process(sv, r.(body := r.inBuf[..r.expected], inBuf := r.inBuf[r.expected..]))
  }

  /** Reads go on as long as a request is being read. */
  function ReadAll(sv: Service, r: Reader, chunks: seq<seq<byte>>): Reader
    decreases |chunks|
  {
    if chunks == [] || !r.state.ReadingRequest? then r
    else ReadAll(sv, Read(sv, r, chunks[0]), chunks[1..])
  }

  // ------------------------------------------------------- the unsplit input

  datatype Outcome = Waiting | Rejected | Ready(head: seq<byte>, body: seq<byte>)

  /** What the bytes so far amount to, however they were cut. */
  function Parse(sv: Service, s: seq<byte>): Outcome {
    var pos := FindTerminator(s);
    if pos == |s| then Waiting
    else if pos == 0 then Rejected
    else
      var n := sv.contentLength(s[..pos]);
      if |s| < pos + 4 + n then Waiting else Ready(s[..pos], s[pos + 4..pos + 4 + n])
  }

  /** The connection is where the unsplit input says it should be; a complete request was
      processed exactly once, and its answer is to be sent from the start. */
  predicate Agrees(sv: Service, r: Reader, o: Outcome) {
    match o
    case Waiting => r.state.ReadingRequest? && r.processed == 0
    case Rejected => r.state.Closed? && r.processed == 0
    case Ready(head, body) =>
      && r.state == (if sv.wantsEvents(head) then StreamingSse else WritingResponse)
      && r.processed == 1 && r.head == head && r.body == body
      && r.outBuf == sv.answer(head, body) && r.outWritten == 0
  }

  /** The header block, blank line included, stays within one byte of the limit. */
  predicate HeaderFits(s: seq<byte>) {
    if HasTerminator(s) then FindTerminator(s) + 4 <= 65537 else |s| <= 65536
  }

  predicate Reads(chunks: seq<seq<byte>>) {
    forall i :: 0 <= i < |chunks| ==> chunks[i] != []
  }

  lemma SliceStays(s: seq<byte>, t: seq<byte>, i: nat, j: nat)
    requires i <= j <= |s|
    ensures (s + t)[i..j] == s[i..j]
  {
  }

  lemma SliceOfRest(s: seq<byte>, i: nat, j: nat)
    requires 1 <= i <= j <= |s|
    ensures s[1..][i - 1..j - 1] == s[i..j]
  {
  }

  lemma {:induction false} TerminatorStays(s: seq<byte>, t: seq<byte>)
    ensures HasTerminator(s) ==> FindTerminator(s + t) == FindTerminator(s)
    ensures !HasTerminator(s) && HasTerminator(s + t) ==> FindTerminator(s + t) + 4 > |s|
  {
    if |s| >= 4 {
      SliceStays(s, t, 0, 4);
      if s[..4] != TERMINATOR {
        TerminatorStays(s[1..], t);
        assert (s + t)[1..] == s[1..] + t;
      }
    }
  }

  /** The position found is that of the first blank line. */
  lemma {:induction false} FirstTerminator(s: seq<byte>, i: nat)
    requires i + 4 <= |s|
    ensures i < FindTerminator(s) ==> s[i..i + 4] != [13, 10, 13, 10]
    ensures i == FindTerminator(s) ==> s[i..i + 4] == [13, 10, 13, 10]
  {
    if i > 0 && s[..4] != TERMINATOR {
      FirstTerminator(s[1..], i - 1);
      SliceOfRest(s, i, i + 4);
    }
  }

  lemma FitsPrefix(s: seq<byte>, t: seq<byte>)
    requires HeaderFits(s + t)
    ensures HeaderFits(s)
  {
    TerminatorStays(s, t);
  }

  /** More bytes do not change a request once it is complete. */
  lemma ParseStays(sv: Service, s: seq<byte>, t: seq<byte>)
    requires !Parse(sv, s).Waiting?
    ensures Parse(sv, s + t) == Parse(sv, s)
  {
    TerminatorStays(s, t);
    var pos := FindTerminator(s);
    SliceStays(s, t, 0, pos);
    if pos > 0 {
      SliceStays(s, t, pos + 4, pos + 4 + sv.contentLength(s[..pos]));
    }
  }

  /** A reader still waiting holds exactly what came after the part it has consumed. */
  predicate Waits(sv: Service, r: Reader, s: seq<byte>) {
    && r.state.ReadingRequest? && r.processed == 0 && Parse(sv, s).Waiting?
    && (if HasTerminator(s) then
          var pos := FindTerminator(s);
          r.headersComplete && r.head == s[..pos] && r.expected == sv.contentLength(r.head)
          && r.inBuf == s[pos + 4..]
        else !r.headersComplete && r.inBuf == s)
  }

  lemma ParseHeader(sv: Service, s: seq<byte>, pos: nat, n: nat)
    requires 0 < pos == FindTerminator(s) < |s| && n == sv.contentLength(s[..pos])
    ensures Parse(sv, s) == if |s[pos + 4..]| < n then Waiting else Ready(s[..pos], s[pos + 4..][..n])
  {
    if |s| >= pos + 4 + n {
      assert s[pos + 4..][..n] == s[pos + 4..pos + 4 + n];
    }
  }

  /** The bytes of a request behind its header block, read against the unsplit input. */
  lemma BodyStep(sv: Service, r: Reader, s: seq<byte>, pos: nat)
    requires r.state.ReadingRequest? && r.processed == 0 && r.headersComplete
    requires 0 < pos == FindTerminator(s) < |s|
    requires r.head == s[..pos] && r.expected == sv.contentLength(r.head) && r.inBuf == s[pos + 4..]
    ensures var q := ReadBody(sv, r);
            Agrees(sv, q, Parse(sv, s)) && (q.state.ReadingRequest? ==> Waits(sv, q, s))
  {
    ParseHeader(sv, s, pos, r.expected);
  }

  lemma SplitAt(s: seq<byte>, chunk: seq<byte>, pos: nat)
    requires pos + 4 <= |s|
    ensures (s + chunk)[..pos] == s[..pos]
    ensures (s + chunk)[pos + 4..] == s[pos + 4..] + chunk
  {
  }

  /** So many bytes that a read gives the connection up, unless there is a blank line in them. */
  predicate Oversized(s: seq<byte>) {
    !HasTerminator(s) && |s| > 65536
  }

  lemma ReadStep(sv: Service, r: Reader, s: seq<byte>, chunk: seq<byte>)
    requires Waits(sv, r, s) && chunk != [] && !Oversized(s + chunk)
    ensures var q := Read(sv, r, chunk);
            Agrees(sv, q, Parse(sv, s + chunk)) && (q.state.ReadingRequest? ==> Waits(sv, q, s + chunk))
  {
    TerminatorStays(s, chunk);
    hide FindTerminator, ReadBody;
    var all := s + chunk;
    var pos := FindTerminator(all);
    if HasTerminator(s) {
      SplitAt(s, chunk, pos);
      BodyStep(sv, r.(inBuf := r.inBuf + chunk), all, pos);
    } else if 0 < pos < |all| {
      BodyStep(sv, r.(headersComplete := true, head := all[..pos],
                      expected := sv.contentLength(all[..pos]), inBuf := all[pos + 4..]), all, pos);
    }
  }

  lemma {:induction false} ReadAllStep(sv: Service, r: Reader, s: seq<byte>, chunks: seq<seq<byte>>)
    requires Waits(sv, r, s) && Reads(chunks) && HeaderFits(s + Concat(chunks))
    ensures Agrees(sv, ReadAll(sv, r, chunks), Parse(sv, s + Concat(chunks)))
    decreases |chunks|
  {
    if chunks == [] {
      assert s + Concat(chunks) == s;
    } else {
      var q, t, rest := Read(sv, r, chunks[0]), s + chunks[0], Concat(chunks[1..]);
      assert s + Concat(chunks) == t + rest;
      FitsPrefix(t, rest);
      ReadStep(sv, r, s, chunks[0]);
      if q.state.ReadingRequest? {
        ReadAllStep(sv, q, t, chunks[1..]);
      } else {
        ParseStays(sv, t, rest);
      }
    }
  }

  /** Request assembly does not depend on the reads: after any number of them, of any sizes,
      the request has been processed exactly once if the bytes so far complete it, with the
      head and the body of the unsplit input, and not at all otherwise. */
  lemma ChunkIndependence(sv: Service, chunks: seq<seq<byte>>, i: nat)
    requires Reads(chunks) && HeaderFits(Concat(chunks)) && i <= |chunks|
    ensures Agrees(sv, ReadAll(sv, FRESH, chunks[..i]), Parse(sv, Concat(chunks[..i])))
  {
    ConcatAppend(chunks[..i], chunks[i..]);
    assert chunks[..i] + chunks[i..] == chunks;
    FitsPrefix(Concat(chunks[..i]), Concat(chunks[i..]));
    assert [] + Concat(chunks[..i]) == Concat(chunks[..i]);
    ReadAllStep(sv, FRESH, [], chunks[..i]);
  }

  /** The bytes a connection has read, put together from where it keeps them. */
  function Held(r: Reader): seq<byte> {
    (if r.headersComplete then r.head + TERMINATOR else [])
    + (if r.processed > 0 then r.body else [])
    + r.inBuf
  }

  lemma HeadAndRest(buf: seq<byte>, pos: nat)
    requires pos == FindTerminator(buf) < |buf|
    ensures buf[..pos] + TERMINATOR + buf[pos + 4..] == buf
  {
    FirstTerminator(buf, pos);
    ThreeSlices(buf, pos, pos + 4);
  }

  lemma ThreeSlices(s: seq<byte>, i: nat, j: nat)
    requires i <= j <= |s|
    ensures s[..i] + s[i..j] + s[j..] == s
  {
  }

  lemma BodyKeepsBytes(sv: Service, r: Reader)
    requires r.processed == 0
    ensures Held(ReadBody(sv, r)) == Held(r)
  {
    if |r.inBuf| >= r.expected {
      assert r.inBuf == r.inBuf[..r.expected] + r.inBuf[r.expected..];
    }
  }

  /** No byte is lost or read twice: what follows the request stays in the input buffer. */
  lemma ReadKeepsBytes(sv: Service, r: Reader, chunk: seq<byte>)
    requires r.state.ReadingRequest? && r.processed == 0
    ensures Held(Read(sv, r, chunk)) == Held(r) + chunk
  {
    hide ReadBody, FindTerminator;
    var buf := r.inBuf + chunk;
    var pos := FindTerminator(buf);
    if r.headersComplete {
      BodyKeepsBytes(sv, r.(inBuf := buf));
    } else if 0 < pos < |buf| {
      HeadAndRest(buf, pos);
      BodyKeepsBytes(sv, r.(headersComplete := true, head := buf[..pos],
                            expected := sv.contentLength(buf[..pos]), inBuf := buf[pos + 4..]));
    }
  }

  // ---------------------------------------------------------- the exact limit

  function Singles(s: seq<byte>): seq<seq<byte>> {
    if s == [] then [] else Singles(s[..|s| - 1]) + [[s[|s| - 1]]]
  }

  lemma {:induction false} SinglesConcat(s: seq<byte>)
    ensures Concat(Singles(s)) == s && Reads(Singles(s))
  {
    if s != [] {
      SinglesConcat(s[..|s| - 1]);
      ConcatSnoc(Singles(s[..|s| - 1]), [s[|s| - 1]]);
    }
  }

  lemma {:induction false} ReadAllSplit(sv: Service, r: Reader, a: seq<seq<byte>>, b: seq<seq<byte>>)
    ensures ReadAll(sv, r, a + b) == ReadAll(sv, ReadAll(sv, r, a), b)
    decreases |a|
  {
    if a == [] {
      assert a + b == b;
    } else if r.state.ReadingRequest? {
      ReadAllSplit(sv, Read(sv, r, a[0]), a[1..], b);
      assert (a + b)[1..] == a[1..] + b;
    }
  }

  /** While no blank line has come, the buffer is everything read. */
  lemma {:induction false} StillReading(sv: Service, chunks: seq<seq<byte>>)
    requires Reads(chunks) && !HasTerminator(Concat(chunks)) && |Concat(chunks)| <= LIMIT
    ensures Waits(sv, ReadAll(sv, FRESH, chunks), Concat(chunks))
    decreases |chunks|
  {
    if chunks != [] {
      var n := |chunks| - 1;
      var init, last := chunks[..n], chunks[n];
      assert chunks == init + [last];
      ConcatSnoc(init, last);
      TerminatorStays(Concat(init), last);
      StillReading(sv, init);
      ReadAllSplit(sv, FRESH, init, [last]);
      var r := ReadAll(sv, FRESH, init);
      ReadStep(sv, r, Concat(init), last);
      assert ReadAll(sv, r, [last]) == Read(sv, r, last);
    }
  }

  /** Read byte by byte, a header block beyond the limit closes the connection. */
  lemma OversizedCloses(sv: Service, s: seq<byte>)
    requires LIMIT + 1 <= |s| && !HasTerminator(s[..LIMIT + 1])
    ensures ReadAll(sv, FRESH, Singles(s[..LIMIT + 1])).state.Closed?
  {
    var start, last := s[..LIMIT], [s[LIMIT]];
    var upto := s[..LIMIT + 1];
    assert upto == start + last && upto[..LIMIT] == start;
    assert Singles(upto) == Singles(start) + [last];
    SinglesConcat(start);
    TerminatorStays(start, last);
    StillReading(sv, Singles(start));
    ReadAllSplit(sv, FRESH, Singles(start), [last]);
    var r := ReadAll(sv, FRESH, Singles(start));
    assert Read(sv, r, last).state.Closed?;
    assert ReadAll(sv, r, [last]) == Read(sv, r, last);
  }

  lemma ClosedStays(sv: Service, r: Reader, chunks: seq<seq<byte>>)
    requires r.state.Closed?
    ensures ReadAll(sv, r, chunks) == r
  {
  }

  /** Arriving byte by byte up to one byte past the limit, such a request is given up. */
  lemma OversizedChunks(sv: Service, s: seq<byte>) returns (chunks: seq<seq<byte>>)
    requires Parse(sv, s).Ready? && !HeaderFits(s)
    ensures Reads(chunks) && Concat(chunks) == s && !Agrees(sv, ReadAll(sv, FRESH, chunks), Parse(sv, s))
  {
    var cut, rest := s[..LIMIT + 1], s[LIMIT + 1..];
    assert cut + rest == s;
    TerminatorStays(cut, rest);
    OversizedCloses(sv, s);
    hide Parse, ReadAll, Read, Concat, FindTerminator;
    chunks := Singles(cut) + [rest];
    SinglesConcat(cut);
    ConcatSnoc(Singles(cut), rest);
    ReadAllSplit(sv, FRESH, Singles(cut), [rest]);
    ClosedStays(sv, ReadAll(sv, FRESH, Singles(cut)), [rest]);
  }

  /** A complete request is assembled under every chunking exactly when its header block,
      blank line included, is at most 65537 bytes long. */
  lemma AssembledExactlyWithinLimit(sv: Service, s: seq<byte>)
    requires Parse(sv, s).Ready?
    ensures (forall chunks: seq<seq<byte>> :: Reads(chunks) && Concat(chunks) == s ==>
               Agrees(sv, ReadAll(sv, FRESH, chunks), Parse(sv, s)))
            <==> HeaderFits(s)
  {
    hide Parse, ReadAll, Concat, HeaderFits, Agrees, Reads;
    if HeaderFits(s) {
      forall chunks: seq<seq<byte>> | Reads(chunks) && Concat(chunks) == s
        ensures Agrees(sv, ReadAll(sv, FRESH, chunks), Parse(sv, s))
      {
        ChunkIndependence(sv, chunks, |chunks|);
        assert chunks[..|chunks|] == chunks;
      }
    } else {
      var chunks := OversizedChunks(sv, s);
      assert Reads(chunks);
    }
  }

  // ------------------------------------------------------- the connection's end

  predicate Polled(r: Reader) {
    r.state.ReadingRequest? || r.state.StreamingSse?
  }

  /** Every read of a connection, as long as it is polled for input. */
  function Polls(sv: Service, r: Reader, chunks: seq<seq<byte>>): Reader
    decreases |chunks|
  {
    if chunks == [] || !Polled(r) then r else Polls(sv, Read(sv, r, chunks[0]), chunks[1..])
  }

  /** The end of the connection closes it, and so does any input on an event stream; nothing is
      processed or answered by that. */
  lemma EndCloses(sv: Service, r: Reader, chunk: seq<byte>)
    requires Polled(r) && (chunk == [] || r.state.StreamingSse?)
    ensures Read(sv, r, chunk).state.Closed?
    ensures Read(sv, r, chunk).(state := r.state) == r
  {
  }

  /** The reads before the end of the connection. */
  function UntilEnd(chunks: seq<seq<byte>>): (r: seq<seq<byte>>)
    ensures |r| <= |chunks| && r == chunks[..|r|] && Reads(r)
    ensures |r| < |chunks| ==> chunks[|r|] == []
  {
    if chunks == [] || chunks[0] == [] then [] else [chunks[0]] + UntilEnd(chunks[1..])
  }

  /** The last read is the one that completes the request, and the connection goes on. */
  predicate LastCompletes(sv: Service, s: seq<byte>, chunks: seq<seq<byte>>) {
    && chunks != [] && Reads(chunks)
    && Parse(sv, s + Concat(chunks[..|chunks| - 1])).Waiting?
  }

  /** Where a connection is after its reads, given what they amount to up to its end. */
  predicate Ends(sv: Service, r: Reader, s: seq<byte>, chunks: seq<seq<byte>>) {
    match Parse(sv, s + Concat(UntilEnd(chunks)))
    case Waiting =>
      && r.processed == 0
      && r.state == (if Reads(chunks) then ReadingRequest else Closed)
    case Rejected =>
      && r.processed == 0 && r.state.Closed?
    case Ready(head, body) =>
      && r.processed == 1 && r.head == head && r.body == body
      && r.outBuf == sv.answer(head, body) && r.outWritten == 0
      && r.state == (if !sv.wantsEvents(head) then WritingResponse
                     else if LastCompletes(sv, s, chunks) then StreamingSse
                     else Closed)
  }

  lemma ConcatFrom(s: seq<byte>, chunks: seq<seq<byte>>, rest: seq<seq<byte>>)
    requires chunks != [] && chunks[1..] == rest
    ensures s + Concat(chunks) == s + chunks[0] + Concat(rest)
  {
  }

  lemma ReadsRest(chunks: seq<seq<byte>>)
    requires chunks != [] && chunks[0] != []
    ensures Reads(chunks) <==> Reads(chunks[1..])
  {
    if Reads(chunks[1..]) {
      forall i | 0 <= i < |chunks| ensures chunks[i] != [] {
        assert i > 0 ==> chunks[i] == chunks[1..][i - 1];
      }
    }
  }

  lemma InitRest(chunks: seq<seq<byte>>)
    requires |chunks| > 1
    ensures chunks[..|chunks| - 1][1..] == chunks[1..][..|chunks| - 2]
  {
  }

  lemma UntilEndCons(s: seq<byte>, chunks: seq<seq<byte>>)
    requires chunks != [] && chunks[0] != []
    ensures s + Concat(UntilEnd(chunks)) == s + chunks[0] + Concat(UntilEnd(chunks[1..]))
  {
    assert UntilEnd(chunks)[1..] == UntilEnd(chunks[1..]);
    ConcatFrom(s, UntilEnd(chunks), UntilEnd(chunks[1..]));
  }

  lemma InitCons(s: seq<byte>, chunks: seq<seq<byte>>)
    requires |chunks| > 1
    ensures s + Concat(chunks[..|chunks| - 1]) == s + chunks[0] + Concat(chunks[1..][..|chunks| - 2])
  {
    InitRest(chunks);
    ConcatFrom(s, chunks[..|chunks| - 1], chunks[1..][..|chunks| - 2]);
  }

  /** What follows the read that completes or rejects the request. */
  lemma AfterRequest(sv: Service, q: Reader, s: seq<byte>, chunks: seq<seq<byte>>)
    requires chunks != [] && chunks[0] != [] && Parse(sv, s).Waiting?
    requires !Parse(sv, s + chunks[0]).Waiting? && Agrees(sv, q, Parse(sv, s + chunks[0]))
    ensures Ends(sv, Polls(sv, q, chunks[1..]), s, chunks)
  {
    UntilEndCons(s, chunks);
    ParseStays(sv, s + chunks[0], Concat(UntilEnd(chunks[1..])));
    hide Parse, Concat, UntilEnd;
    ReadsRest(chunks);
    if |chunks| > 1 {
      InitCons(s, chunks);
      ParseStays(sv, s + chunks[0], Concat(chunks[1..][..|chunks| - 2]));
      assert !LastCompletes(sv, s, chunks);
    } else {
      NoReads(s, chunks);
    }
  }

  lemma NoReads(s: seq<byte>, chunks: seq<seq<byte>>)
    requires |chunks| == 1
    ensures s + Concat(chunks[..0]) == s
  {
  }

  /** The first read of a request that goes on belongs to what has been read. */
  lemma EndsLater(sv: Service, r: Reader, s: seq<byte>, chunks: seq<seq<byte>>)
    requires chunks != [] && chunks[0] != [] && Parse(sv, s).Waiting? && Parse(sv, s + chunks[0]).Waiting?
    requires Ends(sv, r, s + chunks[0], chunks[1..])
    ensures Ends(sv, r, s, chunks)
  {
    UntilEndCons(s, chunks);
    ReadsRest(chunks);
    if |chunks| > 1 {
      InitCons(s, chunks);
    }
    hide Parse, Concat, UntilEnd, Reads;
    if |chunks| == 1 {
      NoReads(s + chunks[0], chunks);
      NoMoreReads(s + chunks[0], chunks[1..]);
    }
  }

  lemma NoMoreReads( s: seq<byte>, chunks: seq<seq<byte>>)
    requires chunks == []
    ensures s + Concat(UntilEnd(chunks)) == s
  {
  }

  /** Some read before the end of the connection finds too many bytes and no blank line. */
  predicate GivenUp(s: seq<byte>, chunks: seq<seq<byte>>)
    decreases |chunks|
  {
    && chunks != [] && chunks[0] != []
    && (Oversized(s + chunks[0]) || GivenUp(s + chunks[0], chunks[1..]))
  }

  lemma {:induction false} NotGivenUp(s: seq<byte>, chunks: seq<seq<byte>>)
    requires HasTerminator(s)
    ensures !GivenUp(s, chunks)
    decreases |chunks|
  {
    if chunks != [] {
      TerminatorStays(s, chunks[0]);
      NotGivenUp(s + chunks[0], chunks[1..]);
    }
  }

  lemma GiveUp(sv: Service, r: Reader, s: seq<byte>, chunk: seq<byte>)
    requires Waits(sv, r, s) && chunk != [] && Oversized(s + chunk)
    ensures Read(sv, r, chunk).state.Closed? && Read(sv, r, chunk).processed == 0
    ensures Read(sv, r, chunk).outBuf == r.outBuf
  {
    TerminatorStays(s, chunk);
  }

  lemma {:induction false} PollsStep(sv: Service, r: Reader, s: seq<byte>, chunks: seq<seq<byte>>)
    requires Waits(sv, r, s)
    ensures var q := Polls(sv, r, chunks);
            if GivenUp(s, chunks) then q.state.Closed? && q.processed == 0 && q.outBuf == r.outBuf
            else Ends(sv, q, s, chunks)
    decreases |chunks|
  {
    if chunks == [] || chunks[0] == [] {
      assert s + Concat(UntilEnd(chunks)) == s;
    } else {
      var q, t := Read(sv, r, chunks[0]), s + chunks[0];
      assert Polls(sv, r, chunks) == Polls(sv, q, chunks[1..]);
      if Oversized(t) {
        GiveUp(sv, r, s, chunks[0]);
      } else {
        PollsOn(sv, r, s, chunks);
      }
    }
  }

  lemma {:induction false} PollsOn(sv: Service, r: Reader, s: seq<byte>, chunks: seq<seq<byte>>)
    requires Waits(sv, r, s) && chunks != [] && chunks[0] != [] && !Oversized(s + chunks[0])
    ensures var q := Polls(sv, Read(sv, r, chunks[0]), chunks[1..]);
            if GivenUp(s, chunks) then q.state.Closed? && q.processed == 0 && q.outBuf == r.outBuf
            else Ends(sv, q, s, chunks)
    decreases |chunks|, 0
  {
    var q, t := Read(sv, r, chunks[0]), s + chunks[0];
    ReadStep(sv, r, s, chunks[0]);
    assert q.state.ReadingRequest? ==> q.outBuf == r.outBuf;
    assert !Parse(sv, t).Waiting? ==> HasTerminator(t);
    hide Parse, Polls, Read, Ends, Oversized, HasTerminator;
    if q.state.ReadingRequest? {
      PollsStep(sv, q, t, chunks[1..]);
      if !GivenUp(s, chunks) {
        EndsLater(sv, Polls(sv, q, chunks[1..]), s, chunks);
      }
    } else {
      AfterRequest(sv, q, s, chunks);
      NotGivenUp(t, chunks[1..]);
    }
  }

  /** A connection over its whole life. A request cut off before it is complete is never
      processed, and the connection is closed; a complete one is processed once whatever
      follows; an event stream is up until anything at all is read from it. Too long a header
      block closes the connection at the first read that finds no blank line in it. */
  lemma EveryConnectionEnds(sv: Service, chunks: seq<seq<byte>>)
    ensures var q := Polls(sv, FRESH, chunks);
            if GivenUp([], chunks) then q.state.Closed? && q.processed == 0 && q.outBuf == []
            else Ends(sv, q, [], chunks)
  {
    PollsStep(sv, FRESH, [], chunks);
  }

  // --------------------------------------------------------------- the object

  class Connection {
    const service: Service
    var state: State
    var inBuf: seq<byte>
    var headersComplete: bool
    var head: seq<byte>
    var expectedContentLength: nat
    var body: seq<byte>
    var processed: nat
    var outBuf: seq<byte>
    var outWritten: nat

    function Snapshot(): Reader
      reads this
    {
      Reader(state, inBuf, headersComplete, head, expectedContentLength, body, processed, outBuf, outWritten)
    }

    constructor (service: Service)
      ensures this.service == service && Snapshot() == FRESH
    {
      this.service := service;
      state, inBuf, headersComplete, head := ReadingRequest, [], false, [];
      expectedContentLength, body, processed := 0, [], 0;
      outBuf, outWritten := [], 0;
    }

    method ProcessRequest()
      modifies this
      ensures Snapshot() == Process(service, old(Snapshot()))
    {
      processed := processed + 1;
      outBuf := service.answer(head, body);
      outWritten := 0;
      if service.wantsEvents(head) {
        state := StreamingSse;
      } else {
        state := WritingResponse;
      }
    }

    /** Polled for input only while reading a request or streaming events. */
    method HandleRead(chunk: seq<byte>)
      requires state == ReadingRequest || state == StreamingSse
      modifies this
      ensures Snapshot() == Read(service, old(Snapshot()), chunk)
    {
      hide FindTerminator, Process;
      if chunk == [] {
        state := Closed;
        return;
      }
      if state == StreamingSse {
        state := Closed;
        return;
      }
      inBuf := inBuf + chunk;
      if !headersComplete {
        var headerEnd := FindTerminator(inBuf);
        if headerEnd == |inBuf| {
          if |inBuf| > LIMIT {
            state := Closed;
          }
          return;
        }
        if headerEnd == 0 {
          state := Closed;
          return;
        }
        head := inBuf[..headerEnd];
        headersComplete := true;
        expectedContentLength := service.contentLength(head);
        inBuf := inBuf[headerEnd + 4..];
      }
      if |inBuf| >= expectedContentLength {
        body := inBuf[..expectedContentLength];
        inBuf := inBuf[expectedContentLength..];
        ProcessRequest();
      }
    }
  }
}
