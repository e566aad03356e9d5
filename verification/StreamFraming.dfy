/** The framed byte stream between fmesh-cli peers and to TCP or serial radios.

    A frame is `0x94 marker len_hi len_lo payload`.  The reader is an incremental,
    resynchronising parser: it keeps a buffer, one of five states, and the two header
    fields, and it looks at the buffer only while at least four bytes are in it. */
module StreamFraming {
  import opened Bytes

  const START1: byte := 0x94
  const MAX_BUF := 65536
  const MAX_PAYLOAD := 65000

  predicate IsMarker(b: byte) {
    b == 0xC3 || b == 0xD0 || b == 0xD1
  }

  datatype Frame = Frame(marker: byte, payload: seq<byte>)

  // ---------------------------------------------------------------- sending

  /** The bytes of one frame; an oversized payload is not sent at all. */
  function FrameBytes(payload: seq<byte>, marker: byte): seq<byte> {
    if |payload| > MAX_PAYLOAD then []
    else [START1, marker, |payload| / 256, |payload| % 256] + payload
  }

  method EncodeFrame(payload: seq<byte>, marker: byte) returns (out: seq<byte>)
    ensures out == FrameBytes(payload, marker)
    ensures out == [] <==> |payload| > 65000
    ensures out != [] ==>
              && |out| == 4 + |payload| && out[0] == 0x94 && out[1] == marker
              && out[2] == |payload| / 256 && out[3] == |payload| % 256 && out[4..] == payload
  {
    if |payload| > MAX_PAYLOAD {
      return [];
    }
    out := [START1];
    out := out + [marker];
    out := out + [(|payload| / 256) % 256];
    out := out + [|payload| % 256];
    out := out + payload;
  }

  /** The two length bytes, high byte first. */
  function U16(hi: byte, lo: byte): (n: nat)
    ensures n < 65536
  {
    hi as int * 256 + lo as int
  }

  // ------------------------------------------------------- reference parser

  /** The frames of a whole stream, read off in one pass with no parser state. */
  function Frames(s: seq<byte>): seq<Frame>
    decreases |s|
  {
    if |s| < 4 then []
    else if s[0] != START1 || !IsMarker(s[1]) then Frames(s[1..])
    else
      var n := U16(s[2], s[3]);
      if |s| < 4 + n then [] else [Frame(s[1], s[4..4 + n])] + Frames(s[4 + n..])
  }

  // ------------------------------------------------- the incremental parser

  datatype State = WaitStart1 | WaitStart2 | ReadLenHi | ReadLenLo | ReadPayload

  datatype Parser = Parser(state: State, payloadLen: nat, frameType: byte, buf: seq<byte>) {
    /** The header fields make sense in the current state. */
    predicate Coherent() {
      && payloadLen < 65536
      && (state.WaitStart2? ==> buf != [] && buf[0] == START1)
      && (state.ReadLenHi? || state.ReadLenLo? || state.ReadPayload? ==> IsMarker(frameType))
      && (state.ReadLenLo? ==> payloadLen % 256 == 0)
    }

    /** The bytes received but not yet delivered: the consumed part of the header, then the buffer. */
    function Residue(): seq<byte>
      requires Coherent()
    {
      match state
      case WaitStart1 => buf
      case WaitStart2 => buf
      case ReadLenHi => [START1, frameType] + buf
      case ReadLenLo => [START1, frameType, payloadLen / 256] + buf
      case ReadPayload => [START1, frameType, payloadLen / 256, payloadLen % 256] + buf
    }

    /** What holds between two reads: nothing more can be done with the buffer. */
    predicate Settled() {
      && Coherent()
      && (|buf| < 4 || (state.ReadPayload? && |buf| < payloadLen))
    }

    /** A complete frame is in the residue, but fewer than four bytes are buffered. */
    predicate Stalled() {
      match state
      case ReadPayload => payloadLen <= |buf| < 4
      case ReadLenLo => 1 <= |buf| < 4 && payloadLen + buf[0] as int <= |buf| - 1
      case ReadLenHi => 2 <= |buf| < 4 && U16(buf[0], buf[1]) <= |buf| - 2
      case _ => false
    }
  }

  const FRESH := Parser(WaitStart1, 0, 0xC3, [])

  /** Position of the first START1, or the length when there is none. */
  function FindStart(s: seq<byte>): (pos: nat)
    ensures pos <= |s|
    ensures forall i :: 0 <= i < pos ==> s[i] != START1
    ensures pos < |s| ==> s[pos] == START1
  {
    if s == [] || s[0] == START1 then 0 else 1 + FindStart(s[1..])
  }

  /** How one turn of the inner loop ends: go round again, or leave the loop. */
  datatype Turn = Again(p: Parser, out: seq<Frame>) | Leave(p: Parser)

  /** One turn of the inner loop; within a turn the states fall through. */
  function OneTurn(p: Parser): Turn
    requires p.Coherent() && |p.buf| >= 4
  {
    if p.state.WaitStart1? then
      var pos := FindStart(p.buf);
      if pos == |p.buf| then
        Leave(p.(buf := if |p.buf| <= MAX_BUF then p.buf[|p.buf| - 1..] else []))
      else
        FromStart2(p.(state := WaitStart2, buf := p.buf[pos..]))
    else
      FromStart2(p)
  }

  function FromStart2(p: Parser): Turn
    requires p.Coherent() && !p.state.WaitStart1?
  {
    if p.state.WaitStart2? && |p.buf| >= 2 then
      if IsMarker(p.buf[1]) then
        FromLenHi(p.(state := ReadLenHi, frameType := p.buf[1], buf := p.buf[2..]))
      else
        Again(p.(state := WaitStart1, buf := p.buf[1..]), [])
    else
      FromLenHi(p)
  }

  function FromLenHi(p: Parser): Turn
    requires p.Coherent() && !p.state.WaitStart1?
  {
    if p.state.ReadLenHi? && |p.buf| >= 1 then
      FromLenLo(p.(state := ReadLenLo, payloadLen := U16(p.buf[0], 0), buf := p.buf[1..]))
    else
      FromLenLo(p)
  }

  function FromLenLo(p: Parser): Turn
    requires p.Coherent() && !p.state.WaitStart1?
  {
    if p.state.ReadLenLo? && |p.buf| >= 1 then
      FromPayload(p.(state := ReadPayload, payloadLen := p.payloadLen + p.buf[0] as int, buf := p.buf[1..]))
    else
      FromPayload(p)
  }

  function FromPayload(p: Parser): Turn
    requires p.Coherent() && !p.state.WaitStart1?
  {
    if p.state.ReadPayload? && |p.buf| >= p.payloadLen then
      Again(p.(state := WaitStart1, buf := p.buf[p.payloadLen..]),
            [Frame(p.frameType, p.buf[..p.payloadLen])])
    else if p.state.ReadPayload? then Leave(p)
    else Again(p, [])
  }

  /** Bytes a parser still holds, with a bonus for a payload about to be delivered:
      every turn that goes round again makes this smaller. */
  function Fuel(p: Parser): nat {
    2 * |p.buf| + if p.state.ReadPayload? then 1 else 0
  }

  /** What a turn owes: a coherent parser, progress or nothing left to do, and the meaning
      of the bytes.  The frames of the residue before are the frames put out, then the
      frames of the residue after, whatever bytes follow. */
  ghost predicate TurnOk(p: Parser, turn: Turn, t: seq<byte>)
    requires p.Coherent()
  {
    && turn.p.Coherent()
    && (turn.Leave? ==> turn.p.Settled())
    && Frames(p.Residue() + t) == (if turn.Again? then turn.out else []) + Frames(turn.p.Residue() + t)
  }

  lemma PayloadTurn(p: Parser, t: seq<byte>)
    requires p.Coherent() && !p.state.WaitStart1? && (p.state.ReadPayload? || |p.buf| < 4)
    ensures TurnOk(p, FromPayload(p), t)
    ensures FromPayload(p).Again? && p.state.ReadPayload? ==> Fuel(FromPayload(p).p) < Fuel(p)
    ensures FromPayload(p).Again? ==> Fuel(FromPayload(p).p) <= Fuel(p)
  {
    if p.state.ReadPayload? && |p.buf| >= p.payloadLen {
      var s := p.Residue() + t;
      assert s[4..4 + p.payloadLen] == p.buf[..p.payloadLen];
      assert s[4 + p.payloadLen..] == p.buf[p.payloadLen..] + t;
      assert U16(s[2], s[3]) == p.payloadLen;
    } else {
      assert [] + Frames(p.Residue() + t) == Frames(p.Residue() + t);
    }
  }

  lemma LenLoTurn(p: Parser, t: seq<byte>)
    requires p.Coherent() && !p.state.WaitStart1?
    requires p.state.ReadLenLo? || p.state.ReadPayload? || |p.buf| < 4
    ensures TurnOk(p, FromLenLo(p), t)
    ensures FromLenLo(p).Again? ==> Fuel(FromLenLo(p).p) < Fuel(p) || (FromLenLo(p).p == p && |p.buf| < 4)
  {
    if p.state.ReadLenLo? && |p.buf| >= 1 {
      var q := p.(state := ReadPayload, payloadLen := p.payloadLen + p.buf[0] as int, buf := p.buf[1..]);
      assert q.Residue() == p.Residue();
      PayloadTurn(q, t);
    } else {
      PayloadTurn(p, t);
    }
  }

  lemma LenHiTurn(p: Parser, t: seq<byte>)
    requires p.Coherent() && !p.state.WaitStart1?
    requires !p.state.WaitStart2? || |p.buf| < 4
    ensures TurnOk(p, FromLenHi(p), t)
    ensures FromLenHi(p).Again? ==> Fuel(FromLenHi(p).p) < Fuel(p) || (FromLenHi(p).p == p && |p.buf| < 4)
  {
    if p.state.ReadLenHi? && |p.buf| >= 1 {
      var q := p.(state := ReadLenLo, payloadLen := U16(p.buf[0], 0), buf := p.buf[1..]);
      assert q.Residue() == p.Residue();
      LenLoTurn(q, t);
    } else {
      LenLoTurn(p, t);
    }
  }

  lemma Start2Turn(p: Parser, t: seq<byte>)
    requires p.Coherent() && !p.state.WaitStart1?
    ensures TurnOk(p, FromStart2(p), t)
    ensures FromStart2(p).Again? ==> Fuel(FromStart2(p).p) < Fuel(p) || (FromStart2(p).p == p && |p.buf| < 4)
  {
    if p.state.WaitStart2? && |p.buf| >= 2 {
      if IsMarker(p.buf[1]) {
        var q := p.(state := ReadLenHi, frameType := p.buf[1], buf := p.buf[2..]);
        assert q.Residue() == p.Residue();
        LenHiTurn(q, t);
      } else {
        assert (p.buf + t)[1..] == p.buf[1..] + t;
      }
    } else {
      LenHiTurn(p, t);
    }
  }

  /** Bytes before the first START1 never contribute to a frame. */
  lemma {:induction false} SkipGarbage(s: seq<byte>, k: nat, t: seq<byte>)
    requires k <= |s|
    requires forall i :: 0 <= i < k ==> s[i] != START1
    ensures Frames(s + t) == Frames(s[k..] + t)
  {
    if k > 0 {
      SkipGarbage(s[1..], k - 1, t);
      assert (s + t)[1..] == s[1..] + t;
      assert s[1..][k - 1..] == s[k..];
    } else {
      assert s[0..] == s;
    }
  }

  lemma TurnSound(p: Parser, t: seq<byte>)
    requires p.Coherent() && |p.buf| >= 4
    ensures TurnOk(p, OneTurn(p), t)
    ensures OneTurn(p).Again? ==> Fuel(OneTurn(p).p) < Fuel(p)
  {
    if p.state.WaitStart1? {
      var pos := FindStart(p.buf);
      if pos == |p.buf| {
        var q := OneTurn(p).p;
        SkipGarbage(p.buf, |p.buf| - |q.buf|, t);
        assert q.buf == p.buf[|p.buf| - |q.buf|..];
      } else {
        SkipGarbage(p.buf, pos, t);
        Start2Turn(p.(state := WaitStart2, buf := p.buf[pos..]), t);
      }
    } else {
      Start2Turn(p, t);
    }
  }

  /** The inner loop: turns until fewer than four bytes are left or a turn leaves the loop. */
  function Drain(p: Parser): (r: (Parser, seq<Frame>))
    requires p.Coherent()
    ensures r.0.Settled()
    decreases Fuel(p)
  {
    if |p.buf| < 4 then (p, [])
    else
      TurnSound(p, []);
      match OneTurn(p)
      case Leave(q) => (q, [])
      case Again(q, out) => var (r, more) := Drain(q); (r, out + more)
  }

  lemma ConcatTwo<T>(a: seq<T>, b: seq<T>, c: seq<T>)
    ensures (a + b) + c == a + (b + c)
  {
  }

  lemma DrainUnfolds(p: Parser)
    requires p.Coherent() && |p.buf| >= 4
    ensures OneTurn(p).p.Coherent()
    ensures OneTurn(p).Leave? ==> OneTurn(p).p.Settled() && Drain(p) == (OneTurn(p).p, [])
    ensures OneTurn(p).Again? ==> Fuel(OneTurn(p).p) < Fuel(p)
    ensures OneTurn(p).Again? ==> Drain(p).0 == Drain(OneTurn(p).p).0
    ensures OneTurn(p).Again? ==> Drain(p).1 == OneTurn(p).out + Drain(OneTurn(p).p).1
  {
    TurnSound(p, []);
  }

  lemma {:induction false} DrainSound(p: Parser, t: seq<byte>)
    requires p.Coherent()
    ensures Frames(p.Residue() + t) == Drain(p).1 + Frames(Drain(p).0.Residue() + t)
    decreases Fuel(p)
  {
    if |p.buf| >= 4 {
      TurnSound(p, t);
      DrainUnfolds(p);
      if OneTurn(p).Again? {
        var q := OneTurn(p).p;
        DrainSound(q, t);
        ConcatTwo(OneTurn(p).out, Drain(q).1, Frames(Drain(q).0.Residue() + t));
      }
    }
  }

  /** One read: append the bytes, then drain. */
  function Feed(p: Parser, chunk: seq<byte>): (r: (Parser, seq<Frame>))
    requires p.Coherent()
    ensures r.0.Settled()
  {
    Drain(p.(buf := p.buf + chunk))
  }

  /** A whole run: one read after another from a parser state. */
  function FeedAll(p: Parser, chunks: seq<seq<byte>>): (r: (Parser, seq<Frame>))
    requires p.Settled()
    ensures r.0.Settled()
    decreases |chunks|
  {
    if chunks == [] then (p, [])
    else
      var (q, out) := Feed(p, chunks[0]);
      var (r, more) := FeedAll(q, chunks[1..]);
      (r, out + more)
  }

  lemma FeedSound(p: Parser, chunk: seq<byte>, t: seq<byte>)
    requires p.Coherent()
    ensures Frames(p.Residue() + (chunk + t)) == Feed(p, chunk).1 + Frames(Feed(p, chunk).0.Residue() + t)
  {
    var fed := p.(buf := p.buf + chunk);
    assert p.Residue() + (chunk + t) == fed.Residue() + t;
    DrainSound(fed, t);
  }

  lemma {:induction false} FeedAllSound(p: Parser, chunks: seq<seq<byte>>, t: seq<byte>)
    requires p.Settled()
    ensures Frames(p.Residue() + (Concat(chunks) + t))
         == FeedAll(p, chunks).1 + Frames(FeedAll(p, chunks).0.Residue() + t)
    decreases |chunks|
  {
    if chunks == [] {
      assert Concat(chunks) + t == t;
    } else {
      var rest := Concat(chunks[1..]);
      assert Concat(chunks) + t == chunks[0] + (rest + t);
      FeedSound(p, chunks[0], rest + t);
      FeedAllSound(Feed(p, chunks[0]).0, chunks[1..], t);
    }
  }

  /** Between two reads the residue holds a complete frame exactly when the parser is
      stalled, and then it holds just one, with a payload of at most three bytes. */
  lemma PendingFrames(p: Parser)
    requires p.Settled()
    ensures p.Stalled() <==> Frames(p.Residue()) != []
    ensures p.Stalled() ==> |Frames(p.Residue())| == 1 && |Frames(p.Residue())[0].payload| <= 3
  {
    var s := p.Residue();
    if |s| >= 4 && s[0] == START1 && IsMarker(s[1]) && 4 + U16(s[2], s[3]) <= |s| {
      assert |s[4 + U16(s[2], s[3])..]| < 4;
    }
  }

  /** Chunk independence: for every way of cutting a stream into reads, the frames delivered
      are those of the whole stream, except for at most one complete frame of at most three
      payload bytes that is still held back at the end. */
  lemma ChunkIndependence(chunks: seq<seq<byte>>)
    ensures var (p, out) := FeedAll(FRESH, chunks);
            && Frames(Concat(chunks)) == out + Frames(p.Residue())
            && |Frames(p.Residue())| <= 1
            && (forall f :: f in Frames(p.Residue()) ==> |f.payload| <= 3)
            && (out == Frames(Concat(chunks)) <==> !p.Stalled())
  {
    var (p, out) := FeedAll(FRESH, chunks);
    FeedAllSound(FRESH, chunks, []);
    assert FRESH.Residue() + (Concat(chunks) + []) == Concat(chunks);
    assert p.Residue() + [] == p.Residue();
    PendingFrames(p);
  }

  /** The guard on four buffered bytes does hold a complete frame back: a three-byte payload
      that arrives after its header is not delivered until more bytes come. */
  lemma GuardDelaysShortFrame()
    ensures var header, body, next := [START1, 0xC3, 0, 3], [1, 2, 3], [0];
            && Frames(Concat([header, body])) == [Frame(0xC3, body)]
            && FeedAll(FRESH, [header, body]).1 == []
            && FeedAll(FRESH, [header, body, next]).1 == [Frame(0xC3, body)]
  {
    var header: seq<byte>, body: seq<byte>, next: seq<byte> := [START1, 0xC3, 0, 3], [1, 2, 3], [0];
    StallSteps(header, body, next);
    var waiting, held := Parser(ReadPayload, 3, 0xC3, []), Parser(ReadPayload, 3, 0xC3, body);
    hide Feed, Frames, Concat;
    ShortFrame(header, body);
    FeedAllCons(held, next, []);
    FeedAllCons(waiting, body, []);
    FeedAllCons(waiting, body, [next]);
    FeedAllCons(FRESH, header, [body]);
    FeedAllCons(FRESH, header, [body, next]);
    assert [header] + [body] == [header, body] && [header] + [body, next] == [header, body, next];
    assert [body] + [] == [body] && [body] + [next] == [body, next] && [next] + [] == [next];
  }

  lemma ShortFrame(header: seq<byte>, body: seq<byte>)
    requires header == [START1, 0xC3, 0, 3] && body == [1, 2, 3]
    ensures Frames(Concat([header, body])) == [Frame(0xC3, body)]
  {
    assert [header, body][1..] == [body] && [body][1..] == [];
    assert Concat([body]) == body + Concat([]) == body;
    assert Concat([header, body]) == header + body;
    assert U16(0, 3) == 3 && (header + body)[4..7] == body;
  }

  lemma FeedAllNone(p: Parser)
    requires p.Settled()
    ensures FeedAll(p, []) == (p, [])
  {
  }

  lemma {:induction false} FeedAllSnoc(p: Parser, chunks: seq<seq<byte>>, last: seq<byte>)
    requires p.Settled()
    ensures var (q, out) := FeedAll(p, chunks);
            FeedAll(p, chunks + [last]) == (Feed(q, last).0, out + Feed(q, last).1)
    decreases |chunks|
  {
    hide Feed;
    if chunks == [] {
      assert chunks + [last] == [last] + [];
      FeedAllCons(p, last, []);
      assert [] + Feed(p, last).1 == Feed(p, last).1 + [];
    } else {
      var (q, out) := Feed(p, chunks[0]);
      FeedAllSnoc(q, chunks[1..], last);
      assert [chunks[0]] + chunks[1..] == chunks;
      FeedAllCons(p, chunks[0], chunks[1..]);
      FeedAllCons(p, chunks[0], chunks[1..] + [last]);
      assert [chunks[0]] + (chunks[1..] + [last]) == chunks + [last];
      var (r, more) := FeedAll(q, chunks[1..]);
      ConcatTwo(out, more, Feed(r, last).1);
    }
  }

  lemma FeedAllCons(p: Parser, chunk: seq<byte>, rest: seq<seq<byte>>)
    requires p.Settled()
    ensures FeedAll(p, [chunk] + rest)
         == (FeedAll(Feed(p, chunk).0, rest).0, Feed(p, chunk).1 + FeedAll(Feed(p, chunk).0, rest).1)
  {
    assert ([chunk] + rest)[1..] == rest;
  }

  lemma StallSteps(header: seq<byte>, body: seq<byte>, next: seq<byte>)
    requires header == [START1, 0xC3, 0, 3] && body == [1, 2, 3] && next == [0]
    ensures var waiting := Parser(ReadPayload, 3, 0xC3, []);
            && Feed(FRESH, header) == (waiting, [])
            && Feed(waiting, body) == (waiting.(buf := body), [])
            && Feed(waiting.(buf := body), next) == (Parser(WaitStart1, 3, 0xC3, next), [Frame(0xC3, body)])
  {
    HeaderRead(header);
    assert [] + body == body;
    assert Feed(Parser(ReadPayload, 3, 0xC3, body), next)
        == (Parser(WaitStart1, 3, 0xC3, next), [Frame(0xC3, body)]) by {
      PayloadRead(body, next);
    }
  }

  lemma HeaderRead(header: seq<byte>)
    requires header == [START1, 0xC3, 0, 3]
    ensures Feed(FRESH, header) == (Parser(ReadPayload, 3, 0xC3, []), [])
  {
    assert [] + header == header && U16(0, 0) + 3 == 3;
    assert Drain(FRESH.(buf := header)) == (Parser(ReadPayload, 3, 0xC3, []), []);
  }

  lemma PayloadRead(body: seq<byte>, next: seq<byte>)
    requires |body| == 3 && |next| == 1
    ensures Feed(Parser(ReadPayload, 3, 0xC3, body), next)
         == (Parser(WaitStart1, 3, 0xC3, next), [Frame(0xC3, body)])
  {
    var full, last := Parser(ReadPayload, 3, 0xC3, body + next), Parser(WaitStart1, 3, 0xC3, next);
    assert full.buf[3..] == next && full.buf[..3] == body;
    assert OneTurn(full) == Again(last, [Frame(0xC3, body)]);
    assert Drain(last) == (last, []);
    assert [Frame(0xC3, body)] + [] == [Frame(0xC3, body)];
  }

  // ------------------------------------------------------------ buffer bound

  /** The inner loop reaches the branch that throws an oversized buffer away. */
  predicate Overflows(p: Parser)
    requires p.Coherent()
    decreases Fuel(p)
  {
    && |p.buf| >= 4
    && (TurnSound(p, []);
        match OneTurn(p)
        case Leave(q) => p.state.WaitStart1? && |p.buf| > MAX_BUF
        case Again(q, out) => Overflows(q))
  }

  /** While a payload is awaited the buffer may hold it on top of `n` bytes. */
  predicate Roomy(p: Parser, n: nat) {
    |p.buf| <= n + if p.state.ReadPayload? then p.payloadLen else 0
  }

  lemma {:induction false} RoomyNeverOverflows(p: Parser, n: nat)
    requires p.Coherent() && Roomy(p, n) && n <= MAX_BUF
    ensures !Overflows(p)
    decreases Fuel(p)
  {
    if |p.buf| >= 4 {
      TurnSound(p, []);
      match OneTurn(p) {
        case Leave(q) =>
        case Again(q, out) => RoomyNeverOverflows(q, n);
      }
    }
  }

  /** No run of reads of at most 65533 bytes overflows the buffer; the client reads at most
      1024 bytes at a time and the server at most 4096. */
  lemma {:induction false} NoRunOverflows(p: Parser, chunks: seq<seq<byte>>, i: nat)
    requires p.Settled()
    requires i < |chunks|
    requires forall c :: c in chunks ==> |c| <= 65533
    ensures var q := FeedAll(p, chunks[..i]).0;
            !Overflows(q.(buf := q.buf + chunks[i]))
    decreases i
  {
    if i == 0 {
      RoomyNeverOverflows(p.(buf := p.buf + chunks[0]), MAX_BUF);
    } else {
      var q := Feed(p, chunks[0]).0;
      assert chunks[..i][1..] == chunks[1..][..i - 1];
      NoRunOverflows(q, chunks[1..], i - 1);
    }
  }

  // ------------------------------------------------ round trip through noise

  /** One thing put on the wire: some noise, then a framed payload. */
  datatype Sending = Sending(noise: seq<byte>, frame: Frame)

  function Wire(sent: seq<Sending>): seq<byte> {
    if sent == [] then []
    else sent[0].noise + FrameBytes(sent[0].frame.payload, sent[0].frame.marker) + Wire(sent[1..])
  }

  function Payloads(sent: seq<Sending>): seq<Frame> {
    if sent == [] then [] else [sent[0].frame] + Payloads(sent[1..])
  }

  /** No START1 is immediately followed by a marker. */
  predicate Harmless(noise: seq<byte>) {
    forall i :: 0 <= i < |noise| - 1 && noise[i] == START1 ==> !IsMarker(noise[i + 1])
  }

  predicate Sendable(s: Sending) {
    Harmless(s.noise) && |s.frame.payload| <= MAX_PAYLOAD && IsMarker(s.frame.marker)
  }

  lemma {:induction false} SkipHarmless(noise: seq<byte>, rest: seq<byte>)
    requires Harmless(noise)
    requires rest == [] || rest[0] == START1
    ensures Frames(noise + rest) == Frames(rest)
  {
    if noise == [] {
      assert noise + rest == rest;
    } else {
      var s := noise + rest;
      assert s[1..] == noise[1..] + rest;
      assert |s| >= 2 ==> s[1] == if |noise| >= 2 then noise[1] else rest[0];
      assert Harmless(noise[1..]) by {
        forall i | 0 <= i < |noise[1..]| - 1 && noise[1..][i] == START1
          ensures !IsMarker(noise[1..][i + 1])
        {
          assert noise[i + 1] == START1;
        }
      }
      SkipHarmless(noise[1..], rest);
    }
  }

  lemma {:induction false} WireRoundTrip(sent: seq<Sending>, tail: seq<byte>)
    requires forall s :: s in sent ==> Sendable(s)
    requires Harmless(tail)
    ensures Frames(Wire(sent) + tail) == Payloads(sent)
    ensures sent != [] && sent[0].noise == [] ==> Wire(sent) != [] && Wire(sent)[0] == START1
  {
    if sent == [] {
      SkipHarmless(tail, []);
      assert Wire(sent) + tail == tail && tail + [] == tail;
    } else {
      var Sending(noise, Frame(m, payload)) := sent[0];
      assert Sendable(sent[0]);
      var framed := FrameBytes(payload, m);
      var rest := framed + (Wire(sent[1..]) + tail);
      assert Wire(sent) + tail == noise + rest;
      SkipHarmless(noise, rest);
      hide Harmless, Wire;
      assert U16(rest[2], rest[3]) == |payload|;
      assert rest[4..4 + |payload|] == payload;
      assert rest[4 + |payload|..] == Wire(sent[1..]) + tail;
      WireRoundTrip(sent[1..], tail);
    }
  }

  lemma {:induction false} FrameMarkers(s: seq<byte>, i: nat)
    requires i < |Frames(s)|
    ensures Frames(s)[i].marker in {0xC3, 0xD0, 0xD1} && |Frames(s)[i].payload| + 4 <= |s|
    decreases |s|
  {
    if |s| >= 4 {
      if s[0] != START1 || !IsMarker(s[1]) {
        FrameMarkers(s[1..], i);
      } else if i > 0 {
        FrameMarkers(s[4 + U16(s[2], s[3])..], i - 1);
      }
    }
  }

  /** Frames with the three markers are read back, and no others. */
  lemma MarkersExactly(payload: seq<byte>, m: byte)
    requires |payload| <= 65000
    ensures Frame(m, payload) in Frames(FrameBytes(payload, m)) <==> m == 0xC3 || m == 0xD0 || m == 0xD1
  {
    var framed := FrameBytes(payload, m);
    if m in {0xC3, 0xD0, 0xD1} {
      var sent := [Sending([], Frame(m, payload))];
      assert Wire(sent) + [] == framed && sent[1..] == [];
      assert Payloads(sent) == [sent[0].frame];
      WireRoundTrip(sent, []);
    } else if Frame(m, payload) in Frames(framed) {
      var i :| 0 <= i < |Frames(framed)| && Frames(framed)[i] == Frame(m, payload);
      FrameMarkers(framed, i);
    }
  }

  /** Framing round trip: framed payloads interleaved with harmless noise are recovered
      exactly and in order under any chunking of the wire; what may still be undelivered
      after the last read is the last payload alone, when it has at most three bytes. */
  lemma RoundTripUnderChunking(sent: seq<Sending>, tail: seq<byte>, chunks: seq<seq<byte>>)
    requires forall s :: s in sent ==> Sendable(s)
    requires Harmless(tail)
    requires Concat(chunks) == Wire(sent) + tail
    ensures var out := FeedAll(FRESH, chunks).1;
            || out == Payloads(sent)
            || (&& sent != []
                && |Payloads(sent)| == |sent|
                && out == Payloads(sent)[..|sent| - 1]
                && |Payloads(sent)[|sent| - 1].payload| <= 3)
  {
    hide FeedAll, Frames, Wire, Payloads, Concat, Harmless, Sendable;
    WireRoundTrip(sent, tail);
    ChunkIndependence(chunks);
    PayloadsLength(sent);
    var (p, out) := FeedAll(FRESH, chunks);
    var held := Frames(p.Residue());
    if held != [] {
      assert held == [held[0]] && held[0] in held;
      assert Payloads(sent) == out + [held[0]];
    }
  }

  lemma {:induction false} PayloadsLength(sent: seq<Sending>)
    ensures |Payloads(sent)| == |sent|
  {
    if sent != [] {
      PayloadsLength(sent[1..]);
    }
  }

  /** The condition on noise is needed: a START1 and a marker in it swallow a real frame. */
  lemma NoiseCanSwallowFrame()
    ensures var noise: seq<byte> := [START1, 0xC3, 0xFF, 0xFF];
            Frames(noise + FrameBytes([7], 0xD0)) == []
  {
  }

  function Starts(n: nat): (s: seq<byte>)
    ensures |s| == n && forall i :: 0 <= i < n ==> s[i] == START1
  {
    seq(n, i => START1)
  }

  lemma {:induction false} NoFrameInStarts(n: nat)
    ensures Frames(Starts(n)) == []
  {
    if n >= 4 {
      NoFrameInStarts(n - 1);
      assert Starts(n)[1..] == Starts(n - 1);
    }
  }

  /** Noise that is not harmless takes enough of what follows it for a frame. */
  lemma {:induction false} HarmfulSwallows(noise: seq<byte>)
    requires !Harmless(noise)
    ensures Frames(noise + Starts(65540)) != []
  {
    var s := noise + Starts(65540);
    if noise[0] == START1 && IsMarker(noise[1]) {
      assert s[0] == START1 && s[1] == noise[1];
    } else {
      assert s[0] == noise[0] && s[1] == noise[1];
      assert s[1..] == noise[1..] + Starts(65540);
      assert !Harmless(noise[1..]) by {
        var i :| 0 <= i < |noise| - 1 && noise[i] == START1 && IsMarker(noise[i + 1]);
        assert noise[1..][i - 1] == START1 && IsMarker(noise[1..][i]);
      }
      HarmfulSwallows(noise[1..]);
    }
  }

  /** Noise leaves every frame after it intact exactly when no START1 in it is immediately
      followed by a marker. */
  lemma HarmlessExactly(noise: seq<byte>)
    ensures (forall rest :: rest == [] || rest[0] == START1 ==> Frames(noise + rest) == Frames(rest))
            <==> Harmless(noise)
  {
    if Harmless(noise) {
      forall rest | rest == [] || rest[0] == START1 ensures Frames(noise + rest) == Frames(rest) {
        SkipHarmless(noise, rest);
      }
    } else {
      HarmfulSwallows(noise);
      NoFrameInStarts(65540);
      assert Frames(noise + Starts(65540)) != Frames(Starts(65540));
    }
  }

  // ------------------------------------------------------- the reader object

  class StreamReader {
    var buf: seq<byte>
    var state: State
    var payloadLen: nat
    var frameType: byte
    var emitted: seq<Frame>

    function Snapshot(): Parser
      reads this
    {
      Parser(state, payloadLen, frameType, buf)
    }

    ghost predicate Valid()
      reads this
    {
      Snapshot().Settled()
    }

    constructor ()
      ensures Valid() && Snapshot() == FRESH && emitted == []
    {
      buf, state, payloadLen, frameType, emitted := [], WaitStart1, 0, 0xC3, [];
    }

    /** Skip to the first START1; `leave` when there is none in the buffer. */
    method Resync() returns (leave: bool, discarded: bool)
      requires Snapshot().Coherent() && |buf| >= 4
      modifies this
      ensures Snapshot().Coherent() && emitted == old(emitted)
      ensures leave ==> OneTurn(old(Snapshot())) == Leave(Snapshot())
      ensures !leave ==> state != WaitStart1 && OneTurn(old(Snapshot())) == FromStart2(Snapshot())
      ensures leave <==> old(state) == WaitStart1 && 0x94 !in old(buf)
      ensures leave ==> state == WaitStart1 && buf == if |old(buf)| <= 65536 then [old(buf)[|old(buf)| - 1]] else []
      ensures discarded ==> leave && |old(buf)| > MAX_BUF && old(state) == WaitStart1
    {
      leave, discarded := false, false;
      if state == WaitStart1 {
        var pos := FindStart(buf);
        if pos == |buf| {
          leave := true;
          if |buf| <= MAX_BUF {
            buf := buf[|buf| - 1..];
          } else {
            discarded := true;
            buf := [];
            state := WaitStart1;
          }
        } else {
          buf := buf[pos..];
          state := WaitStart2;
        }
      }
    }

    /** Check the second start byte; `retry` when it is not a marker. */
    method TakeStart2() returns (retry: bool)
      requires Snapshot().Coherent() && state != WaitStart1
      modifies this
      ensures Snapshot().Coherent() && emitted == old(emitted)
      ensures retry ==> FromStart2(old(Snapshot())) == Again(Snapshot(), [])
      ensures !retry ==> state != WaitStart1 && FromStart2(old(Snapshot())) == FromLenHi(Snapshot())
    {
      retry := false;
      if state == WaitStart2 && |buf| >= 2 {
        var s2 := buf[1];
        if !IsMarker(s2) {
          buf := buf[1..];
          state := WaitStart1;
          retry := true;
        } else {
          frameType := s2;
          buf := buf[2..];
          state := ReadLenHi;
        }
      }
    }

    /** Collect whichever of the two length bytes are still missing and already here. */
    method TakeLength()
      requires Snapshot().Coherent() && state != WaitStart1
      modifies this
      ensures Snapshot().Coherent() && emitted == old(emitted) && state != WaitStart1
      ensures FromLenHi(old(Snapshot())) == FromPayload(Snapshot())
    {
      if state == ReadLenHi && |buf| >= 1 {
        payloadLen := U16(buf[0], 0);
        buf := buf[1..];
        state := ReadLenLo;
      }
      assert FromLenHi(old(Snapshot())) == FromLenLo(Snapshot());
      if state == ReadLenLo && |buf| >= 1 {
        payloadLen := payloadLen + buf[0] as int;
        buf := buf[1..];
        state := ReadPayload;
      }
    }

    /** Deliver the payload when all of it is here; otherwise leave the loop if it is awaited. */
    method TakePayload() returns (again: bool, ghost more: seq<Frame>)
      requires Snapshot().Coherent() && state != WaitStart1
      modifies this
      ensures FromPayload(old(Snapshot())) == if again then Again(Snapshot(), more) else Leave(Snapshot())
      ensures emitted == old(emitted) + more
      ensures !again ==> more == []
    {
      again, more := true, [];
      if state == ReadPayload && |buf| >= payloadLen {
        var payload := buf[..payloadLen];
        buf := buf[payloadLen..];
        state := WaitStart1;
        more := [Frame(frameType, payload)];
        emitted := emitted + [Frame(frameType, payload)];
      } else if state == ReadPayload {
        again := false;
      }
    }

    /** The body of the inner loop: one pass through the states. */
    method ParseTurn() returns (again: bool, discarded: bool, ghost more: seq<Frame>)
      requires Snapshot().Coherent() && |buf| >= 4
      modifies this
      ensures OneTurn(old(Snapshot())) == if again then Again(Snapshot(), more) else Leave(Snapshot())
      ensures emitted == old(emitted) + more
      ensures !again ==> more == []
      ensures discarded ==> old(state) == WaitStart1 && |old(buf)| > MAX_BUF && !again
    {
      var leave;
      leave, discarded := Resync();
      more := [];
      if leave {
        return false, discarded, more;
      }
      var retry := TakeStart2();
      if retry {
        return true, discarded, more;
      }
      TakeLength();
      again, more := TakePayload();
    }

    /** The inner loop. */
    method ParseBuffer(ghost room: nat) returns (discarded: bool)
      requires Snapshot().Coherent() && Roomy(Snapshot(), room)
      modifies this
      ensures Snapshot() == Drain(old(Snapshot())).0
      ensures emitted == old(emitted) + Drain(old(Snapshot())).1
      ensures room <= MAX_BUF ==> !discarded
    {
      hide Drain, OneTurn;
      discarded := false;
      ghost var fed, out := Snapshot(), [];
      ghost var cur := fed;
      assert Partway(fed, cur, out) by {
        assert out + Drain(fed).1 == Drain(fed).1;
      }
      var again := true;
      while again && |buf| >= 4
        invariant cur == Snapshot() && emitted == old(emitted) + out
        invariant Partway(fed, cur, out) && Roomy(cur, room)
        invariant !again ==> cur.Settled()
        invariant room <= MAX_BUF ==> !discarded
        decreases again, Fuel(cur)
      {
        ghost var more: seq<Frame>;
        again, discarded, more := ParseTurn();
        PartwayStep(fed, cur, out, Snapshot(), more, room);
        cur, out := Snapshot(), out + more;
      }
      PartwayDone(fed, cur, out);
    }

    /** One read: append it, then run the inner loop. */
    method Receive(chunk: seq<byte>) returns (discarded: bool)
      requires Valid()
      modifies this
      ensures Valid()
      ensures Snapshot() == Feed(old(Snapshot()), chunk).0
      ensures emitted == old(emitted) + Feed(old(Snapshot()), chunk).1
      ensures |chunk| <= MAX_BUF - 3 ==> !discarded
    {
      buf := buf + chunk;
      discarded := ParseBuffer(|chunk| + 3);
    }

    /** The outer loop over a whole connection: one read after another. */
    method ReadLoop(chunks: seq<seq<byte>>) returns (discarded: bool)
      requires Valid()
      modifies this
      ensures Valid()
      ensures Snapshot() == FeedAll(old(Snapshot()), chunks).0
      ensures emitted == old(emitted) + FeedAll(old(Snapshot()), chunks).1
      ensures (forall c :: c in chunks ==> |c| <= 65533) ==> !discarded
    {
      hide Feed, FeedAll;
      discarded := false;
      ghost var begin, out := Snapshot(), [];
      FeedAllNone(begin);
      assert chunks[..0] == [];
      var i := 0;
      while i < |chunks|
        invariant 0 <= i <= |chunks| && Valid()
        invariant FeedAll(begin, chunks[..i]) == (Snapshot(), out) && emitted == old(emitted) + out
        invariant (forall c :: c in chunks ==> |c| <= MAX_BUF - 3) ==> !discarded
      {
        ghost var cur := Snapshot();
        var d := Receive(chunks[i]);
        discarded := discarded || d;
        FeedAllSnoc(begin, chunks[..i], chunks[i]);
        assert chunks[..i + 1] == chunks[..i] + [chunks[i]];
        out := out + Feed(cur, chunks[i]).1;
        i := i + 1;
      }
      assert chunks[..i] == chunks;
    }
  }

  /** Draining `fed` has come as far as `p` and has put out `out`. */
  ghost predicate Partway(fed: Parser, p: Parser, out: seq<Frame>) {
    fed.Coherent() && p.Coherent() && Drain(fed).0 == Drain(p).0 && Drain(fed).1 == out + Drain(p).1
  }

  lemma PartwayStep(fed: Parser, p: Parser, out: seq<Frame>, q: Parser, more: seq<Frame>, room: nat)
    requires Partway(fed, p, out) && |p.buf| >= 4 && Roomy(p, room)
    requires OneTurn(p) == Again(q, more) || (OneTurn(p) == Leave(q) && more == [])
    ensures q.Coherent() && Roomy(q, room)
    ensures OneTurn(p).Leave? ==> q.Settled()
    ensures OneTurn(p).Again? ==> Fuel(q) < Fuel(p)
    ensures Partway(fed, q, out + more)
    ensures p.state.WaitStart1? ==> |p.buf| <= room
  {
    hide OneTurn, Drain;
    DrainUnfolds(p);
    TurnRoomy(p, room);
    if OneTurn(p).Leave? {
      SettledDrains(q);
    } else {
      ConcatTwo(out, more, Drain(q).1);
    }
  }

  lemma PartwayDone(fed: Parser, p: Parser, out: seq<Frame>)
    requires Partway(fed, p, out) && p.Settled()
    ensures Drain(fed) == (p, out)
  {
    SettledDrains(p);
    assert out + [] == out;
  }

  lemma LenHiRoomy(p: Parser, room: nat)
    requires p.Coherent() && !p.state.WaitStart1? && Roomy(p, room)
    ensures Roomy(FromLenHi(p).p, room)
  {
  }

  lemma Start2Roomy(p: Parser, room: nat)
    requires p.Coherent() && !p.state.WaitStart1? && Roomy(p, room)
    ensures Roomy(FromStart2(p).p, room)
  {
    hide FromLenHi;
    if p.state.WaitStart2? && |p.buf| >= 2 && IsMarker(p.buf[1]) {
      LenHiRoomy(p.(state := ReadLenHi, frameType := p.buf[1], buf := p.buf[2..]), room);
    } else {
      LenHiRoomy(p, room);
    }
  }

  lemma TurnRoomy(p: Parser, room: nat)
    requires p.Coherent() && |p.buf| >= 4 && Roomy(p, room)
    ensures Roomy(OneTurn(p).p, room)
  {
    hide FromStart2;
    if p.state.WaitStart1? {
      var pos := FindStart(p.buf);
      if pos < |p.buf| {
        Start2Roomy(p.(state := WaitStart2, buf := p.buf[pos..]), room);
      }
    } else {
      Start2Roomy(p, room);
    }
  }

  lemma SettledDrains(p: Parser)
    requires p.Settled()
    ensures Drain(p) == (p, [])
  {
  }
}
