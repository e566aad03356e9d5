/** Exactly which streams can leave a frame undelivered.

    The parser looks at its buffer only while four bytes are in it, and what it consumed of a
    header does not count.  So the last frame of a stream is held back when fewer than four
    bytes follow its header; an empty one only when the parser got to the header over noise,
    which lets it consume a part of it. */
module StreamStalls {
  import opened Bytes
  import opened StreamFraming

  /** The last complete frame of a stream: its payload's size, how many bytes follow its
      header, and whether noise other than a START1 comes right before it. */
  datatype Tail = NoFrame | Last(size: nat, after: nat, noisy: bool)

  function Scan(s: seq<byte>, noisy: bool): Tail
    decreases |s|
  {
    if |s| < 4 then NoFrame
    else if s[0] != START1 || !IsMarker(s[1]) then Scan(s[1..], s[0] != START1)
    else
      var n := U16(s[2], s[3]);
      if |s| < 4 + n then NoFrame
      else
        var later := Scan(s[4 + n..], false);
        if later.NoFrame? then Last(n, |s| - 4, noisy) else later
  }

  /** Fewer than four bytes follow the last header; none of them need be a payload if noise
      comes before it and at most two follow. */
  predicate CanStall(t: Tail) {
    t.Last? && t.after < 4 && (t.size >= 1 || (t.noisy && t.after <= 2))
  }

  lemma {:induction false} ScanFrames(s: seq<byte>, noisy: bool)
    ensures Scan(s, noisy).NoFrame? <==> Frames(s) == []
    ensures Scan(s, noisy).Last? ==> Scan(s, noisy).size <= Scan(s, noisy).after && Scan(s, noisy).after + 4 <= |s|
    decreases |s|
  {
    if |s| >= 4 {
      if s[0] != START1 || !IsMarker(s[1]) {
        ScanFrames(s[1..], s[0] != START1);
      } else if |s| >= 4 + U16(s[2], s[3]) {
        ScanFrames(s[4 + U16(s[2], s[3])..], false);
      }
    }
  }

  /** Bytes without a START1 only count as noise. */
  lemma {:induction false} ScanGarbage(s: seq<byte>, k: nat, t: seq<byte>, noisy: bool)
    requires k <= |s| && forall i :: 0 <= i < k ==> s[i] != START1
    ensures Scan(s + t, noisy) == Scan(s[k..] + t, if k > 0 then true else noisy)
            || (Scan(s + t, noisy).NoFrame? && Scan(s[k..] + t, if k > 0 then true else noisy).NoFrame?)
  {
    if k == 0 {
      assert s[0..] == s;
    } else {
      assert (s + t)[1..] == s[1..] + t;
      assert s[1..][k - 1..] == s[k..];
      ScanGarbage(s[1..], k - 1, t, true);
    }
  }

  /** When the rest has a frame, its last one is the last of the whole. */
  ghost predicate ScansOn(s: seq<byte>, noisy: bool, r: seq<byte>, flag: bool, t: seq<byte>) {
    Scan(r + t, flag).NoFrame? || Scan(s + t, noisy) == Scan(r + t, flag)
  }

  /** Part of a header is consumed only after noise, and an awaited payload is not empty. */
  predicate Noted(p: Parser, noisy: bool) {
    && (p.state.ReadLenHi? || p.state.ReadLenLo? ==> noisy)
    && (p.state.ReadPayload? ==> p.payloadLen >= 1)
  }

  /** Whether noise comes right before what is left after a turn. */
  function NoiseAfter(p: Parser, noisy: bool): bool
    requires p.Coherent() && |p.buf| >= 4
  {
    var turn := OneTurn(p);
    if p.state.WaitStart1? && FindStart(p.buf) == |p.buf| then true
    else if turn.p.state.WaitStart1? then false
    else noisy || (p.state.WaitStart1? && FindStart(p.buf) > 0)
  }

  ghost predicate TurnScans(p: Parser, turn: Turn, noisy: bool, t: seq<byte>)
    requires p.Coherent()
  {
    && turn.p.Coherent()
    && ScansOn(p.Residue(), noisy, turn.p.Residue(), if turn.p.state.WaitStart1? then false else noisy, t)
  }

  lemma PayloadScans(p: Parser, noisy: bool, t: seq<byte>)
    requires p.Coherent() && !p.state.WaitStart1?
    ensures TurnScans(p, FromPayload(p), noisy, t)
  {
    if p.state.ReadPayload? && |p.buf| >= p.payloadLen {
      var s := p.Residue() + t;
      assert s[4 + p.payloadLen..] == p.buf[p.payloadLen..] + t;
      assert U16(s[2], s[3]) == p.payloadLen;
    }
  }

  lemma LenLoScans(p: Parser, noisy: bool, t: seq<byte>)
    requires p.Coherent() && !p.state.WaitStart1?
    ensures TurnScans(p, FromLenLo(p), noisy, t)
  {
    hide FromPayload, ScansOn;
    if p.state.ReadLenLo? && |p.buf| >= 1 {
      var q := p.(state := ReadPayload, payloadLen := p.payloadLen + p.buf[0] as int, buf := p.buf[1..]);
      assert q.Residue() == p.Residue();
      PayloadScans(q, noisy, t);
    } else {
      PayloadScans(p, noisy, t);
    }
  }

  lemma LenHiScans(p: Parser, noisy: bool, t: seq<byte>)
    requires p.Coherent() && !p.state.WaitStart1?
    ensures TurnScans(p, FromLenHi(p), noisy, t)
  {
    hide FromLenLo, ScansOn;
    if p.state.ReadLenHi? && |p.buf| >= 1 {
      var q := p.(state := ReadLenLo, payloadLen := U16(p.buf[0], 0), buf := p.buf[1..]);
      assert q.Residue() == p.Residue();
      LenLoScans(q, noisy, t);
    } else {
      LenLoScans(p, noisy, t);
    }
  }

  lemma Start2Scans(p: Parser, noisy: bool, t: seq<byte>)
    requires p.Coherent() && !p.state.WaitStart1?
    ensures TurnScans(p, FromStart2(p), noisy, t)
  {
    hide FromLenHi;
    if p.state.WaitStart2? && |p.buf| >= 2 {
      if IsMarker(p.buf[1]) {
        var q := p.(state := ReadLenHi, frameType := p.buf[1], buf := p.buf[2..]);
        assert q.Residue() == p.Residue();
        LenHiScans(q, noisy, t);
      } else {
        assert (p.buf + t)[1..] == p.buf[1..] + t;
      }
    } else {
      LenHiScans(p, noisy, t);
    }
  }

  lemma TurnScanned(p: Parser, noisy: bool, t: seq<byte>)
    requires p.Coherent() && |p.buf| >= 4
    ensures OneTurn(p).p.Coherent()
    ensures ScansOn(p.Residue(), noisy, OneTurn(p).p.Residue(), NoiseAfter(p, noisy), t)
  {
    TurnSound(p, t);
    hide FromStart2, Frames;
    if p.state.WaitStart1? {
      var pos := FindStart(p.buf);
      if pos == |p.buf| {
        var q := OneTurn(p).p;
        ScanGarbage(p.buf, |p.buf| - |q.buf|, t, noisy);
        assert q.buf == p.buf[|p.buf| - |q.buf|..];
      } else {
        ScanGarbage(p.buf, pos, t, noisy);
        Start2Scans(p.(state := WaitStart2, buf := p.buf[pos..]), noisy || pos > 0, t);
      }
    } else {
      Start2Scans(p, noisy, t);
    }
  }

  // ------------------------------------------------------------ what a turn leaves

  /** After a turn: a header consumed in part leaves an empty buffer, a START1 waiting for the
      next byte is alone, and noise that is not yet skipped is still there. */
  predicate Rests(p: Parser, noisy: bool) {
    && (p.state.WaitStart1? && noisy ==> p.buf == [] || p.buf[0] != START1)
    && (p.state.WaitStart2? ==> |p.buf| < 2)
    && (p.state.ReadLenHi? || p.state.ReadLenLo? ==> noisy && p.buf == [])
    && (p.state.ReadPayload? ==> p.payloadLen >= 1)
  }

  ghost predicate TurnRests(turn: Turn, noisy: bool) {
    Rests(turn.p, if turn.p.state.WaitStart1? then false else noisy)
  }

  lemma PayloadRests(p: Parser, noisy: bool)
    requires p.Coherent() && !p.state.WaitStart1? && (p.state.WaitStart2? ==> |p.buf| < 2)
    requires p.state.ReadLenHi? || p.state.ReadLenLo? ==> noisy && p.buf == []
    ensures TurnRests(FromPayload(p), noisy)
  {
  }

  lemma LenLoRests(p: Parser, noisy: bool)
    requires p.Coherent() && !p.state.WaitStart1? && (p.state.WaitStart2? ==> |p.buf| < 2)
    requires p.state.ReadLenHi? ==> noisy && p.buf == []
    requires p.state.ReadLenLo? ==> noisy || p.buf != []
    ensures TurnRests(FromLenLo(p), noisy)
  {
    hide FromPayload, TurnRests;
    if p.state.ReadLenLo? && |p.buf| >= 1 {
      PayloadRests(p.(state := ReadPayload, payloadLen := p.payloadLen + p.buf[0] as int, buf := p.buf[1..]), noisy);
    } else {
      PayloadRests(p, noisy);
    }
  }

  lemma LenHiRests(p: Parser, noisy: bool)
    requires p.Coherent() && !p.state.WaitStart1? && (p.state.WaitStart2? ==> |p.buf| < 2)
    requires p.state.ReadLenHi? || p.state.ReadLenLo? ==> noisy || |p.buf| >= 2
    ensures TurnRests(FromLenHi(p), noisy)
  {
    hide FromLenLo, TurnRests;
    if p.state.ReadLenHi? && |p.buf| >= 1 {
      LenLoRests(p.(state := ReadLenLo, payloadLen := U16(p.buf[0], 0), buf := p.buf[1..]), noisy);
    } else {
      LenLoRests(p, noisy);
    }
  }

  lemma Start2Rests(p: Parser, noisy: bool)
    requires p.Coherent() && !p.state.WaitStart1? && (noisy || |p.buf| >= 4)
    ensures TurnRests(FromStart2(p), noisy)
  {
    hide FromLenHi;
    if p.state.WaitStart2? && |p.buf| >= 2 {
      if IsMarker(p.buf[1]) {
        LenHiRests(p.(state := ReadLenHi, frameType := p.buf[1], buf := p.buf[2..]), noisy);
      }
    } else {
      LenHiRests(p, noisy);
    }
  }

  lemma TurnNoted(p: Parser, noisy: bool)
    requires p.Coherent() && |p.buf| >= 4
    ensures Rests(OneTurn(p).p, NoiseAfter(p, noisy))
  {
    hide FromStart2;
    if p.state.WaitStart1? {
      var pos := FindStart(p.buf);
      if pos < |p.buf| {
        Start2Rests(p.(state := WaitStart2, buf := p.buf[pos..]), noisy || pos > 0);
      }
    } else {
      Start2Rests(p, noisy);
    }
  }

  function DrainNoise(p: Parser, noisy: bool): bool
    requires p.Coherent()
    decreases Fuel(p)
  {
    if |p.buf| < 4 then noisy
    else
      TurnSound(p, []);
      match OneTurn(p)
      case Leave(q) => NoiseAfter(p, noisy)
      case Again(q, out) => DrainNoise(q, NoiseAfter(p, noisy))
  }

  lemma {:induction false} DrainScanned(p: Parser, noisy: bool, t: seq<byte>)
    requires p.Coherent()
    ensures ScansOn(p.Residue(), noisy, Drain(p).0.Residue(), DrainNoise(p, noisy), t)
    ensures |p.buf| >= 4 || Rests(p, noisy) ==> Rests(Drain(p).0, DrainNoise(p, noisy))
    ensures |p.buf| < 4 ==> Drain(p).0 == p && DrainNoise(p, noisy) == noisy
    decreases Fuel(p)
  {
    hide OneTurn, NoiseAfter, Rests, Scan;
    if |p.buf| >= 4 {
      DrainUnfolds(p);
      TurnScanned(p, noisy, t);
      TurnNoted(p, noisy);
      if OneTurn(p).Again? {
        DrainScanned(OneTurn(p).p, NoiseAfter(p, noisy), t);
      }
    }
  }

  lemma FeedScanned(p: Parser, noisy: bool, chunk: seq<byte>, t: seq<byte>)
    requires p.Coherent() && Noted(p, noisy)
    ensures var flag := DrainNoise(p.(buf := p.buf + chunk), noisy);
            && ScansOn(p.Residue() + chunk, noisy, Feed(p, chunk).0.Residue(), flag, t)
            && Noted(Feed(p, chunk).0, flag)
  {
    hide ScansOn, Drain, DrainNoise;
    var fed := p.(buf := p.buf + chunk);
    assert fed.Residue() == p.Residue() + chunk;
    DrainScanned(fed, noisy, t);
  }

  lemma ScansSelf(s: seq<byte>, noisy: bool, t: seq<byte>)
    ensures ScansOn(s, noisy, s, noisy, t)
  {
  }

  lemma ScansJoin(s: seq<byte>, a: bool, chunk: seq<byte>, q: seq<byte>, b: bool, rest: seq<byte>,
                  r: seq<byte>, c: bool, t: seq<byte>)
    requires ScansOn(s + chunk, a, q, b, rest + t) && ScansOn(q + rest, b, r, c, t)
    ensures ScansOn(s + (chunk + rest), a, r, c, t)
  {
    hide Scan;
    assert (s + chunk) + (rest + t) == (s + (chunk + rest)) + t;
    assert q + (rest + t) == (q + rest) + t;
  }

  /** After any reads: what is left to read ends in the last frame of the stream, if in any. */
  lemma {:induction false} FeedAllScanned(p: Parser, noisy: bool, chunks: seq<seq<byte>>, t: seq<byte>)
    returns (flag: bool)
    requires p.Settled() && Noted(p, noisy)
    ensures ScansOn(p.Residue() + Concat(chunks), noisy, FeedAll(p, chunks).0.Residue(), flag, t)
    ensures Noted(FeedAll(p, chunks).0, flag)
    decreases |chunks|
  {
    hide Feed, Noted, ScansOn, DrainNoise;
    if chunks == [] {
      assert p.Residue() + Concat(chunks) == p.Residue();
      ScansSelf(p.Residue(), noisy, t);
      return noisy;
    }
    var q, rest := Feed(p, chunks[0]).0, Concat(chunks[1..]);
    var next := DrainNoise(p.(buf := p.buf + chunks[0]), noisy);
    FeedScanned(p, noisy, chunks[0], rest + t);
    flag := FeedAllScanned(q, next, chunks[1..], t);
    ScansJoin(p.Residue(), noisy, chunks[0], q.Residue(), next, rest, FeedAll(p, chunks).0.Residue(), flag, t);
  }

  // -------------------------------------------------------------- only such streams

  /** A frame held back is the last one, and short in the way described. */
  lemma StalledScans(p: Parser, flag: bool)
    requires p.Settled() && p.Stalled() && Noted(p, flag)
    ensures CanStall(Scan(p.Residue(), flag))
  {
    var s := p.Residue();
    var n := U16(s[2], s[3]);
    assert |s[4 + n..]| < 4;
    assert Scan(s[4 + n..], false) == NoFrame;
  }

  lemma NoStallDelivers(chunks: seq<seq<byte>>)
    requires !CanStall(Scan(Concat(chunks), false))
    ensures FeedAll(FRESH, chunks).1 == Frames(Concat(chunks))
  {
    hide FeedAll, Frames, Scan, Concat;
    var s, p := Concat(chunks), FeedAll(FRESH, chunks).0;
    var flag := FeedAllScanned(FRESH, false, chunks, []);
    ChunkIndependence(chunks);
    assert FRESH.Residue() + s == s && s + [] == s && p.Residue() + [] == p.Residue();
    if p.Stalled() {
      StalledScans(p, flag);
    }
  }

  // ------------------------------------------------------------ all such streams

  /** A stream cut inside its last frame has fewer frames. */
  lemma {:induction false} CutLosesLast(s: seq<byte>, noisy: bool, cut: nat)
    requires Scan(s, noisy).Last?
    requires cut < |s| - Scan(s, noisy).after + Scan(s, noisy).size
    ensures cut <= |s| && |Frames(s[..cut])| < |Frames(s)|
    decreases |s|
  {
    ScanFrames(s, noisy);
    if s[0] != START1 || !IsMarker(s[1]) {
      if cut >= 4 {
        CutLosesLast(s[1..], s[0] != START1, cut - 1);
        assert s[..cut][1..] == s[1..][..cut - 1];
      }
    } else {
      var n := U16(s[2], s[3]);
      if cut >= 4 + n && Scan(s[4 + n..], false).Last? {
        CutLosesLast(s[4 + n..], false, cut - 4 - n);
        assert s[..cut][4 + n..] == s[4 + n..][..cut - 4 - n];
      }
    }
  }

  /** A last frame as far from the end as can be starts the stream. */
  lemma FrontFrame(s: seq<byte>, noisy: bool)
    requires |s| >= 4 && Scan(s, noisy).Last?
    ensures Scan(s, noisy).after + 4 == |s| ==>
              s[0] == START1 && IsMarker(s[1]) && Scan(s, noisy) == Last(U16(s[2], s[3]), |s| - 4, noisy)
    ensures s[0] == START1 && IsMarker(s[1]) && Scan(s, noisy).after + 4 < |s| ==>
              Scan(s, noisy).after + 8 + U16(s[2], s[3]) <= |s|
  {
    if s[0] != START1 || !IsMarker(s[1]) {
      ScanFrames(s[1..], s[0] != START1);
    } else {
      ScanFrames(s[4 + U16(s[2], s[3])..], false);
    }
  }

  /** A parser that has read the last header as far as it goes is stalled by the bytes after it. */
  lemma HeaderTaken(p: Parser, noisy: bool, t: seq<byte>)
    requires p.Settled() && Rests(p, noisy) && CanStall(Scan(p.Residue() + t, noisy))
    requires var tail := Scan(p.Residue() + t, noisy);
             |t| == if tail.size >= 1 then tail.after else tail.after + 1
    ensures p.(buf := p.buf + t).Coherent() && p.(buf := p.buf + t).Stalled() && |p.buf + t| < 4
  {
    hide Scan;
    var s, tail := p.Residue() + t, Scan(p.Residue() + t, noisy);
    ScanFrames(s, noisy);
    FrontFrame(s, noisy);
    if p.state.ReadPayload? {
      assert U16(s[2], s[3]) == p.payloadLen;
      assert p.buf + t == t;
    } else if p.state.ReadLenLo? {
      assert U16(s[2], s[3]) == p.payloadLen + t[0] as int;
      assert p.buf + t == t;
    }
  }

  lemma TwoReads(head: seq<byte>, t: seq<byte>)
    ensures Concat([head, t]) == head + t
    ensures FeedAll(FRESH, [head, t]).0 == Feed(Feed(FRESH, head).0, t).0
  {
    hide Feed;
    assert [head, t][1..] == [t] && [t][1..] == [];
    assert Concat([t]) == t;
    var q := Feed(FRESH, head).0;
    assert FeedAll(Feed(q, t).0, []).0 == Feed(q, t).0;
    assert FeedAll(q, [t]).0 == Feed(q, t).0;
  }

  lemma ShortRead(p: Parser, t: seq<byte>)
    requires p.Coherent() && |p.buf + t| < 4
    ensures Feed(p, t).0 == p.(buf := p.buf + t)
  {
  }

  /** What a first read up to `head` leaves. */
  lemma HeadScanned(head: seq<byte>, t: seq<byte>) returns (flag: bool)
    ensures var p := Feed(FRESH, head).0;
            && Rests(p, flag) && ScansOn(head, false, p.Residue(), flag, t)
            && |Frames(head + t)| <= |Frames(head)| + |Frames(p.Residue() + t)|
  {
    hide Scan, ScansOn, Frames, DrainNoise, Drain;
    var fed := FRESH.(buf := FRESH.buf + head);
    assert fed.Residue() == head && fed.buf == head;
    flag := DrainNoise(fed, false);
    DrainScanned(fed, false, t);
    FeedSound(FRESH, head, t);
    FeedSound(FRESH, head, []);
    assert FRESH.Residue() + (head + t) == head + t && FRESH.Residue() + (head + []) == head;
  }

  /** The last frame is held back when the bytes after its header, or in the second case its
      last length byte too, arrive with the last read. */
  lemma StallDelays(s: seq<byte>) returns (chunks: seq<seq<byte>>)
    requires CanStall(Scan(s, false))
    ensures Concat(chunks) == s && FeedAll(FRESH, chunks).1 != Frames(s)
  {
    hide Scan, Frames, Feed, FeedAll, Rests;
    var tail := Scan(s, false);
    ScanFrames(s, false);
    var cut := |s| - if tail.size >= 1 then tail.after else tail.after + 1;
    var head, t := s[..cut], s[cut..];
    assert s == head + t;
    chunks := [head, t];
    var flag := HeadScanned(head, t);
    var p := Feed(FRESH, head).0;
    CutLosesLast(s, false, cut);
    ScanFrames(p.Residue() + t, flag);
    HeaderTaken(p, flag, t);
    ShortRead(p, t);
    TwoReads(head, t);
    ChunkIndependence(chunks);
  }

  /** Every chunking of a stream delivers all its frames exactly when the stream has none, or
      at least four bytes follow the header of its last one, or that one is empty and noise does
      not come before it or three bytes after it. */
  lemma DeliversExactly(s: seq<byte>)
    ensures (forall chunks: seq<seq<byte>> :: Concat(chunks) == s ==> FeedAll(FRESH, chunks).1 == Frames(s))
            <==> !CanStall(Scan(s, false))
  {
    hide Scan, Frames, FeedAll, Concat, CanStall;
    if CanStall(Scan(s, false)) {
      var chunks := StallDelays(s);
      assert Concat(chunks) == s;
    } else {
      forall chunks: seq<seq<byte>> | Concat(chunks) == s ensures FeedAll(FRESH, chunks).1 == Frames(s) {
        NoStallDelivers(chunks);
      }
    }
  }
}
