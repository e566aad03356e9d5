/** The write side of an HTTP connection, at the granularity of its lock.

    The worker thread takes a snapshot of the unsent bytes under the lock, sends some of
    them without the lock, and commits the count under the lock; meanwhile other threads
    check the connection's state and later, under the lock, append whole event frames.
    A step is one of these atomic sections, and a run is any interleaving of them. */
module SseStream {
  import opened Bytes

  const MEBIBYTE := 1024 * 1024

  datatype State = WritingResponse | StreamingSse | Closed

  /** How far the worker is in one call of the write handler. */
  datatype Writer = Idle | Snapped(chunk: seq<byte>) | Sent(count: nat)

  /** The connection, the bytes the socket has taken, and the frames offered and taken in. */
  datatype Conn = Conn(
    state: State, outBuf: seq<byte>, outWritten: nat, writer: Writer, held: seq<seq<byte>>,
    wire: seq<byte>, accepted: seq<seq<byte>>, offered: seq<seq<byte>>)

  /** A request was processed: the response, or the event stream's header, is to be sent. */
  function Begin(state: State, header: seq<byte>): Conn {
    Conn(state, header, 0, Idle, [], [], [], [])
  }

  datatype Step =
    | Check(frame: seq<byte>)   // a broadcaster looks at the state
    | Append                    // ... and appends, under the lock
    | Snapshot                  // the worker, under the lock
    | Send(count: nat)          // the socket takes some bytes, no lock
    | WouldBlock
    | SendFailed
    | Commit                    // the worker, under the lock
    | PeerGone                  // the worker, between two write calls

  predicate Enabled(c: Conn, s: Step) {
    match s
    case Check(_) => c.held == []
    case Append => c.held != []
    case Snapshot => c.writer.Idle? && !c.state.Closed?
    case Send(n) => c.writer.Snapped? && 1 <= n <= |c.writer.chunk|
    case WouldBlock => c.writer.Snapped?
    case SendFailed => c.writer.Snapped?
    case Commit => c.writer.Sent?
    case PeerGone => c.writer.Idle?
  }

  /** All bytes are out: a response closes the connection, an event stream empties its buffer. */
  function Flushed(c: Conn): Conn {
    match c.state
    case WritingResponse => c.(state := Closed)
    case StreamingSse => c.(outBuf := [], outWritten := 0)
    case Closed => c
  }

  function Next(c: Conn, s: Step): Conn
    requires Enabled(c, s)
    requires c.outWritten <= |c.outBuf|
  {
    match s
    case Check(f) =>
      c.(offered := c.offered + [f], held := if c.state.StreamingSse? then [f] else [])
    case Append =>
      if |c.outBuf| < MEBIBYTE then
        c.(outBuf := c.outBuf + c.held[0], accepted := c.accepted + [c.held[0]], held := [])
      else c.(held := [])
    case Snapshot =>
      if c.outWritten >= |c.outBuf| then Flushed(c)
      else
        var d := if c.state.StreamingSse? && c.outWritten > 0
                 then c.(outBuf := c.outBuf[c.outWritten..], outWritten := 0) else c;
        d.(writer := Snapped(d.outBuf[d.outWritten..]))
    case Send(n) => c.(wire := c.wire + c.writer.chunk[..n], writer := Sent(n))
    case WouldBlock => c.(writer := Idle)
    case SendFailed => c.(writer := Idle, state := Closed)
    case Commit =>
      var d := c.(outWritten := c.outWritten + c.writer.count, writer := Idle);
      if d.outWritten >= |d.outBuf| then Flushed(d) else d
    case PeerGone => c.(state := Closed)
  }

  // --------------------------------------------------------------- invariant

  predicate Subsequence<T(==)>(a: seq<T>, b: seq<T>) {
    if a == [] then true
    else if b == [] then false
    else if a[|a| - 1] == b[|b| - 1] && Subsequence(a[..|a| - 1], b[..|b| - 1]) then true
    else Subsequence(a, b[..|b| - 1])
  }

  /** Bytes of the buffer that are out already, committed or not. */
  function Out(c: Conn): nat {
    c.outWritten + if c.writer.Sent? then c.writer.count else 0
  }

  function Unsent(c: Conn): seq<byte>
    requires Out(c) <= |c.outBuf|
  {
    c.outBuf[Out(c)..]
  }

  /** Bytes sent and bytes still unsent make up the header and the accepted frames. */
  predicate Delivers(c: Conn, header: seq<byte>) {
    && Out(c) <= |c.outBuf| && Out(c) <= |c.wire|
    && (c.writer.Snapped? ==> c.writer.chunk <= Unsent(c))
    && c.wire + Unsent(c) == header + Concat(c.accepted)
  }

  /** The accepted frames, and then the one in hand, are some of the frames offered, in order. */
  predicate InOrder(c: Conn) {
    |c.held| <= 1 && Subsequence(c.accepted + c.held, c.offered)
  }

  /** The buffer is no longer than at the start, or below a mebibyte plus one frame. */
  predicate Bounded(c: Conn, first: nat, longest: nat) {
    && (|c.outBuf| <= first || |c.outBuf| < MEBIBYTE + longest)
    && forall i :: 0 <= i < |c.held| ==> |c.held[i]| <= longest
  }

  predicate Inv(c: Conn, header: seq<byte>, longest: nat) {
    Delivers(c, header) && InOrder(c) && Bounded(c, |header|, longest)
  }

  // --------------------------------------------------------- ordered selections

  lemma SubsequenceMore<T>(a: seq<T>, b: seq<T>, x: T)
    requires Subsequence(a, b)
    ensures Subsequence(a, b + [x])
  {
    assert (b + [x])[..|b|] == b;
  }

  lemma SubsequenceBoth<T>(a: seq<T>, b: seq<T>, x: T)
    requires Subsequence(a, b)
    ensures Subsequence(a + [x], b + [x])
  {
    assert (a + [x])[..|a|] == a && (b + [x])[..|b|] == b;
  }

  lemma {:induction false} SubsequenceLess<T>(a: seq<T>, x: T, b: seq<T>)
    requires Subsequence(a + [x], b)
    ensures Subsequence(a, b)
    decreases |b|
  {
    var init, last := b[..|b| - 1], b[|b| - 1];
    assert (a + [x])[..|a|] == a && init + [last] == b;
    if !(x == last && Subsequence(a, init)) {
      SubsequenceLess(a, x, init);
    }
    SubsequenceMore(a, init, last);
  }

  lemma {:induction false} SubsequenceLength<T>(a: seq<T>, b: seq<T>)
    requires Subsequence(a, b)
    ensures |a| <= |b| && (|a| == |b| ==> a == b)
    decreases |b|
  {
    if a != [] {
      if a[|a| - 1] == b[|b| - 1] && Subsequence(a[..|a| - 1], b[..|b| - 1]) {
        SubsequenceLength(a[..|a| - 1], b[..|b| - 1]);
      } else {
        SubsequenceLength(a, b[..|b| - 1]);
      }
    }
  }

  // ------------------------------------------------------------------- steps

  lemma AppendDelivers(c: Conn, header: seq<byte>)
    requires Delivers(c, header) && |c.held| == 1
    ensures Delivers(Next(c, Append), header)
  {
    hide Concat;
    if |c.outBuf| < MEBIBYTE {
      ConcatSnoc(c.accepted, c.held[0]);
      assert Unsent(Next(c, Append)) == Unsent(c) + c.held[0];
      assert c.wire + (Unsent(c) + c.held[0]) == (c.wire + Unsent(c)) + c.held[0];
    }
  }

  lemma SnapshotDelivers(c: Conn, header: seq<byte>)
    requires Delivers(c, header) && Enabled(c, Snapshot)
    ensures Delivers(Next(c, Snapshot), header)
  {
    assert Unsent(Next(c, Snapshot)) == Unsent(c);
  }

  lemma SendDelivers(c: Conn, n: nat, header: seq<byte>)
    requires Delivers(c, header) && Enabled(c, Send(n))
    ensures Delivers(Next(c, Send(n)), header)
  {
    var rest := Unsent(c);
    assert rest[..n] == c.writer.chunk[..n];
    assert Unsent(Next(c, Send(n))) == rest[n..];
    assert (c.wire + rest[..n]) + rest[n..] == c.wire + rest;
  }

  lemma CommitDelivers(c: Conn, header: seq<byte>)
    requires Delivers(c, header) && Enabled(c, Commit)
    ensures Delivers(Next(c, Commit), header)
  {
    assert Unsent(Next(c, Commit)) == Unsent(c);
  }

  lemma StepDelivers(c: Conn, s: Step, header: seq<byte>)
    requires Delivers(c, header) && |c.held| <= 1 && Enabled(c, s)
    ensures Delivers(Next(c, s), header)
  {
    match s {
      case Append => AppendDelivers(c, header);
      case Snapshot => SnapshotDelivers(c, header);
      case Send(n) => SendDelivers(c, n, header);
      case Commit => CommitDelivers(c, header);
      case _ =>
    }
  }

  lemma StepInOrder(c: Conn, s: Step)
    requires InOrder(c) && Enabled(c, s) && c.outWritten <= |c.outBuf|
    ensures InOrder(Next(c, s))
  {
    hide Subsequence, Flushed;
    var d := Next(c, s);
    if s.Check? {
      assert c.accepted + c.held == c.accepted;
      SubsequenceBoth(c.accepted, c.offered, s.frame);
      SubsequenceMore(c.accepted, c.offered, s.frame);
      assert c.accepted + [] == c.accepted;
    } else if s.Append? {
      assert c.held == [c.held[0]];
      SubsequenceLess(c.accepted, c.held[0], c.offered);
      assert d.accepted + [] == d.accepted;
    } else {
      StepKeepsFrames(c, s);
    }
  }

  /** Only the broadcasters' steps touch the frames. */
  lemma StepKeepsFrames(c: Conn, s: Step)
    requires Enabled(c, s) && c.outWritten <= |c.outBuf| && !s.Check? && !s.Append?
    ensures var d := Next(c, s); d.held == c.held && d.accepted == c.accepted && d.offered == c.offered
  {
  }

  /** The step gives a frame up: the stream is not up when the broadcaster looks, or the buffer
      has reached a mebibyte when it appends. */
  predicate GivesUp(c: Conn, s: Step) {
    || (s.Check? && !c.state.StreamingSse?)
    || (s.Append? && |c.outBuf| >= 1_048_576)
  }

  /** Frames offered but neither taken in nor in hand. */
  function Missing(c: Conn): int {
    |c.offered| - |c.accepted| - |c.held|
  }

  lemma StepMissing(c: Conn, s: Step)
    requires InOrder(c) && Enabled(c, s) && c.outWritten <= |c.outBuf|
    ensures Missing(Next(c, s)) == Missing(c) + if GivesUp(c, s) then 1 else 0
  {
    hide Subsequence;
    if !s.Check? && !s.Append? {
      StepKeepsFrames(c, s);
    }
  }

  /** What fills the buffer at an append: bytes taken in and not yet on the wire, and those on
      the wire that no later snapshot has thrown away. */
  lemma BacklogExactly(c: Conn, header: seq<byte>)
    requires Delivers(c, header)
    ensures |c.outBuf| == |header| + |Concat(c.accepted)| - |c.wire| + Out(c)
  {
    assert |c.wire + Unsent(c)| == |c.wire| + |c.outBuf| - Out(c);
  }

  // -------------------------------------------------------------------- runs

  ghost predicate Runnable(c: Conn, steps: seq<Step>)
    decreases |steps|
  {
    steps == [] || (c.outWritten <= |c.outBuf| && Enabled(c, steps[0]) && Runnable(Next(c, steps[0]), steps[1..]))
  }

  ghost function Run(c: Conn, steps: seq<Step>): Conn
    requires Runnable(c, steps)
    decreases |steps|
  {
    if steps == [] then c else Run(Next(c, steps[0]), steps[1..])
  }

  /** How many steps of a run give a frame up. */
  ghost function Drops(c: Conn, steps: seq<Step>): nat
    requires Runnable(c, steps)
    decreases |steps|
  {
    if steps == [] then 0
    else (if GivesUp(c, steps[0]) then 1 else 0) + Drops(Next(c, steps[0]), steps[1..])
  }

  ghost predicate FramesWithin(steps: seq<Step>, longest: nat) {
    forall i :: 0 <= i < |steps| && steps[i].Check? ==> |steps[i].frame| <= longest
  }

  lemma StepBounded(c: Conn, s: Step, first: nat, longest: nat)
    requires Bounded(c, first, longest) && Enabled(c, s) && c.outWritten <= |c.outBuf|
    requires s.Check? ==> |s.frame| <= longest
    ensures Bounded(Next(c, s), first, longest)
  {
  }

  lemma {:induction false} RunKeepsInv(c: Conn, steps: seq<Step>, header: seq<byte>, longest: nat)
    requires Inv(c, header, longest) && Runnable(c, steps) && FramesWithin(steps, longest)
    ensures Inv(Run(c, steps), header, longest)
    ensures Missing(Run(c, steps)) == Missing(c) + Drops(c, steps)
    decreases |steps|
  {
    hide Next, Enabled, Delivers, Bounded, Subsequence, Missing;
    if steps != [] {
      assert c.outWritten <= |c.outBuf| && Enabled(c, steps[0]);
      StepBounded(c, steps[0], |header|, longest);
      StepDelivers(c, steps[0], header);
      StepInOrder(c, steps[0]);
      StepMissing(c, steps[0]);
      RunKeepsInv(Next(c, steps[0]), steps[1..], header, longest);
    }
  }

  /** In every interleaving the bytes sent and the bytes still unsent are the header and
      then whole frames, an in-order selection of those broadcast; so what the peer has got
      is a prefix of that.  The buffer stays below a mebibyte plus one frame, or within the
      length of the header or response it started with.  The frames left out are as many as
      were given up, and none is missing exactly when none was. */
  lemma EveryInterleavingDelivers(state: State, header: seq<byte>, steps: seq<Step>, longest: nat)
    requires Runnable(Begin(state, header), steps) && FramesWithin(steps, longest)
    ensures var c, drops := Run(Begin(state, header), steps), Drops(Begin(state, header), steps);
            && Out(c) <= |c.outBuf|
            && c.wire + Unsent(c) == header + Concat(c.accepted)
            && c.wire <= header + Concat(c.accepted)
            && Subsequence(c.accepted, c.offered)
            && (|c.outBuf| <= |header| || |c.outBuf| < MEBIBYTE + longest)
            && |c.accepted| + |c.held| + drops == |c.offered|
            && (c.accepted + c.held == c.offered <==> drops == 0)
  {
    var b := Begin(state, header);
    assert b.wire + Unsent(b) == header + Concat(b.accepted);
    assert InOrder(b);
    hide Subsequence;
    RunKeepsInv(b, steps, header, longest);
    var c := Run(b, steps);
    SubsequenceLength(c.accepted + c.held, c.offered);
    if c.held == [] {
      assert c.accepted + c.held == c.accepted;
    } else {
      assert c.held == [c.held[0]];
      SubsequenceLess(c.accepted, c.held[0], c.offered);
    }
  }

  /** A stream that is up at the end was up all along, and bytes offered stay offered. */
  lemma {:induction false} RunGrows(c: Conn, steps: seq<Step>)
    requires Runnable(c, steps)
    ensures Run(c, steps).state.StreamingSse? ==> c.state.StreamingSse?
    ensures |Concat(c.offered)| <= |Concat(Run(c, steps).offered)|
    decreases |steps|
  {
    if steps != [] {
      RunGrows(Next(c, steps[0]), steps[1..]);
      if steps[0].Check? {
        ConcatSnoc(c.offered, steps[0].frame);
      }
    }
  }

  /** Before the frames offered and the header reach a mebibyte, no append finds the buffer full. */
  lemma NotYetFull(c: Conn, header: seq<byte>)
    requires Delivers(c, header) && InOrder(c) && Missing(c) == 0
    requires |header| + |Concat(c.offered)| < 1_048_576
    ensures |c.outBuf| < 1_048_576
  {
    hide Subsequence, Concat;
    BacklogExactly(c, header);
    SubsequenceLength(c.accepted + c.held, c.offered);
    ConcatAppend(c.accepted, c.held);
  }

  /** A stream that is up at the end and was offered, with its header, less than a mebibyte in
      all has given no frame up. */
  lemma {:induction false} ShortStreamsDropNone(c: Conn, steps: seq<Step>, header: seq<byte>)
    requires Runnable(c, steps) && Delivers(c, header) && InOrder(c) && Missing(c) == 0
    requires Run(c, steps).state.StreamingSse? && |header| + |Concat(Run(c, steps).offered)| < 1_048_576
    ensures Drops(c, steps) == 0
    decreases |steps|
  {
    hide Delivers, Subsequence, Concat;
    if steps != [] {
      RunGrows(c, steps);
      NotYetFull(c, header);
      StepDelivers(c, steps[0], header);
      StepInOrder(c, steps[0]);
      StepMissing(c, steps[0]);
      ShortStreamsDropNone(Next(c, steps[0]), steps[1..], header);
    }
  }

  // ------------------------------------------------------- when a connection ends

  predicate Fails(s: Step) {
    s.SendFailed? || s.PeerGone?
  }

  /** An event stream is closed by a failed send or a peer that is gone, and by nothing else. */
  lemma {:induction false} StreamEndsExactly(c: Conn, steps: seq<Step>)
    requires Runnable(c, steps) && c.state.StreamingSse?
    ensures Run(c, steps).state == if exists i :: 0 <= i < |steps| && Fails(steps[i]) then Closed else StreamingSse
    decreases |steps|
  {
    if steps != [] {
      var d := Next(c, steps[0]);
      if Fails(steps[0]) {
        ClosedStays(d, steps[1..]);
      } else {
        StreamEndsExactly(d, steps[1..]);
        FailsLater(steps);
      }
    }
  }

  lemma FailsLater(steps: seq<Step>)
    requires steps != [] && !Fails(steps[0])
    ensures (exists i :: 0 <= i < |steps| && Fails(steps[i]))
            <==> exists i :: 0 <= i < |steps[1..]| && Fails(steps[1..][i])
  {
    if exists i :: 0 <= i < |steps| && Fails(steps[i]) {
      var i :| 0 <= i < |steps| && Fails(steps[i]);
      assert Fails(steps[1..][i - 1]);
    }
  }

  lemma {:induction false} ClosedStays(c: Conn, steps: seq<Step>)
    requires Runnable(c, steps) && c.state.Closed?
    ensures Run(c, steps).state.Closed?
    decreases |steps|
  {
    if steps != [] {
      ClosedStays(Next(c, steps[0]), steps[1..]);
    }
  }

  /** The worker's locked sections. */
  predicate Locked(s: Step) {
    s.Snapshot? || s.Commit?
  }

  /** A response in the course of being sent, with no frame taken in. */
  predicate Responding(c: Conn, response: seq<byte>) {
    && c.state.WritingResponse? && Delivers(c, response) && c.accepted == [] && c.held == []
    && c.outBuf == response
  }

  lemma ResponseStep(c: Conn, s: Step, response: seq<byte>)
    requires Responding(c, response) && Enabled(c, s) && !Fails(s)
    ensures var d := Next(c, s);
            if Locked(s) && c.wire == response then d.state.Closed? && d.wire == response else Responding(d, response)
  {
    StepDelivers(c, s, response);
    assert response + Concat<byte>([]) == response;
    assert c.wire + Unsent(c) == response;
    assert c.wire == response <==> Unsent(c) == [];
    assert |Unsent(c)| == |c.outBuf| - Out(c);
  }

  /** The worker has found every byte of the response on the wire. */
  ghost predicate FoundSent(c: Conn, steps: seq<Step>, response: seq<byte>, i: nat)
    requires Runnable(c, steps) && i < |steps|
  {
    RunnablePrefix(c, steps, i);
    Locked(steps[i]) && Run(c, steps[..i]).wire == response
  }

  lemma {:induction false} RunnablePrefix(c: Conn, steps: seq<Step>, i: nat)
    requires Runnable(c, steps) && i <= |steps|
    ensures Runnable(c, steps[..i])
    decreases i
  {
    if i > 0 {
      RunnablePrefix(Next(c, steps[0]), steps[1..], i - 1);
      assert steps[..i][1..] == steps[1..][..i - 1];
    }
  }

  /** A response whose sending does not fail is closed exactly when one of the worker's locked
      sections finds every byte of it on the wire, and then all of it is. */
  lemma {:induction false} ResponseEndsExactly(c: Conn, steps: seq<Step>, response: seq<byte>)
    requires Runnable(c, steps) && Responding(c, response) && forall i :: 0 <= i < |steps| ==> !Fails(steps[i])
    ensures Run(c, steps).state.Closed? <==> exists i :: 0 <= i < |steps| && FoundSent(c, steps, response, i)
    ensures Run(c, steps).state.Closed? ==> Run(c, steps).wire == response
    decreases |steps|
  {
    if steps != [] {
      var d := Next(c, steps[0]);
      ResponseStep(c, steps[0], response);
      assert steps[..0] == [] && (FoundSent(c, steps, response, 0) <==> Locked(steps[0]) && c.wire == response);
      if Locked(steps[0]) && c.wire == response {
        ClosedStays(d, steps[1..]);
        ClosedSendsNoMore(d, steps[1..]);
      } else {
        ResponseEndsExactly(d, steps[1..], response);
        FoundLater(c, steps, response);
      }
    }
  }

  lemma {:induction false} ClosedSendsNoMore(c: Conn, steps: seq<Step>)
    requires Runnable(c, steps) && c.state.Closed? && c.writer.Idle?
    ensures Run(c, steps).wire == c.wire
    decreases |steps|
  {
    if steps != [] {
      ClosedSendsNoMore(Next(c, steps[0]), steps[1..]);
    }
  }

  lemma FoundLater(c: Conn, steps: seq<Step>, response: seq<byte>)
    requires Runnable(c, steps) && steps != [] && !FoundSent(c, steps, response, 0)
    ensures (exists i :: 0 <= i < |steps| && FoundSent(c, steps, response, i))
            <==> exists i :: 0 <= i < |steps[1..]| && FoundSent(Next(c, steps[0]), steps[1..], response, i)
  {
    forall i | 0 < i < |steps|
      ensures FoundSent(c, steps, response, i) <==> FoundSent(Next(c, steps[0]), steps[1..], response, i - 1)
    {
      RunnablePrefix(c, steps, i);
      assert steps[..i][1..] == steps[1..][..i - 1];
    }
    if exists i :: 0 <= i < |steps| && FoundSent(c, steps, response, i) {
      var i :| 0 <= i < |steps| && FoundSent(c, steps, response, i);
      assert FoundSent(Next(c, steps[0]), steps[1..], response, i - 1);
    }
    if exists i :: 0 <= i < |steps[1..]| && FoundSent(Next(c, steps[0]), steps[1..], response, i) {
      var i :| 0 <= i < |steps[1..]| && FoundSent(Next(c, steps[0]), steps[1..], response, i);
      assert FoundSent(c, steps, response, i + 1);
    }
  }

  /** A stream's buffer holds nothing but unsent bytes after a snapshot, and nothing at all when
      a locked section finds every byte sent. */
  lemma NothingStale(c: Conn, s: Step, header: seq<byte>)
    requires c.state.StreamingSse? && Delivers(c, header) && Enabled(c, s) && Locked(s)
    ensures s.Snapshot? || Unsent(c) == [] ==> Next(c, s).outBuf == Unsent(c)
  {
  }

  // --------------------------------------------------------------- the object

  /** One connection; each method is one critical section, or one call of the socket. */
  class Connection {
    var state: State
    var outBuf: seq<byte>
    var outWritten: nat
    ghost var writer: Writer
    ghost var held: seq<seq<byte>>
    ghost var wire: seq<byte>
    ghost var accepted: seq<seq<byte>>
    ghost var offered: seq<seq<byte>>

    ghost function Abs(): Conn
      reads this
    {
      Conn(state, outBuf, outWritten, writer, held, wire, accepted, offered)
    }

    constructor (state: State, header: seq<byte>)
      ensures Abs() == Begin(state, header)
    {
      this.state, outBuf, outWritten := state, header, 0;
      writer, held, wire, accepted, offered := Idle, [], [], [], [];
    }

    /** A broadcaster looks at the state before it takes the lock. */
    method CheckStreaming(frame: seq<byte>) returns (streaming: bool)
      requires held == [] && outWritten <= |outBuf|
      modifies this
      ensures Abs() == Next(old(Abs()), Check(frame))
      ensures streaming <==> held == [frame]
    {
      streaming := state == StreamingSse;
      offered := offered + [frame];
      held := if streaming then [frame] else [];
    }

    method AppendFrame(frame: seq<byte>)
      requires held == [frame] && outWritten <= |outBuf|
      modifies this
      ensures Abs() == Next(old(Abs()), Append)
    {
      if |outBuf| < MEBIBYTE {
        outBuf := outBuf + frame;
        accepted := accepted + [frame];
      }
      held := [];
    }

    /** The first locked part of the write handler; nothing to send gives the empty chunk. */
    method TakeSnapshot() returns (chunk: seq<byte>)
      requires writer.Idle? && state != Closed && outWritten <= |outBuf|
      modifies this
      ensures Abs() == Next(old(Abs()), Snapshot)
      ensures if writer.Snapped? then chunk == writer.chunk && chunk != [] else chunk == []
    {
      if outWritten >= |outBuf| {
        if state == WritingResponse {
          state := Closed;
        } else if state == StreamingSse {
          outBuf := [];
          outWritten := 0;
        }
        return [];
      }
      if state == StreamingSse && outWritten > 0 {
        outBuf := outBuf[outWritten..];
        outWritten := 0;
      }
      chunk := outBuf[outWritten..];
      writer := Snapped(chunk);
    }

    /** The second locked part: `n` bytes of the chunk were sent in between. */
    method CommitWrite(n: nat)
      requires writer == Sent(n) && outWritten <= |outBuf|
      modifies this
      ensures Abs() == Next(old(Abs()), Commit)
    {
      writer := Idle;
      outWritten := outWritten + n;
      if outWritten >= |outBuf| {
        if state == WritingResponse {
          state := Closed;
        } else if state == StreamingSse {
          outBuf := [];
          outWritten := 0;
        }
      }
    }
  }
}
