/** The events a peer reads from the stream: the frames the server writes, and a reader that
    interprets an event stream as section 9.2 of the WHATWG HTML standard says.

    Of the fields only `event` and `data` are used here; `id` and `retry` change nothing a
    reader reports. */
module EventStream {
  import opened Bytes
  import opened SseStream

  const LF: byte := 0x0A
  const CR: byte := 0x0D
  const SPACE: byte := 0x20
  const COLON: byte := 0x3A
  const EVENT: seq<byte> := [0x65, 0x76, 0x65, 0x6E, 0x74]
  const DATA: seq<byte> := [0x64, 0x61, 0x74, 0x61]
  const MESSAGE: seq<byte> := [0x6D, 0x65, 0x73, 0x73, 0x61, 0x67, 0x65]

  /** " connected", the comment every event stream begins with. */
  const CONNECTED: seq<byte> := [0x20, 0x63, 0x6F, 0x6E, 0x6E, 0x65, 0x63, 0x74, 0x65, 0x64]

  /** Something broadcast: an event, or a comment line that keeps the connection open. */
  datatype Item = Named(event: seq<byte>, data: seq<byte>) | Comment(text: seq<byte>)

  function EventFrame(event: seq<byte>, data: seq<byte>): seq<byte> {
    (if event == [] then [] else EVENT + [COLON, SPACE] + event + [LF]) + (DATA + [COLON, SPACE] + data + [LF] + [LF])
  }

  function CommentFrame(text: seq<byte>): seq<byte> {
    [COLON] + text + [LF] + [LF]
  }

  function Encode(i: Item): seq<byte> {
    match i
    case Named(e, d) => EventFrame(e, d)
    case Comment(t) => CommentFrame(t)
  }

  function Ascii(s: string): (r: seq<byte>)
    requires forall i :: 0 <= i < |s| ==> s[i] as int < 128
    ensures |r| == |s| && forall i :: 0 <= i < |s| ==> r[i] == s[i] as int
  {
    seq(|s|, i requires 0 <= i < |s| => s[i] as int)
  }

  /** The frames as text. */
  lemma FrameText(event: seq<byte>, data: seq<byte>, text: seq<byte>)
    ensures EventFrame(event, data)
         == (if event == [] then [] else Ascii("event: ") + event + Ascii("\n"))
            + (Ascii("data: ") + data + Ascii("\n\n"))
    ensures CommentFrame(text) == Ascii(":") + text + Ascii("\n\n")
    ensures CONNECTED == Ascii(" connected")
  {
    assert Ascii("event: ") == EVENT + [COLON, SPACE] && Ascii("data: ") == DATA + [COLON, SPACE];
    assert Ascii("\n\n") == [LF] + [LF] && Ascii("\n") == [LF] && Ascii(":") == [COLON];
    assert (DATA + [COLON, SPACE]) + data + ([LF] + [LF]) == DATA + [COLON, SPACE] + data + [LF] + [LF];
    assert [COLON] + text + ([LF] + [LF]) == [COLON] + text + [LF] + [LF];
  }

  /** Build the frame of an event. */
  method BuildFrame(event: seq<byte>, data: seq<byte>) returns (frame: seq<byte>)
    ensures frame == Encode(Named(event, data))
  {
    frame := [];
    if event != [] {
      frame := frame + (EVENT + [COLON, SPACE] + event + [LF]);
    }
    frame := frame + (DATA + [COLON, SPACE] + data + [LF] + [LF]);
    assert [] + Encode(Named([], data)) == Encode(Named([], data));
  }

  // ---------------------------------------------------------- reading events

  datatype Event = Event(kind: seq<byte>, data: seq<byte>)

  /** The event type buffer and the data buffer. */
  datatype Buffers = Buffers(kind: seq<byte>, data: seq<byte>)

  const EMPTY := Buffers([], [])

  predicate Ends(b: byte) {
    b == LF || b == CR
  }

  predicate OneLine(s: seq<byte>) {
    forall i :: 0 <= i < |s| ==> !Ends(s[i])
  }

  /** Position of the first line end, or the length. */
  function LineLength(s: seq<byte>): (n: nat)
    ensures n <= |s| && OneLine(s[..n]) && (n < |s| ==> Ends(s[n]))
  {
    if s == [] || Ends(s[0]) then 0
    else
      var n := 1 + LineLength(s[1..]);
      assert s[..n] == [s[0]] + s[1..][..n - 1];
      n
  }

  /** What follows the line end at `n`: a carriage return takes a line feed with it. */
  function Rest(s: seq<byte>, n: nat): seq<byte>
    requires n < |s|
  {
    if s[n] == CR && n + 1 < |s| && s[n + 1] == LF then s[n + 2..] else s[n + 1..]
  }

  function FindColon(s: seq<byte>): (n: nat)
    ensures n <= |s| && (n < |s| ==> s[n] == COLON) && forall i :: 0 <= i < n ==> s[i] != COLON
  {
    if s == [] || s[0] == COLON then 0 else 1 + FindColon(s[1..])
  }

  /** The value of a field: what follows the colon, less one leading space. */
  function Value(line: seq<byte>): seq<byte> {
    var c := FindColon(line);
    if c == |line| then []
    else if c + 1 < |line| && line[c + 1] == SPACE then line[c + 2..]
    else line[c + 1..]
  }

  function Field(b: Buffers, line: seq<byte>): Buffers {
    var name := line[..FindColon(line)];
    if name == EVENT then b.(kind := Value(line))
    else if name == DATA then b.(data := b.data + Value(line) + [LF])
    else b
  }

  /** A blank line dispatches the event, if there was any data. */
  function Dispatch(b: Buffers): seq<Event> {
    if b.data == [] then []
    else [Event(if b.kind == [] then MESSAGE else b.kind, b.data[..|b.data| - 1])]
  }

  /** All events in a stream; an unfinished one at the end is not reported. */
  function Interpret(b: Buffers, s: seq<byte>): seq<Event>
    decreases |s|
  {
    var n := LineLength(s);
    if n == |s| then []
    else if n == 0 then Dispatch(b) + Interpret(EMPTY, Rest(s, n))
    else Interpret(Field(b, s[..n]), Rest(s, n))
  }

  // ------------------------------------------------------------- line by line

  lemma {:induction false} LineLengthAt(line: seq<byte>, end: byte, rest: seq<byte>)
    requires OneLine(line) && Ends(end)
    ensures LineLength(line + [end] + rest) == |line|
  {
    if line == [] {
      assert line + [end] + rest == [end] + rest;
    } else {
      LineLengthAt(line[1..], end, rest);
      assert (line + [end] + rest)[1..] == line[1..] + [end] + rest;
    }
  }

  lemma ReadLine(b: Buffers, line: seq<byte>, rest: seq<byte>)
    requires OneLine(line)
    ensures Interpret(b, line + [LF] + rest)
         == if line == [] then Dispatch(b) + Interpret(EMPTY, rest) else Interpret(Field(b, line), rest)
  {
    var s := line + [LF] + rest;
    LineLengthAt(line, LF, rest);
    assert s[..|line|] == line;
    assert Rest(s, |line|) == rest;
  }

  /** A line may end in a carriage return, a line feed, or both, which are one end. */
  lemma LineEndsAlike(b: Buffers, line: seq<byte>, rest: seq<byte>)
    requires OneLine(line)
    ensures Interpret(b, line + [CR] + ([LF] + rest)) == Interpret(b, line + [LF] + rest)
    ensures rest == [] || rest[0] != LF ==> Interpret(b, line + [CR] + rest) == Interpret(b, line + [LF] + rest)
  {
    ReadLine(b, line, rest);
    LineLengthAt(line, CR, [LF] + rest);
    LineLengthAt(line, CR, rest);
    var both, one := line + [CR] + ([LF] + rest), line + [CR] + rest;
    assert both[..|line|] == one[..|line|] == line;
    assert both[|line| + 2..] == rest && one[|line| + 1..] == rest;
  }

  lemma {:induction false} ColonAt(name: seq<byte>, rest: seq<byte>)
    requires forall i :: 0 <= i < |name| ==> name[i] != COLON
    ensures FindColon(name + [COLON] + rest) == |name|
  {
    if name == [] {
      assert name + [COLON] + rest == [COLON] + rest;
    } else {
      ColonAt(name[1..], rest);
      assert (name + [COLON] + rest)[1..] == name[1..] + [COLON] + rest;
    }
  }

  /** A field line written with one space after the colon has the value that was written. */
  lemma FieldLine(b: Buffers, name: seq<byte>, value: seq<byte>)
    requires forall i :: 0 <= i < |name| ==> name[i] != COLON
    ensures var line := name + [COLON, SPACE] + value;
            && Value(line) == value && line[..FindColon(line)] == name
  {
    var line := name + [COLON, SPACE] + value;
    ColonAt(name, [SPACE] + value);
    assert line == name + [COLON] + ([SPACE] + value);
    assert line[|name| + 2..] == value && line[..|name|] == name;
  }

  /** What may be broadcast without tearing a frame apart: no line break inside. */
  predicate Unbroken(i: Item) {
    match i
    case Named(e, d) => OneLine(e) && OneLine(d)
    case Comment(t) => OneLine(t)
  }

  function Reported(i: Item): seq<Event> {
    match i
    case Named(e, d) => [Event(if e == [] then MESSAGE else e, d)]
    case Comment(_) => []
  }

  lemma DataField(b: Buffers, value: seq<byte>)
    ensures Field(b, DATA + [COLON, SPACE] + value) == b.(data := b.data + value + [LF])
  {
    FieldLine(b, DATA, value);
  }

  lemma DataRead(kind: seq<byte>, data: seq<byte>, rest: seq<byte>)
    requires OneLine(data)
    ensures Interpret(Buffers(kind, []), (DATA + [COLON, SPACE] + data + [LF] + [LF]) + rest)
         == [Event(if kind == [] then MESSAGE else kind, data)] + Interpret(EMPTY, rest)
  {
    hide Interpret, Field;
    var line, b := DATA + [COLON, SPACE] + data, Buffers(kind, data + [LF]);
    DataField(Buffers(kind, []), data);
    assert (line + [LF] + [LF]) + rest == line + [LF] + ([LF] + rest);
    ReadLine(Buffers(kind, []), line, [LF] + rest);
    assert [] + data + [LF] == data + [LF];
    ReadLine(b, [], rest);
    assert [] + [LF] + rest == [LF] + rest;
    assert b.data[..|b.data| - 1] == data;
  }

  lemma EventRead(event: seq<byte>, data: seq<byte>, rest: seq<byte>)
    requires OneLine(event) && OneLine(data)
    ensures Interpret(EMPTY, EventFrame(event, data) + rest)
         == Reported(Named(event, data)) + Interpret(EMPTY, rest)
  {
    hide Interpret;
    var tail := DATA + [COLON, SPACE] + data + [LF] + [LF];
    DataRead(event, data, rest);
    if event == [] {
      assert EventFrame(event, data) + rest == tail + rest;
    } else {
      EventLine(event, tail, rest);
    }
  }

  lemma EventLine(event: seq<byte>, tail: seq<byte>, rest: seq<byte>)
    requires OneLine(event)
    ensures Interpret(EMPTY, ((EVENT + [COLON, SPACE] + event + [LF]) + tail) + rest)
         == Interpret(Buffers(event, []), tail + rest)
  {
    hide Interpret;
    var line := EVENT + [COLON, SPACE] + event;
    FieldLine(EMPTY, EVENT, event);
    assert ((line + [LF]) + tail) + rest == line + [LF] + (tail + rest);
    ReadLine(EMPTY, line, tail + rest);
  }

  lemma CommentRead(text: seq<byte>, rest: seq<byte>)
    requires OneLine(text)
    ensures Interpret(EMPTY, CommentFrame(text) + rest) == Interpret(EMPTY, rest)
  {
    hide Interpret;
    var line := [COLON] + text;
    assert CommentFrame(text) + rest == line + [LF] + ([] + [LF] + rest);
    ReadLine(EMPTY, line, [] + [LF] + rest);
    assert line[..FindColon(line)] == [];
    ReadLine(EMPTY, [], rest);
  }

  /** A frame is read back as what was broadcast, and leaves nothing behind. */
  lemma FrameRead(i: Item, rest: seq<byte>)
    requires Unbroken(i)
    ensures Interpret(EMPTY, Encode(i) + rest) == Reported(i) + Interpret(EMPTY, rest)
  {
    hide Interpret;
    match i
    case Named(e, d) => EventRead(e, d, rest);
    case Comment(t) => CommentRead(t, rest);
  }

  function Encoded(items: seq<Item>): (frames: seq<seq<byte>>)
    ensures |frames| == |items|
  {
    if items == [] then [] else Encoded(items[..|items| - 1]) + [Encode(items[|items| - 1])]
  }

  function Events(items: seq<Item>): seq<Event> {
    if items == [] then [] else Events(items[..|items| - 1]) + Reported(items[|items| - 1])
  }

  ghost predicate AllUnbroken(items: seq<Item>) {
    forall i :: 0 <= i < |items| ==> Unbroken(items[i])
  }

  /** A whole stream of frames is read back as the events broadcast, in order. */
  lemma {:induction false} StreamRead(items: seq<Item>, rest: seq<byte>)
    requires AllUnbroken(items)
    ensures Interpret(EMPTY, Concat(Encoded(items)) + rest) == Events(items) + Interpret(EMPTY, rest)
    decreases |items|
  {
    hide Interpret, Encode, Reported;
    if items == [] {
      assert Concat(Encoded(items)) + rest == rest;
    } else {
      var init, last := items[..|items| - 1], items[|items| - 1];
      ConcatSnoc(Encoded(init), Encode(last));
      assert (Concat(Encoded(init)) + Encode(last)) + rest == Concat(Encoded(init)) + (Encode(last) + rest);
      StreamRead(init, Encode(last) + rest);
      FrameRead(last, rest);
    }
  }

  /** Events are reported as they come: more bytes only add events at the end. */
  lemma {:induction false} PrefixReported(b: Buffers, s: seq<byte>, t: seq<byte>)
    ensures Interpret(b, s) <= Interpret(b, s + t)
    decreases |s|
  {
    var n := LineLength(s);
    if n < |s| {
      LineLengthLonger(s, t);
      assert (s + t)[..n] == s[..n];
      var c := if n == 0 then EMPTY else Field(b, s[..n]);
      if s[n] == CR && n + 1 == |s| {
        assert Interpret(c, Rest(s, n)) == [];
      } else {
        assert Rest(s + t, n) == Rest(s, n) + t;
        PrefixReported(c, Rest(s, n), t);
      }
    }
  }

  lemma {:induction false} LineLengthLonger(s: seq<byte>, t: seq<byte>)
    requires LineLength(s) < |s|
    ensures LineLength(s + t) == LineLength(s)
  {
    if Ends(s[0]) {
    } else {
      LineLengthLonger(s[1..], t);
      assert (s + t)[1..] == s[1..] + t;
    }
  }

  // ------------------------------------------------------- exactly which frames

  predicate NoReturn(s: seq<byte>) {
    CR !in s
  }

  /** Nothing with a line break is ever reported as a type, or with a return as data. */
  lemma {:induction false} ReportsAreClean(b: Buffers, s: seq<byte>)
    requires OneLine(b.kind) && NoReturn(b.data)
    ensures forall e :: e in Interpret(b, s) ==> OneLine(e.kind) && NoReturn(e.data)
    decreases |s|
  {
    var n := LineLength(s);
    if n < |s| {
      if n == 0 {
        ReportsAreClean(EMPTY, Rest(s, n));
      } else {
        ReportsAreClean(Field(b, s[..n]), Rest(s, n));
      }
    }
  }

  /** The first event reported holds what was buffered, or is shorter than all that came. */
  lemma {:induction false} FirstReport(b: Buffers, s: seq<byte>)
    requires Interpret(b, s) != []
    ensures var size := |Interpret(b, s)[0].data|;
            (b.data != [] && size == |b.data| - 1) || size + 5 <= |b.data| + |s|
    decreases |s|
  {
    var n := LineLength(s);
    if n == 0 {
      if b.data == [] {
        FirstReport(EMPTY, Rest(s, n));
      }
    } else {
      FirstReport(Field(b, s[..n]), Rest(s, n));
    }
  }

  lemma BrokenData(kind: seq<byte>, data: seq<byte>)
    requires NoReturn(data) && !OneLine(data)
    ensures Interpret(Buffers(kind, []), DATA + [COLON, SPACE] + data + [LF] + [LF])
         != [Event(if kind == [] then MESSAGE else kind, data)]
  {
    hide Interpret, Field;
    var n, b := LineLength(data), Buffers(kind, []);
    assert n < |data| && data[n] == LF && data == data[..n] + [LF] + data[n + 1..] by {
      assert data[..|data|] == data;
    }
    var line, rest := DATA + [COLON, SPACE] + data[..n], data[n + 1..] + [LF] + [LF];
    assert DATA + [COLON, SPACE] + data + [LF] + [LF] == line + [LF] + rest;
    ReadLine(b, line, rest);
    DataField(b, data[..n]);
    ShortReport(Field(b, line), rest, data);
  }

  lemma ShortReport(b: Buffers, s: seq<byte>, data: seq<byte>)
    requires |b.data| + |s| == |data| + 2 && b.data != [] && |b.data| != |data| + 1
    ensures forall kind :: Interpret(b, s) != [Event(kind, data)]
  {
    if Interpret(b, s) != [] {
      FirstReport(b, s);
    }
  }

  lemma BrokenFrame(event: seq<byte>, data: seq<byte>)
    requires OneLine(event) && NoReturn(data) && !OneLine(data)
    ensures Interpret(EMPTY, EventFrame(event, data)) != Reported(Named(event, data))
  {
    hide Interpret;
    var tail := DATA + [COLON, SPACE] + data + [LF] + [LF];
    BrokenData(event, data);
    if event == [] {
      assert EventFrame(event, data) == tail;
    } else {
      EventLine(event, tail, []);
      assert EventFrame(event, data) + [] == EventFrame(event, data) && tail + [] == tail;
    }
  }

  /** A broadcast event is read back as the one event it is exactly when neither its name nor
      its data has a line break in it. */
  lemma ReadBackExactly(event: seq<byte>, data: seq<byte>)
    ensures Interpret(EMPTY, EventFrame(event, data)) == Reported(Named(event, data))
            <==> OneLine(event) && OneLine(data)
  {
    hide Interpret, EventFrame;
    var frame, reported := EventFrame(event, data), Reported(Named(event, data));
    if OneLine(event) && OneLine(data) {
      EventRead(event, data, []);
      assert frame + [] == frame && reported + [] == reported;
      NothingReported();
    } else if OneLine(event) && NoReturn(data) {
      BrokenFrame(event, data);
    } else {
      ReportsAreClean(EMPTY, frame);
      assert reported[0] !in Interpret(EMPTY, frame);
    }
  }

  lemma NothingReported()
    ensures Interpret(EMPTY, []) == []
  {
  }

  // ------------------------------------------------- from broadcast to report

  /** The frames broadcast in a run. */
  function Broadcast(steps: seq<Step>): seq<seq<byte>> {
    if steps == [] then []
    else (if steps[0].Check? then [steps[0].frame] else []) + Broadcast(steps[1..])
  }

  lemma StepOffered(c: Conn, s: Step)
    requires Enabled(c, s) && c.outWritten <= |c.outBuf|
    ensures Next(c, s).offered == c.offered + if s.Check? then [s.frame] else []
  {
    if !s.Check? && !s.Append? {
      StepKeepsFrames(c, s);
    }
  }

  lemma {:induction false} OfferedIsBroadcast(c: Conn, steps: seq<Step>)
    requires Runnable(c, steps)
    ensures Run(c, steps).offered == c.offered + Broadcast(steps)
    decreases |steps|
  {
    hide Next, Enabled;
    if steps != [] {
      StepOffered(c, steps[0]);
      OfferedIsBroadcast(Next(c, steps[0]), steps[1..]);
      var f := if steps[0].Check? then [steps[0].frame] else [];
      assert (c.offered + f) + Broadcast(steps[1..]) == c.offered + (f + Broadcast(steps[1..]));
    }
  }

  lemma SubsequenceCases<T>(a: seq<T>, b: seq<T>)
    requires Subsequence(a, b) && a != []
    ensures b != []
    ensures || (a[|a| - 1] == b[|b| - 1] && Subsequence(a[..|a| - 1], b[..|b| - 1]))
            || Subsequence(a, b[..|b| - 1])
  {
  }

  lemma EncodedSnoc(items: seq<Item>, last: Item)
    ensures Encoded(items + [last]) == Encoded(items) + [Encode(last)]
  {
    assert (items + [last])[..|items|] == items;
  }

  lemma NoneSelected(items: seq<Item>)
    ensures Subsequence([], items) && Encoded([]) == []
  {
  }

  /** A selection of encoded items encodes a selection of the items. */
  lemma {:induction false} SelectionDecodes(frames: seq<seq<byte>>, items: seq<Item>) returns (kept: seq<Item>)
    requires Subsequence(frames, Encoded(items)) && AllUnbroken(items)
    ensures Subsequence(kept, items) && Encoded(kept) == frames && AllUnbroken(kept)
    ensures frames == Encoded(items) ==> kept == items
    decreases |items|
  {
    hide Encode, Unbroken, Encoded, Subsequence;
    if frames == Encoded(items) {
      SubsequenceSelf(items);
      return items;
    }
    if frames == [] {
      NoneSelected(items);
      return [];
    }
    SubsequenceCases(frames, Encoded(items));
    var init, last := items[..|items| - 1], items[|items| - 1];
    assert init + [last] == items;
    EncodedSnoc(init, last);
    var frame := frames[|frames| - 1];
    assert Encoded(items)[..|items| - 1] == Encoded(init);
    if frame == Encode(last) && Subsequence(frames[..|frames| - 1], Encoded(init)) {
      kept := SelectionDecodes(frames[..|frames| - 1], init);
      EncodedSnoc(kept, last);
      SubsequenceBoth(kept, init, last);
      kept := kept + [last];
    } else {
      kept := SelectionDecodes(frames, init);
      SubsequenceMore(kept, init, last);
    }
  }

  lemma {:induction false} SubsequenceSelf<T>(s: seq<T>)
    ensures Subsequence(s, s)
  {
    if s != [] {
      SubsequenceSelf(s[..|s| - 1]);
    }
  }

  lemma ReportedSoFar(head: seq<byte>, kept: seq<Item>, wire: seq<byte>)
    requires AllUnbroken(kept) && |head| <= |wire|
    requires wire <= (head + CommentFrame(CONNECTED)) + Concat(Encoded(kept))
    ensures Interpret(EMPTY, wire[|head|..]) <= Events(kept)
    ensures wire == (head + CommentFrame(CONNECTED)) + Concat(Encoded(kept)) ==>
              Interpret(EMPTY, wire[|head|..]) == Events(kept)
  {
    hide Interpret, Events, CommentFrame;
    var frames, got := Concat(Encoded(kept)), wire[|head|..];
    var body := CommentFrame(CONNECTED) + frames;
    assert (head + CommentFrame(CONNECTED)) + frames == head + body;
    assert body == got + body[|got|..];
    PrefixReported(EMPTY, got, body[|got|..]);
    CommentRead(CONNECTED, frames);
    StreamRead(kept, []);
    NothingReported();
    assert frames + [] == frames && Events(kept) + [] == Events(kept);
  }

  /** In every interleaving of broadcasters and the writing worker, what a peer's reader has
      reported is the beginning of an in-order selection of the events broadcast, each whole,
      and all of the selection once every byte is out.  The events left out are as many as
      frames were given up, and one at most in hand. */
  lemma PeerReportsBroadcasts(head: seq<byte>, items: seq<Item>, steps: seq<Step>, longest: nat)
      returns (kept: seq<Item>)
    requires AllUnbroken(items) && Broadcast(steps) == Encoded(items) && FramesWithin(steps, longest)
    requires Runnable(Begin(StreamingSse, head + CommentFrame(CONNECTED)), steps)
    ensures Subsequence(kept, items)
    ensures var start := Begin(StreamingSse, head + CommentFrame(CONNECTED));
            var c := Run(start, steps);
            && Out(c) <= |c.outBuf|
            && (|head| <= |c.wire| ==> Interpret(EMPTY, c.wire[|head|..]) <= Events(kept))
            && (|head| <= |c.wire| && Unsent(c) == [] ==> Interpret(EMPTY, c.wire[|head|..]) == Events(kept))
            && |kept| + |c.held| + Drops(start, steps) == |items|
            && (kept == items <==> c.held == [] && Drops(start, steps) == 0)
  {
    hide Interpret, Events, Encoded, CommentFrame;
    var start := Begin(StreamingSse, head + CommentFrame(CONNECTED));
    var c := Run(start, steps);
    EveryInterleavingDelivers(StreamingSse, head + CommentFrame(CONNECTED), steps, longest);
    OfferedIsBroadcast(start, steps);
    assert [] + Broadcast(steps) == Encoded(items);
    kept := SelectionDecodes(c.accepted, items);
    if |head| <= |c.wire| {
      ReportedSoFar(head, kept, c.wire);
    }
    SubsequenceLength(kept, items);
    assert Unsent(c) == [] ==> c.wire + Unsent(c) == c.wire;
  }
}
