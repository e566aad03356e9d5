/** Wrapping a text into lines of a given width in bytes, without cutting UTF-8 characters.

    What a wrapping is, is said by cuts: each output line is a slice of the text, possibly
    indented, and what lies between two slices is spaces or spaces and one newline. */
module WrapText {
  import opened Bytes

  const SPACE: byte := 0x20
  const NEWLINE: byte := 0x0A

  /** A byte inside a multi-byte character. */
  predicate Cont(b: byte) {
    0x80 <= b < 0xC0
  }

  function Indent(width: int): seq<byte> {
    if width > 15 then [SPACE, SPACE] else []
  }

  /** The bytes a line may take from the text. */
  function Avail(width: int, cont: bool): int {
    if cont then width - |Indent(width)| else width
  }

  /** One line: the slice it shows, and whether it continues the line before it. */
  datatype Cut = Cut(start: nat, end: nat, cont: bool)

  predicate Blank(text: seq<byte>, from: nat, to: nat) {
    from <= to <= |text| && forall i :: from <= i < to ==> text[i] == SPACE
  }

  /** What lies between two lines: all the spaces there are, and a newline behind them unless the
      second line continues the first. */
  predicate Gap(text: seq<byte>, from: nat, to: nat, cont: bool) {
    if cont then Blank(text, from, to) && (to < |text| ==> text[to] != SPACE)
    else from < to <= |text| && text[to - 1] == NEWLINE && Blank(text, from, to - 1)
  }

  predicate LineOk(text: seq<byte>, width: int, line: seq<byte>, c: Cut) {
    && c.start <= c.end <= |text| && (c.cont ==> c.start < c.end)
    && (forall i :: c.start <= i < c.end ==> text[i] != NEWLINE)
    && line == (if c.cont then Indent(width) else []) + text[c.start..c.end]
  }

  // ------------------------------------------------------------ greedy breaks

  /** The largest number of bytes up to `avail` that does not split a character, or the whole
      first character when even that does not fit. */
  predicate ChunkOk(s: seq<byte>, start: nat, end: nat, avail: nat, m: nat) {
    && start < end <= |s| && 1 <= m <= end - start && 1 <= avail < end - start
    && (if m <= avail then !Cont(s[start + m]) && forall k :: start + m < k <= start + avail ==> Cont(s[k])
        else (forall k :: start < k < start + m ==> Cont(s[k])) && (start + m == end || !Cont(s[start + m])))
  }

  /** Where a line that starts at `c.start` in a segment ending at `segEnd` must stop: at the
      segment's end if it fits, else at the last space within reach, else after a full chunk. */
  ghost predicate Greedy(text: seq<byte>, width: int, c: Cut, segEnd: nat) {
    && c.start <= c.end <= segEnd <= |text|
    && (segEnd == |text| || text[segEnd] == NEWLINE)
    && (forall i :: c.start <= i < segEnd ==> text[i] != NEWLINE)
    && (if segEnd - c.start <= Reach(width, c.cont) then c.end == segEnd
        else exists m :: ChunkOk(text, c.start, segEnd, Reach(width, c.cont), m) && BreaksAt(text, c, segEnd, m))
  }

  function Reach(width: int, cont: bool): nat {
    if Avail(width, cont) <= 0 then 1 else Avail(width, cont)
  }

  predicate BreaksAt(text: seq<byte>, c: Cut, segEnd: nat, m: nat) {
    && c.start < c.end <= segEnd <= |text|
    && (|| (c.end <= c.start + m && c.end < segEnd && text[c.end] == SPACE
            && forall i :: c.end < i <= c.start + m && i < segEnd ==> text[i] != SPACE)
        || (c.end == c.start + m
            && forall i :: c.start < i <= c.start + m && i < segEnd ==> text[i] != SPACE))
  }

  ghost predicate GreedyCut(text: seq<byte>, width: int, c: Cut) {
    exists segEnd :: Greedy(text, width, c, segEnd)
  }

  // ------------------------------------------------------------------ layouts

  /** Each line is a greedy slice, and follows the line before it after a gap. */
  ghost predicate LinesOk(text: seq<byte>, width: int, lines: seq<seq<byte>>, cuts: seq<Cut>)
    decreases |cuts|
  {
    && |lines| == |cuts|
    && (cuts != [] ==>
          var n := |cuts| - 1;
          && LinesOk(text, width, lines[..n], cuts[..n])
          && LineOk(text, width, lines[n], cuts[n])
          && GreedyCut(text, width, cuts[n])
          && Starts(text, cuts[..n], cuts[n].start, cuts[n].cont))
  }

  /** A line may start at `at` after the lines cut so far. */
  predicate Starts(text: seq<byte>, cuts: seq<Cut>, at: nat, cont: bool) {
    if cuts == [] then at == 0 && !cont else Gap(text, cuts[|cuts| - 1].end, at, cont)
  }

  /** The lines so far lay out the text before `at`, where the next line starts. */
  ghost predicate Upto(text: seq<byte>, width: int, lines: seq<seq<byte>>, cuts: seq<Cut>, at: nat, cont: bool) {
    LinesOk(text, width, lines, cuts) && at <= |text| && Starts(text, cuts, at, cont)
  }

  /** The lines lay out the whole text: after the last one only spaces are left. */
  ghost predicate Layout(text: seq<byte>, width: int, lines: seq<seq<byte>>, cuts: seq<Cut>) {
    LinesOk(text, width, lines, cuts) && cuts != [] && Blank(text, cuts[|cuts| - 1].end, |text|)
  }

  lemma AddLine(text: seq<byte>, width: int, lines: seq<seq<byte>>, cuts: seq<Cut>, at: nat, cont: bool,
                line: seq<byte>, end: nat)
    requires Upto(text, width, lines, cuts, at, cont)
    requires LineOk(text, width, line, Cut(at, end, cont)) && GreedyCut(text, width, Cut(at, end, cont))
    ensures LinesOk(text, width, lines + [line], cuts + [Cut(at, end, cont)])
  {
    assert (lines + [line])[..|lines|] == lines;
    assert (cuts + [Cut(at, end, cont)])[..|cuts|] == cuts;
  }

  // ------------------------------------------------------------- the algorithm

  /** How much of the segment a line takes before it looks for a space. */
  method FitChunk(segment: seq<byte>, pos: nat, avail: nat) returns (m: nat)
    requires pos + avail < |segment| && avail >= 1
    ensures ChunkOk(segment, pos, |segment|, avail, m)
  {
    m := avail;
    while m > 0 && Cont(segment[pos + m])
      invariant m <= avail
      invariant forall k :: pos + m < k <= pos + avail ==> Cont(segment[k])
    {
      m := m - 1;
    }
    if m == 0 {
      m := 1;
      while pos + m < |segment| && Cont(segment[pos + m])
        invariant 1 <= m <= |segment| - pos
        invariant forall k :: pos < k < pos + m ==> Cont(segment[k])
      {
        m := m + 1;
      }
    }
  }

  /** The last space at or before `from`, or -1. */
  method FindSpaceBack(segment: seq<byte>, from: nat) returns (brk: int)
    requires segment != []
    ensures -1 <= brk < |segment| && brk <= from
    ensures brk >= 0 ==> segment[brk] == SPACE
    ensures forall i :: brk < i <= from && 0 <= i < |segment| ==> segment[i] != SPACE
  {
    brk := if from < |segment| then from else |segment| - 1;
    while brk >= 0 && segment[brk] != SPACE
      invariant -1 <= brk < |segment| && brk <= from
      invariant forall i :: brk < i <= from && 0 <= i < |segment| ==> segment[i] != SPACE
    {
      brk := brk - 1;
    }
  }

  method SkipSpaces(segment: seq<byte>, from: nat) returns (pos: nat)
    requires from <= |segment|
    ensures Blank(segment, from, pos)
    ensures pos < |segment| ==> segment[pos] != SPACE
    ensures from < |segment| && segment[from] == SPACE ==> pos > from
  {
    pos := from;
    while pos < |segment| && segment[pos] == SPACE
      invariant from <= pos <= |segment|
      invariant forall i :: from <= i < pos ==> segment[i] == SPACE
      invariant from < |segment| && segment[from] == SPACE ==> pos > from || pos == from
    {
      pos := pos + 1;
    }
  }

  /** A segment as a slice of the text. */
  predicate IsSegment(text: seq<byte>, segment: seq<byte>, at: nat) {
    at + |segment| <= |text|
    && (forall i :: 0 <= i < |segment| ==> segment[i] == text[at + i] && segment[i] != NEWLINE)
    && (at + |segment| == |text| || text[at + |segment|] == NEWLINE)
  }

  lemma SegmentBytes(text: seq<byte>, segment: seq<byte>, at: nat)
    requires IsSegment(text, segment, at)
    ensures forall i :: at <= i < at + |segment| ==> text[i] == segment[i - at] && text[i] != NEWLINE
  {
  }

  lemma SliceOfSlice(s: seq<byte>, i: nat, j: nat, a: nat, b: nat)
    requires i <= j <= |s| && a <= b <= j - i
    ensures s[i..j][a..b] == s[i + a..i + b]
  {
    var x, y := s[i..j][a..b], s[i + a..i + b];
    forall k | 0 <= k < b - a ensures x[k] == y[k] {
      assert x[k] == s[i..j][a + k] == s[i + a + k];
    }
  }

  lemma SegmentLine(text: seq<byte>, width: int, segment: seq<byte>, at: nat, a: nat, b: nat, cont: bool,
                    line: seq<byte>)
    requires IsSegment(text, segment, at) && a <= b <= |segment| && (cont ==> a < b)
    requires line == (if cont then Indent(width) else []) + segment[a..b]
    ensures LineOk(text, width, line, Cut(at + a, at + b, cont))
  {
    assert segment == text[at..at + |segment|];
    SliceOfSlice(text, at, at + |segment|, a, b);
  }

  lemma LastLineGreedy(text: seq<byte>, segment: seq<byte>, at: nat, width: int, pos: nat, cont: bool)
    requires IsSegment(text, segment, at) && pos <= |segment| && |segment| - pos <= Reach(width, cont)
    ensures GreedyCut(text, width, Cut(at + pos, at + |segment|, cont))
  {
    SegmentBytes(text, segment, at);
    assert Greedy(text, width, Cut(at + pos, at + |segment|, cont), at + |segment|);
  }

  lemma BrokenLineGreedy(text: seq<byte>, segment: seq<byte>, at: nat, width: int, pos: nat, cont: bool,
                         m: nat, end: nat)
    requires IsSegment(text, segment, at) && pos < |segment|
    requires ChunkOk(segment, pos, |segment|, Reach(width, cont), m)
    requires BreaksAt(segment, Cut(pos, end, cont), |segment|, m)
    ensures GreedyCut(text, width, Cut(at + pos, at + end, cont))
  {
    SegmentBytes(text, segment, at);
    var c, segEnd := Cut(at + pos, at + end, cont), at + |segment|;
    assert ChunkOk(text, at + pos, segEnd, Reach(width, cont), m);
    assert BreaksAt(text, c, segEnd, m);
    assert Greedy(text, width, c, segEnd);
  }

  /** A segment's last line. */
  lemma LastLine(text: seq<byte>, width: int, at: nat, segment: seq<byte>, lines: seq<seq<byte>>, cuts: seq<Cut>,
                 pos: nat, cont: bool, line: seq<byte>)
    requires IsSegment(text, segment, at) && pos <= |segment| && |segment| - pos <= Reach(width, cont)
    requires cont ==> pos < |segment|
    requires Upto(text, width, lines, cuts, at + pos, cont)
    requires line == (if cont then Indent(width) else []) + segment[pos..]
    ensures LinesOk(text, width, lines + [line], cuts + [Cut(at + pos, at + |segment|, cont)])
  {
    hide LineOk, GreedyCut, LinesOk;
    assert segment[pos..] == segment[pos..|segment|];
    SegmentLine(text, width, segment, at, pos, |segment|, cont, line);
    LastLineGreedy(text, segment, at, width, pos, cont);
    AddLine(text, width, lines, cuts, at + pos, cont, line, at + |segment|);
  }

  /** A line broken inside the segment; the next one starts at `next`. */
  lemma BrokenLine(text: seq<byte>, width: int, at: nat, segment: seq<byte>, lines: seq<seq<byte>>, cuts: seq<Cut>,
                   pos: nat, cont: bool, line: seq<byte>, m: nat, end: nat, next: nat)
    requires IsSegment(text, segment, at) && pos < end <= |segment|
    requires ChunkOk(segment, pos, |segment|, Reach(width, cont), m)
    requires BreaksAt(segment, Cut(pos, end, cont), |segment|, m)
    requires Upto(text, width, lines, cuts, at + pos, cont)
    requires line == (if cont then Indent(width) else []) + segment[pos..end]
    requires Blank(segment, end, next) && (next < |segment| ==> segment[next] != SPACE)
    ensures Upto(text, width, lines + [line], cuts + [Cut(at + pos, at + end, cont)], at + next, true)
  {
    hide LineOk, GreedyCut, BreaksAt, ChunkOk;
    SegmentLine(text, width, segment, at, pos, end, cont, line);
    BrokenLineGreedy(text, segment, at, width, pos, cont, m, end);
    AddLine(text, width, lines, cuts, at + pos, cont, line, at + end);
    SegmentBytes(text, segment, at);
  }

  /** Where a line that does not take the rest of the segment ends, and the next one starts. */
  method FindBreak(segment: seq<byte>, pos: nat, avail: nat, ghost cont: bool)
      returns (end: nat, next: nat, ghost m: nat)
    requires pos + avail < |segment| && avail >= 1
    ensures ChunkOk(segment, pos, |segment|, avail, m)
    ensures BreaksAt(segment, Cut(pos, end, cont), |segment|, m)
    ensures pos < end && Blank(segment, end, next) && (next < |segment| ==> segment[next] != SPACE)
  {
    var chunk := FitChunk(segment, pos, avail);
    m := chunk;
    var brk := FindSpaceBack(segment, pos + chunk);
    if brk > pos {
      end := brk;
      next := SkipSpaces(segment, brk);
    } else {
      end := pos + chunk;
      next := end;
    }
  }

  /** Wrap one segment of the text, adding its lines. */
  method WrapSegment(text: seq<byte>, width: int, at: nat, segment: seq<byte>,
                     lines: seq<seq<byte>>, ghost cuts: seq<Cut>)
      returns (result: seq<seq<byte>>, ghost after: seq<Cut>)
    requires width > 0 && IsSegment(text, segment, at)
    requires Upto(text, width, lines, cuts, at, false)
    ensures LinesOk(text, width, result, after) && after != []
    ensures Blank(text, after[|after| - 1].end, at + |segment|)
  {
    if |segment| <= width {
      LastLine(text, width, at, segment, lines, cuts, 0, false, segment);
      return lines + [segment], cuts + [Cut(at, at + |segment|, false)];
    }
    result, after := WrapLong(text, width, at, segment, lines, cuts);
  }

  /** ... when it does not fit one line. */
  method WrapLong(text: seq<byte>, width: int, at: nat, segment: seq<byte>,
                  lines: seq<seq<byte>>, ghost cuts: seq<Cut>)
      returns (result: seq<seq<byte>>, ghost after: seq<Cut>)
    requires width > 0 && IsSegment(text, segment, at) && segment != []
    requires Upto(text, width, lines, cuts, at, false)
    ensures LinesOk(text, width, result, after) && after != []
    ensures Blank(text, after[|after| - 1].end, at + |segment|)
  {
    hide LinesOk, ChunkOk, BreaksAt;
    result, after := lines, cuts;
    var indent := Indent(width);
    var pos := 0;
    var first := true;
    while pos < |segment|
      invariant 0 <= pos <= |segment|
      invariant first ==> pos == 0
      invariant Upto(text, width, result, after, at + pos, !first)
      invariant !first ==> after != []
      decreases |segment| - pos
    {
      var avail := if first then width else width - |indent|;
      if avail <= 0 {
        avail := 1;
      }
      var lead := if first then [] else indent;
      if |segment| - pos <= avail {
        LastLine(text, width, at, segment, result, after, pos, !first, lead + segment[pos..]);
        return result + [lead + segment[pos..]], after + [Cut(at + pos, at + |segment|, !first)];
      }
      ghost var m: nat;
      var end, next;
      end, next, m := FindBreak(segment, pos, avail, !first);
      var part := lead + segment[pos..end];
      BrokenLine(text, width, at, segment, result, after, pos, !first, part, m, end, next);
      result, after := result + [part], after + [Cut(at + pos, at + end, !first)];
      pos := next;
      first := false;
    }
  }

  lemma SegmentIs(text: seq<byte>, at: nat, end: nat)
    requires at <= end <= |text| && (end == |text| || text[end] == NEWLINE)
    requires forall i :: at <= i < end ==> text[i] != NEWLINE
    ensures IsSegment(text, text[at..end], at)
  {
  }

  method FindNewline(text: seq<byte>, from: nat) returns (pos: nat)
    requires from <= |text|
    ensures from <= pos <= |text| && (pos < |text| ==> text[pos] == NEWLINE)
    ensures forall i :: from <= i < pos ==> text[i] != NEWLINE
  {
    pos := from;
    while pos < |text| && text[pos] != NEWLINE
      invariant from <= pos <= |text|
      invariant forall i :: from <= i < pos ==> text[i] != NEWLINE
    {
      pos := pos + 1;
    }
  }

  /** Wrap a text: the lines lay out the whole of it, broken greedily. */
  method WrapText(text: seq<byte>, width: int) returns (result: seq<seq<byte>>, ghost cuts: seq<Cut>)
    ensures width <= 0 ==> result == []
    ensures width > 0 ==> Layout(text, width, result, cuts)
  {
    result, cuts := [], [];
    if width <= 0 {
      return;
    }
    if text == [] {
      LastLine(text, width, 0, text, [], [], 0, false, []);
      return [[]], [Cut(0, 0, false)];
    }
    var newline := FindNewline(text, 0);
    if newline == |text| && |text| <= width {
      LastLine(text, width, 0, text, [], [], 0, false, text);
      return [text], [Cut(0, |text|, false)];
    }
    result, cuts := WrapSegments(text, width);
  }

  /** Behind a newline the next segment starts with nothing on its line. */
  lemma NextSegment(text: seq<byte>, width: int, lines: seq<seq<byte>>, cuts: seq<Cut>, end: nat)
    requires LinesOk(text, width, lines, cuts) && cuts != [] && Blank(text, cuts[|cuts| - 1].end, end)
    requires end < |text| && text[end] == NEWLINE
    ensures Upto(text, width, lines, cuts, end + 1, false)
  {
    hide LinesOk;
  }

  lemma NothingYet(text: seq<byte>, width: int)
    ensures Upto(text, width, [], [], 0, false)
  {
  }

  /** The segment that starts at a position, and the newline or the end of the text behind it. */
  method FindSegment(text: seq<byte>, from: nat) returns (end: nat, segment: seq<byte>)
    requires from <= |text|
    ensures end <= |text| && (end < |text| ==> text[end] == NEWLINE)
    ensures IsSegment(text, segment, from) && from + |segment| == end
  {
    end := FindNewline(text, from);
    SegmentIs(text, from, end);
    segment := text[from..end];
  }

  lemma LastSegment(text: seq<byte>, width: int, lines: seq<seq<byte>>, cuts: seq<Cut>)
    requires LinesOk(text, width, lines, cuts) && cuts != [] && Blank(text, cuts[|cuts| - 1].end, |text|)
    ensures Layout(text, width, lines, cuts)
  {
  }

  /** ... segment by segment. */
  method WrapSegments(text: seq<byte>, width: int) returns (result: seq<seq<byte>>, ghost cuts: seq<Cut>)
    requires width > 0
    ensures Layout(text, width, result, cuts)
  {
    hide LinesOk, Upto, Blank, IsSegment, Layout;
    result, cuts := [], [];
    NothingYet(text, width);
    var lineStart := 0;
    while lineStart <= |text|
      invariant 0 <= lineStart <= |text|
      invariant Upto(text, width, result, cuts, lineStart, false)
    {
      var end, segment := FindSegment(text, lineStart);
      result, cuts := WrapSegment(text, width, lineStart, segment, result, cuts);
      if end == |text| {
        LastSegment(text, width, result, cuts);
        return;
      }
      NextSegment(text, width, result, cuts, end);
      lineStart := end + 1;
    }
  }
}
