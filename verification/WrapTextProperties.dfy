/** What a wrapping guarantees: nothing but spaces and newlines is lost, characters stay
    whole, and lines are as wide as asked exactly when every character is. */
module WrapTextProperties {
  import opened Bytes
  import opened WrapText

  /** A byte inside a multi-byte character, in the words of section 4 of RFC 3629. */
  predicate Tail(b: byte) {
    0x80 <= b <= 0xBF
  }

  // ------------------------------------------------------------- the one layout

  lemma SameChunk(s: seq<byte>, start: nat, end: nat, avail: nat, m: nat, n: nat)
    requires ChunkOk(s, start, end, avail, m) && ChunkOk(s, start, end, avail, n)
    ensures m == n
  {
  }

  lemma SameBreak(text: seq<byte>, a: Cut, b: Cut, segEnd: nat, m: nat)
    requires a.start == b.start && BreaksAt(text, a, segEnd, m) && BreaksAt(text, b, segEnd, m)
    ensures a.end == b.end
  {
  }

  /** Where a line starts decides where it ends. */
  lemma SameEnd(text: seq<byte>, width: int, a: Cut, b: Cut)
    requires GreedyCut(text, width, a) && GreedyCut(text, width, b) && a.start == b.start && a.cont == b.cont
    ensures a == b
  {
    var segEnd: nat :| Greedy(text, width, a, segEnd);
    var other: nat :| Greedy(text, width, b, other);
    assert segEnd == other;
    var reach := Reach(width, a.cont);
    if segEnd - a.start > reach {
      var m: nat :| ChunkOk(text, a.start, segEnd, reach, m) && BreaksAt(text, a, segEnd, m);
      var n: nat :| ChunkOk(text, a.start, segEnd, reach, n) && BreaksAt(text, b, segEnd, n);
      SameChunk(text, a.start, segEnd, reach, m, n);
      SameBreak(text, a, b, segEnd, m);
    }
  }

  /** Where a line ends decides where the next one starts, and whether it continues it. */
  lemma SameStart(text: seq<byte>, from: nat, a: Cut, b: Cut)
    requires Gap(text, from, a.start, a.cont) && Gap(text, from, b.start, b.cont)
    requires a.cont ==> a.start < |text| && text[a.start] != NEWLINE
    requires b.cont ==> b.start < |text| && text[b.start] != NEWLINE
    ensures a.start == b.start && a.cont == b.cont
  {
  }

  /** No line starts where a layout has come to its end. */
  lemma NothingFollows(text: seq<byte>, from: nat, a: Cut)
    requires Gap(text, from, a.start, a.cont) && (a.cont ==> a.start < |text|)
    ensures !Blank(text, from, |text|)
  {
  }

  lemma PrefixOf<T>(s: seq<T>, k: nat, n: nat)
    requires n <= k <= |s|
    ensures s[..k][..n] == s[..n]
    ensures n < k ==> s[..k][n] == s[n]
    ensures n < |s| ==> s[..n + 1] == s[..n] + [s[n]]
  {
  }

  lemma {:induction false} LastCut(text: seq<byte>, width: int, lines: seq<seq<byte>>, cuts: seq<Cut>, n: nat)
    requires LinesOk(text, width, lines, cuts) && n < |cuts|
    ensures LinesOk(text, width, lines[..n], cuts[..n]) && LineOk(text, width, lines[n], cuts[n])
    ensures GreedyCut(text, width, cuts[n]) && Starts(text, cuts[..n], cuts[n].start, cuts[n].cont)
    decreases |cuts|
  {
    hide LineOk, GreedyCut, Starts;
    var k := |cuts| - 1;
    if n < k {
      LastCut(text, width, lines[..k], cuts[..k], n);
      PrefixOf(lines, k, n);
      PrefixOf(cuts, k, n);
    }
  }

  /** Two layouts that agree so far agree on the next line. */
  lemma SameNext(text: seq<byte>, width: int, lines: seq<seq<byte>>, cuts: seq<Cut>,
                 lines': seq<seq<byte>>, cuts': seq<Cut>, n: nat)
    requires LinesOk(text, width, lines, cuts) && LinesOk(text, width, lines', cuts')
    requires n < |cuts| && n < |cuts'| && cuts[..n] == cuts'[..n]
    ensures cuts[n] == cuts'[n] && lines[n] == lines'[n]
  {
    LastCut(text, width, lines, cuts, n);
    LastCut(text, width, lines', cuts', n);
    hide LinesOk, GreedyCut;
    if n > 0 {
      PrefixOf(cuts, n, n - 1);
      PrefixOf(cuts', n, n - 1);
      SameStart(text, cuts[..n][n - 1].end, cuts[n], cuts'[n]);
    }
    SameEnd(text, width, cuts[n], cuts'[n]);
    hide Gap, Starts;
    SameLine(text, width, lines[n], lines'[n], cuts[n]);
  }

  /** Two layouts have the same lines as far as both go. */
  lemma {:induction false} SameLines(text: seq<byte>, width: int, lines: seq<seq<byte>>, cuts: seq<Cut>,
                                     lines': seq<seq<byte>>, cuts': seq<Cut>, n: nat)
    requires LinesOk(text, width, lines, cuts) && LinesOk(text, width, lines', cuts')
    requires n <= |cuts| && n <= |cuts'|
    ensures lines[..n] == lines'[..n] && cuts[..n] == cuts'[..n]
  {
    assert |lines| == |cuts| && |lines'| == |cuts'|;
    hide LinesOk;
    if n > 0 {
      var k := n - 1;
      LastCut(text, width, lines, cuts, k);
      LastCut(text, width, lines', cuts', k);
      SameLines(text, width, lines, cuts, lines', cuts', k);
      SameNext(text, width, lines, cuts, lines', cuts', k);
      PrefixOf(lines, n, k);
      PrefixOf(lines', n, k);
      PrefixOf(cuts, n, k);
      PrefixOf(cuts', n, k);
    }
  }

  lemma SameLine(text: seq<byte>, width: int, line: seq<byte>, line': seq<byte>, c: Cut)
    requires LineOk(text, width, line, c) && LineOk(text, width, line', c)
    ensures line == line'
  {
  }

  lemma NoFurtherLine(text: seq<byte>, width: int, lines: seq<seq<byte>>, cuts: seq<Cut>, n: nat)
    requires LinesOk(text, width, lines, cuts) && 0 < n < |cuts|
    ensures !Blank(text, cuts[n - 1].end, |text|)
  {
    LastCut(text, width, lines, cuts, n);
    assert cuts[..n][n - 1] == cuts[n - 1];
    NothingFollows(text, cuts[n - 1].end, cuts[n]);
  }

  /** A text has one layout of a width: where lines start and end, and what they show, is
      decided by the text and the width alone. */
  lemma LayoutIsUnique(text: seq<byte>, width: int, lines: seq<seq<byte>>, cuts: seq<Cut>,
                       lines': seq<seq<byte>>, cuts': seq<Cut>)
    requires Layout(text, width, lines, cuts) && Layout(text, width, lines', cuts')
    ensures lines == lines' && cuts == cuts'
  {
    assert |lines| == |cuts| && |lines'| == |cuts'|;
    hide LinesOk, Blank;
    var n := if |cuts| < |cuts'| then |cuts| else |cuts'|;
    SameLines(text, width, lines, cuts, lines', cuts', n);
    assert cuts[..n][n - 1] == cuts'[..n][n - 1];
    if n < |cuts| {
      NoFurtherLine(text, width, lines, cuts, n);
    } else if n < |cuts'| {
      NoFurtherLine(text, width, lines', cuts', n);
    }
    assert lines[..n] == lines && lines'[..n] == lines' && cuts[..n] == cuts && cuts'[..n] == cuts';
  }

  /** A line that continues another starts at a byte that is no space; when the line before it
      does not end at a space, it starts right there, and otherwise at the first such byte. */
  lemma ContinuesAtInk(text: seq<byte>, width: int, lines: seq<seq<byte>>, cuts: seq<Cut>, i: nat)
    requires LinesOk(text, width, lines, cuts) && 0 < i < |cuts| && cuts[i].cont
    ensures cuts[i - 1].end <= cuts[i].start < |text| && text[cuts[i].start] != SPACE
    ensures text[cuts[i - 1].end] != SPACE ==> cuts[i].start == cuts[i - 1].end
    ensures forall k :: cuts[i - 1].end <= k < cuts[i].start ==> text[k] == SPACE
  {
    LastCut(text, width, lines, cuts, i);
    assert cuts[..i][i - 1] == cuts[i - 1];
  }

  /** What a line shows: its slice of the text, behind two spaces if it continues another and the
      width is more than fifteen. */
  lemma LineShows(text: seq<byte>, width: int, lines: seq<seq<byte>>, cuts: seq<Cut>, i: nat)
    requires LinesOk(text, width, lines, cuts) && i < |cuts|
    ensures cuts[i].start <= cuts[i].end <= |text|
    ensures lines[i] == (if cuts[i].cont && width > 15 then [0x20, 0x20] else []) + text[cuts[i].start..cuts[i].end]
  {
    LastCut(text, width, lines, cuts, i);
    assert [] + text[cuts[i].start..cuts[i].end] == text[cuts[i].start..cuts[i].end];
  }

  /** A line could stop here: at the end of its segment, at a space, or between two characters. */
  predicate CouldEnd(text: seq<byte>, start: nat, e: nat, anywhere: bool) {
    && start < e <= |text| && (forall k :: start <= k < e ==> text[k] != NEWLINE)
    && (e == |text| || text[e] == NEWLINE || text[e] == SPACE || (anywhere && !Tail(text[e])))
  }

  /** A broken line does not reach the end of its segment. */
  lemma BrokenInside(text: seq<byte>, width: int, a: Cut, b: Cut, segEnd: nat)
    requires Greedy(text, width, a, segEnd) && b.cont && Gap(text, a.end, b.start, true)
    requires b.start < |text| && text[b.start] != NEWLINE
    ensures a.end < segEnd && segEnd - a.start > Reach(width, a.cont)
  {
    assert a.end < b.start ==> text[a.end] == SPACE;
  }

  lemma FullCut(text: seq<byte>, width: int, a: Cut, segEnd: nat, e: nat)
    requires Greedy(text, width, a, segEnd) && a.end < segEnd && segEnd - a.start > Reach(width, a.cont)
    requires a.end < e && CouldEnd(text, a.start, e, text[a.end] != SPACE)
    ensures e - a.start > Reach(width, a.cont)
  {
    var m: nat :| ChunkOk(text, a.start, segEnd, Reach(width, a.cont), m) && BreaksAt(text, a, segEnd, m);
    assert e <= segEnd;
  }

  /** Lines are full: a line that is continued could not have stopped any later, at a space or
      the end of its segment, within the width; broken where there is no space, it could not
      have taken one more character. */
  lemma LinesAreFull(text: seq<byte>, width: int, lines: seq<seq<byte>>, cuts: seq<Cut>, i: nat, e: nat)
    requires LinesOk(text, width, lines, cuts) && i + 1 < |cuts| && cuts[i + 1].cont
    requires cuts[i].end < e <= |text| && CouldEnd(text, cuts[i].start, e, text[cuts[i].end] != SPACE)
    ensures |lines[i]| + (e - cuts[i].end) > width
  {
    LastCut(text, width, lines, cuts, i);
    LastCut(text, width, lines, cuts, i + 1);
    PrefixOf(cuts, i + 1, i);
    hide LinesOk, ChunkOk, BreaksAt;
    var segEnd: nat :| Greedy(text, width, cuts[i], segEnd);
    BrokenInside(text, width, cuts[i], cuts[i + 1], segEnd);
    FullCut(text, width, cuts[i], segEnd, e);
  }

  const HELLO: seq<byte> := [104, 101, 108, 108, 111]
  const WORLD: seq<byte> := [119, 111, 114, 108, 100]

  lemma HelloWorldLayout()
    ensures Layout(HELLO + [0x20] + WORLD, 5, [HELLO, WORLD], [Cut(0, 5, false), Cut(6, 11, true)])
  {
    var text := HELLO + [0x20] + WORLD;
    var a, b := Cut(0, 5, false), Cut(6, 11, true);
    assert ChunkOk(text, 0, 11, 5, 5) && BreaksAt(text, a, 11, 5);
    assert Greedy(text, 5, a, 11) && Greedy(text, 5, b, 11);
    assert LineOk(text, 5, HELLO, a) && LineOk(text, 5, WORLD, b);
    assert [HELLO, WORLD][..1] == [HELLO] && [a, b][..1] == [a];
    assert LinesOk(text, 5, [HELLO], [a]) by {
      assert [HELLO][..0] == [] && [a][..0] == [];
      assert LinesOk(text, 5, [], []);
    }
  }

  /** "hello world" at width five becomes "hello" and "world". */
  lemma HelloWorld(lines: seq<seq<byte>>, cuts: seq<Cut>)
    requires Layout(HELLO + [0x20] + WORLD, 5, lines, cuts)
    ensures lines == [HELLO, WORLD]
  {
    hide Layout;
    HelloWorldLayout();
    LayoutIsUnique(HELLO + [0x20] + WORLD, 5, lines, cuts, [HELLO, WORLD], [Cut(0, 5, false), Cut(6, 11, true)]);
  }

  // ------------------------------------------------------------ nothing is lost

  /** A text without its spaces and newlines. */
  function Ink(s: seq<byte>): seq<byte> {
    if s == [] then []
    else
      var last := s[|s| - 1];
      Ink(s[..|s| - 1]) + if last == SPACE || last == NEWLINE then [] else [last]
  }

  lemma {:induction false} InkConcat(a: seq<byte>, b: seq<byte>)
    ensures Ink(a + b) == Ink(a) + Ink(b)
  {
    if b == [] {
      assert a + b == a;
    } else {
      InkConcat(a, b[..|b| - 1]);
      assert (a + b)[..|a + b| - 1] == a + b[..|b| - 1];
    }
  }

  lemma {:induction false} InkOfBlank(s: seq<byte>)
    requires forall i :: 0 <= i < |s| ==> s[i] == SPACE || s[i] == NEWLINE
    ensures Ink(s) == []
  {
    if s != [] {
      InkOfBlank(s[..|s| - 1]);
    }
  }

  lemma InkUpTo(text: seq<byte>, a: nat, b: nat)
    requires a <= b <= |text|
    ensures Ink(text[..b]) == Ink(text[..a]) + Ink(text[a..b])
    ensures (forall i :: a <= i < b ==> text[i] == SPACE || text[i] == NEWLINE) ==> Ink(text[a..b]) == []
  {
    assert text[..b] == text[..a] + text[a..b];
    InkConcat(text[..a], text[a..b]);
    if forall i :: a <= i < b ==> text[i] == SPACE || text[i] == NEWLINE {
      InkOfBlank(text[a..b]);
    }
  }

  lemma InkOfLine(text: seq<byte>, width: int, line: seq<byte>, c: Cut)
    requires LineOk(text, width, line, c)
    ensures Ink(line) == Ink(text[c.start..c.end])
  {
    var lead := if c.cont then Indent(width) else [];
    InkConcat(lead, text[c.start..c.end]);
    InkOfBlank(lead);
  }

  /** The ink before a line's start is the ink before the end of the line before it. */
  lemma InkOfGap(text: seq<byte>, from: nat, to: nat, cont: bool)
    requires Gap(text, from, to, cont)
    ensures Ink(text[..to]) == Ink(text[..from])
  {
    InkUpTo(text, from, to);
  }

  lemma {:induction false} LinesKeepInk(text: seq<byte>, width: int, lines: seq<seq<byte>>, cuts: seq<Cut>)
    requires LinesOk(text, width, lines, cuts) && cuts != []
    ensures cuts[|cuts| - 1].end <= |text|
    ensures Ink(Concat(lines)) == Ink(text[..cuts[|cuts| - 1].end])
    decreases |cuts|
  {
    var n := |cuts| - 1;
    var c, before := cuts[n], Concat(lines[..n]);
    assert Ink(before) == Ink(text[..c.start]) by {
      if n > 0 {
        LinesKeepInk(text, width, lines[..n], cuts[..n]);
        InkOfGap(text, cuts[n - 1].end, c.start, c.cont);
      }
    }
    LineAdded(lines, n);
    InkConcat(before, lines[n]);
    InkOfLine(text, width, lines[n], c);
    InkUpTo(text, c.start, c.end);
  }

  lemma LineAdded(lines: seq<seq<byte>>, n: nat)
    requires n + 1 == |lines|
    ensures Concat(lines) == Concat(lines[..n]) + lines[n]
  {
    ConcatSnoc(lines[..n], lines[n]);
    assert lines == lines[..n] + [lines[n]];
  }

  /** Nothing is lost: the output lines and the input have the same bytes in the same order,
      spaces and newlines aside. */
  lemma NothingLost(text: seq<byte>, width: int, lines: seq<seq<byte>>, cuts: seq<Cut>)
    requires Layout(text, width, lines, cuts)
    ensures Ink(Concat(lines)) == Ink(text)
  {
    LinesKeepInk(text, width, lines, cuts);
    InkUpTo(text, cuts[|cuts| - 1].end, |text|);
    assert text[..|text|] == text;
  }

  // ---------------------------------------------------------- one run a segment

  function Newlines(s: seq<byte>): nat {
    if s == [] then 0 else Newlines(s[..|s| - 1]) + if s[|s| - 1] == 0x0A then 1 else 0
  }

  /** The number of lines that do not continue the line before them. */
  function RunCount(cuts: seq<Cut>): nat {
    if cuts == [] then 0 else RunCount(cuts[..|cuts| - 1]) + if cuts[|cuts| - 1].cont then 0 else 1
  }

  lemma {:induction false} NoNewlines(text: seq<byte>, a: nat, b: nat)
    requires a <= b <= |text| && forall i :: a <= i < b ==> text[i] != NEWLINE
    ensures Newlines(text[..b]) == Newlines(text[..a])
    decreases b
  {
    if a < b {
      assert text[..b][..b - 1] == text[..b - 1];
      NoNewlines(text, a, b - 1);
    }
  }

  lemma {:induction false} RunsMatchNewlines(text: seq<byte>, width: int, lines: seq<seq<byte>>, cuts: seq<Cut>)
    requires LinesOk(text, width, lines, cuts) && cuts != []
    ensures RunCount(cuts) == 1 + Newlines(text[..cuts[|cuts| - 1].end])
    decreases |cuts|
  {
    var n := |cuts| - 1;
    var c := cuts[n];
    NoNewlines(text, c.start, c.end);
    if n > 0 {
      RunsMatchNewlines(text, width, lines[..n], cuts[..n]);
      var before := cuts[n - 1].end;
      if c.cont {
        NoNewlines(text, before, c.start);
      } else {
        NoNewlines(text, before, c.start - 1);
        assert text[..c.start][..c.start - 1] == text[..c.start - 1];
      }
    } else {
      assert RunCount(cuts[..0]) == 0 && Newlines(text[..0]) == 0;
    }
  }

  /** The lines fall into runs, one nonempty run for each newline-separated segment. */
  lemma OneRunPerSegment(text: seq<byte>, width: int, lines: seq<seq<byte>>, cuts: seq<Cut>)
    requires Layout(text, width, lines, cuts)
    ensures !cuts[0].cont && RunCount(cuts) == 1 + Newlines(text)
  {
    RunsMatchNewlines(text, width, lines, cuts);
    NoNewlines(text, cuts[|cuts| - 1].end, |text|);
    assert text[..|text|] == text;
    FirstLineStartsRun(text, width, lines, cuts);
  }

  lemma {:induction false} FirstLineStartsRun(text: seq<byte>, width: int, lines: seq<seq<byte>>, cuts: seq<Cut>)
    requires LinesOk(text, width, lines, cuts) && cuts != []
    ensures !cuts[0].cont && cuts[0].start == 0
    decreases |cuts|
  {
    if |cuts| > 1 {
      FirstLineStartsRun(text, width, lines[..|cuts| - 1], cuts[..|cuts| - 1]);
    }
  }

  // ------------------------------------------------------------------- UTF-8

  /** The length of the character the bytes start with, zero if there is none: the grammar of
      section 4 of RFC 3629. */
  function CharLen(s: seq<byte>): nat {
    if s == [] then 0
    else if s[0] < 0x80 then 1
    else if 0xC2 <= s[0] <= 0xDF then
      if |s| >= 2 && Tail(s[1]) then 2 else 0
    else if 0xE0 <= s[0] <= 0xEF then
      if |s| >= 3 && Tail(s[1]) && Tail(s[2])
         && (s[0] == 0xE0 ==> s[1] >= 0xA0) && (s[0] == 0xED ==> s[1] <= 0x9F) then 3 else 0
    else if 0xF0 <= s[0] <= 0xF4 then
      if |s| >= 4 && Tail(s[1]) && Tail(s[2]) && Tail(s[3])
         && (s[0] == 0xF0 ==> s[1] >= 0x90) && (s[0] == 0xF4 ==> s[1] <= 0x8F) then 4 else 0
    else 0
  }

  predicate WellFormed(s: seq<byte>)
    decreases |s|
  {
    s == [] || (CharLen(s) > 0 && CharLen(s) <= |s| && WellFormed(s[CharLen(s)..]))
  }

  /** A position between two characters. */
  predicate Boundary(text: seq<byte>, p: nat) {
    p <= |text| && (p == |text| || !Tail(text[p]))
  }

  /** In well-formed text a character starts at the start and after every ASCII byte, and no
      four bytes in a row are inside characters. */
  lemma {:induction false} WellFormedFacts(s: seq<byte>, i: nat)
    requires WellFormed(s)
    ensures Boundary(s, 0)
    ensures i < |s| && s[i] < 0x80 ==> Boundary(s, i + 1)
    ensures i + 4 <= |s| ==> !(Tail(s[i]) && Tail(s[i + 1]) && Tail(s[i + 2]) && Tail(s[i + 3]))
    decreases |s|
  {
    if s != [] {
      var n := CharLen(s);
      WellFormedFacts(s[n..], 0);
      if i >= n {
        WellFormedFacts(s[n..], i - n);
      } else if i + 4 <= |s| && n < |s| {
        assert !Tail(s[n..][0]);
      }
    }
  }

  /** A cut line ends between two characters. */
  lemma EndIsBoundary(text: seq<byte>, width: int, c: Cut)
    requires GreedyCut(text, width, c)
    ensures Boundary(text, c.end)
  {
    var segEnd: nat :| Greedy(text, width, c, segEnd);
  }

  lemma StartIsBoundary(text: seq<byte>, cuts: seq<Cut>, at: nat, cont: bool)
    requires WellFormed(text) && Starts(text, cuts, at, cont) && at <= |text|
    requires cuts != [] ==> Boundary(text, cuts[|cuts| - 1].end)
    ensures Boundary(text, at)
  {
    WellFormedFacts(text, if at == 0 then 0 else at - 1);
  }

  lemma LineBoundaries(text: seq<byte>, width: int, lines: seq<seq<byte>>, cuts: seq<Cut>, i: nat)
    requires WellFormed(text) && LinesOk(text, width, lines, cuts) && i < |cuts|
    ensures Boundary(text, cuts[i].start) && Boundary(text, cuts[i].end)
  {
    LastCut(text, width, lines, cuts, i);
    if i > 0 {
      LastCut(text, width, lines, cuts, i - 1);
      EndIsBoundary(text, width, cuts[i - 1]);
    }
    hide LinesOk, WellFormed, GreedyCut, Boundary;
    EndIsBoundary(text, width, cuts[i]);
    StartIsBoundary(text, cuts[..i], cuts[i].start, cuts[i].cont);
  }

  /** No line starts or ends inside a multi-byte character. */
  lemma CharactersStayWhole(text: seq<byte>, width: int, lines: seq<seq<byte>>, cuts: seq<Cut>)
    requires WellFormed(text) && LinesOk(text, width, lines, cuts)
    ensures forall i :: 0 <= i < |cuts| ==> Boundary(text, cuts[i].start) && Boundary(text, cuts[i].end)
  {
    forall i | 0 <= i < |cuts| ensures Boundary(text, cuts[i].start) && Boundary(text, cuts[i].end) {
      LineBoundaries(text, width, lines, cuts, i);
    }
  }

  // ------------------------------------------------------------------- width

  /** The bytes after `p`, `n` of them, are all inside the character at `p`. */
  predicate LongChar(text: seq<byte>, p: nat, n: nat) {
    p + n < |text| && forall k :: p < k <= p + n ==> Tail(text[k])
  }

  /** No character is longer than `width` bytes. */
  ghost predicate CharsFit(text: seq<byte>, width: nat) {
    forall p: nat :: !LongChar(text, p, width)
  }

  lemma LineFits(text: seq<byte>, width: int, line: seq<byte>, c: Cut)
    requires width > 0 && LineOk(text, width, line, c) && GreedyCut(text, width, c)
    requires !LongChar(text, c.start, Reach(width, c.cont))
    ensures |line| <= width
  {
    var segEnd: nat :| Greedy(text, width, c, segEnd);
    if segEnd - c.start > Reach(width, c.cont) {
      var m: nat :| ChunkOk(text, c.start, segEnd, Reach(width, c.cont), m) && BreaksAt(text, c, segEnd, m);
      assert m <= Reach(width, c.cont);
    }
  }

  lemma LinesFit(text: seq<byte>, width: int, lines: seq<seq<byte>>, cuts: seq<Cut>)
    requires width > 0 && LinesOk(text, width, lines, cuts)
    requires forall p: nat, cont :: !LongChar(text, p, Reach(width, cont))
    ensures forall i :: 0 <= i < |lines| ==> |lines[i]| <= width
  {
    assert |lines| == |cuts|;
    hide LinesOk, LineOk, GreedyCut, Reach, LongChar;
    forall i | 0 <= i < |lines| ensures |lines[i]| <= width {
      LastCut(text, width, lines, cuts, i);
      LineFits(text, width, lines[i], cuts[i]);
    }
  }

  /** A byte inside a character is on some line. */
  lemma {:induction false} FindLine(text: seq<byte>, width: int, lines: seq<seq<byte>>, cuts: seq<Cut>, x: nat)
      returns (i: nat)
    requires LinesOk(text, width, lines, cuts) && cuts != [] && x < cuts[|cuts| - 1].end
    requires x < |text| && Tail(text[x])
    ensures i < |cuts| && cuts[i].start <= x < cuts[i].end && LineOk(text, width, lines[i], cuts[i])
    decreases |cuts|
  {
    var n := |cuts| - 1;
    if x >= cuts[n].start {
      return n;
    }
    i := FindLine(text, width, lines[..n], cuts[..n], x);
  }

  /** Width: well-formed text wraps to lines of at most `width` bytes, indent included,
      exactly when none of its characters is longer than that. */
  lemma WidthExactly(text: seq<byte>, width: int, lines: seq<seq<byte>>, cuts: seq<Cut>)
    requires width > 0 && WellFormed(text) && Layout(text, width, lines, cuts)
    ensures (forall i :: 0 <= i < |lines| ==> |lines[i]| <= width) <==> CharsFit(text, width)
  {
    if CharsFit(text, width) {
      forall p: nat, cont ensures !LongChar(text, p, Reach(width, cont)) {
        if width > 15 && p + 4 < |text| {
          WellFormedFacts(text, p + 1);
        }
        assert Reach(width, cont) == width || Reach(width, cont) >= 14;
      }
      LinesFit(text, width, lines, cuts);
    } else {
      var p: nat :| LongChar(text, p, width);
      assert Tail(text[p + 1]);
      var i := FindLine(text, width, lines, cuts, p + 1);
      CharactersStayWhole(text, width, lines, cuts);
      assert Boundary(text, cuts[i].start) && Boundary(text, cuts[i].end);
      assert cuts[i].start <= p && cuts[i].end > p + width;
      assert |lines[i]| > width;
    }
  }

  /** A width of four is enough for all well-formed text. */
  lemma FourBytesAreEnough(text: seq<byte>, width: int, lines: seq<seq<byte>>, cuts: seq<Cut>)
    requires width >= 4 && WellFormed(text) && Layout(text, width, lines, cuts)
    ensures forall i :: 0 <= i < |lines| ==> |lines[i]| <= width
  {
    forall p: nat ensures !LongChar(text, p, width) {
      if p + 4 < |text| {
        WellFormedFacts(text, p + 1);
      }
    }
    WidthExactly(text, width, lines, cuts);
  }
}
