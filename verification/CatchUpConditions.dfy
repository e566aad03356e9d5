/** What decides catch-up, as conditions on the leading peer's tables, and inputs that fail them. */
module CatchUpConditions {
  import opened Tables
  import opened DbSync
  import opened ReplicatedTables
  import opened MeshNetwork
  import opened PagedWalk
  import opened CatchUp
  import opened SyncRuns
  import opened SyncLimits
  import opened CutWalks

  /** B has the first `n` messages, `l` positions and `r` telemetry rows of A's, by time. */
  ghost predicate AtCuts(a: Tables, b: Tables, n: nat, l: nat, r: nat) {
    && n <= |Dated(a.messages, MessageTs)| && l <= |Dated(a.locations, LocationTs)|
    && r <= |Dated(a.telemetry, TelemetryTs)|
    && MarksOf(b) == Marks(ReaderAt(a.messages, MessageTs, PacketId, n), ReaderAt(a.locations, LocationTs, PlaceKey, l),
                           ReaderAt(a.telemetry, TelemetryTs, ReadingKey, r))
  }

  ghost function Texts(a: Tables): seq<Message> { Dated(a.messages, MessageTs) }
  ghost function Spots(a: Tables): seq<Location> { Dated(a.locations, LocationTs) }
  ghost function Readings(a: Tables): seq<Telemetry> { Dated(a.telemetry, TelemetryTs) }

  ghost predicate GetsTexts(a: Tables, b: Tables) {
    KeysOf(Texts(a), PacketId) <= LimitOf(a.messages, MessageTs, PacketId, MarksOf(b).texts).keys
  }

  ghost predicate GetsSpots(a: Tables, b: Tables) {
    KeysOf(Spots(a), PlaceKey) <= LimitOf(a.locations, LocationTs, PlaceKey, MarksOf(b).spots).keys
  }

  ghost predicate GetsReadings(a: Tables, b: Tables) {
    KeysOf(Readings(a), ReadingKey) <= LimitOf(a.telemetry, TelemetryTs, ReadingKey, MarksOf(b).readings).keys
  }

  lemma TableByTable(a: Tables, b: Tables)
    requires Leading(a) && SomeOf(b, a)
    ensures CanComplete(a, b) <==> GetsTexts(a, b) && GetsSpots(a, b) && GetsReadings(a, b)
  {
    CatchUpExactly(a, b);
  }

  // ----------------------------------------- positions and telemetry never hold up

  lemma DistinctIsOneRow<T(!new), K(!new)>(rows: seq<T>, key: T -> K)
    requires DistinctBy(rows, key)
    ensures OneRow(rows, key)
  {
    forall x, y | x in rows && y in rows && x != y ensures key(x) != key(y) {
      var i :| 0 <= i < |rows| && rows[i] == x;
      var j :| 0 <= j < |rows| && rows[j] == y;
      if i < j { assert key(rows[i]) != key(rows[j]); } else { assert key(rows[j]) != key(rows[i]); }
    }
  }

  lemma SpotsSettle(a: Tables, b: Tables)
    requires SomeOf(b, a) && DistinctBy(a.locations, PlaceKey)
    ensures RowsAfter(a.locations, LocationTs, LimitMarks(a, MarksOf(b)).spots.cursor) == []
  {
    DistinctIsOneRow(a.locations, PlaceKey);
    MaxTsBounds(b.locations, LocationTs);
    hide MaxTs;
    forall x | x in a.locations && PlaceKey(x) in KeysOf(b.locations, PlaceKey)
      ensures LocationTs(x) <= MaxTs(b.locations, LocationTs)
    {
      var i := RowOfKey(b.locations, PlaceKey, PlaceKey(x));
      assert b.locations[i] in b.locations && LocationTs(b.locations[i]) == LocationTs(x);
    }
    OneRowSettles(a.locations, LocationTs, PlaceKey, MarksOf(b).spots);
  }

  lemma ReadingsSettle(a: Tables, b: Tables)
    requires Leading(a) && SomeOf(b, a)
    ensures RowsAfter(a.telemetry, TelemetryTs, LimitMarks(a, MarksOf(b)).readings.cursor) == []
  {
    MaxTsBounds(b.telemetry, TelemetryTs);
    hide MaxTs;
    forall x, y | x in a.telemetry && y in a.telemetry && ReadingKey(x) == ReadingKey(y) ensures x == y {
      SameRow(a.telemetry, x, y);
    }
    forall x | x in a.telemetry && ReadingKey(x) in KeysOf(b.telemetry, ReadingKey)
      ensures TelemetryTs(x) <= MaxTs(b.telemetry, TelemetryTs)
    {
      var i := RowOfKey(b.telemetry, ReadingKey, ReadingKey(x));
      assert b.telemetry[i] in b.telemetry;
    }
    OneRowSettles(a.telemetry, TelemetryTs, ReadingKey, MarksOf(b).readings);
  }

  lemma TextsUpToDate(a: Tables, b: Tables)
    requires SomeOf(b, a) && DistinctBy(a.messages, PacketId)
    ensures OneRow(a.messages, PacketId) && UpToDate(a.messages, MessageTs, PacketId, MarksOf(b).texts)
  {
    DistinctIsOneRow(a.messages, PacketId);
    MaxTsBounds(b.messages, MessageTs);
    hide MaxTs;
    forall x | x in a.messages && PacketId(x) in KeysOf(b.messages, PacketId)
      ensures MessageTs(x) <= MaxTs(b.messages, MessageTs)
    {
      var i := RowOfKey(b.messages, PacketId, PacketId(x));
      assert b.messages[i] in b.messages;
      var j := RowOfKey(a.messages, Content, Content(b.messages[i]));
      assert a.messages[j] in a.messages && Content(a.messages[j]) == Content(b.messages[i]);
      assert PacketId(a.messages[j]) == PacketId(x);
    }
  }

  lemma TextsSettle(a: Tables, b: Tables)
    requires SomeOf(b, a) && DistinctBy(a.messages, PacketId)
    ensures RowsAfter(a.messages, MessageTs, LimitMarks(a, MarksOf(b)).texts.cursor) == []
  {
    TextsUpToDate(a, b);
    OneRowSettles(a.messages, MessageTs, PacketId, MarksOf(b).texts);
  }

  /** Only repeated packet ids can keep syncs going without anything new. */
  lemma OnlyTextsHoldUp(a: Tables, b: Tables)
    requires Leading(a) && SomeOf(b, a) && DistinctBy(a.locations, PlaceKey)
    ensures Settles(a, b) <==> !More(a.messages, MessageTs, LimitMarks(a, MarksOf(b)).texts.cursor)
  {
    SettlesExactly(a, b);
    SpotsSettle(a, b);
    ReadingsSettle(a, b);
  }

  lemma DistinctReadings(rows: seq<Telemetry>)
    requires OneRowPerKey(rows)
    ensures DistinctBy(rows, ReadingKey)
  {
    forall i, j | 0 <= i < j < |rows| ensures ReadingKey(rows[i]) != ReadingKey(rows[j]) {
      assert !SameReading(rows[i], rows[j]);
    }
  }

  lemma SpotsByTies(a: Tables, b: Tables, n: nat, l: nat, r: nat)
    requires AtCuts(a, b, n, l, r) && DistinctBy(a.locations, PlaceKey)
    ensures GetsSpots(a, b) <==> CleanFrom(Spots(a), LocationTs, l)
  {
    RowsAfterDistinct(a.locations, LocationTs, 0, PlaceKey);
    TiesExactly(a.locations, LocationTs, PlaceKey, l);
  }

  lemma ReadingsByTies(a: Tables, b: Tables, n: nat, l: nat, r: nat)
    requires Leading(a) && AtCuts(a, b, n, l, r)
    ensures GetsReadings(a, b) <==> CleanFrom(Readings(a), TelemetryTs, r)
  {
    DistinctReadings(a.telemetry);
    RowsAfterDistinct(a.telemetry, TelemetryTs, 0, ReadingKey);
    TiesExactly(a.telemetry, TelemetryTs, ReadingKey, r);
  }

  // ------------------------------------------------------------- the conditions

  /** With distinct timestamps in each table: B can get every row exactly when no twenty
      consecutive messages repeat earlier packet ids before a new one, and syncs settle
      exactly when no twenty consecutive messages do so before any other message. */
  lemma RepeatsDecide(a: Tables, b: Tables, n: nat, l: nat, r: nat)
    requires Leading(a) && SomeOf(b, a) && DistinctBy(a.locations, PlaceKey) && AtCuts(a, b, n, l, r)
    requires Increasing(Texts(a), MessageTs) && Increasing(Spots(a), LocationTs) && Increasing(Readings(a), TelemetryTs)
    ensures CanComplete(a, b) <==> !Blocked(Texts(a), PacketId, n)
    ensures Settles(a, b) <==> !RepeatsOn(Texts(a), PacketId, n)
  {
    hide Dated, Increasing, CanComplete, Settles, Blocked, RepeatsOn;
    TableByTable(a, b);
    OnlyTextsHoldUp(a, b);
    RepeatsExactly(a.messages, MessageTs, PacketId, n);
    IncreasingIsClean(Spots(a), LocationTs, l);
    IncreasingIsClean(Readings(a), TelemetryTs, r);
    SpotsByTies(a, b, n, l, r);
    ReadingsByTies(a, b, n, l, r);
  }

  /** With one row a packet id: B can get every row exactly when in no table a page boundary
      falls between two rows with one timestamp, and syncs settle. */
  lemma TiesDecide(a: Tables, b: Tables, n: nat, l: nat, r: nat)
    requires Leading(a) && SomeOf(b, a) && DistinctBy(a.locations, PlaceKey) && AtCuts(a, b, n, l, r)
    requires DistinctBy(a.messages, PacketId)
    ensures CanComplete(a, b) <==>
              && CleanFrom(Texts(a), MessageTs, n)
              && CleanFrom(Spots(a), LocationTs, l)
              && CleanFrom(Readings(a), TelemetryTs, r)
    ensures Settles(a, b)
  {
    hide CanComplete, Settles, CleanFrom;
    TableByTable(a, b);
    OnlyTextsHoldUp(a, b);
    TextsSettle(a, b);
    SpotsByTies(a, b, n, l, r);
    ReadingsByTies(a, b, n, l, r);
    RowsAfterDistinct(a.messages, MessageTs, 0, PacketId);
    TiesExactly(a.messages, MessageTs, PacketId, n);
  }

  // ---------------------------------------------------------------- inputs that fail

  function Text(id: nat, ts: nat): Message {
    Message("radio", "channel", 0, "in", 7, 0, 0, "text", ts, id, "", NO_SIGNAL, 0, 0)
  }

  lemma NewPeer(a: Tables)
    ensures SomeOf(NOTHING, a) && AtCuts(a, NOTHING, 0, 0, 0)
  {
    assert Texts(a)[..0] == [] && Spots(a)[..0] == [] && Readings(a)[..0] == [];
  }

  /** Twenty messages, each heard again through a second radio, then one more. */
  function HeardTwice(): Tables {
    Tables(HeardRows(41), [], [])
  }

  function HeardRows(n: nat): (s: seq<Message>)
    ensures |s| == n && forall i :: 0 <= i < n ==> s[i] == Text(HeardId(i), i + 1)
  {
    seq(n, i requires 0 <= i < n => Text(HeardId(i), i + 1))
  }

  function HeardId(i: nat): nat {
    if i < 20 then i + 1 else if i < 40 then i - 19 else 21
  }

  lemma HeardTwiceRows()
    ensures var s := HeardTwice().messages;
            && |s| == 41 && (forall i :: 0 <= i < 41 ==> s[i].ts == i + 1)
            && (forall i :: 0 <= i < 20 ==> s[i].packetId == i + 1)
            && (forall i :: 20 <= i < 40 ==> s[i].packetId == i - 19) && s[40].packetId == 21
  {
  }

  lemma HeardTwiceRepeats()
    ensures var s := HeardTwice().messages; Repeats(s, PacketId, 20) && |s| == 41 && NewAt(s, PacketId, 40)
  {
    HeardTwiceRows();
    hide HeardTwice;
    var s := HeardTwice().messages;
    forall i | 20 <= i < 40 ensures !NewAt(s, PacketId, i) {
      KeyOfRow(s[..i], PacketId, i - 20);
      assert PacketId(s[..i][i - 20]) == PacketId(s[i]);
    }
    forall x | x in s[..40] ensures PacketId(x) != 21 {
      var i :| 0 <= i < 40 && s[..40][i] == x;
      assert s[i].packetId == if i < 20 then i + 1 else i - 19;
    }
    NotAmong(s[..40], PacketId, 21);
  }

  lemma HeardTwiceSorted()
    ensures var s := HeardTwice().messages;
            Increasing(s, MessageTs) && Sorted(s, MessageTs) && (forall i :: 0 <= i < |s| ==> MessageTs(s[i]) > 0)
  {
    HeardTwiceRows();
    hide HeardTwice, HeardRows, HeardId;
  }

  lemma HeardTwiceLeads()
    ensures var a := HeardTwice(); Leading(a) && a.locations == [] && a.telemetry == []
  {
    HeardTwiceRows();
    forall m | m in HeardTwice().messages ensures m.packetId != 0 {
      var i :| 0 <= i < 41 && HeardTwice().messages[i] == m;
    }
  }

  lemma HeardTwiceDated()
    ensures var a := HeardTwice();
            Leading(a) && Texts(a) == a.messages && Increasing(a.messages, MessageTs)
            && a.locations == [] && a.telemetry == []
  {
    HeardTwiceSorted();
    HeardTwiceLeads();
    hide HeardTwice, Increasing, Leading, Sorted;
    DatedSorted(HeardTwice().messages, MessageTs);
  }

  /** A new peer never gets the last message, and asks for the same page for ever. */
  lemma HeardTwiceNeverEnds()
    ensures Leading(HeardTwice()) && !CanComplete(HeardTwice(), NOTHING) && !Settles(HeardTwice(), NOTHING)
  {
    HeardTwiceDated();
    HeardTwiceRepeats();
    hide HeardTwice, CanComplete, Settles, Repeats, NewAt;
    var a := HeardTwice();
    NewPeer(a);
    assert Repeats(Texts(a), PacketId, 20) && NewAt(Texts(a), PacketId, 40);
    RepeatsDecide(a, NOTHING, 0, 0, 0);
  }

  /** A page with nothing new and no telemetry, but with more behind it: two deliveries later
      everything is as it was. */
  lemma RoundRepeats(a: Tables, b: Tables, p: Payload)
    requires Leading(a) && SomeOf(b, a) && Round(a, MarksOf(b)) == MarksOf(b)
    requires PageFor(a, MarksOf(b)) == [p] && p.Data? && p.hasMore && p.telemetry == []
    ensures var start := Pair(a, b, [InventoryOf(b)], []);
            && CanTurn(Exchange(start, ToA), ToB)
            && Exchange(Exchange(start, ToA), ToB) == start
  {
    hide SomeOf, PageFor, Fed, Leading, Round, MarksOf, Sent, After, Asks, MaxTs, NewTexts, NewSpots, InventoryOf;
    var start := Pair(a, b, [InventoryOf(b)], []);
    FirstAsk(a, b);
    AlikeAtFirst(a, b);
    assert Exchange(start, ToA) == Pair(a, b, [], [p]);
    PageHandled(a, b, MarksOf(b), p);
    assert Past(a, MarksOf(b), b);
    OldPageMarks(a, b, MarksOf(b));
    assert Replies(a, b, MarksOf(b), p) == [InventoryOf(b)];
    assert Exchange(Pair(a, b, [], [p]), ToB) == start;
  }

  lemma FirstAsk(a: Tables, b: Tables)
    requires SomeOf(b, a)
    ensures After(a, InventoryOf(b)) == a && Sent(a, InventoryOf(b)) == PageFor(a, MarksOf(b))
  {
    NotAhead(b, a);
    AskAnswered(a, MarksOf(b), InventoryOf(b));
  }

  /** Messages that all came in the same second. */
  function Burst(count: nat): Tables {
    Tables(BurstRows(count), [], [])
  }

  function BurstRows(count: nat): (s: seq<Message>)
    ensures |s| == count && forall i :: 0 <= i < count ==> s[i] == Text(i + 1, 1)
  {
    seq(count, i requires 0 <= i < count => Text(i + 1, 1))
  }

  lemma BurstDated(count: nat)
    ensures var a := Burst(count);
            Leading(a) && Texts(a) == a.messages && DistinctBy(a.messages, PacketId)
            && a.locations == [] && a.telemetry == []
  {
    var a := Burst(count);
    hide BurstRows;
    DatedSorted(a.messages, MessageTs);
  }

  /** A new peer never gets all of a burst that does not fit one page. */
  lemma BurstIsNeverComplete(count: nat)
    requires count > PAGE
    ensures Leading(Burst(count)) && !CanComplete(Burst(count), NOTHING) && Settles(Burst(count), NOTHING)
  {
    BurstDated(count);
    hide Dated, CanComplete, Settles, BurstRows;
    var a := Burst(count);
    NewPeer(a);
    assert !CleanCut(Texts(a), MessageTs, CutAfter(Texts(a), 0, 1));
    TiesDecide(a, NOTHING, 0, 0, 0);
  }

  /** Rows without a timestamp are on no page, whatever the cursors. */
  lemma TimelessRowsAreNeverPaged(t: Tables, m: nat, l: nat, s: nat)
    ensures forall p :: p in PageAfter(t, m, l, s) ==>
              && (forall x :: x in p.messages ==> x.ts > 0)
              && (forall x :: x in p.locations ==> x.ts > 0)
              && (forall x :: x in p.telemetry ==> x.ts > 0)
  {
    var w := Marks(Mark({}, m), Mark({}, l), Mark({}, s));
    PageRows(t.messages, MessageTs, m);
    PageRows(t.locations, LocationTs, l);
    PageRows(t.telemetry, TelemetryTs, s);
    forall p | p in PageAfter(t, m, l, s)
      ensures (forall x :: x in p.messages ==> x.ts > 0) && (forall x :: x in p.locations ==> x.ts > 0)
           && (forall x :: x in p.telemetry ==> x.ts > 0)
    {
      assert PageFor(t, w) == [p];
      PageContents(t, w, p);
      hide PageFor, PageAt;
      PagedTs(PageAt(t.messages, MessageTs, m), m);
      assert forall x :: x in p.locations ==> LocationTs(x) > l;
      assert forall x :: x in p.telemetry ==> TelemetryTs(x) > s;
    }
  }

  lemma PagedTs(rows: seq<Message>, m: nat)
    requires forall x :: x in rows ==> MessageTs(x) > m
    ensures forall x :: x in Map(Paged, rows) ==> x.ts > m
  {
    forall x | x in Map(Paged, rows) ensures x.ts > m {
      var i :| 0 <= i < |rows| && Map(Paged, rows)[i] == x;
      assert rows[i] in rows;
    }
  }

  // ------------------------------------------------------------- a push overtakes

  /** A stores one more message and pushes it. */
  function WithNew(a: Tables, x: Message): Tables {
    a.(messages := a.messages + [x])
  }

  lemma PushTaken(a: Tables, b: Tables, x: Message)
    requires Leading(a) && SomeOf(b, a) && x.packetId != 0 && !HasPacket(b.messages, x.packetId)
    ensures var c := After(b, PushMessage(x));
            && c == b.(messages := b.messages + [DbSync.Pushed(x)])
            && Leading(WithNew(a, x)) && SomeOf(c, WithNew(a, x))
            && MarksOf(c).texts == Mark(MarksOf(b).texts.keys + {x.packetId}, Later(MarksOf(b).texts.cursor, x.ts))
  {
    var y := DbSync.Pushed(x);
    assert NewMessages(b.messages, [y]) == [y] by { assert [y][1..] == []; }
    assert b.locations + [] == b.locations;
    KeysConcat(a.messages, [x], Content);
    KeysConcat(b.messages, [y], PacketId);
    MaxConcat(b.messages, [y], MessageTs);
    OneMax(y, MessageTs);
    assert [y][..0] == [] && [x][..0] == [];
  }

  /** A live push that is newer than everything A has overtakes catch-up: B can get every
      message exactly when the push was the only one it lacked.  The other tables are as before. */
  lemma LivePushOvertakes(a: Tables, b: Tables, x: Message)
    requires Leading(a) && SomeOf(b, a) && x.packetId != 0 && !HasPacket(b.messages, x.packetId)
    requires x.ts > 0 && forall m :: m in a.messages ==> m.ts <= x.ts
    ensures GetsTexts(WithNew(a, x), After(b, PushMessage(x)))
            <==> KeysOf(Texts(a), PacketId) <= KeysOf(b.messages, PacketId) + {x.packetId}
    ensures CanComplete(WithNew(a, x), After(b, PushMessage(x)))
            <==> && KeysOf(Texts(a), PacketId) <= KeysOf(b.messages, PacketId) + {x.packetId}
                 && GetsSpots(a, b) && GetsReadings(a, b)
  {
    var a', c := WithNew(a, x), After(b, PushMessage(x));
    PushTaken(a, b, x);
    var w := MarksOf(c).texts;
    NothingNewer(a'.messages, w.cursor, x.ts);
    NoRowsBehind(a'.messages, MessageTs, PacketId, w);
    assert LimitOf(a'.messages, MessageTs, PacketId, w) == w;
    KeysWithNew(a, x);
    TableByTable(a', c);
  }

  lemma NothingNewer(rows: seq<Message>, cursor: nat, ts: nat)
    requires ts <= cursor && forall m :: m in rows ==> m.ts <= ts
    ensures RowsAfter(rows, MessageTs, cursor) == []
  {
    MaxTsBounds(rows, MessageTs);
    MaxBeyond(rows, MessageTs, cursor);
  }

  lemma KeysWithNew(a: Tables, x: Message)
    requires x.ts > 0
    ensures KeysOf(Texts(WithNew(a, x)), PacketId) == KeysOf(Texts(a), PacketId) + {x.packetId}
  {
    var s, t := Texts(a), Texts(WithNew(a, x));
    forall k ensures k in KeysOf(t, PacketId) <==> k in KeysOf(s, PacketId) + {x.packetId} {
      if k in KeysOf(t, PacketId) {
        var i := RowOfKey(t, PacketId, k);
        RowsAfterHas(WithNew(a, x).messages, MessageTs, 0, t[i]);
        RowsAfterHas(a.messages, MessageTs, 0, t[i]);
        if t[i] in a.messages { KeyOfMember(s, PacketId, t[i]); }
      }
      if k in KeysOf(s, PacketId) {
        var i := RowOfKey(s, PacketId, k);
        RowsAfterHas(a.messages, MessageTs, 0, s[i]);
        RowsAfterHas(WithNew(a, x).messages, MessageTs, 0, s[i]);
        KeyOfMember(t, PacketId, s[i]);
      }
      RowsAfterHas(WithNew(a, x).messages, MessageTs, 0, x);
      KeyOfMember(t, PacketId, x);
    }
  }
}
