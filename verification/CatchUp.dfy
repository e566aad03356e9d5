/** A peer that lags and a peer that leads: what each delivery between them does.

    B's rows are some of A's.  A's tables may hold several rows of one packet id, as it
    stores a packet again that a second radio hears, and any telemetry.  What B has is
    summed up by a mark for each table, its keys and its newest timestamp, and a page from A
    advances the marks as a walk through A's tables does. */
module CatchUp {
  import opened Tables
  import opened DbSync
  import opened ReplicatedTables
  import opened MeshNetwork
  import opened PagedWalk

  /** A's and B's tables, and the payloads on their way to each. */
  datatype Pair = Pair(a: Tables, b: Tables, toA: seq<Payload>, toB: seq<Payload>)

  datatype Turn = ToA | ToB

  predicate CanTurn(p: Pair, turn: Turn) {
    if turn.ToA? then p.toA != [] else p.toB != []
  }

  /** One payload arrives and is handled. */
  function Exchange(p: Pair, turn: Turn): Pair
    requires CanTurn(p, turn)
  {
    if turn.ToA? then
      Pair(After(p.a, p.toA[0]), p.b, p.toA[1..], p.toB + Sent(p.a, p.toA[0]))
    else
      Pair(p.a, After(p.b, p.toB[0]), p.toA + Sent(p.b, p.toB[0]), p.toB[1..])
  }

  function PacketId(m: Message): nat { m.packetId }

  /** The leading peer: messages have packet ids, and telemetry has one row a key, as
      inserting keeps it. */
  ghost predicate Leading(a: Tables) {
    (forall m :: m in a.messages ==> m.packetId != 0) && OneRowPerKey(a.telemetry)
  }

  /** The metrics of the one are among those of the other. */
  predicate PartOf(m: map<Metric, real>, n: map<Metric, real>) {
    forall k :: k in m ==> k in n && n[k] == m[k]
  }

  /** Some row has the key, and at least the metrics. */
  ghost predicate HasReading(rows: seq<Telemetry>, t: Telemetry) {
    exists x :: x in rows && SameReading(x, t) && PartOf(t.metrics, x.metrics)
  }

  /** B's rows are some of A's: messages up to the columns that are not replicated, positions
      by their keys, and telemetry rows that A may have been given more metrics for. */
  ghost predicate SomeOf(b: Tables, a: Tables) {
    && (forall m :: m in b.messages ==> m.packetId != 0 && Content(m) in KeysOf(a.messages, Content))
    && (forall l :: l in b.locations ==> PlaceKey(l) in KeysOf(a.locations, PlaceKey))
    && (forall t :: t in b.telemetry ==> HasReading(a.telemetry, t))
    && OneRowPerKey(b.telemetry)
  }

  /** B's telemetry rows newer than a cursor are A's, with all their metrics. */
  ghost predicate NewerAlike(b: Tables, a: Tables, cursor: nat) {
    forall t :: t in b.telemetry && t.ts > cursor ==> t in a.telemetry
  }

  /** What a peer has of each table. */
  datatype Marks = Marks(texts: Mark<nat>, spots: Mark<Key>, readings: Mark<(string, nat, nat)>)

  ghost function MarksOf(t: Tables): Marks {
    Marks(MarkOf(t.messages, MessageTs, PacketId), MarkOf(t.locations, LocationTs, PlaceKey),
          MarkOf(t.telemetry, TelemetryTs, ReadingKey))
  }

  /** The marks after one page. */
  ghost function Round(a: Tables, w: Marks): Marks {
    Marks(Advance(a.messages, MessageTs, PacketId, w.texts), Advance(a.locations, LocationTs, PlaceKey, w.spots),
          Advance(a.telemetry, TelemetryTs, ReadingKey, w.readings))
  }

  /** The page a peer sends to a reader with these marks: none or one payload. */
  ghost function PageFor(a: Tables, w: Marks): seq<Payload> {
    PageAfter(a, w.texts.cursor, w.spots.cursor, w.readings.cursor)
  }

  /** The inventory or the request of a reader with these marks. */
  predicate Asks(p: Payload, w: Marks) {
    || p == Inventory(w.texts.cursor, w.spots.cursor, w.readings.cursor)
    || p == Request(w.texts.cursor, w.spots.cursor, w.readings.cursor)
  }

  // -------------------------------------------------------------- A's answers

  /** Nothing B has is newer than what A has. */
  lemma NotAhead(b: Tables, a: Tables)
    requires SomeOf(b, a)
    ensures MaxTs(b.messages, MessageTs) <= MaxTs(a.messages, MessageTs)
    ensures MaxTs(b.locations, LocationTs) <= MaxTs(a.locations, LocationTs)
    ensures MaxTs(b.telemetry, TelemetryTs) <= MaxTs(a.telemetry, TelemetryTs)
  {
    forall m | m in b.messages ensures exists x :: x in a.messages && MessageTs(x) == MessageTs(m) {
      var i := RowOfKey(a.messages, Content, Content(m));
      assert a.messages[i] in a.messages && MessageTs(a.messages[i]) == Content(m).ts;
    }
    forall l | l in b.locations ensures exists x :: x in a.locations && LocationTs(x) == LocationTs(l) {
      var i := RowOfKey(a.locations, PlaceKey, PlaceKey(l));
      assert a.locations[i] in a.locations && LocationTs(a.locations[i]) == LocationTs(l);
    }
    forall t | t in b.telemetry ensures exists x :: x in a.telemetry && TelemetryTs(x) == TelemetryTs(t) {
      var x :| x in a.telemetry && SameReading(x, t) && PartOf(t.metrics, x.metrics);
      assert TelemetryTs(x) == TelemetryTs(t);
    }
    MaxWithin(b.messages, a.messages, MessageTs);
    MaxWithin(b.locations, a.locations, LocationTs);
    MaxWithin(b.telemetry, a.telemetry, TelemetryTs);
  }

  /** A page is empty exactly when nothing is newer than the cursors. */
  lemma EmptyPage(a: Tables, m: nat, l: nat, s: nat)
    ensures PageAfter(a, m, l, s) == [] <==>
              && MaxTs(a.messages, MessageTs) <= m && MaxTs(a.locations, LocationTs) <= l
              && MaxTs(a.telemetry, TelemetryTs) <= s
  {
    MaxBeyond(a.messages, MessageTs, m);
    MaxBeyond(a.locations, LocationTs, l);
    MaxBeyond(a.telemetry, TelemetryTs, s);
  }

  /** A answers cursors with the next page, whether they came as inventory or as request. */
  lemma AskAnswered(a: Tables, w: Marks, p: Payload)
    requires Asks(p, w)
    requires w.texts.cursor <= MaxTs(a.messages, MessageTs) && w.spots.cursor <= MaxTs(a.locations, LocationTs)
    requires w.readings.cursor <= MaxTs(a.telemetry, TelemetryTs)
    ensures After(a, p) == a && Sent(a, p) == PageFor(a, w)
  {
    EmptyPage(a, w.texts.cursor, w.spots.cursor, w.readings.cursor);
    hide MaxTs, PageAfter;
    assert [] + PageFor(a, w) == PageFor(a, w);
  }

  /** B answers A's inventory with its cursors, unless nothing of A's is newer. */
  lemma AnnounceAnswered(a: Tables, b: Tables)
    requires SomeOf(b, a)
    ensures After(b, InventoryOf(a)) == b
    ensures var out := Sent(b, InventoryOf(a));
            if PageFor(a, MarksOf(b)) == [] then out == [] else |out| == 1 && Asks(out[0], MarksOf(b))
  {
    NotAhead(b, a);
    EmptyPage(a, MarksOf(b).texts.cursor, MarksOf(b).spots.cursor, MarksOf(b).readings.cursor);
    hide MaxTs, PageAfter, SomeOf;
  }

  // ----------------------------------------------------------- a page arrives

  lemma HasPacketKey(rows: seq<Message>, id: nat)
    ensures HasPacket(rows, id) <==> id in KeysOf(rows, PacketId)
  {
    if HasPacket(rows, id) {
      var m :| m in rows && m.packetId == id;
      KeyOfMember(rows, PacketId, m);
    }
    if id in KeysOf(rows, PacketId) {
      var i := RowOfKey(rows, PacketId, id);
      assert rows[i] in rows;
    }
  }

  lemma HasPlaceKey(rows: seq<Location>, l: Location)
    ensures HasPlace(rows, l) <==> PlaceKey(l) in KeysOf(rows, PlaceKey)
  {
    if HasPlace(rows, l) {
      var r :| r in rows && SamePlace(r, l);
      KeyOfMember(rows, PlaceKey, r);
    }
    if PlaceKey(l) in KeysOf(rows, PlaceKey) {
      var i := RowOfKey(rows, PlaceKey, PlaceKey(l));
      assert rows[i] in rows;
    }
  }

  /** The messages stored from a page are its new ones. */
  lemma {:induction false} FreshMessages(rows: seq<Message>, page: seq<Message>)
    requires forall m :: m in page ==> m.packetId != 0
    ensures NewMessages(rows, Map(Paged, page)) == Map(Paged, Fresh(page, PacketId, KeysOf(rows, PacketId)))
    decreases |page|
  {
    var known := KeysOf(rows, PacketId);
    if page == [] {
      assert Map(Paged, page) == [];
    } else {
      var m := Paged(page[0]);
      assert Map(Paged, page)[0] == m && Map(Paged, page)[1..] == Map(Paged, page[1..]);
      HasPacketKey(rows, m.packetId);
      assert page[0] in page;
      if HasPacket(rows, m.packetId) {
        FreshMessages(rows, page[1..]);
      } else {
        FreshMessages(rows + [m], page[1..]);
        assert (rows + [m])[..|rows|] == rows;
        var rest := Fresh(page[1..], PacketId, known + {m.packetId});
        assert Map(Paged, [page[0]] + rest) == [m] + Map(Paged, rest);
      }
    }
  }

  lemma {:induction false} FreshLocations(rows: seq<Location>, page: seq<Location>)
    ensures NewLocations(rows, page) == Fresh(page, PlaceKey, KeysOf(rows, PlaceKey))
    decreases |page|
  {
    if page != [] {
      HasPlaceKey(rows, page[0]);
      if HasPlace(rows, page[0]) {
        FreshLocations(rows, page[1..]);
      } else {
        FreshLocations(rows + [page[0]], page[1..]);
        assert (rows + [page[0]])[..|rows|] == rows;
      }
    }
  }

  /** Rows of a table with one row a key are equal when their keys are. */
  lemma SameRow(rows: seq<Telemetry>, x: Telemetry, y: Telemetry)
    requires OneRowPerKey(rows) && x in rows && y in rows && SameReading(x, y)
    ensures x == y
  {
    var i :| 0 <= i < |rows| && rows[i] == x;
    var j :| 0 <= j < |rows| && rows[j] == y;
    assert SameReading(rows[i], rows[j]) && SameReading(rows[j], rows[i]);
  }

  /** Storing a row that is there already changes nothing. */
  lemma StoredAgain(rows: seq<Telemetry>, t: Telemetry)
    requires OneRowPerKey(rows) && t in rows
    ensures WithTelemetry(rows, t) == rows
  {
    var i := FindReading(rows, t);
    var j :| 0 <= j < |rows| && rows[j] == t;
    assert SameReading(rows[j], t);
    SameRow(rows, rows[i], t);
    assert t.metrics + t.metrics == t.metrics;
  }

  /** A row is stored as it is, or is there already. */
  lemma StoredFresh(rows: seq<Telemetry>, t: Telemetry)
    requires OneRowPerKey(rows) && forall r :: r in rows && SameReading(r, t) ==> r == t
    ensures OneRowPerKey(WithTelemetry(rows, t))
    ensures WithTelemetry(rows, t) == if ReadingKey(t) in KeysOf(rows, ReadingKey) then rows else rows + [t]
  {
    FoundExactly(rows, t);
    StoredOncePerKey(rows, t);
    var i := FindReading(rows, t);
    if i < |rows| {
      StoredAgain(rows, t);
    }
  }

  /** No row differs from a row of the page with its key. */
  ghost predicate Agree(rows: seq<Telemetry>, page: seq<Telemetry>) {
    forall r, t :: (r in rows || r in page) && t in page && SameReading(r, t) ==> r == t
  }

  lemma AgreeNext(rows: seq<Telemetry>, page: seq<Telemetry>)
    requires Agree(rows, page) && page != []
    ensures Agree(rows, page[1..]) && Agree(rows + [page[0]], page[1..])
    ensures forall r :: r in rows && SameReading(r, page[0]) ==> r == page[0]
  {
    assert page[0] in page;
  }

  /** Rows and a page that agree: merging the page adds what is new. */
  lemma {:induction false} MergeFresh(rows: seq<Telemetry>, page: seq<Telemetry>)
    requires OneRowPerKey(rows) && Agree(rows, page)
    ensures MergeTelemetry(rows, page) == rows + Fresh(page, ReadingKey, KeysOf(rows, ReadingKey))
    ensures OneRowPerKey(MergeTelemetry(rows, page))
    decreases |page|
  {
    hide OneRowPerKey, WithTelemetry, Agree;
    if page != [] {
      var t := page[0];
      AgreeNext(rows, page);
      StoredFresh(rows, t);
      if ReadingKey(t) in KeysOf(rows, ReadingKey) {
        MergeFresh(rows, page[1..]);
      } else {
        MergeFresh(rows + [t], page[1..]);
        assert (rows + [t])[..|rows|] == rows;
        var rest := Fresh(page[1..], ReadingKey, KeysOf(rows, ReadingKey) + {ReadingKey(t)});
        assert (rows + [t]) + rest == rows + ([t] + rest);
      }
    }
  }

  // What B takes in from a page.

  ghost function NewTexts(a: Tables, b: Tables, w: Marks): seq<Message> {
    Map(Paged, Fresh(PageAt(a.messages, MessageTs, w.texts.cursor), PacketId, KeysOf(b.messages, PacketId)))
  }

  ghost function NewSpots(a: Tables, b: Tables, w: Marks): seq<Location> {
    Fresh(PageAt(a.locations, LocationTs, w.spots.cursor), PlaceKey, KeysOf(b.locations, PlaceKey))
  }

  ghost function NewReadings(a: Tables, b: Tables, w: Marks): seq<Telemetry> {
    Fresh(PageAt(a.telemetry, TelemetryTs, w.readings.cursor), ReadingKey, KeysOf(b.telemetry, ReadingKey))
  }

  ghost function Fed(a: Tables, b: Tables, w: Marks): Tables {
    Tables(b.messages + NewTexts(a, b, w), b.locations + NewSpots(a, b, w), b.telemetry + NewReadings(a, b, w))
  }

  /** What B sends on a page: pushes of what was new, all telemetry rows again, and a new
      inventory when there was more. */
  ghost function Replies(a: Tables, b: Tables, w: Marks, p: Payload): seq<Payload>
    requires p.Data?
  {
    Map(PushMessage, NewTexts(a, b, w)) + Map(PushLocation, NewSpots(a, b, w)) + Map(PushTelemetry, p.telemetry)
    + if p.hasMore then [InventoryOf(Fed(a, b, w))] else []
  }

  /** What is on a page. */
  lemma PageContents(a: Tables, w: Marks, p: Payload)
    requires PageFor(a, w) == [p]
    ensures p.Data?
    ensures p.messages == Map(Paged, PageAt(a.messages, MessageTs, w.texts.cursor))
    ensures p.locations == PageAt(a.locations, LocationTs, w.spots.cursor)
    ensures p.telemetry == PageAt(a.telemetry, TelemetryTs, w.readings.cursor)
    ensures p.hasMore <==> || More(a.messages, MessageTs, w.texts.cursor)
                           || More(a.locations, LocationTs, w.spots.cursor)
                           || More(a.telemetry, TelemetryTs, w.readings.cursor)
  {
  }

  lemma PageAlike(a: Tables, b: Tables, page: seq<Telemetry>, cursor: nat)
    requires Leading(a) && NewerAlike(b, a, cursor)
    requires forall t :: t in page ==> t in a.telemetry && TelemetryTs(t) > cursor
    ensures Agree(b.telemetry, page)
  {
    forall r, t | (r in b.telemetry || r in page) && t in page && SameReading(r, t) ensures r == t {
      SameRow(a.telemetry, r, t);
    }
  }

  lemma PageStored(a: Tables, b: Tables, w: Marks, p: Payload)
    requires Leading(a) && SomeOf(b, a) && PageFor(a, w) == [p] && NewerAlike(b, a, w.readings.cursor)
    ensures p.Data? && AfterData(b, p) == Fed(a, b, w) && OneRowPerKey(Fed(a, b, w).telemetry)
    ensures NewMessages(b.messages, p.messages) == NewTexts(a, b, w)
    ensures NewLocations(b.locations, p.locations) == NewSpots(a, b, w)
  {
    PageContents(a, w, p);
    PageRows(a.messages, MessageTs, w.texts.cursor);
    PageRows(a.telemetry, TelemetryTs, w.readings.cursor);
    FreshMessages(b.messages, PageAt(a.messages, MessageTs, w.texts.cursor));
    FreshLocations(b.locations, p.locations);
    PageAlike(a, b, p.telemetry, w.readings.cursor);
    MergeFresh(b.telemetry, p.telemetry);
  }

  /** B handles a page with any cursors: it takes in what is new to it, and nothing else. */
  lemma PageHandled(a: Tables, b: Tables, w: Marks, p: Payload)
    requires Leading(a) && SomeOf(b, a) && PageFor(a, w) == [p] && NewerAlike(b, a, w.readings.cursor)
    ensures p.Data? && After(b, p) == Fed(a, b, w) && SomeOf(Fed(a, b, w), a)
    ensures Sent(b, p) == Replies(a, b, w, p)
    ensures forall t :: t in NewReadings(a, b, w) ==> t in a.telemetry
  {
    PageStored(a, b, w, p);
    FedFromLeader(a, b, w);
    hide PageFor, Fed, NewTexts, NewSpots, SomeOf, Leading;
    var pushes := Map(PushMessage, NewTexts(a, b, w)) + Map(PushLocation, NewSpots(a, b, w))
                  + Map(PushTelemetry, p.telemetry);
    assert Forwarded(b, p) == pushes;
    assert pushes + [] == pushes;
  }

  lemma FedFromLeader(a: Tables, b: Tables, w: Marks)
    requires SomeOf(b, a) && OneRowPerKey(Fed(a, b, w).telemetry) && Leading(a)
    ensures SomeOf(Fed(a, b, w), a)
    ensures forall t :: t in NewReadings(a, b, w) ==> t in a.telemetry
  {
    NewTextsFromLeader(a, b, w);
    PageRows(a.locations, LocationTs, w.spots.cursor);
    PageRows(a.telemetry, TelemetryTs, w.readings.cursor);
    FreshKeys(PageAt(a.locations, LocationTs, w.spots.cursor), PlaceKey, KeysOf(b.locations, PlaceKey));
    FreshKeys(PageAt(a.telemetry, TelemetryTs, w.readings.cursor), ReadingKey, KeysOf(b.telemetry, ReadingKey));
    forall l | l in NewSpots(a, b, w) ensures PlaceKey(l) in KeysOf(a.locations, PlaceKey) {
      KeyOfMember(a.locations, PlaceKey, l);
    }
    forall t | t in NewReadings(a, b, w) ensures HasReading(a.telemetry, t) {
      assert SameReading(t, t) && PartOf(t.metrics, t.metrics);
    }
  }

  lemma MergedIsPart(rows: seq<Telemetry>, t: Telemetry, all: seq<Telemetry>)
    requires OneRowPerKey(all) && OneRowPerKey(rows) && t in all
    requires forall r :: r in rows ==> HasReading(all, r)
    ensures OneRowPerKey(WithTelemetry(rows, t)) && forall r :: r in WithTelemetry(rows, t) ==> HasReading(all, r)
  {
    FoundExactly(rows, t);
    StoredOncePerKey(rows, t);
    assert HasReading(all, t) by {
      assert SameReading(t, t) && PartOf(t.metrics, t.metrics);
    }
    var i := FindReading(rows, t);
    if i < |rows| {
      assert rows[i] in rows;
      var x :| x in all && SameReading(x, rows[i]) && PartOf(rows[i].metrics, x.metrics);
      SameRow(all, x, t);
      assert rows[i].metrics + t.metrics == t.metrics;
    }
  }

  lemma {:induction false} MergeIsPart(rows: seq<Telemetry>, page: seq<Telemetry>, all: seq<Telemetry>)
    requires OneRowPerKey(all) && OneRowPerKey(rows) && forall t :: t in page ==> t in all
    requires forall r :: r in rows ==> HasReading(all, r)
    ensures OneRowPerKey(MergeTelemetry(rows, page))
    ensures forall r :: r in MergeTelemetry(rows, page) ==> HasReading(all, r)
    decreases |page|
  {
    hide OneRowPerKey, HasReading, WithTelemetry;
    if page != [] {
      MergedIsPart(rows, page[0], all);
      MergeIsPart(WithTelemetry(rows, page[0]), page[1..], all);
    }
  }

  /** A page for any cursors, whoever it was meant for: the peer still has only rows of A's, and
      of messages it has taken in those it did not have. */
  lemma PageTaken(a: Tables, b: Tables, w: Marks, p: Payload)
    requires Leading(a) && SomeOf(b, a) && PageFor(a, w) == [p]
    ensures SomeOf(After(b, p), a) && After(b, p).messages == b.messages + NewTexts(a, b, w)
  {
    PageContents(a, w, p);
    PageRows(a.messages, MessageTs, w.texts.cursor);
    PageRows(a.locations, LocationTs, w.spots.cursor);
    PageRows(a.telemetry, TelemetryTs, w.readings.cursor);
    FreshMessages(b.messages, PageAt(a.messages, MessageTs, w.texts.cursor));
    FreshLocations(b.locations, p.locations);
    NewTextsFromLeader(a, b, w);
    FreshKeys(p.locations, PlaceKey, KeysOf(b.locations, PlaceKey));
    forall l | l in NewSpots(a, b, w) ensures PlaceKey(l) in KeysOf(a.locations, PlaceKey) {
      KeyOfMember(a.locations, PlaceKey, l);
    }
    MergeIsPart(b.telemetry, p.telemetry, a.telemetry);
  }

  lemma NewTextsFromLeader(a: Tables, b: Tables, w: Marks)
    requires Leading(a)
    ensures forall m :: m in NewTexts(a, b, w) ==> m.packetId != 0 && Content(m) in KeysOf(a.messages, Content)
  {
    var page := PageAt(a.messages, MessageTs, w.texts.cursor);
    var added := Fresh(page, PacketId, KeysOf(b.messages, PacketId));
    PageRows(a.messages, MessageTs, w.texts.cursor);
    FreshKeys(page, PacketId, KeysOf(b.messages, PacketId));
    forall m | m in Map(Paged, added) ensures m.packetId != 0 && Content(m) in KeysOf(a.messages, Content) {
      var i :| 0 <= i < |added| && Map(Paged, added)[i] == m;
      assert added[i] in added;
      KeyOfMember(a.messages, Content, added[i]);
    }
  }

  // ------------------------------------------------------------- marks and pages

  /** The columns a page leaves out are neither key nor timestamp. */
  lemma {:induction false} PagedKeys(s: seq<Message>)
    ensures KeysOf(Map(Paged, s), PacketId) == KeysOf(s, PacketId)
  {
    if s != [] {
      PagedKeys(s[..|s| - 1]);
      assert Map(Paged, s)[..|s| - 1] == Map(Paged, s[..|s| - 1]);
    }
  }

  lemma {:induction false} PagedTimes(s: seq<Message>)
    ensures MaxTs(Map(Paged, s), MessageTs) == MaxTs(s, MessageTs)
  {
    if s != [] {
      PagedTimes(s[1..]);
      assert Map(Paged, s)[1..] == Map(Paged, s[1..]);
    }
  }

  lemma MarkAdvances<T, K>(rows: seq<T>, more: seq<T>, page: seq<T>, ts: T -> nat, key: T -> K)
    requires var news := Fresh(page, key, KeysOf(rows, key));
             KeysOf(more, key) == KeysOf(news, key) && MaxTs(more, ts) == MaxTs(news, ts)
    ensures var w := MarkOf(rows, ts, key);
            MarkOf(rows + more, ts, key)
            == Mark(w.keys + KeysOf(page, key), Later(w.cursor, MaxTs(Fresh(page, key, w.keys), ts)))
  {
    KeysConcat(rows, more, key);
    MaxConcat(rows, more, ts);
    FreshKeys(page, key, KeysOf(rows, key));
  }

  /** What the messages of a page make of a peer's mark. */
  lemma TextsMark(a: Tables, b: Tables, w: Marks)
    ensures var page, m := PageAt(a.messages, MessageTs, w.texts.cursor), MarksOf(b).texts;
            MarkOf(b.messages + NewTexts(a, b, w), MessageTs, PacketId)
            == Mark(m.keys + KeysOf(page, PacketId), Later(m.cursor, MaxTs(Fresh(page, PacketId, m.keys), MessageTs)))
  {
    var page := PageAt(a.messages, MessageTs, w.texts.cursor);
    var added := Fresh(page, PacketId, KeysOf(b.messages, PacketId));
    PagedKeys(added);
    PagedTimes(added);
    MarkAdvances(b.messages, NewTexts(a, b, w), page, MessageTs, PacketId);
  }

  /** A page for the marks B has advances them by one round. */
  lemma NewPageMarks(a: Tables, b: Tables)
    ensures MarksOf(Fed(a, b, MarksOf(b))) == Round(a, MarksOf(b))
  {
    var w := MarksOf(b);
    TextsMark(a, b, w);
    MarkAdvances(b.locations, NewSpots(a, b, w), PageAt(a.locations, LocationTs, w.spots.cursor), LocationTs, PlaceKey);
    MarkAdvances(b.telemetry, NewReadings(a, b, w), PageAt(a.telemetry, TelemetryTs, w.readings.cursor),
                 TelemetryTs, ReadingKey);
  }

  /** B's marks are past the round. */
  ghost predicate Past(a: Tables, w: Marks, b: Tables) {
    var r, m := Round(a, w), MarksOf(b);
    r.texts.keys <= m.texts.keys && r.spots.keys <= m.spots.keys && r.readings.keys <= m.readings.keys
  }

  /** A page of a round B is past has nothing new. */
  lemma OldPageMarks(a: Tables, b: Tables, w: Marks)
    requires Past(a, w, b)
    ensures Fed(a, b, w) == b && NewTexts(a, b, w) == [] && NewSpots(a, b, w) == [] && NewReadings(a, b, w) == []
  {
    NothingFresh(PageAt(a.messages, MessageTs, w.texts.cursor), PacketId, KeysOf(b.messages, PacketId));
    NothingFresh(PageAt(a.locations, LocationTs, w.spots.cursor), PlaceKey, KeysOf(b.locations, PlaceKey));
    NothingFresh(PageAt(a.telemetry, TelemetryTs, w.readings.cursor), ReadingKey, KeysOf(b.telemetry, ReadingKey));
    assert b.messages + [] == b.messages && b.locations + [] == b.locations && b.telemetry + [] == b.telemetry;
  }

  // ------------------------------------------------------- pushes that change nothing

  /** A push whose rows the peer has already. */
  ghost predicate Stale(a: Tables, p: Payload) {
    && p.Data? && !p.hasMore && p.telemetry == []
    && (forall m :: m in p.messages ==> m.packetId != 0 && HasPacket(a.messages, m.packetId))
    && (forall l :: l in p.locations ==> HasPlace(a.locations, l))
  }

  lemma {:induction false} NothingNew(a: Tables, ms: seq<Message>, ls: seq<Location>)
    ensures (forall m :: m in ms ==> m.packetId != 0 && HasPacket(a.messages, m.packetId))
            ==> NewMessages(a.messages, ms) == []
    ensures (forall l :: l in ls ==> HasPlace(a.locations, l)) ==> NewLocations(a.locations, ls) == []
    decreases |ms| + |ls|
  {
    if ms != [] {
      NothingNew(a, ms[1..], ls);
      assert ms[0] in ms;
    } else if ls != [] {
      NothingNew(a, ms, ls[1..]);
      assert ls[0] in ls;
    }
  }

  lemma StaleIgnored(a: Tables, p: Payload)
    requires Stale(a, p)
    ensures After(a, p) == a && Sent(a, p) == []
  {
    NothingNew(a, p.messages, p.locations);
    assert a.messages + [] == a.messages && a.locations + [] == a.locations;
  }

  lemma TextsAreStale(a: Tables, ms: seq<Message>)
    requires forall m :: m in ms ==> m.packetId != 0 && Content(m) in KeysOf(a.messages, Content)
    ensures forall i :: 0 <= i < |ms| ==> Stale(a, Map(PushMessage, ms)[i])
  {
    forall i | 0 <= i < |ms| ensures Stale(a, Map(PushMessage, ms)[i]) {
      assert ms[i] in ms;
      var j := RowOfKey(a.messages, Content, Content(ms[i]));
      assert a.messages[j] in a.messages && a.messages[j].packetId == Content(ms[i]).packetId;
    }
  }

  lemma SpotsAreStale(a: Tables, ls: seq<Location>)
    requires forall l :: l in ls ==> l in a.locations
    ensures forall i :: 0 <= i < |ls| ==> Stale(a, Map(PushLocation, ls)[i])
  {
    forall i | 0 <= i < |ls| ensures Stale(a, Map(PushLocation, ls)[i]) {
      assert ls[i] in ls && SamePlace(ls[i], ls[i]);
    }
  }

  /** What B pushes of A's rows is stale for A. */
  lemma PushesAreStale(a: Tables, b: Tables, w: Marks)
    requires Leading(a)
    ensures forall i :: 0 <= i < |NewTexts(a, b, w)| ==> Stale(a, Map(PushMessage, NewTexts(a, b, w))[i])
    ensures forall i :: 0 <= i < |NewSpots(a, b, w)| ==> Stale(a, Map(PushLocation, NewSpots(a, b, w))[i])
  {
    NewTextsFromLeader(a, b, w);
    PageRows(a.locations, LocationTs, w.spots.cursor);
    FreshKeys(PageAt(a.locations, LocationTs, w.spots.cursor), PlaceKey, KeysOf(b.locations, PlaceKey));
    hide Stale;
    TextsAreStale(a, NewTexts(a, b, w));
    SpotsAreStale(a, NewSpots(a, b, w));
  }

  /** A push of one telemetry row. */
  predicate IsEcho(p: Payload) {
    p.Data? && |p.telemetry| == 1 && p == PushTelemetry(p.telemetry[0])
  }

  /** A telemetry row the peer has already changes nothing there, and is sent back. */
  lemma EchoReturned(t: Tables, p: Payload)
    requires IsEcho(p) && p.telemetry[0] in t.telemetry && OneRowPerKey(t.telemetry)
    ensures After(t, p) == t && Sent(t, p) == [p]
  {
    StoredAgain(t.telemetry, p.telemetry[0]);
    assert p.telemetry[1..] == [];
    assert MergeTelemetry(t.telemetry, p.telemetry) == t.telemetry;
    assert t.messages + [] == t.messages && t.locations + [] == t.locations;
    assert Map(PushTelemetry, p.telemetry) == [p];
    assert Map(PushMessage, []) == [] && Map(PushLocation, []) == [];
  }
}
