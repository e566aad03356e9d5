/** Every run of syncs between a leading and a lagging peer.

    Either peer may start a sync at any time, on a new connection or after a page that was
    not the last, so several rounds may be under way at once, each with its own cursors;
    and every telemetry row that was ever paged goes back and forth for ever.  Each payload
    on its way is given a tag, and the tags account for everything that can still happen. */
module SyncRuns {
  import opened Tables
  import opened DbSync
  import opened ReplicatedTables
  import opened MeshNetwork
  import opened PagedWalk
  import opened CatchUp

  /** A push A knows, a telemetry row both know, B's cursors after `round` pages, A's page for
      those cursors, or A's inventory. */
  datatype Tag = Push | Echo | Ask(round: nat) | Page(round: nat) | Announce

  /** B's marks after `k` new pages. */
  ghost function At(a: Tables, w: Marks, k: nat): Marks {
    Marks(Walk(a.messages, MessageTs, PacketId, w.texts, k), Walk(a.locations, LocationTs, PlaceKey, w.spots, k),
          Walk(a.telemetry, TelemetryTs, ReadingKey, w.readings, k))
  }

  lemma NextRound(a: Tables, w: Marks, k: nat)
    ensures At(a, w, k + 1) == Round(a, At(a, w, k)) && At(a, w, 0) == w
  {
  }

  ghost predicate Fits(a: Tables, b: Tables, w: Marks, top: nat, tag: Tag, p: Payload) {
    match tag
    case Push => Stale(a, p)
    case Echo => IsEcho(p) && p.telemetry[0] in a.telemetry && p.telemetry[0] in b.telemetry
    case Ask(k) => k <= top && Asks(p, At(a, w, k))
    case Page(k) => k <= top && PageFor(a, At(a, w, k)) == [p]
    case Announce => p == InventoryOf(a)
  }

  ghost predicate AllFit(a: Tables, b: Tables, w: Marks, top: nat, tags: seq<Tag>, q: seq<Payload>) {
    |tags| == |q| && forall i :: 0 <= i < |tags| ==> Fits(a, b, w, top, tags[i], q[i])
  }

  ghost predicate ForA(tags: seq<Tag>) {
    forall i :: 0 <= i < |tags| ==> tags[i].Push? || tags[i].Echo? || tags[i].Ask?
  }

  ghost predicate ForB(tags: seq<Tag>) {
    forall i :: 0 <= i < |tags| ==> tags[i].Echo? || tags[i].Page? || tags[i].Announce?
  }

  /** The rounds B has completed, and the tags of everything on its way. */
  datatype Tags = Tags(top: nat, toA: seq<Tag>, toB: seq<Tag>)

  /** B is where the walk is after `top` pages, and everything on its way fits that. */
  ghost predicate Syncing(a: Tables, w: Marks, p: Pair, g: Tags) {
    && p.a == a && Leading(a) && SomeOf(p.b, a) && MarksOf(p.b) == At(a, w, g.top)
    && NewerAlike(p.b, a, w.readings.cursor)
    && AllFit(a, p.b, w, g.top, g.toA, p.toA) && ForA(g.toA)
    && AllFit(a, p.b, w, g.top, g.toB, p.toB) && ForB(g.toB)
  }

  // ------------------------------------------------------------ what is sent back

  function Copies(tag: Tag, count: nat): (r: seq<Tag>)
    ensures |r| == count && forall i :: 0 <= i < count ==> r[i] == tag
  {
    seq(count, i => tag)
  }

  /** The new messages and positions of round `k`. */
  ghost function PushedRows(a: Tables, w: Marks, k: nat): nat {
    var m := At(a, w, k);
    |Fresh(PageAt(a.messages, MessageTs, m.texts.cursor), PacketId, m.texts.keys)|
    + |Fresh(PageAt(a.locations, LocationTs, m.spots.cursor), PlaceKey, m.spots.keys)|
  }

  ghost function Readings(a: Tables, w: Marks, k: nat): nat {
    |PageAt(a.telemetry, TelemetryTs, At(a, w, k).readings.cursor)|
  }

  /** Some table has more rows behind the marks than fit one page. */
  ghost predicate MoreFor(a: Tables, m: Marks) {
    || More(a.messages, MessageTs, m.texts.cursor)
    || More(a.locations, LocationTs, m.spots.cursor)
    || More(a.telemetry, TelemetryTs, m.readings.cursor)
  }

  /** The tags of what B sends on the page of round `k`. */
  ghost function OnPage(a: Tables, w: Marks, k: nat, top: nat): seq<Tag> {
    Copies(Push, if k < top then 0 else PushedRows(a, w, k)) + Copies(Echo, Readings(a, w, k))
    + if MoreFor(a, At(a, w, k)) then [Ask(if k < top then top else k + 1)] else []
  }

  ghost function TagsAtA(a: Tables, w: Marks, g: Tags): Tags
    requires g.toA != []
  {
    match g.toA[0]
    case Ask(k) =>
      if PageFor(a, At(a, w, k)) == [] then g.(toA := g.toA[1..])
      else g.(toA := g.toA[1..], toB := g.toB + [Page(k)])
    case Echo => g.(toA := g.toA[1..], toB := g.toB + [Echo])
    case _ => g.(toA := g.toA[1..])
  }

  ghost function TagsAtB(a: Tables, w: Marks, g: Tags): Tags
    requires g.toB != []
  {
    match g.toB[0]
    case Page(k) => Tags(if k < g.top then g.top else k + 1, g.toA + OnPage(a, w, k, g.top), g.toB[1..])
    case Echo => g.(toA := g.toA + [Echo], toB := g.toB[1..])
    case _ =>
      if PageFor(a, At(a, w, g.top)) == [] then g.(toB := g.toB[1..])
      else g.(toA := g.toA + [Ask(g.top)], toB := g.toB[1..])
  }

  // ------------------------------------------------------------ deliveries to A

  lemma MarksGrow(a: Tables, w: Marks, j: nat, k: nat)
    requires j <= k
    ensures At(a, w, j).texts.cursor <= At(a, w, k).texts.cursor && At(a, w, j).texts.keys <= At(a, w, k).texts.keys
    ensures At(a, w, j).spots.cursor <= At(a, w, k).spots.cursor && At(a, w, j).spots.keys <= At(a, w, k).spots.keys
    ensures At(a, w, j).readings.cursor <= At(a, w, k).readings.cursor
    ensures At(a, w, j).readings.keys <= At(a, w, k).readings.keys
  {
    WalkGrows(a.messages, MessageTs, PacketId, w.texts, j, k);
    WalkGrows(a.locations, LocationTs, PlaceKey, w.spots, j, k);
    WalkGrows(a.telemetry, TelemetryTs, ReadingKey, w.readings, j, k);
  }

  lemma AskAtA(a: Tables, w: Marks, p: Pair, g: Tags, k: nat)
    requires Syncing(a, w, p, g) && p.toA != [] && g.toA[0] == Ask(k)
    ensures After(a, p.toA[0]) == a && Sent(a, p.toA[0]) == PageFor(a, At(a, w, k)) && k <= g.top
    ensures |PageFor(a, At(a, w, k))| <= 1
  {
    assert Fits(a, p.b, w, g.top, g.toA[0], p.toA[0]);
    MarksGrow(a, w, k, g.top);
    NotAhead(p.b, a);
    hide At, SomeOf, Leading, MaxTs;
    AskAnswered(a, At(a, w, k), p.toA[0]);
  }

  lemma DeliverToA(a: Tables, w: Marks, p: Pair, g: Tags)
    requires Syncing(a, w, p, g) && p.toA != []
    ensures Syncing(a, w, Exchange(p, ToA), TagsAtA(a, w, g))
  {
    hide At, SomeOf, Leading, Stale, PageFor, Asks, After, Sent, IsEcho, MarksOf;
    assert Fits(a, p.b, w, g.top, g.toA[0], p.toA[0]);
    if g.toA[0].Ask? {
      AskAtA(a, w, p, g, g.toA[0].round);
    } else if g.toA[0].Echo? {
      EchoAtA(a, p.b, w, g.top, p.toA[0]);
    } else {
      assert g.toA[0].Push?;
      StaleIgnored(a, p.toA[0]);
    }
  }

  lemma EchoAtA(a: Tables, b: Tables, w: Marks, top: nat, p: Payload)
    requires Leading(a) && Fits(a, b, w, top, Echo, p)
    ensures After(a, p) == a && Sent(a, p) == [p]
  {
    EchoReturned(a, p);
  }

  // ------------------------------------------------------------ deliveries to B

  lemma FitsLater(a: Tables, b: Tables, c: Tables, w: Marks, top: nat, later: nat, tags: seq<Tag>, q: seq<Payload>)
    requires AllFit(a, b, w, top, tags, q) && top <= later
    requires forall t :: t in b.telemetry ==> t in c.telemetry
    ensures AllFit(a, c, w, later, tags, q)
  {
    hide At, Stale, PageFor, Asks, IsEcho;
    forall i | 0 <= i < |tags| ensures Fits(a, c, w, later, tags[i], q[i]) {
      assert Fits(a, b, w, top, tags[i], q[i]);
    }
  }

  lemma RestFits(a: Tables, b: Tables, w: Marks, top: nat, tags: seq<Tag>, q: seq<Payload>)
    requires AllFit(a, b, w, top, tags, q) && tags != []
    ensures AllFit(a, b, w, top, tags[1..], q[1..])
  {
    hide Fits;
  }

  lemma FitConcat(a: Tables, b: Tables, w: Marks, top: nat, s: seq<Tag>, q: seq<Payload>, t: seq<Tag>, r: seq<Payload>)
    requires AllFit(a, b, w, top, s, q) && AllFit(a, b, w, top, t, r)
    ensures AllFit(a, b, w, top, s + t, q + r)
  {
    hide Fits;
  }

  lemma FirstForB(a: Tables, w: Marks, p: Pair, g: Tags)
    requires Syncing(a, w, p, g) && p.toB != []
    ensures g.toB != [] && Fits(a, p.b, w, g.top, g.toB[0], p.toB[0])
    ensures g.toB[0].Echo? || g.toB[0].Announce? || (g.toB[0].Page? && g.toB[0].round <= g.top)
  {
    assert Fits(a, p.b, w, g.top, g.toB[0], p.toB[0]);
  }

  lemma EchoAtB(a: Tables, w: Marks, p: Pair, g: Tags)
    requires Syncing(a, w, p, g) && p.toB != [] && g.toB[0] == Echo
    ensures Syncing(a, w, Exchange(p, ToB), TagsAtB(a, w, g))
  {
    FirstForB(a, w, p, g);
    EchoReturned(p.b, p.toB[0]);
    OneEcho(a, p.b, w, g.top, p.toB[0]);
    RestFits(a, p.b, w, g.top, g.toB, p.toB);
    FitConcat(a, p.b, w, g.top, g.toA, p.toA, [Echo], [p.toB[0]]);
    hide At, After, Sent, MarksOf, SomeOf, Leading, NewerAlike, AllFit, Fits;
  }

  lemma OneEcho(a: Tables, b: Tables, w: Marks, top: nat, p: Payload)
    requires Fits(a, b, w, top, Echo, p)
    ensures AllFit(a, b, w, top, [Echo], [p])
  {
  }

  lemma AnnounceAtB(a: Tables, w: Marks, p: Pair, g: Tags)
    requires Syncing(a, w, p, g) && p.toB != [] && g.toB[0] == Announce
    ensures Syncing(a, w, Exchange(p, ToB), TagsAtB(a, w, g))
  {
    hide At, PageFor, Asks, After, Sent, MarksOf, SomeOf, Leading, AllFit;
    FirstForB(a, w, p, g);
    AnnounceAnswered(a, p.b);
    RestFits(a, p.b, w, g.top, g.toB, p.toB);
    var out := Sent(p.b, p.toB[0]);
    if PageFor(a, At(a, w, g.top)) != [] {
      OneAsk(a, p.b, w, g.top, out);
      FitConcat(a, p.b, w, g.top, g.toA, p.toA, [Ask(g.top)], out);
    } else {
      assert p.toA + out == p.toA;
    }
  }

  lemma OneAsk(a: Tables, b: Tables, w: Marks, top: nat, out: seq<Payload>)
    requires |out| == 1 && Asks(out[0], At(a, w, top))
    ensures AllFit(a, b, w, top, [Ask(top)], out)
  {
  }

  /** B's inventory carries its marks. */
  lemma InventoryAsks(t: Tables)
    ensures Asks(InventoryOf(t), MarksOf(t))
  {
  }

  lemma PushesFit(a: Tables, b: Tables, c: Tables, w: Marks, m: Marks, top: nat)
    requires Leading(a)
    ensures AllFit(a, c, w, top, Copies(Push, |NewTexts(a, b, m)| + |NewSpots(a, b, m)|),
                   Map(PushMessage, NewTexts(a, b, m)) + Map(PushLocation, NewSpots(a, b, m)))
  {
    PushesAreStale(a, b, m);
    hide NewTexts, NewSpots, Stale;
    var x, y := |NewTexts(a, b, m)|, |NewSpots(a, b, m)|;
    FitConcat(a, c, w, top, Copies(Push, x), Map(PushMessage, NewTexts(a, b, m)),
              Copies(Push, y), Map(PushLocation, NewSpots(a, b, m)));
    assert Copies(Push, x) + Copies(Push, y) == Copies(Push, x + y);
  }

  lemma EchoesFit(a: Tables, c: Tables, w: Marks, top: nat, rows: seq<Telemetry>)
    requires forall t :: t in rows ==> t in a.telemetry && t in c.telemetry
    ensures AllFit(a, c, w, top, Copies(Echo, |rows|), Map(PushTelemetry, rows))
  {
    forall i | 0 <= i < |rows| ensures Fits(a, c, w, top, Echo, Map(PushTelemetry, rows)[i]) {
      assert rows[i] in rows;
    }
  }

  lemma RepliesFit(a: Tables, b: Tables, w: Marks, m: Marks, top: nat, p: Payload)
    requires Leading(a) && PageFor(a, m) == [p] && p.Data? && MarksOf(Fed(a, b, m)) == At(a, w, top)
    requires forall t :: t in p.telemetry ==> t in Fed(a, b, m).telemetry
    ensures AllFit(a, Fed(a, b, m), w, top, ReplyTags(a, b, m, p, top), Replies(a, b, m, p))
  {
    hide PageFor, NewTexts, NewSpots, Fed, Leading, MarksOf, At, Asks, AllFit, PageAt, InventoryOf, More;
    var c := Fed(a, b, m);
    PageContents(a, m, p);
    PageRows(a.telemetry, TelemetryTs, m.readings.cursor);
    InventoryAsks(c);
    PushesFit(a, b, c, w, m, top);
    EchoesFit(a, c, w, top, p.telemetry);
    var pushes, x := Map(PushMessage, NewTexts(a, b, m)) + Map(PushLocation, NewSpots(a, b, m)),
                     |NewTexts(a, b, m)| + |NewSpots(a, b, m)|;
    FitConcat(a, c, w, top, Copies(Push, x), pushes, Copies(Echo, |p.telemetry|), Map(PushTelemetry, p.telemetry));
    if p.hasMore {
      OneAsk(a, c, w, top, [InventoryOf(c)]);
      FitConcat(a, c, w, top, Copies(Push, x) + Copies(Echo, |p.telemetry|), pushes + Map(PushTelemetry, p.telemetry),
                [Ask(top)], [InventoryOf(c)]);
    } else {
      assert pushes + Map(PushTelemetry, p.telemetry) + [] == pushes + Map(PushTelemetry, p.telemetry);
      assert Copies(Push, x) + Copies(Echo, |p.telemetry|) + [] == Copies(Push, x) + Copies(Echo, |p.telemetry|);
    }
  }

  /** The rows of a page that B did not have it has afterwards. */
  lemma PageTelemetryKept(a: Tables, b: Tables, m: Marks, p: Payload)
    requires Leading(a) && SomeOf(b, a) && PageFor(a, m) == [p] && NewerAlike(b, a, m.readings.cursor)
    ensures p.Data? && forall t :: t in p.telemetry ==> t in Fed(a, b, m).telemetry
    ensures forall t :: t in b.telemetry ==> t in Fed(a, b, m).telemetry
  {
    PageHandled(a, b, m, p);
    PageContents(a, m, p);
    PageRows(a.telemetry, TelemetryTs, m.readings.cursor);
    var c, known := Fed(a, b, m).telemetry, KeysOf(b.telemetry, ReadingKey);
    forall t | t in p.telemetry ensures t in c {
      FreshKeys(p.telemetry, ReadingKey, known);
      KeysConcat(b.telemetry, NewReadings(a, b, m), ReadingKey);
      KeyOfMember(p.telemetry, ReadingKey, t);
      var i := RowOfKey(c, ReadingKey, ReadingKey(t));
      assert c[i] in c && TelemetryTs(t) > m.readings.cursor;
      SameRow(a.telemetry, c[i], t);
    }
  }

  /** B after the page of a round, and what it sends. */
  ghost predicate Handled(a: Tables, b: Tables, w: Marks, k: nat, top: nat, p: Payload) {
    var c, later := After(b, p), if k < top then top else k + 1;
    && SomeOf(c, a) && MarksOf(c) == At(a, w, later) && NewerAlike(c, a, w.readings.cursor)
    && (forall t :: t in b.telemetry ==> t in c.telemetry)
    && AllFit(a, c, w, later, OnPage(a, w, k, top), Sent(b, p))
  }

  /** The tags of the replies to a page. */
  ghost function ReplyTags(a: Tables, b: Tables, m: Marks, p: Payload, later: nat): seq<Tag>
    requires p.Data?
  {
    Copies(Push, |NewTexts(a, b, m)| + |NewSpots(a, b, m)|) + Copies(Echo, |p.telemetry|)
    + if p.hasMore then [Ask(later)] else []
  }

  lemma NewPageTags(a: Tables, b: Tables, w: Marks, k: nat, p: Payload)
    requires MarksOf(b) == At(a, w, k) && PageFor(a, At(a, w, k)) == [p] && p.Data?
    ensures ReplyTags(a, b, At(a, w, k), p, k + 1) == OnPage(a, w, k, k)
  {
    PageContents(a, At(a, w, k), p);
    hide PageFor;
  }

  lemma OldPageTags(a: Tables, b: Tables, w: Marks, k: nat, top: nat, p: Payload)
    requires NewTexts(a, b, At(a, w, k)) == [] && NewSpots(a, b, At(a, w, k)) == []
    requires PageFor(a, At(a, w, k)) == [p] && p.Data? && k < top
    ensures ReplyTags(a, b, At(a, w, k), p, top) == OnPage(a, w, k, top)
  {
    PageContents(a, At(a, w, k), p);
    hide PageFor, At, NewTexts, NewSpots;
  }

  lemma AlikeLater(a: Tables, b: Tables, w: Marks, k: nat)
    requires NewerAlike(b, a, w.readings.cursor)
    ensures NewerAlike(b, a, At(a, w, k).readings.cursor)
  {
    NextRound(a, w, 0);
    MarksGrow(a, w, 0, k);
  }

  lemma FedAlike(a: Tables, b: Tables, m: Marks, cursor: nat)
    requires NewerAlike(b, a, cursor) && forall t :: t in NewReadings(a, b, m) ==> t in a.telemetry
    ensures NewerAlike(Fed(a, b, m), a, cursor)
  {
  }

  lemma NewPage(a: Tables, b: Tables, w: Marks, k: nat, p: Payload)
    requires Leading(a) && SomeOf(b, a) && MarksOf(b) == At(a, w, k) && PageFor(a, At(a, w, k)) == [p]
    requires NewerAlike(b, a, w.readings.cursor)
    ensures Handled(a, b, w, k, k, p)
  {
    hide At, SomeOf, Leading, PageFor, Fed, MarksOf, AllFit, NewTexts, NewSpots, Sent, After, Replies, OnPage, Round;
    var m := At(a, w, k);
    AlikeLater(a, b, w, k);
    PageHandled(a, b, m, p);
    FedAlike(a, b, m, w.readings.cursor);
    NewPageMarks(a, b);
    NextRound(a, w, k);
    PageTelemetryKept(a, b, m, p);
    RepliesFit(a, b, w, m, k + 1, p);
    NewPageTags(a, b, w, k, p);
  }

  lemma OldPage(a: Tables, b: Tables, w: Marks, k: nat, top: nat, p: Payload)
    requires Leading(a) && SomeOf(b, a) && MarksOf(b) == At(a, w, top) && PageFor(a, At(a, w, k)) == [p] && k < top
    requires NewerAlike(b, a, w.readings.cursor)
    ensures Handled(a, b, w, k, top, p)
  {
    hide At, SomeOf, Leading, PageFor, Fed, MarksOf, AllFit, NewTexts, NewSpots, Sent, After, Replies, OnPage, Round;
    var m := At(a, w, k);
    AlikeLater(a, b, w, k);
    PageHandled(a, b, m, p);
    FedAlike(a, b, m, w.readings.cursor);
    MarksGrow(a, w, k + 1, top);
    NextRound(a, w, k);
    OldPageMarks(a, b, m);
    PageTelemetryKept(a, b, m, p);
    RepliesFit(a, b, w, m, top, p);
    OldPageTags(a, b, w, k, top, p);
  }

  lemma OnPageForA(a: Tables, w: Marks, k: nat, top: nat)
    ensures ForA(OnPage(a, w, k, top))
  {
  }

  lemma PageAtB(a: Tables, w: Marks, p: Pair, g: Tags, k: nat)
    requires Syncing(a, w, p, g) && p.toB != [] && g.toB[0] == Page(k) && k <= g.top
    ensures Syncing(a, w, Exchange(p, ToB), TagsAtB(a, w, g))
  {
    hide At, SomeOf, Leading, PageFor, MarksOf, Sent, After, AllFit, OnPage;
    FirstForB(a, w, p, g);
    assert PageFor(a, At(a, w, k)) == [p.toB[0]];
    if k < g.top {
      OldPage(a, p.b, w, k, g.top, p.toB[0]);
    } else {
      NewPage(a, p.b, w, k, p.toB[0]);
    }
    var c, later := After(p.b, p.toB[0]), if k < g.top then g.top else k + 1;
    FitsLater(a, p.b, c, w, g.top, later, g.toA, p.toA);
    FitsLater(a, p.b, c, w, g.top, later, g.toB, p.toB);
    FitConcat(a, c, w, later, g.toA, p.toA, OnPage(a, w, k, g.top), Sent(p.b, p.toB[0]));
    RestFits(a, c, w, later, g.toB, p.toB);
    OnPageForA(a, w, k, g.top);
  }

  lemma DeliverToB(a: Tables, w: Marks, p: Pair, g: Tags)
    requires Syncing(a, w, p, g) && p.toB != []
    ensures Syncing(a, w, Exchange(p, ToB), TagsAtB(a, w, g))
  {
    FirstForB(a, w, p, g);
    hide Syncing, Fits;
    if g.toB[0].Announce? {
      AnnounceAtB(a, w, p, g);
    } else if g.toB[0].Echo? {
      EchoAtB(a, w, p, g);
    } else {
      PageAtB(a, w, p, g, g.toB[0].round);
    }
  }

  // ---------------------------------------------------------------- standing still

  /** Another page would change nothing. */
  ghost predicate Still(a: Tables, w: Marks, k: nat) {
    At(a, w, k + 1) == At(a, w, k)
  }

  lemma StillLater(a: Tables, w: Marks, j: nat, k: nat)
    requires Still(a, w, j) && j <= k
    ensures At(a, w, k) == At(a, w, j) && Still(a, w, k)
  {
    hide Advance;
    forall i | i == k || i == k + 1 ensures At(a, w, i) == At(a, w, j) {
      WalkStays(a.messages, MessageTs, PacketId, w.texts, j, i);
      WalkStays(a.locations, LocationTs, PlaceKey, w.spots, j, i);
      WalkStays(a.telemetry, TelemetryTs, ReadingKey, w.readings, j, i);
    }
  }

  /** With nothing behind the cursors, or after a last page, the walk stands still. */
  lemma EmptyStill(a: Tables, w: Marks, k: nat)
    requires PageFor(a, At(a, w, k)) == []
    ensures Still(a, w, k)
  {
    var m := At(a, w, k);
    NoRowsBehind(a.messages, MessageTs, PacketId, m.texts);
    NoRowsBehind(a.locations, LocationTs, PlaceKey, m.spots);
    NoRowsBehind(a.telemetry, TelemetryTs, ReadingKey, m.readings);
    NextRound(a, w, k);
  }

  lemma LastStill(a: Tables, w: Marks, k: nat)
    requires !MoreFor(a, At(a, w, k))
    ensures Still(a, w, k + 1)
  {
    var m := At(a, w, k);
    LastPage(a.messages, MessageTs, PacketId, m.texts);
    LastPage(a.locations, LocationTs, PlaceKey, m.spots);
    LastPage(a.telemetry, TelemetryTs, ReadingKey, m.readings);
    NextRound(a, w, k);
    NextRound(a, w, k + 1);
  }

  // -------------------------------------------------------------------- alive

  predicate Live(tag: Tag) {
    tag.Ask? || tag.Page? || tag.Announce?
  }

  ghost predicate HasLive(tags: seq<Tag>) {
    exists i :: 0 <= i < |tags| && Live(tags[i])
  }

  /** The walk stands still at B, or something on its way will bring B on. */
  ghost predicate Alive(a: Tables, w: Marks, g: Tags) {
    Still(a, w, g.top) || HasLive(g.toA) || HasLive(g.toB)
  }

  lemma LiveConcat(s: seq<Tag>, t: seq<Tag>)
    ensures HasLive(s + t) <==> HasLive(s) || HasLive(t)
  {
    if HasLive(s) {
      var i :| 0 <= i < |s| && Live(s[i]);
      assert Live((s + t)[i]);
    }
    if HasLive(t) {
      var i :| 0 <= i < |t| && Live(t[i]);
      assert Live((s + t)[|s| + i]);
    }
  }

  lemma LiveFirst(s: seq<Tag>)
    requires s != []
    ensures HasLive(s) <==> Live(s[0]) || HasLive(s[1..])
  {
    LiveConcat([s[0]], s[1..]);
    assert [s[0]] + s[1..] == s;
    assert HasLive([s[0]]) <==> Live([s[0]][0]);
  }

  lemma AliveAtA(a: Tables, w: Marks, p: Pair, g: Tags)
    requires Syncing(a, w, p, g) && p.toA != [] && Alive(a, w, g)
    ensures Alive(a, w, TagsAtA(a, w, g))
  {
    assert Fits(a, p.b, w, g.top, g.toA[0], p.toA[0]);
    hide Syncing, Still, PageFor, At;
    LiveFirst(g.toA);
    if g.toA[0].Ask? {
      var k := g.toA[0].round;
      if PageFor(a, At(a, w, k)) == [] {
        EmptyStill(a, w, k);
        StillLater(a, w, k, g.top);
      } else {
        assert Live([Page(k)][0]);
        LiveConcat(g.toB, [Page(k)]);
      }
    } else if g.toA[0].Echo? {
      LiveConcat(g.toB, [Echo]);
    }
  }

  /** After a page B asks on, or the walk stands still. */
  lemma AliveOnPage(a: Tables, w: Marks, k: nat, top: nat)
    requires k <= top
    ensures HasLive(OnPage(a, w, k, top)) || Still(a, w, if k < top then top else k + 1)
  {
    var out := OnPage(a, w, k, top);
    if MoreFor(a, At(a, w, k)) {
      hide At, PushedRows, Readings, MoreFor, Still;
      assert Live(out[|out| - 1]);
    } else {
      LastStill(a, w, k);
      StillLater(a, w, k + 1, if k < top then top else k + 1);
    }
  }

  lemma AliveAtB(a: Tables, w: Marks, p: Pair, g: Tags)
    requires Syncing(a, w, p, g) && p.toB != [] && Alive(a, w, g)
    ensures Alive(a, w, TagsAtB(a, w, g))
  {
    hide Syncing, Still, PageFor, At, MoreFor, Fits, OnPage, HasLive;
    FirstForB(a, w, p, g);
    LiveFirst(g.toB);
    if g.toB[0].Page? {
      AliveOnPage(a, w, g.toB[0].round, g.top);
      LiveConcat(g.toA, OnPage(a, w, g.toB[0].round, g.top));
    } else if g.toB[0].Echo? {
      LiveConcat(g.toA, [Echo]);
    } else if PageFor(a, At(a, w, g.top)) == [] {
      EmptyStill(a, w, g.top);
    } else {
      LiveOne(Ask(g.top));
      LiveConcat(g.toA, [Ask(g.top)]);
    }
  }

  lemma LiveOne(tag: Tag)
    requires Live(tag)
    ensures HasLive([tag])
  {
    assert Live([tag][0]);
  }

  // -------------------------------------------------------------------- load

  /** The keys of A's that a reader with these marks does not have. */
  ghost function Missing(a: Tables, m: Marks): nat {
    |KeysOf(a.messages, PacketId) - m.texts.keys| + |KeysOf(a.locations, PlaceKey) - m.spots.keys|
    + |KeysOf(a.telemetry, ReadingKey) - m.readings.keys|
  }

  ghost function Lacking(a: Tables, w: Marks, k: nat): nat {
    Missing(a, At(a, w, k))
  }

  /** Every new row is one key less missing, and only a page without any stands still. */
  lemma LackingLess(a: Tables, w: Marks, k: nat)
    ensures Lacking(a, w, k + 1) + PushedRows(a, w, k) <= Lacking(a, w, k)
    ensures Still(a, w, k) <==> Lacking(a, w, k + 1) == Lacking(a, w, k)
  {
    var m := At(a, w, k);
    NextRound(a, w, k);
    AdvanceAdds(a.messages, MessageTs, PacketId, m.texts);
    AdvanceAdds(a.locations, LocationTs, PlaceKey, m.spots);
    AdvanceAdds(a.telemetry, TelemetryTs, ReadingKey, m.readings);
  }

  lemma {:induction false} LackingLater(a: Tables, w: Marks, j: nat, k: nat)
    requires j <= k
    ensures Lacking(a, w, k) <= Lacking(a, w, j)
    decreases k
  {
    hide Lacking, Still, PushedRows;
    if j < k {
      LackingLater(a, w, j, k - 1);
      LackingLess(a, w, k - 1);
    }
  }

  ghost function Weight(a: Tables, w: Marks, tag: Tag): nat {
    match tag
    case Push => 1
    case Echo => 0
    case Ask(k) => 4 * Lacking(a, w, k) + 3
    case Page(k) => 4 * Lacking(a, w, k) + 2
    case Announce => 4 * Lacking(a, w, 0) + 4
  }

  ghost function Load(a: Tables, w: Marks, tags: seq<Tag>): nat {
    if tags == [] then 0 else Load(a, w, tags[..|tags| - 1]) + Weight(a, w, tags[|tags| - 1])
  }

  lemma {:induction false} LoadConcat(a: Tables, w: Marks, s: seq<Tag>, t: seq<Tag>)
    ensures Load(a, w, s + t) == Load(a, w, s) + Load(a, w, t)
  {
    if t == [] {
      assert s + t == s;
    } else {
      var n := |t| - 1;
      LoadConcat(a, w, s, t[..n]);
      hide Weight;
      assert (s + t)[..|s + t| - 1] == s + t[..n];
    }
  }

  lemma LoadOne(a: Tables, w: Marks, tag: Tag)
    ensures Load(a, w, [tag]) == Weight(a, w, tag)
  {
    assert [tag][..0] == [];
  }

  lemma LoadFirst(a: Tables, w: Marks, tags: seq<Tag>)
    requires tags != []
    ensures Load(a, w, tags) == Weight(a, w, tags[0]) + Load(a, w, tags[1..])
  {
    LoadConcat(a, w, [tags[0]], tags[1..]);
    LoadOne(a, w, tags[0]);
    assert [tags[0]] + tags[1..] == tags;
  }

  lemma {:induction false} LoadCopies(a: Tables, w: Marks, tag: Tag, n: nat)
    requires tag.Push? || tag.Echo?
    ensures Load(a, w, Copies(tag, n)) == if tag.Push? then n else 0
  {
    if n > 0 {
      LoadCopies(a, w, tag, n - 1);
      assert Copies(tag, n)[..n - 1] == Copies(tag, n - 1);
    }
  }

  /** A page that leaves the walk where it is has more behind it. */
  ghost predicate Stuck(a: Tables, w: Marks, k: nat) {
    MoreFor(a, At(a, w, k)) && Still(a, w, k)
  }

  ghost predicate MovesOn(a: Tables, w: Marks) {
    forall k: nat :: !Stuck(a, w, k)
  }

  lemma LoadOnPage(a: Tables, w: Marks, k: nat, top: nat)
    ensures Load(a, w, OnPage(a, w, k, top))
         == (if k < top then 0 else PushedRows(a, w, k))
            + if MoreFor(a, At(a, w, k)) then 4 * Lacking(a, w, if k < top then top else k + 1) + 3 else 0
  {
    hide MoreFor, Lacking, PushedRows, Readings;
    var n, e := if k < top then 0 else PushedRows(a, w, k), Readings(a, w, k);
    var ask := Ask(if k < top then top else k + 1);
    LoadCopies(a, w, Push, n);
    LoadCopies(a, w, Echo, e);
    LoadOne(a, w, ask);
    hide Load;
    LoadConcat(a, w, Copies(Push, n), Copies(Echo, e));
    LoadConcat(a, w, Copies(Push, n) + Copies(Echo, e), [ask]);
    assert Copies(Push, n) + Copies(Echo, e) + [] == Copies(Push, n) + Copies(Echo, e);
  }

  /** The replies to a page weigh less than the page. */
  lemma LighterReplies(a: Tables, w: Marks, k: nat, top: nat)
    requires !Stuck(a, w, k) && k <= top
    ensures Load(a, w, OnPage(a, w, k, top)) < Weight(a, w, Page(k))
  {
    hide MoreFor, Still, Lacking, PushedRows, Load, OnPage, At;
    LoadOnPage(a, w, k, top);
    LackingLess(a, w, k);
    if k < top { LackingLater(a, w, k + 1, top); }
  }

  ghost function TotalLoad(a: Tables, w: Marks, g: Tags): nat {
    Load(a, w, g.toA) + Load(a, w, g.toB)
  }

  lemma LighterAtA(a: Tables, w: Marks, g: Tags)
    requires g.toA != [] && ForA(g.toA)
    ensures TotalLoad(a, w, TagsAtA(a, w, g)) + (if g.toA[0].Echo? then 0 else 1) <= TotalLoad(a, w, g)
  {
    hide Lacking, Load, PageFor, At;
    LoadFirst(a, w, g.toA);
    if g.toA[0].Ask? {
      LoadOne(a, w, Page(g.toA[0].round));
      LoadConcat(a, w, g.toB, [Page(g.toA[0].round)]);
    } else if g.toA[0].Echo? {
      LoadOne(a, w, Echo);
      LoadConcat(a, w, g.toB, [Echo]);
    }
  }

  lemma LighterAtB(a: Tables, w: Marks, p: Pair, g: Tags)
    requires Syncing(a, w, p, g) && p.toB != [] && MovesOn(a, w)
    ensures TotalLoad(a, w, TagsAtB(a, w, g)) + (if g.toB[0].Echo? then 0 else 1) <= TotalLoad(a, w, g)
  {
    hide Lacking, Syncing, Fits, Load, PageFor, At, OnPage, Stuck;
    FirstForB(a, w, p, g);
    LoadFirst(a, w, g.toB);
    if g.toB[0].Page? {
      LighterReplies(a, w, g.toB[0].round, g.top);
      LoadConcat(a, w, g.toA, OnPage(a, w, g.toB[0].round, g.top));
    } else if g.toB[0].Echo? {
      LoadOne(a, w, Echo);
      LoadConcat(a, w, g.toA, [Echo]);
    } else {
      LackingLater(a, w, 0, g.top);
      LoadOne(a, w, Ask(g.top));
      LoadConcat(a, w, g.toA, [Ask(g.top)]);
    }
  }

  // -------------------------------------------------------------------- runs

  /** A payload arrives, or one of the peers starts a sync. */
  datatype Move = Deliver(turn: Turn) | StartA | StartB

  predicate CanMove(p: Pair, m: Move) {
    m.Deliver? ==> CanTurn(p, m.turn)
  }

  function Moved(p: Pair, m: Move): Pair
    requires CanMove(p, m)
  {
    match m
    case Deliver(t) => Exchange(p, t)
    case StartA => p.(toB := p.toB + [InventoryOf(p.a)])
    case StartB => p.(toA := p.toA + [InventoryOf(p.b)])
  }

  ghost predicate CanMoveAll(p: Pair, moves: seq<Move>)
    decreases |moves|
  {
    moves == [] || (CanMove(p, moves[0]) && CanMoveAll(Moved(p, moves[0]), moves[1..]))
  }

  ghost function MovedAll(p: Pair, moves: seq<Move>): Pair
    requires CanMoveAll(p, moves)
    decreases |moves|
  {
    if moves == [] then p else MovedAll(Moved(p, moves[0]), moves[1..])
  }

  /** One for a delivery of anything but a push of one telemetry row. */
  function Counts(p: Pair, m: Move): nat
    requires CanMove(p, m)
  {
    if m.Deliver? && !IsEcho(if m.turn.ToA? then p.toA[0] else p.toB[0]) then 1 else 0
  }

  /** The deliveries that are not echoes. */
  ghost function Deliveries(p: Pair, moves: seq<Move>): nat
    requires CanMoveAll(p, moves)
    decreases |moves|
  {
    if moves == [] then 0 else Counts(p, moves[0]) + Deliveries(Moved(p, moves[0]), moves[1..])
  }

  /** `cost` for every sync started. */
  function Budget(moves: seq<Move>, cost: nat): nat {
    if moves == [] then 0 else (if moves[0].Deliver? then 0 else cost) + Budget(moves[1..], cost)
  }

  ghost function TagsAfter(a: Tables, w: Marks, g: Tags, m: Move): Tags
    requires m.Deliver? ==> if m.turn.ToA? then g.toA != [] else g.toB != []
  {
    match m
    case Deliver(t) => if t.ToA? then TagsAtA(a, w, g) else TagsAtB(a, w, g)
    case StartA => g.(toB := g.toB + [Announce])
    case StartB => g.(toA := g.toA + [Ask(g.top)])
  }

  lemma StartKeepsSyncing(a: Tables, w: Marks, p: Pair, g: Tags, m: Move)
    requires Syncing(a, w, p, g) && !m.Deliver?
    ensures Syncing(a, w, Moved(p, m), TagsAfter(a, w, g, m))
  {
    hide At, SomeOf, Leading, MarksOf, AllFit;
    InventoryAsks(p.b);
    OneAsk(a, p.b, w, g.top, [InventoryOf(p.b)]);
    OneAnnounce(a, p.b, w, g.top);
    FitConcat(a, p.b, w, g.top, g.toA, p.toA, [Ask(g.top)], [InventoryOf(p.b)]);
    FitConcat(a, p.b, w, g.top, g.toB, p.toB, [Announce], [InventoryOf(a)]);
  }

  lemma OneAnnounce(a: Tables, b: Tables, w: Marks, top: nat)
    ensures AllFit(a, b, w, top, [Announce], [InventoryOf(a)])
  {
  }

  lemma TagsMatch(a: Tables, w: Marks, p: Pair, g: Tags)
    requires Syncing(a, w, p, g)
    ensures |g.toA| == |p.toA| && |g.toB| == |p.toB|
    ensures g.toA != [] && g.toA[0].Echo? ==> IsEcho(p.toA[0])
    ensures g.toB != [] && g.toB[0].Echo? ==> IsEcho(p.toB[0])
  {
    if g.toA != [] { assert Fits(a, p.b, w, g.top, g.toA[0], p.toA[0]); }
    if g.toB != [] { assert Fits(a, p.b, w, g.top, g.toB[0], p.toB[0]); }
  }

  /** Every delivery and every start of a sync keeps B on the walk and accounts for what is
      on its way; nothing that would bring B on is lost. */
  lemma MoveKeepsSyncing(a: Tables, w: Marks, p: Pair, g: Tags, m: Move)
    requires Syncing(a, w, p, g) && CanMove(p, m)
    ensures m.Deliver? ==> if m.turn.ToA? then g.toA != [] else g.toB != []
    ensures Syncing(a, w, Moved(p, m), TagsAfter(a, w, g, m))
    ensures Alive(a, w, g) || !m.Deliver? ==> Alive(a, w, TagsAfter(a, w, g, m))
  {
    TagsMatch(a, w, p, g);
    hide Syncing, Alive, TagsAtA, TagsAtB;
    if !m.Deliver? {
      StartKeepsSyncing(a, w, p, g, m);
      StartIsAlive(a, w, g, m);
    } else if m.turn.ToA? {
      DeliverToA(a, w, p, g);
      if Alive(a, w, g) { AliveAtA(a, w, p, g); }
    } else {
      DeliverToB(a, w, p, g);
      if Alive(a, w, g) { AliveAtB(a, w, p, g); }
    }
  }

  lemma StartIsAlive(a: Tables, w: Marks, g: Tags, m: Move)
    requires !m.Deliver?
    ensures Alive(a, w, TagsAfter(a, w, g, m))
  {
    LiveOne(Announce);
    LiveOne(Ask(g.top));
    LiveConcat(g.toB, [Announce]);
    LiveConcat(g.toA, [Ask(g.top)]);
  }

  /** What a sync started by either peer may add to the load. */
  ghost function SyncCost(a: Tables, w: Marks): nat { 4 * Lacking(a, w, 0) + 4 }

  /** Every delivery but an echo makes the load lighter; a sync adds at most its cost. */
  lemma MoveLoad(a: Tables, w: Marks, p: Pair, g: Tags, m: Move)
    requires Syncing(a, w, p, g) && CanMove(p, m) && MovesOn(a, w)
    ensures m.Deliver? ==> if m.turn.ToA? then g.toA != [] else g.toB != []
    ensures TotalLoad(a, w, TagsAfter(a, w, g, m)) + Counts(p, m)
         <= TotalLoad(a, w, g) + if m.Deliver? then 0 else SyncCost(a, w)
  {
    TagsMatch(a, w, p, g);
    if !m.Deliver? {
      StartLoad(a, w, g, m);
    } else if m.turn.ToA? {
      assert ForA(g.toA);
      hide Lacking, TagsAtA, TagsAtB, MovesOn, Load, IsEcho, Syncing, TotalLoad;
      LighterAtA(a, w, g);
    } else {
      hide Lacking, TagsAtA, TagsAtB, MovesOn, Load, IsEcho, Syncing, TotalLoad;
      LighterAtB(a, w, p, g);
    }
  }

  lemma StartLoad(a: Tables, w: Marks, g: Tags, m: Move)
    requires !m.Deliver?
    ensures TotalLoad(a, w, TagsAfter(a, w, g, m)) <= TotalLoad(a, w, g) + SyncCost(a, w)
  {
    hide Lacking, Load;
    LoadOne(a, w, Announce);
    LoadConcat(a, w, g.toB, [Announce]);
    LoadOne(a, w, Ask(g.top));
    LoadConcat(a, w, g.toA, [Ask(g.top)]);
    LackingLater(a, w, 0, g.top);
  }

  /** The tags after a run, and what they account for. */
  lemma {:induction false} RunKeepsSyncing(a: Tables, w: Marks, p: Pair, g: Tags, moves: seq<Move>) returns (g': Tags)
    requires Syncing(a, w, p, g) && CanMoveAll(p, moves)
    ensures Syncing(a, w, MovedAll(p, moves), g')
    ensures Alive(a, w, g) || (moves != [] && !moves[0].Deliver?) ==> Alive(a, w, g')
    ensures MovesOn(a, w) ==>
              Deliveries(p, moves) + TotalLoad(a, w, g') <= TotalLoad(a, w, g) + Budget(moves, SyncCost(a, w))
    decreases |moves|
  {
    hide Syncing, Alive, TagsAfter, Moved, TotalLoad, SyncCost, MovesOn, CanMove, Counts;
    if moves == [] {
      return g;
    }
    MoveKeepsSyncing(a, w, p, g, moves[0]);
    var h := TagsAfter(a, w, g, moves[0]);
    if MovesOn(a, w) { MoveLoad(a, w, p, g, moves[0]); }
    g' := RunKeepsSyncing(a, w, Moved(p, moves[0]), h, moves[1..]);
  }

  // ------------------------------------------------------------------- results

  /** Where the walks from B's marks through A's tables stand still. */
  ghost function LimitMarks(a: Tables, w: Marks): Marks {
    Marks(LimitOf(a.messages, MessageTs, PacketId, w.texts), LimitOf(a.locations, LocationTs, PlaceKey, w.spots),
          LimitOf(a.telemetry, TelemetryTs, ReadingKey, w.readings))
  }

  lemma StillIsLimit(a: Tables, w: Marks, k: nat)
    requires Still(a, w, k)
    ensures At(a, w, k) == LimitMarks(a, w)
  {
    var m := At(a, w, k);
    NextRound(a, w, k);
    WalkLimit(a.messages, MessageTs, PacketId, w.texts, k);
    WalkLimit(a.locations, LocationTs, PlaceKey, w.spots, k);
    WalkLimit(a.telemetry, TelemetryTs, ReadingKey, w.readings, k);
    hide Walk, Advance;
    assert LimitOf(a.messages, MessageTs, PacketId, m.texts) == m.texts;
    assert LimitOf(a.locations, LocationTs, PlaceKey, m.spots) == m.spots;
    assert LimitOf(a.telemetry, TelemetryTs, ReadingKey, m.readings) == m.readings;
  }

  lemma MarksWithinLimit(a: Tables, w: Marks, k: nat)
    ensures At(a, w, k).texts.keys <= LimitMarks(a, w).texts.keys
    ensures At(a, w, k).spots.keys <= LimitMarks(a, w).spots.keys
    ensures At(a, w, k).readings.keys <= LimitMarks(a, w).readings.keys
  {
    WalkLimit(a.messages, MessageTs, PacketId, w.texts, k);
    WalkLimit(a.locations, LocationTs, PlaceKey, w.spots, k);
    WalkLimit(a.telemetry, TelemetryTs, ReadingKey, w.readings, k);
  }

  /** The walks stand still at the latest after as many pages as keys are missing. */
  lemma LimitArrives(a: Tables, w: Marks)
    ensures At(a, w, Lacking(a, w, 0) + 1) == LimitMarks(a, w) && Still(a, w, Lacking(a, w, 0) + 1)
  {
    var k := Lacking(a, w, 0) + 1;
    NextRound(a, w, 0);
    WalkArrives(a.messages, MessageTs, PacketId, w.texts, k);
    WalkArrives(a.locations, LocationTs, PlaceKey, w.spots, k);
    WalkArrives(a.telemetry, TelemetryTs, ReadingKey, w.readings, k);
    LimitStands(a.messages, MessageTs, PacketId, w.texts);
    LimitStands(a.locations, LocationTs, PlaceKey, w.spots);
    LimitStands(a.telemetry, TelemetryTs, ReadingKey, w.readings);
    NextRound(a, w, k);
  }

  /** Everything on its way is telemetry that B has already. */
  ghost predicate OnlyEchoes(p: Pair) {
    && (forall i :: 0 <= i < |p.toA| ==> IsEcho(p.toA[i]) && p.toA[i].telemetry[0] in p.b.telemetry)
    && (forall i :: 0 <= i < |p.toB| ==> IsEcho(p.toB[i]) && p.toB[i].telemetry[0] in p.b.telemetry)
  }

  lemma SomeMember<T>(s: seq<T>)
    ensures s != [] ==> exists r :: r in s
  {
    if s != [] { assert s[0] in s; }
  }

  /** A last page that is nothing but one telemetry row B has already. */
  lemma EchoPageStill(a: Tables, b: Tables, w: Marks, k: nat, top: nat, p: Payload)
    requires k <= top && PageFor(a, At(a, w, k)) == [p] && MarksOf(b) == At(a, w, top)
    requires IsEcho(p) && p.telemetry[0] in b.telemetry
    ensures Still(a, w, top)
  {
    var m := At(a, w, top);
    PageContents(a, At(a, w, k), p);
    MarksGrow(a, w, k, top);
    FewerBehind(a.messages, MessageTs, At(a, w, k).texts.cursor, m.texts.cursor);
    FewerBehind(a.locations, LocationTs, At(a, w, k).spots.cursor, m.spots.cursor);
    FewerBehind(a.telemetry, TelemetryTs, At(a, w, k).readings.cursor, m.readings.cursor);
    MaxTsBounds(b.telemetry, TelemetryTs);
    var behind := RowsAfter(a.telemetry, TelemetryTs, m.readings.cursor);
    var row := p.telemetry[0];
    RowsAfterHas(a.telemetry, TelemetryTs, m.readings.cursor, row);
    assert row !in behind && forall r :: r in behind ==> r == row;
    SomeMember(behind);
    assert PageFor(a, m) == [];
    EmptyStill(a, w, top);
  }

  lemma LiveEchoes(a: Tables, w: Marks, p: Pair, g: Tags)
    requires Syncing(a, w, p, g) && Alive(a, w, g) && OnlyEchoes(p)
    ensures Still(a, w, g.top)
  {
    hide Still, At, SomeOf, Leading, MarksOf, PageFor, Stale;
    forall i | 0 <= i < |g.toA| ensures !Live(g.toA[i]) {
      assert Fits(a, p.b, w, g.top, g.toA[i], p.toA[i]);
    }
    if HasLive(g.toB) {
      var i :| 0 <= i < |g.toB| && Live(g.toB[i]);
      assert Fits(a, p.b, w, g.top, g.toB[i], p.toB[i]);
      EchoPageStill(a, p.b, w, g.toB[i].round, g.top, p.toB[i]);
    }
  }

  /** B has nothing newer than its cursor. */
  lemma AlikeAtFirst(a: Tables, b: Tables)
    ensures NewerAlike(b, a, MarksOf(b).readings.cursor)
  {
    MaxTsBounds(b.telemetry, TelemetryTs);
    forall t | t in b.telemetry ensures TelemetryTs(t) <= MarksOf(b).readings.cursor {
    }
  }

  /** Every run of syncs, whoever starts them and whenever: B only ever gets rows of A's and
      is always where some number of pages of the walk takes it, however the rounds
      overlapped; and when all that is left on its way is telemetry B has already, B is
      where the walk stands still. */
  lemma EveryRunFollowsTheWalk(a: Tables, b: Tables, moves: seq<Move>)
    requires Leading(a) && SomeOf(b, a) && CanMoveAll(Pair(a, b, [], []), moves) && moves != []
    ensures var p, w := MovedAll(Pair(a, b, [], []), moves), MarksOf(b);
            && p.a == a && SomeOf(p.b, a)
            && (exists k :: MarksOf(p.b) == At(a, w, k))
            && MarksOf(p.b).texts.keys <= LimitMarks(a, w).texts.keys
            && MarksOf(p.b).spots.keys <= LimitMarks(a, w).spots.keys
            && MarksOf(p.b).readings.keys <= LimitMarks(a, w).readings.keys
            && (OnlyEchoes(p) ==> MarksOf(p.b) == LimitMarks(a, w))
  {
    var start, w, none := Pair(a, b, [], []), MarksOf(b), Tags(0, [], []);
    NextRound(a, w, 0);
    AlikeAtFirst(a, b);
    assert Syncing(a, w, start, none);
    var g := RunKeepsSyncing(a, w, start, none, moves);
    var p := MovedAll(start, moves);
    MarksWithinLimit(a, w, g.top);
    if OnlyEchoes(p) {
      LiveEchoes(a, w, p, g);
      StillIsLimit(a, w, g.top);
    }
  }
}
