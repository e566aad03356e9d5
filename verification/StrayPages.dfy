/** A peer sends a page to all its links, not only to the peer whose cursors it is for.

    A third peer takes such a page in as well, and its newest timestamp jumps.  What it lacked
    behind that is on no later page. */
module StrayPages {
  import opened Tables
  import opened DbSync
  import opened ReplicatedTables
  import opened MeshNetwork
  import opened PagedWalk
  import opened CatchUp
  import opened SyncRuns
  import opened SyncLimits
  import opened CutWalks
  import opened CatchUpConditions

  /** The peer lacks one of A's messages that is no newer than its newest. */
  ghost predicate Gap(a: Tables, c: Tables) {
    exists x :: x in a.messages && 0 < x.ts <= MaxTs(c.messages, MessageTs) && !HasPacket(c.messages, x.packetId)
  }

  /** With one row a packet id and distinct timestamps, a peer with some of A's rows, however it
      came by them, can get every message of A's exactly when it has no gap. */
  lemma GapsExactly(a: Tables, c: Tables)
    requires SomeOf(c, a) && DistinctBy(a.messages, PacketId) && Increasing(Texts(a), MessageTs)
    ensures GetsTexts(a, c) <==> !Gap(a, c)
  {
    var w := MarksOf(c).texts;
    TextsUpToDate(a, c);
    hide Increasing, DistinctBy, SomeOf, MaxTs;
    HeldBehindExactly(a.messages, MessageTs, PacketId, w);
    forall x | x in a.messages ensures HasPacket(c.messages, x.packetId) <==> PacketId(x) in w.keys {
      HasPacketKey(c.messages, x.packetId);
    }
    if Gap(a, c) {
      var x :| x in a.messages && 0 < x.ts <= w.cursor && !HasPacket(c.messages, x.packetId);
      assert 0 < MessageTs(x) <= w.cursor && PacketId(x) !in w.keys;
    }
    if !HeldBehind(a.messages, MessageTs, PacketId, w) {
      var x :| x in a.messages && 0 < MessageTs(x) <= w.cursor && PacketId(x) !in w.keys;
      assert !HasPacket(c.messages, x.packetId);
    }
  }

  /** Some message newer than the cursors, on the page made for them, is new to the peer. */
  ghost predicate HasNews(a: Tables, w: Marks, c: Tables) {
    exists y :: y in PageAt(a.messages, MessageTs, w.texts.cursor) && !HasPacket(c.messages, y.packetId)
  }

  /** The peer lacks a message that a peer with those cursors is past. */
  ghost predicate LacksBefore(a: Tables, w: Marks, c: Tables) {
    exists x :: x in a.messages && 0 < x.ts <= w.texts.cursor && !HasPacket(c.messages, x.packetId)
  }

  /** A page tears a gap exactly when it brings the peer news and the peer lacks something
      before the cursors it was made for. */
  lemma PageTearsGap(a: Tables, w: Marks, c: Tables)
    requires SomeOf(c, a) && DistinctBy(a.messages, PacketId) && Increasing(Texts(a), MessageTs) && !Gap(a, c)
    ensures Gap(a, c.(messages := c.messages + NewTexts(a, c, w))) <==> HasNews(a, w, c) && LacksBefore(a, w, c)
  {
    var d := c.(messages := c.messages + NewTexts(a, c, w));
    var page, m := PageAt(a.messages, MessageTs, w.texts.cursor), MarksOf(c).texts;
    var taken := Fresh(page, PacketId, m.keys);
    TextsMark(a, c, w);
    PageRows(a.messages, MessageTs, w.texts.cursor);
    FreshKeys(page, PacketId, m.keys);
    MaxTsBounds(taken, MessageTs);
    DistinctIsOneRow(a.messages, PacketId);
    assert MarksOf(d).texts == Mark(m.keys + KeysOf(page, PacketId), Later(m.cursor, MaxTs(taken, MessageTs)));
    hide Increasing, DistinctBy, SomeOf, MaxTs, PageAt, Fresh, NewTexts;
    if Gap(a, d) {
      TornGap(a, w, c, d, taken);
    }
    if HasNews(a, w, c) && LacksBefore(a, w, c) {
      TearsGap(a, w, c, d, taken);
    }
  }

  lemma TornGap(a: Tables, w: Marks, c: Tables, d: Tables, taken: seq<Message>)
    requires Increasing(Texts(a), MessageTs) && !Gap(a, c) && Gap(a, d)
    requires var page, m := PageAt(a.messages, MessageTs, w.texts.cursor), MarksOf(c).texts;
             && MarksOf(d).texts == Mark(m.keys + KeysOf(page, PacketId), Later(m.cursor, MaxTs(taken, MessageTs)))
             && (forall y :: y in taken ==> y in page && PacketId(y) !in m.keys)
    requires taken != [] ==> exists y :: y in taken && MessageTs(y) == MaxTs(taken, MessageTs)
    requires taken == [] ==> MaxTs(taken, MessageTs) == 0
    ensures HasNews(a, w, c) && LacksBefore(a, w, c)
  {
    hide Increasing, MaxTs, PageAt;
    var page := PageAt(a.messages, MessageTs, w.texts.cursor);
    var x :| x in a.messages && 0 < x.ts <= MaxTs(d.messages, MessageTs) && !HasPacket(d.messages, x.packetId);
    HasPacketKey(d.messages, x.packetId);
    HasPacketKey(c.messages, x.packetId);
    assert x.ts > MaxTs(c.messages, MessageTs);
    var y :| y in taken && MessageTs(y) == MaxTs(taken, MessageTs);
    HasPacketKey(c.messages, y.packetId);
    if x.ts > w.texts.cursor {
      PageUpTo(a.messages, MessageTs, w.texts.cursor, y, x);
      KeyOfMember(page, PacketId, x);
    }
  }

  lemma TearsGap(a: Tables, w: Marks, c: Tables, d: Tables, taken: seq<Message>)
    requires HasNews(a, w, c) && LacksBefore(a, w, c) && OneRow(a.messages, PacketId)
    requires var page, m := PageAt(a.messages, MessageTs, w.texts.cursor), MarksOf(c).texts;
             && MarksOf(d).texts == Mark(m.keys + KeysOf(page, PacketId), Later(m.cursor, MaxTs(taken, MessageTs)))
             && (forall y :: y in page ==> y in a.messages && MessageTs(y) > w.texts.cursor)
             && m.keys + KeysOf(taken, PacketId) == m.keys + KeysOf(page, PacketId)
    requires forall y :: y in taken ==> y in a.messages && MessageTs(y) <= MaxTs(taken, MessageTs)
    ensures Gap(a, d)
  {
    hide MaxTs, PageAt;
    var page := PageAt(a.messages, MessageTs, w.texts.cursor);
    var y :| y in page && !HasPacket(c.messages, y.packetId);
    var x :| x in a.messages && 0 < x.ts <= w.texts.cursor && !HasPacket(c.messages, x.packetId);
    HasPacketKey(c.messages, y.packetId);
    KeyOfMember(page, PacketId, y);
    var i := RowOfKey(taken, PacketId, PacketId(y));
    assert taken[i] in taken && taken[i] == y;
    HasPacketKey(c.messages, x.packetId);
    forall r | r in page ensures PacketId(r) != x.packetId {
      assert PacketId(r) == PacketId(x) ==> r == x;
    }
    NotAmong(page, PacketId, x.packetId);
    HasPacketKey(d.messages, x.packetId);
  }

  // ------------------------------------------------------------------ on the network

  const HUB := [Link(0, 1), Link(1, 0), Link(0, 2), Link(2, 0)]

  /** B starts a sync, A's page for it goes out on both connections, and the third peer gets its
      copy: a gap is torn there, and with it some of A's messages out of reach for good,
      exactly when the page brings it news and it lacks something B is past. */
  lemma StrayPageExactly(a: Tables, b: Tables, c: Tables)
    requires Leading(a) && SomeOf(b, a) && SomeOf(c, a) && PageFor(a, MarksOf(b)) != []
    requires DistinctBy(a.messages, PacketId) && Increasing(Texts(a), MessageTs) && GetsTexts(a, c)
    ensures var w := World(Net([a, b, c], [[], [], [], []]), {}, {});
            var steps := [InitiateSync(1), Step.Deliver(1), Step.Deliver(2)];
            && WellLinked(HUB, w.net) && Runnable(HUB, w, steps)
            && var d := Run(HUB, w, steps).net.tables[2];
               && SomeOf(d, a)
               && (GetsTexts(a, d) <==> !(HasNews(a, MarksOf(b), c) && LacksBefore(a, MarksOf(b), c)))
               && (CanComplete(a, d) <==> GetsTexts(a, d) && GetsSpots(a, d) && GetsReadings(a, d))
  {
    var w, p := World(Net([a, b, c], [[], [], [], []]), {}, {}), PageFor(a, MarksOf(b))[0];
    assert PageFor(a, MarksOf(b)) == [p];
    PageReachesThird(w, a, b, c, p);
    PageTaken(a, c, MarksOf(b), p);
    hide SomeOf, DistinctBy, Increasing, GetsTexts, Gap, HasNews, LacksBefore, PageFor, Run, Runnable;
    var d, texts := After(c, p), c.(messages := c.messages + NewTexts(a, c, MarksOf(b)));
    GapsExactly(a, c);
    PageTearsGap(a, MarksOf(b), c);
    GapsExactly(a, d);
    SameGap(a, d, texts);
    TableByTable(a, d);
  }

  lemma SameGap(a: Tables, d: Tables, e: Tables)
    requires d.messages == e.messages
    ensures Gap(a, d) <==> Gap(a, e)
  {
  }

  /** The sync starts, A answers on both connections, the third peer gets its copy. */
  lemma SyncStarts(w: World, a: Tables, b: Tables, c: Tables)
    requires w.net == Net([a, b, c], [[], [], [], []])
    ensures WellLinked(HUB, w.net)
    ensures Next(HUB, w, InitiateSync(1)).net == Net([a, b, c], [[], [InventoryOf(b)], [], []])
  {
    hide InventoryOf;
    SendHub(w.net.queues, 1, [InventoryOf(b)]);
  }

  lemma AskArrives(w: World, a: Tables, b: Tables, c: Tables, ask: Payload, p: Payload)
    requires w.net == Net([a, b, c], [[], [ask], [], []]) && WellLinked(HUB, w.net)
    requires After(a, ask) == a && Sent(a, ask) == [p]
    ensures Next(HUB, w, Step.Deliver(1)).net == Net([a, b, c], [[p], [], [p], []])
  {
    hide After, Sent;
    var none: seq<Payload> := [];
    assert [ask][1..] == none && w.net.queues[1 := none] == [none, none, none, none];
    SendHub([none, none, none, none], 0, [p]);
    assert HUB[1] == Link(1, 0) && w.net.tables[0 := a] == [a, b, c];
  }

  lemma PageReachesThird(w: World, a: Tables, b: Tables, c: Tables, p: Payload)
    requires w == World(Net([a, b, c], [[], [], [], []]), {}, {})
    requires SomeOf(b, a) && PageFor(a, MarksOf(b)) == [p]
    ensures var steps := [InitiateSync(1), Step.Deliver(1), Step.Deliver(2)];
            && WellLinked(HUB, w.net) && Runnable(HUB, w, steps)
            && Run(HUB, w, steps).net.tables[2] == After(c, p)
  {
    FirstAsk(a, b);
    hide SomeOf, PageFor, After, Sent, MarksOf;
    SyncStarts(w, a, b, c);
    var w1 := Next(HUB, w, InitiateSync(1));
    AskArrives(w1, a, b, c, InventoryOf(b), p);
    var w2 := Next(HUB, w1, Step.Deliver(1));
    assert Next(HUB, w2, Step.Deliver(2)).net.tables[2] == After(c, p) by {
      assert HUB[2] == Link(0, 2) && w2.net.tables[2] == c;
    }
    hide Next;
    RunThree(HUB, w, InitiateSync(1), w1, Step.Deliver(1), w2, Step.Deliver(2));
  }

  lemma SendHub(queues: seq<seq<Payload>>, node: nat, out: seq<Payload>)
    requires queues == [[], [], [], []]
    ensures node == 1 ==> SendAll(HUB, queues, node, out) == [[], out, [], []]
    ensures node == 0 ==> SendAll(HUB, queues, node, out) == [out, [], out, []]
  {
    var none: seq<Payload> := [];
    assert none + out == out;
  }

  lemma TwoRows(x: Message, y: Message)
    requires x.ts == 1 && y.ts == 2
    ensures PageAt([x, y], MessageTs, 1) == RowsAfter([x, y], MessageTs, 1) == [y] && MaxTs([x], MessageTs) == 1
  {
    assert [x, y][1..] == [y] && [y][1..] == [] && [x][1..] == [];
    assert RowsAfter([y], MessageTs, 1) == InsertSorted(y, [], MessageTs) == [y];
  }

  /** Two messages, a peer that has the first, and a new one: the page with the second takes the
      first out of the new peer's reach. */
  lemma FirstIsMissed()
    ensures var a, b := Tables([Text(1, 1), Text(2, 2)], [], []), Tables([Text(1, 1)], [], []);
            && Leading(a) && SomeOf(b, a) && SomeOf(NOTHING, a) && PageFor(a, MarksOf(b)) != []
            && DistinctBy(a.messages, PacketId) && Increasing(Texts(a), MessageTs)
            && GetsTexts(a, NOTHING) && HasNews(a, MarksOf(b), NOTHING) && LacksBefore(a, MarksOf(b), NOTHING)
  {
    var x, y := Text(1, 1), Text(2, 2);
    var a, b := Tables([x, y], [], []), Tables([x], [], []);
    TwoRows(x, y);
    hide RowsAfter, MaxTs, PageAt;
    DatedSorted(a.messages, MessageTs);
    KeyOfMember(a.messages, Content, x);
    assert y in [y] && x in a.messages;
    assert Leading(a) && SomeOf(b, a);
    NoneNewer();
    GapsExactly(a, NOTHING);
  }

  lemma NoneNewer()
    ensures MaxTs(NOTHING.messages, MessageTs) == 0
  {
  }
}
