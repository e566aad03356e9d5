/** Two peers of which each has rows newer than the other's.

    An inventory is answered with a request for what the other side has more of and, whatever
    comes of that, with a page of what this side has more of, so rows go both ways. */
module TwoWaySync {
  import opened Tables
  import opened DbSync
  import opened ReplicatedTables
  import opened MeshNetwork
  import opened FloodTermination
  import opened PagedWalk
  import opened CatchUp

  /** Some row of the one table is newer than every row of the other, and has a timestamp. */
  ghost predicate HasNewer<T(!new)>(rows: seq<T>, others: seq<T>, ts: T -> nat) {
    exists r :: r in rows && ts(r) > 0 && forall x :: x in others ==> ts(x) < ts(r)
  }

  ghost predicate Ahead(t: Tables, u: Tables) {
    || HasNewer(t.messages, u.messages, MessageTs) || HasNewer(t.locations, u.locations, LocationTs)
    || HasNewer(t.telemetry, u.telemetry, TelemetryTs)
  }

  lemma NewerExactly<T(!new)>(rows: seq<T>, others: seq<T>, ts: T -> nat)
    ensures HasNewer(rows, others, ts) <==> MaxTs(rows, ts) > MaxTs(others, ts)
  {
    MaxTsBounds(rows, ts);
    MaxTsBounds(others, ts);
    if MaxTs(rows, ts) > MaxTs(others, ts) {
      var r :| r in rows && ts(r) == MaxTs(rows, ts);
      assert forall x :: x in others ==> ts(x) < ts(r);
    }
  }

  lemma AheadExactly(t: Tables, u: Tables)
    ensures Ahead(t, u) <==> || MaxTs(t.messages, MessageTs) > MaxTs(u.messages, MessageTs)
                             || MaxTs(t.locations, LocationTs) > MaxTs(u.locations, LocationTs)
                             || MaxTs(t.telemetry, TelemetryTs) > MaxTs(u.telemetry, TelemetryTs)
  {
    NewerExactly(t.messages, u.messages, MessageTs);
    NewerExactly(t.locations, u.locations, LocationTs);
    NewerExactly(t.telemetry, u.telemetry, TelemetryTs);
  }

  /** A request with the newest timestamps of the tables. */
  ghost predicate AsksFrom(p: Payload, t: Tables) {
    p == Request(MaxTs(t.messages, MessageTs), MaxTs(t.locations, LocationTs), MaxTs(t.telemetry, TelemetryTs))
  }

  /** A page with, of each table, the first rows newer than all of the other peer's, oldest first,
      and a flag that tells whether there are more. */
  ghost predicate Offers(p: Payload, t: Tables, u: Tables) {
    && p.Data?
    && Brings(p.messages, t.messages, MaxTs(u.messages, MessageTs))
    && p.locations == PageAt(t.locations, LocationTs, MaxTs(u.locations, LocationTs))
    && p.telemetry == PageAt(t.telemetry, TelemetryTs, MaxTs(u.telemetry, TelemetryTs))
    && (p.hasMore <==> || More(t.messages, MessageTs, MaxTs(u.messages, MessageTs))
                       || More(t.locations, LocationTs, MaxTs(u.locations, LocationTs))
                       || More(t.telemetry, TelemetryTs, MaxTs(u.telemetry, TelemetryTs)))
  }

  /** Messages go out with all columns but the reply id and the emoji flag. */
  ghost predicate Brings(sent: seq<Message>, rows: seq<Message>, cursor: nat) {
    var page := PageAt(rows, MessageTs, cursor);
    |sent| == |page| && forall i :: 0 <= i < |page| ==> sent[i] == page[i].(replyId := 0, emoji := 0)
  }

  /** A page is the twenty oldest of the rows behind the cursor, or all of them if that is all. */
  lemma PageOfTwenty<T>(rows: seq<T>, ts: T -> nat, cursor: nat)
    ensures var behind := RowsAfter(rows, ts, cursor);
            && PageAt(rows, ts, cursor) == (if |behind| > 20 then behind[..20] else behind)
            && (More(rows, ts, cursor) <==> |behind| > 20)
  {
  }

  /** For any two peers: the one that gets the other's inventory sends a request from its newest
      rows exactly when the other is ahead in some table, and a page of what the other lacks
      exactly when it is ahead itself in some table; both, one or neither. */
  lemma InventoryBothWays(t: Tables, u: Tables)
    ensures var out := Sent(t, InventoryOf(u));
            && After(t, InventoryOf(u)) == t
            && |out| == (if Ahead(u, t) then 1 else 0) + (if Ahead(t, u) then 1 else 0)
            && (Ahead(u, t) ==> AsksFrom(out[0], t))
            && (Ahead(t, u) ==> Offers(out[|out| - 1], t, u))
  {
    AheadExactly(t, u);
    AheadExactly(u, t);
    EmptyPage(t, MaxTs(u.messages, MessageTs), MaxTs(u.locations, LocationTs), MaxTs(u.telemetry, TelemetryTs));
    hide MaxTs, Ahead;
    if Ahead(t, u) {
      PageOffered(t, u);
    }
  }

  lemma PageOffered(t: Tables, u: Tables)
    requires PageFor(t, MarksOf(u)) != []
    ensures |PageFor(t, MarksOf(u))| == 1 && Offers(PageFor(t, MarksOf(u))[0], t, u)
  {
    PageContents(t, MarksOf(u), PageFor(t, MarksOf(u))[0]);
  }

  /** A request is answered with the rows newer than its cursors, if there are any. */
  lemma RequestAnswered(t: Tables, u: Tables, p: Payload)
    requires AsksFrom(p, u)
    ensures After(t, p) == t
    ensures if Ahead(t, u) then |Sent(t, p)| == 1 && Offers(Sent(t, p)[0], t, u) else Sent(t, p) == []
  {
    AheadExactly(t, u);
    EmptyPage(t, MaxTs(u.messages, MessageTs), MaxTs(u.locations, LocationTs), MaxTs(u.telemetry, TelemetryTs));
    hide MaxTs, Ahead;
    if Ahead(t, u) {
      PageOffered(t, u);
    }
  }

  // --------------------------------------------------------------- rows go both ways

  /** What one page of `t`'s rows behind `u`'s newest has is in `v`. */
  ghost predicate TookFrom(v: Tables, t: Tables, u: Tables) {
    && (forall m :: m in PageAt(t.messages, MessageTs, MaxTs(u.messages, MessageTs)) ==>
          HasPacket(v.messages, m.packetId))
    && (forall l :: l in PageAt(t.locations, LocationTs, MaxTs(u.locations, LocationTs)) ==>
          HasPlace(v.locations, l))
    && (forall r :: r in PageAt(t.telemetry, TelemetryTs, MaxTs(u.telemetry, TelemetryTs)) ==>
          HasReading(v.telemetry, r))
  }

  lemma MessageTaken(v: Tables, p: Payload, m: Message)
    requires p.Data? && m in p.messages
    ensures HasPacket(After(v, p).messages, m.packetId)
  {
    NewMessagesFacts(v.messages, p.messages);
    ConcatHasPacket(v.messages, NewMessages(v.messages, p.messages), m.packetId);
    if m.packetId == 0 {
      ZeroIdsAreNew(v.messages, p.messages);
    }
  }

  lemma PlaceTaken(v: Tables, p: Payload, l: Location)
    requires p.Data? && l in p.locations
    ensures HasPlace(After(v, p).locations, l)
  {
    NewLocationsFacts(v.locations, p.locations);
    ConcatHasPlace(v.locations, NewLocations(v.locations, p.locations), l);
  }

  lemma ReadingStays(rows: seq<Telemetry>, t: Telemetry, r: Telemetry)
    requires SameReading(t, r) ==> t == r
    ensures HasReading(rows, r) || t == r ==> HasReading(WithTelemetry(rows, t), r)
  {
    var i, more := FindReading(rows, t), WithTelemetry(rows, t);
    assert more[i] in more;
    if HasReading(rows, r) {
      var x :| x in rows && SameReading(x, r) && PartOf(r.metrics, x.metrics);
      var k :| 0 <= k < |rows| && rows[k] == x;
      assert more[k] in more && SameReading(more[k], r);
    }
  }

  lemma {:induction false} ReadingTaken(rows: seq<Telemetry>, page: seq<Telemetry>, r: Telemetry)
    requires forall t :: t in page && SameReading(t, r) ==> t == r
    ensures HasReading(rows, r) || r in page ==> HasReading(MergeTelemetry(rows, page), r)
    decreases |page|
  {
    hide HasReading, WithTelemetry;
    if page != [] {
      assert page[0] in page && forall t :: t in page[1..] ==> t in page;
      ReadingStays(rows, page[0], r);
      ReadingTaken(WithTelemetry(rows, page[0]), page[1..], r);
    }
  }

  lemma PageTookFrom(v: Tables, t: Tables, u: Tables, p: Payload)
    requires Offers(p, t, u) && OneRowPerKey(t.telemetry)
    ensures TookFrom(After(v, p), t, u)
  {
    var ms := PageAt(t.messages, MessageTs, MaxTs(u.messages, MessageTs));
    forall m | m in ms ensures HasPacket(After(v, p).messages, m.packetId) {
      var i :| 0 <= i < |ms| && ms[i] == m;
      MessageTaken(v, p, p.messages[i]);
    }
    forall l | l in p.locations ensures HasPlace(After(v, p).locations, l) {
      PlaceTaken(v, p, l);
    }
    PageRows(t.telemetry, TelemetryTs, MaxTs(u.telemetry, TelemetryTs));
    forall r | r in p.telemetry ensures HasReading(After(v, p).telemetry, r) {
      forall x | x in p.telemetry && SameReading(x, r) ensures x == r {
        SameRow(t.telemetry, x, r);
      }
      ReadingTaken(v.telemetry, p.telemetry, r);
    }
  }

  /** What A and B put on the wire and hold in the end, from B's inventory on. */
  lemma BothTake(a: Tables, b: Tables)
    requires Ahead(a, b) && Ahead(b, a) && OneRowPerKey(a.telemetry) && OneRowPerKey(b.telemetry)
    ensures var out := Sent(a, InventoryOf(b));
            && |out| == 2 && After(a, InventoryOf(b)) == a && After(b, out[0]) == b && |Sent(b, out[0])| == 1
            && TookFrom(After(b, out[1]), a, b) && TookFrom(After(a, Sent(b, out[0])[0]), b, a)
  {
    InventoryBothWays(a, b);
    var out := Sent(a, InventoryOf(b));
    RequestAnswered(b, a, out[0]);
    hide Ahead, TookFrom, Offers, AsksFrom, Sent, InventoryOf, OneRowPerKey;
    PageTookFrom(b, a, b, out[1]);
    PageTookFrom(a, b, a, Sent(b, out[0])[0]);
  }

  /** Two peers, each ahead of the other in some table: B's inventory, A's request and page, and
      B's page later each has taken in what the other had to offer. */
  lemma RowsGoBothWays(a: Tables, b: Tables)
    requires Ahead(a, b) && Ahead(b, a) && OneRowPerKey(a.telemetry) && OneRowPerKey(b.telemetry)
    ensures var p0 := Pair(a, b, [InventoryOf(b)], []);
            var p1 := Exchange(p0, ToA);
            && CanTurn(p1, ToB)
            && var p2 := Exchange(p1, ToB);
               && CanTurn(p2, ToB)
               && var p3 := Exchange(p2, ToB);
                  && CanTurn(p3, ToA)
                  && TookFrom(p3.b, a, b) && TookFrom(Exchange(p3, ToA).a, b, a)
  {
    BothTake(a, b);
    hide Ahead, TookFrom, After, Sent, InventoryOf, OneRowPerKey;
    var out := Sent(a, InventoryOf(b));
    var page := Sent(b, out[0])[0];
    var p1 := Exchange(Pair(a, b, [InventoryOf(b)], []), ToA);
    assert p1 == Pair(a, b, [], out);
    var p2 := Exchange(p1, ToB);
    assert p2 == Pair(a, b, [page], out[1..]);
    var p3 := Exchange(p2, ToB);
    assert p3.a == a && p3.b == After(b, out[1]) && p3.toA[0] == page;
  }
}
