/** What a data payload leaves in the tables and sends on, row by row and column by column. */
module StoredRows {
  import opened Tables
  import opened DbSync
  import opened ReplicatedTables

  // ---------------------------------------------------------------- messages

  /** No row has the packet id, and no message before this one in the payload; zero is no id. */
  ghost predicate NewPacket(rows: seq<Message>, incoming: seq<Message>, i: nat)
    requires i < |incoming|
  {
    || incoming[i].packetId == 0
    || ((forall r :: r in rows ==> r.packetId != incoming[i].packetId)
        && forall j :: 0 <= j < i ==> incoming[j].packetId != incoming[i].packetId)
  }

  /** The new ones of the first `n` messages, in order, with all columns but the reply id and
      the emoji flag. */
  ghost function Chosen(rows: seq<Message>, incoming: seq<Message>, n: nat): seq<Message>
    requires n <= |incoming|
  {
    if n == 0 then []
    else
      Chosen(rows, incoming, n - 1)
      + if NewPacket(rows, incoming, n - 1) then [incoming[n - 1].(replyId := 0, emoji := 0)] else []
  }

  lemma {:induction false} NewMessagesSnoc(rows: seq<Message>, s: seq<Message>, x: Message)
    ensures NewMessages(rows, s + [x])
         == NewMessages(rows, s)
            + if x.packetId != 0 && HasPacket(rows + NewMessages(rows, s), x.packetId) then [] else [Paged(x)]
    decreases |s|
  {
    hide HasPacket;
    if s == [] {
      assert [] + [x] == [x] && rows + [] == rows && [x][1..] == [];
    } else {
      var m := Paged(s[0]);
      assert (s + [x])[1..] == s[1..] + [x];
      if m.packetId != 0 && HasPacket(rows, m.packetId) {
        NewMessagesSnoc(rows, s[1..], x);
      } else {
        NewMessagesSnoc(rows + [m], s[1..], x);
        assert rows + NewMessages(rows, s) == (rows + [m]) + NewMessages(rows + [m], s[1..]);
      }
    }
  }

  lemma HeldAfter(rows: seq<Message>, s: seq<Message>, pid: nat)
    requires pid != 0
    ensures HasPacket(rows + NewMessages(rows, s), pid) <==> HasPacket(rows, pid) || HasPacket(s, pid)
  {
    NewMessagesFacts(rows, s);
    var new' := NewMessages(rows, s);
    if HasPacket(rows + new', pid) && !HasPacket(rows, pid) {
      var r :| r in rows + new' && r.packetId == pid;
      assert r in new';
    }
    if HasPacket(rows, pid) {
      var r :| r in rows && r.packetId == pid;
      assert r in rows + new';
    }
  }

  lemma NewPacketExactly(rows: seq<Message>, incoming: seq<Message>, i: nat)
    requires i < |incoming|
    ensures NewPacket(rows, incoming, i) <==>
              (incoming[i].packetId != 0 ==>
                 !HasPacket(rows, incoming[i].packetId) && !HasPacket(incoming[..i], incoming[i].packetId))
  {
    var pid := incoming[i].packetId;
    if HasPacket(incoming[..i], pid) {
      var r :| r in incoming[..i] && r.packetId == pid;
      var j :| 0 <= j < i && incoming[..i][j] == r;
      assert incoming[j].packetId == pid;
    }
    forall j | 0 <= j < i && incoming[j].packetId == pid ensures HasPacket(incoming[..i], pid) {
      assert incoming[j] in incoming[..i];
    }
  }

  lemma {:induction false} ChosenPrefix(rows: seq<Message>, incoming: seq<Message>, n: nat)
    requires n <= |incoming|
    ensures NewMessages(rows, incoming[..n]) == Chosen(rows, incoming, n)
  {
    if n > 0 {
      ChosenPrefix(rows, incoming, n - 1);
      var s, x := incoming[..n - 1], incoming[n - 1];
      assert incoming[..n] == s + [x];
      NewMessagesSnoc(rows, s, x);
      NewPacketExactly(rows, incoming, n - 1);
      if x.packetId != 0 {
        HeldAfter(rows, s, x.packetId);
      }
    }
  }

  // --------------------------------------------------------------- positions

  ghost predicate NewSpot(rows: seq<Location>, incoming: seq<Location>, i: nat)
    requires i < |incoming|
  {
    var l := incoming[i];
    && (forall r :: r in rows ==> !(r.device == l.device && r.nodeNum == l.nodeNum && r.ts == l.ts))
    && forall j :: 0 <= j < i ==>
         !(incoming[j].device == l.device && incoming[j].nodeNum == l.nodeNum && incoming[j].ts == l.ts)
  }

  /** The new ones of the first `n` positions, in order. */
  ghost function ChosenSpots(rows: seq<Location>, incoming: seq<Location>, n: nat): seq<Location>
    requires n <= |incoming|
  {
    if n == 0 then []
    else
      ChosenSpots(rows, incoming, n - 1) + if NewSpot(rows, incoming, n - 1) then [incoming[n - 1]] else []
  }

  lemma {:induction false} NewLocationsSnoc(rows: seq<Location>, s: seq<Location>, x: Location)
    ensures NewLocations(rows, s + [x])
         == NewLocations(rows, s) + if HasPlace(rows + NewLocations(rows, s), x) then [] else [x]
    decreases |s|
  {
    hide HasPlace;
    if s == [] {
      assert [] + [x] == [x] && rows + [] == rows && [x][1..] == [];
    } else {
      assert (s + [x])[1..] == s[1..] + [x];
      if HasPlace(rows, s[0]) {
        NewLocationsSnoc(rows, s[1..], x);
      } else {
        NewLocationsSnoc(rows + [s[0]], s[1..], x);
        assert rows + NewLocations(rows, s) == (rows + [s[0]]) + NewLocations(rows + [s[0]], s[1..]);
      }
    }
  }

  lemma PlaceHeldAfter(rows: seq<Location>, s: seq<Location>, l: Location)
    ensures HasPlace(rows + NewLocations(rows, s), l) <==> HasPlace(rows, l) || HasPlace(s, l)
  {
    NewLocationsFacts(rows, s);
    var new' := NewLocations(rows, s);
    if HasPlace(rows + new', l) && !HasPlace(rows, l) {
      var r :| r in rows + new' && SamePlace(r, l);
      assert r in new';
    }
    if HasPlace(rows, l) {
      var r :| r in rows && SamePlace(r, l);
      assert r in rows + new';
    }
    if HasPlace(s, l) {
      var x :| x in s && SamePlace(x, l);
      var r :| r in rows + new' && SamePlace(r, x);
      assert SamePlace(r, l);
    }
  }

  lemma NewSpotExactly(rows: seq<Location>, incoming: seq<Location>, i: nat)
    requires i < |incoming|
    ensures NewSpot(rows, incoming, i) <==> !HasPlace(rows, incoming[i]) && !HasPlace(incoming[..i], incoming[i])
  {
    if HasPlace(incoming[..i], incoming[i]) {
      var r :| r in incoming[..i] && SamePlace(r, incoming[i]);
      var j :| 0 <= j < i && incoming[..i][j] == r;
      assert SamePlace(incoming[j], incoming[i]);
    }
    forall j | 0 <= j < i && SamePlace(incoming[j], incoming[i]) ensures HasPlace(incoming[..i], incoming[i]) {
      assert incoming[j] in incoming[..i];
    }
  }

  lemma {:induction false} ChosenSpotsPrefix(rows: seq<Location>, incoming: seq<Location>, n: nat)
    requires n <= |incoming|
    ensures NewLocations(rows, incoming[..n]) == ChosenSpots(rows, incoming, n)
  {
    if n > 0 {
      ChosenSpotsPrefix(rows, incoming, n - 1);
      var s, x := incoming[..n - 1], incoming[n - 1];
      assert incoming[..n] == s + [x];
      NewLocationsSnoc(rows, s, x);
      NewSpotExactly(rows, incoming, n - 1);
      PlaceHeldAfter(rows, s, x);
    }
  }

  // ------------------------------------------------------------- the payload

  /** What a data payload adds to the tables of messages and positions: in the order they came,
      the rows whose keys were neither there nor earlier in the payload. */
  lemma DataIsStored(t: Tables, p: Payload)
    requires p.Data?
    ensures AfterData(t, p).messages == t.messages + Chosen(t.messages, p.messages, |p.messages|)
    ensures AfterData(t, p).locations == t.locations + ChosenSpots(t.locations, p.locations, |p.locations|)
  {
    ChosenPrefix(t.messages, p.messages, |p.messages|);
    ChosenSpotsPrefix(t.locations, p.locations, |p.locations|);
    assert p.messages[..|p.messages|] == p.messages && p.locations[..|p.locations|] == p.locations;
  }

  lemma {:induction false} ChosenColumns(rows: seq<Message>, incoming: seq<Message>, n: nat, k: nat)
    requires n <= |incoming| && k < |Chosen(rows, incoming, n)|
    ensures Chosen(rows, incoming, n)[k].replyId == 0 && Chosen(rows, incoming, n)[k].emoji == 0
  {
    if k < |Chosen(rows, incoming, n - 1)| {
      ChosenColumns(rows, incoming, n - 1, k);
    }
  }

  /** A stored message is forwarded as it is stored, but for the reception details. */
  lemma StoredIsPushed(rows: seq<Message>, incoming: seq<Message>, k: nat)
    requires k < |NewMessages(rows, incoming)|
    ensures PushMessage(NewMessages(rows, incoming)[k])
         == Data([NewMessages(rows, incoming)[k].(signal := Signal(0.0, 0, 0, 0, 0))], [], [], false)
  {
    assert incoming[..|incoming|] == incoming;
    ChosenPrefix(rows, incoming, |incoming|);
    ChosenColumns(rows, incoming, |incoming|, k);
  }

  /** One payload a row: the messages without their reception details, then the positions, then
      the telemetry, in order. */
  ghost predicate OneEach(out: seq<Payload>, ms: seq<Message>, ls: seq<Location>, rs: seq<Telemetry>) {
    && |out| == |ms| + |ls| + |rs|
    && (forall k :: 0 <= k < |ms| ==> out[k] == Data([ms[k].(signal := Signal(0.0, 0, 0, 0, 0))], [], [], false))
    && (forall k :: 0 <= k < |ls| ==> out[|ms| + k] == Data([], [ls[k]], [], false))
    && (forall k :: 0 <= k < |rs| ==> out[|ms| + |ls| + k] == Data([], [], [rs[k]], false))
  }

  lemma OneEachOf(a: seq<Payload>, b: seq<Payload>, c: seq<Payload>,
                  ms: seq<Message>, ls: seq<Location>, rs: seq<Telemetry>)
    requires OneEach(a, ms, [], []) && OneEach(b, [], ls, []) && OneEach(c, [], [], rs)
    ensures OneEach(a + b + c, ms, ls, rs)
  {
    var out := a + b + c;
    forall k | 0 <= k < |ms| ensures out[k] == a[k] {
    }
    forall k | 0 <= k < |ls| ensures out[|ms| + k] == b[k] && b[k] == b[0 + k] {
    }
    forall k | 0 <= k < |rs| ensures out[|ms| + |ls| + k] == c[k] && c[k] == c[0 + 0 + k] {
    }
  }

  lemma MessagesOneEach(rows: seq<Message>, incoming: seq<Message>)
    ensures OneEach(Map(PushMessage, NewMessages(rows, incoming)), NewMessages(rows, incoming), [], [])
  {
    var ms := NewMessages(rows, incoming);
    forall k | 0 <= k < |ms|
      ensures Map(PushMessage, ms)[k] == Data([ms[k].(signal := Signal(0.0, 0, 0, 0, 0))], [], [], false)
    {
      StoredIsPushed(rows, incoming, k);
    }
  }

  lemma ForwardedOneEach(t: Tables, p: Payload)
    requires p.Data?
    ensures OneEach(Forwarded(t, p), NewMessages(t.messages, p.messages), NewLocations(t.locations, p.locations),
                    p.telemetry)
  {
    MessagesOneEach(t.messages, p.messages);
    var ms, ls := NewMessages(t.messages, p.messages), NewLocations(t.locations, p.locations);
    assert OneEach(Map(PushLocation, ls), [], ls, []);
    assert OneEach(Map(PushTelemetry, p.telemetry), [], [], p.telemetry);
    hide NewMessages, NewLocations, OneEach;
    OneEachOf(Map(PushMessage, ms), Map(PushLocation, ls), Map(PushTelemetry, p.telemetry), ms, ls, p.telemetry);
  }

  lemma Behind<T>(rows: seq<T>, more: seq<T>)
    ensures (rows + more)[|rows|..] == more
  {
  }

  /** What is sent on: one payload for each row stored as a message or a position, one for each
      telemetry row, and last, if there was more to come, the inventory of the new tables. */
  lemma DataIsForwarded(t: Tables, p: Payload)
    requires p.Data?
    ensures var u, out := AfterData(t, p), SentOnData(t, p);
            var n := if p.hasMore then |out| - 1 else |out|;
            && t.messages <= u.messages && t.locations <= u.locations && n >= 0
            && OneEach(out[..n], u.messages[|t.messages|..], u.locations[|t.locations|..], p.telemetry)
            && (p.hasMore ==> out[n] == Inventory(MaxTs(u.messages, MessageTs), MaxTs(u.locations, LocationTs),
                                                  MaxTs(u.telemetry, TelemetryTs)))
  {
    ForwardedOneEach(t, p);
    Behind(t.messages, NewMessages(t.messages, p.messages));
    Behind(t.locations, NewLocations(t.locations, p.locations));
    hide MaxTs, MergeTelemetry, NewMessages, NewLocations, OneEach, Forwarded;
    var out := Forwarded(t, p);
    assert SentOnData(t, p)[..|out|] == out;
  }
}
