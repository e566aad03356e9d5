/** The sync manager: what a peer does with the payloads it gets from other peers.

    Whatever it sends goes to every link of the peer.  Payloads are modelled decoded;
    the `devices` and `send_raw` kinds do not touch the tables and are left out. */
module DbSync {
  import opened Tables

  const PAGE := 20

  datatype Payload =
    | Inventory(messageTs: nat, locationTs: nat, telemetryTs: nat)
    | Request(afterMessage: nat, afterLocation: nat, afterTelemetry: nat)
    | Data(messages: seq<Message>, locations: seq<Location>, telemetry: seq<Telemetry>, hasMore: bool)

  /** A page carries every column but the reply id and the emoji flag. */
  function Paged(m: Message): Message {
    m.(replyId := 0, emoji := 0)
  }

  /** A push drops the reception details as well. */
  function Pushed(m: Message): Message {
    Paged(m).(signal := NO_SIGNAL)
  }

  function PushMessage(m: Message): Payload { Data([Pushed(m)], [], [], false) }
  function PushLocation(l: Location): Payload { Data([], [l], [], false) }
  function PushTelemetry(t: Telemetry): Payload { Data([], [], [t], false) }

  function Map<S, T>(f: S -> T, s: seq<S>): (r: seq<T>)
    ensures |r| == |s|
    ensures forall i :: 0 <= i < |s| ==> r[i] == f(s[i])
  {
    seq(|s|, i requires 0 <= i < |s| => f(s[i]))
  }

  lemma MapSnoc<S, T>(f: S -> T, s: seq<S>, x: S)
    ensures Map(f, s + [x]) == Map(f, s) + [f(x)]
  {
  }

  lemma ConcatThree<T>(s: seq<T>, a: seq<T>, b: seq<T>, c: seq<T>)
    ensures ((s + a) + b) + c == s + ((a + b) + c)
  {
  }

  // ------------------------------------------------ what one payload does

  function InventoryOf(t: Tables): Payload {
    Inventory(MaxTs(t.messages, MessageTs), MaxTs(t.locations, LocationTs), MaxTs(t.telemetry, TelemetryTs))
  }

  /** The answer to a request: nothing, or one page of each table behind the cursors. */
  function PageAfter(t: Tables, afterMessage: nat, afterLocation: nat, afterTelemetry: nat): seq<Payload> {
    var ms := RowsAfter(t.messages, MessageTs, afterMessage);
    var ls := RowsAfter(t.locations, LocationTs, afterLocation);
    var ts := RowsAfter(t.telemetry, TelemetryTs, afterTelemetry);
    if ms == [] && ls == [] && ts == [] then []
    else
      [Data(Map(Paged, Limit(ms, PAGE)), Limit(ls, PAGE), Limit(ts, PAGE),
            |ms| > PAGE || |ls| > PAGE || |ts| > PAGE)]
  }

  /** Ask for what the other side has more of, and offer what this side has more of. */
  function OnInventory(t: Tables, p: Payload): seq<Payload>
    requires p.Inventory?
  {
    var mine := InventoryOf(t);
    (if p.messageTs > mine.messageTs || p.locationTs > mine.locationTs || p.telemetryTs > mine.telemetryTs
     then [Request(mine.messageTs, mine.locationTs, mine.telemetryTs)] else [])
    + (if mine.messageTs > p.messageTs || mine.locationTs > p.locationTs || mine.telemetryTs > p.telemetryTs
       then PageAfter(t, p.messageTs, p.locationTs, p.telemetryTs) else [])
  }

  /** The incoming messages that are stored: those whose packet id is zero or not there yet. */
  function NewMessages(rows: seq<Message>, incoming: seq<Message>): seq<Message>
    decreases |incoming|
  {
    if incoming == [] then []
    else
      var m := Paged(incoming[0]);
      if m.packetId != 0 && HasPacket(rows, m.packetId) then NewMessages(rows, incoming[1..])
      else [m] + NewMessages(rows + [m], incoming[1..])
  }

  function NewLocations(rows: seq<Location>, incoming: seq<Location>): seq<Location>
    decreases |incoming|
  {
    if incoming == [] then []
    else if HasPlace(rows, incoming[0]) then NewLocations(rows, incoming[1..])
    else [incoming[0]] + NewLocations(rows + [incoming[0]], incoming[1..])
  }

  function MergeTelemetry(rows: seq<Telemetry>, incoming: seq<Telemetry>): seq<Telemetry>
    decreases |incoming|
  {
    if incoming == [] then rows else MergeTelemetry(WithTelemetry(rows, incoming[0]), incoming[1..])
  }

  function AfterData(t: Tables, p: Payload): Tables
    requires p.Data?
  {
    Tables(t.messages + NewMessages(t.messages, p.messages),
           t.locations + NewLocations(t.locations, p.locations),
           MergeTelemetry(t.telemetry, p.telemetry))
  }

  /** Every stored message and location is forwarded, and every telemetry row. */
  function Forwarded(t: Tables, p: Payload): seq<Payload>
    requires p.Data?
  {
    Map(PushMessage, NewMessages(t.messages, p.messages))
    + Map(PushLocation, NewLocations(t.locations, p.locations))
    + Map(PushTelemetry, p.telemetry)
  }

  /** Forward, then go on paging if there is more. */
  function SentOnData(t: Tables, p: Payload): seq<Payload>
    requires p.Data?
  {
    if p.hasMore then Forwarded(t, p) + [InventoryOf(AfterData(t, p))] else Forwarded(t, p)
  }

  /** The tables after a payload was handled. */
  function After(t: Tables, p: Payload): Tables {
    if p.Data? then AfterData(t, p) else t
  }

  /** What is sent, to every link, while a payload is handled. */
  function Sent(t: Tables, p: Payload): seq<Payload> {
    match p
    case Inventory(_, _, _) => OnInventory(t, p)
    case Request(m, l, s) => PageAfter(t, m, l, s)
    case Data(_, _, _, _) => SentOnData(t, p)
  }

  // -------------------------------------------------------------- the object

  class DbSyncManager {
    const db: Database
    var sent: seq<Payload>

    constructor (db: Database)
      ensures this.db == db && sent == []
    {
      this.db := db;
      sent := [];
    }

    method SendDbSync(p: Payload)
      modifies this
      ensures sent == old(sent) + [p]
    {
      sent := sent + [p];
    }

    method InitiateSync()
      modifies this
      ensures sent == old(sent) + [InventoryOf(db.Contents())]
    {
      SendDbSync(InventoryOf(db.Contents()));
    }

    method HandleRequest(afterMessage: nat, afterLocation: nat, afterTelemetry: nat)
      modifies this
      ensures sent == old(sent) + PageAfter(db.Contents(), afterMessage, afterLocation, afterTelemetry)
    {
      // One row more than a page is fetched, to see whether there is more.
      var msgs := Limit(RowsAfter(db.messages, MessageTs, afterMessage), PAGE + 1);
      var locs := Limit(RowsAfter(db.locations, LocationTs, afterLocation), PAGE + 1);
      var telems := Limit(RowsAfter(db.telemetry, TelemetryTs, afterTelemetry), PAGE + 1);
      if msgs == [] && locs == [] && telems == [] {
        return;
      }
      var hasMore := false;
      if |msgs| > PAGE {
        hasMore := true;
        msgs := msgs[..|msgs| - 1];
      }
      if |locs| > PAGE {
        hasMore := true;
        locs := locs[..|locs| - 1];
      }
      if |telems| > PAGE {
        hasMore := true;
        telems := telems[..|telems| - 1];
      }
      assert locs == Limit(RowsAfter(db.locations, LocationTs, afterLocation), PAGE);
      assert telems == Limit(RowsAfter(db.telemetry, TelemetryTs, afterTelemetry), PAGE);
      assert Map(Paged, msgs) == Map(Paged, Limit(RowsAfter(db.messages, MessageTs, afterMessage), PAGE));
      SendDbSync(Data(Map(Paged, msgs), locs, telems, hasMore));
    }

    method HandleInventory(p: Payload)
      requires p.Inventory?
      modifies this
      ensures sent == old(sent) + OnInventory(db.Contents(), p)
    {
      var mine := InventoryOf(db.Contents());
      if p.messageTs > mine.messageTs || p.locationTs > mine.locationTs || p.telemetryTs > mine.telemetryTs {
        SendDbSync(Request(mine.messageTs, mine.locationTs, mine.telemetryTs));
      }
      if mine.messageTs > p.messageTs || mine.locationTs > p.locationTs || mine.telemetryTs > p.telemetryTs {
        HandleRequest(p.messageTs, p.locationTs, p.telemetryTs);
      }
    }

    method StoreMessages(incoming: seq<Message>)
      modifies this, db
      ensures db.Contents() == old(db.Contents()).(
                messages := old(db.messages) + NewMessages(old(db.messages), incoming))
      ensures sent == old(sent) + Map(PushMessage, NewMessages(old(db.messages), incoming))
    {
      hide Paged, HasPacket;
      ghost var rows, done := db.messages, [];
      var i := 0;
      while i < |incoming|
        invariant 0 <= i <= |incoming|
        invariant db.Contents() == old(db.Contents()).(messages := rows + done)
        invariant NewMessages(rows, incoming) == done + NewMessages(rows + done, incoming[i..])
        invariant sent == old(sent) + Map(PushMessage, done)
      {
        assert incoming[i..][1..] == incoming[i + 1..];
        var m := Paged(incoming[i]);
        i := i + 1;
        var found := db.FindByPacketId(m.packetId);
        if m.packetId != 0 && found.Some? {
          continue;
        }
        var rowid := db.InsertMessage(m);
        SendDbSync(PushMessage(m));
        assert (rows + done) + [m] == rows + (done + [m]);
        MapSnoc(PushMessage, done, m);
        done := done + [m];
      }
    }

    method StoreLocations(incoming: seq<Location>)
      modifies this, db
      ensures db.Contents() == old(db.Contents()).(
                locations := old(db.locations) + NewLocations(old(db.locations), incoming))
      ensures sent == old(sent) + Map(PushLocation, NewLocations(old(db.locations), incoming))
    {
      hide HasPlace, SamePlace;
      ghost var rows, done := db.locations, [];
      var i := 0;
      while i < |incoming|
        invariant 0 <= i <= |incoming|
        invariant db.Contents() == old(db.Contents()).(locations := rows + done)
        invariant NewLocations(rows, incoming) == done + NewLocations(rows + done, incoming[i..])
        invariant sent == old(sent) + Map(PushLocation, done)
      {
        assert incoming[i..][1..] == incoming[i + 1..];
        var inserted := db.InsertLocation(incoming[i]);
        if inserted {
          SendDbSync(PushLocation(incoming[i]));
          assert (rows + done) + [incoming[i]] == rows + (done + [incoming[i]]);
          MapSnoc(PushLocation, done, incoming[i]);
          done := done + [incoming[i]];
        }
        i := i + 1;
      }
    }

    method StoreTelemetry(incoming: seq<Telemetry>)
      modifies this, db
      ensures db.Contents() == old(db.Contents()).(telemetry := MergeTelemetry(old(db.telemetry), incoming))
      ensures sent == old(sent) + Map(PushTelemetry, incoming)
    {
      hide WithTelemetry;
      ghost var rows := db.telemetry;
      ghost var cur := rows;
      var i := 0;
      while i < |incoming|
        invariant 0 <= i <= |incoming|
        invariant db.Contents() == old(db.Contents()).(telemetry := cur)
        invariant MergeTelemetry(rows, incoming) == MergeTelemetry(cur, incoming[i..])
        invariant sent == old(sent) + Map(PushTelemetry, incoming[..i])
      {
        assert incoming[i..][1..] == incoming[i + 1..];
        cur := WithTelemetry(cur, incoming[i]);
        var stored := db.InsertTelemetry(incoming[i]);
        if stored {
          SendDbSync(PushTelemetry(incoming[i]));
        }
        assert incoming[..i + 1] == incoming[..i] + [incoming[i]];
        MapSnoc(PushTelemetry, incoming[..i], incoming[i]);
        i := i + 1;
      }
      assert incoming[..i] == incoming;
    }

    /** Store the rows of all three tables, forwarding as they are stored. */
    method ForwardRows(p: Payload)
      requires p.Data?
      modifies this, db
      ensures db.Contents() == AfterData(old(db.Contents()), p)
      ensures sent == old(sent) + Forwarded(old(db.Contents()), p)
    {
      ghost var before, t := sent, db.Contents();
      StoreMessages(p.messages);
      StoreLocations(p.locations);
      StoreTelemetry(p.telemetry);
      ConcatThree(before, Map(PushMessage, NewMessages(t.messages, p.messages)),
                  Map(PushLocation, NewLocations(t.locations, p.locations)), Map(PushTelemetry, p.telemetry));
    }

    method HandleData(p: Payload)
      requires p.Data?
      modifies this, db
      ensures db.Contents() == AfterData(old(db.Contents()), p)
      ensures sent == old(sent) + SentOnData(old(db.Contents()), p)
    {
      hide AfterData, Forwarded, InventoryOf;
      ForwardRows(p);
      if p.hasMore {
        InitiateSync();
      }
    }

    /** Handle one payload from a peer. */
    method HandleSyncPayload(p: Payload)
      modifies this, db
      ensures db.Contents() == After(old(db.Contents()), p)
      ensures sent == old(sent) + Sent(old(db.Contents()), p)
    {
      match p
      case Inventory(_, _, _) => HandleInventory(p);
      case Request(m, l, s) => HandleRequest(m, l, s);
      case Data(_, _, _, _) => HandleData(p);
    }
  }
}
