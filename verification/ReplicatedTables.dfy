/** What any run of incoming data leaves in the tables: no second row for a packet id or a
    place, and telemetry rows that hold the last value received for each metric. */
module ReplicatedTables {
  import opened Options
  import opened Tables
  import opened DbSync

  /** The tables after a run of data payloads. */
  function AfterAll(t: Tables, ps: seq<Payload>): Tables
    requires forall p :: p in ps ==> p.Data?
    decreases |ps|
  {
    if ps == [] then t else AfterAll(AfterData(t, ps[0]), ps[1..])
  }

  // ------------------------------------------------------- what gets stored

  lemma {:induction false} NewMessagesFacts(rows: seq<Message>, incoming: seq<Message>)
    ensures forall m :: m in NewMessages(rows, incoming) && m.packetId != 0 ==> !HasPacket(rows, m.packetId)
    ensures forall m :: m in NewMessages(rows, incoming) ==> exists i :: i in incoming && m == Paged(i)
    ensures forall i :: i in incoming && i.packetId != 0 ==>
              HasPacket(rows + NewMessages(rows, incoming), i.packetId)
    decreases |incoming|
  {
    if incoming != [] {
      var m := Paged(incoming[0]);
      assert incoming == [incoming[0]] + incoming[1..];
      if m.packetId != 0 && HasPacket(rows, m.packetId) {
        NewMessagesFacts(rows, incoming[1..]);
        var r :| r in rows && r.packetId == m.packetId;
        assert r in rows + NewMessages(rows, incoming);
      } else {
        NewMessagesFacts(rows + [m], incoming[1..]);
        assert m in rows + [m];
        assert rows + NewMessages(rows, incoming) == (rows + [m]) + NewMessages(rows + [m], incoming[1..]);
        forall x | x in NewMessages(rows, incoming) && x.packetId != 0 ensures !HasPacket(rows, x.packetId) {
          assert x == m || !HasPacket(rows + [m], x.packetId);
          assert forall r :: r in rows ==> r in rows + [m];
        }
        assert m in rows + NewMessages(rows, incoming);
      }
    }
  }

  lemma {:induction false} NewLocationsFacts(rows: seq<Location>, incoming: seq<Location>)
    ensures forall l :: l in NewLocations(rows, incoming) ==> !HasPlace(rows, l) && l in incoming
    ensures forall l :: l in incoming ==> HasPlace(rows + NewLocations(rows, incoming), l)
    decreases |incoming|
  {
    if incoming != [] {
      var l := incoming[0];
      assert incoming == [l] + incoming[1..];
      if HasPlace(rows, l) {
        NewLocationsFacts(rows, incoming[1..]);
        var r :| r in rows && SamePlace(r, l);
        assert r in rows + NewLocations(rows, incoming);
      } else {
        NewLocationsFacts(rows + [l], incoming[1..]);
        assert l in rows + [l];
        assert rows + NewLocations(rows, incoming) == (rows + [l]) + NewLocations(rows + [l], incoming[1..]);
        forall x | x in NewLocations(rows, incoming) ensures !HasPlace(rows, x) {
          assert x == l || !HasPlace(rows + [l], x);
          assert forall r :: r in rows ==> r in rows + [l];
        }
        assert l in rows + NewLocations(rows, incoming);
      }
    }
  }

  // ----------------------------------------------------------- no second row

  function CountPacket(rows: seq<Message>, pid: nat): nat {
    if rows == [] then 0
    else (if rows[0].packetId == pid then 1 else 0) + CountPacket(rows[1..], pid)
  }

  function CountPlace(rows: seq<Location>, l: Location): nat {
    if rows == [] then 0
    else (if SamePlace(rows[0], l) then 1 else 0) + CountPlace(rows[1..], l)
  }

  lemma {:induction false} CountPacketAppend(rows: seq<Message>, m: Message, pid: nat)
    ensures CountPacket(rows + [m], pid) == CountPacket(rows, pid) + if m.packetId == pid then 1 else 0
    ensures HasPacket(rows, pid) <==> CountPacket(rows, pid) > 0
  {
    if rows == [] {
      assert rows + [m] == [m];
    } else {
      CountPacketAppend(rows[1..], m, pid);
      assert (rows + [m])[1..] == rows[1..] + [m];
      assert rows == [rows[0]] + rows[1..];
      if HasPacket(rows, pid) && rows[0].packetId != pid {
        var r :| r in rows && r.packetId == pid;
        assert r in rows[1..];
      }
    }
  }

  lemma {:induction false} CountPlaceAppend(rows: seq<Location>, m: Location, l: Location)
    ensures CountPlace(rows + [m], l) == CountPlace(rows, l) + if SamePlace(m, l) then 1 else 0
    ensures HasPlace(rows, l) <==> CountPlace(rows, l) > 0
  {
    if rows == [] {
      assert rows + [m] == [m];
    } else {
      CountPlaceAppend(rows[1..], m, l);
      assert (rows + [m])[1..] == rows[1..] + [m];
      assert rows == [rows[0]] + rows[1..];
      if HasPlace(rows, l) && !SamePlace(rows[0], l) {
        var r :| r in rows && SamePlace(r, l);
        assert r in rows[1..];
      }
    }
  }

  /** The rows for one packet id after a batch: those there were, or one if there was none
      and the batch has it. */
  lemma {:induction false} MessageRowCount(rows: seq<Message>, incoming: seq<Message>, pid: nat)
    requires pid != 0
    ensures CountPacket(rows + NewMessages(rows, incoming), pid)
         == if HasPacket(rows, pid) then CountPacket(rows, pid)
            else if HasPacket(incoming, pid) then 1 else 0
    decreases |incoming|
  {
    if incoming == [] {
      assert rows + NewMessages(rows, incoming) == rows;
      CountPacketAppend(rows, Message("", "", 0, "", 0, 0, 0, "", 0, 0, "", NO_SIGNAL, 0, 0), pid);
    } else {
      var m := Paged(incoming[0]);
      assert incoming == [incoming[0]] + incoming[1..];
      assert HasPacket(incoming, pid) <==> m.packetId == pid || HasPacket(incoming[1..], pid) by {
        if HasPacket(incoming, pid) && m.packetId != pid {
          var r :| r in incoming && r.packetId == pid;
          assert r in incoming[1..];
        }
      }
      if m.packetId != 0 && HasPacket(rows, m.packetId) {
        MessageRowCount(rows, incoming[1..], pid);
      } else {
        MessageRowCount(rows + [m], incoming[1..], pid);
        CountPacketAppend(rows, m, pid);
        CountPacketAppend(rows + [m], m, pid);
        assert rows + NewMessages(rows, incoming) == (rows + [m]) + NewMessages(rows + [m], incoming[1..]);
      }
    }
  }

  lemma {:induction false} LocationRowCount(rows: seq<Location>, incoming: seq<Location>, l: Location)
    ensures CountPlace(rows + NewLocations(rows, incoming), l)
         == if HasPlace(rows, l) then CountPlace(rows, l)
            else if HasPlace(incoming, l) then 1 else 0
    decreases |incoming|
  {
    if incoming == [] {
      assert rows + NewLocations(rows, incoming) == rows;
      CountPlaceAppend(rows, l, l);
    } else {
      var m := incoming[0];
      assert incoming == [m] + incoming[1..];
      assert HasPlace(incoming, l) <==> SamePlace(m, l) || HasPlace(incoming[1..], l) by {
        if HasPlace(incoming, l) && !SamePlace(m, l) {
          var r :| r in incoming && SamePlace(r, l);
          assert r in incoming[1..];
        }
      }
      if HasPlace(rows, m) {
        LocationRowCount(rows, incoming[1..], l);
      } else {
        LocationRowCount(rows + [m], incoming[1..], l);
        CountPlaceAppend(rows, m, l);
        CountPlaceAppend(rows + [m], m, l);
        assert rows + NewLocations(rows, incoming) == (rows + [m]) + NewLocations(rows + [m], incoming[1..]);
      }
    }
  }

  /** No run of incoming data adds a second row for a nonzero packet id or for a place. */
  lemma {:induction false} NoSecondRow(t: Tables, ps: seq<Payload>, pid: nat, l: Location)
    requires forall p :: p in ps ==> p.Data?
    requires pid != 0
    ensures var u := AfterAll(t, ps);
            && CountPacket(t.messages, pid) <= CountPacket(u.messages, pid)
            && CountPacket(u.messages, pid) <= (if HasPacket(t.messages, pid) then CountPacket(t.messages, pid) else 1)
            && CountPlace(t.locations, l) <= CountPlace(u.locations, l)
            && CountPlace(u.locations, l) <= (if HasPlace(t.locations, l) then CountPlace(t.locations, l) else 1)
    decreases |ps|
  {
    var blank := Message("", "", 0, "", 0, 0, 0, "", 0, 0, "", NO_SIGNAL, 0, 0);
    CountPacketAppend(t.messages, blank, pid);
    CountPlaceAppend(t.locations, l, l);
    if ps != [] {
      var u := AfterData(t, ps[0]);
      MessageRowCount(t.messages, ps[0].messages, pid);
      LocationRowCount(t.locations, ps[0].locations, l);
      CountPacketAppend(u.messages, blank, pid);
      CountPlaceAppend(u.locations, l, l);
      NoSecondRow(u, ps[1..], pid, l);
    }
  }

  // --------------------------------------------------------------- telemetry

  /** The last value received for a metric of the key of `t`; none if it never came. */
  function LastPresent(received: seq<Telemetry>, t: Telemetry, m: Metric): Option<real> {
    if received == [] then None
    else
      var last := received[|received| - 1];
      if SameReading(last, t) && m in last.metrics then Some(last.metrics[m])
      else LastPresent(received[..|received| - 1], t, m)
  }

  function Lookup(r: Telemetry, m: Metric): Option<real> {
    if m in r.metrics then Some(r.metrics[m]) else None
  }

  ghost predicate OneRowPerKey(rows: seq<Telemetry>) {
    forall i, j :: 0 <= i < j < |rows| ==> !SameReading(rows[i], rows[j])
  }

  ghost predicate HoldsLast(rows: seq<Telemetry>, received: seq<Telemetry>) {
    forall j, m :: 0 <= j < |rows| ==> Lookup(rows[j], m) == LastPresent(received, rows[j], m)
  }

  /** One row per key received, holding the last present value of every metric. */
  ghost predicate Describes(rows: seq<Telemetry>, received: seq<Telemetry>) {
    OneRowPerKey(rows) && KeysOf(rows, ReadingKey) == KeysOf(received, ReadingKey) && HoldsLast(rows, received)
  }

  lemma {:induction false} LastPresentKey(received: seq<Telemetry>, a: Telemetry, b: Telemetry, m: Metric)
    requires SameReading(a, b)
    ensures LastPresent(received, a, m) == LastPresent(received, b, m)
  {
    if received != [] {
      LastPresentKey(received[..|received| - 1], a, b, m);
    }
  }

  lemma {:induction false} NeverReceived(received: seq<Telemetry>, t: Telemetry, m: Metric)
    requires ReadingKey(t) !in KeysOf(received, ReadingKey)
    ensures LastPresent(received, t, m) == None
  {
    if received != [] {
      NeverReceived(received[..|received| - 1], t, m);
    }
  }

  lemma {:induction false} FoundExactly(rows: seq<Telemetry>, t: Telemetry)
    ensures FindReading(rows, t) < |rows| <==> ReadingKey(t) in KeysOf(rows, ReadingKey)
  {
    var i := FindReading(rows, t);
    if i < |rows| {
      KeyOfRow(rows, ReadingKey, i);
    } else if rows != [] {
      assert !SameReading(rows[|rows| - 1], t);
      FoundExactly(rows[..|rows| - 1], t);
    }
  }

  lemma {:induction false} UpdateKeepsKeys(rows: seq<Telemetry>, i: nat, r: Telemetry)
    requires i < |rows| && SameReading(rows[i], r)
    ensures KeysOf(rows[i := r], ReadingKey) == KeysOf(rows, ReadingKey)
  {
    var init := rows[..|rows| - 1];
    if i < |rows| - 1 {
      UpdateKeepsKeys(init, i, r);
      assert rows[i := r][..|rows| - 1] == init[i := r];
    } else {
      assert rows[i := r][..|rows| - 1] == init;
    }
  }

  lemma StoredKeys(rows: seq<Telemetry>, t: Telemetry)
    ensures KeysOf(WithTelemetry(rows, t), ReadingKey) == KeysOf(rows, ReadingKey) + {ReadingKey(t)}
  {
    var i := FindReading(rows, t);
    FoundExactly(rows, t);
    if i < |rows| {
      UpdateKeepsKeys(rows, i, t.(metrics := rows[i].metrics + t.metrics));
    } else {
      assert (rows + [t])[..|rows|] == rows;
    }
  }

  lemma StoredOncePerKey(rows: seq<Telemetry>, t: Telemetry)
    requires OneRowPerKey(rows)
    ensures OneRowPerKey(WithTelemetry(rows, t))
  {
    var i, after := FindReading(rows, t), WithTelemetry(rows, t);
    forall j | 0 <= j < |after| ensures ReadingKey(after[j]) == ReadingKey(if j < |rows| then rows[j] else t) {
    }
    if i == |rows| {
      forall j | 0 <= j < |rows| ensures !SameReading(rows[j], t) {
      }
    }
  }

  lemma FoundOnce(rows: seq<Telemetry>, t: Telemetry, j: nat)
    requires OneRowPerKey(rows) && j < |rows| && j != FindReading(rows, t)
    ensures !SameReading(rows[j], t)
  {
    var i := FindReading(rows, t);
    if i < j {
      assert !SameReading(rows[i], rows[j]);
    }
  }

  lemma LastPresentAppend(received: seq<Telemetry>, t: Telemetry, r: Telemetry, m: Metric)
    ensures LastPresent(received + [t], r, m)
         == if SameReading(t, r) && m in t.metrics then Some(t.metrics[m]) else LastPresent(received, r, m)
  {
    assert (received + [t])[..|received|] == received;
  }

  lemma StoredMetric(rows: seq<Telemetry>, received: seq<Telemetry>, t: Telemetry, j: nat, m: Metric)
    requires Describes(rows, received)
    requires j < |WithTelemetry(rows, t)|
    ensures var r := WithTelemetry(rows, t)[j]; Lookup(r, m) == LastPresent(received + [t], r, m)
  {
    var r := WithTelemetry(rows, t)[j];
    LastPresentAppend(received, t, r, m);
    if j == |rows| {
      FoundExactly(rows, t);
      NeverReceived(received, t, m);
    } else {
      assert Lookup(rows[j], m) == LastPresent(received, rows[j], m);
      LastPresentKey(received, rows[j], r, m);
      if j != FindReading(rows, t) {
        FoundOnce(rows, t, j);
      }
    }
  }

  lemma StoreReading(rows: seq<Telemetry>, received: seq<Telemetry>, t: Telemetry)
    requires Describes(rows, received)
    ensures Describes(WithTelemetry(rows, t), received + [t])
  {
    StoredKeys(rows, t);
    StoredOncePerKey(rows, t);
    assert (received + [t])[..|received|] == received;
    forall j, m | 0 <= j < |WithTelemetry(rows, t)|
      ensures Lookup(WithTelemetry(rows, t)[j], m) == LastPresent(received + [t], WithTelemetry(rows, t)[j], m)
    {
      StoredMetric(rows, received, t, j, m);
    }
  }

  function TelemetryIn(ps: seq<Payload>): seq<Telemetry>
    requires forall p :: p in ps ==> p.Data?
  {
    if ps == [] then [] else ps[0].telemetry + TelemetryIn(ps[1..])
  }

  lemma {:induction false} MergeDescribes(rows: seq<Telemetry>, received: seq<Telemetry>, incoming: seq<Telemetry>)
    requires Describes(rows, received)
    ensures Describes(MergeTelemetry(rows, incoming), received + incoming)
    decreases |incoming|
  {
    hide Describes, WithTelemetry;
    if incoming == [] {
      assert received + incoming == received;
    } else {
      var rows', received' := WithTelemetry(rows, incoming[0]), received + [incoming[0]];
      StoreReading(rows, received, incoming[0]);
      MergeDescribes(rows', received', incoming[1..]);
      assert received + incoming == received' + incoming[1..];
      assert MergeTelemetry(rows, incoming) == MergeTelemetry(rows', incoming[1..]);
    }
  }

  /** After any run of incoming data the telemetry table has one row per key, and each
      metric of it is the last value that was present in any row received for the key. */
  lemma {:induction false} TelemetryHoldsLastValues(t: Tables, ps: seq<Payload>, received: seq<Telemetry>)
    requires forall p :: p in ps ==> p.Data?
    requires Describes(t.telemetry, received)
    ensures Describes(AfterAll(t, ps).telemetry, received + TelemetryIn(ps))
    decreases |ps|
  {
    hide Describes, MergeTelemetry;
    if ps == [] {
      assert received + TelemetryIn(ps) == received;
    } else {
      var u, received' := AfterData(t, ps[0]), received + ps[0].telemetry;
      assert Describes(u.telemetry, received') by {
        MergeDescribes(t.telemetry, received, ps[0].telemetry);
      }
      TelemetryHoldsLastValues(u, ps[1..], received');
      assert received + TelemetryIn(ps) == received' + TelemetryIn(ps[1..]);
      assert AfterAll(t, ps) == AfterAll(u, ps[1..]);
    }
  }
}
