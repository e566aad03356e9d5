/** The replicated tables of the database, and the queries the sync protocol makes on them.

    A table is the sequence of its rows in insertion order, so a row's rowid is its
    position plus one.  SQLite itself is not part of this model. */
module Tables {
  import opened Options

  /** Reception details of a message; only paged replies carry them, pushes do not. */
  datatype Signal = Signal(snr: real, rssi: int, hopStart: nat, hopLimit: nat, relayNode: nat)

  const NO_SIGNAL := Signal(0.0, 0, 0, 0, 0)

  datatype Message = Message(
    device: string, windowKind: string, windowTarget: nat, direction: string,
    fromNode: nat, toNode: nat, channelIdx: nat, text: string, ts: nat,
    packetId: nat, ackState: string, signal: Signal, replyId: nat, emoji: nat)

  datatype Location = Location(
    device: string, nodeNum: nat, latitude: real, longitude: real, altitude: int, ts: nat)

  datatype Metric =
    | BatteryLevel | Voltage | ChannelUtil | AirUtilTx | UptimeSeconds
    | Temperature | RelativeHumidity | BarometricPressure | GasResistance | Iaq
    | Pm25 | Co2 | Current | Snr | HopsAway

  /** A telemetry row; a metric absent from the map is a NULL column. */
  datatype Telemetry = Telemetry(device: string, nodeNum: nat, ts: nat, metrics: map<Metric, real>)

  datatype Tables = Tables(messages: seq<Message>, locations: seq<Location>, telemetry: seq<Telemetry>)

  function MessageTs(m: Message): nat { m.ts }
  function LocationTs(l: Location): nat { l.ts }
  function TelemetryTs(t: Telemetry): nat { t.ts }

  // ---------------------------------------------------------------- lookups

  predicate HasPacket(rows: seq<Message>, pid: nat) {
    exists m :: m in rows && m.packetId == pid
  }

  predicate SamePlace(a: Location, b: Location) {
    a.device == b.device && a.nodeNum == b.nodeNum && a.ts == b.ts
  }

  predicate HasPlace(rows: seq<Location>, l: Location) {
    exists r :: r in rows && SamePlace(r, l)
  }

  function ReadingKey(t: Telemetry): (string, nat, nat) { (t.device, t.nodeNum, t.ts) }

  predicate SameReading(a: Telemetry, b: Telemetry) {
    ReadingKey(a) == ReadingKey(b)
  }

  /** Position of the first telemetry row with the key of `t`, or the table's length. */
  function FindReading(rows: seq<Telemetry>, t: Telemetry): (i: nat)
    ensures i <= |rows|
    ensures forall j :: 0 <= j < i ==> !SameReading(rows[j], t)
    ensures i < |rows| ==> SameReading(rows[i], t)
  {
    if rows == [] || SameReading(rows[0], t) then 0 else 1 + FindReading(rows[1..], t)
  }

  /** The keys of some rows. */
  ghost function KeysOf<T, K>(rows: seq<T>, key: T -> K): set<K> {
    if rows == [] then {} else KeysOf(rows[..|rows| - 1], key) + {key(rows[|rows| - 1])}
  }

  // --------------------------------------------------------------- inserting

  function WithLocation(rows: seq<Location>, l: Location): seq<Location> {
    if HasPlace(rows, l) then rows else rows + [l]
  }

  /** A second report for a key fills in the row: present metrics replace, absent ones stay. */
  function WithTelemetry(rows: seq<Telemetry>, t: Telemetry): seq<Telemetry> {
    var i := FindReading(rows, t);
    if i < |rows| then rows[i := t.(metrics := rows[i].metrics + t.metrics)]
    else rows + [t]
  }

  // ------------------------------------------------------------------ paging

  /** `MAX(ts)`, zero on an empty table. */
  function MaxTs<T>(rows: seq<T>, ts: T -> nat): nat {
    if rows == [] then 0
    else
      var rest := MaxTs(rows[1..], ts);
      if ts(rows[0]) > rest then ts(rows[0]) else rest
  }

  function InsertSorted<T>(r: T, s: seq<T>, ts: T -> nat): seq<T> {
    if s == [] || ts(r) <= ts(s[0]) then [r] + s
    else [s[0]] + InsertSorted(r, s[1..], ts)
  }

  /** `WHERE ts > after ORDER BY ts ASC`. */
  function RowsAfter<T>(rows: seq<T>, ts: T -> nat, after: nat): seq<T> {
    if rows == [] then []
    else
      var rest := RowsAfter(rows[1..], ts, after);
      if ts(rows[0]) > after then InsertSorted(rows[0], rest, ts) else rest
  }

  function Limit<T>(rows: seq<T>, n: nat): seq<T> {
    if |rows| <= n then rows else rows[..n]
  }

  // ---------------------------------------------------------- the object

  class Database {
    var messages: seq<Message>
    var locations: seq<Location>
    var telemetry: seq<Telemetry>

    function Contents(): Tables
      reads this
    {
      Tables(messages, locations, telemetry)
    }

    constructor ()
      ensures Contents() == Tables([], [], [])
    {
      messages, locations, telemetry := [], [], [];
    }

    method InsertMessage(m: Message) returns (rowid: nat)
      modifies this
      ensures Contents() == old(Contents()).(messages := old(messages) + [m])
      ensures rowid == |messages| && messages[rowid - 1] == m
    {
      messages := messages + [m];
      rowid := |messages|;
    }

    /** Changes at most the one row; rowid 0 and unknown rowids change nothing. */
    method UpdateAckState(rowid: nat, ackState: string)
      modifies this
      ensures locations == old(locations) && telemetry == old(telemetry)
      ensures 1 <= rowid <= |old(messages)| ==>
                messages == old(messages)[rowid - 1 := old(messages)[rowid - 1].(ackState := ackState)]
      ensures !(1 <= rowid <= |old(messages)|) ==> messages == old(messages)
    {
      if 1 <= rowid <= |messages| {
        messages := messages[rowid - 1 := messages[rowid - 1].(ackState := ackState)];
      }
    }

    /** The newest row with the packet id. */
    method FindByPacketId(pid: nat) returns (found: Option<Message>)
      ensures found.None? <==> !HasPacket(messages, pid)
      ensures found.Some? ==>
                exists i :: 0 <= i < |messages| && messages[i] == found.value && found.value.packetId == pid
                         && forall j :: i < j < |messages| ==> messages[j].packetId != pid
    {
      var i: nat := |messages|;
      while i > 0
        invariant 0 <= i <= |messages|
        invariant forall j :: i <= j < |messages| ==> messages[j].packetId != pid
      {
        i := i - 1;
        if messages[i].packetId == pid {
          return Some(messages[i]);
        }
      }
      return None;
    }

    /** False, and no change, when the device reported that node at that time before. */
    method InsertLocation(l: Location) returns (inserted: bool)
      modifies this
      ensures Contents() == old(Contents()).(locations := WithLocation(old(locations), l))
      ensures inserted <==> !HasPlace(old(locations), l)
    {
      if HasPlace(locations, l) {
        return false;
      }
      locations := locations + [l];
      return true;
    }

    /** True for an update as well as for a new row. */
    method InsertTelemetry(t: Telemetry) returns (stored: bool)
      modifies this
      ensures Contents() == old(Contents()).(telemetry := WithTelemetry(old(telemetry), t))
      ensures stored
    {
      var i := FindReading(telemetry, t);
      if i < |telemetry| {
        telemetry := telemetry[i := t.(metrics := telemetry[i].metrics + t.metrics)];
      } else {
        telemetry := telemetry + [t];
      }
      return true;
    }
  }

  // ------------------------------------------------- what the queries return

  predicate Sorted<T>(s: seq<T>, ts: T -> nat) {
    forall i, j :: 0 <= i < j < |s| ==> ts(s[i]) <= ts(s[j])
  }

  lemma {:induction false} InsertSortedRows<T>(r: T, s: seq<T>, ts: T -> nat)
    ensures multiset(InsertSorted(r, s, ts)) == multiset{r} + multiset(s)
    ensures forall x :: x in InsertSorted(r, s, ts) <==> x == r || x in s
  {
    if s == [] || ts(r) <= ts(s[0]) {
    } else {
      InsertSortedRows(r, s[1..], ts);
      assert s == [s[0]] + s[1..];
    }
  }

  lemma {:induction false} InsertSortedSorted<T>(r: T, s: seq<T>, ts: T -> nat)
    requires Sorted(s, ts)
    ensures Sorted(InsertSorted(r, s, ts), ts)
  {
    if s == [] || ts(r) <= ts(s[0]) {
    } else {
      var rest := InsertSorted(r, s[1..], ts);
      InsertSortedSorted(r, s[1..], ts);
      InsertSortedRows(r, s[1..], ts);
      forall i | 0 <= i < |rest| ensures ts(s[0]) <= ts(rest[i]) {
        assert rest[i] in multiset(rest);
        if rest[i] != r {
          assert rest[i] in multiset(s[1..]);
        }
      }
    }
  }

  function Keep<T>(rows: seq<T>, ts: T -> nat, after: nat): seq<T> {
    if rows == [] then []
    else if ts(rows[0]) > after then [rows[0]] + Keep(rows[1..], ts, after)
    else Keep(rows[1..], ts, after)
  }

  /** The query returns exactly the rows newer than the cursor, oldest first. */
  lemma {:induction false} RowsAfterExact<T>(rows: seq<T>, ts: T -> nat, after: nat)
    ensures Sorted(RowsAfter(rows, ts, after), ts)
    ensures multiset(RowsAfter(rows, ts, after)) == multiset(Keep(rows, ts, after))
    ensures forall r :: r in RowsAfter(rows, ts, after) <==> r in rows && ts(r) > after
  {
    if rows != [] {
      var rest := RowsAfter(rows[1..], ts, after);
      RowsAfterExact(rows[1..], ts, after);
      assert rows == [rows[0]] + rows[1..];
      if ts(rows[0]) > after {
        InsertSortedSorted(rows[0], rest, ts);
        InsertSortedRows(rows[0], rest, ts);
      }
    }
  }

  lemma RowsAfterHas<T>(rows: seq<T>, ts: T -> nat, after: nat, r: T)
    ensures r in RowsAfter(rows, ts, after) <==> r in rows && ts(r) > after
  {
    RowsAfterExact(rows, ts, after);
    assert r in RowsAfter(rows, ts, after) <==> r in multiset(RowsAfter(rows, ts, after));
    KeepHas(rows, ts, after, r);
    assert r in Keep(rows, ts, after) <==> r in multiset(Keep(rows, ts, after));
  }

  lemma {:induction false} KeepHas<T>(rows: seq<T>, ts: T -> nat, after: nat, r: T)
    ensures r in Keep(rows, ts, after) <==> r in rows && ts(r) > after
  {
    if rows != [] {
      KeepHas(rows[1..], ts, after, r);
      assert rows == [rows[0]] + rows[1..];
    }
  }

  lemma {:induction false} MaxTsBounds<T>(rows: seq<T>, ts: T -> nat)
    ensures forall r :: r in rows ==> ts(r) <= MaxTs(rows, ts)
    ensures rows == [] ==> MaxTs(rows, ts) == 0
    ensures rows != [] ==> exists r :: r in rows && ts(r) == MaxTs(rows, ts)
  {
    if rows != [] {
      MaxTsBounds(rows[1..], ts);
      assert rows == [rows[0]] + rows[1..];
      assert rows[0] in rows;
      if rows[1..] != [] {
        var r :| r in rows[1..] && ts(r) == MaxTs(rows[1..], ts);
        assert r in rows;
      }
    }
  }

  /** Moving the cursor forward only drops rows from the front of the result. */
  lemma {:induction false} RowsAfterLater<T>(rows: seq<T>, ts: T -> nat, c: nat, d: nat)
    requires c <= d
    ensures RowsAfter(rows, ts, d) == Keep(RowsAfter(rows, ts, c), ts, d)
  {
    if rows != [] {
      var rest := RowsAfter(rows[1..], ts, c);
      RowsAfterLater(rows[1..], ts, c, d);
      RowsAfterExact(rows[1..], ts, c);
      if ts(rows[0]) > c {
        KeepInsert(rows[0], rest, ts, d);
      }
    }
  }

  lemma {:induction false} KeepInsert<T>(r: T, s: seq<T>, ts: T -> nat, d: nat)
    requires Sorted(s, ts)
    ensures Keep(InsertSorted(r, s, ts), ts, d)
         == if ts(r) > d then InsertSorted(r, Keep(s, ts, d), ts) else Keep(s, ts, d)
  {
    if s == [] || ts(r) <= ts(s[0]) {
      assert ([r] + s)[1..] == s;
      if ts(r) > d {
        KeepAll(s, ts, d);
      }
    } else {
      KeepInsert(r, s[1..], ts, d);
      assert ([s[0]] + InsertSorted(r, s[1..], ts))[1..] == InsertSorted(r, s[1..], ts);
      if ts(r) > d && ts(s[0]) > d {
        var kept := Keep(s[1..], ts, d);
        assert ([s[0]] + kept)[1..] == kept;
      } else if ts(r) > d {
        var kept := Keep(s[1..], ts, d);
      }
    }
  }

  lemma {:induction false} KeepAll<T>(s: seq<T>, ts: T -> nat, d: nat)
    requires forall r :: r in s ==> ts(r) > d
    ensures Keep(s, ts, d) == s
  {
    if s != [] {
      assert s[0] in s;
      KeepAll(s[1..], ts, d);
      assert s == [s[0]] + s[1..];
    }
  }

  /** On sorted rows the cursor cuts off a prefix. */
  lemma {:induction false} KeepSuffix<T>(s: seq<T>, ts: T -> nat, d: nat, n: nat)
    requires n <= |s|
    requires forall i :: 0 <= i < n ==> ts(s[i]) <= d
    requires forall i :: n <= i < |s| ==> ts(s[i]) > d
    ensures Keep(s, ts, d) == s[n..]
  {
    if n == 0 {
      KeepAll(s, ts, d);
      assert s[0..] == s;
    } else {
      KeepSuffix(s[1..], ts, d, n - 1);
      assert s[1..][n - 1..] == s[n..];
    }
  }

  // -------------------------------------------------------------------- keys

  lemma {:induction false} KeysConcat<T, K>(s: seq<T>, t: seq<T>, key: T -> K)
    ensures KeysOf(s + t, key) == KeysOf(s, key) + KeysOf(t, key)
  {
    if t == [] {
      assert s + t == s;
    } else {
      var n := |t| - 1;
      KeysConcat(s, t[..n], key);
      assert (s + t)[..|s + t| - 1] == s + t[..n];
    }
  }

  /** A row's key is among the keys, and a key among them is some row's. */
  lemma {:induction false} KeyOfRow<T, K>(rows: seq<T>, key: T -> K, i: nat)
    requires i < |rows|
    ensures key(rows[i]) in KeysOf(rows, key)
  {
    if i < |rows| - 1 {
      KeyOfRow(rows[..|rows| - 1], key, i);
    }
  }

  lemma {:induction false} RowOfKey<T, K>(rows: seq<T>, key: T -> K, k: K) returns (i: nat)
    requires k in KeysOf(rows, key)
    ensures i < |rows| && key(rows[i]) == k
  {
    i := |rows| - 1;
    if key(rows[i]) != k {
      i := RowOfKey(rows[..i], key, k);
    }
  }

  lemma KeyOfMember<T, K>(rows: seq<T>, key: T -> K, r: T)
    requires r in rows
    ensures key(r) in KeysOf(rows, key)
  {
    var i :| 0 <= i < |rows| && rows[i] == r;
    KeyOfRow(rows, key, i);
  }
}
