/** The mesh service's packet bookkeeping: the dedup window, the packet id generator and
    the table of messages waiting for an acknowledgement. */
module PacketTracking {
  const TWO32 := 0x1_0000_0000
  const WINDOW := 500

  // ------------------------------------------------------------ dedup window

  /** A heard message: the sender and its packet id, both 32 bits wide. */
  datatype Heard = Heard(from: nat, id: nat)

  predicate Wide(h: Heard) {
    h.from < TWO32 && h.id < TWO32
  }

  /** The two numbers packed into one 64-bit key. */
  function PairKey(h: Heard): nat {
    h.from * TWO32 + h.id
  }

  lemma PairKeyInjective(a: Heard, b: Heard)
    requires Wide(a) && Wide(b) && PairKey(a) == PairKey(b)
    ensures a == b
  {
    assert a.id == PairKey(a) % TWO32 && b.id == PairKey(b) % TWO32;
  }

  function Last<T>(s: seq<T>, n: nat): seq<T> {
    if |s| <= n then s else s[|s| - n..]
  }

  /** Among the last five hundred accepted. */
  predicate Duplicate(accepted: seq<Heard>, h: Heard) {
    h.id != 0 && h in Last(accepted, WINDOW)
  }

  /** The acceptances after one more message: ids of zero and duplicates are not recorded. */
  function Record(accepted: seq<Heard>, h: Heard): seq<Heard> {
    if h.id == 0 || Duplicate(accepted, h) then accepted else accepted + [h]
  }

  function RecordAll(accepted: seq<Heard>, hs: seq<Heard>): seq<Heard>
    decreases |hs|
  {
    if hs == [] then accepted else RecordAll(Record(accepted, hs[0]), hs[1..])
  }

  /** Two acceptances of one pair are separated by at least five hundred others. */
  predicate Spaced(accepted: seq<Heard>) {
    forall i, j :: 0 <= i < j < |accepted| && accepted[i] == accepted[j] ==> j - i - 1 >= WINDOW
  }

  /** In every run acceptances of one pair are spaced. */
  lemma {:induction false} EveryRunIsSpaced(accepted: seq<Heard>, hs: seq<Heard>)
    requires Spaced(accepted)
    ensures Spaced(RecordAll(accepted, hs))
    decreases |hs|
  {
    if hs != [] {
      RecordSpaced(accepted, hs[0]);
      EveryRunIsSpaced(Record(accepted, hs[0]), hs[1..]);
    }
  }

  lemma RecordSpaced(accepted: seq<Heard>, h: Heard)
    requires Spaced(accepted)
    ensures Spaced(Record(accepted, h))
  {
    if h.id != 0 && !Duplicate(accepted, h) {
      var window := Last(accepted, WINDOW);
      var offset := |accepted| - |window|;
      forall i | offset <= i < |accepted| ensures accepted[i] in window {
        assert window[i - offset] == accepted[i];
      }
    }
  }

  /** A pair that was accepted is a duplicate until five hundred others have been accepted. */
  lemma DuplicateExactly(before: seq<Heard>, h: Heard, others: seq<Heard>)
    requires h.id != 0 && h !in others
    ensures Duplicate(before + [h] + others, h) <==> |others| < 500
  {
    var all := before + [h] + others;
    var window := Last(all, WINDOW);
    if |others| < WINDOW {
      assert window[|window| - 1 - |others|] == all[|before|] == h;
    } else {
      assert forall i :: 0 <= i < |window| ==> window[i] == others[|others| - |window| + i];
    }
  }

  /** A pair is accepted if no message of that sender had that id, whatever other senders used. */
  lemma NewPairAccepted(accepted: seq<Heard>, h: Heard)
    requires h.id != 0 && forall i :: 0 <= i < |accepted| && accepted[i].id == h.id ==> accepted[i].from != h.from
    ensures Record(accepted, h) == accepted + [h]
  {
    assert h !in accepted;
  }

  class DedupWindow {
    var seen: seq<nat>
    ghost var accepted: seq<Heard>

    ghost predicate Valid()
      reads this
    {
      && (forall i :: 0 <= i < |accepted| ==> Wide(accepted[i]) && accepted[i].id != 0)
      && Spaced(accepted)
      && |seen| == |Last(accepted, WINDOW)|
      && (forall i :: 0 <= i < |seen| ==> seen[i] == PairKey(Last(accepted, WINDOW)[i]))
    }

    constructor ()
      ensures Valid() && accepted == []
    {
      seen, accepted := [], [];
    }

    /** True exactly for a pair with nonzero id among the last five hundred accepted. */
    method IsDuplicate(from: nat, id: nat) returns (dup: bool)
      requires Valid() && from < TWO32 && id < TWO32
      modifies this
      ensures Valid() && |seen| <= WINDOW
      ensures dup <==> Duplicate(old(accepted), Heard(from, id))
      ensures dup <==> id != 0 && exists k :: 0 <= k < |old(accepted)| && |old(accepted)| - k <= 500
                                              && old(accepted)[k].from == from && old(accepted)[k].id == id
      ensures accepted == old(accepted) + if dup || id == 0 then [] else [Heard(from, id)]
      ensures accepted == Record(old(accepted), Heard(from, id))
    {
      hide Spaced;
      var h := Heard(from, id);
      if id == 0 {
        return false;
      }
      var key := from * TWO32 + id;
      var i := 0;
      while i < |seen|
        invariant 0 <= i <= |seen|
        invariant forall j :: 0 <= j < i ==> Last(accepted, WINDOW)[j] != h
      {
        if seen[i] == key {
          PairKeyInjective(Last(accepted, WINDOW)[i], h);
          return true;
        }
        assert Last(accepted, WINDOW)[i] != h;
        i := i + 1;
      }
      RecordSpaced(accepted, h);
      seen := seen + [key];
      accepted := accepted + [h];
      if |seen| > WINDOW {
        seen := seen[1..];
      }
      return false;
    }

    /** The window holds each key once. */
    lemma KeysDistinct(i: nat, j: nat)
      requires Valid() && i < j < |seen|
      ensures seen[i] != seen[j]
    {
      var window := Last(accepted, WINDOW);
      var offset := |accepted| - |window|;
      assert window[i] == accepted[offset + i] && window[j] == accepted[offset + j];
      if seen[i] == seen[j] {
        PairKeyInjective(window[i], window[j]);
      }
    }
  }

  // -------------------------------------------------------------- packet ids

  const LOW := 1024
  const HIGH := 0x40_0000

  /** Low ten bits one up, the other twenty-two from the random source. */
  function NextId(id: nat, random: nat): nat {
    (id + 1) % LOW + (random % HIGH) * LOW
  }

  /** The ids given out after `start`, one for each number the random source returns. */
  function Ids(start: nat, random: seq<nat>): seq<nat>
    decreases |random|
  {
    if random == [] then []
    else [NextId(start, random[0])] + Ids(NextId(start, random[0]), random[1..])
  }

  lemma {:induction false} IdAt(start: nat, random: seq<nat>, i: nat)
    requires i < |random|
    ensures |Ids(start, random)| == |random|
    ensures Ids(start, random)[i] == (start + 1 + i) % LOW + (random[i] % HIGH) * LOW
    decreases i
  {
    var next := NextId(start, random[0]);
    IdsLength(next, random[1..]);
    if i > 0 {
      IdAt(next, random[1..], i - 1);
      LowStep(start, random[0], i - 1);
    }
  }

  lemma {:induction false} IdsLength(start: nat, random: seq<nat>)
    ensures |Ids(start, random)| == |random|
    decreases |random|
  {
    if random != [] {
      IdsLength(NextId(start, random[0]), random[1..]);
    }
  }

  lemma LowStep(start: nat, r: nat, k: nat)
    ensures (NextId(start, r) + 1 + k) % LOW == (start + 2 + k) % LOW
  {
    var h := r % HIGH;
    var low := (start + 1) % LOW;
    assert start + 1 == low + (start + 1) / LOW * LOW;
    assert NextId(start, r) + 1 + k == (low + 1 + k) + h * LOW;
    assert start + 2 + k == (low + 1 + k) + (start + 1) / LOW * LOW;
    ModMultiple(low + 1 + k, h);
    ModMultiple(low + 1 + k, (start + 1) / LOW);
  }

  lemma ModMultiple(a: nat, k: nat)
    ensures (a + k * LOW) % LOW == a % LOW
  {
  }

  /** Two ids are the same exactly when they were given out a multiple of 1024 calls apart
      and the random source returned the same twenty-two bits. */
  lemma SameIdExactly(start: nat, random: seq<nat>, i: nat, j: nat)
    requires i <= j < |random|
    ensures |Ids(start, random)| == |random|
    ensures Ids(start, random)[i] == Ids(start, random)[j]
            <==> (j - i) % 1024 == 0 && random[i] % 0x40_0000 == random[j] % 0x40_0000
  {
    hide Ids;
    IdAt(start, random, i);
    IdAt(start, random, j);
    SameRemainder(start + 1 + i, start + 1 + j);
  }

  lemma SameRemainder(a: nat, b: nat)
    requires a <= b
    ensures a % LOW == b % LOW <==> (b - a) % LOW == 0
  {
  }

  /** Whatever the random source returns, any 1024 consecutive ids are different. */
  lemma ConsecutiveIdsDiffer(start: nat, random: seq<nat>, i: nat, j: nat)
    requires i < j < |random| && j - i < 1024
    ensures |Ids(start, random)| == |random| && Ids(start, random)[i] != Ids(start, random)[j]
  {
    SameIdExactly(start, random, i, j);
  }

  /** An id is zero, which callers take for a failure and which the duplicate tests let through,
      exactly when the count of calls wraps and the random source returns twenty-two zero bits. */
  lemma ZeroExactly(start: nat, random: seq<nat>, i: nat)
    requires i < |random|
    ensures |Ids(start, random)| == |random|
    ensures Ids(start, random)[i] == 0 <==> (start + 1 + i) % 1024 == 0 && random[i] % 0x40_0000 == 0
  {
    hide Ids;
    IdAt(start, random, i);
  }

  /** Zero is given out within 1024 calls when the random source keeps returning zero bits. */
  lemma ZeroIsGivenOut(start: nat, random: seq<nat>)
    requires |random| >= 1024 && forall i :: 0 <= i < |random| ==> random[i] % 0x40_0000 == 0
    ensures 0 in Ids(start, random)
  {
    var i := (LOW - (start + 1) % LOW) % LOW;
    assert (start + 1 + i) % LOW == 0;
    ZeroExactly(start, random, i);
    assert Ids(start, random)[i] == 0;
  }

  class IdGenerator {
    var packetId: nat

    constructor (seed: nat)
      ensures packetId == seed
    {
      packetId := seed;
    }

    method NextPacketId(random: nat) returns (id: nat)
      modifies this
      ensures id == packetId == NextId(old(packetId), random) && id < TWO32
    {
      var next := (packetId + 1) % TWO32;
      ModMultiple(next, (packetId + 1) / TWO32 * HIGH);
      next := next % LOW;
      var randomPart := random % HIGH * LOW;
      packetId := next + randomPart;
      id := packetId;
    }
  }

  // --------------------------------------------------------- acknowledgements

  datatype Ack = NotWanted | Pending | Acked | Naked

  /** The columns of an outgoing message row that acknowledgements are about, and the device
      it was sent over: for a virtual device that is the stream it is reached through. */
  datatype Row = Row(device: string, via: string, packetId: nat, ack: Ack)

  /** All outgoing rows, for each device messages are sent over and each packet id the row
      waiting for an acknowledgement, and the rows no longer waited for since their device was
      disconnected. */
  datatype Outbox = Outbox(rows: seq<Row>, pending: map<(string, nat), nat>, lost: set<nat>)

  datatype Event =
    | SendText(device: string, via: string, packetId: nat, wantAck: bool)
    | AckReceived(via: string, packetId: nat, success: bool)
    | Disconnect(via: string)

  /** What a disconnected device's table of waiting rows leaves, and its rows. */
  function Without(pending: map<(string, nat), nat>, d: string): map<(string, nat), nat> {
    map k | k in pending && k.0 != d :: pending[k]
  }

  function RowsOf(pending: map<(string, nat), nat>, d: string): set<nat> {
    set k | k in pending && k.0 == d :: pending[k]
  }

  function Next(o: Outbox, e: Event): Outbox {
    match e
    case SendText(device, d, p, want) =>
      o.(rows := o.rows + [Row(device, d, p, if want then Pending else NotWanted)],
         pending := if want then o.pending[(d, p) := |o.rows|] else o.pending)
    case AckReceived(d, p, ok) =>
      if (d, p) in o.pending && o.pending[(d, p)] < |o.rows| then
        var i := o.pending[(d, p)];
        o.(rows := o.rows[i := o.rows[i].(ack := if ok then Acked else Naked)], pending := o.pending - {(d, p)})
      else o
    case Disconnect(d) => o.(pending := Without(o.pending, d), lost := o.lost + RowsOf(o.pending, d))
  }

  function RunEvents(o: Outbox, es: seq<Event>): Outbox
    decreases |es|
  {
    if es == [] then o else RunEvents(Next(o, es[0]), es[1..])
  }

  /** The row of the most recent send over a device with the packet id that wanted an
      acknowledgement, or -1. */
  function Latest(rows: seq<Row>, d: string, p: nat): int {
    if rows == [] then -1
    else
      var last := rows[|rows| - 1];
      if last.via == d && last.packetId == p && !last.ack.NotWanted? then |rows| - 1
      else Latest(rows[..|rows| - 1], d, p)
  }

  /** The table of waiting rows points at the latest row of each key, if that is pending and not
      lost; lost rows are pending. */
  ghost predicate Tracks(o: Outbox) {
    (forall d, p :: TracksKey(o, d, p)) && forall i :: i in o.lost ==> i < |o.rows| && o.rows[i].ack.Pending?
  }

  ghost predicate TracksKey(o: Outbox, d: string, p: nat) {
    var i := Latest(o.rows, d, p);
    if 0 <= i < |o.rows| && o.rows[i].ack.Pending? && i !in o.lost then (d, p) in o.pending && o.pending[(d, p)] == i
    else (d, p) !in o.pending
  }

  lemma {:induction false} LatestIsRow(rows: seq<Row>, d: string, p: nat)
    ensures -1 <= Latest(rows, d, p) < |rows|
    ensures Latest(rows, d, p) >= 0 ==>
              var r := rows[Latest(rows, d, p)]; r.via == d && r.packetId == p && !r.ack.NotWanted?
  {
    if rows != [] {
      LatestIsRow(rows[..|rows| - 1], d, p);
    }
  }

  /** Settling a row does not change which row is the latest of any key. */
  lemma {:induction false} LatestAfterSettle(rows: seq<Row>, i: nat, a: Ack, d: string, p: nat)
    requires i < |rows| && !rows[i].ack.NotWanted? && !a.NotWanted?
    ensures Latest(rows[i := rows[i].(ack := a)], d, p) == Latest(rows, d, p)
  {
    var n := |rows| - 1;
    if i < n {
      LatestAfterSettle(rows[..n], i, a, d, p);
      assert rows[i := rows[i].(ack := a)][..n] == rows[..n][i := rows[i].(ack := a)];
    } else {
      assert rows[i := rows[i].(ack := a)][..n] == rows[..n];
    }
  }

  lemma NextTracksKey(o: Outbox, e: Event, d: string, p: nat)
    requires Tracks(o)
    ensures TracksKey(Next(o, e), d, p)
  {
    assert TracksKey(o, d, p);
    LatestIsRow(o.rows, d, p);
    match e {
      case SendText(device, x, q, want) =>
        assert Next(o, e).rows[..|o.rows|] == o.rows;
      case AckReceived(x, q, ok) =>
        assert TracksKey(o, x, q);
        LatestIsRow(o.rows, x, q);
        var i := Latest(o.rows, x, q);
        if (x, q) in o.pending {
          LatestAfterSettle(o.rows, i, if ok then Acked else Naked, d, p);
        }
      case Disconnect(x) =>
        if (d, p) in o.pending { LostRows(o, x, d, p); }
    }
  }

  /** A disconnect loses the latest row of a key exactly when the key is of that device and its
      row is waited for. */
  lemma LostRows(o: Outbox, x: string, d: string, p: nat)
    requires Tracks(o) && (d, p) in o.pending
    ensures o.pending[(d, p)] in RowsOf(o.pending, x) <==> d == x
  {
    assert TracksKey(o, d, p);
    LatestIsRow(o.rows, d, p);
    if o.pending[(d, p)] in RowsOf(o.pending, x) {
      var k :| k in o.pending && k.0 == x && o.pending[k] == o.pending[(d, p)];
      assert TracksKey(o, k.0, k.1);
      LatestIsRow(o.rows, k.0, k.1);
    }
    if d == x {
      assert (d, p).0 == x;
    }
  }

  lemma NextTracks(o: Outbox, e: Event)
    requires Tracks(o)
    ensures Tracks(Next(o, e))
  {
    forall d, p ensures TracksKey(Next(o, e), d, p) {
      NextTracksKey(o, e, d, p);
    }
    forall i | i in Next(o, e).lost ensures i < |Next(o, e).rows| && Next(o, e).rows[i].ack.Pending? {
      NextLost(o, e, i);
    }
  }

  lemma NextLost(o: Outbox, e: Event, i: nat)
    requires Tracks(o) && i in Next(o, e).lost
    ensures i < |Next(o, e).rows| && Next(o, e).rows[i].ack.Pending?
  {
    if e.Disconnect? && i !in o.lost {
      var k :| k in o.pending && k.0 == e.via && o.pending[k] == i;
      assert TracksKey(o, k.0, k.1);
    } else if e.AckReceived? {
      assert TracksKey(o, e.via, e.packetId);
    }
  }

  lemma {:induction false} EveryRunTracks(o: Outbox, es: seq<Event>)
    requires Tracks(o)
    ensures Tracks(RunEvents(o, es))
    decreases |es|
  {
    if es != [] {
      NextTracks(o, es[0]);
      EveryRunTracks(Next(o, es[0]), es[1..]);
    }
  }

  /** An acknowledgement changes only the row of the most recent send over the device it came
      from that wanted one and carried its id, and that only while it is waited for. */
  lemma AckChangesOnlyLatest(o: Outbox, d: string, p: nat, ok: bool)
    requires Tracks(o)
    ensures var i := Latest(o.rows, d, p);
            Next(o, AckReceived(d, p, ok)).rows
            == if 0 <= i < |o.rows| && o.rows[i].ack.Pending? && i !in o.lost
               then o.rows[i := Row(o.rows[i].device, d, p, if ok then Acked else Naked)] else o.rows
  {
    assert TracksKey(o, d, p);
    LatestIsRow(o.rows, d, p);
  }

  /** A row that is settled, wants no acknowledgement or is lost never changes again. */
  lemma {:induction false} SettledRowsStay(o: Outbox, es: seq<Event>, i: nat)
    requires Tracks(o) && i < |o.rows| && (!o.rows[i].ack.Pending? || i in o.lost)
    ensures i < |RunEvents(o, es).rows| && RunEvents(o, es).rows[i] == o.rows[i]
    decreases |es|
  {
    if es != [] {
      if es[0].AckReceived? {
        AckChangesOnlyLatest(o, es[0].via, es[0].packetId, es[0].success);
      }
      NextTracks(o, es[0]);
      SettledRowsStay(Next(o, es[0]), es[1..], i);
    }
  }

  /** A message sent without asking for an acknowledgement never gets one, and is not waited for. */
  lemma UnwantedIsNeverAcked(o: Outbox, device: string, via: string, p: nat, es: seq<Event>)
    requires Tracks(o)
    ensures var sent := Next(o, SendText(device, via, p, false));
            && sent.pending == o.pending && sent.lost == o.lost
            && |RunEvents(sent, es).rows| > |o.rows|
            && RunEvents(sent, es).rows[|o.rows|] == Row(device, via, p, NotWanted)
  {
    NextTracks(o, SendText(device, via, p, false));
    SettledRowsStay(Next(o, SendText(device, via, p, false)), es, |o.rows|);
  }

  /** A message that asked for one is settled by the next acknowledgement for it. */
  lemma WantedIsSettled(o: Outbox, device: string, via: string, p: nat, ok: bool)
    requires Tracks(o)
    ensures Next(Next(o, SendText(device, via, p, true)), AckReceived(via, p, ok)).rows
         == o.rows + [Row(device, via, p, if ok then Acked else Naked)]
  {
    var sent := Next(o, SendText(device, via, p, true));
    NextTracks(o, SendText(device, via, p, true));
    assert sent.rows[..|o.rows|] == o.rows;
    AckChangesOnlyLatest(sent, via, p, ok);
  }

  /** After a disconnect the acknowledgement is not matched, and the row stays pending for good. */
  lemma DisconnectLosesAck(device: string, via: string, p: nat, ok: bool)
    ensures var sent := Row(device, via, p, Pending);
            var events := [SendText(device, via, p, true), Disconnect(via), AckReceived(via, p, ok)];
            RunEvents(Outbox([], map[], {}), events) == Outbox([sent], map[], {0})
  {
    var e, f, g := SendText(device, via, p, true), Disconnect(via), AckReceived(via, p, ok);
    var o := Next(Outbox([], map[], {}), e);
    assert o == Outbox([Row(device, via, p, Pending)], map[(via, p) := 0], {});
    assert (via, p).0 == via && o.pending[(via, p)] == 0;
    assert Without(o.pending, via) == map[] && RowsOf(o.pending, via) == {0};
    var u := Next(o, f);
    assert Next(u, g) == u && RunEvents(u, []) == u;
    assert [e, f, g][1..] == [f, g] && [f, g][1..] == [g] && [g][1..] == [];
    assert RunEvents(u, [g]) == u;
    assert RunEvents(o, [f, g]) == u;
  }

  class AckTable {
    var rows: seq<Row>
    var pending: map<(string, nat), nat>
    ghost var lost: set<nat>

    ghost function Snapshot(): Outbox
      reads this
    {
      Outbox(rows, pending, lost)
    }

    constructor ()
      ensures Snapshot() == Outbox([], map[], {}) && Tracks(Snapshot())
    {
      rows, pending, lost := [], map[], {};
    }

    method RecordSend(device: string, via: string, packetId: nat, wantAck: bool)
      requires Tracks(Snapshot())
      modifies this
      ensures Snapshot() == Next(old(Snapshot()), SendText(device, via, packetId, wantAck))
      ensures Tracks(Snapshot())
      ensures rows == old(rows) + [Row(device, via, packetId, if wantAck then Pending else NotWanted)]
      ensures !wantAck ==> pending == old(pending)
    {
      NextTracks(Snapshot(), SendText(device, via, packetId, wantAck));
      rows := rows + [Row(device, via, packetId, if wantAck then Pending else NotWanted)];
      if wantAck {
        pending := pending[(via, packetId) := |rows| - 1];
      }
    }

    method HandleAck(via: string, packetId: nat, success: bool)
      requires Tracks(Snapshot())
      modifies this
      ensures Snapshot() == Next(old(Snapshot()), AckReceived(via, packetId, success))
      ensures Tracks(Snapshot())
    {
      NextTracks(Snapshot(), AckReceived(via, packetId, success));
      assert TracksKey(Snapshot(), via, packetId);
      if (via, packetId) in pending {
        var i := pending[(via, packetId)];
        rows := rows[i := rows[i].(ack := if success then Acked else Naked)];
        pending := pending - {(via, packetId)};
      }
    }

    /** The device's record goes, and its table of waiting rows with it. */
    method DropDevice(via: string)
      requires Tracks(Snapshot())
      modifies this
      ensures Snapshot() == Next(old(Snapshot()), Disconnect(via))
      ensures Tracks(Snapshot())
      ensures rows == old(rows) && forall d, p :: (d, p) in pending <==> (d, p) in old(pending) && d != via
    {
      NextTracks(Snapshot(), Disconnect(via));
      lost := lost + RowsOf(pending, via);
      pending := Without(pending, via);
    }
  }
}
