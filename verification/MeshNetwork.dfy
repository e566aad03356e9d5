/** Peers joined by FIFO links, each running the sync manager on its own tables.

    A link is one direction of a connection; a peer sends every payload to all its links.
    A step is one event: a payload delivered and handled, a local store, or a sync start. */
module MeshNetwork {
  import opened Options
  import opened Tables
  import opened DbSync
  import opened ReplicatedTables

  datatype Link = Link(src: nat, dst: nat)

  /** The peers' tables, and for each link the payloads on their way. */
  datatype Net = Net(tables: seq<Tables>, queues: seq<seq<Payload>>)

  predicate WellLinked(links: seq<Link>, net: Net) {
    && |net.queues| == |links|
    && forall j :: 0 <= j < |links| ==> links[j].src < |net.tables| && links[j].dst < |net.tables|
  }

  /** Every connection runs both ways. */
  ghost predicate TwoWay(links: seq<Link>) {
    forall j :: 0 <= j < |links| ==> Linked(links, links[j].dst, links[j].src)
  }

  ghost predicate Linked(links: seq<Link>, a: nat, b: nat) {
    exists j :: 0 <= j < |links| && links[j] == Link(a, b)
  }

  /** `node` sends `out` to all its links. */
  function SendAll(links: seq<Link>, queues: seq<seq<Payload>>, node: nat, out: seq<Payload>): (r: seq<seq<Payload>>)
    requires |queues| == |links|
    ensures |r| == |links|
  {
    seq(|links|, j requires 0 <= j < |links| => if links[j].src == node then queues[j] + out else queues[j])
  }

  /** The first payload on a link arrives and is handled. */
  function Arrive(links: seq<Link>, net: Net, i: nat): (r: Net)
    requires WellLinked(links, net) && i < |links| && net.queues[i] != []
    ensures WellLinked(links, r) && |r.tables| == |net.tables|
  {
    var v, p := links[i].dst, net.queues[i][0];
    var t := net.tables[v];
    Net(net.tables[v := After(t, p)], SendAll(links, net.queues[i := net.queues[i][1..]], v, Sent(t, p)))
  }

  // ------------------------------------------------------------------- keys

  /** What identifies a replicated row: a nonzero packet id, or a place. */
  datatype Key = Packet(id: nat) | Place(device: string, nodeNum: nat, ts: nat)

  function PlaceKey(l: Location): Key { Place(l.device, l.nodeNum, l.ts) }

  function Spot(k: Key): Location
    requires k.Place?
  {
    Location(k.device, k.nodeNum, 0.0, 0.0, 0, k.ts)
  }

  predicate Holds(t: Tables, k: Key) {
    match k
    case Packet(id) => id != 0 && HasPacket(t.messages, id)
    case Place(_, _, _) => HasPlace(t.locations, Spot(k))
  }

  predicate Carries(p: Payload, k: Key) {
    p.Data? &&
    match k
    case Packet(id) => id != 0 && HasPacket(p.messages, id)
    case Place(_, _, _) => HasPlace(p.locations, Spot(k))
  }

  ghost predicate InFlight(queue: seq<Payload>, k: Key) {
    exists i :: 0 <= i < |queue| && Carries(queue[i], k)
  }

  lemma ConcatHasPacket(a: seq<Message>, b: seq<Message>, id: nat)
    ensures HasPacket(a + b, id) <==> HasPacket(a, id) || HasPacket(b, id)
  {
    assert forall m :: m in a + b <==> m in a || m in b;
    if HasPacket(a, id) {
      var m :| m in a && m.packetId == id;
      assert m in a + b;
    }
    if HasPacket(b, id) {
      var m :| m in b && m.packetId == id;
      assert m in a + b;
    }
  }

  lemma ConcatHasPlace(a: seq<Location>, b: seq<Location>, l: Location)
    ensures HasPlace(a + b, l) <==> HasPlace(a, l) || HasPlace(b, l)
  {
    assert forall m :: m in a + b <==> m in a || m in b;
    if HasPlace(a, l) {
      var m :| m in a && SamePlace(m, l);
      assert m in a + b;
    }
    if HasPlace(b, l) {
      var m :| m in b && SamePlace(m, l);
      assert m in a + b;
    }
  }

  lemma FlightAppend(a: seq<Payload>, b: seq<Payload>, k: Key)
    ensures InFlight(a + b, k) <==> InFlight(a, k) || InFlight(b, k)
  {
    if InFlight(a, k) {
      var i :| 0 <= i < |a| && Carries(a[i], k);
      assert Carries((a + b)[i], k);
    }
    if InFlight(b, k) {
      var i :| 0 <= i < |b| && Carries(b[i], k);
      assert Carries((a + b)[|a| + i], k);
    }
  }

  lemma PushesFly(ms: seq<Message>, ls: seq<Location>, k: Key)
    ensures k.Packet? && k.id != 0 && HasPacket(ms, k.id) ==> InFlight(Map(PushMessage, ms), k)
    ensures k.Place? && HasPlace(ls, Spot(k)) ==> InFlight(Map(PushLocation, ls), k)
  {
    if k.Packet? && k.id != 0 && HasPacket(ms, k.id) {
      var m :| m in ms && m.packetId == k.id;
      var i :| 0 <= i < |ms| && ms[i] == m;
      var push := Map(PushMessage, ms)[i];
      assert push.messages[0] == Pushed(m) && Pushed(m) in push.messages;
      assert Carries(push, k);
    }
    if k.Place? && HasPlace(ls, Spot(k)) {
      var l :| l in ls && SamePlace(l, Spot(k));
      var i :| 0 <= i < |ls| && ls[i] == l;
      var push := Map(PushLocation, ls)[i];
      assert push.locations[0] == l && l in push.locations;
      assert Carries(push, k);
    }
  }

  lemma ForwardedFly(t: Tables, p: Payload, k: Key)
    requires p.Data?
    ensures k.Packet? && k.id != 0 && HasPacket(NewMessages(t.messages, p.messages), k.id) ==> InFlight(Sent(t, p), k)
    ensures k.Place? && HasPlace(NewLocations(t.locations, p.locations), Spot(k)) ==> InFlight(Sent(t, p), k)
  {
    var newM, newL := NewMessages(t.messages, p.messages), NewLocations(t.locations, p.locations);
    var ms, ls, ts := Map(PushMessage, newM), Map(PushLocation, newL), Map(PushTelemetry, p.telemetry);
    PushesFly(newM, newL, k);
    FlightAppend(ms, ls, k);
    FlightAppend(ms + ls, ts, k);
    if p.hasMore {
      FlightAppend(Forwarded(t, p), [InventoryOf(AfterData(t, p))], k);
    }
  }

  /** Handling data keeps every key, takes in the keys it carries, and sends on every new key. */
  lemma HandlingSpreadsKeys(t: Tables, p: Payload, k: Key)
    ensures Holds(t, k) ==> Holds(After(t, p), k)
    ensures Carries(p, k) ==> Holds(After(t, p), k)
    ensures Holds(After(t, p), k) && !Holds(t, k) ==> InFlight(Sent(t, p), k)
  {
    if p.Data? {
      ForwardedFly(t, p, k);
      match k {
        case Packet(id) =>
          NewMessagesFacts(t.messages, p.messages);
          ConcatHasPacket(t.messages, NewMessages(t.messages, p.messages), id);
        case Place(_, _, _) =>
          var at := Spot(k);
          NewLocationsFacts(t.locations, p.locations);
          ConcatHasPlace(t.locations, NewLocations(t.locations, p.locations), at);
          if HasPlace(p.locations, at) {
            var l :| l in p.locations && SamePlace(l, at);
            assert HasPlace(AfterData(t, p).locations, l);
          }
      }
    }
  }

  // ---------------------------------------------------------------- the runs

  datatype Step =
    | Deliver(link: nat)
    | StoreAndPush(node: nat, m: Message)    // a text heard by a local radio, or sent on a virtual one
    | StoreQuietly(node: nat, m: Message)    // a text sent on a local radio, or heard twice
    | LocalPosition(node: nat, l: Location)
    | LocalTelemetry(node: nat, t: Telemetry)
    | MarkAck(node: nat, row: nat, ackState: string)
    | InitiateSync(node: nat)

  /** The columns a replicated message keeps from the row it came from. */
  function Content(m: Message): Message {
    m.(ackState := "", signal := NO_SIGNAL, replyId := 0, emoji := 0)
  }

  /** The network together with two histories: the contents of all rows ever stored locally,
      and the keys each peer has stored but never pushed. */
  datatype World = World(net: Net, created: set<Message>, quiet: set<(nat, Key)>)

  predicate Enabled(links: seq<Link>, w: World, s: Step)
    requires WellLinked(links, w.net)
  {
    match s
    case Deliver(i) => i < |links| && w.net.queues[i] != []
    case StoreAndPush(v, _) => v < |w.net.tables|
    case StoreQuietly(v, _) => v < |w.net.tables|
    case LocalPosition(v, _) => v < |w.net.tables|
    case LocalTelemetry(v, _) => v < |w.net.tables|
    case MarkAck(v, i, _) => v < |w.net.tables| && i < |w.net.tables[v].messages|
    case InitiateSync(v) => v < |w.net.tables|
  }

  /** `node` gets new tables and sends `out` to all its links. */
  function Local(links: seq<Link>, net: Net, node: nat, t: Tables, out: seq<Payload>): (r: Net)
    requires WellLinked(links, net) && node < |net.tables|
    ensures WellLinked(links, r) && |r.tables| == |net.tables|
  {
    Net(net.tables[node := t], SendAll(links, net.queues, node, out))
  }

  function Next(links: seq<Link>, w: World, s: Step): (r: World)
    requires WellLinked(links, w.net) && Enabled(links, w, s)
    ensures WellLinked(links, r.net) && |r.net.tables| == |w.net.tables|
  {
    match s
    case Deliver(i) => w.(net := Arrive(links, w.net, i))
    case StoreAndPush(v, m) =>
      var t := w.net.tables[v];
      World(Local(links, w.net, v, t.(messages := t.messages + [m]), [PushMessage(m)]),
            w.created + {Content(m)}, w.quiet - {(v, Packet(m.packetId))})
    case StoreQuietly(v, m) =>
      var t := w.net.tables[v];
      World(Local(links, w.net, v, t.(messages := t.messages + [m]), []),
            w.created + {Content(m)},
            if m.packetId == 0 || Holds(t, Packet(m.packetId)) then w.quiet
            else w.quiet + {(v, Packet(m.packetId))})
    case LocalPosition(v, l) =>
      var t := w.net.tables[v];
      w.(net := Local(links, w.net, v, t.(locations := WithLocation(t.locations, l)), [PushLocation(l)]),
         quiet := w.quiet - {(v, PlaceKey(l))})
    case LocalTelemetry(v, r) =>
      var t := w.net.tables[v];
      w.(net := Local(links, w.net, v, t.(telemetry := WithTelemetry(t.telemetry, r)), [PushTelemetry(r)]))
    case MarkAck(v, i, state) =>
      var t := w.net.tables[v];
      w.(net := Local(links, w.net, v, t.(messages := t.messages[i := t.messages[i].(ackState := state)]), []))
    case InitiateSync(v) =>
      w.(net := Local(links, w.net, v, w.net.tables[v], [InventoryOf(w.net.tables[v])]))
  }

  ghost predicate Runnable(links: seq<Link>, w: World, steps: seq<Step>)
    requires WellLinked(links, w.net)
    decreases |steps|
  {
    steps == [] || (Enabled(links, w, steps[0]) && Runnable(links, Next(links, w, steps[0]), steps[1..]))
  }

  ghost function Run(links: seq<Link>, w: World, steps: seq<Step>): (r: World)
    requires WellLinked(links, w.net) && Runnable(links, w, steps)
    ensures WellLinked(links, r.net) && |r.net.tables| == |w.net.tables|
    decreases |steps|
  {
    if steps == [] then w else Run(links, Next(links, w, steps[0]), steps[1..])
  }

  // ------------------------------------------------------------- local events

  /** Every link out of `node` has one more payload at its end, and no other link has changed. */
  ghost predicate SentOnAll(links: seq<Link>, before: seq<seq<Payload>>, after: seq<seq<Payload>>, node: nat,
                            p: Payload)
    requires |before| == |after| == |links|
  {
    forall j :: 0 <= j < |links| ==> after[j] == if links[j].src == node then before[j] + [p] else before[j]
  }

  /** A reading taken locally is merged into the own row and goes out as it came, whole. */
  lemma TelemetryIsPushed(links: seq<Link>, w: World, v: nat, r: Telemetry, received: seq<Telemetry>)
    requires WellLinked(links, w.net) && v < |w.net.tables| && Describes(w.net.tables[v].telemetry, received)
    ensures var x := Next(links, w, LocalTelemetry(v, r)).net;
            && Describes(x.tables[v].telemetry, received + [r])
            && SentOnAll(links, w.net.queues, x.queues, v, Data([], [], [r], false))
  {
    hide Describes, WithTelemetry;
    StoreReading(w.net.tables[v].telemetry, received, r);
  }

  /** A position goes out whether or not it was known, and is stored once. */
  lemma PositionIsPushed(links: seq<Link>, w: World, v: nat, l: Location)
    requires WellLinked(links, w.net) && v < |w.net.tables|
    ensures var x := Next(links, w, LocalPosition(v, l)).net;
            && CountPlace(x.tables[v].locations, l)
               == (if HasPlace(w.net.tables[v].locations, l) then CountPlace(w.net.tables[v].locations, l) else 1)
            && SentOnAll(links, w.net.queues, x.queues, v, Data([], [l], [], false))
  {
    hide HasPlace, CountPlace;
    CountPlaceAppend(w.net.tables[v].locations, l, l);
  }

  /** An acknowledgement changes one column of one row, and no other peer hears of it. */
  lemma AckStaysLocal(links: seq<Link>, w: World, v: nat, i: nat, state: string)
    requires WellLinked(links, w.net) && v < |w.net.tables| && i < |w.net.tables[v].messages|
    ensures var x, rows := Next(links, w, MarkAck(v, i, state)).net, w.net.tables[v].messages;
            && x.queues == w.net.queues
            && (forall u :: 0 <= u < |w.net.tables| && u != v ==> x.tables[u] == w.net.tables[u])
            && x.tables[v].locations == w.net.tables[v].locations
            && x.tables[v].telemetry == w.net.tables[v].telemetry
            && |x.tables[v].messages| == |rows|
            && (forall k :: 0 <= k < |rows| && k != i ==> x.tables[v].messages[k] == rows[k])
            && x.tables[v].messages[i].ackState == state
            && x.tables[v].messages[i].(ackState := rows[i].ackState) == rows[i]
  {
    forall j | 0 <= j < |links| ensures w.net.queues[j] + [] == w.net.queues[j] {
    }
  }

  // ------------------------------------------------------------ flood coverage

  /** Across every link, each key the source holds is one it never pushed, or is at the
      destination, or is on its way there. */
  ghost predicate Covered(links: seq<Link>, w: World)
    requires WellLinked(links, w.net)
  {
    forall j, k :: 0 <= j < |links| && Holds(w.net.tables[links[j].src], k) ==> Handed(links, w, j, k)
  }

  ghost predicate Handed(links: seq<Link>, w: World, j: nat, k: Key)
    requires WellLinked(links, w.net) && j < |links|
  {
    || (links[j].src, k) in w.quiet
    || Holds(w.net.tables[links[j].dst], k)
    || InFlight(w.net.queues[j], k)
  }

  lemma ArriveCovers(links: seq<Link>, w: World, i: nat, j: nat, k: Key)
    requires WellLinked(links, w.net) && Covered(links, w)
    requires i < |links| && w.net.queues[i] != [] && j < |links|
    requires Holds(Arrive(links, w.net, i).tables[links[j].src], k)
    ensures Handed(links, w.(net := Arrive(links, w.net, i)), j, k)
  {
    var v, q := links[i].dst, w.net.queues[i];
    var t, out := w.net.tables[v], Sent(w.net.tables[v], q[0]);
    var u := w.(net := Arrive(links, w.net, i));
    HandlingSpreadsKeys(t, q[0], k);
    HandlingSpreadsKeys(w.net.tables[links[j].src], q[0], k);
    assert q == [q[0]] + q[1..];
    FlightAppend([q[0]], q[1..], k);
    var kept := if j == i then q[1..] else w.net.queues[j];
    assert u.net.queues[j] == if links[j].src == v then kept + out else kept;
    FlightAppend(kept, out, k);
    if Holds(w.net.tables[links[j].src], k) {
      assert Handed(links, w, j, k);
      if j == i && InFlight([q[0]], k) {
        assert Carries(q[0], k);
      }
    }
  }

  lemma LocalCovers(links: seq<Link>, w: World, v: nat, t: Tables, out: seq<Payload>, u: World)
    requires WellLinked(links, w.net) && Covered(links, w) && v < |w.net.tables|
    requires u.net == Local(links, w.net, v, t, out)
    requires forall k :: Holds(w.net.tables[v], k) ==> Holds(t, k)
    requires forall k :: Holds(t, k) ==> (InFlight(out, k) || (v, k) in u.quiet
                                          || (Holds(w.net.tables[v], k) && (v, k) !in w.quiet))
    requires forall x, k :: x != v && (x, k) in w.quiet ==> (x, k) in u.quiet
    ensures Covered(links, u)
  {
    forall j, k | 0 <= j < |links| && Holds(u.net.tables[links[j].src], k) ensures Handed(links, u, j, k) {
      FlightAppend(w.net.queues[j], out, k);
      if Holds(w.net.tables[links[j].src], k) {
        assert Handed(links, w, j, k);
      }
    }
  }

  lemma StoreMessageKeys(t: Tables, m: Message, k: Key)
    ensures var u := t.(messages := t.messages + [m]);
            Holds(u, k) <==> Holds(t, k) || (k == Packet(m.packetId) && m.packetId != 0)
    ensures k == Packet(m.packetId) && m.packetId != 0 ==> InFlight([PushMessage(m)], k)
  {
    if k.Packet? {
      ConcatHasPacket(t.messages, [m], k.id);
      assert m in [m];
    }
    assert [Pushed(m)][0] in [Pushed(m)];
    assert k == Packet(m.packetId) && m.packetId != 0 ==> Carries([PushMessage(m)][0], k);
  }

  lemma StoreLocationKeys(t: Tables, l: Location, k: Key)
    ensures var u := t.(locations := WithLocation(t.locations, l));
            Holds(u, k) <==> Holds(t, k) || k == PlaceKey(l)
    ensures k == PlaceKey(l) ==> InFlight([PushLocation(l)], k)
  {
    if k.Place? {
      ConcatHasPlace(t.locations, [l], Spot(k));
      assert l in [l];
      if HasPlace(t.locations, l) {
        var r :| r in t.locations && SamePlace(r, l);
        assert k == PlaceKey(l) ==> SamePlace(r, Spot(k));
      }
    }
    assert [l][0] in [l];
    assert k == PlaceKey(l) ==> Carries([PushLocation(l)][0], k);
  }

  lemma MarkAckKeys(t: Tables, i: nat, state: string, k: Key)
    requires i < |t.messages|
    ensures Holds(t.(messages := t.messages[i := t.messages[i].(ackState := state)]), k) <==> Holds(t, k)
  {
    var after := t.messages[i := t.messages[i].(ackState := state)];
    if k.Packet? {
      if HasPacket(t.messages, k.id) {
        var j :| 0 <= j < |t.messages| && t.messages[j].packetId == k.id;
        assert after[j] in after && after[j].packetId == k.id;
      }
      if HasPacket(after, k.id) {
        var j :| 0 <= j < |after| && after[j].packetId == k.id;
        assert t.messages[j] in t.messages;
      }
    }
  }

  /** Every step keeps the coverage invariant. */
  lemma StepCovers(links: seq<Link>, w: World, s: Step)
    requires WellLinked(links, w.net) && Enabled(links, w, s) && Covered(links, w)
    ensures Covered(links, Next(links, w, s))
  {
    var u := Next(links, w, s);
    match s {
      case Deliver(i) =>
        forall j, k | 0 <= j < |links| && Holds(u.net.tables[links[j].src], k) ensures Handed(links, u, j, k) {
          ArriveCovers(links, w, i, j, k);
        }
      case StoreAndPush(v, m) =>
        forall k { StoreMessageKeys(w.net.tables[v], m, k); }
        LocalCovers(links, w, v, u.net.tables[v], [PushMessage(m)], u);
      case StoreQuietly(v, m) =>
        forall k { StoreMessageKeys(w.net.tables[v], m, k); }
        LocalCovers(links, w, v, u.net.tables[v], [], u);
      case LocalPosition(v, l) =>
        forall k { StoreLocationKeys(w.net.tables[v], l, k); }
        LocalCovers(links, w, v, u.net.tables[v], [PushLocation(l)], u);
      case LocalTelemetry(v, r) =>
        LocalCovers(links, w, v, u.net.tables[v], [PushTelemetry(r)], u);
      case MarkAck(v, i, state) =>
        forall k { MarkAckKeys(w.net.tables[v], i, state, k); }
        LocalCovers(links, w, v, u.net.tables[v], [], u);
      case InitiateSync(v) =>
        LocalCovers(links, w, v, u.net.tables[v], [InventoryOf(w.net.tables[v])], u);
    }
  }

  lemma {:induction false} RunCovers(links: seq<Link>, w: World, steps: seq<Step>)
    requires WellLinked(links, w.net) && Runnable(links, w, steps) && Covered(links, w)
    ensures Covered(links, Run(links, w, steps))
    decreases |steps|
  {
    if steps != [] {
      StepCovers(links, w, steps[0]);
      RunCovers(links, Next(links, w, steps[0]), steps[1..]);
    }
  }

  /** At the start whatever the peers hold was never pushed; anything may be on its way. */
  ghost predicate Start(links: seq<Link>, w: World) {
    && WellLinked(links, w.net)
    && forall v, k :: 0 <= v < |w.net.tables| && Holds(w.net.tables[v], k) ==> (v, k) in w.quiet
  }

  /** No copy of the key is on its way; telemetry and other keys may be. */
  ghost predicate NoCopy(net: Net, k: Key) {
    forall j :: 0 <= j < |net.queues| ==> !InFlight(net.queues[j], k)
  }

  ghost predicate Path(links: seq<Link>, path: seq<nat>) {
    path != [] && forall i :: 0 <= i < |path| - 1 ==> Linked(links, path[i], path[i + 1])
  }

  lemma {:induction false} CoverageAlongPath(links: seq<Link>, w: World, path: seq<nat>, k: Key)
    requires WellLinked(links, w.net) && Covered(links, w) && NoCopy(w.net, k)
    requires Path(links, path) && forall i :: 0 <= i < |path| ==> path[i] < |w.net.tables|
    requires Holds(w.net.tables[path[0]], k)
    requires forall i :: 0 <= i < |path| - 1 ==> (path[i], k) !in w.quiet
    ensures Holds(w.net.tables[path[|path| - 1]], k)
    decreases |path|
  {
    if |path| > 1 {
      assert Linked(links, path[0], path[0 + 1]);
      var j :| 0 <= j < |links| && links[j] == Link(path[0], path[1]);
      assert Handed(links, w, j, k);
      assert Holds(w.net.tables[path[1]], k);
      assert Path(links, path[1..]) by {
        forall i | 0 <= i < |path[1..]| - 1 ensures Linked(links, path[1..][i], path[1..][i + 1]) {
          assert Linked(links, path[i + 1], path[i + 1 + 1]);
        }
      }
      CoverageAlongPath(links, w, path[1..], k);
    }
  }

  /** Flood coverage: in every run, once no copy of a key is on its way, the key held at one
      end of a path of links is held at the other end, provided no peer before the end of the
      path holds it without ever having pushed it. */
  lemma FloodCoverage(links: seq<Link>, w: World, steps: seq<Step>, path: seq<nat>, k: Key)
    requires Start(links, w) && Runnable(links, w, steps)
    requires Path(links, path) && forall i :: 0 <= i < |path| ==> path[i] < |w.net.tables|
    ensures var r := Run(links, w, steps);
            NoCopy(r.net, k) && Holds(r.net.tables[path[0]], k)
            && (forall i :: 0 <= i < |path| - 1 ==> (path[i], k) !in r.quiet)
            ==> Holds(r.net.tables[path[|path| - 1]], k)
  {
    assert Covered(links, w);
    RunCovers(links, w, steps);
    var r := Run(links, w, steps);
    if NoCopy(r.net, k) && Holds(r.net.tables[path[0]], k)
       && (forall i :: 0 <= i < |path| - 1 ==> (path[i], k) !in r.quiet) {
      CoverageAlongPath(links, r, path, k);
    }
  }

  ghost predicate Connected(links: seq<Link>, n: nat) {
    forall a, b :: 0 <= a < n && 0 <= b < n ==> Joined(links, n, a, b)
  }

  ghost predicate Joined(links: seq<Link>, n: nat, a: nat, b: nat) {
    exists path :: Path(links, path) && path[0] == a && path[|path| - 1] == b
                && forall i :: 0 <= i < |path| ==> path[i] < n
  }

  /** The key a step stores and pushes, if it does both. */
  function PushedKey(s: Step): Option<(nat, Key)> {
    match s
    case StoreAndPush(v, m) => if m.packetId != 0 then Some((v, Packet(m.packetId))) else None
    case LocalPosition(v, l) => Some((v, PlaceKey(l)))
    case _ => None
  }

  lemma StepHolds(links: seq<Link>, w: World, s: Step, v: nat, k: Key)
    requires WellLinked(links, w.net) && Enabled(links, w, s) && v < |w.net.tables|
    requires Holds(w.net.tables[v], k) || PushedKey(s) == Some((v, k))
    ensures Holds(Next(links, w, s).net.tables[v], k)
  {
    match s {
      case Deliver(i) => HandlingSpreadsKeys(w.net.tables[links[i].dst], w.net.queues[i][0], k);
      case StoreAndPush(x, m) => StoreMessageKeys(w.net.tables[x], m, k);
      case StoreQuietly(x, m) => StoreMessageKeys(w.net.tables[x], m, k);
      case LocalPosition(x, l) => StoreLocationKeys(w.net.tables[x], l, k);
      case MarkAck(x, i, state) => MarkAckKeys(w.net.tables[x], i, state, k);
      case _ =>
    }
  }

  /** A key once held, or pushed during the run, is held at the end. */
  lemma {:induction false} RunHolds(links: seq<Link>, w: World, steps: seq<Step>, v: nat, k: Key)
    requires WellLinked(links, w.net) && Runnable(links, w, steps) && v < |w.net.tables|
    requires Holds(w.net.tables[v], k) || exists i :: 0 <= i < |steps| && PushedKey(steps[i]) == Some((v, k))
    ensures Holds(Run(links, w, steps).net.tables[v], k)
    decreases |steps|
  {
    hide Holds, Next, Enabled;
    if steps != [] {
      if Holds(w.net.tables[v], k) || PushedKey(steps[0]) == Some((v, k)) {
        StepHolds(links, w, steps[0], v, k);
      } else {
        var i :| 0 <= i < |steps| && PushedKey(steps[i]) == Some((v, k));
        assert PushedKey(steps[1..][i - 1]) == Some((v, k));
      }
      RunHolds(links, Next(links, w, steps[0]), steps[1..], v, k);
    }
  }

  /** On a connected network, in every run, once no copy of a key is on its way every peer
      holds it if some peer stored and pushed it, unless a peer holds it without having
      pushed it. */
  lemma EveryPushReachesEveryPeer(links: seq<Link>, w: World, steps: seq<Step>, i: nat, v: nat, k: Key, peer: nat)
    requires Start(links, w) && Runnable(links, w, steps) && Connected(links, |w.net.tables|)
    requires i < |steps| && PushedKey(steps[i]) == Some((v, k)) && v < |w.net.tables|
    requires NoCopy(Run(links, w, steps).net, k)
    requires forall x :: (x, k) !in Run(links, w, steps).quiet
    requires peer < |w.net.tables|
    ensures Holds(Run(links, w, steps).net.tables[peer], k)
  {
    RunHolds(links, w, steps, v, k);
    assert Joined(links, |w.net.tables|, v, peer);
    var path :| Path(links, path) && path[0] == v && path[|path| - 1] == peer
             && forall i :: 0 <= i < |path| ==> path[i] < |w.net.tables|;
    FloodCoverage(links, w, steps, path, k);
  }

  const NOTHING := Tables([], [], [])

  const CHAIN := [Link(0, 1), Link(1, 0), Link(1, 2), Link(2, 1)]

  /** The proviso is needed: a peer that stored a message without pushing it does not pass
      it on when it comes in again, so a peer behind it never gets it. */
  lemma QuietHolderBlocksFlood(m: Message)
    requires m.packetId != 0
    ensures var links := CHAIN;
            var w := World(Net([NOTHING, NOTHING, NOTHING], [[], [], [], []]), {}, {});
            var steps := [StoreQuietly(1, m), StoreAndPush(0, m), Deliver(0)];
            && Start(links, w) && Runnable(links, w, steps)
            && Run(links, w, steps).net.queues == [[], [], [], []]
            && !Holds(Run(links, w, steps).net.tables[2], Packet(m.packetId))
  {
    var w := World(Net([NOTHING, NOTHING, NOTHING], [[], [], [], []]), {}, {});
    var w1, w2, w3 := QuietScenario(w, m);
    hide Next, Enabled, Run, Runnable;
    RunThree(CHAIN, w, StoreQuietly(1, m), w1, StoreAndPush(0, m), w2, Deliver(0));
  }

  lemma QuietlyStored(w: World, m: Message)
    requires w.net == Net([NOTHING, NOTHING, NOTHING], [[], [], [], []]) && WellLinked(CHAIN, w.net)
    ensures Next(CHAIN, w, StoreQuietly(1, m)).net
         == Net([NOTHING, Tables([m], [], []), NOTHING], [[], [], [], []])
  {
    ChainSend(w.net.queues, 1, []);
    assert NOTHING.messages + [m] == [m];
  }

  lemma PushedOnce(w: World, m: Message)
    requires w.net == Net([NOTHING, Tables([m], [], []), NOTHING], [[], [], [], []]) && WellLinked(CHAIN, w.net)
    ensures Next(CHAIN, w, StoreAndPush(0, m)).net
         == Net([Tables([m], [], []), Tables([m], [], []), NOTHING], [[PushMessage(m)], [], [], []])
  {
    ChainSend(w.net.queues, 0, [PushMessage(m)]);
    assert NOTHING.messages + [m] == [m];
  }

  lemma NotPassedOn(w: World, m: Message)
    requires m.packetId != 0 && WellLinked(CHAIN, w.net)
    requires w.net == Net([Tables([m], [], []), Tables([m], [], []), NOTHING], [[PushMessage(m)], [], [], []])
    ensures Next(CHAIN, w, Deliver(0)).net
         == Net([Tables([m], [], []), Tables([m], [], []), NOTHING], [[], [], [], []])
  {
    var one, idle: seq<Payload> := Tables([m], [], []), [];
    HeldIsNotForwarded(one, m);
    hide After, Sent, PushMessage;
    assert [PushMessage(m)][1..] == idle && w.net.queues[0 := idle] == [idle, idle, idle, idle];
    ChainSend([idle, idle, idle, idle], 1, []);
    assert CHAIN[0] == Link(0, 1);
  }

  lemma QuietScenario(w: World, m: Message) returns (w1: World, w2: World, w3: World)
    requires m.packetId != 0 && w == World(Net([NOTHING, NOTHING, NOTHING], [[], [], [], []]), {}, {})
    ensures WellLinked(CHAIN, w.net) && WellLinked(CHAIN, w1.net) && WellLinked(CHAIN, w2.net)
    ensures Enabled(CHAIN, w, StoreQuietly(1, m)) && w1 == Next(CHAIN, w, StoreQuietly(1, m))
    ensures Enabled(CHAIN, w1, StoreAndPush(0, m)) && w2 == Next(CHAIN, w1, StoreAndPush(0, m))
    ensures Enabled(CHAIN, w2, Deliver(0)) && w3 == Next(CHAIN, w2, Deliver(0))
    ensures w3.net.tables[2] == NOTHING && w3.net.queues == [[], [], [], []]
  {
    assert CHAIN[0] == Link(0, 1) && CHAIN[1] == Link(1, 0) && CHAIN[2] == Link(1, 2) && CHAIN[3] == Link(2, 1);
    QuietlyStored(w, m);
    w1 := Next(CHAIN, w, StoreQuietly(1, m));
    PushedOnce(w1, m);
    w2 := Next(CHAIN, w1, StoreAndPush(0, m));
    NotPassedOn(w2, m);
    w3 := Next(CHAIN, w2, Deliver(0));
    hide Next;
  }

  lemma ChainSend(queues: seq<seq<Payload>>, node: nat, out: seq<Payload>)
    requires queues == [[], [], [], []]
    ensures out == [] ==> SendAll(CHAIN, queues, node, out) == queues
    ensures node == 0 ==> SendAll(CHAIN, queues, node, out) == [out, [], [], []]
  {
    var idle: seq<Payload> := [];
    assert idle + out == out;
    assert SendAll(CHAIN, queues, node, out)[3] == if node == 2 then idle + out else idle;
  }

  lemma HeldIsNotForwarded(t: Tables, m: Message)
    requires m.packetId != 0 && HasPacket(t.messages, m.packetId)
    ensures Sent(t, PushMessage(m)) == [] && After(t, PushMessage(m)) == t
  {
    assert NewMessages(t.messages, [Pushed(m)]) == [];
  }

  lemma RunThree(links: seq<Link>, w: World, a: Step, w1: World, b: Step, w2: World, c: Step)
    requires WellLinked(links, w.net) && Enabled(links, w, a) && w1 == Next(links, w, a)
    requires Enabled(links, w1, b) && w2 == Next(links, w1, b) && Enabled(links, w2, c)
    ensures Runnable(links, w, [a, b, c]) && Run(links, w, [a, b, c]) == Next(links, w2, c)
  {
    var w3 := Next(links, w2, c);
    assert Runnable(links, w3, []) && Run(links, w3, []) == w3;
    hide Next, Enabled, Run, Runnable;
    RunCons(links, w2, c, []);
    RunCons(links, w1, b, [c]);
    RunCons(links, w, a, [b, c]);
    assert [c] + [] == [c] && [b] + [c] == [b, c] && [a] + [b, c] == [a, b, c];
  }

  lemma RunCons(links: seq<Link>, w: World, s: Step, rest: seq<Step>)
    requires WellLinked(links, w.net) && Enabled(links, w, s) && Runnable(links, Next(links, w, s), rest)
    ensures Runnable(links, w, [s] + rest)
    ensures Run(links, w, [s] + rest) == Run(links, Next(links, w, s), rest)
  {
    assert ([s] + rest)[1..] == rest;
  }

  // ------------------------------------------------------------- provenance

  ghost predicate RowsTraced(rows: seq<Message>, created: set<Message>) {
    forall m :: m in rows ==> Content(m) in created
  }

  ghost predicate QueueTraced(queue: seq<Payload>, created: set<Message>) {
    forall i :: 0 <= i < |queue| && queue[i].Data? ==> RowsTraced(queue[i].messages, created)
  }

  /** Every message row, stored or in flight, has the content of a row stored locally by some peer. */
  ghost predicate Traced(w: World) {
    && (forall v :: 0 <= v < |w.net.tables| ==> RowsTraced(w.net.tables[v].messages, w.created))
    && (forall j :: 0 <= j < |w.net.queues| ==> QueueTraced(w.net.queues[j], w.created))
  }

  lemma PageTraced(t: Tables, a: nat, b: nat, c: nat, created: set<Message>)
    requires RowsTraced(t.messages, created)
    ensures QueueTraced(PageAfter(t, a, b, c), created)
  {
    var ms := RowsAfter(t.messages, MessageTs, a);
    RowsAfterExact(t.messages, MessageTs, a);
    var page := Map(Paged, Limit(ms, PAGE));
    forall m | m in page ensures Content(m) in created {
      var i :| 0 <= i < |page| && page[i] == m;
      assert ms[i] in ms && ms[i] in t.messages;
    }
  }

  lemma PushesTraced(ms: seq<Message>, created: set<Message>)
    requires RowsTraced(ms, created)
    ensures QueueTraced(Map(PushMessage, ms), created)
  {
    forall i | 0 <= i < |ms| ensures RowsTraced(Map(PushMessage, ms)[i].messages, created) {
      assert ms[i] in ms && Content(Pushed(ms[i])) == Content(ms[i]);
    }
  }

  lemma DataTraced(t: Tables, p: Payload, created: set<Message>)
    requires p.Data? && RowsTraced(t.messages, created) && RowsTraced(p.messages, created)
    ensures RowsTraced(AfterData(t, p).messages, created)
    ensures QueueTraced(Sent(t, p), created)
  {
    NewMessagesFacts(t.messages, p.messages);
    var added := NewMessages(t.messages, p.messages);
    forall m | m in added ensures Content(m) in created {
      var i :| i in p.messages && m == Paged(i);
      assert Content(m) == Content(i);
    }
    PushesTraced(added, created);
  }

  lemma HandlingTraced(t: Tables, p: Payload, created: set<Message>)
    requires RowsTraced(t.messages, created) && QueueTraced([p], created)
    ensures RowsTraced(After(t, p).messages, created)
    ensures QueueTraced(Sent(t, p), created)
  {
    match p
    case Inventory(a, b, c) =>
      hide RowsTraced, PageAfter;
      PageTraced(t, a, b, c, created);
    case Request(a, b, c) =>
      hide RowsTraced, PageAfter;
      PageTraced(t, a, b, c, created);
    case Data(_, _, _, _) =>
      assert RowsTraced([p][0].messages, created);
      DataTraced(t, p, created);
  }

  lemma SendAllTraced(links: seq<Link>, queues: seq<seq<Payload>>, v: nat, out: seq<Payload>, created: set<Message>)
    requires |queues| == |links|
    requires forall j :: 0 <= j < |queues| ==> QueueTraced(queues[j], created)
    requires QueueTraced(out, created)
    ensures forall j :: 0 <= j < |links| ==> QueueTraced(SendAll(links, queues, v, out)[j], created)
  {
  }

  lemma StepTraced(links: seq<Link>, w: World, s: Step)
    requires WellLinked(links, w.net) && Enabled(links, w, s) && Traced(w)
    ensures Traced(Next(links, w, s))
  {
    var u := Next(links, w, s);
    assert forall j :: 0 <= j < |links| ==> QueueTraced(w.net.queues[j], u.created);
    match s {
      case Deliver(i) =>
        var t, q := w.net.tables[links[i].dst], w.net.queues[i];
        assert QueueTraced([q[0]], w.created) && QueueTraced(q[1..], w.created);
        HandlingTraced(t, q[0], w.created);
        SendAllTraced(links, w.net.queues[i := q[1..]], links[i].dst, Sent(t, q[0]), w.created);
      case StoreAndPush(v, m) =>
        assert Content(Pushed(m)) == Content(m);
        SendAllTraced(links, w.net.queues, v, [PushMessage(m)], u.created);
      case StoreQuietly(v, m) =>
        SendAllTraced(links, w.net.queues, v, [], u.created);
      case LocalPosition(v, l) =>
        SendAllTraced(links, w.net.queues, v, [PushLocation(l)], u.created);
      case LocalTelemetry(v, r) =>
        SendAllTraced(links, w.net.queues, v, [PushTelemetry(r)], u.created);
      case MarkAck(v, i, state) =>
        assert w.net.tables[v].messages[i] in w.net.tables[v].messages;
        SendAllTraced(links, w.net.queues, v, [], u.created);
      case InitiateSync(v) =>
        SendAllTraced(links, w.net.queues, v, [InventoryOf(w.net.tables[v])], u.created);
    }
  }

  /** In every run, every replicated message agrees with some locally stored row on device,
      window, direction, sender, target, channel, text, timestamp and packet id. */
  lemma {:induction false} EveryRowIsTraced(links: seq<Link>, w: World, steps: seq<Step>)
    requires WellLinked(links, w.net) && Runnable(links, w, steps) && Traced(w)
    ensures Traced(Run(links, w, steps))
    decreases |steps|
  {
    if steps != [] {
      StepTraced(links, w, steps[0]);
      EveryRowIsTraced(links, Next(links, w, steps[0]), steps[1..]);
    }
  }
}
