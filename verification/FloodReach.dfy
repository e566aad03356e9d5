/** Exactly whom a flood reaches.

    A peer that holds a key without ever having pushed it takes the key in no second time, so
    it does not pass it on; every other peer does.  When no copy of the key is on its way any
    more, whatever else is, a peer holds it if and only if it held it quietly or some path of
    links from a peer that pushed it has no such quiet holder before its end. */
module FloodReach {
  import opened Options
  import opened Tables
  import opened DbSync
  import opened ReplicatedTables
  import opened MeshNetwork
  import opened FloodTermination
  import opened EventualDelivery

  /** Zero is no packet id. */
  predicate Real(k: Key) {
    k.Packet? ==> k.id != 0
  }

  /** Quiet holders are holders. */
  ghost predicate QuietHeld(w: World, k: Key) {
    forall v :: (v, k) in w.quiet ==> v < |w.net.tables| && Holds(w.net.tables[v], k)
  }

  /** The peer holds the key and has pushed it. */
  ghost predicate Spread(w: World, v: nat, k: Key) {
    v < |w.net.tables| && Holds(w.net.tables[v], k) && (v, k) !in w.quiet
  }

  /** A path of links from a peer that pushed the key, every peer on it before its end having
      pushed it on. */
  ghost predicate Trail(links: seq<Link>, w: World, pushers: set<nat>, k: Key, path: seq<nat>) {
    && Path(links, path) && path[0] in pushers
    && forall i :: 0 <= i < |path| - 1 ==> Spread(w, path[i], k)
  }

  ghost predicate HasTrail(links: seq<Link>, w: World, pushers: set<nat>, k: Key, x: nat) {
    exists path :: Trail(links, w, pushers, k, path) && path[|path| - 1] == x
  }

  ghost predicate SpreadTrailed(links: seq<Link>, w: World, pushers: set<nat>, k: Key) {
    forall x :: Spread(w, x, k) ==> HasTrail(links, w, pushers, k, x)
  }

  ghost predicate FlightFromSpread(links: seq<Link>, w: World, k: Key)
    requires WellLinked(links, w.net)
  {
    forall j :: 0 <= j < |links| && InFlight(w.net.queues[j], k) ==> Spread(w, links[j].src, k)
  }

  /** Every peer that has pushed the key on is at the end of a trail, and every copy on its
      way comes from such a peer. */
  ghost predicate Followed(links: seq<Link>, w: World, pushers: set<nat>, k: Key) {
    && WellLinked(links, w.net) && OnlyPushes(w.net) && QuietHeld(w, k)
    && (forall v :: v in pushers ==> Spread(w, v, k))
    && SpreadTrailed(links, w, pushers, k) && FlightFromSpread(links, w, k)
  }

  // -------------------------------------------------------------- one step

  /** A key held afterwards was held before or came with the payload, and what is pushed on is
      newly held. */
  lemma TakenIn(t: Tables, p: Payload, k: Key)
    requires p.Data? && !p.hasMore
    ensures Holds(After(t, p), k) ==> Holds(t, k) || Carries(p, k)
    ensures InFlight(Sent(t, p), k) ==> Holds(After(t, p), k) && !Holds(t, k)
  {
    var ms, ls := NewMessages(t.messages, p.messages), NewLocations(t.locations, p.locations);
    NewMessagesFacts(t.messages, p.messages);
    NewLocationsFacts(t.locations, p.locations);
    var rows := Map(PushMessage, ms) + Map(PushLocation, ls);
    assert Sent(t, p) == rows + Map(PushTelemetry, p.telemetry);
    FlightAppend(rows, Map(PushTelemetry, p.telemetry), k);
    TelemetryHasNoKey(p.telemetry, k);
    match k
    case Packet(id) =>
      ConcatHasPacket(t.messages, ms, id);
      if id != 0 && HasPacket(ms, id) {
        var m :| m in ms && m.packetId == id;
        var i :| i in p.messages && m == Paged(i);
        assert HasPacket(p.messages, id);
      }
      PushedPacket(ms, ls, id);
    case Place(_, _, _) =>
      ConcatHasPlace(t.locations, ls, Spot(k));
      if HasPlace(ls, Spot(k)) {
        var l :| l in ls && SamePlace(l, Spot(k));
        assert HasPlace(p.locations, Spot(k));
      }
      PushedPlace(ms, ls, k);
      NewPlace(t.locations, ls, Spot(k));
  }

  lemma TelemetryHasNoKey(ts: seq<Telemetry>, k: Key)
    ensures !InFlight(Map(PushTelemetry, ts), k)
  {
    forall i | 0 <= i < |ts| ensures !Carries(Map(PushTelemetry, ts)[i], k) {
      assert Map(PushTelemetry, ts)[i] == PushTelemetry(ts[i]);
    }
  }

  lemma NewPlace(rows: seq<Location>, ls: seq<Location>, at: Location)
    requires forall l :: l in ls ==> !HasPlace(rows, l)
    ensures HasPlace(ls, at) ==> !HasPlace(rows, at)
  {
    if HasPlace(ls, at) {
      var l :| l in ls && SamePlace(l, at);
      forall r | r in rows ensures !SamePlace(r, at) {
        assert !SamePlace(r, l);
      }
    }
  }

  lemma PushedPacket(ms: seq<Message>, ls: seq<Location>, id: nat)
    ensures InFlight(Map(PushMessage, ms) + Map(PushLocation, ls), Packet(id)) ==> id != 0 && HasPacket(ms, id)
  {
    var out := Map(PushMessage, ms) + Map(PushLocation, ls);
    if InFlight(out, Packet(id)) {
      var i :| 0 <= i < |out| && Carries(out[i], Packet(id));
      var m :| m in out[i].messages && m.packetId == id;
      if i < |ms| {
        assert ms[i] in ms && ms[i].packetId == id;
      }
    }
  }

  lemma PushedPlace(ms: seq<Message>, ls: seq<Location>, k: Key)
    requires k.Place?
    ensures InFlight(Map(PushMessage, ms) + Map(PushLocation, ls), k) ==> HasPlace(ls, Spot(k))
  {
    var out := Map(PushMessage, ms) + Map(PushLocation, ls);
    if InFlight(out, k) {
      var i :| 0 <= i < |out| && Carries(out[i], k);
      var l :| l in out[i].locations && SamePlace(l, Spot(k));
      if i >= |ms| {
        assert ls[i - |ms|] in ls;
      }
    }
  }

  /** A peer that has pushed a key has done so for good. */
  lemma SpreadStays(links: seq<Link>, w: World, s: Step, v: nat, k: Key)
    requires WellLinked(links, w.net) && Enabled(links, w, s) && Spread(w, v, k)
    ensures Spread(Next(links, w, s), v, k)
  {
    StepHolds(links, w, s, v, k);
  }

  lemma TrailStays(links: seq<Link>, w: World, u: World, pushers: set<nat>, more: set<nat>, k: Key, x: nat)
    requires HasTrail(links, w, pushers, k, x) && pushers <= more
    requires forall v :: Spread(w, v, k) ==> Spread(u, v, k)
    ensures HasTrail(links, u, more, k, x)
  {
    var path :| Trail(links, w, pushers, k, path) && path[|path| - 1] == x;
    assert Trail(links, u, more, k, path);
  }

  lemma TrailOn(links: seq<Link>, w: World, pushers: set<nat>, k: Key, x: nat, y: nat)
    requires HasTrail(links, w, pushers, k, x) && Spread(w, x, k) && Linked(links, x, y)
    ensures HasTrail(links, w, pushers, k, y)
  {
    var path :| Trail(links, w, pushers, k, path) && path[|path| - 1] == x;
    var longer := path + [y];
    forall i | 0 <= i < |longer| - 1 ensures Linked(links, longer[i], longer[i + 1]) && Spread(w, longer[i], k) {
      if i < |path| - 1 {
        assert Linked(links, path[i], path[i + 1]);
      }
    }
    assert Trail(links, w, pushers, k, longer);
  }

  lemma TrailStart(links: seq<Link>, w: World, pushers: set<nat>, k: Key, v: nat)
    requires v in pushers
    ensures HasTrail(links, w, pushers, k, v)
  {
    assert Trail(links, w, pushers, k, [v]);
  }

  /** Who newly has pushed the key after a step: the peer that pushed it, or the one where a
      copy arrived. */
  ghost predicate Newcomer(links: seq<Link>, w: World, s: Step, k: Key, x: nat)
    requires WellLinked(links, w.net) && Enabled(links, w, s)
  {
    || PushedKey(s) == Some((x, k))
    || (s.Deliver? && links[s.link].dst == x && Carries(w.net.queues[s.link][0], k))
  }

  lemma NewlySpread(links: seq<Link>, w: World, s: Step, k: Key, x: nat)
    requires WellLinked(links, w.net) && Enabled(links, w, s) && OnlyPushes(w.net) && PlainStep(s) && QuietHeld(w, k)
    requires Spread(Next(links, w, s), x, k) && !Spread(w, x, k)
    ensures Newcomer(links, w, s, k, x)
  {
    if s.Deliver? {
      var v := links[s.link].dst;
      TakenIn(w.net.tables[v], w.net.queues[s.link][0], k);
    } else if s.StoreAndPush? {
      StoreMessageKeys(w.net.tables[s.node], s.m, k);
    } else if s.StoreQuietly? {
      StoreMessageKeys(w.net.tables[s.node], s.m, k);
    } else if s.LocalPosition? {
      StoreLocationKeys(w.net.tables[s.node], s.l, k);
    } else if s.MarkAck? {
      MarkAckKeys(w.net.tables[s.node], s.row, s.ackState, k);
    }
  }

  lemma QuietStaysHeld(links: seq<Link>, w: World, s: Step, k: Key)
    requires WellLinked(links, w.net) && Enabled(links, w, s) && PlainStep(s) && QuietHeld(w, k)
    ensures QuietHeld(Next(links, w, s), k)
  {
    var u := Next(links, w, s);
    forall v | (v, k) in u.quiet ensures v < |u.net.tables| && Holds(u.net.tables[v], k) {
      if (v, k) in w.quiet {
        StepHolds(links, w, s, v, k);
      } else {
        StoreMessageKeys(w.net.tables[v], s.m, k);
      }
    }
  }

  /** A copy that is newly on its way comes from a peer that has pushed the key. */
  lemma NewFlight(links: seq<Link>, w: World, s: Step, k: Key, j: nat)
    requires WellLinked(links, w.net) && Enabled(links, w, s) && OnlyPushes(w.net) && PlainStep(s)
    requires QuietHeld(w, k) && j < |links| && InFlight(Next(links, w, s).net.queues[j], k)
    ensures InFlight(w.net.queues[j], k) || Spread(Next(links, w, s), links[j].src, k)
  {
    var q := w.net.queues[j];
    if s.Deliver? {
      DeliverFlight(links, w, s.link, k, j);
    } else if s.StoreAndPush? {
      FlightAppend(q, [PushMessage(s.m)], k);
      StoreMessageKeys(w.net.tables[s.node], s.m, k);
      OnlyMessage(s.m, k);
    } else if s.LocalPosition? {
      FlightAppend(q, [PushLocation(s.l)], k);
      StoreLocationKeys(w.net.tables[s.node], s.l, k);
      OnlyLocation(s.l, k);
    } else if s.LocalTelemetry? {
      FlightAppend(q, [PushTelemetry(s.t)], k);
      assert Map(PushTelemetry, [s.t]) == [PushTelemetry(s.t)];
      TelemetryHasNoKey([s.t], k);
    } else {
      FlightAppend(q, [], k);
    }
  }

  lemma DeliverFlight(links: seq<Link>, w: World, i: nat, k: Key, j: nat)
    requires WellLinked(links, w.net) && Enabled(links, w, Deliver(i)) && OnlyPushes(w.net)
    requires QuietHeld(w, k) && j < |links| && InFlight(Next(links, w, Deliver(i)).net.queues[j], k)
    ensures InFlight(w.net.queues[j], k) || Spread(Next(links, w, Deliver(i)), links[j].src, k)
  {
    var q, v, p := w.net.queues[j], links[i].dst, w.net.queues[i][0];
    var out, kept := Sent(w.net.tables[v], p), if j == i then q[1..] else q;
    TakenIn(w.net.tables[v], p, k);
    FlightAppend(kept, out, k);
    if j == i {
      FlightAppend([p], q[1..], k);
      assert [p] + q[1..] == q;
    }
  }

  lemma OnlyMessage(m: Message, k: Key)
    ensures InFlight([PushMessage(m)], k) ==> k == Packet(m.packetId) && m.packetId != 0
  {
    if InFlight([PushMessage(m)], k) {
      assert Carries(PushMessage(m), k);
    }
  }

  lemma OnlyLocation(l: Location, k: Key)
    ensures InFlight([PushLocation(l)], k) ==> k == PlaceKey(l)
  {
    if InFlight([PushLocation(l)], k) {
      assert Carries(PushLocation(l), k);
    }
  }

  /** The peers that push the key in a step. */
  function PushersOf(s: Step, k: Key): set<nat> {
    match PushedKey(s)
    case Some((v, x)) => if x == k then {v} else {}
    case None => {}
  }

  lemma PushersSpread(links: seq<Link>, w: World, s: Step, k: Key, v: nat)
    requires WellLinked(links, w.net) && Enabled(links, w, s) && v in PushersOf(s, k)
    ensures Spread(Next(links, w, s), v, k)
  {
    StepHolds(links, w, s, v, k);
  }

  lemma SpreadAllStay(links: seq<Link>, w: World, s: Step, k: Key)
    requires WellLinked(links, w.net) && Enabled(links, w, s) && PlainStep(s)
    ensures forall v :: Spread(w, v, k) ==> Spread(Next(links, w, s), v, k)
  {
    forall v | Spread(w, v, k) ensures Spread(Next(links, w, s), v, k) {
      SpreadStays(links, w, s, v, k);
    }
  }

  lemma NewlyTrailed(links: seq<Link>, w: World, s: Step, pushers: set<nat>, k: Key, x: nat)
    requires Followed(links, w, pushers, k) && Enabled(links, w, s) && PlainStep(s)
    requires Spread(Next(links, w, s), x, k) && !Spread(w, x, k)
    ensures HasTrail(links, Next(links, w, s), pushers + PushersOf(s, k), k, x)
  {
    var u, more := Next(links, w, s), pushers + PushersOf(s, k);
    hide Next, HasTrail, Spread, OnlyPushes, PlainStep, QuietHeld;
    NewlySpread(links, w, s, k, x);
    if PushedKey(s) == Some((x, k)) {
      TrailStart(links, u, more, k, x);
    } else {
      var y := links[s.link].src;
      assert InFlight(w.net.queues[s.link], k);
      SpreadAllStay(links, w, s, k);
      TrailStays(links, w, u, pushers, more, k, y);
      assert Linked(links, y, x);
      TrailOn(links, u, more, k, y, x);
    }
  }

  lemma StepTrailed(links: seq<Link>, w: World, s: Step, pushers: set<nat>, k: Key, x: nat)
    requires Followed(links, w, pushers, k) && Enabled(links, w, s) && PlainStep(s)
    requires Spread(Next(links, w, s), x, k)
    ensures HasTrail(links, Next(links, w, s), pushers + PushersOf(s, k), k, x)
  {
    hide Next, HasTrail, Spread, OnlyPushes, PlainStep, QuietHeld, PushersOf;
    if Spread(w, x, k) {
      SpreadAllStay(links, w, s, k);
      TrailStays(links, w, Next(links, w, s), pushers, pushers + PushersOf(s, k), k, x);
    } else {
      NewlyTrailed(links, w, s, pushers, k, x);
    }
  }

  /** Every plain step keeps the account of who has pushed the key on. */
  lemma StepFollowed(links: seq<Link>, w: World, s: Step, pushers: set<nat>, k: Key)
    requires Followed(links, w, pushers, k) && Enabled(links, w, s) && PlainStep(s)
    ensures Followed(links, Next(links, w, s), pushers + PushersOf(s, k), k)
  {
    var u, more := Next(links, w, s), pushers + PushersOf(s, k);
    StepPlain(links, w, s);
    QuietStaysHeld(links, w, s, k);
    hide Spread, OnlyPushes, QuietHeld, HasTrail, InFlight;
    forall v | v in more ensures Spread(u, v, k) {
      if v in pushers { SpreadStays(links, w, s, v, k); } else { PushersSpread(links, w, s, k, v); }
    }
    forall x | Spread(u, x, k) ensures HasTrail(links, u, more, k, x) {
      StepTrailed(links, w, s, pushers, k, x);
    }
    forall j | 0 <= j < |links| && InFlight(u.net.queues[j], k) ensures Spread(u, links[j].src, k) {
      NewFlight(links, w, s, k, j);
      if InFlight(w.net.queues[j], k) { SpreadStays(links, w, s, links[j].src, k); }
    }
  }

  // ------------------------------------------------------------------- runs

  /** The peers that push the key in a run. */
  function Pushers(steps: seq<Step>, k: Key): set<nat> {
    if steps == [] then {} else PushersOf(steps[0], k) + Pushers(steps[1..], k)
  }

  lemma {:induction false} RunFollowed(links: seq<Link>, w: World, steps: seq<Step>, pushers: set<nat>, k: Key)
    requires Followed(links, w, pushers, k) && Runnable(links, w, steps) && PlainSteps(steps)
    ensures Followed(links, Run(links, w, steps), pushers + Pushers(steps, k), k)
    decreases |steps|
  {
    hide Next, Enabled, PlainStep;
    if steps == [] {
      assert pushers + {} == pushers;
    } else {
      assert PlainStep(steps[0]);
      StepFollowed(links, w, steps[0], pushers, k);
      hide Followed;
      RunFollowed(links, Next(links, w, steps[0]), steps[1..], pushers + PushersOf(steps[0], k), k);
      assert (pushers + PushersOf(steps[0], k)) + Pushers(steps[1..], k) == pushers + Pushers(steps, k);
    }
  }

  /** A path of links from one of some peers with no quiet holder before its end. */
  ghost predicate OpenPath(links: seq<Link>, quiet: set<(nat, Key)>, from: set<nat>, k: Key, path: seq<nat>) {
    && Path(links, path) && path[0] in from
    && forall i :: 0 <= i < |path| - 1 ==> (path[i], k) !in quiet
  }

  ghost predicate Reached(links: seq<Link>, quiet: set<(nat, Key)>, from: set<nat>, k: Key, x: nat) {
    exists path :: OpenPath(links, quiet, from, k, path) && path[|path| - 1] == x
  }

  lemma PathInRange(links: seq<Link>, net: Net, path: seq<nat>)
    requires WellLinked(links, net) && Path(links, path) && path[0] < |net.tables|
    ensures forall i :: 0 <= i < |path| ==> path[i] < |net.tables|
  {
    forall i | 0 <= i < |path| ensures path[i] < |net.tables| {
      if i > 0 {
        assert Linked(links, path[i - 1], path[i - 1 + 1]);
      }
    }
  }

  lemma StartFollowed(links: seq<Link>, w: World, k: Key)
    requires Start(links, w) && OnlyPushes(w.net) && NoCopy(w.net, k) && QuietHeld(w, k)
    ensures Followed(links, w, {}, k)
  {
  }

  /** Whom a flood reaches, exactly: after any run without syncs, whatever telemetry and other
      keys are on their way, once no copy of a key is, a peer holds it if and only if it holds
      it quietly or is at the end of a path from a peer that pushed it, with no quiet holder
      before its end. */
  lemma ReachedExactly(links: seq<Link>, w: World, steps: seq<Step>, k: Key, x: nat)
    requires Start(links, w) && OnlyPushes(w.net) && NoCopy(w.net, k) && QuietHeld(w, k)
    requires Runnable(links, w, steps) && PlainSteps(steps)
    requires NoCopy(Run(links, w, steps).net, k) && x < |w.net.tables|
    ensures var r := Run(links, w, steps);
            Holds(r.net.tables[x], k) <==> (x, k) in r.quiet || Reached(links, r.quiet, Pushers(steps, k), k, x)
  {
    var r, from := Run(links, w, steps), Pushers(steps, k);
    StartFollowed(links, w, k);
    RunFollowed(links, w, steps, {}, k);
    assert {} + from == from;
    hide Start, Runnable, Run, PlainSteps, Holds, OnlyPushes, Reached, NoCopy;
    if Holds(r.net.tables[x], k) && (x, k) !in r.quiet {
      SpreadReached(links, r, from, k, x);
    }
    if Reached(links, r.quiet, from, k, x) {
      ReachedHolds(links, w, steps, k, x);
    }
  }

  lemma SpreadReached(links: seq<Link>, r: World, from: set<nat>, k: Key, x: nat)
    requires SpreadTrailed(links, r, from, k) && Spread(r, x, k)
    ensures Reached(links, r.quiet, from, k, x)
  {
    assert HasTrail(links, r, from, k, x);
    var path :| Trail(links, r, from, k, path) && path[|path| - 1] == x;
    assert OpenPath(links, r.quiet, from, k, path);
  }

  lemma ReachedHolds(links: seq<Link>, w: World, steps: seq<Step>, k: Key, x: nat)
    requires Start(links, w) && Runnable(links, w, steps) && NoCopy(Run(links, w, steps).net, k)
    requires x < |w.net.tables| && Followed(links, Run(links, w, steps), Pushers(steps, k), k)
    requires Reached(links, Run(links, w, steps).quiet, Pushers(steps, k), k, x)
    ensures Holds(Run(links, w, steps).net.tables[x], k)
  {
    var r, from := Run(links, w, steps), Pushers(steps, k);
    var path :| OpenPath(links, r.quiet, from, k, path) && path[|path| - 1] == x;
    assert Spread(r, path[0], k);
    hide Start, Runnable, Run, Holds, OnlyPushes, NoCopy, SpreadTrailed, FlightFromSpread, Path;
    PathInRange(links, r.net, path);
    FloodCoverage(links, w, steps, path, k);
  }

  // ------------------------------------------------------- one push, known beforehand

  /** Everything the peers hold, as pairs of peer and key. */
  function HeldBefore(net: Net): set<(nat, Key)> {
    (set v, m | 0 <= v < |net.tables| && m in net.tables[v].messages :: (v, Packet(m.packetId)))
    + (set v, l | 0 <= v < |net.tables| && l in net.tables[v].locations :: (v, PlaceKey(l)))
  }

  lemma HeldExactly(net: Net, v: nat, k: Key)
    requires k.Packet? ==> k.id != 0
    ensures (v, k) in HeldBefore(net) <==> v < |net.tables| && Holds(net.tables[v], k)
  {
    if v < |net.tables| && Holds(net.tables[v], k) {
      match k
      case Packet(id) =>
        var m :| m in net.tables[v].messages && m.packetId == id;
        assert (v, Packet(m.packetId)) in HeldBefore(net);
      case Place(_, _, _) =>
        var l :| l in net.tables[v].locations && SamePlace(l, Spot(k));
        assert (v, PlaceKey(l)) in HeldBefore(net);
    }
    if (v, k) in HeldBefore(net) && k.Place? {
      var l :| l in net.tables[v].locations && PlaceKey(l) == k;
      assert SamePlace(l, Spot(k));
    }
  }

  /** A path of links from `v` on which no other peer before its end had the key. */
  ghost predicate FreePath(links: seq<Link>, net: Net, v: nat, k: Key, path: seq<nat>) {
    && Path(links, path) && path[0] == v
    && forall i :: 0 <= i < |path| - 1 ==>
         path[i] == v || (path[i] < |net.tables| && !Holds(net.tables[path[i]], k))
  }

  /** The network after `v` stores a message and pushes it. */
  function AfterPush(links: seq<Link>, net: Net, v: nat, m: Message): Net
    requires WellLinked(links, net) && v < |net.tables|
  {
    Local(links, net, v, net.tables[v].(messages := net.tables[v].messages + [m]), [PushMessage(m)])
  }

  lemma HeldStart(links: seq<Link>, net: Net, k: Key)
    requires WellLinked(links, net) && Real(k)
    ensures var w := World(net, {}, HeldBefore(net)); Start(links, w) && QuietHeld(w, k)
  {
    forall v, x | 0 <= v < |net.tables| && Holds(net.tables[v], x) ensures (v, x) in HeldBefore(net) {
      HeldExactly(net, v, x);
    }
    forall v: nat ensures (v, k) in HeldBefore(net) <==> v < |net.tables| && Holds(net.tables[v], k) {
      HeldExactly(net, v, k);
    }
  }

  /** One push into a network with telemetry and other pushes on their way, but no copy of the
      message, in any order of deliveries: once no copy is on its way, exactly the peers that
      had the message, and those a path of peers without it leads to, have it. */
  lemma OnePushReaches(links: seq<Link>, net: Net, v: nat, m: Message, schedule: seq<nat>, x: nat)
    requires WellLinked(links, net) && v < |net.tables| && x < |net.tables| && m.packetId != 0
    requires OnlyPushes(net) && NoCopy(net, Packet(m.packetId))
    requires Servable(links, AfterPush(links, net, v, m), schedule)
    requires NoCopy(Served(links, AfterPush(links, net, v, m), schedule), Packet(m.packetId))
    ensures var k := Packet(m.packetId);
            Holds(Served(links, AfterPush(links, net, v, m), schedule).tables[x], k)
            <==> Holds(net.tables[x], k)
                 || exists path :: FreePath(links, net, v, k, path) && path[|path| - 1] == x
  {
    var k, w := Packet(m.packetId), World(net, {}, HeldBefore(net));
    HeldStart(links, net, k);
    var push, steps := StoreAndPush(v, m), [StoreAndPush(v, m)] + Deliveries(schedule);
    PushRun(links, w, push, schedule, k);
    var r := Run(links, w, steps);
    ReachedExactly(links, w, steps, k, x);
    hide Run, Runnable, Served, Servable, Holds, HeldBefore, Start, Next;
    assert r.quiet == w.quiet - {(v, k)} && Pushers(steps, k) == {v};
    HeldExactly(net, x, k);
    if Reached(links, r.quiet, {v}, k, x) {
      var path :| OpenPath(links, r.quiet, {v}, k, path) && path[|path| - 1] == x;
      PathInRange(links, net, path);
      forall i | 0 <= i < |path| - 1 ensures path[i] == v || !Holds(net.tables[path[i]], k) {
        HeldExactly(net, path[i], k);
      }
      assert FreePath(links, net, v, k, path);
    }
    if exists path :: FreePath(links, net, v, k, path) && path[|path| - 1] == x {
      var path :| FreePath(links, net, v, k, path) && path[|path| - 1] == x;
      forall i | 0 <= i < |path| - 1 ensures (path[i], k) !in r.quiet {
        if path[i] != v { HeldExactly(net, path[i], k); }
      }
      assert OpenPath(links, r.quiet, {v}, k, path);
    }
    if Holds(net.tables[x], k) && x == v {
      TrivialPath(links, r.quiet, v, k);
    }
  }

  lemma TrivialPath(links: seq<Link>, quiet: set<(nat, Key)>, v: nat, k: Key)
    ensures Reached(links, quiet, {v}, k, v)
  {
    assert OpenPath(links, quiet, {v}, k, [v]);
  }

  lemma {:induction false} DeliveriesArePlain(schedule: seq<nat>, k: Key)
    ensures PlainSteps(Deliveries(schedule)) && Pushers(Deliveries(schedule), k) == {}
  {
    if schedule != [] {
      DeliveriesArePlain(schedule[1..], k);
      assert Deliveries(schedule)[1..] == Deliveries(schedule[1..]);
    }
  }

  /** Pushing a message and then delivering in some order, as one run. */
  lemma PushRun(links: seq<Link>, w: World, push: Step, schedule: seq<nat>, k: Key)
    requires push.StoreAndPush? && WellLinked(links, w.net) && Enabled(links, w, push)
    requires push.m.packetId != 0 && k == Packet(push.m.packetId)
    requires Servable(links, AfterPush(links, w.net, push.node, push.m), schedule)
    ensures var steps := [push] + Deliveries(schedule);
            && Runnable(links, w, steps) && PlainSteps(steps) && Pushers(steps, k) == {push.node}
            && Run(links, w, steps).net == Served(links, AfterPush(links, w.net, push.node, push.m), schedule)
            && Run(links, w, steps).quiet == w.quiet - {(push.node, k)}
  {
    var u := Next(links, w, push);
    assert u.net == AfterPush(links, w.net, push.node, push.m);
    assert Runnable(links, u, []) && Run(links, u, []) == u;
    RunCons(links, w, push, []);
    assert [push] + [] == [push];
    hide Next, Enabled, Runnable, Run, Served, Servable;
    RunThenServe(links, w, [push], schedule);
    DeliveriesArePlain(schedule, k);
    var steps := [push] + Deliveries(schedule);
    assert steps[1..] == Deliveries(schedule);
    assert Pushers(steps, k) == PushersOf(push, k) + {};
  }
}
