/** When a flood of pushes dies out.

    Only deliveries happen here.  A telemetry row and a message without a packet id are
    pushed on by every peer that gets them, so such echoes go on for ever; everything else
    is counted by a potential: the other payloads in flight and, for every key a peer still
    lacks, the copies the peer will send when it gets it.  Each delivery of anything but an
    echo lowers the potential by exactly one, and an echo leaves it as it is. */
module FloodTermination {
  import opened Tables
  import opened DbSync
  import opened ReplicatedTables
  import opened MeshNetwork

  // -------------------------------------------------------------- schedules

  /** The links of `schedule` can be served one after another. */
  ghost predicate Servable(links: seq<Link>, net: Net, schedule: seq<nat>)
    requires WellLinked(links, net)
    decreases |schedule|
  {
    schedule == []
    || (schedule[0] < |links| && net.queues[schedule[0]] != []
        && Servable(links, Arrive(links, net, schedule[0]), schedule[1..]))
  }

  ghost function Served(links: seq<Link>, net: Net, schedule: seq<nat>): (r: Net)
    requires WellLinked(links, net) && Servable(links, net, schedule)
    ensures WellLinked(links, r) && |r.tables| == |net.tables|
    decreases |schedule|
  {
    if schedule == [] then net else Served(links, Arrive(links, net, schedule[0]), schedule[1..])
  }

  // -------------------------------------------------------------- potential

  /** A row no duplicate test guards: telemetry, or a message without a packet id. */
  ghost predicate Echoes(p: Payload) {
    p.Data? && (p.telemetry != [] || HasPacket(p.messages, 0))
  }

  /** Such rows and no others. */
  ghost predicate PureEcho(p: Payload) {
    Echoes(p) && p.locations == [] && forall m :: m in p.messages ==> m.packetId == 0
  }

  ghost function Cost(p: Payload): nat {
    if PureEcho(p) then 0 else 1
  }

  /** The payloads of a queue that are not pure echoes. */
  ghost function Weight(q: seq<Payload>): nat {
    if q == [] then 0 else Weight(q[..|q| - 1]) + Cost(q[|q| - 1])
  }

  ghost function Count(queues: seq<seq<Payload>>): nat {
    if queues == [] then 0 else Count(queues[..|queues| - 1]) + Weight(queues[|queues| - 1])
  }

  /** The number of links a peer sends on. */
  function Degree(links: seq<Link>, v: nat): nat {
    if links == [] then 0
    else Degree(links[..|links| - 1], v) + if links[|links| - 1].src == v then 1 else 0
  }

  function Missing(t: Tables, keys: seq<Key>): nat {
    if keys == [] then 0 else (if Holds(t, keys[0]) then 0 else 1) + Missing(t, keys[1..])
  }

  function Owed(links: seq<Link>, tables: seq<Tables>, keys: seq<Key>): nat {
    if tables == [] then 0
    else
      var last := |tables| - 1;
      Owed(links, tables[..last], keys) + Degree(links, last) * Missing(tables[last], keys)
  }

  ghost function Potential(links: seq<Link>, net: Net, keys: seq<Key>): nat {
    Count(net.queues) + Owed(links, net.tables, keys)
  }

  ghost predicate Distinct(keys: seq<Key>) {
    forall i, j :: 0 <= i < j < |keys| ==> keys[i] != keys[j]
  }

  /** A push or a last page; the keys of the rows that the duplicate tests guard are in `keys`. */
  ghost predicate Guarded(p: Payload, keys: seq<Key>) {
    && p.Data? && !p.hasMore
    && (forall m :: m in p.messages && m.packetId != 0 ==> Packet(m.packetId) in keys)
    && (forall l :: l in p.locations ==> PlaceKey(l) in keys)
  }

  ghost predicate AllGuarded(queue: seq<Payload>, keys: seq<Key>) {
    forall i :: 0 <= i < |queue| ==> Guarded(queue[i], keys)
  }

  ghost predicate Flooding(links: seq<Link>, net: Net, keys: seq<Key>) {
    && WellLinked(links, net) && Distinct(keys)
    && forall j :: 0 <= j < |net.queues| ==> AllGuarded(net.queues[j], keys)
  }

  lemma {:induction false} WeightConcat(a: seq<Payload>, b: seq<Payload>)
    ensures Weight(a + b) == Weight(a) + Weight(b)
  {
    if b == [] {
      assert a + b == a;
    } else {
      var n := |b| - 1;
      WeightConcat(a, b[..n]);
      assert (a + b)[..|a + b| - 1] == a + b[..n];
    }
  }

  lemma WeightFirst(q: seq<Payload>)
    requires q != []
    ensures Weight(q) == Cost(q[0]) + Weight(q[1..])
  {
    WeightConcat([q[0]], q[1..]);
    assert [q[0]] + q[1..] == q && [q[0]][..0] == [];
  }

  lemma SendLast(links: seq<Link>, queues: seq<seq<Payload>>, v: nat, out: seq<Payload>)
    requires |queues| == |links| && links != []
    ensures var n, r := |links| - 1, SendAll(links, queues, v, out);
            && r[..n] == SendAll(links[..n], queues[..n], v, out)
            && Weight(r[n]) == Weight(queues[n]) + if links[n].src == v then Weight(out) else 0
  {
    WeightConcat(queues[|links| - 1], out);
  }

  lemma CountLast(queues: seq<seq<Payload>>)
    requires queues != []
    ensures Count(queues) == Count(queues[..|queues| - 1]) + Weight(queues[|queues| - 1])
  {
  }

  lemma DegreeLast(links: seq<Link>, v: nat, k: nat)
    requires links != []
    ensures Degree(links, v) * k
         == Degree(links[..|links| - 1], v) * k + if links[|links| - 1].src == v then k else 0
  {
    if links[|links| - 1].src == v {
      OneMore(Degree(links[..|links| - 1], v), k);
    }
  }

  lemma OneMore(d: nat, k: nat)
    ensures (d + 1) * k == d * k + k
  {
  }

  lemma {:induction false} CountSend(links: seq<Link>, queues: seq<seq<Payload>>, v: nat, out: seq<Payload>)
    requires |queues| == |links|
    ensures Count(SendAll(links, queues, v, out)) == Count(queues) + Degree(links, v) * Weight(out)
  {
    if links == [] {
    } else {
      var n := |links| - 1;
      hide SendAll, Count, Degree, Weight;
      CountLast(queues);
      CountLast(SendAll(links, queues, v, out));
      DegreeLast(links, v, Weight(out));
      CountSend(links[..n], queues[..n], v, out);
      SendLast(links, queues, v, out);
    }
  }

  lemma {:induction false} CountPop(queues: seq<seq<Payload>>, i: nat)
    requires i < |queues| && queues[i] != []
    ensures Count(queues) == Count(queues[i := queues[i][1..]]) + Cost(queues[i][0])
  {
    hide Weight, Cost;
    WeightFirst(queues[i]);
    var n := |queues| - 1;
    var popped := queues[i := queues[i][1..]];
    if i < n {
      CountPop(queues[..n], i);
      assert popped[..n] == queues[..n][i := queues[i][1..]];
    } else {
      assert popped[..n] == queues[..n];
    }
  }

  lemma {:induction false} OwedUpdate(links: seq<Link>, tables: seq<Tables>, keys: seq<Key>, v: nat, t: Tables)
    requires v < |tables|
    ensures Owed(links, tables[v := t], keys) + Degree(links, v) * Missing(tables[v], keys)
         == Owed(links, tables, keys) + Degree(links, v) * Missing(t, keys)
  {
    var n := |tables| - 1;
    if v < n {
      OwedUpdate(links, tables[..n], keys, v, t);
      assert tables[v := t][..n] == tables[..n][v := t];
    } else {
      assert tables[v := t][..n] == tables[..n];
    }
  }

  /** Getting one new key lowers what is missing by one. */
  lemma {:induction false} MissingOneLess(t: Tables, u: Tables, keys: seq<Key>, k: Key)
    requires Distinct(keys)
    requires !Holds(t, k) && forall x :: Holds(u, x) <==> Holds(t, x) || x == k
    ensures Missing(t, keys) == Missing(u, keys) + if k in keys then 1 else 0
  {
    if keys != [] {
      assert Distinct(keys[1..]);
      MissingOneLess(t, u, keys[1..], k);
      assert keys == [keys[0]] + keys[1..];
      if keys[0] == k {
        assert k !in keys[1..];
      }
    }
  }

  lemma {:induction false} MissingSame(t: Tables, u: Tables, keys: seq<Key>)
    requires forall x :: Holds(u, x) <==> Holds(t, x)
    ensures Missing(t, keys) == Missing(u, keys)
  {
    if keys != [] {
      MissingSame(t, u, keys[1..]);
    }
  }

  /** Storing a new message: one key less is missing for a push that is no echo. */
  lemma StoredMissing(t: Tables, m: Message, keys: seq<Key>)
    requires Distinct(keys) && (m.packetId != 0 ==> Packet(m.packetId) in keys && !HasPacket(t.messages, m.packetId))
    ensures Missing(t, keys) == Missing(t.(messages := t.messages + [m]), keys) + Cost(PushMessage(m))
  {
    var u := t.(messages := t.messages + [m]);
    forall k ensures Holds(u, k) <==> Holds(t, k) || (k == Packet(m.packetId) && m.packetId != 0) {
      StoreMessageKeys(t, m, k);
    }
    assert [Pushed(m)][0] in PushMessage(m).messages;
    hide Missing, Distinct;
    if m.packetId == 0 {
      MissingSame(t, u, keys);
    } else {
      MissingOneLess(t, u, keys, Packet(m.packetId));
    }
  }

  lemma {:induction false} NewMessagesMissing(t: Tables, incoming: seq<Message>, keys: seq<Key>)
    requires Distinct(keys)
    requires forall m :: m in incoming && m.packetId != 0 ==> Packet(m.packetId) in keys
    ensures var added := NewMessages(t.messages, incoming);
            && Missing(t, keys) == Missing(t.(messages := t.messages + added), keys)
                                   + Weight(Map(PushMessage, added))
            && forall m :: m in added && m.packetId != 0 ==> Packet(m.packetId) in keys
    decreases |incoming|
  {
    hide Missing, Distinct, Weight, Cost, HasPacket;
    if incoming == [] {
      assert t.messages + [] == t.messages;
      NoWeight();
    } else {
      assert incoming == [incoming[0]] + incoming[1..];
      var m := Paged(incoming[0]);
      if m.packetId != 0 && HasPacket(t.messages, m.packetId) {
        NewMessagesMissing(t, incoming[1..], keys);
      } else {
        var u := t.(messages := t.messages + [m]);
        StoredMissing(t, m, keys);
        NewMessagesMissing(u, incoming[1..], keys);
        var rest := NewMessages(u.messages, incoming[1..]);
        assert t.messages + NewMessages(t.messages, incoming) == u.messages + rest;
        FirstPushed(m, rest);
      }
    }
  }

  lemma NoWeight()
    ensures Weight([]) == 0
  {
  }

  lemma FirstPushed(m: Message, rest: seq<Message>)
    ensures Weight(Map(PushMessage, [m] + rest)) == Cost(PushMessage(m)) + Weight(Map(PushMessage, rest))
  {
    hide Weight, Cost;
    var out := Map(PushMessage, [m] + rest);
    assert out[0] == PushMessage(m) && out[1..] == Map(PushMessage, rest);
    WeightFirst(out);
  }

  lemma {:induction false} NewLocationsMissing(t: Tables, incoming: seq<Location>, keys: seq<Key>)
    requires Distinct(keys)
    requires forall l :: l in incoming ==> PlaceKey(l) in keys
    ensures var added := NewLocations(t.locations, incoming);
            && Missing(t, keys) == Missing(t.(locations := t.locations + added), keys) + |added|
            && forall l :: l in added ==> PlaceKey(l) in keys
    decreases |incoming|
  {
    if incoming == [] {
      assert t.locations + [] == t.locations;
    } else {
      assert incoming == [incoming[0]] + incoming[1..];
      var l := incoming[0];
      if HasPlace(t.locations, l) {
        NewLocationsMissing(t, incoming[1..], keys);
      } else {
        var u := t.(locations := t.locations + [l]);
        forall k { StoreLocationKeys(t, l, k); }
        assert forall r :: SamePlace(r, Spot(PlaceKey(l))) ==> SamePlace(r, l);
        assert !Holds(t, PlaceKey(l));
        MissingOneLess(t, u, keys, PlaceKey(l));
        NewLocationsMissing(u, incoming[1..], keys);
        assert t.locations + NewLocations(t.locations, incoming)
            == u.locations + NewLocations(u.locations, incoming[1..]);
      }
    }
  }

  /** Pushes of positions are no echoes, pushes of telemetry are nothing else. */
  lemma {:induction false} PushedWeight(ls: seq<Location>, ts: seq<Telemetry>)
    ensures Weight(Map(PushLocation, ls)) == |ls| && Weight(Map(PushTelemetry, ts)) == 0
    decreases |ls| + |ts|
  {
    if ls != [] {
      PushedWeight(ls[..|ls| - 1], ts);
      assert Map(PushLocation, ls)[..|ls| - 1] == Map(PushLocation, ls[..|ls| - 1]);
    } else if ts != [] {
      PushedWeight(ls, ts[..|ts| - 1]);
      assert Map(PushTelemetry, ts)[..|ts| - 1] == Map(PushTelemetry, ts[..|ts| - 1]);
    }
  }

  lemma SentWeight(t: Tables, p: Payload)
    requires p.Data? && !p.hasMore
    ensures Weight(Sent(t, p)) == Weight(Map(PushMessage, NewMessages(t.messages, p.messages)))
                                  + |NewLocations(t.locations, p.locations)|
  {
    var ms, ls := Map(PushMessage, NewMessages(t.messages, p.messages)), NewLocations(t.locations, p.locations);
    hide Weight, NewMessages, NewLocations;
    PushedWeight(ls, p.telemetry);
    WeightConcat(ms, Map(PushLocation, ls));
    WeightConcat(ms + Map(PushLocation, ls), Map(PushTelemetry, p.telemetry));
    assert Sent(t, p) == ms + Map(PushLocation, ls) + Map(PushTelemetry, p.telemetry);
  }

  /** A guarded payload makes a peer send exactly one guarded push per key it did not hold, and
      echoes. */
  lemma GuardedHandling(t: Tables, p: Payload, keys: seq<Key>)
    requires Distinct(keys) && Guarded(p, keys)
    ensures Missing(t, keys) == Missing(After(t, p), keys) + Weight(Sent(t, p))
    ensures AllGuarded(Sent(t, p), keys)
  {
    hide Weight, Missing;
    var ms, ls := NewMessages(t.messages, p.messages), NewLocations(t.locations, p.locations);
    NewMessagesMissing(t, p.messages, keys);
    var u := t.(messages := t.messages + ms);
    NewLocationsMissing(u, p.locations, keys);
    var v := u.(locations := u.locations + ls);
    assert After(t, p) == v.(telemetry := MergeTelemetry(t.telemetry, p.telemetry));
    MissingSame(v, After(t, p), keys);
    SentWeight(t, p);
    assert Sent(t, p) == Map(PushMessage, ms) + Map(PushLocation, ls) + Map(PushTelemetry, p.telemetry);
    forall i | 0 <= i < |ms| ensures Guarded(Map(PushMessage, ms)[i], keys) {
      assert ms[i] in ms;
    }
    forall i | 0 <= i < |ls| ensures Guarded(Map(PushLocation, ls)[i], keys) {
      assert ls[i] in ls;
    }
  }

  lemma DeliveryStaysGuarded(links: seq<Link>, net: Net, keys: seq<Key>, i: nat)
    requires Flooding(links, net, keys) && i < |links| && net.queues[i] != []
    ensures Guarded(net.queues[i][0], keys)
    ensures Flooding(links, Arrive(links, net, i), keys)
  {
    var q := net.queues[i];
    var t := net.tables[links[i].dst];
    assert AllGuarded(q, keys);
    GuardedHandling(t, q[0], keys);
    var r := Arrive(links, net, i);
    forall j | 0 <= j < |links| ensures AllGuarded(r.queues[j], keys) {
      assert AllGuarded(net.queues[j], keys);
    }
  }

  lemma DeliveryPotential(links: seq<Link>, net: Net, keys: seq<Key>, i: nat)
    requires Flooding(links, net, keys) && i < |links| && net.queues[i] != []
    ensures Potential(links, net, keys)
         == Potential(links, Arrive(links, net, i), keys) + Cost(net.queues[i][0])
  {
    DeliveryStaysGuarded(links, net, keys, i);
    hide Flooding, Cost, Weight, Count, Owed, Missing, Degree, AllGuarded, Guarded, Distinct, After, Sent, SendAll;
    var v, p := links[i].dst, net.queues[i][0];
    var t, popped := net.tables[v], net.queues[i := net.queues[i][1..]];
    FloodingKeys(links, net, keys);
    GuardedHandling(t, p, keys);
    CountPop(net.queues, i);
    CountSend(links, popped, v, Sent(t, p));
    OwedUpdate(links, net.tables, keys, v, After(t, p));
    Balance(Degree(links, v), Missing(t, keys), Missing(After(t, p), keys), Weight(Sent(t, p)));
  }

  lemma FloodingKeys(links: seq<Link>, net: Net, keys: seq<Key>)
    requires Flooding(links, net, keys)
    ensures Distinct(keys)
  {
  }

  lemma Balance(d: nat, a: nat, b: nat, c: nat)
    requires a == b + c
    ensures d * a == d * b + d * c
  {
  }

  /** The deliveries of a schedule that are not pure echoes. */
  ghost function Solid(links: seq<Link>, net: Net, schedule: seq<nat>): nat
    requires WellLinked(links, net) && Servable(links, net, schedule)
    decreases |schedule|
  {
    if schedule == [] then 0
    else Cost(net.queues[schedule[0]][0]) + Solid(links, Arrive(links, net, schedule[0]), schedule[1..])
  }

  /** Flood termination: in every order of deliveries, those that are not pure echoes and what
      is left of the potential add up to the potential at the start. */
  lemma {:induction false} FloodConservesPotential(links: seq<Link>, net: Net, keys: seq<Key>, schedule: seq<nat>)
    requires Flooding(links, net, keys) && Servable(links, net, schedule)
    ensures Flooding(links, Served(links, net, schedule), keys)
    ensures Solid(links, net, schedule) + Potential(links, Served(links, net, schedule), keys)
         == Potential(links, net, keys)
    decreases |schedule|
  {
    hide Flooding, Potential, Cost;
    if schedule != [] {
      FloodingLinked(links, net, keys);
      DeliveryStaysGuarded(links, net, keys, schedule[0]);
      DeliveryPotential(links, net, keys, schedule[0]);
      FloodConservesPotential(links, Arrive(links, net, schedule[0]), keys, schedule[1..]);
    }
  }

  lemma FloodingLinked(links: seq<Link>, net: Net, keys: seq<Key>)
    requires Flooding(links, net, keys)
    ensures WellLinked(links, net)
  {
  }

  // ----------------------------------------- exactly when a flood dies out

  ghost predicate SomeEcho(net: Net) {
    exists j, i :: 0 <= j < |net.queues| && 0 <= i < |net.queues[j]| && Echoes(net.queues[j][i])
  }

  /** Pushes and last pages only. */
  ghost predicate OnlyPushes(net: Net) {
    forall j, i :: 0 <= j < |net.queues| && 0 <= i < |net.queues[j]| ==>
      net.queues[j][i].Data? && !net.queues[j][i].hasMore
  }

  /** Some number bounds the length of every order of deliveries. */
  ghost predicate DiesOut(links: seq<Link>, net: Net)
    requires WellLinked(links, net)
  {
    exists bound: nat :: Bounds(links, net, bound)
  }

  ghost predicate Bounds(links: seq<Link>, net: Net, bound: nat)
    requires WellLinked(links, net)
  {
    forall schedule :: Servable(links, net, schedule) ==> |schedule| <= bound
  }

  lemma {:induction false} ZeroIdsAreNew(rows: seq<Message>, incoming: seq<Message>)
    requires HasPacket(incoming, 0)
    ensures HasPacket(NewMessages(rows, incoming), 0)
    decreases |incoming|
  {
    assert incoming == [incoming[0]] + incoming[1..];
    var m := Paged(incoming[0]);
    if m.packetId == 0 {
      assert m in NewMessages(rows, incoming);
    } else {
      var z :| z in incoming && z.packetId == 0;
      assert z in incoming[1..];
      if HasPacket(rows, m.packetId) {
        ZeroIdsAreNew(rows, incoming[1..]);
      } else {
        ZeroIdsAreNew(rows + [m], incoming[1..]);
        var y :| y in NewMessages(rows + [m], incoming[1..]) && y.packetId == 0;
        assert y in NewMessages(rows, incoming);
      }
    }
  }

  /** Handling an echoing payload sends an echoing payload. */
  lemma EchoIsAnswered(t: Tables, p: Payload) returns (i: nat)
    requires Echoes(p)
    ensures i < |Sent(t, p)| && Echoes(Sent(t, p)[i])
  {
    var added := NewMessages(t.messages, p.messages);
    var ms, ls := Map(PushMessage, added), Map(PushLocation, NewLocations(t.locations, p.locations));
    var ts := Map(PushTelemetry, p.telemetry);
    assert Forwarded(t, p) == ms + ls + ts;
    if p.telemetry != [] {
      i := |ms + ls|;
      assert Forwarded(t, p)[i] == ts[0];
    } else {
      ZeroIdsAreNew(t.messages, p.messages);
      var z :| z in added && z.packetId == 0;
      i :| 0 <= i < |added| && added[i] == z;
      assert Forwarded(t, p)[i] == ms[i];
      assert ms[i].messages[0].packetId == 0 && ms[i].messages[0] in ms[i].messages;
    }
  }

  lemma SentIsQueued(links: seq<Link>, queues: seq<seq<Payload>>, v: nat, out: seq<Payload>, b: nat, n: nat)
    requires |queues| == |links| && b < |links| && links[b].src == v && n < |out|
    ensures var q := SendAll(links, queues, v, out)[b];
            |queues[b]| + n < |q| && q[|queues[b]| + n] == out[n]
  {
  }

  lemma QueuedStays(links: seq<Link>, queues: seq<seq<Payload>>, v: nat, out: seq<Payload>, j: nat, i: nat)
    requires |queues| == |links| && j < |links| && i < |queues[j]|
    ensures var q := SendAll(links, queues, v, out)[j];
            i < |q| && q[i] == queues[j][i]
  {
  }

  /** The answer to the echo that arrives is on the way back. */
  lemma AnswerIsQueued(links: seq<Link>, net: Net, k: nat)
    requires WellLinked(links, net) && TwoWay(links)
    requires k < |links| && net.queues[k] != [] && Echoes(net.queues[k][0])
    ensures SomeEcho(Arrive(links, net, k))
  {
    var v, popped := links[k].dst, net.queues[k := net.queues[k][1..]];
    var out := Sent(net.tables[v], net.queues[k][0]);
    var n := EchoIsAnswered(net.tables[v], net.queues[k][0]);
    assert Linked(links, v, links[k].src);
    var b :| 0 <= b < |links| && links[b] == Link(v, links[k].src);
    SentIsQueued(links, popped, v, out, b, n);
    assert Echoes(Arrive(links, net, k).queues[b][|popped[b]| + n]);
  }

  /** An echo in flight never goes away, whatever is delivered. */
  lemma EchoSurvives(links: seq<Link>, net: Net, k: nat)
    requires WellLinked(links, net) && TwoWay(links) && SomeEcho(net)
    requires k < |links| && net.queues[k] != []
    ensures SomeEcho(Arrive(links, net, k))
  {
    var j, i :| 0 <= j < |net.queues| && 0 <= i < |net.queues[j]| && Echoes(net.queues[j][i]);
    if j == k && i == 0 {
      AnswerIsQueued(links, net, k);
    } else {
      var v, popped := links[k].dst, net.queues[k := net.queues[k][1..]];
      var at := if j == k then i - 1 else i;
      QueuedStays(links, popped, v, Sent(net.tables[v], net.queues[k][0]), j, at);
      assert Echoes(Arrive(links, net, k).queues[j][at]);
    }
  }

  /** With an echo in flight there are orders of deliveries of any length. */
  lemma {:induction false} EchoGoesOn(links: seq<Link>, net: Net, n: nat) returns (schedule: seq<nat>)
    requires WellLinked(links, net) && TwoWay(links) && SomeEcho(net)
    ensures Servable(links, net, schedule) && |schedule| == n
    decreases n
  {
    if n == 0 {
      return [];
    }
    var j, i :| 0 <= j < |net.queues| && 0 <= i < |net.queues[j]| && Echoes(net.queues[j][i]);
    EchoSurvives(links, net, j);
    var rest := EchoGoesOn(links, Arrive(links, net, j), n - 1);
    assert ([j] + rest)[1..] == rest;
    return [j] + rest;
  }

  // The keys in flight, each once.

  function AddKey(keys: seq<Key>, k: Key): (r: seq<Key>)
    ensures k in r && forall x :: x in keys ==> x in r
    ensures Distinct(keys) ==> Distinct(r)
  {
    if k in keys then keys else keys + [k]
  }

  function MessageKeys(keys: seq<Key>, ms: seq<Message>): (r: seq<Key>)
    ensures forall x :: x in keys ==> x in r
    ensures forall m :: m in ms ==> Packet(m.packetId) in r
    ensures Distinct(keys) ==> Distinct(r)
    decreases |ms|
  {
    if ms == [] then keys else MessageKeys(AddKey(keys, Packet(ms[0].packetId)), ms[1..])
  }

  function LocationKeys(keys: seq<Key>, ls: seq<Location>): (r: seq<Key>)
    ensures forall x :: x in keys ==> x in r
    ensures forall l :: l in ls ==> PlaceKey(l) in r
    ensures Distinct(keys) ==> Distinct(r)
    decreases |ls|
  {
    if ls == [] then keys else LocationKeys(AddKey(keys, PlaceKey(ls[0])), ls[1..])
  }

  ghost predicate Lists(keys: seq<Key>, p: Payload) {
    p.Data? ==>
      && (forall m :: m in p.messages ==> Packet(m.packetId) in keys)
      && (forall l :: l in p.locations ==> PlaceKey(l) in keys)
  }

  function QueueKeys(keys: seq<Key>, q: seq<Payload>): (r: seq<Key>)
    ensures forall x :: x in keys ==> x in r
    ensures forall p :: p in q ==> Lists(r, p)
    ensures Distinct(keys) ==> Distinct(r)
    decreases |q|
  {
    if q == [] then keys
    else if q[0].Data? then
      QueueKeys(LocationKeys(MessageKeys(keys, q[0].messages), q[0].locations), q[1..])
    else QueueKeys(keys, q[1..])
  }

  function NetKeys(keys: seq<Key>, queues: seq<seq<Payload>>): (r: seq<Key>)
    ensures forall x :: x in keys ==> x in r
    ensures forall q, p :: q in queues && p in q ==> Lists(r, p)
    ensures Distinct(keys) ==> Distinct(r)
    decreases |queues|
  {
    if queues == [] then keys else NetKeys(QueueKeys(keys, queues[0]), queues[1..])
  }

  /** The keys of everything in flight, each once. */
  lemma FloodingNow(links: seq<Link>, net: Net) returns (keys: seq<Key>)
    requires WellLinked(links, net) && OnlyPushes(net)
    ensures Flooding(links, net, keys)
  {
    keys := NetKeys([], net.queues);
    forall j, i | 0 <= j < |net.queues| && 0 <= i < |net.queues[j]|
      ensures Guarded(net.queues[j][i], keys)
    {
      assert net.queues[j] in net.queues && net.queues[j][i] in net.queues[j];
      assert Lists(keys, net.queues[j][i]);
    }
    forall j | 0 <= j < |net.queues| ensures AllGuarded(net.queues[j], keys) {
    }
  }

  /** Some number bounds the deliveries that are not pure echoes, in every order. */
  ghost predicate Settling(links: seq<Link>, net: Net)
    requires WellLinked(links, net)
  {
    exists bound: nat :: SolidWithin(links, net, bound)
  }

  ghost predicate SolidWithin(links: seq<Link>, net: Net, bound: nat)
    requires WellLinked(links, net)
  {
    forall schedule :: Servable(links, net, schedule) ==> Solid(links, net, schedule) <= bound
  }

  /** Echoes aside, every flood of pushes ends. */
  lemma FloodSettles(links: seq<Link>, net: Net)
    requires WellLinked(links, net) && OnlyPushes(net)
    ensures Settling(links, net)
  {
    var keys := FloodingNow(links, net);
    var bound := Potential(links, net, keys);
    hide Potential, Flooding;
    forall schedule | Servable(links, net, schedule) ensures Solid(links, net, schedule) <= bound {
      FloodConservesPotential(links, net, keys, schedule);
    }
    assert SolidWithin(links, net, bound);
  }

  /** Without an echo in flight none comes up: every delivery counts. */
  lemma NoEchoSent(t: Tables, p: Payload)
    requires p.Data? && !p.hasMore && !Echoes(p)
    ensures forall i :: 0 <= i < |Sent(t, p)| ==> NoEcho(Sent(t, p)[i])
  {
    var ms, ls := NewMessages(t.messages, p.messages), NewLocations(t.locations, p.locations);
    NewMessagesFacts(t.messages, p.messages);
    assert Sent(t, p) == Map(PushMessage, ms) + Map(PushLocation, ls);
    forall i | 0 <= i < |ms| ensures NoEcho(Map(PushMessage, ms)[i]) {
      assert ms[i] in ms;
      var x :| x in p.messages && ms[i] == Paged(x);
      assert x.packetId != 0;
    }
  }

  /** A push or a last page that is no echo. */
  ghost predicate NoEcho(p: Payload) {
    p.Data? && !p.hasMore && !Echoes(p)
  }

  ghost predicate NoEchoIn(q: seq<Payload>) {
    forall i :: 0 <= i < |q| ==> NoEcho(q[i])
  }

  lemma SendNoEcho(links: seq<Link>, queues: seq<seq<Payload>>, v: nat, out: seq<Payload>)
    requires |queues| == |links| && NoEchoIn(out)
    requires forall j :: 0 <= j < |queues| ==> NoEchoIn(queues[j])
    ensures forall j :: 0 <= j < |links| ==> NoEchoIn(SendAll(links, queues, v, out)[j])
  {
    hide NoEcho;
  }

  lemma NoEchoArrives(links: seq<Link>, net: Net, k: nat)
    requires WellLinked(links, net) && k < |links| && net.queues[k] != []
    requires OnlyPushes(net) && !SomeEcho(net)
    ensures OnlyPushes(Arrive(links, net, k)) && !SomeEcho(Arrive(links, net, k))
  {
    var r, v := Arrive(links, net, k), links[k].dst;
    forall j | 0 <= j < |links| ensures NoEchoIn(net.queues[j]) {
    }
    assert NoEcho(net.queues[k][0]);
    NoEchoSent(net.tables[v], net.queues[k][0]);
    hide Sent, Echoes, After;
    SendNoEcho(links, net.queues[k := net.queues[k][1..]], v, Sent(net.tables[v], net.queues[k][0]));
    forall j, i | 0 <= j < |r.queues| && 0 <= i < |r.queues[j]| ensures NoEcho(r.queues[j][i]) {
      assert NoEchoIn(r.queues[j]);
    }
  }

  lemma {:induction false} NoEchoes(links: seq<Link>, net: Net, schedule: seq<nat>)
    requires WellLinked(links, net) && Servable(links, net, schedule) && OnlyPushes(net) && !SomeEcho(net)
    ensures Solid(links, net, schedule) == |schedule|
    decreases |schedule|
  {
    if schedule != [] {
      assert !Echoes(net.queues[schedule[0]][0]);
      NoEchoArrives(links, net, schedule[0]);
      hide OnlyPushes, SomeEcho;
      NoEchoes(links, Arrive(links, net, schedule[0]), schedule[1..]);
    }
  }

  /** A flood of pushes dies out exactly when no telemetry row and no message without a
      packet id is in flight. */
  lemma FloodDiesOutExactly(links: seq<Link>, net: Net)
    requires WellLinked(links, net) && TwoWay(links) && OnlyPushes(net)
    ensures DiesOut(links, net) <==> !SomeEcho(net)
  {
    if SomeEcho(net) {
      forall bound: nat ensures !Bounds(links, net, bound) {
        var schedule := EchoGoesOn(links, net, bound + 1);
        assert Servable(links, net, schedule) && |schedule| > bound;
      }
    } else {
      FloodSettles(links, net);
      var bound: nat :| SolidWithin(links, net, bound);
      forall schedule | Servable(links, net, schedule) ensures |schedule| <= bound {
        NoEchoes(links, net, schedule);
      }
      assert Bounds(links, net, bound);
    }
  }
}
