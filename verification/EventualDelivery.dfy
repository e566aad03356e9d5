/** Coverage and termination together: what is pushed gets everywhere, in every order of
    deliveries, after a bounded number of them, telemetry echoes aside. */
module EventualDelivery {
  import opened Options
  import opened Tables
  import opened DbSync
  import opened ReplicatedTables
  import opened MeshNetwork
  import opened FloodTermination

  /** No sync is started, so only pushes are sent. */
  predicate PlainStep(s: Step) {
    !s.InitiateSync?
  }

  /** A push or a last page is answered with pushes. */
  lemma PushesAnswered(t: Tables, p: Payload)
    requires p.Data? && !p.hasMore
    ensures forall i :: 0 <= i < |Sent(t, p)| ==> Sent(t, p)[i].Data? && !Sent(t, p)[i].hasMore
  {
  }

  lemma SendPushes(links: seq<Link>, queues: seq<seq<Payload>>, v: nat, out: seq<Payload>)
    requires |queues| == |links|
    requires forall i :: 0 <= i < |out| ==> out[i].Data? && !out[i].hasMore
    requires forall j, i :: 0 <= j < |queues| && 0 <= i < |queues[j]| ==> queues[j][i].Data? && !queues[j][i].hasMore
    ensures var r := SendAll(links, queues, v, out);
            forall j, i :: 0 <= j < |r| && 0 <= i < |r[j]| ==> r[j][i].Data? && !r[j][i].hasMore
  {
    var r: seq<seq<Payload>> := SendAll(links, queues, v, out);
    forall j, i | 0 <= j < |r| && 0 <= i < |r[j]| ensures r[j][i].Data? && !r[j][i].hasMore {
      assert r[j][i] == if i < |queues[j]| then queues[j][i] else out[i - |queues[j]|];
    }
  }

  lemma StepPlain(links: seq<Link>, w: World, s: Step)
    requires WellLinked(links, w.net) && Enabled(links, w, s) && OnlyPushes(w.net) && PlainStep(s)
    ensures OnlyPushes(Next(links, w, s).net)
  {
    var queues := w.net.queues;
    if s.Deliver? {
      var i := s.link;
      var t, q := w.net.tables[links[i].dst], queues[i];
      PushesAnswered(t, q[0]);
      SendPushes(links, queues[i := q[1..]], links[i].dst, Sent(t, q[0]));
    } else if s.StoreAndPush? {
      SendPushes(links, queues, s.node, [PushMessage(s.m)]);
    } else if s.LocalPosition? {
      SendPushes(links, queues, s.node, [PushLocation(s.l)]);
    } else if s.LocalTelemetry? {
      SendPushes(links, queues, s.node, [PushTelemetry(s.t)]);
    } else {
      SendPushes(links, queues, s.node, []);
    }
  }

  ghost predicate PlainSteps(steps: seq<Step>) {
    forall i :: 0 <= i < |steps| ==> PlainStep(steps[i])
  }

  lemma {:induction false} RunPlain(links: seq<Link>, w: World, steps: seq<Step>)
    requires WellLinked(links, w.net) && Runnable(links, w, steps) && OnlyPushes(w.net) && PlainSteps(steps)
    ensures OnlyPushes(Run(links, w, steps).net)
    decreases |steps|
  {
    hide Next, Enabled, OnlyPushes, PlainStep;
    if steps != [] {
      assert PlainStep(steps[0]);
      StepPlain(links, w, steps[0]);
      RunPlain(links, Next(links, w, steps[0]), steps[1..]);
    }
  }

  /** The deliveries of a schedule, as steps. */
  function Deliveries(schedule: seq<nat>): (steps: seq<Step>)
    ensures |steps| == |schedule|
  {
    if schedule == [] then [] else [Deliver(schedule[0])] + Deliveries(schedule[1..])
  }

  /** Serving a schedule after a run is one longer run. */
  lemma {:induction false} RunThenServe(links: seq<Link>, w: World, steps: seq<Step>, schedule: seq<nat>)
    requires WellLinked(links, w.net) && Runnable(links, w, steps)
    requires Servable(links, Run(links, w, steps).net, schedule)
    ensures Runnable(links, w, steps + Deliveries(schedule))
    ensures var r := Run(links, w, steps + Deliveries(schedule));
            r.net == Served(links, Run(links, w, steps).net, schedule) && r.quiet == Run(links, w, steps).quiet
    decreases |steps|, |schedule|
  {
    hide Next, Enabled, Served, Servable;
    if steps == [] {
      assert steps + Deliveries(schedule) == Deliveries(schedule);
      ServeAsRun(links, w, schedule);
    } else {
      RunThenServe(links, Next(links, w, steps[0]), steps[1..], schedule);
      assert (steps + Deliveries(schedule))[1..] == steps[1..] + Deliveries(schedule);
    }
  }

  lemma {:induction false} ServeAsRun(links: seq<Link>, w: World, schedule: seq<nat>)
    requires WellLinked(links, w.net) && Servable(links, w.net, schedule)
    ensures Runnable(links, w, Deliveries(schedule))
    ensures var r := Run(links, w, Deliveries(schedule));
            r.net == Served(links, w.net, schedule) && r.quiet == w.quiet
    decreases |schedule|
  {
    if schedule != [] {
      var step := Deliver(schedule[0]);
      assert Enabled(links, w, step) && Next(links, w, step).net == Arrive(links, w.net, schedule[0]);
      ServeAsRun(links, Next(links, w, step), schedule[1..]);
      assert Deliveries(schedule)[1..] == Deliveries(schedule[1..]);
    }
  }

  // ------------------------------------------------- deliveries can always be finished

  lemma {:induction false} ServedConcat(links: seq<Link>, net: Net, s: seq<nat>, t: seq<nat>)
    requires WellLinked(links, net) && Servable(links, net, s) && Servable(links, Served(links, net, s), t)
    ensures Servable(links, net, s + t) && Served(links, net, s + t) == Served(links, Served(links, net, s), t)
    decreases |s|
  {
    hide Arrive;
    if s == [] {
      assert s + t == t;
    } else {
      ServedConcat(links, Arrive(links, net, s[0]), s[1..], t);
      assert (s + t)[1..] == s[1..] + t;
    }
  }

  /** A payload that is no pure echo gets its turn, which takes something off the potential. */
  lemma {:induction false} ServeTo(links: seq<Link>, net: Net, keys: seq<Key>, j: nat, i: nat)
      returns (schedule: seq<nat>)
    requires Flooding(links, net, keys) && j < |links| && i < |net.queues[j]| && !PureEcho(net.queues[j][i])
    ensures Servable(links, net, schedule) && Flooding(links, Served(links, net, schedule), keys)
    ensures Potential(links, Served(links, net, schedule), keys) < Potential(links, net, keys)
    decreases i
  {
    hide Flooding, Potential, PureEcho;
    FloodingLinked(links, net, keys);
    DeliveryStaysGuarded(links, net, keys, j);
    DeliveryPotential(links, net, keys, j);
    var r := Arrive(links, net, j);
    assert Servable(links, r, []) && Served(links, r, []) == r;
    if i == 0 {
      schedule := [j] + [];
    } else {
      var v, popped := links[j].dst, net.queues[j := net.queues[j][1..]];
      QueuedStays(links, popped, v, Sent(net.tables[v], net.queues[j][0]), j, i - 1);
      var rest := ServeTo(links, r, keys, j, i - 1);
      schedule := [j] + rest;
    }
  }

  /** Only telemetry and messages without a packet id are on their way. */
  ghost predicate OnlyPureEchoes(net: Net) {
    forall j, i :: 0 <= j < |net.queues| && 0 <= i < |net.queues[j]| ==> PureEcho(net.queues[j][i])
  }

  /** Deliveries can always go on until only pure echoes are left. */
  lemma {:induction false} Finish(links: seq<Link>, net: Net, keys: seq<Key>) returns (schedule: seq<nat>)
    requires Flooding(links, net, keys)
    ensures Servable(links, net, schedule) && OnlyPureEchoes(Served(links, net, schedule))
    decreases Potential(links, net, keys)
  {
    hide Flooding, Potential, PureEcho;
    FloodingLinked(links, net, keys);
    if OnlyPureEchoes(net) {
      return [];
    }
    var j, i :| 0 <= j < |net.queues| && 0 <= i < |net.queues[j]| && !PureEcho(net.queues[j][i]);
    var first := ServeTo(links, net, keys, j, i);
    var rest := Finish(links, Served(links, net, first), keys);
    ServedConcat(links, net, first, rest);
    schedule := first + rest;
  }

  lemma EchoesCarryNone(net: Net, k: Key)
    requires OnlyPureEchoes(net)
    ensures NoCopy(net, k)
  {
    forall j, i | 0 <= j < |net.queues| && 0 <= i < |net.queues[j]| ensures !Carries(net.queues[j][i], k) {
      assert PureEcho(net.queues[j][i]);
    }
  }

  /** The key is held by every peer. */
  ghost predicate Everywhere(net: Net, k: Key) {
    forall v :: 0 <= v < |net.tables| ==> Holds(net.tables[v], k)
  }

  /** After `schedule` deliveries can go on until no copy of the key is on its way. */
  ghost predicate CanFinish(links: seq<Link>, net: Net, schedule: seq<nat>, k: Key)
    requires WellLinked(links, net)
  {
    exists more :: Servable(links, net, schedule + more) && NoCopy(Served(links, net, schedule + more), k)
  }

  /** Eventual delivery: on a connected network, after any run without syncs, whatever
      telemetry is on its way: there is a bound on the deliveries that are not pure echoes, in
      any order; every order of deliveries can be continued until no copy of a pushed key is
      on its way; and whenever none is, every peer holds the key, as long as no peer holds it
      without having pushed it. */
  lemma PushesEndUpEverywhere(links: seq<Link>, w: World, steps: seq<Step>, i: nat, v: nat, k: Key)
    requires Start(links, w) && OnlyPushes(w.net) && Connected(links, |w.net.tables|)
    requires Runnable(links, w, steps) && PlainSteps(steps)
    requires i < |steps| && PushedKey(steps[i]) == Some((v, k)) && v < |w.net.tables|
    requires forall x :: (x, k) !in Run(links, w, steps).quiet
    ensures var net := Run(links, w, steps).net;
            && Settling(links, net)
            && (forall schedule :: Servable(links, net, schedule) ==> CanFinish(links, net, schedule, k))
            && (forall schedule :: Servable(links, net, schedule) && NoCopy(Served(links, net, schedule), k)
                  ==> Everywhere(Served(links, net, schedule), k))
  {
    hide Settling, CanFinish, Everywhere, NoCopy, OnlyPushes, Connected, Runnable, Servable, Served;
    var net := Run(links, w, steps).net;
    RunPlain(links, w, steps);
    FloodSettles(links, net);
    forall schedule | Servable(links, net, schedule) ensures CanFinish(links, net, schedule, k) {
      Finishes(links, net, schedule, k);
    }
    forall schedule | Servable(links, net, schedule) && NoCopy(Served(links, net, schedule), k)
      ensures Everywhere(Served(links, net, schedule), k)
    {
      ServedEverywhere(links, w, steps, schedule, i, v, k);
    }
  }

  lemma Finishes(links: seq<Link>, net: Net, schedule: seq<nat>, k: Key)
    requires WellLinked(links, net) && OnlyPushes(net) && Servable(links, net, schedule)
    ensures CanFinish(links, net, schedule, k)
  {
    var keys := FloodingNow(links, net);
    FloodConservesPotential(links, net, keys, schedule);
    var more := Finish(links, Served(links, net, schedule), keys);
    ServedConcat(links, net, schedule, more);
    EchoesCarryNone(Served(links, net, schedule + more), k);
  }

  lemma ServedEverywhere(links: seq<Link>, w: World, steps: seq<Step>, schedule: seq<nat>, i: nat, v: nat, k: Key)
    requires Start(links, w) && Connected(links, |w.net.tables|) && Runnable(links, w, steps)
    requires i < |steps| && PushedKey(steps[i]) == Some((v, k)) && v < |w.net.tables|
    requires forall x :: (x, k) !in Run(links, w, steps).quiet
    requires Servable(links, Run(links, w, steps).net, schedule)
    requires NoCopy(Served(links, Run(links, w, steps).net, schedule), k)
    ensures Everywhere(Served(links, Run(links, w, steps).net, schedule), k)
  {
    hide Servable, Served, Holds, Next, Enabled, Connected, NoCopy;
    RunThenServe(links, w, steps, schedule);
    var all := steps + Deliveries(schedule);
    var r := Run(links, w, all);
    assert all[i] == steps[i];
    forall peer | 0 <= peer < |r.net.tables| ensures Holds(r.net.tables[peer], k) {
      EveryPushReachesEveryPeer(links, w, all, i, v, k, peer);
    }
  }
}
