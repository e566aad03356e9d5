/** Two peers are a network: every run of syncs between a pair of peers is a run of the mesh
    network with one connection. */
module PairNetwork {
  import opened Tables
  import opened DbSync
  import opened MeshNetwork
  import opened CatchUp
  import opened SyncRuns

  const LINKS := [Link(0, 1), Link(1, 0)]

  /** A is peer 0 and B is peer 1. */
  function NetOf(p: Pair): Net {
    Net([p.a, p.b], [p.toB, p.toA])
  }

  function StepOf(m: Move): Step {
    match m
    case Deliver(t) => Step.Deliver(if t.ToB? then 0 else 1)
    case StartA => InitiateSync(0)
    case StartB => InitiateSync(1)
  }

  function StepsOf(moves: seq<Move>): (steps: seq<Step>)
    ensures |steps| == |moves|
  {
    if moves == [] then [] else [StepOf(moves[0])] + StepsOf(moves[1..])
  }

  lemma PairLinked(p: Pair)
    ensures WellLinked(LINKS, NetOf(p))
  {
    assert LINKS[0] == Link(0, 1) && LINKS[1] == Link(1, 0);
  }

  lemma SendOnPair(q: seq<seq<Payload>>, v: nat, out: seq<Payload>)
    requires |q| == 2
    ensures v == 0 ==> SendAll(LINKS, q, v, out) == [q[0] + out, q[1]]
    ensures v == 1 ==> SendAll(LINKS, q, v, out) == [q[0], q[1] + out]
  {
  }

  lemma ArriveOnPair(p: Pair, t: Turn)
    requires CanTurn(p, t) && WellLinked(LINKS, NetOf(p))
    ensures Arrive(LINKS, NetOf(p), if t.ToB? then 0 else 1) == NetOf(Exchange(p, t))
  {
    if t.ToB? {
      var out := Sent(p.b, p.toB[0]);
      SendOnPair([p.toB[1..], p.toA], 1, out);
      assert [p.toB, p.toA][0 := p.toB[1..]] == [p.toB[1..], p.toA];
    } else {
      var out := Sent(p.a, p.toA[0]);
      SendOnPair([p.toB, p.toA[1..]], 0, out);
      assert [p.toB, p.toA][1 := p.toA[1..]] == [p.toB, p.toA[1..]];
    }
  }

  /** One move is one step. */
  lemma MoveIsStep(p: Pair, m: Move, w: World)
    requires w.net == NetOf(p) && WellLinked(LINKS, w.net)
    ensures CanMove(p, m) <==> Enabled(LINKS, w, StepOf(m))
    ensures CanMove(p, m) ==> Next(LINKS, w, StepOf(m)).net == NetOf(Moved(p, m))
  {
    hide After, Sent, InventoryOf;
    match m {
      case Deliver(t) => if CanMove(p, m) { ArriveOnPair(p, t); }
      case StartA => SendOnPair([p.toB, p.toA], 0, [InventoryOf(p.a)]);
      case StartB => SendOnPair([p.toB, p.toA], 1, [InventoryOf(p.b)]);
    }
  }

  /** Every run of the pair is a run of the network, with the same tables and queues at the
      end, and the other way round. */
  lemma {:induction false} PairRunsAreNetworkRuns(p: Pair, moves: seq<Move>, w: World)
    requires w.net == NetOf(p)
    ensures WellLinked(LINKS, w.net)
    ensures CanMoveAll(p, moves) <==> Runnable(LINKS, w, StepsOf(moves))
    ensures CanMoveAll(p, moves) ==> Run(LINKS, w, StepsOf(moves)).net == NetOf(MovedAll(p, moves))
    decreases |moves|
  {
    PairLinked(p);
    hide Next, Enabled, Moved, CanMove, StepOf;
    if moves != [] {
      MoveIsStep(p, moves[0], w);
      assert StepsOf(moves)[0] == StepOf(moves[0]) && StepsOf(moves)[1..] == StepsOf(moves[1..]);
      if CanMove(p, moves[0]) {
        PairRunsAreNetworkRuns(Moved(p, moves[0]), moves[1..], Next(LINKS, w, StepOf(moves[0])));
      }
    }
  }
}
