/** Telemetry rows whose metrics differ: which rows catch-up brings to their latest state.

    A peer may be given more metrics for a row it has paged already, so the lagging peer's row
    of that key is a part of the leading peer's.  Its timestamp is not behind any cursor, so no
    page carries it again. */
module CatchUpValues {
  import opened Tables
  import opened DbSync
  import opened ReplicatedTables
  import opened MeshNetwork
  import opened PagedWalk
  import opened CatchUp
  import opened SyncRuns
  import opened SyncLimits

  /** The rows B had are there as they were, and all others are A's. */
  ghost predicate Extends(b: Tables, c: Tables, a: Tables) {
    && OneRowPerKey(c.telemetry)
    && (forall t :: t in b.telemetry ==> t in c.telemetry)
    && (forall t :: t in c.telemetry ==> t in b.telemetry || t in a.telemetry)
  }

  lemma PageExtends(a: Tables, w: Marks, b: Tables, k: nat, p: Payload)
    requires Leading(a) && SomeOf(b, a) && NewerAlike(b, a, w.readings.cursor) && PageFor(a, At(a, w, k)) == [p]
    ensures Extends(b, After(b, p), a)
  {
    AlikeLater(a, b, w, k);
    PageHandled(a, b, At(a, w, k), p);
    assert SomeOf(After(b, p), a);
  }

  lemma MoveExtends(a: Tables, w: Marks, p: Pair, g: Tags, m: Move)
    requires Syncing(a, w, p, g) && CanMove(p, m)
    ensures Extends(p.b, Moved(p, m).b, a)
  {
    assert OneRowPerKey(p.b.telemetry);
    if m.Deliver? && m.turn.ToB? {
      FirstForB(a, w, p, g);
      hide At, PageFor, After, Sent, MarksOf;
      if g.toB[0].Page? {
        PageExtends(a, w, p.b, g.toB[0].round, p.toB[0]);
      } else if g.toB[0].Echo? {
        EchoReturned(p.b, p.toB[0]);
      } else {
        AnnounceAnswered(a, p.b);
      }
    }
  }

  lemma {:induction false} MovesExtend(a: Tables, w: Marks, p: Pair, g: Tags, moves: seq<Move>)
    requires Syncing(a, w, p, g) && CanMoveAll(p, moves)
    ensures Extends(p.b, MovedAll(p, moves).b, a)
    decreases |moves|
  {
    if moves == [] {
      assert OneRowPerKey(p.b.telemetry);
    } else {
      MoveKeepsSyncing(a, w, p, g, moves[0]);
      MoveExtends(a, w, p, g, moves[0]);
      hide Syncing, Moved, CanMove, OneRowPerKey;
      MovesExtend(a, w, Moved(p, moves[0]), TagsAfter(a, w, g, moves[0]), moves[1..]);
    }
  }

  lemma RunExtends(a: Tables, b: Tables, moves: seq<Move>)
    requires Leading(a) && SomeOf(b, a) && CanMoveAll(Pair(a, b, [], []), moves)
    ensures Extends(b, MovedAll(Pair(a, b, [], []), moves).b, a)
  {
    var start, w, none := Pair(a, b, [], []), MarksOf(b), Tags(0, [], []);
    NextRound(a, w, 0);
    AlikeAtFirst(a, b);
    assert Syncing(a, w, start, none);
    MovesExtend(a, w, start, none, moves);
  }

  // --------------------------------------------------------------- which values arrive

  /** B's row of the key, if any, is the row itself. */
  ghost predicate AlikeOn(b: Tables, x: Telemetry) {
    forall t :: t in b.telemetry && SameReading(t, x) ==> t == x
  }

  /** After any run, B has a row of A's with all its metrics exactly when it has its key and did
      not start with a row of that key that differs. */
  lemma ValuesExactly(a: Tables, b: Tables, moves: seq<Move>, x: Telemetry)
    requires Leading(a) && SomeOf(b, a) && CanMoveAll(Pair(a, b, [], []), moves) && x in a.telemetry
    ensures var c := MovedAll(Pair(a, b, [], []), moves).b;
            x in c.telemetry <==> ReadingKey(x) in KeysOf(c.telemetry, ReadingKey) && AlikeOn(b, x)
  {
    var c := MovedAll(Pair(a, b, [], []), moves).b;
    RunExtends(a, b, moves);
    hide Extends, SomeOf, MovedAll, CanMoveAll;
    RowsExtended(a, b, c, x);
  }

  lemma RowsExtended(a: Tables, b: Tables, c: Tables, x: Telemetry)
    requires Leading(a) && Extends(b, c, a) && x in a.telemetry
    ensures x in c.telemetry <==> ReadingKey(x) in KeysOf(c.telemetry, ReadingKey) && AlikeOn(b, x)
  {
    if x in c.telemetry {
      KeyOfMember(c.telemetry, ReadingKey, x);
      forall t | t in b.telemetry && SameReading(t, x) ensures t == x {
        SameRow(c.telemetry, t, x);
      }
    }
    if ReadingKey(x) in KeysOf(c.telemetry, ReadingKey) && AlikeOn(b, x) {
      var i := RowOfKey(c.telemetry, ReadingKey, ReadingKey(x));
      var r := c.telemetry[i];
      assert r in c.telemetry && SameReading(r, x);
      if r in a.telemetry {
        SameRow(a.telemetry, r, x);
      }
    }
  }

  /** B has every row of A's with a timestamp, telemetry with all its metrics. */
  ghost predicate Matches(a: Tables, c: Tables) {
    && Covers(a, MarksOf(c))
    && forall x :: x in a.telemetry && x.ts > 0 ==> x in c.telemetry
  }

  ghost predicate MatchesIn(a: Tables, b: Tables, moves: seq<Move>) {
    CanMoveAll(Pair(a, b, [], []), moves) && Matches(a, MovedAll(Pair(a, b, [], []), moves).b)
  }

  /** Some run of syncs brings B's rows to the state of A's. */
  ghost predicate CanMatch(a: Tables, b: Tables) {
    exists moves :: MatchesIn(a, b, moves)
  }

  /** No row with a timestamp that B starts with differs from A's. */
  ghost predicate NoneBehind(a: Tables, b: Tables) {
    forall t :: t in b.telemetry && t.ts > 0 ==> t in a.telemetry
  }

  /** B can get every row of A's in its latest state exactly when it can get every row's key and
      none of the telemetry rows it starts with differs from A's. */
  lemma MatchExactly(a: Tables, b: Tables)
    requires Leading(a) && SomeOf(b, a)
    ensures CanMatch(a, b) <==> CanComplete(a, b) && NoneBehind(a, b)
  {
    hide Covers, MovedAll, CanMoveAll, MarksOf;
    forall moves | MatchesIn(a, b, moves) ensures CanComplete(a, b) && NoneBehind(a, b) {
      RunExtends(a, b, moves);
      assert CompletesIn(a, b, moves);
      MatchedBefore(a, b, MovedAll(Pair(a, b, [], []), moves).b);
    }
    if CanComplete(a, b) && NoneBehind(a, b) {
      var moves :| CompletesIn(a, b, moves);
      RunExtends(a, b, moves);
      CoveredMatches(a, b, MovedAll(Pair(a, b, [], []), moves).b);
      assert MatchesIn(a, b, moves);
    }
  }

  lemma MatchedBefore(a: Tables, b: Tables, c: Tables)
    requires SomeOf(b, a) && Extends(b, c, a) && Matches(a, c)
    ensures NoneBehind(a, b)
  {
    hide Covers;
    forall t | t in b.telemetry && t.ts > 0 ensures t in a.telemetry {
      assert HasReading(a.telemetry, t);
      var x :| x in a.telemetry && SameReading(x, t);
      SameRow(c.telemetry, t, x);
    }
  }

  lemma CoveredMatches(a: Tables, b: Tables, c: Tables)
    requires Leading(a) && Extends(b, c, a) && Covers(a, MarksOf(c)) && NoneBehind(a, b)
    ensures Matches(a, c)
  {
    forall x | x in a.telemetry && x.ts > 0 ensures x in c.telemetry {
      RowsAfterHas(a.telemetry, TelemetryTs, 0, x);
      KeyOfMember(RowsAfter(a.telemetry, TelemetryTs, 0), ReadingKey, x);
      forall t | t in b.telemetry && SameReading(t, x) ensures t == x {
        SameRow(a.telemetry, t, x);
      }
      RowsExtended(a, b, c, x);
    }
  }

  /** A row that was given more metrics while the other peer was away: both peers take their
      tables for equal, and the metrics never arrive. */
  lemma LateMetricsNeverArrive(x: Telemetry, m: map<Metric, real>)
    requires x.ts > 0 && PartOf(m, x.metrics) && m != x.metrics
    ensures var a, b := Tables([], [], [x]), Tables([], [], [x.(metrics := m)]);
            && Leading(a) && SomeOf(b, a)
            && Sent(a, InventoryOf(b)) == [] && Sent(b, InventoryOf(a)) == []
            && CanComplete(a, b) && !CanMatch(a, b)
  {
    var a, b := Tables([], [], [x]), Tables([], [], [x.(metrics := m)]);
    assert x in a.telemetry && b.telemetry[0] in b.telemetry;
    assert HasReading(a.telemetry, b.telemetry[0]);
    assert MaxTs([x][1..], TelemetryTs) == 0 && MaxTs(b.telemetry[1..], TelemetryTs) == 0;
    assert b.telemetry[0] !in a.telemetry;
    MatchExactly(a, b);
    assert [x][..0] == [] && b.telemetry[..0] == [];
    assert KeysOf(b.telemetry, ReadingKey) == {ReadingKey(x)};
    assert [x][1..] == [] && RowsAfter([x], TelemetryTs, 0) == [x];
    assert Covers(a, MarksOf(b));
    assert CompletesIn(a, b, []);
  }
}
