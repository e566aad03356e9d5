/** Exactly what syncs achieve: B can get every row of A's if and only if the walks through
    A's tables do, and the exchange falls quiet, telemetry echoes aside, if and only if no
    walk stands still with more than a page behind it. */
module SyncLimits {
  import opened Tables
  import opened DbSync
  import opened ReplicatedTables
  import opened MeshNetwork
  import opened PagedWalk
  import opened CatchUp
  import opened SyncRuns

  // ------------------------------------------------------------ one round at a time

  /** The last tag, and nothing live before it. */
  ghost predicate OnlyLast(tags: seq<Tag>, tag: Tag) {
    tags != [] && tags[|tags| - 1] == tag && !HasLive(tags[..|tags| - 1])
  }

  lemma MovesConcat(p: Pair, m: Move, rest: seq<Move>)
    requires CanMove(p, m) && CanMoveAll(Moved(p, m), rest)
    ensures CanMoveAll(p, [m] + rest) && MovedAll(p, [m] + rest) == MovedAll(Moved(p, m), rest)
    ensures Deliveries(p, [m] + rest) == Counts(p, m) + Deliveries(Moved(p, m), rest)
  {
    assert ([m] + rest)[1..] == rest;
  }

  lemma {:induction false} RunsConcat(p: Pair, s: seq<Move>, t: seq<Move>)
    requires CanMoveAll(p, s) && CanMoveAll(MovedAll(p, s), t)
    ensures CanMoveAll(p, s + t) && MovedAll(p, s + t) == MovedAll(MovedAll(p, s), t)
    ensures Deliveries(p, s + t) == Deliveries(p, s) + Deliveries(MovedAll(p, s), t)
    decreases |s|
  {
    hide Moved, Counts, CanMove;
    if s == [] {
      assert s + t == t;
    } else {
      RunsConcat(Moved(p, s[0]), s[1..], t);
      assert (s + t)[1..] == s[1..] + t && (s + t)[0] == s[0];
    }
  }

  predicate AllDeliver(moves: seq<Move>) {
    forall i :: 0 <= i < |moves| ==> moves[i].Deliver?
  }

  lemma {:induction false} BudgetOfDeliveries(moves: seq<Move>, cost: nat)
    requires AllDeliver(moves)
    ensures Budget(moves, cost) == 0
  {
    if moves != [] {
      BudgetOfDeliveries(moves[1..], cost);
    }
  }

  lemma LastOfRest(tags: seq<Tag>, tag: Tag)
    requires OnlyLast(tags, tag) && |tags| > 1
    ensures OnlyLast(tags[1..], tag) && !Live(tags[0])
  {
    var init := tags[..|tags| - 1];
    LiveFirst(init);
    assert tags[1..][..|tags[1..]| - 1] == init[1..] && init[0] == tags[0];
  }

  lemma LastAdded(tags: seq<Tag>, tag: Tag)
    requires !HasLive(tags)
    ensures OnlyLast(tags + [tag], tag)
  {
    assert (tags + [tag])[..|tags|] == tags;
  }

  lemma IdleAdded(tags: seq<Tag>, tag: Tag)
    requires !HasLive(tags) && !Live(tag)
    ensures !HasLive(tags + [tag])
  {
    LiveConcat(tags, [tag]);
    assert !HasLive([tag]);
  }

  /** Everything on its way to A arrives; the last of it is B's cursors. */
  lemma {:induction false} DrainA(a: Tables, w: Marks, p: Pair, g: Tags, k: nat) returns (moves: seq<Move>, g': Tags)
    requires Syncing(a, w, p, g) && OnlyLast(g.toA, Ask(k)) && !HasLive(g.toB)
    ensures CanMoveAll(p, moves) && AllDeliver(moves) && Syncing(a, w, MovedAll(p, moves), g')
    ensures g'.top == g.top && g'.toA == []
    ensures if PageFor(a, At(a, w, k)) == [] then !HasLive(g'.toB) else OnlyLast(g'.toB, Page(k))
    ensures Deliveries(p, moves) >= 1
    decreases |g.toA|
  {
    hide Syncing, At, PageFor, HasLive, TagsAtA, Counts;
    TagsMatch(a, w, p, g);
    var m, h := Move.Deliver(ToA), TagsAtA(a, w, g);
    DeliverToA(a, w, p, g);
    assert Moved(p, m) == Exchange(p, ToA);
    if |g.toA| == 1 {
      AskCounts(a, w, p, g, k);
      LastToA(a, w, g, k);
      moves, g' := [m], h;
      MovesConcat(p, m, []);
      assert [m] + [] == [m];
    } else {
      hide OnlyLast, Moved;
      FirstToA(a, w, g, k);
      var rest;
      rest, g' := DrainA(a, w, Moved(p, m), h, k);
      moves := [m] + rest;
      MovesConcat(p, m, rest);
    }
  }

  lemma LastToA(a: Tables, w: Marks, g: Tags, k: nat)
    requires g.toA == [Ask(k)] && !HasLive(g.toB)
    ensures var h := TagsAtA(a, w, g);
            && h.top == g.top && h.toA == []
            && if PageFor(a, At(a, w, k)) == [] then !HasLive(h.toB) else OnlyLast(h.toB, Page(k))
  {
    LastAdded(g.toB, Page(k));
  }

  lemma FirstToA(a: Tables, w: Marks, g: Tags, k: nat)
    requires OnlyLast(g.toA, Ask(k)) && |g.toA| > 1 && !HasLive(g.toB)
    ensures var h := TagsAtA(a, w, g);
            h.top == g.top && OnlyLast(h.toA, Ask(k)) && !HasLive(h.toB) && |h.toA| < |g.toA|
  {
    LastOfRest(g.toA, Ask(k));
    IdleAdded(g.toB, Echo);
  }

  lemma AskCounts(a: Tables, w: Marks, p: Pair, g: Tags, k: nat)
    requires Syncing(a, w, p, g) && g.toA != [] && p.toA != [] && g.toA[0] == Ask(k)
    ensures Counts(p, Move.Deliver(ToA)) == 1
  {
    assert Fits(a, p.b, w, g.top, g.toA[0], p.toA[0]);
  }

  lemma OnPageLast(a: Tables, w: Marks, k: nat)
    ensures if MoreFor(a, At(a, w, k)) then OnlyLast(OnPage(a, w, k, k), Ask(k + 1)) else !HasLive(OnPage(a, w, k, k))
  {
    hide MoreFor, At, PushedRows, Readings;
    var idle := Copies(Push, PushedRows(a, w, k)) + Copies(Echo, Readings(a, w, k));
    assert !HasLive(idle);
    LastAdded(idle, Ask(k + 1));
    assert idle + [] == idle;
  }

  lemma LastAfterIdle(s: seq<Tag>, t: seq<Tag>, tag: Tag)
    requires !HasLive(s) && OnlyLast(t, tag)
    ensures OnlyLast(s + t, tag)
  {
    LiveConcat(s, t[..|t| - 1]);
    assert (s + t)[..|s + t| - 1] == s + t[..|t| - 1];
  }

  /** Everything on its way to B arrives; the last of it is a new page. */
  lemma {:induction false} DrainB(a: Tables, w: Marks, p: Pair, g: Tags) returns (moves: seq<Move>, g': Tags)
    requires Syncing(a, w, p, g) && OnlyLast(g.toB, Page(g.top)) && !HasLive(g.toA)
    ensures CanMoveAll(p, moves) && AllDeliver(moves) && Syncing(a, w, MovedAll(p, moves), g')
    ensures g'.top == g.top + 1 && g'.toB == []
    ensures if MoreFor(a, At(a, w, g.top)) then OnlyLast(g'.toA, Ask(g.top + 1)) else !HasLive(g'.toA)
    decreases |g.toB|
  {
    hide Syncing, At, MoreFor, HasLive, TagsAtB, Counts;
    TagsMatch(a, w, p, g);
    var m, h := Move.Deliver(ToB), TagsAtB(a, w, g);
    DeliverToB(a, w, p, g);
    assert Moved(p, m) == Exchange(p, ToB);
    if |g.toB| == 1 {
      LastToB(a, w, g);
      moves, g' := [m], h;
      MovesConcat(p, m, []);
      assert [m] + [] == [m];
    } else {
      hide OnlyLast, Moved;
      FirstForB(a, w, p, g);
      FirstToB(a, w, g);
      var rest;
      rest, g' := DrainB(a, w, Moved(p, m), h);
      moves := [m] + rest;
      MovesConcat(p, m, rest);
    }
  }

  lemma LastToB(a: Tables, w: Marks, g: Tags)
    requires g.toB == [Page(g.top)] && !HasLive(g.toA)
    ensures var h := TagsAtB(a, w, g);
            && h.top == g.top + 1 && h.toB == []
            && if MoreFor(a, At(a, w, g.top)) then OnlyLast(h.toA, Ask(g.top + 1)) else !HasLive(h.toA)
  {
    hide At, OnPage, MoreFor;
    OnPageLast(a, w, g.top);
    LiveConcat(g.toA, OnPage(a, w, g.top, g.top));
    if MoreFor(a, At(a, w, g.top)) {
      LastAfterIdle(g.toA, OnPage(a, w, g.top, g.top), Ask(g.top + 1));
    }
  }

  lemma FirstToB(a: Tables, w: Marks, g: Tags)
    requires OnlyLast(g.toB, Page(g.top)) && |g.toB| > 1 && !HasLive(g.toA)
    requires g.toB[0].Echo? || Live(g.toB[0])
    ensures var h := TagsAtB(a, w, g);
            h.top == g.top && OnlyLast(h.toB, Page(g.top)) && !HasLive(h.toA) && |h.toB| < |g.toB|
  {
    LastOfRest(g.toB, Page(g.top));
    IdleAdded(g.toA, Echo);
  }

  /** B's cursors are on their way to A, and nothing else that is live. */
  ghost predicate Asking(g: Tags) {
    OnlyLast(g.toA, Ask(g.top)) && !HasLive(g.toB)
  }

  /** One round: the cursors arrive, and the page if there is one. */
  lemma RoundTrip(a: Tables, w: Marks, p: Pair, g: Tags) returns (moves: seq<Move>, g': Tags)
    requires Syncing(a, w, p, g) && Asking(g)
    ensures CanMoveAll(p, moves) && AllDeliver(moves) && Syncing(a, w, MovedAll(p, moves), g')
    ensures Deliveries(p, moves) >= 1
    ensures if MoreFor(a, At(a, w, g.top)) then Asking(g') && g'.top == g.top + 1 else Still(a, w, g'.top)
  {
    moves, g' := DrainA(a, w, p, g, g.top);
    if PageFor(a, At(a, w, g.top)) == [] {
      EmptyStill(a, w, g.top);
      NoMorePage(a, At(a, w, g.top));
      return;
    }
    var q := MovedAll(p, moves);
    var rest;
    NothingLive();
    rest, g' := DrainB(a, w, q, g');
    hide Syncing, At, PageFor;
    RunsConcat(p, moves, rest);
    moves := moves + rest;
    if !MoreFor(a, At(a, w, g.top)) { LastStill(a, w, g.top); }
  }

  lemma NothingLive()
    ensures !HasLive([])
  {
  }

  lemma NoMorePage(a: Tables, m: Marks)
    requires PageFor(a, m) == []
    ensures !MoreFor(a, m)
  {
  }

  /** Round after round, until `count` are done or the walk stands still. */
  lemma {:induction false} RunRounds(a: Tables, w: Marks, p: Pair, g: Tags, count: nat)
      returns (moves: seq<Move>, g': Tags, stop: nat)
    requires Syncing(a, w, p, g) && Asking(g)
    ensures CanMoveAll(p, moves) && AllDeliver(moves) && Syncing(a, w, MovedAll(p, moves), g')
    ensures (g'.top == g.top + count && Deliveries(p, moves) >= count)
            || (Still(a, w, g'.top) && !MoreFor(a, At(a, w, stop)))
    decreases count
  {
    hide Syncing, At, MoreFor, Asking, Still;
    stop := g.top;
    if count == 0 {
      return [], g, stop;
    }
    moves, g' := RoundTrip(a, w, p, g);
    if MoreFor(a, At(a, w, g.top)) {
      var rest;
      var q := MovedAll(p, moves);
      rest, g', stop := RunRounds(a, w, q, g', count - 1);
      RunsConcat(p, moves, rest);
      moves := moves + rest;
    }
  }

  /** A sync that B starts, run for a number of rounds. */
  lemma FirstSync(a: Tables, b: Tables, count: nat) returns (moves: seq<Move>, g: Tags, stop: nat)
    requires Leading(a) && SomeOf(b, a)
    ensures var start := Pair(a, b, [], []);
            && CanMoveAll(start, moves) && Syncing(a, MarksOf(b), MovedAll(start, moves), g)
            && moves != [] && (forall cost :: Budget(moves, cost) == cost)
            && ((g.top == count && Deliveries(start, moves) >= count)
                || (Still(a, MarksOf(b), g.top) && !MoreFor(a, At(a, MarksOf(b), stop))))
  {
    var start, w, none := Pair(a, b, [], []), MarksOf(b), Tags(0, [], []);
    NextRound(a, w, 0);
    AlikeAtFirst(a, b);
    assert Syncing(a, w, start, none);
    var p, h := Moved(start, StartB), TagsAfter(a, w, none, StartB);
    StartKeepsSyncing(a, w, start, none, StartB);
    NothingLive();
    LastAdded([], Ask(0));
    assert Asking(h);
    hide Syncing, At, MoreFor, Asking, Still, Moved, SomeOf, Leading, MarksOf;
    var rest;
    rest, g, stop := RunRounds(a, w, p, h, count);
    moves := [StartB] + rest;
    MovesConcat(start, StartB, rest);
    forall cost ensures Budget(moves, cost) == cost {
      BudgetOfDeliveries(rest, cost);
      assert moves[1..] == rest;
    }
  }

  // --------------------------------------------------------------- completeness

  /** B has the key of every row of A's that has a timestamp. */
  ghost predicate Covers(a: Tables, m: Marks) {
    && KeysOf(RowsAfter(a.messages, MessageTs, 0), PacketId) <= m.texts.keys
    && KeysOf(RowsAfter(a.locations, LocationTs, 0), PlaceKey) <= m.spots.keys
    && KeysOf(RowsAfter(a.telemetry, TelemetryTs, 0), ReadingKey) <= m.readings.keys
  }

  ghost predicate CompletesIn(a: Tables, b: Tables, moves: seq<Move>) {
    CanMoveAll(Pair(a, b, [], []), moves) && Covers(a, MarksOf(MovedAll(Pair(a, b, [], []), moves).b))
  }

  /** Some run of syncs gives B every row of A's. */
  ghost predicate CanComplete(a: Tables, b: Tables) {
    exists moves :: CompletesIn(a, b, moves)
  }

  lemma CoversMore(a: Tables, m: Marks, n: Marks)
    requires Covers(a, m)
    requires m.texts.keys <= n.texts.keys && m.spots.keys <= n.spots.keys && m.readings.keys <= n.readings.keys
    ensures Covers(a, n)
  {
  }

  /** B can ever get every row of A's exactly when the walks through A's tables do. */
  lemma CatchUpExactly(a: Tables, b: Tables)
    requires Leading(a) && SomeOf(b, a)
    ensures CanComplete(a, b) <==> Covers(a, LimitMarks(a, MarksOf(b)))
  {
    var start, w := Pair(a, b, [], []), MarksOf(b);
    if Covers(a, LimitMarks(a, w)) {
      var count := Lacking(a, w, 0) + 1;
      var moves, g, stop := FirstSync(a, b, count);
      LimitArrives(a, w);
      hide LimitMarks, At, Covers;
      if Still(a, w, g.top) { StillIsLimit(a, w, g.top); }
      assert CompletesIn(a, b, moves);
    }
    forall moves | CompletesIn(a, b, moves) ensures Covers(a, LimitMarks(a, w)) {
      RunWithinLimit(a, b, moves);
      CoversMore(a, MarksOf(MovedAll(start, moves).b), LimitMarks(a, w));
    }
  }

  lemma RunWithinLimit(a: Tables, b: Tables, moves: seq<Move>)
    requires Leading(a) && SomeOf(b, a) && CanMoveAll(Pair(a, b, [], []), moves)
    ensures var m, limit := MarksOf(MovedAll(Pair(a, b, [], []), moves).b), LimitMarks(a, MarksOf(b));
            && m.texts.keys <= limit.texts.keys && m.spots.keys <= limit.spots.keys
            && m.readings.keys <= limit.readings.keys
  {
    if moves == [] {
      MarksWithinLimit(a, MarksOf(b), 0);
      NextRound(a, MarksOf(b), 0);
    } else {
      EveryRunFollowsTheWalk(a, b, moves);
    }
  }

  // --------------------------------------------------------------- falling quiet

  ghost predicate BoundedBy(a: Tables, b: Tables, cost: nat) {
    var start := Pair(a, b, [], []);
    forall moves :: CanMoveAll(start, moves) ==> Deliveries(start, moves) <= Budget(moves, cost)
  }

  /** The deliveries that are not echoes are bounded by a constant for each sync started. */
  ghost predicate Settles(a: Tables, b: Tables) {
    exists cost :: BoundedBy(a, b, cost)
  }

  lemma MoreEarlier(a: Tables, w: Marks, j: nat, k: nat)
    requires j <= k && MoreFor(a, At(a, w, k))
    ensures MoreFor(a, At(a, w, j))
  {
    MarksGrow(a, w, j, k);
    FewerBehind(a.messages, MessageTs, At(a, w, j).texts.cursor, At(a, w, k).texts.cursor);
    FewerBehind(a.locations, LocationTs, At(a, w, j).spots.cursor, At(a, w, k).spots.cursor);
    FewerBehind(a.telemetry, TelemetryTs, At(a, w, j).readings.cursor, At(a, w, k).readings.cursor);
  }

  /** More than a page behind the limit is more than a page behind every mark. */
  lemma MoreAlways(a: Tables, w: Marks, k: nat)
    requires MoreFor(a, LimitMarks(a, w))
    ensures MoreFor(a, At(a, w, k))
  {
    LimitArrives(a, w);
    var n := Lacking(a, w, 0) + 1;
    if k <= n {
      MoreEarlier(a, w, k, n);
    } else {
      StillLater(a, w, n, k);
    }
  }

  lemma QuietMovesOn(a: Tables, w: Marks)
    requires !MoreFor(a, LimitMarks(a, w))
    ensures MovesOn(a, w)
  {
    forall k: nat ensures !Stuck(a, w, k) {
      if Still(a, w, k) { StillIsLimit(a, w, k); }
    }
  }

  /** Rounds bring nothing new but go on for ever exactly when a walk stands still with more
      than a page behind it. */
  lemma SettlesExactly(a: Tables, b: Tables)
    requires Leading(a) && SomeOf(b, a)
    ensures Settles(a, b) <==> !MoreFor(a, LimitMarks(a, MarksOf(b)))
  {
    var start, w := Pair(a, b, [], []), MarksOf(b);
    if MoreFor(a, LimitMarks(a, w)) {
      forall cost ensures !BoundedBy(a, b, cost) {
        Unbounded(a, b, cost);
      }
    } else {
      QuietMovesOn(a, w);
      var cost := SyncCost(a, w);
      forall moves | CanMoveAll(start, moves) ensures Deliveries(start, moves) <= Budget(moves, cost) {
        WithinBudget(a, b, moves);
      }
      assert BoundedBy(a, b, cost);
    }
  }

  lemma Unbounded(a: Tables, b: Tables, cost: nat)
    requires Leading(a) && SomeOf(b, a) && MoreFor(a, LimitMarks(a, MarksOf(b)))
    ensures !BoundedBy(a, b, cost)
  {
    var moves, g, stop := FirstSync(a, b, cost + 1);
    MoreAlways(a, MarksOf(b), stop);
    assert Deliveries(Pair(a, b, [], []), moves) > cost && Budget(moves, cost) == cost;
  }

  lemma WithinBudget(a: Tables, b: Tables, moves: seq<Move>)
    requires Leading(a) && SomeOf(b, a) && MovesOn(a, MarksOf(b)) && CanMoveAll(Pair(a, b, [], []), moves)
    ensures Deliveries(Pair(a, b, [], []), moves) <= Budget(moves, SyncCost(a, MarksOf(b)))
  {
    var start, w, none := Pair(a, b, [], []), MarksOf(b), Tags(0, [], []);
    NextRound(a, w, 0);
    AlikeAtFirst(a, b);
    assert Syncing(a, w, start, none);
    assert TotalLoad(a, w, none) == 0;
    var g := RunKeepsSyncing(a, w, start, none, moves);
  }
}
