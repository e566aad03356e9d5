/** What walks through a table achieve, read off the table: with distinct timestamps a run of
    twenty repeated keys stops the walk, and with distinct keys two rows of one timestamp on
    either side of a page boundary lose the second. */
module CutWalks {
  import opened Tables
  import opened DbSync
  import opened PagedWalk

  // ------------------------------------------------------- cutting sorted rows

  /** The cursor after the first `n` rows. */
  function Cursor<T>(s: seq<T>, ts: T -> nat, n: nat): nat
    requires n <= |s|
  {
    if n == 0 then 0 else ts(s[n - 1])
  }

  /** No two rows on either side of position `n` have the same timestamp. */
  predicate CleanCut<T>(s: seq<T>, ts: T -> nat, n: nat) {
    0 < n < |s| ==> ts(s[n - 1]) < ts(s[n])
  }

  function Min(a: nat, b: nat): nat { if a < b then a else b }

  ghost predicate DistinctBy<T, K(!new)>(s: seq<T>, key: T -> K) {
    forall i, j :: 0 <= i < j < |s| ==> key(s[i]) != key(s[j])
  }

  lemma {:induction false} InsertSortedDistinct<T, K(!new)>(r: T, s: seq<T>, ts: T -> nat, key: T -> K)
    requires DistinctBy(s, key) && forall x :: x in s ==> key(x) != key(r)
    ensures DistinctBy(InsertSorted(r, s, ts), key)
  {
    if s == [] || ts(r) <= ts(s[0]) {
    } else {
      var rest := InsertSorted(r, s[1..], ts);
      InsertSortedDistinct(r, s[1..], ts, key);
      InsertSortedRows(r, s[1..], ts);
      forall i | 0 <= i < |rest| ensures key(rest[i]) != key(s[0]) {
        assert rest[i] in multiset(rest);
        if rest[i] != r {
          assert rest[i] in multiset(s[1..]);
          var j :| 0 <= j < |s[1..]| && s[1..][j] == rest[i];
          assert key(s[0]) != key(s[j + 1]);
        }
      }
    }
  }

  lemma {:induction false} RowsAfterDistinct<T, K(!new)>(rows: seq<T>, ts: T -> nat, after: nat, key: T -> K)
    requires DistinctBy(rows, key)
    ensures DistinctBy(RowsAfter(rows, ts, after), key)
  {
    if rows != [] {
      RowsAfterDistinct(rows[1..], ts, after, key);
      RowsAfterExact(rows[1..], ts, after);
      if ts(rows[0]) > after {
        forall x | x in RowsAfter(rows[1..], ts, after) ensures key(x) != key(rows[0]) {
          RowsAfterHas(rows[1..], ts, after, x);
          var j :| 0 <= j < |rows[1..]| && rows[1..][j] == x;
          assert key(rows[0]) != key(rows[j + 1]);
        }
        InsertSortedDistinct(rows[0], RowsAfter(rows[1..], ts, after), ts, key);
      }
    }
  }

  /** The rows with a timestamp, oldest first. */
  function Dated<T>(rows: seq<T>, ts: T -> nat): seq<T> {
    RowsAfter(rows, ts, 0)
  }

  /** A reader that has the first `n` dated rows. */
  ghost function ReaderAt<T, K>(rows: seq<T>, ts: T -> nat, key: T -> K, n: nat): Mark<K>
    requires n <= |Dated(rows, ts)|
  {
    Mark(KeysOf(Dated(rows, ts)[..n], key), Cursor(Dated(rows, ts), ts, n))
  }

  /** At a clean cut the query with that cursor returns the rows behind the cut. */
  lemma PageAtCut<T>(rows: seq<T>, ts: T -> nat, n: nat)
    requires var s := Dated(rows, ts); n <= |s| && CleanCut(s, ts, n)
    ensures var s := Dated(rows, ts); RowsAfter(rows, ts, Cursor(s, ts, n)) == s[n..]
  {
    hide RowsAfter, Keep;
    var s := Dated(rows, ts);
    var c := Cursor(s, ts, n);
    assert Sorted(s, ts) by { RowsAfterExact(rows, ts, 0); }
    RowsAfterLater(rows, ts, 0, c);
    forall i | 0 <= i < n ensures ts(s[i]) <= c {
      if i < n - 1 { assert ts(s[i]) <= ts(s[n - 1]); }
    }
    forall i | n <= i < |s| ensures ts(s[i]) > c {
      RowsAfterHas(rows, ts, 0, s[i]);
      if n > 0 && i > n { assert ts(s[n]) <= ts(s[i]); }
    }
    KeepSuffix(s, ts, c, n);
  }

  /** The row at `i` is the first with its key. */
  ghost predicate NewAt<T, K>(s: seq<T>, key: T -> K, i: nat)
    requires i < |s|
  {
    key(s[i]) !in KeysOf(s[..i], key)
  }

  lemma {:induction false} FreshSnoc<T, K>(page: seq<T>, r: T, key: T -> K, known: set<K>)
    ensures Fresh(page + [r], key, known)
         == Fresh(page, key, known) + if key(r) in known + KeysOf(page, key) then [] else [r]
  {
    if page == [] {
      assert page + [r] == [r];
      assert Fresh([r], key, known) == (if key(r) in known then [] else [r]);
    } else {
      KeysFirst(page, key);
      assert (page + [r])[1..] == page[1..] + [r];
      if key(page[0]) in known {
        FreshSnoc(page[1..], r, key, known);
      } else {
        FreshSnoc(page[1..], r, key, known + {key(page[0])});
      }
    }
  }

  /** The position after the last new row among the first `e`, from `n` on. */
  ghost function LastNew<T, K>(s: seq<T>, key: T -> K, n: nat, e: nat): (m: nat)
    requires n <= e <= |s|
    ensures n <= m <= e && (m > n ==> NewAt(s, key, m - 1))
    ensures forall i :: m <= i < e ==> !NewAt(s, key, i)
    decreases e
  {
    if e == n || NewAt(s, key, e - 1) then e else LastNew(s, key, n, e - 1)
  }

  /** Repeated rows add no key. */
  lemma {:induction false} NoNewKeys<T, K>(s: seq<T>, key: T -> K, n: nat, e: nat)
    requires n <= e <= |s| && forall i :: n <= i < e ==> !NewAt(s, key, i)
    ensures KeysOf(s[..e], key) == KeysOf(s[..n], key)
    decreases e
  {
    if n < e {
      NoNewKeys(s, key, n, e - 1);
      assert s[..e][..e - 1] == s[..e - 1];
      assert !NewAt(s, key, e - 1);
    }
  }

  lemma TakeKeys<T, K>(s: seq<T>, key: T -> K, n: nat, e: nat)
    requires n <= e <= |s|
    ensures KeysOf(s[..n], key) + KeysOf(s[n..e], key) == KeysOf(s[..e], key)
  {
    KeysConcat(s[..n], s[n..e], key);
    assert s[..n] + s[n..e] == s[..e];
  }

  lemma OneMax<T>(r: T, ts: T -> nat)
    ensures MaxTs([r], ts) == ts(r)
  {
    assert [r][1..] == [];
  }

  /** The cursor of a reader at `n` that gets the rows up to `e` is at the last new one. */
  lemma {:induction false} TakeIn<T, K>(s: seq<T>, ts: T -> nat, key: T -> K, n: nat, e: nat)
    requires n <= e <= |s| && Sorted(s, ts)
    ensures Later(Cursor(s, ts, n), MaxTs(Fresh(s[n..e], key, KeysOf(s[..n], key)), ts))
         == Cursor(s, ts, LastNew(s, key, n, e))
    decreases e
  {
    hide MaxTs, KeysOf, Fresh;
    var known := KeysOf(s[..n], key);
    if n == e {
      assert s[n..e] == [];
      NothingTaken(s, ts, key, known);
    } else {
      var page, r := s[n..e - 1], s[e - 1];
      TakeIn(s, ts, key, n, e - 1);
      TakeKeys(s, key, n, e - 1);
      FreshSnoc(page, r, key, known);
      assert s[n..e] == page + [r];
      MaxConcat(Fresh(page, key, known), [r], ts);
      OneMax(r, ts);
      var m := LastNew(s, key, n, e - 1);
      assert m > 0 ==> ts(s[m - 1]) <= ts(r);
      assert Fresh(page, key, known) + [] == Fresh(page, key, known);
    }
  }

  lemma NothingTaken<T, K>(s: seq<T>, ts: T -> nat, key: T -> K, known: set<K>)
    ensures MaxTs(Fresh([], key, known), ts) == 0
  {
  }

  /** A page from a clean cut takes the reader to the last new row on it. */
  lemma AdvanceCut<T, K>(rows: seq<T>, ts: T -> nat, key: T -> K, n: nat)
    requires var s := Dated(rows, ts); n <= |s| && CleanCut(s, ts, n)
    ensures var s := Dated(rows, ts);
            Advance(rows, ts, key, ReaderAt(rows, ts, key, n))
            == ReaderAt(rows, ts, key, LastNew(s, key, n, Min(n + PAGE, |s|)))
    ensures var s := Dated(rows, ts); RowsAfter(rows, ts, Cursor(s, ts, n)) == s[n..]
  {
    var s, e := Dated(rows, ts), Min(n + PAGE, |Dated(rows, ts)|);
    PageAtCut(rows, ts, n);
    assert Sorted(s, ts) by { RowsAfterExact(rows, ts, 0); }
    hide RowsAfter, MaxTs, KeysOf, Fresh;
    assert PageAt(rows, ts, Cursor(s, ts, n)) == s[n..e];
    TakeIn(s, ts, key, n, e);
    TakeKeys(s, key, n, e);
    NoNewKeys(s, key, LastNew(s, key, n, e), e);
  }

  // -------------------------------------------------- distinct timestamps

  ghost predicate Increasing<T>(s: seq<T>, ts: T -> nat) {
    forall i, j :: 0 <= i < j < |s| ==> ts(s[i]) < ts(s[j])
  }

  /** A page of rows that all repeat earlier keys. */
  ghost predicate Repeats<T, K>(s: seq<T>, key: T -> K, p: nat) {
    p + PAGE <= |s| && forall i :: p <= i < p + PAGE ==> !NewAt(s, key, i)
  }

  /** Twenty consecutive repeats from position `n` on, with a new key somewhere after them. */
  ghost predicate Blocked<T, K>(s: seq<T>, key: T -> K, n: nat) {
    exists p, q :: n <= p && Repeats(s, key, p) && p + PAGE <= q < |s| && NewAt(s, key, q)
  }

  /** Twenty consecutive repeats from position `n` on, with another row after them. */
  ghost predicate RepeatsOn<T, K>(s: seq<T>, key: T -> K, n: nat) {
    exists p :: n <= p && Repeats(s, key, p) && p + PAGE < |s|
  }

  /** No page of repeats starts before the last new row of the first page. */
  lemma RepeatsLater<T, K>(s: seq<T>, key: T -> K, n: nat, p: nat)
    requires n <= |s| && n <= p && Repeats(s, key, p)
    ensures LastNew(s, key, n, Min(n + PAGE, |s|)) <= p || LastNew(s, key, n, Min(n + PAGE, |s|)) == n
  {
    var m := LastNew(s, key, n, Min(n + PAGE, |s|));
    assert m > n ==> NewAt(s, key, m - 1);
  }

  lemma SameBlocks<T, K>(s: seq<T>, key: T -> K, n: nat)
    requires n <= |s|
    ensures var m := LastNew(s, key, n, Min(n + PAGE, |s|));
            (Blocked(s, key, n) <==> Blocked(s, key, m)) && (RepeatsOn(s, key, n) <==> RepeatsOn(s, key, m))
  {
    var m := LastNew(s, key, n, Min(n + PAGE, |s|));
    if Blocked(s, key, n) {
      var p, q :| n <= p && Repeats(s, key, p) && p + PAGE <= q < |s| && NewAt(s, key, q);
      RepeatsLater(s, key, n, p);
      assert m <= p && Repeats(s, key, p) && p + PAGE <= q < |s| && NewAt(s, key, q);
    }
    if RepeatsOn(s, key, n) {
      var p :| n <= p && Repeats(s, key, p) && p + PAGE < |s|;
      RepeatsLater(s, key, n, p);
      assert m <= p && Repeats(s, key, p) && p + PAGE < |s|;
    }
  }

  lemma NewMissing<T, K>(s: seq<T>, key: T -> K, n: nat, q: nat)
    requires n <= q < |s| && NewAt(s, key, q)
    ensures key(s[q]) !in KeysOf(s[..n], key) && key(s[q]) in KeysOf(s, key)
  {
    KeysConcat(s[..n], s[n..q], key);
    assert s[..n] + s[n..q] == s[..q];
    KeyOfRow(s, key, q);
  }

  /** Where the walk stands still with nothing new on its page. */
  lemma StandsAt<T, K>(s: seq<T>, key: T -> K, n: nat)
    requires n <= |s| && LastNew(s, key, n, Min(n + PAGE, |s|)) == n
    ensures KeysOf(s, key) <= KeysOf(s[..n], key) <==> !Blocked(s, key, n)
    ensures |s| - n > PAGE <==> RepeatsOn(s, key, n)
  {
    var e := Min(n + PAGE, |s|);
    assert s[..|s|] == s;
    if |s| - n > PAGE {
      assert Repeats(s, key, n);
    }
    if Blocked(s, key, n) {
      var p, q :| n <= p && Repeats(s, key, p) && p + PAGE <= q < |s| && NewAt(s, key, q);
      NewMissing(s, key, n, q);
    } else {
      forall i | n <= i < |s| ensures !NewAt(s, key, i) {
        assert i >= e ==> Repeats(s, key, n);
      }
      NoNewKeys(s, key, n, |s|);
    }
  }

  /** With distinct timestamps the walk gets every key exactly when no twenty consecutive rows
      repeat earlier keys before a new one; and it stands still with more than a page behind
      it exactly when twenty consecutive rows repeat earlier keys before any other row. */
  lemma {:induction false} RepeatsExactly<T, K>(rows: seq<T>, ts: T -> nat, key: T -> K, n: nat)
    requires n <= |Dated(rows, ts)| && Increasing(Dated(rows, ts), ts)
    ensures var s, limit := Dated(rows, ts), LimitOf(rows, ts, key, ReaderAt(rows, ts, key, n));
            && (KeysOf(s, key) <= limit.keys <==> !Blocked(s, key, n))
            && (More(rows, ts, limit.cursor) <==> RepeatsOn(s, key, n))
    decreases |Dated(rows, ts)| - n
  {
    var s, w := Dated(rows, ts), ReaderAt(rows, ts, key, n);
    var m := LastNew(s, key, n, Min(n + PAGE, |s|));
    AdvanceCut(rows, ts, key, n);
    hide RowsAfter, Fresh, Advance, KeysOf, Dated, Blocked, RepeatsOn;
    if m == n {
      StandsAt(s, key, n);
      assert LimitOf(rows, ts, key, w) == w;
    } else {
      SameBlocks(s, key, n);
      RepeatsExactly(rows, ts, key, m);
      LimitOfNext(rows, ts, key, w);
    }
  }

  lemma LimitOfNext<T, K>(rows: seq<T>, ts: T -> nat, key: T -> K, w: Mark<K>)
    ensures LimitOf(rows, ts, key, Advance(rows, ts, key, w)) == LimitOf(rows, ts, key, w)
  {
  }

  // --------------------------------------------------------- distinct keys

  /** The cuts after zero, one, two, ... pages from `n` on are all clean. */
  ghost predicate CleanFrom<T>(s: seq<T>, ts: T -> nat, n: nat) {
    forall k: nat :: CleanCut(s, ts, CutAfter(s, n, k))
  }

  function CutAfter<T>(s: seq<T>, n: nat, k: nat): nat { Min(n + PAGE * k, |s|) }

  lemma IncreasingIsClean<T>(s: seq<T>, ts: T -> nat, n: nat)
    requires Increasing(s, ts)
    ensures CleanFrom(s, ts, n)
  {
  }

  lemma {:induction false} KeysOfPrefix<T, K(!new)>(s: seq<T>, key: T -> K, i: nat)
    requires DistinctBy(s, key) && i < |s|
    ensures NewAt(s, key, i)
  {
    NotAmong(s[..i], key, key(s[i]));
  }

  lemma CleanFromNext<T>(s: seq<T>, ts: T -> nat, n: nat)
    requires n <= |s| && CleanCut(s, ts, n)
    ensures CleanFrom(s, ts, n) <==> CleanFrom(s, ts, Min(n + PAGE, |s|))
  {
    var e := Min(n + PAGE, |s|);
    if CleanFrom(s, ts, n) {
      forall k: nat ensures CleanCut(s, ts, CutAfter(s, e, k)) {
        assert CleanCut(s, ts, CutAfter(s, n, k + 1));
      }
    }
    if CleanFrom(s, ts, e) {
      forall k: nat ensures CleanCut(s, ts, CutAfter(s, n, k)) {
        if k > 0 { assert CleanCut(s, ts, CutAfter(s, e, k - 1)); }
      }
    }
  }

  /** A row just behind an unclean cut is overtaken. */
  lemma UncleanIsLost<T, K(!new)>(rows: seq<T>, ts: T -> nat, key: T -> K, n: nat)
    requires var s := Dated(rows, ts); n <= |s| && DistinctBy(s, key) && !CleanCut(s, ts, n)
    ensures key(Dated(rows, ts)[n]) !in LimitOf(rows, ts, key, ReaderAt(rows, ts, key, n)).keys
  {
    var s := Dated(rows, ts);
    var k, c := key(s[n]), Cursor(s, ts, n);
    KeysOfPrefix(s, key, n);
    RowsAfterExact(rows, ts, 0);
    hide RowsAfter;
    forall r | r in rows && key(r) == k ensures ts(r) <= c {
      RowsAfterHas(rows, ts, 0, r);
      if ts(r) > 0 {
        var j :| 0 <= j < |s| && s[j] == r;
        assert j == n;
      }
    }
    Overtaken(rows, ts, key, ReaderAt(rows, ts, key, n), k);
  }

  /** With one row a key the walk gets every key exactly when no page boundary falls between
      two rows with the same timestamp. */
  lemma {:induction false} TiesExactly<T, K(!new)>(rows: seq<T>, ts: T -> nat, key: T -> K, n: nat)
    requires var s := Dated(rows, ts); n <= |s| && DistinctBy(s, key)
    ensures KeysOf(Dated(rows, ts), key) <= LimitOf(rows, ts, key, ReaderAt(rows, ts, key, n)).keys
            <==> CleanFrom(Dated(rows, ts), ts, n)
    decreases |Dated(rows, ts)| - n
  {
    var s, w := Dated(rows, ts), ReaderAt(rows, ts, key, n);
    var e := Min(n + PAGE, |s|);
    hide RowsAfter, Fresh, Advance, KeysOf, Dated, LimitOf;
    assert CutAfter(s, n, 0) == n;
    if !CleanCut(s, ts, n) {
      UncleanIsLost(rows, ts, key, n);
      KeyOfRow(s, key, n);
    } else if n == |s| {
      assert s[..n] == s;
      LimitStands(rows, ts, key, w);
      assert forall k: nat :: CutAfter(s, n, k) == n;
    } else {
      AdvanceCut(rows, ts, key, n);
      KeysOfPrefix(s, key, e - 1);
      assert LastNew(s, key, n, e) == e;
      CleanFromNext(s, ts, n);
      TiesExactly(rows, ts, key, e);
      LimitOfNext(rows, ts, key, w);
    }
  }

  /** A reader whose rows are not newer than its cursor, which one row a key gives. */
  ghost predicate UpToDate<T, K>(rows: seq<T>, ts: T -> nat, key: T -> K, w: Mark<K>) {
    forall r :: r in rows && key(r) in w.keys ==> ts(r) <= w.cursor
  }

  ghost predicate OneRow<T(!new), K>(rows: seq<T>, key: T -> K) {
    forall x, y :: x in rows && y in rows && key(x) == key(y) ==> x == y
  }

  /** With one row a key the walk does not stand still before the end of the table. */
  lemma {:induction false} OneRowSettles<T(!new), K>(rows: seq<T>, ts: T -> nat, key: T -> K, w: Mark<K>)
    requires OneRow(rows, key) && UpToDate(rows, ts, key, w)
    ensures RowsAfter(rows, ts, LimitOf(rows, ts, key, w).cursor) == []
    decreases |KeysOf(rows, key) - w.keys|
  {
    var page, v := PageAt(rows, ts, w.cursor), Advance(rows, ts, key, w);
    AdvanceAdds(rows, ts, key, w);
    PageRows(rows, ts, w.cursor);
    if v == w {
      if page != [] {
        KeyOfMember(page, key, page[0]);
      }
    } else {
      AdvanceUpToDate(rows, ts, key, w);
      OneRowSettles(rows, ts, key, v);
      LimitOfNext(rows, ts, key, w);
    }
  }

  lemma AdvanceUpToDate<T(!new), K>(rows: seq<T>, ts: T -> nat, key: T -> K, w: Mark<K>)
    requires OneRow(rows, key) && UpToDate(rows, ts, key, w)
    ensures UpToDate(rows, ts, key, Advance(rows, ts, key, w))
  {
    var page, v := PageAt(rows, ts, w.cursor), Advance(rows, ts, key, w);
    var taken := Fresh(page, key, w.keys);
    PageRows(rows, ts, w.cursor);
    FreshKeys(page, key, w.keys);
    MaxTsBounds(taken, ts);
    forall r | r in rows && key(r) in v.keys ensures ts(r) <= v.cursor {
      if key(r) !in w.keys {
        var i := RowOfKey(taken, key, key(r));
        assert taken[i] in taken && taken[i] in rows && taken[i] == r;
      }
    }
  }

  /** Every row at or before the cursor is held. */
  ghost predicate HeldBehind<T(!new), K>(rows: seq<T>, ts: T -> nat, key: T -> K, w: Mark<K>) {
    forall r :: r in rows && 0 < ts(r) <= w.cursor ==> key(r) in w.keys
  }

  lemma OneATime<T>(s: seq<T>, ts: T -> nat, r: T, f: T)
    requires Increasing(s, ts) && r in s && f in s && ts(r) == ts(f)
    ensures r == f
  {
    var x :| 0 <= x < |s| && s[x] == r;
    var y :| 0 <= y < |s| && s[y] == f;
  }

  /** With distinct timestamps a page has every row up to its newest one. */
  lemma PageUpTo<T(!new)>(rows: seq<T>, ts: T -> nat, cursor: nat, f: T, r: T)
    requires Increasing(Dated(rows, ts), ts)
    requires f in PageAt(rows, ts, cursor) && r in rows && cursor < ts(r) <= ts(f)
    ensures r in PageAt(rows, ts, cursor)
  {
    var s, all := RowsAfter(rows, ts, cursor), Dated(rows, ts);
    RowsAfterExact(rows, ts, cursor);
    var j :| 0 <= j < |PageAt(rows, ts, cursor)| && PageAt(rows, ts, cursor)[j] == f;
    var i :| 0 <= i < |s| && s[i] == r;
    assert s[j] == f;
    if i > j {
      RowsAfterHas(rows, ts, 0, r);
      RowsAfterHas(rows, ts, 0, f);
      assert ts(s[j]) <= ts(s[i]);
      OneATime(all, ts, r, f);
    }
  }

  lemma AdvanceHeld<T(!new), K>(rows: seq<T>, ts: T -> nat, key: T -> K, w: Mark<K>)
    requires Increasing(Dated(rows, ts), ts) && HeldBehind(rows, ts, key, w)
    ensures HeldBehind(rows, ts, key, Advance(rows, ts, key, w))
  {
    var page, v := PageAt(rows, ts, w.cursor), Advance(rows, ts, key, w);
    var taken := Fresh(page, key, w.keys);
    FreshKeys(page, key, w.keys);
    MaxTsBounds(taken, ts);
    assert v.keys == w.keys + KeysOf(page, key) && v.cursor == Later(w.cursor, MaxTs(taken, ts));
    hide Increasing, PageAt, Advance, Fresh;
    forall r | r in rows && 0 < ts(r) <= v.cursor ensures key(r) in v.keys {
      if ts(r) > w.cursor {
        var f :| f in taken && ts(f) == MaxTs(taken, ts);
        PageUpTo(rows, ts, w.cursor, f, r);
        KeyOfMember(page, key, r);
      }
    }
  }

  /** With distinct timestamps and one row a key the walk gets every key exactly when the reader
      lacks none behind its cursor. */
  lemma {:induction false} HeldBehindExactly<T(!new), K>(rows: seq<T>, ts: T -> nat, key: T -> K, w: Mark<K>)
    requires Increasing(Dated(rows, ts), ts) && OneRow(rows, key) && UpToDate(rows, ts, key, w)
    ensures KeysOf(Dated(rows, ts), key) <= LimitOf(rows, ts, key, w).keys <==> HeldBehind(rows, ts, key, w)
    decreases |KeysOf(rows, key) - w.keys|
  {
    hide Increasing, Advance;
    if !HeldBehind(rows, ts, key, w) {
      var r :| r in rows && 0 < ts(r) <= w.cursor && key(r) !in w.keys;
      Overtaken(rows, ts, key, w, key(r));
      RowsAfterHas(rows, ts, 0, r);
      KeyOfMember(Dated(rows, ts), key, r);
    } else {
      AdvanceAdds(rows, ts, key, w);
      if Advance(rows, ts, key, w) == w {
        OneRowSettles(rows, ts, key, w);
        AllBehind(rows, ts, key, w);
      } else {
        AdvanceHeld(rows, ts, key, w);
        AdvanceUpToDate(rows, ts, key, w);
        HeldBehindExactly(rows, ts, key, Advance(rows, ts, key, w));
      }
    }
  }

  lemma AllBehind<T(!new), K>(rows: seq<T>, ts: T -> nat, key: T -> K, w: Mark<K>)
    requires RowsAfter(rows, ts, w.cursor) == [] && HeldBehind(rows, ts, key, w)
    ensures KeysOf(Dated(rows, ts), key) <= w.keys
  {
    forall k | k in KeysOf(Dated(rows, ts), key) ensures k in w.keys {
      var i := RowOfKey(Dated(rows, ts), key, k);
      var r := Dated(rows, ts)[i];
      RowsAfterHas(rows, ts, 0, r);
      RowsAfterHas(rows, ts, w.cursor, r);
    }
  }

  // -------------------------------------------------------------- sorted tables

  /** A table already in order is its own page list. */
  lemma {:induction false} DatedSorted<T>(rows: seq<T>, ts: T -> nat)
    requires Sorted(rows, ts) && forall i :: 0 <= i < |rows| ==> ts(rows[i]) > 0
    ensures Dated(rows, ts) == rows
  {
    if rows != [] {
      DatedSorted(rows[1..], ts);
      assert |rows| > 1 ==> ts(rows[0]) <= ts(rows[1]);
      assert [rows[0]] + rows[1..] == rows;
    }
  }
}
