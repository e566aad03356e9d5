/** Reading a table page by page behind a strict timestamp cursor.

    A reader knows some keys and asks for the next page of rows newer than its cursor.  It
    takes in the rows whose keys it does not know, and its cursor becomes the newest
    timestamp among the rows it has.  This is a walk that depends on the table alone. */
module PagedWalk {
  import opened Tables
  import opened DbSync

  /** What a reader has: the keys of its rows and its newest timestamp. */
  datatype Mark<K> = Mark(keys: set<K>, cursor: nat)

  function Later(a: nat, b: nat): nat { if a < b then b else a }

  ghost function MarkOf<T, K>(rows: seq<T>, ts: T -> nat, key: T -> K): Mark<K> {
    Mark(KeysOf(rows, key), MaxTs(rows, ts))
  }

  function PageAt<T>(rows: seq<T>, ts: T -> nat, cursor: nat): seq<T> {
    Limit(RowsAfter(rows, ts, cursor), PAGE)
  }

  /** The rows of a page that are new to a reader, each key once. */
  ghost function Fresh<T, K>(page: seq<T>, key: T -> K, known: set<K>): seq<T> {
    if page == [] then []
    else if key(page[0]) in known then Fresh(page[1..], key, known)
    else [page[0]] + Fresh(page[1..], key, known + {key(page[0])})
  }

  ghost function Advance<T, K>(rows: seq<T>, ts: T -> nat, key: T -> K, w: Mark<K>): Mark<K> {
    var page := PageAt(rows, ts, w.cursor);
    Mark(w.keys + KeysOf(page, key), Later(w.cursor, MaxTs(Fresh(page, key, w.keys), ts)))
  }

  /** The mark after `k` pages. */
  ghost function Walk<T, K>(rows: seq<T>, ts: T -> nat, key: T -> K, w: Mark<K>, k: nat): Mark<K> {
    if k == 0 then w else Advance(rows, ts, key, Walk(rows, ts, key, w, k - 1))
  }

  // -------------------------------------------------------------------- keys

  /** Rows of one table are rows of the other: so are their keys. */
  lemma {:induction false} KeysWithin<T, K>(s: seq<T>, t: seq<T>, key: T -> K)
    requires forall r :: r in s ==> r in t
    ensures KeysOf(s, key) <= KeysOf(t, key)
  {
    if s != [] {
      var n := |s| - 1;
      assert s[n] in s;
      KeysWithin(s[..n], t, key);
      KeyOfMember(t, key, s[n]);
    }
  }

  lemma KeysFirst<T, K>(s: seq<T>, key: T -> K)
    requires s != []
    ensures KeysOf(s, key) == {key(s[0])} + KeysOf(s[1..], key)
  {
    KeysConcat([s[0]], s[1..], key);
    assert [s[0]] + s[1..] == s;
    assert [s[0]][..0] == [];
  }

  // -------------------------------------------------------------- fresh rows

  lemma {:induction false} FreshKeys<T, K>(page: seq<T>, key: T -> K, known: set<K>)
    ensures known + KeysOf(Fresh(page, key, known), key) == known + KeysOf(page, key)
    ensures forall r :: r in Fresh(page, key, known) ==> r in page
    ensures forall r :: r in Fresh(page, key, known) ==> key(r) !in known
  {
    if page != [] {
      KeysFirst(page, key);
      assert page[0] in page && forall r :: r in page[1..] ==> r in page;
      if key(page[0]) in known {
        FreshKeys(page[1..], key, known);
      } else {
        var rest := Fresh(page[1..], key, known + {key(page[0])});
        FreshKeys(page[1..], key, known + {key(page[0])});
        KeysFirst([page[0]] + rest, key);
        assert ([page[0]] + rest)[1..] == rest;
      }
    }
  }

  lemma OneLess<K>(all: set<K>, known: set<K>, k: K)
    requires k in all && k !in known
    ensures |all - known| == |all - (known + {k})| + 1
  {
    assert all - known == (all - (known + {k})) + {k};
  }

  /** Each fresh row is one key less to come. */
  lemma {:induction false} FreshCount<T, K>(page: seq<T>, key: T -> K, known: set<K>, all: set<K>)
    requires KeysOf(page, key) <= all
    ensures |all - known| == |all - (known + KeysOf(page, key))| + |Fresh(page, key, known)|
    decreases |page|
  {
    if page == [] {
      assert known + KeysOf(page, key) == known;
    } else {
      KeysFirst(page, key);
      var k := key(page[0]);
      if k in known {
        FreshCount(page[1..], key, known, all);
        assert known + KeysOf(page[1..], key) == known + KeysOf(page, key);
      } else {
        FreshCount(page[1..], key, known + {k}, all);
        assert (known + {k}) + KeysOf(page[1..], key) == known + KeysOf(page, key);
        OneLess(all, known, k);
      }
    }
  }

  lemma {:induction false} NothingFresh<T, K>(page: seq<T>, key: T -> K, known: set<K>)
    ensures Fresh(page, key, known) == [] <==> KeysOf(page, key) <= known
  {
    if page != [] {
      KeysFirst(page, key);
      NothingFresh(page[1..], key, known);
    }
  }

  // ------------------------------------------------------------------ cursors

  lemma {:induction false} MaxConcat<T>(s: seq<T>, t: seq<T>, ts: T -> nat)
    ensures MaxTs(s + t, ts) == Later(MaxTs(s, ts), MaxTs(t, ts))
  {
    if s == [] {
      assert s + t == t;
    } else {
      MaxConcat(s[1..], t, ts);
      assert (s + t)[1..] == s[1..] + t;
    }
  }

  /** There are rows behind a cursor exactly when the newest timestamp is beyond it. */
  lemma MaxBeyond<T>(rows: seq<T>, ts: T -> nat, cursor: nat)
    ensures MaxTs(rows, ts) > cursor <==> RowsAfter(rows, ts, cursor) != []
  {
    MaxTsBounds(rows, ts);
    if MaxTs(rows, ts) > cursor {
      var r :| r in rows && ts(r) == MaxTs(rows, ts);
      RowsAfterHas(rows, ts, cursor, r);
    }
    if RowsAfter(rows, ts, cursor) != [] {
      RowsAfterHas(rows, ts, cursor, RowsAfter(rows, ts, cursor)[0]);
    }
  }

  /** Rows of one table are rows of the other: its newest timestamp is no newer. */
  lemma MaxWithin<T>(s: seq<T>, t: seq<T>, ts: T -> nat)
    requires forall r :: r in s ==> exists x :: x in t && ts(x) == ts(r)
    ensures MaxTs(s, ts) <= MaxTs(t, ts)
  {
    MaxTsBounds(s, ts);
    MaxTsBounds(t, ts);
  }

  lemma PageRows<T>(rows: seq<T>, ts: T -> nat, cursor: nat)
    ensures forall r :: r in PageAt(rows, ts, cursor) ==> r in rows && ts(r) > cursor
  {
    forall r | r in PageAt(rows, ts, cursor) ensures r in rows && ts(r) > cursor {
      RowsAfterHas(rows, ts, cursor, r);
    }
  }

  /** More rows behind a cursor than fit one page. */
  predicate More<T>(rows: seq<T>, ts: T -> nat, cursor: nat) {
    |RowsAfter(rows, ts, cursor)| > PAGE
  }

  /** A later cursor leaves no more rows. */
  lemma FewerBehind<T>(rows: seq<T>, ts: T -> nat, c: nat, d: nat)
    requires c <= d
    ensures |RowsAfter(rows, ts, d)| <= |RowsAfter(rows, ts, c)|
    ensures forall r :: r in RowsAfter(rows, ts, d) ==> r in RowsAfter(rows, ts, c)
  {
    RowsAfterLater(rows, ts, c, d);
    KeepFewer(RowsAfter(rows, ts, c), ts, d);
    forall r | r in RowsAfter(rows, ts, d) ensures r in RowsAfter(rows, ts, c) {
      RowsAfterHas(rows, ts, d, r);
      RowsAfterHas(rows, ts, c, r);
    }
  }

  lemma {:induction false} KeepFewer<T>(s: seq<T>, ts: T -> nat, d: nat)
    ensures |Keep(s, ts, d)| <= |s|
  {
    if s != [] {
      KeepFewer(s[1..], ts, d);
    }
  }

  // ----------------------------------------------------------------- the walk

  /** A page adds as many keys as it has fresh rows, and a page without any changes nothing. */
  lemma AdvanceAdds<T, K>(rows: seq<T>, ts: T -> nat, key: T -> K, w: Mark<K>)
    ensures var page := PageAt(rows, ts, w.cursor);
            var all, n := KeysOf(rows, key), |Fresh(page, key, w.keys)|;
            && |all - w.keys| == |all - Advance(rows, ts, key, w).keys| + n
            && (n == 0 <==> Advance(rows, ts, key, w) == w)
            && (n == 0 <==> KeysOf(page, key) <= w.keys)
    ensures w.keys <= Advance(rows, ts, key, w).keys && w.cursor <= Advance(rows, ts, key, w).cursor
  {
    var page := PageAt(rows, ts, w.cursor);
    PageRows(rows, ts, w.cursor);
    KeysWithin(page, rows, key);
    FreshCount(page, key, w.keys, KeysOf(rows, key));
    NothingFresh(page, key, w.keys);
  }

  lemma {:induction false} WalkGrows<T, K>(rows: seq<T>, ts: T -> nat, key: T -> K, w: Mark<K>, j: nat, k: nat)
    requires j <= k
    ensures Walk(rows, ts, key, w, j).keys <= Walk(rows, ts, key, w, k).keys
    ensures Walk(rows, ts, key, w, j).cursor <= Walk(rows, ts, key, w, k).cursor
    decreases k
  {
    hide Advance;
    if j < k {
      WalkGrows(rows, ts, key, w, j, k - 1);
      AdvanceAdds(rows, ts, key, Walk(rows, ts, key, w, k - 1));
    }
  }

  /** Once a page changes nothing, no later page does. */
  lemma {:induction false} WalkStays<T, K>(rows: seq<T>, ts: T -> nat, key: T -> K, w: Mark<K>, j: nat, k: nat)
    requires j <= k && Walk(rows, ts, key, w, j + 1) == Walk(rows, ts, key, w, j)
    ensures Walk(rows, ts, key, w, k) == Walk(rows, ts, key, w, j)
    decreases k
  {
    if j < k {
      WalkStays(rows, ts, key, w, j, k - 1);
    }
  }

  /** Where the walk stands still. */
  ghost function LimitOf<T, K>(rows: seq<T>, ts: T -> nat, key: T -> K, w: Mark<K>): Mark<K>
    decreases |KeysOf(rows, key) - w.keys|
  {
    AdvanceAdds(rows, ts, key, w);
    if Advance(rows, ts, key, w) == w then w else LimitOf(rows, ts, key, Advance(rows, ts, key, w))
  }

  lemma {:induction false} LimitStands<T, K>(rows: seq<T>, ts: T -> nat, key: T -> K, w: Mark<K>)
    ensures var m := LimitOf(rows, ts, key, w);
            Advance(rows, ts, key, m) == m && w.keys <= m.keys && w.cursor <= m.cursor
    decreases |KeysOf(rows, key) - w.keys|
  {
    AdvanceAdds(rows, ts, key, w);
    if Advance(rows, ts, key, w) != w {
      LimitStands(rows, ts, key, Advance(rows, ts, key, w));
    }
  }

  /** Every mark of the walk has the same limit, and is within it. */
  lemma {:induction false} WalkLimit<T, K>(rows: seq<T>, ts: T -> nat, key: T -> K, w: Mark<K>, k: nat)
    ensures LimitOf(rows, ts, key, Walk(rows, ts, key, w, k)) == LimitOf(rows, ts, key, w)
    ensures Walk(rows, ts, key, w, k).keys <= LimitOf(rows, ts, key, w).keys
  {
    hide Advance, KeysOf;
    if k > 0 {
      WalkLimit(rows, ts, key, w, k - 1);
    }
    LimitStands(rows, ts, key, Walk(rows, ts, key, w, k));
  }

  /** The walk gets to its limit, after at most as many pages as there are keys to come. */
  lemma {:induction false} WalkArrives<T, K>(rows: seq<T>, ts: T -> nat, key: T -> K, w: Mark<K>, k: nat)
    ensures |KeysOf(rows, key) - Walk(rows, ts, key, w, k).keys| + k <= |KeysOf(rows, key) - w.keys|
            || Walk(rows, ts, key, w, k) == LimitOf(rows, ts, key, w)
  {
    hide Advance, KeysOf, PageAt, Fresh;
    if k > 0 {
      WalkArrives(rows, ts, key, w, k - 1);
      WalkLimit(rows, ts, key, w, k - 1);
      LimitStands(rows, ts, key, w);
      AdvanceAdds(rows, ts, key, Walk(rows, ts, key, w, k - 1));
    }
  }

  /** A key all of whose rows are behind the cursor is never taken in. */
  lemma {:induction false} Overtaken<T, K>(rows: seq<T>, ts: T -> nat, key: T -> K, w: Mark<K>, k: K)
    requires k !in w.keys && forall r :: r in rows && key(r) == k ==> ts(r) <= w.cursor
    ensures k !in LimitOf(rows, ts, key, w).keys
    decreases |KeysOf(rows, key) - w.keys|
  {
    AdvanceAdds(rows, ts, key, w);
    PageRows(rows, ts, w.cursor);
    NotAmong(PageAt(rows, ts, w.cursor), key, k);
    if Advance(rows, ts, key, w) != w {
      Overtaken(rows, ts, key, Advance(rows, ts, key, w), k);
    }
  }

  lemma {:induction false} NotAmong<T, K>(rows: seq<T>, key: T -> K, k: K)
    requires forall r :: r in rows ==> key(r) != k
    ensures k !in KeysOf(rows, key)
  {
    if rows != [] {
      assert rows[|rows| - 1] in rows;
      NotAmong(rows[..|rows| - 1], key, k);
    }
  }

  /** When a page was the last one, the walk stands still after it. */
  lemma LastPage<T, K>(rows: seq<T>, ts: T -> nat, key: T -> K, w: Mark<K>)
    requires !More(rows, ts, w.cursor)
    ensures var v := Advance(rows, ts, key, w); Advance(rows, ts, key, v) == v
  {
    var v := Advance(rows, ts, key, w);
    AdvanceAdds(rows, ts, key, w);
    FewerBehind(rows, ts, w.cursor, v.cursor);
    KeysWithin(RowsAfter(rows, ts, v.cursor), RowsAfter(rows, ts, w.cursor), key);
    AdvanceAdds(rows, ts, key, v);
  }

  lemma NoRowsBehind<T, K>(rows: seq<T>, ts: T -> nat, key: T -> K, w: Mark<K>)
    requires RowsAfter(rows, ts, w.cursor) == []
    ensures Advance(rows, ts, key, w) == w
  {
    AdvanceAdds(rows, ts, key, w);
  }
}
