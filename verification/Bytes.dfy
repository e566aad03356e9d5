/** Bytes and byte strings, shared by the modules that work on raw input. */
module Bytes {
  type byte = x: int | 0 <= x < 256

  function Concat<T>(parts: seq<seq<T>>): seq<T> {
    if parts == [] then [] else parts[0] + Concat(parts[1..])
  }

  lemma {:induction false} ConcatSnoc<T>(parts: seq<seq<T>>, last: seq<T>)
    ensures Concat(parts + [last]) == Concat(parts) + last
  {
    if parts == [] {
      assert parts + [last] == [last];
    } else {
      ConcatSnoc(parts[1..], last);
      assert (parts + [last])[1..] == parts[1..] + [last];
    }
  }

  lemma {:induction false} ConcatAppend<T>(a: seq<seq<T>>, b: seq<seq<T>>)
    ensures Concat(a + b) == Concat(a) + Concat(b)
  {
    if a == [] {
      assert a + b == b;
    } else {
      ConcatAppend(a[1..], b);
      assert (a + b)[1..] == a[1..] + b;
      assert Concat(a + b) == a[0] + Concat(a[1..] + b);
      assert Concat(a) == a[0] + Concat(a[1..]);
    }
  }
}
