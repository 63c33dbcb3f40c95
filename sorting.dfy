/** Deterministic ordering of table rows: SQL `ORDER BY` over the row ids of a
    table, written as an insertion sort by a lexicographic key. The id is always
    the last key component, so rows that tie on every `ORDER BY` column come out
    in id order (SQLite leaves that order unspecified). Row ids are positive and
    below the table's next id, so a table's ids are enumerated by walking that
    range. */
module Sorting {

  /** A lexicographic sort key of up to four integer columns. */
  datatype Key = Key(a: int, b: int, c: int, d: int)

  predicate KeyLeq(x: Key, y: Key) {
    x.a < y.a || (x.a == y.a && (x.b < y.b || (x.b == y.b && (x.c < y.c || (x.c == y.c && x.d <= y.d)))))
  }

  lemma KeyLeqTotal(x: Key, y: Key)
    ensures KeyLeq(x, y) || KeyLeq(y, x)
  {
  }

  lemma KeyLeqTrans(x: Key, y: Key, z: Key)
    requires KeyLeq(x, y) && KeyLeq(y, z)
    ensures KeyLeq(x, z)
  {
  }

  predicate SortedBy(s: seq<int>, key: int -> Key) {
    forall i, j :: 0 <= i < j < |s| ==> KeyLeq(key(s[i]), key(s[j]))
  }

  predicate Distinct(s: seq<int>) {
    forall i, j :: 0 <= i < j < |s| ==> s[i] != s[j]
  }

  /** The members of `ids` in `[lo, hi)`, in ascending order. */
  function Ascending(ids: set<int>, lo: int, hi: int): (r: seq<int>)
    ensures forall i :: 0 <= i < |r| ==> r[i] in ids && lo <= r[i] < hi
    ensures forall y :: y in r <==> y in ids && lo <= y < hi
    ensures forall i, j :: 0 <= i < j < |r| ==> r[i] < r[j]
    decreases hi - lo
  {
    if hi <= lo then []
    else
      var r := Ascending(ids, lo, hi - 1);
      if hi - 1 in ids then
        assert forall y :: y in r + [hi - 1] <==> y in r || y == hi - 1 by {
          forall y ensures y in r + [hi - 1] <==> y in r || y == hi - 1 {
            if y in r {
              var k :| 0 <= k < |r| && r[k] == y;
              assert (r + [hi - 1])[k] == y;
            }
            assert (r + [hi - 1])[|r|] == hi - 1;
          }
        }
        r + [hi - 1]
      else r
  }

  /** Inserts `x` into a sorted sequence, before the first element it does not follow. */
  function InsertBy(x: int, s: seq<int>, key: int -> Key): (r: seq<int>)
    requires SortedBy(s, key)
    ensures SortedBy(r, key)
    ensures |r| == |s| + 1
    ensures forall y :: y in r <==> y == x || y in s
  {
    if s == [] then [x]
    else if KeyLeq(key(x), key(s[0])) then
      forall j | 0 <= j < |s| ensures KeyLeq(key(x), key(s[j])) {
        if j > 0 { KeyLeqTrans(key(x), key(s[0]), key(s[j])); }
      }
      [x] + s
    else
      KeyLeqTotal(key(x), key(s[0]));
      var t := InsertBy(x, s[1..], key);
      forall j | 0 <= j < |t| ensures KeyLeq(key(s[0]), key(t[j])) {
        if t[j] != x {
          assert t[j] in s[1..];
          var k :| 0 <= k < |s[1..]| && s[1..][k] == t[j];
          assert s[k + 1] == t[j];
        }
      }
      assert s == [s[0]] + s[1..];
      [s[0]] + t
  }

  lemma {:induction false} InsertByDistinct(x: int, s: seq<int>, key: int -> Key)
    requires SortedBy(s, key) && Distinct(s) && x !in s
    ensures Distinct(InsertBy(x, s, key))
  {
    if s != [] && !KeyLeq(key(x), key(s[0])) {
      InsertByDistinct(x, s[1..], key);
      assert s[0] !in s[1..];
    }
  }

  /** Insertion sort by `key`. */
  function SortBy(s: seq<int>, key: int -> Key): (r: seq<int>)
    ensures SortedBy(r, key)
    ensures |r| == |s|
    ensures forall y :: y in r <==> y in s
  {
    if s == [] then [] else InsertBy(s[0], SortBy(s[1..], key), key)
  }

  lemma {:induction false} SortByDistinct(s: seq<int>, key: int -> Key)
    requires Distinct(s)
    ensures Distinct(SortBy(s, key))
  {
    if s != [] {
      SortByDistinct(s[1..], key);
      assert s[0] !in s[1..];
      InsertByDistinct(s[0], SortBy(s[1..], key), key);
    }
  }

  /** `SELECT id FROM t ORDER BY key`: the ids of `ids` in `[lo, hi)` sorted by `key`. */
  function OrderBy(ids: set<int>, lo: int, hi: int, key: int -> Key): (r: seq<int>)
    ensures SortedBy(r, key) && Distinct(r)
    ensures forall y :: y in r <==> y in ids && lo <= y < hi
    ensures forall i :: 0 <= i < |r| ==> r[i] in ids && lo <= r[i] < hi
  {
    var a := Ascending(ids, lo, hi);
    SortByDistinct(a, key);
    var r := SortBy(a, key);
    assert forall i :: 0 <= i < |r| ==> r[i] in r;
    r
  }

  /** A property of every element of two sequences holds of every element of their concatenation. */
  lemma ForallConcat<T>(a: seq<T>, b: seq<T>, p: T -> bool)
    requires forall i :: 0 <= i < |a| ==> p(a[i])
    requires forall i :: 0 <= i < |b| ==> p(b[i])
    ensures forall i :: 0 <= i < |a + b| ==> p((a + b)[i])
  {
    forall i | 0 <= i < |a + b| ensures p((a + b)[i]) {
      if i < |a| { assert (a + b)[i] == a[i]; } else { assert (a + b)[i] == b[i - |a|]; }
    }
  }

  /** The first `n` elements of `s`, or all of them when there are fewer (`LIMIT n`). */
  function Take(s: seq<int>, n: nat): (r: seq<int>)
    ensures |r| <= n && |r| <= |s| && r == s[..|r|]
    ensures |s| >= n ==> |r| == n
    ensures |s| < n ==> r == s
  {
    if |s| <= n then s else s[..n]
  }
}
