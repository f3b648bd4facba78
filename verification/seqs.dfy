/** What the SQL queries of the model are made of: WHERE as a filter,
    ORDER BY … DESC as a descending sort (ties in any order), LIMIT as a
    prefix, and `ORDER BY … DESC LIMIT 1` as a maximum. */
module Seqs {
  import opened Base

  /** `WHERE p`: the elements satisfying p, in order. */
  function Filter<T(!new)>(s: seq<T>, p: T -> bool): (r: seq<T>)
    ensures |r| <= |s|
    ensures forall x :: x in r <==> x in s && p(x)
    ensures forall x :: multiset(r)[x] == if p(x) then multiset(s)[x] else 0
  {
    if |s| == 0 then []
    else
      var rest := Filter(s[1..], p);
      assert s == [s[0]] + s[1..];
      if p(s[0]) then [s[0]] + rest else rest
  }

  /** Filtering a concatenation filters each part. */
  lemma {:induction false} FilterAppend<T(!new)>(a: seq<T>, b: seq<T>, p: T -> bool)
    ensures Filter(a + b, p) == Filter(a, p) + Filter(b, p)
  {
    if |a| > 0 {
      var c := a + b;
      assert c[0] == a[0] && c[1..] == a[1..] + b;
      FilterAppend(a[1..], b, p);
      if p(a[0]) {
        assert Filter(c, p) == [a[0]] + Filter(c[1..], p);
        assert Filter(a, p) == [a[0]] + Filter(a[1..], p);
      } else {
        assert Filter(c, p) == Filter(c[1..], p);
        assert Filter(a, p) == Filter(a[1..], p);
      }
    } else {
      assert a + b == b;
    }
  }

  /** Applies f to every element. */
  function Map<T, U>(s: seq<T>, f: T -> U): (r: seq<U>)
    ensures |r| == |s| && forall i :: 0 <= i < |s| ==> r[i] == f(s[i])
  {
    seq(|s|, i requires 0 <= i < |s| => f(s[i]))
  }

  predicate SortedDesc<T>(s: seq<T>, key: T -> int) {
    forall i, j :: 0 <= i < j < |s| ==> key(s[i]) >= key(s[j])
  }

  /** Puts x in front of the first element with a smaller key. */
  function Insert<T>(x: T, s: seq<T>, key: T -> int): (r: seq<T>)
    requires SortedDesc(s, key)
    ensures SortedDesc(r, key)
    ensures multiset(r) == multiset(s) + multiset{x}
    ensures |r| == |s| + 1
    ensures r[0] == x || (|s| > 0 && r[0] == s[0])
  {
    if |s| == 0 then [x]
    else if key(x) >= key(s[0]) then [x] + s
    else
      var rest := Insert(x, s[1..], key);
      assert s == [s[0]] + s[1..];
      assert key(rest[0]) <= key(s[0]);
      [s[0]] + rest
  }

  /** `ORDER BY key DESC`: a descending permutation of s. */
  function SortDesc<T>(s: seq<T>, key: T -> int): (r: seq<T>)
    ensures SortedDesc(r, key)
    ensures multiset(r) == multiset(s)
    ensures |r| == |s|
  {
    if |s| == 0 then []
    else
      assert s == [s[0]] + s[1..];
      Insert(s[0], SortDesc(s[1..], key), key)
  }

  /** `LIMIT n`: the first n elements; SQLite reads a negative limit as no
      limit at all. */
  function Take<T>(s: seq<T>, n: int): (r: seq<T>)
    ensures n < 0 || n >= |s| ==> r == s
    ensures 0 <= n < |s| ==> r == s[..n]
  {
    if n < 0 || n >= |s| then s else s[..n]
  }

  /** A prefix of a descending sequence holds its largest elements: nothing
      left out has a key above anything kept. */
  lemma TakeKeepsLargest<T>(s: seq<T>, n: int, key: T -> int)
    requires SortedDesc(s, key)
    ensures SortedDesc(Take(s, n), key)
    ensures multiset(Take(s, n)) <= multiset(s)
    ensures forall x, y :: x in multiset(s) - multiset(Take(s, n)) && y in Take(s, n) ==> key(x) <= key(y)
  {
    var t := Take(s, n);
    if 0 <= n < |s| {
      assert s == t + s[n..];
      assert multiset(s) - multiset(t) == multiset(s[n..]);
      forall x, y | x in multiset(s) - multiset(t) && y in t
        ensures key(x) <= key(y)
      {
        var i :| n <= i < |s| && s[i] == x;
        var j :| 0 <= j < n && s[j] == y;
      }
    } else {
      assert multiset(s) - multiset(t) == multiset{};
    }
  }

  /** `ORDER BY key DESC LIMIT 1` on a non-empty sequence: an element with
      the largest key. */
  function MaxBy<T>(s: seq<T>, key: T -> int): (m: T)
    requires |s| > 0
    ensures m in s
    ensures forall i :: 0 <= i < |s| ==> key(s[i]) <= key(m)
    ensures forall x :: x in s ==> key(x) <= key(m)
  {
    if |s| == 1 then s[0]
    else
      var rest := MaxBy(s[1..], key);
      assert forall i :: 1 <= i < |s| ==> s[i] == s[1..][i - 1];
      if key(s[0]) >= key(rest) then s[0] else rest
  }

  /** The result of `ORDER BY key DESC LIMIT 1`: None for no rows. */
  function Newest<T>(s: seq<T>, key: T -> int): (r: Option<T>)
    ensures r.None? <==> |s| == 0
    ensures r.Some? ==> r.value in s && forall i :: 0 <= i < |s| ==> key(s[i]) <= key(r.value)
  {
    if |s| == 0 then None else Some(MaxBy(s, key))
  }
}
