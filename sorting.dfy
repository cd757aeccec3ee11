/**
 * `orderBy(...).limit(k)` over an in-memory relation: a stable insertion sort
 * by a total preorder (`le(a, b)` means "a may come before b") and the first
 * `k` rows of its result.
 *
 * Rows that compare equal keep their input order. The compute engine does not
 * promise that; the properties stated about `TopK` hold for any order of ties.
 */
module Sorting {

  function Min(a: int, b: int): int {
    if a <= b then a else b
  }

  ghost predicate TotalPreorder<T(!new)>(le: (T, T) -> bool) {
    && (forall a, b :: le(a, b) || le(b, a))
    && (forall a, b, c :: le(a, b) && le(b, c) ==> le(a, c))
  }

  ghost predicate SortedBy<T>(s: seq<T>, le: (T, T) -> bool) {
    forall i, j :: 0 <= i < j < |s| ==> le(s[i], s[j])
  }

  /** Puts `x` before the first row it may precede. */
  function Insert<T>(x: T, s: seq<T>, le: (T, T) -> bool): (r: seq<T>)
    ensures multiset(r) == multiset(s) + multiset{x}
    ensures |r| == |s| + 1
  {
    if s == [] || le(x, s[0]) then [x] + s
    else
      assert s == [s[0]] + s[1..];
      [s[0]] + Insert(x, s[1..], le)
  }

  lemma {:induction false} InsertSorted<T(!new)>(x: T, s: seq<T>, le: (T, T) -> bool)
    requires TotalPreorder(le)
    requires SortedBy(s, le)
    ensures SortedBy(Insert(x, s, le), le)
  {
    if s != [] && !le(x, s[0]) {
      InsertSorted(x, s[1..], le);
      var r := Insert(x, s, le);
      var t := Insert(x, s[1..], le);
      assert r == [s[0]] + t;
      forall j | 0 < j < |r| ensures le(s[0], r[j]) {
        assert r[j] in multiset(t);
        assert r[j] in multiset(s[1..]) + multiset{x};
        if r[j] in multiset(s[1..]) {
          var k :| 0 <= k < |s[1..]| && s[1..][k] == r[j];
          assert s[k + 1] == r[j];
        } else {
          assert r[j] == x;
        }
      }
    }
  }

  /** A stable sort of `s` by `le`. */
  function SortBy<T(!new)>(s: seq<T>, le: (T, T) -> bool): (r: seq<T>)
    requires TotalPreorder(le)
    ensures multiset(r) == multiset(s)
    ensures |r| == |s|
    ensures SortedBy(r, le)
  {
    if s == [] then []
    else
      assert s == [s[0]] + s[1..];
      InsertSorted(s[0], SortBy(s[1..], le), le);
      Insert(s[0], SortBy(s[1..], le), le)
  }

  /**
   * `orderBy(le).limit(k)`: the first `k` rows in sorted order. No row left
   * out sorts strictly before any row kept.
   */
  function TopK<T(!new)>(s: seq<T>, k: nat, le: (T, T) -> bool): (r: seq<T>)
    requires TotalPreorder(le)
    ensures |r| == Min(k, |s|)
    ensures multiset(r) <= multiset(s)
    ensures SortedBy(r, le)
    ensures forall x, i :: x in multiset(s) - multiset(r) && 0 <= i < |r| ==> le(r[i], x)
  {
    var t := SortBy(s, le);
    PrefixOfSorted(s, t, Min(k, |s|), le);
    t[..Min(k, |s|)]
  }

  /** A prefix of a sorted permutation of `s` holds rows that precede every row left out. */
  lemma PrefixOfSorted<T(!new)>(s: seq<T>, t: seq<T>, n: nat, le: (T, T) -> bool)
    requires multiset(t) == multiset(s) && |t| == |s|
    requires SortedBy(t, le)
    requires n <= |s|
    ensures |t[..n]| == n
    ensures multiset(t[..n]) <= multiset(s)
    ensures SortedBy(t[..n], le)
    ensures forall x, i :: x in multiset(s) - multiset(t[..n]) && 0 <= i < n ==> le(t[..n][i], x)
  {
    assert t == t[..n] + t[n..];
    assert multiset(t) == multiset(t[..n]) + multiset(t[n..]);
    forall x, i | x in multiset(s) - multiset(t[..n]) && 0 <= i < n ensures le(t[..n][i], x) {
      assert x in multiset(t[n..]);
      var j :| 0 <= j < |t[n..]| && t[n..][j] == x;
      assert t[n + j] == x;
    }
  }

  /** The first row kept may precede every row of the input. */
  lemma TopKHead<T(!new)>(s: seq<T>, k: nat, le: (T, T) -> bool)
    requires TotalPreorder(le)
    requires k > 0 && |s| > 0
    ensures |TopK(s, k, le)| > 0
    ensures forall x :: x in s ==> le(TopK(s, k, le)[0], x)
  {
    var r := TopK(s, k, le);
    forall x | x in s ensures le(r[0], x) {
      assert x in multiset(s);
      if x in multiset(r) {
        var j :| 0 <= j < |r| && r[j] == x;
        if j == 0 {
          assert le(x, x) || le(x, x);
        }
      } else {
        assert x in multiset(s) - multiset(r);
      }
    }
  }

  /** With room for every row, nothing is left out. */
  lemma TopKAll<T(!new)>(s: seq<T>, k: nat, le: (T, T) -> bool)
    requires TotalPreorder(le)
    requires |s| <= k
    ensures multiset(TopK(s, k, le)) == multiset(s)
  {
    var r := TopK(s, k, le);
    var rest := multiset(s) - multiset(r);
    assert multiset(s) == multiset(r) + rest;
    assert |multiset(s)| == |multiset(r)| + |rest|;
    assert |rest| == 0;
  }
}
