/**
 * The in-memory meaning of a relational `groupBy`: the distinct grouping keys
 * of a relation (in order of first appearance), the rows that carry one key,
 * and `groupBy(...).count()`.
 *
 * The compute engine does not promise any order of groups; this model fixes
 * first appearance in the input, and every property proved about the reports
 * other than their exact order holds whatever the order.
 */
module Grouping {

  ghost predicate NoDuplicates<K>(s: seq<K>) {
    forall i, j :: 0 <= i < j < |s| ==> s[i] != s[j]
  }

  /** The distinct values of `ks`, each once, in order of first appearance. */
  function Distinct<K(==,!new)>(ks: seq<K>): (d: seq<K>)
    ensures NoDuplicates(d)
    ensures forall k :: k in d <==> k in ks
    decreases |ks|
  {
    if ks == [] then []
    else
      var d := Distinct(ks[..|ks| - 1]);
      var x := ks[|ks| - 1];
      assert forall k :: k in ks <==> k in ks[..|ks| - 1] || k == x by {
        assert ks == ks[..|ks| - 1] + [x];
      }
      if x in d then d else d + [x]
  }

  /** The grouping key of every row. */
  function Keys<T, K>(rows: seq<T>, key: T -> K): seq<K> {
    seq(|rows|, i requires 0 <= i < |rows| => key(rows[i]))
  }

  /** The rows whose key is `k`, in input order. */
  function Where<T, K(==)>(rows: seq<T>, key: T -> K, k: K): (r: seq<T>)
    ensures |r| <= |rows|
    decreases |rows|
  {
    if rows == [] then []
    else
      var x := rows[|rows| - 1];
      var r := Where(rows[..|rows| - 1], key, k);
      if key(x) == k then r + [x] else r
  }

  /** `Where` keeps exactly the rows carrying key `k`, each as often as it occurs. */
  lemma {:induction false} WhereMultiset<T(!new), K>(rows: seq<T>, key: T -> K, k: K)
    ensures forall x :: multiset(Where(rows, key, k))[x] == if key(x) == k then multiset(rows)[x] else 0
    decreases |rows|
  {
    if rows != [] {
      var x := rows[|rows| - 1];
      WhereMultiset(rows[..|rows| - 1], key, k);
      assert rows == rows[..|rows| - 1] + [x];
    }
  }

  lemma WhereMembers<T(!new), K>(rows: seq<T>, key: T -> K, k: K)
    ensures forall x :: x in Where(rows, key, k) <==> x in rows && key(x) == k
  {
    var r := Where(rows, key, k);
    WhereMultiset(rows, key, k);
    forall x ensures x in r <==> x in rows && key(x) == k {
      assert x in r <==> multiset(r)[x] > 0;
      assert x in rows <==> multiset(rows)[x] > 0;
    }
  }

  lemma KeysMembers<T(!new), K>(rows: seq<T>, key: T -> K)
    ensures forall x :: x in rows ==> key(x) in Keys(rows, key)
  {
    forall x | x in rows ensures key(x) in Keys(rows, key) {
      var j :| 0 <= j < |rows| && rows[j] == x;
      assert Keys(rows, key)[j] == key(x);
    }
  }

  datatype Group<K, T> = Group(key: K, rows: seq<T>)

  /** `groupBy(key)`: one group per distinct key, holding that key's rows. */
  function GroupBy<T(!new), K(==,!new)>(rows: seq<T>, key: T -> K): (gs: seq<Group<K, T>>)
    ensures forall i, j :: 0 <= i < j < |gs| ==> gs[i].key != gs[j].key
    ensures forall i :: 0 <= i < |gs| ==> gs[i].rows == Where(rows, key, gs[i].key)
    ensures forall i :: 0 <= i < |gs| ==> gs[i].key in Keys(rows, key)
    ensures forall x :: x in rows ==> exists i :: 0 <= i < |gs| && gs[i].key == key(x)
  {
    var d := Distinct(Keys(rows, key));
    var gs := seq(|d|, i requires 0 <= i < |d| => Group(d[i], Where(rows, key, d[i])));
    KeysMembers(rows, key);
    forall x | x in rows ensures exists i :: 0 <= i < |gs| && gs[i].key == key(x) {
      var i :| 0 <= i < |d| && d[i] == key(x);
      assert gs[i].key == key(x);
    }
    gs
  }

  lemma KeyHasRow<T(!new), K>(rows: seq<T>, key: T -> K, k: K)
    requires k in Keys(rows, key)
    ensures |Where(rows, key, k)| > 0
  {
    var j :| 0 <= j < |rows| && Keys(rows, key)[j] == k;
    assert rows[j] in rows;
    WhereMembers(rows, key, k);
    assert rows[j] in Where(rows, key, k);
  }

  datatype Counted<K> = Counted(key: K, count: nat)

  /** `groupBy(key).count()`: each distinct key with its number of rows. */
  function CountBy<T(!new), K(==,!new)>(rows: seq<T>, key: T -> K): (cs: seq<Counted<K>>)
    ensures forall i, j :: 0 <= i < j < |cs| ==> cs[i].key != cs[j].key
    ensures forall i :: 0 <= i < |cs| ==> cs[i].count == |Where(rows, key, cs[i].key)| > 0
    ensures forall x :: x in rows ==> exists i :: 0 <= i < |cs| && cs[i].key == key(x)
  {
    var d := Distinct(Keys(rows, key));
    var cs := seq(|d|, i requires 0 <= i < |d| => Counted(d[i], |Where(rows, key, d[i])|));
    CountedKeys(rows, key, d, cs);
    cs
  }

  lemma CountedKeys<T(!new), K(!new)>(rows: seq<T>, key: T -> K, d: seq<K>, cs: seq<Counted<K>>)
    requires forall k :: k in d <==> k in Keys(rows, key)
    requires |cs| == |d|
    requires forall i :: 0 <= i < |cs| ==> cs[i] == Counted(d[i], |Where(rows, key, d[i])|)
    ensures forall i :: 0 <= i < |cs| ==> cs[i].count > 0
    ensures forall x :: x in rows ==> exists i :: 0 <= i < |cs| && cs[i].key == key(x)
  {
    forall i | 0 <= i < |cs| ensures cs[i].count > 0 {
      assert cs[i].key == d[i] && d[i] in d;
      KeyHasRow(rows, key, cs[i].key);
    }
    KeysMembers(rows, key);
    forall x | x in rows ensures exists i :: 0 <= i < |cs| && cs[i].key == key(x) {
      var i :| 0 <= i < |d| && d[i] == key(x);
      assert cs[i].key == key(x);
    }
  }

  function SumCounts<K>(cs: seq<Counted<K>>): nat {
    if cs == [] then 0 else cs[0].count + SumCounts(cs[1..])
  }

  /** Sum over the keys `ks` of the number of rows carrying each one. */
  function CountAll<T(!new), K(==)>(ks: seq<K>, rows: seq<T>, key: T -> K): nat {
    if ks == [] then 0 else |Where(rows, key, ks[0])| + CountAll(ks[1..], rows, key)
  }

  lemma {:induction false} CountAllSnoc<T(!new), K>(ks: seq<K>, rows: seq<T>, key: T -> K, x: T)
    requires NoDuplicates(ks)
    ensures CountAll(ks, rows + [x], key) == CountAll(ks, rows, key) + if key(x) in ks then 1 else 0
  {
    var rx := rows + [x];
    assert rx[..|rx| - 1] == rows;
    if ks != [] {
      assert NoDuplicates(ks[1..]);
      CountAllSnoc(ks[1..], rows, key, x);
      assert key(x) in ks <==> key(x) == ks[0] || key(x) in ks[1..];
      assert key(x) == ks[0] ==> key(x) !in ks[1..];
    }
  }

  lemma {:induction false} CountAllRows<T(!new), K>(ks: seq<K>, rows: seq<T>, key: T -> K)
    requires NoDuplicates(ks)
    requires forall x :: x in rows ==> key(x) in ks
    ensures CountAll(ks, rows, key) == |rows|
    decreases |rows|
  {
    if rows == [] {
      CountAllEmpty(ks, rows, key);
    } else {
      var init := rows[..|rows| - 1];
      var x := rows[|rows| - 1];
      assert rows == init + [x];
      CountAllRows(ks, init, key);
      CountAllSnoc(ks, init, key, x);
    }
  }

  lemma {:induction false} CountAllEmpty<T(!new), K>(ks: seq<K>, rows: seq<T>, key: T -> K)
    requires rows == []
    ensures CountAll(ks, rows, key) == 0
  {
    if ks != [] {
      CountAllEmpty(ks[1..], rows, key);
    }
  }

  lemma {:induction false} SumCountsIsCountAll<T(!new), K>(cs: seq<Counted<K>>, ks: seq<K>, rows: seq<T>, key: T -> K)
    requires |cs| == |ks|
    requires forall i :: 0 <= i < |cs| ==> cs[i].key == ks[i] && cs[i].count == |Where(rows, key, ks[i])|
    ensures SumCounts(cs) == CountAll(ks, rows, key)
  {
    if cs != [] {
      SumCountsIsCountAll(cs[1..], ks[1..], rows, key);
    }
  }

  /** Counting groups neither loses nor double-counts a row. */
  lemma CountBySum<T(!new), K(!new)>(rows: seq<T>, key: T -> K)
    ensures SumCounts(CountBy(rows, key)) == |rows|
  {
    var cs := CountBy(rows, key);
    var ks := seq(|cs|, i requires 0 <= i < |cs| => cs[i].key);
    assert NoDuplicates(ks);
    SumCountsIsCountAll(cs, ks, rows, key);
    forall x | x in rows ensures key(x) in ks {
      var i :| 0 <= i < |cs| && cs[i].key == key(x);
      assert ks[i] == key(x);
    }
    CountAllRows(ks, rows, key);
  }
}
