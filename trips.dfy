/**
 * The canonical trip record every report reads, the derived trip duration in
 * minutes, and Spark's `mean` aggregate (which skips null values).
 *
 * Timestamps arrive parsed; `None` stands for a value that did not parse as
 * `yyyy-MM-dd HH:mm:ss` (Spark yields null there). Durations and means are
 * exact reals.
 */
module Trips {
  import opened Wrappers
  import opened Civil
  import opened Grouping

  datatype Trip = Trip(
    start: Option<Timestamp>,
    end: Option<Timestamp>,
    station: string,
    gender: Option<string>,
    birthyear: Option<int>)

  /** Why a pipeline run stops early. */
  datatype Failure =
    | EmptyRelation   // `df.first()` has no row to name the source after
    | NoStartDate     // no parseable start date, so `max_date` is null
    | DateOutOfRange  // `max_date - 14 days` precedes 0001-01-01

  /** `to_date(start)`. */
  function StartDate(t: Trip): (d: Option<Date>)
    ensures d.Some? <==> t.start.Some?
    ensures d.Some? ==> Ordinal(d.value) * 86400 <= Secs(t.start.value) < (Ordinal(d.value) + 1) * 86400
  {
    if t.start.Some? then
      SecsWithinDay(t.start.value);
      Some(t.start.value.date)
    else None
  }

  function Station(t: Trip): string {
    t.station
  }

  /** `(unix_timestamp(end) - unix_timestamp(start)) / 60`, null when either is null. */
  function Duration(t: Trip): (d: Option<real>)
    ensures d.Some? <==> t.start.Some? && t.end.Some?
    ensures d.Some? ==> (d.value < 0.0 <==> Secs(t.end.value) < Secs(t.start.value))
  {
    if t.start.Some? && t.end.Some? then
      Some((Secs(t.end.value) - Secs(t.start.value)) as real / 60.0)
    else None
  }

  function Durations(rows: seq<Trip>): (ds: seq<Option<real>>)
    ensures |ds| == |rows|
  {
    seq(|rows|, i requires 0 <= i < |rows| => Duration(rows[i]))
  }

  function NonNullCount(xs: seq<Option<real>>): nat
    decreases |xs|
  {
    if xs == [] then 0
    else NonNullCount(xs[..|xs| - 1]) + if xs[|xs| - 1].Some? then 1 else 0
  }

  function NonNullSum(xs: seq<Option<real>>): real
    decreases |xs|
  {
    if xs == [] then 0.0
    else
      var last := xs[|xs| - 1];
      NonNullSum(xs[..|xs| - 1]) + if last.Some? then last.value else 0.0
  }

  /** `mean`: the average of the non-null values, null when there are none. */
  function Mean(xs: seq<Option<real>>): (m: Option<real>)
    ensures m.None? <==> NonNullCount(xs) == 0
    ensures m.Some? ==> m.value * NonNullCount(xs) as real == NonNullSum(xs)
  {
    var n := NonNullCount(xs);
    if n == 0 then None else Some(NonNullSum(xs) / n as real)
  }

  lemma MeanOfOne(v: real)
    ensures Mean([Some(v)]) == Some(v)
  {
    var xs: seq<Option<real>> := [Some(v)];
    assert xs[..0] == [];
    assert NonNullCount(xs) == 1;
    assert NonNullSum(xs) == v;
  }

  lemma {:induction false} NonNullSumBounds(xs: seq<Option<real>>, lo: real, hi: real)
    requires forall i :: 0 <= i < |xs| && xs[i].Some? ==> lo <= xs[i].value <= hi
    ensures lo * NonNullCount(xs) as real <= NonNullSum(xs) <= hi * NonNullCount(xs) as real
    decreases |xs|
  {
    if xs != [] {
      NonNullSumBounds(xs[..|xs| - 1], lo, hi);
    }
  }

  /** The mean lies between the smallest and the largest non-null value. */
  lemma MeanBounds(xs: seq<Option<real>>, lo: real, hi: real)
    requires forall i :: 0 <= i < |xs| && xs[i].Some? ==> lo <= xs[i].value <= hi
    requires Mean(xs).Some?
    ensures lo <= Mean(xs).value <= hi
  {
    NonNullSumBounds(xs, lo, hi);
    var n := NonNullCount(xs) as real;
    var m := Mean(xs).value;
    assert (m - lo) * n == NonNullSum(xs) - lo * n;
    assert (hi - m) * n == hi * n - NonNullSum(xs);
    NonNegativeFactor(m - lo, n);
    NonNegativeFactor(hi - m, n);
  }

  lemma NonNegativeFactor(a: real, n: real)
    requires n > 0.0 && a * n >= 0.0
    ensures a >= 0.0
  {
  }

  /** Number of trips with key `k` whose duration is known. */
  function DurationCount<K(==)>(trips: seq<Trip>, key: Trip -> K, k: K): nat
    decreases |trips|
  {
    if trips == [] then 0
    else
      var t := trips[|trips| - 1];
      DurationCount(trips[..|trips| - 1], key, k)
        + if key(t) == k && Duration(t).Some? then 1 else 0
  }

  /** Sum of the known durations of the trips with key `k`. */
  function DurationSum<K(==)>(trips: seq<Trip>, key: Trip -> K, k: K): real
    decreases |trips|
  {
    if trips == [] then 0.0
    else
      var t := trips[|trips| - 1];
      DurationSum(trips[..|trips| - 1], key, k)
        + if key(t) == k && Duration(t).Some? then Duration(t).value else 0.0
  }

  lemma {:induction false} GroupDurations<K>(trips: seq<Trip>, key: Trip -> K, k: K)
    ensures NonNullCount(Durations(Where(trips, key, k))) == DurationCount(trips, key, k)
    ensures NonNullSum(Durations(Where(trips, key, k))) == DurationSum(trips, key, k)
    decreases |trips|
  {
    if trips != [] {
      var init := trips[..|trips| - 1];
      var t := trips[|trips| - 1];
      GroupDurations(init, key, k);
      var w := Where(init, key, k);
      if key(t) == k {
        assert Where(trips, key, k) == w + [t];
        var ds := Durations(w + [t]);
        assert ds[..|ds| - 1] == Durations(w);
      } else {
        assert Where(trips, key, k) == w;
      }
    }
  }

  /**
   * The mean duration over the trips with key `k` is the sum of their known
   * durations divided by their number, and null when none is known.
   */
  lemma GroupMean<K>(trips: seq<Trip>, key: Trip -> K, k: K)
    ensures var m := Mean(Durations(Where(trips, key, k)));
      && (m.None? <==> DurationCount(trips, key, k) == 0)
      && (m.Some? ==>
            DurationCount(trips, key, k) > 0
            && m.value == DurationSum(trips, key, k) / DurationCount(trips, key, k) as real)
  {
    GroupDurations(trips, key, k);
  }
}
