/**
 * `ages_by_trip_lengths`: the ages (`year(start) - birthyear`) of the riders
 * of the ten longest and the ten shortest trips. Rows with no age are dropped
 * first; rows with no duration are kept. Under `desc` such rows sort last,
 * under `asc` first. Trips that end before they start keep their negative
 * duration.
 */
module AgeExtremes {
  import opened Wrappers
  import opened Civil
  import opened Trips
  import opened Sorting
  import opened Grouping

  /** `year(start) - birthyear`, null when either is null. */
  function Age(t: Trip): (a: Option<int>)
    ensures a.Some? <==> t.start.Some? && t.birthyear.Some?
  {
    if t.start.Some? && t.birthyear.Some? then Some(t.start.value.date.year - t.birthyear.value) else None
  }

  /** One output row: `age`, and the trip's duration in minutes. */
  datatype AgeRow = AgeRow(age: int, minutes: Option<real>)

  function RowOf(t: Trip): AgeRow
    requires Age(t).Some?
  {
    AgeRow(Age(t).value, Duration(t))
  }

  /** The output row of a trip, null when the trip has no age. */
  function AgedRowOf(t: Trip): Option<AgeRow> {
    if Age(t).Some? then Some(RowOf(t)) else None
  }

  /**
   * `withColumn("person_age", ...)` then `na.drop(subset=["person_age"])`:
   * one row per trip with an age, so a row occurs as often as the trips
   * that produce it.
   */
  function AgedRows(trips: seq<Trip>): (rows: seq<AgeRow>)
    ensures |rows| == |trips| - |Where(trips, Age, None)|
    ensures forall r :: r in rows <==> exists t :: t in trips && Age(t).Some? && r == RowOf(t)
    ensures forall r :: multiset(rows)[r] == |Where(trips, AgedRowOf, Some(r))|
    decreases |trips|
  {
    if trips == [] then []
    else
      var rows := AgedRows(trips[..|trips| - 1]);
      var t := trips[|trips| - 1];
      var r := if Age(t).Some? then rows + [RowOf(t)] else rows;
      AgedRowsStep(trips, rows, r);
      r
  }

  /** Appending one trip keeps the count, the members and the multiplicities of `AgedRows`. */
  lemma AgedRowsStep(trips: seq<Trip>, rows: seq<AgeRow>, r: seq<AgeRow>)
    requires trips != []
    requires |rows| == |trips| - 1 - |Where(trips[..|trips| - 1], Age, None)|
    requires forall x :: x in rows <==> exists t :: t in trips[..|trips| - 1] && Age(t).Some? && x == RowOf(t)
    requires forall x :: multiset(rows)[x] == |Where(trips[..|trips| - 1], AgedRowOf, Some(x))|
    requires r == if Age(trips[|trips| - 1]).Some? then rows + [RowOf(trips[|trips| - 1])] else rows
    ensures |r| == |trips| - |Where(trips, Age, None)|
    ensures forall x :: x in r <==> exists t :: t in trips && Age(t).Some? && x == RowOf(t)
    ensures forall x :: multiset(r)[x] == |Where(trips, AgedRowOf, Some(x))|
  {
    var init := trips[..|trips| - 1];
    var t := trips[|trips| - 1];
    assert forall u :: u in trips <==> u in init || u == t by {
      assert trips == init + [t];
    }
    if Age(t).Some? {
      assert forall x :: multiset(r)[x] == multiset(rows)[x] + if x == RowOf(t) then 1 else 0;
    }
  }

  /** `desc`: the longer trip first, rows with no duration last. */
  predicate LongerFirst(a: AgeRow, b: AgeRow) {
    b.minutes.None? || (a.minutes.Some? && a.minutes.value >= b.minutes.value)
  }

  /** `asc`: rows with no duration first, then the shorter trip first. */
  predicate ShorterFirst(a: AgeRow, b: AgeRow) {
    a.minutes.None? || (b.minutes.Some? && a.minutes.value <= b.minutes.value)
  }

  lemma OrdersArePreorders()
    ensures TotalPreorder(LongerFirst)
    ensures TotalPreorder(ShorterFirst)
  {
  }

  /** `orderBy(desc(...)).limit(10)`. */
  function LongestTrips(trips: seq<Trip>): (r: seq<AgeRow>)
    ensures |r| == Min(10, |AgedRows(trips)|)
    ensures multiset(r) <= multiset(AgedRows(trips))
    ensures forall i, j :: 0 <= i < j < |r| && r[j].minutes.Some? ==>
              r[i].minutes.Some? && r[i].minutes.value >= r[j].minutes.value
    ensures forall x, i :: x in multiset(AgedRows(trips)) - multiset(r) && 0 <= i < |r| && x.minutes.Some? ==>
              r[i].minutes.Some? && r[i].minutes.value >= x.minutes.value
  {
    OrdersArePreorders();
    TopK(AgedRows(trips), 10, LongerFirst)
  }

  /** `orderBy(asc(...)).limit(10)`. */
  function ShortestTrips(trips: seq<Trip>): (r: seq<AgeRow>)
    ensures |r| == Min(10, |AgedRows(trips)|)
    ensures multiset(r) <= multiset(AgedRows(trips))
    ensures forall i, j :: 0 <= i < j < |r| && r[i].minutes.Some? ==>
              r[j].minutes.Some? && r[i].minutes.value <= r[j].minutes.value
    ensures forall x, i :: x in multiset(AgedRows(trips)) - multiset(r) && 0 <= i < |r| && r[i].minutes.Some? ==>
              x.minutes.Some? && r[i].minutes.value <= x.minutes.value
  {
    OrdersArePreorders();
    TopK(AgedRows(trips), 10, ShorterFirst)
  }

  /** Every reported row is the age and duration of some trip that has an age. */
  lemma ExtractsComeFromTrips(trips: seq<Trip>)
    ensures forall r :: r in LongestTrips(trips) ==> exists t :: t in trips && Age(t).Some? && r == RowOf(t)
    ensures forall r :: r in ShortestTrips(trips) ==> exists t :: t in trips && Age(t).Some? && r == RowOf(t)
  {
    var aged := AgedRows(trips);
    forall r | r in LongestTrips(trips) ensures r in aged {
      assert r in multiset(LongestTrips(trips));
    }
    forall r | r in ShortestTrips(trips) ensures r in aged {
      assert r in multiset(ShortestTrips(trips));
    }
  }

  /** With at most ten aged rows, both extracts hold every one of them. */
  lemma SmallInputKeepsAll(trips: seq<Trip>)
    requires |AgedRows(trips)| <= 10
    ensures multiset(LongestTrips(trips)) == multiset(AgedRows(trips))
    ensures multiset(ShortestTrips(trips)) == multiset(AgedRows(trips))
  {
    OrdersArePreorders();
    TopKAll(AgedRows(trips), 10, LongerFirst);
    TopKAll(AgedRows(trips), 10, ShorterFirst);
  }

  /**
   * A trip that ends before it starts is not filtered out: when every aged
   * trip has a duration, the first "shortest" row is at most as long as it,
   * hence negative.
   */
  lemma NegativeDurationKept(trips: seq<Trip>, t: Trip)
    requires t in trips && Age(t).Some?
    requires Duration(t).Some? && Duration(t).value < 0.0
    requires forall u :: u in trips && Age(u).Some? ==> Duration(u).Some?
    ensures |ShortestTrips(trips)| > 0
    ensures ShortestTrips(trips)[0].minutes.Some?
    ensures ShortestTrips(trips)[0].minutes.value <= Duration(t).value < 0.0
  {
    var aged := AgedRows(trips);
    assert RowOf(t) in aged;
    OrdersArePreorders();
    TopKHead(aged, 10, ShorterFirst);
    var r0 := ShortestTrips(trips)[0];
    assert r0 in aged by {
      assert r0 in multiset(ShortestTrips(trips));
    }
    assert ShorterFirst(r0, RowOf(t));
  }

  /** A row with a null duration sorts first under `asc`. */
  lemma NullDurationFirst(trips: seq<Trip>, t: Trip)
    requires t in trips && Age(t).Some? && Duration(t).None?
    ensures |ShortestTrips(trips)| > 0
    ensures ShortestTrips(trips)[0].minutes.None?
  {
    var aged := AgedRows(trips);
    assert RowOf(t) in aged;
    OrdersArePreorders();
    TopKHead(aged, 10, ShorterFirst);
    assert ShorterFirst(ShortestTrips(trips)[0], RowOf(t));
  }

  /**
   * When the two extracts take distinct aged rows (together no row more often
   * than the aged rows hold it), every known duration in the "longest" extract
   * is at least every known duration in the "shortest" one.
   */
  lemma LongestAboveShortest(trips: seq<Trip>, i: nat, j: nat)
    requires multiset(LongestTrips(trips)) + multiset(ShortestTrips(trips)) <= multiset(AgedRows(trips))
    requires i < |LongestTrips(trips)| && j < |ShortestTrips(trips)|
    requires LongestTrips(trips)[i].minutes.Some? && ShortestTrips(trips)[j].minutes.Some?
    ensures LongestTrips(trips)[i].minutes.value >= ShortestTrips(trips)[j].minutes.value
  {
    var longest, shortest := LongestTrips(trips), ShortestTrips(trips);
    var x := shortest[j];
    assert x in multiset(shortest);
    assert (multiset(longest) + multiset(shortest))[x] <= multiset(AgedRows(trips))[x];
    assert x in multiset(AgedRows(trips)) - multiset(longest);
  }

  /** The first "longest" row is at least as long as every aged trip with a duration. */
  lemma LongestHead(trips: seq<Trip>, t: Trip)
    requires t in trips && Age(t).Some? && Duration(t).Some?
    ensures |LongestTrips(trips)| > 0
    ensures LongestTrips(trips)[0].minutes.Some?
    ensures LongestTrips(trips)[0].minutes.value >= Duration(t).value
  {
    var aged := AgedRows(trips);
    assert RowOf(t) in aged;
    OrdersArePreorders();
    TopKHead(aged, 10, LongerFirst);
    assert LongerFirst(LongestTrips(trips)[0], RowOf(t));
  }
}
