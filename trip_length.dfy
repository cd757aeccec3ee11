/**
 * `average_trip_length`: the mean trip duration in minutes for each calendar
 * date of the start time. Trips without a parseable start form one group of
 * their own (day null), as `groupBy` does with a null key.
 */
module TripLength {
  import opened Wrappers
  import opened Civil
  import opened Grouping
  import opened Trips

  /** One output row: `day`, `avg trip length per day (minutes)`. */
  datatype DayAverage = DayAverage(day: Option<Date>, avg: Option<real>)

  function AverageTripLength(trips: seq<Trip>): (rows: seq<DayAverage>)
    ensures forall i, j :: 0 <= i < j < |rows| ==> rows[i].day != rows[j].day
    ensures forall t :: t in trips ==> exists i :: 0 <= i < |rows| && rows[i].day == StartDate(t)
    ensures forall i :: 0 <= i < |rows| ==> rows[i].day in Keys(trips, StartDate)
    ensures forall i :: 0 <= i < |rows| ==>
              rows[i].avg == Mean(Durations(Where(trips, StartDate, rows[i].day)))
  {
    var gs := GroupBy(trips, StartDate);
    var rows := seq(|gs|, i requires 0 <= i < |gs| => DayAverage(gs[i].key, Mean(Durations(gs[i].rows))));
    DayRows(trips, gs, rows);
    rows
  }

  lemma DayRows(trips: seq<Trip>, gs: seq<Group<Option<Date>, Trip>>, rows: seq<DayAverage>)
    requires gs == GroupBy(trips, StartDate)
    requires |rows| == |gs|
    requires forall i :: 0 <= i < |gs| ==> rows[i] == DayAverage(gs[i].key, Mean(Durations(gs[i].rows)))
    ensures forall i, j :: 0 <= i < j < |rows| ==> rows[i].day != rows[j].day
    ensures forall t :: t in trips ==> exists i :: 0 <= i < |rows| && rows[i].day == StartDate(t)
    ensures forall i :: 0 <= i < |rows| ==> rows[i].day in Keys(trips, StartDate)
    ensures forall i :: 0 <= i < |rows| ==>
              rows[i].avg == Mean(Durations(Where(trips, StartDate, rows[i].day)))
  {
    forall t | t in trips ensures exists i :: 0 <= i < |rows| && rows[i].day == StartDate(t) {
      var i :| 0 <= i < |gs| && gs[i].key == StartDate(t);
      assert rows[i].day == StartDate(t);
    }
  }

  /**
   * Each reported average is the sum of the known durations of exactly the
   * trips starting that day divided by their number; it is null when no such
   * trip has a known duration.
   */
  lemma DayAverageIsMean(trips: seq<Trip>, i: nat)
    requires i < |AverageTripLength(trips)|
    ensures var r := AverageTripLength(trips)[i];
      && (r.avg.None? <==> DurationCount(trips, StartDate, r.day) == 0)
      && (r.avg.Some? ==>
            DurationCount(trips, StartDate, r.day) > 0
            && r.avg.value == DurationSum(trips, StartDate, r.day) / DurationCount(trips, StartDate, r.day) as real)
  {
    GroupMean(trips, StartDate, AverageTripLength(trips)[i].day);
  }

  /** The worked example: two trips on 2023-01-01, of 10 and 20 minutes. */
  const ExampleDay: Date := CivilDate(2023, 1, 1)

  const ExampleTrips: seq<Trip> := [
    Trip(Some(Timestamp(ExampleDay, 8, 0, 0)), Some(Timestamp(ExampleDay, 8, 10, 0)), "A", None, None),
    Trip(Some(Timestamp(ExampleDay, 9, 0, 0)), Some(Timestamp(ExampleDay, 9, 20, 0)), "B", None, None)]

  lemma ExampleSums()
    ensures DurationCount(ExampleTrips, StartDate, Some(ExampleDay)) == 2
    ensures DurationSum(ExampleTrips, StartDate, Some(ExampleDay)) == 30.0
  {
    var t1 := ExampleTrips[0];
    assert Duration(t1) == Some(10.0);
    assert Duration(ExampleTrips[1]) == Some(20.0);
    assert ExampleTrips[..1] == [t1];
    assert [t1][..0] == [];
    assert DurationCount([t1], StartDate, Some(ExampleDay)) == 1;
    assert DurationSum([t1], StartDate, Some(ExampleDay)) == 10.0;
  }

  lemma ExampleOneDay()
    ensures Distinct(Keys(ExampleTrips, StartDate)) == [Some(ExampleDay)]
  {
    var ks: seq<Option<Date>> := Keys(ExampleTrips, StartDate);
    assert ks == [Some(ExampleDay), Some(ExampleDay)];
    var first: seq<Option<Date>> := ks[..1];
    assert first == [Some(ExampleDay)];
    assert first[..0] == [];
    assert Distinct(first[..0]) == [];
    assert Distinct(first) == [Some(ExampleDay)];
    assert ks[..|ks| - 1] == first;
  }

  lemma AverageExample()
    ensures AverageTripLength(ExampleTrips) == [DayAverage(Some(ExampleDay), Some(15.0))]
  {
    var rows := AverageTripLength(ExampleTrips);
    ExampleOneDay();
    assert |rows| == 1;
    assert rows[0].day == Some(ExampleDay);
    ExampleSums();
    DayAverageIsMean(ExampleTrips, 0);
  }
}
