/**
 * `number_of_trips_in_a_day`: the number of trips per calendar date of the
 * start time (`groupBy(to_date(start)).count()`).
 */
module TripsPerDay {
  import opened Wrappers
  import opened Civil
  import opened Grouping
  import opened Trips
  import TripLength

  /** One output row: `day`, `trips`. */
  datatype DayCount = DayCount(day: Option<Date>, trips: nat)

  function NumberOfTripsInADay(trips: seq<Trip>): (rows: seq<DayCount>)
    ensures forall i, j :: 0 <= i < j < |rows| ==> rows[i].day != rows[j].day
    ensures forall t :: t in trips ==> exists i :: 0 <= i < |rows| && rows[i].day == StartDate(t)
    ensures forall i :: 0 <= i < |rows| ==> rows[i].trips == |Where(trips, StartDate, rows[i].day)| > 0
  {
    var cs := CountBy(trips, StartDate);
    var rows := seq(|cs|, i requires 0 <= i < |cs| => DayCount(cs[i].key, cs[i].count));
    forall t | t in trips ensures exists i :: 0 <= i < |rows| && rows[i].day == StartDate(t) {
      var i :| 0 <= i < |cs| && cs[i].key == StartDate(t);
      assert rows[i].day == StartDate(t);
    }
    rows
  }

  function TotalTrips(rows: seq<DayCount>): nat {
    if rows == [] then 0 else rows[0].trips + TotalTrips(rows[1..])
  }

  lemma {:induction false} TotalTripsOfCounts(rows: seq<DayCount>, cs: seq<Counted<Option<Date>>>)
    requires |rows| == |cs|
    requires forall i :: 0 <= i < |rows| ==> rows[i].trips == cs[i].count
    ensures TotalTrips(rows) == SumCounts(cs)
  {
    if rows != [] {
      TotalTripsOfCounts(rows[1..], cs[1..]);
    }
  }

  /** The daily counts add up to the number of trips: none is lost or counted twice. */
  lemma TripsPerDayTotal(trips: seq<Trip>)
    ensures TotalTrips(NumberOfTripsInADay(trips)) == |trips|
  {
    var cs := CountBy(trips, StartDate);
    TotalTripsOfCounts(NumberOfTripsInADay(trips), cs);
    CountBySum(trips, StartDate);
  }

  /** The worked example: both example trips start on 2023-01-01. */
  lemma TripsPerDayExample()
    ensures NumberOfTripsInADay(TripLength.ExampleTrips) == [DayCount(Some(TripLength.ExampleDay), 2)]
  {
    var rows := NumberOfTripsInADay(TripLength.ExampleTrips);
    TripLength.ExampleOneDay();
    assert |rows| == 1;
    assert rows[0].day == Some(TripLength.ExampleDay);
    TripsPerDayTotal(TripLength.ExampleTrips);
    assert TotalTrips(rows) == rows[0].trips + TotalTrips(rows[1..]);
  }
}
