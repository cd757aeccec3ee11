/**
 * `best_three_stations_in_two_weeks`: the latest start date `max_date` of the
 * whole relation, the window start `max_date - 14 days`, and the three
 * stations with the most trips starting on or after that day. The count
 * column is named after both dates.
 *
 * The report fails where the program raises: with no parseable start date
 * `max_date` is null and the subtraction raises `TypeError`; a window start
 * before 0001-01-01 raises `OverflowError`.
 */
module TwoWeekLeaders {
  import opened Wrappers
  import opened Civil
  import opened Grouping
  import opened Trips
  import opened Sorting

  /** `agg(max("date"))`: the latest non-null date, null when there is none. */
  function MaxDate(ds: seq<Option<Date>>): (m: Option<Date>)
    ensures m.None? <==> forall i :: 0 <= i < |ds| ==> ds[i].None?
    ensures m.Some? ==> m in ds
    ensures m.Some? ==> forall i :: 0 <= i < |ds| && ds[i].Some? ==> Ordinal(ds[i].value) <= Ordinal(m.value)
    decreases |ds|
  {
    if ds == [] then None
    else
      var init := ds[..|ds| - 1];
      var m := MaxDate(init);
      var x := ds[|ds| - 1];
      assert forall i :: 0 <= i < |init| ==> ds[i] == init[i];
      assert m.Some? ==> m in ds by {
        if m.Some? {
          var j :| 0 <= j < |init| && init[j] == m;
          assert ds[j] == m;
        }
      }
      if x.None? then m
      else if m.None? || Ordinal(m.value) < Ordinal(x.value) then x
      else m
  }

  /** `filter(col("date") >= date_before)`; a null date never passes. */
  predicate InWindow(t: Trip, from: Date) {
    StartDate(t).Some? && Ordinal(StartDate(t).value) >= Ordinal(from)
  }

  function Windowed(trips: seq<Trip>, from: Date): (w: seq<Trip>)
    ensures forall t :: t in w <==> t in trips && InWindow(t, from)
    ensures forall t :: multiset(w)[t] == if InWindow(t, from) then multiset(trips)[t] else 0
    decreases |trips|
  {
    if trips == [] then []
    else
      var init := trips[..|trips| - 1];
      var t := trips[|trips| - 1];
      assert trips == init + [t];
      var w := Windowed(init, from);
      if InWindow(t, from) then w + [t] else w
  }

  /** One output row: `station_leaders` and the trip count. */
  datatype Leader = Leader(station: string, trips: nat)

  /** `desc` on the count column. */
  predicate MoreTrips(a: Leader, b: Leader) {
    a.trips >= b.trips
  }

  lemma MoreTripsPreorder()
    ensures TotalPreorder(MoreTrips)
  {
  }

  datatype Leaders = Leaders(from: Date, to: Date, column: string, rows: seq<Leader>)

  /** `"trips_from_" + date_before_str + "_to_" + max_date_str`. */
  function ColumnName(from: Date, to: Date): (s: string)
    ensures |s| == 35
  {
    "trips_from_" + FormatDate(from) + "_to_" + FormatDate(to)
  }

  /** Number of trips from `station` inside the window starting at `from`. */
  function WindowTrips(trips: seq<Trip>, from: Date, station: string): nat {
    |Where(Windowed(trips, from), Station, station)|
  }

  /** `groupBy(station).agg(count(station))` over the window. */
  function StationCounts(trips: seq<Trip>, from: Date): (ls: seq<Leader>)
    ensures forall i, j :: 0 <= i < j < |ls| ==> ls[i].station != ls[j].station
    ensures forall i :: 0 <= i < |ls| ==> ls[i].trips == WindowTrips(trips, from, ls[i].station) > 0
    ensures forall t :: t in trips && InWindow(t, from) ==>
              exists i :: 0 <= i < |ls| && ls[i].station == Station(t)
  {
    var w := Windowed(trips, from);
    var cs := CountBy(w, Station);
    var ls := seq(|cs|, i requires 0 <= i < |cs| => Leader(cs[i].key, cs[i].count));
    LeadersOfCounts(w, cs, ls);
    ls
  }

  /** The leader rows made from the station counts of `w`. */
  lemma LeadersOfCounts(w: seq<Trip>, cs: seq<Counted<string>>, ls: seq<Leader>)
    requires cs == CountBy(w, Station)
    requires |ls| == |cs| && forall i :: 0 <= i < |cs| ==> ls[i] == Leader(cs[i].key, cs[i].count)
    ensures forall i, j :: 0 <= i < j < |ls| ==> ls[i].station != ls[j].station
    ensures forall i :: 0 <= i < |ls| ==> ls[i].trips == |Where(w, Station, ls[i].station)| > 0
    ensures forall t :: t in w ==> exists i :: 0 <= i < |ls| && ls[i].station == Station(t)
  {
    forall t | t in w ensures exists i :: 0 <= i < |ls| && ls[i].station == Station(t) {
      var i :| 0 <= i < |cs| && cs[i].key == Station(t);
      assert ls[i].station == Station(t);
    }
  }

  function BestThreeStationsInTwoWeeks(trips: seq<Trip>): (r: Result<Leaders, Failure>)
    ensures r.Failure? ==> r.error == NoStartDate || r.error == DateOutOfRange
  {
    var maxDate := MaxDate(Keys(trips, StartDate));
    if maxDate.None? then Failure(NoStartDate)
    else
      match SubDays(maxDate.value, 14)
      case None => Failure(DateOutOfRange)
      case Some(from) =>
        MoreTripsPreorder();
        var to := maxDate.value;
        Success(Leaders(from, to, ColumnName(from, to), TopK(StationCounts(trips, from), 3, MoreTrips)))
  }

  /** The report fails for want of a start date exactly when no trip has one. */
  lemma NoStartDateIff(trips: seq<Trip>)
    ensures BestThreeStationsInTwoWeeks(trips) == Failure(NoStartDate) <==>
              forall t :: t in trips ==> StartDate(t).None?
  {
    var ks := Keys(trips, StartDate);
    if forall t :: t in trips ==> StartDate(t).None? {
      assert forall i :: 0 <= i < |ks| ==> ks[i].None? by {
        forall i | 0 <= i < |ks| ensures ks[i].None? {
          assert trips[i] in trips;
        }
      }
    } else {
      var t :| t in trips && StartDate(t).Some?;
      var i :| 0 <= i < |trips| && trips[i] == t;
      assert ks[i].Some?;
    }
  }

  predicate Reported(rows: seq<Leader>, station: string) {
    exists k :: 0 <= k < |rows| && rows[k].station == station
  }

  /** How a successful result is made. */
  lemma SuccessParts(trips: seq<Trip>)
    requires BestThreeStationsInTwoWeeks(trips).Success?
    ensures var l := BestThreeStationsInTwoWeeks(trips).value;
      && MaxDate(Keys(trips, StartDate)) == Some(l.to)
      && SubDays(l.to, 14) == Some(l.from)
      && l.column == ColumnName(l.from, l.to)
      && TotalPreorder(MoreTrips)
      && l.rows == TopK(StationCounts(trips, l.from), 3, MoreTrips)
  {
    MoreTripsPreorder();
  }

  /** `MaxDate` over the start dates is the latest start date of a trip. */
  lemma MaxStartDate(trips: seq<Trip>, to: Date)
    requires MaxDate(Keys(trips, StartDate)) == Some(to)
    ensures exists t :: t in trips && StartDate(t) == Some(to)
    ensures forall t :: t in trips && StartDate(t).Some? ==> Ordinal(StartDate(t).value) <= Ordinal(to)
  {
    var ks := Keys(trips, StartDate);
    var j :| 0 <= j < |ks| && ks[j] == Some(to);
    assert trips[j] in trips;
    forall t | t in trips && StartDate(t).Some? ensures Ordinal(StartDate(t).value) <= Ordinal(to) {
      var i :| 0 <= i < |trips| && trips[i] == t;
      assert ks[i] == StartDate(t);
    }
  }

  /**
   * On success `to` is the latest start date, `from` lies 14 days before it,
   * and the count column is named after both.
   */
  lemma WindowBounds(trips: seq<Trip>)
    requires BestThreeStationsInTwoWeeks(trips).Success?
    ensures var l := BestThreeStationsInTwoWeeks(trips).value;
      && (exists t :: t in trips && StartDate(t) == Some(l.to))
      && (forall t :: t in trips && StartDate(t).Some? ==> Ordinal(StartDate(t).value) <= Ordinal(l.to))
      && Ordinal(l.from) == Ordinal(l.to) - 14
      && l.column == ColumnName(l.from, l.to)
  {
    SuccessParts(trips);
    MaxStartDate(trips, BestThreeStationsInTwoWeeks(trips).value.to);
  }

  /** The window start precedes 0001-01-01 exactly when the latest date is within its first 14 days. */
  lemma OutOfRangeIff(trips: seq<Trip>)
    ensures BestThreeStationsInTwoWeeks(trips) == Failure(DateOutOfRange) <==>
              exists t :: t in trips && StartDate(t).Some? && Ordinal(StartDate(t).value) <= 14
                && forall u :: u in trips && StartDate(u).Some? ==> Ordinal(StartDate(u).value) <= 14
  {
    var ks := Keys(trips, StartDate);
    var m := MaxDate(ks);
    if m.Some? {
      var j :| 0 <= j < |ks| && ks[j] == m;
      assert trips[j] in trips && StartDate(trips[j]) == m;
      forall u | u in trips && StartDate(u).Some? ensures Ordinal(StartDate(u).value) <= Ordinal(m.value) {
        var i :| 0 <= i < |trips| && trips[i] == u;
        assert ks[i] == StartDate(u);
      }
    } else {
      forall t | t in trips ensures StartDate(t).None? {
        var i :| 0 <= i < |trips| && trips[i] == t;
        assert ks[i] == StartDate(t);
      }
    }
  }

  /** Every counted trip starts within the window, ending on the latest date. */
  lemma CountedTripsInWindow(trips: seq<Trip>)
    requires BestThreeStationsInTwoWeeks(trips).Success?
    ensures var l := BestThreeStationsInTwoWeeks(trips).value;
      forall t :: t in Windowed(trips, l.from) ==>
        Ordinal(l.from) <= Ordinal(StartDate(t).value) <= Ordinal(l.to)
  {
    WindowBounds(trips);
  }

  /**
   * At most three rows, each a distinct station with its exact number of
   * trips in the window, sorted by descending count; no station left out had
   * more trips than a station kept.
   */
  lemma LeaderRows(trips: seq<Trip>)
    requires BestThreeStationsInTwoWeeks(trips).Success?
    ensures var l := BestThreeStationsInTwoWeeks(trips).value;
      && |l.rows| == Min(3, |StationCounts(trips, l.from)|)
      && (forall i, j :: 0 <= i < j < |l.rows| ==> l.rows[i].trips >= l.rows[j].trips)
      && (forall i, j :: 0 <= i < j < |l.rows| ==> l.rows[i].station != l.rows[j].station)
      && (forall i :: 0 <= i < |l.rows| ==> l.rows[i].trips == WindowTrips(trips, l.from, l.rows[i].station) > 0)
      && (forall t, i :: t in trips && InWindow(t, l.from) && !Reported(l.rows, Station(t)) && 0 <= i < |l.rows| ==>
            WindowTrips(trips, l.from, Station(t)) <= l.rows[i].trips)
  {
    SuccessParts(trips);
    var l := BestThreeStationsInTwoWeeks(trips).value;
    TopThree(trips, l.from, l.rows);
  }

  lemma TopThree(trips: seq<Trip>, from: Date, rows: seq<Leader>)
    requires TotalPreorder(MoreTrips)
    requires rows == TopK(StationCounts(trips, from), 3, MoreTrips)
    ensures |rows| == Min(3, |StationCounts(trips, from)|)
    ensures forall i, j :: 0 <= i < j < |rows| ==> rows[i].trips >= rows[j].trips
    ensures forall i, j :: 0 <= i < j < |rows| ==> rows[i].station != rows[j].station
    ensures forall i :: 0 <= i < |rows| ==> rows[i].trips == WindowTrips(trips, from, rows[i].station) > 0
    ensures forall t, i :: t in trips && InWindow(t, from) && !Reported(rows, Station(t)) && 0 <= i < |rows| ==>
              WindowTrips(trips, from, Station(t)) <= rows[i].trips
  {
    var ls := StationCounts(trips, from);
    KeptRows(ls, rows);
    forall t, i | t in trips && InWindow(t, from) && !Reported(rows, Station(t)) && 0 <= i < |rows|
      ensures WindowTrips(trips, from, Station(t)) <= rows[i].trips
    {
      var j :| 0 <= j < |ls| && ls[j].station == Station(t);
      assert ls[j] in multiset(ls);
      assert ls[j] !in multiset(rows);
      assert ls[j] in multiset(ls) - multiset(rows);
    }
  }

  /** The rows kept from a relation with distinct stations keep their counts and are distinct. */
  lemma KeptRows(ls: seq<Leader>, rows: seq<Leader>)
    requires forall i, j :: 0 <= i < j < |ls| ==> ls[i].station != ls[j].station
    requires multiset(rows) <= multiset(ls)
    ensures forall i :: 0 <= i < |rows| ==> rows[i] in ls
    ensures forall i, j :: 0 <= i < j < |rows| ==> rows[i].station != rows[j].station
  {
    forall i | 0 <= i < |rows| ensures rows[i] in ls {
      assert rows[i] in multiset(rows);
    }
    forall i, j | 0 <= i < j < |rows| ensures rows[i].station != rows[j].station {
      if rows[i].station == rows[j].station {
        assert rows[i] in multiset(rows) && rows[j] in multiset(rows);
        var a :| 0 <= a < |ls| && ls[a] == rows[i];
        var b :| 0 <= b < |ls| && ls[b] == rows[j];
        assert a == b;
        TwiceCounted(rows, i, j);
        AtMostOnce(ls, a);
        assert false;
      }
    }
  }

  lemma TwiceCounted(s: seq<Leader>, i: nat, j: nat)
    requires i < j < |s| && s[i] == s[j]
    ensures multiset(s)[s[i]] >= 2
  {
    var x := s[i];
    assert s == s[..i] + [x] + s[i + 1..j] + [x] + s[j + 1..];
  }

  lemma AtMostOnce(s: seq<Leader>, a: nat)
    requires forall i, j :: 0 <= i < j < |s| ==> s[i].station != s[j].station
    requires a < |s|
    ensures multiset(s)[s[a]] == 1
  {
    var x := s[a];
    assert s == s[..a] + [x] + s[a + 1..];
    assert x !in s[..a] by {
      forall k | 0 <= k < a ensures s[..a][k] != x {
        assert s[k].station != s[a].station;
      }
    }
    assert x !in s[a + 1..] by {
      forall k | a + 1 <= k < |s| ensures s[k] != x {
        assert s[a].station != s[k].station;
      }
    }
  }

  /** Both dates can be read back from the count column's name. */
  lemma ColumnNameDates(from: Date, to: Date)
    ensures ColumnName(from, to)[..11] == "trips_from_"
    ensures ParseDate(ColumnName(from, to)[11..21]) == Some(from)
    ensures ColumnName(from, to)[21..25] == "_to_"
    ensures ParseDate(ColumnName(from, to)[25..]) == Some(to)
  {
    var s := ColumnName(from, to);
    assert s[11..21] == FormatDate(from);
    assert s[25..] == FormatDate(to);
    ParseFormatDate(from);
    ParseFormatDate(to);
  }
}
