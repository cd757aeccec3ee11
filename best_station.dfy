/**
 * `best_start_station_per_month`: trips are counted per (month, year,
 * station); then, per (month, year), the station with the most trips is
 * reported with that count (`max_by("station", "trips")`, `max("trips")`).
 * Trips without a parseable start share the null month.
 *
 * `max_by` does not say which of several stations with the same count it
 * returns; this model returns the first one in group order, and the
 * properties proved hold for any such station.
 */
module BestStation {
  import opened Wrappers
  import opened Civil
  import opened Grouping
  import opened Trips

  /** `month(start)` and `year(start)` together. */
  datatype YearMonth = YearMonth(year: int, month: int)

  function MonthOf(t: Trip): Option<YearMonth> {
    if t.start.Some? then Some(YearMonth(t.start.value.date.year, t.start.value.date.month)) else None
  }

  /** The key of the first `groupBy`. */
  datatype MonthStation = MonthStation(month: Option<YearMonth>, station: string)

  function MonthStationOf(t: Trip): MonthStation {
    MonthStation(MonthOf(t), Station(t))
  }

  function MonthKey(c: Counted<MonthStation>): Option<YearMonth> {
    c.key.month
  }

  /** Number of trips from `station` in `month`. */
  function StationTrips(trips: seq<Trip>, month: Option<YearMonth>, station: string): nat {
    |Where(trips, MonthStationOf, MonthStation(month, station))|
  }

  /** `max_by`: the first entry with the largest count. */
  function FirstMax(cs: seq<Counted<MonthStation>>): (b: Counted<MonthStation>)
    requires |cs| > 0
    ensures b in cs
    ensures forall c :: c in cs ==> c.count <= b.count
  {
    if |cs| == 1 then cs[0]
    else
      var rest := FirstMax(cs[1..]);
      assert forall c :: c in cs ==> c == cs[0] || c in cs[1..];
      if cs[0].count >= rest.count then cs[0] else rest
  }

  /** One output row: `month`, `year`, `best start station`, `trips`. */
  datatype MonthBest = MonthBest(month: Option<YearMonth>, station: string, trips: nat)

  function BestOf(g: Group<Option<YearMonth>, Counted<MonthStation>>): (r: MonthBest)
    requires |g.rows| > 0
    ensures r.month == g.key
  {
    var b := FirstMax(g.rows);
    MonthBest(g.key, b.key.station, b.count)
  }

  function BestStartStationPerMonth(trips: seq<Trip>): (rows: seq<MonthBest>)
    ensures forall i, j :: 0 <= i < j < |rows| ==> rows[i].month != rows[j].month
    ensures forall t :: t in trips ==> exists i :: 0 <= i < |rows| && rows[i].month == MonthOf(t)
  {
    var cs := CountBy(trips, MonthStationOf);
    var gs := GroupBy(cs, MonthKey);
    MonthGroupsNonEmpty(cs, gs);
    var rows := seq(|gs|, i requires 0 <= i < |gs| => BestOf(gs[i]));
    MonthsCovered(trips, cs, gs, rows);
    rows
  }

  lemma MonthGroupsNonEmpty(cs: seq<Counted<MonthStation>>, gs: seq<Group<Option<YearMonth>, Counted<MonthStation>>>)
    requires gs == GroupBy(cs, MonthKey)
    ensures forall i :: 0 <= i < |gs| ==> |gs[i].rows| > 0
  {
    forall i | 0 <= i < |gs| ensures |gs[i].rows| > 0 {
      KeyHasRow(cs, MonthKey, gs[i].key);
    }
  }

  lemma MonthsCovered(trips: seq<Trip>, cs: seq<Counted<MonthStation>>,
                      gs: seq<Group<Option<YearMonth>, Counted<MonthStation>>>, rows: seq<MonthBest>)
    requires cs == CountBy(trips, MonthStationOf)
    requires gs == GroupBy(cs, MonthKey)
    requires |rows| == |gs| && forall i :: 0 <= i < |gs| ==> rows[i].month == gs[i].key
    ensures forall t :: t in trips ==> exists i :: 0 <= i < |rows| && rows[i].month == MonthOf(t)
  {
    forall t | t in trips ensures exists i :: 0 <= i < |rows| && rows[i].month == MonthOf(t) {
      var j :| 0 <= j < |cs| && cs[j].key == MonthStationOf(t);
      assert cs[j] in cs;
      var i :| 0 <= i < |gs| && gs[i].key == MonthKey(cs[j]);
      assert rows[i].month == MonthOf(t);
    }
  }

  /**
   * Each month reports a station that was used that month, with its exact
   * number of trips, and no station of that month has more trips.
   */
  lemma BestIsMax(trips: seq<Trip>, i: nat)
    requires i < |BestStartStationPerMonth(trips)|
    ensures var r := BestStartStationPerMonth(trips)[i];
      && r.trips == StationTrips(trips, r.month, r.station) > 0
      && (exists t :: t in trips && MonthOf(t) == r.month && Station(t) == r.station)
      && (forall t :: t in trips && MonthOf(t) == r.month ==> StationTrips(trips, r.month, Station(t)) <= r.trips)
  {
    var cs := CountBy(trips, MonthStationOf);
    var gs := GroupBy(cs, MonthKey);
    var r := BestStartStationPerMonth(trips)[i];
    var g := gs[i];
    KeyHasRow(cs, MonthKey, g.key);
    assert r == BestOf(g);
    var b := FirstMax(g.rows);
    WhereMembers(cs, MonthKey, g.key);
    assert b in cs && MonthKey(b) == g.key;
    var jb :| 0 <= jb < |cs| && cs[jb] == b;
    assert b.key == MonthStation(r.month, r.station);
    var w := Where(trips, MonthStationOf, b.key);
    assert |w| > 0 && w[0] in w;
    WhereMembers(trips, MonthStationOf, b.key);
    assert w[0] in trips && MonthStationOf(w[0]) == b.key;
    forall t | t in trips && MonthOf(t) == r.month
      ensures StationTrips(trips, r.month, Station(t)) <= r.trips
    {
      var j :| 0 <= j < |cs| && cs[j].key == MonthStationOf(t);
      assert cs[j] in cs && MonthKey(cs[j]) == g.key;
      assert cs[j] in g.rows;
    }
  }

  /** The worked example: in January 2023 station "A" has two trips and "B" one. */
  const Jan: Date := CivilDate(2023, 1, 5)

  const ExampleTrips: seq<Trip> := [
    Trip(Some(Timestamp(Jan, 8, 0, 0)), None, "A", None, None),
    Trip(Some(Timestamp(Jan, 9, 0, 0)), None, "B", None, None),
    Trip(Some(Timestamp(Jan, 10, 0, 0)), None, "A", None, None)]

  lemma ExampleCounts()
    ensures StationTrips(ExampleTrips, Some(YearMonth(2023, 1)), "A") == 2
    ensures StationTrips(ExampleTrips, Some(YearMonth(2023, 1)), "B") == 1
  {
    var m := Some(YearMonth(2023, 1));
    var t0, t1, t2 := ExampleTrips[0], ExampleTrips[1], ExampleTrips[2];
    var one: seq<Trip> := [t0];
    var two: seq<Trip> := [t0, t1];
    assert ExampleTrips[..2] == two && two[..1] == one && one[..0] == [];
    assert MonthStationOf(t0) == MonthStation(m, "A");
    assert MonthStationOf(t1) == MonthStation(m, "B");
    assert MonthStationOf(t2) == MonthStation(m, "A");
    assert Where(one, MonthStationOf, MonthStation(m, "A")) == [t0];
    assert Where(two, MonthStationOf, MonthStation(m, "A")) == [t0];
    assert Where(ExampleTrips, MonthStationOf, MonthStation(m, "A")) == [t0, t2];
    assert Where(one, MonthStationOf, MonthStation(m, "B")) == [];
    assert Where(two, MonthStationOf, MonthStation(m, "B")) == [t1];
    assert Where(ExampleTrips, MonthStationOf, MonthStation(m, "B")) == [t1];
  }

  lemma ExampleOneMonth(i: nat)
    requires i < |BestStartStationPerMonth(ExampleTrips)|
    ensures BestStartStationPerMonth(ExampleTrips)[i].month == Some(YearMonth(2023, 1))
  {
    BestIsMax(ExampleTrips, i);
  }

  lemma BestExample()
    ensures |BestStartStationPerMonth(ExampleTrips)| == 1
    ensures BestStartStationPerMonth(ExampleTrips)[0] == MonthBest(Some(YearMonth(2023, 1)), "A", 2)
  {
    var rows := BestStartStationPerMonth(ExampleTrips);
    var m := Some(YearMonth(2023, 1));
    assert ExampleTrips[0] in ExampleTrips;
    assert |rows| > 0;
    if |rows| > 1 {
      ExampleOneMonth(0);
      ExampleOneMonth(1);
    }
    ExampleOneMonth(0);
    BestIsMax(ExampleTrips, 0);
    ExampleCounts();
    assert StationTrips(ExampleTrips, m, Station(ExampleTrips[0])) <= rows[0].trips;
    var t :| t in ExampleTrips && MonthOf(t) == m && Station(t) == rows[0].station;
    assert Station(t) == "A" || Station(t) == "B";
  }
}
