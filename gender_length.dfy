/**
 * `gender_average_trip_length`: the mean trip duration per gender. `groupBy`
 * forms a group for the trips without a gender too; `na.drop` then removes
 * that one row.
 */
module GenderLength {
  import opened Wrappers
  import opened Civil
  import opened Grouping
  import opened Trips

  function GenderOf(t: Trip): Option<string> {
    t.gender
  }

  /** One output row: `gender`, `avg trip length per gender (minutes)`. */
  datatype GenderAverage = GenderAverage(gender: string, avg: Option<real>)

  function RowOf(g: Group<Option<string>, Trip>): GenderAverage
    requires g.key.Some?
  {
    GenderAverage(g.key.value, Mean(Durations(g.rows)))
  }

  /** `na.drop(subset=["gender"])` over the aggregated groups. */
  function DropNullGender(gs: seq<Group<Option<string>, Trip>>): (rows: seq<GenderAverage>)
    ensures forall r :: r in rows <==> exists i :: 0 <= i < |gs| && gs[i].key.Some? && r == RowOf(gs[i])
    ensures forall i :: 0 <= i < |rows| ==> exists j :: 0 <= j < |gs| && gs[j].key == Some(rows[i].gender)
    ensures (forall i, j :: 0 <= i < j < |gs| ==> gs[i].key != gs[j].key) ==>
              forall i, j :: 0 <= i < j < |rows| ==> rows[i].gender != rows[j].gender
    decreases |gs|
  {
    if gs == [] then []
    else
      var init := gs[..|gs| - 1];
      var g := gs[|gs| - 1];
      var rows := DropNullGender(init);
      assert forall i :: 0 <= i < |init| ==> init[i] == gs[i];
      if g.key.Some? then
        var r := rows + [RowOf(g)];
        assert forall i :: 0 <= i < |rows| ==> r[i] == rows[i];
        r
      else rows
  }

  function GenderAverageTripLength(trips: seq<Trip>): (rows: seq<GenderAverage>)
    ensures forall i, j :: 0 <= i < j < |rows| ==> rows[i].gender != rows[j].gender
    ensures forall t :: t in trips && t.gender.Some? ==> exists i :: 0 <= i < |rows| && rows[i].gender == t.gender.value
    ensures forall i :: 0 <= i < |rows| ==> exists t :: t in trips && t.gender == Some(rows[i].gender)
    ensures forall i :: 0 <= i < |rows| ==>
              rows[i].avg == Mean(Durations(Where(trips, GenderOf, Some(rows[i].gender))))
  {
    var gs := GroupBy(trips, GenderOf);
    var rows := DropNullGender(gs);
    GenderRows(trips, gs, rows);
    rows
  }

  lemma GenderRows(trips: seq<Trip>, gs: seq<Group<Option<string>, Trip>>, rows: seq<GenderAverage>)
    requires gs == GroupBy(trips, GenderOf)
    requires rows == DropNullGender(gs)
    ensures forall i, j :: 0 <= i < j < |rows| ==> rows[i].gender != rows[j].gender
    ensures forall t :: t in trips && t.gender.Some? ==> exists i :: 0 <= i < |rows| && rows[i].gender == t.gender.value
    ensures forall i :: 0 <= i < |rows| ==> exists t :: t in trips && t.gender == Some(rows[i].gender)
    ensures forall i :: 0 <= i < |rows| ==>
              rows[i].avg == Mean(Durations(Where(trips, GenderOf, Some(rows[i].gender))))
  {
    GenderRowsCover(trips, gs, rows);
    GenderRowsFromGroups(trips, gs, rows);
  }

  lemma GenderRowsCover(trips: seq<Trip>, gs: seq<Group<Option<string>, Trip>>, rows: seq<GenderAverage>)
    requires gs == GroupBy(trips, GenderOf)
    requires rows == DropNullGender(gs)
    ensures forall t :: t in trips && t.gender.Some? ==> exists i :: 0 <= i < |rows| && rows[i].gender == t.gender.value
  {
    forall t | t in trips && t.gender.Some? ensures exists i :: 0 <= i < |rows| && rows[i].gender == t.gender.value {
      var j :| 0 <= j < |gs| && gs[j].key == GenderOf(t);
      assert RowOf(gs[j]) in rows;
      var i :| 0 <= i < |rows| && rows[i] == RowOf(gs[j]);
    }
  }

  lemma GenderRowsFromGroups(trips: seq<Trip>, gs: seq<Group<Option<string>, Trip>>, rows: seq<GenderAverage>)
    requires gs == GroupBy(trips, GenderOf)
    requires rows == DropNullGender(gs)
    ensures forall i :: 0 <= i < |rows| ==> exists t :: t in trips && t.gender == Some(rows[i].gender)
    ensures forall i :: 0 <= i < |rows| ==>
              rows[i].avg == Mean(Durations(Where(trips, GenderOf, Some(rows[i].gender))))
  {
    forall i | 0 <= i < |rows|
      ensures (exists t :: t in trips && t.gender == Some(rows[i].gender))
      ensures rows[i].avg == Mean(Durations(Where(trips, GenderOf, Some(rows[i].gender))))
    {
      GenderRowFromGroup(trips, gs, rows, i);
    }
  }

  lemma GenderRowFromGroup(trips: seq<Trip>, gs: seq<Group<Option<string>, Trip>>, rows: seq<GenderAverage>, i: nat)
    requires gs == GroupBy(trips, GenderOf)
    requires rows == DropNullGender(gs)
    requires i < |rows|
    ensures exists t :: t in trips && t.gender == Some(rows[i].gender)
    ensures rows[i].avg == Mean(Durations(Where(trips, GenderOf, Some(rows[i].gender))))
  {
    assert rows[i] in rows;
    var j :| 0 <= j < |gs| && gs[j].key.Some? && rows[i] == RowOf(gs[j]);
    var k :| 0 <= k < |trips| && Keys(trips, GenderOf)[k] == gs[j].key;
    assert trips[k] in trips;
  }

  /** Each gender's value is the sum of its known durations over their number. */
  lemma GenderAverageIsMean(trips: seq<Trip>, i: nat)
    requires i < |GenderAverageTripLength(trips)|
    ensures var r := GenderAverageTripLength(trips)[i];
      && (r.avg.None? <==> DurationCount(trips, GenderOf, Some(r.gender)) == 0)
      && (r.avg.Some? ==>
            DurationCount(trips, GenderOf, Some(r.gender)) > 0
            && r.avg.value == DurationSum(trips, GenderOf, Some(r.gender)) / DurationCount(trips, GenderOf, Some(r.gender)) as real)
  {
    GroupMean(trips, GenderOf, Some(GenderAverageTripLength(trips)[i].gender));
  }

  /** No row is reported for a null gender, even when every trip lacks one. */
  lemma NoGenderNoRows(trips: seq<Trip>)
    requires forall t :: t in trips ==> t.gender.None?
    ensures GenderAverageTripLength(trips) == []
  {
    var gs := GroupBy(trips, GenderOf);
    forall i | 0 <= i < |gs| ensures gs[i].key.None? {
      var k :| 0 <= k < |trips| && Keys(trips, GenderOf)[k] == gs[i].key;
      assert trips[k] in trips;
    }
    DropAllNull(gs);
  }

  lemma {:induction false} DropAllNull(gs: seq<Group<Option<string>, Trip>>)
    requires forall i :: 0 <= i < |gs| ==> gs[i].key.None?
    ensures DropNullGender(gs) == []
    decreases |gs|
  {
    if gs != [] {
      DropAllNull(gs[..|gs| - 1]);
    }
  }

  /** The worked example: 10 minutes for "M", 20 for "F", 5 with no gender. */
  const Day: Date := CivilDate(2023, 1, 1)

  const ExampleTrips: seq<Trip> := [
    Trip(Some(Timestamp(Day, 8, 0, 0)), Some(Timestamp(Day, 8, 10, 0)), "A", Some("M"), None),
    Trip(Some(Timestamp(Day, 9, 0, 0)), Some(Timestamp(Day, 9, 20, 0)), "A", Some("F"), None),
    Trip(Some(Timestamp(Day, 10, 0, 0)), Some(Timestamp(Day, 10, 5, 0)), "A", None, None)]

  lemma ExampleGroups()
    ensures Where(ExampleTrips, GenderOf, Some("M")) == [ExampleTrips[0]]
    ensures Where(ExampleTrips, GenderOf, Some("F")) == [ExampleTrips[1]]
  {
    var t0, t1 := ExampleTrips[0], ExampleTrips[1];
    var one: seq<Trip> := [t0];
    var two: seq<Trip> := [t0, t1];
    assert ExampleTrips[..2] == two && two[..1] == one && one[..0] == [];
    assert Where(one, GenderOf, Some("M")) == [t0];
    assert Where(one, GenderOf, Some("F")) == [];
  }

  /** The row reporting the gender of a trip that has one. */
  lemma RowOfTrip(trips: seq<Trip>, t: Trip) returns (i: nat)
    requires t in trips && t.gender.Some?
    ensures i < |GenderAverageTripLength(trips)|
    ensures GenderAverageTripLength(trips)[i].gender == t.gender.value
    ensures GenderAverageTripLength(trips)[i].avg == Mean(Durations(Where(trips, GenderOf, t.gender)))
  {
    var rows := GenderAverageTripLength(trips);
    i :| 0 <= i < |rows| && rows[i].gender == t.gender.value;
  }

  /** A gender carried by exactly one trip reports that trip's duration. */
  lemma SingleTripGender(trips: seq<Trip>, g: string, w: Trip, v: real)
    requires Where(trips, GenderOf, Some(g)) == [w]
    requires Duration(w) == Some(v)
    ensures GenderAverage(g, Some(v)) in GenderAverageTripLength(trips)
  {
    assert w in trips && w.gender == Some(g) by {
      WhereMembers(trips, GenderOf, Some(g));
      assert w in Where(trips, GenderOf, Some(g));
    }
    var i := RowOfTrip(trips, w);
    var r := GenderAverageTripLength(trips)[i];
    assert Durations([w]) == [Some(v)];
    MeanOfOne(v);
    assert r.avg == Mean(Durations([w])) == Some(v);
    assert r == GenderAverage(g, Some(v));
  }

  lemma ExampleGender(rows: seq<GenderAverage>, i: nat)
    requires rows == GenderAverageTripLength(ExampleTrips)
    requires i < |rows|
    ensures rows[i].gender == "M" || rows[i].gender == "F"
  {
    var t :| t in ExampleTrips && t.gender == Some(rows[i].gender);
    ExampleTripGenders(t);
  }

  lemma ExampleTripGenders(t: Trip)
    requires t in ExampleTrips
    ensures t.gender == Some("M") || t.gender == Some("F") || t.gender == None
  {
    var j :| 0 <= j < |ExampleTrips| && ExampleTrips[j] == t;
    assert j == 0 || j == 1 || j == 2;
  }

  /** Distinct rows whose genders are "M" or "F", both present, are exactly two. */
  lemma TwoRows(rows: seq<GenderAverage>, m: nat, f: nat)
    requires forall i, j :: 0 <= i < j < |rows| ==> rows[i].gender != rows[j].gender
    requires forall i :: 0 <= i < |rows| ==> rows[i].gender == "M" || rows[i].gender == "F"
    requires m < |rows| && f < |rows| && rows[m].gender == "M" && rows[f].gender == "F"
    ensures |rows| == 2
  {
    assert m != f;
    if |rows| > 2 {
      ThreeOfTwo(rows[0].gender, rows[1].gender, rows[2].gender);
      assert false;
    }
  }

  lemma ThreeOfTwo(a: string, b: string, c: string)
    requires a == "M" || a == "F"
    requires b == "M" || b == "F"
    requires c == "M" || c == "F"
    ensures a == b || a == c || b == c
  {
  }

  lemma GenderExample()
    ensures var rows := GenderAverageTripLength(ExampleTrips);
      && |rows| == 2
      && GenderAverage("M", Some(10.0)) in rows
      && GenderAverage("F", Some(20.0)) in rows
  {
    var rows := GenderAverageTripLength(ExampleTrips);
    ExampleGroups();
    assert Duration(ExampleTrips[0]) == Some(10.0);
    assert Duration(ExampleTrips[1]) == Some(20.0);
    SingleTripGender(ExampleTrips, "M", ExampleTrips[0], 10.0);
    SingleTripGender(ExampleTrips, "F", ExampleTrips[1], 20.0);
    var m :| 0 <= m < |rows| && rows[m] == GenderAverage("M", Some(10.0));
    var f :| 0 <= f < |rows| && rows[f] == GenderAverage("F", Some(20.0));
    forall i | 0 <= i < |rows| ensures rows[i].gender == "M" || rows[i].gender == "F" {
      ExampleGender(rows, i);
    }
    TwoRows(rows, m, f);
  }
}
