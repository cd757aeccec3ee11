/**
 * `main`: the reports run on the first input file with one set of column
 * names and on the second with another. The second schema has no gender and
 * no birth year, so its run skips those two reports. Each report call first
 * evaluates `extract_source` for its file name, then writes its table(s)
 * under `reports/<folder>/<prefix><source>.csv`.
 *
 * Nothing in `main` catches an exception, so the first report that raises
 * ends the program: the files written so far stay, nothing after is written.
 */
module Pipeline {
  import opened Wrappers
  import opened Trips
  import TripLength
  import TripsPerDay
  import BestStation
  import GenderLength
  import AgeExtremes
  import TwoWeekLeaders
  import Source

  /** The two schemas of the input files. */
  datatype Variant = VariantA | VariantB

  /** The column names `main` passes to the reports. */
  datatype Columns = Columns(start: string, end: string, station: string, gender: Option<string>, birthyear: Option<string>)

  function ColumnsOf(v: Variant): (c: Columns)
    ensures c.gender.Some? <==> v.VariantA?
    ensures c.birthyear.Some? <==> v.VariantA?
  {
    match v
    case VariantA => Columns("start_time", "end_time", "from_station_name", Some("gender"), Some("birthyear"))
    case VariantB => Columns("started_at", "ended_at", "start_station_name", None, None)
  }

  datatype Report = AverageLength | TripsPerDay | BestStationPerMonth | GenderLength | AgeExtremes | TwoWeekLeaders

  /** The report calls of one run, in order; a report needing a column the schema lacks is not called. */
  function Calls(v: Variant): (rs: seq<Report>)
    ensures |rs| == if v.VariantA? then 6 else 4
    ensures rs[0] == AverageLength && rs[1] == TripsPerDay
    ensures rs[2] == BestStationPerMonth && rs[|rs| - 1] == TwoWeekLeaders
  {
    var c := ColumnsOf(v);
    [AverageLength, TripsPerDay, BestStationPerMonth]
    + (if c.gender.Some? then [GenderLength] else [])
    + (if c.birthyear.Some? then [AgeExtremes] else [])
    + [TwoWeekLeaders]
  }

  /** The column arguments of a report call, in the order the program passes them. */
  function Arguments(c: Columns, r: Report): (a: seq<string>)
    requires r == GenderLength ==> c.gender.Some?
    requires r == AgeExtremes ==> c.birthyear.Some?
    ensures c.start in a
    ensures r == AverageLength || r == GenderLength || r == AgeExtremes ==> |a| >= 2 && a[..2] == [c.start, c.end]
    ensures r == BestStationPerMonth || r == TwoWeekLeaders ==> a == [c.station, c.start]
    ensures r == GenderLength ==> a[|a| - 1] == c.gender.value
    ensures r == AgeExtremes ==> a[|a| - 1] == c.birthyear.value
  {
    match r
    case AverageLength => [c.start, c.end]
    case TripsPerDay => [c.start]
    case BestStationPerMonth => [c.station, c.start]
    case GenderLength => [c.start, c.end, c.gender.value]
    case AgeExtremes => [c.start, c.end, c.birthyear.value]
    case TwoWeekLeaders => [c.station, c.start]
  }

  /** The first schema calls every report; the second has no gender and no age report. */
  lemma CallsOfVariant(v: Variant)
    ensures GenderLength in Calls(v) <==> v.VariantA?
    ensures AgeExtremes in Calls(v) <==> v.VariantA?
    ensures forall r :: r in Calls(v) ==>
              && (r == GenderLength ==> ColumnsOf(v).gender.Some?)
              && (r == AgeExtremes ==> ColumnsOf(v).birthyear.Some?)
              && ColumnsOf(v).start in Arguments(ColumnsOf(v), r)
  {
    CallsList(v);
  }

  /** One input file: the path Spark read it from and its trips. */
  datatype Dataset = Dataset(file: string, trips: seq<Trip>)

  /** `extract_source(df)`: `df.first()` has no row for an empty relation. */
  function SourceOf(ds: Dataset): (r: Result<string, Failure>)
    ensures r.Failure? <==> ds.trips == []
    ensures r.Success? ==> r.value == Source.ExtractSource(ds.file)
  {
    if ds.trips == [] then Failure(EmptyRelation) else Success(Source.ExtractSource(ds.file))
  }

  datatype Table =
    | LengthTable(days: seq<TripLength.DayAverage>)
    | TripsTable(counts: seq<TripsPerDay.DayCount>)
    | BestTable(months: seq<BestStation.MonthBest>)
    | GenderTable(genders: seq<GenderLength.GenderAverage>)
    | AgeTable(ages: seq<AgeExtremes.AgeRow>)
    | LeadersTable(leaders: TwoWeekLeaders.Leaders)

  datatype ReportFile = ReportFile(path: string, table: Table)

  /** `"reports/" + foldername + "/" + reportname + filename + ".csv"`. */
  function ReportPath(folder: string, prefix: string, source: string): (p: string)
    ensures |p| == |folder| + |prefix| + |source| + 13
    ensures p[..8] == "reports/" && p[8..8 + |folder|] == folder && p[8 + |folder|] == '/'
    ensures p[9 + |folder|..9 + |folder| + |prefix|] == prefix
    ensures p[9 + |folder| + |prefix|..|p| - 4] == source && p[|p| - 4..] == ".csv"
  {
    "reports/" + folder + "/" + prefix + source + ".csv"
  }

  /** The report's folder under `reports/`: one directory name per report. */
  function Folder(r: Report): (f: string)
    ensures |f| > 0
  {
    match r
    case AverageLength => "average_trip_length_per_day"
    case TripsPerDay => "number_of_trips_per_day"
    case BestStationPerMonth => "best_station_per_month"
    case GenderLength => "average_trip_length_per_gender"
    case AgeExtremes => "longest_and_shortest_trips_by_age"
    case TwoWeekLeaders => "station_leaders_in_last_two_weeks"
  }

  /** The report name prefix; the age report writes two files. */
  function Prefixes(r: Report): (ps: seq<string>)
    ensures |ps| == if r == AgeExtremes then 2 else 1
  {
    match r
    case AverageLength => ["length-"]
    case TripsPerDay => ["trips-"]
    case BestStationPerMonth => ["beststat-"]
    case GenderLength => ["avggender-"]
    case AgeExtremes => ["agelongest-", "ageshortest-"]
    case TwoWeekLeaders => ["beststat2week-"]
  }

  /** The tables of one report, or the exception it raises. */
  function Tables(r: Report, trips: seq<Trip>): (ts: Result<seq<Table>, Failure>)
    ensures ts.Failure? ==> r == TwoWeekLeaders
    ensures r == TwoWeekLeaders ==>
              var l := TwoWeekLeaders.BestThreeStationsInTwoWeeks(trips);
              (ts.Failure? <==> l.Failure?) && (ts.Failure? ==> ts.error == l.error)
    ensures ts.Success? ==> |ts.value| == |Prefixes(r)|
    ensures ts.Success? ==> forall i :: 0 <= i < |ts.value| ==> (ts.value[i].GenderTable? <==> r == GenderLength)
  {
    match r
    case AverageLength => Success([LengthTable(TripLength.AverageTripLength(trips))])
    case TripsPerDay => Success([TripsTable(TripsPerDay.NumberOfTripsInADay(trips))])
    case BestStationPerMonth => Success([BestTable(BestStation.BestStartStationPerMonth(trips))])
    case GenderLength => Success([GenderTable(GenderLength.GenderAverageTripLength(trips))])
    case AgeExtremes => Success([AgeTable(AgeExtremes.LongestTrips(trips)), AgeTable(AgeExtremes.ShortestTrips(trips))])
    case TwoWeekLeaders =>
      match TwoWeekLeaders.BestThreeStationsInTwoWeeks(trips)
      case Failure(e) => Failure(e)
      case Success(l) => Success([LeadersTable(l)])
  }

  /**
   * One report call: `extract_source` first (it raises on an empty
   * relation), then the report's tables, each written to its path.
   */
  function RunCall(r: Report, ds: Dataset): (res: Result<seq<ReportFile>, Failure>)
    ensures ds.trips == [] ==> res == Failure(EmptyRelation)
    ensures ds.trips != [] ==> (res.Failure? <==> Tables(r, ds.trips).Failure?)
    ensures ds.trips != [] && res.Failure? ==> res.error == Tables(r, ds.trips).error
    ensures res.Success? ==> |res.value| == |Prefixes(r)|
    ensures res.Success? ==> forall i :: 0 <= i < |res.value| ==>
              res.value[i] == ReportFile(ReportPath(Folder(r), Prefixes(r)[i], Source.ExtractSource(ds.file)),
                                         Tables(r, ds.trips).value[i])
    ensures res.Success? ==> forall f :: f in res.value ==> (f.table.GenderTable? <==> r == GenderLength)
  {
    match SourceOf(ds)
    case Failure(e) => Failure(e)
    case Success(src) =>
      match Tables(r, ds.trips)
      case Failure(e) => Failure(e)
      case Success(ts) =>
        Success(seq(|ts|, i requires 0 <= i < |ts| => ReportFile(ReportPath(Folder(r), Prefixes(r)[i], src), ts[i])))
  }

  /** The files written and, if the run was cut short, why. */
  datatype Outcome = Outcome(files: seq<ReportFile>, failure: Option<Failure>)

  /** What one report call does, whatever its file. */
  type Call = Report -> Result<seq<ReportFile>, Failure>

  /** The report calls over one dataset. */
  function Caller(ds: Dataset): Call {
    r => RunCall(r, ds)
  }

  predicate AllSucceed(cs: seq<Report>, run: Call) {
    forall i :: 0 <= i < |cs| ==> run(cs[i]).Success?
  }

  /** Call `i` fails and every call before it succeeds. */
  predicate FirstFailure(cs: seq<Report>, run: Call, i: nat)
    requires i < |cs|
  {
    run(cs[i]).Failure? && forall j :: 0 <= j < i ==> run(cs[j]).Success?
  }

  /** The first call of `cs` that fails, fails with `e`. */
  predicate FailsFirstWith(cs: seq<Report>, run: Call, e: Failure) {
    exists i :: 0 <= i < |cs| && FirstFailure(cs, run, i) && e == run(cs[i]).error
  }

  /**
   * The calls in order; the first one that raises ends the run. The run
   * completes exactly when every call succeeds; otherwise it carries the
   * error of the first call that failed. A complete run holds every call's
   * files in call order; a cut-short run holds those of the calls before the
   * one that failed.
   */
  function RunAll(cs: seq<Report>, run: Call): (o: Outcome)
    ensures o.failure.None? <==> AllSucceed(cs, run)
    ensures o.failure.Some? ==> FailsFirstWith(cs, run, o.failure.value)
    ensures o.failure.None? ==> o.files == Written(cs, run)
    ensures forall i :: 0 <= i < |cs| && FirstFailure(cs, run, i) ==> o.files == Written(cs[..i], run)
    ensures forall f :: f in o.files ==> exists r :: r in cs && run(r).Success? && f in run(r).value
  {
    if cs == [] then Outcome([], None)
    else
      var head := run(cs[0]);
      AllSucceedStep(cs, run);
      if head.Failure? then
        FailsAtHead(cs, run);
        NothingBeforeHead(cs, run);
        Outcome([], Some(head.error))
      else
        var rest := RunAll(cs[1..], run);
        FailsFirstStep(cs, run, rest.failure);
        WrittenBeforeFailure(cs, run, rest.files);
        assert cs[0] in cs;
        assert forall r :: r in cs[1..] ==> r in cs;
        Outcome(head.value + rest.files, rest.failure)
  }

  /** The files of the calls in call order; a call that fails contributes none. */
  function Written(cs: seq<Report>, run: Call): seq<ReportFile> {
    if cs == [] then []
    else (if run(cs[0]).Success? then run(cs[0]).value else []) + Written(cs[1..], run)
  }

  /** Every file of a call that succeeds is among the written files. */
  lemma {:induction false} InWritten(cs: seq<Report>, run: Call, k: nat)
    requires k < |cs| && run(cs[k]).Success?
    ensures forall f :: f in run(cs[k]).value ==> f in Written(cs, run)
  {
    if k > 0 {
      assert cs[1..][k - 1] == cs[k];
      InWritten(cs[1..], run, k - 1);
    }
  }

  lemma NothingBeforeHead(cs: seq<Report>, run: Call)
    requires cs != [] && run(cs[0]).Failure?
    ensures forall i :: 0 <= i < |cs| && FirstFailure(cs, run, i) ==> Written(cs[..i], run) == []
  {
    forall i | 0 <= i < |cs| && FirstFailure(cs, run, i) ensures Written(cs[..i], run) == [] {
      assert i == 0;
      assert cs[..i] == [];
    }
  }

  lemma WrittenBeforeFailure(cs: seq<Report>, run: Call, rest: seq<ReportFile>)
    requires cs != [] && run(cs[0]).Success?
    requires forall i :: 0 <= i < |cs[1..]| && FirstFailure(cs[1..], run, i) ==> rest == Written(cs[1..][..i], run)
    ensures forall i :: 0 <= i < |cs| && FirstFailure(cs, run, i) ==> run(cs[0]).value + rest == Written(cs[..i], run)
  {
    forall i | 0 <= i < |cs| && FirstFailure(cs, run, i) ensures run(cs[0]).value + rest == Written(cs[..i], run) {
      assert i > 0;
      assert cs[1..][i - 1] == cs[i];
      forall j | 0 <= j < i - 1 ensures run(cs[1..][j]).Success? {
        assert cs[1..][j] == cs[j + 1];
      }
      assert FirstFailure(cs[1..], run, i - 1);
      assert cs[..i][0] == cs[0];
      assert cs[..i][1..] == cs[1..][..i - 1];
    }
  }

  lemma AllSucceedStep(cs: seq<Report>, run: Call)
    requires cs != []
    ensures AllSucceed(cs, run) <==> run(cs[0]).Success? && AllSucceed(cs[1..], run)
  {
    assert forall i :: 1 <= i < |cs| ==> cs[i] == cs[1..][i - 1];
  }

  lemma FailsAtHead(cs: seq<Report>, run: Call)
    requires cs != [] && run(cs[0]).Failure?
    ensures FailsFirstWith(cs, run, run(cs[0]).error)
  {
    assert FirstFailure(cs, run, 0);
  }

  lemma FailsFirstStep(cs: seq<Report>, run: Call, failure: Option<Failure>)
    requires cs != [] && run(cs[0]).Success?
    requires failure.Some? ==> FailsFirstWith(cs[1..], run, failure.value)
    ensures failure.Some? ==> FailsFirstWith(cs, run, failure.value)
  {
    if failure.Some? {
      FailsLater(cs, run, failure.value);
    }
  }

  lemma FailsLater(cs: seq<Report>, run: Call, e: Failure)
    requires cs != [] && run(cs[0]).Success?
    requires FailsFirstWith(cs[1..], run, e)
    ensures FailsFirstWith(cs, run, e)
  {
    var i :| 0 <= i < |cs[1..]| && FirstFailure(cs[1..], run, i) && e == run(cs[1..][i]).error;
    assert cs[i + 1] == cs[1..][i];
    forall j | 0 < j < i + 1 ensures run(cs[j]).Success? {
      assert cs[j] == cs[1..][j - 1];
    }
    assert FirstFailure(cs, run, i + 1);
  }

  /** Number of files the calls write when none raises. */
  function FileCount(cs: seq<Report>): nat {
    if cs == [] then 0 else |Prefixes(cs[0])| + FileCount(cs[1..])
  }

  lemma {:induction false} FileCountAppend(a: seq<Report>, b: seq<Report>)
    ensures FileCount(a + b) == FileCount(a) + FileCount(b)
  {
    if a == [] {
      assert a + b == b;
    } else {
      assert (a + b)[0] == a[0];
      assert (a + b)[1..] == a[1..] + b;
      FileCountAppend(a[1..], b);
    }
  }

  /** Calls that all succeed, each writing one file per prefix, write the sum of their counts. */
  lemma {:induction false} RunAllFiles(cs: seq<Report>, run: Call)
    requires AllSucceed(cs, run)
    requires forall r :: run(r).Success? ==> |run(r).value| == |Prefixes(r)|
    ensures |RunAll(cs, run).files| == FileCount(cs)
  {
    if cs != [] {
      AllSucceedStep(cs, run);
      RunAllFiles(cs[1..], run);
    }
  }

  /** A failing last call keeps the files before it and ends the run with its own error. */
  lemma {:induction false} RunAllSnocFailure(init: seq<Report>, last: Report, run: Call)
    requires AllSucceed(init, run)
    requires run(last).Failure?
    ensures RunAll(init + [last], run).failure == Some(run(last).error)
    ensures RunAll(init + [last], run).files == RunAll(init, run).files == Written(init, run)
  {
    if init == [] {
      assert init + [last] == [last];
    } else {
      assert (init + [last])[0] == init[0];
      assert (init + [last])[1..] == init[1..] + [last];
      AllSucceedStep(init, run);
      RunAllSnocFailure(init[1..], last, run);
    }
  }

  /** Each report call writes one file per prefix of its report. */
  lemma CallFiles(ds: Dataset)
    ensures forall r :: Caller(ds)(r).Success? ==> |Caller(ds)(r).value| == |Prefixes(r)|
  {
  }

  /** Over a non-empty relation a failing report call is the two-week one. */
  lemma OnlyTwoWeekFails(cs: seq<Report>, ds: Dataset, e: Failure)
    requires ds.trips != []
    requires FailsFirstWith(cs, Caller(ds), e)
    ensures var l := TwoWeekLeaders.BestThreeStationsInTwoWeeks(ds.trips); l.Failure? && e == l.error
  {
    var i :| 0 <= i < |cs| && FirstFailure(cs, Caller(ds), i) && e == Caller(ds)(cs[i]).error;
    assert RunCall(cs[i], ds).Failure?;
  }

  /**
   * One run over a file: an empty relation writes nothing, a complete run
   * writes 7 or 4 files, and the only other failure is the two-week report's.
   */
  function Run(v: Variant, ds: Dataset): (o: Outcome)
    ensures ds.trips == [] ==> o == Outcome([], Some(EmptyRelation))
    ensures o.failure.None? ==> |o.files| == if v.VariantA? then 7 else 4
    ensures ds.trips != [] && o.failure.Some? ==>
              var l := TwoWeekLeaders.BestThreeStationsInTwoWeeks(ds.trips);
              l.Failure? && o.failure == Some(l.error)
  {
    var o := RunAll(Calls(v), Caller(ds));
    FileCounts(v);
    CallFiles(ds);
    if o.failure.None? then
      RunAllFiles(Calls(v), Caller(ds));
      o
    else if ds.trips != [] then
      OnlyTwoWeekFails(Calls(v), ds, o.failure.value);
      o
    else
      o
  }

  /**
   * `main`: the first file with the first schema, then the second with the
   * second. The program completes exactly when both runs do, and then has
   * written 11 files.
   */
  function Main(first: Dataset, second: Dataset): (o: Outcome)
    ensures o.failure.None? <==> Run(VariantA, first).failure.None? && Run(VariantB, second).failure.None?
    ensures o.failure.None? ==> |o.files| == 11
  {
    var a := Run(VariantA, first);
    if a.failure.Some? then a
    else
      var b := Run(VariantB, second);
      Outcome(a.files + b.files, b.failure)
  }

  /**
   * A non-empty relation gets every report file, seven for the first schema
   * and four for the second, unless the two-week report raises.
   */
  lemma CompleteRun(v: Variant, ds: Dataset)
    requires ds.trips != []
    requires TwoWeekLeaders.BestThreeStationsInTwoWeeks(ds.trips).Success?
    ensures Run(v, ds).failure.None?
    ensures |Run(v, ds).files| == if v.VariantA? then 7 else 4
  {
    forall i | 0 <= i < |Calls(v)| ensures Caller(ds)(Calls(v)[i]).Success? {
    }
    assert AllSucceed(Calls(v), Caller(ds));
  }

  /** Distinct reports write to distinct folders. */
  lemma FoldersDistinct(r1: Report, r2: Report)
    ensures r1 != r2 ==> Folder(r1) != Folder(r2)
  {
    FolderKey(r1);
    FolderKey(r2);
  }

  /** The folder names' lengths, and the first letter, which tells the two of length 33 apart. */
  lemma FolderKey(r: Report)
    ensures |Folder(r)| == match r
      case AverageLength => 27 case TripsPerDay => 23 case BestStationPerMonth => 22
      case GenderLength => 30 case AgeExtremes => 33 case TwoWeekLeaders => 33
    ensures r == AgeExtremes ==> Folder(r)[0] == 'l'
    ensures r == TwoWeekLeaders ==> Folder(r)[0] == 's'
  {
  }

  /** Every prefix is a non-empty file-name part ending in '-'. */
  lemma PrefixShape(r: Report, p: string)
    requires p in Prefixes(r)
    ensures |p| > 0 && '/' !in p && p[|p| - 1] == '-'
  {
  }

  /**
   * A complete run writes every table of every call at its report path:
   * `reports/<folder>/<prefix><source>.csv`.
   */
  lemma CompleteRunWrites(v: Variant, ds: Dataset, r: Report, i: nat)
    requires ds.trips != []
    requires TwoWeekLeaders.BestThreeStationsInTwoWeeks(ds.trips).Success?
    requires r in Calls(v) && i < |Prefixes(r)|
    ensures Tables(r, ds.trips).Success?
    ensures ReportFile(ReportPath(Folder(r), Prefixes(r)[i], Source.ExtractSource(ds.file)), Tables(r, ds.trips).value[i])
              in Run(v, ds).files
  {
    CompleteRun(v, ds);
    var k :| 0 <= k < |Calls(v)| && Calls(v)[k] == r;
    CallWrites(r, ds, i);
    InWritten(Calls(v), Caller(ds), k);
  }

  lemma CallWrites(r: Report, ds: Dataset, i: nat)
    requires ds.trips != [] && i < |Prefixes(r)|
    requires r == TwoWeekLeaders ==> TwoWeekLeaders.BestThreeStationsInTwoWeeks(ds.trips).Success?
    ensures Tables(r, ds.trips).Success? && Caller(ds)(r).Success?
    ensures ReportFile(ReportPath(Folder(r), Prefixes(r)[i], Source.ExtractSource(ds.file)), Tables(r, ds.trips).value[i])
              in Caller(ds)(r).value
  {
    assert RunCall(r, ds).value[i] == ReportFile(ReportPath(Folder(r), Prefixes(r)[i], Source.ExtractSource(ds.file)), Tables(r, ds.trips).value[i]);
  }

  /** A complete first-schema run writes the gender report's `avggender-` file. */
  lemma GenderWrittenForFirstSchema(ds: Dataset)
    requires ds.trips != []
    requires TwoWeekLeaders.BestThreeStationsInTwoWeeks(ds.trips).Success?
    ensures ReportFile(ReportPath("average_trip_length_per_gender", "avggender-", Source.ExtractSource(ds.file)),
                       GenderTable(GenderLength.GenderAverageTripLength(ds.trips)))
              in Run(VariantA, ds).files
  {
    CallsList(VariantA);
    assert GenderLength in Calls(VariantA);
    CompleteRunWrites(VariantA, ds, GenderLength, 0);
  }

  lemma CallsList(v: Variant)
    ensures Calls(v) == if v.VariantA? then [AverageLength, TripsPerDay, BestStationPerMonth, GenderLength, AgeExtremes, TwoWeekLeaders]
                        else [AverageLength, TripsPerDay, BestStationPerMonth, TwoWeekLeaders]
  {
  }

  lemma FileCounts(v: Variant)
    ensures FileCount(Calls(v)) == if v.VariantA? then 7 else 4
    ensures FileCount(Calls(v)[..|Calls(v)| - 1]) == if v.VariantA? then 6 else 3
  {
    CallsList(v);
    var cs := Calls(v);
    var init := cs[..|cs| - 1];
    var tail: seq<Report> := [TwoWeekLeaders];
    assert FileCount(tail) == 1 by { assert tail[1..] == []; }
    var common: seq<Report> := [AverageLength, TripsPerDay, BestStationPerMonth];
    assert FileCount(common) == 3 by {
      assert common[1..] == [TripsPerDay, BestStationPerMonth];
      assert common[1..][1..] == [BestStationPerMonth];
      assert common[1..][1..][1..] == [];
    }
    FileCountAppend(common, tail);
    var extra: seq<Report> := [GenderLength, AgeExtremes];
    assert FileCount(extra) == 3 by {
      assert extra[1..] == [AgeExtremes];
      assert extra[1..][1..] == [];
    }
    FileCountAppend(common, extra);
    FileCountAppend(common + extra, tail);
    if v.VariantA? {
      assert cs == common + extra + tail;
      assert init == common + extra;
    } else {
      assert cs == common + tail;
      assert init == common;
    }
  }

  /**
   * On a non-empty relation only the two-week report can raise, and it is
   * the last call: every other file is written and the run ends with its
   * failure.
   */
  lemma FailureIsTwoWeek(v: Variant, ds: Dataset)
    requires ds.trips != []
    requires TwoWeekLeaders.BestThreeStationsInTwoWeeks(ds.trips).Failure?
    ensures Run(v, ds).failure == Some(TwoWeekLeaders.BestThreeStationsInTwoWeeks(ds.trips).error)
    ensures |Run(v, ds).files| == if v.VariantA? then 6 else 3
    ensures Run(v, ds).files == Written(Calls(v)[..|Calls(v)| - 1], Caller(ds))
  {
    var cs := Calls(v);
    var init := cs[..|cs| - 1];
    CallsList(v);
    assert cs == init + [TwoWeekLeaders];
    OthersSucceed(init, ds);
    RunAllSnocFailure(init, TwoWeekLeaders, Caller(ds));
    FileCounts(v);
  }

  /** Over a non-empty relation every call but the two-week one succeeds. */
  lemma OthersSucceed(cs: seq<Report>, ds: Dataset)
    requires ds.trips != []
    requires TwoWeekLeaders !in cs
    ensures AllSucceed(cs, Caller(ds))
    ensures |RunAll(cs, Caller(ds)).files| == FileCount(cs)
  {
    forall i | 0 <= i < |cs| ensures Caller(ds)(cs[i]).Success? {
      assert cs[i] in cs;
    }
    CallFiles(ds);
    RunAllFiles(cs, Caller(ds));
  }

  /** A gender table is written for the first schema and never for the second. */
  lemma GenderOnlyForFirstSchema(v: Variant, ds: Dataset, f: ReportFile)
    requires f in Run(v, ds).files && f.table.GenderTable?
    ensures v.VariantA?
  {
    var r :| r in Calls(v) && Caller(ds)(r).Success? && f in Caller(ds)(r).value;
    GenderFileOfGenderReport(r, ds, f);
    CallsOfVariant(v);
  }

  lemma GenderFileOfGenderReport(r: Report, ds: Dataset, f: ReportFile)
    requires RunCall(r, ds).Success? && f in RunCall(r, ds).value && f.table.GenderTable?
    ensures r == GenderLength
  {
  }

  /**
   * Every file is named after the source of its input file:
   * `reports/<folder>/<prefix><source>.csv`.
   */
  lemma FilesNamedAfterSource(v: Variant, ds: Dataset, f: ReportFile)
    requires f in Run(v, ds).files
    ensures exists r, i :: r in Calls(v) && 0 <= i < |Prefixes(r)|
              && f.path == ReportPath(Folder(r), Prefixes(r)[i], Source.ExtractSource(ds.file))
  {
    var r :| r in Calls(v) && Caller(ds)(r).Success? && f in Caller(ds)(r).value;
    var fs := RunCall(r, ds).value;
    var j :| 0 <= j < |fs| && fs[j] == f;
  }

  /** When the first run fails, the second file is never read. */
  lemma FirstFailureStops(first: Dataset, second: Dataset)
    requires Run(VariantA, first).failure.Some?
    ensures Main(first, second) == Run(VariantA, first)
  {
  }

  /** Otherwise the second run's files follow the first run's. */
  lemma SecondRunFollows(first: Dataset, second: Dataset)
    requires Run(VariantA, first).failure.None?
    ensures Main(first, second).files == Run(VariantA, first).files + Run(VariantB, second).files
    ensures Main(first, second).failure == Run(VariantB, second).failure
  {
  }
}
