/**
 * The analytics controller: it reads the data file, keeps the records of the month
 * under the cursor (`loadWeatherData`, `filterDayByDay`), sums and classifies them
 * (`loadMonth`), and moves the cursor one month at a time (`goNextMonth`,
 * `goPreviousMonth`).
 *
 * Any exception thrown while the file is read aborts the whole load, so a load is
 * a `Result`: either every record of the month or the reason there is none.
 */
module Analytics {
  import opened Wrappers
  import opened JavaText
  import opened Calendar
  import opened Generator

  /** The `weatherData` record: one day as read back from the file. */
  datatype WeatherData = WeatherData(temperature: int, humidity: int, rained: int)

  /** Why a month could not be summarised. */
  datatype LoadError =
    | NoFile                  // the reader cannot open the selected file
    | Malformed(line: string) // `parseInt` or an array index threw on this line
    | EmptyMonth              // no record for the month: the average is undefined

  // ---------------------------------------------------------------- decoding

  /** The month field of a line: the second `-`-separated part, parsed. */
  function LineMonth(line: string): (month: Option<int>)
  {
    var parts := Split(line, '-');
    if |parts| < 2 then None else ParseInt(parts[1])
  }

  /** `filterDayByDay`: comma fields 1, 2 and 3 are temperature, humidity and rain. */
  function FilterDayByDay(line: string): (data: Option<WeatherData>)
  {
    var data := Split(line, ',');
    if |data| < 4 then None
    else
      match (ParseInt(data[1]), ParseInt(data[2]), ParseInt(data[3]))
      case (Some(t), Some(h), Some(r)) => Some(WeatherData(t, h, r))
      case _ => None
  }

  /** A line that makes the load throw when the month under the cursor is `monthNum`. */
  predicate IsBadLine(line: string, monthNum: int)
  {
    !IsBlank(line)
    && (LineMonth(line).None? || (LineMonth(line) == Some(monthNum) && FilterDayByDay(line).None?))
  }

  /** The lines the two stream filters let through, in file order. */
  function Kept(lines: seq<string>, monthNum: int): (kept: seq<string>)
  {
    if lines == [] then []
    else
      (if !IsBlank(lines[0]) && LineMonth(lines[0]) == Some(monthNum) then [lines[0]] else [])
      + Kept(lines[1..], monthNum)
  }

  /**
   * The stream pipeline of `loadWeatherData` over the lines of the file: blank lines
   * are dropped, every other line has its month parsed, the lines of month `monthNum`
   * are decoded, and the first line that throws aborts the load.
   */
  function SelectMonth(lines: seq<string>, monthNum: int): (loaded: Result<seq<WeatherData>, LoadError>)
  {
    if lines == [] then Success([])
    else
      var line := lines[0];
      if IsBlank(line) then SelectMonth(lines[1..], monthNum)
      else
        match LineMonth(line)
        case None => Failure(Malformed(line))
        case Some(m) =>
          if m != monthNum then SelectMonth(lines[1..], monthNum)
          else
            match FilterDayByDay(line)
            case None => Failure(Malformed(line))
            case Some(w) =>
              match SelectMonth(lines[1..], monthNum)
              case Failure(e) => Failure(e)
              case Success(ws) => Success([w] + ws)
  }

  /** `loadWeatherData` for the month under the cursor, on the text of the file. */
  function LoadWeatherData(content: string, month: Month): (loaded: Result<seq<WeatherData>, LoadError>)
  {
    SelectMonth(Lines(content), Ordinal(month) + 1)
  }

  /** `Kept` holds exactly the non-blank lines of the month. */
  lemma {:induction false} KeptMembers(lines: seq<string>, monthNum: int)
    ensures forall line :: line in Kept(lines, monthNum) <==>
      line in lines && !IsBlank(line) && LineMonth(line) == Some(monthNum)
  {
    if lines != [] {
      KeptMembers(lines[1..], monthNum);
      assert forall line :: line in lines <==> line == lines[0] || line in lines[1..];
    }
  }

  /** One step of the pipeline: the first line either aborts the load or contributes its record. */
  lemma SelectMonthStep(lines: seq<string>, monthNum: int)
    requires lines != []
    ensures IsBadLine(lines[0], monthNum) ==> SelectMonth(lines, monthNum) == Failure(Malformed(lines[0]))
    ensures !IsBadLine(lines[0], monthNum) && SelectMonth(lines[1..], monthNum).Failure? ==>
      SelectMonth(lines, monthNum) == SelectMonth(lines[1..], monthNum)
    ensures !IsBadLine(lines[0], monthNum) && SelectMonth(lines[1..], monthNum).Success? ==>
      SelectMonth(lines, monthNum).Success?
      && SelectMonth(lines, monthNum).value ==
        (if !IsBlank(lines[0]) && LineMonth(lines[0]) == Some(monthNum)
         then [FilterDayByDay(lines[0]).value] else [])
        + SelectMonth(lines[1..], monthNum).value
  {
  }

  /** The load succeeds exactly when no line of the file is bad. */
  lemma {:induction false} SelectMonthSucceeds(lines: seq<string>, monthNum: int)
    ensures SelectMonth(lines, monthNum).Success? <==>
      forall i :: 0 <= i < |lines| ==> !IsBadLine(lines[i], monthNum)
  {
    if lines != [] {
      SelectMonthStep(lines, monthNum);
      SelectMonthSucceeds(lines[1..], monthNum);
      if forall i :: 0 <= i < |lines[1..]| ==> !IsBadLine(lines[1..][i], monthNum) {
        forall i | 1 <= i < |lines| ensures !IsBadLine(lines[i], monthNum) || IsBadLine(lines[0], monthNum) {
          assert lines[i] == lines[1..][i - 1];
        }
      } else {
        var i :| 0 <= i < |lines[1..]| && IsBadLine(lines[1..][i], monthNum);
        assert IsBadLine(lines[i + 1], monthNum);
      }
    }
  }

  /**
   * A non-blank line of the selected month whose comma field 1, 2 or 3 does not
   * parse (`"4a"`, `" 4"`) makes `parseInt` throw, and the whole load fails.
   */
  lemma NonNumericFieldAborts(lines: seq<string>, monthNum: int, i: nat, f: nat)
    requires i < |lines| && !IsBlank(lines[i]) && LineMonth(lines[i]) == Some(monthNum)
    requires 1 <= f <= 3 && f < |Split(lines[i], ',')| && ParseInt(Split(lines[i], ',')[f]).None?
    ensures SelectMonth(lines, monthNum).Failure?
  {
    assert FilterDayByDay(lines[i]).None?;
    assert IsBadLine(lines[i], monthNum);
    SelectMonthSucceeds(lines, monthNum);
  }

  /** Decoding line by line extends to one more line in front. */
  lemma DecodedCons(line: string, w: WeatherData, lines: seq<string>, ws: seq<WeatherData>)
    requires FilterDayByDay(line) == Some(w)
    requires |lines| == |ws| && forall k :: 0 <= k < |lines| ==> FilterDayByDay(lines[k]) == Some(ws[k])
    ensures var all, decoded := [line] + lines, [w] + ws;
      |all| == |decoded| && forall k :: 0 <= k < |all| ==> FilterDayByDay(all[k]) == Some(decoded[k])
  {
    var all, decoded := [line] + lines, [w] + ws;
    forall k | 1 <= k < |all| ensures FilterDayByDay(all[k]) == Some(decoded[k]) {
      assert all[k] == lines[k - 1] && decoded[k] == ws[k - 1];
    }
  }

  /** A successful load yields the decoded kept lines, in file order. */
  lemma {:induction false} SelectMonthRecords(lines: seq<string>, monthNum: int)
    requires SelectMonth(lines, monthNum).Success?
    ensures |SelectMonth(lines, monthNum).value| == |Kept(lines, monthNum)|
    ensures forall k :: 0 <= k < |Kept(lines, monthNum)| ==>
      FilterDayByDay(Kept(lines, monthNum)[k]) == Some(SelectMonth(lines, monthNum).value[k])
  {
    if lines == [] {
      assert Kept(lines, monthNum) == [] && SelectMonth(lines, monthNum).value == [];
    } else {
      SelectMonthStep(lines, monthNum);
      var rest := SelectMonth(lines[1..], monthNum);
      assert !IsBadLine(lines[0], monthNum) && rest.Success?;
      SelectMonthRecords(lines[1..], monthNum);
      var ws := SelectMonth(lines, monthNum).value;
      var kept := Kept(lines, monthNum);
      if !IsBlank(lines[0]) && LineMonth(lines[0]) == Some(monthNum) {
        assert kept == [lines[0]] + Kept(lines[1..], monthNum);
        assert ws == [FilterDayByDay(lines[0]).value] + rest.value;
        DecodedCons(lines[0], FilterDayByDay(lines[0]).value, Kept(lines[1..], monthNum), rest.value);
      } else {
        assert kept == Kept(lines[1..], monthNum);
        assert ws == rest.value;
      }
    }
  }

  /** A failed load names the first bad line, and no record survives it. */
  lemma {:induction false} SelectMonthFailure(lines: seq<string>, monthNum: int)
    requires SelectMonth(lines, monthNum).Failure?
    ensures exists i ::
              && 0 <= i < |lines| && IsBadLine(lines[i], monthNum)
              && (forall j :: 0 <= j < i ==> !IsBadLine(lines[j], monthNum))
              && SelectMonth(lines, monthNum).error == Malformed(lines[i])
  {
    SelectMonthStep(lines, monthNum);
    if !IsBadLine(lines[0], monthNum) {
      var rest := SelectMonth(lines[1..], monthNum);
      assert rest.Failure?;
      SelectMonthFailure(lines[1..], monthNum);
      var i :| 0 <= i < |lines[1..]| && IsBadLine(lines[1..][i], monthNum)
        && (forall j :: 0 <= j < i ==> !IsBadLine(lines[1..][j], monthNum))
        && rest.error == Malformed(lines[1..][i]);
      assert lines[i + 1] == lines[1..][i];
      forall j | 1 <= j < i + 1 ensures !IsBadLine(lines[j], monthNum) {
        assert lines[j] == lines[1..][j - 1];
      }
    }
  }

  // ---------------------------------------------------------------- aggregation

  /** The number of records whose rain flag is 1, counted as the loop counts. */
  function RainyDays(ds: seq<WeatherData>): (count: nat)
  {
    if ds == [] then 0
    else RainyDays(ds[..|ds| - 1]) + (if ds[|ds| - 1].rained == 1 then 1 else 0)
  }

  /** The sum of the temperatures, accumulated as the loop accumulates it. */
  function TotalTemperature(ds: seq<WeatherData>): (total: int)
  {
    if ds == [] then 0 else TotalTemperature(ds[..|ds| - 1]) + ds[|ds| - 1].temperature
  }

  /** The positions of the rainy records. */
  function RainyIndices(ds: seq<WeatherData>): (indices: set<nat>)
  {
    set i: nat | i < |ds| && ds[i].rained == 1
  }

  /** `numRained` counts exactly the records with `rained == 1`, so it never exceeds their number. */
  lemma {:induction false} RainyDaysCount(ds: seq<WeatherData>)
    ensures RainyDays(ds) == |RainyIndices(ds)|
    ensures RainyDays(ds) <= |ds|
  {
    if ds != [] {
      var init := ds[..|ds| - 1];
      RainyDaysCount(init);
      var last := |ds| - 1;
      if ds[last].rained == 1 {
        assert RainyIndices(ds) == RainyIndices(init) + {last};
        assert last !in RainyIndices(init);
      } else {
        assert RainyIndices(ds) == RainyIndices(init);
      }
    }
  }

  /** The `temperatureStatus` enum. */
  datatype Status = Warm | Cold | Hot

  /** The classification of an average temperature: below 50 cold, below 70 warm, else hot. */
  function Classify(avg: real): (status: Status)
  {
    if avg < 50.0 then Cold else if avg < 70.0 then Warm else Hot
  }

  /** Dividing by a positive count preserves a strict bound: `sum / n < c` iff `sum < c * n`. */
  lemma QuotientBelow(sum: real, n: real, c: real)
    requires n > 0.0
    ensures sum / n < c <==> sum < c * n
  {
    var q := sum / n;
    assert q * n == sum;
    if q < c {
      assert (c - q) * n > 0.0;
    } else {
      assert (q - c) * n >= 0.0;
    }
  }

  /** For `n` records summing to `sum`, the class of the average is decided by the sum alone. */
  lemma ClassifyBySum(sum: int, n: int)
    requires n > 0
    ensures Classify(sum as real / n as real) == Cold <==> sum < 50 * n
    ensures Classify(sum as real / n as real) == Warm <==> 50 * n <= sum < 70 * n
    ensures Classify(sum as real / n as real) == Hot <==> 70 * n <= sum
  {
    QuotientBelow(sum as real, n as real, 50.0);
    QuotientBelow(sum as real, n as real, 70.0);
  }

  /** An average temperature as Java computes it: a quotient, or NaN for 0/0. */
  datatype Average = Mean(value: real) | NaN

  /** The `weatherRepresentation` record. */
  datatype Representation = Representation(avgTemperature: Average, daysRained: int, status: Status)

  /**
   * `loadMonth` as written: the average of no records is 0.0/0.0, which is NaN, and
   * NaN fails both comparisons, so the status stays at its initial `hot`.
   */
  function SummarizeAsWritten(ds: seq<WeatherData>): (rep: Representation)
  {
    var avg := if ds == [] then NaN else Mean(TotalTemperature(ds) as real / |ds| as real);
    var status := match avg
      case NaN => Hot
      case Mean(v) => Classify(v);
    Representation(avg, RainyDays(ds), status)
  }

  /** As written, a month without records is reported as hot with an average of NaN. */
  lemma EmptyMonthReportedHot()
    ensures SummarizeAsWritten([]) == Representation(NaN, 0, Hot)
  {
  }

  /**
   * The summary of a month, with the empty month reported as such: the average times
   * the number of days is the total temperature, the rainy days are counted, and the
   * status is decided by the total against 50 and 70 per day.
   */
  function Summarize(ds: seq<WeatherData>): (r: Result<Representation, LoadError>)
    ensures r.Failure? <==> ds == []
    ensures r.Failure? ==> r.error == EmptyMonth
    ensures r.Success? ==>
      && r.value.avgTemperature.Mean?
      && r.value.avgTemperature.value * |ds| as real == TotalTemperature(ds) as real
      && r.value.daysRained == |RainyIndices(ds)|
      && (r.value.status == Cold <==> TotalTemperature(ds) < 50 * |ds|)
      && (r.value.status == Warm <==> 50 * |ds| <= TotalTemperature(ds) < 70 * |ds|)
      && (r.value.status == Hot <==> 70 * |ds| <= TotalTemperature(ds))
  {
    if ds == [] then Failure(EmptyMonth)
    else
      var avg := TotalTemperature(ds) as real / |ds| as real;
      RainyDaysCount(ds);
      ClassifyBySum(TotalTemperature(ds), |ds|);
      Success(Representation(Mean(avg), RainyDays(ds), Classify(avg)))
  }

  /** On a month with records the corrected summary is the one the code computes. */
  lemma SummarizeAgrees(ds: seq<WeatherData>)
    requires ds != []
    ensures Summarize(ds) == Success(SummarizeAsWritten(ds))
  {
  }

  /** Temperatures 40, 60 and 80 with rain on the last two days: average 60, warm, two rainy days. */
  lemma SummarizeExample()
    ensures Summarize([WeatherData(40, 0, 0), WeatherData(60, 0, 1), WeatherData(80, 0, 1)])
      == Success(Representation(Mean(60.0), 2, Warm))
  {
    var ds := [WeatherData(40, 0, 0), WeatherData(60, 0, 1), WeatherData(80, 0, 1)];
    assert ds[..2] == [WeatherData(40, 0, 0), WeatherData(60, 0, 1)];
    assert ds[..2][..1] == [WeatherData(40, 0, 0)];
    assert ds[..2][..1][..0] == [];
    assert TotalTemperature(ds[..2][..1]) == 40;
    assert TotalTemperature(ds[..2]) == 100;
    assert TotalTemperature(ds) == 180;
    assert RainyDays(ds[..2][..1]) == 0;
    assert RainyDays(ds[..2]) == 1;
  }

  /** What `loadMonth` yields for the file and the month under the cursor. */
  function MonthSummary(onDisk: bool, content: string, month: Month): (summary: Result<Representation, LoadError>)
  {
    if !onDisk then Failure(NoFile)
    else
      match LoadWeatherData(content, month)
      case Failure(e) => Failure(e)
      case Success(ds) => Summarize(ds)
  }

  // ---------------------------------------------------------------- controller

  /** The analytics controller: the month under the cursor and the file chosen on the splash screen. */
  class AnalyticsController {
    var currentMonth: Month
    var selectedFile: DataFile?

    /** The cursor starts at January; no file is selected yet. */
    constructor ()
      ensures currentMonth == January && selectedFile == null
    {
      currentMonth := January;
      selectedFile := null;
    }

    /** `loadMonth`: the records of the current month, counted and summed in one pass. */
    method LoadMonth() returns (r: Result<Representation, LoadError>)
      requires selectedFile != null
      ensures r == MonthSummary(selectedFile.onDisk, selectedFile.content, currentMonth)
    {
      if !selectedFile.onDisk {
        return Failure(NoFile);
      }
      var loaded := LoadWeatherData(selectedFile.content, currentMonth);
      if loaded.Failure? {
        return Failure(loaded.error);
      }
      var selectedMonth := loaded.value;
      var numRained := 0;
      var totalTemp := 0;
      for i := 0 to |selectedMonth|
        invariant numRained == RainyDays(selectedMonth[..i])
        invariant totalTemp == TotalTemperature(selectedMonth[..i])
      {
        assert selectedMonth[..i + 1][..i] == selectedMonth[..i];
        if selectedMonth[i].rained == 1 {
          numRained := numRained + 1;
        }
        totalTemp := totalTemp + selectedMonth[i].temperature;
      }
      assert selectedMonth[..|selectedMonth|] == selectedMonth;
      if |selectedMonth| == 0 {
        return Failure(EmptyMonth);
      }
      var avgTemp := totalTemp as real / |selectedMonth| as real;
      r := Success(Representation(Mean(avgTemp), numRained, Classify(avgTemp)));
    }

    /** `loadFile`: remember the file, then summarise the current month from it. */
    method LoadFile(file: DataFile) returns (r: Result<Representation, LoadError>)
      modifies this
      ensures selectedFile == file && currentMonth == old(currentMonth)
      ensures r == MonthSummary(file.onDisk, file.content, currentMonth)
    {
      selectedFile := file;
      r := LoadMonth();
    }

    /** `goNextMonth`: move the cursor one month on, then summarise that month. */
    method GoNextMonth() returns (r: Result<Representation, LoadError>)
      requires selectedFile != null
      modifies this
      ensures currentMonth == Next(old(currentMonth)) && selectedFile == old(selectedFile)
      ensures r == MonthSummary(selectedFile.onDisk, selectedFile.content, currentMonth)
    {
      currentMonth := Next(currentMonth);
      r := LoadMonth();
    }

    /** `goPreviousMonth`: move the cursor one month back, then summarise that month. */
    method GoPreviousMonth() returns (r: Result<Representation, LoadError>)
      requires selectedFile != null
      modifies this
      ensures currentMonth == Previous(old(currentMonth)) && selectedFile == old(selectedFile)
      ensures r == MonthSummary(selectedFile.onDisk, selectedFile.content, currentMonth)
    {
      currentMonth := Previous(currentMonth);
      r := LoadMonth();
    }
  }
}
