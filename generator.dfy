/**
 * The synthetic-year generator of the splash-screen controller: the monthly climate
 * table, the rule that turns one random draw into one day's record, the text line
 * written for it, and the controller methods that append a month (`fillDays`) and a
 * year (`fillMonths`) to the data file.
 *
 * Randomness is a parameter. A `Draw` holds the raw values a run would have produced
 * for one day; `Sample` maps a raw integer into the half-open interval that
 * `Random.nextInt(origin, bound)` draws from, and every value of that interval is the
 * image of some raw integer, so the set of possible outputs is modelled exactly.
 */
module Generator {
  import opened Calendar
  import opened JavaText

  /** One month's row of the climate table. `rainChance` is the probability of rain. */
  datatype Climate = Climate(
    tempLow: int, tempHigh: int, tempDrift: int,
    humidityLow: int, humidityHigh: int, humidityDrift: int,
    rainChance: real)

  /** The source raises a non-zero high bound by one, so the nominal high can be drawn. */
  function Bumped(high: int): (bumped: int)
  {
    if high != 0 then high + 1 else high
  }

  /** Whether a month samples humidity at all (bounds that stay 0/0 mean "always 0"). */
  predicate HumidityTracked(c: Climate)
  {
    !(c.humidityLow == 0 && Bumped(c.humidityHigh) == 0)
  }

  /**
   * The climate switch of `fillDays` (the bounds not assigned for a month keep their
   * initial 0). Every interval that is sampled is non-empty, so `nextInt` never throws.
   */
  function ClimateOf(m: Month): (c: Climate)
    ensures c.tempLow < Bumped(c.tempHigh)
    ensures HumidityTracked(c) ==> c.humidityLow < Bumped(c.humidityHigh)
    ensures 0.0 < c.rainChance < 1.0
  {
    match m
    case January => Climate(31, 41, -1, 0, 0, 0, 0.23)
    case February => Climate(28, 40, 5, 0, 0, 0, 0.24)
    case March => Climate(33, 46, 11, 0, 0, 0, 0.27)
    case April => Climate(41, 55, 11, 0, 0, 0, 0.29)
    case May => Climate(51, 67, 8, 0, 12, 12, 0.31)
    case June => Climate(61, 75, 7, 12, 37, 25, 0.32)
    case July => Climate(69, 83, 1, 38, 54, 16, 0.33)
    case August => Climate(71, 84, -4, 35, 54, -19, 0.31)
    case September => Climate(67, 80, -9, 11, 33, -22, 0.26)
    case October => Climate(57, 70, -10, 1, 11, 10, 0.24)
    case November => Climate(47, 59, -9, 0, 0, 0, 0.24)
    case December => Climate(38, 49, -7, 0, 0, 0, 0.26)
  }

  /** Humidity is tracked from May to October and fixed at 0 in the other six months. */
  lemma HumidityTrackedMonths(m: Month)
    ensures HumidityTracked(ClimateOf(m)) <==> m in {May, June, July, August, September, October}
  {
  }

  /** The drift shift of day `day`: `(drift / 3) * (day / 10)` with Java's truncating `/`. */
  function Offset(drift: int, day: nat): (shift: int)
  {
    JavaDiv(drift, 3) * (day / 10)
  }

  /** The phase `day / 10` is 0 on days 1-9, 1 on 10-19, 2 on 20-29 and 3 on days 30 and 31. */
  lemma PhaseBuckets(day: nat)
    requires 1 <= day <= 31
    ensures day <= 9 ==> day / 10 == 0
    ensures 10 <= day <= 19 ==> day / 10 == 1
    ensures 20 <= day <= 29 ==> day / 10 == 2
    ensures 30 <= day ==> day / 10 == 3
  {
  }

  /**
   * January's drift of -1 never shifts its bounds, because -1 / 3 truncates to 0;
   * with Euclidean division the shift would be minus the phase.
   */
  lemma JanuaryDriftVanishes(day: nat)
    ensures Offset(ClimateOf(January).tempDrift, day) == 0
    ensures day >= 10 ==> (ClimateOf(January).tempDrift / 3) * (day / 10) < 0
  {
  }

  /** `Random.nextInt(origin, bound)` as a function of the raw draw: a value in [origin, bound). */
  function Sample(origin: int, bound: int, draw: int): (v: int)
    requires origin < bound
    ensures origin <= v < bound
  {
    origin + draw % (bound - origin)
  }

  /** Every value of the interval is drawn by some raw draw. */
  lemma SampleReaches(origin: int, bound: int, v: int)
    requires origin <= v < bound
    ensures Sample(origin, bound, v - origin) == v
  {
  }

  /** The raw random values behind one generated day. */
  datatype Draw = Draw(temperature: int, humidity: int, rain: real)

  /** One generated day, before it is written out. */
  datatype DayRecord = DayRecord(year: int, month: int, day: int, temperature: int, humidity: int, rained: int)

  /** The temperature interval of day `day` of month `m`: [low + off, bumped high + off). */
  function TemperatureLow(m: Month, day: nat): (low: int)
  {
    ClimateOf(m).tempLow + Offset(ClimateOf(m).tempDrift, day)
  }

  function TemperatureBound(m: Month, day: nat): (bound: int)
  {
    Bumped(ClimateOf(m).tempHigh) + Offset(ClimateOf(m).tempDrift, day)
  }

  /** The humidity interval of a tracked month, shaped like the temperature one. */
  function HumidityLow(m: Month, day: nat): (low: int)
  {
    ClimateOf(m).humidityLow + Offset(ClimateOf(m).humidityDrift, day)
  }

  function HumidityBound(m: Month, day: nat): (bound: int)
  {
    Bumped(ClimateOf(m).humidityHigh) + Offset(ClimateOf(m).humidityDrift, day)
  }

  /** The body of the `fillDays` loop for day `day`: the record it writes for the given draws. */
  function GenerateDay(year: int, m: Month, day: nat, draw: Draw): (record: DayRecord)
  {
    var c := ClimateOf(m);
    var temperature := Sample(TemperatureLow(m, day), TemperatureBound(m, day), draw.temperature);
    var humidity :=
      if c.humidityLow == 0 && Bumped(c.humidityHigh) == 0 then 0
      else Sample(HumidityLow(m, day), HumidityBound(m, day), draw.humidity);
    var rained := if c.rainChance > draw.rain then 1 else 0;
    DayRecord(year, Ordinal(m) + 1, day, temperature, humidity, rained)
  }

  /**
   * A generated day carries its date, a temperature in the day's interval, a humidity
   * in the day's interval (or 0 in an untracked month) and a rain flag that is 1
   * exactly when the draw falls below the month's chance of rain.
   */
  lemma GeneratedDayFields(year: int, m: Month, day: nat, draw: Draw)
    ensures var r := GenerateDay(year, m, day, draw);
      && r.year == year && r.month == Ordinal(m) + 1 && r.day == day
      && TemperatureLow(m, day) <= r.temperature < TemperatureBound(m, day)
      && (!HumidityTracked(ClimateOf(m)) ==> r.humidity == 0)
      && (HumidityTracked(ClimateOf(m)) ==> HumidityLow(m, day) <= r.humidity < HumidityBound(m, day))
      && (r.rained == 1 <==> ClimateOf(m).rainChance > draw.rain)
      && (r.rained == 0 || r.rained == 1)
  {
  }

  /** The generated temperatures of a day are exactly the integers of its interval. */
  lemma TemperatureRange(year: int, m: Month, day: nat, t: int)
    ensures (exists d: Draw :: GenerateDay(year, m, day, d).temperature == t)
        <==> TemperatureLow(m, day) <= t < TemperatureBound(m, day)
  {
    var lo := TemperatureLow(m, day);
    if lo <= t < TemperatureBound(m, day) {
      SampleReaches(lo, TemperatureBound(m, day), t);
      assert GenerateDay(year, m, day, Draw(t - lo, 0, 0.0)).temperature == t;
    }
  }

  /** The generated humidities of a tracked month's day are exactly the integers of its interval. */
  lemma HumidityRange(year: int, m: Month, day: nat, h: int)
    requires HumidityTracked(ClimateOf(m))
    ensures (exists d: Draw :: GenerateDay(year, m, day, d).humidity == h)
        <==> HumidityLow(m, day) <= h < HumidityBound(m, day)
  {
    var lo := HumidityLow(m, day);
    if lo <= h < HumidityBound(m, day) {
      SampleReaches(lo, HumidityBound(m, day), h);
      assert GenerateDay(year, m, day, Draw(0, h - lo, 0.0)).humidity == h;
    }
  }

  /**
   * September's humidity drift of -22 shifts its lower bound to 11 + (-7) * 3 = -10 on
   * days 30 and later, so a negative humidity can be generated and written.
   */
  lemma SeptemberHumidityCanBeNegative(year: int)
    ensures HumidityLow(September, 30) == -10
    ensures GenerateDay(year, September, 30, Draw(0, 0, 0.0)).humidity == -10
  {
  }

  /** Over the days of any month the table keeps temperature in [28, 84] and humidity in [-10, 69]. */
  lemma GeneratedDayBounds(year: int, m: Month, day: nat, d: Draw)
    requires 1 <= day <= 31
    ensures 28 <= GenerateDay(year, m, day, d).temperature <= 84
    ensures -10 <= GenerateDay(year, m, day, d).humidity <= 69
  {
    var c := ClimateOf(m);
    OffsetBounds(c.tempDrift, day);
    OffsetBounds(c.humidityDrift, day);
  }

  /** With at most 31 days the phase is at most 3, so the shift is at most three steps of `drift / 3`. */
  lemma OffsetBounds(drift: int, day: nat)
    requires day <= 31
    ensures JavaDiv(drift, 3) >= 0 ==> 0 <= Offset(drift, day) <= 3 * JavaDiv(drift, 3)
    ensures JavaDiv(drift, 3) < 0 ==> 3 * JavaDiv(drift, 3) <= Offset(drift, day) <= 0
  {
    var q, p := JavaDiv(drift, 3), day / 10;
    assert p == 0 || p == 1 || p == 2 || p == 3;
    if p == 0 {
      assert Offset(drift, day) == 0;
    } else if p == 1 {
      assert Offset(drift, day) == q;
    } else if p == 2 {
      assert Offset(drift, day) == 2 * q;
    } else {
      assert Offset(drift, day) == 3 * q;
    }
  }

  /**
   * Numbers written in decimal with `seps[k]` between the k-th and the next one:
   * the shape of a line built by Java string concatenation of numbers and separators.
   */
  function Joined(ns: seq<int>, seps: string): (text: string)
    requires |ns| == |seps| + 1
  {
    if seps == [] then IntToString(ns[0]) else IntToString(ns[0]) + [seps[0]] + Joined(ns[1..], seps[1..])
  }

  /** The text `fillDays` writes for one record: `year-month-day,temp,humidity,rain`. */
  function RecordText(r: DayRecord): (text: string)
  {
    Joined([r.year, r.month, r.day, r.temperature, r.humidity, r.rained], "--,,,")
  }

  /** Spelled out, the record text is the source's concatenation of the six numbers. */
  lemma RecordTextSpelledOut(r: DayRecord)
    ensures RecordText(r) == IntToString(r.year) + "-" + IntToString(r.month) + "-" + IntToString(r.day) + ","
      + IntToString(r.temperature) + "," + IntToString(r.humidity) + "," + IntToString(r.rained)
  {
    var a, b, c := IntToString(r.year), IntToString(r.month), IntToString(r.day);
    var d, e, f := IntToString(r.temperature), IntToString(r.humidity), IntToString(r.rained);
    var ns := [r.year, r.month, r.day, r.temperature, r.humidity, r.rained];
    assert Joined(ns[5..], "") == f;
    assert Joined(ns[4..], ",") == e + "," + f by {
      assert ns[4..][1..] == ns[5..];
    }
    assert Joined(ns[3..], ",,") == d + "," + (e + "," + f) by {
      assert ns[3..][1..] == ns[4..];
    }
    assert Joined(ns[2..], ",,,") == c + "," + (d + "," + (e + "," + f)) by {
      assert ns[2..][1..] == ns[3..];
    }
    assert Joined(ns[1..], "-,,,") == b + "-" + (c + "," + (d + "," + (e + "," + f))) by {
      assert ns[1..][1..] == ns[2..];
    }
    assert Joined(ns, "--,,,") == a + "-" + (b + "-" + (c + "," + (d + "," + (e + "," + f))));
    Flatten(a, b, c, d, e, f);
  }

  /** Re-bracketing the five-separator concatenation to the left. */
  lemma Flatten(a: string, b: string, c: string, d: string, e: string, f: string)
    ensures a + "-" + (b + "-" + (c + "," + (d + "," + (e + "," + f))))
         == a + "-" + b + "-" + c + "," + d + "," + e + "," + f
  {
  }

  /** The record's line followed by the blank line the writer adds after it. */
  function DayLine(r: DayRecord): (line: string)
  {
    RecordText(r) + "\n" + "\n"
  }

  /** What appending the records one after the other writes. */
  function Serialize(rs: seq<DayRecord>): (text: string)
  {
    if rs == [] then "" else Serialize(rs[..|rs| - 1]) + DayLine(rs[|rs| - 1])
  }

  /** String concatenation is associative (stated once so proofs can name the step). */
  lemma AppendAssoc(a: string, b: string, c: string)
    ensures a + b + c == a + (b + c)
  {
  }

  /** Writing one more record appends its line. */
  lemma SerializeSnoc(rs: seq<DayRecord>, r: DayRecord)
    ensures Serialize(rs + [r]) == Serialize(rs) + DayLine(r)
  {
    assert (rs + [r])[..|rs|] == rs;
  }

  /** Writing two runs of records one after the other writes their texts one after the other. */
  lemma {:induction false} SerializeAppend(a: seq<DayRecord>, b: seq<DayRecord>)
    ensures Serialize(a + b) == Serialize(a) + Serialize(b)
    decreases |b|
  {
    if b == [] {
      assert a + b == a;
    } else {
      var b', last := b[..|b| - 1], b[|b| - 1];
      assert b == b' + [last];
      assert a + b == (a + b') + [last];
      SerializeAppend(a, b');
      SerializeSnoc(a + b', last);
      SerializeSnoc(b', last);
      AppendAssoc(Serialize(a), Serialize(b'), DayLine(last));
    }
  }

  /** The records `fillDays` writes for a month of `days` days: days 1 to `days`, in order. */
  function MonthRecords(year: int, m: Month, days: int, draws: int -> Draw): (records: seq<DayRecord>)
  {
    if days <= 0 then [] else MonthRecords(year, m, days - 1, draws) + [GenerateDay(year, m, days, draws(days))]
  }

  /** A month of `days` days holds one record per day, day k + 1 at index k. */
  lemma {:induction false} MonthRecordsContents(year: int, m: Month, days: int, draws: int -> Draw)
    ensures |MonthRecords(year, m, days, draws)| == if days < 0 then 0 else days
    ensures forall k :: 0 <= k < |MonthRecords(year, m, days, draws)| ==>
      MonthRecords(year, m, days, draws)[k] == GenerateDay(year, m, k + 1, draws(k + 1))
  {
    if days > 0 {
      MonthRecordsContents(year, m, days - 1, draws);
    }
  }

  /** The text `fillDays` appends for a month of `days` days, built line by line. */
  function MonthText(year: int, m: Month, days: int, draws: int -> Draw): (text: string)
  {
    if days <= 0 then "" else MonthText(year, m, days - 1, draws) + DayLine(GenerateDay(year, m, days, draws(days)))
  }

  /** The month's text is the serialization of the month's records. */
  lemma {:induction false} MonthTextSerialize(year: int, m: Month, days: int, draws: int -> Draw)
    ensures MonthText(year, m, days, draws) == Serialize(MonthRecords(year, m, days, draws))
  {
    if days > 0 {
      MonthTextSerialize(year, m, days - 1, draws);
      SerializeSnoc(MonthRecords(year, m, days - 1, draws), GenerateDay(year, m, days, draws(days)));
    }
  }

  /** The records of the first k months of the year, January first. */
  function MonthsRecords(year: int, draws: Month -> int -> Draw, k: nat): (records: seq<DayRecord>)
    requires k <= MonthCount
  {
    if k == 0 then []
    else
      var m := FromOrdinal(k - 1);
      MonthsRecords(year, draws, k - 1) + MonthRecords(year, m, DaysIn(m, year), draws(m))
  }

  /** Appending month k + 1's text after the first k months gives the first k + 1 months. */
  lemma MonthsRecordsStep(before: string, year: int, draws: Month -> int -> Draw, k: nat)
    requires k < MonthCount
    ensures var m := FromOrdinal(k);
      before + Serialize(MonthsRecords(year, draws, k)) + MonthText(year, m, DaysIn(m, year), draws(m))
      == before + Serialize(MonthsRecords(year, draws, k + 1))
  {
    var m := FromOrdinal(k);
    var month := MonthRecords(year, m, DaysIn(m, year), draws(m));
    MonthTextSerialize(year, m, DaysIn(m, year), draws(m));
    SerializeAppend(MonthsRecords(year, draws, k), month);
    AppendAssoc(before, Serialize(MonthsRecords(year, draws, k)), Serialize(month));
  }

  /** The records `fillMonths` writes for a year. */
  function YearRecords(year: int, draws: Month -> int -> Draw): (records: seq<DayRecord>)
  {
    MonthsRecords(year, draws, MonthCount)
  }

  lemma {:induction false} MonthsRecordsLength(year: int, draws: Month -> int -> Draw, k: nat)
    requires k <= MonthCount
    ensures |MonthsRecords(year, draws, k)| == DaysBefore(k, year)
  {
    if k > 0 {
      MonthsRecordsLength(year, draws, k - 1);
      var m := FromOrdinal(k - 1);
      MonthRecordsContents(year, m, DaysIn(m, year), draws(m));
    }
  }

  /** A generated year holds 365 records, or 366 in a leap year. */
  lemma YearRecordCount(year: int, draws: Month -> int -> Draw)
    ensures |YearRecords(year, draws)| == if IsLeapYear(year) then 366 else 365
  {
    MonthsRecordsLength(year, draws, MonthCount);
    YearLength(year);
  }

  /** The year `fillMonths` picks: `2000 + nextInt(26)`. */
  function YearOf(draw: int): (year: int)
    ensures 2000 <= year <= 2025
  {
    2000 + Sample(0, 26, draw)
  }

  /** The data file at the generator's fixed path. */
  class DataFile {
    var onDisk: bool
    var content: string

    constructor (onDisk: bool, content: string)
      ensures this.onDisk == onDisk && this.content == content
    {
      this.onDisk := onDisk;
      this.content := content;
    }
  }

  /** What pressing "generate" did. */
  datatype GenerateOutcome = Generated | AlreadyExists

  /** The generating half of the splash-screen controller. */
  class SplashController {
    /** The year of the most recent generation (0 before the first one). */
    var year: int
    /** The file at the controller's path. */
    const file: DataFile

    constructor (file: DataFile)
      ensures this.file == file && year == 0
    {
      this.file := file;
      year := 0;
    }

    /**
     * `generateFile`: refuses, leaving the file as it is, when the file exists;
     * otherwise creates it empty and fills it with a fresh year.
     */
    method GenerateFile(yearDraw: int, draws: Month -> int -> Draw) returns (outcome: GenerateOutcome)
      modifies this, file
      ensures old(file.onDisk) ==> outcome == AlreadyExists && year == old(year)
      ensures old(file.onDisk) ==> file.onDisk && file.content == old(file.content)
      ensures !old(file.onDisk) ==> outcome == Generated && file.onDisk && year == YearOf(yearDraw)
      ensures !old(file.onDisk) ==> file.content == Serialize(YearRecords(year, draws))
    {
      if file.onDisk {
        return AlreadyExists;
      }
      file.onDisk, file.content := true, "";
      FillMonths(yearDraw, draws);
      outcome := Generated;
    }

    /** `redoFile`: empties the file (creating it if need be) and fills it with a fresh year. */
    method RedoFile(yearDraw: int, draws: Month -> int -> Draw)
      modifies this, file
      ensures file.onDisk && year == YearOf(yearDraw)
      ensures file.content == Serialize(YearRecords(year, draws))
    {
      file.onDisk, file.content := true, "";
      FillMonths(yearDraw, draws);
    }

    /** `fillMonths`: picks the year, then appends the twelve months in calendar order. */
    method FillMonths(yearDraw: int, draws: Month -> int -> Draw)
      modifies this, file
      ensures year == YearOf(yearDraw) && file.onDisk
      ensures file.content == old(file.content) + Serialize(YearRecords(year, draws))
    {
      year := YearOf(yearDraw);
      for k := 0 to MonthCount
        invariant year == YearOf(yearDraw) && (k > 0 ==> file.onDisk)
        invariant file.content == old(file.content) + Serialize(MonthsRecords(year, draws, k))
      {
        var month := FromOrdinal(k);
        MonthsRecordsStep(old(file.content), year, draws, k);
        FillDays(DaysIn(month, year), month, year, file, draws(month));
      }
    }

    /**
     * One pass of the `fillDays` loop before the write: day `i`'s temperature, humidity
     * and rain from the month's (already bumped) bounds and the day's draws.
     */
    method RollDay(year: int, month: Month, i: int,
                   averageTempLow: int, averageTempHigh: int, tempChange: int,
                   averageHumidityLow: int, averageHumidityHigh: int, humidityChange: int,
                   chanceRain: real, draw: Draw)
      returns (record: DayRecord)
      requires i >= 1
      requires averageTempLow == ClimateOf(month).tempLow && averageTempHigh == Bumped(ClimateOf(month).tempHigh)
      requires tempChange == ClimateOf(month).tempDrift && chanceRain == ClimateOf(month).rainChance
      requires averageHumidityLow == ClimateOf(month).humidityLow
      requires averageHumidityHigh == Bumped(ClimateOf(month).humidityHigh)
      requires humidityChange == ClimateOf(month).humidityDrift
      ensures record == GenerateDay(year, month, i, draw)
    {
      var tempOffset := Offset(tempChange, i);
      var temperature := Sample(averageTempLow + tempOffset, averageTempHigh + tempOffset, draw.temperature);
      var humidity;
      if averageHumidityLow == 0 && averageHumidityHigh == 0 {
        humidity := 0;
      } else {
        var humidityOffset := Offset(humidityChange, i);
        humidity := Sample(averageHumidityLow + humidityOffset, averageHumidityHigh + humidityOffset, draw.humidity);
      }
      var rainOrNot := 0;
      if chanceRain > draw.rain {
        rainOrNot := 1;
      }
      record := DayRecord(year, Ordinal(month) + 1, i, temperature, humidity, rainOrNot);
    }

    /** The write of one pass: day `i`'s line goes after the days already written. */
    method WriteDay(file: DataFile, year: int, month: Month, i: int, draws: int -> Draw,
                    record: DayRecord, ghost before: string)
      modifies file
      requires i >= 1 && record == GenerateDay(year, month, i, draws(i))
      requires file.content == before + MonthText(year, month, i - 1, draws)
      ensures file.onDisk == old(file.onDisk)
      ensures file.content == before + MonthText(year, month, i, draws)
    {
      AppendAssoc(before, MonthText(year, month, i - 1, draws), DayLine(record));
      file.content := file.content + DayLine(record);
    }

    /**
     * `fillDays`: opens the file for appending (creating it if need be) and writes days
     * 1 to `days` of month `month`, each line followed by a blank line.
     */
    method FillDays(days: int, month: Month, year: int, file: DataFile, draws: int -> Draw)
      modifies file
      ensures file.onDisk
      ensures file.content == old(file.content) + MonthText(year, month, days, draws)
    {
      // The source runs its climate switch twelve times over with the same `month`;
      // one lookup assigns the same bounds, and `Bumped` is its raise of a non-zero high.
      var c := ClimateOf(month);
      var averageTempLow, averageTempHigh, tempChange := c.tempLow, Bumped(c.tempHigh), c.tempDrift;
      var averageHumidityLow, averageHumidityHigh, humidityChange :=
        c.humidityLow, Bumped(c.humidityHigh), c.humidityDrift;
      ghost var before := file.content;
      var i := 1;
      while i <= days
        invariant 1 <= i
        invariant i <= days + 1 || i == 1
        invariant file.content == before + MonthText(year, month, i - 1, draws)
      {
        var record := RollDay(year, month, i, averageTempLow, averageTempHigh, tempChange,
          averageHumidityLow, averageHumidityHigh, humidityChange, c.rainChance, draws(i));
        WriteDay(file, year, month, i, draws, record, before);
        i := i + 1;
      }
      assert i - 1 == days || (days < 0 && i == 1);
      // The writer created the file when it opened it; nothing above reads the flag.
      file.onDisk := true;
    }
  }
}
