/**
 * The file the splash-screen controller writes, read back by the analytics
 * controller: every record line is decoded to the values it was written from, the
 * blank separator lines vanish, and the load for month m yields exactly the days the
 * generator produced for m.
 */
module RoundTrip {
  import opened Wrappers
  import opened JavaText
  import opened Calendar
  import opened Generator
  import opened Analytics

  /**
   * A record whose line reads back: its numbers fit in an `int` and the date fields
   * carry no minus sign (a negative year would add an empty first `-` field).
   */
  predicate Printable(r: DayRecord)
  {
    0 <= r.year && 0 <= r.month && 0 <= r.day
    && InInt(r.year) && InInt(r.month) && InInt(r.day)
    && InInt(r.temperature) && InInt(r.humidity) && InInt(r.rained)
  }

  /** The part of a record the analytics controller keeps. */
  function Weather(r: DayRecord): (data: WeatherData)
  {
    WeatherData(r.temperature, r.humidity, r.rained)
  }

  // ---------------------------------------------------------------- one line

  /** A non-negative number is written with digits only. */
  lemma UnsignedText(n: int)
    requires n >= 0
    ensures IntToString(n) != [] && AllDigits(IntToString(n))
    ensures '-' !in IntToString(n) && ',' !in IntToString(n)
  {
    IntToStringShape(n);
    var s := IntToString(n);
    assert forall j :: 0 <= j < |s| ==> IsDigit(s[j]);
  }

  /** Any number is written without commas or line breaks and ends with a digit. */
  lemma SignedText(n: int)
    ensures IntToString(n) != [] && IsDigit(IntToString(n)[|IntToString(n)| - 1])
    ensures ',' !in IntToString(n) && '\n' !in IntToString(n) && '\r' !in IntToString(n)
  {
    IntToStringShape(n);
  }

  /** The line of a record has no line break and is not blank. */
  lemma RecordLineShape(r: DayRecord)
    requires Printable(r)
    ensures NoLineBreak(RecordText(r)) && !IsBlank(RecordText(r))
  {
    RecordTextSpelledOut(r);
    var a, b, c := IntToString(r.year), IntToString(r.month), IntToString(r.day);
    var d, e, f := IntToString(r.temperature), IntToString(r.humidity), IntToString(r.rained);
    UnsignedText(r.year);
    SignedText(r.year);
    SignedText(r.month);
    SignedText(r.day);
    SignedText(r.temperature);
    SignedText(r.humidity);
    SignedText(r.rained);
    var text := RecordText(r);
    assert '\n' !in text && '\r' !in text;
    assert text[0] == a[0];
  }

  /** Splitting on `-` a text whose first two fields are `a` and a non-empty `b` gives `b` as field 1. */
  lemma DashFields(a: string, b: string, c: string, d: string, e: string, f: string)
    requires '-' !in a && '-' !in b && b != []
    ensures var parts := Split(a + "-" + b + "-" + c + "," + d + "," + e + "," + f, '-');
      |parts| >= 2 && parts[1] == b
  {
    var rest := c + "," + d + "," + e + "," + f;
    var text := a + "-" + b + "-" + c + "," + d + "," + e + "," + f;
    assert text == a + ['-'] + (b + ['-'] + rest);
    SplitAllField(a, b + ['-'] + rest, '-');
    SplitAllField(b, rest, '-');
    var parts := SplitAll(text, '-');
    assert parts[1] == b;
    assert text[|a|] == '-';
    var kept := DropTrailingEmpty(parts);
    assert |kept| >= 2;
  }

  /** Splitting on `,` a text of four comma-free fields, the last non-empty, gives the four fields. */
  lemma CommaFields(date: string, d: string, e: string, f: string)
    requires ',' !in date && ',' !in d && ',' !in e && ',' !in f && f != []
    ensures Split(date + "," + d + "," + e + "," + f, ',') == [date, d, e, f]
  {
    var text := date + "," + d + "," + e + "," + f;
    assert text == date + [','] + (d + [','] + (e + [','] + f));
    SplitAllField(date, d + [','] + (e + [','] + f), ',');
    SplitAllField(d, e + [','] + f, ',');
    SplitAllField(e, f, ',');
    SplitAllNoDelimiter(f, ',');
    assert SplitAll(text, ',') == [date, d, e, f];
    assert text[|date|] == ',';
  }

  /** The second `-` field of a record's line is its month. */
  lemma RecordLineMonth(r: DayRecord)
    requires Printable(r)
    ensures LineMonth(RecordText(r)) == Some(r.month)
  {
    RecordTextSpelledOut(r);
    UnsignedText(r.year);
    UnsignedText(r.month);
    DashFields(IntToString(r.year), IntToString(r.month), IntToString(r.day),
      IntToString(r.temperature), IntToString(r.humidity), IntToString(r.rained));
    ParseIntToString(r.month);
  }

  /** Comma fields 1, 2 and 3 of a record's line decode to its temperature, humidity and rain. */
  lemma RecordLineFields(r: DayRecord)
    requires Printable(r)
    ensures FilterDayByDay(RecordText(r)) == Some(Weather(r))
  {
    RecordTextSpelledOut(r);
    var a, b, c := IntToString(r.year), IntToString(r.month), IntToString(r.day);
    UnsignedText(r.year);
    UnsignedText(r.month);
    UnsignedText(r.day);
    SignedText(r.temperature);
    SignedText(r.humidity);
    SignedText(r.rained);
    assert ',' !in a + "-" + b + "-" + c;
    CommaFields(a + "-" + b + "-" + c, IntToString(r.temperature), IntToString(r.humidity), IntToString(r.rained));
    ParseIntToString(r.temperature);
    ParseIntToString(r.humidity);
    ParseIntToString(r.rained);
  }

  // ---------------------------------------------------------------- the file

  /** The lines a reader sees in a written file: each record's line, then an empty line. */
  function Layout(rs: seq<DayRecord>): (lines: seq<string>)
  {
    if rs == [] then [] else [RecordText(rs[0]), ""] + Layout(rs[1..])
  }

  /** The written text starts with the first record's line. */
  lemma SerializeFront(rs: seq<DayRecord>)
    requires rs != []
    ensures Serialize(rs) == DayLine(rs[0]) + Serialize(rs[1..])
  {
    var r, tail := rs[0], rs[1..];
    assert rs == [r] + tail;
    SerializeAppend([r], tail);
    assert Serialize([r]) == DayLine(r) by {
      assert [r][..0] == [];
    }
  }

  /** A break-free line followed by two line ends reads as that line and an empty one. */
  lemma LinesOfTwoBreaks(t: string, rest: string)
    requires NoLineBreak(t)
    ensures Lines(t + "\n" + "\n" + rest) == [t, ""] + Lines(rest)
  {
    assert t + "\n" + "\n" + rest == t + "\n" + ("" + "\n" + rest);
    LinesOfLineThen(t, "" + "\n" + rest);
    LinesOfLineThen("", rest);
  }

  /** Reading the written text line by line gives the layout. */
  lemma {:induction false} LinesOfSerialize(rs: seq<DayRecord>)
    requires forall k :: 0 <= k < |rs| ==> Printable(rs[k])
    ensures Lines(Serialize(rs)) == Layout(rs)
  {
    if rs != [] {
      SerializeFront(rs);
      LinesOfSerialize(rs[1..]);
      RecordLineShape(rs[0]);
      LinesOfTwoBreaks(RecordText(rs[0]), Serialize(rs[1..]));
    }
  }

  /** The weather of the records of month number `monthNum`, in order. */
  function MonthWeather(rs: seq<DayRecord>, monthNum: int): (data: seq<WeatherData>)
  {
    if rs == [] then []
    else (if rs[0].month == monthNum then [Weather(rs[0])] else []) + MonthWeather(rs[1..], monthNum)
  }

  /** A record line and its separator contribute the record when its month is selected. */
  lemma SelectRecordLine(t: string, month: int, w: WeatherData, rest: seq<string>, monthNum: int)
    requires !IsBlank(t) && LineMonth(t) == Some(month) && FilterDayByDay(t) == Some(w)
    requires SelectMonth(rest, monthNum).Success?
    ensures SelectMonth([t, ""] + rest, monthNum)
      == Success((if month == monthNum then [w] else []) + SelectMonth(rest, monthNum).value)
  {
    var lines := [t, ""] + rest;
    assert lines[0] == t && lines[1..][0] == "" && lines[1..][1..] == rest;
    assert IsBlank("");
    SelectMonthStep(lines[1..], monthNum);
    assert SelectMonth(lines[1..], monthNum) == SelectMonth(rest, monthNum);
    SelectMonthStep(lines, monthNum);
  }

  /** The pipeline keeps the records of the month and drops the separator lines. */
  lemma {:induction false} SelectLayout(rs: seq<DayRecord>, monthNum: int)
    requires forall k :: 0 <= k < |rs| ==> Printable(rs[k])
    ensures SelectMonth(Layout(rs), monthNum) == Success(MonthWeather(rs, monthNum))
  {
    if rs != [] {
      SelectLayout(rs[1..], monthNum);
      RecordLineShape(rs[0]);
      RecordLineMonth(rs[0]);
      RecordLineFields(rs[0]);
      SelectRecordLine(RecordText(rs[0]), rs[0].month, Weather(rs[0]), Layout(rs[1..]), monthNum);
    }
  }

  /**
   * Loading a written file for a month yields, in file order, the temperature,
   * humidity and rain of exactly the records of that month.
   */
  lemma LoadSerialized(rs: seq<DayRecord>, month: Month)
    requires forall k :: 0 <= k < |rs| ==> Printable(rs[k])
    ensures LoadWeatherData(Serialize(rs), month) == Success(MonthWeather(rs, Ordinal(month) + 1))
  {
    LinesOfSerialize(rs);
    SelectLayout(rs, Ordinal(month) + 1);
  }

  // ---------------------------------------------------------------- the year

  /** Filtering by month distributes over concatenation. */
  lemma {:induction false} MonthWeatherAppend(a: seq<DayRecord>, b: seq<DayRecord>, monthNum: int)
    ensures MonthWeather(a + b, monthNum) == MonthWeather(a, monthNum) + MonthWeather(b, monthNum)
  {
    if a != [] {
      assert (a + b)[1..] == a[1..] + b;
      MonthWeatherAppend(a[1..], b, monthNum);
    } else {
      assert a + b == b;
    }
  }

  /** Records all of month `monthNum` are kept whole by the filter for it. */
  lemma {:induction false} MonthWeatherAll(rs: seq<DayRecord>, monthNum: int)
    requires forall k :: 0 <= k < |rs| ==> rs[k].month == monthNum
    ensures |MonthWeather(rs, monthNum)| == |rs|
    ensures forall k :: 0 <= k < |rs| ==> MonthWeather(rs, monthNum)[k] == Weather(rs[k])
  {
    if rs != [] {
      MonthWeatherAll(rs[1..], monthNum);
    }
  }

  /** Records none of which is of month `monthNum` are all dropped by the filter for it. */
  lemma {:induction false} MonthWeatherNone(rs: seq<DayRecord>, monthNum: int)
    requires forall k :: 0 <= k < |rs| ==> rs[k].month != monthNum
    ensures MonthWeather(rs, monthNum) == []
  {
    if rs != [] {
      MonthWeatherNone(rs[1..], monthNum);
    }
  }

  /** Blocks 0 to k - 1 of `f`, one after the other. */
  function Blocks(f: nat -> seq<DayRecord>, k: nat): (records: seq<DayRecord>)
  {
    if k == 0 then [] else Blocks(f, k - 1) + f(k - 1)
  }

  /** Every record of block j is dated in month j + 1. */
  ghost predicate BlocksByMonth(f: nat -> seq<DayRecord>)
  {
    forall j: nat, i :: 0 <= i < |f(j)| ==> f(j)[i].month == j + 1
  }

  /** Every record of every block reads back. */
  ghost predicate BlocksPrintable(f: nat -> seq<DayRecord>)
  {
    forall j: nat, i :: 0 <= i < |f(j)| ==> Printable(f(j)[i])
  }

  /** Appending records of other months leaves the filtered records as they were. */
  lemma AppendOtherMonth(before: seq<DayRecord>, block: seq<DayRecord>, monthNum: int)
    requires forall i :: 0 <= i < |block| ==> block[i].month != monthNum
    ensures MonthWeather(before + block, monthNum) == MonthWeather(before, monthNum)
  {
    MonthWeatherAppend(before, block, monthNum);
    MonthWeatherNone(block, monthNum);
    assert MonthWeather(before, monthNum) + [] == MonthWeather(before, monthNum);
  }

  /** After records none of which is kept, the filtered records are those of what follows. */
  lemma AppendAfterNone(before: seq<DayRecord>, block: seq<DayRecord>, monthNum: int)
    requires MonthWeather(before, monthNum) == []
    ensures MonthWeather(before + block, monthNum) == MonthWeather(block, monthNum)
  {
    MonthWeatherAppend(before, block, monthNum);
    assert [] + MonthWeather(block, monthNum) == MonthWeather(block, monthNum);
  }

  /** In blocks dated by month, the records of month o + 1 are those of block o. */
  lemma {:induction false} BlocksWeather(f: nat -> seq<DayRecord>, k: nat, o: nat)
    requires BlocksByMonth(f)
    ensures o < k ==> MonthWeather(Blocks(f, k), o + 1) == MonthWeather(f(o), o + 1)
    ensures k <= o ==> MonthWeather(Blocks(f, k), o + 1) == []
  {
    if k == 0 {
      assert Blocks(f, k) == [];
    } else {
      BlocksWeather(f, k - 1, o);
      var before, block := Blocks(f, k - 1), f(k - 1);
      assert Blocks(f, k) == before + block;
      if o == k - 1 {
        AppendAfterNone(before, block, o + 1);
      } else {
        assert forall i :: 0 <= i < |block| ==> block[i].month != o + 1;
        AppendOtherMonth(before, block, o + 1);
      }
    }
  }

  /** Blocks of printable records concatenate to printable records. */
  lemma {:induction false} BlocksAllPrintable(f: nat -> seq<DayRecord>, k: nat)
    requires BlocksPrintable(f)
    ensures forall i :: 0 <= i < |Blocks(f, k)| ==> Printable(Blocks(f, k)[i])
  {
    if k > 0 {
      BlocksAllPrintable(f, k - 1);
      var before, block := Blocks(f, k - 1), f(k - 1);
      var all := before + block;
      forall i | 0 <= i < |all| ensures Printable(all[i]) {
        if i >= |before| {
          assert all[i] == block[i - |before|];
        }
      }
    }
  }

  /** Month block j of a generated year; there is nothing after December. */
  function YearBlock(year: int, draws: Month -> int -> Draw): (block: nat -> seq<DayRecord>)
  {
    (j: nat) => if j < MonthCount then MonthRecords(year, FromOrdinal(j), DaysIn(FromOrdinal(j), year), draws(FromOrdinal(j)))
         else []
  }

  /** The first k months of a generated year are its first k month blocks. */
  lemma {:induction false} YearBlocks(year: int, draws: Month -> int -> Draw, k: nat)
    requires k <= MonthCount
    ensures MonthsRecords(year, draws, k) == Blocks(YearBlock(year, draws), k)
  {
    var f := YearBlock(year, draws);
    if k == 0 {
      assert Blocks(f, k) == [];
    } else {
      YearBlocks(year, draws, k - 1);
      var m := FromOrdinal(k - 1);
      assert f(k - 1) == MonthRecords(year, m, DaysIn(m, year), draws(m));
      assert Blocks(f, k) == Blocks(f, k - 1) + f(k - 1);
    }
  }

  /** Block j of a generated year holds the days of month j + 1, and each of them reads back. */
  lemma YearBlockShape(year: int, draws: Month -> int -> Draw)
    requires 0 <= year <= IntMax
    ensures BlocksByMonth(YearBlock(year, draws)) && BlocksPrintable(YearBlock(year, draws))
  {
    var f := YearBlock(year, draws);
    forall j: nat, i | 0 <= i < |f(j)| ensures f(j)[i].month == j + 1 && Printable(f(j)[i]) {
      var m := FromOrdinal(j);
      MonthRecordsContents(year, m, DaysIn(m, year), draws(m));
      GeneratedDayBounds(year, m, i + 1, draws(m)(i + 1));
    }
  }

  /** The records of month m in a generated year are the days generated for m. */
  lemma YearMonthWeather(year: int, draws: Month -> int -> Draw, m: Month)
    requires 0 <= year <= IntMax
    ensures MonthWeather(YearRecords(year, draws), Ordinal(m) + 1)
      == MonthWeather(MonthRecords(year, m, DaysIn(m, year), draws(m)), Ordinal(m) + 1)
  {
    var f := YearBlock(year, draws);
    YearBlocks(year, draws, MonthCount);
    YearBlockShape(year, draws);
    BlocksWeather(f, MonthCount, Ordinal(m));
    OrdinalInjective(FromOrdinal(Ordinal(m)), m);
  }

  /** Loading the generated year file for month m yields the filtered days of m. */
  lemma YearLoads(year: int, draws: Month -> int -> Draw, m: Month)
    requires 0 <= year <= IntMax
    ensures LoadWeatherData(Serialize(YearRecords(year, draws)), m)
      == Success(MonthWeather(MonthRecords(year, m, DaysIn(m, year), draws(m)), Ordinal(m) + 1))
  {
    YearBlocks(year, draws, MonthCount);
    YearBlockShape(year, draws);
    BlocksAllPrintable(YearBlock(year, draws), MonthCount);
    LoadSerialized(YearRecords(year, draws), m);
    YearMonthWeather(year, draws, m);
  }

  /** The days generated for month m all pass the filter for m, in order. */
  lemma MonthWeatherGenerated(year: int, m: Month, days: int, draw: int -> Draw)
    ensures var ws := MonthWeather(MonthRecords(year, m, days, draw), Ordinal(m) + 1);
      |ws| == (if days < 0 then 0 else days)
      && forall k :: 0 <= k < |ws| ==> ws[k] == Weather(GenerateDay(year, m, k + 1, draw(k + 1)))
  {
    MonthRecordsContents(year, m, days, draw);
    MonthWeatherAll(MonthRecords(year, m, days, draw), Ordinal(m) + 1);
  }

  /**
   * The round trip: loading the generated year file for month m succeeds with one
   * record per day of m, day k + 1 at index k, carrying the values generated for it.
   */
  lemma GeneratedMonthLoads(year: int, draws: Month -> int -> Draw, m: Month)
    requires 0 <= year <= IntMax
    ensures LoadWeatherData(Serialize(YearRecords(year, draws)), m).Success?
    ensures var ws := LoadWeatherData(Serialize(YearRecords(year, draws)), m).value;
      |ws| == DaysIn(m, year)
      && forall k :: 0 <= k < |ws| ==> ws[k] == Weather(GenerateDay(year, m, k + 1, draws(m)(k + 1)))
  {
    YearLoads(year, draws, m);
    MonthWeatherGenerated(year, m, DaysIn(m, year), draws(m));
  }

  /**
   * Summarising a month of a generated file is the summary of the records loaded for
   * it, it never meets the empty-month case, and it counts at most one rainy day per
   * day of the month.
   */
  lemma GeneratedMonthSummary(year: int, draws: Month -> int -> Draw, m: Month)
    requires 0 <= year <= IntMax
    ensures LoadWeatherData(Serialize(YearRecords(year, draws)), m).Success?
    ensures var ws := LoadWeatherData(Serialize(YearRecords(year, draws)), m).value;
      MonthSummary(true, Serialize(YearRecords(year, draws)), m) == Summarize(ws)
      && Summarize(ws).Success?
      && Summarize(ws).value.daysRained <= DaysIn(m, year)
  {
    GeneratedMonthLoads(year, draws, m);
    var ws := LoadWeatherData(Serialize(YearRecords(year, draws)), m).value;
    RainyDaysCount(ws);
  }
}
